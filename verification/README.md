# go-meta-extractor in Dafny

A model of the core of `go-meta-extractor`. Its `Extract` function reads an
HTML document as a stream of tokens and fills a `Tags` record with sixteen
metadata fields. The fields are the page title, the `description` and
`author` meta tags, and a set of Open Graph (`og:*`) and Twitter card
(`twitter:*`) properties.

The model has these parts:

- `Bytes`: Go strings as byte sequences, and the UTF-8 continuation-byte test.
- `Definitions`: the `Tags` record, a `Field` name for each of its sixteen
  fields, the tag-name and attribute-key constants, and the fifteen
  recognised meta property identifiers with their spellings.
- `Tokens`: the tokens the HTML tokenizer delivers. This is the extractor's
  input. The end of the stream is the tokenizer's error token.
- `MetaProperty`: `extractMetaProperty`, one pass over a tag's attributes.
  It returns the last `content` value, and whether some `property` or `name`
  attribute equals the requested identifier.
- `Truncate`: `truncateField`, which caps a field at a number of bytes
  without splitting a UTF-8 character.
- `Extractor`: the extraction loop as a fold over tokens.
  - The state is the record plus the `titleFound` flag.
  - The chain of fifteen `if value, ok = extractMetaProperty(...)` blocks is
    a table: `Target` gives the field each identifier assigns, and
    `Fallback` gives the field it fills only while that field is empty.
  - Every block that fires inside one meta tag writes the same value: the
    capped last `content`. So the effect of a meta tag is characterised
    field by field.
- `ExtractorProperties`: lemmas about the fold.
  - Where scanning stops, and that later tokens do not matter.
  - The title flag.
  - The meta-tag policy: which identifiers match, fallbacks, exact matching.
  - Scenarios in document order taken from the repository's tests.
- `ExtractLoop`: the Go code's shape written imperatively, proved equal to
  the fold. It has one loop over the tokens with a mutable record and flag.
  Each of the fifteen meta blocks is a method with its own `if` statements.

`MaxFieldLength` is defined outside `extractor.go` and `definitions.go`.
Its value plays no role in any property, so it is the parameter `cap`
throughout.

Behaviours of the code that a reader might not expect, modelled as written:

- **One tag can match several identifiers.** Because the fifteen identifiers
  are distinct strings, one might expect a meta tag to match at most one of
  them. But each of the fifteen blocks calls `extractMetaProperty`
  separately, and a tag can carry both a `property` and a `name` attribute.
  A tag with `property="og:title"` and `name="twitter:title"` fires both
  blocks, and both write the tag's one (last) `content` value. `ApplyMeta`
  and `OneTagSeveralIdentifiers` state this behaviour.
- **A fallback does not protect a field against its owner.** The
  `og:`/`twitter:` fallbacks fill `Title`, `Description`, `Author` and
  `OGImage` only while they are empty. The test looks only at the current
  value, so between fallbacks the first one whose capped value is non-empty
  wins: an `og:title` tag with empty content leaves `Title` open for a
  later `twitter:title` tag (`EmptyFallbackLeavesFieldOpen`). The blocks for `description`, `author` and `og:image`
  (extractor.go:41-47, 63-65) assign unconditionally, so a later tag
  carrying one of them overwrites a value a fallback put there.
  `LaterOwnerOverridesFallback` states this for two tags in a row.
- **The title flag stays armed after an empty title element.** The flag
  is armed by any `title` tag and disarmed only by a text token. An
  empty `<title></title>` therefore leaves it armed. The next text token,
  which may be whitespace between later tags, then replaces `Title`, even
  when an `og:title` or `twitter:title` fallback had filled it.
  `EmptyTitleStaysArmed` states this.

## Model

| member | source | states |
|---|---|---|
| Definitions.Set | definitions.go:4-21 | Writing one field of the record changes that field to the new value and leaves the other fifteen fields as they were. |
| Definitions.EmptyTags | definitions.go:4-21 | The zero `Tags` value has every one of the sixteen fields empty. |
| Definitions.FieldsDetermineTags | definitions.go:4-21 | The record is nothing but its sixteen fields: two records that agree on every field are equal. |
| Definitions.IdentifyName | definitions.go:27-49 | The fingerprint (length and two bytes) of each identifier's spelling recovers that identifier, so the spellings are pairwise distinct. |
| Definitions.PropertyNamesDistinct | definitions.go:31-48 | Two identifiers have the same spelling only if they are the same identifier: the fifteen constants are distinct strings. |
| Definitions.StructuralNamesDistinct | definitions.go:28-41 | The tag names `body`, `meta` and `title` are distinct, and so are the attribute keys `property`, `name` and `content`. |
| Truncate.CutPoint | extractor.go:139-146 | The downward scan stops at the largest position not above its start that is 0 or holds a non-continuation byte; every byte skipped on the way is a continuation byte. |
| Truncate.TruncateField | extractor.go:132-149 | A value within the cap is returned unchanged. A longer value becomes a prefix of at most `maxLen` bytes that is empty or followed by a non-continuation byte, and every byte between its end and `maxLen` is a continuation byte. |
| Truncate.TruncateIdempotent | extractor.go:132-149 | Truncating an already truncated value changes nothing. |
| Truncate.TruncateEmptyIff | extractor.go:139-148 | Truncation yields the empty string exactly when the value was empty, or is over the cap with continuation bytes at every position from 1 to `maxLen`. |
| Truncate.TruncateKeepsWholeCharacters | extractor.go:143-144 | A non-empty truncation shorter than the value ends on a character boundary: the next byte of the value is not a continuation byte. |
| Truncate.TruncateIsLongest | extractor.go:139-145 | Every character-boundary prefix within the cap is no longer than the truncation, so the truncation is the longest such prefix. |
| Truncate.TruncateFieldLoop | extractor.go:132-149 | The loop as written in Go (walk `i` down from `maxLen`, return `""` at 0 or `s[:i]` at the first non-continuation byte) computes `TruncateField`. |
| MetaProperty.Scan | extractor.go:153-162 | Resumed from any accumulator, the loop reports a match iff the accumulator had one or some attribute names the identifier, and its content is that of the last `content` attribute, or the accumulator's if there is none. |
| MetaProperty.ExtractMetaProperty | extractor.go:152-165 | `ok` holds iff some `property` or `name` attribute's value equals `prop`; `content` is the value of the last `content` attribute, or empty when there is none. |
| MetaProperty.LastContentExists | extractor.go:159-161 | When some attribute is a `content` attribute, there is a last one, and its value is the reference reading `LastContent`. |
| MetaProperty.LastContentAbsent | extractor.go:159-161 | With no `content` attribute, the reference reading is empty. |
| MetaProperty.ContentIsLastContent | extractor.go:152-165 | The returned content equals the backwards-scan reference `LastContent`, whatever identifier is requested. |
| MetaProperty.ContentIgnoresProperty | extractor.go:159-161 | The returned content does not depend on the requested identifier. |
| MetaProperty.OkIgnoresOrder | extractor.go:153-157 | Permuting the attributes (same multiset) never changes whether the tag matches. |
| MetaProperty.PairedAttributes | extractor_fuzz_test.go:88-95 | For two attributes, the first naming the identifier and the second a `content` attribute, a match returns the second attribute's value. |
| MetaProperty.UnpairedContent | extractor.go:153-162 | `content` is not paired with the identifier: in a tag with two identifiers and two contents, both identifiers match and both see the last content. |
| MetaProperty.MatchIsExact | extractor.go:154-155 | A `property` or `name` value that differs from the identifier in any way does not match it; there is no prefix or case-insensitive matching. |
| Extractor.SourceOrderComplete | extractor.go:41-116 | The meta chain tests fifteen identifiers, each exactly once. |
| Extractor.TargetTable | extractor.go:41-116 | No two identifiers assign the same field. No identifier assigns `Title` directly. No identifier falls back onto its own field. |
| Extractor.TablesAgree | extractor.go:41-116 | The per-field tables `Owner` and `Backfillers` are exactly the per-identifier tables `Target` and `Fallback` read backwards. |
| Extractor.BackfillerListed | extractor.go:49-102 | A matching identifier that falls back onto a field makes the tag backfill that field in the per-field reading. |
| Extractor.ListedBackfills | extractor.go:49-102 | A matching backfiller of a field is one of the identifiers tested in source order, and it falls back onto that field. |
| Extractor.ApplyProperty | extractor.go:49-54 | One block: if the tag matches, the identifier's own field gets the capped content and its fallback field gets it only if empty at that moment; otherwise, and for all other fields, nothing changes. |
| Extractor.ApplyAll | extractor.go:41-116 | Running any sequence of blocks: a field takes the capped content iff some matching identifier of the sequence targets it, or it was empty and some matching identifier falls back onto it. |
| Extractor.SourceOrderAssigns | extractor.go:41-116 | Some identifier in source order matches and assigns a field iff that field's owner matches. |
| Extractor.SourceOrderBackfills | extractor.go:49-102 | Some identifier in source order matches and falls back onto a field iff one of that field's backfillers matches. |
| Extractor.ApplyMeta | extractor.go:39-117 | A meta tag, field by field: the field takes the tag's capped last `content` if the tag names the field's own identifier, or if the field is empty and the tag names an identifier that falls back onto it; otherwise it is unchanged. |
| Extractor.Initial | extractor.go:21-23 | Extraction starts with every field empty and the title flag down. |
| Extractor.StepSpec | extractor.go:28-126 | One loop iteration. The flag is armed by a `title` tag and stays armed until a text token. A text token with the flag armed sets `Title` to its capped data. A `meta` tag applies the meta policy. Nothing else touches the record. |
| Extractor.ApplyMetaWithinCap | extractor.go:39-117 | Processing a meta tag keeps every field within the cap. |
| Extractor.SetWithinCap | extractor.go:118-123 | Writing a value within the cap into one field keeps the whole record within the cap. |
| Extractor.StepWithinCap | extractor.go:28-126 | One iteration keeps every field within the cap. |
| Extractor.Run | extractor.go:26-127 | The loop from any state preserves "every field within the cap". |
| Extractor.Extract | extractor.go:16-128 | Every field of the result is at most `cap` bytes. An empty stream, or one whose first token stops the loop, yields the empty record. |
| ExtractorProperties.StopIndex | extractor.go:29-35 | The first token that stops the loop (an error or a `body` tag), or the length of the stream: every token before it is processed. |
| ExtractorProperties.RunCons | extractor.go:26-127 | A stream that starts with a non-stopping token is one iteration followed by the rest of the loop. |
| ExtractorProperties.RunAppend | extractor.go:26-127 | Over a prefix with no stopping token, the loop runs the prefix and then continues from the state it reached. |
| ExtractorProperties.StopIgnoresRest | extractor.go:29-35 | Once a stopping token is reached, the state is returned and the tokens after it are never looked at. |
| ExtractorProperties.ExtractStopsAt | extractor.go:29-35 | Extracting from a stream with a stopping token gives the same record as extracting from the tokens before it. |
| ExtractorProperties.ExtractIgnoresAfterStop | extractor.go:29-35 | Whatever follows a stopping token can be replaced by anything without changing the result. |
| ExtractorProperties.ExtractCutAtStop | extractor.go:29-35 | The result depends only on the tokens before a stopping token. |
| ExtractorProperties.ExtractReadsOnlyPreamble | extractor.go:29-35 | The result is the result on the stream cut at its first stopping token. |
| ExtractorProperties.BodyEndsExtraction | extractor.go:33-35 | Whatever follows a `body` start or self-closing tag is ignored. |
| ExtractorProperties.ArmedUntilText | extractor.go:36-38 | Once armed, the title flag stays armed over any tokens that are neither text nor stopping. |
| ExtractorProperties.TitleTakesNextText | extractor.go:118-123 | The first text token after a `title` tag sets `Title` to its capped data and disarms the flag, however many non-text tokens come between. |
| ExtractorProperties.DisarmedTextIgnored | extractor.go:118-123 | A text token with the flag down changes nothing. |
| ExtractorProperties.UnmatchedMetaFieldwise | extractor.go:39-117 | A meta tag that names no recognised identifier leaves every field as it was. |
| ExtractorProperties.UnmatchedMetaChangesNothing | extractor.go:39-117 | A meta tag that names no recognised identifier leaves the record unchanged. |
| ExtractorProperties.ApplyMetaKeepsTitle | extractor.go:49-54 | A meta tag never replaces a non-empty `Title`. |
| ExtractorProperties.MetaNeverOverwritesTitle | extractor.go:49-88 | After a non-empty title, a later meta tag leaves `Title` as it was. |
| ExtractorProperties.PropertyTagMatchesOnly | extractor.go:152-165 | `<meta property="p" content="c">` matches identifier `p` and no other, and its content is `c`. |
| ExtractorProperties.OnlyMatchAssigns | extractor.go:41-116 | A tag that names exactly one identifier assigns that identifier's field and no other. |
| ExtractorProperties.OnlyMatchBackfills | extractor.go:49-102 | A tag that names exactly one identifier backfills exactly that identifier's fallback field. |
| ExtractorProperties.EmptyFallbackLeavesFieldOpen | extractor.go:49-104 | Two fallback tags for the same empty field, the first with content that caps to empty: the field ends up holding the second tag's capped content, so the first fallback seen does not win. |
| ExtractorProperties.SinglePropertyTag | extractor.go:41-116 | `<meta property="p" content="c">` sets `p`'s field to capped `c`. It also sets `p`'s fallback field if that is empty. Every other field is unchanged. |
| ExtractorProperties.OneTagSeveralIdentifiers | extractor.go:41-116 | A tag with `property="p"` and `name="q"` assigns the capped content to both `p`'s and `q`'s fields. |
| ExtractorProperties.NoPrefixMatches | extractor.go:108-116 | `twitter:player:width` and `twitter:player:height` do not match `twitter:player`, and `og:description` does not match `description`. |
| ExtractorProperties.TwitterSiteIgnored | extractor_test.go:405 | A `twitter:site` meta tag changes nothing: it is not a recognised identifier. |
| ExtractorProperties.InertStep | extractor.go:31-39 | An end tag, comment, doctype, or a start or self-closing tag other than `title`, `meta` and `body`, does not stop the loop and leaves the state as it was. |
| ExtractorProperties.RunInert | extractor.go:124-125 | A run of inert tokens leaves the state as it was. |
| ExtractorProperties.ExtractAfterInert | extractor.go:31-39 | Inert tokens in front of a document, such as `<html><head>`, do not change what is extracted. |
| ExtractorProperties.RunTwo | extractor.go:26-127 | Two leading non-stopping tokens are two iterations followed by the rest of the loop. |
| ExtractorProperties.TitleElement | extractor.go:36-38 | A `title` start tag followed by text sets `Title` to the capped text and disarms the flag. |
| ExtractorProperties.TitleElementSetsTitle | extractor_test.go:49 | `<html><head><title>data</title></head></html>` yields `Title` equal to the capped text, and every other field empty. |
| ExtractorProperties.TitleElementAlone | extractor.go:36-38 | `<title>data</title>` followed by inert tokens yields `Title` equal to the capped text, and every other field empty. |
| ExtractorProperties.FallbackMetaFills | extractor.go:49-102 | A tag whose identifier falls back onto an empty field fills it with the capped content and leaves the title flag as it was. |
| ExtractorProperties.DirectMetaAssigns | extractor.go:41-116 | A tag naming an identifier sets that identifier's own field to the capped content, whatever the field held before. |
| ExtractorProperties.RunOne | extractor.go:26-127 | A one-token stream that does not stop the loop is one step. |
| ExtractorProperties.RunPair | extractor.go:26-127 | A two-token stream that does not stop the loop is two steps. |
| ExtractorProperties.FallbackFillsEmptyField | extractor.go:56-61 | A single fallback tag such as `og:description` fills its empty fallback field with the capped content. |
| ExtractorProperties.LaterOwnerOverridesFallback | extractor.go:41-61 | After a fallback tag such as `og:description`, a tag naming the field's owner, such as `description`, overwrites the field with its own capped content. |
| ExtractorProperties.TitleTagArms | extractor.go:36-38 | A `title` start tag arms the flag and leaves the record unchanged. |
| ExtractorProperties.FallbackSurvivesEmptyTitle | extractor_test.go:53 | `<html><head><meta property="og:title" content="c"/><title></title></head></html>` yields `Title` equal to capped `c`. |
| ExtractorProperties.FallbackAloneSurvivesEmptyTitle | extractor.go:49-54 | A title fallback tag, then an empty title element and inert tokens, leave `Title` equal to the fallback's capped content. |
| ExtractorProperties.RunSnoc | extractor.go:26-127 | Over a prefix with no stopping token, one more token is one more iteration. |
| ExtractorProperties.ArmedTakesNextText | extractor.go:118-123 | With the flag armed, tokens that are neither text nor stopping followed by a text token leave `Title` equal to the capped text. |
| ExtractorProperties.TitleTagThenText | extractor.go:36-38 | A `title` start tag, then tokens that are neither text nor stopping, then text: `Title` is the capped text. |
| ExtractorProperties.EmptyTitleStaysArmed | extractor.go:118-123 | After a meta tag and an empty title element, the next text token (whitespace included) becomes `Title`. |
| ExtractorProperties.TitleElementBeatsLaterMeta | extractor_test.go:394-396 | `<title>data</title>` followed by any meta tag keeps the title text when it is non-empty after capping. |
| ExtractLoop.ApplyAllAppend | extractor.go:41-116 | Running the blocks of `a` and then those of `b` is running the blocks of `a + b`. |
| ExtractLoop.NextBlock | extractor.go:41-116 | The first `k` blocks followed by block `k` are the first `k + 1` blocks. |
| ExtractLoop.DescriptionBlock | extractor.go:41-43 | The `description` block as written equals its table-driven meaning. |
| ExtractLoop.AuthorBlock | extractor.go:45-47 | The `author` block as written equals its table-driven meaning. |
| ExtractLoop.OGTitleBlock | extractor.go:49-54 | The `og:title` block, including its fill-if-empty of `Title`, equals its table-driven meaning. |
| ExtractLoop.OGDescriptionBlock | extractor.go:56-61 | The `og:description` block, including its fill-if-empty of `Description`, equals its table-driven meaning. |
| ExtractLoop.OGImageBlock | extractor.go:63-65 | The `og:image` block as written equals its table-driven meaning. |
| ExtractLoop.OGSiteNameBlock | extractor.go:67-69 | The `og:site_name` block as written equals its table-driven meaning. |
| ExtractLoop.OGPublisherBlock | extractor.go:71-73 | The `og:publisher` block as written equals its table-driven meaning. |
| ExtractLoop.OGAuthorBlock | extractor.go:75-80 | The `og:author` block, including its fill-if-empty of `Author`, equals its table-driven meaning. |
| ExtractLoop.TwitterTitleBlock | extractor.go:83-88 | The `twitter:title` block, including its fill-if-empty of `Title`, equals its table-driven meaning. |
| ExtractLoop.TwitterDescriptionBlock | extractor.go:90-95 | The `twitter:description` block, including its fill-if-empty of `Description`, equals its table-driven meaning. |
| ExtractLoop.TwitterImageBlock | extractor.go:97-102 | The `twitter:image` block, including its fill-if-empty of `OGImage`, equals its table-driven meaning. |
| ExtractLoop.TwitterCardBlock | extractor.go:104-106 | The `twitter:card` block as written equals its table-driven meaning. |
| ExtractLoop.TwitterPlayerBlock | extractor.go:108-110 | The `twitter:player` block as written equals its table-driven meaning. |
| ExtractLoop.TwitterPlayerWidthBlock | extractor.go:111-113 | The `twitter:player:width` block as written equals its table-driven meaning. |
| ExtractLoop.TwitterPlayerHeightBlock | extractor.go:114-116 | The `twitter:player:height` block as written equals its table-driven meaning. |
| ExtractLoop.Block | extractor.go:41-116 | Any one block, chosen by identifier, equals its table-driven meaning. |
| ExtractLoop.ProcessMeta | extractor.go:39-117 | The fifteen blocks executed in source order on a mutable record compute `ApplyMeta`: the per-field characterisation above. |
| ExtractLoop.HandleToken | extractor.go:28-126 | One iteration of the Go `switch`, on a mutable record and `titleFound` flag, computes the fold's step. |
| ExtractLoop.ExtractByLoop | extractor.go:16-128 | The Go loop, returning at the first error or `body` tag, computes `Extract`. |

## Left out

- The HTML tokenizer (`html.NewTokenizer`, `z.Next`, `z.Token`) is not modelled. The input is the token sequence it would produce. Lower-casing of tag names, entity decoding and RCDATA handling of `<title>` contents all happen inside it.
- `io.Reader` and reading errors: the end of the token sequence stands for the tokenizer's error token, whether that is end of file or a read error.
- `MaxFieldLength` is defined outside `extractor.go` and `definitions.go`. Its value plays no role, so it is the parameter `cap`.
- Negative `maxLen` is not modelled: `cap` is a `nat`, because the only caller passes the positive constant.
- UTF-8 validity of results is not stated. Truncation never splits a character, but a value that was invalid UTF-8 to begin with stays invalid. The fuzz tests' `utf8.ValidString` checks depend on the tokenizer's output, which is not modelled.
- The JSON struct tags on `Tags` are serialisation metadata with no effect on extraction.
- The `todo` about `apple-mobile-web-app-title` (definitions.go:23-24) is not implemented in the source and not modelled.
- The example program, the benchmarks, `t.Parallel`, and the fuzz tests' panic recovery and logging are test and tooling code, not behaviour of the core.
- Extractor.Run: the contract states only that the cap is preserved. What the loop computes is given by its definition and characterised by the `ExtractorProperties` lemmas and by `ExtractLoop.ExtractByLoop`.
