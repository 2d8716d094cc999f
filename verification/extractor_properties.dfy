/**
 Properties of the extractor over whole token streams: where scanning
 stops, how the title flag behaves, and how the meta-tag fallbacks resolve
 in document order.
 */
module ExtractorProperties {
  import opened Bytes
  import opened Definitions
  import opened Tokens
  import opened MetaProperty
  import opened Truncate
  import opened Extractor

  // ---------------------------------------------------------------------
  // Where scanning stops
  // ---------------------------------------------------------------------

  /** The position of the first token that stops scanning, or the length of
      the stream if there is none. */
  function StopIndex(tokens: seq<Token>): (k: nat)
    ensures k <= |tokens|
    ensures forall i :: 0 <= i < k ==> !Stops(tokens[i])
    ensures k < |tokens| ==> Stops(tokens[k])
    decreases |tokens|
  {
    if tokens == [] || Stops(tokens[0]) then 0
    else
      var k := StopIndex(tokens[1..]);
      assert forall i :: 0 < i <= k ==> tokens[i] == tokens[1..][i - 1];
      1 + k
  }

  /** A token that does not stop scanning is consumed by one `Step`. */
  lemma RunCons(t: Token, rest: seq<Token>, st: State, cap: nat)
    requires !Stops(t)
    ensures Run([t] + rest, st, cap) == Run(rest, Step(st, t, cap), cap)
  {
    assert ([t] + rest)[1..] == rest;
  }

  /** Running over a stop-free prefix and then the rest is running over both. */
  lemma {:induction false} RunAppend(a: seq<Token>, b: seq<Token>, st: State, cap: nat)
    requires forall i :: 0 <= i < |a| ==> !Stops(a[i])
    ensures Run(a + b, st, cap) == Run(b, Run(a, st, cap), cap)
    decreases |a|
  {
    if a == [] {
      assert a + b == b;
    } else {
      var t := a[0];
      assert (a + b)[0] == t && (a + b)[1..] == a[1..] + b;
      assert forall i :: 0 <= i < |a[1..]| ==> a[1..][i] == a[i + 1];
      RunAppend(a[1..], b, Step(st, t, cap), cap);
    }
  }

  /** Nothing after a stopping token is ever read. */
  lemma {:induction false} StopIgnoresRest(pre: seq<Token>, stop: Token, rest: seq<Token>, st: State, cap: nat)
    requires Stops(stop)
    ensures Run(pre + [stop] + rest, st, cap) == Run(pre, st, cap)
    decreases |pre|
  {
    if pre == [] {
      assert pre + [stop] + rest == [stop] + rest;
    } else {
      assert (pre + [stop] + rest)[0] == pre[0];
      assert (pre + [stop] + rest)[1..] == pre[1..] + [stop] + rest;
      if !Stops(pre[0]) {
        StopIgnoresRest(pre[1..], stop, rest, Step(st, pre[0], cap), cap);
      }
    }
  }

  /** An error or a `body` tag ends extraction: the record is what the
      tokens before it produced. */
  lemma ExtractStopsAt(pre: seq<Token>, stop: Token, rest: seq<Token>, cap: nat)
    requires Stops(stop)
    ensures Extract(pre + [stop] + rest, cap) == Extract(pre, cap)
  {
    StopIgnoresRest(pre, stop, rest, Initial(), cap);
  }

  /** Whatever follows a stopping token may be replaced by anything. */
  lemma ExtractIgnoresAfterStop(tokens: seq<Token>, k: nat, rest: seq<Token>, cap: nat)
    requires k < |tokens| && Stops(tokens[k])
    ensures Extract(tokens[..k + 1] + rest, cap) == Extract(tokens[..k], cap)
  {
    var pre, stop := tokens[..k], tokens[k];
    assert tokens[..k + 1] + rest == pre + [stop] + rest;
    ExtractStopsAt(pre, stop, rest, cap);
  }

  /** Cutting the stream just before a stopping token changes nothing. */
  lemma ExtractCutAtStop(tokens: seq<Token>, k: nat, cap: nat)
    requires k < |tokens| && Stops(tokens[k])
    ensures Extract(tokens, cap) == Extract(tokens[..k], cap)
  {
    ExtractIgnoresAfterStop(tokens, k, tokens[k + 1..], cap);
    assert tokens[..k + 1] + tokens[k + 1..] == tokens;
  }

  /** `Extract` reads the stream only up to the first error or `body` tag. */
  lemma ExtractReadsOnlyPreamble(tokens: seq<Token>, cap: nat)
    ensures Extract(tokens, cap) == Extract(tokens[..StopIndex(tokens)], cap)
  {
    var k := StopIndex(tokens);
    if k < |tokens| {
      ExtractCutAtStop(tokens, k, cap);
    } else {
      assert tokens[..k] == tokens;
    }
  }

  /** Meta tags inside the body are never inspected. */
  lemma BodyEndsExtraction(pre: seq<Token>, attrs: seq<Attribute>, rest: seq<Token>, cap: nat)
    ensures Extract(pre + [StartTag(TagBody, attrs)] + rest, cap) == Extract(pre, cap)
    ensures Extract(pre + [SelfClosingTag(TagBody, attrs)] + rest, cap) == Extract(pre, cap)
  {
    ExtractStopsAt(pre, StartTag(TagBody, attrs), rest, cap);
    ExtractStopsAt(pre, SelfClosingTag(TagBody, attrs), rest, cap);
  }

  // ---------------------------------------------------------------------
  // The title flag
  // ---------------------------------------------------------------------

  /** Tokens that neither stop scanning nor carry text. */
  predicate NoTextNoStop(mid: seq<Token>)
  {
    forall i :: 0 <= i < |mid| ==> !mid[i].Text? && !Stops(mid[i])
  }

  /** Once armed, the title flag stays armed across end tags, comments,
      doctypes and other tags until a text token arrives. */
  lemma {:induction false} ArmedUntilText(mid: seq<Token>, st: State, cap: nat)
    requires st.titlePending
    requires NoTextNoStop(mid)
    ensures Run(mid, st, cap).titlePending
    decreases |mid|
  {
    if mid != [] {
      ArmedUntilText(mid[1..], Step(st, mid[0], cap), cap);
    }
  }

  /** The first text token after a `title` start tag becomes the title,
      however many other tokens come between, and disarms the flag. */
  lemma TitleTakesNextText(attrs: seq<Attribute>, mid: seq<Token>, data: Bytes, st: State, cap: nat)
    requires NoTextNoStop(mid)
    ensures var r := Run([StartTag(TagTitle, attrs)] + mid + [Text(data)], st, cap);
            r.tags.title == TruncateField(data, cap) && !r.titlePending
  {
    StructuralNamesDistinct();
    var open := StartTag(TagTitle, attrs);
    var pre := [open] + mid;
    assert forall i :: 0 <= i < |pre| ==> !Stops(pre[i]) by {
      assert forall i :: 0 < i < |pre| ==> pre[i] == mid[i - 1];
    }
    RunAppend(pre, [Text(data)], st, cap);
    RunCons(open, mid, st, cap);
    ArmedUntilText(mid, Step(st, open, cap), cap);
    var armed := Run(pre, st, cap);
    RunCons(Text(data), [], armed, cap);
  }

  /** A text token with the flag disarmed changes nothing. */
  lemma DisarmedTextIgnored(st: State, data: Bytes, cap: nat)
    requires !st.titlePending
    ensures Step(st, Text(data), cap) == st
  {
  }

  // ---------------------------------------------------------------------
  // The meta-tag policy
  // ---------------------------------------------------------------------

  /** A meta tag whose attributes name no recognised identifier leaves
      every field as it was. */
  lemma UnmatchedMetaFieldwise(tags: Tags, attrs: seq<Attribute>, cap: nat)
    requires forall p :: !Matches(attrs, p)
    ensures forall f :: Get(ApplyMeta(tags, attrs, cap), f) == Get(tags, f)
  {
  }

  /** A meta tag whose attributes name no recognised identifier leaves the
      record unchanged. */
  lemma UnmatchedMetaChangesNothing(tags: Tags, attrs: seq<Attribute>, cap: nat)
    requires forall p :: !Matches(attrs, p)
    ensures ApplyMeta(tags, attrs, cap) == tags
  {
    UnmatchedMetaFieldwise(tags, attrs, cap);
    FieldsDetermineTags(ApplyMeta(tags, attrs, cap), tags);
  }

  /** A meta tag never replaces a non-empty `Title`: no identifier assigns
      it directly, and the fallbacks only fill it while it is empty. */
  lemma ApplyMetaKeepsTitle(tags: Tags, attrs: seq<Attribute>, cap: nat)
    requires |Get(tags, Title)| > 0
    ensures Get(ApplyMeta(tags, attrs, cap), Title) == Get(tags, Title)
  {
    assert Owner(Title) == None;
  }

  /** So once `Title` holds a non-empty value, whether from a title element
      or from the first fallback whose capped value is non-empty, no later
      meta tag replaces it. */
  lemma MetaNeverOverwritesTitle(st: State, t: Token, cap: nat)
    requires !Stops(t) && IsTagNamed(t, TagMeta)
    requires |Get(st.tags, Title)| > 0
    ensures Get(Step(st, t, cap).tags, Title) == Get(st.tags, Title)
  {
    StepSpec(st, t, cap);
    ApplyMetaKeepsTitle(st.tags, t.attrs, cap);
  }

  /** The attributes of `<meta property="p" content="c">`. */
  function PropertyTag(p: Property, c: Bytes): seq<Attribute>
  {
    [Attribute(TagProperty, PropertyName(p)), Attribute(TagContent, c)]
  }

  /** `<meta property="p" content="c">` matches `p` and no other identifier. */
  lemma PropertyTagMatchesOnly(p: Property, c: Bytes)
    ensures forall q :: Matches(PropertyTag(p, c), q) <==> q == p
    ensures LastContent(PropertyTag(p, c)) == c
  {
    StructuralNamesDistinct();
    var attrs := PropertyTag(p, c);
    forall q
      ensures Matches(attrs, q) <==> q == p
    {
      PropertyNamesDistinct(p, q);
      assert Names(attrs[0], PropertyName(q)) <==> q == p;
      assert !Names(attrs[1], PropertyName(q));
    }
    assert attrs[..|attrs| - 1] == [attrs[0]];
  }

  /** A tag that names exactly one identifier assigns that identifier's
      own field and no other. */
  lemma OnlyMatchAssigns(attrs: seq<Attribute>, p: Property, f: Field)
    requires forall q :: Matches(attrs, q) <==> q == p
    ensures Assigns(attrs, f) <==> Target(p) == f
  {
    TablesAgree();
  }

  /** A tag that names exactly one identifier backfills that identifier's
      fallback field and no other. */
  lemma OnlyMatchBackfills(attrs: seq<Attribute>, p: Property, f: Field)
    requires forall q :: Matches(attrs, q) <==> q == p
    ensures Backfills(attrs, f) <==> Fallback(p) == Some(f)
  {
    TablesAgree();
    if Backfills(attrs, f) {
      var i :| 0 <= i < |Backfillers(f)| && Matches(attrs, Backfillers(f)[i]);
      assert Backfillers(f)[i] == p;
    }
    if Fallback(p) == Some(f) {
      var i :| 0 <= i < |Backfillers(f)| && Backfillers(f)[i] == p;
      assert Matches(attrs, Backfillers(f)[i]);
    }
  }

  /** `<meta property="p" content="c">`: `p`'s own field is assigned, its
      fallback field is filled only if it is empty, and every other field
      is unchanged. */
  lemma SinglePropertyTag(tags: Tags, p: Property, c: Bytes, cap: nat, f: Field)
    ensures Get(ApplyMeta(tags, PropertyTag(p, c), cap), f) ==
            if Target(p) == f || (Fallback(p) == Some(f) && |Get(tags, f)| == 0)
            then TruncateField(c, cap) else Get(tags, f)
  {
    PropertyTagMatchesOnly(p, c);
    OnlyMatchAssigns(PropertyTag(p, c), p, f);
    OnlyMatchBackfills(PropertyTag(p, c), p, f);
  }

  /** `<meta property="og:title" content="">` then `<meta
      property="twitter:title" content="x">`: the emptiness test sees only the
      current value, so a fallback whose capped value is empty leaves its
      field open and a later fallback still fills it. Between fallbacks the
      first one whose capped value is non-empty wins, not the first seen. */
  lemma EmptyFallbackLeavesFieldOpen(tags: Tags, p: Property, a: Bytes, q: Property, x: Bytes, f: Field, cap: nat)
    requires Fallback(p) == Some(f) && Fallback(q) == Some(f)
    requires Get(tags, f) == [] && TruncateField(a, cap) == []
    ensures Get(ApplyMeta(ApplyMeta(tags, PropertyTag(p, a), cap), PropertyTag(q, x), cap), f) == TruncateField(x, cap)
  {
    TargetTable();
    var mid := ApplyMeta(tags, PropertyTag(p, a), cap);
    SinglePropertyTag(tags, p, a, cap, f);
    SinglePropertyTag(mid, q, x, cap, f);
  }

  /** The attributes of `<meta property="p" name="q" content="c">`. */
  function DoubleTag(p: Property, q: Property, c: Bytes): seq<Attribute>
  {
    [Attribute(TagProperty, PropertyName(p)), Attribute(TagName, PropertyName(q)), Attribute(TagContent, c)]
  }

  /** One tag may carry two identifiers: `property` and `name` are looked
      up independently, so the fields of both receive the same content
      (for example `og:title` and `twitter:title` in a single tag). */
  lemma OneTagSeveralIdentifiers(tags: Tags, p: Property, q: Property, c: Bytes, cap: nat)
    ensures Get(ApplyMeta(tags, DoubleTag(p, q, c), cap), Target(p)) == TruncateField(c, cap)
    ensures Get(ApplyMeta(tags, DoubleTag(p, q, c), cap), Target(q)) == TruncateField(c, cap)
  {
    TablesAgree();
    var attrs := DoubleTag(p, q, c);
    assert Names(attrs[0], PropertyName(p));
    assert Names(attrs[1], PropertyName(q));
    assert Assigns(attrs, Target(p)) && Assigns(attrs, Target(q));
    assert attrs[..|attrs| - 1][..1] == [attrs[0]];
    assert LastContent(attrs) == c;
  }

  /** `twitter:player` is not matched by `twitter:player:width` or
      `twitter:player:height`, and `description` is not matched by
      `og:description`: matching is exact. */
  lemma NoPrefixMatches(c: Bytes)
    ensures !Matches(PropertyTag(TagTwitterPlayerWidth, c), TagTwitterPlayer)
    ensures !Matches(PropertyTag(TagTwitterPlayerHeight, c), TagTwitterPlayer)
    ensures !Matches(PropertyTag(TagOGDescription, c), TagMetaDescription)
  {
    PropertyTagMatchesOnly(TagTwitterPlayerWidth, c);
    PropertyTagMatchesOnly(TagTwitterPlayerHeight, c);
    PropertyTagMatchesOnly(TagOGDescription, c);
  }

  /** `twitter:site` is not a recognised identifier; a tag carrying it
      changes nothing. */
  lemma TwitterSiteIgnored(tags: Tags, c: Bytes, cap: nat)
    ensures ApplyMeta(tags, [Attribute(TagProperty, Ascii("twitter:site")), Attribute(TagContent, c)], cap) == tags
  {
    StructuralNamesDistinct();
    var site := Ascii("twitter:site");
    var attrs := [Attribute(TagProperty, site), Attribute(TagContent, c)];
    forall p
      ensures !Matches(attrs, p)
    {
      IdentifyName(p);
      assert Identify(Fingerprint(site)) == None;
      assert !Names(attrs[0], PropertyName(p)) && !Names(attrs[1], PropertyName(p));
    }
    UnmatchedMetaChangesNothing(tags, attrs, cap);
  }

  // ---------------------------------------------------------------------
  // Document-order scenarios
  // ---------------------------------------------------------------------

  /** A token that changes nothing: an end tag, a comment, a doctype, or a
      start or self-closing tag other than `title`, `meta` and `body` (such
      as `html` or `head`). */
  predicate InertToken(t: Token)
  {
    t.EndTag? || t.Comment? || t.Doctype? ||
    ((t.StartTag? || t.SelfClosingTag?) && t.name != TagTitle && t.name != TagMeta && t.name != TagBody)
  }

  predicate Inert(mid: seq<Token>)
  {
    forall i :: 0 <= i < |mid| ==> InertToken(mid[i])
  }

  /** An inert token neither stops the loop nor changes the state. */
  lemma InertStep(st: State, t: Token, cap: nat)
    requires InertToken(t)
    ensures !Stops(t) && Step(st, t, cap) == st
  {
  }

  /** Running over inert tokens leaves the state as it was. */
  lemma {:induction false} RunInert(mid: seq<Token>, st: State, cap: nat)
    requires Inert(mid)
    ensures Run(mid, st, cap) == st
    decreases |mid|
  {
    if mid != [] {
      assert forall i :: 0 <= i < |mid[1..]| ==> mid[1..][i] == mid[i + 1];
      InertStep(st, mid[0], cap);
      RunInert(mid[1..], st, cap);
    }
  }

  /** Inert tokens in front of a document, such as `<html><head>`, do not
      change what is extracted from it. */
  lemma ExtractAfterInert(pre: seq<Token>, rest: seq<Token>, cap: nat)
    requires Inert(pre)
    ensures Extract(pre + rest, cap) == Extract(rest, cap)
  {
    forall i | 0 <= i < |pre|
      ensures !Stops(pre[i])
    {
      InertStep(Initial(), pre[i], cap);
    }
    RunAppend(pre, rest, Initial(), cap);
    RunInert(pre, Initial(), cap);
  }

  /** Running over two leading tokens is two steps. */
  lemma RunTwo(a: Token, b: Token, rest: seq<Token>, st: State, cap: nat)
    requires !Stops(a) && !Stops(b)
    ensures Run([a, b] + rest, st, cap) == Run(rest, Step(Step(st, a, cap), b, cap), cap)
  {
    assert [a, b] + rest == [a] + ([b] + rest);
    RunCons(a, [b] + rest, st, cap);
    RunCons(b, rest, Step(st, a, cap), cap);
  }

  /** Running over a title start tag and a text token sets `Title` and
      disarms the flag. */
  lemma TitleElement(attrs: seq<Attribute>, data: Bytes, st: State, cap: nat)
    ensures var r := Run([StartTag(TagTitle, attrs), Text(data)], st, cap);
            Get(r.tags, Title) == TruncateField(data, cap) && !r.titlePending
  {
    assert [StartTag(TagTitle, attrs)] + [] + [Text(data)] == [StartTag(TagTitle, attrs), Text(data)];
    TitleTakesNextText(attrs, [], data, st, cap);
  }

  /** `<html><head><title>data</title></head></html>`: the title element's
      text becomes `Title`, and every other field stays empty. */
  lemma TitleElementSetsTitle(pre: seq<Token>, attrs: seq<Attribute>, data: Bytes, mid: seq<Token>, cap: nat)
    requires Inert(pre) && Inert(mid)
    ensures Get(Extract(pre + [StartTag(TagTitle, attrs), Text(data)] + mid, cap), Title) == TruncateField(data, cap)
    ensures forall f :: f != Title ==> Get(Extract(pre + [StartTag(TagTitle, attrs), Text(data)] + mid, cap), f) == []
  {
    var doc := [StartTag(TagTitle, attrs), Text(data)] + mid;
    assert pre + [StartTag(TagTitle, attrs), Text(data)] + mid == pre + doc;
    ExtractAfterInert(pre, doc, cap);
    TitleElementAlone(attrs, data, mid, cap);
  }

  /** The same without leading tokens. */
  lemma TitleElementAlone(attrs: seq<Attribute>, data: Bytes, mid: seq<Token>, cap: nat)
    requires Inert(mid)
    ensures Get(Extract([StartTag(TagTitle, attrs), Text(data)] + mid, cap), Title) == TruncateField(data, cap)
    ensures forall f :: f != Title ==> Get(Extract([StartTag(TagTitle, attrs), Text(data)] + mid, cap), f) == []
  {
    var pre := [StartTag(TagTitle, attrs), Text(data)];
    var armed := Step(Initial(), StartTag(TagTitle, attrs), cap);
    TitleTagArms(Initial(), attrs, cap);
    StepSpec(armed, Text(data), cap);
    RunPair(StartTag(TagTitle, attrs), Text(data), Initial(), cap);
    RunAppend(pre, mid, Initial(), cap);
    RunInert(mid, Run(pre, Initial(), cap), cap);
  }

  /** `<meta property="p" content="c">` fills `p`'s empty fallback field
      and leaves the title flag as it was. */
  lemma FallbackMetaFills(st: State, t: Token, p: Property, c: Bytes, f: Field, cap: nat)
    requires !Stops(t) && IsTagNamed(t, TagMeta) && t.attrs == PropertyTag(p, c)
    requires Fallback(p) == Some(f)
    requires |Get(st.tags, f)| == 0
    ensures Get(Step(st, t, cap).tags, f) == TruncateField(c, cap)
    ensures Step(st, t, cap).titlePending == st.titlePending
  {
    StructuralNamesDistinct();
    StepSpec(st, t, cap);
    SinglePropertyTag(st.tags, p, c, cap, f);
  }

  /** `<meta property="q" content="b">` sets `q`'s own field, whatever it
      held before. */
  lemma DirectMetaAssigns(st: State, t: Token, q: Property, b: Bytes, cap: nat)
    requires !Stops(t) && IsTagNamed(t, TagMeta) && t.attrs == PropertyTag(q, b)
    ensures Get(Step(st, t, cap).tags, Target(q)) == TruncateField(b, cap)
  {
    StepSpec(st, t, cap);
    SinglePropertyTag(st.tags, q, b, cap, Target(q));
  }

  /** A stream of one token that does not stop the loop is one step. */
  lemma RunOne(t: Token, st: State, cap: nat)
    requires !Stops(t)
    ensures Run([t], st, cap) == Step(st, t, cap)
  {
    RunCons(t, [], st, cap);
    assert [t] + [] == [t];
  }

  /** A stream of two tokens that do not stop the loop is two steps. */
  lemma RunPair(a: Token, b: Token, st: State, cap: nat)
    requires !Stops(a) && !Stops(b)
    ensures Run([a, b], st, cap) == Step(Step(st, a, cap), b, cap)
  {
    RunTwo(a, b, [], st, cap);
    assert [a, b] + [] == [a, b];
  }

  /** `<meta property="og:description" content="a">` on its own fills the
      empty `Description` through its fallback. */
  lemma FallbackFillsEmptyField(m1: Token, p: Property, a: Bytes, f: Field, cap: nat)
    requires IsTagNamed(m1, TagMeta) && m1.attrs == PropertyTag(p, a)
    requires Fallback(p) == Some(f)
    ensures Get(Extract([m1], cap), f) == TruncateField(a, cap)
  {
    StructuralNamesDistinct();
    var st := Initial();
    assert |Get(st.tags, f)| == 0;
    RunOne(m1, st, cap);
    FallbackMetaFills(st, m1, p, a, f, cap);
  }

  /** `<meta property="og:description" content="a"><meta name="description"
      content="b">`: the first tag fills the empty `Description` through its
      fallback (see `FallbackFillsEmptyField`), and the second, which owns
      the field, overwrites it. A non-empty fallback value only protects a
      field against other fallbacks; the same holds for `author` after
      `og:author` and `og:image` after `twitter:image`. */
  lemma LaterOwnerOverridesFallback(m1: Token, p: Property, a: Bytes, m2: Token, q: Property, b: Bytes, cap: nat)
    requires IsTagNamed(m1, TagMeta) && m1.attrs == PropertyTag(p, a)
    requires IsTagNamed(m2, TagMeta) && m2.attrs == PropertyTag(q, b)
    requires Fallback(p) == Some(Target(q))
    ensures Get(Extract([m1, m2], cap), Target(q)) == TruncateField(b, cap)
  {
    StructuralNamesDistinct();
    RunPair(m1, m2, Initial(), cap);
    DirectMetaAssigns(Step(Initial(), m1, cap), m2, q, b, cap);
  }

  /** A title start tag arms the flag and leaves the record as it was. */
  lemma TitleTagArms(st: State, attrs: seq<Attribute>, cap: nat)
    ensures !Stops(StartTag(TagTitle, attrs))
    ensures Step(st, StartTag(TagTitle, attrs), cap) == State(st.tags, true)
  {
    StructuralNamesDistinct();
    StepSpec(st, StartTag(TagTitle, attrs), cap);
  }

  /** `<html><head><meta property="og:title" content="c"/><title></title>
      </head></html>`: with no text in the title element, the `og:title` (or
      `twitter:title`) fallback stays the title. */
  lemma FallbackSurvivesEmptyTitle(pre: seq<Token>, meta: Token, p: Property, c: Bytes, attrs: seq<Attribute>, mid: seq<Token>, cap: nat)
    requires IsTagNamed(meta, TagMeta) && meta.attrs == PropertyTag(p, c)
    requires Fallback(p) == Some(Title)
    requires Inert(pre) && Inert(mid)
    ensures Get(Extract(pre + [meta, StartTag(TagTitle, attrs)] + mid, cap), Title) == TruncateField(c, cap)
  {
    var doc := [meta, StartTag(TagTitle, attrs)] + mid;
    assert pre + [meta, StartTag(TagTitle, attrs)] + mid == pre + doc;
    ExtractAfterInert(pre, doc, cap);
    FallbackAloneSurvivesEmptyTitle(meta, p, c, attrs, mid, cap);
  }

  /** The same without leading tokens. */
  lemma FallbackAloneSurvivesEmptyTitle(meta: Token, p: Property, c: Bytes, attrs: seq<Attribute>, mid: seq<Token>, cap: nat)
    requires IsTagNamed(meta, TagMeta) && meta.attrs == PropertyTag(p, c)
    requires Fallback(p) == Some(Title)
    requires Inert(mid)
    ensures Get(Extract([meta, StartTag(TagTitle, attrs)] + mid, cap), Title) == TruncateField(c, cap)
  {
    StructuralNamesDistinct();
    var open := StartTag(TagTitle, attrs);
    var st := Step(Initial(), meta, cap);
    FallbackMetaFills(Initial(), meta, p, c, Title, cap);
    TitleTagArms(st, attrs, cap);
    RunTwo(meta, open, mid, Initial(), cap);
    RunInert(mid, Step(st, open, cap), cap);
  }

  /** Running over one more token is one more step. */
  lemma RunSnoc(pre: seq<Token>, t: Token, st: State, cap: nat)
    requires forall i :: 0 <= i < |pre| ==> !Stops(pre[i])
    requires !Stops(t)
    ensures Run(pre + [t], st, cap) == Step(Run(pre, st, cap), t, cap)
  {
    RunAppend(pre, [t], st, cap);
    RunCons(t, [], Run(pre, st, cap), cap);
  }

  /** With the flag armed, the first text token becomes `Title`. */
  lemma ArmedTakesNextText(mid: seq<Token>, data: Bytes, st: State, cap: nat)
    requires st.titlePending
    requires NoTextNoStop(mid)
    ensures Get(Run(mid + [Text(data)], st, cap).tags, Title) == TruncateField(data, cap)
  {
    RunSnoc(mid, Text(data), st, cap);
    ArmedUntilText(mid, st, cap);
    StepSpec(Run(mid, st, cap), Text(data), cap);
  }

  /** A title start tag, then tokens with no text, then a text token: the
      text becomes `Title`. */
  lemma TitleTagThenText(st: State, attrs: seq<Attribute>, mid: seq<Token>, data: Bytes, cap: nat)
    requires NoTextNoStop(mid)
    ensures !Stops(StartTag(TagTitle, attrs))
    ensures Get(Run(mid + [Text(data)], Step(st, StartTag(TagTitle, attrs), cap), cap).tags, Title) == TruncateField(data, cap)
  {
    TitleTagArms(st, attrs, cap);
    ArmedTakesNextText(mid, data, Step(st, StartTag(TagTitle, attrs), cap), cap);
  }

  /** The flag stays armed after an empty title element, so the next text
      token, even whitespace between later tags, replaces whatever title
      the meta tag before it supplied. */
  lemma EmptyTitleStaysArmed(meta: Token, attrs: seq<Attribute>, mid: seq<Token>, ws: Bytes, cap: nat)
    requires IsTagNamed(meta, TagMeta)
    requires NoTextNoStop(mid)
    ensures Get(Extract([meta, StartTag(TagTitle, attrs)] + mid + [Text(ws)], cap), Title) == TruncateField(ws, cap)
  {
    StructuralNamesDistinct();
    var open := StartTag(TagTitle, attrs);
    assert [meta, open] + mid + [Text(ws)] == [meta, open] + (mid + [Text(ws)]);
    RunTwo(meta, open, mid + [Text(ws)], Initial(), cap);
    TitleTagThenText(Step(Initial(), meta, cap), attrs, mid, ws, cap);
  }

  /** `<title>data</title>` followed by a meta tag: the title element wins,
      since meta tags only fill `Title` while it is empty. */
  lemma TitleElementBeatsLaterMeta(attrs: seq<Attribute>, data: Bytes, meta: Token, cap: nat)
    requires IsTagNamed(meta, TagMeta)
    requires |TruncateField(data, cap)| > 0
    ensures Get(Extract([StartTag(TagTitle, attrs), Text(data), meta], cap), Title) == TruncateField(data, cap)
  {
    StructuralNamesDistinct();
    var pre := [StartTag(TagTitle, attrs), Text(data)];
    assert [StartTag(TagTitle, attrs), Text(data), meta] == pre + [meta];
    RunSnoc(pre, meta, Initial(), cap);
    TitleElement(attrs, data, Initial(), cap);
    MetaNeverOverwritesTitle(Run(pre, Initial(), cap), meta, cap);
  }
}
