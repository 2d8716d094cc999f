/**
 The output record of the extractor and the closed vocabulary of tag names,
 attribute keys and meta property identifiers it recognises.
 */
module Definitions {
  import opened Bytes

  datatype Option<+T> = None | Some(value: T)

  /** The extracted metadata: sixteen independent byte-string fields. */
  datatype Tags = Tags(
    author: Bytes,
    description: Bytes,
    ogAuthor: Bytes,
    ogDescription: Bytes,
    ogImage: Bytes,
    ogPublisher: Bytes,
    ogSiteName: Bytes,
    ogTitle: Bytes,
    title: Bytes,
    twitterDescription: Bytes,
    twitterImage: Bytes,
    twitterCard: Bytes,
    twitterPlayer: Bytes,
    twitterPlayerHeight: Bytes,
    twitterPlayerWidth: Bytes,
    twitterTitle: Bytes
  )

  /** Names for the sixteen fields of `Tags`, so that they can be quantified over. */
  datatype Field =
    | Author | Description | OGAuthor | OGDescription | OGImage | OGPublisher
    | OGSiteName | OGTitle | Title | TwitterDescription | TwitterImage
    | TwitterCard | TwitterPlayer | TwitterPlayerHeight | TwitterPlayerWidth
    | TwitterTitle

  function Get(t: Tags, f: Field): Bytes
  {
    match f
    case Author => t.author
    case Description => t.description
    case OGAuthor => t.ogAuthor
    case OGDescription => t.ogDescription
    case OGImage => t.ogImage
    case OGPublisher => t.ogPublisher
    case OGSiteName => t.ogSiteName
    case OGTitle => t.ogTitle
    case Title => t.title
    case TwitterDescription => t.twitterDescription
    case TwitterImage => t.twitterImage
    case TwitterCard => t.twitterCard
    case TwitterPlayer => t.twitterPlayer
    case TwitterPlayerHeight => t.twitterPlayerHeight
    case TwitterPlayerWidth => t.twitterPlayerWidth
    case TwitterTitle => t.twitterTitle
  }

  /** Assigns one field; the other fifteen are untouched. */
  function Set(t: Tags, f: Field, v: Bytes): (r: Tags)
    ensures Get(r, f) == v
    ensures forall g :: g != f ==> Get(r, g) == Get(t, g)
  {
    match f
    case Author => t.(author := v)
    case Description => t.(description := v)
    case OGAuthor => t.(ogAuthor := v)
    case OGDescription => t.(ogDescription := v)
    case OGImage => t.(ogImage := v)
    case OGPublisher => t.(ogPublisher := v)
    case OGSiteName => t.(ogSiteName := v)
    case OGTitle => t.(ogTitle := v)
    case Title => t.(title := v)
    case TwitterDescription => t.(twitterDescription := v)
    case TwitterImage => t.(twitterImage := v)
    case TwitterCard => t.(twitterCard := v)
    case TwitterPlayer => t.(twitterPlayer := v)
    case TwitterPlayerHeight => t.(twitterPlayerHeight := v)
    case TwitterPlayerWidth => t.(twitterPlayerWidth := v)
    case TwitterTitle => t.(twitterTitle := v)
  }

  /** The zero value of the record, where every extraction starts. */
  function EmptyTags(): (r: Tags)
    ensures forall f :: Get(r, f) == []
  {
    Tags([], [], [], [], [], [], [], [], [], [], [], [], [], [], [], [])
  }

  /** The record has no state beyond its sixteen fields. */
  lemma FieldsDetermineTags(a: Tags, b: Tags)
    requires forall f :: Get(a, f) == Get(b, f)
    ensures a == b
  {
    assert Get(a, Author) == Get(b, Author) && Get(a, Description) == Get(b, Description);
    assert Get(a, OGAuthor) == Get(b, OGAuthor) && Get(a, OGDescription) == Get(b, OGDescription);
    assert Get(a, OGImage) == Get(b, OGImage) && Get(a, OGPublisher) == Get(b, OGPublisher);
    assert Get(a, OGSiteName) == Get(b, OGSiteName) && Get(a, OGTitle) == Get(b, OGTitle);
    assert Get(a, Title) == Get(b, Title) && Get(a, TwitterDescription) == Get(b, TwitterDescription);
    assert Get(a, TwitterImage) == Get(b, TwitterImage) && Get(a, TwitterCard) == Get(b, TwitterCard);
    assert Get(a, TwitterPlayer) == Get(b, TwitterPlayer);
    assert Get(a, TwitterPlayerHeight) == Get(b, TwitterPlayerHeight);
    assert Get(a, TwitterPlayerWidth) == Get(b, TwitterPlayerWidth);
    assert Get(a, TwitterTitle) == Get(b, TwitterTitle);
  }

  // Tag names and attribute keys that the extractor compares against.
  const TagBody: Bytes := Ascii("body")
  const TagContent: Bytes := Ascii("content")
  const TagMeta: Bytes := Ascii("meta")
  const TagName: Bytes := Ascii("name")
  const TagProperty: Bytes := Ascii("property")
  const TagTitle: Bytes := Ascii("title")

  /** The meta property identifiers the extractor recognises (a closed set). */
  datatype Property =
    | TagMetaDescription | TagMetaAuthor | TagOGTitle | TagOGDescription
    | TagOGImage | TagOGSiteName | TagOGPublisher | TagOGAuthor
    | TagTwitterTitle | TagTwitterDescription | TagTwitterImage
    | TagTwitterCard | TagTwitterPlayer | TagTwitterPlayerWidth
    | TagTwitterPlayerHeight

  function Spelling(p: Property): string
  {
    match p
    case TagMetaDescription => "description"
    case TagMetaAuthor => "author"
    case TagOGTitle => "og:title"
    case TagOGDescription => "og:description"
    case TagOGImage => "og:image"
    case TagOGSiteName => "og:site_name"
    case TagOGPublisher => "og:publisher"
    case TagOGAuthor => "og:author"
    case TagTwitterTitle => "twitter:title"
    case TagTwitterDescription => "twitter:description"
    case TagTwitterImage => "twitter:image"
    case TagTwitterCard => "twitter:card"
    case TagTwitterPlayer => "twitter:player"
    case TagTwitterPlayerWidth => "twitter:player:width"
    case TagTwitterPlayerHeight => "twitter:player:height"
  }

  /** The bytes of an identifier, as matched against `property`/`name` values. */
  function PropertyName(p: Property): Bytes
  {
    Ascii(Spelling(p))
  }

  /** The length and the bytes at positions 3 and 8 (0 when the spelling is
      shorter), which already tell the identifiers apart. */
  function Fingerprint(s: Bytes): (int, int, int)
  {
    (|s|, if |s| > 3 then s[3] else 0, if |s| > 8 then s[8] else 0)
  }

  /** The identifier with a given fingerprint, if there is one. */
  function Identify(fp: (int, int, int)): Option<Property>
  {
    if fp == (11, 'c' as int, 'i' as int) then Some(TagMetaDescription)
    else if fp == (6, 'h' as int, 0) then Some(TagMetaAuthor)
    else if fp == (8, 't' as int, 0) then Some(TagOGTitle)
    else if fp == (14, 'd' as int, 'i' as int) then Some(TagOGDescription)
    else if fp == (8, 'i' as int, 0) then Some(TagOGImage)
    else if fp == (12, 's' as int, 'n' as int) then Some(TagOGSiteName)
    else if fp == (12, 'p' as int, 's' as int) then Some(TagOGPublisher)
    else if fp == (9, 'a' as int, 'r' as int) then Some(TagOGAuthor)
    else if fp == (13, 't' as int, 't' as int) then Some(TagTwitterTitle)
    else if fp == (19, 't' as int, 'd' as int) then Some(TagTwitterDescription)
    else if fp == (13, 't' as int, 'i' as int) then Some(TagTwitterImage)
    else if fp == (12, 't' as int, 'c' as int) then Some(TagTwitterCard)
    else if fp == (14, 't' as int, 'p' as int) then Some(TagTwitterPlayer)
    else if fp == (20, 't' as int, 'p' as int) then Some(TagTwitterPlayerWidth)
    else if fp == (21, 't' as int, 'p' as int) then Some(TagTwitterPlayerHeight)
    else None
  }

  /** Every identifier is recovered from its fingerprint. */
  lemma IdentifyName(p: Property)
    ensures Identify(Fingerprint(PropertyName(p))) == Some(p)
  {
    match p
    case TagMetaDescription => assert Fingerprint(PropertyName(p)) == (11, 99, 105);
    case TagMetaAuthor => assert Fingerprint(PropertyName(p)) == (6, 104, 0);
    case TagOGTitle => assert Fingerprint(PropertyName(p)) == (8, 116, 0);
    case TagOGDescription => assert Fingerprint(PropertyName(p)) == (14, 100, 105);
    case TagOGImage => assert Fingerprint(PropertyName(p)) == (8, 105, 0);
    case TagOGSiteName => assert Fingerprint(PropertyName(p)) == (12, 115, 110);
    case TagOGPublisher => assert Fingerprint(PropertyName(p)) == (12, 112, 115);
    case TagOGAuthor => assert Fingerprint(PropertyName(p)) == (9, 97, 114);
    case TagTwitterTitle => assert Fingerprint(PropertyName(p)) == (13, 116, 116);
    case TagTwitterDescription => assert Fingerprint(PropertyName(p)) == (19, 116, 100);
    case TagTwitterImage => assert Fingerprint(PropertyName(p)) == (13, 116, 105);
    case TagTwitterCard => assert Fingerprint(PropertyName(p)) == (12, 116, 99);
    case TagTwitterPlayer => assert Fingerprint(PropertyName(p)) == (14, 116, 112);
    case TagTwitterPlayerWidth => assert Fingerprint(PropertyName(p)) == (20, 116, 112);
    case TagTwitterPlayerHeight => assert Fingerprint(PropertyName(p)) == (21, 116, 112);
  }

  /** Distinct identifiers have distinct byte spellings. */
  lemma PropertyNamesDistinct(p: Property, q: Property)
    ensures PropertyName(p) == PropertyName(q) <==> p == q
  {
    IdentifyName(p);
    IdentifyName(q);
  }

  /** The structural tag names and attribute keys are pairwise distinct. */
  lemma StructuralNamesDistinct()
    ensures TagBody != TagMeta && TagBody != TagTitle && TagMeta != TagTitle
    ensures TagProperty != TagName && TagContent != TagProperty && TagContent != TagName
  {
    assert TagBody[0] != TagMeta[0] && TagBody[0] != TagTitle[0] && TagMeta[0] != TagTitle[0];
    assert TagProperty[0] != TagName[0] && TagContent[0] != TagProperty[0] && TagContent[0] != TagName[0];
  }
}
