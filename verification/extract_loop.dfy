/**
 The extractor written the way the Go code is: one loop over the tokens
 with a mutable record and a `titleFound` flag, and the meta-tag handling
 as fifteen `if` blocks in source order. Both are proved to compute what
 the functional model in `Extractor` computes.
 */
module ExtractLoop {
  import opened Bytes
  import opened Definitions
  import opened Tokens
  import opened MetaProperty
  import opened Truncate
  import opened Extractor

  /** Running the blocks of `a` and then those of `b` is running the blocks
      of `a + b`. */
  lemma {:induction false} ApplyAllAppend(tags: Tags, attrs: seq<Attribute>, a: seq<Property>, b: seq<Property>, cap: nat)
    ensures ApplyAll(tags, attrs, a + b, cap) == ApplyAll(ApplyAll(tags, attrs, a, cap), attrs, b, cap)
    decreases |a|
  {
    if a == [] {
      assert a + b == b;
    } else {
      assert (a + b)[0] == a[0];
      assert (a + b)[1..] == a[1..] + b;
      ApplyAllAppend(ApplyProperty(tags, attrs, a[0], cap), attrs, a[1..], b, cap);
    }
  }

  /** The first `k` blocks followed by block `k` are the first `k + 1`
      blocks. */
  lemma NextBlock(tags: Tags, attrs: seq<Attribute>, k: nat, before: Tags, after: Tags, cap: nat)
    requires k < |SourceOrder|
    requires before == ApplyAll(tags, attrs, SourceOrder[..k], cap)
    requires after == ApplyProperty(before, attrs, SourceOrder[k], cap)
    ensures after == ApplyAll(tags, attrs, SourceOrder[..k + 1], cap)
  {
    var p := SourceOrder[k];
    assert SourceOrder[..k + 1] == SourceOrder[..k] + [p];
    ApplyAllAppend(tags, attrs, SourceOrder[..k], [p], cap);
    assert [p][1..] == [];
  }

  /** What a block without a fallback does, read off the table. */
  lemma PlainBlockSpec(tags: Tags, attrs: seq<Attribute>, p: Property, cap: nat)
    requires Fallback(p) == None
    ensures var m := ExtractMetaProperty(attrs, PropertyName(p));
            ApplyProperty(tags, attrs, p, cap) ==
            if m.ok then Set(tags, Target(p), TruncateField(m.content, cap)) else tags
  {
  }

  /** What a block with fallback field `f` does, read off the table. */
  lemma FallbackBlockSpec(tags: Tags, attrs: seq<Attribute>, p: Property, f: Field, cap: nat)
    requires Fallback(p) == Some(f)
    ensures var m := ExtractMetaProperty(attrs, PropertyName(p));
            var v := TruncateField(m.content, cap);
            var t := Set(tags, Target(p), v);
            ApplyProperty(tags, attrs, p, cap) ==
            if !m.ok then tags else if |Get(t, f)| == 0 then Set(t, f, v) else t
  {
  }

  // One method per `if value, ok = extractMetaProperty(t, ...); ok` block,
  // in the order and with the fields the Go code names, each proved equal
  // to the table-driven `ApplyProperty`. A field assignment
  // `tags.F = ...` is `Set(r, F, ...)`.

  /** The block of `TagMetaDescription`: `Description` is set on a match. */
  method DescriptionBlock(tags: Tags, attrs: seq<Attribute>, cap: nat) returns (r: Tags)
    ensures r == ApplyProperty(tags, attrs, TagMetaDescription, cap)
  {
    PlainBlockSpec(tags, attrs, TagMetaDescription, cap);
    assert Target(TagMetaDescription) == Description;
    r := tags;
    var m := ExtractMetaProperty(attrs, PropertyName(TagMetaDescription));
    if m.ok {
      r := Set(r, Description, TruncateField(m.content, cap));
    }
  }

  /** The block of `TagMetaAuthor`: `Author` is set on a match. */
  method AuthorBlock(tags: Tags, attrs: seq<Attribute>, cap: nat) returns (r: Tags)
    ensures r == ApplyProperty(tags, attrs, TagMetaAuthor, cap)
  {
    PlainBlockSpec(tags, attrs, TagMetaAuthor, cap);
    assert Target(TagMetaAuthor) == Author;
    r := tags;
    var m := ExtractMetaProperty(attrs, PropertyName(TagMetaAuthor));
    if m.ok {
      r := Set(r, Author, TruncateField(m.content, cap));
    }
  }

  /** The block of `TagOGTitle`: `OGTitle` is set on a match, and `Title` too while it is empty. */
  method OGTitleBlock(tags: Tags, attrs: seq<Attribute>, cap: nat) returns (r: Tags)
    ensures r == ApplyProperty(tags, attrs, TagOGTitle, cap)
  {
    FallbackBlockSpec(tags, attrs, TagOGTitle, Title, cap);
    assert Target(TagOGTitle) == OGTitle;
    r := tags;
    var m := ExtractMetaProperty(attrs, PropertyName(TagOGTitle));
    if m.ok {
      r := Set(r, OGTitle, TruncateField(m.content, cap));
      if |Get(r, Title)| == 0 {
        r := Set(r, Title, TruncateField(m.content, cap));
      }
    }
  }

  /** The block of `TagOGDescription`: `OGDescription` is set on a match, and `Description` too while it is empty. */
  method OGDescriptionBlock(tags: Tags, attrs: seq<Attribute>, cap: nat) returns (r: Tags)
    ensures r == ApplyProperty(tags, attrs, TagOGDescription, cap)
  {
    FallbackBlockSpec(tags, attrs, TagOGDescription, Description, cap);
    assert Target(TagOGDescription) == OGDescription;
    r := tags;
    var m := ExtractMetaProperty(attrs, PropertyName(TagOGDescription));
    if m.ok {
      r := Set(r, OGDescription, TruncateField(m.content, cap));
      if |Get(r, Description)| == 0 {
        r := Set(r, Description, TruncateField(m.content, cap));
      }
    }
  }

  /** The block of `TagOGImage`: `OGImage` is set on a match. */
  method OGImageBlock(tags: Tags, attrs: seq<Attribute>, cap: nat) returns (r: Tags)
    ensures r == ApplyProperty(tags, attrs, TagOGImage, cap)
  {
    PlainBlockSpec(tags, attrs, TagOGImage, cap);
    assert Target(TagOGImage) == OGImage;
    r := tags;
    var m := ExtractMetaProperty(attrs, PropertyName(TagOGImage));
    if m.ok {
      r := Set(r, OGImage, TruncateField(m.content, cap));
    }
  }

  /** The block of `TagOGSiteName`: `OGSiteName` is set on a match. */
  method OGSiteNameBlock(tags: Tags, attrs: seq<Attribute>, cap: nat) returns (r: Tags)
    ensures r == ApplyProperty(tags, attrs, TagOGSiteName, cap)
  {
    PlainBlockSpec(tags, attrs, TagOGSiteName, cap);
    assert Target(TagOGSiteName) == OGSiteName;
    r := tags;
    var m := ExtractMetaProperty(attrs, PropertyName(TagOGSiteName));
    if m.ok {
      r := Set(r, OGSiteName, TruncateField(m.content, cap));
    }
  }

  /** The block of `TagOGPublisher`: `OGPublisher` is set on a match. */
  method OGPublisherBlock(tags: Tags, attrs: seq<Attribute>, cap: nat) returns (r: Tags)
    ensures r == ApplyProperty(tags, attrs, TagOGPublisher, cap)
  {
    PlainBlockSpec(tags, attrs, TagOGPublisher, cap);
    assert Target(TagOGPublisher) == OGPublisher;
    r := tags;
    var m := ExtractMetaProperty(attrs, PropertyName(TagOGPublisher));
    if m.ok {
      r := Set(r, OGPublisher, TruncateField(m.content, cap));
    }
  }

  /** The block of `TagOGAuthor`: `OGAuthor` is set on a match, and `Author` too while it is empty. */
  method OGAuthorBlock(tags: Tags, attrs: seq<Attribute>, cap: nat) returns (r: Tags)
    ensures r == ApplyProperty(tags, attrs, TagOGAuthor, cap)
  {
    FallbackBlockSpec(tags, attrs, TagOGAuthor, Author, cap);
    assert Target(TagOGAuthor) == OGAuthor;
    r := tags;
    var m := ExtractMetaProperty(attrs, PropertyName(TagOGAuthor));
    if m.ok {
      r := Set(r, OGAuthor, TruncateField(m.content, cap));
      if |Get(r, Author)| == 0 {
        r := Set(r, Author, TruncateField(m.content, cap));
      }
    }
  }

  /** The block of `TagTwitterTitle`: `TwitterTitle` is set on a match, and `Title` too while it is empty. */
  method TwitterTitleBlock(tags: Tags, attrs: seq<Attribute>, cap: nat) returns (r: Tags)
    ensures r == ApplyProperty(tags, attrs, TagTwitterTitle, cap)
  {
    FallbackBlockSpec(tags, attrs, TagTwitterTitle, Title, cap);
    assert Target(TagTwitterTitle) == TwitterTitle;
    r := tags;
    var m := ExtractMetaProperty(attrs, PropertyName(TagTwitterTitle));
    if m.ok {
      r := Set(r, TwitterTitle, TruncateField(m.content, cap));
      if |Get(r, Title)| == 0 {
        r := Set(r, Title, TruncateField(m.content, cap));
      }
    }
  }

  /** The block of `TagTwitterDescription`: `TwitterDescription` is set on a match, and `Description` too while it is empty. */
  method TwitterDescriptionBlock(tags: Tags, attrs: seq<Attribute>, cap: nat) returns (r: Tags)
    ensures r == ApplyProperty(tags, attrs, TagTwitterDescription, cap)
  {
    FallbackBlockSpec(tags, attrs, TagTwitterDescription, Description, cap);
    assert Target(TagTwitterDescription) == TwitterDescription;
    r := tags;
    var m := ExtractMetaProperty(attrs, PropertyName(TagTwitterDescription));
    if m.ok {
      r := Set(r, TwitterDescription, TruncateField(m.content, cap));
      if |Get(r, Description)| == 0 {
        r := Set(r, Description, TruncateField(m.content, cap));
      }
    }
  }

  /** The block of `TagTwitterImage`: `TwitterImage` is set on a match, and `OGImage` too while it is empty. */
  method TwitterImageBlock(tags: Tags, attrs: seq<Attribute>, cap: nat) returns (r: Tags)
    ensures r == ApplyProperty(tags, attrs, TagTwitterImage, cap)
  {
    FallbackBlockSpec(tags, attrs, TagTwitterImage, OGImage, cap);
    assert Target(TagTwitterImage) == TwitterImage;
    r := tags;
    var m := ExtractMetaProperty(attrs, PropertyName(TagTwitterImage));
    if m.ok {
      r := Set(r, TwitterImage, TruncateField(m.content, cap));
      if |Get(r, OGImage)| == 0 {
        r := Set(r, OGImage, TruncateField(m.content, cap));
      }
    }
  }

  /** The block of `TagTwitterCard`: `TwitterCard` is set on a match. */
  method TwitterCardBlock(tags: Tags, attrs: seq<Attribute>, cap: nat) returns (r: Tags)
    ensures r == ApplyProperty(tags, attrs, TagTwitterCard, cap)
  {
    PlainBlockSpec(tags, attrs, TagTwitterCard, cap);
    assert Target(TagTwitterCard) == TwitterCard;
    r := tags;
    var m := ExtractMetaProperty(attrs, PropertyName(TagTwitterCard));
    if m.ok {
      r := Set(r, TwitterCard, TruncateField(m.content, cap));
    }
  }

  /** The block of `TagTwitterPlayer`: `TwitterPlayer` is set on a match. */
  method TwitterPlayerBlock(tags: Tags, attrs: seq<Attribute>, cap: nat) returns (r: Tags)
    ensures r == ApplyProperty(tags, attrs, TagTwitterPlayer, cap)
  {
    PlainBlockSpec(tags, attrs, TagTwitterPlayer, cap);
    assert Target(TagTwitterPlayer) == TwitterPlayer;
    r := tags;
    var m := ExtractMetaProperty(attrs, PropertyName(TagTwitterPlayer));
    if m.ok {
      r := Set(r, TwitterPlayer, TruncateField(m.content, cap));
    }
  }

  /** The block of `TagTwitterPlayerWidth`: `TwitterPlayerWidth` is set on a match. */
  method TwitterPlayerWidthBlock(tags: Tags, attrs: seq<Attribute>, cap: nat) returns (r: Tags)
    ensures r == ApplyProperty(tags, attrs, TagTwitterPlayerWidth, cap)
  {
    PlainBlockSpec(tags, attrs, TagTwitterPlayerWidth, cap);
    assert Target(TagTwitterPlayerWidth) == TwitterPlayerWidth;
    r := tags;
    var m := ExtractMetaProperty(attrs, PropertyName(TagTwitterPlayerWidth));
    if m.ok {
      r := Set(r, TwitterPlayerWidth, TruncateField(m.content, cap));
    }
  }

  /** The block of `TagTwitterPlayerHeight`: `TwitterPlayerHeight` is set on a match. */
  method TwitterPlayerHeightBlock(tags: Tags, attrs: seq<Attribute>, cap: nat) returns (r: Tags)
    ensures r == ApplyProperty(tags, attrs, TagTwitterPlayerHeight, cap)
  {
    PlainBlockSpec(tags, attrs, TagTwitterPlayerHeight, cap);
    assert Target(TagTwitterPlayerHeight) == TwitterPlayerHeight;
    r := tags;
    var m := ExtractMetaProperty(attrs, PropertyName(TagTwitterPlayerHeight));
    if m.ok {
      r := Set(r, TwitterPlayerHeight, TruncateField(m.content, cap));
    }
  }

  /** The block written for identifier `p`. */
  method Block(tags: Tags, attrs: seq<Attribute>, p: Property, cap: nat) returns (r: Tags)
    ensures r == ApplyProperty(tags, attrs, p, cap)
  {
    match p
    case TagMetaDescription => r := DescriptionBlock(tags, attrs, cap);
    case TagMetaAuthor => r := AuthorBlock(tags, attrs, cap);
    case TagOGTitle => r := OGTitleBlock(tags, attrs, cap);
    case TagOGDescription => r := OGDescriptionBlock(tags, attrs, cap);
    case TagOGImage => r := OGImageBlock(tags, attrs, cap);
    case TagOGSiteName => r := OGSiteNameBlock(tags, attrs, cap);
    case TagOGPublisher => r := OGPublisherBlock(tags, attrs, cap);
    case TagOGAuthor => r := OGAuthorBlock(tags, attrs, cap);
    case TagTwitterTitle => r := TwitterTitleBlock(tags, attrs, cap);
    case TagTwitterDescription => r := TwitterDescriptionBlock(tags, attrs, cap);
    case TagTwitterImage => r := TwitterImageBlock(tags, attrs, cap);
    case TagTwitterCard => r := TwitterCardBlock(tags, attrs, cap);
    case TagTwitterPlayer => r := TwitterPlayerBlock(tags, attrs, cap);
    case TagTwitterPlayerWidth => r := TwitterPlayerWidthBlock(tags, attrs, cap);
    case TagTwitterPlayerHeight => r := TwitterPlayerHeightBlock(tags, attrs, cap);
  }

  /** The meta-tag branch of the loop: the fifteen blocks, run one after
      another in source order, compute the table-driven `ApplyMeta`. */
  method ProcessMeta(tags: Tags, attrs: seq<Attribute>, cap: nat) returns (r: Tags)
    ensures r == ApplyMeta(tags, attrs, cap)
  {
    r := tags;
    var k := 0;
    while k < |SourceOrder|
      invariant k <= |SourceOrder|
      invariant r == ApplyAll(tags, attrs, SourceOrder[..k], cap)
    {
      var before := r;
      r := Block(r, attrs, SourceOrder[k], cap);
      NextBlock(tags, attrs, k, before, r, cap);
      k := k + 1;
    }
    assert SourceOrder[..k] == SourceOrder;
  }

  /** One pass of the Go loop's `switch` on a token that does not end it:
      `title` arms `titleFound`, `meta` runs the fifteen blocks, a text
      token while armed becomes the title and disarms, and comments,
      doctypes and end tags change nothing. It is the model's `Step`. */
  method HandleToken(tags: Tags, titleFound: bool, t: Token, cap: nat) returns (tags': Tags, titleFound': bool)
    requires !Stops(t)
    ensures State(tags', titleFound') == Step(State(tags, titleFound), t, cap)
  {
    tags', titleFound' := tags, titleFound;
    if t.StartTag? || t.SelfClosingTag? {
      if t.name == TagTitle {
        titleFound' := true;
      }
      if t.name == TagMeta {
        tags' := ProcessMeta(tags, t.attrs, cap);
      }
    } else if t.Text? {
      if titleFound {
        tags' := Set(tags, Title, TruncateField(t.data, cap));
        titleFound' := false;
      }
    }
  }

  /** `Extract` as the Go loop is written: tokens are consumed one at a
      time, and an error token, running out of tokens or a `body` tag
      returns the record accumulated so far. The result is the functional
      model's. */
  method ExtractByLoop(tokens: seq<Token>, cap: nat) returns (tags: Tags)
    ensures tags == Extract(tokens, cap)
  {
    tags := EmptyTags();
    var titleFound := false;
    var i := 0;
    while i < |tokens|
      invariant i <= |tokens|
      invariant Run(tokens[i..], State(tags, titleFound), cap).tags == Extract(tokens, cap)
      decreases |tokens| - i
    {
      var t := tokens[i];
      assert tokens[i..][0] == t && tokens[i..][1..] == tokens[i + 1..];
      if Stops(t) {
        return;
      }
      tags, titleFound := HandleToken(tags, titleFound, t, cap);
      i := i + 1;
    }
    assert tokens[i..] == [];
  }
}
