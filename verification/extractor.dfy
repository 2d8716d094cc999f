/**
 The extractor: a state machine folded over the token stream. Its state is
 the record being filled and the flag that a `title` start tag was seen and
 its text is still awaited. Scanning stops at the first error token (end of
 stream included) or at the first `body` tag.
 */
module Extractor {
  import opened Bytes
  import opened Definitions
  import opened Tokens
  import opened MetaProperty
  import opened Truncate

  // ---------------------------------------------------------------------
  // The meta-tag dispatch table
  // ---------------------------------------------------------------------

  /** The field an identifier assigns unconditionally when it matches. */
  function Target(p: Property): Field
  {
    match p
    case TagMetaDescription => Description
    case TagMetaAuthor => Author
    case TagOGTitle => OGTitle
    case TagOGDescription => OGDescription
    case TagOGImage => OGImage
    case TagOGSiteName => OGSiteName
    case TagOGPublisher => OGPublisher
    case TagOGAuthor => OGAuthor
    case TagTwitterTitle => TwitterTitle
    case TagTwitterDescription => TwitterDescription
    case TagTwitterImage => TwitterImage
    case TagTwitterCard => TwitterCard
    case TagTwitterPlayer => TwitterPlayer
    case TagTwitterPlayerWidth => TwitterPlayerWidth
    case TagTwitterPlayerHeight => TwitterPlayerHeight
  }

  /** The field an identifier also fills, but only while it is still empty. */
  function Fallback(p: Property): Option<Field>
  {
    match p
    case TagOGTitle => Some(Title)
    case TagOGDescription => Some(Description)
    case TagOGAuthor => Some(Author)
    case TagTwitterTitle => Some(Title)
    case TagTwitterDescription => Some(Description)
    case TagTwitterImage => Some(OGImage)
    case _ => None
  }

  /** The order in which a meta tag is tested against the identifiers. */
  const SourceOrder: seq<Property> := [
    TagMetaDescription, TagMetaAuthor, TagOGTitle, TagOGDescription,
    TagOGImage, TagOGSiteName, TagOGPublisher, TagOGAuthor,
    TagTwitterTitle, TagTwitterDescription, TagTwitterImage,
    TagTwitterCard, TagTwitterPlayer, TagTwitterPlayerWidth,
    TagTwitterPlayerHeight
  ]

  /** Each identifier is tested exactly once per meta tag. */
  lemma SourceOrderComplete()
    ensures |SourceOrder| == 15
    ensures forall p :: p in SourceOrder
    ensures forall i, j :: 0 <= i < j < |SourceOrder| ==> SourceOrder[i] != SourceOrder[j]
  {
    forall p ensures p in SourceOrder {
      match p
      case TagMetaDescription => assert SourceOrder[0] == p;
      case TagMetaAuthor => assert SourceOrder[1] == p;
      case TagOGTitle => assert SourceOrder[2] == p;
      case TagOGDescription => assert SourceOrder[3] == p;
      case TagOGImage => assert SourceOrder[4] == p;
      case TagOGSiteName => assert SourceOrder[5] == p;
      case TagOGPublisher => assert SourceOrder[6] == p;
      case TagOGAuthor => assert SourceOrder[7] == p;
      case TagTwitterTitle => assert SourceOrder[8] == p;
      case TagTwitterDescription => assert SourceOrder[9] == p;
      case TagTwitterImage => assert SourceOrder[10] == p;
      case TagTwitterCard => assert SourceOrder[11] == p;
      case TagTwitterPlayer => assert SourceOrder[12] == p;
      case TagTwitterPlayerWidth => assert SourceOrder[13] == p;
      case TagTwitterPlayerHeight => assert SourceOrder[14] == p;
    }
  }

  /** No two identifiers share a field, none writes `Title` directly, and
      none falls back onto its own field. */
  lemma TargetTable()
    ensures forall p, q :: Target(p) == Target(q) ==> p == q
    ensures forall p :: Target(p) != Title
    ensures forall p :: Fallback(p) != Some(Target(p))
  {
  }

  /** The same table read per field: the identifier that assigns the field. */
  function Owner(f: Field): Option<Property>
  {
    match f
    case Author => Some(TagMetaAuthor)
    case Description => Some(TagMetaDescription)
    case OGAuthor => Some(TagOGAuthor)
    case OGDescription => Some(TagOGDescription)
    case OGImage => Some(TagOGImage)
    case OGPublisher => Some(TagOGPublisher)
    case OGSiteName => Some(TagOGSiteName)
    case OGTitle => Some(TagOGTitle)
    case Title => None
    case TwitterDescription => Some(TagTwitterDescription)
    case TwitterImage => Some(TagTwitterImage)
    case TwitterCard => Some(TagTwitterCard)
    case TwitterPlayer => Some(TagTwitterPlayer)
    case TwitterPlayerHeight => Some(TagTwitterPlayerHeight)
    case TwitterPlayerWidth => Some(TagTwitterPlayerWidth)
    case TwitterTitle => Some(TagTwitterTitle)
  }

  /** The same table read per field: the identifiers that fill the field
      while it is empty. */
  function Backfillers(f: Field): seq<Property>
  {
    match f
    case Title => [TagOGTitle, TagTwitterTitle]
    case Description => [TagOGDescription, TagTwitterDescription]
    case Author => [TagOGAuthor]
    case OGImage => [TagTwitterImage]
    case _ => []
  }

  /** The per-field tables are the per-identifier tables read backwards. */
  lemma TablesAgree()
    ensures forall p :: Owner(Target(p)) == Some(p)
    ensures forall f, p :: Owner(f) == Some(p) ==> Target(p) == f
    ensures forall p, f :: Fallback(p) == Some(f) <==> p in Backfillers(f)
  {
  }

  // ---------------------------------------------------------------------
  // Processing one meta tag
  // ---------------------------------------------------------------------

  /** The meta tag carries identifier `p` in a `property` or `name` attribute. */
  predicate Matches(attrs: seq<Attribute>, p: Property)
  {
    ExtractMetaProperty(attrs, PropertyName(p)).ok
  }

  /** The value every assignment made for this meta tag writes: its last
      `content`, capped. */
  function Value(attrs: seq<Attribute>, cap: nat): Bytes
  {
    TruncateField(LastContent(attrs), cap)
  }

  /** One `if value, ok = extractMetaProperty(t, p); ok { ... }` block: the
      identifier's own field is assigned, its fallback field is filled only
      if it is empty at this moment, and nothing else changes. */
  function ApplyProperty(tags: Tags, attrs: seq<Attribute>, p: Property, cap: nat): (r: Tags)
    ensures forall f :: Get(r, f) ==
                        (if Matches(attrs, p) && (Target(p) == f || (Fallback(p) == Some(f) && |Get(tags, f)| == 0))
                         then Value(attrs, cap) else Get(tags, f))
  {
    var m := ExtractMetaProperty(attrs, PropertyName(p));
    ContentIsLastContent(attrs, PropertyName(p));
    if !m.ok then tags
    else
      var v := TruncateField(m.content, cap);
      var t := Set(tags, Target(p), v);
      match Fallback(p)
      case None => t
      case Some(f) => if |Get(t, f)| == 0 then Set(t, f, v) else t
  }

  /** Some identifier of `order` matches and assigns `f` directly. */
  predicate AssignedBy(order: seq<Property>, attrs: seq<Attribute>, f: Field)
  {
    exists p :: p in order && Matches(attrs, p) && Target(p) == f
  }

  /** Some identifier of `order` matches and has `f` as its fallback. */
  predicate BackfilledBy(order: seq<Property>, attrs: seq<Attribute>, f: Field)
  {
    exists p :: p in order && Matches(attrs, p) && Fallback(p) == Some(f)
  }

  /** The identifier blocks run one after another in the given order. Since
      every block writes the same value, the outcome for each field is the
      same in any order: it is that value if some matching identifier
      targets the field, or if the field was empty and some matching
      identifier falls back onto it; otherwise the field is unchanged. */
  function ApplyAll(tags: Tags, attrs: seq<Attribute>, order: seq<Property>, cap: nat): (r: Tags)
    ensures forall f :: Get(r, f) ==
                        (if AssignedBy(order, attrs, f) || (|Get(tags, f)| == 0 && BackfilledBy(order, attrs, f))
                         then Value(attrs, cap) else Get(tags, f))
    decreases |order|
  {
    if order == [] then tags
    else
      var t := ApplyProperty(tags, attrs, order[0], cap);
      var r := ApplyAll(t, attrs, order[1..], cap);
      assert forall p :: p in order <==> p == order[0] || p in order[1..];
      r
  }

  /** The meta tag assigns field `f` directly. */
  predicate Assigns(attrs: seq<Attribute>, f: Field)
  {
    Owner(f).Some? && Matches(attrs, Owner(f).value)
  }

  /** The meta tag fills field `f` if `f` is still empty. */
  predicate Backfills(attrs: seq<Attribute>, f: Field)
  {
    exists i :: 0 <= i < |Backfillers(f)| && Matches(attrs, Backfillers(f)[i])
  }

  /** Running every identifier of `SourceOrder` assigns exactly what the
      per-field table says. */
  lemma SourceOrderAssigns(attrs: seq<Attribute>, f: Field)
    ensures AssignedBy(SourceOrder, attrs, f) <==> Assigns(attrs, f)
  {
    TablesAgree();
    if AssignedBy(SourceOrder, attrs, f) {
      var p :| p in SourceOrder && Matches(attrs, p) && Target(p) == f;
      assert Owner(f) == Some(p);
    }
    if Assigns(attrs, f) {
      var p := Owner(f).value;
      SourceOrderComplete();
      assert p in SourceOrder && Target(p) == f;
    }
  }

  /** Running every identifier of `SourceOrder` backfills exactly what the
      per-field table says. */
  lemma SourceOrderBackfills(attrs: seq<Attribute>, f: Field)
    ensures BackfilledBy(SourceOrder, attrs, f) <==> Backfills(attrs, f)
  {
    if BackfilledBy(SourceOrder, attrs, f) {
      var p :| p in SourceOrder && Matches(attrs, p) && Fallback(p) == Some(f);
      BackfillerListed(attrs, p, f);
    }
    if Backfills(attrs, f) {
      var i :| 0 <= i < |Backfillers(f)| && Matches(attrs, Backfillers(f)[i]);
      ListedBackfills(attrs, i, f);
    }
  }

  /** A matching identifier that falls back onto `f` is one of `f`'s backfillers. */
  lemma BackfillerListed(attrs: seq<Attribute>, p: Property, f: Field)
    requires Matches(attrs, p) && Fallback(p) == Some(f)
    ensures Backfills(attrs, f)
  {
    TablesAgree();
    var i :| 0 <= i < |Backfillers(f)| && Backfillers(f)[i] == p;
    assert Matches(attrs, Backfillers(f)[i]);
  }

  /** A matching backfiller of `f` is tested in source order and falls back onto `f`. */
  lemma ListedBackfills(attrs: seq<Attribute>, i: int, f: Field)
    requires 0 <= i < |Backfillers(f)| && Matches(attrs, Backfillers(f)[i])
    ensures BackfilledBy(SourceOrder, attrs, f)
  {
    var p := Backfillers(f)[i];
    TablesAgree();
    SourceOrderComplete();
    assert p in SourceOrder && Fallback(p) == Some(f);
  }

  /** `extractMetaProperty` tested against every recognised identifier in
      source order. Field by field: it takes the tag's capped `content` if
      the tag names the field's own identifier, or if the field is empty
      and the tag names one of the identifiers that fall back onto it;
      otherwise it is unchanged. */
  function ApplyMeta(tags: Tags, attrs: seq<Attribute>, cap: nat): (r: Tags)
    ensures forall f :: Get(r, f) ==
                        (if Assigns(attrs, f) || (|Get(tags, f)| == 0 && Backfills(attrs, f))
                         then Value(attrs, cap) else Get(tags, f))
  {
    var r := ApplyAll(tags, attrs, SourceOrder, cap);
    forall f
      ensures Get(r, f) == (if Assigns(attrs, f) || (|Get(tags, f)| == 0 && Backfills(attrs, f))
                            then Value(attrs, cap) else Get(tags, f))
    {
      SourceOrderAssigns(attrs, f);
      SourceOrderBackfills(attrs, f);
    }
    r
  }

  // ---------------------------------------------------------------------
  // The token fold
  // ---------------------------------------------------------------------

  datatype State = State(tags: Tags, titlePending: bool)

  /** The state every extraction starts from. */
  function Initial(): (st: State)
    ensures !st.titlePending && forall f :: Get(st.tags, f) == []
  {
    State(EmptyTags(), false)
  }

  /** The tokens at which scanning stops: an error (end of stream included)
      and a `body` start or self-closing tag. */
  predicate Stops(t: Token)
  {
    t.Error? || IsTagNamed(t, TagBody)
  }

  /** A start or self-closing tag that is not `body`. */
  function OnTag(st: State, name: Bytes, attrs: seq<Attribute>, cap: nat): State
  {
    var s := if name == TagTitle then st.(titlePending := true) else st;
    if name == TagMeta then s.(tags := ApplyMeta(s.tags, attrs, cap)) else s
  }

  /** One iteration of the extraction loop on a token that does not stop it. */
  function Step(st: State, t: Token, cap: nat): State
    requires !Stops(t)
  {
    match t
    case StartTag(name, attrs) => OnTag(st, name, attrs, cap)
    case SelfClosingTag(name, attrs) => OnTag(st, name, attrs, cap)
    case Text(data) =>
      if st.titlePending then State(Set(st.tags, Title, TruncateField(data, cap)), false) else st
    case EndTag => st
    case Comment => st
    case Doctype => st
  }

  /** What one step does: the title flag is armed by a `title` tag and
      stays armed until a text token; a text token while armed sets `Title`
      to its capped data; a `meta` tag applies the meta-tag policy; nothing
      else touches the record. */
  lemma StepSpec(st: State, t: Token, cap: nat)
    requires !Stops(t)
    ensures var r := Step(st, t, cap);
            r.titlePending <==> IsTagNamed(t, TagTitle) || (st.titlePending && !t.Text?)
    ensures var r := Step(st, t, cap);
            t.Text? && st.titlePending ==> r.tags == Set(st.tags, Title, TruncateField(t.data, cap))
    ensures IsTagNamed(t, TagMeta) ==> Step(st, t, cap).tags == ApplyMeta(st.tags, t.attrs, cap)
    ensures !IsTagNamed(t, TagMeta) && !(t.Text? && st.titlePending) ==> Step(st, t, cap).tags == st.tags
  {
    StructuralNamesDistinct();
  }

  /** Every field is at most `cap` bytes long. */
  predicate WithinCap(tags: Tags, cap: nat)
  {
    forall f :: |Get(tags, f)| <= cap
  }

  /** Processing a meta tag keeps every field within the cap. */
  lemma ApplyMetaWithinCap(tags: Tags, attrs: seq<Attribute>, cap: nat)
    requires WithinCap(tags, cap)
    ensures WithinCap(ApplyMeta(tags, attrs, cap), cap)
  {
    assert |Value(attrs, cap)| <= cap;
  }

  /** Writing a value within the cap keeps every field within the cap. */
  lemma SetWithinCap(tags: Tags, f: Field, v: Bytes, cap: nat)
    requires WithinCap(tags, cap) && |v| <= cap
    ensures WithinCap(Set(tags, f, v), cap)
  {
  }

  /** One step keeps every field within the cap: whatever it writes has
      been through `TruncateField`. */
  lemma StepWithinCap(st: State, t: Token, cap: nat)
    requires !Stops(t)
    requires WithinCap(st.tags, cap)
    ensures WithinCap(Step(st, t, cap).tags, cap)
  {
    StepSpec(st, t, cap);
    if IsTagNamed(t, TagMeta) {
      ApplyMetaWithinCap(st.tags, t.attrs, cap);
    } else if t.Text? && st.titlePending {
      SetWithinCap(st.tags, Title, TruncateField(t.data, cap), cap);
    }
  }

  /** The extraction loop from state `st`: steps through the tokens until
      one stops it or none are left. */
  function Run(tokens: seq<Token>, st: State, cap: nat): (r: State)
    ensures WithinCap(st.tags, cap) ==> WithinCap(r.tags, cap)
    decreases |tokens|
  {
    if tokens == [] || Stops(tokens[0]) then st
    else
      var next := Step(st, tokens[0], cap);
      if WithinCap(st.tags, cap) then
        StepWithinCap(st, tokens[0], cap);
        Run(tokens[1..], next, cap)
      else Run(tokens[1..], next, cap)
  }

  /** `Extract`: the record accumulated from the token stream, every field
      capped at `cap` bytes; a stream that is empty or starts with an error
      or a `body` tag yields the empty record. */
  function Extract(tokens: seq<Token>, cap: nat): (r: Tags)
    ensures forall f :: |Get(r, f)| <= cap
    ensures tokens == [] || Stops(tokens[0]) ==> r == EmptyTags()
  {
    Run(tokens, Initial(), cap).tags
  }
}
