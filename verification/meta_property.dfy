/**
 The attribute lookup of a meta tag: one left-to-right pass over the
 attribute list that collects, independently of each other, the value of the
 last `content` attribute and whether any `property` or `name` attribute
 carries the requested identifier.
 */
module MetaProperty {
  import opened Bytes
  import opened Definitions
  import opened Tokens

  /** The pair of results the lookup returns. */
  datatype MetaMatch = MetaMatch(content: Bytes, ok: bool)

  /** The attribute names the requested identifier through `property` or `name`. */
  predicate Names(a: Attribute, prop: Bytes)
  {
    (a.key == TagProperty && a.val == prop) || (a.key == TagName && a.val == prop)
  }

  /** Index `i` holds the last `content` attribute of the list. */
  ghost predicate IsLastContent(attrs: seq<Attribute>, i: int)
  {
    0 <= i < |attrs| && attrs[i].key == TagContent &&
    forall j :: i < j < |attrs| ==> attrs[j].key != TagContent
  }

  /** One iteration of the lookup loop. */
  function Visit(acc: MetaMatch, a: Attribute, prop: Bytes): MetaMatch
  {
    MetaMatch(if a.key == TagContent then a.val else acc.content, acc.ok || Names(a, prop))
  }

  /** The lookup loop, resumed with `acc` after some attributes were seen. */
  function Scan(attrs: seq<Attribute>, prop: Bytes, acc: MetaMatch): (r: MetaMatch)
    ensures r.ok <==> acc.ok || exists i :: 0 <= i < |attrs| && Names(attrs[i], prop)
    ensures (forall i :: 0 <= i < |attrs| ==> attrs[i].key != TagContent) ==> r.content == acc.content
    ensures forall i :: IsLastContent(attrs, i) ==> r.content == attrs[i].val
    decreases |attrs|
  {
    if attrs == [] then acc
    else
      var r := Scan(attrs[1..], prop, Visit(acc, attrs[0], prop));
      assert forall i :: 0 < i < |attrs| ==> attrs[i] == attrs[1..][i - 1];
      assert forall i :: IsLastContent(attrs, i) && i > 0 ==> IsLastContent(attrs[1..], i - 1);
      r
  }

  /** `extractMetaProperty`: `content` is the value of the last `content`
      attribute (empty if there is none), and `ok` says whether some
      `property` or `name` attribute equals `prop`. */
  function ExtractMetaProperty(attrs: seq<Attribute>, prop: Bytes): (r: MetaMatch)
    ensures r.ok <==> exists i :: 0 <= i < |attrs| && Names(attrs[i], prop)
    ensures (forall i :: 0 <= i < |attrs| ==> attrs[i].key != TagContent) ==> r.content == []
    ensures forall i :: IsLastContent(attrs, i) ==> r.content == attrs[i].val
  {
    Scan(attrs, prop, MetaMatch([], false))
  }

  /** Reference reading of the `content` result: the value of the last
      `content` attribute, found by looking from the end of the list. */
  function LastContent(attrs: seq<Attribute>): Bytes
    decreases |attrs|
  {
    if attrs == [] then []
    else if attrs[|attrs| - 1].key == TagContent then attrs[|attrs| - 1].val
    else LastContent(attrs[..|attrs| - 1])
  }

  /** A list with some `content` attribute has a last one. */
  lemma {:induction false} LastContentExists(attrs: seq<Attribute>, k: int)
    requires 0 <= k < |attrs| && attrs[k].key == TagContent
    ensures exists i :: IsLastContent(attrs, i) && attrs[i].val == LastContent(attrs)
    decreases |attrs|
  {
    var n := |attrs| - 1;
    if attrs[n].key == TagContent {
      assert IsLastContent(attrs, n);
    } else {
      var init := attrs[..n];
      assert init[k] == attrs[k];
      LastContentExists(init, k);
      var i :| IsLastContent(init, i) && init[i].val == LastContent(init);
      assert IsLastContent(attrs, i);
    }
  }

  /** With no `content` attribute, the reference reading is empty. */
  lemma {:induction false} LastContentAbsent(attrs: seq<Attribute>)
    requires forall i :: 0 <= i < |attrs| ==> attrs[i].key != TagContent
    ensures LastContent(attrs) == []
    decreases |attrs|
  {
    if attrs != [] {
      var init := attrs[..|attrs| - 1];
      assert forall i :: 0 <= i < |init| ==> init[i] == attrs[i];
      LastContentAbsent(init);
    }
  }

  /** The left-to-right fold returns the last `content` value, whatever
      identifier is requested. */
  lemma ContentIsLastContent(attrs: seq<Attribute>, prop: Bytes)
    ensures ExtractMetaProperty(attrs, prop).content == LastContent(attrs)
  {
    if k :| 0 <= k < |attrs| && attrs[k].key == TagContent {
      LastContentExists(attrs, k);
    } else {
      LastContentAbsent(attrs);
    }
  }

  /** The `content` result does not depend on the requested identifier. */
  lemma ContentIgnoresProperty(attrs: seq<Attribute>, p: Bytes, q: Bytes)
    ensures ExtractMetaProperty(attrs, p).content == ExtractMetaProperty(attrs, q).content
  {
    ContentIsLastContent(attrs, p);
    ContentIsLastContent(attrs, q);
  }

  /** Reordering the attributes of a tag never changes whether it matches. */
  lemma OkIgnoresOrder(a: seq<Attribute>, b: seq<Attribute>, prop: Bytes)
    requires multiset(a) == multiset(b)
    ensures ExtractMetaProperty(a, prop).ok == ExtractMetaProperty(b, prop).ok
  {
    if ExtractMetaProperty(a, prop).ok {
      var i :| 0 <= i < |a| && Names(a[i], prop);
      assert a[i] in multiset(b);
      var j :| 0 <= j < |b| && b[j] == a[i];
    }
    if ExtractMetaProperty(b, prop).ok {
      var j :| 0 <= j < |b| && Names(b[j], prop);
      assert b[j] in multiset(a);
      var i :| 0 <= i < |a| && a[i] == b[j];
    }
  }

  /** Two attributes, the first naming the identifier and the second a
      `content`: the lookup matches and returns the second's value. */
  lemma PairedAttributes(key1: Bytes, val1: Bytes, key2: Bytes, val2: Bytes)
    requires ExtractMetaProperty([Attribute(key1, val1), Attribute(key2, val2)], val1).ok
    requires key2 == TagContent
    ensures ExtractMetaProperty([Attribute(key1, val1), Attribute(key2, val2)], val1).content == val2
  {
    assert IsLastContent([Attribute(key1, val1), Attribute(key2, val2)], 1);
  }

  /** `content` and the identifier are not paired: in a tag carrying two
      identifiers and two `content` values, both identifiers match and both
      see the last `content`. */
  lemma UnpairedContent(p: Bytes, q: Bytes, x: Bytes, y: Bytes)
    ensures var attrs := [Attribute(TagProperty, p), Attribute(TagContent, x),
                          Attribute(TagName, q), Attribute(TagContent, y)];
            ExtractMetaProperty(attrs, p) == MetaMatch(y, true) &&
            ExtractMetaProperty(attrs, q) == MetaMatch(y, true)
  {
    var attrs := [Attribute(TagProperty, p), Attribute(TagContent, x),
                  Attribute(TagName, q), Attribute(TagContent, y)];
    assert Names(attrs[0], p) && Names(attrs[2], q);
    assert IsLastContent(attrs, 3);
  }

  /** Matching is exact, case-sensitive equality: a value that differs from
      the identifier in any byte, or extends it, does not match it. */
  lemma MatchIsExact(prop: Bytes, other: Bytes, x: Bytes)
    requires prop != other
    ensures !ExtractMetaProperty([Attribute(TagProperty, other), Attribute(TagContent, x)], prop).ok
    ensures !ExtractMetaProperty([Attribute(TagName, other), Attribute(TagContent, x)], prop).ok
  {
    StructuralNamesDistinct();
  }
}
