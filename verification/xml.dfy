/** An already-parsed XML element tree, with the ElementTree lookups the
    core uses: `find` (first direct child with a tag), `findall` (all direct
    children with a tag, in document order) and attribute `get`. Tags are
    namespace-qualified strings in Clark notation. */
module Xml {
  import opened Wrappers

  datatype Node = Node(tag: string, attrs: map<string, string>, text: Option<string>, children: seq<Node>)

  /** The IPTC NewsML-G2 namespace of every element the core looks at. */
  const IptcNamespace := "http://iptc.org/std/nar/2006-10-01/"

  function QName(local: string): string {
    "{" + IptcNamespace + "}" + local
  }

  /** `element.get(key)`. */
  function Get(n: Node, key: string): Option<string> {
    if key in n.attrs then Some(n.attrs[key]) else None
  }

  function FindIn(cs: seq<Node>, tag: string): (r: Option<Node>)
    ensures r.Some? ==> exists i :: 0 <= i < |cs| && cs[i] == r.value && r.value.tag == tag &&
                                    forall j :: 0 <= j < i ==> cs[j].tag != tag
    ensures r.None? <==> forall i :: 0 <= i < |cs| ==> cs[i].tag != tag
    decreases |cs|
  {
    if |cs| == 0 then None
    else if cs[0].tag == tag then Some(cs[0])
    else
      var r := FindIn(cs[1..], tag);
      assert forall i :: 0 < i < |cs| ==> cs[i] == cs[1..][i - 1];
      r
  }

  /** `element.find(tag)`: the first direct child with that tag, if any. */
  function Find(n: Node, tag: string): (r: Option<Node>)
    ensures r.Some? ==> exists i :: 0 <= i < |n.children| && n.children[i] == r.value && r.value.tag == tag &&
                                    forall j :: 0 <= j < i ==> n.children[j].tag != tag
    ensures r.None? <==> forall i :: 0 <= i < |n.children| ==> n.children[i].tag != tag
  {
    FindIn(n.children, tag)
  }

  function FilterTag(cs: seq<Node>, tag: string): seq<Node>
    decreases |cs|
  {
    if |cs| == 0 then []
    else (if cs[0].tag == tag then [cs[0]] else []) + FilterTag(cs[1..], tag)
  }

  /** Filtering keeps document order: the filter of a concatenation is the
      concatenation of the filters. */
  lemma {:induction false} FilterTagAppend(a: seq<Node>, b: seq<Node>, tag: string)
    ensures FilterTag(a + b, tag) == FilterTag(a, tag) + FilterTag(b, tag)
    decreases |a|
  {
    if |a| == 0 {
      assert a + b == b;
    } else {
      var head := if a[0].tag == tag then [a[0]] else [];
      var t := a[1..];
      assert a + b == [a[0]] + (t + b);
      assert a == [a[0]] + t;
      FilterTagCons(a[0], t + b, tag);
      FilterTagCons(a[0], t, tag);
      FilterTagAppend(t, b, tag);
      ConcatAssoc(head, FilterTag(t, tag), FilterTag(b, tag));
    }
  }

  lemma ConcatAssoc<T>(x: seq<T>, y: seq<T>, z: seq<T>)
    ensures x + (y + z) == (x + y) + z
  {
  }

  /** One filtering step on a sequence written as its head and its tail. */
  lemma FilterTagCons(x: Node, rest: seq<Node>, tag: string)
    ensures FilterTag([x] + rest, tag) == (if x.tag == tag then [x] else []) + FilterTag(rest, tag)
  {
    assert ([x] + rest)[0] == x && ([x] + rest)[1..] == rest;
  }

  /** `element.findall(tag)`: every direct child with that tag, in order. */
  function FindAll(n: Node, tag: string): (r: seq<Node>)
    ensures forall c :: c in r ==> c in n.children && c.tag == tag
    ensures forall c :: c in n.children && c.tag == tag ==> c in r
  {
    FilterTagMembers(n.children, tag);
    FilterTag(n.children, tag)
  }

  /** The filter holds exactly the elements with the tag. */
  lemma {:induction false} FilterTagMembers(cs: seq<Node>, tag: string)
    ensures forall c :: c in FilterTag(cs, tag) <==> c in cs && c.tag == tag
    decreases |cs|
  {
    if |cs| > 0 {
      FilterTagMembers(cs[1..], tag);
      assert cs == [cs[0]] + cs[1..];
    }
  }

  /** A path of child indices leading from `n` to one of its descendants
      (the empty path leads to `n` itself). */
  ghost predicate ValidPath(n: Node, p: seq<nat>)
    decreases |p|
  {
    |p| == 0 || (p[0] < |n.children| && ValidPath(n.children[p[0]], p[1..]))
  }

  ghost function At(n: Node, p: seq<nat>): Node
    requires ValidPath(n, p)
    decreases |p|
  {
    if |p| == 0 then n else At(n.children[p[0]], p[1..])
  }
}
