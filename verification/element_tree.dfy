/**
 * The parsed XML tree the scripts read, and the three ElementPath
 * shapes they use: `find(tag)` and `findall(tag)` over direct
 * children, and the star-descendant path (a `*` step, then `//` and the
 * tag) over everything below a child
 * of the root.  The parser itself is outside the model: a file is
 * given as its parse outcome.
 */
module ElementTree {
  import opened Wrappers

  /**
   * One element: its tag, its text (`None` when the element has no
   * leading text) and its child elements in document order.
   * Attributes and tails are never read by the scripts.
   */
  datatype Element = Element(tag: string, text: Option<string>, children: seq<Element>)

  /** What the XML parser made of a file. */
  datatype Parse = Parsed(root: Element) | Malformed

  /** Index of the first element of `es` carrying `tag`, or -1. */
  function FirstIndex(es: seq<Element>, tag: string): (r: int)
    ensures -1 <= r < |es|
    ensures r == -1 <==> forall j :: 0 <= j < |es| ==> es[j].tag != tag
    ensures 0 <= r ==> es[r].tag == tag && forall j :: 0 <= j < r ==> es[j].tag != tag
  {
    if es == [] then -1
    else if es[0].tag == tag then 0
    else
      var k := FirstIndex(es[1..], tag);
      if k == -1 then -1 else k + 1
  }

  /** `e.find(tag)`: the first direct child with that tag, if any. */
  function Find(e: Element, tag: string): (r: Option<Element>)
    ensures r.None? <==> forall j :: 0 <= j < |e.children| ==> e.children[j].tag != tag
    ensures r.Some? ==> r.value.tag == tag
    ensures r.Some? ==>
      exists k :: 0 <= k < |e.children| && e.children[k] == r.value &&
        forall j :: 0 <= j < k ==> e.children[j].tag != tag
  {
    var k := FirstIndex(e.children, tag);
    if k < 0 then None else Some(e.children[k])
  }

  /** The elements of `es` carrying `tag`, in order. */
  function WithTag(es: seq<Element>, tag: string): (r: seq<Element>)
    ensures |r| <= |es|
    ensures forall j :: 0 <= j < |r| ==> r[j].tag == tag && r[j] in es
    ensures forall j :: 0 <= j < |es| && es[j].tag == tag ==> es[j] in r
  {
    if es == [] then []
    else (if es[0].tag == tag then [es[0]] else []) + WithTag(es[1..], tag)
  }

  /** `e.findall(tag)`: the direct children with that tag, in document order. */
  function FindAll(e: Element, tag: string): (r: seq<Element>)
    ensures forall j :: 0 <= j < |r| ==> r[j].tag == tag && r[j] in e.children
    ensures forall j :: 0 <= j < |e.children| && e.children[j].tag == tag ==> e.children[j] in r
  {
    WithTag(e.children, tag)
  }

  /** `e.iter(tag)`: `e` itself when it carries `tag`, then the matches below it, in document order. */
  function SubtreeMatches(e: Element, tag: string): (r: seq<Element>)
    decreases e
    ensures forall j :: 0 <= j < |r| ==> r[j].tag == tag
    ensures e.tag == tag ==> r != [] && r[0] == e
  {
    (if e.tag == tag then [e] else []) + ForestMatches(e.children, tag)
  }

  /** The matches of each element of `es` in turn. */
  function ForestMatches(es: seq<Element>, tag: string): (r: seq<Element>)
    decreases es
    ensures forall j :: 0 <= j < |r| ==> r[j].tag == tag
  {
    if es == [] then [] else SubtreeMatches(es[0], tag) + ForestMatches(es[1..], tag)
  }

  /**
   * `root.findall` with the star-descendant path (`*`, then `//`
   * and the tag): for each child of the root in turn,
   * the elements with that tag strictly below it, in document order.
   * A direct child of the root is never itself a match.
   */
  function FindAllBelowChildren(root: Element, tag: string): (r: seq<Element>)
    ensures forall j :: 0 <= j < |r| ==> r[j].tag == tag
  {
    BelowEach(root.children, tag)
  }

  /** The strict descendants carrying `tag` of each element of `es` in turn. */
  function BelowEach(es: seq<Element>, tag: string): (r: seq<Element>)
    ensures forall j :: 0 <= j < |r| ==> r[j].tag == tag
  {
    if es == [] then [] else ForestMatches(es[0].children, tag) + BelowEach(es[1..], tag)
  }

  /** A list of one element keeps that element exactly when it carries the tag. */
  lemma WithTagOne(x: Element, tag: string)
    ensures WithTag([x], tag) == if x.tag == tag then [x] else []
  {
    assert [x][1..] == [];
  }

  /**
   * Selection keeps document order and multiplicity: the matches of a
   * concatenation are the matches of the first part, then those of the
   * second.  With `WithTagOne` this fixes `findall(tag)` completely.
   */
  lemma {:induction false} WithTagAppend(a: seq<Element>, b: seq<Element>, tag: string)
    ensures WithTag(a + b, tag) == WithTag(a, tag) + WithTag(b, tag)
  {
    if a == [] {
      assert a + b == b;
    } else {
      assert (a + b)[0] == a[0] && (a + b)[1..] == a[1..] + b;
      WithTagAppend(a[1..], b, tag);
    }
  }

  /** `x` is `e` itself or lies somewhere below it. */
  predicate InSubtree(x: Element, e: Element)
    decreases e
  {
    x == e || exists c :: c in e.children && InSubtree(x, c)
  }

  /** `x` lies strictly below `e`: in the subtree of one of its children. */
  predicate StrictlyBelow(x: Element, e: Element)
  {
    exists c :: c in e.children && InSubtree(x, c)
  }

  /** `e.iter(tag)` yields exactly the elements of the subtree of `e` that carry `tag`. */
  lemma {:induction false} SubtreeMatchesComplete(e: Element, tag: string, x: Element)
    decreases e, 1
    ensures x in SubtreeMatches(e, tag) <==> x.tag == tag && InSubtree(x, e)
  {
    ForestMatchesComplete(e.children, tag, x);
  }

  /** The matches of a list of subtrees are exactly the tagged elements of those subtrees. */
  lemma {:induction false} ForestMatchesComplete(es: seq<Element>, tag: string, x: Element)
    decreases es, 0
    ensures x in ForestMatches(es, tag) <==> x.tag == tag && exists c :: c in es && InSubtree(x, c)
  {
    if es != [] {
      SubtreeMatchesComplete(es[0], tag, x);
      ForestMatchesComplete(es[1..], tag, x);
      assert forall c :: c in es <==> c == es[0] || c in es[1..];
    }
  }

  /** The matches below a list of elements are exactly the tagged elements strictly below one of them. */
  lemma {:induction false} BelowEachComplete(es: seq<Element>, tag: string, x: Element)
    ensures x in BelowEach(es, tag) <==> x.tag == tag && exists c :: c in es && StrictlyBelow(x, c)
  {
    if es != [] {
      ForestMatchesComplete(es[0].children, tag, x);
      BelowEachComplete(es[1..], tag, x);
      assert StrictlyBelow(x, es[0]) <==> exists c :: c in es[0].children && InSubtree(x, c);
      assert forall c :: c in es <==> c == es[0] || c in es[1..];
      assert (exists c :: c in es && StrictlyBelow(x, c)) <==>
        StrictlyBelow(x, es[0]) || exists c :: c in es[1..] && StrictlyBelow(x, c);
    }
  }

  /**
   * `findall('*' + '//' + tag)` finds an element exactly when it carries
   * the tag and lies strictly below some child of the root.
   */
  lemma FindAllBelowChildrenComplete(root: Element, tag: string, x: Element)
    ensures x in FindAllBelowChildren(root, tag) <==>
      x.tag == tag && exists c :: c in root.children && StrictlyBelow(x, c)
  {
    BelowEachComplete(root.children, tag, x);
  }

  /** The matches of a concatenation of subtree lists are those of the first list, then those of the second. */
  lemma {:induction false} ForestMatchesAppend(a: seq<Element>, b: seq<Element>, tag: string)
    ensures ForestMatches(a + b, tag) == ForestMatches(a, tag) + ForestMatches(b, tag)
  {
    if a == [] {
      assert a + b == b;
    } else {
      assert (a + b)[0] == a[0] && (a + b)[1..] == a[1..] + b;
      ForestMatchesAppend(a[1..], b, tag);
    }
  }

  /**
   * Document order below the root's children: the matches below a
   * concatenation are those below the first part, then those below the
   * second, and below one element they are its subtree matches minus
   * the element itself.
   */
  lemma {:induction false} BelowEachAppend(a: seq<Element>, b: seq<Element>, tag: string)
    ensures BelowEach(a + b, tag) == BelowEach(a, tag) + BelowEach(b, tag)
    ensures forall c :: BelowEach([c], tag) == ForestMatches(c.children, tag)
  {
    forall c
      ensures BelowEach([c], tag) == ForestMatches(c.children, tag)
    {
      assert [c][1..] == [];
    }
    if a == [] {
      assert a + b == b;
    } else {
      assert (a + b)[0] == a[0] && (a + b)[1..] == a[1..] + b;
      BelowEachAppend(a[1..], b, tag);
    }
  }
}
