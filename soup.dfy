/** The parsed MODS document and the BeautifulSoup queries the converter makes of it:
    find / find_all by tag, attribute value or exact `.string`, select with the child
    combinator `>`, and getText. Parsing itself is not modelled: a document is given as
    its tree. Every search covers the proper descendants of the element it starts from,
    in document (pre-)order, as bs4 does. */
module Soup {
  import opened Wrappers
  import opened PyStr

  /** One XML element: its tag, its attributes, its child elements in document order and
      its own character data. A document is an Element whose children are the top-level
      elements (the BeautifulSoup object). */
  datatype Element = Element(tag: string, attrs: map<string, string>, children: seq<Element>, text: string)

  /** A search filter: a tag name, an optional attribute that must carry a given value and
      an optional exact `.string`. One step of a CSS selector is a Query without a string. */
  datatype Query = Query(tag: string, attr: Option<(string, string)>, str: Option<string>)

  function Tag(t: string): Query
  {
    Query(t, None, None)
  }

  function TagAttr(t: string, name: string, value: string): Query
  {
    Query(t, Some((name, value)), None)
  }

  function TagString(t: string, s: string): Query
  {
    Query(t, None, Some(s))
  }

  /** bs4's `.string`: the text of an element with a single text child, looked through a
      chain of single element children; None when there is more than one child or none. */
  function StringOf(e: Element): Option<string>
  {
    if e.children == [] then (if e.text == "" then None else Some(e.text))
    else if e.text == "" && |e.children| == 1 then StringOf(e.children[0])
    else None
  }

  predicate Matches(q: Query, e: Element)
  {
    && e.tag == q.tag
    && (q.attr.Some? ==> q.attr.value.0 in e.attrs && e.attrs[q.attr.value.0] == q.attr.value.1)
    && (q.str.Some? ==> StringOf(e) == q.str)
  }

  // ---------------------------------------------------------------- traversal

  /** The chain of elements from a top-level element of the search down to one node. */
  type Path = p: seq<Element> | |p| > 0 witness [Element("", map[], [], "")]

  function Last(p: Path): Element
  {
    p[|p| - 1]
  }

  /** The chains to every node of the forest cs, in pre-order, each below the chain anc. */
  function Walk(anc: seq<Element>, cs: seq<Element>): seq<Path>
    decreases cs
  {
    if cs == [] then []
    else [anc + [cs[0]]] + Walk(anc + [cs[0]], cs[0].children) + Walk(anc, cs[1..])
  }

  /** The chains to the proper descendants of e, in document order. */
  function Paths(e: Element): seq<Path>
  {
    Walk([], e.children)
  }

  /** The last node of each chain, in order. */
  function Ends(ps: seq<Path>): seq<Element>
  {
    if ps == [] then [] else [Last(ps[0])] + Ends(ps[1..])
  }

  /** The proper descendants of e, in document order. */
  function Descendants(e: Element): seq<Element>
  {
    Ends(Paths(e))
  }

  // ---------------------------------------------------------------- find and find_all

  /** The elements of s that match q, in their order in s. */
  function Filter(s: seq<Element>, q: Query): seq<Element>
  {
    if s == [] then []
    else if Matches(q, s[0]) then [s[0]] + Filter(s[1..], q)
    else Filter(s[1..], q)
  }

  /** Filter keeps exactly the matching elements. */
  lemma {:induction false} FilterMembers(s: seq<Element>, q: Query)
    ensures forall x :: x in Filter(s, q) <==> x in s && Matches(q, x)
  {
    if s != [] {
      FilterMembers(s[1..], q);
      assert forall x :: x in s <==> x == s[0] || x in s[1..];
    }
  }

  /** The head of a non-empty Filter is the first matching element of s. */
  lemma {:induction false} FilterFirst(s: seq<Element>, q: Query)
    ensures var r := Filter(s, q);
      r != [] ==> exists k | 0 <= k < |s| :: s[k] == r[0] && Matches(q, s[k]) && forall j | 0 <= j < k :: !Matches(q, s[j])
  {
    if s != [] && !Matches(q, s[0]) {
      FilterFirst(s[1..], q);
      assert forall k | 1 <= k < |s| :: s[k] == s[1..][k - 1];
      var r := Filter(s, q);
      if r != [] {
        var k :| 0 <= k < |s[1..]| && s[1..][k] == r[0] && Matches(q, s[1..][k]) && forall j | 0 <= j < k :: !Matches(q, s[1..][j]);
        assert s[k + 1] == r[0] && forall j | 0 <= j < k + 1 :: !Matches(q, s[j]);
      }
    }
  }

  /** e.find_all(q) */
  function FindAll(e: Element, q: Query): seq<Element>
  {
    Filter(Descendants(e), q)
  }

  /** e.find(q): the first match in document order, or None. */
  function Find(e: Element, q: Query): Option<Element>
  {
    var all := FindAll(e, q);
    if all == [] then None else Some(all[0])
  }

  /** find gives None exactly when nothing below e matches, and otherwise the first match
      in document order. */
  lemma FindMeaning(e: Element, q: Query)
    ensures Find(e, q).None? <==> forall x | x in Descendants(e) :: !Matches(q, x)
    ensures Find(e, q).Some? ==>
      var d := Descendants(e);
      exists k | 0 <= k < |d| :: d[k] == Find(e, q).value && Matches(q, d[k]) && forall j | 0 <= j < k :: !Matches(q, d[j])
  {
    FilterMembers(Descendants(e), q);
    FilterFirst(Descendants(e), q);
    var all := FindAll(e, q);
    if all != [] {
      assert all[0] in all;
    }
  }

  /** e.find_all(tag) is not empty: e has a descendant with that tag. */
  predicate HasDescendant(e: Element, tag: string)
  {
    FindAll(e, Tag(tag)) != []
  }

  // ---------------------------------------------------------------- select

  /** A path matches a selector `s0 > s1 > ... > sn` when its last node matches sn and
      each node above it matches the step before. */
  predicate ChainMatches(p: Path, sel: seq<Query>)
  {
    && 1 <= |sel| <= |p|
    && forall k | 0 <= k < |sel| :: Matches(sel[k], p[|p| - |sel| + k])
  }

  function SelectPaths(ps: seq<Path>, sel: seq<Query>): seq<Element>
  {
    if ps == [] then []
    else if ChainMatches(ps[0], sel) then [Last(ps[0])] + SelectPaths(ps[1..], sel)
    else SelectPaths(ps[1..], sel)
  }

  /** select returns the last nodes of exactly the chains that match the selector. */
  lemma {:induction false} SelectPathsMembers(ps: seq<Path>, sel: seq<Query>)
    ensures forall x :: x in SelectPaths(ps, sel) <==> exists k | 0 <= k < |ps| :: ChainMatches(ps[k], sel) && Last(ps[k]) == x
  {
    if ps != [] {
      SelectPathsMembers(ps[1..], sel);
      assert forall k | 1 <= k < |ps| :: ps[k] == ps[1..][k - 1];
      forall x | x in SelectPaths(ps, sel)
        ensures exists k | 0 <= k < |ps| :: ChainMatches(ps[k], sel) && Last(ps[k]) == x
      {
        if !(ChainMatches(ps[0], sel) && Last(ps[0]) == x) {
          assert x in SelectPaths(ps[1..], sel);
          var k :| 0 <= k < |ps[1..]| && ChainMatches(ps[1..][k], sel) && Last(ps[1..][k]) == x;
          assert ChainMatches(ps[k + 1], sel) && Last(ps[k + 1]) == x;
        }
      }
      forall x, k | 0 <= k < |ps| && ChainMatches(ps[k], sel) && Last(ps[k]) == x
        ensures x in SelectPaths(ps, sel)
      {
        if k > 0 {
          assert ChainMatches(ps[1..][k - 1], sel) && Last(ps[1..][k - 1]) == x;
        }
      }
    }
  }

  /** The head of a non-empty select is the last node of the first matching chain. */
  lemma {:induction false} SelectPathsFirst(ps: seq<Path>, sel: seq<Query>)
    ensures var r := SelectPaths(ps, sel);
      r != [] ==> exists k | 0 <= k < |ps| ::
        && ChainMatches(ps[k], sel) && Last(ps[k]) == r[0]
        && forall j | 0 <= j < k :: !ChainMatches(ps[j], sel)
  {
    if ps != [] && !ChainMatches(ps[0], sel) {
      SelectPathsFirst(ps[1..], sel);
      var r := SelectPaths(ps, sel);
      if r != [] {
        var k :| 0 <= k < |ps[1..]| && ChainMatches(ps[1..][k], sel) && Last(ps[1..][k]) == r[0]
          && forall j | 0 <= j < k :: !ChainMatches(ps[1..][j], sel);
        assert forall j | 1 <= j < k + 1 :: ps[j] == ps[1..][j - 1];
        assert ChainMatches(ps[k + 1], sel) && Last(ps[k + 1]) == r[0];
      }
    }
  }

  /** e.select(css) for a selector built from the child combinator only. */
  function Select(e: Element, sel: seq<Query>): seq<Element>
  {
    SelectPaths(Paths(e), sel)
  }

  /** A one-step selector selects exactly what find_all finds, in the same order. */
  lemma {:induction false} SelectPathsOneStep(ps: seq<Path>, q: Query)
    ensures SelectPaths(ps, [q]) == Filter(Ends(ps), q)
  {
    if ps != [] {
      SelectPathsOneStep(ps[1..], q);
      var p := ps[0];
      if Matches(q, Last(p)) {
        assert forall k | 0 <= k < 1 :: [q][k] == q && p[|p| - 1 + k] == Last(p);
        assert ChainMatches(p, [q]);
      } else {
        assert [q][0] == q && p[|p| - 1 + 0] == Last(p);
        assert !ChainMatches(p, [q]);
      }
    }
  }

  lemma SelectOneStep(e: Element, q: Query)
    ensures Select(e, [q]) == FindAll(e, q)
  {
    SelectPathsOneStep(Paths(e), q);
  }

  // ---------------------------------------------------------------- text

  function TextOfAll(cs: seq<Element>): string
    decreases cs
  {
    if cs == [] then "" else cs[0].text + TextOfAll(cs[0].children) + TextOfAll(cs[1..])
  }

  /** e.getText(): the character data of e and of all its descendants. */
  function GetText(e: Element): string
  {
    e.text + TextOfAll(e.children)
  }

  /** The stripped text of the first element of s, or None when s is empty: the
      `x[0].getText().strip() if len(x) > 0 else None` idiom. */
  function FirstText(s: seq<Element>): Option<string>
  {
    if s == [] then None else Some(Strip(GetText(s[0])))
  }

  function FindText(e: Element, q: Query): Option<string>
  {
    FirstText(FindAll(e, q))
  }

  // ---------------------------------------------------------------- queries on one document

  /** The queries a caller makes of one parsed document, each as a function of its
      argument: find, find_all, the stripped text of the first match, and select. */
  datatype View = View(find: Query -> Option<Element>, text: Query -> Option<string>,
                       all: Query -> seq<Element>, select: seq<Query> -> seq<Element>)

  function ViewOf(e: Element): View
  {
    View(q => Find(e, q), q => FindText(e, q), q => FindAll(e, q), sel => Select(e, sel))
  }
}
