/** Where an element of a query belongs among the facets: the chain of classes it derives from. */
module FacetPath {
  import opened Digraph
  import opened Options
  import opened ClassSchema

  /** What resolving and indexing left in the class records. */
  datatype Lineage = Lineage(ancestors: map<Name, seq<Name>>, children: map<Name, seq<Name>>)

  /** All classes of s are resolved and indexed; the lists may be in any order and repeat names.  The
      root, outside s, may be listed as an ancestor and have children of its own. */
  ghost predicate Indexed(s: Schema, l: Lineage) {
    && Closed(BaseGraph(s))
    && l.ancestors.Keys == s.Keys && s.Keys <= l.children.Keys
    && (forall n :: n in s ==> CycleFree(BaseGraph(s), n))
    && (forall n, a :: n in s && a in s ==> (a in l.ancestors[n] <==> Inherits(s, n, a)))
    && (forall b, n :: b in s ==> (n in l.children[b] <==> n in s && b in BaseGraph(s)[n]))
  }

  /** The child to descend to: the first in the list that elem derives from, unless elem itself comes
      before it. */
  function FirstChild(kids: seq<Name>, ancestors: seq<Name>, elem: Name): (r: Option<Name>)
    ensures r.Some? ==> r.value in kids && r.value in ancestors && r.value != elem
    ensures r.None? ==> elem in kids || forall x :: x in kids ==> x !in ancestors
  {
    if kids == [] || kids[0] == elem then None
    else if kids[0] in ancestors then Some(kids[0])
    else FirstChild(kids[1..], ancestors, elem)
  }

  /** The first child in the list that is elem or an ancestor of it decides. */
  lemma {:induction false} FirstChildFirst(kids: seq<Name>, ancestors: seq<Name>, elem: Name, i: nat)
    requires i <= |kids| && forall j :: 0 <= j < i ==> kids[j] != elem && kids[j] !in ancestors
    requires i < |kids| ==> kids[i] == elem || kids[i] in ancestors
    ensures FirstChild(kids, ancestors, elem) == if i == |kids| || kids[i] == elem then None else Some(kids[i])
  {
    if i > 0 {
      FirstChildFirst(kids[1..], ancestors, elem, i - 1);
    }
  }

  ghost predicate Derives(s: Schema, l: Lineage, entry: Name, elem: Name) {
    Indexed(s, l) && elem in s && entry in s && entry in l.ancestors[elem]
  }

  /** The facets elem goes through, from `entry` down. */
  ghost function Path(s: Schema, l: Lineage, entry: Name, elem: Name): (p: seq<Name>)
    requires Derives(s, l, entry, elem)
    ensures |p| > 0 && p[0] == entry
    decreases ReachSet(BaseGraph(s), elem) - ReachSet(BaseGraph(s), entry)
  {
    match FirstChild(l.children[entry], l.ancestors[elem], elem)
    case None => [entry]
    case Some(x) =>
      Descend(s, l, entry, x, elem);
      [entry] + Path(s, l, x, elem)
  }

  lemma Descend(s: Schema, l: Lineage, entry: Name, x: Name, elem: Name)
    requires Derives(s, l, entry, elem)
    requires x in l.children[entry] && x in l.ancestors[elem]
    ensures x in s
    ensures ReachSet(BaseGraph(s), elem) - ReachSet(BaseGraph(s), x)
          < ReachSet(BaseGraph(s), elem) - ReachSet(BaseGraph(s), entry)
  {
    var g := BaseGraph(s);
    ReachSetShrinks(g, x, entry);
    EdgeReaches(g, x, entry);
    AncestorReached(s, elem, entry);
    assert entry in ReachSet(g, elem) && entry in ReachSet(g, x) && entry !in ReachSet(g, entry);
  }

  lemma PathUnfold(s: Schema, l: Lineage, entry: Name, elem: Name)
    requires Derives(s, l, entry, elem)
    ensures elem in l.ancestors && entry in l.children
    ensures match FirstChild(l.children[entry], l.ancestors[elem], elem) {
      case None => Path(s, l, entry, elem) == [entry]
      case Some(x) =>
        && Derives(s, l, x, elem)
        && Path(s, l, entry, elem) == [entry] + Path(s, l, x, elem)
        && ReachSet(BaseGraph(s), elem) - ReachSet(BaseGraph(s), x)
           < ReachSet(BaseGraph(s), elem) - ReachSet(BaseGraph(s), entry)
    }
  {
    match FirstChild(l.children[entry], l.ancestors[elem], elem)
    case None =>
    case Some(x) => Descend(s, l, entry, x, elem);
  }

  lemma AncestorReached(s: Schema, n: Name, a: Name)
    requires Closed(BaseGraph(s)) && Inherits(s, n, a)
    ensures Reaches(BaseGraph(s), n, a)
  {
    if a in BaseGraph(s)[n] {
      EdgeReaches(BaseGraph(s), n, a);
    }
  }

  function Last(p: seq<Name>): Name
    requires |p| > 0
  {
    p[|p| - 1]
  }

  /** elem inherits from `base`, but of all classes with the base `base` that elem is or derives from,
      elem's ancestor list has none: they are state tops and no bases of elem.  Says nothing about the
      order of any list. */
  ghost predicate Stuck(s: Schema, base: Name, elem: Name) {
    && Inherits(s, elem, base)
    && forall x :: x in s && base in BaseGraph(s)[x] && (x == elem || Reaches(BaseGraph(s), elem, x))
                   ==> x != elem && IsTop(s, x) && x !in BaseGraph(s)[elem]
  }

  /** Every class of the path is an ancestor of elem, and elem ends up under a direct base unless it
      is stuck at the last one. */
  lemma {:induction false} PathEnd(s: Schema, l: Lineage, entry: Name, elem: Name)
    requires Derives(s, l, entry, elem)
    ensures var p := Path(s, l, entry, elem);
            && (forall k :: 0 <= k < |p| ==> p[k] in s && Inherits(s, elem, p[k]))
            && (forall k :: 0 <= k < |p| - 1 ==> p[k] in BaseGraph(s)[p[k + 1]])
            && (Last(p) in BaseGraph(s)[elem] <==> !Stuck(s, Last(p), elem))
    decreases ReachSet(BaseGraph(s), elem) - ReachSet(BaseGraph(s), entry)
  {
    match FirstChild(l.children[entry], l.ancestors[elem], elem)
    case None =>
      if entry !in BaseGraph(s)[elem] {
        NobodyBetween(s, l, entry, elem);
      }
    case Some(x) =>
      Descend(s, l, entry, x, elem);
      PathEnd(s, l, x, elem);
      var p, q := Path(s, l, entry, elem), Path(s, l, x, elem);
      assert p == [entry] + q;
      assert Last(p) == Last(q);
  }

  lemma NobodyBetween(s: Schema, l: Lineage, entry: Name, elem: Name)
    requires Derives(s, l, entry, elem)
    requires entry !in BaseGraph(s)[elem]
    requires FirstChild(l.children[entry], l.ancestors[elem], elem).None?
    ensures Stuck(s, entry, elem)
  {
    forall x | x in s && entry in BaseGraph(s)[x] && (x == elem || Reaches(BaseGraph(s), elem, x))
      ensures x != elem && IsTop(s, x) && x !in BaseGraph(s)[elem]
    {
      assert x in l.children[entry] && x !in l.ancestors[elem];
    }
  }

  /** Whatever the lists, an element goes no further than a class it is stuck at. */
  lemma StuckStays(s: Schema, l: Lineage, base: Name, elem: Name)
    requires Indexed(s, l) && elem in s && Stuck(s, base, elem)
    ensures Derives(s, l, base, elem) && Path(s, l, base, elem) == [base]
  {
    hide CycleFree, ReachSet, FirstChild, Path;
    AncestorReached(s, elem, base);
    ReachesStaysInside(BaseGraph(s));
    PathUnfold(s, l, base, elem);
    match FirstChild(l.children[base], l.ancestors[elem], elem)
    case None =>
    case Some(x) =>
      assert Inherits(s, elem, x);
      AncestorReached(s, elem, x);
  }

  /** The classes that elem can end up under without deriving from them directly are those it is
      stuck at. */
  lemma StuckExactly(s: Schema, base: Name, elem: Name)
    requires Closed(BaseGraph(s)) && (forall n :: n in s ==> CycleFree(BaseGraph(s), n)) && elem in s
    ensures Stuck(s, base, elem)
            <==> base !in BaseGraph(s)[elem]
                 && exists l, entry :: Derives(s, l, entry, elem) && Last(Path(s, l, entry, elem)) == base
  {
    hide CycleFree, Inherits, Path, Indexed;
    if Stuck(s, base, elem) {
      var l := Indexable(s);
      StuckStays(s, l, base, elem);
    }
    if l, entry :| Derives(s, l, entry, elem) && Last(Path(s, l, entry, elem)) == base {
      PathEnd(s, l, entry, elem);
    }
  }

  /** Every element always ends up under a direct base exactly in the schemas where nothing is stuck. */
  lemma DirectBaseExactly(s: Schema)
    requires Closed(BaseGraph(s)) && forall n :: n in s ==> CycleFree(BaseGraph(s), n)
    ensures (forall l, entry, elem :: Derives(s, l, entry, elem) ==>
                                        Last(Path(s, l, entry, elem)) in BaseGraph(s)[elem])
            <==> (forall base, elem :: elem in s ==> !Stuck(s, base, elem))
  {
    hide CycleFree, BaseGraph, Path, Stuck, Closed;
    if forall base, elem :: elem in s ==> !Stuck(s, base, elem) {
      forall l, entry, elem | Derives(s, l, entry, elem)
        ensures Last(Path(s, l, entry, elem)) in BaseGraph(s)[elem]
      {
        StuckExactly(s, Last(Path(s, l, entry, elem)), elem);
      }
    }
    if base, elem :| elem in s && Stuck(s, base, elem) {
      StuckExactly(s, base, elem);
    }
  }

  /** Where state tops have no bases, every element ends up under a direct base. */
  lemma DirectBase(s: Schema, l: Lineage, entry: Name, elem: Name)
    requires Derives(s, l, entry, elem)
    requires forall x :: IsTop(s, x) ==> BaseGraph(s)[x] == {}
    ensures Last(Path(s, l, entry, elem)) in BaseGraph(s)[elem]
  {
    var f := Last(Path(s, l, entry, elem));
    PathEnd(s, l, entry, elem);
    if Stuck(s, f, elem) {
      AncestorReached(s, elem, f);
      var x := ReachesLastStep(BaseGraph(s), elem, f);
    }
  }

  // ---------------------------------------------------------------- an element that gets stuck

  /** 4 derives from 3, 3 from 2, 2 from 1, 1 from 0; 0 and 2 are state tops. */
  function HiddenTop(): (s: Schema)
    ensures s.Keys == {0, 1, 2, 3, 4}
    ensures forall n :: n in s ==>
              s[n] == ClassDecl([], if n == 0 then [] else [Clause(n - 1, [])], [], n == 0 || n == 2)
  {
    var names: set<Name> := {0, 1, 2, 3, 4};
    map n | n in names :: ClassDecl([], if n == 0 then [] else [Clause(n - 1, [])], [], n == 0 || n == 2)
  }

  lemma HiddenTopEdges()
    ensures BaseGraph(HiddenTop()).Keys == HiddenTop().Keys
    ensures forall n :: n in HiddenTop() ==> BaseGraph(HiddenTop())[n] == if n == 0 then {} else {n - 1}
    ensures Closed(BaseGraph(HiddenTop()))
  {
    hide HiddenTop, BaseGraph;
    var s := HiddenTop();
    forall n | n in s
      ensures BaseGraph(s)[n] == if n == 0 then {} else {n - 1}
    {
      HiddenTopEdge(n);
    }
  }

  lemma HiddenTopEdge(n: Name)
    requires n in HiddenTop()
    ensures BaseGraph(HiddenTop())[n] == if n == 0 then {} else {n - 1}
  {
    hide HiddenTop;
    if n != 0 {
      assert HiddenTop()[n].clauses[0].base == n - 1;
    }
  }

  lemma HiddenTopReaches(n: Name, m: Name)
    requires n in HiddenTop() && m < n
    ensures Reaches(BaseGraph(HiddenTop()), n, m)
    decreases n
  {
    hide HiddenTop, BaseGraph;
    var g := BaseGraph(HiddenTop());
    HiddenTopEdges();
    assert n - 1 in g[n] && n - 1 in g;
    EdgeReaches(g, n, n - 1);
    if m < n - 1 {
      HiddenTopReaches(n - 1, m);
      ReachesTransitive(g, n, n - 1, m);
    }
  }

  lemma HiddenTopInherits()
    ensures var s := HiddenTop();
            && Inherits(s, 4, 1) && !Inherits(s, 4, 2) && 1 !in BaseGraph(s)[4]
            && forall x :: x in s && 1 in BaseGraph(s)[x] ==> x == 2
  {
    hide HiddenTop, BaseGraph, Reaches;
    HiddenTopEdges();
    HiddenTopReaches(4, 1);
  }

  /** 4 is filed under 1, two classes above its base. */
  lemma HiddenTopGetsStuck(l: Lineage)
    requires Indexed(HiddenTop(), l)
    ensures Derives(HiddenTop(), l, 1, 4) && Path(HiddenTop(), l, 1, 4) == [1]
    ensures 1 !in BaseGraph(HiddenTop())[4]
  {
    hide HiddenTop, BaseGraph, CycleFree, FirstChild, Reaches, ReachSet, Inherits, Closed, Path;
    HiddenTopInherits();
    PathUnfold(HiddenTop(), l, 1, 4);
  }

  /** Every schema without base cycles can be indexed. */
  lemma Indexable(s: Schema) returns (l: Lineage)
    requires Closed(BaseGraph(s)) && forall n :: n in s ==> CycleFree(BaseGraph(s), n)
    ensures Indexed(s, l) && l.children.Keys == s.Keys
  {
    hide BaseGraph, CycleFree, Listed, Inherits, Closed;
    l := Lineage(map n | n in s :: Listed(set a | a in s && Inherits(s, n, a)),
                 map b | b in s :: Listed(set n | n in s && b in BaseGraph(s)[n]));
    assert l.ancestors.Keys == s.Keys && l.children.Keys == s.Keys;
    assert forall n, a :: n in s && a in s ==> (a in l.ancestors[n] <==> Inherits(s, n, a));
    assert forall b, n :: b in s ==> (n in l.children[b] <==> n in s && b in BaseGraph(s)[n]);
  }

  ghost function Listed(xs: set<Name>): (r: seq<Name>)
    ensures forall x :: x in r <==> x in xs
  {
    if xs == {} then [] else var x :| x in xs; [x] + Listed(xs - {x})
  }

  lemma HiddenTopIndexable() returns (l: Lineage)
    ensures Indexed(HiddenTop(), l)
  {
    hide HiddenTop, BaseGraph, Indexed, CycleFree;
    var s := HiddenTop();
    HiddenTopEdges();
    var g := BaseGraph(s);
    forall n | n in s
      ensures CycleFree(g, n)
    {
      DescendingIsCycleFree(g, n);
    }
    l := Indexable(s);
  }
}
