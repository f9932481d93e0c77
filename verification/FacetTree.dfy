/** The facet tree of a query: the descendants of a class, grouped by the classes they derive from. */
module FacetTree {
  import opened Digraph
  import opened Options
  import opened ClassSchema
  import opened FacetPath

  // ---------------------------------------------------------------- the tree as a value

  datatype Tree = Tree(base: Name, elems: seq<Name>, numElems: nat, children: seq<Tree>)

  /** The first tree with the given base, or |ts|. */
  function Find(ts: seq<Tree>, base: Name): (i: nat)
    ensures i <= |ts|
    ensures i < |ts| ==> ts[i].base == base
    ensures forall j :: 0 <= j < i ==> ts[j].base != base
  {
    if ts == [] || ts[0].base == base then 0 else 1 + Find(ts[1..], base)
  }

  /** The children of t with one for `base` among them, at the index returned. */
  function WithChild(ts: seq<Tree>, base: Name): (r: (seq<Tree>, nat))
    ensures r.1 < |r.0| && r.0[r.1].base == base
  {
    var i := Find(ts, base);
    if i < |ts| then (ts, i) else ([Tree(base, [], 0, [])] + ts, 0)
  }

  /** Insert elem under the chain of facets `path`, counting it in each. */
  function Insert(t: Tree, path: seq<Name>, elem: Name): (r: Tree)
    requires |path| > 0
    ensures r == t.(children := r.children)
    decreases |path|, 1
  {
    var (kids, i) := WithChild(t.children, path[0]);
    t.(children := kids[i := Counted(kids[i], path[1..], elem)])
  }

  function Counted(f: Tree, rest: seq<Name>, elem: Name): (r: Tree)
    ensures r.base == f.base && r.numElems == f.numElems + 1
    decreases |rest| + 1, 0
  {
    var f' := f.(numElems := f.numElems + 1);
    if rest == [] then f'.(elems := [elem] + f.elems) else Insert(f', rest, elem)
  }

  /** How often elem x is filed under a facet of base b. */
  ghost function Occurs(t: Tree, b: Name, x: Name): nat {
    (if t.base == b then multiset(t.elems)[x] else 0) + OccursAmong(t.children, b, x)
  }

  ghost function OccursAmong(ts: seq<Tree>, b: Name, x: Name): nat {
    if ts == [] then 0 else Occurs(ts[0], b, x) + OccursAmong(ts[1..], b, x)
  }

  /** Siblings have distinct bases, and each facet below t counts its own elements and those counted
      by its children. */
  ghost predicate WellCounted(t: Tree) {
    && (forall i, j :: 0 <= i < j < |t.children| ==> t.children[i].base != t.children[j].base)
    && (forall i :: 0 <= i < |t.children| ==>
          && WellCounted(t.children[i])
          && t.children[i].numElems == |t.children[i].elems| + CountAll(t.children[i].children))
  }

  function CountAll(ts: seq<Tree>): nat {
    if ts == [] then 0 else ts[0].numElems + CountAll(ts[1..])
  }

  lemma {:induction false} Replaced(ts: seq<Tree>, i: nat, f: Tree, b: Name, x: Name)
    requires i < |ts|
    ensures OccursAmong(ts[i := f], b, x) + Occurs(ts[i], b, x) == OccursAmong(ts, b, x) + Occurs(f, b, x)
    ensures CountAll(ts[i := f]) + ts[i].numElems == CountAll(ts) + f.numElems
  {
    hide Occurs;
    if i == 0 {
      assert ts[i := f][1..] == ts[1..];
    } else {
      Replaced(ts[1..], i - 1, f, b, x);
      assert ts[i := f][1..] == ts[1..][i - 1 := f];
    }
  }

  lemma ChildAdded(ts: seq<Tree>, base: Name, b: Name, x: Name)
    ensures OccursAmong(WithChild(ts, base).0, b, x) == OccursAmong(ts, b, x)
    ensures CountAll(WithChild(ts, base).0) == CountAll(ts)
  {
    if Find(ts, base) == |ts| {
      var f := Tree(base, [], 0, []);
      assert ([f] + ts)[1..] == ts;
      assert OccursAmong(f.children, b, x) == 0;
      assert Occurs(f, b, x) == 0;
    }
  }

  /** One insertion files the element once, under the last facet of its path, and nothing else. */
  lemma {:induction false} InsertFiles(t: Tree, path: seq<Name>, elem: Name, b: Name, x: Name)
    requires |path| > 0
    ensures Occurs(Insert(t, path, elem), b, x)
            == Occurs(t, b, x) + if b == Last(path) && x == elem then 1 else 0
    decreases |path|, 1
  {
    var (kids, i) := WithChild(t.children, path[0]);
    ChildAdded(t.children, path[0], b, x);
    CountedFiles(kids[i], path[1..], elem, b, x);
    Replaced(kids, i, Counted(kids[i], path[1..], elem), b, x);
  }

  lemma CountedFiles(f: Tree, rest: seq<Name>, elem: Name, b: Name, x: Name)
    ensures Occurs(Counted(f, rest, elem), b, x)
            == Occurs(f, b, x) + if b == Last([f.base] + rest) && x == elem then 1 else 0
    decreases |rest| + 1, 0
  {
    var f' := f.(numElems := f.numElems + 1);
    if rest != [] {
      InsertFiles(f', rest, elem, b, x);
    }
  }

  /** An insertion leaves the sum over the children one higher than before. */
  lemma InsertCounts(t: Tree, path: seq<Name>, elem: Name)
    requires |path| > 0
    ensures CountAll(Insert(t, path, elem).children) == CountAll(t.children) + 1
  {
    var (kids, i) := WithChild(t.children, path[0]);
    ChildAdded(t.children, path[0], 0, 0);
    Replaced(kids, i, Counted(kids[i], path[1..], elem), 0, 0);
  }

  ghost predicate CountOk(f: Tree) {
    WellCounted(f) && f.numElems == |f.elems| + CountAll(f.children)
  }

  lemma {:induction false} InsertKeepsCounts(t: Tree, path: seq<Name>, elem: Name)
    requires |path| > 0 && WellCounted(t)
    ensures WellCounted(Insert(t, path, elem))
    decreases |path|, 1
  {
    hide Counted, CountAll;
    var (kids, i) := WithChild(t.children, path[0]);
    assert forall j :: 0 <= j < |kids| ==> CountOk(kids[j]) by {
      FreshCounts(path[0]);
    }
    CountedKeepsCounts(kids[i], path[1..], elem);
  }

  lemma FreshCounts(base: Name)
    ensures CountOk(Tree(base, [], 0, []))
  {
  }

  lemma CountedKeepsCounts(f: Tree, rest: seq<Name>, elem: Name)
    requires CountOk(f)
    ensures CountOk(Counted(f, rest, elem))
    decreases |rest| + 1, 0
  {
    var g := f.(numElems := f.numElems + 1);
    assert WellCounted(g);
    if rest != [] {
      InsertKeepsCounts(g, rest, elem);
      InsertCounts(g, rest, elem);
    }
  }

  // ---------------------------------------------------------------- the tree in memory

  class Facet {
    const base: Name
    var elems: seq<Name>
    var numElems: nat
    var children: seq<Facet>
    ghost var tree: Tree
    ghost var Repr: set<Facet>

    ghost predicate Valid()
      reads this, Repr
      decreases Repr
    {
      && this in Repr
      && tree.base == base && tree.elems == elems && tree.numElems == numElems
      && |tree.children| == |children|
      && (forall i :: 0 <= i < |children| ==>
            children[i] in Repr && children[i].Repr < Repr && this !in children[i].Repr)
      && (forall i, j :: 0 <= i < j < |children| ==> children[i].Repr !! children[j].Repr)
      && (forall i :: 0 <= i < |children| ==> children[i].Valid() && children[i].tree == tree.children[i])
    }

    constructor (base: Name)
      ensures Valid() && fresh(Repr) && tree == Tree(base, [], 0, [])
    {
      this.base := base;
      elems, numElems, children := [], 0, [];
      tree := Tree(base, [], 0, []);
      Repr := {this};
    }

    /** The child for `entry`, made first in the list if there is none. */
    method FetchChild(entry: Name) returns (i: nat)
      requires Valid()
      modifies this
      ensures Valid() && fresh(Repr - old(Repr)) && old(Repr) <= Repr
      ensures i == WithChild(old(tree).children, entry).1 && i < |children|
      ensures tree == old(tree).(children := WithChild(old(tree).children, entry).0)
    {
      hide WithChild, Find;
      i := 0;
      while i < |children| && children[i].base != entry
        invariant 0 <= i <= |children|
        invariant forall j :: 0 <= j < i ==> tree.children[j].base != entry
      {
        i := i + 1;
      }
      WithChildIs(tree.children, entry, i);
      if i == |children| {
        var f := new Facet(entry);
        children := [f] + children;
        i := 0;
        tree := tree.(children := [f.tree] + tree.children);
        Repr := Repr + f.Repr;
      }
    }

    /** Find or make the facet of `entry` below this one and count elem in it. */
    method UpdateSubset(ghost s: Schema, l: Lineage, entry: Name, elem: Name)
      requires Valid()
      requires Derives(s, l, entry, elem)
      modifies Repr
      ensures Valid() && fresh(Repr - old(Repr))
      ensures tree == Insert(old(tree), Path(s, l, entry, elem), elem)
      decreases ReachSet(BaseGraph(s), elem) - ReachSet(BaseGraph(s), entry), 1
    {
      hide Derives, BaseGraph, ReachSet, Path, WithChild, Counted, Find, Valid;
      OwnRepr();
      var i := FetchChild(entry);
      ChildValid(i);
      label fetched:
      children[i].Take(s, l, elem);
      tree := tree.(children := tree.children[i := children[i].tree]);
      Repr := Repr + children[i].Repr;
      ChildChanged@fetched(i);
    }

    lemma ChildValid(i: nat)
      requires Valid() && i < |children|
      ensures |tree.children| == |children| && tree.children[i] == children[i].tree
      ensures tree.children[i].base == children[i].base
      ensures children[i].Valid() && children[i] in Repr && children[i].Repr < Repr && this !in children[i].Repr
    {
    }

    lemma OwnRepr()
      requires Valid()
      ensures this in Repr
    {
    }

    /** The facets under one child changed, and nothing else. */
    twostate lemma ChildChanged(i: nat)
      requires old(Valid()) && i < old(|children|)
      requires children == old(children) && elems == old(elems) && numElems == old(numElems)
      requires children[i].Valid() && fresh(children[i].Repr - old(children[i].Repr))
      requires tree == old(tree).(children := old(tree).children[i := children[i].tree])
      requires Repr == old(Repr) + children[i].Repr
      requires forall o :: o in old(Repr) && o !in old(children[i].Repr) && o != this ==> unchanged(o)
      ensures Valid()
    {
      forall j | 0 <= j < |children| && j != i
        ensures children[j].Valid() && children[j].Repr == old(children[j].Repr)
                && children[j].tree == old(children[j].tree)
      {
      }
    }

    /** Count elem in this facet and descend with it, or keep it. */
    method Take(ghost s: Schema, l: Lineage, elem: Name)
      requires Valid()
      requires Derives(s, l, base, elem)
      modifies Repr
      ensures Valid() && fresh(Repr - old(Repr))
      ensures tree == Counted(old(tree), Path(s, l, base, elem)[1..], elem)
      decreases ReachSet(BaseGraph(s), elem) - ReachSet(BaseGraph(s), base), 0
    {
      hide Derives, BaseGraph, ReachSet, Insert;
      PathUnfold(s, l, base, elem);
      numElems := numElems + 1;
      tree := tree.(numElems := numElems);
      var child := FindChild(l.children[base], l.ancestors[elem], elem);
      match child {
        case Some(x) =>
          UpdateSubset(s, l, x, elem);
        case None =>
          elems := [elem] + elems;
          tree := tree.(elems := elems);
      }
    }
  }

  method FindChild(kids: seq<Name>, ancestors: seq<Name>, elem: Name) returns (r: Option<Name>)
    ensures r == FirstChild(kids, ancestors, elem)
  {
    var i := 0;
    while i < |kids|
      invariant 0 <= i <= |kids|
      invariant FirstChild(kids, ancestors, elem) == FirstChild(kids[i..], ancestors, elem)
    {
      if kids[i] == elem {
        return None;
      }
      var j := 0;
      while j < |ancestors|
        invariant 0 <= j <= |ancestors|
        invariant kids[i] !in ancestors[..j]
      {
        if kids[i] == ancestors[j] {
          return Some(kids[i]);
        }
        j := j + 1;
      }
      assert ancestors[..j] == ancestors;
      i := i + 1;
    }
    r := None;
  }

  lemma WithChildIs(ts: seq<Tree>, base: Name, i: nat)
    requires i <= |ts| && (forall j :: 0 <= j < i ==> ts[j].base != base)
    requires i < |ts| ==> ts[i].base == base
    ensures WithChild(ts, base) == if i < |ts| then (ts, i) else ([Tree(base, [], 0, [])] + ts, 0)
  {
    assert i == Find(ts, base);
  }

  // ---------------------------------------------------------------- the tree of a query

  /** Where to start with elem: its first ancestor that is a child of the base. */
  function EntryOf(ancestors: seq<Name>, kids: seq<Name>): (r: Option<Name>)
    ensures r.Some? ==> r.value in ancestors && r.value in kids
    ensures r.None? ==> forall a :: a in ancestors ==> a !in kids
  {
    if ancestors == [] then None
    else if ancestors[0] in kids then Some(ancestors[0])
    else EntryOf(ancestors[1..], kids)
  }

  /** The first ancestor in the list that is among the children is the one. */
  lemma {:induction false} EntryFirst(ancestors: seq<Name>, kids: seq<Name>, i: nat)
    requires i <= |ancestors| && forall j :: 0 <= j < i ==> ancestors[j] !in kids
    requires i < |ancestors| ==> ancestors[i] in kids
    ensures EntryOf(ancestors, kids) == if i == |ancestors| then None else Some(ancestors[i])
  {
    if i > 0 {
      EntryFirst(ancestors[1..], kids, i - 1);
    }
  }

  ghost predicate QueryOk(s: Schema, l: Lineage, base: Name, elems: seq<Name>) {
    && Indexed(s, l) && l.ancestors.Keys == s.Keys
    && base in l.children && (forall c :: c in l.children[base] ==> c in s)
    && forall x :: x in elems ==> x in s
  }

  ghost function Facetized(s: Schema, l: Lineage, base: Name, t: Tree, elem: Name): Tree
    requires QueryOk(s, l, base, [elem])
  {
    match EntryOf(l.ancestors[elem], l.children[base])
    case None => t
    case Some(entry) => Insert(t, Path(s, l, entry, elem), elem)
  }

  ghost function Subsets(s: Schema, l: Lineage, base: Name, elems: seq<Name>): Tree
    requires QueryOk(s, l, base, elems)
  {
    if elems == [] then Tree(base, [], 0, [])
    else Facetized(s, l, base, Subsets(s, l, base, elems[..|elems| - 1]), elems[|elems| - 1])
  }

  method FindEntry(ancestors: seq<Name>, kids: seq<Name>) returns (r: Option<Name>)
    ensures r == EntryOf(ancestors, kids)
  {
    var i := 0;
    while i < |ancestors|
      invariant 0 <= i <= |ancestors|
      invariant EntryOf(ancestors, kids) == EntryOf(ancestors[i..], kids)
    {
      var j := 0;
      while j < |kids|
        invariant 0 <= j <= |kids|
        invariant ancestors[i] !in kids[..j]
      {
        if kids[j] == ancestors[i] {
          return Some(ancestors[i]);
        }
        j := j + 1;
      }
      assert kids[..j] == kids;
      i := i + 1;
    }
    r := None;
  }

  method FacetizeClass(root: Facet, ghost s: Schema, l: Lineage, base: Name, elem: Name)
    requires root.Valid() && QueryOk(s, l, base, [elem])
    modifies root.Repr
    ensures root.Valid() && fresh(root.Repr - old(root.Repr))
    ensures root.tree == Facetized(s, l, base, old(root.tree), elem)
  {
    hide BaseGraph, ReachSet, Insert, Path;
    var entry := FindEntry(l.ancestors[elem], l.children[base]);
    if entry.Some? {
      ChildDerives(s, l, base, entry.value, elem);
      root.UpdateSubset(s, l, entry.value, elem);
    }
  }

  lemma ChildDerives(s: Schema, l: Lineage, base: Name, entry: Name, elem: Name)
    requires QueryOk(s, l, base, [elem]) && entry in l.children[base] && entry in l.ancestors[elem]
    ensures Derives(s, l, entry, elem)
  {
  }

  method CreateSubsets(ghost s: Schema, l: Lineage, base: Name, elems: seq<Name>) returns (root: Facet)
    requires QueryOk(s, l, base, elems)
    ensures root.Valid() && fresh(root.Repr)
    ensures root.tree == Subsets(s, l, base, elems)
  {
    hide Indexed, Facetized;
    root := new Facet(base);
    var i := 0;
    while i < |elems|
      invariant 0 <= i <= |elems|
      invariant root.Valid() && fresh(root.Repr)
      invariant root.tree == Subsets(s, l, base, elems[..i])
    {
      assert elems[..i + 1][..i] == elems[..i];
      FacetizeClass(root, s, l, base, elems[i]);
      i := i + 1;
    }
    assert elems[..i] == elems;
  }

  /** elem belongs in the tree: a child of the base is among its ancestors. */
  ghost predicate Belongs(s: Schema, l: Lineage, base: Name, elem: Name)
    requires base in l.children
  {
    exists c :: c in l.children[base] && Inherits(s, elem, c)
  }

  lemma EntryIffBelongs(s: Schema, l: Lineage, base: Name, elem: Name)
    requires QueryOk(s, l, base, [elem])
    ensures EntryOf(l.ancestors[elem], l.children[base]).Some? <==> Belongs(s, l, base, elem)
  {
    if c :| c in l.children[base] && Inherits(s, elem, c) {
      assert c in s && c in l.ancestors[elem];
    }
  }

  /** The facet an element ends up under. */
  ghost function Home(s: Schema, l: Lineage, base: Name, elem: Name): (b: Name)
    requires QueryOk(s, l, base, [elem]) && Belongs(s, l, base, elem)
  {
    EntryIffBelongs(s, l, base, elem);
    var entry := EntryOf(l.ancestors[elem], l.children[base]).value;
    ChildDerives(s, l, base, entry, elem);
    Last(Path(s, l, entry, elem))
  }

  lemma {:induction false} SubsetsFile(s: Schema, l: Lineage, base: Name, elems: seq<Name>, b: Name, x: Name)
    requires QueryOk(s, l, base, elems) && QueryOk(s, l, base, [x])
    requires forall i, j :: 0 <= i < j < |elems| ==> elems[i] != elems[j]
    ensures Occurs(Subsets(s, l, base, elems), b, x)
            == if x in elems && Belongs(s, l, base, x) && b == Home(s, l, base, x) then 1 else 0
    decreases |elems|
  {
    hide Indexed, Belongs, Path, Insert;
    if elems == [] {
      assert OccursAmong([], b, x) == 0;
    } else {
      var n := |elems| - 1;
      SubsetsFile(s, l, base, elems[..n], b, x);
      EntryIffBelongs(s, l, base, elems[n]);
      var t, entry := Subsets(s, l, base, elems[..n]), EntryOf(l.ancestors[elems[n]], l.children[base]);
      if entry.Some? {
        ChildDerives(s, l, base, entry.value, elems[n]);
        InsertFiles(t, Path(s, l, entry.value, elems[n]), elems[n], b, x);
      }
      assert x in elems <==> x in elems[..n] || x == elems[n];
    }
  }

  lemma {:induction false} SubsetsCounted(s: Schema, l: Lineage, base: Name, elems: seq<Name>)
    requires QueryOk(s, l, base, elems)
    ensures WellCounted(Subsets(s, l, base, elems))
    decreases |elems|
  {
    hide Indexed, Insert, WellCounted;
    if elems == [] {
      EmptyCounted(base);
    } else {
      var n := |elems| - 1;
      SubsetsCounted(s, l, base, elems[..n]);
      var t, entry := Subsets(s, l, base, elems[..n]), EntryOf(l.ancestors[elems[n]], l.children[base]);
      if entry.Some? {
        ChildDerives(s, l, base, entry.value, elems[n]);
        InsertKeepsCounts(t, Path(s, l, entry.value, elems[n]), elems[n]);
      }
    }
  }

  lemma EmptyCounted(base: Name)
    ensures WellCounted(Tree(base, [], 0, []))
  {
  }

  /** Whatever the order of the elements: each that has a child of the base among its ancestors occurs
      once, under its home, a class it inherits from, and the others nowhere.  The home is a direct
      base unless the element is stuck there.  Siblings differ, and the counts add up. */
  lemma FacetTreeHolds(s: Schema, l: Lineage, base: Name, elems: seq<Name>, x: Name)
    requires QueryOk(s, l, base, elems) && x in elems
    requires forall i, j :: 0 <= i < j < |elems| ==> elems[i] != elems[j]
    ensures var t := Subsets(s, l, base, elems);
            && WellCounted(t)
            && (!Belongs(s, l, base, x) ==> forall b :: Occurs(t, b, x) == 0)
            && (Belongs(s, l, base, x) ==>
                  var h := Home(s, l, base, x);
                  && Inherits(s, x, h)
                  && (h in BaseGraph(s)[x] <==> !Stuck(s, h, x))
                  && forall b :: Occurs(t, b, x) == if b == h then 1 else 0)
  {
    hide Indexed, Inherits, BaseGraph, Path, Stuck, Occurs, WellCounted, Home;
    var t := Subsets(s, l, base, elems);
    SubsetsCounted(s, l, base, elems);
    forall b
      ensures Occurs(t, b, x) == if Belongs(s, l, base, x) && b == Home(s, l, base, x) then 1 else 0
    {
      SubsetsFile(s, l, base, elems, b, x);
    }
    if Belongs(s, l, base, x) {
      HomeEnds(s, l, base, x);
    }
  }

  lemma HomeEnds(s: Schema, l: Lineage, base: Name, x: Name)
    requires QueryOk(s, l, base, [x]) && Belongs(s, l, base, x)
    ensures x in s && Inherits(s, x, Home(s, l, base, x))
    ensures Home(s, l, base, x) in BaseGraph(s)[x] <==> !Stuck(s, Home(s, l, base, x), x)
  {
    hide Indexed, Inherits, BaseGraph, Path, Stuck;
    EntryIffBelongs(s, l, base, x);
    var entry := EntryOf(l.ancestors[x], l.children[base]).value;
    ChildDerives(s, l, base, entry, x);
    PathEnd(s, l, entry, x);
  }

  /** All classes loaded; what x derives from is listed with a in front, and the root has the classes
      without bases as its children. */
  lemma LineageWithFirst(s: Schema, root: Name, x: Name, a: Name) returns (l: Lineage)
    requires Closed(BaseGraph(s)) && (forall n :: n in s ==> CycleFree(BaseGraph(s), n))
    requires root !in s && x in s && Inherits(s, x, a)
    ensures Indexed(s, l) && l.ancestors[x] != [] && l.ancestors[x][0] == a
    ensures l.children.Keys == s.Keys + {root}
    ensures forall c :: c in l.children[root] <==> c in s && BaseGraph(s)[c] == {}
  {
    hide BaseGraph, CycleFree, Inherits, Listed, Closed, Indexed;
    l := Indexable(s);
    ListedFirst(s, l, x, a);
    assert l.children.Keys == s.Keys;
    l := l.(ancestors := l.ancestors[x := [a] + l.ancestors[x]]);
    var kids := Listed(set c | c in s && BaseGraph(s)[c] == {});
    RootAdded(s, l, root, kids);
    l := l.(children := l.children[root := kids]);
  }

  lemma ListedFirst(s: Schema, l: Lineage, x: Name, a: Name)
    requires Indexed(s, l) && x in s && Inherits(s, x, a)
    ensures x in l.ancestors
    ensures Indexed(s, l.(ancestors := l.ancestors[x := [a] + l.ancestors[x]]))
  {
    hide BaseGraph, CycleFree, Inherits, Closed;
  }

  lemma RootAdded(s: Schema, l: Lineage, root: Name, kids: seq<Name>)
    requires Indexed(s, l) && root !in s
    ensures Indexed(s, l.(children := l.children[root := kids]))
  {
    hide BaseGraph, CycleFree, Inherits, Closed;
  }

  /** An element that is stuck under h is filed there by some query. */
  lemma StuckIsHome(s: Schema, h: Name, x: Name) returns (l: Lineage, base: Name)
    requires Closed(BaseGraph(s)) && (forall n :: n in s ==> CycleFree(BaseGraph(s), n))
    requires x in s && Stuck(s, h, x)
    ensures QueryOk(s, l, base, [x]) && Belongs(s, l, base, x) && Home(s, l, base, x) == h
  {
    hide CycleFree, Path, ReachSet, BaseGraph, Inherits;
    var root := Above(s.Keys);
    l := LineageWithFirst(s, root, x, h);
    StuckStays(s, l, h, x);
    base := root;
    if b :| b in BaseGraph(s)[h] {
      base := b;
    }
    assert h in l.children[base] && EntryOf(l.ancestors[x], l.children[base]) == Some(h);
  }

  /** Every query files every element under a direct base exactly where nothing is stuck. */
  lemma FiledDirectlyExactly(s: Schema)
    requires Closed(BaseGraph(s)) && forall n :: n in s ==> CycleFree(BaseGraph(s), n)
    ensures (forall l, base, x :: QueryOk(s, l, base, [x]) && Belongs(s, l, base, x) ==>
                                    Home(s, l, base, x) in BaseGraph(s)[x])
            <==> (forall h, x :: x in s ==> !Stuck(s, h, x))
  {
    hide CycleFree, BaseGraph, Stuck, Closed, Home, Indexed;
    forall l, base, x | QueryOk(s, l, base, [x]) && Belongs(s, l, base, x)
      ensures Home(s, l, base, x) in BaseGraph(s)[x] <==> !Stuck(s, Home(s, l, base, x), x)
    {
      HomeEnds(s, l, base, x);
    }
    if h, x :| x in s && Stuck(s, h, x) {
      var l, base := StuckIsHome(s, h, x);
    }
  }
}
