/** Where in the facet tree everything is: each facet by the chain of classes that leads to it. */
module FacetShape {
  import opened Digraph
  import opened Options
  import opened ClassSchema
  import opened FacetPath
  import opened FacetTree

  /** What there is at one place: the classes of the facets right below, the elements filed there, and
      the count. */
  datatype Place = Place(kids: seq<Name>, elems: seq<Name>, num: nat)

  const NOTHING := Place([], [], 0)

  function Kids(ts: seq<Tree>): (r: seq<Name>)
    ensures |r| == |ts| && forall i :: 0 <= i < |r| ==> r[i] == ts[i].base
  {
    seq(|ts|, i requires 0 <= i < |ts| => ts[i].base)
  }

  /** What there is at the end of the chain q of classes, from t down. */
  ghost function At(t: Tree, q: seq<Name>): Place
    decreases |q|
  {
    if q == [] then Place(Kids(t.children), t.elems, t.numElems)
    else
      var i := Find(t.children, q[0]);
      if i == |t.children| then NOTHING else At(t.children[i], q[1..])
  }

  /** A new facet goes in front of the list. */
  function WithKid(kids: seq<Name>, x: Name): seq<Name> {
    if x in kids then kids else [x] + kids
  }

  /** What an element that takes `path` changes on a place at q: nothing off its path; on it the count, and
      the next facet or, at the end, the element itself. */
  ghost function Passed(v: Place, path: seq<Name>, q: seq<Name>, elem: Name): Place {
    if !(q <= path) then v
    else if q == path then Place(v.kids, [elem] + v.elems, v.num + 1)
    else Place(WithKid(v.kids, path[|q|]), v.elems, v.num + 1)
  }

  /** The top of the tree does not count. */
  ghost function PassedTop(v: Place, path: seq<Name>): Place
    requires path != []
  {
    v.(kids := WithKid(v.kids, path[0]))
  }

  lemma {:induction false} InsertAt(t: Tree, path: seq<Name>, elem: Name, q: seq<Name>)
    requires path != []
    ensures At(Insert(t, path, elem), q)
            == if q == [] then PassedTop(At(t, q), path) else Passed(At(t, q), path, q, elem)
    decreases |path|, 1
  {
    var (kids, i) := WithChild(t.children, path[0]);
    var f := Counted(kids[i], path[1..], elem);
    WithChildKids(t.children, path[0]);
    if q == [] {
      assert Kids(kids[i := f]) == Kids(kids);
    } else {
      BelowAfter(t, path[0], f, q);
      if q[0] == path[0] {
        CountedAt(kids[i], path[1..], elem, q[1..]);
        assert q <= path <==> q[1..] <= path[1..];
        assert q == path <==> q[1..] == path[1..];
      }
    }
  }

  lemma CountedAt(f: Tree, rest: seq<Name>, elem: Name, q: seq<Name>)
    ensures At(Counted(f, rest, elem), q) == Passed(At(f, q), rest, q, elem)
    decreases |rest| + 1, 0
  {
    var f' := f.(numElems := f.numElems + 1);
    assert q != [] ==> At(f', q) == At(f, q);
    if rest != [] {
      InsertAt(f', rest, elem, q);
    } else if q != [] {
      assert At(f'.(elems := [elem] + f.elems), q) == At(f, q);
    }
  }

  lemma WithChildKids(ts: seq<Tree>, x: Name)
    ensures Kids(WithChild(ts, x).0) == WithKid(Kids(ts), x)
  {
    var i := Find(ts, x);
    if i < |ts| {
      assert Kids(ts)[i] == x;
    } else {
      assert Kids([Tree(x, [], 0, [])] + ts) == [x] + Kids(ts);
    }
  }

  /** The facet of x in t is replaced: chains that begin with another class lead where they did. */
  lemma BelowAfter(t: Tree, x: Name, f: Tree, q: seq<Name>)
    requires q != [] && f.base == x
    ensures var (kids, i) := WithChild(t.children, x);
            At(t.(children := kids[i := f]), q) == if q[0] == x then At(f, q[1..]) else At(t, q)
    ensures var (kids, i) := WithChild(t.children, x);
            q[0] == x ==> At(t, q) == At(kids[i], q[1..])
  {
    var (kids, i) := WithChild(t.children, x);
    var kids' := kids[i := f];
    FirstWith(kids', x, i);
    if q[0] == x {
      if Find(t.children, x) == |t.children| {
        EmptyAt(x, q[1..]);
      }
    } else {
      ElsewhereFound(t.children, x, f, q[0]);
    }
  }

  lemma FirstWith(ts: seq<Tree>, x: Name, i: nat)
    requires i <= |ts| && (i < |ts| ==> ts[i].base == x) && forall j :: 0 <= j < i ==> ts[j].base != x
    ensures Find(ts, x) == i
  {
  }

  lemma EmptyAt(x: Name, q: seq<Name>)
    ensures At(Tree(x, [], 0, []), q) == NOTHING
  {
    assert Kids([]) == [];
  }

  lemma ElsewhereFound(ts: seq<Tree>, x: Name, f: Tree, y: Name)
    requires y != x && f.base == x
    ensures var (kids, i) := WithChild(ts, x);
            var kids', a, b := kids[i := f], Find(kids[i := f], y), Find(ts, y);
            (a < |kids'| <==> b < |ts|) && (b < |ts| ==> a < |kids'| && kids'[a] == ts[b])
  {
    var (kids, i) := WithChild(ts, x);
    var kids', b := kids[i := f], Find(ts, y);
    var shift := |kids'| - |ts|;
    forall j | 0 <= j < b + shift
      ensures kids'[j].base != y
    {
      if j >= shift {
        assert kids'[j].base == ts[j - shift].base;
      }
    }
    FirstWith(kids', y, b + shift);
  }

  // ---------------------------------------------------------------- the tree of a query

  /** The chain of classes an element belongs under. */
  ghost function PathOf(s: Schema, l: Lineage, base: Name, elem: Name): (p: seq<Name>)
    requires QueryOk(s, l, base, [elem]) && Belongs(s, l, base, elem)
    ensures p != []
  {
    EntryIffBelongs(s, l, base, elem);
    var entry := EntryOf(l.ancestors[elem], l.children[base]).value;
    ChildDerives(s, l, base, entry, elem);
    Path(s, l, entry, elem)
  }

  /** The elements whose path goes through q or ends there, the last one first. */
  ghost function Passing(s: Schema, l: Lineage, base: Name, elems: seq<Name>, q: seq<Name>): seq<Name>
    requires QueryOk(s, l, base, elems)
  {
    if elems == [] then []
    else
      var n := |elems| - 1;
      (if Belongs(s, l, base, elems[n]) && q <= PathOf(s, l, base, elems[n]) then [elems[n]] else [])
      + Passing(s, l, base, elems[..n], q)
  }

  /** Those whose path ends there. */
  ghost function Ending(s: Schema, l: Lineage, base: Name, elems: seq<Name>, q: seq<Name>): seq<Name>
    requires QueryOk(s, l, base, elems)
  {
    if elems == [] then []
    else
      var n := |elems| - 1;
      (if Belongs(s, l, base, elems[n]) && q == PathOf(s, l, base, elems[n]) then [elems[n]] else [])
      + Ending(s, l, base, elems[..n], q)
  }

  /** The classes that come next on paths through q, the last one to come up first. */
  ghost function Following(s: Schema, l: Lineage, base: Name, elems: seq<Name>, q: seq<Name>): seq<Name>
    requires QueryOk(s, l, base, elems)
  {
    if elems == [] then []
    else
      var n := |elems| - 1;
      var before := Following(s, l, base, elems[..n], q);
      if Belongs(s, l, base, elems[n]) && q < PathOf(s, l, base, elems[n])
      then WithKid(before, PathOf(s, l, base, elems[n])[|q|]) else before
  }

  /** The whole tree, place by place: at q lie the elements whose path is q, counted are those whose path
      goes through q, and the facets below are those the paths go on to.  The top counts nothing. */
  lemma {:induction false} SubsetsAt(s: Schema, l: Lineage, base: Name, elems: seq<Name>, q: seq<Name>)
    requires QueryOk(s, l, base, elems)
    ensures At(Subsets(s, l, base, elems), q)
            == Place(Following(s, l, base, elems, q), Ending(s, l, base, elems, q),
                     if q == [] then 0 else |Passing(s, l, base, elems, q)|)
    decreases |elems|
  {
    hide Indexed, Belongs, Path, Insert;
    if elems == [] {
      EmptyAt(base, q);
    } else {
      var n := |elems| - 1;
      var x := elems[n];
      SubsetsAt(s, l, base, elems[..n], q);
      EntryIffBelongs(s, l, base, x);
      var t, entry := Subsets(s, l, base, elems[..n]), EntryOf(l.ancestors[x], l.children[base]);
      if entry.Some? {
        ChildDerives(s, l, base, entry.value, x);
        InsertAt(t, Path(s, l, entry.value, x), x, q);
      }
    }
  }

  lemma {:induction false} PassingIs(s: Schema, l: Lineage, base: Name, elems: seq<Name>, q: seq<Name>, x: Name)
    requires QueryOk(s, l, base, elems)
    ensures x in Passing(s, l, base, elems, q)
            <==> x in elems && Belongs(s, l, base, x) && q <= PathOf(s, l, base, x)
    ensures x in Ending(s, l, base, elems, q)
            <==> x in elems && Belongs(s, l, base, x) && q == PathOf(s, l, base, x)
    decreases |elems|
  {
    hide Indexed, Belongs, PathOf;
    if elems != [] {
      var n := |elems| - 1;
      PassingIs(s, l, base, elems[..n], q, x);
      assert x in elems <==> x in elems[..n] || x == elems[n];
    }
  }

  lemma {:induction false} FollowingIs(s: Schema, l: Lineage, base: Name, elems: seq<Name>, q: seq<Name>, y: Name)
    requires QueryOk(s, l, base, elems)
    ensures y in Following(s, l, base, elems, q)
            <==> exists x :: x in elems && Belongs(s, l, base, x) && q + [y] <= PathOf(s, l, base, x)
    decreases |elems|
  {
    hide Indexed, Belongs, PathOf;
    if elems != [] {
      var n := |elems| - 1;
      FollowingIs(s, l, base, elems[..n], q, y);
      assert forall x :: x in elems <==> x in elems[..n] || x == elems[n];
      if Belongs(s, l, base, elems[n]) {
        var p := PathOf(s, l, base, elems[n]);
        assert q + [y] <= p <==> q < p && p[|q|] == y;
      }
    }
  }

  /** Whatever the order of the elements: an element lies at q exactly if q is its path, the facet at q
      counts the elements whose path goes through q, and there is a facet at q + [y] exactly if some path
      goes through there. */
  lemma TreeByPath(s: Schema, l: Lineage, base: Name, elems: seq<Name>, q: seq<Name>, x: Name, y: Name)
    requires QueryOk(s, l, base, elems) && q != []
    requires forall i, j :: 0 <= i < j < |elems| ==> elems[i] != elems[j]
    ensures var place := At(Subsets(s, l, base, elems), q);
            && (x in place.elems <==> x in elems && Belongs(s, l, base, x) && q == PathOf(s, l, base, x))
            && place.num == |set e | e in elems && Through(s, l, base, q, e)|
            && (y in place.kids <==> exists e :: e in elems && Through(s, l, base, q + [y], e))
  {
    hide Indexed, Belongs, PathOf;
    SubsetsAt(s, l, base, elems, q);
    PassingIs(s, l, base, elems, q, x);
    FollowingIs(s, l, base, elems, q, y);
    PassingCount(s, l, base, elems, q);
  }

  ghost predicate Through(s: Schema, l: Lineage, base: Name, q: seq<Name>, e: Name) {
    QueryOk(s, l, base, [e]) && Belongs(s, l, base, e) && q <= PathOf(s, l, base, e)
  }

  lemma {:induction false} PassingCount(s: Schema, l: Lineage, base: Name, elems: seq<Name>, q: seq<Name>)
    requires QueryOk(s, l, base, elems)
    requires forall i, j :: 0 <= i < j < |elems| ==> elems[i] != elems[j]
    ensures |Passing(s, l, base, elems, q)| == |set e | e in elems && Through(s, l, base, q, e)|
    decreases |elems|
  {
    hide Indexed, Belongs, PathOf;
    if elems != [] {
      var n := |elems| - 1;
      PassingCount(s, l, base, elems[..n], q);
      var some := set e | e in elems[..n] && Through(s, l, base, q, e);
      var all := set e | e in elems && Through(s, l, base, q, e);
      assert all == if Through(s, l, base, q, elems[n]) then some + {elems[n]} else some;
      assert elems[n] !in elems[..n];
    }
  }

  /** A facet below the first level is of a class that derives directly from that of the facet above. */
  lemma PlacedUnderBase(s: Schema, l: Lineage, base: Name, elems: seq<Name>, q: seq<Name>, y: Name)
    requires QueryOk(s, l, base, elems) && q != [] && y in At(Subsets(s, l, base, elems), q).kids
    ensures y in s && Last(q) in BaseGraph(s)[y]
  {
    hide Indexed, Belongs, BaseGraph;
    SubsetsAt(s, l, base, elems, q);
    FollowingIs(s, l, base, elems, q, y);
    var x :| x in elems && Belongs(s, l, base, x) && q + [y] <= PathOf(s, l, base, x);
    EntryIffBelongs(s, l, base, x);
    var entry := EntryOf(l.ancestors[x], l.children[base]).value;
    ChildDerives(s, l, base, entry, x);
    PathEnd(s, l, entry, x);
    var p := PathOf(s, l, base, x);
    assert p[|q| - 1] == (q + [y])[|q| - 1] == Last(q);
    assert p[|q|] == (q + [y])[|q|] == y;
  }
}
