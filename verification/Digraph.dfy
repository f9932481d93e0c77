/** Directed graphs over names, and reachability by walks.  The class and proc graphs of a repo are
    instances: a node is a class (or proc) name, its successors are the names its clauses mention. */
module Digraph {
  /** A name of a class or a proc.  Names are only ever compared for equality. */
  type Name = nat

  type Graph = map<Name, set<Name>>

  ghost predicate Closed(g: Graph) {
    forall v, w :: v in g && w in g[v] ==> w in g
  }

  ghost predicate IsWalk(g: Graph, p: seq<Name>) {
    && |p| > 0
    && (forall i :: 0 <= i < |p| ==> p[i] in g)
    && (forall i, j :: 0 <= i < |p| - 1 && j == i + 1 ==> p[j] in g[p[i]])
  }

  ghost predicate WalkBetween(g: Graph, p: seq<Name>, a: Name, b: Name) {
    IsWalk(g, p) && |p| >= 2 && p[0] == a && p[|p| - 1] == b
  }

  /** b can be reached from a over at least one edge. */
  ghost predicate Reaches(g: Graph, a: Name, b: Name) {
    exists p :: WalkBetween(g, p, a, b)
  }

  /** Neither v nor anything v reaches lies on a cycle. */
  ghost predicate CycleFree(g: Graph, v: Name) {
    forall w :: w == v || Reaches(g, v, w) ==> !Reaches(g, w, w)
  }

  ghost function ReachSet(g: Graph, v: Name): (r: set<Name>)
    ensures forall w :: w in r <==> Reaches(g, v, w)
  {
    ReachesStaysInside(g);
    set w | w in g && Reaches(g, v, w)
  }

  lemma ReachesStaysInside(g: Graph)
    ensures forall a, b :: Reaches(g, a, b) ==> a in g && b in g
  {
    forall a, b | Reaches(g, a, b)
      ensures a in g && b in g
    {
      var p :| WalkBetween(g, p, a, b);
    }
  }

  lemma EdgeReaches(g: Graph, a: Name, b: Name)
    requires a in g && b in g && b in g[a]
    ensures Reaches(g, a, b)
  {
    assert WalkBetween(g, [a, b], a, b);
  }

  lemma ReachesTransitive(g: Graph, a: Name, b: Name, c: Name)
    requires Reaches(g, a, b) && Reaches(g, b, c)
    ensures Reaches(g, a, c)
  {
    var p :| WalkBetween(g, p, a, b);
    var q :| WalkBetween(g, q, b, c);
    var r := p + q[1..];
    forall i | 0 <= i < |r| - 1
      ensures r[i + 1] in g[r[i]]
    {
      if i == |p| - 1 {
        assert r[i] == q[0] && r[i + 1] == q[1];
      } else if i >= |p| {
        assert r[i] == q[i - |p| + 1] && r[i + 1] == q[i - |p| + 2];
      }
    }
    assert WalkBetween(g, r, a, c);
  }

  /** Every walk starts with an edge: what a reaches is a successor or reached from one. */
  lemma ReachesFirstStep(g: Graph, a: Name, b: Name) returns (s: Name)
    requires Reaches(g, a, b)
    ensures a in g && s in g && s in g[a] && (s == b || Reaches(g, s, b))
  {
    var p :| WalkBetween(g, p, a, b);
    s := p[1];
    if |p| > 2 {
      assert WalkBetween(g, p[1..], s, b);
    }
  }

  /** Every walk ends with an edge. */
  lemma ReachesLastStep(g: Graph, a: Name, b: Name) returns (s: Name)
    requires Reaches(g, a, b)
    ensures s in g && b in g[s] && (s == a || Reaches(g, a, s))
  {
    var p :| WalkBetween(g, p, a, b);
    s := p[|p| - 2];
    if |p| > 2 {
      assert WalkBetween(g, p[..|p| - 1], a, s);
    }
  }

  /** A graph with more edges reaches more. */
  lemma ReachesMonotone(g: Graph, h: Graph, a: Name, b: Name)
    requires forall v :: v in g ==> v in h && (forall w :: w in g[v] ==> w in h[v])
    requires Reaches(g, a, b)
    ensures Reaches(h, a, b)
  {
    var p :| WalkBetween(g, p, a, b);
    assert WalkBetween(h, p, a, b);
  }

  /** What a node reaches shrinks along every edge that leads off a cycle-free node. */
  lemma ReachSetShrinks(g: Graph, a: Name, b: Name)
    requires a in g && b in g && b in g[a] && CycleFree(g, a)
    ensures CycleFree(g, b) && ReachSet(g, b) < ReachSet(g, a)
  {
    EdgeReaches(g, a, b);
    forall w | Reaches(g, b, w)
      ensures Reaches(g, a, w)
    {
      ReachesTransitive(g, a, b, w);
    }
    assert b in ReachSet(g, a) && b !in ReachSet(g, b);
  }

  /** A node whose successors are all cycle-free, and which is not its own successor, is cycle-free. */
  lemma CycleFreeFromSuccessors(g: Graph, a: Name)
    requires Closed(g) && a in g && a !in g[a]
    requires forall b :: b in g[a] ==> CycleFree(g, b)
    ensures CycleFree(g, a)
  {
    forall w | w == a || Reaches(g, a, w)
      ensures !Reaches(g, w, w)
    {
      if Reaches(g, w, w) {
        var s := ReachesFirstStep(g, a, w);
      }
    }
  }

  /** The successors of a node, and what they reach, are exactly what the node reaches. */
  lemma ReachesBySuccessor(g: Graph, a: Name, b: Name)
    requires Closed(g) && a in g
    ensures Reaches(g, a, b) <==> exists s :: s in g[a] && (s == b || Reaches(g, s, b))
  {
    if Reaches(g, a, b) {
      var s := ReachesFirstStep(g, a, b);
    }
    if s :| s in g[a] && (s == b || Reaches(g, s, b)) {
      EdgeReaches(g, a, s);
      if s != b {
        ReachesTransitive(g, a, s, b);
      }
    }
  }

  /** Edges that all lead to smaller names form no cycle. */
  lemma {:induction false} WalkDescends(g: Graph, p: seq<Name>)
    requires forall v, w :: v in g && w in g[v] ==> w < v
    requires IsWalk(g, p) && |p| >= 2
    ensures p[|p| - 1] < p[0]
  {
    var q := p[..|p| - 1];
    assert p[|p| - 1] in g[q[|q| - 1]];
    if |q| >= 2 {
      WalkDescends(g, q);
    }
  }

  lemma DescendingIsCycleFree(g: Graph, n: Name)
    requires forall v, w :: v in g && w in g[v] ==> w < v
    ensures CycleFree(g, n)
  {
    forall w | Reaches(g, w, w)
      ensures false
    {
      var p :| WalkBetween(g, p, w, w);
      WalkDescends(g, p);
    }
  }
}
