/** A diamond on which the two implementations of inheritance disagree. */
module ClassDiamond {
  import opened Digraph
  import opened ClassSchema
  import opened Options
  import opened ClassMeaning
  import opened ClassRead
  import opened ClassAgree

  const COLOR := Attr(1, 1)
  const RED := AttrVar(COLOR, 1, [])
  const BLUE := AttrVar(COLOR, 2, [])

  /** 0 declares a colour, 1 and 2 derive from it and set different ones, 3 derives from 1 and 2. */
  function Diamond(): (s: Schema)
    ensures s.Keys == {0, 1, 2, 3}
    ensures s[0] == ClassDecl([COLOR], [], [], true)
    ensures s[1] == ClassDecl([], [Clause(0, [RED])], [], false)
    ensures s[2] == ClassDecl([], [Clause(0, [BLUE])], [], false)
    ensures s[3] == ClassDecl([], [Clause(1, []), Clause(2, [])], [], false)
  {
    map[0 := ClassDecl([COLOR], [], [], true),
        1 := ClassDecl([], [Clause(0, [RED])], [], false),
        2 := ClassDecl([], [Clause(0, [BLUE])], [], false),
        3 := ClassDecl([], [Clause(1, []), Clause(2, [])], [], false)]
  }

  lemma DiamondEdge(n: Name, c: Name)
    requires n in Diamond() && c in DepGraph(Diamond())[n]
    ensures c in Diamond() && c < n
  {
    hide Diamond, Bases, Needs;
    DiamondNeeds(n);
    DiamondBelow(n, c);
  }

  lemma DiamondBelow(n: Name, c: Name)
    requires n in Diamond() && c in Bases(Diamond()[n])
    ensures c in Diamond() && c < n
  {
    hide Diamond;
  }

  lemma DiamondNeeds(n: Name)
    requires n in Diamond()
    ensures Needs(Diamond()[n]) == {}
  {
    hide Diamond;
    var d := Diamond()[n];
    assert forall i, v :: 0 <= i < |d.clauses| && v in d.clauses[i].values ==> v == RED || v == BLUE;
  }

  lemma DiamondEdges() returns (g: Graph)
    ensures g == DepGraph(Diamond())
    ensures forall n, c :: n in g && c in g[n] ==> c < n
    ensures WellFormed(Diamond())
  {
    hide Diamond, DepGraph;
    g := DepGraph(Diamond());
    forall n, c | n in g && c in g[n]
      ensures c < n
    {
      DiamondEdge(n, c);
    }
    forall n, c | n in g && c in g[n]
      ensures c in g
    {
      DiamondEdge(n, c);
    }
  }

  lemma DiamondAttrs(n: Name)
    requires n in Diamond()
    ensures AttrsOk(Diamond(), n) && RecordOk(Diamond(), n)
  {
    hide Diamond;
    var s := Diamond();
    assert HasAttr(s, 0, COLOR);
    if n == 1 || n == 2 {
      assert s[n].clauses[0].base == 0;
    }
  }

  lemma AllReadable(s: Schema, n: Name)
    requires n in s && CycleFree(DepGraph(s), n)
    requires forall x :: x in s ==> AttrsOk(s, x) && RecordOk(s, x)
    ensures Readable(s, n)
  {
    hide AttrsOk, RecordOk, CycleFree;
    ReachesStaysInside(DepGraph(s));
  }

  lemma DiamondReadable(n: Name)
    requires n in Diamond()
    ensures WellFormed(Diamond()) && Readable(Diamond(), n)
  {
    hide Diamond, AttrsOk, RecordOk, Readable, DepGraph, CycleFree, WellFormed;
    var s := Diamond();
    var g := DiamondEdges();
    DescendingIsCycleFree(g, n);
    forall x | x in s
      ensures AttrsOk(s, x) && RecordOk(s, x)
    {
      DiamondAttrs(x);
    }
    AllReadable(s, n);
  }

  /** Below the top of the diamond everything agrees. */
  lemma SidesAgree(n: Name)
    requires n == 1 || n == 2
    ensures WellFormed(Diamond()) && Readable(Diamond(), n) && Agree(Diamond(), n)
    ensures Held(ReadIdx(Diamond(), n), COLOR) == Some(if n == 1 then RED else BLUE)
  {
    hide Diamond, Resolvable, WellFormed, Readable, Agree, DepGraph, ReadUpTo, ReadIdx, FromBase, Untouched;
    var s := Diamond();
    DiamondReadable(n);
    forall x, k, a | Needed(s, n, x) && x in s && Resolvable(s, x) && 0 <= k < |s[x].clauses|
      ensures !Conflict(s, x, k, a)
    {
      SidesNeed(n, x);
      ReadNone(s, x);
    }
    NoConflictAgree(s, n);
    ReadStep(s, n, 0, COLOR);
    OwnHoldsNothing(s, n, COLOR);
  }

  lemma SidesNeed(n: Name, x: Name)
    requires (n == 1 || n == 2) && Needed(Diamond(), n, x)
    ensures x == n || x == 0
  {
    hide Diamond;
    var s := Diamond();
    var g := DiamondEdges();
    ReachesStaysInside(DepGraph(s));
    if x != n {
      var y := ReachesFirstStep(DepGraph(s), n, x);
      DiamondEdge(n, y);
      if x != 0 {
        var z := ReachesFirstStep(DepGraph(s), 0, x);
        DiamondEdge(0, z);
      }
    }
  }

  lemma DiamondBases()
    ensures WellFormed(Diamond()) && Resolvable(Diamond(), 3) && BasesAgree(Diamond(), 3)
  {
    hide Diamond, Resolvable, WellFormed, Readable, Agree;
    DiamondReadable(3);
    SidesAgree(1);
    SidesAgree(2);
  }

  lemma DiamondRead()
    ensures WellFormed(Diamond()) && Readable(Diamond(), 3)
    ensures Held(ReadIdx(Diamond(), 3), COLOR) == Some(RED)
  {
    hide Diamond, Resolvable, WellFormed, Readable, DepGraph, ReadUpTo, ReadIdx, BasesAgree;
    var s := Diamond();
    DiamondReadable(3);
    SidesAgree(1);
    SidesAgree(2);
    ReadNone(s, 3);
    ReadStep(s, 3, 0, COLOR);
    ReadStep(s, 3, 1, COLOR);
    OwnHoldsNothing(s, 3, COLOR);
  }

  lemma DiamondResolved()
    ensures WellFormed(Diamond()) && Resolvable(Diamond(), 3)
    ensures Held(ClassIdx(Diamond(), 3), COLOR) == Some(BLUE)
  {
    hide Diamond, Resolvable, WellFormed, DepGraph, ReadIdx, MergedIdx, Mergeable, BasesAgree, Readable, Agree;
    var s := Diamond();
    DiamondBases();
    SidesAgree(2);
    ResolvableIsMergeable(s, 3);
    MergePrefix(s, 3);
    MergeStep(s, 3, 1, COLOR);
  }

  /** The reader keeps the colour of the first base, the resolver takes that of the second. */
  lemma DiamondDisagrees()
    ensures WellFormed(Diamond()) && Readable(Diamond(), 3)
    ensures Held(ReadIdx(Diamond(), 3), COLOR) == Some(RED)
    ensures Held(ClassIdx(Diamond(), 3), COLOR) == Some(BLUE)
    ensures !Agree(Diamond(), 3)
  {
    hide Diamond, Resolvable, WellFormed, ReadIdx, ClassIdx;
    DiamondRead();
    DiamondResolved();
  }

  lemma MergePrefix(s: Schema, n: Name)
    requires n in s && Mergeable(s, n, |s[n].clauses|)
    ensures forall k :: 0 <= k <= |s[n].clauses| ==> Mergeable(s, n, k)
  {
  }
}
