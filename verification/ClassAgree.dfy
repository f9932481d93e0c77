/** When the two implementations of inheritance give a class the same index. */
module ClassAgree {
  import opened Digraph
  import opened ClassSchema
  import opened Options
  import opened ClassMeaning
  import opened ClassRead

  /** What base k of n holds for a, as read back. */
  ghost function FromBase(s: Schema, n: Name, k: nat, a: Attr): Option<AttrVar>
    requires WellFormed(s) && n in s && Resolvable(s, n) && k < |s[n].clauses|
  {
    ReadUnfold(s, n, k);
    Held(ReadIdx(s, s[n].clauses[k].base), a)
  }

  /** Base k holds a value of a, and the clauses before gave a different one: the case the reader
      reports as conflicting. */
  ghost predicate Conflict(s: Schema, n: Name, k: nat, a: Attr)
    requires WellFormed(s) && n in s && Resolvable(s, n) && k < |s[n].clauses|
  {
    && FromBase(s, n, k, a).Some?
    && Held(ReadUpTo(s, n, k), a).Some?
    && FromBase(s, n, k, a) != Held(ReadUpTo(s, n, k), a)
  }

  /** Clauses j to k - 1 give a no own value, and no base after base j has one. */
  ghost predicate Untouched(s: Schema, n: Name, j: nat, k: nat, a: Attr)
    requires WellFormed(s) && n in s && Resolvable(s, n) && k <= |s[n].clauses|
  {
    && (forall i :: j <= i < k ==> LastWrite(s[n].clauses[i].values, a).None?)
    && (forall i :: j < i < k ==> FromBase(s, n, i, a).None?)
  }

  /** A conflict that nothing later settles. */
  ghost predicate Diverged(s: Schema, n: Name, k: nat, a: Attr)
    requires WellFormed(s) && n in s && Resolvable(s, n) && k <= |s[n].clauses|
  {
    exists j :: 0 <= j < k && Conflict(s, n, j, a) && Untouched(s, n, j, k, a)
  }

  ghost predicate Agree(s: Schema, n: Name)
    requires WellFormed(s) && n in s && Resolvable(s, n)
  {
    ReadIdx(s, n) == ClassIdx(s, n)
  }

  ghost predicate Settled(s: Schema, n: Name)
    requires WellFormed(s) && n in s && Resolvable(s, n)
  {
    forall a :: !Diverged(s, n, |s[n].clauses|, a)
  }

  ghost predicate BasesAgree(s: Schema, n: Name)
    requires WellFormed(s) && n in s && Resolvable(s, n)
  {
    forall b :: b in Bases(s[n]) ==> b in s && Resolvable(s, b) && Agree(s, b)
  }

  lemma ReadStep(s: Schema, n: Name, k: nat, a: Attr)
    requires WellFormed(s) && n in s && Resolvable(s, n) && k < |s[n].clauses|
    ensures Held(ReadUpTo(s, n, k + 1), a)
            == var own := LastWrite(s[n].clauses[k].values, a);
               if own.Some? then own
               else if Held(ReadUpTo(s, n, k), a).Some? then Held(ReadUpTo(s, n, k), a)
               else FromBase(s, n, k, a)
  {
    hide Resolvable, WellFormed, DepGraph, ReadUpTo, ReadIdx;
    ReadUnfold(s, n, k);
    AssignHeld(Fill(ReadUpTo(s, n, k), ReadIdx(s, s[n].clauses[k].base)), s[n].clauses[k].values, a);
  }

  lemma MergeStep(s: Schema, n: Name, k: nat, a: Attr)
    requires WellFormed(s) && n in s && Resolvable(s, n) && BasesAgree(s, n)
    requires k < |s[n].clauses| && Mergeable(s, n, k) && Mergeable(s, n, k + 1)
    ensures Held(MergedIdx(s, n, k + 1), a)
            == var own := LastWrite(s[n].clauses[k].values, a);
               if own.Some? then own
               else if FromBase(s, n, k, a).Some? then FromBase(s, n, k, a)
               else Held(MergedIdx(s, n, k), a)
  {
    hide Resolvable, WellFormed, DepGraph, Mergeable, MergedIdx, ReadIdx, HasAttr;
    var b := s[n].clauses[k].base;
    assert b in Bases(s[n]);
    MergedUnfold(s, n, k + 1);
    AssignHeld(Inherit(MergedIdx(s, n, k), ClassIdx(s, b)), s[n].clauses[k].values, a);
  }

  /** Clause by clause, the two indices differ on a just when a conflict is left unsettled. */
  lemma {:induction false} DivergedUpTo(s: Schema, n: Name, k: nat, a: Attr)
    requires WellFormed(s) && n in s && Resolvable(s, n) && BasesAgree(s, n)
    requires k <= |s[n].clauses| && Mergeable(s, n, k)
    ensures Held(MergedIdx(s, n, k), a) != Held(ReadUpTo(s, n, k), a) <==> Diverged(s, n, k, a)
  {
    hide Resolvable, WellFormed, DepGraph, MergedIdx, ReadUpTo, HasAttr, FromBase, BasesAgree, HasAttrUpTo;
    if k == 0 {
      ReadNone(s, n);
      MergedNone(s, n);
    } else {
      assert Mergeable(s, n, k - 1);
      DivergedUpTo(s, n, k - 1, a);
      ReadStep(s, n, k - 1, a);
      MergeStep(s, n, k - 1, a);
      DivergedStep(s, n, k - 1, a);
    }
  }

  lemma MergedNone(s: Schema, n: Name)
    requires WellFormed(s) && n in s && Mergeable(s, n, 0)
    ensures forall a :: Held(MergedIdx(s, n, 0), a) == None
  {
  }

  lemma DivergedStep(s: Schema, n: Name, k: nat, a: Attr)
    requires WellFormed(s) && n in s && Resolvable(s, n) && k < |s[n].clauses|
    ensures Diverged(s, n, k + 1, a)
      <==> && LastWrite(s[n].clauses[k].values, a).None?
           && (Conflict(s, n, k, a) || (FromBase(s, n, k, a).None? && Diverged(s, n, k, a)))
  {
    hide Resolvable, WellFormed, DepGraph, ReadUpTo, FromBase, Conflict, LastWrite;
    var own := LastWrite(s[n].clauses[k].values, a).None?;
    if own && Conflict(s, n, k, a) {
      assert Untouched(s, n, k, k + 1, a);
    }
    if own && FromBase(s, n, k, a).None? && Diverged(s, n, k, a) {
      var j :| 0 <= j < k && Conflict(s, n, j, a) && Untouched(s, n, j, k, a);
      assert Untouched(s, n, j, k + 1, a);
    }
    if Diverged(s, n, k + 1, a) {
      var j :| 0 <= j < k + 1 && Conflict(s, n, j, a) && Untouched(s, n, j, k + 1, a);
      if j < k {
        assert Untouched(s, n, j, k, a);
      }
    }
  }

  /** With bases that agree, a class read back gets the index resolution gives it just when no
      conflict among its clauses is left unsettled. */
  lemma AgreeIffSettled(s: Schema, n: Name)
    requires WellFormed(s) && Readable(s, n) && BasesAgree(s, n)
    ensures Agree(s, n) <==> Settled(s, n)
  {
    hide Readable, Resolvable, WellFormed, DepGraph, MergedIdx, ReadUpTo, HasAttr, BasesAgree, Diverged,
         Mergeable, HasAttrUpTo;
    ResolvableIsMergeable(s, n);
    forall a
      ensures Held(ReadIdx(s, n), a) == Held(ClassIdx(s, n), a) <==> !Diverged(s, n, |s[n].clauses|, a)
      ensures a in ReadIdx(s, n) <==> a in ClassIdx(s, n)
    {
      DivergedUpTo(s, n, |s[n].clauses|, a);
      OwnHoldsNothing(s, n, a);
      ReadIdxKeys(s, n);
      ClassIdxKeys(s, n, a);
    }
    SameHeldSameIdx(ReadIdx(s, n), ClassIdx(s, n));
  }

  lemma OwnHoldsNothing(s: Schema, n: Name, a: Attr)
    requires WellFormed(s) && Readable(s, n)
    ensures Held(ReadIdx(s, n), a) == Held(ReadUpTo(s, n, |s[n].clauses|), a)
  {
    hide Resolvable, WellFormed, DepGraph, ReadUpTo, InheritsAttr;
    ReadableClauses(s, n);
    ReadKeys(s, n, |s[n].clauses|);
  }

  lemma SameHeldSameIdx(idx: AttrIdx, other: AttrIdx)
    requires forall a :: a in idx <==> a in other
    ensures idx == other <==> forall a :: Held(idx, a) == Held(other, a)
  {
    if forall a :: Held(idx, a) == Held(other, a) {
      forall a | a in idx
        ensures idx[a] == other[a]
      {
        assert Held(idx, a) == Held(other, a);
      }
    }
  }

  /** n and everything it depends on. */
  ghost predicate Needed(s: Schema, n: Name, x: Name) {
    x == n || Reaches(DepGraph(s), n, x)
  }

  lemma NeededReadable(s: Schema, n: Name, x: Name)
    requires WellFormed(s) && Readable(s, n) && Needed(s, n, x)
    ensures x in s && Readable(s, x)
  {
    var g := DepGraph(s);
    ReachesStaysInside(g);
    forall y | Reaches(g, x, y)
      ensures Needed(s, n, y)
    {
      if x != n {
        ReachesTransitive(g, n, x, y);
      }
    }
  }

  lemma NeededByBase(s: Schema, n: Name, b: Name, x: Name)
    requires WellFormed(s) && n in s && b in Bases(s[n]) && Needed(s, b, x)
    ensures Needed(s, n, x)
  {
    var g := DepGraph(s);
    assert b in g[n] && b in s;
    EdgeReaches(g, n, b);
    if x != b {
      ReachesTransitive(g, n, b, x);
    }
  }

  lemma {:induction false} SettledAgree(s: Schema, n: Name)
    requires WellFormed(s) && Readable(s, n)
    requires forall x :: Needed(s, n, x) && x in s && Resolvable(s, x) ==> Settled(s, x)
    ensures Agree(s, n)
    decreases ReachSet(DepGraph(s), n)
  {
    hide Resolvable, WellFormed, Agree, Settled, Readable, Needed;
    forall b | b in Bases(s[n])
      ensures b in s && Resolvable(s, b) && Agree(s, b)
    {
      var k :| 0 <= k < |s[n].clauses| && s[n].clauses[k].base == b;
      ReadUnfold(s, n, k);
      BaseReadable(s, n, k);
      forall x | Needed(s, b, x)
        ensures Needed(s, n, x)
      {
        NeededByBase(s, n, b, x);
      }
      SettledAgree(s, b);
    }
    assert Needed(s, n, n) by {
      NeedsItself(s, n);
    }
    AgreeIffSettled(s, n);
  }

  lemma NeedsItself(s: Schema, n: Name)
    ensures Needed(s, n, n)
  {
  }

  /** The two implementations agree on a class and everything it depends on exactly when no class
      among them leaves a conflict unsettled. */
  lemma ReadAgreesWithResolve(s: Schema, n: Name)
    requires WellFormed(s) && Readable(s, n)
    ensures (forall x :: Needed(s, n, x) && x in s && Resolvable(s, x) ==> Agree(s, x))
       <==> (forall x :: Needed(s, n, x) && x in s && Resolvable(s, x) ==> Settled(s, x))
  {
    hide Resolvable, WellFormed, Agree, Settled, Readable, Needed;
    if forall x :: Needed(s, n, x) && x in s && Resolvable(s, x) ==> Agree(s, x) {
      forall x | Needed(s, n, x) && x in s && Resolvable(s, x)
        ensures Settled(s, x)
      {
        NeededReadable(s, n, x);
        NeededBases(s, n, x);
        AgreeIffSettled(s, x);
      }
    }
    if forall x :: Needed(s, n, x) && x in s && Resolvable(s, x) ==> Settled(s, x) {
      forall x | Needed(s, n, x) && x in s && Resolvable(s, x)
        ensures Agree(s, x)
      {
        NeededReadable(s, n, x);
        NeededTransitive(s, n, x);
        SettledAgree(s, x);
      }
    }
  }

  lemma NeededTransitive(s: Schema, n: Name, x: Name)
    requires Needed(s, n, x)
    ensures forall y :: Needed(s, x, y) ==> Needed(s, n, y)
  {
    forall y | Needed(s, x, y)
      ensures Needed(s, n, y)
    {
      if x != n && y != x {
        ReachesTransitive(DepGraph(s), n, x, y);
      }
    }
  }

  lemma NeededBases(s: Schema, n: Name, x: Name)
    requires WellFormed(s) && x in s && Resolvable(s, x) && Needed(s, n, x)
    requires forall y :: Needed(s, n, y) && y in s && Resolvable(s, y) ==> Agree(s, y)
    ensures BasesAgree(s, x)
  {
    hide Resolvable, WellFormed, Agree, Needed;
    forall b | b in Bases(s[x])
      ensures b in s && Resolvable(s, b) && Agree(s, b)
    {
      var k :| 0 <= k < |s[x].clauses| && s[x].clauses[k].base == b;
      ReadUnfold(s, x, k);
      NeedsItself(s, b);
      NeededByBase(s, x, b, b);
      NeededTransitive(s, n, x);
    }
  }

  /** Where no base ever supplies a value different from the first one merged, they agree. */
  lemma NoConflictAgree(s: Schema, n: Name)
    requires WellFormed(s) && Readable(s, n)
    requires forall x, k, a :: Needed(s, n, x) && x in s && Resolvable(s, x) && 0 <= k < |s[x].clauses|
               ==> !Conflict(s, x, k, a)
    ensures Agree(s, n)
  {
    hide Resolvable, WellFormed, Agree, Readable, Needed, Conflict, Untouched;
    SettledAgree(s, n);
  }
}
