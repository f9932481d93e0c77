/** Resolving a proc: a depth-first walk that registers arguments, links ancestors and merges argument
    indices in place. */
module ProcLoad {
  import opened Digraph
  import opened Options
  import opened ProcResolve
  import opened ProcMoves
  import opened ProcOrder

  class ProcRepo {
    const schema: Schema
    var st: Store

    constructor (schema: Schema)
      requires WellFormed(schema)
      ensures this.schema == schema && Valid()
      ensures st == Store(map n | n in schema :: NEW_PROC, map[], map[], 0, [])
    {
      this.schema := schema;
      st := Store(map n | n in schema :: NEW_PROC, map[], map[], 0, []);
    }

    ghost predicate Valid()
      reads this
    {
      WellFormed(schema) && Inv(schema, st) && OrderOk(schema, st)
    }

    /** Registers the arguments n declares. */
    method IndexArgs(n: Name)
      requires Valid() && n in schema && OwnSoFar(st, n, [])
      requires st.entered != [] && st.entered[|st.entered| - 1] == n
      modifies this`st
      ensures Valid() && OwnIndexed(schema, st, n) && StepFor(old(st), st, n) && st.entered == old(st).entered
      ensures st.procs == old(st).procs[n := st.procs[n]]
      ensures st.procs[n].ancestors == old(st).procs[n].ancestors
      ensures Numbered(old(st), st, n, schema[n].args)
    {
      hide WellFormed, Inv, OwnSoFar, StepFor, OrderOk, Numbered;
      var args := schema[n].args;
      ghost var st0 := st;
      PendingSoFar(schema, st, n);
      NoneNumbered(st, n);
      assert args[..0] == [];
      var i := 0;
      while i < |args|
        invariant 0 <= i <= |args|
        invariant Valid() && OwnSoFar(st, n, args[..i]) && StepFor(st0, st, n) && st.entered == st0.entered
        invariant n in st.procs && n in st0.procs && Pending(st, n) && Numbered(st0, st, n, args[..i])
        invariant st.procs == st0.procs[n := st.procs[n]] && st.procs[n].ancestors == st0.procs[n].ancestors
      {
        RegisterOrder(schema, st, n, args[i]);
        OneMoreArg(schema, st, n, args[..i], args[i]);
        OneMoreStep(schema, st0, st, n, args[i]);
        NumberedMore(st0, st, n, args[..i], args[i]);
        assert args[..i + 1] == args[..i] + [args[i]];
        st := Registered(st, n, args[i]);
        i := i + 1;
      }
      assert args[..i] == args;
      AllRegistered(schema, st, n);
    }

    method LinkAncestor(n: Name, a: Name)
      requires n in st.procs
      modifies this`st
      ensures var anc := old(st).procs[n].ancestors;
              st == WithProc(old(st), n, old(st).procs[n].(ancestors := if a in anc then anc else [a] + anc))
    {
      var anc := st.procs[n].ancestors;
      if a in anc {
        assert WithProc(st, n, st.procs[n].(ancestors := anc)) == st;
        return;
      }
      st := WithProc(st, n, st.procs[n].(ancestors := [a] + anc));
    }

    /** Links what the base derives from, then the base. */
    method LinkBase(n: Name, b: Name)
      requires Valid() && n in schema && b in schema && n != b && Resolved(st, b)
      modifies this`st
      ensures n in old(st).procs && b in old(st).procs && n in st.procs
      ensures st.procs[n].ancestors == [b] + Joined(old(st).procs[n].ancestors, old(st).procs[b].ancestors)
      ensures st == WithProc(old(st), n, old(st).procs[n].(ancestors := st.procs[n].ancestors))
      ensures forall x :: x in st.procs[n].ancestors <==>
                x in old(st).procs[n].ancestors || Derives(schema, b, x)
    {
      hide WellFormed, Inv, Derives, OrderOk, Joined;
      BaseJoined(schema, st, n, b);
      KeptProc(st, n);
      ghost var st0 := st;
      var more := st.procs[b].ancestors;
      JoinedNone(st.procs[n].ancestors, more);
      var i := 0;
      while i < |more|
        invariant 0 <= i <= |more|
        invariant n in st.procs && st == WithProc(st0, n, st0.procs[n].(ancestors := st.procs[n].ancestors))
        invariant st.procs[n].ancestors == Joined(st0.procs[n].ancestors, more[..i])
      {
        JoinedStep(st0.procs[n].ancestors, more, i);
        LinkAncestor(n, more[i]);
        i := i + 1;
      }
      assert more[..i] == more;
      st := WithProc(st, n, st.procs[n].(ancestors := [b] + st.procs[n].ancestors));
    }

    /** Resolves the bases in turn and links them.  The procs reached are those the declarations say; a
        refused value is one of theirs. */
    method ResolveBases(n: Name) returns (err: Err)
      requires Valid() && n in schema && OwnIndexed(schema, st, n) && st.procs[n].ancestors == []
      modifies this`st
      ensures err.Ok? ==>
                && Valid() && OwnIndexed(schema, st, n)
                && Linked(schema, st, n, |schema[n].bases|) && StepFor(old(st), st, n)
      ensures err.Ok? ==> st.entered == VisitBases(schema, n, |schema[n].bases|, old(st).entered)
      ensures err.Circle? ==> exists b :: b in ProcGraph(schema)[n] && Blocked(schema, old(st), b)
      ensures err.NotApproved? ==>
                SomeRefused(schema, VisitBases(schema, n, |schema[n].bases|, old(st).entered))
      decreases Unvisited(st), 2
    {
      hide WellFormed, Inv, StepFor, OwnIndexed, Linked, Blocked, ProcGraph, Unvisited, OrderOk, Distinct, SomeRefused,
           Visit, VisitBases;
      ghost var st0 := st;
      BasesBegin(schema, st, n);
      ReachedDistinct(schema, st);
      VisitEntered(schema, n, st.entered);
      var bases := schema[n].bases;
      var k := 0;
      while k < |bases|
        invariant 0 <= k <= |bases|
        invariant Valid() && OwnIndexed(schema, st, n) && Linked(schema, st, n, k) && StepFor(st0, st, n)
        invariant st.entered == VisitBases(schema, n, k, st0.entered)
      {
        BaseEdge(schema, n, k);
        VisitOneMore(schema, n, k, st0.entered);
        ghost var before := st;
        BasesGoOn(schema, st0, st, n);
        if !st.procs[bases[k].proc].isResolved {
          err := ResolveProc(bases[k].proc);
          if !err.Ok? {
            if err.Circle? {
              BlockedEarlier(schema, st0, before, bases[k].proc);
            } else {
              RefusedBelow(schema, n, k, st0.entered);
            }
            return;
          }
          BaseDone(schema, st0, before, st, n, k);
        } else {
          ResolvedWasReached(schema, st, bases[k].proc);
        }
        ghost var resolved := st;
        BasesGoOn(schema, st0, st, n);
        LinkBase(n, bases[k].proc);
        ghost var p := st.procs[n];
        LinkedOneMore(schema, resolved, n, k, p.ancestors);
        OwnKept(schema, resolved, n, p.ancestors);
        PendingOrder(schema, resolved, n, p);
        PendingStep(st0, resolved, n, p);
        k := k + 1;
      }
      err := Ok;
    }

    /** Callers ask only about procs not resolved yet. */
    method ResolveProc(n: Name) returns (err: Err)
      requires Valid() && n in schema && !Resolved(st, n)
      modifies this`st
      ensures err.Ok? ==> Valid() && Resolved(st, n) && Step(old(st), st)
      ensures err.Ok? ==> st.entered == Visit(schema, n, old(st).entered)
      ensures err.Ok? ==> !Blocked(schema, old(st), n)
      ensures err.Circle? ==> Blocked(schema, old(st), n)
      ensures err.NotApproved? ==> SomeRefused(schema, Visit(schema, n, old(st).entered))
      decreases Unvisited(st), 1
    {
      hide WellFormed, Inv, StepFor, OwnIndexed, Linked, Merged, Blocked, OwnSoFar, ProcGraph, Step, Unvisited,
           OrderOk, Accepted, SomeRefused, Refused, Visit, VisitBases, CycleFree, Merging;
      ghost var st0 := st;
      KnownProcs(schema, st);
      if st.procs[n].resolvingInProgress {
        PendingBlocks(schema, st, n);
        return Circle;
      }
      NotYetReached(schema, st, n);
      VisitEntered(schema, n, st.entered);
      Enters(schema, st, n);
      EnterOrder(schema, st, n);
      st := Entered(st, n);
      ghost var entered := st;
      IndexArgs(n);
      ghost var indexed := st;
      IndexedGoesOn(schema, st0, entered, st, n);
      err := ResolveBases(n);
      if !err.Ok? {
        if err.Circle? {
          ghost var b :| b in ProcGraph(schema)[n] && Blocked(schema, indexed, b);
          BelowBlocks(schema, st0, indexed, n, b);
        }
        return;
      }
      ghost var linked := st;
      NowMerging(schema, st, n);
      err := MergeBases(n);
      if !err.Ok? {
        OwnRefused(schema, linked, n);
        return;
      }
      MergedDone(schema, indexed, linked, st, n);
      WholeStep(schema, st0, entered, indexed, linked, st, n);
      FinishOrder(schema, st, n);
      st := WithProc(st, n, st.procs[n].(isResolved := true));
    }

    /** An argument the index lacks is added; one it has takes the value of the base, if any. */
    method InheritArg(n: Name, id: ArgId, src: Option<ArgVar>)
      requires n in st.procs
      modifies this`st
      ensures st == WithProc(old(st), n, old(st).procs[n].(
                      argIdx := Inherit(old(st).procs[n].argIdx, map[id := src])))
    {
      var idx := st.procs[n].argIdx;
      if id in idx {
        if src.Some? {
          idx := idx[id := src];
        }
      } else {
        idx := idx[id := src];
      }
      assert idx == Inherit(st.procs[n].argIdx, map[id := src]);
      st := WithProc(st, n, st.procs[n].(argIdx := idx));
    }

    /** Argument by argument, in any order. */
    method InheritArgs(n: Name, b: Name)
      requires n in st.procs && b in st.procs && n != b
      modifies this`st
      ensures st == WithProc(old(st), n, old(st).procs[n].(
                      argIdx := Inherit(old(st).procs[n].argIdx, old(st).procs[b].argIdx)))
    {
      hide Inherit;
      ghost var st0 := st;
      ghost var own := st.procs[n].argIdx;
      ghost var done: map<ArgId, Option<ArgVar>> := map[];
      var base := st.procs[b].argIdx;
      var rest := base.Keys;
      InheritNone(st, n);
      while rest != {}
        invariant rest <= base.Keys
        invariant done == map id | id in base.Keys - rest :: base[id]
        invariant st == WithProc(st0, n, st0.procs[n].(argIdx := Inherit(own, done)))
      {
        var id :| id in rest;
        rest := rest - {id};
        InheritArg(n, id, base[id]);
        InheritOneMore(own, done, id, base[id]);
        done := done[id := base[id]];
      }
      assert done == base;
    }

    /** The value goes to the argument the lookup finds, which must be in the index by now. */
    method ResolveArgVar(n: Name, v: ArgVar) returns (err: Err)
      requires Valid() && n in schema && n in st.procs
      modifies this`st
      ensures err == if GetArg(old(st), n, v.name).Some? then Ok else NotApproved
      ensures !err.Ok? ==> st == old(st)
      ensures err.Ok? ==> st == WithProc(old(st), n, old(st).procs[n].(
                argIdx := old(st).procs[n].argIdx[GetArg(old(st), n, v.name).value := Some(v)]))
    {
      var found := FindArg(n, v.name);
      if found.None? {
        return NotApproved;
      }
      st := WithProc(st, n, st.procs[n].(argIdx := st.procs[n].argIdx[found.value := Some(v)]));
      err := Ok;
    }

    /** The cursor loop over the chain of the name. */
    method FindArg(n: Name, name: ArgName) returns (r: Option<ArgId>)
      requires Valid() && n in schema && n in st.procs
      ensures r == GetArg(st, n, name)
    {
      hide Inv, WellFormed;
      KnownProcs(schema, st);
      if name !in st.chains || st.chains[name] == [] {
        return None;
      }
      var chain := st.chains[name];
      var arg := chain[0];
      var i := 0;
      while i < |chain|
        invariant 0 <= i <= |chain|
        invariant i < |chain| ==> FirstMatch(st, chain, n) == FirstMatch(st, chain[i..], n)
        invariant i == |chain| ==> arg == FirstMatch(st, chain, n)
      {
        arg := chain[i];
        var owner := st.args[arg].proc;
        var found := owner == n;
        if !found {
          found := IsBase(owner, n);
        }
        if found {
          break;
        }
        i := i + 1;
      }
      r := if arg in st.procs[n].argIdx then Some(arg) else None;
    }

    method IsBase(self: Name, child: Name) returns (found: bool)
      requires child in st.procs
      ensures found <==> self in st.procs[child].ancestors
    {
      var anc := st.procs[child].ancestors;
      var i := 0;
      while i < |anc|
        invariant 0 <= i <= |anc|
        invariant self !in anc[..i]
      {
        if anc[i] == self {
          return true;
        }
        i := i + 1;
      }
      found := false;
    }

    /** The values of one clause, in order. */
    method GiveValues(n: Name, k: nat) returns (err: Err)
      requires Valid() && n in schema && k < |schema[n].bases| && Merging(schema, st, n)
      requires Merged(schema, st, n, k + 1) && n in st.procs && CycleFree(ProcGraph(schema), n)
      requires ValuedWithin(schema, st.args, n, k, 0, st.procs[n].argIdx)
      modifies this`st
      ensures err.NotApproved? <==> RefusedAt(schema, old(st).entered, n, k)
      ensures !err.Circle?
      ensures err.Ok? ==> Valid() && Merging(schema, st, n) && n in old(st).procs && n in st.procs
      ensures err.Ok? ==> st == WithProc(old(st), n, old(st).procs[n].(argIdx := st.procs[n].argIdx))
      ensures err.Ok? ==> Merged(schema, st, n, k + 1) && Valued(schema, st.args, n, k + 1, st.procs[n].argIdx)
    {
      hide WellFormed, Inv, Merged, OrderOk, Merging, Valued, ValuedWithin, Approved, CycleFree, GetArg;
      ghost var st0 := st;
      MergeGoesOn(schema, st, n, k + 1);
      var vars := schema[n].bases[k].vars;
      var i := 0;
      while i < |vars|
        invariant 0 <= i <= |vars|
        invariant Valid() && Merging(schema, st, n) && n in st0.procs && n in st.procs
        invariant st == WithProc(st0, n, st0.procs[n].(argIdx := st.procs[n].argIdx))
        invariant Merged(schema, st, n, k + 1) && ValuedWithin(schema, st.args, n, k, i, st.procs[n].argIdx)
        invariant forall v :: v in vars[..i] ==> Approved(schema, st0.entered, n, k + 1, v.name)
      {
        MergeGoesOn(schema, st, n, k + 1);
        LookupApproved(schema, st, n, k + 1, vars[i].name);
        ghost var before := st;
        err := ResolveArgVar(n, vars[i]);
        if !err.Ok? {
          assert RefusedAt(schema, st0.entered, n, k);
          return;
        }
        GiveOneMore(schema, before.args, n, k, i, before.procs[n].argIdx, GetArg(before, n, vars[i].name).value);
        SameKeysMerged(schema, before, n, k + 1, st.procs[n].argIdx);
        StillMerging(schema, before, n, st.procs[n].argIdx);
        i := i + 1;
      }
      GivenAll(schema, st.args, n, k, st.procs[n].argIdx);
      assert vars[..i] == vars;
      err := Ok;
    }

    /** Base by base: its arguments, then the values its clause gives. */
    method MergeBases(n: Name) returns (err: Err)
      requires Valid() && n in schema && OwnIndexed(schema, st, n) && Merging(schema, st, n)
      modifies this`st
      ensures err == if Refused(schema, old(st).entered, n) then NotApproved else Ok
      ensures err.Ok? ==> Valid() && n in old(st).procs && n in st.procs && CycleFree(ProcGraph(schema), n)
      ensures err.Ok? ==> st == WithProc(old(st), n, old(st).procs[n].(argIdx := st.procs[n].argIdx))
      ensures err.Ok? ==> Merged(schema, st, n, |schema[n].bases|) && Accepted(schema, st, n)
    {
      hide WellFormed, Inv, OwnIndexed, Merged, ProcGraph, OrderOk, Merging, Valued, ValuedWithin, RefusedAt, CycleFree,
           ClosureDeclared, ClosureReached, Inherit;
      ghost var st0 := st;
      MergingFacts(schema, st, n);
      MergedNone(schema, st, n);
      ValuedNone(schema, st, n);
      MergeGoesOn(schema, st, n, 0);
      var bases := schema[n].bases;
      var k := 0;
      while k < |bases|
        invariant 0 <= k <= |bases|
        invariant Valid() && Merging(schema, st, n) && n in st0.procs && n in st.procs
        invariant st == WithProc(st0, n, st0.procs[n].(argIdx := st.procs[n].argIdx))
        invariant Merged(schema, st, n, k) && Valued(schema, st.args, n, k, st.procs[n].argIdx)
        invariant forall j :: 0 <= j < k ==> !RefusedAt(schema, st0.entered, n, j)
      {
        MergeGoesOn(schema, st, n, k);
        MergingBase(schema, st, n, k);
        InheritValued(schema, st, n, k);
        ghost var before := st;
        InheritArgs(n, bases[k].proc);
        MergedOneMore(schema, before, n, k, st.procs[n].argIdx);
        StillMerging(schema, before, n, st.procs[n].argIdx);
        err := GiveValues(n, k);
        if !err.Ok? {
          return;
        }
        k := k + 1;
      }
      err := Ok;
    }

    /** Resolves the procs in the order the name index yields them, stopping at the first failure.  With
        none under way it gets through exactly when no circle and no refused value is met: both can be
        told from the declarations and the order. */
    method ResolveProcs(order: seq<Name>) returns (err: Err)
      requires Valid() && (forall n :: n in order ==> n in schema) && forall n :: !Pending(st, n)
      modifies this`st
      ensures err.Ok? <==>
                && (forall n :: n in order ==> CycleFree(ProcGraph(schema), n))
                && !SomeRefused(schema, VisitAll(schema, order, old(st).entered))
      ensures err.Circle? ==> exists n :: n in order && !CycleFree(ProcGraph(schema), n)
      ensures err.NotApproved? ==> SomeRefused(schema, VisitAll(schema, order, old(st).entered))
      ensures err.Ok? ==> Valid() && st.entered == VisitAll(schema, order, old(st).entered)
      ensures err.Ok? ==> forall n :: n in st.entered ==> Resolved(st, n)
    {
      hide WellFormed, Inv, Step, Blocked, CycleFree, ProcGraph, OrderOk, SomeRefused, VisitAll, Visit, Distinct;
      ghost var reached := st.entered;
      ReachedDistinct(schema, st);
      VisitNone(schema, reached);
      var i := 0;
      assert order[..i] == [];
      while i < |order|
        invariant 0 <= i <= |order|
        invariant Valid() && forall n :: !Pending(st, n)
        invariant st.entered == VisitAll(schema, order[..i], reached)
        invariant forall n :: n in order[..i] ==> Resolved(st, n)
      {
        KnownProcs(schema, st);
        VisitNext(schema, order, i, reached);
        if !st.procs[order[i]].isResolved {
          ghost var before := st;
          err := ResolveProc(order[i]);
          if !err.Ok? {
            if err.Circle? {
              BlockedIsCyclic(schema, before, order[i]);
            } else {
              RefusedInAll(schema, order, i, reached);
            }
            return;
          }
          StepDone(schema, before, st);
        } else {
          ResolvedWasReached(schema, st, order[i]);
        }
        i := i + 1;
      }
      assert order[..i] == order;
      forall n | n in order
        ensures CycleFree(ProcGraph(schema), n)
      {
        ResolvedIsCycleFree(schema, st, n);
      }
      NoneRefused(schema, st);
      err := Ok;
    }
  }

  // ---------------------------------------------------------------- a value refused while merging is under way

  /** Proc 0 derives from 1 and 2, which both declare argument 7; its first clause sets it. */
  function TwoBases(): (s: Schema)
    ensures s.Keys == {0, 1, 2}
    ensures s[0] == ProcDecl([], [Base(1, [ArgVar(7, 1)]), Base(2, [])])
    ensures s[1] == ProcDecl([7], []) && s[2] == ProcDecl([7], [])
  {
    map[0 := ProcDecl([], [Base(1, [ArgVar(7, 1)]), Base(2, [])]), 1 := ProcDecl([7], []), 2 := ProcDecl([7], [])]
  }

  lemma TwoBasesGraph()
    ensures WellFormed(TwoBases())
    ensures ProcGraph(TwoBases())[1] == {} && ProcGraph(TwoBases())[2] == {}
    ensures 1 in ProcGraph(TwoBases())[0] && 2 in ProcGraph(TwoBases())[0] && 0 !in ProcGraph(TwoBases())[0]
  {
    hide TwoBases;
    var s := TwoBases();
    assert forall i :: 0 <= i < |s[0].bases| ==> s[0].bases[i].proc == 1 || s[0].bases[i].proc == 2;
    assert s[0].bases[0].proc in BasesOf(s[0]) && s[0].bases[1].proc in BasesOf(s[0]);
  }

  lemma NothingReached(n: Name)
    requires n == 1 || n == 2
    ensures forall a :: !Reaches(ProcGraph(TwoBases()), n, a)
    ensures CycleFree(ProcGraph(TwoBases()), n)
  {
    hide TwoBases, ProcGraph;
    TwoBasesGraph();
    forall a | Reaches(ProcGraph(TwoBases()), n, a)
      ensures false
    {
      var b := ReachesFirstStep(ProcGraph(TwoBases()), n, a);
    }
  }

  lemma TwoBasesCycleFree()
    ensures CycleFree(ProcGraph(TwoBases()), 0)
  {
    hide TwoBases, ProcGraph, CycleFree, Reaches;
    var g := ProcGraph(TwoBases());
    TwoBasesGraph();
    NothingReached(1);
    NothingReached(2);
    forall b | b in g[0]
      ensures CycleFree(g, b)
    {
      TwoBasesEdge(b);
    }
    CycleFreeFromSuccessors(g, 0);
  }

  lemma TwoBasesEdge(b: Name)
    requires b in ProcGraph(TwoBases())[0]
    ensures b == 1 || b == 2
  {
    hide TwoBases;
    var s := TwoBases();
    assert forall i :: 0 <= i < |s[0].bases| ==> s[0].bases[i].proc == 1 || s[0].bases[i].proc == 2;
  }

  lemma TwoBasesOrder()
    ensures WellFormed(TwoBases()) && VisitAll(TwoBases(), [0], []) == [0, 1, 2]
  {
    hide TwoBases, ProcGraph, Visit, VisitBases, VisitAll;
    var s := TwoBases();
    TwoBasesGraph();
    VisitNext(s, [0], 0, []);
    VisitNone(s, []);
    assert [0][..1] == [0] && [0][..0] == [];
    VisitEntered(s, 0, []);
    VisitEntered(s, 0, [0]);
    VisitOneMore(s, 0, 0, [0]);
    VisitOneMore(s, 0, 1, [0]);
    VisitEntered(s, 1, [0]);
    VisitEntered(s, 1, [0, 1]);
    VisitEntered(s, 2, [0, 1]);
    VisitEntered(s, 2, [0, 1, 2]);
    assert [] + [0] == [0] && [0] + [1] == [0, 1] && [0, 1] + [2] == [0, 1, 2];
  }

  /** The argument of 2 is reached last, and does not come with the first base. */
  lemma TwoBasesRefused()
    ensures 0 in TwoBases() && Refused(TwoBases(), [0, 1, 2], 0) && ClosureReached(TwoBases(), [0, 1, 2], 0)
  {
    hide TwoBases, ProcGraph, Reaches;
    var s, reached := TwoBases(), [0, 1, 2];
    TwoBasesGraph();
    NothingReached(1);
    EdgeReaches(ProcGraph(s), 0, 2);
    assert Derives(s, 0, reached[2]) && Declares(s, reached[2], 7);
    forall i | 0 <= i < |reached| && Declares(s, reached[i], 7) && ComesWith(s, 0, 1, reached[i])
      ensures !LastOf(s, reached, 0, 7, i)
    {
      assert FromBases(s, 0, 1, reached[i]) ==> Derives(s, 1, reached[i]);
    }
    assert !Approved(s, reached, 0, 1, 7);
    assert s[0].bases[0].vars[0] in s[0].bases[0].vars;
    assert RefusedAt(s, reached, 0, 0);
    ReachesStaysInside(ProcGraph(s));
  }

  lemma TwoBasesSomeRefused()
    ensures SomeRefused(TwoBases(), [0, 1, 2])
  {
    hide TwoBases, Refused, ClosureReached;
    TwoBasesRefused();
    assert 0 in [0, 1, 2];
  }

  /** Loading the three procs refuses the value, although 0 does derive from a proc that declares it. */
  method SecondBaseHidesArg() returns (err: Err)
    ensures err == NotApproved
  {
    hide TwoBases, WellFormed, Inv, OrderOk, CycleFree, ProcGraph, SomeRefused, VisitAll;
    TwoBasesOrder();
    TwoBasesCycleFree();
    TwoBasesSomeRefused();
    var repo := new ProcRepo(TwoBases());
    assert forall n :: !Pending(repo.st, n);
    assert forall n :: n in [0] ==> n == 0;
    err := repo.ResolveProcs([0]);
  }
}
