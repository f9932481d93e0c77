/** What the index of a resolved proc holds, told from the declarations and the order in which loading
    reached the procs, without merging. */
module ProcMeaning {
  import opened Digraph
  import opened Options
  import opened ProcResolve
  import opened ProcMoves
  import opened ProcOrder

  /** A value and the proc whose base clause gives it. */
  datatype Given = Given(giver: Name, val: ArgVar)

  function OwnValues(n: Name, vars: seq<ArgVar>): (r: seq<Given>)
    ensures |r| == |vars| && forall i :: 0 <= i < |r| ==> r[i] == Given(n, vars[i])
  {
    seq(|vars|, i requires 0 <= i < |vars| => Given(n, vars[i]))
  }

  /** Every value n is given by its first k clauses, in order: clause by clause, first all that the base is
      given, over again for a base met twice, then the clause's own values. */
  ghost function Trace(s: Schema, n: Name, k: nat): seq<Given>
    requires WellFormed(s) && n in s && k <= |s[n].bases| && CycleFree(ProcGraph(s), n)
    decreases ReachSet(ProcGraph(s), n), k
  {
    if k == 0 then []
    else
      var b := s[n].bases[k - 1];
      BaseEdge(s, n, k - 1);
      ReachSetShrinks(ProcGraph(s), n, b.proc);
      Trace(s, n, k - 1) + Trace(s, b.proc, |s[b.proc].bases|) + OwnValues(n, b.vars)
  }

  /** Of all procs n derives from, itself included, that declare the name, m was reached last: a value
      that n gives goes to the argument of m. */
  ghost predicate GoesTo(s: Schema, reached: seq<Name>, n: Name, name: ArgName, m: Name) {
    exists i :: 0 <= i < |reached| && reached[i] == m && Declares(s, m, name) && Derives(s, n, m)
                && LastOf(s, reached, n, name, i)
  }

  /** The last value that goes to the argument of m of that name. */
  ghost function LastFor(s: Schema, reached: seq<Name>, trace: seq<Given>, m: Name, name: ArgName): Option<ArgVar> {
    if trace == [] then None
    else
      var last := trace[|trace| - 1];
      if last.val.name == name && GoesTo(s, reached, last.giver, name, m) then Some(last.val)
      else LastFor(s, reached, trace[..|trace| - 1], m, name)
  }

  lemma {:induction false} LastForConcat(s: Schema, reached: seq<Name>, v: seq<Given>, w: seq<Given>, m: Name, name: ArgName)
    ensures LastFor(s, reached, v + w, m, name)
            == var last := LastFor(s, reached, w, m, name); if last.Some? then last else LastFor(s, reached, v, m, name)
  {
    hide GoesTo;
    if w == [] {
      assert v + w == v;
    } else {
      assert (v + w)[..|v + w| - 1] == v + w[..|w| - 1];
      LastForConcat(s, reached, v, w[..|w| - 1], m, name);
    }
  }

  /** Of arguments that one proc declares under one name, the last. */
  ghost predicate LastOwn(args: Args, id: ArgId) {
    id in args && forall other :: other in args && args[other] == args[id] ==> other <= id
  }

  /** What argument id holds by a trace. */
  ghost function TraceValue(s: Schema, st: Store, trace: seq<Given>, id: ArgId): Option<ArgVar>
    requires id in st.args
  {
    if LastOwn(st.args, id) then LastFor(s, st.entered, trace, st.args[id].proc, st.args[id].name) else None
  }

  lemma NewestGoes(s: Schema, st: Store, n: Name, name: ArgName, id: ArgId)
    requires IdsFollow(st) && ClosureDeclared(s, st, n) && id in st.args
    ensures IsNewest(s, st.args, n, name, id)
       <==> st.args[id].name == name && LastOwn(st.args, id) && GoesTo(s, st.entered, n, name, st.args[id].proc)
  {
    hide Derives;
    var m := st.args[id].proc;
    if IsNewest(s, st.args, n, name, id) {
      assert Declared(s, st, m) && OwnedBy(st, id, m);
      var i :| 0 <= i < |st.entered| && st.entered[i] == m;
      NewestIsLastReached(s, st, n, name, id, i);
    }
    if st.args[id].name == name && LastOwn(st.args, id) && GoesTo(s, st.entered, n, name, m) {
      LastReachedIsNewest(s, st, n, id);
    }
  }

  lemma NewestIsLastReached(s: Schema, st: Store, n: Name, name: ArgName, id: ArgId, i: nat)
    requires IdsFollow(st) && ClosureDeclared(s, st, n) && IsNewest(s, st.args, n, name, id)
    requires i < |st.entered| && OwnedBy(st, id, st.entered[i])
    ensures LastOf(s, st.entered, n, name, i)
  {
    hide Derives;
    forall j | i < j < |st.entered| && Declares(s, st.entered[j], name)
      ensures !Derives(s, n, st.entered[j])
    {
    }
  }

  lemma LastReachedIsNewest(s: Schema, st: Store, n: Name, id: ArgId)
    requires IdsFollow(st) && ClosureDeclared(s, st, n) && LastOwn(st.args, id)
    requires GoesTo(s, st.entered, n, st.args[id].name, st.args[id].proc)
    ensures IsNewest(s, st.args, n, st.args[id].name, id)
  {
    hide Derives;
    var m, name := st.args[id].proc, st.args[id].name;
    var i :| 0 <= i < |st.entered| && st.entered[i] == m && LastOf(s, st.entered, n, name, i);
    forall other | other in st.args && st.args[other].name == name && Derives(s, n, st.args[other].proc)
      ensures other <= id
    {
      var x := st.args[other].proc;
      assert Declared(s, st, x) && OwnedBy(st, other, x) && OwnedBy(st, id, m);
      var j :| 0 <= j < |st.entered| && st.entered[j] == x;
      assert Declares(s, st.entered[j], name);
      if j == i {
        assert st.args[other] == st.args[id];
      }
    }
  }

  lemma {:induction false} LastGivenIsLast(s: Schema, st: Store, n: Name, vars: seq<ArgVar>, id: ArgId)
    requires IdsFollow(st) && ClosureDeclared(s, st, n) && id in st.args
    ensures LastGiven(s, st.args, n, vars, id) == TraceValue(s, st, OwnValues(n, vars), id)
  {
    hide IdsFollow, ClosureDeclared, GoesTo, IsNewest;
    if vars != [] {
      var last := vars[|vars| - 1];
      NewestGoes(s, st, n, last.name, id);
      LastGivenIsLast(s, st, n, vars[..|vars| - 1], id);
      assert OwnValues(n, vars)[..|vars| - 1] == OwnValues(n, vars[..|vars| - 1]);
    }
  }

  /** Through any depth of diamonds an argument holds the last value of the trace. */
  lemma {:induction false} ValueIsLast(s: Schema, st: Store, n: Name, k: nat, id: ArgId)
    requires WellFormed(s) && n in s && k <= |s[n].bases| && CycleFree(ProcGraph(s), n)
    requires IdsFollow(st) && ClosureDeclared(s, st, n) && id in st.args
    ensures ValueAt(s, st.args, n, k, id) == TraceValue(s, st, Trace(s, n, k), id)
    decreases ReachSet(ProcGraph(s), n), k
  {
    hide WellFormed, CycleFree, IdsFollow, ClosureDeclared, LastFor, LastGiven, LastOwn;
    if k == 0 {
      NothingGiven(s, st, id);
    } else {
      var b, vars := s[n].bases[k - 1].proc, s[n].bases[k - 1].vars;
      BaseEdge(s, n, k - 1);
      ReachSetShrinks(ProcGraph(s), n, b);
      DeclaredBelow(s, st, n, b);
      ValueIsLast(s, st, n, k - 1, id);
      ValueIsLast(s, st, b, |s[b].bases|, id);
      LastGivenIsLast(s, st, n, vars, id);
      var before, base := Trace(s, n, k - 1), Trace(s, b, |s[b].bases|);
      LastForConcat(s, st.entered, before, base, st.args[id].proc, st.args[id].name);
      LastForConcat(s, st.entered, before + base, OwnValues(n, vars), st.args[id].proc, st.args[id].name);
    }
  }

  lemma NothingGiven(s: Schema, st: Store, id: ArgId)
    requires id in st.args
    ensures TraceValue(s, st, [], id) == None
  {
  }

  lemma DeclaredBelow(s: Schema, st: Store, n: Name, b: Name)
    requires WellFormed(s) && n in s && b in ProcGraph(s)[n] && ClosureDeclared(s, st, n)
    ensures ClosureDeclared(s, st, b)
  {
    hide Derives, Declared;
    forall m | Derives(s, b, m)
      ensures m in s && m in st.entered && Declared(s, st, m)
    {
      DerivesThrough(s, n, b, m);
    }
  }

  /** The index of a resolved proc: the arguments of all it derives from, each with the last value on the
      trace that goes to it. */
  lemma ResolvedMeaning(s: Schema, st: Store, n: Name)
    requires WellFormed(s) && Inv(s, st) && OrderOk(s, st) && n in s && Resolved(st, n)
    ensures CycleFree(ProcGraph(s), n)
    ensures forall id :: id in st.procs[n].argIdx <==> id in st.args && Derives(s, n, st.args[id].proc)
    ensures forall id :: id in st.procs[n].argIdx ==>
              st.procs[n].argIdx[id] == TraceValue(s, st, Trace(s, n, |s[n].bases|), id)
  {
    hide WellFormed, CycleFree, Trace, TraceValue, Derives, Refused, IdsFollow;
    assert ProcOk(s, st, n);
    ResolvedReached(s, st, n);
    ResolvedDeclares(s, st, n);
    forall id | id in st.procs[n].argIdx
      ensures st.procs[n].argIdx[id] == TraceValue(s, st, Trace(s, n, |s[n].bases|), id)
    {
      ValueIsLast(s, st, n, |s[n].bases|, id);
    }
  }

  lemma ResolvedDeclares(s: Schema, st: Store, n: Name)
    requires WellFormed(s) && Inv(s, st) && OrderOk(s, st) && n in s && Resolved(st, n)
    ensures ClosureDeclared(s, st, n)
  {
    hide WellFormed, CycleFree, Derives, Declared, Accepted;
    ResolvedReached(s, st, n);
    forall m | Derives(s, n, m)
      ensures m in s && m in st.entered && Declared(s, st, m)
    {
      DerivedResolved(s, st, n, m);
      assert ProcOk(s, st, m);
    }
  }
}
