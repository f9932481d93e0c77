/** The order in which loading reaches procs, and what it decides: which values are accepted, and what
    the index of a proc holds. */
module ProcOrder {
  import opened Digraph
  import opened Options
  import opened ProcResolve
  import opened ProcMoves

  // ---------------------------------------------------------------- the order, from the declarations

  ghost function Unseen(s: Schema, seen: seq<Name>): set<Name> {
    set n | n in s && n !in seen
  }

  /** n, unless it was reached before, and then its bases in turn. */
  ghost function Visit(s: Schema, n: Name, seen: seq<Name>): (r: seq<Name>)
    requires WellFormed(s) && n in s
    ensures seen <= r && n in r
    decreases Unseen(s, seen), 0, 0
  {
    if n in seen then seen
    else
      assert n in Unseen(s, seen) && n !in Unseen(s, seen + [n]);
      VisitBases(s, n, |s[n].bases|, seen + [n])
  }

  ghost function VisitBases(s: Schema, n: Name, k: nat, seen: seq<Name>): (r: seq<Name>)
    requires WellFormed(s) && n in s && k <= |s[n].bases|
    ensures seen <= r
    decreases Unseen(s, seen), 1, k
  {
    if k == 0 then seen
    else
      BaseEdge(s, n, k - 1);
      var before := VisitBases(s, n, k - 1, seen);
      assert Unseen(s, before) <= Unseen(s, seen);
      Visit(s, s[n].bases[k - 1].proc, before)
  }

  ghost function VisitAll(s: Schema, order: seq<Name>, seen: seq<Name>): (r: seq<Name>)
    requires WellFormed(s) && forall n :: n in order ==> n in s
    ensures seen <= r
  {
    if order == [] then seen
    else Visit(s, order[|order| - 1], VisitAll(s, order[..|order| - 1], seen))
  }

  ghost predicate Distinct(seen: seq<Name>) {
    forall i, j :: 0 <= i < j < |seen| ==> seen[i] != seen[j]
  }

  lemma {:induction false} VisitDistinct(s: Schema, n: Name, seen: seq<Name>)
    requires WellFormed(s) && n in s && Distinct(seen)
    ensures Distinct(Visit(s, n, seen))
    decreases Unseen(s, seen), 0, 0
  {
    if n !in seen {
      assert n in Unseen(s, seen) && n !in Unseen(s, seen + [n]);
      VisitBasesDistinct(s, n, |s[n].bases|, seen + [n]);
    }
  }

  lemma VisitBasesDistinct(s: Schema, n: Name, k: nat, seen: seq<Name>)
    requires WellFormed(s) && n in s && k <= |s[n].bases| && Distinct(seen)
    ensures Distinct(VisitBases(s, n, k, seen))
    decreases Unseen(s, seen), 1, k
  {
    if k > 0 {
      BaseEdge(s, n, k - 1);
      var before := VisitBases(s, n, k - 1, seen);
      VisitBasesDistinct(s, n, k - 1, seen);
      assert Unseen(s, before) <= Unseen(s, seen);
      VisitDistinct(s, s[n].bases[k - 1].proc, before);
    }
  }

  lemma {:induction false} VisitAllDistinct(s: Schema, order: seq<Name>, seen: seq<Name>)
    requires WellFormed(s) && (forall n :: n in order ==> n in s) && Distinct(seen)
    ensures Distinct(VisitAll(s, order, seen))
  {
    if order != [] {
      VisitAllDistinct(s, order[..|order| - 1], seen);
      VisitDistinct(s, order[|order| - 1], VisitAll(s, order[..|order| - 1], seen));
    }
  }

  /** What was reached stays where it is. */
  lemma {:induction false} VisitBasesGrows(s: Schema, n: Name, k: nat, m: nat, seen: seq<Name>)
    requires WellFormed(s) && n in s && k <= m <= |s[n].bases|
    ensures VisitBases(s, n, k, seen) <= VisitBases(s, n, m, seen)
    decreases m
  {
    if k < m {
      VisitBasesGrows(s, n, k, m - 1, seen);
      BaseEdge(s, n, m - 1);
    }
  }

  lemma {:induction false} VisitAllGrows(s: Schema, order: seq<Name>, i: nat, seen: seq<Name>)
    requires WellFormed(s) && (forall n :: n in order ==> n in s) && i <= |order|
    ensures forall n :: n in order[..i] ==> n in s
    ensures VisitAll(s, order[..i], seen) <= VisitAll(s, order, seen)
    decreases |order|
  {
    if i == |order| {
      assert order[..i] == order;
    } else {
      var shorter := order[..|order| - 1];
      VisitAllGrows(s, shorter, i, seen);
      assert shorter[..i] == order[..i];
    }
  }

  // ---------------------------------------------------------------- which values are accepted

  predicate Declares(s: Schema, m: Name, name: ArgName) {
    m in s && name in s[m].args
  }

  /** m is n or comes with the first k bases of n. */
  ghost predicate ComesWith(s: Schema, n: Name, k: nat, m: Name)
    requires n in s && k <= |s[n].bases|
  {
    m == n || FromBases(s, n, k, m)
  }

  /** Of all procs n derives from, itself included, that declare the name, the one reached last comes
      with the first k bases. */
  ghost predicate Approved(s: Schema, reached: seq<Name>, n: Name, k: nat, name: ArgName)
    requires n in s && k <= |s[n].bases|
  {
    exists i :: 0 <= i < |reached| && Declares(s, reached[i], name) && ComesWith(s, n, k, reached[i])
                && LastOf(s, reached, n, name, i)
  }

  ghost predicate LastOf(s: Schema, reached: seq<Name>, n: Name, name: ArgName, i: nat) {
    forall j :: i < j < |reached| && Declares(s, reached[j], name) ==> !Derives(s, n, reached[j])
  }

  /** Clause k of n gives a value that is not accepted. */
  ghost predicate RefusedAt(s: Schema, reached: seq<Name>, n: Name, k: nat)
    requires n in s && k < |s[n].bases|
  {
    exists v :: v in s[n].bases[k].vars && !Approved(s, reached, n, k + 1, v.name)
  }

  ghost predicate Refused(s: Schema, reached: seq<Name>, n: Name)
    requires n in s
  {
    exists k :: 0 <= k < |s[n].bases| && RefusedAt(s, reached, n, k)
  }

  /** Everything n derives from has been reached. */
  ghost predicate ClosureReached(s: Schema, reached: seq<Name>, n: Name) {
    forall m :: Derives(s, n, m) ==> m in reached
  }

  lemma ComesWithDerives(s: Schema, n: Name, k: nat, m: Name)
    requires WellFormed(s) && n in s && k <= |s[n].bases| && ComesWith(s, n, k, m)
    ensures Derives(s, n, m)
  {
    if m != n {
      var j :| 0 <= j < k && Derives(s, s[n].bases[j].proc, m);
      BaseEdge(s, n, j);
      EdgeReaches(ProcGraph(s), n, s[n].bases[j].proc);
      if m != s[n].bases[j].proc {
        ReachesTransitive(ProcGraph(s), n, s[n].bases[j].proc, m);
      }
    }
  }

  lemma EarlyPosition(reached: seq<Name>, more: seq<Name>, i: nat)
    requires reached <= more && Distinct(more) && i < |more| && more[i] in reached
    ensures i < |reached| && reached[i] == more[i]
  {
    var j :| 0 <= j < |reached| && reached[j] == more[i];
    assert more[j] == more[i];
  }

  /** Reaching more procs changes nothing for one whose closure was reached. */
  lemma ApprovedStable(s: Schema, reached: seq<Name>, more: seq<Name>, n: Name, k: nat, name: ArgName)
    requires WellFormed(s) && n in s && k <= |s[n].bases|
    requires reached <= more && Distinct(more) && ClosureReached(s, reached, n)
    ensures Approved(s, reached, n, k, name) <==> Approved(s, more, n, k, name)
  {
    hide WellFormed, Derives, FromBases;
    if i :| 0 <= i < |more| && Declares(s, more[i], name) && ComesWith(s, n, k, more[i]) && LastOf(s, more, n, name, i) {
      ComesWithDerives(s, n, k, more[i]);
      EarlyPosition(reached, more, i);
      assert reached[i] == more[i] && LastOf(s, reached, n, name, i);
    }
    if i :| 0 <= i < |reached| && Declares(s, reached[i], name) && ComesWith(s, n, k, reached[i])
            && LastOf(s, reached, n, name, i) {
      forall j | i < j < |more| && Declares(s, more[j], name)
        ensures !Derives(s, n, more[j])
      {
        if more[j] in reached {
          EarlyPosition(reached, more, j);
        }
      }
      assert more[i] == reached[i] && LastOf(s, more, n, name, i);
    }
  }

  lemma RefusedStable(s: Schema, reached: seq<Name>, more: seq<Name>, n: Name)
    requires WellFormed(s) && n in s && reached <= more && Distinct(more) && ClosureReached(s, reached, n)
    ensures Refused(s, reached, n) <==> Refused(s, more, n)
  {
    hide WellFormed, Approved, ClosureReached, Distinct;
    forall k | 0 <= k < |s[n].bases|
      ensures RefusedAt(s, reached, n, k) <==> RefusedAt(s, more, n, k)
    {
      forall v | v in s[n].bases[k].vars
        ensures Approved(s, reached, n, k + 1, v.name) <==> Approved(s, more, n, k + 1, v.name)
      {
        ApprovedStable(s, reached, more, n, k + 1, v.name);
      }
    }
  }

  /** Some proc reached has a value refused. */
  ghost predicate SomeRefused(s: Schema, reached: seq<Name>) {
    exists m :: m in reached && m in s && ClosureReached(s, reached, m) && Refused(s, reached, m)
  }

  lemma SomeRefusedStable(s: Schema, reached: seq<Name>, more: seq<Name>)
    requires WellFormed(s) && reached <= more && Distinct(more) && SomeRefused(s, reached)
    ensures SomeRefused(s, more)
  {
    hide WellFormed, Refused, Derives;
    var m :| m in reached && m in s && ClosureReached(s, reached, m) && Refused(s, reached, m);
    RefusedStable(s, reached, more, m);
    assert ClosureReached(s, more, m);
  }

  // ---------------------------------------------------------------- the same, by ids

  type Args = map<ArgId, Arg>

  /** id is the newest argument of the name among those of n and the procs it derives from. */
  ghost predicate IsNewest(s: Schema, args: Args, n: Name, name: ArgName, id: ArgId) {
    && id in args && args[id].name == name && Derives(s, n, args[id].proc)
    && forall other :: other in args && args[other].name == name && Derives(s, n, args[other].proc) ==> other <= id
  }

  ghost predicate Descending(chain: seq<ArgId>) {
    forall i, j :: 0 <= i < j < |chain| ==> chain[i] > chain[j]
  }

  ghost predicate ChainsDescend(st: Store) {
    forall name :: name in st.chains ==> Descending(st.chains[name])
  }

  /** On a falling chain the first match is the newest. */
  lemma {:induction false} FirstMatchNewest(st: Store, chain: seq<ArgId>, n: Name)
    requires n in st.procs && chain != [] && (forall id :: id in chain ==> id in st.args) && Descending(chain)
    ensures var r := FirstMatch(st, chain, n);
            forall id :: id in chain && (st.args[id].proc == n || st.args[id].proc in st.procs[n].ancestors) ==> id <= r
  {
    var owner := st.args[chain[0]].proc;
    if |chain| == 1 || owner == n || owner in st.procs[n].ancestors {
      assert forall id :: id in chain ==> id <= chain[0];
    } else {
      FirstMatchNewest(st, chain[1..], n);
    }
  }

  /** With all bases linked the lookup finds an argument exactly when the index has the newest one of the
      name: however far the merging has got. */
  lemma LookupNewest(s: Schema, st: Store, n: Name, name: ArgName)
    requires Inv(s, st) && ChainsDescend(st) && n in s
    requires forall a :: a in st.procs[n].ancestors <==> Reaches(ProcGraph(s), n, a)
    requires forall id :: id in st.procs[n].argIdx ==> id in st.args && Derives(s, n, st.args[id].proc)
    ensures var r := GetArg(st, n, name);
            && (r.Some? ==> IsNewest(s, st.args, n, name, r.value) && r.value in st.procs[n].argIdx)
            && (r.Some? <==> exists id :: id in st.procs[n].argIdx && IsNewest(s, st.args, n, name, id))
  {
    hide ProcOk, Reaches, FirstMatch;
    assert ChainsOk(s, st);
    if name in st.chains && st.chains[name] != [] {
      var chain := st.chains[name];
      FirstMatchNewest(st, chain, n);
      if id :| id in st.procs[n].argIdx && IsNewest(s, st.args, n, name, id) {
        FirstMatchOwner(st, chain, n, id);
      }
    }
  }

  // ---------------------------------------------------------------- what the index of a proc holds

  /** The last value of a clause that goes to argument id: each goes to the newest of its name. */
  ghost function LastGiven(s: Schema, args: Args, n: Name, vars: seq<ArgVar>, id: ArgId): Option<ArgVar> {
    if vars == [] then None
    else if IsNewest(s, args, n, vars[|vars| - 1].name, id) then Some(vars[|vars| - 1])
    else LastGiven(s, args, n, vars[..|vars| - 1], id)
  }

  /** The value of argument id in n after its first k base clauses: the last one given, clause by clause,
      first what the base holds, then the clause's own values. */
  ghost function ValueAt(s: Schema, args: Args, n: Name, k: nat, id: ArgId): Option<ArgVar>
    requires WellFormed(s) && n in s && k <= |s[n].bases| && CycleFree(ProcGraph(s), n)
    decreases ReachSet(ProcGraph(s), n), k, 1
  {
    if k == 0 then None
    else
      var own := LastGiven(s, args, n, s[n].bases[k - 1].vars, id);
      if own.Some? then own else BaseValueAt(s, args, n, k - 1, id)
  }

  /** The same before the own values of clause k. */
  ghost function BaseValueAt(s: Schema, args: Args, n: Name, k: nat, id: ArgId): Option<ArgVar>
    requires WellFormed(s) && n in s && k < |s[n].bases| && CycleFree(ProcGraph(s), n)
    decreases ReachSet(ProcGraph(s), n), k + 1, 0
  {
    var b := s[n].bases[k].proc;
    BaseEdge(s, n, k);
    ReachSetShrinks(ProcGraph(s), n, b);
    var up := ValueAt(s, args, b, |s[b].bases|, id);
    if up.Some? then up else ValueAt(s, args, n, k, id)
  }

  ghost predicate Valued(s: Schema, args: Args, n: Name, k: nat, idx: map<ArgId, Option<ArgVar>>)
    requires WellFormed(s) && n in s && k <= |s[n].bases| && CycleFree(ProcGraph(s), n)
  {
    forall id :: id in idx ==> idx[id] == ValueAt(s, args, n, k, id)
  }

  /** Merging is under way in clause k: the base is merged, and i of the own values are set. */
  ghost predicate ValuedWithin(s: Schema, args: Args, n: Name, k: nat, i: nat, idx: map<ArgId, Option<ArgVar>>)
    requires WellFormed(s) && n in s && k < |s[n].bases| && CycleFree(ProcGraph(s), n)
    requires i <= |s[n].bases[k].vars|
  {
    forall id :: id in idx ==>
      idx[id] == var own := LastGiven(s, args, n, s[n].bases[k].vars[..i], id);
                 if own.Some? then own else BaseValueAt(s, args, n, k, id)
  }

  /** The arguments n can draw on are the same in both tables. */
  ghost predicate SameClosure(s: Schema, args: Args, args': Args, n: Name) {
    && (forall id :: id in args && Derives(s, n, args[id].proc) ==> id in args' && args'[id] == args[id])
    && (forall id :: id in args' && Derives(s, n, args'[id].proc) ==> id in args && args'[id] == args[id])
  }

  lemma DerivesThrough(s: Schema, n: Name, b: Name, m: Name)
    requires WellFormed(s) && n in s && b in ProcGraph(s)[n] && Derives(s, b, m)
    ensures Derives(s, n, m)
  {
    EdgeReaches(ProcGraph(s), n, b);
    if m != b {
      ReachesTransitive(ProcGraph(s), n, b, m);
    }
  }

  lemma NewestStable(s: Schema, args: Args, args': Args, n: Name, name: ArgName, id: ArgId)
    requires SameClosure(s, args, args', n)
    ensures IsNewest(s, args, n, name, id) <==> IsNewest(s, args', n, name, id)
  {
    hide Derives;
    if IsNewest(s, args, n, name, id) {
      forall other | other in args' && args'[other].name == name && Derives(s, n, args'[other].proc)
        ensures other <= id
      {
        assert other in args && args'[other] == args[other];
      }
    }
    if IsNewest(s, args', n, name, id) {
      assert id in args;
    }
  }

  lemma {:induction false} GivenStable(s: Schema, args: Args, args': Args, n: Name, vars: seq<ArgVar>, id: ArgId)
    requires SameClosure(s, args, args', n)
    ensures LastGiven(s, args, n, vars, id) == LastGiven(s, args', n, vars, id)
  {
    hide SameClosure, IsNewest;
    if vars != [] {
      NewestStable(s, args, args', n, vars[|vars| - 1].name, id);
      GivenStable(s, args, args', n, vars[..|vars| - 1], id);
    }
  }

  lemma {:induction false} ValueStable(s: Schema, args: Args, args': Args, n: Name, k: nat, id: ArgId)
    requires WellFormed(s) && n in s && k <= |s[n].bases| && CycleFree(ProcGraph(s), n)
    requires SameClosure(s, args, args', n)
    ensures ValueAt(s, args, n, k, id) == ValueAt(s, args', n, k, id)
    decreases ReachSet(ProcGraph(s), n), k
  {
    hide WellFormed, CycleFree, SameClosure, LastGiven;
    if k > 0 {
      var b := s[n].bases[k - 1].proc;
      BaseEdge(s, n, k - 1);
      ReachSetShrinks(ProcGraph(s), n, b);
      SameClosureBelow(s, args, args', n, b);
      GivenStable(s, args, args', n, s[n].bases[k - 1].vars, id);
      ValueStable(s, args, args', b, |s[b].bases|, id);
      ValueStable(s, args, args', n, k - 1, id);
    }
  }

  lemma SameClosureBelow(s: Schema, args: Args, args': Args, n: Name, b: Name)
    requires WellFormed(s) && n in s && b in ProcGraph(s)[n] && SameClosure(s, args, args', n)
    ensures SameClosure(s, args, args', b)
  {
    hide WellFormed, Derives;
    forall id | id in args && Derives(s, b, args[id].proc)
      ensures id in args' && args'[id] == args[id]
    {
      DerivesThrough(s, n, b, args[id].proc);
    }
    forall id | id in args' && Derives(s, b, args'[id].proc)
      ensures id in args && args'[id] == args[id]
    {
      DerivesThrough(s, n, b, args'[id].proc);
    }
  }

  /** Only arguments n can draw on have a value in it. */
  lemma {:induction false} ValueDerives(s: Schema, args: Args, n: Name, k: nat, id: ArgId)
    requires WellFormed(s) && n in s && k <= |s[n].bases| && CycleFree(ProcGraph(s), n)
    requires ValueAt(s, args, n, k, id).Some?
    ensures id in args && Derives(s, n, args[id].proc)
    decreases ReachSet(ProcGraph(s), n), k
  {
    hide WellFormed, CycleFree, Derives;
    var b := s[n].bases[k - 1].proc;
    BaseEdge(s, n, k - 1);
    ReachSetShrinks(ProcGraph(s), n, b);
    if LastGiven(s, args, n, s[n].bases[k - 1].vars, id).Some? {
      GivenIsNewest(s, args, n, s[n].bases[k - 1].vars, id);
    } else if ValueAt(s, args, b, |s[b].bases|, id).Some? {
      ValueDerives(s, args, b, |s[b].bases|, id);
      DerivesThrough(s, n, b, args[id].proc);
    } else {
      ValueDerives(s, args, n, k - 1, id);
    }
  }

  lemma {:induction false} GivenIsNewest(s: Schema, args: Args, n: Name, vars: seq<ArgVar>, id: ArgId)
    requires LastGiven(s, args, n, vars, id).Some?
    ensures exists v :: v in vars && IsNewest(s, args, n, v.name, id)
  {
    var last := vars[|vars| - 1];
    if !IsNewest(s, args, n, last.name, id) {
      GivenIsNewest(s, args, n, vars[..|vars| - 1], id);
    }
  }

  // ---------------------------------------------------------------- the invariant

  /** Ids follow the order in which procs were reached. */
  ghost predicate IdsFollow(st: Store) {
    forall i, j, id, other ::
      0 <= i < j < |st.entered| && OwnedBy(st, id, st.entered[i]) && OwnedBy(st, other, st.entered[j]) ==> id < other
  }

  /** All values of n were accepted, and its index holds what they make. */
  ghost predicate Accepted(s: Schema, st: Store, n: Name)
    requires WellFormed(s) && n in s && n in st.procs && CycleFree(ProcGraph(s), n)
  {
    !Refused(s, st.entered, n) && Valued(s, st.args, n, |s[n].bases|, st.procs[n].argIdx)
  }

  ghost predicate OrderOk(s: Schema, st: Store)
    requires WellFormed(s) && Inv(s, st)
  {
    && Distinct(st.entered)
    && (forall n :: n in st.entered <==> Begun(st, n))
    && IdsFollow(st)
    && ChainsDescend(st)
    && (forall n :: n in s && Resolved(st, n) ==> CycleFree(ProcGraph(s), n) && Accepted(s, st, n))
  }

  /** All n derives from has its arguments registered: it is resolved, or n itself. */
  ghost predicate ClosureDeclared(s: Schema, st: Store, n: Name) {
    forall m :: Derives(s, n, m) ==> m in s && m in st.entered && Declared(s, st, m)
  }

  /** The newest argument of a name belongs to the proc reached last. */
  lemma NewestIsLast(s: Schema, st: Store, n: Name, k: nat, name: ArgName)
    requires WellFormed(s) && n in s && k <= |s[n].bases| && Distinct(st.entered) && IdsFollow(st)
    requires ClosureDeclared(s, st, n)
    ensures Approved(s, st.entered, n, k, name)
       <==> exists id :: IsNewest(s, st.args, n, name, id) && ComesWith(s, n, k, st.args[id].proc)
  {
    hide WellFormed, Derives, FromBases, ComesWith, Distinct;
    if id :| IsNewest(s, st.args, n, name, id) && ComesWith(s, n, k, st.args[id].proc) {
      NewestApproves(s, st, n, k, name, id);
    }
    if i :| 0 <= i < |st.entered| && Declares(s, st.entered[i], name) && ComesWith(s, n, k, st.entered[i])
            && LastOf(s, st.entered, n, name, i) {
      var id := ApprovedHasNewest(s, st, n, k, name, i);
    }
  }

  lemma NewestApproves(s: Schema, st: Store, n: Name, k: nat, name: ArgName, id: ArgId)
    requires WellFormed(s) && n in s && k <= |s[n].bases| && IdsFollow(st)
    requires ClosureDeclared(s, st, n)
    requires IsNewest(s, st.args, n, name, id) && ComesWith(s, n, k, st.args[id].proc)
    ensures Approved(s, st.entered, n, k, name)
  {
    hide WellFormed, Derives, ComesWith;
    var m := st.args[id].proc;
    assert Declared(s, st, m) && OwnedBy(st, id, m);
    var i :| 0 <= i < |st.entered| && st.entered[i] == m;
    forall j | i < j < |st.entered| && Declares(s, st.entered[j], name)
      ensures !Derives(s, n, st.entered[j])
    {
    }
    assert LastOf(s, st.entered, n, name, i);
  }

  lemma ApprovedHasNewest(s: Schema, st: Store, n: Name, k: nat, name: ArgName, i: nat) returns (id: ArgId)
    requires WellFormed(s) && n in s && k <= |s[n].bases| && IdsFollow(st)
    requires ClosureDeclared(s, st, n)
    requires i < |st.entered| && Declares(s, st.entered[i], name) && ComesWith(s, n, k, st.entered[i])
    requires LastOf(s, st.entered, n, name, i)
    ensures IsNewest(s, st.args, n, name, id) && ComesWith(s, n, k, st.args[id].proc)
  {
    hide WellFormed, Derives;
    ComesWithDerives(s, n, k, st.entered[i]);
    hide ComesWith;
    assert Declared(s, st, st.entered[i]);
    var some :| OwnedBy(st, some, st.entered[i]) && st.args[some].name == name;
    var mine := set x | x in st.args && st.args[x].name == name && st.args[x].proc == st.entered[i];
    assert some in mine;
    id := Greatest(mine);
    forall other | other in st.args && st.args[other].name == name && Derives(s, n, st.args[other].proc)
      ensures other <= id
    {
      var x := st.args[other].proc;
      assert Declared(s, st, x) && OwnedBy(st, other, x) && OwnedBy(st, id, st.entered[i]);
      var j :| 0 <= j < |st.entered| && st.entered[j] == x;
      assert Declares(s, st.entered[j], name);
      if j == i {
        assert other in mine;
      }
    }
  }

  lemma Greatest(ids: set<ArgId>) returns (id: ArgId)
    requires ids != {}
    ensures id in ids && forall x :: x in ids ==> x <= id
  {
    id :| id in ids;
    if ids != {id} {
      var least := id;
      var rest := Greatest(ids - {least});
      id := if rest > least then rest else least;
      assert forall x :: x in ids ==> x == least || x in ids - {least};
    } else {
      assert forall x :: x in ids ==> x in {id};
    }
  }

  // ---------------------------------------------------------------- every move keeps it

  lemma ResolvedReached(s: Schema, st: Store, n: Name)
    requires WellFormed(s) && Inv(s, st) && OrderOk(s, st) && n in s && Resolved(st, n)
    ensures ClosureReached(s, st.entered, n) && CycleFree(ProcGraph(s), n) && Accepted(s, st, n)
  {
    hide WellFormed, Derives, Accepted, CycleFree;
    BegunIfResolved(s, st);
    forall m | Derives(s, n, m)
      ensures m in st.entered
    {
      DerivedResolved(s, st, n, m);
    }
  }

  lemma EnterOrder(s: Schema, st: Store, n: Name)
    requires WellFormed(s) && Inv(s, st) && OrderOk(s, st) && n in s && !Begun(st, n)
    ensures n in st.procs && Inv(s, Entered(st, n)) && OrderOk(s, Entered(st, n))
  {
    hide WellFormed, CycleFree, Refused, Valued, ClosureReached, Inv;
    Enters(s, st, n);
    KnownProcs(s, st);
    var st' := Entered(st, n);
    EnterIds(s, st, n);
    assert Distinct(st'.entered);
    forall m | m in s && Resolved(st', m)
      ensures CycleFree(ProcGraph(s), m) && Accepted(s, st', m)
    {
      assert Resolved(st, m) && m != n;
      ResolvedReached(s, st, m);
      RefusedStable(s, st.entered, st'.entered, m);
    }
  }

  lemma EnterIds(s: Schema, st: Store, n: Name)
    requires Inv(s, st) && IdsFollow(st) && n in s && !Begun(st, n)
    ensures n in st.procs && IdsFollow(Entered(st, n))
  {
    assert ProcOk(s, st, n);
    var st' := Entered(st, n);
    assert forall id, m :: OwnedBy(st', id, m) <==> OwnedBy(st, id, m);
  }

  lemma RegisterOrder(s: Schema, st: Store, n: Name, name: ArgName)
    requires WellFormed(s) && Inv(s, st) && OrderOk(s, st) && n in s && Pending(st, n)
    requires st.entered != [] && st.entered[|st.entered| - 1] == n
    ensures Inv(s, Registered(st, n, name)) && OrderOk(s, Registered(st, n, name))
  {
    hide WellFormed, CycleFree, Refused, Inv, Distinct, IdsFollow, ChainsDescend, Accepted;
    RegisteredInv(s, st, n, name);
    KnownProcs(s, st);
    var st' := Registered(st, n, name);
    RegisterIds(s, st, n, name);
    forall m | m in s && Resolved(st', m)
      ensures CycleFree(ProcGraph(s), m) && Accepted(s, st', m)
    {
      assert Resolved(st, m) && m != n;
      RegisterAccepted(s, st, n, name, m);
    }
  }

  lemma RegisterIds(s: Schema, st: Store, n: Name, name: ArgName)
    requires Inv(s, st) && IdsFollow(st) && ChainsDescend(st) && Distinct(st.entered) && n in s
    requires st.entered != [] && st.entered[|st.entered| - 1] == n
    ensures n in st.procs && IdsFollow(Registered(st, n, name)) && ChainsDescend(Registered(st, n, name))
  {
    hide ProcOk;
    var st', id0 := Registered(st, n, name), st.lastId + 1;
    assert forall id: ArgId, m: Name :: OwnedBy(st', id, m) <==> OwnedBy(st, id, m) || (id == id0 && m == n);
    assert forall id: ArgId, m: Name :: OwnedBy(st, id, m) ==> id < id0;
    forall x | x in st'.chains
      ensures Descending(st'.chains[x])
    {
      if x == name && x in st.chains {
        assert Descending(st.chains[x]);
        forall i | 0 <= i < |st.chains[x]|
          ensures st.chains[x][i] < id0
        {
          var id := st.chains[x][i];
          assert id in st.chains[x] && OwnedBy(st, id, st.args[id].proc);
        }
      }
    }
  }

  lemma RegisterAccepted(s: Schema, st: Store, n: Name, name: ArgName, m: Name)
    requires WellFormed(s) && Inv(s, st) && OrderOk(s, st) && n in s && Pending(st, n) && m in s && Resolved(st, m)
    ensures n in st.procs && m in st.procs && CycleFree(ProcGraph(s), m) && Accepted(s, Registered(st, n, name), m)
  {
    hide WellFormed, CycleFree, Refused, Derives, Distinct, IdsFollow, ChainsDescend;
    var st' := Registered(st, n, name);
    KnownProcs(s, st);
    FreshId(s, st, m);
    if Derives(s, m, n) {
      DerivedResolved(s, st, m, n);
    }
    assert SameClosure(s, st.args, st'.args, m);
    forall id
      ensures ValueAt(s, st'.args, m, |s[m].bases|, id) == ValueAt(s, st.args, m, |s[m].bases|, id)
    {
      ValueStable(s, st.args, st'.args, m, |s[m].bases|, id);
    }
  }

  /** A proc under way may change without harm. */
  lemma PendingOrder(s: Schema, st: Store, n: Name, p: Proc)
    requires WellFormed(s) && Inv(s, st) && OrderOk(s, st) && n in s && Pending(st, n)
    requires p.resolvingInProgress && !p.isResolved
    ensures Inv(s, WithProc(st, n, p)) && OrderOk(s, WithProc(st, n, p))
  {
    hide WellFormed, CycleFree, Refused, Distinct, Inv, Valued;
    PendingChanged(s, st, n, p);
    var st' := WithProc(st, n, p);
    assert forall id, m :: OwnedBy(st', id, m) <==> OwnedBy(st, id, m);
  }

  /** A proc with all bases linked and merged is done. */
  lemma FinishOrder(s: Schema, st: Store, n: Name)
    requires WellFormed(s) && Inv(s, st) && OrderOk(s, st) && n in s && Pending(st, n)
    requires Inv(s, WithProc(st, n, st.procs[n].(isResolved := true)))
    requires CycleFree(ProcGraph(s), n) && Accepted(s, st, n)
    ensures OrderOk(s, WithProc(st, n, st.procs[n].(isResolved := true)))
  {
    hide WellFormed, CycleFree, Refused, Distinct, Inv, Valued;
    var st' := WithProc(st, n, st.procs[n].(isResolved := true));
    assert forall id, m :: OwnedBy(st', id, m) <==> OwnedBy(st, id, m);
  }

  // ---------------------------------------------------------------- merging

  /** n is under way and all its bases are linked. */
  ghost predicate Merging(s: Schema, st: Store, n: Name)
    requires WellFormed(s) && n in s
  {
    Inv(s, st) && OrderOk(s, st) && Pending(st, n) && Linked(s, st, n, |s[n].bases|) && Declared(s, st, n)
  }

  lemma MergingFacts(s: Schema, st: Store, n: Name)
    requires WellFormed(s) && n in s && Merging(s, st, n)
    ensures n in st.procs && CycleFree(ProcGraph(s), n)
    ensures ClosureDeclared(s, st, n) && ClosureReached(s, st.entered, n)
    ensures forall a :: a in st.procs[n].ancestors <==> Reaches(ProcGraph(s), n, a)
  {
    hide WellFormed, CycleFree, Reaches, IdsFollow, ChainsDescend, Accepted, Distinct, FromBases;
    LinkedAll(s, st, n);
    BegunIfResolved(s, st);
    forall m | Derives(s, n, m)
      ensures m in s && m in st.entered && Declared(s, st, m)
    {
      if m != n {
        var b := ReachesFirstStep(ProcGraph(s), n, m);
        DerivedResolved(s, st, b, m);
        assert ProcOk(s, st, m);
      }
    }
  }

  /** While k bases are merged, the lookup finds an argument exactly when the declarations and the order
      approve of the name. */
  lemma LookupApproved(s: Schema, st: Store, n: Name, k: nat, name: ArgName)
    requires WellFormed(s) && n in s && k <= |s[n].bases| && Merging(s, st, n) && Merged(s, st, n, k)
    ensures n in st.procs
    ensures name in st.chains ==> forall id :: id in st.chains[name] ==> id in st.args
    ensures var r := GetArg(st, n, name);
            && (r.Some? <==> Approved(s, st.entered, n, k, name))
            && (r.Some? ==> IsNewest(s, st.args, n, name, r.value) && r.value in st.procs[n].argIdx)
  {
    hide WellFormed, CycleFree, Reaches, IdsFollow, Accepted, Distinct, FromBases, GetArg, Approved, IsNewest,
         ProcOk, Linked, ClosureDeclared, Declared, ChainsDescend;
    MergingFacts(s, st, n);
    KnownProcs(s, st);
    forall id | id in st.procs[n].argIdx
      ensures id in st.args && Derives(s, n, st.args[id].proc)
    {
      ComesWithDerives(s, n, k, st.args[id].proc);
    }
    LookupNewest(s, st, n, name);
    NewestIsLast(s, st, n, k, name);
    forall id | IsNewest(s, st.args, n, name, id)
      ensures id in st.args && (id in st.procs[n].argIdx <==> ComesWith(s, n, k, st.args[id].proc))
    {
      NewestKnown(s, st.args, n, name, id);
    }
  }

  lemma NewestKnown(s: Schema, args: Args, n: Name, name: ArgName, id: ArgId)
    requires IsNewest(s, args, n, name, id)
    ensures id in args
    ensures forall other :: IsNewest(s, args, n, name, other) ==> other == id
  {
  }

  /** With every value so far accepted, only merged arguments have one. */
  lemma {:induction false} ValueMerged(s: Schema, st: Store, n: Name, k: nat, id: ArgId)
    requires WellFormed(s) && n in s && k <= |s[n].bases| && CycleFree(ProcGraph(s), n)
    requires ClosureDeclared(s, st, n) && Distinct(st.entered) && IdsFollow(st)
    requires forall j :: 0 <= j < k ==> !RefusedAt(s, st.entered, n, j)
    requires ValueAt(s, st.args, n, k, id).Some?
    ensures id in st.args && ComesWith(s, n, k, st.args[id].proc)
    decreases k
  {
    hide WellFormed, CycleFree, Derives, ClosureDeclared, Distinct, IdsFollow, IsNewest, Approved;
    var b := s[n].bases[k - 1].proc;
    BaseEdge(s, n, k - 1);
    ReachSetShrinks(ProcGraph(s), n, b);
    if LastGiven(s, st.args, n, s[n].bases[k - 1].vars, id).Some? {
      GivenIsNewest(s, st.args, n, s[n].bases[k - 1].vars, id);
      var v :| v in s[n].bases[k - 1].vars && IsNewest(s, st.args, n, v.name, id);
      NewestIsLast(s, st, n, k, v.name);
      assert !RefusedAt(s, st.entered, n, k - 1);
      NewestKnown(s, st.args, n, v.name, id);
    } else if ValueAt(s, st.args, b, |s[b].bases|, id).Some? {
      ValueDerives(s, st.args, b, |s[b].bases|, id);
    } else {
      ValueMerged(s, st, n, k - 1, id);
    }
  }

  /** Merging the index of base k. */
  lemma InheritValued(s: Schema, st: Store, n: Name, k: nat)
    requires WellFormed(s) && n in s && k < |s[n].bases| && Merging(s, st, n) && Merged(s, st, n, k)
    requires n in st.procs && CycleFree(ProcGraph(s), n) && Valued(s, st.args, n, k, st.procs[n].argIdx)
    requires forall j :: 0 <= j < k ==> !RefusedAt(s, st.entered, n, j)
    requires s[n].bases[k].proc in st.procs
    ensures ValuedWithin(s, st.args, n, k, 0,
                         Inherit(st.procs[n].argIdx, st.procs[s[n].bases[k].proc].argIdx))
  {
    hide WellFormed, CycleFree, Derives, ClosureDeclared, Distinct, IdsFollow, RefusedAt, Refused, ChainsDescend;
    var b, idx := s[n].bases[k].proc, st.procs[n].argIdx;
    BaseEdge(s, n, k);
    ReachSetShrinks(ProcGraph(s), n, b);
    MergingFacts(s, st, n);
    BaseIndexed(s, st, n, k);
    var up := st.procs[b].argIdx;
    forall id | id in Inherit(idx, up)
      ensures Inherit(idx, up)[id] == BaseValueAt(s, st.args, n, k, id)
    {
      if ValueAt(s, st.args, b, |s[b].bases|, id).Some? {
        ValueDerives(s, st.args, b, |s[b].bases|, id);
      }
      if ValueAt(s, st.args, n, k, id).Some? {
        ValueMerged(s, st, n, k, id);
      }
    }
  }

  lemma BaseIndexed(s: Schema, st: Store, n: Name, k: nat)
    requires WellFormed(s) && n in s && k < |s[n].bases| && Merging(s, st, n)
    ensures var b := s[n].bases[k].proc;
            && b in s && b in st.procs && CycleFree(ProcGraph(s), b)
            && Valued(s, st.args, b, |s[b].bases|, st.procs[b].argIdx)
            && forall id :: id in st.procs[b].argIdx <==> id in st.args && Derives(s, b, st.args[id].proc)
  {
    hide WellFormed, CycleFree, Derives, Distinct, IdsFollow, Refused, Valued, ChainsDescend, ChainsOk, Declared;
    var b := s[n].bases[k].proc;
    BaseEdge(s, n, k);
    assert Resolved(st, b) && ProcOk(s, st, b) && Accepted(s, st, b);
  }

  /** Setting one own value. */
  lemma GiveOneMore(s: Schema, args: Args, n: Name, k: nat, i: nat, idx: map<ArgId, Option<ArgVar>>, id: ArgId)
    requires WellFormed(s) && n in s && k < |s[n].bases| && CycleFree(ProcGraph(s), n)
    requires i < |s[n].bases[k].vars| && ValuedWithin(s, args, n, k, i, idx)
    requires IsNewest(s, args, n, s[n].bases[k].vars[i].name, id)
    ensures ValuedWithin(s, args, n, k, i + 1, idx[id := Some(s[n].bases[k].vars[i])])
  {
    hide WellFormed, CycleFree, IsNewest, BaseValueAt;
    var vars := s[n].bases[k].vars;
    assert vars[..i + 1][..i] == vars[..i];
    NewestKnown(s, args, n, vars[i].name, id);
  }

  lemma GivenAll(s: Schema, args: Args, n: Name, k: nat, idx: map<ArgId, Option<ArgVar>>)
    requires WellFormed(s) && n in s && k < |s[n].bases| && CycleFree(ProcGraph(s), n)
    requires ValuedWithin(s, args, n, k, |s[n].bases[k].vars|, idx)
    ensures Valued(s, args, n, k + 1, idx)
  {
    hide WellFormed, CycleFree, IsNewest, BaseValueAt, LastGiven;
    var vars := s[n].bases[k].vars;
    assert vars[..|vars|] == vars;
  }

  // ---------------------------------------------------------------- reaching the bases of a proc

  /** The proc entered, then its bases: that is what reaching it reaches. */
  lemma VisitEntered(s: Schema, n: Name, seen: seq<Name>)
    requires WellFormed(s) && n in s
    ensures n in seen ==> Visit(s, n, seen) == seen
    ensures n !in seen ==> Visit(s, n, seen) == VisitBases(s, n, |s[n].bases|, seen + [n])
    ensures VisitBases(s, n, 0, seen) == seen
  {
  }

  lemma VisitOneMore(s: Schema, n: Name, k: nat, seen: seq<Name>)
    requires WellFormed(s) && n in s && k < |s[n].bases|
    ensures s[n].bases[k].proc in s
    ensures VisitBases(s, n, k + 1, seen) == Visit(s, s[n].bases[k].proc, VisitBases(s, n, k, seen))
  {
    BaseEdge(s, n, k);
  }

  /** A value refused below base k is refused whatever bases follow. */
  lemma RefusedBelow(s: Schema, n: Name, k: nat, seen: seq<Name>)
    requires WellFormed(s) && n in s && k < |s[n].bases| && Distinct(seen)
    requires s[n].bases[k].proc in s
    requires SomeRefused(s, Visit(s, s[n].bases[k].proc, VisitBases(s, n, k, seen)))
    ensures SomeRefused(s, VisitBases(s, n, |s[n].bases|, seen))
  {
    hide WellFormed, SomeRefused, Distinct;
    VisitOneMore(s, n, k, seen);
    VisitBasesGrows(s, n, k + 1, |s[n].bases|, seen);
    VisitBasesDistinct(s, n, |s[n].bases|, seen);
    SomeRefusedStable(s, VisitBases(s, n, k + 1, seen), VisitBases(s, n, |s[n].bases|, seen));
  }

  /** A value of n itself is refused. */
  lemma OwnRefused(s: Schema, st: Store, n: Name)
    requires WellFormed(s) && n in s && Merging(s, st, n) && Refused(s, st.entered, n)
    ensures SomeRefused(s, st.entered)
  {
    hide WellFormed, Derives, Refused;
    MergingFacts(s, st, n);
    assert n in st.entered;
  }

  lemma ReachedDistinct(s: Schema, st: Store)
    requires WellFormed(s) && Inv(s, st) && OrderOk(s, st)
    ensures Distinct(st.entered)
  {
  }

  lemma ResolvedWasReached(s: Schema, st: Store, n: Name)
    requires WellFormed(s) && Inv(s, st) && OrderOk(s, st) && n in s && Resolved(st, n)
    ensures n in st.entered && Visit(s, n, st.entered) == st.entered
  {
    hide WellFormed, Accepted, CycleFree;
    BegunIfResolved(s, st);
  }

  lemma NotYetReached(s: Schema, st: Store, n: Name)
    requires WellFormed(s) && Inv(s, st) && OrderOk(s, st) && n in s && !Begun(st, n)
    ensures n !in st.entered
  {
  }

  lemma NowMerging(s: Schema, st: Store, n: Name)
    requires WellFormed(s) && Inv(s, st) && OrderOk(s, st) && n in s
    requires OwnIndexed(s, st, n) && Linked(s, st, n, |s[n].bases|)
    ensures Merging(s, st, n)
  {
  }

  lemma StillMerging(s: Schema, st: Store, n: Name, idx: map<ArgId, Option<ArgVar>>)
    requires WellFormed(s) && n in s && Merging(s, st, n)
    ensures n in st.procs
    ensures var st' := WithProc(st, n, st.procs[n].(argIdx := idx));
            Inv(s, st') && OrderOk(s, st') && Merging(s, st', n)
  {
    hide WellFormed, Inv, OrderOk, FromBases, Declared;
    var st' := WithProc(st, n, st.procs[n].(argIdx := idx));
    PendingOrder(s, st, n, st'.procs[n]);
    assert forall id :: OwnedBy(st', id, n) <==> OwnedBy(st, id, n);
    StillDeclared(s, st, st', n);
  }

  lemma MergingBase(s: Schema, st: Store, n: Name, k: nat)
    requires WellFormed(s) && n in s && k < |s[n].bases| && Merging(s, st, n)
    ensures var b := s[n].bases[k].proc; Resolved(st, b) && b in st.procs && b != n && b in s
  {
    hide WellFormed, Inv, OrderOk;
    LinkedBase(s, st, n, k);
  }

  lemma ValuedNone(s: Schema, st: Store, n: Name)
    requires WellFormed(s) && n in s && OwnIndexed(s, st, n) && CycleFree(ProcGraph(s), n)
    ensures Valued(s, st.args, n, 0, st.procs[n].argIdx)
  {
  }

  lemma VisitNone(s: Schema, seen: seq<Name>)
    requires WellFormed(s)
    ensures VisitAll(s, [], seen) == seen
  {
  }

  lemma VisitNext(s: Schema, order: seq<Name>, i: nat, seen: seq<Name>)
    requires WellFormed(s) && (forall n :: n in order ==> n in s) && i < |order|
    ensures order[i] in s && (forall n :: n in order[..i] ==> n in s) && (forall n :: n in order[..i + 1] ==> n in s)
    ensures VisitAll(s, order[..i + 1], seen) == Visit(s, order[i], VisitAll(s, order[..i], seen))
  {
    assert order[..i + 1][..i] == order[..i];
  }

  lemma RefusedInAll(s: Schema, order: seq<Name>, i: nat, seen: seq<Name>)
    requires WellFormed(s) && (forall n :: n in order ==> n in s) && i < |order| && Distinct(seen)
    requires forall n :: n in order[..i] ==> n in s
    requires SomeRefused(s, Visit(s, order[i], VisitAll(s, order[..i], seen)))
    ensures SomeRefused(s, VisitAll(s, order, seen))
  {
    hide WellFormed, SomeRefused, Distinct, VisitAll;
    VisitNext(s, order, i, seen);
    VisitAllGrows(s, order, i + 1, seen);
    VisitAllDistinct(s, order, seen);
    SomeRefusedStable(s, VisitAll(s, order[..i + 1], seen), VisitAll(s, order, seen));
  }

  /** With none under way, all procs reached are resolved and none has a value refused. */
  lemma NoneRefused(s: Schema, st: Store)
    requires WellFormed(s) && Inv(s, st) && OrderOk(s, st) && forall n :: !Pending(st, n)
    ensures forall n :: n in st.entered ==> Resolved(st, n)
    ensures !SomeRefused(s, st.entered)
  {
    hide WellFormed, CycleFree, Refused, Valued;
    forall n | n in st.entered
      ensures Resolved(st, n)
    {
      assert Begun(st, n) && !Pending(st, n);
    }
  }
}
