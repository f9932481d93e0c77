/** The single moves of resolving a proc, and what each keeps. */
module ProcMoves {
  import opened Digraph
  import opened Options
  import opened ProcResolve

  // ---------------------------------------------------------------- single moves

  function WithProc(st: Store, n: Name, p: Proc): (r: Store)
    requires n in st.procs
    ensures r.procs.Keys == st.procs.Keys
  {
    st.(procs := st.procs[n := p])
  }

  /** The resolution of n begins. */
  function Entered(st: Store, n: Name): (r: Store)
    requires n in st.procs
    ensures r.procs.Keys == st.procs.Keys
  {
    st.(procs := st.procs[n := st.procs[n].(resolvingInProgress := true)], entered := st.entered + [n])
  }

  /** A new argument of n under a fresh id: in the table, in front of the chain of its name, and in the
      index of n. */
  function Registered(st: Store, n: Name, name: ArgName): (r: Store)
    requires n in st.procs
    ensures r.procs.Keys == st.procs.Keys
  {
    var id := st.lastId + 1;
    var chain := if name in st.chains then st.chains[name] else [];
    st.(lastId := id, args := st.args[id := Arg(name, n)], chains := st.chains[name := [id] + chain],
        procs := st.procs[n := st.procs[n].(argIdx := st.procs[n].argIdx[id := None])])
  }

  /** Those of `more` that are not there yet go in front of the list, one by one. */
  function Joined(anc: seq<Name>, more: seq<Name>): (r: seq<Name>)
    ensures forall a :: a in r <==> a in anc || a in more
  {
    if more == [] then anc
    else
      var last, before := more[|more| - 1], Joined(anc, more[..|more| - 1]);
      if last in before then before else [last] + before
  }

  lemma JoinedStep(anc: seq<Name>, more: seq<Name>, i: nat)
    requires i < |more|
    ensures var before := Joined(anc, more[..i]);
            Joined(anc, more[..i + 1]) == if more[i] in before then before else [more[i]] + before
  {
    assert more[..i + 1][..i] == more[..i];
  }

  lemma JoinedNone(anc: seq<Name>, more: seq<Name>)
    ensures Joined(anc, more[..0]) == anc
  {
  }

  /** A base value overrides only where it is one. */
  function Inherit(idx: map<ArgId, Option<ArgVar>>, base: map<ArgId, Option<ArgVar>>): (r: map<ArgId, Option<ArgVar>>)
    ensures r.Keys == idx.Keys + base.Keys
  {
    map id | id in idx.Keys + base.Keys ::
      if id in base && base[id].Some? then base[id] else if id in idx then idx[id] else None
  }

  /** A proc under way may change without harm. */
  lemma PendingChanged(s: Schema, st: Store, n: Name, p: Proc)
    requires Inv(s, st) && n in s && Pending(st, n)
    requires p.resolvingInProgress && !p.isResolved
    ensures Inv(s, WithProc(st, n, p))
  {
    var st' := WithProc(st, n, p);
    forall m | m in s
      ensures ProcOk(s, st', m)
    {
      assert ProcOk(s, st, m);
      SameFacts(s, st, st', m);
    }
  }

  lemma SameFacts(s: Schema, st: Store, st': Store, m: Name)
    requires m in s && m in st.procs && m in st'.procs && ProcOk(s, st, m) && st'.args == st.args
    requires st'.procs[m] == st.procs[m] || Pending(st', m)
    requires forall b :: Resolved(st, b) ==> Resolved(st', b)
    ensures ProcOk(s, st', m)
  {
    assert forall id :: OwnedBy(st', id, m) <==> OwnedBy(st, id, m);
  }

  lemma RegisteredInv(s: Schema, st: Store, n: Name, name: ArgName)
    requires WellFormed(s) && Inv(s, st) && n in s && Pending(st, n)
    ensures Inv(s, Registered(st, n, name))
  {
    hide WellFormed, CycleFree, Reaches, ProcOk, ChainsOk;
    RegisteredChains(s, st, n, name);
    forall m | m in s
      ensures ProcOk(s, Registered(st, n, name), m)
    {
      RegisteredProc(s, st, n, name, m);
    }
  }

  lemma RegisteredChains(s: Schema, st: Store, n: Name, name: ArgName)
    requires ChainsOk(s, st) && n in s && n in st.procs
    ensures ChainsOk(s, Registered(st, n, name))
  {
    var st', id := Registered(st, n, name), st.lastId + 1;
    assert id !in st.args;
    forall x, i | x in st'.chains && i in st'.chains[x]
      ensures i in st'.args && st'.args[i].name == x
    {
      if !(x == name && i == id) {
        assert x in st.chains && i in st.chains[x];
      }
    }
  }

  lemma RegisteredProc(s: Schema, st: Store, n: Name, name: ArgName, m: Name)
    requires WellFormed(s) && Inv(s, st) && n in s && Pending(st, n) && m in s
    ensures ProcOk(s, Registered(st, n, name), m)
  {
    hide WellFormed, CycleFree, Reaches, Inv, ChainsOk, Declared;
    var st' := Registered(st, n, name);
    FreshId(s, st, m);
    if m != n {
      assert forall id :: OwnedBy(st', id, m) <==> OwnedBy(st, id, m);
      if Resolved(st, m) {
        if Derives(s, m, n) {
          DerivedResolved(s, st, m, n);
        }
        StillDeclared(s, st, st', m);
      }
    }
  }

  lemma FreshId(s: Schema, st: Store, m: Name)
    requires Inv(s, st) && m in s
    ensures m in st.procs && ProcOk(s, st, m)
    ensures st.lastId + 1 !in st.args
  {
  }

  lemma StillDeclared(s: Schema, st: Store, st': Store, m: Name)
    requires m in s && Declared(s, st, m)
    requires forall id :: OwnedBy(st', id, m) <==> OwnedBy(st, id, m)
    requires forall id :: id in st.args ==> id in st'.args && st'.args[id] == st.args[id]
    ensures Declared(s, st', m)
  {
    forall name | name in s[m].args
      ensures exists id :: OwnedBy(st', id, m) && st'.args[id].name == name
    {
      var id :| OwnedBy(st, id, m) && st.args[id].name == name;
      assert OwnedBy(st', id, m);
    }
  }

  // ---------------------------------------------------------------- the phases of one resolution

  /** Step, except for what n itself becomes and registers. */
  ghost predicate StepFor(st: Store, st': Store, n: Name) {
    && st'.procs.Keys == st.procs.Keys && n in st.procs
    && Pending(st', n)
    && (forall m :: m != n && Begun(st, m) ==> st'.procs[m] == st.procs[m])
    && (forall id :: id in st.args ==> id in st'.args && st'.args[id] == st.args[id])
    && (forall id :: id in st'.args && id !in st.args ==> st'.args[id].proc == n || !Begun(st, st'.args[id].proc))
    && (forall m :: m != n && Pending(st', m) ==> Pending(st, m))
  }

  /** The arguments of n are registered, and its index holds them, without values. */
  ghost predicate OwnIndexed(s: Schema, st: Store, n: Name)
    requires n in s
  {
    && Pending(st, n) && Declared(s, st, n)
    && (forall id :: id in st.procs[n].argIdx <==> OwnedBy(st, id, n))
    && (forall id :: id in st.procs[n].argIdx ==> st.procs[n].argIdx[id] == None)
  }

  /** The first k bases of n are resolved, and its ancestors are those and what they derive from. */
  ghost predicate Linked(s: Schema, st: Store, n: Name, k: nat)
    requires n in s && k <= |s[n].bases|
  {
    && n in st.procs
    && (forall j :: 0 <= j < k ==> Resolved(st, s[n].bases[j].proc))
    && (forall a :: a in st.procs[n].ancestors <==> FromBases(s, n, k, a))
  }

  ghost predicate FromBases(s: Schema, n: Name, k: nat, a: Name)
    requires n in s && k <= |s[n].bases|
  {
    exists j :: 0 <= j < k && Derives(s, s[n].bases[j].proc, a)
  }

  /** The index of n holds its own arguments and those of its first k bases. */
  ghost predicate Merged(s: Schema, st: Store, n: Name, k: nat)
    requires n in s && k <= |s[n].bases|
  {
    && Pending(st, n) && Declared(s, st, n)
    && forall id :: id in st.procs[n].argIdx <==>
         id in st.args && (st.args[id].proc == n || FromBases(s, n, k, st.args[id].proc))
  }

  lemma BaseEdge(s: Schema, n: Name, k: nat)
    requires WellFormed(s) && n in s && k < |s[n].bases|
    ensures s[n].bases[k].proc in ProcGraph(s)[n] && s[n].bases[k].proc in s
  {
    assert s[n].bases[k].proc in BasesOf(s[n]);
    assert s[n].bases[k].proc in ProcGraph(s)[n];
  }

  /** All bases linked: the ancestors are what n derives from, and n is on no circle. */
  lemma LinkedAll(s: Schema, st: Store, n: Name)
    requires WellFormed(s) && Inv(s, st) && n in s && Pending(st, n) && Linked(s, st, n, |s[n].bases|)
    ensures CycleFree(ProcGraph(s), n)
    ensures forall b :: b in ProcGraph(s)[n] ==> Resolved(st, b)
    ensures forall a :: FromBases(s, n, |s[n].bases|, a) <==> Reaches(ProcGraph(s), n, a)
  {
    var g := ProcGraph(s);
    forall b | b in g[n]
      ensures Resolved(st, b) && CycleFree(g, b)
    {
      var j :| 0 <= j < |s[n].bases| && s[n].bases[j].proc == b;
      assert Resolved(st, s[n].bases[j].proc);
      assert ProcOk(s, st, b);
    }
    CycleFreeFromSuccessors(g, n);
    forall a
      ensures FromBases(s, n, |s[n].bases|, a) <==> Reaches(g, n, a)
    {
      ReachesBySuccessor(g, n, a);
      if j :| 0 <= j < |s[n].bases| && Derives(s, s[n].bases[j].proc, a) {
        BaseEdge(s, n, j);
      }
      if b :| b in g[n] && (b == a || Reaches(g, b, a)) {
        var j :| 0 <= j < |s[n].bases| && s[n].bases[j].proc == b;
        assert Derives(s, s[n].bases[j].proc, a);
      }
    }
  }

  lemma Finished(s: Schema, st: Store, n: Name)
    requires WellFormed(s) && Inv(s, st) && n in s && Pending(st, n)
    requires Linked(s, st, n, |s[n].bases|) && Merged(s, st, n, |s[n].bases|)
    ensures Inv(s, WithProc(st, n, st.procs[n].(isResolved := true)))
  {
    hide WellFormed, CycleFree, Reaches;
    var st' := WithProc(st, n, st.procs[n].(isResolved := true));
    LinkedAll(s, st, n);
    forall m | m in s
      ensures ProcOk(s, st', m)
    {
      assert ProcOk(s, st, m);
      if m != n {
        SameFacts(s, st, st', m);
      } else {
        StillDeclared(s, st, st', n);
      }
    }
  }

  /** n, under way, keeps what it has while its bases get resolved. */
  lemma StepKeeps(s: Schema, st: Store, st': Store, n: Name, k: nat)
    requires n in s && k <= |s[n].bases| && Pending(st, n) && Step(st, st')
    requires forall m :: Resolved(st, m) ==> Resolved(st', m)
    ensures Pending(st', n)
    ensures OwnIndexed(s, st, n) ==> OwnIndexed(s, st', n)
    ensures Linked(s, st, n, k) ==> Linked(s, st', n, k)
  {
    hide FromBases;
    assert forall id :: OwnedBy(st', id, n) <==> OwnedBy(st, id, n);
    if OwnIndexed(s, st, n) {
      StillDeclared(s, st, st', n);
    }
  }

  lemma StaysResolved(st: Store, st': Store)
    requires Step(st, st')
    requires forall m :: Resolved(st, m) ==> Begun(st, m)
    ensures forall m :: Resolved(st, m) ==> Resolved(st', m)
  {
  }

  /** The arguments of n registered so far are those named in `names`, and its index holds them. */
  ghost predicate OwnSoFar(st: Store, n: Name, names: seq<ArgName>) {
    && Pending(st, n)
    && (forall name :: name in names ==> exists id :: OwnedBy(st, id, n) && st.args[id].name == name)
    && (forall id :: OwnedBy(st, id, n) ==> st.args[id].name in names)
    && (forall id :: id in st.procs[n].argIdx <==> OwnedBy(st, id, n))
    && (forall id :: id in st.procs[n].argIdx ==> st.procs[n].argIdx[id] == None)
  }

  lemma OneMoreArg(s: Schema, st: Store, n: Name, names: seq<ArgName>, name: ArgName)
    requires Inv(s, st) && n in s && OwnSoFar(st, n, names)
    ensures OwnSoFar(Registered(st, n, name), n, names + [name])
  {
    hide Inv;
    var st', id := Registered(st, n, name), st.lastId + 1;
    FreshId(s, st, n);
    NowOwned(st, n, name);
    forall x | x in names + [name]
      ensures exists i :: OwnedBy(st', i, n) && st'.args[i].name == x
    {
      if x in names {
        var i :| OwnedBy(st, i, n) && st.args[i].name == x;
        assert OwnedBy(st', i, n);
      }
    }
  }

  /** Since st0, the arguments named in `names`, and no others, were registered for n, in this order. */
  ghost predicate Numbered(st0: Store, st: Store, n: Name, names: seq<ArgName>) {
    && st.lastId == st0.lastId + |names|
    && (forall id :: id in st.args <==> id in st0.args || st0.lastId < id <= st.lastId)
    && (forall id :: id in st0.args && id <= st0.lastId ==> st.args[id] == st0.args[id])
    && (forall id :: st0.lastId < id <= st.lastId ==> st.args[id] == Arg(names[id - st0.lastId - 1], n))
  }

  lemma NoneNumbered(st: Store, n: Name)
    ensures Numbered(st, st, n, [])
  {
  }

  lemma NumberedMore(st0: Store, st: Store, n: Name, names: seq<ArgName>, name: ArgName)
    requires Numbered(st0, st, n, names) && n in st.procs
    ensures Numbered(st0, Registered(st, n, name), n, names + [name])
  {
  }

  lemma NowOwned(st: Store, n: Name, name: ArgName)
    requires n in st.procs && st.lastId + 1 !in st.args
    ensures var st', id := Registered(st, n, name), st.lastId + 1;
            && OwnedBy(st', id, n) && st'.args[id].name == name
            && (forall i :: OwnedBy(st', i, n) <==> OwnedBy(st, i, n) || i == id)
            && (forall i :: OwnedBy(st, i, n) ==> st'.args[i] == st.args[i])
  {
  }

  lemma OneMoreStep(s: Schema, st0: Store, st: Store, n: Name, name: ArgName)
    requires Inv(s, st) && n in s && StepFor(st0, st, n)
    ensures StepFor(st0, Registered(st, n, name), n)
  {
    FreshId(s, st, n);
  }

  lemma PendingStep(st0: Store, st: Store, n: Name, p: Proc)
    requires StepFor(st0, st, n) && p.resolvingInProgress && !p.isResolved
    ensures StepFor(st0, WithProc(st, n, p), n)
  {
  }

  lemma BaseStep(s: Schema, st0: Store, st: Store, st': Store, n: Name)
    requires Inv(s, st0) && StepFor(st0, st, n) && Step(st, st') && Begun(st0, n)
    ensures StepFor(st0, st', n)
  {
  }

  lemma BegunIfResolved(s: Schema, st: Store)
    requires Inv(s, st)
    ensures forall m :: Resolved(st, m) ==> Begun(st, m)
  {
    forall m | Resolved(st, m)
      ensures Begun(st, m)
    {
      assert ProcOk(s, st, m);
    }
  }

  lemma LinkedOneMore(s: Schema, st: Store, n: Name, k: nat, anc: seq<Name>)
    requires n in s && k < |s[n].bases| && Linked(s, st, n, k) && Resolved(st, s[n].bases[k].proc)
    requires Pending(st, n)
    requires forall a :: a in anc <==> a in st.procs[n].ancestors || Derives(s, s[n].bases[k].proc, a)
    ensures Linked(s, WithProc(st, n, st.procs[n].(ancestors := anc)), n, k + 1)
  {
    var st' := WithProc(st, n, st.procs[n].(ancestors := anc));
    forall a
      ensures a in anc <==> FromBases(s, n, k + 1, a)
    {
      assert FromBases(s, n, k + 1, a) <==> FromBases(s, n, k, a) || Derives(s, s[n].bases[k].proc, a);
    }
    assert forall j :: 0 <= j < k ==> s[n].bases[j].proc != n by {
      assert forall j :: 0 <= j < k ==> Resolved(st, s[n].bases[j].proc);
    }
  }

  lemma OwnKept(s: Schema, st: Store, n: Name, anc: seq<Name>)
    requires n in s && OwnIndexed(s, st, n)
    ensures OwnIndexed(s, WithProc(st, n, st.procs[n].(ancestors := anc)), n)
  {
    var st' := WithProc(st, n, st.procs[n].(ancestors := anc));
    assert forall id :: OwnedBy(st', id, n) <==> OwnedBy(st, id, n);
    StillDeclared(s, st, st', n);
  }

  lemma MergedOneMore(s: Schema, st: Store, n: Name, k: nat, idx: map<ArgId, Option<ArgVar>>)
    requires WellFormed(s) && Inv(s, st) && n in s && k < |s[n].bases| && Merged(s, st, n, k)
    requires Resolved(st, s[n].bases[k].proc)
    requires idx.Keys == st.procs[n].argIdx.Keys + st.procs[s[n].bases[k].proc].argIdx.Keys
    ensures Merged(s, WithProc(st, n, st.procs[n].(argIdx := idx)), n, k + 1)
  {
    var b, st' := s[n].bases[k].proc, WithProc(st, n, st.procs[n].(argIdx := idx));
    BaseEdge(s, n, k);
    assert ProcOk(s, st, b);
    assert forall id :: OwnedBy(st', id, n) <==> OwnedBy(st, id, n);
    StillDeclared(s, st, st', n);
    forall a
      ensures FromBases(s, n, k + 1, a) <==> FromBases(s, n, k, a) || Derives(s, b, a)
    {
    }
  }

  lemma MergedNone(s: Schema, st: Store, n: Name)
    requires n in s && OwnIndexed(s, st, n)
    ensures Merged(s, st, n, 0)
  {
    assert forall id :: OwnedBy(st, id, n) <==> id in st.args && st.args[id].proc == n;
  }

  /** What blocks a base of n, with n under way, blocks n. */
  lemma BelowBlocks(s: Schema, st0: Store, st: Store, n: Name, b: Name)
    requires WellFormed(s) && n in s && b in ProcGraph(s)[n] && Blocked(s, st, b)
    requires forall m :: m != n && Pending(st, m) ==> Pending(st0, m)
    ensures Blocked(s, st0, n)
  {
    var g := ProcGraph(s);
    var x :| Derives(s, b, x) && (Reaches(g, x, x) || Pending(st, x));
    EdgeReaches(g, n, b);
    if x != b {
      ReachesTransitive(g, n, b, x);
    }
    assert Reaches(g, n, x);
    if x == n {
      assert Derives(s, n, n);
    } else {
      assert Derives(s, n, x);
    }
  }

  lemma BlockedEarlier(s: Schema, st0: Store, st: Store, b: Name)
    requires Blocked(s, st, b) && forall m :: Pending(st, m) ==> Pending(st0, m)
    ensures Blocked(s, st0, b)
  {
    var x :| Derives(s, b, x) && (Reaches(ProcGraph(s), x, x) || Pending(st, x));
  }

  /** Once n is resolved, nothing blocked it when its resolution began. */
  lemma ResolvedNotBlocked(s: Schema, st0: Store, st: Store, n: Name)
    requires WellFormed(s) && Inv(s, st) && n in s && Resolved(st, n) && Step(st0, st)
    ensures !Blocked(s, st0, n)
  {
    assert ProcOk(s, st, n);
    if x :| Derives(s, n, x) && (Reaches(ProcGraph(s), x, x) || Pending(st0, x)) {
      DerivedResolved(s, st, n, x);
    }
  }

  lemma UnvisitedShrinks(st0: Store, st: Store, n: Name)
    requires n in st0.procs && !Begun(st0, n) && st.procs.Keys == st0.procs.Keys
    requires Begun(st, n) && forall m :: Begun(st0, m) ==> Begun(st, m)
    ensures Unvisited(st) < Unvisited(st0)
  {
    forall m | m in Unvisited(st)
      ensures m in Unvisited(st0)
    {
      assert m in st.procs.Keys;
      assert Begun(st0, m) ==> Begun(st, m);
    }
    assert n in Unvisited(st0) && n !in Unvisited(st);
  }

  lemma BlockedIsCyclic(s: Schema, st: Store, n: Name)
    requires Blocked(s, st, n) && forall m :: !Pending(st, m)
    ensures !CycleFree(ProcGraph(s), n)
  {
  }

  lemma ResolvedIsCycleFree(s: Schema, st: Store, n: Name)
    requires Inv(s, st) && n in s && Resolved(st, n)
    ensures CycleFree(ProcGraph(s), n)
  {
    assert ProcOk(s, st, n);
  }

  lemma StepDone(s: Schema, st: Store, st': Store)
    requires Inv(s, st) && Step(st, st') && forall m :: !Pending(st, m)
    ensures forall m :: Resolved(st, m) ==> Resolved(st', m)
    ensures forall m :: !Pending(st', m)
  {
    BegunIfResolved(s, st);
  }

  lemma InheritNone(st: Store, n: Name)
    requires n in st.procs
    ensures st == WithProc(st, n, st.procs[n].(argIdx := Inherit(st.procs[n].argIdx, map[])))
  {
    assert Inherit(st.procs[n].argIdx, map[]) == st.procs[n].argIdx;
    assert st.procs[n := st.procs[n]] == st.procs;
  }

  lemma InheritOneMore(own: map<ArgId, Option<ArgVar>>, done: map<ArgId, Option<ArgVar>>,
                       id: ArgId, src: Option<ArgVar>)
    requires id !in done
    ensures Inherit(Inherit(own, done), map[id := src]) == Inherit(own, done[id := src])
  {
  }

  lemma KnownProcs(s: Schema, st: Store)
    requires Inv(s, st)
    ensures st.procs.Keys == s.Keys
    ensures forall name, id :: name in st.chains && id in st.chains[name] ==> id in st.args
  {
  }

  lemma MergeGoesOn(s: Schema, st: Store, n: Name, k: nat)
    requires Inv(s, st) && n in s && k <= |s[n].bases| && Merged(s, st, n, k)
    ensures Pending(st, n) && n in st.procs && st.procs.Keys == s.Keys
    ensures st == WithProc(st, n, st.procs[n].(argIdx := st.procs[n].argIdx))
  {
    assert st.procs[n := st.procs[n]] == st.procs;
  }

  lemma LinkedBase(s: Schema, st: Store, n: Name, k: nat)
    requires WellFormed(s) && n in s && k < |s[n].bases| && Linked(s, st, n, |s[n].bases|) && Pending(st, n)
    ensures Resolved(st, s[n].bases[k].proc) && s[n].bases[k].proc != n && s[n].bases[k].proc in s
  {
    BaseEdge(s, n, k);
  }

  lemma SameKeysMerged(s: Schema, st: Store, n: Name, k: nat, idx: map<ArgId, Option<ArgVar>>)
    requires n in s && k <= |s[n].bases| && Merged(s, st, n, k) && idx.Keys == st.procs[n].argIdx.Keys
    ensures Merged(s, WithProc(st, n, st.procs[n].(argIdx := idx)), n, k)
  {
    hide FromBases;
    var st' := WithProc(st, n, st.procs[n].(argIdx := idx));
    assert forall id :: OwnedBy(st', id, n) <==> OwnedBy(st, id, n);
    StillDeclared(s, st, st', n);
  }

  lemma Enters(s: Schema, st: Store, n: Name)
    requires Inv(s, st) && n in s && !Begun(st, n)
    ensures n in st.procs
    ensures Inv(s, Entered(st, n)) && OwnSoFar(Entered(st, n), n, [])
  {
    hide DoneOk, ChainsOk;
    assert ProcOk(s, st, n);
    var st' := Entered(st, n);
    assert forall id :: OwnedBy(st', id, n) <==> OwnedBy(st, id, n);
    EnteredInv(s, st, n);
  }

  lemma EnteredInv(s: Schema, st: Store, n: Name)
    requires Inv(s, st) && n in s && !Begun(st, n)
    ensures n in st.procs && Inv(s, Entered(st, n))
  {
    assert ProcOk(s, st, n);
    var st' := Entered(st, n);
    forall m | m in s
      ensures ProcOk(s, st', m)
    {
      SameFacts(s, st, st', m);
    }
  }

  lemma IndexedGoesOn(s: Schema, st0: Store, entered: Store, st: Store, n: Name)
    requires Inv(s, st0) && n in s && n in st0.procs && !Begun(st0, n)
    requires entered == Entered(st0, n)
    requires n in st.procs && st.procs == entered.procs[n := st.procs[n]] && OwnIndexed(s, st, n)
    requires st.procs[n].ancestors == entered.procs[n].ancestors
    ensures Unvisited(st) < Unvisited(st0) && st.procs[n].ancestors == []
    ensures forall m :: m != n && Pending(st, m) ==> Pending(st0, m)
  {
    assert ProcOk(s, st0, n);
    UnvisitedShrinks(st0, st, n);
  }

  lemma MergedDone(s: Schema, indexed: Store, linked: Store, st: Store, n: Name)
    requires WellFormed(s) && Inv(s, st) && n in s && n in linked.procs && n in st.procs
    requires Linked(s, linked, n, |s[n].bases|) && Merged(s, st, n, |s[n].bases|)
    requires st == WithProc(linked, n, linked.procs[n].(argIdx := st.procs[n].argIdx))
    requires StepFor(indexed, linked, n)
    ensures Pending(st, n)
    ensures Inv(s, WithProc(st, n, st.procs[n].(isResolved := true)))
  {
    hide Inv, FromBases, Declared;
    assert Linked(s, st, n, |s[n].bases|);
    Finished(s, st, n);
  }

  /** Taken together the phases are one step. */
  lemma WholeStep(s: Schema, st0: Store, entered: Store, indexed: Store, linked: Store, st: Store, n: Name)
    requires WellFormed(s) && Inv(s, st0) && n in s && n in st0.procs && !Begun(st0, n)
    requires entered == Entered(st0, n)
    requires StepFor(entered, indexed, n) && StepFor(indexed, linked, n)
    requires n in linked.procs && n in st.procs
    requires st == WithProc(linked, n, linked.procs[n].(argIdx := st.procs[n].argIdx))
    requires Inv(s, WithProc(st, n, st.procs[n].(isResolved := true)))
    ensures var st' := WithProc(st, n, st.procs[n].(isResolved := true));
            Resolved(st', n) && Step(st0, st') && !Blocked(s, st0, n)
  {
    hide Inv, WellFormed, Blocked;
    var st' := WithProc(st, n, st.procs[n].(isResolved := true));
    forall m | Pending(st', m)
      ensures Pending(st0, m)
    {
      assert m != n && Pending(linked, m);
      assert Pending(indexed, m) && Pending(entered, m);
    }
    forall m | Begun(st0, m)
      ensures st'.procs[m] == st0.procs[m]
    {
      assert m != n && Begun(entered, m) && Begun(indexed, m);
    }
    forall id | id in st'.args && id !in st0.args
      ensures !Begun(st0, st'.args[id].proc)
    {
      assert forall m :: Begun(st0, m) ==> Begun(entered, m) && Begun(indexed, m) && m != n;
    }
    ResolvedNotBlocked(s, st0, st', n);
  }

  lemma PendingBlocks(s: Schema, st: Store, n: Name)
    requires Pending(st, n)
    ensures Blocked(s, st, n)
  {
    assert Derives(s, n, n);
  }

  lemma PendingSoFar(s: Schema, st: Store, n: Name)
    requires Inv(s, st) && OwnSoFar(st, n, [])
    ensures n in st.procs && Pending(st, n) && StepFor(st, st, n) && st.procs[n := st.procs[n]] == st.procs
  {
  }

  lemma AllRegistered(s: Schema, st: Store, n: Name)
    requires n in s && OwnSoFar(st, n, s[n].args)
    ensures OwnIndexed(s, st, n)
  {
  }

  lemma BasesBegin(s: Schema, st: Store, n: Name)
    requires n in s && OwnIndexed(s, st, n) && st.procs[n].ancestors == []
    ensures Linked(s, st, n, 0) && StepFor(st, st, n) && Begun(st, n)
  {
  }

  lemma BaseAncestors(s: Schema, st: Store, b: Name)
    requires Inv(s, st) && b in s && Resolved(st, b)
    ensures forall x :: Derives(s, b, x) <==> x == b || x in st.procs[b].ancestors
    ensures st.procs.Keys == s.Keys
  {
    assert ProcOk(s, st, b);
  }

  lemma BaseJoined(s: Schema, st: Store, n: Name, b: Name)
    requires WellFormed(s) && Inv(s, st) && n in s && b in s && Resolved(st, b)
    ensures n in st.procs && b in st.procs
    ensures forall x :: x in [b] + Joined(st.procs[n].ancestors, st.procs[b].ancestors) <==>
              x in st.procs[n].ancestors || Derives(s, b, x)
  {
    hide Inv, Derives, Joined;
    BaseAncestors(s, st, b);
    KnownProcs(s, st);
  }

  lemma KeptProc(st: Store, n: Name)
    requires n in st.procs
    ensures WithProc(st, n, st.procs[n].(ancestors := st.procs[n].ancestors)) == st
  {
  }

  lemma BasesGoOn(s: Schema, st0: Store, st: Store, n: Name)
    requires Inv(s, st0) && Inv(s, st) && n in s && StepFor(st0, st, n) && Begun(st0, n)
    ensures Pending(st, n) && st.procs.Keys == s.Keys
    ensures forall m :: Pending(st, m) ==> Pending(st0, m) || m == n
    ensures Unvisited(st) <= Unvisited(st0)
  {
  }

  lemma BaseDone(s: Schema, st0: Store, st: Store, st': Store, n: Name, k: nat)
    requires Inv(s, st0) && Inv(s, st) && n in s && k < |s[n].bases|
    requires Begun(st0, n) && StepFor(st0, st, n) && Step(st, st')
    requires OwnIndexed(s, st, n) && Linked(s, st, n, k)
    ensures OwnIndexed(s, st', n) && Linked(s, st', n, k) && StepFor(st0, st', n)
  {
    hide ChainsOk, DoneOk, FromBases;
    BegunIfResolved(s, st);
    StaysResolved(st, st');
    StepKeeps(s, st, st', n, k);
    BaseStep(s, st0, st, st', n);
  }
}
