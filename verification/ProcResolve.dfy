/** Procs: resolving bases and arguments, and the global chains of arguments of one name. */
module ProcResolve {
  import opened Digraph
  import opened Options

  type ArgName = nat
  type ArgId = nat

  /** A value a base clause of a proc gives to an argument of a base, by name. */
  datatype ArgVar = ArgVar(name: ArgName, val: nat)

  datatype Base = Base(proc: Name, vars: seq<ArgVar>)

  datatype ProcDecl = ProcDecl(args: seq<ArgName>, bases: seq<Base>)

  type Schema = map<Name, ProcDecl>

  /** A registered argument: its name and the proc that declares it. */
  datatype Arg = Arg(name: ArgName, proc: Name)

  datatype Proc = Proc(ancestors: seq<Name>, argIdx: map<ArgId, Option<ArgVar>>,
                       resolvingInProgress: bool, isResolved: bool)

  const NEW_PROC := Proc([], map[], false, false)

  /** The proc records, the arguments by id, and for each name the ids under it, newest first.  `entered`
      is history: the procs whose resolution has begun, in that order. */
  datatype Store = Store(procs: map<Name, Proc>, args: map<ArgId, Arg>, chains: map<ArgName, seq<ArgId>>,
                         lastId: nat, entered: seq<Name>)

  datatype Err = Ok | Circle | NotApproved

  ghost function BasesOf(d: ProcDecl): set<Name> {
    set i | 0 <= i < |d.bases| :: d.bases[i].proc
  }

  ghost function ProcGraph(s: Schema): (g: Graph)
    ensures g.Keys == s.Keys
  {
    map n | n in s :: BasesOf(s[n])
  }

  ghost predicate WellFormed(s: Schema) {
    Closed(ProcGraph(s))
  }

  /** m is n or a proc n derives from. */
  ghost predicate Derives(s: Schema, n: Name, m: Name) {
    m == n || Reaches(ProcGraph(s), n, m)
  }

  predicate Resolved(st: Store, n: Name) {
    n in st.procs && st.procs[n].isResolved
  }

  /** Its resolution has begun and has not returned. */
  predicate Pending(st: Store, n: Name) {
    n in st.procs && st.procs[n].resolvingInProgress && !st.procs[n].isResolved
  }

  predicate Begun(st: Store, n: Name) {
    n in st.procs && st.procs[n].resolvingInProgress
  }

  ghost predicate OwnedBy(st: Store, id: ArgId, n: Name) {
    id in st.args && st.args[id].proc == n
  }

  /** The arguments n declares are registered under their names, and no others. */
  ghost predicate Declared(s: Schema, st: Store, n: Name)
    requires n in s
  {
    && (forall name :: name in s[n].args ==> exists id :: OwnedBy(st, id, n) && st.args[id].name == name)
    && (forall id :: OwnedBy(st, id, n) ==> st.args[id].name in s[n].args)
  }

  ghost predicate DoneOk(s: Schema, st: Store, n: Name)
    requires n in s && n in st.procs
  {
    && CycleFree(ProcGraph(s), n)
    && (forall b :: b in ProcGraph(s)[n] ==> Resolved(st, b))
    && (forall a :: a in st.procs[n].ancestors <==> Reaches(ProcGraph(s), n, a))
    && (forall id :: id in st.procs[n].argIdx <==> id in st.args && Derives(s, n, st.args[id].proc))
    && Declared(s, st, n)
  }

  ghost predicate ProcOk(s: Schema, st: Store, n: Name)
    requires n in s && n in st.procs
  {
    && (!Begun(st, n) ==> st.procs[n] == NEW_PROC && forall id :: !OwnedBy(st, id, n))
    && (Resolved(st, n) ==> DoneOk(s, st, n))
  }

  /** The chain of a name holds exactly the registered arguments of that name. */
  ghost predicate ChainsOk(s: Schema, st: Store) {
    && (forall id :: id in st.args ==> id <= st.lastId && st.args[id].proc in s)
    && (forall name, id :: name in st.chains && id in st.chains[name] ==> id in st.args && st.args[id].name == name)
    && (forall id :: id in st.args ==> st.args[id].name in st.chains && id in st.chains[st.args[id].name])
  }

  ghost predicate Inv(s: Schema, st: Store) {
    && st.procs.Keys == s.Keys
    && ChainsOk(s, st)
    && (forall n :: n in s ==> ProcOk(s, st, n))
  }

  /** What resolving other procs than n leaves as it was: every proc begun before, and every argument
      registered before; what is new belongs to procs begun since. */
  ghost predicate Step(st: Store, st': Store) {
    && st'.procs.Keys == st.procs.Keys
    && (forall m :: Begun(st, m) ==> st'.procs[m] == st.procs[m])
    && (forall id :: id in st.args ==> id in st'.args && st'.args[id] == st.args[id])
    && (forall id :: id in st'.args && id !in st.args ==> !Begun(st, st'.args[id].proc))
    && (forall m :: Pending(st', m) ==> Pending(st, m))
  }

  /** Resolving c meets a circle: c derives from, or is, a proc on a cycle or one under way. */
  ghost predicate Blocked(s: Schema, st: Store, c: Name) {
    exists x :: Derives(s, c, x) && (Reaches(ProcGraph(s), x, x) || Pending(st, x))
  }

  ghost function Unvisited(st: Store): set<Name> {
    set n | n in st.procs && !st.procs[n].resolvingInProgress
  }

  /** All a resolved proc derives from is resolved. */
  lemma {:induction false} DerivedResolved(s: Schema, st: Store, n: Name, m: Name)
    requires WellFormed(s) && Inv(s, st) && n in s && Resolved(st, n) && Derives(s, n, m)
    ensures m in s && Resolved(st, m)
    decreases ReachSet(ProcGraph(s), n)
  {
    var g := ProcGraph(s);
    if m != n {
      assert ProcOk(s, st, n);
      var b := ReachesFirstStep(g, n, m);
      ReachSetShrinks(g, n, b);
      DerivedResolved(s, st, b, m);
    }
  }

  // ---------------------------------------------------------------- looking up an argument

  /** The first argument of the chain that n or one of its ancestors declares; with none, the last of
      the chain. */
  function FirstMatch(st: Store, chain: seq<ArgId>, n: Name): (r: ArgId)
    requires n in st.procs && chain != [] && forall id :: id in chain ==> id in st.args
    ensures r in chain
  {
    var owner := st.args[chain[0]].proc;
    if |chain| == 1 || owner == n || owner in st.procs[n].ancestors then chain[0]
    else FirstMatch(st, chain[1..], n)
  }

  /** The id of the argument found, as long as n's own index has it. */
  function GetArg(st: Store, n: Name, name: ArgName): (r: Option<ArgId>)
    requires n in st.procs
    requires name in st.chains ==> forall id :: id in st.chains[name] ==> id in st.args
  {
    if name !in st.chains || st.chains[name] == [] then None
    else
      var id := FirstMatch(st, st.chains[name], n);
      if id in st.procs[n].argIdx then Some(id) else None
  }

  lemma {:induction false} FirstMatchOwner(st: Store, chain: seq<ArgId>, n: Name, id: ArgId)
    requires n in st.procs && id in chain && forall i :: i in chain ==> i in st.args
    requires st.args[id].proc == n || st.args[id].proc in st.procs[n].ancestors
    ensures var owner := st.args[FirstMatch(st, chain, n)].proc; owner == n || owner in st.procs[n].ancestors
  {
    var owner := st.args[chain[0]].proc;
    if |chain| > 1 && owner != n && owner !in st.procs[n].ancestors {
      FirstMatchOwner(st, chain[1..], n, id);
    }
  }

  /** For a resolved proc the walk over the chain finds an argument exactly when the proc's merged index
      holds one of that name, which is when the proc or one it derives from declares one. */
  lemma LookupExact(s: Schema, st: Store, n: Name, name: ArgName)
    requires WellFormed(s) && Inv(s, st) && n in s && Resolved(st, n)
    ensures var r := GetArg(st, n, name);
            && (r.Some? ==> r.value in st.args && r.value in st.procs[n].argIdx && st.args[r.value].name == name)
            && (r.Some? <==> exists id :: id in st.procs[n].argIdx && id in st.args && st.args[id].name == name)
            && (r.Some? <==> exists m :: Derives(s, n, m) && m in s && name in s[m].args)
  {
    hide WellFormed, CycleFree, Reaches, FirstMatch;
    assert ProcOk(s, st, n);
    if id :| id in st.procs[n].argIdx && id in st.args && st.args[id].name == name {
      FirstMatchOwner(st, st.chains[name], n, id);
      DerivedResolved(s, st, n, st.args[id].proc);
      OwnerDeclares(s, st, id);
    }
    if m :| Derives(s, n, m) && m in s && name in s[m].args {
      DerivedResolved(s, st, n, m);
      var id := DeclaredIsRegistered(s, st, m, name);
    }
  }

  lemma OwnerDeclares(s: Schema, st: Store, id: ArgId)
    requires Inv(s, st) && id in st.args && Resolved(st, st.args[id].proc)
    ensures st.args[id].proc in s && st.args[id].name in s[st.args[id].proc].args
  {
    var m := st.args[id].proc;
    assert ProcOk(s, st, m);
    assert OwnedBy(st, id, m);
  }

  lemma DeclaredIsRegistered(s: Schema, st: Store, m: Name, name: ArgName) returns (id: ArgId)
    requires Inv(s, st) && m in s && Resolved(st, m) && name in s[m].args
    ensures OwnedBy(st, id, m) && st.args[id].name == name
  {
    assert ProcOk(s, st, m);
    id :| OwnedBy(st, id, m) && st.args[id].name == name;
  }
}
