/** Second stage of resolving a class: inheriting attributes, base clause by base clause. */
module ClassResolve {
  import opened Digraph
  import opened ClassSchema
  import opened Options
  import opened ClassTable
  import opened BaseResolve

  /** What holds of each class on its own. */
  ghost predicate ResolvedOk(s: Schema, root: Name, n: Name, c: KndClass)
    requires WellFormed(s) && n in s
  {
    && (!c.resolvingInProgress ==> !c.isResolved && c.attrIdx == map[])
    && (c.isResolved ==>
          && Resolvable(s, n) && c.attrIdx == ClassIdx(s, n)
          && (if s[n].clauses == [] then root in c.ancestors else c.baseIsResolved))
  }

  ghost predicate DepsResolved(s: Schema, st: ClassMap, n: Name)
    requires n in s
  {
    forall d :: d in DepGraph(s)[n] ==> d in st && st[d].isResolved
  }

  ghost predicate ResolveInv(s: Schema, root: Name, st: ClassMap)
    requires WellFormed(s)
  {
    && BaseInv(s, root, st)
    && (forall n :: n in s ==> ResolvedOk(s, root, n, st[n]) && !HalfDone(st, n))
    && (forall n :: n in s && st[n].isResolved ==> DepsResolved(s, st, n))
  }

  /** A class whose resolution has begun keeps its index and its verdict. */
  ghost predicate ResolveStepOf(c: KndClass, c': KndClass) {
    && (c.resolvingInProgress ==> c'.resolvingInProgress && c'.attrIdx == c.attrIdx && c'.isResolved == c.isResolved)
    && (c.baseIsResolved ==> c'.baseIsResolved)
  }

  ghost predicate ResolveStep(st: ClassMap, st': ClassMap) {
    st'.Keys == st.Keys && forall n :: n in st ==> ResolveStepOf(st[n], st'[n])
  }

  /** The same, except that the class being resolved may grow its index. */
  ghost predicate ResolveStepFor(st: ClassMap, st': ClassMap, n: Name) {
    && st'.Keys == st.Keys && n in st
    && (forall m :: m in st && m != n ==> ResolveStepOf(st[m], st'[m]))
    && (st[n].baseIsResolved ==> st'[n].baseIsResolved)
    && Pending(st', n)
  }

  /** Its resolution has begun and has not returned. */
  ghost predicate Pending(st: ClassMap, n: Name) {
    n in st && st[n].resolvingInProgress && !st[n].isResolved
  }

  ghost predicate NoNewPending(st: ClassMap, st': ClassMap) {
    forall n :: Pending(st', n) ==> Pending(st, n)
  }

  /** Why resolving c must fail: c is, or depends on, a class on a dependency cycle, one whose
      resolution has not returned, or one that mis-declares its attributes. */
  ghost predicate Blocked(s: Schema, st: ClassMap, c: Name) {
    exists x :: (x == c || Reaches(DepGraph(s), c, x)) && Obstacle(s, st, x)
  }

  ghost predicate Obstacle(s: Schema, st: ClassMap, x: Name) {
    Reaches(DepGraph(s), x, x) || Pending(st, x) || !AttrsOk(s, x)
  }

  ghost function Unvisited(st: ClassMap): set<Name> {
    set n | n in st && !st[n].resolvingInProgress
  }

  // ---------------------------------------------------------------- attribute callbacks

  function Reindexed(st: ClassMap, n: Name, idx: AttrIdx): (st': ClassMap)
    requires n in st
    ensures st'.Keys == st.Keys && st'[n].attrIdx == idx
  {
    st[n := st[n].(attrIdx := idx)]
  }

  lemma ReindexedTwice(st: ClassMap, n: Name, idx: AttrIdx, idx': AttrIdx)
    requires n in st
    ensures Reindexed(Reindexed(st, n, idx), n, idx') == Reindexed(st, n, idx')
    ensures Reindexed(st, n, st[n].attrIdx) == st
  {
  }

  /** Registers the attributes the class declares; a name declared twice is a conflict. */
  method ResolvePrimaryAttrs(repo: Repo, n: Name) returns (err: Err)
    requires repo.Valid() && n in repo.schema && repo.classes[n].attrIdx == map[]
    modifies repo`classes
    ensures repo.Valid() && repo.classes == Reindexed(old(repo.classes), n, repo.classes[n].attrIdx)
    ensures err.Ok? <==> DistinctNames(repo.schema[n].attrs)
    ensures err.Ok? ==> repo.classes[n].attrIdx == OwnIdx(repo.schema[n].attrs)
  {
    hide WellFormed;
    hide DistinctNames, Reindexed, OwnIdx;
    ghost var st := repo.classes;
    var attrs := repo.schema[n].attrs;
    var i := 0;
    DistinctPrefix(attrs, 0);
    ReindexedTwice(st, n, map[], map[]);
    while i < |attrs|
      invariant 0 <= i <= |attrs|
      invariant repo.Valid() && repo.classes == Reindexed(st, n, OwnIdx(attrs[..i]))
      invariant repo.classes[n].attrIdx == OwnIdx(attrs[..i])
      invariant DistinctNames(attrs[..i])
    {
      DistinctPrefix(attrs, i);
      if a :| a in repo.classes[n].attrIdx && a.name == attrs[i].name {
        DistinctPrefix(attrs, i + 1);
        return Conflict;
      }
      ReindexedTwice(st, n, OwnIdx(attrs[..i]), OwnIdx(attrs[..i + 1]));
      repo.classes := Reindexed(repo.classes, n, repo.classes[n].attrIdx[attrs[i] := None]);
      i := i + 1;
    }
    assert attrs[..i] == attrs;
    err := Ok;
  }

  lemma DistinctPrefix(attrs: seq<Attr>, i: nat)
    requires i <= |attrs|
    ensures i == 0 ==> DistinctNames(attrs[..i])
    ensures DistinctNames(attrs) ==> DistinctNames(attrs[..i])
    ensures i < |attrs| ==> OwnIdx(attrs[..i + 1]) == OwnIdx(attrs[..i])[attrs[i] := None]
    ensures i < |attrs| ==> (DistinctNames(attrs[..i + 1]) <==>
              DistinctNames(attrs[..i]) && forall a :: a in attrs[..i] ==> a.name != attrs[i].name)
  {
    if i < |attrs| {
      assert attrs[..i + 1] == attrs[..i] + [attrs[i]];
      if DistinctNames(attrs[..i + 1]) {
        forall a | a in attrs[..i]
          ensures a.name != attrs[i].name
        {
          var j :| 0 <= j < i && attrs[j] == a;
          assert attrs[..i + 1][j] == a && attrs[..i + 1][i] == attrs[i];
        }
        forall j, k | 0 <= j < k < i
          ensures attrs[..i][j].name != attrs[..i][k].name
        {
          assert attrs[..i + 1][j] == attrs[..i][j] && attrs[..i + 1][k] == attrs[..i][k];
        }
      }
    }
  }

  /** The callback of InheritAttrs: one attribute of a base index. */
  method InheritAttr(repo: Repo, n: Name, a: Attr, src: Option<AttrVar>)
    requires repo.Valid() && n in repo.schema
    modifies repo`classes
    ensures repo.Valid()
    ensures repo.classes == Reindexed(old(repo.classes), n, Inherit(old(repo.classes)[n].attrIdx, map[a := src]))
  {
    hide WellFormed;
    var idx := repo.classes[n].attrIdx;
    if a in idx {
      if src.Some? {
        repo.classes := Reindexed(repo.classes, n, idx[a := src]);
      }
    } else {
      repo.classes := Reindexed(repo.classes, n, idx[a := src]);
    }
    assert repo.classes[n].attrIdx == Inherit(idx, map[a := src]);
  }

  /** Maps the callback over the index of a base, in whatever order the set yields its elements. */
  method InheritFrom(repo: Repo, n: Name, base: AttrIdx)
    requires repo.Valid() && n in repo.schema
    modifies repo`classes
    ensures repo.Valid() && repo.classes == Reindexed(old(repo.classes), n, Inherit(old(repo.classes)[n].attrIdx, base))
  {
    hide WellFormed;
    hide Reindexed;
    ghost var st, idx := repo.classes, repo.classes[n].attrIdx;
    ghost var done: AttrIdx := map[];
    var rest := base.Keys;
    assert Inherit(idx, done) == idx;
    ReindexedTwice(st, n, idx, idx);
    while rest != {}
      invariant repo.Valid() && rest <= base.Keys
      invariant done == map a | a in base.Keys - rest :: base[a]
      invariant repo.classes == Reindexed(st, n, Inherit(idx, done))
    {
      var a :| a in rest;
      rest := rest - {a};
      InheritAttr(repo, n, a, base[a]);
      InheritOneMore(idx, done, a, base[a]);
      ReindexedTwice(st, n, Inherit(idx, done), Inherit(idx, done[a := base[a]]));
      done := done[a := base[a]];
    }
    assert done == base;
  }

  lemma InheritOneMore(idx: AttrIdx, done: AttrIdx, a: Attr, v: Option<AttrVar>)
    requires a !in done
    ensures Inherit(Inherit(idx, done), map[a := v]) == Inherit(idx, done[a := v])
  {
  }

  // ---------------------------------------------------------------- the recursion

  ghost predicate ClauseDepsResolved(s: Schema, st: ClassMap, n: Name, k: nat)
    requires n in s && k < |s[n].clauses|
  {
    && IsResolved(st, s[n].clauses[k].base)
    && NeedsResolved(st, s[n].clauses[k].values)
  }

  ghost predicate NeedsResolved(st: ClassMap, vars: seq<AttrVar>) {
    forall j, d :: 0 <= j < |vars| && d in vars[j].needs ==> IsResolved(st, d)
  }

  ghost predicate IsResolved(st: ClassMap, d: Name) {
    d in st && st[d].isResolved
  }

  /** Resolution of n stops at n itself, or at something n depends on. */
  ghost predicate BlockedBelow(s: Schema, st: ClassMap, n: Name) {
    !AttrsOk(s, n) || exists d :: n in s && d in DepGraph(s)[n] && Blocked(s, st, d)
  }

  /** The index that clause k of n leaves behind when it started from the index of the clauses before it. */
  ghost predicate ClauseMerged(s: Schema, n: Name, k: nat, idx: AttrIdx)
    requires WellFormed(s)
  {
    Mergeable(s, n, k) && idx == MergedIdx(s, n, k)
  }

  method EnsureResolved(repo: Repo, ghost n: Name, d: Name) returns (err: Err)
    requires repo.Valid() && n in repo.schema && d in DepGraph(repo.schema)[n] && d in repo.schema
    requires ResolveInv(repo.schema, repo.root, repo.classes)
    modifies repo
    ensures repo.Valid() && ResolveStep(old(repo.classes), repo.classes)
    ensures err.Ok? ==> ResolveInv(repo.schema, repo.root, repo.classes)
    ensures err.Ok? ==> IsResolved(repo.classes, d) && NoNewPending(old(repo.classes), repo.classes)
    ensures !err.Ok? ==> BlockedBelow(repo.schema, old(repo.classes), n)
    decreases Unvisited(repo.classes), 1
  {
    hide ResolveInv, Blocked, WellFormed, DepGraph;
    err := Ok;
    if !repo.classes[d].isResolved {
      err := ResolveClass(repo, d);
    }
  }

  /** Own values of clause k, in order; each may first resolve the classes it needs. */
  method ResolveAttrVars(repo: Repo, n: Name, k: nat) returns (err: Err)
    requires repo.Valid() && n in repo.schema && k < |repo.schema[n].clauses|
    requires ResolveInv(repo.schema, repo.root, repo.classes) && Pending(repo.classes, n)
    requires forall a :: a in repo.classes[n].attrIdx <==> HasAttrUpTo(repo.schema, n, k + 1, a)
    modifies repo
    ensures repo.Valid() && ResolveStepFor(old(repo.classes), repo.classes, n)
    ensures err.Ok? ==> ResolveInv(repo.schema, repo.root, repo.classes)
    ensures err.Ok? ==> NoNewPending(old(repo.classes), repo.classes)
    ensures err.Ok? ==>
              Assigned(old(repo.classes)[n].attrIdx, repo.schema[n].clauses[k].values, repo.classes[n].attrIdx)
    ensures err.Ok? ==> NeedsResolved(repo.classes, repo.schema[n].clauses[k].values)
    ensures !err.Ok? ==> BlockedBelow(repo.schema, old(repo.classes), n)
    decreases Unvisited(repo.classes), 2
  {
    hide ResolveInv, WellFormed, DepGraph, BlockedBelow, ResolveStep, ResolveStepFor, NoNewPending,
         HasAttrUpTo, AttrsOk, Unvisited, NeedsResolved, Assigned;
    ghost var s, root := repo.schema, repo.root;
    ghost var st0 := repo.classes;
    var vars := repo.schema[n].clauses[k].values;
    NothingYet(n, st0);
    var i := 0;
    while i < |vars|
      invariant 0 <= i <= |vars|
      invariant repo.Valid() && ResolveInv(s, root, repo.classes)
      invariant ResolveStepFor(st0, repo.classes, n) && NoNewPending(st0, repo.classes)
      invariant Pending(repo.classes, n)
      invariant Assigned(st0[n].attrIdx, vars[..i], repo.classes[n].attrIdx)
      invariant NeedsResolved(repo.classes, vars[..i])
    {
      ghost var st := repo.classes;
      if vars[i].attr !in repo.classes[n].attrIdx {
        NoSuchAttr(s, st0, n, k, i, st0[n].attrIdx, repo.classes[n].attrIdx);
        return NoMatch;
      }
      AssignOneMore(st0[n].attrIdx, vars, i, repo.classes[n].attrIdx);
      repo.classes := Reindexed(repo.classes, n, repo.classes[n].attrIdx[vars[i].attr := Some(vars[i])]);
      IdxChanged(s, root, n, st, repo.classes);
      StepForTwice(s, root, n, st0, st, repo.classes);

      ghost var st1 := repo.classes;
      var needs := vars[i].needs;
      NothingYet(n, st1);
      var j := 0;
      while j < |needs|
        invariant 0 <= j <= |needs|
        invariant repo.Valid() && ResolveInv(s, root, repo.classes) && Pending(repo.classes, n)
        invariant ResolveStepFor(st1, repo.classes, n) && NoNewPending(st1, repo.classes)
        invariant repo.classes[n].attrIdx == st1[n].attrIdx
        invariant forall d :: d in needs[..j] ==> IsResolved(repo.classes, d)
      {
        ghost var st2 := repo.classes;
        NeedIsDep(s, n, k, i, j);
        UnvisitedShrinks(n, st0, st1);
        UnvisitedShrinks(n, st1, st2);
        err := EnsureResolved(repo, n, needs[j]);
        InnerStep(s, root, n, st2, repo.classes);
        if !err.Ok? {
          StepForTwice(s, root, n, st1, st2, repo.classes);
          StepForTwice(s, root, n, st0, st1, repo.classes);
          PendingOnlyBefore(s, n, st1, st2);
          PendingOnlyBefore(s, n, st0, st1);
          return;
        }
        StepForTwice(s, root, n, st1, st2, repo.classes);
        j := j + 1;
      }
      StepForTwice(s, root, n, st0, st1, repo.classes);
      NeedsOneMore(st, st1, repo.classes, vars, i);
      i := i + 1;
    }
    assert vars[..i] == vars;
    err := Ok;
  }

  ghost predicate Assigned(idx: AttrIdx, vars: seq<AttrVar>, idx': AttrIdx) {
    (forall v :: v in vars ==> v.attr in idx) && idx' == Assign(idx, vars)
  }

  method ResolveClause(repo: Repo, n: Name, k: nat) returns (err: Err)
    requires repo.Valid() && n in repo.schema && k < |repo.schema[n].clauses|
    requires ResolveInv(repo.schema, repo.root, repo.classes) && Pending(repo.classes, n)
    requires ClauseMerged(repo.schema, n, k, repo.classes[n].attrIdx)
    modifies repo
    ensures repo.Valid() && ResolveStepFor(old(repo.classes), repo.classes, n)
    ensures err.Ok? ==> ResolveInv(repo.schema, repo.root, repo.classes)
    ensures err.Ok? ==> NoNewPending(old(repo.classes), repo.classes)
    ensures err.Ok? ==> ClauseMerged(repo.schema, n, k + 1, repo.classes[n].attrIdx)
    ensures err.Ok? ==> ClauseDepsResolved(repo.schema, repo.classes, n, k)
    ensures !err.Ok? ==> BlockedBelow(repo.schema, old(repo.classes), n)
    decreases Unvisited(repo.classes), 3
  {
    hide ResolveInv, WellFormed, DepGraph, BlockedBelow, ResolveStep, ResolveStepFor, NoNewPending,
         HasAttrUpTo, AttrsOk, Unvisited, NeedsResolved, Assigned, ClauseMerged;
    ghost var s, root := repo.schema, repo.root;
    ghost var st0 := repo.classes;
    var base := repo.schema[n].clauses[k].base;
    ClauseDeps(s, n, k);
    err := EnsureResolved(repo, n, base);
    ghost var st1 := repo.classes;
    InnerStep(s, root, n, st0, st1);
    if !err.Ok? {
      return;
    }
    InheritFrom(repo, n, repo.classes[base].attrIdx);
    ghost var st2 := repo.classes;
    IdxChanged(s, root, n, st1, st2);
    StepForTwice(s, root, n, st0, st1, st2);
    BaseMerged(s, root, n, k, st0[n].attrIdx, st1);
    UnvisitedShrinks(n, st0, st2);
    err := ResolveAttrVars(repo, n, k);
    StepForTwice(s, root, n, st0, st2, repo.classes);
    if !err.Ok? {
      PendingOnlyBefore(s, n, st0, st2);
      return;
    }
    ValuesMerged(s, root, n, k, st0[n].attrIdx, st1, repo.classes[n].attrIdx);
  }

  method ResolveClass(repo: Repo, n: Name) returns (err: Err)
    requires repo.Valid() && n in repo.schema && !repo.classes[n].isResolved
    requires ResolveInv(repo.schema, repo.root, repo.classes)
    modifies repo
    ensures repo.Valid() && ResolveStep(old(repo.classes), repo.classes)
    ensures err.Ok? ==> ResolveInv(repo.schema, repo.root, repo.classes)
    ensures err.Ok? ==> IsResolved(repo.classes, n) && NoNewPending(old(repo.classes), repo.classes)
    ensures !err.Ok? ==> Blocked(repo.schema, old(repo.classes), n)
    decreases Unvisited(repo.classes), 0
  {
    hide ResolveInv, BaseInv, WellFormed, DepGraph, Blocked, BlockedBelow, ResolveStep, ResolveStepFor,
         NoNewPending, ClauseMerged, ClauseDepsResolved, Unvisited, HasAttrUpTo, AttrsOk, BasesBlocked,
         BaseStep, NoNewHalfDone, DistinctNames, OwnIdx, Bases, BaseOk, ResolvedOk, Resolvable, ClassIdx, HasAttr,
         ResolveStepOf, BaseStepOf;
    ghost var s, root := repo.schema, repo.root;
    ghost var st0 := repo.classes;
    if repo.classes[n].resolvingInProgress {
      PendingBlocks(s, st0, n);
      NothingDone(st0);
      return Fail;
    }
    repo.classes := repo.classes[n := repo.classes[n].(resolvingInProgress := true)];
    ghost var st1 := repo.classes;
    Begun(s, root, n, st0, st1);

    err := ResolvePrimaryAttrs(repo, n);
    IdxChanged(s, root, n, st1, repo.classes);
    if !err.Ok? {
      assert !AttrsOk(s, n) by { NameClash(s, n); }
      MisdeclaredBlocks(s, st0, n);
      NotYetBack(st0, st1, repo.classes, n);
      return;
    }
    OwnMerged(s, n);

    if repo.schema[n].clauses == [] {
      // the root has no ancestors to copy
      ghost var st := repo.classes;
      repo.classes := Relinked(repo.classes, n, [repo.root] + repo.classes[n].ancestors);
      RootLinked(s, root, n, st1, st, repo.classes);
    } else {
      if !repo.classes[n].baseIsResolved {
        ghost var st := repo.classes;
        KeysAgree(s, root, st);
        err := ResolveBaseclasses(repo, n);
        BasesStep(n, st1, st, repo.classes);
        if !err.Ok? {
          BasesBlockedBlocks(s, root, st, st0, n);
          NotYetBack(st0, st1, repo.classes, n);
          return;
        }
        BasesDone(s, root, st, repo.classes);
      }
      var k := 0;
      while k < |repo.schema[n].clauses|
        invariant 0 <= k <= |repo.schema[n].clauses|
        invariant repo.Valid() && ResolveInv(s, root, repo.classes) && repo.classes[n].baseIsResolved
        invariant ResolveStepFor(st1, repo.classes, n) && NoNewPending(st1, repo.classes) && Pending(repo.classes, n)
        invariant ClauseMerged(s, n, k, repo.classes[n].attrIdx)
        invariant forall i :: 0 <= i < k ==> ClauseDepsResolved(s, repo.classes, n, i)
      {
        ghost var st := repo.classes;
        UnvisitedShrinks(n, st1, st);
        err := ResolveClause(repo, n, k);
        StepForTwice(s, root, n, st1, st, repo.classes);
        if !err.Ok? {
          BelowBlocks(s, n, st0, st1, st);
          NotYetBack(st0, st1, repo.classes, n);
          return;
        }
        k := k + 1;
      }
    }

    var u := 0;
    while u < |repo.schema[n].uniq|
      invariant 0 <= u <= |repo.schema[n].uniq|
      invariant forall a :: a in repo.schema[n].uniq[..u] ==> a in repo.classes[n].attrIdx
    {
      if repo.schema[n].uniq[u] !in repo.classes[n].attrIdx {
        UniqBlocks(s, st0, n, u, repo.classes[n].attrIdx);
        NotYetBack(st0, st1, repo.classes, n);
        return NoMatch;
      }
      u := u + 1;
    }
    ghost var st := repo.classes;
    repo.classes := repo.classes[n := repo.classes[n].(isResolved := true)];
    Finished(s, root, n, st0, st1, st, repo.classes);
    err := Ok;
  }

  // ---------------------------------------------------------------- one lemma per move

  lemma PendingBlocks(s: Schema, st: ClassMap, n: Name)
    requires Pending(st, n)
    ensures Blocked(s, st, n)
  {
    assert Obstacle(s, st, n);
  }

  lemma NothingDone(st: ClassMap)
    ensures ResolveStep(st, st)
  {
  }

  lemma MisdeclaredBlocks(s: Schema, st: ClassMap, n: Name)
    requires !AttrsOk(s, n)
    ensures Blocked(s, st, n)
  {
    assert Obstacle(s, st, n);
  }

  lemma NameClash(s: Schema, n: Name)
    requires n in s && !DistinctNames(s[n].attrs)
    ensures !AttrsOk(s, n)
  {
  }

  lemma NothingYet(n: Name, st: ClassMap)
    requires Pending(st, n)
    ensures ResolveStepFor(st, st, n) && NoNewPending(st, st)
    ensures Assigned(st[n].attrIdx, [], st[n].attrIdx) && NeedsResolved(st, [])
  {
  }

  lemma Begun(s: Schema, root: Name, n: Name, st: ClassMap, st': ClassMap)
    requires WellFormed(s) && ResolveInv(s, root, st) && n in s && !st[n].resolvingInProgress
    requires st' == st[n := st[n].(resolvingInProgress := true)]
    ensures ResolveInv(s, root, st') && Pending(st', n) && st'[n].attrIdx == map[]
    ensures Unvisited(st') < Unvisited(st)
  {
    hide WellFormed, ResolveInv;
    NodeInv(s, root, st, n);
    NodeTouched(s, root, n, st, st'[n]);
    assert n in Unvisited(st) && n !in Unvisited(st');
  }

  /** Replacing the record of one class keeps the invariant when the new record satisfies its part. */
  lemma NodeReplaced(s: Schema, root: Name, n: Name, st: ClassMap, c: KndClass)
    requires WellFormed(s) && ResolveInv(s, root, st) && n in s
    requires BaseOk(s, root, n, c) && ResolvedOk(s, root, n, c)
    requires c.baseIsResolved == st[n].baseIsResolved
    requires c.baseResolvingInProgress == st[n].baseResolvingInProgress
    requires st[n].isResolved ==> c.isResolved
    requires c.isResolved ==> DepsResolved(s, st, n)
    ensures ResolveInv(s, root, st[n := c])
  {
    hide WellFormed, BaseOk, ResolvedOk, BaseInv;
    var st' := st[n := c];
    NodeReplacedBase(s, root, n, st, c);
    forall m | m in s && st'[m].isResolved
      ensures DepsResolved(s, st', m)
    {
      assert DepsResolved(s, st, m);
    }
    forall m | m in s
      ensures ResolvedOk(s, root, m, st'[m]) && !HalfDone(st', m)
    {
      assert m != n ==> ResolvedOk(s, root, m, st[m]);
      assert !HalfDone(st, m);
    }
  }

  lemma NodeReplacedBase(s: Schema, root: Name, n: Name, st: ClassMap, c: KndClass)
    requires BaseInv(s, root, st) && n in s && BaseOk(s, root, n, c)
    requires c.baseIsResolved == st[n].baseIsResolved
    ensures BaseInv(s, root, st[n := c])
    ensures st.Keys == s.Keys
  {
    hide BaseOk;
    var st' := st[n := c];
    forall m | m in s && st'[m].baseIsResolved
      ensures BasesResolved(s, st', m)
    {
      assert BasesResolved(s, st, m);
    }
  }

  lemma NodeInv(s: Schema, root: Name, st: ClassMap, n: Name)
    requires WellFormed(s) && ResolveInv(s, root, st) && n in s
    ensures st.Keys == s.Keys && BaseOk(s, root, n, st[n]) && ResolvedOk(s, root, n, st[n])
  {
    hide WellFormed, BaseOk, ResolvedOk;
  }

  /** The first stage does not look at the flags and the index of the second. */
  lemma NodeTouched(s: Schema, root: Name, n: Name, st: ClassMap, c: KndClass)
    requires WellFormed(s) && ResolveInv(s, root, st) && n in s && !st[n].isResolved
    requires c == st[n].(resolvingInProgress := true, attrIdx := c.attrIdx)
    ensures ResolveInv(s, root, st[n := c])
  {
    hide WellFormed, ResolveInv, AncestorsSound, AncestorsComplete, CycleFree;
    NodeInv(s, root, st, n);
    NodeReplaced(s, root, n, st, c);
  }

  lemma IdxChanged(s: Schema, root: Name, n: Name, st: ClassMap, st': ClassMap)
    requires WellFormed(s) && ResolveInv(s, root, st) && n in s && Pending(st, n)
    requires n in st' && st' == Reindexed(st, n, st'[n].attrIdx)
    ensures ResolveInv(s, root, st') && ResolveStepFor(st, st', n) && NoNewPending(st, st')
  {
    hide WellFormed, ResolveInv;
    NodeTouched(s, root, n, st, st'[n]);
  }

  lemma NotYetBack(st0: ClassMap, st1: ClassMap, st: ClassMap, n: Name)
    requires n in st0 && !st0[n].resolvingInProgress
    requires st1 == st0[n := st0[n].(resolvingInProgress := true)] && ResolveStepFor(st1, st, n)
    ensures ResolveStep(st0, st)
  {
  }

  lemma OwnMerged(s: Schema, n: Name)
    requires WellFormed(s) && n in s
    ensures ClauseMerged(s, n, 0, OwnIdx(s[n].attrs))
  {
  }

  /** A class without base clauses hangs below the root. */
  lemma RootLinked(s: Schema, root: Name, n: Name, st1: ClassMap, st: ClassMap, st': ClassMap)
    requires WellFormed(s) && ResolveInv(s, root, st) && n in s && s[n].clauses == []
    requires ResolveStepFor(st1, st, n) && NoNewPending(st1, st)
    requires st' == Relinked(st, n, [root] + st[n].ancestors)
    ensures ResolveInv(s, root, st') && ResolveStepFor(st1, st', n) && NoNewPending(st1, st')
    ensures root in st'[n].ancestors && st'[n].attrIdx == st[n].attrIdx
  {
    hide WellFormed, ResolveInv, CycleFree, Inherits;
    NodeInv(s, root, st, n);
    NodeReplaced(s, root, n, st, st'[n]);
  }

  lemma BasesStep(n: Name, st1: ClassMap, st: ClassMap, st': ClassMap)
    requires ResolveStepFor(st1, st, n) && BaseStep(st, st')
    ensures ResolveStepFor(st1, st', n) && st'[n].attrIdx == st[n].attrIdx
    ensures NoNewPending(st1, st) ==> NoNewPending(st1, st')
  {
    forall m | m in st
      ensures BaseStepOf(st[m], st'[m])
    {
    }
  }

  lemma BasesDone(s: Schema, root: Name, st: ClassMap, st': ClassMap)
    requires WellFormed(s) && ResolveInv(s, root, st) && BaseInv(s, root, st')
    requires BaseStep(st, st') && NoNewHalfDone(st, st')
    ensures ResolveInv(s, root, st')
  {
    hide WellFormed, Resolvable, ClassIdx, BaseOk;
    forall m | m in s
      ensures BaseStepOf(st[m], st'[m])
    {
    }
    forall m | m in s && st'[m].isResolved
      ensures DepsResolved(s, st', m)
    {
      assert DepsResolved(s, st, m);
    }
    forall m | m in s
      ensures ResolvedOk(s, root, m, st'[m]) && !HalfDone(st', m)
    {
      assert ResolvedOk(s, root, m, st[m]) && !HalfDone(st, m);
    }
  }

  /** A cycle of bases is a cycle of dependencies. */
  lemma BasesBlockedBlocks(s: Schema, root: Name, st: ClassMap, st0: ClassMap, n: Name)
    requires WellFormed(s) && ResolveInv(s, root, st) && BasesBlocked(s, st, n)
    ensures Blocked(s, st0, n)
  {
    hide WellFormed, ResolvedOk, BaseInv;
    var g, h := BaseGraph(s), DepGraph(s);
    GraphsClosed(s);
    if n in Bases(s[n]) {
      EdgeReaches(h, n, n);
      assert Obstacle(s, st0, n);
    } else {
      var b :| b in g[n] && BaseBlocked(s, st, b);
      var x :| (x == b || Reaches(g, b, x)) && BaseObstacle(s, st, x);
      EdgeReaches(g, n, b);
      if x != b {
        ReachesTransitive(g, n, b, x);
      }
      ReachesMonotone(g, h, n, x);
      ReachesStaysInside(g);
      if x in Bases(s[x]) {
        EdgeReaches(h, x, x);
      } else {
        assert !HalfDone(st, x);
        ReachesMonotone(g, h, x, x);
      }
      assert Obstacle(s, st0, x);
    }
  }

  lemma UnvisitedShrinks(n: Name, st: ClassMap, st': ClassMap)
    requires ResolveStepFor(st, st', n)
    ensures Unvisited(st') == Unvisited(st) || Unvisited(st') < Unvisited(st)
  {
    assert Unvisited(st') <= Unvisited(st);
  }

  lemma StepForTwice(s: Schema, root: Name, n: Name, st0: ClassMap, st: ClassMap, st': ClassMap)
    requires WellFormed(s) && ResolveInv(s, root, st) && n in s
    requires ResolveStepFor(st0, st, n) && ResolveStepFor(st, st', n)
    ensures ResolveStepFor(st0, st', n) && Pending(st', n)
    ensures st[n].baseIsResolved ==> st'[n].baseIsResolved
    ensures NoNewPending(st0, st) && NoNewPending(st, st') ==> NoNewPending(st0, st')
    ensures forall d :: IsResolved(st, d) ==> IsResolved(st', d)
    ensures forall k :: 0 <= k < |s[n].clauses| && ClauseDepsResolved(s, st, n, k) ==> ClauseDepsResolved(s, st', n, k)
  {
    hide WellFormed, Resolvable, ClassIdx, BaseInv;
    forall d | IsResolved(st, d)
      ensures IsResolved(st', d)
    {
      assert BaseInv(s, root, st) && st.Keys == s.Keys by { KeysAgree(s, root, st); }
      assert ResolvedOk(s, root, d, st[d]);
      assert d != n;
      assert ResolveStepOf(st[d], st'[d]);
    }
  }

  lemma KeysAgree(s: Schema, root: Name, st: ClassMap)
    requires WellFormed(s) && ResolveInv(s, root, st)
    ensures BaseInv(s, root, st) && st.Keys == s.Keys
  {
  }

  /** Resolving another class is no more than the class in hand may see happen. */
  lemma InnerStep(s: Schema, root: Name, n: Name, st: ClassMap, st': ClassMap)
    requires ResolveStep(st, st') && Pending(st, n)
    ensures ResolveStepFor(st, st', n) && st'[n].attrIdx == st[n].attrIdx
  {
    assert ResolveStepOf(st[n], st'[n]);
  }

  lemma PendingOnlyBefore(s: Schema, n: Name, st0: ClassMap, st: ClassMap)
    requires BlockedBelow(s, st, n) && NoNewPending(st0, st)
    ensures BlockedBelow(s, st0, n)
  {
    if AttrsOk(s, n) {
      var d :| d in DepGraph(s)[n] && Blocked(s, st, d);
      var x :| (x == d || Reaches(DepGraph(s), d, x)) && Obstacle(s, st, x);
      assert Obstacle(s, st0, x);
      assert Blocked(s, st0, d);
    }
  }

  /** A dependency blocked by the class in hand closes a cycle through it. */
  lemma BelowBlocks(s: Schema, n: Name, st0: ClassMap, st1: ClassMap, st: ClassMap)
    requires WellFormed(s) && n in s && n in st0
    requires st1 == st0[n := st0[n].(resolvingInProgress := true)]
    requires BlockedBelow(s, st, n) && NoNewPending(st1, st)
    ensures Blocked(s, st0, n)
  {
    var g := DepGraph(s);
    if !AttrsOk(s, n) {
      assert Obstacle(s, st0, n);
    } else {
      var d :| d in g[n] && Blocked(s, st, d);
      var x :| (x == d || Reaches(g, d, x)) && Obstacle(s, st, x);
      EdgeReaches(g, n, d);
      if x != d {
        ReachesTransitive(g, n, d, x);
      }
      assert Pending(st, x) ==> Pending(st1, x);
      assert Obstacle(s, st0, x);
    }
  }

  lemma NoSuchAttr(s: Schema, st: ClassMap, n: Name, k: nat, i: nat, idx: AttrIdx, idx': AttrIdx)
    requires n in s && k < |s[n].clauses| && i < |s[n].clauses[k].values|
    requires forall a :: a in idx <==> HasAttrUpTo(s, n, k + 1, a)
    requires Assigned(idx, s[n].clauses[k].values[..i], idx') && s[n].clauses[k].values[i].attr !in idx'
    ensures BlockedBelow(s, st, n)
  {
    assert s[n].clauses[k].values[i] in s[n].clauses[k].values;
    assert !HasAttrUpTo(s, n, k + 1, s[n].clauses[k].values[i].attr);
  }

  lemma AssignOneMore(idx: AttrIdx, vars: seq<AttrVar>, i: nat, idx': AttrIdx)
    requires i < |vars| && Assigned(idx, vars[..i], idx') && vars[i].attr in idx'
    ensures Assigned(idx, vars[..i + 1], idx'[vars[i].attr := Some(vars[i])])
  {
    assert vars[..i + 1][..i] == vars[..i];
    assert vars[..i + 1] == vars[..i] + [vars[i]];
  }

  lemma NeedIsDep(s: Schema, n: Name, k: nat, i: nat, j: nat)
    requires WellFormed(s) && n in s && k < |s[n].clauses|
    requires i < |s[n].clauses[k].values| && j < |s[n].clauses[k].values[i].needs|
    ensures s[n].clauses[k].values[i].needs[j] in DepGraph(s)[n] && s[n].clauses[k].values[i].needs[j] in s
  {
    ClauseDeps(s, n, k);
    assert s[n].clauses[k].values[i] in s[n].clauses[k].values;
  }

  lemma NeedsOneMore(st: ClassMap, st1: ClassMap, st': ClassMap, vars: seq<AttrVar>, i: nat)
    requires i < |vars| && NeedsResolved(st, vars[..i])
    requires forall d :: IsResolved(st, d) ==> IsResolved(st1, d)
    requires forall d :: IsResolved(st1, d) ==> IsResolved(st', d)
    requires forall d :: d in vars[i].needs ==> IsResolved(st', d)
    ensures NeedsResolved(st', vars[..i + 1])
  {
    var more := vars[..i + 1];
    forall j, d | 0 <= j < |more| && d in more[j].needs
      ensures IsResolved(st', d)
    {
      if j < i {
        assert vars[..i][j] == more[j];
      }
    }
  }

  lemma BaseMerged(s: Schema, root: Name, n: Name, k: nat, idx: AttrIdx, st: ClassMap)
    requires WellFormed(s) && n in s && k < |s[n].clauses| && ClauseMerged(s, n, k, idx)
    requires ResolveInv(s, root, st) && IsResolved(st, s[n].clauses[k].base) && s[n].clauses[k].base in s
    ensures forall a :: a in Inherit(idx, st[s[n].clauses[k].base].attrIdx) <==> HasAttrUpTo(s, n, k + 1, a)
  {
    hide BaseInv, WellFormed, HasAttrUpTo, DepsResolved, Inherit;
    var b := s[n].clauses[k].base;
    assert ResolvedOk(s, root, b, st[b]);
    ResolvableIsMergeable(s, b);
    MergedKeys(s, n, k + 1, idx, st[b].attrIdx);
  }

  lemma ValuesMerged(s: Schema, root: Name, n: Name, k: nat, idx: AttrIdx, st: ClassMap, idx': AttrIdx)
    requires WellFormed(s) && n in s && k < |s[n].clauses| && ClauseMerged(s, n, k, idx)
    requires ResolveInv(s, root, st) && IsResolved(st, s[n].clauses[k].base) && s[n].clauses[k].base in s
    requires Assigned(Inherit(idx, st[s[n].clauses[k].base].attrIdx), s[n].clauses[k].values, idx')
    ensures ClauseMerged(s, n, k + 1, idx')
  {
    hide WellFormed, HasAttrUpTo, Resolvable, ResolveInv, ResolvedOk, Inherit, DepGraph;
    BaseIdx(s, root, s[n].clauses[k].base, st);
    BaseMerged(s, root, n, k, idx, st);
    assert Mergeable(s, n, k + 1);
    ClauseDeps(s, n, k);
    DepReachesLess(s, n, s[n].clauses[k].base);
    ResolvableIsMergeable(s, s[n].clauses[k].base);
  }

  lemma BaseIdx(s: Schema, root: Name, b: Name, st: ClassMap)
    requires WellFormed(s) && ResolveInv(s, root, st) && IsResolved(st, b) && b in s
    ensures Resolvable(s, b) && st[b].attrIdx == ClassIdx(s, b)
  {
    hide BaseInv, WellFormed, Resolvable, DepsResolved;
    assert ResolvedOk(s, root, b, st[b]);
  }

  lemma UniqBlocks(s: Schema, st: ClassMap, n: Name, u: nat, idx: AttrIdx)
    requires WellFormed(s) && n in s && ClauseMerged(s, n, |s[n].clauses|, idx)
    requires u < |s[n].uniq| && s[n].uniq[u] !in idx
    ensures Blocked(s, st, n)
  {
    assert s[n].uniq[u] in s[n].uniq && !HasAttrUpTo(s, n, |s[n].clauses|, s[n].uniq[u]);
    MisdeclaredBlocks(s, st, n);
  }

  /** All dependencies resolved, all declarations met: the class is resolved. */
  lemma Finished(s: Schema, root: Name, n: Name, st0: ClassMap, st1: ClassMap, st: ClassMap, st': ClassMap)
    requires WellFormed(s) && ResolveInv(s, root, st) && n in s && n in st0 && !st0[n].resolvingInProgress
    requires st1 == st0[n := st0[n].(resolvingInProgress := true)]
    requires ResolveStepFor(st1, st, n) && NoNewPending(st1, st)
    requires ClauseMerged(s, n, |s[n].clauses|, st[n].attrIdx)
    requires forall k :: 0 <= k < |s[n].clauses| ==> ClauseDepsResolved(s, st, n, k)
    requires if s[n].clauses == [] then root in st[n].ancestors else st[n].baseIsResolved
    requires DistinctNames(s[n].attrs) && forall a :: a in s[n].uniq ==> a in st[n].attrIdx
    requires st' == st[n := st[n].(isResolved := true)]
    ensures ResolveInv(s, root, st') && ResolveStep(st0, st') && IsResolved(st', n) && NoNewPending(st0, st')
  {
    hide WellFormed, ResolveInv, DepsResolved, ClauseMerged, ClauseDepsResolved, DistinctNames, ResolveStep,
         NoNewPending, Resolvable;
    DepsOfClauses(s, n, st);
    FinishedResolvable(s, root, n, st);
    FinishedInv(s, root, n, st);
    FinishedStep(n, st0, st1, st, st');
  }

  lemma FinishedStep(n: Name, st0: ClassMap, st1: ClassMap, st: ClassMap, st': ClassMap)
    requires n in st0 && !st0[n].resolvingInProgress && st1 == st0[n := st0[n].(resolvingInProgress := true)]
    requires ResolveStepFor(st1, st, n) && NoNewPending(st1, st)
    requires st' == st[n := st[n].(isResolved := true)]
    ensures ResolveStep(st0, st') && IsResolved(st', n) && NoNewPending(st0, st')
  {
    forall m | Pending(st', m)
      ensures Pending(st0, m)
    {
      assert Pending(st, m);
      assert Pending(st1, m);
    }
  }

  lemma FinishedInv(s: Schema, root: Name, n: Name, st: ClassMap)
    requires WellFormed(s) && ResolveInv(s, root, st) && n in s && Pending(st, n)
    requires Resolvable(s, n) && st[n].attrIdx == ClassIdx(s, n) && DepsResolved(s, st, n)
    requires if s[n].clauses == [] then root in st[n].ancestors else st[n].baseIsResolved
    ensures ResolveInv(s, root, st[n := st[n].(isResolved := true)])
  {
    hide WellFormed, ResolveInv, Resolvable, ClassIdx, AncestorsSound, AncestorsComplete, CycleFree;
    NodeInv(s, root, st, n);
    NodeReplaced(s, root, n, st, st[n].(isResolved := true));
  }

  lemma DepsOfClauses(s: Schema, n: Name, st: ClassMap)
    requires n in s && forall k :: 0 <= k < |s[n].clauses| ==> ClauseDepsResolved(s, st, n, k)
    ensures DepsResolved(s, st, n)
  {
    forall d | d in DepGraph(s)[n]
      ensures IsResolved(st, d)
    {
      if d in Bases(s[n]) {
        var k :| 0 <= k < |s[n].clauses| && s[n].clauses[k].base == d;
        assert ClauseDepsResolved(s, st, n, k);
      } else {
        var k, v :| 0 <= k < |s[n].clauses| && v in s[n].clauses[k].values && d in v.needs;
        assert ClauseDepsResolved(s, st, n, k);
        var j :| 0 <= j < |s[n].clauses[k].values| && s[n].clauses[k].values[j] == v;
      }
    }
  }

  lemma FinishedResolvable(s: Schema, root: Name, n: Name, st: ClassMap)
    requires WellFormed(s) && ResolveInv(s, root, st) && n in s && Pending(st, n)
    requires DepsResolved(s, st, n) && ClauseMerged(s, n, |s[n].clauses|, st[n].attrIdx)
    requires DistinctNames(s[n].attrs) && forall a :: a in s[n].uniq ==> a in st[n].attrIdx
    ensures Resolvable(s, n) && st[n].attrIdx == ClassIdx(s, n)
  {
    hide BaseInv, HasAttrUpTo;
    var g := DepGraph(s);
    forall d | d in g[n]
      ensures d in s && d != n && Resolvable(s, d)
    {
      assert ResolvedOk(s, root, d, st[d]);
    }
    CycleFreeFromSuccessors(g, n);
    assert AttrsOk(s, n);
    forall x | Reaches(g, n, x)
      ensures AttrsOk(s, x)
    {
      var d := ReachesFirstStep(g, n, x);
    }
  }
}
