/** First stage of resolving a class: finding its bases, detecting base cycles, linking ancestors. */
module BaseResolve {
  import opened Digraph
  import opened ClassSchema
  import opened Options
  import opened ClassTable

  /** An ancestor list holds nothing but what the class inherits; only a class without base
      clauses may also list the root. */
  ghost predicate AncestorsSound(s: Schema, root: Name, n: Name, anc: seq<Name>)
    requires n in s
  {
    forall a :: a in anc ==> Inherits(s, n, a) || (a == root && s[n].clauses == [])
  }

  ghost predicate AncestorsComplete(s: Schema, n: Name, anc: seq<Name>)
    requires n in s
  {
    forall a :: Inherits(s, n, a) ==> a in anc
  }

  /** What holds of each class on its own. */
  ghost predicate BaseOk(s: Schema, root: Name, n: Name, c: KndClass)
    requires n in s
  {
    && AncestorsSound(s, root, n, c.ancestors)
    && (c.baseIsResolved ==> CycleFree(BaseGraph(s), n) && AncestorsComplete(s, n, c.ancestors))
  }

  ghost predicate BasesResolved(s: Schema, st: ClassMap, n: Name)
    requires n in s
  {
    forall b :: b in BaseGraph(s)[n] ==> b in st && st[b].baseIsResolved
  }

  ghost predicate BaseInv(s: Schema, root: Name, st: ClassMap) {
    && st.Keys == s.Keys
    && (forall n :: n in s ==> BaseOk(s, root, n, st[n]))
    && (forall n :: n in s && st[n].baseIsResolved ==> BasesResolved(s, st, n))
  }

  /** Flags are only ever raised, ancestor lists only grow, and no class stays half done that was not before. */
  ghost predicate BaseStep(st: ClassMap, st': ClassMap) {
    && st'.Keys == st.Keys
    && forall n :: n in st ==> BaseStepOf(st[n], st'[n])
  }

  ghost predicate BaseStepOf(c: KndClass, c': KndClass) {
    && c' == c.(ancestors := c'.ancestors, baseIsResolved := c'.baseIsResolved,
                baseResolvingInProgress := c'.baseResolvingInProgress)
    && (c.baseResolvingInProgress ==> c'.baseResolvingInProgress)
    && (c.baseIsResolved ==> c'.baseIsResolved)
    && (forall a :: a in c.ancestors ==> a in c'.ancestors)
  }

  ghost predicate HalfDone(st: ClassMap, n: Name) {
    n in st && st[n].baseResolvingInProgress && !st[n].baseIsResolved
  }

  ghost predicate NoNewHalfDone(st: ClassMap, st': ClassMap) {
    forall n :: HalfDone(st', n) ==> HalfDone(st, n)
  }

  /** Why resolving the bases of c must fail: c is, or reaches, a class on a base cycle, one that
      names itself, or one whose resolution has not returned. */
  ghost predicate BaseBlocked(s: Schema, st: ClassMap, c: Name) {
    exists x :: (x == c || Reaches(BaseGraph(s), c, x)) && BaseObstacle(s, st, x)
  }

  ghost predicate BaseObstacle(s: Schema, st: ClassMap, x: Name) {
    Reaches(BaseGraph(s), x, x) || HalfDone(st, x) || (x in s && x in Bases(s[x]))
  }

  /** Everything a class reaches through bases has its bases resolved once the class has. */
  lemma BelowResolved(s: Schema, root: Name, st: ClassMap, n: Name, x: Name)
    requires BaseInv(s, root, st) && n in s && st[n].baseIsResolved && Reaches(BaseGraph(s), n, x)
    ensures x in s && st[x].baseIsResolved
    decreases ReachSet(BaseGraph(s), n)
  {
    hide AncestorsSound, AncestorsComplete;
    var g := BaseGraph(s);
    var b := ReachesFirstStep(g, n, x);
    assert BaseOk(s, root, n, st[n]) && BasesResolved(s, st, n);
    if b != x {
      ReachSetShrinks(g, n, b);
      BelowResolved(s, root, st, b, x);
    }
  }

  /** No class resolving n comes across is under way, and none names itself. */
  ghost predicate Unhindered(s: Schema, st: ClassMap, n: Name) {
    && (forall x :: !HalfDone(st, x))
    && forall x :: x in s && (x == n || Reaches(BaseGraph(s), n, x)) ==> x !in Bases(s[x])
  }

  /** Then the first stage can only be blocked by a base cycle. */
  lemma BaseBlockedIffCyclic(s: Schema, st: ClassMap, n: Name)
    requires WellFormed(s) && n in s && Unhindered(s, st, n)
    ensures BaseBlocked(s, st, n) <==> !CycleFree(BaseGraph(s), n)
  {
    var g := BaseGraph(s);
    ReachesStaysInside(g);
    if x :| (x == n || Reaches(g, n, x)) && BaseObstacle(s, st, x) {
      assert Reaches(g, x, x);
    }
    if x :| (x == n || Reaches(g, n, x)) && Reaches(g, x, x) {
      assert BaseObstacle(s, st, x);
    }
  }

  lemma BlockedByCycle(s: Schema, st: ClassMap, n: Name)
    requires WellFormed(s) && n in s && BaseBlocked(s, st, n)
    ensures Unhindered(s, st, n) ==> !CycleFree(BaseGraph(s), n)
  {
    if Unhindered(s, st, n) {
      BaseBlockedIffCyclic(s, st, n);
    }
  }

  lemma BaseResolvedCycleFree(s: Schema, root: Name, st: ClassMap, n: Name)
    requires BaseInv(s, root, st) && n in s && st[n].baseIsResolved
    ensures CycleFree(BaseGraph(s), n)
  {
    assert BaseOk(s, root, n, st[n]);
  }

  ghost function Unflagged(st: ClassMap): set<Name> {
    set n | n in st && !st[n].baseResolvingInProgress
  }

  method LinkAncestor(repo: Repo, n: Name, base: Name)
    requires repo.Valid() && n in repo.schema
    modifies repo`classes
    ensures repo.Valid() && repo.classes == Relinked(old(repo.classes), n, repo.classes[n].ancestors)
    ensures repo.classes[n].ancestors
            == var anc := old(repo.classes)[n].ancestors; if base in anc then anc else [base] + anc
  {
    hide WellFormed;
    var i := 0;
    while i < |repo.classes[n].ancestors|
      invariant 0 <= i <= |repo.classes[n].ancestors|
      invariant base !in repo.classes[n].ancestors[..i]
    {
      if repo.classes[n].ancestors[i] == base {
        return;
      }
      i := i + 1;
    }
    repo.classes := Relinked(repo.classes, n, [base] + repo.classes[n].ancestors);
  }

  /** Copies the ancestors of `base`, except state tops, then registers `base` itself. */
  method LinkBaseclass(repo: Repo, n: Name, base: Name)
    requires repo.Valid() && n in repo.schema && base in repo.schema && base != n
    modifies repo`classes
    ensures repo.Valid() && repo.classes == Relinked(old(repo.classes), n, repo.classes[n].ancestors)
    ensures forall a :: a in repo.classes[n].ancestors <==>
              || a in old(repo.classes)[n].ancestors || a == base
              || (a in old(repo.classes)[base].ancestors && !repo.StateTop(a))
    ensures repo.classes[n].ancestors
            == [base] + Joined(repo, old(repo.classes)[n].ancestors, old(repo.classes)[base].ancestors)
  {
    hide WellFormed, Joined;
    var i := 0;
    JoinedNone(repo, repo.classes[n].ancestors, repo.classes[base].ancestors);
    JoinedHas(repo, repo.classes[n].ancestors, repo.classes[base].ancestors);
    while i < |repo.classes[base].ancestors|
      invariant repo.Valid() && repo.classes == Relinked(old(repo.classes), n, repo.classes[n].ancestors)
      invariant 0 <= i <= |repo.classes[base].ancestors|
      invariant repo.classes[n].ancestors
                == Joined(repo, old(repo.classes)[n].ancestors, repo.classes[base].ancestors[..i])
    {
      JoinedStep(repo, old(repo.classes)[n].ancestors, repo.classes[base].ancestors, i);
      if !repo.StateTop(repo.classes[base].ancestors[i]) {
        LinkAncestor(repo, n, repo.classes[base].ancestors[i]);
      }
      i := i + 1;
    }
    assert repo.classes[base].ancestors[..i] == repo.classes[base].ancestors;
    repo.classes := Relinked(repo.classes, n, [base] + repo.classes[n].ancestors);
  }

  /** Those of `more` that are no state tops and not there yet go in front of the list, one by one. */
  function Joined(repo: Repo, anc: seq<Name>, more: seq<Name>): seq<Name> {
    if more == [] then anc
    else
      var last, before := more[|more| - 1], Joined(repo, anc, more[..|more| - 1]);
      if repo.StateTop(last) || last in before then before else [last] + before
  }

  lemma {:induction false} JoinedHas(repo: Repo, anc: seq<Name>, more: seq<Name>)
    ensures forall a :: a in Joined(repo, anc, more) <==> a in anc || (a in more && !repo.StateTop(a))
  {
    if more != [] {
      JoinedHas(repo, anc, more[..|more| - 1]);
      assert more == more[..|more| - 1] + [more[|more| - 1]];
    }
  }

  lemma JoinedNone(repo: Repo, anc: seq<Name>, more: seq<Name>)
    ensures Joined(repo, anc, more[..0]) == anc
  {
  }

  lemma JoinedStep(repo: Repo, anc: seq<Name>, more: seq<Name>, i: nat)
    requires i < |more|
    ensures var before := Joined(repo, anc, more[..i]);
            Joined(repo, anc, more[..i + 1])
            == if repo.StateTop(more[i]) || more[i] in before then before else [more[i]] + before
  {
    assert more[..i + 1][..i] == more[..i];
  }

  /** The list stays as it was, behind the newcomers; each of these is there once. */
  ghost predicate Behind(anc: seq<Name>, r: seq<Name>) {
    && |anc| <= |r| && r[|r| - |anc|..] == anc
    && forall i, j :: 0 <= i < j < |r| && i < |r| - |anc| ==> r[i] != r[j]
  }

  lemma {:induction false} JoinedBehind(repo: Repo, anc: seq<Name>, more: seq<Name>)
    ensures Behind(anc, Joined(repo, anc, more))
  {
    hide Behind;
    if more == [] {
      NobodyAhead(anc);
    } else {
      var n := |more| - 1;
      JoinedBehind(repo, anc, more[..n]);
      OneAhead(anc, Joined(repo, anc, more[..n]), more[n]);
    }
  }

  lemma NobodyAhead(anc: seq<Name>)
    ensures Behind(anc, anc)
  {
  }

  lemma OneAhead(anc: seq<Name>, r: seq<Name>, x: Name)
    requires Behind(anc, r)
    ensures x !in r ==> Behind(anc, [x] + r)
  {
  }

  function Relinked(st: ClassMap, n: Name, anc: seq<Name>): ClassMap
    requires n in st
  {
    st[n := st[n].(ancestors := anc)]
  }

  method ResolveBaseclasses(repo: Repo, n: Name) returns (err: Err)
    requires repo.Valid() && n in repo.schema
    requires BaseInv(repo.schema, repo.root, repo.classes)
    modifies repo
    ensures repo.Valid() && BaseStep(old(repo.classes), repo.classes) && old(repo.bound) <= repo.bound
    ensures err.Ok? ==> BaseInv(repo.schema, repo.root, repo.classes)
    ensures err.Ok? ==> repo.classes[n].baseIsResolved && NoNewHalfDone(old(repo.classes), repo.classes)
    ensures err.Ok? ==> Bases(repo.schema[n]) <= repo.bound
    ensures !err.Ok? ==> BasesBlocked(repo.schema, old(repo.classes), n)
    decreases Unflagged(repo.classes), 2
  {
    hide BaseInv, BaseStep, NoNewHalfDone, BaseLinked, BasesBlocked, WellFormed, Bases;
    ghost var s, root := repo.schema, repo.root;
    ghost var st0 := repo.classes;
    BaseStepRefl(st0);
    var i := 0;
    while i < |repo.schema[n].clauses|
      invariant 0 <= i <= |repo.schema[n].clauses|
      invariant repo.Valid()
      invariant BaseInv(s, root, repo.classes) && BaseStep(st0, repo.classes) && NoNewHalfDone(st0, repo.classes)
      invariant old(repo.bound) <= repo.bound
      invariant forall j :: 0 <= j < i ==> s[n].clauses[j].base in repo.bound
      invariant forall j :: 0 <= j < i ==> BaseLinked(s, repo.classes, n, s[n].clauses[j].base)
    {
      ghost var st := repo.classes;
      UnflaggedShrinks(st0, st);
      err := ResolveBaseclass(repo, n, i);
      if !err.Ok? {
        BlockedLater(s, st0, st, repo.classes, n);
        return;
      }
      StepTwice(s, n, st0, st, repo.classes);
      i := i + 1;
    }
    ghost var st2 := repo.classes;
    repo.classes := repo.classes[n := repo.classes[n].(baseIsResolved := true)];
    AllLinked(s, root, n, st2, repo.classes);
    StepTwice(s, n, st0, st2, repo.classes);
    AllBound(s[n], repo.bound);
    err := Ok;
  }

  lemma AllBound(d: ClassDecl, bound: set<Name>)
    requires forall j :: 0 <= j < |d.clauses| ==> d.clauses[j].base in bound
    ensures Bases(d) <= bound
  {
  }

  /** The loop body of ResolveBaseclasses: one base clause. */
  method ResolveBaseclass(repo: Repo, n: Name, i: nat) returns (err: Err)
    requires repo.Valid() && n in repo.schema && i < |repo.schema[n].clauses|
    requires BaseInv(repo.schema, repo.root, repo.classes)
    modifies repo
    ensures repo.Valid() && BaseStep(old(repo.classes), repo.classes) && old(repo.bound) <= repo.bound
    ensures err.Ok? ==> BaseInv(repo.schema, repo.root, repo.classes)
    ensures err.Ok? ==> NoNewHalfDone(old(repo.classes), repo.classes)
    ensures err.Ok? ==> repo.schema[n].clauses[i].base in repo.bound
    ensures err.Ok? ==> BaseLinked(repo.schema, repo.classes, n, repo.schema[n].clauses[i].base)
    ensures !err.Ok? ==> BasesBlocked(repo.schema, old(repo.classes), n)
    decreases Unflagged(repo.classes), 1
  {
    hide BaseInv, BaseStep, NoNewHalfDone, BaseLinked, BasesBlocked, BaseBlocked, WellFormed, Bases, BaseGraph;
    ghost var s, root := repo.schema, repo.root;
    ghost var st := repo.classes;
    var base := repo.schema[n].clauses[i].base;
    BaseStepRefl(st);
    BaseClause(s, n, i);
    err := Ok;
    if base == n {
      if n !in repo.bound {
        SelfBlocks(s, st, n);
        return Fail;
      }
      SelfLinked(s, st, n);
    } else {
      if !repo.classes[base].baseIsResolved {
        err := ResolveBase(repo, base);
        if !err.Ok? {
          BaseBlocks(s, st, n, base);
          return;
        }
      }
      ghost var st1 := repo.classes;
      LinkBaseclass(repo, n, base);
      repo.bound := repo.bound + {base};
      LinkKeepsInv(s, root, n, base, st1, repo.classes[n].ancestors);
      StepTwice(s, n, st, st1, repo.classes);
    }
  }

  lemma BaseStepRefl(st: ClassMap)
    ensures BaseStep(st, st) && NoNewHalfDone(st, st)
  {
  }

  /** The i-th base clause names a declared class, a base edge unless it names the class itself. */
  lemma BaseClause(s: Schema, n: Name, i: nat)
    requires WellFormed(s) && n in s && i < |s[n].clauses|
    ensures s[n].clauses[i].base in s && s[n].clauses[i].base in Bases(s[n])
    ensures s[n].clauses[i].base != n ==> s[n].clauses[i].base in BaseGraph(s)[n]
  {
    ClauseDeps(s, n, i);
  }

  lemma SelfBlocks(s: Schema, st: ClassMap, n: Name)
    requires n in s && n in Bases(s[n])
    ensures BasesBlocked(s, st, n)
  {
  }

  lemma SelfLinked(s: Schema, st: ClassMap, n: Name)
    requires st.Keys == s.Keys && n in s
    ensures BaseLinked(s, st, n, n)
  {
  }

  lemma UnflaggedShrinks(st: ClassMap, st': ClassMap)
    requires BaseStep(st, st')
    ensures Unflagged(st') == Unflagged(st) || Unflagged(st') < Unflagged(st)
  {
    assert Unflagged(st') <= Unflagged(st);
  }

  lemma BaseBlocks(s: Schema, st: ClassMap, n: Name, b: Name)
    requires n in s && b in BaseGraph(s)[n] && BaseBlocked(s, st, b)
    ensures BasesBlocked(s, st, n)
  {
  }

  lemma BlockedLater(s: Schema, st0: ClassMap, st: ClassMap, st': ClassMap, n: Name)
    requires BasesBlocked(s, st, n) && NoNewHalfDone(st0, st)
    requires BaseStep(st0, st) && BaseStep(st, st')
    ensures BasesBlocked(s, st0, n) && BaseStep(st0, st')
  {
    if n !in Bases(s[n]) {
      var b :| b in BaseGraph(s)[n] && BaseBlocked(s, st, b);
      var x :| (x == b || Reaches(BaseGraph(s), b, x)) && BaseObstacle(s, st, x);
      assert BaseObstacle(s, st0, x);
    }
  }

  lemma StepTwice(s: Schema, n: Name, st0: ClassMap, st: ClassMap, st': ClassMap)
    requires st0.Keys == s.Keys && n in s
    requires BaseStep(st0, st) && NoNewHalfDone(st0, st)
    requires BaseStep(st, st') && NoNewHalfDone(st, st')
    ensures BaseStep(st0, st') && NoNewHalfDone(st0, st')
    ensures forall b :: BaseLinked(s, st, n, b) ==> BaseLinked(s, st', n, b)
  {
  }

  /** What one linked base clause leaves behind. */
  ghost predicate BaseLinked(s: Schema, st: ClassMap, n: Name, b: Name)
    requires st.Keys == s.Keys && n in s
  {
    b != n ==>
      && b in s && st[b].baseIsResolved
      && forall a :: a == b || (Inherits(s, b, a) && !IsTop(s, a)) ==> a in st[n].ancestors
  }

  ghost predicate BasesBlocked(s: Schema, st: ClassMap, n: Name) {
    n in s && (n in Bases(s[n]) || exists b :: b in BaseGraph(s)[n] && BaseBlocked(s, st, b))
  }

  lemma LinkKeepsInv(s: Schema, root: Name, n: Name, b: Name, st: ClassMap, anc: seq<Name>)
    requires WellFormed(s) && root !in s && BaseInv(s, root, st) && n in s && b in s
    requires b in BaseGraph(s)[n] && st[b].baseIsResolved
    requires forall a :: a in anc <==>
               a in st[n].ancestors || a == b || (a in st[b].ancestors && !(a == root || IsTop(s, a)))
    ensures BaseInv(s, root, Relinked(st, n, anc)) && BaseStep(st, Relinked(st, n, anc))
    ensures NoNewHalfDone(st, Relinked(st, n, anc))
    ensures BaseLinked(s, Relinked(st, n, anc), n, b)
  {
    hide AncestorsSound, AncestorsComplete, CycleFree, Inherits, WellFormed;
    LinkKeepsNode(s, root, n, b, st[n], st[b], st[n].(ancestors := anc));
    NodeUpdated(s, root, n, st, st[n].(ancestors := anc));
  }

  /** Updating one class well keeps the invariant. */
  lemma NodeUpdated(s: Schema, root: Name, n: Name, st: ClassMap, c: KndClass)
    requires BaseInv(s, root, st) && n in s
    requires BaseOk(s, root, n, c) && BaseStepOf(st[n], c)
    requires c.baseIsResolved ==> BasesResolved(s, st, n)
    requires c.baseResolvingInProgress == st[n].baseResolvingInProgress
    ensures BaseInv(s, root, st[n := c]) && BaseStep(st, st[n := c]) && NoNewHalfDone(st, st[n := c])
  {
    hide BaseOk;
    forall m | m in s && st[n := c][m].baseIsResolved
      ensures BasesResolved(s, st[n := c], m)
    {
      assert BasesResolved(s, st, m);
    }
  }

  lemma LinkKeepsNode(s: Schema, root: Name, n: Name, b: Name, c: KndClass, cb: KndClass, c': KndClass)
    requires WellFormed(s) && root !in s && n in s && b in s && b in BaseGraph(s)[n]
    requires BaseOk(s, root, n, c) && BaseOk(s, root, b, cb) && cb.baseIsResolved
    requires c' == c.(ancestors := c'.ancestors)
    requires forall a :: a in c'.ancestors <==>
               a in c.ancestors || a == b || (a in cb.ancestors && !(a == root || IsTop(s, a)))
    ensures BaseOk(s, root, n, c') && BaseStepOf(c, c')
    ensures forall a :: a == b || (Inherits(s, b, a) && !IsTop(s, a)) ==> a in c'.ancestors
  {
    forall a | a in c'.ancestors && a !in c.ancestors
      ensures Inherits(s, n, a)
    {
      InheritsByBase(s, n, a);
    }
    forall a | Inherits(s, b, a) && !IsTop(s, a)
      ensures a in c'.ancestors
    {
      InheritedIsDeclared(s, b, a);
    }
  }

  lemma InheritedIsDeclared(s: Schema, n: Name, a: Name)
    requires WellFormed(s) && Inherits(s, n, a)
    ensures a in s
  {
    GraphsClosed(s);
    ReachesStaysInside(BaseGraph(s));
  }

  lemma AllLinked(s: Schema, root: Name, n: Name, st: ClassMap, st': ClassMap)
    requires WellFormed(s) && BaseInv(s, root, st) && n in s
    requires forall j :: 0 <= j < |s[n].clauses| ==> BaseLinked(s, st, n, s[n].clauses[j].base)
    requires st' == st[n := st[n].(baseIsResolved := true)]
    ensures BaseInv(s, root, st') && BaseStep(st, st') && NoNewHalfDone(st, st')
  {
    hide AncestorsSound, AncestorsComplete, CycleFree, Inherits, WellFormed, BaseLinked;
    AllLinkedNode(s, root, n, st);
    NodeUpdated(s, root, n, st, st[n].(baseIsResolved := true));
  }

  lemma AllLinkedNode(s: Schema, root: Name, n: Name, st: ClassMap)
    requires WellFormed(s) && BaseInv(s, root, st) && n in s
    requires forall j :: 0 <= j < |s[n].clauses| ==> BaseLinked(s, st, n, s[n].clauses[j].base)
    ensures CycleFree(BaseGraph(s), n) && AncestorsComplete(s, n, st[n].ancestors) && BasesResolved(s, st, n)
  {
    GraphsClosed(s);
    forall b | b in BaseGraph(s)[n]
      ensures CycleFree(BaseGraph(s), b) && b in s && st[b].baseIsResolved
    {
      assert BaseLinked(s, st, n, b);
      assert BaseOk(s, root, b, st[b]);
    }
    CycleFreeFromSuccessors(BaseGraph(s), n);
    forall a | Inherits(s, n, a)
      ensures a in st[n].ancestors
    {
      InheritsByBase(s, n, a);
      var b :| b in BaseGraph(s)[n] && (a == b || (Inherits(s, b, a) && !IsTop(s, a)));
      assert BaseLinked(s, st, n, b);
    }
  }

  method ResolveBase(repo: Repo, n: Name) returns (err: Err)
    requires repo.Valid() && n in repo.schema && !repo.classes[n].baseIsResolved
    requires BaseInv(repo.schema, repo.root, repo.classes)
    modifies repo
    ensures repo.Valid() && BaseStep(old(repo.classes), repo.classes) && old(repo.bound) <= repo.bound
    ensures err.Ok? ==> BaseInv(repo.schema, repo.root, repo.classes)
    ensures err.Ok? ==> repo.classes[n].baseIsResolved && NoNewHalfDone(old(repo.classes), repo.classes)
    ensures !err.Ok? ==> BaseBlocked(repo.schema, old(repo.classes), n)
    ensures Unhindered(repo.schema, old(repo.classes), n) ==> (err.Ok? <==> CycleFree(BaseGraph(repo.schema), n))
    decreases Unflagged(repo.classes), 0
  {
    hide BaseInv, BaseStep, NoNewHalfDone, BasesBlocked, BaseGraph, WellFormed, Unhindered;
    ghost var s, root := repo.schema, repo.root;
    ghost var st0 := repo.classes;
    BaseStepRefl(st0);
    if repo.classes[n].baseResolvingInProgress {
      assert BaseObstacle(s, st0, n);
      BlockedByCycle(s, st0, n);
      return Fail;
    }
    repo.classes := repo.classes[n := repo.classes[n].(baseResolvingInProgress := true)];
    ghost var st1 := repo.classes;
    FlagRaised(s, root, n, st0, st1);
    err := ResolveBaseclasses(repo, n);
    ghost var st2 := repo.classes;
    FlagStep(n, st0, st1, st2);
    if !err.Ok? {
      BlockedAbove(s, n, st0, st1);
      BlockedByCycle(s, st0, n);
      return;
    }
    repo.classes := repo.classes[n := repo.classes[n].(baseIsResolved := true)];
    assert repo.classes == st2;
    BaseResolvedCycleFree(s, root, st2, n);
  }

  lemma FlagRaised(s: Schema, root: Name, n: Name, st: ClassMap, st': ClassMap)
    requires BaseInv(s, root, st) && n in s && !st[n].baseResolvingInProgress
    requires st' == st[n := st[n].(baseResolvingInProgress := true)]
    ensures BaseInv(s, root, st')
    ensures Unflagged(st') < Unflagged(st)
  {
    hide AncestorsSound, AncestorsComplete, CycleFree, Inherits;
    forall m | m in s && st'[m].baseIsResolved
      ensures BasesResolved(s, st', m)
    {
      assert BasesResolved(s, st, m);
    }
    assert n in Unflagged(st) && n !in Unflagged(st');
  }

  lemma FlagStep(n: Name, st: ClassMap, st1: ClassMap, st': ClassMap)
    requires n in st && st1 == st[n := st[n].(baseResolvingInProgress := true)] && BaseStep(st1, st')
    ensures BaseStep(st, st')
    ensures NoNewHalfDone(st1, st') && st'[n].baseIsResolved ==> NoNewHalfDone(st, st')
  {
  }

  /** A base blocked by the flag this class has just raised closes a cycle through the class. */
  lemma BlockedAbove(s: Schema, n: Name, st: ClassMap, st': ClassMap)
    requires WellFormed(s) && n in s && st.Keys == s.Keys
    requires st' == st[n := st[n].(baseResolvingInProgress := true)]
    requires BasesBlocked(s, st', n)
    ensures BaseBlocked(s, st, n)
  {
    var g := BaseGraph(s);
    GraphsClosed(s);
    if n in Bases(s[n]) {
      assert BaseObstacle(s, st, n);
    } else {
      var b :| b in g[n] && BaseBlocked(s, st', b);
      var x :| (x == b || Reaches(g, b, x)) && BaseObstacle(s, st', x);
      EdgeReaches(g, n, b);
      if x != b {
        ReachesTransitive(g, n, b, x);
      }
      assert BaseObstacle(s, st, x);
    }
  }
}
