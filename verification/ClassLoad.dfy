/** Bulk load: resolving every class of a repo, and what the resolved graph then answers. */
module ClassLoad {
  import opened Digraph
  import opened ClassSchema
  import opened Options
  import opened ClassTable
  import opened BaseResolve
  import opened ClassResolve

  ghost predicate NothingPending(st: ClassMap) {
    forall n :: !Pending(st, n)
  }

  /** With no resolution under way, whatever blocks a class is in the schema. */
  lemma BlockedIsUnresolvable(s: Schema, st: ClassMap, n: Name)
    requires WellFormed(s) && NothingPending(st) && Blocked(s, st, n)
    ensures !Resolvable(s, n)
  {
    var x :| (x == n || Reaches(DepGraph(s), n, x)) && Obstacle(s, st, x);
    assert !Pending(st, x);
  }

  lemma ResolvedIsResolvable(s: Schema, root: Name, st: ClassMap, n: Name)
    requires WellFormed(s) && ResolveInv(s, root, st) && IsResolved(st, n)
    ensures n in s && Resolvable(s, n) && st[n].attrIdx == ClassIdx(s, n)
  {
    hide WellFormed;
    KeysAgree(s, root, st);
    BaseIdx(s, root, n, st);
  }

  lemma FreshRepo(s: Schema, root: Name)
    requires WellFormed(s)
    ensures ResolveInv(s, root, NewClasses(s)) && NothingPending(NewClasses(s))
  {
    hide WellFormed;
    var st := NewClasses(s);
    forall n | n in s
      ensures BaseOk(s, root, n, st[n]) && ResolvedOk(s, root, n, st[n]) && !HalfDone(st, n)
    {
    }
  }

  /** Resolves the classes in the order the name index yields them, stopping at the first failure.
      It gets through exactly when every one of them is resolvable. */
  method ResolveClasses(repo: Repo, order: seq<Name>) returns (err: Err)
    requires repo.Valid() && forall n :: n in order ==> n in repo.schema
    requires ResolveInv(repo.schema, repo.root, repo.classes) && NothingPending(repo.classes)
    modifies repo
    ensures repo.Valid()
    ensures err.Ok? <==> forall n :: n in order ==> Resolvable(repo.schema, n)
    ensures err.Ok? ==> ResolveInv(repo.schema, repo.root, repo.classes) && NothingPending(repo.classes)
    ensures err.Ok? ==> forall n :: n in order ==> IsResolved(repo.classes, n)
  {
    hide WellFormed, ResolveInv, Resolvable, Blocked, ResolveStep;
    ghost var s := repo.schema;
    var i := 0;
    while i < |order|
      invariant 0 <= i <= |order|
      invariant repo.Valid() && ResolveInv(s, repo.root, repo.classes) && NothingPending(repo.classes)
      invariant forall n :: n in order[..i] ==> IsResolved(repo.classes, n)
    {
      ghost var st := repo.classes;
      if !repo.classes[order[i]].isResolved {
        err := ResolveClass(repo, order[i]);
        if !err.Ok? {
          BlockedIsUnresolvable(s, st, order[i]);
          return;
        }
        StaysResolved(s, repo.root, st, repo.classes);
      }
      i := i + 1;
    }
    forall n | n in order
      ensures Resolvable(s, n)
    {
      ResolvedIsResolvable(s, repo.root, repo.classes, n);
    }
    err := Ok;
  }

  lemma StaysResolved(s: Schema, root: Name, st: ClassMap, st': ClassMap)
    requires WellFormed(s) && ResolveInv(s, root, st) && ResolveStep(st, st')
    ensures forall n :: IsResolved(st, n) ==> IsResolved(st', n)
  {
    hide WellFormed, Resolvable, BaseOk;
    forall n | IsResolved(st, n)
      ensures IsResolved(st', n)
    {
      assert ResolvedOk(s, root, n, st[n]) && ResolveStepOf(st[n], st'[n]);
    }
  }

  /** What knd_is_base is asked about: the root for a class without base clauses, what the class
      inherits for any other. */
  ghost predicate IsA(s: Schema, root: Name, child: Name, base: Name)
    requires child in s
  {
    if s[child].clauses == [] then base == root else Inherits(s, child, base)
  }

  /** The ancestor list of a resolved class is, as a set, exactly that. */
  lemma AncestorsExact(s: Schema, root: Name, st: ClassMap, n: Name, a: Name)
    requires WellFormed(s) && root !in s && ResolveInv(s, root, st) && IsResolved(st, n) && n in s
    ensures a in st[n].ancestors <==> IsA(s, root, n, a)
  {
    hide WellFormed, ResolveInv, Resolvable, ClassIdx, CycleFree;
    NodeInv(s, root, st, n);
    if s[n].clauses == [] {
      InheritsByBase(s, n, a);
    }
  }

  /** The cursor loop over the child's ancestors. */
  method IsBase(repo: Repo, self: Name, child: Name) returns (found: bool)
    requires repo.Valid() && ResolveInv(repo.schema, repo.root, repo.classes)
    requires child in repo.schema && IsResolved(repo.classes, child)
    ensures found <==> IsA(repo.schema, repo.root, child, self)
  {
    hide WellFormed, ResolveInv, IsA;
    AncestorsExact(repo.schema, repo.root, repo.classes, child, self);
    var anc := repo.classes[child].ancestors;
    var i := 0;
    while i < |anc|
      invariant 0 <= i <= |anc|
      invariant self !in anc[..i]
    {
      if anc[i] == self {
        return true;
      }
      i := i + 1;
    }
    found := false;
  }

  /** A resolved class finds an attribute by name exactly when it, or a class it reaches through bases,
      declares one; the walk over the index takes the attributes in any order. */
  method GetAttr(repo: Repo, n: Name, name: nat) returns (r: Option<Attr>)
    requires repo.Valid() && ResolveInv(repo.schema, repo.root, repo.classes)
    requires n in repo.schema && IsResolved(repo.classes, n)
    ensures r.Some? ==> HasAttr(repo.schema, n, r.value) && r.value.name == name
    ensures r.None? ==> forall a :: HasAttr(repo.schema, n, a) ==> a.name != name
  {
    hide WellFormed, ResolveInv, HasAttr, Resolvable;
    ResolvedIsResolvable(repo.schema, repo.root, repo.classes, n);
    ghost var s := repo.schema;
    forall a
      ensures a in repo.classes[n].attrIdx <==> HasAttr(s, n, a)
    {
      ClassIdxKeys(s, n, a);
    }
    var idx := repo.classes[n].attrIdx;
    var rest := idx.Keys;
    while rest != {}
      invariant rest <= idx.Keys
      invariant forall a :: a in idx && a !in rest ==> a.name != name
    {
      var a :| a in rest;
      if a.name == name {
        return Some(a);
      }
      rest := rest - {a};
    }
    r := None;
  }

  /** A base may carry its own update clause through the first stage; the second still rejects it. */
  lemma SelfNamingNeverResolves(s: Schema, n: Name)
    requires WellFormed(s) && n in s && n in Bases(s[n])
    ensures !Resolvable(s, n)
    ensures forall c :: Reaches(DepGraph(s), c, n) ==> !Resolvable(s, c)
  {
    EdgeReaches(DepGraph(s), n, n);
  }
}
