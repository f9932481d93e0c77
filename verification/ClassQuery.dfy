/** From load to query: the records that resolving and indexing leave are what faceting asks for. */
module ClassQuery {
  import opened Digraph
  import opened ClassSchema
  import opened Options
  import opened ClassLoad
  import opened ClassTable
  import opened ClassResolve
  import ClassIndex
  import FacetPath
  import FacetTree

  function LineageOf(idx: ClassIndex.Index): FacetPath.Lineage
    reads idx
  {
    FacetPath.Lineage(map n | n in idx.ancestors && n != idx.root :: idx.ancestors[n],
                      map b | b in idx.records :: idx.records[b].children)
  }

  ghost predicate Loaded(idx: ClassIndex.Index)
    reads idx
  {
    && idx.Valid() && ClassIndex.IndexInv(idx.schema, idx.root, idx.records)
    && forall n :: n in idx.schema ==> idx.records[n].isIndexed
  }

  /** From new records, resolving and then indexing all classes gets through exactly when each of them
      is resolvable and can be indexed. */
  method LoadClasses(schema: Schema, root: Name, order: seq<Name>) returns (err: Err, idx: ClassIndex.Index?)
    requires WellFormed(schema) && root !in schema && forall n :: n in order <==> n in schema
    ensures err.Ok? <==> (forall n :: n in schema ==> Resolvable(schema, n) && ClassIndex.Indexable(schema, n))
    ensures err.Ok? <==> idx != null
    ensures err.Ok? ==> fresh(idx) && idx.schema == schema && idx.root == root && Loaded(idx)
    ensures err.Ok? ==>
              forall b :: b in idx.records ==>
                idx.records[b].children == ClassIndex.ChildrenOf(schema, root, order, b)
  {
    hide WellFormed, ResolveInv, Resolvable, NothingPending, ClassIndex.AncestorsOk, ClassIndex.IndexInv,
         ClassIndex.Indexable;
    var repo := new Repo(schema, root);
    FreshRepo(schema, root);
    idx := null;
    err := ResolveClasses(repo, order);
    if !err.Ok? {
      return;
    }
    var ancestors := map n | n in schema.Keys + {root} :: if n == root then [] else repo.classes[n].ancestors;
    ClassIndex.ResolvedIsIndexable(repo, ancestors);
    var index := new ClassIndex.Index(schema, root, ancestors);
    ClassIndex.FreshRecords(schema, root);
    err := index.IndexClasses(order);
    if err.Ok? {
      idx := index;
    }
  }

  /** Once all classes are resolved and indexed, the records give their lineage, and the children of
      every class, the root included, are classes of the schema. */
  lemma LoadedIsIndexed(idx: ClassIndex.Index)
    requires Loaded(idx)
    ensures FacetPath.Indexed(idx.schema, LineageOf(idx))
    ensures forall b, c :: b in idx.records && c in idx.records[b].children ==> c in idx.schema
  {
    hide Resolvable, WellFormed, IsA, Inherits, CycleFree, BaseGraph, ClassIndex.PairOk, ClassIndex.Counted,
         ClassIndex.NoRepeats;
    var s, l := idx.schema, LineageOf(idx);
    GraphsClosed(s);
    forall n | n in s
      ensures CycleFree(BaseGraph(s), n)
    {
      BasesCycleFree(s, n);
    }
    forall n, a | n in s && a in s
      ensures a in l.ancestors[n] <==> Inherits(s, n, a)
    {
      AncestorIffInherits(s, idx.root, n, a);
    }
    forall b, n | b in s
      ensures n in l.children[b] <==> n in s && b in BaseGraph(s)[n]
    {
      ChildIffBase(idx, b, n);
    }
  }

  lemma ChildIffBase(idx: ClassIndex.Index, b: Name, n: Name)
    requires Loaded(idx) && b in idx.schema
    ensures n in idx.records[b].children <==> n in idx.schema && b in BaseGraph(idx.schema)[n]
  {
    hide Resolvable, WellFormed, IsA, Inherits, CycleFree;
    if n in idx.schema {
      ClassIndex.Duality(idx, b, n);
      ClassIndex.NotOwnBase(idx.schema, n);
    }
  }

  lemma BasesCycleFree(s: Schema, n: Name)
    requires WellFormed(s) && n in s && Resolvable(s, n)
    ensures CycleFree(BaseGraph(s), n)
  {
    var g, d := BaseGraph(s), DepGraph(s);
    GraphsClosed(s);
    forall w | w == n || Reaches(g, n, w)
      ensures !Reaches(g, w, w)
    {
      if Reaches(g, n, w) {
        ReachesMonotone(g, d, n, w);
      }
      if Reaches(g, w, w) {
        ReachesMonotone(g, d, w, w);
      }
    }
  }

  lemma AncestorIffInherits(s: Schema, root: Name, n: Name, a: Name)
    requires WellFormed(s) && root !in s && n in s && a in s
    ensures IsA(s, root, n, a) <==> Inherits(s, n, a)
  {
    hide WellFormed;
    if s[n].clauses == [] {
      InheritsByBase(s, n, a);
    }
  }
}
