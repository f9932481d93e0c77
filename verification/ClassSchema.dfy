/** What a repo declares about its classes, and what inheritance means for those declarations.
    Nothing here knows how classes get resolved. */
module ClassSchema {
  import opened Digraph
  import opened Options

  /** An attribute as one class declares it: `id` tells apart attributes of the same name. */
  datatype Attr = Attr(id: nat, name: nat)

  /** A value that a base clause gives to an attribute.  `needs` lists the classes that resolving
      the value resolves first: the template class of an inner object or a reference. */
  datatype AttrVar = AttrVar(attr: Attr, val: nat, needs: seq<Name>)

  datatype Clause = Clause(base: Name, values: seq<AttrVar>)

  datatype ClassDecl = ClassDecl(attrs: seq<Attr>, clauses: seq<Clause>, uniq: seq<Attr>, stateTop: bool)

  type Schema = map<Name, ClassDecl>

  /** An attribute index: the attributes a class has, each with the value it holds there, if any. */
  type AttrIdx = map<Attr, Option<AttrVar>>

  // ---------------------------------------------------------------- the two graphs of a schema

  ghost function Bases(d: ClassDecl): set<Name> {
    set i | 0 <= i < |d.clauses| :: d.clauses[i].base
  }

  ghost function Needs(d: ClassDecl): set<Name> {
    set i, v, c | 0 <= i < |d.clauses| && v in d.clauses[i].values && c in v.needs :: c
  }

  /** Base edges.  A clause that names its own class is an update request and no edge. */
  ghost function BaseGraph(s: Schema): (g: Graph)
    ensures g.Keys == s.Keys
  {
    map n | n in s :: Bases(s[n]) - {n}
  }

  /** Resolution edges: bases (its own name included) and the classes its values need. */
  ghost function DepGraph(s: Schema): (g: Graph)
    ensures g.Keys == s.Keys
  {
    map n | n in s :: Bases(s[n]) + Needs(s[n])
  }

  /** Every class a clause or a value mentions is declared. */
  ghost predicate WellFormed(s: Schema) {
    Closed(DepGraph(s))
  }

  lemma GraphsClosed(s: Schema)
    requires WellFormed(s)
    ensures Closed(BaseGraph(s))
    ensures forall n, b :: n in s && b in BaseGraph(s)[n] ==> b in DepGraph(s)[n]
  {
    forall n, b | n in s && b in BaseGraph(s)[n]
      ensures b in DepGraph(s)[n] && b in s
    {
      assert b in DepGraph(s)[n];
    }
  }

  lemma ClauseDeps(s: Schema, n: Name, i: nat)
    requires WellFormed(s) && n in s && i < |s[n].clauses|
    ensures s[n].clauses[i].base in DepGraph(s)[n] && s[n].clauses[i].base in s
    ensures forall v, c :: v in s[n].clauses[i].values && c in v.needs ==> c in DepGraph(s)[n] && c in s
  {
    assert s[n].clauses[i].base in DepGraph(s)[n];
    forall v, c | v in s[n].clauses[i].values && c in v.needs
      ensures c in DepGraph(s)[n] && c in s
    {
      assert c in Needs(s[n]);
    }
  }

  // ---------------------------------------------------------------- ancestors

  ghost predicate IsTop(s: Schema, n: Name) {
    n in s && s[n].stateTop
  }

  /** A direct base, or any class reachable through bases that is not a state top. */
  ghost predicate Inherits(s: Schema, n: Name, a: Name) {
    n in s && (a in BaseGraph(s)[n] || (Reaches(BaseGraph(s), n, a) && !IsTop(s, a)))
  }

  /** One base clause contributes the base itself and what the base inherits, except state tops. */
  lemma InheritsByBase(s: Schema, n: Name, a: Name)
    requires WellFormed(s) && n in s
    ensures Inherits(s, n, a)
      <==> exists b :: b in BaseGraph(s)[n] && (a == b || (Inherits(s, b, a) && !IsTop(s, a)))
  {
    var g := BaseGraph(s);
    GraphsClosed(s);
    ReachesBySuccessor(g, n, a);
    if b :| b in g[n] && Inherits(s, b, a) && !IsTop(s, a) {
      if a in g[b] {
        EdgeReaches(g, b, a);
      }
    }
  }

  // ---------------------------------------------------------------- the index a class ends up with

  function OwnIdx(attrs: seq<Attr>): (r: AttrIdx)
    ensures forall a :: a in r <==> a in attrs
    ensures forall a :: a in r ==> r[a] == None
  {
    map a | a in attrs :: None
  }

  /** Merging a base: an attribute the base holds a value for takes that value. */
  function Inherit(idx: AttrIdx, base: AttrIdx): (r: AttrIdx)
    ensures r.Keys == idx.Keys + base.Keys
  {
    map a | a in idx.Keys + base.Keys ::
      if a in base && base[a].Some? then base[a] else if a in idx then idx[a] else None
  }

  /** Own values of a clause override whatever the index holds. */
  function Assign(idx: AttrIdx, vars: seq<AttrVar>): (r: AttrIdx)
    ensures (forall v :: v in vars ==> v.attr in idx) ==> r.Keys == idx.Keys
  {
    if vars == [] then idx
    else
      var last := vars[|vars| - 1];
      Assign(idx, vars[..|vars| - 1])[last.attr := Some(last)]
  }

  /** a is declared by n itself or by a class n reaches through bases. */
  ghost predicate HasAttr(s: Schema, n: Name, a: Attr) {
    n in s && (a in s[n].attrs || exists b :: Reaches(BaseGraph(s), n, b) && b in s && a in s[b].attrs)
  }

  /** The attributes of n once its first k clauses are merged. */
  ghost predicate HasAttrUpTo(s: Schema, n: Name, k: nat, a: Attr)
    requires n in s && k <= |s[n].clauses|
  {
    a in s[n].attrs || exists j :: 0 <= j < k && HasAttr(s, s[n].clauses[j].base, a)
  }

  ghost predicate DistinctNames(attrs: seq<Attr>) {
    forall i, j :: 0 <= i < j < |attrs| ==> attrs[i].name != attrs[j].name
  }

  /** What the class itself must satisfy: no attribute name declared twice, values only for
      attributes it has by then, and `uniq` constraints only on attributes it has. */
  ghost predicate AttrsOk(s: Schema, n: Name) {
    && n in s
    && DistinctNames(s[n].attrs)
    && (forall i, v :: 0 <= i < |s[n].clauses| && v in s[n].clauses[i].values ==> HasAttrUpTo(s, n, i + 1, v.attr))
    && (forall a :: a in s[n].uniq ==> HasAttrUpTo(s, n, |s[n].clauses|, a))
  }

  /** Nothing n depends on, n included, is on a dependency cycle or mis-declares its attributes. */
  ghost predicate Resolvable(s: Schema, n: Name) {
    && n in s
    && CycleFree(DepGraph(s), n)
    && AttrsOk(s, n)
    && forall x :: Reaches(DepGraph(s), n, x) ==> AttrsOk(s, x)
  }

  lemma ResolvableDep(s: Schema, n: Name, d: Name)
    requires WellFormed(s) && Resolvable(s, n) && d in DepGraph(s)[n]
    ensures d in s && Resolvable(s, d)
    ensures ReachSet(DepGraph(s), d) < ReachSet(DepGraph(s), n)
  {
    var g := DepGraph(s);
    ReachSetShrinks(g, n, d);
    EdgeReaches(g, n, d);
    forall x | Reaches(g, d, x)
      ensures AttrsOk(s, x)
    {
      ReachesTransitive(g, n, d, x);
    }
  }

  lemma HasAttrUpToStep(s: Schema, n: Name, k: nat, a: Attr)
    requires n in s && 0 < k <= |s[n].clauses|
    ensures HasAttrUpTo(s, n, k, a) <==> HasAttrUpTo(s, n, k - 1, a) || HasAttr(s, s[n].clauses[k - 1].base, a)
  {
  }

  /** Having an attribute by the clauses is having it at all. */
  lemma HasAttrByClauses(s: Schema, n: Name, a: Attr)
    requires WellFormed(s) && Resolvable(s, n)
    ensures HasAttrUpTo(s, n, |s[n].clauses|, a) <==> HasAttr(s, n, a)
  {
    var g := BaseGraph(s);
    GraphsClosed(s);
    if j :| 0 <= j < |s[n].clauses| && HasAttr(s, s[n].clauses[j].base, a) {
      BaseAttrsInherited(s, n, j, a);
    }
    if x :| Reaches(g, n, x) && x in s && a in s[x].attrs {
      var b := ReachesFirstStep(g, n, x);
      var j :| 0 <= j < |s[n].clauses| && s[n].clauses[j].base == b;
      assert HasAttr(s, s[n].clauses[j].base, a);
    }
  }

  lemma BaseAttrsInherited(s: Schema, n: Name, j: nat, a: Attr)
    requires WellFormed(s) && Resolvable(s, n) && j < |s[n].clauses| && HasAttr(s, s[n].clauses[j].base, a)
    ensures HasAttr(s, n, a)
  {
    var g := BaseGraph(s);
    var b := s[n].clauses[j].base;
    GraphsClosed(s);
    ClauseDeps(s, n, j);
    ResolvableDep(s, n, b);
    assert b in Bases(s[n]) && b in g[n];
    EdgeReaches(g, n, b);
    if a !in s[b].attrs {
      var x :| Reaches(g, b, x) && x in s && a in s[x].attrs;
      ReachesTransitive(g, n, b, x);
    }
  }

  /** The first k base clauses of n can be merged. */
  ghost predicate Mergeable(s: Schema, n: Name, k: nat) {
    && n in s && k <= |s[n].clauses|
    && forall i :: 0 <= i < k ==>
         && Resolvable(s, s[n].clauses[i].base)
         && forall v :: v in s[n].clauses[i].values ==> HasAttrUpTo(s, n, i + 1, v.attr)
  }

  lemma ResolvableIsMergeable(s: Schema, n: Name)
    requires WellFormed(s) && Resolvable(s, n)
    ensures Mergeable(s, n, |s[n].clauses|)
  {
    forall i | 0 <= i < |s[n].clauses|
      ensures Resolvable(s, s[n].clauses[i].base)
    {
      ClauseDeps(s, n, i);
      ResolvableDep(s, n, s[n].clauses[i].base);
    }
  }

  lemma DepReachesLess(s: Schema, n: Name, d: Name)
    requires WellFormed(s) && n in s && d in DepGraph(s)[n] && Resolvable(s, d)
    ensures ReachSet(DepGraph(s), d) < ReachSet(DepGraph(s), n)
  {
    var g := DepGraph(s);
    EdgeReaches(g, n, d);
    forall w | Reaches(g, d, w)
      ensures Reaches(g, n, w)
    {
      ReachesTransitive(g, n, d, w);
    }
    assert d in ReachSet(g, n) && d !in ReachSet(g, d);
  }

  /** The index of n after its first k base clauses. */
  ghost function MergedIdx(s: Schema, n: Name, k: nat): (r: AttrIdx)
    requires WellFormed(s) && Mergeable(s, n, k)
    ensures forall a :: a in r <==> HasAttrUpTo(s, n, k, a)
    decreases ReachSet(DepGraph(s), n), k
  {
    if k == 0 then OwnIdx(s[n].attrs)
    else
      var cl := s[n].clauses[k - 1];
      ClauseDeps(s, n, k - 1);
      DepReachesLess(s, n, cl.base);
      ResolvableIsMergeable(s, cl.base);
      var before := MergedIdx(s, n, k - 1);
      var base := MergedIdx(s, cl.base, |s[cl.base].clauses|);
      assert forall a :: a in Inherit(before, base) <==> HasAttrUpTo(s, n, k, a) by {
        MergedKeys(s, n, k, before, base);
      }
      assert forall v :: v in cl.values ==> HasAttrUpTo(s, n, k, v.attr);
      Assign(Inherit(before, base), cl.values)
  }

  lemma MergedKeys(s: Schema, n: Name, k: nat, before: AttrIdx, base: AttrIdx)
    requires WellFormed(s) && n in s && 0 < k <= |s[n].clauses|
    requires Resolvable(s, s[n].clauses[k - 1].base)
    requires forall a :: a in before <==> HasAttrUpTo(s, n, k - 1, a)
    requires var b := s[n].clauses[k - 1].base; forall a :: a in base <==> HasAttrUpTo(s, b, |s[b].clauses|, a)
    ensures forall a :: a in Inherit(before, base) <==> HasAttrUpTo(s, n, k, a)
  {
    var b := s[n].clauses[k - 1].base;
    forall a
      ensures a in Inherit(before, base) <==> HasAttrUpTo(s, n, k, a)
    {
      HasAttrByClauses(s, b, a);
      HasAttrUpToStep(s, n, k, a);
    }
  }

  /** The index of a resolved class. */
  ghost function ClassIdx(s: Schema, n: Name): (r: AttrIdx)
    requires WellFormed(s) && Resolvable(s, n)
  {
    ResolvableIsMergeable(s, n);
    MergedIdx(s, n, |s[n].clauses|)
  }

  /** Its keys: the class's own attributes and those of every class it reaches through bases. */
  lemma ClassIdxKeys(s: Schema, n: Name, a: Attr)
    requires WellFormed(s) && Resolvable(s, n)
    ensures a in ClassIdx(s, n) <==> HasAttr(s, n, a)
  {
    HasAttrByClauses(s, n, a);
  }
}
