/** Indexing resolved classes: descendant sets, the dual of the ancestor lists, and child lists. */
module ClassIndex {
  import opened Digraph
  import opened ClassSchema
  import opened Options
  import opened ClassTable
  import opened ClassResolve
  import opened ClassLoad

  /** What indexing updates in one class record. */
  datatype Record = Record(children: seq<Name>, numTerminals: nat, descendants: set<Name>,
                           indexingInProgress: bool, isIndexed: bool)

  type Records = map<Name, Record>

  const NEW_RECORD := Record([], 0, {}, false, false)

  function NewRecords(names: set<Name>): Records {
    map n | n in names :: NEW_RECORD
  }

  /** The classes touched by the first k base clauses of n. */
  ghost predicate Touched(s: Schema, n: Name, k: nat, a: Name)
    requires n in s && k <= |s[n].clauses|
  {
    exists j :: 0 <= j < k && TouchedBy(s, s[n].clauses[j].base, a)
  }

  ghost predicate TouchedBy(s: Schema, b: Name, a: Name) {
    a == b || (Inherits(s, b, a) && !IsTop(s, a))
  }

  /** Indexing n goes through: no base of it comes after itself or after one that inherits from it
      visibly. */
  ghost predicate Indexable(s: Schema, n: Name)
    requires n in s
  {
    forall k :: 0 <= k < |s[n].clauses| ==> !Touched(s, n, k, s[n].clauses[k].base)
  }

  /** c' is c with n registered as a descendant where `under` holds, and as a child where `child` does. */
  ghost predicate RegisteredIf(c: Record, c': Record, n: Name, under: bool, child: bool) {
    && c'.descendants == (if under then c.descendants + {n} else c.descendants)
    && c'.indexingInProgress == c.indexingInProgress && c'.isIndexed == c.isIndexed
    && c'.children == (if child then [n] + c.children else c.children)
  }

  ghost predicate RegisteredBy(s: Schema, recs: Records, recs': Records, n: Name, b: Name) {
    && recs'.Keys == recs.Keys
    && forall a :: a in recs ==> RegisteredIf(recs[a], recs'[a], n, TouchedBy(s, b, a), a == b)
  }

  ghost predicate RegisteredUpTo(s: Schema, recs: Records, recs': Records, n: Name, k: nat)
    requires n in s && k <= |s[n].clauses|
  {
    && recs'.Keys == recs.Keys
    && forall a :: a in recs ==> RegisteredIf(recs[a], recs'[a], n, Touched(s, n, k, a), BaseUpTo(s, n, k, a))
  }

  ghost predicate BaseUpTo(s: Schema, n: Name, k: nat, a: Name)
    requires n in s && k <= |s[n].clauses|
  {
    exists j :: 0 <= j < k && s[n].clauses[j].base == a
  }

  ghost predicate Counted(recs: Records) {
    forall a :: a in recs ==> recs[a].numTerminals == |recs[a].descendants|
  }

  /** What holds of each pair of classes. */
  ghost predicate PairOk(s: Schema, root: Name, recs: Records, b: Name, c: Name)
    requires c in s && c in recs && b in recs
  {
    && (c in recs[b].descendants || c in recs[b].children ==> recs[c].indexingInProgress)
    && (recs[c].isIndexed ==>
          && recs[c].indexingInProgress
          && (c in recs[b].descendants <==> IsA(s, root, c, b))
          && (c in recs[b].children <==> IsDirectBase(s, root, c, b)))
  }

  ghost predicate IsDirectBase(s: Schema, root: Name, c: Name, b: Name)
    requires c in s
  {
    if s[c].clauses == [] then b == root else b in Bases(s[c])
  }

  ghost predicate IndexInv(s: Schema, root: Name, recs: Records) {
    && recs.Keys == s.Keys + {root}
    && Counted(recs)
    && (forall b, c :: b in recs && (c in recs[b].descendants || c in recs[b].children) ==> c in s)
    && (forall b, c :: b in recs && c in s ==> PairOk(s, root, recs, b, c))
    && NoRepeats(recs)
  }

  /** No class is listed twice as a child of another. */
  ghost predicate NoRepeats(recs: Records) {
    forall b, i, j :: b in recs && 0 <= i < j < |recs[b].children| ==> recs[b].children[i] != recs[b].children[j]
  }

  /** recs' is recs with n added to the descendants of every class in `under`. */
  ghost predicate WithDescendants(recs: Records, recs': Records, n: Name, under: iset<Name>) {
    && recs'.Keys == recs.Keys
    && (forall a :: a in recs ==>
          && recs'[a] == recs[a].(descendants := recs'[a].descendants, numTerminals := recs'[a].numTerminals)
          && recs'[a].descendants == (if a in under then recs[a].descendants + {n} else recs[a].descendants))
    && (Counted(recs) ==> Counted(recs'))
  }

  lemma WithNobody(recs: Records, n: Name)
    ensures WithDescendants(recs, recs, n, iset{})
  {
  }

  lemma WithMore(recs: Records, recs': Records, recs'': Records, n: Name, under: iset<Name>, more: iset<Name>)
    requires WithDescendants(recs, recs', n, under) && WithDescendants(recs', recs'', n, more)
    ensures WithDescendants(recs, recs'', n, under + more)
  {
  }

  /** Every class is resolved. */
  ghost predicate AncestorsOk(s: Schema, root: Name, ancestors: map<Name, seq<Name>>) {
    && WellFormed(s) && root !in s && ancestors.Keys == s.Keys + {root}
    && ancestors[root] == []
    && (forall n :: n in s ==> Resolvable(s, n))
    && (forall n, a :: n in s ==> (a in ancestors[n] <==> IsA(s, root, n, a)))
    && (forall n, a :: n in s && a in ancestors[n] ==> a in ancestors)
  }

  function AsChild(recs: Records, n: Name, b: Name): Records
    requires b in recs
  {
    recs[b := recs[b].(children := [n] + recs[b].children)]
  }

  function AsDescendant(recs: Records, n: Name, b: Name): Records
    requires b in recs
  {
    recs[b := recs[b].(numTerminals := recs[b].numTerminals + 1, descendants := recs[b].descendants + {n})]
  }

  lemma BaseRegistered(s: Schema, recs: Records, mid: Records, n: Name, b: Name, under: iset<Name>)
    requires b in recs && WithDescendants(AsChild(recs, n, b), mid, n, under)
    requires b !in under && forall a :: a in recs ==> (a == b || a in under <==> TouchedBy(s, b, a))
    ensures mid.Keys == recs.Keys && mid[b].descendants == recs[b].descendants
    ensures RegisteredBy(s, recs, AsDescendant(mid, n, b), n, b)
    ensures n !in recs[b].descendants && Counted(recs) ==> Counted(AsDescendant(mid, n, b))
    ensures n in recs[b].descendants && Counted(recs) ==>
              var r := AsDescendant(mid, n, b)[b]; r.numTerminals == |r.descendants| + 1
  {
    hide TouchedBy, Counted, RegisteredIf;
    forall a | a in recs
      ensures RegisteredIf(recs[a], AsDescendant(mid, n, b)[a], n, TouchedBy(s, b, a), a == b)
    {
      BaseRegisteredOne(recs[a], AsChild(recs, n, b)[a], mid[a], AsDescendant(mid, n, b)[a], n, a == b, a in under);
    }
    if Counted(recs) {
      ChildCounted(recs, n, b);
      DescendantCounted(mid, n, b);
    }
  }

  lemma BaseRegisteredOne(c: Record, child: Record, mid: Record, c': Record, n: Name, isBase: bool, under: bool)
    requires child == if isBase then c.(children := [n] + c.children) else c
    requires mid == child.(descendants := mid.descendants, numTerminals := mid.numTerminals)
    requires mid.descendants == if under then child.descendants + {n} else child.descendants
    requires c' == if isBase then mid.(numTerminals := mid.numTerminals + 1, descendants := mid.descendants + {n})
                   else mid
    requires !(isBase && under)
    ensures RegisteredIf(c, c', n, isBase || under, isBase)
  {
  }

  lemma ChildCounted(recs: Records, n: Name, b: Name)
    requires b in recs && Counted(recs)
    ensures Counted(AsChild(recs, n, b))
  {
  }

  lemma DescendantCounted(recs: Records, n: Name, b: Name)
    requires b in recs && Counted(recs)
    ensures n !in recs[b].descendants ==> Counted(AsDescendant(recs, n, b))
    ensures n in recs[b].descendants ==>
              var r := AsDescendant(recs, n, b)[b]; r.numTerminals == |r.descendants| + 1
  {
    if n in recs[b].descendants {
      assert recs[b].descendants + {n} == recs[b].descendants;
    }
  }

  class Index {
    const schema: Schema
    const root: Name
    /** The ancestor lists as resolving left them. */
    const ancestors: map<Name, seq<Name>>

    var records: Records

    constructor (schema: Schema, root: Name, ancestors: map<Name, seq<Name>>)
      ensures this.schema == schema && this.root == root && this.ancestors == ancestors
      ensures records == NewRecords(schema.Keys + {root})
    {
      this.schema, this.root, this.ancestors := schema, root, ancestors;
      records := NewRecords(schema.Keys + {root});
    }

    ghost predicate Valid()
      reads this
    {
      && root !in schema
      && records.Keys == ancestors.Keys == schema.Keys + {root}
      && AncestorsOk(schema, root, ancestors)
    }

    method IndexAncestor(n: Name, a: Name)
      requires Valid() && a in records
      modifies this`records
      ensures Valid()
      ensures WithDescendants(old(records), records, n, iset{a})
    {
      hide AncestorsOk;
      if n in records[a].descendants {
        assert records[a].descendants + {n} == records[a].descendants;
        return;
      }
      records := records[a := records[a].(
        numTerminals := records[a].numTerminals + 1, descendants := records[a].descendants + {n})];
    }

    /** Every ancestor of b that is no state top. */
    method IndexAncestors(n: Name, b: Name)
      requires Valid() && b in records
      modifies this`records
      ensures Valid()
      ensures WithDescendants(old(records), records, n, iset a | a in ancestors[b] && !StateTop(a))
    {
      hide AncestorsOk, WithDescendants;
      AncestorsKnown(this, b);
      ghost var recs := records;
      ghost var under := iset{};
      var anc := ancestors[b];
      var i := 0;
      WithNobody(recs, n);
      while i < |anc|
        invariant 0 <= i <= |anc|
        invariant Valid()
        invariant under == iset a | a in anc[..i] && !StateTop(a)
        invariant WithDescendants(recs, records, n, under)
      {
        ghost var before := records;
        if !StateTop(anc[i]) {
          IndexAncestor(n, anc[i]);
          WithMore(recs, before, records, n, under, iset{anc[i]});
          under := under + iset{anc[i]};
        }
        i := i + 1;
      }
      assert anc[..i] == anc;
    }

    /** Registers n with a base and with what the base visibly inherits; it fails where n is a
        descendant of the base already, which then counts one terminal too many. */
    method IndexBaseclass(n: Name, b: Name) returns (err: Err)
      requires Valid() && b in records && n != b
      modifies this`records
      ensures Valid()
      ensures err.Ok? <==> n !in old(records)[b].descendants
      ensures err.Ok? ==> RegisteredBy(schema, old(records), records, n, b)
      ensures err.Ok? && Counted(old(records)) ==> Counted(records)
      ensures !err.Ok? && Counted(old(records)) ==> records[b].numTerminals == |records[b].descendants| + 1
    {
      hide AncestorsOk, WithDescendants, RegisteredBy, TouchedBy, Counted, StateTop;
      ghost var recs := records;
      records := AsChild(records, n, b);
      IndexAncestors(n, b);
      VisibleIsTouched(this, b);
      var known := n in records[b].descendants;
      BaseRegistered(schema, recs, records, n, b, iset a | a in ancestors[b] && !StateTop(a));
      records := AsDescendant(records, n, b);
      err := if known then Conflict else Ok;
    }

    method IndexBaseclasses(n: Name) returns (err: Err)
      requires Valid() && n in schema && NotRegistered(records, n)
      modifies this`records
      ensures Valid()
      ensures err.Ok? <==> Indexable(schema, n)
      ensures err.Ok? ==> RegisteredUpTo(schema, old(records), records, n, |schema[n].clauses|)
      ensures err.Ok? && Counted(old(records)) ==> Counted(records)
    {
      hide AncestorsOk, RegisteredUpTo, RegisteredBy, Touched, Counted, NotRegistered;
      ghost var recs := records;
      var clauses := schema[n].clauses;
      var k := 0;
      RegisteredNone(schema, recs, n);
      while k < |clauses|
        invariant 0 <= k <= |clauses|
        invariant Valid()
        invariant RegisteredUpTo(schema, recs, records, n, k)
        invariant forall j :: 0 <= j < k ==> !Touched(schema, n, j, clauses[j].base)
        invariant Counted(recs) ==> Counted(records)
      {
        BaseKnown(this, n, k);
        ghost var before := records;
        err := IndexBaseclass(n, clauses[k].base);
        TouchedIffRegistered(schema, recs, before, n, k, clauses[k].base);
        if !err.Ok? {
          return;
        }
        RegisteredOneMore(schema, recs, before, records, n, k);
        k := k + 1;
      }
      err := Ok;
    }

    /** A class without base clauses is registered with the root. */
    method RegisterWithBases(n: Name) returns (err: Err)
      requires Valid() && n in schema && NotRegistered(records, n)
      modifies this`records
      ensures Valid()
      ensures err.Ok? <==> Indexable(schema, n)
      ensures err.Ok? ==> RegisteredAll(schema, root, old(records), records, n)
      ensures err.Ok? && Counted(old(records)) ==> Counted(records)
    {
      hide AncestorsOk, RegisteredUpTo, RegisteredBy, RegisteredAll, Counted;
      ghost var recs := records;
      if schema[n].clauses == [] {
        err := IndexBaseclass(n, root);
        RootRegistered(schema, root, recs, records, n);
      } else {
        err := IndexBaseclasses(n);
        if err.Ok? {
          BasesRegistered(this, recs, n);
        }
      }
    }

    /** Fails on a class under way, and on one whose bases get in each other's way. */
    method IndexClass(n: Name) returns (err: Err)
      requires Valid() && n in schema && IndexInv(schema, root, records)
      modifies this`records
      ensures Valid()
      ensures err.Ok? <==> old(records)[n].isIndexed
                           || (!old(records)[n].indexingInProgress && Indexable(schema, n))
      ensures err.Ok? ==> IndexInv(schema, root, records) && records[n].isIndexed
      ensures err.Ok? ==> SameFlags(old(records), records, n)
      ensures old(records)[n].isIndexed ==> records == old(records)
      ensures err.Ok? && !old(records)[n].isIndexed ==> ChildAdded(schema, root, old(records), records, n)
    {
      hide AncestorsOk, RegisteredAll, Counted, NotRegistered, IndexInv, Indexable, SameFlags, ChildAdded;
      SameFlagsAsBefore(records, n);
      if records[n].isIndexed {
        return Ok;
      }
      if records[n].indexingInProgress {
        return Fail;
      }
      ghost var recs := records;
      records := records[n := records[n].(indexingInProgress := true)];
      NobodyYet(schema, root, recs, records, n);
      err := RegisterWithBases(n);
      if err.Ok? {
        NowIndexed(schema, root, recs, records, n);
        records := records[n := records[n].(isIndexed := true)];
      }
    }

    /** Indexes the classes in the order the name index yields them, stopping at the first failure.  From
        fresh records it gets through exactly when no class has bases in each other's way. */
    method IndexClasses(order: seq<Name>) returns (err: Err)
      requires Valid() && IndexInv(schema, root, records)
      requires forall n :: n in order ==> n in schema
      requires forall n :: n in schema ==> !records[n].indexingInProgress && !records[n].isIndexed
      modifies this`records
      ensures Valid()
      ensures err.Ok? <==> forall n :: n in order ==> Indexable(schema, n)
      ensures err.Ok? ==> IndexInv(schema, root, records)
      ensures err.Ok? ==> forall n :: n in order ==> records[n].isIndexed
      ensures err.Ok? ==> forall b :: b in records ==> records[b].children == ChildrenOf(schema, root, order, b)
    {
      hide AncestorsOk, IndexInv, Indexable, ChildAdded, ChildrenOf, IsDirectBase;
      NoChildrenYet(schema, root, records);
      var i := 0;
      assert order[..i] == [];
      while i < |order|
        invariant 0 <= i <= |order|
        invariant Valid() && IndexInv(schema, root, records)
        invariant forall n :: n in order[..i] ==> records[n].isIndexed && Indexable(schema, n)
        invariant forall n :: n in schema && n !in order[..i] ==>
                    !records[n].indexingInProgress && !records[n].isIndexed
        invariant ListedSoFar(schema, root, order[..i], records)
      {
        ghost var before := records;
        err := IndexClass(order[i]);
        if !err.Ok? {
          return;
        }
        ListedOneMore(schema, root, order, i, before, records);
        i := i + 1;
      }
      assert order[..i] == order;
      err := Ok;
    }

    /** state_top, as it is read through an ancestor reference. */
    predicate StateTop(a: Name) {
      a == root || (a in schema && schema[a].stateTop)
    }
  }

  /** A resolved class inherits a class of the schema other than itself. */
  lemma InheritsOther(s: Schema, n: Name, a: Name)
    requires WellFormed(s) && n in s && Resolvable(s, n) && Inherits(s, n, a)
    ensures a in s && a != n && s[n].clauses != []
  {
    var g, d := BaseGraph(s), DepGraph(s);
    GraphsClosed(s);
    if a in g[n] {
      EdgeReaches(g, n, a);
    }
    ReachesStaysInside(g);
    ReachesMonotone(g, d, n, a);
    var b := ReachesFirstStep(g, n, a);
    assert b in Bases(s[n]);
  }

  /** The visible ancestors of a resolved class are what it inherits and is no state top. */
  lemma VisibleIsTouched(idx: Index, b: Name)
    requires idx.Valid() && b in idx.records
    ensures forall a :: a in idx.records ==>
              (a == b || (a in idx.ancestors[b] && !idx.StateTop(a)) <==> TouchedBy(idx.schema, b, a))
    ensures !(b in idx.ancestors[b] && !idx.StateTop(b))
  {
    hide WellFormed, Resolvable, Inherits;
    var s := idx.schema;
    if b == idx.root {
      assert forall a :: !Inherits(s, b, a) by {
        RootInheritsNothing(s, b);
      }
    } else {
      forall a | Inherits(s, b, a)
        ensures a in s && a != b && s[b].clauses != []
      {
        InheritsOther(s, b, a);
      }
    }
  }

  lemma AncestorsKnown(idx: Index, b: Name)
    requires idx.Valid() && b in idx.records
    ensures forall a :: a in idx.ancestors[b] ==> a in idx.records
  {
  }

  lemma RootInheritsNothing(s: Schema, root: Name)
    requires root !in s
    ensures forall a :: !Inherits(s, root, a)
  {
  }

  /** No class but n has a flag changed. */
  ghost predicate SameFlags(recs: Records, recs': Records, n: Name) {
    && recs'.Keys == recs.Keys
    && forall m :: m in recs && m != n ==>
         recs'[m].isIndexed == recs[m].isIndexed && recs'[m].indexingInProgress == recs[m].indexingInProgress
  }

  /** n joins, in front, the child lists of its bases, and no others. */
  ghost predicate ChildAdded(s: Schema, root: Name, recs: Records, recs': Records, n: Name)
    requires n in s
  {
    && recs'.Keys == recs.Keys
    && forall b :: b in recs ==>
         recs'[b].children == if IsDirectBase(s, root, n, b) then [n] + recs[b].children else recs[b].children
  }

  /** The classes of `order` with base b, each once, the last one to come up first. */
  ghost function ChildrenOf(s: Schema, root: Name, order: seq<Name>, b: Name): seq<Name>
    requires forall n :: n in order ==> n in s
  {
    if order == [] then []
    else
      var k := |order| - 1;
      var before := ChildrenOf(s, root, order[..k], b);
      if order[k] !in order[..k] && IsDirectBase(s, root, order[k], b) then [order[k]] + before else before
  }

  ghost predicate ListedSoFar(s: Schema, root: Name, order: seq<Name>, recs: Records) {
    (forall n :: n in order ==> n in s) && forall b :: b in recs ==> recs[b].children == ChildrenOf(s, root, order, b)
  }

  lemma NoChildrenYet(s: Schema, root: Name, recs: Records)
    requires IndexInv(s, root, recs) && forall n :: n in s ==> !recs[n].indexingInProgress
    ensures ListedSoFar(s, root, [], recs)
  {
    hide IsA, IsDirectBase, Counted, NoRepeats;
    forall b | b in recs
      ensures recs[b].children == []
    {
      forall c
        ensures c in recs[b].children ==> c in s && PairOk(s, root, recs, b, c)
        ensures c !in recs[b].children
      {
      }
      FirstListed(recs[b].children);
    }
  }

  lemma FirstListed(list: seq<Name>)
    ensures list != [] ==> list[0] in list
  {
  }

  lemma ListedOneMore(s: Schema, root: Name, order: seq<Name>, i: nat, recs: Records, recs': Records)
    requires i < |order| && order[i] in s && ListedSoFar(s, root, order[..i], recs)
    requires if order[i] in order[..i] then recs' == recs else ChildAdded(s, root, recs, recs', order[i])
    ensures ListedSoFar(s, root, order[..i + 1], recs')
  {
    hide IsDirectBase;
    var more := order[..i + 1];
    assert more[..|more| - 1] == order[..i] && more[|more| - 1] == order[i];
  }

  lemma SameFlagsAsBefore(recs: Records, n: Name)
    ensures SameFlags(recs, recs, n)
  {
  }

  ghost predicate NotRegistered(recs: Records, n: Name) {
    forall a :: a in recs ==> n !in recs[a].descendants && n !in recs[a].children
  }

  lemma RegisteredNone(s: Schema, recs: Records, n: Name)
    requires n in s
    ensures RegisteredUpTo(s, recs, recs, n, 0)
  {
  }

  lemma BaseKnown(idx: Index, n: Name, k: nat)
    requires idx.Valid() && n in idx.schema && k < |idx.schema[n].clauses|
    ensures var b := idx.schema[n].clauses[k].base; b in idx.records && b != n
  {
    var s := idx.schema;
    ClauseDeps(s, n, k);
    ResolvableDep(s, n, s[n].clauses[k].base);
  }

  lemma TouchedIffRegistered(s: Schema, recs: Records, recs': Records, n: Name, k: nat, b: Name)
    requires n in s && k <= |s[n].clauses| && RegisteredUpTo(s, recs, recs', n, k)
    requires b in recs && NotRegistered(recs, n)
    ensures n in recs'[b].descendants <==> Touched(s, n, k, b)
  {
    assert RegisteredIf(recs[b], recs'[b], n, Touched(s, n, k, b), BaseUpTo(s, n, k, b));
  }

  lemma RegisteredOneMore(s: Schema, recs: Records, recs': Records, recs'': Records, n: Name, k: nat)
    requires n in s && k < |s[n].clauses|
    requires RegisteredUpTo(s, recs, recs', n, k) && RegisteredBy(s, recs', recs'', n, s[n].clauses[k].base)
    requires !Touched(s, n, k, s[n].clauses[k].base)
    ensures RegisteredUpTo(s, recs, recs'', n, k + 1)
  {
    var b := s[n].clauses[k].base;
    assert !BaseUpTo(s, n, k, b) by {
      assert TouchedBy(s, b, b);
    }
    hide TouchedBy;
    forall a | a in recs
      ensures RegisteredIf(recs[a], recs''[a], n, Touched(s, n, k + 1, a), BaseUpTo(s, n, k + 1, a))
    {
      assert Touched(s, n, k + 1, a) <==> Touched(s, n, k, a) || TouchedBy(s, b, a);
      assert BaseUpTo(s, n, k + 1, a) <==> BaseUpTo(s, n, k, a) || a == b;
      assert RegisteredIf(recs[a], recs'[a], n, Touched(s, n, k, a), BaseUpTo(s, n, k, a));
      assert RegisteredIf(recs'[a], recs''[a], n, TouchedBy(s, b, a), a == b);
    }
  }

  /** recs' is recs with n registered where it should be. */
  ghost predicate RegisteredAll(s: Schema, root: Name, recs: Records, recs': Records, n: Name)
    requires n in s
  {
    && recs'.Keys == recs.Keys
    && forall a :: a in recs ==> RegisteredIf(recs[a], recs'[a], n, IsA(s, root, n, a), IsDirectBase(s, root, n, a))
  }

  lemma RootRegistered(s: Schema, root: Name, recs: Records, recs': Records, n: Name)
    requires root !in s && n in s && s[n].clauses == [] && RegisteredBy(s, recs, recs', n, root)
    ensures RegisteredAll(s, root, recs, recs', n)
  {
    RootInheritsNothing(s, root);
  }

  lemma BasesRegistered(idx: Index, recs: Records, n: Name)
    requires idx.Valid() && n in idx.schema && idx.schema[n].clauses != []
    requires RegisteredUpTo(idx.schema, recs, idx.records, n, |idx.schema[n].clauses|)
    ensures RegisteredAll(idx.schema, idx.root, recs, idx.records, n)
  {
    hide WellFormed, Resolvable, Inherits, RegisteredIf;
    var s := idx.schema;
    forall a
      ensures Touched(s, n, |s[n].clauses|, a) <==> IsA(s, idx.root, n, a)
      ensures BaseUpTo(s, n, |s[n].clauses|, a) <==> IsDirectBase(s, idx.root, n, a)
    {
      TouchedIsInherited(s, n, a);
    }
  }

  /** Clause by clause, n is registered with what it inherits. */
  lemma TouchedIsInherited(s: Schema, n: Name, a: Name)
    requires WellFormed(s) && n in s && Resolvable(s, n)
    ensures Touched(s, n, |s[n].clauses|, a) <==> Inherits(s, n, a)
  {
    hide WellFormed, Resolvable, Inherits;
    InheritsByBase(s, n, a);
    NotOwnBase(s, n);
    if j :| 0 <= j < |s[n].clauses| && TouchedBy(s, s[n].clauses[j].base, a) {
      assert s[n].clauses[j].base in BaseGraph(s)[n];
    }
    if b :| b in BaseGraph(s)[n] && TouchedBy(s, b, a) {
      var j :| 0 <= j < |s[n].clauses| && s[n].clauses[j].base == b;
      assert TouchedBy(s, s[n].clauses[j].base, a);
    }
  }

  lemma NotOwnBase(s: Schema, n: Name)
    requires WellFormed(s) && n in s && Resolvable(s, n)
    ensures n !in Bases(s[n])
  {
    if n in Bases(s[n]) {
      EdgeReaches(DepGraph(s), n, n);
    }
  }

  lemma NobodyYet(s: Schema, root: Name, recs: Records, recs': Records, n: Name)
    requires IndexInv(s, root, recs) && n in s && !recs[n].indexingInProgress
    requires recs' == recs[n := recs[n].(indexingInProgress := true)]
    ensures NotRegistered(recs', n) && recs'.Keys == recs.Keys && Counted(recs')
  {
    forall a | a in recs
      ensures n !in recs[a].descendants && n !in recs[a].children
    {
      assert PairOk(s, root, recs, a, n);
    }
  }

  lemma NowIndexed(s: Schema, root: Name, recs: Records, mid: Records, n: Name)
    requires IndexInv(s, root, recs) && n in s && !recs[n].indexingInProgress
    requires RegisteredAll(s, root, recs[n := recs[n].(indexingInProgress := true)], mid, n)
    requires Counted(mid)
    ensures n in mid && IndexInv(s, root, mid[n := mid[n].(isIndexed := true)])
    ensures SameFlags(recs, mid[n := mid[n].(isIndexed := true)], n)
    ensures ChildAdded(s, root, recs, mid[n := mid[n].(isIndexed := true)], n)
  {
    hide IsA, IsDirectBase, PairOk, RegisteredIf, Counted, RegisteredAll, NoRepeats;
    NowOne(s, root, recs, mid, n, n);
    StillCounted(mid, n);
    StillNoRepeats(s, root, recs, mid, n);
    var recs' := mid[n := mid[n].(isIndexed := true)];
    forall b, c | b in recs' && c in s
      ensures PairOk(s, root, recs', b, c)
    {
      NowPairOk(s, root, recs, mid, n, b, c);
    }
    forall b | b in recs
      ensures mid[b].descendants <= recs[b].descendants + {n}
      ensures forall c :: c in mid[b].children ==> c == n || c in recs[b].children
      ensures b != n ==> mid[b].isIndexed == recs[b].isIndexed
      ensures b != n ==> mid[b].indexingInProgress == recs[b].indexingInProgress
      ensures mid[b].children == if IsDirectBase(s, root, n, b) then [n] + recs[b].children else recs[b].children
    {
      NowOne(s, root, recs, mid, n, b);
    }
  }

  lemma StillNoRepeats(s: Schema, root: Name, recs: Records, mid: Records, n: Name)
    requires IndexInv(s, root, recs) && n in s && !recs[n].indexingInProgress
    requires RegisteredAll(s, root, recs[n := recs[n].(indexingInProgress := true)], mid, n)
    ensures n in mid && NoRepeats(mid[n := mid[n].(isIndexed := true)])
  {
    hide IsA, IsDirectBase, Counted, RegisteredAll;
    NowOne(s, root, recs, mid, n, n);
    forall b | b in recs
      ensures n !in recs[b].children
      ensures mid[b].children == recs[b].children || mid[b].children == [n] + recs[b].children
    {
      assert PairOk(s, root, recs, b, n);
      NowOne(s, root, recs, mid, n, b);
    }
  }

  lemma StillCounted(mid: Records, n: Name)
    requires Counted(mid) && n in mid
    ensures Counted(mid[n := mid[n].(isIndexed := true)])
  {
  }

  lemma NowOne(s: Schema, root: Name, recs: Records, mid: Records, n: Name, b: Name)
    requires b in recs && n in recs && n in s
    requires RegisteredAll(s, root, recs[n := recs[n].(indexingInProgress := true)], mid, n)
    ensures mid.Keys == recs.Keys
    ensures RegisteredIf(recs[n := recs[n].(indexingInProgress := true)][b], mid[b], n,
                         IsA(s, root, n, b), IsDirectBase(s, root, n, b))
    ensures mid[b].descendants <= recs[b].descendants + {n}
    ensures mid[b].children == if IsDirectBase(s, root, n, b) then [n] + recs[b].children else recs[b].children
    ensures forall c :: c in mid[b].children ==> c == n || c in recs[b].children
    ensures b != n ==> mid[b].isIndexed == recs[b].isIndexed && mid[b].indexingInProgress == recs[b].indexingInProgress
  {
    hide IsA, IsDirectBase;
  }

  lemma NowPairOk(s: Schema, root: Name, recs: Records, mid: Records, n: Name, b: Name, c: Name)
    requires IndexInv(s, root, recs) && n in s && !recs[n].indexingInProgress && b in recs && c in s
    requires RegisteredAll(s, root, recs[n := recs[n].(indexingInProgress := true)], mid, n)
    ensures n in mid && PairOk(s, root, mid[n := mid[n].(isIndexed := true)], b, c)
  {
    hide IsA, IsDirectBase, RegisteredAll, Counted;
    NowOne(s, root, recs, mid, n, b);
    NowOne(s, root, recs, mid, n, c);
    assert PairOk(s, root, recs, b, c);
    assert PairOk(s, root, recs, b, n);
  }

  // ---------------------------------------------------------------- the dual

  /** Once c is indexed it is among the descendants of exactly the classes in its ancestor list, and in
      the child list of exactly its bases. */
  lemma Duality(idx: Index, b: Name, c: Name)
    requires idx.Valid() && IndexInv(idx.schema, idx.root, idx.records)
    requires b in idx.records && c in idx.schema && idx.records[c].isIndexed
    ensures c in idx.records[b].descendants <==> b in idx.ancestors[c]
    ensures multiset(idx.records[b].children)[c] == if IsDirectBase(idx.schema, idx.root, c, b) then 1 else 0
  {
    hide WellFormed, Resolvable, IsA;
    assert PairOk(idx.schema, idx.root, idx.records, b, c);
    OnceInList(idx.records[b].children, c);
  }

  lemma {:induction false} OnceInList(list: seq<Name>, c: Name)
    requires forall i, j :: 0 <= i < j < |list| ==> list[i] != list[j]
    ensures multiset(list)[c] == if c in list then 1 else 0
  {
    if list != [] {
      OnceInList(list[1..], c);
      assert list == [list[0]] + list[1..];
    }
  }

  /** num_terminals counts the descendants. */
  lemma TerminalsCounted(idx: Index, b: Name)
    requires IndexInv(idx.schema, idx.root, idx.records) && b in idx.records
    ensures idx.records[b].numTerminals == |idx.records[b].descendants|
    ensures (forall c :: c in idx.schema ==> idx.records[c].isIndexed) ==>
              idx.records[b].descendants == set c | c in idx.schema && IsA(idx.schema, idx.root, c, b)
  {
    hide IsA;
    forall c
      ensures c in idx.records[b].descendants ==> c in idx.schema
      ensures c in idx.schema ==> PairOk(idx.schema, idx.root, idx.records, b, c)
    {
    }
  }

  lemma FreshRecords(s: Schema, root: Name)
    requires root !in s
    ensures IndexInv(s, root, NewRecords(s.Keys + {root}))
  {
  }

  /** What resolving leaves is what indexing asks for. */
  lemma ResolvedIsIndexable(repo: Repo, ancestors: map<Name, seq<Name>>)
    requires repo.Valid() && ResolveInv(repo.schema, repo.root, repo.classes)
    requires forall n :: n in repo.schema ==> IsResolved(repo.classes, n)
    requires ancestors == map n | n in repo.schema.Keys + {repo.root} ::
                             if n == repo.root then [] else repo.classes[n].ancestors
    ensures AncestorsOk(repo.schema, repo.root, ancestors)
  {
    hide ResolveInv, IsA, Resolvable, WellFormed, IsTop;
    var s, root := repo.schema, repo.root;
    forall n | n in s
      ensures Resolvable(s, n) && ancestors[n] == repo.classes[n].ancestors
    {
      ResolvedIsResolvable(s, root, repo.classes, n);
    }
    forall n, a | n in s
      ensures a in ancestors[n] <==> IsA(s, root, n, a)
      ensures IsA(s, root, n, a) ==> a in ancestors
    {
      AncestorsExact(s, root, repo.classes, n, a);
      if IsA(s, root, n, a) {
        IsAKnown(s, root, n, a);
      }
    }
  }

  lemma IsAKnown(s: Schema, root: Name, n: Name, a: Name)
    requires WellFormed(s) && n in s && Resolvable(s, n) && IsA(s, root, n, a)
    ensures a in s || a == root
  {
    hide Resolvable, WellFormed, Inherits;
    if s[n].clauses != [] {
      InheritsOther(s, n, a);
    }
  }

  // ---------------------------------------------------------------- a class that cannot be indexed

  /** 2 derives from 1, 1 from 0, and 2 also from 0, listed last. */
  function Shortcut(): (s: Schema)
    ensures s.Keys == {0, 1, 2}
    ensures s[0] == ClassDecl([], [], [], false) && s[1] == ClassDecl([], [Clause(0, [])], [], false)
    ensures s[2] == ClassDecl([], [Clause(1, []), Clause(0, [])], [], false)
  {
    map[0 := ClassDecl([], [], [], false), 1 := ClassDecl([], [Clause(0, [])], [], false),
        2 := ClassDecl([], [Clause(1, []), Clause(0, [])], [], false)]
  }

  lemma ShortcutEdge(n: Name, c: Name)
    requires n in Shortcut() && c in DepGraph(Shortcut())[n]
    ensures c in Shortcut() && c < n
  {
    hide Shortcut;
    var d := Shortcut()[n];
    assert Needs(d) == {};
  }

  lemma ShortcutEdges() returns (g: Graph)
    ensures g == DepGraph(Shortcut())
    ensures forall m, c :: m in g && c in g[m] ==> c < m
    ensures WellFormed(Shortcut())
  {
    hide Shortcut, DepGraph;
    g := DepGraph(Shortcut());
    forall m, c | m in g && c in g[m]
      ensures c < m
    {
      ShortcutEdge(m, c);
    }
    forall m, c | m in g && c in g[m]
      ensures c in g
    {
      ShortcutEdge(m, c);
    }
  }

  lemma ShortcutResolvable(n: Name)
    requires n in Shortcut()
    ensures Resolvable(Shortcut(), n)
  {
    hide Shortcut, DepGraph, CycleFree, WellFormed;
    var s := Shortcut();
    var g := ShortcutEdges();
    DescendingIsCycleFree(g, n);
    ReachesStaysInside(g);
    forall m | m in s
      ensures AttrsOk(s, m)
    {
      assert forall k :: 0 <= k < |s[m].clauses| ==> s[m].clauses[k].values == [];
    }
  }

  /** Every class of it resolves, but 2 cannot be indexed. */
  lemma ShortcutNotIndexable()
    ensures WellFormed(Shortcut()) && forall n :: n in Shortcut() ==> Resolvable(Shortcut(), n)
    ensures !Indexable(Shortcut(), 2)
  {
    hide Shortcut, Resolvable, WellFormed;
    var s := Shortcut();
    var g := ShortcutEdges();
    forall n | n in s
      ensures Resolvable(s, n)
    {
      ShortcutResolvable(n);
    }
    assert s[1].clauses[0].base in BaseGraph(s)[1];
    assert TouchedBy(s, s[2].clauses[0].base, 0);
    assert Touched(s, 2, 1, s[2].clauses[1].base);
  }
}
