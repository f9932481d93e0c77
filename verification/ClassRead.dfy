/** The second implementation of inheritance: reading a class back from a snapshot, where a base
    value only fills a gap and an own value overrides. */
module ClassRead {
  import opened Digraph
  import opened ClassSchema
  import opened Options
  import opened ClassMeaning

  datatype ReadErr = ReadOk | NoSuchAttr | AttrExists

  /** Merging a base into the index of a class being read. */
  function Fill(idx: AttrIdx, base: AttrIdx): (r: AttrIdx)
    ensures r.Keys == idx.Keys + base.Keys
    ensures forall a :: Held(r, a) == if Held(idx, a).Some? then Held(idx, a) else Held(base, a)
  {
    map a | a in idx.Keys + base.Keys :: if Held(idx, a).Some? then Held(idx, a) else Held(base, a)
  }

  /** a comes from one of the first k bases of n. */
  ghost predicate InheritsAttr(s: Schema, n: Name, k: nat, a: Attr)
    requires n in s && k <= |s[n].clauses|
  {
    exists j :: 0 <= j < k && HasAttr(s, s[n].clauses[j].base, a)
  }

  /** Clause k sets only attributes its own base or an earlier one has. */
  ghost predicate ClauseOk(s: Schema, n: Name, k: nat)
    requires n in s && k < |s[n].clauses|
  {
    forall v :: v in s[n].clauses[k].values ==> InheritsAttr(s, n, k + 1, v.attr)
  }

  /** A record lists its base clauses before the attributes the class declares: a clause sees only
      inherited attributes, and no attribute is both inherited and declared. */
  ghost predicate RecordOk(s: Schema, n: Name) {
    && n in s
    && (forall k :: 0 <= k < |s[n].clauses| ==> ClauseOk(s, n, k))
    && (forall a :: a in s[n].attrs ==> !InheritsAttr(s, n, |s[n].clauses|, a))
  }

  ghost predicate Readable(s: Schema, n: Name): (r: bool)
    ensures r ==> n in s && Resolvable(s, n)
  {
    Resolvable(s, n) && RecordOk(s, n) && forall x :: Reaches(DepGraph(s), n, x) ==> RecordOk(s, x)
  }

  /** The first k clauses of n are in order and so are all records their bases need. */
  ghost predicate ClausesReadable(s: Schema, n: Name, k: nat)
    requires n in s && k <= |s[n].clauses|
  {
    forall i :: 0 <= i < k ==> Readable(s, s[n].clauses[i].base) && ClauseOk(s, n, i)
  }

  lemma BaseReadable(s: Schema, n: Name, k: nat)
    requires WellFormed(s) && Readable(s, n) && k < |s[n].clauses|
    ensures Readable(s, s[n].clauses[k].base)
  {
    var g, b := DepGraph(s), s[n].clauses[k].base;
    ClauseDeps(s, n, k);
    ResolvableDep(s, n, b);
    EdgeReaches(g, n, b);
    forall x | Reaches(g, b, x)
      ensures RecordOk(s, x)
    {
      ReachesTransitive(g, n, b, x);
    }
  }

  lemma ReadableClauses(s: Schema, n: Name)
    requires WellFormed(s) && Readable(s, n)
    ensures ClausesReadable(s, n, |s[n].clauses|)
  {
    hide ClauseOk, Resolvable, WellFormed, DepGraph;
    forall i | 0 <= i < |s[n].clauses|
      ensures Readable(s, s[n].clauses[i].base)
    {
      BaseReadable(s, n, i);
    }
  }

  /** The index after the first k clauses of the record. */
  ghost function ReadUpTo(s: Schema, n: Name, k: nat): AttrIdx
    requires WellFormed(s) && Resolvable(s, n) && k <= |s[n].clauses|
    decreases ReachSet(DepGraph(s), n), k
  {
    if k == 0 then map[]
    else
      var cl := s[n].clauses[k - 1];
      ClauseDeps(s, n, k - 1);
      ResolvableDep(s, n, cl.base);
      var base := ReadUpTo(s, cl.base, |s[cl.base].clauses|);
      Assign(Fill(ReadUpTo(s, n, k - 1), base + OwnIdx(s[cl.base].attrs)), cl.values)
  }

  /** The index of a class read back. */
  ghost function ReadIdx(s: Schema, n: Name): AttrIdx
    requires WellFormed(s) && Resolvable(s, n)
  {
    ReadUpTo(s, n, |s[n].clauses|) + OwnIdx(s[n].attrs)
  }

  lemma ReadUnfold(s: Schema, n: Name, k: nat)
    requires WellFormed(s) && Resolvable(s, n) && k < |s[n].clauses|
    ensures var b := s[n].clauses[k].base;
            && b in DepGraph(s)[n] && Resolvable(s, b) && ReachSet(DepGraph(s), b) < ReachSet(DepGraph(s), n)
            && ReadUpTo(s, n, k + 1) == Assign(Fill(ReadUpTo(s, n, k), ReadIdx(s, b)), s[n].clauses[k].values)
  {
    ClauseDeps(s, n, k);
    ResolvableDep(s, n, s[n].clauses[k].base);
  }

  lemma ReadNone(s: Schema, n: Name)
    requires WellFormed(s) && n in s && Resolvable(s, n)
    ensures ReadUpTo(s, n, 0) == map[]
  {
  }

  /** While a record is in order, the attributes read so far are the inherited ones. */
  lemma {:induction false} ReadKeys(s: Schema, n: Name, k: nat)
    requires WellFormed(s) && n in s && Resolvable(s, n) && k <= |s[n].clauses| && ClausesReadable(s, n, k)
    ensures forall a :: a in ReadUpTo(s, n, k) <==> InheritsAttr(s, n, k, a)
    decreases ReachSet(DepGraph(s), n), 0, k, 0
  {
    hide Resolvable, WellFormed, DepGraph, Fill, RecordOk, InheritsAttr, HasAttr, Readable, ReadUpTo, ReadIdx, ClauseOk;
    if k == 0 {
      ReadNone(s, n);
      NoneInherited(s, n);
    } else {
      FilledKeys(s, n, k - 1);
      ReadUnfold(s, n, k - 1);
    }
  }

  lemma NoneInherited(s: Schema, n: Name)
    requires n in s
    ensures forall a :: !InheritsAttr(s, n, 0, a)
    ensures ClausesReadable(s, n, 0)
  {
  }

  /** Merging one more base brings in its attributes. */
  lemma FilledKeys(s: Schema, n: Name, k: nat)
    requires WellFormed(s) && n in s && Resolvable(s, n) && k < |s[n].clauses| && ClausesReadable(s, n, k)
    requires Readable(s, s[n].clauses[k].base)
    ensures var idx := Fill(ReadUpTo(s, n, k), ReadIdx(s, s[n].clauses[k].base));
            && (forall a :: a in idx <==> InheritsAttr(s, n, k + 1, a))
            && (ClauseOk(s, n, k) <==> forall v :: v in s[n].clauses[k].values ==> v.attr in idx)
    decreases ReachSet(DepGraph(s), n), 0, k, 1
  {
    hide Resolvable, WellFormed, DepGraph, RecordOk, HasAttr, Readable, ReadIdx, ReadUpTo;
    var b := s[n].clauses[k].base;
    ReadUnfold(s, n, k);
    ReadKeys(s, n, k);
    ReadIdxKeys(s, b);
    forall a
      ensures a in Fill(ReadUpTo(s, n, k), ReadIdx(s, b)) <==> InheritsAttr(s, n, k + 1, a)
    {
      assert InheritsAttr(s, n, k + 1, a) <==> InheritsAttr(s, n, k, a) || HasAttr(s, b, a);
    }
  }

  /** A class read back has the attributes it has when resolved. */
  lemma ReadIdxKeys(s: Schema, n: Name)
    requires WellFormed(s) && Readable(s, n)
    ensures forall a :: a in ReadIdx(s, n) <==> HasAttr(s, n, a)
    decreases ReachSet(DepGraph(s), n), 1
  {
    hide HasAttr, Resolvable, WellFormed, DepGraph, RecordOk, InheritsAttr;
    ReadableClauses(s, n);
    ReadKeys(s, n, |s[n].clauses|);
    OwnOrInherited(s, n);
  }

  lemma OwnOrInherited(s: Schema, n: Name)
    requires WellFormed(s) && n in s && Resolvable(s, n)
    ensures forall a :: HasAttr(s, n, a) <==> a in s[n].attrs || InheritsAttr(s, n, |s[n].clauses|, a)
  {
    hide HasAttr, Resolvable, WellFormed, DepGraph;
    forall a
      ensures HasAttr(s, n, a) <==> a in s[n].attrs || InheritsAttr(s, n, |s[n].clauses|, a)
    {
      HasAttrByClauses(s, n, a);
    }
  }

  // ---------------------------------------------------------------- the reader

  class Reader {
    /** The index of the class being read. */
    var attrIdx: AttrIdx

    constructor ()
      ensures attrIdx == map[]
    {
      attrIdx := map[];
    }

    /** The callback of SetBaseclass. */
    method InheritBaseAttr(a: Attr, src: Option<AttrVar>)
      modifies this
      ensures attrIdx == Fill(old(attrIdx), map[a := src])
    {
      if a in attrIdx {
        if src.Some? {
          if attrIdx[a].None? {
            attrIdx := attrIdx[a := src];
          }
        }
      } else {
        attrIdx := attrIdx[a := src];
      }
      assert attrIdx == Fill(old(attrIdx), map[a := src]);
    }

    method SetBaseclass(base: AttrIdx)
      modifies this
      ensures attrIdx == Fill(old(attrIdx), base)
    {
      ghost var idx := attrIdx;
      ghost var done: AttrIdx := map[];
      var rest := base.Keys;
      assert Fill(idx, done) == idx;
      while rest != {}
        invariant rest <= base.Keys
        invariant done == map a | a in base.Keys - rest :: base[a]
        invariant attrIdx == Fill(idx, done)
      {
        var a :| a in rest;
        rest := rest - {a};
        InheritBaseAttr(a, base[a]);
        FillOneMore(idx, done, a, base[a]);
        done := done[a := base[a]];
      }
      assert done == base;
    }

    method BuildAttrVar(v: AttrVar) returns (err: ReadErr)
      modifies this
      ensures err == if v.attr in old(attrIdx) then ReadOk else NoSuchAttr
      ensures attrIdx == if err.ReadOk? then old(attrIdx)[v.attr := Some(v)] else old(attrIdx)
    {
      if v.attr !in attrIdx {
        return NoSuchAttr;
      }
      attrIdx := attrIdx[v.attr := Some(v)];
      err := ReadOk;
    }

    /** An attribute the class declares; its id must be new to the set. */
    method ReadAttr(a: Attr) returns (err: ReadErr)
      modifies this
      ensures err == if a in old(attrIdx) then AttrExists else ReadOk
      ensures attrIdx == if err.ReadOk? then old(attrIdx)[a := None] else old(attrIdx)
    {
      if a in attrIdx {
        return AttrExists;
      }
      attrIdx := attrIdx[a := None];
      err := ReadOk;
    }

    method ReadClause(values: seq<AttrVar>, base: AttrIdx) returns (err: ReadErr)
      modifies this
      ensures err.ReadOk? <==> forall v :: v in values ==> v.attr in Fill(old(attrIdx), base)
      ensures err.ReadOk? ==> attrIdx == Assign(Fill(old(attrIdx), base), values)
    {
      SetBaseclass(base);
      ghost var idx := attrIdx;
      var i := 0;
      while i < |values|
        invariant 0 <= i <= |values|
        invariant forall v :: v in values[..i] ==> v.attr in idx
        invariant attrIdx == Assign(idx, values[..i])
      {
        err := BuildAttrVar(values[i]);
        if !err.ReadOk? {
          return;
        }
        assert values[..i + 1][..i] == values[..i];
        i := i + 1;
      }
      assert values[..i] == values;
      err := ReadOk;
    }

    /** The attributes the class declares, after its base clauses. */
    method ReadAttrs(attrs: seq<Attr>) returns (err: ReadErr)
      requires DistinctNames(attrs)
      modifies this
      ensures err.ReadOk? <==> forall a :: a in attrs ==> a !in old(attrIdx)
      ensures err.ReadOk? ==> attrIdx == old(attrIdx) + OwnIdx(attrs)
    {
      hide OwnIdx;
      ghost var inherited := attrIdx;
      var i := 0;
      assert inherited + OwnIdx([]) == inherited;
      while i < |attrs|
        invariant 0 <= i <= |attrs|
        invariant attrIdx == inherited + OwnIdx(attrs[..i])
        invariant forall j :: 0 <= j < i ==> attrs[j] !in inherited
      {
        OneMoreOwn(inherited, attrs, i);
        err := ReadAttr(attrs[i]);
        if !err.ReadOk? {
          return;
        }
        i := i + 1;
      }
      assert attrs[..i] == attrs;
      err := ReadOk;
    }

    /** The base clauses of a record.  The bases have been acquired already; `bases` holds their
        indices. */
    method ReadClauses(ghost s: Schema, ghost n: Name, clauses: seq<Clause>, bases: seq<AttrIdx>)
      returns (err: ReadErr)
      requires WellFormed(s) && n in s && Resolvable(s, n) && s[n].clauses == clauses
      requires |bases| == |clauses| && attrIdx == map[]
      requires forall i :: 0 <= i < |bases| ==>
                 Readable(s, clauses[i].base) && bases[i] == ReadIdx(s, clauses[i].base)
      modifies this
      ensures err.ReadOk? <==> forall k :: 0 <= k < |clauses| ==> ClauseOk(s, n, k)
      ensures err.ReadOk? ==>
                && ClausesReadable(s, n, |clauses|)
                && attrIdx == ReadUpTo(s, n, |clauses|)
    {
      hide Readable, Resolvable, WellFormed, DepGraph, HasAttr, InheritsAttr, ClauseOk, Fill, Assign, ReadUpTo, ReadIdx;
      var k := 0;
      NoneInherited(s, n);
      ReadNone(s, n);
      while k < |clauses|
        invariant 0 <= k <= |clauses|
        invariant attrIdx == ReadUpTo(s, n, k) && ClausesReadable(s, n, k)
      {
        ReadUnfold(s, n, k);
        FilledKeys(s, n, k);
        err := ReadClause(clauses[k].values, bases[k]);
        if !err.ReadOk? {
          return;
        }
        k := k + 1;
      }
      err := ReadOk;
    }

    /** One record: base clauses in order, then the attributes the class declares. */
    method ReadRecord(ghost s: Schema, ghost n: Name, decl: ClassDecl, bases: seq<AttrIdx>) returns (err: ReadErr)
      requires WellFormed(s) && n in s && Resolvable(s, n) && s[n] == decl
      requires |bases| == |decl.clauses| && attrIdx == map[]
      requires forall i :: 0 <= i < |bases| ==>
                 Readable(s, decl.clauses[i].base) && bases[i] == ReadIdx(s, decl.clauses[i].base)
      modifies this
      ensures err.ReadOk? <==> RecordOk(s, n)
      ensures err.ReadOk? ==> attrIdx == ReadIdx(s, n)
    {
      hide Readable, Resolvable, WellFormed, DepGraph, HasAttr, InheritsAttr, ClauseOk, OwnIdx, ReadUpTo;
      err := ReadClauses(s, n, decl.clauses, bases);
      if err.ReadOk? {
        ReadKeys(s, n, |decl.clauses|);
        NamesDistinct(s, n);
        err := ReadAttrs(decl.attrs);
      }
    }
  }

  lemma NamesDistinct(s: Schema, n: Name)
    requires Resolvable(s, n)
    ensures DistinctNames(s[n].attrs)
  {
  }

  lemma FillOneMore(idx: AttrIdx, done: AttrIdx, a: Attr, v: Option<AttrVar>)
    requires a !in done
    ensures Fill(Fill(idx, done), map[a := v]) == Fill(idx, done[a := v])
  {
  }

  lemma OneMoreOwn(inherited: AttrIdx, attrs: seq<Attr>, i: nat)
    requires i < |attrs| && attrs[i] !in attrs[..i]
    ensures attrs[i] in inherited + OwnIdx(attrs[..i]) <==> attrs[i] in inherited
    ensures (inherited + OwnIdx(attrs[..i]))[attrs[i] := None] == inherited + OwnIdx(attrs[..i + 1])
  {
    assert attrs[..i + 1] == attrs[..i] + [attrs[i]];
    var l, r := (inherited + OwnIdx(attrs[..i]))[attrs[i] := None], inherited + OwnIdx(attrs[..i + 1]);
    assert forall a :: a in OwnIdx(attrs[..i + 1]) <==> a in OwnIdx(attrs[..i]) || a == attrs[i];
    assert l.Keys == r.Keys;
    assert forall a :: a in l ==> l[a] == r[a];
  }
}
