/** What a resolved index holds, told without memoised merging: the last value written on a full
    walk over the bases. */
module ClassMeaning {
  import opened Digraph
  import opened ClassSchema
  import opened Options

  /** Every value n is given, in order: clause by clause, first all that the base is given, down to
      the classes without bases and over again for a base met twice, then the clause's own values. */
  ghost function Trace(s: Schema, n: Name, k: nat): seq<AttrVar>
    requires WellFormed(s) && Resolvable(s, n) && k <= |s[n].clauses|
    decreases ReachSet(DepGraph(s), n), k
  {
    if k == 0 then []
    else
      var cl := s[n].clauses[k - 1];
      ClauseDeps(s, n, k - 1);
      ResolvableDep(s, n, cl.base);
      Trace(s, n, k - 1) + Trace(s, cl.base, |s[cl.base].clauses|) + cl.values
  }

  function LastWrite(vars: seq<AttrVar>, a: Attr): Option<AttrVar> {
    if vars == [] then None
    else if vars[|vars| - 1].attr == a then Some(vars[|vars| - 1])
    else LastWrite(vars[..|vars| - 1], a)
  }

  lemma {:induction false} LastWriteConcat(v: seq<AttrVar>, w: seq<AttrVar>, a: Attr)
    ensures LastWrite(v + w, a) == if LastWrite(w, a).Some? then LastWrite(w, a) else LastWrite(v, a)
  {
    if w == [] {
      assert v + w == v;
    } else {
      assert (v + w)[..|v + w| - 1] == v + w[..|w| - 1];
      LastWriteConcat(v, w[..|w| - 1], a);
    }
  }

  function Held(idx: AttrIdx, a: Attr): Option<AttrVar> {
    if a in idx then idx[a] else None
  }

  lemma {:induction false} AssignHeld(idx: AttrIdx, vars: seq<AttrVar>, a: Attr)
    ensures Held(Assign(idx, vars), a) == if LastWrite(vars, a).Some? then LastWrite(vars, a) else Held(idx, a)
  {
    if vars != [] {
      AssignHeld(idx, vars[..|vars| - 1], a);
    }
  }

  /** Through any depth of diamonds, an attribute holds the last value of the walk. */
  lemma {:induction false} MergedIsLastWrite(s: Schema, n: Name, k: nat, a: Attr)
    requires WellFormed(s) && Resolvable(s, n) && k <= |s[n].clauses| && Mergeable(s, n, k)
    ensures Held(MergedIdx(s, n, k), a) == LastWrite(Trace(s, n, k), a)
    decreases ReachSet(DepGraph(s), n), k
  {
    hide WellFormed, Resolvable, HasAttrUpTo, DepGraph;
    if k > 0 {
      var cl := s[n].clauses[k - 1];
      var b := cl.base;
      ClauseDeps(s, n, k - 1);
      ResolvableDep(s, n, b);
      DepReachesLess(s, n, b);
      ResolvableIsMergeable(s, b);
      MergedIsLastWrite(s, n, k - 1, a);
      MergedIsLastWrite(s, b, |s[b].clauses|, a);
      MergedUnfold(s, n, k);
      var before, base := MergedIdx(s, n, k - 1), MergedIdx(s, b, |s[b].clauses|);
      AssignHeld(Inherit(before, base), cl.values, a);
      LastWriteConcat(Trace(s, n, k - 1), Trace(s, b, |s[b].clauses|), a);
      LastWriteConcat(Trace(s, n, k - 1) + Trace(s, b, |s[b].clauses|), cl.values, a);
    }
  }

  lemma MergedUnfold(s: Schema, n: Name, k: nat)
    requires WellFormed(s) && Mergeable(s, n, k) && k > 0
    ensures var b := s[n].clauses[k - 1].base;
            && b in s && Mergeable(s, b, |s[b].clauses|)
            && (forall v :: v in s[n].clauses[k - 1].values ==>
                  v.attr in Inherit(MergedIdx(s, n, k - 1), MergedIdx(s, b, |s[b].clauses|)))
            && MergedIdx(s, n, k)
               == Assign(Inherit(MergedIdx(s, n, k - 1), MergedIdx(s, b, |s[b].clauses|)), s[n].clauses[k - 1].values)
  {
    var b := s[n].clauses[k - 1].base;
    ClauseDeps(s, n, k - 1);
    DepReachesLess(s, n, b);
    ResolvableIsMergeable(s, b);
    MergedKeys(s, n, k, MergedIdx(s, n, k - 1), MergedIdx(s, b, |s[b].clauses|));
  }

  /** The index of a resolved class, attribute by attribute. */
  lemma ClassIdxMeaning(s: Schema, n: Name, a: Attr)
    requires WellFormed(s) && Resolvable(s, n)
    ensures a in ClassIdx(s, n) <==> HasAttr(s, n, a)
    ensures Held(ClassIdx(s, n), a) == LastWrite(Trace(s, n, |s[n].clauses|), a)
  {
    ClassIdxKeys(s, n, a);
    ResolvableIsMergeable(s, n);
    MergedIsLastWrite(s, n, |s[n].clauses|, a);
  }
}
