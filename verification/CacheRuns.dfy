/** Runs of the cache: what a task does when it is left alone, and what happens when a rule of use is broken. */
module CacheRuns {
  import opened Options
  import opened CacheCells

  lemma {:induction false} Extend(s: State, steps: seq<Step>, step: Step) returns (more: seq<Step>)
    requires Legal(s, steps) && Enabled(Run(s, steps), step)
    ensures Legal(s, more) && Run(s, more) == Next(Run(s, steps), step)
    ensures Solo(s, steps) && SoloClaim(Run(s, steps), step) ==> Solo(s, more)
    ensures Fresh(s, steps) && FreshData(Run(s, steps), step) ==> Fresh(s, more)
    decreases |steps|
  {
    hide Next, Enabled, SoloClaim, FreshData;
    if steps == [] {
      more := [step];
      assert more[1..] == [];
    } else {
      var rest := Extend(Next(s, steps[0]), steps[1..], step);
      more := [steps[0]] + rest;
      assert more[1..] == rest;
    }
  }

  // ---------------------------------------------------------------- a task left alone

  /** Only reader r changed, and the cell it is in by its count. */
  ghost predicate ReaderMoved(s: State, s': State, r: TaskId, t: Reader, i: nat, readers: int) {
    && r in s.readers && i < |s.cells| && s'.writers == s.writers
    && s'.readers == s.readers[r := t] && s'.cells == s.cells[i := s.cells[i].(readers := readers)]
  }

  /** What a reader between get and release has: its data is still there, and it is counted. */
  lemma HeldAndCounted(s: State, r: TaskId)
    requires Inv(s) && r in s.readers
    requires s.readers[r].Holding? || s.readers[r].Releasing? || s.readers[r].Leaving?
    ensures var t := s.readers[r]; t.i < |s.cells| && s.cells[t.i].data == t.data && s.cells[t.i].readers >= 1
  {
    hide WritersOk, PlacesOk, Within;
    assert ReaderOk(s.cells, s.readers[r]);
    EnteredCounts(s, r, s.readers[r].i);
  }

  /** From any state of any run that keeps to the rules: a reader that holds data and goes on to release it
      by itself is told so, and its cell counts one reader less. */
  lemma ReleasesAlone(s0: State, steps: seq<Step>, r: TaskId) returns (more: seq<Step>)
    requires Legal(s0, steps) && Inv(Run(s0, steps)) && r in Run(s0, steps).readers
    requires var t := Run(s0, steps).readers[r]; t.Holding? || t.Releasing? || t.Leaving?
    ensures Legal(s0, more) && (Solo(s0, steps) ==> Solo(s0, more)) && (Fresh(s0, steps) ==> Fresh(s0, more))
    ensures var s, i := Run(s0, steps), Run(s0, steps).readers[r].i;
            i < |s.cells| && ReaderMoved(s, Run(s0, more), r, Out, i, s.cells[i].readers - 1)
  {
    hide Legal, Run, Solo, Fresh, Inv, Has, Cached;
    var s := Run(s0, steps);
    HeldAndCounted(s, r);
    var i := s.readers[r].i;
    assert s.cells[i := s.cells[i].(readers := s.cells[i].readers)] == s.cells;
    more := steps;
    if s.readers[r].Holding? {
      more := Extend(s0, more, Compare(r));
    } else if s.readers[r].Leaving? {
      // the count it read may be old
      more := Extend(s0, more, Leave(r, false));
    }
    more := LeavesAlone(s0, more, r);
  }

  lemma LeavesAlone(s0: State, steps: seq<Step>, r: TaskId) returns (more: seq<Step>)
    requires Legal(s0, steps) && r in Run(s0, steps).readers && Run(s0, steps).readers[r].Releasing?
    requires var s := Run(s0, steps); s.readers[r].i < |s.cells| && s.cells[s.readers[r].i].readers >= 1
    ensures Legal(s0, more) && (Solo(s0, steps) ==> Solo(s0, more)) && (Fresh(s0, steps) ==> Fresh(s0, more))
    ensures var s, i := Run(s0, steps), Run(s0, steps).readers[r].i;
            ReaderMoved(s, Run(s0, more), r, Out, i, s.cells[i].readers - 1)
  {
    hide Legal, Run, Solo, Fresh, Has, Cached;
    more := Extend(s0, steps, PeekOut(r));
    more := Extend(s0, more, Leave(r, true));
  }

  /** A reader gets into a cell that no writer has claimed, by itself, and gets the data. */
  lemma Reads(s0: State, steps: seq<Step>, r: TaskId, i: nat) returns (more: seq<Step>)
    requires Legal(s0, steps)
    requires var s := Run(s0, steps); r in s.readers && s.readers[r].Out? && i < |s.cells| && s.cells[i].readers >= 0
    ensures Legal(s0, more) && (Solo(s0, steps) ==> Solo(s0, more)) && (Fresh(s0, steps) ==> Fresh(s0, more))
    ensures var s, s' := Run(s0, steps), Run(s0, more);
            ReaderMoved(s, s', r, Holding(i, s.cells[i].data), i, s.cells[i].readers + 1)
  {
    hide Legal, Run, Solo, Fresh, Has, Cached;
    more := Extend(s0, steps, Peek(r, i));
    more := Extend(s0, more, Enter(r, true));
    more := Extend(s0, more, Get(r));
  }

  /** So does one on its way in; the count it read may be old. */
  lemma GetsAlone(s0: State, steps: seq<Step>, r: TaskId) returns (more: seq<Step>)
    requires Legal(s0, steps) && r in Run(s0, steps).readers && Run(s0, steps).readers[r].Entering?
    requires var s, t := Run(s0, steps), Run(s0, steps).readers[r]; t.i < |s.cells| && s.cells[t.i].readers >= 0
    ensures Legal(s0, more) && (Solo(s0, steps) ==> Solo(s0, more)) && (Fresh(s0, steps) ==> Fresh(s0, more))
    ensures var s, i := Run(s0, steps), Run(s0, steps).readers[r].i;
            ReaderMoved(s, Run(s0, more), r, Holding(i, s.cells[i].data), i, s.cells[i].readers + 1)
  {
    hide Legal, Run, Solo, Fresh, Has, Cached;
    var i := Run(s0, steps).readers[r].i;
    more := Extend(s0, steps, Enter(r, false));
    more := Reads(s0, more, r, i);
  }

  /** Only writer w changed, and cell i, which has the data w brought and is open. */
  ghost predicate StoredIn(s: State, s': State, w: TaskId, i: nat) {
    && w in s.writers && i < |s.cells| && s'.readers == s.readers
    && s'.writers == s.writers[w := s.writers[w].(pc := NoData)]
    && s'.cells == s.cells[i := Cell(0, Some(s.writers[w].data))]
  }

  /** From any state of any run that keeps to the rules: a writer with data to store gets it into a cell by
      itself, into the one it has claimed, or else into any cell without readers. */
  lemma StoresAlone(s0: State, steps: seq<Step>, w: TaskId, i: nat) returns (more: seq<Step>)
    requires Legal(s0, steps) && Inv(Run(s0, steps)) && w in Run(s0, steps).writers && i < |Run(s0, steps).cells|
    requires var s, t := Run(s0, steps), Run(s0, steps).writers[w];
             match t.pc {
               case Looking => s.cells[i].readers <= 0
               case Claiming(_, _) => s.cells[i].readers <= 0
               case Inside(j) => j == i
               case Swapping(j, _) => j == i
               case _ => false
             }
    ensures Legal(s0, more) && StoredIn(Run(s0, steps), Run(s0, more), w, i)
  {
    hide Legal, Run, Solo, Fresh, Inv, Has, Cached;
    var s := Run(s0, steps);
    WriterThere(s, w);
    more := steps;
    if s.writers[w].pc.Looking? || s.writers[w].pc.Claiming? {
      more := ClaimsAlone(s0, steps, w, i);
    }
    var s1 := Run(s0, more);
    if s1.writers[w].pc.Inside? {
      more := Extend(s0, more, LoadPrev(w));
    }
    more := FinishesAlone(s0, more, w);
  }

  lemma WriterThere(s: State, w: TaskId)
    requires Inv(s) && w in s.writers
    ensures var t := s.writers[w];
            && (t.pc.Swapping? ==> t.pc.i < |s.cells| && s.cells[t.pc.i].data == t.pc.prev)
            && (t.pc.Claiming? || t.pc.Inside? || t.pc.Opening? ==> t.pc.i < |s.cells|)
  {
    assert WriterOk(s.cells, s.writers[w]);
  }

  lemma ClaimsAlone(s0: State, steps: seq<Step>, w: TaskId, i: nat) returns (more: seq<Step>)
    requires Legal(s0, steps) && w in Run(s0, steps).writers && i < |Run(s0, steps).cells|
    requires var s, t := Run(s0, steps), Run(s0, steps).writers[w];
             s.cells[i].readers <= 0 && (t.pc.Looking? || (t.pc.Claiming? && t.pc.i < |s.cells|))
    ensures Legal(s0, more)
    ensures var s, s' := Run(s0, steps), Run(s0, more);
            && s'.cells == s.cells[i := s.cells[i].(readers := -1)] && s'.readers == s.readers
            && s'.writers == s.writers[w := s.writers[w].(pc := Inside(i))]
  {
    hide Legal, Run, Solo, Fresh, Has, Cached, FreshData, SoloClaim;
    more := steps;
    if Run(s0, steps).writers[w].pc.Claiming? {
      // the count it read may be old
      more := Extend(s0, more, Claim(w, false));
    }
    more := Extend(s0, more, Look(w, i));
    more := Extend(s0, more, Claim(w, true));
  }

  lemma FinishesAlone(s0: State, steps: seq<Step>, w: TaskId) returns (more: seq<Step>)
    requires Legal(s0, steps) && w in Run(s0, steps).writers && Run(s0, steps).writers[w].pc.Swapping?
    requires var s, pc := Run(s0, steps), Run(s0, steps).writers[w].pc;
             pc.i < |s.cells| && s.cells[pc.i].data == pc.prev
    ensures Legal(s0, more) && StoredIn(Run(s0, steps), Run(s0, more), w, Run(s0, steps).writers[w].pc.i)
  {
    hide Legal, Run, Solo, Fresh, Has, Cached, FreshData, SoloClaim;
    more := Extend(s0, steps, Swap(w, true));
    more := Extend(s0, more, Open(w));
    more := Extend(s0, more, Evict(w));
  }

  // ---------------------------------------------------------------- without the rules

  /** Writer w brings data and claims cell 0. */
  lemma Claims(s0: State, steps: seq<Step>, w: TaskId, data: Data) returns (more: seq<Step>)
    requires Legal(s0, steps)
    requires var s := Run(s0, steps);
             w in s.writers && s.writers[w].pc.NoData? && |s.cells| > 0 && -1 <= s.cells[0].readers <= 0
    ensures Legal(s0, more)
    ensures var s, s' := Run(s0, steps), Run(s0, more);
            && s'.cells == s.cells[0 := s.cells[0].(readers := -1)] && s'.readers == s.readers
            && s'.writers == s.writers[w := Writer(Inside(0), data)]
    ensures Solo(s0, steps) && (forall v :: v in Run(s0, steps).writers ==> !Owns(Run(s0, steps).writers[v], 0))
            ==> Solo(s0, more)
    ensures Fresh(s0, steps) && FreshData(Run(s0, steps), Bring(w, data)) ==> Fresh(s0, more)
  {
    hide Legal, Run, Solo, Fresh, Has, Cached;
    more := Extend(s0, steps, Bring(w, data));
    more := Extend(s0, more, Look(w, 0));
    more := Extend(s0, more, Claim(w, true));
  }

  /** Writer w, inside, stores its data and opens the cell. */
  lemma Stores(s0: State, steps: seq<Step>, w: TaskId) returns (more: seq<Step>)
    requires Legal(s0, steps)
    requires var s := Run(s0, steps); w in s.writers && s.writers[w].pc == Inside(0) && |s.cells| > 0
    ensures Legal(s0, more) && (Solo(s0, steps) ==> Solo(s0, more)) && (Fresh(s0, steps) ==> Fresh(s0, more))
    ensures var s, s' := Run(s0, steps), Run(s0, more);
            && s'.cells == s.cells[0 := Cell(0, Some(s.writers[w].data))] && s'.readers == s.readers
            && s'.writers == s.writers[w := s.writers[w].(pc := Evicting(s.cells[0].data))]
  {
    hide Legal, Run, Solo, Fresh, Has, Cached;
    more := Extend(s0, steps, LoadPrev(w));
    more := Extend(s0, more, Swap(w, true));
    more := Extend(s0, more, Open(w));
  }

  lemma FreedWhileHeld(s: State, w: TaskId, r: TaskId, d: Data)
    requires w in s.writers && r in s.readers && Doomed(s.writers[w], d) && Holds(s.readers[r], d)
    ensures !Safe(s)
  {
  }

  /** Two writers inside cell 0. */
  lemma BothClaim(s0: State, v: TaskId, w: TaskId) returns (steps: seq<Step>)
    requires Start(s0) && v in s0.writers && w in s0.writers && v != w && |s0.cells| > 0
    ensures Legal(s0, steps) && Fresh(s0, steps)
    ensures var s := Run(s0, steps);
            && |s.cells| > 0 && s.readers == s0.readers && {v, w} <= s.writers.Keys
            && s.writers[v] == Writer(Inside(0), 7) && s.writers[w] == Writer(Inside(0), 8)
  {
    assert Legal(s0, []) && Fresh(s0, []) && Run(s0, []) == s0;
    hide Legal, Run, Solo, Fresh, Next, Enabled;
    steps := Claims(s0, [], v, 7);
    steps := Claims(s0, steps, w, 8);
  }

  /** The second frees what the reader got from the first. */
  lemma TwoWritersFreeHeldData(s0: State, v: TaskId, w: TaskId, r: TaskId) returns (steps: seq<Step>)
    requires Start(s0) && v in s0.writers && w in s0.writers && v != w && r in s0.readers && |s0.cells| > 0
    ensures Legal(s0, steps) && Fresh(s0, steps) && !Safe(Run(s0, steps))
  {
    hide Legal, Run, Solo, Fresh, Next, Enabled, Safe, FreshData;
    steps := BothClaim(s0, v, w);
    steps := Stores(s0, steps, v);
    steps := Reads(s0, steps, r, 0);
    steps := Stores(s0, steps, w);
    FreedWhileHeld(Run(s0, steps), w, r, 7);
  }

  /** No writer is inside a cell, or on its way into one. */
  ghost predicate Inactive(s: State) {
    forall w :: w in s.writers ==> s.writers[w].pc.NoData? || s.writers[w].pc.Evicting?
  }

  lemma StartInactive(s: State)
    requires Start(s)
    ensures Inactive(s)
  {
  }

  lemma StoresOnce(s0: State, steps: seq<Step>, w: TaskId, data: Data) returns (more: seq<Step>)
    requires Legal(s0, steps) && Inactive(Run(s0, steps))
    requires var s := Run(s0, steps);
             w in s.writers && s.writers[w].pc.NoData? && |s.cells| > 0 && -1 <= s.cells[0].readers <= 0
    ensures Legal(s0, more) && (Solo(s0, steps) ==> Solo(s0, more)) && Inactive(Run(s0, more))
    ensures var s, s' := Run(s0, steps), Run(s0, more);
            && s'.cells == s.cells[0 := Cell(0, Some(data))] && s'.readers == s.readers
            && s'.writers == s.writers[w := Writer(Evicting(s.cells[0].data), data)]
  {
    hide Legal, Run, Solo, Fresh, FreshData;
    more := Claims(s0, steps, w, data);
    more := Stores(s0, more, w);
  }

  lemma Evicts(s0: State, steps: seq<Step>, w: TaskId) returns (more: seq<Step>)
    requires Legal(s0, steps) && w in Run(s0, steps).writers && Run(s0, steps).writers[w].pc.Evicting?
    ensures Legal(s0, more) && (Solo(s0, steps) ==> Solo(s0, more))
    ensures var s := Run(s0, steps);
            Run(s0, more) == s.(writers := s.writers[w := s.writers[w].(pc := NoData)])
    ensures Inactive(Run(s0, steps)) ==> Inactive(Run(s0, more))
  {
    hide Legal, Run, Solo, Fresh, FreshData;
    more := Extend(s0, steps, Evict(w));
  }

  /** One writer brings the same data twice. */
  lemma StoresAgain(s0: State, w: TaskId) returns (steps: seq<Step>)
    requires Start(s0) && w in s0.writers && |s0.cells| > 0
    ensures Legal(s0, steps) && Solo(s0, steps)
    ensures var s := Run(s0, steps);
            && |s.cells| > 0 && s.cells[0] == Cell(0, Some(7)) && s.readers == s0.readers
            && w in s.writers && s.writers[w].pc == Evicting(Some(7))
  {
    assert Legal(s0, []) && Solo(s0, []) && Run(s0, []) == s0;
    hide Legal, Run, Solo, Fresh, FreshData, Inactive;
    assert Inactive(s0) by {
      StartInactive(s0);
    }
    steps := StoresOnce(s0, [], w, 7);
    steps := Evicts(s0, steps, w);
    steps := StoresOnce(s0, steps, w, 7);
  }

  /** It frees what it has just stored and a reader holds. */
  lemma SameDataFreedWhileHeld(s0: State, w: TaskId, r: TaskId) returns (steps: seq<Step>)
    requires Start(s0) && w in s0.writers && r in s0.readers && |s0.cells| > 0
    ensures Legal(s0, steps) && Solo(s0, steps) && !Safe(Run(s0, steps))
  {
    hide Legal, Run, Solo, Fresh, Safe, FreshData;
    steps := StoresAgain(s0, w);
    steps := Reads(s0, steps, r, 0);
    FreedWhileHeld(Run(s0, steps), w, r, 7);
  }

  // ---------------------------------------------------------------- when one rule is enough

  /** Nobody reads, or there is nothing to read. */
  ghost predicate Idle(s: State) {
    && (s.readers == map[] || s.cells == [])
    && (forall r :: r in s.readers ==> s.readers[r].Out?)
    && (forall w :: w in s.writers && s.writers[w].pc.Claiming? ==> s.writers[w].pc.n <= 0)
    && (forall i :: 0 <= i < |s.cells| ==> -1 <= s.cells[i].readers <= 0)
  }

  lemma {:induction false} IdleStays(s: State, steps: seq<Step>)
    requires Idle(s) && Legal(s, steps)
    ensures Idle(Run(s, steps))
    decreases |steps|
  {
    if steps != [] {
      IdleStays(Next(s, steps[0]), steps[1..]);
    }
  }

  lemma IdleSafe(s: State)
    requires Idle(s)
    ensures Safe(s)
  {
    forall i: nat | i < |s.cells|
      ensures Within(s.readers, i) == {}
    {
    }
  }

  lemma {:induction false} LoneWriterIsSolo(s: State, steps: seq<Step>)
    requires Legal(s, steps) && forall v, w :: v in s.writers && w in s.writers ==> v == w
    ensures Solo(s, steps)
    decreases |steps|
  {
    if steps != [] {
      LoneWriterIsSolo(Next(s, steps[0]), steps[1..]);
    }
  }

  lemma {:induction false} NoWriterIsFresh(s: State, steps: seq<Step>)
    requires Legal(s, steps) && s.writers == map[]
    ensures Solo(s, steps) && Fresh(s, steps)
    decreases |steps|
  {
    if steps != [] {
      NoWriterIsFresh(Next(s, steps[0]), steps[1..]);
    }
  }

  /** Keeping only to fresh data, every run is safe exactly where there are not two writers, or there
      is no reader or no cell. */
  lemma FreshSafeExactly(s0: State)
    requires Start(s0)
    ensures (forall steps :: Legal(s0, steps) && Fresh(s0, steps) ==> Safe(Run(s0, steps)))
            <==> ((forall v, w :: v in s0.writers && w in s0.writers ==> v == w)
                  || s0.readers == map[] || s0.cells == [])
  {
    hide Legal, Run, Fresh, Solo, Safe;
    if v, w :| v in s0.writers && w in s0.writers && v != w && s0.readers != map[] && s0.cells != [] {
      var r :| r in s0.readers;
      var steps := TwoWritersFreeHeldData(s0, v, w, r);
    } else {
      forall steps | Legal(s0, steps) && Fresh(s0, steps)
        ensures Safe(Run(s0, steps))
      {
        if s0.readers == map[] || s0.cells == [] {
          IdleStays(s0, steps);
          IdleSafe(Run(s0, steps));
        } else {
          LoneWriterIsSolo(s0, steps);
          CacheHolds(s0, steps);
        }
      }
    }
  }

  /** Keeping only to solo claims, every run is safe exactly where there is no writer, no reader or no
      cell. */
  lemma SoloSafeExactly(s0: State)
    requires Start(s0)
    ensures (forall steps :: Legal(s0, steps) && Solo(s0, steps) ==> Safe(Run(s0, steps)))
            <==> (s0.writers == map[] || s0.readers == map[] || s0.cells == [])
  {
    hide Legal, Run, Fresh, Solo, Safe;
    if s0.writers != map[] && s0.readers != map[] && s0.cells != [] {
      var w :| w in s0.writers;
      var r :| r in s0.readers;
      var steps := SameDataFreedWhileHeld(s0, w, r);
    } else {
      forall steps | Legal(s0, steps) && Solo(s0, steps)
        ensures Safe(Run(s0, steps))
      {
        if s0.readers == map[] || s0.cells == [] {
          IdleStays(s0, steps);
          IdleSafe(Run(s0, steps));
        } else {
          NoWriterIsFresh(s0, steps);
          CacheHolds(s0, steps);
        }
      }
    }
  }
}
