/** The cells of the lock-free cache, one atomic operation a step.  A cell counts its readers; -1 means
    a writer has claimed it. */
module CacheCells {
  import opened Options

  type TaskId = nat
  type Data = nat

  datatype Cell = Cell(readers: int, data: Option<Data>)

  /** A writer: without data, looking for a cell, about to claim one whose count it read, inside, about
      to swap the data it read, about to open the cell, about to free the old data. */
  datatype WriterPc = NoData | Looking | Claiming(i: nat, n: int) | Inside(i: nat)
                    | Swapping(i: nat, prev: Option<Data>) | Opening(i: nat, prev: Option<Data>)
                    | Evicting(prev: Option<Data>)

  datatype Writer = Writer(pc: WriterPc, data: Data)

  /** A reader: out, about to enter, in, holding what it read, about to read the count on release, about
      to leave, and told that its release conflicts. */
  datatype Reader = Out | Entering(i: nat, n: int) | In(i: nat) | Holding(i: nat, data: Option<Data>)
                  | Releasing(i: nat, data: Option<Data>) | Leaving(i: nat, data: Option<Data>, n: int)
                  | Refused(i: nat)

  datatype State = State(cells: seq<Cell>, writers: map<TaskId, Writer>, readers: map<TaskId, Reader>)

  datatype Step =
    | Bring(w: TaskId, data: Data)
    | Look(w: TaskId, i: nat)
    | Claim(w: TaskId, ok: bool)
    | LoadPrev(w: TaskId)
    | Swap(w: TaskId, ok: bool)
    | Open(w: TaskId)
    | Evict(w: TaskId)
    | Peek(r: TaskId, i: nat)
    | Enter(r: TaskId, ok: bool)
    | Get(r: TaskId)
    | Compare(r: TaskId)
    | PeekOut(r: TaskId)
    | Leave(r: TaskId, ok: bool)

  predicate WriterEnabled(s: State, step: Step, pc: WriterPc) {
    match step {
      case Bring(_, _) => pc.NoData?
      case Look(_, i) => pc.Looking? && i < |s.cells|
      case Claim(_, ok) => pc.Claiming? && pc.i < |s.cells| && (ok ==> s.cells[pc.i].readers == pc.n)
      case LoadPrev(_) => pc.Inside? && pc.i < |s.cells|
      case Swap(_, ok) => pc.Swapping? && pc.i < |s.cells| && (ok ==> s.cells[pc.i].data == pc.prev)
      case Open(_) => pc.Opening? && pc.i < |s.cells|
      case Evict(_) => pc.Evicting?
      case _ => false
    }
  }

  predicate ReaderEnabled(s: State, step: Step, t: Reader) {
    match step {
      case Peek(_, i) => t.Out? && i < |s.cells|
      case Enter(_, ok) => t.Entering? && t.i < |s.cells| && (ok ==> s.cells[t.i].readers == t.n)
      case Get(_) => t.In? && t.i < |s.cells|
      case Compare(_) => t.Holding? && t.i < |s.cells|
      case PeekOut(_) => t.Releasing? && t.i < |s.cells|
      case Leave(_, ok) => t.Leaving? && t.i < |s.cells| && (ok ==> s.cells[t.i].readers == t.n)
      case _ => false
    }
  }

  predicate IsWriterStep(step: Step) {
    step.Bring? || step.Look? || step.Claim? || step.LoadPrev? || step.Swap? || step.Open? || step.Evict?
  }

  /** Weak compare-and-swaps may fail at any time. */
  predicate Enabled(s: State, step: Step) {
    if IsWriterStep(step) then step.w in s.writers && WriterEnabled(s, step, s.writers[step.w].pc)
    else step.r in s.readers && ReaderEnabled(s, step, s.readers[step.r])
  }

  /** A writer's own fields after its step. */
  function WriterNext(s: State, step: Step, t: Writer): Writer
    requires IsWriterStep(step) && WriterEnabled(s, step, t.pc)
  {
    match step
    case Bring(_, data) => Writer(Looking, data)
    case Look(_, i) =>
      // a cell in use is passed over, a claimed one is not
      if s.cells[i].readers > 0 then t else t.(pc := Claiming(i, s.cells[i].readers))
    case Claim(_, ok) => t.(pc := if ok then Inside(t.pc.i) else Looking)
    case LoadPrev(_) => t.(pc := Swapping(t.pc.i, s.cells[t.pc.i].data))
    case Swap(_, ok) => t.(pc := if ok then Opening(t.pc.i, t.pc.prev) else Looking)
    case Open(_) => t.(pc := Evicting(t.pc.prev))
    case Evict(_) => t.(pc := NoData)
  }

  /** A claim stores -1, a swap the new data, and opening 0. */
  function WriterCells(s: State, step: Step, t: Writer): seq<Cell>
    requires IsWriterStep(step) && WriterEnabled(s, step, t.pc)
  {
    match step
    case Claim(_, ok) => if ok then s.cells[t.pc.i := s.cells[t.pc.i].(readers := -1)] else s.cells
    case Swap(_, ok) => if ok then s.cells[t.pc.i := s.cells[t.pc.i].(data := Some(t.data))] else s.cells
    case Open(_) => s.cells[t.pc.i := s.cells[t.pc.i].(readers := 0)]
    case _ => s.cells
  }

  function ReaderNext(s: State, step: Step, t: Reader): Reader
    requires !IsWriterStep(step) && ReaderEnabled(s, step, t)
  {
    match step
    case Peek(_, i) => if s.cells[i].readers == -1 then Out else Entering(i, s.cells[i].readers)
    case Enter(_, ok) => if ok then In(t.i) else Out
    case Get(_) => Holding(t.i, s.cells[t.i].data)
    case Compare(_) => if s.cells[t.i].data != t.data then Refused(t.i) else Releasing(t.i, t.data)
    case PeekOut(_) =>
      var n := s.cells[t.i].readers;
      if n == -1 || n == 0 then Refused(t.i) else Leaving(t.i, t.data, n)
    case Leave(_, ok) => if ok then Out else Releasing(t.i, t.data)
  }

  function ReaderCells(s: State, step: Step, t: Reader): seq<Cell>
    requires !IsWriterStep(step) && ReaderEnabled(s, step, t)
  {
    match step
    case Enter(_, ok) => if ok then s.cells[t.i := s.cells[t.i].(readers := t.n + 1)] else s.cells
    case Leave(_, ok) => if ok then s.cells[t.i := s.cells[t.i].(readers := t.n - 1)] else s.cells
    case _ => s.cells
  }

  function Next(s: State, step: Step): State
    requires Enabled(s, step)
  {
    if IsWriterStep(step) then
      var t := s.writers[step.w];
      s.(cells := WriterCells(s, step, t), writers := s.writers[step.w := WriterNext(s, step, t)])
    else
      var t := s.readers[step.r];
      s.(cells := ReaderCells(s, step, t), readers := s.readers[step.r := ReaderNext(s, step, t)])
  }

  // ---------------------------------------------------------------- the two rules of use

  /** The cell a writer has claimed and not opened again. */
  predicate Owns(t: Writer, i: nat) {
    (t.pc.Inside? || t.pc.Swapping? || t.pc.Opening?) && t.pc.i == i
  }

  /** No writer claims a cell that another one is inside. */
  ghost predicate SoloClaim(s: State, step: Step)
    requires Enabled(s, step)
  {
    step.Claim? && step.ok ==>
      forall w :: w in s.writers ==> !Owns(s.writers[w], s.writers[step.w].pc.i)
  }

  predicate Pending(t: Writer, d: Data) {
    (t.pc.Looking? || t.pc.Claiming? || t.pc.Inside? || t.pc.Swapping?) && t.data == d
  }

  predicate Doomed(t: Writer, d: Data) {
    (t.pc.Opening? || t.pc.Evicting?) && t.pc.prev == Some(d)
  }

  predicate Has(t: Writer, d: Data) {
    Pending(t, d) || Doomed(t, d)
  }

  ghost predicate Cached(cells: seq<Cell>, d: Data) {
    exists i :: 0 <= i < |cells| && cells[i].data == Some(d)
  }

  /** No writer brings data that is cached, about to be cached, or about to be freed. */
  ghost predicate FreshData(s: State, step: Step)
    requires Enabled(s, step)
  {
    step.Bring? ==>
      && !Cached(s.cells, step.data)
      && forall w :: w in s.writers ==> !Has(s.writers[w], step.data)
  }

  predicate Start(s: State) {
    && (forall i :: 0 <= i < |s.cells| ==> s.cells[i] == Cell(0, None))
    && (forall w :: w in s.writers ==> s.writers[w].pc.NoData?)
    && (forall r :: r in s.readers ==> s.readers[r].Out?)
  }

  ghost predicate Legal(s: State, steps: seq<Step>)
    decreases |steps|
  {
    steps == [] || (Enabled(s, steps[0]) && Legal(Next(s, steps[0]), steps[1..]))
  }

  ghost function Run(s: State, steps: seq<Step>): State
    requires Legal(s, steps)
    decreases |steps|
  {
    if steps == [] then s else Run(Next(s, steps[0]), steps[1..])
  }

  ghost predicate Solo(s: State, steps: seq<Step>)
    requires Legal(s, steps)
    decreases |steps|
  {
    steps == [] || (SoloClaim(s, steps[0]) && Solo(Next(s, steps[0]), steps[1..]))
  }

  ghost predicate Fresh(s: State, steps: seq<Step>)
    requires Legal(s, steps)
    decreases |steps|
  {
    steps == [] || (FreshData(s, steps[0]) && Fresh(Next(s, steps[0]), steps[1..]))
  }

  // ---------------------------------------------------------------- the invariant

  predicate Counts(t: Reader, i: nat) {
    !t.Out? && !t.Entering? && t.i == i
  }

  /** The readers between entering cell i and leaving it. */
  ghost function Within(readers: map<TaskId, Reader>, i: nat): set<TaskId> {
    set r | r in readers && Counts(readers[r], i)
  }

  lemma WithinChange(readers: map<TaskId, Reader>, r: TaskId, t: Reader, i: nat)
    requires r in readers
    ensures |Within(readers[r := t], i)|
            == |Within(readers, i)| - (if Counts(readers[r], i) then 1 else 0) + if Counts(t, i) then 1 else 0
  {
    var u, u' := Within(readers, i), Within(readers[r := t], i);
    var rest := u - {r};
    assert u == if Counts(readers[r], i) then rest + {r} else rest;
    assert u' == if Counts(t, i) then rest + {r} else rest;
  }

  ghost predicate CellOk(c: Cell, within: nat) {
    c.readers == within || (c.readers == -1 && within == 0)
  }

  ghost predicate ReaderOk(cells: seq<Cell>, t: Reader) {
    && (!t.Out? ==> t.i < |cells|)
    && (t.Entering? ==> t.n >= 0)
    && (t.Leaving? ==> t.n > 0)
    && (t.Holding? || t.Releasing? || t.Leaving? ==> cells[t.i].data == t.data)
    && !t.Refused?
  }

  ghost predicate WriterOk(cells: seq<Cell>, t: Writer) {
    && (t.pc.Claiming? ==> t.pc.i < |cells| && t.pc.n <= 0)
    && (t.pc.Inside? || t.pc.Swapping? || t.pc.Opening? ==> t.pc.i < |cells| && cells[t.pc.i].readers == -1)
    && (t.pc.Swapping? ==> cells[t.pc.i].data == t.pc.prev)
  }

  ghost predicate CellsOk(s: State) {
    forall i :: 0 <= i < |s.cells| ==> CellOk(s.cells[i], |Within(s.readers, i)|)
  }

  ghost predicate ReadersOk(s: State) {
    forall r :: r in s.readers ==> ReaderOk(s.cells, s.readers[r])
  }

  ghost predicate WritersOk(s: State) {
    && (forall w :: w in s.writers ==> WriterOk(s.cells, s.writers[w]))
    && (forall v, w, i :: v in s.writers && w in s.writers && Owns(s.writers[v], i) && Owns(s.writers[w], i) ==> v == w)
  }

  /** No data is in two places. */
  ghost predicate PlacesOk(s: State) {
    && (forall i, j :: 0 <= i < j < |s.cells| && s.cells[i].data.Some? ==> s.cells[i].data != s.cells[j].data)
    && (forall w, d :: w in s.writers && Has(s.writers[w], d) ==> !Cached(s.cells, d))
    && (forall v, w, d :: v in s.writers && w in s.writers && Has(s.writers[v], d) && Has(s.writers[w], d) ==> v == w)
  }

  ghost predicate Inv(s: State) {
    CellsOk(s) && ReadersOk(s) && WritersOk(s) && PlacesOk(s)
  }

  lemma StartInv(s: State)
    requires Start(s)
    ensures Inv(s)
  {
    forall i: nat | i < |s.cells|
      ensures Within(s.readers, i) == {}
    {
    }
  }

  // ---------------------------------------------------------------- every ruled step keeps it

  lemma EnteredCounts(s: State, r: TaskId, i: nat)
    requires CellsOk(s) && i < |s.cells| && r in s.readers && Counts(s.readers[r], i)
    ensures s.cells[i].readers >= 1
  {
    assert r in Within(s.readers, i);
  }

  /** What a writer step does to the cells: nothing, or one field of one cell, which then has no
      readers. */
  lemma WriterTouches(s: State, step: Step)
    requires Inv(s) && Enabled(s, step) && IsWriterStep(step)
    ensures var cells, t := Next(s, step).cells, s.writers[step.w];
            && |cells| == |s.cells|
            && (forall i :: 0 <= i < |cells| && cells[i] != s.cells[i] ==>
                  && s.cells[i].readers <= 0 && -1 <= cells[i].readers <= 0
                  && (step.Claim? || step.Open? || step.Swap?) && t.pc.i == i
                  && (!step.Swap? ==> cells[i].data == s.cells[i].data)
                  && (step.Swap? ==> cells[i].readers == s.cells[i].readers == -1 && cells[i].data == Some(t.data)))
  {
    hide PlacesOk, ReadersOk, CellsOk;
    assert WriterOk(s.cells, s.writers[step.w]);
  }

  lemma WriterKeepsCells(s: State, step: Step)
    requires Inv(s) && Enabled(s, step) && IsWriterStep(step)
    ensures CellsOk(Next(s, step))
  {
    hide PlacesOk, ReadersOk, WritersOk, Within;
    WriterTouches(s, step);
  }

  lemma WriterKeepsReaders(s: State, step: Step)
    requires Inv(s) && Enabled(s, step) && IsWriterStep(step)
    ensures ReadersOk(Next(s, step))
  {
    hide PlacesOk, WritersOk, Within, CellsOk;
    WriterTouches(s, step);
    var s' := Next(s, step);
    forall r | r in s'.readers
      ensures ReaderOk(s'.cells, s'.readers[r])
    {
      var t := s.readers[r];
      assert ReaderOk(s.cells, t);
      if Counts(t, if t.Out? then 0 else t.i) {
        EnteredCounts(s, r, t.i);
      }
    }
  }

  lemma WriterKeepsWriters(s: State, step: Step)
    requires Inv(s) && Enabled(s, step) && IsWriterStep(step) && SoloClaim(s, step)
    ensures WritersOk(Next(s, step))
  {
    hide PlacesOk, ReadersOk, CellsOk;
    WriterTouches(s, step);
    var s' := Next(s, step);
    assert WriterOk(s.cells, s.writers[step.w]);
    assert WriterOk(s'.cells, s'.writers[step.w]);
    forall w | w in s'.writers && w != step.w
      ensures WriterOk(s'.cells, s'.writers[w])
    {
      var t := s.writers[w];
      assert WriterOk(s.cells, t);
      if t.pc.Inside? || t.pc.Swapping? || t.pc.Opening? {
        assert Owns(t, t.pc.i);
        assert (step.Open? || step.Swap?) ==> Owns(s.writers[step.w], s.writers[step.w].pc.i);
      }
    }
  }

  lemma SwapKeepsPlaces(s: State, w: TaskId)
    requires Inv(s) && Enabled(s, Swap(w, true))
    ensures PlacesOk(Next(s, Swap(w, true)))
  {
    hide ReadersOk, CellsOk, WritersOk, Cached;
    var s', t := Next(s, Swap(w, true)), s.writers[w];
    SwapMoves(s, w);
    assert Has(t, t.data);
    forall i | 0 <= i < |s.cells| && s.cells[i].data.Some?
      ensures Cached(s.cells, s.cells[i].data.value)
    {
      CellCached(s.cells, i);
    }
    forall v, d: Data | v in s'.writers && Has(s'.writers[v], d)
      ensures !Cached(s'.cells, d)
    {
      assert v != w ==> Has(s.writers[v], d);
    }
  }

  lemma CellCached(cells: seq<Cell>, i: nat)
    requires i < |cells| && cells[i].data.Some?
    ensures Cached(cells, cells[i].data.value)
  {
  }

  /** What is pending or doomed with the stepping writer was so before, or has just been brought, or has
      just left a cell. */
  lemma WriterKeepsPlaces(s: State, step: Step)
    requires Inv(s) && Enabled(s, step) && IsWriterStep(step) && FreshData(s, step)
    ensures PlacesOk(Next(s, step))
  {
    hide ReadersOk, CellsOk, WritersOk;
    if step.Swap? && step.ok {
      SwapKeepsPlaces(s, step.w);
    } else {
      var s', w := Next(s, step), step.w;
      assert forall i :: 0 <= i < |s.cells| ==> s'.cells[i].data == s.cells[i].data;
      assert forall d: Data :: Cached(s'.cells, d) ==> Cached(s.cells, d);
      assert forall d: Data :: Has(s'.writers[w], d) ==> Has(s.writers[w], d) || (step.Bring? && d == step.data);
    }
  }

  /** A swap: the data brought is cached, the old data doomed. */
  lemma SwapMoves(s: State, w: TaskId)
    requires Inv(s) && Enabled(s, Swap(w, true))
    ensures var s', t := Next(s, Swap(w, true)), s.writers[w];
            && (forall d: Data :: Cached(s'.cells, d) <==> d == t.data || (Cached(s.cells, d) && t.pc.prev != Some(d)))
            && (forall d: Data :: Has(s'.writers[w], d) <==> t.pc.prev == Some(d))
            && (t.pc.prev.Some? ==> Cached(s.cells, t.pc.prev.value))
  {
    hide ReadersOk, CellsOk;
    var s', t := Next(s, Swap(w, true)), s.writers[w];
    var i := t.pc.i;
    assert WriterOk(s.cells, t) && s.cells[i].data == t.pc.prev;
    assert Pending(t, t.data) && !Cached(s.cells, t.data);
    assert s'.cells[i].data == Some(t.data);
    forall d: Data
      ensures Cached(s'.cells, d) <==> d == t.data || (Cached(s.cells, d) && t.pc.prev != Some(d))
    {
      if Cached(s.cells, d) && t.pc.prev != Some(d) {
        var j :| 0 <= j < |s.cells| && s.cells[j].data == Some(d);
        assert s'.cells[j].data == Some(d);
      }
      if Cached(s'.cells, d) && d != t.data {
        var j :| 0 <= j < |s'.cells| && s'.cells[j].data == Some(d);
        assert s.cells[j].data == Some(d);
      }
    }
  }

  lemma ReaderKeepsCells(s: State, step: Step)
    requires Inv(s) && Enabled(s, step) && !IsWriterStep(step)
    ensures CellsOk(Next(s, step))
  {
    hide PlacesOk, WritersOk, Within;
    var s', r := Next(s, step), step.r;
    assert ReaderOk(s.cells, s.readers[r]);
    forall i | 0 <= i < |s'.cells|
      ensures CellOk(s'.cells[i], |Within(s'.readers, i)|)
    {
      WithinChange(s.readers, r, s'.readers[r], i);
    }
  }

  lemma ReaderKeepsReaders(s: State, step: Step)
    requires Inv(s) && Enabled(s, step) && !IsWriterStep(step)
    ensures ReadersOk(Next(s, step))
  {
    hide PlacesOk, WritersOk, Within, CellsOk;
    var s', r := Next(s, step), step.r;
    assert ReaderOk(s.cells, s.readers[r]);
    if step.PeekOut? {
      EnteredCounts(s, r, s.readers[r].i);
    }
    if step.Peek? {
      PeekedCount(s, step.i);
    }
  }

  lemma PeekedCount(s: State, i: nat)
    requires CellsOk(s) && i < |s.cells|
    ensures s.cells[i].readers >= -1
  {
  }

  lemma ReaderKeepsWriters(s: State, step: Step)
    requires Inv(s) && Enabled(s, step) && !IsWriterStep(step)
    ensures WritersOk(Next(s, step)) && PlacesOk(Next(s, step))
  {
    hide Within, CellsOk;
    var s' := Next(s, step);
    assert ReaderOk(s.cells, s.readers[step.r]);
    assert forall i :: 0 <= i < |s.cells| ==> s'.cells[i].data == s.cells[i].data;
    assert forall d :: Cached(s'.cells, d) ==> Cached(s.cells, d);
  }

  lemma {:induction false} RunKeepsInv(s: State, steps: seq<Step>)
    requires Inv(s) && Legal(s, steps) && Solo(s, steps) && Fresh(s, steps)
    ensures Inv(Run(s, steps))
    decreases |steps|
  {
    hide CellsOk, ReadersOk, WritersOk, PlacesOk, Next, Enabled;
    if steps != [] {
      var step := steps[0];
      if IsWriterStep(step) {
        WriterKeepsCells(s, step);
        WriterKeepsReaders(s, step);
        WriterKeepsWriters(s, step);
        WriterKeepsPlaces(s, step);
      } else {
        ReaderKeepsCells(s, step);
        ReaderKeepsReaders(s, step);
        ReaderKeepsWriters(s, step);
      }
      RunKeepsInv(Next(s, step), steps[1..]);
    }
  }

  // ---------------------------------------------------------------- what ruled runs guarantee

  predicate Holds(t: Reader, d: Data) {
    (t.Holding? || t.Releasing? || t.Leaving?) && t.data == Some(d)
  }

  /** The cell of a reader between get and release still has the data it got. */
  predicate HasWhatItGot(cells: seq<Cell>, t: Reader) {
    t.Holding? || t.Releasing? || t.Leaving? ==> t.i < |cells| && cells[t.i].data == t.data
  }

  /** A count that is not -1 is the number of readers between entering and leaving, -1 means there are
      none; data a reader holds is still in its cell; data about to be freed is held by nobody; and no
      release has been refused. */
  ghost predicate Safe(s: State) {
    && (forall i :: 0 <= i < |s.cells| ==>
          || s.cells[i].readers == |Within(s.readers, i)|
          || (s.cells[i].readers == -1 && Within(s.readers, i) == {}))
    && (forall r :: r in s.readers ==> HasWhatItGot(s.cells, s.readers[r]))
    && (forall w, r, d: Data :: w in s.writers && r in s.readers && Doomed(s.writers[w], d) ==>
          !Holds(s.readers[r], d))
    && (forall r :: r in s.readers ==> !s.readers[r].Refused?)
  }

  lemma CacheHolds(s0: State, steps: seq<Step>)
    requires Start(s0) && Legal(s0, steps) && Solo(s0, steps) && Fresh(s0, steps)
    ensures Safe(Run(s0, steps))
  {
    hide Next, Enabled;
    StartInv(s0);
    RunKeepsInv(s0, steps);
    var s := Run(s0, steps);
    assert forall r :: r in s.readers ==> ReaderOk(s.cells, s.readers[r]);
    forall i | 0 <= i < |s.cells|
      ensures s.cells[i].readers == |Within(s.readers, i)| || (s.cells[i].readers == -1 && Within(s.readers, i) == {})
    {
      assert CellOk(s.cells[i], |Within(s.readers, i)|);
    }
    forall w, r, d: Data | w in s.writers && r in s.readers && Doomed(s.writers[w], d)
      ensures !Holds(s.readers[r], d)
    {
      assert Has(s.writers[w], d) && !Cached(s.cells, d);
    }
  }

  /** A swap that fails leaves the cell claimed, and by nobody. */
  lemma FailedSwapCloses(s: State, w: TaskId)
    requires Inv(s) && Enabled(s, Swap(w, false))
    ensures var s', i := Next(s, Swap(w, false)), s.writers[w].pc.i;
            && i < |s'.cells| && s'.cells[i].readers == -1
            && forall v :: v in s'.writers ==> !Owns(s'.writers[v], i)
  {
    hide PlacesOk, ReadersOk, CellsOk;
    assert WriterOk(s.cells, s.writers[w]);
    assert Owns(s.writers[w], s.writers[w].pc.i);
  }

  // ---------------------------------------------------------------- what no rule is needed for

  /** Counts never fall below -1, and whoever is about to raise one read no -1, to lower one no 0. */
  ghost predicate CountsOk(s: State) {
    && (forall i :: 0 <= i < |s.cells| ==> s.cells[i].readers >= -1)
    && (forall w :: w in s.writers && s.writers[w].pc.Claiming? ==> -1 <= s.writers[w].pc.n <= 0)
    && (forall r :: r in s.readers && s.readers[r].Entering? ==> s.readers[r].n >= 0)
    && (forall r :: r in s.readers && s.readers[r].Leaving? ==> s.readers[r].n > 0)
  }

  lemma {:induction false} CountsStayOk(s: State, steps: seq<Step>)
    requires CountsOk(s) && Legal(s, steps)
    ensures CountsOk(Run(s, steps))
    decreases |steps|
  {
    if steps != [] {
      CountsStayOk(Next(s, steps[0]), steps[1..]);
    }
  }

  /** In every run, whether it keeps the rules or not. */
  lemma CountsHold(s0: State, steps: seq<Step>)
    requires Start(s0) && Legal(s0, steps)
    ensures CountsOk(Run(s0, steps))
  {
    CountsStayOk(s0, steps);
  }

  /** A writer keeps the data it brought until a swap of its own puts it into a cell. */
  lemma PendingKept(s: State, step: Step, w: TaskId, d: Data)
    requires Enabled(s, step) && w in s.writers && Pending(s.writers[w], d)
    ensures var s' := Next(s, step);
            && w in s'.writers
            && (if step == Swap(w, true) then !Pending(s'.writers[w], d) && Cached(s'.cells, d)
                else Pending(s'.writers[w], d))
  {
    var s' := Next(s, step);
    if step == Swap(w, true) {
      var i := s.writers[w].pc.i;
      assert s'.cells[i].data == Some(d);
    }
  }
}
