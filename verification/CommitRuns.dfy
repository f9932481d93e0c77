/** What a task of the confirmation protocol can do when it is left alone, and the runs that follow. */
module CommitRuns {
  import opened Options
  import opened CommitProtocol
  import opened CommitSafety

  /** A run one step longer. */
  lemma {:induction false} Extend(s: State, steps: seq<Step>, step: Step) returns (more: seq<Step>)
    requires Legal(s, steps) && Enabled(Run(s, steps), step)
    ensures Legal(s, more) && Run(s, more) == Next(Run(s, steps), step)
    ensures FreshFiling(s, steps) && (step.File? ==> step.item !in Run(s, steps).items) ==> FreshFiling(s, more)
    decreases |steps|
  {
    if steps == [] {
      more := [step];
      assert more[1..] == [];
    } else {
      var rest := Extend(Next(s, steps[0]), steps[1..], step);
      more := [steps[0]] + rest;
      assert more[1..] == rest;
    }
  }

  // ---------------------------------------------------------------- a task left alone

  /** c has neither swapped in nor failed. */
  predicate Active(t: Task) {
    !Swapped(t.pc) && !t.pc.Failed?
  }

  ghost predicate NoneConfirmed(s: State, c: CommitId, xs: seq<CommitId>) {
    forall x :: x in xs ==> x in s.tasks && (x == c || !Confirmed(s.tasks[x].confirm))
  }

  /** No other state filed under the items of c is confirmed. */
  ghost predicate Unopposed(s: State, c: CommitId) {
    c in s.tasks && forall it :: it in s.tasks[c].filed ==> it in s.items && NoneConfirmed(s, c, s.items[it])
  }

  /** From s, only c moved, in its scan, and got to pc. */
  ghost predicate Moved(s: State, s': State, c: CommitId, pc: Pc) {
    && c in s.tasks && c in s'.tasks
    && s' == s.(tasks := s.tasks[c := s'.tasks[c]])
    && s'.tasks[c] == s.tasks[c].(pc := pc, missed := s'.tasks[c].missed)
  }

  lemma {:induction false} ReadsThrough(s0: State, steps: seq<Step>, s: State, c: CommitId, k: nat, rest: seq<CommitId>)
    returns (more: seq<Step>)
    requires Legal(s0, steps) && Moved(s, Run(s0, steps), c, Scanned(k, rest)) && NoneConfirmed(s, c, rest)
    ensures Legal(s0, more) && (FreshFiling(s0, steps) ==> FreshFiling(s0, more))
    ensures Moved(s, Run(s0, more), c, Naming(k + 1))
    decreases |rest|
  {
    hide Legal, Run, FreshFiling;
    if rest == [] {
      more := steps;
    } else {
      more := Extend(s0, steps, ReadConfirm(c));
      more := ReadsThrough(s0, more, s, c, k, rest[1..]);
    }
  }

  /** Unopposed, it gets to the end of its scan. */
  lemma ScansOn(s0: State, steps: seq<Step>, s: State, c: CommitId, k: nat) returns (more: seq<Step>)
    requires Legal(s0, steps) && Moved(s, Run(s0, steps), c, Naming(k)) && Unopposed(s, c)
    requires k <= |s.tasks[c].filed|
    ensures Legal(s0, more) && (FreshFiling(s0, steps) ==> FreshFiling(s0, more))
    ensures Moved(s, Run(s0, more), c, Naming(|s.tasks[c].filed|))
  {
    hide Legal, Run, FreshFiling, NoneConfirmed;
    var filed := s.tasks[c].filed;
    more := steps;
    var j := k;
    while j < |filed|
      invariant k <= j <= |filed|
      invariant Legal(s0, more) && (FreshFiling(s0, steps) ==> FreshFiling(s0, more))
      invariant Moved(s, Run(s0, more), c, Naming(j))
    {
      assert filed[j] in filed;
      more := Extend(s0, more, LoadStates(c));
      more := ReadsThrough(s0, more, s, c, j, s.items[filed[j]]);
      j := j + 1;
    }
  }

  /** About to load the head, it scans all its names and swaps in. */
  lemma SwapsIn(s0: State, steps: seq<Step>, c: CommitId) returns (more: seq<Step>)
    requires Legal(s0, steps) && Unopposed(Run(s0, steps), c)
    requires var t := Run(s0, steps).tasks[c]; t.pc.Loading? && |t.filed| == |t.creates|
    ensures Legal(s0, more) && (FreshFiling(s0, steps) ==> FreshFiling(s0, more))
    ensures var s, s' := Run(s0, steps), Run(s0, more);
            && c in s'.tasks && s'.tasks == s.tasks[c := s'.tasks[c]] && s'.items == s.items
            && s'.chain == s.chain + [c] && s'.tasks[c].pc == Storing
            && s'.tasks[c].confirm == s.tasks[c].confirm
            && s'.tasks[c].creates == s.tasks[c].creates && s'.tasks[c].filed == s.tasks[c].filed
  {
    hide Legal, Run, FreshFiling, NoneConfirmed;
    var s := Run(s0, steps);
    more := Extend(s0, steps, LoadHead(c));
    var s1 := Run(s0, more);
    StaysUnopposed(s, s1, c, c);
    more := ScansOn(s0, more, s1, c, 0);
    more := Extend(s0, more, Swap(c, true));
  }

  /** As long as no state under its items gets confirmed, a task stays unopposed. */
  lemma StaysUnopposed(s: State, s': State, c: CommitId, d: CommitId)
    requires Unopposed(s, d) && c in s.tasks && c in s'.tasks
    requires s'.tasks == s.tasks[c := s'.tasks[c]] && s'.items == s.items
    requires s'.tasks[c].filed == s.tasks[c].filed && s'.tasks[c].confirm == s.tasks[c].confirm
    ensures Unopposed(s', d)
  {
  }

  lemma Stores(s0: State, steps: seq<Step>, c: CommitId) returns (more: seq<Step>)
    requires Legal(s0, steps) && c in Run(s0, steps).tasks && Run(s0, steps).tasks[c].pc.Storing?
    ensures Legal(s0, more) && (FreshFiling(s0, steps) ==> FreshFiling(s0, more))
    ensures var s := Run(s0, steps);
            Run(s0, more) == s.(tasks := s.tasks[c := s.tasks[c].(confirm := Valid, pc := Counting)])
  {
    more := Extend(s0, steps, StoreValid(c));
  }

  lemma SwapFails(s0: State, steps: seq<Step>, s: State, c: CommitId) returns (more: seq<Step>)
    requires Legal(s0, steps) && c in s.tasks && Moved(s, Run(s0, steps), c, Naming(|s.tasks[c].creates|))
    ensures Legal(s0, more) && (FreshFiling(s0, steps) ==> FreshFiling(s0, more))
    ensures Moved(s, Run(s0, more), c, Loading)
  {
    hide Legal, Run, FreshFiling;
    more := Extend(s0, steps, Swap(c, false));
  }

  /** In the midst of a scan, it gets to the next name. */
  lemma ReadsOn(s0: State, steps: seq<Step>, s: State, c: CommitId) returns (more: seq<Step>)
    requires Legal(s0, steps) && Run(s0, steps) == s && InScan(s, c)
    ensures Legal(s0, more) && (FreshFiling(s0, steps) ==> FreshFiling(s0, more))
    ensures var pc := s.tasks[c].pc; Moved(s, Run(s0, more), c, Naming(if pc.Naming? then pc.k else pc.k + 1))
  {
    hide Legal, Run, FreshFiling, NoneConfirmed, Next, Enabled;
    var t := s.tasks[c];
    StandsStill(s, c);
    more := steps;
    if t.pc.Reading? {
      more := ReadsThrough(s0, steps, s, c, t.pc.k, t.pc.rest);
    }
  }

  lemma StandsStill(s: State, c: CommitId)
    requires c in s.tasks
    ensures Moved(s, s, c, s.tasks[c].pc)
  {
  }

  /** In the midst of a scan, it gets through to a swap that fails, and is about to load the head. */
  lemma Reloads(s0: State, steps: seq<Step>, s: State, c: CommitId) returns (more: seq<Step>)
    requires Legal(s0, steps) && Run(s0, steps) == s && InScan(s, c) && Unopposed(s, c)
    ensures Legal(s0, more) && (FreshFiling(s0, steps) ==> FreshFiling(s0, more))
    ensures Moved(s, Run(s0, more), c, Loading)
  {
    hide Legal, Run, FreshFiling, Unopposed, NoneConfirmed, Next, Enabled, Moved;
    var t := s.tasks[c];
    var k := if t.pc.Naming? then t.pc.k else t.pc.k + 1;
    more := ReadsOn(s0, steps, s, c);
    more := ScansOn(s0, more, s, c, k);
    more := SwapFails(s0, more, s, c);
  }

  /** c has filed all its states and scans; the states it is about to look at are not confirmed. */
  ghost predicate InScan(s: State, c: CommitId) {
    && c in s.tasks
    && var t := s.tasks[c];
       && |t.filed| == |t.creates| && (t.pc.Naming? || t.pc.Reading?)
       && (t.pc.Naming? ==> t.pc.k <= |t.filed|)
       && (t.pc.Reading? ==> t.pc.k < |t.filed| && t.pc.rest != [] && NoneConfirmed(s, c, t.pc.rest))
  }

  lemma MidScan(s: State, c: CommitId)
    requires Inv(s) && Unopposed(s, c) && (s.tasks[c].pc.Naming? || s.tasks[c].pc.Reading?)
    ensures InScan(s, c)
  {
    hide ItemsOk, MissedOk, ScannedUpTo, HeadIs;
    var t := s.tasks[c];
    assert TaskOk(s.chain, s.items, c, t);
    if t.pc.Reading? {
      assert t.filed[t.pc.k] in t.filed;
      assert NoneConfirmed(s, c, s.items[t.filed[t.pc.k]]);
      var own := c;
      forall x | x in t.pc.rest
        ensures x in s.tasks && (x == own || !Confirmed(s.tasks[x].confirm))
      {
        if x != own {
          assert Rival(s.items, t.filed, c, t.pc.k, x);
        }
      }
    }
  }

  /** It files the states that are left, each under an item of its own. */
  lemma FilesFresh(s0: State, steps: seq<Step>, c: CommitId) returns (more: seq<Step>)
    requires Legal(s0, steps) && Unopposed(Run(s0, steps), c)
    requires var t := Run(s0, steps).tasks[c]; t.pc.Filing? && |t.filed| < |t.creates|
    ensures Legal(s0, more) && (FreshFiling(s0, steps) ==> FreshFiling(s0, more))
    ensures var s, s' := Run(s0, steps), Run(s0, more);
            && Unopposed(s', c) && s' == s.(tasks := s.tasks[c := s'.tasks[c]], items := s'.items)
            && s'.tasks[c] == s.tasks[c].(pc := Loading, filed := s'.tasks[c].filed)
            && s.tasks[c].filed <= s'.tasks[c].filed && |s'.tasks[c].filed| == |s'.tasks[c].creates|
  {
    hide Legal, Run, FreshFiling, NoneConfirmed;
    var s := Run(s0, steps);
    var names, i := s.tasks[c].creates, |s.tasks[c].filed|;
    more := steps;
    assert s == s.(tasks := s.tasks[c := s.tasks[c]], items := s.items);
    while i < |names|
      invariant |s.tasks[c].filed| <= i <= |names|
      invariant Legal(s0, more) && (FreshFiling(s0, steps) ==> FreshFiling(s0, more))
      invariant Unopposed(Run(s0, more), c)
      invariant var s' := Run(s0, more);
                && s' == s.(tasks := s.tasks[c := s'.tasks[c]], items := s'.items)
                && s'.tasks[c] == s.tasks[c].(pc := s'.tasks[c].pc, filed := s'.tasks[c].filed)
                && s'.tasks[c].pc == (if i == |names| then Loading else Filing)
                && |s'.tasks[c].filed| == i && s.tasks[c].filed <= s'.tasks[c].filed
    {
      ghost var before := Run(s0, more);
      var it := Above(before.items.Keys);
      more := Extend(s0, more, File(c, it));
      FiledFreshUnopposed(before, c, it);
      i := i + 1;
    }
  }

  lemma FiledFreshUnopposed(s: State, c: CommitId, it: Item)
    requires Unopposed(s, c) && it !in s.items && Enabled(s, File(c, it))
    ensures Unopposed(Next(s, File(c, it)), c)
  {
    var s' := Next(s, File(c, it));
    assert s'.items[it] == [c];
  }

  /** Only the task c changed, and it has filed no less. */
  ghost predicate OnlyTask(s: State, s': State, c: CommitId) {
    && c in s.tasks && c in s'.tasks && s'.tasks == s.tasks[c := s'.tasks[c]]
    && s'.tasks[c].creates == s.tasks[c].creates && s.tasks[c].filed <= s'.tasks[c].filed
  }

  lemma GetsToLoading(s0: State, steps: seq<Step>, c: CommitId) returns (more: seq<Step>)
    requires Inv(s0) && Legal(s0, steps) && Unopposed(Run(s0, steps), c) && Active(Run(s0, steps).tasks[c])
    ensures Legal(s0, more) && (FreshFiling(s0, steps) ==> FreshFiling(s0, more))
    ensures var s, s' := Run(s0, steps), Run(s0, more);
            && OnlyTask(s, s', c) && Unopposed(s', c) && s'.chain == s.chain && s'.head == s.head
            && s'.tasks[c].pc.Loading? && |s'.tasks[c].filed| == |s'.tasks[c].creates|
  {
    var s := Run(s0, steps);
    assert c in s.tasks && s.tasks == s.tasks[c := s.tasks[c]];
    hide Legal, Run, FreshFiling, Unopposed, Inv, Next, Enabled;
    RunKeepsInv(s0, steps);
    ActiveShape(s, c);
    more := steps;
    if s.tasks[c].pc.Filing? {
      more := FilesFresh(s0, steps, c);
    } else if !s.tasks[c].pc.Loading? {
      MidScan(s, c);
      more := Reloads(s0, steps, s, c);
      StaysUnopposed(s, Run(s0, more), c, c);
    }
  }

  /** Wherever it is, failed swaps included: unopposed, a task that has neither swapped in nor failed gets
      confirmed, with the numid that follows the head. */
  lemma ConfirmsAlone(s0: State, steps: seq<Step>, c: CommitId) returns (more: seq<Step>)
    requires Inv(s0) && Legal(s0, steps) && Unopposed(Run(s0, steps), c) && Active(Run(s0, steps).tasks[c])
    ensures Legal(s0, more) && (FreshFiling(s0, steps) ==> FreshFiling(s0, more))
    ensures var s, s' := Run(s0, steps), Run(s0, more);
            && OnlyTask(s, s', c) && s'.tasks[c].confirm == Valid
            && s'.chain == s.chain + [c] && s'.head == Some(c)
            && s'.tasks[c].numid == |s.chain| + 1 && s'.tasks[c].prev == s.head
  {
    hide Legal, Run, FreshFiling, Unopposed, Inv, Next, Enabled;
    more := GetsToLoading(s0, steps, c);
    more := SwapsIn(s0, more, c);
    more := Stores(s0, more, c);
    RunKeepsInv(s0, steps);
    RunKeepsInv(s0, more);
    ChainEnd(Run(s0, steps), Run(s0, more), c);
  }

  /** Once swapped in, a task left alone finishes, counted once, and its commit is persistent if the log is
      kept. */
  lemma LogsAlone(s0: State, steps: seq<Step>, c: CommitId, keep: bool) returns (more: seq<Step>)
    requires Inv(s0) && Legal(s0, steps) && c in Run(s0, steps).tasks
    requires var t := Run(s0, steps).tasks[c]; Swapped(t.pc) && !t.pc.Done?
    ensures Legal(s0, more) && (FreshFiling(s0, steps) ==> FreshFiling(s0, more))
    ensures Run(s0, more) == Logged(Run(s0, steps), c, keep)
  {
    hide Legal, Run, FreshFiling, Inv, Next, Enabled, Logged;
    RunKeepsInv(s0, steps);
    var s := Run(s0, steps);
    SwappedConfirm(s, c);
    if s.tasks[c].pc.Storing? {
      more := Stores(s0, steps, c);
      LoggedStored(s, c, keep);
      more := Logs(s0, more, c, keep);
    } else {
      more := Logs(s0, steps, c, keep);
    }
  }

  function Logged(s: State, c: CommitId, keep: bool): State
    requires c in s.tasks
  {
    s.(tasks := s.tasks[c := s.tasks[c].(pc := Done, confirm := if keep then Persistent else Valid)],
       numCommits := s.numCommits + if IsUncounted(s.tasks[c]) then 1 else 0)
  }

  lemma LoggedStored(s: State, c: CommitId, keep: bool)
    requires c in s.tasks && s.tasks[c].pc.Storing?
    ensures Logged(s.(tasks := s.tasks[c := s.tasks[c].(confirm := Valid, pc := Counting)]), c, keep) == Logged(s, c, keep)
  {
  }

  lemma SwappedConfirm(s: State, c: CommitId)
    requires Inv(s) && c in s.tasks
    ensures ConfirmAt(s.tasks[c])
  {
    assert TaskOk(s.chain, s.items, c, s.tasks[c]);
  }

  lemma Logs(s0: State, steps: seq<Step>, c: CommitId, keep: bool) returns (more: seq<Step>)
    requires Legal(s0, steps) && c in Run(s0, steps).tasks
    requires var t := Run(s0, steps).tasks[c]; (t.pc.Counting? || t.pc.Logging?) && t.confirm == Valid
    ensures Legal(s0, more) && (FreshFiling(s0, steps) ==> FreshFiling(s0, more))
    ensures Run(s0, more) == Logged(Run(s0, steps), c, keep)
  {
    hide Legal, Run, FreshFiling;
    more := steps;
    if Run(s0, more).tasks[c].pc.Counting? {
      more := Extend(s0, more, Count(c));
    }
    more := Extend(s0, more, Log(c, keep));
  }

  lemma ActiveShape(s: State, c: CommitId)
    requires Inv(s) && c in s.tasks && Active(s.tasks[c])
    ensures var t := s.tasks[c];
            if t.pc.Filing? then |t.filed| < |t.creates| else |t.filed| == |t.creates|
  {
    assert TaskOk(s.chain, s.items, c, s.tasks[c]);
  }

  lemma ChainEnd(s: State, s': State, c: CommitId)
    requires Inv(s) && Inv(s') && s'.chain == s.chain + [c]
    ensures c in s'.tasks && s'.head == Some(c)
    ensures s'.tasks[c].numid == |s.chain| + 1 && s'.tasks[c].prev == s.head
  {
    OnChain(s', |s.chain|);
    assert s'.chain[..|s.chain|] == s.chain;
  }

  // ---------------------------------------------------------------- exactly when

  /** x is a confirmed rival that c has yet to read, and cannot miss. */
  ghost predicate Doomed(s: State, c: CommitId, x: CommitId, j: nat) {
    && c in s.tasks && x in s.tasks && x != c
    && var t := s.tasks[c];
       && j < |t.filed| <= |t.creates| && t.filed[j] in s.items && x in s.items[t.filed[j]]
       && Confirmed(s.tasks[x].confirm)
       && match t.pc {
            case Filing => true
            case Loading => true
            case Naming(k) => k <= j
            case Reading(k, rest) => k < j || (k == j && x in rest)
            case Failed => true
            case _ => false
          }
  }

  lemma DoomedStays(s: State, step: Step, c: CommitId, x: CommitId, j: nat)
    requires Inv(s) && Doomed(s, c, x, j) && Enabled(s, step)
    ensures Doomed(Next(s, step), c, x, j)
  {
    hide Inv, TaskOk;
    if step.c == c {
      DoomedMoves(s, step, x, j);
    } else {
      StaysConfirmed(s, step, x);
    }
  }

  lemma StaysConfirmed(s: State, step: Step, x: CommitId)
    requires Inv(s) && Enabled(s, step) && x in s.tasks && Confirmed(s.tasks[x].confirm)
    ensures x in Next(s, step).tasks && Confirmed(Next(s, step).tasks[x].confirm)
  {
    hide ItemsOk, FiledOk, MissedOk, ScannedUpTo, HeadIs;
    assert TaskOk(s.chain, s.items, x, s.tasks[x]);
  }

  lemma DoomedMoves(s: State, step: Step, x: CommitId, j: nat)
    requires Doomed(s, step.c, x, j) && Enabled(s, step)
    ensures Doomed(Next(s, step), step.c, x, j)
  {
    if step.ReadConfirm? {
      var rest := s.tasks[step.c].pc.rest;
      assert x in rest ==> x == rest[0] || x in rest[1..];
    }
  }

  lemma {:induction false} DoomedNeverConfirms(s: State, steps: seq<Step>, c: CommitId, x: CommitId, j: nat)
    requires Inv(s) && Doomed(s, c, x, j) && Legal(s, steps)
    ensures c in Run(s, steps).tasks && !Confirmed(Run(s, steps).tasks[c].confirm)
    decreases |steps|
  {
    hide Inv, Doomed, Next, Enabled;
    if steps == [] {
      DoomedUnconfirmed(s, c, x, j);
    } else {
      DoomedStays(s, steps[0], c, x, j);
      RunKeepsInv(s, steps[..1]);
      assert steps[..1][1..] == [];
      assert Run(s, steps[..1]) == Next(s, steps[0]);
      DoomedNeverConfirms(Next(s, steps[0]), steps[1..], c, x, j);
    }
  }

  lemma DoomedUnconfirmed(s: State, c: CommitId, x: CommitId, j: nat)
    requires Inv(s) && Doomed(s, c, x, j)
    ensures c in s.tasks && !Confirmed(s.tasks[c].confirm)
  {
    assert TaskOk(s.chain, s.items, c, s.tasks[c]);
  }

  /** A commit that is filing or about to load the head can still be confirmed exactly if no other state
      under its items is. */
  lemma ConfirmableExactly(s: State, c: CommitId)
    requires Inv(s) && c in s.tasks && (s.tasks[c].pc.Filing? || s.tasks[c].pc.Loading?)
    ensures Unopposed(s, c)
            <==> exists steps :: Legal(s, steps) && c in Run(s, steps).tasks && Confirmed(Run(s, steps).tasks[c].confirm)
  {
    hide Legal, Run, Inv;
    if Unopposed(s, c) {
      NoStep(s);
      var steps := ConfirmsAlone(s, [], c);
    } else {
      var x, j := Opponent(s, c);
      forall steps | Legal(s, steps)
        ensures !(c in Run(s, steps).tasks && Confirmed(Run(s, steps).tasks[c].confirm))
      {
        DoomedNeverConfirms(s, steps, c, x, j);
      }
    }
  }

  lemma NoStep(s: State)
    ensures Legal(s, []) && Run(s, []) == s && FreshFiling(s, [])
  {
  }

  lemma Opponent(s: State, c: CommitId) returns (x: CommitId, j: nat)
    requires Inv(s) && c in s.tasks && (s.tasks[c].pc.Filing? || s.tasks[c].pc.Loading?) && !Unopposed(s, c)
    ensures Doomed(s, c, x, j)
  {
    hide MissedOk, ScannedUpTo, HeadIs;
    var t := s.tasks[c];
    assert TaskOk(s.chain, s.items, c, t);
    var it :| it in t.filed && !(it in s.items && NoneConfirmed(s, c, s.items[it]));
    j :| 0 <= j < |t.filed| && t.filed[j] == it;
    x :| x in s.items[it] && !(x in s.tasks && (x == c || !Confirmed(s.tasks[x].confirm)));
  }

  lemma {:induction false} LoggedBefore(s: State, steps: seq<Step>, c: CommitId)
    requires Inv(s) && Legal(s, steps) && c in s.tasks
    ensures c in Run(s, steps).tasks
    ensures Run(s, steps).tasks[c].confirm == Persistent
            <==> s.tasks[c].confirm == Persistent || Log(c, true) in steps
    decreases |steps|
  {
    hide Inv;
    if steps != [] {
      OneLog(s, steps[0], c);
      RunKeepsInv(s, steps[..1]);
      assert steps[..1][1..] == [];
      assert Run(s, steps[..1]) == Next(s, steps[0]);
      LoggedBefore(Next(s, steps[0]), steps[1..], c);
      assert Log(c, true) in steps <==> Log(c, true) == steps[0] || Log(c, true) in steps[1..];
    }
  }

  lemma OneLog(s: State, step: Step, c: CommitId)
    requires Inv(s) && Enabled(s, step) && c in s.tasks
    ensures c in Next(s, step).tasks
    ensures Next(s, step).tasks[c].confirm == Persistent
            <==> s.tasks[c].confirm == Persistent || step == Log(c, true)
  {
    hide ItemsOk, FiledOk, MissedOk, ScannedUpTo, HeadIs;
    assert TaskOk(s.chain, s.items, c, s.tasks[c]);
  }

  /** A commit is persistent exactly when its record went to the log that is kept. */
  lemma PersistentExactly(commits: map<CommitId, seq<ClassName>>, steps: seq<Step>, c: CommitId)
    requires Legal(Start(commits), steps) && c in commits
    ensures c in Run(Start(commits), steps).tasks
    ensures Run(Start(commits), steps).tasks[c].confirm == Persistent <==> Log(c, true) in steps
  {
    StartInv(commits);
    LoggedBefore(Start(commits), steps, c);
  }

  // ---------------------------------------------------------------- runs that lose a rival

  ghost predicate NamesApart(commits: map<CommitId, seq<ClassName>>) {
    forall c, d, n :: c in commits && d in commits && c != d && n in commits[c] ==> n !in commits[d]
  }

  /** No step changes what commits create. */
  lemma {:induction false} CreatesKept(s: State, steps: seq<Step>)
    requires Legal(s, steps)
    ensures Run(s, steps).tasks.Keys == s.tasks.Keys
    ensures forall c :: c in s.tasks ==> Run(s, steps).tasks[c].creates == s.tasks[c].creates
    decreases |steps|
  {
    if steps != [] {
      CreatesKept(Next(s, steps[0]), steps[1..]);
    }
  }

  lemma ApartIsUnique(commits: map<CommitId, seq<ClassName>>, steps: seq<Step>)
    requires Legal(Start(commits), steps) && NamesApart(commits)
    ensures UniqueNames(Run(Start(commits), steps))
  {
    hide Run, Legal;
    CreatesKept(Start(commits), steps);
  }

  /** As the dict files states, any commit that has not swapped in yet can be confirmed, whatever it creates
      and whoever confirmed the same names before. */
  lemma FreshConfirms(commits: map<CommitId, seq<ClassName>>, steps: seq<Step>, c: CommitId) returns (more: seq<Step>)
    requires Legal(Start(commits), steps) && FreshFiling(Start(commits), steps)
    requires c in Run(Start(commits), steps).tasks && !Swapped(Run(Start(commits), steps).tasks[c].pc)
    ensures Legal(Start(commits), more) && FreshFiling(Start(commits), more)
    ensures var s, s' := Run(Start(commits), steps), Run(Start(commits), more);
            && c in s'.tasks && s'.tasks == s.tasks[c := s'.tasks[c]]
            && s'.tasks[c].confirm == Valid && s'.tasks[c].creates == s.tasks[c].creates
  {
    hide Legal, Run, FreshFiling, Unopposed, Start, Inv;
    StartInv(commits);
    StartOwn(commits);
    RunKeepsInv(Start(commits), steps);
    FreshRun(Start(commits), steps);
    OwnUnopposed(Run(Start(commits), steps), c);
    more := ConfirmsAlone(Start(commits), steps, c);
  }

  lemma StartOwn(commits: map<CommitId, seq<ClassName>>)
    ensures OwnItems(Start(commits))
  {
  }

  lemma OwnUnopposed(s: State, c: CommitId)
    requires Inv(s) && OwnItems(s) && c in s.tasks
    ensures Unopposed(s, c) && !s.tasks[c].pc.Failed?
  {
    assert TaskOk(s.chain, s.items, c, s.tasks[c]);
    forall it | it in s.tasks[c].filed
      ensures it in s.items && NoneConfirmed(s, c, s.items[it])
    {
      FiledUnder(s, c, it);
    }
  }

  /** The dict's own filing: one after the other, undisturbed, both commits confirm the name. */
  lemma FreshFilingLosesARival(commits: map<CommitId, seq<ClassName>>, c: CommitId, d: CommitId, n: ClassName)
    returns (steps: seq<Step>)
    requires c in commits && d in commits && c != d && n in commits[c] && n in commits[d]
    ensures Legal(Start(commits), steps) && FreshFiling(Start(commits), steps)
    ensures !UniqueNames(Run(Start(commits), steps))
  {
    hide Legal, Run, FreshFiling;
    NoStep(Start(commits));
    steps := FreshConfirms(commits, [], c);
    steps := FreshConfirms(commits, steps, d);
    var s := Run(Start(commits), steps);
    assert n in s.tasks[c].creates && n in s.tasks[d].creates;
    assert SharesName(s, c, d);
  }

  /** As the dict files states, no run confirms a name twice exactly where no two commits create one. */
  lemma FreshUniqueExactly(commits: map<CommitId, seq<ClassName>>)
    ensures (forall steps :: Legal(Start(commits), steps) && FreshFiling(Start(commits), steps)
                             ==> UniqueNames(Run(Start(commits), steps)))
            <==> NamesApart(commits)
  {
    hide Legal, Run, FreshFiling, Start, UniqueNames;
    if NamesApart(commits) {
      forall steps | Legal(Start(commits), steps)
        ensures UniqueNames(Run(Start(commits), steps))
      {
        ApartIsUnique(commits, steps);
      }
    } else {
      var c, d, n :| c in commits && d in commits && c != d && n in commits[c] && n in commits[d];
      var steps := FreshFilingLosesARival(commits, c, d, n);
    }
  }

  /** A task that has not begun can file all its states under items that go by the names. */
  lemma FilesNamed(s0: State, steps: seq<Step>, c: CommitId) returns (more: seq<Step>)
    requires Legal(s0, steps) && c in Run(s0, steps).tasks
    requires Run(s0, steps).tasks[c] == NewTask(Run(s0, steps).tasks[c].creates)
    ensures Legal(s0, more)
    ensures var s, s' := Run(s0, steps), Run(s0, more);
            && var names := s.tasks[c].creates;
            && s'.tasks == s.tasks[c := NewTask(names).(pc := Loading, filed := names)]
            && s'.items.Keys == s.items.Keys + (set n | n in names)
            && forall it, x :: it in s'.items && x in s'.items[it] ==> x == c || (it in s.items && x in s.items[it])
  {
    hide Legal, Run, FreshFiling;
    var s := Run(s0, steps);
    var names := s.tasks[c].creates;
    more := steps;
    var i := 0;
    while i < |names|
      invariant 0 <= i <= |names|
      invariant Legal(s0, more)
      invariant var s' := Run(s0, more);
                && s'.tasks == s.tasks[c := NewTask(names).(pc := if i == |names| then Loading else Filing, filed := names[..i])]
                && s'.items.Keys == s.items.Keys + (set n | n in names[..i])
                && forall it, x :: it in s'.items && x in s'.items[it] ==> x == c || (it in s.items && x in s.items[it])
    {
      assert names[..i + 1] == names[..i] + [names[i]];
      more := Extend(s0, more, File(c, names[i]));
      i := i + 1;
    }
    assert names[..i] == names;
  }

  /** Two states under one item for each name, before either commit has looked at them. */
  lemma BothFile(commits: map<CommitId, seq<ClassName>>, c: CommitId, d: CommitId) returns (steps: seq<Step>)
    requires c in commits && d in commits && c != d
    ensures Legal(Start(commits), steps)
    ensures var s := Run(Start(commits), steps);
            && c in s.tasks && d in s.tasks
            && Unopposed(s, c) && s.tasks[c].pc == Loading && s.tasks[c].confirm == Init
            && Unopposed(s, d) && s.tasks[d].pc == Loading && s.tasks[d].confirm == Init
            && s.tasks[c].creates == s.tasks[c].filed == commits[c]
            && s.tasks[d].creates == s.tasks[d].filed == commits[d]
            && forall e :: e in s.tasks && e != c && e != d ==> s.tasks[e].filed == []
  {
    var s0 := Start(commits);
    assert Legal(s0, []) && Run(s0, []) == s0;
    hide Legal, Run, FreshFiling, Unopposed;
    steps := FilesNamed(s0, [], c);
    steps := FilesNamed(s0, steps, d);
    var s := Run(s0, steps);
    NamedUnopposed(s, c, d);
    NamedUnopposed(s, d, c);
  }

  lemma NamedUnopposed(s: State, c: CommitId, d: CommitId)
    requires c in s.tasks && d in s.tasks && s.tasks[c].confirm == s.tasks[d].confirm == Init
    requires var t := s.tasks[c]; t.pc.Loading? && t.filed == t.creates && forall n :: n in t.filed ==> n in s.items
    requires forall it, x :: it in s.items && x in s.items[it] ==> x == c || x == d
    ensures Unopposed(s, c)
  {
  }

  /** One item for each name, but the second commit reads before the first stores: both confirm. */
  lemma WindowLosesARival(commits: map<CommitId, seq<ClassName>>, c: CommitId, d: CommitId, n: ClassName)
    returns (steps: seq<Step>)
    requires c in commits && d in commits && c != d && n in commits[c] && n in commits[d]
    ensures Legal(Start(commits), steps) && OneItemPerName(Run(Start(commits), steps))
    ensures !UniqueNames(Run(Start(commits), steps))
  {
    hide Legal, Run, FreshFiling, OneItemPerName, Start, Unopposed;
    var s0 := Start(commits);
    steps := BothFile(commits, c, d);
    var s1 := Run(s0, steps);
    steps := SwapsIn(s0, steps, c);
    StaysUnopposed(s1, Run(s0, steps), c, d);
    steps := SwapsIn(s0, steps, d);
    steps := Extend(s0, steps, StoreValid(c));
    steps := Extend(s0, steps, StoreValid(d));
    var s := Run(s0, steps);
    assert n in s.tasks[c].creates && n in s.tasks[d].creates;
    assert SharesName(s, c, d);
    assert forall e :: e in s.tasks && e != c && e != d ==> s.tasks[e] == s1.tasks[e];
    FiledByName(s);
  }

  lemma FiledByName(s: State)
    requires forall c :: c in s.tasks ==> s.tasks[c].filed == [] || s.tasks[c].filed == s.tasks[c].creates
    ensures OneItemPerName(s)
  {
  }

  /** With one item to a name, no run confirms a name twice exactly where no two commits create one. */
  lemma WindowUniqueExactly(commits: map<CommitId, seq<ClassName>>)
    ensures (forall steps :: Legal(Start(commits), steps) && OneItemPerName(Run(Start(commits), steps))
                             ==> UniqueNames(Run(Start(commits), steps)))
            <==> NamesApart(commits)
  {
    hide Legal, Run, Start, UniqueNames, OneItemPerName;
    if NamesApart(commits) {
      forall steps | Legal(Start(commits), steps)
        ensures UniqueNames(Run(Start(commits), steps))
      {
        ApartIsUnique(commits, steps);
      }
    } else {
      var c, d, n :| c in commits && d in commits && c != d && n in commits[c] && n in commits[d];
      var steps := WindowLosesARival(commits, c, d, n);
    }
  }
}
