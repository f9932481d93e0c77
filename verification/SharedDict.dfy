/** Insertion into one bucket of the lock-free dict, one atomic operation a step.  Items are only ever
    pushed at the head, so a bucket is the sequence of its items, oldest first, and a pointer to a
    list is the number of items from there on. */
module SharedDict {
  type TaskId = nat
  type Key = nat

  datatype Phase = Valid | Pending | Removed

  /** `owner` and `orig` are history: the task that pushed the item and the bucket its search saw;
      `found` tells whether that search met an item of the key. */
  datatype Item = Item(key: Key, phase: Phase, owner: TaskId, orig: nat, found: bool)

  /** About to load the head and search, about to read the phase of what the search found, about to
      look at what was pushed meanwhile, about to swap, about to count. */
  datatype Pc = Starting | Searching | Checking | Swapping | Counting | Stored | Refused

  datatype Task = Task(key: Key, commit: bool, pc: Pc, orig: nat, head: nat, found: bool)

  datatype State = State(bucket: seq<Item>, tasks: map<TaskId, Task>, numItems: nat)

  datatype Step =
    | LoadOrig(t: TaskId)
    | ReadPhase(t: TaskId)
    | CheckNew(t: TaskId)
    | Swap(t: TaskId, ok: bool)
    | Count(t: TaskId)
    | SetPhase(i: nat, phase: Phase)

  /** The newest item of a key among the first n of the bucket, or -1. */
  function Newest(bucket: seq<Item>, key: Key, n: nat): (r: int)
    requires n <= |bucket|
    ensures -1 <= r < n
    ensures r >= 0 ==> bucket[r].key == key
    ensures forall i :: r < i < n ==> bucket[i].key != key
  {
    if n == 0 then -1
    else if bucket[n - 1].key == key then n - 1
    else Newest(bucket, key, n - 1)
  }

  predicate Enabled(s: State, step: Step) {
    if step.SetPhase? then
      // an item gets removed, or a pending one becomes valid
      step.i < |s.bucket| && (step.phase.Removed? || (step.phase.Valid? && s.bucket[step.i].phase.Pending?))
    else
      && step.t in s.tasks
      && var t := s.tasks[step.t];
         match step {
           case LoadOrig(_) => t.pc.Starting?
           case ReadPhase(_) => t.pc.Searching? && t.orig <= |s.bucket|
           case CheckNew(_) => t.pc.Checking? && t.orig <= |s.bucket|
           case Swap(_, ok) => t.pc.Swapping? && (ok ==> t.head == |s.bucket|)
           case Count(_) => t.pc.Counting?
         }
  }

  function Set(s: State, id: TaskId, t: Task): State {
    s.(tasks := s.tasks[id := t])
  }

  function Next(s: State, step: Step): State
    requires Enabled(s, step)
  {
    match step
    case LoadOrig(id) =>
      var t := s.tasks[id];
      Set(s, id, t.(orig := |s.bucket|, pc := Searching))
    case ReadPhase(id) =>
      var t := s.tasks[id];
      var i := Newest(s.bucket, t.key, t.orig);
      if i >= 0 && s.bucket[i].phase.Valid? then Set(s, id, t.(pc := Refused))
      else Set(s, id, t.(pc := Checking, found := i >= 0))
    case CheckNew(id) =>
      var t := s.tasks[id];
      if Newest(s.bucket, t.key, |s.bucket|) >= t.orig then Set(s, id, t.(pc := Refused))
      else Set(s, id, t.(pc := Swapping, head := |s.bucket|))
    case Swap(id, ok) =>
      var t := s.tasks[id];
      if ok then
        var item := Item(t.key, if t.commit then Pending else Valid, id, t.orig, t.found);
        Set(s, id, t.(pc := Counting)).(bucket := s.bucket + [item])
      else Set(s, id, t.(pc := Checking))
    case Count(id) =>
      var t := s.tasks[id];
      Set(s, id, t.(pc := Stored)).(numItems := s.numItems + 1)
    case SetPhase(i, phase) =>
      s.(bucket := s.bucket[i := s.bucket[i].(phase := phase)])
  }

  predicate Legal(s: State, steps: seq<Step>)
    decreases |steps|
  {
    steps == [] || (Enabled(s, steps[0]) && Legal(Next(s, steps[0]), steps[1..]))
  }

  function Run(s: State, steps: seq<Step>): State
    requires Legal(s, steps)
    decreases |steps|
  {
    if steps == [] then s else Run(Next(s, steps[0]), steps[1..])
  }

  /** An empty bucket and tasks that have yet to start; each inserts one key. */
  ghost predicate Fresh(s: State) {
    && s.bucket == [] && s.numItems == 0
    && forall id :: id in s.tasks ==> s.tasks[id].pc.Starting? && !s.tasks[id].found
  }

  /** What the search saw and what was pushed since hold no other item of the key, unless the search
      found one. */
  ghost predicate ItemOk(bucket: seq<Item>, p: nat)
    requires p < |bucket|
  {
    && bucket[p].orig <= p
    && (forall q :: bucket[p].orig <= q < p ==> bucket[q].key != bucket[p].key)
    && (bucket[p].found <==> exists q :: 0 <= q < bucket[p].orig && bucket[q].key == bucket[p].key)
  }

  ghost predicate TaskOk(bucket: seq<Item>, t: Task) {
    && (!t.pc.Starting? ==> t.orig <= |bucket|)
    && (t.pc.Checking? || t.pc.Swapping? ==>
          (t.found <==> exists q :: 0 <= q < t.orig && bucket[q].key == t.key))
    && (t.pc.Swapping? ==> t.head <= |bucket| && forall q :: t.orig <= q < t.head ==> bucket[q].key != t.key)
    && (t.pc.Refused? ==> exists q :: 0 <= q < |bucket| && bucket[q].key == t.key)
  }

  ghost function Uncounted(tasks: map<TaskId, Task>): set<TaskId> {
    set id | id in tasks && tasks[id].pc.Counting?
  }

  lemma UncountedChange(tasks: map<TaskId, Task>, id: TaskId, t: Task)
    requires id in tasks
    ensures |Uncounted(tasks[id := t])|
            == |Uncounted(tasks)| - (if tasks[id].pc.Counting? then 1 else 0) + if t.pc.Counting? then 1 else 0
  {
    var u, u' := Uncounted(tasks), Uncounted(tasks[id := t]);
    var rest := u - {id};
    assert u == if tasks[id].pc.Counting? then rest + {id} else rest;
    assert u' == if t.pc.Counting? then rest + {id} else rest;
  }

  ghost predicate Inv(s: State) {
    && (forall p :: 0 <= p < |s.bucket| ==> ItemOk(s.bucket, p))
    && (forall id :: id in s.tasks ==> TaskOk(s.bucket, s.tasks[id]))
    && s.numItems + |Uncounted(s.tasks)| == |s.bucket|
  }

  /** Nothing the invariant says of items and tasks depends on phases, or on what comes later. */
  ghost predicate Grown(bucket: seq<Item>, more: seq<Item>) {
    && |bucket| <= |more|
    && forall q :: 0 <= q < |bucket| ==> more[q] == bucket[q].(phase := more[q].phase)
  }

  lemma GrownKeeps(bucket: seq<Item>, more: seq<Item>)
    requires Grown(bucket, more)
    ensures forall p :: 0 <= p < |bucket| && ItemOk(bucket, p) ==> ItemOk(more, p)
    ensures forall t :: TaskOk(bucket, t) ==> TaskOk(more, t)
  {
    assert forall q :: 0 <= q < |bucket| ==> more[q].key == bucket[q].key;
  }

  lemma StepGrows(s: State, step: Step)
    requires Enabled(s, step)
    ensures Grown(s.bucket, Next(s, step).bucket)
  {
  }

  lemma StepTask(s: State, step: Step)
    requires Inv(s) && Enabled(s, step)
    ensures var s' := Next(s, step);
            && forall id :: id in s'.tasks ==> TaskOk(s'.bucket, s'.tasks[id])
  {
    hide ItemOk, Uncounted, Newest;
    var s' := Next(s, step);
    StepGrows(s, step);
    GrownKeeps(s.bucket, s'.bucket);
    if !step.SetPhase? {
      assert TaskOk(s.bucket, s.tasks[step.t]);
      assert TaskOk(s'.bucket, s'.tasks[step.t]);
    }
  }

  lemma StepItems(s: State, step: Step)
    requires Inv(s) && Enabled(s, step)
    ensures var s' := Next(s, step);
            && forall p :: 0 <= p < |s'.bucket| ==> ItemOk(s'.bucket, p)
  {
    var s' := Next(s, step);
    StepGrows(s, step);
    GrownKeeps(s.bucket, s'.bucket);
    if step.Swap? && step.ok {
      assert TaskOk(s.bucket, s.tasks[step.t]);
      assert ItemOk(s'.bucket, |s.bucket|);
    }
  }

  lemma StepCount(s: State, step: Step)
    requires Inv(s) && Enabled(s, step)
    ensures Next(s, step).numItems + |Uncounted(Next(s, step).tasks)| == |Next(s, step).bucket|
  {
    hide TaskOk, ItemOk, Uncounted;
    if !step.SetPhase? {
      UncountedChange(s.tasks, step.t, Next(s, step).tasks[step.t]);
    }
  }

  lemma {:induction false} RunKeepsInv(s: State, steps: seq<Step>)
    requires Inv(s) && Legal(s, steps)
    ensures Inv(Run(s, steps))
    decreases |steps|
  {
    hide TaskOk, ItemOk;
    if steps != [] {
      StepTask(s, steps[0]);
      StepItems(s, steps[0]);
      StepCount(s, steps[0]);
      RunKeepsInv(Next(s, steps[0]), steps[1..]);
    }
  }

  lemma FreshInv(s: State)
    requires Fresh(s)
    ensures Inv(s)
  {
    assert Uncounted(s.tasks) == {};
  }

  // ---------------------------------------------------------------- what a run guarantees

  /** Of two insertions of one key, the later one loaded the head after the earlier one had pushed:
      where they overlap, one is refused.  And an earlier item of the key exists just when the search
      found one. */
  lemma OverlapsRefused(s: State, steps: seq<Step>)
    requires Fresh(s) && Legal(s, steps)
    ensures var b := Run(s, steps).bucket;
            && (forall p, q :: 0 <= p < q < |b| && b[p].key == b[q].key ==> p < b[q].orig)
            && (forall q :: 0 <= q < |b| ==>
                  (b[q].found <==> exists p :: 0 <= p < q && b[p].key == b[q].key))
  {
    FreshInv(s);
    RunKeepsInv(s, steps);
    var b := Run(s, steps).bucket;
    forall q | 0 <= q < |b|
      ensures forall p :: 0 <= p < q && b[p].key == b[q].key ==> p < b[q].orig
      ensures b[q].found <==> exists p :: 0 <= p < q && b[p].key == b[q].key
    {
      assert ItemOk(b, q);
    }
  }

  /** Only a key already there is refused, and the counter lags the bucket by the tasks between swap
      and count. */
  lemma RefusedIsPresent(s: State, steps: seq<Step>)
    requires Fresh(s) && Legal(s, steps)
    ensures var s' := Run(s, steps);
            && (forall id :: id in s'.tasks && s'.tasks[id].pc.Refused? ==>
                  exists q :: 0 <= q < |s'.bucket| && s'.bucket[q].key == s'.tasks[id].key)
            && s'.numItems + |Uncounted(s'.tasks)| == |s'.bucket|
  {
    FreshInv(s);
    RunKeepsInv(s, steps);
    var s' := Run(s, steps);
    forall id | id in s'.tasks && s'.tasks[id].pc.Refused?
      ensures exists q :: 0 <= q < |s'.bucket| && s'.bucket[q].key == s'.tasks[id].key
    {
      assert TaskOk(s'.bucket, s'.tasks[id]);
    }
  }

  // ---------------------------------------------------------------- when keys are unique

  /** A key that a commit inserts is inserted by no other task. */
  ghost predicate CommitsApart(s: State) {
    forall a, b :: a in s.tasks && b in s.tasks && a != b && s.tasks[a].commit ==> s.tasks[a].key != s.tasks[b].key
  }

  /** Of two items of one key, the older one has been removed. */
  ghost predicate LiveUnique(bucket: seq<Item>) {
    forall p, q :: 0 <= p < q < |bucket| && bucket[p].key == bucket[q].key ==> bucket[p].phase.Removed?
  }

  /** An item is of the key of the task that pushed it, which is past its swap; only commits push
      pending items. */
  ghost predicate OwnersOk(s: State) {
    forall p :: 0 <= p < |s.bucket| ==>
      && s.bucket[p].owner in s.tasks
      && var t := s.tasks[s.bucket[p].owner];
         && t.key == s.bucket[p].key && (t.pc.Counting? || t.pc.Stored?)
         && (s.bucket[p].phase.Pending? ==> t.commit)
  }

  /** What the search of t saw of its key has been removed. */
  ghost predicate SawRemoved(bucket: seq<Item>, t: Task) {
    t.pc.Checking? || t.pc.Swapping? ==>
      forall p :: 0 <= p < |bucket| && p < t.orig && bucket[p].key == t.key ==> bucket[p].phase.Removed?
  }

  ghost predicate LiveInv(s: State) {
    && OwnersOk(s) && LiveUnique(s.bucket)
    && forall id :: id in s.tasks ==> SawRemoved(s.bucket, s.tasks[id])
  }

  /** Nothing past its swap, no other task of the key: what a search finds of a commit's key is not
      pending. */
  lemma FoundRemoved(s: State, id: TaskId, i: nat)
    requires CommitsApart(s) && OwnersOk(s) && id in s.tasks && s.tasks[id].pc.Searching?
    requires i < |s.bucket| && s.bucket[i].key == s.tasks[id].key && !s.bucket[i].phase.Valid?
    ensures s.bucket[i].phase.Removed?
  {
  }

  lemma StepOwners(s: State, step: Step)
    requires OwnersOk(s) && Enabled(s, step)
    ensures OwnersOk(Next(s, step))
  {
    hide Newest;
  }

  lemma StepLive(s: State, step: Step)
    requires Inv(s) && LiveInv(s) && Enabled(s, step)
    ensures LiveUnique(Next(s, step).bucket)
  {
    hide Newest, ItemOk, OwnersOk, Uncounted;
    if step.Swap? && step.ok {
      assert TaskOk(s.bucket, s.tasks[step.t]) && SawRemoved(s.bucket, s.tasks[step.t]);
    }
  }

  lemma StepSaw(s: State, step: Step)
    requires Inv(s) && LiveInv(s) && CommitsApart(s) && Enabled(s, step)
    ensures var s' := Next(s, step);
            && CommitsApart(s') && forall id :: id in s'.tasks ==> SawRemoved(s'.bucket, s'.tasks[id])
  {
    hide ItemOk, OwnersOk, Uncounted, Newest;
    if step.ReadPhase? {
      var t := s.tasks[step.t];
      var i := Newest(s.bucket, t.key, t.orig);
      if i >= 0 && !s.bucket[i].phase.Valid? {
        FoundRemoved(s, step.t, i);
      }
    }
    if !step.SetPhase? {
      assert TaskOk(s.bucket, s.tasks[step.t]) && SawRemoved(s.bucket, s.tasks[step.t]);
    }
    forall id | id in s.tasks && (step.SetPhase? || id != step.t)
      ensures SawRemoved(Next(s, step).bucket, s.tasks[id])
    {
      assert TaskOk(s.bucket, s.tasks[id]) && SawRemoved(s.bucket, s.tasks[id]);
    }
  }

  lemma {:induction false} RunKeepsLive(s: State, steps: seq<Step>)
    requires Inv(s) && LiveInv(s) && CommitsApart(s) && Legal(s, steps)
    ensures LiveUnique(Run(s, steps).bucket)
    decreases |steps|
  {
    hide Inv, OwnersOk, LiveUnique, SawRemoved, CommitsApart, Next, Enabled;
    if steps != [] {
      StepOwners(s, steps[0]);
      StepLive(s, steps[0]);
      StepSaw(s, steps[0]);
      RunKeepsInv(s, steps[..1]);
      assert steps[..1][1..] == [];
      assert Run(s, steps[..1]) == Next(s, steps[0]);
      RunKeepsLive(Next(s, steps[0]), steps[1..]);
    }
  }

  lemma {:induction false} Extend(s: State, steps: seq<Step>, step: Step)
    requires Legal(s, steps) && Enabled(Run(s, steps), step)
    ensures Legal(s, steps + [step]) && Run(s, steps + [step]) == Next(Run(s, steps), step)
    decreases |steps|
  {
    hide Next, Enabled;
    if steps != [] {
      Extend(Next(s, steps[0]), steps[1..], step);
      assert (steps + [step])[1..] == steps[1..] + [step];
    }
  }

  ghost predicate NoPhaseSet(steps: seq<Step>) {
    forall i :: 0 <= i < |steps| ==> !steps[i].SetPhase?
  }

  /** Where the bucket holds no valid item of its key, a task that has the bucket to itself inserts. */
  lemma Inserts(s0: State, steps: seq<Step>, id: TaskId) returns (more: seq<Step>)
    requires Legal(s0, steps) && NoPhaseSet(steps)
    requires var s := Run(s0, steps);
             && id in s.tasks && s.tasks[id].pc.Starting?
             && forall p :: 0 <= p < |s.bucket| && s.bucket[p].key == s.tasks[id].key ==> !s.bucket[p].phase.Valid?
    ensures Legal(s0, more) && NoPhaseSet(more)
    ensures var s, s' := Run(s0, steps), Run(s0, more);
            && id in s'.tasks && s'.tasks == s.tasks[id := s'.tasks[id]]
            && |s'.bucket| == |s.bucket| + 1 && s'.bucket[..|s.bucket|] == s.bucket
            && s'.bucket[|s.bucket|].key == s.tasks[id].key
            && s'.bucket[|s.bucket|].phase == if s.tasks[id].commit then Pending else Valid
  {
    hide Legal, Run;
    more := Checks(s0, steps, id);
    Extend(s0, more, Swap(id, true));
    more := more + [Swap(id, true)];
    Extend(s0, more, Count(id));
    more := more + [Count(id)];
  }

  lemma Checks(s0: State, steps: seq<Step>, id: TaskId) returns (more: seq<Step>)
    requires Legal(s0, steps) && NoPhaseSet(steps)
    requires var s := Run(s0, steps);
             && id in s.tasks && s.tasks[id].pc.Starting?
             && forall p :: 0 <= p < |s.bucket| && s.bucket[p].key == s.tasks[id].key ==> !s.bucket[p].phase.Valid?
    ensures Legal(s0, more) && NoPhaseSet(more)
    ensures var s, s' := Run(s0, steps), Run(s0, more);
            && s'.bucket == s.bucket && id in s'.tasks && s'.tasks == s.tasks[id := s'.tasks[id]]
            && s'.tasks[id].pc.Swapping? && s'.tasks[id].head == |s.bucket|
            && s'.tasks[id].key == s.tasks[id].key && s'.tasks[id].commit == s.tasks[id].commit
  {
    hide Legal, Run, Newest;
    Extend(s0, steps, LoadOrig(id));
    more := steps + [LoadOrig(id)];
    Extend(s0, more, ReadPhase(id));
    more := more + [ReadPhase(id)];
    Extend(s0, more, CheckNew(id));
    more := more + [CheckNew(id)];
  }

  /** A commit's item is pending and stops no later insertion of its key, by a commit or not. */
  lemma PendingStopsNobody(s: State, a: TaskId, b: TaskId) returns (steps: seq<Step>)
    requires Fresh(s) && a in s.tasks && b in s.tasks && a != b
    requires s.tasks[a].commit && s.tasks[a].key == s.tasks[b].key
    ensures Legal(s, steps) && NoPhaseSet(steps)
    ensures var bucket := Run(s, steps).bucket;
            |bucket| == 2 && bucket[0].key == bucket[1].key && !bucket[0].phase.Removed?
  {
    assert Legal(s, []) && Run(s, []) == s;
    hide Legal, Run;
    steps := Inserts(s, [], a);
    assert Run(s, steps).bucket[..0] == [];
    steps := Inserts(s, steps, b);
  }

  /** Items may be removed and set valid at any time: a key has at most one item that is not removed,
      in every run, exactly where no commit shares its key with another task. */
  lemma LiveUniqueExactly(s: State)
    requires Fresh(s)
    ensures (forall steps :: Legal(s, steps) ==> LiveUnique(Run(s, steps).bucket)) <==> CommitsApart(s)
  {
    hide Legal, Run, Inv;
    if CommitsApart(s) {
      FreshInv(s);
      forall steps | Legal(s, steps)
        ensures LiveUnique(Run(s, steps).bucket)
      {
        RunKeepsLive(s, steps);
      }
    } else {
      var a, b :| a in s.tasks && b in s.tasks && a != b && s.tasks[a].commit && s.tasks[a].key == s.tasks[b].key;
      var steps := PendingStopsNobody(s, a, b);
    }
  }

  ghost predicate KeysUnique(bucket: seq<Item>) {
    forall p, q :: 0 <= p < q < |bucket| ==> bucket[p].key != bucket[q].key
  }

  lemma {:induction false} NothingRemoved(s: State, steps: seq<Step>)
    requires Legal(s, steps) && NoPhaseSet(steps) && forall p :: 0 <= p < |s.bucket| ==> !s.bucket[p].phase.Removed?
    ensures forall p :: 0 <= p < |Run(s, steps).bucket| ==> !Run(s, steps).bucket[p].phase.Removed?
    decreases |steps|
  {
    if steps != [] {
      NothingRemoved(Next(s, steps[0]), steps[1..]);
    }
  }

  /** As long as no phase is set, no key is in the bucket twice, in every run, exactly where no commit
      shares its key with another task. */
  lemma KeysUniqueExactly(s: State)
    requires Fresh(s)
    ensures (forall steps :: Legal(s, steps) && NoPhaseSet(steps) ==> KeysUnique(Run(s, steps).bucket))
            <==> CommitsApart(s)
  {
    hide Legal, Run, Inv, NoPhaseSet;
    if CommitsApart(s) {
      LiveUniqueExactly(s);
      forall steps | Legal(s, steps) && NoPhaseSet(steps)
        ensures KeysUnique(Run(s, steps).bucket)
      {
        NothingRemoved(s, steps);
      }
    } else {
      var a, b :| a in s.tasks && b in s.tasks && a != b && s.tasks[a].commit && s.tasks[a].key == s.tasks[b].key;
      var steps := PendingStopsNobody(s, a, b);
    }
  }

  // ---------------------------------------------------------------- a task left alone

  predicate ValidAt(bucket: seq<Item>, i: int) {
    0 <= i < |bucket| && bucket[i].phase.Valid?
  }

  /** Whether a task left alone stores its key: the newest item its search sees is not valid, and no item
      of the key came since. */
  ghost predicate WillStore(s: State, t: Task)
    requires t.orig <= |s.bucket| || t.pc.Starting?
  {
    match t.pc
    case Starting => !ValidAt(s.bucket, Newest(s.bucket, t.key, |s.bucket|))
    case Searching =>
      !ValidAt(s.bucket, Newest(s.bucket, t.key, t.orig)) && Newest(s.bucket, t.key, |s.bucket|) < t.orig
    case Checking => Newest(s.bucket, t.key, |s.bucket|) < t.orig
    case Swapping => Newest(s.bucket, t.key, |s.bucket|) < t.orig
    case Counting => true
    case Stored => true
    case Refused => false
  }

  /** Only task id moved: it stored its key, in an item of its own if it had not pushed one, or it was
      refused and changed nothing. */
  ghost predicate Finished(s: State, s': State, id: TaskId, stored: bool) {
    && id in s.tasks && id in s'.tasks && s'.tasks == s.tasks[id := s'.tasks[id]]
    && s'.tasks[id].pc == (if stored then Stored else Refused)
    && var t := s.tasks[id];
       if !stored then s'.bucket == s.bucket && s'.numItems == s.numItems
       else
         && s'.numItems == s.numItems + 1
         && if t.pc.Counting? then s'.bucket == s.bucket
            else
              && |s'.bucket| == |s.bucket| + 1 && s'.bucket[..|s.bucket|] == s.bucket
              && var item := s'.bucket[|s.bucket|];
                 item.key == t.key && item.owner == id && item.phase == if t.commit then Pending else Valid
  }

  /** From any state of any run, a task that is not done gets done by itself, and this is how. */
  lemma FinishesAlone(s0: State, steps: seq<Step>, id: TaskId) returns (more: seq<Step>)
    requires Inv(s0) && Legal(s0, steps) && id in Run(s0, steps).tasks
    requires !Run(s0, steps).tasks[id].pc.Stored? && !Run(s0, steps).tasks[id].pc.Refused?
    ensures Legal(s0, more)
    ensures var s := Run(s0, steps);
            && (s.tasks[id].orig <= |s.bucket| || s.tasks[id].pc.Starting?)
            && Finished(s, Run(s0, more), id, WillStore(s, s.tasks[id]))
    decreases match Run(s0, steps).tasks[id].pc {
                case Starting => 6 case Searching => 5
                case Swapping => if Run(s0, steps).tasks[id].head == |Run(s0, steps).bucket| then 2 else 4
                case Checking => 3 case _ => 1
              }
  {
    hide Legal, Run, Inv, Newest;
    RunKeepsInv(s0, steps);
    var s := Run(s0, steps);
    TaskThere(s, id);
    var t := s.tasks[id];
    var step := match t.pc {
      case Starting => LoadOrig(id)
      case Searching => ReadPhase(id)
      case Checking => CheckNew(id)
      case Swapping => Swap(id, t.head == |s.bucket|)
      case _ => Count(id)
    };
    Extend(s0, steps, step);
    more := steps + [step];
    if !Run(s0, more).tasks[id].pc.Stored? && !Run(s0, more).tasks[id].pc.Refused? {
      more := FinishesAlone(s0, more, id);
    }
  }

  lemma TaskThere(s: State, id: TaskId)
    requires Inv(s) && id in s.tasks
    ensures var t := s.tasks[id];
            && (!t.pc.Starting? ==> t.orig <= |s.bucket|)
            && (t.pc.Swapping? ==> t.head <= |s.bucket| && (t.head == |s.bucket| ==> Newest(s.bucket, t.key, |s.bucket|) < t.orig))
  {
    assert TaskOk(s.bucket, s.tasks[id]);
  }
}
