/** The shared page list: tasks pop pages off a linked list threaded through the pages themselves, one
    atomic operation a step.  Pages are numbered in address order; `next` is the first word of each. */
module SharedPool {
  import opened Options

  type TaskId = nat
  type Page = nat

  /** Idle, about to read the link of the head it loaded, about to swap, about to count. */
  datatype Pc = Idle | Reading(page: Page) | Swapping(page: Page, link: Option<Page>) | Counting(page: Page)

  datatype Task = Task(pc: Pc, held: set<Page>)

  datatype State = State(next: seq<Option<Page>>, head: Option<Page>, used: nat, tasks: map<TaskId, Task>)

  datatype Step =
    | LoadHead(t: TaskId)
    | ReadLink(t: TaskId)
    | Swap(t: TaskId, ok: bool)
    | Count(t: TaskId)
    | Overwrite(t: TaskId, page: Page, word: Option<Page>)

  /** The page after p in a list of n pages threaded in address order. */
  function Successor(n: nat, p: Page): Option<Page> {
    if p + 1 < n then Some(p + 1) else None
  }

  function Start(n: nat, ids: set<TaskId>): State {
    State(seq(n, i requires 0 <= i < n => Successor(n, i)), if n == 0 then None else Some(0), 0,
          map t | t in ids :: Task(Idle, {}))
  }

  /** A holder may write anything into its page; handing the page to the pool's free does no more. */
  predicate Enabled(s: State, step: Step) {
    && step.t in s.tasks
    && var t := s.tasks[step.t];
       match step {
         case LoadHead(_) => t.pc.Idle?
         case ReadLink(_) => t.pc.Reading? && t.pc.page < |s.next|
         case Swap(_, ok) => t.pc.Swapping? && (ok ==> s.head == Some(t.pc.page))
         case Count(_) => t.pc.Counting?
         case Overwrite(_, page, _) => page in t.held && page < |s.next|
       }
  }

  function Set(s: State, id: TaskId, t: Task): State {
    s.(tasks := s.tasks[id := t])
  }

  /** Loading an absent head refuses the request and leaves the task idle. */
  function Next(s: State, step: Step): State
    requires Enabled(s, step)
  {
    var t := s.tasks[step.t];
    match step
    case LoadHead(id) =>
      if s.head.None? then s else Set(s, id, t.(pc := Reading(s.head.value)))
    case ReadLink(id) =>
      Set(s, id, t.(pc := Swapping(t.pc.page, s.next[t.pc.page])))
    case Swap(id, ok) =>
      if ok then Set(s, id, t.(pc := Counting(t.pc.page))).(head := t.pc.link)
      else Set(s, id, t.(pc := Idle))
    case Count(id) =>
      Set(s, id, t.(pc := Idle, held := t.held + {t.pc.page})).(used := s.used + 1)
    case Overwrite(_, page, word) =>
      s.(next := s.next[page := word])
  }

  predicate Legal(s: State, steps: seq<Step>)
    decreases |steps|
  {
    steps == [] || (Enabled(s, steps[0]) && Legal(Next(s, steps[0]), steps[1..]))
  }

  function Run(s: State, steps: seq<Step>): State
    requires Legal(s, steps)
    decreases |steps|
  {
    if steps == [] then s else Run(Next(s, steps[0]), steps[1..])
  }

  /** The page a task has popped but not yet been handed, and those it holds. */
  function Owned(t: Task): set<Page> {
    t.held + if t.pc.Counting? then {t.pc.page} else {}
  }

  /** The first page still listed. */
  function Front(s: State): nat {
    if s.head.Some? then s.head.value else |s.next|
  }

  ghost predicate TaskOk(n: nat, front: nat, t: Task) {
    && (forall p :: p in t.held ==> p < front)
    && (t.pc.Counting? ==> t.pc.page < front && t.pc.page !in t.held)
    && (t.pc.Reading? ==> t.pc.page < n)
    && (t.pc.Swapping? ==> t.pc.page < n && (t.pc.page >= front ==> t.pc.link == Successor(n, t.pc.page)))
  }

  lemma OwnedOffList(n: nat, front: nat, t: Task)
    requires TaskOk(n, front, t)
    ensures forall p :: p in Owned(t) ==> p < front
  {
  }

  ghost function Uncounted(tasks: map<TaskId, Task>): set<TaskId> {
    set id | id in tasks && tasks[id].pc.Counting?
  }

  lemma UncountedChange(tasks: map<TaskId, Task>, id: TaskId, t: Task)
    requires id in tasks
    ensures |Uncounted(tasks[id := t])|
            == |Uncounted(tasks)| - (if tasks[id].pc.Counting? then 1 else 0) + if t.pc.Counting? then 1 else 0
  {
    var u, u' := Uncounted(tasks), Uncounted(tasks[id := t]);
    var rest := u - {id};
    assert u == if tasks[id].pc.Counting? then rest + {id} else rest;
    assert u' == if t.pc.Counting? then rest + {id} else rest;
  }

  ghost predicate IsOut(tasks: map<TaskId, Task>, p: Page) {
    exists id :: id in tasks && p in Owned(tasks[id])
  }

  ghost predicate ListOk(next: seq<Option<Page>>, head: Option<Page>, front: nat) {
    && front <= |next|
    && head == (if front < |next| then Some(front) else None)
    && forall p :: front <= p < |next| ==> next[p] == Successor(|next|, p)
  }

  ghost predicate TasksOk(s: State) {
    forall id :: id in s.tasks ==> TaskOk(|s.next|, Front(s), s.tasks[id])
  }

  ghost predicate OwnersOk(s: State) {
    && (forall p: Page :: p < Front(s) ==> IsOut(s.tasks, p))
    && (forall a, b :: a in s.tasks && b in s.tasks && a != b ==> Owned(s.tasks[a]) !! Owned(s.tasks[b]))
  }

  ghost predicate Inv(s: State) {
    && ListOk(s.next, s.head, Front(s))
    && TasksOk(s)
    && OwnersOk(s)
    && s.used + |Uncounted(s.tasks)| == Front(s)
  }

  lemma StartInv(n: nat, ids: set<TaskId>)
    ensures Inv(Start(n, ids))
  {
    assert Uncounted(Start(n, ids).tasks) == {};
  }

  /** A successful swap installs the successor of the head in the initial list; nothing else moves the
      front. */
  lemma StepKeepsList(s: State, step: Step)
    requires Inv(s) && Enabled(s, step)
    ensures var s' := Next(s, step);
            && |s'.next| == |s.next| && ListOk(s'.next, s'.head, Front(s'))
            && Front(s') == Front(s) + if step.Swap? && step.ok then 1 else 0
  {
    hide OwnersOk, Uncounted;
    assert TaskOk(|s.next|, Front(s), s.tasks[step.t]);
    if step.Overwrite? {
      assert step.page in s.tasks[step.t].held;
    }
  }

  lemma StepKeepsTasks(s: State, step: Step)
    requires Inv(s) && Enabled(s, step)
    ensures TasksOk(Next(s, step))
  {
    hide OwnersOk, Front, Uncounted;
    StepKeepsList(s, step);
    StepKeepsTask(s, step);
  }

  lemma LinkRead(s: State, id: TaskId)
    requires Inv(s) && Enabled(s, ReadLink(id))
    ensures var p := s.tasks[id].pc.page; p >= Front(s) ==> s.next[p] == Successor(|s.next|, p)
  {
    hide OwnersOk, Uncounted, TasksOk, Front;
  }

  lemma StepKeepsTask(s: State, step: Step)
    requires Inv(s) && Enabled(s, step)
    ensures TaskOk(|s.next|, Front(Next(s, step)), Next(s, step).tasks[step.t])
  {
    hide OwnersOk, Uncounted;
    StepKeepsList(s, step);
    assert TaskOk(|s.next|, Front(s), s.tasks[step.t]);
    if step.ReadLink? {
      LinkRead(s, step.t);
    }
  }

  /** A step changes what its own task owns at most by the page popped. */
  lemma StepOwns(s: State, step: Step)
    requires Inv(s) && Enabled(s, step)
    ensures var s' := Next(s, step);
            && step.t in s.tasks && s'.tasks.Keys == s.tasks.Keys
            && (forall id :: id in s.tasks && id != step.t ==> s'.tasks[id] == s.tasks[id])
            && Owned(s'.tasks[step.t]) == Owned(s.tasks[step.t]) + if step.Swap? && step.ok then {Front(s)} else {}
  {
    hide OwnersOk, Uncounted;
    assert TaskOk(|s.next|, Front(s), s.tasks[step.t]);
  }

  lemma StepKeepsOwners(s: State, step: Step)
    requires Inv(s) && Enabled(s, step)
    ensures OwnersOk(Next(s, step))
  {
    hide Front, Uncounted, Owned, ListOk, Next, Enabled;
    var s', c := Next(s, step), step.t;
    StepKeepsList(s, step);
    StepOwns(s, step);
    forall p: Page | p < Front(s')
      ensures IsOut(s'.tasks, p)
    {
      if p < Front(s) {
        assert IsOut(s.tasks, p);
        var id :| id in s.tasks && p in Owned(s.tasks[id]);
        assert p in Owned(s'.tasks[id]);
      } else {
        assert p in Owned(s'.tasks[c]);
      }
    }
    forall id | id in s.tasks
      ensures Front(s) !in Owned(s.tasks[id])
    {
      OwnedOffList(|s.next|, Front(s), s.tasks[id]);
    }
  }

  lemma StepKeepsCount(s: State, step: Step)
    requires Inv(s) && Enabled(s, step)
    ensures Next(s, step).used + |Uncounted(Next(s, step).tasks)| == Front(Next(s, step))
  {
    hide TaskOk, OwnersOk, Front, Uncounted, ListOk;
    StepKeepsList(s, step);
    UncountedChange(s.tasks, step.t, Next(s, step).tasks[step.t]);
    assert s.tasks[step.t := s.tasks[step.t]] == s.tasks;
  }

  lemma {:induction false} RunKeepsInv(s: State, steps: seq<Step>)
    requires Inv(s) && Legal(s, steps)
    ensures Inv(Run(s, steps)) && |Run(s, steps).next| == |s.next|
    decreases |steps|
  {
    hide TasksOk, OwnersOk, Front, Uncounted, Next, Enabled;
    if steps != [] {
      StepKeepsList(s, steps[0]);
      StepKeepsTasks(s, steps[0]);
      StepKeepsOwners(s, steps[0]);
      StepKeepsCount(s, steps[0]);
      RunKeepsInv(Next(s, steps[0]), steps[1..]);
    }
  }

  /** The pages found by following the links from `head`. */
  ghost predicate Lists(next: seq<Option<Page>>, head: Option<Page>, pages: seq<Page>)
    decreases |pages|
  {
    if pages == [] then head == None
    else head == Some(pages[0]) && pages[0] < |next| && Lists(next, next[pages[0]], pages[1..])
  }

  lemma {:induction false} ListsSuffix(next: seq<Option<Page>>, front: nat)
    requires front <= |next|
    requires forall p :: front <= p < |next| ==> next[p] == Successor(|next|, p)
    ensures Lists(next, if front < |next| then Some(front) else None, seq(|next| - front, i => front + i))
    decreases |next| - front
  {
    if front < |next| {
      ListsSuffix(next, front + 1);
      var pages := seq(|next| - front, i => front + i);
      assert pages[1..] == seq(|next| - (front + 1), i => front + 1 + i);
    }
  }

  /** In every interleaving the list is a suffix of the initial one; a page off the list belongs to
      exactly one task, a page on it to none; and the counter lags the pages popped by the tasks
      between swap and count. */
  lemma PoolHolds(n: nat, ids: set<TaskId>, steps: seq<Step>)
    requires Legal(Start(n, ids), steps)
    ensures var s := Run(Start(n, ids), steps);
            && |s.next| == n && Front(s) <= n
            && Lists(s.next, s.head, seq(n - Front(s), i => Front(s) + i))
            && (forall p: Page :: p < Front(s) ==> IsOut(s.tasks, p))
            && (forall id, p :: id in s.tasks && p in Owned(s.tasks[id]) ==> p < Front(s))
            && (forall a, b :: a in s.tasks && b in s.tasks && a != b ==> Owned(s.tasks[a]) !! Owned(s.tasks[b]))
            && s.used + |Uncounted(s.tasks)| == Front(s)
  {
    hide Owned, Uncounted;
    StartInv(n, ids);
    RunKeepsInv(Start(n, ids), steps);
    var s := Run(Start(n, ids), steps);
    ListsSuffix(s.next, Front(s));
    forall id | id in s.tasks
      ensures forall p :: p in Owned(s.tasks[id]) ==> p < Front(s)
    {
      OwnedOffList(|s.next|, Front(s), s.tasks[id]);
    }
  }

  /** A request is refused only when every page belongs to some task. */
  lemma RefusedWhenAllOut(n: nat, ids: set<TaskId>, steps: seq<Step>)
    requires Legal(Start(n, ids), steps) && Run(Start(n, ids), steps).head.None?
    ensures var s := Run(Start(n, ids), steps);
            forall p: Page :: p < n ==> IsOut(s.tasks, p)
  {
    PoolHolds(n, ids, steps);
  }

  /** One run step later. */
  lemma {:induction false} Extend(s: State, steps: seq<Step>, step: Step) returns (more: seq<Step>)
    requires Legal(s, steps) && Enabled(Run(s, steps), step)
    ensures Legal(s, more) && Run(s, more) == Next(Run(s, steps), step)
    decreases |steps|
  {
    if steps == [] {
      more := [step];
      assert more[1..] == [];
    } else {
      var rest := Extend(Next(s, steps[0]), steps[1..], step);
      more := [steps[0]] + rest;
      assert more[1..] == rest;
    }
  }

  lemma TakesPage(s0: State, steps: seq<Step>, id: TaskId) returns (more: seq<Step>)
    requires Legal(s0, steps)
    requires var s := Run(s0, steps);
             id in s.tasks && s.tasks[id].pc.Idle? && s.head.Some? && s.head.value < |s.next|
    ensures Legal(s0, more)
    ensures var s, s' := Run(s0, steps), Run(s0, more);
            && s'.tasks == s.tasks[id := Task(Idle, s.tasks[id].held + {s.head.value})]
            && s'.next == s.next && s'.head == s.next[s.head.value] && s'.used == s.used + 1
  {
    hide Legal, Run;
    more := Extend(s0, steps, LoadHead(id));
    more := Extend(s0, more, ReadLink(id));
    more := Extend(s0, more, Swap(id, true));
    more := Extend(s0, more, Count(id));
  }

  /** A task that is about to read a link or to swap can come back empty-handed: its swap may fail. */
  lemma BacksOff(s0: State, steps: seq<Step>, id: TaskId) returns (more: seq<Step>)
    requires Legal(s0, steps) && id in Run(s0, steps).tasks
    requires var s, pc := Run(s0, steps), Run(s0, steps).tasks[id].pc;
             pc.Swapping? || (pc.Reading? && pc.page < |s.next|)
    ensures Legal(s0, more)
    ensures var s := Run(s0, steps); Run(s0, more) == s.(tasks := s.tasks[id := s.tasks[id].(pc := Idle)])
  {
    hide Legal, Run;
    more := steps;
    if Run(s0, steps).tasks[id].pc.Reading? {
      more := Extend(s0, more, ReadLink(id));
    }
    more := Extend(s0, more, Swap(id, false));
  }

  /** From any state of any run, wherever it is, a task left alone gets a page as long as one is listed, and
      that is the first one listed; or the one it has popped already. */
  lemma GetsPageAlone(s0: State, steps: seq<Step>, id: TaskId) returns (more: seq<Step>)
    requires Inv(s0) && Legal(s0, steps) && id in Run(s0, steps).tasks
    requires Run(s0, steps).tasks[id].pc.Counting? || Front(Run(s0, steps)) < |Run(s0, steps).next|
    ensures Legal(s0, more)
    ensures var s, s' := Run(s0, steps), Run(s0, more);
            var page := if s.tasks[id].pc.Counting? then s.tasks[id].pc.page else Front(s);
            && page !in s.tasks[id].held && s'.used == s.used + 1
            && s'.tasks == s.tasks[id := Task(Idle, s.tasks[id].held + {page})]
            && Front(s') == if s.tasks[id].pc.Counting? then Front(s) else page + 1
  {
    hide Legal, Run, OwnersOk, Uncounted, Inv;
    RunKeepsInv(s0, steps);
    var s := Run(s0, steps);
    PageThere(s, id);
    more := steps;
    if s.tasks[id].pc.Counting? {
      more := Extend(s0, more, Count(id));
    } else {
      if !s.tasks[id].pc.Idle? {
        more := BacksOff(s0, more, id);
      }
      more := TakesPage(s0, more, id);
    }
  }

  lemma PageThere(s: State, id: TaskId)
    requires Inv(s) && id in s.tasks
    ensures var t := s.tasks[id];
            && (t.pc.Counting? ==> t.pc.page !in t.held)
            && (t.pc.Reading? ==> t.pc.page < |s.next|)
            && Front(s) !in t.held
            && (Front(s) < |s.next| ==> s.head == Some(Front(s)) && s.next[Front(s)] == Successor(|s.next|, Front(s)))
  {
    hide OwnersOk, Uncounted;
    assert TaskOk(|s.next|, Front(s), s.tasks[id]);
  }

  /** A slow task does read links its new owner has overwritten: here task 0 is about to swap in the
      page task 1 holds. */
  lemma StaleLinkRead() returns (steps: seq<Step>)
    ensures Legal(Start(2, {0, 1}), steps)
    ensures var s := Run(Start(2, {0, 1}), steps);
            s.tasks.Keys == {0, 1} && s.tasks[0].pc == Swapping(0, Some(0)) && s.tasks[1].held == {0}
  {
    var s0 := Start(2, {0, 1});
    assert Legal(s0, []) && Run(s0, []) == s0;
    assert s0.tasks.Keys == {0, 1} && s0.next == [Some(1), None];
    hide Legal, Run, Start;
    steps := Extend(s0, [], LoadHead(0));
    steps := TakesPage(s0, steps, 1);
    steps := Extend(s0, steps, Overwrite(1, 0, Some(0)));
    steps := Extend(s0, steps, ReadLink(0));
  }
}
