/** Once-only installation of an object that is built on first use, one atomic operation a step.  Classes
    and class instances are acquired the same way. */
module LazyAcquire {
  import opened Options

  type TaskId = nat
  type Object = nat

  /** Yet to load the pointer, about to build, about to swap, back with an object, back with an error. */
  datatype Pc = Loading | Building | Swapping | Acquired(found: Object) | Failed

  /** `own` is the object the task has built, kept over retries. */
  datatype Task = Task(pc: Pc, own: Option<Object>)

  /** `built` counts the objects built so far; each is numbered by the count before. */
  datatype State = State(installed: Option<Object>, built: nat, tasks: map<TaskId, Task>)

  datatype Step =
    | Load(t: TaskId)
    | Build(t: TaskId, ok: bool)
    | Swap(t: TaskId, ok: bool)

  predicate Enabled(s: State, step: Step) {
    && step.t in s.tasks
    && var t := s.tasks[step.t];
       match step {
         case Load(_) => t.pc.Loading?
         case Build(_, _) => t.pc.Building?
         case Swap(_, ok) => t.pc.Swapping? && t.own.Some? && (ok ==> s.installed.None?)
       }
  }

  function Next(s: State, step: Step): State
    requires Enabled(s, step)
  {
    var t := s.tasks[step.t];
    match step
    case Load(id) =>
      var pc := if s.installed.Some? then Acquired(s.installed.value) else if t.own.None? then Building else Swapping;
      s.(tasks := s.tasks[id := t.(pc := pc)])
    case Build(id, ok) =>
      if ok then s.(built := s.built + 1, tasks := s.tasks[id := Task(Swapping, Some(s.built))])
      else s.(tasks := s.tasks[id := t.(pc := Failed)])
    case Swap(id, ok) =>
      if ok then s.(installed := t.own, tasks := s.tasks[id := t.(pc := Acquired(t.own.value))])
      else s.(tasks := s.tasks[id := t.(pc := Loading)])
  }

  predicate Legal(s: State, steps: seq<Step>)
    decreases |steps|
  {
    steps == [] || (Enabled(s, steps[0]) && Legal(Next(s, steps[0]), steps[1..]))
  }

  function Run(s: State, steps: seq<Step>): State
    requires Legal(s, steps)
    decreases |steps|
  {
    if steps == [] then s else Run(Next(s, steps[0]), steps[1..])
  }

  function Start(ids: set<TaskId>): State {
    State(None, 0, map t | t in ids :: Task(Loading, None))
  }

  ghost predicate TaskOk(installed: Option<Object>, built: nat, t: Task) {
    && (t.own.Some? ==> t.own.value < built)
    && (t.pc.Building? || t.pc.Failed? ==> t.own.None?)
    && (t.pc.Swapping? ==> t.own.Some?)
    && (t.pc.Acquired? ==> installed == Some(t.pc.found))
  }

  ghost predicate TasksOk(s: State) {
    forall id :: id in s.tasks ==> TaskOk(s.installed, s.built, s.tasks[id])
  }

  /** No object is built by two tasks, and the one installed is built by some task. */
  ghost predicate OwnersOk(s: State) {
    && (forall a, b :: a in s.tasks && b in s.tasks && s.tasks[a].own.Some? && s.tasks[a].own == s.tasks[b].own
                       ==> a == b)
    && (s.installed.Some? ==> exists id :: id in s.tasks && s.tasks[id].own == s.installed)
  }

  /** The tasks that have built an object. */
  ghost function Builders(tasks: map<TaskId, Task>): set<TaskId> {
    set id | id in tasks && tasks[id].own.Some?
  }

  lemma BuildersChange(tasks: map<TaskId, Task>, id: TaskId, t: Task)
    requires id in tasks
    ensures |Builders(tasks[id := t])|
            == |Builders(tasks)| - (if tasks[id].own.Some? then 1 else 0) + if t.own.Some? then 1 else 0
  {
    var u, u' := Builders(tasks), Builders(tasks[id := t]);
    var rest := u - {id};
    assert u == if tasks[id].own.Some? then rest + {id} else rest;
    assert u' == if t.own.Some? then rest + {id} else rest;
  }

  ghost predicate Inv(s: State) {
    TasksOk(s) && OwnersOk(s) && |Builders(s.tasks)| == s.built
  }

  lemma StepKeepsTasks(s: State, step: Step)
    requires TasksOk(s) && Enabled(s, step)
    ensures TasksOk(Next(s, step))
    ensures s.installed.Some? ==> Next(s, step).installed == s.installed
  {
    var s' := Next(s, step);
    assert TaskOk(s.installed, s.built, s.tasks[step.t]);
    assert s.built <= s'.built;
  }

  lemma StepKeepsOwners(s: State, step: Step)
    requires TasksOk(s) && OwnersOk(s) && Enabled(s, step)
    ensures OwnersOk(Next(s, step))
  {
    var s' := Next(s, step);
    forall id | id in s.tasks
      ensures s.tasks[id].own.Some? ==> s'.tasks[id].own == s.tasks[id].own && s.tasks[id].own.value < s.built
    {
      assert TaskOk(s.installed, s.built, s.tasks[id]);
    }
    if s'.installed.Some? {
      var id :| id in s.tasks && (s.tasks[id].own == s'.installed || (s.installed.None? && id == step.t));
      assert s'.tasks[id].own == s'.installed;
    }
  }

  lemma StepKeepsInv(s: State, step: Step)
    requires Inv(s) && Enabled(s, step)
    ensures Inv(Next(s, step))
    ensures s.installed.Some? ==> Next(s, step).installed == s.installed
  {
    hide OwnersOk, Builders;
    StepKeepsTasks(s, step);
    StepKeepsOwners(s, step);
    assert TaskOk(s.installed, s.built, s.tasks[step.t]);
    BuildersChange(s.tasks, step.t, Next(s, step).tasks[step.t]);
  }

  /** The installed pointer never changes, from any point of a run on. */
  lemma {:induction false} RunKeepsInv(s: State, steps: seq<Step>)
    requires Inv(s) && Legal(s, steps)
    ensures Inv(Run(s, steps))
    ensures s.installed.Some? ==> Run(s, steps).installed == s.installed
    decreases |steps|
  {
    hide Inv;
    if steps != [] {
      StepKeepsInv(s, steps[0]);
      RunKeepsInv(Next(s, steps[0]), steps[1..]);
    }
  }

  lemma StartInv(ids: set<TaskId>)
    ensures Inv(Start(ids))
  {
    assert Builders(Start(ids).tasks) == {};
  }

  /** Whatever the interleaving: all tasks that come back with an object come back with the one
      installed, exactly one task built it, and no task ever builds twice. */
  lemma AcquireHolds(ids: set<TaskId>, steps: seq<Step>)
    requires Legal(Start(ids), steps)
    ensures var s := Run(Start(ids), steps);
            && (forall a, b :: a in s.tasks && b in s.tasks && s.tasks[a].pc.Acquired? && s.tasks[b].pc.Acquired? ==>
                  s.tasks[a].pc.found == s.tasks[b].pc.found && s.installed == Some(s.tasks[a].pc.found))
            && (s.installed.Some? ==>
                  exists id :: id in s.tasks && s.tasks[id].own == s.installed
                               && forall other :: other in s.tasks && s.tasks[other].own == s.installed ==> other == id)
            && |Builders(s.tasks)| == s.built
  {
    StartInv(ids);
    RunKeepsInv(Start(ids), steps);
    var s := Run(Start(ids), steps);
    assert forall a :: a in s.tasks ==> TaskOk(s.installed, s.built, s.tasks[a]);
  }

  // ---------------------------------------------------------------- who fails, and who gets there

  lemma {:induction false} FailedBefore(s: State, steps: seq<Step>, id: TaskId)
    requires Legal(s, steps) && id in s.tasks
    ensures id in Run(s, steps).tasks
    ensures Run(s, steps).tasks[id].pc.Failed? <==> s.tasks[id].pc.Failed? || Build(id, false) in steps
    decreases |steps|
  {
    if steps != [] {
      FailedBefore(Next(s, steps[0]), steps[1..], id);
      assert Build(id, false) in steps <==> Build(id, false) == steps[0] || Build(id, false) in steps[1..];
    }
  }

  /** A task comes back with an error exactly if building failed on it. */
  lemma FailsExactly(ids: set<TaskId>, steps: seq<Step>, id: TaskId)
    requires Legal(Start(ids), steps) && id in ids
    ensures id in Run(Start(ids), steps).tasks
    ensures Run(Start(ids), steps).tasks[id].pc.Failed? <==> Build(id, false) in steps
  {
    FailedBefore(Start(ids), steps, id);
  }

  /** What a task does next when nobody disturbs it and building works. */
  function Onward(s: State, id: TaskId): Step
    requires id in s.tasks
  {
    match s.tasks[id].pc
    case Building => Build(id, true)
    case Swapping => Swap(id, s.installed.None?)
    case _ => Load(id)
  }

  predicate Back(t: Task) {
    t.pc.Acquired? || t.pc.Failed?
  }

  function Left(s: State, id: TaskId): nat
    requires id in s.tasks
  {
    match s.tasks[id].pc
    case Loading => if s.installed.Some? then 1 else if s.tasks[id].own.Some? then 2 else 3
    case Building => if s.installed.Some? then 3 else 2
    case Swapping => if s.installed.Some? then 2 else 1
    case _ => 0
  }

  /** From any state of any run a task that is not back yet gets the object by itself, and builds one only
      if it has none and found nothing installed. */
  lemma {:induction false} GetsObject(s: State, id: TaskId) returns (steps: seq<Step>)
    requires Inv(s) && id in s.tasks && !Back(s.tasks[id])
    ensures Legal(s, steps) && forall step :: step in steps ==> step.t == id
    ensures id in Run(s, steps).tasks && Run(s, steps).tasks[id].pc.Acquired?
    ensures Run(s, steps).tasks == s.tasks[id := Run(s, steps).tasks[id]]
    ensures (exists step :: step in steps && step.Build?)
            <==> s.tasks[id].own.None? && (s.installed.None? || s.tasks[id].pc.Building?)
    decreases Left(s, id)
  {
    hide Inv;
    var step := Onward(s, id);
    OnwardEnabled(s, id);
    var s' := Next(s, step);
    StepKeepsInv(s, step);
    if Back(s'.tasks[id]) {
      steps := [step];
      assert Legal(s', steps[1..]) && Run(s', steps[1..]) == s';
      assert forall x :: x in steps ==> x == step;
    } else {
      var rest := GetsObject(s', id);
      steps := [step] + rest;
      assert steps[1..] == rest;
      assert forall x :: x in steps <==> x == step || x in rest;
    }
  }

  lemma OnwardEnabled(s: State, id: TaskId)
    requires Inv(s) && id in s.tasks && !Back(s.tasks[id])
    ensures Enabled(s, Onward(s, id))
    ensures s.tasks[id].pc.Building? ==> s.tasks[id].own.None?
    ensures s.tasks[id].pc.Swapping? ==> s.tasks[id].own.Some?
  {
    assert TaskOk(s.installed, s.built, s.tasks[id]);
  }
}
