/** Optimistic confirmation of commits, one atomic operation a step.  Any number of arbiter tasks,
    one for each commit, append to the commit chain of a snapshot. */
module CommitProtocol {
  import opened Options

  type CommitId = nat
  type ClassName = nat
  type Item = nat

  datatype Confirm = Init | Valid | Persistent | Conflict

  /** Where a task is: filing its states, about to load the head, about to load the states filed
      under its k-th name (or, past the last name, to swap the head), about to look at the first of
      the states in `rest`, and after the swap about to store, to count, and to log. */
  datatype Pc = Filing | Loading | Naming(k: nat) | Reading(k: nat, rest: seq<CommitId>)
              | Storing | Counting | Logging | Done | Failed

  /** `creates` lists the names of the classes the commit creates, `filed` the dict items their
      states are filed under so far.  `loadedLen` and `missed` are history: how long the chain was
      when the head was loaded, and which commits on the chain the scan read before their
      confirmation was stored. */
  datatype Task = Task(
    creates: seq<ClassName>, pc: Pc, filed: seq<Item>,
    prev: Option<CommitId>, expected: Option<CommitId>, numid: nat, confirm: Confirm,
    loadedLen: nat, missed: set<CommitId>)

  /** `items` holds the states list of each dict item, newest first, as the commits they belong to;
      `chain` is history: the commits swapped in so far, oldest first. */
  datatype State = State(
    tasks: map<CommitId, Task>, items: map<Item, seq<CommitId>>,
    head: Option<CommitId>, numCommits: nat, chain: seq<CommitId>)

  datatype Step =
    | File(c: CommitId, item: Item)
    | LoadHead(c: CommitId)
    | LoadStates(c: CommitId)
    | ReadConfirm(c: CommitId)
    | Swap(c: CommitId, ok: bool)
    | StoreValid(c: CommitId)
    | Count(c: CommitId)
    | Log(c: CommitId, keep: bool)

  function NewTask(creates: seq<ClassName>): Task {
    Task(creates, if creates == [] then Loading else Filing, [], None, None, 1, Init, 0, {})
  }

  /** An empty snapshot and one task for each commit. */
  function Start(commits: map<CommitId, seq<ClassName>>): State {
    State(map c | c in commits :: NewTask(commits[c]), map[], None, 0, [])
  }

  function Confirmed(f: Confirm): bool {
    f == Valid || f == Persistent
  }

  /** A weak compare-and-swap may fail at any time; it succeeds only on the loaded head. */
  predicate Enabled(s: State, step: Step) {
    && step.c in s.tasks
    && var t := s.tasks[step.c];
       match step {
         case File(_, _) => t.pc.Filing? && |t.filed| < |t.creates|
         case LoadHead(_) => t.pc.Loading?
         case LoadStates(_) => t.pc.Naming? && t.pc.k < |t.filed| && t.filed[t.pc.k] in s.items
         case ReadConfirm(_) => t.pc.Reading? && t.pc.rest != [] && t.pc.rest[0] in s.tasks
         case Swap(_, ok) => t.pc.Naming? && t.pc.k == |t.creates| && (ok ==> s.head == t.expected)
         case StoreValid(_) => t.pc.Storing?
         case Count(_) => t.pc.Counting?
         case Log(_, _) => t.pc.Logging?
       }
  }

  function Filed(t: Task, item: Item): Task
    requires |t.filed| < |t.creates|
  {
    t.(filed := t.filed + [item], pc := if |t.filed| + 1 == |t.creates| then Loading else Filing)
  }

  /** A missing head leaves the numid and the link of the commit as they are. */
  function HeadLoaded(t: Task, head: Option<CommitId>, numid: nat, length: nat): Task {
    var t' := if head.Some? then t.(prev := head, numid := numid + 1) else t;
    t'.(expected := head, pc := Naming(0), loadedLen := length, missed := {})
  }

  function Scanned(k: nat, rest: seq<CommitId>): Pc {
    if rest == [] then Naming(k + 1) else Reading(k, rest)
  }

  /** The state of a rival: a confirmed one fails the commit. */
  function StateRead(t: Task, c: CommitId, rival: Confirm, onChain: bool): Task
    requires t.pc.Reading? && t.pc.rest != []
  {
    var x := t.pc.rest[0];
    var next := Scanned(t.pc.k, t.pc.rest[1..]);
    if x == c then t.(pc := next)
    else if Confirmed(rival) then t.(confirm := Conflict, pc := Failed)
    else t.(pc := next, missed := if onChain then t.missed + {x} else t.missed)
  }

  function Next(s: State, step: Step): State
    requires Enabled(s, step)
  {
    var c := step.c;
    var t := s.tasks[c];
    match step
    case File(_, item) =>
      s.(tasks := s.tasks[c := Filed(t, item)],
         items := s.items[item := [c] + (if item in s.items then s.items[item] else [])])
    case LoadHead(_) =>
      var numid := if s.head.Some? && s.head.value in s.tasks then s.tasks[s.head.value].numid else 0;
      s.(tasks := s.tasks[c := HeadLoaded(t, s.head, numid, |s.chain|)])
    case LoadStates(_) =>
      s.(tasks := s.tasks[c := t.(pc := Scanned(t.pc.k, s.items[t.filed[t.pc.k]]))])
    case ReadConfirm(_) =>
      var x := t.pc.rest[0];
      s.(tasks := s.tasks[c := StateRead(t, c, s.tasks[x].confirm, x in s.chain)])
    case Swap(_, ok) =>
      if ok then s.(tasks := s.tasks[c := t.(pc := Storing)], head := Some(c), chain := s.chain + [c])
      else s.(tasks := s.tasks[c := t.(pc := Loading)])
    case StoreValid(_) =>
      s.(tasks := s.tasks[c := t.(confirm := Valid, pc := Counting)])
    case Count(_) =>
      s.(tasks := s.tasks[c := t.(pc := Logging)], numCommits := s.numCommits + 1)
    case Log(_, keep) =>
      s.(tasks := s.tasks[c := t.(confirm := if keep then Persistent else t.confirm, pc := Done)])
  }

  /** Runs. */
  predicate Legal(s: State, steps: seq<Step>)
    decreases |steps|
  {
    steps == [] || (Enabled(s, steps[0]) && Legal(Next(s, steps[0]), steps[1..]))
  }

  function Run(s: State, steps: seq<Step>): State
    requires Legal(s, steps)
    decreases |steps|
  {
    if steps == [] then s else Run(Next(s, steps[0]), steps[1..])
  }

  // ---------------------------------------------------------------- the invariant

  predicate Swapped(pc: Pc) {
    pc.Storing? || pc.Counting? || pc.Logging? || pc.Done?
  }

  function ConfirmAt(t: Task): bool {
    match t.pc
    case Counting => t.confirm == Valid
    case Logging => t.confirm == Valid
    case Done => Confirmed(t.confirm)
    case Failed => t.confirm == Conflict
    case _ => t.confirm == Init
  }

  function LastOf(chain: seq<CommitId>): Option<CommitId> {
    if chain == [] then None else Some(chain[|chain| - 1])
  }

  /** x is filed under the item c filed its k-th name under. */
  ghost predicate Rival(items: map<Item, seq<CommitId>>, filed: seq<Item>, c: CommitId, k: nat, x: CommitId) {
    x != c && k < |filed| && filed[k] in items && x in items[filed[k]]
  }

  /** Every rival that was on the chain when the head was loaded has been read too early, as far as
      the first k names are concerned. */
  ghost predicate ScannedUpTo(chain: seq<CommitId>, items: map<Item, seq<CommitId>>, c: CommitId, t: Task, k: nat) {
    && t.loadedLen <= |chain|
    && forall i, j :: 0 <= i < t.loadedLen && 0 <= j < k && Rival(items, t.filed, c, j, chain[i])
                      ==> chain[i] in t.missed
  }

  ghost predicate HeadIs(chain: seq<CommitId>, t: Task) {
    && t.loadedLen <= |chain|
    && t.expected == LastOf(chain[..t.loadedLen])
    && t.prev == t.expected
    && t.numid == t.loadedLen + 1
  }

  ghost predicate MissedOk(chain: seq<CommitId>, items: map<Item, seq<CommitId>>, c: CommitId, t: Task) {
    forall x :: x in t.missed ==> x in chain && exists k :: 0 <= k < |t.filed| && Rival(items, t.filed, c, k, x)
  }

  ghost predicate FiledOk(items: map<Item, seq<CommitId>>, c: CommitId, t: Task) {
    && |t.filed| <= |t.creates|
    && (t.pc.Filing? <==> |t.filed| < |t.creates|)
    && forall k :: 0 <= k < |t.filed| ==> t.filed[k] in items && c in items[t.filed[k]]
  }

  /** What holds of one task, whatever the others do. */
  ghost predicate TaskOk(chain: seq<CommitId>, items: map<Item, seq<CommitId>>, c: CommitId, t: Task) {
    && FiledOk(items, c, t)
    && ConfirmAt(t)
    && MissedOk(chain, items, c, t)
    && (Swapped(t.pc) <==> c in chain)
    && match t.pc {
         case Filing => t.numid == 1 && t.prev == None && t.missed == {}
         case Loading => chain == [] ==> t.numid == 1 && t.prev == None
         case Naming(k) => HeadIs(chain, t) && k <= |t.creates| && ScannedUpTo(chain, items, c, t, k)
         case Reading(k, rest) =>
           && HeadIs(chain, t) && k < |t.creates| && rest != [] && ScannedUpTo(chain, items, c, t, k)
           && (forall i :: 0 <= i < t.loadedLen && Rival(items, t.filed, c, k, chain[i])
                           ==> chain[i] in t.missed || chain[i] in rest)
           && (forall x :: x in rest && x != c ==> Rival(items, t.filed, c, k, x))
         case Failed => true
         case _ =>
           && HeadIs(chain, t) && t.loadedLen < |chain| && chain[t.loadedLen] == c
           && ScannedUpTo(chain, items, c, t, |t.creates|)
           && t.missed <= set x | x in chain[..t.loadedLen]
       }
  }

  ghost predicate ItemsOk(s: State) {
    forall it, x :: it in s.items && x in s.items[it] ==> x in s.tasks && it in s.tasks[x].filed
  }

  ghost predicate TasksOk(s: State) {
    forall c :: c in s.tasks ==> TaskOk(s.chain, s.items, c, s.tasks[c])
  }

  /** Commits on the chain whose task has not counted them yet. */
  ghost function Uncounted(tasks: map<CommitId, Task>): set<CommitId> {
    set c | c in tasks && IsUncounted(tasks[c])
  }

  predicate IsUncounted(t: Task) {
    t.pc.Storing? || t.pc.Counting?
  }

  lemma UncountedChange(tasks: map<CommitId, Task>, c: CommitId, t: Task)
    requires c in tasks
    ensures |Uncounted(tasks[c := t])|
            == |Uncounted(tasks)| - (if IsUncounted(tasks[c]) then 1 else 0) + if IsUncounted(t) then 1 else 0
  {
    var u, u' := Uncounted(tasks), Uncounted(tasks[c := t]);
    var rest := u - {c};
    assert u == if IsUncounted(tasks[c]) then rest + {c} else rest;
    assert u' == if IsUncounted(t) then rest + {c} else rest;
  }

  ghost predicate Inv(s: State) {
    && TasksOk(s)
    && ItemsOk(s)
    && s.head == LastOf(s.chain)
    && (forall i :: 0 <= i < |s.chain| ==> s.chain[i] in s.tasks && s.tasks[s.chain[i]].loadedLen == i)
    && s.numCommits + |Uncounted(s.tasks)| == |s.chain|
  }

  // ---------------------------------------------------------------- every step keeps it

  /** Filing a state bothers no other task: the filing commit is on no chain. */
  lemma OthersFiled(chain: seq<CommitId>, items: map<Item, seq<CommitId>>, c: CommitId, t: Task, it: Item, d: CommitId)
    requires TaskOk(chain, items, c, t) && d !in chain
    ensures TaskOk(chain, items[it := [d] + if it in items then items[it] else []], c, t)
  {
    var items' := items[it := [d] + if it in items then items[it] else []];
    forall k: nat, x | x in chain
      ensures Rival(items, t.filed, c, k, x) <==> Rival(items', t.filed, c, k, x)
    {
    }
    forall x | x in t.missed
      ensures exists k :: 0 <= k < |t.filed| && Rival(items', t.filed, c, k, x)
    {
      var k :| 0 <= k < |t.filed| && Rival(items, t.filed, c, k, x);
      assert Rival(items', t.filed, c, k, x);
    }
  }

  /** Nor does a commit joining the chain. */
  lemma OthersSwapped(chain: seq<CommitId>, items: map<Item, seq<CommitId>>, c: CommitId, t: Task, d: CommitId)
    requires TaskOk(chain, items, c, t) && d != c
    ensures TaskOk(chain + [d], items, c, t)
  {
    assert t.loadedLen <= |chain| ==> (chain + [d])[..t.loadedLen] == chain[..t.loadedLen];
    assert forall i :: 0 <= i < t.loadedLen <= |chain| ==> (chain + [d])[i] == chain[i];
  }

  lemma FileKeeps(chain: seq<CommitId>, items: map<Item, seq<CommitId>>, c: CommitId, t: Task, it: Item)
    requires TaskOk(chain, items, c, t) && t.pc.Filing?
    ensures TaskOk(chain, items[it := [c] + if it in items then items[it] else []], c, Filed(t, it))
  {
  }

  lemma LoadKeeps(chain: seq<CommitId>, items: map<Item, seq<CommitId>>, c: CommitId, t: Task)
    requires TaskOk(chain, items, c, t) && t.pc.Loading?
    ensures TaskOk(chain, items, c, HeadLoaded(t, LastOf(chain), |chain|, |chain|))
  {
    assert chain[..|chain|] == chain;
  }

  lemma StatesKeeps(chain: seq<CommitId>, items: map<Item, seq<CommitId>>, c: CommitId, t: Task)
    requires TaskOk(chain, items, c, t) && t.pc.Naming? && t.pc.k < |t.filed|
    ensures t.filed[t.pc.k] in items
    ensures TaskOk(chain, items, c, t.(pc := Scanned(t.pc.k, items[t.filed[t.pc.k]])))
  {
  }

  /** Reading on: a rival on the chain was confirmed, or goes down as missed. */
  lemma ReadKeeps(chain: seq<CommitId>, items: map<Item, seq<CommitId>>, c: CommitId, t: Task, rival: Confirm)
    requires TaskOk(chain, items, c, t) && t.pc.Reading? && t.pc.rest != []
    ensures TaskOk(chain, items, c, StateRead(t, c, rival, t.pc.rest[0] in chain))
  {
    var x, t' := t.pc.rest[0], StateRead(t, c, rival, t.pc.rest[0] in chain);
    assert forall y :: y in t.pc.rest ==> y == x || y in t.pc.rest[1..];
    forall y | y in t'.missed
      ensures y in chain && exists k :: 0 <= k < |t'.filed| && Rival(items, t'.filed, c, k, y)
    {
      if y !in t.missed {
        assert y == x && Rival(items, t'.filed, c, t.pc.k, y);
      }
    }
  }

  /** A swap succeeds only if the chain has not grown since the head was loaded. */
  lemma SwapKeeps(chain: seq<CommitId>, items: map<Item, seq<CommitId>>, c: CommitId, t: Task)
    requires TaskOk(chain, items, c, t) && t.pc.Naming? && t.pc.k == |t.creates| && t.loadedLen == |chain|
    ensures TaskOk(chain + [c], items, c, t.(pc := Storing))
  {
    assert (chain + [c])[..t.loadedLen] == chain[..t.loadedLen] == chain;
  }

  lemma SwapFailKeeps(chain: seq<CommitId>, items: map<Item, seq<CommitId>>, c: CommitId, t: Task)
    requires TaskOk(chain, items, c, t) && t.pc.Naming? && t.pc.k == |t.creates|
    ensures TaskOk(chain, items, c, t.(pc := Loading))
  {
  }

  lemma AfterSwapKeeps(chain: seq<CommitId>, items: map<Item, seq<CommitId>>, c: CommitId, t: Task, t': Task)
    requires TaskOk(chain, items, c, t) && Swapped(t.pc)
    requires t' == t.(pc := t'.pc, confirm := t'.confirm) && Swapped(t'.pc) && ConfirmAt(t')
    ensures TaskOk(chain, items, c, t')
  {
  }

  lemma StartInv(commits: map<CommitId, seq<ClassName>>)
    ensures Inv(Start(commits))
  {
    assert Uncounted(Start(commits).tasks) == {};
  }

  /** The head loaded is the end of the chain, and the next numid counts the chain. */
  lemma HeadNumid(s: State)
    requires Inv(s) && s.chain != []
    ensures s.head.Some? && s.head.value in s.tasks && s.tasks[s.head.value].numid == |s.chain|
  {
    var i := |s.chain| - 1;
    assert s.chain[i] in s.tasks && TaskOk(s.chain, s.items, s.chain[i], s.tasks[s.chain[i]]);
  }

  /** A rival that joins the chain after a task loaded the head makes the task's swap fail. */
  lemma RivalForcesRescan(s: State, c: CommitId)
    requires Inv(s) && c in s.tasks && s.tasks[c].pc.Naming?
    ensures s.head == s.tasks[c].expected <==> |s.chain| == s.tasks[c].loadedLen
  {
    var t := s.tasks[c];
    assert TaskOk(s.chain, s.items, c, t);
    if t.loadedLen < |s.chain| && t.loadedLen > 0 {
      var i, j := t.loadedLen - 1, |s.chain| - 1;
      assert s.tasks[s.chain[i]].loadedLen == i && s.tasks[s.chain[j]].loadedLen == j;
    }
  }

  lemma StepTasks(s: State, step: Step)
    requires Inv(s) && Enabled(s, step)
    ensures TasksOk(Next(s, step))
  {
    hide FiledOk, MissedOk, ScannedUpTo, HeadIs;
    var c := step.c;
    var t := s.tasks[c];
    var s' := Next(s, step);
    assert TaskOk(s.chain, s.items, c, t);
    match step {
      case File(_, item) => FileKeeps(s.chain, s.items, c, t, item);
      case LoadHead(_) =>
        if s.chain != [] {
          HeadNumid(s);
        }
        LoadKeeps(s.chain, s.items, c, t);
      case LoadStates(_) => StatesKeeps(s.chain, s.items, c, t);
      case ReadConfirm(_) => ReadKeeps(s.chain, s.items, c, t, s.tasks[t.pc.rest[0]].confirm);
      case Swap(_, ok) =>
        if ok {
          RivalForcesRescan(s, c);
          SwapKeeps(s.chain, s.items, c, t);
        } else {
          SwapFailKeeps(s.chain, s.items, c, t);
        }
      case _ => AfterSwapKeeps(s.chain, s.items, c, t, s'.tasks[c]);
    }
    assert TaskOk(s'.chain, s'.items, c, s'.tasks[c]);
    forall d | d in s'.tasks && d != c
      ensures TaskOk(s'.chain, s'.items, d, s'.tasks[d])
    {
      if step.File? {
        OthersFiled(s.chain, s.items, d, s.tasks[d], step.item, c);
      } else if step.Swap? && step.ok {
        OthersSwapped(s.chain, s.items, d, s.tasks[d], c);
      }
    }
  }

  lemma StepItems(s: State, step: Step)
    requires Inv(s) && Enabled(s, step)
    ensures ItemsOk(Next(s, step))
  {
    hide FiledOk, MissedOk, ScannedUpTo, HeadIs, TaskOk;
  }

  lemma StepChain(s: State, step: Step)
    requires Inv(s) && Enabled(s, step)
    ensures var s' := Next(s, step);
            && s'.head == LastOf(s'.chain)
            && forall i :: 0 <= i < |s'.chain| ==> s'.chain[i] in s'.tasks && s'.tasks[s'.chain[i]].loadedLen == i
  {
    hide FiledOk, MissedOk, ScannedUpTo, HeadIs;
    assert TaskOk(s.chain, s.items, step.c, s.tasks[step.c]);
    if step.Swap? && step.ok {
      RivalForcesRescan(s, step.c);
    }
  }

  lemma StepCount(s: State, step: Step)
    requires Inv(s) && Enabled(s, step)
    ensures Next(s, step).numCommits + |Uncounted(Next(s, step).tasks)| == |Next(s, step).chain|
  {
    hide TaskOk, ItemsOk, TasksOk, Uncounted;
    UncountedChange(s.tasks, step.c, Next(s, step).tasks[step.c]);
  }

  lemma {:induction false} RunKeepsInv(s: State, steps: seq<Step>)
    requires Inv(s) && Legal(s, steps)
    ensures Inv(Run(s, steps))
    decreases |steps|
  {
    hide TaskOk, ItemsOk, TasksOk;
    if steps != [] {
      StepTasks(s, steps[0]);
      StepItems(s, steps[0]);
      StepChain(s, steps[0]);
      StepCount(s, steps[0]);
      RunKeepsInv(Next(s, steps[0]), steps[1..]);
    }
  }
}
