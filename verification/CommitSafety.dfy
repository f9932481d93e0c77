/** What any run of the confirmation protocol guarantees. */
module CommitSafety {
  import opened Options
  import opened CommitProtocol

  ghost predicate SharesName(s: State, c: CommitId, d: CommitId)
    requires c in s.tasks && d in s.tasks
  {
    exists n :: n in s.tasks[c].creates && n in s.tasks[d].creates
  }

  ghost predicate SharesItem(s: State, c: CommitId, d: CommitId)
    requires c in s.tasks && d in s.tasks
  {
    exists it :: it in s.tasks[c].filed && it in s.tasks[d].filed
  }

  /** The states of one class name are filed under one dict item, and an item holds one name. */
  ghost predicate OneItemPerName(s: State) {
    forall c, d, a, b ::
      c in s.tasks && d in s.tasks
      && 0 <= a < |s.tasks[c].filed| <= |s.tasks[c].creates|
      && 0 <= b < |s.tasks[d].filed| <= |s.tasks[d].creates|
      ==> (s.tasks[c].creates[a] == s.tasks[d].creates[b] <==> s.tasks[c].filed[a] == s.tasks[d].filed[b])
  }

  ghost predicate UniqueNames(s: State) {
    forall c, d :: c in s.tasks && d in s.tasks && c != d
                   && Confirmed(s.tasks[c].confirm) && Confirmed(s.tasks[d].confirm)
                   ==> !SharesName(s, c, d)
  }

  /** The links and numids of the chain, told from the records alone. */
  ghost predicate ChainLinks(s: State) {
    && s.head == LastOf(s.chain)
    && (forall i, j :: 0 <= i < j < |s.chain| ==> s.chain[i] != s.chain[j])
    && (forall i :: 0 <= i < |s.chain| ==>
          && s.chain[i] in s.tasks
          && s.tasks[s.chain[i]].numid == i + 1
          && s.tasks[s.chain[i]].prev == LastOf(s.chain[..i]))
  }

  lemma OnChain(s: State, i: nat)
    requires Inv(s) && i < |s.chain|
    ensures s.chain[i] in s.tasks
    ensures var t := s.tasks[s.chain[i]];
            && Swapped(t.pc) && t.loadedLen == i && t.numid == i + 1
            && t.prev == LastOf(s.chain[..i])
            && |t.filed| == |t.creates|
            && ScannedUpTo(s.chain, s.items, s.chain[i], t, |t.creates|)
            && MissedOk(s.chain, s.items, s.chain[i], t)
            && t.missed <= set x | x in s.chain[..i]
  {
    assert TaskOk(s.chain, s.items, s.chain[i], s.tasks[s.chain[i]]);
  }

  /** From an empty snapshot, whatever the interleaving: numids fall by one along prev down to 1, no
      commit repeats, confirmed commits are on the chain and conflicting ones are not, and the
      counter lags the chain by the tasks between swap and count. */
  lemma ChainHolds(commits: map<CommitId, seq<ClassName>>, steps: seq<Step>)
    requires Legal(Start(commits), steps)
    ensures var s := Run(Start(commits), steps);
            && ChainLinks(s)
            && (forall c :: c in s.tasks && Confirmed(s.tasks[c].confirm) ==> c in s.chain)
            && (forall c :: c in s.tasks && s.tasks[c].confirm == Conflict ==> c !in s.chain)
            && s.numCommits + |Uncounted(s.tasks)| == |s.chain|
  {
    var s := Run(Start(commits), steps);
    StartInv(commits);
    RunKeepsInv(Start(commits), steps);
    LinksFromInv(s);
    forall c | c in s.tasks
      ensures Confirmed(s.tasks[c].confirm) ==> c in s.chain
      ensures s.tasks[c].confirm == Conflict ==> c !in s.chain
    {
      assert TaskOk(s.chain, s.items, c, s.tasks[c]);
    }
  }

  lemma LinksFromInv(s: State)
    requires Inv(s)
    ensures ChainLinks(s)
  {
    hide TasksOk, ItemsOk;
    forall i | 0 <= i < |s.chain|
      ensures s.chain[i] in s.tasks && s.tasks[s.chain[i]].numid == i + 1
      ensures s.tasks[s.chain[i]].prev == LastOf(s.chain[..i])
    {
      OnChain(s, i);
    }
    forall i, j | 0 <= i < j < |s.chain|
      ensures s.chain[i] != s.chain[j]
    {
      OnChain(s, i);
      OnChain(s, j);
    }
  }

  lemma FiledUnder(s: State, c: CommitId, it: Item)
    requires Inv(s) && c in s.tasks
    ensures it in s.tasks[c].filed <==> it in s.items && c in s.items[it]
  {
    assert TaskOk(s.chain, s.items, c, s.tasks[c]);
  }

  /** Two commits on the chain have states under one item just when the later one read the earlier
      one between its swap and its store. */
  lemma MissedExactly(s: State, i: nat, j: nat)
    requires Inv(s) && i < j < |s.chain|
    ensures s.chain[i] in s.tasks && s.chain[j] in s.tasks
    ensures SharesItem(s, s.chain[i], s.chain[j]) <==> s.chain[i] in s.tasks[s.chain[j]].missed
  {
    hide Inv, Rival;
    OnChain(s, i);
    OnChain(s, j);
    var x, c := s.chain[i], s.chain[j];
    var t := s.tasks[c];
    if it :| it in s.tasks[x].filed && it in t.filed {
      var k :| 0 <= k < |t.filed| && t.filed[k] == it;
      RivalIffItem(s, c, k, x);
      assert Rival(s.items, t.filed, c, k, s.chain[i]);
    }
    if x in t.missed {
      var k :| 0 <= k < |t.filed| && Rival(s.items, t.filed, c, k, x);
      RivalIffItem(s, c, k, x);
      assert t.filed[k] in t.filed;
    }
  }

  lemma RivalIffItem(s: State, c: CommitId, k: nat, x: CommitId)
    requires Inv(s) && c in s.tasks && x in s.tasks && k < |s.tasks[c].filed|
    ensures Rival(s.items, s.tasks[c].filed, c, k, x) <==> x != c && s.tasks[c].filed[k] in s.tasks[x].filed
  {
    hide TasksOk;
    FiledUnder(s, x, s.tasks[c].filed[k]);
  }

  /** With one item to a name, no name is created twice on the chain just when no commit there
      missed a rival. */
  lemma UniqueIffNothingMissed(s: State)
    requires Inv(s) && OneItemPerName(s)
    ensures forall i :: 0 <= i < |s.chain| ==> s.chain[i] in s.tasks
    ensures (forall i, j :: 0 <= i < j < |s.chain| ==> !SharesName(s, s.chain[i], s.chain[j]))
       <==> (forall j :: 0 <= j < |s.chain| ==> s.tasks[s.chain[j]].missed == {})
  {
    hide Inv, SharesItem, SharesName, OneItemPerName;
    forall i | 0 <= i < |s.chain|
      ensures s.chain[i] in s.tasks
    {
      OnChain(s, i);
    }
    forall i, j | 0 <= i < j < |s.chain|
      ensures SharesName(s, s.chain[i], s.chain[j]) <==> s.chain[i] in s.tasks[s.chain[j]].missed
    {
      MissedExactly(s, i, j);
      NameIffItem(s, i, j);
    }
    if forall i, j :: 0 <= i < j < |s.chain| ==> !SharesName(s, s.chain[i], s.chain[j]) {
      forall j | 0 <= j < |s.chain|
        ensures s.tasks[s.chain[j]].missed == {}
      {
        MissedIsEarlier(s, j);
      }
    }
  }

  lemma MissedIsEarlier(s: State, j: nat)
    requires Inv(s) && j < |s.chain| && s.chain[j] in s.tasks
    ensures forall x :: x in s.tasks[s.chain[j]].missed ==> exists i :: 0 <= i < j && s.chain[i] == x
  {
    hide TasksOk, ItemsOk;
    OnChain(s, j);
  }

  lemma NameIffItem(s: State, i: nat, j: nat)
    requires Inv(s) && OneItemPerName(s) && i < j < |s.chain|
    ensures s.chain[i] in s.tasks && s.chain[j] in s.tasks
    ensures SharesName(s, s.chain[i], s.chain[j]) <==> SharesItem(s, s.chain[i], s.chain[j])
  {
    hide Inv;
    OnChain(s, i);
    OnChain(s, j);
    var c, d := s.chain[i], s.chain[j];
    if n :| n in s.tasks[c].creates && n in s.tasks[d].creates {
      var a :| 0 <= a < |s.tasks[c].creates| && s.tasks[c].creates[a] == n;
      var b :| 0 <= b < |s.tasks[d].creates| && s.tasks[d].creates[b] == n;
      var it := s.tasks[c].filed[a];
      assert it == s.tasks[d].filed[b];
      assert it in s.tasks[c].filed && it in s.tasks[d].filed;
    }
    if it :| it in s.tasks[c].filed && it in s.tasks[d].filed {
      var a :| 0 <= a < |s.tasks[c].filed| && s.tasks[c].filed[a] == it;
      var b :| 0 <= b < |s.tasks[d].filed| && s.tasks[d].filed[b] == it;
      var n := s.tasks[c].creates[a];
      assert n == s.tasks[d].creates[b];
      assert n in s.tasks[c].creates && n in s.tasks[d].creates;
    }
  }

  // ---------------------------------------------------------------- swap and store as one step

  /** Nothing happens between a swap and the store that follows it. */
  ghost predicate Fused(s: State, steps: seq<Step>)
    requires Legal(s, steps)
    decreases |steps|
  {
    steps == [] || (
      && (forall c :: c in s.tasks && s.tasks[c].pc.Storing? ==> steps[0] == StoreValid(c))
      && Fused(Next(s, steps[0]), steps[1..]))
  }

  ghost predicate NothingMissed(s: State) {
    forall c :: c in s.tasks ==> s.tasks[c].missed == {}
  }

  lemma FusedStep(s: State, step: Step)
    requires Inv(s) && Enabled(s, step) && NothingMissed(s)
    requires forall c :: c in s.tasks && s.tasks[c].pc.Storing? ==> step == StoreValid(c)
    ensures NothingMissed(Next(s, step))
  {
    hide ItemsOk, FiledOk, MissedOk, ScannedUpTo, HeadIs;
    if step.ReadConfirm? {
      var x := s.tasks[step.c].pc.rest[0];
      assert TaskOk(s.chain, s.items, x, s.tasks[x]);
    }
  }

  lemma {:induction false} FusedMissesNothing(s: State, steps: seq<Step>)
    requires Inv(s) && Legal(s, steps) && Fused(s, steps) && NothingMissed(s)
    ensures NothingMissed(Run(s, steps))
    decreases |steps|
  {
    hide Inv, NothingMissed;
    if steps != [] {
      FusedStep(s, steps[0]);
      RunKeepsInv(s, steps[..1]);
      assert Run(s, steps[..1]) == Next(s, steps[0]);
      FusedMissesNothing(Next(s, steps[0]), steps[1..]);
    }
  }

  /** With one item to a name, and swap and store fused, at most one of the commits that create a
      name is ever confirmed. */
  lemma FusedUnique(commits: map<CommitId, seq<ClassName>>, steps: seq<Step>)
    requires Legal(Start(commits), steps) && Fused(Start(commits), steps)
    requires OneItemPerName(Run(Start(commits), steps))
    ensures UniqueNames(Run(Start(commits), steps))
  {
    hide Inv, SharesName, OneItemPerName, Legal, Run, Fused, Start;
    var s := Run(Start(commits), steps);
    StartInv(commits);
    assert NothingMissed(Start(commits)) by {
      StartMissesNothing(commits);
    }
    RunKeepsInv(Start(commits), steps);
    FusedMissesNothing(Start(commits), steps);
    UniqueIffNothingMissed(s);
    ChainHolds(commits, steps);
    forall c, d | c in s.tasks && d in s.tasks && c != d
                  && Confirmed(s.tasks[c].confirm) && Confirmed(s.tasks[d].confirm)
      ensures !SharesName(s, c, d)
    {
      var i :| 0 <= i < |s.chain| && s.chain[i] == c;
      var j :| 0 <= j < |s.chain| && s.chain[j] == d;
      SharesBothWays(s, c, d);
    }
  }

  lemma StartMissesNothing(commits: map<CommitId, seq<ClassName>>)
    ensures NothingMissed(Start(commits))
  {
  }

  lemma SharesBothWays(s: State, c: CommitId, d: CommitId)
    requires c in s.tasks && d in s.tasks
    ensures SharesName(s, c, d) <==> SharesName(s, d, c)
  {
  }

  // ---------------------------------------------------------------- the filing the dict does

  /** Every state is filed under an item of its own. */
  ghost predicate FreshFiling(s: State, steps: seq<Step>)
    requires Legal(s, steps)
    decreases |steps|
  {
    steps == [] || (
      && (steps[0].File? ==> steps[0].item !in s.items)
      && FreshFiling(Next(s, steps[0]), steps[1..]))
  }

  ghost predicate OwnItems(s: State) {
    && (forall it, x, y :: it in s.items && x in s.items[it] && y in s.items[it] ==> x == y)
    && (forall c :: c in s.tasks ==> s.tasks[c].pc != Failed)
  }

  lemma FreshStep(s: State, step: Step)
    requires Inv(s) && Enabled(s, step) && OwnItems(s)
    requires step.File? ==> step.item !in s.items
    ensures OwnItems(Next(s, step))
  {
    hide Inv;
    if step.ReadConfirm? {
      ReadsOwnItem(s, step.c);
    }
  }

  /** The states a task reads are of the item its own state is filed under. */
  lemma ReadsOwnItem(s: State, c: CommitId)
    requires Inv(s) && Enabled(s, ReadConfirm(c))
    ensures var t := s.tasks[c];
            t.pc.rest[0] == c || exists it :: it in s.items && t.pc.rest[0] in s.items[it] && c in s.items[it]
  {
    hide ItemsOk, MissedOk, ScannedUpTo, HeadIs;
    var t := s.tasks[c];
    assert TaskOk(s.chain, s.items, c, t);
    if t.pc.rest[0] != c {
      assert Rival(s.items, t.filed, c, t.pc.k, t.pc.rest[0]);
    }
  }

  lemma {:induction false} FreshRun(s: State, steps: seq<Step>)
    requires Inv(s) && Legal(s, steps) && FreshFiling(s, steps) && OwnItems(s)
    ensures OwnItems(Run(s, steps))
    decreases |steps|
  {
    hide Inv, OwnItems;
    if steps != [] {
      FreshStep(s, steps[0]);
      RunKeepsInv(s, steps[..1]);
      assert Run(s, steps[..1]) == Next(s, steps[0]);
      FreshRun(Next(s, steps[0]), steps[1..]);
    }
  }

  /** As the dict files states, no scan ever meets a rival: no commit ends in conflict. */
  lemma FreshNeverConflicts(commits: map<CommitId, seq<ClassName>>, steps: seq<Step>)
    requires Legal(Start(commits), steps) && FreshFiling(Start(commits), steps)
    ensures var s := Run(Start(commits), steps);
            forall c :: c in s.tasks ==> s.tasks[c].confirm != Conflict
  {
    hide ItemsOk, FiledOk, MissedOk, ScannedUpTo, HeadIs;
    var s := Run(Start(commits), steps);
    StartInv(commits);
    RunKeepsInv(Start(commits), steps);
    FreshRun(Start(commits), steps);
    forall c | c in s.tasks
      ensures s.tasks[c].confirm != Conflict
    {
      assert TaskOk(s.chain, s.items, c, s.tasks[c]);
    }
  }
}
