# Knowdy: a verified model of its core

Knowdy is a graph database of concepts: classes with several bases, attributes with values, procs with
arguments. This project models the code that decides what its answers mean and what its concurrent
parts may do, and proves the properties that code is relied upon for.

The model follows the program's structure, one module a file:

- **Names and graphs** - `Digraph`, `ClassSchema`: base graphs, reachability, what inheriting means.
- **Resolving classes** - `ClassTable`, `BaseResolve`, `ClassResolve`, `ClassLoad`: the memoised
  depth-first walk that links ancestors and merges attribute indices in place, guarded by flags; it
  terminates, succeeds exactly on the schemas it should, and leaves exactly the ancestors and
  attributes the declarations say. `ClassMeaning` tells the values of a resolved index without merging.
- **The snapshot reader** - `ClassRead`, `ClassAgree`, `ClassDiamond`: the second implementation of
  inheritance, and exactly when it gives the same indices as the first.
- **Indexing and queries** - `ClassIndex`, `AttrHubs`, `FacetPath`, `FacetTree`, `FacetShape`,
  `ClassQuery`: descendant sets as the dual of ancestor lists, reverse attribute hubs, the facet tree.
- **Procs** - `ProcResolve`, `ProcMoves`, `ProcOrder`, `ProcLoad`, `ProcMeaning`: the same kind of walk for
  procs, argument lookup by global chains, what the order of the walk decides, and what the arguments
  end up holding.
- **Lock-free protocols** - `CommitProtocol`, `CommitSafety`, `CommitRuns`, `SharedDict`, `SharedPool`,
  `CacheCells`, `CacheRuns`, `LazyAcquire`: step machines, one atomic operation a step, any number of tasks, sequentially
  consistent memory, weak compare-and-swaps that may fail at any time. Fields named as history in a
  comment are written by steps and never read by them.
- **Storage** - `MemPool`, `Dict`: the page allocator and the hash table.

Code that changes records in place is modelled by classes whose methods update their fields, proved
against functions and predicates over values; the protocols are functions from state and step to state,
proved over all runs: what no run can do, and what a task left alone can do from any state of a run.

Where the code does not do what it is meant to, the code is followed: a lemma gives an input, and
another says for which inputs the code does meet it.

- `knd_shared_dict_set` makes a new pending item for every commit (src/knd_shared_dict.c:89-118), so the
  scan for rivals in src/knd_repo.commit.c:127-142 only ever meets the commit's own state. Any two commits
  that create one class name can both be confirmed, so that a name stays unique in all runs exactly when
  no two commits create it (`CommitRuns.FreshFilingLosesARival`, `FreshUniqueExactly`). With one item
  to a name the only way left is the window between the swap of the head and the VALID store
  (`CommitSafety.MissedExactly`, `UniqueIffNothingMissed`), which any two such commits can still go through
  (`WindowLosesARival`, `WindowUniqueExactly`); with these two fused into one step none can
  (`FusedUnique`). "One item to a name" and "fused" are assumptions of those lemmas, written as the
  predicates `OneItemPerName` and `Fused`.
- In the shared dict itself keys are unique in all runs exactly when no commit shares its key with another
  task (`SharedDict.PendingStopsNobody`, `LiveUniqueExactly`, `KeysUniqueExactly`).
- `knd_set_add` refuses a key that is there (src/knd_set.c:160-164), so a class cannot be indexed exactly
  if it names a base again, or after a base that inherits from it (`ClassIndex.ShortcutNotIndexable`,
  `ClassIndex.Index.IndexClass`).
- The snapshot reader and the resolver can give an attribute different values
  (`ClassDiamond.DiamondDisagrees`); they agree exactly when no conflict is left unsettled
  (`ClassAgree.ReadAgreesWithResolve`).
- An element of a query can be filed above its direct bases when a state top with bases lies in between
  (`FacetPath.HiddenTopGetsStuck`). A schema files all elements of all queries under direct bases exactly
  when no element is stuck in it: inherits a class, but lists none of the classes through which it does
  (`FacetPath.DirectBaseExactly`, `FacetTree.FiledDirectlyExactly`).
- A value for a proc argument can be refused because an argument of a later base, not merged yet, comes
  first in the chain of its name (`ProcLoad.SecondBaseHidesArg`). The predicate `ProcOrder.SomeRefused`
  says when, from the declarations and the order of the walk, and loading gets through exactly when it
  does not hold and there is no circle (`ProcLoad.ProcRepo.ResolveProcs`).
- Freeing a page in incremental mode makes the pool hand out a live one, unless the page freed was the last
  one handed out (`MemPool.BumpHandsOutHeldPage`, `MemPool.SizeClass.Free`).
- The two resets of the pool only work together (`ResetCapacity`, `ResetCounter`).
- Two writers inside one cache cell, or data stored twice, free what a reader holds
  (`CacheRuns.TwoWritersFreeHeldData`, `SameDataFreedWhileHeld`). Runs that keep to both rules `SoloClaim`
  and `FreshData` are safe (`CacheCells.CacheHolds`); how many writers, readers and cells are safe with one rule
  alone is told by `FreshSafeExactly` and `SoloSafeExactly`.

## Model

| member | source | states |
|---|---|---|
| `Digraph.ReachSetShrinks` | src/knd_class.resolve.c:311-352 | along every edge off a node with no cycle below it, what can be reached gets strictly smaller: why the depth-first walks end |
| `Digraph.CycleFreeFromSuccessors` | src/knd_class.resolve.c:376-395 | a node whose successors have no cycle below them, and which is not its own successor, has none below it either |
| `ClassSchema.InheritsByBase` | src/knd_class.resolve.c:189-230 | what a class inherits is, base by base, the base itself and what the base inherits that is no state top |
| `ClassSchema.Inherit` | src/knd_class.resolve.c:55-117 | merging a base index adds its attributes and loses none |
| `ClassSchema.ClassIdxKeys` | src/knd_class.resolve.c:55-141 | a resolved index has exactly the attributes declared by the class or by a class it reaches through bases |
| `BaseResolve.LinkAncestor` | src/knd_class.resolve.c:143-187 | the ancestor list gains the class in front unless it has it already |
| `BaseResolve.LinkBaseclass` | src/knd_class.resolve.c:189-230 | the ancestor list gains, as a set, the base and those of its ancestors that are no state top; as a list it has the base in front, then the newcomers, last one first, then what it held |
| `BaseResolve.JoinedBehind` | src/knd_class.resolve.c:143-187 | what the list held stays behind the newcomers, each of which is there once |
| `BaseResolve.ResolveBaseclass` | src/knd_class.resolve.c:245-299 | one base clause: the base ends up resolved and linked, flags are only raised, and a failure means a base cycle, a resolution under way or a self reference below |
| `BaseResolve.ResolveBaseclasses` | src/knd_class.resolve.c:232-309 | all base clauses, with the whole first-stage invariant kept; a failure is explained by an obstacle reachable through bases |
| `BaseResolve.ResolveBase` | src/knd_class.resolve.c:376-395 | success leaves nothing newly half done and base_is_resolved set; failure means a cycle or a class under way is reachable; with nothing under way and no self reference below it succeeds exactly when no base cycle is reachable; termination by the classes not yet flagged |
| `BaseResolve.BelowResolved` | src/knd_class.resolve.c:245-299 | base_is_resolved of a class implies that of every class it reaches through bases |
| `ClassResolve.ResolvePrimaryAttrs` | src/knd_attr.resolve.c:155-279 | succeeds exactly when no attribute name is declared twice, and then the index holds the declared attributes |
| `ClassResolve.InheritAttr` | src/knd_class.resolve.c:55-117 | one attribute of a base: added, or overriding with a value if the base holds one |
| `ClassResolve.InheritFrom` | src/knd_class.resolve.c:119-141 | merging a base index gives the same result in whatever order the set yields it |
| `ClassResolve.EnsureResolved` | src/knd_class.resolve.c:119-126 | a class needed on the way ends up resolved, or its failure is one of the caller's |
| `ClassResolve.ResolveAttrVars` | src/knd_attr_var.resolve.c:534-612 | own values override, each only for an attribute the index has by then, and the classes they need get resolved |
| `ClassResolve.ResolveClause` | src/knd_class.resolve.c:343-351 | after k clauses the index is the merged index of the first k clauses |
| `ClassResolve.ResolveClass` | src/knd_class.resolve.c:311-374 | success keeps the invariant over all classes and resolves the class; failure means a dependency cycle, a class under way or a mis-declared attribute is reachable; termination by the classes not yet begun |
| `ClassLoad.ResolveClasses` | src/knd_repo.gsl.c:430-460 | loading succeeds exactly when every class is free of dependency cycles and mis-declared attributes below it |
| `ClassLoad.ResolvedIsResolvable` | src/knd_class.resolve.c:311-374 | a resolved class is free of cycles below it and its index is the merged index of its clauses |
| `ClassLoad.AncestorsExact` | src/knd_class.resolve.c:143-309 | the ancestor list is, as a set, the direct bases and every class reachable through bases that is no state top |
| `ClassLoad.IsBase` | src/knd_class.c:469-497 | the walk over the ancestor list decides exactly that |
| `ClassLoad.GetAttr` | src/knd_class.c:499-521 | an attribute is found by name exactly when the class, or one it reaches, declares one |
| `BaseResolve.BaseBlockedIffCyclic` | src/knd_class.resolve.c:376-395 | with clear flags and no self reference, what blocks the first stage is exactly a reachable base cycle |
| `ClassLoad.SelfNamingNeverResolves` | src/knd_class.resolve.c:245-253 | a class with an update clause for itself never resolves, nor does anything that depends on it |
| `ClassMeaning.LastWriteConcat` | src/knd_attr_var.resolve.c:551-557 | the last value of two stretches of a walk is that of the second, if it has one |
| `ClassMeaning.AssignHeld` | src/knd_attr_var.resolve.c:551-557 | after own values an attribute holds the last own value, or what it held before |
| `ClassMeaning.MergedIsLastWrite` | src/knd_class.resolve.c:343-351 | through any depth of diamonds an attribute holds the last value on a full walk over bases and own values |
| `ClassMeaning.ClassIdxMeaning` | src/knd_class.resolve.c:311-374 | keys and values of a resolved index, told from the declarations alone |
| `ClassRead.Reader.InheritBaseAttr` | src/knd_class.read.c:78-119 | one attribute of a base, with its three cases, amounts to filling a gap |
| `ClassRead.Reader.SetBaseclass` | src/knd_class.read.c:121-160 | mapping it over a base index fills all gaps, in any order |
| `ClassRead.Reader.BuildAttrVar` | src/knd_attr_var.read.c:570-616 | an own value overrides; it is refused for an attribute the index lacks |
| `ClassRead.Reader.ReadAttr` | src/knd_class.read.c:581-643 | a declared attribute is refused when its id is in the index already |
| `ClassRead.Reader.ReadClause` | src/knd_class.read.c:186-231 | one base clause is accepted exactly when all its values are for attributes the base or the index has, and then fills gaps before it overrides |
| `ClassRead.Reader.ReadClauses` | src/knd_class.read.c:233-243 | the base clauses are accepted exactly when each sets inherited attributes only |
| `ClassRead.Reader.ReadAttrs` | src/knd_class.read.c:581-643 | the declared attributes are accepted exactly when none is in the index already |
| `ClassRead.Reader.ReadRecord` | src/knd_class.read.c:662-748 | a record is accepted exactly when its clauses set inherited attributes only and it declares none it inherits, and then the index is the one defined by filling gaps |
| `ClassRead.ReadIdxKeys` | src/knd_class.read.c:78-160 | a class read back has exactly the attributes it has when resolved |
| `ClassAgree.DivergedUpTo` | src/knd_class.read.c:90-103 | clause by clause the reader's and the resolver's value of an attribute differ exactly when a conflict the reader logs is left unsettled by every later clause |
| `ClassAgree.AgreeIffSettled` | src/knd_class.read.c:78-160 | with bases that agree, the two indices of a class are equal exactly when no such conflict is left |
| `ClassAgree.ReadAgreesWithResolve` | src/knd_class.resolve.c:55-117 | the two implementations agree on a class and all it depends on exactly when none of these classes leaves a conflict unsettled |
| `ClassAgree.NoConflictAgree` | src/knd_class.read.c:90-103 | where no base supplies a value different from the first one merged, they agree |
| `ClassDiamond.DiamondDisagrees` | src/knd_class.read.c:90-103 | a diamond on which they do not: the reader keeps the first base's value, the resolver takes the second's |
| `ClassIndex.Index.IndexAncestor` | src/knd_class.index.c:84-145 | the class joins the descendants of one ancestor, counted only if new |
| `ClassIndex.Index.IndexAncestors` | src/knd_class.index.c:194-199 | and of every ancestor of a base that is no state top, however often the list repeats it |
| `ClassIndex.Index.IndexBaseclass` | src/knd_class.index.c:155-223 | registering with a base fails exactly when the class is a descendant of it already, leaving one terminal too many; otherwise it joins the base, its child list and its visible ancestors |
| `ClassIndex.Index.IndexBaseclasses` | src/knd_class.index.c:225-239 | succeeds exactly when no base comes after itself or after a base that visibly inherits from it |
| `ClassIndex.Index.RegisterWithBases` | src/knd_class.index.c:273-280 | a class without base clauses is registered with the root; in all, with exactly what is-a and is-a-base say |
| `ClassIndex.Index.IndexClass` | src/knd_class.index.c:254-296 | fails exactly on such bases or on a class under way; otherwise keeps the invariant over all pairs of classes, puts the class once and in front into the child lists of its bases and no others, and changes the flags of no other class |
| `ClassIndex.Index.IndexClasses` | src/knd_repo.gsl.c:396-428 | indexing a repo gets through exactly when every class has bases of that kind, and then every child list holds the classes with that base in reverse order of indexing |
| `ClassIndex.TouchedIsInherited` | src/knd_class.index.c:194-220 | clause by clause a class is registered with exactly what it inherits |
| `ClassIndex.Duality` | src/knd_class.index.c:84-239 | c is in descendants(b) exactly when b is in ancestors(c), and in the list of children(b) exactly once when b is a base of c, else not at all |
| `ClassIndex.TerminalsCounted` | src/knd_class.index.c:130-202 | num_terminals is the size of the descendant set, which after a full load is all classes that inherit |
| `ClassIndex.ResolvedIsIndexable` | src/knd_repo.gsl.c:396-460 | what resolving leaves is what indexing asks for |
| `ClassIndex.ShortcutNotIndexable` | src/knd_class.index.c:201-220 | a schema whose classes all resolve, with a class that lists a base of its base last: it cannot be indexed |
| `ClassQuery.LoadClasses` | src/knd_repo.gsl.c:638-660 | from new records, resolving and then indexing a repo gets through exactly when every class is resolvable and has no bases in each other's way, and leaves all of them indexed |
| `ClassQuery.LoadedIsIndexed` | src/knd_class.select.c:147-177 | the records of a loaded repo, root included, are what faceting asks for |
| `FacetPath.FirstChild` | src/knd_class.select.c:117-131 | the child to descend to derives the element and is not the element; with none, the element is a child or no child is its ancestor |
| `FacetPath.FirstChildFirst` | src/knd_class.select.c:117-131 | the first child in the list that is the element or an ancestor of it decides |
| `FacetPath.Descend` | src/knd_class.select.c:124-128 | each descent leaves less between the facet and the element: the recursion ends |
| `FacetPath.PathEnd` | src/knd_class.select.c:117-131 | the walk goes down base edges through classes the element inherits, and ends at a direct base unless the element is stuck where it ends |
| `FacetPath.StuckStays` | src/knd_class.select.c:117-131 | whatever the order of the lists, an element goes no further than a class it is stuck at: one it inherits, of whose subclasses none that the element is or derives from is in the element's ancestor list |
| `FacetPath.StuckExactly` | src/knd_class.select.c:117-131 | the classes, not its bases, that an element can end up under, over all lists and entries, are exactly those it is stuck at |
| `FacetPath.DirectBaseExactly` | src/knd_class.select.c:117-131 | every walk in every lineage of a schema ends at a direct base exactly when the schema has no element and class where it is stuck |
| `FacetPath.DirectBase` | src/knd_class.select.c:117-131 | where state tops have no bases it always ends at a direct base |
| `FacetPath.HiddenTopGetsStuck` | src/knd_class.select.c:117-131 | a schema with a state top in the middle on which it does not |
| `FacetPath.HiddenTopIndexable` | src/knd_class.select.c:117-131 | that schema can be loaded |
| `FacetTree.InsertFiles` | src/knd_class.select.c:90-145 | one insertion files the element once, under the last facet of its path, and nothing else |
| `FacetTree.InsertCounts` | src/knd_class.select.c:113-113 | and raises the sum over the children by one |
| `FacetTree.InsertKeepsCounts` | src/knd_class.select.c:98-113 | siblings stay distinct and every facet counts its own elements and its children's |
| `FacetTree.Facet.FetchChild` | src/knd_class.select.c:99-109 | the facet of a class is found, or made in front of the list |
| `FacetTree.Facet.UpdateSubset` | src/knd_class.select.c:90-145 | the tree in memory changes by exactly one insertion along the path of the element |
| `FacetTree.Facet.Take` | src/knd_class.select.c:113-144 | counting, then descending or filing, in one facet |
| `FacetTree.FindChild` | src/knd_class.select.c:117-131 | the two loops find that child |
| `FacetTree.FindEntry` | src/knd_class.select.c:162-175 | the two loops find the first ancestor that is a child of the base |
| `FacetTree.EntryFirst` | src/knd_class.select.c:162-175 | the first ancestor in the list that is a child of the base is the entry |
| `FacetTree.FacetizeClass` | src/knd_class.select.c:147-177 | an element with no such ancestor leaves the tree alone, any other is inserted |
| `FacetTree.CreateSubsets` | src/knd_class.select.c:179-199 | the tree is the one got by inserting all elements, in any order |
| `FacetTree.FacetTreeHolds` | src/knd_class.select.c:90-199 | each element with a child of the base among its ancestors occurs once, under its home, a class it inherits, a direct base unless it is stuck there; the others nowhere; siblings distinct, counts adding up |
| `FacetShape.InsertAt` | src/knd_class.select.c:90-145 | place by place in the tree: an insertion counts the element in every facet on its path, adds the next facet in front where it is missing, files the element at the end of the path, and changes no other place |
| `FacetShape.SubsetsAt` | src/knd_class.select.c:90-199 | the whole tree of a query, place by place and in order: the elements whose path ends there, the number of those whose path goes through, and the classes their paths go on to |
| `FacetShape.TreeByPath` | src/knd_class.select.c:90-199 | at a chain of classes lie exactly the elements whose path it is, num_elems is the number of elements whose path goes through it, and a facet lies below it exactly if some path goes on there |
| `FacetShape.PlacedUnderBase` | src/knd_class.select.c:117-131 | the class of a facet below the first level derives directly from that of the facet above |
| `FacetTree.StuckIsHome` | src/knd_class.select.c:147-177 | where an element is stuck, some lineage and query file it there |
| `FacetTree.FiledDirectlyExactly` | src/knd_class.select.c:90-199 | every query on every lineage of a schema files every element under a direct base exactly when nothing in the schema is stuck |
| `CommitProtocol.HeadNumid` | src/knd_repo.commit.c:166-172 | the numid of the head is the length of the chain |
| `CommitProtocol.RivalForcesRescan` | src/knd_repo.commit.c:163-180 | the swap can succeed exactly when nobody joined the chain since the head was loaded; what a task does after a failed one is told by ConfirmsAlone |
| `CommitProtocol.ReadKeeps` | src/knd_repo.commit.c:127-142 | reading one state of the scan: a rival on the chain was confirmed, or goes down as missed |
| `CommitProtocol.OthersFiled` | src/knd_repo.commit.c:224-228 | filing a state bothers no other task: the filing commit is on no chain |
| `CommitProtocol.OthersSwapped` | src/knd_repo.commit.c:180-180 | nor does a commit joining the chain, for what was scanned against a shorter one |
| `CommitProtocol.SwapKeeps` | src/knd_repo.commit.c:180-180 | a commit that swaps in has scanned every state filed before it |
| `CommitProtocol.RunKeepsInv` | src/knd_repo.commit.c:154-189 | every step of every task, in any interleaving, keeps the invariant |
| `CommitSafety.ChainHolds` | src/knd_repo.commit.c:154-189 | numids fall by one along prev down to 1, no commit repeats, confirmed commits are on the chain and conflicting ones not, and num_commits lags the chain by the tasks between swap and count |
| `CommitSafety.MissedExactly` | src/knd_repo.commit.c:180-182 | two commits on the chain have states under one item exactly when the later one read the earlier between its swap and its VALID store |
| `CommitSafety.UniqueIffNothingMissed` | src/knd_repo.commit.c:101-189 | with one item to a name, no name is created twice on the chain exactly when nothing was missed |
| `CommitSafety.FusedUnique` | src/knd_repo.commit.c:101-189 | with one item to a name and swap and store in one step, at most one commit that creates a name is ever confirmed |
| `CommitRuns.WindowLosesARival` | src/knd_repo.commit.c:180-182 | with them apart, any two commits with a common name can both be confirmed |
| `CommitRuns.WindowUniqueExactly` | src/knd_repo.commit.c:101-189 | with one item to a name, all runs confirm each name at most once exactly when no two of the commits create the same name |
| `CommitSafety.FreshNeverConflicts` | src/knd_shared_dict.c:100-118 | as the dict files states, an item for each commit, no commit ever ends in conflict |
| `CommitRuns.ConfirmsAlone` | src/knd_repo.commit.c:154-189 | wherever a task is before its swap, failed swaps included: if no other state under its items is confirmed it can, left alone, get confirmed, with the numid after that of the head and the head as its prev |
| `CommitRuns.DoomedStays` | src/knd_repo.commit.c:127-142 | a confirmed rival that a task has yet to read stays one in every step of every task |
| `CommitRuns.ConfirmableExactly` | src/knd_repo.commit.c:101-189 | a commit that is filing or about to load the head can still be confirmed, in some continuation, exactly if no other state under its items is confirmed |
| `CommitRuns.LogsAlone` | src/knd_repo.commit.c:180-189 | once swapped in a task finishes by itself: its commit is counted once, and logged, and PERSISTENT if the log is kept, else VALID |
| `CommitRuns.PersistentExactly` | src/knd_repo.commit.c:357-361 | in every run a commit is PERSISTENT exactly if its record was appended to a log that is kept |
| `CommitRuns.FreshConfirms` | src/knd_repo.commit.c:154-189 | with the dict's filing any commit that has not swapped in yet, whatever number of classes it creates and wherever its task is, can be confirmed, whoever confirmed their names before |
| `CommitRuns.FreshFilingLosesARival` | src/knd_shared_dict.c:89-118 | for any two commits with a common name a run with that filing, one task after the other, in which both are confirmed |
| `CommitRuns.FreshUniqueExactly` | src/knd_shared_dict.c:89-118 | with that filing all runs confirm each name at most once exactly when no two of the commits create the same name |
| `SharedDict.Newest` | src/knd_shared_dict.c:80-88 | the search yields the newest item of the key, if any |
| `SharedDict.OverlapsRefused` | src/knd_shared_dict.c:68-144 | of two insertions of a key the later one loaded the head after the earlier had pushed; an earlier item exists exactly when the search found one |
| `SharedDict.RefusedIsPresent` | src/knd_shared_dict.c:89-141 | only a key already there is refused; num_items lags the items by the tasks between swap and count |
| `SharedDict.FoundRemoved` | src/knd_shared_dict.c:89-97 | where no commit shares its key with another task, a search that goes on past an item it found has found a removed one |
| `SharedDict.LiveUniqueExactly` | src/knd_shared_dict.c:89-141 | with items removed and set valid at any time, a key has at most one item that is not removed, in every run, exactly when no commit shares its key with another task |
| `SharedDict.KeysUniqueExactly` | src/knd_shared_dict.c:89-141 | as long as no phase is set, a key is never there twice, in any run, exactly under the same condition |
| `SharedDict.PendingStopsNobody` | src/knd_shared_dict.c:89-97 | the pending item of a commit stops no later insertion of its key, by a commit or outside any: for any two such tasks a run that pushes both |
| `SharedDict.FinishesAlone` | src/knd_shared_dict.c:68-144 | from any state of any run a task gets done by itself: it stores its key, in one new item in front, exactly if the newest item its search sees is not valid and none of the key came since, and is refused otherwise, changing nothing |
| `FacetPath.PathUnfold` | src/knd_class.select.c:117-131 | one step of the walk, and that it stays among ancestors of the element |
| `SharedPool.StepKeepsList` | src/knd_mempool.c:121-131 | a successful swap installs the successor of the head in the initial list, and nothing else moves the head |
| `SharedPool.StepKeepsOwners` | src/knd_mempool.c:84-137 | a page popped goes to the task that popped it and to no other |
| `SharedPool.PoolHolds` | src/knd_mempool.c:84-137 | in every interleaving, with owners overwriting their pages, the list is a suffix of the initial one, a page off it belongs to exactly one task, and the counter lags by the tasks between swap and count |
| `SharedPool.RefusedWhenAllOut` | src/knd_mempool.c:124-124 | a request is refused only when every page belongs to some task |
| `SharedPool.GetsPageAlone` | src/knd_mempool.c:111-135 | from any state of any run, failed swaps included, a task left alone gets the first page listed, or the one it has popped, counted once |
| `SharedPool.StaleLinkRead` | src/knd_mempool.c:125-125 | a slow task does read a link its new owner has overwritten |
| `CacheCells.WriterKeepsReaders` | src/knd_cache.c:52-66 | no step of a writer takes the data away from a reader or makes its release fail |
| `CacheCells.ReaderKeepsCells` | src/knd_cache.c:82-125 | entering and leaving keep the count equal to the readers inside |
| `CacheCells.ReaderKeepsReaders` | src/knd_cache.c:108-125 | what a reader got stays in its cell, so its release compares equal and finds a positive count |
| `CacheCells.WriterKeepsWriters` | src/knd_cache.c:49-66 | a cell has at most one writer inside, and then counts -1 |
| `CacheCells.WriterKeepsPlaces` | src/knd_cache.c:59-75 | no data is in two places: a cell, on its way in, or on its way out |
| `CacheCells.SwapMoves` | src/knd_cache.c:60-63 | a swap of the data caches what the writer brought and dooms what was there |
| `CacheCells.RunKeepsInv` | src/knd_cache.c:17-125 | every step that follows the two rules of use keeps the invariant, for any number of readers, writers and cells |
| `CacheCells.CacheHolds` | src/knd_cache.c:17-125 | a count other than -1 is the number of readers between get and release, -1 means there are none, data held is still in its cell, data about to be freed is held by nobody, and no release is refused |
| `CacheCells.FailedSwapCloses` | src/knd_cache.c:60-63 | a data swap that fails leaves the cell claimed by nobody and closed to readers |
| `CacheCells.CountsHold` | src/knd_cache.c:27-124 | in every run, keeping the rules or not, no count falls below -1, and a reader about to lower one has read more than 0 |
| `CacheCells.PendingKept` | src/knd_cache.c:52-63 | whatever fails, a writer keeps the data it brought until its own swap puts it into a cell |
| `CacheRuns.ReleasesAlone` | src/knd_cache.c:103-125 | from any state of a run that keeps the rules, a reader holding data can release it by itself: it succeeds and its cell counts one reader less |
| `CacheRuns.GetsAlone` | src/knd_cache.c:78-101 | a reader gets into a cell that no writer has claimed, whatever count it read before, and holds that cell's data |
| `CacheRuns.StoresAlone` | src/knd_cache.c:29-76 | a writer with data stores it by itself in the cell it has claimed, or in any cell without readers, and leaves it open |
| `CacheRuns.TwoWritersFreeHeldData` | src/knd_cache.c:52-63 | without the first rule: of any two writers one claims from -1 to -1 and frees what a reader holds |
| `CacheRuns.FreshSafeExactly` | src/knd_cache.c:17-125 | keeping to the second rule only, all runs are safe exactly when there are not two writers, or no reader, or no cell |
| `CacheRuns.SameDataFreedWhileHeld` | src/knd_cache.c:60-75 | without the second: one writer storing the same data again frees it while a reader holds it |
| `CacheRuns.SoloSafeExactly` | src/knd_cache.c:17-125 | keeping to the first rule only, all runs are safe exactly when there is no writer, no reader or no cell |
| `LazyAcquire.StepKeepsInv` | src/knd_class.read.c:763-785 | no step changes an installed pointer |
| `LazyAcquire.RunKeepsInv` | src/knd_class.read.c:763-785 | from any point of any run on, an installed pointer stays what it is |
| `LazyAcquire.AcquireHolds` | src/knd_class_inst.read.c:63-80 | all tasks that come back with an object come back with the installed one, which one task built; no task builds twice |
| `LazyAcquire.FailsExactly` | src/knd_class.read.c:750-785 | in every run a task comes back with an error exactly if building failed on it |
| `LazyAcquire.GetsObject` | src/knd_class.read.c:763-785 | from any state of any run a task that is not back gets the object by itself, and builds exactly if it has none and found nothing installed |
| `MemPool.PagesApart` | src/knd_mempool.c:223-226 | pages stay inside the buffer and do not overlap |
| `MemPool.DistinctPages` | src/knd_mempool.c:305-314 | the pages have distinct addresses |
| `MemPool.ListsElsewhere` | src/knd_mempool.c:241-275 | writing into a page off the list leaves the list as it is |
| `MemPool.SizeClass.BuildLinkedList` | src/knd_mempool.c:305-314 | every page is threaded once, in address order, whatever was there before |
| `MemPool.SizeClass.GetPage` | src/knd_mempool.c:139-173 | the first free page moves to the held ones; refused exactly when none is free |
| `MemPool.SizeClass.BumpPage` | src/knd_mempool.c:192-228 | the page at the counter's offset, not held by anyone; refused exactly when all pages are out |
| `MemPool.SizeClass.Free` | src/knd_mempool.c:241-275 | list mode: the page becomes the first free one and pages stay split into an acyclic free list and held ones; incremental mode: the next page handed out is one still held unless the last one was freed |
| `MemPool.BumpHandsOutHeldPage` | src/knd_mempool.c:192-275 | two pages by offset, the first freed: the next request gets the second, still held |
| `MemPool.SizeClass.ResetCapacity` | src/knd_mempool.c:316-334 | relinks all pages but not the counter: the split holds again exactly if that was 0 |
| `MemPool.SizeClass.ResetCounter` | src/knd_mempool.c:231-239 | zeroes the counter: alone it keeps the split exactly if nothing was held, after a relink it restores the state after allocation |
| `MemPool.Pool.Page` | src/knd_mempool.c:175-229 | in both modes a page of the size asked for, the types without pages of their own being served from the base pages, that nobody holds; refused exactly when all of that size are held; no other size class changes |
| `MemPool.Pool.Free` | src/knd_mempool.c:241-275 | the page goes in front of the free list of its size class, the types without pages of their own sharing the base pages, and no other class changes; list mode keeps its invariant, incremental mode hands out a held page next unless the last one was freed |
| `MemPool.Pool.Reset` | src/knd_mempool.c:231-239 | all counters are zeroed, the one of the small pages twice |
| `MemPool.Pool.ResetCapacity` | src/knd_mempool.c:316-334 | all size classes are relinked and no counter changes |
| `MemPool.HeldCounted` | src/knd_mempool.c:170-171 | in both modes the counter is the number of pages held |
| `ProcResolve.DerivedResolved` | src/knd_proc.resolve.c:211-223 | all a resolved proc derives from is resolved |
| `ProcResolve.FirstMatchOwner` | src/knd_proc.c:150-157 | if the chain has an argument of the proc or an ancestor, the walk ends at one |
| `ProcResolve.LookupExact` | src/knd_proc.c:120-165 | the lookup succeeds exactly when the merged index has an argument of that name, which is when the proc or one it derives from declares one; also when the walk ends without a match |
| `ProcLoad.ProcRepo.IndexArgs` | src/knd_proc.resolve.c:247-263 | the declared arguments, each once and no others, are registered in order under the next ids, in front of their chains and in the index of the proc |
| `ProcLoad.ProcRepo.LinkAncestor` | src/knd_proc.resolve.c:113-156 | one ancestor is linked unless it is there |
| `ProcLoad.ProcRepo.LinkBase` | src/knd_proc.resolve.c:158-196 | the ancestors gain the base, in front, and all it derives from |
| `ProcLoad.ProcRepo.ResolveBases` | src/knd_proc.resolve.c:198-225 | all bases are resolved and linked; a circle is reported only if there is one below |
| `ProcLoad.ProcRepo.InheritArg` | src/knd_proc.resolve.c:26-63 | an argument is added, or takes the base's value if there is one |
| `ProcLoad.ProcRepo.InheritArgs` | src/knd_proc.resolve.c:65-86 | the same for a whole index, in any order |
| `ProcLoad.ProcRepo.ResolveArgVar` | src/knd_proc_arg.c:496-539 | a value goes to the argument the lookup finds, and is refused when that finds none |
| `ProcLoad.ProcRepo.GiveValues` | src/knd_proc.resolve.c:270-280 | the values of one base clause: refused exactly when one names an argument whose last reached declarer, of all procs the proc derives from, does not come with the bases merged so far; otherwise each goes to that declarer's argument |
| `ProcLoad.ProcRepo.MergeBases` | src/knd_proc.resolve.c:270-280 | a value is refused exactly when the declarations and the order in which procs were reached say so; otherwise the index holds the arguments of what the proc derives from, with the values that ValueIsLast reads off the declarations |
| `ProcLoad.ProcRepo.ResolveProc` | src/knd_proc.resolve.c:227-291 | success keeps the invariant over all procs, disturbs none begun before, reaches procs in the order of the declarations, and rules out a circle below; a reported circle is one, a refused value is that of a proc reached by then; termination by the procs not yet begun |
| `ProcLoad.ProcRepo.FindArg` | src/knd_proc.c:120-165 | the cursor loop computes the lookup |
| `ProcLoad.ProcRepo.IsBase` | src/knd_proc.c:167-207 | the walk over the ancestors decides membership |
| `ProcLoad.ProcRepo.ResolveProcs` | src/knd_repo.gsl.c:462-519 | loading gets through exactly when no proc is above a circle and no proc reached has a refused value, both told from the declarations and the order of the name index; a circle or a refusal reported is one |
| `ProcMoves.LinkedAll` | src/knd_proc.resolve.c:211-223 | once all bases are linked the ancestors are exactly what the proc derives from, and it is on no circle |
| `ProcMoves.RegisteredInv` | src/knd_repo.c:333-375 | registering an argument of a proc under way disturbs no resolved proc |
| `ProcOrder.FirstMatchNewest` | src/knd_proc.c:150-157 | chains fall by id, so the first match is the newest argument of the name that the proc or an ancestor declares |
| `ProcOrder.LookupNewest` | src/knd_proc.c:120-165 | at any point of the merging, the lookup yields an argument exactly when the index holds the newest one of that name among all the proc derives from |
| `ProcOrder.NewestIsLast` | src/knd_repo.c:333-375 | the newest argument of a name is that of the declarer reached last: the condition on ids is one on the order of the declarations |
| `ProcOrder.LookupApproved` | src/knd_proc_arg.c:508-509 | with k bases merged, a value is accepted exactly when the last reached declarer comes with those bases |
| `ProcOrder.RefusedStable` | src/knd_proc.resolve.c:227-291 | whether a proc has a refused value is settled once all it derives from is reached |
| `ProcOrder.ValueStable` | src/knd_proc.resolve.c:26-63 | what value an argument has in the index of a proc is not changed by arguments registered for procs it does not derive from |
| `ProcOrder.InheritValued` | src/knd_proc.resolve.c:26-63 | merging the index of a base gives every argument the value the base holds, or leaves it the one it had |
| `ProcOrder.ResolvedReached` | src/knd_proc.resolve.c:227-291 | a resolved proc is above no circle, has no refused value, and its index holds the values the declarations give |
| `ProcMeaning.NewestGoes` | src/knd_proc.c:120-165 | the newest argument of a name that a proc can draw on is the last one of the proc that declares it and was reached last |
| `ProcMeaning.LastForConcat` | src/knd_proc.resolve.c:26-63 | the last value of two stretches of a trace that goes to an argument is that of the second, if it has one |
| `ProcMeaning.ValueIsLast` | src/knd_proc.resolve.c:265-280 | through any depth of diamonds an argument holds the last value given to it on the trace: clause by clause, all that the base is given, then the clause's own values |
| `ProcMeaning.ResolvedMeaning` | src/knd_proc.resolve.c:227-291 | keys and values of the index of every resolved proc, told from the declarations and the order in which procs were reached |
| `ProcLoad.TwoBasesRefused` | src/knd_proc_arg.c:508-509 | three procs, the first setting an argument of its first base that its second base declares too: that value is refused |
| `ProcLoad.SecondBaseHidesArg` | src/knd_proc_arg.c:508-509 | and loading these procs from new records stops there, refusing an argument the proc does have |
| `AttrHubs.HubTable.FetchHub` | src/knd_attr_var.index.c:43-65 | the hub of an attribute is found, or made in front of the list; each attribute keeps one hub |
| `AttrHubs.HubTable.AddClassref` | src/knd_attr_var.index.c:115-140 | one hub gains one topic, no other hub changes |
| `AttrHubs.HubTable.IndexRef` | src/knd_attr_var.index.c:232-250 | the class a reference names gains the topic |
| `AttrHubs.HubTable.IndexInner` | src/knd_attr_var.index.c:164-230 | so do the class of an implied reference and those of nested indexed references, and no others |
| `AttrHubs.HubTable.IndexAttrVar` | src/knd_attr_var.index.c:312-338 | dispatch by attribute type amounts to the definition of what a value refers to |
| `AttrHubs.HubTable.IndexList` | src/knd_attr_var.index.c:368-404 | every class in a list of references gains the topic |
| `AttrHubs.HubTable.IndexAttr` | src/knd_class.index.c:52-82 | only indexed attributes with a value the class gives itself count |
| `AttrHubs.HubTable.IndexAttrs` | src/knd_class.index.c:285-287 | a whole attribute index, in any order |
| `AttrHubs.HubTable.IndexTopics` | src/knd_class.index.c:254-296 | one hub an attribute in every class, and a topic is in it exactly when it gives that attribute, itself, an indexed value that refers to the class |
| `AttrHubs.IndexRepo` | src/knd_repo.gsl.c:396-428 | the same for a whole repo, starting without hubs |
| `Dict.Find` | src/knd_dict.c:52-62 | the walk yields the first item of the key |
| `Dict.Pushed` | src/knd_dict.c:88-95 | a new item in front decides its key and no other, and keeps only the first item of a key valid |
| `Dict.BuriedLookup` | src/knd_dict.c:109-122 | a tombstone removes its key and no other |
| `Dict.Dict.Get` | src/knd_dict.c:47-64 | get is lookup in the map, for any hash function |
| `Dict.Dict.FindItem` | src/knd_dict.c:75-83 | the walk over the chain of the bucket ends at the first item of the key |
| `Dict.Dict.Set` | src/knd_dict.c:66-101 | set conflicts exactly on present keys and otherwise adds; a removed key can be added again |
| `Dict.Dict.Bury` | src/knd_dict.c:109-122 | marking that item removed takes the key, and no other, out of the map |
| `Dict.Dict.Remove` | src/knd_dict.c:103-124 | remove fails exactly on a key never added; on one that is gone already it succeeds and lowers num_keys again |
| `Dict.Dict.Reset` | src/knd_dict.c:134-137 | empties the map and leaves the counters |
| `Dict.CounterRight` | src/knd_dict.c:97-122 | num_keys is the size of the map exactly when it has not fallen behind, modulo the word size |

## Left out

- ProcLoad.ProcRepo.ResolveArgVar: does not model the class templates of argument values, which are checked against classes.
- ClassResolve.ResolvePrimaryAttrs: every template class and proc an attribute names is taken to exist; the lookups of these names, and their failures, are left out.
- ClassResolve.ResolveAttrVars: a value names the attribute it was found to mean; two attributes of one name inherited from different bases, where the set order decides, are not told apart by name here. Parsing and checking of the value itself is left out.
- Pointer aliasing between class records: the class and proc records of a repo are one mutable map from names to records, not one heap object each.
- Modes other than bulk load: there `register_attr` and `knd_repo_index_proc_arg` fill task-local dicts instead of the index of the class or proc.
- Cross-repo inheritance, clones and base repos: the lookups by `repo` and `orig` are not part of this model.
- Failing allocations: every page request of the load and index code succeeds, except in the allocator itself.
- `num_children`: in bulk load it is raised twice a child (src/knd_class.index.c:152 and 189); the child list is modelled instead.
- Ids of classes, and their order in a set: sets are finite maps, and where a set is traversed the model allows any order.
- Reading of records other than base clauses, own values and declared attributes: ancestors, children and hubs stored in a snapshot are left out.
- CommitProtocol: commits restored by `knd_apply_commit`, the WAL file, and a commit whose filing is refused because the name is registered outside any commit, which never reaches the check.
- SharedDict: buckets other than that of the key, which no insertion of the key touches.
- SharedPool: size classes are independent, so one list is modelled; freeing into a shared pool writes into the freed page and changes nothing a pop reads, so it is a write by the holder.
- CacheCells: the choice of a cell is arbitrary; the wrap-around of the search (src/knd_cache.c:31-35) cannot run, and the start index can underflow (src/knd_cache.c:23).
- LazyAcquire: reading the object back is one step that may fail.
- Instance hubs (`inst_attr_hub_fetch`, `index_inst_ref`) repeat the class hubs for instances.
- Weak memory orders: steps are sequentially consistent.
- GSL parsing and import, text output, journals and snapshots on disk, the HTTP service, `knd_queue.c`, computed attributes, query matching and class removal.
