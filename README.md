# kill_tree: the process-tree core, modelled in Dafny

The `kill_tree` crate terminates a process together with all of its
descendants. It works in five steps:

1. It takes a snapshot of the running processes as a list of entries: id, parent id and name.
2. It indexes the snapshot by parent, leaving out entries a platform filter rejects. On Windows, the filter rejects the System Idle Process, which is its own parent. Each child list is sorted ascending.
3. It walks that index breadth-first from the target. The target itself is listed only when `include_target` is set.
4. It hands the ids to a platform killer in the reverse of that order, so children go before parents.
5. It turns each report into an output. A `Killed` report is enriched with the entry's parent and name, and that entry is consumed from an id-to-entry index. The first hard error ends the run.

The model covers these parts of the crate:

- **`crates/libs/kill_tree/src/common.rs`**, all of its algorithm: the two indexes, the breadth-first walk, the report parser and the driver.
- **`crates/libs/kill_tree/src/windows.rs`**, the rules that plug into that algorithm:
  - the protected ids;
  - the self-parent filter;
  - the classification of one termination attempt;
  - the loop that drains a Toolhelp snapshot.

Files:

- `core.dfy` (`Core`): the crate's types.
  - `ProcessId` and `HResult` are `u32` ranges.
  - The other types are `ProcessInfo`, `Config`, `Error`, `KillOutput`, `Output`, `Result` and `Option`.
- `process_tree.dfy` (`ProcessTree`): the reference definitions and the lemmas about them.
  - Reference definitions:
    - `SortedOf`, the ascending rearrangement;
    - `ChildMapOf`, the parent index a snapshot yields;
    - `InfoMapOf`, the id index;
    - `NextLevel`, `Bfs` and `Discovery`, the level-by-level order;
    - `KillList` and `KillOrder`;
    - `Subtree`, a process and all its descendants.
  - The lemmas state what the source promises about these definitions.
- `common.dfy` (`Common`): the functions of `common.rs`, in the source's imperative form.
  - Loops over maps and queues are proved equal to the reference definitions.
  - An in-place array sort.
  - A `Killer` class that stands for the platform killer.
  - The lemmas about a whole run of the driver.
- `windows.dfy` (`Windows`): the Windows rules, with each Win32 call replaced by the status it reports.
- `scenario.dfy` (`Scenario`): a worked Windows-like snapshot. It checks the filter, the sorted index, the kill order and a fail-fast run on concrete values.

**Acyclicity.** The breadth-first walk keeps no visited set. It therefore ends only when the index has no cycle below the target. Every member that walks the tree takes two ghost witnesses for this:

- a set `below`, which holds the target and is closed under children;
- a `rank` that strictly decreases from a parent to each of its children inside `below`.

This is `RankedBelow`. `AcyclicBelow` is the same condition read off the snapshot. On Windows the filter removes only self-loops.

**Two modelling choices:**

- `ProcessTree.KillListChildless` requires only `target !in m`: the walk never consults the snapshot.
- Snapshot ids need not be unique. The ordering lemmas assume the index is a forest (`UniqueOccurrences`): each-id-once and parents-first (`BfsNoDuplicates`, `BfsParentsFirst`, `KillListContents`), and children-first (`KillOrderDescendantsFirst`, from `KillListDescendantsAfter`). `ProcessTree.ChildMapIsForest` derives `UniqueOccurrences` from unique ids. A duplicated id can be listed under two parents and then be reached twice, which breaks each-id-once and children-first.

## Model

| member | source | states |
|---|---|---|
| Common.SortInPlace | crates/libs/kill_tree/src/common.rs:31-33 | `sort_unstable` on one child list: the array ends ascending and holds the same multiset of ids |
| Common.GroupByParent | crates/libs/kill_tree/src/common.rs:23-30 | the grouping loop: its keys are exactly the parents of entries the filter keeps; each key's list holds those entries' ids in snapshot order |
| Common.SortEachList | crates/libs/kill_tree/src/common.rs:31-33 | sorting every list leaves the keys alone and replaces each list by its ascending rearrangement |
| Common.GetChildProcessIdMap | crates/libs/kill_tree/src/common.rs:19-35 | the index built equals `ChildMapOf`: each kept parent mapped to its children's ids, ascending |
| Common.GetProcessInfoMap | crates/libs/kill_tree/src/common.rs:38-44 | the id index built equals `InfoMapOf`: every entry inserted under its id, later entries overwriting earlier ones |
| Common.GetProcessIdsToKill | crates/libs/kill_tree/src/common.rs:47-76 | the FIFO walk returns exactly `KillList`: the level-by-level breadth-first order from the target, without the target unless `includeTarget` |
| Common.PushBackAll | crates/libs/kill_tree/src/common.rs:69-73 | pushing the children one by one leaves the queue followed by the whole child list, in order |
| Common.DrainStep | crates/libs/kill_tree/src/common.rs:55-73 | one dequeue: the queue stays inside `below`, the work left strictly decreases, and the walk lists the front id and then what the new queue yields |
| Common.DrainLevels | crates/libs/kill_tree/src/common.rs:53-74 | a FIFO queue holding the rest of a level and then the children of its processed part yields the rest of that level and then every level below, in order |
| Common.ParseKillOutput | crates/libs/kill_tree/src/common.rs:78-99 | a `Killed` report for an indexed id yields `Killed` with that entry's parent and name and removes exactly that key; an unknown id yields nothing and leaves the index as it was; `MaybeAlreadyTerminated` passes through and leaves the index as it was |
| Common.ParseConsumesOnce | crates/libs/kill_tree/src/common.rs:83-94 | a second `Killed` report for the same id yields nothing; the first yields an output exactly when the id was indexed |
| Common.Killer.constructor | crates/libs/kill_tree/src/common.rs:110 | the killer starts with no attempts and a fixed report per id |
| Common.Killer.Kill | crates/libs/kill_tree/src/common.rs:115 | returns the killer's report for the id and records the attempt |
| Common.KillTreeInternal | crates/libs/kill_tree/src/common.rs:101-123 | the run returns `KillAll` over `KillOrder`, the reversed kill list, starting from the snapshot's id index; the killer is asked about exactly `Attempted(KillOrder)`: every id in that order up to the first hard error |
| Common.FirstFailure | crates/libs/kill_tree/src/common.rs:114-115 | the position of the first id the killer fails on: every earlier id succeeds, and it fails there (or no id fails) |
| Common.KillAllFailFast | crates/libs/kill_tree/src/common.rs:114-115 | the run fails exactly when some id fails; it then returns the first failure's error and attempts nothing after it; a successful run attempts every id |
| Common.KillAllFirstError | crates/libs/kill_tree/src/common.rs:114-115 | the run's error is the killer's error on the first id it fails on, and the run is `Ok` when no id fails |
| Common.AttemptedUpToFailure | crates/libs/kill_tree/src/common.rs:114-115 | the attempted ids are the order up to and including the first failure, or all of it |
| Common.KillAllOutputsBound | crates/libs/kill_tree/src/common.rs:114-122 | a successful run has no more outputs than ids in the order (counting repeated ids once per position) |
| Common.KillAllConsumesOnce | crates/libs/kill_tree/src/common.rs:112-120 | every `Killed` output carries the indexed entry for its id, and no id is reported `Killed` twice, even when the killer repeats an id |
| Common.KillAllInOrder | crates/libs/kill_tree/src/common.rs:114-122 | when the killer reports on the id it was asked about, the output ids are a subsequence of the attempt order |
| Common.WindowsKillerEchoes | crates/libs/kill_tree/src/windows.rs:52-55 | the Windows killer's reports always name the id asked about, whatever the Win32 calls report |
| ProcessTree.SortedOf | crates/libs/kill_tree/src/common.rs:31-33 | the sorted list is ascending and a permutation of its input |
| ProcessTree.SortedPermutationUnique | crates/libs/kill_tree/src/common.rs:31-33 | two ascending permutations of the same ids are equal, so an unstable sort's result is determined |
| ProcessTree.ChildIdsMembers | crates/libs/kill_tree/src/common.rs:24-30 | an id is grouped under a parent iff some entry the filter keeps has that id and that parent |
| ProcessTree.ParentsMembers | crates/libs/kill_tree/src/common.rs:28 | a parent becomes a key iff it has at least one kept child |
| ProcessTree.ChildMapShape | crates/libs/kill_tree/src/common.rs:24-33 | the index's keys are exactly the parents of kept entries; each list is non-empty, ascending and has the multiset of its kept children's ids |
| ProcessTree.ChildMapMembers | crates/libs/kill_tree/src/common.rs:24-30 | `x` is listed under `p` iff some kept entry has id `x` and parent `p` |
| ProcessTree.FilteredEntryIgnored | crates/libs/kill_tree/src/common.rs:25-27 | deleting an entry the filter rejects leaves the index unchanged |
| ProcessTree.ChildMapIsForest | crates/libs/kill_tree/src/common.rs:19-35 | with unique snapshot ids, no id is listed twice anywhere in the index |
| ProcessTree.SnapshotRanksChildMap | crates/libs/kill_tree/src/common.rs:55-73 | acyclicity read off the snapshot carries over to the index the walk uses |
| ProcessTree.NextLevelMembers | crates/libs/kill_tree/src/common.rs:69-73 | the next level holds exactly the children of the current level's members |
| ProcessTree.NextLevelLower | crates/libs/kill_tree/src/common.rs:69-73 | the next level stays inside `below`, and its height is strictly lower, which is why the walk ends |
| ProcessTree.DiscoveryFromTarget | crates/libs/kill_tree/src/common.rs:54-58 | discovery starts with the target and never meets it again |
| ProcessTree.KillListExcludesTarget | crates/libs/kill_tree/src/common.rs:56-65 | without `includeTarget` the target is never listed |
| ProcessTree.KillListStartsWithTarget | crates/libs/kill_tree/src/common.rs:54-58 | with `includeTarget` the list starts with the target and holds it exactly once |
| ProcessTree.KillListChildless | crates/libs/kill_tree/src/common.rs:69-73 | a target with no index entry yields `[target]` or `[]` |
| ProcessTree.BfsElements | crates/libs/kill_tree/src/common.rs:53-74 | the breadth-first order holds exactly the members of the level's subtrees |
| ProcessTree.BfsNoDuplicates | crates/libs/kill_tree/src/common.rs:53-74 | on a forest (`UniqueOccurrences`), from a single target (or any antichain), the breadth-first order lists each id once |
| ProcessTree.BfsParentsFirst | crates/libs/kill_tree/src/common.rs:53-74 | on a forest (`UniqueOccurrences`), from a single target (or any antichain), a parent is listed before each of its children |
| ProcessTree.KillListContents | crates/libs/kill_tree/src/common.rs:53-74 | the kill list holds exactly the target's subtree, less the target unless it is included; on a forest each id appears once and parents come first |
| ProcessTree.KillListDescendantsAfter | crates/libs/kill_tree/src/common.rs:53-74 | on a forest (`UniqueOccurrences`), in the kill list a process comes before every one of its descendants |
| ProcessTree.KillOrderDescendantsFirst | crates/libs/kill_tree/src/common.rs:113-114 | children first on a forest (`UniqueOccurrences`): in the kill order, every descendant of a process is attempted before the process |
| ProcessTree.NextLevelConcat | crates/libs/kill_tree/src/common.rs:69-73 | the next level of two concatenated levels is the two next levels, concatenated |
| ProcessTree.ChildrenInNextLevel | crates/libs/kill_tree/src/common.rs:69-73 | the next level holds each member's child list as one contiguous block, at the position given by the members before it |
| ProcessTree.BfsSiblingsTogether | crates/libs/kill_tree/src/common.rs:69-73 | for each listed process, its children appear together in the breadth-first order, in their ascending list order |
| ProcessTree.DiscoverySiblingsTogether | crates/libs/kill_tree/src/common.rs:53-74 | the same for the discovery order from the target |
| ProcessTree.InfoMapKeyedByOwnId | crates/libs/kill_tree/src/common.rs:40-42 | every entry of the id index is filed under its own id |
| ProcessTree.InfoMapKeys | crates/libs/kill_tree/src/common.rs:40-42 | the id index's keys are exactly the snapshot's ids |
| ProcessTree.InfoMapLastWins | crates/libs/kill_tree/src/common.rs:40-42 | for a repeated id the index keeps the last entry that carries it |
| Windows.ValidateProcessId | crates/libs/kill_tree/src/windows.rs:27-39 | ids 0 and 4 are refused with `InvalidProcessId` and their fixed reasons; every other id is accepted, with no upper bound |
| Windows.ChildProcessIdMapFilter | crates/libs/kill_tree/src/windows.rs:41-44 | rejects exactly the entries that name themselves as their parent |
| Windows.FilterRemovesSelfLoops | crates/libs/kill_tree/src/windows.rs:41-44 | with the Windows filter, no process is listed as its own child |
| Windows.FilterKeepsOthers | crates/libs/kill_tree/src/windows.rs:41-44 | every entry whose parent differs from its own id is listed under its parent |
| Windows.Kill | crates/libs/kill_tree/src/windows.rs:63-105 | the decision table, each row both ways: `Killed` iff open, terminate and close all succeed; `MaybeAlreadyTerminated` iff terminate is denied access (and the close succeeds) or the open reports an invalid argument; a failed close overrides the result; every other failure is returned as an error; any reported outcome names the id asked about |
| Windows.KillProcess | crates/libs/kill_tree/src/windows.rs:63-105 | the step-by-step `kill` returns the outcome the decision table `Windows.Kill` gives; after a successful open the handle is always closed, as the last call, and no handle is closed after a failed open |
| Windows.KillWithoutHandle | crates/libs/kill_tree/src/windows.rs:89-101 | when the open fails, what terminate and close would report has no effect |
| Windows.GetProcessInfos | crates/libs/kill_tree/src/windows.rs:108-161 | no snapshot: its error, with nothing to close; otherwise the handle is always closed, and closed last; the call sequence for each path; `Ok` with all entries in order exactly when everything succeeds and the walk ends with "no more files"; otherwise the close error, the size-cast error or the walk's error, in that priority |
| Scenario.SnapshotChildMap | crates/libs/kill_tree/src/common.rs:19-35 | on a Windows-like snapshot, the idle process's self-entry is left out and a child list given as 30, 20 comes out as 20, 30 |
| Scenario.ChildMapKillOrder | crates/libs/kill_tree/src/common.rs:47-76 | from `smss`: the kill list is 10, 20, 30, 40 (20, 30, 40 without the target) and the kill order is 40, 30, 20, 10 |
| Scenario.SnapshotRunFailsFast | crates/libs/kill_tree/src/common.rs:114-122 | a killer that fails on `smss` ends the run with that error after trying all four ids; without `smss` the run returns the three outputs in attempt order, `helper` passed through as `MaybeAlreadyTerminated` |

## Left out

- `crates/libs/kill_tree/src/macos.rs` and the Linux back end are not part of this model.
- The `tokio` variants in `windows.rs` are left out. They run the same blocking functions on a worker thread.
- The real Win32 calls (`OpenProcess`, `TerminateProcess`, `CloseHandle`, `CreateToolhelp32Snapshot`, `Process32First`, `Process32Next`) are replaced by the `Status` each reports.
  - Decoding the executable name from a C string is left out: names are given as strings.
  - The size of `PROCESSENTRY32` is a parameter.
- `get_available_max_process_id` is left out. It reads a platform constant that `windows.rs` does not define.
- Logging and the `From<windows::core::Error>` conversion are left out. A Windows error is kept as its HRESULT bit pattern.
- HashMap iteration order is left out. Maps are Dafny `map`s. Because every child list is sorted, the order in which the lists are visited has no effect.
- `Common.KillTreeInternal`: models `kill_tree_internal` as built on Windows.
  - It uses the Windows filter.
  - It takes the killer as an object, because the Windows `new_killer` always succeeds.
  - A killer's report is a fixed function of the id. A killer whose answers change over time is not modelled.
- `Common.KillTreeInternal` and `Common.GetProcessIdsToKill` require the index to be acyclic below the target (`RankedBelow`). On a cyclic index the source loops forever, appending to its result list without bound, and that behaviour is not modelled.
- `Common.SortInPlace` uses insertion sort for `sort_unstable`. Only the result matters, and that result is unique (`ProcessTree.SortedPermutationUnique`).
- `Common.ParseKillOutput` returns the updated index rather than removing the entry through `&mut`. The driver threads that returned index through its loop.
- `Common.GetChildProcessIdMap` runs its two loops (grouping and sorting) as two helper methods, `GroupByParent` and `SortEachList`.
- `Common.Killer.Kill` records the ids it is asked about as ghost state. The platform killer keeps no such record.
- Level order, meaning that ids at depth d come before those at depth d + 1, is not stated as a separate lemma. It is the definition of `ProcessTree.Bfs` (a level, then everything below it), and `Common.GetProcessIdsToKill` proves the FIFO loop equal to that definition.
