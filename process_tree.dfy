/** The values a process snapshot determines: the parent-to-children index,
    the id-to-entry index, the breadth-first discovery order below a target
    and the subtree of a process. These are the reference definitions the
    methods of `Common` are proved against, and the lemmas here state what
    the discovery order promises. */
module ProcessTree {
  import opened Core

  // ------------------------------------------------------------------
  // Sorting

  predicate Sorted(s: seq<ProcessId>) {
    forall i, j :: 0 <= i < j < |s| ==> s[i] <= s[j]
  }

  /** A sorted sequence stays sorted behind an id no larger than its first. */
  lemma PrependSorted(h: ProcessId, t: seq<ProcessId>)
    requires Sorted(t) && (t == [] || h <= t[0])
    ensures Sorted([h] + t)
  {
  }

  /** `x` placed into the sorted `s` in front of the first larger element. */
  function Insert(x: ProcessId, s: seq<ProcessId>): (r: seq<ProcessId>)
    requires Sorted(s)
    ensures Sorted(r) && multiset(r) == multiset(s) + multiset{x}
    ensures r[0] == x || (s != [] && r[0] == s[0])
  {
    if s == [] then [x]
    else if x <= s[0] then
      PrependSorted(x, s);
      [x] + s
    else
      var rest := Insert(x, s[1..]);
      assert s == [s[0]] + s[1..];
      PrependSorted(s[0], rest);
      [s[0]] + rest
  }

  /** The ascending rearrangement of `s`: what `sort_unstable` leaves behind. */
  function SortedOf(s: seq<ProcessId>): (r: seq<ProcessId>)
    ensures Sorted(r) && multiset(r) == multiset(s)
  {
    if s == [] then []
    else
      assert s == s[..|s| - 1] + [s[|s| - 1]];
      Insert(s[|s| - 1], SortedOf(s[..|s| - 1]))
  }

  /** A non-empty sequence holds its head once more than its tail. */
  lemma MultisetOfTail(a: seq<ProcessId>)
    requires a != []
    ensures multiset(a[1..]) == multiset(a) - multiset{a[0]}
  {
    assert a == [a[0]] + a[1..];
  }

  /** Two ascending arrangements of the same ids start with the same id. */
  lemma SortedSameHead(a: seq<ProcessId>, b: seq<ProcessId>)
    requires Sorted(a) && Sorted(b) && multiset(a) == multiset(b)
    requires a != [] && b != []
    ensures a[0] == b[0]
  {
    assert a[0] in multiset(b);
    assert b[0] in multiset(a);
    var j :| 0 <= j < |b| && b[j] == a[0];
    var i :| 0 <= i < |a| && a[i] == b[0];
  }

  /** There is only one ascending arrangement of a multiset of ids. */
  lemma {:induction false} SortedPermutationUnique(a: seq<ProcessId>, b: seq<ProcessId>)
    requires Sorted(a) && Sorted(b) && multiset(a) == multiset(b)
    ensures a == b
  {
    assert |a| == |multiset(a)| == |multiset(b)| == |b|;
    if a != [] {
      SortedSameHead(a, b);
      MultisetOfTail(a);
      MultisetOfTail(b);
      SortedPermutationUnique(a[1..], b[1..]);
      assert a == [a[0]] + a[1..];
      assert b == [b[0]] + b[1..];
    }
  }

  // ------------------------------------------------------------------
  // The parent-to-children index

  /** Whether the entry `info` is listed under `parent`: the filter keeps it
      and it names `parent` as its parent. */
  predicate ListedUnder(info: ProcessInfo, filter: ProcessInfo -> bool, parent: ProcessId) {
    !filter(info) && info.parentProcessId == parent
  }

  /** The ids of the entries listed under `parent`, in snapshot order. */
  function ChildIds(infos: seq<ProcessInfo>, filter: ProcessInfo -> bool, parent: ProcessId): seq<ProcessId>
  {
    if infos == [] then []
    else
      var last := infos[|infos| - 1];
      ChildIds(infos[..|infos| - 1], filter, parent)
        + (if ListedUnder(last, filter, parent) then [last.processId] else [])
  }

  /** The parent ids of the entries the filter keeps. */
  function Parents(infos: seq<ProcessInfo>, filter: ProcessInfo -> bool): set<ProcessId>
  {
    if infos == [] then {}
    else
      var last := infos[|infos| - 1];
      Parents(infos[..|infos| - 1], filter) + (if !filter(last) then {last.parentProcessId} else {})
  }

  /** The index `get_child_process_id_map` builds: each parent of a kept
      entry, mapped to its children's ids in ascending order. */
  function ChildMapOf(infos: seq<ProcessInfo>, filter: ProcessInfo -> bool): ChildProcessIdMap
  {
    map p | p in Parents(infos, filter) :: SortedOf(ChildIds(infos, filter, p))
  }

  /** The children listed under `p`; no entry reads as no children. */
  function Children(m: ChildProcessIdMap, p: ProcessId): seq<ProcessId> {
    if p in m then m[p] else []
  }

  lemma {:induction false} ChildIdsMembers(infos: seq<ProcessInfo>, filter: ProcessInfo -> bool, parent: ProcessId, x: ProcessId)
    ensures x in ChildIds(infos, filter, parent) <==>
      exists i :: 0 <= i < |infos| && ListedUnder(infos[i], filter, parent) && infos[i].processId == x
  {
    if infos != [] {
      var n := |infos| - 1;
      var prefix := infos[..n];
      ChildIdsMembers(prefix, filter, parent, x);
      if x in ChildIds(infos, filter, parent) {
        if x in ChildIds(prefix, filter, parent) {
          var i :| 0 <= i < |prefix| && ListedUnder(prefix[i], filter, parent) && prefix[i].processId == x;
          assert infos[i] == prefix[i];
        } else {
          assert ListedUnder(infos[n], filter, parent) && infos[n].processId == x;
        }
      }
      if exists i :: 0 <= i < |infos| && ListedUnder(infos[i], filter, parent) && infos[i].processId == x {
        var i :| 0 <= i < |infos| && ListedUnder(infos[i], filter, parent) && infos[i].processId == x;
        if i < n {
          assert prefix[i] == infos[i];
        }
      }
    }
  }

  lemma {:induction false} ParentsMembers(infos: seq<ProcessInfo>, filter: ProcessInfo -> bool, p: ProcessId)
    ensures p in Parents(infos, filter) <==> ChildIds(infos, filter, p) != []
  {
    if infos != [] {
      ParentsMembers(infos[..|infos| - 1], filter, p);
    }
  }

  lemma {:induction false} ChildIdsAppend(a: seq<ProcessInfo>, b: seq<ProcessInfo>, filter: ProcessInfo -> bool, p: ProcessId)
    ensures ChildIds(a + b, filter, p) == ChildIds(a, filter, p) + ChildIds(b, filter, p)
  {
    if b == [] {
      assert a + b == a;
    } else {
      var n := |b| - 1;
      assert (a + b)[..|a + b| - 1] == a + b[..n];
      ChildIdsAppend(a, b[..n], filter, p);
    }
  }

  /** Each list in the index is non-empty, ascending and holds exactly the
      ids of the entries listed under its key; the keys are exactly the
      parents of kept entries. */
  lemma ChildMapShape(infos: seq<ProcessInfo>, filter: ProcessInfo -> bool)
    ensures ChildMapOf(infos, filter).Keys == Parents(infos, filter)
    ensures forall p :: p in ChildMapOf(infos, filter) ==>
      var children := ChildMapOf(infos, filter)[p];
      children != [] && Sorted(children) && multiset(children) == multiset(ChildIds(infos, filter, p))
  {
    forall p | p in Parents(infos, filter)
      ensures ChildMapOf(infos, filter)[p] != []
    {
      ParentsMembers(infos, filter, p);
      var children := ChildIds(infos, filter, p);
      assert children[0] in multiset(children);
    }
  }

  /** `x` is listed under `p` in the index exactly when some kept entry of
      the snapshot has id `x` and parent `p`. */
  lemma ChildMapMembers(infos: seq<ProcessInfo>, filter: ProcessInfo -> bool, p: ProcessId, x: ProcessId)
    ensures x in Children(ChildMapOf(infos, filter), p) <==>
      exists i :: 0 <= i < |infos| && ListedUnder(infos[i], filter, p) && infos[i].processId == x
  {
    ChildIdsMembers(infos, filter, p, x);
    ParentsMembers(infos, filter, p);
    var m := ChildMapOf(infos, filter);
    if p in m {
      assert x in m[p] <==> x in multiset(m[p]);
      assert x in ChildIds(infos, filter, p) <==> x in multiset(ChildIds(infos, filter, p));
    }
  }

  /** An entry the filter rejects contributes nothing to the index. */
  lemma FilteredEntryIgnored(infos: seq<ProcessInfo>, filter: ProcessInfo -> bool, k: nat)
    requires k < |infos| && filter(infos[k])
    ensures ChildMapOf(infos[..k] + infos[k + 1..], filter) == ChildMapOf(infos, filter)
  {
    var rest := infos[..k] + infos[k + 1..];
    assert infos == infos[..k] + ([infos[k]] + infos[k + 1..]);
    forall p
      ensures ChildIds(rest, filter, p) == ChildIds(infos, filter, p)
      ensures p in Parents(rest, filter) <==> p in Parents(infos, filter)
    {
      ChildIdsAppend(infos[..k], infos[k + 1..], filter, p);
      ChildIdsAppend(infos[..k], [infos[k]] + infos[k + 1..], filter, p);
      ChildIdsAppend([infos[k]], infos[k + 1..], filter, p);
      assert ChildIds([infos[k]], filter, p) == [];
      ParentsMembers(rest, filter, p);
      ParentsMembers(infos, filter, p);
    }
  }

  // ------------------------------------------------------------------
  // Snapshots with unique ids give a forest

  predicate UniqueIds(infos: seq<ProcessInfo>) {
    forall i, j :: 0 <= i < j < |infos| ==> infos[i].processId != infos[j].processId
  }

  /** Every id is listed at most once in the whole index. */
  predicate UniqueOccurrences(m: ChildProcessIdMap) {
    forall p, q, i, j :: p in m && q in m && 0 <= i < |m[p]| && 0 <= j < |m[q]| && m[p][i] == m[q][j] ==>
      p == q && i == j
  }

  lemma {:induction false} ChildIdsAtMostOnce(infos: seq<ProcessInfo>, filter: ProcessInfo -> bool, p: ProcessId, x: ProcessId)
    requires UniqueIds(infos)
    ensures multiset(ChildIds(infos, filter, p))[x] <= 1
  {
    if infos != [] {
      var n := |infos| - 1;
      var prefix := infos[..n];
      ChildIdsAtMostOnce(prefix, filter, p, x);
      if ListedUnder(infos[n], filter, p) && infos[n].processId == x {
        ChildIdsMembers(prefix, filter, p, x);
        forall i | 0 <= i < |prefix| ensures prefix[i].processId != x {
          assert prefix[i] == infos[i];
        }
        assert x !in ChildIds(prefix, filter, p);
      }
    }
  }

  lemma TwoPositions(s: seq<ProcessId>, i: nat, j: nat)
    requires i < j < |s| && s[i] == s[j]
    ensures multiset(s)[s[i]] >= 2
  {
    assert s == s[..i] + [s[i]] + s[i + 1..j] + [s[j]] + s[j + 1..];
  }

  /** When the snapshot's ids are unique, no id is listed twice in the index:
      every process has at most one parent there. */
  lemma ChildMapIsForest(infos: seq<ProcessInfo>, filter: ProcessInfo -> bool)
    requires UniqueIds(infos)
    ensures UniqueOccurrences(ChildMapOf(infos, filter))
  {
    var m := ChildMapOf(infos, filter);
    ChildMapShape(infos, filter);
    forall p, q, i, j | p in m && q in m && 0 <= i < |m[p]| && 0 <= j < |m[q]| && m[p][i] == m[q][j]
      ensures p == q && i == j
    {
      var x := m[p][i];
      ChildMapMembers(infos, filter, p, x);
      ChildMapMembers(infos, filter, q, x);
      var a :| 0 <= a < |infos| && ListedUnder(infos[a], filter, p) && infos[a].processId == x;
      var b :| 0 <= b < |infos| && ListedUnder(infos[b], filter, q) && infos[b].processId == x;
      assert a == b;
      if i != j {
        if i < j { TwoPositions(m[p], i, j); } else { TwoPositions(m[p], j, i); }
        ChildIdsAtMostOnce(infos, filter, p, x);
        assert false;
      }
    }
  }

  // ------------------------------------------------------------------
  // Acyclicity below the target

  /** `below` is closed under children and `rank` strictly decreases from a
      parent to each of its children there: the index has no cycle through
      any process in `below`. */
  ghost predicate RankedBelow(m: ChildProcessIdMap, below: set<ProcessId>, rank: ProcessId -> nat) {
    forall p, c :: p in below && c in Children(m, p) ==> c in below && rank(c) < rank(p)
  }

  /** The same condition read off the snapshot: an entry kept by the filter
      whose parent lies in `below` lies in `below` and has a lower rank. */
  ghost predicate AcyclicBelow(infos: seq<ProcessInfo>, filter: ProcessInfo -> bool, below: set<ProcessId>, rank: ProcessId -> nat) {
    forall i :: 0 <= i < |infos| && !filter(infos[i]) && infos[i].parentProcessId in below ==>
      infos[i].processId in below && rank(infos[i].processId) < rank(infos[i].parentProcessId)
  }

  lemma SnapshotRanksChildMap(infos: seq<ProcessInfo>, filter: ProcessInfo -> bool, below: set<ProcessId>, rank: ProcessId -> nat)
    requires AcyclicBelow(infos, filter, below, rank)
    ensures RankedBelow(ChildMapOf(infos, filter), below, rank)
  {
    ChildMapListsSnapshot(infos, filter);
    ListedRanked(ChildMapOf(infos, filter), infos, filter, below, rank);
  }

  /** Every id listed under a parent in `m` comes from an entry of the snapshot
      kept by the filter and naming that parent. */
  ghost predicate ListsSnapshot(m: ChildProcessIdMap, infos: seq<ProcessInfo>, filter: ProcessInfo -> bool) {
    forall p, c :: c in Children(m, p) ==>
      exists i :: 0 <= i < |infos| && ListedUnder(infos[i], filter, p) && infos[i].processId == c
  }

  lemma ChildMapListsSnapshot(infos: seq<ProcessInfo>, filter: ProcessInfo -> bool)
    ensures ListsSnapshot(ChildMapOf(infos, filter), infos, filter)
  {
    forall p, c | c in Children(ChildMapOf(infos, filter), p)
      ensures exists i :: 0 <= i < |infos| && ListedUnder(infos[i], filter, p) && infos[i].processId == c
    {
      ChildMapMembers(infos, filter, p, c);
    }
  }

  lemma ListedRanked(m: ChildProcessIdMap, infos: seq<ProcessInfo>, filter: ProcessInfo -> bool, below: set<ProcessId>, rank: ProcessId -> nat)
    requires ListsSnapshot(m, infos, filter) && AcyclicBelow(infos, filter, below, rank)
    ensures RankedBelow(m, below, rank)
  {
    forall p, c | p in below && c in Children(m, p)
      ensures c in below && rank(c) < rank(p)
    {
      var i :| 0 <= i < |infos| && ListedUnder(infos[i], filter, p) && infos[i].processId == c;
    }
  }

  // ------------------------------------------------------------------
  // Breadth-first levels

  /** The level below `level`: the children of its members, member by
      member, each list in its own order. */
  function NextLevel(m: ChildProcessIdMap, level: seq<ProcessId>): seq<ProcessId> {
    if level == [] then []
    else NextLevel(m, level[..|level| - 1]) + Children(m, level[|level| - 1])
  }

  lemma {:induction false} NextLevelMembers(m: ChildProcessIdMap, level: seq<ProcessId>, c: ProcessId)
    ensures c in NextLevel(m, level) <==> exists x :: x in level && c in Children(m, x)
  {
    if level != [] {
      var n := |level| - 1;
      NextLevelMembers(m, level[..n], c);
      assert level == level[..n] + [level[n]];
      if c in NextLevel(m, level) && c !in Children(m, level[n]) {
        var x :| x in level[..n] && c in Children(m, x);
        assert x in level;
      }
    }
  }

  /** One more than the largest rank in `level`; 0 for an empty level. */
  ghost function Height(rank: ProcessId -> nat, level: seq<ProcessId>): nat {
    if level == [] then 0
    else
      var h := Height(rank, level[..|level| - 1]);
      var r := rank(level[|level| - 1]) + 1;
      if r > h then r else h
  }

  lemma {:induction false} HeightAbove(rank: ProcessId -> nat, level: seq<ProcessId>, x: ProcessId)
    requires x in level
    ensures rank(x) < Height(rank, level)
  {
    var n := |level| - 1;
    if x != level[n] {
      assert level == level[..n] + [level[n]];
      HeightAbove(rank, level[..n], x);
    }
  }

  lemma {:induction false} HeightAtMost(rank: ProcessId -> nat, level: seq<ProcessId>, b: int)
    requires forall x :: x in level ==> rank(x) < b
    ensures Height(rank, level) <= b || level == []
  {
    if level != [] {
      var n := |level| - 1;
      if level[..n] != [] {
        HeightAtMost(rank, level[..n], b);
      }
    }
  }

  lemma NextLevelLower(m: ChildProcessIdMap, below: set<ProcessId>, rank: ProcessId -> nat, level: seq<ProcessId>)
    requires RankedBelow(m, below, rank)
    requires forall x :: x in level ==> x in below
    ensures forall c :: c in NextLevel(m, level) ==> c in below
    ensures level != [] ==> Height(rank, NextLevel(m, level)) < Height(rank, level)
  {
    forall c | c in NextLevel(m, level)
      ensures c in below && rank(c) < Height(rank, level) - 1
    {
      NextLevelMembers(m, level, c);
      var x :| x in level && c in Children(m, x);
      HeightAbove(rank, level, x);
    }
    if level != [] {
      HeightAtMost(rank, NextLevel(m, level), Height(rank, level) - 1);
    }
  }

  /** The breadth-first order from `level` down: the level itself, then
      everything from the next level down. */
  ghost function Bfs(m: ChildProcessIdMap, below: set<ProcessId>, rank: ProcessId -> nat, level: seq<ProcessId>): seq<ProcessId>
    requires RankedBelow(m, below, rank)
    requires forall x :: x in level ==> x in below
    decreases Height(rank, level)
  {
    if level == [] then []
    else
      NextLevelLower(m, below, rank, level);
      level + Bfs(m, below, rank, NextLevel(m, level))
  }

  /** The discovery order from `target`. */
  ghost function Discovery(m: ChildProcessIdMap, below: set<ProcessId>, rank: ProcessId -> nat, target: ProcessId): seq<ProcessId>
    requires RankedBelow(m, below, rank) && target in below
  {
    Bfs(m, below, rank, [target])
  }

  /** `s` with every occurrence of `x` dropped. */
  function Without(s: seq<ProcessId>, x: ProcessId): (r: seq<ProcessId>)
    ensures forall y :: y in r <==> y in s && y != x
  {
    if s == [] then [] else (if s[0] == x then [] else [s[0]]) + Without(s[1..], x)
  }

  lemma {:induction false} WithoutAppend(a: seq<ProcessId>, b: seq<ProcessId>, x: ProcessId)
    ensures Without(a + b, x) == Without(a, x) + Without(b, x)
  {
    if a != [] {
      assert (a + b)[1..] == a[1..] + b;
      WithoutAppend(a[1..], b, x);
    } else {
      assert a + b == b;
    }
  }

  /** The discovered ids that are to be terminated: all of them, or all but
      the target. */
  function Selected(s: seq<ProcessId>, target: ProcessId, includeTarget: bool): seq<ProcessId> {
    if includeTarget then s else Without(s, target)
  }

  /** The list `get_process_ids_to_kill` returns. */
  ghost function KillList(m: ChildProcessIdMap, below: set<ProcessId>, rank: ProcessId -> nat, target: ProcessId, includeTarget: bool): seq<ProcessId>
    requires RankedBelow(m, below, rank) && target in below
  {
    Selected(Discovery(m, below, rank, target), target, includeTarget)
  }

  function Reversed(s: seq<ProcessId>): seq<ProcessId> {
    seq(|s|, k requires 0 <= k < |s| => s[|s| - 1 - k])
  }

  lemma ReversedAt(s: seq<ProcessId>, k: nat)
    requires k < |s|
    ensures |Reversed(s)| == |s| && Reversed(s)[k] == s[|s| - 1 - k]
  {
  }

  /** The order in which `kill_tree_internal` attempts the ids. */
  ghost function KillOrder(m: ChildProcessIdMap, below: set<ProcessId>, rank: ProcessId -> nat, target: ProcessId, includeTarget: bool): seq<ProcessId>
    requires RankedBelow(m, below, rank) && target in below
  {
    Reversed(KillList(m, below, rank, target, includeTarget))
  }

  // ------------------------------------------------------------------
  // The target

  lemma {:induction false} BfsRanksBelow(m: ChildProcessIdMap, below: set<ProcessId>, rank: ProcessId -> nat, level: seq<ProcessId>, b: int)
    requires RankedBelow(m, below, rank)
    requires forall x :: x in level ==> x in below && rank(x) < b
    ensures forall y :: y in Bfs(m, below, rank, level) ==> rank(y) < b
    decreases Height(rank, level)
  {
    if level != [] {
      NextLevelLower(m, below, rank, level);
      forall c | c in NextLevel(m, level) ensures rank(c) < b {
        NextLevelMembers(m, level, c);
      }
      BfsRanksBelow(m, below, rank, NextLevel(m, level), b);
    }
  }

  /** Discovery starts at the target and never meets it again. */
  lemma DiscoveryFromTarget(m: ChildProcessIdMap, below: set<ProcessId>, rank: ProcessId -> nat, target: ProcessId)
    requires RankedBelow(m, below, rank) && target in below
    ensures Discovery(m, below, rank, target) == [target] + Bfs(m, below, rank, Children(m, target))
    ensures target !in Bfs(m, below, rank, Children(m, target))
  {
    assert [target][..0] == [];
    assert NextLevel(m, [target]) == Children(m, target);
    BfsRanksBelow(m, below, rank, Children(m, target), rank(target));
  }

  /** Without `includeTarget` the kill list never holds the target. */
  lemma KillListExcludesTarget(m: ChildProcessIdMap, below: set<ProcessId>, rank: ProcessId -> nat, target: ProcessId)
    requires RankedBelow(m, below, rank) && target in below
    ensures target !in KillList(m, below, rank, target, false)
  {
  }

  /** With `includeTarget` the kill list starts with the target and holds it
      exactly once. */
  lemma KillListStartsWithTarget(m: ChildProcessIdMap, below: set<ProcessId>, rank: ProcessId -> nat, target: ProcessId)
    requires RankedBelow(m, below, rank) && target in below
    ensures var ids := KillList(m, below, rank, target, true);
      |ids| > 0 && ids[0] == target && multiset(ids)[target] == 1
  {
    DiscoveryFromTarget(m, below, rank, target);
    var rest := Bfs(m, below, rank, Children(m, target));
    assert target !in multiset(rest);
    assert multiset([target] + rest) == multiset{target} + multiset(rest);
  }

  /** A target that is nobody's parent yields just itself, or nothing. */
  lemma KillListChildless(m: ChildProcessIdMap, below: set<ProcessId>, rank: ProcessId -> nat, target: ProcessId, includeTarget: bool)
    requires RankedBelow(m, below, rank) && target in below && target !in m
    ensures KillList(m, below, rank, target, includeTarget) == if includeTarget then [target] else []
  {
    DiscoveryFromTarget(m, below, rank, target);
    assert Bfs(m, below, rank, []) == [];
    assert Discovery(m, below, rank, target) == [target];
    assert Without([target], target) == Without([], target);
  }

  // ------------------------------------------------------------------
  // Subtrees: the reference definition of "descendant"

  /** A process together with all of its descendants. */
  ghost function Subtree(m: ChildProcessIdMap, below: set<ProcessId>, rank: ProcessId -> nat, x: ProcessId): set<ProcessId>
    requires RankedBelow(m, below, rank) && x in below
    decreases rank(x)
  {
    {x} + set c, y | c in Children(m, x) && y in Subtree(m, below, rank, c) :: y
  }

  ghost function SubtreesOf(m: ChildProcessIdMap, below: set<ProcessId>, rank: ProcessId -> nat, level: seq<ProcessId>): set<ProcessId>
    requires RankedBelow(m, below, rank)
    requires forall x :: x in level ==> x in below
  {
    set x, y | x in level && y in Subtree(m, below, rank, x) :: y
  }

  lemma SubtreeOfChild(m: ChildProcessIdMap, below: set<ProcessId>, rank: ProcessId -> nat, x: ProcessId, c: ProcessId)
    requires RankedBelow(m, below, rank) && x in below && c in Children(m, x)
    ensures Subtree(m, below, rank, c) <= Subtree(m, below, rank, x)
  {
  }

  /** A member of a subtree other than its root lies in the subtree of one
      of the root's children. */
  lemma SubtreeStep(m: ChildProcessIdMap, below: set<ProcessId>, rank: ProcessId -> nat, x: ProcessId, y: ProcessId)
    requires RankedBelow(m, below, rank) && x in below && y in Subtree(m, below, rank, x) && y != x
    ensures exists c :: c in Children(m, x) && c in below && y in Subtree(m, below, rank, c)
  {
  }

  lemma {:induction false} SubtreeRank(m: ChildProcessIdMap, below: set<ProcessId>, rank: ProcessId -> nat, x: ProcessId, y: ProcessId)
    requires RankedBelow(m, below, rank) && x in below && y in Subtree(m, below, rank, x)
    ensures y in below && rank(y) <= rank(x)
    decreases rank(x)
  {
    if y != x {
      SubtreeStep(m, below, rank, x, y);
      var c :| c in Children(m, x) && c in below && y in Subtree(m, below, rank, c);
      SubtreeRank(m, below, rank, c, y);
    }
  }

  lemma {:induction false} SubtreeTransitive(m: ChildProcessIdMap, below: set<ProcessId>, rank: ProcessId -> nat, z: ProcessId, x: ProcessId, y: ProcessId)
    requires RankedBelow(m, below, rank) && z in below
    requires x in Subtree(m, below, rank, z)
    requires (SubtreeRank(m, below, rank, z, x); y in Subtree(m, below, rank, x))
    ensures y in Subtree(m, below, rank, z)
    decreases rank(z)
  {
    if x != z {
      SubtreeStep(m, below, rank, z, x);
      var c :| c in Children(m, z) && c in below && x in Subtree(m, below, rank, c);
      SubtreeTransitive(m, below, rank, c, x, y);
      SubtreeOfChild(m, below, rank, z, c);
    }
  }

  /** The elements of the breadth-first order from `level` are exactly the
      members of the subtrees of `level`'s members. */
  lemma {:induction false} BfsElements(m: ChildProcessIdMap, below: set<ProcessId>, rank: ProcessId -> nat, level: seq<ProcessId>)
    requires RankedBelow(m, below, rank)
    requires forall x :: x in level ==> x in below
    ensures forall y :: y in Bfs(m, below, rank, level) <==> y in SubtreesOf(m, below, rank, level)
    decreases Height(rank, level)
  {
    if level != [] {
      var next := NextLevel(m, level);
      NextLevelLower(m, below, rank, level);
      BfsElements(m, below, rank, next);
      forall y
        ensures y in SubtreesOf(m, below, rank, level) <==> y in level || y in SubtreesOf(m, below, rank, next)
      {
        if y in SubtreesOf(m, below, rank, level) && y !in level {
          var x :| x in level && y in Subtree(m, below, rank, x);
          SubtreeStep(m, below, rank, x, y);
          var c :| c in Children(m, x) && c in below && y in Subtree(m, below, rank, c);
          NextLevelMembers(m, level, c);
          assert c in next;
        }
        if y in level {
          assert y in Subtree(m, below, rank, y);
        }
        if y in SubtreesOf(m, below, rank, next) {
          var c :| c in next && c in below && y in Subtree(m, below, rank, c);
          NextLevelMembers(m, level, c);
          var x :| x in level && c in Children(m, x);
          SubtreeOfChild(m, below, rank, x, c);
          assert y in Subtree(m, below, rank, x);
        }
      }
    }
  }

  // ------------------------------------------------------------------
  // Forests: each id once, parents before children

  lemma {:induction false} ParentInSubtree(m: ChildProcessIdMap, below: set<ProcessId>, rank: ProcessId -> nat, z: ProcessId, y: ProcessId, p: ProcessId, k: nat)
    requires RankedBelow(m, below, rank) && UniqueOccurrences(m)
    requires z in below && p in below
    requires y in Subtree(m, below, rank, z) && y != z
    requires k < |Children(m, p)| && Children(m, p)[k] == y
    ensures p in Subtree(m, below, rank, z)
    decreases rank(z)
  {
    SubtreeStep(m, below, rank, z, y);
    var c :| c in Children(m, z) && c in below && y in Subtree(m, below, rank, c);
    if y == c {
      var l :| 0 <= l < |Children(m, z)| && Children(m, z)[l] == c;
      assert m[p][k] == m[z][l];
    } else {
      ParentInSubtree(m, below, rank, c, y, p, k);
      SubtreeOfChild(m, below, rank, z, c);
    }
  }

  /** If a child of `a` lies in the subtree of `b`, one of `a`, `b` lies in
      the other's subtree. */
  lemma ChildInSubtreeLifts(m: ChildProcessIdMap, below: set<ProcessId>, rank: ProcessId -> nat, a: ProcessId, a': ProcessId, b: ProcessId)
    requires RankedBelow(m, below, rank) && UniqueOccurrences(m)
    requires a in below && b in below && a' in Children(m, a)
    requires a' in Subtree(m, below, rank, b)
    ensures a in Subtree(m, below, rank, b) || b in Subtree(m, below, rank, a)
  {
    if a' == b {
      SubtreeOfChild(m, below, rank, a, b);
    } else {
      var i :| 0 <= i < |Children(m, a)| && Children(m, a)[i] == a';
      ParentInSubtree(m, below, rank, b, a', a, i);
    }
  }

  /** Two subtrees that meet are nested. */
  lemma {:induction false} SubtreesNest(m: ChildProcessIdMap, below: set<ProcessId>, rank: ProcessId -> nat, a: ProcessId, b: ProcessId, z: ProcessId)
    requires RankedBelow(m, below, rank) && UniqueOccurrences(m)
    requires a in below && b in below
    requires z in Subtree(m, below, rank, a) && z in Subtree(m, below, rank, b)
    ensures a in Subtree(m, below, rank, b) || b in Subtree(m, below, rank, a)
    decreases rank(a) + rank(b)
  {
    if z != a && z != b {
      SubtreeStep(m, below, rank, a, z);
      var a' :| a' in Children(m, a) && a' in below && z in Subtree(m, below, rank, a');
      SubtreeStep(m, below, rank, b, z);
      var b' :| b' in Children(m, b) && b' in below && z in Subtree(m, below, rank, b');
      SubtreesNest(m, below, rank, a', b', z);
      if a' in Subtree(m, below, rank, b') {
        SubtreeOfChild(m, below, rank, b, b');
        ChildInSubtreeLifts(m, below, rank, a, a', b);
      } else {
        SubtreeOfChild(m, below, rank, a, a');
        ChildInSubtreeLifts(m, below, rank, b, b', a);
      }
    }
  }

  lemma SiblingsDisjoint(m: ChildProcessIdMap, below: set<ProcessId>, rank: ProcessId -> nat, p: ProcessId, i: nat, j: nat)
    requires RankedBelow(m, below, rank) && UniqueOccurrences(m) && p in below
    requires i < j < |Children(m, p)|
    ensures Subtree(m, below, rank, Children(m, p)[i]) !! Subtree(m, below, rank, Children(m, p)[j])
  {
    var a, b := Children(m, p)[i], Children(m, p)[j];
    forall z | z in Subtree(m, below, rank, a)
      ensures z !in Subtree(m, below, rank, b)
    {
      if z in Subtree(m, below, rank, b) {
        SubtreesNest(m, below, rank, a, b, z);
        if a in Subtree(m, below, rank, b) {
          ParentInSubtree(m, below, rank, b, a, p, i);
          SubtreeRank(m, below, rank, b, p);
        } else {
          ParentInSubtree(m, below, rank, a, b, p, j);
          SubtreeRank(m, below, rank, a, p);
        }
        assert false;
      }
    }
  }

  /** The members of `level` lie in `below` and have pairwise disjoint subtrees. */
  ghost predicate Antichain(m: ChildProcessIdMap, below: set<ProcessId>, rank: ProcessId -> nat, level: seq<ProcessId>)
    requires RankedBelow(m, below, rank)
  {
    && (forall x :: x in level ==> x in below)
    && forall i, j :: 0 <= i < j < |level| ==>
         Subtree(m, below, rank, level[i]) !! Subtree(m, below, rank, level[j])
  }

  /** Two antichains whose members' subtrees are pairwise disjoint form one
      antichain together. */
  lemma AntichainAppend(m: ChildProcessIdMap, below: set<ProcessId>, rank: ProcessId -> nat, a: seq<ProcessId>, b: seq<ProcessId>)
    requires RankedBelow(m, below, rank)
    requires Antichain(m, below, rank, a) && Antichain(m, below, rank, b)
    requires forall u, v :: u in a && v in b ==> Subtree(m, below, rank, u) !! Subtree(m, below, rank, v)
    ensures Antichain(m, below, rank, a + b)
  {
    var s := a + b;
    forall i, j | 0 <= i < j < |s|
      ensures Subtree(m, below, rank, s[i]) !! Subtree(m, below, rank, s[j])
    {
      if j < |a| {
        assert s[i] == a[i] && s[j] == a[j];
      } else if i >= |a| {
        assert s[i] == b[i - |a|] && s[j] == b[j - |a|];
      } else {
        assert s[i] in a && s[j] in b;
      }
    }
  }

  /** The children of one process form an antichain. */
  lemma ChildrenAntichain(m: ChildProcessIdMap, below: set<ProcessId>, rank: ProcessId -> nat, x: ProcessId)
    requires RankedBelow(m, below, rank) && UniqueOccurrences(m) && x in below
    ensures Antichain(m, below, rank, Children(m, x))
  {
    var cs := Children(m, x);
    assert forall c :: c in cs ==> c in below;
    forall i, j | 0 <= i < j < |cs|
      ensures Subtree(m, below, rank, cs[i]) !! Subtree(m, below, rank, cs[j])
    {
      SiblingsDisjoint(m, below, rank, x, i, j);
    }
  }

  lemma {:induction false} NextLevelAntichain(m: ChildProcessIdMap, below: set<ProcessId>, rank: ProcessId -> nat, level: seq<ProcessId>)
    requires RankedBelow(m, below, rank) && UniqueOccurrences(m)
    requires Antichain(m, below, rank, level)
    ensures (NextLevelLower(m, below, rank, level); Antichain(m, below, rank, NextLevel(m, level)))
  {
    NextLevelLower(m, below, rank, level);
    if level != [] {
      var n := |level| - 1;
      var front, x := level[..n], level[n];
      assert level == front + [x];
      NextLevelLower(m, below, rank, front);
      NextLevelAntichain(m, below, rank, front);
      var a, b := NextLevel(m, front), Children(m, x);
      ChildrenAntichain(m, below, rank, x);
      forall u, v | u in a && v in b
        ensures Subtree(m, below, rank, u) !! Subtree(m, below, rank, v)
      {
        FrontApartFromLast(m, below, rank, level, u, v);
      }
      AntichainAppend(m, below, rank, a, b);
      assert NextLevel(m, level) == a + b;
    }
  }

  /** Subsets of disjoint sets are disjoint. */
  lemma DisjointSubsets(a: set<ProcessId>, b: set<ProcessId>, c: set<ProcessId>, d: set<ProcessId>)
    requires a !! b && c <= a && d <= b
    ensures c !! d
  {
  }

  /** In the level below an antichain, a child of an earlier member and a
      child of the last member have disjoint subtrees. */
  lemma FrontApartFromLast(m: ChildProcessIdMap, below: set<ProcessId>, rank: ProcessId -> nat, level: seq<ProcessId>, u: ProcessId, v: ProcessId)
    requires RankedBelow(m, below, rank) && Antichain(m, below, rank, level) && level != []
    requires u in NextLevel(m, level[..|level| - 1]) && v in Children(m, level[|level| - 1])
    requires u in below && v in below
    ensures Subtree(m, below, rank, u) !! Subtree(m, below, rank, v)
  {
    var n := |level| - 1;
    var front, x := level[..n], level[n];
    NextLevelMembers(m, front, u);
    var y :| y in front && u in Children(m, y);
    var k :| 0 <= k < n && front[k] == y;
    assert level[k] == y;
    SubtreeOfChild(m, below, rank, y, u);
    SubtreeOfChild(m, below, rank, x, v);
    DisjointSubsets(Subtree(m, below, rank, y), Subtree(m, below, rank, x), Subtree(m, below, rank, u), Subtree(m, below, rank, v));
  }

  /** No member of an antichain lies in a subtree of the next level. */
  lemma LevelNotBelowNext(m: ChildProcessIdMap, below: set<ProcessId>, rank: ProcessId -> nat, level: seq<ProcessId>, i: nat, c: ProcessId)
    requires RankedBelow(m, below, rank) && Antichain(m, below, rank, level)
    requires i < |level| && c in NextLevel(m, level)
    ensures (NextLevelLower(m, below, rank, level); level[i] !in Subtree(m, below, rank, c))
  {
    NextLevelLower(m, below, rank, level);
    NextLevelMembers(m, level, c);
    var x :| x in level && c in Children(m, x);
    var k :| 0 <= k < |level| && level[k] == x;
    SubtreeOfChild(m, below, rank, x, c);
    if level[i] in Subtree(m, below, rank, c) {
      if k == i {
        SubtreeRank(m, below, rank, c, level[i]);
      }
      assert false;
    }
  }

  predicate NoDuplicates(s: seq<ProcessId>) {
    forall i, j :: 0 <= i < j < |s| ==> s[i] != s[j]
  }

  /** On a forest, the breadth-first order from an antichain lists each id once. */
  lemma {:induction false} BfsNoDuplicates(m: ChildProcessIdMap, below: set<ProcessId>, rank: ProcessId -> nat, level: seq<ProcessId>)
    requires RankedBelow(m, below, rank) && UniqueOccurrences(m)
    requires Antichain(m, below, rank, level)
    ensures NoDuplicates(Bfs(m, below, rank, level))
    decreases Height(rank, level)
  {
    if level != [] {
      var next := NextLevel(m, level);
      NextLevelLower(m, below, rank, level);
      NextLevelAntichain(m, below, rank, level);
      BfsNoDuplicates(m, below, rank, next);
      BfsElements(m, below, rank, next);
      var rest := Bfs(m, below, rank, next);
      var s := Bfs(m, below, rank, level);
      assert s == level + rest;
      forall i, j | 0 <= i < j < |s| ensures s[i] != s[j] {
        if j < |level| {
          assert level[i] in Subtree(m, below, rank, level[i]);
        } else if i >= |level| {
          assert s[i] == rest[i - |level|] && s[j] == rest[j - |level|];
        } else {
          assert s[j] in SubtreesOf(m, below, rank, next);
          var c :| c in next && c in below && s[j] in Subtree(m, below, rank, c);
          LevelNotBelowNext(m, below, rank, level, i, c);
        }
      }
    }
  }

  /** Whenever `s[j]` is a child of `s[i]`, the parent comes first. */
  ghost predicate ParentsFirst(m: ChildProcessIdMap, s: seq<ProcessId>) {
    forall i, j :: 0 <= i < |s| && 0 <= j < |s| && s[j] in Children(m, s[i]) ==> i < j
  }

  /** `a + b` lists parents first when `b` does, `a` holds no parent-child
      pair and nothing in `b` is a parent of anything in `a`. */
  lemma ParentsFirstAppend(m: ChildProcessIdMap, a: seq<ProcessId>, b: seq<ProcessId>)
    requires ParentsFirst(m, b)
    requires forall i, j :: 0 <= i < |a| && 0 <= j < |a| ==> a[j] !in Children(m, a[i])
    requires forall i, j :: 0 <= i < |b| && 0 <= j < |a| ==> a[j] !in Children(m, b[i])
    ensures ParentsFirst(m, a + b)
  {
    var s := a + b;
    forall i, j | 0 <= i < |s| && 0 <= j < |s| && s[j] in Children(m, s[i])
      ensures i < j
    {
      if i >= |a| && j >= |a| {
        assert s[i] == b[i - |a|] && s[j] == b[j - |a|];
      } else if j < |a| {
        assert false;
      }
    }
  }

  /** No member of an antichain is a child of a member. */
  lemma AntichainNoChild(m: ChildProcessIdMap, below: set<ProcessId>, rank: ProcessId -> nat, level: seq<ProcessId>, i: nat, j: nat)
    requires RankedBelow(m, below, rank) && Antichain(m, below, rank, level)
    requires i < |level| && j < |level|
    ensures level[j] !in Children(m, level[i])
  {
    assert level[i] in below;
    if i != j {
      assert level[j] in Subtree(m, below, rank, level[j]);
      if level[j] in Children(m, level[i]) {
        SubtreeOfChild(m, below, rank, level[i], level[j]);
        assert false;
      }
    }
  }

  /** Nothing discovered below the next level is a parent of a member of an
      antichain. */
  lemma LaterNotParentOfLevel(m: ChildProcessIdMap, below: set<ProcessId>, rank: ProcessId -> nat, level: seq<ProcessId>, u: ProcessId, j: nat)
    requires RankedBelow(m, below, rank) && Antichain(m, below, rank, level) && j < |level|
    requires (NextLevelLower(m, below, rank, level); u in SubtreesOf(m, below, rank, NextLevel(m, level)))
    ensures level[j] !in Children(m, u)
  {
    NextLevelLower(m, below, rank, level);
    var next := NextLevel(m, level);
    var c :| c in next && c in below && u in Subtree(m, below, rank, c);
    if level[j] in Children(m, u) {
      SubtreeRank(m, below, rank, c, u);
      SubtreeOfChild(m, below, rank, u, level[j]);
      SubtreeTransitive(m, below, rank, c, u, level[j]);
      LevelNotBelowNext(m, below, rank, level, j, c);
      assert false;
    }
  }

  lemma {:induction false} BfsParentsFirst(m: ChildProcessIdMap, below: set<ProcessId>, rank: ProcessId -> nat, level: seq<ProcessId>)
    requires RankedBelow(m, below, rank) && UniqueOccurrences(m)
    requires Antichain(m, below, rank, level)
    ensures ParentsFirst(m, Bfs(m, below, rank, level))
    decreases Height(rank, level)
  {
    if level != [] {
      var next := NextLevel(m, level);
      NextLevelLower(m, below, rank, level);
      NextLevelAntichain(m, below, rank, level);
      BfsParentsFirst(m, below, rank, next);
      BfsElements(m, below, rank, next);
      var rest := Bfs(m, below, rank, next);
      forall i, j | 0 <= i < |level| && 0 <= j < |level|
        ensures level[j] !in Children(m, level[i])
      {
        AntichainNoChild(m, below, rank, level, i, j);
      }
      forall i, j | 0 <= i < |rest| && 0 <= j < |level|
        ensures level[j] !in Children(m, rest[i])
      {
        assert rest[i] in rest;
        LaterNotParentOfLevel(m, below, rank, level, rest[i], j);
      }
      ParentsFirstAppend(m, level, rest);
    }
  }

  // ------------------------------------------------------------------
  // What the kill list promises

  lemma {:induction false} WithoutKeepsOrder(m: ChildProcessIdMap, s: seq<ProcessId>, x: ProcessId)
    requires NoDuplicates(s) && ParentsFirst(m, s)
    ensures NoDuplicates(Without(s, x)) && ParentsFirst(m, Without(s, x))
  {
    if s != [] {
      var tail := s[1..];
      WithoutKeepsOrder(m, tail, x);
      var w := Without(s, x);
      var wt := Without(tail, x);
      if s[0] != x {
        assert w == [s[0]] + wt;
        forall i, j | 0 <= i < j < |w| ensures w[i] != w[j] {
          if i == 0 {
            assert w[j] in tail;
          } else {
            assert w[i] == wt[i - 1] && w[j] == wt[j - 1];
          }
        }
        forall i | 0 <= i < |wt| ensures s[0] !in Children(m, wt[i]) {
          assert wt[i] in tail;
          var k :| 0 <= k < |tail| && tail[k] == wt[i];
          assert s[k + 1] == wt[i];
        }
        ParentsFirstAppend(m, [s[0]], wt);
      }
    }
  }

  /** The kill list holds exactly the target's subtree (less the target when
      it is not included), each id once when the index is a forest, and
      every parent before its children. */
  lemma KillListContents(m: ChildProcessIdMap, below: set<ProcessId>, rank: ProcessId -> nat, target: ProcessId, includeTarget: bool)
    requires RankedBelow(m, below, rank) && target in below
    ensures forall y :: y in KillList(m, below, rank, target, includeTarget) <==>
      y in Subtree(m, below, rank, target) && (includeTarget || y != target)
    ensures forall y :: y in KillList(m, below, rank, target, includeTarget) ==> y in below
    ensures UniqueOccurrences(m) ==>
      NoDuplicates(KillList(m, below, rank, target, includeTarget)) && ParentsFirst(m, KillList(m, below, rank, target, includeTarget))
  {
    BfsElements(m, below, rank, [target]);
    forall y ensures y in SubtreesOf(m, below, rank, [target]) <==> y in Subtree(m, below, rank, target) {
      if y in Subtree(m, below, rank, target) {
        assert target in [target];
      }
    }
    forall y | y in Subtree(m, below, rank, target) ensures y in below {
      SubtreeRank(m, below, rank, target, y);
    }
    if UniqueOccurrences(m) {
      BfsNoDuplicates(m, below, rank, [target]);
      BfsParentsFirst(m, below, rank, [target]);
      WithoutKeepsOrder(m, Discovery(m, below, rank, target), target);
    }
  }

  /** In the kill list a process comes before every one of its descendants. */
  lemma {:induction false} KillListDescendantsAfter(m: ChildProcessIdMap, below: set<ProcessId>, rank: ProcessId -> nat, target: ProcessId, includeTarget: bool, i: nat, j: nat)
    requires RankedBelow(m, below, rank) && target in below && UniqueOccurrences(m)
    requires i < |KillList(m, below, rank, target, includeTarget)| && j < |KillList(m, below, rank, target, includeTarget)| && i != j
    requires KillList(m, below, rank, target, includeTarget)[i] in below
    requires KillList(m, below, rank, target, includeTarget)[j] in Subtree(m, below, rank, KillList(m, below, rank, target, includeTarget)[i])
    ensures i < j
    decreases rank(KillList(m, below, rank, target, includeTarget)[i])
  {
    var ids := KillList(m, below, rank, target, includeTarget);
    KillListContents(m, below, rank, target, includeTarget);
    var x, y := ids[i], ids[j];
    SubtreeStep(m, below, rank, x, y);
    var c :| c in Children(m, x) && c in below && y in Subtree(m, below, rank, c);
    SubtreeRank(m, below, rank, target, x);
    SubtreeOfChild(m, below, rank, x, c);
    SubtreeTransitive(m, below, rank, target, x, c);
    assert c != target;
    assert c in ids;
    var l :| 0 <= l < |ids| && ids[l] == c;
    assert i < l;
    if l != j {
      SubtreeRank(m, below, rank, x, c);
      KillListDescendantsAfter(m, below, rank, target, includeTarget, l, j);
    }
  }

  /** Whenever `s[j]` descends from `s[i]`, `s[i]` comes first. */
  ghost predicate DescendantsAfter(m: ChildProcessIdMap, below: set<ProcessId>, rank: ProcessId -> nat, s: seq<ProcessId>)
    requires RankedBelow(m, below, rank)
  {
    forall i, j :: 0 <= i < |s| && 0 <= j < |s| && i != j && s[i] in below && s[j] in Subtree(m, below, rank, s[i]) ==> i < j
  }

  /** Whenever `s[j]` descends from `s[i]`, `s[j]` comes first. */
  ghost predicate DescendantsFirst(m: ChildProcessIdMap, below: set<ProcessId>, rank: ProcessId -> nat, s: seq<ProcessId>)
    requires RankedBelow(m, below, rank)
  {
    forall i, j :: 0 <= i < |s| && 0 <= j < |s| && i != j && s[i] in below && s[j] in Subtree(m, below, rank, s[i]) ==> j < i
  }

  lemma ReversedDescendantsFirst(m: ChildProcessIdMap, below: set<ProcessId>, rank: ProcessId -> nat, s: seq<ProcessId>)
    requires RankedBelow(m, below, rank) && DescendantsAfter(m, below, rank, s)
    ensures DescendantsFirst(m, below, rank, Reversed(s))
  {
    var r := Reversed(s);
    var n := |s|;
    forall i, j | 0 <= i < n && 0 <= j < n && i != j && r[i] in below && r[j] in Subtree(m, below, rank, r[i])
      ensures j < i
    {
      ReversedAt(s, i);
      ReversedAt(s, j);
    }
  }

  lemma KillListDescendantsAfterAll(m: ChildProcessIdMap, below: set<ProcessId>, rank: ProcessId -> nat, target: ProcessId, includeTarget: bool)
    requires RankedBelow(m, below, rank) && target in below && UniqueOccurrences(m)
    ensures DescendantsAfter(m, below, rank, KillList(m, below, rank, target, includeTarget))
  {
    var ids := KillList(m, below, rank, target, includeTarget);
    forall i, j | 0 <= i < |ids| && 0 <= j < |ids| && i != j && ids[i] in below && ids[j] in Subtree(m, below, rank, ids[i])
      ensures i < j
    {
      KillListDescendantsAfter(m, below, rank, target, includeTarget, i, j);
    }
  }

  /** Children before parents: in the kill order every descendant of a
      process is attempted before the process itself. */
  lemma KillOrderDescendantsFirst(m: ChildProcessIdMap, below: set<ProcessId>, rank: ProcessId -> nat, target: ProcessId, includeTarget: bool)
    requires RankedBelow(m, below, rank) && target in below && UniqueOccurrences(m)
    ensures DescendantsFirst(m, below, rank, KillOrder(m, below, rank, target, includeTarget))
  {
    KillListDescendantsAfterAll(m, below, rank, target, includeTarget);
    ReversedDescendantsFirst(m, below, rank, KillList(m, below, rank, target, includeTarget));
  }

  // ------------------------------------------------------------------
  // Siblings

  lemma {:induction false} NextLevelConcat(m: ChildProcessIdMap, a: seq<ProcessId>, b: seq<ProcessId>)
    ensures NextLevel(m, a + b) == NextLevel(m, a) + NextLevel(m, b)
    decreases |b|
  {
    if b == [] {
      assert a + b == a;
    } else {
      var b' := b[..|b| - 1];
      assert (a + b)[..|a + b| - 1] == a + b';
      NextLevelConcat(m, a, b');
    }
  }

  /** `sub` sits in `s` from position `j` on. */
  predicate OccursAt(s: seq<ProcessId>, j: nat, sub: seq<ProcessId>) {
    j + |sub| <= |s| && s[j..j + |sub|] == sub
  }

  lemma OccursAtAppend(a: seq<ProcessId>, b: seq<ProcessId>, j: nat, sub: seq<ProcessId>)
    requires OccursAt(b, j, sub)
    ensures OccursAt(a + b, |a| + j, sub)
  {
    assert (a + b)[|a| + j..|a| + j + |sub|] == b[j..j + |sub|];
  }

  lemma OccursAtPrefix(a: seq<ProcessId>, b: seq<ProcessId>, j: nat, sub: seq<ProcessId>)
    requires OccursAt(a, j, sub)
    ensures OccursAt(a + b, j, sub)
  {
    assert (a + b)[j..j + |sub|] == a[j..j + |sub|];
  }

  lemma SplitAt(level: seq<ProcessId>, i: nat)
    requires i < |level|
    ensures level == (level[..i] + [level[i]]) + level[i + 1..]
  {
  }

  lemma NextLevelSingle(m: ChildProcessIdMap, x: ProcessId)
    ensures NextLevel(m, [x]) == Children(m, x)
  {
    assert [x][..0] == [];
  }

  lemma AppendAssoc(a: seq<ProcessId>, b: seq<ProcessId>, c: seq<ProcessId>)
    ensures (a + b) + c == a + (b + c)
  {
  }

  /** Where the children of `level[i]` sit in the next level. */
  lemma ChildrenInNextLevel(m: ChildProcessIdMap, level: seq<ProcessId>, i: nat)
    requires i < |level|
    ensures OccursAt(NextLevel(m, level), |NextLevel(m, level[..i])|, Children(m, level[i]))
  {
    var x := level[i];
    SplitAt(level, i);
    NextLevelConcat(m, level[..i] + [x], level[i + 1..]);
    NextLevelConcat(m, level[..i], [x]);
    NextLevelSingle(m, x);
    var front := NextLevel(m, level[..i]);
    var cs := Children(m, x);
    var back := NextLevel(m, level[i + 1..]);
    AppendAssoc(front, cs, back);
    assert OccursAt(cs, 0, cs);
    OccursAtPrefix(cs, back, 0, cs);
    OccursAtAppend(front, cs + back, 0, cs);
  }

  /** Sibling order: the breadth-first order lists the children of each
      listed process together, in the order of its (ascending) list. */
  lemma {:induction false} BfsSiblingsTogether(m: ChildProcessIdMap, below: set<ProcessId>, rank: ProcessId -> nat, level: seq<ProcessId>, p: ProcessId)
    requires RankedBelow(m, below, rank)
    requires forall x :: x in level ==> x in below
    requires p in Bfs(m, below, rank, level)
    ensures exists j: nat :: OccursAt(Bfs(m, below, rank, level), j, Children(m, p))
    decreases Height(rank, level)
  {
    NextLevelLower(m, below, rank, level);
    var next := NextLevel(m, level);
    var rest := Bfs(m, below, rank, next);
    assert Bfs(m, below, rank, level) == level + rest;
    var cs := Children(m, p);
    if p in level {
      var i :| 0 <= i < |level| && level[i] == p;
      ChildrenInNextLevel(m, level, i);
      var o := |NextLevel(m, level[..i])|;
      if next == [] {
        assert cs == [];
        assert OccursAt(level + rest, 0, cs);
      } else {
        NextLevelLower(m, below, rank, next);
        assert rest == next + Bfs(m, below, rank, NextLevel(m, next));
        OccursAtPrefix(next, Bfs(m, below, rank, NextLevel(m, next)), o, cs);
        OccursAtAppend(level, rest, o, cs);
      }
    } else {
      BfsSiblingsTogether(m, below, rank, next, p);
      var j: nat :| OccursAt(rest, j, cs);
      OccursAtAppend(level, rest, j, cs);
    }
  }

  /** Sibling order from the target. */
  lemma DiscoverySiblingsTogether(m: ChildProcessIdMap, below: set<ProcessId>, rank: ProcessId -> nat, target: ProcessId, p: ProcessId)
    requires RankedBelow(m, below, rank) && target in below
    requires p in Discovery(m, below, rank, target)
    ensures exists j: nat :: OccursAt(Discovery(m, below, rank, target), j, Children(m, p))
  {
    BfsSiblingsTogether(m, below, rank, [target], p);
  }

  // ------------------------------------------------------------------
  // The id-to-entry index

  /** The index `get_process_info_map` builds: later entries overwrite
      earlier ones with the same id. */
  function InfoMapOf(infos: seq<ProcessInfo>): ProcessInfoMap {
    if infos == [] then map[]
    else
      var last := infos[|infos| - 1];
      InfoMapOf(infos[..|infos| - 1])[last.processId := last]
  }

  /** Every entry of `im` is filed under its own id. */
  predicate KeyedByOwnId(im: ProcessInfoMap) {
    forall id :: id in im ==> im[id].processId == id
  }

  /** The info index files each entry under its own id. */
  lemma {:induction false} InfoMapKeyedByOwnId(infos: seq<ProcessInfo>)
    ensures KeyedByOwnId(InfoMapOf(infos))
  {
    if infos != [] {
      InfoMapKeyedByOwnId(infos[..|infos| - 1]);
    }
  }

  /** The info index has exactly the snapshot's ids as keys. */
  lemma {:induction false} InfoMapKeys(infos: seq<ProcessInfo>, id: ProcessId)
    ensures id in InfoMapOf(infos) <==> exists i :: 0 <= i < |infos| && infos[i].processId == id
  {
    if infos != [] {
      var n := |infos| - 1;
      var prefix := infos[..n];
      InfoMapKeys(prefix, id);
      if id in InfoMapOf(prefix) {
        var i :| 0 <= i < |prefix| && prefix[i].processId == id;
        assert infos[i] == prefix[i];
      }
      if exists i :: 0 <= i < |infos| && infos[i].processId == id {
        var i :| 0 <= i < |infos| && infos[i].processId == id;
        if i < n {
          assert prefix[i] == infos[i];
        }
      }
    }
  }

  /** For a repeated id the index keeps the last entry carrying it. */
  lemma {:induction false} InfoMapLastWins(infos: seq<ProcessInfo>, i: nat)
    requires i < |infos|
    requires forall j :: i < j < |infos| ==> infos[j].processId != infos[i].processId
    ensures infos[i].processId in InfoMapOf(infos) && InfoMapOf(infos)[infos[i].processId] == infos[i]
  {
    var n := |infos| - 1;
    if i < n {
      var prefix := infos[..n];
      assert prefix[i] == infos[i];
      InfoMapLastWins(prefix, i);
    }
  }
}
