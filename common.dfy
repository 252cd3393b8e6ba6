/** The platform-independent part of the crate: building the two indexes
    from a snapshot, the breadth-first walk that lists the processes to
    terminate, turning a termination report into an output, and the driver
    that terminates children before parents and stops at the first hard
    error. Each method is proved against the reference definitions of
    `ProcessTree` and of this module. */
module Common {
  import opened Core
  import opened ProcessTree
  import Windows

  // ------------------------------------------------------------------
  // The parent-to-children index

  /** Sorts `a` ascending in place (`sort_unstable`); insertion sort. */
  method SortInPlace(a: array<ProcessId>)
    modifies a
    ensures Sorted(a[..]) && multiset(a[..]) == multiset(old(a[..]))
  {
    var i := 0;
    while i < a.Length
      invariant 0 <= i <= a.Length
      invariant forall k, l :: 0 <= k < l < i ==> a[k] <= a[l]
      invariant multiset(a[..]) == multiset(old(a[..]))
    {
      var j := i;
      while j > 0 && a[j - 1] > a[j]
        invariant 0 <= j <= i
        invariant forall k, l :: 0 <= k < l <= i && k != j && l != j ==> a[k] <= a[l]
        invariant forall l :: j < l <= i ==> a[j] < a[l]
        invariant multiset(a[..]) == multiset(old(a[..]))
      {
        a[j - 1], a[j] := a[j], a[j - 1];
        j := j - 1;
      }
      i := i + 1;
    }
  }

  /** `get_child_process_id_map`: each kept entry is appended to its
      parent's list, then every list is sorted. */
  method GetChildProcessIdMap(infos: seq<ProcessInfo>, filter: ProcessInfo -> bool) returns (m: ChildProcessIdMap)
    ensures m == ChildMapOf(infos, filter)
  {
    m := GroupByParent(infos, filter);
    m := SortEachList(m);
    ChildMapFromLists(m, infos, filter);
  }

  /** The first loop of `get_child_process_id_map`: the lists in snapshot order. */
  method GroupByParent(infos: seq<ProcessInfo>, filter: ProcessInfo -> bool) returns (m: ChildProcessIdMap)
    ensures m.Keys == Parents(infos, filter)
    ensures forall p :: p in m ==> m[p] == ChildIds(infos, filter, p)
  {
    m := map[];
    for i := 0 to |infos|
      invariant m.Keys == Parents(infos[..i], filter)
      invariant forall p :: p in m ==> m[p] == ChildIds(infos[..i], filter, p)
    {
      assert infos[..i + 1][..i] == infos[..i];
      var info := infos[i];
      if filter(info) {
        continue;
      }
      var parent := info.parentProcessId;
      ParentsMembers(infos[..i], filter, parent);
      var children := if parent in m then m[parent] else [];
      m := m[parent := children + [info.processId]];
    }
    assert infos[..|infos|] == infos;
  }

  /** The second loop of `get_child_process_id_map`: every list sorted in place. */
  method SortEachList(unsorted: ChildProcessIdMap) returns (m: ChildProcessIdMap)
    ensures m.Keys == unsorted.Keys
    ensures forall p :: p in m ==> m[p] == SortedOf(unsorted[p])
  {
    m := unsorted;
    var todo := m.Keys;
    while todo != {}
      invariant todo <= m.Keys && m.Keys == unsorted.Keys
      invariant forall p :: p in todo ==> m[p] == unsorted[p]
      invariant forall p :: p in m && p !in todo ==> m[p] == SortedOf(unsorted[p])
      decreases |todo|
    {
      var p :| p in todo;
      var children := m[p];
      var a := new ProcessId[|children|](k requires 0 <= k < |children| => children[k]);
      assert a[..] == children;
      SortInPlace(a);
      SortedPermutationUnique(a[..], SortedOf(children));
      m := m[p := a[..]];
      todo := todo - {p};
    }
  }

  lemma ChildMapFromLists(m: ChildProcessIdMap, infos: seq<ProcessInfo>, filter: ProcessInfo -> bool)
    requires m.Keys == Parents(infos, filter)
    requires forall p :: p in m ==> m[p] == SortedOf(ChildIds(infos, filter, p))
    ensures m == ChildMapOf(infos, filter)
  {
  }

  // ------------------------------------------------------------------
  // The id-to-entry index

  /** `get_process_info_map`: every entry is inserted under its id. */
  method GetProcessInfoMap(infos: seq<ProcessInfo>) returns (m: ProcessInfoMap)
    ensures m == InfoMapOf(infos)
  {
    m := map[];
    for i := 0 to |infos|
      invariant m == InfoMapOf(infos[..i])
    {
      assert infos[..i + 1][..i] == infos[..i];
      m := m[infos[i].processId := infos[i]];
    }
    assert infos[..|infos|] == infos;
  }

  // ------------------------------------------------------------------
  // The breadth-first walk

  /** `get_process_ids_to_kill`: a FIFO walk from the target that lists
      every id it takes off the queue (the target only when
      `includeTarget`) and queues the children of each.

      The ghost `below` and `rank` witness that the index is acyclic below
      the target; without that the walk does not terminate. */
  method GetProcessIdsToKill(target: ProcessId, m: ChildProcessIdMap, config: Config, ghost below: set<ProcessId>, ghost rank: ProcessId -> nat)
    returns (ids: seq<ProcessId>)
    requires RankedBelow(m, below, rank) && target in below
    ensures ids == KillList(m, below, rank, target, config.includeTarget)
  {
    ids := [];
    var queue := [target];
    DrainLevels(m, below, rank, [], [target]);
    assert [] + [target] == [target] + NextLevel(m, []) == [target];
    while queue != []
      invariant forall x :: x in queue ==> x in below
      invariant ids + Selected(Drain(m, below, rank, queue), target, config.includeTarget)
        == KillList(m, below, rank, target, config.includeTarget)
      decreases Total(m, below, rank, queue)
    {
      DrainStep(m, below, rank, queue);
      var processId := queue[0];
      queue := queue[1..];
      SelectStep(ids, processId, Drain(m, below, rank, queue + Children(m, processId)), target, config.includeTarget);
      if processId == target {
        if config.includeTarget {
          ids := ids + [processId];
        }
      } else {
        ids := ids + [processId];
      }
      if processId in m {
        queue := PushBackAll(queue, m[processId]);
      } else {
        assert queue + Children(m, processId) == queue;
      }
    }
  }

  // The walk as a function of its queue, and why it lists level by level.

  /** The number of ids the walk lists from `x` down, counting each path. */
  ghost function Weight(m: ChildProcessIdMap, below: set<ProcessId>, rank: ProcessId -> nat, x: ProcessId): nat
    requires RankedBelow(m, below, rank) && x in below
    decreases rank(x), 1
  {
    1 + WeightBelow(m, below, rank, Children(m, x), rank(x))
  }

  ghost function WeightBelow(m: ChildProcessIdMap, below: set<ProcessId>, rank: ProcessId -> nat, s: seq<ProcessId>, bound: nat): nat
    requires RankedBelow(m, below, rank)
    requires forall y :: y in s ==> y in below && rank(y) < bound
    decreases bound, 0, |s|
  {
    if s == [] then 0 else Weight(m, below, rank, s[0]) + WeightBelow(m, below, rank, s[1..], bound)
  }

  /** The number of ids the walk lists from `queue`. */
  ghost function Total(m: ChildProcessIdMap, below: set<ProcessId>, rank: ProcessId -> nat, queue: seq<ProcessId>): nat
    requires RankedBelow(m, below, rank)
    requires forall x :: x in queue ==> x in below
  {
    if queue == [] then 0 else Weight(m, below, rank, queue[0]) + Total(m, below, rank, queue[1..])
  }

  lemma {:induction false} WeightBelowTotal(m: ChildProcessIdMap, below: set<ProcessId>, rank: ProcessId -> nat, s: seq<ProcessId>, bound: nat)
    requires RankedBelow(m, below, rank)
    requires forall y :: y in s ==> y in below && rank(y) < bound
    ensures WeightBelow(m, below, rank, s, bound) == Total(m, below, rank, s)
    decreases |s|
  {
    if s != [] {
      WeightBelowTotal(m, below, rank, s[1..], bound);
    }
  }

  lemma {:induction false} TotalAppend(m: ChildProcessIdMap, below: set<ProcessId>, rank: ProcessId -> nat, a: seq<ProcessId>, b: seq<ProcessId>)
    requires RankedBelow(m, below, rank)
    requires forall x :: x in a + b ==> x in below
    ensures Total(m, below, rank, a + b) == Total(m, below, rank, a) + Total(m, below, rank, b)
    decreases |a|
  {
    if a != [] {
      assert (a + b)[1..] == a[1..] + b;
      TotalAppend(m, below, rank, a[1..], b);
    } else {
      assert a + b == b;
    }
  }

  /** One step of the walk: take the front, queue its children. */
  lemma DrainStep(m: ChildProcessIdMap, below: set<ProcessId>, rank: ProcessId -> nat, queue: seq<ProcessId>)
    requires RankedBelow(m, below, rank)
    requires forall x :: x in queue ==> x in below
    requires queue != []
    ensures forall x :: x in queue[1..] + Children(m, queue[0]) ==> x in below
    ensures Total(m, below, rank, queue[1..] + Children(m, queue[0])) < Total(m, below, rank, queue)
    ensures Drain(m, below, rank, queue) == [queue[0]] + Drain(m, below, rank, queue[1..] + Children(m, queue[0]))
  {
    DrainStepMeasure(m, below, rank, queue);
  }

  /** What the walk lists from `queue`: the FIFO discipline of the source,
      one id taken from the front, its children queued at the back. */
  ghost function Drain(m: ChildProcessIdMap, below: set<ProcessId>, rank: ProcessId -> nat, queue: seq<ProcessId>): seq<ProcessId>
    requires RankedBelow(m, below, rank)
    requires forall x :: x in queue ==> x in below
    decreases Total(m, below, rank, queue)
  {
    if queue == [] then []
    else
      DrainStepMeasure(m, below, rank, queue);
      [queue[0]] + Drain(m, below, rank, queue[1..] + Children(m, queue[0]))
  }

  /** The queue after one step stays below the target and lists one id
      fewer. */
  lemma DrainStepMeasure(m: ChildProcessIdMap, below: set<ProcessId>, rank: ProcessId -> nat, queue: seq<ProcessId>)
    requires RankedBelow(m, below, rank)
    requires forall x :: x in queue ==> x in below
    requires queue != []
    ensures forall x :: x in queue[1..] + Children(m, queue[0]) ==> x in below
    ensures Total(m, below, rank, queue[1..] + Children(m, queue[0])) < Total(m, below, rank, queue)
  {
    var x := queue[0];
    assert x in queue;
    var next := queue[1..] + Children(m, x);
    forall y | y in next ensures y in below {
      if y !in queue[1..] {
        assert y in Children(m, x);
      }
    }
    TotalAppend(m, below, rank, queue[1..], Children(m, x));
    WeightBelowTotal(m, below, rank, Children(m, x), rank(x));
  }

  /** The queue of a level whose members `done` have been taken holds the
      rest `todo` of the level, then the children of `done`. */
  lemma QueueBelow(m: ChildProcessIdMap, below: set<ProcessId>, rank: ProcessId -> nat, done: seq<ProcessId>, todo: seq<ProcessId>)
    requires RankedBelow(m, below, rank)
    requires forall x :: x in done + todo ==> x in below
    ensures forall x :: x in todo + NextLevel(m, done) ==> x in below
  {
    assert forall x :: x in done ==> x in done + todo;
    NextLevelLower(m, below, rank, done);
    forall x | x in todo + NextLevel(m, done) ensures x in below {
      if x in todo {
        assert x in done + todo;
      }
    }
  }

  /** The FIFO walk lists breadth-first level by level: from the queue of a
      level whose members `done` have been taken, it lists the rest `todo`
      of the level and then every level below. */
  lemma {:induction false} DrainLevels(m: ChildProcessIdMap, below: set<ProcessId>, rank: ProcessId -> nat, done: seq<ProcessId>, todo: seq<ProcessId>)
    requires RankedBelow(m, below, rank)
    requires forall x :: x in done + todo ==> x in below
    ensures (QueueBelow(m, below, rank, done, todo); NextLevelLower(m, below, rank, done + todo);
      Drain(m, below, rank, todo + NextLevel(m, done)) == todo + Bfs(m, below, rank, NextLevel(m, done + todo)))
    decreases Height(rank, done + todo), |todo|, 1
  {
    QueueBelow(m, below, rank, done, todo);
    NextLevelLower(m, below, rank, done + todo);
    if todo == [] {
      assert done + todo == done && todo + NextLevel(m, done) == NextLevel(m, done);
      DrainNextLevel(m, below, rank, done);
    } else {
      DrainTake(m, below, rank, done, todo);
    }
  }

  /** Once the whole level is taken, the queue is the next level. */
  lemma {:induction false} DrainNextLevel(m: ChildProcessIdMap, below: set<ProcessId>, rank: ProcessId -> nat, done: seq<ProcessId>)
    requires RankedBelow(m, below, rank)
    requires forall x :: x in done ==> x in below
    ensures (NextLevelLower(m, below, rank, done);
      Drain(m, below, rank, NextLevel(m, done)) == Bfs(m, below, rank, NextLevel(m, done)))
    decreases Height(rank, done), 0, 0
  {
    NextLevelLower(m, below, rank, done);
    var level := NextLevel(m, done);
    if level != [] {
      assert [] + level == level;
      DrainLevels(m, below, rank, [], level);
      assert level + NextLevel(m, []) == level;
      NextLevelLower(m, below, rank, level);
      assert Bfs(m, below, rank, level) == level + Bfs(m, below, rank, NextLevel(m, level));
    }
  }

  /** Taking the front of the rest of the level. */
  lemma {:induction false} DrainTake(m: ChildProcessIdMap, below: set<ProcessId>, rank: ProcessId -> nat, done: seq<ProcessId>, todo: seq<ProcessId>)
    requires RankedBelow(m, below, rank)
    requires forall x :: x in done + todo ==> x in below
    requires todo != []
    ensures (QueueBelow(m, below, rank, done, todo); NextLevelLower(m, below, rank, done + todo);
      Drain(m, below, rank, todo + NextLevel(m, done)) == todo + Bfs(m, below, rank, NextLevel(m, done + todo)))
    decreases Height(rank, done + todo), |todo|, 0
  {
    QueueBelow(m, below, rank, done, todo);
    NextLevelLower(m, below, rank, done + todo);
    var x := todo[0];
    var queue := todo + NextLevel(m, done);
    DrainStep(m, below, rank, queue);
    NextLevelAppend(m, done, x);
    PopFront(todo, NextLevel(m, done), Children(m, x), NextLevel(m, done + [x]));
    var next := queue[1..] + Children(m, x);
    TakeFront(done, todo);
    DrainLevels(m, below, rank, done + [x], todo[1..]);
    Regroup(Drain(m, below, rank, queue), [x], Drain(m, below, rank, next), todo[1..],
      Bfs(m, below, rank, NextLevel(m, done + todo)), todo);
  }

  /** `a + (b + rest)`, regrouped as `(a + b) + rest`. */
  lemma Regroup(whole: seq<ProcessId>, a: seq<ProcessId>, mid: seq<ProcessId>, b: seq<ProcessId>, rest: seq<ProcessId>, ab: seq<ProcessId>)
    requires whole == a + mid && mid == b + rest && ab == a + b
    ensures whole == ab + rest
  {
  }

  lemma PopFront(todo: seq<ProcessId>, rest: seq<ProcessId>, children: seq<ProcessId>, rest2: seq<ProcessId>)
    requires todo != [] && rest + children == rest2
    ensures (todo + rest)[0] == todo[0] && (todo + rest)[1..] + children == todo[1..] + rest2
  {
    assert (todo + rest)[1..] == todo[1..] + rest;
  }

  lemma TakeFront(done: seq<ProcessId>, todo: seq<ProcessId>)
    requires todo != []
    ensures (done + [todo[0]]) + todo[1..] == done + todo
    ensures todo == [todo[0]] + todo[1..]
  {
  }

  lemma NextLevelAppend(m: ChildProcessIdMap, done: seq<ProcessId>, x: ProcessId)
    ensures NextLevel(m, done + [x]) == NextLevel(m, done) + Children(m, x)
  {
    assert (done + [x])[..|done|] == done;
  }

  /** `queue` with `children` pushed at the back, one at a time. */
  method PushBackAll(queue: seq<ProcessId>, children: seq<ProcessId>) returns (r: seq<ProcessId>)
    ensures r == queue + children
  {
    r := queue;
    for c := 0 to |children|
      invariant r == queue + children[..c]
    {
      assert children[..c + 1] == children[..c] + [children[c]];
      r := r + [children[c]];
    }
    assert children[..|children|] == children;
  }

  /** Listing `x` (unless it is the excluded target) keeps the listed ids
      plus the selection of what is still pending equal to the whole list. */
  lemma SelectStep(ids: seq<ProcessId>, x: ProcessId, rest: seq<ProcessId>, target: ProcessId, includeTarget: bool)
    ensures ids + Selected([x] + rest, target, includeTarget)
      == (if x == target && !includeTarget then ids else ids + [x]) + Selected(rest, target, includeTarget)
  {
    WithoutAppend([x], rest, target);
    assert Without([x], target) == if x == target then [] else [x];
  }

  // ------------------------------------------------------------------
  // Turning a report into an output

  /** `parse_kill_output`: a `Killed` report takes the process's entry out
      of the index and carries its parent and name; a report for an id not
      in the index is dropped; `MaybeAlreadyTerminated` passes through. The
      index the source mutates through `&mut` is returned. */
  function ParseKillOutput(killOutput: KillOutput, infoMap: ProcessInfoMap): (r: (Option<Output>, ProcessInfoMap))
    ensures killOutput.Killed? && killOutput.processId in infoMap ==>
      var info := infoMap[killOutput.processId];
      r.0 == Some(Output.Killed(info.processId, info.parentProcessId, info.name))
    ensures killOutput.Killed? ==> r.1 == infoMap - {killOutput.processId}
    ensures killOutput.Killed? && killOutput.processId !in infoMap ==> r.0 == None
    ensures killOutput.MaybeAlreadyTerminated? ==>
      r == (Some(Output.MaybeAlreadyTerminated(killOutput.processId, killOutput.source)), infoMap)
  {
    match killOutput
    case Killed(processId) =>
      if processId in infoMap then
        var info := infoMap[processId];
        (Some(Output.Killed(info.processId, info.parentProcessId, info.name)), infoMap - {processId})
      else
        (None, infoMap)
    case MaybeAlreadyTerminated(processId, source) =>
      (Some(Output.MaybeAlreadyTerminated(processId, source)), infoMap)
  }

  /** Consume once: a second `Killed` report for the same id yields nothing. */
  lemma ParseConsumesOnce(processId: ProcessId, infoMap: ProcessInfoMap)
    ensures var (first, rest) := ParseKillOutput(KillOutput.Killed(processId), infoMap);
      ParseKillOutput(KillOutput.Killed(processId), rest) == (None, rest)
      && (first.Some? <==> processId in infoMap)
  {
  }

  // ------------------------------------------------------------------
  // The driver

  /** A platform killer (`Killable`): what it reports for each id is a fixed
      function of the id, and the ids it was asked about are recorded. */
  class Killer {
    const outcome: ProcessId -> Result<KillOutput>
    ghost var attempts: seq<ProcessId>

    constructor(outcome: ProcessId -> Result<KillOutput>)
      ensures this.outcome == outcome && attempts == []
    {
      this.outcome := outcome;
      attempts := [];
    }

    method Kill(processId: ProcessId) returns (r: Result<KillOutput>)
      modifies this
      ensures r == outcome(processId)
      ensures attempts == old(attempts) + [processId]
    {
      r := outcome(processId);
      attempts := attempts + [processId];
    }
  }

  /** `Some(x)` as `[x]`, `None` as `[]`. */
  function AsSeq(o: Option<Output>): seq<Output> {
    if o.Some? then [o.value] else []
  }

  function Prepend(outputs: seq<Output>, r: Result<seq<Output>>): Result<seq<Output>> {
    if r.Ok? then Ok(outputs + r.value) else r
  }

  lemma PrependTwice(a: seq<Output>, b: seq<Output>, r: Result<seq<Output>>)
    ensures Prepend(a, Prepend(b, r)) == Prepend(a + b, r)
    ensures Prepend([], r) == r
  {
    if r.Ok? {
      assert a + (b + r.value) == (a + b) + r.value;
      assert [] + r.value == r.value;
    }
  }

  /** What the driver returns for the ids `order`, attempted in that order,
      starting from the entry index `infoMap`. */
  function KillAll(order: seq<ProcessId>, outcome: ProcessId -> Result<KillOutput>, infoMap: ProcessInfoMap): Result<seq<Output>>
  {
    if order == [] then Ok([])
    else
      match outcome(order[0])
      case Err(e) => Err(e)
      case Ok(killOutput) =>
        var (output, rest) := ParseKillOutput(killOutput, infoMap);
        Prepend(AsSeq(output), KillAll(order[1..], outcome, rest))
  }

  /** The ids the driver hands to the killer: all of `order` up to and
      including the first one the killer fails on. */
  function Attempted(order: seq<ProcessId>, outcome: ProcessId -> Result<KillOutput>): seq<ProcessId> {
    if order == [] then []
    else if outcome(order[0]).Err? then [order[0]]
    else [order[0]] + Attempted(order[1..], outcome)
  }

  /** `kill_tree_internal` on Windows: index the snapshot, list the tree
      from `processId`, and hand the ids to the killer in reverse, turning
      each report into an output; the first hard error ends the run. */
  method KillTreeInternal(processId: ProcessId, config: Config, infos: seq<ProcessInfo>, killer: Killer,
                          ghost below: set<ProcessId>, ghost rank: ProcessId -> nat)
    returns (result: Result<seq<Output>>)
    requires RankedBelow(ChildMapOf(infos, Windows.ChildProcessIdMapFilter), below, rank) && processId in below
    modifies killer
    ensures var order := KillOrder(ChildMapOf(infos, Windows.ChildProcessIdMapFilter), below, rank, processId, config.includeTarget);
      && result == KillAll(order, killer.outcome, InfoMapOf(infos))
      && killer.attempts == old(killer.attempts) + Attempted(order, killer.outcome)
  {
    var childMap := GetChildProcessIdMap(infos, Windows.ChildProcessIdMapFilter);
    var ids := GetProcessIdsToKill(processId, childMap, config, below, rank);
    ghost var order := Reversed(ids);
    var outputs: seq<Output> := [];
    var infoMap := GetProcessInfoMap(infos);
    PrependTwice([], [], KillAll(order, killer.outcome, infoMap));
    assert order[..0] == [] && order[0..] == order;
    // children first: the ids from the back of the list to its front
    for k := 0 to |ids|
      invariant |order| == |ids|
      invariant killer.attempts == old(killer.attempts) + order[..k]
      invariant Attempted(order, killer.outcome) == order[..k] + Attempted(order[k..], killer.outcome)
      invariant KillAll(order, killer.outcome, InfoMapOf(infos)) == Prepend(outputs, KillAll(order[k..], killer.outcome, infoMap))
    {
      ReversedAt(ids, k);
      DriverStep(order, k, killer.outcome, infoMap);
      var killOutput := killer.Kill(ids[|ids| - 1 - k]);
      AppendAssoc(old(killer.attempts), order[..k], [order[k]]);
      if killOutput.Err? {
        return Err(killOutput.error);
      }
      Regroup(Attempted(order, killer.outcome), order[..k], Attempted(order[k..], killer.outcome), [order[k]],
        Attempted(order[k + 1..], killer.outcome), order[..k + 1]);
      var (output, rest) := ParseKillOutput(killOutput.value, infoMap);
      PrependTwice(outputs, AsSeq(output), KillAll(order[k + 1..], killer.outcome, rest));
      infoMap := rest;
      if output.Some? {
        outputs := outputs + [output.value];
      }
    }
    DriverEnd(order, killer.outcome, infoMap, outputs);
    result := Ok(outputs);
  }

  /** The driver's view of one more id: a hard error ends the run there,
      a report is turned into an output and the run goes on. */
  lemma DriverStep(order: seq<ProcessId>, k: nat, outcome: ProcessId -> Result<KillOutput>, infoMap: ProcessInfoMap)
    requires k < |order|
    ensures order[..k + 1] == order[..k] + [order[k]]
    ensures outcome(order[k]).Err? ==>
      KillAll(order[k..], outcome, infoMap) == Err(outcome(order[k]).error)
      && Attempted(order[k..], outcome) == [order[k]]
    ensures outcome(order[k]).Ok? ==>
      var (output, rest) := ParseKillOutput(outcome(order[k]).value, infoMap);
      KillAll(order[k..], outcome, infoMap) == Prepend(AsSeq(output), KillAll(order[k + 1..], outcome, rest))
      && Attempted(order[k..], outcome) == [order[k]] + Attempted(order[k + 1..], outcome)
  {
    assert order[k..][0] == order[k] && order[k..][1..] == order[k + 1..];
  }

  lemma DriverEnd(order: seq<ProcessId>, outcome: ProcessId -> Result<KillOutput>, infoMap: ProcessInfoMap, outputs: seq<Output>)
    ensures order[..|order|] == order && order[|order|..] == []
    ensures Prepend(outputs, KillAll(order[|order|..], outcome, infoMap)) == Ok(outputs)
    ensures Attempted(order[|order|..], outcome) == []
  {
    assert outputs + [] == outputs;
  }

  // ------------------------------------------------------------------
  // What a run of the driver promises

  /** The position of the first id the killer fails on, `|order|` when
      there is none. */
  function FirstFailure(order: seq<ProcessId>, outcome: ProcessId -> Result<KillOutput>): (r: nat)
    ensures r <= |order|
    ensures forall l :: 0 <= l < r ==> outcome(order[l]).Ok?
    ensures r < |order| ==> outcome(order[r]).Err?
  {
    if order == [] then 0
    else if outcome(order[0]).Err? then 0
    else 1 + FirstFailure(order[1..], outcome)
  }

  /** Fail fast: the run fails exactly when the killer fails on some id;
      the error is then the one reported for the first such id and nothing
      after it is attempted. A successful run attempts every id. */
  lemma KillAllFailFast(order: seq<ProcessId>, outcome: ProcessId -> Result<KillOutput>, infoMap: ProcessInfoMap)
    ensures var first := FirstFailure(order, outcome);
      && (KillAll(order, outcome, infoMap).Err? <==> first < |order|)
      && (first < |order| ==>
            KillAll(order, outcome, infoMap).error == outcome(order[first]).error
            && Attempted(order, outcome) == order[..first + 1])
      && (first == |order| ==> Attempted(order, outcome) == order)
  {
    KillAllFirstError(order, outcome, infoMap);
    AttemptedUpToFailure(order, outcome);
  }

  lemma {:induction false} KillAllFirstError(order: seq<ProcessId>, outcome: ProcessId -> Result<KillOutput>, infoMap: ProcessInfoMap)
    ensures var first := FirstFailure(order, outcome);
      && (KillAll(order, outcome, infoMap).Err? <==> first < |order|)
      && (first < |order| ==> KillAll(order, outcome, infoMap).error == outcome(order[first]).error)
    decreases |order|
  {
    if order != [] && outcome(order[0]).Ok? {
      var (output, rest) := ParseKillOutput(outcome(order[0]).value, infoMap);
      KillAllFirstError(order[1..], outcome, rest);
      assert FirstFailure(order, outcome) == 1 + FirstFailure(order[1..], outcome);
    }
  }

  lemma {:induction false} AttemptedUpToFailure(order: seq<ProcessId>, outcome: ProcessId -> Result<KillOutput>)
    ensures var first := FirstFailure(order, outcome);
      && (first < |order| ==> Attempted(order, outcome) == order[..first + 1])
      && (first == |order| ==> Attempted(order, outcome) == order)
    decreases |order|
  {
    if order != [] {
      if outcome(order[0]).Err? {
        TakeCons(order, 0);
      } else {
        AttemptedUpToFailure(order[1..], outcome);
        var first := FirstFailure(order[1..], outcome);
        if first < |order| - 1 {
          TakeCons(order, first + 1);
        } else {
          TakeCons(order, |order| - 1);
        }
      }
    }
  }

  /** A prefix of `order` is its head followed by a prefix of its tail. */
  lemma TakeCons(order: seq<ProcessId>, n: nat)
    requires n < |order|
    ensures order[..n + 1] == [order[0]] + order[1..][..n]
    ensures n == |order| - 1 ==> order == [order[0]] + order[1..][..n] && order[1..][..n] == order[1..]
  {
  }

  /** No more outputs than positions in the order. */
  lemma {:induction false} KillAllOutputsBound(order: seq<ProcessId>, outcome: ProcessId -> Result<KillOutput>, infoMap: ProcessInfoMap)
    ensures KillAll(order, outcome, infoMap).Ok? ==> |KillAll(order, outcome, infoMap).value| <= |order|
    decreases |order|
  {
    if order != [] && outcome(order[0]).Ok? {
      var (output, rest) := ParseKillOutput(outcome(order[0]).value, infoMap);
      KillAllOutputsBound(order[1..], outcome, rest);
    }
  }

  /** Consume once: every `Killed` output carries the entry of the index
      it was reported for, and no process is reported `Killed` twice, even
      when the killer reports the same id more than once. */
  lemma {:induction false} KillAllConsumesOnce(order: seq<ProcessId>, outcome: ProcessId -> Result<KillOutput>, infoMap: ProcessInfoMap)
    requires KeyedByOwnId(infoMap)
    ensures var r := KillAll(order, outcome, infoMap);
      r.Ok? ==>
        (forall i :: 0 <= i < |r.value| && r.value[i].Killed? ==>
          r.value[i].processId in infoMap
          && infoMap[r.value[i].processId] == ProcessInfo(r.value[i].processId, r.value[i].parentProcessId, r.value[i].name))
        && (forall i, j :: 0 <= i < j < |r.value| && r.value[i].Killed? && r.value[j].Killed? ==>
          r.value[i].processId != r.value[j].processId)
    decreases |order|
  {
    if order != [] && outcome(order[0]).Ok? {
      var killOutput := outcome(order[0]).value;
      var (output, rest) := ParseKillOutput(killOutput, infoMap);
      assert KeyedByOwnId(rest);
      KillAllConsumesOnce(order[1..], outcome, rest);
      var r := KillAll(order, outcome, infoMap);
      if r.Ok? {
        var tail := KillAll(order[1..], outcome, rest).value;
        assert r.value == AsSeq(output) + tail;
        forall i | 0 <= i < |tail| && tail[i].Killed?
          ensures tail[i].processId in infoMap
          ensures killOutput.Killed? && killOutput.processId in infoMap ==> tail[i].processId != killOutput.processId
        {
        }
      }
    }
  }

  /** The killer reports on the id it was asked about. */
  ghost predicate Echoes(outcome: ProcessId -> Result<KillOutput>) {
    forall p :: outcome(p).Ok? ==> outcome(p).value.processId == p
  }

  /** The Windows killer reports on the id it was asked about, whatever the
      Win32 calls report. */
  lemma WindowsKillerEchoes(open: ProcessId -> Windows.Status, terminate: ProcessId -> Windows.Status, close: ProcessId -> Windows.Status)
    ensures Echoes((p: ProcessId) => Windows.Kill(p, open(p), terminate(p), close(p)))
  {
    var outcome := (p: ProcessId) => Windows.Kill(p, open(p), terminate(p), close(p));
    forall p: ProcessId | outcome(p).Ok? ensures outcome(p).value.processId == p {
      assert outcome(p) == Windows.Kill(p, open(p), terminate(p), close(p));
    }
  }

  function OutputIds(outputs: seq<Output>): seq<ProcessId> {
    seq(|outputs|, i requires 0 <= i < |outputs| => outputs[i].processId)
  }

  /** `a` is `b` with some elements dropped. */
  predicate Subsequence(a: seq<ProcessId>, b: seq<ProcessId>) {
    a == [] || (b != [] && (Subsequence(a, b[1..]) || (a[0] == b[0] && Subsequence(a[1..], b[1..]))))
  }

  /** Outputs keep the attempt order: their ids are the attempted ids with
      the dropped reports left out. */
  lemma {:induction false} KillAllInOrder(order: seq<ProcessId>, outcome: ProcessId -> Result<KillOutput>, infoMap: ProcessInfoMap)
    requires Echoes(outcome) && KeyedByOwnId(infoMap)
    ensures KillAll(order, outcome, infoMap).Ok? ==> Subsequence(OutputIds(KillAll(order, outcome, infoMap).value), order)
    decreases |order|
  {
    if order != [] && outcome(order[0]).Ok? {
      var (output, rest) := ParseKillOutput(outcome(order[0]).value, infoMap);
      assert KeyedByOwnId(rest);
      KillAllInOrder(order[1..], outcome, rest);
      var r := KillAll(order, outcome, infoMap);
      if r.Ok? {
        var tail := KillAll(order[1..], outcome, rest).value;
        if output.Some? {
          assert r.value == [output.value] + tail;
          assert OutputIds(r.value)[1..] == OutputIds(tail);
        } else {
          assert r.value == tail;
        }
      }
    }
  }
}
