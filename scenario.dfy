/** A worked snapshot: the System Idle Process (its own parent), System,
    and a small tree below `smss`. */
module Scenario {
  import opened Core
  import opened ProcessTree
  import Windows
  import Common

  const Idle := ProcessInfo(0, 0, "System Idle Process")
  const System := ProcessInfo(4, 0, "System")
  const Smss := ProcessInfo(10, 4, "smss")
  const App := ProcessInfo(30, 10, "app")
  const Helper := ProcessInfo(20, 10, "helper")
  const Worker := ProcessInfo(40, 30, "worker")

  function Snapshot(): seq<ProcessInfo> {
    [Idle, System, Smss, App, Helper, Worker]
  }

  function Rank(x: ProcessId): nat {
    if x <= 100 then 100 - x else 0
  }

  /** The snapshot's prefixes, as the recursive definitions peel them. */
  lemma Prefixes()
    ensures Snapshot()[..5] == [Idle, System, Smss, App, Helper]
    ensures [Idle, System, Smss, App, Helper][..4] == [Idle, System, Smss, App]
    ensures [Idle, System, Smss, App][..3] == [Idle, System, Smss]
    ensures [Idle, System, Smss][..2] == [Idle, System]
    ensures [Idle, System][..1] == [Idle]
    ensures [Idle][..0] == []
  {
  }

  lemma SnapshotParents()
    ensures Parents(Snapshot(), Windows.ChildProcessIdMapFilter) == {0, 4, 10, 30}
  {
    var f := Windows.ChildProcessIdMapFilter;
    Prefixes();
    assert Parents([Idle], f) == {};
    assert Parents([Idle, System], f) == {0};
    assert Parents([Idle, System, Smss], f) == {0, 4};
    assert Parents([Idle, System, Smss, App], f) == {0, 4, 10};
    assert Parents([Idle, System, Smss, App, Helper], f) == {0, 4, 10};
  }

  lemma SnapshotChildIds(p: ProcessId)
    ensures ChildIds(Snapshot(), Windows.ChildProcessIdMapFilter, p) ==
      if p == 0 then [4] else if p == 4 then [10] else if p == 10 then [30, 20] else if p == 30 then [40] else []
  {
    var f := Windows.ChildProcessIdMapFilter;
    Prefixes();
    assert ChildIds([Idle], f, p) == [];
    assert ChildIds([Idle, System], f, p) == if p == 0 then [4] else [];
    assert ChildIds([Idle, System, Smss], f, p) == if p == 0 then [4] else if p == 4 then [10] else [];
    assert ChildIds([Idle, System, Smss, App], f, p) ==
      if p == 0 then [4] else if p == 4 then [10] else if p == 10 then [30] else [];
    assert ChildIds([Idle, System, Smss, App, Helper], f, p) ==
      if p == 0 then [4] else if p == 4 then [10] else if p == 10 then [30, 20] else [];
  }

  lemma SortedSmall()
    ensures SortedOf([4]) == [4] && SortedOf([10]) == [10] && SortedOf([40]) == [40]
    ensures SortedOf([30, 20]) == [20, 30]
  {
    assert [4][..0] == [] && [10][..0] == [] && [40][..0] == [] && [30][..0] == [];
    assert [30, 20][..1] == [30];
    assert Insert(20, [30]) == [20, 30];
  }

  /** The index built from the snapshot. */
  const ChildMap: ChildProcessIdMap := map[0 := [4], 4 := [10], 10 := [20, 30], 30 := [40]]

  lemma MapOfFour(m: ChildProcessIdMap)
    requires m.Keys == {0, 4, 10, 30}
    requires m[0] == [4] && m[4] == [10] && m[10] == [20, 30] && m[30] == [40]
    ensures m == ChildMap
  {
  }

  lemma ChildMapFromParts(infos: seq<ProcessInfo>, f: ProcessInfo -> bool)
    requires Parents(infos, f) == {0, 4, 10, 30}
    requires SortedOf(ChildIds(infos, f, 0)) == [4] && SortedOf(ChildIds(infos, f, 4)) == [10]
    requires SortedOf(ChildIds(infos, f, 10)) == [20, 30] && SortedOf(ChildIds(infos, f, 30)) == [40]
    ensures ChildMapOf(infos, f) == ChildMap
  {
    var m := ChildMapOf(infos, f);
    assert m.Keys == {0, 4, 10, 30};
    assert m[0] == [4] && m[4] == [10] && m[10] == [20, 30] && m[30] == [40];
    MapOfFour(m);
  }

  /** The self-parented idle entry is left out; `smss`'s children come
      sorted although the snapshot lists `app` first. */
  lemma SnapshotChildMap()
    ensures ChildMapOf(Snapshot(), Windows.ChildProcessIdMapFilter) == ChildMap
  {
    SnapshotParents();
    SortedSmall();
    SnapshotChildIds(0);
    SnapshotChildIds(4);
    SnapshotChildIds(10);
    SnapshotChildIds(30);
    ChildMapFromParts(Snapshot(), Windows.ChildProcessIdMapFilter);
  }

  /** The tree below `smss` is acyclic, with `Rank` as the witness. */
  lemma ChildMapRanked()
    ensures RankedBelow(ChildMap, {10, 20, 30, 40}, Rank)
  {
  }

  lemma ChildMapLevels()
    ensures NextLevel(ChildMap, [10]) == [20, 30] && NextLevel(ChildMap, [20, 30]) == [40] && NextLevel(ChildMap, [40]) == []
  {
    assert [10][..0] == [] && [20, 30][..1] == [20] && [40][..0] == [] && [20][..0] == [];
  }

  /** One level of the breadth-first order. */
  lemma BfsUnfold(m: ChildProcessIdMap, below: set<ProcessId>, rank: ProcessId -> nat, level: seq<ProcessId>, next: seq<ProcessId>, rest: seq<ProcessId>)
    requires RankedBelow(m, below, rank) && forall x :: x in level ==> x in below
    requires level != [] && NextLevel(m, level) == next
    requires (NextLevelLower(m, below, rank, level); Bfs(m, below, rank, next) == rest)
    ensures Bfs(m, below, rank, level) == level + rest
  {
  }

  lemma ChildMapDiscovery()
    ensures (ChildMapRanked(); Discovery(ChildMap, {10, 20, 30, 40}, Rank, 10) == [10, 20, 30, 40])
  {
    ChildMapRanked();
    var below := {10, 20, 30, 40};
    ChildMapLevels();
    BfsUnfold(ChildMap, below, Rank, [40], [], []);
    BfsUnfold(ChildMap, below, Rank, [20, 30], [40], [40]);
    BfsUnfold(ChildMap, below, Rank, [10], [20, 30], [20, 30, 40]);
  }

  lemma ReversedFour(a: ProcessId, b: ProcessId, c: ProcessId, d: ProcessId)
    ensures Reversed([a, b, c, d]) == [d, c, b, a]
  {
  }

  /** From `smss`, level by level; children before parents once reversed. */
  lemma ChildMapKillOrder()
    ensures (ChildMapRanked();
      && KillList(ChildMap, {10, 20, 30, 40}, Rank, 10, true) == [10, 20, 30, 40]
      && KillList(ChildMap, {10, 20, 30, 40}, Rank, 10, false) == [20, 30, 40]
      && KillOrder(ChildMap, {10, 20, 30, 40}, Rank, 10, true) == [40, 30, 20, 10])
  {
    ChildMapRanked();
    ChildMapDiscovery();
    assert Without([40], 10) == [40];
    assert Without([30, 40], 10) == [30, 40];
    assert Without([20, 30, 40], 10) == [20, 30, 40];
    ReversedFour(10, 20, 30, 40);
  }

  lemma SnapshotInfoMap()
    ensures InfoMapOf(Snapshot()) == map[0 := Idle, 4 := System, 10 := Smss, 30 := App, 20 := Helper, 40 := Worker]
  {
    Prefixes();
    assert InfoMapOf([Idle]) == map[0 := Idle];
    assert InfoMapOf([Idle, System]) == map[0 := Idle, 4 := System];
    assert InfoMapOf([Idle, System, Smss]) == map[0 := Idle, 4 := System, 10 := Smss];
    assert InfoMapOf([Idle, System, Smss, App]) == map[0 := Idle, 4 := System, 10 := Smss, 30 := App];
    assert InfoMapOf([Idle, System, Smss, App, Helper]) == map[0 := Idle, 4 := System, 10 := Smss, 30 := App, 20 := Helper];
  }

  /** The killer finds `helper` gone already and fails on `smss`: the run
      ends there with that error; without `smss` it reports all three. */
  lemma SnapshotRunFailsFast()
    ensures var outcome := (p: ProcessId) =>
        if p == 10 then Err(Error.Windows(Windows.E_ACCESSDENIED))
        else if p == 20 then Ok(KillOutput.MaybeAlreadyTerminated(p, Error.Windows(Windows.E_INVALIDARG)))
        else Ok(KillOutput.Killed(p));
      && Common.KillAll([40, 30, 20, 10], outcome, InfoMapOf(Snapshot())) == Err(Error.Windows(Windows.E_ACCESSDENIED))
      && Common.Attempted([40, 30, 20, 10], outcome) == [40, 30, 20, 10]
      && Common.KillAll([40, 30, 20], outcome, InfoMapOf(Snapshot())) ==
           Ok([Output.Killed(40, 30, "worker"), Output.Killed(30, 10, "app"),
               Output.MaybeAlreadyTerminated(20, Error.Windows(Windows.E_INVALIDARG))])
  {
    var outcome := (p: ProcessId) =>
        if p == 10 then Err(Error.Windows(Windows.E_ACCESSDENIED))
        else if p == 20 then Ok(KillOutput.MaybeAlreadyTerminated(p, Error.Windows(Windows.E_INVALIDARG)))
        else Ok(KillOutput.Killed(p));
    SnapshotInfoMap();
    var im0 := InfoMapOf(Snapshot());
    var im1 := im0 - {40};
    var im2 := im1 - {30};
    assert [40, 30, 20, 10][1..] == [30, 20, 10] && [30, 20, 10][1..] == [20, 10] && [20, 10][1..] == [10];
    assert [40, 30, 20][1..] == [30, 20] && [30, 20][1..] == [20] && [20][1..] == [];
    assert Common.KillAll([10], outcome, im2) == Err(Error.Windows(Windows.E_ACCESSDENIED));
    assert Common.KillAll([20, 10], outcome, im2) == Err(Error.Windows(Windows.E_ACCESSDENIED));
    assert Common.KillAll([30, 20, 10], outcome, im1) == Err(Error.Windows(Windows.E_ACCESSDENIED));
    var tail := Output.MaybeAlreadyTerminated(20, Error.Windows(Windows.E_INVALIDARG));
    assert [tail] + [] == [tail];
    assert Common.KillAll([20], outcome, im2) == Ok([tail]);
    assert [Output.Killed(30, 10, "app")] + [tail] == [Output.Killed(30, 10, "app"), tail];
    assert Common.KillAll([30, 20], outcome, im1) == Ok([Output.Killed(30, 10, "app"), tail]);
    assert [Output.Killed(40, 30, "worker")] + [Output.Killed(30, 10, "app"), tail]
      == [Output.Killed(40, 30, "worker"), Output.Killed(30, 10, "app"), tail];
  }
}
