/** The Windows rules that plug into the process-tree algorithm: the
    protected ids, the self-parent filter, the classification of one
    termination attempt and the draining of a Toolhelp process snapshot.
    Every Win32 call is replaced by the outcome it reports. */
module Windows {
  import opened Core
  import opened ProcessTree

  /** Process id of the System Idle Process. */
  const SYSTEM_IDLE_PROCESS_PROCESS_ID: ProcessId := 0

  /** Process id of System. */
  const SYSTEM_PROCESS_ID: ProcessId := 4

  /** HRESULT 0x80070005, "Access is denied". */
  const E_ACCESSDENIED: HResult := 0x8007_0005

  /** HRESULT 0x80070057, "The parameter is incorrect". */
  const E_INVALIDARG: HResult := 0x8007_0057

  /** Win32 error 18 ("There are no more files") as an HRESULT. */
  const ERROR_NO_MORE_FILES: HResult := 0x8007_0012

  /** `u32::MAX + 1`: a size below this converts to `u32`. */
  const U32_LIMIT: int := 0x1_0000_0000

  /** What a Win32 call reported. */
  datatype Status = Succeeded | Failed(code: HResult)

  /** The Win32 calls a termination attempt or the snapshot walk makes. */
  datatype Win32Call =
    | OpenProcess
    | TerminateProcess
    | CreateToolhelp32Snapshot
    | Process32First
    | Process32Next
    | CloseHandle

  // ------------------------------------------------------------------
  // Protected ids and the filter

  /** Refuses the two ids Windows reserves for itself. */
  function ValidateProcessId(processId: ProcessId): (r: Result<()>)
    ensures r.Ok? <==> processId != SYSTEM_IDLE_PROCESS_PROCESS_ID && processId != SYSTEM_PROCESS_ID
    ensures processId == SYSTEM_IDLE_PROCESS_PROCESS_ID ==>
      r == Err(InvalidProcessId(processId, "Not allowed to kill System Idle Process"))
    ensures processId == SYSTEM_PROCESS_ID ==>
      r == Err(InvalidProcessId(processId, "Not allowed to kill System"))
  {
    if processId == SYSTEM_IDLE_PROCESS_PROCESS_ID then
      Err(InvalidProcessId(processId, "Not allowed to kill System Idle Process"))
    else if processId == SYSTEM_PROCESS_ID then
      Err(InvalidProcessId(processId, "Not allowed to kill System"))
    else
      Ok(())
  }

  /** Leaves out of the child index the entry that names itself as its own
      parent (the System Idle Process does). */
  predicate ChildProcessIdMapFilter(info: ProcessInfo) {
    info.parentProcessId == info.processId
  }

  /** With this filter no process is listed as its own child. */
  lemma FilterRemovesSelfLoops(infos: seq<ProcessInfo>, p: ProcessId)
    ensures p !in Children(ChildMapOf(infos, ChildProcessIdMapFilter), p)
  {
    ChildMapListsSnapshot(infos, ChildProcessIdMapFilter);
    NoSelfListing(ChildMapOf(infos, ChildProcessIdMapFilter), infos, p);
  }

  lemma NoSelfListing(m: ChildProcessIdMap, infos: seq<ProcessInfo>, p: ProcessId)
    requires ListsSnapshot(m, infos, ChildProcessIdMapFilter)
    ensures p !in Children(m, p)
  {
  }

  /** An entry the filter keeps is listed under its parent in the index. */
  lemma FilterKeepsOthers(infos: seq<ProcessInfo>, i: nat)
    requires i < |infos| && infos[i].parentProcessId != infos[i].processId
    ensures infos[i].processId in Children(ChildMapOf(infos, ChildProcessIdMapFilter), infos[i].parentProcessId)
  {
    ChildMapMembers(infos, ChildProcessIdMapFilter, infos[i].parentProcessId, infos[i].processId);
  }

  // ------------------------------------------------------------------
  // One termination attempt

  /** The outcome of terminating `processId`, given what `OpenProcess`,
      `TerminateProcess` (exit code 1) and `CloseHandle` report. The last
      two are made only when the open succeeded. */
  function Kill(processId: ProcessId, open: Status, terminate: Status, close: Status): (r: Result<KillOutput>)
    // the process was opened and terminated and its handle closed
    ensures r == Ok(KillOutput.Killed(processId)) <==>
      open.Succeeded? && terminate.Succeeded? && close.Succeeded?
    // access denied on terminate, or an invalid argument on open: probably gone already
    ensures r == Ok(KillOutput.MaybeAlreadyTerminated(processId, Error.Windows(E_ACCESSDENIED))) <==>
      open.Succeeded? && terminate == Failed(E_ACCESSDENIED) && close.Succeeded?
    ensures r == Ok(KillOutput.MaybeAlreadyTerminated(processId, Error.Windows(E_INVALIDARG))) <==>
      open == Failed(E_INVALIDARG)
    // everything else is a hard error: a failed close, then a failed terminate, then a failed open
    ensures open.Succeeded? && close.Failed? ==> r == Err(Error.Windows(close.code))
    ensures open.Succeeded? && close.Succeeded? && terminate.Failed? && terminate.code != E_ACCESSDENIED ==>
      r == Err(Error.Windows(terminate.code))
    ensures open.Failed? && open.code != E_INVALIDARG ==> r == Err(Error.Windows(open.code))
    // a close failure is never hidden, and a reported outcome names the process asked for
    ensures r.Ok? ==> r.value.processId == processId
  {
    match open
    case Succeeded =>
      var result :=
        if terminate.Succeeded? then Ok(KillOutput.Killed(processId))
        else if terminate.code == E_ACCESSDENIED then Ok(KillOutput.MaybeAlreadyTerminated(processId, Error.Windows(terminate.code)))
        else Err(Error.Windows(terminate.code));
      if close.Failed? then Err(Error.Windows(close.code)) else result
    case Failed(code) =>
      if code == E_INVALIDARG then Ok(KillOutput.MaybeAlreadyTerminated(processId, Error.Windows(code)))
      else Err(Error.Windows(code))
  }

  /** `blocking::kill` as the source runs it: `result` is set while the
      handle is open and the handle is closed before `result` is returned;
      `calls` records the Win32 calls made. */
  method KillProcess(processId: ProcessId, open: Status, terminate: Status, close: Status)
    returns (result: Result<KillOutput>, calls: seq<Win32Call>)
    ensures result == Kill(processId, open, terminate, close)
    // a handle that was opened is always closed, and last; none is closed otherwise
    ensures open.Succeeded? ==> calls == [OpenProcess, TerminateProcess, CloseHandle]
    ensures open.Failed? ==> calls == [OpenProcess]
  {
    calls := [OpenProcess];
    match open {
      case Succeeded =>
        calls := calls + [TerminateProcess];
        if terminate.Succeeded? {
          result := Ok(KillOutput.Killed(processId));
        } else if terminate.code == E_ACCESSDENIED {
          result := Ok(KillOutput.MaybeAlreadyTerminated(processId, Error.Windows(terminate.code)));
        } else {
          result := Err(Error.Windows(terminate.code));
        }
        calls := calls + [CloseHandle];
        if close.Failed? {
          return Err(Error.Windows(close.code)), calls;
        }
      case Failed(code) =>
        if code == E_INVALIDARG {
          result := Ok(KillOutput.MaybeAlreadyTerminated(processId, Error.Windows(code)));
        } else {
          result := Err(Error.Windows(code));
        }
    }
  }

  /** `TerminateProcess` and `CloseHandle` are made only on an opened
      handle: when the open fails, what they would report is irrelevant. */
  lemma KillWithoutHandle(processId: ProcessId, code: HResult, terminate1: Status, close1: Status, terminate2: Status, close2: Status)
    ensures Kill(processId, Failed(code), terminate1, close1) == Kill(processId, Failed(code), terminate2, close2)
  {
  }

  // ------------------------------------------------------------------
  // Draining a process snapshot

  /** `n` calls to `Process32Next`. */
  function NextCalls(n: nat): seq<Win32Call> {
    seq(n, _ => Process32Next)
  }

  /** The snapshot entries, read with `Process32First` and then
      `Process32Next` until a call fails.

      `snapshot` and `close` are what `CreateToolhelp32Snapshot` and the
      final `CloseHandle` report; `entrySize` is the size of
      `PROCESSENTRY32`; the snapshot yields `entries` in order and then
      fails with `stop` (for an empty snapshot the first call already
      fails with `stop`). `calls` records the Win32 calls made. */
  method GetProcessInfos(snapshot: Status, entrySize: nat, entries: seq<ProcessInfo>, stop: HResult, close: Status)
    returns (result: Result<seq<ProcessInfo>>, calls: seq<Win32Call>)
    // no snapshot: the error is returned at once and nothing is left to close
    ensures snapshot.Failed? ==> result == Err(Error.Windows(snapshot.code)) && calls == [CreateToolhelp32Snapshot]
    // a snapshot, once created, is always closed, and last
    ensures snapshot.Succeeded? ==> |calls| >= 2 && calls[0] == CreateToolhelp32Snapshot && calls[|calls| - 1] == CloseHandle
    ensures snapshot.Succeeded? && entrySize < U32_LIMIT ==>
      calls == [CreateToolhelp32Snapshot, Process32First] + NextCalls(|entries|) + [CloseHandle]
    ensures snapshot.Succeeded? && entrySize >= U32_LIMIT ==> calls == [CreateToolhelp32Snapshot, CloseHandle]
    // success exactly when every step succeeded and the walk ended with "no more files"
    ensures result.Ok? <==>
      snapshot.Succeeded? && close.Succeeded? && entrySize < U32_LIMIT && entries != [] && stop == ERROR_NO_MORE_FILES
    ensures result.Ok? ==> result.value == entries
    // the errors, the failed close first
    ensures snapshot.Succeeded? && close.Failed? ==> result == Err(Error.Windows(close.code))
    ensures snapshot.Succeeded? && close.Succeeded? && entrySize >= U32_LIMIT ==>
      result == Err(InvalidCast("size of PROCESSENTRY32 to u32"))
    ensures snapshot.Succeeded? && close.Succeeded? && entrySize < U32_LIMIT && (entries == [] || stop != ERROR_NO_MORE_FILES) ==>
      result == Err(Error.Windows(stop))
  {
    calls := [CreateToolhelp32Snapshot];
    if snapshot.Failed? {
      return Err(Error.Windows(snapshot.code)), calls;
    }
    var infos: seq<ProcessInfo> := [];
    var error: Option<Error> := None;
    if entrySize < U32_LIMIT {
      calls := calls + [Process32First];
      if entries == [] {
        error := Some(Error.Windows(stop));
      } else {
        // entries[i] is the entry the last successful call filled in
        var i := 0;
        while true
          invariant 0 <= i < |entries|
          invariant infos == entries[..i]
          invariant calls == [CreateToolhelp32Snapshot, Process32First] + NextCalls(i)
          invariant error == None
          decreases |entries| - i
        {
          infos := infos + [entries[i]];
          calls := calls + [Process32Next];
          if i + 1 < |entries| {
            i := i + 1;
          } else {
            if stop != ERROR_NO_MORE_FILES {
              error := Some(Error.Windows(stop));
            }
            break;
          }
        }
        assert infos == entries;
        assert calls == [CreateToolhelp32Snapshot, Process32First] + NextCalls(|entries|);
      }
    } else {
      error := Some(InvalidCast("size of PROCESSENTRY32 to u32"));
    }
    calls := calls + [CloseHandle];
    if close.Failed? {
      return Err(Error.Windows(close.code)), calls;
    }
    if error.Some? {
      result := Err(error.value);
    } else {
      result := Ok(infos);
    }
  }
}
