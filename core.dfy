/** Shared types of the kill_tree crate: process ids and snapshots, the
    termination outcomes, the crate's error type and result wrapper. */
module Core {

  /** A process id, a Rust `u32`. */
  type ProcessId = x: int | 0 <= x < 0x1_0000_0000

  /** An HRESULT, kept as its 32-bit pattern (0x8007_0005 rather than a negative `i32`). */
  type HResult = x: int | 0 <= x < 0x1_0000_0000

  /** One entry of a process snapshot. */
  datatype ProcessInfo = ProcessInfo(processId: ProcessId, parentProcessId: ProcessId, name: string)

  /** Parent id to the ids of its children. */
  type ChildProcessIdMap = map<ProcessId, seq<ProcessId>>

  /** Process id to the snapshot entry that carries it. */
  type ProcessInfoMap = map<ProcessId, ProcessInfo>

  /** The per-call options; the Windows adapter reads only `includeTarget`. */
  datatype Config = Config(includeTarget: bool)

  /** The crate's error type, restricted to the variants the modelled files raise. */
  datatype Error =
    | InvalidProcessId(processId: ProcessId, reason: string)
    | Windows(code: HResult)
    | InvalidCast(reason: string)

  datatype Result<T> = Ok(value: T) | Err(error: Error)

  datatype Option<T> = None | Some(value: T)

  /** What one termination attempt reports. */
  datatype KillOutput =
    | Killed(processId: ProcessId)
    | MaybeAlreadyTerminated(processId: ProcessId, source: Error)

  /** What the caller receives for one terminated process. */
  datatype Output =
    | Killed(processId: ProcessId, parentProcessId: ProcessId, name: string)
    | MaybeAlreadyTerminated(processId: ProcessId, source: Error)
}
