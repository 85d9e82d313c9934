/** Failure values shared by the kernel modules, and the two usual wrapper types. */
module Errors {

  datatype Error =
    | NotEnoughMem
    | InvalidVirtAddr
    | NetFail
    | WouldBlock
    | InvalidRuntimeSchedTable
    | InvalidInspectorStatus
    | InvalidTimedEventStatus
    | DuplicateExecutorId
    | DuplicateTaskId

  datatype Option<+T> = None | Some(value: T)

  datatype Result<+T> = Ok(value: T) | Err(error: Error)
}
