/**
 * The `task` module: spawning a task, asking for the current task's id and
 * waiting for a task to exit.
 */
module Task {
  import opened MachineInts
  import opened Errors
  import opened Handles
  import opened Syscall

  function SpawnRequest(code: Handle, args: Slice<uint8>, initialHandles: Slice<Handle>): Request
  {
    Request(Number(TaskSpawn), Word(code.Raw()), Address, Word(|args|), Address, Word(|initialHandles|))
  }

  /**
   * `spawn`: refuses an invalid code handle without a system call; otherwise one
   * TASK_SPAWN call carrying the code handle and the lengths of the argument
   * bytes and of the initial handle list, and a non-negative answer is the new
   * task's id.
   */
  function Spawn(code: Handle, args: Slice<uint8>, initialHandles: Slice<Handle>, kernel: Kernel)
    : (c: Call<Result<TaskId>>)
    ensures !code.IsValid() ==> c == Call(Err(InvalidHandle), [])
    ensures code.IsValid() ==> c.issued == [SpawnRequest(code, args, initialHandles)]
    ensures code.IsValid() ==> var ret := kernel(SpawnRequest(code, args, initialHandles));
      && (ret < 0 ==> c.result == Err(MapKernelError(ret)))
      && (ret >= 0 ==> c.result == Ok(TaskId(ret)))
  {
    if !code.IsValid() then Refuse(InvalidHandle)
    else Lift(Issue(SpawnRequest(code, args, initialHandles), kernel), v => TaskId(v))
  }

  const CURRENT_ID_REQUEST: Request := Request(Number(GetTaskId), Word(0), Word(0), Word(0), Word(0), Word(0))

  /** `current_id`: one GET_TASK_ID call; a non-negative answer is the caller's id. */
  function CurrentId(kernel: Kernel): (c: Call<Result<TaskId>>)
    ensures c.issued == [CURRENT_ID_REQUEST]
    ensures var ret := kernel(CURRENT_ID_REQUEST);
      && (ret < 0 ==> c.result == Err(MapKernelError(ret)))
      && (ret >= 0 ==> c.result == Ok(TaskId(ret)))
  {
    Lift(Issue(CURRENT_ID_REQUEST, kernel), v => TaskId(v))
  }

  function WaitRequest(t: TaskId): Request
  {
    Request(Number(TaskWait), Word(t.Raw()), Word(0), Word(0), Word(0), Word(0))
  }

  /**
   * `wait_for_exit`: refuses the invalid task id with `InvalidParameter` (not
   * `InvalidHandle`) and without a system call; otherwise one TASK_WAIT call,
   * and a non-negative answer is cut down to its low 32 bits, read as an `i32`.
   */
  function WaitForExit(t: TaskId, kernel: Kernel): (c: Call<Result<int32>>)
    ensures !t.IsValid() ==> c == Call(Err(InvalidParameter), [])
    ensures t.IsValid() ==> c.issued == [WaitRequest(t)]
    ensures t.IsValid() ==> var ret := kernel(WaitRequest(t));
      && (ret < 0 ==> c.result == Err(MapKernelError(ret)))
      && (ret >= 0 ==> c.result.Ok? && c.result.value % TWO_TO_THE_32 == ret % TWO_TO_THE_32)
      && (0 <= ret < 0x8000_0000 ==> c.result == Ok(ret))
  {
    if !t.IsValid() then Refuse(InvalidParameter)
    else
      var ret := kernel(WaitRequest(t));
      Call(if ret < 0 then Err(MapKernelError(ret)) else Ok(I64AsI32(ret)), [WaitRequest(t)])
  }

  /**
   * The kernel's `i64` answer for an exit code, if it widens the code the way
   * `i32 as i64` does: a negative exit code becomes a negative answer.
   */
  function SignExtended(code: int32): int64
  {
    code
  }

  /** The answer for an exit code, if the kernel widens the code's 32 bits without sign. */
  function ZeroExtended(code: int32): int64
  {
    I32AsU32(code)
  }

  /**
   * With sign extension a negative exit code cannot be told from a kernel
   * error: `wait_for_exit` reports the error that code stands for instead,
   * e.g. exit code -1 comes back as `PermissionDenied`.
   */
  lemma SignExtendedNegativeCodeIsAnError(t: TaskId, code: int32, kernel: Kernel)
    requires t.IsValid() && code < 0
    requires kernel(WaitRequest(t)) == SignExtended(code)
    ensures WaitForExit(t, kernel).result == Err(MapKernelError(code))
    ensures code == -1 ==> WaitForExit(t, kernel).result == Err(PermissionDenied)
  {
  }

  /**
   * With zero extension every exit code survives the trip: the answer is
   * non-negative, and the truncation in `wait_for_exit` gives the code back.
   */
  lemma ZeroExtendedCodeRoundTrips(t: TaskId, code: int32, kernel: Kernel)
    requires t.IsValid()
    requires kernel(WaitRequest(t)) == ZeroExtended(code)
    ensures WaitForExit(t, kernel) == Call(Ok(code), [WaitRequest(t)])
  {
    var ret := ZeroExtended(code);
    assert ret >= 0;
    assert I64AsI32(ret) == code;
  }
}
