/** The `sync` module: creating, acquiring and releasing a kernel lock. */
module Sync {
  import opened MachineInts
  import opened Errors
  import opened Handles
  import opened Syscall

  const LOCK_CREATE_REQUEST: Request := Request(Number(LockCreate), Word(0), Word(0), Word(0), Word(0), Word(0))

  /** `lock_create`: one LOCK_CREATE call; a non-negative answer is the new lock's handle. */
  function Create(kernel: Kernel): (c: Call<Result<Handle>>)
    ensures c.issued == [LOCK_CREATE_REQUEST]
    ensures var ret := kernel(LOCK_CREATE_REQUEST);
      && (ret < 0 ==> c.result == Err(MapKernelError(ret)))
      && (ret >= 0 ==> c.result == Ok(Handle(ret)))
  {
    Lift(Issue(LOCK_CREATE_REQUEST, kernel), v => Handle(v))
  }

  function AcquireRequest(lock: Handle): Request
  {
    Request(Number(LockAcquire), Word(lock.Raw()), Word(0), Word(0), Word(0), Word(0))
  }

  /** `lock_acquire`: `Ok(())` exactly when the handle is valid and the kernel answers non-negatively. */
  function Acquire(lock: Handle, kernel: Kernel): (c: Call<Result<()>>)
    ensures !lock.IsValid() ==> c == Call(Err(InvalidHandle), [])
    ensures lock.IsValid() ==> c.issued == [AcquireRequest(lock)]
    ensures lock.IsValid() && kernel(AcquireRequest(lock)) < 0 ==>
      c.result == Err(MapKernelError(kernel(AcquireRequest(lock))))
    ensures c.result.Ok? <==> lock.IsValid() && kernel(AcquireRequest(lock)) >= 0
  {
    if !lock.IsValid() then Refuse(InvalidHandle) else Lift(Issue(AcquireRequest(lock), kernel), _ => ())
  }

  function ReleaseRequest(lock: Handle): Request
  {
    Request(Number(LockRelease), Word(lock.Raw()), Word(0), Word(0), Word(0), Word(0))
  }

  /** `lock_release`: the same discipline with LOCK_RELEASE. */
  function Release(lock: Handle, kernel: Kernel): (c: Call<Result<()>>)
    ensures !lock.IsValid() ==> c == Call(Err(InvalidHandle), [])
    ensures lock.IsValid() ==> c.issued == [ReleaseRequest(lock)]
    ensures lock.IsValid() && kernel(ReleaseRequest(lock)) < 0 ==>
      c.result == Err(MapKernelError(kernel(ReleaseRequest(lock))))
    ensures c.result.Ok? <==> lock.IsValid() && kernel(ReleaseRequest(lock)) >= 0
  {
    if !lock.IsValid() then Refuse(InvalidHandle) else Lift(Issue(ReleaseRequest(lock), kernel), _ => ())
  }
}
