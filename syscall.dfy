/**
 * The system-call boundary. The kernel itself is not modelled: the single
 * `syscall(number, arg1, ..., arg5) -> i64` entry point is an oracle, passed
 * to every wrapper, that answers each request with an `i64` (and, for calls
 * that hand it a buffer, with what it stores there). Every wrapper returns the
 * list of requests it issued, so "no system call was made" is `issued == []`.
 */
module Syscall {
  import opened MachineInts
  import opened Errors

  /** The system calls named in the `arch` module. */
  datatype SyscallId =
    | MemoryAllocate | MemoryRelease | TaskSpawn | TaskExit
    | ResourceAcquire | ResourceRead | ResourceWrite | ResourceRelease
    | GetTaskId | TaskSleep | LockCreate | LockAcquire | LockRelease
    | ThreadCreate | ThreadExit | GetSystemTime
    | SharedMemCreate | SharedMemMap | SharedMemUnmap
    | MessageSend | MessageReceive
    | GetKernelInfo | TaskYield | ResourceControl
    | ResourceSeek | ResourceStat | TaskWait
    | ChannelCreate | ChannelConnect | ChannelSend | ChannelReceive | Poll

  /** The `arch::SYSCALL_*` constant of each call; no two calls share a number. */
  function Number(id: SyscallId): (n: uint64)
    ensures IdOfNumber(n) == Some(id)
  {
    match id
    case MemoryAllocate => 1
    case MemoryRelease => 2
    case TaskSpawn => 3
    case TaskExit => 4
    case ResourceAcquire => 5
    case ResourceRead => 6
    case ResourceWrite => 7
    case ResourceRelease => 8
    case GetTaskId => 9
    case TaskSleep => 10
    case LockCreate => 11
    case LockAcquire => 12
    case LockRelease => 13
    case ThreadCreate => 14
    case ThreadExit => 15
    case GetSystemTime => 16
    case SharedMemCreate => 17
    case SharedMemMap => 18
    case SharedMemUnmap => 19
    case MessageSend => 20
    case MessageReceive => 21
    case GetKernelInfo => 100
    case TaskYield => 101
    case ResourceControl => 102
    case ResourceSeek => 103
    case ResourceStat => 104
    case TaskWait => 105
    case ChannelCreate => 106
    case ChannelConnect => 107
    case ChannelSend => 108
    case ChannelReceive => 109
    case Poll => 110
  }

  /** The call a number stands for, as the kernel's dispatcher reads it. */
  function IdOfNumber(n: uint64): Option<SyscallId>
  {
    match n
    case 1 => Some(MemoryAllocate)
    case 2 => Some(MemoryRelease)
    case 3 => Some(TaskSpawn)
    case 4 => Some(TaskExit)
    case 5 => Some(ResourceAcquire)
    case 6 => Some(ResourceRead)
    case 7 => Some(ResourceWrite)
    case 8 => Some(ResourceRelease)
    case 9 => Some(GetTaskId)
    case 10 => Some(TaskSleep)
    case 11 => Some(LockCreate)
    case 12 => Some(LockAcquire)
    case 13 => Some(LockRelease)
    case 14 => Some(ThreadCreate)
    case 15 => Some(ThreadExit)
    case 16 => Some(GetSystemTime)
    case 17 => Some(SharedMemCreate)
    case 18 => Some(SharedMemMap)
    case 19 => Some(SharedMemUnmap)
    case 20 => Some(MessageSend)
    case 21 => Some(MessageReceive)
    case 100 => Some(GetKernelInfo)
    case 101 => Some(TaskYield)
    case 102 => Some(ResourceControl)
    case 103 => Some(ResourceSeek)
    case 104 => Some(ResourceStat)
    case 105 => Some(TaskWait)
    case 106 => Some(ChannelCreate)
    case 107 => Some(ChannelConnect)
    case 108 => Some(ChannelSend)
    case 109 => Some(ChannelReceive)
    case 110 => Some(Poll)
    case _ => None
  }

  /** The syscall numbers are pairwise distinct. */
  lemma NumbersDistinct(a: SyscallId, b: SyscallId)
    ensures Number(a) == Number(b) ==> a == b
  {
    assert IdOfNumber(Number(a)) == Some(a);
    assert IdOfNumber(Number(b)) == Some(b);
  }

  /**
   * A register-sized argument: a plain 64-bit word, or the address of a
   * buffer of the caller (addresses are not tracked by the model).
   */
  datatype Arg = Word(value: uint64) | Address

  /** One system call: its number and its five arguments. */
  datatype Request = Request(number: uint64, a1: Arg, a2: Arg, a3: Arg, a4: Arg, a5: Arg)

  /** The kernel's `i64` answer to a request. */
  type Kernel = Request -> int64

  /** The kernel's answer to a request that hands it a buffer: the `i64` and what it stores. */
  datatype Answer<D> = Answer(ret: int64, stores: D)

  type FillingKernel<D> = Request -> Answer<D>

  /** What a wrapper returns, together with the system calls it issued, in order. */
  datatype Call<R> = Call(result: R, issued: seq<Request>)

  /** The early return before any system call. */
  function Refuse<T>(e: SahneError): (c: Call<Result<T>>)
    ensures c.issued == [] && c.result.Err? && c.result.error == e
  {
    Call(Err(e), [])
  }

  /** Issue one request and decode the kernel's answer the way every wrapper does. */
  function Issue(req: Request, kernel: Kernel): (c: Call<Result<uint64>>)
    ensures c.issued == [req]
    ensures c.result == Decode(kernel(req))
  {
    Call(Decode(kernel(req)), [req])
  }

  /** A wrapper's `Ok(...)` arm: the decoded word converted to the wrapper's result type. */
  function Lift<T>(c: Call<Result<uint64>>, convert: uint64 -> T): (r: Call<Result<T>>)
    ensures r.issued == c.issued
    ensures c.result.Ok? ==> r.result == Ok(convert(c.result.value))
    ensures c.result.Err? ==> r.result == Err(c.result.error)
  {
    match c.result
    case Ok(v) => Call(Ok(convert(v)), c.issued)
    case Err(e) => Call(Err(e), c.issued)
  }

  /**
   * The caller's buffer after the kernel stored `data` into it: the store is
   * confined to the buffer, and the bytes beyond `data` keep their value.
   */
  function Overwrite<T>(buffer: seq<T>, data: seq<T>): (r: seq<T>)
    ensures |r| == |buffer|
    ensures forall i :: 0 <= i < |r| ==> r[i] == (if i < |data| then data[i] else buffer[i])
  {
    if |buffer| <= |data| then data[..|buffer|] else data + buffer[|data|..]
  }

  /** A `&mut T` place the kernel (or a compound assignment) writes through. */
  class Place<T> {
    var value: T

    constructor (v: T)
      ensures value == v
    {
      value := v;
    }
  }

  /** The kernel writing `data` into `buffer` in place, within the buffer's bounds. */
  method Store<T>(buffer: array<T>, data: seq<T>)
    modifies buffer
    ensures buffer[..] == Overwrite(old(buffer[..]), data)
  {
    forall i | 0 <= i < buffer.Length && i < |data| {
      buffer[i] := data[i];
    }
    assert buffer[..] == Overwrite(old(buffer[..]), data);
  }
}
