/**
 * The C header's ABI tables, declared once more as the header declares them,
 * and their agreement with the Rust side: error codes, system-call numbers,
 * mode bits, kernel-information kinds, seek origins, poll bits and the two
 * structs that cross the boundary.
 */
module SahneH {
  import opened MachineInts
  import opened Errors
  import opened Syscall
  import opened Layout
  import Resource
  import Poll
  import KernelInfo

  const SAHNE_SUCCESS: int32 := 0

  /** The `SAHNE_ERROR_*` code of each `SahneError` variant. */
  function ErrorCode(e: SahneError): (code: int32)
    ensures code != SAHNE_SUCCESS
  {
    match e
    case OutOfMemory => 1
    case InvalidAddress => 2
    case InvalidParameter => 3
    case ResourceNotFound => 4
    case PermissionDenied => 5
    case ResourceBusy => 6
    case Interrupted => 7
    case NoMessage => 8
    case InvalidOperation => 9
    case NotSupported => 10
    case UnknownSystemCall => 11
    case TaskCreationFailed => 12
    case InvalidHandle => 13
    case HandleLimitExceeded => 14
    case NamingError => 15
    case CommunicationError => 16
    case WouldBlock => 17
    case Disconnected => 18
  }

  /**
   * Every C error code is the variant's position in the Rust enum plus one,
   * so the codes are exactly 1 to 18 and pairwise distinct.
   */
  lemma ErrorCodesArePositionPlusOne(e: SahneError, f: SahneError)
    ensures ErrorCode(e) == Position(e) + 1
    ensures 1 <= ErrorCode(e) <= 18
    ensures ErrorCode(e) == ErrorCode(f) ==> e == f
  {
    PositionInjective(e, f);
  }

  /** The `SAHNE_SYSCALL_*` number of each system call. */
  function HeaderSyscallNumber(id: SyscallId): uint64
  {
    match id
    case MemoryAllocate => 1
    case MemoryRelease => 2
    case TaskSpawn => 3
    case TaskExit => 4
    case ResourceAcquire => 5
    case ResourceRead => 6
    case ResourceWrite => 7
    case ResourceRelease => 8
    case GetTaskId => 9
    case TaskSleep => 10
    case LockCreate => 11
    case LockAcquire => 12
    case LockRelease => 13
    case ThreadCreate => 14
    case ThreadExit => 15
    case GetSystemTime => 16
    case SharedMemCreate => 17
    case SharedMemMap => 18
    case SharedMemUnmap => 19
    case MessageSend => 20
    case MessageReceive => 21
    case GetKernelInfo => 100
    case TaskYield => 101
    case ResourceControl => 102
    case ResourceSeek => 103
    case ResourceStat => 104
    case TaskWait => 105
    case ChannelCreate => 106
    case ChannelConnect => 107
    case ChannelSend => 108
    case ChannelReceive => 109
    case Poll => 110
  }

  /** The header's numbers are the Rust `arch` numbers, call for call, and so pairwise distinct. */
  lemma SyscallNumbersAgree(id: SyscallId, other: SyscallId)
    ensures HeaderSyscallNumber(id) == Number(id)
    ensures HeaderSyscallNumber(id) == HeaderSyscallNumber(other) ==> id == other
  {
    NumbersDistinct(id, other);
  }

  const SAHNE_MODE_READ: bv32 := 1 << 0
  const SAHNE_MODE_WRITE: bv32 := 1 << 1
  const SAHNE_MODE_CREATE: bv32 := 1 << 2
  const SAHNE_MODE_EXCLUSIVE: bv32 := 1 << 3
  const SAHNE_MODE_TRUNCATE: bv32 := 1 << 4
  const SAHNE_MODE_NONBLOCK: bv32 := 1 << 5

  /** A mask with exactly one bit set. */
  predicate SingleBit(x: bv32)
  {
    x != 0 && x & (x - 1) == 0
  }

  /** The header's six mode bits equal the Rust `MODE_*` constants and are six distinct single bits. */
  lemma ModesAgree()
    ensures SAHNE_MODE_READ == Resource.MODE_READ && SAHNE_MODE_WRITE == Resource.MODE_WRITE
    ensures SAHNE_MODE_CREATE == Resource.MODE_CREATE && SAHNE_MODE_EXCLUSIVE == Resource.MODE_EXCLUSIVE
    ensures SAHNE_MODE_TRUNCATE == Resource.MODE_TRUNCATE && SAHNE_MODE_NONBLOCK == Resource.MODE_NONBLOCK
    ensures var modes := [SAHNE_MODE_READ, SAHNE_MODE_WRITE, SAHNE_MODE_CREATE,
                          SAHNE_MODE_EXCLUSIVE, SAHNE_MODE_TRUNCATE, SAHNE_MODE_NONBLOCK];
      && (forall i :: 0 <= i < |modes| ==> SingleBit(modes[i]))
      && (forall i, j :: 0 <= i < j < |modes| ==> modes[i] & modes[j] == 0)
  {
  }

  const SAHNE_KERNEL_INFO_VERSION_MAJOR: uint32 := 1
  const SAHNE_KERNEL_INFO_VERSION_MINOR: uint32 := 2
  const SAHNE_KERNEL_INFO_BUILD_ID: uint32 := 3
  const SAHNE_KERNEL_INFO_UPTIME_SECONDS: uint32 := 4
  const SAHNE_KERNEL_INFO_ARCHITECTURE: uint32 := 5
  const SAHNE_KERNEL_INFO_TOTAL_MEMORY_BYTES: uint32 := 6
  const SAHNE_KERNEL_INFO_FREE_MEMORY_BYTES: uint32 := 7

  /** The header's kernel-information kinds are the Rust ones. */
  lemma KernelInfoKindsAgree()
    ensures SAHNE_KERNEL_INFO_VERSION_MAJOR == KernelInfo.KERNEL_INFO_VERSION_MAJOR
    ensures SAHNE_KERNEL_INFO_VERSION_MINOR == KernelInfo.KERNEL_INFO_VERSION_MINOR
    ensures SAHNE_KERNEL_INFO_BUILD_ID == KernelInfo.KERNEL_INFO_BUILD_ID
    ensures SAHNE_KERNEL_INFO_UPTIME_SECONDS == KernelInfo.KERNEL_INFO_UPTIME_SECONDS
    ensures SAHNE_KERNEL_INFO_ARCHITECTURE == KernelInfo.KERNEL_INFO_ARCHITECTURE
    ensures SAHNE_KERNEL_INFO_TOTAL_MEMORY_BYTES == KernelInfo.KERNEL_INFO_TOTAL_MEMORY_BYTES
    ensures SAHNE_KERNEL_INFO_FREE_MEMORY_BYTES == KernelInfo.KERNEL_INFO_FREE_MEMORY_BYTES
  {
  }

  const SAHNE_SEEK_SET: uint64 := 0
  const SAHNE_SEEK_CUR: uint64 := 1
  const SAHNE_SEEK_END: uint64 := 2

  /** The header's seek origins are the ones `seek` puts in front of the offset. */
  lemma SeekOriginsAgree(offset: uint64, delta: int64)
    ensures Resource.EncodeSeek(Resource.Start(offset)).0 == SAHNE_SEEK_SET
    ensures Resource.EncodeSeek(Resource.Current(delta)).0 == SAHNE_SEEK_CUR
    ensures Resource.EncodeSeek(Resource.End(delta)).0 == SAHNE_SEEK_END
  {
  }

  const SAHNE_POLL_NONE: bv32 := 0
  const SAHNE_POLL_READABLE: bv32 := 1 << 0
  const SAHNE_POLL_WRITABLE: bv32 := 1 << 1
  const SAHNE_POLL_ERROR: bv32 := 1 << 2
  const SAHNE_POLL_DISCONNECTED: bv32 := 1 << 3

  /**
   * The header's poll bits are the discriminants of the Rust enum and the
   * mask constants: `NONE` is 0 and the other four are distinct single bits.
   */
  lemma PollFlagsAgree()
    ensures SAHNE_POLL_NONE == Poll.Discriminant(Poll.NoneFlag) == Poll.NONE
    ensures SAHNE_POLL_READABLE == Poll.Discriminant(Poll.ReadableFlag) == Poll.READABLE
    ensures SAHNE_POLL_WRITABLE == Poll.Discriminant(Poll.WritableFlag) == Poll.WRITABLE
    ensures SAHNE_POLL_ERROR == Poll.Discriminant(Poll.ErrorFlag) == Poll.ERROR
    ensures SAHNE_POLL_DISCONNECTED == Poll.Discriminant(Poll.DisconnectedFlag) == Poll.DISCONNECTED
    ensures var bits := [SAHNE_POLL_READABLE, SAHNE_POLL_WRITABLE, SAHNE_POLL_ERROR, SAHNE_POLL_DISCONNECTED];
      && (forall i :: 0 <= i < |bits| ==> SingleBit(bits[i]))
      && (forall i, j :: 0 <= i < j < |bits| ==> bits[i] & bits[j] == 0)
  {
  }

  /** `ResourceStatus_t`, field by field. */
  const RESOURCE_STATUS_T: seq<Field> :=
    [Field("size", U64), Field("type_flags", U32), Field("link_count", U32), Field("reserved", U32)]

  /** `PollEntry_t`, field by field: the handle is a `sahne_handle_t`, the flags `PollEventFlags_t`. */
  const POLL_ENTRY_T: seq<Field> :=
    [Field("handle", U64), Field("events_in", U32), Field("events_out", U32)]

  /**
   * Both C structs declare the Rust structs' fields in the same order with
   * the same widths, so they have the same offsets and the same size.
   */
  lemma StructLayoutsAgree()
    ensures RESOURCE_STATUS_T == Resource.RESOURCE_STATUS_FIELDS
    ensures Offsets(RESOURCE_STATUS_T) == [0, 8, 12, 16] && SizeOf(RESOURCE_STATUS_T) == 24
    ensures POLL_ENTRY_T == Poll.POLL_ENTRY_FIELDS
    ensures Offsets(POLL_ENTRY_T) == [0, 8, 12] && SizeOf(POLL_ENTRY_T) == 16
  {
    Resource.ResourceStatusLayout();
    Poll.PollEntryLayout();
  }
}
