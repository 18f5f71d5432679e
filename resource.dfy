/**
 * The `resource` module: acquire, read, write, release, control, seek and
 * stat on handles. Each handle-taking wrapper refuses the invalid handle
 * before any system call, issues exactly one call otherwise, and decodes the
 * kernel's answer.
 */
module Resource {
  import opened MachineInts
  import opened Errors
  import opened Handles
  import opened Syscall
  import opened Layout

  const MODE_READ: bv32 := 1 << 0
  const MODE_WRITE: bv32 := 1 << 1
  const MODE_CREATE: bv32 := 1 << 2
  const MODE_EXCLUSIVE: bv32 := 1 << 3
  const MODE_TRUNCATE: bv32 := 1 << 4
  const MODE_NONBLOCK: bv32 := 1 << 5

  /** The bytes of a resource identifier, passed to the kernel as pointer and length. */
  type ResourceId = Slice<uint8>

  // ----- acquire -----

  function AcquireRequest(id: ResourceId, mode: bv32): Request
  {
    Request(Number(ResourceAcquire), Address, Word(|id|), Word(mode as int), Word(0), Word(0))
  }

  /**
   * `acquire`: one RESOURCE_ACQUIRE call with the identifier's length and the
   * mode; a non-negative answer is the new handle, unchecked.
   */
  function Acquire(id: ResourceId, mode: bv32, kernel: Kernel): (c: Call<Result<Handle>>)
    ensures c.issued == [AcquireRequest(id, mode)]
    ensures var ret := kernel(AcquireRequest(id, mode));
      && (ret < 0 ==> c.result == Err(MapKernelError(ret)))
      && (ret >= 0 ==> c.result == Ok(Handle(ret)))
  {
    Lift(Issue(AcquireRequest(id, mode), kernel), v => Handle(v))
  }

  /** The wrapper does not check the handle it returns: a kernel answer of 0 comes back as `Ok(invalid())`. */
  lemma AcquireTrustsKernelHandle(id: ResourceId, mode: bv32, kernel: Kernel)
    requires kernel(AcquireRequest(id, mode)) == 0
    ensures Acquire(id, mode, kernel).result == Ok(Handle.Invalid())
    ensures !Acquire(id, mode, kernel).result.value.IsValid()
  {
  }

  // ----- read -----

  function ReadRequest(h: Handle, length: usize): Request
  {
    Request(Number(ResourceRead), Word(h.Raw()), Address, Word(length), Word(0), Word(0))
  }

  /**
   * `read`: refuses the invalid handle without a system call and leaves the
   * buffer alone; otherwise one RESOURCE_READ call with the buffer's length,
   * during which the kernel stores into the buffer, and the answer decoded
   * as the byte count.
   */
  method Read(h: Handle, buffer: array<uint8>, kernel: FillingKernel<seq<uint8>>)
    returns (r: Result<usize>, issued: seq<Request>)
    requires buffer.Length < TWO_TO_THE_64
    modifies buffer
    ensures !h.IsValid() ==> r == Err(InvalidHandle) && issued == [] && buffer[..] == old(buffer[..])
    ensures h.IsValid() ==>
      var answer := kernel(ReadRequest(h, buffer.Length));
      && issued == [ReadRequest(h, buffer.Length)]
      && buffer[..] == Overwrite(old(buffer[..]), answer.stores)
      && r == Decode(answer.ret)
  {
    if !h.IsValid() {
      return Err(InvalidHandle), [];
    }
    var request := ReadRequest(h, buffer.Length);
    var answer := kernel(request);
    Store(buffer, answer.stores);
    r, issued := Decode(answer.ret), [request];
  }

  // ----- write -----

  function WriteRequest(h: Handle, buffer: Slice<uint8>): Request
  {
    Request(Number(ResourceWrite), Word(h.Raw()), Address, Word(|buffer|), Word(0), Word(0))
  }

  /** `write`: the same discipline, with the count of bytes written. */
  function Write(h: Handle, buffer: Slice<uint8>, kernel: Kernel): (c: Call<Result<usize>>)
    ensures !h.IsValid() ==> c == Call(Err(InvalidHandle), [])
    ensures h.IsValid() ==> c.issued == [WriteRequest(h, buffer)]
    ensures h.IsValid() ==> c.result == Decode(kernel(WriteRequest(h, buffer)))
  {
    if !h.IsValid() then Refuse(InvalidHandle) else Issue(WriteRequest(h, buffer), kernel)
  }

  // ----- release -----

  function ReleaseRequest(h: Handle): Request
  {
    Request(Number(ResourceRelease), Word(h.Raw()), Word(0), Word(0), Word(0), Word(0))
  }

  /** `release`: succeeds with `()` exactly when the handle is valid and the kernel answers non-negatively. */
  function Release(h: Handle, kernel: Kernel): (c: Call<Result<()>>)
    ensures !h.IsValid() ==> c == Call(Err(InvalidHandle), [])
    ensures h.IsValid() ==> c.issued == [ReleaseRequest(h)]
    ensures h.IsValid() ==> var ret := kernel(ReleaseRequest(h));
      c.result == if ret < 0 then Err(MapKernelError(ret)) else Ok(())
    ensures c.result.Ok? <==> h.IsValid() && kernel(ReleaseRequest(h)) >= 0
  {
    if !h.IsValid() then Refuse(InvalidHandle) else Lift(Issue(ReleaseRequest(h), kernel), _ => ())
  }

  // ----- control -----

  function ControlRequest(h: Handle, request: uint64, arg: uint64): Request
  {
    Request(Number(ResourceControl), Word(h.Raw()), Word(request), Word(arg), Word(0), Word(0))
  }

  /** `control`: the kernel's non-negative answer is returned as the raw `i64`. */
  function Control(h: Handle, request: uint64, arg: uint64, kernel: Kernel): (c: Call<Result<int64>>)
    ensures !h.IsValid() ==> c == Call(Err(InvalidHandle), [])
    ensures h.IsValid() ==> c.issued == [ControlRequest(h, request, arg)]
    ensures h.IsValid() ==> var ret := kernel(ControlRequest(h, request, arg));
      && (ret < 0 ==> c.result == Err(MapKernelError(ret)))
      && (ret >= 0 ==> c.result == Ok(ret))
  {
    if !h.IsValid() then Refuse(InvalidHandle)
    else Lift(Issue(ControlRequest(h, request, arg), kernel), v => U64AsI64(v))
  }

  // ----- seek -----

  /** A seek origin with its offset. */
  datatype SeekFrom = Start(offset: uint64) | Current(delta: int64) | End(delta: int64)

  /**
   * The `(whence, offset)` pair `seek` hands to the kernel: origins 0, 1, 2
   * for Start, Current, End, and the offset's 64 bits unchanged.
   */
  function EncodeSeek(pos: SeekFrom): (w: (uint64, int64))
    ensures pos.Start? <==> w.0 == 0
    ensures pos.Current? <==> w.0 == 1
    ensures pos.End? <==> w.0 == 2
    ensures pos.Start? ==> I64AsU64(w.1) == pos.offset
    ensures !pos.Start? ==> w.1 == pos.delta
  {
    match pos
    case Start(o) => (0, U64AsI64(o))
    case Current(o) => (1, o)
    case End(o) => (2, o)
  }

  function SeekRequest(h: Handle, pos: SeekFrom): Request
  {
    var (whence, offset) := EncodeSeek(pos);
    Request(Number(ResourceSeek), Word(h.Raw()), Word(whence), Word(I64AsU64(offset)), Word(0), Word(0))
  }

  /** `seek`: the kernel's non-negative answer is the new offset. */
  function Seek(h: Handle, pos: SeekFrom, kernel: Kernel): (c: Call<Result<uint64>>)
    ensures !h.IsValid() ==> c == Call(Err(InvalidHandle), [])
    ensures h.IsValid() ==> c.issued == [SeekRequest(h, pos)]
    ensures h.IsValid() ==> c.result == Decode(kernel(SeekRequest(h, pos)))
  {
    if !h.IsValid() then Refuse(InvalidHandle) else Issue(SeekRequest(h, pos), kernel)
  }

  /** A seek from the start hands the kernel origin 0 and exactly the requested offset. */
  lemma SeekStartPassesOffset(h: Handle, o: uint64)
    ensures SeekRequest(h, Start(o)).a2 == Word(0)
    ensures SeekRequest(h, Start(o)).a3 == Word(o)
  {
  }

  // ----- stat -----

  /** `ResourceStatus`, with `link_count` a `u32` as in `ResourceStatus_t`. */
  datatype ResourceStatus = ResourceStatus(size: uint64, typeFlags: uint32, linkCount: uint32, reserved: uint32)

  /** The fields of `ResourceStatus` in declaration order, with their types. */
  const RESOURCE_STATUS_FIELDS: seq<Field> :=
    [Field("size", U64), Field("type_flags", U32), Field("link_count", U32), Field("reserved", U32)]

  /** `size_of::<ResourceStatus>()` as the compiler lays the struct out. */
  const RESOURCE_STATUS_SIZE: uint64 := 24

  /** The fields sit at offsets 0, 8, 12 and 16, and the struct is 24 bytes long. */
  lemma ResourceStatusLayout()
    ensures Offsets(RESOURCE_STATUS_FIELDS) == [0, 8, 12, 16]
    ensures SizeOf(RESOURCE_STATUS_FIELDS) == RESOURCE_STATUS_SIZE
  {
    var fs := RESOURCE_STATUS_FIELDS;
    WordsAfterDoubleWord(fs);
  }

  function StatRequest(h: Handle): Request
  {
    Request(Number(ResourceStat), Word(h.Raw()), Address, Word(RESOURCE_STATUS_SIZE), Word(0), Word(0))
  }

  /**
   * `stat`: refuses the invalid handle without a system call and leaves the
   * struct alone; otherwise one RESOURCE_STAT call, during which the kernel
   * may fill the struct in place, and `Ok(())` for a non-negative answer.
   */
  method Stat(h: Handle, status: Place<ResourceStatus>, kernel: FillingKernel<Option<ResourceStatus>>)
    returns (r: Result<()>, issued: seq<Request>)
    modifies status
    ensures !h.IsValid() ==> r == Err(InvalidHandle) && issued == [] && status.value == old(status.value)
    ensures h.IsValid() ==>
      var answer := kernel(StatRequest(h));
      && issued == [StatRequest(h)]
      && status.value == (if answer.stores.Some? then answer.stores.value else old(status.value))
      && r == (if answer.ret < 0 then Err(MapKernelError(answer.ret)) else Ok(()))
  {
    if !h.IsValid() {
      return Err(InvalidHandle), [];
    }
    var request := StatRequest(h);
    var answer := kernel(request);
    if answer.stores.Some? {
      status.value := answer.stores.value;
    }
    issued := [request];
    r := if answer.ret < 0 then Err(MapKernelError(answer.ret)) else Ok(());
  }
}
