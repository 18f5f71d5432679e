/**
 * The shared-memory part of the `memory` module: creating a shared region,
 * which yields a handle, and mapping it, which yields the address the kernel
 * chose. Private allocation, release and unmapping are not part of this model.
 */
module Memory {
  import opened MachineInts
  import opened Errors
  import opened Handles
  import opened Syscall

  function CreateSharedRequest(size: usize): Request
  {
    Request(Number(SharedMemCreate), Word(size), Word(0), Word(0), Word(0), Word(0))
  }

  /**
   * `create_shared`: no precondition of its own; one SHARED_MEM_CREATE call with
   * the size, and a non-negative answer is the handle of the new region.
   */
  function CreateShared(size: usize, kernel: Kernel): (c: Call<Result<Handle>>)
    ensures c.issued == [CreateSharedRequest(size)]
    ensures var ret := kernel(CreateSharedRequest(size));
      && (ret < 0 ==> c.result == Err(MapKernelError(ret)))
      && (ret >= 0 ==> c.result == Ok(Handle(ret)))
  {
    Lift(Issue(CreateSharedRequest(size), kernel), v => Handle(v))
  }

  function MapSharedRequest(h: Handle, offset: usize, size: usize): Request
  {
    Request(Number(SharedMemMap), Word(h.Raw()), Word(offset), Word(size), Word(0), Word(0))
  }

  /**
   * `map_shared`: refuses the invalid handle without a system call; otherwise
   * one SHARED_MEM_MAP call with the window's offset and size, and a
   * non-negative answer is the address of the mapping.
   */
  function MapShared(h: Handle, offset: usize, size: usize, kernel: Kernel): (c: Call<Result<uint64>>)
    ensures !h.IsValid() ==> c == Call(Err(InvalidHandle), [])
    ensures h.IsValid() ==> c.issued == [MapSharedRequest(h, offset, size)]
    ensures h.IsValid() ==> c.result == Decode(kernel(MapSharedRequest(h, offset, size)))
  {
    if !h.IsValid() then Refuse(InvalidHandle) else Issue(MapSharedRequest(h, offset, size), kernel)
  }
}
