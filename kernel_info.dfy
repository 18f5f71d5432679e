/** The `kernel` module: querying one item of kernel information. */
module KernelInfo {
  import opened MachineInts
  import opened Errors
  import opened Syscall

  const KERNEL_INFO_VERSION_MAJOR: uint32 := 1
  const KERNEL_INFO_VERSION_MINOR: uint32 := 2
  const KERNEL_INFO_BUILD_ID: uint32 := 3
  const KERNEL_INFO_UPTIME_SECONDS: uint32 := 4
  const KERNEL_INFO_ARCHITECTURE: uint32 := 5
  const KERNEL_INFO_TOTAL_MEMORY_BYTES: uint32 := 6
  const KERNEL_INFO_FREE_MEMORY_BYTES: uint32 := 7

  function GetInfoRequest(infoType: uint32): Request
  {
    Request(Number(GetKernelInfo), Word(infoType), Word(0), Word(0), Word(0), Word(0))
  }

  /**
   * `get_info`: the info type is passed through unchecked, widened to 64 bits;
   * a non-negative answer is the information's value.
   */
  function GetInfo(infoType: uint32, kernel: Kernel): (c: Call<Result<uint64>>)
    ensures c.issued == [GetInfoRequest(infoType)]
    ensures c.result.Ok? <==> kernel(GetInfoRequest(infoType)) >= 0
    ensures c.result.Ok? ==> c.result.value == kernel(GetInfoRequest(infoType))
    ensures c.result.Err? ==> c.result.error == MapKernelError(kernel(GetInfoRequest(infoType)))
  {
    Issue(GetInfoRequest(infoType), kernel)
  }
}
