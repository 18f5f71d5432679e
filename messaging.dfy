/** The `messaging` module: handle-based message channels. */
module Messaging {
  import opened MachineInts
  import opened Errors
  import opened Handles
  import opened Syscall
  import Resource

  const CREATE_CHANNEL_REQUEST: Request := Request(Number(ChannelCreate), Word(0), Word(0), Word(0), Word(0), Word(0))

  /** `create_channel`: one CHANNEL_CREATE call; a non-negative answer is a handle on one end. */
  function CreateChannel(kernel: Kernel): (c: Call<Result<Handle>>)
    ensures c.issued == [CREATE_CHANNEL_REQUEST]
    ensures var ret := kernel(CREATE_CHANNEL_REQUEST);
      && (ret < 0 ==> c.result == Err(MapKernelError(ret)))
      && (ret >= 0 ==> c.result == Ok(Handle(ret)))
  {
    Lift(Issue(CREATE_CHANNEL_REQUEST, kernel), v => Handle(v))
  }

  function ConnectRequest(channelId: Resource.ResourceId): Request
  {
    Request(Number(ChannelConnect), Address, Word(|channelId|), Word(0), Word(0), Word(0))
  }

  /**
   * `connect_channel`: no check of its own on the identifier; one
   * CHANNEL_CONNECT call with its length, and a non-negative answer is a
   * handle on the other end.
   */
  function ConnectChannel(channelId: Resource.ResourceId, kernel: Kernel): (c: Call<Result<Handle>>)
    ensures c.issued == [ConnectRequest(channelId)]
    ensures var ret := kernel(ConnectRequest(channelId));
      && (ret < 0 ==> c.result == Err(MapKernelError(ret)))
      && (ret >= 0 ==> c.result == Ok(Handle(ret)))
  {
    Lift(Issue(ConnectRequest(channelId), kernel), v => Handle(v))
  }

  function SendRequest(channel: Handle, message: Slice<uint8>): Request
  {
    Request(Number(ChannelSend), Word(channel.Raw()), Address, Word(|message|), Word(0), Word(0))
  }

  /** `send_on_channel`: `Ok(())` exactly when the handle is valid and the kernel answers non-negatively. */
  function SendOnChannel(channel: Handle, message: Slice<uint8>, kernel: Kernel): (c: Call<Result<()>>)
    ensures !channel.IsValid() ==> c == Call(Err(InvalidHandle), [])
    ensures channel.IsValid() ==> c.issued == [SendRequest(channel, message)]
    ensures channel.IsValid() && kernel(SendRequest(channel, message)) < 0 ==>
      c.result == Err(MapKernelError(kernel(SendRequest(channel, message))))
    ensures c.result.Ok? <==> channel.IsValid() && kernel(SendRequest(channel, message)) >= 0
  {
    if !channel.IsValid() then Refuse(InvalidHandle)
    else Lift(Issue(SendRequest(channel, message), kernel), _ => ())
  }

  function ReceiveRequest(channel: Handle, length: usize): Request
  {
    Request(Number(ChannelReceive), Word(channel.Raw()), Address, Word(length), Word(0), Word(0))
  }

  /**
   * `receive_on_channel`: refuses the invalid handle without a system call and
   * leaves the buffer alone; otherwise one CHANNEL_RECEIVE call with the
   * buffer's length, during which the kernel copies the message into the
   * buffer, and a non-negative answer is the message's size.
   */
  method ReceiveOnChannel(channel: Handle, buffer: array<uint8>, kernel: FillingKernel<seq<uint8>>)
    returns (r: Result<usize>, issued: seq<Request>)
    requires buffer.Length < TWO_TO_THE_64
    modifies buffer
    ensures !channel.IsValid() ==> r == Err(InvalidHandle) && issued == [] && buffer[..] == old(buffer[..])
    ensures channel.IsValid() ==>
      var answer := kernel(ReceiveRequest(channel, buffer.Length));
      && issued == [ReceiveRequest(channel, buffer.Length)]
      && buffer[..] == Overwrite(old(buffer[..]), answer.stores)
      && r == Decode(answer.ret)
  {
    if !channel.IsValid() {
      return Err(InvalidHandle), [];
    }
    var request := ReceiveRequest(channel, buffer.Length);
    var answer := kernel(request);
    Store(buffer, answer.stores);
    r, issued := Decode(answer.ret), [request];
  }
}
