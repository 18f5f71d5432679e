/**
 * The error taxonomy of the Sahne64 API and the translation of the kernel's
 * signed 64-bit results into it (`map_kernel_error`, `map_kernel_ok_result`
 * and the inline decoding every wrapper performs).
 */
module Errors {
  import opened MachineInts

  datatype Option<T> = None | Some(value: T)

  /** `SahneError`, in declaration order. */
  datatype SahneError =
    | OutOfMemory
    | InvalidAddress
    | InvalidParameter
    | ResourceNotFound
    | PermissionDenied
    | ResourceBusy
    | Interrupted
    | NoMessage
    | InvalidOperation
    | NotSupported
    | UnknownSystemCall
    | TaskCreationFailed
    | InvalidHandle
    | HandleLimitExceeded
    | NamingError
    | CommunicationError
    | WouldBlock
    | Disconnected

  /** `Result<T, SahneError>`. */
  datatype Result<T> = Ok(value: T) | Err(error: SahneError)

  /** The position of a variant in the declaration: the value of `e as i64`. */
  function Position(e: SahneError): (p: nat)
    ensures p < 18
    ensures VariantAt(p) == e
  {
    match e
    case OutOfMemory => 0
    case InvalidAddress => 1
    case InvalidParameter => 2
    case ResourceNotFound => 3
    case PermissionDenied => 4
    case ResourceBusy => 5
    case Interrupted => 6
    case NoMessage => 7
    case InvalidOperation => 8
    case NotSupported => 9
    case UnknownSystemCall => 10
    case TaskCreationFailed => 11
    case InvalidHandle => 12
    case HandleLimitExceeded => 13
    case NamingError => 14
    case CommunicationError => 15
    case WouldBlock => 16
    case Disconnected => 17
  }

  /** The variant declared at position `p`. */
  function VariantAt(p: nat): SahneError
    requires p < 18
  {
    [OutOfMemory, InvalidAddress, InvalidParameter, ResourceNotFound, PermissionDenied,
     ResourceBusy, Interrupted, NoMessage, InvalidOperation, NotSupported,
     UnknownSystemCall, TaskCreationFailed, InvalidHandle, HandleLimitExceeded,
     NamingError, CommunicationError, WouldBlock, Disconnected][p]
  }

  /** Distinct variants have distinct positions. */
  lemma PositionInjective(e1: SahneError, e2: SahneError)
    ensures Position(e1) == Position(e2) ==> e1 == e2
  {
  }

  /**
   * The kernel's code for each error, the table `map_kernel_error` inverts;
   * `None` for the variants the kernel has no code for.
   */
  function KernelCode(e: SahneError): Option<int64>
  {
    match e
    case PermissionDenied => Some(-1)
    case ResourceNotFound => Some(-2)
    case InvalidParameter => Some(-3)
    case Interrupted => Some(-4)
    case InvalidHandle => Some(-9)
    case ResourceBusy => Some(-11)
    case OutOfMemory => Some(-12)
    case InvalidAddress => Some(-14)
    case NamingError => Some(-17)
    case NotSupported => Some(-38)
    case NoMessage => Some(-61)
    case WouldBlock => Some(-101)
    case Disconnected => Some(-102)
    case _ => None
  }

  /** The thirteen codes `map_kernel_error` recognises. */
  const LISTED_CODES: set<int> := {-1, -2, -3, -4, -9, -11, -12, -14, -17, -38, -61, -101, -102}

  /**
   * `map_kernel_error`: a listed code becomes the variant whose kernel code it
   * is; every other value becomes `UnknownSystemCall`.
   */
  function MapKernelError(code: int64): (e: SahneError)
    ensures code in LISTED_CODES ==> KernelCode(e) == Some(code)
    ensures code !in LISTED_CODES ==> e == UnknownSystemCall
  {
    match code
    case -1 => PermissionDenied
    case -2 => ResourceNotFound
    case -3 => InvalidParameter
    case -4 => Interrupted
    case -9 => InvalidHandle
    case -11 => ResourceBusy
    case -12 => OutOfMemory
    case -14 => InvalidAddress
    case -17 => NamingError
    case -38 => NotSupported
    case -61 => NoMessage
    case -101 => WouldBlock
    case -102 => Disconnected
    case _ => UnknownSystemCall
  }

  /** Every variant with a kernel code is what `map_kernel_error` makes of that code. */
  lemma MapKernelErrorInvertsKernelCode(e: SahneError)
    ensures KernelCode(e).Some? ==> KernelCode(e).value in LISTED_CODES
    ensures KernelCode(e).Some? ==> MapKernelError(KernelCode(e).value) == e
  {
  }

  /** The thirteen listed codes map to thirteen pairwise-distinct variants. */
  lemma ListedCodesMapInjectively(a: int64, b: int64)
    requires a in LISTED_CODES && b in LISTED_CODES
    ensures MapKernelError(a) == MapKernelError(b) ==> a == b
    ensures MapKernelError(a) != UnknownSystemCall
  {
  }

  /**
   * Four variants are never produced by `map_kernel_error`: whoever sees them,
   * they did not come from the kernel's answer.
   */
  lemma MapKernelErrorRange(code: int64)
    ensures MapKernelError(code) !in {InvalidOperation, TaskCreationFailed, HandleLimitExceeded, CommunicationError}
  {
  }

  /**
   * The decoding every wrapper writes inline: a negative answer is the error
   * `map_kernel_error` gives, any other answer is the value itself, read as a `u64`.
   */
  function Decode(ret: int64): (r: Result<uint64>)
    ensures r.Ok? <==> ret >= 0
    ensures r.Ok? ==> r.value == ret
    ensures r.Err? ==> r.error == MapKernelError(ret)
  {
    if ret < 0 then Err(MapKernelError(ret)) else Ok(I64AsU64(ret))
  }

  /** A result the kernel can express in one `i64`: a value below 2^63, or an error it has a code for. */
  predicate Encodable(r: Result<uint64>)
  {
    match r
    case Ok(v) => v <= INT64_MAX
    case Err(e) => KernelCode(e).Some?
  }

  /** How the kernel is expected to encode a result, the convention `map_kernel_error` inverts. */
  function Encode(r: Result<uint64>): (ret: int64)
    requires Encodable(r)
    ensures r.Ok? <==> ret >= 0
  {
    match r
    case Ok(v) => v
    case Err(e) => KernelCode(e).value
  }

  /** Decoding recovers every result the kernel can encode. */
  lemma DecodeEncode(r: Result<uint64>)
    requires Encodable(r)
    ensures Decode(Encode(r)) == r
  {
    if r.Err? {
      MapKernelErrorInvertsKernelCode(r.error);
    }
  }

  /**
   * Conversely an answer survives decoding exactly when it is non-negative or
   * listed: every other negative answer collapses to `UnknownSystemCall`.
   */
  lemma EncodeDecode(ret: int64)
    ensures Encodable(Decode(ret)) <==> ret >= 0 || ret in LISTED_CODES
    ensures ret >= 0 || ret in LISTED_CODES ==> Encode(Decode(ret)) == ret
  {
  }

  /**
   * `map_kernel_ok_result::<T>`, with `T` given by its largest value: a negative
   * answer is mapped as an error, a non-negative one is kept when `T` holds it
   * and is `InvalidOperation` otherwise.
   */
  function MapKernelOkResult(result: int64, targetMax: nat): (r: Result<nat>)
    ensures result < 0 ==> r == Err(MapKernelError(result))
    ensures 0 <= result <= targetMax ==> r == Ok(result)
    ensures 0 <= result && targetMax < result ==> r == Err(InvalidOperation)
  {
    if result < 0 then
      Err(MapKernelError(result))
    else if I64AsU64(result) <= targetMax then
      Ok(I64AsU64(result))
    else
      Err(InvalidOperation)
  }

  /**
   * From `map_kernel_ok_result`, `InvalidOperation` means exactly "the value
   * did not fit the target type": the kernel's errors never decode to it.
   */
  lemma InvalidOperationMeansOutOfRange(result: int64, targetMax: nat)
    ensures MapKernelOkResult(result, targetMax) == Err(InvalidOperation) <==> targetMax < result
  {
    MapKernelErrorRange(result);
  }

  /** With `T = u64` the helper agrees with the inline decoding of the wrappers. */
  lemma MapKernelOkResultAtU64(result: int64)
    ensures MapKernelOkResult(result, UINT64_MAX).Ok? <==> Decode(result).Ok?
    ensures Decode(result).Ok? ==> MapKernelOkResult(result, UINT64_MAX).value == Decode(result).value
    ensures Decode(result).Err? ==> MapKernelOkResult(result, UINT64_MAX).error == Decode(result).error
  {
  }
}
