/**
 * The C entry point `sahne_resource_seek`: it decodes a C `(whence, offset)`
 * pair into a `SeekFrom`, calls `seek`, and reports the outcome to C. The
 * error translation `map_sahne_error_to_c` is the header's table
 * (`SahneH.ErrorCode`); its Rust definition is not part of this model.
 */
module CApi {
  import opened MachineInts
  import opened Errors
  import opened Handles
  import opened Syscall
  import opened Resource
  import opened SahneH

  /** The variant a C error code stands for, if any: the inverse of the header's table. */
  function ErrorOfCode(code: int32): (e: Option<SahneError>)
    ensures e.Some? <==> 1 <= code <= 18
    ensures e.Some? ==> ErrorCode(e.value) == code
  {
    if 1 <= code <= 18 then
      var e := VariantAt(code - 1);
      ErrorCodesArePositionPlusOne(e, e);
      Some(e)
    else None
  }

  /** Every error survives the trip to C and back. */
  lemma ErrorCodeRoundTrip(e: SahneError)
    ensures ErrorOfCode(ErrorCode(e)) == Some(e)
  {
    ErrorCodesArePositionPlusOne(e, e);
  }

  /** The `SeekFrom` a C `(whence, offset)` pair denotes: origins 0, 1, 2, and nothing for any other origin. */
  function DecodeSeek(whence: uint64, offset: int64): (pos: Option<SeekFrom>)
    ensures pos.Some? <==> whence <= 2
  {
    match whence
    case 0 => Some(Start(I64AsU64(offset)))
    case 1 => Some(Current(offset))
    case 2 => Some(End(offset))
    case _ => None
  }

  /** Decoding what `seek` encodes gives back the same position. */
  lemma DecodeEncodeSeek(pos: SeekFrom)
    ensures DecodeSeek(EncodeSeek(pos).0, EncodeSeek(pos).1) == Some(pos)
  {
    if pos.Start? {
      ReinterpretRoundTrip(0, pos.offset);
    }
  }

  /** Encoding a decoded pair gives back the same pair: the C encoding and the Rust one are the same. */
  lemma EncodeDecodeSeek(whence: uint64, offset: int64)
    requires whence <= 2
    ensures EncodeSeek(DecodeSeek(whence, offset).value) == (whence, offset)
  {
    ReinterpretRoundTrip(offset, 0);
  }

  /**
   * `sahne_resource_seek` as written: an unknown origin returns
   * `SahneError::InvalidParameter as i64` (its position, 2) without a system
   * call; otherwise `seek` runs, and a new offset is returned as an `i64`, an
   * error as its positive C code.
   */
  function SahneResourceSeekAsWritten(handle: uint64, whence: uint64, offset: int64, kernel: Kernel): (c: Call<int64>)
    ensures whence > 2 ==> c == Call(Position(InvalidParameter), [])
    ensures whence <= 2 ==>
      var s := Seek(Handle(handle), DecodeSeek(whence, offset).value, kernel);
      && c.issued == s.issued
      && c.result == (if s.result.Ok? then U64AsI64(s.result.value) else ErrorCode(s.result.error))
  {
    match DecodeSeek(whence, offset)
    case None => Call(Position(InvalidParameter), [])
    case Some(pos) =>
      var s := Seek(Handle(handle), pos, kernel);
      Call(if s.result.Ok? then U64AsI64(s.result.value) else ErrorCode(s.result.error), s.issued)
  }

  /**
   * As written, an unknown origin reads exactly like a successful seek to
   * offset 2: the caller cannot tell them apart from the returned value.
   */
  lemma UnknownOriginLooksLikeOffsetTwo(handle: uint64, whence: uint64, offset: int64, kernel: Kernel)
    requires whence > 2
    requires handle != 0 && kernel(SeekRequest(Handle(handle), Start(2))) == 2
    ensures SahneResourceSeekAsWritten(handle, whence, offset, kernel).result == 2
    ensures SahneResourceSeekAsWritten(handle, SAHNE_SEEK_SET, 2, kernel).result == 2
  {
  }

  /**
   * As written, every error is a positive number on the channel where a new
   * offset is returned: seeking with handle 0 gives 13, which is also what a
   * successful seek to offset 13 gives.
   */
  lemma ErrorLooksLikeOffset(handle: uint64, offset: int64, kernel: Kernel)
    requires handle != 0 && kernel(SeekRequest(Handle(handle), Start(13))) == 13
    ensures SahneResourceSeekAsWritten(0, SAHNE_SEEK_SET, offset, kernel).result == 13
    ensures SahneResourceSeekAsWritten(handle, SAHNE_SEEK_SET, 13, kernel).result == 13
  {
  }

  /** A C status code with the out-parameter the call writes: `sahne_error_t` and `*out`. */
  datatype CStatus<T> = CStatus(code: int32, out: Option<T>)

  /**
   * `sahne_resource_seek` in the form the header declares: `SAHNE_SUCCESS` with
   * the new offset written to the out-parameter, or an error code and the
   * out-parameter left alone; an unknown origin is
   * `SAHNE_ERROR_INVALID_PARAMETER`.
   */
  function SahneResourceSeek(handle: uint64, whence: uint64, offset: int64, kernel: Kernel): (c: Call<CStatus<uint64>>)
    ensures c.result.code == SAHNE_SUCCESS <==> c.result.out.Some?
    ensures whence > 2 ==> c == Call(CStatus(ErrorCode(InvalidParameter), None), [])
    ensures whence <= 2 ==>
      var s := Seek(Handle(handle), DecodeSeek(whence, offset).value, kernel);
      && c.issued == s.issued
      && (s.result.Ok? ==> c.result == CStatus(SAHNE_SUCCESS, Some(s.result.value)))
      && (s.result.Err? ==> c.result == CStatus(ErrorCode(s.result.error), None))
  {
    match DecodeSeek(whence, offset)
    case None => Call(CStatus(ErrorCode(InvalidParameter), None), [])
    case Some(pos) =>
      var s := Seek(Handle(handle), pos, kernel);
      match s.result
      case Ok(v) => Call(CStatus(SAHNE_SUCCESS, Some(v)), s.issued)
      case Err(e) => Call(CStatus(ErrorCode(e), None), s.issued)
  }

  /**
   * The header's form loses nothing: from the status alone a C caller reads
   * back exactly the `Result` of `seek`, or the refusal of an unknown origin.
   */
  lemma SahneResourceSeekIsFaithful(handle: uint64, whence: uint64, offset: int64, kernel: Kernel)
    ensures var st := SahneResourceSeek(handle, whence, offset, kernel).result;
      if whence > 2 then
        ErrorOfCode(st.code) == Some(InvalidParameter) && st.out.None?
      else
        var r := Seek(Handle(handle), DecodeSeek(whence, offset).value, kernel).result;
        && (r.Ok? <==> st.code == SAHNE_SUCCESS)
        && (r.Ok? ==> st.out == Some(r.value))
        && (r.Err? ==> ErrorOfCode(st.code) == Some(r.error))
  {
    ErrorCodeRoundTrip(InvalidParameter);
    if whence <= 2 {
      var r := Seek(Handle(handle), DecodeSeek(whence, offset).value, kernel).result;
      if r.Err? {
        ErrorCodeRoundTrip(r.error);
      }
    }
  }
}
