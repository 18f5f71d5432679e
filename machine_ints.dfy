/**
 * Fixed-width integers of the Sahne64 ABI and the `as` casts the wrapper
 * layer applies to them. Dafny integers are unbounded, so every width and
 * every reinterpreting or truncating cast of the source is written out here.
 */
module MachineInts {

  const TWO_TO_THE_32: int := 0x1_0000_0000
  const TWO_TO_THE_63: int := 0x8000_0000_0000_0000
  const TWO_TO_THE_64: int := 0x1_0000_0000_0000_0000

  const INT64_MAX: int := 0x7FFF_FFFF_FFFF_FFFF
  const UINT64_MAX: int := 0xFFFF_FFFF_FFFF_FFFF

  type uint8 = x: int | 0 <= x < 0x100
  type uint32 = x: int | 0 <= x < 0x1_0000_0000
  type uint64 = x: int | 0 <= x < 0x1_0000_0000_0000_0000
  type int32 = x: int | -0x8000_0000 <= x < 0x8000_0000
  type int64 = x: int | -0x8000_0000_0000_0000 <= x < 0x8000_0000_0000_0000

  /** Every target the source is built for is a 64-bit one, so `usize` is `u64`. */
  type usize = uint64

  /** A Rust slice: its length is a `usize`. */
  type Slice<T> = s: seq<T> | |s| < TWO_TO_THE_64 witness []

  /** `x as u64` for an `i64` x: the same 64 bits read as unsigned. */
  function I64AsU64(x: int64): (r: uint64)
    ensures r % TWO_TO_THE_64 == x % TWO_TO_THE_64
  {
    if x < 0 then x + TWO_TO_THE_64 else x
  }

  /** `x as i64` for a `u64` x: the same 64 bits read as two's complement. */
  function U64AsI64(x: uint64): (r: int64)
    ensures r % TWO_TO_THE_64 == x % TWO_TO_THE_64
  {
    if x < TWO_TO_THE_63 then x else x - TWO_TO_THE_64
  }

  /** `x as i64` for an unsigned value of any width (a `u128`): keeps the low 64 bits. */
  function WrapToI64(x: nat): (r: int64)
    ensures r % TWO_TO_THE_64 == x % TWO_TO_THE_64
    ensures x <= INT64_MAX ==> r == x
  {
    U64AsI64(x % TWO_TO_THE_64)
  }

  /** `x as i32` for an `i64` x: keeps the low 32 bits. */
  function I64AsI32(x: int64): (r: int32)
    ensures r % TWO_TO_THE_32 == x % TWO_TO_THE_32
    ensures -0x8000_0000 <= x < 0x8000_0000 ==> r == x
  {
    var low := x % TWO_TO_THE_32;
    if low < 0x8000_0000 then low else low - TWO_TO_THE_32
  }

  /** `x as u32` for an `i32` x: the same 32 bits read as unsigned. */
  function I32AsU32(x: int32): (r: uint32)
    ensures r % TWO_TO_THE_32 == x % TWO_TO_THE_32
  {
    if x < 0 then x + TWO_TO_THE_32 else x
  }

  /** Reinterpreting between `i64` and `u64` loses nothing, in either direction. */
  lemma ReinterpretRoundTrip(x: int64, y: uint64)
    ensures U64AsI64(I64AsU64(x)) == x
    ensures I64AsU64(U64AsI64(y)) == y
  {
  }
}
