/**
 * `#[repr(C)]` / C struct layout for the structs that cross the system-call
 * boundary. Each field of these structs is a `u32` or a `u64`, whose alignment
 * equals its width; fields are placed in declaration order, each at the first
 * offset aligned for it, and the struct is padded to its largest alignment.
 */
module Layout {

  datatype Scalar = U32 | U64

  datatype Field = Field(name: string, ty: Scalar)

  function Width(s: Scalar): nat
  {
    match s
    case U32 => 4
    case U64 => 8
  }

  /** The first offset at or after `x` aligned for `s`. */
  function AlignUp(x: nat, s: Scalar): (r: nat)
    ensures x <= r < x + Width(s)
    ensures r % Width(s) == 0
  {
    var w := Width(s);
    if x % w == 0 then x else x + (w - x % w)
  }

  /** The offsets of `fields` laid out from `at` on, one per field. */
  function OffsetsFrom(fields: seq<Field>, at: nat): (offsets: seq<nat>)
    ensures |offsets| == |fields|
    decreases |fields|
  {
    if fields == [] then
      []
    else
      var first := AlignUp(at, fields[0].ty);
      [first] + OffsetsFrom(fields[1..], first + Width(fields[0].ty))
  }

  function Offsets(fields: seq<Field>): (offsets: seq<nat>)
    ensures |offsets| == |fields|
  {
    OffsetsFrom(fields, 0)
  }

  /** Every field is aligned for its type, starts at or after `at`, and ends before any later field starts. */
  lemma {:induction false} OffsetsFromSound(fields: seq<Field>, at: nat)
    ensures forall i :: 0 <= i < |fields| ==>
      at <= OffsetsFrom(fields, at)[i] && OffsetsFrom(fields, at)[i] % Width(fields[i].ty) == 0
    ensures forall i, j :: 0 <= i < j < |fields| ==>
      OffsetsFrom(fields, at)[i] + Width(fields[i].ty) <= OffsetsFrom(fields, at)[j]
    decreases |fields|
  {
    if fields != [] {
      var first := AlignUp(at, fields[0].ty);
      var next := first + Width(fields[0].ty);
      OffsetsFromSound(fields[1..], next);
      var offsets := OffsetsFrom(fields, at);
      assert offsets == [first] + OffsetsFrom(fields[1..], next);
      forall i | 1 <= i < |fields|
        ensures offsets[i] == OffsetsFrom(fields[1..], next)[i - 1] && fields[i] == fields[1..][i - 1]
      {
      }
    }
  }

  /**
   * The placement rule: the first field sits at the first offset from `at`
   * aligned for it, and every later field at the first offset aligned for it
   * after the end of the field before.
   */
  lemma {:induction false} OffsetsFromTight(fields: seq<Field>, at: nat)
    ensures fields != [] ==> OffsetsFrom(fields, at)[0] == AlignUp(at, fields[0].ty)
    ensures forall i :: 0 < i < |fields| ==>
      OffsetsFrom(fields, at)[i] == AlignUp(OffsetsFrom(fields, at)[i - 1] + Width(fields[i - 1].ty), fields[i].ty)
  {
    forall i | 0 < i < |fields|
      ensures OffsetsFrom(fields, at)[i] == AlignUp(OffsetsFrom(fields, at)[i - 1] + Width(fields[i - 1].ty), fields[i].ty)
    {
      PlacedAfterPrevious(fields, at, i);
    }
  }

  /** Field `i` sits at the first offset aligned for it after the end of field `i - 1`. */
  lemma {:induction false} PlacedAfterPrevious(fields: seq<Field>, at: nat, i: nat)
    requires 0 < i < |fields|
    ensures OffsetsFrom(fields, at)[i] == AlignUp(OffsetsFrom(fields, at)[i - 1] + Width(fields[i - 1].ty), fields[i].ty)
    decreases i
  {
    var first := AlignUp(at, fields[0].ty);
    var next := first + Width(fields[0].ty);
    var tail := fields[1..];
    var rest := OffsetsFrom(tail, next);
    assert OffsetsFrom(fields, at) == [first] + rest;
    if i == 1 {
      assert rest == [AlignUp(next, tail[0].ty)] + OffsetsFrom(tail[1..], AlignUp(next, tail[0].ty) + Width(tail[0].ty));
    } else {
      PlacedAfterPrevious(tail, next, i - 1);
      assert tail[i - 1] == fields[i] && tail[i - 2] == fields[i - 1];
    }
  }

  /** A run of `u32` fields from an aligned offset is packed: field `i` sits `4 * i` bytes on. */
  lemma {:induction false} PackedWords(fields: seq<Field>, at: nat)
    requires at % 4 == 0
    requires forall i :: 0 <= i < |fields| ==> fields[i].ty == U32
    ensures forall i :: 0 <= i < |fields| ==> OffsetsFrom(fields, at)[i] == at + 4 * i
    decreases |fields|
  {
    if fields != [] {
      assert AlignUp(at, U32) == at;
      PackedWords(fields[1..], at + 4);
      assert OffsetsFrom(fields, at) == [at] + OffsetsFrom(fields[1..], at + 4);
    }
  }

  /** The largest alignment among the fields. */
  function MaxAlign(fields: seq<Field>): Scalar
  {
    if exists i :: 0 <= i < |fields| && fields[i].ty == U64 then U64 else U32
  }

  /** `sizeof` / `size_of`: the end of the last field, padded to the struct's alignment. */
  function SizeOf(fields: seq<Field>): (size: nat)
    requires fields != []
    ensures forall i :: 0 <= i < |fields| ==> Offsets(fields)[i] + Width(fields[i].ty) <= size
    ensures size % Width(MaxAlign(fields)) == 0
    ensures size < Offsets(fields)[|fields| - 1] + Width(fields[|fields| - 1].ty) + Width(MaxAlign(fields))
  {
    var offsets := Offsets(fields);
    var last := |fields| - 1;
    OffsetsFromSound(fields, 0);
    AlignUp(offsets[last] + Width(fields[last].ty), MaxAlign(fields))
  }

  /**
   * A `u64` followed by `u32`s: the `u32`s are packed right after it, and the
   * struct is padded to a multiple of 8.
   */
  lemma {:induction false} WordsAfterDoubleWord(fields: seq<Field>)
    requires |fields| >= 1 && fields[0].ty == U64
    requires forall i :: 1 <= i < |fields| ==> fields[i].ty == U32
    ensures Offsets(fields)[0] == 0
    ensures forall i :: 1 <= i < |fields| ==> Offsets(fields)[i] == 4 + 4 * i
    ensures SizeOf(fields) == AlignUp(4 + 4 * |fields|, U64)
  {
    var rest := fields[1..];
    PackedWords(rest, 8);
    assert Offsets(fields) == [0] + OffsetsFrom(rest, 8);
    assert MaxAlign(fields) == U64;
  }
}
