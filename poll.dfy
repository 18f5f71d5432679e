/**
 * The `poll` module: the event-flag set, its `|` / `&` operators and their
 * compound-assignment forms, the `PollEntry` record, the encoding of the
 * timeout, and the `poll` call itself, during which the kernel fills in the
 * `events_out` field of each entry.
 */
module Poll {
  import opened MachineInts
  import opened Errors
  import opened Handles
  import opened Syscall
  import opened Layout

  // ----- the flags as declared: a fieldless enum with `repr(u32)` -----

  /** The five variants of the declared enum. */
  datatype DeclaredFlag = NoneFlag | ReadableFlag | WritableFlag | ErrorFlag | DisconnectedFlag

  /** The discriminant of each variant: `self as u32`. */
  function Discriminant(f: DeclaredFlag): (d: bv32)
    ensures DeclaredOf(d) == Some(f)
  {
    match f
    case NoneFlag => 0
    case ReadableFlag => 1 << 0
    case WritableFlag => 1 << 1
    case ErrorFlag => 1 << 2
    case DisconnectedFlag => 1 << 3
  }

  /**
   * `transmute::<u32, PollEventFlags>`: defined only when the bits are the
   * discriminant of a variant; `None` when they are not, where the source has
   * undefined behaviour.
   */
  function DeclaredOf(bits: bv32): (flag: Option<DeclaredFlag>)
    ensures flag.Some? <==> bits < 16 && bits & (bits - 1) == 0
  {
    if bits == 0 then Some(NoneFlag)
    else if bits == 1 then Some(ReadableFlag)
    else if bits == 2 then Some(WritableFlag)
    else if bits == 4 then Some(ErrorFlag)
    else if bits == 8 then Some(DisconnectedFlag)
    else None
  }

  /** `bitor` as written: the OR of the discriminants, transmuted back. */
  function BitOrAsWritten(a: DeclaredFlag, b: DeclaredFlag): (r: Option<DeclaredFlag>)
    ensures r.Some? ==> Discriminant(r.value) == Discriminant(a) | Discriminant(b)
  {
    DeclaredOf(Discriminant(a) | Discriminant(b))
  }

  /** `bitand` as written: the AND of the discriminants, transmuted back. */
  function BitAndAsWritten(a: DeclaredFlag, b: DeclaredFlag): (r: Option<DeclaredFlag>)
    ensures r.Some? && Discriminant(r.value) == Discriminant(a) & Discriminant(b)
  {
    DeclaredOf(Discriminant(a) & Discriminant(b))
  }

  /**
   * Combining two different readiness flags with `|` yields no variant at
   * all: `READABLE | ERROR`, which the module's own example builds, is 5,
   * and the transmute is undefined there.
   */
  lemma BitOrAsWrittenLeavesTheEnum(a: DeclaredFlag, b: DeclaredFlag)
    ensures BitOrAsWritten(a, b).None? <==> a != b && a != NoneFlag && b != NoneFlag
    ensures BitOrAsWritten(ReadableFlag, ErrorFlag).None?
  {
  }

  /** `&` as written is always defined: two distinct single bits share nothing, so the result is a variant. */
  lemma BitAndAsWrittenStaysInTheEnum(a: DeclaredFlag, b: DeclaredFlag)
    ensures BitAndAsWritten(a, b) == Some(if a == b then a else NoneFlag)
  {
  }

  // ----- the flags as a `u32` mask, as `PollEventFlags_t` declares them -----

  /** A set of poll events: any combination of bits of a `u32`. */
  type PollEventFlags = bv32

  const NONE: PollEventFlags := 0
  const READABLE: PollEventFlags := 1 << 0
  const WRITABLE: PollEventFlags := 1 << 1
  const ERROR: PollEventFlags := 1 << 2
  const DISCONNECTED: PollEventFlags := 1 << 3

  /** Every event of `other` is in `flags`. */
  predicate Has(flags: PollEventFlags, other: PollEventFlags)
  {
    flags & other == other
  }

  /** `a | b` on the mask. */
  function Or(a: PollEventFlags, b: PollEventFlags): (r: PollEventFlags)
    ensures Has(r, a)
    ensures Has(r, b)
  {
    var r := a | b;
    BitsUnderOr(a, b);
    assert Has(r, a);
    r
  }

  /** `a & b` on the mask. */
  function And(a: PollEventFlags, b: PollEventFlags): (r: PollEventFlags)
    ensures Has(a, r)
    ensures Has(b, r)
  {
    var r := a & b;
    BitsOverAnd(a, b);
    assert Has(a, r);
    r
  }

  lemma BitsUnderOr(x: bv32, y: bv32)
    ensures (x | y) & x == x && (x | y) & y == y
  {
  }

  lemma BitsOverAnd(x: bv32, y: bv32)
    ensures x & (x & y) == x & y && y & (x & y) == x & y
  {
  }

  lemma BitsHoldingBoth(x: bv32, y: bv32, z: bv32)
    ensures z & x == x && z & y == y ==> z & (x | y) == x | y
  {
  }

  lemma BitsHoldingLeft(x: bv32, y: bv32, z: bv32)
    ensures z & (x | y) == x | y ==> z & x == x
  {
  }

  lemma BitsHoldingRight(x: bv32, y: bv32, z: bv32)
    ensures z & (x | y) == x | y ==> z & y == y
  {
  }

  lemma BitsInBoth(x: bv32, y: bv32, z: bv32)
    ensures x & z == z && y & z == z ==> (x & y) & z == z
  {
  }

  lemma BitsInLeft(x: bv32, y: bv32, z: bv32)
    ensures (x & y) & z == z ==> x & z == z
  {
  }

  lemma BitsInRight(x: bv32, y: bv32, z: bv32)
    ensures (x & y) & z == z ==> y & z == z
  {
  }

  /**
   * `a | b` is the least upper bound: it holds both operands, and a set
   * holds it exactly when it holds both operands.
   */
  lemma OrIsLeastUpperBound(a: PollEventFlags, b: PollEventFlags, c: PollEventFlags)
    ensures Has(Or(a, b), a) && Has(Or(a, b), b)
    ensures Has(c, a) && Has(c, b) ==> Has(c, Or(a, b))
    ensures Has(c, Or(a, b)) ==> Has(c, a) && Has(c, b)
  {
    BitsHoldingBoth(a, b, c);
    BitsHoldingLeft(a, b, c);
    BitsHoldingRight(a, b, c);
  }

  /**
   * `a & b` is the greatest lower bound: both operands hold it, and it holds
   * a set exactly when both operands do.
   */
  lemma AndIsGreatestLowerBound(a: PollEventFlags, b: PollEventFlags, c: PollEventFlags)
    ensures Has(a, And(a, b)) && Has(b, And(a, b))
    ensures Has(a, c) && Has(b, c) ==> Has(And(a, b), c)
    ensures Has(And(a, b), c) ==> Has(a, c) && Has(b, c)
  {
    BitsInBoth(a, b, c);
    BitsInLeft(a, b, c);
    BitsInRight(a, b, c);
  }

  /** `|` is commutative and associative, `NONE` is its identity, and it is idempotent. */
  lemma OrLaws(a: PollEventFlags, b: PollEventFlags, c: PollEventFlags)
    ensures Or(a, b) == Or(b, a)
    ensures Or(Or(a, b), c) == Or(a, Or(b, c))
    ensures Or(a, NONE) == a && Or(NONE, a) == a
    ensures Or(a, a) == a
  {
  }

  /** `&` is commutative, and `NONE` absorbs it. */
  lemma AndLaws(a: PollEventFlags, b: PollEventFlags)
    ensures And(a, b) == And(b, a)
    ensures And(a, NONE) == NONE && And(NONE, a) == NONE
  {
  }

  /** `a & b` is `b` exactly when `a` holds every event of `b`: the membership test the operators are for. */
  lemma AndTestsMembership(a: PollEventFlags, b: PollEventFlags)
    ensures And(a, b) == b <==> Has(a, b)
  {
  }

  /**
   * Wherever the declared operators are defined, the mask operators give the
   * same result; the mask operators are in addition defined everywhere.
   */
  lemma MaskAgreesWithDeclared(a: DeclaredFlag, b: DeclaredFlag)
    ensures BitOrAsWritten(a, b).Some? ==> Or(Discriminant(a), Discriminant(b)) == Discriminant(BitOrAsWritten(a, b).value)
    ensures And(Discriminant(a), Discriminant(b)) == Discriminant(BitAndAsWritten(a, b).value)
  {
    BitAndAsWrittenStaysInTheEnum(a, b);
  }

  /** `*self |= other`: the place afterwards holds `old | other`. */
  method BitOrAssign(place: Place<PollEventFlags>, other: PollEventFlags)
    modifies place
    ensures place.value == Or(old(place.value), other)
  {
    place.value := Or(place.value, other);
  }

  /** `*self &= other`: the place afterwards holds `old & other`. */
  method BitAndAssign(place: Place<PollEventFlags>, other: PollEventFlags)
    modifies place
    ensures place.value == And(old(place.value), other)
  {
    place.value := And(place.value, other);
  }

  // ----- poll entries -----

  /** `PollEntry`: the handle, the events waited for, and the events the kernel reports. */
  datatype PollEntry = PollEntry(handle: Handle, eventsIn: PollEventFlags, eventsOut: PollEventFlags)

  const POLL_ENTRY_FIELDS: seq<Field> := [Field("handle", U64), Field("events_in", U32), Field("events_out", U32)]

  /** The size of one entry in the array handed to the kernel. */
  const POLL_ENTRY_SIZE: nat := 16

  /** The handle sits at offset 0, the two flag words at 8 and 12, and an entry is 16 bytes long. */
  lemma PollEntryLayout()
    ensures Offsets(POLL_ENTRY_FIELDS) == [0, 8, 12]
    ensures SizeOf(POLL_ENTRY_FIELDS) == POLL_ENTRY_SIZE
  {
    var fs := POLL_ENTRY_FIELDS;
    WordsAfterDoubleWord(fs);
  }

  /** The number of entries whose `events_out` is not `NONE`. */
  function CountReady(entries: seq<PollEntry>): (n: nat)
    ensures n <= |entries|
  {
    if entries == [] then 0
    else (if entries[0].eventsOut != NONE then 1 else 0) + CountReady(entries[1..])
  }

  /** Counting splits over concatenation. */
  lemma {:induction false} CountReadyAppend(a: seq<PollEntry>, b: seq<PollEntry>)
    ensures CountReady(a + b) == CountReady(a) + CountReady(b)
  {
    if a == [] {
      assert a + b == b;
    } else {
      assert (a + b)[0] == a[0];
      assert (a + b)[1..] == a[1..] + b;
      CountReadyAppend(a[1..], b);
    }
  }

  /** No entry is ready exactly when the count is 0; every entry is ready exactly when it is the length. */
  lemma {:induction false} CountReadyExtremes(entries: seq<PollEntry>)
    ensures CountReady(entries) == 0 <==> forall i :: 0 <= i < |entries| ==> entries[i].eventsOut == NONE
    ensures CountReady(entries) == |entries| <==> forall i :: 0 <= i < |entries| ==> entries[i].eventsOut != NONE
  {
    if entries != [] {
      CountReadyExtremes(entries[1..]);
      assert forall i :: 1 <= i < |entries| ==> entries[i] == entries[1..][i - 1];
    }
  }

  // ----- the timeout -----

  type Nanos = x: int | 0 <= x < 1_000_000_000

  /** `core::time::Duration`: whole seconds and the nanoseconds below one second. */
  datatype Duration = Duration(secs: uint64, nanos: Nanos)

  /** `Duration::as_millis`: the whole milliseconds in the duration (a `u128`, never wrapping). */
  function AsMillis(d: Duration): (ms: nat)
    ensures ms * 1_000_000 <= d.secs * 1_000_000_000 + d.nanos < (ms + 1) * 1_000_000
  {
    d.secs * 1000 + d.nanos / 1_000_000
  }

  /** The timeout word as written: `None` is -1, `Some(d)` is `d.as_millis() as i64`, which keeps the low 64 bits. */
  function PollTimeoutAsWritten(timeout: Option<Duration>): (ms: int64)
    ensures timeout.None? ==> ms == -1
    ensures timeout.Some? ==> ms % TWO_TO_THE_64 == AsMillis(timeout.value) % TWO_TO_THE_64
  {
    match timeout
    case None => -1
    case Some(d) => WrapToI64(AsMillis(d))
  }

  /** The timeout word with the conversion saturating at `i64::MAX`. */
  function PollTimeout(timeout: Option<Duration>): (ms: int64)
    ensures timeout.None? <==> ms == -1
    ensures timeout.Some? ==> 0 <= ms && ms == (if AsMillis(timeout.value) <= INT64_MAX then AsMillis(timeout.value) else INT64_MAX)
  {
    match timeout
    case None => -1
    case Some(d) => if AsMillis(d) <= INT64_MAX then AsMillis(d) else INT64_MAX
  }

  /** What the kernel makes of a timeout word: -1 waits forever, 0 does not block, a positive value bounds the wait. */
  datatype Wait = Forever | NonBlocking | AtMost(ms: nat) | Unspecified

  function WaitOf(ms: int64): (w: Wait)
    ensures w == Forever <==> ms == -1
    ensures w == NonBlocking <==> ms == 0
    ensures w.AtMost? <==> ms > 0
  {
    if ms == -1 then Forever
    else if ms == 0 then NonBlocking
    else if ms > 0 then AtMost(ms)
    else Unspecified
  }

  /**
   * The corrected timeout never turns a duration into "forever" nor into an
   * unspecified value; a duration waits at most its milliseconds, and only a
   * sub-millisecond duration is non-blocking.
   */
  lemma PollTimeoutMeaning(timeout: Option<Duration>)
    ensures WaitOf(PollTimeout(timeout)) == Forever <==> timeout.None?
    ensures WaitOf(PollTimeout(timeout)) != Unspecified
    ensures timeout.Some? ==> (WaitOf(PollTimeout(timeout)) == NonBlocking <==> AsMillis(timeout.value) == 0)
  {
  }

  /** Both conversions agree on every duration whose milliseconds fit in an `i64`. */
  lemma PollTimeoutAgreesBelowOverflow(d: Duration)
    requires AsMillis(d) <= INT64_MAX
    ensures PollTimeoutAsWritten(Some(d)) == PollTimeout(Some(d)) == AsMillis(d)
  {
  }

  /** As written, a finite timeout of about 585 million years is turned into "wait forever". */
  lemma PollTimeoutAsWrittenWaitsForever()
    ensures var d := Duration(18446744073709551, 615_000_000);
      && AsMillis(d) == UINT64_MAX
      && WaitOf(PollTimeoutAsWritten(Some(d))) == Forever
      && WaitOf(PollTimeout(Some(d))) == AtMost(INT64_MAX)
  {
  }

  /** As written, a timeout of 18446744073709552 seconds is turned into 384 milliseconds. */
  lemma PollTimeoutAsWrittenShrinks()
    ensures var d := Duration(18446744073709552, 0);
      && PollTimeoutAsWritten(Some(d)) == 384
      && PollTimeout(Some(d)) == INT64_MAX
  {
  }

  // ----- poll -----

  function PollRequest(count: usize, timeout: Option<Duration>): Request
  {
    Request(Number(SyscallId.Poll), Address, Word(count), Word(I64AsU64(PollTimeout(timeout))), Word(0), Word(0))
  }

  /** The entries after the kernel wrote `outs` into their `events_out` fields; nothing else changes. */
  function FillEvents(entries: seq<PollEntry>, outs: seq<PollEventFlags>): (r: seq<PollEntry>)
    ensures |r| == |entries|
    ensures forall i :: 0 <= i < |r| ==>
      && r[i].handle == entries[i].handle
      && r[i].eventsIn == entries[i].eventsIn
      && r[i].eventsOut == (if i < |outs| then outs[i] else entries[i].eventsOut)
  {
    seq(|entries|, i requires 0 <= i < |entries| =>
      if i < |outs| then entries[i].(eventsOut := outs[i]) else entries[i])
  }

  /**
   * The result `sahne_poll` documents: a negative kernel error, or the number
   * of entries the kernel marked ready.
   */
  predicate Documented(entries: seq<PollEntry>, answer: Answer<seq<PollEventFlags>>)
  {
    answer.ret < 0 || answer.ret == CountReady(FillEvents(entries, answer.stores))
  }

  /**
   * `poll`: no check of its own; one POLL call with the number of entries and
   * the timeout word, during which the kernel writes each entry's
   * `events_out`, and a non-negative answer is the ready count. When the
   * kernel keeps to the documented result, that count is the number of
   * entries now holding events, and so at most the number of entries.
   */
  method Poll(entries: array<PollEntry>, timeout: Option<Duration>, kernel: FillingKernel<seq<PollEventFlags>>)
    returns (r: Result<usize>, issued: seq<Request>)
    requires entries.Length < TWO_TO_THE_64
    modifies entries
    ensures var answer := kernel(PollRequest(entries.Length, timeout));
      && issued == [PollRequest(entries.Length, timeout)]
      && entries[..] == FillEvents(old(entries[..]), answer.stores)
      && r == Decode(answer.ret)
      && (Documented(old(entries[..]), answer) && r.Ok? ==>
            r.value == CountReady(entries[..]) <= entries.Length)
  {
    var request := PollRequest(entries.Length, timeout);
    var answer := kernel(request);
    ghost var before := entries[..];
    var outs := answer.stores;
    forall i | 0 <= i < entries.Length && i < |outs| {
      entries[i] := entries[i].(eventsOut := outs[i]);
    }
    assert entries[..] == FillEvents(before, outs);
    r, issued := Decode(answer.ret), [request];
  }
}
