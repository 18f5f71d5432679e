# Sahne64 user-space system-call layer, modelled in Dafny

Sahne64 is the user-space API of a small operating system. It consists of the
Rust file `sahne64.rs` and the C header `src/sahne.h`. Each Rust wrapper does
the following:

- If it takes a handle, it checks that handle first: the raw value 0 is the
  invalid one. `poll` takes handles only inside its entries and checks none.
- It issues one `syscall(number, a1..a5) -> i64` to the kernel.
- It translates the answer. A negative value is an error code, which
  `map_kernel_error` turns into a `SahneError`. Any other value is the result,
  read as a count, handle, task id, offset or address.

The C header repeats the ABI as constants: error codes, system-call numbers,
mode bits, seek origins, poll bits and struct layouts.

This project models that layer and proves what the wrappers themselves decide.

- **The kernel is an oracle.** Every wrapper receives a function from request
  to `i64` (`Syscall.Kernel`). A wrapper that hands the kernel a buffer
  for the kernel to fill receives a function that also says what the kernel
  stores there (`Syscall.FillingKernel`). Buffers the kernel only reads are
  passed as an untracked address.
- **Every wrapper returns the requests it issued.** So "no system call was made"
  is the statement `issued == []`.
- **Pure wrappers are functions.** Wrappers that let the kernel write into
  caller memory are methods over an `array` or a `Place` (a `&mut T`):
  `read`, `receive_on_channel`, `stat` and `poll`. So are the compound
  assignments `|=` and `&=`.
- **Fixed-width integers and `as` casts are explicit.** They are in
  `machine_ints.dfy`.

Where the source does not compile as written, the model follows what was
evidently meant:

- `link_count: u62` in `ResourceStatus` is modelled as `u32`, as in
  `ResourceStatus_t` of the header.
- `SahneError::InternalError` is used by `map_shared` but is not a variant.
- `map_sahne_error_to_c` is called by the C shim but not defined. It is taken
  from the header's table, where the C code is the variant's position plus one
  (`SahneH.ErrorCode`).

Four defects are recorded under "## Findings". The rest of the model uses the
corrected behaviour:

- poll flags are a `u32` mask;
- the poll timeout saturates instead of wrapping;
- the C seek entry point reports a status and an out-parameter.

## Model

| member | source | states |
|---|---|---|
| `MachineInts.I64AsU64` | sahne64.rs:514 | `x as u64` on an `i64` keeps the 64 bits: equal modulo 2^64 |
| `MachineInts.U64AsI64` | sahne64.rs:509 | `x as i64` on a `u64` keeps the 64 bits: equal modulo 2^64 |
| `MachineInts.WrapToI64` | sahne64.rs:801 | `as i64` on a wider unsigned keeps the low 64 bits, and is the identity below 2^63 |
| `MachineInts.I64AsI32` | sahne64.rs:387 | `as i32` keeps the low 32 bits, and is the identity on values that fit |
| `MachineInts.I32AsU32` | sahne64.rs:387 | `as u32` on an `i32` keeps the 32 bits |
| `MachineInts.ReinterpretRoundTrip` | sahne64.rs:842 | reinterpreting between `i64` and `u64` loses nothing in either direction |
| `Errors.Position` | sahne64.rs:102-122 | `e as i64` is the variant's declaration position, below 18, and the position determines the variant |
| `Errors.PositionInjective` | sahne64.rs:102-122 | distinct variants have distinct positions |
| `Errors.MapKernelError` | sahne64.rs:135-153 | a listed code maps to the variant whose kernel code it is; every other value maps to `UnknownSystemCall` (total) |
| `Errors.MapKernelErrorInvertsKernelCode` | sahne64.rs:135-153 | every variant that has a kernel code is recovered from that code |
| `Errors.ListedCodesMapInjectively` | sahne64.rs:135-153 | the 13 listed codes map to 13 pairwise-distinct variants, none of them `UnknownSystemCall` |
| `Errors.MapKernelErrorRange` | sahne64.rs:135-153 | `InvalidOperation`, `TaskCreationFailed`, `HandleLimitExceeded` and `CommunicationError` never come from the kernel |
| `Errors.Decode` | sahne64.rs:437-441 | the decoding inline in each wrapper: `Ok` iff the answer is non-negative, carrying the answer unchanged; otherwise `Err(map_kernel_error(answer))` |
| `Errors.Encode` | sahne64.rs:135-153 | the kernel's convention that decoding inverts: a non-negative word for a value, a listed negative code for an error |
| `Errors.DecodeEncode` | sahne64.rs:135-153 | decoding recovers every result the kernel can express |
| `Errors.EncodeDecode` | sahne64.rs:135-153 | an answer survives decode-then-encode exactly when it is non-negative or a listed code |
| `Errors.MapKernelOkResult` | sahne64.rs:158-170 | negative gives `Err(map_kernel_error(r))`; in range gives `Ok(r)` unchanged; out of range gives `Err(InvalidOperation)` |
| `Errors.InvalidOperationMeansOutOfRange` | sahne64.rs:158-170 | `Err(InvalidOperation)` comes back exactly when the value does not fit the target type |
| `Errors.MapKernelOkResultAtU64` | sahne64.rs:158-170 | with `T = u64` the helper agrees with the inline decoding of the wrappers |
| `Handles.Handle.Invalid` | sahne64.rs:59-61 | `invalid()` hands the kernel the raw value 0 |
| `Handles.Handle.IsValid` | sahne64.rs:64-66 | `is_valid` rejects exactly `invalid()`, which is exactly the raw value 0 |
| `Handles.Handle.Raw` | sahne64.rs:69-71 | `raw` loses nothing: the handle is rebuilt from it |
| `Handles.TaskId.Invalid` | sahne64.rs:82-84 | `invalid()` hands the kernel the raw value 0 |
| `Handles.TaskId.IsValid` | sahne64.rs:87-89 | `is_valid` rejects exactly `invalid()`, which is exactly the raw value 0 |
| `Handles.TaskId.Raw` | sahne64.rs:92-94 | `raw` loses nothing: the task id is rebuilt from it |
| `Handles.InvalidIsUnique` | sahne64.rs:57-95 | `invalid()` is never valid and has raw value 0; it is the only invalid handle and the only invalid task id |
| `Syscall.Number` | sahne64.rs:12-45 | each system call's `arch` number; the number identifies the call |
| `Syscall.NumbersDistinct` | sahne64.rs:12-45 | the `arch` numbers are pairwise distinct |
| `Syscall.Store` | sahne64.rs:432-436 | the kernel's store into the caller's buffer, in place: afterwards the buffer is `Overwrite` of its old contents (also used by `receive_on_channel`, sahne64.rs:720-724) |
| `Syscall.Overwrite` | sahne64.rs:432-436 | the kernel's store into a buffer: only indices below the buffer's length change, and those take the stored data |
| `Layout.AlignUp` | sahne64.rs:526 | the first offset at or after `x` that is aligned for the field's type, less than one width further on |
| `Layout.OffsetsFrom` | sahne64.rs:526-533 | the `repr(C)` layout from a starting offset: one offset per field (the placement rule is `OffsetsFromTight`, its soundness `OffsetsFromSound`) |
| `Layout.OffsetsFromTight` | sahne64.rs:526-533 | the placement rule: the first field at the first offset aligned for it, and every later field at the first offset aligned for it after the end of the field before |
| `Layout.PlacedAfterPrevious` | sahne64.rs:526-533 | the placement rule for one field `i > 0`: it sits at the first aligned offset after the end of field `i - 1` |
| `Layout.OffsetsFromSound` | sahne64.rs:526-533 | in a `repr(C)` layout each field is aligned for its type, and no field overlaps a later one |
| `Layout.PackedWords` | sahne64.rs:526-533 | consecutive `u32` fields from an aligned offset are packed 4 bytes apart |
| `Layout.SizeOf` | sahne64.rs:526-533 | the struct's size covers every field, is a multiple of its largest alignment, and is the least such: under one alignment past the end of the last field |
| `Layout.WordsAfterDoubleWord` | sahne64.rs:526-533 | a `u64` followed by `u32`s: offsets 0, 8, 12, ..., and a size padded to 8 |
| `Resource.Acquire` | sahne64.rs:413-424 | one RESOURCE_ACQUIRE call with the id's length and the mode; negative gives the mapped error, otherwise `Ok(Handle(r))` |
| `Resource.AcquireTrustsKernelHandle` | sahne64.rs:419-423 | the returned handle is not checked: an answer of 0 comes back as `Ok(invalid())` |
| `Resource.Read` | sahne64.rs:428-442 | invalid handle: `Err(InvalidHandle)`, no call, buffer unchanged; otherwise one call with the buffer length, the buffer as the kernel filled it, and the decoded byte count |
| `Resource.Write` | sahne64.rs:446-460 | invalid handle: `Err(InvalidHandle)` and no call; otherwise one call with the buffer length and the decoded count |
| `Resource.Release` | sahne64.rs:463-475 | invalid handle: `Err(InvalidHandle)` and no call; `Ok(())` iff the handle is valid and the kernel answers non-negatively |
| `Resource.Control` | sahne64.rs:478-490 | invalid handle: `Err(InvalidHandle)` and no call; otherwise the raw non-negative `i64` or the mapped error |
| `Resource.EncodeSeek` | sahne64.rs:508-512 | origins 0/1/2 for `Start`/`Current`/`End`; a `Start` offset is passed with its bits unchanged |
| `Resource.Seek` | sahne64.rs:504-521 | invalid handle: `Err(InvalidHandle)` and no call; otherwise one RESOURCE_SEEK call and the decoded new offset |
| `Resource.SeekStartPassesOffset` | sahne64.rs:508-514 | a seek from the start hands the kernel origin 0 and exactly the requested offset |
| `Resource.ResourceStatusLayout` | sahne64.rs:527-533 | `ResourceStatus` fields sit at 0, 8, 12 and 16, and the struct is 24 bytes long |
| `Resource.Stat` | sahne64.rs:539-555 | invalid handle: `Err(InvalidHandle)`, no call, struct unchanged; otherwise one call with the struct size 24, the struct as the kernel filled it, and the decoded status |
| `Memory.CreateShared` | sahne64.rs:209-218 | one SHARED_MEM_CREATE call with the size; a non-negative answer is the region's handle |
| `Memory.MapShared` | sahne64.rs:222-235 | invalid handle: `Err(InvalidHandle)` and no call; otherwise one SHARED_MEM_MAP call and the decoded address |
| `Task.Spawn` | sahne64.rs:267-290 | invalid code handle: `Err(InvalidHandle)` and no call; otherwise one TASK_SPAWN call with both lengths; a non-negative answer is the new `TaskId` |
| `Task.CurrentId` | sahne64.rs:303-312 | one GET_TASK_ID call; a non-negative answer is the caller's `TaskId` |
| `Task.WaitForExit` | sahne64.rs:373-389 | task id 0: `Err(InvalidParameter)`, not `InvalidHandle`, and no call; otherwise the answer cut to its low 32 bits, exact when it fits |
| `Task.SignExtendedNegativeCodeIsAnError` | sahne64.rs:380-388 | if the kernel widens a negative exit code with its sign, the caller receives an error instead (exit code -1 comes back as `PermissionDenied`) |
| `Task.ZeroExtendedCodeRoundTrips` | sahne64.rs:380-388 | if the kernel widens the exit code's 32 bits without sign, every exit code comes back exactly |
| `KernelInfo.GetInfo` | sahne64.rs:573-582 | one GET_KERNEL_INFO call with the kind; `Ok` iff the answer is non-negative, carrying it unchanged |
| `Sync.Create` | sahne64.rs:603-612 | one LOCK_CREATE call; a non-negative answer is the lock's handle |
| `Sync.Acquire` | sahne64.rs:616-628 | invalid handle: `Err(InvalidHandle)` and no call; `Ok(())` iff the handle is valid and the kernel answers non-negatively |
| `Sync.Release` | sahne64.rs:632-644 | invalid handle: `Err(InvalidHandle)` and no call; `Ok(())` iff the handle is valid and the kernel answers non-negatively |
| `Messaging.CreateChannel` | sahne64.rs:660-670 | one CHANNEL_CREATE call; a non-negative answer is the channel handle |
| `Messaging.ConnectChannel` | sahne64.rs:675-688 | one CHANNEL_CONNECT call with the id's length; a non-negative answer is the new handle |
| `Messaging.SendOnChannel` | sahne64.rs:695-709 | invalid handle: `Err(InvalidHandle)` and no call; `Ok(())` iff the handle is valid and the kernel answers non-negatively |
| `Messaging.ReceiveOnChannel` | sahne64.rs:716-730 | invalid handle: `Err(InvalidHandle)`, no call, buffer unchanged; otherwise one call with the buffer length, the buffer as filled, and the decoded message size |
| `Poll.Discriminant` | sahne64.rs:747-754 | each declared variant's `u32` value, from which the variant is recovered |
| `Poll.DeclaredOf` | sahne64.rs:759 | the `transmute` back into the enum is defined exactly on 0 and the single bits below 16, the five discriminants |
| `Poll.BitOrAsWritten` | sahne64.rs:756-761 | `bitor` as written: where the transmute is defined, the result's discriminant is the OR of the operands' |
| `Poll.BitAndAsWritten` | sahne64.rs:763-768 | `bitand` as written: always defined, and the result's discriminant is the AND of the operands' |
| `Poll.Or` | sahne64.rs:756-761 | `\|` on the `u32` mask: the result holds both operands (its full characterisation is `OrIsLeastUpperBound`) |
| `Poll.And` | sahne64.rs:763-768 | `&` on the `u32` mask: both operands hold the result (its full characterisation is `AndIsGreatestLowerBound`) |
| `Poll.BitOrAsWrittenLeavesTheEnum` | sahne64.rs:756-761 | `a \| b` as written lands outside the enum exactly for two different non-`NONE` flags, e.g. `READABLE \| ERROR` |
| `Poll.BitAndAsWrittenStaysInTheEnum` | sahne64.rs:763-768 | `a & b` as written is always a variant: `a` when `a == b`, otherwise `NONE` |
| `Poll.OrIsLeastUpperBound` | sahne64.rs:756-761 | on the mask, `a \| b` holds both operands, and a set holds it iff it holds both |
| `Poll.AndIsGreatestLowerBound` | sahne64.rs:763-768 | on the mask, `a & b` is held by both operands, and it holds a set iff both do |
| `Poll.OrLaws` | sahne64.rs:756-761 | `\|` is commutative, associative and idempotent, with `NONE` as identity |
| `Poll.AndLaws` | sahne64.rs:763-768 | `&` is commutative and `a & NONE == NONE` |
| `Poll.AndTestsMembership` | sahne64.rs:763-768 | `a & b == b` iff `a` holds every event of `b` |
| `Poll.MaskAgreesWithDeclared` | sahne64.rs:756-768 | wherever the declared operators are defined, the mask operators give the same value |
| `Poll.BitOrAssign` | sahne64.rs:770-774 | `*self \|= other` leaves `old \| other` in the place |
| `Poll.BitAndAssign` | sahne64.rs:776-780 | `*self &= other` leaves `old & other` in the place |
| `Poll.PollEntryLayout` | sahne64.rs:785-790 | `PollEntry` fields sit at 0, 8 and 12, and an entry is 16 bytes long |
| `Poll.CountReady` | sahne64.rs:796 | the number of entries whose `events_out` is not `NONE`; never more than the entries |
| `Poll.CountReadyAppend` | sahne64.rs:796 | the ready count of two runs of entries is the sum of their counts |
| `Poll.CountReadyExtremes` | sahne64.rs:796 | the count is 0 iff no entry is ready, and equals the length iff every entry is ready |
| `Poll.AsMillis` | sahne64.rs:801 | `Duration::as_millis` is the floor of the duration in milliseconds |
| `Poll.PollTimeoutAsWritten` | sahne64.rs:800-803 | `None` gives -1; `Some(d)` gives `d.as_millis()` reduced modulo 2^64 |
| `Poll.PollTimeout` | sahne64.rs:800-803 | `None` gives -1, and only `None` does; `Some(d)` gives `d`'s milliseconds, saturated at `i64::MAX` |
| `Poll.WaitOf` | src/sahne.h:401 | timeout -1 waits forever, 0 does not block, and a positive value bounds the wait |
| `Poll.PollTimeoutMeaning` | src/sahne.h:398-403 | the passed timeout means "forever" iff it is `None`, is never unspecified, and is non-blocking iff `d` is under 1 ms |
| `Poll.PollTimeoutAgreesBelowOverflow` | sahne64.rs:800-803 | both conversions give `d.as_millis()` whenever it fits in an `i64` |
| `Poll.PollTimeoutAsWrittenWaitsForever` | sahne64.rs:801 | as written, `Duration(18446744073709551 s, 615 ms)` becomes -1 ("forever") |
| `Poll.PollTimeoutAsWrittenShrinks` | sahne64.rs:801 | as written, `Duration(18446744073709552 s)` becomes 384 ms |
| `Poll.FillEvents` | sahne64.rs:793-794 | the kernel writes only `events_out` of the entries it reports on; handles and `events_in` are unchanged |
| `Poll.Poll` | sahne64.rs:797-817 | one POLL call with the entry count and the timeout word, no handle check (the word is the saturating `PollTimeout`, not the wrapping conversion at sahne64.rs:801; see Findings); the entries as the kernel filled them and the decoded count; if the kernel keeps to the documented result, the count is the number of ready entries and at most the number of entries |
| `SahneH.ErrorCode` | src/sahne.h:20-40 | every `SAHNE_ERROR_*` code differs from `SAHNE_SUCCESS` (0) |
| `SahneH.ErrorCodesArePositionPlusOne` | src/sahne.h:23-40 | each C code is the Rust variant's position plus one, in 1..18, pairwise distinct |
| `SahneH.SyscallNumbersAgree` | src/sahne.h:45-77 | each `SAHNE_SYSCALL_*` equals the Rust `arch` number; the header's numbers are pairwise distinct |
| `SahneH.ModesAgree` | src/sahne.h:81-86 | the six `SAHNE_MODE_*` equal the Rust `MODE_*` and are six distinct single bits |
| `SahneH.KernelInfoKindsAgree` | src/sahne.h:90-96 | the `SAHNE_KERNEL_INFO_*` kinds equal the Rust `KERNEL_INFO_*` |
| `SahneH.SeekOriginsAgree` | src/sahne.h:102-104 | `SAHNE_SEEK_SET/CUR/END` are the origins `seek` sends for `Start`/`Current`/`End` |
| `SahneH.PollFlagsAgree` | src/sahne.h:116-121 | `SAHNE_POLL_NONE` is 0; the other four equal the Rust discriminants and are distinct single bits |
| `SahneH.StructLayoutsAgree` | src/sahne.h:107-129 | `ResourceStatus_t` and `PollEntry_t` declare the Rust fields in order, hence offsets 0/8/12/16 (size 24) and 0/8/12 (size 16) |
| `CApi.ErrorOfCode` | src/sahne.h:23-40 | a C code denotes a variant iff it is in 1..18, and then it is that variant's code |
| `CApi.ErrorCodeRoundTrip` | src/sahne.h:23-40 | every error survives the trip to its C code and back |
| `CApi.DecodeSeek` | sahne64.rs:841-846 | the shim understands origins 0, 1 and 2 and no other |
| `CApi.DecodeEncodeSeek` | sahne64.rs:841-846 | decoding what `seek` encodes gives the same `SeekFrom`; `Start(o)` survives because `(o as i64) as u64 == o` |
| `CApi.EncodeDecodeSeek` | sahne64.rs:841-846 | encoding a decoded `(whence, offset)` gives back the same pair |
| `CApi.SahneResourceSeekAsWritten` | sahne64.rs:840-851 | an unknown origin returns 2 with no call; otherwise the result of `seek`, as the offset or as its positive C error code |
| `CApi.UnknownOriginLooksLikeOffsetTwo` | sahne64.rs:845 | as written, an unknown origin returns what a successful seek to offset 2 returns |
| `CApi.ErrorLooksLikeOffset` | sahne64.rs:848-849 | as written, the error for handle 0 (13) equals a successful seek to offset 13 |
| `CApi.SahneResourceSeek` | src/sahne.h:296-304 | `SAHNE_SUCCESS` iff the out-parameter is written; an unknown origin gives `SAHNE_ERROR_INVALID_PARAMETER` with no call; otherwise it reports `seek`'s result |
| `CApi.SahneResourceSeekIsFaithful` | src/sahne.h:296-304 | from the status and out-parameter a C caller recovers exactly `seek`'s `Result`, or the refusal of an unknown origin |

## Left out

- `memory::allocate`, `memory::release` and `memory::unmap_shared` (sahne64.rs:182-247) are left out. They exist only to move pointers (`NonNull<u8>`), and the model does not track addresses.
- Memory.MapShared returns the mapped address as the raw `u64` word. The source's `NonNull::new(..).ok_or(SahneError::InternalError)` step is not modelled, because `InternalError` is not a variant of `SahneError`. A kernel answer of 0 therefore comes back as `Ok(0)` here.
- `task::exit` and `task::exit_thread` (sahne64.rs:293-300, 350-355) are left out: they do not return, and end in spin loops.
- `task::sleep`, `task::yield_now` and `kernel::get_time` are left out as time-based calls.
- `task::create_thread` is left out: it casts a function pointer to a word.
- The `syscall` extern (sahne64.rs:128-130) and `sahne_raw_syscall` (src/sahne.h:135) are foreign calls. They appear only as the kernel oracle passed to each wrapper.
- Arguments that are addresses are modelled as an untracked `Address`. What the kernel reads through them is not modelled: the identifier bytes, the message bytes, the argument and handle lists of `spawn`.
- Resource.Stat lets the kernel store a whole `ResourceStatus` or nothing. A partial, byte-level store into the struct is not modelled.
- Poll.Poll / Poll.FillEvents: the kernel is assumed to write only the `events_out` field of the entries, as the comments at sahne64.rs:794 and src/sahne.h:403 document. The source hands the kernel a raw pointer to the whole array (sahne64.rs:798, 807), and a kernel that writes elsewhere in the array is not modelled.
- Kernel behaviour is not modelled because no file implements it: handle tables, channel queues, poll readiness and blocking, the task lifecycle.
- Concurrency and blocking are not modelled. The layer is sequential, and all waiting happens inside the kernel.
- The prototypes in `src/sahne.h` other than `sahne_resource_seek` and `sahne_poll` have no bodies in the source and are not modelled.
- `src/main.c` and `src/main.cpp` are demonstration programs and are not part of this model. So are the placeholder lines `Pub fn send(...)` and `receive(...)`, the panic handler, `stdio_impl` and the example `main` of `sahne64.rs`.

## Findings

| source | as written | input that shows it | evidently intended | confidence | as-written member | corrected member |
|---|---|---|---|---|---|---|
| sahne64.rs:845 | an unknown origin returns `SahneError::InvalidParameter as i64`, the variant's position 2, which is a valid offset | `whence = 3` returns 2, the same value as a successful seek to `Start(2)` | a distinguishable error status, as in the header's prototype at src/sahne.h:304 | high; not executed | `CApi.UnknownOriginLooksLikeOffsetTwo` | `CApi.SahneResourceSeekIsFaithful` |
| sahne64.rs:848-849 | errors are returned as positive C codes on the same `i64` as new offsets | handle 0 returns 13 (`InvalidHandle`), the same value as a successful seek to offset 13 | a status code plus an out-parameter for the offset (src/sahne.h:296-304) | high; not executed | `CApi.ErrorLooksLikeOffset` | `CApi.SahneResourceSeek` |
| sahne64.rs:759 | `transmute` of the OR of two discriminants back into the fieldless enum | `READABLE \| ERROR` = 5 is no variant, yet the module's own example builds it (sahne64.rs:894) | a `u32` mask, as `PollEventFlags_t` at src/sahne.h:116 | high; not executed | `Poll.BitOrAsWrittenLeavesTheEnum` | `Poll.OrIsLeastUpperBound` |
| sahne64.rs:801 | `d.as_millis() as i64` keeps the low 64 bits of a `u128` | `Duration(18446744073709551 s, 615 ms)` becomes -1, "wait forever"; `Duration(18446744073709552 s)` becomes 384 ms | saturate at `i64::MAX` | medium (only very large durations); not executed | `Poll.PollTimeoutAsWrittenWaitsForever` | `Poll.PollTimeoutMeaning` |
