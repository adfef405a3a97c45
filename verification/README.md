# sallyport, modelled in Dafny

sallyport is the call interface between an Enarx keep (the guest) and its
host. The guest does not make system calls itself. It writes an *item* into
a shared block of memory. An item is a two-word header (size and kind), then
the syscall number, six argument registers and two return words, then a
data section for the call's buffers. The host reads the item. It checks
every offset the guest wrote, which is relative to the item's data
section, against that section and turns the offset into a pointer. Then it runs the real syscall and writes
the result into the return word. The guest reads the result back.

This project models:

- **The item format** (`Item`, `Gdbcall`): item kinds and headers with their
  fallible decoding from raw words, the gdbcall payload layout, and the
  sizes of the largest payload and the largest item.
- **The host side** (`HostSyscall`, `HostDispatch`, `HostDispatchProofs`):
  - `deref` with its unchecked `len * size_of::<T>()`;
  - the sockaddr and alignment checks;
  - the 25-arm dispatch of `execute_syscall`, with unknown numbers answered
    by `ENOSYS`;
  - a class for the item, whose `ret[0]` the method updates.

  The 25 arms are modelled twice. One model follows the source arm by arm.
  The other is a table of argument shapes. A lemma proves that the two agree
  on every input. That lemma gives two facts for every syscall at once:
  every error the validation returns is `EFAULT` (or `ENOSYS`), and every
  pointer it hands to the kernel lies inside the data section.
- **The guest side**:
  - the bump allocator (`GuestAlloc`);
  - decoding of the Linux return convention (`GuestResult`);
  - the generic stage / commit / collect of a syscall item over an array of
    words, including the padding of the data section to a whole word
    (`Frame`);
  - the pass-through calls (`Passthrough`);
  - the older `close` revision (`CloseRevision`);
  - `clock_gettime` with its output slot (`ClockGettime`).

  `EndToEnd` connects the two sides. What the guest commits passes the
  host's validation with the same number and arguments. The host sees only
  the item's data section, and the offsets the guest stages are relative
  to it.
- **The stubs the guest answers itself** (`Stub`): fake identities, fake
  `fstat` of the standard streams, `getrandom` driven by an oracle for the
  CPU's random number instruction, `readlink("/proc/self/exe")` and `uname`.
- **The SEV secret** (`SevSecret`): the CBOR length prefix of the injected
  secret, with a round trip against an encoder. This includes the overflow
  recorded under Findings.

Modelling choices:

- Integers are unbounded. `usize` is the subtype `Word` (0 .. 2^64), and
  `u8` is the newtype `Byte` (0 .. 255).
- A C `int` cast to a register is sign-extended into a `Word`.
- A return word at or above 2^64 − 4095 is read as `-errno`.
- The kernel is a function parameter that gives the return word for a
  validated call.
- The rdrand instruction is a sequence of `Draw`s. Each `Draw` gives the
  number of failed attempts before a success, and the value produced.

## Model

| member | source | states |
|---|---|---|
| Common.WordOfCInt | src/v2/src/guest/syscall/close.rs:25 | a C `int` stored as a register keeps non-negative values and maps negative ones to 2^64 + x (sign extension) |
| Item.KindTryFrom | src/item/mod.rs:43-55 | a word decodes to a kind exactly when it is 0, 1 or 2, and the kind's discriminant is that word; anything else is `EINVAL` |
| Item.KindRoundTrip | src/item/mod.rs:36-55 | every kind decodes back from its discriminant |
| Item.HeaderTryFrom | src/item/mod.rs:67-76 | two words decode to a header exactly when the second is a valid kind; the size is the first word unchanged and re-encoding gives the same words; otherwise `EINVAL` |
| Item.HeaderRoundTrip | src/item/mod.rs:57-76 | every header decodes back from its two words |
| Item.LargestPayloadSize | src/item/mod.rs:25-29 | the largest payload size bounds the payload of every kind and is reached by one of them |
| Item.ItemSizes | src/item/mod.rs:19-31 | header plus any payload fits the largest item size; syscall is the largest payload (72 bytes), an item is at most 88 bytes; the UDP limit is 65507 |
| Gdbcall.NumberOf | src/v2/src/item/gdbcall.rs:8-40 | a word names a gdbcall number exactly when it is not 1 and at most 6, and that number's discriminant is the word |
| Gdbcall.NumberRoundTrip | src/v2/src/item/gdbcall.rs:8-40 | every gdbcall number decodes back from its discriminant |
| Gdbcall.View | src/v2/src/item/gdbcall.rs:53-59 | viewing six words as a payload puts the number in word 0, the four arguments in words 1..4 and the return in word 5, and lays out the same words |
| Gdbcall.ViewOfPayloadWords | src/v2/src/item/gdbcall.rs:45-59 | a payload laid out as words and viewed again is the same payload |
| Gdbcall.WritesThroughView | src/v2/src/item/gdbcall.rs:53-59 | writing the return or one argument through the view changes exactly the corresponding word of the buffer |
| HostSyscall.Deref | src/v2/src/host/syscall.rs:137-145 | accepts exactly when the wrapped byte count plus the offset stays within the data section, returns that range, which lies inside the section, and otherwise fails with `EFAULT` |
| HostSyscall.DerefExact | src/v2/src/host/syscall.rs:137-145 | when `len * size` does not overflow, deref accepts exactly the ranges of `len` whole elements inside the section |
| HostSyscall.DerefWrapAccepts | src/v2/src/host/syscall.rs:137-145 | 2^60 16-byte elements wrap to size 0 and are accepted even on an empty section |
| HostSyscall.CheckAlign | src/v2/src/host/syscall.rs:153-159 | passes a range through exactly when its host address is aligned, else `EFAULT` |
| HostSyscall.LoadSocklen | src/v2/src/host/syscall.rs:156 | the `socklen_t` read from the block is below 2^32 |
| HostSyscall.DerefSockaddrOutput | src/v2/src/host/syscall.rs:147-161 | succeeds exactly when the 4-byte length slot is in the section and aligned, and the address buffer of that many bytes is in the section and aligned for `sockaddr_storage`; both returned ranges are those; otherwise `EFAULT` |
| HostSyscall.SockaddrOrNull | src/v2/src/host/syscall.rs:170-174 | a `NULL` address offset gives two null pointers without touching the length |
| HostSyscall.AcceptNullAddress | src/v2/src/host/syscall.rs:165-199 | `accept` and `accept4` with a `NULL` address always validate, passing the descriptor (and flags) and two null pointers |
| HostSyscall.RecvfromNullAddress | src/v2/src/host/syscall.rs:439-456 | `recvfrom` with a `NULL` source address validates exactly when its buffer is in the section, and passes two null pointers for the address |
| HostSyscall.SetsockoptOptval | src/v2/src/host/syscall.rs:458-481 | a `NULL` option value passes a null pointer and length 0; otherwise the call validates exactly when the option value is in the section and aligned for `usize` |
| HostSyscall.Validate | src/v2/src/host/syscall.rs:163-519 | the arm-by-arm validation runs only the syscall the guest asked for; its errors, its pointers and its agreement with the table are the lemmas of `HostDispatchProofs` |
| HostSyscall.EpollCtlPackedEvent | src/v2/src/host/syscall.rs:301-316 | `epoll_ctl` validates exactly when one packed 12-byte `epoll_event` fits at the offset, whatever the section's address, and otherwise fails with `EFAULT` |
| HostSyscall.ExecuteSyscall | src/v2/src/host/syscall.rs:163-521 | a call that fails validation returns its error and leaves the item's return words alone; a valid one writes the kernel's answer to `ret[0]` and nothing else |
| HostDispatch.ShapeDomain | src/v2/src/host/syscall.rs:163-519 | the shape table has an entry exactly for the 25 numbers the host handles |
| HostDispatchProofs.ResolveErrors | src/v2/src/host/syscall.rs:137-161 | resolving any list of argument shapes fails only with `EFAULT` |
| HostDispatchProofs.ResolvePointers | src/v2/src/host/syscall.rs:137-161 | a successful resolution yields one argument per register slot used, and every pointer among them lies inside the data section |
| HostDispatchProofs.ValidateAgreesWithDispatch | src/v2/src/host/syscall.rs:163-521 | for every number and input, the arm-by-arm validation and the table-driven dispatch agree on success, errno, number and arguments |
| HostDispatchProofs.ValidateErrors | src/v2/src/host/syscall.rs:163-521 | validation fails only with `EFAULT` for a handled number and always with `ENOSYS` for any other |
| HostDispatchProofs.ValidatedPointersInBlock | src/v2/src/host/syscall.rs:163-521 | every pointer in a validated call lies inside the data section |
| HostDispatchProofs.AgreeAccept | src/v2/src/host/syscall.rs:165-181 | the `accept` arm agrees with its table entry |
| HostDispatchProofs.AgreeAccept4 | src/v2/src/host/syscall.rs:183-199 | the `accept4` arm agrees with its table entry |
| HostDispatchProofs.AgreeBind | src/v2/src/host/syscall.rs:201-213 | the `bind` arm agrees with its table entry |
| HostDispatchProofs.AgreeClockGettime | src/v2/src/host/syscall.rs:215-230 | the `clock_gettime` arm agrees with its table entry |
| HostDispatchProofs.AgreeClose | src/v2/src/host/syscall.rs:232-241 | the `close` arm agrees with its table entry |
| HostDispatchProofs.AgreeConnect | src/v2/src/host/syscall.rs:243-255 | the `connect` arm agrees with its table entry |
| HostDispatchProofs.AgreeDup | src/v2/src/host/syscall.rs:257-266 | the `dup` arm agrees with its table entry |
| HostDispatchProofs.AgreeDup2 | src/v2/src/host/syscall.rs:268-277 | the `dup2` arm agrees with its table entry |
| HostDispatchProofs.AgreeDup3 | src/v2/src/host/syscall.rs:279-288 | the `dup3` arm agrees with its table entry |
| HostDispatchProofs.AgreeEpollCreate1 | src/v2/src/host/syscall.rs:290-299 | the `epoll_create1` arm agrees with its table entry |
| HostDispatchProofs.AgreeEpollCtl | src/v2/src/host/syscall.rs:301-316 | the `epoll_ctl` arm agrees with its table entry |
| HostDispatchProofs.AgreeEpollPwait | src/v2/src/host/syscall.rs:318-337 | the `epoll_pwait` arm agrees with its table entry |
| HostDispatchProofs.AgreeEpollWait | src/v2/src/host/syscall.rs:339-354 | the `epoll_wait` arm agrees with its table entry |
| HostDispatchProofs.AgreeEventfd2 | src/v2/src/host/syscall.rs:356-365 | the `eventfd2` arm agrees with its table entry |
| HostDispatchProofs.AgreeExit | src/v2/src/host/syscall.rs:367-376 | the `exit` arm agrees with its table entry |
| HostDispatchProofs.AgreeExitGroup | src/v2/src/host/syscall.rs:378-387 | the `exit_group` arm agrees with its table entry |
| HostDispatchProofs.AgreeFcntl | src/v2/src/host/syscall.rs:389-398 | the `fcntl` arm agrees with its table entry |
| HostDispatchProofs.AgreeGetsockname | src/v2/src/host/syscall.rs:400-412 | the `getsockname` arm agrees with its table entry |
| HostDispatchProofs.AgreeListen | src/v2/src/host/syscall.rs:414-423 | the `listen` arm agrees with its table entry |
| HostDispatchProofs.AgreeRead | src/v2/src/host/syscall.rs:425-437 | the `read` arm agrees with its table entry |
| HostDispatchProofs.AgreeRecvfrom | src/v2/src/host/syscall.rs:439-456 | the `recvfrom` arm agrees with its table entry |
| HostDispatchProofs.AgreeSetsockopt | src/v2/src/host/syscall.rs:458-481 | the `setsockopt` arm agrees with its table entry |
| HostDispatchProofs.AgreeSocket | src/v2/src/host/syscall.rs:483-492 | the `socket` arm agrees with its table entry |
| HostDispatchProofs.AgreeSync | src/v2/src/host/syscall.rs:494-503 | the `sync` arm agrees with its table entry |
| HostDispatchProofs.AgreeWrite | src/v2/src/host/syscall.rs:505-517 | the `write` arm agrees with its table entry |
| GuestAlloc.AlignUp | src/v2/src/guest/alloc/syscall.rs:66-69 | the next multiple of the alignment at or above `n`, less than one alignment away, and `n` itself when already aligned |
| GuestAlloc.AlignUpLeast | src/v2/src/guest/alloc/syscall.rs:66-69 | no aligned position at or above `n` is below the aligned-up position |
| GuestAlloc.Allocator.Allocate | src/v2/src/guest/alloc/syscall.rs:66-78 | an allocation succeeds exactly when the aligned position plus the size fits the block; it returns that position and advances the allocator past it; otherwise `ENOMEM`, with the allocator unchanged |
| GuestResult.DecodeRet | src/v2/src/guest/alloc/syscall.rs:133-137 | the return words are an error exactly when word 0 is in the top 4095 values, with errno 2^64 − word; otherwise unit or the low 32 bits as a C `int`, by the call's return type |
| GuestResult.DecodeEncode | src/v2/src/guest/alloc/syscall.rs:133-137 | decoding the words of any encodable result gives that result back |
| GuestResult.DefaultAndZeroRet | src/v2/src/guest/alloc/syscall.rs:116 | the default return words decode to `ENOSYS` for either return type, and zero words to success |
| Passthrough.Stage | src/v2/src/guest/syscall/passthrough.rs:8-127 | each pass-through call stages one register per field (at most three), each the sign-extended field |
| Passthrough.ArgvInto | src/v2/src/guest/alloc/syscall.rs:148 | the staged registers become six, the given ones first and the rest zero |
| Passthrough.StageRoundTrip | src/v2/src/guest/syscall/passthrough.rs:8-127 | every staged register reads back as the field it came from |
| Passthrough.StageInjective | src/v2/src/guest/syscall/passthrough.rs:8-127 | two calls with the same number and the same registers are the same call |
| CloseRevision.DefaultRet | src/v2/src/guest/syscall/close.rs:15 | the default return is two words that decode to `ENOSYS` |
| CloseRevision.Stage | src/v2/src/guest/syscall/close.rs:24-26 | staging always succeeds with one register that reads back as the descriptor |
| CloseRevision.Collect | src/v2/src/guest/syscall/close.rs:28-30 | collecting fails exactly on an error word and otherwise gives unit |
| CloseRevision.RevisionsAgree | src/v2/src/guest/syscall/close.rs:13-30 | this revision of `close` has the same number, registers and result as the pass-through `close`, and its default return is the words the generic commit writes |
| CloseRevision.ZeroRetIsSuccess | src/v2/src/guest/syscall/close.rs:28-30 | a zero return word collects as success |
| ClockGettime.Stage | src/v2/src/guest/syscall/clock_gettime.rs:24-27 | staging reserves a 16-byte, 8-aligned `timespec` slot from the allocator it is given and passes the clock id and the slot's offset in that allocator; it fails with `ENOMEM` exactly when the slot does not fit, leaving the allocator unchanged |
| ClockGettime.Collect | src/v2/src/guest/syscall/clock_gettime.rs:29-38 | the result is returned as it is; on success the caller's `timespec` receives the slot's two words, on failure it is untouched |
| Frame.PaddedSizeIsAlignUp | src/v2/src/guest/alloc/syscall.rs:71-80 | the padded section size is the section size rounded up to a whole word |
| Frame.FrameSlotsPacked | src/v2/src/guest/alloc/syscall.rs:66-69 | after the header is word aligned, number, registers and return follow it with no padding |
| Frame.StagingCommittable | src/v2/src/guest/alloc/syscall.rs:65-92 | a staged frame that fits is well formed, has six registers and a word-multiple section, and starts at or after the allocator's old position |
| Frame.StageFixed | src/v2/src/guest/alloc/syscall.rs:66-69 | the four fixed slots succeed exactly when the item fits after the first word boundary; the header lands on that boundary and the allocator moves to the end of the return slot |
| Frame.StageSection | src/v2/src/guest/alloc/syscall.rs:70 | the call stages on an allocator of its own section, so its registers hold section-relative offsets (`clock_gettime`'s slot is offset 0) while the kept value records the slot's place in the block; it succeeds exactly when the section's bytes fit, and the block's allocator then advances by exactly that size; on failure `ENOMEM` and nothing allocated |
| Frame.Pad | src/v2/src/guest/alloc/syscall.rs:71-80 | padding succeeds exactly when the bytes up to the next word fit; it returns the padded section size and advances the allocator by the padding alone; on failure `ENOMEM` and nothing allocated |
| Frame.Stage | src/v2/src/guest/alloc/syscall.rs:65-92 | staging succeeds exactly when the whole frame, padded section included, fits; it then advances the allocator to the frame's end and returns the staged frame, whose registers carry section-relative offsets; otherwise `ENOMEM` |
| Frame.DefaultRetWords | src/v2/src/guest/alloc/syscall.rs:116 | the default return words are −`ENOSYS` and 0 |
| Frame.Commit | src/v2/src/guest/alloc/syscall.rs:106-124 | committing writes the frame's eleven words at its position and leaves every other word of the block unchanged |
| Frame.CommitImageReadsBack | src/v2/src/guest/alloc/syscall.rs:106-124 | the committed header decodes to kind `Syscall` with size 72 plus the section, which is a whole number of words; number and registers read back; the return reads as `ENOSYS` |
| Frame.Collect | src/v2/src/guest/alloc/syscall.rs:133-138 | the result is the decoding of the frame's two return words; for `clock_gettime` the `timespec` is copied back exactly on success |
| EndToEnd.HostRunsPassthrough | src/v2/src/host/syscall.rs:163-521 | every committed pass-through call validates on the host, with the guest's number and the guest's staged registers as scalars |
| EndToEnd.HostChecksTimespecSlot | src/v2/src/host/syscall.rs:215-230 | given only the item's data section (the padded section bytes after the return words), the host accepts a committed `clock_gettime` exactly when the section's address is aligned for a `timespec`, passing the clock id and the section's first 16 bytes, which are the slot the guest copies back from |
| Stub.FakeIds | src/v2/src/guest/syscall/stub.rs:80-162 | user and group ids, real and effective, are 1000, and so is the process id |
| Stub.SignalStubsSucceed | src/v2/src/guest/syscall/stub.rs:186-224 | `set_tid_address` returns 1 whatever it is given, and `rt_sigprocmask` and `sigaltstack` succeed whatever they are given |
| Stub.MakedevRoundTrip | src/v2/src/guest/syscall/stub.rs:37-42 | the major and minor numbers packed by `makedev` unpack to themselves |
| Stub.FakeStdioStatFacts | src/v2/src/guest/syscall/stub.rs:44-69 | the fake stat is a FIFO with mode 0600, owned by the fake user, on device 0:0x19 for stdin and 0:0xc otherwise, with special device 0x88:0, empty, with one timestamp |
| Stub.Fstat | src/v2/src/guest/syscall/stub.rs:30-78 | descriptors 0, 1 and 2 get the fake stat and success; any other gets `EBADFD` and an untouched buffer |
| Stub.RandomFill | src/v2/src/guest/syscall/stub.rs:134-139 | filling the first `n` chunks leaves the buffer's length unchanged |
| Stub.FirstFailure | src/v2/src/guest/syscall/stub.rs:134-147 | the first chunk whose random draw fails at least once, or the end when none does |
| Stub.Getrandom | src/v2/src/guest/syscall/stub.rs:125-152 | the result and the buffer are exactly those of the specification: unknown flags give `EINVAL`; otherwise chunks of 8 are filled in order until a draw fails, which gives `EAGAIN` under `GRND_NONBLOCK`, the bytes filled so far under `GRND_RANDOM`, and a retry otherwise |
| Stub.FillChunk | src/v2/src/guest/syscall/stub.rs:138 | one chunk receives the draw's eight native-order bytes, clipped at the buffer's end, and nothing else changes |
| Stub.RandomFillNext | src/v2/src/guest/syscall/stub.rs:134-139 | filling one more chunk extends the specification by one chunk |
| Stub.FirstFailureAt | src/v2/src/guest/syscall/stub.rs:134-147 | the first failing chunk is characterised by all earlier draws succeeding first time |
| Stub.GetrandomCountsWritten | src/v2/src/guest/syscall/stub.rs:129-150 | a successful count never exceeds the buffer; the bytes below it come from the draws and those above it are as before; the only errors are `EINVAL` and `EAGAIN`; `EINVAL` comes exactly from unknown flags and leaves the buffer untouched |
| Stub.GetrandomBlockingFillsAll | src/v2/src/guest/syscall/stub.rs:129-150 | without flags every byte of the buffer is filled from the draws, and the whole length is returned |
| Stub.Ascii | src/v2/src/guest/syscall/stub.rs:173 | a string's bytes, one per character |
| Stub.Readlink | src/v2/src/guest/syscall/stub.rs:169-184 | any path other than `/proc/self/exe` gives `ENOENT`; a buffer shorter than six bytes gives `EINVAL`; otherwise `/init` and a NUL are written at the start, the rest is untouched, and 6 is returned |
| Stub.ReadlinkTarget | src/v2/src/guest/syscall/stub.rs:177 | the target is six bytes and reads as the C string `/init` |
| Stub.CString | src/v2/src/guest/syscall/stub.rs:234-239 | the bytes before the first NUL are a NUL-free prefix of the buffer |
| Stub.FillImage | src/v2/src/guest/syscall/stub.rs:234-239 | the filled field has the field's length |
| Stub.FillImageCString | src/v2/src/guest/syscall/stub.rs:234-239 | a NUL-free string shorter than the field reads back from the filled field as a C string |
| Stub.Fill | src/v2/src/guest/syscall/stub.rs:234-239 | each byte of the field is the string's byte at that position, or 0 past its end |
| Stub.Uname | src/v2/src/guest/syscall/stub.rs:230-247 | five fields are filled with `Linux`, `localhost.localdomain`, `5.6.0`, `#1`, `x86_64`, the domain name is untouched, and the call succeeds |
| Stub.UnameReadsBack | src/v2/src/guest/syscall/stub.rs:240-244 | every filled field reads back as its string |
| SevSecret.BigEndianBound | src/boot/vm.rs:63-71 | a big-endian number of `k` bytes is below 256^k |
| SevSecret.CborLen | src/boot/vm.rs:49-79 | a length is found exactly when the major type is 2 (byte string) and the additional info is at most 27 |
| SevSecret.CborLenIsByteStringSize | src/boot/vm.rs:49-79 | the length is the head's size plus the byte string's length as RFC 8949 (section 3.1) defines them |
| SevSecret.BigEndianRoundTrip | src/boot/vm.rs:63-71 | reading back `k` big-endian bytes of `n` gives `n` |
| SevSecret.EncodeHead | src/boot/vm.rs:49-79 | a byte-string head is 1 to 9 bytes |
| SevSecret.CborLenOfEncoded | src/boot/vm.rs:49-79 | for any length below 2^64 the head of that length is decoded to head size plus length |
| SevSecret.CborLenOfShortHead | src/boot/vm.rs:59-60 | a head with the length in the initial byte, or in one more byte, decodes to its size plus that length |
| SevSecret.CborLenOfLongHead | src/boot/vm.rs:61-72 | a head with a 2-, 4- or 8-byte big-endian length decodes to 1 + k plus that length |
| SevSecret.TryLen | src/boot/vm.rs:83-86 | a length is returned exactly when the prefix decodes and the total is at most 16 KiB, and it is the decoded total |
| SevSecret.TryAsSlice | src/boot/vm.rs:90-93 | a slice is returned exactly when the length is, and it is that prefix of the secret |
| SevSecret.TryAsSliceOfEncoded | src/boot/vm.rs:49-93 | a secret made of a head for the payload's length, the payload and padding yields exactly the head and the payload |
| SevSecret.TryLenWrapping | src/boot/vm.rs:83-86 | `try_len` as written: the 16 KiB filter applied to the wrapped length |
| SevSecret.CborLenWrapping | src/boot/vm.rs:69-72 | the length as written stays below 2^64, being reduced modulo 2^64 |
| SevSecret.Pow256Eight | src/boot/vm.rs:63-71 | 256^8 is 2^64, 256^4 is 2^32, 256^2 is 2^16 |
| SevSecret.WrapOnlyForHugeArgument | src/boot/vm.rs:69-72 | the as-written and corrected lengths differ only for an 8-byte argument of at least 2^64 − 9 |
| SevSecret.BigEndianAllOnes | src/boot/vm.rs:69-72 | `k` bytes of 0xff read as 256^k − 1 |
| SevSecret.WrappingAcceptsHugeString | src/boot/vm.rs:69-72 | a head that claims 2^64 − 1 bytes is accepted as written with length 8, and rejected by the corrected length |

## Left out

- Kernel effects: the kernel's writes into the data section (read buffers, `accept` addresses, `timespec` values) are not modelled. The kernel is a function of the validated call that yields `ret[0]`.
- The `syscall` instruction and its register binding are replaced by that function. `Syscall::execute` is not modelled separately.
- Pointer arithmetic: a pointer's alignment is the alignment of `base + offset`, with `base` the data section's host address given as a parameter.
- HostSyscall.LoadSocklen: the byte order of the stored `socklen_t` is taken as little-endian, because x86_64 is little-endian.
- Stub.Getrandom: a draw that never succeeds without flags loops forever in the source. The oracle's draws succeed after finitely many failures, so this divergence is outside the model.
- GuestAlloc.Allocator.Allocate: only alignments 1, 2, 4 and 8 are modelled, which are all the layouts in the core use. It does not distinguish input, output and in-out allocations, which differ only in the allocator's bookkeeping.
- The allocator itself, `Output`, `InRef` / `OutRef` and the `Allocator` / `Committer` / `Collector` traits (guest/alloc/mod.rs) are not part of this model. The model uses a bump allocator over a capacity.
- src/v2/src/item/syscall.rs is not part of this model. The syscall payload is taken as number, six registers and two return words (72 bytes).
- src/lib.rs is not part of this model. `NULL` is taken as `usize::MAX`.
- src/v2/src/guest/syscall/result.rs is not part of this model. The decoding of return words follows the Linux convention.
- src/v2/src/guest/syscall/argv.rs is not part of this model. `Argv<N>` becomes six registers, padded with zeros.
- Struct sizes are those of the external `libc` crate on x86_64, which the host imports: `epoll_event` 12/1 (declared packed there, unlike its `repr(C)` twin in src/libc.rs), `timespec` 16/8, `sigset_t` 128/8, `sockaddr_storage` 128/8, `socklen_t` 4/4.
- Frame.StageSection: `Allocator::section` (guest/alloc/mod.rs) is not part of this model. The section is taken to be a fresh allocator over the block's free space whose offsets start at 0, which is what the host's resolution against the item's data section requires.
- Gdbcall.View: its requirement that word 0 hold a `Number` discriminant stands for the source's undefined behaviour on any other value; the model does not say what happens then.
- Frame.Call.Other: stands for every other guest `Syscall` impl, given by its number, registers, data size and return kind. Those impls (guest/syscall/*.rs beyond the files modelled) are not part of this model.
- The enarxcall items, `SYSCALL_TRIGGER_PORT`, `BootInfo`, `MemInfo` and its `Debug` output (src/boot/vm.rs:20, 99-127) are left out. They are constants and formatting with nothing to prove.
- `MaybeUninit` in the SEV secret: the secret is a fully initialised 16 KiB sequence.
- Concurrency between guest and host on the shared block is not modelled. Each side runs to completion on a snapshot.

## Findings

| source | as written | input that shows it | evidently intended | confidence | as-written member | corrected member |
|---|---|---|---|---|---|---|
| src/boot/vm.rs:71 | `1 + 8 + u64 as usize` is unchecked, so in a build without overflow checks an 8-byte argument of 2^64 − 9 or more wraps to a small length that passes the 16 KiB filter | secret starting `0x5b` followed by eight `0xff` bytes: `try_len` gives `Some(8)` | `None`, because the claimed byte string is far longer than the secret | not executed | SevSecret.WrappingAcceptsHugeString | SevSecret.TryLen |
