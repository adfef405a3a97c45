/** The host side of a syscall item (src/v2/src/host/syscall.rs): every
    (offset, count) pair the guest wrote is relative to the item's data
    section and is checked against that section before it becomes a
    pointer, the syscall number selects one of a closed set of arms, and
    only then does the real syscall run and write its result into `ret[0]`. */
module HostSyscall {
  import opened Common
  import opened Libc

  /** `crate::NULL`: the offset that stands for a null pointer
      (src/lib.rs is not part of this model; its value is `usize::MAX`). */
  const NULL: Word := USIZE_LIMIT - 1

  /** A validated range `[start, start + size)` of the data section. */
  datatype Range = Range(start: nat, size: nat)

  predicate InBlock(r: Range, data: seq<Byte>)
  {
    r.start + r.size <= |data|
  }

  /** `deref::<T>(data, offset, len)`, with `elemSize = size_of::<T>()`.
      The product `len * size_of::<T>()` is unchecked, so it wraps modulo
      2^64; the subtraction `data.len() - size` is only reached once
      `size <= data.len()` is known. */
  function Deref(data: seq<Byte>, offset: Word, len: Word, elemSize: nat): (r: Result<Range>)
    requires |data| < USIZE_LIMIT
    ensures r.Ok? <==> (len * elemSize) % USIZE_LIMIT + offset <= |data|
    ensures r.Ok? ==> r.value == Range(offset, (len * elemSize) % USIZE_LIMIT) && InBlock(r.value, data)
    ensures r.Err? ==> r.errno == EFAULT
  {
    var size := (len * elemSize) % USIZE_LIMIT;
    if size > |data| || |data| - size < offset then Err(EFAULT)
    else Ok(Range(offset, size))
  }

  /** When the byte count does not overflow, `deref` accepts exactly the
      ranges that lie inside the data section, and the range it returns
      covers `len` whole elements. */
  lemma DerefExact(data: seq<Byte>, offset: Word, len: Word, elemSize: nat)
    requires |data| < USIZE_LIMIT
    requires len * elemSize < USIZE_LIMIT
    ensures Deref(data, offset, len, elemSize).Ok? <==> offset + len * elemSize <= |data|
    ensures Deref(data, offset, len, elemSize).Ok? ==>
              Deref(data, offset, len, elemSize).value == Range(offset, len * elemSize)
  {
    assert (len * elemSize) % USIZE_LIMIT == len * elemSize;
  }

  /** The product is not checked: 2^60 `timespec`s (16 bytes each) wrap
      to a size of 0, which `deref` accepts even on an empty data section.
      The accepted range itself is still inside the section. */
  lemma DerefWrapAccepts()
    ensures Deref([], 0, 0x1000_0000_0000_0000, SizeOf(CTimespec)) == Ok(Range(0, 0))
    ensures 0x1000_0000_0000_0000 * SizeOf(CTimespec) > 0
  {
  }

  /** The pointer `data[offset..]` is aligned to `align`, given the host
      address `base` of the data section. */
  predicate Aligned(base: nat, r: Range, align: nat)
    requires align > 0
  {
    (base + r.start) % align == 0
  }

  /** `if ptr.align_offset(align) != 0 { return Err(EFAULT) }`. */
  function CheckAlign(base: nat, r: Range, align: nat): (res: Result<Range>)
    requires align > 0
    ensures res.Ok? <==> Aligned(base, r, align)
    ensures res.Ok? ==> res.value == r
    ensures res.Err? ==> res.errno == EFAULT
  {
    if (base + r.start) % align != 0 then Err(EFAULT) else Ok(r)
  }

  /** The `socklen_t` stored (little-endian) at `at` in the data section. */
  function LoadSocklen(data: seq<Byte>, at: nat): (n: nat)
    requires at + 4 <= |data|
    ensures n < 0x1_0000_0000
  {
    data[at] as nat + 0x100 * data[at + 1] as nat +
    0x1_0000 * data[at + 2] as nat + 0x100_0000 * data[at + 3] as nat
  }

  /** `deref_sockaddr_output`: first a 4-byte `socklen_t`, in bounds and
      aligned, at `addrlenOffset`; then as many address bytes as that
      stored length says, in bounds and aligned for `sockaddr_storage`, at
      `addrOffset`. Returns the (address, length) ranges. */
  function DerefSockaddrOutput(data: seq<Byte>, base: nat, addrOffset: Word, addrlenOffset: Word)
    : (r: Result<(Range, Range)>)
    requires |data| < USIZE_LIMIT
    ensures r.Ok? <==>
      && addrlenOffset + SizeOf(CSocklen) <= |data|
      && (base + addrlenOffset) % AlignOf(CSocklen) == 0
      && addrOffset + LoadSocklen(data, addrlenOffset) <= |data|
      && (base + addrOffset) % AlignOf(CSockaddrStorage) == 0
    ensures r.Ok? ==>
      && r.value.1 == Range(addrlenOffset, SizeOf(CSocklen))
      && r.value.0 == Range(addrOffset, LoadSocklen(data, addrlenOffset))
      && InBlock(r.value.0, data) && InBlock(r.value.1, data)
    ensures r.Err? ==> r.errno == EFAULT
  {
    var addrlen :- Deref(data, addrlenOffset, 1, SizeOf(CSocklen));
    var addrlen :- CheckAlign(base, addrlen, AlignOf(CSocklen));
    var addr :- Deref(data, addrOffset, LoadSocklen(data, addrlen.start), 1);
    var addr :- CheckAlign(base, addr, AlignOf(CSockaddrStorage));
    Ok((addr, addrlen))
  }

  /** An argument register of the host syscall: a value passed through
      unchanged, a pointer into the data section, or a null pointer. */
  datatype Arg = Scalar(w: Word) | Ptr(r: Range) | NullPtr

  /** The real syscall `execute` is about to issue. */
  datatype HostCall = HostCall(num: Word, args: seq<Arg>)

  /** The address/length pair of `accept`, `accept4` and `recvfrom`: null
      for both when the guest passed `NULL` as the address offset. */
  function SockaddrOrNull(data: seq<Byte>, base: nat, addrOffset: Word, addrlenOffset: Word)
    : (r: Result<(Arg, Arg)>)
    requires |data| < USIZE_LIMIT
    ensures addrOffset == NULL ==> r == Ok((NullPtr, NullPtr))
  {
    if addrOffset == NULL then Ok((NullPtr, NullPtr))
    else
      var p :- DerefSockaddrOutput(data, base, addrOffset, addrlenOffset);
      Ok((Ptr(p.0), Ptr(p.1)))
  }

  /** The validation half of `execute_syscall`: the arm selected by `num`,
      with every offset resolved through `Deref`, up to (not including)
      the real syscall. */
  function Validate(num: Word, argv: seq<Word>, data: seq<Byte>, base: nat): (r: Result<HostCall>)
    requires |argv| == 6 && |data| < USIZE_LIMIT
    ensures r.Ok? ==> r.value.num == num
  {
    if num == SYS_accept then
      var a :- SockaddrOrNull(data, base, argv[1], argv[2]);
      Ok(HostCall(SYS_accept, [Scalar(argv[0]), a.0, a.1]))
    else if num == SYS_accept4 then
      var a :- SockaddrOrNull(data, base, argv[1], argv[2]);
      Ok(HostCall(SYS_accept4, [Scalar(argv[0]), a.0, a.1, Scalar(argv[3])]))
    else if num == SYS_bind then
      var addr :- Deref(data, argv[1], argv[2], SizeOf(CU8));
      Ok(HostCall(SYS_bind, [Scalar(argv[0]), Ptr(addr), Scalar(argv[2])]))
    else if num == SYS_clock_gettime then
      var tp :- Deref(data, argv[1], 1, SizeOf(CTimespec));
      var tp :- CheckAlign(base, tp, AlignOf(CTimespec));
      Ok(HostCall(SYS_clock_gettime, [Scalar(argv[0]), Ptr(tp)]))
    else if num == SYS_close then
      Ok(HostCall(SYS_close, [Scalar(argv[0])]))
    else if num == SYS_connect then
      var addr :- Deref(data, argv[1], argv[2], SizeOf(CU8));
      Ok(HostCall(SYS_connect, [Scalar(argv[0]), Ptr(addr), Scalar(argv[2])]))
    else if num == SYS_dup then
      Ok(HostCall(SYS_dup, [Scalar(argv[0])]))
    else if num == SYS_dup2 then
      Ok(HostCall(SYS_dup2, [Scalar(argv[0]), Scalar(argv[1])]))
    else if num == SYS_dup3 then
      Ok(HostCall(SYS_dup3, [Scalar(argv[0]), Scalar(argv[1]), Scalar(argv[2])]))
    else if num == SYS_epoll_create1 then
      Ok(HostCall(SYS_epoll_create1, [Scalar(argv[0])]))
    else if num == SYS_epoll_ctl then
      var event :- Deref(data, argv[3], 1, SizeOf(CEpollEvent));
      var event :- CheckAlign(base, event, AlignOf(CEpollEvent));
      Ok(HostCall(SYS_epoll_ctl, [Scalar(argv[0]), Scalar(argv[1]), Scalar(argv[2]), Ptr(event)]))
    else if num == SYS_epoll_pwait then
      var events :- Deref(data, argv[1], argv[2], SizeOf(CEpollEvent));
      var events :- CheckAlign(base, events, AlignOf(CEpollEvent));
      var sigmask :- Deref(data, argv[4], 1, SizeOf(CSigset));
      var sigmask :- CheckAlign(base, sigmask, AlignOf(CSigset));
      Ok(HostCall(SYS_epoll_pwait,
                  [Scalar(argv[0]), Ptr(events), Scalar(argv[2]), Scalar(argv[3]), Ptr(sigmask)]))
    else if num == SYS_epoll_wait then
      var events :- Deref(data, argv[1], argv[2], SizeOf(CEpollEvent));
      var events :- CheckAlign(base, events, AlignOf(CEpollEvent));
      Ok(HostCall(SYS_epoll_wait, [Scalar(argv[0]), Ptr(events), Scalar(argv[2]), Scalar(argv[3])]))
    else if num == SYS_eventfd2 then
      Ok(HostCall(SYS_eventfd2, [Scalar(argv[0]), Scalar(argv[1])]))
    else if num == SYS_exit then
      Ok(HostCall(SYS_exit, [Scalar(argv[0])]))
    else if num == SYS_exit_group then
      Ok(HostCall(SYS_exit_group, [Scalar(argv[0])]))
    else if num == SYS_fcntl then
      Ok(HostCall(SYS_fcntl, [Scalar(argv[0]), Scalar(argv[1]), Scalar(argv[2])]))
    else if num == SYS_getsockname then
      var p :- DerefSockaddrOutput(data, base, argv[1], argv[2]);
      Ok(HostCall(SYS_getsockname, [Scalar(argv[0]), Ptr(p.0), Ptr(p.1)]))
    else if num == SYS_listen then
      Ok(HostCall(SYS_listen, [Scalar(argv[0]), Scalar(argv[1])]))
    else if num == SYS_read then
      var buf :- Deref(data, argv[1], argv[2], SizeOf(CU8));
      Ok(HostCall(SYS_read, [Scalar(argv[0]), Ptr(buf), Scalar(argv[2])]))
    else if num == SYS_recvfrom then
      var buf :- Deref(data, argv[1], argv[2], SizeOf(CU8));
      var a :- SockaddrOrNull(data, base, argv[4], argv[5]);
      Ok(HostCall(SYS_recvfrom,
                  [Scalar(argv[0]), Ptr(buf), Scalar(argv[2]), Scalar(argv[3]), a.0, a.1]))
    else if num == SYS_setsockopt then
      if argv[3] == NULL then
        Ok(HostCall(SYS_setsockopt,
                    [Scalar(argv[0]), Scalar(argv[1]), Scalar(argv[2]), NullPtr, Scalar(0)]))
      else
        var optval :- Deref(data, argv[3], argv[4], SizeOf(CU8));
        var optval :- CheckAlign(base, optval, AlignOf(CUsize));
        Ok(HostCall(SYS_setsockopt,
                    [Scalar(argv[0]), Scalar(argv[1]), Scalar(argv[2]), Ptr(optval), Scalar(argv[4])]))
    else if num == SYS_socket then
      Ok(HostCall(SYS_socket, [Scalar(argv[0]), Scalar(argv[1]), Scalar(argv[2])]))
    else if num == SYS_sync then
      Ok(HostCall(SYS_sync, []))
    else if num == SYS_write then
      var buf :- Deref(data, argv[1], argv[2], SizeOf(CU8));
      Ok(HostCall(SYS_write, [Scalar(argv[0]), Ptr(buf), Scalar(argv[2])]))
    else
      Err(ENOSYS)
  }

  /** `accept` and `accept4` with a `NULL` address skip every check and pass
      null for both the address and its length. */
  lemma AcceptNullAddress(argv: seq<Word>, data: seq<Byte>, base: nat)
    requires |argv| == 6 && |data| < USIZE_LIMIT && argv[1] == NULL
    ensures Validate(SYS_accept, argv, data, base) ==
              Ok(HostCall(SYS_accept, [Scalar(argv[0]), NullPtr, NullPtr]))
    ensures Validate(SYS_accept4, argv, data, base) ==
              Ok(HostCall(SYS_accept4, [Scalar(argv[0]), NullPtr, NullPtr, Scalar(argv[3])]))
  {
  }

  /** `recvfrom` with a `NULL` source address checks only its buffer. */
  lemma RecvfromNullAddress(argv: seq<Word>, data: seq<Byte>, base: nat)
    requires |argv| == 6 && |data| < USIZE_LIMIT && argv[4] == NULL
    ensures var r := Validate(SYS_recvfrom, argv, data, base);
      (r.Ok? <==> Deref(data, argv[1], argv[2], 1).Ok?) &&
      (r.Ok? ==> r.value.args[4..] == [NullPtr, NullPtr])
  {
  }

  /** `setsockopt` with a `NULL` option value passes a zero length, whatever
      length the guest supplied; a non-null one must be in the block and
      word aligned. */
  lemma SetsockoptOptval(argv: seq<Word>, data: seq<Byte>, base: nat)
    requires |argv| == 6 && |data| < USIZE_LIMIT
    ensures argv[3] == NULL ==>
      Validate(SYS_setsockopt, argv, data, base) ==
        Ok(HostCall(SYS_setsockopt, [Scalar(argv[0]), Scalar(argv[1]), Scalar(argv[2]), NullPtr, Scalar(0)]))
    ensures argv[3] != NULL ==>
      (Validate(SYS_setsockopt, argv, data, base).Ok? <==>
         argv[4] + argv[3] <= |data| && Aligned(base, Range(argv[3], argv[4]), AlignOf(CUsize)))
  {
  }

  /** `epoll_ctl` needs one packed 12-byte `epoll_event` in the section;
      its alignment check never fails, whatever the section's address. */
  lemma EpollCtlPackedEvent(argv: seq<Word>, data: seq<Byte>, base: nat)
    requires |argv| == 6 && |data| < USIZE_LIMIT
    ensures var r := Validate(SYS_epoll_ctl, argv, data, base);
      (r.Ok? <==> argv[3] + 12 <= |data|) &&
      (r.Ok? ==> r.value.args[3] == Ptr(Range(argv[3], 12))) &&
      (r.Err? ==> r.errno == EFAULT)
  {
  }

  /** `item::Syscall`: the syscall payload of an item, updated in place. */
  class SyscallItem {
    var num: Word
    var argv: seq<Word>
    var ret: seq<Word>

    ghost predicate Valid()
      reads this
    {
      |argv| == 6 && |ret| == 2
    }

    constructor (num: Word, argv: seq<Word>, ret: seq<Word>)
      requires |argv| == 6 && |ret| == 2
      ensures Valid() && this.num == num && this.argv == argv && this.ret == ret
    {
      this.num, this.argv, this.ret := num, argv, ret;
    }
  }

  /** `execute_syscall`: validate, and only if validation succeeds let the
      kernel run the call; the kernel's result lands in `ret[0]` and
      nothing else in the item changes. Any failure is returned before the
      kernel runs, with `ret` untouched. */
  method ExecuteSyscall(item: SyscallItem, data: seq<Byte>, base: nat, kernel: HostCall -> Word)
    returns (r: Result<()>)
    requires item.Valid() && |data| < USIZE_LIMIT
    modifies item
    ensures item.Valid()
    ensures item.num == old(item.num) && item.argv == old(item.argv)
    ensures match Validate(old(item.num), old(item.argv), data, base)
            case Err(e) => r == Err(e) && item.ret == old(item.ret)
            case Ok(call) => r == Ok(()) && item.ret == old(item.ret)[0 := kernel(call)]
  {
    var checked := Validate(item.num, item.argv, data, base);
    match checked {
      case Err(e) =>
        return Err(e);
      case Ok(call) =>
        var result := kernel(call);
        item.ret := item.ret[0 := result];
    }
    r := Ok(());
  }
}
