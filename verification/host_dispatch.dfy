/** A declarative reading of `execute_syscall` (src/v2/src/host/syscall.rs):
    for each known syscall number, which argument slots are passed through
    and which are offsets that must cover how many elements of which type.
    The hand-written dispatch in `HostSyscall.Validate` is proved to agree
    with this table, and the boundary guarantees are proved once, for the
    table's generic interpretation. */
module HostDispatch {
  import opened Common
  import opened Libc
  import opened HostSyscall

  /** How many elements an offset slot must cover. */
  datatype Count = One | FromSlot(j: nat)

  /** What the host does with one or two guest argument slots. */
  datatype ArgSpec =
    | Inline(i: nat)                                          // argv[i] unchanged
    | Buffer(i: nat, count: Count, elemSize: nat, align: nat) // offset argv[i] must hold `count` elements
    | SockaddrOut(addr: nat, addrlen: nat, nullable: bool)    // address and socklen_t offsets
    | OptVal(optval: nat, optlen: nat)                        // setsockopt's optional option value

  predicate SpecOk(s: ArgSpec)
  {
    match s
    case Inline(i) => i < 6
    case Buffer(i, count, _, align) => i < 6 && (count.FromSlot? ==> count.j < 6) && align > 0
    case SockaddrOut(a, l, _) => a < 6 && l < 6
    case OptVal(v, l) => v < 6 && l < 6
  }

  predicate ShapeOk(specs: seq<ArgSpec>)
  {
    forall k :: 0 <= k < |specs| ==> SpecOk(specs[k])
  }

  /** Host argument registers a spec produces. */
  function Width(s: ArgSpec): nat
  {
    match s
    case Inline(_) => 1
    case Buffer(_, _, _, _) => 1
    case SockaddrOut(_, _, _) => 2
    case OptVal(_, _) => 2
  }

  function TotalWidth(specs: seq<ArgSpec>): nat
  {
    if specs == [] then 0 else Width(specs[0]) + TotalWidth(specs[1..])
  }

  const BYTES: Count := FromSlot(2)

  /** The closed operation table: the argument shape of every syscall the
      host executes, in the order the host passes the arguments on. */
  function Shape(num: Word): (r: Option<seq<ArgSpec>>)
    ensures r.Some? ==> ShapeOk(r.value)
  {
    if num == SYS_accept then Some([Inline(0), SockaddrOut(1, 2, true)])
    else if num == SYS_accept4 then Some([Inline(0), SockaddrOut(1, 2, true), Inline(3)])
    else if num == SYS_bind then Some([Inline(0), Buffer(1, BYTES, 1, 1), Inline(2)])
    else if num == SYS_clock_gettime then
      Some([Inline(0), Buffer(1, One, SizeOf(CTimespec), AlignOf(CTimespec))])
    else if num == SYS_close then Some([Inline(0)])
    else if num == SYS_connect then Some([Inline(0), Buffer(1, BYTES, 1, 1), Inline(2)])
    else if num == SYS_dup then Some([Inline(0)])
    else if num == SYS_dup2 then Some([Inline(0), Inline(1)])
    else if num == SYS_dup3 then Some([Inline(0), Inline(1), Inline(2)])
    else if num == SYS_epoll_create1 then Some([Inline(0)])
    else if num == SYS_epoll_ctl then
      Some([Inline(0), Inline(1), Inline(2), Buffer(3, One, SizeOf(CEpollEvent), AlignOf(CEpollEvent))])
    else if num == SYS_epoll_pwait then
      Some([Inline(0), Buffer(1, FromSlot(2), SizeOf(CEpollEvent), AlignOf(CEpollEvent)),
            Inline(2), Inline(3), Buffer(4, One, SizeOf(CSigset), AlignOf(CSigset))])
    else if num == SYS_epoll_wait then
      Some([Inline(0), Buffer(1, FromSlot(2), SizeOf(CEpollEvent), AlignOf(CEpollEvent)),
            Inline(2), Inline(3)])
    else if num == SYS_eventfd2 then Some([Inline(0), Inline(1)])
    else if num == SYS_exit then Some([Inline(0)])
    else if num == SYS_exit_group then Some([Inline(0)])
    else if num == SYS_fcntl then Some([Inline(0), Inline(1), Inline(2)])
    else if num == SYS_getsockname then Some([Inline(0), SockaddrOut(1, 2, false)])
    else if num == SYS_listen then Some([Inline(0), Inline(1)])
    else if num == SYS_read then Some([Inline(0), Buffer(1, BYTES, 1, 1), Inline(2)])
    else if num == SYS_recvfrom then
      Some([Inline(0), Buffer(1, BYTES, 1, 1), Inline(2), Inline(3), SockaddrOut(4, 5, true)])
    else if num == SYS_setsockopt then Some([Inline(0), Inline(1), Inline(2), OptVal(3, 4)])
    else if num == SYS_socket then Some([Inline(0), Inline(1), Inline(2)])
    else if num == SYS_sync then Some([])
    else if num == SYS_write then Some([Inline(0), Buffer(1, BYTES, 1, 1), Inline(2)])
    else None
  }

  /** The syscall numbers the host executes. */
  const KNOWN: set<int> := {
    SYS_accept, SYS_accept4, SYS_bind, SYS_clock_gettime, SYS_close, SYS_connect, SYS_dup,
    SYS_dup2, SYS_dup3, SYS_epoll_create1, SYS_epoll_ctl, SYS_epoll_pwait, SYS_epoll_wait,
    SYS_eventfd2, SYS_exit, SYS_exit_group, SYS_fcntl, SYS_getsockname, SYS_listen, SYS_read,
    SYS_recvfrom, SYS_setsockopt, SYS_socket, SYS_sync, SYS_write }

  /** The table has an entry for exactly the known numbers. */
  lemma ShapeDomain(num: Word)
    ensures Shape(num).Some? <==> num in KNOWN
  {
  }

  /** Interpret one spec against the guest's argument words. */
  function ResolveOne(s: ArgSpec, argv: seq<Word>, data: seq<Byte>, base: nat): (r: Result<seq<Arg>>)
    requires SpecOk(s) && |argv| == 6 && |data| < USIZE_LIMIT
    ensures r.Ok? ==> |r.value| == Width(s)
  {
    match s
    case Inline(i) => Ok([Scalar(argv[i])])
    case Buffer(i, count, elemSize, align) =>
      var len := if count.One? then 1 else argv[count.j];
      var rg :- Deref(data, argv[i], len, elemSize);
      var rg :- CheckAlign(base, rg, align);
      Ok([Ptr(rg)])
    case SockaddrOut(a, l, nullable) =>
      if nullable && argv[a] == NULL then Ok([NullPtr, NullPtr])
      else
        var p :- DerefSockaddrOutput(data, base, argv[a], argv[l]);
        Ok([Ptr(p.0), Ptr(p.1)])
    case OptVal(v, l) =>
      if argv[v] == NULL then Ok([NullPtr, Scalar(0)])
      else
        var rg :- Deref(data, argv[v], argv[l], 1);
        var rg :- CheckAlign(base, rg, AlignOf(CUsize));
        Ok([Ptr(rg), Scalar(argv[l])])
  }

  /** Interpret a whole shape left to right; the first failing slot fails it. */
  function Resolve(specs: seq<ArgSpec>, argv: seq<Word>, data: seq<Byte>, base: nat): Result<seq<Arg>>
    requires ShapeOk(specs) && |argv| == 6 && |data| < USIZE_LIMIT
    decreases |specs|
  {
    if specs == [] then Ok([])
    else
      var first :- ResolveOne(specs[0], argv, data, base);
      var rest :- Resolve(specs[1..], argv, data, base);
      Ok(first + rest)
  }

  /** The table-driven dispatch: unknown numbers are `ENOSYS`. */
  function Dispatch(num: Word, argv: seq<Word>, data: seq<Byte>, base: nat): Result<HostCall>
    requires |argv| == 6 && |data| < USIZE_LIMIT
  {
    match Shape(num)
    case None => Err(ENOSYS)
    case Some(specs) =>
      var args :- Resolve(specs, argv, data, base);
      Ok(HostCall(num, args))
  }
}

module HostDispatchProofs {
  import opened Common
  import opened Libc
  import opened HostSyscall
  import opened HostDispatch

  /** `Resolve` on `specs` is its first slot followed by `Resolve` on the rest. */
  ghost predicate ResolveStepped(specs: seq<ArgSpec>, argv: seq<Word>, data: seq<Byte>, base: nat)
    requires |specs| > 0 && ShapeOk(specs) && |argv| == 6 && |data| < USIZE_LIMIT
  {
    var r := Resolve(specs, argv, data, base);
    var first := ResolveOne(specs[0], argv, data, base);
    var tail := Resolve(specs[1..], argv, data, base);
    (first.Err? ==> r == Err(first.errno)) &&
    (first.Ok? && tail.Err? ==> r == Err(tail.errno)) &&
    (first.Ok? && tail.Ok? ==> r == Ok(first.value + tail.value))
  }

  /** One step of `Resolve`. */
  lemma ResolveStep(specs: seq<ArgSpec>, argv: seq<Word>, data: seq<Byte>, base: nat)
    requires |specs| > 0 && ShapeOk(specs) && |argv| == 6 && |data| < USIZE_LIMIT
    ensures ResolveStepped(specs, argv, data, base)
    ensures |specs| == 1 ==> Resolve(specs, argv, data, base) == ResolveOne(specs[0], argv, data, base)
  {
    var r := ResolveOne(specs[0], argv, data, base);
    if |specs| == 1 && r.Ok? {
      assert r.value + [] == r.value;
    }
  }

  /**
   * `Validate` and `Dispatch` agree on `num`: same verdict, same error code,
   * and on success the same call.
   */
  ghost predicate AgreeAt(num: Word, argv: seq<Word>, data: seq<Byte>, base: nat)
    requires |argv| == 6 && |data| < USIZE_LIMIT
  {
    var v := Validate(num, argv, data, base);
    var d := Dispatch(num, argv, data, base);
    (v.Ok? <==> d.Ok?) &&
    (v.Err? ==> v.errno == d.errno) &&
    (v.Ok? ==> v.value.num == d.value.num && v.value.args == d.value.args)
  }

  /** Every slot a shape can hold fails only with `EFAULT`. */
  lemma ResolveOneErrors(s: ArgSpec, argv: seq<Word>, data: seq<Byte>, base: nat)
    requires SpecOk(s) && |argv| == 6 && |data| < USIZE_LIMIT
    ensures ResolveOne(s, argv, data, base).Err? ==> ResolveOne(s, argv, data, base).errno == EFAULT
  {
  }

  /** `Resolve` fails only with `EFAULT`. */
  lemma {:induction false} ResolveErrors(specs: seq<ArgSpec>, argv: seq<Word>, data: seq<Byte>, base: nat)
    requires ShapeOk(specs) && |argv| == 6 && |data| < USIZE_LIMIT
    ensures Resolve(specs, argv, data, base).Err? ==> Resolve(specs, argv, data, base).errno == EFAULT
    decreases |specs|
  {
    if specs != [] {
      ResolveOneErrors(specs[0], argv, data, base);
      ResolveErrors(specs[1..], argv, data, base);
    }
  }

  /** Every pointer a slot produces lies inside the block. */
  lemma ResolveOnePointers(s: ArgSpec, argv: seq<Word>, data: seq<Byte>, base: nat)
    requires SpecOk(s) && |argv| == 6 && |data| < USIZE_LIMIT
    ensures var r := ResolveOne(s, argv, data, base);
      r.Ok? ==> forall k :: 0 <= k < |r.value| && r.value[k].Ptr? ==> InBlock(r.value[k].r, data)
  {
  }

  /** Every pointer a shape produces lies inside the block, and on success
      the host receives exactly as many arguments as the shape is wide. */
  lemma {:induction false} ResolvePointers(specs: seq<ArgSpec>, argv: seq<Word>, data: seq<Byte>, base: nat)
    requires ShapeOk(specs) && |argv| == 6 && |data| < USIZE_LIMIT
    ensures var r := Resolve(specs, argv, data, base);
      r.Ok? ==> |r.value| == TotalWidth(specs) &&
                forall k :: 0 <= k < |r.value| && r.value[k].Ptr? ==> InBlock(r.value[k].r, data)
    decreases |specs|
  {
    if specs != [] {
      ResolveOnePointers(specs[0], argv, data, base);
      ResolvePointers(specs[1..], argv, data, base);
      var r := Resolve(specs, argv, data, base);
      if r.Ok? {
        var first := ResolveOne(specs[0], argv, data, base).value;
        var rest := Resolve(specs[1..], argv, data, base).value;
        assert r.value == first + rest;
        forall k | 0 <= k < |r.value| && r.value[k].Ptr?
          ensures InBlock(r.value[k].r, data)
        {
          if k < |first| {
            assert r.value[k] == first[k];
          } else {
            assert r.value[k] == rest[k - |first|];
          }
        }
      }
    }
  }

  /** The facts `Dispatch` needs on a known number: every tail of its shape unfolded. */
  lemma DispatchUnfold(num: Word, argv: seq<Word>, data: seq<Byte>, base: nat)
    requires |argv| == 6 && |data| < USIZE_LIMIT && Shape(num).Some?
    ensures var s := Shape(num).value;
      |s| <= 5 &&
      (forall k | 0 <= k < |s| :: ResolveOne(s[k], argv, data, base).Err? ==>
         ResolveOne(s[k], argv, data, base).errno == EFAULT) &&
      (|s| == 0 ==> Resolve(s, argv, data, base) == Ok([])) &&
      (|s| > 0 ==> ResolveStepped(s, argv, data, base)) &&
      (|s| > 1 ==> ResolveStepped(s[1..], argv, data, base)) &&
      (|s| > 2 ==> ResolveStepped(s[2..], argv, data, base)) &&
      (|s| > 3 ==> ResolveStepped(s[3..], argv, data, base)) &&
      (|s| > 4 ==> ResolveStepped(s[4..], argv, data, base))
  {
    var s := Shape(num).value;
    forall k | 0 <= k < |s| {
      ResolveOneErrors(s[k], argv, data, base);
    }
    if |s| > 0 { ResolveStep(s, argv, data, base); }
    if |s| > 1 { ResolveStep(s[1..], argv, data, base); assert s[1..][1..] == s[2..]; }
    if |s| > 2 { ResolveStep(s[2..], argv, data, base); assert s[2..][1..] == s[3..]; }
    if |s| > 3 { ResolveStep(s[3..], argv, data, base); assert s[3..][1..] == s[4..]; }
    if |s| > 4 { ResolveStep(s[4..], argv, data, base); assert s[4..][1..] == s[5..]; }
  }

  /**
   * The hand-written validation agrees with the table on every number:
   * same verdict, same error code, and on success the same call.
   */
  lemma ValidateAgreesWithDispatch(num: Word, argv: seq<Word>, data: seq<Byte>, base: nat)
    requires |argv| == 6 && |data| < USIZE_LIMIT
    ensures AgreeAt(num, argv, data, base)
  {
    if num == SYS_accept { AgreeAccept(argv, data, base); }
    else if num == SYS_accept4 { AgreeAccept4(argv, data, base); }
    else if num == SYS_bind { AgreeBind(argv, data, base); }
    else if num == SYS_clock_gettime { AgreeClockGettime(argv, data, base); }
    else if num == SYS_close { AgreeClose(argv, data, base); }
    else if num == SYS_connect { AgreeConnect(argv, data, base); }
    else if num == SYS_dup { AgreeDup(argv, data, base); }
    else if num == SYS_dup2 { AgreeDup2(argv, data, base); }
    else if num == SYS_dup3 { AgreeDup3(argv, data, base); }
    else if num == SYS_epoll_create1 { AgreeEpollCreate1(argv, data, base); }
    else if num == SYS_epoll_ctl { AgreeEpollCtl(argv, data, base); }
    else if num == SYS_epoll_pwait { AgreeEpollPwait(argv, data, base); }
    else if num == SYS_epoll_wait { AgreeEpollWait(argv, data, base); }
    else if num == SYS_eventfd2 { AgreeEventfd2(argv, data, base); }
    else if num == SYS_exit { AgreeExit(argv, data, base); }
    else if num == SYS_exit_group { AgreeExitGroup(argv, data, base); }
    else if num == SYS_fcntl { AgreeFcntl(argv, data, base); }
    else if num == SYS_getsockname { AgreeGetsockname(argv, data, base); }
    else if num == SYS_listen { AgreeListen(argv, data, base); }
    else if num == SYS_read { AgreeRead(argv, data, base); }
    else if num == SYS_recvfrom { AgreeRecvfrom(argv, data, base); }
    else if num == SYS_setsockopt { AgreeSetsockopt(argv, data, base); }
    else if num == SYS_socket { AgreeSocket(argv, data, base); }
    else if num == SYS_sync { AgreeSync(argv, data, base); }
    else if num == SYS_write { AgreeWrite(argv, data, base); }
  }

  /** The closed table: a number is refused with `ENOSYS` exactly when the
      host does not know it; every other refusal is `EFAULT`. */
  lemma ValidateErrors(num: Word, argv: seq<Word>, data: seq<Byte>, base: nat)
    requires |argv| == 6 && |data| < USIZE_LIMIT
    ensures Validate(num, argv, data, base).Err? ==>
      Validate(num, argv, data, base).errno == (if num in KNOWN then EFAULT else ENOSYS)
    ensures num !in KNOWN ==> Validate(num, argv, data, base) == Err(ENOSYS)
  {
    ValidateAgreesWithDispatch(num, argv, data, base);
    ShapeDomain(num);
    if Shape(num).Some? {
      ResolveErrors(Shape(num).value, argv, data, base);
    }
  }

  /** Whatever the guest wrote, a validated call only points into the block. */
  lemma ValidatedPointersInBlock(num: Word, argv: seq<Word>, data: seq<Byte>, base: nat)
    requires |argv| == 6 && |data| < USIZE_LIMIT
    ensures var r := Validate(num, argv, data, base);
      r.Ok? ==> r.value.num == num && num in KNOWN &&
                |r.value.args| == TotalWidth(Shape(num).value) &&
                forall k :: 0 <= k < |r.value.args| && r.value.args[k].Ptr? ==>
                  InBlock(r.value.args[k].r, data)
  {
    ValidateAgreesWithDispatch(num, argv, data, base);
    ShapeDomain(num);
    if Shape(num).Some? {
      ResolvePointers(Shape(num).value, argv, data, base);
    }
  }

  lemma AgreeAccept(argv: seq<Word>, data: seq<Byte>, base: nat)
    requires |argv| == 6 && |data| < USIZE_LIMIT
    ensures AgreeAt(SYS_accept, argv, data, base)
  {
    DispatchUnfold(SYS_accept, argv, data, base);
  }

  lemma AgreeAccept4(argv: seq<Word>, data: seq<Byte>, base: nat)
    requires |argv| == 6 && |data| < USIZE_LIMIT
    ensures AgreeAt(SYS_accept4, argv, data, base)
  {
    DispatchUnfold(SYS_accept4, argv, data, base);
  }

  lemma AgreeBind(argv: seq<Word>, data: seq<Byte>, base: nat)
    requires |argv| == 6 && |data| < USIZE_LIMIT
    ensures AgreeAt(SYS_bind, argv, data, base)
  {
    DispatchUnfold(SYS_bind, argv, data, base);
  }

  lemma AgreeClockGettime(argv: seq<Word>, data: seq<Byte>, base: nat)
    requires |argv| == 6 && |data| < USIZE_LIMIT
    ensures AgreeAt(SYS_clock_gettime, argv, data, base)
  {
    DispatchUnfold(SYS_clock_gettime, argv, data, base);
  }

  lemma AgreeClose(argv: seq<Word>, data: seq<Byte>, base: nat)
    requires |argv| == 6 && |data| < USIZE_LIMIT
    ensures AgreeAt(SYS_close, argv, data, base)
  {
    DispatchUnfold(SYS_close, argv, data, base);
  }

  lemma AgreeConnect(argv: seq<Word>, data: seq<Byte>, base: nat)
    requires |argv| == 6 && |data| < USIZE_LIMIT
    ensures AgreeAt(SYS_connect, argv, data, base)
  {
    DispatchUnfold(SYS_connect, argv, data, base);
  }

  lemma AgreeDup(argv: seq<Word>, data: seq<Byte>, base: nat)
    requires |argv| == 6 && |data| < USIZE_LIMIT
    ensures AgreeAt(SYS_dup, argv, data, base)
  {
    DispatchUnfold(SYS_dup, argv, data, base);
  }

  lemma AgreeDup2(argv: seq<Word>, data: seq<Byte>, base: nat)
    requires |argv| == 6 && |data| < USIZE_LIMIT
    ensures AgreeAt(SYS_dup2, argv, data, base)
  {
    DispatchUnfold(SYS_dup2, argv, data, base);
  }

  lemma AgreeDup3(argv: seq<Word>, data: seq<Byte>, base: nat)
    requires |argv| == 6 && |data| < USIZE_LIMIT
    ensures AgreeAt(SYS_dup3, argv, data, base)
  {
    DispatchUnfold(SYS_dup3, argv, data, base);
  }

  lemma AgreeEpollCreate1(argv: seq<Word>, data: seq<Byte>, base: nat)
    requires |argv| == 6 && |data| < USIZE_LIMIT
    ensures AgreeAt(SYS_epoll_create1, argv, data, base)
  {
    DispatchUnfold(SYS_epoll_create1, argv, data, base);
  }

  lemma AgreeEpollCtl(argv: seq<Word>, data: seq<Byte>, base: nat)
    requires |argv| == 6 && |data| < USIZE_LIMIT
    ensures AgreeAt(SYS_epoll_ctl, argv, data, base)
  {
    DispatchUnfold(SYS_epoll_ctl, argv, data, base);
  }

  lemma AgreeEpollPwait(argv: seq<Word>, data: seq<Byte>, base: nat)
    requires |argv| == 6 && |data| < USIZE_LIMIT
    ensures AgreeAt(SYS_epoll_pwait, argv, data, base)
  {
    DispatchUnfold(SYS_epoll_pwait, argv, data, base);
  }

  lemma AgreeEpollWait(argv: seq<Word>, data: seq<Byte>, base: nat)
    requires |argv| == 6 && |data| < USIZE_LIMIT
    ensures AgreeAt(SYS_epoll_wait, argv, data, base)
  {
    DispatchUnfold(SYS_epoll_wait, argv, data, base);
  }

  lemma AgreeEventfd2(argv: seq<Word>, data: seq<Byte>, base: nat)
    requires |argv| == 6 && |data| < USIZE_LIMIT
    ensures AgreeAt(SYS_eventfd2, argv, data, base)
  {
    DispatchUnfold(SYS_eventfd2, argv, data, base);
  }

  lemma AgreeExit(argv: seq<Word>, data: seq<Byte>, base: nat)
    requires |argv| == 6 && |data| < USIZE_LIMIT
    ensures AgreeAt(SYS_exit, argv, data, base)
  {
    DispatchUnfold(SYS_exit, argv, data, base);
  }

  lemma AgreeExitGroup(argv: seq<Word>, data: seq<Byte>, base: nat)
    requires |argv| == 6 && |data| < USIZE_LIMIT
    ensures AgreeAt(SYS_exit_group, argv, data, base)
  {
    DispatchUnfold(SYS_exit_group, argv, data, base);
  }

  lemma AgreeFcntl(argv: seq<Word>, data: seq<Byte>, base: nat)
    requires |argv| == 6 && |data| < USIZE_LIMIT
    ensures AgreeAt(SYS_fcntl, argv, data, base)
  {
    DispatchUnfold(SYS_fcntl, argv, data, base);
  }

  lemma AgreeGetsockname(argv: seq<Word>, data: seq<Byte>, base: nat)
    requires |argv| == 6 && |data| < USIZE_LIMIT
    ensures AgreeAt(SYS_getsockname, argv, data, base)
  {
    DispatchUnfold(SYS_getsockname, argv, data, base);
  }

  lemma AgreeListen(argv: seq<Word>, data: seq<Byte>, base: nat)
    requires |argv| == 6 && |data| < USIZE_LIMIT
    ensures AgreeAt(SYS_listen, argv, data, base)
  {
    DispatchUnfold(SYS_listen, argv, data, base);
  }

  lemma AgreeRead(argv: seq<Word>, data: seq<Byte>, base: nat)
    requires |argv| == 6 && |data| < USIZE_LIMIT
    ensures AgreeAt(SYS_read, argv, data, base)
  {
    DispatchUnfold(SYS_read, argv, data, base);
  }

  lemma AgreeRecvfrom(argv: seq<Word>, data: seq<Byte>, base: nat)
    requires |argv| == 6 && |data| < USIZE_LIMIT
    ensures AgreeAt(SYS_recvfrom, argv, data, base)
  {
    DispatchUnfold(SYS_recvfrom, argv, data, base);
  }

  lemma AgreeSetsockopt(argv: seq<Word>, data: seq<Byte>, base: nat)
    requires |argv| == 6 && |data| < USIZE_LIMIT
    ensures AgreeAt(SYS_setsockopt, argv, data, base)
  {
    DispatchUnfold(SYS_setsockopt, argv, data, base);
  }

  lemma AgreeSocket(argv: seq<Word>, data: seq<Byte>, base: nat)
    requires |argv| == 6 && |data| < USIZE_LIMIT
    ensures AgreeAt(SYS_socket, argv, data, base)
  {
    DispatchUnfold(SYS_socket, argv, data, base);
  }

  lemma AgreeSync(argv: seq<Word>, data: seq<Byte>, base: nat)
    requires |argv| == 6 && |data| < USIZE_LIMIT
    ensures AgreeAt(SYS_sync, argv, data, base)
  {
    DispatchUnfold(SYS_sync, argv, data, base);
  }

  lemma AgreeWrite(argv: seq<Word>, data: seq<Byte>, base: nat)
    requires |argv| == 6 && |data| < USIZE_LIMIT
    ensures AgreeAt(SYS_write, argv, data, base)
  {
    DispatchUnfold(SYS_write, argv, data, base);
  }
}
