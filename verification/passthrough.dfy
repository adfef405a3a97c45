/** The guest's pass-through syscalls (src/v2/src/guest/syscall/passthrough.rs):
    each one only names its syscall number and lays its `c_int` fields out
    as argument registers, in declaration order. */
module Passthrough {
  import opened Common
  import opened Libc
  import opened GuestResult

  datatype Call =
    | Close(fd: CInt)
    | Dup(oldfd: CInt)
    | Dup2(oldfd: CInt, newfd: CInt)
    | Dup3(oldfd: CInt, newfd: CInt, flags: CInt)
    | Eventfd2(initval: CInt, flags: CInt)
    | Exit(status: CInt)
    | ExitGroup(status: CInt)
    | Sync

  /** `PassthroughSyscall::NUM`. */
  function Num(c: Call): Word
  {
    match c
    case Close(_) => SYS_close
    case Dup(_) => SYS_dup
    case Dup2(_, _) => SYS_dup2
    case Dup3(_, _, _) => SYS_dup3
    case Eventfd2(_, _) => SYS_eventfd2
    case Exit(_) => SYS_exit
    case ExitGroup(_) => SYS_exit_group
    case Sync => SYS_sync
  }

  /** `PassthroughSyscall::Ret`: only `eventfd2` returns a value. */
  function RetKindOf(c: Call): RetKind
  {
    if c.Eventfd2? then IntRet else UnitRet
  }

  /** The struct's fields in declaration order. */
  function Fields(c: Call): seq<CInt>
  {
    match c
    case Close(fd) => [fd]
    case Dup(oldfd) => [oldfd]
    case Dup2(oldfd, newfd) => [oldfd, newfd]
    case Dup3(oldfd, newfd, flags) => [oldfd, newfd, flags]
    case Eventfd2(initval, flags) => [initval, flags]
    case Exit(status) => [status]
    case ExitGroup(status) => [status]
    case Sync => []
  }

  /** `stage`: the `Argv<N>` registers, each field cast `as usize`. */
  function Stage(c: Call): (argv: seq<Word>)
    ensures |argv| == |Fields(c)| <= 3
    ensures forall k :: 0 <= k < |argv| ==> argv[k] == WordOfCInt(Fields(c)[k])
  {
    match c
    case Close(fd) => [WordOfCInt(fd)]
    case Dup(oldfd) => [WordOfCInt(oldfd)]
    case Dup2(oldfd, newfd) => [WordOfCInt(oldfd), WordOfCInt(newfd)]
    case Dup3(oldfd, newfd, flags) => [WordOfCInt(oldfd), WordOfCInt(newfd), WordOfCInt(flags)]
    case Eventfd2(initval, flags) => [WordOfCInt(initval), WordOfCInt(flags)]
    case Exit(status) => [WordOfCInt(status)]
    case ExitGroup(status) => [WordOfCInt(status)]
    case Sync => []
  }

  /** `Argv<N>` into `[usize; 6]`: the registers, then zeros. */
  function ArgvInto(argv: seq<Word>): (regs: seq<Word>)
    requires |argv| <= 6
    ensures |regs| == 6 && regs[..|argv|] == argv
    ensures forall k :: |argv| <= k < 6 ==> regs[k] == 0
  {
    argv + seq(6 - |argv|, _ => 0)
  }

  /** Reading a register back `as c_int` gives the field that was staged. */
  lemma StageRoundTrip(c: Call)
    ensures forall k :: 0 <= k < |Stage(c)| ==> CIntOfWord(Stage(c)[k]) == Fields(c)[k]
  {
    forall k | 0 <= k < |Stage(c)|
      ensures CIntOfWord(Stage(c)[k]) == Fields(c)[k]
    {
      var x := Fields(c)[k];
      if x < 0 {
        assert WordOfCInt(x) % 0x1_0000_0000 == 0x1_0000_0000 + (x as int);
      }
    }
  }

  /** The number and the staged registers together identify the call:
      staging loses nothing. */
  lemma StageInjective(c: Call, d: Call)
    requires Num(c) == Num(d) && Stage(c) == Stage(d)
    ensures c == d
  {
    StageRoundTrip(c);
    StageRoundTrip(d);
    assert Fields(c) == Fields(d);
  }
}
