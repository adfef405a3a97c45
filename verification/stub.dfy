/** Syscalls the guest answers itself, without the host
    (src/v2/src/guest/syscall/stub.rs): fixed identities, a fake `fstat`
    for the standard streams, `getrandom` from the CPU's random number
    instruction, `readlink` of the executable and `uname`. */
module Stub {
  import opened Common
  import opened Libc

  /** Fixed identities reported to the guest. */
  const FAKE_GID: nat := 1000
  const FAKE_PID: nat := 1000
  const FAKE_TID: nat := 1
  const FAKE_UID: nat := 1000

  function Getegid(): nat { FAKE_GID }
  function Geteuid(): nat { FAKE_UID }
  function Getgid(): nat { FAKE_GID }
  function Getpid(): nat { FAKE_PID }
  function Getuid(): nat { FAKE_UID }
  /** `set_tid_address` ignores the pointer it is given. */
  function SetTidAddress(tidptr: Word): nat { FAKE_TID }
  /** Signal masks and alternate stacks are accepted and ignored; the old
      values are never written. */
  function RtSigprocmask(how: CInt, newSet: Option<Word>, oldSet: Option<Word>, sigsetsize: Word): Result<()> { Ok(()) }
  function Sigaltstack(ss: Word, oldSs: Option<Word>): Result<()> { Ok(()) }

  /** The process runs as one ordinary user: real and effective ids agree
      and the process id is the same fixed value. */
  lemma FakeIds()
    ensures Getuid() == Geteuid() == 1000 && Getgid() == Getegid() == 1000
    ensures Getpid() == 1000
  {
  }

  /** `set_tid_address` reports the first thread's id whatever pointer it
      is given, and every signal stub succeeds whatever it is given. */
  lemma SignalStubsSucceed(tidptr: Word, how: CInt, newSet: Option<Word>, oldSet: Option<Word>, sigsetsize: Word,
                           ss: Word, oldSs: Option<Word>)
    ensures SetTidAddress(tidptr) == 1
    ensures RtSigprocmask(how, newSet, oldSet, sigsetsize) == Ok(()) && Sigaltstack(ss, oldSs) == Ok(())
  {
  }

  // ---- fstat ----

  /** `makedev` as the stub writes it: the glibc packing of a major and a
      minor number into a `dev_t`. */
  function Makedev(x: bv64, y: bv64): bv64
  {
    ((x & 0xffff_f000) << 32) | ((x & 0x0000_0fff) << 8) | ((y & 0xffff_ff00) << 12) | (y & 0x0000_00ff)
  }

  /** glibc's `major` and `minor`, the inverses of the packing. */
  function Major(dev: bv64): bv64
  {
    ((dev >> 8) & 0x0000_0fff) | ((dev >> 32) & 0xffff_f000)
  }

  function Minor(dev: bv64): bv64
  {
    (dev & 0x0000_00ff) | ((dev >> 12) & 0xffff_ff00)
  }

  /** Unpacking recovers any 32-bit major and minor number. */
  lemma MakedevRoundTrip(x: bv64, y: bv64)
    requires x < 0x1_0000_0000 && y < 0x1_0000_0000
    ensures Major(Makedev(x, y)) == x && Minor(Makedev(x, y)) == y
  {
  }

  /** The fields of `struct stat` the stub sets; the rest are zeroed. */
  datatype Stat = Stat(
    dev: bv64, ino: nat, nlink: nat, mode: bv32, uid: nat, gid: nat, rdev: bv64,
    size: int, blksize: int, blocks: int,
    atime: int, atimeNsec: int, mtime: int, mtimeNsec: int, ctime: int, ctimeNsec: int)

  /** The caller's `stat` buffer, overwritten as a whole. */
  class StatBuf {
    var st: Stat

    constructor (st: Stat)
      ensures this.st == st
    {
      this.st := st;
    }
  }

  /** The file-type bits of a mode (POSIX `S_IFMT`). */
  const S_IFMT: bv32 := 0xf000

  const FAKE_TIME: int := 1_579_507_218

  /** What `fstat` reports for a standard stream: a pipe readable and
      writable by its owner, on a device whose minor number tells stdin
      from the other two. */
  function FakeStdioStat(fd: CInt): Stat
  {
    Stat(Makedev(0, if fd == 0 then 0x19 else 0xc), 3, 1, S_IFIFO | 0x180 /* 0o600 */, 1000, 5,
         Makedev(0x88, 0), 0, 4096, 0, FAKE_TIME, 0, FAKE_TIME, 0, FAKE_TIME, 0)
  }

  /** The fake stat describes a FIFO with mode 0600 owned by the fake
      user, on device 0:0x19 for stdin and 0:0xc for stdout and stderr,
      with special device 0x88:0. */
  lemma FakeStdioStatFacts(fd: CInt)
    ensures var st := FakeStdioStat(fd);
      st.mode & S_IFMT == S_IFIFO && st.mode & 0x1ff == 0x180 &&
      st.uid == Getuid() &&
      Major(st.dev) == 0 && Minor(st.dev) == (if fd == 0 then 0x19 else 0xc) &&
      Major(st.rdev) == 0x88 && Minor(st.rdev) == 0 && st.rdev == 0x8800 &&
      st.size == 0 && st.blocks == 0 && st.atime == st.mtime == st.ctime == FAKE_TIME
  {
    MakedevRoundTrip(0, if fd == 0 then 0x19 else 0xc);
    MakedevRoundTrip(0x88, 0);
  }

  /** `Fstat::collect`: the standard streams get the fake stat and
      success; any other descriptor gets `EBADFD` and an untouched buffer. */
  method Fstat(fd: CInt, statbuf: StatBuf) returns (r: Result<()>)
    modifies statbuf
    ensures (fd == STDIN_FILENO || fd == STDOUT_FILENO || fd == STDERR_FILENO) ==>
              r == Ok(()) && statbuf.st == FakeStdioStat(fd)
    ensures !(fd == STDIN_FILENO || fd == STDOUT_FILENO || fd == STDERR_FILENO) ==>
              r == Err(EBADFD) && statbuf.st == old(statbuf.st)
  {
    if fd == STDIN_FILENO || fd == STDOUT_FILENO || fd == STDERR_FILENO {
      var p := FakeStdioStat(fd);
      statbuf.st := p;
      return Ok(());
    }
    r := Err(EBADFD);
  }

  // ---- getrandom ----

  /** The random number instruction's behaviour while one chunk is being
      filled: how many attempts fail before one succeeds, and the value it
      then yields. */
  datatype Draw = Draw(failures: nat, value: bv64)

  const GRND_FLAGS: bv32 := GRND_NONBLOCK | GRND_RANDOM

  /** Eight-byte chunks of a buffer; the last may be short. */
  function Chunks(len: nat): nat
  {
    (len + 7) / 8
  }

  /** The least significant byte of `v`. */
  function LowByte(v: bv64): Byte
  {
    ((v & 0xff) as bv8) as Byte
  }

  /** `v.to_ne_bytes()`: the eight bytes of `v` in native order, which on
      x86_64 is least significant first. */
  function NeBytes(v: bv64): (b: seq<Byte>)
    ensures |b| == 8
  {
    [LowByte(v), LowByte(v >> 8), LowByte(v >> 16), LowByte(v >> 24),
     LowByte(v >> 32), LowByte(v >> 40), LowByte(v >> 48), LowByte(v >> 56)]
  }

  /** Byte `j` of `v` in native order. */
  function ByteOf(v: bv64, j: nat): Byte
    requires j < 8
  {
    NeBytes(v)[j]
  }

  /** `prior` with its first `n` chunks filled from the draws. */
  function RandomFill(prior: seq<Byte>, draws: seq<Draw>, n: nat): (buf: seq<Byte>)
    requires n <= |draws|
    ensures |buf| == |prior|
  {
    seq(|prior|, k requires 0 <= k < |prior| => if k / 8 < n then ByteOf(draws[k / 8].value, k % 8) else prior[k])
  }

  /** The first of the first `m` chunks whose draw fails at least once, or `m`. */
  function FirstFailure(draws: seq<Draw>, from: nat, m: nat): (i: nat)
    requires m <= |draws| && from <= m
    ensures from <= i <= m
    ensures forall c :: from <= c < i ==> draws[c].failures == 0
    ensures i < m ==> draws[i].failures > 0
    decreases m - from
  {
    if from == m then m
    else if draws[from].failures > 0 then from
    else FirstFailure(draws, from + 1, m)
  }

  /** How many chunks `getrandom` fills: all of them when it may retry
      forever, otherwise those before the first failing draw. */
  function FilledChunks(len: nat, flags: bv32, draws: seq<Draw>): nat
    requires Chunks(len) <= |draws|
  {
    if flags & GRND_FLAGS == 0 then Chunks(len) else FirstFailure(draws, 0, Chunks(len))
  }

  /** What `getrandom` returns. */
  function GetrandomResult(len: nat, flags: bv32, draws: seq<Draw>): Result<nat>
    requires Chunks(len) <= |draws|
  {
    if flags & !GRND_FLAGS != 0 then Err(EINVAL)
    else if FilledChunks(len, flags, draws) == Chunks(len) then Ok(len)
    else if flags & GRND_NONBLOCK != 0 then Err(EAGAIN)
    else Ok(8 * FilledChunks(len, flags, draws))
  }

  /** The buffer `getrandom` leaves behind. */
  function GetrandomFill(prior: seq<Byte>, flags: bv32, draws: seq<Draw>): seq<Byte>
    requires Chunks(|prior|) <= |draws|
  {
    if flags & !GRND_FLAGS != 0 then prior else RandomFill(prior, draws, FilledChunks(|prior|, flags, draws))
  }

  /** `Getrandom::collect`: unknown flags are refused before the buffer is
      touched; then each chunk is filled from a successful draw. A failed
      draw ends the call with `EAGAIN` under `GRND_NONBLOCK`, with the
      bytes filled so far under `GRND_RANDOM`, and is retried otherwise. */
  method Getrandom(buf: array<Byte>, flags: bv32, draws: seq<Draw>) returns (r: Result<nat>)
    requires Chunks(buf.Length) <= |draws|
    modifies buf
    ensures r == GetrandomResult(buf.Length, flags, draws)
    ensures buf[..] == GetrandomFill(old(buf[..]), flags, draws)
  {
    if flags & !GRND_FLAGS != 0 {
      return Err(EINVAL);
    }
    var i := 0;
    while i < Chunks(buf.Length)
      invariant 0 <= i <= Chunks(buf.Length)
      invariant flags & GRND_FLAGS != 0 ==> forall c :: 0 <= c < i ==> draws[c].failures == 0
      invariant buf[..] == RandomFill(old(buf[..]), draws, i)
    {
      var attempt := 0;
      while attempt < draws[i].failures
        invariant attempt <= draws[i].failures
        invariant attempt > 0 ==> flags & GRND_FLAGS == 0
      {
        // the draw failed
        if flags & GRND_NONBLOCK != 0 {
          FirstFailureAt(draws, Chunks(buf.Length), i);
          return Err(EAGAIN);
        }
        if flags & GRND_RANDOM != 0 {
          FirstFailureAt(draws, Chunks(buf.Length), i);
          return Ok(8 * i);
        }
        attempt := attempt + 1;
      }
      ghost var before := buf[..];
      FillChunk(buf, i, NeBytes(draws[i].value));
      RandomFillNext(old(buf[..]), draws, i, before, buf[..]);
      i := i + 1;
    }
    if flags & GRND_FLAGS != 0 {
      FirstFailureAt(draws, Chunks(buf.Length), Chunks(buf.Length));
    }
    r := Ok(buf.Length);
  }

  /** `chunk.copy_from_slice(&el.to_ne_bytes()[..chunk.len()])` for chunk
      `i`: as many of the eight bytes as the chunk holds. */
  method FillChunk(buf: array<Byte>, i: nat, bytes: seq<Byte>)
    requires 8 * i < buf.Length && |bytes| == 8
    modifies buf
    ensures forall k :: 0 <= k < buf.Length ==>
      buf[k] == if 8 * i <= k < 8 * i + 8 then bytes[k - 8 * i] else old(buf[k])
  {
    var len := if buf.Length - 8 * i < 8 then buf.Length - 8 * i else 8;
    var j := 0;
    while j < len
      invariant 0 <= j <= len
      invariant forall k :: 0 <= k < buf.Length ==>
        buf[k] == if 8 * i <= k < 8 * i + j then bytes[k - 8 * i] else old(buf[k])
    {
      buf[8 * i + j] := bytes[j];
      j := j + 1;
    }
  }

  /** Filling chunk `i` of a buffer whose first `i` chunks are filled
      gives a buffer whose first `i + 1` are. */
  lemma RandomFillNext(prior: seq<Byte>, draws: seq<Draw>, i: nat, before: seq<Byte>, after: seq<Byte>)
    requires i < |draws| && before == RandomFill(prior, draws, i) && |after| == |before|
    requires forall k :: 0 <= k < |after| ==>
      after[k] == if 8 * i <= k < 8 * i + 8 then ByteOf(draws[i].value, k - 8 * i) else before[k]
    ensures after == RandomFill(prior, draws, i + 1)
  {
    var next := RandomFill(prior, draws, i + 1);
    forall k | 0 <= k < |after|
      ensures after[k] == next[k]
    {
      var q, m := k / 8, k % 8;
      assert k == 8 * q + m && 0 <= m < 8;
      if q == i {
        assert 8 * i <= k < 8 * i + 8 && k - 8 * i == m;
        assert after[k] == ByteOf(draws[i].value, m);
      } else {
        assert !(8 * i <= k < 8 * i + 8);
        assert after[k] == before[k];
      }
    }
  }

  /** A chunk with a failing draw after only clean ones is the first failure. */
  lemma FirstFailureAt(draws: seq<Draw>, m: nat, i: nat)
    requires m <= |draws| && i <= m
    requires forall c :: 0 <= c < i ==> draws[c].failures == 0
    requires i < m ==> draws[i].failures > 0
    ensures FirstFailure(draws, 0, m) == i
  {
  }

  /** On success `getrandom` reports exactly the bytes it wrote: the first
      `n` bytes are random, the rest are as they were; every failure leaves
      unrequested bytes alone, and an invalid flag touches nothing. */
  lemma GetrandomCountsWritten(prior: seq<Byte>, flags: bv32, draws: seq<Draw>)
    requires Chunks(|prior|) <= |draws|
    ensures var r := GetrandomResult(|prior|, flags, draws);
      var buf := GetrandomFill(prior, flags, draws);
      (r.Ok? ==> r.value <= |prior| &&
                 (forall k :: 0 <= k < r.value ==> buf[k] == ByteOf(draws[k / 8].value, k % 8)) &&
                 (forall k :: r.value <= k < |prior| ==> buf[k] == prior[k])) &&
      (r.Err? ==> r.errno == EINVAL || r.errno == EAGAIN) &&
      (r == Err(EINVAL) <==> flags & !GRND_FLAGS != 0) &&
      (r == Err(EINVAL) ==> buf == prior)
  {
    var r := GetrandomResult(|prior|, flags, draws);
    if r.Ok? && flags & !GRND_FLAGS == 0 {
      var n := FilledChunks(|prior|, flags, draws);
      if n < Chunks(|prior|) {
        assert r.value == 8 * n;
        forall k | 0 <= k < |prior|
          ensures k < r.value <==> k / 8 < n
        {
        }
      }
    }
  }

  /** With no flags `getrandom` never fails and fills the whole buffer. */
  lemma GetrandomBlockingFillsAll(prior: seq<Byte>, draws: seq<Draw>)
    requires Chunks(|prior|) <= |draws|
    ensures GetrandomResult(|prior|, 0, draws) == Ok(|prior|)
    ensures forall k :: 0 <= k < |prior| ==> GetrandomFill(prior, 0, draws)[k] == ByteOf(draws[k / 8].value, k % 8)
  {
  }

  // ---- readlink and uname ----

  /** The bytes of an ASCII string. */
  function Ascii(s: string): (b: seq<Byte>)
    requires forall i :: 0 <= i < |s| ==> s[i] as int < 0x80
    ensures |b| == |s| && forall i :: 0 <= i < |s| ==> b[i] as int == s[i] as int
  {
    seq(|s|, i requires 0 <= i < |s| => (s[i] as int) as Byte)
  }

  /** The one link the guest can read, and its target with the NUL. */
  const PROC_SELF_EXE: seq<Byte> := Ascii("/proc/self/exe")
  const INIT_PATH: seq<Byte> := Ascii("/init") + [0]

  /** `Readlink::collect`: only `/proc/self/exe` exists; its target must
      fit the buffer whole (NUL included), and then only the target's bytes
      are overwritten. */
  method Readlink(pathname: seq<Byte>, buf: array<Byte>) returns (r: Option<Result<nat>>)
    modifies buf
    ensures pathname != PROC_SELF_EXE ==> r == Some(Err(ENOENT)) && buf[..] == old(buf[..])
    ensures pathname == PROC_SELF_EXE && buf.Length < |INIT_PATH| ==>
              r == Some(Err(EINVAL)) && buf[..] == old(buf[..])
    ensures pathname == PROC_SELF_EXE && buf.Length >= |INIT_PATH| ==>
              r == Some(Ok(|INIT_PATH|)) && buf[..] == INIT_PATH + old(buf[..])[|INIT_PATH|..]
  {
    if pathname != PROC_SELF_EXE {
      return Some(Err(ENOENT));
    }
    if buf.Length < |INIT_PATH| {
      return Some(Err(EINVAL));
    }
    forall i | 0 <= i < |INIT_PATH| {
      buf[i] := INIT_PATH[i];
    }
    assert buf[..] == INIT_PATH + old(buf[..])[|INIT_PATH|..];
    r := Some(Ok(|INIT_PATH|));
  }

  /** The bytes before the first NUL: how C reads a string. */
  function CString(b: seq<Byte>): (s: seq<Byte>)
    ensures |s| <= |b| && s == b[..|s|] && 0 !in s
    ensures |s| < |b| ==> b[|s|] == 0
  {
    if b == [] || b[0] == 0 then [] else [b[0]] + CString(b[1..])
  }

  /** `fill`: every byte of the field, the string's bytes first, then zeros. */
  function FillImage(src: seq<Byte>, n: nat): (f: seq<Byte>)
    ensures |f| == n
  {
    seq(n, i requires 0 <= i < n => if i < |src| then src[i] else 0)
  }

  /** A string shorter than the field, with no NUL of its own, reads back
      as itself from the filled field. */
  lemma {:induction false} FillImageCString(src: seq<Byte>, n: nat)
    requires |src| < n && 0 !in src
    ensures CString(FillImage(src, n)) == src
    decreases |src|
  {
    var f := FillImage(src, n);
    if src == [] {
      assert f[0] == 0;
    } else {
      assert f[0] == src[0] != 0;
      assert f[1..] == FillImage(src[1..], n - 1);
      FillImageCString(src[1..], n - 1);
      assert src == [src[0]] + src[1..];
    }
  }

  /** Length of every `utsname` field. */
  const UTS_FIELD_LEN: nat := 65

  /** `fill(buf, with)`. */
  method Fill(buf: array<Byte>, src: seq<Byte>)
    modifies buf
    ensures buf[..] == FillImage(src, buf.Length)
  {
    var i := 0;
    while i < buf.Length
      invariant 0 <= i <= buf.Length
      invariant buf[..i] == FillImage(src, buf.Length)[..i]
    {
      buf[i] := if i < |src| then src[i] else 0;
      i := i + 1;
    }
  }

  /** The caller's `struct utsname`: six separate 65-byte fields. */
  class Utsname {
    var sysname: array<Byte>
    var nodename: array<Byte>
    var release: array<Byte>
    var version: array<Byte>
    var machine: array<Byte>
    var domainname: array<Byte>

    ghost predicate Valid()
      reads this
    {
      sysname.Length == nodename.Length == release.Length == version.Length ==
        machine.Length == domainname.Length == UTS_FIELD_LEN &&
      sysname != nodename && sysname != release && sysname != version && sysname != machine &&
      sysname != domainname && nodename != release && nodename != version && nodename != machine &&
      nodename != domainname && release != version && release != machine && release != domainname &&
      version != machine && version != domainname && machine != domainname
    }
  }

  const SYSNAME: seq<Byte> := Ascii("Linux")
  const NODENAME: seq<Byte> := Ascii("localhost.localdomain")
  const RELEASE: seq<Byte> := Ascii("5.6.0")
  const VERSION: seq<Byte> := Ascii("#1")
  const MACHINE: seq<Byte> := Ascii("x86_64")

  /** `Uname::collect`: five fields filled, `domainname` left as it was. */
  method Uname(u: Utsname) returns (r: Result<()>)
    requires u.Valid()
    modifies u.sysname, u.nodename, u.release, u.version, u.machine
    ensures r == Ok(())
    ensures u.sysname[..] == FillImage(SYSNAME, UTS_FIELD_LEN)
    ensures u.nodename[..] == FillImage(NODENAME, UTS_FIELD_LEN)
    ensures u.release[..] == FillImage(RELEASE, UTS_FIELD_LEN)
    ensures u.version[..] == FillImage(VERSION, UTS_FIELD_LEN)
    ensures u.machine[..] == FillImage(MACHINE, UTS_FIELD_LEN)
    ensures u.domainname[..] == old(u.domainname[..])
  {
    Fill(u.sysname, SYSNAME);
    Fill(u.nodename, NODENAME);
    Fill(u.release, RELEASE);
    Fill(u.version, VERSION);
    Fill(u.machine, MACHINE);
    r := Ok(());
  }

  /** Each filled field reads back, as a C string, the text it was filled with. */
  lemma UnameReadsBack()
    ensures CString(FillImage(SYSNAME, UTS_FIELD_LEN)) == SYSNAME
    ensures CString(FillImage(NODENAME, UTS_FIELD_LEN)) == NODENAME
    ensures CString(FillImage(RELEASE, UTS_FIELD_LEN)) == RELEASE
    ensures CString(FillImage(VERSION, UTS_FIELD_LEN)) == VERSION
    ensures CString(FillImage(MACHINE, UTS_FIELD_LEN)) == MACHINE
  {
    FillImageCString(SYSNAME, UTS_FIELD_LEN);
    FillImageCString(NODENAME, UTS_FIELD_LEN);
    FillImageCString(RELEASE, UTS_FIELD_LEN);
    FillImageCString(VERSION, UTS_FIELD_LEN);
    FillImageCString(MACHINE, UTS_FIELD_LEN);
  }

  /** The link target is six bytes and reads, as a C string, `/init`. */
  lemma ReadlinkTarget()
    ensures |INIT_PATH| == 6 && CString(INIT_PATH) == Ascii("/init")
  {
    var t := Ascii("/init");
    assert INIT_PATH == t + [0];
    assert 0 !in t;
    FillImageCString(t, 6);
    assert FillImage(t, 6) == INIT_PATH;
  }
}
