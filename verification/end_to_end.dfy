/** Guest and host together: what the host validation makes of an item the
    guest staged and committed. The host reads the number and the six
    registers from the words `commit` wrote after the header. */
module EndToEnd {
  import opened Common
  import opened Libc
  import opened Item
  import opened HostSyscall
  import opened Frame
  import Passthrough
  import ClockGettime

  /** The host's reading of a committed image: number and registers. */
  function HostNum(img: seq<Word>): Word
    requires |img| == FRAME_WORDS
  {
    img[HEADER_USIZE_COUNT]
  }

  function HostArgv(img: seq<Word>): (argv: seq<Word>)
    requires |img| == FRAME_WORDS
    ensures |argv| == 6
  {
    img[HEADER_USIZE_COUNT + 1..HEADER_USIZE_COUNT + 7]
  }

  function Scalars(ws: seq<Word>): (args: seq<Arg>)
    ensures |args| == |ws| && forall k :: 0 <= k < |ws| ==> args[k] == Scalar(ws[k])
  {
    seq(|ws|, k requires 0 <= k < |ws| => Scalar(ws[k]))
  }

  /** A staged pass-through call always passes the host's validation, and
      the host runs the same syscall on the fields the guest staged. */
  lemma HostRunsPassthrough(used: nat, p: Passthrough.Call, data: seq<Byte>, base: nat)
    requires FrameEnd(used, Pass(p)) < USIZE_LIMIT && |data| < USIZE_LIMIT
    ensures var img := CommitImage(Staging(used, Pass(p)));
      var v := Validate(HostNum(img), HostArgv(img), data, base);
      v.Ok? && v.value.num == Passthrough.Num(p) && v.value.args == Scalars(Passthrough.Stage(p))
  {
    StagingCommittable(used, Pass(p));
    var s := Staging(used, Pass(p));
    CommitImageReadsBack(s);
    var img := CommitImage(s);
    var argv := HostArgv(img);
    assert argv == Passthrough.ArgvInto(Passthrough.Stage(p));
    assert argv[..|Passthrough.Stage(p)|] == Passthrough.Stage(p);
  }

  /** The host sees only the item's data section, the `stagedSize` bytes
      after the return words, at host address `base`. The register the
      guest staged for the `timespec` is the section's offset 0, so the
      host resolves it to the section's first 16 bytes: the very slot the
      guest copies the result back from. The call validates exactly when
      the section's address is aligned for a `timespec`. */
  lemma HostChecksTimespecSlot(used: nat, clockid: CInt, tp: ClockGettime.Timespec, block: seq<Byte>, base: nat)
    requires FrameEnd(used, ClockGettime(clockid, tp)) <= |block| < USIZE_LIMIT
    ensures var s := Staging(used, ClockGettime(clockid, tp));
      var img := CommitImage(s);
      var section := s.at + FRAME_SIZE;
      var data := block[section..section + s.stagedSize];
      var v := Validate(HostNum(img), HostArgv(img), data, base);
      s.inner.slot == section &&
      (v.Ok? <==> base % AlignOf(CTimespec) == 0) &&
      (v.Ok? ==> v.value.num == SYS_clock_gettime &&
                 v.value.args == [Scalar(WordOfCInt(clockid)), Ptr(Range(0, SizeOf(CTimespec)))])
  {
    var c := ClockGettime(clockid, tp);
    StagingCommittable(used, c);
    var s := Staging(used, c);
    CommitImageReadsBack(s);
    var img := CommitImage(s);
    var argv := HostArgv(img);
    assert argv == Passthrough.ArgvInto([WordOfCInt(clockid), 0]);
    assert argv[0] == WordOfCInt(clockid) && argv[1] == 0;
    assert s.stagedSize == SizeOf(CTimespec);
  }
}
