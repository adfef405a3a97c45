/** `Close` as written against the other revision of the guest `Syscall`
    trait (src/v2/src/guest/syscall/close.rs): its return type is the raw
    two-word syscall result, it declares the default return the host finds
    before it runs the call, and `collect` converts that raw result. */
module CloseRevision {
  import opened Common
  import opened Libc
  import opened GuestResult
  import Passthrough

  /** `Close::NUM`. */
  const NUM: Word := SYS_close

  /** `Close::DEFAULT_RET`: the raw return words of the `ENOSYS` error. */
  function DefaultRet(): (ret: seq<Word>)
    ensures |ret| == 2 && DecodeRet(ret, UnitRet) == Err(ENOSYS)
  {
    EncodeRet(Err(ENOSYS))
  }

  /** `Close::stage`: no allocation; one register holding the descriptor. */
  function Stage(fd: CInt): (r: Result<seq<Word>>)
    ensures r.Ok? && |r.value| == 1 && CIntOfWord(r.value[0]) == fd
  {
    Ok([WordOfCInt(fd)])
  }

  /** `Close::collect`: the raw result converted into `Result<()>`. */
  function Collect(ret: seq<Word>): (r: Result<RetVal>)
    requires |ret| == 2
    ensures r.Ok? ==> r.value == Unit
    ensures r.Err? <==> IsErrorWord(ret[0])
  {
    DecodeRet(ret, UnitRet)
  }

  /** Both revisions of `Close` stage, number and collect alike, and the
      declared default return is exactly the words the frame commits. */
  lemma RevisionsAgree(fd: CInt, ret: seq<Word>)
    requires |ret| == 2
    ensures NUM == Passthrough.Num(Passthrough.Close(fd))
    ensures Stage(fd) == Ok(Passthrough.Stage(Passthrough.Close(fd)))
    ensures Collect(ret) == DecodeRet(ret, Passthrough.RetKindOf(Passthrough.Close(fd)))
    ensures DefaultRet() == [USIZE_LIMIT - ENOSYS, 0]
  {
  }

  /** A host that leaves the return words zero reports success. */
  lemma ZeroRetIsSuccess()
    ensures Collect([0, 0]) == Ok(Unit)
  {
  }
}
