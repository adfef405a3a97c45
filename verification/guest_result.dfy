/** The guest's view of the two return words of a syscall item: the Linux
    convention that a first word in the top 4095 values of `usize` is a
    negated errno, anything else a success value. */
module GuestResult {
  import opened Common
  import opened Libc

  /** The largest errno the return convention can carry. */
  const MAX_ERRNO: nat := 4095

  /** What a syscall returns on success: nothing, or a `c_int`. */
  datatype RetKind = UnitRet | IntRet
  datatype RetVal = Unit | Int(v: CInt)

  predicate IsErrorWord(w: Word)
  {
    w >= USIZE_LIMIT - MAX_ERRNO
  }

  /** `[usize; 2]` into `Result<T::Ret>`. */
  function DecodeRet(ret: seq<Word>, kind: RetKind): (r: Result<RetVal>)
    requires |ret| == 2
    ensures r.Err? <==> IsErrorWord(ret[0])
    ensures r.Err? ==> 1 <= r.errno <= MAX_ERRNO && ret[0] == USIZE_LIMIT - r.errno
    ensures r.Ok? ==> (r.value.Unit? <==> kind == UnitRet)
    ensures r.Ok? && kind == IntRet ==> (r.value.v - ret[0]) % 0x1_0000_0000 == 0
  {
    if IsErrorWord(ret[0]) then Err(USIZE_LIMIT - ret[0])
    else if kind == UnitRet then Ok(Unit)
    else Ok(Int(CIntOfWord(ret[0])))
  }

  /** The return words the host leaves for a given result. */
  function EncodeRet(r: Result<RetVal>): (ret: seq<Word>)
    requires r.Err? ==> 1 <= r.errno <= MAX_ERRNO
    ensures |ret| == 2 && ret[1] == 0
  {
    match r
    case Err(e) => [USIZE_LIMIT - e, 0]
    case Ok(Unit) => [0, 0]
    case Ok(Int(v)) => [WordOfCInt(v), 0]
  }

  /** A result the convention can carry: an errno in range, and no `c_int`
      that reads as an error. */
  predicate Encodable(r: Result<RetVal>, kind: RetKind)
  {
    match r
    case Err(e) => 1 <= e <= MAX_ERRNO
    case Ok(v) => (v.Unit? <==> kind == UnitRet) && (v.Int? ==> !(-(MAX_ERRNO as int) <= v.v < 0))
  }

  /** Decoding undoes encoding. */
  lemma DecodeEncode(r: Result<RetVal>, kind: RetKind)
    requires Encodable(r, kind)
    ensures DecodeRet(EncodeRet(r), kind) == r
  {
    if r.Ok? && r.value.Int? {
      var v := r.value.v;
      var w := WordOfCInt(v);
      if v >= 0 {
        assert CIntOfWord(w) == v;
      } else {
        assert w % 0x1_0000_0000 == 0x1_0000_0000 + (v as int);
        assert CIntOfWord(w) == v;
      }
    }
  }

  /** The default return words of a committed item read as `ENOSYS`, and
      the all-zero return words as success. */
  lemma DefaultAndZeroRet()
    ensures DecodeRet([USIZE_LIMIT - ENOSYS, 0], UnitRet) == Err(ENOSYS)
    ensures DecodeRet([USIZE_LIMIT - ENOSYS, 0], IntRet) == Err(ENOSYS)
    ensures DecodeRet([0, 0], UnitRet) == Ok(Unit)
  {
  }
}
