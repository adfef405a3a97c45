/** Machine words, C integer conversions and the error-carrying result type
    shared by every part of the model (x86_64: `usize` is 64 bits). */
module Common {

  /** 2^64: one more than the largest `usize`. */
  const USIZE_LIMIT: int := 0x1_0000_0000_0000_0000

  /** `size_of::<usize>()` and `align_of::<usize>()` on x86_64. */
  const WORD_SIZE: nat := 8

  /** A register-width unsigned value (`usize`). */
  type Word = x: int | 0 <= x < USIZE_LIMIT

  /** A C `int` (`c_int`, 32-bit signed). */
  type CInt = x: int | -0x8000_0000 <= x < 0x8000_0000

  datatype Option<+T> = None | Some(value: T)

  /** `crate::Result<T>`: success or a positive errno value. */
  datatype Result<+T> = Ok(value: T) | Err(errno: int) {
    predicate IsFailure() { Err? }
    function PropagateFailure<U>(): Result<U>
      requires Err?
    {
      Err(errno)
    }
    function Extract(): T
      requires Ok?
    {
      value
    }
  }

  /** An 8-bit unsigned value (`u8`). */
  newtype Byte = x: int | 0 <= x < 0x100

  /** `x as usize` for a `c_int`: sign extension to 64 bits. */
  function WordOfCInt(x: CInt): (w: Word)
    ensures x >= 0 ==> w == x
    ensures x < 0 ==> w == USIZE_LIMIT + x
  {
    if x < 0 then USIZE_LIMIT + x else x
  }

  /** `w as c_int`: keep the low 32 bits, read them as signed. */
  function CIntOfWord(w: Word): (x: CInt)
    ensures (x - w) % 0x1_0000_0000 == 0
  {
    var low := w % 0x1_0000_0000;
    if low >= 0x8000_0000 then low - 0x1_0000_0000 else low
  }

  /** `w as i64`: the same 64 bits read as signed. */
  function SignedOfWord(w: Word): (x: int)
    ensures -0x8000_0000_0000_0000 <= x < 0x8000_0000_0000_0000
    ensures x == w || x == w - USIZE_LIMIT
  {
    if w >= 0x8000_0000_0000_0000 then w - USIZE_LIMIT else w
  }
}
