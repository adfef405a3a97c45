/** Items of kind `Gdbcall` (src/v2/src/item/gdbcall.rs): the call numbers
    and the fixed six-word payload layout, read in place from the block. */
module Gdbcall {
  import opened Common

  /** The debugger-connection call an item requests. */
  datatype Number = Write | WriteAll | Flush | OnSessionStart | Read | Peek

  /** The `repr(usize)` discriminant of a `Number`. */
  function NumberWord(n: Number): Word
  {
    match n
    case Write => 0
    case WriteAll => 2
    case Flush => 3
    case OnSessionStart => 4
    case Read => 5
    case Peek => 6
  }

  /** The `Number` whose discriminant is `w`, if there is one. */
  function NumberOf(w: Word): (r: Option<Number>)
    ensures r.Some? ==> NumberWord(r.value) == w
    ensures r.None? <==> w == 1 || w > 6
  {
    if w == 0 then Some(Write)
    else if w == 2 then Some(WriteAll)
    else if w == 3 then Some(Flush)
    else if w == 4 then Some(OnSessionStart)
    else if w == 5 then Some(Read)
    else if w == 6 then Some(Peek)
    else None
  }

  /** Every number is recovered from its discriminant, so no two numbers share one. */
  lemma NumberRoundTrip(n: Number)
    ensures NumberOf(NumberWord(n)) == Some(n)
  {
  }

  /** `USIZE_COUNT`: the payload is one word for `num`, four for `argv`, one for `ret`. */
  const USIZE_COUNT: nat := 1 + 4 + 1

  /** `gdbcall::Payload`. */
  datatype Payload = Payload(num: Number, argv: seq<Word>, ret: Word)

  predicate WellFormed(p: Payload)
  {
    |p.argv| == 4
  }

  /** The words a payload occupies in the block, in `repr(C)` field order. */
  function PayloadWords(p: Payload): (buf: seq<Word>)
    requires WellFormed(p)
    ensures |buf| == USIZE_COUNT
  {
    [NumberWord(p.num)] + p.argv + [p.ret]
  }

  /** `From<&mut [usize; USIZE_COUNT]> for &mut Payload`: the words of the
      block read as a payload. The cast is only sound when word 0 holds a
      discriminant of `Number`. */
  function View(buf: seq<Word>): (p: Payload)
    requires |buf| == USIZE_COUNT && NumberOf(buf[0]).Some?
    ensures WellFormed(p)
    ensures NumberWord(p.num) == buf[0] && p.argv == buf[1..5] && p.ret == buf[5]
    ensures PayloadWords(p) == buf
  {
    Payload(NumberOf(buf[0]).value, buf[1..5], buf[5])
  }

  /** Reading a payload back through the view gives the payload written. */
  lemma ViewOfPayloadWords(p: Payload)
    requires WellFormed(p)
    ensures View(PayloadWords(p)) == p
  {
    NumberRoundTrip(p.num);
    assert PayloadWords(p)[1..5] == p.argv;
  }

  /** The view aliases the buffer: setting `ret` or `argv[i]` through the
      payload sets exactly the corresponding word and no other. */
  lemma WritesThroughView(buf: seq<Word>, i: nat, v: Word)
    requires |buf| == USIZE_COUNT && NumberOf(buf[0]).Some? && i < 4
    ensures PayloadWords(View(buf).(ret := v)) == buf[5 := v]
    ensures PayloadWords(View(buf).(argv := View(buf).argv[i := v])) == buf[1 + i := v]
  {
    var p := View(buf);
    assert PayloadWords(p.(ret := v)) == buf[5 := v];
    assert PayloadWords(p.(argv := p.argv[i := v])) == buf[1 + i := v];
  }
}
