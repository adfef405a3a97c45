/** Item framing shared by both sides of the block (src/item/mod.rs):
    the item kind, the two-word item header and the size constants. */
module Item {
  import opened Common
  import opened Libc
  import Gdbcall

  /** The largest UDP payload: 0xffff less a minimal IP header (20) and a UDP header (8). */
  const MAX_UDP_PACKET_SIZE: nat := 0xffff - (20 + 8)

  /** `sallyport` item kind. */
  datatype Kind = End | Syscall | Gdbcall

  /** The `repr(usize)` discriminant of a kind. */
  function KindWord(k: Kind): Word
  {
    match k
    case End => 0
    case Syscall => 1
    case Gdbcall => 2
  }

  /** `Kind::try_from(usize)`. */
  function KindTryFrom(w: Word): (r: Result<Kind>)
    ensures r.Ok? <==> w <= 2
    ensures r.Ok? ==> KindWord(r.value) == w
    ensures r.Err? ==> r.errno == EINVAL
  {
    if w == KindWord(End) then Ok(End)
    else if w == KindWord(Syscall) then Ok(Syscall)
    else if w == KindWord(Gdbcall) then Ok(Gdbcall)
    else Err(EINVAL)
  }

  /** Converting a kind to its discriminant and back is the identity. */
  lemma KindRoundTrip(k: Kind)
    ensures KindTryFrom(KindWord(k)) == Ok(k)
  {
  }

  /** `sallyport` item header: the size of what follows it and its kind. */
  datatype Header = Header(size: Word, kind: Kind)

  /** `HEADER_USIZE_COUNT`: the header's two fields, `size` and `kind`, are one word each. */
  const HEADER_USIZE_COUNT: nat := 2

  /** Bytes in a header (`size_of::<Header>()`). */
  const HEADER_SIZE: nat := HEADER_USIZE_COUNT * WORD_SIZE

  /** The words a header occupies in the block. */
  function HeaderWords(h: Header): (ws: seq<Word>)
    ensures |ws| == HEADER_USIZE_COUNT
  {
    [h.size, KindWord(h.kind)]
  }

  /** `Header::try_from([usize; HEADER_USIZE_COUNT])`. */
  function HeaderTryFrom(words: seq<Word>): (r: Result<Header>)
    requires |words| == HEADER_USIZE_COUNT
    ensures r.Ok? <==> KindTryFrom(words[1]).Ok?
    ensures r.Ok? ==> r.value.size == words[0] && HeaderWords(r.value) == words
    ensures r.Err? ==> r.errno == EINVAL
  {
    var kind :- KindTryFrom(words[1]);
    Ok(Header(words[0], kind))
  }

  /** A header written to the block is read back unchanged. */
  lemma HeaderRoundTrip(h: Header)
    ensures HeaderTryFrom(HeaderWords(h)) == Ok(h)
  {
    KindRoundTrip(h.kind);
  }

  /** Words in a syscall payload: `num`, six `argv` words and two `ret` words
      (src/item/syscall.rs is not part of this model; the layout is the one
      both sides use). */
  const SYSCALL_USIZE_COUNT: nat := 1 + 6 + 2

  /** `size_of::<Syscall>()`. */
  const SYSCALL_PAYLOAD_SIZE: nat := SYSCALL_USIZE_COUNT * WORD_SIZE

  /** `size_of::<Gdbcall>()`. */
  const GDBCALL_PAYLOAD_SIZE: nat := Gdbcall.USIZE_COUNT * WORD_SIZE

  /** Payload bytes for an item of kind `k` (an `End` item has none). */
  function PayloadSize(k: Kind): nat
  {
    match k
    case End => 0
    case Syscall => SYSCALL_PAYLOAD_SIZE
    case Gdbcall => GDBCALL_PAYLOAD_SIZE
  }

  /** `LARGEST_PAYLOAD_SIZE`: the larger of the two payload sizes. */
  function LargestPayloadSize(): (n: nat)
    ensures forall k: Kind :: PayloadSize(k) <= n
    ensures exists k: Kind :: PayloadSize(k) == n
  {
    var n := if GDBCALL_PAYLOAD_SIZE > SYSCALL_PAYLOAD_SIZE then GDBCALL_PAYLOAD_SIZE else SYSCALL_PAYLOAD_SIZE;
    assert PayloadSize(Syscall) == n || PayloadSize(Gdbcall) == n;
    n
  }

  /** `LARGEST_ITEM_SIZE`: a header followed by the largest payload. */
  function LargestItemSize(): nat
  {
    HEADER_SIZE + LargestPayloadSize()
  }

  /** Every item, header included, fits in `LARGEST_ITEM_SIZE`; concretely
      16 + 72 = 88 bytes, and the UDP bound is 65507. */
  lemma ItemSizes()
    ensures forall k: Kind :: HEADER_SIZE + PayloadSize(k) <= LargestItemSize()
    ensures LargestPayloadSize() == SYSCALL_PAYLOAD_SIZE == 72
    ensures LargestItemSize() == 88
    ensures MAX_UDP_PACKET_SIZE == 65507
  {
  }
}
