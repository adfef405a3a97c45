/** Staging, committing and collecting one syscall item on the guest side
    (src/v2/src/guest/alloc/syscall.rs). Staging reserves the item's
    header, number, argument and return slots, then the call's own section,
    padded to a whole number of words; committing writes the item into the
    block with a default `ENOSYS` return; collecting reads the return words
    back and hands the decoded result to the call. */
module Frame {
  import opened Common
  import opened Libc
  import opened Item
  import opened GuestAlloc
  import opened GuestResult
  import Passthrough
  import ClockGettime

  /** The guest calls modelled here. `Other` stands for any further
      `Syscall` impl, reduced to its number, the registers its own `stage`
      returns, the bytes of data that `stage` reserves and its return kind. */
  datatype Call =
    | Pass(p: Passthrough.Call)
    | ClockGettime(clockid: CInt, tp: ClockGettime.Timespec)
    | Other(num: Word, regs: seq<Word>, bytes: nat, kind: RetKind)

  predicate CallOk(c: Call)
  {
    c.Other? ==> |c.regs| <= 6
  }

  function Num(c: Call): Word
  {
    match c
    case Pass(p) => Passthrough.Num(p)
    case ClockGettime(_, _) => ClockGettime.NUM
    case Other(num, _, _, _) => num
  }

  function RetKindOf(c: Call): RetKind
  {
    match c
    case Pass(p) => Passthrough.RetKindOf(p)
    case ClockGettime(_, _) => UnitRet
    case Other(_, _, _, kind) => kind
  }

  /** Bytes a call's own `stage` reserves, starting word aligned. */
  function SectionSize(c: Call): nat
  {
    match c
    case Pass(_) => 0
    case ClockGettime(_, _) => SizeOf(CTimespec)
    case Other(_, _, bytes, _) => bytes
  }

  /** `T::Staged`/`T::Committed`: what a call keeps between stage and collect. */
  datatype Inner = NoOutput | TimespecAt(slot: nat, tp: ClockGettime.Timespec)

  /** `StagedSyscall`: the item's offset (its header; number, registers and
      return follow at +16, +24 and +72), the registers, the call's kept
      value and the padded size of its section. */
  datatype Staged = Staged(at: nat, num: Word, argv: seq<Word>, kind: RetKind, inner: Inner, stagedSize: nat)

  const NUM_OFFSET: nat := HEADER_SIZE
  const ARGV_OFFSET: nat := NUM_OFFSET + WORD_SIZE
  const RET_OFFSET: nat := ARGV_OFFSET + 6 * WORD_SIZE
  const FRAME_SIZE: nat := RET_OFFSET + 2 * WORD_SIZE

  /** The section size rounded up to whole words; an empty section stays empty. */
  function PaddedSize(n: nat): (r: nat)
  {
    if n > 0 && n % WORD_SIZE > 0 then n + (WORD_SIZE - n % WORD_SIZE) else n
  }

  /** Padding agrees with rounding up to the word alignment: a multiple of
      a word, less than a word more, and unchanged when already aligned. */
  lemma PaddedSizeIsAlignUp(n: nat)
    ensures PaddedSize(n) == AlignUp(n, WORD_SIZE)
    ensures PaddedSize(n) % WORD_SIZE == 0 && n <= PaddedSize(n) < n + WORD_SIZE
    ensures n % WORD_SIZE == 0 ==> PaddedSize(n) == n
  {
  }

  /** Where the item of `c` starts when staged after `used` bytes. */
  function FrameStart(used: nat): nat
  {
    AlignUp(used, AlignOf(CUsize))
  }

  /** The allocator's position once `c` is staged after `used` bytes. */
  function FrameEnd(used: nat, c: Call): nat
  {
    FrameStart(used) + FRAME_SIZE + PaddedSize(SectionSize(c))
  }

  /** Every slot of the frame after a word-aligned start is word aligned,
      so the fixed slots are packed with no gaps. */
  lemma FrameSlotsPacked(used: nat)
    ensures var h := FrameStart(used);
      h % WORD_SIZE == 0 && used <= h &&
      AlignUp(h + NUM_OFFSET, WORD_SIZE) == h + NUM_OFFSET &&
      AlignUp(h + ARGV_OFFSET, WORD_SIZE) == h + ARGV_OFFSET &&
      AlignUp(h + RET_OFFSET, WORD_SIZE) == h + RET_OFFSET &&
      AlignUp(h + FRAME_SIZE, WORD_SIZE) == h + FRAME_SIZE
  {
    var h := FrameStart(used);
    assert h % 8 == 0;
    assert (h + 16) % 8 == 0 && (h + 24) % 8 == 0 && (h + 72) % 8 == 0 && (h + 88) % 8 == 0;
  }

  /** Where `clock_gettime`'s `timespec` lies within the call's section:
      it is the section's first allocation, so at its start. */
  const TIMESPEC_OFFSET: nat := AlignUp(0, AlignOf(CTimespec))

  /** The registers a call stages, before zero padding to six. Offsets
      are relative to the call's own section. */
  function CallArgv(c: Call): (argv: seq<Word>)
    requires CallOk(c)
    ensures |argv| <= 6
    ensures c.ClockGettime? ==> argv == [WordOfCInt(c.clockid), 0]
  {
    match c
    case Pass(p) => Passthrough.Stage(p)
    case ClockGettime(clockid, _) => [WordOfCInt(clockid), TIMESPEC_OFFSET]
    case Other(_, regs, _, _) => regs
  }

  /** The staged item of `c` after `used` bytes: the item at the first word
      boundary, the call's section right after its return slot. The guest
      keeps the `timespec`'s offset in the block, to copy it back from. */
  function Staging(used: nat, c: Call): Staged
    requires CallOk(c)
  {
    var at := FrameStart(used);
    var section := at + FRAME_SIZE;
    Staged(at, Num(c), Passthrough.ArgvInto(CallArgv(c)), RetKindOf(c),
           if c.ClockGettime? then TimespecAt(section + TIMESPEC_OFFSET, c.tp) else NoOutput,
           PaddedSize(SectionSize(c)))
  }

  /** Whatever fits in a block can be committed: staging yields six
      registers, word-aligned slots and a section of whole words. */
  lemma StagingCommittable(used: nat, c: Call)
    requires CallOk(c) && FrameEnd(used, c) < USIZE_LIMIT
    ensures StagedOk(Staging(used, c))
    ensures Staging(used, c).at >= used
  {
    FrameSlotsPacked(used);
    PaddedSizeIsAlignUp(SectionSize(c));
  }

  /** `alloc.section(|alloc| self.stage(alloc))`: the call's own `stage`
      runs on an allocator of its own that covers the block's free space
      from offset 0, so the offsets it hands out are relative to the
      section, which is what the host resolves them against. The block's
      allocator then takes the bytes the section used. `clock_gettime`
      reserves its `timespec` slot, `Other` its bytes, and pass-through
      calls nothing. */
  method StageSection(c: Call, alloc: Allocator) returns (r: Result<(seq<Word>, Inner)>)
    requires alloc.Valid() && CallOk(c) && alloc.used % WORD_SIZE == 0
    modifies alloc
    ensures alloc.Valid()
    ensures r.Ok? <==> old(alloc.used) + SectionSize(c) <= alloc.capacity
    ensures r.Ok? ==>
      alloc.used == old(alloc.used) + SectionSize(c) &&
      r.value.0 == CallArgv(c) &&
      r.value.1 == (if c.ClockGettime? then TimespecAt(old(alloc.used) + TIMESPEC_OFFSET, c.tp) else NoOutput)
    ensures r.Err? ==> r.errno == ENOMEM && alloc.used == old(alloc.used)
  {
    var start := alloc.used;
    var section := new Allocator(alloc.capacity - start);
    var staged: (seq<Word>, Inner);
    match c {
      case Pass(p) =>
        staged := (Passthrough.Stage(p), NoOutput);
      case ClockGettime(clockid, tp) =>
        var out :- ClockGettime.Stage(clockid, section);
        staged := (out.0, TimespecAt(start + out.1, tp));
      case Other(_, regs, bytes, _) =>
        var _ :- section.Allocate(bytes, 1);
        staged := (regs, NoOutput);
    }
    var _ :- alloc.Allocate(section.used, 1);
    r := Ok(staged);
  }

  /** The padding after a section of `size` bytes: a non-empty section that
      ends inside a word is padded to the word's end. Returns the padded
      section size. */
  method Pad(size: nat, alloc: Allocator) returns (r: Result<nat>)
    requires alloc.Valid()
    modifies alloc
    ensures alloc.Valid()
    ensures r.Ok? <==> old(alloc.used) + (PaddedSize(size) - size) <= alloc.capacity
    ensures r.Ok? ==> r.value == PaddedSize(size) && alloc.used == old(alloc.used) + (PaddedSize(size) - size)
    ensures r.Err? ==> r.errno == ENOMEM && alloc.used == old(alloc.used)
  {
    var stagedSize := size;
    if stagedSize > 0 {
      var reminder := stagedSize % WORD_SIZE;
      if reminder > 0 {
        var padSize := WORD_SIZE - reminder;
        stagedSize := stagedSize + padSize;
        var _ :- alloc.Allocate(padSize, 1);
      }
    }
    r := Ok(stagedSize);
  }

  /** The fixed slots of an item: header, number, registers and return,
      each word aligned, in that order. Returns the header's offset. */
  method StageFixed(alloc: Allocator) returns (r: Result<nat>)
    requires alloc.Valid()
    modifies alloc
    ensures alloc.Valid() && alloc.used >= old(alloc.used)
    ensures r.Ok? <==> FrameStart(old(alloc.used)) + FRAME_SIZE <= alloc.capacity
    ensures r.Ok? ==> r.value == FrameStart(old(alloc.used)) && alloc.used == r.value + FRAME_SIZE
    ensures r.Err? ==> r.errno == ENOMEM
  {
    FrameSlotsPacked(alloc.used);
    var header :- alloc.Allocate(HEADER_SIZE, AlignOf(CUsize));
    var numAt :- alloc.Allocate(WORD_SIZE, AlignOf(CUsize));
    var argvAt :- alloc.Allocate(6 * WORD_SIZE, AlignOf(CUsize));
    var retAt :- alloc.Allocate(2 * WORD_SIZE, AlignOf(CUsize));
    assert numAt == header + NUM_OFFSET && argvAt == header + ARGV_OFFSET && retAt == header + RET_OFFSET;
    r := Ok(header);
  }

  /** `Stage::stage`: the fixed slots, then the call's section, then
      padding. Any allocation failure ends staging with that failure. */
  method Stage(c: Call, alloc: Allocator) returns (r: Result<Staged>)
    requires alloc.Valid() && CallOk(c)
    modifies alloc
    ensures alloc.Valid() && alloc.used >= old(alloc.used)
    ensures r.Ok? <==> FrameEnd(old(alloc.used), c) <= alloc.capacity
    ensures r.Ok? ==> alloc.used == FrameEnd(old(alloc.used), c) && r.value == Staging(old(alloc.used), c)
    ensures r.Err? ==> r.errno == ENOMEM
  {
    FrameSlotsPacked(alloc.used);
    var header :- StageFixed(alloc);
    var before := alloc.used;
    var section :- StageSection(c, alloc);
    var stagedSize :- Pad(alloc.used - before, alloc);
    r := Ok(Staged(header, Num(c), Passthrough.ArgvInto(section.0), RetKindOf(c), section.1, stagedSize));
  }

  /** Words in the fixed part of an item: header, number, six registers, two return words. */
  const FRAME_WORDS: nat := FRAME_SIZE / WORD_SIZE

  /** A staged item that can be committed: six registers, a word-aligned
      start, and a header size that fits in a `usize`. */
  predicate StagedOk(s: Staged)
  {
    |s.argv| == 6 && s.at % WORD_SIZE == 0 && s.stagedSize % WORD_SIZE == 0 &&
    SYSCALL_PAYLOAD_SIZE + s.stagedSize < USIZE_LIMIT &&
    (s.inner.TimespecAt? ==> s.inner.slot % WORD_SIZE == 0)
  }

  /** The return words every committed item starts with: `-ENOSYS`, 0. */
  function DefaultRetWords(): (ret: seq<Word>)
    ensures ret == [USIZE_LIMIT - ENOSYS, 0]
  {
    EncodeRet(Err(ENOSYS))
  }

  /** The words `commit` lays down at the item's start. */
  function CommitImage(s: Staged): (img: seq<Word>)
    requires StagedOk(s)
    ensures |img| == FRAME_WORDS
  {
    HeaderWords(Header(SYSCALL_PAYLOAD_SIZE + s.stagedSize, Item.Syscall)) + [s.num] + s.argv + DefaultRetWords()
  }

  /** `commit`: write the header (payload plus padded section size, kind
      `Syscall`), the number, the registers and the default return into the
      block; no other word of the block changes. */
  method Commit(s: Staged, mem: array<Word>)
    requires StagedOk(s) && s.at / WORD_SIZE + FRAME_WORDS <= mem.Length
    modifies mem
    ensures forall i :: 0 <= i < mem.Length ==>
      mem[i] == if s.at / WORD_SIZE <= i < s.at / WORD_SIZE + FRAME_WORDS
                then CommitImage(s)[i - s.at / WORD_SIZE] else old(mem[i])
  {
    var w := s.at / WORD_SIZE;
    mem[w] := SYSCALL_PAYLOAD_SIZE + s.stagedSize;
    mem[w + 1] := KindWord(Item.Syscall);
    mem[w + 2] := s.num;
    for k := 0 to 6
      invariant forall i :: 0 <= i < mem.Length ==>
        mem[i] == if w <= i < w + 3 + k then CommitImage(s)[i - w] else old(mem[i])
    {
      mem[w + 3 + k] := s.argv[k];
    }
    mem[w + 9] := USIZE_LIMIT - ENOSYS;
    mem[w + 10] := 0;
  }

  /** What the host reads back from a committed item: the header it wrote
      decodes to kind `Syscall` with the item's size, the number and
      registers are the staged ones, and the return reads as `ENOSYS`
      until the host overwrites it. */
  lemma CommitImageReadsBack(s: Staged)
    requires StagedOk(s)
    ensures var img := CommitImage(s);
      HeaderTryFrom(img[..HEADER_USIZE_COUNT]) ==
        Ok(Header(SYSCALL_PAYLOAD_SIZE + s.stagedSize, Item.Syscall)) &&
      img[HEADER_USIZE_COUNT] == s.num &&
      img[HEADER_USIZE_COUNT + 1..HEADER_USIZE_COUNT + 7] == s.argv &&
      DecodeRet(img[HEADER_USIZE_COUNT + 7..], s.kind) == Err(ENOSYS)
    ensures (SYSCALL_PAYLOAD_SIZE + s.stagedSize) % WORD_SIZE == 0
  {
    var img := CommitImage(s);
    HeaderRoundTrip(Header(SYSCALL_PAYLOAD_SIZE + s.stagedSize, Item.Syscall));
    assert img[..HEADER_USIZE_COUNT] == HeaderWords(Header(SYSCALL_PAYLOAD_SIZE + s.stagedSize, Item.Syscall));
    assert img[HEADER_USIZE_COUNT + 7..] == DefaultRetWords();
  }

  /** `collect`: copy the two return words out of the block, decode them,
      and hand the result to the call: pass-through calls return it as it
      is, `clock_gettime` also copies its `timespec` back on success. */
  method Collect(s: Staged, mem: array<Word>) returns (r: Result<RetVal>)
    requires StagedOk(s) && s.at / WORD_SIZE + FRAME_WORDS <= mem.Length
    requires s.inner.TimespecAt? ==> s.inner.slot / WORD_SIZE + 2 <= mem.Length
    modifies if s.inner.TimespecAt? then {s.inner.tp} else {}
    ensures var w := s.at / WORD_SIZE + HEADER_USIZE_COUNT + 7;
      r == DecodeRet(mem[w..w + 2], s.kind)
    ensures s.inner.TimespecAt? ==>
      var at := s.inner.slot / WORD_SIZE;
      (r.Ok? ==> s.inner.tp.tvSec == mem[at] && s.inner.tp.tvNsec == mem[at + 1]) &&
      (r.Err? ==> s.inner.tp.tvSec == old(s.inner.tp.tvSec) && s.inner.tp.tvNsec == old(s.inner.tp.tvNsec))
  {
    var w := s.at / WORD_SIZE + HEADER_USIZE_COUNT + 7;
    var ret := [mem[w], mem[w + 1]];
    assert ret == mem[w..w + 2];
    var res := DecodeRet(ret, s.kind);
    match s.inner {
      case NoOutput =>
        r := res;
      case TimespecAt(slot, tp) =>
        r := ClockGettime.Collect(mem[..], slot / WORD_SIZE, tp, res);
    }
  }
}
