/** The guest's block allocator, reduced to what the staging code relies
    on: a bump pointer over a block of fixed capacity that hands out
    aligned byte offsets and refuses, without moving, when the block is
    full. */
module GuestAlloc {
  import opened Common
  import opened Libc

  /** The alignments of the types the guest stages (`u8` up to `usize`). */
  predicate ValidAlign(align: nat)
  {
    align == 1 || align == 2 || align == 4 || align == 8
  }

  /** The least multiple of `align` that is at least `n`. */
  function AlignUp(n: nat, align: nat): (r: nat)
    requires ValidAlign(align)
    ensures r % align == 0 && n <= r < n + align
    ensures n % align == 0 ==> r == n
  {
    if align == 1 then n
    else if align == 2 then RoundUp2(n)
    else if align == 4 then RoundUp4(n)
    else RoundUp8(n)
  }

  function RoundUp2(n: nat): (r: nat)
    ensures r % 2 == 0 && n <= r < n + 2 && (n % 2 == 0 ==> r == n)
  {
    if n % 2 == 0 then n else n + 1
  }

  function RoundUp4(n: nat): (r: nat)
    ensures r % 4 == 0 && n <= r < n + 4 && (n % 4 == 0 ==> r == n)
  {
    if n % 4 == 0 then n else n + (4 - n % 4)
  }

  function RoundUp8(n: nat): (r: nat)
    ensures r % 8 == 0 && n <= r < n + 8 && (n % 8 == 0 ==> r == n)
  {
    if n % 8 == 0 then n else n + (8 - n % 8)
  }

  /** No multiple of `align` lies between `n` and `AlignUp(n, align)`. */
  lemma AlignUpLeast(n: nat, align: nat, m: nat)
    requires ValidAlign(align) && m % align == 0 && n <= m
    ensures AlignUp(n, align) <= m
  {
  }

  /** The allocator of one block. */
  class Allocator {
    const capacity: nat
    var used: nat

    /** A block is addressed by `usize` offsets. */
    ghost predicate Valid()
      reads this
    {
      used <= capacity < USIZE_LIMIT
    }

    constructor (capacity: nat)
      requires capacity < USIZE_LIMIT
      ensures Valid() && this.capacity == capacity && used == 0
    {
      this.capacity := capacity;
      used := 0;
    }

    /** Reserve `size` bytes aligned to `align`; `ENOMEM` when they do not fit. */
    method Allocate(size: nat, align: nat) returns (r: Result<nat>)
      requires Valid() && ValidAlign(align)
      modifies this
      ensures Valid()
      ensures r.Ok? <==> AlignUp(old(used), align) + size <= capacity
      ensures r.Ok? ==> r.value == AlignUp(old(used), align) && used == r.value + size
      ensures r.Err? ==> r.errno == ENOMEM && used == old(used)
    {
      var start := AlignUp(used, align);
      if start + size > capacity {
        return Err(ENOMEM);
      }
      used := start + size;
      r := Ok(start);
    }
  }
}
