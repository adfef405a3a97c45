/** `ClockGettime` (src/v2/src/guest/syscall/clock_gettime.rs): the one
    core syscall with an output buffer in the block. */
module ClockGettime {
  import opened Common
  import opened Libc
  import opened GuestAlloc
  import opened GuestResult

  /** The caller's `timespec`, written in place by `collect`. */
  class Timespec {
    var tvSec: Word
    var tvNsec: Word

    constructor (tvSec: Word, tvNsec: Word)
      ensures this.tvSec == tvSec && this.tvNsec == tvNsec
    {
      this.tvSec, this.tvNsec := tvSec, tvNsec;
    }
  }

  /** `ClockGettime::NUM`. */
  const NUM: Word := SYS_clock_gettime

  /** `stage`: reserve a `timespec` output slot; the registers are the
      clock id and the slot's offset. An allocation failure is returned
      unchanged. */
  method Stage(clockid: CInt, alloc: Allocator) returns (r: Result<(seq<Word>, nat)>)
    requires alloc.Valid()
    modifies alloc
    ensures alloc.Valid()
    ensures r.Ok? <==> AlignUp(old(alloc.used), AlignOf(CTimespec)) + SizeOf(CTimespec) <= alloc.capacity
    ensures r.Ok? ==>
      var slot := r.value.1;
      slot == AlignUp(old(alloc.used), AlignOf(CTimespec)) &&
      alloc.used == slot + SizeOf(CTimespec) &&
      r.value.0 == [WordOfCInt(clockid), slot]
    ensures r.Err? ==> r.errno == ENOMEM && alloc.used == old(alloc.used)
  {
    var slot :- alloc.Allocate(SizeOf(CTimespec), AlignOf(CTimespec));
    r := Ok(([WordOfCInt(clockid), slot], slot));
  }

  /** `collect`: on success copy the block's `timespec` (two words starting
      at word `at`) into `tp`; on failure leave `tp` alone. The result is
      passed back unchanged either way. */
  method Collect(block: seq<Word>, at: nat, tp: Timespec, ret: Result<RetVal>) returns (r: Result<RetVal>)
    requires at + 2 <= |block|
    modifies tp
    ensures r == ret
    ensures ret.Ok? ==> tp.tvSec == block[at] && tp.tvNsec == block[at + 1]
    ensures ret.Err? ==> tp.tvSec == old(tp.tvSec) && tp.tvNsec == old(tp.tvNsec)
  {
    if ret.Ok? {
      tp.tvSec := block[at];
      tp.tvNsec := block[at + 1];
    }
    r := ret;
  }
}
