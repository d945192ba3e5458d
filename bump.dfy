/** `BumpAllocator` of mem/allocator/bump.rs: the boot-time allocator that hands out memory from
  * one contiguous range by moving a `next` pointer upwards, counts live allocations and rewinds
  * to the start of the range when the count drops to zero.
  *
  * The allocator is uninitialised while `start` is 0. */
module Bump {
  import opened Wrappers
  import Align

  class BumpAllocator {
    var start: nat
    var end: nat
    var next: nat
    var allocations: nat

    /** What `init`, `alloc` and `dealloc` maintain: `next` never falls below `start`, and once it
      * has moved off `start` it stays strictly below `end`. */
    ghost predicate Valid()
      reads this
    {
      start <= next && (next != start ==> next < end)
    }

    /** `BumpAllocator::new`: all four cells zero, so uninitialised. */
    constructor ()
      ensures start == 0 && end == 0 && next == 0 && allocations == 0 && Valid()
    {
      start := 0;
      end := 0;
      next := 0;
      allocations := 0;
    }

    /** `init`: panics if `start` is set already; otherwise the range becomes `[start, end)` with
      * nothing handed out. The allocation count is left as it was. */
    method Init(start: nat, end: nat) returns (r: Outcome<()>)
      requires Valid()
      modifies this
      ensures old(this.start) != 0 ==> r.Panic? && unchanged(this)
      ensures old(this.start) == 0 ==>
        r == Done(()) && this.start == start && this.end == end && next == start && allocations == old(allocations)
      ensures Valid()
    {
      if this.start != 0 {
        return Panic("Bump allocator already initialised");
      }
      this.start := start;
      this.end := end;
      next := start;
      r := Done(());
    }

    /** `get_size`: the bytes handed out since the last rewind, alignment padding included. */
    function GetSize(): (r: nat)
      reads this
      requires Valid()
      ensures start + r == next
    {
      next - start
    }

    /** What `alloc` returns: a panic while uninitialised; otherwise the start of `next` rounded
      * up to the layout's alignment, unless the block would reach `end` (an exact fit included),
      * when the result is null (`None`). A block it returns lies past every block handed out
      * since the last rewind and below `end`. */
    function AllocResult(layout: Align.Layout): (r: Outcome<Option<nat>>)
      reads this
      requires Align.IsPowerOfTwo(layout.align)
      ensures r.Panic? <==> start == 0
      ensures r.Done? && r.value.None? ==> Align.AlignUp(next, layout.align) + layout.size >= end
      ensures r.Done? && r.value.Some? ==>
        var p := r.value.value;
        p == Align.AlignUp(next, layout.align) && p % layout.align == 0 && next <= p && p + layout.size < end
    {
      if start == 0 then Panic("BumpAllocator not initialised")
      else
        var allocStart := Align.AlignUp(next, layout.align);
        if allocStart + layout.size >= end then Done(None) else Done(Some(allocStart))
    }

    /** `alloc`: returns `AllocResult`; a block moves `next` to its end and counts one more
      * allocation, anything else changes nothing. `next` only grows. */
    method Alloc(layout: Align.Layout) returns (r: Outcome<Option<nat>>)
      requires Valid() && Align.IsPowerOfTwo(layout.align)
      modifies this
      ensures r == old(AllocResult(layout))
      ensures Valid() && start == old(start) && end == old(end) && old(next) <= next
      ensures r.Done? && r.value.Some? ==>
        next == r.value.value + layout.size && allocations == old(allocations) + 1
        && GetSize() == old(GetSize()) + (r.value.value - old(next)) + layout.size
      ensures !(r.Done? && r.value.Some?) ==> unchanged(this)
    {
      if start == 0 {
        return Panic("BumpAllocator not initialised");
      }
      var allocStart := Align.AlignUp(next, layout.align);
      var allocEnd := allocStart + layout.size;
      if allocEnd >= end {
        return Done(None);
      }
      next := allocEnd;
      allocations := allocations + 1;
      r := Done(Some(allocStart));
    }

    /** `dealloc`: panics while uninitialised, and when no allocation is live (the decrement of a
      * zero count, which overflows). Otherwise the count goes down by one, and when it reaches
      * zero `next` rewinds to `start`; the block itself is never reclaimed. */
    method Dealloc(ptr: nat, layout: Align.Layout) returns (r: Outcome<()>)
      requires Valid()
      modifies this
      ensures Valid() && start == old(start) && end == old(end)
      ensures old(start) == 0 ==> r.Panic? && unchanged(this)
      ensures old(start) != 0 && old(allocations) == 0 ==> r.Panic? && unchanged(this)
      ensures old(start) != 0 && old(allocations) > 0 ==>
        r == Done(()) && allocations == old(allocations) - 1 && next == (if allocations == 0 then start else old(next))
      ensures r.Done? && allocations == 0 ==> GetSize() == 0
    {
      if start == 0 {
        return Panic("BumpAllocator not initialised");
      }
      if allocations == 0 {
        return Panic("attempt to subtract with overflow");
      }
      allocations := allocations - 1;
      if allocations == 0 {
        next := start;
      }
      r := Done(());
    }
  }
}
