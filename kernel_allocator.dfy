/** `KernelAllocator` of mem/allocator.rs, the kernel's global allocator: a bump allocator
  * serves the early boot, then a linked-list allocator takes over, and when that runs dry it
  * asks the virtual memory manager for more pages and tries once more.
  *
  * The `EARLY_INIT_COMPLETE` flag is an input. */
module KernelAllocators {
  import opened Wrappers
  import opened Align
  import opened FreeList
  import Bump
  import LinkedList
  import Mem
  import Descriptors

  class KernelAllocator {
    const boot: Bump.BumpAllocator
    const main: LinkedList.LinkedListAllocator
    var useMainAllocator: bool

    ghost predicate Valid()
      reads this, boot, main
    {
      boot.Valid() && main.Valid()
    }

    /** `KernelAllocator::new`: an uninitialised boot allocator in use and an empty main
      * allocator. */
    constructor ()
      ensures Valid() && fresh(boot) && fresh(main) && !useMainAllocator
      ensures boot.start == 0 && boot.end == 0 && boot.next == 0 && boot.allocations == 0
      ensures main.regions == []
    {
      boot := new Bump.BumpAllocator();
      main := new LinkedList.LinkedListAllocator();
      useMainAllocator := false;
    }

    /** `add_heap_region`: panics once early initialisation is complete; otherwise the region
      * goes to the front of the main allocator's free list, as its `add_heap_region` does. The
      * boot allocator and the switch are untouched. */
    method AddHeapRegion(heapStart: nat, heapSize: nat, earlyInitComplete: bool) returns (r: Outcome<()>)
      requires Valid()
      modifies main
      ensures Valid()
      ensures earlyInitComplete ==> r.Panic? && main.regions == old(main.regions)
      ensures !earlyInitComplete ==> (r.Done? <==> NodeOk(Node(heapStart, heapSize)))
      ensures r.Done? ==> main.regions == [Node(heapStart, heapSize)] + old(main.regions)
      ensures r.Panic? ==> main.regions == old(main.regions)
    {
      if earlyInitComplete {
        return Panic("cannot manually add heap region after kernel has booted");
      }
      r := main.AddHeapRegion(heapStart, heapSize);
    }

    /** `init_boot_allocator`: `init` of the boot allocator on `[start, end)`. */
    method InitBootAllocator(start: nat, end: nat) returns (r: Outcome<()>)
      requires Valid()
      modifies boot
      ensures Valid()
      ensures old(boot.start) != 0 ==> r.Panic? && unchanged(boot)
      ensures old(boot.start) == 0 ==>
        r == Done(()) && boot.start == start && boot.end == end && boot.next == start
        && boot.allocations == old(boot.allocations)
    {
      r := boot.Init(start, end);
    }

    /** `use_main_allocator`: panics if the switch was made already; otherwise it makes it and
      * returns the bytes the boot allocator handed out since its last rewind. */
    method UseMainAllocator() returns (r: Outcome<nat>)
      requires Valid()
      modifies this
      ensures useMainAllocator
      ensures old(useMainAllocator) ==> r.Panic?
      ensures !old(useMainAllocator) ==> r == Done(boot.GetSize()) && boot.start + r.value == boot.next
    {
      if useMainAllocator {
        return Panic("allocator already switched");
      }
      useMainAllocator := true;
      r := Done(boot.GetSize());
    }

    /** `GlobalAlloc::alloc`. Before the switch the boot allocator serves the request. After
      * it the main allocator does; if it has no room, the virtual memory manager is asked for
      * `pad_to_align(layout).size()` bytes of pages (`kernel_alloc`, which panics when it
      * cannot serve them), the new region goes to the front of the main allocator's list, and
      * the main allocator is asked exactly once more. */
    method Alloc(layout: Layout, vmm: Mem.VirtualMemoryManagerInner) returns (r: Outcome<Option<nat>>)
      requires Valid() && ValidLayout(layout) && vmm.Valid()
      modifies boot, main, vmm.physicalAllocator
      ensures Valid() && vmm.Valid()
      ensures !useMainAllocator ==>
        r == old(boot.AllocResult(layout)) && main.regions == old(main.regions)
        && vmm.physicalAllocator.regions == old(vmm.physicalAllocator.regions)
      ensures useMainAllocator ==>
        unchanged(boot)
        && match LinkedList.AllocSpec(old(main.regions), layout)
           case Panic(_) => r.Panic?
           case Done(first) =>
             if first.0.Some? then
               r == Done(first.0) && main.regions == first.1
               && vmm.physicalAllocator.regions == old(vmm.physicalAllocator.regions)
             else
               match old(vmm.KernelAllocResult(PadToAlign(layout).size))
               case None =>
                 r.Panic? && vmm.physicalAllocator.regions == old(vmm.physicalAllocator.regions)
               case Some(block) =>
                 var pages := old(vmm.physicalAllocator.regions);
                 var i := FirstFit(pages, Align.AlignUp(PadToAlign(layout).size, Descriptors.PAGE_SIZE), Descriptors.PAGE_SIZE).value;
                 vmm.physicalAllocator.regions == Without(pages, i)
                 && (!NodeOk(Node(block.0, block.1)) ==> r.Panic?)
                 && (NodeOk(Node(block.0, block.1)) ==>
                       var again := LinkedList.AllocSpec([Node(block.0, block.1)] + first.1, layout);
                       again.Done? && r == Done(again.value.0) && main.regions == again.value.1)
    {
      if !useMainAllocator {
        r := boot.Alloc(layout);
        return;
      }
      ghost var before := main.regions;
      r := main.Alloc(layout);
      if r.Panic? || r.value.Some? {
        return;
      }
      ghost var expected := vmm.KernelAllocResult(PadToAlign(layout).size);
      var block := vmm.KernelAlloc(PadToAlign(layout).size);
      if block.Panic? {
        return Panic(block.message);
      }
      assert block.value == expected.value;
      var added := main.AddHeapRegion(block.value.0, block.value.1);
      if added.Panic? {
        return Panic(added.message);
      }
      assert LinkedList.SizeAlign(layout).Done?;
      r := main.Alloc(layout);
    }

    /** `GlobalAlloc::dealloc`: before the switch the boot allocator takes the block back,
      * after it the main allocator does. */
    method Dealloc(ptr: nat, layout: Layout) returns (r: Outcome<()>)
      requires Valid() && ValidLayout(layout)
      modifies boot, main
      ensures Valid()
      ensures !useMainAllocator ==>
        main.regions == old(main.regions)
        && (old(boot.start) == 0 || old(boot.allocations) == 0 ==> r.Panic? && unchanged(boot))
        && (old(boot.start) != 0 && old(boot.allocations) > 0 ==>
              r == Done(()) && boot.allocations == old(boot.allocations) - 1
              && boot.next == (if boot.allocations == 0 then boot.start else old(boot.next)))
      ensures useMainAllocator ==>
        unchanged(boot)
        && (LinkedList.SizeAlign(layout).Panic? ==> r.Panic? && main.regions == old(main.regions))
        && (LinkedList.SizeAlign(layout).Done? ==>
              (r.Done? <==> ptr % NODE_ALIGN == 0)
              && (r.Done? ==> main.regions == [Node(ptr, LinkedList.SizeAlign(layout).value.0)] + old(main.regions))
              && (r.Panic? ==> main.regions == old(main.regions)))
    {
      if useMainAllocator {
        r := main.Dealloc(ptr, layout);
      } else {
        r := boot.Dealloc(ptr, layout);
      }
    }
  }
}
