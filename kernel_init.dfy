/** `VirtualMemoryManagerInner::init` of mem.rs: the order in which the kernel brings up its
  * memory management, and the hand-off of the initial allocation from the boot allocator to the
  * kernel heap.
  *
  * The physical pages of the two root tables and of their subtables, and the TTBR value the
  * bootloader left, are inputs; the TCR_EL1 writes and the stack migration are not modelled. */
module KernelInit {
  import opened Wrappers
  import opened FreeList
  import opened Mem
  import Align
  import Arith
  import Descriptors
  import KernelAllocators
  import RootTables
  import Paging

  /** The heap offset of the hand-off, the bytes the boot allocator used rounded up to a page,
    * is past every boot allocation, and stays within an initial allocation of whole pages
    * that the boot allocator was handed. */
  lemma HandOffOffset(used: nat, allocSize: nat)
    requires allocSize % Descriptors.PAGE_SIZE == 0 && (used == 0 || used < allocSize)
    ensures var offset := Align.AlignUp(used, Descriptors.PAGE_SIZE);
      used <= offset <= allocSize && offset % Descriptors.PAGE_SIZE == 0
      && (offset < allocSize ==> offset + Descriptors.PAGE_SIZE <= allocSize)
  {
    var offset := Align.AlignUp(used, Descriptors.PAGE_SIZE);
    assert offset <= allocSize by {
      if used > 0 {
        Align.AlignUpLeast(used, Descriptors.PAGE_SIZE, allocSize);
      }
    }
    if offset < allocSize {
      assert offset + Descriptors.PAGE_SIZE <= allocSize by {
        var j := allocSize / Descriptors.PAGE_SIZE;
        Arith.RoundDown(allocSize, Descriptors.PAGE_SIZE);
        Arith.DivModUnique(allocSize - 1, Descriptors.PAGE_SIZE, j - 1, Descriptors.PAGE_SIZE - 1);
        Arith.MultipleBelow(allocSize - 1, Descriptors.PAGE_SIZE, offset);
      }
    }
  }

  /** The region handed to the heap can hold a free-list node exactly when the heap start is
    * node-aligned and the boot allocator left at least one page of the allocation. */
  lemma HandOffNodeOk(heapStart: nat, offset: nat, allocSize: nat)
    requires offset % Descriptors.PAGE_SIZE == 0 && offset <= allocSize
    requires offset < allocSize ==> offset + Descriptors.PAGE_SIZE <= allocSize
    ensures NodeOk(Node(heapStart + offset, allocSize - offset)) <==> heapStart % NODE_ALIGN == 0 && offset < allocSize
  {
    Align.MultipleOfDivisor(offset, Descriptors.PAGE_SIZE, NODE_ALIGN);
    Arith.RoundDown(offset, NODE_ALIGN);
    Arith.AddMultipleMod(heapStart, offset / NODE_ALIGN, NODE_ALIGN);
  }

  /** Step 4 of `init`: the switch to the main allocator, whose first region is the part of the
    * initial allocation above what the boot allocator used, at its kernel-heap address; from
    * then on `kernel_alloc` reports heap addresses. The subtraction of the offset from the
    * allocation size never underflows, and the region does not overlap the boot allocations;
    * it is refused (a panic) when the boot allocator left less than a page of it. */
  method HeapHandOff(vmm: VirtualMemoryManagerInner, alloc: KernelAllocators.KernelAllocator, allocSize: nat)
      returns (r: Outcome<()>)
    requires alloc.Valid() && vmm.Valid()
    requires allocSize % Descriptors.PAGE_SIZE == 0 && alloc.boot.end == alloc.boot.start + allocSize
    modifies alloc, alloc.main, vmm
    ensures alloc.Valid() && vmm.Valid() && alloc.useMainAllocator
    ensures old(alloc.useMainAllocator) ==> r.Panic?
    ensures r.Done? ==> vmm.useKernelHeapAddresses
    ensures r.Panic? ==> vmm.useKernelHeapAddresses == old(vmm.useKernelHeapAddresses)
    ensures !old(alloc.useMainAllocator) ==>
      var used := old(alloc.boot.GetSize()); var offset := Align.AlignUp(used, Descriptors.PAGE_SIZE);
      used <= offset <= allocSize
      && (r.Done? <==> vmm.sections.heapStart % NODE_ALIGN == 0 && offset < allocSize)
      && (r.Done? ==> alloc.main.regions == [Node(vmm.sections.heapStart + offset, allocSize - offset)] + old(alloc.main.regions))
  {
    ghost var used0 := alloc.boot.GetSize();
    var used := alloc.UseMainAllocator();
    if used.Panic? {
      return Panic(used.message);
    }
    assert used.value == used0;
    var offset := Align.AlignUp(used.value, Descriptors.PAGE_SIZE);
    HandOffOffset(used.value, allocSize);
    if offset > allocSize {
      return Panic("attempt to subtract with overflow");
    }
    HandOffNodeOk(vmm.sections.heapStart, offset, allocSize);
    var added := alloc.AddHeapRegion(vmm.sections.heapStart + offset, allocSize - offset, false);
    if added.Panic? {
      return Panic(added.message);
    }
    vmm.useKernelHeapAddresses := true;
    r := Done(());
  }

  /** `init`: the memory map feeds the physical allocator; 64 KiB taken from it by hand back
    * the boot allocator at their direct-mapped address and the bootstrap page table; the
    * allocator hand-off moves the rest of those pages to the kernel heap; and the kernel page
    * table proper, built while the bootstrap table is active, becomes the kernel page table.
    * Dropping the bootstrap table at the end restores nothing, as its saved TTBR value was
    * forgotten. `allocStart` and `allocSize` name the initial allocation. */
  method Init(vmm: VirtualMemoryManagerInner, alloc: KernelAllocators.KernelAllocator, entries: seq<MemmapEntry>,
              rootPa: nat, kernelRootPa: nat, tablePa: nat, bootloaderTtbr: nat)
      returns (r: Outcome<()>, ghost allocStart: nat, ghost allocSize: nat)
    requires vmm.Valid() && alloc.Valid() && SectionsOk(vmm.sections)
    requires vmm.physicalAllocator.directMapOffset < Align.WORD
    requires rootPa % Descriptors.PAGE_SIZE == 0 && rootPa < Descriptors.OA_LIMIT
    requires kernelRootPa % Descriptors.PAGE_SIZE == 0 && kernelRootPa < Descriptors.OA_LIMIT
    modifies vmm, vmm.physicalAllocator, vmm.kernelPageTable, alloc, alloc.boot, alloc.main
    ensures vmm.Valid() && alloc.Valid()
    ensures r.Done? ==>
      var dm := vmm.physicalAllocator.directMapOffset; var mm := ScanMemoryMap(entries);
      UsableEntriesOk(entries, dm) && BootstrapCheckAsWritten(mm.highestPhysicalAddress, dm, vmm.sections).Done?
      && allocSize == INITIAL_ALLOC_SIZE
      && vmm.useKernelHeapAddresses && alloc.useMainAllocator
      && vmm.kernelPageTable.data.Some?
      && FillSpec(Paging.NewTable(0).value, dm, mm, vmm.sections, allocStart, allocSize, tablePa).Done?
      && alloc.main.regions != [] && alloc.main.regions[0].addr >= vmm.sections.heapStart
      && End(alloc.main.regions[0]) == vmm.sections.heapStart + allocSize
    ensures r.Done? ==>
      var dm := vmm.physicalAllocator.directMapOffset; var t := vmm.kernelPageTable.data.value;
      t.table == FillSpec(Paging.NewTable(0).value, dm, ScanMemoryMap(entries), vmm.sections, allocStart, allocSize, tablePa).value
      && t.pa == kernelRootPa && t.previousTtbr == Some(RootTables.TtbrValue(rootPa, 0))
  {
    allocStart, allocSize := 0, 0;
    var mm := vmm.InitMemoryMap(entries);
    if mm.Panic? {
      return Panic(mm.message), allocStart, allocSize;
    }
    var initial := vmm.KernelAllocUnchecked(INITIAL_ALLOC_SIZE);
    if initial.Panic? {
      return Panic(initial.message), allocStart, allocSize;
    }
    allocStart, allocSize := initial.value.0, initial.value.1;
    var startVirt := vmm.physicalAllocator.PhysToVirt(initial.value.0);
    var booted := alloc.InitBootAllocator(startVirt, startVirt + initial.value.1);
    if booted.Panic? {
      return Panic(booted.message), allocStart, allocSize;
    }
    var bootstrap := vmm.BootstrapKernelPageTable(mm.value, initial.value.0, initial.value.1, rootPa, tablePa, bootloaderTtbr);
    if bootstrap.Panic? {
      return Panic(bootstrap.message), allocStart, allocSize;
    }
    var handOff := HeapHandOff(vmm, alloc, initial.value.1);
    if handOff.Panic? {
      return Panic(handOff.message), allocStart, allocSize;
    }
    r := vmm.CreateKernelPageTable(mm.value, initial.value.0, initial.value.1, kernelRootPa, tablePa,
                                   RootTables.TtbrValue(rootPa, 0));
  }
}
