/** The kernel's virtual memory manager of mem.rs: the high-half layout, the scan of the
  * bootloader's memory map that feeds the physical page allocator, the page-rounded kernel
  * allocation, and the kernel page table with the permissions chosen for each of its regions.
  *
  * The linker-script symbols, the bootloader's memory map and direct-map offset, the physical
  * pages the page tables are placed at and the TTBR value the MMU holds are inputs. */
module Mem {
  import opened Wrappers
  import opened FreeList
  import opened Descriptors
  import opened Paging
  import Align
  import PhysicalPage
  import OnceCells
  import RootTables

  const MIB: nat := 0x10_0000

  /** The 1968 MiB of kernel heap (read-write). */
  const KERNEL_HEAP_START: nat := 0xFFFF_FFFF_8000_0000
  const KERNEL_HEAP_SIZE: nat := 1968 * MIB
  /** The 16 MiB of kernel stack (read-write). */
  const KERNEL_STACK_START: nat := 0xFFFF_FFFF_FB00_0000
  const KERNEL_STACK_SIZE: nat := 16 * MIB
  /** The 64 MiB of kernel code (read-execute) and data (read-write). */
  const KERNEL_BINARY_START: nat := 0xFFFF_FFFF_FC00_0000
  const KERNEL_BINARY_SIZE: nat := 64 * MIB

  /** The heap, stack and binary regions follow each other without gap or overlap, each
    * starting on a page, and the last one ends at the top of the address space. */
  lemma LayoutContiguous()
    ensures KERNEL_HEAP_START + KERNEL_HEAP_SIZE == KERNEL_STACK_START
    ensures KERNEL_STACK_START + KERNEL_STACK_SIZE == KERNEL_BINARY_START
    ensures KERNEL_BINARY_START + KERNEL_BINARY_SIZE - 1 == 0xFFFF_FFFF_FFFF_FFFF
    ensures KERNEL_HEAP_START % PAGE_SIZE == 0 && KERNEL_STACK_START % PAGE_SIZE == 0
    ensures KERNEL_BINARY_START % PAGE_SIZE == 0
  {
  }

  /** The memory `init` takes by hand to bootstrap the kernel page tables: 64 KiB. */
  const INITIAL_ALLOC_SIZE: nat := 64 * 1024

  /** The kinds of memory-map entry of the Limine boot protocol. */
  datatype EntryType =
    | Usable | Reserved | AcpiReclaimable | AcpiNvs | BadMemory
    | BootloaderReclaimable | KernelAndModules | Framebuffer

  /** One entry of the bootloader's memory map: `len` bytes of physical memory from `base`. */
  datatype MemmapEntry = MemmapEntry(base: nat, len: nat, typ: EntryType)

  /** `MemoryMapResult`. */
  datatype MemoryMapResult = MemoryMapResult(highestPhysicalAddress: nat, kernelPhysicalAddress: nat)

  /** The scan of `init_memory_map` over the entries: the end of the entry seen last and the
    * base of the last kernel-and-modules entry, both 0 before any. */
  function ScanMemoryMap(entries: seq<MemmapEntry>): (r: MemoryMapResult)
    ensures entries == [] ==> r == MemoryMapResult(0, 0)
  {
    if entries == [] then MemoryMapResult(0, 0)
    else
      var last := entries[|entries| - 1];
      var before := ScanMemoryMap(entries[..|entries| - 1]);
      MemoryMapResult(last.base + last.len, if last.typ == KernelAndModules then last.base else before.kernelPhysicalAddress)
  }

  /** What the scan finds: the highest physical address is the end of the last entry (the
    * entries come sorted by address), and the kernel's physical address is the base of the
    * last kernel-and-modules entry, or 0 when there is none. */
  lemma {:induction false} ScanMemoryMapFinds(entries: seq<MemmapEntry>)
    ensures var r := ScanMemoryMap(entries);
      (|entries| == 0 ==> r.highestPhysicalAddress == 0)
      && (|entries| > 0 ==> r.highestPhysicalAddress == entries[|entries| - 1].base + entries[|entries| - 1].len)
    ensures (forall i :: 0 <= i < |entries| ==> entries[i].typ != KernelAndModules) ==>
      ScanMemoryMap(entries).kernelPhysicalAddress == 0
    ensures (exists i :: 0 <= i < |entries| && entries[i].typ == KernelAndModules) ==>
      exists i :: 0 <= i < |entries| && entries[i].typ == KernelAndModules
        && ScanMemoryMap(entries).kernelPhysicalAddress == entries[i].base
        && forall j :: i < j < |entries| ==> entries[j].typ != KernelAndModules
    decreases |entries|
  {
    if entries != [] {
      var n := |entries| - 1;
      var init := entries[..n];
      ScanMemoryMapFinds(init);
      assert forall i :: 0 <= i < n ==> init[i] == entries[i];
      if entries[n].typ != KernelAndModules && exists i :: 0 <= i < |entries| && entries[i].typ == KernelAndModules {
        var i :| 0 <= i < |entries| && entries[i].typ == KernelAndModules;
        assert init[i].typ == KernelAndModules;
      }
    }
  }

  /** The free list the physical page allocator holds after the usable entries were pushed one
    * by one at their direct-mapped addresses: the last usable entry first. */
  function UsableNodes(entries: seq<MemmapEntry>, dm: nat): (r: seq<Node>)
    ensures |r| <= |entries|
  {
    if entries == [] then []
    else
      var last := entries[|entries| - 1];
      var before := UsableNodes(entries[..|entries| - 1], dm);
      if last.typ == Usable then [Node(last.base + dm, last.len)] + before else before
  }

  /** The free list holds exactly the usable entries at their direct-mapped addresses, all of
    * them at or above the direct-map offset. */
  lemma {:induction false} UsableNodesAre(entries: seq<MemmapEntry>, dm: nat)
    ensures forall n :: n in UsableNodes(entries, dm) <==>
      exists i :: 0 <= i < |entries| && entries[i].typ == Usable && n == Node(entries[i].base + dm, entries[i].len)
    ensures forall k :: 0 <= k < |UsableNodes(entries, dm)| ==> UsableNodes(entries, dm)[k].addr >= dm
    decreases |entries|
  {
    if entries != [] {
      var n := |entries| - 1;
      var init := entries[..n];
      UsableNodesAre(init, dm);
      assert forall i :: 0 <= i < n ==> init[i] == entries[i];
      forall m | m in UsableNodes(entries, dm)
        ensures exists i :: 0 <= i < |entries| && entries[i].typ == Usable && m == Node(entries[i].base + dm, entries[i].len)
      {
        if m !in UsableNodes(init, dm) {
          assert entries[n].typ == Usable && m == Node(entries[n].base + dm, entries[n].len);
        }
      }
    }
  }

  /** Every usable entry can hold a free-list node at its direct-mapped address, so that
    * `add_free_region` accepts it. */
  predicate UsableEntriesOk(entries: seq<MemmapEntry>, dm: nat) {
    forall i :: 0 <= i < |entries| && entries[i].typ == Usable ==> NodeOk(Node(entries[i].base + dm, entries[i].len))
  }

  /** One more entry of the memory map moves the scan's end past it and, if it is a
    * kernel-and-modules entry, takes its base. */
  lemma ScanStep(entries: seq<MemmapEntry>, i: nat)
    requires i < |entries|
    ensures var e := entries[i]; var before := ScanMemoryMap(entries[..i]);
      ScanMemoryMap(entries[..i + 1]) == MemoryMapResult(e.base + e.len,
        if e.typ == KernelAndModules then e.base else before.kernelPhysicalAddress)
  {
    assert entries[..i + 1][..i] == entries[..i];
  }

  /** One more usable entry goes on the front of the free list; any other changes nothing. */
  lemma UsableNodesStep(entries: seq<MemmapEntry>, i: nat, dm: nat)
    requires i < |entries|
    ensures var e := entries[i];
      UsableNodes(entries[..i + 1], dm) == (if e.typ == Usable then [Node(e.base + dm, e.len)] else []) + UsableNodes(entries[..i], dm)
  {
    assert entries[..i + 1][..i] == entries[..i];
  }

  /** Only a usable entry has to hold a node. */
  lemma UsableEntriesOkStep(entries: seq<MemmapEntry>, i: nat, dm: nat)
    requires i < |entries|
    ensures var e := entries[i];
      UsableEntriesOk(entries[..i + 1], dm) <==>
        UsableEntriesOk(entries[..i], dm) && (e.typ == Usable ==> NodeOk(Node(e.base + dm, e.len)))
  {
    assert forall k :: 0 <= k < i + 1 ==> entries[..i + 1][k] == entries[k];
    assert forall k :: 0 <= k < i ==> entries[..i][k] == entries[k];
  }

  /** One pass of the `init_memory_map` loop over entry `i`, given the scan, the check and the
    * free list built from the entries before it. */
  lemma InitMemoryMapStep(entries: seq<MemmapEntry>, i: nat, dm: nat, start: seq<Node>, regions: seq<Node>, result: MemoryMapResult)
    requires i < |entries|
    requires result == ScanMemoryMap(entries[..i]) && UsableEntriesOk(entries[..i], dm)
    requires regions == UsableNodes(entries[..i], dm) + start
    ensures var e := entries[i];
      ScanMemoryMap(entries[..i + 1])
        == MemoryMapResult(e.base + e.len, if e.typ == KernelAndModules then e.base else result.kernelPhysicalAddress)
      && (UsableEntriesOk(entries[..i + 1], dm) <==> (e.typ == Usable ==> NodeOk(Node(e.base + dm, e.len))))
      && UsableNodes(entries[..i + 1], dm) + start == (if e.typ == Usable then [Node(e.base + dm, e.len)] else []) + regions
  {
    ScanStep(entries, i);
    UsableNodesStep(entries, i, dm);
    UsableEntriesOkStep(entries, i, dm);
  }

  /** An entry that cannot hold a node spoils every longer stretch of the map. */
  lemma UsableEntriesOkPrefix(entries: seq<MemmapEntry>, n: nat, dm: nat)
    requires n <= |entries| && !UsableEntriesOk(entries[..n], dm)
    ensures !UsableEntriesOk(entries, dm)
  {
    var k :| 0 <= k < n && entries[..n][k].typ == Usable && !NodeOk(Node(entries[..n][k].base + dm, entries[..n][k].len));
    assert entries[..n][k] == entries[k];
  }

  /** The addresses the linker script places the kernel at. */
  datatype KernelSections = KernelSections(
    binaryStart: nat, codeStart: nat, codeEnd: nat, dataStart: nat, dataEnd: nat, heapStart: nat)

  /** The arguments of one `map_range` call of `fill_kernel_page_table`: the bounds handed to
    * `VirtualMemoryRegion::new`, the physical start and the attributes. */
  datatype MapRequest = MapRequest(start: nat, end: nat, pa: nat, flags: Attributes)

  /** Both execute-never bits are set. */
  predicate ExecuteNever(a: Attributes) {
    a.pxn && a.uxn
  }

  /** The four mappings of `fill_kernel_page_table`, in order: all of physical memory at the
    * direct map, the kernel code, the kernel data at the kernel's physical base plus the data's
    * offset in the binary (a subtraction that panics if the data lay below the binary), and the
    * initial heap allocation at the start of the heap. No region is both writable and
    * executable: the code alone is executable, and it is read-only. */
  function KernelMappings(dm: nat, mm: MemoryMapResult, s: KernelSections, allocStart: nat, allocSize: nat): (r: Outcome<seq<MapRequest>>)
    ensures r.Panic? <==> s.dataStart < s.binaryStart
    ensures r.Done? ==> |r.value| == 4
    ensures r.Done? ==> r.value[2].pa - r.value[1].pa == s.dataStart - s.binaryStart
  {
    if s.dataStart < s.binaryStart then Panic("attempt to subtract with overflow")
    else
      Done([
        MapRequest(dm, dm + mm.highestPhysicalAddress, 0, Union(DEVICE_NGNRNE, EXECUTE_NEVER)),
        MapRequest(s.codeStart, s.codeEnd, mm.kernelPhysicalAddress, Union(NORMAL, READ_ONLY)),
        MapRequest(s.dataStart, s.dataEnd, mm.kernelPhysicalAddress + (s.dataStart - s.binaryStart), Union(NORMAL, EXECUTE_NEVER)),
        MapRequest(s.heapStart, s.heapStart + allocSize, allocStart, Union(NORMAL, EXECUTE_NEVER))
      ])
  }

  /** Of the kernel's regions only the code is executable, and it alone is read-only; no
    * request sets the valid or the table bit itself. */
  lemma KernelMappingsPermissions(dm: nat, mm: MemoryMapResult, s: KernelSections, allocStart: nat, allocSize: nat)
    requires KernelMappings(dm, mm, s, allocStart, allocSize).Done?
    ensures var ms := KernelMappings(dm, mm, s, allocStart, allocSize).value;
      forall i :: 0 <= i < |ms| ==>
        (ExecuteNever(ms[i].flags) <==> i != 1) && (ms[i].flags.readOnly <==> i == 1)
        && !ms[i].flags.tableOrPage && !ms[i].flags.valid
  {
  }

  /** The starts of all requests are `usize` values. */
  predicate StartsOk(ms: seq<MapRequest>) {
    forall i :: 0 <= i < |ms| ==> ms[i].start < Align.WORD
  }

  /** One `map_range(...).unwrap()` on a root table serving `vaRange`: rounding the end up to a page
    * overflows a `usize` (which panics) when it lies in the last page below 2^64; a range the
    * root table rejects panics at the `unwrap`; otherwise the table is the one
    * `PageTable::map_range` leaves. */
  function MapStep(t: PageTable, vaRange: RootTables.VaRange, m: MapRequest, tablePa: nat): (r: Outcome<PageTable>)
    requires t.level == 0 && m.start < Align.WORD
    ensures r.Done? ==> r.value.level == 0
    ensures m.end + PAGE_SIZE - 1 >= Align.WORD ==> r.Panic?
    ensures m.end + PAGE_SIZE - 1 < Align.WORD
            && RootTables.CheckRange(vaRange, NewRegion(m.start, m.end), Span(0)).Some?
            ==> r.Panic?
  {
    if m.end + PAGE_SIZE - 1 >= Align.WORD then Panic("attempt to add with overflow")
    else
      var range := NewRegion(m.start, m.end);
      if RootTables.CheckRange(vaRange, range, Span(0)).Some? then
        Panic("called `Result::unwrap()` on an `Err` value")
      else MapRangeSpec(t, range, m.pa, m.flags, tablePa)
  }

  /** The requests mapped one after another, stopping at the first panic. */
  function MapAll(t: PageTable, vaRange: RootTables.VaRange, ms: seq<MapRequest>, tablePa: nat): (r: Outcome<PageTable>)
    requires t.level == 0 && StartsOk(ms)
    ensures r.Done? ==> r.value.level == 0
    ensures ms == [] ==> r == Done(t)
    decreases |ms|
  {
    if ms == [] then Done(t)
    else
      match MapStep(t, vaRange, ms[0], tablePa)
      case Panic(msg) => Panic(msg)
      case Done(t') => MapAll(t', vaRange, ms[1..], tablePa)
  }

  /** The table `fill_kernel_page_table` builds from `t`, before it activates it. */
  function FillSpec(t: PageTable, dm: nat, mm: MemoryMapResult, s: KernelSections, allocStart: nat, allocSize: nat, tablePa: nat): (r: Outcome<PageTable>)
    requires t.level == 0 && dm < Align.WORD && SectionsOk(s)
    ensures r.Done? ==> r.value.level == 0
    ensures s.dataStart < s.binaryStart ==> r.Panic?
  {
    match KernelMappings(dm, mm, s, allocStart, allocSize)
    case Panic(msg) => Panic(msg)
    case Done(ms) => MapAll(t, RootTables.Upper, ms, tablePa)
  }

  /** The linker-script addresses are `usize` values. */
  predicate SectionsOk(s: KernelSections) {
    s.binaryStart < Align.WORD && s.codeStart < Align.WORD && s.codeEnd < Align.WORD
    && s.dataStart < Align.WORD && s.dataEnd < Align.WORD && s.heapStart < Align.WORD
  }

  /** The panic shape of the size check: the limit is `top - dm` (a `usize` subtraction that
    * panics when the offset is the larger), and a highest physical address above it panics. */
  function PhysLimitCheck(highest: nat, dm: nat, top: nat): (r: Outcome<()>)
    ensures r.Done? <==> dm <= top && highest <= top - dm
  {
    if top < dm then Panic("attempt to subtract with overflow")
    else if highest > top - dm then Panic("this system has too much addressable memory")
    else Done(())
  }

  /** The size check of `bootstrap_kernel_page_table` as written: the limit is the start of the
    * kernel binary minus the direct-map offset. */
  function BootstrapCheckAsWritten(highest: nat, dm: nat, s: KernelSections): (r: Outcome<()>)
    ensures r.Done? <==> dm + highest <= s.binaryStart
  {
    PhysLimitCheck(highest, dm, s.binaryStart)
  }

  /** The kernel's own layout, as the linker script places it. */
  const LINKED_SECTIONS := KernelSections(KERNEL_BINARY_START, KERNEL_BINARY_START, KERNEL_BINARY_START,
                                          KERNEL_BINARY_START, KERNEL_BINARY_START, KERNEL_HEAP_START)

  /** With Limine's usual direct-map offset and the kernel's own layout, the check as written
    * lets through a memory map whose direct map runs into the kernel heap. */
  lemma BootstrapCheckAdmitsHeapOverlap()
    ensures var dm := 0xFFFF_8000_0000_0000; var highest := 0x7FFF_8000_1000;
      BootstrapCheckAsWritten(highest, dm, LINKED_SECTIONS).Done?
      && LINKED_SECTIONS.heapStart < dm + highest
  {
  }

  /** The size check as the doc comment of `bootstrap_kernel_page_table` (kernel/src/mem.rs:303-307)
    * derives its limit: the direct map of all physical memory must end at or below the start of
    * the kernel heap, so that it overlaps none of the kernel's own regions. Whenever the heap lies below the binary, it is stricter than the check as
    * written. */
  function BootstrapCheck(highest: nat, dm: nat, s: KernelSections): (r: Outcome<()>)
    ensures r.Done? <==> dm + highest <= s.heapStart
    ensures r.Done? && s.heapStart <= s.binaryStart ==> BootstrapCheckAsWritten(highest, dm, s).Done?
  {
    PhysLimitCheck(highest, dm, s.heapStart)
  }

  class VirtualMemoryManagerInner {
    const physicalAllocator: PhysicalPage.PhysicalPageAllocator
    const kernelPageTable: OnceCells.OnceCell<RootTables.RootPageTable>
    var useKernelHeapAddresses: bool
    /** The linker script's placement of the kernel. */
    const sections: KernelSections

    ghost predicate Valid()
      reads this, physicalAllocator
    {
      physicalAllocator.Valid()
    }

    /** `VirtualMemoryManagerInner::new`: an empty physical allocator, no kernel page table yet,
      * and allocations reported at direct-mapped addresses. */
    constructor (directMapOffset: nat, sections: KernelSections)
      ensures Valid() && fresh(physicalAllocator) && fresh(kernelPageTable)
      ensures physicalAllocator.regions == [] && physicalAllocator.directMapOffset == directMapOffset
      ensures kernelPageTable.data == None && !useKernelHeapAddresses && this.sections == sections
    {
      physicalAllocator := new PhysicalPage.PhysicalPageAllocator(directMapOffset);
      kernelPageTable := new OnceCells.OnceCell();
      useKernelHeapAddresses := false;
      this.sections := sections;
    }

    /** `init_memory_map`: every usable entry, in order, goes on the physical allocator's free
      * list at its direct-mapped address; the scan result is `ScanMemoryMap`; any other kind of
      * entry is passed over. The first usable entry that cannot hold a node panics. */
    method InitMemoryMap(entries: seq<MemmapEntry>) returns (r: Outcome<MemoryMapResult>)
      requires Valid()
      modifies physicalAllocator
      ensures Valid()
      ensures r.Done? <==> UsableEntriesOk(entries, physicalAllocator.directMapOffset)
      ensures r.Done? ==>
        r.value == ScanMemoryMap(entries)
        && physicalAllocator.regions == UsableNodes(entries, physicalAllocator.directMapOffset) + old(physicalAllocator.regions)
    {
      var dm := physicalAllocator.directMapOffset;
      ghost var start := physicalAllocator.regions;
      var result := MemoryMapResult(0, 0);
      var i := 0;
      while i < |entries|
        invariant i <= |entries| && Valid()
        invariant result == ScanMemoryMap(entries[..i])
        invariant UsableEntriesOk(entries[..i], dm)
        invariant physicalAllocator.regions == UsableNodes(entries[..i], dm) + start
      {
        var entry := entries[i];
        InitMemoryMapStep(entries, i, dm, start, physicalAllocator.regions, result);
        var added := AddMemmapEntry(entry);
        if added.Panic? {
          UsableEntriesOkPrefix(entries, i + 1, dm);
          return Panic(added.message);
        }
        result := result.(highestPhysicalAddress := entry.base + entry.len);
        if entry.typ == KernelAndModules {
          result := result.(kernelPhysicalAddress := entry.base);
        }
        i := i + 1;
      }
      assert entries[..i] == entries;
      r := Done(result);
    }

    /** The loop body of `init_memory_map` on the free list: a usable entry goes to the front
      * at its direct-mapped address (a panic when it cannot hold a node); any other entry
      * leaves the list alone. */
    method AddMemmapEntry(entry: MemmapEntry) returns (r: Outcome<()>)
      requires Valid()
      modifies physicalAllocator
      ensures Valid()
      ensures r.Done? <==> (entry.typ == Usable ==> NodeOk(Node(entry.base + physicalAllocator.directMapOffset, entry.len)))
      ensures r.Done? ==>
        physicalAllocator.regions
          == (if entry.typ == Usable then [Node(entry.base + physicalAllocator.directMapOffset, entry.len)] else [])
             + old(physicalAllocator.regions)
    {
      if entry.typ == Usable {
        r := physicalAllocator.AddHeapRegion(entry.base, entry.len);
      } else {
        r := Done(());
      }
    }

    /** The virtual address `kernel_alloc` reports for physical address `pa`: in the kernel heap
      * once heap addresses are in use, at the direct map before. */
    function KernelVirtual(pa: nat): (r: nat)
      reads this
      ensures useKernelHeapAddresses ==> r - sections.heapStart == pa
      ensures !useKernelHeapAddresses ==> r - physicalAllocator.directMapOffset == pa
    {
      if useKernelHeapAddresses then pa + sections.heapStart else physicalAllocator.PhysToVirt(pa)
    }

    /** `kernel_alloc_unchecked`: the size rounded up to whole pages, taken first-fit from the
      * physical allocator, and returned with the physical start; it panics when nothing fits. */
    method KernelAllocUnchecked(size: nat) returns (r: Outcome<(nat, nat)>)
      requires Valid()
      modifies physicalAllocator
      ensures Valid()
      ensures var s := Align.AlignUp(size, PAGE_SIZE); var old_ := old(physicalAllocator.regions);
        match FirstFit(old_, s, PAGE_SIZE)
        case None => r.Panic? && physicalAllocator.regions == old_
        case Some(i) =>
          r == Done((AllocFromRegion(old_[i], s, PAGE_SIZE).value - physicalAllocator.directMapOffset, s))
          && physicalAllocator.regions == Without(old_, i)
      ensures r.Done? ==>
        r.value.1 % PAGE_SIZE == 0 && size <= r.value.1 < size + PAGE_SIZE
        && physicalAllocator.PhysToVirt(r.value.0) % PAGE_SIZE == 0
    {
      var s := Align.AlignUp(size, PAGE_SIZE);
      var found := physicalAllocator.Allocate(s);
      if found.None? {
        return Panic("kernel_alloc: failed to allocate");
      }
      r := Done((found.value, s));
    }

    /** What `kernel_alloc` returns, `None` standing for its panics: the kernel page table must
      * be set, and the size rounded up to whole pages is taken first-fit from the physical
      * allocator and reported at `KernelVirtual` of its physical start. */
    function KernelAllocResult(size: nat): (r: Option<(nat, nat)>)
      reads this, physicalAllocator, kernelPageTable
      requires Valid()
      ensures r.Some? ==> kernelPageTable.data.Some?
      ensures r.Some? <==> kernelPageTable.data.Some? && FirstFit(physicalAllocator.regions, Align.AlignUp(size, PAGE_SIZE), PAGE_SIZE).Some?
      ensures r.Some? ==> r.value.1 % PAGE_SIZE == 0 && size <= r.value.1 < size + PAGE_SIZE
    {
      var s := Align.AlignUp(size, PAGE_SIZE);
      if kernelPageTable.data.None? then None
      else
        match FirstFit(physicalAllocator.regions, s, PAGE_SIZE)
        case None => None
        case Some(i) =>
          Some((KernelVirtual(AllocFromRegion(physicalAllocator.regions[i], s, PAGE_SIZE).value - physicalAllocator.directMapOffset), s))
    }

    /** `kernel_alloc`: panics while the kernel page table is not set; otherwise it allocates as
      * `kernel_alloc_unchecked` does and reports the start as `KernelVirtual` of it. */
    method KernelAlloc(size: nat) returns (r: Outcome<(nat, nat)>)
      requires Valid()
      modifies physicalAllocator
      ensures Valid()
      ensures r.Panic? <==> old(KernelAllocResult(size)).None?
      ensures r.Done? ==> r.value == old(KernelAllocResult(size)).value
      ensures r.Panic? ==> physicalAllocator.regions == old(physicalAllocator.regions)
      ensures r.Done? ==>
        var i := FirstFit(old(physicalAllocator.regions), Align.AlignUp(size, PAGE_SIZE), PAGE_SIZE).value;
        physicalAllocator.regions == Without(old(physicalAllocator.regions), i)
    {
      if kernelPageTable.Get().None? {
        return Panic("kernel_alloc called before kernel page table initialised");
      }
      var a := KernelAllocUnchecked(size);
      if a.Panic? {
        return Panic(a.message);
      }
      r := Done((KernelVirtual(a.value.0), a.value.1));
    }

    /** `bootstrap_kernel_page_table`, with its size check as written (`BootstrapCheckAsWritten`,
      * the limit measured from the kernel binary): a new upper-half root table at the physical
      * page `rootPa`, filled and activated, that then forgets the TTBR value it replaced, so that
      * dropping it later restores nothing. */
    method BootstrapKernelPageTable(mm: MemoryMapResult, allocStart: nat, allocSize: nat, rootPa: nat,
                                    tablePa: nat, current: nat) returns (r: Outcome<RootTables.RootPageTable>)
      requires SectionsOk(sections) && physicalAllocator.directMapOffset < Align.WORD
      requires rootPa % PAGE_SIZE == 0 && rootPa < OA_LIMIT
      ensures var dm := physicalAllocator.directMapOffset;
        var f := FillSpec(NewTable(0).value, dm, mm, sections, allocStart, allocSize, tablePa);
        (BootstrapCheckAsWritten(mm.highestPhysicalAddress, dm, sections).Panic? ==> r.Panic?)
        && (f.Panic? ==> r.Panic?)
        && (BootstrapCheckAsWritten(mm.highestPhysicalAddress, dm, sections).Done? && f.Done? ==>
              r.Done? && fresh(r.value) && r.value.table == f.value && r.value.previousTtbr == None
              && r.value.pa == rootPa && r.value.vaRange == RootTables.Upper && r.value.asid == 0)
    {
      var dm := physicalAllocator.directMapOffset;
      var check := BootstrapCheckAsWritten(mm.highestPhysicalAddress, dm, sections);
      if check.Panic? {
        return Panic(check.message);
      }
      var table := new RootTables.RootPageTable(0, RootTables.Upper, rootPa);
      var filled := FillKernelPageTable(table, mm, allocStart, allocSize, tablePa, current);
      if filled.Panic? {
        return Panic(filled.message);
      }
      table.InvalidatePreviousTtbr();
      r := Done(table);
    }

    /** `create_kernel_page_table`: a new upper-half root table at the physical page `rootPa`,
      * filled and activated, becomes the kernel page table; setting it panics if one is set
      * already. */
    method CreateKernelPageTable(mm: MemoryMapResult, allocStart: nat, allocSize: nat, rootPa: nat,
                                 tablePa: nat, current: nat) returns (r: Outcome<()>)
      requires SectionsOk(sections) && physicalAllocator.directMapOffset < Align.WORD
      requires rootPa % PAGE_SIZE == 0 && rootPa < OA_LIMIT
      modifies kernelPageTable
      ensures var f := FillSpec(NewTable(0).value, physicalAllocator.directMapOffset, mm, sections, allocStart, allocSize, tablePa);
        (f.Panic? ==> r.Panic?)
        && (f.Done? && old(kernelPageTable.data).Some? ==> r.Panic? && kernelPageTable.data == old(kernelPageTable.data))
        && (f.Done? && old(kernelPageTable.data).None? ==>
              r == Done(()) && kernelPageTable.data.Some?
              && var t := kernelPageTable.data.value;
                 t.table == f.value && t.previousTtbr == Some(current) && t.pa == rootPa
                 && t.vaRange == RootTables.Upper && t.asid == 0)
    {
      var table := new RootTables.RootPageTable(0, RootTables.Upper, rootPa);
      var filled := FillKernelPageTable(table, mm, allocStart, allocSize, tablePa, current);
      if filled.Panic? {
        return Panic(filled.message);
      }
      r := kernelPageTable.Set(table);
    }

    /** The four `map_range(...).unwrap()` calls of `fill_kernel_page_table` and the activation
      * of the table, with `current` the TTBR value it replaces. It returns the value written to
      * the TTBR. */
    method FillKernelPageTable(table: RootTables.RootPageTable, mm: MemoryMapResult, allocStart: nat, allocSize: nat,
                               tablePa: nat, current: nat) returns (r: Outcome<nat>)
      requires table.Valid() && table.vaRange == RootTables.Upper && SectionsOk(sections)
      requires physicalAllocator.directMapOffset < Align.WORD
      modifies table
      ensures var f := FillSpec(old(table.table), physicalAllocator.directMapOffset, mm, sections, allocStart, allocSize, tablePa);
        (f.Panic? ==> r.Panic?)
        && (f.Done? && old(table.previousTtbr).Some? ==> r.Panic?)
        && (f.Done? && old(table.previousTtbr).None? ==>
              r == Done(RootTables.TtbrValue(table.pa, table.asid)) && table.table == f.value && table.previousTtbr == Some(current))
    {
      var dm := physicalAllocator.directMapOffset;
      ghost var ms := KernelMappings(dm, mm, sections, allocStart, allocSize);
      ghost var t0 := table.table;
      var directMap := MapRequest(dm, dm + mm.highestPhysicalAddress, 0, Union(DEVICE_NGNRNE, EXECUTE_NEVER));
      var code := MapRequest(sections.codeStart, sections.codeEnd, mm.kernelPhysicalAddress, Union(NORMAL, READ_ONLY));
      var e := MapPair(table, directMap, code, tablePa);
      if e.Panic? {
        if ms.Done? {
          assert ms.value == [directMap, code] + ms.value[2..];
          MapAllSplit(t0, RootTables.Upper, [directMap, code], ms.value[2..], tablePa);
        }
        return Panic(e.message);
      }
      if sections.dataStart < sections.binaryStart {
        return Panic("attempt to subtract with overflow");
      }
      ghost var t2 := table.table;
      var dataPa := mm.kernelPhysicalAddress + (sections.dataStart - sections.binaryStart);
      var data := MapRequest(sections.dataStart, sections.dataEnd, dataPa, Union(NORMAL, EXECUTE_NEVER));
      var heap := MapRequest(sections.heapStart, sections.heapStart + allocSize, allocStart, Union(NORMAL, EXECUTE_NEVER));
      e := MapPair(table, data, heap, tablePa);
      assert ms.value == [directMap, code] + [data, heap];
      MapAllSplit(t0, RootTables.Upper, [directMap, code], [data, heap], tablePa);
      if e.Panic? {
        return Panic(e.message);
      }
      r := table.Activate(current);
    }
  }

  /** `MapAll` on a non-empty list is the first step followed by the rest. */
  lemma MapAllUnfold(t: PageTable, vaRange: RootTables.VaRange, ms: seq<MapRequest>, tablePa: nat)
    requires t.level == 0 && StartsOk(ms) && ms != []
    ensures StartsOk(ms[1..])
    ensures MapStep(t, vaRange, ms[0], tablePa).Panic? ==> MapAll(t, vaRange, ms, tablePa).Panic?
    ensures MapStep(t, vaRange, ms[0], tablePa).Done? ==>
      MapAll(t, vaRange, ms, tablePa) == MapAll(MapStep(t, vaRange, ms[0], tablePa).value, vaRange, ms[1..], tablePa)
  {
  }

  /** Mapping one more request after a list is mapping the list, then that request. */
  lemma {:induction false} MapAllAppend(t: PageTable, vaRange: RootTables.VaRange, ms: seq<MapRequest>, m: MapRequest, tablePa: nat)
    requires t.level == 0 && StartsOk(ms) && m.start < Align.WORD
    ensures StartsOk(ms + [m])
    ensures MapAll(t, vaRange, ms + [m], tablePa)
            == match MapAll(t, vaRange, ms, tablePa)
               case Panic(msg) => Panic(msg)
               case Done(t') => MapStep(t', vaRange, m, tablePa)
    decreases |ms|
  {
    assert forall i :: 0 <= i < |ms + [m]| ==> (ms + [m])[i] == if i < |ms| then ms[i] else m;
    if ms != [] {
      assert (ms + [m])[0] == ms[0] && (ms + [m])[1..] == ms[1..] + [m];
      MapAllUnfold(t, vaRange, ms, tablePa);
      MapAllUnfold(t, vaRange, ms + [m], tablePa);
      var step := MapStep(t, vaRange, ms[0], tablePa);
      if step.Done? {
        MapAllAppend(step.value, vaRange, ms[1..], m, tablePa);
      }
    } else {
      assert ms + [m] == [m];
      MapAllUnfold(t, vaRange, [m], tablePa);
    }
  }

  /** Mapping two lists one after the other is mapping them joined. */
  lemma {:induction false} MapAllSplit(t: PageTable, vaRange: RootTables.VaRange, a: seq<MapRequest>, b: seq<MapRequest>, tablePa: nat)
    requires t.level == 0 && StartsOk(a) && StartsOk(b)
    ensures StartsOk(a + b)
    ensures MapAll(t, vaRange, a + b, tablePa)
            == match MapAll(t, vaRange, a, tablePa)
               case Panic(msg) => Panic(msg)
               case Done(t') => MapAll(t', vaRange, b, tablePa)
    decreases |a|
  {
    assert forall i :: 0 <= i < |a + b| ==> (a + b)[i] == if i < |a| then a[i] else b[i - |a|];
    if a != [] {
      assert (a + b)[0] == a[0] && (a + b)[1..] == a[1..] + b;
      MapAllUnfold(t, vaRange, a, tablePa);
      MapAllUnfold(t, vaRange, a + b, tablePa);
      var step := MapStep(t, vaRange, a[0], tablePa);
      if step.Done? {
        MapAllSplit(step.value, vaRange, a[1..], b, tablePa);
      }
    } else {
      assert a + b == b;
    }
  }

  /** Two `map_range(...).unwrap()` calls on the table, one after the other. */
  method MapPair(table: RootTables.RootPageTable, a: MapRequest, b: MapRequest, tablePa: nat) returns (r: Outcome<()>)
    requires table.table.level == 0 && a.start < Align.WORD && b.start < Align.WORD
    modifies table
    ensures table.previousTtbr == old(table.previousTtbr) && table.table.level == 0
    ensures MapAll(old(table.table), table.vaRange, [a, b], tablePa).Panic? ==> r.Panic?
    ensures MapAll(old(table.table), table.vaRange, [a, b], tablePa).Done? ==>
      r == Done(()) && table.table == MapAll(old(table.table), table.vaRange, [a, b], tablePa).value
  {
    ghost var t0 := table.table;
    MapAllUnfold(t0, table.vaRange, [a, b], tablePa);
    assert [a, b][1..] == [b];
    r := MapOne(table, a, tablePa);
    if r.Panic? {
      return;
    }
    MapAllUnfold(table.table, table.vaRange, [b], tablePa);
    r := MapOne(table, b, tablePa);
  }

  /** One `map_range(...).unwrap()` on the table, as `MapStep` describes it. */
  method MapOne(table: RootTables.RootPageTable, m: MapRequest, tablePa: nat) returns (r: Outcome<()>)
    requires table.table.level == 0 && m.start < Align.WORD
    modifies table
    ensures table.previousTtbr == old(table.previousTtbr) && table.table.level == 0
    ensures MapStep(old(table.table), table.vaRange, m, tablePa).Panic? ==> r.Panic?
    ensures MapStep(old(table.table), table.vaRange, m, tablePa).Done? ==>
      r == Done(()) && table.table == MapStep(old(table.table), table.vaRange, m, tablePa).value
  {
    if m.end + PAGE_SIZE - 1 >= Align.WORD {
      return Panic("attempt to add with overflow");
    }
    var range := NewRegion(m.start, m.end);
    var e := table.MapRange(range, m.pa, m.flags, tablePa);
    if e.Panic? {
      return Panic(e.message);
    }
    if e.value.Err? {
      return Panic("called `Result::unwrap()` on an `Err` value");
    }
    r := Done(());
  }
}
