# Flow aarch64 kernel core in Dafny

This project models the memory-management core of the Flow aarch64 kernel, plus the small helpers around it, and proves properties of the model. It covers:

- **Allocators.**
  - `align_down` and `align_up`.
  - The first-fit linked-list heap allocator.
  - The page-aligned physical page allocator.
  - The bump boot allocator.
  - The `KernelAllocator` policy. It serves from the boot allocator until the switch, then from the main allocator, which it refills from the virtual memory manager.
- **Stage-1 translation tables** (VMSAv8-64, 4 KiB granule, four levels).
  - Granule arithmetic and region rounding.
  - The chunk iterator.
  - Descriptor bit packing.
  - The recursive `map_range`, with block and table descriptors and the splitting of an existing block.
  - The root table's range checks and its TTBR bookkeeping.
- **The virtual memory manager.**
  - The scan of the bootloader memory map.
  - Page-rounded kernel allocation and the addresses it reports.
  - The four kernel mappings and their permissions.
  - The bootstrap size check, the heap hand-off and the layout constants.
- **The test-executable loader.**
  - PID allocation.
  - The `PT_LOAD` size fold.
  - The translation of ELF `p_flags` to page attributes and to a flag string.
  - The physical placement of the segments and the copy of their file bytes.
- **Timer conversions.** Counter ↔ `Duration` conversion and wrapping counter arithmetic.
- **Helpers.** `size_human_readable_ceil`, the 32-slot driver registry with its init phases, `OnceCell` and `BoundedUsize`.

Modelling choices:

- A panic is the `Panic(msg)` case of an `Outcome`, so every checked panic of the source is a result the contracts speak about.
- Addresses are `nat`s. A `usize` overflow is modelled where the source checks it, or where it aborts the operation.
- Free lists are sequences of `(addr, size)` nodes, held in fields of classes whose methods reassign them.
- A translation table is a value: its level, a map from index to 64-bit descriptor word, and a map from index to subtable. `Translate` reads the whole tree as a function from a virtual address to an output address and attributes.
- Descriptors are 64-bit words, held as sequences of 64 booleans. `Attributes` is a record with one boolean per defined attribute bit.

Each file is one module:

| file | module |
|---|---|
| arith.dfy | `Arith` |
| wrappers.dfy | `Wrappers` |
| align.dfy | `Align` |
| descriptor.dfy | `Descriptors` |
| paging.dfy | `Paging` |
| paging_proofs.dfy | `PagingProofs` |
| root_table.dfy | `RootTables` |
| bump.dfy | `Bump` |
| free_list.dfy | `FreeList` |
| linked_list.dfy | `LinkedList` |
| physical_page.dfy | `PhysicalPage` |
| once_cell.dfy | `OnceCells` |
| mem.dfy | `Mem` |
| kernel_table.dfy | `KernelTables` |
| kernel_allocator.dfy | `KernelAllocators` |
| kernel_init.dfy | `KernelInit` |
| exec.dfy | `Exec` |
| time.dfy | `Time` |
| util.dfy | `Util` |
| driver_common.dfy | `DriverCommon` |
| driver_manager.dfy | `Drivers` |

`Arith` holds arithmetic facts used by the proofs. `Wrappers` holds `Option`, `Result` and `Outcome`.

## Model

| member | source | states |
|---|---|---|
| Align.AlignDown | kernel/src/mem/allocator.rs:32-42 | For a power-of-two alignment: a multiple of `align`, not above `size`, and above `size - align`. An alignment of 0 returns `size`. Any other alignment panics. |
| Align.AlignDownGreatest | kernel/src/mem/allocator.rs:32-37 | No multiple of `align` lies strictly between `align_down(size, align)` and `size`, so the result is the greatest such multiple. |
| Align.AlignUp | kernel/src/mem/allocator.rs:44-49 | A multiple of the power-of-two `align`, at or above `addr` and below `addr + align`. |
| Align.AlignUpLeast | kernel/src/mem/allocator.rs:44-49 | No multiple of `align` lies in `[addr, align_up(addr, align))`, so the result is the least such multiple. |
| Align.AlignUpToDivisor | kernel/src/mem/allocator.rs:47-49 | `align_up` is idempotent. Aligning up to a smaller power of two after a larger one changes nothing. |
| Align.FromSizeAlign | kernel/src/mem/allocator/linked_list.rs:170-177 | `Layout::from_size_align` succeeds exactly for a power-of-two alignment whose padded size fits `isize::MAX`. |
| Align.AlignTo | kernel/src/mem/allocator/linked_list.rs:170-173 | `Layout::align_to` keeps the size and takes the larger alignment. It fails exactly when the layout with that alignment is not valid; for a valid layout, exactly when the size rounded up to it passes `isize::MAX`. |
| Align.PadToAlign | kernel/src/mem/allocator/linked_list.rs:173-175 | `Layout::pad_to_align` rounds the size up to a multiple of the alignment and keeps the alignment. |
| FreeList.AlignedForNode | kernel/src/mem/allocator/linked_list.rs:34 | The `align_up(addr, 8) == addr` assertion holds exactly for 8-aligned addresses. |
| FreeList.AllocFromRegion | kernel/src/mem/allocator/linked_list.rs:77-95 | The start is the region start rounded up to `align`. A request is refused when start + size overflows a `usize`, passes the region end, or leaves a tail of 1 to 15 bytes. An exact fit, or a tail of at least one node, is accepted. |
| FreeList.AllocFromRegionLowest | kernel/src/mem/allocator/linked_list.rs:77-80 | An accepted start is the lowest `align`-aligned address of the region. |
| FreeList.FirstFit | kernel/src/mem/allocator/linked_list.rs:56-73 | The index of the first region, in list order, that `alloc_from_region` accepts. Every region before it is refused. `None` means that no region fits. |
| FreeList.Without | kernel/src/mem/allocator/linked_list.rs:62-68 | Unlinking node `i` keeps every other node of the list, in order. |
| LinkedList.SizeAlign | kernel/src/mem/allocator/linked_list.rs:170-177 | The alignment is at least 8. The size is at least 16 and at least the layout's size. A non-zero padded size is a multiple of the alignment. It panics exactly when `align_to` fails. |
| LinkedList.SizeAlignIsPadded | kernel/src/mem/allocator/linked_list.rs:170-177 | `size_align` is `align_to(8)`, then `pad_to_align`, then raising the size to 16. |
| LinkedList.Remainder | kernel/src/mem/allocator/linked_list.rs:116-120 | The tail above the block goes back as one region when it is not empty, and nothing goes back otherwise. |
| LinkedList.TailNodeOk | kernel/src/mem/allocator/linked_list.rs:86-94 | The tail that `alloc` puts back can always hold a node. |
| LinkedList.FitSpec | kernel/src/mem/allocator/linked_list.rs:115-125 | The allocation gives no block exactly when first fit finds no region. |
| LinkedList.FitSpecFound | kernel/src/mem/allocator/linked_list.rs:115-122 | When first fit picks region `i`, that region accepts the request. The block is its accepted start. The tail above the block goes back in front of the other regions, which keep their order. |
| LinkedList.FitSpecCorrect | kernel/src/mem/allocator/linked_list.rs:113-126 | For a padded size and an alignment of at least 8: with no block, the list is unchanged and no region fits. A returned block is aligned and lies within one region of the old list. Every new region can still hold its node. |
| LinkedList.AllocSpec | kernel/src/mem/allocator/linked_list.rs:113-114 | `alloc` panics exactly when `size_align` panics. |
| LinkedList.AllocSpecCorrect | kernel/src/mem/allocator/linked_list.rs:113-126 | `alloc` returns null exactly when no region fits, and then leaves the list unchanged. A returned block is aligned as the layout asks and lies within one region of the old list. Every region of the new list can hold its node. |
| LinkedList.LinkedListAllocator.constructor | kernel/src/mem/allocator/linked_list.rs:22-26 | The list starts empty. |
| LinkedList.LinkedListAllocator.AddFreeRegion | kernel/src/mem/allocator/linked_list.rs:33-42 | It panics unless the address is node-aligned and the size holds a node. Otherwise the region goes to the front of the list and the others keep their order. |
| LinkedList.LinkedListAllocator.AddHeapRegion | kernel/src/mem/allocator/linked_list.rs:29-31 | The same as `add_free_region` on the heap region. |
| LinkedList.LinkedListAllocator.FindRegion | kernel/src/mem/allocator/linked_list.rs:56-73 | First fit: it unlinks the `FirstFit` region and returns it with its accepted start. The other regions stay in order. With no fit, nothing changes. |
| LinkedList.LinkedListAllocator.Allocate | kernel/src/mem/allocator/linked_list.rs:46-52 | The start that `find_region` accepted, and the list that `find_region` leaves. |
| LinkedList.LinkedListAllocator.Alloc | kernel/src/mem/allocator/linked_list.rs:113-126 | The new list and the result are those of `AllocSpec`. The block is aligned as the layout asks. |
| LinkedList.LinkedListAllocator.AllocWidened | kernel/src/mem/allocator/linked_list.rs:115-125 | On the padded size and alignment, the result and the new list are those of `FitSpec` on the old list. Every region can still hold its node. |
| LinkedList.LinkedListAllocator.Dealloc | kernel/src/mem/allocator/linked_list.rs:128-131 | Exactly one region, `(ptr, size_align(layout).0)`, goes to the front of the list. Nothing else changes. |
| PhysicalPage.PhysicalPageAllocator.constructor | kernel/src/mem/allocator/physical_page.rs:26-30 | The list starts empty. |
| PhysicalPage.PhysicalPageAllocator.PhysToVirt | kernel/src/mem/allocator/physical_page.rs:33-35 | The direct-mapped address lies exactly the offset above the physical one. |
| PhysicalPage.PhysicalPageAllocator.DirectMapVirtToPhys | kernel/src/mem/allocator/physical_page.rs:102-104 | It subtracts exactly the direct-map offset, and panics on an address below it. |
| PhysicalPage.PhysicalPageAllocator.DirectMapRoundTrip | kernel/src/mem/allocator/physical_page.rs:102-104 | The direct map and `direct_map_virt_to_phys` undo each other. |
| PhysicalPage.PhysicalPageAllocator.AddFreeRegion | kernel/src/mem/allocator/physical_page.rs:38-48 | It panics unless the region can hold a node. Otherwise the region goes to the front of the list. |
| PhysicalPage.PhysicalPageAllocator.AddHeapRegion | kernel/src/mem/allocator/physical_page.rs:33-35 | The physical region goes on the list at its direct-mapped address. |
| PhysicalPage.PhysicalPageAllocator.FindRegion | kernel/src/mem/allocator/physical_page.rs:58-74 | First fit at page alignment. The chosen node is removed whole, with no remainder put back, and the others keep their order. The virtual start is page-aligned. With no fit, nothing changes. |
| PhysicalPage.PhysicalPageAllocator.Allocate | kernel/src/mem/allocator/physical_page.rs:52-54 | The virtual start that `find_region` found, minus the direct-map offset. `None` exactly when no region fits. |
| Bump.BumpAllocator.constructor | kernel/src/mem/allocator/bump.rs:22-29 | All four cells are zero, so the allocator is uninitialised. |
| Bump.BumpAllocator.Init | kernel/src/mem/allocator/bump.rs:31-37 | It panics, changing nothing, when already initialised. Otherwise `start` and `next` become the start and `end` the end. |
| Bump.BumpAllocator.GetSize | kernel/src/mem/allocator/bump.rs:39-41 | `next - start`: the bytes handed out since the last rewind. |
| Bump.BumpAllocator.AllocResult | kernel/src/mem/allocator/bump.rs:45-59 | It panics while uninitialised. Otherwise it returns `align_up(next, align)`, a block that ends strictly below `end`. It returns null when the aligned end reaches `end`, an exact fit included. |
| Bump.BumpAllocator.Alloc | kernel/src/mem/allocator/bump.rs:45-59 | A block moves `next` to its end and counts one more allocation. A null or a panic changes nothing. `next` only grows and stays below `end`. |
| Bump.BumpAllocator.Dealloc | kernel/src/mem/allocator/bump.rs:61-67 | It panics while uninitialised, and when the count is zero. Otherwise it decrements the count, and `next` rewinds to `start` exactly when the count reaches zero. |
| KernelAllocators.KernelAllocator.constructor | kernel/src/mem/allocator.rs:106-112 | An uninitialised boot allocator is in use, and the main allocator is empty. |
| KernelAllocators.KernelAllocator.AddHeapRegion | kernel/src/mem/allocator.rs:114-120 | It panics once early initialisation is complete. Otherwise only the main allocator's list changes, as its `add_heap_region` changes it. |
| KernelAllocators.KernelAllocator.InitBootAllocator | kernel/src/mem/allocator.rs:122-124 | `init` of the boot allocator on `[start, end)`. |
| KernelAllocators.KernelAllocator.UseMainAllocator | kernel/src/mem/allocator.rs:126-135 | It panics if the switch was already made. Otherwise it sets the switch and returns the boot allocator's `get_size`. |
| KernelAllocators.KernelAllocator.Alloc | kernel/src/mem/allocator.rs:67-91 | Before the switch, the boot allocator answers. After it, the main list is tried first. Only on null are `pad_to_align` bytes of pages taken first-fit from the VMM's physical free list, which is unchanged when `kernel_alloc` panics. The block is added as a region and the request retried once. |
| KernelAllocators.KernelAllocator.Dealloc | kernel/src/mem/allocator.rs:93-102 | Before the switch, the block goes to the boot allocator. After it, the block goes to the main allocator. |
| Descriptors.BitsOf | kernel/src/mem/vm/paging.rs:34-51 | `Attributes::bits` sets no bit outside the eleven defined ones. |
| Descriptors.FromWord | kernel/src/mem/vm/paging.rs:34-51 | `Attributes::from_bits` gives the set that the word's defined bits name. |
| Descriptors.FromWordDefined | kernel/src/mem/vm/paging.rs:34-51 | `from_bits` fails exactly when an undefined bit is set. Otherwise the bits of the set it returns are the word. |
| Descriptors.FromWordOfBits | kernel/src/mem/vm/paging.rs:34-51 | `from_bits(a.bits()) == Some(a)`. |
| Descriptors.OutputAddress | kernel/src/mem/vm/paging.rs:637-645 | `Some` exactly for a valid descriptor. The address is page-aligned and below 2^48. |
| Descriptors.Flags | kernel/src/mem/vm/paging.rs:647-653 | A result is only given for a valid descriptor, and it includes VALID. |
| Descriptors.SetDecodes | kernel/src/mem/vm/paging.rs:655-669 | For page-aligned `pa < 2^48`, `set(pa, f)` is valid, its output address is `pa`, and its flags are `f \| VALID`. |
| Paging.Granularity | kernel/src/mem/vm/paging.rs:154-156 | The leaf level has 4 KiB granules, and each level up has 512 times more. Every granularity is a multiple of the page size. |
| Paging.Span | kernel/src/mem/vm/paging.rs:260-262 | A table covers 512 granules. The root table covers 2^48 bytes. |
| Paging.Index | kernel/src/mem/vm/paging.rs:478-487 | The entry index is below 512. |
| Paging.IndexInWindow | kernel/src/mem/vm/paging.rs:478-487 | Within one table's window, two addresses use the same entry exactly when they lie in the same granule. |
| Paging.NewRegion | kernel/src/mem/vm/paging.rs:183-188 | The start is rounded down and the end up to pages. The region covers the requested bytes and adds less than a page at each end. |
| Paging.Len | kernel/src/mem/vm/paging.rs:200-202 | `len == end - start`. |
| Paging.NewTable | kernel/src/mem/vm/paging.rs:461-468 | An empty, well-formed table that translates nothing. It panics for a level below the leaf level. |
| Paging.NextChunk | kernel/src/mem/vm/paging.rs:416-430 | `None` exactly when the position lies outside the range. Otherwise a chunk from the position to the end of its granule or of the range, whichever is first, and the position moves to the chunk's end. |
| Paging.ChunksCover | kernel/src/mem/vm/paging.rs:413-441 | The chunks are non-empty, ascending and contiguous. Each lies within one granule, and together they cover exactly the rest of the range. |
| Paging.SplitCovers | kernel/src/mem/vm/paging.rs:434-441 | `split(level)` covers the whole region, chunk after chunk. |
| Paging.ChunkedIterator.constructor | kernel/src/mem/vm/paging.rs:434-441 | The iterator starts at the region's start, with the level's granularity. |
| Paging.ChunkedIterator.Next | kernel/src/mem/vm/paging.rs:416-430 | It yields the chunk `NextChunk` gives and moves to that chunk's end. |
| Paging.MapRangeSpec | kernel/src/mem/vm/paging.rs:492-539 | The chunks of `split(level)` are mapped in turn, and `pa` advances by each chunk's length. |
| Paging.MapChunkSpec | kernel/src/mem/vm/paging.rs:503-536 | A page descriptor at the leaf level. A block descriptor when the chunk is a block, its entry is not a table and `pa` is aligned to the granularity. Otherwise the chunk is mapped in the subtable. |
| Paging.NextLevelSpec | kernel/src/mem/vm/paging.rs:516-534 | It uses an existing subtable, or creates one and points the entry at it with a table descriptor. |
| Paging.FreshSubtable | kernel/src/mem/vm/paging.rs:519-531 | A new table one level down. A valid block that the entry held is mapped again over its whole granule. |
| Paging.BlockRegion | kernel/src/mem/vm/paging.rs:524-525 | `align_down(start, g)..align_up(end, g)`. It panics exactly when the rounding-up addition overflows a `usize`. |
| Paging.MapRange | kernel/src/mem/vm/paging.rs:492-539 | The chunk loop gives the same table, or the same panic, as `MapRangeSpec`. |
| Paging.MapChunk | kernel/src/mem/vm/paging.rs:502-537 | One loop body gives the same result as `MapChunkSpec`. |
| Paging.NextLevel | kernel/src/mem/vm/paging.rs:516-534 | The same result as `NextLevelSpec`. |
| PagingProofs.PutCorrect | kernel/src/mem/vm/paging.rs:504-514 | Writing a page or block descriptor keeps the table well formed. It maps the chunk to `pa` onwards and leaves the rest of the window as it was. |
| PagingProofs.RemapGranule | kernel/src/mem/vm/paging.rs:519-531 | A block mapped again over its whole granule in a new table translates that granule exactly as the block did. |
| PagingProofs.GranuleMapped | kernel/src/mem/vm/paging.rs:519-531 | Mapping a whole granule into a new table one level down succeeds. The table is well formed and maps the granule from `oa` on, with the flags plus ACCESSED. |
| PagingProofs.RemapAgrees | kernel/src/mem/vm/paging.rs:519-531 | A new table that maps the block's granule from the block's output address translates that granule as the block did. |
| PagingProofs.FreshSubtableCorrect | kernel/src/mem/vm/paging.rs:518-533 | When a block is split, the rest of the block keeps its old translation. The split panics only when rounding the end up overflows. |
| PagingProofs.NextLevelCorrect | kernel/src/mem/vm/paging.rs:516-534 | The subtable descended into is well formed, one level down, and translates the chunk's granule as the table did, behind a table descriptor. |
| PagingProofs.MapChunkCorrect | kernel/src/mem/vm/paging.rs:501-537 | One turn of the loop keeps the table well formed and maps the chunk to `pa` onwards, with the flags plus ACCESSED. |
| PagingProofs.MapChunksCorrect | kernel/src/mem/vm/paging.rs:501-538 | The loop over the remaining chunks maps the rest of the range and keeps the table well formed. |
| PagingProofs.MapRangeCorrect | kernel/src/mem/vm/paging.rs:492-539 | After `map_range`, every `va` of the range translates to `pa + (va - start)` with the flags plus ACCESSED. The rest of the window translates as before, and the table stays well formed. It panics only in the last granule below 2^64. |
| RootTables.CheckRange | kernel/src/mem/vm/paging.rs:268-293 | `RegionBackwards` for `end < start`. A lower table rejects a start with the sign bit set or `end > size`. An upper table rejects a start with the sign bit clear or `\|start\| > size`. |
| RootTables.AcceptedRangeOk | kernel/src/mem/vm/paging.rs:268-297 | A range that the checks accept stays within the root's window. |
| RootTables.RootMapCorrect | kernel/src/mem/vm/paging.rs:268-297 | An accepted range is mapped, and the rest of the table's half of the address space is unchanged. |
| RootTables.TtbrValue | kernel/src/mem/vm/paging.rs:316-351 | `pa \| asid << 48`, modulo 2^64. |
| RootTables.RootPageTable.constructor | kernel/src/mem/vm/paging.rs:245-256 | An empty level-0 table with no saved TTBR. |
| RootTables.RootPageTable.Size | kernel/src/mem/vm/paging.rs:260-262 | 2^48 bytes. |
| RootTables.RootPageTable.MapRange | kernel/src/mem/vm/paging.rs:268-297 | A rejected range returns its error and leaves the table alone. Otherwise the table is the one `PageTable::map_range` leaves. |
| RootTables.RootPageTable.Activate | kernel/src/mem/vm/paging.rs:316-351 | It panics if a TTBR value is already saved. Otherwise it saves the current value and writes `TtbrValue`. |
| RootTables.RootPageTable.Deactivate | kernel/src/mem/vm/paging.rs:353-381 | It panics with no saved value. Otherwise it restores the saved value and forgets it. |
| RootTables.RootPageTable.InvalidatePreviousTtbr | kernel/src/mem.rs:345-347 | It forgets the saved TTBR value. |
| RootTables.ActivateThenDeactivate | kernel/src/mem/vm/paging.rs:316-381 | Activating and then deactivating restores the TTBR value from before. |
| OnceCells.OnceCell.constructor | kernel/src/sync/once_cell.rs:19-23 | The cell is empty, so `get` returns `None`. |
| OnceCells.OnceCell.Set | kernel/src/sync/once_cell.rs:25-29 | On a set cell it panics and keeps the value. On an empty cell the value is stored. |
| OnceCells.OnceCell.Get | kernel/src/sync/once_cell.rs:31-34 | The stored value, if there is one. |
| OnceCells.OnceCell.Deref | kernel/src/sync/once_cell.rs:37-42 | It panics exactly when empty. Otherwise it returns the stored value. |
| OnceCells.SetTwice | kernel/src/sync/once_cell.rs:25-42 | The first `set` wins. The second panics, and `get` and `deref` return the first value. |
| Mem.LayoutContiguous | kernel/src/mem.rs:8-10 | Heap (1968 MiB), stack (16 MiB) and binary (64 MiB) are contiguous, ascending and page-aligned, and end at 2^64. |
| Mem.ScanMemoryMapFinds | kernel/src/mem.rs:263-293 | The highest address is the end of the last entry. The kernel address is the base of the last KernelAndModules entry, or 0 when there is none. |
| Mem.UsableNodesAre | kernel/src/mem.rs:277-283 | The free list holds exactly the usable entries, at their direct-mapped addresses. |
| Mem.VirtualMemoryManagerInner.constructor | kernel/src/mem.rs:205-212 | An empty physical allocator, no kernel page table, and direct-map addresses. |
| Mem.VirtualMemoryManagerInner.InitMemoryMap | kernel/src/mem.rs:263-293 | Every usable entry, in order, goes onto the allocator, and the result is the scan. Other entry types are ignored. The first usable entry that cannot hold a node panics. |
| Mem.VirtualMemoryManagerInner.AddMemmapEntry | kernel/src/mem.rs:277-289 | One loop body: a usable entry goes to the front of the list, and any other entry changes nothing. |
| Mem.VirtualMemoryManagerInner.KernelVirtual | kernel/src/mem.rs:485-491 | Physical plus the heap start once heap addresses are in use. Before that, physical plus the direct-map offset. |
| Mem.VirtualMemoryManagerInner.KernelAllocUnchecked | kernel/src/mem.rs:504-511 | The size is rounded up to pages and taken first-fit. It returns the physical start and the rounded size, and panics, changing nothing, when nothing fits. |
| Mem.VirtualMemoryManagerInner.KernelAllocResult | kernel/src/mem.rs:476-493 | A result exactly when the page table is set and a region fits. The size is page-rounded, at least the request and less than a page more. |
| Mem.VirtualMemoryManagerInner.KernelAlloc | kernel/src/mem.rs:476-493 | It panics before the kernel page table is set. Otherwise it returns `KernelAllocResult`. |
| Mem.KernelMappings | kernel/src/mem.rs:380-412 | The four mappings, with the data at the kernel's physical base plus `data_start - binary_start`. It panics when the data lies below the binary. |
| Mem.KernelMappingsPermissions | kernel/src/mem.rs:385-412 | W^X: only the code is executable, and only the code is read-only. |
| Mem.MapStep | kernel/src/mem.rs:387-391 | One `map_range(...).unwrap()`. It panics on end-rounding overflow or a rejected range. |
| Mem.MapAll | kernel/src/mem.rs:385-412 | The requests in order, stopping at the first panic. The empty list changes nothing. |
| Mem.FillSpec | kernel/src/mem.rs:380-412 | The table that the four mappings build. It panics when the data lies below the binary. |
| Mem.BootstrapCheckAsWritten | kernel/src/mem.rs:312-320 | It passes exactly when the direct map ends at or below `kernel_binary_start`. |
| Mem.BootstrapCheckAdmitsHeapOverlap | kernel/src/mem.rs:303-320 | With dm = 0xFFFF_8000_0000_0000, the check as written admits memory whose direct map overlaps the kernel heap. |
| Mem.PhysLimitCheck | kernel/src/mem.rs:312-320 | It passes exactly when `dm <= top` and `highest <= top - dm`. Otherwise it panics, on the subtraction or on too much memory. |
| Mem.BootstrapCheck | kernel/src/mem.rs:303-307 | The intended check passes exactly when the direct map ends at or below the heap start. Whenever the heap lies below the binary, anything it admits the check as written admits too. |
| Mem.VirtualMemoryManagerInner.BootstrapKernelPageTable | kernel/src/mem.rs:308-351 | It panics on the size check as written (`BootstrapCheckAsWritten`, the binary-start limit) or on a failing mapping. Otherwise it returns an upper-half root table, filled and activated, with its saved TTBR value forgotten. |
| Mem.VirtualMemoryManagerInner.CreateKernelPageTable | kernel/src/mem.rs:354-378 | The filled and activated table becomes the kernel page table. It panics if one is already set. |
| Mem.VirtualMemoryManagerInner.FillKernelPageTable | kernel/src/mem.rs:380-416 | The table is `FillSpec`, and is then activated. |
| KernelTables.MapAllCorrect | kernel/src/mem.rs:385-412 | The mapped requests leave a well-formed table that translates every served address as `Covered` says. |
| KernelTables.MappedByLast | kernel/src/mem.rs:385-412 | An address translates as the last request whose range holds it. |
| KernelTables.KernelTableWriteXorExecute | kernel/src/mem.rs:385-412 | W^X: no address of the kernel table is mapped both writable and executable. |
| KernelTables.KernelCodeMapped | kernel/src/mem.rs:393-398 | A code address maps to the matching byte of the kernel image, read-only and executable. |
| KernelInit.HandOffOffset | kernel/src/mem.rs:244-249 | `align_up(used, PAGE_SIZE)` is past every boot allocation and within the allocation. |
| KernelInit.HandOffNodeOk | kernel/src/mem.rs:244-249 | The region handed to the main allocator can hold a node exactly when the heap start is 8-aligned and the boot allocator has not used the whole allocation. |
| KernelInit.HeapHandOff | kernel/src/mem.rs:244-250 | A region at `heap_start + align_up(used, PAGE_SIZE)` of `alloc_size - offset` bytes is added. Heap addresses are used from then on once the hand-off succeeds, and the flag is left alone when it panics. |
| KernelInit.Init | kernel/src/mem.rs:214-257 | The steps of `init` in order. On success the memory map passed the bootstrap size check as written. The main allocator's first region ends at `heap_start + 64 KiB`, and the kernel page table is set. |
| Exec.PidsUnique | kernel/src/exec.rs:372-386 | Ordered PIDs are unique. |
| Exec.ProcessManagerInner.constructor | kernel/src/exec.rs:373-378 | No processes, and `next_pid` is 1. |
| Exec.ProcessManagerInner.CreateProcess | kernel/src/exec.rs:380-386 | `pid = next_pid`, `next_pid` is incremented, and the process is appended. PIDs stay positive and strictly increasing. |
| Exec.LoadSize | kernel/src/exec.rs:252-258 | The fold over PT_LOAD headers only. It panics, as `align_up` does on `align - 1`, exactly when some PT_LOAD has `p_align` 0. Otherwise it is at least the sum of their `p_memsz`. |
| Exec.LoadSizeUnaligned | kernel/src/exec.rs:252-258 | With every alignment equal to 1, it does not panic and is exactly the sum. |
| Exec.ComputeLoadSize | kernel/src/exec.rs:252-258 | The loop computes `LoadSize`, and panics at the first PT_LOAD with `p_align` 0. |
| Exec.SegmentAttributes | kernel/src/exec.rs:302-309 | NORMAL, USER and NON_GLOBAL are always set. READ_ONLY is set iff R and not W. EXECUTE_NEVER is set iff not X. |
| Exec.FlagsStringShowsPermissions | kernel/src/exec.rs:274-282 | Three characters that show exactly the R, W and X bits. |
| Exec.LowFlagBits | kernel/src/exec.rs:274-276 | PF_R, PF_W and PF_X are the bits of value 4, 2 and 1 of the flags' low three bits. |
| Exec.SegmentsConsecutive | kernel/src/exec.rs:285-321 | The segments map back to back in physical memory from `process_phys`. |
| Exec.SegmentsFitLoadSize | kernel/src/exec.rs:252-321 | When `load_size` does not panic, the segments fit within it. |
| Exec.FirstVaddr | kernel/src/exec.rs:289-292 | `process_virt` is the first PT_LOAD `p_vaddr`. |
| Exec.CopiesAsWritten | kernel/src/exec.rs:323-335 | Every segment's bytes are copied to `process_virt_dm`. |
| Exec.CopiesAsWrittenMisplaced | kernel/src/exec.rs:313-335 | The second segment's bytes land where the first is mapped. |
| Exec.Copies | kernel/src/exec.rs:316-335 | The intended copies: each segment's bytes go to its own offset in the process memory, plus the offset of `p_vaddr` within its page. |
| Exec.CopiesLandInSegments | kernel/src/exec.rs:313-335 | A segment that takes memory has its first file byte copied to the physical byte its `p_vaddr` translates to. Where each segment's file bytes fit in its memory from that page offset, the copies do not overlap. |
| Exec.LoadSegment | kernel/src/exec.rs:272-337 | One loop turn: set `process_virt` once, map, advance `phys_offset`, and copy the file bytes to `process_virt_dm`, as exec.rs:333 does. |
| Exec.MapSegments | kernel/src/exec.rs:269-339 | It completes iff no overflow and all mappings succeed. The table is `MapAll` of the placed requests, and the copies are `CopiesAsWritten`: every one to `process_virt_dm`. |
| Exec.SegmentHit | kernel/src/exec.rs:302-321 | A segment maps an address to the matching physical byte, with its permissions. |
| Exec.SegmentMapped | kernel/src/exec.rs:313-319 | After loading with page-aligned placed requests, an address held by a segment's pages, and by no later segment's, translates as that segment's request says. |
| Exec.LoadExecutable | kernel/src/exec.rs:225-339 | It returns early, in this order, if the file is not ELF, not AArch64 or not little-endian. Otherwise it creates the process. It panics on `load_size` before touching the page table. Otherwise it maps the segments and copies them as written. |
| Time.LessIsShorter | kernel/src/arch/aarch64/time.rs:85-95 | The lexicographic order equals comparing total nanoseconds. |
| Time.NewKernelTimerData | kernel/src/arch/aarch64/time.rs:27-35 | It panics iff the frequency is 0. |
| Time.WrappingAdd | kernel/src/arch/aarch64/time.rs:42-48 | The sum modulo 2^64. |
| Time.WrappingSub | kernel/src/arch/aarch64/time.rs:50-56 | The difference modulo 2^64. |
| Time.SubUndoesAdd | kernel/src/arch/aarch64/time.rs:42-56 | Wrapping Add and Sub are inverses. |
| Time.ToDuration | kernel/src/arch/aarch64/time.rs:58-79 | 0 gives ZERO. Otherwise `secs == c / f`, the total nanoseconds are `c*10^9/f`, and the nanoseconds part is below 10^9. |
| Time.ToDurationMonotone | kernel/src/arch/aarch64/time.rs:58-79 | The conversion is monotone. |
| Time.Resolution | kernel/src/arch/aarch64/time.rs:119-121 | `10^9 / f` nanoseconds. |
| Time.MaxDuration | kernel/src/arch/aarch64/time.rs:81-83 | The duration of `u64::MAX` ticks: `(2^64-1)*10^9/f` nanoseconds, with the nanoseconds part below 10^9. |
| Time.TryFromDuration | kernel/src/arch/aarch64/time.rs:85-107 | Below the resolution, 0. Above the maximum, "duration too large". Otherwise the floor of `nanos*f/10^9`. |
| Time.DurationRoundTrip | kernel/src/arch/aarch64/time.rs:58-107 | Converting back never gives a longer duration. |
| Time.CounterRoundTrip | kernel/src/arch/aarch64/time.rs:58-107 | The counter round trip gives at most `c`, at least `c-1` when `f ≤ 10^9`, and exactly `c` when `f` divides 10^9. |
| Time.UptimeKernel | kernel/src/arch/aarch64/time.rs:127-131 | The wrapped duration since boot. |
| Time.UptimeAfterElapsed | kernel/src/arch/aarch64/time.rs:127-131 | Boot plus `e` gives the uptime of `e`. |
| Util.DivCeil | kernel/src/util.rs:12-18 | The ceiling of the quotient. |
| Util.SizeHumanReadableCeil | kernel/src/util.rs:5-22 | The unit is one of the five names. Byte iff size < 1024, and then the value is the size. |
| Util.SizeHumanReadableCeilBounds | kernel/src/util.rs:11-21 | The unit is the largest one reached, the value is the ceiling, and for GiB/MiB/KiB the value lies in 1..1024. |
| DriverCommon.New | kernel/src/driver/common.rs:36-39 | It panics iff `value > MAX_INCLUSIVE`. Otherwise the value is bounded. |
| DriverCommon.Get | kernel/src/driver/common.rs:42-44 | The value is at most `MAX_INCLUSIVE`. |
| DriverCommon.NewThenGet | kernel/src/driver/common.rs:33-44 | `get` returns exactly the value passed to `new`, and `MAX_INCLUSIVE` is the parameter. |
| Drivers.NewDescriptor | kernel/src/driver/manager.rs:27-38 | `init_complete` is false. |
| Drivers.VisitedRegistered | kernel/src/driver/manager.rs:139-149 | On a table that `register` built, `for_each` visits exactly the registered descriptors, in registration order. |
| Drivers.EventsAre | kernel/src/driver/manager.rs:96-113 | Init is called exactly for pending slots of the order. |
| Drivers.EventsOrdered | kernel/src/driver/manager.rs:102-110 | The events are in slot order, and each callback comes right after its init. |
| Drivers.InitAtMostOnce | kernel/src/driver/manager.rs:98-100 | Running the same order again calls nothing. |
| Drivers.BootPhasesBringUp | kernel/src/driver/manager.rs:81-94 | After the three phases, a driver is complete iff it is not Manual. |
| Drivers.DriverManager.constructor | kernel/src/driver/manager.rs:50-57 | 32 empty slots. |
| Drivers.DriverManager.Register | kernel/src/driver/manager.rs:66-71 | A 33rd registration panics. Otherwise the descriptor goes into slot `next_index`. |
| Drivers.DriverManager.Enumerate | kernel/src/driver/manager.rs:73-79 | The drivers are numbered from 1. |
| Drivers.DriverManager.InitDevices | kernel/src/driver/manager.rs:96-114 | It panics at the first failing init or callback. Otherwise every pending slot is initialised and marked. |
| Drivers.DriverManager.InitInterruptController | kernel/src/driver/manager.rs:81-84 | The InterruptController phase. |
| Drivers.DriverManager.InitEarly | kernel/src/driver/manager.rs:86-89 | The Early phase. |
| Drivers.DriverManager.InitNormal | kernel/src/driver/manager.rs:91-94 | The Normal phase. |

## Left out

- Inline assembly and system registers: the TCR_EL1 writes, the actual TTBR reads and writes, TLB invalidation, and stack migration (`migrate_kernel_stack`). `activate` and `deactivate` keep only the saved-TTBR bookkeeping.
- `read_cntpct`, `uptime_sys` and `spin_for` read the hardware counter or spin. The global `KERNEL_TIMER_DATA` is a parameter.
- The global `EARLY_INIT_COMPLETE` (kernel/src/main.rs:19), set at the end of early boot (kernel/src/boot.rs:33) and read by `add_heap_region` (kernel/src/mem/allocator.rs:115), is the `earlyInitComplete` parameter of `KernelAllocators.KernelAllocator.AddHeapRegion`.
- Time.ToDuration: requires a frequency below 2^32, which the counter register guarantees but the source does not check.
- Locks (`IRQSafeNullLock`, `Mutex`) are direct field access. There is no concurrency.
- Printing and logging, including `read_test_executable`.
- `probe_devices` and driver init/callbacks are inputs: each driver's fixed answer, with the calls recorded as events.
- `MMIODerefWrapper` (register poking).
- ELF parsing, file bytes, zeroing of bss, and the jump to the entry point.
- `new_address_space`, `process_alloc` and the page-table pages for new subtables. These are inputs (`asid`, `process_phys`, `tablePa`).
- `next_pid` overflow.
- `usize` wrap-around of unchecked additions, except for `checked_add`, the align-up overflow in `map_range` and time's explicit wrapping.
- Exec.SegmentMapped: stated only when every placed request's physical address is page-aligned, that is, when every earlier PT_LOAD `p_memsz` is a multiple of 4096. For other files `map_range` ORs the low bits of `pa` into the descriptor's attribute bits (paging.rs:668). The model's `Set` does the same, but no translation is proved for them. `PagingProofs.MapRangeCorrect` and `KernelTables.MapAllCorrect` carry the same restriction.
- Exec.CopiesLandInSegments: the copies do not overlap only where each segment's `p_vaddr % PAGE_SIZE + p_filesz` fits in its `p_memsz`.
- Translate follows a table's `subtables` map. It does not follow a table descriptor's output address through `physical_to_virtual` (paging.rs:671-691).
- Exec.LoadSize: a PT_LOAD `p_align` must be 0 or a power of two; other values are excluded. `align_up` requires a power of two (kernel/src/mem/allocator.rs:44-49), and its bitwise result for other values is not modelled. The same restriction applies to Exec.ComputeLoadSize, Exec.SegmentsFitLoadSize and Exec.LoadExecutable. The panic on `p_align` 0 is the overflow check of a debug build; a release build would wrap instead.
- Paging.Translate: it accepts a block descriptor at level 0. With a 4 KiB granule and 48-bit addresses, the MMU treats such a descriptor as invalid and faults. `map_range` writes one for a 512 GiB-aligned chunk and `pa` (kernel/src/mem/vm/paging.rs:507-514), and the model writes the same. For such a mapping, PagingProofs.MapRangeCorrect, KernelTables.MapAllCorrect and the kernel-mapping properties hold only for the model's walk, not for the hardware.
- One `tablePa` stands for the page of every new subtable that a `map_range` call creates.
- The `Drop` of a root page table (paging.rs:396-405) is not modelled: neither its `deactivate` when a TTBR value is saved, nor the freeing of the table's pages. At the end of `init` the bootstrap table has no saved value, so its drop would deactivate nothing.
- LinkedList.SizeAlign: "size is a multiple of the alignment" is stated only for a non-zero padded size. A zero-size layout with alignment ≥ 32 breaks it, and `GlobalAlloc` forbids zero-size layouts.

## Findings

| source | as written | input that shows it | evidently intended | confidence | as-written member | corrected member |
|---|---|---|---|---|---|---|
| kernel/src/mem.rs:312-320 | The limit is `kernel_binary_start - dm`. | dm = 0xFFFF_8000_0000_0000, highest = 0x7FFF_8000_1000 | The direct map must not overlap the heap: `kernel_heap_start - dm` (mem.rs:303-307). | not executed | Mem.BootstrapCheckAdmitsHeapOverlap | Mem.BootstrapCheck |
| kernel/src/exec.rs:331-335 | Every segment is copied to the start of process memory. | Two PT_LOAD segments, the first with `p_memsz > 0` | Copy to `process_virt_dm + phys_offset + p_vaddr % PAGE_SIZE`, where `p_vaddr` is mapped. | not executed | Exec.CopiesAsWrittenMisplaced | Exec.CopiesLandInSegments |
