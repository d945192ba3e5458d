/** `PhysicalPageAllocator` of mem/allocator/physical_page.rs: a first-fit free list of physical
  * memory, kept through the direct map. Its nodes live at direct-mapped virtual addresses (the
  * physical address plus the direct-map offset); a fitting region is always unlinked whole,
  * whatever its size, and the allocation is reported as a physical address. */
module PhysicalPage {
  import opened Wrappers
  import opened FreeList
  import Align
  import Descriptors

  class PhysicalPageAllocator {
    /** The free list after the head node, in list order, at direct-mapped addresses. */
    var regions: seq<Node>
    /** `direct_map_virt_offset()`, the bootloader's direct-map offset. */
    const directMapOffset: nat

    /** Every region can hold its node and lies in the direct map, so subtracting the offset from
      * any address in it cannot underflow. */
    ghost predicate Valid()
      reads this
    {
      AllNodesOk(regions) && forall i :: 0 <= i < |regions| ==> regions[i].addr >= directMapOffset
    }

    /** `PhysicalPageAllocator::new`: an empty list. */
    constructor (directMapOffset: nat)
      ensures regions == [] && this.directMapOffset == directMapOffset && Valid()
    {
      regions := [];
      this.directMapOffset := directMapOffset;
    }

    /** The direct-mapped virtual address of a physical one (`PhysicalAddress::into`). */
    function PhysToVirt(pa: nat): (r: nat)
      ensures r >= directMapOffset && r - directMapOffset == pa
    {
      pa + directMapOffset
    }

    /** `direct_map_virt_to_phys`: subtracts the direct-map offset; an address below the offset
      * makes the subtraction overflow, which panics. */
    function DirectMapVirtToPhys(va: nat): (r: Outcome<nat>)
      ensures r.Done? <==> va >= directMapOffset
      ensures r.Done? ==> r.value + directMapOffset == va
    {
      if va < directMapOffset then Panic("subtract with overflow") else Done(va - directMapOffset)
    }

    /** The direct map and its inverse undo each other. */
    lemma DirectMapRoundTrip(pa: nat, va: nat)
      ensures DirectMapVirtToPhys(PhysToVirt(pa)) == Done(pa)
      ensures va >= directMapOffset ==> PhysToVirt(DirectMapVirtToPhys(va).value) == va
    {
    }

    /** `add_free_region`: panics unless the region can hold a node; otherwise it becomes the
      * first region of the list. */
    method AddFreeRegion(addr: nat, size: nat) returns (r: Outcome<()>)
      requires Valid() && addr >= directMapOffset
      modifies this
      ensures Valid()
      ensures r.Done? <==> NodeOk(Node(addr, size))
      ensures r.Done? ==> regions == [Node(addr, size)] + old(regions)
      ensures r.Panic? ==> regions == old(regions)
    {
      AlignedForNode(addr);
      if Align.AlignUp(addr, NODE_ALIGN) != addr {
        return Panic("assertion `left == right` failed");
      }
      if size < NODE_SIZE {
        return Panic("assertion failed: size >= mem::size_of::<ListNode>()");
      }
      regions := [Node(addr, size)] + regions;
      r := Done(());
    }

    /** `add_heap_region`: the physical region goes on the list at its direct-mapped address. */
    method AddHeapRegion(heapStart: nat, heapSize: nat) returns (r: Outcome<()>)
      requires Valid()
      modifies this
      ensures Valid()
      ensures r.Done? <==> NodeOk(Node(PhysToVirt(heapStart), heapSize))
      ensures r.Done? ==> regions == [Node(PhysToVirt(heapStart), heapSize)] + old(regions)
      ensures r.Panic? ==> regions == old(regions)
    {
      r := AddFreeRegion(PhysToVirt(heapStart), heapSize);
    }

    /** `find_region`: first fit at page alignment. The first region in list order that
      * `alloc_from_region` accepts is unlinked whole, with no remainder put back; the others keep
      * their order. The virtual start it returns is page-aligned. */
    method FindRegion(size: nat) returns (r: Option<nat>)
      requires Valid()
      modifies this
      ensures Valid()
      ensures match FirstFit(old(regions), size, Descriptors.PAGE_SIZE)
        case None => r.None? && regions == old(regions)
        case Some(i) =>
          r == Some(AllocFromRegion(old(regions)[i], size, Descriptors.PAGE_SIZE).value) && regions == Without(old(regions), i)
      ensures r.Some? ==> r.value % Descriptors.PAGE_SIZE == 0 && r.value >= directMapOffset
    {
      var i := 0;
      while i < |regions|
        invariant i <= |regions| && regions == old(regions)
        invariant forall j :: 0 <= j < i ==> AllocFromRegion(regions[j], size, Descriptors.PAGE_SIZE).Err?
      {
        var fit := AllocFromRegion(regions[i], size, Descriptors.PAGE_SIZE);
        if fit.Ok? {
          assert fit.value % Descriptors.PAGE_SIZE == 0 && fit.value >= regions[i].addr >= directMapOffset;
          r := Some(fit.value);
          WithoutNodesOk(regions, i);
          regions := Without(regions, i);
          return;
        }
        i := i + 1;
      }
      r := None;
    }

    /** `allocate`: the physical address of the page-aligned start `find_region` found. */
    method Allocate(size: nat) returns (r: Option<nat>)
      requires Valid()
      modifies this
      ensures Valid()
      ensures match FirstFit(old(regions), size, Descriptors.PAGE_SIZE)
        case None => r.None? && regions == old(regions)
        case Some(i) =>
          r == Some(AllocFromRegion(old(regions)[i], size, Descriptors.PAGE_SIZE).value - directMapOffset)
          && regions == Without(old(regions), i)
      ensures r.Some? ==> PhysToVirt(r.value) % Descriptors.PAGE_SIZE == 0
    {
      var found := FindRegion(size);
      if found.Some? {
        r := Some(found.value - directMapOffset);
      } else {
        r := None;
      }
    }
  }
}
