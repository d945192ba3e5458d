/** `LinkedListAllocator` of mem/allocator/linked_list.rs: the kernel's main heap allocator, a
  * first-fit free list. Every request is widened so that the block can later hold a free-list
  * node; a fitting region is unlinked and the part of it above the block goes back on the list. */
module LinkedList {
  import opened Wrappers
  import opened Align
  import opened FreeList

  /** `a.max(b)`. */
  function Max(a: nat, b: nat): nat {
    if a >= b then a else b
  }

  /** A multiple of a power-of-two alignment of at least 8 is a multiple of 8, and one below 16
    * that is not zero is 8 with the alignment 8. */
  lemma PaddedFacts(size: nat, align: nat)
    requires IsPowerOfTwo(align) && align >= NODE_ALIGN && size % align == 0
    ensures size % NODE_ALIGN == 0
    ensures 0 < size < NODE_SIZE ==> size == NODE_ALIGN && align == NODE_ALIGN
  {
    PowerOfTwoDivides(NODE_ALIGN, align);
    MultipleOfDivisor(size, align, NODE_ALIGN);
    if 0 < size < NODE_SIZE {
      assert size >= align by {
        Arith.RoundDown(size, align);
        if size / align == 0 {
          assert false;
        }
        Arith.MulLeRight(1, size / align, align);
      }
      assert align % NODE_ALIGN == 0;
    }
  }

  /** `size_align`: the layout's alignment raised to the node alignment (`align_to`, whose
    * failure is the `expect` panic), its size padded to that alignment (`pad_to_align`) and
    * raised to the node size. A block of the result can hold a node once it is freed. For a
    * layout of non-zero size the size is a multiple of the alignment. */
  function SizeAlign(layout: Layout): (r: Outcome<(nat, nat)>)
    requires ValidLayout(layout)
    ensures r.Panic? <==> AlignUp(layout.size, Max(layout.align, NODE_ALIGN)) > ISIZE_MAX
    ensures r.Done? ==> r.value.0 >= NODE_SIZE && r.value.0 >= layout.size && r.value.0 % NODE_ALIGN == 0
    ensures r.Done? ==> r.value.1 == Max(layout.align, NODE_ALIGN) && IsPowerOfTwo(r.value.1)
    ensures r.Done? && layout.size > 0 ==> r.value.0 % r.value.1 == 0
  {
    var align := Max(layout.align, NODE_ALIGN);
    var padded := AlignUp(layout.size, align);
    if padded > ISIZE_MAX then Panic("adjusting alignment failed")
    else
      PaddedFacts(padded, align);
      var size := Max(padded, NODE_SIZE);
      assert size % NODE_ALIGN == 0 by {
        if padded < NODE_SIZE {
          assert size == 2 * NODE_ALIGN;
        }
      }
      Done((size, align))
  }

  /** `SizeAlign` is `align_to`, then `pad_to_align`, then the raise to the node size. */
  lemma SizeAlignIsPadded(layout: Layout)
    requires ValidLayout(layout)
    ensures AlignTo(layout, NODE_ALIGN).None? <==> SizeAlign(layout).Panic?
    ensures AlignTo(layout, NODE_ALIGN).Some? ==>
      var p := PadToAlign(AlignTo(layout, NODE_ALIGN).value);
      SizeAlign(layout) == Done((Max(p.size, NODE_SIZE), p.align))
  {
    assert AlignTo(layout, NODE_ALIGN) == FromSizeAlign(layout.size, Max(layout.align, NODE_ALIGN));
  }

  /** The free region `alloc` puts back: the bytes of `n` above `allocEnd`, if there are any. */
  function Remainder(n: Node, allocEnd: nat): (r: seq<Node>)
    ensures |r| <= 1
    ensures r != [] <==> allocEnd < End(n)
    ensures r != [] ==> r[0].addr == allocEnd && End(r[0]) == End(n)
  {
    if allocEnd < End(n) then [Node(allocEnd, End(n) - allocEnd)] else []
  }

  /** The tail `alloc` puts back can hold a node: the block start is aligned to at least 8, the
    * widened size is a multiple of 8, and `alloc_from_region` refused tails of 1 to 15 bytes. */
  lemma TailNodeOk(n: Node, size: nat, align: nat)
    requires IsPowerOfTwo(align) && align >= NODE_ALIGN && size % NODE_ALIGN == 0
    requires AllocFromRegion(n, size, align).Ok?
    requires AllocFromRegion(n, size, align).value + size < End(n)
    ensures var e := AllocFromRegion(n, size, align).value + size; NodeOk(Node(e, End(n) - e))
  {
    var p := AllocFromRegion(n, size, align).value;
    PaddedFacts(p, align);
    Arith.AddMultipleMod(p, size / NODE_ALIGN, NODE_ALIGN);
    Arith.RoundDown(size, NODE_ALIGN);
  }

  /** A block aligned to the raised alignment is aligned as the layout asks. */
  lemma AlignedForLayout(p: nat, align: nat, layoutAlign: nat)
    requires IsPowerOfTwo(align) && IsPowerOfTwo(layoutAlign) && layoutAlign <= align && p % align == 0
    ensures p % layoutAlign == 0
  {
    PowerOfTwoDivides(layoutAlign, align);
    MultipleOfDivisor(p, align, layoutAlign);
  }

  /** What first fit does to a free list for an already widened request: the first region that
    * fits serves it, and the part of that region above the block goes back on the front of the
    * list; with no fitting region the result is null (`None`) and the list is unchanged. */
  function FitSpec(regions: seq<Node>, size: nat, align: nat): (r: (Option<nat>, seq<Node>))
    requires IsPowerOfTwo(align)
    ensures r.0.None? <==> FirstFit(regions, size, align).None?
  {
    match FirstFit(regions, size, align)
    case None => (None, regions)
    case Some(i) =>
      var p := AllocFromRegion(regions[i], size, align).value;
      (Some(p), Remainder(regions[i], p + size) + Without(regions, i))
  }

  /** When first fit picks region `i`, the block starts where that region accepted the request,
    * and the list becomes the region's tail followed by the other regions in their order. */
  lemma FitSpecFound(regions: seq<Node>, size: nat, align: nat, i: nat)
    requires IsPowerOfTwo(align) && FirstFit(regions, size, align) == Some(i)
    ensures i < |regions| && AllocFromRegion(regions[i], size, align).Ok?
    ensures var p := AllocFromRegion(regions[i], size, align).value;
      FitSpec(regions, size, align) == (Some(p), Remainder(regions[i], p + size) + Without(regions, i))
  {
  }

  /** What `alloc` does to a free list: first fit (`FitSpec`) for the request widened by
    * `size_align`, or the panic of `size_align`. */
  function AllocSpec(regions: seq<Node>, layout: Layout): (r: Outcome<(Option<nat>, seq<Node>)>)
    requires ValidLayout(layout)
    ensures r.Panic? <==> SizeAlign(layout).Panic?
  {
    match SizeAlign(layout)
    case Panic(m) => Panic(m)
    case Done(sa) => Done(FitSpec(regions, sa.0, sa.1))
  }

  /** First fit returns null only when no region fits, and then leaves the list alone. A block
    * it returns is aligned to `align` and lies inside one region of the old list, and every
    * region of the new list can hold its node. */
  lemma FitSpecCorrect(regions: seq<Node>, size: nat, align: nat)
    requires IsPowerOfTwo(align) && align >= NODE_ALIGN && size % NODE_ALIGN == 0
    ensures var r := FitSpec(regions, size, align);
      r.0.None? ==> r.1 == regions && forall j :: 0 <= j < |regions| ==> AllocFromRegion(regions[j], size, align).Err?
    ensures var r := FitSpec(regions, size, align);
      r.0.Some? ==>
        r.0.value % align == 0
        && exists i :: 0 <= i < |regions| && regions[i].addr <= r.0.value && r.0.value + size <= End(regions[i])
    ensures AllNodesOk(regions) ==> AllNodesOk(FitSpec(regions, size, align).1)
  {
    match FirstFit(regions, size, align)
    case None =>
    case Some(i) =>
      FitSpecFound(regions, size, align, i);
      var p := AllocFromRegion(regions[i], size, align).value;
      if p + size < End(regions[i]) {
        TailNodeOk(regions[i], size, align);
      }
      AllocSpecNodesOk(regions, i, Remainder(regions[i], p + size));
  }

  /** `alloc` returns null only when no region fits, and then leaves the list alone. A block it
    * returns is aligned as the layout asks and lies inside one region of the old list, and
    * every region of the new list can hold its node. */
  lemma AllocSpecCorrect(regions: seq<Node>, layout: Layout)
    requires ValidLayout(layout) && SizeAlign(layout).Done?
    ensures var r := AllocSpec(regions, layout); var size := SizeAlign(layout).value.0;
      r.value.0.None? ==> r.value.1 == regions && forall j :: 0 <= j < |regions| ==> AllocFromRegion(regions[j], size, SizeAlign(layout).value.1).Err?
    ensures var r := AllocSpec(regions, layout); var size := SizeAlign(layout).value.0;
      r.value.0.Some? ==>
        r.value.0.value % layout.align == 0
        && exists i :: 0 <= i < |regions| && regions[i].addr <= r.value.0.value && r.value.0.value + size <= End(regions[i])
    ensures AllNodesOk(regions) ==> AllNodesOk(AllocSpec(regions, layout).value.1)
  {
    var sa := SizeAlign(layout).value;
    assert AllocSpec(regions, layout) == Done(FitSpec(regions, sa.0, sa.1));
    FitSpecCorrect(regions, sa.0, sa.1);
    var r := FitSpec(regions, sa.0, sa.1);
    if r.0.Some? {
      AlignedForLayout(r.0.value, sa.1, layout.align);
    }
  }

  /** Putting back regions that can hold a node after removing one keeps the whole list so. */
  lemma AllocSpecNodesOk(regions: seq<Node>, i: nat, back: seq<Node>)
    requires i < |regions| && AllNodesOk(back)
    ensures AllNodesOk(regions) ==> AllNodesOk(back + Without(regions, i))
  {
    if AllNodesOk(regions) {
      WithoutNodesOk(regions, i);
      var w := Without(regions, i);
      forall k | 0 <= k < |back + w|
        ensures NodeOk((back + w)[k])
      {
        if k >= |back| {
          assert (back + w)[k] == w[k - |back|];
        }
      }
    }
  }

  class LinkedListAllocator {
    /** The free list after the head node, in list order. */
    var regions: seq<Node>

    /** Every region on the list can hold the node that links it. */
    ghost predicate Valid()
      reads this
    {
      AllNodesOk(regions)
    }

    /** `LinkedListAllocator::new`: an empty list. */
    constructor ()
      ensures regions == [] && Valid()
    {
      regions := [];
    }

    /** `add_free_region`: panics unless the region can hold a node; otherwise it becomes the
      * first region of the list and the others keep their order. */
    method AddFreeRegion(addr: nat, size: nat) returns (r: Outcome<()>)
      requires Valid()
      modifies this
      ensures Valid()
      ensures r.Done? <==> NodeOk(Node(addr, size))
      ensures r.Done? ==> regions == [Node(addr, size)] + old(regions)
      ensures r.Panic? ==> regions == old(regions)
    {
      AlignedForNode(addr);
      if AlignUp(addr, NODE_ALIGN) != addr {
        return Panic("assertion `left == right` failed");
      }
      if size < NODE_SIZE {
        return Panic("assertion failed: size >= mem::size_of::<ListNode>()");
      }
      regions := [Node(addr, size)] + regions;
      r := Done(());
    }

    /** `add_heap_region`: hands the region to `add_free_region`. */
    method AddHeapRegion(heapStart: nat, heapSize: nat) returns (r: Outcome<()>)
      requires Valid()
      modifies this
      ensures Valid()
      ensures r.Done? <==> NodeOk(Node(heapStart, heapSize))
      ensures r.Done? ==> regions == [Node(heapStart, heapSize)] + old(regions)
      ensures r.Panic? ==> regions == old(regions)
    {
      r := AddFreeRegion(heapStart, heapSize);
    }

    /** `find_region`: first fit. The first region in list order that `alloc_from_region`
      * accepts is unlinked and returned with the start it accepted; every other region stays,
      * in order. Without a fitting region nothing changes. */
    method FindRegion(size: nat, align: nat) returns (r: Option<(Node, nat)>)
      requires Valid() && IsPowerOfTwo(align)
      modifies this
      ensures Valid()
      ensures match FirstFit(old(regions), size, align)
        case None => r.None? && regions == old(regions)
        case Some(i) =>
          r == Some((old(regions)[i], AllocFromRegion(old(regions)[i], size, align).value))
          && regions == Without(old(regions), i)
    {
      var i := 0;
      while i < |regions|
        invariant i <= |regions| && regions == old(regions)
        invariant forall j :: 0 <= j < i ==> AllocFromRegion(regions[j], size, align).Err?
      {
        var fit := AllocFromRegion(regions[i], size, align);
        if fit.Ok? {
          r := Some((regions[i], fit.value));
          WithoutNodesOk(regions, i);
          regions := Without(regions, i);
          return;
        }
        i := i + 1;
      }
      r := None;
    }

    /** `allocate`: the start `find_region` found, without the node. */
    method Allocate(size: nat, align: nat) returns (r: Option<nat>)
      requires Valid() && IsPowerOfTwo(align)
      modifies this
      ensures Valid()
      ensures match FirstFit(old(regions), size, align)
        case None => r.None? && regions == old(regions)
        case Some(i) => r == Some(AllocFromRegion(old(regions)[i], size, align).value) && regions == Without(old(regions), i)
    {
      var found := FindRegion(size, align);
      if found.Some? {
        r := Some(found.value.1);
      } else {
        r := None;
      }
    }

    /** The body of `alloc` once `size_align` has widened the request: first fit, with the part
      * of the chosen region above the block put back at the front of the list. */
    method AllocWidened(size: nat, align: nat) returns (r: Option<nat>)
      requires Valid() && IsPowerOfTwo(align) && align >= NODE_ALIGN && size % NODE_ALIGN == 0
      modifies this
      ensures Valid()
      ensures (r, regions) == FitSpec(old(regions), size, align)
    {
      var found := FindRegion(size, align);
      if found.None? {
        return None;
      }
      var region, allocStart := found.value.0, found.value.1;
      ghost var i := FirstFit(old(regions), size, align).value;
      FitSpecFound(old(regions), size, align, i);
      ghost var rest := regions;
      // the `checked_add(...).expect("overflow")` cannot fail: `alloc_from_region` checked it
      assert allocStart + size < WORD;
      var allocEnd := allocStart + size;
      var excess := End(region) - allocEnd;
      if excess > 0 {
        TailNodeOk(region, size, align);
        var added := AddFreeRegion(allocEnd, excess);
        assert added.Done?;
        assert regions == Remainder(region, allocEnd) + rest;
      } else {
        assert Remainder(region, allocEnd) + rest == rest;
      }
      r := Some(allocStart);
    }

    /** `alloc`: widens the layout with `size_align`, takes the first region that fits (null,
      * `None`, when none does) and puts the part of that region above the block back at the
      * front of the list. The block is aligned as the layout asks. */
    method Alloc(layout: Layout) returns (r: Outcome<Option<nat>>)
      requires Valid() && ValidLayout(layout)
      modifies this
      ensures Valid()
      ensures AllocSpec(old(regions), layout).Panic? ==> r.Panic? && regions == old(regions)
      ensures AllocSpec(old(regions), layout).Done? ==>
        r == Done(AllocSpec(old(regions), layout).value.0) && regions == AllocSpec(old(regions), layout).value.1
    {
      var sa := SizeAlign(layout);
      if sa.Panic? {
        return Panic(sa.message);
      }
      assert AllocSpec(old(regions), layout) == Done(FitSpec(old(regions), sa.value.0, sa.value.1));
      var p := AllocWidened(sa.value.0, sa.value.1);
      r := Done(p);
    }

    /** `dealloc`: the block, widened by `size_align` as `alloc` widened it, goes back on the
      * front of the list as one region; `add_free_region` panics if `ptr` is not node-aligned. */
    method Dealloc(ptr: nat, layout: Layout) returns (r: Outcome<()>)
      requires Valid() && ValidLayout(layout)
      modifies this
      ensures Valid()
      ensures SizeAlign(layout).Panic? ==> r.Panic? && regions == old(regions)
      ensures SizeAlign(layout).Done? ==>
        (r.Done? <==> ptr % NODE_ALIGN == 0)
        && (r.Done? ==> regions == [Node(ptr, SizeAlign(layout).value.0)] + old(regions))
        && (r.Panic? ==> regions == old(regions))
    {
      var sa := SizeAlign(layout);
      if sa.Panic? {
        return Panic(sa.message);
      }
      r := AddFreeRegion(ptr, sa.value.0);
    }
  }
}
