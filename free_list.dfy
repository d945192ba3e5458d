/** The free lists of mem/allocator/linked_list.rs and mem/allocator/physical_page.rs. Both keep a
  * `ListNode` at the start of every free region, and both decide with the same
  * `alloc_from_region` test whether a request fits a region.
  *
  * The model keeps a free list as the sequence of its regions in list order, head first,
  * instead of nodes written into the free memory itself. */
module FreeList {
  import opened Wrappers
  import Align

  /** `size_of::<ListNode>()`: a next pointer and a size, 8 bytes each. */
  const NODE_SIZE: nat := 16
  /** `align_of::<ListNode>()`. */
  const NODE_ALIGN: nat := 8

  /** A free region: the `ListNode` at `addr` and the `size` bytes it describes. */
  datatype Node = Node(addr: nat, size: nat)

  /** `ListNode::end_addr`. */
  function End(n: Node): nat {
    n.addr + n.size
  }

  /** What `add_free_region` asserts before it writes a node: the address is aligned for a
    * `ListNode` and the region is large enough to hold one. */
  predicate NodeOk(n: Node) {
    n.addr % NODE_ALIGN == 0 && n.size >= NODE_SIZE
  }

  /** Every region of the list could hold its node. */
  predicate AllNodesOk(s: seq<Node>) {
    forall i :: 0 <= i < |s| ==> NodeOk(s[i])
  }

  /** The `assert_eq!(align_up(addr, align_of::<ListNode>()), addr)` of `add_free_region` holds
    * exactly for node-aligned addresses. */
  lemma AlignedForNode(addr: nat)
    ensures Align.AlignUp(addr, NODE_ALIGN) == addr <==> addr % NODE_ALIGN == 0
  {
  }

  /** `alloc_from_region`: the request starts at the region's start rounded up to `align`; it is
    * refused when that start plus `size` overflows a `usize` (`checked_add`), when it passes the
    * region's end, or when it leaves a tail too small for a node (1 to 15 bytes). */
  function AllocFromRegion(n: Node, size: nat, align: nat): (r: Result<nat, ()>)
    requires Align.IsPowerOfTwo(align)
    ensures r.Ok? ==> r.value == Align.AlignUp(n.addr, align)
    ensures r.Ok? ==> n.addr <= r.value && r.value % align == 0 && r.value + size <= End(n) && r.value + size < Align.WORD
    ensures r.Ok? ==> End(n) == r.value + size || End(n) >= r.value + size + NODE_SIZE
    ensures r.Err? <==>
      var s := Align.AlignUp(n.addr, align);
      s + size >= Align.WORD || s + size > End(n) || s + size < End(n) < s + size + NODE_SIZE
  {
    var allocStart := Align.AlignUp(n.addr, align);
    if allocStart + size >= Align.WORD then Err(())
    else
      var allocEnd := allocStart + size;
      if allocEnd > End(n) then Err(())
      else
        var excess := End(n) - allocEnd;
        if excess > 0 && excess < NODE_SIZE then Err(()) else Ok(allocStart)
  }

  /** A start `AllocFromRegion` accepts is the lowest `align`-aligned address of the region. */
  lemma AllocFromRegionLowest(n: Node, size: nat, align: nat, m: nat)
    requires Align.IsPowerOfTwo(align) && AllocFromRegion(n, size, align).Ok?
    requires m % align == 0 && n.addr <= m
    ensures AllocFromRegion(n, size, align).value <= m
  {
    Align.AlignUpLeast(n.addr, align, m);
  }

  /** The index of the first region, in list order, that `AllocFromRegion` accepts: the region
    * a first-fit search takes. */
  function FirstFit(s: seq<Node>, size: nat, align: nat): (r: Option<nat>)
    requires Align.IsPowerOfTwo(align)
    ensures r.Some? ==> r.value < |s| && AllocFromRegion(s[r.value], size, align).Ok?
    ensures r.Some? ==> forall j :: 0 <= j < r.value ==> AllocFromRegion(s[j], size, align).Err?
    ensures r.None? ==> forall j :: 0 <= j < |s| ==> AllocFromRegion(s[j], size, align).Err?
    decreases |s|
  {
    if s == [] then None
    else if AllocFromRegion(s[0], size, align).Ok? then Some(0)
    else
      match FirstFit(s[1..], size, align)
      case None => None
      case Some(i) => Some(i + 1)
  }

  /** The list without its `i`-th region, the others in their order. */
  function Without(s: seq<Node>, i: nat): (r: seq<Node>)
    requires i < |s|
    ensures |r| == |s| - 1
    ensures forall j :: 0 <= j < i ==> r[j] == s[j]
    ensures forall j :: i <= j < |r| ==> r[j] == s[j + 1]
  {
    s[..i] + s[i + 1..]
  }

  /** Removing a region keeps every remaining region able to hold its node. */
  lemma WithoutNodesOk(s: seq<Node>, i: nat)
    requires i < |s| && AllNodesOk(s)
    ensures AllNodesOk(Without(s, i))
  {
    var r := Without(s, i);
    forall j | 0 <= j < |r|
      ensures NodeOk(r[j])
    {
      if j >= i {
        assert r[j] == s[j + 1];
      }
    }
  }
}
