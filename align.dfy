/** Address alignment helpers of the kernel allocator (`align_down`, `align_up`) and the
  * part of Rust's `core::alloc::Layout` that the allocators rely on.
  *
  * Addresses are unbounded naturals. For a power-of-two `align`, clearing the low bits
  * (`x & !(align - 1)`) is the same as subtracting `x % align`; the model uses the
  * arithmetic form. */
module Align {
  import opened Wrappers
  import Arith

  /** 2^64, the number of distinct `usize` values on aarch64. */
  const WORD: nat := 0x1_0000_0000_0000_0000
  /** `isize::MAX`, the bound Rust places on a layout's padded size. */
  const ISIZE_MAX: nat := 0x7FFF_FFFF_FFFF_FFFF

  /** `usize::is_power_of_two`. */
  predicate IsPowerOfTwo(n: nat)
    decreases n
  {
    n == 1 || (n > 1 && n % 2 == 0 && IsPowerOfTwo(n / 2))
  }

  /** Every power of two divides every larger power of two. */
  lemma {:induction false} PowerOfTwoDivides(a: nat, b: nat)
    requires IsPowerOfTwo(a) && IsPowerOfTwo(b) && a <= b
    ensures b % a == 0
    decreases a
  {
    if a > 1 {
      PowerOfTwoDivides(a / 2, b / 2);
      var k := (b / 2) / (a / 2);
      assert b / 2 == k * (a / 2) by { Arith.RoundDown(b / 2, a / 2); }
      assert b == k * a;
      Arith.MultipleMod(k, a);
    }
  }

  /** The product of two powers of two is a power of two. */
  lemma {:induction false} PowerOfTwoProduct(a: nat, b: nat)
    requires IsPowerOfTwo(a) && IsPowerOfTwo(b)
    ensures IsPowerOfTwo(a * b)
    decreases a
  {
    if a > 1 {
      PowerOfTwoProduct(a / 2, b);
      assert a * b == 2 * ((a / 2) * b);
    }
  }

  /** `align_down`: for a power of two the greatest multiple of `align` not above `size`;
    * an alignment of 0 leaves `size` unchanged; any other alignment panics. */
  function AlignDown(size: nat, align: nat): (r: Outcome<nat>)
    ensures IsPowerOfTwo(align) ==> r.Done? && r.value % align == 0 && r.value <= size < r.value + align
    ensures align == 0 ==> r == Done(size)
    ensures r.Panic? <==> align != 0 && !IsPowerOfTwo(align)
  {
    if IsPowerOfTwo(align) then RoundDownFacts(size, align); Done(size - size % align)
    else if align == 0 then Done(size)
    else Panic("`align` must be a power of 2")
  }

  /** `size - size % align` is a multiple of `align` in `(size - align, size]`. */
  lemma RoundDownFacts(size: nat, align: nat)
    requires align > 0
    ensures size % align <= size && (size - size % align) % align == 0
  {
    if size < align {
      Arith.DivModUnique(size, align, 0, size);
    }
    Arith.RoundDown(size, align);
  }

  /** No multiple of `align` lies strictly between `AlignDown(size, align)` and `size`. */
  lemma AlignDownGreatest(size: nat, align: nat, m: nat)
    requires IsPowerOfTwo(align) && m % align == 0 && m <= size
    ensures m <= AlignDown(size, align).value
  {
    Arith.MultipleBelow(size, align, m);
  }

  /** `align_up`: the least multiple of `align` not below `addr`.
    * The source requires `align` to be a power of two. */
  function AlignUp(addr: nat, align: nat): (r: nat)
    requires IsPowerOfTwo(align)
    ensures r % align == 0 && addr <= r < addr + align
    ensures addr % align == 0 ==> r == addr
  {
    Arith.RoundUp(addr, align);
    (addr + align - 1) - (addr + align - 1) % align
  }

  /** No multiple of `align` lies at or above `addr` and below `AlignUp(addr, align)`. */
  lemma AlignUpLeast(addr: nat, align: nat, m: nat)
    requires IsPowerOfTwo(align) && m % align == 0 && addr <= m
    ensures AlignUp(addr, align) <= m
  {
    var r := AlignUp(addr, align);
    var q, p := m / align, r / align;
    assert m == q * align by { Arith.RoundDown(m, align); }
    assert r == p * align by { Arith.RoundDown(r, align); }
    if q <= p - 1 {
      Arith.MulLeRight(q, p - 1, align);
      assert false;
    }
    Arith.MulLeRight(p, q, align);
  }

  /** A multiple of `big` is a multiple of every divisor of `big`. */
  lemma MultipleOfDivisor(r: nat, big: nat, small: nat)
    requires big > 0 && small > 0 && r % big == 0 && big % small == 0
    ensures r % small == 0
  {
    var k := r / big;
    var j := big / small;
    assert r == k * big by { Arith.RoundDown(r, big); }
    assert big == j * small by { Arith.RoundDown(big, small); }
    assert r == (k * j) * small;
    Arith.MultipleMod(k * j, small);
  }

  /** Aligning up twice, or to a smaller power of two after a larger one, changes nothing. */
  lemma AlignUpToDivisor(addr: nat, big: nat, small: nat)
    requires IsPowerOfTwo(big) && IsPowerOfTwo(small) && small <= big
    ensures AlignUp(AlignUp(addr, big), small) == AlignUp(addr, big)
  {
    var r := AlignUp(addr, big);
    PowerOfTwoDivides(small, big);
    MultipleOfDivisor(r, big, small);
  }

  /** `core::alloc::Layout`: a size and a power-of-two alignment. */
  datatype Layout = Layout(size: nat, align: nat)

  /** The invariant `Layout::from_size_align` establishes: the alignment is a power of two and
    * the size rounded up to it does not exceed `isize::MAX`. */
  predicate ValidLayout(l: Layout) {
    IsPowerOfTwo(l.align) && AlignUp(l.size, l.align) <= ISIZE_MAX
  }

  /** `Layout::from_size_align`: `None` stands for its `LayoutError`. */
  function FromSizeAlign(size: nat, align: nat): (r: Option<Layout>)
    ensures r.Some? <==> ValidLayout(Layout(size, align))
    ensures r.Some? ==> r.value == Layout(size, align)
  {
    if IsPowerOfTwo(align) && AlignUp(size, align) <= ISIZE_MAX then Some(Layout(size, align)) else None
  }

  /** `Layout::align_to`: the same size with the larger of the two alignments. */
  function AlignTo(l: Layout, align: nat): (r: Option<Layout>)
    requires IsPowerOfTwo(align)
    ensures r.Some? ==> ValidLayout(r.value) && r.value.size == l.size
    ensures r.Some? ==> r.value.align >= align && r.value.align >= l.align
    ensures r.Some? ==> r.value.align == align || r.value.align == l.align
    ensures r.Some? <==> ValidLayout(Layout(l.size, if l.align >= align then l.align else align))
    ensures ValidLayout(l) ==>
      (r.None? <==> AlignUp(l.size, if l.align >= align then l.align else align) > ISIZE_MAX)
  {
    FromSizeAlign(l.size, if l.align >= align then l.align else align)
  }

  /** `Layout::pad_to_align`: the size rounded up to a multiple of the alignment. */
  function PadToAlign(l: Layout): (r: Layout)
    requires ValidLayout(l)
    ensures ValidLayout(r) && r.align == l.align
    ensures r.size % r.align == 0 && l.size <= r.size < l.size + l.align
  {
    Layout(AlignUp(l.size, l.align), l.align)
  }
}
