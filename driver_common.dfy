/** `BoundedUsize` of driver/common.rs: a `usize` checked against an inclusive upper bound
  * when it is made. The const generic bound is carried as a field. */
module DriverCommon {
  import opened Wrappers

  const USIZE_MODULUS: nat := 0x1_0000_0000_0000_0000

  type Usize = x: nat | x < USIZE_MODULUS

  datatype BoundedUsize = BoundedUsize(maxInclusive: Usize, value: Usize)

  /** What every `BoundedUsize` satisfies. */
  predicate Bounded(b: BoundedUsize) {
    b.value <= b.maxInclusive
  }

  /** `BoundedUsize::<MAX_INCLUSIVE>::new`: `assert!(value <= MAX_INCLUSIVE)`. */
  function New(maxInclusive: Usize, value: Usize): (r: Outcome<BoundedUsize>)
    ensures r.Panic? <==> value > maxInclusive
    ensures r.Done? ==> Bounded(r.value) && r.value.maxInclusive == maxInclusive
  {
    if value <= maxInclusive then Done(BoundedUsize(maxInclusive, value))
    else Panic("assertion failed: value <= MAX_INCLUSIVE")
  }

  /** `get`. */
  function Get(b: BoundedUsize): (v: Usize)
    requires Bounded(b)
    ensures v <= b.maxInclusive
  {
    b.value
  }

  /** `MAX_INCLUSIVE`: the const parameter the type was instantiated with. */
  function MaxInclusive(b: BoundedUsize): Usize {
    b.maxInclusive
  }

  /** `get` returns exactly what was passed to `new`, which lies within the type's bound. */
  lemma NewThenGet(maxInclusive: Usize, value: Usize)
    requires value <= maxInclusive
    ensures New(maxInclusive, value).Done?
    ensures Get(New(maxInclusive, value).value) == value
    ensures Get(New(maxInclusive, value).value) <= MaxInclusive(New(maxInclusive, value).value) == maxInclusive
  {
  }
}
