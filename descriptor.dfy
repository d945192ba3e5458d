/** Attribute bits and the 64-bit descriptor word of an aarch64 stage-1 translation table with
  * a 4 KiB granule (`Attributes`, `Descriptor` and the paging constants of mem/vm/paging.rs).
  *
  * `Attributes` is a `bitflags` set over eleven bits; the model keeps one boolean per bit.
  * A descriptor is a 64-bit word, written as 64 booleans with bit 0 first, so that `|` and `&`
  * act bit by bit. Its bits 0-11 and 48-63 hold attributes; bits 12-47 hold the output
  * address. */
module Descriptors {
  import opened Wrappers
  import Arith

  const PAGE_SHIFT: nat := 12
  /** The level whose entries are all page mappings. */
  const LEAF_LEVEL: nat := 3
  const PAGE_SIZE: nat := 4096
  /** Address bits resolved by one level of lookup. */
  const BITS_PER_LEVEL: nat := 9
  /** Entries in one table, `1 << BITS_PER_LEVEL`. */
  const ENTRIES: nat := 512
  /** 2^48: output addresses and the root table's span lie below it. */
  const OA_LIMIT: nat := 0x1_0000_0000_0000

  /** One boolean per defined attribute bit:
    * 0 VALID, 1 TABLE_OR_PAGE, 2 attribute index (part of NORMAL), 6 USER, 7 READ_ONLY,
    * 8 and 9 shareability (part of NORMAL), 10 ACCESSED, 11 NON_GLOBAL,
    * 53 and 54 the two execute-never bits (together EXECUTE_NEVER). */
  datatype Attributes = Attributes(
    valid: bool, tableOrPage: bool, attrIndex: bool, user: bool, readOnly: bool,
    share0: bool, share1: bool, accessed: bool, nonGlobal: bool, pxn: bool, uxn: bool)

  const EMPTY := Attributes(false, false, false, false, false, false, false, false, false, false, false)
  const VALID := EMPTY.(valid := true)
  const TABLE_OR_PAGE := EMPTY.(tableOrPage := true)
  /** Device-nGnRnE memory is attribute index 0: no bit set. */
  const DEVICE_NGNRNE := EMPTY
  /** Normal memory: attribute index 1, inner shareable. */
  const NORMAL := EMPTY.(attrIndex := true, share0 := true, share1 := true)
  const USER := EMPTY.(user := true)
  const READ_ONLY := EMPTY.(readOnly := true)
  const ACCESSED := EMPTY.(accessed := true)
  const NON_GLOBAL := EMPTY.(nonGlobal := true)
  const EXECUTE_NEVER := EMPTY.(pxn := true, uxn := true)

  /** `a | b` on attribute sets. */
  function Union(a: Attributes, b: Attributes): Attributes {
    Attributes(a.valid || b.valid, a.tableOrPage || b.tableOrPage, a.attrIndex || b.attrIndex,
      a.user || b.user, a.readOnly || b.readOnly, a.share0 || b.share0, a.share1 || b.share1,
      a.accessed || b.accessed, a.nonGlobal || b.nonGlobal, a.pxn || b.pxn, a.uxn || b.uxn)
  }

  /** `a.contains(b)`: every bit of `b` is set in `a`. */
  predicate Contains(a: Attributes, b: Attributes) {
    (b.valid ==> a.valid) && (b.tableOrPage ==> a.tableOrPage) && (b.attrIndex ==> a.attrIndex)
    && (b.user ==> a.user) && (b.readOnly ==> a.readOnly) && (b.share0 ==> a.share0)
    && (b.share1 ==> a.share1) && (b.accessed ==> a.accessed) && (b.nonGlobal ==> a.nonGlobal)
    && (b.pxn ==> a.pxn) && (b.uxn ==> a.uxn)
  }

  /** A 64-bit word, least significant bit first. */
  type Word = s: seq<bool> | |s| == 64 witness seq(64, k => false)

  function Zero(): Word { seq(64, k => false) }

  /** `x | y`. */
  function Or(x: Word, y: Word): Word {
    seq(64, k requires 0 <= k < 64 => x[k] || y[k])
  }

  /** `x & y`. */
  function And(x: Word, y: Word): Word {
    seq(64, k requires 0 <= k < 64 => x[k] && y[k])
  }

  /** `!(PAGE_SIZE - 1) & !(0xffff << 48)`: bits 12-47. */
  function OutputAddressMask(): Word { seq(64, k => 12 <= k < 48) }

  /** `(PAGE_SIZE - 1) | (0xffff << 48)`: bits 0-11 and 48-63. */
  function AttributeMask(): Word { seq(64, k => k < 12 || 48 <= k) }

  /** The positions of the eleven defined attribute bits. */
  predicate IsDefinedBit(k: nat) {
    k <= 2 || 6 <= k <= 11 || k == 53 || k == 54
  }

  /** Bit `k` of `a.bits()`. */
  function BitOf(a: Attributes, k: nat): bool {
    if k == 0 then a.valid
    else if k == 1 then a.tableOrPage
    else if k == 2 then a.attrIndex
    else if k == 6 then a.user
    else if k == 7 then a.readOnly
    else if k == 8 then a.share0
    else if k == 9 then a.share1
    else if k == 10 then a.accessed
    else if k == 11 then a.nonGlobal
    else if k == 53 then a.pxn
    else if k == 54 then a.uxn
    else false
  }

  /** `a.bits()`. */
  function BitsOf(a: Attributes): (w: Word)
    ensures forall k :: 0 <= k < 64 && !IsDefinedBit(k) ==> !w[k]
  {
    seq(64, k requires 0 <= k < 64 => BitOf(a, k))
  }

  /** The attribute set named by the defined bits of `x`, ignoring the others. */
  function Decode(x: Word): Attributes {
    Attributes(x[0], x[1], x[2], x[6], x[7], x[8], x[9], x[10], x[11], x[53], x[54])
  }

  /** No undefined bit of `x` from position `k` on is set. */
  predicate UndefinedClear(x: Word, k: nat)
    decreases 64 - k
  {
    k >= 64 || ((IsDefinedBit(k) || !x[k]) && UndefinedClear(x, k + 1))
  }

  /** `Attributes::from_bits`: the set with exactly the bits of `x`, or `None` when `x` has an
    * undefined bit set. */
  function FromWord(x: Word): (r: Option<Attributes>)
    ensures r.Some? ==> r.value == Decode(x)
  {
    if UndefinedClear(x, 0) then Some(Decode(x)) else None
  }

  /** `UndefinedClear` checks every undefined bit from `k` on. */
  lemma {:induction false} UndefinedClearAll(x: Word, k: nat)
    ensures UndefinedClear(x, k) <==> forall j :: k <= j < 64 && !IsDefinedBit(j) ==> !x[j]
    decreases 64 - k
  {
    if k < 64 {
      UndefinedClearAll(x, k + 1);
    }
  }

  /** `from_bits` fails exactly when an undefined bit is set, and otherwise returns the set
    * whose bits are exactly those of `x`. */
  lemma FromWordDefined(x: Word)
    ensures FromWord(x).Some? <==> forall k :: 0 <= k < 64 && !IsDefinedBit(k) ==> !x[k]
    ensures FromWord(x).Some? ==> BitsOf(FromWord(x).value) == x
  {
    UndefinedClearAll(x, 0);
    if FromWord(x).Some? {
      var a := Decode(x);
      forall k | 0 <= k < 64 ensures BitsOf(a)[k] == x[k] {
        if !IsDefinedBit(k) {
          assert !x[k];
        }
      }
    }
  }

  /** The defined bits of an attribute set's bit pattern name that set. */
  lemma DecodeOfBits(a: Attributes)
    ensures Decode(BitsOf(a)) == a
  {
    var w := BitsOf(a);
    var d := Decode(w);
    assert d.valid == a.valid && d.tableOrPage == a.tableOrPage && d.attrIndex == a.attrIndex;
    assert d.user == a.user && d.readOnly == a.readOnly && d.share0 == a.share0;
    assert d.share1 == a.share1 && d.accessed == a.accessed && d.nonGlobal == a.nonGlobal;
    assert d.pxn == a.pxn && d.uxn == a.uxn;
  }

  /** Every attribute set reads back from its own bits. */
  lemma FromWordOfBits(a: Attributes)
    ensures FromWord(BitsOf(a)) == Some(a)
  {
    DecodeOfBits(a);
    UndefinedClearAll(BitsOf(a), 0);
  }

  /** The word holding the number `x < 2^64`. */
  function FromNat(x: nat): Word
    requires x < 0x1_0000_0000_0000_0000
  {
    Arith.ToBits(x, 64)
  }

  /** The number a word holds. */
  function ToNat(w: Word): nat {
    Arith.FromBits(w)
  }

  /** Reading back the number a word was built from. */
  lemma ToNatFromNat(x: nat)
    requires x < 0x1_0000_0000_0000_0000
    ensures ToNat(FromNat(x)) == x
  {
    Arith.FromToBits(x, 64);
    Arith.Pow2Values();
    Arith.DivModUnique(x, 0x1_0000_0000_0000_0000, 0, x);
  }

  /** `Descriptor::is_valid`. */
  predicate IsValid(w: Word) { w[0] }

  /** `Descriptor::output_address`: bits 12-47 of a valid descriptor. */
  function OutputAddress(w: Word): (r: Option<nat>)
    ensures r.Some? <==> IsValid(w)
    ensures r.Some? ==> r.value % PAGE_SIZE == 0 && r.value < OA_LIMIT
  {
    if IsValid(w) then
      OutputAddressBits(And(w, OutputAddressMask()));
      Some(ToNat(And(w, OutputAddressMask())))
    else None
  }

  /** A word with only bits 12-47 possibly set holds a page-aligned number below 2^48. */
  lemma OutputAddressBits(m: Word)
    requires forall k :: 0 <= k < 64 && !(12 <= k < 48) ==> !m[k]
    ensures ToNat(m) % PAGE_SIZE == 0 && ToNat(m) < OA_LIMIT
  {
    Arith.FromBitsLowZero(m, 12);
    Arith.FromBitsHighZero(m, 48);
    Arith.Pow2Values();
  }

  /** `Descriptor::flags`: the attribute bits of a valid descriptor, `None` when the descriptor
    * is invalid or has an undefined bit set. */
  function Flags(w: Word): (r: Option<Attributes>)
    ensures r.Some? ==> IsValid(w) && r.value.valid
  {
    if IsValid(w) then FromWord(And(w, AttributeMask())) else None
  }

  /** `Descriptor::is_table_or_page`. */
  predicate IsTableOrPage(w: Word) {
    Flags(w).Some? && Flags(w).value.tableOrPage
  }

  /** `Descriptor::set`: `pa | (flags | VALID).bits()`, with `pa` held in a `usize`. */
  function Set(pa: nat, flags: Attributes): Word {
    Or(FromNat(pa % 0x1_0000_0000_0000_0000), BitsOf(Union(flags, VALID)))
  }

  /** A page-aligned address below 2^48 has no bit set outside bits 12-47. */
  lemma AddressBits(pa: nat)
    requires pa % PAGE_SIZE == 0 && pa < OA_LIMIT
    ensures forall k :: 0 <= k < 64 && !(12 <= k < 48) ==> !FromNat(pa)[k]
  {
    Arith.Pow2Values();
    forall k | 0 <= k < 64 && !(12 <= k < 48) ensures !FromNat(pa)[k] {
      if k < 12 {
        Arith.ToBitsLowZero(pa, 64, 12, k);
      } else {
        Arith.ToBitsHighZero(pa, 64, 48, k);
      }
    }
  }

  /** A descriptor written by `set` reads back as valid, with the address and the flags
    * (plus VALID) it was written with. */
  lemma SetDecodes(pa: nat, flags: Attributes)
    requires pa % PAGE_SIZE == 0 && pa < OA_LIMIT
    ensures IsValid(Set(pa, flags))
    ensures OutputAddress(Set(pa, flags)) == Some(pa) && Flags(Set(pa, flags)) == Some(Union(flags, VALID))
  {
    var f := Union(flags, VALID);
    var w := Set(pa, flags);
    assert w == Or(FromNat(pa), BitsOf(f)) by {
      assert pa % 0x1_0000_0000_0000_0000 == pa;
    }
    assert ToNat(And(w, OutputAddressMask())) == pa by {
      AddressBits(pa);
      assert And(w, OutputAddressMask()) == FromNat(pa);
      ToNatFromNat(pa);
    }
    assert FromWord(And(w, AttributeMask())) == Some(f) by {
      AddressBits(pa);
      assert And(w, AttributeMask()) == BitsOf(f);
      FromWordOfBits(f);
    }
  }
}
