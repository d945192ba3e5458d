/** `RootPageTable` of mem/vm/paging.rs: the level-0 table of one half of the address space, the
  * checks its `map_range` makes on a range before handing it to the table, and the saved TTBR
  * value of `activate` and `deactivate`. */
module RootTables {
  import opened Wrappers
  import opened Descriptors
  import opened Paging
  import PagingProofs
  import Align
  import Arith

  /** The translation table base register a root table is meant for: TTBR0 for the lower half
    * of the address space, TTBR1 for the upper half. */
  datatype VaRange = Lower | Upper

  /** The errors of `map_range`. */
  datatype MapError = RegionBackwards(region: Region) | AddressRange(address: nat)

  /** `x as isize < 0`: bit 63 of the address is set. */
  predicate SignBit(x: nat) {
    x >= 0x8000_0000_0000_0000
  }

  /** The range lies in the half of the address space of `vaRange`, a table of `size` bytes
    * counted up from 0 (lower) or down from 2^64 (upper). */
  predicate InHalf(vaRange: VaRange, range: Region, size: nat) {
    match vaRange
    case Lower => range.end <= size
    case Upper => Align.WORD - size <= range.start
  }

  /** The checks of `RootPageTable::map_range` before it maps anything: a backwards range, then
    * for a lower table a start with the sign bit set or an end past the table's size, for an
    * upper table a start with the sign bit clear or whose distance below 2^64
    * (`unsigned_abs` of the start as `isize`) exceeds the size. */
  function CheckRange(vaRange: VaRange, range: Region, size: nat): (r: Option<MapError>)
    requires range.start < Align.WORD && range.end < Align.WORD
    ensures r == Some(RegionBackwards(range)) <==> range.end < range.start
    ensures r.Some? && range.start <= range.end ==> r.value.AddressRange?
    ensures size < 0x8000_0000_0000_0000 ==> (r.None? <==> range.start <= range.end && InHalf(vaRange, range, size))
  {
    if range.end < range.start then Some(RegionBackwards(range))
    else
      match vaRange
      case Lower =>
        if SignBit(range.start) then Some(AddressRange(range.start))
        else if range.end > size then Some(AddressRange(range.end))
        else None
      case Upper =>
        if !SignBit(range.start) || Align.WORD - range.start > size then Some(AddressRange(range.start))
        else None
  }

  /** The addresses `vaRange`'s half of the address space holds for a table of 2^48 bytes. */
  predicate Serves(vaRange: VaRange, va: nat) {
    match vaRange
    case Lower => va < OA_LIMIT
    case Upper => Align.WORD - OA_LIMIT <= va < Align.WORD
  }

  /** A page-aligned range `CheckRange` accepts for a root table is one `PageTable::map_range`
    * can take at the root level: it does not leave the window of its start. */
  lemma AcceptedRangeOk(vaRange: VaRange, range: Region)
    requires PageAligned(range) && range.start < Align.WORD && range.end < Align.WORD
    requires CheckRange(vaRange, range, Span(0)).None?
    ensures RangeOk(range, 0)
  {
    var s := Span(0);
    Arith.RoundDown(range.start, s);
    assert WindowEnd(range.start, 0) == range.start - range.start % s + s;
    if vaRange == Upper {
      var k := 0xFFFF;
      Arith.DivModUnique(range.start, s, k, range.start - k * s);
    }
  }

  /** The window of the root level that holds a non-empty range `CheckRange` accepts is the
    * half of the address space the table serves. */
  lemma AcceptedRangeWindow(vaRange: VaRange, range: Region, va: nat)
    requires range.start < range.end < Align.WORD
    requires CheckRange(vaRange, range, Span(0)).None? && va < Align.WORD
    ensures SameWindow(va, range.start, 0) <==> Serves(vaRange, va)
  {
    var s := Span(0);
    var k := if vaRange == Lower then 0 else 0xFFFF;
    assert k * s <= range.start < (k + 1) * s;
    Arith.DivModUnique(range.start, s, k, range.start - k * s);
    if k * s <= va < (k + 1) * s {
      Arith.DivModUnique(va, s, k, va - k * s);
    } else if va < k * s {
      assert va / s < k by {
        Arith.RoundDown(va, s);
      }
    } else {
      assert va / s > k by {
        Arith.RoundDown(va, s);
      }
    }
  }

  /** A root table `map_range` accepts the range for maps it, keeps the table well formed and
    * leaves the rest of the table's half of the address space as it was; it panics only
    * when the range reaches the last 512 GiB below 2^64. */
  lemma RootMapCorrect(t: PageTable, vaRange: VaRange, range: Region, pa: nat, flags: Attributes, tablePa: nat)
    requires WellFormed(t) && t.level == 0 && PageAligned(range) && range.start < Align.WORD && range.end < Align.WORD
    requires CheckRange(vaRange, range, Span(0)).None?
    requires PagingProofs.PhysicalOk(pa, Len(range)) && PagingProofs.MapArgsOk(flags, tablePa)
    ensures var m := MapRangeSpec(t, range, pa, flags, tablePa);
      (m.Done? ==> WellFormed(m.value)
                   && forall va: nat | va < Align.WORD && Serves(vaRange, va) ::
                        Translate(m.value, va) == PagingProofs.Target(t, va, range, pa, PagingProofs.MappedAttributes(flags)))
      && (m.Panic? ==> vaRange == Upper && range.end + Granularity(0) > Align.WORD)
  {
    AcceptedRangeOk(vaRange, range);
    PagingProofs.MapRangeCorrect(t, range, pa, flags, tablePa);
    var m := MapRangeSpec(t, range, pa, flags, tablePa);
    if m.Done? && range.start < range.end {
      forall va: nat | va < Align.WORD && Serves(vaRange, va)
        ensures Translate(m.value, va) == PagingProofs.Target(t, va, range, pa, PagingProofs.MappedAttributes(flags))
      {
        AcceptedRangeWindow(vaRange, range, va);
      }
    } else if m.Done? {
      assert m.value == t by {
        assert NextChunk(range, Granularity(0), range.start).0.None?;
      }
    }
  }

  /** The TTBR value `activate` writes: the table's physical address with the ASID in bits 48
    * and up (`pa | asid << 48`, the shift dropping ASID bits past bit 63). */
  function TtbrValue(pa: nat, asid: nat): (r: nat)
    requires pa < OA_LIMIT
    ensures r < Align.WORD && r % OA_LIMIT == pa && r / OA_LIMIT == asid % 0x1_0000
  {
    Arith.DivModUnique(pa + (asid % 0x1_0000) * OA_LIMIT, OA_LIMIT, asid % 0x1_0000, pa);
    pa + (asid % 0x1_0000) * OA_LIMIT
  }

  class RootPageTable {
    var table: PageTable
    const pa: nat
    const vaRange: VaRange
    const asid: nat
    var previousTtbr: Option<nat>

    /** A root table is a well-formed level-0 table at a page of physical memory. */
    ghost predicate Valid()
      reads this
    {
      table.level == 0 && WellFormed(table) && pa % PAGE_SIZE == 0 && pa < OA_LIMIT
    }

    /** `RootPageTable::new`, with the physical page `PageTable::new(0)` allocates for the
      * root as `pa`: an empty level-0 table and no saved TTBR value. */
    constructor (asid: nat, vaRange: VaRange, pa: nat)
      requires pa % PAGE_SIZE == 0 && pa < OA_LIMIT
      ensures Valid() && this.asid == asid && this.vaRange == vaRange && this.pa == pa
      ensures previousTtbr == None && table == NewTable(0).value
      ensures forall va: nat :: Translate(table, va) == None
    {
      table := NewTable(0).value;
      this.pa := pa;
      this.vaRange := vaRange;
      this.asid := asid;
      previousTtbr := None;
    }

    /** `size`: `granularity_at_level(level) << BITS_PER_LEVEL`, the bytes of address space the
      * table covers, 2^48 for the root level. */
    function Size(): (r: nat)
      reads this
      requires table.level <= LEAF_LEVEL
      ensures r == Span(table.level)
      ensures table.level == 0 ==> r == 0x1_0000_0000_0000
    {
      Granularity(table.level) * ENTRIES
    }

    /** `map_range`: a range the checks reject leaves the table as it was and returns the error;
      * otherwise the table is the one `PageTable::map_range` leaves, or the call panics as that
      * does. */
    method MapRange(range: Region, pa: nat, flags: Attributes, tablePa: nat) returns (r: Outcome<Result<(), MapError>>)
      requires table.level == 0 && PageAligned(range) && range.start < Align.WORD && range.end < Align.WORD
      modifies this
      ensures CheckRange(vaRange, range, Span(0)).Some? ==>
        r == Done(Err(CheckRange(vaRange, range, Span(0)).value)) && table == old(table)
      ensures CheckRange(vaRange, range, Span(0)).None? ==>
        match MapRangeSpec(old(table), range, pa, flags, tablePa)
        case Panic(m) => r == Panic(m)
        case Done(t) => r == Done(Ok(())) && table == t
      ensures previousTtbr == old(previousTtbr) && table.level == 0
      ensures old(Valid()) && range.start <= range.end && PagingProofs.PhysicalOk(pa, Len(range)) && PagingProofs.MapArgsOk(flags, tablePa) && r.Done? ==> Valid()
    {
      var size := Size();
      var e := CheckRange(vaRange, range, size);
      if e.Some? {
        return Done(Err(e.value));
      }
      if Valid() && PagingProofs.PhysicalOk(pa, Len(range)) && PagingProofs.MapArgsOk(flags, tablePa) {
        RootMapCorrect(table, vaRange, range, pa, flags, tablePa);
      }
      var m := Paging.MapRange(table, range, pa, flags, tablePa);
      if m.Panic? {
        return Panic(m.message);
      }
      table := m.value;
      r := Done(Ok(()));
    }

    /** `activate`, with `current` the value it reads from the TTBR: it panics if a value is saved
      * already; otherwise it saves `current` and returns the value it writes to the TTBR. */
    method Activate(current: nat) returns (r: Outcome<nat>)
      requires pa < OA_LIMIT
      modifies this
      ensures old(previousTtbr).Some? ==> r.Panic? && previousTtbr == old(previousTtbr)
      ensures old(previousTtbr).None? ==> r == Done(TtbrValue(pa, asid)) && previousTtbr == Some(current)
      ensures table == old(table)
    {
      if previousTtbr.Some? {
        return Panic("assertion failed: self.previous_ttbr.is_none()");
      }
      previousTtbr := Some(current);
      r := Done(TtbrValue(pa, asid));
    }

    /** `deactivate`: it panics without a saved value (the `unwrap`); otherwise it returns the
      * saved value, which it writes back to the TTBR, and forgets it. */
    method Deactivate() returns (r: Outcome<nat>)
      modifies this
      ensures old(previousTtbr).None? ==> r.Panic? && previousTtbr == None
      ensures old(previousTtbr).Some? ==> r == Done(old(previousTtbr).value) && previousTtbr == None
      ensures table == old(table)
    {
      if previousTtbr.None? {
        return Panic("called `Option::unwrap()` on a `None` value");
      }
      r := Done(previousTtbr.value);
      previousTtbr := None;
    }
    /** `invalidate_previous_ttbr`, which mem.rs calls on the bootstrap table but paging.rs does
      * not define: forgets the saved value, so that dropping the table does not restore it. */
    method InvalidatePreviousTtbr()
      modifies this
      ensures previousTtbr == None && table == old(table)
    {
      previousTtbr := None;
    }
  }

  /** Activating and then deactivating restores the TTBR value that was there before. */
  method ActivateThenDeactivate(root: RootPageTable, current: nat) returns (restored: Outcome<nat>)
    requires root.Valid() && root.previousTtbr.None?
    modifies root
    ensures restored == Done(current) && root.previousTtbr == None && root.table == old(root.table)
  {
    var a := root.Activate(current);
    restored := root.Deactivate();
  }
}
