/** What `PageTable::map_range` (mem/vm/paging.rs) does to the translation a table encodes:
  * after a successful call every address of the range translates to the matching physical
  * address with the requested flags plus ACCESSED, every other address of the table's window
  * translates as before (including the rest of a block that had to be split), and the table
  * keeps the shape `WellFormed` describes. */
module PagingProofs {
  import opened Wrappers
  import opened Descriptors
  import opened Paging
  import Align
  import Arith

  /** The attributes a page or block mapped with `flags` reads back with. */
  function MappedAttributes(flags: Attributes): Attributes {
    Strip(Union(flags, ACCESSED))
  }

  /** What `va` translates to once `range` is mapped from `pa` on with `attrs`, when it
    * translated as `t` says before. */
  function Target(t: PageTable, va: nat, range: Region, pa: nat, attrs: Attributes): Option<Mapping> {
    if range.start <= va < range.end then Some(Mapping(pa + (va - range.start), attrs)) else Translate(t, va)
  }

  /** `r` translates the window of `base` at `t`'s level as `t` does, except that `range` maps
    * to `pa` onwards with `attrs`. */
  ghost predicate Maps(t: PageTable, r: PageTable, base: nat, range: Region, pa: nat, attrs: Attributes)
    requires t.level <= LEAF_LEVEL
  {
    forall va: nat :: SameWindow(va, base, t.level) ==> Translate(r, va) == Target(t, va, range, pa, attrs)
  }

  /** The physical address `map_range` may write: page-aligned and, with the length to map, not
    * past 2^48. */
  predicate PhysicalOk(pa: nat, len: nat) {
    pa % PAGE_SIZE == 0 && pa + len <= OA_LIMIT
  }

  // ----- Arithmetic on granules -----

  /** Inside the granule starting at `base`, the offset from `base` is the remainder. */
  lemma OffsetInGranule(va: nat, base: nat, g: nat)
    requires g > 0 && base % g == 0 && base <= va < base + g
    ensures va % g == va - base && va / g == base / g
  {
    var q := base / g;
    assert base == q * g by { Arith.RoundDown(base, g); }
    Arith.DivModUnique(va, g, q, va - base);
  }

  /** The first address of the granule at `level` that holds `va`. */
  function GranuleStart(va: nat, level: nat): (r: nat)
    requires level <= LEAF_LEVEL
    ensures r % Granularity(level) == 0 && r <= va < r + Granularity(level)
    ensures r / Granularity(level) == va / Granularity(level)
  {
    var g := Granularity(level);
    Align.RoundDownFacts(va, g);
    InGranule(va - va % g, va, g);
    va - va % g
  }

  /** A chunk at the leaf level, and a block chunk above it, is one whole granule. */
  lemma ChunkIsGranule(c: Region, level: nat)
    requires level <= LEAF_LEVEL && ChunkOk(c, level) && (level == LEAF_LEVEL || IsBlock(c, level))
    ensures c.start % Granularity(level) == 0 && c.end == c.start + Granularity(level)
  {
    var g := Granularity(level);
    if level == LEAF_LEVEL {
      assert c.start % g == 0;
    }
    InGranule(c.end - 1, c.start, g);
    NextMultiple(c.start, c.end, g);
  }

  /** An address of a chunk that fills its granule uses the chunk's entry, at the offset of the
    * address within the chunk. */
  lemma InChunk(c: Region, level: nat, va: nat)
    requires level <= LEAF_LEVEL && ChunkOk(c, level) && (level == LEAF_LEVEL || IsBlock(c, level))
    requires c.start <= va < c.end
    ensures Index(va, level) == Index(c.start, level) && va % Granularity(level) == va - c.start
  {
    ChunkIsGranule(c, level);
    OffsetInGranule(va, c.start, Granularity(level));
  }

  /** An address of the window outside a chunk that fills its granule uses another entry. */
  lemma OutsideChunk(c: Region, level: nat, va: nat)
    requires level <= LEAF_LEVEL && ChunkOk(c, level) && (level == LEAF_LEVEL || IsBlock(c, level))
    requires SameWindow(va, c.start, level) && !(c.start <= va < c.end)
    ensures Index(va, level) != Index(c.start, level)
  {
    ChunkIsGranule(c, level);
    InGranule(va, c.start, Granularity(level));
    IndexInWindow(va, c.start, level);
  }

  // ----- Writing a page or block descriptor -----

  /** The table `map_range` leaves after writing descriptor `w` at the chunk's index. */
  function Put(t: PageTable, c: Region, w: Word): PageTable
    requires t.level <= LEAF_LEVEL
  {
    t.(entries := t.entries[Index(c.start, t.level) := w])
  }

  /** `w` is a valid page (at the leaf level) or block descriptor (above it) for `level`, with
    * output address `pa` and attribute set `f`. */
  predicate Describes(w: Word, level: nat, pa: nat, f: Attributes)
    requires level <= LEAF_LEVEL
  {
    IsValid(w) && Flags(w) == Some(f) && OutputAddress(w) == Some(pa)
    && (level == LEAF_LEVEL <==> f.tableOrPage) && f.accessed && pa % Granularity(level) == 0
  }

  /** The chunk fills one granule of `t`, and above the leaf level its entry is not a table
    * descriptor, so a block or page descriptor can be written there. */
  predicate PutOk(t: PageTable, c: Region)
    requires t.level <= LEAF_LEVEL
  {
    ChunkOk(c, t.level) && (t.level == LEAF_LEVEL || IsBlock(c, t.level))
    && (t.level < LEAF_LEVEL ==> !IsTableOrPage(Entry(t, Index(c.start, t.level))))
  }

  /** `set(pa, x)` describes a page at the leaf level when `x` has TABLE_OR_PAGE, and a block
    * above it when `x` lacks it, with the attribute set `x | VALID`. */
  lemma SetDescribes(level: nat, pa: nat, x: Attributes)
    requires level <= LEAF_LEVEL && pa % Granularity(level) == 0 && pa < OA_LIMIT && x.accessed
    requires level == LEAF_LEVEL <==> x.tableOrPage
    ensures Describes(Set(pa, x), level, pa, Union(x, VALID))
  {
    Align.MultipleOfDivisor(pa, Granularity(level), PAGE_SIZE);
    SetDecodes(pa, x);
  }

  /** Writing a page or block descriptor keeps the table well formed. */
  lemma PutWellFormed(t: PageTable, c: Region, w: Word, pa: nat, f: Attributes)
    requires WellFormed(t) && PutOk(t, c) && Describes(w, t.level, pa, f)
    ensures WellFormed(Put(t, c, w))
  {
    var t' := Put(t, c, w);
    forall j | true ensures SlotOk(t', j) {
      assert SlotOk(t, j);
    }
  }

  /** After writing the descriptor, an address of the chunk translates through it. */
  lemma PutHere(t: PageTable, c: Region, w: Word, pa: nat, f: Attributes, va: nat)
    requires t.level <= LEAF_LEVEL && PutOk(t, c) && Describes(w, t.level, pa, f) && c.start <= va < c.end
    ensures Translate(Put(t, c, w), va) == Some(Mapping(pa + (va - c.start), Strip(f)))
  {
    InChunk(c, t.level, va);
  }

  /** Any other address of the window translates as before. */
  lemma PutElsewhere(t: PageTable, c: Region, w: Word, va: nat)
    requires t.level <= LEAF_LEVEL && PutOk(t, c) && SameWindow(va, c.start, t.level)
    requires !(c.start <= va < c.end)
    ensures Translate(Put(t, c, w), va) == Translate(t, va)
  {
    OutsideChunk(c, t.level, va);
    TranslateSameSlot(t, Put(t, c, w), va);
  }

  /** Every address of the window translates as `Target` says after writing the descriptor. */
  lemma PutAt(t: PageTable, c: Region, w: Word, pa: nat, f: Attributes, va: nat)
    requires t.level <= LEAF_LEVEL && PutOk(t, c) && Describes(w, t.level, pa, f) && SameWindow(va, c.start, t.level)
    ensures Translate(Put(t, c, w), va) == Target(t, va, c, pa, Strip(f))
  {
    if c.start <= va < c.end {
      PutHere(t, c, w, pa, f, va);
    } else {
      PutElsewhere(t, c, w, va);
    }
  }

  /** Writing the descriptor maps the chunk and leaves the rest of the window alone. */
  lemma PutMaps(t: PageTable, c: Region, w: Word, pa: nat, f: Attributes)
    requires t.level <= LEAF_LEVEL && PutOk(t, c) && Describes(w, t.level, pa, f)
    ensures Maps(t, Put(t, c, w), c.start, c, pa, Strip(f))
  {
    forall va: nat | SameWindow(va, c.start, t.level)
      ensures Translate(Put(t, c, w), va) == Target(t, va, c, pa, Strip(f))
    {
      PutAt(t, c, w, pa, f, va);
    }
  }

  // ----- Installing a subtable -----

  /** `sub` translates the granule of `base` at `t`'s level as `t` does. */
  ghost predicate Agrees(t: PageTable, sub: PageTable, base: nat)
    requires t.level < LEAF_LEVEL
  {
    forall va: nat :: SameWindow(va, base, t.level + 1) ==> Translate(sub, va) == Translate(t, va)
  }

  /** The table `map_range` leaves after pointing the chunk's entry, with descriptor `w`, to
    * subtable `sub`. */
  function Install(t: PageTable, c: Region, w: Word, sub: PageTable): PageTable
    requires t.level <= LEAF_LEVEL
  {
    var i := Index(c.start, t.level);
    t.(entries := t.entries[i := w], subtables := t.subtables[i := sub])
  }

  /** An address uses the entry of `base` at `level` exactly when it lies in the window of
    * `base` one level down, which is the granule of `base`. */
  lemma InSubWindow(va: nat, base: nat, level: nat)
    requires level < LEAF_LEVEL && SameWindow(va, base, level)
    ensures Index(va, level) == Index(base, level) <==> SameWindow(va, base, level + 1)
  {
    IndexInWindow(va, base, level);
  }

  /** A chunk lies in the window of its start one level down. */
  lemma ChunkInSubWindow(c: Region, level: nat, va: nat)
    requires level < LEAF_LEVEL && ChunkOk(c, level) && c.start <= va < c.end
    ensures SameWindow(va, c.start, level + 1)
  {
    var g := Granularity(level);
    InGranule(c.end - 1, c.start, g);
    InGranule(va, c.start, g);
  }

  /** A chunk is a range the table one level down can map. */
  lemma ChunkRangeOk(c: Region, level: nat)
    requires level < LEAF_LEVEL && ChunkOk(c, level)
    ensures RangeOk(c, level + 1)
  {
    var g := Granularity(level);
    InGranule(c.end - 1, c.start, g);
    Arith.RoundDown(c.start, g);
  }

  /** Pointing the entry to a well-formed subtable through a table descriptor keeps the table
    * well formed. */
  lemma InstallWellFormed(t: PageTable, c: Region, w: Word, sub: PageTable)
    requires WellFormed(t) && t.level < LEAF_LEVEL
    requires IsTableOrPage(w) && LeafOk(w, t.level) && WellFormed(sub) && sub.level == t.level + 1
    ensures WellFormed(Install(t, c, w, sub))
  {
    var t' := Install(t, c, w, sub);
    forall j | true ensures SlotOk(t', j) {
      assert SlotOk(t, j);
    }
  }

  /** An address of the chunk's granule translates through the new subtable. */
  lemma InstallHere(t: PageTable, c: Region, w: Word, sub: PageTable, sub': PageTable, pa: nat, attrs: Attributes, va: nat)
    requires t.level < LEAF_LEVEL && IsTableOrPage(w) && sub.level == t.level + 1
    requires Agrees(t, sub, c.start) && Maps(sub, sub', c.start, c, pa, attrs)
    requires SameWindow(va, c.start, t.level) && Index(va, t.level) == Index(c.start, t.level)
    ensures Translate(Install(t, c, w, sub'), va) == Target(t, va, c, pa, attrs)
  {
    InSubWindow(va, c.start, t.level);
    assert Translate(sub', va) == Target(sub, va, c, pa, attrs);
  }

  /** Any other address of the window translates as before. */
  lemma InstallElsewhere(t: PageTable, c: Region, w: Word, sub': PageTable, pa: nat, attrs: Attributes, va: nat)
    requires t.level < LEAF_LEVEL && ChunkOk(c, t.level)
    requires SameWindow(va, c.start, t.level) && Index(va, t.level) != Index(c.start, t.level)
    ensures Translate(Install(t, c, w, sub'), va) == Target(t, va, c, pa, attrs)
  {
    if c.start <= va < c.end {
      ChunkInSubWindow(c, t.level, va);
      InSubWindow(va, c.start, t.level);
      assert false;
    }
    TranslateSameSlot(t, Install(t, c, w, sub'), va);
  }

  /** Pointing the entry to the subtable in which the chunk was mapped maps the chunk and leaves
    * the rest of the window alone. */
  lemma InstallMaps(t: PageTable, c: Region, w: Word, sub: PageTable, sub': PageTable, pa: nat, attrs: Attributes)
    requires t.level < LEAF_LEVEL && ChunkOk(c, t.level) && IsTableOrPage(w) && sub.level == t.level + 1
    requires Agrees(t, sub, c.start) && Maps(sub, sub', c.start, c, pa, attrs)
    ensures Maps(t, Install(t, c, w, sub'), c.start, c, pa, attrs)
  {
    forall va: nat | SameWindow(va, c.start, t.level)
      ensures Translate(Install(t, c, w, sub'), va) == Target(t, va, c, pa, attrs)
    {
      if Index(va, t.level) == Index(c.start, t.level) {
        InstallHere(t, c, w, sub, sub', pa, attrs, va);
      } else {
        InstallElsewhere(t, c, w, sub', pa, attrs, va);
      }
    }
  }

  // ----- The subtable for a chunk -----

  /** Within the window of `base` one level down, every address uses the entry of `base`. */
  lemma SubWindowIndex(va: nat, base: nat, level: nat)
    requires level < LEAF_LEVEL && SameWindow(va, base, level + 1)
    ensures va / Granularity(level) == base / Granularity(level) && Index(va, level) == Index(base, level)
  {
    assert Span(level + 1) == Granularity(level);
  }

  /** An existing subtable, taken one level down, is the subtable itself, and it translates the
    * chunk's granule as the table does. */
  lemma ExistingAgrees(t: PageTable, c: Region)
    requires WellFormed(t) && t.level < LEAF_LEVEL
    requires var i := Index(c.start, t.level); IsTableOrPage(Entry(t, i)) && i in t.subtables
    ensures var i := Index(c.start, t.level); var sub := t.subtables[i];
      sub.(level := t.level + 1) == sub && WellFormed(sub) && LeafOk(Entry(t, i), t.level) && Agrees(t, sub, c.start)
  {
    var i := Index(c.start, t.level);
    assert SlotOk(t, i);
    forall va: nat | SameWindow(va, c.start, t.level + 1)
      ensures Translate(t.subtables[i], va) == Translate(t, va)
    {
      SubWindowIndex(va, c.start, t.level);
    }
  }

  /** Without a valid descriptor with defined flags at the entry, the chunk's granule
    * translates to nothing, as in a new table. */
  lemma EmptyAgrees(t: PageTable, c: Region)
    requires t.level < LEAF_LEVEL
    requires var e := Entry(t, Index(c.start, t.level)); !(Flags(e).Some? && OutputAddress(e).Some?)
    ensures Agrees(t, NewTable(t.level + 1).value, c.start)
  {
    forall va: nat | SameWindow(va, c.start, t.level + 1)
      ensures Translate(NewTable(t.level + 1).value, va) == Translate(t, va)
    {
      SubWindowIndex(va, c.start, t.level);
    }
  }

  /** `set(table_pa, TABLE_OR_PAGE)` is a table descriptor. */
  lemma TableDescriptor(tablePa: nat, level: nat)
    requires level < LEAF_LEVEL && tablePa % PAGE_SIZE == 0 && tablePa < OA_LIMIT
    ensures IsTableOrPage(Set(tablePa, TABLE_OR_PAGE)) && LeafOk(Set(tablePa, TABLE_OR_PAGE), level)
  {
    SetDecodes(tablePa, TABLE_OR_PAGE);
  }

  /** The granule of `s`, for a granularity `g` dividing 2^64, when `[s, e)` lies in it and
    * rounding `e` up does not overflow: from `align_down(s, g)` to `align_up(e, g)`, followed
    * by at least one more granule below 2^64. */
  lemma RoundedGranule(s: nat, e: nat, g: nat)
    requires Align.IsPowerOfTwo(g) && s < e && s / g == (e - 1) / g && e + g - 1 < Align.WORD
    requires Align.WORD % g == 0
    ensures Align.AlignDown(s, g).value == s - s % g && Align.AlignUp(e, g) == s - s % g + g
    ensures (s - s % g) % g == 0 && (s - s % g) / g == s / g && s - s % g + g + g <= Align.WORD
  {
    var a := s - s % g;
    Align.RoundDownFacts(s, g);
    InGranule(e - 1, s, g);
    Arith.AddMultipleMod(a, 1, g);
    Align.AlignUpLeast(e, g, a + g);
    NextMultiple(a, Align.AlignUp(e, g), g);
    Arith.DivModUnique(a, g, s / g, 0) by { Arith.RoundDown(s, g); }
    NextMultiple(a + g, Align.WORD, g);
  }

  /** A granule at `level` is a range of pages the table one level down can map whole. */
  lemma GranuleRangeOk(a: nat, level: nat)
    requires level < LEAF_LEVEL && a % Granularity(level) == 0 && a + Granularity(level) < Align.WORD
    ensures var g := Granularity(level);
      NewRegion(a, a + g) == Region(a, a + g) && RangeOk(Region(a, a + g), level + 1)
  {
    var g := Granularity(level);
    Align.MultipleOfDivisor(a, g, PAGE_SIZE);
    Align.MultipleOfDivisor(a + g, g, PAGE_SIZE);
    assert Span(level + 1) == g;
    Arith.DivModUnique(a, g, a / g, 0) by { Arith.RoundDown(a, g); }
    assert (a / g + 1) * g == a / g * g + g;
  }

  /** When rounding up does not overflow, the block around a chunk is the chunk's whole
    * granule, followed by at least one more granule below 2^64. */
  lemma RemapBounds(c: Region, level: nat)
    requires level < LEAF_LEVEL && ChunkOk(c, level) && c.end + Granularity(level) - 1 < Align.WORD
    requires Align.IsPowerOfTwo(Granularity(level))
    ensures var g := Granularity(level); var a := GranuleStart(c.start, level);
      Align.AlignDown(c.start, g).value == a && Align.AlignUp(c.end, g) == a + g && a + g + g <= Align.WORD
  {
    GranularityDivides(level);
    RoundedGranule(c.start, c.end, Granularity(level));
  }

  /** Adding ACCESSED to a set that has it changes nothing. */
  lemma UnionAccessed(f: Attributes)
    requires f.accessed
    ensures Union(f, ACCESSED) == f
  {
    var u := Union(f, ACCESSED);
    assert u.valid == f.valid && u.tableOrPage == f.tableOrPage && u.attrIndex == f.attrIndex;
    assert u.user == f.user && u.readOnly == f.readOnly && u.share0 == f.share0;
    assert u.share1 == f.share1 && u.accessed == f.accessed && u.nonGlobal == f.nonGlobal;
    assert u.pxn == f.pxn && u.uxn == f.uxn;
  }

  /** Through a block descriptor, an address of the chunk's granule translates to the block's
    * output address at the address's offset from the start of the granule. */
  lemma BlockTranslate(t: PageTable, c: Region, va: nat)
    requires t.level < LEAF_LEVEL && SameWindow(va, c.start, t.level + 1)
    requires var e := Entry(t, Index(c.start, t.level));
      !IsTableOrPage(e) && Flags(e).Some? && OutputAddress(e).Some?
    ensures var a := GranuleStart(c.start, t.level); var e := Entry(t, Index(c.start, t.level));
      a <= va < a + Granularity(t.level) && SameWindow(va, a, t.level + 1)
      && Translate(t, va) == Some(Mapping(OutputAddress(e).value + (va - a), Strip(Flags(e).value)))
  {
    var g := Granularity(t.level);
    var a := GranuleStart(c.start, t.level);
    SubWindowIndex(va, c.start, t.level);
    InGranule(va, c.start, g);
    OffsetInGranule(va, a, g);
    assert Span(t.level + 1) == g;
  }

  /** `t` translates the granule of `base` as one block from `oa` on with attributes `attrs`. */
  ghost predicate BlockAt(t: PageTable, base: nat, oa: nat, attrs: Attributes)
    requires t.level < LEAF_LEVEL
  {
    forall va: nat :: SameWindow(va, base, t.level + 1) ==>
      Translate(t, va) == Some(Mapping(oa + (va - GranuleStart(base, t.level)), attrs))
  }

  /** A block descriptor at the chunk's entry translates the chunk's granule as one block. */
  lemma BlockDescriptorAt(t: PageTable, c: Region)
    requires t.level < LEAF_LEVEL
    requires var e := Entry(t, Index(c.start, t.level));
      !IsTableOrPage(e) && Flags(e).Some? && OutputAddress(e).Some?
    ensures var e := Entry(t, Index(c.start, t.level));
      BlockAt(t, c.start, OutputAddress(e).value, Strip(Flags(e).value))
  {
    forall va: nat | SameWindow(va, c.start, t.level + 1)
      ensures var e := Entry(t, Index(c.start, t.level));
        Translate(t, va) == Some(Mapping(OutputAddress(e).value + (va - GranuleStart(c.start, t.level)), Strip(Flags(e).value)))
    {
      BlockTranslate(t, c, va);
    }
  }

  /** A block mapped again over its whole granule in a new table translates that granule as
    * the block did. */
  lemma RemapAgrees(t: PageTable, base: nat, empty: PageTable, sub: PageTable, oa: nat, attrs: Attributes)
    requires t.level < LEAF_LEVEL && empty.level == t.level + 1 && BlockAt(t, base, oa, attrs)
    requires var a := GranuleStart(base, t.level);
      Maps(empty, sub, a, Region(a, a + Granularity(t.level)), oa, attrs)
    ensures Agrees(t, sub, base)
  {
    var a := GranuleStart(base, t.level);
    forall va: nat | SameWindow(va, base, t.level + 1)
      ensures Translate(sub, va) == Translate(t, va)
    {
      RemapAgreesAt(t, base, empty, sub, oa, attrs, va);
    }
  }

  /** One address of `RemapAgrees`: where the block maps `va`, and what the new table maps at
    * `va` when `va` lies in the granule's window. */
  lemma RemapAgreesAt(t: PageTable, base: nat, empty: PageTable, sub: PageTable, oa: nat, attrs: Attributes, va: nat)
    requires t.level < LEAF_LEVEL && empty.level == t.level + 1 && SameWindow(va, base, t.level + 1)
    requires Translate(t, va) == Some(Mapping(oa + (va - GranuleStart(base, t.level)), attrs))
    requires var a := GranuleStart(base, t.level);
      SameWindow(va, a, t.level + 1) ==>
        Translate(sub, va) == Target(empty, va, Region(a, a + Granularity(t.level)), oa, attrs)
    ensures Translate(sub, va) == Translate(t, va)
  {
    var a := GranuleStart(base, t.level);
    SubWindowIndex(va, base, t.level);
    InGranule(va, base, Granularity(t.level));
    assert SameWindow(va, a, t.level + 1) by { assert Span(t.level + 1) == Granularity(t.level); }
  }

  /** The whole granule of `base` at `level`. */
  function GranuleOf(base: nat, level: nat): (r: Region)
    requires level < LEAF_LEVEL
    ensures r.start == GranuleStart(base, level) && r.end == r.start + Granularity(level)
    ensures PageAligned(r)
  {
    var g := Granularity(level);
    var a := GranuleStart(base, level);
    Arith.AddMultipleMod(a, 1, g);
    Align.MultipleOfDivisor(a, g, PAGE_SIZE);
    Align.MultipleOfDivisor(a + g, g, PAGE_SIZE);
    Region(a, a + g)
  }

  /** When rounding does not overflow, the block around a chunk is the chunk's whole granule,
    * and one more granule follows below 2^64. */
  lemma BlockRegionGranule(c: Region, level: nat)
    requires level < LEAF_LEVEL && ChunkOk(c, level) && c.end + Granularity(level) - 1 < Align.WORD
    ensures BlockRegion(c, level) == Done(GranuleOf(c.start, level))
    ensures GranuleOf(c.start, level).end + Granularity(level) <= Align.WORD
  {
    var g := Granularity(level);
    var a := GranuleStart(c.start, level);
    assert Align.IsPowerOfTwo(g) && Align.AlignDown(c.start, g).value == a
      && Align.AlignUp(c.end, g) == a + g && a + g + g <= Align.WORD by {
      GranularityIsPowerOfTwo(level);
      RemapBounds(c, level);
    }
    assert NewRegion(a, a + g) == Region(a, a + g) by {
      GranuleRangeOk(a, level);
    }
    assert GranuleOf(c.start, level) == Region(a, a + g);
  }

  /** A block from `oa` on with flags `f`, mapped again over the whole granule of `base` in a new
    * table, gives a well-formed table that translates that granule as the block did; one more
    * granule follows below 2^64, so this cannot panic. */
  lemma {:induction false} RemapGranule(t: PageTable, base: nat, oa: nat, f: Attributes, tablePa: nat)
    requires t.level < LEAF_LEVEL && GranuleOf(base, t.level).end + Granularity(t.level) <= Align.WORD
    requires oa % Granularity(t.level) == 0 && oa < OA_LIMIT && f.accessed && MapArgsOk(f, tablePa)
    requires BlockAt(t, base, oa, Strip(f))
    ensures var r := MapRangeSpec(NewTable(t.level + 1).value, GranuleOf(base, t.level), oa, f, tablePa);
      r.Done? && WellFormed(r.value) && Agrees(t, r.value, base)
    decreases LEAF_LEVEL - t.level, 0, 0, 0
  {
    var r := GranuleOf(base, t.level);
    var empty := NewTable(t.level + 1).value;
    var m := MapRangeSpec(empty, r, oa, f, tablePa);
    assert m.Done? && WellFormed(m.value) && Maps(empty, m.value, r.start, r, oa, MappedAttributes(f)) by {
      GranuleMapped(t.level + 1, base, oa, f, tablePa);
    }
    assert Agrees(t, m.value, base) by {
      UnionAccessed(f);
      RemapAgrees(t, base, empty, m.value, oa, MappedAttributes(f));
    }
  }

  /** Mapping the whole granule of `base` one level above `level`, from `oa` on, in a new table
    * of `level` succeeds and maps that granule. */
  lemma {:induction false} GranuleMapped(level: nat, base: nat, oa: nat, f: Attributes, tablePa: nat)
    requires 0 < level <= LEAF_LEVEL && GranuleOf(base, level - 1).end + Granularity(level - 1) <= Align.WORD
    requires oa % Granularity(level - 1) == 0 && oa < OA_LIMIT && MapArgsOk(f, tablePa)
    ensures var r := GranuleOf(base, level - 1); var empty := NewTable(level).value;
      var m := MapRangeSpec(empty, r, oa, f, tablePa);
      m.Done? && WellFormed(m.value) && Maps(empty, m.value, r.start, r, oa, MappedAttributes(f))
    decreases LEAF_LEVEL - level, 4, 0, 0
  {
    var r := GranuleOf(base, level - 1);
    assert r == Region(r.start, r.start + Granularity(level - 1));
    GranuleRangeOk(r.start, level - 1);
    BlockFitsBelowLimit(level - 1, oa);
    Align.MultipleOfDivisor(oa, Granularity(level - 1), PAGE_SIZE);
    MapRangeCorrect(NewTable(level).value, r, oa, f, tablePa);
  }

  /** A new subtable for the chunk's entry, when the entry holds no table, is well formed and
    * translates the chunk's granule as the table did; it panics only when rounding the chunk's
    * end up to the granule overflows. */
  lemma {:induction false} FreshSubtableCorrect(t: PageTable, c: Region, tablePa: nat)
    requires WellFormed(t) && t.level < LEAF_LEVEL && ChunkOk(c, t.level)
    requires tablePa % PAGE_SIZE == 0 && tablePa < OA_LIMIT
    requires !IsTableOrPage(Entry(t, Index(c.start, t.level)))
    ensures var r := FreshSubtable(t, c, tablePa);
      (r.Done? ==> WellFormed(r.value) && Agrees(t, r.value, c.start))
      && (r.Panic? ==> c.end + Granularity(t.level) > Align.WORD)
    decreases LEAF_LEVEL - t.level, 0, 0, 1
  {
    var i := Index(c.start, t.level);
    var e := Entry(t, i);
    if Flags(e).Some? && OutputAddress(e).Some? {
      if c.end + Granularity(t.level) - 1 < Align.WORD {
        assert SlotOk(t, i);
        BlockRegionGranule(c, t.level);
        BlockDescriptorAt(t, c);
        RemapGranule(t, c.start, OutputAddress(e).value, Flags(e).value, tablePa);
      }
    } else {
      EmptyAgrees(t, c);
    }
  }

  /** `NextLevelSpec` yields a well-formed subtable one level down that translates the chunk's
    * granule as the table did, behind a table descriptor; it panics only when rounding the
    * chunk's end up to the granule overflows. */
  lemma {:induction false} NextLevelCorrect(t: PageTable, c: Region, tablePa: nat)
    requires WellFormed(t) && t.level < LEAF_LEVEL && ChunkOk(c, t.level)
    requires tablePa % PAGE_SIZE == 0 && tablePa < OA_LIMIT
    ensures var r := NextLevelSpec(t, c, tablePa);
      (r.Done? ==> WellFormed(r.value.1) && r.value.1.level == t.level + 1
                   && IsTableOrPage(r.value.0) && LeafOk(r.value.0, t.level) && Agrees(t, r.value.1, c.start))
      && (r.Panic? ==> c.end + Granularity(t.level) > Align.WORD)
    decreases LEAF_LEVEL - t.level, 0, 0, 2
  {
    var i := Index(c.start, t.level);
    assert SlotOk(t, i);
    if IsTableOrPage(Entry(t, i)) && i in t.subtables {
      ExistingAgrees(t, c);
    } else {
      TableDescriptor(tablePa, t.level);
      FreshSubtableCorrect(t, c, tablePa);
    }
  }

  // ----- The whole of `map_range` -----

  /** What `map_range` needs of its arguments besides the range: flags without TABLE_OR_PAGE,
    * which `map_range` sets itself at the leaf level, and a page-aligned address below 2^48 for
    * new subtables. */
  predicate MapArgsOk(flags: Attributes, tablePa: nat) {
    !flags.tableOrPage && tablePa % PAGE_SIZE == 0 && tablePa < OA_LIMIT
  }

  /** Advancing a page-aligned address by the distance between two page-aligned addresses keeps
    * it page-aligned. */
  lemma PageOffset(pa: nat, from: nat, to: nat)
    requires pa % PAGE_SIZE == 0 && from % PAGE_SIZE == 0 && to % PAGE_SIZE == 0 && from <= to
    ensures (pa + (to - from)) % PAGE_SIZE == 0
  {
    var k := to / PAGE_SIZE - from / PAGE_SIZE;
    assert to - from == k * PAGE_SIZE;
    Arith.AddMultipleMod(pa, k, PAGE_SIZE);
  }

  /** Nothing is mapped yet. */
  lemma MapsNothing(t: PageTable, base: nat, start: nat, pa: nat, attrs: Attributes)
    requires t.level <= LEAF_LEVEL
    ensures Maps(t, t, base, Region(start, start), pa, attrs)
  {
  }

  /** Mapping two adjacent pieces of a range one after the other maps their union. */
  lemma MapsExtend(t0: PageTable, t: PageTable, t': PageTable, base: nat, from: nat, mid: nat, to: nat, pa: nat, attrs: Attributes)
    requires t0.level == t.level <= LEAF_LEVEL && from <= mid <= to
    requires Maps(t0, t, base, Region(from, mid), pa, attrs)
    requires Maps(t, t', base, Region(mid, to), pa + (mid - from), attrs)
    ensures Maps(t0, t', base, Region(from, to), pa, attrs)
  {
    forall va: nat | SameWindow(va, base, t.level)
      ensures Translate(t', va) == Target(t0, va, Region(from, to), pa, attrs)
    {
      assert Translate(t', va) == Target(t, va, Region(mid, to), pa + (mid - from), attrs);
      assert Translate(t, va) == Target(t0, va, Region(from, mid), pa, attrs);
    }
  }

  /** `Maps` over the window of `base` is `Maps` over the window of any address in it. */
  lemma MapsRebase(t: PageTable, t': PageTable, base: nat, base': nat, range: Region, pa: nat, attrs: Attributes)
    requires t.level <= LEAF_LEVEL && SameWindow(base, base', t.level)
    requires Maps(t, t', base, range, pa, attrs)
    ensures Maps(t, t', base', range, pa, attrs)
  {
    forall va: nat | SameWindow(va, base', t.level)
      ensures Translate(t', va) == Target(t, va, range, pa, attrs)
    {
      assert SameWindow(va, base, t.level);
    }
  }

  /** Writing `set(pa, x)` for a chunk that fills its granule keeps the table well formed and
    * maps the chunk to `pa` onwards with `x` plus VALID, without the two type bits. */
  lemma PutCorrect(t: PageTable, c: Region, pa: nat, x: Attributes)
    requires WellFormed(t) && PutOk(t, c) && pa % Granularity(t.level) == 0 && pa < OA_LIMIT && x.accessed
    requires t.level == LEAF_LEVEL <==> x.tableOrPage
    ensures WellFormed(Put(t, c, Set(pa, x)))
    ensures Maps(t, Put(t, c, Set(pa, x)), c.start, c, pa, Strip(Union(x, VALID)))
  {
    SetDescribes(t.level, pa, x);
    PutWellFormed(t, c, Set(pa, x), pa, Union(x, VALID));
    PutMaps(t, c, Set(pa, x), pa, Union(x, VALID));
  }

  /** The attributes a page descriptor written by `map_range` reads back with. */
  lemma PageAttributes(flags: Attributes)
    ensures Strip(Union(Union(Union(flags, ACCESSED), TABLE_OR_PAGE), VALID)) == MappedAttributes(flags)
  {
  }

  /** The attributes a block descriptor written by `map_range` reads back with. */
  lemma BlockAttributes(flags: Attributes)
    ensures Strip(Union(Union(flags, ACCESSED), VALID)) == MappedAttributes(flags)
  {
  }

  /** One turn of `map_range`'s loop keeps the table well formed and maps the chunk to `pa`
    * onwards with the flags plus ACCESSED; it panics only in the last granule below 2^64. */
  lemma {:induction false} MapChunkCorrect(t: PageTable, c: Region, pa: nat, flags: Attributes, tablePa: nat)
    requires WellFormed(t) && ChunkOk(c, t.level) && PhysicalOk(pa, Len(c)) && MapArgsOk(flags, tablePa)
    ensures var r := MapChunkSpec(t, c, pa, flags, tablePa);
      (r.Done? ==> WellFormed(r.value) && Maps(t, r.value, c.start, c, pa, MappedAttributes(flags)))
      && (r.Panic? ==> c.end + Granularity(t.level) > Align.WORD)
    decreases LEAF_LEVEL - t.level, 1, 0, 1
  {
    if t.level == LEAF_LEVEL {
      PageChunkCorrect(t, c, pa, flags, tablePa);
    } else if IsBlock(c, t.level) && !IsTableOrPage(Entry(t, Index(c.start, t.level))) && IsAligned(pa, Granularity(t.level)) {
      BlockChunkCorrect(t, c, pa, flags, tablePa);
    } else {
      TableChunkCorrect(t, c, pa, flags, tablePa);
    }
  }

  /** At the leaf level the chunk is one page, written as a page descriptor. */
  lemma PageChunkCorrect(t: PageTable, c: Region, pa: nat, flags: Attributes, tablePa: nat)
    requires WellFormed(t) && t.level == LEAF_LEVEL && ChunkOk(c, t.level) && PhysicalOk(pa, Len(c)) && !flags.tableOrPage
    ensures var r := MapChunkSpec(t, c, pa, flags, tablePa);
      r.Done? && WellFormed(r.value) && Maps(t, r.value, c.start, c, pa, MappedAttributes(flags))
  {
    var x := Union(Union(flags, ACCESSED), TABLE_OR_PAGE);
    PutCorrect(t, c, pa, x);
    PageAttributes(flags);
  }

  /** A chunk that fills a whole granule, over an entry that is no table and with an output
    * address aligned to the granule, is written as a block descriptor. */
  lemma BlockChunkCorrect(t: PageTable, c: Region, pa: nat, flags: Attributes, tablePa: nat)
    requires WellFormed(t) && t.level < LEAF_LEVEL && ChunkOk(c, t.level) && PhysicalOk(pa, Len(c)) && !flags.tableOrPage
    requires IsBlock(c, t.level) && !IsTableOrPage(Entry(t, Index(c.start, t.level))) && IsAligned(pa, Granularity(t.level))
    ensures var r := MapChunkSpec(t, c, pa, flags, tablePa);
      r.Done? && WellFormed(r.value) && Maps(t, r.value, c.start, c, pa, MappedAttributes(flags))
  {
    var x := Union(flags, ACCESSED);
    PutCorrect(t, c, pa, x);
    BlockAttributes(flags);
  }

  /** Any other chunk above the leaf level is mapped in the subtable below its entry. */
  lemma {:induction false} TableChunkCorrect(t: PageTable, c: Region, pa: nat, flags: Attributes, tablePa: nat)
    requires WellFormed(t) && t.level < LEAF_LEVEL && ChunkOk(c, t.level) && PhysicalOk(pa, Len(c)) && MapArgsOk(flags, tablePa)
    requires !(IsBlock(c, t.level) && !IsTableOrPage(Entry(t, Index(c.start, t.level))) && IsAligned(pa, Granularity(t.level)))
    ensures var r := MapChunkSpec(t, c, pa, flags, tablePa);
      (r.Done? ==> WellFormed(r.value) && Maps(t, r.value, c.start, c, pa, MappedAttributes(flags)))
      && (r.Panic? ==> c.end + Granularity(t.level) > Align.WORD)
    decreases LEAF_LEVEL - t.level, 1, 0, 0
  {
    NextLevelCorrect(t, c, tablePa);
    var n := NextLevelSpec(t, c, tablePa);
    if n.Done? {
      var (w, sub) := n.value;
      DescendCorrect(t, c, w, sub, pa, flags, tablePa);
    }
  }

  /** Mapping a chunk in the subtable below its entry and installing the result maps the
    * chunk in the table and keeps it well formed. */
  lemma {:induction false} DescendCorrect(t: PageTable, c: Region, w: Word, sub: PageTable, pa: nat, flags: Attributes, tablePa: nat)
    requires WellFormed(t) && t.level < LEAF_LEVEL && ChunkOk(c, t.level) && PhysicalOk(pa, Len(c)) && MapArgsOk(flags, tablePa)
    requires WellFormed(sub) && sub.level == t.level + 1 && IsTableOrPage(w) && LeafOk(w, t.level) && Agrees(t, sub, c.start)
    ensures var m := MapRangeSpec(sub, c, pa, flags, tablePa);
      (m.Done? ==> WellFormed(Install(t, c, w, m.value)) && Maps(t, Install(t, c, w, m.value), c.start, c, pa, MappedAttributes(flags)))
      && (m.Panic? ==> c.end + Granularity(t.level) > Align.WORD)
    decreases LEAF_LEVEL - t.level, 0, 0, 3
  {
    ChunkRangeOk(c, t.level);
    MapRangeCorrect(sub, c, pa, flags, tablePa);
    var m := MapRangeSpec(sub, c, pa, flags, tablePa);
    if m.Done? {
      InstallWellFormed(t, c, w, m.value);
      InstallMaps(t, c, w, sub, m.value, pa, MappedAttributes(flags));
    }
  }

  /** One turn of the loop of `map_range`, for the chunk `c` it takes when `[range.start,
    * c.start)` is mapped already: the loop goes on from the end of `c` with the table the turn
    * leaves, and that table maps `[range.start, c.end)`; the turn panics only when the range
    * reaches the last granule below 2^64. */
  lemma ChunkStepCorrect(t0: PageTable, t: PageTable, range: Region, c: Region, pa: nat, p: nat, flags: Attributes, tablePa: nat)
    returns (m: Outcome<PageTable>)
    requires WellFormed(t) && t0.level == t.level && RangeOk(range, t.level) && range.start <= c.start
    requires NextChunk(range, Granularity(t.level), c.start) == (Some(c), c.end) && ChunkOk(c, t.level) && c.end <= range.end
    requires p == pa + (c.start - range.start) && PhysicalOk(pa, Len(range)) && MapArgsOk(flags, tablePa)
    requires Maps(t0, t, range.start, Region(range.start, c.start), pa, MappedAttributes(flags))
    ensures m.Panic? ==> MapChunks(t, range, c.start, p, flags, tablePa).Panic? && range.end + Granularity(t.level) > Align.WORD
    ensures m.Done? ==> m.value.level == t.level && WellFormed(m.value)
    ensures m.Done? ==> MapChunks(t, range, c.start, p, flags, tablePa) == MapChunks(m.value, range, c.end, p + Len(c), flags, tablePa)
    ensures m.Done? ==> Maps(t0, m.value, range.start, Region(range.start, c.end), pa, MappedAttributes(flags))
    decreases LEAF_LEVEL - t.level, 1, 0, 2
  {
    m := MapChunkSpec(t, c, p, flags, tablePa);
    assert MapChunks(t, range, c.start, p, flags, tablePa)
      == if m.Panic? then Panic(m.message) else MapChunks(m.value, range, c.end, p + Len(c), flags, tablePa) by {
      MapChunksStep(t, range, c.start, c, c.end, p, flags, tablePa);
      MapChunkThenStep(t, range, c, c.end, p, flags, tablePa);
    }
    assert (m.Done? ==> WellFormed(m.value) && Maps(t, m.value, c.start, c, p, MappedAttributes(flags)))
      && (m.Panic? ==> c.end + Granularity(t.level) > Align.WORD) by {
      PageOffset(pa, range.start, c.start);
      MapChunkCorrect(t, c, p, flags, tablePa);
    }
    if m.Done? {
      BelowWindowEnd(c.start, range.start, t.level);
      MapsRebase(t, m.value, c.start, range.start, c, p, MappedAttributes(flags));
      MapsExtend(t0, t, m.value, range.start, range.start, c.start, c.end, pa, MappedAttributes(flags));
    }
  }

  /** The loop of `map_range` from `start` on, when `[range.start, start)` is mapped already,
    * maps the rest of the range and keeps the table well formed; it panics only when the
    * range reaches the last granule below 2^64. */
  lemma {:induction false} MapChunksCorrect(t0: PageTable, t: PageTable, range: Region, start: nat, pa: nat, p: nat, flags: Attributes, tablePa: nat)
    requires WellFormed(t) && t0.level == t.level && RangeOk(range, t.level)
    requires range.start <= start <= range.end && start % PAGE_SIZE == 0 && p == pa + (start - range.start)
    requires PhysicalOk(pa, Len(range)) && MapArgsOk(flags, tablePa)
    requires Maps(t0, t, range.start, Region(range.start, start), pa, MappedAttributes(flags))
    ensures var r := MapChunks(t, range, start, p, flags, tablePa);
      (r.Done? ==> WellFormed(r.value) && Maps(t0, r.value, range.start, range, pa, MappedAttributes(flags)))
      && (r.Panic? ==> range.end + Granularity(t.level) > Align.WORD)
    decreases LEAF_LEVEL - t.level, 2, range.end - start, 1
  {
    var r := MapChunks(t, range, start, p, flags, tablePa);
    if start == range.end {
      assert r == Done(t) by {
        assert NextChunk(range, Granularity(t.level), start).0.None?;
      }
      assert Region(range.start, start) == range;
    } else {
      var g := Granularity(t.level);
      var e := if range.end < start - start % g + g then range.end else start - start % g + g;
      var c := Region(start, e);
      assert NextChunk(range, g, start) == (Some(c), e) && ChunkOk(c, t.level) && start < e <= range.end by {
        ChunkFacts(range, t.level, start);
      }
      var m := ChunkStepCorrect(t0, t, range, c, pa, p, flags, tablePa);
      if m.Done? {
        assert r == MapChunks(m.value, range, e, p + Len(c), flags, tablePa);
        MapChunksCorrect(t0, m.value, range, e, pa, p + Len(c), flags, tablePa);
      } else {
        assert r.Panic?;
      }
    }
  }

  /** `map_range` keeps the table well formed and maps the range to `pa` onwards with the flags
    * plus ACCESSED, leaving the rest of the table's window as it was; it panics only when the
    * range reaches the last granule below 2^64. */
  lemma MapRangeCorrect(t: PageTable, range: Region, pa: nat, flags: Attributes, tablePa: nat)
    requires WellFormed(t) && RangeOk(range, t.level) && PhysicalOk(pa, Len(range)) && MapArgsOk(flags, tablePa)
    ensures var r := MapRangeSpec(t, range, pa, flags, tablePa);
      (r.Done? ==> WellFormed(r.value) && Maps(t, r.value, range.start, range, pa, MappedAttributes(flags)))
      && (r.Panic? ==> range.end + Granularity(t.level) > Align.WORD)
    decreases LEAF_LEVEL - t.level, 3, 0, 0
  {
    MapsNothing(t, range.start, range.start, pa, MappedAttributes(flags));
    MapChunksCorrect(t, t, range, range.start, pa, pa, flags, tablePa);
  }
}
