/** Stage-1 translation tables of mem/vm/paging.rs: granularity per level, virtual memory
  * regions, the chunked iteration over a region, and `PageTable::map_range`.
  *
  * A table is a value: its level, its descriptors by index, and its subtables by index. The
  * model reads a table through `Translate`, a walk of that hierarchy in the manner of the MMU,
  * so the properties of `map_range` are stated as what the table translates afterwards. Unlike
  * the MMU with a 4 KiB granule, the walk also accepts a block descriptor at level 0. */
module Paging {
  import opened Wrappers
  import opened Descriptors
  import Align
  import Arith

  /** `granularity_at_level`: bytes covered by one entry of a table at `level`,
    * `PAGE_SIZE << ((LEAF_LEVEL - level) * BITS_PER_LEVEL)`. */
  function Granularity(level: nat): (r: nat)
    requires level <= LEAF_LEVEL
    ensures level == LEAF_LEVEL ==> r == PAGE_SIZE
    ensures level < LEAF_LEVEL ==> r == ENTRIES * Granularity(level + 1)
    ensures r % PAGE_SIZE == 0 && r >= PAGE_SIZE
    decreases LEAF_LEVEL - level
  {
    if level == 3 then 0x1000
    else if level == 2 then 0x20_0000
    else if level == 1 then 0x4000_0000
    else 0x80_0000_0000
  }

  /** Bytes covered by a whole table at `level`. */
  function Span(level: nat): (r: nat)
    requires level <= LEAF_LEVEL
    ensures r == Granularity(level) * ENTRIES
    ensures level < LEAF_LEVEL ==> Granularity(level) == Span(level + 1)
    ensures level == 0 ==> r == OA_LIMIT
    decreases LEAF_LEVEL - level
  {
    Granularity(level) * ENTRIES
  }

  lemma GranularityIsPowerOfTwo(level: nat)
    requires level <= LEAF_LEVEL
    ensures Align.IsPowerOfTwo(Granularity(level))
    decreases LEAF_LEVEL - level
  {
    if level < 3 {
      GranularityIsPowerOfTwo(level + 1);
      assert Align.IsPowerOfTwo(512);
      Align.PowerOfTwoProduct(512, Granularity(level + 1));
    }
  }

  /** Every granularity divides 2^48 and 2^64. */
  lemma GranularityDivides(level: nat)
    requires level <= LEAF_LEVEL
    ensures OA_LIMIT % Granularity(level) == 0 && Align.WORD % Granularity(level) == 0
  {
  }

  /** An aligned output address leaves room for a whole block below 2^48. */
  lemma BlockFitsBelowLimit(level: nat, oa: nat)
    requires level <= LEAF_LEVEL && oa % Granularity(level) == 0 && oa < OA_LIMIT
    ensures oa + Granularity(level) <= OA_LIMIT
  {
    GranularityDivides(level);
    NextMultiple(oa, OA_LIMIT, Granularity(level));
  }

  /** The index `get_entry_mut` computes: `(va >> (PAGE_SHIFT + (LEAF_LEVEL - level) * 9)) % 512`. */
  function Index(va: nat, level: nat): (r: nat)
    requires level <= LEAF_LEVEL
    ensures r < ENTRIES
  {
    (va / Granularity(level)) % ENTRIES
  }

  /** `va` lies in the same `Span(level)`-sized window as `base`, so that a table at `level`
    * resolves both through the same set of entries. */
  predicate SameWindow(va: nat, base: nat, level: nat)
    requires level <= LEAF_LEVEL
  {
    va / Span(level) == base / Span(level)
  }

  /** The first address past the window that holds `base`. */
  function WindowEnd(base: nat, level: nat): (r: nat)
    requires level <= LEAF_LEVEL
  {
    (base / Span(level) + 1) * Span(level)
  }

  /** Within one window, two addresses use the same entry exactly when they lie in the same
    * granule. */
  lemma IndexInWindow(va: nat, base: nat, level: nat)
    requires level <= LEAF_LEVEL && SameWindow(va, base, level)
    ensures Index(va, level) == Index(base, level) <==> va / Granularity(level) == base / Granularity(level)
  {
    var g := Granularity(level);
    Arith.DivDiv(va, g, ENTRIES);
    Arith.DivDiv(base, g, ENTRIES);
    var q, q' := va / g, base / g;
    assert q == (q / ENTRIES) * ENTRIES + q % ENTRIES;
    assert q' == (q' / ENTRIES) * ENTRIES + q' % ENTRIES;
  }

  /** Two addresses in the same granule at `level` lie in the same window. */
  lemma SameGranuleSameWindow(va: nat, base: nat, level: nat)
    requires level <= LEAF_LEVEL && va / Granularity(level) == base / Granularity(level)
    ensures SameWindow(va, base, level)
  {
    var g := Granularity(level);
    Arith.DivDiv(va, g, ENTRIES);
    Arith.DivDiv(base, g, ENTRIES);
  }

  /** Addresses from `base` up to the end of its window lie in its window. */
  lemma BelowWindowEnd(va: nat, base: nat, level: nat)
    requires level <= LEAF_LEVEL && base <= va < WindowEnd(base, level)
    ensures SameWindow(va, base, level)
  {
    var s := Span(level);
    var k := base / s;
    assert k * s <= base by { Arith.RoundDown(base, s); }
    Arith.DivModUnique(va, s, k, va - k * s);
  }

  /** `VirtualMemoryRegion`: the half-open range `[start, end)`. */
  datatype Region = Region(start: nat, end: nat)

  /** `VirtualMemoryRegion::new`: the start rounded down and the end rounded up to pages, as
    * `align_down` and `align_up` compute them for the page size. */
  function NewRegion(start: nat, end: nat): (r: Region)
    ensures r.start % PAGE_SIZE == 0 && r.end % PAGE_SIZE == 0
    ensures r.start <= start < r.start + PAGE_SIZE && end <= r.end < end + PAGE_SIZE
    ensures start % PAGE_SIZE == 0 && end % PAGE_SIZE == 0 ==> r == Region(start, end)
  {
    Align.RoundDownFacts(start, PAGE_SIZE);
    Arith.RoundUp(end, PAGE_SIZE);
    Region(start - start % PAGE_SIZE, (end + PAGE_SIZE - 1) - (end + PAGE_SIZE - 1) % PAGE_SIZE)
  }

  /** `VirtualMemoryRegion::len`; the subtraction underflows for a backwards region. */
  function Len(r: Region): (n: nat)
    requires r.start <= r.end
    ensures r.start + n == r.end
  {
    r.end - r.start
  }

  /** `VirtualMemoryRegion::is_empty`. */
  predicate IsEmpty(r: Region) {
    r.start == r.end
  }

  /** `VirtualMemoryRegion::is_block`: `(start | end) & (gran - 1) == 0`, i.e. both ends are
    * multiples of the granularity. */
  predicate IsBlock(r: Region, level: nat)
    requires level <= LEAF_LEVEL
  {
    r.start % Granularity(level) == 0 && r.end % Granularity(level) == 0
  }

  /** `is_aligned`: `value & (alignment - 1) == 0`, for the power-of-two alignments it is
    * called with. */
  predicate IsAligned(value: nat, alignment: nat)
    requires alignment > 0
  {
    value % alignment == 0
  }

  /** What the table maps one virtual address to: an output address and the attributes of the
    * block or page, without the two descriptor-type bits VALID and TABLE_OR_PAGE. */
  datatype Mapping = Mapping(output: nat, attributes: Attributes)

  function Strip(a: Attributes): Attributes {
    a.(valid := false, tableOrPage := false)
  }

  /** One level of the hierarchy. The descriptor words sit in `entries` (a missing index is the
    * zero, invalid descriptor); the table an index points to sits in `subtables`. */
  datatype PageTable = PageTable(level: nat, entries: map<nat, Word>, subtables: map<nat, PageTable>)

  function Entry(t: PageTable, i: nat): Word {
    if i in t.entries then t.entries[i] else Zero()
  }

  /** The shape `map_range` maintains, entry by entry (`SlotOk`). */
  ghost predicate WellFormed(t: PageTable)
    decreases t, 1
  {
    t.level <= LEAF_LEVEL && forall i :: SlotOk(t, i)
  }

  /** Entry `i` of `t`: only indices below 512 are stored; a subtable sits exactly at the valid
    * table descriptors, one level down and itself well formed; a valid descriptor is a
    * well-formed table, block or page descriptor for its level. */
  ghost predicate SlotOk(t: PageTable, i: nat)
    requires t.level <= LEAF_LEVEL
    decreases t, 0
  {
    (i in t.entries ==> i < ENTRIES)
    && (i in t.subtables <==> t.level < LEAF_LEVEL && IsTableOrPage(Entry(t, i)))
    && (i in t.subtables ==> t.subtables[i].level == t.level + 1 && WellFormed(t.subtables[i]))
    && (IsValid(Entry(t, i)) ==> LeafOk(Entry(t, i), t.level))
  }

  /** A valid descriptor at `level` has defined flags; a block or page has ACCESSED set and an
    * output address aligned to the level's granularity; at the leaf level it is a page. */
  predicate LeafOk(w: Word, level: nat)
    requires level <= LEAF_LEVEL
  {
    Flags(w).Some?
    && (level == LEAF_LEVEL ==> Flags(w).value.tableOrPage)
    && (level == LEAF_LEVEL || !Flags(w).value.tableOrPage ==>
          Flags(w).value.accessed && OutputAddress(w).value % Granularity(level) == 0)
  }

  /** The translation of `va` the hierarchy rooted at `t` encodes. */
  function Translate(t: PageTable, va: nat): Option<Mapping>
    decreases t, 1
  {
    if t.level > LEAF_LEVEL then None else Resolve(t, va, Index(va, t.level))
  }

  /** The translation of `va` through entry `i` of `t`. */
  function Resolve(t: PageTable, va: nat, i: nat): Option<Mapping>
    requires t.level <= LEAF_LEVEL
    decreases t, 0
  {
      var w := Entry(t, i);
      if !IsValid(w) || Flags(w).None? then None
      else if t.level < LEAF_LEVEL && Flags(w).value.tableOrPage then
        if i in t.subtables then Translate(t.subtables[i], va) else None
      else if t.level == LEAF_LEVEL && !Flags(w).value.tableOrPage then None
      else Some(Mapping(OutputAddress(w).value + va % Granularity(t.level), Strip(Flags(w).value)))
  }

  /** `PageTable::new`: a zeroed table; the level must not be below the leaf level. */
  function NewTable(level: nat): (r: Outcome<PageTable>)
    ensures r.Done? <==> level <= LEAF_LEVEL
    ensures r.Done? ==> WellFormed(r.value) && r.value.level == level
    ensures r.Done? ==> forall va: nat :: Translate(r.value, va) == None
  {
    if level <= LEAF_LEVEL then Done(PageTable(level, map[], map[]))
    else Panic("assertion failed: level <= LEAF_LEVEL")
  }

  /** Translation through an entry only depends on that entry and its subtable. */
  lemma TranslateSameSlot(t: PageTable, t': PageTable, va: nat)
    requires t.level == t'.level <= LEAF_LEVEL
    requires var i := Index(va, t.level);
      Entry(t, i) == Entry(t', i) && (i in t.subtables <==> i in t'.subtables)
      && (i in t.subtables ==> t.subtables[i] == t'.subtables[i])
    ensures Translate(t, va) == Translate(t', va)
  {
  }

  /** `x / g == y / g` exactly when `x` lies in the granule `[y - y % g, y - y % g + g)`. */
  lemma InGranule(x: nat, y: nat, g: nat)
    requires g > 0
    ensures x / g == y / g <==> y - y % g <= x < y - y % g + g
  {
    Arith.RoundDown(y, g);
    Arith.RoundDown(x, g);
    if y - y % g <= x < y - y % g + g {
      Arith.DivModUnique(x, g, y / g, x - (y - y % g));
    }
  }

  /** A multiple of `g` above the multiple `a` is at least `a + g`. */
  lemma NextMultiple(a: nat, m: nat, g: nat)
    requires g > 0 && a % g == 0 && m % g == 0 && a < m
    ensures a + g <= m
  {
    var p, q := a / g, m / g;
    assert a == p * g by { Arith.RoundDown(a, g); }
    assert m == q * g by { Arith.RoundDown(m, g); }
    if q <= p {
      Arith.MulLeRight(q, p, g);
      assert false;
    }
    Arith.MulLeRight(p + 1, q, g);
  }

  // ----- Chunked iteration (`VirtualMemoryRegion::split`, `ChunkedIterator::next`) -----

  /** `usize::MAX`. */
  const USIZE_MAX: nat := 0xFFFF_FFFF_FFFF_FFFF

  /** One step of `ChunkedIterator::next` from position `start`: the chunk it yields and the
    * next position. For the power-of-two granularities of the levels, `start | (granularity - 1)`
    * is `start - start % granularity + granularity - 1`, the last address of `start`'s granule. */
  function NextChunk(range: Region, granularity: nat, start: nat): (r: (Option<Region>, nat))
    requires granularity > 0
    ensures r.0.None? <==> !(range.start <= start < range.end)
    ensures r.0.None? ==> r.1 == start
    ensures r.0.Some? && range.end < Align.WORD ==> start < r.1 <= range.end
  {
    if !(range.start <= start < range.end) then (None, start)
    else
      var min := start - start % granularity + granularity - 1;
      var end := if min == USIZE_MAX then min else min + 1;
      var end := if range.end < end then range.end else end;
      (Some(NewRegion(start, end)), end)
  }

  /** A chunk as `map_range` at `level` receives it: non-empty, page-aligned, inside one granule
    * of the level, and with a `usize` end. */
  predicate ChunkOk(c: Region, level: nat)
    requires level <= LEAF_LEVEL
  {
    c.start < c.end && c.start % PAGE_SIZE == 0 && c.end % PAGE_SIZE == 0
    && c.start / Granularity(level) == (c.end - 1) / Granularity(level) && c.end < Align.WORD
  }

  /** A range a table at `level` can map: page-aligned, not backwards, a `usize` end, and inside
    * the window of the table that holds its start. */
  predicate RangeOk(r: Region, level: nat)
    requires level <= LEAF_LEVEL
  {
    r.start <= r.end && r.start % PAGE_SIZE == 0 && r.end % PAGE_SIZE == 0
    && r.end <= WindowEnd(r.start, level) && r.end < Align.WORD
  }

  /** From a page-aligned position inside a page-aligned range, the iterator yields the chunk
    * from there to the end of the granule or of the range, whichever comes first. */
  lemma ChunkFacts(range: Region, level: nat, start: nat)
    requires level <= LEAF_LEVEL && range.start <= start < range.end
    requires start % PAGE_SIZE == 0 && range.end % PAGE_SIZE == 0 && range.end < Align.WORD
    ensures var g := Granularity(level);
      var e := if range.end < start - start % g + g then range.end else start - start % g + g;
      NextChunk(range, g, start) == (Some(Region(start, e)), e) && ChunkOk(Region(start, e), level)
      && (e == range.end || e % g == 0)
  {
    var g := Granularity(level);
    GranuleBounds(level, start);
    NextChunkValue(range, g, start);
    var base := start - start % g;
    var e := if range.end < base + g then range.end else base + g;
    InGranule(e - 1, start, g);
  }

  /** The granule holding `start` at `level` ends on a page boundary at or below 2^64. */
  lemma GranuleBounds(level: nat, start: nat)
    requires level <= LEAF_LEVEL && start < Align.WORD
    ensures var g := Granularity(level); var base := start - start % g;
      base % g == 0 && base <= start < base + g <= Align.WORD
      && (base + g) % g == 0 && (base + g) % PAGE_SIZE == 0
  {
    var g := Granularity(level);
    GranularityIsPowerOfTwo(level);
    Align.RoundDownFacts(start, g);
    var base := start - start % g;
    BlockFitsBelowWord(level, base);
    Arith.AddMultipleMod(base, 1, g);
    Align.MultipleOfDivisor(base + g, g, PAGE_SIZE);
  }

  /** The step `NextChunk` takes from a page-aligned position whose granule ends at or below
    * 2^64 on a page boundary. */
  lemma NextChunkValue(range: Region, g: nat, start: nat)
    requires g > 0 && range.start <= start < range.end
    requires start % PAGE_SIZE == 0 && range.end % PAGE_SIZE == 0 && range.end < Align.WORD
    requires start - start % g + g <= Align.WORD && (start - start % g + g) % PAGE_SIZE == 0
    ensures var e := if range.end < start - start % g + g then range.end else start - start % g + g;
      NextChunk(range, g, start) == (Some(Region(start, e)), e)
  {
  }

  /** Every granule lies below 2^64. */
  lemma BlockFitsBelowWord(level: nat, base: nat)
    requires level <= LEAF_LEVEL && base % Granularity(level) == 0 && base < Align.WORD
    ensures base + Granularity(level) <= Align.WORD
  {
    GranularityDivides(level);
    NextMultiple(base, Align.WORD, Granularity(level));
  }

  /** The chunks `split(level)` yields from position `start` on. */
  function Chunks(range: Region, granularity: nat, start: nat): seq<Region>
    requires granularity > 0 && range.end < Align.WORD
    decreases range.end - start
  {
    match NextChunk(range, granularity, start)
    case (None, _) => []
    case (Some(c), next) => [c] + Chunks(range, granularity, next)
  }

  /** `range.split(level)` as the sequence of chunks it yields. */
  function Split(range: Region, level: nat): seq<Region>
    requires level <= LEAF_LEVEL && range.end < Align.WORD
  {
    Chunks(range, Granularity(level), range.start)
  }

  /** The chunks of a page-aligned range from `start` on are non-empty, ascending and contiguous,
    * each inside one granule, and together they cover exactly `[start, range.end)`. */
  lemma {:induction false} ChunksCover(range: Region, level: nat, start: nat)
    requires level <= LEAF_LEVEL && range.start <= start <= range.end && range.end < Align.WORD
    requires start % PAGE_SIZE == 0 && range.end % PAGE_SIZE == 0
    ensures var cs := Chunks(range, Granularity(level), start);
      (|cs| == 0 <==> start == range.end)
      && (|cs| > 0 ==> cs[0].start == start && cs[|cs| - 1].end == range.end)
      && (forall k :: 0 <= k < |cs| ==> ChunkOk(cs[k], level) && start <= cs[k].start && cs[k].end <= range.end)
      && (forall k :: 0 <= k < |cs| - 1 ==> cs[k].end == cs[k + 1].start)
    decreases range.end - start
  {
    var g := Granularity(level);
    if start < range.end {
      ChunkFacts(range, level, start);
      var next := NextChunk(range, g, start).1;
      ChunksCover(range, level, next);
      var rest := Chunks(range, g, next);
      assert Chunks(range, g, start) == [Region(start, next)] + rest;
    }
  }

  /** `range.split(level)` covers the whole region, chunk after chunk. */
  lemma SplitCovers(range: Region, level: nat)
    requires level <= LEAF_LEVEL && range.start <= range.end && range.end < Align.WORD
    requires range.start % PAGE_SIZE == 0 && range.end % PAGE_SIZE == 0
    ensures var cs := Split(range, level);
      (|cs| == 0 <==> IsEmpty(range))
      && (|cs| > 0 ==> cs[0].start == range.start && cs[|cs| - 1].end == range.end)
      && (forall k :: 0 <= k < |cs| ==> ChunkOk(cs[k], level) && range.start <= cs[k].start && cs[k].end <= range.end)
      && (forall k :: 0 <= k < |cs| - 1 ==> cs[k].end == cs[k + 1].start)
  {
    ChunksCover(range, level, range.start);
  }

  /** `ChunkedIterator`: walks `range` one granule-bounded chunk at a time. */
  class ChunkedIterator {
    const range: Region
    const granularity: nat
    var start: nat

    /** `VirtualMemoryRegion::split`. */
    constructor (range: Region, level: nat)
      requires level <= LEAF_LEVEL
      ensures this.range == range && granularity == Granularity(level) && start == range.start
      ensures Align.IsPowerOfTwo(granularity)
    {
      this.range := range;
      granularity := Granularity(level);
      start := range.start;
      GranularityIsPowerOfTwo(level);
    }

    /** `ChunkedIterator::next`. */
    method Next() returns (c: Option<Region>)
      requires granularity > 0
      modifies this
      ensures (c, start) == NextChunk(range, granularity, old(start))
    {
      if !(range.start <= start < range.end) {
        return None;
      }
      var min := start - start % granularity + granularity - 1;
      var end := if min == USIZE_MAX then min else min + 1;
      if range.end < end {
        end := range.end;
      }
      c := Some(NewRegion(start, end));
      start := end;
    }
  }


  // ----- `PageTable::map_range` -----

  /** Both ends of a region on a page boundary, as `VirtualMemoryRegion::new` leaves them. */
  predicate PageAligned(r: Region) {
    r.start % PAGE_SIZE == 0 && r.end % PAGE_SIZE == 0
  }

  /** `PageTable::map_range`: the chunks of `range.split(level)` mapped one after another, with
    * `pa` advanced by each chunk's length. `tablePa` is the physical address at which
    * `Translation::allocate_table` places a new subtable. */
  function MapRangeSpec(t: PageTable, range: Region, pa: nat, flags: Attributes, tablePa: nat): (r: Outcome<PageTable>)
    requires t.level <= LEAF_LEVEL && PageAligned(range) && range.end < Align.WORD
    ensures r.Done? ==> r.value.level == t.level
    decreases LEAF_LEVEL - t.level, 3, 0, 0
  {
    MapChunks(t, range, range.start, pa, flags, tablePa)
  }

  /** The loop of `map_range` from position `start` on, `pa` being the address for `start`. */
  function MapChunks(t: PageTable, range: Region, start: nat, pa: nat, flags: Attributes, tablePa: nat): (r: Outcome<PageTable>)
    requires t.level <= LEAF_LEVEL && PageAligned(range) && range.end < Align.WORD && start % PAGE_SIZE == 0
    ensures r.Done? ==> r.value.level == t.level
    decreases LEAF_LEVEL - t.level, 2, range.end - start, 1
  {
    match NextChunk(range, Granularity(t.level), start)
    case (None, _) => Done(t)
    case (Some(c), next) =>
      ChunkFacts(range, t.level, start);
      MapChunkThen(t, range, c, next, pa, flags, tablePa)
  }

  /** One turn of the loop of `map_range`: map chunk `c`, then go on from `next`, the end of
    * `c`. */
  function MapChunkThen(t: PageTable, range: Region, c: Region, next: nat, pa: nat, flags: Attributes, tablePa: nat): (r: Outcome<PageTable>)
    requires t.level <= LEAF_LEVEL && PageAligned(range) && range.end < Align.WORD
    requires PageAligned(c) && c.start < next == c.end <= range.end < Align.WORD
    ensures r.Done? ==> r.value.level == t.level
    decreases LEAF_LEVEL - t.level, 2, range.end - c.start, 0
  {
    match MapChunkSpec(t, c, pa, flags, tablePa)
    case Panic(m) => Panic(m)
    case Done(t') => MapChunks(t', range, next, pa + Len(c), flags, tablePa)
  }

  /** The body of `map_range`'s loop for one chunk: a page descriptor at the leaf level; a block
    * descriptor when the chunk fills its granule, the entry is not a table and `pa` is aligned
    * to the granularity; otherwise the chunk mapped in the subtable `NextLevelSpec` provides,
    * with the entry pointing to that subtable. */
  function MapChunkSpec(t: PageTable, c: Region, pa: nat, flags: Attributes, tablePa: nat): (r: Outcome<PageTable>)
    requires t.level <= LEAF_LEVEL && PageAligned(c) && c.end < Align.WORD
    ensures r.Done? ==> r.value.level == t.level
    decreases LEAF_LEVEL - t.level, 1, 0, 0
  {
    var i := Index(c.start, t.level);
    if t.level == LEAF_LEVEL then
      Done(t.(entries := t.entries[i := Set(pa, Union(Union(flags, ACCESSED), TABLE_OR_PAGE))]))
    else if IsBlock(c, t.level) && !IsTableOrPage(Entry(t, i)) && IsAligned(pa, Granularity(t.level)) then
      Done(t.(entries := t.entries[i := Set(pa, Union(flags, ACCESSED))]))
    else
      match NextLevelSpec(t, c, tablePa)
      case Panic(m) => Panic(m)
      case Done((w, sub)) =>
        match MapRangeSpec(sub, c, pa, flags, tablePa)
        case Panic(m) => Panic(m)
        case Done(sub') => Done(t.(entries := t.entries[i := w], subtables := t.subtables[i := sub']))
  }

  /** The subtable `map_range` descends into for a chunk above the leaf level, with the
    * descriptor its entry holds afterwards: an existing subtable, taken to be one level down as
    * `PageTable::from_pointer` records it; otherwise the table `FreshSubtable` provides, behind a
    * table descriptor for `tablePa`. */
  function NextLevelSpec(t: PageTable, c: Region, tablePa: nat): (r: Outcome<(Word, PageTable)>)
    requires t.level < LEAF_LEVEL && PageAligned(c) && c.end < Align.WORD
    ensures r.Done? ==> r.value.1.level == t.level + 1
    decreases LEAF_LEVEL - t.level, 0, 0, 1
  {
    var i := Index(c.start, t.level);
    var entry := Entry(t, i);
    if IsTableOrPage(entry) && i in t.subtables then Done((entry, t.subtables[i].(level := t.level + 1)))
    else
      match FreshSubtable(t, c, tablePa)
      case Panic(m) => Panic(m)
      case Done(sub) => Done((Set(tablePa, TABLE_OR_PAGE), sub))
  }

  /** A new table one level down for the chunk's entry, into which a block the entry held is
    * first mapped again over the region `BlockRegion` gives. */
  function FreshSubtable(t: PageTable, c: Region, tablePa: nat): (r: Outcome<PageTable>)
    requires t.level < LEAF_LEVEL && PageAligned(c) && c.end < Align.WORD
    ensures r.Done? ==> r.value.level == t.level + 1
    decreases LEAF_LEVEL - t.level, 0, 0, 0
  {
    var entry := Entry(t, Index(c.start, t.level));
    var empty := NewTable(t.level + 1).value;
    if Flags(entry).Some? && OutputAddress(entry).Some? then
      match BlockRegion(c, t.level)
      case Panic(m) => Panic(m)
      case Done(r) => MapRangeSpec(empty, r, OutputAddress(entry).value, Flags(entry).value, tablePa)
    else Done(empty)
  }

  /** The block around a chunk, `align_down(start, g)..align_up(end, g)` for the granularity `g`
    * of the level; the addition in `align_up` overflows, and panics, in the last granule below
    * 2^64. */
  function BlockRegion(c: Region, level: nat): (r: Outcome<Region>)
    requires level < LEAF_LEVEL && PageAligned(c) && c.end < Align.WORD
    ensures r.Done? ==> PageAligned(r.value) && r.value.end < Align.WORD
  {
    var g := Granularity(level);
    GranularityIsPowerOfTwo(level);
    var a := Align.AlignDown(c.start, g).value;
    if c.end + g - 1 >= Align.WORD then Panic("attempt to add with overflow")
    else
      var b := Align.AlignUp(c.end, g);
      Align.MultipleOfDivisor(a, g, PAGE_SIZE);
      Align.MultipleOfDivisor(b, g, PAGE_SIZE);
      Done(NewRegion(a, b))
  }

  /** `PageTable::map_range`: the loop over `range.split(level)`, advancing through the chunks
    * as `ChunkedIterator::next` does. */
  method MapRange(t: PageTable, range: Region, pa: nat, flags: Attributes, tablePa: nat) returns (r: Outcome<PageTable>)
    requires t.level <= LEAF_LEVEL && PageAligned(range) && range.end < Align.WORD
    ensures r == MapRangeSpec(t, range, pa, flags, tablePa)
    decreases LEAF_LEVEL - t.level, 3, 0, 0
  {
    var start := range.start;
    var cur := t;
    var curPa: nat := pa;
    while true
      invariant start % PAGE_SIZE == 0 && cur.level == t.level
      invariant MapChunks(cur, range, start, curPa, flags, tablePa) == MapRangeSpec(t, range, pa, flags, tablePa)
      decreases range.end - start
    {
      var s := start;
      var (chunk, end) := NextChunk(range, Granularity(t.level), s);
      start := end;
      if chunk.None? {
        return Done(cur);
      }
      var c := chunk.value;
      ChunkStep(range, t.level, s, c, start);
      var next := MapChunk(cur, c, curPa, flags, tablePa);
      LoopStep(cur, range, s, c, start, curPa, flags, tablePa, next);
      if next.Panic? {
        return Panic(next.message);
      }
      cur := next.value;
      curPa := curPa + Len(c);
    }
  }

  /** The turn for chunk `c` panics when mapping `c` does, and otherwise goes on from `next`
    * with the table mapping `c` produced. */
  lemma MapChunkThenStep(t: PageTable, range: Region, c: Region, next: nat, pa: nat, flags: Attributes, tablePa: nat)
    requires t.level <= LEAF_LEVEL && PageAligned(range) && range.end < Align.WORD
    requires PageAligned(c) && c.start < next == c.end <= range.end < Align.WORD
    ensures MapChunkSpec(t, c, pa, flags, tablePa).Panic? ==>
      MapChunkThen(t, range, c, next, pa, flags, tablePa) == Panic(MapChunkSpec(t, c, pa, flags, tablePa).message)
    ensures MapChunkSpec(t, c, pa, flags, tablePa).Done? ==>
      MapChunkThen(t, range, c, next, pa, flags, tablePa)
      == MapChunks(MapChunkSpec(t, c, pa, flags, tablePa).value, range, next, pa + Len(c), flags, tablePa)
  {
  }

  /** The chunk the iterator yields from a page-aligned position inside the range. */
  lemma ChunkStep(range: Region, level: nat, start: nat, c: Region, next: nat)
    requires level <= LEAF_LEVEL && PageAligned(range) && range.end < Align.WORD && start % PAGE_SIZE == 0
    requires NextChunk(range, Granularity(level), start) == (Some(c), next)
    ensures PageAligned(c) && c.start < next == c.end <= range.end && next % PAGE_SIZE == 0
  {
    ChunkFacts(range, level, start);
  }

  /** One turn of the loop of `map_range` in terms of the result `r` of mapping its chunk. */
  lemma LoopStep(t: PageTable, range: Region, start: nat, c: Region, next: nat, pa: nat, flags: Attributes, tablePa: nat, r: Outcome<PageTable>)
    requires t.level <= LEAF_LEVEL && PageAligned(range) && range.end < Align.WORD && start % PAGE_SIZE == 0
    requires NextChunk(range, Granularity(t.level), start) == (Some(c), next)
    requires PageAligned(c) && c.start < next == c.end <= range.end && next % PAGE_SIZE == 0
    requires r == MapChunkSpec(t, c, pa, flags, tablePa)
    ensures r.Panic? ==> MapChunks(t, range, start, pa, flags, tablePa) == Panic(r.message)
    ensures r.Done? ==> r.value.level == t.level
    ensures r.Done? ==> MapChunks(t, range, start, pa, flags, tablePa) == MapChunks(r.value, range, next, pa + Len(c), flags, tablePa)
  {
    MapChunksStep(t, range, start, c, next, pa, flags, tablePa);
    MapChunkThenStep(t, range, c, next, pa, flags, tablePa);
  }

  /** A position inside the range steps to the chunk `NextChunk` yields from it. */
  lemma MapChunksStep(t: PageTable, range: Region, start: nat, c: Region, next: nat, pa: nat, flags: Attributes, tablePa: nat)
    requires t.level <= LEAF_LEVEL && PageAligned(range) && range.end < Align.WORD && start % PAGE_SIZE == 0
    requires NextChunk(range, Granularity(t.level), start) == (Some(c), next)
    ensures PageAligned(c) && c.start < next == c.end <= range.end && next % PAGE_SIZE == 0
    ensures MapChunks(t, range, start, pa, flags, tablePa) == MapChunkThen(t, range, c, next, pa, flags, tablePa)
  {
    ChunkFacts(range, t.level, start);
  }

  /** The body of `map_range`'s loop for one chunk. */
  method MapChunk(t: PageTable, c: Region, pa: nat, flags: Attributes, tablePa: nat) returns (r: Outcome<PageTable>)
    requires t.level <= LEAF_LEVEL && PageAligned(c) && c.end < Align.WORD
    ensures r == MapChunkSpec(t, c, pa, flags, tablePa)
    decreases LEAF_LEVEL - t.level, 1, 0, 0
  {
    var level := t.level;
    var granularity := Granularity(level);
    var i := Index(c.start, level);
    if level == LEAF_LEVEL {
      return Done(t.(entries := t.entries[i := Set(pa, Union(Union(flags, ACCESSED), TABLE_OR_PAGE))]));
    } else if IsBlock(c, level) && !IsTableOrPage(Entry(t, i)) && IsAligned(pa, granularity) {
      return Done(t.(entries := t.entries[i := Set(pa, Union(flags, ACCESSED))]));
    }
    var next := NextLevel(t, c, tablePa);
    if next.Panic? {
      return Panic(next.message);
    }
    var (w, sub) := next.value;
    var mapped := MapRange(sub, c, pa, flags, tablePa);
    if mapped.Panic? {
      return Panic(mapped.message);
    }
    return Done(t.(entries := t.entries[i := w], subtables := t.subtables[i := mapped.value]));
  }

  /** The subtable `map_range` descends into, and the descriptor for it. */
  method NextLevel(t: PageTable, c: Region, tablePa: nat) returns (r: Outcome<(Word, PageTable)>)
    requires t.level < LEAF_LEVEL && PageAligned(c) && c.end < Align.WORD
    ensures r == NextLevelSpec(t, c, tablePa)
    decreases LEAF_LEVEL - t.level, 0, 0, 1
  {
    var level := t.level;
    var granularity := Granularity(level);
    var i := Index(c.start, level);
    var entry := Entry(t, i);
    if IsTableOrPage(entry) && i in t.subtables {
      return Done((entry, t.subtables[i].(level := level + 1)));
    }
    var sub := NewTable(level + 1).value;
    if Flags(entry).Some? && OutputAddress(entry).Some? {
      GranularityIsPowerOfTwo(level);
      var a := Align.AlignDown(c.start, granularity).value;
      if c.end + granularity - 1 >= Align.WORD {
        return Panic("attempt to add with overflow");
      }
      var b := Align.AlignUp(c.end, granularity);
      Align.MultipleOfDivisor(a, granularity, PAGE_SIZE);
      Align.MultipleOfDivisor(b, granularity, PAGE_SIZE);
      var remapped := MapRange(sub, NewRegion(a, b), OutputAddress(entry).value, Flags(entry).value, tablePa);
      if remapped.Panic? {
        return Panic(remapped.message);
      }
      sub := remapped.value;
    }
    return Done((Set(tablePa, TABLE_OR_PAGE), sub));
  }
}
