/** What the kernel page table of mem.rs translates once `fill_kernel_page_table` has mapped its
  * four regions into it: each address of the upper half goes where the last request covering it
  * sends it, so the kernel code keeps its read-only, executable mapping where nothing later
  * covers it, and no address is mapped both writable and executable. */
module KernelTables {
  import opened Wrappers
  import opened Descriptors
  import opened Paging
  import opened Mem
  import PagingProofs
  import RootTables
  import Align

  /** What `PageTable::map_range` needs of one request to keep the table well formed: a forward
    * range, a page-aligned physical start whose range stays below 2^48, page attributes rather
    * than a table descriptor, and a page-aligned place for new subtables. */
  predicate RequestOk(m: MapRequest, tablePa: nat) {
    var range := NewRegion(m.start, m.end);
    range.start <= range.end && PagingProofs.PhysicalOk(m.pa, Len(range)) && PagingProofs.MapArgsOk(m.flags, tablePa)
  }

  /** The page-rounded range of the request holds `va`. */
  predicate Holds(m: MapRequest, va: nat) {
    var range := NewRegion(m.start, m.end);
    range.start <= va < range.end
  }

  /** What the request maps `va` to, when its range holds it. */
  function Hit(m: MapRequest, va: nat): Mapping
    requires Holds(m, va)
  {
    var range := NewRegion(m.start, m.end);
    Mapping(m.pa + (va - range.start), PagingProofs.MappedAttributes(m.flags))
  }

  /** The translation of `va` after mapping the requests in order, `before` being the one it had:
    * every request whose page-rounded range holds `va` replaces it by its own. */
  function Covered(ms: seq<MapRequest>, va: nat, before: Option<Mapping>): Option<Mapping>
    decreases |ms|
  {
    if ms == [] then before
    else Covered(ms[1..], va, if Holds(ms[0], va) then Some(Hit(ms[0], va)) else before)
  }

  /** The requests mapped one after another into a root table serving `vaRange` leave a
    * well-formed table that translates every address it serves as `Covered` says. */
  lemma {:induction false} MapAllCorrect(t: PageTable, vaRange: RootTables.VaRange, ms: seq<MapRequest>, tablePa: nat)
    requires WellFormed(t) && t.level == 0 && StartsOk(ms)
    requires forall i :: 0 <= i < |ms| ==> RequestOk(ms[i], tablePa)
    ensures var m := MapAll(t, vaRange, ms, tablePa);
      m.Done? ==>
        WellFormed(m.value)
        && forall va: nat | va < Align.WORD && RootTables.Serves(vaRange, va) ::
             Translate(m.value, va) == Covered(ms, va, Translate(t, va))
    decreases |ms|
  {
    if ms != [] {
      MapAllUnfold(t, vaRange, ms, tablePa);
      var step := MapStep(t, vaRange, ms[0], tablePa);
      if step.Done? {
        var range := NewRegion(ms[0].start, ms[0].end);
        assert range.end < Align.WORD;
        RootTables.RootMapCorrect(t, vaRange, range, ms[0].pa, ms[0].flags, tablePa);
        var t1 := step.value;
        assert forall i :: 0 <= i < |ms[1..]| ==> ms[1..][i] == ms[i + 1];
        MapAllCorrect(t1, vaRange, ms[1..], tablePa);
        var m := MapAll(t1, vaRange, ms[1..], tablePa);
        if m.Done? {
          forall va: nat | va < Align.WORD && RootTables.Serves(vaRange, va)
            ensures Translate(m.value, va) == Covered(ms, va, Translate(t, va))
          {
            CoveredStep(ms, va, Translate(t, va), Translate(t1, va));
          }
        }
      }
    }
  }

  /** One step of `Covered`: the first request replaces `before` when its range holds `va`. */
  lemma CoveredStep(ms: seq<MapRequest>, va: nat, before: Option<Mapping>, after: Option<Mapping>)
    requires ms != []
    requires after == if Holds(ms[0], va) then Some(Hit(ms[0], va)) else before
    ensures Covered(ms, va, before) == Covered(ms[1..], va, after)
  {
  }

  /** `Covered` gives the mapping of the last request whose range holds `va`. */
  lemma {:induction false} CoveredLast(ms: seq<MapRequest>, va: nat, before: Option<Mapping>, i: nat)
    requires i < |ms| && Holds(ms[i], va)
    requires forall j :: i < j < |ms| ==> !Holds(ms[j], va)
    ensures Covered(ms, va, before) == Some(Hit(ms[i], va))
    decreases |ms|
  {
    var here := if Holds(ms[0], va) then Some(Hit(ms[0], va)) else before;
    assert forall j :: 0 <= j < |ms[1..]| ==> ms[1..][j] == ms[j + 1];
    if i == 0 {
      CoveredNone(ms[1..], va, here);
    } else {
      CoveredLast(ms[1..], va, here, i - 1);
    }
  }

  /** `Covered` keeps `before` when no request's range holds `va`. */
  lemma {:induction false} CoveredNone(ms: seq<MapRequest>, va: nat, before: Option<Mapping>)
    requires forall j :: 0 <= j < |ms| ==> !Holds(ms[j], va)
    ensures Covered(ms, va, before) == before
    decreases |ms|
  {
    if ms != [] {
      assert forall j :: 0 <= j < |ms[1..]| ==> ms[1..][j] == ms[j + 1];
      CoveredNone(ms[1..], va, before);
    }
  }

  /** Whatever `Covered` gives is `before` or the mapping of one of the requests. */
  lemma {:induction false} CoveredFrom(ms: seq<MapRequest>, va: nat, before: Option<Mapping>)
    ensures var c := Covered(ms, va, before);
      c == before || exists i :: 0 <= i < |ms| && Holds(ms[i], va) && c == Some(Hit(ms[i], va))
    decreases |ms|
  {
    if ms != [] {
      var here := if Holds(ms[0], va) then Some(Hit(ms[0], va)) else before;
      CoveredFrom(ms[1..], va, here);
      var c := Covered(ms, va, before);
      if c != here && c != before {
        var i :| 0 <= i < |ms[1..]| && Holds(ms[1..][i], va) && c == Some(Hit(ms[1..][i], va));
        assert ms[1..][i] == ms[i + 1];
      }
    }
  }

  /** After mapping the requests, an address the table serves that the `i`-th request holds and
    * no later one does translates as the `i`-th request says. */
  lemma MappedByLast(t: PageTable, vaRange: RootTables.VaRange, ms: seq<MapRequest>, tablePa: nat, va: nat, i: nat)
    requires WellFormed(t) && t.level == 0 && StartsOk(ms)
    requires forall k :: 0 <= k < |ms| ==> RequestOk(ms[k], tablePa)
    requires MapAll(t, vaRange, ms, tablePa).Done?
    requires va < Align.WORD && RootTables.Serves(vaRange, va)
    requires i < |ms| && Holds(ms[i], va) && forall j :: i < j < |ms| ==> !Holds(ms[j], va)
    ensures Translate(MapAll(t, vaRange, ms, tablePa).value, va) == Some(Hit(ms[i], va))
  {
    MapAllCorrect(t, vaRange, ms, tablePa);
    CoveredLast(ms, va, Translate(t, va), i);
  }

  /** After mapping the requests into an empty table, whatever an address the table serves
    * translates to is the mapping of one of the requests. */
  lemma MappedByOne(t: PageTable, vaRange: RootTables.VaRange, ms: seq<MapRequest>, tablePa: nat, va: nat)
    requires WellFormed(t) && t.level == 0 && StartsOk(ms)
    requires forall k :: 0 <= k < |ms| ==> RequestOk(ms[k], tablePa)
    requires MapAll(t, vaRange, ms, tablePa).Done? && Translate(t, va) == None
    requires va < Align.WORD && RootTables.Serves(vaRange, va)
    ensures var tr := Translate(MapAll(t, vaRange, ms, tablePa).value, va);
      tr.Some? ==> exists i :: 0 <= i < |ms| && Holds(ms[i], va) && tr == Some(Hit(ms[i], va))
  {
    MapAllCorrect(t, vaRange, ms, tablePa);
    CoveredFrom(ms, va, Translate(t, va));
  }

  /** The four kernel requests can be mapped: each satisfies `RequestOk`. */
  predicate KernelRequestsOk(dm: nat, mm: MemoryMapResult, s: KernelSections, allocStart: nat, allocSize: nat, tablePa: nat) {
    var ms := KernelMappings(dm, mm, s, allocStart, allocSize);
    ms.Done? && forall i :: 0 <= i < |ms.value| ==> RequestOk(ms.value[i], tablePa)
  }

  /** `FillSpec` from an empty root table is `MapAll` of the kernel requests. */
  lemma FillIsMapAll(dm: nat, mm: MemoryMapResult, s: KernelSections, allocStart: nat, allocSize: nat, tablePa: nat)
    requires SectionsOk(s) && dm < Align.WORD && KernelRequestsOk(dm, mm, s, allocStart, allocSize, tablePa)
    ensures var t := NewTable(0).value; var ms := KernelMappings(dm, mm, s, allocStart, allocSize).value;
      WellFormed(t) && t.level == 0 && StartsOk(ms) && (forall k :: 0 <= k < |ms| ==> RequestOk(ms[k], tablePa))
      && (forall va: nat :: Translate(t, va) == None)
      && FillSpec(t, dm, mm, s, allocStart, allocSize, tablePa) == MapAll(t, RootTables.Upper, ms, tablePa)
  {
  }

  /** W^X for the kernel page table: built from an empty root table, it maps no address of the
    * upper half both writable and executable. */
  lemma KernelTableWriteXorExecute(dm: nat, mm: MemoryMapResult, s: KernelSections, allocStart: nat, allocSize: nat, tablePa: nat, va: nat)
    requires SectionsOk(s) && dm < Align.WORD && KernelRequestsOk(dm, mm, s, allocStart, allocSize, tablePa)
    requires va < Align.WORD && RootTables.Serves(RootTables.Upper, va)
    requires FillSpec(NewTable(0).value, dm, mm, s, allocStart, allocSize, tablePa).Done?
    ensures var f := FillSpec(NewTable(0).value, dm, mm, s, allocStart, allocSize, tablePa).value;
      Translate(f, va).Some? ==>
        Translate(f, va).value.attributes.readOnly || ExecuteNever(Translate(f, va).value.attributes)
  {
    var t := NewTable(0).value;
    var ms := KernelMappings(dm, mm, s, allocStart, allocSize).value;
    FillIsMapAll(dm, mm, s, allocStart, allocSize, tablePa);
    KernelMappingsPermissions(dm, mm, s, allocStart, allocSize);
    MappedByOne(t, RootTables.Upper, ms, tablePa, va);
  }

  /** An address of the kernel code that the later data and heap mappings do not cover
    * translates to the matching byte of the kernel's physical image, read-only and
    * executable. */
  lemma KernelCodeMapped(dm: nat, mm: MemoryMapResult, s: KernelSections, allocStart: nat, allocSize: nat, tablePa: nat, va: nat)
    requires SectionsOk(s) && dm < Align.WORD && KernelRequestsOk(dm, mm, s, allocStart, allocSize, tablePa)
    requires va < Align.WORD && RootTables.Serves(RootTables.Upper, va)
    requires FillSpec(NewTable(0).value, dm, mm, s, allocStart, allocSize, tablePa).Done?
    requires var code := NewRegion(s.codeStart, s.codeEnd); code.start <= va < code.end
    requires var data := NewRegion(s.dataStart, s.dataEnd); !(data.start <= va < data.end)
    requires var heap := NewRegion(s.heapStart, s.heapStart + allocSize); !(heap.start <= va < heap.end)
    ensures var f := FillSpec(NewTable(0).value, dm, mm, s, allocStart, allocSize, tablePa).value;
      var code := NewRegion(s.codeStart, s.codeEnd);
      Translate(f, va) == Some(Mapping(mm.kernelPhysicalAddress + (va - code.start), PagingProofs.MappedAttributes(Union(NORMAL, READ_ONLY))))
      && Translate(f, va).value.attributes.readOnly && !Translate(f, va).value.attributes.pxn
  {
    var t := NewTable(0).value;
    var ms := KernelMappings(dm, mm, s, allocStart, allocSize).value;
    FillIsMapAll(dm, mm, s, allocStart, allocSize, tablePa);
    CodeRequest(dm, mm, s, allocStart, allocSize, va);
    MappedByLast(t, RootTables.Upper, ms, tablePa, va, 1);
  }

  /** Of the kernel requests, an address of the code that the data and heap do not cover is
    * held by the code request alone among the last three, which maps it read-only. */
  lemma CodeRequest(dm: nat, mm: MemoryMapResult, s: KernelSections, allocStart: nat, allocSize: nat, va: nat)
    requires KernelMappings(dm, mm, s, allocStart, allocSize).Done?
    requires var code := NewRegion(s.codeStart, s.codeEnd); code.start <= va < code.end
    requires var data := NewRegion(s.dataStart, s.dataEnd); !(data.start <= va < data.end)
    requires var heap := NewRegion(s.heapStart, s.heapStart + allocSize); !(heap.start <= va < heap.end)
    ensures var ms := KernelMappings(dm, mm, s, allocStart, allocSize).value;
      Holds(ms[1], va) && forall j :: 1 < j < |ms| ==> !Holds(ms[j], va)
    ensures var ms := KernelMappings(dm, mm, s, allocStart, allocSize).value;
      var code := NewRegion(s.codeStart, s.codeEnd);
      Hit(ms[1], va) == Mapping(mm.kernelPhysicalAddress + (va - code.start), PagingProofs.MappedAttributes(Union(NORMAL, READ_ONLY)))
      && Hit(ms[1], va).attributes.readOnly && !Hit(ms[1], va).attributes.pxn
  {
    var ms := KernelMappings(dm, mm, s, allocStart, allocSize).value;
    assert ms[1] == MapRequest(s.codeStart, s.codeEnd, mm.kernelPhysicalAddress, Union(NORMAL, READ_ONLY));
    assert ms[2].start == s.dataStart && ms[2].end == s.dataEnd;
    assert ms[3].start == s.heapStart && ms[3].end == s.heapStart + allocSize;
    ReadOnlyCodeAttributes();
  }

  /** The attributes the kernel code reads back with are read-only and executable. */
  lemma ReadOnlyCodeAttributes()
    ensures var a := PagingProofs.MappedAttributes(Union(NORMAL, READ_ONLY)); a.readOnly && !a.pxn && !a.uxn
  {
  }
}
