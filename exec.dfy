/** exec.rs: the process manager that hands out process ids, and what `load_test_executable`
  * computes from the program headers of an ELF file: the physical memory its loadable segments
  * need, the page attributes and flag string of each segment, where each is mapped in the
  * process's address space, and where its file bytes are copied.
  *
  * The file comes parsed (its format, architecture, byte order and program headers); the
  * address-space id of a new process, its root page table, and the process memory that
  * `process_alloc` returns (its physical start and direct-mapped virtual address) are inputs. */
module Exec {
  import opened Wrappers
  import opened Descriptors
  import opened Paging
  import opened Mem
  import Align
  import RootTables
  import OnceCells
  import PagingProofs
  import KernelTables

  // ----- Processes -----

  /** `Process`: its id, its name and the address-space id of its page table. */
  datatype Process = Process(pid: nat, name: string, asid: nat)

  /** The process ids are positive, below `next`, and strictly increasing in list order. */
  predicate PidsOrdered(ps: seq<Process>, next: nat) {
    (forall i :: 0 <= i < |ps| ==> 1 <= ps[i].pid < next)
    && (forall i, j :: 0 <= i < j < |ps| ==> ps[i].pid < ps[j].pid)
  }

  /** Ordered process ids are unique. */
  lemma PidsUnique(ps: seq<Process>, next: nat, i: nat, j: nat)
    requires PidsOrdered(ps, next) && i < |ps| && j < |ps| && i != j
    ensures ps[i].pid != ps[j].pid
  {
    if i > j {
      assert ps[j].pid < ps[i].pid;
    }
  }

  /** `ProcessManagerInner`: the processes in creation order and the next id to hand out. */
  class ProcessManagerInner {
    var processes: seq<Process>
    var nextPid: nat

    ghost predicate Valid()
      reads this
    {
      nextPid >= 1 && PidsOrdered(processes, nextPid)
    }

    /** `ProcessManagerInner::new`: no processes; ids start at 1. */
    constructor ()
      ensures Valid() && processes == [] && nextPid == 1
    {
      processes := [];
      nextPid := 1;
    }

    /** `create_process`: the new process takes `next_pid`, which moves on by one, and is
      * appended to the list; its id differs from every earlier one. It always succeeds. */
    method CreateProcess(name: string, asid: nat) returns (r: Result<(nat, Process), ()>)
      requires Valid()
      modifies this
      ensures Valid()
      ensures r == Ok((old(nextPid), Process(old(nextPid), name, asid)))
      ensures processes == old(processes) + [r.value.1] && nextPid == old(nextPid) + 1
      ensures forall i :: 0 <= i < |old(processes)| ==> processes[i].pid < r.value.0
    {
      var pid := nextPid;
      nextPid := nextPid + 1;
      var process := Process(pid, name, asid);
      processes := processes + [process];
      r := Ok((pid, process));
    }
  }

  // ----- Program headers -----

  /** A program header: `p_type`, `p_flags`, `p_offset`, `p_vaddr`, `p_paddr`, `p_filesz`,
    * `p_memsz` and `p_align`. */
  datatype ProgramHeader = ProgramHeader(
    pType: nat, flags: nat, offset: nat, vaddr: nat, paddr: nat, filesz: nat, memsz: nat, align: nat)

  /** Segment type and permission bits of the ELF format. */
  const PT_LOAD: nat := 1
  const PF_X: nat := 1
  const PF_W: nat := 2
  const PF_R: nat := 4

  predicate IsLoad(p: ProgramHeader) {
    p.pType == PT_LOAD
  }

  /** `flags & bit != 0` for a single-bit mask `bit`. */
  predicate HasFlag(flags: nat, bit: nat)
    requires bit > 0
  {
    (flags / bit) % 2 == 1
  }

  /** The fields of a header are 64-bit values. */
  predicate HeadersOk(phdrs: seq<ProgramHeader>) {
    forall i :: 0 <= i < |phdrs| ==>
      phdrs[i].vaddr < Align.WORD && phdrs[i].offset < Align.WORD && phdrs[i].memsz < Align.WORD
      && phdrs[i].filesz < Align.WORD
  }

  /** `align_up` demands a power of two: every loadable segment's `p_align` is one, or 0, the
    * ELF value for "no alignment", on which `align - 1` underflows. */
  predicate AlignsOk(phdrs: seq<ProgramHeader>) {
    forall i :: 0 <= i < |phdrs| && IsLoad(phdrs[i]) ==> phdrs[i].align == 0 || Align.IsPowerOfTwo(phdrs[i].align)
  }

  /** The loadable segments, in header order. */
  function Loads(phdrs: seq<ProgramHeader>): (ls: seq<ProgramHeader>)
    ensures |ls| <= |phdrs|
    ensures HeadersOk(phdrs) ==> HeadersOk(ls)
    decreases |phdrs|
  {
    if phdrs == [] then []
    else
      var init := phdrs[..|phdrs| - 1];
      var p := phdrs[|phdrs| - 1];
      assert forall i :: 0 <= i < |init| ==> init[i] == phdrs[i];
      Loads(init) + if IsLoad(p) then [p] else []
  }

  /** The memory sizes of the first `k` segments added up. */
  function Offset(ls: seq<ProgramHeader>, k: nat): nat
    requires k <= |ls|
  {
    if k == 0 then 0 else Offset(ls, k - 1) + ls[k - 1].memsz
  }

  /** The memory sizes of all the segments added up. */
  function SumMemsz(ls: seq<ProgramHeader>): nat {
    Offset(ls, |ls|)
  }

  /** The sizes before each of a prefix's segments are those before the same segment of
    * the whole. */
  lemma {:induction false} OffsetPrefix(ls: seq<ProgramHeader>, all: seq<ProgramHeader>, k: nat)
    requires ls <= all && k <= |ls|
    ensures Offset(ls, k) == Offset(all, k)
  {
    if k > 0 {
      OffsetPrefix(ls, all, k - 1);
      assert ls[k - 1] == all[k - 1];
    }
  }

  /** `load_size` after the first loop: over the loadable segments in order, the running size
    * is aligned up to the segment's `p_align` and then grows by its `p_memsz`. A loadable
    * segment with `p_align` 0 makes `align_up` subtract 1 from 0, which panics. Otherwise the
    * size is never less than the memory sizes of the loadable segments added up. */
  function LoadSize(phdrs: seq<ProgramHeader>): (r: Outcome<nat>)
    requires AlignsOk(phdrs)
    ensures r.Panic? <==> exists i :: 0 <= i < |phdrs| && IsLoad(phdrs[i]) && phdrs[i].align == 0
    ensures r.Panic? ==> r == Panic("attempt to subtract with overflow")
    ensures r.Done? ==> r.value >= SumMemsz(Loads(phdrs))
    decreases |phdrs|
  {
    if phdrs == [] then Done(0)
    else
      var init := phdrs[..|phdrs| - 1];
      var p := phdrs[|phdrs| - 1];
      assert forall i :: 0 <= i < |init| ==> init[i] == phdrs[i];
      match LoadSize(init)
      case Panic(m) => Panic(m)
      case Done(before) =>
        if IsLoad(p) then
          assert Loads(phdrs) == Loads(init) + [p];
          OffsetPrefix(Loads(init), Loads(init) + [p], |Loads(init)|);
          if p.align == 0 then Panic("attempt to subtract with overflow")
          else Done(Align.AlignUp(before, p.align) + p.memsz)
        else
          assert Loads(phdrs) == Loads(init);
          Done(before)
  }

  /** Where every segment is aligned to 1, `load_size` is the memory sizes added up. */
  lemma {:induction false} LoadSizeUnaligned(phdrs: seq<ProgramHeader>)
    requires forall i :: 0 <= i < |phdrs| && IsLoad(phdrs[i]) ==> phdrs[i].align == 1
    ensures Align.IsPowerOfTwo(1) && AlignsOk(phdrs) && LoadSize(phdrs) == Done(SumMemsz(Loads(phdrs)))
    decreases |phdrs|
  {
    if phdrs != [] {
      var init := phdrs[..|phdrs| - 1];
      var p := phdrs[|phdrs| - 1];
      assert forall i :: 0 <= i < |init| ==> init[i] == phdrs[i];
      LoadSizeUnaligned(init);
      if IsLoad(p) {
        assert Loads(phdrs) == Loads(init) + [p];
        OffsetPrefix(Loads(init), Loads(init) + [p], |Loads(init)|);
      } else {
        assert Loads(phdrs) == Loads(init);
      }
    }
  }

  /** The first loop of `load_test_executable`. */
  method ComputeLoadSize(phdrs: seq<ProgramHeader>) returns (r: Outcome<nat>)
    requires AlignsOk(phdrs)
    ensures r == LoadSize(phdrs)
  {
    var size: nat := 0;
    var i := 0;
    while i < |phdrs|
      invariant 0 <= i <= |phdrs| && AlignsOk(phdrs[..i])
      invariant LoadSize(phdrs[..i]) == Done(size)
    {
      var p := phdrs[i];
      assert phdrs[..i + 1][..i] == phdrs[..i] && phdrs[..i + 1][i] == p;
      if p.pType == PT_LOAD {
        if p.align == 0 {
          assert IsLoad(phdrs[i]) && phdrs[i].align == 0;
          return Panic("attempt to subtract with overflow");
        }
        size := Align.AlignUp(size, p.align);
        size := size + p.memsz;
      }
      i := i + 1;
    }
    assert phdrs[..i] == phdrs;
    r := Done(size);
  }


  // ----- Segment attributes -----

  /** The page attributes of a loadable segment: normal, user-accessible, non-global memory,
    * read-only exactly when the segment is readable and not writable, and execute-never exactly
    * when it is not executable. */
  function SegmentAttributes(flags: nat): (a: Attributes)
    ensures Contains(a, Union(Union(NORMAL, USER), NON_GLOBAL))
    ensures a.readOnly <==> HasFlag(flags, PF_R) && !HasFlag(flags, PF_W)
    ensures a.pxn <==> !HasFlag(flags, PF_X)
    ensures a.uxn <==> !HasFlag(flags, PF_X)
    ensures !a.valid && !a.tableOrPage && !a.accessed
  {
    var base := Union(Union(NORMAL, USER), NON_GLOBAL);
    var protected := if !HasFlag(flags, PF_W) && HasFlag(flags, PF_R) then Union(base, READ_ONLY) else base;
    if !HasFlag(flags, PF_X) then Union(protected, EXECUTE_NEVER) else protected
  }

  /** The flag string that is logged: three characters, for R, W and X in that order, each a
    * `-` when its bit is clear. */
  function FlagsString(flags: nat): (s: string)
    ensures |s| == 3
  {
    [if HasFlag(flags, PF_R) then 'R' else '-',
     if HasFlag(flags, PF_W) then 'W' else '-',
     if HasFlag(flags, PF_X) then 'X' else '-']
  }

  /** The permission bits a flag string shows, as an independent reading of it. */
  function FlagsShown(s: string): nat
    requires |s| == 3
  {
    (if s[0] == 'R' then PF_R else 0) + (if s[1] == 'W' then PF_W else 0) + (if s[2] == 'X' then PF_X else 0)
  }

  /** The R, W and X bits of the flags are the bits of its low three bits. */
  lemma LowFlagBits(flags: nat)
    ensures HasFlag(flags, PF_R) <==> flags % 8 / 4 == 1
    ensures HasFlag(flags, PF_W) <==> flags % 8 % 4 / 2 == 1
    ensures HasFlag(flags, PF_X) <==> flags % 8 % 2 == 1
  {
    var q, b := flags / 8, flags % 8;
    var b4, b2 := b / 4, b % 4 / 2;
    Arith.DivModUnique(flags, 4, 2 * q + b4, b % 4);
    Arith.DivModUnique(2 * q + b4, 2, q, b4);
    Arith.DivModUnique(flags, 2, 4 * q + 2 * b4 + b2, b % 2);
    Arith.DivModUnique(4 * q + 2 * b4 + b2, 2, 2 * q + b4, b2);
    Arith.DivModUnique(flags, 1, flags, 0);
    Arith.DivModUnique(flags, 2, flags / 2, b % 2);
  }

  /** The flag string shows exactly the R, W and X bits of the flags, and nothing else. */
  lemma FlagsStringShowsPermissions(flags: nat)
    ensures FlagsShown(FlagsString(flags)) == flags % 8
    ensures forall k :: 0 <= k < 3 ==> FlagsString(flags)[k] in ['R', 'W', 'X', '-']
  {
    LowFlagBits(flags);
    var b := flags % 8;
    assert b == 4 * (b / 4) + 2 * (b % 4 / 2) + b % 2;
  }

  // ----- Segment placement -----

  /** The `map_range` request of a loadable segment whose memory starts at physical `pa`: its
    * virtual range `[p_vaddr, p_vaddr + p_memsz)` with its segment attributes. */
  function Request(p: ProgramHeader, pa: nat): MapRequest {
    MapRequest(p.vaddr, p.vaddr + p.memsz, pa, SegmentAttributes(p.flags))
  }

  /** The requests of the second loop: the `k`-th loadable segment is mapped at `process_phys`
    * plus the memory sizes of the loadable segments before it. */
  function Place(ls: seq<ProgramHeader>, processPhys: nat): (r: seq<MapRequest>)
    ensures |r| == |ls|
    ensures HeadersOk(ls) ==> StartsOk(r)
  {
    seq(|ls|, k requires 0 <= k < |ls| => PlaceAt(ls, processPhys, k))
  }

  /** The request of the `k`-th loadable segment. */
  function PlaceAt(ls: seq<ProgramHeader>, processPhys: nat, k: nat): MapRequest
    requires k < |ls|
  {
    Request(ls[k], processPhys + Offset(ls, k))
  }

  /** The segments lie back to back in physical memory: the first at `process_phys`, each next
    * one where the previous one's memory ends, and the last ending the memory sizes added up
    * past `process_phys`. */
  lemma SegmentsConsecutive(ls: seq<ProgramHeader>, processPhys: nat)
    ensures var r := Place(ls, processPhys);
      (r != [] ==> r[0].pa == processPhys && r[|r| - 1].pa + (r[|r| - 1].end - r[|r| - 1].start) == processPhys + SumMemsz(ls))
      && forall k :: 0 <= k < |r| - 1 ==> r[k + 1].pa == r[k].pa + (r[k].end - r[k].start)
  {
    var r := Place(ls, processPhys);
    forall k | 0 <= k < |r| - 1
      ensures r[k + 1].pa == r[k].pa + (r[k].end - r[k].start)
    {
      assert r[k] == PlaceAt(ls, processPhys, k) && r[k + 1] == PlaceAt(ls, processPhys, k + 1);
      assert Offset(ls, k + 1) == Offset(ls, k) + ls[k].memsz;
    }
  }

  /** The segments' physical memory fits in the `load_size` bytes the first loop computed. */
  lemma SegmentsFitLoadSize(phdrs: seq<ProgramHeader>, processPhys: nat)
    requires AlignsOk(phdrs)
    ensures var r := Place(Loads(phdrs), processPhys);
      LoadSize(phdrs).Done? ==>
        forall k :: 0 <= k < |r| ==> processPhys <= r[k].pa && r[k].pa + (r[k].end - r[k].start) <= processPhys + LoadSize(phdrs).value
  {
    var ls := Loads(phdrs);
    var r := Place(ls, processPhys);
    SegmentsConsecutive(ls, processPhys);
    if LoadSize(phdrs).Done? {
      forall k | 0 <= k < |r|
        ensures processPhys <= r[k].pa && r[k].pa + (r[k].end - r[k].start) <= processPhys + LoadSize(phdrs).value
      {
        SumMemszPrefix(ls, k + 1);
      }
    }
  }


  /** The memory sizes of the first `n` segments add up to no more than all of them. */
  lemma {:induction false} SumMemszPrefix(ls: seq<ProgramHeader>, n: nat)
    requires n <= |ls|
    ensures Offset(ls, n) <= SumMemsz(ls)
    decreases |ls| - n
  {
    if n < |ls| {
      SumMemszPrefix(ls, n + 1);
    }
  }

  /** The segment that `process_virt` is taken from: the first loadable one. */
  function FirstVaddr(ls: seq<ProgramHeader>): (r: Option<nat>)
    ensures r.Some? <==> ls != []
    ensures r.Some? ==> r.value == ls[0].vaddr
  {
    if ls == [] then None else Some(ls[0].vaddr)
  }

  // ----- Copies of the file bytes -----

  /** A `copy_nonoverlapping` of `len` bytes from file offset `fileOffset` to `dest`. */
  datatype Copy = Copy(dest: nat, fileOffset: nat, len: nat)

  /** The copies as written: every segment's file bytes go to `process_virt_dm`, the start of
    * the process memory. */
  function CopiesAsWritten(ls: seq<ProgramHeader>, processVirtDm: nat): (r: seq<Copy>)
    ensures |r| == |ls|
  {
    seq(|ls|, k requires 0 <= k < |ls| => Copy(processVirtDm, ls[k].offset, ls[k].filesz))
  }

  /** Of two loadable segments the first of which takes memory, the second's file bytes are
    * copied as written to the start of the process memory, where the first segment is mapped;
    * the second segment is mapped `p_memsz` of the first further on. */
  lemma CopiesAsWrittenMisplaced(ls: seq<ProgramHeader>, processPhys: nat, processVirtDm: nat)
    requires |ls| >= 2 && ls[0].memsz > 0
    ensures var c := CopiesAsWritten(ls, processVirtDm); var r := Place(ls, processPhys);
      c[1].dest == c[0].dest && r[1].pa - processPhys == ls[0].memsz
      && c[1].dest - processVirtDm != r[1].pa - processPhys
  {
    assert Place(ls, processPhys)[1] == PlaceAt(ls, processPhys, 1);
    assert Offset(ls, 1) == ls[0].memsz;
  }

  /** The copies as intended: the `k`-th segment's file bytes go to the direct-mapped address
    * of the byte its `p_vaddr` is mapped to, `process_virt_dm` plus the memory sizes of the
    * segments before it plus the offset of `p_vaddr` within its page. */
  function Copies(ls: seq<ProgramHeader>, processVirtDm: nat): (r: seq<Copy>)
    ensures |r| == |ls|
  {
    seq(|ls|, k requires 0 <= k < |ls| => CopyAt(ls, processVirtDm, k))
  }

  /** The copy of the `k`-th loadable segment's file bytes. */
  function CopyAt(ls: seq<ProgramHeader>, processVirtDm: nat, k: nat): Copy
    requires k < |ls|
  {
    Copy(processVirtDm + Offset(ls, k) + ls[k].vaddr % PAGE_SIZE, ls[k].offset, ls[k].filesz)
  }

  /** Each segment that takes memory has its first file byte copied, in the direct map, to the
    * physical byte its `p_vaddr` is mapped to; and where each segment's file bytes fit in its
    * memory from the offset of `p_vaddr` within its page, the copies do not overlap. */
  lemma CopiesLandInSegments(ls: seq<ProgramHeader>, processPhys: nat, processVirtDm: nat)
    ensures var c := Copies(ls, processVirtDm); var r := Place(ls, processPhys);
      forall k :: 0 <= k < |ls| && ls[k].memsz > 0 ==>
        KernelTables.Holds(r[k], ls[k].vaddr)
        && processVirtDm <= c[k].dest
        && c[k].dest - processVirtDm == KernelTables.Hit(r[k], ls[k].vaddr).output - processPhys
        && c[k].fileOffset == ls[k].offset && c[k].len == ls[k].filesz
    ensures (forall k :: 0 <= k < |ls| ==> ls[k].vaddr % PAGE_SIZE + ls[k].filesz <= ls[k].memsz) ==>
      var c := Copies(ls, processVirtDm);
      forall k :: 0 <= k < |ls| - 1 ==> c[k].dest + c[k].len <= c[k + 1].dest
  {
  }

  // ----- The second loop -----

  /** No loadable segment's `p_vaddr + p_memsz` or `p_offset + p_filesz` overflows a `usize`. */
  predicate SegmentsFit(ls: seq<ProgramHeader>) {
    forall k :: 0 <= k < |ls| ==> ls[k].vaddr + ls[k].memsz < Align.WORD && ls[k].offset + ls[k].filesz < Align.WORD
  }

  /** The loadable segments of a prefix of the headers begin the loadable segments of all. */
  lemma {:induction false} LoadsPrefix(phdrs: seq<ProgramHeader>, n: nat)
    requires n <= |phdrs|
    ensures Loads(phdrs[..n]) <= Loads(phdrs)
    decreases |phdrs| - n
  {
    if n < |phdrs| {
      LoadsPrefix(phdrs, n + 1);
      assert phdrs[..n + 1][..n] == phdrs[..n];
    } else {
      assert phdrs[..n] == phdrs;
    }
  }

  /** The requests of a prefix of the segments begin the requests of all. */
  lemma PlacePrefix(ls: seq<ProgramHeader>, all: seq<ProgramHeader>, processPhys: nat)
    requires ls <= all
    ensures Place(ls, processPhys) <= Place(all, processPhys)
  {
    forall k | 0 <= k < |ls|
      ensures Place(ls, processPhys)[k] == Place(all, processPhys)[k]
    {
      OffsetPrefix(ls, all, k);
      assert ls[k] == all[k];
    }
  }

  /** When mapping a prefix of the requests panics, mapping all of them panics. */
  lemma {:induction false} MapAllPrefixPanic(t: PageTable, vaRange: RootTables.VaRange, ms: seq<MapRequest>, all: seq<MapRequest>, tablePa: nat)
    requires t.level == 0 && StartsOk(all) && ms <= all
    ensures StartsOk(ms)
    ensures MapAll(t, vaRange, ms, tablePa).Panic? ==> MapAll(t, vaRange, all, tablePa).Panic?
    decreases |ms|
  {
    assert forall i :: 0 <= i < |ms| ==> ms[i] == all[i];
    if ms != [] {
      MapAllUnfold(t, vaRange, ms, tablePa);
      MapAllUnfold(t, vaRange, all, tablePa);
      assert ms[0] == all[0] && ms[1..] <= all[1..];
      var step := MapStep(t, vaRange, ms[0], tablePa);
      if step.Done? {
        MapAllPrefixPanic(step.value, vaRange, ms[1..], all[1..], tablePa);
      }
    }
  }

  /** One more header adds itself to the loadable segments when it is one. */
  lemma LoadsStep(phdrs: seq<ProgramHeader>, i: nat)
    requires i < |phdrs|
    ensures Loads(phdrs[..i + 1]) == Loads(phdrs[..i]) + if IsLoad(phdrs[i]) then [phdrs[i]] else []
  {
    assert phdrs[..i + 1][..i] == phdrs[..i] && phdrs[..i + 1][i] == phdrs[i];
  }

  /** The headers up to a loadable one are 64-bit values, and so are their loadable segments
    * with it. */
  lemma HeadersStep(phdrs: seq<ProgramHeader>, i: nat)
    requires i < |phdrs| && IsLoad(phdrs[i]) && HeadersOk(phdrs)
    ensures HeadersOk(phdrs[..i]) && HeadersOk(phdrs[..i + 1])
    ensures Loads(phdrs[..i + 1]) == Loads(phdrs[..i]) + [phdrs[i]]
    ensures HeadersOk(Loads(phdrs[..i]) + [phdrs[i]])
  {
    LoadsStep(phdrs, i);
    assert forall k :: 0 <= k < i + 1 ==> phdrs[..i + 1][k] == phdrs[k];
    assert forall k :: 0 <= k < i ==> phdrs[..i][k] == phdrs[k];
  }

  /** One more loadable segment adds its request, its memory size, its copy and, for the first
    * segment, the start of the process. */
  lemma Extend(ls: seq<ProgramHeader>, p: ProgramHeader, processPhys: nat, processVirtDm: nat)
    ensures Place(ls + [p], processPhys) == Place(ls, processPhys) + [Request(p, processPhys + SumMemsz(ls))]
    ensures SumMemsz(ls + [p]) == SumMemsz(ls) + p.memsz
    ensures CopiesAsWritten(ls + [p], processVirtDm) == CopiesAsWritten(ls, processVirtDm) + [Copy(processVirtDm, p.offset, p.filesz)]
    ensures FirstVaddr(ls + [p]) == if ls == [] then Some(p.vaddr) else FirstVaddr(ls)
    ensures SegmentsFit(ls) && p.vaddr + p.memsz < Align.WORD && p.offset + p.filesz < Align.WORD ==> SegmentsFit(ls + [p])
  {
    forall k | 0 <= k <= |ls|
      ensures Offset(ls + [p], k) == Offset(ls, k)
    {
      OffsetPrefix(ls, ls + [p], k);
    }
  }

  /** What the second loop has kept track of after the first `i` headers: the headers seen so
    * far are 64-bit values, none of their loadable segments overflowed, and the physical
    * offset, `process_virt` and the copies are those of these segments. */
  ghost predicate Tracked(phdrs: seq<ProgramHeader>, i: nat, processVirtDm: nat,
                          physOffset: nat, first: Option<nat>, copies: seq<Copy>)
    requires i <= |phdrs|
  {
    var ls := Loads(phdrs[..i]);
    HeadersOk(phdrs[..i]) && SegmentsFit(ls)
    && physOffset == SumMemsz(ls) && first == FirstVaddr(ls) && copies == CopiesAsWritten(ls, processVirtDm)
  }

  /** What the second loop has done after the first `i` headers: what it tracks, and the table
    * is `t` with the requests of these segments mapped. */
  ghost predicate Progress(t: PageTable, vaRange: RootTables.VaRange, phdrs: seq<ProgramHeader>, i: nat,
                           processPhys: nat, processVirtDm: nat, tablePa: nat,
                           table: PageTable, physOffset: nat, first: Option<nat>, copies: seq<Copy>)
    requires i <= |phdrs|
  {
    t.level == 0 && Tracked(phdrs, i, processVirtDm, physOffset, first, copies)
    && MapAll(t, vaRange, Place(Loads(phdrs[..i]), processPhys), tablePa) == Done(table)
  }

  /** Nothing has been done before the first header. */
  lemma ProgressStart(t: PageTable, vaRange: RootTables.VaRange, phdrs: seq<ProgramHeader>, processPhys: nat, processVirtDm: nat, tablePa: nat)
    requires t.level == 0
    ensures Progress(t, vaRange, phdrs, 0, processPhys, processVirtDm, tablePa, t, 0, None, [])
  {
    assert phdrs[..0] == [];
  }

  /** A header that is not loadable changes nothing. */
  lemma ProgressSkip(t: PageTable, vaRange: RootTables.VaRange, phdrs: seq<ProgramHeader>, i: nat,
                     processPhys: nat, processVirtDm: nat, tablePa: nat,
                     table: PageTable, physOffset: nat, first: Option<nat>, copies: seq<Copy>)
    requires i < |phdrs| && !IsLoad(phdrs[i]) && HeadersOk(phdrs)
    requires Progress(t, vaRange, phdrs, i, processPhys, processVirtDm, tablePa, table, physOffset, first, copies)
    ensures Progress(t, vaRange, phdrs, i + 1, processPhys, processVirtDm, tablePa, table, physOffset, first, copies)
  {
    LoadsStep(phdrs, i);
    assert Loads(phdrs[..i + 1]) == Loads(phdrs[..i]);
    assert forall k :: 0 <= k < i + 1 ==> phdrs[..i + 1][k] == phdrs[k];
  }

  /** A loadable header whose addresses fit adds its memory size, its copy and, for the
    * first one, `process_virt` to what the loop tracks. */
  lemma TrackLoad(phdrs: seq<ProgramHeader>, i: nat, processVirtDm: nat,
                  physOffset: nat, first: Option<nat>, copies: seq<Copy>,
                  physOffset': nat, first': Option<nat>, copies': seq<Copy>)
    requires i < |phdrs| && IsLoad(phdrs[i]) && HeadersOk(phdrs)
    requires phdrs[i].vaddr + phdrs[i].memsz < Align.WORD && phdrs[i].offset + phdrs[i].filesz < Align.WORD
    requires Tracked(phdrs, i, processVirtDm, physOffset, first, copies)
    requires physOffset' == physOffset + phdrs[i].memsz
    requires first' == if first.None? then Some(phdrs[i].vaddr) else first
    requires copies' == copies + [Copy(processVirtDm, phdrs[i].offset, phdrs[i].filesz)]
    ensures Tracked(phdrs, i + 1, processVirtDm, physOffset', first', copies')
  {
    LoadsStep(phdrs, i);
    assert forall k :: 0 <= k < i + 1 ==> phdrs[..i + 1][k] == phdrs[k];
    Extend(Loads(phdrs[..i]), phdrs[i], 0, processVirtDm);
  }

  /** A loadable header whose addresses fit and whose request maps adds its request, its
    * memory size, its copy and, for the first one, `process_virt`. */
  lemma ProgressLoad(t: PageTable, vaRange: RootTables.VaRange, phdrs: seq<ProgramHeader>, i: nat,
                     processPhys: nat, processVirtDm: nat, tablePa: nat,
                     table: PageTable, physOffset: nat, first: Option<nat>, copies: seq<Copy>,
                     table': PageTable, physOffset': nat, first': Option<nat>, copies': seq<Copy>)
    requires i < |phdrs| && IsLoad(phdrs[i]) && HeadersOk(phdrs)
    requires phdrs[i].vaddr + phdrs[i].memsz < Align.WORD && phdrs[i].offset + phdrs[i].filesz < Align.WORD
    requires Progress(t, vaRange, phdrs, i, processPhys, processVirtDm, tablePa, table, physOffset, first, copies)
    requires table.level == 0
    requires MapStep(table, vaRange, Request(phdrs[i], processPhys + physOffset), tablePa) == Done(table')
    requires physOffset' == physOffset + phdrs[i].memsz
    requires first' == if first.None? then Some(phdrs[i].vaddr) else first
    requires copies' == copies + [Copy(processVirtDm, phdrs[i].offset, phdrs[i].filesz)]
    ensures Progress(t, vaRange, phdrs, i + 1, processPhys, processVirtDm, tablePa, table', physOffset', first', copies')
  {
    var ls := Loads(phdrs[..i]);
    HeadersStep(phdrs, i);
    assert HeadersOk(ls) && physOffset == SumMemsz(ls);
    assert MapAll(t, vaRange, Place(ls, processPhys), tablePa) == Done(table);
    StepMapped(t, vaRange, ls, phdrs[i], processPhys, tablePa, table, table');
    TrackLoad(phdrs, i, processVirtDm, physOffset, first, copies, physOffset', first', copies');
  }

  /** Mapping one more segment's request after the others' is mapping the longer list. */
  lemma StepMapped(t: PageTable, vaRange: RootTables.VaRange, ls: seq<ProgramHeader>, p: ProgramHeader,
                   processPhys: nat, tablePa: nat, table: PageTable, table': PageTable)
    requires t.level == 0 && HeadersOk(ls) && HeadersOk(ls + [p]) && p.vaddr < Align.WORD
    requires MapAll(t, vaRange, Place(ls, processPhys), tablePa) == Done(table) && table.level == 0
    requires MapStep(table, vaRange, Request(p, processPhys + SumMemsz(ls)), tablePa) == Done(table')
    ensures MapAll(t, vaRange, Place(ls + [p], processPhys), tablePa) == Done(table')
  {
    Extend(ls, p, processPhys, 0);
    assert forall k :: 0 <= k < |ls| ==> (ls + [p])[k] == ls[k];
    MapAllAppend(t, vaRange, Place(ls, processPhys), Request(p, processPhys + SumMemsz(ls)), tablePa);
  }

  /** A loadable header that overflows, or whose request fails to map after the ones before it,
    * makes the whole second loop fail. */
  lemma ProgressStops(t: PageTable, vaRange: RootTables.VaRange, phdrs: seq<ProgramHeader>, i: nat,
                      processPhys: nat, processVirtDm: nat, tablePa: nat,
                      table: PageTable, physOffset: nat, first: Option<nat>, copies: seq<Copy>)
    requires i < |phdrs| && IsLoad(phdrs[i]) && HeadersOk(phdrs)
    requires Progress(t, vaRange, phdrs, i, processPhys, processVirtDm, tablePa, table, physOffset, first, copies)
    requires table.level == 0
    requires var p := phdrs[i];
      p.vaddr + p.memsz >= Align.WORD || p.offset + p.filesz >= Align.WORD
      || MapStep(table, vaRange, Request(p, processPhys + physOffset), tablePa).Panic?
    ensures !(SegmentsFit(Loads(phdrs)) && MapAll(t, vaRange, Place(Loads(phdrs), processPhys), tablePa).Done?)
  {
    var p := phdrs[i];
    if p.vaddr + p.memsz >= Align.WORD || p.offset + p.filesz >= Align.WORD {
      OverflowStops(phdrs, i);
    } else {
      HeadersStep(phdrs, i);
      assert physOffset == SumMemsz(Loads(phdrs[..i]));
      assert MapAll(t, vaRange, Place(Loads(phdrs[..i]), processPhys), tablePa) == Done(table);
      MapFailStops(t, vaRange, phdrs, i, processPhys, tablePa, table);
      MapPanicStops(t, vaRange, phdrs, i, processPhys, tablePa);
    }
  }

  /** A loadable header whose request fails after those before it were mapped into `table`
    * makes mapping the requests up to it fail. */
  lemma MapFailStops(t: PageTable, vaRange: RootTables.VaRange, phdrs: seq<ProgramHeader>, i: nat,
                     processPhys: nat, tablePa: nat, table: PageTable)
    requires i < |phdrs| && IsLoad(phdrs[i]) && HeadersOk(phdrs) && t.level == 0 && table.level == 0
    requires HeadersOk(phdrs[..i])
    requires MapAll(t, vaRange, Place(Loads(phdrs[..i]), processPhys), tablePa) == Done(table)
    requires MapStep(table, vaRange, Request(phdrs[i], processPhys + SumMemsz(Loads(phdrs[..i]))), tablePa).Panic?
    ensures HeadersOk(phdrs[..i + 1]) && MapAll(t, vaRange, Place(Loads(phdrs[..i + 1]), processPhys), tablePa).Panic?
  {
    HeadersStep(phdrs, i);
    StepPanics(t, vaRange, Loads(phdrs[..i]), phdrs[i], processPhys, tablePa, table);
  }

  /** A loadable header whose addresses overflow leaves the loadable segments not fitting. */
  lemma OverflowStops(phdrs: seq<ProgramHeader>, i: nat)
    requires i < |phdrs| && IsLoad(phdrs[i])
    requires phdrs[i].vaddr + phdrs[i].memsz >= Align.WORD || phdrs[i].offset + phdrs[i].filesz >= Align.WORD
    ensures !SegmentsFit(Loads(phdrs))
  {
    var ls := Loads(phdrs[..i]);
    LoadsStep(phdrs, i);
    LoadsPrefix(phdrs, i + 1);
    assert (ls + [phdrs[i]])[|ls|] == phdrs[i];
    assert Loads(phdrs)[|ls|] == phdrs[i];
  }

  /** A segment whose request fails after the others' makes the longer list fail. */
  lemma StepPanics(t: PageTable, vaRange: RootTables.VaRange, ls: seq<ProgramHeader>, p: ProgramHeader,
                   processPhys: nat, tablePa: nat, table: PageTable)
    requires t.level == 0 && HeadersOk(ls) && HeadersOk(ls + [p]) && p.vaddr < Align.WORD
    requires MapAll(t, vaRange, Place(ls, processPhys), tablePa) == Done(table) && table.level == 0
    requires MapStep(table, vaRange, Request(p, processPhys + SumMemsz(ls)), tablePa).Panic?
    ensures MapAll(t, vaRange, Place(ls + [p], processPhys), tablePa).Panic?
  {
    Extend(ls, p, processPhys, 0);
    MapAllAppend(t, vaRange, Place(ls, processPhys), Request(p, processPhys + SumMemsz(ls)), tablePa);
  }

  /** When the requests up to header `i` fail to map, all of them do. */
  lemma MapPanicStops(t: PageTable, vaRange: RootTables.VaRange, phdrs: seq<ProgramHeader>, i: nat, processPhys: nat, tablePa: nat)
    requires i < |phdrs| && HeadersOk(phdrs) && HeadersOk(phdrs[..i + 1]) && t.level == 0
    requires MapAll(t, vaRange, Place(Loads(phdrs[..i + 1]), processPhys), tablePa).Panic?
    ensures MapAll(t, vaRange, Place(Loads(phdrs), processPhys), tablePa).Panic?
  {
    LoadsPrefix(phdrs, i + 1);
    PlacePrefix(Loads(phdrs[..i + 1]), Loads(phdrs), processPhys);
    MapAllPrefixPanic(t, vaRange, Place(Loads(phdrs[..i + 1]), processPhys), Place(Loads(phdrs), processPhys), tablePa);
  }


  /** After the last header, the loop has done what the whole list asks. */
  lemma ProgressEnd(t: PageTable, vaRange: RootTables.VaRange, phdrs: seq<ProgramHeader>,
                    processPhys: nat, processVirtDm: nat, tablePa: nat,
                    table: PageTable, physOffset: nat, first: Option<nat>, copies: seq<Copy>)
    requires Progress(t, vaRange, phdrs, |phdrs|, processPhys, processVirtDm, tablePa, table, physOffset, first, copies)
    ensures SegmentsFit(Loads(phdrs)) && MapAll(t, vaRange, Place(Loads(phdrs), processPhys), tablePa) == Done(table)
    ensures first == FirstVaddr(Loads(phdrs)) && copies == CopiesAsWritten(Loads(phdrs), processVirtDm)
  {
    assert phdrs[..|phdrs|] == phdrs;
  }

  /** One turn of the second loop, for header `i`: a loadable segment sets `process_virt` if
    * it is the first, is mapped at the current physical offset (a panic when its end overflows
    * or the table rejects it), moves the offset on by its memory size, and has its file bytes
    * copied, as written, to the start of the process memory (a panic when the file range
    * overflows). Any other header changes nothing. A panic means the whole loop cannot complete. */
  method LoadSegment(pt: RootTables.RootPageTable, cell: OnceCells.OnceCell<nat>, ghost t: PageTable,
                     phdrs: seq<ProgramHeader>, i: nat, processPhys: nat, processVirtDm: nat, tablePa: nat,
                     physOffset: nat, copies: seq<Copy>)
      returns (r: Outcome<()>, physOffset': nat, copies': seq<Copy>)
    requires i < |phdrs| && HeadersOk(phdrs) && pt.table.level == 0
    requires Progress(t, pt.vaRange, phdrs, i, processPhys, processVirtDm, tablePa, pt.table, physOffset, cell.data, copies)
    modifies pt, cell
    ensures pt.previousTtbr == old(pt.previousTtbr) && pt.table.level == 0
    ensures r.Done? ==>
      Progress(t, pt.vaRange, phdrs, i + 1, processPhys, processVirtDm, tablePa, pt.table, physOffset', cell.data, copies')
    ensures r.Panic? ==>
      !(SegmentsFit(Loads(phdrs)) && MapAll(t, pt.vaRange, Place(Loads(phdrs), processPhys), tablePa).Done?)
  {
    var p := phdrs[i];
    physOffset', copies' := physOffset, copies;
    if p.pType != PT_LOAD {
      ProgressSkip(t, pt.vaRange, phdrs, i, processPhys, processVirtDm, tablePa, pt.table, physOffset, cell.data, copies);
      return Done(()), physOffset', copies';
    }
    if p.vaddr + p.memsz >= Align.WORD {
      ProgressStops(t, pt.vaRange, phdrs, i, processPhys, processVirtDm, tablePa, pt.table, physOffset, cell.data, copies);
      return Panic("attempt to add with overflow"), physOffset', copies';
    }
    ghost var first := cell.data;
    if cell.Get().None? {
      var _ := cell.Set(p.vaddr);
    }
    var request := MapRequest(p.vaddr, p.vaddr + p.memsz, processPhys + physOffset, SegmentAttributes(p.flags));
    ghost var before := pt.table;
    var e := MapOne(pt, request, tablePa);
    if e.Panic? {
      ProgressStops(t, pt.vaRange, phdrs, i, processPhys, processVirtDm, tablePa, before, physOffset, first, copies);
      return Panic(e.message), physOffset', copies';
    }
    physOffset' := physOffset + (p.vaddr + p.memsz - p.vaddr);
    if p.offset + p.filesz >= Align.WORD {
      ProgressStops(t, pt.vaRange, phdrs, i, processPhys, processVirtDm, tablePa, before, physOffset, first, copies);
      return Panic("attempt to add with overflow"), physOffset', copies';
    }
    copies' := copies + [Copy(processVirtDm, p.offset, p.filesz)];
    ProgressLoad(t, pt.vaRange, phdrs, i, processPhys, processVirtDm, tablePa, before, physOffset, first, copies,
                 pt.table, physOffset', cell.data, copies');
    r := Done(());
  }

  /** The second loop of `load_test_executable`, over all headers. It completes exactly when no
    * loadable segment overflows and all their requests map; the table is then the one it was
    * with the requests mapped as `MapAll` says, `process_virt` is the first loadable segment's
    * virtual address, and every segment's file bytes are copied to the start of the process
    * memory, as `CopiesAsWritten` says. */
  method MapSegments(pt: RootTables.RootPageTable, phdrs: seq<ProgramHeader>, processPhys: nat, processVirtDm: nat, tablePa: nat)
      returns (r: Outcome<()>, processVirt: Option<nat>, copies: seq<Copy>)
    requires pt.table.level == 0 && HeadersOk(phdrs)
    modifies pt
    ensures pt.previousTtbr == old(pt.previousTtbr) && pt.table.level == 0
    ensures StartsOk(Place(Loads(phdrs), processPhys))
    ensures var m := MapAll(old(pt.table), pt.vaRange, Place(Loads(phdrs), processPhys), tablePa);
      (r.Done? <==> SegmentsFit(Loads(phdrs)) && m.Done?)
      && (r.Done? ==>
            pt.table == m.value && processVirt == FirstVaddr(Loads(phdrs))
            && copies == CopiesAsWritten(Loads(phdrs), processVirtDm))
  {
    ghost var t0 := pt.table;
    var cell := new OnceCells.OnceCell<nat>();
    var physOffset: nat := 0;
    copies := [];
    var i := 0;
    ProgressStart(t0, pt.vaRange, phdrs, processPhys, processVirtDm, tablePa);
    while i < |phdrs|
      invariant 0 <= i <= |phdrs|
      invariant pt.table.level == 0 && pt.previousTtbr == old(pt.previousTtbr)
      invariant Progress(t0, pt.vaRange, phdrs, i, processPhys, processVirtDm, tablePa, pt.table, physOffset, cell.data, copies)
    {
      var step;
      step, physOffset, copies := LoadSegment(pt, cell, t0, phdrs, i, processPhys, processVirtDm, tablePa, physOffset, copies);
      if step.Panic? {
        return Panic(step.message), None, [];
      }
      i := i + 1;
    }
    ProgressEnd(t0, pt.vaRange, phdrs, processPhys, processVirtDm, tablePa, pt.table, physOffset, cell.data, copies);
    r := Done(());
    processVirt := cell.Get();
  }

  /** What the `k`-th request maps an address its pages hold to: the matching byte of the
    * segment's physical memory, user-accessible, read-only exactly when the segment is readable
    * and not writable, and executable exactly when it is. */
  lemma SegmentHit(ls: seq<ProgramHeader>, processPhys: nat, k: nat, va: nat)
    requires k < |ls| && KernelTables.Holds(Place(ls, processPhys)[k], va)
    ensures var h := KernelTables.Hit(Place(ls, processPhys)[k], va); var p := ls[k];
      h.output == processPhys + Offset(ls, k) + (va - NewRegion(p.vaddr, p.vaddr + p.memsz).start)
      && h.attributes.user
      && (h.attributes.readOnly <==> HasFlag(p.flags, PF_R) && !HasFlag(p.flags, PF_W))
      && (h.attributes.uxn <==> !HasFlag(p.flags, PF_X))
  {
  }

  /** Once the loadable segments `ls` are mapped into a well-formed process table, an address
    * of the process's half that the `k`-th segment's pages hold, and no later segment's,
    * translates as that segment's request says (see `SegmentHit`). */
  lemma SegmentMapped(t: PageTable, vaRange: RootTables.VaRange, ls: seq<ProgramHeader>, processPhys: nat, tablePa: nat, va: nat, k: nat)
    requires WellFormed(t) && t.level == 0 && HeadersOk(ls)
    requires forall j :: 0 <= j < |ls| ==> KernelTables.RequestOk(Place(ls, processPhys)[j], tablePa)
    requires k < |ls| && KernelTables.Holds(Place(ls, processPhys)[k], va)
    requires forall j :: k < j < |ls| ==> !KernelTables.Holds(Place(ls, processPhys)[j], va)
    requires va < Align.WORD && RootTables.Serves(vaRange, va)
    requires MapAll(t, vaRange, Place(ls, processPhys), tablePa).Done?
    ensures Translate(MapAll(t, vaRange, Place(ls, processPhys), tablePa).value, va)
            == Some(KernelTables.Hit(Place(ls, processPhys)[k], va))
  {
    KernelTables.MappedByLast(t, vaRange, Place(ls, processPhys), tablePa, va, k);
  }

  // ----- Loading -----

  datatype BinaryFormat = Coff | Elf | MachO | Pe | Wasm | Xcoff
  datatype Architecture = Aarch64 | OtherArchitecture
  datatype Endianness = Little | Big

  /** The parsed executable: what `object` reports about it, and its program headers. */
  datatype Executable = Executable(format: BinaryFormat, architecture: Architecture, endianness: Endianness,
                                   programHeaders: seq<ProgramHeader>)

  /** How `load_test_executable` ends: one of its early returns, or with the process loaded. */
  datatype LoadExit =
    | NotElf | NotAarch64 | NotLittleEndian
    | Loaded(pid: nat, loadSize: nat, processVirt: Option<nat>, copies: seq<Copy>)

  /** `load_test_executable` up to entering the process: it returns early, changing nothing,
    * for a file that is not ELF, not for AArch64, or not little-endian, checked in that order;
    * otherwise it creates the process `test_executable`, computes `load_size`, and maps and
    * copies the segments into the process table `pt` and the process memory at `processPhys`
    * (direct-mapped at `processVirtDm`). */
  method LoadExecutable(pm: ProcessManagerInner, exe: Executable, asid: nat, pt: RootTables.RootPageTable,
                        processPhys: nat, processVirtDm: nat, tablePa: nat) returns (r: Outcome<LoadExit>)
    requires pm.Valid() && pt.table.level == 0
    requires HeadersOk(exe.programHeaders) && AlignsOk(exe.programHeaders)
    modifies pm, pt
    ensures pm.Valid()
    ensures exe.format != Elf ==> r == Done(NotElf) && unchanged(pm) && unchanged(pt)
    ensures exe.format == Elf && exe.architecture != Aarch64 ==> r == Done(NotAarch64) && unchanged(pm) && unchanged(pt)
    ensures exe.format == Elf && exe.architecture == Aarch64 && exe.endianness != Little ==>
      r == Done(NotLittleEndian) && unchanged(pm) && unchanged(pt)
    ensures exe.format == Elf && exe.architecture == Aarch64 && exe.endianness == Little ==>
      pm.processes == old(pm.processes) + [Process(old(pm.nextPid), "test_executable", asid)]
      && pm.nextPid == old(pm.nextPid) + 1
    ensures exe.format == Elf && exe.architecture == Aarch64 && exe.endianness == Little ==>
      var ls := Loads(exe.programHeaders);
      var m := MapAll(old(pt.table), pt.vaRange, Place(ls, processPhys), tablePa);
      StartsOk(Place(ls, processPhys))
      && (LoadSize(exe.programHeaders).Panic? ==> r == Panic("attempt to subtract with overflow") && unchanged(pt))
      && (r.Done? <==> LoadSize(exe.programHeaders).Done? && SegmentsFit(ls) && m.Done?)
      && (r.Done? ==>
            r.value == Loaded(old(pm.nextPid), LoadSize(exe.programHeaders).value, FirstVaddr(ls), CopiesAsWritten(ls, processVirtDm))
            && pt.table == m.value)
  {
    if exe.format != Elf {
      return Done(NotElf);
    }
    if exe.architecture != Aarch64 {
      return Done(NotAarch64);
    }
    if exe.endianness != Little {
      return Done(NotLittleEndian);
    }
    var created := pm.CreateProcess("test_executable", asid);
    if created.Err? {
      assert false;
    }
    var loadSize := ComputeLoadSize(exe.programHeaders);
    if loadSize.Panic? {
      assert HeadersOk(Loads(exe.programHeaders));
      return Panic(loadSize.message);
    }
    var mapped, processVirt, copies := MapSegments(pt, exe.programHeaders, processPhys, processVirtDm, tablePa);
    if mapped.Panic? {
      return Panic(mapped.message);
    }
    r := Done(Loaded(created.value.0, loadSize.value, processVirt, copies));
  }
}
