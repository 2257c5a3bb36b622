/** The plan that turns the loadable segments of an ELF file into pages. */
module ElfPlan {
  import opened Options
  import opened UserSpace

  const U64_LIMIT: nat := 0x1_0000_0000_0000_0000

  datatype Segment = Segment(vaddr: nat, fileOffset: nat, fileSize: nat, memSize: nat, executable: bool)

  /** One page: copy file bytes srcStart..srcEnd to offset inPage of a zeroed page, and map it at pageVa. */
  datatype LoadEntry = LoadEntry(pageVa: nat, srcStart: nat, srcEnd: nat, inPage: nat, executable: bool)

  datatype LoadError =
    | VaddrRangeOverflow(seg: nat)
    | FileRangeOutOfBounds(seg: nat, fileEnd: nat, elfLen: nat)
    | TooManyEntries(needed: nat, cap: nat)
    | VaddrOutOfUserRange(seg: nat, vaddr: nat)
    | FileSizeExceedsMemSize(seg: nat, fileSize: nat, memSize: nat)

  datatype PlanResult = Planned(count: nat) | Rejected(error: LoadError)

  // ----- what a segment asks for -----

  predicate Wide(s: Segment)
  {
    s.vaddr < U64_LIMIT && s.fileOffset < U64_LIMIT && s.fileSize < U64_LIMIT && s.memSize < U64_LIMIT
  }

  predicate Accepted(s: Segment, elfLen: nat)
  {
    && s.fileSize <= s.memSize
    && (s.memSize > 0 ==> s.fileOffset + s.fileSize <= elfLen && s.vaddr + s.memSize <= 0x4000_0000)
  }

  /** Number of pages that the segment's memory touches. */
  function PageCount(s: Segment): nat
  {
    if s.memSize == 0 then 0 else (s.vaddr + s.memSize - 1) / 4096 - s.vaddr / 4096 + 1
  }

  /** Number of pages of the first n segments. */
  function PagesBefore(segs: seq<Segment>, n: nat): nat
    requires n <= |segs|
  {
    if n == 0 then 0 else PagesBefore(segs, n - 1) + PageCount(segs[n - 1])
  }

  lemma {:induction false} PagesMonotone(segs: seq<Segment>, m: nat, n: nat)
    requires m <= n <= |segs|
    ensures PagesBefore(segs, m) <= PagesBefore(segs, n)
    decreases n - m
  {
    if m < n { PagesMonotone(segs, m, n - 1); }
  }

  /** The index of the file byte that belongs at an address, if any. */
  function Wanted(s: Segment, va: nat): Option<nat>
  {
    if s.vaddr <= va < s.vaddr + s.fileSize then Some(s.fileOffset + (va - s.vaddr)) else None
  }

  /** The index of the file byte that an entry puts at an offset of its page. */
  function Supplied(e: LoadEntry, off: nat): Option<nat>
    requires e.srcStart <= e.srcEnd
  {
    if e.inPage <= off < e.inPage + (e.srcEnd - e.srcStart) then Some(e.srcStart + (off - e.inPage)) else None
  }

  /** The entry stands for page p of the segment, byte for byte. */
  ghost predicate Stands(s: Segment, p: nat, e: LoadEntry, elfLen: nat)
  {
    && e.pageVa == (s.vaddr / 4096 + p) * 4096 && e.pageVa + 4096 <= 0x4000_0000
    && e.executable == s.executable
    && e.srcStart <= e.srcEnd <= elfLen && e.inPage + (e.srcEnd - e.srcStart) <= 4096
    && forall off: nat | off < 4096 :: Supplied(e, off) == Wanted(s, e.pageVa + off)
  }

  /** The part of a plan that loads one segment: its pages in address order. */
  ghost predicate Loads(s: Segment, part: seq<LoadEntry>, elfLen: nat)
  {
    |part| == PageCount(s) && forall p: nat | p < |part| :: Stands(s, p, part[p], elfLen)
  }

  /** A plan for the first n segments, one after the other. */
  ghost predicate PlanFor(segs: seq<Segment>, n: nat, plan: seq<LoadEntry>, elfLen: nat)
    requires n <= |segs|
    decreases n
  {
    if n == 0 then plan == []
    else
      |plan| >= PageCount(segs[n - 1])
      && var cut := |plan| - PageCount(segs[n - 1]);
         PlanFor(segs, n - 1, plan[..cut], elfLen) && Loads(segs[n - 1], plan[cut..], elfLen)
  }

  lemma {:induction false} PlanLength(segs: seq<Segment>, n: nat, plan: seq<LoadEntry>, elfLen: nat)
    requires n <= |segs| && PlanFor(segs, n, plan, elfLen)
    ensures |plan| == PagesBefore(segs, n)
    decreases n
  {
    if n > 0 { PlanLength(segs, n - 1, plan[..|plan| - PageCount(segs[n - 1])], elfLen); }
  }

  /** The part of the plan that loads segment i. */
  lemma {:induction false} PartOfPlan(segs: seq<Segment>, n: nat, plan: seq<LoadEntry>, elfLen: nat, i: nat)
    requires i < n <= |segs| && PlanFor(segs, n, plan, elfLen)
    ensures PagesBefore(segs, i) <= PagesBefore(segs, i + 1) <= |plan|
    ensures Loads(segs[i], plan[PagesBefore(segs, i)..PagesBefore(segs, i + 1)], elfLen)
    decreases n
  {
    PlanLength(segs, n, plan, elfLen);
    var cut := |plan| - PageCount(segs[n - 1]);
    PlanLength(segs, n - 1, plan[..cut], elfLen);
    if i < n - 1 {
      PartOfPlan(segs, n - 1, plan[..cut], elfLen, i);
      assert plan[..cut][PagesBefore(segs, i)..PagesBefore(segs, i + 1)]
             == plan[PagesBefore(segs, i)..PagesBefore(segs, i + 1)];
    } else {
      assert plan[cut..] == plan[cut..|plan|];
    }
  }

  lemma PlanGrows(segs: seq<Segment>, n: nat, plan: seq<LoadEntry>, part: seq<LoadEntry>, elfLen: nat)
    requires n < |segs| && PlanFor(segs, n, plan, elfLen) && Loads(segs[n], part, elfLen)
    ensures PlanFor(segs, n + 1, plan + part, elfLen)
  {
    assert (plan + part)[..|plan|] == plan && (plan + part)[|plan|..] == part;
  }

  // ----- building the plan -----

  method PlanPage(s: Segment, p: nat, elfLen: nat) returns (e: LoadEntry)
    requires Accepted(s, elfLen) && p < PageCount(s)
    ensures Stands(s, p, e, elfLen)
  {
    var firstPage := s.vaddr / 4096 * 4096;
    var pageVa := firstPage + p * 4096;
    var pageEnd := pageVa + 4096;
    var fileEndVa := s.vaddr + s.fileSize;
    var copyStart := if pageVa > s.vaddr then pageVa else s.vaddr;
    var copyEnd := if pageEnd < fileEndVa then pageEnd else fileEndVa;
    if copyEnd > copyStart {
      var inPage := copyStart - pageVa;
      var srcStart := s.fileOffset + (copyStart - s.vaddr);
      e := LoadEntry(pageVa, srcStart, srcStart + (copyEnd - copyStart), inPage, s.executable);
    } else {
      e := LoadEntry(pageVa, 0, 0, 0, s.executable);
    }
  }

  /** The error found for segment i, when the pages before it number `count`: the first check that fails. */
  predicate Explains(e: LoadError, s: Segment, i: nat, elfLen: nat, count: nat, cap: nat)
  {
    match e
    case FileSizeExceedsMemSize(j, f, m) => j == i && f == s.fileSize && m == s.memSize && f > m
    case VaddrRangeOverflow(j) =>
      j == i && s.memSize > 0 && s.fileSize <= s.memSize && s.vaddr + s.memSize >= 0x1_0000_0000_0000_0000
    case FileRangeOutOfBounds(j, end, len) =>
      && j == i && s.memSize > 0 && s.fileSize <= s.memSize && s.vaddr + s.memSize < 0x1_0000_0000_0000_0000
      && len == elfLen && s.fileOffset + s.fileSize > elfLen
      && end == if s.fileOffset + s.fileSize > 0xFFFF_FFFF_FFFF_FFFF then 0xFFFF_FFFF_FFFF_FFFF
                else s.fileOffset + s.fileSize
    case VaddrOutOfUserRange(j, va) =>
      && j == i && va == s.vaddr && s.memSize > 0 && s.fileSize <= s.memSize && s.fileOffset + s.fileSize <= elfLen
      && 0x4000_0000 < s.vaddr + s.memSize < 0x1_0000_0000_0000_0000
    case TooManyEntries(needed, c) => c == cap && needed == count + PageCount(s) && Accepted(s, elfLen) && needed > cap
  }

  /** The checks of one segment, in the source's order. */
  method CheckSegment(s: Segment, i: nat, elfLen: nat, count: nat, cap: nat) returns (r: Option<LoadError>)
    requires Wide(s) && elfLen < U64_LIMIT && count <= cap
    ensures r.None? <==> Accepted(s, elfLen) && count + PageCount(s) <= cap
    ensures r.Some? ==> Explains(r.value, s, i, elfLen, count, cap)
  {
    if s.fileSize > s.memSize { return Some(FileSizeExceedsMemSize(i, s.fileSize, s.memSize)); }
    if s.memSize == 0 { return None; }
    if s.vaddr + s.memSize >= U64_LIMIT { return Some(VaddrRangeOverflow(i)); }
    if s.fileOffset + s.fileSize >= U64_LIMIT { return Some(FileRangeOutOfBounds(i, U64_LIMIT - 1, elfLen)); }
    var fileEnd := s.fileOffset + s.fileSize;
    if fileEnd > elfLen || s.fileOffset > elfLen { return Some(FileRangeOutOfBounds(i, fileEnd, elfLen)); }
    if s.vaddr >= USER_VA_END || s.vaddr + s.memSize > USER_VA_END { return Some(VaddrOutOfUserRange(i, s.vaddr)); }
    var firstPage := s.vaddr / 4096 * 4096;
    var lastPage := (s.vaddr + s.memSize - 1) / 4096 * 4096;
    var pages := (lastPage - firstPage) / 4096 + 1;
    if count + pages > cap { return Some(TooManyEntries(count + pages, cap)); }
    r := None;
  }

  /** Emit the entries of one accepted segment. */
  method PlanSegment(s: Segment, elfLen: nat, out: array<LoadEntry>, start: nat)
    requires Accepted(s, elfLen) && start + PageCount(s) <= out.Length
    modifies out
    ensures out[..start] == old(out[..start])
    ensures Loads(s, out[start..start + PageCount(s)], elfLen)
  {
    var count := start;
    for p := 0 to PageCount(s)
      invariant count == start + p && out[..start] == old(out[..start])
      invariant forall q: nat | q < p :: Stands(s, q, out[start..count][q], elfLen)
    {
      var e := PlanPage(s, p, elfLen);
      ghost var done := out[start..count];
      out[count] := e;
      count := count + 1;
      assert out[start..count] == done + [e];
    }
  }

  method Plan(segs: seq<Segment>, elfLen: nat, out: array<LoadEntry>) returns (r: PlanResult)
    requires elfLen < U64_LIMIT && forall i: nat | i < |segs| :: Wide(segs[i])
    modifies out
    // it succeeds exactly when every segment is acceptable and all pages fit
    ensures r.Planned? <==> (forall i: nat | i < |segs| :: Accepted(segs[i], elfLen))
                            && PagesBefore(segs, |segs|) <= out.Length
    ensures r.Planned? ==> r.count <= out.Length && PlanFor(segs, |segs|, out[..r.count], elfLen)
    // otherwise it names the first segment at fault, and what is wrong with it
    ensures r.Rejected? ==>
      exists i: nat :: i < |segs| && (forall j: nat | j < i :: Accepted(segs[j], elfLen))
                       && PagesBefore(segs, i) <= out.Length
                       && Explains(r.error, segs[i], i, elfLen, PagesBefore(segs, i), out.Length)
  {
    var count := 0;
    for i := 0 to |segs|
      invariant count == PagesBefore(segs, i) <= out.Length && PlanFor(segs, i, out[..count], elfLen)
      invariant forall j: nat | j < i :: Accepted(segs[j], elfLen)
    {
      var problem := CheckSegment(segs[i], i, elfLen, count, out.Length);
      if problem.Some? {
        PagesMonotone(segs, i + 1, |segs|);
        return Rejected(problem.value);
      }
      ghost var before := out[..count];
      PlanSegment(segs[i], elfLen, out, count);
      var next := count + PageCount(segs[i]);
      PlanGrows(segs, i, before, out[count..next], elfLen);
      assert out[..next] == before + out[count..next];
      count := next;
    }
    r := Planned(count);
  }

  // ----- what a plan loads -----

  /** A page after an entry was applied to it. */
  function Loaded(e: LoadEntry, elf: seq<bv8>): (page: seq<bv8>)
    requires e.srcStart <= e.srcEnd <= |elf| && e.inPage + (e.srcEnd - e.srcStart) <= 4096
    ensures |page| == 4096
  {
    Blank(e.inPage) + elf[e.srcStart..e.srcEnd] + Blank(4096 - e.inPage - (e.srcEnd - e.srcStart))
  }

  function Blank(n: nat): (b: seq<bv8>)
    ensures |b| == n && forall i: nat | i < n :: b[i] == 0
  {
    seq(n, _ => 0)
  }

  /** What the segment asks for at an address of its pages: a byte of the file, or zero. */
  function FileByte(s: Segment, elf: seq<bv8>, va: nat): bv8
    requires Accepted(s, |elf|)
  {
    if s.vaddr <= va < s.vaddr + s.fileSize then elf[s.fileOffset + (va - s.vaddr)] else 0
  }

  /** Every byte of a planned page is the file's byte for its address, or zero. */
  lemma LoadedImage(s: Segment, p: nat, e: LoadEntry, elf: seq<bv8>, off: nat)
    requires Accepted(s, |elf|) && Stands(s, p, e, |elf|) && off < 4096
    ensures Loaded(e, elf)[off] == FileByte(s, elf, e.pageVa + off)
  {
    assert Supplied(e, off) == Wanted(s, e.pageVa + off);
  }

  function PageOf(a: nat): nat { a / 4096 }

  /** The segment's memory has an address on the page. */
  ghost predicate Touches(s: Segment, page: nat)
  {
    exists a: nat :: s.vaddr <= a < s.vaddr + s.memSize && PageOf(a) == page
  }

  /** The planned pages are exactly those that the segment's memory touches, each once. */
  lemma PagesTouched(s: Segment, page: nat)
    ensures Touches(s, page) <==> s.vaddr / 4096 <= page < s.vaddr / 4096 + PageCount(s)
  {
    var last := s.vaddr + s.memSize - 1;
    if s.vaddr / 4096 <= page < s.vaddr / 4096 + PageCount(s) {
      var a := if page * 4096 < s.vaddr then s.vaddr else page * 4096;
      assert a <= last && PageOf(a) == page;
    }
  }

  /** Two entries share a page only when they load different segments that touch it both. */
  lemma SharedPage(s: Segment, p: nat, e: LoadEntry, s': Segment, p': nat, e': LoadEntry, elfLen: nat)
    requires Stands(s, p, e, elfLen) && p < PageCount(s) && Stands(s', p', e', elfLen) && p' < PageCount(s')
    requires e.pageVa == e'.pageVa
    ensures Touches(s, PageOf(e.pageVa)) && Touches(s', PageOf(e.pageVa))
    ensures s == s' ==> p == p'
  {
    PagesTouched(s, PageOf(e.pageVa));
    PagesTouched(s', PageOf(e.pageVa));
  }
}
