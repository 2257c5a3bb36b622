/** The walkers that install and tear down kernel mappings page by page. */
module KvmWalk {
  import opened Options
  import opened PageTable
  import opened PageTableRange
  import opened PageTableUnmap

  const MAIR_NORMAL: nat := 1
  const AP_RW_EL1: nat := 0
  const SH_INNER: nat := 3

  /** Entry for a kernel page: EL1-only, never executable. */
  function BuildKernelPage(phys: nat): nat
  {
    WithPxn(WithUxn(NewPage(phys, MAIR_NORMAL, AP_RW_EL1, SH_INNER)))
  }

  /** The bits of an entry that EL0 cannot use at all and nobody can execute from: AP is 00, PXN and UXN are set. */
  predicate KernelOnly(raw: nat)
  {
    raw / 64 % 4 == 0 && raw / 0x20_0000_0000_0000 == 3
  }

  lemma KernelPageIs(phys: nat)
    ensures var page := NewPage(phys, MAIR_NORMAL, AP_RW_EL1, SH_INNER);
            page < 0x1_0000_0000_0000 && BuildKernelPage(phys) == page + 0x60 * 0x1_0000_0000_0000
  {
    NewPageFields(phys, MAIR_NORMAL, AP_RW_EL1, SH_INNER);
    HighBits(NewPage(phys, MAIR_NORMAL, AP_RW_EL1, SH_INNER));
  }

  lemma HighBitBits(raw: nat, k: nat)
    ensures var r := raw + k * 0x1_0000_0000_0000;
            && r % 4 == raw % 4 && r / 4 % 8 == raw / 4 % 8 && r / 64 % 4 == raw / 64 % 4
            && r / 256 % 4 == raw / 256 % 4 && r / 1024 % 2 == raw / 1024 % 2
            && r / 4096 % 0x10_0000_0000 == raw / 4096 % 0x10_0000_0000
  {
    FieldKept(raw, k * 0x4000_0000_0000, 4, 1);
    FieldKept(raw, k * 0x800_0000_0000, 4, 8);
    FieldKept(raw, k * 0x100_0000_0000, 64, 4);
    FieldKept(raw, k * 0x40_0000_0000, 256, 4);
    FieldKept(raw, k * 0x20_0000_0000, 1024, 2);
    FieldKept(raw, k, 4096, 0x10_0000_0000);
  }

  lemma PageNumber(page: nat, phys: nat)
    requires page / 4096 * 4096 == phys / 4096 % 0x10_0000_0000 * 4096
    ensures page / 4096 % 0x10_0000_0000 == phys / 4096 % 0x10_0000_0000
  {
    DivSmall(phys / 4096 % 0x10_0000_0000, 0x10_0000_0000);
  }

  /** A kernel page entry bit by bit: a valid page, normal memory, EL1 only, inner shareable, never executable. */
  lemma KernelPageFields(phys: nat)
    ensures var raw := BuildKernelPage(phys);
            && raw % 4 == 3 && raw / 4 % 8 == 1 && raw / 64 % 4 == 0 && raw / 256 % 4 == 3 && raw / 1024 % 2 == 1
            && raw / 4096 % 0x10_0000_0000 == phys / 4096 % 0x10_0000_0000
            && raw / 0x20_0000_0000_0000 == 3
  {
    KernelPageIs(phys);
    var page := NewPage(phys, MAIR_NORMAL, AP_RW_EL1, SH_INNER);
    NewPageFields(phys, MAIR_NORMAL, AP_RW_EL1, SH_INNER);
    HighBits(page);
    HighBitBits(page, 0x60);
    PageNumber(page, phys);
  }

  lemma KernelPageIsPage(phys: nat)
    ensures var raw := BuildKernelPage(phys);
            IsValid(raw) && IsTable(raw) && AddrField(raw) == AddrField(phys) && KernelOnly(raw)
  {
    KernelPageFields(phys);
    LowBits(BuildKernelPage(phys));
    AddrFieldMeaning(phys);
    AddrFieldMeaning(BuildKernelPage(phys));
  }

  lemma FieldKept(raw: nat, j: nat, m: nat, w: nat)
    requires m > 0 && w > 0
    ensures (raw + m * (w * j)) / m % w == raw / m % w
    ensures (raw + m * (w * j)) % m == raw % m
  {
    DivModAdd(raw, m, w * j);
    DivModAdd(raw / m, w, j);
  }

  lemma HighBits(raw: nat)
    requires raw < 0x1_0000_0000_0000
    ensures IsUxn(raw + 0x40_0000_0000_0000) && !IsPxn(raw + 0x40_0000_0000_0000)
    ensures IsUxn(raw + 0x60_0000_0000_0000) && IsPxn(raw + 0x60_0000_0000_0000)
    ensures (raw + 0x60_0000_0000_0000) / 0x20_0000_0000_0000 == 3
  {
  }

  // ----- installing a mapping -----

  datatype MapState = NeedL1 | NeedL2 | NeedL3 | NeedBacking | NeedWritePte | Faulted | Finished

  datatype MapStep =
    | ReadL1Pte(paddr: nat)
    | ReadL2Pte(paddr: nat)
    | ReadL3Pte(paddr: nat)
    | WantBacking
    | WritePagePte(paddr: nat, entry: nat)
    | MapDone
    | MapFault

  /** Where the walk resumes on the next page: as high as the first index that changed. */
  function Resume(prev: nat, next: nat): MapState
  {
    if Idx(1, next) != Idx(1, prev) then NeedL1
    else if Idx(2, next) != Idx(2, prev) then NeedL2
    else NeedL3
  }

  class KvmMapWalk {
    const base: nat
    const pages: nat
    const l1: nat
    var pageIdx: nat
    var state: MapState
    /** Cached table addresses for the current page. */
    var l2: nat
    var l3: nat
    var pending: Option<nat>

    constructor (base: nat, pages: nat, l1: nat)
      ensures this.base == base && this.pages == pages && this.l1 == l1 && pageIdx == 0 && pending == None
      ensures state == if pages == 0 then Finished else NeedL1
    {
      this.base := base;
      this.pages := pages;
      this.l1 := l1;
      this.pageIdx := 0;
      this.state := if pages == 0 then Finished else NeedL1;
      this.l2 := 0;
      this.l3 := 0;
      this.pending := None;
    }

    function CurrentStep(): MapStep
      reads this
    {
      var kva := Page(base, pageIdx);
      match state
      case NeedL1 => ReadL1Pte(Slot(l1, 1, kva))
      case NeedL2 => ReadL2Pte(Slot(l2, 2, kva))
      case NeedL3 => ReadL3Pte(Slot(l3, 3, kva))
      case NeedBacking => WantBacking
      case NeedWritePte =>
        if pending.None? then MapFault
        else WritePagePte(Slot(l3, 3, kva), BuildKernelPage(pending.value))
      case Faulted => MapFault
      case Finished => MapDone
    }

    method StepL1(raw: nat)
      requires state == NeedL1
      modifies this`state, this`l2
      ensures IsTable(raw) ==> state == NeedL2 && l2 == AddrField(raw)
      ensures !IsTable(raw) ==> state == Faulted && l2 == old(l2)
    {
      if !IsValid(raw) || !IsTable(raw) { state := Faulted; return; }
      l2 := AddrField(raw);
      state := NeedL2;
    }

    method StepL2(raw: nat)
      requires state == NeedL2
      modifies this`state, this`l3
      ensures IsTable(raw) ==> state == NeedL3 && l3 == AddrField(raw)
      ensures !IsTable(raw) ==> state == Faulted && l3 == old(l3)
    {
      if !IsValid(raw) || !IsTable(raw) { state := Faulted; return; }
      l3 := AddrField(raw);
      state := NeedL3;
    }

    method StepL3(raw: nat)
      requires state == NeedL3
      modifies this`state
      ensures state == if IsValid(raw) then Faulted else NeedBacking
    {
      state := if IsValid(raw) then Faulted else NeedBacking;
    }

    method SupplyBacking(phys: nat)
      requires state == NeedBacking
      modifies this`state, this`pending
      ensures state == NeedWritePte && pending == Some(phys)
    {
      pending := Some(phys);
      state := NeedWritePte;
    }

    method StepPteWritten()
      requires state == NeedWritePte
      modifies this`state, this`pending, this`pageIdx
      ensures pending == None && pageIdx == old(pageIdx) + 1
      ensures state == if pageIdx >= pages then Finished
                       else Resume(Page(base, old(pageIdx)), Page(base, pageIdx))
    {
      pending := None;
      pageIdx := pageIdx + 1;
      if pageIdx >= pages { state := Finished; return; }
      var kva := Page(base, pageIdx);
      var prev := Page(base, pageIdx - 1);
      if Idx(1, kva) != Idx(1, prev) { state := NeedL1; }
      else if Idx(2, kva) != Idx(2, prev) { state := NeedL2; }
      else { state := NeedL3; }
    }
  }

  /** Both parents of the page are tables and its last-level slot is invalid. */
  predicate Vacant(mem: Memory, l1: nat, va: nat)
  {
    TableAt(mem, l1, 1, 3, va).Some? && !IsValid(Read(mem, LeafSlot(mem, l1, 1, va)))
  }

  ghost predicate AllVacant(mem: Memory, l1: nat, base: nat, n: nat)
  {
    forall i: nat | i < n :: Vacant(mem, l1, Page(base, i))
  }

  /** The entries for a run of frames. */
  function Entries(backing: seq<nat>): (vals: seq<nat>)
    ensures |vals| == |backing|
    ensures forall i | 0 <= i < |vals| :: vals[i] == BuildKernelPage(backing[i])
  {
    if backing == [] then []
    else Entries(backing[..|backing| - 1]) + [BuildKernelPage(backing[|backing| - 1])]
  }

  /** The cached addresses are those of a fresh walk over the original tables. */
  ghost predicate Cached(state: MapState, mem: Memory, l1: nat, kva: nat, l2: nat, l3: nat)
  {
    match state
    case NeedL1 => true
    case NeedL2 => TableAt(mem, l1, 1, 2, kva) == Some(l2)
    case NeedL3 => TablesAre(mem, l1, kva, l2, l3)
    case NeedBacking => TablesAre(mem, l1, kva, l2, l3) && Vacant(mem, l1, kva)
    case NeedWritePte => TablesAre(mem, l1, kva, l2, l3) && Vacant(mem, l1, kva)
    case Faulted => !Vacant(mem, l1, kva)
    case Finished => true
  }

  ghost predicate TablesAre(mem: Memory, l1: nat, kva: nat, l2: nat, l3: nat)
  {
    TableAt(mem, l1, 1, 2, kva) == Some(l2) && TableAt(mem, l1, 1, 3, kva) == Some(l3)
  }

  /** The first n pages were vacant in `mem`, and `now` is `mem` with their entries written. */
  ghost predicate Installed(mem: Memory, l1: nat, base: nat, backing: seq<nat>, n: nat, now: Memory)
  {
    && n <= |backing|
    && AllVacant(mem, l1, base, n)
    && HasLeafTables(mem, l1, 1, base, n)
    && now == WriteLeaves(mem, l1, 1, base, Entries(backing[..n]))
  }

  ghost predicate Progress(w: KvmMapWalk, m: PhysMemory, mem: Memory, backing: seq<nat>)
    reads w, m
  {
    && w.pages <= PagesBelow(1)
    && (if w.state == Finished then w.pageIdx == w.pages else w.pageIdx < w.pages)
    && Tree(mem, w.l1, 1)
    && Installed(mem, w.l1, w.base, backing, w.pageIdx, m.words)
    && (w.state == NeedWritePte ==> w.pageIdx < |backing| && w.pending == Some(backing[w.pageIdx]))
    && Cached(w.state, mem, w.l1, Page(w.base, w.pageIdx), w.l2, w.l3)
  }

  function Rank(s: MapState): nat
  {
    match s
    case NeedL1 => 5
    case NeedL2 => 4
    case NeedL3 => 3
    case NeedBacking => 2
    case NeedWritePte => 1
    case Faulted => 0
    case Finished => 0
  }

  /** Reading the entry of the current page in the memory written so far. */
  lemma EntryUnchanged(mem: Memory, l1: nat, base: nat, vals: seq<nat>, va: nat)
    requires Tree(mem, l1, 1) && HasLeafTables(mem, l1, 1, base, |vals|)
    ensures var now := WriteLeaves(mem, l1, 1, base, vals);
            && TableAt(now, l1, 1, 2, va) == TableAt(mem, l1, 1, 2, va)
            && TableAt(now, l1, 1, 3, va) == TableAt(mem, l1, 1, 3, va)
  {
    TablesStay(mem, l1, 1, base, vals, 2, va);
    TablesStay(mem, l1, 1, base, vals, 3, va);
  }

  /** One read of a table or of the target slot. */
  method MapRead(w: KvmMapWalk, m: PhysMemory, ghost mem: Memory, ghost backing: seq<nat>)
    requires Progress(w, m, mem, backing)
    requires w.state == NeedL1 || w.state == NeedL2 || w.state == NeedL3
    modifies w
    ensures Progress(w, m, mem, backing)
    ensures w.pageIdx == old(w.pageIdx) && Rank(w.state) < old(Rank(w.state))
  {
    ghost var vals := Entries(backing[..w.pageIdx]);
    ghost var kva := Page(w.base, w.pageIdx);
    EntryUnchanged(mem, w.l1, w.base, vals, kva);
    var step := w.CurrentStep();
    match step {
      case ReadL1Pte(a) => w.StepL1(Read(m.words, a));
      case ReadL2Pte(a) => w.StepL2(Read(m.words, a));
      case ReadL3Pte(a) =>
        UnwrittenSlot(mem, w.l1, 1, w.base, vals, w.pageIdx);
        w.StepL3(Read(m.words, a));
    }
  }

  /** The cached addresses stay right on the page where the walk resumes. */
  lemma ResumeCached(mem: Memory, l1: nat, prev: nat, next: nat, l2: nat, l3: nat)
    requires TablesAre(mem, l1, prev, l2, l3)
    ensures Cached(Resume(prev, next), mem, l1, next, l2, l3)
  {
    if Resume(prev, next) != NeedL1 {
      assert SamePath(1, 2, prev, next);
      SamePathSameTable(mem, l1, 1, 2, prev, next);
    }
    if Resume(prev, next) == NeedL3 {
      assert SamePath(1, 3, prev, next);
      SamePathSameTable(mem, l1, 1, 3, prev, next);
    }
  }

  /** Writing the entry of the next page, when it is vacant, installs one more. */
  lemma InstallNext(mem: Memory, l1: nat, base: nat, backing: seq<nat>, n: nat, now: Memory)
    requires n < |backing| && Installed(mem, l1, base, backing, n, now) && Vacant(mem, l1, Page(base, n))
    ensures Installed(mem, l1, base, backing, n + 1,
                      now[LeafSlot(mem, l1, 1, Page(base, n)) := BuildKernelPage(backing[n])])
  {
    assert backing[..n + 1][..n] == backing[..n];
    var vals := Entries(backing[..n + 1]);
    assert vals[..n] == Entries(backing[..n]);
    assert vals[n] == BuildKernelPage(backing[n]);
  }

  /** Hand the walker the next frame. */
  method MapSupply(w: KvmMapWalk, m: PhysMemory, ghost mem: Memory, backing: seq<nat>)
    requires Progress(w, m, mem, backing) && w.state == NeedBacking && w.pageIdx < |backing|
    modifies w
    ensures Progress(w, m, mem, backing) && w.state == NeedWritePte && w.pageIdx == old(w.pageIdx)
  {
    w.SupplyBacking(backing[w.pageIdx]);
  }

  /** Write the entry of the current page and move on. */
  method MapWrite(w: KvmMapWalk, m: PhysMemory, ghost mem: Memory, ghost backing: seq<nat>)
    requires Progress(w, m, mem, backing) && w.state == NeedWritePte
    modifies w, m
    ensures Progress(w, m, mem, backing) && w.pageIdx == old(w.pageIdx) + 1
  {
    InstallNext(mem, w.l1, w.base, backing, w.pageIdx, m.words);
    ResumeCached(mem, w.l1, Page(w.base, w.pageIdx), Page(w.base, w.pageIdx + 1), w.l2, w.l3);
    var step := w.CurrentStep();
    m.Write(step.paddr, step.entry);
    w.StepPteWritten();
  }

  datatype MapOutcome = AllMapped | OutOfFrames(done: nat) | Panicked(done: nat)

  /**
   * Drive the walker to its end, as the kernel does. `backing` is the sequence of frames
   * the supplier can give; running out of them ends the drive.
   */
  method DriveMap(w: KvmMapWalk, m: PhysMemory, backing: seq<nat>) returns (r: MapOutcome)
    requires w.pageIdx == 0 && w.pending == None && w.pages <= PagesBelow(1)
    requires w.state == if w.pages == 0 then Finished else NeedL1
    requires Tree(m.words, w.l1, 1)
    modifies w, m
    // every page up to where it stopped was vacant and holds its entry now; nothing else changed
    ensures Installed(old(m.words), w.l1, w.base, backing, if r.AllMapped? then w.pages else r.done, m.words)
    // it finishes exactly when all pages are vacant and there are frames for them
    ensures r.AllMapped? <==> w.pages <= |backing| && AllVacant(old(m.words), w.l1, w.base, w.pages)
    ensures r.OutOfFrames? ==> r.done == |backing| < w.pages
    ensures r.Panicked? ==> r.done < w.pages && !Vacant(old(m.words), w.l1, Page(w.base, r.done))
  {
    ghost var mem := m.words;
    while true
      invariant Progress(w, m, mem, backing)
      decreases w.pages - w.pageIdx, Rank(w.state)
    {
      var step := w.CurrentStep();
      match step {
        case ReadL1Pte(_) => MapRead(w, m, mem, backing);
        case ReadL2Pte(_) => MapRead(w, m, mem, backing);
        case ReadL3Pte(_) => MapRead(w, m, mem, backing);
        case WantBacking =>
          if w.pageIdx >= |backing| { return OutOfFrames(w.pageIdx); }
          MapSupply(w, m, mem, backing);
        case WritePagePte(_, _) => MapWrite(w, m, mem, backing);
        case MapDone => return AllMapped;
        case MapFault => return Panicked(w.pageIdx);
      }
    }
  }

  /** Page i of a mapped range translates to frame i. */
  lemma MappedPage(mem: Memory, l1: nat, base: nat, backing: seq<nat>, i: nat, vb: nat)
    requires Tree(mem, l1, 1) && i < |backing| <= PagesBelow(1)
    requires HasLeafTables(mem, l1, 1, base, |backing|) && InPage(1, base, i, vb)
    ensures Resolve(WriteLeaves(mem, l1, 1, base, Entries(backing)), l1, 1, vb)
            == Leaf.Mapped(3, AddrField(backing[i]) + Rem(vb, 4096))
  {
    ResolvesTo(mem, l1, 1, base, Entries(backing), i, vb);
    KernelPageIsPage(backing[i]);
  }

  /** No other page's translation changes, and the tables stay a tree. */
  lemma OtherPages(mem: Memory, l1: nat, base: nat, vals: seq<nat>, vb: nat)
    requires Tree(mem, l1, 1) && HasLeafTables(mem, l1, 1, base, |vals|)
    requires forall i: nat | i < |vals| :: !InPage(1, base, i, vb)
    ensures var now := WriteLeaves(mem, l1, 1, base, vals);
            Tree(now, l1, 1) && Resolve(now, l1, 1, vb) == Resolve(mem, l1, 1, vb)
  {
    TablesStay(mem, l1, 1, base, vals, 1, vb);
    ResolvesAsBefore(mem, l1, 1, base, vals, vb);
  }

  // ----- tearing a mapping down -----

  datatype FreeState = FreeL1 | FreeL2 | FreeL3 | FreeClear | FreeFaulted | FreeFinished

  datatype FreeStep =
    | ReadL1(paddr: nat)
    | ReadL2(paddr: nat)
    | ReadL3(paddr: nat)
    | ClearPte(paddr: nat, backing: nat)
    | FreeDone
    | FreeFault

  function ResumeFree(prev: nat, next: nat): FreeState
  {
    if Idx(1, next) != Idx(1, prev) then FreeL1
    else if Idx(2, next) != Idx(2, prev) then FreeL2
    else FreeL3
  }

  class KvmFreeWalk {
    const base: nat
    const pages: nat
    const l1: nat
    var pageIdx: nat
    var state: FreeState
    var l2: nat
    var l3: nat
    var captured: Option<nat>

    constructor (base: nat, pages: nat, l1: nat)
      ensures this.base == base && this.pages == pages && this.l1 == l1 && pageIdx == 0 && captured == None
      ensures state == if pages == 0 then FreeFinished else FreeL1
    {
      this.base := base;
      this.pages := pages;
      this.l1 := l1;
      this.pageIdx := 0;
      this.state := if pages == 0 then FreeFinished else FreeL1;
      this.l2 := 0;
      this.l3 := 0;
      this.captured := None;
    }

    function CurrentStep(): FreeStep
      reads this
    {
      var kva := Page(base, pageIdx);
      match state
      case FreeL1 => ReadL1(Slot(l1, 1, kva))
      case FreeL2 => ReadL2(Slot(l2, 2, kva))
      case FreeL3 => ReadL3(Slot(l3, 3, kva))
      case FreeClear => if captured.None? then FreeFault else ClearPte(Slot(l3, 3, kva), captured.value)
      case FreeFaulted => FreeFault
      case FreeFinished => FreeDone
    }

    method StepL1(raw: nat)
      requires state == FreeL1
      modifies this`state, this`l2
      ensures IsTable(raw) ==> state == FreeL2 && l2 == AddrField(raw)
      ensures !IsTable(raw) ==> state == FreeFaulted && l2 == old(l2)
    {
      if !IsTable(raw) { state := FreeFaulted; return; }
      l2 := AddrField(raw);
      state := FreeL2;
    }

    method StepL2(raw: nat)
      requires state == FreeL2
      modifies this`state, this`l3
      ensures IsTable(raw) ==> state == FreeL3 && l3 == AddrField(raw)
      ensures !IsTable(raw) ==> state == FreeFaulted && l3 == old(l3)
    {
      if !IsTable(raw) { state := FreeFaulted; return; }
      l3 := AddrField(raw);
      state := FreeL3;
    }

    method StepL3(raw: nat)
      requires state == FreeL3
      modifies this`state, this`captured
      ensures IsValid(raw) ==> state == FreeClear && captured == Some(AddrField(raw))
      ensures !IsValid(raw) ==> state == FreeFaulted && captured == old(captured)
    {
      if !IsValid(raw) { state := FreeFaulted; return; }
      captured := Some(AddrField(raw));
      state := FreeClear;
    }

    method StepPteCleared()
      requires state == FreeClear
      modifies this`state, this`captured, this`pageIdx
      ensures captured == None && pageIdx == old(pageIdx) + 1
      ensures state == if pageIdx >= pages then FreeFinished
                       else ResumeFree(Page(base, old(pageIdx)), Page(base, pageIdx))
    {
      captured := None;
      pageIdx := pageIdx + 1;
      if pageIdx >= pages { state := FreeFinished; return; }
      var kva := Page(base, pageIdx);
      var prev := Page(base, pageIdx - 1);
      if Idx(1, kva) != Idx(1, prev) { state := FreeL1; }
      else if Idx(2, kva) != Idx(2, prev) { state := FreeL2; }
      else { state := FreeL3; }
    }
  }

  /** The page has a valid last-level entry. */
  predicate Live(mem: Memory, l1: nat, va: nat)
  {
    TableAt(mem, l1, 1, 3, va).Some? && IsValid(Read(mem, LeafSlot(mem, l1, 1, va)))
  }

  /** The frame that the page's entry points to. */
  function BackingOf(mem: Memory, l1: nat, va: nat): nat
    requires TableAt(mem, l1, 1, 3, va).Some?
  {
    AddrField(Read(mem, LeafSlot(mem, l1, 1, va)))
  }

  ghost predicate FreeCached(state: FreeState, mem: Memory, l1: nat, kva: nat, l2: nat, l3: nat)
  {
    match state
    case FreeL1 => true
    case FreeL2 => TableAt(mem, l1, 1, 2, kva) == Some(l2)
    case FreeL3 => TablesAre(mem, l1, kva, l2, l3)
    case FreeClear => TablesAre(mem, l1, kva, l2, l3) && Live(mem, l1, kva)
    case FreeFaulted => !Live(mem, l1, kva)
    case FreeFinished => true
  }

  /** The first pages were live, and these are their frames. */
  ghost predicate Frames(mem: Memory, l1: nat, base: nat, yielded: seq<nat>)
  {
    forall i: nat | i < |yielded| :: Live(mem, l1, Page(base, i)) && yielded[i] == BackingOf(mem, l1, Page(base, i))
  }

  lemma FramesMore(mem: Memory, l1: nat, base: nat, yielded: seq<nat>)
    requires Frames(mem, l1, base, yielded) && Live(mem, l1, Page(base, |yielded|))
    ensures Frames(mem, l1, base, yielded + [BackingOf(mem, l1, Page(base, |yielded|))])
  {
  }

  /** The first pages were live in `mem`, `yielded` are their frames and `now` has them cleared. */
  ghost predicate Removed(mem: Memory, l1: nat, base: nat, yielded: seq<nat>, now: Memory)
  {
    && Frames(mem, l1, base, yielded)
    && HasLeafTables(mem, l1, 1, base, |yielded|)
    && now == WriteLeaves(mem, l1, 1, base, Zeros(|yielded|))
  }

  ghost predicate FreeProgress(w: KvmFreeWalk, m: PhysMemory, mem: Memory, yielded: seq<nat>)
    reads w, m
  {
    && w.pages <= PagesBelow(1) && |yielded| == w.pageIdx
    && (if w.state == FreeFinished then w.pageIdx == w.pages else w.pageIdx < w.pages)
    && Tree(mem, w.l1, 1)
    && Removed(mem, w.l1, w.base, yielded, m.words)
    && FreeCached(w.state, mem, w.l1, Page(w.base, w.pageIdx), w.l2, w.l3)
    && (w.state == FreeClear ==> w.captured == Some(BackingOf(mem, w.l1, Page(w.base, w.pageIdx))))
  }

  function FreeRank(s: FreeState): nat
  {
    match s
    case FreeL1 => 4
    case FreeL2 => 3
    case FreeL3 => 2
    case FreeClear => 1
    case FreeFaulted => 0
    case FreeFinished => 0
  }

  method FreeRead(w: KvmFreeWalk, m: PhysMemory, ghost mem: Memory, ghost yielded: seq<nat>)
    requires FreeProgress(w, m, mem, yielded)
    requires w.state == FreeL1 || w.state == FreeL2 || w.state == FreeL3
    modifies w
    ensures FreeProgress(w, m, mem, yielded)
    ensures w.pageIdx == old(w.pageIdx) && FreeRank(w.state) < old(FreeRank(w.state))
  {
    ghost var kva := Page(w.base, w.pageIdx);
    EntryUnchanged(mem, w.l1, w.base, Zeros(w.pageIdx), kva);
    var step := w.CurrentStep();
    match step {
      case ReadL1(a) => w.StepL1(Read(m.words, a));
      case ReadL2(a) => w.StepL2(Read(m.words, a));
      case ReadL3(a) =>
        UnwrittenSlot(mem, w.l1, 1, w.base, Zeros(w.pageIdx), w.pageIdx);
        w.StepL3(Read(m.words, a));
    }
  }

  lemma ResumeFreeCached(mem: Memory, l1: nat, prev: nat, next: nat, l2: nat, l3: nat)
    requires TablesAre(mem, l1, prev, l2, l3)
    ensures FreeCached(ResumeFree(prev, next), mem, l1, next, l2, l3)
  {
    ResumeCached(mem, l1, prev, next, l2, l3);
  }

  lemma RemoveNext(mem: Memory, l1: nat, base: nat, yielded: seq<nat>, now: Memory)
    requires Removed(mem, l1, base, yielded, now) && Live(mem, l1, Page(base, |yielded|))
    ensures var va := Page(base, |yielded|);
            Removed(mem, l1, base, yielded + [BackingOf(mem, l1, va)], now[LeafSlot(mem, l1, 1, va) := 0])
  {
    FramesMore(mem, l1, base, yielded);
    ZerosMore(mem, l1, base, |yielded|);
  }

  /** Clearing one more page. */
  lemma ZerosMore(mem: Memory, l1: nat, base: nat, n: nat)
    requires HasLeafTables(mem, l1, 1, base, n) && TableAt(mem, l1, 1, 3, Page(base, n)).Some?
    ensures HasLeafTables(mem, l1, 1, base, n + 1)
    ensures WriteLeaves(mem, l1, 1, base, Zeros(n + 1))
            == WriteLeaves(mem, l1, 1, base, Zeros(n))[LeafSlot(mem, l1, 1, Page(base, n)) := 0]
  {
    assert Zeros(n + 1)[..n] == Zeros(n);
  }

  method FreeClearOne(w: KvmFreeWalk, m: PhysMemory, ghost mem: Memory, yielded: seq<nat>) returns (y: seq<nat>)
    requires FreeProgress(w, m, mem, yielded) && w.state == FreeClear
    modifies w, m
    ensures FreeProgress(w, m, mem, y) && w.pageIdx == old(w.pageIdx) + 1
  {
    RemoveNext(mem, w.l1, w.base, yielded, m.words);
    ResumeFreeCached(mem, w.l1, Page(w.base, w.pageIdx), Page(w.base, w.pageIdx + 1), w.l2, w.l3);
    var step := w.CurrentStep();
    m.Write(step.paddr, 0);
    y := yielded + [step.backing];
    w.StepPteCleared();
  }

  /** Drive the teardown; `ok` false is a fault, which the kernel treats as a panic. */
  method DriveFree(w: KvmFreeWalk, m: PhysMemory) returns (ok: bool, yielded: seq<nat>)
    requires w.pageIdx == 0 && w.pages <= PagesBelow(1)
    requires w.state == if w.pages == 0 then FreeFinished else FreeL1
    requires Tree(m.words, w.l1, 1)
    modifies w, m
    // every page up to where it stopped was live and gave up its frame; nothing else changed
    ensures Removed(old(m.words), w.l1, w.base, yielded, m.words)
    ensures ok <==> forall i: nat | i < w.pages :: Live(old(m.words), w.l1, Page(w.base, i))
    ensures if ok then |yielded| == w.pages
            else |yielded| < w.pages && !Live(old(m.words), w.l1, Page(w.base, |yielded|))
  {
    ghost var mem := m.words;
    yielded := [];
    while true
      invariant FreeProgress(w, m, mem, yielded)
      decreases w.pages - w.pageIdx, FreeRank(w.state)
    {
      var step := w.CurrentStep();
      match step {
        case ReadL1(_) => FreeRead(w, m, mem, yielded);
        case ReadL2(_) => FreeRead(w, m, mem, yielded);
        case ReadL3(_) => FreeRead(w, m, mem, yielded);
        case ClearPte(_, _) => yielded := FreeClearOne(w, m, mem, yielded);
        case FreeDone => return true, yielded;
        case FreeFault => return false, yielded;
      }
    }
  }
}
