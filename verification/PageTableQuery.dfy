/** The run-length mapping query, which skips whole regions, against page-by-page translation. */
module PageTableQuery {
  import opened PageTable
  import opened UserSpace

  predicate IsMapped(mem: Memory, root: nat, va: nat)
  {
    Resolve(mem, root, 0, va).Mapped?
  }

  predicate PageAligned(va: nat)
  {
    Rem(va, 4096) == 0
  }

  lemma NextAligned(va: nat)
    ensures PageAligned(va + 4096) <==> PageAligned(va)
  {
    assert Rem(va + 4096, 4096) == Rem(va, 4096);
  }

  /** Every page of [lo, hi) has the given state. */
  ghost predicate AllPages(mem: Memory, root: nat, lo: nat, hi: nat, mapped: bool)
  {
    forall vb: nat | lo <= vb < hi && PageAligned(vb) :: IsMapped(mem, root, vb) == mapped
  }

  /** User addresses use the first L0 and the first L1 entry. */
  lemma UserIndices(va: nat)
    requires va < USER_VA_END
    ensures Idx(0, va) == 0 && Idx(1, va) == 0
  {
    assert Quot(va, Span(0)) == 0 && Quot(va, Span(1)) == 0;
  }

  /** Below a table at L1, whether a page is mapped is decided at L2 and L3. */
  lemma DecidedBelow(mem: Memory, root: nat, l2: nat, va: nat)
    requires va < USER_VA_END
    requires IsTable(Read(mem, root)) && IsTable(Read(mem, AddrField(Read(mem, root))))
    requires l2 == AddrField(Read(mem, AddrField(Read(mem, root))))
    ensures var raw := Read(mem, l2 + Idx(2, va) * 8);
            IsMapped(mem, root, va)
            <==> if !IsValid(raw) then false
                 else if IsBlock(raw) then true
                 else IsValid(Read(mem, AddrField(raw) + Idx(3, va) * 8))
  {
    UserIndices(va);
    var l1 := AddrField(Read(mem, root));
    ResolveStep(mem, root, 0, va);
    ResolveStep(mem, l1, 1, va);
    var slot := Slot(l2, 2, va);
    assert Resolve(mem, root, 0, va) == ResolveAt(mem, slot, 2, va);
    if IsTable(Read(mem, slot)) { ResolveStep(mem, slot, 2, va); }
  }

  /** End of the 2 MB region that holds `va`, cut at the end of user space. */
  function RegionEnd(va: nat): nat
  {
    var end := (Quot(va, 0x20_0000) + 1) * 0x20_0000;
    if end < USER_VA_END then end else USER_VA_END
  }

  /** All pages of one region share their L2 entry. */
  lemma SameRegion(va: nat, vb: nat)
    requires va <= vb < RegionEnd(va) && va < USER_VA_END
    ensures vb < USER_VA_END && Idx(2, vb) == Idx(2, va)
  {
    QuotRem(va, 0x20_0000);
    QuotRem(vb, 0x20_0000);
    SameQuot(va, vb, 0x20_0000);
  }

  lemma SameQuot(a: nat, b: nat, m: nat)
    requires m > 0 && a <= b < (a / m + 1) * m
    ensures b / m == a / m
  {
    var q, p := a / m, b / m;
    assert a == m * q + a % m && b == m * p + b % m;
    assert (q + 1) * m == m * q + m;
    MulSub(m, q, p);
    MulGrows(m, p - q);
    MulSub(m, p, q);
    MulGrows(m, q - p);
  }

  /** A region whose L2 entry is invalid is unmapped; one with a block entry is mapped. */
  lemma WholeRegion(mem: Memory, root: nat, l2: nat, va: nat, mapped: bool)
    requires va < USER_VA_END
    requires IsTable(Read(mem, root)) && IsTable(Read(mem, AddrField(Read(mem, root))))
    requires l2 == AddrField(Read(mem, AddrField(Read(mem, root))))
    requires var raw := Read(mem, l2 + Idx(2, va) * 8);
             !IsTable(raw) && IsValid(raw) == mapped
    ensures AllPages(mem, root, va, RegionEnd(va), mapped)
  {
    forall vb: nat | va <= vb < RegionEnd(va) && PageAligned(vb)
      ensures IsMapped(mem, root, vb) == mapped
    {
      SameRegion(va, vb);
      DecidedBelow(mem, root, l2, vb);
    }
  }

  /** An entry above the last level that is no table decides alone. */
  lemma NoTable(mem: Memory, slot: nat, d: nat, va: nat)
    requires 0 < d < 3 && !IsTable(Read(mem, slot))
    ensures ResolveAt(mem, slot, d, va).Mapped? <==> IsValid(Read(mem, slot))
  {
  }

  lemma NoL1(mem: Memory, root: nat, va: nat)
    requires va < USER_VA_END
    requires IsTable(Read(mem, root)) && !IsTable(Read(mem, AddrField(Read(mem, root))))
    ensures IsMapped(mem, root, va) == IsValid(Read(mem, AddrField(Read(mem, root))))
  {
    UserIndices(va);
    ResolveStep(mem, root, 0, va);
    NoTable(mem, AddrField(Read(mem, root)), 1, va);
  }

  /** Without a table at L0 and L1 the whole user range has one state. */
  lemma WholeRange(mem: Memory, root: nat, start: nat)
    requires start < USER_VA_END
    ensures !IsTable(Read(mem, root)) ==> AllPages(mem, root, start, USER_VA_END, false)
    ensures IsTable(Read(mem, root)) && !IsTable(Read(mem, AddrField(Read(mem, root)))) ==>
              AllPages(mem, root, start, USER_VA_END, IsValid(Read(mem, AddrField(Read(mem, root)))))
  {
    forall va: nat | start <= va < USER_VA_END && PageAligned(va)
      ensures !IsTable(Read(mem, root)) ==> !IsMapped(mem, root, va)
      ensures IsTable(Read(mem, root)) && !IsTable(Read(mem, AddrField(Read(mem, root)))) ==>
                IsMapped(mem, root, va) == IsValid(Read(mem, AddrField(Read(mem, root))))
    {
      UserIndices(va);
      if IsTable(Read(mem, root)) && !IsTable(Read(mem, AddrField(Read(mem, root)))) { NoL1(mem, root, va); }
    }
  }

  /** The answer's meaning: state of the first page, all pages of the run, and maximality. */
  ghost predicate RunFrom(mem: Memory, root: nat, start: nat, mapped: bool, run: nat)
  {
    var end := start + run * 4096;
    && end <= 0x4000_0000
    && AllPages(mem, root, start, end, mapped)
    && IsMapped(mem, root, start) == mapped
    && (end < 0x4000_0000 ==> IsMapped(mem, root, end) != mapped)
  }

  /** Scan the L3 entries of one region while they have the state `mapped`. */
  method ScanLeaves(mem: Memory, root: nat, l2: nat, l3: nat, start: nat, mapped: bool)
    returns (k: nat, stopped: bool)
    requires start < USER_VA_END && PageAligned(start)
    requires IsTable(Read(mem, root)) && IsTable(Read(mem, AddrField(Read(mem, root))))
    requires l2 == AddrField(Read(mem, AddrField(Read(mem, root))))
    requires IsTable(Read(mem, l2 + Idx(2, start) * 8)) && l3 == AddrField(Read(mem, l2 + Idx(2, start) * 8))
    ensures start + k * 4096 <= RegionEnd(start) && PageAligned(start + k * 4096)
    ensures AllPages(mem, root, start, start + k * 4096, mapped)
    ensures stopped ==> start + k * 4096 < USER_VA_END && IsMapped(mem, root, start + k * 4096) != mapped
    ensures !stopped ==> start + k * 4096 == RegionEnd(start)
  {
    var va := start;
    var l3Idx := Idx(3, start);
    k := 0;
    RegionBounds(start);
    while l3Idx < 512 && va < USER_VA_END
      invariant va == start + k * 4096 <= RegionEnd(start) && PageAligned(va)
      invariant l3Idx == Idx(3, start) + k <= 512
      invariant AllPages(mem, root, start, va, mapped)
    {
      InRegion(start, k);
      DecidedBelow(mem, root, l2, va);
      var isValid := IsValid(Read(mem, l3 + l3Idx * 8));
      if isValid != mapped { return k, true; }
      OneMorePage(mem, root, start, va, mapped);
      l3Idx := l3Idx + 1;
      va := va + 4096;
      k := k + 1;
    }
    RegionLength(start, k);
    stopped := false;
  }

  /** Between a page and the next there is no other page. */
  lemma OneMorePage(mem: Memory, root: nat, start: nat, va: nat, mapped: bool)
    requires AllPages(mem, root, start, va, mapped) && PageAligned(va) && IsMapped(mem, root, va) == mapped
    ensures AllPages(mem, root, start, va + 4096, mapped) && PageAligned(va + 4096)
  {
    NextAligned(va);
    forall vb: nat | start <= vb < va + 4096 && PageAligned(vb)
      ensures IsMapped(mem, root, vb) == mapped
    {
      if va < vb {
        QuotRem(va, 4096);
        QuotRem(vb, 4096);
        assert false;
      }
    }
  }

  /** Where the scan stands inside the region. */
  lemma InRegion(start: nat, k: nat)
    requires PageAligned(start) && start + k * 4096 < USER_VA_END && Idx(3, start) + k < 512
    ensures Idx(2, start + k * 4096) == Idx(2, start) && Idx(3, start + k * 4096) == Idx(3, start) + k
    ensures start + k * 4096 + 4096 <= RegionEnd(start)
  {
    QuotRem(start, 4096);
    QuotRem(start, 0x20_0000);
    var p := start / 4096;
    IdxOfPage(start);
    IdxOfPage(start + k * 4096);
    assert (start + k * 4096) / 4096 == p + k;
    RegionOfPage(p, k);
    DivDiv(start);
  }

  lemma RegionOfPage(p: nat, k: nat)
    requires p % 512 + k < 512
    ensures (p + k) / 512 == p / 512 && (p + k) % 512 == p % 512 + k
    ensures (p + k + 1) * 4096 <= (p / 512 + 1) * 0x20_0000
  {
  }

  lemma RegionLength(start: nat, k: nat)
    requires PageAligned(start) && start < USER_VA_END && start + k * 4096 <= RegionEnd(start)
    requires Idx(3, start) + k == 512 || start + k * 4096 >= USER_VA_END
    ensures start + k * 4096 == RegionEnd(start)
  {
    QuotRem(start, 4096);
    QuotRem(start, 0x20_0000);
    IdxOfPage(start);
    DivDiv(start);
    if Idx(3, start) + k == 512 {
      var p := start / 4096;
      assert start == p * 4096 && p == p / 512 * 512 + p % 512;
    }
  }

  lemma RegionBounds(va: nat)
    requires va < USER_VA_END && PageAligned(va)
    ensures va < RegionEnd(va) <= USER_VA_END && PageAligned(RegionEnd(va))
    ensures va + (RegionEnd(va) - va) / 4096 * 4096 == RegionEnd(va)
    ensures (RegionEnd(va) - va) / 4096 > 0
  {
    QuotRem(va, 4096);
    QuotRem(va, 0x20_0000);
    QuotRem(RegionEnd(va), 4096);
  }

  /** Pages of the region continue the run. */
  lemma JoinPages(mem: Memory, root: nat, lo: nat, mid: nat, hi: nat, mapped: bool)
    requires AllPages(mem, root, lo, mid, mapped) && AllPages(mem, root, mid, hi, mapped)
    ensures AllPages(mem, root, lo, hi, mapped)
  {
  }

  /** One L2 entry of the scan: how many more pages have the state, and whether the run ends. */
  method ScanRegion(mem: Memory, root: nat, l2: nat, va: nat, mapped: bool)
    returns (k: nat, stopped: bool)
    requires va < USER_VA_END && PageAligned(va)
    requires IsTable(Read(mem, root)) && IsTable(Read(mem, AddrField(Read(mem, root))))
    requires l2 == AddrField(Read(mem, AddrField(Read(mem, root))))
    ensures va + k * 4096 <= USER_VA_END && PageAligned(va + k * 4096)
    ensures AllPages(mem, root, va, va + k * 4096, mapped)
    ensures stopped ==> va + k * 4096 < USER_VA_END && IsMapped(mem, root, va + k * 4096) != mapped
    ensures !stopped ==> k > 0
  {
    var raw := Read(mem, l2 + Idx(2, va) * 8);
    RegionBounds(va);
    if !IsTable(raw) {
      DecidedBelow(mem, root, l2, va);
      if IsValid(raw) != mapped { return 0, true; }
      WholeRegion(mem, root, l2, va, mapped);
      k := (RegionEnd(va) - va) / 4096;
      stopped := false;
    } else {
      k, stopped := ScanLeaves(mem, root, l2, AddrField(raw), va, mapped);
    }
  }

  /** Count consecutive pages that have the same state as the first. */
  method QueryRun(mem: Memory, root: nat, start: nat) returns (mapped: bool, run: nat)
    requires start % 4096 == 0
    ensures start >= 0x4000_0000 ==> !mapped && run == 0
    ensures start < 0x4000_0000 ==> RunFrom(mem, root, start, mapped, run)
  {
    if start >= USER_VA_END { return false, 0; }
    QuotRem(start, 4096);
    assert PageAligned(start);
    WholeRange(mem, root, start);
    assert start + (USER_VA_END - start) / 4096 * 4096 == USER_VA_END;
    var l0 := Read(mem, root);
    if !IsValid(l0) || !IsTable(l0) { return false, (USER_VA_END - start) / 4096; }
    UserIndices(start);
    var l1 := Read(mem, AddrField(l0) + Idx(1, start) * 8);
    if !IsValid(l1) { return false, (USER_VA_END - start) / 4096; }
    if IsBlock(l1) { return true, (USER_VA_END - start) / 4096; }
    mapped, run := CountRun(mem, root, AddrField(l1), start);
  }

  /** The part of the query below a table at L1. */
  method CountRun(mem: Memory, root: nat, l2: nat, start: nat) returns (mapped: bool, run: nat)
    requires start < USER_VA_END && PageAligned(start)
    requires IsTable(Read(mem, root)) && IsTable(Read(mem, AddrField(Read(mem, root))))
    requires l2 == AddrField(Read(mem, AddrField(Read(mem, root))))
    ensures RunFrom(mem, root, start, mapped, run)
  {
    DecidedBelow(mem, root, l2, start);
    var first := Read(mem, l2 + Idx(2, start) * 8);
    mapped := if !IsValid(first) then false
              else if IsBlock(first) then true
              else IsValid(Read(mem, AddrField(first) + Idx(3, start) * 8));
    var va := start;
    run := 0;
    while va < USER_VA_END
      invariant va == start + run * 4096 <= USER_VA_END && PageAligned(va)
      invariant AllPages(mem, root, start, va, mapped)
    {
      var k, stopped := ScanRegion(mem, root, l2, va, mapped);
      JoinPages(mem, root, start, va, va + k * 4096, mapped);
      run := run + k;
      va := va + k * 4096;
      if stopped { return; }
    }
  }
}
