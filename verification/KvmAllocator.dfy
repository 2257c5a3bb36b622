/** Mapping a range and tearing it down again, page table side. */
module KvmUndo {
  import opened PageTable
  import opened PageTableBits
  import opened PageTableRange
  import opened PageTableUnmap
  import opened KvmWalk

  /** The entry of page i after a range write. */
  lemma EntryNow(mem: Memory, l1: nat, base: nat, vals: seq<nat>, i: nat)
    requires Tree(mem, l1, 1) && HasLeafTables(mem, l1, 1, base, |vals|) && i < |vals| <= PagesBelow(1)
    ensures var now := WriteLeaves(mem, l1, 1, base, vals);
            && TableAt(now, l1, 1, 3, Page(base, i)).Some?
            && Read(now, LeafSlot(now, l1, 1, Page(base, i))) == vals[i]
  {
    TablesStay(mem, l1, 1, base, vals, 3, Page(base, i));
    WrittenSlot(mem, l1, 1, base, vals, i);
  }

  /** The entries of pages outside the range stay what they were. */
  lemma EntryElsewhere(mem: Memory, l1: nat, base: nat, vals: seq<nat>, va: nat)
    requires Tree(mem, l1, 1) && HasLeafTables(mem, l1, 1, base, |vals|)
    requires forall i: nat | i < |vals| :: !InPage(1, base, i, va)
    ensures Vacant(WriteLeaves(mem, l1, 1, base, vals), l1, va) <==> Vacant(mem, l1, va)
    ensures Live(WriteLeaves(mem, l1, 1, base, vals), l1, va) <==> Live(mem, l1, va)
  {
    TablesStay(mem, l1, 1, base, vals, 3, va);
    if TableAt(mem, l1, 1, 3, va).Some? {
      forall i: nat | i < |vals|
        ensures LeafSlot(mem, l1, 1, Page(base, i)) != LeafSlot(mem, l1, 1, va)
      {
        assert !InPage(1, base, i, va);
        LeafSlotsDiffer(mem, l1, 1, Page(base, i), va);
      }
      OtherWords(mem, l1, 1, base, vals, LeafSlot(mem, l1, 1, va));
    }
  }

  lemma VacantUnmapped(mem: Memory, l1: nat, va: nat, vb: nat)
    requires Vacant(mem, l1, va) && SamePath(1, 4, va, vb)
    ensures Resolve(mem, l1, 1, vb) == Unmapped
  {
    assert SamePath(1, 3, va, vb) && Idx(3, va) == Idx(3, vb);
    SamePathSameTable(mem, l1, 1, 3, va, vb);
    ResolveFrom(mem, l1, 1, 3, vb);
  }

  /** An installed page is live and holds its frame. */
  lemma InstalledLive(mem: Memory, l1: nat, base: nat, backing: seq<nat>, n: nat, now: Memory, i: nat)
    requires Tree(mem, l1, 1) && Installed(mem, l1, base, backing, n, now) && i < n <= PagesBelow(1)
    ensures Live(now, l1, Page(base, i)) && BackingOf(now, l1, Page(base, i)) == AddrField(backing[i])
  {
    EntryNow(mem, l1, base, Entries(backing[..n]), i);
    KernelPageIsPage(backing[i]);
  }

  lemma OffsetOf(base: nat, i: nat, off: nat)
    requires base % 4096 == 0 && off < 4096
    ensures Rem(base + i * 4096 + off, 4096) == off
  {
    QuotRem(base + i * 4096 + off, 4096);
    DivModAdd(off, 4096, base / 4096 + i);
    DivSmall(off, 4096);
    assert base + i * 4096 + off == off + 4096 * (base / 4096 + i);
  }

  /** Resolved in the model is translated by the architecture. */
  lemma Translated(now: Memory, l1: nat, va: nat, frame: nat, off: nat)
    requires Resolve(now, l1, 1, va) == Leaf.Mapped(3, AddrField(frame) + off)
    ensures FromL1(now, l1, va) == Leaf.Mapped(3, Output(frame) + off)
  {
    ResolveIsTranslation(now, l1, va);
    EntryBits(frame);
  }

  lemma InstalledResolves(mem: Memory, l1: nat, base: nat, backing: seq<nat>, n: nat, now: Memory, i: nat, off: nat)
    requires Tree(mem, l1, 1) && Installed(mem, l1, base, backing, n, now) && i < n <= PagesBelow(1)
    requires base % 4096 == 0 && off < 4096
    ensures Resolve(now, l1, 1, base + i * 4096 + off) == Leaf.Mapped(3, AddrField(backing[i]) + off)
  {
    OffsetInPage(1, base, i, off);
    OffsetOf(base, i, off);
    MappedPage(mem, l1, base, backing[..n], i, base + i * 4096 + off);
  }

  /** Every address of an installed page reaches its frame. */
  lemma InstalledAddress(mem: Memory, l1: nat, base: nat, backing: seq<nat>, n: nat, now: Memory, i: nat, off: nat)
    requires Tree(mem, l1, 1) && Installed(mem, l1, base, backing, n, now) && i < n <= PagesBelow(1)
    requires base % 4096 == 0 && off < 4096
    ensures FromL1(now, l1, base + i * 4096 + off) == Leaf.Mapped(3, Output(backing[i]) + off)
  {
    InstalledResolves(mem, l1, base, backing, n, now, i, off);
    Translated(now, l1, base + i * 4096 + off, backing[i], off);
  }

  /** The entry of an installed page is closed to EL0 and to execution. */
  lemma InstalledKernelOnly(mem: Memory, l1: nat, base: nat, backing: seq<nat>, n: nat, now: Memory, i: nat)
    requires Tree(mem, l1, 1) && Installed(mem, l1, base, backing, n, now) && i < n <= PagesBelow(1)
    ensures TableAt(now, l1, 1, 3, Page(base, i)).Some?
    ensures var e := Read(now, LeafSlot(now, l1, 1, Page(base, i)));
            e / 64 % 4 == 0 && e / 0x20_0000_0000_0000 == 3
  {
    EntryNow(mem, l1, base, Entries(backing[..n]), i);
    KernelPageIsPage(backing[i]);
  }

  lemma InstalledTree(mem: Memory, l1: nat, base: nat, backing: seq<nat>, n: nat, now: Memory)
    requires Tree(mem, l1, 1) && Installed(mem, l1, base, backing, n, now)
    ensures Tree(now, l1, 1)
  {
    TablesStay(mem, l1, 1, base, Entries(backing[..n]), 1, 0);
  }

  lemma RemovedTree(mem: Memory, l1: nat, base: nat, yielded: seq<nat>, now: Memory)
    requires Tree(mem, l1, 1) && Removed(mem, l1, base, yielded, now)
    ensures Tree(now, l1, 1)
  {
    TablesStay(mem, l1, 1, base, Zeros(|yielded|), 1, 0);
  }

  /** A removed page is vacant again. */
  lemma RemovedVacant(mem: Memory, l1: nat, base: nat, yielded: seq<nat>, now: Memory, i: nat)
    requires Tree(mem, l1, 1) && Removed(mem, l1, base, yielded, now) && i < |yielded| <= PagesBelow(1)
    ensures Vacant(now, l1, Page(base, i))
  {
    EntryNow(mem, l1, base, Zeros(|yielded|), i);
  }

  /** Tearing down what was installed restores every translation and yields the same frames. */
  lemma Undo(mem: Memory, l1: nat, base: nat, backing: seq<nat>, n: nat, mid: Memory, yielded: seq<nat>, now: Memory)
    requires Tree(mem, l1, 1) && n <= PagesBelow(1) && |yielded| == n
    requires Installed(mem, l1, base, backing, n, mid) && Removed(mid, l1, base, yielded, now)
    ensures forall i: nat | i < n :: yielded[i] == AddrField(backing[i])
    ensures forall vb: nat :: Resolve(now, l1, 1, vb) == Resolve(mem, l1, 1, vb)
  {
    InstalledTree(mem, l1, base, backing, n, mid);
    forall i: nat | i < n
      ensures yielded[i] == AddrField(backing[i])
    {
      InstalledLive(mem, l1, base, backing, n, mid, i);
    }
    forall vb: nat
      ensures Resolve(now, l1, 1, vb) == Resolve(mem, l1, 1, vb)
    {
      UndoAt(mem, l1, base, backing, n, mid, yielded, now, vb);
    }
  }

  lemma UndoAt(mem: Memory, l1: nat, base: nat, backing: seq<nat>, n: nat, mid: Memory, yielded: seq<nat>, now: Memory,
               vb: nat)
    requires Tree(mem, l1, 1) && Tree(mid, l1, 1) && n <= PagesBelow(1) && |yielded| == n
    requires Installed(mem, l1, base, backing, n, mid) && Removed(mid, l1, base, yielded, now)
    ensures Resolve(now, l1, 1, vb) == Resolve(mem, l1, 1, vb)
  {
    if i: nat :| i < n && InPage(1, base, i, vb) {
      RemovedVacant(mid, l1, base, yielded, now, i);
      VacantUnmapped(now, l1, Page(base, i), vb);
      VacantUnmapped(mem, l1, Page(base, i), vb);
    } else {
      ResolvesAsBefore(mem, l1, 1, base, Entries(backing[..n]), vb);
      ResolvesAsBefore(mid, l1, 1, base, Zeros(n), vb);
    }
  }
}

/** The kernel's allocator of mapped ranges: free list, page tables and frames together. */
module KvmAllocator {
  import opened PageTable
  import opened PageTableRange
  import opened PageTableUnmap
  import opened KvmWalk
  import opened KvmUndo
  import R = KvmRegions
  import L = KvmFreeList

  const POOL_PAGES: nat := 0x4_0000

  /** Page number q of the pool. */
  function PoolPage(q: nat): nat
  {
    Page(R.POOL_BASE, q)
  }

  /** Every page that the free list offers is vacant in the page tables. */
  ghost predicate FreeIsVacant(free: seq<R.Region>, mem: Memory, l1: nat)
  {
    forall q: nat | q < POOL_PAGES && R.Covers(free, PoolPage(q)) :: Vacant(mem, l1, PoolPage(q))
  }

  /** An aligned range of the pool, by page numbers. */
  lemma RangePages(base: nat, n: nat) returns (q0: nat)
    requires R.InPool(R.Region(base, n)) && base % 4096 == 0
    ensures base == PoolPage(q0) && q0 + n <= POOL_PAGES
    ensures forall i: nat :: Page(base, i) == PoolPage(q0 + i)
    ensures forall q: nat :: R.In(R.Region(base, n), PoolPage(q)) <==> q0 <= q < q0 + n
  {
    q0 := (base - R.POOL_BASE) / 4096;
  }

  /** A range taken from the free list is vacant. */
  lemma RangeVacant(free: seq<R.Region>, mem: Memory, l1: nat, base: nat, n: nat)
    requires FreeIsVacant(free, mem, l1) && R.InPool(R.Region(base, n)) && base % 4096 == 0
    requires R.CoversAll(free, R.Region(base, n))
    ensures AllVacant(mem, l1, base, n)
  {
    var q0 := RangePages(base, n);
    forall i: nat | i < n
      ensures Vacant(mem, l1, Page(base, i))
    {
      assert R.In(R.Region(base, n), PoolPage(q0 + i));
    }
  }

  /** Pool pages outside the range are none of its pages. */
  lemma OutsideRange(base: nat, n: nat, q0: nat, q: nat, i: nat)
    requires q < POOL_PAGES && q0 + n <= POOL_PAGES && base == PoolPage(q0) && !(q0 <= q < q0 + n) && i < n
    ensures !InPage(1, base, i, PoolPage(q))
  {
    assert Page(base, i) == PoolPage(q0 + i);
    if q < q0 + i {
      PagesApart(1, R.POOL_BASE, q, q0 + i);
    } else {
      PagesApart(1, R.POOL_BASE, q0 + i, q);
    }
  }

  /** Writing entries of a range leaves the free pages outside it vacant. */
  lemma StillVacant(free: seq<R.Region>, mem: Memory, l1: nat, base: nat, vals: seq<nat>)
    requires Tree(mem, l1, 1) && HasLeafTables(mem, l1, 1, base, |vals|)
    requires R.InPool(R.Region(base, |vals|)) && base % 4096 == 0
    requires FreeIsVacant(free, mem, l1)
    requires forall a: nat | R.In(R.Region(base, |vals|), a) :: !R.Covers(free, a)
    ensures FreeIsVacant(free, WriteLeaves(mem, l1, 1, base, vals), l1)
  {
    var q0 := RangePages(base, |vals|);
    forall q: nat | q < POOL_PAGES && R.Covers(free, PoolPage(q))
      ensures Vacant(WriteLeaves(mem, l1, 1, base, vals), l1, PoolPage(q))
    {
      assert !R.In(R.Region(base, |vals|), PoolPage(q));
      forall i: nat | i < |vals|
        ensures !InPage(1, base, i, PoolPage(q))
      {
        OutsideRange(base, |vals|, q0, q, i);
      }
      EntryElsewhere(mem, l1, base, vals, PoolPage(q));
    }
  }

  /** A shorter free list, or one grown by a range that was just removed, is still vacant. */
  lemma FewerFree(free: seq<R.Region>, free': seq<R.Region>, mem: Memory, l1: nat)
    requires FreeIsVacant(free, mem, l1) && forall a: nat | R.Covers(free', a) :: R.Covers(free, a)
    ensures FreeIsVacant(free', mem, l1)
  {
  }

  lemma MoreFree(free: seq<R.Region>, free': seq<R.Region>, mem: Memory, l1: nat, base: nat, n: nat)
    requires FreeIsVacant(free, mem, l1) && AllVacant(mem, l1, base, n)
    requires R.InPool(R.Region(base, n)) && base % 4096 == 0
    requires forall a: nat :: R.Covers(free', a) <==> R.Covers(free, a) || R.In(R.Region(base, n), a)
    ensures FreeIsVacant(free', mem, l1)
  {
    var q0 := RangePages(base, n);
    forall q: nat | q < POOL_PAGES && R.Covers(free', PoolPage(q))
      ensures Vacant(mem, l1, PoolPage(q))
    {
      if !R.Covers(free, PoolPage(q)) {
        assert PoolPage(q) == Page(base, q - q0);
      }
    }
  }

  predicate FramesAligned(frames: seq<nat>)
  {
    forall i: nat | i < |frames| :: AddrField(frames[i]) == frames[i]
  }

  datatype KvmResult = Owned(va: nat) | OutOfVirtualMemory | OutOfPhysicalFrames

  class KvmAllocator {
    const list: L.FreeList
    const m: PhysMemory
    const l1: nat
    /** The frames that the page allocator still has. */
    var frames: seq<nat>

    ghost predicate Ready()
      reads this, list, list.regions, m
    {
      && list.Valid() && R.PageAligned(list.Regions())
      && Tree(m.words, l1, 1)
      && FreeIsVacant(list.Regions(), m.words, l1)
      && FramesAligned(frames)
    }

    /** Start over tables that reach every page of the pool and map none of them. */
    constructor (m: PhysMemory, l1: nat, frames: seq<nat>)
      requires Tree(m.words, l1, 1) && FramesAligned(frames)
      requires forall q: nat | q < POOL_PAGES :: Vacant(m.words, l1, PoolPage(q))
      ensures this.m == m && this.l1 == l1 && this.frames == frames
      ensures fresh(list) && fresh(list.regions) && Ready()
      ensures forall a: nat :: R.Covers(list.Regions(), a) <==> 0xFFFF_8000_0000_0000 <= a < 0xFFFF_8000_4000_0000
    {
      this.list := new L.FreeList();
      this.m := m;
      this.l1 := l1;
      this.frames := frames;
    }

    /** Clear the pages of a range and take back their frames. */
    method ClearRange(base: nat, n: nat) returns (yielded: seq<nat>)
      requires Ready() && R.InPool(R.Region(base, n)) && base % 4096 == 0
      requires forall i: nat | i < n :: Live(m.words, l1, Page(base, i))
      requires !R.Overlaps(list.Regions(), R.Region(base, n))
      modifies this`frames, m
      ensures Ready() && AllVacant(m.words, l1, base, n)
      ensures |yielded| == n && Removed(old(m.words), l1, base, yielded, m.words)
      ensures frames == old(frames) + yielded
    {
      ghost var mem := m.words;
      var walk := new KvmFreeWalk(base, n, l1);
      var ok: bool;
      ok, yielded := DriveFree(walk, m);
      RemovedKeeps(list.Regions(), mem, l1, base, yielded, m.words);
      frames := frames + yielded;
    }

    /** Clear the pages of a range, take back their frames and its addresses. */
    method TearDown(base: nat, n: nat) returns (yielded: seq<nat>, f: L.FreeResult)
      requires Ready() && 0 < n && R.InPool(R.Region(base, n)) && base % 4096 == 0
      requires forall i: nat | i < n :: Live(m.words, l1, Page(base, i))
      requires !R.Overlaps(list.Regions(), R.Region(base, n))
      modifies this, list, list.regions, m
      ensures Ready()
      ensures |yielded| == n && Removed(old(m.words), l1, base, yielded, m.words)
      ensures frames == old(frames) + yielded
      ensures f == if NoPlace(old(list.Regions()), base, n) then L.RegionTableFull else L.Freed
      ensures Returned(old(list.Regions()), list.Regions(), base, n)
    {
      yielded := ClearRange(base, n);
      ghost var free := list.Regions();
      f := list.Free(base, n);
      if f == L.Freed { MoreFree(free, list.Regions(), m.words, l1, base, n); }
    }

    /** Unmap the first pages of a reserved range, which took all the frames. */
    method GiveBack(base: nat, pages: nat, done: nat, ghost mem: Memory)
      requires list.Valid() && R.PageAligned(list.Regions())
      requires R.InPool(R.Region(base, pages)) && base % 4096 == 0 && 0 < done < pages
      requires !R.Overlaps(list.Regions(), R.Region(base, pages))
      requires Tree(mem, l1, 1) && FreeIsVacant(list.Regions(), mem, l1)
      requires FramesAligned(frames) && done == |frames| && Installed(mem, l1, base, frames, done, m.words)
      modifies this, list, list.regions, m
      ensures Ready() && frames == old(frames)
      ensures forall vb: nat :: Resolve(m.words, l1, 1, vb) == Resolve(mem, l1, 1, vb)
      ensures Returned(old(list.Regions()), list.Regions(), base, done)
    {
      ghost var free, taken, mid := list.Regions(), frames, m.words;
      NoOverlapBelow(free, base, done, pages);
      InstalledKeeps(free, mem, l1, base, taken, done, mid);
      frames := [];
      var yielded, _ := TearDown(base, done);
      Undo(mem, l1, base, taken, done, mid, yielded, m.words);
      assert frames == taken;
    }

    /** Undo an allocation that ran out of frames after `done` of its pages. */
    method RollBack(base: nat, pages: nat, done: nat, ghost mem: Memory)
      requires list.Valid() && R.PageAligned(list.Regions())
      requires R.InPool(R.Region(base, pages)) && base % 4096 == 0 && done < pages
      requires !R.Overlaps(list.Regions(), R.Region(base, pages))
      requires !NoPlace(list.Regions(), base, pages)
      requires Tree(mem, l1, 1) && FreeIsVacant(list.Regions(), mem, l1) && AllVacant(mem, l1, base, pages)
      requires FramesAligned(frames) && done == |frames|
      requires Installed(mem, l1, base, frames, done, m.words)
      modifies this, list, list.regions, m
      ensures Ready() && frames == old(frames)
      ensures forall vb: nat :: Resolve(m.words, l1, 1, vb) == Resolve(mem, l1, 1, vb)
      ensures Returned(old(list.Regions()), list.Regions(), base, if done == 0 then pages else done)
    {
      if done > 0 {
        GiveBack(base, pages, done, mem);
        return;
      }
      ghost var free := list.Regions();
      InstalledNone(mem, l1, base, frames, m.words);
      var f := list.Free(base, pages);
      assert f == L.Freed;
      MoreFree(free, list.Regions(), m.words, l1, base, pages);
    }

    /** Take addresses from the free list. */
    method Reserve(pages: nat) returns (a: L.AllocResult)
      requires Ready()
      modifies list, list.regions
      ensures Ready()
      ensures a.OutOfVirtualMemory? <==>
              (pages == 0 || forall v: nat :: !R.CoversAll(old(list.Regions()), R.Region(v, pages)))
      ensures a.OutOfVirtualMemory? ==> list.Regions() == old(list.Regions())
      ensures a.Base? ==> Handed(old(list.Regions()), list.Regions(), a.va, pages)
      ensures a.Base? ==> AllVacant(m.words, l1, a.va, pages)
    {
      ghost var free := list.Regions();
      a := list.TryAlloc(pages);
      if a.Base? {
        RangeVacant(free, m.words, l1, a.va, pages);
        FewerFree(free, list.Regions(), m.words, l1);
      }
    }

    /** Map reserved addresses to frames, or undo what was done. */
    method Back(base: nat, pages: nat, ghost free: seq<R.Region>) returns (ok: bool)
      requires Ready() && AllVacant(m.words, l1, base, pages) && pages > 0
      requires R.Compact(free) && |free| <= L.MAX_REGIONS && Handed(free, list.Regions(), base, pages)
      modifies this, list, list.regions, m
      ensures Ready()
      ensures ok <==> pages <= |old(frames)|
      ensures ok ==> Installed(old(m.words), l1, base, old(frames), pages, m.words)
                     && frames == old(frames)[pages..] && list.Regions() == old(list.Regions())
      ensures !ok ==> frames == old(frames) && FreeExcept(free, list.Regions(), Lost(free, base, pages, |frames|))
      ensures !ok ==> forall vb: nat :: Resolve(m.words, l1, 1, vb) == Resolve(old(m.words), l1, 1, vb)
    {
      ghost var mem := m.words;
      var walk := new KvmMapWalk(base, pages, l1);
      var outcome := DriveMap(walk, m, frames);
      assert !outcome.Panicked?;
      if outcome.OutOfFrames? {
        RollBack(base, pages, outcome.done, mem);
        LostExactly(free, old(list.Regions()), list.Regions(), base, pages, outcome.done);
        return false;
      }
      InstalledKeeps(list.Regions(), mem, l1, base, frames, pages, m.words);
      AllAligned(frames, pages);
      frames := frames[pages..];
      ok := true;
    }

    /** Reserve addresses, back every page with a frame and map it. */
    method Alloc(pages: nat) returns (r: KvmResult)
      requires Ready()
      modifies this, list, list.regions, m
      ensures Ready()
      // which outcome it is depends on the free ranges and on the number of frames only
      ensures r == OutOfVirtualMemory <==>
              (pages == 0 || forall a: nat :: !R.CoversAll(old(list.Regions()), R.Region(a, pages)))
      ensures r != OutOfVirtualMemory ==> (r == OutOfPhysicalFrames <==> |old(frames)| < pages)
      // success: the lowest free range is mapped to the first frames, in order
      ensures r.Owned? ==> Installed(old(m.words), l1, r.va, old(frames), pages, m.words)
                           && frames == old(frames)[pages..]
      ensures r.Owned? ==> Handed(old(list.Regions()), list.Regions(), r.va, pages)
      // failure: no translation changes, no frame is lost
      ensures !r.Owned? ==> frames == old(frames)
                            && forall vb: nat :: Resolve(m.words, l1, 1, vb) == Resolve(old(m.words), l1, 1, vb)
      ensures r == OutOfVirtualMemory ==> list.Regions() == old(list.Regions())
      // but addresses are lost when the first frames had been used: exactly these
      ensures r == OutOfPhysicalFrames ==>
        forall va: nat | Lowest(old(list.Regions()), va, pages) ::
          FreeExcept(old(list.Regions()), list.Regions(), Lost(old(list.Regions()), va, pages, |old(frames)|))
      ensures r == OutOfPhysicalFrames ==> (list.Regions() == old(list.Regions()) <==> |old(frames)| == 0)
    {
      ghost var free := list.Regions();
      var a := Reserve(pages);
      if a.OutOfVirtualMemory? { return OutOfVirtualMemory; }
      var ok := Back(a.va, pages, free);
      if !ok { LostSome(free, list.Regions(), a.va, pages, |frames|); }
      r := if ok then Owned(a.va) else OutOfPhysicalFrames;
    }

    /** Give a mapped range back. */
    method Free(base: nat, pages: nat)
      requires Ready() && R.InPool(R.Region(base, pages)) && base % 4096 == 0
      requires forall i: nat | i < pages :: Live(m.words, l1, Page(base, i))
      requires !R.Overlaps(list.Regions(), R.Region(base, pages))
      modifies this, list, list.regions, m
      ensures Ready()
      ensures exists yielded: seq<nat> ::
                && |yielded| == pages && frames == old(frames) + yielded
                && Removed(old(m.words), l1, base, yielded, m.words)
      ensures Returned(old(list.Regions()), list.Regions(), base, pages)
    {
      if pages == 0 {
        assert Removed(m.words, l1, base, [], m.words) && frames == frames + [];
        return;
      }
      var yielded, _ := TearDown(base, pages);
    }
  }

  /** Allocating and freeing restores every translation, the free list and the stock of frames. */
  method AllocThenFree(k: KvmAllocator, pages: nat) returns (r: KvmResult)
    requires k.Ready()
    modifies k, k.list, k.list.regions, k.m
    ensures k.Ready()
    ensures r.Owned? ==>
      && pages <= |old(k.frames)|
      && k.list.Regions() == old(k.list.Regions())
      && k.frames == old(k.frames)[pages..] + old(k.frames)[..pages]
      && forall vb: nat :: Resolve(k.m.words, k.l1, 1, vb) == Resolve(old(k.m.words), k.l1, 1, vb)
  {
    ghost var mem, free, frames := k.m.words, k.list.Regions(), k.frames;
    r := k.Alloc(pages);
    if r.Owned? {
      ghost var mid := k.m.words;
      InstalledAllLive(mem, k.l1, r.va, frames, pages, mid);
      k.Free(r.va, pages);
      ghost var yielded: seq<nat> :| |yielded| == pages && k.frames == frames[pages..] + yielded
                                     && Removed(mid, k.l1, r.va, yielded, k.m.words);
      Undo(mem, k.l1, r.va, frames, pages, mid, yielded, k.m.words);
      assert yielded == frames[..pages];
      R.Canonical(k.list.Regions(), free);
    }
  }

  /** The first range of n free pages. */
  ghost predicate Lowest(free: seq<R.Region>, va: nat, n: nat)
  {
    && R.InPool(R.Region(va, n)) && va % 4096 == 0
    && R.CoversAll(free, R.Region(va, n))
    && forall a: nat | R.CoversAll(free, R.Region(a, n)) :: va <= a
  }

  /** Exactly the addresses of r left the free list. */
  ghost predicate FreeExcept(free: seq<R.Region>, free': seq<R.Region>, r: R.Region)
  {
    forall a: nat :: R.Covers(free', a) <==> R.Covers(free, a) && !R.In(r, a)
  }

  /** The lowest free range of n pages, and exactly it, left the free list. */
  ghost predicate Handed(free: seq<R.Region>, free': seq<R.Region>, va: nat, n: nat)
  {
    && Lowest(free, va, n) && FreeExcept(free, free', R.Region(va, n))
    && |free'| == if R.Covers(free, va + n * 4096) then |free| else |free| - 1
  }

  /** A full table has no room for a range without free neighbours. */
  ghost predicate NoPlace(free: seq<R.Region>, base: nat, n: nat)
  {
    n > 0 && |free| == L.MAX_REGIONS && base > 0 && R.Isolated(free, R.Region(base, n))
  }

  /** A range given back joins the free list, or is lost when the table has no place for it. */
  ghost predicate Returned(free: seq<R.Region>, free': seq<R.Region>, base: nat, n: nat)
  {
    if NoPlace(free, base, n) then free' == free
    else forall a: nat :: R.Covers(free', a) <==> R.Covers(free, a) || R.In(R.Region(base, n), a)
  }

  /** What an allocation of `pages` at va that finds only `done` frames takes from the free list for good. */
  ghost function Lost(free: seq<R.Region>, va: nat, pages: nat, done: nat): R.Region
    requires done < pages
  {
    if done == 0 then R.Region(va, 0)
    else if |free| == L.MAX_REGIONS && R.Covers(free, va + pages * 4096) then R.Region(va, pages)
    else R.Region(va + done * 4096, pages - done)
  }

  /** Nothing is free next to the mapped part of a reserved range: it starts a region, and what follows is reserved. */
  lemma PartIsIsolated(free: seq<R.Region>, free': seq<R.Region>, va: nat, pages: nat, done: nat)
    requires R.Compact(free) && Handed(free, free', va, pages) && 0 < done < pages
    ensures R.Isolated(free', R.Region(va, done))
  {
    assert R.In(R.Region(va, pages), va + done * 4096);
    assert R.In(R.Region(va, pages), va);
    if R.Covers(free, va - 1) { NotLowest(free, va, pages); }
  }

  /** A fitting range with a free address before it is not the lowest. */
  lemma NotLowest(free: seq<R.Region>, va: nat, pages: nat)
    requires pages > 0 && va > 0 && R.Covers(free, va - 1) && R.CoversAll(free, R.Region(va, pages))
    ensures R.CoversAll(free, R.Region(va - 1, pages))
  {
    forall a: nat | R.In(R.Region(va - 1, pages), a)
      ensures R.Covers(free, a)
    {
      assert a == va - 1 || R.In(R.Region(va, pages), a);
    }
  }

  lemma LostExactly(free: seq<R.Region>, mid: seq<R.Region>, free': seq<R.Region>, va: nat, pages: nat, done: nat)
    requires R.Compact(free) && |free| <= L.MAX_REGIONS && Handed(free, mid, va, pages) && done < pages
    requires Returned(mid, free', va, if done == 0 then pages else done)
    requires !NoPlace(mid, va, pages)
    ensures FreeExcept(free, free', Lost(free, va, pages, done))
  {
    if done > 0 { PartIsIsolated(free, mid, va, pages, done); }
    forall a: nat
      ensures R.Covers(free', a) <==> R.Covers(free, a) && !R.In(Lost(free, va, pages, done), a)
    {
      assert R.In(R.Region(va, pages), a) ==> R.Covers(free, a);
    }
  }

  /** The free list is back to what it was exactly when nothing had been done. */
  lemma LostSome(free: seq<R.Region>, free': seq<R.Region>, va: nat, pages: nat, done: nat)
    requires R.Compact(free) && R.Compact(free') && Lowest(free, va, pages) && done < pages
    requires FreeExcept(free, free', Lost(free, va, pages, done))
    ensures forall vb: nat | Lowest(free, vb, pages) :: vb == va
    ensures free' == free <==> done == 0
  {
    if done == 0 {
      R.Canonical(free', free);
    } else {
      assert R.In(Lost(free, va, pages, done), va + done * 4096) && R.In(R.Region(va, pages), va + done * 4096);
    }
  }

  lemma NoOverlapBelow(free: seq<R.Region>, base: nat, done: nat, pages: nat)
    requires !R.Overlaps(free, R.Region(base, pages)) && done <= pages
    ensures !R.Overlaps(free, R.Region(base, done))
  {
    forall a: nat | R.In(R.Region(base, done), a)
      ensures !R.Covers(free, a)
    {
      assert R.In(R.Region(base, pages), a);
    }
  }

  /** The frames given out, and those left, after a complete or a failed drive. */
  lemma AllAligned(frames: seq<nat>, n: nat)
    requires FramesAligned(frames) && n <= |frames|
    ensures FramesAligned(frames[n..])
  {
  }

  lemma InstalledAllLive(mem: Memory, l1: nat, base: nat, backing: seq<nat>, n: nat, now: Memory)
    requires Tree(mem, l1, 1) && Installed(mem, l1, base, backing, n, now) && n <= PagesBelow(1)
    ensures forall i: nat | i < n :: Live(now, l1, Page(base, i))
  {
    forall i: nat | i < n
      ensures Live(now, l1, Page(base, i))
    {
      InstalledLive(mem, l1, base, backing, n, now, i);
    }
  }

  /** With no page written, memory is what it was. */
  lemma InstalledNone(mem: Memory, l1: nat, base: nat, backing: seq<nat>, now: Memory)
    requires Installed(mem, l1, base, backing, 0, now)
    ensures now == mem
  {
  }

  lemma RemovedAllVacant(mem: Memory, l1: nat, base: nat, yielded: seq<nat>, now: Memory)
    requires Tree(mem, l1, 1) && Removed(mem, l1, base, yielded, now) && |yielded| <= PagesBelow(1)
    ensures AllVacant(now, l1, base, |yielded|)
  {
    forall i: nat | i < |yielded|
      ensures Vacant(now, l1, Page(base, i))
    {
      RemovedVacant(mem, l1, base, yielded, now, i);
    }
  }

  /** After a range that was in use is cleared, all of it is vacant and what was vacant before still is. */
  lemma RemovedKeeps(free: seq<R.Region>, mem: Memory, l1: nat, base: nat, yielded: seq<nat>, now: Memory)
    requires Tree(mem, l1, 1) && Removed(mem, l1, base, yielded, now) && FreeIsVacant(free, mem, l1)
    requires R.InPool(R.Region(base, |yielded|)) && base % 4096 == 0 && !R.Overlaps(free, R.Region(base, |yielded|))
    ensures Tree(now, l1, 1) && FreeIsVacant(free, now, l1) && AllVacant(now, l1, base, |yielded|)
    ensures FramesAligned(yielded)
  {
    RemovedTree(mem, l1, base, yielded, now);
    YieldedAligned(mem, l1, base, yielded, now);
    StillVacant(free, mem, l1, base, Zeros(|yielded|));
    RemovedAllVacant(mem, l1, base, yielded, now);
  }

  /** While the first pages of a reserved range are mapped, what is free is still vacant. */
  lemma InstalledKeeps(free: seq<R.Region>, mem: Memory, l1: nat, base: nat, frames: seq<nat>, n: nat, now: Memory)
    requires Tree(mem, l1, 1) && Installed(mem, l1, base, frames, n, now) && FreeIsVacant(free, mem, l1)
    requires R.InPool(R.Region(base, n)) && base % 4096 == 0 && !R.Overlaps(free, R.Region(base, n))
    ensures Tree(now, l1, 1) && FreeIsVacant(free, now, l1) && forall i: nat | i < n :: Live(now, l1, Page(base, i))
  {
    InstalledTree(mem, l1, base, frames, n, now);
    InstalledAllLive(mem, l1, base, frames, n, now);
    StillVacant(free, mem, l1, base, Entries(frames[..n]));
  }

  /** Frames recovered from page tables are page addresses. */
  lemma YieldedAligned(mem: Memory, l1: nat, base: nat, yielded: seq<nat>, now: Memory)
    requires Removed(mem, l1, base, yielded, now)
    ensures FramesAligned(yielded)
  {
    forall i: nat | i < |yielded|
      ensures AddrField(yielded[i]) == yielded[i]
    {
      AddrFieldIdempotent(Read(mem, LeafSlot(mem, l1, 1, Page(base, i))));
    }
  }

  lemma AddrFieldIdempotent(raw: nat)
    ensures AddrField(AddrField(raw)) == AddrField(raw)
  {
    AddrFieldMeaning(raw);
    AddrFieldMeaning(AddrField(raw));
  }
}
