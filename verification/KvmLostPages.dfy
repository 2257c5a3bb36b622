/** Runs of the kernel's allocator that lose addresses, from an untouched pool. */
module KvmLostPages {
  import opened PageTable
  import opened PageTableRange
  import opened PageTableUnmap
  import opened KvmWalk
  import opened KvmUndo
  import opened KvmAllocator
  import R = KvmRegions
  import L = KvmFreeList

  /** Pages q to q + n of the pool. */
  function Pages(q: nat, n: nat): R.Region
  {
    R.Region(PoolPage(q), n)
  }

  /** A fitting range that starts where a region does is the lowest if the regions before are too small. */
  lemma LowestIn(free: seq<R.Region>, k: nat, q: nat, n: nat)
    requires R.Compact(free) && k < |free| && free[k].start == PoolPage(q) && 0 < n <= free[k].pages
    requires forall i: nat | i < k :: free[i].pages < n
    ensures Lowest(free, PoolPage(q), n)
  {
    L.FirstFit(free, k, n);
  }

  /** All pages of the pool from q on. */
  function From(q: nat): (s: seq<R.Region>)
    requires q < POOL_PAGES
  {
    [Pages(q, POOL_PAGES - q)]
  }

  lemma FromCovers(q: nat)
    requires q < POOL_PAGES
    ensures R.Compact(From(q))
    ensures forall a: nat :: R.Covers(From(q), a) <==> PoolPage(q) <= a < R.USABLE_END
  {
    forall a: nat
      ensures R.Covers(From(q), a) <==> PoolPage(q) <= a < R.USABLE_END
    {
      R.One(Pages(q, POOL_PAGES - q), a);
    }
  }

  /** An untouched pool. */
  method Fresh(m: PhysMemory, l1: nat, frames: seq<nat>) returns (k: KvmAllocator)
    requires Tree(m.words, l1, 1) && FramesAligned(frames)
    requires forall q: nat | q < POOL_PAGES :: Vacant(m.words, l1, PoolPage(q))
    ensures fresh(k) && fresh(k.list) && fresh(k.list.regions) && k.m == m && k.l1 == l1 && k.frames == frames
    ensures k.Ready() && k.list.Regions() == From(0)
  {
    k := new KvmAllocator(m, l1, frames);
    FromCovers(0);
    R.Canonical(k.list.Regions(), From(0));
  }

  /** All pages but the second are free. */
  lemma SecondGone(free: seq<R.Region>)
    requires R.Compact(free) && FreeExcept(From(0), free, Pages(1, 1))
    ensures free == [Pages(0, 1), Pages(2, POOL_PAGES - 2)]
  {
    FromCovers(0);
    var left := [Pages(0, 1), Pages(2, POOL_PAGES - 2)];
    forall a: nat
      ensures R.Covers(left, a) <==> R.Covers(From(0), a) && !R.In(Pages(1, 1), a)
    {
      assert R.In(left[0], a) || R.In(left[1], a) <==> R.Covers(left, a);
    }
    R.Canonical(free, left);
  }

  /** Two pages asked of an untouched pool with one frame left: the second page's addresses are gone. */
  method LostPage(m: PhysMemory, l1: nat, frame: nat) returns (k: KvmAllocator, r: KvmResult)
    requires Tree(m.words, l1, 1) && FramesAligned([frame])
    requires forall q: nat | q < POOL_PAGES :: Vacant(m.words, l1, PoolPage(q))
    modifies m
    ensures fresh(k) && k.Ready() && r == OutOfPhysicalFrames && k.frames == [frame]
    ensures forall vb: nat :: Resolve(m.words, l1, 1, vb) == Resolve(old(m.words), l1, 1, vb)
    ensures k.list.Regions() == [Pages(0, 1), Pages(2, POOL_PAGES - 2)]
  {
    k := Fresh(m, l1, [frame]);
    FromCovers(0);
    LowestIn(From(0), 0, 0, 2);
    r := k.Alloc(2);
    SecondGone(k.list.Regions());
  }

  // ----- a full region table -----

  const HOLES: nat := 63
  const TAKEN: nat := 126

  /** Every other page of the first 2n, and all pages from q on. */
  function Comb(n: nat, q: nat): (s: seq<R.Region>)
    requires q < POOL_PAGES
  {
    seq(n, i requires 0 <= i < n => Pages(2 * i, 1)) + From(q)
  }

  lemma CombCompact(n: nat, q: nat)
    requires n <= HOLES && TAKEN <= q < POOL_PAGES
    ensures |Comb(n, q)| == n + 1 && R.Compact(Comb(n, q))
  {
  }

  lemma CombNone()
    ensures Comb(0, TAKEN) == From(TAKEN)
  {
  }

  lemma CombGrows(n: nat, a: nat)
    requires n < HOLES
    ensures R.Covers(Comb(n + 1, TAKEN), a) <==> R.Covers(Comb(n, TAKEN), a) || R.In(Pages(2 * n, 1), a)
  {
    var s, t := Comb(n, TAKEN), Comb(n + 1, TAKEN);
    if R.Covers(t, a) {
      var i: nat :| i < |t| && R.In(t[i], a);
      if i < n {
        assert R.In(s[i], a);
      } else if i > n {
        assert R.In(s[n], a);
      }
    }
    if R.Covers(s, a) {
      var i: nat :| i < |s| && R.In(s[i], a);
      assert R.In(t[if i < n then i else n + 1], a);
    }
    if R.In(Pages(2 * n, 1), a) { assert R.In(t[n], a); }
  }

  lemma CombShrinks(q: nat, q': nat, a: nat)
    requires TAKEN <= q <= q' < POOL_PAGES
    ensures R.Covers(Comb(HOLES, q'), a) <==> R.Covers(Comb(HOLES, q), a) && !R.In(Pages(q, q' - q), a)
  {
    var s, t := Comb(HOLES, q), Comb(HOLES, q');
    if R.Covers(t, a) {
      var i: nat :| i < |t| && R.In(t[i], a);
      assert R.In(s[i], a);
    }
    if R.Covers(s, a) {
      var i: nat :| i < |s| && R.In(s[i], a);
      if !R.In(Pages(q, q' - q), a) { assert R.In(t[i], a); }
    }
  }

  /** A page that is mapped stays mapped while another page's entry changes. */
  lemma StaysLive(mem: Memory, l1: nat, q: nat, vals: seq<nat>, j: nat)
    requires Tree(mem, l1, 1) && HasLeafTables(mem, l1, 1, PoolPage(q), |vals|) && |vals| == 1
    requires q < POOL_PAGES && j < POOL_PAGES && j != q && Live(mem, l1, PoolPage(j))
    ensures Live(WriteLeaves(mem, l1, 1, PoolPage(q), vals), l1, PoolPage(j))
  {
    forall i: nat | i < |vals|
      ensures !InPage(1, PoolPage(q), i, PoolPage(j))
    {
      OutsideRange(PoolPage(q), 1, q, j, i);
    }
    EntryElsewhere(mem, l1, PoolPage(q), vals, PoolPage(j));
  }

  ghost predicate LivePages(mem: Memory, l1: nat, from: nat, to: nat)
  {
    forall j: nat | from <= j < to :: Live(mem, l1, PoolPage(j))
  }

  /** Taking the lowest page of what is free from page i on. */
  lemma FirstGone(free: seq<R.Region>, free': seq<R.Region>, i: nat, va: nat)
    requires i + 1 < POOL_PAGES && free == From(i) && R.Compact(free') && Handed(free, free', va, 1)
    ensures va == PoolPage(i) && free' == From(i + 1)
  {
    FromCovers(i);
    FromCovers(i + 1);
    LowestIn(free, 0, i, 1);
    R.Canonical(free', From(i + 1));
  }

  /** Allocate the next page of a pool that is free from there on. */
  method TakePage(k: KvmAllocator, i: nat)
    requires k.Ready() && i < TAKEN && k.list.Regions() == From(i) && k.frames != [] && LivePages(k.m.words, k.l1, 0, i)
    modifies k, k.list, k.list.regions, k.m
    ensures k.Ready() && k.list.Regions() == From(i + 1) && k.frames == old(k.frames)[1..]
    ensures LivePages(k.m.words, k.l1, 0, i + 1)
  {
    ghost var mem, frames := k.m.words, k.frames;
    FromCovers(i);
    LowestIn(From(i), 0, i, 1);
    var r := k.Alloc(1);
    FirstGone(From(i), k.list.Regions(), i, r.va);
    OneMoreLive(mem, k.l1, i, frames, k.m.words);
  }

  lemma OneMoreLive(mem: Memory, l1: nat, i: nat, frames: seq<nat>, now: Memory)
    requires Tree(mem, l1, 1) && Installed(mem, l1, PoolPage(i), frames, 1, now) && i < TAKEN
    requires LivePages(mem, l1, 0, i)
    ensures LivePages(now, l1, 0, i + 1)
  {
    InstalledLive(mem, l1, PoolPage(i), frames, 1, now, 0);
    forall j: nat | j < i
      ensures Live(now, l1, PoolPage(j))
    {
      StaysLive(mem, l1, i, Entries(frames[..1]), j);
    }
  }

  /** Free page 2n, between two pages that stay mapped. */
  method FreePage(k: KvmAllocator, n: nat)
    requires k.Ready() && n < HOLES && k.list.Regions() == Comb(n, TAKEN) && LivePages(k.m.words, k.l1, 2 * n, TAKEN)
    modifies k, k.list, k.list.regions, k.m
    ensures k.Ready() && k.list.Regions() == Comb(n + 1, TAKEN) && |k.frames| == |old(k.frames)| + 1
    ensures LivePages(k.m.words, k.l1, 2 * n + 2, TAKEN)
  {
    ghost var mem := k.m.words;
    CombApart(n);
    k.Free(PoolPage(2 * n), 1);
    CombNext(n, k.list.Regions());
    ghost var yielded: seq<nat> :| |yielded| == 1 && |k.frames| == |old(k.frames)| + 1
                                   && Removed(mem, k.l1, PoolPage(2 * n), yielded, k.m.words);
    OthersLive(mem, k.l1, n, yielded, k.m.words);
  }

  lemma CombNext(n: nat, free: seq<R.Region>)
    requires n < HOLES && R.Compact(free) && Returned(Comb(n, TAKEN), free, PoolPage(2 * n), 1)
    ensures free == Comb(n + 1, TAKEN)
  {
    CombCompact(n, TAKEN);
    CombCompact(n + 1, TAKEN);
    forall a: nat
      ensures R.Covers(Comb(n + 1, TAKEN), a) <==> R.Covers(free, a)
    {
      CombGrows(n, a);
    }
    R.Canonical(free, Comb(n + 1, TAKEN));
  }

  /** No address of page 2n is free yet. */
  lemma CombApart(n: nat)
    requires n < HOLES
    ensures R.InPool(Pages(2 * n, 1)) && PoolPage(2 * n) % 4096 == 0
    ensures forall i: nat | i < 1 :: Page(PoolPage(2 * n), i) == PoolPage(2 * n)
    ensures !R.Overlaps(Comb(n, TAKEN), Pages(2 * n, 1))
  {
    forall a: nat, i: nat | i <= n && R.In(Comb(n, TAKEN)[i], a)
      ensures !R.In(Pages(2 * n, 1), a)
    {
    }
  }

  lemma OthersLive(mem: Memory, l1: nat, n: nat, yielded: seq<nat>, now: Memory)
    requires Tree(mem, l1, 1) && Removed(mem, l1, PoolPage(2 * n), yielded, now) && |yielded| == 1
    requires n < HOLES && LivePages(mem, l1, 2 * n, TAKEN)
    ensures LivePages(now, l1, 2 * n + 2, TAKEN)
  {
    forall j: nat | 2 * n + 2 <= j < TAKEN
      ensures Live(now, l1, PoolPage(j))
    {
      StaysLive(mem, l1, 2 * n, Zeros(1), j);
    }
  }

  /** Allocate the pages from i to 126. */
  method TakePages(k: KvmAllocator, i: nat)
    requires k.Ready() && i <= TAKEN && k.list.Regions() == From(i) && |k.frames| == TAKEN - i
    requires LivePages(k.m.words, k.l1, 0, i)
    modifies k, k.list, k.list.regions, k.m
    ensures k.Ready() && k.list.Regions() == From(TAKEN) && k.frames == []
    ensures LivePages(k.m.words, k.l1, 0, TAKEN)
    decreases TAKEN - i
  {
    if i < TAKEN {
      TakePage(k, i);
      TakePages(k, i + 1);
    }
  }

  /** Free every other page from 2n on. */
  method FreePages(k: KvmAllocator, n: nat)
    requires k.Ready() && n <= HOLES && k.list.Regions() == Comb(n, TAKEN) && |k.frames| == n
    requires LivePages(k.m.words, k.l1, 2 * n, TAKEN)
    modifies k, k.list, k.list.regions, k.m
    ensures k.Ready() && k.list.Regions() == Comb(HOLES, TAKEN) && |k.frames| == HOLES
    decreases HOLES - n
  {
    if n < HOLES {
      FreePage(k, n);
      FreePages(k, n + 1);
    }
  }

  /** Single pages in use between single free pages take all entries of the region table. */
  method FillTable(k: KvmAllocator)
    requires k.Ready() && k.list.Regions() == From(0) && |k.frames| == TAKEN
    modifies k, k.list, k.list.regions, k.m
    ensures k.Ready() && k.list.Regions() == Comb(HOLES, TAKEN) && |k.frames| == HOLES
  {
    TakePages(k, 0);
    CombNone();
    FreePages(k, 0);
  }

  lemma TailGone(free: seq<R.Region>)
    requires R.Compact(free) && FreeExcept(Comb(HOLES, TAKEN), free, Pages(TAKEN, 64))
    ensures free == Comb(HOLES, TAKEN + 64)
  {
    CombCompact(HOLES, TAKEN + 64);
    forall a: nat
      ensures R.Covers(Comb(HOLES, TAKEN + 64), a) <==> R.Covers(free, a)
    {
      CombShrinks(TAKEN, TAKEN + 64, a);
    }
    R.Canonical(free, Comb(HOLES, TAKEN + 64));
  }

  /** The table is full and its last region is larger than the range. */
  lemma LosesAll()
    ensures Lowest(Comb(HOLES, TAKEN), PoolPage(TAKEN), 64)
    ensures Lost(Comb(HOLES, TAKEN), PoolPage(TAKEN), 64, HOLES) == Pages(TAKEN, 64)
  {
    CombCompact(HOLES, TAKEN);
    LowestIn(Comb(HOLES, TAKEN), HOLES, TAKEN, 64);
    assert R.In(Comb(HOLES, TAKEN)[HOLES], PoolPage(TAKEN) + 64 * 4096);
  }

  method AskTooMuch(k: KvmAllocator) returns (r: KvmResult)
    requires k.Ready() && k.list.Regions() == Comb(HOLES, TAKEN) && |k.frames| == HOLES
    modifies k, k.list, k.list.regions, k.m
    ensures k.Ready() && r == OutOfPhysicalFrames && k.frames == old(k.frames)
    ensures k.list.Regions() == Comb(HOLES, TAKEN + 64)
  {
    LosesAll();
    r := k.Alloc(64);
    TailGone(k.list.Regions());
  }

  /** 126 single pages are allocated and every other one is freed, which fills the region table. Then 64 pages are
      asked with 63 frames left, and the addresses of all 64 are gone. */
  method LostRange(m: PhysMemory, l1: nat, frames: seq<nat>) returns (k: KvmAllocator, r: KvmResult)
    requires Tree(m.words, l1, 1) && FramesAligned(frames) && |frames| == TAKEN
    requires forall q: nat | q < POOL_PAGES :: Vacant(m.words, l1, PoolPage(q))
    modifies m
    ensures fresh(k) && k.Ready() && r == OutOfPhysicalFrames && |k.frames| == HOLES
    ensures k.list.Regions() == Comb(HOLES, TAKEN + 64)
  {
    k := Fresh(m, l1, frames);
    FillTable(k);
    r := AskTooMuch(k);
  }
}
