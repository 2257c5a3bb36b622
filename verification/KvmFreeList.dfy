/** Sorted lists of free regions, and the addresses that they cover. */
module KvmRegions {
  const POOL_BASE: nat := 0xFFFF_8000_0000_0000
  const USABLE_SIZE: nat := 0x4000_0000
  const USABLE_END: nat := POOL_BASE + USABLE_SIZE

  datatype Region = Region(start: nat, pages: nat)

  function End(r: Region): nat
  {
    r.start + r.pages * 4096
  }

  predicate In(r: Region, a: nat)
  {
    r.start <= a < End(r)
  }

  ghost predicate Covers(s: seq<Region>, a: nat)
  {
    exists i: nat :: i < |s| && In(s[i], a)
  }

  /** Some address of `r` is covered. */
  ghost predicate Overlaps(s: seq<Region>, r: Region)
  {
    exists a: nat :: In(r, a) && Covers(s, a)
  }

  ghost predicate CoversAll(s: seq<Region>, r: Region)
  {
    forall a: nat | In(r, a) :: Covers(s, a)
  }

  predicate InPool(r: Region)
  {
    0xFFFF_8000_0000_0000 <= r.start && End(r) <= 0xFFFF_8000_4000_0000
  }

  /** Nonempty regions of the pool in address order, with a gap between neighbours. */
  predicate Compact(s: seq<Region>)
  {
    && (forall i: nat | i < |s| :: s[i].pages > 0 && InPool(s[i]))
    && (forall i: nat, j: nat | i < j < |s| :: End(s[i]) < s[j].start)
  }

  /** A region ends, and starts, where coverage does. */
  lemma Edges(s: seq<Region>, i: nat)
    requires Compact(s) && i < |s|
    ensures Covers(s, s[i].start) && !Covers(s, End(s[i])) && !Covers(s, s[i].start - 1)
  {
    assert In(s[i], s[i].start);
    forall j: nat | j < |s|
      ensures !In(s[j], End(s[i])) && !In(s[j], s[i].start - 1)
    {
      if j < i {
      } else if i < j {
      }
    }
  }

  /** A covered range lies inside the region that holds its first address. */
  lemma InsideOne(s: seq<Region>, i: nat, r: Region)
    requires Compact(s) && i < |s| && In(s[i], r.start) && CoversAll(s, r)
    ensures End(r) <= End(s[i])
  {
    Edges(s, i);
    assert !In(r, End(s[i]));
  }

  /** The list is determined by the addresses it covers. */
  lemma {:induction false} Canonical(s: seq<Region>, t: seq<Region>)
    requires Compact(s) && Compact(t)
    requires forall a: nat :: Covers(s, a) <==> Covers(t, a)
    ensures s == t
    decreases |s|
  {
    if s == [] {
      if t != [] { Edges(t, 0); }
    } else {
      Edges(s, 0);
      assert t != [];
      Edges(t, 0);
      FirstIsLeast(s, t[0].start);
      FirstIsLeast(t, s[0].start);
      assert !In(t[0], End(s[0])) && !In(s[0], End(t[0]));
      assert s[0] == t[0];
      forall a: nat
        ensures Covers(s[1..], a) <==> Covers(t[1..], a)
      {
        Tail(s, a);
        Tail(t, a);
      }
      Canonical(s[1..], t[1..]);
      assert s == [s[0]] + s[1..] && t == [t[0]] + t[1..];
    }
  }

  lemma FirstIsLeast(s: seq<Region>, a: nat)
    requires Compact(s) && Covers(s, a)
    ensures s[0].start <= a
  {
    var i: nat :| i < |s| && In(s[i], a);
    if i > 0 { assert End(s[0]) < s[i].start; }
  }

  lemma Tail(s: seq<Region>, a: nat)
    requires Compact(s) && s != []
    ensures Covers(s[1..], a) <==> Covers(s, a) && !In(s[0], a)
  {
    if Covers(s[1..], a) {
      var i: nat :| i < |s[1..]| && In(s[1..][i], a);
      assert In(s[i + 1], a) && End(s[0]) < s[i + 1].start;
    }
    if Covers(s, a) && !In(s[0], a) {
      var i: nat :| i < |s| && In(s[i], a);
      assert In(s[1..][i - 1], a);
    }
  }

  /** Number of free pages. */
  function Total(s: seq<Region>): nat
  {
    if s == [] then 0 else Total(s[..|s| - 1]) + s[|s| - 1].pages
  }

  lemma {:induction false} TotalConcat(s: seq<Region>, t: seq<Region>)
    ensures Total(s + t) == Total(s) + Total(t)
    decreases |t|
  {
    if t == [] {
      assert s + t == s;
    } else {
      TotalConcat(s, t[..|t| - 1]);
      assert (s + t)[..|s + t| - 1] == s + t[..|t| - 1];
    }
  }

  predicate PageAligned(s: seq<Region>)
  {
    s == [] || (PageAligned(s[..|s| - 1]) && s[|s| - 1].start % 4096 == 0)
  }

  lemma {:induction false} AlignedConcat(s: seq<Region>, t: seq<Region>)
    ensures PageAligned(s + t) <==> PageAligned(s) && PageAligned(t)
    decreases |t|
  {
    if t == [] {
      assert s + t == s;
    } else {
      AlignedConcat(s, t[..|t| - 1]);
      assert (s + t)[..|s + t| - 1] == s + t[..|t| - 1];
    }
  }

  lemma AlignedAt(s: seq<Region>, i: nat)
    requires PageAligned(s) && i < |s|
    ensures s[i].start % 4096 == 0
  {
    assert s == s[..i + 1] + s[i + 1..];
    AlignedConcat(s[..i + 1], s[i + 1..]);
  }

  lemma AlignedOne(r: Region)
    ensures PageAligned([r]) <==> r.start % 4096 == 0
  {
    assert [r][..0] == [];
  }

  lemma SpliceAligned(s: seq<Region>, lo: nat, hi: nat, mid: seq<Region>)
    requires lo <= hi <= |s| && PageAligned(s) && PageAligned(mid)
    ensures PageAligned(Splice(s, lo, hi, mid))
  {
    assert s == s[..lo] + s[lo..] && s == s[..hi] + s[hi..];
    AlignedConcat(s[..lo], s[lo..]);
    AlignedConcat(s[..hi], s[hi..]);
    AlignedConcat(s[..lo], mid);
    AlignedConcat(s[..lo] + mid, s[hi..]);
  }

  /** Regions lo..hi replaced by `mid`. */
  function Splice(s: seq<Region>, lo: nat, hi: nat, mid: seq<Region>): seq<Region>
    requires lo <= hi <= |s|
  {
    s[..lo] + mid + s[hi..]
  }

  lemma CoversConcat(s: seq<Region>, t: seq<Region>, a: nat)
    ensures Covers(s + t, a) <==> Covers(s, a) || Covers(t, a)
  {
    if i: nat :| i < |s| && In(s[i], a) { assert In((s + t)[i], a); }
    if i: nat :| i < |t| && In(t[i], a) { assert In((s + t)[|s| + i], a); }
    if i: nat :| i < |s + t| && In((s + t)[i], a) {
      if i < |s| { assert In(s[i], a); } else { assert In(t[i - |s|], a); }
    }
  }

  /** A splice changes coverage by what it replaces. */
  lemma SpliceCovers(s: seq<Region>, lo: nat, hi: nat, mid: seq<Region>, a: nat)
    requires lo <= hi <= |s|
    ensures Covers(Splice(s, lo, hi, mid), a) <==> Covers(s[..lo], a) || Covers(mid, a) || Covers(s[hi..], a)
    ensures Covers(s, a) <==> Covers(s[..lo], a) || Covers(s[lo..hi], a) || Covers(s[hi..], a)
  {
    CoversConcat(s[..lo] + mid, s[hi..], a);
    CoversConcat(s[..lo], mid, a);
    CoversConcat(s[..lo] + s[lo..hi], s[hi..], a);
    CoversConcat(s[..lo], s[lo..hi], a);
    assert s == s[..lo] + s[lo..hi] + s[hi..];
  }

  lemma SpliceTotal(s: seq<Region>, lo: nat, hi: nat, mid: seq<Region>)
    requires lo <= hi <= |s|
    ensures Total(Splice(s, lo, hi, mid)) + Total(s[lo..hi]) == Total(s) + Total(mid)
  {
    assert s == s[..lo] + s[lo..hi] + s[hi..];
    TotalConcat(s[..lo] + mid, s[hi..]);
    TotalConcat(s[..lo], mid);
    TotalConcat(s[..lo] + s[lo..hi], s[hi..]);
    TotalConcat(s[..lo], s[lo..hi]);
  }

  lemma CompactConcat(s: seq<Region>, t: seq<Region>)
    requires Compact(s) && Compact(t)
    requires s != [] && t != [] ==> End(s[|s| - 1]) < t[0].start
    ensures Compact(s + t)
  {
    var u := s + t;
    forall i: nat, j: nat | i < j < |u|
      ensures End(u[i]) < u[j].start
    {
      if i < |s| <= j {
        assert End(s[i]) <= End(s[|s| - 1]) && t[0].start <= t[j - |s|].start;
      }
    }
  }

  lemma SpliceCompact(s: seq<Region>, lo: nat, hi: nat, r: Region)
    requires Compact(s) && lo <= hi <= |s| && r.pages > 0 && InPool(r)
    requires lo > 0 ==> End(s[lo - 1]) < r.start
    requires hi < |s| ==> End(r) < s[hi].start
    ensures Compact(Splice(s, lo, hi, [r]))
  {
    CompactConcat(s[..lo], [r]);
    CompactConcat(s[..lo] + [r], s[hi..]);
  }

  // ----- allocation -----

  /** What is left of a region after taking its first pages. */
  function Rest(r: Region, pages: nat): seq<Region>
    requires pages <= r.pages
  {
    if pages == r.pages then [] else [Region(r.start + pages * 4096, r.pages - pages)]
  }

  /** The list after taking the first `pages` pages of region i. */
  function Carve(s: seq<Region>, i: nat, pages: nat): seq<Region>
    requires i < |s| && pages <= s[i].pages
  {
    Splice(s, i, i + 1, Rest(s[i], pages))
  }

  lemma RestCovers(r: Region, pages: nat, a: nat)
    requires pages <= r.pages
    ensures Covers(Rest(r, pages), a) <==> In(r, a) && !In(Region(r.start, pages), a)
  {
    if pages < r.pages { One(Rest(r, pages)[0], a); }
  }

  lemma CarveCompact(s: seq<Region>, i: nat, pages: nat)
    requires Compact(s) && i < |s| && 0 < pages <= s[i].pages
    ensures Compact(Carve(s, i, pages))
  {
    if pages == s[i].pages {
      CompactConcat(s[..i], s[i + 1..]);
      assert Carve(s, i, pages) == s[..i] + s[i + 1..];
    } else {
      SpliceCompact(s, i, i + 1, Rest(s[i], pages)[0]);
    }
  }

  /** Exactly the carved addresses stop being covered. */
  lemma CarveCovers(s: seq<Region>, i: nat, pages: nat, a: nat)
    requires Compact(s) && i < |s| && 0 < pages <= s[i].pages
    ensures Covers(Carve(s, i, pages), a) <==> Covers(s, a) && !In(Region(s[i].start, pages), a)
  {
    var r := s[i];
    SpliceCovers(s, i, i + 1, Rest(r, pages), a);
    RestCovers(r, pages, a);
    assert s[i..i + 1] == [r];
    One(r, a);
    Alone(s, i, a);
  }

  lemma CarveTotal(s: seq<Region>, i: nat, pages: nat)
    requires i < |s| && pages <= s[i].pages
    ensures Total(Carve(s, i, pages)) + pages == Total(s)
  {
    SpliceTotal(s, i, i + 1, Rest(s[i], pages));
    assert s[i..i + 1] == [s[i]];
    OneTotal(s[i]);
    if pages < s[i].pages { OneTotal(Rest(s[i], pages)[0]); }
  }

  lemma PagesOn(a: nat, n: nat)
    ensures (a + n * 4096) % 4096 == a % 4096
  {
  }

  lemma CarveAligned(s: seq<Region>, i: nat, pages: nat)
    requires i < |s| && pages <= s[i].pages && PageAligned(s)
    ensures PageAligned(Carve(s, i, pages)) && s[i].start % 4096 == 0
  {
    AlignedAt(s, i);
    if pages < s[i].pages {
      PagesOn(s[i].start, pages);
      AlignedOne(Rest(s[i], pages)[0]);
    }
    SpliceAligned(s, i, i + 1, Rest(s[i], pages));
  }

  /** The list gets shorter exactly when the range takes a region to its end. */
  lemma CarveLength(s: seq<Region>, i: nat, pages: nat)
    requires Compact(s) && i < |s| && 0 < pages <= s[i].pages
    ensures |Carve(s, i, pages)| == if Covers(s, s[i].start + pages * 4096) then |s| else |s| - 1
  {
    if pages < s[i].pages {
      assert In(s[i], s[i].start + pages * 4096);
    } else {
      Edges(s, i);
    }
  }

  /** An address lies in one region only. */
  lemma Alone(s: seq<Region>, i: nat, a: nat)
    requires Compact(s) && i < |s|
    ensures In(s[i], a) ==> !Covers(s[..i], a) && !Covers(s[i + 1..], a)
  {
    if In(s[i], a) {
      var before, after := s[..i], s[i + 1..];
      assert forall j: nat | j < |before| :: !In(before[j], a);
      assert forall j: nat | j < |after| :: !In(after[j], a);
    }
  }

  lemma One(r: Region, a: nat)
    ensures Covers([r], a) <==> In(r, a)
  {
    if In(r, a) { assert In([r][0], a); }
  }

  lemma OneTotal(r: Region)
    ensures Total([r]) == r.pages
  {
    assert [r][..0] == [];
  }

  lemma AtMostOneTotal(s: seq<Region>, lo: nat, hi: nat)
    requires lo <= hi <= |s| && hi <= lo + 1
    ensures Total(s[lo..hi]) == if lo == hi then 0 else s[lo].pages
  {
    if lo < hi {
      assert s[lo..hi] == [s[lo]];
      OneTotal(s[lo]);
    }
  }

  // ----- freeing -----

  /** k is where a region starting at `start` belongs. */
  predicate Slot(s: seq<Region>, k: nat, start: nat)
  {
    && k <= |s|
    && (forall i: nat | i < k :: s[i].start <= start)
    && (forall i: nat | k <= i < |s| :: start < s[i].start)
  }

  /** The neighbours of the slot leave room for r. */
  predicate Room(s: seq<Region>, k: nat, r: Region)
    requires k <= |s|
  {
    (k > 0 ==> End(s[k - 1]) <= r.start) && (k < |s| ==> End(r) <= s[k].start)
  }

  /** Looking at the two neighbours is enough to see every overlap. */
  lemma RoomMeansDisjoint(s: seq<Region>, k: nat, r: Region)
    requires Compact(s) && Slot(s, k, r.start) && r.pages > 0
    ensures Room(s, k, r) <==> !Overlaps(s, r)
  {
    if k > 0 && End(s[k - 1]) > r.start {
      assert In(s[k - 1], r.start) && In(r, r.start);
      assert Covers(s, r.start);
    }
    if k < |s| && End(r) > s[k].start {
      assert In(s[k], s[k].start) && In(r, s[k].start);
      assert Covers(s, s[k].start);
    }
    if Room(s, k, r) {
      forall i: nat, a: nat | i < |s| && In(r, a)
        ensures !In(s[i], a)
      {
        if i < k {
          assert End(s[i]) <= End(s[k - 1]);
        } else {
          assert s[k].start <= s[i].start;
        }
      }
    }
  }

  predicate TouchesPrev(s: seq<Region>, k: nat, r: Region)
    requires k <= |s|
  {
    k > 0 && End(s[k - 1]) == r.start
  }

  predicate TouchesNext(s: seq<Region>, k: nat, r: Region)
    requires k <= |s|
  {
    k < |s| && s[k].start == End(r)
  }

  /** The regions from Lo to Hi are the neighbours that r joins. */
  function Lo(s: seq<Region>, k: nat, r: Region): (lo: nat)
    requires k <= |s|
    ensures lo <= k <= lo + 1
  {
    if TouchesPrev(s, k, r) then k - 1 else k
  }

  function Hi(s: seq<Region>, k: nat, r: Region): (hi: nat)
    requires k <= |s|
    ensures k <= hi <= k + 1 && hi <= |s|
  {
    if TouchesNext(s, k, r) then k + 1 else k
  }

  /** r together with the neighbours it touches. */
  function Joined(s: seq<Region>, k: nat, r: Region): Region
    requires k <= |s|
  {
    var before := if TouchesPrev(s, k, r) then s[k - 1].pages else 0;
    var after := if TouchesNext(s, k, r) then s[k].pages else 0;
    Region(if TouchesPrev(s, k, r) then s[k - 1].start else r.start, before + r.pages + after)
  }

  /** The list after giving back r at slot k. */
  function Merged(s: seq<Region>, k: nat, r: Region): seq<Region>
    requires k <= |s|
  {
    Splice(s, Lo(s, k, r), Hi(s, k, r), [Joined(s, k, r)])
  }

  lemma MergedCompact(s: seq<Region>, k: nat, r: Region)
    requires Compact(s) && Slot(s, k, r.start) && Room(s, k, r) && r.pages > 0 && InPool(r)
    ensures Compact(Merged(s, k, r))
  {
    var lo, hi, r' := Lo(s, k, r), Hi(s, k, r), Joined(s, k, r);
    assert r'.pages > 0 && InPool(r');
    SpliceCompact(s, lo, hi, r');
  }

  /** Exactly the addresses of r become covered. */
  lemma MergedCovers(s: seq<Region>, k: nat, r: Region, a: nat)
    requires k <= |s|
    ensures Covers(Merged(s, k, r), a) <==> Covers(s, a) || In(r, a)
  {
    var lo, hi, r' := Lo(s, k, r), Hi(s, k, r), Joined(s, k, r);
    SpliceCovers(s, lo, hi, [r'], a);
    One(r', a);
    assert s[lo..hi] == s[lo..k] + s[k..hi];
    CoversConcat(s[lo..k], s[k..hi], a);
    if lo < k {
      assert s[lo..k] == [s[k - 1]];
      One(s[k - 1], a);
    }
    if k < hi {
      assert s[k..hi] == [s[k]];
      One(s[k], a);
    }
  }

  lemma AroundTotal(s: seq<Region>, lo: nat, k: nat, hi: nat)
    requires lo <= k <= hi <= |s| && k <= lo + 1 && hi <= k + 1
    ensures Total(s[lo..hi]) == (if lo == k then 0 else s[lo].pages) + (if k == hi then 0 else s[k].pages)
  {
    assert s[lo..hi] == s[lo..k] + s[k..hi];
    TotalConcat(s[lo..k], s[k..hi]);
    AtMostOneTotal(s, lo, k);
    AtMostOneTotal(s, k, hi);
  }

  lemma MergedTotal(s: seq<Region>, k: nat, r: Region)
    requires k <= |s|
    ensures Total(Merged(s, k, r)) == Total(s) + r.pages
  {
    var lo, hi, r' := Lo(s, k, r), Hi(s, k, r), Joined(s, k, r);
    SpliceTotal(s, lo, hi, [r']);
    OneTotal(r');
    AroundTotal(s, lo, k, hi);
    JoinedPages(s, k, r);
  }

  lemma JoinedPages(s: seq<Region>, k: nat, r: Region)
    requires k <= |s|
    ensures var lo, hi := Lo(s, k, r), Hi(s, k, r);
            Joined(s, k, r).pages
            == r.pages + ((if lo == k then 0 else s[lo].pages) + (if k == hi then 0 else s[k].pages))
  {
  }

  lemma MergedAligned(s: seq<Region>, k: nat, r: Region)
    requires k <= |s| && PageAligned(s) && r.start % 4096 == 0
    ensures PageAligned(Merged(s, k, r))
  {
    var lo, hi, r' := Lo(s, k, r), Hi(s, k, r), Joined(s, k, r);
    if lo < k { AlignedAt(s, lo); }
    AlignedOne(r');
    SpliceAligned(s, lo, hi, [r']);
  }

  /** What giving back r at its slot does to the list. */
  lemma MergedGives(s: seq<Region>, k: nat, r: Region)
    requires Compact(s) && Slot(s, k, r.start) && Room(s, k, r) && r.pages > 0 && InPool(r)
    ensures Compact(Merged(s, k, r)) && Total(Merged(s, k, r)) == Total(s) + r.pages
    ensures PageAligned(s) && r.start % 4096 == 0 ==> PageAligned(Merged(s, k, r))
    ensures forall a: nat :: Covers(Merged(s, k, r), a) <==> Covers(s, a) || In(r, a)
  {
    MergedCompact(s, k, r);
    MergedTotal(s, k, r);
    if PageAligned(s) && r.start % 4096 == 0 { MergedAligned(s, k, r); }
    forall a: nat
      ensures Covers(Merged(s, k, r), a) <==> Covers(s, a) || In(r, a)
    {
      MergedCovers(s, k, r, a);
    }
  }

  /** Nothing next to r is free. */
  ghost predicate Isolated(s: seq<Region>, r: Region)
    requires r.start > 0
  {
    !Covers(s, r.start - 1) && !Covers(s, End(r))
  }

  /** A merge happens exactly when a neighbouring address is free. */
  lemma TouchMeaning(s: seq<Region>, k: nat, r: Region)
    requires Compact(s) && Slot(s, k, r.start) && Room(s, k, r) && r.pages > 0 && r.start > 0
    ensures !TouchesPrev(s, k, r) && !TouchesNext(s, k, r) <==> Isolated(s, r)
  {
    if TouchesPrev(s, k, r) { assert In(s[k - 1], r.start - 1); }
    if TouchesNext(s, k, r) { assert In(s[k], End(r)); }
    if i: nat :| i < |s| && In(s[i], r.start - 1) {
      assert i < k;
      if i < k - 1 { assert End(s[i]) < s[k - 1].start; }
    }
    if i: nat :| i < |s| && In(s[i], End(r)) {
      assert i >= k;
      if k < i { assert s[k].start < End(s[k]) < s[i].start; }
    }
  }
}

/** First-fit allocation of kernel virtual ranges over a fixed table of free regions. */
module KvmFreeList {
  import opened KvmRegions

  const MAX_REGIONS: nat := 64

  datatype AllocResult = Base(va: nat) | OutOfVirtualMemory

  /** Overflow: the end of the range does not fit in 64 bits. */
  datatype FreeResult = Freed | RegionTableFull | DoubleFree | OutOfPool | Overflow

  class FreeList {
    const regions: array<Region>
    var count: nat

    ghost predicate Valid()
      reads this, regions
    {
      regions.Length == MAX_REGIONS && count <= MAX_REGIONS && Compact(regions[..count])
    }

    ghost function Regions(): seq<Region>
      requires Valid()
      reads this, regions
    {
      regions[..count]
    }

    constructor ()
      ensures Valid() && fresh(regions)
      ensures forall a: nat :: Covers(Regions(), a) <==> 0xFFFF_8000_0000_0000 <= a < 0xFFFF_8000_4000_0000
      ensures Total(Regions()) == 0x4_0000 && PageAligned(Regions())
    {
      regions := new Region[MAX_REGIONS](_ => Region(POOL_BASE, 0));
      count := 1;
      new;
      var whole := Region(POOL_BASE, USABLE_SIZE / 4096);
      regions[0] := whole;
      assert regions[..count] == [whole];
      OneTotal(whole);
      AlignedOne(whole);
      forall a: nat
        ensures Covers(Regions(), a) <==> POOL_BASE <= a < USABLE_END
      {
        One(whole, a);
      }
    }

    /** Close the gap left by region i. */
    method RemoveAt(i: nat)
      requires i < count <= regions.Length
      modifies this, regions
      ensures count == old(count) - 1 && regions[..count] == old(regions[..i] + regions[i + 1..count])
    {
      for j := i to count - 1
        invariant count == old(count) && regions[..i] == old(regions[..i])
        invariant regions[i..j] == old(regions[i + 1..j + 1])
        invariant regions[j..] == old(regions[j..])
      {
        assert regions[j + 1] == regions[j..][1] == old(regions[j..])[1] == old(regions[j + 1]);
        regions[j] := regions[j + 1];
        assert regions[j + 1..] == regions[j..][1..];
        assert old(regions[i + 1..j + 2]) == old(regions[i + 1..j + 1]) + [old(regions[j + 1])];
      }
      count := count - 1;
      assert regions[..count] == regions[..i] + regions[i..count];
    }

    /** Move the regions from k on up by one. */
    method ShiftUp(k: nat)
      requires k <= count < regions.Length
      modifies regions
      ensures regions[..k] == old(regions[..k]) && regions[k + 1..count + 1] == old(regions[k..count])
    {
      for j := count downto k
        invariant regions[..k] == old(regions[..k])
        invariant forall i: nat | k <= i <= j && i < regions.Length :: regions[i] == old(regions[i])
        invariant forall i: nat | j < i <= count :: regions[i] == old(regions[i - 1])
      {
        regions[j + 1] := regions[j];
      }
    }

    /** Make room at k and put r there. */
    method InsertAt(k: nat, r: Region)
      requires k <= count < regions.Length
      modifies this, regions
      ensures count == old(count) + 1 && regions[..count] == old(regions[..k]) + [r] + old(regions[k..count])
    {
      ShiftUp(k);
      regions[k] := r;
      count := count + 1;
      assert regions[..count] == regions[..k] + [r] + regions[k + 1..count];
    }

    /** Take the first pages of region i. */
    method CarveAt(i: nat, pages: nat)
      requires Valid() && i < count && 0 < pages <= regions[i].pages
      modifies this, regions
      ensures Valid() && Regions() == Carve(old(Regions()), i, pages)
    {
      CarveCompact(Regions(), i, pages);
      var r := regions[i];
      if r.pages == pages {
        RemoveAt(i);
      } else {
        regions[i] := Region(r.start + pages * 4096, r.pages - pages);
      }
      assert regions[..count] == Carve(old(Regions()), i, pages);
    }

    /** The lowest free range of that many pages. */
    method TryAlloc(pages: nat) returns (r: AllocResult)
      requires Valid()
      modifies this, regions
      ensures Valid()
      ensures r.Base? ==> Taken(old(Regions()), Regions(), r.va, pages)
      ensures PageAligned(old(Regions())) ==> PageAligned(Regions()) && (r.Base? ==> r.va % 4096 == 0)
      ensures r.OutOfVirtualMemory? <==>
        (pages == 0 || forall a: nat :: !CoversAll(old(Regions()), Region(a, pages)))
      ensures r.OutOfVirtualMemory? ==> Regions() == old(Regions())
    {
      if pages == 0 { return OutOfVirtualMemory; }
      ghost var before := Regions();
      for i := 0 to count
        invariant Valid() && Regions() == before && count == |before|
        invariant forall j: nat | j < i :: before[j].pages < pages
      {
        if regions[i].pages >= pages {
          CarveTakes(before, i, pages);
          if PageAligned(before) { CarveAligned(before, i, pages); }
          var base := regions[i].start;
          CarveAt(i, pages);
          return Base(base);
        }
      }
      NoFit(before, pages);
      return OutOfVirtualMemory;
    }

    /** Where a region with this start belongs. */
    method FindSlot(start: nat) returns (k: nat)
      requires Valid()
      ensures Slot(Regions(), k, start)
    {
      k := count;
      for i := 0 to count
        invariant k == count && forall j: nat | j < i :: regions[j].start <= start
      {
        if regions[i].start > start {
          k := i;
          break;
        }
      }
    }

    /** Replace regions k - 1 and k by one. */
    method JoinTwo(k: nat, both: Region)
      requires 0 < k < count <= regions.Length
      modifies this, regions
      ensures count <= regions.Length && regions[..count] == Splice(old(regions[..count]), k - 1, k + 1, [both])
    {
      ghost var before := regions[..count];
      regions[k - 1] := both;
      assert regions[..k] == before[..k - 1] + [both];
      assert regions[k + 1..count] == before[k + 1..];
      RemoveAt(k);
    }

    /** Extend region k - 1 over r, and over region k when they now touch. */
    method JoinPrev(k: nat, r: Region)
      requires Valid() && 0 < k <= count && TouchesPrev(Regions(), k, r)
      modifies this, regions
      ensures count <= regions.Length && regions[..count] == Merged(old(Regions()), k, r)
    {
      var prev := Region(regions[k - 1].start, regions[k - 1].pages + r.pages);
      if k < count && regions[k].start == End(prev) {
        JoinTwo(k, Region(prev.start, prev.pages + regions[k].pages));
      } else {
        ghost var before := Regions();
        regions[k - 1] := prev;
        assert regions[..count] == before[..k - 1] + [prev] + before[k..];
      }
    }

    /** Join r with the neighbours it touches, or insert it; false when the table is full. */
    method MergeAt(k: nat, r: Region) returns (ok: bool)
      requires Valid() && k <= count && Compact(Merged(Regions(), k, r))
      modifies this, regions
      ensures Valid()
      ensures ok ==> Regions() == Merged(old(Regions()), k, r)
      ensures !ok ==> Regions() == old(Regions())
      ensures !ok <==> |old(Regions())| == MAX_REGIONS
                       && !TouchesPrev(old(Regions()), k, r) && !TouchesNext(old(Regions()), k, r)
    {
      ghost var before := Regions();
      if k > 0 && End(regions[k - 1]) == r.start {
        JoinPrev(k, r);
        return true;
      }
      if k < count && regions[k].start == End(r) {
        regions[k] := Region(r.start, r.pages + regions[k].pages);
        assert regions[..count] == Merged(before, k, r);
        return true;
      }
      if count >= MAX_REGIONS { return false; }
      InsertAt(k, r);
      assert regions[..count] == Merged(before, k, r);
      ok := true;
    }

    /** Give a range back. Errors are told apart exactly, and change nothing. */
    method Free(start: nat, pages: nat) returns (r: FreeResult)
      requires Valid()
      modifies this, regions
      ensures Valid()
      ensures var g := Region(start, pages);
              && (r == Overflow <==> pages > 0 && End(g) >= 0x1_0000_0000_0000_0000)
              && (r == OutOfPool <==> pages > 0 && End(g) < 0x1_0000_0000_0000_0000 && !InPool(g))
              && (r == DoubleFree <==> pages > 0 && InPool(g) && Overlaps(old(Regions()), g))
              && (r == RegionTableFull <==> pages > 0 && InPool(g) && !Overlaps(old(Regions()), g)
                                            && |old(Regions())| == 64 && Isolated(old(Regions()), g))
      ensures r != Freed ==> Regions() == old(Regions())
      ensures r == Freed ==>
        forall a: nat :: Covers(Regions(), a) <==> Covers(old(Regions()), a) || In(Region(start, pages), a)
      ensures r == Freed ==> Total(Regions()) == old(Total(Regions())) + pages
      ensures PageAligned(old(Regions())) && start % 4096 == 0 ==> PageAligned(Regions())
    {
      if pages == 0 { return Freed; }
      var g := Region(start, pages);
      if End(g) >= 0x1_0000_0000_0000_0000 { return Overflow; }
      if start < POOL_BASE || End(g) > USABLE_END { return OutOfPool; }
      ghost var before := Regions();
      var k := FindSlot(start);
      RoomMeansDisjoint(before, k, g);
      if k > 0 && End(regions[k - 1]) > start { return DoubleFree; }
      if k < count && End(g) > regions[k].start { return DoubleFree; }
      MergedGives(before, k, g);
      TouchMeaning(before, k, g);
      var ok := MergeAt(k, g);
      r := if ok then Freed else RegionTableFull;
    }
  }

  /** From s to s', exactly the lowest range of that many pages was taken. */
  ghost predicate Taken(s: seq<Region>, s': seq<Region>, va: nat, pages: nat)
  {
    && InPool(Region(va, pages)) && CoversAll(s, Region(va, pages))
    && (forall a: nat | CoversAll(s, Region(a, pages)) :: va <= a)
    && (forall a: nat :: Covers(s', a) <==> Covers(s, a) && !In(Region(va, pages), a))
    && Total(s') + pages == Total(s)
    && |s'| == if Covers(s, End(Region(va, pages))) then |s| else |s| - 1
  }

  lemma CarveTakes(s: seq<Region>, i: nat, pages: nat)
    requires Compact(s) && i < |s| && 0 < pages <= s[i].pages
    requires forall j: nat | j < i :: s[j].pages < pages
    ensures Taken(s, Carve(s, i, pages), s[i].start, pages)
  {
    FirstFit(s, i, pages);
    forall a: nat
      ensures Covers(Carve(s, i, pages), a) <==> Covers(s, a) && !In(Region(s[i].start, pages), a)
    {
      CarveCovers(s, i, pages, a);
    }
    CarveTotal(s, i, pages);
    CarveLength(s, i, pages);
  }

  /** The first region that is large enough starts the lowest range that fits. */
  lemma FirstFit(s: seq<Region>, i: nat, pages: nat)
    requires Compact(s) && i < |s| && 0 < pages <= s[i].pages
    requires forall j: nat | j < i :: s[j].pages < pages
    ensures CoversAll(s, Region(s[i].start, pages)) && InPool(Region(s[i].start, pages))
    ensures forall a: nat | CoversAll(s, Region(a, pages)) :: s[i].start <= a
  {
    forall a: nat | In(Region(s[i].start, pages), a)
      ensures Covers(s, a)
    {
      assert In(s[i], a);
    }
    forall a: nat | CoversAll(s, Region(a, pages))
      ensures s[i].start <= a
    {
      var j := Holds(s, a, pages);
      if i < j { assert End(s[i]) < s[j].start; }
    }
  }

  /** A covered range lies in one region, which is large enough for it. */
  lemma Holds(s: seq<Region>, a: nat, pages: nat) returns (j: nat)
    requires Compact(s) && pages > 0 && CoversAll(s, Region(a, pages))
    ensures j < |s| && s[j].start <= a && pages <= s[j].pages
  {
    assert In(Region(a, pages), a);
    j :| j < |s| && In(s[j], a);
    InsideOne(s, j, Region(a, pages));
  }

  lemma NoFit(s: seq<Region>, pages: nat)
    requires Compact(s) && pages > 0 && forall j: nat | j < |s| :: s[j].pages < pages
    ensures forall a: nat :: !CoversAll(s, Region(a, pages))
  {
    forall a: nat
      ensures !CoversAll(s, Region(a, pages))
    {
      if CoversAll(s, Region(a, pages)) {
        var j := Holds(s, a, pages);
        assert false;
      }
    }
  }

  /** Giving back what was just allocated always succeeds and restores the table itself. */
  method AllocThenFree(list: FreeList, pages: nat) returns (r: AllocResult, f: FreeResult)
    requires list.Valid()
    modifies list, list.regions
    ensures list.Valid() && list.Regions() == old(list.Regions())
    ensures r.Base? ==> f == Freed
  {
    ghost var before := list.Regions();
    r := list.TryAlloc(pages);
    if r.OutOfVirtualMemory? { return r, Freed; }
    ghost var after := list.Regions();
    var g := Region(r.va, pages);
    assert !Overlaps(after, g);
    f := list.Free(r.va, pages);
    if f == Freed {
      Canonical(list.Regions(), before);
    }
  }
}
