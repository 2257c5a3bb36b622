/** How the per-order bitmaps are laid out in one flat byte array. */
module BuddyLayout {
  import opened Powers
  import opened ByteBits
  import opened BuddyBlocks

  /** Bytes of the order-k bitmap of an allocator with 2^maxOrder pages. */
  function BytesFor(maxOrder: nat, k: nat): nat
    requires k <= maxOrder
  {
    (Pow2(maxOrder - k) + 7) / 8
  }

  /** Byte offset at which the order-k bitmap starts. */
  function Offset(maxOrder: nat, k: nat): nat
    requires k <= maxOrder + 1
  {
    if k == 0 then 0 else Offset(maxOrder, k - 1) + BytesFor(maxOrder, k - 1)
  }

  lemma {:induction false} OffsetMonotone(maxOrder: nat, j: nat, k: nat)
    requires j < k <= maxOrder + 1
    ensures Offset(maxOrder, j) + BytesFor(maxOrder, j) <= Offset(maxOrder, k)
    decreases k
  {
    if j < k - 1 { OffsetMonotone(maxOrder, j, k - 1); }
  }

  /** Bit position of block (k, i) in the flat array. */
  function Pos(maxOrder: nat, k: nat, i: nat): (pos: nat)
    requires k <= maxOrder && i < 8 * BytesFor(maxOrder, k)
    ensures pos < 8 * Offset(maxOrder, maxOrder + 1)
  {
    OffsetMonotone(maxOrder, k, maxOrder + 1);
    8 * Offset(maxOrder, k) + i
  }

  /** Distinct blocks never share a bit. */
  lemma PosInjective(maxOrder: nat, k: nat, i: nat, m: nat, j: nat)
    requires k <= maxOrder && i < 8 * BytesFor(maxOrder, k)
    requires m <= maxOrder && j < 8 * BytesFor(maxOrder, m)
    requires Pos(maxOrder, k, i) == Pos(maxOrder, m, j)
    ensures k == m && i == j
  {
    if k < m { OffsetMonotone(maxOrder, k, m); }
    if m < k { OffsetMonotone(maxOrder, m, k); }
  }

  /** Every bit of the array belongs to some order. */
  lemma {:induction false} PosSurjective(maxOrder: nat, top: nat, q: nat) returns (k: nat, i: nat)
    requires top <= maxOrder + 1
    requires q < 8 * Offset(maxOrder, top)
    ensures k < top && i < 8 * BytesFor(maxOrder, k) && Pos(maxOrder, k, i) == q
    decreases top
  {
    if q < 8 * Offset(maxOrder, top - 1) {
      k, i := PosSurjective(maxOrder, top - 1, q);
    } else {
      k, i := top - 1, q - 8 * Offset(maxOrder, top - 1);
    }
  }

  /** The bitmaps hold exactly the maximal free blocks of `free`. */
  ghost predicate Represents(bytes: seq<bv8>, maxOrder: nat, free: set<nat>)
  {
    && |bytes| == Offset(maxOrder, maxOrder + 1)
    && forall k: nat, i: nat | k <= maxOrder && i < 8 * BytesFor(maxOrder, k) ::
         Get(bytes, Pos(maxOrder, k, i)) <==> Maximal(free, maxOrder, k, i)
  }

  /** The page bitmap holds exactly the pages of `pages`. */
  ghost predicate Marks(bytes: seq<bv8>, maxOrder: nat, pages: set<nat>)
  {
    && |bytes| == (Pow2(maxOrder) + 7) / 8
    && forall p: nat | p < 8 * |bytes| :: Get(bytes, p) <==> p in pages
  }

  /** The free set fixes every byte of the free-block bitmaps. */
  lemma BitmapIsFunctionOfFreeSet(a: seq<bv8>, b: seq<bv8>, maxOrder: nat, free: set<nat>)
    requires Represents(a, maxOrder, free) && Represents(b, maxOrder, free)
    ensures a == b
  {
    forall q: nat | q < 8 * |a|
      ensures Get(a, q) == Get(b, q)
    {
      var k, i := PosSurjective(maxOrder, maxOrder + 1, q);
      assert Pos(maxOrder, k, i) == q;
    }
    BitsDetermineBytes(a, b);
  }

  /** Conversely the bitmaps fix the free set. */
  lemma FreeSetIsFunctionOfBitmap(bytes: seq<bv8>, maxOrder: nat, f: set<nat>, g: set<nat>)
    requires Represents(bytes, maxOrder, f) && Represents(bytes, maxOrder, g)
    requires forall p | p in f :: p < Pow2(maxOrder)
    requires forall p | p in g :: p < Pow2(maxOrder)
    ensures f == g
  {
    forall p: nat
      ensures p in f <==> p in g
    {
      if p in f { CoveredByBoth(bytes, maxOrder, f, g, p); }
      if p in g { CoveredByBoth(bytes, maxOrder, g, f, p); }
    }
  }

  lemma CoveredByBoth(bytes: seq<bv8>, maxOrder: nat, f: set<nat>, g: set<nat>, p: nat)
    requires Represents(bytes, maxOrder, f) && Represents(bytes, maxOrder, g)
    requires p in f && p < Pow2(maxOrder)
    ensures p in g
  {
    FreeIffCovered(f, maxOrder, p);
    var k: nat :| k <= maxOrder && Maximal(f, maxOrder, k, Idx(p, k));
    IdxFits(p, maxOrder, k);
    assert Get(bytes, Pos(maxOrder, k, Idx(p, k)));
    assert Maximal(g, maxOrder, k, Idx(p, k));
  }

  /** A page below 2^maxOrder has its block index inside the order-k bitmap. */
  lemma IdxFits(p: nat, maxOrder: nat, k: nat)
    requires p < Pow2(maxOrder) && k <= maxOrder
    ensures Idx(p, k) < Pow2(maxOrder - k) <= 8 * BytesFor(maxOrder, k)
  {
    IdxBounds(p, k);
    Pow2Sum(maxOrder - k, k);
    if Idx(p, k) >= Pow2(maxOrder - k) { MulLe(Pow2(maxOrder - k), Idx(p, k), Pow2(k)); }
  }

  /** A block wholly below `total` has an index below `total >> k`, and conversely. */
  lemma BlockCount(total: nat, k: nat, i: nat)
    ensures i < Idx(total, k) <==> (i + 1) * Pow2(k) <= total
  {
    IdxBounds(total, k);
    if i < Idx(total, k) { MulLe(i + 1, Idx(total, k), Pow2(k)); }
    else { MulLe(Idx(total, k) + 1, i + 1, Pow2(k)); }
  }

  lemma MarksUnique(a: seq<bv8>, b: seq<bv8>, maxOrder: nat, pages: set<nat>)
    requires Marks(a, maxOrder, pages) && Marks(b, maxOrder, pages)
    ensures a == b
  {
    BitsDetermineBytes(a, b);
  }

  lemma MarksClear(bytes: seq<bv8>, maxOrder: nat, pages: set<nat>, p: nat)
    requires Marks(bytes, maxOrder, pages) && p < Pow2(maxOrder)
    ensures p < 8 * |bytes| && Marks(Clear(bytes, p), maxOrder, pages - {p})
  {
    ClearGet(bytes, p);
  }

  lemma SetRepresents(bytes: seq<bv8>, maxOrder: nat, free: set<nat>, k: nat, i: nat)
    requires Represents(bytes, maxOrder, free)
    requires k <= maxOrder && i < 8 * BytesFor(maxOrder, k)
    requires NoneFree(free, k, i)
    requires k < maxOrder ==> !AllFree(free, k, Buddy(i))
    ensures Represents(Set(bytes, Pos(maxOrder, k, i)), maxOrder, free + Block(k, i))
  {
    var pos := Pos(maxOrder, k, i);
    var bytes' := Set(bytes, pos);
    SetGet(bytes, pos);
    forall m: nat, j: nat | m <= maxOrder && j < 8 * BytesFor(maxOrder, m)
      ensures Get(bytes', Pos(maxOrder, m, j)) <==> Maximal(free + Block(k, i), maxOrder, m, j)
    {
      AddBlock(free, maxOrder, k, i, m, j);
      if Pos(maxOrder, m, j) == pos { PosInjective(maxOrder, k, i, m, j); }
    }
  }

  lemma ClearRepresents(bytes: seq<bv8>, maxOrder: nat, free: set<nat>, k: nat, i: nat)
    requires Represents(bytes, maxOrder, free)
    requires k <= maxOrder && i < 8 * BytesFor(maxOrder, k)
    requires Maximal(free, maxOrder, k, i)
    ensures Represents(Clear(bytes, Pos(maxOrder, k, i)), maxOrder, free - Block(k, i))
  {
    var pos := Pos(maxOrder, k, i);
    var bytes' := Clear(bytes, pos);
    ClearGet(bytes, pos);
    forall m: nat, j: nat | m <= maxOrder && j < 8 * BytesFor(maxOrder, m)
      ensures Get(bytes', Pos(maxOrder, m, j)) <==> Maximal(free - Block(k, i), maxOrder, m, j)
    {
      RemoveBlock(free, maxOrder, k, i, m, j);
      if Pos(maxOrder, m, j) == pos { PosInjective(maxOrder, k, i, m, j); }
    }
  }

  /** A maximal block of pages below `total` lies below `total`, so its index fits everywhere. */
  lemma FreeBlockFits(free: set<nat>, total: nat, maxOrder: nat, k: nat, i: nat)
    requires k <= maxOrder && total <= Pow2(maxOrder)
    requires forall p | p in free :: p < total
    requires AllFree(free, k, i)
    ensures i < Idx(total, k) && i < 8 * BytesFor(maxOrder, k) && (i + 1) * Pow2(k) <= total
  {
    LastPage(k, i);
    var last := (i + 1) * Pow2(k) - 1;
    assert last in free;
    BlockCount(total, k, i);
    IdxFits(last, maxOrder, k);
  }

  lemma LastPage(k: nat, i: nat)
    ensures (i + 1) * Pow2(k) >= 1
    ensures Idx((i + 1) * Pow2(k) - 1, k) == i
  {
    assert (i + 1) * Pow2(k) == i * Pow2(k) + Pow2(k);
    IdxRange((i + 1) * Pow2(k) - 1, k, i);
  }

  /** A block below `total` that has no free page: adding it adds 2^k pages below `total`. */
  lemma AddSize(free: set<nat>, total: nat, maxOrder: nat, k: nat, i: nat)
    requires k <= maxOrder && total <= Pow2(maxOrder)
    requires First(k, i + 1) <= total
    requires NoneFree(free, k, i)
    requires forall p | p in free :: p < total
    ensures i < 8 * BytesFor(maxOrder, k)
    ensures forall p | p in free + Block(k, i) :: p < total
    ensures Count(free + Block(k, i), total) == Count(free, total) + Pow2(k)
  {
    LastPage(k, i);
    FirstIsProduct(k, i + 1);
    IdxFits((i + 1) * Pow2(k) - 1, maxOrder, k);
    forall p | p in Block(k, i)
      ensures p < total && p !in free
    {
      InBlock(p, k, i);
      IdxRange(p, k, i);
    }
    BlockSize(k, i);
    assert free !! Block(k, i);
    CountAll(free, total);
    CountAll(free + Block(k, i), total);
  }

  lemma RemoveSize(free: set<nat>, total: nat, k: nat, i: nat)
    requires Block(k, i) <= free
    requires forall p | p in free :: p < total
    ensures Count(free - Block(k, i), total) == Count(free, total) - Pow2(k)
  {
    BlockSize(k, i);
    CountAll(free, total);
    CountAll(free - Block(k, i), total);
    assert |free - Block(k, i)| == |free| - |Block(k, i)|;
  }

  /** Which blocks the n-th byte of an order's bitmap stands for. */
  lemma BitsOfByte(bytes: seq<bv8>, maxOrder: nat, k: nat, n: nat)
    requires |bytes| == Offset(maxOrder, maxOrder + 1)
    requires k <= maxOrder && n < BytesFor(maxOrder, k)
    ensures Offset(maxOrder, k) + n < |bytes|
    ensures forall i: nat | 8 * n <= i < 8 * n + 8 ::
              Get(bytes, Pos(maxOrder, k, i)) <==> Bit(bytes[Offset(maxOrder, k) + n], i - 8 * n)
  {
    OffsetMonotone(maxOrder, k, maxOrder + 1);
    forall i: nat | 8 * n <= i < 8 * n + 8
      ensures Get(bytes, Pos(maxOrder, k, i)) <==> Bit(bytes[Offset(maxOrder, k) + n], i - 8 * n)
    {
      BitOfByte(bytes, maxOrder, k, i);
      assert i / 8 == n && i % 8 == i - 8 * n;
    }
  }

  ghost predicate NoneBelow(bytes: seq<bv8>, maxOrder: nat, k: nat, n: nat)
    requires |bytes| == Offset(maxOrder, maxOrder + 1)
    requires k <= maxOrder && n <= 8 * BytesFor(maxOrder, k)
  {
    forall i: nat | i < n :: !Get(bytes, Pos(maxOrder, k, i))
  }

  /** One byte of the scan: if its low `width` bits are clear, so are those blocks. */
  lemma ScanPast(bytes: seq<bv8>, maxOrder: nat, k: nat, n: nat, width: nat)
    requires |bytes| == Offset(maxOrder, maxOrder + 1)
    requires k <= maxOrder && n < BytesFor(maxOrder, k) && width <= 8
    requires NoneBelow(bytes, maxOrder, k, 8 * n)
    requires Offset(maxOrder, k) + n < |bytes| && NoBitBelow(bytes[Offset(maxOrder, k) + n], width)
    ensures NoneBelow(bytes, maxOrder, k, 8 * n + width)
  {
    BitsOfByte(bytes, maxOrder, k, n);
    forall i: nat | i < 8 * n + width
      ensures !Get(bytes, Pos(maxOrder, k, i))
    {
      if i >= 8 * n { assert !Bit(bytes[Offset(maxOrder, k) + n], i - 8 * n); }
    }
  }

  /** The byte and the bit that `set_bit`, `clear_bit` and `is_free` address. */
  lemma BitOfByte(bytes: seq<bv8>, maxOrder: nat, k: nat, i: nat)
    requires |bytes| == Offset(maxOrder, maxOrder + 1)
    requires k <= maxOrder && i < 8 * BytesFor(maxOrder, k)
    ensures Offset(maxOrder, k) + i / 8 < |bytes|
    ensures Pos(maxOrder, k, i) / 8 == Offset(maxOrder, k) + i / 8
    ensures Pos(maxOrder, k, i) % 8 == i % 8
  {
    OffsetMonotone(maxOrder, k, maxOrder + 1);
    Split8(Offset(maxOrder, k), i);
  }

  lemma Split8(o: nat, i: nat)
    ensures (8 * o + i) / 8 == o + i / 8 && (8 * o + i) % 8 == i % 8
  {}

  /** The scan bound fits the order's bitmap. */
  lemma ScanFits(total: nat, maxOrder: nat, k: nat)
    requires k <= maxOrder && total <= Pow2(maxOrder)
    ensures Idx(total, k) <= Pow2(maxOrder - k) <= 8 * BytesFor(maxOrder, k)
  {
    IdxBounds(total, k);
    Pow2Sum(maxOrder - k, k);
    QuotientFits(Idx(total, k), Pow2(k), Pow2(maxOrder - k));
  }

  lemma QuotientFits(q: nat, d: nat, n: nat)
    requires d > 0 && q * d <= n * d
    ensures q <= n
  {
    if q > n { MulLe(n + 1, q, d); }
  }

  /** Set bits below `total >> k` are all the maximal blocks there are. */
  lemma ScanComplete(bytes: seq<bv8>, free: set<nat>, total: nat, maxOrder: nat, k: nat, n: nat)
    requires k <= maxOrder && total <= Pow2(maxOrder)
    requires Represents(bytes, maxOrder, free)
    requires forall p | p in free :: p < total
    requires n <= 8 * BytesFor(maxOrder, k) && NoneBelow(bytes, maxOrder, k, n)
    ensures forall i: nat | i < n || Idx(total, k) <= i :: !Maximal(free, maxOrder, k, i)
  {
    forall i: nat | i < n || Idx(total, k) <= i
      ensures !Maximal(free, maxOrder, k, i)
    {
      if Maximal(free, maxOrder, k, i) {
        FreeBlockFits(free, total, maxOrder, k, i);
      }
    }
  }

  lemma RegroupHalves(f: set<nat>, whole: set<nat>, part: set<nat>, left: set<nat>, right: set<nat>)
    requires part <= whole && part == left + right && left !! right
    ensures f + (whole - part) + right == f + (whole - left)
    ensures left <= whole
  {}

  lemma PartTaken(f: set<nat>, whole: set<nat>, part: set<nat>)
    requires part <= whole && whole !! f
    ensures part !! f + (whole - part)
  {}

  lemma RegroupTaken(f: set<nat>, whole: set<nat>, part: set<nat>)
    requires whole <= f && part <= whole
    ensures (f - whole) + (whole - part) == f - part
  {}

  /** Where the two halves of a block start. */
  lemma HalfStarts(k: nat, b: nat)
    ensures First(k + 1, b) == First(k, 2 * b) && First(k, 2 * b) + Pow2(k) == First(k, 2 * b + 1)
    ensures First(k, 2 * b + 1) < First(k, 2 * b + 2) == First(k + 1, b + 1)
  {
    FirstStep(k, 2 * b);
    FirstStep(k, 2 * b + 1);
  }

  /** What pages the two halves of a block hold. */
  lemma Halves(k: nat, b: nat)
    ensures Block(k + 1, b) == Block(k, 2 * b) + Block(k, 2 * b + 1)
    ensures Block(k, 2 * b) !! Block(k, 2 * b + 1)
    ensures First(k, 2 * b) in Block(k, 2 * b)
  {
    var i := 2 * b;
    assert i / 2 == b && Buddy(i) == i + 1;
    ParentIsHalves(k, i);
  }
}

/** The buddy allocator: search and split on allocation, merge on free. */
module Buddy {
  import opened BuddyWeight
  import opened Options
  import opened Powers
  import opened ByteBits
  import opened BuddyBlocks
  import opened BuddyLayout

  /** What `free` does: it frees the block, or one of its assertions fires. */
  datatype FreeOutcome = Freed | OrderTooLarge | BeyondEnd | Misaligned | DoubleFree(page: nat)

  /** The block the search prefers: the smallest order that has one, then the lowest index. */
  ghost predicate Preferred(free: set<nat>, maxOrder: nat, order: nat, k: nat, b: nat)
  {
    && order <= k <= maxOrder
    && Maximal(free, maxOrder, k, b)
    && (forall m: nat, i: nat | order <= m < k :: !Maximal(free, maxOrder, m, i))
    && (forall i: nat | i < b :: !Maximal(free, maxOrder, k, i))
  }

  /** If no page of a block is free, its right half can be marked: neither half has a free page. */
  lemma RightHalfApart(free: set<nat>, k: nat, b: nat)
    requires Block(k + 1, b) !! free
    ensures Block(k, 2 * b + 1) !! free && !(Block(k, Buddy(2 * b + 1)) <= free)
  {
    Halves(k, b);
    assert Buddy(2 * b + 1) == 2 * b;
    assert First(k, 2 * b) in Block(k + 1, b);
  }

  /** The bit of a block that is not all free is clear. */
  lemma NotMarked(bytes: seq<bv8>, free: set<nat>, maxOrder: nat, k: nat, i: nat)
    requires Represents(bytes, maxOrder, free) && k <= maxOrder && i < 8 * BytesFor(maxOrder, k)
    requires Block(k, i) !! free
    ensures !Get(bytes, Pos(maxOrder, k, i))
  {
    AsSets(free, k, i);
    FirstPage(k, i);
    InBlock(First(k, i), k, i);
  }

  /** Where the parent of a block starts and ends. */
  lemma ParentStarts(k: nat, c: nat)
    ensures c % 2 == 1 ==> First(k, c) >= Pow2(k)
    ensures First(k + 1, c / 2) == if c % 2 == 1 then First(k, c) - Pow2(k) else First(k, c)
    ensures First(k + 1, c / 2 + 1) == First(k, (if c % 2 == 1 then c else Buddy(c)) + 1)
  {
    HalfStarts(k, c / 2);
    if c % 2 == 1 { assert c == 2 * (c / 2) + 1; } else { assert c == 2 * (c / 2) && Buddy(c) == c + 1; }
  }

  /** Replacing a block and its free buddy by their parent. */
  lemma MergeStep(free: set<nat>, total: nat, maxOrder: nat, k: nat, c: nat)
    requires k < maxOrder && total <= Pow2(maxOrder)
    requires forall p | p in free :: p < total
    requires Maximal(free, maxOrder, k, Buddy(c))
    requires Block(k, c) !! free && First(k, c + 1) <= total
    ensures c % 2 == 1 ==> First(k, c) >= Pow2(k)
    ensures First(k + 1, c / 2) == if c % 2 == 1 then First(k, c) - Pow2(k) else First(k, c)
    ensures First(k + 1, c / 2 + 1) <= total
    ensures var rest := free - Block(k, Buddy(c));
            && Block(k + 1, c / 2) !! rest
            && rest + Block(k + 1, c / 2) == free + Block(k, c)
  {
    ParentStarts(k, c);
    ParentIsHalves(k, c);
    AsSets(free, k, Buddy(c));
    FreeBlockFits(free, total, maxOrder, k, Buddy(c));
    FirstIsProduct(k, Buddy(c) + 1);
  }

  /** The page starts some block of the order. */
  ghost predicate Aligned(page: nat, order: nat)
  {
    exists b: nat :: page == First(order, b)
  }

  lemma AlignedMod(page: nat, order: nat)
    ensures Aligned(page, order) <==> page % Pow2(order) == 0
  {
    var m := Pow2(order);
    if page % m == 0 {
      FirstIsProduct(order, page / m);
      assert page == First(order, page / m);
    }
    if Aligned(page, order) {
      var b: nat :| page == First(order, b);
      FirstIsProduct(order, b);
      MultipleMod(b, m);
    }
  }

  lemma {:induction false} MultipleMod(b: nat, m: nat)
    requires m > 0
    ensures (b * m) % m == 0
  {
    if b > 0 {
      MultipleMod(b - 1, m);
      assert b * m == (b - 1) * m + m;
      AddModulus((b - 1) * m, m);
    }
  }

  lemma AddModulus(a: nat, m: nat)
    requires m > 0
    ensures (a + m) % m == a % m
  {
    var q, r := a / m, a % m;
    assert a + m == m * (q + 1) + r;
    DivModUnique(a + m, m, q + 1, r);
  }

  lemma DivModUnique(a: nat, m: nat, q: nat, r: nat)
    requires m > 0 && r < m && a == m * q + r
    ensures a % m == r
  {
    var q', r' := a / m, a % m;
    assert a == m * q' + r' && r' < m;
    if q < q' { MulLe(q + 1, q', m); assert false; }
    if q' < q { MulLe(q' + 1, q, m); assert false; }
  }

  lemma OnePage(start: nat, i: nat)
    ensures Aligned(start + i, 0) && Pow2(0) == 1
    ensures Run(start + i, 1) == {start + i}
  {
    assert start + i == First(0, start + i);
  }

  /** One more page of a run. */
  lemma RunGrows(pages: set<nat>, start: nat, i: nat)
    ensures pages + Run(start, i + 1) == pages + Run(start, i) + {start + i}
    ensures start + i !in Run(start, i) && start + i in Run(start, i + 1)
  {
  }

  lemma RunShrinks(pages: set<nat>, start: nat, i: nat)
    ensures pages - Run(start, i + 1) == pages - Run(start, i) - {start + i}
    ensures start + i in pages && Run(start, i) <= pages ==> Run(start, i + 1) <= pages
    ensures start + i in pages - Run(start, i) <==> start + i in pages
  {
  }

  /** Some aligned run of 2^order pages is all free. */
  ghost predicate Fits(free: set<nat>, order: nat)
  {
    exists i: nat :: Block(order, i) <= free
  }

  lemma RunFits(free: set<nat>, order: nat, page: nat)
    requires Aligned(page, order) && Run(page, Pow2(order)) <= free
    ensures Fits(free, order)
  {
    var b: nat :| page == First(order, b);
    assert Block(order, b) <= free;
  }

  /** No maximal block of order `order` or more: then no all-free block of order `order`. */
  lemma NothingFits(free: set<nat>, maxOrder: nat, order: nat)
    requires order <= maxOrder
    requires forall k: nat, i: nat | order <= k <= maxOrder :: !Maximal(free, maxOrder, k, i)
    ensures !Fits(free, order)
  {
    forall i: nat
      ensures !(Block(order, i) <= free)
    {
      AsSets(free, order, i);
      if AllFree(free, order, i) {
        var d := Climb(free, maxOrder, order, i);
        assert false;
      }
    }
  }

  /** `page & !(1 << order)`. */
  function ClearShifted(page: nat, order: nat): nat
    requires Idx(page, order) % 2 == 1 ==> page >= Pow2(order)
  {
    if Idx(page, order) % 2 == 1 then page - Pow2(order) else page
  }

  class BuddyAllocator {
    const maxOrder: nat
    /** Free-block bitmaps, all orders in one array. */
    const bitmap: array<bv8>
    /** One bit per page: handed out by Alloc and not yet returned. */
    const handedBits: array<bv8>
    var totalPages: nat
    var freeCount: nat
    ghost var free: set<nat>
    ghost var handed: set<nat>

    /** The free side of the state: bitmaps, count and free set agree. */
    ghost predicate FreeSide()
      reads this, bitmap
    {
      && totalPages <= Pow2(maxOrder)
      && (forall p | p in free :: p < totalPages)
      && Represents(bitmap[..], maxOrder, free)
      && freeCount == Count(free, totalPages)
      && freeCount == Weight(bitmap[..], maxOrder)
    }

    /** What holds even when pages were added twice: the count covers all marked blocks. */
    ghost predicate Covered()
      reads this, bitmap
    {
      && totalPages <= Pow2(maxOrder) && bitmap.Length == Offset(maxOrder, maxOrder + 1)
      && Weight(bitmap[..], maxOrder) <= freeCount
    }

    ghost predicate HandedSide()
      reads this, handedBits
    {
      && (forall p | p in handed :: p < totalPages)
      && Marks(handedBits[..], maxOrder, handed)
    }

    ghost predicate Valid()
      reads this, bitmap, handedBits
    {
      && bitmap != handedBits
      && FreeSide()
      && HandedSide()
      && free !! handed
    }

    constructor (maxOrder: nat, totalPages: nat)
      requires totalPages <= Pow2(maxOrder)
      ensures Valid() && this.maxOrder == maxOrder && this.totalPages == totalPages
      ensures free == {} && handed == {}
      ensures fresh(bitmap) && fresh(handedBits)
    {
      this.maxOrder := maxOrder;
      this.bitmap := new bv8[Offset(maxOrder, maxOrder + 1)](_ => 0);
      this.handedBits := new bv8[(Pow2(maxOrder) + 7) / 8](_ => 0);
      this.totalPages := totalPages;
      this.freeCount := 0;
      this.free := {};
      this.handed := {};
      new;
      forall k: nat, i: nat | k <= maxOrder && i < 8 * BytesFor(maxOrder, k)
        ensures Get(bitmap[..], Pos(maxOrder, k, i)) <==> Maximal({}, maxOrder, k, i)
      {
        ZeroByte(0);
        FirstPage(k, i);
      }
      CountAll({}, totalPages);
      forall q: nat | q < 8 * bitmap.Length
        ensures !Get(bitmap[..], q)
      {
        ZeroByte(0);
      }
      NoWeightBelow(bitmap[..], maxOrder, maxOrder + 1);
      forall p: nat | p < 8 * handedBits.Length
        ensures !Get(handedBits[..], p)
      {
        ZeroByte(0);
      }
    }

    // ----- bit helpers -----

    method IsFree(order: nat, idx: nat) returns (r: bool)
      requires bitmap.Length == Offset(maxOrder, maxOrder + 1)
      requires order <= maxOrder && idx < 8 * BytesFor(maxOrder, order)
      ensures r == Get(bitmap[..], Pos(maxOrder, order, idx))
    {
      BitOfByte(bitmap[..], maxOrder, order, idx);
      r := bitmap[Offset(maxOrder, order) + idx / 8] & Mask(idx % 8) != 0;
    }

    method SetBit(order: nat, idx: nat)
      requires bitmap.Length == Offset(maxOrder, maxOrder + 1)
      requires order <= maxOrder && idx < 8 * BytesFor(maxOrder, order)
      modifies bitmap
      ensures bitmap[..] == Set(old(bitmap[..]), Pos(maxOrder, order, idx))
    {
      BitOfByte(bitmap[..], maxOrder, order, idx);
      var offset := Offset(maxOrder, order) + idx / 8;
      bitmap[offset] := bitmap[offset] | Mask(idx % 8);
    }

    method ClearBit(order: nat, idx: nat)
      requires bitmap.Length == Offset(maxOrder, maxOrder + 1)
      requires order <= maxOrder && idx < 8 * BytesFor(maxOrder, order)
      modifies bitmap
      ensures bitmap[..] == Clear(old(bitmap[..]), Pos(maxOrder, order, idx))
    {
      BitOfByte(bitmap[..], maxOrder, order, idx);
      var offset := Offset(maxOrder, order) + idx / 8;
      bitmap[offset] := bitmap[offset] & !Mask(idx % 8);
    }

    /** `set_bit` with the `free_count` increment that always goes with it; `sound`: no page of the block is free. */
    method Put(order: nat, idx: nat, ghost sound: bool)
      requires Covered() && order <= maxOrder && idx < 8 * BytesFor(maxOrder, order)
      requires sound ==> FreeSide() && First(order, idx + 1) <= totalPages && Block(order, idx) !! free
      requires sound && order < maxOrder ==> !(Block(order, Buddy(idx)) <= free)
      modifies bitmap, this`freeCount, this`free
      ensures Covered() && freeCount == old(freeCount) + Pow2(order)
      ensures sound ==> FreeSide() && free == old(free) + Block(order, idx)
    {
      if sound {
        AsSets(free, order, idx);
        AsSets(free, order, Buddy(idx));
        AddSize(free, totalPages, maxOrder, order, idx);
        SetRepresents(bitmap[..], maxOrder, free, order, idx);
        NotMarked(bitmap[..], free, maxOrder, order, idx);
      }
      SetWeight(bitmap[..], maxOrder, order, idx, Pos(maxOrder, order, idx));
      SetBit(order, idx);
      freeCount := freeCount + Pow2(order);
      if sound { free := free + Block(order, idx); }
    }

    /** `clear_bit` with the `free_count` decrement that always goes with it. */
    method Take(order: nat, idx: nat, ghost sound: bool)
      requires Covered() && order <= maxOrder && idx < 8 * BytesFor(maxOrder, order)
      requires Get(bitmap[..], Pos(maxOrder, order, idx))
      requires sound ==> FreeSide()
      modifies bitmap, this`freeCount, this`free
      ensures Covered() && freeCount + Pow2(order) == old(freeCount)
      ensures sound ==> FreeSide() && Block(order, idx) <= old(free) && free == old(free) - Block(order, idx)
    {
      if sound {
        FreeBlockFits(free, totalPages, maxOrder, order, idx);
        ClearRepresents(bitmap[..], maxOrder, free, order, idx);
        RemoveBlock(free, maxOrder, order, idx, order, idx);
        RemoveSize(free, totalPages, order, idx);
      }
      ClearWeight(bitmap[..], maxOrder, order, idx);
      ClearBit(order, idx);
      freeCount := freeCount - Pow2(order);
      if sound { free := free - Block(order, idx); }
    }

    /** First set bit among the low `width` bits of an order's n-th byte. */
    method ScanByte(order: nat, n: nat, width: nat) returns (r: Option<nat>)
      requires bitmap.Length == Offset(maxOrder, maxOrder + 1)
      requires order <= maxOrder && n < BytesFor(maxOrder, order) && width <= 8
      requires NoneBelow(bitmap[..], maxOrder, order, 8 * n)
      ensures r.None? ==> NoneBelow(bitmap[..], maxOrder, order, 8 * n + width)
      ensures r.Some? ==> 8 * n <= r.value < 8 * n + width
      ensures r.Some? ==> Get(bitmap[..], Pos(maxOrder, order, r.value))
                          && NoneBelow(bitmap[..], maxOrder, order, r.value)
    {
      OffsetMonotone(maxOrder, order, maxOrder + 1);
      var found := LowestBit(bitmap[Offset(maxOrder, order) + n], width);
      ScanPast(bitmap[..], maxOrder, order, n, if found.BitAt? then found.bit else width);
      if found.NoBit? { return None; }
      BitsOfByte(bitmap[..], maxOrder, order, n);
      r := Some(8 * n + found.bit);
    }

    /** First set bit among the first `maxBlocks` of an order, byte by byte. */
    method FindFree(order: nat, maxBlocks: nat) returns (r: Option<nat>)
      requires bitmap.Length == Offset(maxOrder, maxOrder + 1)
      requires order <= maxOrder && maxBlocks <= 8 * BytesFor(maxOrder, order)
      ensures r.None? ==> NoneBelow(bitmap[..], maxOrder, order, maxBlocks)
      ensures r.Some? ==> r.value < maxBlocks && Get(bitmap[..], Pos(maxOrder, order, r.value))
                          && NoneBelow(bitmap[..], maxOrder, order, r.value)
    {
      var fullBytes := maxBlocks / 8;
      var remainder := maxBlocks % 8;
      for n := 0 to fullBytes
        invariant NoneBelow(bitmap[..], maxOrder, order, 8 * n)
      {
        r := ScanByte(order, n, 8);
        if r.Some? { return; }
      }
      r := None;
      if remainder > 0 {
        r := ScanByte(order, fullBytes, remainder);
      }
    }

    // ----- allocation -----

    /** Search upward from `order`; unmark and return the first block found. */
    method TakeSmallest(order: nat) returns (r: Option<(nat, nat)>)
      requires FreeSide() && order <= maxOrder
      modifies bitmap, this`freeCount, this`free
      ensures FreeSide()
      ensures r.None? ==> free == old(free) && freeCount == old(freeCount)
                          && bitmap[..] == old(bitmap[..])
      ensures r.None? ==> forall k: nat, i: nat | order <= k <= maxOrder ::
                            !Maximal(old(free), maxOrder, k, i)
      ensures r.Some? ==> Preferred(old(free), maxOrder, order, r.value.0, r.value.1)
      ensures r.Some? ==> var (k, b) := r.value; free == old(free) - Block(k, b)
    {
      var foundOrder := order;
      while true
        invariant order <= foundOrder <= maxOrder
        invariant FreeSide() && free == old(free) && freeCount == old(freeCount)
        invariant bitmap[..] == old(bitmap[..])
        invariant forall k: nat, i: nat | order <= k < foundOrder ::
                    !Maximal(free, maxOrder, k, i)
        decreases maxOrder - foundOrder
      {
        var maxBlocks := Idx(totalPages, foundOrder);
        ScanFits(totalPages, maxOrder, foundOrder);
        var found := FindFree(foundOrder, maxBlocks);
        ScanComplete(bitmap[..], free, totalPages, maxOrder, foundOrder,
                     if found.Some? then found.value else maxBlocks);
        if found.Some? {
          Take(foundOrder, found.value, true);
          return Some((foundOrder, found.value));
        }
        foundOrder := foundOrder + 1;
        if foundOrder > maxOrder { return None; }
      }
    }

    /** Split a taken block down to `order`, marking the right half free at each level. */
    method SplitDown(order: nat, foundOrder: nat, page: nat, ghost block: nat)
      requires FreeSide()
      requires order <= foundOrder <= maxOrder
      requires Block(foundOrder, block) !! free
      requires page == First(foundOrder, block) && First(foundOrder, block + 1) <= totalPages
      modifies bitmap, this`freeCount, this`free
      ensures FreeSide()
      ensures Aligned(page, order) && page + Pow2(order) <= totalPages
      ensures Run(page, Pow2(order)) <= Block(foundOrder, block)
      ensures free == old(free) + (Block(foundOrder, block) - Run(page, Pow2(order)))
    {
      var current := foundOrder;
      ghost var b := block;
      ghost var whole := Block(foundOrder, block);
      while current > order
        invariant order <= current <= foundOrder
        invariant FreeSide()
        invariant page == First(current, b) && First(current, b + 1) <= totalPages
        invariant Block(current, b) <= whole
        invariant free == old(free) + (whole - Block(current, b))
      {
        current := current - 1;
        Halves(current, b);
        PartTaken(old(free), whole, Block(current + 1, b));
        RegroupHalves(old(free), whole, Block(current + 1, b), Block(current, 2 * b), Block(current, 2 * b + 1));
        KeepRight(page, current, b);
        b := 2 * b;
      }
      FirstStep(order, b);
    }

    /** Mark the right half of a block that is all taken. */
    method KeepRight(page: nat, current: nat, ghost b: nat)
      requires FreeSide() && current < maxOrder
      requires page == First(current + 1, b) && First(current + 1, b + 1) <= totalPages
      requires Block(current + 1, b) !! free
      modifies bitmap, this`freeCount, this`free
      ensures FreeSide() && free == old(free) + Block(current, 2 * b + 1)
      ensures page == First(current, 2 * b) && First(current, 2 * b + 1) <= totalPages
    {
      HalfStarts(current, b);
      RightHalfApart(free, current, b);
      FirstPage(current, 2 * b + 1);
      var rightHalf := page + Pow2(current);
      IdxFits(rightHalf, maxOrder, current);
      Put(current, Idx(rightHalf, current), true);
    }

    method MarkHanded(page: nat, n: nat)
      requires HandedSide() && page + n <= totalPages <= Pow2(maxOrder)
      modifies handedBits, this`handed
      ensures HandedSide() && handed == old(handed) + Run(page, n)
    {
      for i := 0 to n
        invariant HandedSide() && handed == old(handed) + Run(page, i)
      {
        RunGrows(old(handed), page, i);
        MarkOne(page + i);
      }
    }

    method MarkOne(p: nat)
      requires HandedSide() && p < totalPages <= Pow2(maxOrder)
      modifies handedBits, this`handed
      ensures HandedSide() && handed == old(handed) + {p}
    {
      SetGet(handedBits[..], p);
      ghost var before := handedBits[..];
      handedBits[p / 8] := handedBits[p / 8] | Mask(p % 8);
      assert handedBits[..] == Set(before, p);
      handed := handed + {p};
    }

    /** The free side of an allocation. */
    method TakeRun(order: nat) returns (r: Option<nat>)
      requires FreeSide() && order <= maxOrder
      modifies this`freeCount, this`free, bitmap
      ensures FreeSide()
      ensures r.None? <==> !Fits(old(free), order)
      ensures r.None? ==> free == old(free) && freeCount == old(freeCount)
                          && bitmap[..] == old(bitmap[..])
      ensures r.Some? ==> Aligned(r.value, order) && r.value + Pow2(order) <= totalPages
      ensures r.Some? ==> Run(r.value, Pow2(order)) <= old(free)
                          && free == old(free) - Run(r.value, Pow2(order))
      ensures r.Some? ==> exists k: nat, b: nat ::
                Preferred(old(free), maxOrder, order, k, b) && r.value == First(k, b)
    {
      var found := TakeSmallest(order);
      if found.None? {
        NothingFits(free, maxOrder, order);
        return None;
      }
      var (k, b) := found.value;
      AsSets(old(free), k, b);
      FreeBlockFits(old(free), totalPages, maxOrder, k, b);
      FirstIsProduct(k, b + 1);
      var page := First(k, b);
      SplitDown(order, k, page, b);
      RegroupTaken(old(free), Block(k, b), Run(page, Pow2(order)));
      RunFits(old(free), order, page);
      assert Preferred(old(free), maxOrder, order, k, b) && page == First(k, b);
      r := Some(page);
    }

    /** Allocate a 2^order block. */
    method Alloc(order: nat) returns (r: Option<nat>)
      requires Valid()
      modifies this`freeCount, this`free, this`handed, bitmap, handedBits
      ensures Valid()
      // None exactly when no aligned run of 2^order free pages exists, and then nothing changes
      ensures r.None? <==> order > maxOrder || !Fits(old(free), order)
      ensures r.None? ==> free == old(free) && handed == old(handed) && freeCount == old(freeCount)
                          && bitmap[..] == old(bitmap[..]) && handedBits[..] == old(handedBits[..])
      // otherwise exactly one aligned block of free pages changes hands
      ensures r.Some? ==> Aligned(r.value, order) && r.value + Pow2(order) <= totalPages
      ensures r.Some? ==> Run(r.value, Pow2(order)) <= old(free)
                          && Run(r.value, Pow2(order)) !! old(handed)
      ensures r.Some? ==> free == old(free) - Run(r.value, Pow2(order))
      ensures r.Some? ==> handed == old(handed) + Run(r.value, Pow2(order))
      // and it is cut from the front of the smallest, then lowest, block that can hold it
      ensures r.Some? ==> exists k: nat, b: nat ::
                Preferred(old(free), maxOrder, order, k, b) && r.value == First(k, b)
    {
      if order > maxOrder { return None; }
      r := TakeRun(order);
      if r.Some? {
        MarkHanded(r.value, Pow2(order));
      }
    }

    // ----- freeing -----

    /** Whether the buddy of block (k, c) is marked free. */
    method BuddyMarked(k: nat, c: nat, ghost sound: bool) returns (r: bool)
      requires Covered() && k < maxOrder
      requires sound ==> FreeSide() && Block(k, c) !! free
      ensures r ==> Buddy(c) < 8 * BytesFor(maxOrder, k) && Get(bitmap[..], Pos(maxOrder, k, Buddy(c)))
      ensures sound && r ==> Maximal(free, maxOrder, k, Buddy(c))
      ensures sound && !r ==> !(Block(k, Buddy(c)) <= free)
    {
      var buddyPage := First(k, Buddy(c));
      FirstPage(k, Buddy(c));
      AsSets(free, k, c);
      AsSets(free, k, Buddy(c));
      if buddyPage < totalPages {
        IdxFits(buddyPage, maxOrder, k);
        r := IsFree(k, Buddy(c));
        if sound && !r { BuddyNotFree(free, maxOrder, k, c); }
      } else {
        r := false;
        InBlock(buddyPage, k, Buddy(c));
      }
    }

    /**
     * Put a block back, merging with buddies that are marked free. The count grows by the size of the block
     * whatever the bitmaps hold; if no page of the block is free, it joins the free pages.
     */
    method Merge(page: nat, order: nat, ghost b: nat, ghost sound: bool)
      requires Covered() && order <= maxOrder && page == First(order, b) && page < totalPages
      requires sound ==> FreeSide() && First(order, b + 1) <= totalPages && Block(order, b) !! free
      modifies bitmap, this`freeCount, this`free
      ensures Covered() && freeCount == old(freeCount) + Pow2(order)
      ensures sound ==> FreeSide() && free == old(free) + Block(order, b)
    {
      var currentPage := page;
      var currentOrder := order;
      ghost var c := b;
      while true
        invariant order <= currentOrder <= maxOrder && Covered()
        invariant currentPage == First(currentOrder, c) && currentPage < totalPages
        invariant freeCount + Pow2(currentOrder) == old(freeCount) + Pow2(order)
        invariant sound ==> FreeSide() && First(currentOrder, c + 1) <= totalPages && Block(currentOrder, c) !! free
        invariant sound ==> free + Block(currentOrder, c) == old(free) + Block(order, b)
        decreases maxOrder - currentOrder
      {
        var up, parent := MergeOnce(currentPage, currentOrder, c, sound);
        if !up { return; }
        currentPage := parent;
        currentOrder := currentOrder + 1;
        c := c / 2;
      }
    }

    /** Join the buddy and go up one order, or mark the block. */
    method MergeOnce(page: nat, k: nat, ghost c: nat, ghost sound: bool) returns (up: bool, parent: nat)
      requires Covered() && k <= maxOrder && page == First(k, c) && page < totalPages
      requires sound ==> FreeSide() && First(k, c + 1) <= totalPages && Block(k, c) !! free
      modifies bitmap, this`freeCount, this`free
      ensures Covered()
      ensures !up ==> freeCount == old(freeCount) + Pow2(k) && (sound ==> FreeSide() && free == old(free) + Block(k, c))
      ensures up ==> k < maxOrder && parent == First(k + 1, c / 2) && parent < totalPages
                     && freeCount + Pow2(k) == old(freeCount)
      ensures up && sound ==> FreeSide() && First(k + 1, c / 2 + 1) <= totalPages && Block(k + 1, c / 2) !! free
                              && free + Block(k + 1, c / 2) == old(free) + Block(k, c)
    {
      FirstPage(k, c);
      IdxFits(page, maxOrder, k);
      var blockIdx := Idx(page, k);
      up, parent := false, page;
      if k < maxOrder { up := BuddyMarked(k, blockIdx, sound); }
      if up {
        parent := Absorb(page, k, c, sound);
      } else {
        Put(k, blockIdx, sound);
      }
    }

    /** Unmark the buddy of block (k, c); both together are the block of the next order at the returned page. */
    method Absorb(page: nat, k: nat, ghost c: nat, ghost sound: bool) returns (parent: nat)
      requires Covered() && k < maxOrder && page == First(k, c) && page < totalPages
      requires Buddy(c) < 8 * BytesFor(maxOrder, k) && Get(bitmap[..], Pos(maxOrder, k, Buddy(c)))
      requires sound ==> FreeSide() && First(k, c + 1) <= totalPages && Block(k, c) !! free
      modifies bitmap, this`freeCount, this`free
      ensures Covered() && parent == First(k + 1, c / 2) && parent < totalPages
      ensures freeCount + Pow2(k) == old(freeCount)
      ensures sound ==> FreeSide() && First(k + 1, c / 2 + 1) <= totalPages && Block(k + 1, c / 2) !! free
      ensures sound ==> free + Block(k + 1, c / 2) == old(free) + Block(k, c)
    {
      FirstPage(k, c);
      ParentStarts(k, c);
      if sound { MergeStep(free, totalPages, maxOrder, k, c); }
      Take(k, Buddy(Idx(page, k)), sound);
      parent := ClearShifted(page, k);
    }

    method IsHanded(p: nat) returns (r: bool)
      requires Marks(handedBits[..], maxOrder, handed) && p < Pow2(maxOrder)
      ensures r <==> p in handed
    {
      assert Get(handedBits[..], p) <==> p in handed;
      r := handedBits[p / 8] & Mask(p % 8) != 0;
    }

    /** Clear one page's handed-out mark, if it has one. */
    method UnmarkOne(p: nat) returns (was: bool)
      requires HandedSide() && p < totalPages <= Pow2(maxOrder)
      modifies handedBits, this`handed
      ensures HandedSide()
      ensures was <==> p in old(handed)
      ensures handed == old(handed) - {p}
    {
      was := IsHanded(p);
      if was {
        MarksClear(handedBits[..], maxOrder, handed, p);
        ClearMark(p);
        handed := handed - {p};
      }
    }

    method ClearMark(p: nat)
      requires p < 8 * handedBits.Length
      modifies handedBits
      ensures handedBits[..] == Clear(old(handedBits[..]), p)
    {
      handedBits[p / 8] := handedBits[p / 8] & !Mask(p % 8);
    }

    /** Clear the handed-out marks of a run; stop at the first page that has none. */
    method Unmark(page: nat, n: nat) returns (bad: Option<nat>)
      requires HandedSide() && page + n <= totalPages <= Pow2(maxOrder)
      modifies handedBits, this`handed
      ensures HandedSide()
      ensures bad.None? ==> Run(page, n) <= old(handed) && handed == old(handed) - Run(page, n)
      ensures bad.Some? ==> page <= bad.value < page + n && bad.value !in old(handed)
                            && Run(page, bad.value - page) <= old(handed)
                            && handed == old(handed) - Run(page, bad.value - page)
    {
      for i := 0 to n
        invariant HandedSide()
        invariant Run(page, i) <= old(handed) && handed == old(handed) - Run(page, i)
      {
        RunShrinks(old(handed), page, i);
        var was := UnmarkOne(page + i);
        if !was { return Some(page + i); }
      }
      bad := None;
    }

    /** Free a 2^order block, or report which assertion of the source fires. */
    method Free(page: nat, order: nat) returns (r: FreeOutcome)
      requires Valid()
      modifies this`freeCount, this`free, this`handed, bitmap, handedBits
      ensures Valid()
      ensures r.OrderTooLarge? <==> order > maxOrder
      ensures r.BeyondEnd? <==> order <= maxOrder && page + Pow2(order) > totalPages
      ensures r.Misaligned? <==> order <= maxOrder && page + Pow2(order) <= totalPages
                                 && !Aligned(page, order)
      // freed exactly when the whole block is handed out
      ensures r.Freed? <==> order <= maxOrder && page + Pow2(order) <= totalPages
                            && Aligned(page, order) && Run(page, Pow2(order)) <= old(handed)
      ensures r.Freed? ==> free == old(free) + Run(page, Pow2(order))
                           && handed == old(handed) - Run(page, Pow2(order))
      // a double free is reported at the first page that is not handed out
      ensures r.DoubleFree? ==> page <= r.page < page + Pow2(order) && r.page !in old(handed)
                                && Run(page, r.page - page) <= old(handed)
                                && handed == old(handed) - Run(page, r.page - page)
      ensures !r.Freed? ==> free == old(free) && freeCount == old(freeCount)
                            && bitmap[..] == old(bitmap[..])
      ensures !r.Freed? && !r.DoubleFree? ==> handed == old(handed)
                                              && handedBits[..] == old(handedBits[..])
    {
      if order > maxOrder { return OrderTooLarge; }
      if page + Pow2(order) > totalPages { return BeyondEnd; }
      AlignedMod(page, order);
      if page % Pow2(order) != 0 { return Misaligned; }
      var bad := GiveBack(page, order, true);
      r := if bad.Some? then DoubleFree(bad.value) else Freed;
    }

    /** The part of `Free` behind its checks of order and page. */
    method GiveBack(page: nat, order: nat, ghost sound: bool) returns (bad: Option<nat>)
      requires Covered() && HandedSide() && bitmap != handedBits
      requires order <= maxOrder && page + Pow2(order) <= totalPages && Aligned(page, order)
      requires sound ==> Valid()
      modifies this`freeCount, this`free, this`handed, bitmap, handedBits
      ensures Covered() && HandedSide()
      ensures bad.None? <==> Run(page, Pow2(order)) <= old(handed)
      ensures bad.None? ==> handed == old(handed) - Run(page, Pow2(order)) && freeCount == old(freeCount) + Pow2(order)
      ensures bad.None? && sound ==> free == old(free) + Run(page, Pow2(order))
      ensures bad.Some? ==> page <= bad.value < page + Pow2(order) && bad.value !in old(handed)
                            && Run(page, bad.value - page) <= old(handed)
                            && handed == old(handed) - Run(page, bad.value - page)
      ensures bad.Some? ==> free == old(free) && freeCount == old(freeCount) && bitmap[..] == old(bitmap[..])
      ensures sound ==> Valid()
    {
      bad := Unmark(page, Pow2(order));
      if bad.Some? { return; }
      ghost var b: nat :| page == First(order, b);
      FirstStep(order, b);
      Merge(page, order, b, sound);
    }

    /**
     * Give the pages of a range to the allocator. The count grows by the length of the range, so it is right
     * exactly when no page of the range was free before.
     */
    method AddRange(start: nat, count: nat) returns (ok: bool)
      requires Valid()
      modifies this`freeCount, this`free, this`handed, bitmap, handedBits
      ensures ok <==> start + count <= totalPages
      ensures !ok ==> Valid() && free == old(free) && handed == old(handed) && freeCount == old(freeCount)
                      && bitmap[..] == old(bitmap[..]) && handedBits[..] == old(handedBits[..])
      ensures ok ==> handed == old(handed) - Run(start, count) && freeCount == old(freeCount) + count
      ensures ok && Run(start, count) !! old(free) ==> Valid() && free == old(free) + Run(start, count)
      ensures ok ==> (freeCount == Count(old(free) + Run(start, count), totalPages) <==> Run(start, count) !! old(free))
    {
      if start + count > totalPages { return false; }
      ghost var sound := Run(start, count) !! free;
      MarkHanded(start, count);
      AddMarked(start, count, sound);
      CountRun(old(free), start, count, totalPages);
      ok := true;
    }

    /** Free the pages of a range that is marked as handed out, one by one. */
    method AddMarked(start: nat, count: nat, ghost sound: bool)
      requires Covered() && HandedSide() && bitmap != handedBits && start + count <= totalPages
      requires Run(start, count) <= handed && (sound ==> Valid())
      modifies this`freeCount, this`free, this`handed, bitmap, handedBits
      ensures Covered() && HandedSide() && (sound ==> Valid())
      ensures handed == old(handed) - Run(start, count) && freeCount == old(freeCount) + count
      ensures sound ==> free == old(free) + Run(start, count)
    {
      for i := 0 to count
        invariant Covered() && HandedSide() && (sound ==> Valid())
        invariant handed == old(handed) - Run(start, i) && freeCount == old(freeCount) + i
        invariant sound ==> free == old(free) + Run(start, i)
      {
        OnePage(start, i);
        RunGrows(old(free), start, i);
        RunShrinks(old(handed), start, i);
        var bad := GiveBack(start + i, 0, sound);
      }
    }
  }

  // ----- laws over several calls -----

  /** Allocating a block and freeing it again restores every byte. */
  method AllocThenFree(a: BuddyAllocator, order: nat)
    requires a.Valid()
    modifies a`freeCount, a`free, a`handed, a.bitmap, a.handedBits
    ensures a.Valid()
    ensures a.bitmap[..] == old(a.bitmap[..]) && a.handedBits[..] == old(a.handedBits[..])
    ensures a.freeCount == old(a.freeCount)
  {
    var r := a.Alloc(order);
    if r.Some? {
      ghost var run := Run(r.value, Pow2(order));
      var outcome := a.Free(r.value, order);
      assert a.free == old(a.free);
      assert a.handed == old(a.handed);
      BitmapIsFunctionOfFreeSet(a.bitmap[..], old(a.bitmap[..]), a.maxOrder, a.free);
      MarksUnique(a.handedBits[..], old(a.handedBits[..]), a.maxOrder, a.handed);
    }
  }

  /** Adding a page twice counts it twice. */
  method AddedTwice() returns (a: BuddyAllocator)
    ensures a.totalPages == 1 && a.freeCount == 2
  {
    a := new BuddyAllocator(0, 1);
    var first := a.AddRange(0, 1);
    var second := a.AddRange(0, 1);
  }

  /** A handed-out block that `Free` accepts. */
  ghost predicate Returnable(a: BuddyAllocator, p: nat, i: nat)
    reads a
  {
    && i <= a.maxOrder && Aligned(p, i) && p + Pow2(i) <= a.totalPages
    && Run(p, Pow2(i)) <= a.handed
  }

  method FreeBoth(a: BuddyAllocator, p: nat, i: nat, q: nat, j: nat)
    requires a.Valid() && Returnable(a, p, i) && Returnable(a, q, j)
    requires Run(p, Pow2(i)) !! Run(q, Pow2(j))
    modifies a`freeCount, a`free, a`handed, a.bitmap, a.handedBits
    ensures a.Valid()
    ensures a.free == old(a.free) + (Run(p, Pow2(i)) + Run(q, Pow2(j)))
    ensures a.handed == old(a.handed) - (Run(p, Pow2(i)) + Run(q, Pow2(j)))
  {
    var r := a.Free(p, i);
    r := a.Free(q, j);
  }

  lemma Union(x: set<nat>, y: set<nat>)
    ensures x + y == y + x
  {
  }

  /** Freeing two blocks in either order leaves the same bytes. */
  method FreesCommute(a: BuddyAllocator, b: BuddyAllocator, p: nat, i: nat, q: nat, j: nat)
    requires a.Valid() && b.Valid() && a != b
    requires {a.bitmap, a.handedBits} !! {b.bitmap, b.handedBits}
    requires a.maxOrder == b.maxOrder && a.totalPages == b.totalPages
    requires a.free == b.free && a.handed == b.handed
    requires Returnable(a, p, i) && Returnable(a, q, j)
    requires Run(p, Pow2(i)) !! Run(q, Pow2(j))
    modifies a`freeCount, a`free, a`handed, a.bitmap, a.handedBits
    modifies b`freeCount, b`free, b`handed, b.bitmap, b.handedBits
    ensures a.Valid() && b.Valid()
    ensures a.bitmap[..] == b.bitmap[..] && a.handedBits[..] == b.handedBits[..]
    ensures a.freeCount == b.freeCount
  {
    FreeBoth(a, p, i, q, j);
    FreeBoth(b, q, j, p, i);
    Union(Run(p, Pow2(i)), Run(q, Pow2(j)));
    SameSetsSameBytes(a, b);
  }

  /** The free and handed-out pages fix every byte of the allocator's state. */
  lemma SameSetsSameBytes(a: BuddyAllocator, b: BuddyAllocator)
    requires a.Valid() && b.Valid()
    requires a.maxOrder == b.maxOrder && a.totalPages == b.totalPages
    requires a.free == b.free && a.handed == b.handed
    ensures a.bitmap[..] == b.bitmap[..] && a.handedBits[..] == b.handedBits[..]
    ensures a.freeCount == b.freeCount
  {
    BitmapIsFunctionOfFreeSet(a.bitmap[..], b.bitmap[..], a.maxOrder, a.free);
    MarksUnique(a.handedBits[..], b.handedBits[..], a.maxOrder, a.handed);
  }
}
