/**
 * The theory behind the buddy allocator's free-block bitmaps.
 *
 * Block `(k, i)` is the aligned run of pages `[i * 2^k, (i + 1) * 2^k)`. A set of
 * free pages determines which of its all-free blocks are maximal; the allocator
 * keeps exactly those in its bitmaps.
 */
module BuddyBlocks {
  import opened Powers

  /** `p >> k`: the index of the order-k block that page p lies in. */
  function Idx(p: nat, k: nat): nat
  {
    if k == 0 then p else Idx(p, k - 1) / 2
  }

  /** `i << k`: the first page of block (k, i). */
  function First(k: nat, i: nat): nat
  {
    if k == 0 then i else First(k - 1, 2 * i)
  }

  lemma {:induction false} FirstIsProduct(k: nat, i: nat)
    ensures First(k, i) == i * Pow2(k)
    decreases k
  {
    if k > 0 {
      FirstIsProduct(k - 1, 2 * i);
      assert (2 * i) * Pow2(k - 1) == i * Pow2(k);
    }
  }

  lemma {:induction false} FirstStep(k: nat, i: nat)
    ensures First(k, i + 1) == First(k, i) + Pow2(k)
    decreases k
  {
    if k > 0 {
      FirstStep(k - 1, 2 * i);
      FirstStep(k - 1, 2 * i + 1);
    }
  }

  /** The other half of the parent block: `i ^ 1`. */
  function Buddy(i: nat): nat
  {
    if i % 2 == 0 then i + 1 else i - 1
  }

  ghost predicate AllFree(free: set<nat>, k: nat, i: nat)
  {
    forall p: nat :: Idx(p, k) == i ==> p in free
  }

  /** No page of the block is free. */
  ghost predicate NoneFree(free: set<nat>, k: nat, i: nat)
  {
    forall p: nat :: Idx(p, k) == i ==> p !in free
  }

  /** The block is all free and its parent, if the allocator has that order, is not. */
  ghost predicate Maximal(free: set<nat>, maxOrder: nat, k: nat, i: nat)
  {
    AllFree(free, k, i) && (k < maxOrder ==> !AllFree(free, k + 1, i / 2))
  }

  /** The n pages from lo. */
  function Run(lo: nat, n: nat): (r: set<nat>)
    ensures forall p: nat :: p in r <==> lo <= p < lo + n
  {
    if n == 0 then {} else Run(lo, n - 1) + {lo + n - 1}
  }

  /** The pages of block (k, i). */
  function Block(k: nat, i: nat): set<nat>
  {
    Run(First(k, i), Pow2(k))
  }

  // ----- index arithmetic -----

  lemma {:induction false} IdxBounds(p: nat, k: nat)
    ensures Idx(p, k) * Pow2(k) <= p < (Idx(p, k) + 1) * Pow2(k)
    decreases k
  {
    if k > 0 {
      IdxBounds(p, k - 1);
      var j, h := Idx(p, k - 1), Pow2(k - 1);
      HalfBounds(j, h);
    }
  }

  lemma HalfBounds(j: nat, h: nat)
    ensures (j / 2) * (2 * h) <= j * h && (j + 1) * h <= (j / 2 + 1) * (2 * h)
  {
    var i := j / 2;
    if j == 2 * i {
      assert j * h == i * (2 * h);
    } else {
      assert j == 2 * i + 1;
      assert (j + 1) * h == (i + 1) * (2 * h);
    }
  }

  lemma MulLe(a: nat, b: nat, h: nat)
    requires a <= b
    ensures a * h <= b * h
  {}

  /** The block index is the quotient by the block size. */
  lemma IdxRange(p: nat, k: nat, i: nat)
    ensures Idx(p, k) == i <==> i * Pow2(k) <= p < (i + 1) * Pow2(k)
  {
    IdxBounds(p, k);
    var j := Idx(p, k);
    if j < i { MulLe(j + 1, i, Pow2(k)); }
    if i < j { MulLe(i + 1, j, Pow2(k)); }
  }

  lemma InBlock(p: nat, k: nat, i: nat)
    ensures p in Block(k, i) <==> Idx(p, k) == i
  {
    IdxRange(p, k, i);
    FirstIsProduct(k, i);
    assert (i + 1) * Pow2(k) == i * Pow2(k) + Pow2(k);
  }

  lemma FirstPage(k: nat, i: nat)
    ensures Idx(First(k, i), k) == i
  {
    FirstIsProduct(k, i);
    IdxRange(First(k, i), k, i);
  }

  lemma {:induction false} IdxCompose(p: nat, k: nat, d: nat)
    ensures Idx(p, k + d) == Idx(Idx(p, k), d)
    decreases d
  {
    if d > 0 { IdxCompose(p, k, d - 1); }
  }

  lemma BlockSize(k: nat, i: nat)
    ensures |Block(k, i)| == Pow2(k)
  {
    RunSize(First(k, i), Pow2(k));
  }

  lemma {:induction false} RunSize(lo: nat, n: nat)
    ensures |Run(lo, n)| == n
  {
    if n > 0 {
      RunSize(lo, n - 1);
    }
  }

  /** How many pages below `hi` the set holds. */
  ghost function Count(s: set<nat>, hi: nat): nat
  {
    if hi == 0 then 0 else Count(s, hi - 1) + if hi - 1 in s then 1 else 0
  }

  lemma {:induction false} CountIsSize(s: set<nat>, hi: nat)
    ensures Count(s, hi) == |set p | p in s && p < hi|
  {
    if hi == 0 {
      assert (set p | p in s && p < hi) == {};
    } else {
      CountIsSize(s, hi - 1);
      var below := set p | p in s && p < hi - 1;
      assert (set p | p in s && p < hi) == if hi - 1 in s then below + {hi - 1} else below;
    }
  }

  lemma {:induction false} CountAdd(s: set<nat>, p: nat, hi: nat)
    ensures Count(s + {p}, hi) == Count(s, hi) + if p < hi && p !in s then 1 else 0
    decreases hi
  {
    if hi > 0 { CountAdd(s, p, hi - 1); }
  }

  /** Adding a run adds as many pages as it has, exactly when none of them was there before. */
  lemma {:induction false} CountRun(s: set<nat>, lo: nat, n: nat, hi: nat)
    requires lo + n <= hi
    ensures Count(s + Run(lo, n), hi) <= Count(s, hi) + n
    ensures Count(s + Run(lo, n), hi) == Count(s, hi) + n <==> Run(lo, n) !! s
    decreases n
  {
    if n == 0 {
      assert s + Run(lo, 0) == s;
    } else {
      CountRun(s, lo, n - 1, hi);
      assert s + Run(lo, n) == s + Run(lo, n - 1) + {lo + n - 1};
      CountAdd(s + Run(lo, n - 1), lo + n - 1, hi);
    }
  }

  lemma CountAll(s: set<nat>, hi: nat)
    requires forall p | p in s :: p < hi
    ensures Count(s, hi) == |s|
  {
    CountIsSize(s, hi);
    assert (set p | p in s && p < hi) == s;
  }

  /** A parent block is the disjoint union of its two halves. */
  lemma ParentIsHalves(k: nat, i: nat)
    ensures Block(k + 1, i / 2) == Block(k, i) + Block(k, Buddy(i))
    ensures Block(k, i) !! Block(k, Buddy(i))
    ensures Buddy(i) / 2 == i / 2 && Buddy(i) != i && Buddy(Buddy(i)) == i
  {
    forall p: nat
      ensures p in Block(k + 1, i / 2) <==> p in Block(k, i) || p in Block(k, Buddy(i))
      ensures !(p in Block(k, i) && p in Block(k, Buddy(i)))
    {
      InBlock(p, k, i);
      InBlock(p, k, Buddy(i));
      InBlock(p, k + 1, i / 2);
    }
  }

  // ----- blocks and free sets -----

  /** The two predicates in terms of the block's page set. */
  lemma AsSets(free: set<nat>, k: nat, i: nat)
    ensures AllFree(free, k, i) <==> Block(k, i) <= free
    ensures NoneFree(free, k, i) <==> Block(k, i) !! free
  {
    forall p: nat
      ensures p in Block(k, i) <==> Idx(p, k) == i
    {
      InBlock(p, k, i);
    }
  }

  /** Every block has a page, so it cannot be both all free and free of free pages. */
  lemma NotBoth(free: set<nat>, k: nat, i: nat)
    requires NoneFree(free, k, i)
    ensures !AllFree(free, k, i)
  {
    FirstPage(k, i);
  }

  /** An all-free block makes every block inside it all free. */
  lemma AllFreeDown(free: set<nat>, k: nat, i: nat, d: nat)
    requires AllFree(free, k + d, Idx(i, d))
    ensures AllFree(free, k, i)
  {
    forall p: nat | Idx(p, k) == i
      ensures p in free
    {
      IdxCompose(p, k, d);
    }
  }

  /** The first set of pages with a block's pages taken out or put in. */
  lemma AllFreeDisjoint(free: set<nat>, free': set<nat>, k: nat, i: nat, m: nat, j: nat)
    requires free' == free + Block(k, i)
    requires forall p: nat :: Idx(p, m) == j ==> Idx(p, k) != i
    ensures AllFree(free', m, j) == AllFree(free, m, j)
  {
    forall p: nat | Idx(p, m) == j
      ensures p in free' <==> p in free
    {
      InBlock(p, k, i);
    }
    assert forall p: nat | Idx(p, m) == j :: p in free' <==> p in free;
  }

  /** Block (m, j) lies inside block (k, i). */
  predicate Inside(m: nat, j: nat, k: nat, i: nat)
  {
    m <= k && Idx(j, k - m) == i
  }

  /** Two blocks are nested or disjoint. */
  lemma Laminar(m: nat, j: nat, k: nat, i: nat)
    ensures Inside(m, j, k, i) ==> forall p: nat :: Idx(p, m) == j ==> Idx(p, k) == i
    ensures Inside(k, i, m, j) ==> forall p: nat :: Idx(p, k) == i ==> Idx(p, m) == j
    ensures !Inside(m, j, k, i) && !Inside(k, i, m, j)
            ==> forall p: nat :: Idx(p, m) == j ==> Idx(p, k) != i
  {
    if m <= k {
      forall p: nat
        ensures Idx(p, k) == Idx(Idx(p, m), k - m)
      {
        IdxCompose(p, m, k - m);
      }
    }
    if k <= m {
      forall p: nat
        ensures Idx(p, m) == Idx(Idx(p, k), m - k)
      {
        IdxCompose(p, k, m - k);
      }
    }
  }

  /**
   * How adding a block changes which blocks are all free: those inside it become
   * so; no other does, because a larger one also contains the buddy.
   */
  lemma AllFreeAfterAdd(free: set<nat>, maxOrder: nat, k: nat, i: nat, m: nat, j: nat)
    requires NoneFree(free, k, i)
    requires k <= maxOrder && m <= maxOrder
    requires k < maxOrder ==> !AllFree(free, k, Buddy(i))
    ensures AllFree(free + Block(k, i), m, j) <==> AllFree(free, m, j) || Inside(m, j, k, i)
    ensures Inside(m, j, k, i) || Inside(k, i, m, j) ==> !AllFree(free, m, j)
  {
    Laminar(m, j, k, i);
    var free' := free + Block(k, i);
    if Inside(m, j, k, i) {
      FirstPage(m, j);
      forall p: nat | Idx(p, m) == j
        ensures p in free'
      {
        InBlock(p, k, i);
      }
    } else if Inside(k, i, m, j) {
      FirstPage(k, i);
      assert !AllFree(free, m, j);
      BuddyInside(k, i, m, j);
      Laminar(k, Buddy(i), m, j);
      var q: nat :| Idx(q, k) == Buddy(i) && q !in free;
      InBlock(q, k, i);
      assert q !in free';
    } else {
      AllFreeDisjoint(free, free', k, i, m, j);
    }
  }

  lemma BuddyInside(k: nat, i: nat, m: nat, j: nat)
    requires Inside(k, i, m, j) && k < m
    ensures Inside(k, Buddy(i), m, j)
  {
    IdxCompose(i, 1, m - k - 1);
    IdxCompose(Buddy(i), 1, m - k - 1);
    assert Idx(i, 1) == Idx(i, 0) / 2 && Idx(Buddy(i), 1) == Idx(Buddy(i), 0) / 2;
  }

  /**
   * Adding a block none of whose pages are free, next to a buddy that is not all
   * free, makes that block maximal and changes nothing else.
   */
  lemma AddBlock(free: set<nat>, maxOrder: nat, k: nat, i: nat, m: nat, j: nat)
    requires NoneFree(free, k, i)
    requires k <= maxOrder && m <= maxOrder
    requires k < maxOrder ==> !AllFree(free, k, Buddy(i))
    ensures Maximal(free + Block(k, i), maxOrder, m, j)
            <==> Maximal(free, maxOrder, m, j) || (m == k && j == i)
    ensures !Maximal(free, maxOrder, k, i)
  {
    NotBoth(free, k, i);
    AllFreeAfterAdd(free, maxOrder, k, i, m, j);
    if m < maxOrder {
      AllFreeAfterAdd(free, maxOrder, k, i, m + 1, j / 2);
      if m < k {
        IdxCompose(j, 1, k - m - 1);
        assert Idx(j, 1) == Idx(j, 0) / 2;
      } else if Inside(k, i, m, j) {
        assert Idx(i, m - k + 1) == Idx(i, m - k) / 2;
      } else if m + 1 == k + 1 {
        assert Idx(i, 1) == Idx(i, 0) / 2;
      }
    }
    assert m == k ==> (Inside(m, j, k, i) <==> j == i);
  }

  /** Taking out a maximal block un-marks that block and changes nothing else. */
  lemma RemoveBlock(free: set<nat>, maxOrder: nat, k: nat, i: nat, m: nat, j: nat)
    requires Maximal(free, maxOrder, k, i)
    requires k <= maxOrder && m <= maxOrder
    ensures Maximal(free - Block(k, i), maxOrder, m, j)
            <==> Maximal(free, maxOrder, m, j) && !(m == k && j == i)
    ensures Block(k, i) <= free
  {
    var rest := free - Block(k, i);
    forall p: nat
      ensures Idx(p, k) == i <==> p in Block(k, i)
    {
      InBlock(p, k, i);
    }
    assert free == rest + Block(k, i);
    if k < maxOrder && AllFree(rest, k, Buddy(i)) {
      ParentAllFree(free, k, i);
      assert false;
    }
    AddBlock(rest, maxOrder, k, i, m, j);
  }

  lemma ParentAllFree(free: set<nat>, k: nat, i: nat)
    requires AllFree(free, k, i) && AllFree(free, k, Buddy(i))
    ensures AllFree(free, k + 1, i / 2)
  {
    forall p: nat | Idx(p, k + 1) == i / 2
      ensures p in free
    {
      assert Idx(p, k + 1) == Idx(p, k) / 2;
      assert Idx(p, k) == i || Idx(p, k) == Buddy(i);
    }
  }

  /** A buddy whose bit is clear is not all free, while none of this block is free. */
  lemma BuddyNotFree(free: set<nat>, maxOrder: nat, k: nat, i: nat)
    requires k < maxOrder
    requires NoneFree(free, k, i)
    requires !Maximal(free, maxOrder, k, Buddy(i))
    ensures !AllFree(free, k, Buddy(i))
  {
    FirstPage(k, i);
    var p := First(k, i);
    assert Idx(p, k + 1) == Idx(p, k) / 2;
    assert p !in free;
  }

  // ----- main facts about maximality -----

  /** Every all-free block lies inside a maximal one. */
  lemma {:induction false} Climb(free: set<nat>, maxOrder: nat, k: nat, i: nat) returns (d: nat)
    requires k <= maxOrder
    requires AllFree(free, k, i)
    ensures k + d <= maxOrder
    ensures Maximal(free, maxOrder, k + d, Idx(i, d))
    decreases maxOrder - k
  {
    if k < maxOrder && AllFree(free, k + 1, i / 2) {
      var e := Climb(free, maxOrder, k + 1, i / 2);
      IdxCompose(i, 1, e);
      assert Idx(i, 1) == Idx(i, 0) / 2;
      d := e + 1;
    } else {
      d := 0;
    }
  }

  /** Maximal means: all free, and no larger aligned block around it is all free. */
  lemma MaximalMeaning(free: set<nat>, maxOrder: nat, k: nat, i: nat)
    requires k <= maxOrder
    ensures Maximal(free, maxOrder, k, i)
            <==> AllFree(free, k, i)
                 && forall d: nat | 0 < d <= maxOrder - k :: !AllFree(free, k + d, Idx(i, d))
  {
    assert Idx(i, 1) == Idx(i, 0) / 2;
    if Maximal(free, maxOrder, k, i) {
      forall d: nat | 0 < d <= maxOrder - k
        ensures !AllFree(free, k + d, Idx(i, d))
      {
        if AllFree(free, k + d, Idx(i, d)) {
          IdxCompose(i, 1, d - 1);
          AllFreeDown(free, k + 1, i / 2, d - 1);
          assert false;
        }
      }
    }
  }

  /** Some maximal block holds the page. */
  ghost predicate Covered(free: set<nat>, maxOrder: nat, p: nat)
  {
    exists k: nat :: k <= maxOrder && Maximal(free, maxOrder, k, Idx(p, k))
  }

  /** The maximal blocks tile the free set: a page is free exactly when one of them holds it. */
  lemma FreeIffCovered(free: set<nat>, maxOrder: nat, p: nat)
    ensures p in free <==> Covered(free, maxOrder, p)
  {
    if p in free {
      assert AllFree(free, 0, p);
      var d := Climb(free, maxOrder, 0, p);
      assert d <= maxOrder && Maximal(free, maxOrder, d, Idx(p, d));
    }
  }

  /** ... and by one only: two maximal blocks that share a page are the same block. */
  lemma MaximalDisjoint(free: set<nat>, maxOrder: nat, k: nat, m: nat, p: nat)
    requires k <= m <= maxOrder
    requires Maximal(free, maxOrder, k, Idx(p, k)) && Maximal(free, maxOrder, m, Idx(p, m))
    ensures k == m
  {
    MaximalMeaning(free, maxOrder, k, Idx(p, k));
    IdxCompose(p, k, m - k);
  }
}
