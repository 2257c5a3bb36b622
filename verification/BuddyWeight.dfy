/** How many pages the set bits of the free-block bitmaps stand for. */
module BuddyWeight {
  import opened Powers
  import opened ByteBits
  import opened BuddyLayout

  /** The pages of the marked blocks among the first n of order k. */
  function OrderWeight(bytes: seq<bv8>, maxOrder: nat, k: nat, n: nat): nat
    requires |bytes| == Offset(maxOrder, maxOrder + 1) && k <= maxOrder && n <= 8 * BytesFor(maxOrder, k)
  {
    if n == 0 then 0
    else OrderWeight(bytes, maxOrder, k, n - 1) + if Get(bytes, Pos(maxOrder, k, n - 1)) then Pow2(k) else 0
  }

  /** The pages of all marked blocks of orders below `top`. */
  function WeightBelow(bytes: seq<bv8>, maxOrder: nat, top: nat): nat
    requires |bytes| == Offset(maxOrder, maxOrder + 1) && top <= maxOrder + 1
  {
    if top == 0 then 0
    else
      WeightBelow(bytes, maxOrder, top - 1) + OrderWeight(bytes, maxOrder, top - 1, 8 * BytesFor(maxOrder, top - 1))
  }

  function Weight(bytes: seq<bv8>, maxOrder: nat): nat
    requires |bytes| == Offset(maxOrder, maxOrder + 1)
  {
    WeightBelow(bytes, maxOrder, maxOrder + 1)
  }

  /** b has one bit more than a. */
  ghost predicate OneMore(a: seq<bv8>, b: seq<bv8>, pos: nat)
  {
    && |a| == |b| && pos < 8 * |a| && !Get(a, pos)
    && forall q: nat | q < 8 * |a| :: Get(b, q) <==> q == pos || Get(a, q)
  }

  lemma {:induction false} OrderOneMore(a: seq<bv8>, b: seq<bv8>, maxOrder: nat, k: nat, i: nat, m: nat, n: nat)
    requires |a| == Offset(maxOrder, maxOrder + 1) && k <= maxOrder && i < 8 * BytesFor(maxOrder, k)
    requires OneMore(a, b, Pos(maxOrder, k, i)) && m <= maxOrder && n <= 8 * BytesFor(maxOrder, m)
    ensures OrderWeight(b, maxOrder, m, n)
            == OrderWeight(a, maxOrder, m, n) + if m == k && i < n then Pow2(k) else 0
    decreases n
  {
    if n > 0 {
      OrderOneMore(a, b, maxOrder, k, i, m, n - 1);
      if Pos(maxOrder, m, n - 1) == Pos(maxOrder, k, i) { PosInjective(maxOrder, m, n - 1, k, i); }
    }
  }

  lemma {:induction false} WeightOneMore(a: seq<bv8>, b: seq<bv8>, maxOrder: nat, k: nat, i: nat, top: nat)
    requires |a| == Offset(maxOrder, maxOrder + 1) && k <= maxOrder && i < 8 * BytesFor(maxOrder, k)
    requires OneMore(a, b, Pos(maxOrder, k, i)) && top <= maxOrder + 1
    ensures WeightBelow(b, maxOrder, top) == WeightBelow(a, maxOrder, top) + if k < top then Pow2(k) else 0
    decreases top
  {
    if top > 0 {
      WeightOneMore(a, b, maxOrder, k, i, top - 1);
      OrderOneMore(a, b, maxOrder, k, i, top - 1, 8 * BytesFor(maxOrder, top - 1));
    }
  }

  lemma SetAgain(bytes: seq<bv8>, pos: nat)
    requires pos < 8 * |bytes| && Get(bytes, pos)
    ensures Set(bytes, pos) == bytes
  {
    SetGet(bytes, pos);
    BitsDetermineBytes(Set(bytes, pos), bytes);
  }

  lemma SetNew(bytes: seq<bv8>, pos: nat)
    requires pos < 8 * |bytes| && !Get(bytes, pos)
    ensures OneMore(bytes, Set(bytes, pos), pos)
  {
    SetGet(bytes, pos);
  }

  lemma SetWeight(bytes: seq<bv8>, maxOrder: nat, k: nat, i: nat, pos: nat)
    requires |bytes| == Offset(maxOrder, maxOrder + 1) && k <= maxOrder && i < 8 * BytesFor(maxOrder, k)
    requires pos == Pos(maxOrder, k, i)
    ensures Weight(Set(bytes, pos), maxOrder) == Weight(bytes, maxOrder) + if Get(bytes, pos) then 0 else Pow2(k)
  {
    if Get(bytes, pos) {
      SetAgain(bytes, pos);
    } else {
      SetNew(bytes, pos);
      WeightOneMore(bytes, Set(bytes, pos), maxOrder, k, i, maxOrder + 1);
    }
  }

  lemma ClearWeight(bytes: seq<bv8>, maxOrder: nat, k: nat, i: nat)
    requires |bytes| == Offset(maxOrder, maxOrder + 1) && k <= maxOrder && i < 8 * BytesFor(maxOrder, k)
    requires Get(bytes, Pos(maxOrder, k, i))
    ensures Weight(Clear(bytes, Pos(maxOrder, k, i)), maxOrder) + Pow2(k) == Weight(bytes, maxOrder)
  {
    ClearGet(bytes, Pos(maxOrder, k, i));
    WeightOneMore(Clear(bytes, Pos(maxOrder, k, i)), bytes, maxOrder, k, i, maxOrder + 1);
  }

  lemma {:induction false} NoWeight(bytes: seq<bv8>, maxOrder: nat, k: nat, n: nat)
    requires |bytes| == Offset(maxOrder, maxOrder + 1) && forall q: nat | q < 8 * |bytes| :: !Get(bytes, q)
    requires k <= maxOrder && n <= 8 * BytesFor(maxOrder, k)
    ensures OrderWeight(bytes, maxOrder, k, n) == 0
    decreases n
  {
    if n > 0 { NoWeight(bytes, maxOrder, k, n - 1); }
  }

  lemma {:induction false} NoWeightBelow(bytes: seq<bv8>, maxOrder: nat, top: nat)
    requires |bytes| == Offset(maxOrder, maxOrder + 1) && forall q: nat | q < 8 * |bytes| :: !Get(bytes, q)
    requires top <= maxOrder + 1
    ensures WeightBelow(bytes, maxOrder, top) == 0
    decreases top
  {
    if top > 0 {
      NoWeightBelow(bytes, maxOrder, top - 1);
      NoWeight(bytes, maxOrder, top - 1, 8 * BytesFor(maxOrder, top - 1));
    }
  }
}
