/** Writing the last-level entries of a whole range of pages. */
module PageTableRange {
  import opened PageTable

  /** Every page of the range has a last-level table. */
  ghost predicate HasLeafTables(mem: Memory, root: nat, top: nat, va: nat, n: nat)
    requires top < 4
  {
    forall i: nat | i < n :: TableAt(mem, root, top, 3, Page(va, i)).Some?
  }

  /** `vb` lies in page i of the range from `va`. */
  predicate InPage(top: nat, va: nat, i: nat, vb: nat)
  {
    SamePath(top, 4, Page(va, i), vb)
  }

  /** Memory after writing vals[i] to the last-level slot of page i, for every i. */
  function WriteLeaves(mem: Memory, root: nat, top: nat, va: nat, vals: seq<nat>): Memory
    requires top < 4 && HasLeafTables(mem, root, top, va, |vals|)
    decreases |vals|
  {
    if vals == [] then mem
    else
      var n := |vals| - 1;
      WriteLeaves(mem, root, top, va, vals[..n])[LeafSlot(mem, root, top, Page(va, n)) := vals[n]]
  }

  /** What one more write adds, seen from the memory written so far. */
  lemma {:induction false} TablesStay(mem: Memory, root: nat, top: nat, va: nat, vals: seq<nat>, d: nat, vb: nat)
    requires top <= d < 4 && Tree(mem, root, top) && HasLeafTables(mem, root, top, va, |vals|)
    ensures TableAt(WriteLeaves(mem, root, top, va, vals), root, top, d, vb) == TableAt(mem, root, top, d, vb)
    ensures Tree(WriteLeaves(mem, root, top, va, vals), root, top)
    decreases |vals|
  {
    if vals != [] {
      var n := |vals| - 1;
      var before := WriteLeaves(mem, root, top, va, vals[..n]);
      TablesStay(mem, root, top, va, vals[..n], d, vb);
      TablesStay(mem, root, top, va, vals[..n], 3, Page(va, n));
      TablesKept(before, root, top, Page(va, n), vals[n], d, vb);
      TreeKept(before, root, top, Page(va, n), vals[n]);
    }
  }

  /** A page of the range translates by the entry written for it. */
  lemma {:induction false} ResolvesTo(mem: Memory, root: nat, top: nat, va: nat, vals: seq<nat>, i: nat, vb: nat)
    requires top < 4 && Tree(mem, root, top) && HasLeafTables(mem, root, top, va, |vals|)
    requires |vals| <= PagesBelow(top) && i < |vals| && InPage(top, va, i, vb)
    ensures Resolve(WriteLeaves(mem, root, top, va, vals), root, top, vb) == PageLeaf(vals[i], vb)
    decreases |vals|
  {
    var n := |vals| - 1;
    var before := WriteLeaves(mem, root, top, va, vals[..n]);
    TablesStay(mem, root, top, va, vals[..n], 3, Page(va, n));
    LeafWrite(before, root, top, Page(va, n), vals[n], vb);
    if i < n {
      PagesApart(top, va, i, n);
      PathsDiffer(top, Page(va, i), Page(va, n), vb);
      ResolvesTo(mem, root, top, va, vals[..n], i, vb);
    }
  }

  lemma PathsDiffer(top: nat, va: nat, vb: nat, vc: nat)
    requires top < 4 && !SamePath(top, 4, va, vb) && SamePath(top, 4, va, vc)
    ensures !SamePath(top, 4, vb, vc)
  {
  }

  /** Every other page translates as before. */
  lemma {:induction false} ResolvesAsBefore(mem: Memory, root: nat, top: nat, va: nat, vals: seq<nat>, vb: nat)
    requires top < 4 && Tree(mem, root, top) && HasLeafTables(mem, root, top, va, |vals|)
    requires forall i: nat | i < |vals| :: !InPage(top, va, i, vb)
    ensures Resolve(WriteLeaves(mem, root, top, va, vals), root, top, vb) == Resolve(mem, root, top, vb)
    decreases |vals|
  {
    if vals != [] {
      var n := |vals| - 1;
      var before := WriteLeaves(mem, root, top, va, vals[..n]);
      TablesStay(mem, root, top, va, vals[..n], 3, Page(va, n));
      LeafWrite(before, root, top, Page(va, n), vals[n], vb);
      assert !InPage(top, va, n, vb);
      ResolvesAsBefore(mem, root, top, va, vals[..n], vb);
    }
  }

  /** The slots of two pages of the range are different words. */
  lemma LeafSlotsApart(mem: Memory, root: nat, top: nat, va: nat, i: nat, j: nat)
    requires top < 4 && Tree(mem, root, top) && i < j && j - i < PagesBelow(top)
    requires TableAt(mem, root, top, 3, Page(va, i)).Some? && TableAt(mem, root, top, 3, Page(va, j)).Some?
    ensures LeafSlot(mem, root, top, Page(va, i)) != LeafSlot(mem, root, top, Page(va, j))
  {
    PagesApart(top, va, i, j);
    LeafSlotsDiffer(mem, root, top, Page(va, i), Page(va, j));
  }

  /** A slot of the range that was not written yet reads as before. */
  lemma {:induction false} UnwrittenSlot(mem: Memory, root: nat, top: nat, va: nat, vals: seq<nat>, j: nat)
    requires top < 4 && Tree(mem, root, top) && HasLeafTables(mem, root, top, va, |vals|)
    requires |vals| <= j < PagesBelow(top) && TableAt(mem, root, top, 3, Page(va, j)).Some?
    ensures Read(WriteLeaves(mem, root, top, va, vals), LeafSlot(mem, root, top, Page(va, j)))
            == Read(mem, LeafSlot(mem, root, top, Page(va, j)))
    decreases |vals|
  {
    if vals != [] {
      var n := |vals| - 1;
      UnwrittenSlot(mem, root, top, va, vals[..n], j);
      LeafSlotsApart(mem, root, top, va, n, j);
    }
  }

  /** Words outside the range's slots are not touched. */
  lemma {:induction false} OtherWords(mem: Memory, root: nat, top: nat, va: nat, vals: seq<nat>, a: nat)
    requires top < 4 && HasLeafTables(mem, root, top, va, |vals|)
    requires forall i: nat | i < |vals| :: LeafSlot(mem, root, top, Page(va, i)) != a
    ensures Read(WriteLeaves(mem, root, top, va, vals), a) == Read(mem, a)
    decreases |vals|
  {
    if vals != [] {
      OtherWords(mem, root, top, va, vals[..|vals| - 1], a);
      assert LeafSlot(mem, root, top, Page(va, |vals| - 1)) != a;
    }
  }

  /** A written slot holds its value. */
  lemma {:induction false} WrittenSlot(mem: Memory, root: nat, top: nat, va: nat, vals: seq<nat>, i: nat)
    requires top < 4 && Tree(mem, root, top) && HasLeafTables(mem, root, top, va, |vals|)
    requires i < |vals| <= PagesBelow(top)
    ensures Read(WriteLeaves(mem, root, top, va, vals), LeafSlot(mem, root, top, Page(va, i))) == vals[i]
    decreases |vals|
  {
    var n := |vals| - 1;
    if i < n {
      WrittenSlot(mem, root, top, va, vals[..n], i);
      LeafSlotsApart(mem, root, top, va, i, n);
    }
  }
}
