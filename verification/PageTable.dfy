/**
 * Page-table entries, four-level translation, and what one leaf write changes.
 *
 * Entries are 64-bit words in the VMSAv8-64 descriptor format (section D8.3 of the
 * Arm ARM, DDI 0487), read here as numbers: bit 0 is "valid", bit 1 tells a table or
 * page from a block, bits 47:12 hold the output address.
 */
module PageTable {
  import opened Options

  /** Physical memory: 64-bit words by address; an absent word reads as zero. */
  type Memory = map<nat, nat>

  function Read(mem: Memory, a: nat): nat
  {
    if a in mem then mem[a] else 0
  }

  // ----- bit fields -----

  // Bit fields are quotients and remainders by powers of two. Both are spelled out by
  // subtraction so that proofs meet their arithmetic only where they ask for it,
  // through QuotRem.

  function Quot(a: nat, m: nat): nat
    requires m > 0
  {
    if a < m then 0 else 1 + Quot(a - m, m)
  }

  function Rem(a: nat, m: nat): (r: nat)
    requires m > 0
    ensures r < m
  {
    if a < m then a else Rem(a - m, m)
  }

  lemma {:induction false} QuotRem(a: nat, m: nat)
    requires m > 0
    ensures Quot(a, m) == a / m && Rem(a, m) == a % m
  {
    if a >= m {
      QuotRem(a - m, m);
      DivStep(a, m);
    } else {
      DivSmall(a, m);
    }
  }

  lemma DivSmall(a: nat, m: nat)
    requires a < m
    ensures a / m == 0 && a % m == a
  {
    var q, r := a / m, a % m;
    assert a == m * q + r;
    MulGrows(m, q);
  }

  lemma DivStep(a: nat, m: nat)
    requires m > 0 && a >= m
    ensures a / m == 1 + (a - m) / m && a % m == (a - m) % m
  {
    var q, r := a / m, a % m;
    var q', r' := (a - m) / m, (a - m) % m;
    assert a == m * q + r && a - m == m * q' + r';
    MulSub(m, q' + 1, q);
    assert m * (q' + 1) == m * q' + m;
    assert m * (q - (q' + 1)) == r' - r;
    MulGrows(m, q - (q' + 1));
    MulSub(m, q, q' + 1);
    MulGrows(m, q' + 1 - q);
  }

  lemma {:induction false} DivModAdd(a: nat, m: nat, k: nat)
    requires m > 0
    ensures (a + m * k) / m == a / m + k && (a + m * k) % m == a % m
  {
    if k > 0 {
      DivModAdd(a, m, k - 1);
      assert m * k == m * (k - 1) + m;
      DivStep(a + m * k, m);
    }
  }

  lemma MulSub(m: nat, a: int, b: int)
    ensures m * b - m * a == m * (b - a)
  {}

  lemma MulGrows(m: nat, d: int)
    ensures d >= 1 ==> m * d >= m
    ensures d <= 0 ==> m * d <= 0
  {}

  // ----- entries -----

  /** Bit 0 is set. */
  predicate IsValid(raw: nat) { Rem(raw, 4) == 1 || Rem(raw, 4) == 3 }

  /** Bits 1 and 0 are set. */
  predicate IsTable(raw: nat) { Rem(raw, 4) == 3 }

  /** Bit 0 is set and bit 1 is not. */
  predicate IsBlock(raw: nat) { Rem(raw, 4) == 1 }

  lemma LowBits(raw: nat)
    ensures IsValid(raw) <==> raw % 2 == 1
    ensures IsTable(raw) <==> raw % 4 == 3
    ensures IsBlock(raw) <==> raw % 4 == 1
  {
    QuotRem(raw, 4);
  }

  /** Bits 47:12 of a word, in place. */
  function AddrField(raw: nat): nat
  {
    Rem(Quot(raw, 4096), 0x10_0000_0000) * 4096
  }

  lemma AddrFieldMeaning(raw: nat)
    ensures AddrField(raw) == raw / 4096 % 0x10_0000_0000 * 4096
    ensures AddrField(raw) % 4096 == 0 && AddrField(raw) < 0x1_0000_0000_0000
    ensures raw % 4096 == 0 && raw < 0x1_0000_0000_0000 ==> AddrField(raw) == raw
  {
    QuotRem(raw, 4096);
    QuotRem(raw / 4096, 0x10_0000_0000);
  }

  function AttrIndex(raw: nat): nat { raw / 4 % 8 }

  function Ap(raw: nat): nat { raw / 64 % 4 }

  function Sh(raw: nat): nat { raw / 256 % 4 }

  predicate Af(raw: nat) { raw / 1024 % 2 == 1 }

  predicate IsPxn(raw: nat) { raw / 0x20_0000_0000_0000 % 2 == 1 }

  predicate IsUxn(raw: nat) { raw / 0x40_0000_0000_0000 % 2 == 1 }

  function NewTable(next: nat): nat
  {
    3 + AddrField(next)
  }

  function NewPage(phys: nat, attr: nat, ap: nat, sh: nat): nat
  {
    3 + attr % 8 * 4 + ap % 4 * 64 + sh % 4 * 256 + 1024 + AddrField(phys)
  }

  function WithPxn(raw: nat): nat
  {
    if IsPxn(raw) then raw else raw + 0x20_0000_0000_0000
  }

  function WithUxn(raw: nat): nat
  {
    if IsUxn(raw) then raw else raw + 0x40_0000_0000_0000
  }

  /** The entry bit by bit: every field that was put in lies at its place, and no other bit is set. */
  lemma NewPageFields(phys: nat, attr: nat, ap: nat, sh: nat)
    ensures var raw := NewPage(phys, attr, ap, sh);
            && raw % 4 == 3 && raw / 4 % 8 == attr % 8 && raw / 64 % 4 == ap % 4 && raw / 256 % 4 == sh % 4
            && raw / 1024 % 2 == 1 && raw / 4096 * 4096 == phys / 4096 % 0x10_0000_0000 * 4096
    ensures var raw := NewPage(phys, attr, ap, sh);
            && IsValid(raw) && IsTable(raw) && !IsBlock(raw) && Af(raw)
            && AddrField(raw) == AddrField(phys)
            && AttrIndex(raw) == attr % 8 && Ap(raw) == ap % 4 && Sh(raw) == sh % 4
            && !IsPxn(raw) && !IsUxn(raw) && raw < 0x1_0000_0000_0000
  {
    AddrFieldMeaning(phys);
    var q := phys / 4096 % 0x10_0000_0000;
    var low := 3 + attr % 8 * 4 + ap % 4 * 64 + sh % 4 * 256 + 1024;
    LowBits(low + q * 4096);
    LowFields(attr % 8, ap % 4, sh % 4, q);
    HighFields(low, q);
    assert (low + q * 4096) / 4096 == q;
  }

  lemma LowFields(a: nat, p: nat, h: nat, q: nat)
    requires a < 8 && p < 4 && h < 4
    ensures var raw := 3 + a * 4 + p * 64 + h * 256 + 1024 + q * 4096;
            && raw % 4 == 3 && AttrIndex(raw) == a && Ap(raw) == p && Sh(raw) == h && Af(raw)
  {
    Digit(3, 4, a, 8, 2 * p + 8 * h + 32 + 128 * q);
    Digit(3 + a * 4, 64, p, 4, h + 4 + 16 * q);
    Digit(3 + a * 4 + p * 64, 256, h, 4, 1 + 4 * q);
    Digit(3 + a * 4 + p * 64 + h * 256, 1024, 1, 2, 2 * q);
  }

  /** A digit above low bits and below the rest. */
  lemma Digit(low: nat, m: nat, d: nat, w: nat, rest: nat)
    requires low < m && d < w
    ensures (low + m * (d + w * rest)) / m % w == d && (low + m * (d + w * rest)) % m == low
  {
    DivModAdd(low, m, d + w * rest);
    DivSmall(low, m);
    DivModAdd(d, w, rest);
    DivSmall(d, w);
  }

  lemma HighFields(low: nat, q: nat)
    requires low < 4096 && q < 0x10_0000_0000
    ensures var raw := low + q * 4096;
            AddrField(raw) == q * 4096 && !IsPxn(raw) && !IsUxn(raw) && raw < 0x1_0000_0000_0000
  {
    AddrFieldMeaning(low + q * 4096);
    assert (low + q * 4096) / 4096 == q;
  }

  lemma NewTableFields(next: nat)
    ensures var raw := NewTable(next);
            IsTable(raw) && AddrField(raw) == AddrField(next) && raw == next / 4096 % 0x10_0000_0000 * 4096 + 3
  {
    AddrFieldMeaning(next);
    LowBits(NewTable(next));
    HighFields(3, next / 4096 % 0x10_0000_0000);
  }

  // ----- indices -----

  /** Bytes covered by one entry at depth d. */
  function Span(d: nat): nat
    requires d < 4
  {
    if d == 0 then 0x80_0000_0000 else if d == 1 then 0x4000_0000
    else if d == 2 then 0x20_0000 else 4096
  }

  /** The 9-bit table index of a virtual address at depth d (0 is L0, 3 is L3). */
  function Idx(d: nat, va: nat): (i: nat)
    requires d < 4
    ensures i < 512
  {
    Rem(Quot(va, Span(d)), 512)
  }

  /** The index is the field of the address that its name says: `va >> shift & 0x1FF`. */
  lemma IdxMeaning(d: nat, va: nat)
    requires d < 4
    ensures Idx(d, va) == va / Span(d) % 512
  {
    QuotRem(va, Span(d));
    QuotRem(va / Span(d), 512);
  }

  function Slot(table: nat, d: nat, va: nat): nat
    requires d < 4
  {
    table + Idx(d, va) * 8
  }

  /** Slots of different table pages, or of different indices, are different words. */
  lemma SlotsApart(t: nat, i: nat, u: nat, j: nat)
    requires t % 4096 == 0 && u % 4096 == 0 && i < 512 && j < 512
    ensures t + i * 8 == u + j * 8 <==> t == u && i == j
  {
  }

  // ----- translation -----

  /** Where a walk ends: nowhere, or at some depth with a physical address. */
  datatype Leaf = Unmapped | Mapped(depth: nat, phys: nat)

  /** What the last-level entry `raw` gives for `va`. */
  function PageLeaf(raw: nat, va: nat): Leaf
  {
    if IsValid(raw) then Mapped(3, AddrField(raw) + Rem(va, 4096)) else Unmapped
  }

  /** The walk from the entry at `slot`, which is the one for `va` at depth d. */
  function ResolveAt(mem: Memory, slot: nat, d: nat, va: nat): Leaf
    requires d < 4
    decreases 4 - d
  {
    var raw := Read(mem, slot);
    if d == 3 then PageLeaf(raw, va)
    else if d > 0 && IsBlock(raw) then Mapped(d, AddrField(raw) + Rem(va, Span(d)))
    else if IsTable(raw) then ResolveAt(mem, Slot(AddrField(raw), d + 1, va), d + 1, va)
    else Unmapped
  }

  /** One level of the walk through a table entry. */
  lemma ResolveStep(mem: Memory, slot: nat, d: nat, va: nat)
    requires d < 3 && IsTable(Read(mem, slot))
    ensures ResolveAt(mem, slot, d, va)
            == ResolveAt(mem, Slot(AddrField(Read(mem, slot)), d + 1, va), d + 1, va)
  {}

  /** The reference translation, from a root table at depth `top`. */
  function Resolve(mem: Memory, root: nat, top: nat, va: nat): Leaf
    requires top < 4
  {
    ResolveAt(mem, Slot(root, top, va), top, va)
  }

  /** The table that serves `va` at depth d. */
  function TableAt(mem: Memory, root: nat, top: nat, d: nat, va: nat): Option<nat>
    requires top <= d < 4
    decreases d
  {
    if d == top then Some(root)
    else match TableAt(mem, root, top, d - 1, va)
    case None => None
    case Some(t) =>
      var raw := Read(mem, Slot(t, d - 1, va));
      if IsTable(raw) then Some(AddrField(raw)) else None
  }

  /** Two addresses take the same entries from depth `top` down to depth d, exclusive. */
  predicate SamePath(top: nat, d: nat, va: nat, vb: nat)
    requires d <= 4
  {
    forall e | top <= e < d :: Idx(e, va) == Idx(e, vb)
  }

  /** The tables form a tree: no table page is reached by two different paths. */
  ghost predicate Tree(mem: Memory, root: nat, top: nat)
    requires top < 4
  {
    && root % 4096 == 0
    && forall d, e, va, vb | top <= d < 4 && top <= e < 4 :: OnePath(mem, root, top, d, va, e, vb)
  }

  /** If two paths reach the same table page, they are the same path. */
  predicate OnePath(mem: Memory, root: nat, top: nat, d: nat, va: nat, e: nat, vb: nat)
    requires top <= d < 4 && top <= e < 4
  {
    var t := TableAt(mem, root, top, d, va);
    t.Some? && t == TableAt(mem, root, top, e, vb) ==> d == e && SamePath(top, d, va, vb)
  }

  lemma {:induction false} SamePathSameTable(mem: Memory, root: nat, top: nat, d: nat, va: nat, vb: nat)
    requires top <= d < 4 && SamePath(top, d, va, vb)
    ensures TableAt(mem, root, top, d, va) == TableAt(mem, root, top, d, vb)
    decreases d
  {
    if d > top { SamePathSameTable(mem, root, top, d - 1, va, vb); }
  }

  lemma {:induction false} TablesAligned(mem: Memory, root: nat, top: nat, d: nat, va: nat)
    requires top <= d < 4 && root % 4096 == 0
    ensures TableAt(mem, root, top, d, va).Some? ==> TableAt(mem, root, top, d, va).value % 4096 == 0
    decreases d
  {
    if d > top && TableAt(mem, root, top, d - 1, va).Some? {
      AddrFieldMeaning(Read(mem, Slot(TableAt(mem, root, top, d - 1, va).value, d - 1, va)));
    }
  }

  lemma {:induction false} TablesAbove(mem: Memory, root: nat, top: nat, d: nat, e: nat, va: nat)
    requires top <= e <= d < 4 && TableAt(mem, root, top, d, va).Some?
    ensures TableAt(mem, root, top, e, va).Some?
    decreases d
  {
    if e < d { TablesAbove(mem, root, top, d - 1, e, va); }
  }

  /** Resolving from the root is resolving from any table on the way. */
  lemma {:induction false} ResolveFrom(mem: Memory, root: nat, top: nat, d: nat, va: nat)
    requires top <= d < 4 && TableAt(mem, root, top, d, va).Some?
    ensures Resolve(mem, root, top, va)
            == ResolveAt(mem, Slot(TableAt(mem, root, top, d, va).value, d, va), d, va)
    decreases d
  {
    if d > top { ResolveFrom(mem, root, top, d - 1, va); }
  }

  /** A walk that ends at the last depth went through a table at every depth. */
  lemma {:induction false} ResolvedThroughTables(mem: Memory, root: nat, top: nat, d: nat, va: nat)
    requires top <= d < 4 && TableAt(mem, root, top, d, va).Some?
    requires Resolve(mem, root, top, va).Mapped? && Resolve(mem, root, top, va).depth == 3
    ensures TableAt(mem, root, top, 3, va).Some?
    decreases 4 - d
  {
    ResolveFrom(mem, root, top, d, va);
    if d < 3 { ResolvedThroughTables(mem, root, top, d + 1, va); }
  }

  // ----- one write to a last-level slot -----

  /** The last-level slot of `va`. */
  function LeafSlot(mem: Memory, root: nat, top: nat, va: nat): nat
    requires top < 4 && TableAt(mem, root, top, 3, va).Some?
  {
    Slot(TableAt(mem, root, top, 3, va).value, 3, va)
  }

  /** No table entry above the last level lies in the last-level table of `va`. */
  lemma UpperSlotApart(mem: Memory, root: nat, top: nat, d: nat, va: nat, vb: nat)
    requires top <= d < 3 && Tree(mem, root, top)
    requires TableAt(mem, root, top, 3, va).Some? && TableAt(mem, root, top, d, vb).Some?
    ensures Slot(TableAt(mem, root, top, d, vb).value, d, vb) != LeafSlot(mem, root, top, va)
  {
    TablesAligned(mem, root, top, d, vb);
    TablesAligned(mem, root, top, 3, va);
    assert OnePath(mem, root, top, d, vb, 3, va);
    SlotsApart(TableAt(mem, root, top, d, vb).value, Idx(d, vb),
               TableAt(mem, root, top, 3, va).value, Idx(3, va));
  }

  /** Pages on different paths have different last-level slots. */
  lemma LeafSlotsDiffer(mem: Memory, root: nat, top: nat, va: nat, vb: nat)
    requires top < 4 && Tree(mem, root, top) && !SamePath(top, 4, va, vb)
    requires TableAt(mem, root, top, 3, va).Some? && TableAt(mem, root, top, 3, vb).Some?
    ensures LeafSlot(mem, root, top, va) != LeafSlot(mem, root, top, vb)
  {
    TablesAligned(mem, root, top, 3, va);
    TablesAligned(mem, root, top, 3, vb);
    assert OnePath(mem, root, top, 3, va, 3, vb);
    SlotsApart(TableAt(mem, root, top, 3, va).value, Idx(3, va),
               TableAt(mem, root, top, 3, vb).value, Idx(3, vb));
  }

  /** Writing a last-level slot moves no table. */
  lemma {:induction false} TablesKept(mem: Memory, root: nat, top: nat, va: nat, v: nat, d: nat, vb: nat)
    requires top <= d < 4 && Tree(mem, root, top) && TableAt(mem, root, top, 3, va).Some?
    ensures TableAt(mem[LeafSlot(mem, root, top, va) := v], root, top, d, vb)
            == TableAt(mem, root, top, d, vb)
    decreases d
  {
    if d > top {
      TablesKept(mem, root, top, va, v, d - 1, vb);
      if TableAt(mem, root, top, d - 1, vb).Some? { UpperSlotApart(mem, root, top, d - 1, va, vb); }
    }
  }

  lemma TreeKept(mem: Memory, root: nat, top: nat, va: nat, v: nat)
    requires top < 4 && Tree(mem, root, top) && TableAt(mem, root, top, 3, va).Some?
    ensures Tree(mem[LeafSlot(mem, root, top, va) := v], root, top)
  {
    var mem' := mem[LeafSlot(mem, root, top, va) := v];
    forall d, e, vb, vc | top <= d < 4 && top <= e < 4
      ensures OnePath(mem', root, top, d, vb, e, vc)
    {
      TablesKept(mem, root, top, va, v, d, vb);
      TablesKept(mem, root, top, va, v, e, vc);
      assert OnePath(mem, root, top, d, vb, e, vc);
    }
  }

  /** Writing a last-level slot changes the translation of that page, and of no other. */
  lemma LeafWrite(mem: Memory, root: nat, top: nat, va: nat, v: nat, vb: nat)
    requires top < 4 && Tree(mem, root, top) && TableAt(mem, root, top, 3, va).Some?
    ensures Resolve(mem[LeafSlot(mem, root, top, va) := v], root, top, vb)
            == if SamePath(top, 4, va, vb) then PageLeaf(v, vb) else Resolve(mem, root, top, vb)
  {
    if SamePath(top, 4, va, vb) {
      LeafWriteHere(mem, root, top, va, v, vb);
    } else {
      LeafWriteElsewhere(mem, root, top, va, v, top, vb);
    }
  }

  lemma LeafWriteHere(mem: Memory, root: nat, top: nat, va: nat, v: nat, vb: nat)
    requires top < 4 && Tree(mem, root, top) && TableAt(mem, root, top, 3, va).Some?
    requires SamePath(top, 4, va, vb)
    ensures Resolve(mem[LeafSlot(mem, root, top, va) := v], root, top, vb) == PageLeaf(v, vb)
  {
    var mem' := mem[LeafSlot(mem, root, top, va) := v];
    assert SamePath(top, 3, va, vb) && Idx(3, va) == Idx(3, vb);
    SamePathSameTable(mem, root, top, 3, va, vb);
    TablesKept(mem, root, top, va, v, 3, vb);
    ResolveFrom(mem', root, top, 3, vb);
  }

  lemma {:induction false} LeafWriteElsewhere(mem: Memory, root: nat, top: nat, va: nat, v: nat, d: nat, vb: nat)
    requires top <= d < 4 && Tree(mem, root, top) && TableAt(mem, root, top, 3, va).Some?
    requires TableAt(mem, root, top, d, vb).Some? && !SamePath(top, 4, va, vb)
    ensures var slot := Slot(TableAt(mem, root, top, d, vb).value, d, vb);
            ResolveAt(mem[LeafSlot(mem, root, top, va) := v], slot, d, vb) == ResolveAt(mem, slot, d, vb)
    decreases 4 - d
  {
    var t := TableAt(mem, root, top, d, vb).value;
    if d < 3 {
      UpperSlotApart(mem, root, top, d, va, vb);
      if IsTable(Read(mem, Slot(t, d, vb))) { LeafWriteElsewhere(mem, root, top, va, v, d + 1, vb); }
    } else {
      LeafSlotsDiffer(mem, root, top, va, vb);
    }
  }

  // ----- pages -----

  /** Address of the i-th page after `va`. */
  function Page(va: nat, i: nat): nat
  {
    va + i * 4096
  }

  /** How many pages a root table at depth `top` can map. */
  function PagesBelow(top: nat): nat
    requires top < 4
  {
    if top == 0 then 0x10_0000_0000 else if top == 1 then 0x800_0000 else if top == 2 then 0x4_0000 else 512
  }

  /** Two pages of a range shorter than the root's reach never take the same path. */
  lemma PagesApart(top: nat, va: nat, i: nat, j: nat)
    requires top < 4 && i < j && j - i < PagesBelow(top)
    ensures !SamePath(top, 4, Page(va, i), Page(va, j))
  {
    var p, q := va / 4096 + i, va / 4096 + j;
    var vi, vj := Page(va, i), Page(va, j);
    assert vi / 4096 == p && vj / 4096 == q;
    IdxOfPage(vi);
    IdxOfPage(vj);
    if SamePath(top, 4, vi, vj) {
      assert Idx(3, vi) == Idx(3, vj);
      if top <= 2 { assert Idx(2, vi) == Idx(2, vj); SameDigits2(p, q); }
      if top <= 1 { assert Idx(1, vi) == Idx(1, vj); SameDigits1(p, q); }
      if top == 0 { assert Idx(0, vi) == Idx(0, vj); SameDigits0(p, q); }
      NoSmallMultiple(p, q, PagesBelow(top));
    }
  }

  lemma SameDigits2(p: nat, q: nat)
    requires p % 512 == q % 512 && p / 512 % 512 == q / 512 % 512
    ensures p % 0x4_0000 == q % 0x4_0000
  {
    assert p % 0x4_0000 == p / 512 % 512 * 512 + p % 512;
    assert q % 0x4_0000 == q / 512 % 512 * 512 + q % 512;
  }

  lemma SameDigits1(p: nat, q: nat)
    requires p % 0x4_0000 == q % 0x4_0000 && p / 0x4_0000 % 512 == q / 0x4_0000 % 512
    ensures p % 0x800_0000 == q % 0x800_0000
  {
    assert p % 0x800_0000 == p / 0x4_0000 % 512 * 0x4_0000 + p % 0x4_0000;
    assert q % 0x800_0000 == q / 0x4_0000 % 512 * 0x4_0000 + q % 0x4_0000;
  }

  lemma SameDigits0(p: nat, q: nat)
    requires p % 0x800_0000 == q % 0x800_0000 && p / 0x800_0000 % 512 == q / 0x800_0000 % 512
    ensures p % 0x10_0000_0000 == q % 0x10_0000_0000
  {
    assert p % 0x10_0000_0000 == p / 0x800_0000 % 512 * 0x800_0000 + p % 0x800_0000;
    assert q % 0x10_0000_0000 == q / 0x800_0000 % 512 * 0x800_0000 + q % 0x800_0000;
  }

  lemma NoSmallMultiple(p: nat, q: nat, m: nat)
    requires p < q && q - p < m
    ensures p % m != q % m
  {
    if p % m == q % m {
      var a, b := p / m, q / m;
      assert p == m * a + p % m && q == m * b + q % m;
      MulSub(m, a, b);
      MulGrows(m, b - a);
    }
  }

  lemma IdxOfPage(va: nat)
    ensures var p := va / 4096;
            && Idx(3, va) == p % 512
            && Idx(2, va) == p / 512 % 512
            && Idx(1, va) == p / 0x4_0000 % 512
            && Idx(0, va) == p / 0x800_0000 % 512
  {
    IdxMeaning(0, va);
    IdxMeaning(1, va);
    IdxMeaning(2, va);
    IdxMeaning(3, va);
    DivDiv(va);
  }

  lemma DivDiv(va: nat)
    ensures va / 4096 / 512 == va / 0x20_0000
    ensures va / 4096 / 0x4_0000 == va / 0x4000_0000
    ensures va / 4096 / 0x800_0000 == va / 0x80_0000_0000
  {}
}
