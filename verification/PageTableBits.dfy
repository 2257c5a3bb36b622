/** Translation spelled out on the bits of addresses and entries, and its agreement with `Resolve`. */
module PageTableBits {
  import opened PageTable
  import opened PageTableRange

  /** Bits 47:12 of an entry, in place. */
  function Output(e: nat): nat { e / 4096 % 0x10_0000_0000 * 4096 }

  /** AArch64 translation with 4 KB pages, from a table of each level; va[38:30] selects the L1 entry, and so on. */
  function FromL3(mem: Memory, table: nat, va: nat): Leaf
  {
    var e := Read(mem, table + va / 4096 % 512 * 8);
    if e % 2 == 1 then Mapped(3, Output(e) + va % 4096) else Unmapped
  }

  function FromL2(mem: Memory, table: nat, va: nat): Leaf
  {
    var e := Read(mem, table + va / 0x20_0000 % 512 * 8);
    if e % 4 == 1 then Mapped(2, Output(e) + va % 0x20_0000)
    else if e % 4 == 3 then FromL3(mem, Output(e), va)
    else Unmapped
  }

  function FromL1(mem: Memory, table: nat, va: nat): Leaf
  {
    var e := Read(mem, table + va / 0x4000_0000 % 512 * 8);
    if e % 4 == 1 then Mapped(1, Output(e) + va % 0x4000_0000)
    else if e % 4 == 3 then FromL2(mem, Output(e), va)
    else Unmapped
  }

  function FromL0(mem: Memory, table: nat, va: nat): Leaf
  {
    var e := Read(mem, table + va / 0x80_0000_0000 % 512 * 8);
    if e % 4 == 3 then FromL1(mem, Output(e), va) else Unmapped
  }

  lemma EntryBits(e: nat)
    ensures (IsValid(e) <==> e % 2 == 1) && (IsTable(e) <==> e % 4 == 3) && (IsBlock(e) <==> e % 4 == 1)
    ensures AddrField(e) == Output(e)
  {
    LowBits(e);
    AddrFieldMeaning(e);
  }

  lemma L3Resolves(mem: Memory, table: nat, va: nat)
    ensures ResolveAt(mem, Slot(table, 3, va), 3, va) == FromL3(mem, table, va)
  {
    IdxMeaning(3, va);
    EntryBits(Read(mem, Slot(table, 3, va)));
    QuotRem(va, 4096);
  }

  lemma L2Resolves(mem: Memory, table: nat, va: nat)
    ensures ResolveAt(mem, Slot(table, 2, va), 2, va) == FromL2(mem, table, va)
  {
    IdxMeaning(2, va);
    var e := Read(mem, Slot(table, 2, va));
    EntryBits(e);
    QuotRem(va, 0x20_0000);
    L3Resolves(mem, AddrField(e), va);
  }

  lemma L1Resolves(mem: Memory, table: nat, va: nat)
    ensures ResolveAt(mem, Slot(table, 1, va), 1, va) == FromL1(mem, table, va)
  {
    IdxMeaning(1, va);
    var e := Read(mem, Slot(table, 1, va));
    EntryBits(e);
    QuotRem(va, 0x4000_0000);
    L2Resolves(mem, AddrField(e), va);
  }

  /** The reference translation is the architecture's, from either root. */
  lemma ResolveIsTranslation(mem: Memory, root: nat, va: nat)
    ensures Resolve(mem, root, 0, va) == FromL0(mem, root, va)
    ensures Resolve(mem, root, 1, va) == FromL1(mem, root, va)
  {
    IdxMeaning(0, va);
    var e := Read(mem, Slot(root, 0, va));
    EntryBits(e);
    L1Resolves(mem, AddrField(e), va);
    L1Resolves(mem, root, va);
  }

  /** Every address of page i of an aligned range is in that page. */
  lemma OffsetInPage(top: nat, va: nat, i: nat, off: nat)
    requires va % 4096 == 0 && off < 4096
    ensures InPage(top, va, i, va + i * 4096 + off)
  {
    forall d | top <= d < 4
      ensures Idx(d, Page(va, i)) == Idx(d, va + i * 4096 + off)
    {
      SameIndex(va + i * 4096, off, d);
    }
  }

  lemma SameIndex(a: nat, off: nat, d: nat)
    requires a % 4096 == 0 && off < 4096 && d < 4
    ensures Idx(d, a + off) == Idx(d, a)
  {
    IdxMeaning(d, a);
    IdxMeaning(d, a + off);
    var p := a / 4096;
    DivModAdd(off, 4096, p);
    DivSmall(off, 4096);
    assert a == 4096 * p && (a + off) / 4096 == p;
    QuotientOf(a, d);
    QuotientOf(a + off, d);
  }

  /** Dividing by the span of an entry is dividing the page number. */
  lemma QuotientOf(a: nat, d: nat)
    requires d < 4
    ensures a / Span(d) == a / 4096 / (Span(d) / 4096)
  {
    if d == 0 { assert a / 0x80_0000_0000 == a / 4096 / 0x800_0000; }
    else if d == 1 { assert a / 0x4000_0000 == a / 4096 / 0x4_0000; }
    else if d == 2 { assert a / 0x20_0000 == a / 4096 / 512; }
    else { assert a / 4096 / 1 == a / 4096; }
  }
}
