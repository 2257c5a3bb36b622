/**
 * Property values written from numbers, byte by byte, and read back by the walk's decoders.
 * Nothing here is defined through the functions that read.
 */
module FdtValues {
  import opened Options
  import opened FdtFormat
  import opened FdtSpec

  // ----- numbers -----

  /** One more than the largest number that n bytes hold. */
  function Limit(n: nat): (l: nat)
    ensures l >= 1
  {
    if n == 0 then 1 else Limit(n - 1) * 256
  }

  /** The n low bytes of a number, the most significant one first. */
  function NumberBytes(v: nat, n: nat): (b: seq<Byte>)
    ensures |b| == n
  {
    if n == 0 then [] else NumberBytes(v / 256, n - 1) + [v % 256]
  }

  lemma {:induction false} NumberReadBack(data: seq<Byte>, i: nat, v: nat, n: nat)
    requires v < Limit(n) && At(data, i, NumberBytes(v, n))
    ensures i + n <= |data| && BigEndian(data, i, i + n) == v
    decreases n
  {
    if n > 0 {
      var head := NumberBytes(v / 256, n - 1);
      AtConcat(data, i, head, [v % 256]);
      NumberReadBack(data, i, v / 256, n - 1);
      AtIndex(data, i + (n - 1), [v % 256], 0);
    }
  }

  /** Joining two parts of a number: the first one is shifted past the second. */
  lemma {:induction false} BigEndianSplit(data: seq<Byte>, i: nat, m: nat, end: nat)
    requires i <= m <= end <= |data|
    ensures BigEndian(data, i, end) == BigEndian(data, i, m) * Limit(end - m) + BigEndian(data, m, end)
    decreases end - m
  {
    if m < end {
      BigEndianSplit(data, i, m, end - 1);
      Shift(BigEndian(data, i, m), Limit(end - 1 - m), BigEndian(data, m, end - 1));
    }
  }

  lemma Shift(a: nat, l: nat, b: nat)
    ensures (a * l + b) * 256 == a * (l * 256) + b * 256
  {}

  lemma FourByteLimit()
    ensures Limit(4) == 0x1_0000_0000
  {
    assert Limit(1) == 256;
    assert Limit(2) == 0x1_0000;
    assert Limit(3) == 0x100_0000;
  }

  /** What is read from one or two cells is the big-endian number of their four or eight bytes. */
  lemma CellsNumber(data: seq<Byte>, i: nat, cells: nat)
    requires i + 4 * cells <= |data|
    ensures cells == 1 ==> CellsAt(data, i, cells) == BigEndian(data, i, i + 4)
    ensures cells == 2 ==> CellsAt(data, i, cells) == BigEndian(data, i, i + 8)
    ensures cells == 0 || cells > 2 ==> CellsAt(data, i, cells) == 0
  {
    if cells == 2 {
      BigEndianSplit(data, i, i + 4, i + 8);
      FourByteLimit();
    }
  }

  /** A number in 32-bit cells. */
  function Cells(v: nat, cells: nat): (b: seq<Byte>)
    ensures |b| == 4 * cells
  {
    NumberBytes(v, 4 * cells)
  }

  /** The walk reads numbers of up to two cells; wider ones come out as zero. */
  function Seen(v: nat, cells: nat): nat
  {
    if cells <= 2 then v else 0
  }

  lemma CellsReadBack(data: seq<Byte>, i: nat, v: nat, cells: nat)
    requires v < Limit(4 * cells) && At(data, i, Cells(v, cells))
    ensures CellsAt(data, i, cells) == Seen(v, cells)
  {
    CellsNumber(data, i, cells);
    NumberReadBack(data, i, v, 4 * cells);
  }

  lemma AtSelf(v: seq<Byte>)
    ensures At(v, 0, v)
  {
    AtEvery(v, 0, v);
  }

  // ----- `reg` -----

  datatype Window = Window(addr: nat, size: nat)

  datatype Windows = NoWindows | Windows(first: Window, rest: Windows)

  predicate WindowsFit(ws: Windows, ac: nat, sc: nat)
  {
    ws.Windows? ==> ws.first.addr < Limit(4 * ac) && ws.first.size < Limit(4 * sc) && WindowsFit(ws.rest, ac, sc)
  }

  /** A `reg` value: pairs of an address and a size. */
  function RegBytes(ws: Windows, ac: nat, sc: nat): (b: seq<Byte>)
  {
    match ws
    case NoWindows => []
    case Windows(w, rest) => Cells(w.addr, ac) + (Cells(w.size, sc) + RegBytes(rest, ac, sc))
  }

  /** The first pair is read back where it lies, and the second address behind it. */
  lemma RegAt(v: seq<Byte>, i: nat, ws: Windows, ac: nat, sc: nat)
    requires ws.Windows? && WindowsFit(ws, ac, sc) && At(v, i, RegBytes(ws, ac, sc))
    ensures i + 4 * ac + 4 * sc <= |v|
    ensures CellsAt(v, i, ac) == Seen(ws.first.addr, ac) && CellsAt(v, i + 4 * ac, sc) == Seen(ws.first.size, sc)
    ensures At(v, i + 4 * ac + 4 * sc, RegBytes(ws.rest, ac, sc))
  {
    var size, rest := Cells(ws.first.size, sc), RegBytes(ws.rest, ac, sc);
    AtConcat(v, i, Cells(ws.first.addr, ac), size + rest);
    AtConcat(v, i + 4 * ac, size, rest);
    CellsReadBack(v, i, ws.first.addr, ac);
    CellsReadBack(v, i + 4 * ac, ws.first.size, sc);
  }

  /** What the walk takes from a written `reg` value: the first pair, and the second address if there is one. */
  function Taken(ws: Windows, ac: nat, sc: nat): (nat, nat, nat)
  {
    if ws.NoWindows? then (0, 0, 0)
    else
      (Seen(ws.first.addr, ac), Seen(ws.first.size, sc), if ws.rest.Windows? then Seen(ws.rest.first.addr, ac) else 0)
  }

  lemma RegOne(v: seq<Byte>, ws: Windows, ac: nat, sc: nat)
    requires v == RegBytes(ws, ac, sc) && WindowsFit(ws, ac, sc) && ws.Windows? && ws.rest.NoWindows?
    ensures RegOf(v, ac, sc) == (Seen(ws.first.addr, ac), Seen(ws.first.size, sc), 0)
  {
    AtSelf(v);
    RegAt(v, 0, ws, ac, sc);
    assert |v| == (ac + sc) * 4;
  }

  lemma RegSeveral(v: seq<Byte>, ws: Windows, ac: nat, sc: nat)
    requires v == RegBytes(ws, ac, sc) && WindowsFit(ws, ac, sc) && ws.Windows? && ws.rest.Windows?
    ensures RegOf(v, ac, sc)
            == (Seen(ws.first.addr, ac), Seen(ws.first.size, sc), Seen(ws.rest.first.addr, ac))
  {
    AtSelf(v);
    RegAt(v, 0, ws, ac, sc);
    RegAt(v, 4 * ac + 4 * sc, ws.rest, ac, sc);
    assert |v| >= (ac + sc) * 8;
  }

  lemma RegReadBack(ws: Windows, ac: nat, sc: nat)
    requires WindowsFit(ws, ac, sc)
    ensures RegOf(RegBytes(ws, ac, sc), ac, sc) == Taken(ws, ac, sc)
  {
    if ws.Windows? {
      if ws.rest.Windows? {
        RegSeveral(RegBytes(ws, ac, sc), ws, ac, sc);
      } else {
        RegOne(RegBytes(ws, ac, sc), ws, ac, sc);
      }
    }
  }

  /** With the cell counts that the Devicetree Specification allows for, nothing is lost. */
  lemma RegIsExact(ws: Windows, ac: nat, sc: nat)
    requires ws.Windows? && WindowsFit(ws, ac, sc)
    ensures RegOf(RegBytes(ws, ac, sc), ac, sc).0 == ws.first.addr <==> ac <= 2 || ws.first.addr == 0
    ensures RegOf(RegBytes(ws, ac, sc), ac, sc).1 == ws.first.size <==> sc <= 2 || ws.first.size == 0
  {
    RegReadBack(ws, ac, sc);
  }

  /** A node below its bus: its `reg` in the bus's cells, its addresses carried to the root. */
  lemma RegReported(ws: Windows, buses: seq<Bus>, bus: Bus)
    requires bus.addressCells <= 2 && bus.sizeCells <= 2 && ws.Windows?
    requires WindowsFit(ws, bus.addressCells, bus.sizeCells)
    ensures var (addr, size, addr2) := RegBelow(RegBytes(ws, bus.addressCells, bus.sizeCells), buses + [bus]);
            addr == Physical(buses + [bus], ws.first.addr) && size == ws.first.size
            && addr2 == if ws.rest.Windows? then Physical(buses + [bus], ws.rest.first.addr) else 0
  {
    RegReadBack(ws, bus.addressCells, bus.sizeCells);
  }

  // ----- `ranges` -----

  predicate RangeFits(r: Range, c: nat, p: nat, s: nat)
  {
    r.child < Limit(4 * c) && r.parent < Limit(4 * p) && r.size < Limit(4 * s)
  }

  predicate RangesFit(rs: seq<Range>, c: nat, p: nat, s: nat)
  {
    rs == [] || (RangeFits(rs[0], c, p, s) && RangesFit(rs[1..], c, p, s))
  }

  function RangeBytes(r: Range, c: nat, p: nat, s: nat): (b: seq<Byte>)
    ensures |b| == 4 * c + 4 * p + 4 * s
  {
    Cells(r.child, c) + (Cells(r.parent, p) + Cells(r.size, s))
  }

  /** A `ranges` value: triples of a child address, a parent address and a size. */
  function RangesBytes(rs: seq<Range>, c: nat, p: nat, s: nat): (b: seq<Byte>)
  {
    if rs == [] then [] else RangeBytes(rs[0], c, p, s) + RangesBytes(rs[1..], c, p, s)
  }

  function RangeSeen(r: Range, c: nat, p: nat, s: nat): Range
  {
    Range(Seen(r.child, c), Seen(r.parent, p), Seen(r.size, s))
  }

  lemma RangeAt(v: seq<Byte>, i: nat, r: Range, c: nat, p: nat, s: nat)
    requires RangeFits(r, c, p, s) && At(v, i, RangeBytes(r, c, p, s))
    ensures i + 4 * c + 4 * p + 4 * s <= |v|
    ensures Range(CellsAt(v, i, c), CellsAt(v, i + c * 4, p), CellsAt(v, i + (c + p) * 4, s)) == RangeSeen(r, c, p, s)
  {
    var parent, size := Cells(r.parent, p), Cells(r.size, s);
    AtConcat(v, i, Cells(r.child, c), parent + size);
    AtConcat(v, i + 4 * c, parent, size);
    CellsReadBack(v, i, r.child, c);
    CellsReadBack(v, i + 4 * c, r.parent, p);
    CellsReadBack(v, i + 4 * c + 4 * p, r.size, s);
    assert i + (c + p) * 4 == i + 4 * c + 4 * p;
  }

  /** The first `room` entries, as the walk sees them. */
  function RangesSeen(rs: seq<Range>, c: nat, p: nat, s: nat, room: nat): (r: seq<Range>)
    ensures |r| == if |rs| < room then |rs| else room
    ensures forall k | 0 <= k < |r| :: r[k] == RangeSeen(rs[k], c, p, s)
  {
    if rs == [] || room == 0 then []
    else [RangeSeen(rs[0], c, p, s)] + RangesSeen(rs[1..], c, p, s, room - 1)
  }

  lemma {:induction false} RangesReadBackAt(v: seq<Byte>, i: nat, rs: seq<Range>, c: nat, p: nat, s: nat, room: nat)
    requires RangesFit(rs, c, p, s) && c + p + s > 0
    requires At(v, i, RangesBytes(rs, c, p, s)) && i + |RangesBytes(rs, c, p, s)| == |v|
    ensures RangesAt(v, i, |v|, c, p, s, room) == RangesSeen(rs, c, p, s, room)
    decreases |rs|
  {
    if rs != [] {
      var head, rest := RangeBytes(rs[0], c, p, s), RangesBytes(rs[1..], c, p, s);
      AtConcat(v, i, head, rest);
      RangeAt(v, i, rs[0], c, p, s);
      assert EntryBytes(c, p, s) == |head|;
      if room > 0 { RangesReadBackAt(v, i + |head|, rs[1..], c, p, s, room - 1); }
    }
  }

  /** The first three entries of every `ranges` value are read back. */
  lemma RangesReadBack(rs: seq<Range>, c: nat, p: nat, s: nat)
    requires RangesFit(rs, c, p, s) && c + p + s > 0
    ensures var v := RangesBytes(rs, c, p, s);
            RangesAt(v, 0, |v|, c, p, s, MAX_RANGES) == RangesSeen(rs, c, p, s, 3)
  {
    AtSelf(RangesBytes(rs, c, p, s));
    RangesReadBackAt(RangesBytes(rs, c, p, s), 0, rs, c, p, s, 3);
  }

  // ----- translation -----

  predicate Holds(r: Range, a: nat)
  {
    r.child <= a < r.child + r.size
  }

  /** The first range that holds the address moves it by the distance between the two windows. */
  lemma {:induction false} ThroughFirst(ranges: seq<Range>, a: nat, i: nat)
    requires i < |ranges| && Holds(ranges[i], a)
    requires forall k | 0 <= k < i :: !Holds(ranges[k], a)
    ensures Through(ranges, a) == (ranges[i].parent + a - ranges[i].child) % 0x1_0000_0000_0000_0000
    decreases i
  {
    if i > 0 {
      assert !Holds(ranges[0], a);
      forall k | 0 <= k < i - 1
        ensures !Holds(ranges[1..][k], a)
      {
        assert ranges[1..][k] == ranges[k + 1];
      }
      ThroughFirst(ranges[1..], a, i - 1);
    }
  }

  /** An address that no range holds stays as it is. */
  lemma {:induction false} ThroughNone(ranges: seq<Range>, a: nat)
    requires forall k | 0 <= k < |ranges| :: !Holds(ranges[k], a)
    ensures Through(ranges, a) == a
    decreases |ranges|
  {
    if ranges != [] {
      assert !Holds(ranges[0], a);
      forall k | 0 <= k < |ranges| - 1
        ensures !Holds(ranges[1..][k], a)
      {
        assert ranges[1..][k] == ranges[k + 1];
      }
      ThroughNone(ranges[1..], a);
    }
  }

  /** The innermost bus maps first; the root's own ranges, if any, are never applied. */
  lemma ToRootStep(buses: seq<Bus>, bus: Bus, a: nat)
    ensures ToRoot(buses + [bus], a) == if buses == [] then a else ToRoot(buses, Through(bus.ranges, a))
  {
    assert (buses + [bus])[..|buses|] == buses;
  }

  /** Nothing is lost from the first three ranges. */
  lemma SeenIsWhole(rs: seq<Range>, c: nat, p: nat, s: nat, i: nat)
    requires c <= 2 && p <= 2 && s <= 2 && i < |rs| && i < 3
    ensures |RangesSeen(rs, c, p, s, 3)| > i && RangesSeen(rs, c, p, s, 3)[i] == rs[i]
  {
    assert RangesSeen(rs, c, p, s, 3)[i] == RangeSeen(rs[i], c, p, s);
  }

  lemma RangesOfBus(items: Items, root: Bus, rs: seq<Range>, c: nat, s: nat)
    requires c == WordOf(items, AddressCells, 2) && s == WordOf(items, SizeCells, 2) && c > 0
    requires RangesFit(rs, c, root.addressCells, s)
    requires ValueOf(items, Ranges) == RangesBytes(rs, c, root.addressCells, s)
    ensures BusOf(items, [root]).ranges == RangesSeen(rs, c, root.addressCells, s, 3)
  {
    RangesReadBack(rs, c, root.addressCells, s);
  }

  /**
   * A bus below the root, from the bytes of its `ranges` to the root address of one of its children:
   * the first of the three leading ranges that holds the child's address decides.
   */
  lemma BusMapsToRoot(items: Items, root: Bus, rs: seq<Range>, c: nat, s: nat, a: nat, i: nat)
    requires c == WordOf(items, AddressCells, 2) && s == WordOf(items, SizeCells, 2)
    requires 0 < c <= 2 && s <= 2 && root.addressCells <= 2
    requires RangesFit(rs, c, root.addressCells, s)
    requires ValueOf(items, Ranges) == RangesBytes(rs, c, root.addressCells, s)
    requires i < |rs| && i < 3 && Holds(rs[i], a) && forall k | 0 <= k < i :: !Holds(rs[k], a)
    ensures ToRoot([root, BusOf(items, [root])], a) == (rs[i].parent + a - rs[i].child) % 0x1_0000_0000_0000_0000
  {
    var p, bus := root.addressCells, BusOf(items, [root]);
    RangesOfBus(items, root, rs, c, s);
    MapsToRoot(root, bus, rs, c, p, s, a, i);
  }

  lemma MapsToRoot(root: Bus, bus: Bus, rs: seq<Range>, c: nat, p: nat, s: nat, a: nat, i: nat)
    requires c <= 2 && p <= 2 && s <= 2 && bus.ranges == RangesSeen(rs, c, p, s, 3)
    requires i < |rs| && i < 3 && Holds(rs[i], a) && forall k | 0 <= k < i :: !Holds(rs[k], a)
    ensures ToRoot([root, bus], a) == (rs[i].parent + a - rs[i].child) % 0x1_0000_0000_0000_0000
  {
    SeenIsWhole(rs, c, p, s, i);
    forall k | 0 <= k < i
      ensures !Holds(bus.ranges[k], a)
    {
      SeenIsWhole(rs, c, p, s, k);
    }
    ThroughFirst(bus.ranges, a, i);
    assert [root, bus] == [root] + [bus];
    ToRootStep([root], bus, a);
    ToRootStep([], root, Through(bus.ranges, a));
  }

  // ----- single words -----

  /** Whichever property of a kind comes last counts, if it is long enough. */
  function Then(items: Items, it: Item): Items
  {
    match items
    case NoItems => Items(it, NoItems)
    case Items(first, rest) => Items(first, Then(rest, it))
  }

  lemma {:induction false} LastCounts(items: Items, it: Item, key: Key, min: nat)
    ensures Last(Then(items, it), key, min)
            == if it.Property? && it.key == key && |it.value| >= min then Some(it.value) else Last(items, key, min)
    decreases items
  {
    if items.Items? { LastCounts(items.rest, it, key, min); }
  }

  lemma WordReadBack(items: Items, nameOff: nat, key: Key, default: nat, w: nat)
    requires w < 0x1_0000_0000
    ensures WordOf(Then(items, Property(key, nameOff, Cells(w, 1))), key, default) == w
  {
    FourByteLimit();
    AtSelf(Cells(w, 1));
    LastCounts(items, Property(key, nameOff, Cells(w, 1)), key, 4);
    CellsReadBack(Cells(w, 1), 0, w, 1);
  }

  /** An interrupt specifier: type, number, flags. Shared peripheral interrupts, type 0, start at 32. */
  lemma InterruptReadBack(items: Items, nameOff: nat, kind: nat, number: nat, flags: nat)
    requires kind < 0x1_0000_0000 && number < 0x1_0000_0000 && flags < 0x1_0000_0000
    ensures var v := Cells(kind, 1) + (Cells(number, 1) + Cells(flags, 1));
            InterruptOf(Then(items, Property(Interrupts, nameOff, v))) == if kind == 0 then 32 + number else 0
  {
    var v := Cells(kind, 1) + (Cells(number, 1) + Cells(flags, 1));
    LastCounts(items, Property(Interrupts, nameOff, v), Interrupts, 12);
    FourByteLimit();
    AtSelf(v);
    AtConcat(v, 0, Cells(kind, 1), Cells(number, 1) + Cells(flags, 1));
    AtConcat(v, 4, Cells(number, 1), Cells(flags, 1));
    CellsReadBack(v, 0, kind, 1);
    CellsReadBack(v, 4, number, 1);
  }

  /** The first four strings of a list. */
  lemma CompatibleReadBack(ts: Texts)
    requires Plain(ts)
    ensures StringsOf(Joined(ts)) == First(ts, 4)
  {
    AtSelf(Joined(ts));
    CompatOfJoined(Joined(ts), 0, ts, MAX_COMPAT);
  }

  // ----- tokens and names -----

  /** The five tokens, byte by byte. */
  lemma TokenBytes()
    ensures U32Be(BEGIN_NODE) == [0, 0, 0, 1] && U32Be(END_NODE) == [0, 0, 0, 2] && U32Be(PROP) == [0, 0, 0, 3]
    ensures U32Be(NOP) == [0, 0, 0, 4] && U32Be(END) == [0, 0, 0, 9]
  {}

  /** The bytes spell the text. */
  predicate Spells(b: seq<Byte>, text: string)
  {
    |b| == |text| && forall k | 0 <= k < |b| :: b[k] == text[k] as int
  }

  lemma OneSpelling(b: seq<Byte>, name: seq<Byte>, text: string)
    requires Spells(name, text)
    ensures Spells(b, text) <==> b == name
  {}

  lemma SpellingsOne()
    ensures Spells(COMPATIBLE, "compatible") && Spells(ADDRESS_CELLS, "#address-cells")
    ensures Spells(SIZE_CELLS, "#size-cells") && Spells(REG, "reg") && Spells(INTERRUPTS, "interrupts")
  {}

  lemma SpellingsTwo()
    ensures Spells(RANGES, "ranges") && Spells(PHANDLE, "phandle") && Spells(LINUX_PHANDLE, "linux,phandle")
    ensures Spells(CLOCK_CELLS, "#clock-cells") && Spells(CLOCKS, "clocks")
  {}

  /** The property names that the walk looks for; every other name is passed over. */
  lemma KnownNames(b: seq<Byte>)
    ensures KeyOf(KEYS, b) == Compatible <==> Spells(b, "compatible")
    ensures KeyOf(KEYS, b) == AddressCells <==> Spells(b, "#address-cells")
    ensures KeyOf(KEYS, b) == SizeCells <==> Spells(b, "#size-cells")
    ensures KeyOf(KEYS, b) == Reg <==> Spells(b, "reg")
    ensures KeyOf(KEYS, b) == Interrupts <==> Spells(b, "interrupts")
    ensures KeyOf(KEYS, b) == Ranges <==> Spells(b, "ranges")
    ensures KeyOf(KEYS, b) == Phandle <==> Spells(b, "phandle") || Spells(b, "linux,phandle")
    ensures KeyOf(KEYS, b) == ClockCells <==> Spells(b, "#clock-cells")
    ensures KeyOf(KEYS, b) == Clocks <==> Spells(b, "clocks")
  {
    SpellingsOne();
    SpellingsTwo();
    OneSpelling(b, COMPATIBLE, "compatible");
    OneSpelling(b, ADDRESS_CELLS, "#address-cells");
    OneSpelling(b, SIZE_CELLS, "#size-cells");
    OneSpelling(b, REG, "reg");
    OneSpelling(b, INTERRUPTS, "interrupts");
    OneSpelling(b, RANGES, "ranges");
    OneSpelling(b, PHANDLE, "phandle");
    OneSpelling(b, LINUX_PHANDLE, "linux,phandle");
    OneSpelling(b, CLOCK_CELLS, "#clock-cells");
    OneSpelling(b, CLOCKS, "clocks");
  }
}
