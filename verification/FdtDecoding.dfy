/** Properties as the walk stores them agree with the properties of the tree. */
module FdtDecoding {
  import opened Options
  import opened FdtFormat
  import opened FdtSpec
  import opened FdtWalk

  lemma TokenAt(data: seq<Byte>, i: nat, v: nat)
    requires v < U32_LIMIT && At(data, i, U32Be(v))
    ensures U32At(data, i) == v
  {
    AtU32(data, i, U32Be(v), 0);
    U32BeRead(v);
  }

  lemma CompatNone(data: seq<Byte>, pos: nat, end: nat, room: nat)
    requires pos >= end || room == 0 || StringAt(data, pos) == []
    ensures CompatAt(data, pos, end, room) == NoText
  {
  }

  lemma CompatMore(data: seq<Byte>, pos: nat, end: nat, room: nat, s: seq<Byte>, next: nat)
    requires pos < end && room > 0 && s != [] && StringAt(data, pos) == s && next == pos + |s| + 1
    ensures CompatAt(data, pos, end, room) == Text(s, CompatAt(data, next, end, room - 1))
  {
  }

  /** Compatible strings are read from the blob as from the value alone. */
  lemma {:induction false} CompatIs(data: seq<Byte>, start: nat, v: seq<Byte>, o: nat, room: nat)
    requires At(data, start, v) && (v == [] || v[|v| - 1] == 0)
    ensures CompatAt(data, start + o, start + |v|, room) == CompatAt(v, o, |v|, room)
    decreases room
  {
    if o >= |v| || room == 0 {
      CompatNone(data, start + o, start + |v|, room);
      CompatNone(v, o, |v|, room);
    } else {
      AtString(data, start, v, o, |v| - 1);
      var s := StringAt(v, o);
      if s == [] {
        CompatNone(data, start + o, start + |v|, room);
        CompatNone(v, o, |v|, room);
      } else {
        var next := o + |s| + 1;
        CompatMore(data, start + o, start + |v|, room, s, start + next);
        CompatMore(v, o, |v|, room, s, next);
        CompatIs(data, start, v, next, room - 1);
      }
    }
  }

  /** Ranges likewise. */
  lemma {:induction false} RangesAre(data: seq<Byte>, start: nat, v: seq<Byte>, o: nat, c: nat, p: nat, s: nat,
                                     room: nat)
    requires At(data, start, v)
    ensures RangesAt(data, start + o, start + |v|, c, p, s, room) == RangesAt(v, o, |v|, c, p, s, room)
    decreases room
  {
    var n := EntryBytes(c, p, s);
    if n != 0 && o + n <= |v| && room > 0 {
      AtCells(data, start, v, o, c);
      AtCells(data, start, v, o + c * 4, p);
      AtCells(data, start, v, o + (c + p) * 4, s);
      RangesAre(data, start, v, o + n, c, p, s, room - 1);
    }
  }

  lemma RangesWhole(data: seq<Byte>, start: nat, v: seq<Byte>, c: nat, p: nat, s: nat)
    requires At(data, start, v)
    ensures RangesAt(data, start, start + |v|, c, p, s, MAX_RANGES) == RangesAt(v, 0, |v|, c, p, s, MAX_RANGES)
  {
    RangesAre(data, start, v, 0, c, p, s, MAX_RANGES);
  }

  lemma RangesNone(c: nat, p: nat, s: nat)
    ensures RangesAt([], 0, 0, c, p, s, MAX_RANGES) == []
  {
  }

  // ----- what reading items does to a node -----

  /** A deferred value, by its position. */
  ghost predicate Holds(data: seq<Byte>, start: nat, len: nat, v: seq<Byte>)
  {
    len == |v| && At(data, start, v)
  }

  /** ns' is ns after the items: each field from the last property of its kind, if there is one. */
  ghost predicate NodeRead(data: seq<Byte>, ns: NodeState, items: Items, ns': NodeState)
  {
    CompatRead(ns, items, ns') && WordsRead(ns, items, ns') && SlicesRead(data, ns, items, ns')
  }

  ghost predicate CompatRead(ns: NodeState, items: Items, ns': NodeState)
  {
    match Last(items, Compatible, 0)
    case Some(v) => ns'.compat == StringsOf(v) && ns'.hasCompat
    case None => ns'.compat == ns.compat && ns'.hasCompat == ns.hasCompat
  }

  ghost predicate WordsRead(ns: NodeState, items: Items, ns': NodeState)
  {
    && (match Last(items, Interrupts, 12)
        case Some(v) => ns'.intid == InterruptIn(v)
        case None => ns'.intid == ns.intid)
    && ns'.phandle == WordOf(items, Phandle, ns.phandle)
    && ns'.clockCells == WordOf(items, ClockCells, ns.clockCells)
  }

  ghost predicate SlicesRead(data: seq<Byte>, ns: NodeState, items: Items, ns': NodeState)
  {
    && (match Last(items, Reg, 0)
        case Some(v) => Holds(data, ns'.regStart, ns'.regLen, v)
        case None => ns'.regStart == ns.regStart && ns'.regLen == ns.regLen)
    && (match Last(items, Clocks, 0)
        case Some(v) => Holds(data, ns'.clocksStart, ns'.clocksLen, v)
        case None => ns'.clocksStart == ns.clocksStart && ns'.clocksLen == ns.clocksLen)
  }

  ghost predicate BusRead(data: seq<Byte>, dc: DepthCells, items: Items, dc': DepthCells)
  {
    && dc'.addressCells == WordOf(items, AddressCells, dc.addressCells)
    && dc'.sizeCells == WordOf(items, SizeCells, dc.sizeCells) && dc'.ranges == dc.ranges
    && match Last(items, Ranges, 0)
       case Some(v) => dc'.hasRanges && Holds(data, dc'.rangesStart, dc'.rangesLen, v)
       case None => dc'.hasRanges == dc.hasRanges && dc'.rangesStart == dc.rangesStart && dc'.rangesLen == dc.rangesLen
  }

  lemma CompatFirst(data: seq<Byte>, ns: NodeState, it: Item, start: nat, rest: Items, ns': NodeState)
    requires it.Property? && ItemOk(it) && At(data, start, it.value)
    requires CompatRead(NodeProp(data, it.key, start, |it.value|, ns), rest, ns')
    ensures CompatRead(ns, Items(it, rest), ns')
  {
    if it.key == Compatible { CompatIs(data, start, it.value, 0, MAX_COMPAT); }
  }

  /** A word property in front of other items: the later ones win. */
  lemma WordFirst(data: seq<Byte>, it: Item, start: nat, rest: Items, key: Key, w: nat)
    requires it.Property? && At(data, start, it.value)
    ensures WordOf(Items(it, rest), key, w)
            == WordOf(rest, key, if it.key == key && |it.value| >= 4 then U32At(data, start) else w)
  {
    if |it.value| >= 4 { AtU32(data, start, it.value, 0); }
  }

  lemma InterruptFirst(data: seq<Byte>, it: Item, start: nat, rest: Items)
    requires it.Property? && At(data, start, it.value)
    ensures Last(Items(it, rest), Interrupts, 12)
            == if Last(rest, Interrupts, 12).Some? then Last(rest, Interrupts, 12)
               else if it.key == Interrupts && |it.value| >= 12 then Some(it.value) else None
    ensures |it.value| >= 12 ==>
              InterruptIn(it.value) == if U32At(data, start) == 0 then U32At(data, start + 4) + 32 else 0
  {
    if |it.value| >= 12 {
      AtU32(data, start, it.value, 0);
      AtU32(data, start, it.value, 4);
    }
  }

  lemma WordsFirst(data: seq<Byte>, ns: NodeState, it: Item, start: nat, rest: Items, ns': NodeState)
    requires it.Property? && At(data, start, it.value)
    requires WordsRead(NodeProp(data, it.key, start, |it.value|, ns), rest, ns')
    ensures WordsRead(ns, Items(it, rest), ns')
  {
    InterruptFirst(data, it, start, rest);
    WordFirst(data, it, start, rest, Phandle, ns.phandle);
    WordFirst(data, it, start, rest, ClockCells, ns.clockCells);
  }

  lemma SlicesFirst(data: seq<Byte>, ns: NodeState, it: Item, start: nat, rest: Items, ns': NodeState)
    requires it.Property? && At(data, start, it.value)
    requires SlicesRead(data, NodeProp(data, it.key, start, |it.value|, ns), rest, ns')
    ensures SlicesRead(data, ns, Items(it, rest), ns')
  {
  }

  /** A property in front of other items. */
  lemma NodeFirst(data: seq<Byte>, ns: NodeState, it: Item, start: nat, rest: Items, ns': NodeState)
    requires it.Property? && ItemOk(it) && At(data, start, it.value)
    requires NodeRead(data, NodeProp(data, it.key, start, |it.value|, ns), rest, ns')
    ensures NodeRead(data, ns, Items(it, rest), ns')
  {
    CompatFirst(data, ns, it, start, rest, ns');
    WordsFirst(data, ns, it, start, rest, ns');
    SlicesFirst(data, ns, it, start, rest, ns');
  }

  lemma BusFirst(data: seq<Byte>, dc: DepthCells, it: Item, start: nat, rest: Items, dc': DepthCells)
    requires it.Property? && At(data, start, it.value)
    requires BusRead(data, BusProp(data, it.key, start, |it.value|, dc), rest, dc')
    ensures BusRead(data, dc, Items(it, rest), dc')
  {
    WordFirst(data, it, start, rest, AddressCells, dc.addressCells);
    WordFirst(data, it, start, rest, SizeCells, dc.sizeCells);
  }

  lemma NopFirst(data: seq<Byte>, ns: NodeState, dc: DepthCells, rest: Items, ns': NodeState, dc': DepthCells)
    requires NodeRead(data, ns, rest, ns') && BusRead(data, dc, rest, dc')
    ensures NodeRead(data, ns, Items(NopItem, rest), ns') && BusRead(data, dc, Items(NopItem, rest), dc')
  {
  }

  /** No overflow in a conforming property. */
  lemma NoPropOverflow(data: seq<Byte>, it: Item, start: nat)
    requires it.Property? && ItemOk(it) && At(data, start, it.value)
    ensures !PropOverflows(data, it.key, start, |it.value|)
  {
    if |it.value| >= 12 {
      AtU32(data, start, it.value, 0);
      AtU32(data, start, it.value, 4);
    }
  }

  lemma {:induction false} SmallCells(items: Items, key: Key)
    requires ItemsOk(items) && (key == AddressCells || key == SizeCells)
    ensures WordOf(items, key, 2) < 0x4000_0000
    decreases items
  {
    if items.Items? { SmallCells(items.rest, key); }
  }
}
