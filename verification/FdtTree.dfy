/** The walk over nodes, children and whole trees. */
module FdtTree {
  import opened Options
  import opened FdtFormat
  import opened FdtSpec
  import opened FdtWalk
  import opened FdtDecoding
  import opened FdtExact

  // ----- the buses above a node -----

  ghost predicate SameCells(dc: DepthCells, bus: Bus)
  {
    && dc.addressCells == bus.addressCells && dc.sizeCells == bus.sizeCells
    && dc.addressCells < 0x4000_0000 && dc.sizeCells < 0x4000_0000
  }

  /** The first n levels hold these buses, ranges and all. */
  ghost predicate Settled(cells: seq<DepthCells>, buses: seq<Bus>, n: nat)
  {
    && n <= |buses|
    && (n == 0 || (Settled(cells, buses, n - 1) && (n <= |cells| ==> HoldsBus(cells[n - 1], buses[n - 1]))))
  }

  ghost predicate HoldsBus(dc: DepthCells, bus: Bus)
  {
    SameCells(dc, bus) && dc.ranges == bus.ranges
  }

  lemma {:induction false} SettledAt(cells: seq<DepthCells>, buses: seq<Bus>, n: nat, i: nat)
    requires Settled(cells, buses, n) && i < n && i < |cells|
    ensures HoldsBus(cells[i], buses[i])
    decreases n
  {
    if i < n - 1 { SettledAt(cells, buses, n - 1, i); }
  }

  /** Whether levels are settled depends on those levels only. */
  lemma {:induction false} SettledStill(cells: seq<DepthCells>, buses: seq<Bus>, cells': seq<DepthCells>,
                                        buses': seq<Bus>, n: nat)
    requires Settled(cells, buses, n) && n <= |buses'| && SamePrefix(cells, cells', n) && buses'[..n] == buses[..n]
    ensures Settled(cells', buses', n)
    decreases n
  {
    if n > 0 {
      assert buses'[n - 1] == buses'[..n][n - 1] && buses[n - 1] == buses[..n][n - 1];
      assert buses'[..n - 1] == buses'[..n][..n - 1] && buses[..n - 1] == buses[..n][..n - 1];
      SettledStill(cells, buses, cells', buses', n - 1);
    }
  }

  /** The first n elements agree, as far as there are so many. */
  ghost predicate SamePrefix<T>(a: seq<T>, b: seq<T>, n: nat)
  {
    |a| == |b| && (n == 0 || (SamePrefix(a, b, n - 1) && (n <= |a| ==> a[n - 1] == b[n - 1])))
  }

  lemma {:induction false} PrefixAt<T>(a: seq<T>, b: seq<T>, n: nat, i: nat)
    requires SamePrefix(a, b, n) && i < n && i < |a|
    ensures a[i] == b[i]
    decreases n
  {
    if i < n - 1 { PrefixAt(a, b, n - 1, i); }
  }

  lemma {:induction false} PrefixFrom<T>(a: seq<T>, b: seq<T>, n: nat)
    requires |a| == |b| && forall i: nat | i < n && i < |a| :: a[i] == b[i]
    ensures SamePrefix(a, b, n)
    decreases n
  {
    if n > 0 { PrefixFrom(a, b, n - 1); }
  }

  lemma {:induction false} PrefixLess<T>(a: seq<T>, b: seq<T>, n: nat, k: nat)
    requires SamePrefix(a, b, n) && k <= n
    ensures SamePrefix(a, b, k)
    decreases n
  {
    if k < n { PrefixLess(a, b, n - 1, k); }
  }

  lemma {:induction false} PrefixTwice<T>(a: seq<T>, b: seq<T>, c: seq<T>, n: nat)
    requires SamePrefix(a, b, n) && SamePrefix(b, c, n)
    ensures SamePrefix(a, c, n)
    decreases n
  {
    if n > 0 { PrefixTwice(a, b, c, n - 1); }
  }

  /** All levels hold these buses; the innermost one may still have to decode its ranges. */
  ghost predicate Ready(data: seq<Byte>, cells: seq<DepthCells>, buses: seq<Bus>)
  {
    var d := |buses|;
    d == 0 || (Settled(cells, buses, d - 1) && Pending(data, cells, buses))
  }

  ghost predicate Pending(data: seq<Byte>, cells: seq<DepthCells>, buses: seq<Bus>)
  {
    0 < |buses| <= |cells| ==>
      var d := |buses| - 1;
      && SameCells(cells[d], buses[d]) && CellsSane(data, cells[d])
      && FinalRanges(data, cells[d], CellsAbove(cells, d)) == buses[d].ranges
  }

  /** Before a child opens, the innermost ranges are decoded. */
  lemma SettleReady(data: seq<Byte>, m: Machine, buses: seq<Bus>)
    requires Sane(data, m) && |buses| == m.depth && Ready(data, m.cells, buses)
    ensures Settled(Settle(data, m).cells, buses, |buses|) && Ready(data, Settle(data, m).cells, buses)
  {
    var s := Settle(data, m);
    if 0 < m.depth {
      var d := m.depth - 1;
      PrefixFrom(m.cells, s.cells, d);
      SettledStill(m.cells, buses, s.cells, buses, d);
      if d < MAX_DEPTH {
        assert s.cells[d].ranges == buses[d].ranges;
        assert CellsAbove(s.cells, d) == CellsAbove(m.cells, d);
      }
    }
  }

  lemma NoRangesOverflow(data: seq<Byte>, cells: seq<DepthCells>, buses: seq<Bus>)
    requires 0 < |buses| <= |cells| && Ready(data, cells, buses)
    ensures !RangesOverflow(cells, |buses| - 1)
  {
    var d := |buses| - 1;
    if d > 0 { SettledAt(cells, buses, d, d - 1); }
  }

  /** The ranges that a node's items give, once decoded. */
  lemma RangesReady(data: seq<Byte>, dc: DepthCells, above: nat, items: Items)
    requires BusRead(data, DEFAULT, items, dc) && CellsSane(data, dc)
    ensures var v := ValueOf(items, Ranges);
            FinalRanges(data, dc, above) == RangesAt(v, 0, |v|, dc.addressCells, above, dc.sizeCells, MAX_RANGES)
  {
    if Deferred(dc) {
      RangesWhole(data, dc.rangesStart, ValueOf(items, Ranges), dc.addressCells, above, dc.sizeCells);
    } else {
      RangesNone(dc.addressCells, above, dc.sizeCells);
    }
  }

  /** A node that has read its items provides the bus that its items describe. */
  lemma BusReady(data: seq<Byte>, cells: seq<DepthCells>, items: Items, buses: seq<Bus>)
    requires Settled(cells, buses, |buses|) && ItemsOk(items)
    requires |buses| < |cells| ==> BusRead(data, DEFAULT, items, cells[|buses|]) && CellsSane(data, cells[|buses|])
    ensures Ready(data, cells, buses + [BusOf(items, buses)])
  {
    var d := |buses|;
    SmallCells(items, AddressCells);
    SmallCells(items, SizeCells);
    PrefixFrom(cells, cells, d);
    SettledStill(cells, buses, cells, buses + [BusOf(items, buses)], d);
    if d < |cells| {
      if d > 0 { SettledAt(cells, buses, d, d - 1); }
      assert CellsAbove(cells, d) == ParentCells(buses);
      RangesReady(data, cells[d], ParentCells(buses), items);
    }
  }

  // ----- what a node reports -----

  lemma {:induction false} TranslateIs(cells: seq<DepthCells>, buses: seq<Bus>, a: nat, level: nat)
    requires level < |buses| <= |cells| && Settled(cells, buses, |buses|)
    ensures TranslateAt(cells, a, level) == ToRoot(buses[..level + 1], a)
    decreases level
  {
    if level > 0 {
      SettledAt(cells, buses, |buses|, level);
      assert buses[..level + 1][..level] == buses[..level];
      TranslateIs(cells, buses, Through(cells[level].ranges, a), level - 1);
    }
  }

  lemma TranslatePhysical(cells: seq<DepthCells>, buses: seq<Bus>, a: nat)
    requires |buses| <= |cells| && Settled(cells, buses, |buses|)
    ensures Translate(cells, a, |buses|) == Physical(buses, a)
  {
    if |buses| > 0 {
      TranslateIs(cells, buses, a, |buses| - 1);
      assert buses[..|buses|] == buses;
    }
  }

  /** Deferred values are found again. */
  lemma SlicesAre(data: seq<Byte>, ns: NodeState, items: Items)
    requires StateSane(data, ns) && SlicesRead(data, EMPTY, items, ns)
    ensures data[ns.regStart..ns.regStart + ns.regLen] == ValueOf(items, Reg)
    ensures data[ns.clocksStart..ns.clocksStart + ns.clocksLen] == ValueOf(items, Clocks)
  {
    AtEvery(data, ns.regStart, ValueOf(items, Reg));
    AtEvery(data, ns.clocksStart, ValueOf(items, Clocks));
  }

  /** The fields of a node that has read its items. */
  lemma FieldsAre(data: seq<Byte>, ns: NodeState, items: Items)
    requires StateSane(data, ns) && NodeRead(data, EMPTY, items, ns)
    ensures ns.compat == StringsOf(ValueOf(items, Compatible)) && ns.hasCompat == Last(items, Compatible, 0).Some?
    ensures ns.intid == InterruptOf(items) && ns.phandle == WordOf(items, Phandle, 0)
    ensures ns.clockCells == WordOf(items, ClockCells, NO_CELLS)
    ensures data[ns.regStart..ns.regStart + ns.regLen] == ValueOf(items, Reg)
    ensures data[ns.clocksStart..ns.clocksStart + ns.clocksLen] == ValueOf(items, Clocks)
  {
    SlicesAre(data, ns, items);
  }

  lemma RegIs(cells: seq<DepthCells>, v: seq<Byte>, buses: seq<Bus>)
    requires |buses| < |cells| && Settled(cells, buses, |buses|)
    ensures RegReport(cells, v, |buses|) == RegBelow(v, buses)
    ensures RegCells(cells, |buses|).0 + RegCells(cells, |buses|).1 < U32_LIMIT
  {
    var d := |buses|;
    if d > 0 { SettledAt(cells, buses, d, d - 1); }
    var (ac, sc) := RegCells(cells, d);
    var (addr, size, addr2) := RegOf(v, ac, sc);
    TranslatePhysical(cells, buses, addr);
    TranslatePhysical(cells, buses, addr2);
  }

  /** The report of a node that has read its items says what the tree says. */
  lemma ReportIs(data: seq<Byte>, m: Machine, name: seq<Byte>, items: Items, buses: seq<Bus>)
    requires Sane(data, m) && |buses| < MAX_DEPTH && Settled(m.cells, buses, |buses|)
    requires NodeRead(data, EMPTY, items, m.state[|buses|])
    requires data[m.names[|buses|].0..m.names[|buses|].1] == name
    ensures Report(data, m, |buses|) == Call(name, InfoOf(items, buses)) && !RegOverflows(m, |buses|)
  {
    RegIs(m.cells, ValueOf(items, Reg), buses);
    ReportFrom(data, m, |buses|, name, items, RegBelow(ValueOf(items, Reg), buses));
  }

  lemma ReportFrom(data: seq<Byte>, m: Machine, d: nat, name: seq<Byte>, items: Items, reg: (nat, nat, nat))
    requires Sane(data, m) && d < MAX_DEPTH && NodeRead(data, EMPTY, items, m.state[d])
    requires data[m.names[d].0..m.names[d].1] == name && RegReport(m.cells, ValueOf(items, Reg), d) == reg
    ensures Report(data, m, d)
            == Call(name, Info(StringsOf(ValueOf(items, Compatible)), Last(items, Compatible, 0).Some?,
                               reg.0, reg.1, reg.2, InterruptOf(items), WordOf(items, Phandle, 0),
                               WordOf(items, ClockCells, NO_CELLS), ValueOf(items, Clocks)))
  {
    FieldsAre(data, m.state[d], items);
    ReportFields(data, m, d, m.state[d], ValueOf(items, Reg), ValueOf(items, Clocks), reg);
  }

  lemma ReportFields(data: seq<Byte>, m: Machine, d: nat, ns: NodeState, v: seq<Byte>, clocks: seq<Byte>,
                     reg: (nat, nat, nat))
    requires Sane(data, m) && d < MAX_DEPTH && ns == m.state[d] && RegReport(m.cells, v, d) == reg
    requires data[ns.regStart..ns.regStart + ns.regLen] == v
    requires data[ns.clocksStart..ns.clocksStart + ns.clocksLen] == clocks
    ensures Report(data, m, d)
            == Call(data[m.names[d].0..m.names[d].1],
                    Info(ns.compat, ns.hasCompat, reg.0, reg.1, reg.2, ns.intid, ns.phandle, ns.clockCells, clocks))
  {
  }

  // ----- opening and closing -----

  /** Levels above the current node are as they were; only the innermost bus may have decoded its ranges. */
  ghost predicate Kept(m: Machine, m': Machine)
  {
    m'.depth == m.depth && KeptBelow(m, m', m.depth)
  }

  ghost predicate KeptBelow(m: Machine, m': Machine, d: nat)
  {
    && SamePrefix(m.state, m'.state, d) && SamePrefix(m.names, m'.names, d)
    && SamePrefix(m.cells, m'.cells, if d == 0 then 0 else d - 1)
  }

  /** The node at the current depth was just opened in m'. */
  ghost predicate Opened(data: seq<Byte>, m: Machine, name: seq<Byte>, m': Machine)
    requires Sane(data, m')
  {
    && m'.depth == m.depth + 1 && m'.calls == m.calls && KeptBelow(m, m', m.depth)
    && (m.depth < MAX_DEPTH ==>
          && m'.state[m.depth] == EMPTY && m'.cells[m.depth] == DEFAULT
          && data[m'.names[m.depth].0..m'.names[m.depth].1] == name)
  }

  lemma BeginToken(data: seq<Byte>, env: Env, run: Machine -> Outcome, m: Machine)
    requires Law(data, env, run) && Sane(data, m) && m.pos + 4 <= |data| && U32At(data, m.pos) == BEGIN_NODE
    requires BeginNode(data, m.(pos := m.pos + 4)).More?
    ensures run(BeginNode(data, m.(pos := m.pos + 4)).m) == run(m)
  {
    assert Step(data, env, m) == BeginNode(data, m.(pos := m.pos + 4));
  }

  lemma OpenOpens(data: seq<Byte>, m: Machine, name: seq<Byte>, end: nat)
    requires Sane(data, m) && m.pos <= end <= |data| && data[m.pos..end] == name
    ensures Opened(data, m, name, Open(data, Settle(data, m), end))
  {
    var m' := Open(data, Settle(data, m), end);
    PrefixFrom(m.state, m'.state, m.depth);
    PrefixFrom(m.names, m'.names, m.depth);
    PrefixFrom(m.cells, m'.cells, if m.depth == 0 then 0 else m.depth - 1);
  }

  /** Opening a node leaves the buses above it settled. */
  lemma OpenReady(data: seq<Byte>, m: Machine, end: nat, buses: seq<Bus>)
    requires Sane(data, m) && m.pos <= end <= |data| && |buses| == m.depth && Ready(data, m.cells, buses)
    ensures var cells := Open(data, Settle(data, m), end).cells;
            Settled(cells, buses, |buses|) && Ready(data, cells, buses)
  {
    SettleReady(data, m, buses);
    PrefixFrom(Settle(data, m).cells, Open(data, Settle(data, m), end).cells, |buses|);
    StillReady(data, Settle(data, m).cells, Open(data, Settle(data, m), end).cells, buses);
  }

  /** The name behind a node's token, and where it ends. */
  lemma NameRead(data: seq<Byte>, pos: nat, name: seq<Byte>)
    requires Whole(pos) && 0 !in name && At(data, pos, NameBytes(name))
    ensures pos + |name| <= |data| && StringAt(data, pos) == name && data[pos..pos + |name|] == name
    ensures Align4(pos + |name| + 1) == pos + |NameBytes(name)|
  {
    AtConcat(data, pos, name + [0], Zeros(Padding(|name| + 1)));
    NameAt(data, pos, name);
    AlignUp(pos, |name| + 1);
  }

  /** The machine behind a node's token and name. */
  function Behind(data: seq<Byte>, m: Machine, end: nat): Machine
    requires Sane(data, m) && m.pos + 4 <= end <= |data|
  {
    Open(data, Settle(data, m.(pos := m.pos + 4)), end)
  }

  lemma BeginRun(data: seq<Byte>, env: Env, run: Machine -> Outcome, m: Machine, end: nat)
    requires Law(data, env, run) && Sane(data, m) && m.pos + 4 <= end <= |data| && U32At(data, m.pos) == BEGIN_NODE
    requires end == m.pos + 4 + |StringAt(data, m.pos + 4)|
    requires 0 < m.depth <= MAX_DEPTH ==> !RangesOverflow(m.cells, m.depth - 1)
    ensures run(Behind(data, m, end)) == run(m)
  {
    var next := m.(pos := m.pos + 4);
    assert BeginNode(data, next) == More(Behind(data, m, end));
    BeginToken(data, env, run, m);
  }

  lemma BehindOpened(data: seq<Byte>, m: Machine, name: seq<Byte>, end: nat, buses: seq<Bus>)
    requires Sane(data, m) && m.pos + 4 <= end <= |data| && data[m.pos + 4..end] == name
    requires |buses| == m.depth && Ready(data, m.cells, buses)
    ensures var m' := Behind(data, m, end);
            && Sane(data, m') && Opened(data, m, name, m')
            && Settled(m'.cells, buses, |buses|) && Ready(data, m'.cells, buses)
  {
    BehindOpens(data, m, name, end);
    OpenReady(data, m.(pos := m.pos + 4), end, buses);
  }

  lemma BehindOpens(data: seq<Byte>, m: Machine, name: seq<Byte>, end: nat)
    requires Sane(data, m) && m.pos + 4 <= end <= |data| && data[m.pos + 4..end] == name
    ensures Sane(data, Behind(data, m, end)) && Opened(data, m, name, Behind(data, m, end))
  {
    OpenOpens(data, m.(pos := m.pos + 4), name, end);
  }

  /** A node's token and name; the name lies at p. */
  lemma BeginStep(data: seq<Byte>, env: Env, run: Machine -> Outcome, m: Machine, name: seq<Byte>, buses: seq<Bus>,
                  p: nat)
    returns (m': Machine)
    requires Law(data, env, run) && Sane(data, m) && p == m.pos + 4 && Whole(p) && 0 !in name
    requires At(data, m.pos, U32Be(BEGIN_NODE)) && At(data, p, NameBytes(name))
    requires |buses| == m.depth && Ready(data, m.cells, buses)
    ensures Sane(data, m') && run(m') == run(m) && Opened(data, m, name, m')
    ensures m'.pos == p + |NameBytes(name)|
    ensures Settled(m'.cells, buses, |buses|) && Ready(data, m'.cells, buses)
  {
    TokenAt(data, m.pos, BEGIN_NODE);
    NameRead(data, p, name);
    m' := BeginAt(data, env, run, m, name, buses, p + |name|, p + |NameBytes(name)|);
  }

  lemma BeginAt(data: seq<Byte>, env: Env, run: Machine -> Outcome, m: Machine, name: seq<Byte>, buses: seq<Bus>,
                end: nat, next: nat)
    returns (m': Machine)
    requires Law(data, env, run) && Sane(data, m) && m.pos + 4 <= end <= |data| && U32At(data, m.pos) == BEGIN_NODE
    requires StringAt(data, m.pos + 4) == name == data[m.pos + 4..end] && Align4(end + 1) == next
    requires |buses| == m.depth && Ready(data, m.cells, buses)
    ensures Sane(data, m') && run(m') == run(m) && Opened(data, m, name, m') && m'.pos == next
    ensures Settled(m'.cells, buses, |buses|) && Ready(data, m'.cells, buses)
  {
    if 0 < m.depth <= MAX_DEPTH { NoRangesOverflow(data, m.cells, buses); }
    BeginRun(data, env, run, m, end);
    BehindOpened(data, m, name, end, buses);
    m' := Behind(data, m, end);
  }

  /** Only the levels above matter. */
  lemma StillReady(data: seq<Byte>, cells: seq<DepthCells>, cells': seq<DepthCells>, buses: seq<Bus>)
    requires SamePrefix(cells, cells', |buses|) && Ready(data, cells, buses)
    ensures Ready(data, cells', buses)
    ensures Settled(cells, buses, |buses|) ==> Settled(cells', buses, |buses|)
  {
    if Settled(cells, buses, |buses|) { SettledStill(cells, buses, cells', buses, |buses|); }
    if 0 < |buses| {
      var d := |buses| - 1;
      PrefixLess(cells, cells', |buses|, d);
      SettledStill(cells, buses, cells', buses, d);
      if 0 < d < |cells| { PrefixAt(cells, cells', |buses|, d - 1); }
    }
  }

  lemma EndToken(data: seq<Byte>, env: Env, run: Machine -> Outcome, m: Machine)
    requires Law(data, env, run) && Sane(data, m) && m.pos + 4 <= |data| && U32At(data, m.pos) == END_NODE
    requires EndNode(data, m.(pos := m.pos + 4)).More?
    ensures run(EndNode(data, m.(pos := m.pos + 4)).m) == run(m)
  {
    assert Step(data, env, m) == EndNode(data, m.(pos := m.pos + 4));
  }

  /** A node closes and is reported. */
  lemma EndStep(data: seq<Byte>, env: Env, run: Machine -> Outcome, m: Machine, name: seq<Byte>, items: Items,
                buses: seq<Bus>)
    returns (m': Machine)
    requires Law(data, env, run) && Sane(data, m) && At(data, m.pos, U32Be(END_NODE)) && m.depth == |buses| + 1
    requires Settled(m.cells, buses, |buses|)
    requires |buses| < MAX_DEPTH ==>
               && NodeRead(data, EMPTY, items, m.state[|buses|])
               && data[m.names[|buses|].0..m.names[|buses|].1] == name
    ensures Sane(data, m') && run(m') == run(m)
    ensures m' == m.(pos := m.pos + 4, depth := |buses|,
                     calls := m.calls + OwnCall(name, items, buses))
  {
    TokenAt(data, m.pos, END_NODE);
    var next := m.(pos := m.pos + 4);
    if |buses| < MAX_DEPTH {
      ReportIs(data, next, name, items, buses);
    } else {
      assert m.calls + [] == m.calls;
    }
    EndToken(data, env, run, m);
    m' := EndNode(data, next).m;
  }

  // ----- whole trees -----

  /** Where the parts of a serialised node lie. */
  lemma NodeHead(data: seq<Byte>, pos: nat, name: seq<Byte>, rest: seq<Byte>)
    requires Whole(pos) && Whole(|rest|) && At(data, pos, Cat(U32Be(BEGIN_NODE), Cat(NameBytes(name), rest)))
    ensures At(data, pos, U32Be(BEGIN_NODE)) && At(data, pos + 4, NameBytes(name))
    ensures Whole(pos + 4 + |NameBytes(name)|) && At(data, pos + 4 + |NameBytes(name)|, rest)
  {
    AtConcat(data, pos, U32Be(BEGIN_NODE), Cat(NameBytes(name), rest));
    AtConcat(data, pos + 4, NameBytes(name), rest);
    WholeSum(pos, 4);
    WholeSum(pos + 4, |NameBytes(name)|);
  }

  lemma NodeBody(data: seq<Byte>, pos: nat, items: seq<Byte>, kids: seq<Byte>)
    requires Whole(pos) && Whole(|items|) && Whole(|kids|) && At(data, pos, Cat(items, Cat(kids, U32Be(END_NODE))))
    ensures At(data, pos, items) && Whole(pos + |items|) && At(data, pos + |items|, kids)
    ensures At(data, pos + |items| + |kids|, U32Be(END_NODE))
  {
    AtConcat(data, pos, items, Cat(kids, U32Be(END_NODE)));
    AtConcat(data, pos + |items|, kids, U32Be(END_NODE));
    WholeSum(pos, |items|);
  }

  /** Items start at p, children at q. */
  lemma NodeLayout(data: seq<Byte>, pos: nat, name: seq<Byte>, items: seq<Byte>, kids: seq<Byte>)
    returns (p: nat, q: nat)
    requires Whole(|items|) && Whole(|kids|) && Whole(pos) && At(data, pos, NodeBytes(name, items, kids))
    ensures At(data, pos, U32Be(BEGIN_NODE)) && At(data, pos + 4, NameBytes(name))
    ensures p == pos + 4 + |NameBytes(name)| && Whole(p) && At(data, p, items)
    ensures q == p + |items| && Whole(q) && At(data, q, kids) && At(data, q + |kids|, U32Be(END_NODE))
    ensures q + |kids| + 4 == pos + |NodeBytes(name, items, kids)|
  {
    NodeHead(data, pos, name, Cat(items, Cat(kids, U32Be(END_NODE))));
    p := pos + 4 + |NameBytes(name)|;
    q := p + |items|;
    NodeBody(data, p, items, kids);
  }

  /** The same, from the bytes of the node as a tree; the children end at e. */
  lemma NodeParts(data: seq<Byte>, pos: nat, name: seq<Byte>, items: Items, kids: Forest)
    returns (p: nat, q: nat, e: nat)
    requires AllFit(items) && ForestFits(kids) && Whole(pos) && At(data, pos, TreeBytes(Node(name, items, kids)))
    ensures At(data, pos, U32Be(BEGIN_NODE)) && At(data, pos + 4, NameBytes(name))
    ensures p == pos + 4 + |NameBytes(name)| && Whole(p) && At(data, p, ItemBytes(items))
    ensures q == p + |ItemBytes(items)| && Whole(q) && At(data, q, ForestBytes(kids))
    ensures e == q + |ForestBytes(kids)| && At(data, e, U32Be(END_NODE))
    ensures e + 4 == pos + |TreeBytes(Node(name, items, kids))|
  {
    p, q := NodeLayout(data, pos, name, ItemBytes(items), ForestBytes(kids));
    e := q + |ForestBytes(kids)|;
  }

  lemma KeptSelf(m: Machine, pos: nat)
    ensures Kept(m, m.(pos := pos))
  {
    PrefixFrom(m.state, m.state, m.depth);
    PrefixFrom(m.names, m.names, m.depth);
    PrefixFrom(m.cells, m.cells, if m.depth == 0 then 0 else m.depth - 1);
  }

  lemma KeptTwice(m: Machine, m1: Machine, m2: Machine)
    requires Kept(m, m1) && Kept(m1, m2)
    ensures Kept(m, m2)
  {
    KeptBelowTwice(m, m1, m2, m.depth);
  }

  lemma KeptBelowTwice(m: Machine, m1: Machine, m2: Machine, d: nat)
    requires KeptBelow(m, m1, d) && KeptBelow(m1, m2, d)
    ensures KeptBelow(m, m2, d)
  {
    PrefixTwice(m.state, m1.state, m2.state, d);
    PrefixTwice(m.names, m1.names, m2.names, d);
    PrefixTwice(m.cells, m1.cells, m2.cells, if d == 0 then 0 else d - 1);
  }

  lemma KeptBelowLess(m: Machine, m': Machine, d: nat)
    requires KeptBelow(m, m', d + 1)
    ensures KeptBelow(m, m', d) && SamePrefix(m.cells, m'.cells, d)
  {
    PrefixLess(m.state, m'.state, d + 1, d);
    PrefixLess(m.names, m'.names, d + 1, d);
    PrefixLess(m.cells, m'.cells, d, if d == 0 then 0 else d - 1);
  }

  /** m2 has opened a node in m and read its items; the buses above it are settled. */
  ghost predicate Entered(data: seq<Byte>, m: Machine, name: seq<Byte>, items: Items, m2: Machine, buses: seq<Bus>)
    requires Sane(data, m2)
  {
    && m2.depth == m.depth + 1 && m2.calls == m.calls && KeptBelow(m, m2, m.depth)
    && Settled(m2.cells, buses, |buses|) && Ready(data, m2.cells, buses)
    && (m.depth < MAX_DEPTH ==>
          && NodeRead(data, EMPTY, items, m2.state[m.depth]) && BusRead(data, DEFAULT, items, m2.cells[m.depth])
          && data[m2.names[m.depth].0..m2.names[m.depth].1] == name)
  }

  lemma ItemsEnter(data: seq<Byte>, m: Machine, name: seq<Byte>, m1: Machine, items: Items, m2: Machine,
                   buses: seq<Bus>)
    requires Sane(data, m1) && Sane(data, m2) && |buses| == m.depth && Opened(data, m, name, m1)
    requires HasRead(data, m1, items, m2) && Settled(m1.cells, buses, |buses|) && Ready(data, m1.cells, buses)
    ensures Entered(data, m, name, items, m2, buses)
  {
    ItemsKeep(m1, m2, m.depth);
    KeptBelowTwice(m, m1, m2, m.depth);
    StillReady(data, m1.cells, m2.cells, buses);
  }

  /** Reading the items of the node at depth d keeps the levels above it. */
  lemma ItemsKeep(m1: Machine, m2: Machine, d: nat)
    requires SameBut(m1, m2, d)
    ensures KeptBelow(m1, m2, d) && SamePrefix(m1.cells, m2.cells, d)
  {
    PrefixFrom(m1.state, m2.state, d);
    PrefixFrom(m1.names, m2.names, d);
    PrefixFrom(m1.cells, m2.cells, d);
    PrefixLess(m1.cells, m2.cells, d, if d == 0 then 0 else d - 1);
  }

  lemma EnterReady(data: seq<Byte>, m: Machine, name: seq<Byte>, m1: Machine, items: Items, m2: Machine,
                   buses: seq<Bus>)
    requires Sane(data, m1) && Sane(data, m2) && |buses| == m.depth && Opened(data, m, name, m1) && ItemsOk(items)
    requires HasRead(data, m1, items, m2) && Settled(m1.cells, buses, |buses|) && Ready(data, m1.cells, buses)
    ensures Entered(data, m, name, items, m2, buses) && Ready(data, m2.cells, buses + [BusOf(items, buses)])
  {
    ItemsEnter(data, m, name, m1, items, m2, buses);
    BusReady(data, m2.cells, items, buses);
  }

  /** Everything of a node up to its children. */
  lemma OpenNode(data: seq<Byte>, env: Env, run: Machine -> Outcome, m: Machine, name: seq<Byte>, items: Items,
                 buses: seq<Bus>, p: nat, q: nat)
    returns (m2: Machine)
    requires Law(data, env, run) && Sane(data, m) && Whole(m.pos) && |buses| == m.depth && Ready(data, m.cells, buses)
    requires 0 !in name && AllFit(items) && ItemsOk(items) && AllNamed(data, env, items)
    requires At(data, m.pos, U32Be(BEGIN_NODE)) && At(data, m.pos + 4, NameBytes(name))
    requires p == m.pos + 4 + |NameBytes(name)| && Whole(p) && At(data, p, ItemBytes(items))
    requires q == p + |ItemBytes(items)|
    ensures Sane(data, m2) && run(m2) == run(m) && m2.pos == q
    ensures Entered(data, m, name, items, m2, buses) && Ready(data, m2.cells, buses + [BusOf(items, buses)])
  {
    WholeSum(m.pos, 4);
    var m1 := BeginStep(data, env, run, m, name, buses, m.pos + 4);
    assert m1.pos == p;
    m2 := RunItems(data, env, run, m1, items);
    EnterReady(data, m, name, m1, items, m2, buses);
  }

  /** What the children leave alone. */
  lemma KidsKeep(data: seq<Byte>, m: Machine, m2: Machine, m3: Machine, buses: seq<Bus>)
    requires Sane(data, m2) && Sane(data, m3) && |buses| == m.depth && m2.depth == m.depth + 1
    requires KeptBelow(m, m2, m.depth) && Kept(m2, m3)
    requires Settled(m2.cells, buses, |buses|) && Ready(data, m2.cells, buses)
    ensures KeptBelow(m, m3, m.depth) && Settled(m3.cells, buses, |buses|) && Ready(data, m3.cells, buses)
    ensures m.depth < MAX_DEPTH ==> m3.state[m.depth] == m2.state[m.depth] && m3.names[m.depth] == m2.names[m.depth]
  {
    KeptBelowLess(m2, m3, m.depth);
    KeptBelowTwice(m, m2, m3, m.depth);
    StillReady(data, m2.cells, m3.cells, buses);
    if m.depth < MAX_DEPTH {
      PrefixAt(m2.state, m3.state, m2.depth, m.depth);
      PrefixAt(m2.names, m3.names, m2.depth, m.depth);
    }
  }

  /** m' is m behind `len` bytes that hold whole nodes with these reports. */
  ghost predicate Walked(data: seq<Byte>, run: Machine -> Outcome, m: Machine, m': Machine, len: nat, calls: seq<Call>,
                         buses: seq<Bus>)
  {
    && Sane(data, m') && run(m') == run(m) && m'.pos == m.pos + len
    && m'.calls == m.calls + calls && Kept(m, m') && Ready(data, m'.cells, buses)
  }

  /** The end of a node whose children took m2 to m3. */
  lemma CloseNode(data: seq<Byte>, env: Env, run: Machine -> Outcome, m: Machine, m2: Machine, m3: Machine,
                  name: seq<Byte>, items: Items, kids: Forest, buses: seq<Bus>, len: nat, end: nat)
    returns (m': Machine)
    requires Law(data, env, run) && Sane(data, m2) && Sane(data, m3) && |buses| == m.depth && run(m3) == run(m)
    requires Entered(data, m, name, items, m2, buses) && Kept(m2, m3) && m3.pos == end && At(data, end, U32Be(END_NODE))
    requires m3.calls == m2.calls + CallsAll(kids, buses + [BusOf(items, buses)]) && m3.pos + 4 == m.pos + len
    ensures Walked(data, run, m, m', len, Calls(Node(name, items, kids), buses), buses)
  {
    KidsKeep(data, m, m2, m3, buses);
    m' := EndStep(data, env, run, m3, name, items, buses);
    Assoc(m.calls, CallsAll(kids, buses + [BusOf(items, buses)]), OwnCall(name, items, buses));
  }

  lemma Assoc(a: seq<Call>, b: seq<Call>, c: seq<Call>)
    ensures a + b + c == a + (b + c)
  {
  }

  lemma RunNop(data: seq<Byte>, env: Env, run: Machine -> Outcome, m: Machine, buses: seq<Bus>) returns (m': Machine)
    requires Law(data, env, run) && Sane(data, m) && Ready(data, m.cells, buses) && At(data, m.pos, TreeBytes(Nop))
    ensures Walked(data, run, m, m', |TreeBytes(Nop)|, Calls(Nop, buses), buses)
  {
    m' := NopStep(data, env, run, m);
    KeptSelf(m, m.pos + 4);
    assert m.calls + [] == m.calls;
  }

  lemma {:induction false} RunTree(data: seq<Byte>, env: Env, run: Machine -> Outcome, m: Machine, t: Tree,
                                   buses: seq<Bus>)
    returns (m': Machine)
    requires Law(data, env, run) && Sane(data, m) && Whole(m.pos) && |buses| == m.depth && Ready(data, m.cells, buses)
    requires TreeFits(t) && TreeOk(t) && TreeNamed(data, env, t) && At(data, m.pos, TreeBytes(t))
    ensures Walked(data, run, m, m', |TreeBytes(t)|, Calls(t, buses), buses)
    decreases t, 1
  {
    match t
    case Nop => m' := RunNop(data, env, run, m, buses);
    case Node(name, items, kids) =>
      m' := RunWhole(data, env, run, m, name, items, kids, buses);
  }

  lemma {:induction false} RunWhole(data: seq<Byte>, env: Env, run: Machine -> Outcome, m: Machine, name: seq<Byte>,
                                    items: Items, kids: Forest, buses: seq<Bus>)
    returns (m': Machine)
    requires Law(data, env, run) && Sane(data, m) && Whole(m.pos) && |buses| == m.depth && Ready(data, m.cells, buses)
    requires 0 !in name && AllFit(items) && ItemsOk(items) && AllNamed(data, env, items)
    requires ForestFits(kids) && ForestOk(kids) && ForestNamed(data, env, kids)
    requires At(data, m.pos, TreeBytes(Node(name, items, kids)))
    ensures var t := Node(name, items, kids); Walked(data, run, m, m', |TreeBytes(t)|, Calls(t, buses), buses)
    decreases Node(name, items, kids), 0, 1
  {
    var p, q, e := NodeParts(data, m.pos, name, items, kids);
    m' := RunNode(data, env, run, m, name, items, kids, buses, p, q, e, |TreeBytes(Node(name, items, kids))|);
  }

  /** A node whose items start at p and whose children lie from q to e. */
  lemma {:induction false} RunNode(data: seq<Byte>, env: Env, run: Machine -> Outcome, m: Machine, name: seq<Byte>,
                                   items: Items, kids: Forest, buses: seq<Bus>, p: nat, q: nat, e: nat, len: nat)
    returns (m': Machine)
    requires Law(data, env, run) && Sane(data, m) && Whole(m.pos) && |buses| == m.depth && Ready(data, m.cells, buses)
    requires 0 !in name && AllFit(items) && ItemsOk(items) && AllNamed(data, env, items)
    requires ForestFits(kids) && ForestOk(kids) && ForestNamed(data, env, kids)
    requires At(data, m.pos, U32Be(BEGIN_NODE)) && At(data, m.pos + 4, NameBytes(name))
    requires p == m.pos + 4 + |NameBytes(name)| && Whole(p) && At(data, p, ItemBytes(items))
    requires q == p + |ItemBytes(items)| && Whole(q) && At(data, q, ForestBytes(kids))
    requires e == q + |ForestBytes(kids)| && At(data, e, U32Be(END_NODE)) && e + 4 == m.pos + len
    ensures Walked(data, run, m, m', len, Calls(Node(name, items, kids), buses), buses)
    decreases Node(name, items, kids), 0, 0
  {
    var m2 := OpenNode(data, env, run, m, name, items, buses, p, q);
    var m3 := RunForest(data, env, run, m2, kids, buses + [BusOf(items, buses)]);
    m' := CloseNode(data, env, run, m, m2, m3, name, items, kids, buses, len, e);
  }

  lemma {:induction false} RunForest(data: seq<Byte>, env: Env, run: Machine -> Outcome, m: Machine, f: Forest,
                                     buses: seq<Bus>)
    returns (m': Machine)
    requires Law(data, env, run) && Sane(data, m) && Whole(m.pos) && |buses| == m.depth && Ready(data, m.cells, buses)
    requires ForestFits(f) && ForestOk(f) && ForestNamed(data, env, f) && At(data, m.pos, ForestBytes(f))
    ensures Walked(data, run, m, m', |ForestBytes(f)|, CallsAll(f, buses), buses)
    decreases f, 1
  {
    match f
    case NoKids =>
      m' := m;
      KeptSelf(m, m.pos);
    case Kids(first, rest) =>
      AtConcat(data, m.pos, TreeBytes(first), ForestBytes(rest));
      WholeSum(m.pos, |TreeBytes(first)|);
      var m1 := RunTree(data, env, run, m, first, buses);
      m' := RunForest(data, env, run, m1, rest, buses);
      KeptTwice(m, m1, m');
      Assoc(m.calls, Calls(first, buses), CallsAll(rest, buses));
  }

  // ----- the result -----

  /** The walk itself, as a function on all machines. */
  function Result(data: seq<Byte>, env: Env, m: Machine): Outcome
  {
    if Sane(data, m) then Run(data, env, m) else Truncated
  }

  lemma ResultLaw(data: seq<Byte>, env: Env)
    ensures Law(data, env, m => Result(data, env, m))
  {
  }

  /** From the start of the structure block to its last token. */
  lemma ToLastToken(data: seq<Byte>, env: Env, run: Machine -> Outcome, m0: Machine, f: Forest) returns (m: Machine)
    requires Law(data, env, run) && ForestFits(f) && ForestOk(f) && ForestNamed(data, env, f)
    requires Sane(data, m0) && Whole(m0.pos) && m0.depth == 0 && m0.calls == []
    requires At(data, m0.pos, ForestBytes(f))
    ensures Sane(data, m) && run(m) == run(m0) && m.calls == CallsAll(f, []) && m.pos == m0.pos + |ForestBytes(f)|
  {
    m := RunForest(data, env, run, m0, f, []);
    NothingBefore(CallsAll(f, []));
  }

  lemma NothingBefore(calls: seq<Call>)
    ensures [] + calls == calls
  {
  }

  lemma LastToken(data: seq<Byte>, env: Env, m: Machine)
    requires Sane(data, m) && At(data, m.pos, U32Be(END))
    ensures Run(data, env, m) == Done(m.calls)
  {
    TokenAt(data, m.pos, END);
  }

  lemma RunFrom(data: seq<Byte>, env: Env, m0: Machine, f: Forest)
    requires ForestFits(f) && ForestOk(f) && ForestNamed(data, env, f)
    requires Sane(data, m0) && Whole(m0.pos) && m0.depth == 0 && m0.calls == []
    requires At(data, m0.pos, ForestBytes(f)) && At(data, m0.pos + |ForestBytes(f)|, U32Be(END))
    ensures Run(data, env, m0) == Done(CallsAll(f, []))
  {
    ResultLaw(data, env);
    var m := ToLastToken(data, env, m => Result(data, env, m), m0, f);
    LastToken(data, env, m);
  }

  /** The walk over any structure block of whole nodes and FDT_NOP tokens reports exactly those nodes. */
  lemma WalkReportsForest(data: seq<Byte>, env: Env, off: nat, f: Forest)
    requires ForestFits(f) && ForestOk(f) && ForestNamed(data, env, f)
    requires BlockAt(data, off, f)
    ensures Run(data, env, Start(off)) == Done(CallsAll(f, []))
  {
    StartSane(data, off);
    RunFrom(data, env, Start(off), f);
  }

  lemma StartSane(data: seq<Byte>, off: nat)
    ensures Sane(data, Start(off))
  {
  }

  lemma {:induction false} NopsReportNothing(f: Forest, buses: seq<Bus>)
    requires OnlyNops(f)
    ensures CallsAll(f, buses) == []
  {
    if f.Kids? { NopsReportNothing(f.rest, buses); }
  }

  lemma {:induction false} OneRootCalls(f: Forest, root: Tree, buses: seq<Bus>)
    requires OneRoot(f, root)
    ensures CallsAll(f, buses) == Calls(root, buses)
  {
    if f.first == Nop {
      OneRootCalls(f.rest, root, buses);
    } else {
      NopsReportNothing(f.rest, buses);
    }
  }

  /** The walk over any conforming blob succeeds and reports exactly the nodes of its tree. */
  lemma WalkReportsTree(data: seq<Byte>, env: Env, off: nat, f: Forest, root: Tree)
    requires OneRoot(f, root) && ForestFits(f) && ForestOk(f) && ForestNamed(data, env, f)
    requires BlockAt(data, off, f)
    ensures Run(data, env, Start(off)) == Done(Calls(root, []))
  {
    WalkReportsForest(data, env, off, f);
    OneRootCalls(f, root, []);
  }
}
