/** The token-driven walk over a structure block, one token at a time. */
module FdtWalk {
  import opened Options
  import opened FdtFormat
  import opened FdtSpec

  /** What is known of the node at one depth; `reg` and `clocks` stay undecoded. */
  datatype NodeState = NodeState(compat: Texts, hasCompat: bool, intid: nat, regStart: nat, regLen: nat,
                                 phandle: nat, clockCells: nat, clocksStart: nat, clocksLen: nat)

  const EMPTY: NodeState := NodeState(NoText, false, 0, 0, 0, 0, NO_CELLS, 0, 0)

  /** The bus that the node at one depth provides; `ranges` stays undecoded until the first child. */
  datatype DepthCells = DepthCells(addressCells: nat, sizeCells: nat, ranges: seq<Range>, hasRanges: bool,
                                   rangesStart: nat, rangesLen: nat)

  const DEFAULT: DepthCells := DepthCells(2, 2, [], false, 0, 0)

  datatype Machine = Machine(pos: nat, depth: nat, state: seq<NodeState>, cells: seq<DepthCells>,
                             names: seq<(nat, nat)>, calls: seq<Call>)

  predicate StateSane(data: seq<Byte>, ns: NodeState)
  {
    ns.regStart + ns.regLen <= |data| && ns.clocksStart + ns.clocksLen <= |data|
  }

  predicate CellsSane(data: seq<Byte>, dc: DepthCells)
  {
    dc.rangesStart + dc.rangesLen <= |data|
  }

  /** Everything the machine remembers lies inside the data. */
  predicate Sane(data: seq<Byte>, m: Machine)
  {
    && |m.state| == MAX_DEPTH && |m.cells| == MAX_DEPTH && |m.names| == MAX_DEPTH
    && (forall i: nat | i < MAX_DEPTH :: StateSane(data, m.state[i]))
    && (forall i: nat | i < MAX_DEPTH :: CellsSane(data, m.cells[i]))
    && (forall i: nat | i < MAX_DEPTH :: m.names[i].0 <= m.names[i].1 <= |data|)
  }

  // ----- properties -----

  /** A property's effect on the state of its node. */
  function NodeProp(data: seq<Byte>, key: Key, start: nat, len: nat, ns: NodeState): NodeState
    requires start + len <= |data|
  {
    match key
    case Compatible => ns.(compat := CompatAt(data, start, start + len, MAX_COMPAT), hasCompat := true)
    case Reg => ns.(regStart := start, regLen := len)
    case Interrupts =>
      if len < 12 then ns
      else ns.(intid := if U32At(data, start) == 0 then U32At(data, start + 4) + 32 else 0)
    case Phandle => if len < 4 then ns else ns.(phandle := U32At(data, start))
    case ClockCells => if len < 4 then ns else ns.(clockCells := U32At(data, start))
    case Clocks => ns.(clocksStart := start, clocksLen := len)
    case _ => ns
  }

  /** A property's effect on the bus of its node. */
  function BusProp(data: seq<Byte>, key: Key, start: nat, len: nat, dc: DepthCells): DepthCells
    requires start + len <= |data|
  {
    match key
    case AddressCells => if len < 4 then dc else dc.(addressCells := U32At(data, start))
    case SizeCells => if len < 4 then dc else dc.(sizeCells := U32At(data, start))
    case Ranges => dc.(hasRanges := true, rangesStart := start, rangesLen := len)
    case _ => dc
  }

  /** The one sum in property decoding that can leave 32 bits. */
  predicate PropOverflows(data: seq<Byte>, key: Key, start: nat, len: nat)
    requires start + len <= |data|
  {
    key == Interrupts && len >= 12 && U32At(data, start) == 0 && U32At(data, start + 4) + 32 >= U32_LIMIT
  }

  // ----- addresses -----

  predicate Deferred(dc: DepthCells)
  {
    dc.hasRanges && |dc.ranges| == 0 && dc.rangesLen > 0
  }

  function CellsAbove(cells: seq<DepthCells>, d: nat): nat
    requires d < |cells|
  {
    if d > 0 then cells[d - 1].addressCells else 2
  }

  /** The ranges of a node below a bus with this many address cells, decoded if they were not. */
  function FinalRanges(data: seq<Byte>, dc: DepthCells, above: nat): seq<Range>
    requires CellsSane(data, dc)
  {
    if !Deferred(dc) then dc.ranges
    else RangesAt(data, dc.rangesStart, dc.rangesStart + dc.rangesLen, dc.addressCells, above, dc.sizeCells, MAX_RANGES)
  }

  predicate RangesOverflow(cells: seq<DepthCells>, d: nat)
    requires d < |cells|
  {
    Deferred(cells[d]) && cells[d].addressCells + CellsAbove(cells, d) + cells[d].sizeCells >= U32_LIMIT
  }

  function TranslateAt(cells: seq<DepthCells>, a: nat, level: nat): nat
    requires level < |cells|
    decreases level
  {
    if level == 0 then a else TranslateAt(cells, Through(cells[level].ranges, a), level - 1)
  }

  function Translate(cells: seq<DepthCells>, a: nat, depth: nat): nat
    requires depth <= |cells|
  {
    if a == 0 || depth == 0 then a else TranslateAt(cells, a, depth - 1)
  }

  /** Address and size cells in which a node at depth d writes its `reg`. */
  function RegCells(cells: seq<DepthCells>, d: nat): (nat, nat)
    requires d < |cells|
  {
    if d > 0 then (cells[d - 1].addressCells, cells[d - 1].sizeCells) else (2, 2)
  }

  predicate RegOverflows(m: Machine, d: nat)
    requires d < |m.state| && d < |m.cells|
  {
    m.state[d].regLen > 0 && RegCells(m.cells, d).0 + RegCells(m.cells, d).1 >= U32_LIMIT
  }

  /** The addresses and the size of a `reg` value at depth d. */
  function RegReport(cells: seq<DepthCells>, v: seq<Byte>, d: nat): (nat, nat, nat)
    requires d < |cells|
  {
    var (ac, sc) := RegCells(cells, d);
    var (addr, size, addr2) := RegOf(v, ac, sc);
    (Translate(cells, addr, d), size, Translate(cells, addr2, d))
  }

  /** The report for the node at depth d. */
  function Report(data: seq<Byte>, m: Machine, d: nat): Call
    requires Sane(data, m) && d < MAX_DEPTH
  {
    var ns := m.state[d];
    var (addr, size, addr2) := RegReport(m.cells, data[ns.regStart..ns.regStart + ns.regLen], d);
    Call(data[m.names[d].0..m.names[d].1],
         Info(ns.compat, ns.hasCompat, addr, size, addr2, ns.intid, ns.phandle, ns.clockCells,
              data[ns.clocksStart..ns.clocksStart + ns.clocksLen]))
  }

  // ----- one token -----

  datatype Outcome = More(m: Machine) | Done(calls: seq<Call>) | Truncated | Overflow

  /** Ranges of the enclosing node are decoded before its first child. */
  function Settle(data: seq<Byte>, m: Machine): (s: Machine)
    requires Sane(data, m)
    ensures Sane(data, s)
  {
    if 0 < m.depth <= MAX_DEPTH then
      var d := m.depth - 1;
      m.(cells := m.cells[d := m.cells[d].(ranges := FinalRanges(data, m.cells[d], CellsAbove(m.cells, d)))])
    else m
  }

  /** A node opens at the current depth; its name ends at `end`. */
  function Open(data: seq<Byte>, m: Machine, end: nat): (m': Machine)
    requires Sane(data, m) && m.pos <= end <= |data|
    ensures Sane(data, m')
  {
    var next := m.(pos := Align4(end + 1), depth := m.depth + 1);
    if m.depth >= MAX_DEPTH then next
    else
      next.(state := m.state[m.depth := EMPTY], cells := m.cells[m.depth := DEFAULT],
            names := m.names[m.depth := (m.pos, end)])
  }

  /** A new node; `pos` is behind its token. */
  function BeginNode(data: seq<Byte>, m: Machine): (o: Outcome)
    requires Sane(data, m) && m.pos <= |data|
    ensures o.More? ==> Sane(data, o.m) && m.pos <= o.m.pos
  {
    if 0 < m.depth <= MAX_DEPTH && RangesOverflow(m.cells, m.depth - 1) then Overflow
    else More(Open(data, Settle(data, m), m.pos + |StringAt(data, m.pos)|))
  }

  function EndNode(data: seq<Byte>, m: Machine): (o: Outcome)
    requires Sane(data, m)
    ensures o.More? ==> Sane(data, o.m) && m.pos <= o.m.pos
  {
    if m.depth == 0 then Truncated
    else
      var d := m.depth - 1;
      if d >= MAX_DEPTH then More(m.(depth := d))
      else if RegOverflows(m, d) then Overflow
      else More(m.(depth := d, calls := m.calls + [Report(data, m, d)]))
  }

  /** The machine behind a property with this value. */
  function TakeProp(data: seq<Byte>, m: Machine, key: Key, start: nat, len: nat): (m': Machine)
    requires Sane(data, m) && start + len <= |data|
    ensures Sane(data, m')
  {
    var next := m.(pos := Align4(start + len));
    if m.depth == 0 || m.depth > MAX_DEPTH then next
    else
      var d := m.depth - 1;
      next.(state := m.state[d := NodeProp(data, key, start, len, m.state[d])],
            cells := m.cells[d := BusProp(data, key, start, len, m.cells[d])])
  }

  function ReadProp(data: seq<Byte>, env: Env, m: Machine): (o: Outcome)
    requires Sane(data, m)
    ensures o.More? ==> Sane(data, o.m) && m.pos <= o.m.pos
  {
    if m.pos + 8 > |data| then Truncated
    else
      var len, nameOff := U32At(data, m.pos), U32At(data, m.pos + 4);
      var start := m.pos + 8;
      if start + len > |data| then Truncated
      else
        var key := KeyOf(env.keys, StringAt(data, env.strings + nameOff));
        if 0 < m.depth <= MAX_DEPTH && PropOverflows(data, key, start, len) then Overflow
        else More(TakeProp(data, m, key, start, len))
  }

  function Step(data: seq<Byte>, env: Env, m: Machine): (o: Outcome)
    requires Sane(data, m)
    ensures o.More? ==> m.pos + 4 <= |data| && m.pos + 4 <= o.m.pos && Sane(data, o.m)
  {
    if m.pos + 4 > |data| then Truncated
    else
      var token := U32At(data, m.pos);
      var next := m.(pos := m.pos + 4);
      if token == BEGIN_NODE then BeginNode(data, next)
      else if token == END_NODE then EndNode(data, next)
      else if token == PROP then ReadProp(data, env, next)
      else if token == NOP then More(next)
      else if token == END then Done(m.calls)
      else Truncated
  }

  /** The walk to its end. */
  function Run(data: seq<Byte>, env: Env, m: Machine): (o: Outcome)
    requires Sane(data, m)
    ensures !o.More?
    decreases if m.pos < |data| then |data| - m.pos else 0
  {
    var o := Step(data, env, m);
    if o.More? then Run(data, env, o.m) else o
  }

  function Start(off: nat): Machine
  {
    Machine(off, 0, seq(MAX_DEPTH, _ => EMPTY), seq(MAX_DEPTH, _ => DEFAULT), seq(MAX_DEPTH, _ => (0, 0)), [])
  }
}
