/** The walk as the loop over per-depth arrays that it is. */
module FdtLoop {
  import opened Options
  import opened FdtFormat
  import opened FdtSpec
  import opened FdtWalk
  import opened FdtTree

  // ----- reading -----

  /** Where the string at pos ends. */
  method StringEnd(data: seq<Byte>, pos: nat) returns (end: nat)
    requires pos <= |data|
    ensures end == pos + |StringAt(data, pos)| <= |data|
  {
    end := pos;
    while end < |data| && data[end] != 0
      invariant pos <= end <= |data|
      invariant pos + |StringAt(data, pos)| == end + |StringAt(data, end)|
    {
      end := end + 1;
    }
  }

  function Prepend(seen: seq<seq<Byte>>, rest: Texts): Texts
  {
    if seen == [] then rest else Prepend(seen[..|seen| - 1], Text(seen[|seen| - 1], rest))
  }

  method ParseCompat(data: seq<Byte>, start: nat, len: nat) returns (ts: Texts)
    ensures ts == CompatAt(data, start, start + len, MAX_COMPAT)
  {
    var seen: seq<seq<Byte>> := [];
    var pos: nat := start;
    while pos < start + len && |seen| < MAX_COMPAT
      invariant |seen| <= MAX_COMPAT
      invariant CompatAt(data, start, start + len, MAX_COMPAT)
                == Prepend(seen, CompatAt(data, pos, start + len, MAX_COMPAT - |seen|))
      decreases MAX_COMPAT - |seen|
    {
      var s := StringAt(data, pos);
      if s == [] { break; }
      pos := pos + |s| + 1;
      seen := seen + [s];
      assert seen[..|seen| - 1] + [s] == seen;
    }
    ts := Prepend(seen, NoText);
  }

  /** The entries of a `ranges` value. */
  method DecodeRanges(data: seq<Byte>, start: nat, end: nat, child: nat, parent: nat, size: nat)
    returns (ranges: seq<Range>)
    requires start <= end <= |data|
    ensures ranges == RangesAt(data, start, end, child, parent, size, MAX_RANGES)
  {
    var n := EntryBytes(child, parent, size);
    var off: nat, room: nat := start, MAX_RANGES;
    ranges := [];
    if n == 0 { return; }
    while off + n <= end && room > 0
      invariant off <= end
      invariant RangesAt(data, start, end, child, parent, size, MAX_RANGES)
                == ranges + RangesAt(data, off, end, child, parent, size, room)
      decreases room
    {
      var r := Range(CellsAt(data, off, child), CellsAt(data, off + child * 4, parent),
                     CellsAt(data, off + (child + parent) * 4, size));
      RangesSnoc(data, off, end, child, parent, size, room, ranges, r);
      off, room := off + n, room - 1;
      ranges := ranges + [r];
    }
  }

  lemma RangesSnoc(data: seq<Byte>, off: nat, end: nat, child: nat, parent: nat, size: nat, room: nat,
                   ranges: seq<Range>, r: Range)
    requires end <= |data| && room > 0
    requires 0 < EntryBytes(child, parent, size) && off + EntryBytes(child, parent, size) <= end
    requires r == Range(CellsAt(data, off, child), CellsAt(data, off + child * 4, parent),
                        CellsAt(data, off + (child + parent) * 4, size))
    ensures ranges + RangesAt(data, off, end, child, parent, size, room)
            == ranges + [r] + RangesAt(data, off + EntryBytes(child, parent, size), end, child, parent, size, room - 1)
  {
    assert RangesAt(data, off, end, child, parent, size, room)
           == [r] + RangesAt(data, off + EntryBytes(child, parent, size), end, child, parent, size, room - 1);
  }

  /** Decode the deferred ranges of the node at depth d. */
  method ParseRanges(data: seq<Byte>, d: nat, cells: array<DepthCells>) returns (ok: bool)
    requires d < cells.Length && CellsSane(data, cells[d]) && Deferred(cells[d])
    modifies cells
    ensures ok <==> !RangesOverflow(old(cells[..]), d)
    ensures ok ==>
      var ranges := FinalRanges(data, old(cells[d]), CellsAbove(old(cells[..]), d));
      cells[..] == old(cells[..])[d := old(cells[d]).(ranges := ranges)]
    ensures !ok ==> cells[..] == old(cells[..])
  {
    var dc := cells[d];
    var above := if d > 0 then cells[d - 1].addressCells else 2;
    if dc.addressCells + above + dc.sizeCells >= U32_LIMIT { return false; }
    var end := dc.rangesStart + dc.rangesLen;
    var ranges := DecodeRanges(data, dc.rangesStart, end, dc.addressCells, above, dc.sizeCells);
    cells[d] := dc.(ranges := ranges);
    ok := true;
  }

  /** Through the buses above a node, up to the root's address space. */
  method TranslateAddress(cells: array<DepthCells>, addr: nat, depth: nat) returns (a: nat)
    requires depth <= cells.Length && addr != 0
    ensures a == Translate(cells[..], addr, depth)
  {
    a := addr;
    if depth == 0 { return; }
    var level: nat := depth - 1;
    while level > 0
      invariant level < depth && Translate(cells[..], addr, depth) == TranslateAt(cells[..], a, level)
    {
      a := ApplyRanges(cells[level].ranges, a);
      level := level - 1;
    }
  }

  /** The first range that holds the address maps it. */
  method ApplyRanges(ranges: seq<Range>, addr: nat) returns (a: nat)
    ensures a == Through(ranges, addr)
  {
    var i := 0;
    while i < |ranges|
      invariant i <= |ranges| && Through(ranges, addr) == Through(ranges[i..], addr)
    {
      var r := ranges[i];
      assert ranges[i..][0] == r && ranges[i..][1..] == ranges[i + 1..];
      if addr >= r.child && addr - r.child < r.size {
        return (r.parent + (addr - r.child)) % U64_LIMIT;
      }
      i := i + 1;
    }
    a := addr;
  }

  // ----- the three kinds of tokens that do something -----

  /** Decode the ranges of the enclosing node if that was put off. */
  method SettleRanges(data: seq<Byte>, cells: array<DepthCells>, depth: nat, ghost m: Machine) returns (ok: bool)
    requires Sane(data, m) && m.depth == depth && cells[..] == m.cells
    modifies cells
    ensures ok <==> !(0 < depth <= MAX_DEPTH && RangesOverflow(m.cells, depth - 1))
    ensures ok ==> cells[..] == Settle(data, m).cells
  {
    ok := true;
    if 0 < depth <= MAX_DEPTH && Deferred(cells[depth - 1]) {
      ok := ParseRanges(data, depth - 1, cells);
    }
  }

  /** A node opens. */
  method BeginToken(data: seq<Byte>, state: array<NodeState>, cells: array<DepthCells>, names: array<(nat, nat)>,
                    pos: nat, depth: nat, ghost m: Machine)
    returns (ok: bool, next: nat)
    requires Sane(data, m) && pos <= |data|
    requires m == Machine(pos, depth, state[..], cells[..], names[..], m.calls)
    modifies state, cells, names
    ensures ok ==>
      BeginNode(data, m) == More(Machine(next, depth + 1, state[..], cells[..], names[..], m.calls))
    ensures !ok ==> BeginNode(data, m) == Overflow
  {
    next := pos;
    ok := SettleRanges(data, cells, depth, m);
    if !ok { return; }
    var end := StringEnd(data, pos);
    OpenLevel(data, state, cells, names, pos, end, depth, Settle(data, m));
    next := Align4(end + 1);
  }

  /** Start afresh at the depth of a new node. */
  method OpenLevel(data: seq<Byte>, state: array<NodeState>, cells: array<DepthCells>, names: array<(nat, nat)>,
                   pos: nat, end: nat, depth: nat, ghost s: Machine)
    requires Sane(data, s) && pos <= end <= |data| && s == Machine(pos, depth, state[..], cells[..], names[..], s.calls)
    modifies state, cells, names
    ensures Open(data, s, end) == Machine(Align4(end + 1), depth + 1, state[..], cells[..], names[..], s.calls)
  {
    if depth < MAX_DEPTH {
      state[depth] := EMPTY;
      cells[depth] := DEFAULT;
      names[depth] := (pos, end);
    }
  }

  /** First address, first size and second address of a deferred `reg`. */
  method ReadReg(data: seq<Byte>, start: nat, len: nat, ac: nat, sc: nat) returns (addr: nat, size: nat, addr2: nat)
    requires start + len <= |data|
    ensures (addr, size, addr2) == RegOf(data[start..start + len], ac, sc)
  {
    addr, size, addr2 := 0, 0, 0;
    if len == 0 { return; }
    var entry := (ac + sc) * 4;
    if len < entry { return; }
    ghost var v := data[start..start + len];
    AtEvery(data, start, v);
    AtCells(data, start, v, 0, ac);
    AtCells(data, start, v, ac * 4, sc);
    addr := CellsAt(data, start, ac);
    size := CellsAt(data, start + ac * 4, sc);
    if len >= entry * 2 {
      AtCells(data, start, v, entry, ac);
      addr2 := CellsAt(data, start + entry, ac);
    }
  }

  /** The translated `reg` of the node at depth d. */
  method RegFor(data: seq<Byte>, start: nat, len: nat, cells: array<DepthCells>, d: nat)
    returns (addr: nat, size: nat, addr2: nat)
    requires start + len <= |data| && d < cells.Length
    ensures (addr, size, addr2) == RegReport(cells[..], data[start..start + len], d)
  {
    var ac, sc := 2, 2;
    if d > 0 { ac, sc := cells[d - 1].addressCells, cells[d - 1].sizeCells; }
    addr, size, addr2 := ReadReg(data, start, len, ac, sc);
    if addr != 0 { addr := TranslateAddress(cells, addr, d); }
    if addr2 != 0 { addr2 := TranslateAddress(cells, addr2, d); }
  }

  /** The report of the node at depth d. */
  method MakeReport(data: seq<Byte>, state: array<NodeState>, cells: array<DepthCells>, names: array<(nat, nat)>,
                    d: nat, ghost m: Machine)
    returns (ok: bool, call: Call)
    requires Sane(data, m) && d < MAX_DEPTH && state[..] == m.state && cells[..] == m.cells && names[..] == m.names
    ensures ok <==> !RegOverflows(m, d)
    ensures ok ==> call == Report(data, m, d)
  {
    var ns := state[d];
    call := Call([], Info(NoText, false, 0, 0, 0, 0, 0, 0, []));
    if ns.regLen > 0 && d > 0 && cells[d - 1].addressCells + cells[d - 1].sizeCells >= U32_LIMIT { return false, call; }
    var addr, size, addr2 := RegFor(data, ns.regStart, ns.regLen, cells, d);
    ReportFields(data, m, d, ns, data[ns.regStart..ns.regStart + ns.regLen],
                 data[ns.clocksStart..ns.clocksStart + ns.clocksLen], (addr, size, addr2));
    call := Call(data[names[d].0..names[d].1],
                 Info(ns.compat, ns.hasCompat, addr, size, addr2, ns.intid, ns.phandle, ns.clockCells,
                      data[ns.clocksStart..ns.clocksStart + ns.clocksLen]));
    ok := true;
  }

  /** A node closes; its report is added. */
  method EndToken(data: seq<Byte>, state: array<NodeState>, cells: array<DepthCells>, names: array<(nat, nat)>,
                  depth: nat, calls: seq<Call>, ghost m: Machine)
    returns (st: Status, calls': seq<Call>)
    requires Sane(data, m) && m == Machine(m.pos, depth, state[..], cells[..], names[..], calls)
    ensures st == Going ==> depth > 0 && EndNode(data, m) == More(m.(depth := depth - 1, calls := calls'))
    ensures st == Cut ==> EndNode(data, m) == Truncated
    ensures st == TooBig ==> EndNode(data, m) == Overflow
  {
    calls' := calls;
    if depth == 0 { return Cut, calls'; }
    if depth <= MAX_DEPTH {
      var ok, call := MakeReport(data, state, cells, names, depth - 1, m);
      if !ok { return TooBig, calls'; }
      calls' := calls + [call];
    }
    st := Going;
  }

  datatype Status = Going | Cut | TooBig

  /** Store a property in the arrays. */
  method StoreProp(data: seq<Byte>, key: Key, start: nat, len: nat, state: array<NodeState>, cells: array<DepthCells>,
                   d: nat)
    requires start + len <= |data| && d < state.Length && d < cells.Length
    modifies state, cells
    ensures state[..] == old(state[..])[d := NodeProp(data, key, start, len, old(state[d]))]
    ensures cells[..] == old(cells[..])[d := BusProp(data, key, start, len, old(cells[d]))]
  {
    match key {
      case Compatible =>
        var ts := ParseCompat(data, start, len);
        state[d] := state[d].(compat := ts, hasCompat := true);
      case AddressCells => if len >= 4 { cells[d] := cells[d].(addressCells := U32At(data, start)); }
      case SizeCells => if len >= 4 { cells[d] := cells[d].(sizeCells := U32At(data, start)); }
      case Reg => state[d] := state[d].(regStart := start, regLen := len);
      case Interrupts =>
        if len >= 12 {
          state[d] := state[d].(intid := if U32At(data, start) == 0 then U32At(data, start + 4) + 32 else 0);
        }
      case Ranges => cells[d] := cells[d].(hasRanges := true, rangesStart := start, rangesLen := len);
      case Phandle => if len >= 4 { state[d] := state[d].(phandle := U32At(data, start)); }
      case ClockCells => if len >= 4 { state[d] := state[d].(clockCells := U32At(data, start)); }
      case Clocks => state[d] := state[d].(clocksStart := start, clocksLen := len);
      case OtherKey =>
    }
  }

  /** A property. */
  method PropToken(data: seq<Byte>, env: Env, state: array<NodeState>, cells: array<DepthCells>, pos: nat, depth: nat,
                   ghost m: Machine)
    returns (st: Status, next: nat)
    requires Sane(data, m) && m == Machine(pos, depth, state[..], cells[..], m.names, m.calls)
    modifies state, cells
    ensures st == Going ==> ReadProp(data, env, m) == More(Machine(next, depth, state[..], cells[..], m.names, m.calls))
    ensures st == Cut ==> ReadProp(data, env, m) == Truncated
    ensures st == TooBig ==> ReadProp(data, env, m) == Overflow
  {
    next := pos;
    if pos + 8 > |data| { return Cut, next; }
    var len, nameOff := U32At(data, pos), U32At(data, pos + 4);
    var start := pos + 8;
    if start + len > |data| { return Cut, next; }
    var key := KeyOf(env.keys, StringAt(data, env.strings + nameOff));
    if 0 < depth <= MAX_DEPTH {
      if PropOverflows(data, key, start, len) { return TooBig, next; }
      StoreProp(data, key, start, len, state, cells, depth - 1);
    }
    next := Align4(start + len);
    st := Going;
  }

  /** The walk, token by token. */
  method Walk(data: seq<Byte>, env: Env, off: nat) returns (o: Outcome)
    ensures o == Run(data, env, Start(off))
  {
    var state := new NodeState[MAX_DEPTH](_ => EMPTY);
    var cells := new DepthCells[MAX_DEPTH](_ => DEFAULT);
    var names := new (nat, nat)[MAX_DEPTH](_ => (0, 0));
    var pos, depth: nat, calls: seq<Call> := off, 0, [];
    ghost var m := Start(off);
    assert state[..] == m.state && cells[..] == m.cells && names[..] == m.names;
    while true
      invariant Sane(data, m) && m == Machine(pos, depth, state[..], cells[..], names[..], calls)
      invariant Run(data, env, m) == Run(data, env, Start(off))
      decreases if pos < |data| then |data| - pos else 0
    {
      if pos + 4 > |data| { return Truncated; }
      if U32At(data, pos) == END { return Done(calls); }
      var st, pos', depth', calls' := Token(data, env, state, cells, names, pos, depth, calls, m);
      if st == Cut { return Truncated; }
      if st == TooBig { return Overflow; }
      pos, depth, calls := pos', depth', calls';
      m := Machine(pos, depth, state[..], cells[..], names[..], calls);
    }
  }

  /** One token other than the last. */
  method Token(data: seq<Byte>, env: Env, state: array<NodeState>, cells: array<DepthCells>, names: array<(nat, nat)>,
               pos: nat, depth: nat, calls: seq<Call>, ghost m: Machine)
    returns (st: Status, pos': nat, depth': nat, calls': seq<Call>)
    requires Sane(data, m) && m == Machine(pos, depth, state[..], cells[..], names[..], calls)
    requires pos + 4 <= |data| && U32At(data, pos) != END
    modifies state, cells, names
    ensures st == Going ==>
      Step(data, env, m) == More(Machine(pos', depth', state[..], cells[..], names[..], calls'))
    ensures st == Cut ==> Step(data, env, m) == Truncated
    ensures st == TooBig ==> Step(data, env, m) == Overflow
  {
    st, pos', depth', calls' := Going, pos + 4, depth, calls;
    var token := U32At(data, pos);
    ghost var read := m.(pos := pos + 4);
    if token == BEGIN_NODE {
      var ok;
      ok, pos' := BeginToken(data, state, cells, names, pos + 4, depth, read);
      st := if ok then Going else TooBig;
      depth' := depth + 1;
    } else if token == END_NODE {
      st, calls' := EndToken(data, state, cells, names, depth, calls, read);
      if st == Going { depth' := depth - 1; }
    } else if token == PROP {
      st, pos' := PropToken(data, env, state, cells, pos + 4, depth, read);
    } else if token != NOP {
      st := Cut;
    }
  }

  /** On a conforming blob the loop reports exactly the nodes of the tree. */
  method WalkTree(data: seq<Byte>, strings: nat, off: nat, ghost f: Forest, ghost root: Tree)
    returns (calls: seq<Call>)
    requires OneRoot(f, root) && ForestFits(f) && ForestOk(f) && ForestNamed(data, Env(strings, KEYS), f)
    requires BlockAt(data, off, f)
    ensures calls == Calls(root, [])
  {
    WalkReportsTree(data, Env(strings, KEYS), off, f, root);
    var o := Walk(data, Env(strings, KEYS), off);
    calls := o.calls;
  }
}
