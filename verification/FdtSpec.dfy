/** What a walk over a devicetree should report, stated on the tree. */
module FdtSpec {
  import opened Options
  import opened FdtFormat

  const MAX_DEPTH: nat := 4
  const MAX_COMPAT: nat := 4
  const MAX_RANGES: nat := 3
  const U64_LIMIT: nat := 0x1_0000_0000_0000_0000
  const NO_CELLS: nat := 0xFFFF_FFFF

  // ----- property values -----

  predicate Matches(it: Item, key: Key, min: nat)
  {
    it.Property? && it.key == key && |it.value| >= min
  }

  /** The last property of this kind that is long enough. */
  function Last(items: Items, key: Key, min: nat): (r: Option<seq<Byte>>)
    ensures r.Some? ==> |r.value| >= min
  {
    match items
    case NoItems => None
    case Items(first, rest) =>
      var later := Last(rest, key, min);
      if later.Some? then later else if Matches(first, key, min) then Some(first.value) else None
  }

  function ValueOf(items: Items, key: Key): seq<Byte>
  {
    var v := Last(items, key, 0);
    if v.Some? then v.value else []
  }

  function WordOf(items: Items, key: Key, default: nat): nat
  {
    var v := Last(items, key, 4);
    if v.Some? then U32At(v.value, 0) else default
  }

  /** The interrupt number of a shared peripheral interrupt. */
  function InterruptIn(v: seq<Byte>): nat
    requires |v| >= 12
  {
    if U32At(v, 0) == 0 then U32At(v, 4) + 32 else 0
  }

  function InterruptOf(items: Items): nat
  {
    var v := Last(items, Interrupts, 12);
    if v.Some? then InterruptIn(v.value) else 0
  }

  /** The strings of a list in data[pos..end], up to the first empty one, at most `room` of them. */
  function CompatAt(data: seq<Byte>, pos: nat, end: nat, room: nat): Texts
    decreases room
  {
    if pos >= end || room == 0 || StringAt(data, pos) == [] then NoText
    else Text(StringAt(data, pos), CompatAt(data, pos + |StringAt(data, pos)| + 1, end, room - 1))
  }

  /** The strings of a property that the walk keeps. */
  function StringsOf(v: seq<Byte>): Texts
  {
    CompatAt(v, 0, |v|, MAX_COMPAT)
  }

  /** A string list as bytes. */
  function Joined(ts: Texts): seq<Byte>
  {
    match ts
    case NoText => []
    case Text(s, rest) => s + [0] + Joined(rest)
  }

  function First(ts: Texts, room: nat): Texts
  {
    if ts.NoText? || room == 0 then NoText else Text(ts.first, First(ts.rest, room - 1))
  }

  predicate Plain(ts: Texts)
  {
    ts.Text? ==> ts.first != [] && 0 !in ts.first && Plain(ts.rest)
  }

  /** The first strings of every list of nonempty strings are read back. */
  lemma {:induction false} CompatOfJoined(data: seq<Byte>, pos: nat, ts: Texts, room: nat)
    requires Plain(ts) && At(data, pos, Joined(ts))
    ensures CompatAt(data, pos, pos + |Joined(ts)|, room) == First(ts, room)
    decreases room
  {
    if ts.Text? && room > 0 {
      AtConcat(data, pos, ts.first + [0], Joined(ts.rest));
      NameAt(data, pos, ts.first);
      CompatOfJoined(data, pos + |ts.first| + 1, ts.rest, room - 1);
    }
  }

  // ----- buses -----

  datatype Range = Range(child: nat, parent: nat, size: nat)

  /** How a node's children write addresses, and how they map into the node's own address space. */
  datatype Bus = Bus(addressCells: nat, sizeCells: nat, ranges: seq<Range>)

  function EntryBytes(child: nat, parent: nat, size: nat): nat
  {
    (child + parent + size) * 4
  }

  /** The entries of data[off..end], at most `room` of them. */
  function RangesAt(data: seq<Byte>, off: nat, end: nat, child: nat, parent: nat, size: nat, room: nat): seq<Range>
    requires end <= |data|
    decreases room
  {
    var n := EntryBytes(child, parent, size);
    if n == 0 || off + n > end || room == 0 then []
    else
      [Range(CellsAt(data, off, child), CellsAt(data, off + child * 4, parent),
             CellsAt(data, off + (child + parent) * 4, size))]
      + RangesAt(data, off + n, end, child, parent, size, room - 1)
  }

  function ParentCells(buses: seq<Bus>): nat
  {
    if buses == [] then 2 else buses[|buses| - 1].addressCells
  }

  function BusOf(items: Items, buses: seq<Bus>): Bus
  {
    var ac, sc := WordOf(items, AddressCells, 2), WordOf(items, SizeCells, 2);
    var v := ValueOf(items, Ranges);
    Bus(ac, sc, RangesAt(v, 0, |v|, ac, ParentCells(buses), sc, MAX_RANGES))
  }

  /** One bus level: the first range that holds the address maps it. */
  function Through(ranges: seq<Range>, a: nat): nat
  {
    if ranges == [] then a
    else if ranges[0].child <= a && a - ranges[0].child < ranges[0].size then
      (ranges[0].parent + (a - ranges[0].child)) % U64_LIMIT
    else Through(ranges[1..], a)
  }

  /** From the address space of the innermost bus up to the root's. */
  function ToRoot(buses: seq<Bus>, a: nat): nat
    decreases |buses|
  {
    if |buses| <= 1 then a else ToRoot(buses[..|buses| - 1], Through(buses[|buses| - 1].ranges, a))
  }

  // ----- what is reported -----

  datatype Info = Info(compat: Texts, hasCompat: bool, regAddr: nat, regSize: nat, regAddr2: nat, intid: nat,
                       phandle: nat, clockCells: nat, clocks: seq<Byte>)

  datatype Call = Call(name: seq<Byte>, info: Info)

  /** First address, first size and second address of a `reg` value, in the parent bus's terms. */
  function RegOf(v: seq<Byte>, ac: nat, sc: nat): (nat, nat, nat)
  {
    if |v| == 0 || |v| < (ac + sc) * 4 then (0, 0, 0)
    else
      (CellsAt(v, 0, ac), CellsAt(v, ac * 4, sc),
       if |v| >= (ac + sc) * 8 then CellsAt(v, (ac + sc) * 4, ac) else 0)
  }

  /** Zero stands for an absent address and is not translated. */
  function Physical(buses: seq<Bus>, a: nat): nat
  {
    if a == 0 then 0 else ToRoot(buses, a)
  }

  /** The addresses and the size of a `reg` value below these buses. */
  function RegBelow(v: seq<Byte>, buses: seq<Bus>): (nat, nat, nat)
  {
    var ac, sc := ParentCells(buses), if buses == [] then 2 else buses[|buses| - 1].sizeCells;
    var (addr, size, addr2) := RegOf(v, ac, sc);
    (Physical(buses, addr), size, Physical(buses, addr2))
  }

  function InfoOf(items: Items, buses: seq<Bus>): Info
  {
    var (addr, size, addr2) := RegBelow(ValueOf(items, Reg), buses);
    Info(StringsOf(ValueOf(items, Compatible)), Last(items, Compatible, 0).Some?, addr, size, addr2,
         InterruptOf(items), WordOf(items, Phandle, 0), WordOf(items, ClockCells, 0xFFFF_FFFF), ValueOf(items, Clocks))
  }

  /** The report of a node below these buses, if it is above the depth limit. */
  function OwnCall(name: seq<Byte>, items: Items, buses: seq<Bus>): seq<Call>
  {
    if |buses| < 4 then [Call(name, InfoOf(items, buses))] else []
  }

  /** The reports of a tree below these buses, children first. */
  function Calls(t: Tree, buses: seq<Bus>): seq<Call>
    decreases t
  {
    match t
    case Nop => []
    case Node(name, items, kids) =>
      CallsAll(kids, buses + [BusOf(items, buses)]) + OwnCall(name, items, buses)
  }

  function CallsAll(f: Forest, buses: seq<Bus>): seq<Call>
    decreases f
  {
    match f
    case NoKids => []
    case Kids(first, rest) => Calls(first, buses) + CallsAll(rest, buses)
  }

  // ----- conforming trees -----

  /** Value formats that the Devicetree Specification gives for the properties that the walk decodes. */
  predicate ItemOk(it: Item)
  {
    it.Property? ==>
      match it.key
      case Compatible => it.value == [] || it.value[|it.value| - 1] == 0
      // so that sums of cell counts, and numbers of shared peripheral interrupts, stay in 32 bits
      case AddressCells => |it.value| >= 4 ==> U32At(it.value, 0) < 0x4000_0000
      case SizeCells => |it.value| >= 4 ==> U32At(it.value, 0) < 0x4000_0000
      case Interrupts => |it.value| >= 12 && U32At(it.value, 0) == 0 ==> U32At(it.value, 4) + 32 < U32_LIMIT
      case _ => true
  }

  predicate ItemsOk(items: Items)
  {
    items.Items? ==> ItemOk(items.first) && ItemsOk(items.rest)
  }

  predicate TreeOk(t: Tree)
    decreases t
  {
    t.Node? ==> 0 !in t.name && ItemsOk(t.items) && ForestOk(t.kids)
  }

  predicate ForestOk(f: Forest)
    decreases f
  {
    f.Kids? ==> TreeOk(f.first) && ForestOk(f.rest)
  }

  /** Where the strings block starts, and which names are known. */
  datatype Env = Env(strings: nat, keys: Keys)

  /** The strings block spells every property's name where the property says. */
  predicate Named(data: seq<Byte>, env: Env, it: Item)
  {
    it.Property? ==> KeyOf(env.keys, StringAt(data, env.strings + it.nameOff)) == it.key
  }

  predicate AllNamed(data: seq<Byte>, env: Env, items: Items)
  {
    items.Items? ==> Named(data, env, items.first) && AllNamed(data, env, items.rest)
  }

  predicate TreeNamed(data: seq<Byte>, env: Env, t: Tree)
    decreases t
  {
    t.Node? ==> AllNamed(data, env, t.items) && ForestNamed(data, env, t.kids)
  }

  predicate ForestNamed(data: seq<Byte>, env: Env, f: Forest)
    decreases f
  {
    f.Kids? ==> TreeNamed(data, env, f.first) && ForestNamed(data, env, f.rest)
  }
}
