/** The flattened devicetree format: bytes, properties and the structure block. */
module FdtFormat {
  import opened Options

  type Byte = x: nat | x < 256

  const U32_LIMIT: nat := 0x1_0000_0000

  // ----- reading -----

  /** The bytes from i to `end` as one big-endian number. */
  function BigEndian(data: seq<Byte>, i: nat, end: nat): nat
    requires i <= end <= |data|
    decreases end - i
  {
    if i == end then 0 else BigEndian(data, i, end - 1) * 256 + data[end - 1]
  }

  lemma FourBytes(data: seq<Byte>, i: nat)
    requires i + 4 <= |data|
    ensures var a: nat, b: nat, c: nat, d: nat := data[i], data[i + 1], data[i + 2], data[i + 3];
            BigEndian(data, i, i + 4) == a * 0x100_0000 + b * 0x1_0000 + c * 0x100 + d < U32_LIMIT
  {
    var a: nat, b: nat, c: nat, d: nat := data[i], data[i + 1], data[i + 2], data[i + 3];
    assert BigEndian(data, i, i + 1) == a;
    assert BigEndian(data, i, i + 2) == a * 0x100 + b;
    assert BigEndian(data, i, i + 3) == a * 0x1_0000 + b * 0x100 + c;
  }

  function U32At(data: seq<Byte>, i: nat): (v: nat)
    requires i + 4 <= |data|
    ensures v < U32_LIMIT
  {
    FourBytes(data, i);
    BigEndian(data, i, i + 4)
  }

  /** The zero-terminated string at i; it ends at the end of the data at the latest. */
  function StringAt(data: seq<Byte>, i: nat): (s: seq<Byte>)
    ensures s != [] ==> i + |s| <= |data|
    decreases |data| - i
  {
    if i >= |data| || data[i] == 0 then [] else [data[i]] + StringAt(data, i + 1)
  }

  /** Number of bytes up to the next word. */
  function Padding(n: nat): (p: nat)
    ensures p < 4
  {
    if n >= 4 then Padding(n - 4) else if n == 0 then 0 else 4 - n
  }

  function Align4(n: nat): nat
  {
    n + Padding(n)
  }

  /** Adding three and clearing the two low bits. */
  lemma {:induction false} Align4Meaning(n: nat)
    ensures Align4(n) == (n + 3) / 4 * 4
    decreases n
  {
    if n >= 4 { Align4Meaning(n - 4); }
  }

  /** A whole number of words. */
  predicate Whole(n: nat)
  {
    n == 0 || (n >= 4 && Whole(n - 4))
  }

  lemma {:induction false} WholeMod(n: nat)
    ensures Whole(n) <==> n % 4 == 0
    decreases n
  {
    if n >= 4 { WholeMod(n - 4); }
  }

  lemma WholeSum(a: nat, b: nat)
    requires Whole(a) && Whole(b)
    ensures Whole(a + b)
  {
    WholeMod(a);
    WholeMod(b);
    WholeMod(a + b);
  }

  /** Padding goes where the next word starts. */
  lemma {:induction false} AlignUp(pos: nat, len: nat)
    requires Whole(pos)
    ensures Align4(pos + len) == pos + (len + Padding(len))
    decreases pos
  {
    if pos > 0 { AlignUp(pos - 4, len); }
  }

  lemma {:induction false} PaddedIsWhole(len: nat)
    ensures Whole(len + Padding(len))
    decreases len
  {
    if len >= 4 { PaddedIsWhole(len - 4); }
  }

  /** One or two big-endian words; other counts are not supported and read as zero. */
  function CellsAt(data: seq<Byte>, i: nat, cells: nat): nat
    requires cells == 1 ==> i + 4 <= |data|
    requires cells == 2 ==> i + 8 <= |data|
  {
    if cells == 1 then U32At(data, i)
    else if cells == 2 then U32At(data, i) * U32_LIMIT + U32At(data, i + 4)
    else 0
  }

  // ----- what lies where -----

  /** The bytes b lie in the data at i. */
  predicate At(data: seq<Byte>, i: nat, b: seq<Byte>)
  {
    i + |b| <= |data| && AtFrom(data, i, b, 0)
  }

  predicate AtFrom(data: seq<Byte>, i: nat, b: seq<Byte>, k: nat)
    requires i + |b| <= |data|
    decreases |b| - k
  {
    k >= |b| || (data[i + k] == b[k] && AtFrom(data, i, b, k + 1))
  }

  lemma {:induction false} AtIndexFrom(data: seq<Byte>, i: nat, b: seq<Byte>, j: nat, k: nat)
    requires i + |b| <= |data| && AtFrom(data, i, b, j) && j <= k < |b|
    ensures data[i + k] == b[k]
    decreases k - j
  {
    if j < k { AtIndexFrom(data, i, b, j + 1, k); }
  }

  lemma AtIndex(data: seq<Byte>, i: nat, b: seq<Byte>, k: nat)
    requires At(data, i, b) && k < |b|
    ensures data[i + k] == b[k]
  {
    AtIndexFrom(data, i, b, 0, k);
  }

  lemma {:induction false} AtAllFrom(data: seq<Byte>, i: nat, b: seq<Byte>, j: nat)
    requires i + |b| <= |data| && forall k: nat | k < |b| :: data[i + k] == b[k]
    ensures AtFrom(data, i, b, j)
    decreases |b| - j
  {
    if j < |b| { AtAllFrom(data, i, b, j + 1); }
  }

  /** Stated for all indices at once. */
  lemma AtEvery(data: seq<Byte>, i: nat, b: seq<Byte>)
    ensures At(data, i, b) <==> i + |b| <= |data| && forall k: nat | k < |b| :: data[i + k] == b[k]
  {
    if At(data, i, b) {
      forall k: nat | k < |b|
        ensures data[i + k] == b[k]
      {
        AtIndex(data, i, b, k);
      }
    }
    if i + |b| <= |data| && forall k: nat | k < |b| :: data[i + k] == b[k] { AtAllFrom(data, i, b, 0); }
  }

  lemma AtConcat(data: seq<Byte>, i: nat, a: seq<Byte>, b: seq<Byte>)
    ensures At(data, i, a + b) <==> At(data, i, a) && At(data, i + |a|, b)
  {
    AtEvery(data, i, a + b);
    AtEvery(data, i, a);
    AtEvery(data, i + |a|, b);
    if At(data, i, a + b) {
      assert forall k: nat | k < |a| :: a[k] == (a + b)[k];
      assert forall k: nat | k < |b| :: b[k] == (a + b)[|a| + k];
    }
  }

  /** Words of a value can be read where the value lies. */
  lemma AtU32(data: seq<Byte>, i: nat, b: seq<Byte>, o: nat)
    requires At(data, i, b) && o + 4 <= |b|
    ensures U32At(data, i + o) == U32At(b, o)
  {
    AtIndex(data, i, b, o);
    AtIndex(data, i, b, o + 1);
    AtIndex(data, i, b, o + 2);
    AtIndex(data, i, b, o + 3);
    FourBytes(data, i + o);
    FourBytes(b, o);
  }

  lemma AtCells(data: seq<Byte>, i: nat, b: seq<Byte>, o: nat, cells: nat)
    requires At(data, i, b)
    requires (cells == 1 ==> o + 4 <= |b|) && (cells == 2 ==> o + 8 <= |b|)
    ensures CellsAt(data, i + o, cells) == CellsAt(b, o, cells)
  {
    if cells == 1 || cells == 2 { AtU32(data, i, b, o); }
    if cells == 2 { AtU32(data, i, b, o + 4); }
  }

  /** A terminator inside the value ends a string where it ends in the data. */
  lemma {:induction false} AtString(data: seq<Byte>, i: nat, b: seq<Byte>, o: nat, z: nat)
    requires At(data, i, b) && o <= z < |b| && b[z] == 0
    ensures StringAt(data, i + o) == StringAt(b, o) && |StringAt(b, o)| <= z - o
    decreases z - o
  {
    AtIndex(data, i, b, o);
    if b[o] != 0 {
      AtString(data, i, b, o + 1, z);
      assert i + (o + 1) == i + o + 1;
    }
  }

  lemma {:induction false} NameFrom(data: seq<Byte>, i: nat, name: seq<Byte>, o: nat)
    requires At(data, i, name + [0]) && 0 !in name && o <= |name|
    ensures StringAt(data, i + o) == name[o..]
    decreases |name| - o
  {
    AtIndex(data, i, name + [0], o);
    if o < |name| {
      assert (name + [0])[o] == name[o] && name[o] in name;
      NameFrom(data, i, name, o + 1);
      assert name[o..] == [name[o]] + name[o + 1..];
      assert i + (o + 1) == i + o + 1;
    }
  }

  /** A terminated name without zero bytes is read as it is. */
  lemma NameAt(data: seq<Byte>, i: nat, name: seq<Byte>)
    requires At(data, i, name + [0]) && 0 !in name
    ensures StringAt(data, i) == name && data[i..i + |name|] == name
  {
    NameFrom(data, i, name, 0);
    AtConcat(data, i, name, [0]);
    AtEvery(data, i, name);
  }

  // ----- properties -----

  /** The properties that the walk looks at. */
  datatype Key =
    | Compatible | AddressCells | SizeCells | Reg | Interrupts | Ranges | Phandle | ClockCells | Clocks | OtherKey

  const COMPATIBLE: seq<Byte> := [99, 111, 109, 112, 97, 116, 105, 98, 108, 101]
  const ADDRESS_CELLS: seq<Byte> := [35, 97, 100, 100, 114, 101, 115, 115, 45, 99, 101, 108, 108, 115]
  const SIZE_CELLS: seq<Byte> := [35, 115, 105, 122, 101, 45, 99, 101, 108, 108, 115]
  const REG: seq<Byte> := [114, 101, 103]
  const INTERRUPTS: seq<Byte> := [105, 110, 116, 101, 114, 114, 117, 112, 116, 115]
  const RANGES: seq<Byte> := [114, 97, 110, 103, 101, 115]
  const PHANDLE: seq<Byte> := [112, 104, 97, 110, 100, 108, 101]
  const LINUX_PHANDLE: seq<Byte> := [108, 105, 110, 117, 120, 44, 112, 104, 97, 110, 100, 108, 101]
  const CLOCK_CELLS: seq<Byte> := [35, 99, 108, 111, 99, 107, 45, 99, 101, 108, 108, 115]
  const CLOCKS: seq<Byte> := [99, 108, 111, 99, 107, 115]

  /** The names that the walk knows. */
  type Keys = map<seq<Byte>, Key>

  const KEYS: Keys := map[
    COMPATIBLE := Compatible, ADDRESS_CELLS := AddressCells, SIZE_CELLS := SizeCells, REG := Reg,
    INTERRUPTS := Interrupts, RANGES := Ranges, PHANDLE := Phandle, LINUX_PHANDLE := Phandle,
    CLOCK_CELLS := ClockCells, CLOCKS := Clocks]

  function KeyOf(keys: Keys, name: seq<Byte>): Key
  {
    if name in keys then keys[name] else OtherKey
  }

  /** A list of strings. */
  datatype Texts = NoText | Text(first: seq<Byte>, rest: Texts)

  // ----- trees and their structure block -----

  /** A property names its kind; its spelling lies at `nameOff` in the strings block. */
  datatype Item = NopItem | Property(key: Key, nameOff: nat, value: seq<Byte>)

  datatype Items = NoItems | Items(first: Item, rest: Items)

  datatype Tree = Nop | Node(name: seq<Byte>, items: Items, kids: Forest)

  datatype Forest = NoKids | Kids(first: Tree, rest: Forest)

  function U32Be(v: nat): (b: seq<Byte>)
    requires v < U32_LIMIT
    ensures |b| == 4 && Whole(|b|)
  {
    [v / 256 / 256 / 256, v / 256 / 256 % 256, v / 256 % 256, v % 256]
  }

  lemma U32BeRead(v: nat)
    requires v < U32_LIMIT
    ensures U32At(U32Be(v), 0) == v
  {
    FourBytes(U32Be(v), 0);
    var q1 := v / 256;
    var q2 := q1 / 256;
    var q3 := q2 / 256;
    assert v == q1 * 256 + v % 256 && q1 == q2 * 256 + q1 % 256 && q2 == q3 * 256 + q2 % 256;
  }

  /** Concatenation, which keeps whole words whole. */
  function Cat(a: seq<Byte>, b: seq<Byte>): (c: seq<Byte>)
    requires Whole(|a|) && Whole(|b|)
    ensures |c| == |a| + |b| && Whole(|c|)
  {
    WholeSum(|a|, |b|);
    a + b
  }

  function Zeros(n: nat): (z: seq<Byte>)
    ensures |z| == n
  {
    seq(n, _ => 0)
  }

  const BEGIN_NODE: nat := 1
  const END_NODE: nat := 2
  const PROP: nat := 3
  const NOP: nat := 4
  const END: nat := 9

  /** Bytes filled up to a whole number of words. */
  function Padded(v: seq<Byte>): (b: seq<Byte>)
    ensures Whole(|b|) && |b| == |v| + Padding(|v|)
  {
    PaddedIsWhole(|v|);
    v + Zeros(Padding(|v|))
  }

  predicate Fits(item: Item)
  {
    item.Property? ==> |item.value| < U32_LIMIT && item.nameOff < U32_LIMIT
  }

  function PropBytes(item: Item): (b: seq<Byte>)
    requires Fits(item)
    ensures Whole(|b|) && |b| >= 4
  {
    match item
    case NopItem => U32Be(NOP)
    case Property(_, nameOff, value) =>
      Cat(U32Be(PROP), Cat(U32Be(|value|), Cat(U32Be(nameOff), Padded(value))))
  }

  predicate AllFit(items: Items)
  {
    items.Items? ==> Fits(items.first) && AllFit(items.rest)
  }

  function ItemBytes(items: Items): (b: seq<Byte>)
    requires AllFit(items)
    ensures Whole(|b|)
  {
    match items
    case NoItems => []
    case Items(first, rest) => Cat(PropBytes(first), ItemBytes(rest))
  }

  predicate TreeFits(t: Tree)
    decreases t
  {
    t.Node? ==> AllFit(t.items) && ForestFits(t.kids)
  }

  predicate ForestFits(f: Forest)
    decreases f
  {
    f.Kids? ==> TreeFits(f.first) && ForestFits(f.rest)
  }

  function NameBytes(name: seq<Byte>): (b: seq<Byte>)
    ensures Whole(|b|) && |b| == |name| + 1 + Padding(|name| + 1)
  {
    Padded(name + [0])
  }

  function NodeBytes(name: seq<Byte>, items: seq<Byte>, kids: seq<Byte>): (b: seq<Byte>)
    requires Whole(|items|) && Whole(|kids|)
    ensures Whole(|b|) && |b| == 8 + |NameBytes(name)| + |items| + |kids|
  {
    Cat(U32Be(BEGIN_NODE), Cat(NameBytes(name), Cat(items, Cat(kids, U32Be(END_NODE)))))
  }

  /** Section 5.4 of the Devicetree Specification. */
  function TreeBytes(t: Tree): (b: seq<Byte>)
    requires TreeFits(t)
    ensures Whole(|b|) && |b| >= 4
    decreases t
  {
    match t
    case Nop => U32Be(NOP)
    case Node(name, items, kids) =>
      NodeBytes(name, ItemBytes(items), ForestBytes(kids))
  }

  function ForestBytes(f: Forest): (b: seq<Byte>)
    requires ForestFits(f)
    ensures Whole(|b|)
    decreases f
  {
    match f
    case NoKids => []
    case Kids(first, rest) => Cat(TreeBytes(first), ForestBytes(rest))
  }

  predicate OnlyNops(f: Forest)
  {
    f.Kids? ==> f.first == Nop && OnlyNops(f.rest)
  }

  /** The root node, with any number of FDT_NOP tokens on either side. */
  predicate OneRoot(f: Forest, root: Tree)
  {
    f.Kids? && if f.first == Nop then OneRoot(f.rest, root) else f.first == root && OnlyNops(f.rest)
  }

  /** The structure block lies at `off`: the nodes, then FDT_END. */
  predicate BlockAt(data: seq<Byte>, off: nat, f: Forest)
    requires ForestFits(f)
  {
    Whole(off) && At(data, off, ForestBytes(f)) && At(data, off + |ForestBytes(f)|, U32Be(END))
  }
}
