/** The walk over a serialised tree reports exactly what the tree says. */
module FdtExact {
  import opened Options
  import opened FdtFormat
  import opened FdtSpec
  import opened FdtWalk
  import opened FdtDecoding

  /** Any way to give machines a result that steps do not change. */
  ghost predicate Law(data: seq<Byte>, env: Env, run: Machine -> Outcome)
  {
    forall m: Machine {:trigger Step(data, env, m)} | Sane(data, m) ::
      Step(data, env, m).More? ==> run(Step(data, env, m).m) == run(m)
  }

  // ----- properties of one node -----

  /** The fields of a serialised property. */
  lemma PropLayout(data: seq<Byte>, pos: nat, it: Item)
    requires it.Property? && Fits(it) && At(data, pos, PropBytes(it))
    ensures pos + 12 + |it.value| <= |data| && At(data, pos + 12, it.value)
    ensures U32At(data, pos) == PROP && U32At(data, pos + 4) == |it.value| && U32At(data, pos + 8) == it.nameOff
    ensures |PropBytes(it)| == 12 + (|it.value| + Padding(|it.value|))
  {
    var v := Padded(it.value);
    AtConcat(data, pos, U32Be(PROP), Cat(U32Be(|it.value|), Cat(U32Be(it.nameOff), v)));
    AtConcat(data, pos + 4, U32Be(|it.value|), Cat(U32Be(it.nameOff), v));
    AtConcat(data, pos + 8, U32Be(it.nameOff), v);
    AtConcat(data, pos + 12, it.value, Zeros(Padding(|it.value|)));
    TokenAt(data, pos, PROP);
    TokenAt(data, pos + 4, |it.value|);
    TokenAt(data, pos + 8, it.nameOff);
  }

  /** Behind the token. */
  lemma PropRead(data: seq<Byte>, env: Env, m: Machine, it: Item)
    requires Sane(data, m) && it.Property? && Named(data, env, it) && ItemOk(it)
    requires m.pos + 8 + |it.value| <= |data| && At(data, m.pos + 8, it.value)
    requires U32At(data, m.pos) == |it.value| && U32At(data, m.pos + 4) == it.nameOff
    ensures ReadProp(data, env, m) == More(TakeProp(data, m, it.key, m.pos + 8, |it.value|))
  {
    NoPropOverflow(data, it, m.pos + 8);
  }

  lemma PropToken(data: seq<Byte>, env: Env, run: Machine -> Outcome, m: Machine)
    requires Law(data, env, run) && Sane(data, m) && m.pos + 4 <= |data| && U32At(data, m.pos) == PROP
    requires ReadProp(data, env, m.(pos := m.pos + 4)).More?
    ensures run(ReadProp(data, env, m.(pos := m.pos + 4)).m) == run(m)
  {
    assert Step(data, env, m) == ReadProp(data, env, m.(pos := m.pos + 4));
  }

  lemma PropLaw(data: seq<Byte>, env: Env, run: Machine -> Outcome, m: Machine, it: Item)
    requires Law(data, env, run) && Sane(data, m)
    requires it.Property? && Named(data, env, it) && ItemOk(it)
    requires m.pos + 12 + |it.value| <= |data| && At(data, m.pos + 12, it.value)
    requires U32At(data, m.pos) == PROP && U32At(data, m.pos + 4) == |it.value| && U32At(data, m.pos + 8) == it.nameOff
    ensures Sane(data, TakeProp(data, m, it.key, m.pos + 12, |it.value|))
    ensures run(TakeProp(data, m, it.key, m.pos + 12, |it.value|)) == run(m)
  {
    var next := m.(pos := m.pos + 4);
    PropRead(data, env, next, it);
    PropToken(data, env, run, m);
    assert TakeProp(data, next, it.key, m.pos + 12, |it.value|) == TakeProp(data, m, it.key, m.pos + 12, |it.value|);
  }

  /** The whole property, token first. */
  lemma PropStep(data: seq<Byte>, env: Env, run: Machine -> Outcome, m: Machine, it: Item) returns (m': Machine)
    requires Law(data, env, run) && Sane(data, m) && Whole(m.pos)
    requires it.Property? && Fits(it) && Named(data, env, it) && ItemOk(it) && At(data, m.pos, PropBytes(it))
    ensures m.pos + 12 + |it.value| <= |data| && At(data, m.pos + 12, it.value)
    ensures m' == TakeProp(data, m, it.key, m.pos + 12, |it.value|) && m'.pos == m.pos + |PropBytes(it)|
    ensures Sane(data, m') && run(m') == run(m)
  {
    PropLayout(data, m.pos, it);
    PropLaw(data, env, run, m, it);
    WholeSum(m.pos, 12);
    AlignUp(m.pos + 12, |it.value|);
    m' := TakeProp(data, m, it.key, m.pos + 12, |it.value|);
  }

  /** Only the entry at `d` of the per-depth arrays may differ. */
  ghost predicate SameBut(m: Machine, m': Machine, d: nat)
  {
    && |m'.state| == |m.state| && |m'.cells| == |m.cells| && m'.names == m.names
    && m'.depth == m.depth && m'.calls == m.calls
    && (forall i: nat | i < |m.state| && i != d :: m'.state[i] == m.state[i])
    && (forall i: nat | i < |m.cells| && i != d :: m'.cells[i] == m.cells[i])
  }

  /** The node that is open in m has read the items in m'. */
  ghost predicate HasRead(data: seq<Byte>, m: Machine, items: Items, m': Machine)
  {
    0 < m.depth && SameBut(m, m', m.depth - 1) && OpenRead(data, m, items, m')
  }

  ghost predicate OpenRead(data: seq<Byte>, m: Machine, items: Items, m': Machine)
  {
    0 < m.depth <= |m.state| && m.depth <= |m.cells| && m.depth <= |m'.state| && m.depth <= |m'.cells| ==>
      var d := m.depth - 1;
      NodeRead(data, m.state[d], items, m'.state[d]) && BusRead(data, m.cells[d], items, m'.cells[d])
  }

  lemma ReadNone(data: seq<Byte>, m: Machine)
    requires m.depth > 0
    ensures HasRead(data, m, NoItems, m)
  {
  }

  /** m1 is m behind one item. */
  ghost predicate Took(data: seq<Byte>, m: Machine, it: Item, m1: Machine)
    requires Sane(data, m)
  {
    match it
    case NopItem => m1 == m.(pos := m1.pos)
    case Property(_, _, v) =>
      m.pos + 12 + |v| <= |data| && At(data, m.pos + 12, v) && m1 == TakeProp(data, m, it.key, m.pos + 12, |it.value|)
  }

  lemma ReadFirst(data: seq<Byte>, m: Machine, it: Item, m1: Machine, rest: Items, m': Machine)
    requires Sane(data, m) && m.depth > 0 && ItemOk(it) && Took(data, m, it, m1) && HasRead(data, m1, rest, m')
    ensures HasRead(data, m, Items(it, rest), m')
  {
    var d := m.depth - 1;
    if d < MAX_DEPTH {
      if it.Property? {
        NodeFirst(data, m.state[d], it, m.pos + 12, rest, m'.state[d]);
        BusFirst(data, m.cells[d], it, m.pos + 12, rest, m'.cells[d]);
      } else {
        NopFirst(data, m.state[d], m.cells[d], rest, m'.state[d], m'.cells[d]);
      }
    }
  }

  lemma NopStep(data: seq<Byte>, env: Env, run: Machine -> Outcome, m: Machine) returns (m': Machine)
    requires Law(data, env, run) && Sane(data, m) && At(data, m.pos, U32Be(NOP))
    ensures m' == m.(pos := m.pos + 4) && Sane(data, m') && run(m') == run(m)
  {
    TokenAt(data, m.pos, NOP);
    m' := m.(pos := m.pos + 4);
    assert Step(data, env, m) == More(m');
  }

  lemma ItemStep(data: seq<Byte>, env: Env, run: Machine -> Outcome, m: Machine, it: Item) returns (m1: Machine)
    requires Law(data, env, run) && Sane(data, m) && Whole(m.pos)
    requires Fits(it) && ItemOk(it) && Named(data, env, it) && At(data, m.pos, PropBytes(it))
    ensures Sane(data, m1) && run(m1) == run(m) && Took(data, m, it, m1) && m1.depth == m.depth
    ensures m1.pos == m.pos + |PropBytes(it)|
  {
    if it.Property? {
      m1 := PropStep(data, env, run, m, it);
    } else {
      m1 := NopStep(data, env, run, m);
    }
  }

  lemma ItemsSplit(data: seq<Byte>, pos: nat, it: Item, rest: Items)
    requires Fits(it) && AllFit(rest) && At(data, pos, ItemBytes(Items(it, rest)))
    ensures At(data, pos, PropBytes(it)) && At(data, pos + |PropBytes(it)|, ItemBytes(rest))
  {
    AtConcat(data, pos, PropBytes(it), ItemBytes(rest));
  }

  lemma FirstItem(data: seq<Byte>, env: Env, run: Machine -> Outcome, m: Machine, it: Item, rest: Items)
    returns (m1: Machine, q: nat)
    requires Law(data, env, run) && Sane(data, m) && Whole(m.pos)
    requires Fits(it) && ItemOk(it) && Named(data, env, it) && AllFit(rest)
    requires At(data, m.pos, ItemBytes(Items(it, rest)))
    ensures Sane(data, m1) && run(m1) == run(m) && Took(data, m, it, m1) && m1.depth == m.depth
    ensures m1.pos == q == m.pos + |PropBytes(it)| && Whole(q) && At(data, q, ItemBytes(rest))
  {
    q := m.pos + |PropBytes(it)|;
    ItemsSplit(data, m.pos, it, rest);
    WholeSum(m.pos, |PropBytes(it)|);
    m1 := ItemStep(data, env, run, m, it);
  }

  /** All items of a node. */
  lemma {:induction false} RunItems(data: seq<Byte>, env: Env, run: Machine -> Outcome, m: Machine, items: Items)
    returns (m': Machine)
    requires Law(data, env, run) && Sane(data, m) && m.depth > 0 && Whole(m.pos)
    requires AllFit(items) && ItemsOk(items) && AllNamed(data, env, items) && At(data, m.pos, ItemBytes(items))
    ensures Sane(data, m') && run(m') == run(m)
    ensures m'.pos == m.pos + |ItemBytes(items)| && HasRead(data, m, items, m')
    decreases items
  {
    match items
    case NoItems =>
      m' := m;
      ReadNone(data, m);
    case Items(it, rest) =>
      var m1, q := FirstItem(data, env, run, m, it, rest);
      assert m1.pos == q;
      m' := RunItems(data, env, run, m1, rest);
      ReadFirst(data, m, it, m1, rest, m');
  }
}
