/** The step-driven walker and the two-phase unmap. */
module PageTableUnmap {
  import opened Options
  import opened PageTable
  import opened PageTableRange

  /** What a walk asks for next, or how it ends. */
  datatype WalkResult = Continue(slot: nat) | Done(phys: nat) | Fault

  /** One step of the walk over the raw entry: the new level and what to do next. */
  function WalkStep(level: nat, va: nat, raw: nat): (nat, WalkResult)
  {
    if level == 0 then
      if !IsTable(raw) then (0, Fault) else (1, Continue(Slot(AddrField(raw), 1, va)))
    else if level == 1 then
      if IsBlock(raw) then (1, Done(AddrField(raw) + Rem(va, 0x4000_0000)))
      else if !IsTable(raw) then (1, Fault)
      else (2, Continue(Slot(AddrField(raw), 2, va)))
    else if level == 2 then
      if IsBlock(raw) then (2, Done(AddrField(raw) + Rem(va, 0x20_0000)))
      else if !IsTable(raw) then (2, Fault)
      else (3, Continue(Slot(AddrField(raw), 3, va)))
    else if level == 3 then
      if !IsValid(raw) then (3, Fault) else (3, Done(AddrField(raw) + Rem(va, 4096)))
    else (level, Fault)
  }

  class PageTableWalk {
    var level: nat
    const va: nat

    constructor (va: nat)
      ensures level == 0 && this.va == va
    {
      this.level := 0;
      this.va := va;
    }

    method Step(raw: nat) returns (r: WalkResult)
      modifies this
      ensures (level, r) == WalkStep(old(level), va, raw)
    {
      match level {
        case 0 =>
          if !IsTable(raw) { return Fault; }
          level := 1;
          r := Continue(AddrField(raw) + Idx(1, va) * 8);
        case 1 =>
          if IsBlock(raw) { return Done(AddrField(raw) + Rem(va, 0x4000_0000)); }
          if !IsTable(raw) { return Fault; }
          level := 2;
          r := Continue(AddrField(raw) + Idx(2, va) * 8);
        case 2 =>
          if IsBlock(raw) { return Done(AddrField(raw) + Rem(va, 0x20_0000)); }
          if !IsTable(raw) { return Fault; }
          level := 3;
          r := Continue(AddrField(raw) + Idx(3, va) * 8);
        case 3 =>
          if !IsValid(raw) { return Fault; }
          r := Done(AddrField(raw) + Rem(va, 4096));
        case _ =>
          r := Fault;
      }
    }
  }

  /** A step agrees with the reference walk from the same slot. */
  lemma WalkStepResolves(mem: Memory, slot: nat, level: nat, va: nat)
    requires level < 4
    ensures var (level', r) := WalkStep(level, va, Read(mem, slot));
            match r
            case Continue(next) => level' == level + 1 < 4
                                   && ResolveAt(mem, slot, level, va) == ResolveAt(mem, next, level', va)
            case Done(phys) => level' == level && ResolveAt(mem, slot, level, va) == Mapped(level, phys)
            case Fault => ResolveAt(mem, slot, level, va) == Unmapped
  {
  }

  /** The slot that a walk at this level is about to read is the one of its table there. */
  ghost predicate AtSlot(mem: Memory, root: nat, level: nat, va: nat, slot: nat)
    requires level < 4
  {
    var t := TableAt(mem, root, 0, level, va);
    t.Some? && slot == Slot(t.value, level, va)
  }

  lemma WalkStepTable(mem: Memory, root: nat, level: nat, va: nat, slot: nat)
    requires level < 4 && AtSlot(mem, root, level, va, slot)
    ensures var (level', r) := WalkStep(level, va, Read(mem, slot));
            r.Continue? ==> level' < 4 && AtSlot(mem, root, level', va, r.slot)
  {
  }

  /** Walk one page to its end. Returns where it ended and the last slot it read. */
  method WalkPage(mem: Memory, root: nat, va: nat) returns (leaf: Leaf, last: nat)
    ensures leaf == Resolve(mem, root, 0, va)
    ensures leaf.Mapped? && leaf.depth == 3 ==>
              TableAt(mem, root, 0, 3, va).Some? && last == LeafSlot(mem, root, 0, va)
  {
    var walk := new PageTableWalk(va);
    var slot: nat := root + Idx(0, va) * 8;
    while true
      invariant walk.va == va && walk.level < 4 && fresh(walk)
      invariant AtSlot(mem, root, walk.level, va, slot)
      invariant Resolve(mem, root, 0, va) == ResolveAt(mem, slot, walk.level, va)
      decreases 4 - walk.level
    {
      WalkStepResolves(mem, slot, walk.level, va);
      WalkStepTable(mem, root, walk.level, va, slot);
      var next := walk.Step(Read(mem, slot));
      if next.Done? { return Mapped(walk.level, next.phys), slot; }
      if next.Fault? { return Unmapped, slot; }
      slot := next.slot;
    }
  }

  // ----- validate -----

  datatype MatchResult = AllMatch | MismatchAt(index: nat)

  /** The page resolves at the last level to exactly this physical page. */
  predicate Matches(mem: Memory, root: nat, va: nat, page: nat)
  {
    var leaf := Resolve(mem, root, 0, va);
    leaf.Mapped? && leaf.depth == 3 && leaf.phys / 4096 * 4096 == page
  }

  method ValidateMatch(mem: Memory, root: nat, va: nat, expected: seq<nat>) returns (r: MatchResult)
    ensures r.AllMatch? <==> forall i: nat | i < |expected| :: Matches(mem, root, Page(va, i), expected[i])
    ensures r.MismatchAt? ==> r.index < |expected| && !Matches(mem, root, Page(va, r.index), expected[r.index])
    ensures r.MismatchAt? ==> forall i: nat | i < r.index :: Matches(mem, root, Page(va, i), expected[i])
  {
    for n := 0 to |expected|
      invariant forall i: nat | i < n :: Matches(mem, root, Page(va, i), expected[i])
    {
      var leaf, _ := WalkPage(mem, root, Page(va, n));
      if leaf.Unmapped? || leaf.depth != 3 || leaf.phys / 4096 * 4096 != expected[n] {
        return MismatchAt(n);
      }
    }
    r := AllMatch;
  }

  // ----- clear -----

  class PhysMemory {
    var words: Memory

    method Write(a: nat, v: nat)
      modifies this
      ensures words == old(words)[a := v]
    {
      words := words[a := v];
    }
  }

  /** Every page of the range resolves at the last level. */
  ghost predicate AllLeaves(mem: Memory, root: nat, va: nat, n: nat)
  {
    forall i: nat | i < n :: Resolve(mem, root, 0, Page(va, i)).Mapped?
                             && Resolve(mem, root, 0, Page(va, i)).depth == 3
  }

  lemma LeavesHaveTables(mem: Memory, root: nat, va: nat, n: nat)
    requires AllLeaves(mem, root, va, n)
    ensures HasLeafTables(mem, root, 0, va, n)
  {
    forall i: nat | i < n
      ensures TableAt(mem, root, 0, 3, Page(va, i)).Some?
    {
      ResolvedThroughTables(mem, root, 0, 0, Page(va, i));
    }
  }

  function Zeros(n: nat): (z: seq<nat>)
    ensures |z| == n && forall i | 0 <= i < n :: z[i] == 0
  {
    if n == 0 then [] else Zeros(n - 1) + [0]
  }

  /** Clearing the first n pages leaves page n as it was. */
  lemma NextPageStillMapped(mem: Memory, root: nat, va: nat, n: nat, count: nat)
    requires Tree(mem, root, 0) && AllLeaves(mem, root, va, count) && n < count <= PagesBelow(0)
    ensures HasLeafTables(mem, root, 0, va, n)
    ensures var now := WriteLeaves(mem, root, 0, va, Zeros(n));
            && Resolve(now, root, 0, Page(va, n)) == Resolve(mem, root, 0, Page(va, n))
            && TableAt(now, root, 0, 3, Page(va, n)) == TableAt(mem, root, 0, 3, Page(va, n))
  {
    LeavesHaveTables(mem, root, va, n);
    forall i: nat | i < n
      ensures !InPage(0, va, i, Page(va, n))
    {
      PagesApart(0, va, i, n);
    }
    ResolvesAsBefore(mem, root, 0, va, Zeros(n), Page(va, n));
    TablesStay(mem, root, 0, va, Zeros(n), 3, Page(va, n));
  }

  /** Clear the last-level entries of a validated range; false is one of the source's panics. */
  method ClearValidated(m: PhysMemory, root: nat, va: nat, count: nat) returns (ok: bool)
    requires Tree(m.words, root, 0) && AllLeaves(m.words, root, va, count) && count <= PagesBelow(0)
    modifies m
    ensures ok
    ensures HasLeafTables(old(m.words), root, 0, va, count)
    ensures m.words == WriteLeaves(old(m.words), root, 0, va, Zeros(count))
  {
    ghost var mem := m.words;
    LeavesHaveTables(mem, root, va, count);
    for n := 0 to count
      invariant m.words == WriteLeaves(mem, root, 0, va, Zeros(n))
    {
      NextPageStillMapped(mem, root, va, n, count);
      var leaf, slot := WalkPage(m.words, root, Page(va, n));
      if leaf.Unmapped? || leaf.depth != 3 { return false; }
      assert Zeros(n + 1)[..n] == Zeros(n);
      m.Write(slot, 0);
    }
    ok := true;
  }

  /** What clearing a validated range does to every translation. */
  lemma ClearedTranslations(mem: Memory, root: nat, va: nat, count: nat, vb: nat)
    requires Tree(mem, root, 0) && AllLeaves(mem, root, va, count) && count <= PagesBelow(0)
    ensures HasLeafTables(mem, root, 0, va, count)
    ensures var now := WriteLeaves(mem, root, 0, va, Zeros(count));
            && (Resolve(now, root, 0, vb) == if exists i: nat :: i < count && InPage(0, va, i, vb) then Unmapped
                                             else Resolve(mem, root, 0, vb))
            && Tree(now, root, 0)
  {
    LeavesHaveTables(mem, root, va, count);
    TablesStay(mem, root, 0, va, Zeros(count), 0, vb);
    if i: nat :| i < count && InPage(0, va, i, vb) {
      ResolvesTo(mem, root, 0, va, Zeros(count), i, vb);
    } else {
      ResolvesAsBefore(mem, root, 0, va, Zeros(count), vb);
    }
  }

  /** Validate, then clear. */
  method UnmapValidated(m: PhysMemory, root: nat, va: nat, expected: seq<nat>) returns (r: MatchResult)
    requires Tree(m.words, root, 0) && |expected| <= PagesBelow(0)
    modifies m
    ensures r.AllMatch? <==> forall i: nat | i < |expected| :: Matches(old(m.words), root, Page(va, i), expected[i])
    ensures r.MismatchAt? ==> m.words == old(m.words)
                              && r.index < |expected|
                              && !Matches(m.words, root, Page(va, r.index), expected[r.index])
                              && forall i: nat | i < r.index :: Matches(m.words, root, Page(va, i), expected[i])
    ensures r.AllMatch? ==> AllLeaves(old(m.words), root, va, |expected|)
                            && HasLeafTables(old(m.words), root, 0, va, |expected|)
                            && m.words == WriteLeaves(old(m.words), root, 0, va, Zeros(|expected|))
  {
    r := ValidateMatch(m.words, root, va, expected);
    if r.MismatchAt? { return; }
    forall i: nat | i < |expected|
      ensures Resolve(m.words, root, 0, Page(va, i)).Mapped? && Resolve(m.words, root, 0, Page(va, i)).depth == 3
    {
      assert Matches(m.words, root, Page(va, i), expected[i]);
    }
    var ok := ClearValidated(m, root, va, |expected|);
  }
}
