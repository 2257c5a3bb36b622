/** The memory image of a whole program that was loaded by a plan. */
module ElfImage {
  import opened Options
  import opened ElfPlan

  /** A plan for all segments of a program. */
  ghost predicate PlanOf(segs: seq<Segment>, plan: seq<LoadEntry>, elfLen: nat)
  {
    (forall i: nat | i < |segs| :: Accepted(segs[i], elfLen)) && PlanFor(segs, |segs|, plan, elfLen)
  }

  // ----- which entry stands for which page -----

  /** Page p of segment i is entry PagesBefore(i) + p. */
  lemma EntryFor(segs: seq<Segment>, plan: seq<LoadEntry>, elfLen: nat, i: nat, p: nat)
    requires PlanOf(segs, plan, elfLen) && i < |segs| && p < PageCount(segs[i])
    ensures PagesBefore(segs, i) + p < PagesBefore(segs, i + 1) <= |plan|
    ensures Stands(segs[i], p, plan[PagesBefore(segs, i) + p], elfLen)
  {
    PartOfPlan(segs, |segs|, plan, elfLen, i);
    var part := plan[PagesBefore(segs, i)..PagesBefore(segs, i + 1)];
    assert part[p] == plan[PagesBefore(segs, i) + p];
  }

  /** Every entry is a page of some segment. */
  lemma {:induction false} OwnerOf(segs: seq<Segment>, n: nat, k: nat) returns (i: nat, p: nat)
    requires n <= |segs| && k < PagesBefore(segs, n)
    ensures i < n && p < PageCount(segs[i]) && k == PagesBefore(segs, i) + p
  {
    if k >= PagesBefore(segs, n - 1) {
      i, p := n - 1, k - PagesBefore(segs, n - 1);
    } else {
      i, p := OwnerOf(segs, n - 1, k);
    }
  }

  lemma Owner(segs: seq<Segment>, plan: seq<LoadEntry>, elfLen: nat, k: nat) returns (i: nat, p: nat)
    requires PlanOf(segs, plan, elfLen) && k < |plan|
    ensures i < |segs| && p < PageCount(segs[i]) && k == PagesBefore(segs, i) + p
    ensures Stands(segs[i], p, plan[k], elfLen)
  {
    PlanLength(segs, |segs|, plan, elfLen);
    i, p := OwnerOf(segs, |segs|, k);
    EntryFor(segs, plan, elfLen, i, p);
  }

  /** The entry for the page of an address that a segment touches. */
  lemma EntryAt(segs: seq<Segment>, plan: seq<LoadEntry>, elfLen: nat, i: nat, page: nat) returns (k: nat)
    requires PlanOf(segs, plan, elfLen) && i < |segs| && Touches(segs[i], page)
    ensures PagesBefore(segs, i) <= k < PagesBefore(segs, i + 1) <= |plan|
    ensures Stands(segs[i], k - PagesBefore(segs, i), plan[k], elfLen) && plan[k].pageVa == page * 4096
  {
    PagesTouched(segs[i], page);
    var p := page - segs[i].vaddr / 4096;
    EntryFor(segs, plan, elfLen, i, p);
    k := PagesBefore(segs, i) + p;
  }

  lemma OwnerTouches(s: Segment, p: nat, e: LoadEntry, elfLen: nat)
    requires Stands(s, p, e, elfLen) && p < PageCount(s)
    ensures Touches(s, PageOf(e.pageVa)) && e.pageVa == PageOf(e.pageVa) * 4096
  {
    PagesTouched(s, PageOf(e.pageVa));
  }

  // ----- one segment -----

  /** Every address on every page of every segment: the plan has an entry that puts the right byte there. */
  lemma SegmentImage(segs: seq<Segment>, plan: seq<LoadEntry>, elf: seq<bv8>, i: nat, va: nat) returns (k: nat)
    requires PlanOf(segs, plan, |elf|) && i < |segs| && Touches(segs[i], PageOf(va))
    ensures k < |plan| && plan[k].pageVa == PageOf(va) * 4096 && plan[k].executable == segs[i].executable
    ensures EntryOk(plan[k], elf) && Loaded(plan[k], elf)[va % 4096] == FileByte(segs[i], elf, va)
  {
    k := EntryAt(segs, plan, |elf|, i, PageOf(va));
    LoadedImage(segs[i], k - PagesBefore(segs, i), plan[k], elf, va % 4096);
  }

  // ----- the whole program -----

  /** No page is touched by two segments. */
  ghost predicate PagesApart(segs: seq<Segment>)
  {
    forall i: nat, j: nat, page: nat | i < j < |segs| && Touches(segs[i], page) :: !Touches(segs[j], page)
  }

  ghost predicate NamesOnce(plan: seq<LoadEntry>)
  {
    forall k: nat, l: nat | k < l < |plan| :: plan[k].pageVa != plan[l].pageVa
  }

  /** The plan names no page twice exactly when no page is touched by two segments. */
  lemma NamesOnceExactly(segs: seq<Segment>, plan: seq<LoadEntry>, elfLen: nat)
    requires PlanOf(segs, plan, elfLen)
    ensures NamesOnce(plan) <==> PagesApart(segs)
  {
    if NamesOnce(plan) {
      forall i: nat, j: nat, page: nat | i < j < |segs| && Touches(segs[i], page)
        ensures !Touches(segs[j], page)
      {
        if Touches(segs[j], page) { SharedIsNamedTwice(segs, plan, elfLen, i, j, page); }
      }
    }
    if PagesApart(segs) {
      forall k: nat, l: nat | k < l < |plan|
        ensures plan[k].pageVa != plan[l].pageVa
      {
        if plan[k].pageVa == plan[l].pageVa { NamedTwiceIsShared(segs, plan, elfLen, k, l); }
      }
    }
  }

  lemma SharedIsNamedTwice(segs: seq<Segment>, plan: seq<LoadEntry>, elfLen: nat, i: nat, j: nat, page: nat)
    requires PlanOf(segs, plan, elfLen) && i < j < |segs| && Touches(segs[i], page) && Touches(segs[j], page)
    ensures !NamesOnce(plan)
  {
    var k := EntryAt(segs, plan, elfLen, i, page);
    var l := EntryAt(segs, plan, elfLen, j, page);
    PagesMonotone(segs, i + 1, j);
    assert k < l && plan[k].pageVa == plan[l].pageVa;
  }

  lemma NamedTwiceIsShared(segs: seq<Segment>, plan: seq<LoadEntry>, elfLen: nat, k: nat, l: nat)
    requires PlanOf(segs, plan, elfLen) && k < l < |plan| && plan[k].pageVa == plan[l].pageVa
    ensures !PagesApart(segs)
  {
    var i, p := Owner(segs, plan, elfLen, k);
    var j, q := Owner(segs, plan, elfLen, l);
    OwnerTouches(segs[i], p, plan[k], elfLen);
    OwnerTouches(segs[j], q, plan[l], elfLen);
    if j < i { PagesMonotone(segs, j + 1, i); }
    assert i != j;
  }

  predicate EntryOk(e: LoadEntry, elf: seq<bv8>)
  {
    e.srcStart <= e.srcEnd <= |elf| && e.inPage + (e.srcEnd - e.srcStart) <= 4096
  }

  predicate AllOk(plan: seq<LoadEntry>, elf: seq<bv8>)
  {
    forall k: nat | k < |plan| :: EntryOk(plan[k], elf)
  }

  /** Memory after the entries were applied in order, each on a page of its own: the byte at va, if its page exists. */
  function ByteAt(plan: seq<LoadEntry>, elf: seq<bv8>, va: nat): Option<bv8>
    requires AllOk(plan, elf)
  {
    if plan == [] then None
    else
      var n := |plan| - 1;
      if plan[n].pageVa == PageOf(va) * 4096 then Some(Loaded(plan[n], elf)[va % 4096]) else ByteAt(plan[..n], elf, va)
  }

  lemma {:induction false} ByteOfEntry(plan: seq<LoadEntry>, elf: seq<bv8>, k: nat, va: nat)
    requires AllOk(plan, elf) && NamesOnce(plan) && k < |plan| && plan[k].pageVa == PageOf(va) * 4096
    ensures ByteAt(plan, elf, va) == Some(Loaded(plan[k], elf)[va % 4096])
    decreases |plan|
  {
    var n := |plan| - 1;
    if k < n { ByteOfEntry(plan[..n], elf, k, va); }
  }

  lemma {:induction false} NoEntry(plan: seq<LoadEntry>, elf: seq<bv8>, va: nat)
    requires AllOk(plan, elf) && forall k: nat | k < |plan| :: plan[k].pageVa != PageOf(va) * 4096
    ensures ByteAt(plan, elf, va) == None
    decreases |plan|
  {
    if plan != [] { NoEntry(plan[..|plan| - 1], elf, va); }
  }

  lemma PlanIsOk(segs: seq<Segment>, plan: seq<LoadEntry>, elf: seq<bv8>)
    requires PlanOf(segs, plan, |elf|)
    ensures AllOk(plan, elf)
  {
    forall k: nat | k < |plan|
      ensures EntryOk(plan[k], elf)
    {
      var i, p := Owner(segs, plan, |elf|, k);
    }
  }

  /** The image of a program whose segments share no page: every byte of every touched page, and nothing else. */
  lemma ProgramImage(segs: seq<Segment>, plan: seq<LoadEntry>, elf: seq<bv8>, va: nat)
    requires PlanOf(segs, plan, |elf|) && PagesApart(segs)
    ensures AllOk(plan, elf)
    ensures forall i: nat | i < |segs| && Touches(segs[i], PageOf(va)) ::
              ByteAt(plan, elf, va) == Some(FileByte(segs[i], elf, va))
    ensures ByteAt(plan, elf, va).Some? <==> exists i: nat :: i < |segs| && Touches(segs[i], PageOf(va))
  {
    PlanIsOk(segs, plan, elf);
    NamesOnceExactly(segs, plan, |elf|);
    forall i: nat | i < |segs| && Touches(segs[i], PageOf(va))
      ensures ByteAt(plan, elf, va) == Some(FileByte(segs[i], elf, va))
    {
      var k := SegmentImage(segs, plan, elf, i, va);
      ByteOfEntry(plan, elf, k, va);
    }
    if forall i: nat | i < |segs| :: !Touches(segs[i], PageOf(va)) {
      forall k: nat | k < |plan|
        ensures plan[k].pageVa != PageOf(va) * 4096
      {
        var i, p := Owner(segs, plan, |elf|, k);
        OwnerTouches(segs[i], p, plan[k], |elf|);
      }
      NoEntry(plan, elf, va);
    }
  }

  /** Memory holds exactly the pages of the program, byte for byte. */
  ghost predicate IsImage(segs: seq<Segment>, plan: seq<LoadEntry>, elf: seq<bv8>)
    requires AllOk(plan, elf) && forall i: nat | i < |segs| :: Accepted(segs[i], |elf|)
  {
    forall va: nat ::
      && (forall i: nat | i < |segs| && Touches(segs[i], PageOf(va)) ::
            ByteAt(plan, elf, va) == Some(FileByte(segs[i], elf, va)))
      && (ByteAt(plan, elf, va).Some? <==> exists i: nat :: i < |segs| && Touches(segs[i], PageOf(va)))
  }

  /** From the segments to the image in one call. */
  method PlanProgram(segs: seq<Segment>, elf: seq<bv8>, out: array<LoadEntry>) returns (r: PlanResult)
    requires |elf| < U64_LIMIT && forall i: nat | i < |segs| :: Wide(segs[i])
    modifies out
    ensures r.Planned? <==> (forall i: nat | i < |segs| :: Accepted(segs[i], |elf|))
                            && PagesBefore(segs, |segs|) <= out.Length
    ensures r.Planned? ==> r.count <= out.Length && AllOk(out[..r.count], elf)
    ensures r.Planned? ==> (NamesOnce(out[..r.count]) <==> PagesApart(segs))
    ensures r.Planned? && PagesApart(segs) ==> IsImage(segs, out[..r.count], elf)
  {
    r := Plan(segs, |elf|, out);
    if r.Planned? { WholeImage(segs, out[..r.count], elf); }
  }

  lemma WholeImage(segs: seq<Segment>, plan: seq<LoadEntry>, elf: seq<bv8>)
    requires PlanOf(segs, plan, |elf|)
    ensures AllOk(plan, elf) && (NamesOnce(plan) <==> PagesApart(segs))
    ensures PagesApart(segs) ==> IsImage(segs, plan, elf)
  {
    PlanIsOk(segs, plan, elf);
    NamesOnceExactly(segs, plan, |elf|);
    if PagesApart(segs) {
      forall va: nat
        ensures forall i: nat | i < |segs| && Touches(segs[i], PageOf(va)) ::
                  ByteAt(plan, elf, va) == Some(FileByte(segs[i], elf, va))
        ensures ByteAt(plan, elf, va).Some? <==> exists i: nat :: i < |segs| && Touches(segs[i], PageOf(va))
      {
        ProgramImage(segs, plan, elf, va);
      }
    }
  }
}
