/** Handle tables: arrays of slots, each empty or naming a kernel object. */
module HandleTable {
  import opened Options

  datatype Kind =
    | Empty
    | Table(kva: nat)
    | Thread(paddr: nat)
    | Endpoint(kva: nat, token: Option<nat>)
    | Notification(kva: nat)
    | Reply(kva: nat)
    | Process(kva: nat)
    | PageSet(kva: nat, mappedPage: nat)

  datatype Entry = Entry(rights: bv8, kind: Kind)

  const EMPTY: Entry := Entry(0, Kind.Empty)

  datatype HandleError = TableFull | InvalidHandle | InsufficientRights

  datatype Result<T> = Ok(value: T) | Err(error: HandleError)

  predicate HasRights(have: bv8, required: bv8)
  {
    required & !have == 0
  }

  /** Every right that is required is there, right by right. */
  predicate Contains(have: bv8, required: bv8)
  {
    && (required & 1 != 0 ==> have & 1 != 0) && (required & 2 != 0 ==> have & 2 != 0)
    && (required & 4 != 0 ==> have & 4 != 0) && (required & 8 != 0 ==> have & 8 != 0)
    && (required & 16 != 0 ==> have & 16 != 0) && (required & 32 != 0 ==> have & 32 != 0)
    && (required & 64 != 0 ==> have & 64 != 0) && (required & 128 != 0 ==> have & 128 != 0)
  }

  lemma HasRightsMeaning(have: bv8, required: bv8)
    ensures HasRights(have, required) <==> Contains(have, required)
  {
  }

  /** The first empty slot, or the length when there is none. */
  function FirstEmpty(s: seq<Entry>): (i: nat)
    ensures i <= |s| && (i < |s| ==> s[i].kind == Empty) && forall j: nat | j < i :: s[j].kind != Empty
  {
    if s == [] || s[0].kind == Empty then 0 else 1 + FirstEmpty(s[1..])
  }

  method FindEmpty(slots: array<Entry>) returns (r: Option<nat>)
    ensures r == if FirstEmpty(slots[..]) == slots.Length then None else Some(FirstEmpty(slots[..]))
  {
    for i := 0 to slots.Length
      invariant forall j: nat | j < i :: slots[j].kind != Empty
    {
      if slots[i].kind == Empty {
        assert i == FirstEmpty(slots[..]);
        return Some(i);
      }
    }
    r := None;
  }

  /** An occupied slot with all required rights, and no other. */
  method Lookup(slots: array<Entry>, index: nat, required: bv8) returns (r: Result<Entry>)
    ensures r == Looked(slots[..], index, required)
    ensures r.Ok? <==> index < slots.Length && slots[index].kind != Empty && Contains(slots[index].rights, required)
    ensures r.Ok? ==> r.value == slots[index]
    ensures r == Err(InvalidHandle) <==> index >= slots.Length || slots[index].kind == Empty
    ensures r != Err(TableFull)
  {
    if index >= slots.Length { return Err(InvalidHandle); }
    var e := slots[index];
    if e.kind == Empty { return Err(InvalidHandle); }
    HasRightsMeaning(e.rights, required);
    if !HasRights(e.rights, required) { return Err(InsufficientRights); }
    r := Ok(e);
  }

  function Looked(s: seq<Entry>, index: nat, required: bv8): Result<Entry>
  {
    if index >= |s| || s[index].kind == Empty then Err(InvalidHandle)
    else if !HasRights(s[index].rights, required) then Err(InsufficientRights)
    else Ok(s[index])
  }

  /** A PageSet handle starts out unmapped wherever it is copied to. */
  function Unmapped(kind: Kind): Kind
  {
    if kind.PageSet? then PageSet(kind.kva, 0) else kind
  }

  function Inserted(s: seq<Entry>, rights: bv8, kind: Kind): (Result<nat>, seq<Entry>)
  {
    if kind == Empty then (Err(InvalidHandle), s)
    else if FirstEmpty(s) == |s| then (Err(TableFull), s)
    else (Ok(FirstEmpty(s)), s[FirstEmpty(s) := Entry(rights, Unmapped(kind))])
  }

  /** The first empty slot gets the rights and the kind as given, but no mapping. */
  method Insert(slots: array<Entry>, rights: bv8, kind: Kind) returns (r: Result<nat>)
    modifies slots
    ensures (r, slots[..]) == Inserted(old(slots[..]), rights, kind)
    ensures r.Ok? ==> r.value < slots.Length && old(slots[r.value].kind) == Empty
    ensures r.Ok? ==> forall j: nat | j < r.value :: old(slots[j].kind) != Empty
    ensures r.Ok? ==> slots[r.value].rights == rights
    ensures r.Ok? ==> slots[r.value].kind == match kind { case PageSet(kva, _) => PageSet(kva, 0) case _ => kind }
    ensures forall j: nat | j < slots.Length && r != Ok(j) :: slots[j] == old(slots[j])
    ensures r == Err(InvalidHandle) <==> kind == Empty
    ensures r == Err(TableFull) <==> kind != Empty && forall j: nat | j < slots.Length :: old(slots[j].kind) != Empty
    ensures r != Err(InsufficientRights)
  {
    if kind == Empty { return Err(InvalidHandle); }
    var idx := FindEmpty(slots);
    if idx.None? { return Err(TableFull); }
    var k := if kind.PageSet? then PageSet(kind.kva, 0) else kind;
    slots[idx.value] := Entry(rights, k);
    r := Ok(idx.value);
  }

  function Removed(s: seq<Entry>, index: nat): (Result<Entry>, seq<Entry>)
  {
    if index >= |s| || s[index].kind == Empty then (Err(InvalidHandle), s)
    else (Ok(s[index]), s[index := EMPTY])
  }

  method Remove(slots: array<Entry>, index: nat) returns (r: Result<Entry>)
    modifies slots
    ensures (r, slots[..]) == Removed(old(slots[..]), index)
    ensures r.Ok? <==> index < slots.Length && old(slots[index].kind) != Empty
    ensures r.Ok? ==> r.value == old(slots[index]) && slots[index] == Entry(0, Kind.Empty)
    ensures forall j: nat | j < slots.Length && (r.Err? || j != index) :: slots[j] == old(slots[j])
    ensures r.Err? ==> r.error == InvalidHandle
  {
    if index >= slots.Length { return Err(InvalidHandle); }
    if slots[index].kind == Empty { return Err(InvalidHandle); }
    r := Ok(slots[index]);
    slots[index] := EMPTY;
  }

  function MappedPage(s: seq<Entry>, index: nat): Result<nat>
  {
    if index < |s| && s[index].kind.PageSet? then Ok(s[index].kind.mappedPage) else Err(InvalidHandle)
  }

  function WithMapping(s: seq<Entry>, index: nat, page: nat): (Result<()>, seq<Entry>)
  {
    if index < |s| && s[index].kind.PageSet? then
      (Ok(()), s[index := s[index].(kind := PageSet(s[index].kind.kva, page))])
    else (Err(InvalidHandle), s)
  }

  method SetMapped(slots: array<Entry>, index: nat, page: nat) returns (r: Result<()>)
    modifies slots
    ensures (r, slots[..]) == WithMapping(old(slots[..]), index, page)
    ensures r.Ok? <==> index < slots.Length && old(slots[index].kind).PageSet?
    ensures r.Ok? ==> slots[index].kind == PageSet(old(slots[index].kind.kva), page)
                      && slots[index].rights == old(slots[index].rights)
    ensures forall j: nat | j < slots.Length && (r.Err? || j != index) :: slots[j] == old(slots[j])
    ensures r.Err? ==> r.error == InvalidHandle
  {
    if index >= slots.Length { return Err(InvalidHandle); }
    if !slots[index].kind.PageSet? { return Err(InvalidHandle); }
    slots[index] := slots[index].(kind := slots[index].kind.(mappedPage := page));
    r := Ok(());
  }

  // ----- revocation -----

  /** What a revocation walk reports about one slot. */
  datatype Action = Action(hadMapping: bool, mappedPage: nat, kind: Kind)

  predicate Names(e: Entry, target: nat)
  {
    e.kind.PageSet? && e.kind.kva == target
  }

  function ActionFor(e: Entry): Action
    requires e.kind.PageSet?
  {
    Action(e.kind.mappedPage != 0, e.kind.mappedPage, e.kind)
  }

  /** The actions of the matching slots, in slot order. */
  function Actions(s: seq<Entry>, target: nat): seq<Action>
  {
    if s == [] then []
    else
      var n := |s| - 1;
      Actions(s[..n], target) + if Names(s[n], target) then [ActionFor(s[n])] else []
  }

  /** The slots that name the target, in order. */
  function Matching(s: seq<Entry>, target: nat): (m: seq<nat>)
    ensures forall a: nat, b: nat | a < b < |m| :: m[a] < m[b]
    ensures forall a: nat | a < |m| :: m[a] < |s| && Names(s[m[a]], target)
    ensures forall i: nat | i < |s| && Names(s[i], target) :: i in m
  {
    if s == [] then []
    else
      var n := |s| - 1;
      var m := Matching(s[..n], target);
      assert forall i: nat | i < n && Names(s[i], target) :: Names(s[..n][i], target);
      m + if Names(s[n], target) then [n] else []
  }

  /** Action a is about the a-th matching slot, and says what that slot holds. */
  lemma {:induction false} ActionsAre(s: seq<Entry>, target: nat)
    ensures |Actions(s, target)| == |Matching(s, target)|
    ensures forall a: nat | a < |Matching(s, target)| ::
              var e := s[Matching(s, target)[a]];
              && Names(e, target) && Actions(s, target)[a].kind == e.kind
              && Actions(s, target)[a].mappedPage == e.kind.mappedPage
              && (Actions(s, target)[a].hadMapping <==> e.kind.mappedPage != 0)
    decreases |s|
  {
    if s != [] {
      var n := |s| - 1;
      ActionsAre(s[..n], target);
    }
  }

  /** The table with exactly the matching slots emptied. */
  function Cleared(s: seq<Entry>, target: nat): (t: seq<Entry>)
    ensures |t| == |s|
    ensures forall i: nat | i < |s| :: t[i] == if Names(s[i], target) then EMPTY else s[i]
  {
    seq(|s|, i requires 0 <= i < |s| => if Names(s[i], target) then EMPTY else s[i])
  }

  /** The read-only pass; `seen` is what the callback was given. */
  method RevokeValidate(slots: array<Entry>, target: nat) returns (count: nat, seen: seq<Action>)
    ensures seen == Actions(slots[..], target) && count == |seen|
  {
    count, seen := 0, [];
    for i := 0 to slots.Length
      invariant seen == Actions(slots[..i], target) && count == |seen|
    {
      assert slots[..i + 1][..i] == slots[..i];
      var e := slots[i];
      if e.kind.PageSet? && e.kind.kva == target {
        seen := seen + [Action(e.kind.mappedPage != 0, e.kind.mappedPage, e.kind)];
        count := count + 1;
      }
    }
    assert slots[..] == slots[..slots.Length];
  }

  /** The writing pass: the same actions, and exactly the matching slots emptied. */
  method RevokeApply(slots: array<Entry>, target: nat) returns (count: nat, seen: seq<Action>)
    modifies slots
    ensures seen == Actions(old(slots[..]), target) && count == |seen|
    ensures slots[..] == Cleared(old(slots[..]), target)
  {
    ghost var before := slots[..];
    count, seen := 0, [];
    for i := 0 to slots.Length
      invariant seen == Actions(before[..i], target) && count == |seen|
      invariant slots[..i] == Cleared(before, target)[..i]
      invariant slots[i..] == before[i..]
    {
      assert before[..i + 1][..i] == before[..i];
      assert slots[i] == slots[i..][0] == before[i..][0] == before[i];
      assert slots[i + 1..] == before[i + 1..];
      var e := slots[i];
      if e.kind.PageSet? && e.kind.kva == target {
        seen := seen + [Action(e.kind.mappedPage != 0, e.kind.mappedPage, e.kind)];
        slots[i] := EMPTY;
        count := count + 1;
      }
    }
    assert before == before[..slots.Length];
  }
}
