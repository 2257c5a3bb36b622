/** Handle system calls and PageSet lifetimes as one state machine. */
module PageSetLedger {
  import opened Options
  import opened HandleTable
  import opened PageSetCounters
  import opened SlotCounts

  type Headers = map<nat, Counters>

  /** All handle tables, and the counters of every registered PageSet. */
  datatype State = State(tables: Tables, headers: Headers)

  // ----- counter updates; Panic is one of the source's assertions -----

  datatype Update = Panic | Update(headers: Headers, freed: seq<nat>)

  function AddRef(h: Headers, k: nat): Update
  {
    if k !in h || h[k].refs >= U32_MAX then Panic else Update(h[k := IncRef(h[k])], [])
  }

  function AddMap(h: Headers, k: nat): Update
  {
    if k !in h || h[k].maps >= U32_MAX then Panic else Update(h[k := IncMap(h[k])], [])
  }

  /** A header whose counters are both zero is freed. */
  function Settle(h: Headers, k: nat, c: Counters): Update
  {
    if c == UNUSED then Update(h - {k}, [k]) else Update(h[k := c], [])
  }

  function DropRef(h: Headers, k: nat): Update
  {
    if k !in h || h[k].refs == 0 then Panic else Settle(h, k, DecRef(h[k]))
  }

  function DropMap(h: Headers, k: nat): Update
  {
    if k !in h || h[k].maps == 0 then Panic else Settle(h, k, DecMap(h[k]))
  }

  function DropBoth(h: Headers, k: nat): Update
  {
    if k !in h || h[k].maps == 0 then Panic else DropRef(h[k := DecMap(h[k])], k)
  }

  // ----- closing -----

  datatype CloseResult =
    | RemoveOnly
    | RemoveAndDecRef(kva: nat)
    | UnmapThenRemove(kva: nat, mappedPage: nat)
    | NothingToClose

  function DecideClose(entry: Option<Entry>): CloseResult
  {
    match entry
    case None => NothingToClose
    case Some(e) =>
      match e.kind
      case Empty => NothingToClose
      case PageSet(kva, page) => if page != 0 then UnmapThenRemove(kva, page) else RemoveAndDecRef(kva)
      case _ => RemoveOnly
  }

  /** The counter updates for letting go of one entry. */
  function Release(h: Headers, e: Entry): Update
  {
    match DecideClose(Some(e))
    case RemoveOnly => Update(h, [])
    case RemoveAndDecRef(k) => DropRef(h, k)
    case UnmapThenRemove(k, _) => DropBoth(h, k)
    case NothingToClose => Update(h, [])
  }

  /** A process exits: its entries are released in slot order. */
  function ReleaseAll(h: Headers, s: seq<Entry>): Update
    decreases |s|
  {
    if s == [] then Update(h, [])
    else match Release(h, s[0])
         case Panic => Panic
         case Update(h', f) =>
           match ReleaseAll(h', s[1..])
           case Panic => Panic
           case Update(h'', g) => Update(h'', f + g)
  }

  /** An update after others that freed f. */
  function Then(f: seq<nat>, u: Update): Update
  {
    match u
    case Panic => Panic
    case Update(h, g) => Update(h, f + g)
  }

  lemma ReleaseFirst(h: Headers, s: seq<Entry>)
    requires s != [] && ReleaseAll(h, s).Update?
    ensures Release(h, s[0]).Update? && ReleaseAll(Release(h, s[0]).headers, s[1..]).Update?
    ensures ReleaseAll(h, s) == Then(Release(h, s[0]).freed, ReleaseAll(Release(h, s[0]).headers, s[1..]))
  {
  }

  lemma ThenTwice(f: seq<nat>, g: seq<nat>, u: Update)
    ensures Then(f, Then(g, u)) == Then(f + g, u)
  {
    if u.Update? { assert f + (g + u.freed) == f + g + u.freed; }
  }

  /** The decrements of a revocation, action by action; their free-now results are ignored. */
  function Revoked(c: Counters, actions: seq<Action>): Option<Counters>
    decreases |actions|
  {
    if actions == [] then Some(c)
    else
      var a := actions[0];
      if (a.hadMapping && c.maps == 0) || c.refs == 0 then None
      else Revoked(DecRef(if a.hadMapping then DecMap(c) else c), actions[1..])
  }

  // ----- system calls -----

  datatype Op =
    | Register(k: nat)                                            // a PageSet without a handle, at boot
    | Create(t: nat, k: nat, rights: bv8)                         // a PageSet with its first handle
    | Grant(t: nat, k: nat, rights: bv8)                          // a handle to a registered PageSet
    | Copy(t: nat, i: nat, required: bv8, u: nat)                 // a handle from table t into table u, rights kept
    | InsertOther(t: nat, rights: bv8, kind: Kind)                // a handle to another kind of object
    | Map(t: nat, i: nat, required: bv8, page: nat)
    // `cleared`: whether the page tables held the expected entries, so that they could be cleared
    | Unmap(t: nat, i: nat, required: bv8, page: nat, cleared: bool)
    | Close(t: nat, i: nat, cleared: bool)
    | Exit(t: nat)
    | Revoke(k: nat, cleared: bool)

  datatype Outcome = Fault | Next(state: State, freed: seq<nat>)

  function After(ts: Tables, u: Update): Outcome
  {
    match u
    case Panic => Fault
    case Update(h, f) => Next(State(ts, h), f)
  }

  /** Insert a handle to a PageSet into table t and count it. */
  function AddHandle(s: State, t: nat, kind: Kind, rights: bv8): Outcome
    requires t < |s.tables| && kind.PageSet?
  {
    var (r, slots) := Inserted(s.tables[t], rights, kind);
    if r.Err? then Next(s, []) else After(s.tables[t := slots], AddRef(s.headers, kind.kva))
  }

  function MapSlot(s: State, t: nat, i: nat, page: nat): Outcome
    requires t < |s.tables| && MappedPage(s.tables[t], i).Ok?
  {
    After(s.tables[t := WithMapping(s.tables[t], i, page).1], AddMap(s.headers, s.tables[t][i].kind.kva))
  }

  function UnmapSlot(s: State, t: nat, i: nat): Outcome
    requires t < |s.tables| && MappedPage(s.tables[t], i).Ok?
  {
    After(s.tables[t := WithMapping(s.tables[t], i, 0).1], DropMap(s.headers, s.tables[t][i].kind.kva))
  }

  function CloseSlot(s: State, t: nat, i: nat): Outcome
    requires t < |s.tables| && Removed(s.tables[t], i).0.Ok?
  {
    After(s.tables[t := Removed(s.tables[t], i).1], Release(s.headers, s.tables[t][i]))
  }

  function RevokeSlots(s: State, k: nat): Outcome
    requires k in s.headers
  {
    var actions := AllActions(s.tables, k);
    // the validate pass must reconcile with the counters, or nothing happens
    if Counters(|actions|, Mappings(actions)) != s.headers[k] then Next(s, [])
    else
      match Revoked(s.headers[k], actions)
      case None => Fault
      case Some(_) => Next(State(AllCleared(s.tables, k), s.headers - {k}), [])
  }

  /** One system call; a refused call leaves the state alone. */
  function Do(s: State, op: Op): Outcome
  {
    match op
    case Register(k) => if k in s.headers then Next(s, []) else Next(s.(headers := s.headers[k := UNUSED]), [])
    case Create(t, k, rights) =>
      if t >= |s.tables| || k in s.headers then Next(s, [])
      else if Inserted(s.tables[t], rights, PageSet(k, 0)).0.Err? then Next(s, [k])
      else AddHandle(s.(headers := s.headers[k := UNUSED]), t, PageSet(k, 0), rights)
    case Grant(t, k, rights) =>
      if t >= |s.tables| || k !in s.headers then Next(s, [])
      else AddHandle(s, t, PageSet(k, 0), rights)
    case Copy(t, i, required, u) =>
      if t >= |s.tables| || u >= |s.tables| then Next(s, [])
      else
        var found := Looked(s.tables[t], i, required);
        if found.Err? || !found.value.kind.PageSet? then Next(s, [])
        else AddHandle(s, u, found.value.kind, found.value.rights)
    case InsertOther(t, rights, kind) =>
      if t >= |s.tables| || kind.PageSet? then Next(s, [])
      else Next(s.(tables := s.tables[t := Inserted(s.tables[t], rights, kind).1]), [])
    case Map(t, i, required, page) =>
      if t >= |s.tables| || page == 0 || Looked(s.tables[t], i, required).Err? then Next(s, [])
      else if MappedPage(s.tables[t], i) != Ok(0) then Next(s, [])
      else MapSlot(s, t, i, page)
    case Unmap(t, i, required, page, cleared) =>
      if t >= |s.tables| || page == 0 || !cleared || Looked(s.tables[t], i, required).Err? then Next(s, [])
      else if MappedPage(s.tables[t], i) != Ok(page) then Next(s, [])
      else UnmapSlot(s, t, i)
    case Close(t, i, cleared) =>
      if t >= |s.tables| || Removed(s.tables[t], i).0.Err? then Next(s, [])
      else if DecideClose(Some(s.tables[t][i])).UnmapThenRemove? && !cleared then Next(s, [])
      else CloseSlot(s, t, i)
    case Exit(t) =>
      if t >= |s.tables| then Next(s, [])
      else After(s.tables[t := Blank(|s.tables[t]|)], ReleaseAll(s.headers, s.tables[t]))
    case Revoke(k, cleared) =>
      if k !in s.headers || !cleared then Next(s, [])
      else RevokeSlots(s, k)
  }

  /** A fresh table. */
  function Blank(n: nat): (s: seq<Entry>)
    ensures |s| == n && forall k: nat :: RefsIn(s, k) == 0
  {
    if n == 0 then [] else
      assert (Blank(n - 1) + [EMPTY])[..n - 1] == Blank(n - 1);
      Blank(n - 1) + [EMPTY]
  }

  lemma {:induction false} BlankIs(s: seq<Entry>)
    requires forall i: nat | i < |s| :: s[i] == EMPTY
    ensures s == Blank(|s|)
    decreases |s|
  {
    if s != [] { BlankIs(s[..|s| - 1]); }
  }

  // ----- the invariant -----

  /** Counters and slots agree on k. */
  ghost predicate Agree(ts: Tables, h: Headers, k: nat)
  {
    if k in h then h[k] == Counters(AllRefs(ts, k), AllMaps(ts, k)) else AllRefs(ts, k) == 0
  }

  ghost predicate Balanced(ts: Tables, h: Headers)
  {
    forall k: nat :: Agree(ts, h, k)
  }

  ghost predicate Inv(s: State)
  {
    Balanced(s.tables, s.headers) && Slots(s.tables) <= U32_MAX
  }

  /** What a call may do to PageSet k, beyond keeping the balance. */
  ghost predicate Accounted(s: State, op: Op, k: nat, s': State, freed: seq<nat>)
  {
    // freed at most once, and gone from then on
    && multiset(freed)[k] <= 1 && (k in freed ==> k !in s'.headers)
    // a registered PageSet is freed exactly when its last slot goes, unless it is consumed by revocation
    && (k in s.headers && op != Revoke(k, true) ==>
          (k in freed <==> AllRefs(s.tables, k) > 0 && AllRefs(s'.tables, k) == 0)
          && (k in s'.headers <==> k !in freed))
    // revocation takes every slot and the header
    && (k in s.headers && op == Revoke(k, true) ==> k !in s'.headers && k !in freed && AllRefs(s'.tables, k) == 0)
    // an unregistered one is freed only if its creation found no slot, and appears only by being created
    && (k !in s.headers ==> (k in freed ==> op.Create? && op.k == k)
                            && (k in s'.headers ==> (op.Create? || op.Register?) && op.k == k))
  }

  // ----- letting go of entries -----

  /** ts' has exactly one entry like e less than ts. */
  ghost predicate Minus(ts: Tables, e: Entry, ts': Tables)
  {
    forall k: nat :: AllRefs(ts', k) + Refs(e, k) == AllRefs(ts, k) && AllMaps(ts', k) + Maps(e, k) == AllMaps(ts, k)
  }

  /** What letting go does to PageSet k. */
  ghost predicate Dropped(ts: Tables, h: Headers, k: nat, ts': Tables, h': Headers, freed: seq<nat>)
  {
    && multiset(freed)[k] <= 1 && AllRefs(ts', k) <= AllRefs(ts, k)
    && (k in h ==> (k in freed <==> AllRefs(ts, k) > 0 && AllRefs(ts', k) == 0) && (k in h' <==> k !in freed))
    && (k !in h ==> k !in h' && k !in freed)
  }

  ghost predicate AllDropped(ts: Tables, h: Headers, ts': Tables, h': Headers, freed: seq<nat>)
  {
    forall k: nat :: Dropped(ts, h, k, ts', h', freed)
  }

  lemma ReleaseOne(ts: Tables, h: Headers, e: Entry, ts': Tables)
    requires Balanced(ts, h) && Minus(ts, e, ts')
    ensures var u := Release(h, e);
            u.Update? && Balanced(ts', u.headers) && AllDropped(ts, h, ts', u.headers, u.freed)
  {
    if e.kind.PageSet? {
      var j := e.kind.kva;
      assert Agree(ts, h, j);
      assert Refs(e, j) == 1;
    }
    var u := Release(h, e);
    assert u.Update?;
    var h', freed := u.headers, u.freed;
    forall k: nat
      ensures Agree(ts', h', k) && Dropped(ts, h, k, ts', h', freed)
    {
      assert Agree(ts, h, k);
    }
  }

  lemma DroppedTwice(ts: Tables, h: Headers, k: nat, ts1: Tables, h1: Headers, f: seq<nat>, ts2: Tables, h2: Headers,
                     g: seq<nat>)
    requires Dropped(ts, h, k, ts1, h1, f) && Dropped(ts1, h1, k, ts2, h2, g)
    ensures Dropped(ts, h, k, ts2, h2, f + g)
  {
  }

  /** Releasing a whole table, with the rest of it standing in for the table along the way. */
  lemma {:induction false} ReleaseRest(ts: Tables, h: Headers, t: nat, s: seq<Entry>)
    requires t < |ts| && ts[t] == s && Balanced(ts, h)
    ensures var u := ReleaseAll(h, s);
            u.Update? && Balanced(ts[t := []], u.headers) && AllDropped(ts, h, ts[t := []], u.headers, u.freed)
    decreases |s|
  {
    if s == [] {
      assert ts[t := []] == ts;
    } else {
      var ts' := ts[t := s[1..]];
      forall k: nat
        ensures AllRefs(ts', k) + Refs(s[0], k) == AllRefs(ts, k) && AllMaps(ts', k) + Maps(s[0], k) == AllMaps(ts, k)
      {
        SetTable(ts, t, s[1..], k);
        DropFirst(s, k);
      }
      ReleaseOne(ts, h, s[0], ts');
      var u := Release(h, s[0]);
      ReleaseRest(ts', u.headers, t, s[1..]);
      assert ts'[t := []] == ts[t := []];
      var v := ReleaseAll(u.headers, s[1..]);
      var end, freed := ts[t := []], u.freed + v.freed;
      forall k: nat
        ensures Dropped(ts, h, k, end, v.headers, freed)
      {
        DroppedTwice(ts, h, k, ts', u.headers, u.freed, end, v.headers, v.freed);
      }
    }
  }

  // ----- every call keeps the balance -----

  ghost predicate Good(s: State, op: Op, out: Outcome)
  {
    out.Next? && Inv(out.state) && forall k: nat :: Accounted(s, op, k, out.state, out.freed)
  }

  lemma Refused(s: State, op: Op)
    requires Inv(s) && !(op.Revoke? && op.cleared && op.k in s.headers)
    ensures Good(s, op, Next(s, []))
  {
  }

  /** Letting go accounts for every PageSet. */
  lemma DroppedIsGood(s: State, op: Op, s': State, freed: seq<nat>, ts: Tables)
    requires !op.Create? && !op.Register? && !op.Revoke? && Inv(s')
    requires AllDropped(s.tables, s.headers, ts, s'.headers, freed)
    requires forall k: nat :: AllRefs(s'.tables, k) == AllRefs(ts, k)
    ensures Good(s, op, Next(s', freed))
  {
    forall k: nat
      ensures Accounted(s, op, k, s', freed)
    {
      assert Dropped(s.tables, s.headers, k, ts, s'.headers, freed);
    }
  }

  /** A new handle to a registered PageSet. */
  lemma AddHandleKeeps(s: State, t: nat, kind: Kind, rights: bv8)
    requires Inv(s) && t < |s.tables| && kind.PageSet? && kind.kva in s.headers
    ensures var out := AddHandle(s, t, kind, rights);
            && out.Next? && Inv(out.state) && out.freed == [] && out.state.headers.Keys == s.headers.Keys
            && forall k: nat :: AllRefs(out.state.tables, k) >= AllRefs(s.tables, k)
  {
    var i := FirstEmpty(s.tables[t]);
    if i < |s.tables[t]| {
      var k0 := kind.kva;
      var e := Entry(rights, PageSet(k0, 0));
      var ts := Put(s.tables, t, i, e);
      assert Agree(s.tables, s.headers, k0);
      PutCounts(s.tables, t, i, e, k0);
      FewerThanSlots(ts, k0);
      var h := AddRef(s.headers, k0).headers;
      forall k: nat
        ensures Agree(ts, h, k) && AllRefs(ts, k) >= AllRefs(s.tables, k)
      {
        assert Agree(s.tables, s.headers, k);
        PutCounts(s.tables, t, i, e, k);
      }
    }
  }

  lemma CreateKeeps(s: State, t: nat, k0: nat, rights: bv8)
    requires Inv(s) && t < |s.tables| && k0 !in s.headers
    ensures Good(s, Create(t, k0, rights), Do(s, Create(t, k0, rights)))
  {
    var s1 := s.(headers := s.headers[k0 := UNUSED]);
    forall k: nat
      ensures Agree(s1.tables, s1.headers, k)
    {
      assert Agree(s.tables, s.headers, k);
    }
    if Inserted(s.tables[t], rights, PageSet(k0, 0)).0.Ok? {
      AddHandleKeeps(s1, t, PageSet(k0, 0), rights);
      AddedCounts(s1, t, k0, rights);
    }
  }

  /** A handle that was inserted is counted, so the PageSet is in use. */
  lemma AddedCounts(s: State, t: nat, k0: nat, rights: bv8)
    requires t < |s.tables| && Inserted(s.tables[t], rights, PageSet(k0, 0)).0.Ok?
    ensures AllRefs(s.tables[t := Inserted(s.tables[t], rights, PageSet(k0, 0)).1], k0) == AllRefs(s.tables, k0) + 1
  {
    PutCounts(s.tables, t, FirstEmpty(s.tables[t]), Entry(rights, PageSet(k0, 0)), k0);
  }

  /** Changing the mapping of a handle. */
  lemma MappingCounts(ts: Tables, t: nat, i: nat, page: nat, k: nat)
    requires t < |ts| && i < |ts[t]| && ts[t][i].kind.PageSet?
    ensures var ts' := ts[t := WithMapping(ts[t], i, page).1];
            && AllRefs(ts', k) == AllRefs(ts, k) && Slots(ts') == Slots(ts)
            && AllMaps(ts', k) + Maps(ts[t][i], k)
               == AllMaps(ts, k) + if k == ts[t][i].kind.kva && page != 0 then 1 else 0
  {
    PutCounts(ts, t, i, ts[t][i].(kind := PageSet(ts[t][i].kind.kva, page)), k);
  }

  /** A call that moves no handle and frees nothing. */
  lemma SameHandles(s: State, op: Op, s': State)
    requires Inv(s') && s'.headers.Keys == s.headers.Keys && !op.Revoke?
    requires forall k: nat :: AllRefs(s'.tables, k) == AllRefs(s.tables, k)
    ensures Good(s, op, Next(s', []))
  {
  }

  /** A mapping is counted without overflow. */
  lemma MapCounts(s: State, t: nat, i: nat, page: nat)
    requires Inv(s) && t < |s.tables| && page != 0 && MappedPage(s.tables[t], i) == Ok(0)
    ensures MapSlot(s, t, i, page).Next? && MapSlot(s, t, i, page).freed == []
    ensures MapSlot(s, t, i, page).state.headers.Keys == s.headers.Keys
  {
    var k0 := s.tables[t][i].kind.kva;
    Counted(s.tables, t, i, k0);
    assert Agree(s.tables, s.headers, k0);
    MappingCounts(s.tables, t, i, page, k0);
    FewerThanSlots(s.tables[t := WithMapping(s.tables[t], i, page).1], k0);
  }

  lemma MapAgrees(s: State, t: nat, i: nat, page: nat, k: nat)
    requires Inv(s) && t < |s.tables| && page != 0 && MappedPage(s.tables[t], i) == Ok(0)
    requires MapSlot(s, t, i, page).Next?
    ensures var s' := MapSlot(s, t, i, page).state;
            Agree(s'.tables, s'.headers, k) && AllRefs(s'.tables, k) == AllRefs(s.tables, k)
            && Slots(s'.tables) == Slots(s.tables)
  {
    assert Agree(s.tables, s.headers, k);
    MappingCounts(s.tables, t, i, page, k);
  }

  lemma MapKeeps(s: State, t: nat, i: nat, required: bv8, page: nat)
    requires Inv(s) && t < |s.tables| && page != 0 && Looked(s.tables[t], i, required).Ok?
    requires MappedPage(s.tables[t], i) == Ok(0)
    ensures Good(s, Map(t, i, required, page), Do(s, Map(t, i, required, page)))
  {
    MapCounts(s, t, i, page);
    var s' := MapSlot(s, t, i, page).state;
    forall k: nat
      ensures Agree(s'.tables, s'.headers, k) && AllRefs(s'.tables, k) == AllRefs(s.tables, k)
    {
      MapAgrees(s, t, i, page, k);
    }
    MapAgrees(s, t, i, page, 0);
    SameHandles(s, Map(t, i, required, page), s');
  }

  /** A mapping is uncounted without underflow, and its handle still counts. */
  lemma UnmapCounts(s: State, t: nat, i: nat, page: nat)
    requires Inv(s) && t < |s.tables| && page != 0 && MappedPage(s.tables[t], i) == Ok(page)
    ensures UnmapSlot(s, t, i).Next? && UnmapSlot(s, t, i).freed == []
    ensures UnmapSlot(s, t, i).state.headers.Keys == s.headers.Keys
  {
    var k0 := s.tables[t][i].kind.kva;
    Counted(s.tables, t, i, k0);
    assert Agree(s.tables, s.headers, k0);
  }

  lemma UnmapAgrees(s: State, t: nat, i: nat, page: nat, k: nat)
    requires Inv(s) && t < |s.tables| && page != 0 && MappedPage(s.tables[t], i) == Ok(page)
    requires UnmapSlot(s, t, i).Next? && UnmapSlot(s, t, i).freed == []
    ensures var s' := UnmapSlot(s, t, i).state;
            Agree(s'.tables, s'.headers, k) && AllRefs(s'.tables, k) == AllRefs(s.tables, k)
            && Slots(s'.tables) == Slots(s.tables)
  {
    assert Agree(s.tables, s.headers, k);
    MappingCounts(s.tables, t, i, 0, k);
  }

  lemma UnmapKeeps(s: State, t: nat, i: nat, required: bv8, page: nat)
    requires Inv(s) && t < |s.tables| && page != 0 && Looked(s.tables[t], i, required).Ok?
    requires MappedPage(s.tables[t], i) == Ok(page)
    ensures Good(s, Unmap(t, i, required, page, true), Do(s, Unmap(t, i, required, page, true)))
  {
    UnmapCounts(s, t, i, page);
    var s' := UnmapSlot(s, t, i).state;
    forall k: nat
      ensures Agree(s'.tables, s'.headers, k) && AllRefs(s'.tables, k) == AllRefs(s.tables, k)
    {
      UnmapAgrees(s, t, i, page, k);
    }
    UnmapAgrees(s, t, i, page, 0);
    SameHandles(s, Unmap(t, i, required, page, true), s');
  }

  lemma CloseKeeps(s: State, t: nat, i: nat, cleared: bool)
    requires Inv(s) && t < |s.tables| && i < |s.tables[t]| && s.tables[t][i].kind != Empty
    requires cleared || !DecideClose(Some(s.tables[t][i])).UnmapThenRemove?
    ensures Good(s, Close(t, i, cleared), Do(s, Close(t, i, cleared)))
  {
    var ts := Put(s.tables, t, i, EMPTY);
    forall k: nat
      ensures AllRefs(ts, k) + Refs(s.tables[t][i], k) == AllRefs(s.tables, k)
              && AllMaps(ts, k) + Maps(s.tables[t][i], k) == AllMaps(s.tables, k)
    {
      PutCounts(s.tables, t, i, EMPTY, k);
    }
    PutCounts(s.tables, t, i, EMPTY, 0);
    ReleaseOne(s.tables, s.headers, s.tables[t][i], ts);
    var u := Release(s.headers, s.tables[t][i]);
    DroppedIsGood(s, Close(t, i, cleared), State(ts, u.headers), u.freed, ts);
  }

  lemma ExitKeeps(s: State, t: nat)
    requires Inv(s) && t < |s.tables|
    ensures Good(s, Exit(t), Do(s, Exit(t)))
  {
    ReleaseRest(s.tables, s.headers, t, s.tables[t]);
    var bare := s.tables[t := []];
    var ts := s.tables[t := Blank(|s.tables[t]|)];
    var u := ReleaseAll(s.headers, s.tables[t]);
    var h := u.headers;
    SetTable(s.tables, t, Blank(|s.tables[t]|), 0);
    forall k: nat
      ensures AllRefs(ts, k) == AllRefs(bare, k) && Agree(ts, h, k)
    {
      assert Agree(bare, h, k);
      SetTable(s.tables, t, Blank(|s.tables[t]|), k);
      SetTable(s.tables, t, [], k);
    }
    DroppedIsGood(s, Exit(t), State(ts, h), u.freed, bare);
  }

  // ----- revocation -----

  /** Decrementing once per action subtracts exactly the actions. */
  lemma {:induction false} RevokedCounts(refs: nat, maps: nat, actions: seq<Action>)
    ensures Revoked(Counters(refs + |actions|, maps + Mappings(actions)), actions) == Some(Counters(refs, maps))
    decreases |actions|
  {
    if actions != [] {
      assert actions == [actions[0]] + actions[1..];
      MappingsConcat([actions[0]], actions[1..]);
      assert [actions[0]][..0] == [];
      RevokedCounts(refs, maps, actions[1..]);
    }
  }

  /** Decrements for two lists of actions, one after the other. */
  lemma {:induction false} RevokedConcat(c: Counters, a: seq<Action>, b: seq<Action>)
    ensures Revoked(c, a + b) == if Revoked(c, a).None? then None else Revoked(Revoked(c, a).value, b)
    decreases |a|
  {
    if a == [] {
      assert a + b == b;
    } else {
      assert (a + b)[0] == a[0] && (a + b)[1..] == a[1..] + b;
      var x := a[0];
      if !((x.hadMapping && c.maps == 0) || c.refs == 0) {
        RevokedConcat(DecRef(if x.hadMapping then DecMap(c) else c), a[1..], b);
      }
    }
  }

  /** The decrements for the first t tables, table by table. */
  function RevokedUpTo(c: Counters, ts: Tables, k: nat, t: nat): Option<Counters>
    requires t <= |ts|
  {
    if t == 0 then Some(c)
    else
      match RevokedUpTo(c, ts, k, t - 1)
      case None => None
      case Some(d) => Revoked(d, Actions(ts[t - 1], k))
  }

  lemma {:induction false} RevokedSoFar(c: Counters, ts: Tables, k: nat, t: nat, n: nat)
    requires t <= n <= |ts| && RevokedUpTo(c, ts, k, n).Some?
    ensures RevokedUpTo(c, ts, k, t).Some?
    decreases n
  {
    if t < n { RevokedSoFar(c, ts, k, t, n - 1); }
  }

  /** They are the decrements for all actions of these tables. */
  lemma {:induction false} RevokedTables(c: Counters, ts: Tables, k: nat, t: nat)
    requires t <= |ts|
    ensures RevokedUpTo(c, ts, k, t) == Revoked(c, AllActions(ts[..t], k))
    decreases t
  {
    if t > 0 {
      RevokedTables(c, ts, k, t - 1);
      assert ts[..t][..t - 1] == ts[..t - 1];
      RevokedConcat(c, AllActions(ts[..t - 1], k), Actions(ts[t - 1], k));
    }
  }

  lemma RevokedAll(c: Counters, ts: Tables, k: nat)
    ensures RevokedUpTo(c, ts, k, |ts|) == Revoked(c, AllActions(ts, k))
  {
    RevokedTables(c, ts, k, |ts|);
    assert ts[..|ts|] == ts;
  }

  /** Revocation never finds a mismatch, and drives both counters to zero. */
  lemma RevokeReconciles(s: State, k0: nat)
    requires Inv(s) && k0 in s.headers
    ensures Counters(|AllActions(s.tables, k0)|, Mappings(AllActions(s.tables, k0))) == s.headers[k0]
    ensures Revoked(s.headers[k0], AllActions(s.tables, k0)) == Some(UNUSED)
  {
    assert Agree(s.tables, s.headers, k0);
    AllActionCounts(s.tables, k0);
    RevokedCounts(0, 0, AllActions(s.tables, k0));
  }

  /** It empties exactly the matching slots and touches no other counter. */
  lemma RevokeKeeps(s: State, k0: nat)
    requires Inv(s) && k0 in s.headers
    ensures Do(s, Revoke(k0, true)) == Next(State(AllCleared(s.tables, k0), s.headers - {k0}), [])
    ensures Good(s, Revoke(k0, true), Do(s, Revoke(k0, true)))
  {
    RevokeReconciles(s, k0);
    var s' := State(AllCleared(s.tables, k0), s.headers - {k0});
    AllClearedCounts(s.tables, k0, 0);
    forall k: nat
      ensures Agree(s'.tables, s'.headers, k) && Accounted(s, Revoke(k0, true), k, s', [])
    {
      assert Agree(s.tables, s.headers, k);
      AllClearedCounts(s.tables, k0, k);
    }
  }

  // ----- any call, any run -----

  lemma RegisterKeeps(s: State, k0: nat)
    requires Inv(s) && k0 !in s.headers
    ensures Good(s, Register(k0), Do(s, Register(k0)))
  {
    var s' := s.(headers := s.headers[k0 := UNUSED]);
    forall k: nat
      ensures Agree(s'.tables, s'.headers, k)
    {
      assert Agree(s.tables, s.headers, k);
    }
  }

  lemma InsertOtherAgrees(s: State, t: nat, i: nat, e: Entry, k: nat)
    requires Inv(s) && t < |s.tables| && i < |s.tables[t]| && s.tables[t][i].kind == Empty && !e.kind.PageSet?
    ensures var ts := Put(s.tables, t, i, e);
            Agree(ts, s.headers, k) && AllRefs(ts, k) == AllRefs(s.tables, k) && Slots(ts) == Slots(s.tables)
  {
    assert Agree(s.tables, s.headers, k);
    PutCounts(s.tables, t, i, e, k);
  }

  lemma InsertOtherKeeps(s: State, t: nat, rights: bv8, kind: Kind)
    requires Inv(s) && t < |s.tables| && !kind.PageSet?
    ensures Good(s, InsertOther(t, rights, kind), Do(s, InsertOther(t, rights, kind)))
  {
    var i := FirstEmpty(s.tables[t]);
    if kind != Empty && i < |s.tables[t]| {
      var e := Entry(rights, kind);
      var ts := Put(s.tables, t, i, e);
      forall k: nat
        ensures AllRefs(ts, k) == AllRefs(s.tables, k) && Agree(ts, s.headers, k)
      {
        InsertOtherAgrees(s, t, i, e, k);
      }
      InsertOtherAgrees(s, t, i, e, 0);
      SameHandles(s, InsertOther(t, rights, kind), State(ts, s.headers));
    } else {
      assert s.tables[t := s.tables[t]] == s.tables;
      Refused(s, InsertOther(t, rights, kind));
    }
  }

  /** A slot's PageSet is registered. */
  lemma Registered(s: State, t: nat, i: nat)
    requires Inv(s) && t < |s.tables| && i < |s.tables[t]| && s.tables[t][i].kind.PageSet?
    ensures s.tables[t][i].kind.kva in s.headers
  {
    var k := s.tables[t][i].kind.kva;
    Counted(s.tables, t, i, k);
    assert Agree(s.tables, s.headers, k);
  }

  /** No assertion of the source fires in any call, and the accounts stay balanced. */
  lemma StepKeeps(s: State, op: Op)
    requires Inv(s)
    ensures Good(s, op, Do(s, op))
  {
    if Do(s, op) == Next(s, []) && !op.Revoke? {
      Refused(s, op);
    } else {
      match op
      case Register(k) => RegisterKeeps(s, k);
      case Create(t, k, rights) => CreateKeeps(s, t, k, rights);
      case Grant(t, k, rights) => AddHandleKeeps(s, t, PageSet(k, 0), rights);
      case Copy(t, i, required, u) =>
        Registered(s, t, i);
        AddHandleKeeps(s, u, s.tables[t][i].kind, s.tables[t][i].rights);
      case InsertOther(t, rights, kind) => InsertOtherKeeps(s, t, rights, kind);
      case Map(t, i, required, page) => MapKeeps(s, t, i, required, page);
      case Unmap(t, i, required, page, _) => UnmapKeeps(s, t, i, required, page);
      case Close(t, i, cleared) => CloseKeeps(s, t, i, cleared);
      case Exit(t) => ExitKeeps(s, t);
      case Revoke(k, cleared) => if k in s.headers && cleared { RevokeKeeps(s, k); } else { Refused(s, op); }
    }
  }

  /** The same without the account of single PageSets. */
  lemma StepIsSafe(s: State, op: Op)
    requires Inv(s)
    ensures Do(s, op).Next? && Inv(Do(s, op).state)
  {
    StepKeeps(s, op);
  }

  /** A whole run of calls, with everything that it freed. */
  function RunCalls(s: State, ops: seq<Op>): Outcome
  {
    if ops == [] then Next(s, [])
    else
      match RunCalls(s, ops[..|ops| - 1])
      case Fault => Fault
      case Next(s', f) =>
        match Do(s', ops[|ops| - 1])
        case Fault => Fault
        case Next(s'', g) => Next(s'', f + g)
  }

  lemma {:induction false} RunIsSafe(s: State, ops: seq<Op>)
    requires Inv(s)
    ensures RunCalls(s, ops).Next? && Inv(RunCalls(s, ops).state)
    decreases |ops|
  {
    if ops != [] {
      var n := |ops| - 1;
      RunIsSafe(s, ops[..n]);
      StepKeeps(RunCalls(s, ops[..n]).state, ops[n]);
    }
  }

  /** Every call of a run, wherever it stands, frees each PageSet exactly with its last slot. */
  lemma RunIsGood(s: State, ops: seq<Op>, n: nat)
    requires Inv(s) && n < |ops|
    ensures RunCalls(s, ops[..n]).Next?
    ensures var here := RunCalls(s, ops[..n]).state; Good(here, ops[n], Do(here, ops[n]))
  {
    RunIsSafe(s, ops[..n]);
    StepKeeps(RunCalls(s, ops[..n]).state, ops[n]);
  }

  /** How often a run registered PageSet k, as Register or Create. */
  function Births(s: State, ops: seq<Op>, k: nat): nat
    requires Inv(s)
  {
    if ops == [] then 0
    else
      var n := |ops| - 1;
      RunIsSafe(s, ops[..n]);
      var here := RunCalls(s, ops[..n]).state;
      Births(s, ops[..n], k)
        + if (ops[n].Register? || (ops[n].Create? && ops[n].t < |here.tables|)) && ops[n].k == k && k !in here.headers
          then 1 else 0
  }

  /** How often a run took k away by revocation. */
  function Consumed(s: State, ops: seq<Op>, k: nat): nat
    requires Inv(s)
  {
    if ops == [] then 0
    else
      var n := |ops| - 1;
      RunIsSafe(s, ops[..n]);
      var here := RunCalls(s, ops[..n]).state;
      Consumed(s, ops[..n], k) + if ops[n] == Revoke(k, true) && k in here.headers then 1 else 0
  }

  function Alive(s: State, k: nat): nat
  {
    if k in s.headers then 1 else 0
  }

  /** Every registration ends in exactly one free or one consumption, or is still standing. */
  lemma {:induction false} EveryPageSetFreedOnce(s: State, ops: seq<Op>, k: nat)
    requires Inv(s)
    ensures RunCalls(s, ops).Next?
    ensures Alive(s, k) + Births(s, ops, k)
            == multiset(RunCalls(s, ops).freed)[k] + Consumed(s, ops, k) + Alive(RunCalls(s, ops).state, k)
    decreases |ops|
  {
    RunIsSafe(s, ops);
    if ops != [] {
      var n := |ops| - 1;
      EveryPageSetFreedOnce(s, ops[..n], k);
      RunIsSafe(s, ops[..n]);
      var here := RunCalls(s, ops[..n]);
      StepKeeps(here.state, ops[n]);
      var out := Do(here.state, ops[n]);
      assert Accounted(here.state, ops[n], k, out.state, out.freed);
      if k !in here.state.headers { BornOrRefused(here.state, ops[n], k); }
      assert multiset(here.freed + out.freed)[k] == multiset(here.freed)[k] + multiset(out.freed)[k];
    }
  }

  /** A PageSet that is created is registered afterwards, or freed at once. */
  lemma BornOrRefused(s: State, op: Op, k: nat)
    requires Inv(s) && k !in s.headers && Do(s, op).Next?
    ensures ((op.Register? || (op.Create? && op.t < |s.tables|)) && op.k == k)
            <==> (k in Do(s, op).state.headers || k in Do(s, op).freed)
  {
    StepKeeps(s, op);
    assert Accounted(s, op, k, Do(s, op).state, Do(s, op).freed);
  }
}
