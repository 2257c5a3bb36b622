/** The handle system calls over slot arrays and header objects, against the state machine of values. */
module PageSetKernel {
  import opened Options
  import opened HandleTable
  import opened PageSetCounters
  import opened SlotCounts
  import Ledger = PageSetLedger

  ghost function Snapshot(tables: seq<array<Entry>>): (ts: Tables)
    reads tables
    ensures |ts| == |tables| && forall t: nat | t < |tables| :: ts[t] == tables[t][..]
  {
    seq(|tables|, t requires 0 <= t < |tables| reads tables => tables[t][..])
  }

  method ClearSlots(slots: array<Entry>)
    modifies slots
    ensures slots[..] == Ledger.Blank(slots.Length)
  {
    for i := 0 to slots.Length
      invariant forall j: nat | j < i :: slots[j] == EMPTY
    {
      slots[i] := EMPTY;
    }
    Ledger.BlankIs(slots[..]);
  }

  lemma PutThenDrop(h: Ledger.Headers, k: nat)
    requires k !in h
    ensures h[k := UNUSED] - {k} == h
  {
  }

  /** No two of these arrays are the same. */
  ghost predicate Distinct(tables: seq<array<Entry>>)
  {
    tables == [] || (Distinct(tables[..|tables| - 1]) && tables[|tables| - 1] !in tables[..|tables| - 1])
  }

  lemma {:induction false} Others(tables: seq<array<Entry>>, t: nat)
    requires Distinct(tables) && t < |tables|
    ensures forall u: nat | u < |tables| && u != t :: tables[u] != tables[t]
    decreases |tables|
  {
    var n := |tables| - 1;
    forall u: nat | u < |tables| && u != t
      ensures tables[u] != tables[t]
    {
      assert u < n ==> tables[u] in tables[..n];
      assert t < n ==> tables[t] in tables[..n];
      if u < n && t < n {
        Others(tables[..n], t);
        assert tables[..n][u] != tables[..n][t];
      }
    }
  }

  class Kernel {
    /** The slots of every process. */
    const tables: seq<array<Entry>>
    /** The headers of all registered PageSets, by address. */
    var headers: map<nat, PageSetHeader>

    /** No two tables and no two headers are the same object. */
    ghost predicate Apart()
      reads this
    {
      && Distinct(tables)
      && (forall j: nat, k: nat | j in headers && k in headers && j != k :: headers[j] != headers[k])
    }

    ghost function Counts(): Ledger.Headers
      reads this, headers.Values
    {
      map k | k in headers :: headers[k].Value()
    }

    ghost function Now(): Ledger.State
      reads this, tables, headers.Values
    {
      Ledger.State(Snapshot(tables), Counts())
    }

    ghost predicate Ready()
      reads this, tables, headers.Values
    {
      Apart() && Ledger.Inv(Now())
    }

    // ----- counters -----

    method AddRef(k: nat)
      requires Apart() && Ledger.AddRef(Counts(), k).Update?
      modifies headers.Values
      ensures Ledger.AddRef(old(Counts()), k) == Ledger.Update(Counts(), [])
    {
      headers[k].IncRefcount();
    }

    method AddMap(k: nat)
      requires Apart() && Ledger.AddMap(Counts(), k).Update?
      modifies headers.Values
      ensures Ledger.AddMap(old(Counts()), k) == Ledger.Update(Counts(), [])
    {
      headers[k].IncMapCount();
    }

    /** Drop one reference; a header that nothing uses any more is freed. */
    method DropRef(k: nat) returns (freed: seq<nat>)
      requires Apart() && Ledger.DropRef(Counts(), k).Update?
      modifies this`headers, headers.Values
      ensures Apart() && headers.Values <= old(headers.Values)
      ensures Ledger.DropRef(old(Counts()), k) == Ledger.Update(Counts(), freed)
    {
      var free := headers[k].DecRefcount();
      freed := [];
      if free {
        headers := headers - {k};
        freed := [k];
      }
    }

    method DropMap(k: nat) returns (freed: seq<nat>)
      requires Apart() && Ledger.DropMap(Counts(), k).Update?
      modifies this`headers, headers.Values
      ensures Apart() && headers.Values <= old(headers.Values)
      ensures Ledger.DropMap(old(Counts()), k) == Ledger.Update(Counts(), freed)
    {
      var free := headers[k].DecMapCount();
      freed := [];
      if free {
        headers := headers - {k};
        freed := [k];
      }
    }

    /** Drop a mapping and a reference; only the second decrement decides. */
    method DropBoth(k: nat) returns (freed: seq<nat>)
      requires Apart() && Ledger.DropBoth(Counts(), k).Update?
      modifies this`headers, headers.Values
      ensures Apart() && headers.Values <= old(headers.Values)
      ensures Ledger.DropBoth(old(Counts()), k) == Ledger.Update(Counts(), freed)
    {
      ghost var before := Counts();
      var _ := headers[k].DecMapCount();
      assert Counts() == before[k := DecMap(before[k])];
      freed := DropRef(k);
    }

    /** Let go of an entry. */
    method Release(e: Entry) returns (freed: seq<nat>)
      requires Apart() && Ledger.Release(Counts(), e).Update?
      modifies this`headers, headers.Values
      ensures Apart() && headers.Values <= old(headers.Values)
      ensures Ledger.Release(old(Counts()), e) == Ledger.Update(Counts(), freed)
    {
      match Ledger.DecideClose(Some(e))
      case RemoveAndDecRef(k) => freed := DropRef(k);
      case UnmapThenRemove(k, _) => freed := DropBoth(k);
      case _ => freed := [];
    }

    // ----- slots -----

    method InsertInto(t: nat, rights: bv8, kind: Kind) returns (r: Result<nat>)
      requires Apart() && t < |tables|
      modifies tables[t]
      ensures r == Inserted(old(Snapshot(tables))[t], rights, kind).0
      ensures Snapshot(tables) == old(Snapshot(tables))[t := Inserted(old(Snapshot(tables))[t], rights, kind).1]
      ensures Counts() == old(Counts())
    {
      r := Insert(tables[t], rights, kind);
      Others(tables, t);
      assert Snapshot(tables) == old(Snapshot(tables))[t := tables[t][..]];
    }

    method Record(t: nat, i: nat, page: nat)
      requires Apart() && t < |tables| && MappedPage(tables[t][..], i).Ok?
      modifies tables[t]
      ensures Snapshot(tables) == old(Snapshot(tables))[t := WithMapping(old(Snapshot(tables))[t], i, page).1]
      ensures Counts() == old(Counts())
    {
      var _ := SetMapped(tables[t], i, page);
      Others(tables, t);
      assert Snapshot(tables) == old(Snapshot(tables))[t := tables[t][..]];
    }

    method RemoveFrom(t: nat, i: nat) returns (r: Result<Entry>)
      requires Apart() && t < |tables|
      modifies tables[t]
      ensures r == Removed(old(Snapshot(tables))[t], i).0
      ensures Snapshot(tables) == old(Snapshot(tables))[t := Removed(old(Snapshot(tables))[t], i).1]
      ensures Counts() == old(Counts())
    {
      r := Remove(tables[t], i);
      Others(tables, t);
      assert Snapshot(tables) == old(Snapshot(tables))[t := tables[t][..]];
    }

    // ----- system calls; none of the source's assertions fires -----

    method NewHeader(k: nat)
      requires Apart() && k !in headers
      modifies this`headers
      ensures Apart() && fresh(headers.Values - old(headers.Values)) && Counts() == old(Counts())[k := UNUSED]
    {
      var h := new PageSetHeader();
      headers := headers[k := h];
    }

    method Register(k: nat)
      requires Apart()
      modifies this`headers
      ensures Apart() && fresh(headers.Values - old(headers.Values))
      ensures Ledger.Do(old(Now()), Ledger.Register(k)) == Ledger.Next(Now(), [])
    {
      if k !in headers { NewHeader(k); }
    }

    method Unregister(k: nat)
      requires Apart()
      modifies this`headers
      ensures Apart() && headers.Values <= old(headers.Values) && Counts() == old(Counts()) - {k}
    {
      headers := headers - {k};
    }

    /** Insert a handle to a registered PageSet and count it. */
    method AddHandle(t: nat, kind: Kind, rights: bv8) returns (ok: bool)
      requires Apart() && t < |tables| && kind.PageSet? && Ledger.AddHandle(Now(), t, kind, rights).Next?
      modifies tables[t], headers.Values
      ensures ok <==> Inserted(old(Snapshot(tables))[t], rights, kind).0.Ok?
      ensures Ledger.AddHandle(old(Now()), t, kind, rights) == Ledger.Next(Now(), [])
    {
      ghost var s := Now();
      var r := InsertInto(t, rights, kind);
      if r.Err? {
        assert s.tables[t := s.tables[t]] == s.tables;
        return false;
      }
      AddRef(kind.kva);
      ok := true;
    }

    /** A new PageSet at an unused address, with its first handle; it is freed again when there is no slot. */
    method Create(t: nat, k: nat, rights: bv8) returns (freed: seq<nat>)
      requires Apart() && t < |tables| && k !in headers
      requires Ledger.Do(Now(), Ledger.Create(t, k, rights)).Next?
      modifies this`headers, tables[t], headers.Values
      ensures Apart() && fresh(headers.Values - old(headers.Values))
      ensures Ledger.Do(old(Now()), Ledger.Create(t, k, rights)) == Ledger.Next(Now(), freed)
    {
      ghost var s := Now();
      NewHeader(k);
      var ok := AddHandle(t, PageSet(k, 0), rights);
      freed := [];
      if !ok {
        Unregister(k);
        PutThenDrop(s.headers, k);
        freed := [k];
      }
    }

    method Grant(t: nat, k: nat, rights: bv8)
      requires Apart() && t < |tables| && Ledger.Do(Now(), Ledger.Grant(t, k, rights)).Next?
      modifies tables[t], headers.Values
      ensures Ledger.Do(old(Now()), Ledger.Grant(t, k, rights)) == Ledger.Next(Now(), [])
    {
      if k in headers {
        var _ := AddHandle(t, PageSet(k, 0), rights);
      }
    }

    /** Copy a PageSet handle into another table, or within one. */
    method Copy(t: nat, i: nat, required: bv8, u: nat)
      requires Apart() && t < |tables| && u < |tables|
      requires Ledger.Do(Now(), Ledger.Copy(t, i, required, u)).Next?
      modifies tables[u], headers.Values
      ensures Ledger.Do(old(Now()), Ledger.Copy(t, i, required, u)) == Ledger.Next(Now(), [])
    {
      var found := Lookup(tables[t], i, required);
      if found.Err? || !found.value.kind.PageSet? { return; }
      var _ := AddHandle(u, found.value.kind, found.value.rights);
    }

    method InsertOther(t: nat, rights: bv8, kind: Kind)
      requires Apart() && t < |tables| && !kind.PageSet?
      modifies tables[t]
      ensures Ledger.Do(old(Now()), Ledger.InsertOther(t, rights, kind)) == Ledger.Next(Now(), [])
    {
      var _ := InsertInto(t, rights, kind);
    }

    method MapSlot(t: nat, i: nat, page: nat)
      requires Apart() && t < |tables| && MappedPage(Snapshot(tables)[t], i).Ok?
      requires Ledger.MapSlot(Now(), t, i, page).Next?
      modifies tables[t], headers.Values
      ensures Ledger.MapSlot(old(Now()), t, i, page) == Ledger.Next(Now(), [])
    {
      var k := tables[t][i].kind.kva;
      Record(t, i, page);
      AddMap(k);
    }

    /** Record a mapping that the page tables accepted. */
    method Map(t: nat, i: nat, required: bv8, page: nat)
      requires Apart() && t < |tables| && Ledger.Do(Now(), Ledger.Map(t, i, required, page)).Next?
      modifies tables[t], headers.Values
      ensures Ledger.Do(old(Now()), Ledger.Map(t, i, required, page)) == Ledger.Next(Now(), [])
    {
      if page == 0 { return; }
      var found := Lookup(tables[t], i, required);
      if found.Err? || MappedPage(tables[t][..], i) != Ok(0) { return; }
      MapSlot(t, i, page);
    }

    method UnmapSlot(t: nat, i: nat) returns (freed: seq<nat>)
      requires Apart() && t < |tables| && MappedPage(Snapshot(tables)[t], i).Ok?
      requires Ledger.UnmapSlot(Now(), t, i).Next?
      modifies this`headers, tables[t], headers.Values
      ensures Apart() && headers.Values <= old(headers.Values)
      ensures Ledger.UnmapSlot(old(Now()), t, i) == Ledger.Next(Now(), freed)
    {
      var k := tables[t][i].kind.kva;
      Record(t, i, 0);
      freed := DropMap(k);
    }

    method Unmap(t: nat, i: nat, required: bv8, page: nat, cleared: bool) returns (freed: seq<nat>)
      requires Apart() && t < |tables| && Ledger.Do(Now(), Ledger.Unmap(t, i, required, page, cleared)).Next?
      modifies this`headers, tables[t], headers.Values
      ensures Apart() && headers.Values <= old(headers.Values)
      ensures Ledger.Do(old(Now()), Ledger.Unmap(t, i, required, page, cleared)) == Ledger.Next(Now(), freed)
    {
      if page == 0 || !cleared { return []; }
      var found := Lookup(tables[t], i, required);
      if found.Err? || MappedPage(tables[t][..], i) != Ok(page) { return []; }
      freed := UnmapSlot(t, i);
    }

    method CloseSlot(t: nat, i: nat) returns (freed: seq<nat>)
      requires Apart() && t < |tables| && Removed(Snapshot(tables)[t], i).0.Ok?
      requires Ledger.CloseSlot(Now(), t, i).Next?
      modifies this`headers, tables[t], headers.Values
      ensures Apart() && headers.Values <= old(headers.Values)
      ensures Ledger.CloseSlot(old(Now()), t, i) == Ledger.Next(Now(), freed)
    {
      var removed := RemoveFrom(t, i);
      freed := Release(removed.value);
    }

    method Close(t: nat, i: nat, cleared: bool) returns (freed: seq<nat>)
      requires Apart() && t < |tables| && Ledger.Do(Now(), Ledger.Close(t, i, cleared)).Next?
      modifies this`headers, tables[t], headers.Values
      ensures Apart() && headers.Values <= old(headers.Values)
      ensures Ledger.Do(old(Now()), Ledger.Close(t, i, cleared)) == Ledger.Next(Now(), freed)
    {
      var found := Lookup(tables[t], i, 0);
      var decision := Ledger.DecideClose(if found.Ok? then Some(found.value) else None);
      if decision.NothingToClose? || (decision.UnmapThenRemove? && !cleared) { return []; }
      freed := CloseSlot(t, i);
    }

    /** Release every entry of a table in slot order. */
    method ReleaseAll(t: nat) returns (freed: seq<nat>)
      requires Apart() && t < |tables| && Ledger.ReleaseAll(Counts(), tables[t][..]).Update?
      modifies this`headers, headers.Values
      ensures Apart() && headers.Values <= old(headers.Values)
      ensures Ledger.ReleaseAll(old(Counts()), tables[t][..]) == Ledger.Update(Counts(), freed)
    {
      freed := [];
      ghost var s, all := tables[t][..], Ledger.ReleaseAll(Counts(), tables[t][..]);
      for i := 0 to tables[t].Length
        invariant Apart() && headers.Values <= old(headers.Values) && s == tables[t][..]
        invariant Ledger.ReleaseAll(Counts(), s[i..]).Update?
        invariant all == Ledger.Then(freed, Ledger.ReleaseAll(Counts(), s[i..]))
      {
        Ledger.ReleaseFirst(Counts(), s[i..]);
        assert s[i..][1..] == s[i + 1..];
        var f := Release(tables[t][i]);
        Ledger.ThenTwice(freed, f, Ledger.ReleaseAll(Counts(), s[i + 1..]));
        freed := freed + f;
      }
      assert s[|s|..] == [];
    }

    /** A process exits and its table is emptied. */
    method Exit(t: nat) returns (freed: seq<nat>)
      requires Apart() && t < |tables| && Ledger.Do(Now(), Ledger.Exit(t)).Next?
      modifies this`headers, tables[t], headers.Values
      ensures Apart() && headers.Values <= old(headers.Values)
      ensures Ledger.Do(old(Now()), Ledger.Exit(t)) == Ledger.Next(Now(), freed)
    {
      freed := ReleaseAll(t);
      Wipe(t);
    }

    method Wipe(t: nat)
      requires Apart() && t < |tables|
      modifies tables[t]
      ensures Snapshot(tables) == old(Snapshot(tables))[t := Ledger.Blank(tables[t].Length)]
      ensures Counts() == old(Counts())
    {
      ClearSlots(tables[t]);
      Others(tables, t);
      assert Snapshot(tables) == old(Snapshot(tables))[t := tables[t][..]];
    }

    // ----- revocation -----

    /** The read-only walk over all tables: how many slots name k, and how many of them are mapped. */
    method Validate(k: nat) returns (refs: nat, maps: nat)
      ensures refs == |AllActions(Snapshot(tables), k)| && maps == Mappings(AllActions(Snapshot(tables), k))
    {
      refs, maps := 0, 0;
      ghost var ts := Snapshot(tables);
      for t := 0 to |tables|
        invariant refs == |AllActions(ts[..t], k)| && maps == Mappings(AllActions(ts[..t], k))
      {
        var count, seen := RevokeValidate(tables[t], k);
        AllActionsNext(ts, k, t);
        MappingsConcat(AllActions(ts[..t], k), seen);
        refs := refs + count;
        var mapped := CountMapped(seen);
        maps := maps + mapped;
      }
      assert ts[..|ts|] == ts;
    }

    /** Empty all slots of k. */
    method ClearAll(k: nat)
      requires Apart() && k in headers && Ledger.Revoked(headers[k].Value(), AllActions(Snapshot(tables), k)).Some?
      modifies tables, headers[k]
      ensures Snapshot(tables) == AllCleared(old(Snapshot(tables)), k)
      ensures Counts() - {k} == old(Counts()) - {k}
    {
      Ledger.RevokedAll(headers[k].Value(), Snapshot(tables), k);
      Apply(tables, k, headers[k]);
    }

    /** Empty all slots of k and drop its header. */
    method Consume(k: nat)
      requires Apart() && k in headers && Ledger.Revoked(headers[k].Value(), AllActions(Snapshot(tables), k)).Some?
      modifies this`headers, tables, headers[k]
      ensures Apart() && headers.Values <= old(headers.Values)
      ensures Snapshot(tables) == AllCleared(old(Snapshot(tables)), k) && Counts() == old(Counts()) - {k}
    {
      ClearAll(k);
      Unregister(k);
    }

    method RevokeSlots(k: nat)
      requires Apart() && k in headers && Ledger.RevokeSlots(Now(), k).Next?
      modifies this`headers, tables, headers.Values
      ensures Apart() && headers.Values <= old(headers.Values)
      ensures Ledger.RevokeSlots(old(Now()), k) == Ledger.Next(Now(), [])
    {
      var refs, maps := Validate(k);
      if refs == headers[k].refcount && maps == headers[k].mapCount { Consume(k); }
    }

    /** Two-phase revocation. */
    method Revoke(k: nat, cleared: bool)
      requires Apart() && Ledger.Do(Now(), Ledger.Revoke(k, cleared)).Next?
      modifies this`headers, tables, headers.Values
      ensures Apart() && headers.Values <= old(headers.Values)
      ensures Ledger.Do(old(Now()), Ledger.Revoke(k, cleared)) == Ledger.Next(Now(), [])
    {
      if k in headers && cleared { RevokeSlots(k); }
    }

    // ----- any call, any run -----

    /** Every system call does what the state machine says and keeps the accounts balanced. */
    method Call(op: Ledger.Op) returns (freed: seq<nat>)
      requires Ready()
      modifies this`headers, tables, headers.Values
      ensures Ready() && fresh(headers.Values - old(headers.Values))
      ensures Ledger.Do(old(Now()), op) == Ledger.Next(Now(), freed)
    {
      Ledger.StepIsSafe(Now(), op);
      freed := [];
      match op
      case Register(k) => Register(k);
      case Create(t, k, rights) => if t < |tables| && k !in headers { freed := Create(t, k, rights); }
      case Grant(t, k, rights) => if t < |tables| { Grant(t, k, rights); }
      case Copy(t, i, required, u) => if t < |tables| && u < |tables| { Copy(t, i, required, u); }
      case InsertOther(t, rights, kind) => if t < |tables| && !kind.PageSet? { InsertOther(t, rights, kind); }
      case Map(t, i, required, page) => if t < |tables| { Map(t, i, required, page); }
      case Unmap(t, i, required, page, cleared) =>
        if t < |tables| { freed := Unmap(t, i, required, page, cleared); }
      case Close(t, i, cleared) => if t < |tables| { freed := Close(t, i, cleared); }
      case Exit(t) => if t < |tables| { freed := Exit(t); }
      case Revoke(k, cleared) => Revoke(k, cleared);
    }

    method Run(ops: seq<Ledger.Op>) returns (freed: seq<nat>)
      requires Ready()
      modifies this`headers, tables, headers.Values
      ensures Ready()
      ensures Ledger.RunCalls(old(Now()), ops) == Ledger.Next(Now(), freed)
    {
      freed := [];
      for i := 0 to |ops|
        invariant Ready() && fresh(headers.Values - old(headers.Values))
        invariant Ledger.RunCalls(old(Now()), ops[..i]) == Ledger.Next(Now(), freed)
      {
        assert ops[..i + 1][..i] == ops[..i];
        var f := Call(ops[i]);
        freed := freed + f;
      }
      assert ops[..|ops|] == ops;
    }
  }

  /** Undo the counts of cleared slots one by one; the free-now results are ignored. */
  method Uncount(h: PageSetHeader, actions: seq<Action>)
    requires Ledger.Revoked(h.Value(), actions).Some?
    modifies h
    ensures Ledger.Revoked(old(h.Value()), actions) == Some(h.Value())
  {
    ghost var c := h.Value();
    for i := 0 to |actions|
      invariant Ledger.Revoked(c, actions) == Ledger.Revoked(h.Value(), actions[i..])
    {
      assert actions[i..][0] == actions[i] && actions[i..][1..] == actions[i + 1..];
      if actions[i].hadMapping {
        var _ := h.DecMapCount();
      }
      var _ := h.DecRefcount();
    }
    assert actions[|actions|..] == [];
  }

  /** One table of the writing walk. */
  method ApplyTo(tables: seq<array<Entry>>, t: nat, k: nat, h: PageSetHeader)
    requires Distinct(tables) && t < |tables|
    requires Ledger.Revoked(h.Value(), Actions(Snapshot(tables)[t], k)).Some?
    modifies tables[t], h
    ensures Snapshot(tables) == old(Snapshot(tables))[t := Cleared(old(Snapshot(tables))[t], k)]
    ensures Ledger.Revoked(old(h.Value()), Actions(old(Snapshot(tables))[t], k)) == Some(h.Value())
  {
    var _, seen := RevokeApply(tables[t], k);
    Others(tables, t);
    assert Snapshot(tables) == old(Snapshot(tables))[t := tables[t][..]];
    Uncount(h, seen);
  }

  /** One step of the writing walk over tables that were ts, with counters that were c. */
  method ApplyNext(tables: seq<array<Entry>>, t: nat, k: nat, h: PageSetHeader, ghost ts: Tables, ghost c: Counters)
    requires Distinct(tables) && t < |tables| == |ts| && Snapshot(tables) == Half(ts, k, t)
    requires Ledger.RevokedUpTo(c, ts, k, t) == Some(h.Value()) && Ledger.RevokedUpTo(c, ts, k, |ts|).Some?
    modifies tables[t], h
    ensures Snapshot(tables) == Half(ts, k, t + 1)
    ensures Ledger.RevokedUpTo(c, ts, k, t + 1) == Some(h.Value())
  {
    HalfAt(ts, k, t, t);
    Ledger.RevokedSoFar(c, ts, k, t + 1, |ts|);
    ApplyTo(tables, t, k, h);
  }

  /** The writing walk: every matching slot is emptied and uncounted, and nothing else changes. */
  method Apply(tables: seq<array<Entry>>, k: nat, h: PageSetHeader)
    requires Distinct(tables) && Ledger.RevokedUpTo(h.Value(), Snapshot(tables), k, |tables|).Some?
    modifies tables, h
    ensures Snapshot(tables) == AllCleared(old(Snapshot(tables)), k)
  {
    ghost var ts, c := Snapshot(tables), h.Value();
    for t := 0 to |tables|
      invariant Snapshot(tables) == Half(ts, k, t)
      invariant Ledger.RevokedUpTo(c, ts, k, t) == Some(h.Value())
    {
      ApplyNext(tables, t, k, h, ts, c);
    }
    WholeIsCleared(ts, k);
  }

  method CountMapped(seen: seq<Action>) returns (n: nat)
    ensures n == Mappings(seen)
  {
    n := 0;
    for i := 0 to |seen|
      invariant n == Mappings(seen[..i])
    {
      assert seen[..i + 1][..i] == seen[..i];
      if seen[i].hadMapping { n := n + 1; }
    }
    assert seen[..|seen|] == seen;
  }

  lemma AllActionsNext(ts: Tables, k: nat, t: nat)
    requires t < |ts|
    ensures AllActions(ts[..t + 1], k) == AllActions(ts[..t], k) + Actions(ts[t], k)
  {
    assert ts[..t + 1][..t] == ts[..t];
  }

  /** The tables while the writing walk is at table t. */
  ghost function Half(ts: Tables, k: nat, t: nat): (us: Tables)
    requires t <= |ts|
    ensures |us| == |ts|
  {
    if t == 0 then ts else Half(ts, k, t - 1)[t - 1 := Cleared(ts[t - 1], k)]
  }

  lemma {:induction false} HalfAt(ts: Tables, k: nat, t: nat, u: nat)
    requires t <= |ts| && u < |ts|
    ensures Half(ts, k, t)[u] == if u < t then Cleared(ts[u], k) else ts[u]
    decreases t
  {
    if t > 0 { HalfAt(ts, k, t - 1, u); }
  }

  lemma WholeIsCleared(ts: Tables, k: nat)
    ensures Half(ts, k, |ts|) == AllCleared(ts, k)
  {
    forall u: nat | u < |ts|
      ensures Half(ts, k, |ts|)[u] == AllCleared(ts, k)[u]
    {
      HalfAt(ts, k, |ts|, u);
    }
  }
}
