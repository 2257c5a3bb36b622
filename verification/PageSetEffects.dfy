/** What every handle system call does to every slot, and where the rights of a handle come from. */
module PageSetEffects {
  import opened Options
  import opened HandleTable
  import opened PageSetCounters
  import opened SlotCounts
  import opened PageSetLedger

  predicate InTable(ts: Tables, t: nat, i: nat)
  {
    t < |ts| && i < |ts[t]|
  }

  /** Tables keep their sizes, and all slots but (t, i) their entries. */
  ghost predicate OnlySlot(ts: Tables, ts': Tables, t: nat, i: nat)
  {
    && |ts'| == |ts| && (forall u: nat | u < |ts| :: |ts'[u]| == |ts[u]|)
    && forall u: nat, j: nat | InTable(ts, u, j) && !(u == t && j == i) :: ts'[u][j] == ts[u][j]
  }

  /** The first empty slot of table t gets an entry, and PageSet k one more reference. */
  ghost predicate Fills(s: State, t: nat, e: Entry, k: nat, s': State)
  {
    exists i: nat ::
      && InTable(s.tables, t, i) && s.tables[t][i].kind == Empty
      && (forall j: nat | j < i :: s.tables[t][j].kind != Empty)
      && OnlySlot(s.tables, s'.tables, t, i) && s'.tables[t][i] == e
      && k in s.headers && s'.headers == s.headers[k := Counters(s.headers[k].refs + 1, s.headers[k].maps)]
  }

  predicate Full(s: State, t: nat)
    requires t < |s.tables|
  {
    forall j: nat | j < |s.tables[t]| :: s.tables[t][j].kind != Empty
  }

  lemma AddHandleDoes(s: State, t: nat, kind: Kind, rights: bv8)
    requires Inv(s) && t < |s.tables| && kind.PageSet? && kind.kva in s.headers
    ensures var out := AddHandle(s, t, kind, rights);
            && out.Next? && out.freed == []
            && if Full(s, t) then out.state == s
               else Fills(s, t, Entry(rights, PageSet(kind.kva, 0)), kind.kva, out.state)
  {
    AddHandleKeeps(s, t, kind, rights);
    var i := FirstEmpty(s.tables[t]);
    if i < |s.tables[t]| {
      assert InTable(s.tables, t, i);
      assert OnlySlot(s.tables, AddHandle(s, t, kind, rights).state.tables, t, i);
    }
  }

  /** A handle to a new PageSet; without a free slot nothing remains of it. */
  lemma CreateDoes(s: State, t: nat, k: nat, rights: bv8)
    requires Inv(s)
    ensures var out := Do(s, Create(t, k, rights));
            && out.Next?
            && if t >= |s.tables| || k in s.headers then out == Next(s, [])
               else if Full(s, t) then out == Next(s, [k])
               else Fills(s.(headers := s.headers[k := Counters(0, 0)]), t, Entry(rights, PageSet(k, 0)), k, out.state)
                    && out.freed == []
  {
    if t < |s.tables| && k !in s.headers {
      var s1 := s.(headers := s.headers[k := UNUSED]);
      RegisterKeeps(s, k);
      AddHandleDoes(s1, t, PageSet(k, 0), rights);
    }
  }

  lemma RegisterDoes(s: State, k: nat)
    ensures Do(s, Register(k))
            == Next(if k in s.headers then s else State(s.tables, s.headers[k := Counters(0, 0)]), [])
  {
  }

  lemma GrantDoes(s: State, t: nat, k: nat, rights: bv8)
    requires Inv(s)
    ensures var out := Do(s, Grant(t, k, rights));
            && out.Next? && out.freed == []
            && if t >= |s.tables| || k !in s.headers || Full(s, t) then out.state == s
               else Fills(s, t, Entry(rights, PageSet(k, 0)), k, out.state)
  {
    if t < |s.tables| && k in s.headers { AddHandleDoes(s, t, PageSet(k, 0), rights); }
  }

  /** The slot holds a PageSet handle with these rights. */
  predicate Usable(s: State, t: nat, i: nat, required: bv8)
  {
    InTable(s.tables, t, i) && s.tables[t][i].kind.PageSet? && Contains(s.tables[t][i].rights, required)
  }

  /** A copy has the rights of its original and starts out unmapped. */
  lemma CopyDoes(s: State, t: nat, i: nat, required: bv8, u: nat)
    requires Inv(s)
    ensures var out := Do(s, Copy(t, i, required, u));
            && out.Next? && out.freed == []
            && if !Usable(s, t, i, required) || u >= |s.tables| || Full(s, u) then out.state == s
               else Fills(s, u, Entry(s.tables[t][i].rights, PageSet(s.tables[t][i].kind.kva, 0)),
                          s.tables[t][i].kind.kva, out.state)
  {
    if InTable(s.tables, t, i) && u < |s.tables| {
      HasRightsMeaning(s.tables[t][i].rights, required);
      if s.tables[t][i].kind.PageSet? {
        Registered(s, t, i);
        AddHandleDoes(s, u, s.tables[t][i].kind, s.tables[t][i].rights);
      }
    }
  }

  lemma InsertOtherDoes(s: State, t: nat, rights: bv8, kind: Kind)
    ensures var out := Do(s, InsertOther(t, rights, kind));
            && out.Next? && out.freed == []
            && if t >= |s.tables| || kind.PageSet? || kind.Empty? || Full(s, t) then out.state == s
               else exists i: nat ::
                      && InTable(s.tables, t, i) && s.tables[t][i].kind == Empty
                      && (forall j: nat | j < i :: s.tables[t][j].kind != Empty)
                      && OnlySlot(s.tables, out.state.tables, t, i) && out.state.tables[t][i] == Entry(rights, kind)
                      && out.state.headers == s.headers
  {
    if t < |s.tables| && !kind.PageSet? {
      var i := FirstEmpty(s.tables[t]);
      if !kind.Empty? && i < |s.tables[t]| {
        assert InTable(s.tables, t, i);
        assert OnlySlot(s.tables, Do(s, InsertOther(t, rights, kind)).state.tables, t, i);
      } else {
        assert s.tables[t := s.tables[t]] == s.tables;
      }
    }
  }

  /** The mapping of one slot changes, and the mapping count of its PageSet with it. */
  ghost predicate Remaps(s: State, t: nat, i: nat, page: nat, maps: nat, s': State)
    requires InTable(s.tables, t, i) && s.tables[t][i].kind.PageSet?
  {
    var e := s.tables[t][i];
    && OnlySlot(s.tables, s'.tables, t, i) && s'.tables[t][i] == Entry(e.rights, PageSet(e.kind.kva, page))
    && e.kind.kva in s.headers
    && s'.headers == s.headers[e.kind.kva := Counters(s.headers[e.kind.kva].refs, maps)]
  }

  lemma MapDoes(s: State, t: nat, i: nat, required: bv8, page: nat)
    requires Inv(s)
    ensures var out := Do(s, Map(t, i, required, page));
            && out.Next? && out.freed == []
            && if !Usable(s, t, i, required) || s.tables[t][i].kind.mappedPage != 0 || page == 0 then out.state == s
               else s.tables[t][i].kind.kva in s.headers
                    && Remaps(s, t, i, page, s.headers[s.tables[t][i].kind.kva].maps + 1, out.state)
  {
    if InTable(s.tables, t, i) {
      HasRightsMeaning(s.tables[t][i].rights, required);
      if Usable(s, t, i, required) && s.tables[t][i].kind.mappedPage == 0 && page != 0 {
        Registered(s, t, i);
        MapCounts(s, t, i, page);
      }
    }
  }

  lemma UnmapDoes(s: State, t: nat, i: nat, required: bv8, page: nat, cleared: bool)
    requires Inv(s)
    ensures var out := Do(s, Unmap(t, i, required, page, cleared));
            && out.Next? && out.freed == []
            && if !Usable(s, t, i, required) || s.tables[t][i].kind.mappedPage != page || page == 0 || !cleared
               then out.state == s
               else s.tables[t][i].kind.kva in s.headers && s.headers[s.tables[t][i].kind.kva].maps > 0
                    && Remaps(s, t, i, 0, s.headers[s.tables[t][i].kind.kva].maps - 1, out.state)
  {
    if InTable(s.tables, t, i) {
      HasRightsMeaning(s.tables[t][i].rights, required);
      if Usable(s, t, i, required) && s.tables[t][i].kind.mappedPage == page && page != 0 && cleared {
        Registered(s, t, i);
        UnmapCounts(s, t, i, page);
      }
    }
  }

  /** The slot can be closed: it is occupied, and not mapped unless its pages were cleared. */
  predicate Closable(s: State, t: nat, i: nat, cleared: bool)
  {
    && InTable(s.tables, t, i) && s.tables[t][i].kind != Empty
    && (cleared || !s.tables[t][i].kind.PageSet? || s.tables[t][i].kind.mappedPage == 0)
  }

  /** Closing empties the slot and no other. */
  lemma CloseDoes(s: State, t: nat, i: nat, cleared: bool)
    requires Inv(s)
    ensures var out := Do(s, Close(t, i, cleared));
            && out.Next?
            && if !Closable(s, t, i, cleared) then out == Next(s, [])
               else OnlySlot(s.tables, out.state.tables, t, i) && out.state.tables[t][i] == Entry(0, Kind.Empty)
  {
    StepIsSafe(s, Close(t, i, cleared));
  }

  /** Exiting empties every slot of the table and no other. */
  lemma ExitDoes(s: State, t: nat)
    requires Inv(s) && t < |s.tables|
    ensures var out := Do(s, Exit(t));
            && out.Next? && |out.state.tables| == |s.tables|
            && |out.state.tables[t]| == |s.tables[t]|
            && (forall i: nat | i < |s.tables[t]| :: out.state.tables[t][i] == Entry(0, Kind.Empty))
            && forall u: nat | u < |s.tables| && u != t :: out.state.tables[u] == s.tables[u]
  {
    StepIsSafe(s, Exit(t));
    BlankEntries(|s.tables[t]|);
  }

  lemma {:induction false} BlankEntries(n: nat)
    ensures forall i: nat | i < n :: Blank(n)[i] == Entry(0, Kind.Empty)
    decreases n
  {
    if n > 0 { BlankEntries(n - 1); }
  }

  /** Revocation empties the slots that name k, wherever they are, and drops its header. */
  lemma RevokeDoes(s: State, k: nat, cleared: bool)
    requires Inv(s)
    ensures var out := Do(s, Revoke(k, cleared));
            && out.Next? && out.freed == []
            && if k !in s.headers || !cleared then out.state == s
               else && out.state.headers == s.headers - {k} && |out.state.tables| == |s.tables|
                    && (forall t: nat | t < |s.tables| :: |out.state.tables[t]| == |s.tables[t]|)
                    && forall t: nat, i: nat | InTable(s.tables, t, i) ::
                         out.state.tables[t][i]
                         == if s.tables[t][i].kind.PageSet? && s.tables[t][i].kind.kva == k then Entry(0, Kind.Empty)
                            else s.tables[t][i]
  {
    if k in s.headers && cleared { RevokeKeeps(s, k); }
  }

  // ----- rights -----

  /** Some slot holds a handle to k with exactly these rights. */
  ghost predicate Held(ts: Tables, k: nat, rights: bv8)
  {
    exists t: nat, i: nat :: HeldAt(ts, t, i, k, rights)
  }

  predicate HeldAt(ts: Tables, t: nat, i: nat, k: nat, rights: bv8)
  {
    InTable(ts, t, i) && Names(ts[t][i], k) && ts[t][i].rights == rights
  }

  /** The call gives out a handle to k with these rights. */
  predicate Gives(op: Op, k: nat, rights: bv8)
  {
    (op.Create? || op.Grant?) && op.k == k && op.rights == rights
  }

  lemma FillOrigin(s: State, u: nat, e: Entry, n: nat, s': State, t: nat, i: nat, k: nat, rights: bv8)
    requires Fills(s, u, e, n, s') && HeldAt(s'.tables, t, i, k, rights)
    ensures HeldAt(s.tables, t, i, k, rights) || (Names(e, k) && e.rights == rights)
  {
    var j: nat :| InTable(s.tables, u, j) && OnlySlot(s.tables, s'.tables, u, j) && s'.tables[u][j] == e;
    assert InTable(s.tables, t, i);
  }

  lemma CopyOrigin(s: State, op: Op, t: nat, i: nat, k: nat, rights: bv8)
    requires Inv(s) && op.Copy? && Do(s, op).Next? && HeldAt(Do(s, op).state.tables, t, i, k, rights)
    ensures Held(s.tables, k, rights)
  {
    CopyDoes(s, op.t, op.i, op.required, op.u);
    var s' := Do(s, op).state;
    if s' == s {
      assert HeldAt(s.tables, t, i, k, rights);
    } else {
      var e := s.tables[op.t][op.i];
      FillOrigin(s, op.u, Entry(e.rights, PageSet(e.kind.kva, 0)), e.kind.kva, s', t, i, k, rights);
      assert HeldAt(s.tables, t, i, k, rights) || HeldAt(s.tables, op.t, op.i, k, rights);
    }
  }

  lemma GiveOrigin(s: State, op: Op, t: nat, i: nat, k: nat, rights: bv8)
    requires Inv(s) && (op.Create? || op.Grant?) && Do(s, op).Next?
    requires HeldAt(Do(s, op).state.tables, t, i, k, rights)
    ensures HeldAt(s.tables, t, i, k, rights) || Gives(op, k, rights)
  {
    var s' := Do(s, op).state;
    if op.Create? { CreateDoes(s, op.t, op.k, op.rights); } else { GrantDoes(s, op.t, op.k, op.rights); }
    if s' != s {
      var s1 := if op.Create? then s.(headers := s.headers[op.k := Counters(0, 0)]) else s;
      FillOrigin(s1, op.t, Entry(op.rights, PageSet(op.k, 0)), op.k, s', t, i, k, rights);
    }
  }

  lemma InsertOtherOrigin(s: State, op: Op, t: nat, i: nat, k: nat, rights: bv8)
    requires op.InsertOther? && Do(s, op).Next? && HeldAt(Do(s, op).state.tables, t, i, k, rights)
    ensures HeldAt(s.tables, t, i, k, rights)
  {
    InsertOtherDoes(s, op.t, op.rights, op.kind);
    var s' := Do(s, op).state;
    if s' != s {
      var j: nat :| InTable(s.tables, op.t, j) && OnlySlot(s.tables, s'.tables, op.t, j)
                    && s'.tables[op.t][j] == Entry(op.rights, op.kind);
      assert InTable(s.tables, t, i);
    }
  }

  /** Calls that only take handles away, or change their mapping. */
  lemma KeepOrigin(s: State, op: Op, t: nat, i: nat, k: nat, rights: bv8)
    requires Inv(s) && (op.Map? || op.Unmap? || op.Close? || op.Exit? || op.Revoke? || op.Register?)
    requires Do(s, op).Next? && HeldAt(Do(s, op).state.tables, t, i, k, rights)
    ensures HeldAt(s.tables, t, i, k, rights)
  {
    match op
    case Map(u, j, required, page) => MapDoes(s, u, j, required, page);
    case Unmap(u, j, required, page, cleared) => UnmapDoes(s, u, j, required, page, cleared);
    case Close(u, j, cleared) => CloseDoes(s, u, j, cleared);
    case Exit(u) => if u < |s.tables| { ExitDoes(s, u); }
    case Revoke(n, cleared) => RevokeDoes(s, n, cleared);
    case Register(n) => RegisterDoes(s, n);
  }

  lemma StepOrigin(s: State, op: Op, t: nat, i: nat, k: nat, rights: bv8)
    requires Inv(s) && Do(s, op).Next? && HeldAt(Do(s, op).state.tables, t, i, k, rights)
    ensures Held(s.tables, k, rights) || Gives(op, k, rights)
  {
    match op
    case Copy(_, _, _, _) => CopyOrigin(s, op, t, i, k, rights);
    case Create(_, _, _) => GiveOrigin(s, op, t, i, k, rights);
    case Grant(_, _, _) => GiveOrigin(s, op, t, i, k, rights);
    case InsertOther(_, _, _) => InsertOtherOrigin(s, op, t, i, k, rights);
    case _ => KeepOrigin(s, op, t, i, k, rights);
  }

  /**
   * Rights are never made up: after any run, every handle to a PageSet has exactly the rights of a handle to it that
   * was there at the start, or the rights with which the run created or granted one.
   */
  lemma {:induction false} RightsHaveOrigin(s: State, ops: seq<Op>, k: nat, rights: bv8)
    requires Inv(s) && RunCalls(s, ops).Next? && Held(RunCalls(s, ops).state.tables, k, rights)
    ensures Held(s.tables, k, rights) || exists n: nat :: n < |ops| && Gives(ops[n], k, rights)
    decreases |ops|
  {
    if ops != [] {
      var n := |ops| - 1;
      RunIsSafe(s, ops[..n]);
      var here := RunCalls(s, ops[..n]).state;
      var t: nat, i: nat :| HeldAt(RunCalls(s, ops).state.tables, t, i, k, rights);
      StepOrigin(here, ops[n], t, i, k, rights);
      if Held(here.tables, k, rights) {
        RightsHaveOrigin(s, ops[..n], k, rights);
        if m: nat :| m < n && Gives(ops[..n][m], k, rights) { assert Gives(ops[m], k, rights); }
      }
    }
  }
}
