/** The two counters of a PageSet header. */
module PageSetCounters {
  const U32_MAX: nat := 0xFFFF_FFFF

  datatype Counters = Counters(refs: nat, maps: nat)

  const UNUSED: Counters := Counters(0, 0)

  function IncRef(c: Counters): Counters { c.(refs := c.refs + 1) }

  function IncMap(c: Counters): Counters { c.(maps := c.maps + 1) }

  function DecRef(c: Counters): Counters
    requires c.refs > 0
  {
    c.(refs := c.refs - 1)
  }

  function DecMap(c: Counters): Counters
    requires c.maps > 0
  {
    c.(maps := c.maps - 1)
  }

  /** The preconditions of the four updates are the source's overflow and underflow panics. */
  class PageSetHeader {
    var refcount: nat
    var mapCount: nat

    function Value(): Counters
      reads this
    {
      Counters(refcount, mapCount)
    }

    constructor ()
      ensures Value() == UNUSED
    {
      refcount := 0;
      mapCount := 0;
    }

    method IncMapCount()
      requires mapCount < U32_MAX
      modifies this
      ensures Value() == IncMap(old(Value()))
    {
      mapCount := mapCount + 1;
    }

    /** True when the PageSet should be freed. */
    method DecMapCount() returns (free: bool)
      requires mapCount > 0
      modifies this
      ensures Value() == DecMap(old(Value())) && (free <==> Value() == UNUSED)
    {
      mapCount := mapCount - 1;
      free := mapCount == 0 && refcount == 0;
    }

    method IncRefcount()
      requires refcount < U32_MAX
      modifies this
      ensures Value() == IncRef(old(Value()))
    {
      refcount := refcount + 1;
    }

    /** True when the PageSet should be freed. */
    method DecRefcount() returns (free: bool)
      requires refcount > 0
      modifies this
      ensures Value() == DecRef(old(Value())) && (free <==> Value() == UNUSED)
    {
      refcount := refcount - 1;
      free := refcount == 0 && mapCount == 0;
    }
  }
}

/** Counting the slots that name a PageSet, over all handle tables. */
module SlotCounts {
  import opened HandleTable

  type Tables = seq<seq<Entry>>

  function Refs(e: Entry, k: nat): nat
  {
    if Names(e, k) then 1 else 0
  }

  function Maps(e: Entry, k: nat): nat
  {
    if Names(e, k) && e.kind.mappedPage != 0 then 1 else 0
  }

  function RefsIn(s: seq<Entry>, k: nat): (n: nat)
    ensures n <= |s|
  {
    if s == [] then 0 else RefsIn(s[..|s| - 1], k) + Refs(s[|s| - 1], k)
  }

  function MapsIn(s: seq<Entry>, k: nat): (n: nat)
    ensures n <= RefsIn(s, k)
  {
    if s == [] then 0 else MapsIn(s[..|s| - 1], k) + Maps(s[|s| - 1], k)
  }

  function AllRefs(ts: Tables, k: nat): nat
  {
    if ts == [] then 0 else AllRefs(ts[..|ts| - 1], k) + RefsIn(ts[|ts| - 1], k)
  }

  function AllMaps(ts: Tables, k: nat): (n: nat)
    ensures n <= AllRefs(ts, k)
  {
    if ts == [] then 0 else AllMaps(ts[..|ts| - 1], k) + MapsIn(ts[|ts| - 1], k)
  }

  function Slots(ts: Tables): nat
  {
    if ts == [] then 0 else Slots(ts[..|ts| - 1]) + |ts[|ts| - 1]|
  }

  lemma {:induction false} FewerThanSlots(ts: Tables, k: nat)
    ensures AllRefs(ts, k) <= Slots(ts)
    decreases |ts|
  {
    if ts != [] { FewerThanSlots(ts[..|ts| - 1], k); }
  }

  /** Changing one slot changes the counts by the difference. */
  lemma {:induction false} SetSlot(s: seq<Entry>, i: nat, e: Entry, k: nat)
    requires i < |s|
    ensures RefsIn(s[i := e], k) + Refs(s[i], k) == RefsIn(s, k) + Refs(e, k)
    ensures MapsIn(s[i := e], k) + Maps(s[i], k) == MapsIn(s, k) + Maps(e, k)
    decreases |s|
  {
    var n := |s| - 1;
    if i < n {
      SetSlot(s[..n], i, e, k);
      assert s[i := e][..n] == s[..n][i := e];
    } else {
      assert s[i := e][..n] == s[..n];
    }
  }

  lemma {:induction false} SetTable(ts: Tables, t: nat, s: seq<Entry>, k: nat)
    requires t < |ts|
    ensures AllRefs(ts[t := s], k) + RefsIn(ts[t], k) == AllRefs(ts, k) + RefsIn(s, k)
    ensures AllMaps(ts[t := s], k) + MapsIn(ts[t], k) == AllMaps(ts, k) + MapsIn(s, k)
    ensures Slots(ts[t := s]) + |ts[t]| == Slots(ts) + |s|
    decreases |ts|
  {
    var n := |ts| - 1;
    if t < n {
      SetTable(ts[..n], t, s, k);
      assert ts[t := s][..n] == ts[..n][t := s];
    } else {
      assert ts[t := s][..n] == ts[..n];
    }
  }

  /** Both at once: one slot of one table. */
  function Put(ts: Tables, t: nat, i: nat, e: Entry): Tables
    requires t < |ts| && i < |ts[t]|
  {
    ts[t := ts[t][i := e]]
  }

  lemma PutCounts(ts: Tables, t: nat, i: nat, e: Entry, k: nat)
    requires t < |ts| && i < |ts[t]|
    ensures AllRefs(Put(ts, t, i, e), k) + Refs(ts[t][i], k) == AllRefs(ts, k) + Refs(e, k)
    ensures AllMaps(Put(ts, t, i, e), k) + Maps(ts[t][i], k) == AllMaps(ts, k) + Maps(e, k)
    ensures Slots(Put(ts, t, i, e)) == Slots(ts)
  {
    SetSlot(ts[t], i, e, k);
    SetTable(ts, t, ts[t][i := e], k);
  }

  /** A slot that names k is counted. */
  lemma Counted(ts: Tables, t: nat, i: nat, k: nat)
    requires t < |ts| && i < |ts[t]|
    ensures Refs(ts[t][i], k) <= AllRefs(ts, k) && Maps(ts[t][i], k) <= AllMaps(ts, k)
  {
    PutCounts(ts, t, i, EMPTY, k);
  }

  /** Dropping the first slot of a table. */
  lemma {:induction false} DropFirst(s: seq<Entry>, k: nat)
    requires s != []
    ensures RefsIn(s, k) == Refs(s[0], k) + RefsIn(s[1..], k)
    ensures MapsIn(s, k) == Maps(s[0], k) + MapsIn(s[1..], k)
    decreases |s|
  {
    var n := |s| - 1;
    if n > 0 {
      DropFirst(s[..n], k);
      assert s[..n][1..] == s[1..][..n - 1];
    } else {
      assert s[1..] == [] && s[..0] == [];
    }
  }

  // ----- clearing -----

  lemma {:induction false} ActionCounts(s: seq<Entry>, k: nat)
    ensures |Actions(s, k)| == RefsIn(s, k) && Mappings(Actions(s, k)) == MapsIn(s, k)
    decreases |s|
  {
    if s != [] {
      var n := |s| - 1;
      ActionCounts(s[..n], k);
      if Names(s[n], k) {
        assert Actions(s, k)[..|Actions(s, k)| - 1] == Actions(s[..n], k);
      } else {
        assert Actions(s, k) == Actions(s[..n], k);
      }
    }
  }

  function Mappings(a: seq<Action>): nat
  {
    if a == [] then 0 else Mappings(a[..|a| - 1]) + if a[|a| - 1].hadMapping then 1 else 0
  }

  /** Emptying the slots of one PageSet leaves the counts of all others. */
  lemma {:induction false} ClearedCounts(s: seq<Entry>, k: nat, j: nat)
    ensures RefsIn(Cleared(s, k), j) == if j == k then 0 else RefsIn(s, j)
    ensures MapsIn(Cleared(s, k), j) == if j == k then 0 else MapsIn(s, j)
    decreases |s|
  {
    if s != [] {
      var n := |s| - 1;
      ClearedCounts(s[..n], k, j);
      assert Cleared(s, k)[..n] == Cleared(s[..n], k);
    }
  }

  function AllCleared(ts: Tables, k: nat): (us: Tables)
    ensures |us| == |ts| && forall t: nat | t < |ts| :: us[t] == Cleared(ts[t], k)
  {
    if ts == [] then [] else AllCleared(ts[..|ts| - 1], k) + [Cleared(ts[|ts| - 1], k)]
  }

  function AllActions(ts: Tables, k: nat): seq<Action>
  {
    if ts == [] then [] else AllActions(ts[..|ts| - 1], k) + Actions(ts[|ts| - 1], k)
  }

  lemma {:induction false} AllClearedCounts(ts: Tables, k: nat, j: nat)
    ensures AllRefs(AllCleared(ts, k), j) == if j == k then 0 else AllRefs(ts, j)
    ensures AllMaps(AllCleared(ts, k), j) == if j == k then 0 else AllMaps(ts, j)
    ensures Slots(AllCleared(ts, k)) == Slots(ts)
    decreases |ts|
  {
    if ts != [] {
      var n := |ts| - 1;
      AllClearedCounts(ts[..n], k, j);
      ClearedCounts(ts[n], k, j);
      assert AllCleared(ts, k)[..n] == AllCleared(ts[..n], k);
    }
  }

  lemma {:induction false} MappingsConcat(a: seq<Action>, b: seq<Action>)
    ensures Mappings(a + b) == Mappings(a) + Mappings(b)
    decreases |b|
  {
    if b == [] {
      assert a + b == a;
    } else {
      MappingsConcat(a, b[..|b| - 1]);
      assert (a + b)[..|a + b| - 1] == a + b[..|b| - 1];
    }
  }

  lemma {:induction false} AllActionCounts(ts: Tables, k: nat)
    ensures |AllActions(ts, k)| == AllRefs(ts, k) && Mappings(AllActions(ts, k)) == AllMaps(ts, k)
    decreases |ts|
  {
    if ts != [] {
      var n := |ts| - 1;
      AllActionCounts(ts[..n], k);
      ActionCounts(ts[n], k);
      MappingsConcat(AllActions(ts[..n], k), Actions(ts[n], k));
    }
  }

  /** No slot anywhere names a PageSet whose count is zero. */
  lemma {:induction false} CountZero(ts: Tables, k: nat)
    ensures AllRefs(ts, k) == 0 <==> forall t: nat, i: nat | t < |ts| && i < |ts[t]| :: !Names(ts[t][i], k)
  {
    if AllRefs(ts, k) == 0 {
      forall t: nat, i: nat | t < |ts| && i < |ts[t]|
        ensures !Names(ts[t][i], k)
      {
        Counted(ts, t, i, k);
      }
    }
    if forall t: nat, i: nat | t < |ts| && i < |ts[t]| :: !Names(ts[t][i], k) {
      NoneCounted(ts, k);
    }
  }

  lemma {:induction false} NoneCounted(ts: Tables, k: nat)
    requires forall t: nat, i: nat | t < |ts| && i < |ts[t]| :: !Names(ts[t][i], k)
    ensures AllRefs(ts, k) == 0
    decreases |ts|
  {
    if ts != [] {
      NoneCounted(ts[..|ts| - 1], k);
      var last := ts[|ts| - 1];
      assert forall i: nat | i < |last| :: !Names(last[i], k);
      NoneIn(last, k);
    }
  }

  lemma {:induction false} NoneIn(s: seq<Entry>, k: nat)
    requires forall i: nat | i < |s| :: !Names(s[i], k)
    ensures RefsIn(s, k) == 0
    decreases |s|
  {
    if s != [] { NoneIn(s[..|s| - 1], k); }
  }
}
