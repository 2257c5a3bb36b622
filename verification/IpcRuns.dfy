/** Runs of the IPC state machine and what holds over all of them. */
module IpcRuns {
  import opened Options
  import opened IpcState
  import opened IpcInvariant

  /** One system call attempt. */
  datatype Act = Act(who: ThreadId, op: IpcOp)

  /** A successful step moves to its next state; a refused one changes nothing. */
  ghost function Exec(s: State, a: Act): (s': State)
    requires Inv(s) && a.who in s.thread
    ensures Inv(s') && s'.thread.Keys == s.thread.Keys && s'.reply.Keys == s.reply.Keys
  {
    StepKeepsInv(s, a.who, a.op);
    StepKeepsNames(s, a.who, a.op);
    if Step(s, a.who, a.op).Ok? then Step(s, a.who, a.op).next else s
  }

  lemma StepKeepsNames(s: State, who: ThreadId, op: IpcOp)
    requires WellTyped(s) && who in s.thread
    ensures Step(s, who, op).Ok? ==>
              && Step(s, who, op).next.thread.Keys == s.thread.Keys
              && Step(s, who, op).next.reply.Keys == s.reply.Keys
  {
  }

  ghost predicate Known(acts: seq<Act>, s: State)
  {
    forall i | 0 <= i < |acts| :: acts[i].who in s.thread
  }

  /** The state after a sequence of attempts. */
  ghost function Run(s: State, acts: seq<Act>): (s': State)
    requires Inv(s) && Known(acts, s)
    ensures Inv(s') && s'.thread.Keys == s.thread.Keys && s'.reply.Keys == s.reply.Keys
    decreases |acts|
  {
    if acts == [] then s
    else
      var last := |acts| - 1;
      Exec(Run(s, acts[..last]), acts[last])
  }

  /** What a caller of any step may rely on. */
  ghost predicate Safe(s: State, a: Act)
    requires WellTyped(s) && a.who in s.thread
  {
    && CheckInvariants(s)
    && BlockedForOneReason(s)
    && !Step(s, a.who, a.op).Panic?
    && |s.queue| <= |s.thread.Keys|
    && (Enqueues(Step(s, a.who, a.op)) ==> |s.queue| < |s.thread.Keys|)
  }

  lemma InvIsSafe(s: State, a: Act)
    requires Inv(s) && a.who in s.thread
    ensures Safe(s, a)
  {
    InvImpliesChecks(s);
    StepKeepsInv(s, a.who, a.op);
    QueueFits(s, a);
  }

  /**
   * Safety over every run: all the source's invariants hold, no step panics, a queue
   * with one place per thread never overflows, and a thread is blocked exactly when
   * it is queued or its call has a handler, never both.
   */
  lemma RunIsSafe(threads: set<ThreadId>, clients: set<ThreadId>, acts: seq<Act>, a: Act)
    requires clients <= threads
    requires forall i | 0 <= i < |acts| :: acts[i].who in threads
    requires a.who in threads
    ensures Inv(Initial(threads, clients)) && Known(acts, Initial(threads, clients))
    ensures Safe(Run(Initial(threads, clients), acts), a)
  {
    InitialInv(threads, clients);
    assert Initial(threads, clients).thread.Keys == threads;
    InvIsSafe(Run(Initial(threads, clients), acts), a);
  }

  /** The step appends a waiter. */
  predicate Enqueues(r: StepResult)
  {
    r.Ok? && exists k :: EnqueueSelfAs(k) in r.effects
  }

  lemma {:induction false} DistinctSize(q: seq<QueueEntry>)
    requires Distinct(q)
    ensures |Threads(q)| == |q|
  {
    if q != [] { DistinctSize(q[1..]); }
  }

  lemma SubsetSize(a: set<ThreadId>, b: set<ThreadId>)
    requires a <= b
    ensures |a| <= |b|
  {
    assert b == a + (b - a);
  }

  /** A queue with one place per thread never overflows. */
  lemma QueueFits(s: State, a: Act)
    requires Inv(s) && a.who in s.thread
    ensures |s.queue| <= |s.thread.Keys|
    ensures Enqueues(Step(s, a.who, a.op)) ==> |s.queue| < |s.thread.Keys|
  {
    DistinctSize(s.queue);
    SubsetSize(Threads(s.queue), s.thread.Keys);
    if s.thread[a.who] != Blocked {
      assert !Queued(s, a.who);
      SubsetSize(Threads(s.queue) + {a.who}, s.thread.Keys);
    }
  }

  // ----- the wait-for relation -----

  /** Each thread's call is handled by the next. */
  predicate Path(s: State, p: seq<ThreadId>)
  {
    forall i | 0 <= i < |p| - 1 :: HeldBy(s, p[i], p[i + 1])
  }

  ghost predicate Acyclic(s: State)
  {
    forall p: seq<ThreadId> | Path(s, p) && |p| >= 2 :: p[0] != p[|p| - 1]
  }

  /** The only new edge goes into a thread that waits for nobody. */
  ghost predicate EdgeAdded(s: State, s': State, c: ThreadId, h: ThreadId)
  {
    && (forall d, g | HeldBy(s', d, g) :: HeldBy(s, d, g) || (d == c && g == h))
    && !Held(s, h) && c != h
  }

  ghost predicate NoEdgeAdded(s: State, s': State)
  {
    forall d, g | HeldBy(s', d, g) :: HeldBy(s, d, g)
  }

  lemma AddEdge(s: State, s': State, c: ThreadId, h: ThreadId)
    requires Acyclic(s) && EdgeAdded(s, s', c, h)
    ensures Acyclic(s')
  {
    assert forall g :: !HeldBy(s', h, g);
    forall p: seq<ThreadId> | Path(s', p) && |p| >= 2
      ensures p[0] != p[|p| - 1]
    {
      var last := |p| - 1;
      assert HeldBy(s', p[0], p[1]);
      if p[last] != h {
        forall i | 0 <= i < last
          ensures HeldBy(s, p[i], p[i + 1])
        {
          assert HeldBy(s', p[i], p[i + 1]);
          if i + 1 < last { assert HeldBy(s', p[i + 1], p[i + 2]); }
        }
        assert Path(s, p);
      }
    }
  }

  lemma RemoveEdges(s: State, s': State)
    requires Acyclic(s) && NoEdgeAdded(s, s')
    ensures Acyclic(s')
  {
    forall p: seq<ThreadId> | Path(s', p) && |p| >= 2
      ensures p[0] != p[|p| - 1]
    {
      assert Path(s, p);
    }
  }

  lemma ReceiveEdge(s: State, who: ThreadId)
    requires Inv(s) && who in s.thread && s.thread[who] != Blocked
    requires s.current[who].None? && s.endpoint == HasWaiters && s.queue[0].kind == Call
    ensures EdgeAdded(s, StepReceive(s, who).next, s.queue[0].thread, who)
  {
    Popped(s.queue);
    assert !Held(s, who) && Queued(s, s.queue[0].thread);
  }

  lemma CallEdge(s: State, who: ThreadId)
    requires Inv(s) && who in s.thread && s.thread[who] != Blocked
    requires who in s.reply && s.reply[who] == Fresh && s.endpoint == HasReceiver
    ensures EdgeAdded(s, StepCall(s, who).next, who, s.queue[0].thread)
  {
    Popped(s.queue);
    assert Queued(s, s.queue[0].thread) && !Held(s, s.queue[0].thread);
  }

  lemma StepKeepsAcyclic(s: State, who: ThreadId, op: IpcOp)
    requires Inv(s) && Acyclic(s) && who in s.thread && Step(s, who, op).Ok?
    ensures Acyclic(Step(s, who, op).next)
  {
    var s' := Step(s, who, op).next;
    if op == OpReceive && s.endpoint == HasWaiters && s.queue[0].kind == Call {
      ReceiveEdge(s, who);
      AddEdge(s, s', s.queue[0].thread, who);
    } else if op == OpCall && s.endpoint == HasReceiver {
      CallEdge(s, who);
      AddEdge(s, s', who, s.queue[0].thread);
    } else {
      assert NoEdgeAdded(s, s');
      RemoveEdges(s, s');
    }
  }

  /** In every reachable state no thread waits, directly or not, for itself. */
  lemma {:induction false} RunIsAcyclic(s: State, acts: seq<Act>)
    requires Inv(s) && Acyclic(s) && Known(acts, s)
    ensures Acyclic(Run(s, acts))
    decreases |acts|
  {
    if acts != [] {
      var last := |acts| - 1;
      RunIsAcyclic(s, acts[..last]);
      var before := Run(s, acts[..last]);
      if Step(before, acts[last].who, acts[last].op).Ok? {
        StepKeepsAcyclic(before, acts[last].who, acts[last].op);
      }
    }
  }

  lemma InitialAcyclic(threads: set<ThreadId>, clients: set<ThreadId>)
    ensures Acyclic(Initial(threads, clients))
  {
    var s := Initial(threads, clients);
    forall p: seq<ThreadId>
      ensures !(Path(s, p) && |p| >= 2)
    {
      if |p| >= 2 { assert !HeldBy(s, p[0], p[1]); }
    }
  }

  /** A path that visits no thread twice, through known threads. */
  ghost predicate Simple(s: State, p: seq<ThreadId>)
  {
    && Path(s, p)
    && (forall i, j | 0 <= i < j < |p| :: p[i] != p[j])
    && (forall i | 0 <= i < |p| :: p[i] in s.thread)
  }

  lemma {:induction false} NoRepeatsBound(p: seq<ThreadId>, u: set<ThreadId>)
    requires forall i, j | 0 <= i < j < |p| :: p[i] != p[j]
    requires forall i | 0 <= i < |p| :: p[i] in u
    ensures |p| <= |u|
    decreases |p|
  {
    if p != [] {
      var n := |p| - 1;
      NoRepeatsBound(p[..n], u - {p[n]});
    }
  }

  /** The handler of the last thread of a path is not on the path. */
  lemma NextIsNew(s: State, p: seq<ThreadId>, h: ThreadId)
    requires Acyclic(s) && p != [] && Path(s, p) && HeldBy(s, p[|p| - 1], h)
    ensures h !in p && Path(s, p + [h])
  {
    forall i | 0 <= i < |p|
      ensures p[i] != h
    {
      var cycle := p[i..] + [h];
      forall j | 0 <= j < |cycle| - 1
        ensures HeldBy(s, cycle[j], cycle[j + 1])
      {
        assert cycle[j] == p[i + j];
        if j + 1 < |cycle| - 1 { assert HeldBy(s, p[i + j], p[i + j + 1]); }
      }
      assert Path(s, cycle);
    }
  }

  /** Extend a chain of waiting threads until it cannot be extended. */
  lemma {:induction false} ExtendChain(s: State, p: seq<ThreadId>) returns (q: seq<ThreadId>)
    requires s.current.Keys == s.thread.Keys && Acyclic(s) && p != [] && Simple(s, p)
    ensures p <= q && Simple(s, q) && !Held(s, q[|q| - 1])
    decreases |s.thread.Keys| - |p|
  {
    var last := p[|p| - 1];
    if !Held(s, last) { return p; }
    var h :| HeldBy(s, last, h);
    NextIsNew(s, p, h);
    NoRepeatsBound(p + [h], s.thread.Keys);
    q := ExtendChain(s, p + [h]);
  }

  /**
   * Following handlers from any waiting thread, in any reachable state, ends: at a
   * thread that can run, or one that waits on the endpoint.
   */
  lemma WaitChainEnds(threads: set<ThreadId>, clients: set<ThreadId>, acts: seq<Act>, t: ThreadId)
    returns (q: seq<ThreadId>)
    requires clients <= threads && t in threads
    requires forall i | 0 <= i < |acts| :: acts[i].who in threads
    ensures Inv(Initial(threads, clients)) && Known(acts, Initial(threads, clients))
    ensures var s := Run(Initial(threads, clients), acts);
            && q != [] && q[0] == t && Simple(s, q)
            && q[|q| - 1] in s.thread
            && (s.thread[q[|q| - 1]] != Blocked || Queued(s, q[|q| - 1]))
  {
    InitialInv(threads, clients);
    InitialAcyclic(threads, clients);
    RunIsAcyclic(Initial(threads, clients), acts);
    var s := Run(Initial(threads, clients), acts);
    q := ExtendChain(s, [t]);
  }
}
