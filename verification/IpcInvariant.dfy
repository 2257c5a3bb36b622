/** Every step keeps the inductive invariant, and no step reaches a panic. */
module IpcInvariant {
  import opened Options
  import opened IpcState

  /** Appending a waiter changes who is queued by exactly that thread. */
  lemma {:induction false} Pushed(q: seq<QueueEntry>, e: QueueEntry)
    ensures Threads(q + [e]) == Threads(q) + {e.thread}
    ensures forall k :: Waiting(q + [e], k)
                        == Waiting(q, k) + (if e.kind == k then {e.thread} else {})
    ensures Distinct(q) && e.thread !in Threads(q) ==> Distinct(q + [e])
    decreases |q|
  {
    if q == [] {
      assert q + [e] == [e];
      assert [e][1..] == [];
    } else {
      Pushed(q[1..], e);
      assert (q + [e])[1..] == q[1..] + [e];
    }
  }

  /** Taking the head changes who is queued by exactly that thread. */
  lemma Popped(q: seq<QueueEntry>)
    requires q != [] && Distinct(q)
    ensures Threads(q[1..]) == Threads(q) - {q[0].thread} && q[0].thread in Threads(q)
    ensures forall k :: Waiting(q[1..], k) == Waiting(q, k) - {q[0].thread}
    ensures q[0].thread in Waiting(q, q[0].kind)
    ensures forall k :: k != q[0].kind ==> q[0].thread !in Waiting(q, k)
  {
    forall k
      ensures q[0].thread !in Threads(q[1..]) && q[0].thread !in Waiting(q[1..], k)
    {
      ThreadsMeaning(q[1..], q[0].thread, k);
    }
  }

  lemma KindsAreQueued(q: seq<QueueEntry>)
    ensures forall k :: Waiting(q, k) <= Threads(q)
  {
    forall k, t
      ensures t in Waiting(q, k) ==> t in Threads(q)
    {
      ThreadsMeaning(q, t, k);
    }
  }

  /** The part of the invariant about the queue. */
  ghost predicate QueueSide(s: State)
  {
    WellTyped(s) && EndpointFits(s) && Distinct(s.queue) && WaitersFit(s)
  }

  /** The part about blocked threads and calls. */
  ghost predicate CallSide(s: State)
    requires WellTyped(s)
  {
    BlockedForOneReason(s) && OneHandlerEach(s) && RepliesMatchCalls(s) && AtMostOneRunning(s)
  }

  lemma Sides(s: State)
    requires QueueSide(s) && CallSide(s)
    ensures Inv(s)
  {
  }

  /** Who handles whose call depends on `current` only. */
  lemma SameHandlers(s: State, s': State)
    requires s'.current == s.current
    ensures forall c, h :: HeldBy(s', c, h) <==> HeldBy(s, c, h)
    ensures forall c :: Held(s', c) <==> Held(s, c)
  {
    assert forall c, h :: HeldBy(s', c, h) <==> HeldBy(s, c, h);
  }

  /** A thread that joins the queue is blocked for that reason. */
  lemma JoinKeeps(s: State, s': State, who: ThreadId, kind: WaitKind)
    requires Inv(s) && who in s.thread && s.thread[who] != Blocked && s'.current == s.current && WellTyped(s')
    requires s'.queue == s.queue + [QueueEntry(who, kind)] && s'.thread == s.thread[who := Blocked]
    ensures Distinct(s'.queue) && OneHandlerEach(s') && AtMostOneRunning(s') && BlockedForOneReason(s')
  {
    SameHandlers(s, s');
    Pushed(s.queue, QueueEntry(who, kind));
  }

  /** A waiter that leaves the queue and becomes ready has no reason left to be blocked. */
  lemma LeaveKeeps(s: State, s': State)
    requires Inv(s) && s.queue != [] && s'.current == s.current && WellTyped(s')
    requires s'.queue == s.queue[1..] && s'.thread == s.thread[s.queue[0].thread := Ready]
    ensures Distinct(s'.queue) && OneHandlerEach(s') && AtMostOneRunning(s') && BlockedForOneReason(s')
  {
    SameHandlers(s, s');
    Popped(s.queue);
  }

  lemma SendFastKeepsInv(s: State, who: ThreadId)
    requires Inv(s) && who in s.thread && s.thread[who] != Blocked && s.endpoint == HasReceiver
    ensures var r := StepSend(s, who); r.Ok? && Inv(r.next)
  {
    var s' := StepSend(s, who).next;
    Popped(s.queue);
    LeaveKeeps(s, s');
    SameHandlers(s, s');
  }

  lemma SendSlowKeepsInv(s: State, who: ThreadId)
    requires Inv(s) && who in s.thread && s.thread[who] != Blocked && s.endpoint != HasReceiver
    ensures var r := StepSend(s, who); r.Ok? && Inv(r.next)
  {
    var s' := StepSend(s, who).next;
    Pushed(s.queue, QueueEntry(who, Send));
    JoinKeeps(s, s', who, Send);
    SameHandlers(s, s');
  }

  lemma ReceiveKeepsInv(s: State, who: ThreadId)
    requires Inv(s) && who in s.thread && s.thread[who] != Blocked
    ensures var r := StepReceive(s, who); !r.Panic? && (r.Ok? ==> Inv(r.next))
  {
    if s.current[who].None? {
      match s.endpoint
      case HasReceiver =>
      case HasWaiters =>
        if s.queue[0].kind == Call { ReceiveCallKeepsInv(s, who); } else { ReceiveSendKeepsInv(s, who); }
      case Idle => ReceiveIdleKeepsInv(s, who);
    }
  }

  lemma ReceiveIdleKeepsInv(s: State, who: ThreadId)
    requires Inv(s) && who in s.thread && s.thread[who] != Blocked && s.current[who].None? && s.endpoint == Idle
    ensures var r := StepReceive(s, who); r.Ok? && Inv(r.next)
  {
    var s' := StepReceive(s, who).next;
    Pushed(s.queue, QueueEntry(who, Receive));
    JoinKeeps(s, s', who, Receive);
    SameHandlers(s, s');
  }

  lemma ReceiveSendKeepsInv(s: State, who: ThreadId)
    requires Inv(s) && who in s.thread && s.thread[who] != Blocked
    requires s.current[who].None? && s.endpoint == HasWaiters && s.queue[0].kind != Call
    ensures var r := StepReceive(s, who); r.Ok? && Inv(r.next)
  {
    Popped(s.queue);
    var s' := StepReceive(s, who).next;
    LeaveKeeps(s, s');
    SameHandlers(s, s');
  }

  lemma ReceiveCallKeepsQueue(s: State, who: ThreadId)
    requires QueueSide(s) && who in s.thread
    requires s.current[who].None? && s.endpoint == HasWaiters && s.queue[0].kind == Call
    ensures var r := StepReceive(s, who); r.Ok? && QueueSide(r.next)
  {
    Popped(s.queue);
  }

  lemma ReceiveCallKeepsBlocked(s: State, who: ThreadId)
    requires Inv(s) && who in s.thread && s.thread[who] != Blocked
    requires s.current[who].None? && s.endpoint == HasWaiters && s.queue[0].kind == Call
    requires StepReceive(s, who).Ok? && WellTyped(StepReceive(s, who).next)
    ensures var s' := StepReceive(s, who).next; BlockedForOneReason(s') && OneHandlerEach(s') && AtMostOneRunning(s')
  {
    Popped(s.queue);
    HandOver(s, StepReceive(s, who).next, s.queue[0].thread, who);
  }

  lemma ReceiveCallKeepsReplies(s: State, who: ThreadId)
    requires Inv(s) && who in s.thread && s.thread[who] != Blocked
    requires s.current[who].None? && s.endpoint == HasWaiters && s.queue[0].kind == Call
    requires StepReceive(s, who).Ok?
    ensures RepliesMatchCalls(StepReceive(s, who).next)
  {
    Popped(s.queue);
    HandOver(s, StepReceive(s, who).next, s.queue[0].thread, who);
  }

  lemma ReceiveCallKeepsInv(s: State, who: ThreadId)
    requires Inv(s) && who in s.thread && s.thread[who] != Blocked
    requires s.current[who].None? && s.endpoint == HasWaiters && s.queue[0].kind == Call
    ensures var r := StepReceive(s, who); r.Ok? && Inv(r.next)
  {
    ReceiveCallKeepsQueue(s, who);
    ReceiveCallKeepsBlocked(s, who);
    ReceiveCallKeepsReplies(s, who);
    Sides(StepReceive(s, who).next);
  }

  /** Recording one more handled call on a thread that had none. */
  lemma HandOver(s: State, s': State, c: ThreadId, h: ThreadId)
    requires h in s.current && s.current[h].None? && s'.current == s.current[h := Some(c)]
    ensures forall d, g :: HeldBy(s', d, g) <==> HeldBy(s, d, g) || (d == c && g == h)
    ensures forall d :: Held(s', d) <==> Held(s, d) || d == c
  {
    assert forall d, g :: HeldBy(s', d, g) <==> HeldBy(s, d, g) || (d == c && g == h);
    forall d
      ensures Held(s', d) <==> Held(s, d) || d == c
    {
      if Held(s, d) {
        var g :| HeldBy(s, d, g);
        assert HeldBy(s', d, g);
      }
      if d == c { assert HeldBy(s', d, h); }
    }
  }

  lemma CallFastKeepsQueue(s: State, who: ThreadId)
    requires QueueSide(s) && who in s.thread && s.endpoint == HasReceiver
    requires who in s.reply && s.reply[who] == Fresh
    ensures var r := StepCall(s, who); r.Ok? && QueueSide(r.next)
  {
    Popped(s.queue);
  }

  lemma CallFastKeepsReplies(s: State, who: ThreadId)
    requires Inv(s) && who in s.thread && s.thread[who] != Blocked && s.endpoint == HasReceiver
    requires who in s.reply && s.reply[who] == Fresh
    ensures var r := StepCall(s, who); r.Ok? && RepliesMatchCalls(r.next)
  {
    Popped(s.queue);
    HandOver(s, StepCall(s, who).next, who, s.queue[0].thread);
  }

  lemma CallFastKeepsBlocked(s: State, who: ThreadId)
    requires Inv(s) && who in s.thread && s.thread[who] != Blocked && s.endpoint == HasReceiver
    requires who in s.reply && s.reply[who] == Fresh && StepCall(s, who).Ok? && WellTyped(StepCall(s, who).next)
    ensures var s' := StepCall(s, who).next; BlockedForOneReason(s') && OneHandlerEach(s') && AtMostOneRunning(s')
  {
    Popped(s.queue);
    HandOver(s, StepCall(s, who).next, who, s.queue[0].thread);
  }

  lemma CallFastKeepsInv(s: State, who: ThreadId)
    requires Inv(s) && who in s.thread && s.thread[who] != Blocked && s.endpoint == HasReceiver
    requires who in s.reply && s.reply[who] == Fresh
    ensures var r := StepCall(s, who); r.Ok? && Inv(r.next)
  {
    CallFastKeepsQueue(s, who);
    CallFastKeepsReplies(s, who);
    CallFastKeepsBlocked(s, who);
    Sides(StepCall(s, who).next);
  }

  lemma CallSlowKeepsQueue(s: State, who: ThreadId)
    requires QueueSide(s) && who in s.thread && who !in Threads(s.queue) && s.endpoint != HasReceiver
    requires who in s.reply && s.reply[who] == Fresh
    ensures var r := StepCall(s, who); r.Ok? && QueueSide(r.next)
  {
    Pushed(s.queue, QueueEntry(who, Call));
  }

  lemma CallSlowKeepsReplies(s: State, who: ThreadId)
    requires Inv(s) && who in s.thread && s.thread[who] != Blocked && s.endpoint != HasReceiver
    requires who in s.reply && s.reply[who] == Fresh
    ensures var r := StepCall(s, who); r.Ok? && RepliesMatchCalls(r.next)
  {
    SameHandlers(s, StepCall(s, who).next);
    Pushed(s.queue, QueueEntry(who, Call));
  }

  lemma CallSlowKeepsInv(s: State, who: ThreadId)
    requires Inv(s) && who in s.thread && s.thread[who] != Blocked && s.endpoint != HasReceiver
    requires who in s.reply && s.reply[who] == Fresh
    ensures var r := StepCall(s, who); r.Ok? && Inv(r.next)
  {
    assert !Queued(s, who);
    CallSlowKeepsQueue(s, who);
    CallSlowKeepsReplies(s, who);
    JoinKeeps(s, StepCall(s, who).next, who, Call);
    Sides(StepCall(s, who).next);
  }

  lemma ReplyKeepsQueue(s: State, who: ThreadId)
    requires QueueSide(s) && who in s.thread && s.current[who].Some?
    requires s.reply[s.current[who].value] == Bound(s.current[who].value)
    ensures var r := StepReply(s, who); r.Ok? && QueueSide(r.next)
  {
  }

  lemma ReplyKeepsReplies(s: State, who: ThreadId)
    requires Inv(s) && who in s.thread && s.thread[who] != Blocked && s.current[who].Some?
    ensures var r := StepReply(s, who); r.Ok? && RepliesMatchCalls(r.next)
  {
    var c := s.current[who].value;
    assert HeldBy(s, c, who);
    HandBack(s, StepReply(s, who).next, c, who);
    KindsAreQueued(s.queue);
  }

  lemma ReplyKeepsBlocked(s: State, who: ThreadId)
    requires Inv(s) && who in s.thread && s.thread[who] != Blocked && s.current[who].Some?
    requires StepReply(s, who).Ok? && WellTyped(StepReply(s, who).next)
    ensures var s' := StepReply(s, who).next; BlockedForOneReason(s') && OneHandlerEach(s') && AtMostOneRunning(s')
  {
    var c := s.current[who].value;
    assert HeldBy(s, c, who);
    HandBack(s, StepReply(s, who).next, c, who);
  }

  lemma ReplyKeepsInv(s: State, who: ThreadId)
    requires Inv(s) && who in s.thread && s.thread[who] != Blocked && s.current[who].Some?
    ensures var r := StepReply(s, who); r.Ok? && Inv(r.next)
  {
    assert HeldBy(s, s.current[who].value, who);
    ReplyKeepsQueue(s, who);
    ReplyKeepsReplies(s, who);
    ReplyKeepsBlocked(s, who);
    Sides(StepReply(s, who).next);
  }

  lemma HandBack(s: State, s': State, c: ThreadId, h: ThreadId)
    requires OneHandlerEach(s) && HeldBy(s, c, h) && s'.current == s.current[h := None]
    ensures forall d, g :: HeldBy(s', d, g) <==> HeldBy(s, d, g) && g != h
    ensures forall d :: Held(s', d) <==> Held(s, d) && d != c
  {
    assert forall d, g :: HeldBy(s', d, g) <==> HeldBy(s, d, g) && g != h;
    forall d
      ensures Held(s', d) <==> Held(s, d) && d != c
    {
      if Held(s, d) && d != c {
        var g :| HeldBy(s, d, g);
        assert HeldBy(s', d, g);
      }
    }
  }

  /** From an invariant state no step panics, and a step that succeeds keeps the invariant. */
  lemma StepKeepsInv(s: State, who: ThreadId, op: IpcOp)
    requires Inv(s) && who in s.thread
    ensures !Step(s, who, op).Panic?
    ensures Step(s, who, op).Ok? ==> Inv(Step(s, who, op).next)
  {
    if s.thread[who] != Blocked {
      match op
      case OpSend =>
        if s.endpoint == HasReceiver { SendFastKeepsInv(s, who); } else { SendSlowKeepsInv(s, who); }
      case OpReceive => ReceiveKeepsInv(s, who);
      case OpCall =>
        if who in s.reply && s.reply[who] == Fresh {
          if s.endpoint == HasReceiver { CallFastKeepsInv(s, who); } else { CallSlowKeepsInv(s, who); }
        }
      case OpReply =>
        if s.current[who].Some? { ReplyKeepsInv(s, who); }
    }
  }

  /** What a step needs to know of the queue: its actor does not wait, nor does whoever it handles. */
  ghost predicate MayAct(s: State, who: ThreadId)
  {
    && WellTyped(s) && who in s.thread
    && who !in Threads(s.queue)
    && (s.endpoint == HasReceiver ==> |s.queue| == 1 && s.queue[0].kind == Receive
                                      && s.queue[0].thread in s.current
                                      && s.current[s.queue[0].thread] == None)
    && (s.endpoint == HasWaiters ==> s.queue != [] && s.queue[0].kind != Receive)
    && (forall c | HeldBy(s, c, who) :: c !in Threads(s.queue))
  }

  lemma ActorMayAct(s: State, who: ThreadId)
    requires Inv(s) && who in s.thread && s.thread[who] != Blocked
    ensures MayAct(s, who)
  {
    assert !Queued(s, who);
    if s.endpoint != Idle { Popped(s.queue); }
    forall c | HeldBy(s, c, who)
      ensures c !in Threads(s.queue)
    {
      assert Held(s, c) && c in s.thread;
      assert !Queued(s, c);
    }
  }
}
