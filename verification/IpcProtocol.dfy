/** Whole-run laws: message delivery, the life of a call, and the decision functions. */
module IpcDelivery {
  import opened Options
  import opened IpcState
  import opened IpcInvariant
  import opened IpcRuns
  import opened IpcEffects

  /** An attempt that carries a message. */
  datatype MsgAct = MsgAct(who: ThreadId, op: IpcOp, msg: Msg)

  /** The system with its message slots and the logs of what was sent and received. */
  datatype System = System(s: State, slot: map<ThreadId, Msg>, sent: seq<Delivery>, got: seq<Delivery>)

  /** The messages of the senders and callers that still wait, in queue order. */
  function Pending(q: seq<QueueEntry>, slot: map<ThreadId, Msg>): seq<Delivery>
    requires Threads(q) <= slot.Keys
  {
    if q == [] then []
    else (if q[0].kind == Receive then [] else [Delivery(q[0].thread, slot[q[0].thread])])
         + Pending(q[1..], slot)
  }

  lemma {:induction false} PendingPush(q: seq<QueueEntry>, slot: map<ThreadId, Msg>, e: QueueEntry)
    requires Threads(q) <= slot.Keys && Threads(q + [e]) <= slot.Keys && e.thread in slot
    ensures Pending(q + [e], slot)
            == Pending(q, slot) + (if e.kind == Receive then [] else [Delivery(e.thread, slot[e.thread])])
    decreases |q|
  {
    if q == [] {
      assert (q + [e])[1..] == [];
    } else {
      var all := q + [e];
      assert all[1..] == q[1..] + [e] && all[0] == q[0];
      PendingPush(q[1..], slot, e);
      var head := if q[0].kind == Receive then [] else [Delivery(q[0].thread, slot[q[0].thread])];
      var tail := if e.kind == Receive then [] else [Delivery(e.thread, slot[e.thread])];
      calc {
        Pending(all, slot);
        head + Pending(all[1..], slot);
        head + (Pending(q[1..], slot) + tail);
        (head + Pending(q[1..], slot)) + tail;
        Pending(q, slot) + tail;
      }
    }
  }

  /** A slot of a thread that does not wait is not pending. */
  lemma {:induction false} PendingFrame(q: seq<QueueEntry>, slot: map<ThreadId, Msg>, t: ThreadId, m: Msg)
    requires Threads(q) <= slot.Keys && t !in Threads(q)
    ensures Threads(q) <= slot[t := m].Keys && Pending(q, slot[t := m]) == Pending(q, slot)
    decreases |q|
  {
    if q != [] { PendingFrame(q[1..], slot, t, m); }
  }

  lemma {:induction false} NothingPending(q: seq<QueueEntry>, slot: map<ThreadId, Msg>)
    requires Threads(q) <= slot.Keys
    requires |q| == 1 && q[0].kind == Receive
    ensures Pending(q, slot) == []
  {
    assert q[1..] == [];
  }

  function SentBy(a: MsgAct): seq<Delivery>
  {
    if a.op == OpSend || a.op == OpCall then [Delivery(a.who, a.msg)] else []
  }

  /** What was pending or is sent now is received now or pending afterwards. */
  ghost predicate Balanced(s: State, slot: map<ThreadId, Msg>, a: MsgAct)
    requires WellTyped(s) && slot.Keys == s.thread.Keys && a.who in s.thread
    requires Step(s, a.who, a.op).Ok?
  {
    var x := After(s, slot, a.who, a.op, a.msg);
    && x.slot.Keys == slot.Keys
    && Threads(x.s.queue) <= x.slot.Keys
    && Pending(s.queue, slot) + SentBy(a) == x.delivered + Pending(x.s.queue, x.slot)
  }

  lemma SendFastBalance(s: State, slot: map<ThreadId, Msg>, a: MsgAct)
    requires MayAct(s, a.who) && slot.Keys == s.thread.Keys && s.endpoint == HasReceiver
    requires (a.op == OpSend || a.op == OpCall) && Step(s, a.who, a.op).Ok?
    ensures Balanced(s, slot, a)
  {
    var x := After(s, slot, a.who, a.op, a.msg);
    if a.op == OpSend { SendMachine(s, slot, a.who, a.msg); } else { CallMachine(s, slot, a.who, a.msg); }
    NothingPending(s.queue, slot);
    assert s.queue[0].thread in Threads(s.queue);
    assert x.s.queue == [];
  }

  lemma SendSlowBalance(s: State, slot: map<ThreadId, Msg>, a: MsgAct)
    requires MayAct(s, a.who) && slot.Keys == s.thread.Keys && s.endpoint != HasReceiver
    requires (a.op == OpSend || a.op == OpCall) && Step(s, a.who, a.op).Ok?
    ensures Balanced(s, slot, a)
  {
    var x := After(s, slot, a.who, a.op, a.msg);
    if a.op == OpSend { SendMachine(s, slot, a.who, a.msg); } else { CallMachine(s, slot, a.who, a.msg); }
    var e := QueueEntry(a.who, if a.op == OpSend then Send else Call);
    assert x.s.queue == s.queue + [e];
    Pushed(s.queue, e);
    PendingFrame(s.queue, slot, a.who, a.msg);
    PendingPush(s.queue, x.slot, e);
  }

  lemma SendBalance(s: State, slot: map<ThreadId, Msg>, a: MsgAct)
    requires MayAct(s, a.who) && slot.Keys == s.thread.Keys
    requires (a.op == OpSend || a.op == OpCall) && Step(s, a.who, a.op).Ok?
    ensures Balanced(s, slot, a)
  {
    if s.endpoint == HasReceiver { SendFastBalance(s, slot, a); } else { SendSlowBalance(s, slot, a); }
  }

  lemma ReceiveBalance(s: State, slot: map<ThreadId, Msg>, a: MsgAct)
    requires MayAct(s, a.who) && slot.Keys == s.thread.Keys
    requires a.op == OpReceive && Step(s, a.who, a.op).Ok?
    ensures Balanced(s, slot, a)
  {
    var x := After(s, slot, a.who, a.op, a.msg);
    ReceiveMachine(s, slot, a.who, a.msg);
    if s.endpoint == HasWaiters {
      assert x.s.queue == s.queue[1..];
    } else {
      var e := QueueEntry(a.who, Receive);
      assert x.s.queue == s.queue + [e];
      Pushed(s.queue, e);
      PendingPush(s.queue, slot, e);
    }
  }

  /** ... and the caller wakes with exactly the message of the thread that handled it. */
  lemma ReplyBalance(s: State, slot: map<ThreadId, Msg>, a: MsgAct)
    requires MayAct(s, a.who) && slot.Keys == s.thread.Keys
    requires a.op == OpReply && Step(s, a.who, a.op).Ok?
    ensures Balanced(s, slot, a)
    ensures var x := After(s, slot, a.who, a.op, a.msg);
            var c := s.current[a.who];
            c.Some? && x.slot == slot[c.value := a.msg] && x.s.thread == s.thread[c.value := Ready]
  {
    ReplyMachine(s, slot, a.who, a.msg);
    var c := s.current[a.who].value;
    assert HeldBy(s, c, a.who);
    PendingFrame(s.queue, slot, c, a.msg);
  }

  lemma StepBalance(s: State, slot: map<ThreadId, Msg>, a: MsgAct)
    requires Inv(s) && slot.Keys == s.thread.Keys && a.who in s.thread
    requires Step(s, a.who, a.op).Ok?
    ensures Balanced(s, slot, a)
  {
    ActorMayAct(s, a.who);
    match a.op
    case OpSend => SendBalance(s, slot, a);
    case OpCall => SendBalance(s, slot, a);
    case OpReceive => ReceiveBalance(s, slot, a);
    case OpReply => ReplyBalance(s, slot, a);
  }

  ghost predicate Good(y: System)
  {
    && Inv(y.s)
    && y.slot.Keys == y.s.thread.Keys
    && y.sent == y.got + Pending(y.s.queue, y.slot)
  }

  /** One attempt: its effects are executed, and both logs grow. */
  ghost function Tick(y: System, a: MsgAct): System
    requires Inv(y.s) && y.slot.Keys == y.s.thread.Keys && a.who in y.s.thread
  {
    if !Step(y.s, a.who, a.op).Ok? then y
    else
      var x := After(y.s, y.slot, a.who, a.op, a.msg);
      System(x.s, x.slot, y.sent + SentBy(a), y.got + x.delivered)
  }

  lemma TickKeepsGood(y: System, a: MsgAct)
    requires Good(y) && a.who in y.s.thread
    ensures Good(Tick(y, a)) && Tick(y, a).s.thread.Keys == y.s.thread.Keys
  {
    if Step(y.s, a.who, a.op).Ok? {
      StepKeepsInv(y.s, a.who, a.op);
      StepKeepsNames(y.s, a.who, a.op);
      EffectsGiveNext(y.s, y.slot, a.who, a.op, a.msg);
      StepBalance(y.s, y.slot, a);
      var x := After(y.s, y.slot, a.who, a.op, a.msg);
      Regroup(y.sent, y.got, Pending(y.s.queue, y.slot), SentBy(a), x.delivered, Pending(x.s.queue, x.slot));
    }
  }

  lemma Regroup(sent: seq<Delivery>, got: seq<Delivery>, p: seq<Delivery>,
                sentNow: seq<Delivery>, gotNow: seq<Delivery>, p': seq<Delivery>)
    requires sent == got + p && p + sentNow == gotNow + p'
    ensures sent + sentNow == got + gotNow + p'
  {
    assert sent + sentNow == got + (p + sentNow);
  }

  ghost function Ticks(y: System, acts: seq<MsgAct>): (z: System)
    requires Good(y)
    requires forall i | 0 <= i < |acts| :: acts[i].who in y.s.thread
    ensures Good(z) && z.s.thread.Keys == y.s.thread.Keys
    decreases |acts|
  {
    if acts == [] then y
    else
      var last := |acts| - 1;
      var z := Ticks(y, acts[..last]);
      TickKeepsGood(z, acts[last]);
      Tick(z, acts[last])
  }

  /**
   * Messages are delivered exactly once, unchanged and in the order they were sent:
   * in every reachable state the receive log is a prefix of the send log, and what
   * remains is exactly what the queued senders and callers hold.
   */
  lemma DeliveredInOrder(threads: set<ThreadId>, clients: set<ThreadId>, slot: map<ThreadId, Msg>,
                         acts: seq<MsgAct>)
    requires clients <= threads && slot.Keys == threads
    requires forall i | 0 <= i < |acts| :: acts[i].who in threads
    ensures var y0 := System(Initial(threads, clients), slot, [], []);
            && Good(y0) && (forall i | 0 <= i < |acts| :: acts[i].who in y0.s.thread)
            && var y := Ticks(y0, acts);
               && Threads(y.s.queue) <= y.slot.Keys
               && y.got <= y.sent
               && y.sent[|y.got|..] == Pending(y.s.queue, y.slot)
  {
    InitialInv(threads, clients);
    var y0 := System(Initial(threads, clients), slot, [], []);
    assert y0.s.thread.Keys == threads;
    assert Good(y0);
    var y := Ticks(y0, acts);
    assert y.sent == y.got + Pending(y.s.queue, y.slot);
  }
}

/** The life of one client's calls, read off the effects of a whole run. */
module IpcCalls {
  import opened IpcState
  import opened IpcInvariant
  import opened IpcRuns

  /** What the effects of one step say about client c. */
  datatype Event = Called | Handed(h: ThreadId) | Woken(actor: ThreadId) | Replied(actor: ThreadId)

  /** Where client c's call stands. */
  datatype Phase = NoCall | Waits | Handling(h: ThreadId) | Answered(h: ThreadId) | Wrong

  /** A call goes: called, handed to h, woken by h, replied by h. Anything else is Wrong. */
  function Next(p: Phase, e: Event): Phase
  {
    match (p, e)
    case (NoCall, Called) => Waits
    case (Waits, Handed(h)) => Handling(h)
    case (Handling(h), Woken(g)) => if g == h then Answered(h) else Wrong
    case (Answered(h), Replied(g)) => if g == h then NoCall else Wrong
    // outside a call, being woken ends a Send or a Receive
    case (NoCall, Woken(g)) => NoCall
    case _ => Wrong
  }

  /** What one effect says about client c. */
  function EventOf(e: IpcEffect, who: ThreadId, c: ThreadId): seq<Event>
  {
    match e
    case BindReply(d) => if d == c then [Called] else []
    case SetCurrentReply(h, d) => if d == c then [Handed(h)] else []
    case UnblockThread(d) => if d == c then [Woken(who)] else []
    case ClearReply(d) => if d == c then [Replied(who)] else []
    case _ => []
  }

  /** The events of an effect list that concern client c. */
  function EventsOf(es: seq<IpcEffect>, who: ThreadId, c: ThreadId): seq<Event>
  {
    if es == [] then [] else EventOf(es[0], who, c) + EventsOf(es[1..], who, c)
  }

  function Advance(p: Phase, es: seq<Event>): Phase
    decreases |es|
  {
    if es == [] then p else Advance(Next(p, es[0]), es[1..])
  }

  lemma {:induction false} AdvanceSplit(p: Phase, a: seq<Event>, b: seq<Event>)
    ensures Advance(p, a + b) == Advance(Advance(p, a), b)
    decreases |a|
  {
    if a == [] {
      assert a + b == b;
    } else {
      assert (a + b)[1..] == a[1..] + b;
      AdvanceSplit(Next(p, a[0]), a[1..], b);
    }
  }

  /** The phase that the state shows. */
  ghost predicate Shows(s: State, c: ThreadId, p: Phase)
    requires c in s.reply
  {
    match p
    case NoCall => s.reply[c] == Fresh
    case Waits => QueuedAs(s, c, Call)
    case Handling(h) => HeldBy(s, c, h)
    case _ => false
  }

  /** The events of one attempt. */
  ghost function EventsOfAct(s: State, a: Act, c: ThreadId): seq<Event>
    requires Inv(s) && a.who in s.thread
  {
    if Step(s, a.who, a.op).Ok? then EventsOf(Step(s, a.who, a.op).effects, a.who, c) else []
  }

  ghost function EventsOfRun(s: State, acts: seq<Act>, c: ThreadId): seq<Event>
    requires Inv(s) && Known(acts, s)
    decreases |acts|
  {
    if acts == [] then []
    else
      var last := |acts| - 1;
      EventsOfRun(s, acts[..last], c) + EventsOfAct(Run(s, acts[..last]), acts[last], c)
  }

  // ----- the events of each path -----

  lemma {:induction false} EventsConcat(a: seq<IpcEffect>, b: seq<IpcEffect>, who: ThreadId, c: ThreadId)
    ensures EventsOf(a + b, who, c) == EventsOf(a, who, c) + EventsOf(b, who, c)
    decreases |a|
  {
    if a == [] {
      assert a + b == b;
    } else {
      EventsConcat(a[1..], b, who, c);
      assert (a + b)[1..] == a[1..] + b && (a + b)[0] == a[0];
      var x, y, z := EventOf(a[0], who, c), EventsOf(a[1..], who, c), EventsOf(b, who, c);
      assert x + (y + z) == (x + y) + z;
    }
  }

  lemma Events1(e: IpcEffect, who: ThreadId, c: ThreadId)
    ensures EventsOf([e], who, c) == EventOf(e, who, c)
  {
    assert [e][1..] == [];
  }

  lemma Events2(e: IpcEffect, f: IpcEffect, who: ThreadId, c: ThreadId)
    ensures EventsOf([e, f], who, c) == EventOf(e, who, c) + EventOf(f, who, c)
  {
    assert [e, f] == [e] + [f];
    EventsConcat([e], [f], who, c);
    Events1(e, who, c);
    Events1(f, who, c);
  }

  lemma Events4(e: IpcEffect, f: IpcEffect, g: IpcEffect, h: IpcEffect, who: ThreadId, c: ThreadId)
    ensures EventsOf([e, f, g, h], who, c)
            == EventOf(e, who, c) + EventOf(f, who, c) + (EventOf(g, who, c) + EventOf(h, who, c))
  {
    assert [e, f, g, h] == [e, f] + [g, h];
    EventsConcat([e, f], [g, h], who, c);
    Events2(e, f, who, c);
    Events2(g, h, who, c);
  }

  lemma SendEvents(s: State, who: ThreadId, c: ThreadId)
    requires WellTyped(s) && who in s.thread && Step(s, who, OpSend).Ok?
    ensures EventsOf(Step(s, who, OpSend).effects, who, c)
            == if s.endpoint == HasReceiver && c == s.queue[0].thread then [Woken(who)] else []
  {
    if s.endpoint == HasReceiver {
      Events4(DequeueHead, WriteMsgToBlockedReceiver, UnblockThread(s.queue[0].thread),
              SetEndpointState(Idle), who, c);
    } else {
      BlockTailEvents(s.endpoint, who, c);
      EventsConcat([StoreMsgInOwnTcb, EnqueueSelfAs(Send)], BlockTail(s.endpoint), who, c);
      Events2(StoreMsgInOwnTcb, EnqueueSelfAs(Send), who, c);
      assert Step(s, who, OpSend).effects
          == [StoreMsgInOwnTcb, EnqueueSelfAs(Send)] + BlockTail(s.endpoint);
    }
  }

  function BlockTail(ep: EpState): seq<IpcEffect>
  {
    (if ep == Idle then [SetEndpointState(HasWaiters)] else []) + [BlockCurrent]
  }

  lemma BlockTailEvents(ep: EpState, who: ThreadId, c: ThreadId)
    ensures EventsOf(BlockTail(ep), who, c) == []
  {
    Events1(BlockCurrent, who, c);
    Events2(SetEndpointState(HasWaiters), BlockCurrent, who, c);
    assert BlockTail(ep) == if ep == Idle then [SetEndpointState(HasWaiters), BlockCurrent] else [BlockCurrent];
  }

  /** A receiver takes the head: e wakes it or hands its call over. */
  lemma TakeEvents(e: IpcEffect, last: seq<IpcEffect>, who: ThreadId, c: ThreadId)
    requires last == [] || last == [SetEndpointState(Idle)]
    ensures EventsOf([DequeueHead, TakeMsgFromDequeuedHead, e] + last, who, c) == EventOf(e, who, c)
  {
    Events2(DequeueHead, TakeMsgFromDequeuedHead, who, c);
    Events1(SetEndpointState(Idle), who, c);
    Events1(e, who, c);
    EventsConcat([DequeueHead, TakeMsgFromDequeuedHead], [e], who, c);
    assert [DequeueHead, TakeMsgFromDequeuedHead, e] == [DequeueHead, TakeMsgFromDequeuedHead] + [e];
    EventsConcat([DequeueHead, TakeMsgFromDequeuedHead, e], last, who, c);
  }

  lemma ReceiveSlowEvents(who: ThreadId, c: ThreadId)
    ensures EventsOf([EnqueueSelfAs(Receive), SetEndpointState(HasReceiver), BlockCurrent], who, c) == []
  {
    var es := [EnqueueSelfAs(Receive), SetEndpointState(HasReceiver), BlockCurrent];
    Events2(EnqueueSelfAs(Receive), SetEndpointState(HasReceiver), who, c);
    Events1(BlockCurrent, who, c);
    EventsConcat([EnqueueSelfAs(Receive), SetEndpointState(HasReceiver)], [BlockCurrent], who, c);
    assert es == [EnqueueSelfAs(Receive), SetEndpointState(HasReceiver)] + [BlockCurrent];
  }

  lemma ReceiveEvents(s: State, who: ThreadId, c: ThreadId)
    requires WellTyped(s) && who in s.thread && Step(s, who, OpReceive).Ok?
    ensures EventsOf(Step(s, who, OpReceive).effects, who, c)
            == if s.endpoint == HasWaiters && c == s.queue[0].thread
               then (if s.queue[0].kind == Send then [Woken(who)] else [Handed(who)])
               else []
  {
    if s.endpoint == HasWaiters {
      var t := s.queue[0].thread;
      var e := if s.queue[0].kind == Send then UnblockThread(t) else SetCurrentReply(who, t);
      TakeEvents(e, if s.queue[1..] == [] then [SetEndpointState(Idle)] else [], who, c);
    } else {
      ReceiveSlowEvents(who, c);
    }
  }

  lemma CallFastEvents(server: ThreadId, who: ThreadId, c: ThreadId)
    requires server != who
    ensures EventsOf([DequeueHead, BindReply(who), WriteMsgToBlockedReceiver, SetCurrentReply(server, who),
                      UnblockThread(server), SetEndpointState(Idle), BlockCurrent], who, c)
            == if c == who then [Called, Handed(server)] else if c == server then [Woken(who)] else []
  {
    var a := [DequeueHead, BindReply(who), WriteMsgToBlockedReceiver, SetCurrentReply(server, who)];
    var b := [UnblockThread(server), SetEndpointState(Idle)];
    Events4(DequeueHead, BindReply(who), WriteMsgToBlockedReceiver, SetCurrentReply(server, who), who, c);
    Events2(UnblockThread(server), SetEndpointState(Idle), who, c);
    Events1(BlockCurrent, who, c);
    EventsConcat(a, b, who, c);
    EventsConcat(a + b, [BlockCurrent], who, c);
    assert [DequeueHead, BindReply(who), WriteMsgToBlockedReceiver, SetCurrentReply(server, who),
            UnblockThread(server), SetEndpointState(Idle), BlockCurrent] == a + b + [BlockCurrent];
  }

  lemma CallSlowEvents(ep: EpState, who: ThreadId, c: ThreadId)
    ensures EventsOf([BindReply(who), StoreMsgInOwnTcb, EnqueueSelfAs(Call)] + BlockTail(ep), who, c)
            == if c == who then [Called] else []
  {
    var a, b := [BindReply(who), StoreMsgInOwnTcb], [EnqueueSelfAs(Call)];
    Events2(BindReply(who), StoreMsgInOwnTcb, who, c);
    Events1(EnqueueSelfAs(Call), who, c);
    BlockTailEvents(ep, who, c);
    EventsConcat(a, b, who, c);
    assert [BindReply(who), StoreMsgInOwnTcb, EnqueueSelfAs(Call)] == a + b;
    EventsConcat(a + b, BlockTail(ep), who, c);
  }

  lemma CallEvents(s: State, who: ThreadId, c: ThreadId)
    requires WellTyped(s) && who in s.thread && Step(s, who, OpCall).Ok?
    requires s.endpoint == HasReceiver ==> s.queue[0].thread != who
    ensures EventsOf(Step(s, who, OpCall).effects, who, c)
            == if c == who then (if s.endpoint == HasReceiver then [Called, Handed(s.queue[0].thread)] else [Called])
               else if s.endpoint == HasReceiver && c == s.queue[0].thread then [Woken(who)]
               else []
  {
    if s.endpoint == HasReceiver {
      CallFastEvents(s.queue[0].thread, who, c);
    } else {
      CallSlowEvents(s.endpoint, who, c);
      assert Step(s, who, OpCall).effects
          == [BindReply(who), StoreMsgInOwnTcb, EnqueueSelfAs(Call)] + BlockTail(s.endpoint);
    }
  }

  lemma AnswerEvents(d: ThreadId, who: ThreadId, c: ThreadId)
    ensures EventsOf([WriteMsgToBoundCaller, UnblockThread(d), ClearReply(d), ClearCurrentReply(who)], who, c)
            == if c == d then [Woken(who), Replied(who)] else []
  {
    Events4(WriteMsgToBoundCaller, UnblockThread(d), ClearReply(d), ClearCurrentReply(who), who, c);
  }

  lemma ReplyEvents(s: State, who: ThreadId, c: ThreadId)
    requires WellTyped(s) && who in s.thread && Step(s, who, OpReply).Ok?
    ensures EventsOf(Step(s, who, OpReply).effects, who, c)
            == if HeldBy(s, c, who) then [Woken(who), Replied(who)] else []
  {
    AnswerEvents(s.current[who].value, who, c);
  }

  // ----- one step of the protocol -----

  /** Advancing over no, one or two events. */
  lemma AdvanceShort(p: Phase, e: Event, f: Event)
    ensures Advance(p, []) == p
    ensures Advance(p, [e]) == Next(p, e)
    ensures Advance(p, [e, f]) == Next(Next(p, e), f)
  {
    assert [e][1..] == [] && [f][1..] == [] && [e, f][1..] == [f];
    assert Advance(Next(p, e), [f]) == Next(Next(p, e), f);
  }

  /** The phase that the state shows, with what the invariant adds. */
  ghost predicate Stands(s: State, c: ThreadId, p: Phase)
  {
    && WellTyped(s) && Distinct(s.queue) && c in s.reply
    && match p
       case NoCall => s.reply[c] == Fresh && !QueuedAs(s, c, Call) && !Held(s, c)
       case Waits => QueuedAs(s, c, Call) && Queued(s, c) && !Held(s, c)
       case Handling(h) => HeldBy(s, c, h) && !Queued(s, c) && s.reply[c] == Bound(c)
                           && forall g | HeldBy(s, c, g) :: g == h
       case _ => false
  }

  lemma ShowsStands(s: State, c: ThreadId, p: Phase)
    requires Inv(s) && c in s.reply && Shows(s, c, p)
    ensures Stands(s, c, p)
  {
    KindsAreQueued(s.queue);
  }

  lemma SendPhase(s: State, who: ThreadId, c: ThreadId, p: Phase)
    requires Stands(s, c, p) && MayAct(s, who)
    requires Step(s, who, OpSend).Ok?
    ensures var r := Step(s, who, OpSend);
            c in r.next.reply && Shows(r.next, c, Advance(p, EventsOf(r.effects, who, c)))
  {
    SendEvents(s, who, c);
    AdvanceShort(p, Woken(who), Called);
    if s.endpoint == HasReceiver { Popped(s.queue); } else { Pushed(s.queue, QueueEntry(who, Send)); }
    assert forall h :: HeldBy(Step(s, who, OpSend).next, c, h) <==> HeldBy(s, c, h);
  }

  lemma TakePhase(s: State, who: ThreadId, c: ThreadId, p: Phase)
    requires Stands(s, c, p) && MayAct(s, who)
    requires Step(s, who, OpReceive).Ok? && s.endpoint == HasWaiters
    ensures var r := Step(s, who, OpReceive);
            c in r.next.reply && Shows(r.next, c, Advance(p, EventsOf(r.effects, who, c)))
  {
    ReceiveEvents(s, who, c);
    AdvanceShort(p, Woken(who), Called);
    AdvanceShort(p, Handed(who), Called);
    Popped(s.queue);
    var s' := Step(s, who, OpReceive).next;
    assert forall h :: HeldBy(s, c, h) ==> HeldBy(s', c, h);
  }

  lemma ReceivePhase(s: State, who: ThreadId, c: ThreadId, p: Phase)
    requires Stands(s, c, p) && MayAct(s, who)
    requires Step(s, who, OpReceive).Ok?
    ensures var r := Step(s, who, OpReceive);
            c in r.next.reply && Shows(r.next, c, Advance(p, EventsOf(r.effects, who, c)))
  {
    if s.endpoint == HasWaiters {
      TakePhase(s, who, c, p);
    } else {
      ReceiveEvents(s, who, c);
      Pushed(s.queue, QueueEntry(who, Receive));
      assert forall h :: HeldBy(s, c, h) ==> HeldBy(Step(s, who, OpReceive).next, c, h);
    }
  }

  lemma CallFastPhase(s: State, who: ThreadId, c: ThreadId, p: Phase)
    requires Stands(s, c, p) && MayAct(s, who)
    requires Step(s, who, OpCall).Ok? && s.endpoint == HasReceiver
    ensures var r := Step(s, who, OpCall);
            c in r.next.reply && Shows(r.next, c, Advance(p, EventsOf(r.effects, who, c)))
  {
    var server := s.queue[0].thread;
    Popped(s.queue);
    CallEvents(s, who, c);
    var s' := Step(s, who, OpCall).next;
    if c == who {
      AdvanceShort(p, Called, Handed(server));
      assert p == NoCall && HeldBy(s', c, server);
    } else {
      AdvanceShort(p, Woken(who), Called);
      assert forall h :: HeldBy(s, c, h) ==> HeldBy(s', c, h);
    }
  }

  lemma CallPhase(s: State, who: ThreadId, c: ThreadId, p: Phase)
    requires Stands(s, c, p) && MayAct(s, who)
    requires Step(s, who, OpCall).Ok?
    ensures var r := Step(s, who, OpCall);
            c in r.next.reply && Shows(r.next, c, Advance(p, EventsOf(r.effects, who, c)))
  {
    if s.endpoint == HasReceiver {
      CallFastPhase(s, who, c, p);
    } else {
      Pushed(s.queue, QueueEntry(who, Call));
      CallEvents(s, who, c);
      AdvanceShort(p, Called, Called);
      assert forall h :: HeldBy(s, c, h) ==> HeldBy(Step(s, who, OpCall).next, c, h);
    }
  }

  lemma ReplyPhase(s: State, who: ThreadId, c: ThreadId, p: Phase)
    requires Stands(s, c, p) && MayAct(s, who)
    requires Step(s, who, OpReply).Ok?
    ensures var r := Step(s, who, OpReply);
            c in r.next.reply && Shows(r.next, c, Advance(p, EventsOf(r.effects, who, c)))
  {
    ReplyEvents(s, who, c);
    AdvanceShort(p, Woken(who), Replied(who));
    var s' := Step(s, who, OpReply).next;
    assert forall h :: HeldBy(s, c, h) && h != who ==> HeldBy(s', c, h);
  }

  lemma ActPhase(s: State, a: Act, c: ThreadId, p: Phase)
    requires Inv(s) && a.who in s.thread && c in s.reply && Shows(s, c, p)
    ensures c in Exec(s, a).reply && Shows(Exec(s, a), c, Advance(p, EventsOfAct(s, a, c)))
  {
    if Step(s, a.who, a.op).Ok? {
      ActorMayAct(s, a.who);
      ShowsStands(s, c, p);
      match a.op
      case OpSend => SendPhase(s, a.who, c, p);
      case OpReceive => ReceivePhase(s, a.who, c, p);
      case OpCall => CallPhase(s, a.who, c, p);
      case OpReply => ReplyPhase(s, a.who, c, p);
    }
  }

  lemma PhaseAfter(s: State, a: Act, c: ThreadId, p: Phase, es: seq<Event>, s': State, es': seq<Event>)
    requires Inv(s) && a.who in s.thread && c in s.reply && Shows(s, c, Advance(p, es))
    requires s' == Exec(s, a) && es' == es + EventsOfAct(s, a, c)
    ensures c in s'.reply && Shows(s', c, Advance(p, es'))
  {
    ActPhase(s, a, c, Advance(p, es));
    AdvanceSplit(p, es, EventsOfAct(s, a, c));
  }

  /**
   * Over any run, each client's effects spell whole calls: it is bound while Fresh,
   * handed to one handler, woken by that handler exactly once, and cleared by that
   * handler. What the effects spell is what the state shows.
   */
  lemma {:induction false} RunPhase(s: State, acts: seq<Act>, c: ThreadId, p: Phase)
    requires Inv(s) && Known(acts, s) && c in s.reply && Shows(s, c, p)
    ensures c in Run(s, acts).reply
    ensures Shows(Run(s, acts), c, Advance(p, EventsOfRun(s, acts, c)))
    decreases |acts|
  {
    if acts != [] {
      var last := |acts| - 1;
      var t, es := Run(s, acts[..last]), EventsOfRun(s, acts[..last], c);
      RunPhase(s, acts[..last], c, p);
      PhaseAfter(t, acts[last], c, p, es, Run(s, acts), EventsOfRun(s, acts, c));
    }
  }
}
