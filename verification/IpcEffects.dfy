/**
 * What the effect lists mean. The kernel executes a step by running its effects in
 * order over thread control blocks; here each effect acts on a machine that has
 * the state of the model plus one message slot per thread.
 */
module IpcEffects {
  import opened Options
  import opened IpcState
  import opened IpcInvariant

  type Msg = nat

  /** A message taken by a receiver, with the thread it came from. */
  datatype Delivery = Delivery(sender: ThreadId, msg: Msg)

  datatype Machine = Machine(
    s: State,
    /** The message slot of each thread control block. */
    slot: map<ThreadId, Msg>,
    /** The entry that DequeueHead removed during this step. */
    popped: Option<QueueEntry>,
    /** What this step delivered to a receiver. */
    delivered: seq<Delivery>)

  /** One effect, for acting thread `who` whose system call carries message `m`. */
  function Apply(x: Machine, who: ThreadId, m: Msg, e: IpcEffect): Machine
  {
    match e
    case SetEndpointState(ep) => x.(s := x.s.(endpoint := ep))
    case EnqueueSelfAs(kind) => x.(s := x.s.(queue := x.s.queue + [QueueEntry(who, kind)]))
    case DequeueHead =>
      if x.s.queue == [] then x
      else x.(s := x.s.(queue := x.s.queue[1..]), popped := Some(x.s.queue[0]))
    case StoreMsgInOwnTcb => x.(slot := x.slot[who := m])
    case WriteMsgToBlockedReceiver =>
      if x.popped.None? then x
      else x.(slot := x.slot[x.popped.value.thread := m],
              delivered := x.delivered + [Delivery(who, m)])
    case WriteMsgToBoundCaller =>
      if who !in x.s.current || x.s.current[who].None? then x
      else x.(slot := x.slot[x.s.current[who].value := m])
    case TakeMsgFromDequeuedHead =>
      if x.popped.None? || x.popped.value.thread !in x.slot then x
      else x.(delivered := x.delivered
                           + [Delivery(x.popped.value.thread, x.slot[x.popped.value.thread])])
    case BindReply(caller) => x.(s := x.s.(reply := x.s.reply[caller := Bound(caller)]))
    case ClearReply(caller) => x.(s := x.s.(reply := x.s.reply[caller := Fresh]))
    case SetCurrentReply(receiver, caller) =>
      x.(s := x.s.(current := x.s.current[receiver := Some(caller)]))
    case ClearCurrentReply(receiver) => x.(s := x.s.(current := x.s.current[receiver := None]))
    case UnblockThread(t) => x.(s := x.s.(thread := x.s.thread[t := Ready]))
    case BlockCurrent => x.(s := x.s.(thread := x.s.thread[who := Blocked]))
  }

  function ApplyAll(x: Machine, who: ThreadId, m: Msg, es: seq<IpcEffect>): Machine
    decreases |es|
  {
    if es == [] then x else ApplyAll(Apply(x, who, m, es[0]), who, m, es[1..])
  }

  function Start(s: State, slot: map<ThreadId, Msg>): Machine
  {
    Machine(s, slot, None, [])
  }

  /** Run the first effect of a list. */
  lemma Unroll(x: Machine, who: ThreadId, m: Msg, e: IpcEffect, es: seq<IpcEffect>)
    ensures ApplyAll(x, who, m, [e] + es) == ApplyAll(Apply(x, who, m, e), who, m, es)
    ensures ApplyAll(x, who, m, [e]) == Apply(x, who, m, e)
  {
    assert ([e] + es)[1..] == es;
    assert [e][1..] == [];
  }

  /** The machine after a successful step. */
  ghost function After(s: State, slot: map<ThreadId, Msg>, who: ThreadId, op: IpcOp, m: Msg): Machine
    requires WellTyped(s) && who in s.thread && slot.Keys == s.thread.Keys
    requires Step(s, who, op).Ok?
  {
    ApplyAll(Start(s, slot), who, m, Step(s, who, op).effects)
  }

  /** The Send fast path, executed. */
  lemma RunSendFast(x: Machine, who: ThreadId, m: Msg, receiver: ThreadId)
    requires x.s.queue != [] && x.s.queue[0].thread == receiver
    ensures ApplyAll(x, who, m, [DequeueHead, WriteMsgToBlockedReceiver, UnblockThread(receiver),
                                 SetEndpointState(Idle)])
            == Machine(x.s.(queue := x.s.queue[1..], thread := x.s.thread[receiver := Ready], endpoint := Idle),
                       x.slot[receiver := m], Some(x.s.queue[0]), x.delivered + [Delivery(who, m)])
  {
    var e2, e3, e4 := WriteMsgToBlockedReceiver, UnblockThread(receiver), SetEndpointState(Idle);
    var x1 := Apply(x, who, m, DequeueHead);
    var x2 := Apply(x1, who, m, e2);
    var x3 := Apply(x2, who, m, e3);
    Unroll(x, who, m, DequeueHead, [e2, e3, e4]);
    Unroll(x1, who, m, e2, [e3, e4]);
    Unroll(x2, who, m, e3, [e4]);
    Unroll(x3, who, m, e4, []);
  }

  /** The end of the slow paths: mark the endpoint if it was idle, then block. */
  lemma RunBlockTail(x: Machine, who: ThreadId, m: Msg, ep: EpState)
    requires ep != HasReceiver && x.s.endpoint == ep
    ensures var tail := (if ep == Idle then [SetEndpointState(HasWaiters)] else []) + [BlockCurrent];
            ApplyAll(x, who, m, tail)
            == x.(s := x.s.(endpoint := HasWaiters, thread := x.s.thread[who := Blocked]))
  {
    if ep == Idle {
      Unroll(x, who, m, SetEndpointState(HasWaiters), [BlockCurrent]);
      Unroll(Apply(x, who, m, SetEndpointState(HasWaiters)), who, m, BlockCurrent, []);
    } else {
      assert [] + [BlockCurrent] == [BlockCurrent];
      Unroll(x, who, m, BlockCurrent, []);
    }
  }

  /** Both slow paths after any Reply binding: store the message, queue, block. */
  lemma RunSlow(x: Machine, who: ThreadId, m: Msg, kind: WaitKind, ep: EpState)
    requires ep != HasReceiver && x.s.endpoint == ep
    ensures ApplyAll(x, who, m, [StoreMsgInOwnTcb, EnqueueSelfAs(kind)]
                                + (if ep == Idle then [SetEndpointState(HasWaiters)] else [])
                                + [BlockCurrent])
            == x.(s := x.s.(queue := x.s.queue + [QueueEntry(who, kind)], endpoint := HasWaiters,
                            thread := x.s.thread[who := Blocked]),
                  slot := x.slot[who := m])
  {
    var tail := (if ep == Idle then [SetEndpointState(HasWaiters)] else []) + [BlockCurrent];
    var x1 := Apply(x, who, m, StoreMsgInOwnTcb);
    var x2 := Apply(x1, who, m, EnqueueSelfAs(kind));
    Unroll(x, who, m, StoreMsgInOwnTcb, [EnqueueSelfAs(kind)] + tail);
    Unroll(x1, who, m, EnqueueSelfAs(kind), tail);
    RunBlockTail(x2, who, m, ep);
    assert [StoreMsgInOwnTcb, EnqueueSelfAs(kind)]
           + (if ep == Idle then [SetEndpointState(HasWaiters)] else []) + [BlockCurrent]
        == [StoreMsgInOwnTcb] + ([EnqueueSelfAs(kind)] + tail);
  }

  lemma SendMachine(s: State, slot: map<ThreadId, Msg>, who: ThreadId, m: Msg)
    requires WellTyped(s) && who in s.thread && slot.Keys == s.thread.Keys
    requires Step(s, who, OpSend).Ok?
    ensures var x := After(s, slot, who, OpSend, m);
            && x.s == Step(s, who, OpSend).next
            && (s.endpoint == HasReceiver ==> x.delivered == [Delivery(who, m)]
                                              && x.slot == slot[s.queue[0].thread := m])
            && (s.endpoint != HasReceiver ==> x.delivered == [] && x.slot == slot[who := m])
  {
    if s.endpoint == HasReceiver {
      RunSendFast(Start(s, slot), who, m, s.queue[0].thread);
    } else {
      RunSlow(Start(s, slot), who, m, Send, s.endpoint);
    }
  }

  /** The Receive fast path up to the last effect, executed; `e` is what it does with the waiter. */
  lemma RunReceiveFast(x: Machine, who: ThreadId, m: Msg, e: IpcEffect, y: Machine)
    requires x.s.queue != [] && x.s.queue[0].thread in x.slot
    requires y == Apply(x.(s := x.s.(queue := x.s.queue[1..]), popped := Some(x.s.queue[0]),
                           delivered := x.delivered + [Delivery(x.s.queue[0].thread, x.slot[x.s.queue[0].thread])]),
                        who, m, e)
    ensures ApplyAll(x, who, m, [DequeueHead, TakeMsgFromDequeuedHead, e]) == y
    ensures ApplyAll(x, who, m, [DequeueHead, TakeMsgFromDequeuedHead, e, SetEndpointState(Idle)])
            == y.(s := y.s.(endpoint := Idle))
  {
    var x1 := Apply(x, who, m, DequeueHead);
    var x2 := Apply(x1, who, m, TakeMsgFromDequeuedHead);
    Unroll(x, who, m, DequeueHead, [TakeMsgFromDequeuedHead, e]);
    Unroll(x1, who, m, TakeMsgFromDequeuedHead, [e]);
    Unroll(x2, who, m, e, []);
    Unroll(x, who, m, DequeueHead, [TakeMsgFromDequeuedHead, e, SetEndpointState(Idle)]);
    Unroll(x1, who, m, TakeMsgFromDequeuedHead, [e, SetEndpointState(Idle)]);
    Unroll(x2, who, m, e, [SetEndpointState(Idle)]);
    Unroll(y, who, m, SetEndpointState(Idle), []);
  }

  lemma ReceiveMachine(s: State, slot: map<ThreadId, Msg>, who: ThreadId, m: Msg)
    requires WellTyped(s) && who in s.thread && slot.Keys == s.thread.Keys
    requires Step(s, who, OpReceive).Ok?
    ensures var x := After(s, slot, who, OpReceive, m);
            && x.s == Step(s, who, OpReceive).next && x.slot == slot
            && (s.endpoint == HasWaiters ==>
                  x.delivered == [Delivery(s.queue[0].thread, slot[s.queue[0].thread])])
            && (s.endpoint != HasWaiters ==> x.delivered == [])
  {
    var x0 := Start(s, slot);
    if s.endpoint == HasWaiters {
      ReceiveFastMachine(s, slot, who, m);
    } else {
      RunReceiveSlow(x0, who, m);
    }
  }

  /** What the machine shows after taking the head's message, with `s` as its state. */
  function Taken(x: Machine, s: State): Machine
    requires x.s.queue != [] && x.s.queue[0].thread in x.slot
  {
    Machine(s, x.slot, Some(x.s.queue[0]),
            x.delivered + [Delivery(x.s.queue[0].thread, x.slot[x.s.queue[0].thread])])
  }

  lemma RunReceiveSend(x: Machine, who: ThreadId, m: Msg, t: ThreadId)
    requires x.s.queue != [] && x.s.queue[0].thread == t && t in x.slot
    ensures var s := x.s.(queue := x.s.queue[1..], thread := x.s.thread[t := Ready]);
            && ApplyAll(x, who, m, [DequeueHead, TakeMsgFromDequeuedHead, UnblockThread(t)]) == Taken(x, s)
            && ApplyAll(x, who, m, [DequeueHead, TakeMsgFromDequeuedHead, UnblockThread(t), SetEndpointState(Idle)])
               == Taken(x, s.(endpoint := Idle))
  {
    var taken := Taken(x, x.s.(queue := x.s.queue[1..]));
    RunReceiveFast(x, who, m, UnblockThread(t), Apply(taken, who, m, UnblockThread(t)));
  }

  lemma RunReceiveCall(x: Machine, who: ThreadId, m: Msg, t: ThreadId)
    requires x.s.queue != [] && x.s.queue[0].thread == t && t in x.slot
    ensures var s := x.s.(queue := x.s.queue[1..], current := x.s.current[who := Some(t)]);
            && ApplyAll(x, who, m, [DequeueHead, TakeMsgFromDequeuedHead, SetCurrentReply(who, t)]) == Taken(x, s)
            && ApplyAll(x, who, m, [DequeueHead, TakeMsgFromDequeuedHead, SetCurrentReply(who, t),
                                    SetEndpointState(Idle)])
               == Taken(x, s.(endpoint := Idle))
  {
    RunReceiveFast(x, who, m, SetCurrentReply(who, t),
                   Apply(Taken(x, x.s.(queue := x.s.queue[1..])), who, m, SetCurrentReply(who, t)));
  }

  lemma ReceiveFastMachine(s: State, slot: map<ThreadId, Msg>, who: ThreadId, m: Msg)
    requires WellTyped(s) && who in s.thread && slot.Keys == s.thread.Keys
    requires Step(s, who, OpReceive).Ok? && s.endpoint == HasWaiters
    ensures var x := After(s, slot, who, OpReceive, m);
            && x.s == Step(s, who, OpReceive).next && x.slot == slot
            && x.delivered == [Delivery(s.queue[0].thread, slot[s.queue[0].thread])]
  {
    var x0 := Start(s, slot);
    var t := s.queue[0].thread;
    assert t in Threads(s.queue);
    ReceiveFastEffects(s, who);
    if s.queue[0].kind == Send {
      RunReceiveSend(x0, who, m, t);
    } else {
      RunReceiveCall(x0, who, m, t);
    }
    assert After(s, slot, who, OpReceive, m) == Taken(x0, Step(s, who, OpReceive).next);
  }

  lemma ReceiveFastEffects(s: State, who: ThreadId)
    requires WellTyped(s) && who in s.thread
    requires Step(s, who, OpReceive).Ok? && s.endpoint == HasWaiters
    ensures s.queue != []
    ensures var head := s.queue[0];
            var e := if head.kind == Send then UnblockThread(head.thread) else SetCurrentReply(who, head.thread);
            Step(s, who, OpReceive).effects
            == if s.queue[1..] == [] then [DequeueHead, TakeMsgFromDequeuedHead, e, SetEndpointState(Idle)]
               else [DequeueHead, TakeMsgFromDequeuedHead, e]
  {
  }

  lemma RunReceiveSlow(x: Machine, who: ThreadId, m: Msg)
    ensures ApplyAll(x, who, m, [EnqueueSelfAs(Receive), SetEndpointState(HasReceiver), BlockCurrent])
            == x.(s := x.s.(queue := x.s.queue + [QueueEntry(who, Receive)], endpoint := HasReceiver,
                            thread := x.s.thread[who := Blocked]))
  {
    var e2 := SetEndpointState(HasReceiver);
    var x1 := Apply(x, who, m, EnqueueSelfAs(Receive));
    Unroll(x, who, m, EnqueueSelfAs(Receive), [e2, BlockCurrent]);
    Unroll(x1, who, m, e2, [BlockCurrent]);
    Unroll(Apply(x1, who, m, e2), who, m, BlockCurrent, []);
  }

  /** The Call fast path, executed. */
  lemma RunCallFast(x: Machine, who: ThreadId, m: Msg, server: ThreadId)
    requires x.s.queue != [] && x.s.queue[0].thread == server
    ensures ApplyAll(x, who, m, [DequeueHead, BindReply(who), WriteMsgToBlockedReceiver,
                                 SetCurrentReply(server, who), UnblockThread(server),
                                 SetEndpointState(Idle), BlockCurrent])
            == Machine(x.s.(queue := x.s.queue[1..],
                            thread := x.s.thread[server := Ready][who := Blocked],
                            reply := x.s.reply[who := Bound(who)],
                            current := x.s.current[server := Some(who)],
                            endpoint := Idle),
                       x.slot[server := m], Some(x.s.queue[0]), x.delivered + [Delivery(who, m)])
  {
    var e3, e4, e5 := WriteMsgToBlockedReceiver, SetCurrentReply(server, who), UnblockThread(server);
    var e6 := SetEndpointState(Idle);
    var x1 := Apply(x, who, m, DequeueHead);
    var x2 := Apply(x1, who, m, BindReply(who));
    var x3 := Apply(x2, who, m, e3);
    var x4 := Apply(x3, who, m, e4);
    var x5 := Apply(x4, who, m, e5);
    var x6 := Apply(x5, who, m, e6);
    Unroll(x, who, m, DequeueHead, [BindReply(who), e3, e4, e5, e6, BlockCurrent]);
    Unroll(x1, who, m, BindReply(who), [e3, e4, e5, e6, BlockCurrent]);
    Unroll(x2, who, m, e3, [e4, e5, e6, BlockCurrent]);
    Unroll(x3, who, m, e4, [e5, e6, BlockCurrent]);
    Unroll(x4, who, m, e5, [e6, BlockCurrent]);
    Unroll(x5, who, m, e6, [BlockCurrent]);
    Unroll(x6, who, m, BlockCurrent, []);
  }

  lemma CallMachine(s: State, slot: map<ThreadId, Msg>, who: ThreadId, m: Msg)
    requires WellTyped(s) && who in s.thread && slot.Keys == s.thread.Keys
    requires Step(s, who, OpCall).Ok?
    ensures var x := After(s, slot, who, OpCall, m);
            && x.s == Step(s, who, OpCall).next
            && (s.endpoint == HasReceiver ==> x.delivered == [Delivery(who, m)]
                                              && x.slot == slot[s.queue[0].thread := m])
            && (s.endpoint != HasReceiver ==> x.delivered == [] && x.slot == slot[who := m])
  {
    var x0 := Start(s, slot);
    if s.endpoint == HasReceiver {
      RunCallFast(x0, who, m, s.queue[0].thread);
    } else {
      RunCallSlow(x0, who, m, s.endpoint);
    }
  }

  lemma RunCallSlow(x: Machine, who: ThreadId, m: Msg, ep: EpState)
    requires ep != HasReceiver && x.s.endpoint == ep
    ensures ApplyAll(x, who, m, [BindReply(who), StoreMsgInOwnTcb, EnqueueSelfAs(Call)]
                                + (if ep == Idle then [SetEndpointState(HasWaiters)] else [])
                                + [BlockCurrent])
            == x.(s := x.s.(reply := x.s.reply[who := Bound(who)],
                            queue := x.s.queue + [QueueEntry(who, Call)], endpoint := HasWaiters,
                            thread := x.s.thread[who := Blocked]),
                  slot := x.slot[who := m])
  {
    var mid := if ep == Idle then [SetEndpointState(HasWaiters)] else [];
    var rest := [StoreMsgInOwnTcb, EnqueueSelfAs(Call)] + mid + [BlockCurrent];
    Unroll(x, who, m, BindReply(who), rest);
    RunSlow(Apply(x, who, m, BindReply(who)), who, m, Call, ep);
    assert [BindReply(who), StoreMsgInOwnTcb, EnqueueSelfAs(Call)] + mid + [BlockCurrent]
        == [BindReply(who)] + rest;
  }

  lemma ReplyMachine(s: State, slot: map<ThreadId, Msg>, who: ThreadId, m: Msg)
    requires WellTyped(s) && who in s.thread && slot.Keys == s.thread.Keys
    requires Step(s, who, OpReply).Ok?
    ensures var x := After(s, slot, who, OpReply, m);
            && x.s == Step(s, who, OpReply).next
            && x.delivered == [] && x.slot == slot[s.current[who].value := m]
  {
    RunReply(Start(s, slot), who, m, s.current[who].value);
  }

  lemma RunReply(x: Machine, who: ThreadId, m: Msg, c: ThreadId)
    requires who in x.s.current && x.s.current[who] == Some(c)
    ensures ApplyAll(x, who, m, [WriteMsgToBoundCaller, UnblockThread(c), ClearReply(c), ClearCurrentReply(who)])
            == x.(s := x.s.(thread := x.s.thread[c := Ready], reply := x.s.reply[c := Fresh],
                            current := x.s.current[who := None]),
                  slot := x.slot[c := m])
  {
    var x1 := Apply(x, who, m, WriteMsgToBoundCaller);
    var x2 := Apply(x1, who, m, UnblockThread(c));
    var x3 := Apply(x2, who, m, ClearReply(c));
    Unroll(x, who, m, WriteMsgToBoundCaller, [UnblockThread(c), ClearReply(c), ClearCurrentReply(who)]);
    Unroll(x1, who, m, UnblockThread(c), [ClearReply(c), ClearCurrentReply(who)]);
    Unroll(x2, who, m, ClearReply(c), [ClearCurrentReply(who)]);
    Unroll(x3, who, m, ClearCurrentReply(who), []);
  }

  /** Interpreting a step's effects in order on the old state gives exactly its new state. */
  lemma EffectsGiveNext(s: State, slot: map<ThreadId, Msg>, who: ThreadId, op: IpcOp, m: Msg)
    requires WellTyped(s) && who in s.thread && slot.Keys == s.thread.Keys
    requires Step(s, who, op).Ok?
    ensures After(s, slot, who, op, m).s == Step(s, who, op).next
  {
    match op
    case OpSend => SendMachine(s, slot, who, m);
    case OpReceive => ReceiveMachine(s, slot, who, m);
    case OpCall => CallMachine(s, slot, who, m);
    case OpReply => ReplyMachine(s, slot, who, m);
  }

  lemma SendBlocksLast(s: State, who: ThreadId, i: nat)
    requires WellTyped(s) && who in s.thread && Step(s, who, OpSend).Ok?
    requires i < |Step(s, who, OpSend).effects| && Step(s, who, OpSend).effects[i] == BlockCurrent
    ensures i == |Step(s, who, OpSend).effects| - 1
  {
  }

  lemma ReceiveBlocksLast(s: State, who: ThreadId, i: nat)
    requires WellTyped(s) && who in s.thread && Step(s, who, OpReceive).Ok?
    requires i < |Step(s, who, OpReceive).effects| && Step(s, who, OpReceive).effects[i] == BlockCurrent
    ensures i == |Step(s, who, OpReceive).effects| - 1
  {
    if s.endpoint == HasWaiters { ReceiveFastEffects(s, who); }
  }

  /** BlockCurrent, where it occurs, is the last effect: nothing after it would run. */
  lemma BlockIsLast(s: State, who: ThreadId, op: IpcOp, i: nat)
    requires WellTyped(s) && who in s.thread && Step(s, who, op).Ok?
    requires i < |Step(s, who, op).effects| && Step(s, who, op).effects[i] == BlockCurrent
    ensures i == |Step(s, who, op).effects| - 1
  {
    match op
    case OpSend => SendBlocksLast(s, who, i);
    case OpReceive => ReceiveBlocksLast(s, who, i);
    case OpCall => CallEffects(s, who);
    case OpReply =>
  }

  lemma SendTouchesNoReply(s: State, who: ThreadId, i: nat)
    requires WellTyped(s) && who in s.thread && Step(s, who, OpSend).Ok? && i < |Step(s, who, OpSend).effects|
    ensures var e := Step(s, who, OpSend).effects[i]; !e.BindReply? && !e.ClearReply?
  {
  }

  lemma ReceiveTouchesNoReply(s: State, who: ThreadId, i: nat)
    requires WellTyped(s) && who in s.thread && Step(s, who, OpReceive).Ok? && i < |Step(s, who, OpReceive).effects|
    ensures var e := Step(s, who, OpReceive).effects[i]; !e.BindReply? && !e.ClearReply?
  {
  }

  lemma CallBinds(s: State, who: ThreadId, i: nat)
    requires WellTyped(s) && who in s.thread && Step(s, who, OpCall).Ok? && i < |Step(s, who, OpCall).effects|
    ensures var e := Step(s, who, OpCall).effects[i];
            !e.ClearReply? && (e.BindReply? ==> e.caller == who && who in s.reply && s.reply[who] == Fresh)
  {
    CallEffects(s, who);
  }

  /** The effects of a call, spelled out. */
  lemma CallEffects(s: State, who: ThreadId)
    requires WellTyped(s) && who in s.thread && Step(s, who, OpCall).Ok?
    ensures who in s.reply && s.reply[who] == Fresh
    ensures var es := Step(s, who, OpCall).effects;
            match s.endpoint
            case HasReceiver =>
              s.queue != [] && es == [DequeueHead, BindReply(who), WriteMsgToBlockedReceiver,
                                      SetCurrentReply(s.queue[0].thread, who), UnblockThread(s.queue[0].thread),
                                      SetEndpointState(Idle), BlockCurrent]
            case Idle =>
              es == [BindReply(who), StoreMsgInOwnTcb, EnqueueSelfAs(Call), SetEndpointState(HasWaiters), BlockCurrent]
            case HasWaiters => es == [BindReply(who), StoreMsgInOwnTcb, EnqueueSelfAs(Call), BlockCurrent]
  {
  }

  lemma ReplyClears(s: State, who: ThreadId, i: nat)
    requires WellTyped(s) && who in s.thread && Step(s, who, OpReply).Ok? && i < |Step(s, who, OpReply).effects|
    ensures var es := Step(s, who, OpReply).effects;
            !es[i].BindReply?
            && (es[i].ClearReply? ==> 0 < i && es[i - 1] == UnblockThread(es[i].caller) && HeldBy(s, es[i].caller, who))
  {
  }

  /** A Reply is bound only while it is Fresh, by its own client. */
  lemma BindsOwnFresh(s: State, who: ThreadId, op: IpcOp, i: nat, c: ThreadId)
    requires WellTyped(s) && who in s.thread && Step(s, who, op).Ok? && i < |Step(s, who, op).effects|
    requires Step(s, who, op).effects[i] == BindReply(c)
    ensures c == who && c in s.reply && s.reply[c] == Fresh
  {
    match op
    case OpSend => SendTouchesNoReply(s, who, i);
    case OpReceive => ReceiveTouchesNoReply(s, who, i);
    case OpCall => CallBinds(s, who, i);
    case OpReply => ReplyClears(s, who, i);
  }

  /** It is cleared only by the thread that holds it, and only after its client was unblocked. */
  lemma ClearsHeld(s: State, who: ThreadId, op: IpcOp, i: nat, c: ThreadId)
    requires WellTyped(s) && who in s.thread && Step(s, who, op).Ok? && i < |Step(s, who, op).effects|
    requires Step(s, who, op).effects[i] == ClearReply(c)
    ensures 0 < i && Step(s, who, op).effects[i - 1] == UnblockThread(c) && HeldBy(s, c, who)
  {
    match op
    case OpSend => SendTouchesNoReply(s, who, i);
    case OpReceive => ReceiveTouchesNoReply(s, who, i);
    case OpCall => CallBinds(s, who, i);
    case OpReply => ReplyClears(s, who, i);
  }
}
