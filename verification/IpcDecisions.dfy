/** The decision functions the kernel calls, and their agreement with the model. */
module IpcDecisions {
  import opened Options
  import opened IpcState
  import opened IpcInvariant
  import IpcEffects

  datatype IpcError = EndpointBusy | NoCallerBound | WouldBlock | ReplyBound

  datatype SendDecision =
    | DeliverToReceiver(nextEp: EpState)
    | QueueAndBlock(nextEp: EpState, wakeReadiness: bool)

  datatype ReceiveDecision =
    | DequeueSend(nextEp: EpState)
    | DequeueCall(nextEp: EpState)
    | QueueReceiver(nextEp: EpState)
    | ReceiveError(error: IpcError)

  datatype CallDecision =
    | CallReceiver(nextEp: EpState)
    | QueueCall(nextEp: EpState, wakeReadiness: bool)
    | CallError(error: IpcError)

  datatype ReplyDecision = Deliver | ReplyError(error: IpcError)

  function DecideSend(ep: EpState): SendDecision
  {
    match ep
    case HasReceiver => DeliverToReceiver(Idle)
    case Idle => QueueAndBlock(HasWaiters, true)
    case HasWaiters => QueueAndBlock(HasWaiters, false)
  }

  function DecideReceive(ep: EpState, outstanding: bool, head: Option<WaitKind>, more: bool): ReceiveDecision
  {
    if outstanding then ReceiveError(EndpointBusy)
    else match ep
    case HasWaiters =>
      var next := if more then HasWaiters else Idle;
      (match head
       case Some(Send) => DequeueSend(next)
       case Some(Call) => DequeueCall(next)
       case _ => ReceiveError(EndpointBusy))
    case HasReceiver => ReceiveError(EndpointBusy)
    case Idle => QueueReceiver(HasReceiver)
  }

  function DecideCall(isFresh: bool, ep: EpState): CallDecision
  {
    if !isFresh then CallError(ReplyBound)
    else match ep
    case HasReceiver => CallReceiver(Idle)
    case Idle => QueueCall(HasWaiters, true)
    case HasWaiters => QueueCall(HasWaiters, false)
  }

  function DecideReply(hasReply: bool, isBound: bool): ReplyDecision
  {
    if !hasReply then ReplyError(NoCallerBound)
    else if !isBound then ReplyError(NoCallerBound)
    else Deliver
  }

  // ----- what the kernel observes -----

  function HeadKind(s: State): Option<WaitKind>
  {
    if s.endpoint == HasWaiters && s.queue != [] then Some(s.queue[0].kind) else None
  }

  function HasMore(s: State): bool
  {
    s.endpoint == HasWaiters && |s.queue| > 1
  }

  // ----- which branch a model step took, read off its effects and result -----

  /** The acting thread went into the queue. */
  predicate Queues(s: State, r: StepResult, who: ThreadId, kind: WaitKind)
  {
    && r.Ok? && r.next.queue == s.queue + [QueueEntry(who, kind)]
    && EnqueueSelfAs(kind) in r.effects && DequeueHead !in r.effects
  }

  /** The first waiter, of the given kind, left the queue. */
  predicate Dequeues(s: State, r: StepResult, kind: WaitKind)
  {
    && r.Ok? && s.queue != [] && s.queue[0].kind == kind && r.next.queue == s.queue[1..]
    && DequeueHead in r.effects && forall k :: EnqueueSelfAs(k) !in r.effects
  }

  /** In every invariant state the kernel's send decision is the model's step. */
  lemma SendAgrees(s: State, who: ThreadId)
    requires Inv(s) && who in s.thread && s.thread[who] != Blocked
    ensures var r := Step(s, who, OpSend);
            var d := DecideSend(s.endpoint);
            && r.Ok? && r.next.endpoint == d.nextEp
            && (d.DeliverToReceiver? <==> Dequeues(s, r, Receive))
            && (d.QueueAndBlock? <==> Queues(s, r, who, Send))
            && (d.QueueAndBlock? ==> (d.wakeReadiness <==> s.endpoint == Idle && r.next.endpoint == HasWaiters))
  {
  }

  /** The kernel's receive decision d and the model's result r are the same choice. */
  predicate SameReceive(s: State, who: ThreadId, d: ReceiveDecision, r: StepResult)
  {
    && (d.ReceiveError? <==> r.Err?)
    && (d.ReceiveError? ==> d.error == EndpointBusy && r.error == Busy)
    && (!d.ReceiveError? ==> r.Ok? && r.next.endpoint == d.nextEp)
    && (d.DequeueSend? <==> Dequeues(s, r, Send))
    && (d.DequeueCall? <==> Dequeues(s, r, Call))
    && (d.QueueReceiver? <==> Queues(s, r, who, Receive))
  }

  /** A receiver that finds waiters takes the head, whatever its kind. */
  lemma TakesHead(s: State, who: ThreadId)
    requires Inv(s) && who in s.thread && s.thread[who] != Blocked && s.endpoint == HasWaiters && s.current[who].None?
    ensures s.queue != [] && s.queue[0].kind != Receive
    ensures Dequeues(s, Step(s, who, OpReceive), s.queue[0].kind)
  {
    Popped(s.queue);
    IpcEffects.ReceiveFastEffects(s, who);
  }

  lemma ReceiveFromQueue(s: State, who: ThreadId)
    requires Inv(s) && who in s.thread && s.thread[who] != Blocked && s.endpoint == HasWaiters
    ensures SameReceive(s, who, DecideReceive(s.endpoint, s.current[who].Some?, HeadKind(s), HasMore(s)),
                        Step(s, who, OpReceive))
  {
    if s.current[who].None? { TakesHead(s, who); }
  }

  lemma ReceiveAgrees(s: State, who: ThreadId)
    requires Inv(s) && who in s.thread && s.thread[who] != Blocked
    ensures SameReceive(s, who, DecideReceive(s.endpoint, s.current[who].Some?, HeadKind(s), HasMore(s)),
                        Step(s, who, OpReceive))
  {
    if s.endpoint == HasWaiters { ReceiveFromQueue(s, who); }
  }

  /** The kernel's call decision d and the model's result r are the same choice. */
  predicate SameCall(s: State, who: ThreadId, d: CallDecision, r: StepResult)
  {
    && (d.CallError? <==> r.Err?)
    && (d.CallError? ==> d.error == ReplyBound && r.error == ReplyAlreadyBound)
    && (!d.CallError? ==> r.Ok? && r.next.endpoint == d.nextEp)
    && (d.CallReceiver? <==> Dequeues(s, r, Receive))
    && (d.QueueCall? <==> Queues(s, r, who, Call))
    && (d.QueueCall? ==> (d.wakeReadiness <==> s.endpoint == Idle && r.next.endpoint == HasWaiters))
  }

  lemma CallAgrees(s: State, who: ThreadId)
    requires Inv(s) && who in s.thread && s.thread[who] != Blocked && who in s.reply
    ensures SameCall(s, who, DecideCall(s.reply[who] == Fresh, s.endpoint), Step(s, who, OpCall))
  {
    if s.reply[who] == Fresh { IpcEffects.CallEffects(s, who); }
  }

  /** A reply is delivered exactly when the model's step succeeds; both refuse with "no caller". */
  lemma ReplyAgrees(s: State, who: ThreadId)
    requires Inv(s) && who in s.thread && s.thread[who] != Blocked
    ensures var r := Step(s, who, OpReply);
            var cur := s.current[who];
            var d := DecideReply(cur.Some?, cur.Some? && s.reply[cur.value].Bound?);
            && (d.Deliver? <==> r.Ok?)
            && (d.ReplyError? ==> d.error == NoCallerBound && r == Err(NoCaller))
            && (r.Ok? ==> r.next.endpoint == s.endpoint && r.next.queue == s.queue)
  {
    if s.current[who].Some? { assert HeldBy(s, s.current[who].value, who); }
  }

  /**
   * When a thread is refused, and why. A runnable client can always call: a Reply object
   * is only bound while its owner is blocked.
   */
  lemma Refusals(s: State, who: ThreadId, op: IpcOp)
    requires Inv(s) && who in s.thread
    ensures var r := Step(s, who, op);
            if s.thread[who] == Blocked then r == Err(ThreadNotRunnable)
            else match op
              case OpSend => r.Ok?
              case OpReceive =>
                if s.current[who].Some? || s.endpoint == HasReceiver then r == Err(Busy) else r.Ok?
              case OpCall => if who in s.reply then r.Ok? else r == Err(Busy)
              case OpReply => if s.current[who].None? then r == Err(NoCaller) else r.Ok?
  {
    StepKeepsInv(s, who, op);
    ThreadsMeaning(s.queue, who, Call);
    if op == OpReply && s.current[who].Some? { assert HeldBy(s, s.current[who].value, who); }
  }
}

/** The waiter queue as the source stores it: an array whose head is slot 0. */
module IpcQueue {
  import opened Options
  import opened IpcState

  class WaitQueue {
    const entries: array<Option<QueueEntry>>
    var count: nat

    /** Slots below `count` are full, the others empty: equal contents are equal arrays. */
    ghost predicate Valid()
      reads this, entries
    {
      && count <= entries.Length
      && (forall i | 0 <= i < count :: entries[i].Some?)
      && (forall i | count <= i < entries.Length :: entries[i].None?)
    }

    ghost function Contents(): seq<QueueEntry>
      requires Valid()
      reads this, entries
    {
      seq(count, i requires 0 <= i < count && count <= entries.Length && entries[i].Some?
                   reads this, entries => entries[i].value)
    }

    constructor (capacity: nat)
      ensures Valid() && Contents() == [] && entries.Length == capacity && fresh(entries)
    {
      entries := new Option<QueueEntry>[capacity](_ => None);
      count := 0;
    }

    /** Append a waiter; false is the source's "queue full" assertion. */
    method Enqueue(e: QueueEntry) returns (ok: bool)
      requires Valid()
      modifies this, entries
      ensures Valid()
      ensures ok <==> old(count) < entries.Length
      ensures Contents() == if ok then old(Contents()) + [e] else old(Contents())
    {
      if count >= entries.Length { return false; }
      entries[count] := Some(e);
      count := count + 1;
      ok := true;
    }

    /** Take the head, shifting the others forward. */
    method Dequeue() returns (head: Option<QueueEntry>)
      requires Valid()
      modifies this, entries
      ensures Valid()
      ensures old(Contents()) == [] ==> head == None && Contents() == []
      ensures old(Contents()) != [] ==> head == Some(old(Contents())[0]) && Contents() == old(Contents())[1..]
    {
      if count == 0 { return None; }
      head := entries[0];
      for i := 0 to count - 1
        invariant count == old(count)
        invariant forall j | 0 <= j < i :: entries[j] == old(entries[j + 1])
        invariant forall j | i <= j < entries.Length :: entries[j] == old(entries[j])
      {
        entries[i] := entries[i + 1];
      }
      entries[count - 1] := None;
      count := count - 1;
    }
  }
}
