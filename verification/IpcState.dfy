/**
 * The IPC endpoint state machine, for any set of threads.
 *
 * The source fixes three threads and explores their states; here the threads are
 * the keys of `thread`, the clients (threads that own a Reply object) are the keys
 * of `reply`, and the queue is as long as it needs to be.
 */
module IpcState {
  import opened Options

  type ThreadId = nat

  datatype EpState = Idle | HasWaiters | HasReceiver

  datatype ThreadState = Ready | Running | Blocked

  datatype WaitKind = Send | Receive | Call

  datatype ReplyState = Fresh | Bound(caller: ThreadId)

  datatype IpcOp = OpSend | OpReceive | OpCall | OpReply

  datatype TransitionError = Busy | NoCaller | ReplyAlreadyBound | ThreadNotRunnable

  datatype QueueEntry = QueueEntry(thread: ThreadId, kind: WaitKind)

  datatype State = State(
    endpoint: EpState,
    queue: seq<QueueEntry>,
    /** Reply-object state of each client. */
    reply: map<ThreadId, ReplyState>,
    /** Per thread: whose call it is handling. */
    current: map<ThreadId, Option<ThreadId>>,
    thread: map<ThreadId, ThreadState>)

  datatype IpcEffect =
    | SetEndpointState(ep: EpState)
    | EnqueueSelfAs(kind: WaitKind)
    | DequeueHead
    | StoreMsgInOwnTcb
    | WriteMsgToBlockedReceiver
    | WriteMsgToBoundCaller
    | TakeMsgFromDequeuedHead
    | BindReply(caller: ThreadId)
    | ClearReply(caller: ThreadId)
    | SetCurrentReply(receiver: ThreadId, caller: ThreadId)
    | ClearCurrentReply(receiver: ThreadId)
    | UnblockThread(who: ThreadId)
    | BlockCurrent

  /** A step succeeds, is refused, or reaches one of the source's panics. */
  datatype StepResult =
    | Ok(next: State, effects: seq<IpcEffect>)
    | Err(error: TransitionError)
    | Panic

  /** The threads that wait in a queue. */
  function Threads(q: seq<QueueEntry>): set<ThreadId>
  {
    if q == [] then {} else {q[0].thread} + Threads(q[1..])
  }

  /** The threads that wait in a queue with a given kind. */
  function Waiting(q: seq<QueueEntry>, kind: WaitKind): set<ThreadId>
  {
    if q == [] then {} else (if q[0].kind == kind then {q[0].thread} else {}) + Waiting(q[1..], kind)
  }

  /** No thread waits twice. */
  predicate Distinct(q: seq<QueueEntry>)
  {
    q == [] || (q[0].thread !in Threads(q[1..]) && Distinct(q[1..]))
  }

  lemma {:induction false} DistinctMeaning(q: seq<QueueEntry>)
    requires Distinct(q)
    ensures forall i, j | 0 <= i < j < |q| :: q[i].thread != q[j].thread
  {
    if q != [] {
      DistinctMeaning(q[1..]);
      forall i, j | 0 <= i < j < |q|
        ensures q[i].thread != q[j].thread
      {
        ThreadsMeaning(q[1..], q[0].thread, Send);
        assert q[1..][j - 1] == q[j];
        if i > 0 { assert q[1..][i - 1] == q[i]; }
      }
    }
  }

  lemma {:induction false} ThreadsMeaning(q: seq<QueueEntry>, t: ThreadId, kind: WaitKind)
    ensures t in Threads(q) <==> exists i :: 0 <= i < |q| && q[i].thread == t
    ensures t in Waiting(q, kind) <==> QueueEntry(t, kind) in q
    ensures t in Waiting(q, kind) ==> t in Threads(q)
  {
    if q != [] {
      ThreadsMeaning(q[1..], t, kind);
      assert q == [q[0]] + q[1..];
      if exists i :: 0 <= i < |q| && q[i].thread == t {
        var i :| 0 <= i < |q| && q[i].thread == t;
        assert i == 0 || q[1..][i - 1].thread == t;
      }
      if exists i :: 0 <= i < |q[1..]| && q[1..][i].thread == t {
        var i :| 0 <= i < |q[1..]| && q[1..][i].thread == t;
        assert q[i + 1].thread == t;
      }
    }
  }

  /** What the source's types guarantee: every thread has its fields, and names in them are clients. */
  ghost predicate WellTyped(s: State)
  {
    && s.reply.Keys <= s.thread.Keys
    && s.current.Keys == s.thread.Keys
    && Threads(s.queue) <= s.thread.Keys
    && (forall t | t in s.current && s.current[t].Some? :: s.current[t].value in s.reply)
    && (forall c | c in s.reply && s.reply[c].Bound? :: s.reply[c].caller in s.reply)
  }

  function Initial(threads: set<ThreadId>, clients: set<ThreadId>): State
  {
    State(Idle, [],
          map c | c in clients :: Fresh,
          map t | t in threads :: None,
          map t | t in threads :: Ready)
  }

  // ----- transitions -----

  function StepSend(s: State, who: ThreadId): StepResult
    requires who in s.thread
  {
    if s.endpoint == HasReceiver then
      if s.queue == [] || s.queue[0].kind != Receive then Panic
      else
        var receiver := s.queue[0].thread;
        Ok(s.(queue := s.queue[1..], thread := s.thread[receiver := Ready], endpoint := Idle),
           [DequeueHead, WriteMsgToBlockedReceiver, UnblockThread(receiver), SetEndpointState(Idle)])
    else
      Ok(s.(queue := s.queue + [QueueEntry(who, Send)], thread := s.thread[who := Blocked],
            endpoint := HasWaiters),
         [StoreMsgInOwnTcb, EnqueueSelfAs(Send)]
         + (if s.endpoint == Idle then [SetEndpointState(HasWaiters)] else [])
         + [BlockCurrent])
  }

  function StepReceive(s: State, who: ThreadId): StepResult
    requires who in s.thread && who in s.current
  {
    if s.current[who].Some? then Err(Busy)
    else match s.endpoint
    case HasReceiver => Err(Busy)
    case HasWaiters =>
      if s.queue == [] then Panic
      else
        var head, rest := s.queue[0], s.queue[1..];
        var ep := if rest == [] then Idle else HasWaiters;
        var last := if rest == [] then [SetEndpointState(Idle)] else [];
        (match head.kind
         case Send =>
           Ok(s.(queue := rest, thread := s.thread[head.thread := Ready], endpoint := ep),
              [DequeueHead, TakeMsgFromDequeuedHead, UnblockThread(head.thread)] + last)
         case Call =>
           if head.thread !in s.reply then Panic
           else
             Ok(s.(queue := rest, current := s.current[who := Some(head.thread)], endpoint := ep),
                [DequeueHead, TakeMsgFromDequeuedHead, SetCurrentReply(who, head.thread)] + last)
         case Receive => Panic)
    case Idle =>
      Ok(s.(queue := s.queue + [QueueEntry(who, Receive)], thread := s.thread[who := Blocked],
            endpoint := HasReceiver),
         [EnqueueSelfAs(Receive), SetEndpointState(HasReceiver), BlockCurrent])
  }

  function StepCall(s: State, who: ThreadId): StepResult
    requires who in s.thread
  {
    if who !in s.reply then Err(Busy)
    else if s.reply[who] != Fresh then Err(ReplyAlreadyBound)
    else if s.endpoint == HasReceiver then
      if s.queue == [] || s.queue[0].kind != Receive then Panic
      else
        var server := s.queue[0].thread;
        Ok(s.(queue := s.queue[1..],
              thread := s.thread[server := Ready][who := Blocked],
              reply := s.reply[who := Bound(who)],
              current := s.current[server := Some(who)],
              endpoint := Idle),
           [DequeueHead, BindReply(who), WriteMsgToBlockedReceiver, SetCurrentReply(server, who),
            UnblockThread(server), SetEndpointState(Idle), BlockCurrent])
    else
      Ok(s.(reply := s.reply[who := Bound(who)],
            queue := s.queue + [QueueEntry(who, Call)],
            thread := s.thread[who := Blocked],
            endpoint := HasWaiters),
         [BindReply(who), StoreMsgInOwnTcb, EnqueueSelfAs(Call)]
         + (if s.endpoint == Idle then [SetEndpointState(HasWaiters)] else [])
         + [BlockCurrent])
  }

  function StepReply(s: State, who: ThreadId): StepResult
    requires WellTyped(s) && who in s.thread
  {
    if s.current[who].None? then Err(NoCaller)
    else
      var client := s.current[who].value;
      if s.reply[client] != Bound(client) then Err(Busy)
      else
        Ok(s.(thread := s.thread[client := Ready],
              reply := s.reply[client := Fresh],
              current := s.current[who := None]),
           [WriteMsgToBoundCaller, UnblockThread(client), ClearReply(client), ClearCurrentReply(who)])
  }

  function Step(s: State, who: ThreadId, op: IpcOp): StepResult
    requires WellTyped(s) && who in s.thread
  {
    if s.thread[who] == Blocked then Err(ThreadNotRunnable)
    else match op
    case OpSend => StepSend(s, who)
    case OpReceive => StepReceive(s, who)
    case OpCall => StepCall(s, who)
    case OpReply => StepReply(s, who)
  }

  // ----- the invariants the source checks -----

  predicate Queued(s: State, t: ThreadId)
  {
    t in Threads(s.queue)
  }

  predicate QueuedAs(s: State, t: ThreadId, kind: WaitKind)
  {
    t in Waiting(s.queue, kind)
  }

  predicate HeldBy(s: State, c: ThreadId, h: ThreadId)
  {
    h in s.current && s.current[h] == Some(c)
  }

  ghost predicate Held(s: State, c: ThreadId)
  {
    exists h :: HeldBy(s, c, h)
  }

  predicate EndpointMatchesQueue(s: State)
  {
    match s.endpoint
    case Idle => s.queue == []
    case HasReceiver => |s.queue| == 1 && s.queue[0].kind == Receive
    case HasWaiters => s.queue != [] && forall i | 0 <= i < |s.queue| :: s.queue[i].kind != Receive
  }

  predicate AtMostOneReceiver(s: State)
  {
    forall i, j | 0 <= i < j < |s.queue| :: !(s.queue[i].kind == Receive && s.queue[j].kind == Receive)
  }

  predicate QueuedAreBlocked(s: State)
    requires WellTyped(s)
  {
    forall t | t in Threads(s.queue) :: s.thread[t] == Blocked
  }

  predicate NoneQueuedTwice(s: State)
  {
    forall i, j | 0 <= i < j < |s.queue| :: s.queue[i].thread != s.queue[j].thread
  }

  ghost predicate OneHandlerEach(s: State)
  {
    forall c, h, h' :: HeldBy(s, c, h) && HeldBy(s, c, h') ==> h == h'
  }

  ghost predicate RepliesConsistent(s: State)
    requires WellTyped(s)
  {
    forall c | c in s.reply ::
      && (s.reply[c].Bound? ==> s.reply[c] == Bound(c) && s.thread[c] == Blocked
                                && (QueuedAs(s, c, Call) <==> !Held(s, c)))
      && (s.reply[c].Fresh? ==> !QueuedAs(s, c, Call) && !Held(s, c))
  }

  ghost predicate CurrentRepliesBound(s: State)
    requires WellTyped(s)
  {
    forall h, c | HeldBy(s, c, h) :: s.reply[c] == Bound(c)
  }

  predicate AtMostOneRunning(s: State)
  {
    forall t, u | t in s.thread && u in s.thread :: s.thread[t] == Running && s.thread[u] == Running ==> t == u
  }

  /** `check_invariants`: the eight conditions, as the source states them. */
  ghost predicate CheckInvariants(s: State)
    requires WellTyped(s)
  {
    && EndpointMatchesQueue(s)
    && AtMostOneReceiver(s)
    && QueuedAreBlocked(s)
    && NoneQueuedTwice(s)
    && OneHandlerEach(s)
    && RepliesConsistent(s)
    && CurrentRepliesBound(s)
    && AtMostOneRunning(s)
  }

  // ----- the inductive invariant -----

  /** A thread is blocked for exactly one reason: queued, or its call is being handled. */
  ghost predicate BlockedForOneReason(s: State)
    requires WellTyped(s)
  {
    forall t | t in s.thread ::
      && (s.thread[t] == Blocked <==> Queued(s, t) || Held(s, t))
      && !(Queued(s, t) && Held(s, t))
  }

  /** A waiting receiver is handling nobody's call, and only clients wait with a call. */
  ghost predicate WaitersFit(s: State)
    requires WellTyped(s)
  {
    && (forall t | t in s.thread && QueuedAs(s, t, Receive) :: s.current[t] == None)
    && Waiting(s.queue, Call) <= s.reply.Keys
  }

  ghost predicate RepliesMatchCalls(s: State)
  {
    forall c | c in s.reply ::
      && (s.reply[c] == Fresh || s.reply[c] == Bound(c))
      && (s.reply[c].Bound? <==> QueuedAs(s, c, Call) || Held(s, c))
  }

  /** The endpoint state summarises the kinds of the waiters. */
  predicate EndpointFits(s: State)
  {
    match s.endpoint
    case Idle => s.queue == []
    case HasReceiver => |s.queue| == 1 && s.queue[0].kind == Receive
    case HasWaiters => s.queue != [] && Waiting(s.queue, Receive) == {}
  }

  ghost predicate Inv(s: State)
  {
    && WellTyped(s)
    && EndpointFits(s)
    && Distinct(s.queue)
    && BlockedForOneReason(s)
    && WaitersFit(s)
    && OneHandlerEach(s)
    && RepliesMatchCalls(s)
    && AtMostOneRunning(s)
  }

  /** The inductive invariant implies all that the source checks. */
  lemma InvImpliesChecks(s: State)
    requires Inv(s)
    ensures CheckInvariants(s)
  {
    DistinctMeaning(s.queue);
    forall t, k
      ensures QueuedAs(s, t, k) ==> Queued(s, t)
    {
      ThreadsMeaning(s.queue, t, k);
    }
    forall i | 0 <= i < |s.queue|
      ensures Queued(s, s.queue[i].thread) && QueuedAs(s, s.queue[i].thread, s.queue[i].kind)
    {
      ThreadsMeaning(s.queue, s.queue[i].thread, s.queue[i].kind);
    }
  }

  lemma InitialInv(threads: set<ThreadId>, clients: set<ThreadId>)
    requires clients <= threads
    ensures Inv(Initial(threads, clients))
  {
    var s := Initial(threads, clients);
    assert forall c, h :: !HeldBy(s, c, h);
  }
}
