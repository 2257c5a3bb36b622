/** The endpoint as the kernel keeps it, a state and an array of waiters, driven by the decision functions. */
module IpcEndpoint {
  import opened Options
  import opened IpcState
  import opened IpcInvariant
  import opened IpcRuns
  import opened IpcDecisions
  import opened IpcQueue

  class Endpoint {
    const queue: WaitQueue
    var state: EpState

    /** It holds what the model state says, with one place per thread. */
    ghost predicate Holds(s: State)
      reads this, queue, queue.entries
    {
      && queue.Valid() && queue.Contents() == s.queue && state == s.endpoint
      && |s.thread.Keys| <= queue.entries.Length
    }

    constructor (capacity: nat, ghost threads: set<ThreadId>, ghost clients: set<ThreadId>)
      requires |threads| <= capacity
      ensures Holds(Initial(threads, clients)) && fresh(queue) && fresh(queue.entries)
    {
      queue := new WaitQueue(capacity);
      state := Idle;
      new;
      assert Initial(threads, clients).thread.Keys == threads;
    }

    /** Join the queue, in which there is a place. */
    method Join(who: ThreadId, kind: WaitKind, next: EpState, ghost s: State, ghost s': State)
      requires Holds(s) && |s.queue| < |s.thread.Keys| && s'.queue == s.queue + [QueueEntry(who, kind)]
      requires s'.endpoint == next && s'.thread.Keys == s.thread.Keys
      modifies this, queue, queue.entries
      ensures Holds(s')
    {
      var ok := queue.Enqueue(QueueEntry(who, kind));
      assert ok;
      state := next;
    }

    /** Take the first waiter. */
    method Leave(next: EpState, ghost s: State, ghost s': State) returns (head: QueueEntry)
      requires Holds(s) && s.queue != [] && s'.queue == s.queue[1..]
      requires s'.endpoint == next && s'.thread.Keys == s.thread.Keys
      modifies this, queue, queue.entries
      ensures Holds(s') && head == s.queue[0]
    {
      var first := queue.Dequeue();
      head := first.value;
      state := next;
    }

    method Send(who: ThreadId, ghost s: State)
      requires Holds(s) && Inv(s) && who in s.thread && s.thread[who] != Blocked
      modifies this, queue, queue.entries
      ensures Holds(Exec(s, Act(who, OpSend)))
    {
      SendAgrees(s, who);
      QueueFits(s, Act(who, OpSend));
      match DecideSend(state)
      case DeliverToReceiver(next) => var _ := Leave(next, s, Exec(s, Act(who, OpSend)));
      case QueueAndBlock(next, _) => Join(who, WaitKind.Send, next, s, Exec(s, Act(who, OpSend)));
    }

    /** What the kernel reads from the queue before it decides. */
    method Peek() returns (head: Option<WaitKind>, more: bool)
      requires queue.Valid()
      ensures head == if state == HasWaiters && queue.Contents() != [] then Some(queue.Contents()[0].kind) else None
      ensures more <==> state == HasWaiters && |queue.Contents()| > 1
    {
      head := if state == HasWaiters && queue.count > 0 then Some(queue.entries[0].value.kind) else None;
      more := state == HasWaiters && queue.count > 1;
    }

    /** `outstanding`: the receiver still owes a reply. */
    method Receive(who: ThreadId, outstanding: bool, ghost s: State) returns (ok: bool)
      requires Holds(s) && Inv(s) && who in s.thread && s.thread[who] != Blocked
      requires outstanding == s.current[who].Some?
      modifies this, queue, queue.entries
      ensures ok <==> Step(s, who, OpReceive).Ok?
      ensures Holds(Exec(s, Act(who, OpReceive)))
    {
      ReceiveAgrees(s, who);
      QueueFits(s, Act(who, OpReceive));
      var head, more := Peek();
      ok := true;
      match DecideReceive(state, outstanding, head, more)
      case DequeueSend(next) => var _ := Leave(next, s, Exec(s, Act(who, OpReceive)));
      case DequeueCall(next) => var _ := Leave(next, s, Exec(s, Act(who, OpReceive)));
      case QueueReceiver(next) => Join(who, WaitKind.Receive, next, s, Exec(s, Act(who, OpReceive)));
      case ReceiveError(_) => ok := false;
    }

    /** `isFresh`: the caller's Reply object is not in use. */
    method Call(who: ThreadId, isFresh: bool, ghost s: State) returns (ok: bool)
      requires Holds(s) && Inv(s) && who in s.thread && s.thread[who] != Blocked && who in s.reply
      requires isFresh == (s.reply[who] == Fresh)
      modifies this, queue, queue.entries
      ensures ok <==> Step(s, who, OpCall).Ok?
      ensures Holds(Exec(s, Act(who, OpCall)))
    {
      CallAgrees(s, who);
      QueueFits(s, Act(who, OpCall));
      ok := true;
      match DecideCall(isFresh, state)
      case CallReceiver(next) => var _ := Leave(next, s, Exec(s, Act(who, OpCall)));
      case QueueCall(next, _) => Join(who, WaitKind.Call, next, s, Exec(s, Act(who, OpCall)));
      case CallError(_) => ok := false;
    }
  }
}
