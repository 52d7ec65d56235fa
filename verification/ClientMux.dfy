/**
 The persistent IPC client: many callers share one connection. Their requests
 go through a bounded command queue to a writer, which registers a reply sender
 before it writes; a reader hands each response to the sender registered under
 its id. Callers may time out or go away at any moment, the connection may end at any
 moment.
 */
module ClientMux {
  import opened Wrappers

  const QUEUE_CAPACITY: nat := 64

  datatype Command = Send(id: nat) | Cancel(id: nat) | Close

  /** What a reply channel carries. */
  datatype Reply = Response(id: nat, payload: nat) | Failure

  /** How a call ends. */
  datatype Outcome = Answered(reply: Reply) | ConnectionClosed | TimedOut | Abandoned

  /**
   A call's id is in `taken` until its command is queued, then in `waiting`,
   then in `done`. Its reply sender is with the caller, in the queued command,
   in `pending`, or `settled`: used (its value is in `slots`) or dropped.
   `written` are the requests on the wire, `heard` the responses read, `leaked`
   the timed-out calls whose cancel found the queue full.
   */
  datatype Client = Client(
    nextId: nat,
    taken: set<nat>, waiting: set<nat>, done: map<nat, Outcome>,
    queue: seq<Command>, writing: Option<nat>, pending: set<nat>, settled: set<nat>, slots: map<nat, Reply>,
    written: set<nat>, heard: set<(nat, nat)>, leaked: set<nat>,
    readerOpen: bool, writerOpen: bool)

  const NEW_CLIENT := Client(1, {}, {}, map[], [], None, {}, {}, map[], {}, {}, {}, true, true)

  datatype Step =
    | TakeId
    | Enqueue(id: nat)
    | Refuse(id: nat)
    | TakeSend(encodes: bool)
    | TakeCancel
    | TakeClose
    | Write(succeeds: bool)
    | Hear(id: nat, payload: nat)
    | EndOfStream
    | AbortReader
    | Receive(id: nat)
    | ReceiveClosed(id: nat)
    | Timeout(id: nat)
    | Abandon(id: nat)
    | AskClose

  predicate Enabled(s: Client, step: Step) {
    match step
    case TakeId => true
    case Enqueue(id) => id in s.taken && s.writerOpen && |s.queue| < QUEUE_CAPACITY
    case Refuse(id) => id in s.taken && !s.writerOpen
    case TakeSend(_) => s.writerOpen && s.writing.None? && s.queue != [] && s.queue[0].Send?
    case TakeCancel => s.writerOpen && s.writing.None? && s.queue != [] && s.queue[0].Cancel?
    case TakeClose => s.writerOpen && s.writing.None? && s.queue != [] && s.queue[0].Close?
    case Write(_) => s.writing.Some?
    case Hear(_, _) => s.readerOpen
    case EndOfStream => s.readerOpen
    case AbortReader => !s.writerOpen
    case Receive(id) => id in s.waiting && id in s.slots
    case ReceiveClosed(id) => id in s.waiting && id in s.settled && id !in s.slots
    // A reply that is there when the deadline passes is taken: the timeout polls the reply first.
    case Timeout(id) => id in s.waiting && id !in s.settled
    // The caller drops the request: while it waits for room in the queue, or for the reply.
    case Abandon(id) => id in s.taken || id in s.waiting
    case AskClose => s.writerOpen && |s.queue| < QUEUE_CAPACITY
  }

  function QueuedSends(queue: seq<Command>): set<nat> {
    set c | c in queue && c.Send? :: c.id
  }

  function Next(s: Client, step: Step): Client
    requires Enabled(s, step)
  {
    match step
    case TakeId => s.(nextId := s.nextId + 1, taken := s.taken + {s.nextId})
    case Enqueue(id) => s.(taken := s.taken - {id}, waiting := s.waiting + {id}, queue := s.queue + [Send(id)])
    case Refuse(id) => s.(taken := s.taken - {id}, settled := s.settled + {id}, done := s.done[id := ConnectionClosed])
    case TakeSend(encodes) =>
      var id := s.queue[0].id;
      if encodes then s.(queue := s.queue[1..], pending := s.pending + {id}, writing := Some(id))
      else s.(queue := s.queue[1..], settled := s.settled + {id}, slots := s.slots[id := Failure])
    case TakeCancel =>
      var id := s.queue[0].id;
      s.(queue := s.queue[1..], pending := s.pending - {id},
         settled := if id in s.pending then s.settled + {id} else s.settled)
    case TakeClose => s.(queue := [], settled := s.settled + QueuedSends(s.queue), writerOpen := false)
    case Write(succeeds) =>
      var id := s.writing.value;
      if succeeds then s.(writing := None, written := s.written + {id})
      else if id in s.pending then
        s.(writing := None, pending := s.pending - {id}, settled := s.settled + {id}, slots := s.slots[id := Failure])
      else s.(writing := None)
    case Hear(id, payload) =>
      var t := s.(heard := s.heard + {(id, payload)});
      if id in s.pending then
        t.(pending := s.pending - {id}, settled := s.settled + {id}, slots := s.slots[id := Response(id, payload)])
      else t
    case EndOfStream =>
      s.(readerOpen := false, pending := {}, settled := s.settled + s.pending,
         slots := s.slots + map id | id in s.pending :: Failure)
    case AbortReader => s.(readerOpen := false, pending := {}, settled := s.settled + s.pending)
    case Receive(id) => s.(waiting := s.waiting - {id}, done := s.done[id := Answered(s.slots[id])])
    case ReceiveClosed(id) => s.(waiting := s.waiting - {id}, done := s.done[id := ConnectionClosed])
    case Timeout(id) =>
      var t := s.(waiting := s.waiting - {id}, done := s.done[id := TimedOut]);
      if s.writerOpen && |s.queue| < QUEUE_CAPACITY then t.(queue := s.queue + [Cancel(id)])
      else t.(leaked := s.leaked + {id})
    case Abandon(id) =>
      s.(taken := s.taken - {id}, waiting := s.waiting - {id}, done := s.done[id := Abandoned],
         settled := if id in s.taken then s.settled + {id} else s.settled)
    case AskClose => s.(queue := s.queue + [Close])
  }

  ghost predicate AllEnabled(s: Client, steps: seq<Step>)
    decreases |steps|
  {
    steps == [] || (Enabled(s, steps[0]) && AllEnabled(Next(s, steps[0]), steps[1..]))
  }

  ghost function Run(s: Client, steps: seq<Step>): Client
    requires AllEnabled(s, steps)
    decreases |steps|
  {
    if steps == [] then s else Run(Next(s, steps[0]), steps[1..])
  }

  // ── What holds in every reachable state ──────────────────────────────────

  function One(b: bool): nat {
    if b then 1 else 0
  }

  /** A call is at one stage, its sender in one place, and nothing is known of ids not handed out. */
  ghost predicate Tracked(s: Client, id: nat) {
    && One(id in s.taken) + One(id in s.waiting) + One(id in s.done) == One(1 <= id < s.nextId)
    && One(id in s.taken) + multiset(s.queue)[Send(id)] + One(id in s.pending) + One(id in s.settled)
        == One(1 <= id < s.nextId)
    && (id in s.slots ==> id in s.settled)
    && (id in s.written || s.writing == Some(id) ==> id in s.pending || id in s.settled)
    && (Cancel(id) in s.queue ==> id in s.done && s.done[id] == TimedOut && id !in s.leaked)
    && (id in s.leaked ==> id in s.done)
    && (id in s.done && s.writerOpen && (Send(id) in s.queue || id in s.pending) ==>
        Cancel(id) in s.queue || id in s.leaked || s.done[id] == Abandoned)
  }

  /** A response reaches only the call that bears its id, and only if it was read. */
  ghost predicate Faithful(s: Client, id: nat) {
    && (id in s.slots && s.slots[id].Response? ==> s.slots[id].id == id && (id, s.slots[id].payload) in s.heard)
    && (id in s.done && s.done[id].Answered? && s.done[id].reply.Response? ==>
          s.done[id].reply.id == id && (id, s.done[id].reply.payload) in s.heard)
  }

  /** In the queue a call's cancel never precedes its request. */
  ghost predicate Fifo(queue: seq<Command>) {
    forall i, j :: 0 <= i < j < |queue| && queue[i].Cancel? ==> queue[j] != Send(queue[i].id)
  }

  ghost predicate OK(s: Client) {
    && (forall id :: Tracked(s, id)) && (forall id :: Faithful(s, id)) && Fifo(s.queue)
    && 1 <= s.nextId && |s.queue| <= QUEUE_CAPACITY
    && (!s.writerOpen ==> s.queue == [])
  }

  lemma QueueHead(queue: seq<Command>)
    requires queue != []
    ensures multiset(queue) == multiset{queue[0]} + multiset(queue[1..])
    ensures forall c :: c in queue <==> c == queue[0] || c in queue[1..]
  {
    assert queue == [queue[0]] + queue[1..];
  }

  lemma StepTracked(s: Client, step: Step, id: nat)
    requires OK(s) && Enabled(s, step)
    ensures Tracked(Next(s, step), id)
  {
    hide Next;
    match step {
      case Enqueue(_) | AskClose => QueueingTracked(s, step, id);
      case Timeout(_) => TimeoutTracked(s, step.id, id);
      case TakeSend(encodes) => SendTracked(s, encodes, id);
      case TakeCancel => CancelTracked(s, id);
      case TakeClose => CloseTracked(s, id);
      case TakeId | Refuse(_) | Receive(_) | ReceiveClosed(_) | Abandon(_) => CallerTracked(s, step, id);
      case Write(succeeds) => WriteTracked(s, succeeds, id);
      case Hear(_, _) => HearTracked(s, step.id, step.payload, id);
      case EndOfStream | AbortReader => ReaderEndTracked(s, step, id);
    }
  }

  lemma QueueingTracked(s: Client, step: Step, id: nat)
    requires OK(s) && Enabled(s, step) && (step.Enqueue? || step.AskClose?)
    ensures Tracked(Next(s, step), id)
  {
    assert Tracked(s, id);
  }

  lemma TimeoutTracked(s: Client, x: nat, id: nat)
    requires OK(s) && Enabled(s, Timeout(x))
    ensures Tracked(Next(s, Timeout(x)), id)
  {
    assert Tracked(s, id);
  }

  lemma SendTracked(s: Client, encodes: bool, id: nat)
    requires OK(s) && Enabled(s, TakeSend(encodes))
    ensures Tracked(Next(s, TakeSend(encodes)), id)
  {
    assert Tracked(s, id);
    QueueHead(s.queue);
  }

  lemma CallerTracked(s: Client, step: Step, id: nat)
    requires OK(s) && Enabled(s, step)
    requires step.TakeId? || step.Refuse? || step.Receive? || step.ReceiveClosed? || step.Abandon?
    ensures Tracked(Next(s, step), id)
  {
    assert Tracked(s, id);
  }

  lemma WriteTracked(s: Client, succeeds: bool, id: nat)
    requires OK(s) && Enabled(s, Write(succeeds))
    ensures Tracked(Next(s, Write(succeeds)), id)
  {
    assert Tracked(s, id);
  }

  lemma HearTracked(s: Client, x: nat, payload: nat, id: nat)
    requires OK(s) && Enabled(s, Hear(x, payload))
    ensures Tracked(Next(s, Hear(x, payload)), id)
  {
    assert Tracked(s, id);
  }

  lemma ReaderEndTracked(s: Client, step: Step, id: nat)
    requires OK(s) && Enabled(s, step) && (step.EndOfStream? || step.AbortReader?)
    ensures Tracked(Next(s, step), id)
  {
    assert Tracked(s, id);
  }

  lemma CancelTracked(s: Client, id: nat)
    requires OK(s) && Enabled(s, TakeCancel)
    ensures Tracked(Next(s, TakeCancel), id)
  {
    assert Tracked(s, id);
    QueueHead(s.queue);
    assert Send(s.queue[0].id) !in s.queue;
  }

  lemma CloseTracked(s: Client, id: nat)
    requires OK(s) && Enabled(s, TakeClose)
    ensures Tracked(Next(s, TakeClose), id)
  {
    assert Tracked(s, id);
    assert id in QueuedSends(s.queue) <==> Send(id) in s.queue;
    assert multiset(s.queue)[Send(id)] > 0 <==> Send(id) in s.queue;
  }

  lemma StepFaithful(s: Client, step: Step, id: nat)
    requires OK(s) && Enabled(s, step)
    ensures Faithful(Next(s, step), id)
  {
    assert Faithful(s, id) && Tracked(s, id);
  }

  lemma StepFifo(s: Client, step: Step)
    requires OK(s) && Enabled(s, step)
    ensures Fifo(Next(s, step).queue)
  {
    if step.Enqueue? {
      assert Tracked(s, step.id);
      assert Cancel(step.id) !in s.queue;
    }
  }

  lemma StepKeepsOK(s: Client, step: Step)
    requires OK(s) && Enabled(s, step)
    ensures OK(Next(s, step))
  {
    forall id ensures Tracked(Next(s, step), id) { StepTracked(s, step, id); }
    forall id ensures Faithful(Next(s, step), id) { StepFaithful(s, step, id); }
    StepFifo(s, step);
  }

  lemma NewClientOK()
    ensures OK(NEW_CLIENT)
  {
  }

  lemma {:induction false} RunKeepsOK(s: Client, steps: seq<Step>)
    requires OK(s) && AllEnabled(s, steps)
    ensures OK(Run(s, steps))
    decreases |steps|
  {
    if steps != [] {
      StepKeepsOK(s, steps[0]);
      RunKeepsOK(Next(s, steps[0]), steps[1..]);
    }
  }

  // ── What callers may rely on ─────────────────────────────────────────────

  /** From s to t nothing that was decided is undecided. */
  ghost predicate Later(s: Client, t: Client) {
    && s.settled <= t.settled && s.heard <= t.heard && s.written <= t.written
    && (forall id :: id in s.done ==> id in t.done && t.done[id] == s.done[id])
    && (!s.readerOpen ==> !t.readerOpen) && (!s.writerOpen ==> !t.writerOpen)
  }

  lemma StepLater(s: Client, step: Step)
    requires OK(s) && Enabled(s, step)
    ensures Later(s, Next(s, step))
  {
    forall id | id in s.done
      ensures id in Next(s, step).done && Next(s, step).done[id] == s.done[id]
    {
      assert Tracked(s, id);
    }
  }

  lemma {:induction false} RunLater(s: Client, steps: seq<Step>)
    requires OK(s) && AllEnabled(s, steps)
    ensures Later(s, Run(s, steps))
    decreases |steps|
  {
    if steps != [] {
      StepLater(s, steps[0]);
      StepKeepsOK(s, steps[0]);
      RunLater(Next(s, steps[0]), steps[1..]);
    }
  }

  /**
   From any reachable state on, in every interleaving, a call that has ended keeps its
   outcome, and if it ended with a response, then with one that was read off the
   connection under the call's own id.
   */
  lemma EndsOnceWithItsOwnResponse(s: Client, steps: seq<Step>, t: Client, id: nat)
    requires OK(s) && AllEnabled(s, steps) && t == Run(s, steps) && id in s.done
    ensures id in t.done && t.done[id] == s.done[id] && id !in t.waiting && id !in t.taken
    ensures t.done[id].Answered? && t.done[id].reply.Response? ==>
              t.done[id].reply.id == id && (id, t.done[id].reply.payload) in t.heard
  {
    RunLater(s, steps);
    RunKeepsOK(s, steps);
    assert Tracked(t, id) && Faithful(t, id);
  }

  /** A response read while its request is being written, or after it, finds the waiter unless the call is settled. */
  lemma ResponseFindsWaiter(s: Client, id: nat, payload: nat)
    requires OK(s) && s.readerOpen && (id in s.written || s.writing == Some(id)) && id !in s.settled
    ensures
      var t := Next(s, Hear(id, payload));
      id in t.slots && t.slots[id] == Response(id, payload) && (id in t.waiting ==> Enabled(t, Receive(id)))
  {
    assert Tracked(s, id);
  }

  /** An id once answered, failed or cancelled is never pending again, nor queued. */
  lemma SettledNeverReenters(s: Client, steps: seq<Step>, t: Client, id: nat)
    requires OK(s) && AllEnabled(s, steps) && t == Run(s, steps) && id in s.settled
    ensures id in t.settled && id !in t.pending && Send(id) !in t.queue
  {
    RunLater(s, steps);
    RunKeepsOK(s, steps);
    assert Tracked(t, id);
  }

  /** Once the connection is gone on both sides, every waiting call can end at once. */
  lemma NoCallOrphaned(s: Client, id: nat)
    requires OK(s) && !s.writerOpen && s.pending == {} && id in s.waiting
    ensures Enabled(s, Receive(id)) || Enabled(s, ReceiveClosed(id))
  {
    assert Tracked(s, id);
  }

  /**
   When the stream ends, every registered call that still waits can receive a failure;
   when the writer has closed, every such call can see that its connection is closed.
   */
  lemma EndsOfRegisteredCalls(s: Client, id: nat)
    requires OK(s) && id in s.pending && id in s.waiting
    ensures s.readerOpen ==>
              var t := Next(s, EndOfStream);
              Enabled(t, Receive(id)) && Next(t, Receive(id)).done[id] == Answered(Failure) && !t.readerOpen
    ensures !s.writerOpen ==>
              var t := Next(s, AbortReader);
              Enabled(t, ReceiveClosed(id)) && Next(t, ReceiveClosed(id)).done[id] == ConnectionClosed && !t.readerOpen
  {
    assert Tracked(s, id);
  }

  /** A request that cannot be encoded fails its call, and is neither registered nor written. */
  lemma UnencodableRequestFails(s: Client, id: nat)
    requires OK(s) && Enabled(s, TakeSend(false)) && s.queue[0] == Send(id) && id in s.waiting
    ensures
      var t := Next(s, TakeSend(false));
      && Enabled(t, Receive(id)) && Next(t, Receive(id)).done[id] == Answered(Failure)
      && t.pending == s.pending && t.writing == s.writing && t.queue == s.queue[1..]
  {
  }

  /** A close drops what is queued behind it: those calls see the connection closed. */
  lemma CloseDropsTheQueue(s: Client, id: nat)
    requires OK(s) && Enabled(s, TakeClose) && Send(id) in s.queue && id in s.waiting
    ensures
      var t := Next(s, TakeClose);
      Enabled(t, ReceiveClosed(id)) && Next(t, ReceiveClosed(id)).done[id] == ConnectionClosed && t.queue == []
  {
    assert Tracked(s, id);
    assert multiset(s.queue)[Send(id)] > 0;
    assert id in QueuedSends(s.queue);
  }

  // ── Replies and closing ──────────────────────────────────────────────────

  /** What is settled stays as it is: a reply never changes, and none comes where there is none. */
  ghost predicate SameReplies(s: Client, t: Client) {
    forall id :: id in s.settled ==> id in t.settled && (id in t.slots <==> id in s.slots)
                                     && (id in s.slots ==> t.slots[id] == s.slots[id])
  }

  lemma StepKeepsReply(s: Client, step: Step, id: nat)
    requires OK(s) && Enabled(s, step) && id in s.settled
    ensures id in Next(s, step).settled && (id in Next(s, step).slots <==> id in s.slots)
    ensures id in s.slots ==> Next(s, step).slots[id] == s.slots[id]
  {
    assert Tracked(s, id);
    if step.TakeSend? { assert s.queue[0] in s.queue; }
  }

  lemma {:induction false} RepliesAreFinal(s: Client, steps: seq<Step>, t: Client)
    requires OK(s) && AllEnabled(s, steps) && t == Run(s, steps)
    ensures SameReplies(s, t)
    decreases |steps|
  {
    if steps != [] {
      var u := Next(s, steps[0]);
      forall id | id in s.settled
        ensures id in u.settled && (id in u.slots <==> id in s.slots)
        ensures id in s.slots ==> u.slots[id] == s.slots[id]
      {
        StepKeepsReply(s, steps[0], id);
      }
      StepKeepsOK(s, steps[0]);
      hide OK, Next, Enabled;
      RepliesAreFinal(u, steps[1..], t);
    }
  }

  lemma StepCloses(s: Client, step: Step)
    requires Enabled(s, step)
    ensures (!Next(s, step).writerOpen || Close in Next(s, step).queue) ==>
              !s.writerOpen || Close in s.queue || step.AskClose?
  {
  }

  /** The writer stops only when some caller has asked for it. */
  lemma {:induction false} ClosesOnlyWhenAsked(s: Client, steps: seq<Step>, t: Client)
    requires s.writerOpen && Close !in s.queue && AllEnabled(s, steps) && t == Run(s, steps) && !t.writerOpen
    ensures AskClose in steps
    decreases |steps|
  {
    if steps != [] && !steps[0].AskClose? {
      StepCloses(s, steps[0]);
      hide Next, Enabled;
      ClosesOnlyWhenAsked(Next(s, steps[0]), steps[1..], t);
    }
  }
}
