/**
 What becomes of calls the IPC client registers after its reader has seen the end
 of the stream: the writer goes on taking requests, and nobody reads responses.
 */
module UnansweredCalls {
  import opened Wrappers
  import opened ClientMux

  /** The steps that answer a registered call once the reader is gone: its own write fails, or the client closes. */
  predicate FailsWrite(s: Client, step: Step, id: nat) {
    step == Write(false) && s.writing == Some(id)
  }

  datatype Fate = Open | WriteFailed | Aborted

  /** What became first of a call registered in s, in a run from there. */
  ghost function FateOf(s: Client, steps: seq<Step>, id: nat): Fate
    requires AllEnabled(s, steps)
    decreases |steps|
  {
    if steps == [] then Open
    else if FailsWrite(s, steps[0], id) then WriteFailed
    else if steps[0].AbortReader? then Aborted
    else FateOf(Next(s, steps[0]), steps[1..], id)
  }

  /** A call that still waits after its fate is decided holds the outcome that follows from it. */
  ghost predicate Bears(s: Client, fate: Fate, id: nat) {
    match fate
    case Open => id in s.pending
    case WriteFailed => id in s.slots && s.slots[id] == Failure
    case Aborted => id in s.settled && id !in s.slots
  }

  ghost predicate Orphan(s: Client, fate: Fate, id: nat) {
    OK(s) && !s.readerOpen && id in s.waiting && Bears(s, fate, id)
  }

  /** How a call with that fate ends if its caller stays. */
  function EndOf(fate: Fate): Outcome {
    match fate
    case Open => TimedOut
    case WriteFailed => Answered(Failure)
    case Aborted => ConnectionClosed
  }

  /** How a step changes the fate of a call. */
  function Decided(s: Client, fate: Fate, step: Step, id: nat): Fate {
    if fate != Open then fate
    else if FailsWrite(s, step, id) then WriteFailed
    else if step.AbortReader? then Aborted
    else Open
  }

  lemma OrphanStep(s: Client, fate: Fate, step: Step, id: nat)
    requires Orphan(s, fate, id) && Enabled(s, step) && id in Next(s, step).waiting
    ensures Bears(Next(s, step), Decided(s, fate, step, id), id) && !Next(s, step).readerOpen
  {
    assert Tracked(s, id);
    if step.TakeSend? || step.TakeCancel? || step.TakeClose? {
      OrphanTake(s, fate, step, id);
    } else {
      assert (id in s.slots ==> id in s.settled) && !(id in s.pending && id in s.settled) && id !in s.taken;
      hide *;
      OrphanElsewhere(s, fate, step, id);
    }
  }

  lemma OrphanElsewhere(s: Client, fate: Fate, step: Step, id: nat)
    requires Bears(s, fate, id) && !s.readerOpen && Enabled(s, step)
    requires (id in s.slots ==> id in s.settled) && !(id in s.pending && id in s.settled) && id !in s.taken
    requires !step.TakeSend? && !step.TakeCancel? && !step.TakeClose?
    ensures Bears(Next(s, step), Decided(s, fate, step, id), id) && !Next(s, step).readerOpen
  {
  }

  lemma OrphanTake(s: Client, fate: Fate, step: Step, id: nat)
    requires Orphan(s, fate, id) && Enabled(s, step) && (step.TakeSend? || step.TakeCancel? || step.TakeClose?)
    ensures Bears(Next(s, step), fate, id) && !Next(s, step).readerOpen
  {
    assert Tracked(s, id);
    assert Send(id) !in s.queue && Cancel(id) !in s.queue;
    assert s.queue[0] in s.queue;
    hide OK, Tracked;
  }

  lemma OrphanEnd(s: Client, fate: Fate, last: Step, id: nat)
    requires Orphan(s, fate, id) && Enabled(s, last) && id in Next(s, last).done
    ensures Next(s, last).done[id] == if last == Abandon(id) then Abandoned else EndOf(fate)
  {
    assert Tracked(s, id);
  }

  lemma {:induction false} OrphanRun(s: Client, fate: Fate, steps: seq<Step>, id: nat, t: Client)
    requires Orphan(s, fate, id) && AllEnabled(s, steps) && t == Run(s, steps) && id in t.waiting
    ensures Orphan(t, if fate == Open then FateOf(s, steps, id) else fate, id)
    decreases |steps|
  {
    if steps != [] {
      var u := Next(s, steps[0]);
      StepKeepsOK(s, steps[0]);
      StillWaiting(s, steps, id);
      OrphanStep(s, fate, steps[0], id);
      hide OK, Next, Enabled, Bears;
      OrphanRun(u, Decided(s, fate, steps[0], id), steps[1..], id, t);
    }
  }

  /** A call that waits at the end of a run and at its start waits throughout. */
  lemma StillWaiting(s: Client, steps: seq<Step>, id: nat)
    requires OK(s) && AllEnabled(s, steps) && steps != [] && id in s.waiting && id in Run(s, steps).waiting
    ensures id in Next(s, steps[0]).waiting
  {
    var u := Next(s, steps[0]);
    StepKeepsOK(s, steps[0]);
    hide Next, Enabled;
    if id in u.done {
      RunKeepsOK(u, steps[1..]);
      OneStage(Run(u, steps[1..]), id);
      RunLater(u, steps[1..]);
    }
  }

  lemma OneStage(s: Client, id: nat)
    requires OK(s)
    ensures id in s.waiting ==> id !in s.done
  {
    assert Tracked(s, id);
  }

  /**
   Once the reader has seen the end of the stream, a call registered by the writer
   is never answered by the server. When it ends, its caller has gone away, or else
   it has timed out if and only if before that neither its write failed nor the client
   closed; a failed write ends it with the failure, a close with a closed connection,
   whichever came first.
   */
  lemma EndAfterEndOfStream(s: Client, steps: seq<Step>, t: Client, last: Step, id: nat)
    requires OK(s) && !s.readerOpen && id in s.waiting && id in s.pending
    requires AllEnabled(s, steps) && t == Run(s, steps) && id in t.waiting
    requires Enabled(t, last) && id in Next(t, last).done
    ensures
      var outcome, stayed := Next(t, last).done[id], last != Abandon(id);
      && (outcome == Abandoned <==> !stayed)
      && (outcome == TimedOut <==> stayed && FateOf(s, steps, id) == Open)
      && (outcome == Answered(Failure) <==> stayed && FateOf(s, steps, id) == WriteFailed)
      && (outcome == ConnectionClosed <==> stayed && FateOf(s, steps, id) == Aborted)
  {
    OrphanRun(s, Open, steps, id, t);
    OrphanEnd(t, FateOf(s, steps, id), last, id);
  }

  /** Of a call being written three ends follow at once: the write fails, time passes, or the caller goes away. */
  lemma WriteFailsOrTimePasses(s: Client, id: nat)
    requires OK(s) && s.writing == Some(id) && id in s.pending && id in s.waiting
    ensures
      var failed := Next(s, Write(false));
      Enabled(failed, Receive(id)) && Next(failed, Receive(id)).done[id] == Answered(Failure)
    ensures Enabled(s, Timeout(id)) && Next(s, Timeout(id)).done[id] == TimedOut
    ensures Enabled(s, Abandon(id)) && Next(s, Abandon(id)).done[id] == Abandoned
  {
    assert Tracked(s, id);
  }

  /** The fourth is a close, which an idle writer takes. */
  lemma CloseEndsCalls(s: Client, id: nat)
    requires OK(s) && s.writerOpen && s.writing.None? && s.queue == [] && id in s.pending && id in s.waiting
    ensures
      var asked := Next(s, AskClose);
      Enabled(asked, TakeClose) &&
      var aborted := Next(Next(asked, TakeClose), AbortReader);
      Enabled(aborted, ReceiveClosed(id)) && Next(aborted, ReceiveClosed(id)).done[id] == ConnectionClosed
  {
    assert Tracked(s, id);
  }

  /** Such calls arise whenever the stream ends while the writer is idle: the next request goes out without error. */
  lemma RequestAfterEndOfStream(s: Client)
    requires OK(s) && s.readerOpen && s.writerOpen && s.queue == [] && s.writing.None?
    ensures
      var id, taken := s.nextId, Next(Next(s, EndOfStream), TakeId);
      Enabled(taken, Enqueue(id)) &&
      var queued := Next(taken, Enqueue(id));
      Enabled(queued, TakeSend(true)) &&
      var writing := Next(queued, TakeSend(true));
      Enabled(writing, Write(true)) &&
      var t := Next(writing, Write(true));
      !t.readerOpen && id in t.waiting && id in t.pending && id in t.written
  {
    assert Tracked(s, s.nextId);
    assert Next(Next(Next(s, EndOfStream), TakeId), Enqueue(s.nextId)).queue[0] == Send(s.nextId);
  }
}
