/**
 Entries the IPC client keeps in its table of pending replies although nobody waits
 for them any more, and no cancel is on its way to remove them.
 */
module LeakedCalls {
  import opened Wrappers
  import opened ClientMux

  ghost predicate Leaked(s: Client, id: nat) {
    id in s.pending && id in s.done && Cancel(id) !in s.queue
  }

  /** The caller leaves without a cancel: it goes away, or its timeout finds the queue full. */
  predicate LeavesSilently(s: Client, step: Step, id: nat) {
    step == Abandon(id) || (step == Timeout(id) && |s.queue| >= QUEUE_CAPACITY)
  }

  ghost predicate LeftSilently(s: Client, steps: seq<Step>, id: nat)
    requires AllEnabled(s, steps)
    decreases |steps|
  {
    steps != [] && (LeavesSilently(s, steps[0], id) || LeftSilently(Next(s, steps[0]), steps[1..], id))
  }

  ghost predicate Silent(s: Client, id: nat) {
    id in s.leaked || (id in s.done && s.done[id] == Abandoned)
  }

  lemma StepSilent(s: Client, step: Step, id: nat)
    requires OK(s) && Enabled(s, step) && Next(s, step).writerOpen
    ensures Silent(Next(s, step), id) <==> Silent(s, id) || LeavesSilently(s, step, id)
  {
    assert Tracked(s, id);
  }

  lemma {:induction false} RunSilent(s: Client, steps: seq<Step>, t: Client, id: nat)
    requires OK(s) && AllEnabled(s, steps) && t == Run(s, steps) && t.writerOpen
    ensures Silent(t, id) <==> Silent(s, id) || LeftSilently(s, steps, id)
    decreases |steps|
  {
    if steps != [] {
      var u := Next(s, steps[0]);
      StepKeepsOK(s, steps[0]);
      RunLater(u, steps[1..]);
      StepSilent(s, steps[0], id);
      hide OK, Next, Enabled, Silent, LeavesSilently;
      RunSilent(u, steps[1..], t, id);
    }
  }

  /**
   While the writer runs, a call that was not over at the start has leaked if and only
   if its caller left without a cancel and the entry is neither settled nor still to
   be registered.
   */
  lemma LeakedIff(s: Client, steps: seq<Step>, t: Client, id: nat)
    requires OK(s) && AllEnabled(s, steps) && t == Run(s, steps) && t.writerOpen && id !in s.done
    ensures Leaked(t, id) <==> LeftSilently(s, steps, id) && Send(id) !in t.queue && id !in t.settled
  {
    RunSilent(s, steps, t, id);
    RunKeepsOK(s, steps);
    assert Tracked(s, id) && Tracked(t, id);
  }

  // ── How long a leak lasts ────────────────────────────────────────────────

  /** The steps that remove a leaked entry; no cancel is among them. */
  predicate Clears(s: Client, step: Step, id: nat) {
    || (step.Hear? && step.id == id) || step.EndOfStream? || step.AbortReader?
    || (step == Write(false) && s.writing == Some(id))
  }

  ghost predicate Cleared(s: Client, steps: seq<Step>, id: nat)
    requires AllEnabled(s, steps)
    decreases |steps|
  {
    steps != [] && (Clears(s, steps[0], id) || Cleared(Next(s, steps[0]), steps[1..], id))
  }

  lemma StepStaysLeaked(s: Client, step: Step, id: nat)
    requires OK(s) && Enabled(s, step) && Leaked(s, id)
    ensures if Clears(s, step, id) then id in Next(s, step).settled else Leaked(Next(s, step), id)
  {
    assert Tracked(s, id);
    if step.TakeCancel? || step.TakeSend? || step.TakeClose? {
      assert s.queue[0] in s.queue;
      assert Send(id) !in s.queue;
    }
  }

  /**
   A leaked entry stays for the life of the connection unless the late response comes,
   the write of the request fails, or the reader ends.
   */
  lemma {:induction false} LeakLastsIff(s: Client, steps: seq<Step>, t: Client, id: nat)
    requires OK(s) && Leaked(s, id) && AllEnabled(s, steps) && t == Run(s, steps)
    ensures id in t.pending <==> !Cleared(s, steps, id)
    decreases |steps|
  {
    if steps != [] {
      var u := Next(s, steps[0]);
      StepKeepsOK(s, steps[0]);
      StepStaysLeaked(s, steps[0], id);
      if Clears(s, steps[0], id) {
        hide Next, Enabled, Clears;
        SettledNeverReenters(u, steps[1..], t, id);
      } else {
        hide OK, Next, Enabled, Clears;
        LeakLastsIff(u, steps[1..], t, id);
      }
    }
  }

  // ── A caller that goes away ──────────────────────────────────────────────

  /** Any registered call whose caller drops it leaks, with room in the queue too. */
  lemma AbandonedCallLeaks(s: Client, id: nat)
    requires OK(s) && id in s.waiting && id in s.pending
    ensures Enabled(s, Abandon(id)) && Leaked(Next(s, Abandon(id)), id)
    ensures Next(s, Abandon(id)).leaked == s.leaked && Next(s, Abandon(id)).queue == s.queue
  {
    assert Tracked(s, id);
  }

  lemma RunHead(s: Client, step: Step, rest: seq<Step>)
    requires Enabled(s, step) && AllEnabled(Next(s, step), rest)
    ensures AllEnabled(s, [step] + rest) && Run(s, [step] + rest) == Run(Next(s, step), rest)
  {
    assert ([step] + rest)[1..] == rest;
    hide Enabled, Next;
  }

  /** The first request of a new client, abandoned after it was written. */
  lemma FirstCallAbandoned(steps: seq<Step>)
    requires steps == [TakeId] + ([Enqueue(1)] + ([TakeSend(true)] + ([Write(true)] + ([Abandon(1)] + []))))
    ensures AllEnabled(NEW_CLIENT, steps)
    ensures
      var t := Run(NEW_CLIENT, steps);
      Leaked(t, 1) && t.waiting == {} && t.leaked == {} && t.queue == []
  {
    var taken := Next(NEW_CLIENT, TakeId);
    var queued := Next(taken, Enqueue(1));
    var writing := Next(queued, TakeSend(true));
    var written := Next(writing, Write(true));
    RunHead(written, Abandon(1), []);
    RunHead(writing, Write(true), [Abandon(1)] + []);
    RunHead(queued, TakeSend(true), [Write(true)] + ([Abandon(1)] + []));
    RunHead(taken, Enqueue(1), [TakeSend(true)] + ([Write(true)] + ([Abandon(1)] + [])));
    hide AllEnabled;
    RunHead(NEW_CLIENT, TakeId, [Enqueue(1)] + ([TakeSend(true)] + ([Write(true)] + ([Abandon(1)] + []))));
  }
}
