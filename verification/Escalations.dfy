/**
 What the trust gate lets through: the calls it allows itself, and the escalated calls
 that the user approves. An approved call runs at once, past the allowlist and the limiter.
 */
module Escalations {
  import opened Wrappers
  import opened Selection
  import opened Trust

  /** The call that runs because of the operation, if any. */
  function LetThrough(g: Gate, op: Op): Option<Call> {
    match op
    case Check(call) => if Outcome(g, call) == Allowed then Some(call) else None
    case Approve(ticket, _) => if ticket in g.asked then Some(g.asked[ticket]) else None
    case Decline(_) => None
    case SetCap(_) => None
  }

  // ── Each call at most once ───────────────────────────────────────────────

  /** Tickets come from one counter for the whole process. */
  ghost predicate DistinctTickets(ops: seq<Op>) {
    forall i, j :: 0 <= i < j < |ops| && ops[i].Check? && ops[j].Check? ==> ops[i].call.ticket != ops[j].call.ticket
  }

  predicate Answers(op: Op, ticket: nat) {
    (op.Approve? || op.Decline?) && op.ticket == ticket
  }

  /** The call was escalated at the k-th operation and has not been answered since. */
  ghost predicate OpenSince(g: Gate, ops: seq<Op>, k: nat, call: Call) {
    && k < |ops| && ops[k] == Check(call) && Outcome(Run(g, ops[..k]), call).Escalation?
    && forall j :: k < j < |ops| ==> !Answers(ops[j], call.ticket)
  }

  lemma OpenSinceSnoc(g: Gate, ops: seq<Op>, k: nat, call: Call)
    requires ops != []
    ensures
      var n, before := |ops| - 1, ops[..|ops| - 1];
      OpenSince(g, ops, k, call) <==>
        || (k < n && OpenSince(g, before, k, call) && !Answers(ops[n], call.ticket))
        || (k == n && ops[n] == Check(call) && Outcome(Run(g, before), call).Escalation?)
  {
    if k < |ops| - 1 { assert ops[..|ops| - 1][..k] == ops[..k]; }
  }

  lemma {:induction false} AskedIff(g: Gate, ops: seq<Op>, call: Call)
    requires g.asked == map[] && DistinctTickets(ops)
    ensures call.ticket in Run(g, ops).asked && Run(g, ops).asked[call.ticket] == call <==>
            exists k: nat :: OpenSince(g, ops, k, call)
  {
    if ops != [] {
      var n, before := |ops| - 1, ops[..|ops| - 1];
      AskedIff(g, before, call);
      forall k: nat ensures OpenSince(g, ops, k, call) <==>
          || (k < n && OpenSince(g, before, k, call) && !Answers(ops[n], call.ticket))
          || (k == n && ops[n] == Check(call) && Outcome(Run(g, before), call).Escalation?)
      {
        OpenSinceSnoc(g, ops, k, call);
      }
      if k: nat :| OpenSince(g, before, k, call) { assert before[k] == ops[k] == Check(call); }
      AskedAfter(Run(g, before), ops[n], call);
      hide Outcome, Step, Run;
      if ops[n] == Check(call) && Outcome(Run(g, before), call).Escalation? { assert OpenSince(g, ops, n, call); }
      if k: nat :| OpenSince(g, before, k, call) && !Answers(ops[n], call.ticket) { assert OpenSince(g, ops, k, call); }
    }
  }

  lemma AskedAfter(g: Gate, op: Op, call: Call)
    ensures
      call.ticket in Step(g, op).asked && Step(g, op).asked[call.ticket] == call <==>
        || (op == Check(call) && Outcome(g, call).Escalation?)
        || (call.ticket in g.asked && g.asked[call.ticket] == call && !Answers(op, call.ticket)
            && !(op.Check? && op.call != call && op.call.ticket == call.ticket && Outcome(g, op.call).Escalation?))
  {
    hide Outcome, Metered, Recorded;
  }

  lemma {:induction false} AskedUnderOwnTicket(g: Gate, ops: seq<Op>, ticket: nat)
    requires g.asked == map[]
    ensures ticket in Run(g, ops).asked ==> Run(g, ops).asked[ticket].ticket == ticket
  {
    if ops != [] {
      AskedUnderOwnTicket(g, ops[..|ops| - 1], ticket);
      hide Outcome, Metered, Recorded;
    }
  }

  /**
   A call is let through at the i-th operation exactly if the gate allows it there, or
   if that is the user's approval of it, it was escalated earlier, and this is the first
   answer to it.
   */
  lemma LetThroughIff(g: Gate, ops: seq<Op>, i: nat, call: Call)
    requires g.asked == map[] && DistinctTickets(ops) && i < |ops|
    ensures LetThrough(Run(g, ops[..i]), ops[i]) == Some(call) <==>
            || (ops[i] == Check(call) && Outcome(Run(g, ops[..i]), call) == Allowed)
            || (ops[i].Approve? && ops[i].ticket == call.ticket && exists k: nat :: OpenSince(g, ops[..i], k, call))
  {
    AskedIff(g, ops[..i], call);
    if ops[i].Approve? { AskedUnderOwnTicket(g, ops[..i], ops[i].ticket); }
    hide Outcome, Run, OpenSince;
  }

  lemma OpenInPrefix(g: Gate, ops: seq<Op>, n: nat, call: Call)
    requires n <= |ops|
    ensures forall k: nat :: OpenSince(g, ops[..n], k, call) ==>
              && k < n && ops[k] == Check(call) && Outcome(Run(g, ops[..k]), call).Escalation?
              && forall l :: k < l < n ==> !Answers(ops[l], call.ticket)
  {
    forall k: nat | OpenSince(g, ops[..n], k, call)
      ensures ops[k] == Check(call) && Outcome(Run(g, ops[..k]), call).Escalation?
      ensures forall l :: k < l < n ==> !Answers(ops[l], call.ticket)
    {
      assert ops[..n][..k] == ops[..k];
      forall l | k < l < n ensures !Answers(ops[l], call.ticket) { assert ops[..n][l] == ops[l]; }
    }
  }

  /** No call runs twice. */
  lemma LetThroughOnce(g: Gate, ops: seq<Op>, i: nat, j: nat, call: Call)
    requires g.asked == map[] && DistinctTickets(ops) && i < j < |ops|
    requires LetThrough(Run(g, ops[..i]), ops[i]) == Some(call)
    ensures LetThrough(Run(g, ops[..j]), ops[j]) != Some(call)
  {
    hide Outcome, Run, LetThrough, OpenSince;
    assert ops[i].Approve? ==> Answers(ops[i], ops[i].ticket);
    OpenInPrefix(g, ops, i, call);
    OpenInPrefix(g, ops, j, call);
    LetThroughIff(g, ops, i, call);
    LetThroughIff(g, ops, j, call);
  }

  /**
   An approved call runs whether or not the agent's allowlist has the tool, and whatever
   the limiter remembers. The same call made again afterwards passes the gate exactly if
   the allowlist has it and, for Admin tools, the limiter admits it.
   */
  lemma ApprovalIgnoresAllowlist(g: Gate, call: Call, at: int, again: Call)
    requires Outcome(g, call).Escalation?
    requires again == call.(ticket := again.ticket, now := again.now)
    ensures
      var asked := Step(g, Check(call));
      var approved := Step(asked, Approve(call.ticket, at));
      && LetThrough(asked, Approve(call.ticket, at)) == Some(call)
      && approved.windows == g.windows && approved.cap == g.cap
      && (Outcome(approved, again) == Allowed <==>
            Listed(call.config, call.agent, call.tool)
            && (ToolCategory(call.tool) == Some(Admin) ==> Admits(g.windows, g.cap, call.agent.name, again.now)))
  {
    hide ToolCategory, Admits, Recorded;
  }

  // ── The cap with approvals ───────────────────────────────────────────────

  function NewlyRun(g: Gate, op: Op, name: string): seq<int> {
    if LetThrough(g, op).Some? && AdminOf(LetThrough(g, op).value, name) then [TimeOf(op)] else []
  }

  /** When the agent's Admin calls ran. */
  function RunAt(g: Gate, ops: seq<Op>, name: string): seq<int> {
    if ops == [] then []
    else RunAt(g, ops[..|ops| - 1], name) + NewlyRun(Run(g, ops[..|ops| - 1]), ops[|ops| - 1], name)
  }

  function NewlyApproved(g: Gate, op: Op, name: string): seq<int> {
    if op.Approve? && op.ticket in g.asked && AdminOf(g.asked[op.ticket], name) then [op.at] else []
  }

  /** When escalated Admin calls of the agent were approved. */
  function ApprovedAt(g: Gate, ops: seq<Op>, name: string): seq<int> {
    if ops == [] then []
    else ApprovedAt(g, ops[..|ops| - 1], name) + NewlyApproved(Run(g, ops[..|ops| - 1]), ops[|ops| - 1], name)
  }

  lemma NewlyRunSplits(g: Gate, op: Op, name: string)
    ensures NewlyRun(g, op, name) == NewlyAllowed(g, op, name) + NewlyApproved(g, op, name)
  {
    hide Outcome, ToolCategory;
  }

  lemma {:induction false} RunSplits(g: Gate, ops: seq<Op>, name: string, p: int -> bool)
    ensures |Select(RunAt(g, ops, name), p)| ==
            |Select(AllowedAt(g, ops, name), p)| + |Select(ApprovedAt(g, ops, name), p)|
  {
    if ops == [] {
      SelectNothing([], p);
    } else {
      var before, op := ops[..|ops| - 1], ops[|ops| - 1];
      var h := Run(g, before);
      RunSplits(g, before, name, p);
      NewlyRunSplits(h, op, name);
      hide Select, NewlyRun, NewlyAllowed, NewlyApproved, Run;
      SelectAppend(RunAt(g, before, name), NewlyRun(h, op, name), p);
      SelectAppend(AllowedAt(g, before, name), NewlyAllowed(h, op, name), p);
      SelectAppend(ApprovedAt(g, before, name), NewlyApproved(h, op, name), p);
      SelectAppend(NewlyAllowed(h, op, name), NewlyApproved(h, op, name), p);
    }
  }

  /** How many of the times lie in the sixty seconds up to t. */
  function InMinute(times: seq<int>, t: int): nat {
    |Select(times, Within(t - 60_000_000_000, t))|
  }

  /**
   The Admin calls that run in any sixty seconds are those the gate allows, at most c of
   them, and the escalations approved in that time.
   */
  lemma AtMostCapAndApprovals(g: Gate, ops: seq<Op>, c: U32, name: string, t: int)
    requires g.windows == map[] && CapsWithin(g, ops, c) && Ordered(ops)
    ensures InMinute(RunAt(g, ops, name), t) ==
            InMinute(AllowedAt(g, ops, name), t) + InMinute(ApprovedAt(g, ops, name), t)
    ensures InMinute(AllowedAt(g, ops, name), t) <= c
  {
    RunSplits(g, ops, name, Within(t - MINUTE, t));
    hide Select, CapsWithin, Ordered;
    AtMostCapPerMinute(g, ops, c, name, t);
  }

  ghost predicate CapHolds(times: seq<int>, c: nat) {
    forall t :: InMinute(times, t) <= c
  }

  /** If the operation lets an Admin call of the agent through, fewer than c ran in the minute before it. */
  ghost predicate RoomAt(g: Gate, ops: seq<Op>, i: nat, c: nat, name: string)
    requires i < |ops|
  {
    NewlyRun(Run(g, ops[..i]), ops[i], name) != [] ==>
      InMinute(RunAt(g, ops[..i], name), TimeOf(ops[i])) < c
  }

  lemma {:induction false} RunNotAfter(g: Gate, ops: seq<Op>, name: string, now: int)
    requires NotAfter(ops, now)
    ensures forall i :: 0 <= i < |RunAt(g, ops, name)| ==> RunAt(g, ops, name)[i] <= now
  {
    if ops != [] {
      hide LetThrough, ToolCategory, Run;
      RunNotAfter(g, ops[..|ops| - 1], name, now);
    }
  }

  lemma NewlyRunIsTimed(g: Gate, op: Op, name: string)
    requires NewlyRun(g, op, name) != []
    ensures Timed(op) && NewlyRun(g, op, name) == [TimeOf(op)]
  {
  }

  lemma InMinuteSnoc(times: seq<int>, u: int, t: int)
    ensures InMinute(times + [u], t) == InMinute(times, t) + if t - MINUTE < u <= t then 1 else 0
  {
    assert (times + [u])[..|times|] == times;
  }

  /** One more call keeps the cap exactly if there is room for it. */
  lemma CapHoldsSnoc(times: seq<int>, u: int, c: nat)
    requires forall i :: 0 <= i < |times| ==> times[i] <= u
    ensures CapHolds(times + [u], c) <==> CapHolds(times, c) && InMinute(times, u) < c
  {
    forall t ensures InMinute(times + [u], t) == InMinute(times, t) + if t - MINUTE < u <= t then 1 else 0 {
      InMinuteSnoc(times, u, t);
    }
    forall t | t - MINUTE < u <= t ensures InMinute(times, t) <= InMinute(times, u) {
      SelectFewer(times, Within(t - MINUTE, t), Within(u - MINUTE, u));
    }
    hide InMinute;
    if CapHolds(times + [u], c) {
      assert InMinute(times + [u], u) <= c;
      forall t ensures InMinute(times, t) <= c { assert InMinute(times + [u], t) <= c; }
    }
  }

  /**
   With approvals counted, the agent stays within c Admin calls in any sixty seconds of a
   run if and only if each call that runs, approved or allowed, finds fewer than c in the
   minute before it.
   */
  lemma {:induction false} CapHoldsIff(g: Gate, ops: seq<Op>, c: nat, name: string)
    requires Ordered(ops)
    ensures CapHolds(RunAt(g, ops, name), c) <==> forall i :: 0 <= i < |ops| ==> RoomAt(g, ops, i, c, name)
  {
    if ops == [] {
      forall t ensures InMinute([], t) <= c { SelectNothing([], Within(t - MINUTE, t)); }
    } else {
      var n, before := |ops| - 1, ops[..|ops| - 1];
      assert Ordered(before) && ops == before + [ops[n]];
      hide RoomAt, CapHolds, Ordered, RunAt;
      CapHoldsIff(g, before, c, name);
      forall i | 0 <= i < n ensures RoomAt(g, ops, i, c, name) == RoomAt(g, before, i, c, name) {
        RoomBefore(g, before, ops[n], i, c, name);
      }
      CapHoldsStep(g, before, ops[n], c, name);
    }
  }

  lemma RoomBefore(g: Gate, before: seq<Op>, op: Op, i: nat, c: nat, name: string)
    requires i < |before|
    ensures RoomAt(g, before + [op], i, c, name) == RoomAt(g, before, i, c, name)
  {
    hide NewlyRun, Run, RunAt, Select;
    assert (before + [op])[..i] == before[..i];
  }

  lemma LastIsLatest(before: seq<Op>, op: Op)
    requires Ordered(before + [op]) && Timed(op)
    ensures NotAfter(before, TimeOf(op))
  {
    var ops := before + [op];
    forall i | 0 <= i < |before| && Timed(before[i]) ensures TimeOf(before[i]) <= TimeOf(op) {
      assert Timed(ops[i]) && Timed(ops[|before|]);
    }
  }

  lemma CapHoldsStep(g: Gate, before: seq<Op>, op: Op, c: nat, name: string)
    requires Ordered(before + [op])
    ensures CapHolds(RunAt(g, before + [op], name), c) <==>
            CapHolds(RunAt(g, before, name), c) && RoomAt(g, before + [op], |before|, c, name)
  {
    hide Run, NewlyRun, Select, CapHolds, Ordered, NotAfter, TimeOf;
    assert (before + [op])[..|before|] == before && (before + [op])[|before|] == op;
    var times, added := RunAt(g, before, name), NewlyRun(Run(g, before), op, name);
    assert RunAt(g, before + [op], name) == times + added;
    hide RunAt;
    if added == [] {
      assert times + [] == times;
    } else {
      NewlyRunIsTimed(Run(g, before), op, name);
      LastIsLatest(before, op);
      RunNotAfter(g, before, name, TimeOf(op));
      CapHoldsSnoc(times, TimeOf(op), c);
    }
  }

  // ── Approvals exceed the cap ─────────────────────────────────────────────

  const START := Gate(1, map[], {}, map[])

  /** Destroying a session is asked for over a connection of its own, by an agent nobody configured. */
  function Asking(n: nat): Call {
    Call("terminal.sessions.destroy", Agent("agent", n), TrustConfig(Sandboxed, map[], None), true, n, 0)
  }

  /** n such calls, each escalated and then approved, all at one instant. */
  function AskAndApprove(n: nat): seq<Op> {
    if n == 0 then [] else AskAndApprove(n - 1) + [Check(Asking(n - 1)), Approve(n - 1, 0)]
  }

  lemma AskingEscalates(g: Gate, n: nat)
    requires (n, Asking(n).tool) !in g.grants
    ensures Outcome(g, Asking(n)).Escalation? && !Metered(g, Asking(n)) && AdminOf(Asking(n), "agent")
  {
  }

  lemma RunTwo(g: Gate, before: seq<Op>, a: Op, b: Op, name: string)
    ensures
      var h, all := Run(g, before), before + [a, b];
      && Run(g, all) == Step(Step(h, a), b)
      && RunAt(g, all, name) == RunAt(g, before, name) + NewlyRun(h, a, name) + NewlyRun(Step(h, a), b, name)
      && AllowedAt(g, all, name)
         == AllowedAt(g, before, name) + NewlyAllowed(h, a, name) + NewlyAllowed(Step(h, a), b, name)
  {
    var all := before + [a, b];
    var one := before + [a];
    assert all[..|all| - 1] == one && one[..|one| - 1] == before;
    hide Step, NewlyRun, NewlyAllowed;
  }

  lemma AskedAndApproved(g: Gate, n: nat)
    requires g.windows == map[] && g.asked == map[] && forall p :: p in g.grants ==> p.0 < n
    ensures
      var h := Step(g, Check(Asking(n)));
      var k := Step(h, Approve(n, 0));
      && NewlyRun(g, Check(Asking(n)), "agent") == [] && NewlyAllowed(g, Check(Asking(n)), "agent") == []
      && NewlyRun(h, Approve(n, 0), "agent") == [0] && NewlyAllowed(h, Approve(n, 0), "agent") == []
      && k.windows == map[] && k.asked == map[] && forall p :: p in k.grants ==> p.0 <= n
  {
    AskingEscalates(g, n);
    assert Asking(n).ticket == n && Asking(n).agent.connection == n;
    hide Outcome, Metered, AdminOf, Asking;
  }

  lemma {:induction false} AskedAtZero(n: nat)
    ensures forall op :: op in AskAndApprove(n) ==> Timed(op) && TimeOf(op) == 0
  {
    if n > 0 { AskedAtZero(n - 1); }
  }

  /** All n calls have run at time 0, and nothing is recorded of them but the grants. */
  ghost predicate AllHaveRun(g: Gate, ops: seq<Op>, n: nat) {
    && InMinute(RunAt(g, ops, "agent"), 0) == n && AllowedAt(g, ops, "agent") == []
    && Run(g, ops).windows == map[] && Run(g, ops).asked == map[]
    && forall p :: p in Run(g, ops).grants ==> p.0 < n
  }

  lemma {:induction false} AllRun(g: Gate, n: nat)
    requires g.windows == map[] && g.asked == map[] && g.grants == {}
    ensures AllHaveRun(g, AskAndApprove(n), n)
  {
    if n > 0 {
      AllRun(g, n - 1);
      OneMoreRuns(g, AskAndApprove(n - 1), n - 1);
      hide AllHaveRun;
    } else {
      assert InMinute([], 0) == 0;
    }
  }

  lemma OneMoreRuns(g: Gate, before: seq<Op>, n: nat)
    requires AllHaveRun(g, before, n)
    ensures AllHaveRun(g, before + [Check(Asking(n)), Approve(n, 0)], n + 1)
  {
    hide Run, RunAt, AllowedAt, NewlyRun, NewlyAllowed, Step, InMinute, Asking;
    RunTwo(g, before, Check(Asking(n)), Approve(n, 0), "agent");
    AskedAndApproved(Run(g, before), n);
    InMinuteSnoc(RunAt(g, before, "agent"), 0, 0);
    assert RunAt(g, before, "agent") + [] + [0] == RunAt(g, before, "agent") + [0];
  }

  /**
   With a cap of one, any number of Admin calls under one name can run at one instant:
   each is escalated and approved, the gate allows none, and the limiter remembers none.
   */
  lemma ApprovalsExceedCap(n: nat)
    ensures
      var ops := AskAndApprove(n);
      && CapsWithin(START, ops, 1) && Ordered(ops)
      && InMinute(RunAt(START, ops, "agent"), 0) == n && AllowedAt(START, ops, "agent") == []
      && Run(START, ops).windows == map[]
  {
    AskedAtZero(n);
    AllRun(START, n);
    assert AllHaveRun(START, AskAndApprove(n), n) ==>
        InMinute(RunAt(START, AskAndApprove(n), "agent"), 0) == n && AllowedAt(START, AskAndApprove(n), "agent") == []
        && Run(START, AskAndApprove(n)).windows == map[] by { hide AskAndApprove, Run, RunAt, AllowedAt, InMinute; }
    hide *;
    AtZeroIsOrdered(AskAndApprove(n));
  }

  lemma AtZeroIsOrdered(ops: seq<Op>)
    requires forall op :: op in ops ==> Timed(op) && TimeOf(op) == 0
    ensures CapsWithin(START, ops, 1) && Ordered(ops)
  {
    assert forall i :: 0 <= i < |ops| ==> ops[i] in ops;
  }
}
