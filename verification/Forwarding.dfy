/** Which events a server connection sends to its client, and when it closes. */
module Forwarding {
  import opened Wrappers
  import opened Utf8
  import opened Framing
  import opened Connection
  import opened FrameLoss

  /** The kinds of the events sent, in order. */
  function Forwards(out: seq<Output>): seq<nat> {
    if out == [] then []
    else Forwards(out[..|out| - 1]) + if out[|out| - 1].Forward? then [out[|out| - 1].kind] else []
  }

  /** An event is due if it comes while the subscription the frames have left wants its kind; no kinds mean all. */
  function DueAt(decode: seq<byte> -> Message, s: Session, step: Step): seq<nat> {
    match step
    case Broadcast(kind) =>
      (match SubscribedAfter(decode, s.received)
       case Some(kinds) => if !s.closed && (kinds == {} || kind in kinds) then [kind] else []
       case None => [])
    case Arrive(_) => []
    case Lagged => []
  }

  function Due(decode: seq<byte> -> Message, steps: seq<Step>): seq<nat> {
    if steps == [] then []
    else Due(decode, steps[..|steps| - 1]) + DueAt(decode, Run(decode, steps[..|steps| - 1]), steps[|steps| - 1])
  }

  lemma ForwardsSnoc(out: seq<Output>, o: Output)
    ensures Forwards(out + [o]) == Forwards(out) + if o.Forward? then [o.kind] else []
  {
    assert (out + [o])[..|out|] == out;
  }

  lemma ArriveForwardsNothing(decode: seq<byte> -> Message, s: Session, b: byte)
    ensures Forwards(Next(decode, s, Arrive(b)).out) == Forwards(s.out)
  {
    hide FromBigEndian, Forwards;
    var t := Next(decode, s, Arrive(b));
    if t.out != s.out { ForwardsSnoc(s.out, t.out[|s.out|]); }
  }

  lemma StepForwards(decode: seq<byte> -> Message, s: Session, step: Step)
    requires s.subscribed == SubscribedAfter(decode, s.received)
    ensures Forwards(Next(decode, s, step).out) == Forwards(s.out) + DueAt(decode, s, step)
  {
    hide FromBigEndian, Forwards, SubscribedAfter;
    match step
    case Arrive(b) =>
      ArriveForwardsNothing(decode, s, b);
      hide Next;
    case Broadcast(kind) => ForwardsSnoc(s.out, Forward(kind));
    case Lagged =>
  }

  /**
   In every run the client is sent exactly the events that come while the connection is
   open and subscribed to their kind, in order and once each.
   */
  lemma {:induction false} ForwardsWhatIsDue(decode: seq<byte> -> Message, steps: seq<Step>)
    ensures Forwards(Run(decode, steps).out) == Due(decode, steps)
  {
    if steps != [] {
      ForwardsWhatIsDue(decode, steps[..|steps| - 1]);
      RunSubscribes(decode, steps[..|steps| - 1]);
      StepForwards(decode, Run(decode, steps[..|steps| - 1]), steps[|steps| - 1]);
    }
  }

  // ── Closing ──────────────────────────────────────────────────────────────

  ghost predicate HasUndecodable(decode: seq<byte> -> Message, payloads: seq<seq<byte>>) {
    exists i :: 0 <= i < |payloads| && decode(payloads[i]) == Undecodable
  }

  predicate AnnouncesTooMuch(partial: seq<byte>) {
    |partial| >= 4 && FromBigEndian(partial[..4]) > 0x10_0000
  }

  lemma UndecodableSnoc(decode: seq<byte> -> Message, payloads: seq<seq<byte>>, p: seq<byte>)
    ensures HasUndecodable(decode, payloads + [p]) <==> HasUndecodable(decode, payloads) || decode(p) == Undecodable
  {
    var more := payloads + [p];
    assert more[|payloads|] == p && forall i :: 0 <= i < |payloads| ==> more[i] == payloads[i];
  }

  lemma StepCloses(decode: seq<byte> -> Message, s: Session, step: Step)
    requires s.closed <==> HasUndecodable(decode, s.received) || AnnouncesTooMuch(s.partial)
    ensures
      var t := Next(decode, s, step);
      t.closed <==> HasUndecodable(decode, t.received) || AnnouncesTooMuch(t.partial)
  {
    var t := Next(decode, s, step);
    hide FromBigEndian, HasUndecodable;
    if t.received != s.received {
      UndecodableSnoc(decode, s.received, t.received[|s.received|]);
    } else if step.Arrive? && !s.closed {
      assert |s.partial| > 4 ==> t.partial[..4] == s.partial[..4];
    }
  }

  /** A connection is closed exactly after a frame it cannot decode, or a length beyond one mebibyte. */
  lemma {:induction false} ClosedIff(decode: seq<byte> -> Message, steps: seq<Step>)
    ensures
      var s := Run(decode, steps);
      s.closed <==> HasUndecodable(decode, s.received) || AnnouncesTooMuch(s.partial)
  {
    if steps != [] {
      ClosedIff(decode, steps[..|steps| - 1]);
      StepCloses(decode, Run(decode, steps[..|steps| - 1]), steps[|steps| - 1]);
      hide Next, HasUndecodable, AnnouncesTooMuch;
    }
  }
}
