/**
 When the server's frame loop loses part of a frame, read off the frames sent and the
 moments at which the event receiver yields.
 */
module FrameLoss {
  import opened Wrappers
  import opened Utf8
  import opened Framing
  import opened Connection

  /** How many of the frames are complete in the first n bytes. */
  function Complete(sent: seq<seq<byte>>, n: nat): (k: nat)
    ensures k <= |sent|
    decreases |sent|
  {
    if sent == [] || n < |Framed(sent[0])| then 0 else 1 + Complete(sent[1..], n - |Framed(sent[0])|)
  }

  /** The subscription that the last subscribe or unsubscribe request among the frames leaves. */
  function SubscribedAfter(decode: seq<byte> -> Message, frames: seq<seq<byte>>): Option<set<nat>> {
    if frames == [] then None
    else
      match decode(frames[|frames| - 1])
      case Request(_, Subscribe(kinds)) => Some(kinds)
      case Request(_, Unsubscribe) => None
      case _ => SubscribedAfter(decode, frames[..|frames| - 1])
  }

  /** The receiver yields in the middle of a frame, on a subscription made by the frames complete by then. */
  predicate CutAt(decode: seq<byte> -> Message, steps: seq<Step>, sent: seq<seq<byte>>, i: nat)
    requires i < |steps|
  {
    var n := |Arrived(steps[..i])|;
    var whole := sent[..Complete(sent, n)];
    !steps[i].Arrive? && |FramedAll(whole)| < n && SubscribedAfter(decode, whole).Some?
  }

  ghost predicate Cut(decode: seq<byte> -> Message, steps: seq<Step>, sent: seq<seq<byte>>) {
    exists i :: 0 <= i < |steps| && CutAt(decode, steps, sent, i)
  }

  lemma SubscribedSnoc(decode: seq<byte> -> Message, frames: seq<seq<byte>>, p: seq<byte>)
    ensures SubscribedAfter(decode, frames + [p]) ==
      match decode(p)
      case Request(_, Subscribe(kinds)) => Some(kinds)
      case Request(_, Unsubscribe) => None
      case _ => SubscribedAfter(decode, frames)
  {
    assert (frames + [p])[..|frames|] == frames;
  }

  lemma StepSubscribes(decode: seq<byte> -> Message, s: Session, step: Step)
    requires s.subscribed == SubscribedAfter(decode, s.received)
    ensures Next(decode, s, step).subscribed == SubscribedAfter(decode, Next(decode, s, step).received)
  {
    hide FromBigEndian, SubscribedAfter;
    var t := Next(decode, s, step);
    if t.received != s.received { SubscribedSnoc(decode, s.received, t.received[|s.received|]); }
  }

  lemma {:induction false} RunSubscribes(decode: seq<byte> -> Message, steps: seq<Step>)
    ensures Run(decode, steps).subscribed == SubscribedAfter(decode, Run(decode, steps).received)
  {
    if steps != [] {
      RunSubscribes(decode, steps[..|steps| - 1]);
      StepSubscribes(decode, Run(decode, steps[..|steps| - 1]), steps[|steps| - 1]);
    }
  }

  /** Bytes of frames and of the beginning of another one hold just those frames. */
  lemma {:induction false} CompleteIs(sent: seq<seq<byte>>, k: nat, n: nat)
    requires k <= |sent| && |FramedAll(sent[..k])| <= n
    requires k < |sent| ==> n < |FramedAll(sent[..k])| + |Framed(sent[k])|
    ensures Complete(sent, n) == k
    decreases k
  {
    if k > 0 {
      assert sent[..k][1..] == sent[1..][..k - 1] && sent[..k][0] == sent[0];
      FramedAllHead(sent[..k]);
      CompleteIs(sent[1..], k - 1, n - |Framed(sent[0])|);
    }
  }

  /** What follows the frames received is the beginning of the next one. */
  lemma PartialIsBeginning(sent: seq<seq<byte>>, received: seq<seq<byte>>, partial: seq<byte>)
    requires WithinLimit(sent) && received <= sent && Unfinished(partial)
    requires FramedAll(received) + partial <= FramedAll(sent)
    ensures received == sent ==> partial == []
    ensures received != sent ==> |partial| < |Framed(sent[|received|])|
  {
    hide FromBigEndian;
    var rest := sent[|received|..];
    assert sent == received + rest;
    FramedAllAppend(received, rest);
    assert partial <= FramedAll(rest) by {
      assert (FramedAll(received) + partial)[|FramedAll(received)|..] == partial;
      assert (FramedAll(received) + FramedAll(rest))[|FramedAll(received)|..] == FramedAll(rest);
    }
    if rest != [] {
      assert rest[0] == sent[|received|];
      HeaderOf(rest);
      if |partial| >= 4 { assert partial[..4] == FramedAll(rest)[..4]; }
    }
  }

  /** Before anything is lost the session is what the bytes say. */
  lemma SessionFromBytes(decode: seq<byte> -> Message, steps: seq<Step>, sent: seq<seq<byte>>)
    requires WithinLimit(sent) && AllDecodable(decode, sent)
    requires Arrived(steps) <= FramedAll(sent) && Run(decode, steps).dropped == 0
    ensures
      var s, n := Run(decode, steps), |Arrived(steps)|;
      var whole := sent[..Complete(sent, n)];
      && !s.closed && s.received == whole && s.subscribed == SubscribedAfter(decode, whole)
      && (s.partial != [] <==> |FramedAll(whole)| < n)
  {
    var s := Run(decode, steps);
    StaysOpen(decode, steps, sent);
    RunAccounted(decode, steps);
    RunSubscribes(decode, steps);
    hide Run, Arrived, FramedAll, Framed, Unfinished, WithinLimit, AllDecodable, Complete, SubscribedAfter;
    PartialIsBeginning(sent, s.received, s.partial);
    assert s.received == sent[..|s.received|];
    CompleteIs(sent, |s.received|, |Arrived(steps)|);
  }

  lemma CutAtPrefix(decode: seq<byte> -> Message, steps: seq<Step>, sent: seq<seq<byte>>, i: nat)
    requires i < |steps| - 1
    ensures CutAt(decode, steps, sent, i) == CutAt(decode, steps[..|steps| - 1], sent, i)
  {
    assert steps[..|steps| - 1][..i] == steps[..i];
  }

  lemma {:induction false} DroppedIffCut(decode: seq<byte> -> Message, steps: seq<Step>, sent: seq<seq<byte>>)
    requires WithinLimit(sent) && AllDecodable(decode, sent) && Arrived(steps) <= FramedAll(sent)
    ensures Run(decode, steps).dropped > 0 <==> Cut(decode, steps, sent)
  {
    if steps != [] {
      var n, init, step := |steps| - 1, steps[..|steps| - 1], steps[|steps| - 1];
      assert Arrived(init) <= Arrived(steps);
      DroppedIffCut(decode, init, sent);
      forall i | 0 <= i < n ensures CutAt(decode, steps, sent, i) == CutAt(decode, init, sent, i) {
        CutAtPrefix(decode, steps, sent, i);
      }
      var s := Run(decode, init);
      if s.dropped == 0 {
        SessionFromBytes(decode, init, sent);
        hide Complete, SubscribedAfter, FramedAll, Arrived;
        assert CutAt(decode, steps, sent, n) <==> Next(decode, s, step).dropped > 0;
      }
    }
  }

  /**
   Once all bytes of a well-formed, decodable stream have arrived, the frames received
   are the frames sent exactly when the event receiver never yields while the bytes so
   far end inside a frame and the frames before it leave a subscription.
   */
  lemma IntactIffNeverCut(decode: seq<byte> -> Message, steps: seq<Step>, sent: seq<seq<byte>>)
    requires WithinLimit(sent) && AllDecodable(decode, sent) && Arrived(steps) == FramedAll(sent)
    ensures Run(decode, steps).received == sent <==> !Cut(decode, steps, sent)
  {
    DroppedIffCut(decode, steps, sent);
    DroppedIffInterrupted(decode, steps);
    hide *;
    IntactIffUninterrupted(decode, steps, sent);
  }
}
