/**
 A server connection: telling text control mode from the binary protocol by its
 first bytes, and the frame loop that also forwards events to a subscriber.
 */
module Connection {
  import opened Wrappers
  import opened Utf8
  import opened Framing

  /** The bytes "mode". */
  const MODE: seq<byte> := [0x6D, 0x6F, 0x64, 0x65]
  const NEWLINE: byte := 10

  // ── Mode detection ───────────────────────────────────────────────────────

  datatype Opening =
    | Closed
    | Control(rest: seq<byte>)
    | Binary(first: seq<byte>, rest: seq<byte>)
    | Rejected(size: nat)
    | Broken

  /** What follows the first newline; nothing when there is none. */
  function AfterNewline(bytes: seq<byte>): seq<byte> {
    if bytes == [] then [] else if bytes[0] == NEWLINE then bytes[1..] else AfterNewline(bytes[1..])
  }

  /** How a connection that will send these bytes opens. */
  function Open(bytes: seq<byte>): Opening {
    if |bytes| < 4 then Closed
    else if bytes[..4] == MODE then Control(AfterNewline(bytes[4..]))
    else
      match ReadFrame(bytes)
      case (Frame(payload), rest) => Binary(payload, rest)
      case (TooLarge(size), _) => Rejected(size)
      case (_, _) => Broken
  }

  method OpenConnection(stream: ByteStream) returns (opening: Opening)
    requires stream.Valid()
    modifies stream`position
    ensures stream.Valid()
    ensures opening == old(Open(stream.Rest()))
    ensures opening.Control? || opening.Binary? ==> stream.Rest() == opening.rest
  {
    hide AfterNewline, FromBigEndian;
    ghost var bytes := stream.Rest();
    var header := stream.ReadExact(4);
    if header.None? { return Closed; }
    assert header.value == bytes[..4] && stream.Rest() == bytes[4..];
    if header.value == MODE {
      SkipLine(stream);
      return Control(stream.Rest());
    }
    var size := FromBigEndian(header.value);
    if size > MAX_FRAME_SIZE { return Rejected(size); }
    var payload := stream.ReadExact(size);
    if payload.None? { return Broken; }
    assert bytes[4..4 + size] == bytes[4..][..size] && bytes[4 + size..] == bytes[4..][size..];
    return Binary(payload.value, stream.Rest());
  }

  method SkipLine(stream: ByteStream)
    requires stream.Valid()
    modifies stream`position
    ensures stream.Valid() && stream.Rest() == old(AfterNewline(stream.Rest()))
  {
    ghost var start := stream.Rest();
    while true
      invariant stream.Valid() && AfterNewline(stream.Rest()) == AfterNewline(start)
      decreases |stream.Rest()|
    {
      ghost var before := stream.Rest();
      var next := stream.ReadExact(1);
      if next.None? { return; }
      assert next.value == before[..1] && next.value[0] == before[0];
      if next.value[0] == NEWLINE { return; }
    }
  }

  /** No stream of frames within the size limit is taken for control mode: its first frame is handed on. */
  lemma FramesOpenAsBinary(payloads: seq<seq<byte>>)
    requires payloads != [] && |payloads[0]| <= MAX_FRAME_SIZE
    ensures Open(FramedAll(payloads)) == Binary(payloads[0], FramedAll(payloads[1..]))
  {
    hide FromBigEndian, BigEndian, ReadFrame, FramedAll, Framed;
    HeaderOf(payloads);
    ModeIsNoLength();
    FramedAllHead(payloads);
    ReadFramed(payloads[0], FramedAll(payloads[1..]));
  }

  lemma FramedAllHead(payloads: seq<seq<byte>>)
    requires payloads != []
    ensures FramedAll(payloads) == Framed(payloads[0]) + FramedAll(payloads[1..])
  {
  }

  /** A stream of frames begins with the length of its first payload. */
  lemma HeaderOf(payloads: seq<seq<byte>>)
    requires payloads != [] && |payloads[0]| <= MAX_FRAME_SIZE
    ensures |FramedAll(payloads)| >= 4 + |payloads[0]|
    ensures FromBigEndian(FramedAll(payloads)[..4]) == |payloads[0]|
  {
    hide FromBigEndian, BigEndian;
    BigEndianRoundTrip(|payloads[0]|);
    assert |payloads[0]| % U32_LIMIT == |payloads[0]|;
    assert FramedAll(payloads)[..4] == BigEndian(|payloads[0]|);
  }

  /** Read as a length, the handshake word is far beyond the size limit. */
  lemma ModeIsNoLength()
    ensures FromBigEndian(MODE) > MAX_FRAME_SIZE
  {
  }

  /** Reading the first frame by hand and the others one by one gives the frames that were sent. */
  lemma FirstFrameThenTheRest(payloads: seq<seq<byte>>)
    requires payloads != [] && forall i :: 0 <= i < |payloads| ==> |payloads[i]| <= MAX_FRAME_SIZE
    ensures
      var opening := Open(FramedAll(payloads));
      opening.Binary? && ReadAll(opening.rest) == (payloads[1..], Eof)
          && [opening.first] + ReadAll(opening.rest).0 == payloads
  {
    FramesOpenAsBinary(payloads);
    assert FramedAll(payloads[1..]) + [] == FramedAll(payloads[1..]);
    CleanEndIff(payloads[1..], []);
  }

  /** The handshake line, whatever follows the word, leaves exactly the bytes after it. */
  lemma HandshakeOpensControl(line: seq<byte>, rest: seq<byte>)
    requires NEWLINE !in line
    ensures Open(MODE + line + [NEWLINE] + rest) == Control(rest)
  {
    var bytes := MODE + line + [NEWLINE] + rest;
    assert bytes[..4] == MODE && bytes[4..] == line + [NEWLINE] + rest;
    SkipsLine(line, rest);
  }

  lemma {:induction false} SkipsLine(line: seq<byte>, rest: seq<byte>)
    requires NEWLINE !in line
    ensures AfterNewline(line + [NEWLINE] + rest) == rest
  {
    var bytes := line + [NEWLINE] + rest;
    if line == [] {
      assert bytes[1..] == rest;
    } else {
      assert bytes[0] in line;
      assert bytes[1..] == line[1..] + [NEWLINE] + rest;
      SkipsLine(line[1..], rest);
    }
  }

  // ── The frame loop of a binary connection ────────────────────────────────

  datatype Request = Subscribe(kinds: set<nat>) | Unsubscribe | Other(command: nat)

  datatype Message = Request(id: nat, request: Request) | Ignored | Undecodable

  datatype Output = Answer(id: nat) | Forward(kind: nat)

  /**
   `partial` holds the bytes that the pending frame read has taken off the
   stream; `subscribed` the event kinds of a subscriber, none while there is no
   subscription. `dropped` and `ignored` count bytes that will never be part of
   a frame.
   */
  datatype Session = Session(
    partial: seq<byte>, received: seq<seq<byte>>, subscribed: Option<set<nat>>,
    out: seq<Output>, dropped: nat, ignored: nat, closed: bool)

  const NEW_SESSION := Session([], [], None, [], 0, 0, false)

  /** A byte comes in; an event is received from the broadcast; or the receiver is told that it lagged behind. */
  datatype Step = Arrive(b: byte) | Broadcast(kind: nat) | Lagged

  function Handle(s: Session, payload: seq<byte>, message: Message): Session {
    var t := s.(partial := [], received := s.received + [payload]);
    match message
    case Request(id, Subscribe(kinds)) => t.(subscribed := Some(kinds), out := t.out + [Answer(id)])
    case Request(id, Unsubscribe) => t.(subscribed := None, out := t.out + [Answer(id)])
    case Request(id, Other(_)) => t.(out := t.out + [Answer(id)])
    case Ignored => t
    case Undecodable => t.(closed := true)
  }

  /**
   One byte completes a frame or waits for more. Whatever a subscriber's event
   receiver yields while a frame read is under way abandons that read, and with it
   the bytes the read had taken, even if the event is then filtered out.
   */
  function Next(decode: seq<byte> -> Message, s: Session, step: Step): Session {
    match step
    case Arrive(b) =>
      if s.closed then s.(ignored := s.ignored + 1)
      else
        var partial := s.partial + [b];
        if |partial| < 4 then s.(partial := partial)
        else
          var size := FromBigEndian(partial[..4]);
          if size > MAX_FRAME_SIZE then s.(partial := partial, closed := true)
          else if |partial| < 4 + size then s.(partial := partial)
          else Handle(s, partial[4..], decode(partial[4..]))
    case Broadcast(kind) =>
      if s.closed || s.subscribed.None? then s
      else
        var t := s.(partial := [], dropped := s.dropped + |s.partial|);
        if s.subscribed.value == {} || kind in s.subscribed.value then t.(out := t.out + [Forward(kind)]) else t
    case Lagged =>
      if s.closed || s.subscribed.None? then s else s.(partial := [], dropped := s.dropped + |s.partial|)
  }

  function Run(decode: seq<byte> -> Message, steps: seq<Step>): Session {
    if steps == [] then NEW_SESSION else Next(decode, Run(decode, steps[..|steps| - 1]), steps[|steps| - 1])
  }

  /** The bytes that arrived. */
  function Arrived(steps: seq<Step>): seq<byte> {
    if steps == [] then []
    else Arrived(steps[..|steps| - 1]) + if steps[|steps| - 1].Arrive? then [steps[|steps| - 1].b] else []
  }

  /** Does the event receiver interrupt a frame that has begun to arrive? */
  ghost predicate Interrupted(decode: seq<byte> -> Message, steps: seq<Step>) {
    exists i :: 0 <= i < |steps| && InterruptedAt(decode, steps, i)
  }

  predicate InterruptedAt(decode: seq<byte> -> Message, steps: seq<Step>, i: nat)
    requires i < |steps|
  {
    var s := Run(decode, steps[..i]);
    !steps[i].Arrive? && !s.closed && s.subscribed.Some? && s.partial != []
  }

  /** Is the partial read a proper beginning of a frame within the limit? */
  predicate Unfinished(partial: seq<byte>) {
    |partial| < 4 || (FromBigEndian(partial[..4]) <= MAX_FRAME_SIZE && |partial| < 4 + FromBigEndian(partial[..4]))
  }

  lemma {:induction false} FramedAllSnoc(payloads: seq<seq<byte>>, p: seq<byte>)
    ensures FramedAll(payloads + [p]) == FramedAll(payloads) + Framed(p)
  {
    if payloads == [] {
      assert [p][1..] == [];
    } else {
      assert (payloads + [p])[1..] == payloads[1..] + [p];
      FramedAllSnoc(payloads[1..], p);
    }
  }

  lemma CompleteFrame(partial: seq<byte>, b: byte)
    requires Unfinished(partial) && |partial| >= 3
    requires FromBigEndian((partial + [b])[..4]) <= MAX_FRAME_SIZE
    requires |partial| + 1 >= 4 + FromBigEndian((partial + [b])[..4])
    ensures Framed((partial + [b])[4..]) == partial + [b]
  {
    var whole := partial + [b];
    var size := FromBigEndian(whole[..4]);
    if |partial| >= 4 { assert partial[..4] == whole[..4]; }
    assert |whole[4..]| == size;
    FromBigEndianRoundTrip(whole[..4]);
    assert whole == whole[..4] + whole[4..];
  }

  lemma FromBigEndianRoundTrip(bytes: seq<byte>)
    requires |bytes| == 4
    ensures BigEndian(FromBigEndian(bytes)) == bytes
  {
    var b0: int, b1: int, b2: int, b3: int := bytes[0], bytes[1], bytes[2], bytes[3];
    var n := FromBigEndian(bytes);
    assert n / 256 == (b0 * 256 + b1) * 256 + b2 && n % 256 == b3;
    assert n / 0x1_0000 == n / 256 / 256 == b0 * 256 + b1;
    assert n / 0x100_0000 == n / 0x1_0000 / 256 == b0;
  }

  /** Every byte that arrived is in a received frame, in the partial one, dropped, or ignored after closing. */
  ghost predicate Accounted(s: Session, arrived: seq<byte>) {
    && (!s.closed ==> Unfinished(s.partial))
    && |FramedAll(s.received)| + |s.partial| + s.dropped + s.ignored == |arrived|
    && (s.dropped == 0 && !s.closed ==> FramedAll(s.received) + s.partial == arrived)
    && (!s.closed ==> s.ignored == 0)
  }

  lemma StepAccounted(decode: seq<byte> -> Message, s: Session, arrived: seq<byte>, step: Step)
    requires Accounted(s, arrived)
    ensures Accounted(Next(decode, s, step), arrived + if step.Arrive? then [step.b] else [])
  {
    hide FromBigEndian;
    if step.Arrive? && !s.closed {
      var partial := s.partial + [step.b];
      if |partial| >= 4 && FromBigEndian(partial[..4]) <= MAX_FRAME_SIZE {
        if |partial| > 4 { assert partial[..4] == s.partial[..4]; }
        if |partial| >= 4 + FromBigEndian(partial[..4]) {
          CompleteFrame(s.partial, step.b);
          FramedAllSnoc(s.received, partial[4..]);
        }
      }
    }
  }

  lemma {:induction false} RunAccounted(decode: seq<byte> -> Message, steps: seq<Step>)
    ensures Accounted(Run(decode, steps), Arrived(steps))
  {
    if steps != [] {
      RunAccounted(decode, steps[..|steps| - 1]);
      StepAccounted(decode, Run(decode, steps[..|steps| - 1]), Arrived(steps[..|steps| - 1]), steps[|steps| - 1]);
    }
  }

  lemma {:induction false} DroppedIffInterrupted(decode: seq<byte> -> Message, steps: seq<Step>)
    ensures Run(decode, steps).dropped > 0 <==> Interrupted(decode, steps)
  {
    if steps != [] {
      var n := |steps| - 1;
      var init := steps[..n];
      DroppedIffInterrupted(decode, init);
      forall i | 0 <= i < n ensures InterruptedAt(decode, steps, i) == InterruptedAt(decode, init, i) {
        assert steps[..i] == init[..i];
      }
      assert InterruptedAt(decode, steps, n) <==> Run(decode, steps).dropped > Run(decode, init).dropped;
    }
  }

  /** A prefix of a well-formed stream that was read without loss is a prefix of its frames. */
  lemma {:induction false} FramesArePrefix(sent: seq<seq<byte>>, received: seq<seq<byte>>, partial: seq<byte>)
    requires FramedAll(received) + partial <= FramedAll(sent)
    requires WithinLimit(sent) && WithinLimit(received)
    ensures received <= sent
  {
    if received != [] {
      var tail := FramedAll(sent)[|FramedAll(received) + partial|..];
      var rest := FramedAll(received[1..]) + (partial + tail);
      FramedAllHead(received);
      assert FramedAll(sent) == Framed(received[0]) + rest;
      ReadFramed(received[0], rest);
      assert |Framed(received[0])| >= 4 && sent != [];
      FramedAllHead(sent);
      ReadFramed(sent[0], FramedAll(sent[1..]));
      hide FromBigEndian, BigEndian, ReadFrame, Framed, FramedAll;
      assert received[0] == sent[0] && FramedAll(sent[1..]) == FramedAll(received[1..]) + (partial + tail);
      assert FramedAll(received[1..]) + partial <= FramedAll(sent[1..]);
      FramesArePrefix(sent[1..], received[1..], partial);
      assert sent == [sent[0]] + sent[1..] && received == [received[0]] + received[1..];
    }
  }

  /** Every frame received so far is within the size limit. */
  ghost predicate WithinLimit(payloads: seq<seq<byte>>) {
    forall i :: 0 <= i < |payloads| ==> |payloads[i]| <= MAX_FRAME_SIZE
  }

  ghost predicate AllDecodable(decode: seq<byte> -> Message, payloads: seq<seq<byte>>) {
    forall i :: 0 <= i < |payloads| ==> decode(payloads[i]) != Undecodable
  }

  lemma {:induction false} ReceivedWithinLimit(decode: seq<byte> -> Message, steps: seq<Step>)
    ensures WithinLimit(Run(decode, steps).received)
  {
    if steps != [] {
      ReceivedWithinLimit(decode, steps[..|steps| - 1]);
      RunAccounted(decode, steps[..|steps| - 1]);
      var s, step := Run(decode, steps[..|steps| - 1]), steps[|steps| - 1];
      if step.Arrive? && !s.closed && |s.partial + [step.b]| > 4 {
        assert (s.partial + [step.b])[..4] == s.partial[..4];
      }
    }
  }

  /** While frames are within the limit, decodable and uninterrupted, the connection stays open. */
  lemma {:induction false} StaysOpen(decode: seq<byte> -> Message, steps: seq<Step>, sent: seq<seq<byte>>)
    requires WithinLimit(sent) && AllDecodable(decode, sent)
    requires Arrived(steps) <= FramedAll(sent) && Run(decode, steps).dropped == 0
    ensures !Run(decode, steps).closed
    ensures Run(decode, steps).received <= sent
  {
    if steps != [] {
      var init, step := steps[..|steps| - 1], steps[|steps| - 1];
      StaysOpen(decode, init, sent);
      RunAccounted(decode, init);
      RunAccounted(decode, steps);
      ReceivedWithinLimit(decode, init);
      if step.Arrive? {
        var s := Run(decode, init);
        assert Arrived(steps) == FramedAll(s.received) + (s.partial + [step.b]);
        ByteKeepsOpen(decode, s, step.b, sent);
      }
    }
  }

  lemma ByteKeepsOpen(decode: seq<byte> -> Message, s: Session, b: byte, sent: seq<seq<byte>>)
    requires WithinLimit(sent) && AllDecodable(decode, sent)
    requires !s.closed && s.received <= sent && WithinLimit(s.received) && Unfinished(s.partial)
    requires FramedAll(s.received) + (s.partial + [b]) <= FramedAll(sent)
    ensures !Next(decode, s, Arrive(b)).closed && Next(decode, s, Arrive(b)).received <= sent
  {
    hide FromBigEndian, FramedAll, Next, Unfinished, WithinLimit;
    var whole := s.partial + [b];
    HeaderWithinLimit(sent, s.received, whole);
    if |whole| >= 4 && |whole| >= 4 + FromBigEndian(whole[..4]) {
      CompletedFrameWasSent(sent, s.received, s.partial, b);
      assert (s.received + [whole[4..]])[|s.received|] == sent[|s.received|];
    }
    NextStaysOpen(decode, s, b, sent);
  }

  lemma NextStaysOpen(decode: seq<byte> -> Message, s: Session, b: byte, sent: seq<seq<byte>>)
    requires !s.closed && s.received <= sent
    requires |s.partial| >= 3 ==> FromBigEndian((s.partial + [b])[..4]) <= MAX_FRAME_SIZE
    requires |s.partial| >= 3 && |s.partial| + 1 >= 4 + FromBigEndian((s.partial + [b])[..4]) ==>
      s.received + [(s.partial + [b])[4..]] <= sent && decode((s.partial + [b])[4..]) != Undecodable
    ensures !Next(decode, s, Arrive(b)).closed && Next(decode, s, Arrive(b)).received <= sent
  {
    hide FromBigEndian;
  }

  lemma CompletedFrameWasSent(sent: seq<seq<byte>>, received: seq<seq<byte>>, partial: seq<byte>, b: byte)
    requires WithinLimit(sent) && WithinLimit(received) && Unfinished(partial) && |partial| >= 3
    requires FramedAll(received) + (partial + [b]) <= FramedAll(sent)
    requires FromBigEndian((partial + [b])[..4]) <= MAX_FRAME_SIZE
    requires |partial| + 1 >= 4 + FromBigEndian((partial + [b])[..4])
    ensures received + [(partial + [b])[4..]] <= sent
  {
    hide FromBigEndian, FramedAll;
    var payload := (partial + [b])[4..];
    CompleteFrame(partial, b);
    FramedAllSnoc(received, payload);
    assert FramedAll(received + [payload]) + [] == FramedAll(received) + (partial + [b]);
    FramesArePrefix(sent, received + [payload], []);
  }

  /** A partial frame of a well-formed stream has a length within the limit. */
  lemma HeaderWithinLimit(sent: seq<seq<byte>>, received: seq<seq<byte>>, partial: seq<byte>)
    requires WithinLimit(sent) && WithinLimit(received) && FramedAll(received) + partial <= FramedAll(sent)
    ensures |partial| >= 4 ==> FromBigEndian(partial[..4]) <= MAX_FRAME_SIZE
  {
    hide FromBigEndian;
    if |partial| >= 4 {
      FramesArePrefix(sent, received, partial);
      var rest := sent[|received|..];
      assert sent == received + rest;
      FramedAllAppend(received, rest);
      assert partial <= FramedAll(rest) by {
        assert FramedAll(sent) == FramedAll(received) + FramedAll(rest);
        assert (FramedAll(received) + partial)[|FramedAll(received)|..] == partial;
        assert FramedAll(sent)[|FramedAll(received)|..] == FramedAll(rest);
      }
      assert rest != [];
      assert rest[0] == sent[|received|];
      HeaderOf(rest);
      assert partial[..4] == FramedAll(rest)[..4];
    }
  }

  lemma {:induction false} FramedAllAppend(a: seq<seq<byte>>, b: seq<seq<byte>>)
    ensures FramedAll(a + b) == FramedAll(a) + FramedAll(b)
  {
    if a == [] {
      assert a + b == b;
    } else {
      assert (a + b)[1..] == a[1..] + b;
      FramedAllAppend(a[1..], b);
    }
  }

  /**
   Once all bytes of a well-formed, decodable stream have arrived, the frames
   received are the frames sent exactly when the subscriber's event receiver yielded
   nothing in the middle of a frame.
   */
  lemma IntactIffUninterrupted(decode: seq<byte> -> Message, steps: seq<Step>, sent: seq<seq<byte>>)
    requires WithinLimit(sent) && AllDecodable(decode, sent)
    requires Arrived(steps) == FramedAll(sent)
    ensures Run(decode, steps).received == sent <==> !Interrupted(decode, steps)
  {
    var s := Run(decode, steps);
    RunAccounted(decode, steps);
    DroppedIffInterrupted(decode, steps);
    if s.dropped == 0 {
      StaysOpen(decode, steps, sent);
      NothingPartial(sent, s.received, s.partial);
    }
  }

  /** A byte and then an event, on an open subscription between two frames: the next frame is cut. */
  lemma EventCutsFrame(decode: seq<byte> -> Message, before: seq<Step>, b: byte, event: Step, s: Session)
    requires s == Run(decode, before) && !s.closed && s.subscribed.Some? && s.partial == [] && !event.Arrive?
    ensures Interrupted(decode, before + [Arrive(b)] + [event])
  {
    var steps := before + [Arrive(b)] + [event];
    assert (before + [Arrive(b)])[..|before|] == before;
    assert steps[..|before| + 1] == before + [Arrive(b)];
    assert Run(decode, before + [Arrive(b)]) == s.(partial := [b]);
    assert InterruptedAt(decode, steps, |before| + 1);
  }

  /** Such a run: the frame of a subscribe request, of one byte here, then part of the next frame, then an event. */
  lemma SubscriberLosesFrame(decode: seq<byte> -> Message, id: nat, event: Step)
    requires decode([1]) == Request(id, Subscribe({})) && !event.Arrive?
    ensures
      var subscribe := [Arrive(0)] + [Arrive(0)] + [Arrive(0)] + [Arrive(1)] + [Arrive(1)];
      Arrived(subscribe) == Framed([1]) && Interrupted(decode, subscribe + [Arrive(0)] + [event])
  {
    var s0: seq<Step> := [Arrive(0)];
    var s1 := s0 + [Arrive(0)];
    var s2 := s1 + [Arrive(0)];
    var s3 := s2 + [Arrive(1)];
    var s4 := s3 + [Arrive(1)];
    assert s0 == [] + s0;
    ArriveLast(decode, [], 0);
    ArriveLast(decode, s0, 0);
    ArriveLast(decode, s1, 0);
    ArriveLast(decode, s2, 1);
    ArriveLast(decode, s3, 1);
    hide Run, Arrived, Interrupted;
    assert Framed([1]) == [0, 0, 0, 1, 1];
    assert Run(decode, []) == NEW_SESSION && Arrived([]) == [];
    assert FromBigEndian([0, 0, 0, 1]) == 1;
    assert Run(decode, s2).partial == [0, 0, 0];
    assert Run(decode, s3).partial == [0, 0, 0, 1] && Run(decode, s3).partial[..4] == [0, 0, 0, 1];
    assert [0, 0, 0, 1, 1][4..] == [1] && [0, 0, 0, 1, 1][..4] == [0, 0, 0, 1];
    EventCutsFrame(decode, s4, 0, event, Run(decode, s4));
  }

  lemma ArriveLast(decode: seq<byte> -> Message, before: seq<Step>, b: byte)
    ensures Run(decode, before + [Arrive(b)]) == Next(decode, Run(decode, before), Arrive(b))
    ensures Arrived(before + [Arrive(b)]) == Arrived(before) + [b]
  {
    assert (before + [Arrive(b)])[..|before|] == before;
    hide Next;
  }

  lemma NothingPartial(sent: seq<seq<byte>>, received: seq<seq<byte>>, partial: seq<byte>)
    requires WithinLimit(sent) && received <= sent && Unfinished(partial)
    requires FramedAll(received) + partial == FramedAll(sent)
    ensures received == sent
  {
    hide FromBigEndian;
    var rest := sent[|received|..];
    assert sent == received + rest;
    FramedAllAppend(received, rest);
    assert partial == FramedAll(rest) by {
      assert (FramedAll(received) + partial)[|FramedAll(received)|..] == partial;
      assert (FramedAll(received) + FramedAll(rest))[|FramedAll(received)|..] == FramedAll(rest);
    }
    if rest != [] {
      assert rest[0] == sent[|received|];
      HeaderOf(rest);
    }
  }

  // ── Answers ──────────────────────────────────────────────────────────────

  /** The ids of the requests among these frames. */
  function RequestIds(decode: seq<byte> -> Message, payloads: seq<seq<byte>>): seq<nat> {
    if payloads == [] then []
    else
      var last := decode(payloads[|payloads| - 1]);
      RequestIds(decode, payloads[..|payloads| - 1]) + if last.Request? then [last.id] else []
  }

  function AnsweredIds(out: seq<Output>): seq<nat> {
    if out == [] then []
    else AnsweredIds(out[..|out| - 1]) + if out[|out| - 1].Answer? then [out[|out| - 1].id] else []
  }

  /** The k-th request received gets the k-th answer, under its own id, whatever events go out in between. */
  lemma {:induction false} EveryRequestAnsweredInOrder(decode: seq<byte> -> Message, steps: seq<Step>)
    ensures AnsweredIds(Run(decode, steps).out) == RequestIds(decode, Run(decode, steps).received)
  {
    if steps != [] {
      EveryRequestAnsweredInOrder(decode, steps[..|steps| - 1]);
      StepAnswers(decode, Run(decode, steps[..|steps| - 1]), steps[|steps| - 1]);
    }
  }

  lemma StepAnswers(decode: seq<byte> -> Message, s: Session, step: Step)
    requires AnsweredIds(s.out) == RequestIds(decode, s.received)
    ensures AnsweredIds(Next(decode, s, step).out) == RequestIds(decode, Next(decode, s, step).received)
  {
    hide FromBigEndian, AnsweredIds, RequestIds;
    var t := Next(decode, s, step);
    if t.received != s.received {
      var payload := t.received[|s.received|];
      RequestIdsSnoc(decode, s.received, payload);
      if t.out != s.out { AnsweredIdsSnoc(s.out, t.out[|s.out|]); }
    } else if t.out != s.out {
      AnsweredIdsSnoc(s.out, t.out[|s.out|]);
    }
  }

  lemma AnsweredIdsSnoc(out: seq<Output>, o: Output)
    ensures AnsweredIds(out + [o]) == AnsweredIds(out) + if o.Answer? then [o.id] else []
  {
    assert (out + [o])[..|out|] == out;
  }

  lemma RequestIdsSnoc(decode: seq<byte> -> Message, payloads: seq<seq<byte>>, p: seq<byte>)
    ensures RequestIds(decode, payloads + [p]) == RequestIds(decode, payloads) +
      if decode(p).Request? then [decode(p).id] else []
  {
    assert (payloads + [p])[..|payloads|] == payloads;
  }
}
