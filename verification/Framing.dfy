/** Length-prefixed frames: a 4-byte big-endian length, then the payload. */
module Framing {
  import opened Wrappers
  import opened Utf8

  const MAX_FRAME_SIZE: nat := 1024 * 1024
  const U32_LIMIT: nat := 0x1_0000_0000

  function BigEndian(n: nat): (bytes: seq<byte>)
    requires n < U32_LIMIT
    ensures |bytes| == 4
  {
    [n / 0x100_0000, n / 0x1_0000 % 256, n / 256 % 256, n % 256]
  }

  function FromBigEndian(bytes: seq<byte>): (n: nat)
    requires |bytes| == 4
    ensures n < U32_LIMIT
  {
    var b0: int, b1: int, b2: int, b3: int := bytes[0], bytes[1], bytes[2], bytes[3];
    ((b0 * 256 + b1) * 256 + b2) * 256 + b3
  }

  lemma BigEndianRoundTrip(n: nat)
    requires n < U32_LIMIT
    ensures FromBigEndian(BigEndian(n)) == n
  {
    assert n / 0x100_0000 * 256 + n / 0x1_0000 % 256 == n / 0x1_0000;
    assert n / 0x1_0000 * 256 + n / 256 % 256 == n / 256;
  }

  // ── Frames as values ─────────────────────────────────────────────────────

  /** What one read of a frame returns. */
  datatype Read = Frame(payload: seq<byte>) | Eof | TooLarge(size: nat) | Truncated

  /** The bytes of one frame. The length is cut to 32 bits, as the writer does. */
  function Framed(payload: seq<byte>): seq<byte> {
    BigEndian(|payload| % U32_LIMIT) + payload
  }

  function FramedAll(payloads: seq<seq<byte>>): seq<byte> {
    if payloads == [] then [] else Framed(payloads[0]) + FramedAll(payloads[1..])
  }

  /** Reading one frame off the front: the outcome and the bytes that are left. */
  function ReadFrame(bytes: seq<byte>): (r: (Read, seq<byte>))
    ensures r.0.Frame? ==> |r.1| < |bytes|
  {
    if |bytes| < 4 then (Eof, [])
    else
      var size := FromBigEndian(bytes[..4]);
      if size > MAX_FRAME_SIZE then (TooLarge(size), bytes[4..])
      else if |bytes| < 4 + size then (Truncated, [])
      else (Frame(bytes[4..4 + size]), bytes[4 + size..])
  }

  /** Reading frames until one read returns no frame: the payloads and that last outcome. */
  function ReadAll(bytes: seq<byte>): (seq<seq<byte>>, Read)
    decreases |bytes|
  {
    var (first, rest) := ReadFrame(bytes);
    if !first.Frame? then ([], first)
    else
      var (more, end) := ReadAll(rest);
      ([first.payload] + more, end)
  }

  // ── The stream object ────────────────────────────────────────────────────

  class ByteStream {
    var data: seq<byte>
    var position: nat

    ghost predicate Valid()
      reads this
    {
      position <= |data|
    }

    /** The bytes not read yet. */
    function Rest(): seq<byte>
      requires Valid()
      reads this
    {
      data[position..]
    }

    constructor (bytes: seq<byte>)
      ensures Valid() && data == bytes && position == 0
    {
      data, position := bytes, 0;
    }

    /** All of `n` bytes, or nothing once the stream has ended short of them. */
    method ReadExact(n: nat) returns (bytes: Option<seq<byte>>)
      requires Valid()
      modifies `position
      ensures Valid()
      ensures if n <= |old(Rest())| then bytes == Some(old(Rest())[..n]) && Rest() == old(Rest())[n..]
              else bytes == None && Rest() == []
    {
      if position + n <= |data| {
        assert Rest()[..n] == data[position..position + n] && Rest()[n..] == data[position + n..];
        bytes := Some(data[position..position + n]);
        position := position + n;
      } else {
        bytes := None;
        position := |data|;
      }
    }

    method ReadNextFrame() returns (r: Read)
      requires Valid()
      modifies `position
      ensures Valid()
      ensures (r, Rest()) == old(ReadFrame(Rest()))
    {
      var header := ReadExact(4);
      if header.None? { return Eof; }
      var size := FromBigEndian(header.value);
      if size > MAX_FRAME_SIZE { return TooLarge(size); }
      ghost var rest := Rest();
      var payload := ReadExact(size);
      if payload.None? { return Truncated; }
      assert old(Rest())[4..4 + size] == rest[..size] && old(Rest())[4 + size..] == rest[size..];
      return Frame(payload.value);
    }

    method WriteFrame(payload: seq<byte>)
      requires Valid()
      modifies `data
      ensures Valid()
      ensures data == old(data) + Framed(payload) && Rest() == old(Rest()) + Framed(payload)
    {
      var length := |payload| % U32_LIMIT;
      data := data + BigEndian(length);
      data := data + payload;
    }
  }

  // ── Round trip ───────────────────────────────────────────────────────────

  lemma FramedWithinLimit(payload: seq<byte>)
    requires |payload| <= MAX_FRAME_SIZE
    ensures |Framed(payload)| == 4 + |payload|
    ensures FromBigEndian(Framed(payload)[..4]) == |payload| && Framed(payload)[4..] == payload
  {
    hide BigEndian, FromBigEndian;
    assert |payload| % U32_LIMIT == |payload|;
    var header := BigEndian(|payload|);
    BigEndianRoundTrip(|payload|);
    assert Framed(payload) == header + payload;
  }

  lemma ReadFramed(payload: seq<byte>, rest: seq<byte>)
    requires |payload| <= MAX_FRAME_SIZE
    ensures ReadFrame(Framed(payload) + rest) == (Frame(payload), rest)
  {
    FramedWithinLimit(payload);
    hide Framed, FromBigEndian;
    var bytes := Framed(payload) + rest;
    assert bytes[..4] == Framed(payload)[..4];
    assert bytes[4..4 + |payload|] == Framed(payload)[4..] && bytes[4 + |payload|..] == rest;
  }

  lemma ReadAllStep(payload: seq<byte>, rest: seq<byte>)
    requires |payload| <= MAX_FRAME_SIZE
    ensures ReadAll(Framed(payload) + rest) == ([payload] + ReadAll(rest).0, ReadAll(rest).1)
  {
    ReadFramed(payload, rest);
    hide ReadFrame, Framed;
  }

  lemma {:induction false} ReadAllFramed(payloads: seq<seq<byte>>, stray: seq<byte>)
    requires forall i :: 0 <= i < |payloads| ==> |payloads[i]| <= MAX_FRAME_SIZE
    ensures
      var (more, end) := ReadAll(stray);
      ReadAll(FramedAll(payloads) + stray) == (payloads + more, end)
  {
    var more := ReadAll(stray).0;
    if payloads == [] {
      Regroup([], stray, []);
      Regroup(payloads, more, []);
    } else {
      var head, tail := payloads[0], payloads[1..];
      assert FramedAll(payloads) == Framed(head) + FramedAll(tail);
      hide *;
      Regroup(Framed(head), FramedAll(tail), stray);
      ReadAllStep(head, FramedAll(tail) + stray);
      ReadAllFramed(tail, stray);
      assert payloads == [head] + tail;
      Regroup([head], tail, more);
    }
  }

  lemma Regroup<T>(x: seq<T>, y: seq<T>, z: seq<T>)
    ensures (x + y) + z == x + (y + z) && (x == [] ==> x + y == y)
  {
  }

  /**
   Behind frames within the limit the end of the stream is reported as clean, with
   exactly those frames read, if and only if fewer than four stray bytes follow.
   */
  lemma CleanEndIff(payloads: seq<seq<byte>>, stray: seq<byte>)
    requires forall i :: 0 <= i < |payloads| ==> |payloads[i]| <= MAX_FRAME_SIZE
    ensures ReadAll(FramedAll(payloads) + stray) == (payloads, Eof) <==> |stray| < 4
  {
    ReadAllFramed(payloads, stray);
    var (more, end) := ReadAll(stray);
    assert |stray| < 4 <==> (more, end) == ([], Eof);
    assert payloads + more == payloads <==> more == [];
  }

  /** Frames come back as they were written exactly when every payload is within the size limit. */
  lemma ReadBackIffWithinLimit(payloads: seq<seq<byte>>)
    ensures ReadAll(FramedAll(payloads)) == (payloads, Eof) <==>
            forall i :: 0 <= i < |payloads| ==> |payloads[i]| <= MAX_FRAME_SIZE
  {
    if forall i :: 0 <= i < |payloads| ==> |payloads[i]| <= MAX_FRAME_SIZE {
      assert FramedAll(payloads) + [] == FramedAll(payloads);
      CleanEndIff(payloads, []);
    } else {
      OversizedIsNotReadBack(payloads);
    }
  }

  lemma {:induction false} OversizedIsNotReadBack(payloads: seq<seq<byte>>)
    requires exists i :: 0 <= i < |payloads| && |payloads[i]| > MAX_FRAME_SIZE
    ensures ReadAll(FramedAll(payloads)) != (payloads, Eof)
  {
    var head, tail := payloads[0], payloads[1..];
    if |head| > MAX_FRAME_SIZE {
    } else {
      var i :| 0 <= i < |payloads| && |payloads[i]| > MAX_FRAME_SIZE;
      assert tail[i - 1] == payloads[i];
      OversizedIsNotReadBack(tail);
      ReadFramed(head, FramedAll(tail));
      var (more, end) := ReadAll(FramedAll(tail));
      assert ReadAll(FramedAll(payloads)) == ([head] + more, end);
      assert ([head] + more)[1..] == more;
    }
  }
}
