/**
 What the stripper takes out and what it leaves, for streams of characters, control
 characters and whole escape sequences of every kind.
 */
module EscapeSequences {
  import opened Utf8
  import opened AnsiStrip

  /**
   `Osc` ends in BEL or in ESC backslash, `Apc` in ESC backslash; `Short` are the other
   sequences of two bytes, `Stray` bytes that begin no character.
   */
  datatype Token =
    | Visible(c: char)
    | Control(b: byte)
    | Stray(b: byte)
    | CsiSequence(parameters: seq<byte>, final: byte)
    | OscSequence(body: seq<byte>, bell: bool)
    | ApcSequence(body: seq<byte>)
    | CharsetSequence(slot: byte, b: byte)
    | Short(b: byte)

  /** The body holds no terminator and does not end in the first half of one. */
  ghost predicate Open(body: seq<byte>) {
    (body != [] ==> body[|body| - 1] != 0x1B)
    && forall i :: 0 <= i < |body| - 1 && body[i] == 0x1B ==> body[i + 1] != 0x5C
  }

  ghost predicate WellFormed(t: Token) {
    match t
    case Visible(c) => c as int >= 0x20 || c == '\n' || c == '\r' || c == '\t'
    case Control(b) => b < 0x20 && b !in {0x09, 0x0A, 0x0D, 0x1B}
    case Stray(b) => 0x80 <= b < 0xC2 || b >= 0xF5
    case CsiSequence(parameters, final) =>
      0x40 <= final <= 0x7E && forall i :: 0 <= i < |parameters| ==> !(0x40 <= parameters[i] <= 0x7E)
    case OscSequence(body, _) => Open(body) && 0x07 !in body
    case ApcSequence(body) => Open(body)
    case CharsetSequence(slot, _) => 0x28 <= slot <= 0x2B
    case Short(b) => b !in {0x5B, 0x5D, 0x5F} && !(0x28 <= b <= 0x2B)
  }

  function Bytes(t: Token): seq<byte> {
    match t
    case Visible(c) => EncodeChar(c)
    case Control(b) => [b]
    case Stray(b) => [b]
    case CsiSequence(parameters, final) => [0x1B, 0x5B] + parameters + [final]
    case OscSequence(body, bell) => [0x1B, 0x5D] + body + if bell then [0x07] else [0x1B, 0x5C]
    case ApcSequence(body) => [0x1B, 0x5F] + body + [0x1B, 0x5C]
    case CharsetSequence(slot, b) => [0x1B, slot, b]
    case Short(b) => [0x1B, b]
  }

  function Stream(tokens: seq<Token>): seq<byte> {
    if tokens == [] then [] else Bytes(tokens[0]) + Stream(tokens[1..])
  }

  function VisibleText(tokens: seq<Token>): string {
    if tokens == [] then ""
    else (if tokens[0].Visible? then [tokens[0].c] else "") + VisibleText(tokens[1..])
  }

  /** One byte that yields nothing. */
  lemma Skips(s: StripState, b: byte, rest: seq<byte>)
    requires !s.Normal? || !Printable(b) || LeadLen(b) == 0
    ensures Strip(s, [b] + rest) == Strip(After(s, b), rest)
  {
    assert ([b] + rest)[1..] == rest;
  }

  lemma {:induction false} CsiEnds(parameters: seq<byte>, final: byte, rest: seq<byte>)
    requires WellFormed(CsiSequence(parameters, final))
    ensures Strip(Csi, parameters + [final] + rest) == Strip(Normal, rest)
  {
    if parameters == [] {
      assert [] + [final] + rest == [final] + rest;
      Skips(Csi, final, rest);
    } else {
      var tail := parameters[1..];
      assert parameters + [final] + rest == [parameters[0]] + (tail + [final] + rest);
      Skips(Csi, parameters[0], tail + [final] + rest);
      CsiEnds(tail, final, rest);
    }
  }

  /** The bytes of an open body, with or without an escape just before them, leave the stripper in the body. */
  lemma {:induction false} OscGoesOn(s: StripState, body: seq<byte>, rest: seq<byte>)
    requires s.Osc? || (s.OscEsc? && body != [] && body[0] != 0x5C)
    requires Open(body) && 0x07 !in body
    ensures Strip(s, body + rest) == Strip(Osc, rest)
    decreases |body|
  {
    if body == [] {
      assert [] + rest == rest;
    } else {
      var b, tail := body[0], body[1..];
      assert body + rest == [b] + (tail + rest);
      Skips(s, b, tail + rest);
      assert b in body && forall x :: x in tail ==> x in body;
      assert forall i :: 0 <= i < |tail| ==> tail[i] == body[i + 1];
      OscGoesOn(After(s, b), tail, rest);
    }
  }

  lemma {:induction false} ApcGoesOn(s: StripState, body: seq<byte>, rest: seq<byte>)
    requires s.Apc? || (s.ApcEsc? && body != [] && body[0] != 0x5C)
    requires Open(body)
    ensures Strip(s, body + rest) == Strip(Apc, rest)
    decreases |body|
  {
    if body == [] {
      assert [] + rest == rest;
    } else {
      var b, tail := body[0], body[1..];
      assert body + rest == [b] + (tail + rest);
      Skips(s, b, tail + rest);
      assert forall i :: 0 <= i < |tail| ==> tail[i] == body[i + 1];
      ApcGoesOn(After(s, b), tail, rest);
    }
  }

  lemma TwoSkips(s: StripState, b: byte, c: byte, rest: seq<byte>)
    requires (!s.Normal? || b == 0x1B) && !After(s, b).Normal?
    ensures Strip(s, [b, c] + rest) == Strip(After(After(s, b), c), rest)
  {
    assert [b, c] + rest == [b] + ([c] + rest);
    Skips(s, b, [c] + rest);
    Skips(After(s, b), c, rest);
  }

  lemma CharYields(c: char, rest: seq<byte>)
    requires WellFormed(Visible(c))
    ensures Strip(Normal, EncodeChar(c) + rest) ==
            Stripped(Strip(Normal, rest).state, [c] + Strip(Normal, rest).text)
  {
    var bytes := EncodeChar(c) + rest;
    BeginsWithItsEncoding(bytes, c);
    assert bytes[0] == EncodeChar(c)[0] && bytes[CharLen(c)..] == rest;
    hide EncodeChar, DecodedChar, BeginsWithChar;
  }

  lemma OscLeavesNoTrace(body: seq<byte>, bell: bool, rest: seq<byte>)
    requires Open(body) && 0x07 !in body
    ensures Strip(Normal, Bytes(OscSequence(body, bell)) + rest) == Strip(Normal, rest)
  {
    hide Strip, Open;
    var end := if bell then [0x07] else [0x1B, 0x5C];
    assert Bytes(OscSequence(body, bell)) + rest == [0x1B, 0x5D] + (body + (end + rest));
    TwoSkips(Normal, 0x1B, 0x5D, body + (end + rest));
    OscGoesOn(Osc, body, end + rest);
    if bell { Skips(Osc, 0x07, rest); } else { TwoSkips(Osc, 0x1B, 0x5C, rest); }
  }

  lemma ApcLeavesNoTrace(body: seq<byte>, rest: seq<byte>)
    requires Open(body)
    ensures Strip(Normal, Bytes(ApcSequence(body)) + rest) == Strip(Normal, rest)
  {
    hide Strip, Open;
    assert Bytes(ApcSequence(body)) + rest == [0x1B, 0x5F] + (body + ([0x1B, 0x5C] + rest));
    TwoSkips(Normal, 0x1B, 0x5F, body + ([0x1B, 0x5C] + rest));
    ApcGoesOn(Apc, body, [0x1B, 0x5C] + rest);
    TwoSkips(Apc, 0x1B, 0x5C, rest);
  }

  lemma CsiLeavesNoTrace(parameters: seq<byte>, final: byte, rest: seq<byte>)
    requires WellFormed(CsiSequence(parameters, final))
    ensures Strip(Normal, Bytes(CsiSequence(parameters, final)) + rest) == Strip(Normal, rest)
  {
    hide Strip, WellFormed;
    assert Bytes(CsiSequence(parameters, final)) + rest == [0x1B, 0x5B] + (parameters + [final] + rest);
    TwoSkips(Normal, 0x1B, 0x5B, parameters + [final] + rest);
    CsiEnds(parameters, final, rest);
  }

  /** A sequence, a control character or a stray byte leaves no trace, whatever follows. */
  lemma LeavesNoTrace(t: Token, rest: seq<byte>)
    requires WellFormed(t) && !t.Visible?
    ensures Strip(Normal, Bytes(t) + rest) == Strip(Normal, rest)
  {
    hide Strip, Open;
    match t {
      case Control(b) => Skips(Normal, b, rest);
      case Stray(b) => Skips(Normal, b, rest);
      case CsiSequence(parameters, final) => CsiLeavesNoTrace(parameters, final, rest);
      case OscSequence(body, bell) => OscLeavesNoTrace(body, bell, rest);
      case ApcSequence(body) => ApcLeavesNoTrace(body, rest);
      case CharsetSequence(slot, b) =>
        assert Bytes(t) + rest == [0x1B, slot] + ([b] + rest);
        TwoSkips(Normal, 0x1B, slot, [b] + rest);
        Skips(Charset, b, rest);
      case Short(b) => TwoSkips(Normal, 0x1B, b, rest);
    }
  }

  lemma LeavesItsText(t: Token, rest: seq<byte>)
    requires WellFormed(t)
    ensures
      var after := Strip(Normal, rest);
      Strip(Normal, Bytes(t) + rest) == Stripped(after.state, (if t.Visible? then [t.c] else "") + after.text)
  {
    if t.Visible? {
      CharYields(t.c, rest);
    } else {
      LeavesNoTrace(t, rest);
      assert "" + Strip(Normal, rest).text == Strip(Normal, rest).text;
    }
    hide Strip, WellFormed, EncodeChar;
  }

  /**
   Of any stream of characters, control characters and whole sequences the stripper
   leaves exactly the characters, in order, and is ready for whatever follows.
   */
  lemma {:induction false} StripsExactlyTheSequences(tokens: seq<Token>, rest: seq<byte>)
    requires forall i :: 0 <= i < |tokens| ==> WellFormed(tokens[i])
    ensures
      var after := Strip(Normal, rest);
      Strip(Normal, Stream(tokens) + rest) == Stripped(after.state, VisibleText(tokens) + after.text)
  {
    hide Strip, WellFormed, Bytes;
    if tokens == [] {
      assert [] + rest == rest && "" + Strip(Normal, rest).text == Strip(Normal, rest).text;
    } else {
      assert Stream(tokens) + rest == Bytes(tokens[0]) + (Stream(tokens[1..]) + rest);
      StripsExactlyTheSequences(tokens[1..], rest);
      LeavesItsText(tokens[0], Stream(tokens[1..]) + rest);
    }
  }
}
