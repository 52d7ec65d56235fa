/**
 Stripping terminal escape sequences from a byte stream that arrives in chunks.
 The state of an escape sequence is carried from chunk to chunk; the bytes of an
 unfinished UTF-8 character are not.
 */
module AnsiStrip {
  import opened Utf8

  datatype StripState = Normal | Escape | Csi | Osc | OscEsc | Apc | ApcEsc | Charset

  // ── Decoding one character ───────────────────────────────────────────────

  predicate Continuation(b: byte) {
    0x80 <= b < 0xC0
  }

  /** How long the character is that a lead byte announces; 0 for a byte that cannot lead. */
  function LeadLen(b: byte): nat {
    if b < 0x80 then 1
    else if 0xC2 <= b < 0xE0 then 2
    else if 0xE0 <= b < 0xF0 then 3
    else if 0xF0 <= b < 0xF5 then 4
    else 0
  }

  /** Overlong forms, surrogates and values beyond the last code point are excluded by the second byte. */
  predicate SecondByte(lead: byte, b: byte) {
    && Continuation(b)
    && (lead == 0xE0 ==> b >= 0xA0) && (lead == 0xED ==> b < 0xA0)
    && (lead == 0xF0 ==> b >= 0x90) && (lead == 0xF4 ==> b < 0x90)
  }

  /** Do the bytes begin with one whole well-formed character? */
  predicate BeginsWithChar(bytes: seq<byte>) {
    && bytes != [] && 0 < LeadLen(bytes[0]) <= |bytes|
    && (LeadLen(bytes[0]) > 1 ==> SecondByte(bytes[0], bytes[1]))
    && (LeadLen(bytes[0]) > 2 ==> Continuation(bytes[2]))
    && (LeadLen(bytes[0]) > 3 ==> Continuation(bytes[3]))
  }

  function DecodedChar(bytes: seq<byte>): (c: char)
    requires BeginsWithChar(bytes)
    ensures CharLen(c) == LeadLen(bytes[0])
  {
    var n, lead: int := LeadLen(bytes[0]), bytes[0];
    if n == 1 then lead as char
    else
      var v1: int := bytes[1] - 0x80;
      if n == 2 then ((lead - 0xC0) * 64 + v1) as char
      else
        var v2: int := bytes[2] - 0x80;
        if n == 3 then ((lead - 0xE0) * 4096 + v1 * 64 + v2) as char
        else
          var v3: int := bytes[3] - 0x80;
          ((lead - 0xF0) * 262144 + v1 * 4096 + v2 * 64 + v3) as char
  }

  /** The bytes begin with a character exactly when they begin with its encoding. */
  lemma BeginsWithItsEncoding(bytes: seq<byte>, c: char)
    ensures BeginsWithChar(bytes) && DecodedChar(bytes) == c <==> EncodeChar(c) <= bytes
  {
    if EncodeChar(c) <= bytes { EncodingDecodes(bytes, c); }
    if BeginsWithChar(bytes) && DecodedChar(bytes) == c { DecodingEncodes(bytes); }
  }

  /** The digits of a code point in base 64, as the encoding takes them apart. */
  lemma Digits(d3: nat, d2: nat, d1: nat, d0: nat, v: int)
    requires d2 < 64 && d1 < 64 && d0 < 64 && v == d3 * 262144 + d2 * 4096 + d1 * 64 + d0
    ensures v / 262144 == d3 && v / 4096 % 64 == d2 && v / 64 % 64 == d1 && v % 64 == d0
    ensures v / 4096 == d3 * 64 + d2 && v / 64 == d3 * 4096 + d2 * 64 + d1
  {
    var q1, q2 := d3 * 4096 + d2 * 64 + d1, d3 * 64 + d2;
    Quotient(v, 262144, d3, d2 * 4096 + d1 * 64 + d0);
    Quotient(v, 4096, q2, d1 * 64 + d0);
    Quotient(v, 64, q1, d0);
    Quotient(q2, 64, d3, d2);
    Quotient(q1, 64, q2, d1);
  }

  lemma Quotient(v: int, d: int, q: int, r: int)
    requires d == 64 || d == 4096 || d == 262144
    requires 0 <= r < d && v == (if d == 64 then q * 64 else if d == 4096 then q * 4096 else q * 262144) + r
    ensures v / d == q && v % d == r
  {
  }

  lemma EncodingDecodes(bytes: seq<byte>, c: char)
    requires EncodeChar(c) <= bytes
    ensures BeginsWithChar(bytes) && DecodedChar(bytes) == c
  {
    var n, v, e := CharLen(c), c as int, EncodeChar(c);
    assert forall i :: 0 <= i < |e| ==> bytes[i] == e[i];
    if n == 1 {
    } else if n == 2 {
      assert e == [0xC0 + v / 64, 0x80 + v % 64];
    } else if n == 3 {
      assert e == [0xE0 + v / 4096, 0x80 + v / 64 % 64, 0x80 + v % 64];
      Recompose(v);
    } else {
      assert e == [0xF0 + v / 262144, 0x80 + v / 4096 % 64, 0x80 + v / 64 % 64, 0x80 + v % 64];
      Recompose(v);
    }
  }

  lemma Recompose(v: int)
    requires 0 <= v
    ensures v == v / 262144 * 262144 + v / 4096 % 64 * 4096 + v / 64 % 64 * 64 + v % 64
    ensures v / 4096 == v / 262144 * 64 + v / 4096 % 64
  {
    Quotient(v, 262144, v / 262144, v % 262144);
    var r := v % 262144;
    Quotient(r, 4096, r / 4096, r % 4096);
    Quotient(v, 4096, v / 262144 * 64 + r / 4096, r % 4096);
    Quotient(v / 4096, 64, v / 262144, r / 4096);
    var t := r % 4096;
    Quotient(t, 64, t / 64, t % 64);
    Quotient(v, 64, (v / 262144 * 64 + r / 4096) * 64 + t / 64, t % 64);
    Quotient(v / 64, 64, v / 4096, t / 64);
  }

  lemma DecodingEncodes(bytes: seq<byte>)
    requires BeginsWithChar(bytes)
    ensures EncodeChar(DecodedChar(bytes)) == bytes[..LeadLen(bytes[0])]
  {
    var n, v := LeadLen(bytes[0]), DecodedChar(bytes) as int;
    if n == 2 {
      Digits(0, 0, bytes[0] - 0xC0, bytes[1] - 0x80, v);
    } else if n == 3 {
      Digits(0, bytes[0] - 0xE0, bytes[1] - 0x80, bytes[2] - 0x80, v);
    } else if n == 4 {
      Digits(bytes[0] - 0xF0, bytes[1] - 0x80, bytes[2] - 0x80, bytes[3] - 0x80, v);
    }
  }

  // ── The stripper as a function ───────────────────────────────────────────

  /** Control characters other than tab and line ends are dropped, and escape starts a sequence. */
  predicate Printable(b: byte) {
    b >= 0x20 || b == 0x0A || b == 0x0D || b == 0x09
  }

  function InOsc(b: byte): StripState {
    if b == 0x07 then Normal else if b == 0x1B then OscEsc else Osc
  }

  function InApc(b: byte): StripState {
    if b == 0x1B then ApcEsc else Apc
  }

  /** The state after a byte that yields no character. */
  function After(s: StripState, b: byte): StripState {
    match s
    case Normal => if b == 0x1B then Escape else Normal
    case Escape =>
      if b == 0x5B then Csi else if b == 0x5D then Osc else if 0x28 <= b <= 0x2B then Charset
      else if b == 0x5F then Apc else Normal
    case Csi => if 0x40 <= b <= 0x7E then Normal else Csi
    case Osc => InOsc(b)
    case OscEsc => if b == 0x5C then Normal else InOsc(b)
    case Apc => InApc(b)
    case ApcEsc => if b == 0x5C then Normal else InApc(b)
    case Charset => Normal
  }

  predicate YieldsChar(s: StripState, bytes: seq<byte>) {
    s.Normal? && BeginsWithChar(bytes) && Printable(bytes[0])
  }

  datatype Stripped = Stripped(state: StripState, text: string)

  function Strip(s: StripState, bytes: seq<byte>): Stripped
    decreases |bytes|
  {
    if bytes == [] then Stripped(s, "")
    else if YieldsChar(s, bytes) then
      var rest := Strip(s, bytes[LeadLen(bytes[0])..]);
      Stripped(rest.state, [DecodedChar(bytes)] + rest.text)
    else Strip(After(s, bytes[0]), bytes[1..])
  }

  class AnsiStripper {
    var state: StripState

    constructor ()
      ensures state == Normal
    {
      state := Normal;
    }

    method Feed(bytes: seq<byte>) returns (out: string)
      modifies this
      ensures Stripped(state, out) == old(Strip(state, bytes))
    {
      hide BeginsWithChar, DecodedChar;
      out := "";
      var i := 0;
      while i < |bytes|
        invariant i <= |bytes|
        invariant Stripped(Strip(state, bytes[i..]).state, out + Strip(state, bytes[i..]).text)
          == old(Strip(state, bytes))
        decreases |bytes| - i, if state.OscEsc? || state.ApcEsc? then 1 else 0
      {
        var b := bytes[i];
        var remaining := bytes[i..];
        assert remaining[1..] == bytes[i + 1..];
        match state {
          case Normal =>
            if b == 0x1B {
              state, i := Escape, i + 1;
            } else if b < 0x20 && b != 0x0A && b != 0x0D && b != 0x09 {
              i := i + 1;
            } else if BeginsWithChar(remaining) {
              YieldedFits(remaining);
              assert remaining[LeadLen(b)..] == bytes[i + LeadLen(b)..];
              out := out + [DecodedChar(remaining)];
              i := i + CharLen(DecodedChar(remaining));
            } else {
              i := i + 1;
            }
          case Escape =>
            state := match b
              case 0x5B => Csi
              case 0x5D => Osc
              case 0x28 | 0x29 | 0x2A | 0x2B => Charset
              case 0x5F => Apc
              case _ => Normal;
            i := i + 1;
          case Csi =>
            if 0x40 <= b <= 0x7E { state := Normal; }
            i := i + 1;
          case Osc =>
            if b == 0x07 { state := Normal; } else if b == 0x1B { state := OscEsc; }
            i := i + 1;
          case OscEsc =>
            if b == 0x5C {
              state, i := Normal, i + 1;
            } else {
              state := Osc;
            }
          case Apc =>
            if b == 0x1B { state := ApcEsc; }
            i := i + 1;
          case ApcEsc =>
            if b == 0x5C {
              state, i := Normal, i + 1;
            } else {
              state := Apc;
            }
          case Charset => state, i := Normal, i + 1;
        }
      }
      assert bytes[i..] == [];
    }
  }

  lemma YieldedFits(bytes: seq<byte>)
    requires BeginsWithChar(bytes)
    ensures 0 < LeadLen(bytes[0]) <= |bytes| && CharLen(DecodedChar(bytes)) == LeadLen(bytes[0])
  {
  }

  // ── Chunks ───────────────────────────────────────────────────────────────

  /** k trailing bytes of the first chunk begin a character that the next chunk completes. */
  predicate Straddles(s: StripState, a: seq<byte>, b: seq<byte>, k: nat) {
    && 0 < k <= |a| && Strip(s, a[..|a| - k]).state.Normal?
    && BeginsWithChar(a[|a| - k..] + b) && LeadLen(a[|a| - k]) > k
  }

  ghost predicate SplitsChar(s: StripState, a: seq<byte>, b: seq<byte>) {
    exists k: nat :: Straddles(s, a, b, k)
  }

  /** Continuation bytes alone yield nothing and do not leave the normal state. */
  lemma {:induction false} ContinuationsVanish(p: seq<byte>, rest: seq<byte>)
    requires forall i :: 0 <= i < |p| ==> Continuation(p[i])
    ensures Strip(Normal, p + rest) == Strip(Normal, rest)
    decreases |p|
  {
    if p == [] {
      assert p + rest == rest;
    } else {
      assert (p + rest)[1..] == p[1..] + rest;
      ContinuationsVanish(p[1..], rest);
    }
  }

  /** A character cut in two by a chunk border is lost from both sides. */
  lemma CutCharIsLost(p: seq<byte>, b: seq<byte>)
    requires p != [] && BeginsWithChar(p + b) && LeadLen(p[0]) > |p|
    ensures Strip(Normal, p) == Stripped(Normal, "")
    ensures Strip(Normal, p + b) == Stripped(Strip(Normal, b).state, [DecodedChar(p + b)] + Strip(Normal, b).text)
  {
    var n, all := LeadLen(p[0]), p + b;
    var tail, head, rest := p[1..], b[..n - |p|], b[n - |p|..];
    assert all[0] == p[0] && n > 1;
    forall i | 0 <= i < |tail| ensures Continuation(tail[i]) {
      assert tail[i] == all[i + 1];
    }
    forall i | 0 <= i < |head| ensures Continuation(head[i]) {
      assert head[i] == all[|p| + i];
    }
    assert tail + [] == tail && head + rest == b && all[n..] == rest;
    hide BeginsWithChar, DecodedChar, Continuation;
    ContinuationsVanish(tail, []);
    ContinuationsVanish(head, rest);
    assert YieldsChar(Normal, all);
  }

  lemma YieldsInLonger(s: StripState, p: seq<byte>, w: seq<byte>)
    requires p != [] && p <= w
    ensures YieldsChar(s, p) ==> YieldsChar(s, w) && DecodedChar(p) == DecodedChar(w)
    ensures YieldsChar(s, w) && LeadLen(w[0]) <= |p| ==> YieldsChar(s, p) && DecodedChar(p) == DecodedChar(w)
  {
    assert forall i :: 0 <= i < |p| ==> w[i] == p[i];
  }

  /** The scan of the whole consumes a character across the border. */
  predicate CrossesBorder(s: StripState, a: seq<byte>, b: seq<byte>)
    decreases |a|
  {
    if a == [] then false
    else if YieldsChar(s, a + b) then LeadLen(a[0]) > |a| || CrossesBorder(s, a[LeadLen(a[0])..], b)
    else CrossesBorder(After(s, a[0]), a[1..], b)
  }

  /** Stripping chunk by chunk loses exactly the character cut at the border, if there is one. */
  lemma {:induction false} StripInTwo(s: StripState, a: seq<byte>, b: seq<byte>)
    ensures
      var whole, first := Strip(s, a + b), Strip(s, a);
      var second := Strip(first.state, b);
      && whole.state == second.state
      && (!CrossesBorder(s, a, b) ==> whole.text == first.text + second.text)
      && (CrossesBorder(s, a, b) ==> |whole.text| == |first.text| + 1 + |second.text|)
      && (CrossesBorder(s, a, b) ==> exists c :: CharLen(c) > 1 && whole.text == first.text + [c] + second.text)
    decreases |a|
  {
    hide BeginsWithChar, DecodedChar;
    if a == [] {
      assert a + b == b;
    } else if YieldsChar(s, a + b) {
      var n := LeadLen(a[0]);
      assert (a + b)[0] == a[0];
      if n > |a| {
        CutCharIsLost(a, b);
        var c := DecodedChar(a + b);
        assert Strip(s, a + b).text == "" + [c] + Strip(s, b).text;
      } else {
        YieldsInLonger(s, a, a + b);
        assert (a + b)[n..] == a[n..] + b;
        StripInTwo(s, a[n..], b);
      }
    } else {
      assert (a + b)[0] == a[0] && (a + b)[1..] == a[1..] + b;
      YieldsInLonger(s, a, a + b);
      StripInTwo(After(s, a[0]), a[1..], b);
    }
  }

  /**
   The border is crossed exactly when trailing bytes of the first chunk begin a
   character that the next one completes.
   */
  lemma {:induction false} CrossesIffStraddles(s: StripState, a: seq<byte>, b: seq<byte>)
    ensures CrossesBorder(s, a, b) <==> SplitsChar(s, a, b)
    decreases |a|
  {
    hide BeginsWithChar, DecodedChar;
    if a == [] {
    } else if YieldsChar(s, a + b) && LeadLen(a[0]) > |a| {
      assert a[|a| - |a|..] == a && (a + b)[0] == a[0];
      assert Straddles(s, a, b, |a|);
    } else {
      var n := if YieldsChar(s, a + b) then LeadLen(a[0]) else 1;
      assert (a + b)[0] == a[0];
      YieldsInLonger(s, a, a + b);
      var t := if YieldsChar(s, a + b) then s else After(s, a[0]);
      CrossesIffStraddles(t, a[n..], b);
      forall k: nat
        ensures Straddles(s, a, b, k) <==> Straddles(t, a[n..], b, k)
      {
        StraddlesStep(s, t, a, b, n, k);
      }
    }
  }

  /** Trailing bytes that straddle the border lie behind whatever the scan consumed before. */
  lemma StraddlesStep(s: StripState, t: StripState, a: seq<byte>, b: seq<byte>, n: nat, k: nat)
    requires a != [] && !(YieldsChar(s, a + b) && LeadLen(a[0]) > |a|)
    requires n == (if YieldsChar(s, a + b) then LeadLen(a[0]) else 1) && 0 < n <= |a|
    requires t == if YieldsChar(s, a + b) then s else After(s, a[0])
    ensures Straddles(s, a, b, k) <==> Straddles(t, a[n..], b, k)
  {
    if |a| - n < k <= |a| {
      InsideNoStraddle(s, a, b, n, k);
    } else if 0 < k <= |a| - n {
      hide *;
      var early, rest := a[..|a| - k], a[n..];
      assert early <= a + b && early[0] == a[0];
      assert early[n..] == rest[..|rest| - k];
    }
  }

  lemma InsideNoStraddle(s: StripState, a: seq<byte>, b: seq<byte>, n: nat, k: nat)
    requires a != [] && !(YieldsChar(s, a + b) && LeadLen(a[0]) > |a|)
    requires n == (if YieldsChar(s, a + b) then LeadLen(a[0]) else 1) && n <= |a|
    requires |a| - n < k <= |a|
    ensures !Straddles(s, a, b, k)
  {
    var j := |a| - k;
    if j == 0 {
      assert a[..0] == [] && a[0..] == a;
    } else {
      assert (a + b)[j] == a[j];
      assert Continuation(a[j]);
      assert (a[j..] + b)[0] == a[j];
    }
  }

  /**
   Cutting the byte stream makes no difference to the text if and only if no
   character straddles the cut; the state of escape sequences never suffers.
   */
  lemma ChunksAgreeIff(s: StripState, a: seq<byte>, b: seq<byte>)
    ensures Strip(s, a + b).state == Strip(Strip(s, a).state, b).state
    ensures Strip(s, a + b).text == Strip(s, a).text + Strip(Strip(s, a).state, b).text <==> !SplitsChar(s, a, b)
  {
    StripInTwo(s, a, b);
    CrossesIffStraddles(s, a, b);
  }

  // ── Any number of chunks ─────────────────────────────────────────────────

  function Joined(chunks: seq<seq<byte>>): seq<byte> {
    if chunks == [] then [] else Joined(chunks[..|chunks| - 1]) + chunks[|chunks| - 1]
  }

  /** Feeding the chunks one after the other. */
  function StripChunks(s: StripState, chunks: seq<seq<byte>>): Stripped {
    if chunks == [] then Stripped(s, "")
    else
      var before := StripChunks(s, chunks[..|chunks| - 1]);
      var last := Strip(before.state, chunks[|chunks| - 1]);
      Stripped(last.state, before.text + last.text)
  }

  /** Does the k-th chunk complete a character that began in the chunks before it? */
  predicate CompletesAt(s: StripState, chunks: seq<seq<byte>>, k: nat)
    requires k < |chunks|
  {
    CrossesBorder(s, Joined(chunks[..k]), chunks[k])
  }

  /** How many characters are cut by a border. */
  function Cuts(s: StripState, chunks: seq<seq<byte>>): nat {
    if chunks == [] then 0
    else Cuts(s, chunks[..|chunks| - 1]) + if CompletesAt(s, chunks, |chunks| - 1) then 1 else 0
  }

  /** Each cut character is lost, and nothing else is. */
  lemma {:induction false} StripInChunks(s: StripState, chunks: seq<seq<byte>>)
    ensures
      var whole, fed := Strip(s, Joined(chunks)), StripChunks(s, chunks);
      && whole.state == fed.state && |whole.text| == |fed.text| + Cuts(s, chunks)
      && (Cuts(s, chunks) == 0 ==> whole.text == fed.text)
  {
    if chunks != [] {
      var before, last := chunks[..|chunks| - 1], chunks[|chunks| - 1];
      StripInChunks(s, before);
      hide Strip, CrossesBorder;
      StripInTwo(s, Joined(before), last);
    }
  }

  lemma {:induction false} NoCutsIff(s: StripState, chunks: seq<seq<byte>>)
    ensures Cuts(s, chunks) == 0 <==> forall k :: 0 <= k < |chunks| ==> !CompletesAt(s, chunks, k)
  {
    if chunks != [] {
      var n := |chunks| - 1;
      NoCutsIff(s, chunks[..n]);
      hide CrossesBorder;
      forall k | 0 <= k < n ensures CompletesAt(s, chunks, k) == CompletesAt(s, chunks[..n], k) {
        assert chunks[..n][..k] == chunks[..k];
      }
    }
  }

  /**
   However a byte stream is cut into chunks, feeding them gives the text of the
   whole stream if and only if no chunk completes a character begun before it.
   */
  lemma AllChunksAgreeIff(s: StripState, chunks: seq<seq<byte>>)
    ensures StripChunks(s, chunks).state == Strip(s, Joined(chunks)).state
    ensures StripChunks(s, chunks).text == Strip(s, Joined(chunks)).text <==>
            forall k :: 0 <= k < |chunks| ==> !SplitsChar(s, Joined(chunks[..k]), chunks[k])
  {
    StripInChunks(s, chunks);
    NoCutsIff(s, chunks);
    forall k | 0 <= k < |chunks| ensures CompletesAt(s, chunks, k) == SplitsChar(s, Joined(chunks[..k]), chunks[k]) {
      CrossesIffStraddles(s, Joined(chunks[..k]), chunks[k]);
    }
    hide SplitsChar, CompletesAt, Strip, StripChunks, Joined;
  }

  /** The two bytes of an e with acute accent, in one chunk and in two. */
  lemma AccentIsLost()
    ensures SplitsChar(Normal, [0xC3], [0xA9])
    ensures Strip(Normal, [0xC3, 0xA9]).text == [0xE9 as char]
    ensures StripChunks(Normal, [[0xC3]] + [[0xA9]]).text == ""
  {
    assert [0xC3][..0] == [] && [0xC3][0..] == [0xC3];
    assert Strip(Normal, []) == Stripped(Normal, "");
    assert [0xC3] + [0xA9] == [0xC3, 0xA9];
    assert Straddles(Normal, [0xC3], [0xA9], 1);
    assert [0xC3, 0xA9][2..] == [];
    assert [0xC3][1..] == [] && [0xA9][1..] == [];
    assert [] + [[0xC3]] == [[0xC3]];
    assert StripChunks(Normal, []) == Stripped(Normal, "");
    assert Strip(Normal, [0xC3]) == Stripped(Normal, "");
    assert Strip(Normal, [0xA9]) == Stripped(Normal, "");
  }

}
