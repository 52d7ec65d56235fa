/** The event bus's `*` glob: the greedy matcher against what a pattern means. */
module Glob {
  import opened Utf8

  const STAR: byte := 42

  predicate Literal(p: seq<byte>) {
    forall i :: 0 <= i < |p| ==> p[i] != STAR
  }

  /** `*` absorbs any byte sequence, every other byte matches itself. */
  predicate Matches(p: seq<byte>, t: seq<byte>)
    decreases |p| + |t|
  {
    if p == [] then t == []
    else if p[0] == STAR then Matches(p[1..], t) || (t != [] && Matches(p, t[1..]))
    else t != [] && p[0] == t[0] && Matches(p[1..], t[1..])
  }

  // ── An independent reading: fill in the stars ────────────────────────────

  function Stars(p: seq<byte>): nat {
    if p == [] then 0 else (if p[0] == STAR then 1 else 0) + Stars(p[1..])
  }

  /** The text that a pattern stands for when its k-th star is replaced by `fills[k]`. */
  function Fill(p: seq<byte>, fills: seq<seq<byte>>): seq<byte>
    requires |fills| == Stars(p)
  {
    if p == [] then []
    else if p[0] == STAR then fills[0] + Fill(p[1..], fills[1..])
    else [p[0]] + Fill(p[1..], fills)
  }

  lemma {:induction false} FillMatches(p: seq<byte>, fills: seq<seq<byte>>)
    requires |fills| == Stars(p)
    ensures Matches(p, Fill(p, fills))
  {
    if p == [] {
    } else if p[0] == STAR {
      FillMatches(p[1..], fills[1..]);
      StarAbsorbs(p, fills[0], Fill(p[1..], fills[1..]));
    } else {
      FillMatches(p[1..], fills);
      assert Fill(p, fills)[1..] == Fill(p[1..], fills);
    }
  }

  lemma {:induction false} MatchIsFill(p: seq<byte>, t: seq<byte>) returns (fills: seq<seq<byte>>)
    requires Matches(p, t)
    ensures |fills| == Stars(p) && Fill(p, fills) == t
    decreases |p| + |t|
  {
    if p == [] {
      fills := [];
    } else if p[0] != STAR {
      fills := MatchIsFill(p[1..], t[1..]);
    } else if Matches(p[1..], t) {
      var rest := MatchIsFill(p[1..], t);
      fills := [[]] + rest;
      assert fills[1..] == rest;
    } else {
      var rest := MatchIsFill(p, t[1..]);
      fills := [[t[0]] + rest[0]] + rest[1..];
      assert fills[1..] == rest[1..];
    }
  }

  /** A pattern matches a text exactly when some filling of its stars spells the text. */
  lemma MatchesIffFillable(p: seq<byte>, t: seq<byte>)
    ensures Matches(p, t) <==> exists fills :: |fills| == Stars(p) && Fill(p, fills) == t
  {
    if Matches(p, t) {
      var fills := MatchIsFill(p, t);
    }
    forall fills | |fills| == Stars(p) && Fill(p, fills) == t ensures Matches(p, t) {
      FillMatches(p, fills);
    }
  }

  // ── Why one star is enough to remember ───────────────────────────────────

  /** A leading star may absorb any further prefix. */
  lemma {:induction false} StarAbsorbs(p: seq<byte>, prefix: seq<byte>, t: seq<byte>)
    requires p != [] && p[0] == STAR
    requires Matches(p[1..], t) || Matches(p, t)
    ensures Matches(p, prefix + t)
    decreases |prefix|
  {
    if prefix == [] {
      assert prefix + t == t;
    } else {
      StarAbsorbs(p, prefix[1..], t);
      assert (prefix + t)[1..] == prefix[1..] + t;
    }
  }

  /** A star absorbs some definite prefix. */
  lemma {:induction false} StarSplit(p: seq<byte>, t: seq<byte>) returns (k: nat)
    requires p != [] && p[0] == STAR && Matches(p, t)
    ensures k <= |t| && Matches(p[1..], t[k..])
    decreases |t|
  {
    if Matches(p[1..], t) {
      k := 0;
      assert t[0..] == t;
    } else {
      k := StarSplit(p, t[1..]);
      assert t[1..][k..] == t[k + 1..];
      k := k + 1;
    }
  }

  lemma {:induction false} LiteralPrefix(literal: seq<byte>, q: seq<byte>, t: seq<byte>)
    requires Literal(literal)
    ensures Matches(literal + q, t) <==> literal <= t && Matches(q, t[|literal|..])
  {
    if literal == [] {
      assert literal + q == q && t[0..] == t;
    } else {
      assert (literal + q)[1..] == literal[1..] + q;
      if t != [] && t[0] == literal[0] {
        LiteralPrefix(literal[1..], q, t[1..]);
        assert literal <= t <==> literal[1..] <= t[1..];
        if literal <= t { assert t[1..][|literal| - 1..] == t[|literal|..]; }
      }
    }
  }

  /**
   Reaching a second star makes the first one irrelevant: the text between them
   is matched as early as possible, and the second star absorbs any slack.
   */
  lemma LatestStarSuffices(literal: seq<byte>, q: seq<byte>, t: seq<byte>)
    requires Literal(literal) && literal <= t
    requires q != [] && q[0] == STAR
    ensures Matches([STAR] + (literal + q), t) <==> Matches(q, t[|literal|..])
  {
    var p := [STAR] + (literal + q);
    assert p[1..] == literal + q;
    LiteralPrefix(literal, q, t);
    if Matches(p, t) {
      var k := StarSplit(p, t);
      LiteralPrefix(literal, q, t[k..]);
      assert t[k..][|literal|..] == t[k + |literal|..];
      assert t[|literal|..] == t[|literal|..|literal| + k] + t[k + |literal|..];
      StarAbsorbs(q, t[|literal|..|literal| + k], t[k + |literal|..]);
    }
  }

  /** A remainder that cannot match here can only match after the star has absorbed one byte more. */
  lemma Backtrack(literal: seq<byte>, q: seq<byte>, t: seq<byte>)
    requires Literal(literal) && literal <= t && |literal| < |t|
    requires !Matches(q, t[|literal|..])
    ensures Matches([STAR] + (literal + q), t) <==> Matches([STAR] + (literal + q), t[1..])
  {
    assert ([STAR] + (literal + q))[1..] == literal + q;
    LiteralPrefix(literal, q, t);
  }

  /** With the text used up the star has nothing left to give. */
  lemma TextExhausted(literal: seq<byte>, q: seq<byte>)
    requires Literal(literal)
    ensures Matches([STAR] + (literal + q), literal) <==> Matches(q, [])
  {
    var p := [STAR] + (literal + q);
    assert p[1..] == literal + q;
    LiteralPrefix(literal, q, literal);
    if Matches(p, literal) {
      var k := StarSplit(p, literal);
      LiteralPrefix(literal, q, literal[k..]);
    }
  }

  /**
   What the matcher knows at the head of its loop: before any star the rest of
   the pattern must match the rest of the text; after one, everything hangs on
   the latest star, and the bytes since it have been matched literally.
   `star == -1` stands for no star yet.
   */
  ghost predicate Tracks(p: seq<byte>, t: seq<byte>, pi: int, ti: int, star: int, starT: int) {
    && 0 <= pi <= |p| && 0 <= starT <= ti <= |t|
    && (star == -1 ==> starT == 0 && (Matches(p, t) <==> Matches(p[pi..], t[ti..])))
    && (star != -1 ==>
          && 0 <= star < pi && p[star] == STAR
          && Literal(p[star + 1..pi]) && p[star + 1..pi] == t[starT..ti]
          && (Matches(p, t) <==> Matches(p[star..], t[starT..])))
  }

  lemma NoStarNoMatch(p: seq<byte>, t: seq<byte>, pi: nat, ti: nat)
    requires Tracks(p, t, pi, ti, -1, 0) && ti < |t|
    requires pi == |p| || (p[pi] != STAR && p[pi] != t[ti])
    ensures !Matches(p, t)
  {
  }

  lemma TakeStar(p: seq<byte>, t: seq<byte>, pi: nat, ti: nat, star: int, starT: nat)
    requires Tracks(p, t, pi, ti, star, starT) && pi < |p| && p[pi] == STAR
    ensures Tracks(p, t, pi + 1, ti, pi, ti)
  {
    if star != -1 {
      var literal := p[star + 1..pi];
      assert p[star..] == [STAR] + (literal + p[pi..]);
      assert literal == t[starT..][..|literal|];
      LatestStarSuffices(literal, p[pi..], t[starT..]);
      assert t[starT..][|literal|..] == t[ti..];
    }
  }

  lemma TakeByte(p: seq<byte>, t: seq<byte>, pi: nat, ti: nat, star: int, starT: nat)
    requires Tracks(p, t, pi, ti, star, starT) && pi < |p| && ti < |t| && p[pi] == t[ti] && p[pi] != STAR
    ensures Tracks(p, t, pi + 1, ti + 1, star, starT)
  {
    assert p[pi..][1..] == p[pi + 1..] && t[ti..][1..] == t[ti + 1..];
    if star != -1 {
      assert p[star + 1..pi + 1] == p[star + 1..pi] + [p[pi]];
      assert t[starT..ti + 1] == t[starT..ti] + [t[ti]];
    }
  }

  lemma GoBack(p: seq<byte>, t: seq<byte>, pi: nat, ti: nat, star: nat, starT: nat)
    requires Tracks(p, t, pi, ti, star, starT) && ti < |t|
    requires pi == |p| || (p[pi] != STAR && p[pi] != t[ti])
    ensures Tracks(p, t, star + 1, starT + 1, star, starT + 1)
  {
    var literal := p[star + 1..pi];
    assert p[star..] == [STAR] + (literal + p[pi..]);
    assert literal == t[starT..][..|literal|];
    assert t[starT..][|literal|..] == t[ti..] && t[starT..][1..] == t[starT + 1..];
    Backtrack(literal, p[pi..], t[starT..]);
  }

  lemma OutOfText(p: seq<byte>, t: seq<byte>, pi: nat, star: int, starT: nat)
    requires Tracks(p, t, pi, |t|, star, starT)
    ensures Matches(p, t) <==> Matches(p[pi..], [])
  {
    assert t[|t|..] == [];
    if star != -1 {
      var literal := p[star + 1..pi];
      assert p[star..] == [STAR] + (literal + p[pi..]) && t[starT..] == literal;
      TextExhausted(literal, p[pi..]);
    }
  }

  /** n added to itself a times; keeps the loop's arithmetic linear. */
  ghost function Times(a: nat, n: nat): nat {
    if a == 0 then 0 else n + Times(a - 1, n)
  }

  lemma {:induction false} TimesMonotone(a: nat, b: nat, n: nat)
    requires a < b
    ensures Times(a, n) + n <= Times(b, n)
  {
    if a < b - 1 { TimesMonotone(a, b - 1, n); }
  }

  lemma {:induction false} TimesIsProduct(a: nat, n: nat)
    ensures Times(a, n) == a * n
  {
    if a > 0 { TimesIsProduct(a - 1, n); assert a * n == (a - 1) * n + n; }
  }

  /**
   The two-pointer matcher. `steps` counts the iterations of its main loop:
   each backtrack moves the star's text position on, and between two backtracks
   the pattern position only grows.
   */
  method GlobMatch(p: seq<byte>, t: seq<byte>) returns (matched: bool, ghost steps: nat)
    ensures matched == Matches(p, t)
    ensures steps <= (|t| + 1) * (|p| + 1)
  {
    hide Matches;
    var pi, ti := 0, 0;
    var star, starT := -1, 0;
    steps := 0;
    while ti < |t|
      invariant Tracks(p, t, pi, ti, star, starT)
      invariant steps <= Times(starT, |p|) + pi
      decreases |t| - starT, |p| - pi
    {
      steps := steps + 1;
      if pi < |p| && p[pi] == STAR {
        TakeStar(p, t, pi, ti, star, starT);
        if starT < ti { TimesMonotone(starT, ti, |p|); }
        star, starT := pi, ti;
        pi := pi + 1;
      } else if pi < |p| && p[pi] == t[ti] {
        TakeByte(p, t, pi, ti, star, starT);
        pi := pi + 1;
        ti := ti + 1;
      } else if star != -1 {
        GoBack(p, t, pi, ti, star, starT);
        TimesMonotone(starT, starT + 1, |p|);
        pi := star + 1;
        starT := starT + 1;
        ti := starT;
      } else {
        StepBound(starT, steps, p, t);
        NoStarNoMatch(p, t, pi, ti);
        return false, steps;
      }
    }
    OutOfText(p, t, pi, star, starT);
    StepBound(starT, steps, p, t);
    matched := OnlyStarsLeft(p, pi);
  }

  method OnlyStarsLeft(p: seq<byte>, from: nat) returns (only: bool)
    requires from <= |p|
    ensures only == Matches(p[from..], [])
  {
    var pi := from;
    while pi < |p| && p[pi] == STAR
      invariant from <= pi <= |p|
      invariant Matches(p[from..], []) <==> Matches(p[pi..], [])
    {
      assert p[pi..][1..] == p[pi + 1..];
      pi := pi + 1;
    }
    only := pi == |p|;
  }

  lemma StepBound(starT: nat, steps: nat, p: seq<byte>, t: seq<byte>)
    requires starT <= |t| && steps <= Times(starT, |p|) + |p| + 1
    ensures steps <= (|t| + 1) * (|p| + 1)
  {
    if starT < |t| { TimesMonotone(starT, |t|, |p|); }
    TimesIsProduct(|t|, |p|);
    assert (|t| + 1) * (|p| + 1) == |t| * |p| + |p| + |t| + 1;
  }
}
