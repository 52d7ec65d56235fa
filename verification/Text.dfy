/** Splitting and joining strings, and decimal numbers, as the text protocols use them. */
module Text {
  import opened Wrappers

  const U64_LIMIT: nat := 0x1_0000_0000_0000_0000

  // ── Splitting at a separator ─────────────────────────────────────────────

  /** The position of the first occurrence of `c`, or the length when there is none. */
  function Find(s: string, c: char): (i: nat)
    ensures i <= |s|
    ensures forall j :: 0 <= j < i ==> s[j] != c
    ensures i < |s| ==> s[i] == c
  {
    if s == [] || s[0] == c then 0 else 1 + Find(s[1..], c)
  }

  /** The pieces between separators; never empty, and a piece may be. */
  function Split(s: string, c: char): (pieces: seq<string>)
    ensures pieces != []
    decreases |s|
  {
    var i := Find(s, c);
    if i == |s| then [s] else [s[..i]] + Split(s[i + 1..], c)
  }

  function Join(pieces: seq<string>, separator: string): string {
    if pieces == [] then ""
    else if |pieces| == 1 then pieces[0]
    else pieces[0] + separator + Join(pieces[1..], separator)
  }

  lemma FindIs(s: string, c: char, i: nat)
    requires i <= |s| && (forall j :: 0 <= j < i ==> s[j] != c) && (i < |s| ==> s[i] == c)
    ensures Find(s, c) == i
  {
  }

  /** Pieces without the separator survive being joined and split again. */
  lemma {:induction false} SplitJoin(pieces: seq<string>, c: char)
    requires pieces != [] && forall i :: 0 <= i < |pieces| ==> c !in pieces[i]
    ensures Split(Join(pieces, [c]), c) == pieces
  {
    var head := pieces[0];
    if |pieces| == 1 {
      FindIs(head, c, |head|);
    } else {
      var rest := Join(pieces[1..], [c]);
      var s := head + [c] + rest;
      assert Join(pieces, [c]) == s;
      FindIs(s, c, |head|);
      assert s[..|head|] == head && s[|head| + 1..] == rest;
      SplitJoin(pieces[1..], c);
    }
  }

  /** Splitting distributes over a separator between two strings. */
  lemma {:induction false} SplitAppend(a: string, b: string, c: char)
    ensures Split(a + [c] + b, c) == Split(a, c) + Split(b, c)
    decreases |a|
  {
    var s := a + [c] + b;
    var i := Find(a, c);
    FindIs(s, c, i);
    assert s[..i] == a[..i];
    if i < |a| {
      assert s[i + 1..] == a[i + 1..] + [c] + b;
      SplitAppend(a[i + 1..], b, c);
    } else {
      assert s[..i] == a && s[i + 1..] == b;
    }
  }

  lemma {:induction false} SplitPieces(s: string, c: char)
    ensures forall i :: 0 <= i < |Split(s, c)| ==> c !in Split(s, c)[i]
    ensures |Split(s, c)| == 1 <==> c !in s
    ensures c !in s ==> Split(s, c) == [s]
    ensures c in s ==> Split(s, c)[0] != s
    decreases |s|
  {
    var i := Find(s, c);
    if i < |s| { SplitPieces(s[i + 1..], c); }
  }

  // ── Words ────────────────────────────────────────────────────────────────

  /** The Unicode characters with the White_Space property. */
  predicate Whitespace(c: char) {
    var v := c as int;
    || 0x9 <= v <= 0xD || v == 0x20 || v == 0x85 || v == 0xA0 || v == 0x1680 || 0x2000 <= v <= 0x200A
    || v == 0x2028 || v == 0x2029 || v == 0x202F || v == 0x205F || v == 0x3000
  }

  predicate IsWord(w: string) {
    w != "" && forall i :: 0 <= i < |w| ==> !Whitespace(w[i])
  }

  /** The position of the first whitespace character, or the length. */
  function WordEnd(s: string): (i: nat)
    ensures i <= |s|
    ensures forall j :: 0 <= j < i ==> !Whitespace(s[j])
    ensures i < |s| ==> Whitespace(s[i])
  {
    if s == [] || Whitespace(s[0]) then 0 else 1 + WordEnd(s[1..])
  }

  /** The maximal runs of characters that are not whitespace. */
  function Words(s: string): (words: seq<string>)
    ensures forall k :: 0 <= k < |words| ==> IsWord(words[k])
    decreases |s|
  {
    if s == [] then []
    else if Whitespace(s[0]) then Words(s[1..])
    else [s[..WordEnd(s)]] + Words(s[WordEnd(s)..])
  }

  function TrimStart(s: string): string {
    if s != "" && Whitespace(s[0]) then TrimStart(s[1..]) else s
  }

  function TrimEnd(s: string): string {
    if s != "" && Whitespace(s[|s| - 1]) then TrimEnd(s[..|s| - 1]) else s
  }

  function Trim(s: string): string {
    TrimEnd(TrimStart(s))
  }

  lemma NoWords()
    ensures Words("") == []
  {
  }

  lemma WordsSkip(c: char, s: string)
    requires Whitespace(c)
    ensures Words([c] + s) == Words(s)
  {
    hide Whitespace, IsWord;
    assert ([c] + s)[1..] == s;
  }

  lemma WordsOfRun(w: string, s: string)
    requires IsWord(w) && (s == "" || Whitespace(s[0]))
    ensures Words(w + s) == [w] + Words(s)
  {
    hide Whitespace;
    assert (w + s)[..|w|] == w && (w + s)[|w|..] == s;
  }

  lemma {:induction false} WordsAppend(a: string, c: char, b: string)
    requires Whitespace(c)
    ensures Words(a + [c] + b) == Words(a) + Words(b)
    decreases |a|
  {
    hide Whitespace, Words;
    if a == "" {
      assert a + [c] + b == [c] + b;
      WordsSkip(c, b);
      NoWords();
    } else if Whitespace(a[0]) {
      assert a + [c] + b == [a[0]] + (a[1..] + [c] + b) && a == [a[0]] + a[1..];
      WordsSkip(a[0], a[1..] + [c] + b);
      WordsSkip(a[0], a[1..]);
      WordsAppend(a[1..], c, b);
    } else {
      var e := WordEnd(a);
      var w, rest := a[..e], a[e..];
      assert a == w + rest && a + [c] + b == w + (rest + [c] + b);
      WordsOfRun(w, rest);
      WordsOfRun(w, rest + [c] + b);
      WordsAppend(rest, c, b);
    }
  }

  lemma WordsOfWord(w: string)
    requires IsWord(w)
    ensures Words(w) == [w]
  {
    assert w + "" == w;
    WordsOfRun(w, "");
  }

  /** Words joined by blanks are the same words again. */
  lemma {:induction false} WordsJoin(words: seq<string>)
    requires forall k :: 0 <= k < |words| ==> IsWord(words[k])
    ensures Words(Join(words, " ")) == words
  {
    if words != [] {
      hide IsWord, Words;
      WordsOfWord(words[0]);
      if |words| > 1 {
        WordsAppend(words[0], ' ', Join(words[1..], " "));
        WordsJoin(words[1..]);
        assert words == [words[0]] + words[1..];
      }
    }
  }

  lemma {:induction false} WordsTrimStart(s: string)
    ensures Words(TrimStart(s)) == Words(s)
  {
    if s != "" && Whitespace(s[0]) { WordsTrimStart(s[1..]); }
  }

  lemma {:induction false} WordsTrimEnd(s: string)
    ensures Words(TrimEnd(s)) == Words(s)
  {
    if s != "" && Whitespace(s[|s| - 1]) {
      WordsTrimEnd(s[..|s| - 1]);
      WordsAppend(s[..|s| - 1], s[|s| - 1], "");
      assert s == s[..|s| - 1] + [s[|s| - 1]] + "";
    }
  }

  /** Trimming keeps the words, and what is left is empty exactly when there are none. */
  lemma WordsTrim(s: string)
    ensures Words(Trim(s)) == Words(s)
    ensures Trim(s) == "" <==> Words(s) == []
  {
    WordsTrimStart(s);
    WordsTrimEnd(TrimStart(s));
    hide Whitespace, WordEnd, IsWord;
    TrimEndEnds(TrimStart(s));
    if Trim(s) != "" { NoWordsIfBlank(Trim(s), |Trim(s)| - 1); }
  }

  lemma TrimEndEnds(s: string)
    ensures TrimEnd(s) != "" ==> !Whitespace(TrimEnd(s)[|TrimEnd(s)| - 1])
  {
  }

  lemma {:induction false} NoWordsIfBlank(s: string, i: nat)
    requires i < |s| && !Whitespace(s[i])
    ensures Words(s) != []
  {
    if Whitespace(s[0]) { NoWordsIfBlank(s[1..], i - 1); }
  }

  // ── Decimal numbers ──────────────────────────────────────────────────────

  predicate IsDigit(c: char) {
    '0' <= c <= '9'
  }

  predicate AllDigits(s: string) {
    forall i :: 0 <= i < |s| ==> IsDigit(s[i])
  }

  function Digit(d: nat): char
    requires d < 10
  {
    '0' + d as char
  }

  function DigitValue(c: char): nat
    requires IsDigit(c)
  {
    c as nat - '0' as nat
  }

  function Value(digits: string): nat
    requires AllDigits(digits)
  {
    if digits == [] then 0
    else 10 * Value(digits[..|digits| - 1]) + DigitValue(digits[|digits| - 1])
  }

  /** An unsigned 64-bit number: digits, after an optional plus sign, that do not overflow. */
  function ParseU64(s: string): (r: Option<nat>)
    ensures r.Some? ==> r.value < U64_LIMIT
  {
    var digits := if s != [] && s[0] == '+' then s[1..] else s;
    if digits == [] || !AllDigits(digits) || Value(digits) >= U64_LIMIT then None else Some(Value(digits))
  }

  function Print(n: nat): (s: string)
    ensures s != [] && AllDigits(s)
  {
    if n < 10 then [Digit(n)] else Print(n / 10) + [Digit(n % 10)]
  }

  const DIGITS := "0123456789"

  /** Numbers are decimal, with the usual digits. */
  lemma DigitsAreDecimal(d: nat)
    requires d < 10
    ensures Digit(d) == DIGITS[d] && IsDigit(DIGITS[d]) && DigitValue(DIGITS[d]) == d
  {
  }

  /** A plus sign in front changes nothing; a sign or blank anywhere else, or nothing at all, is no number. */
  lemma OnlyDigitsAreNumbers(s: string)
    ensures s != "" && AllDigits(s) ==> ParseU64("+" + s) == ParseU64(s)
    ensures (exists i :: 0 < i < |s| && s[i] !in DIGITS) || s == "" || s == "+" ==> ParseU64(s).None?
  {
    assert s != "" ==> ("+" + s)[1..] == s;
    if s != "" && AllDigits(s) { assert IsDigit(s[0]); }
    if i :| 0 < i < |s| && s[i] !in DIGITS {
      assert !IsDigit(s[i]) by { if IsDigit(s[i]) { DigitsAreDecimal(s[i] as nat - '0' as nat); } }
      assert s[1..][i - 1] == s[i];
    }
  }

  lemma {:induction false} ValuePrint(n: nat)
    ensures Value(Print(n)) == n
  {
    if n >= 10 {
      ValuePrint(n / 10);
      assert Print(n)[..|Print(n)| - 1] == Print(n / 10);
    }
  }

  lemma ParsePrint(n: nat)
    requires n < U64_LIMIT
    ensures ParseU64(Print(n)) == Some(n)
  {
    ValuePrint(n);
    assert IsDigit(Print(n)[0]);
  }
}
