/**
 Detecting URLs in the visible cells. A row's characters are joined into a text,
 matches are found in that text by byte offset, and the offsets are mapped back
 to the columns whose cells are tagged in place.
 */
module UrlDetection {
  import opened Wrappers
  import opened Cells
  import opened Text
  import opened Utf8

  // ── The pattern ──────────────────────────────────────────────────────────

  predicate UrlChar(c: char) {
    && !Whitespace(c) && c as int >= 0x20 && c as int != 0x7F
    && c != '<' && c != '>' && c != ')' && c != ']' && c != '}' && c != '"' && c != '\'' && c != '`'
  }

  predicate TrailingPunctuation(c: char) {
    c == '.' || c == ',' || c == ';' || c == ':' || c == '!' || c == '?'
  }

  predicate SchemeAt(text: string, i: nat, scheme: string) {
    i + |scheme| < |text| && text[i..i + |scheme|] == scheme && UrlChar(text[i + |scheme|])
  }

  const HTTP := "http://"
  const HTTPS := "https://"

  /** A scheme with at least one URL character behind it. */
  predicate StartsAt(text: string, i: nat) {
    SchemeAt(text, i, HTTP) || SchemeAt(text, i, HTTPS)
  }

  /** Where the run of URL characters from i ends. */
  function RunEnd(text: string, i: nat): (end: nat)
    requires i <= |text|
    ensures i <= end <= |text|
    ensures forall j :: i <= j < end ==> UrlChar(text[j])
    ensures end < |text| ==> !UrlChar(text[end])
    decreases |text| - i
  {
    if i == |text| || !UrlChar(text[i]) then i else RunEnd(text, i + 1)
  }

  function MatchEnd(text: string, i: nat): (end: nat)
    requires StartsAt(text, i)
    ensures i + |HTTP| < end <= |text|
  {
    RunEnd(text, i + if SchemeAt(text, i, HTTP) then |HTTP| else |HTTPS|)
  }

  datatype Span = Span(start: nat, end: nat)

  ghost predicate IsMatch(text: string, m: Span) {
    StartsAt(text, m.start) && m.end == MatchEnd(text, m.start)
  }

  /** The matches from a position on, each found left to right behind the one before. */
  function Matches(text: string, from: nat): (spans: seq<Span>)
    requires from <= |text|
    ensures forall k :: 0 <= k < |spans| ==> from <= spans[k].start && IsMatch(text, spans[k])
    ensures forall k, l :: 0 <= k < l < |spans| ==> spans[k].end <= spans[l].start
    decreases |text| - from
  {
    if from == |text| then []
    else if StartsAt(text, from) then
      [Span(from, MatchEnd(text, from))] + Matches(text, MatchEnd(text, from))
    else Matches(text, from + 1)
  }

  ghost predicate Inside(i: nat, m: Span) {
    m.start <= i < m.end
  }

  ghost predicate Matched(i: nat, spans: seq<Span>) {
    exists k :: 0 <= k < |spans| && Inside(i, spans[k])
  }

  lemma MatchedFurther(i: nat, first: Span, rest: seq<Span>)
    requires Inside(i, first) || Matched(i, rest)
    ensures Matched(i, [first] + rest)
  {
    var spans := [first] + rest;
    if Inside(i, first) {
      assert Inside(i, spans[0]);
    } else {
      var k :| 0 <= k < |rest| && Inside(i, rest[k]);
      assert Inside(i, spans[k + 1]);
    }
  }

  /** No match is overlooked: wherever the pattern could start lies inside a match. */
  lemma {:induction false} EveryStartIsMatched(text: string, from: nat, i: nat)
    requires from <= i < |text| && StartsAt(text, i)
    ensures Matched(i, Matches(text, from))
    decreases |text| - from
  {
    hide StartsAt, MatchEnd, Matched;
    if StartsAt(text, from) {
      var end := MatchEnd(text, from);
      if end <= i { EveryStartIsMatched(text, end, i); }
      MatchedFurther(i, Span(from, end), Matches(text, end));
    } else {
      EveryStartIsMatched(text, from + 1, i);
    }
  }

  /** The end of a match without its trailing punctuation. */
  function Trimmed(text: string, start: nat, end: nat): (t: nat)
    requires start <= end <= |text|
    ensures start <= t <= end
    ensures t > start ==> !TrailingPunctuation(text[t - 1])
    ensures forall j :: t <= j < end ==> TrailingPunctuation(text[j])
  {
    if end > start && TrailingPunctuation(text[end - 1]) then Trimmed(text, start, end - 1) else end
  }

  // ── Bytes and columns ────────────────────────────────────────────────────

  function ByteLen(s: string): nat {
    |Encode(s)|
  }

  /** Where the k-th character starts in the text's UTF-8 form. */
  function ByteAt(text: string, k: nat): nat
    requires k <= |text|
  {
    ByteLen(text[..k])
  }

  lemma {:induction false} EncodeAppend(a: string, b: string)
    ensures Encode(a + b) == Encode(a) + Encode(b)
  {
    if a == [] {
      assert a + b == b;
    } else {
      assert (a + b)[1..] == a[1..] + b;
      EncodeAppend(a[1..], b);
    }
  }

  lemma ByteAtSlice(text: string, i: nat, j: nat)
    requires i <= j <= |text|
    ensures ByteAt(text, j) == ByteAt(text, i) + ByteLen(text[i..j])
  {
    assert text[..j] == text[..i] + text[i..j];
    EncodeAppend(text[..i], text[i..j]);
  }

  lemma ByteAtIncreases(text: string, i: nat, j: nat)
    requires i < j <= |text|
    ensures ByteAt(text, i) < ByteAt(text, j)
  {
    ByteAtSlice(text, i, j);
  }

  function CharStarts(text: string): seq<nat> {
    seq(|text|, k requires 0 <= k < |text| => ByteAt(text, k))
  }

  /** The first index whose element satisfies the test. */
  function Position(s: seq<nat>, p: nat -> bool, from: nat): (r: Option<nat>)
    requires from <= |s|
    ensures r.Some? ==> from <= r.value < |s| && p(s[r.value]) && forall k :: from <= k < r.value ==> !p(s[k])
    ensures r.None? ==> forall k :: from <= k < |s| ==> !p(s[k])
    decreases |s| - from
  {
    if from == |s| then None else if p(s[from]) then Some(from) else Position(s, p, from + 1)
  }

  function Equals(b: nat): nat -> bool { x => x == b }

  function AtLeast(b: nat): nat -> bool { x => x >= b }

  function StartColumn(starts: seq<nat>, b: nat): nat {
    Position(starts, Equals(b), 0).GetOr(0)
  }

  function EndColumn(starts: seq<nat>, b: nat): nat {
    Position(starts, AtLeast(b), 0).GetOr(|starts|)
  }

  lemma PositionIs(s: seq<nat>, p: nat -> bool, k: nat)
    requires k <= |s| && (forall j :: 0 <= j < k ==> !p(s[j])) && (k < |s| ==> p(s[k]))
    ensures Position(s, p, 0) == if k < |s| then Some(k) else None
  {
  }

  /** Mapping the byte offsets of a span back gives its columns. */
  lemma BytesMapBackToColumns(text: string, start: nat, end: nat)
    requires start < end <= |text|
    ensures StartColumn(CharStarts(text), ByteAt(text, start)) == start
    ensures EndColumn(CharStarts(text), ByteAt(text, start) + ByteLen(text[start..end])) == end
  {
    hide ByteAt, ByteLen, Encode;
    var starts := CharStarts(text);
    ByteAtSlice(text, start, end);
    var b, e := ByteAt(text, start), ByteAt(text, end);
    forall k | 0 <= k < |text|
      ensures (starts[k] == b <==> k == start) && (starts[k] >= e <==> k >= end)
    {
      if k < start { ByteAtIncreases(text, k, start); }
      if start < k { ByteAtIncreases(text, start, k); }
      if k < end { ByteAtIncreases(text, k, end); }
      if end < k { ByteAtIncreases(text, end, k); }
    }
    PositionIs(starts, Equals(b), start);
    PositionIs(starts, AtLeast(e), end);
  }

  // ── What a row's text and its links are ──────────────────────────────────

  /** The indices of the first n cells that lie in the row, in order. */
  function RowIndices(cells: seq<RenderCell>, row: nat, n: nat): (idxs: seq<nat>)
    requires n <= |cells|
    ensures forall k :: 0 <= k < |idxs| ==> idxs[k] < n && cells[idxs[k]].row == row
    ensures forall i :: 0 <= i < n && cells[i].row == row ==> i in idxs
    ensures forall k, l :: 0 <= k < l < |idxs| ==> idxs[k] < idxs[l]
  {
    if n == 0 then []
    else RowIndices(cells, row, n - 1) + if cells[n - 1].row == row then [n - 1] else []
  }

  ghost predicate IndicesOf(idxs: seq<nat>, cells: seq<RenderCell>) {
    forall k :: 0 <= k < |idxs| ==> idxs[k] < |cells|
  }

  /** The widest column among the cells, 0 if there are none. */
  function MaxColumn(cells: seq<RenderCell>, idxs: seq<nat>): (m: nat)
    requires IndicesOf(idxs, cells)
    ensures forall k :: 0 <= k < |idxs| ==> cells[idxs[k]].col <= m
  {
    if idxs == [] then 0
    else
      var before := MaxColumn(cells, idxs[..|idxs| - 1]);
      var col := cells[idxs[|idxs| - 1]].col;
      if col > before then col else before
  }

  /** What the last of the cells at a column shows, a blank if there is none. */
  function LastAt(cells: seq<RenderCell>, idxs: seq<nat>, col: nat): char
    requires IndicesOf(idxs, cells)
  {
    if idxs == [] then ' '
    else if cells[idxs[|idxs| - 1]].col == col then cells[idxs[|idxs| - 1]].c
    else LastAt(cells, idxs[..|idxs| - 1], col)
  }

  function TextOf(cells: seq<RenderCell>, idxs: seq<nat>): string
    requires IndicesOf(idxs, cells)
  {
    seq(MaxColumn(cells, idxs) + 1, col requires col >= 0 => LastAt(cells, idxs, col))
  }

  function RowText(cells: seq<RenderCell>, row: nat): string {
    TextOf(cells, RowIndices(cells, row, |cells|))
  }

  /** The link a match gives to a column: its trimmed text, if that is long enough and covers the column. */
  function LinkOf(text: string, m: Span, col: nat): Option<string>
    requires m.start <= m.end <= |text|
  {
    var end := Trimmed(text, m.start, m.end);
    if ByteLen(text[m.start..end]) >= 10 && m.start <= col < end then Some(text[m.start..end]) else None
  }

  ghost predicate SpansOf(spans: seq<Span>, text: string) {
    forall k :: 0 <= k < |spans| ==> spans[k].start <= spans[k].end <= |text|
  }

  function LinkIn(text: string, spans: seq<Span>, col: nat): Option<string>
    requires SpansOf(spans, text)
  {
    if spans == [] then None
    else
      var before := LinkIn(text, spans[..|spans| - 1], col);
      if before.Some? then before else LinkOf(text, spans[|spans| - 1], col)
  }

  function LinkAt(text: string, col: nat): Option<string> {
    LinkIn(text, Matches(text, 0), col)
  }

  function Tag(cell: RenderCell, link: Option<string>): RenderCell {
    if cell.hyperlink.Some? || link.None? then cell
    else cell.(hyperlink := link, hyperlinkSource := Some(Regex))
  }

  /** What the detector leaves in place of a cell. */
  function Detected(cells: seq<RenderCell>, screenLines: nat, cell: RenderCell): RenderCell {
    if cell.row < screenLines then Tag(cell, LinkAt(RowText(cells, cell.row), cell.col)) else cell
  }

  // ── The detector ─────────────────────────────────────────────────────────

  /** Tagging changes neither a cell's place nor its character. */
  ghost predicate SameShape(a: seq<RenderCell>, b: seq<RenderCell>) {
    |a| == |b| && forall i :: 0 <= i < |a| ==> a[i].row == b[i].row && a[i].col == b[i].col && a[i].c == b[i].c
  }

  lemma {:induction false} SameRowIndices(a: seq<RenderCell>, b: seq<RenderCell>, row: nat, n: nat)
    requires SameShape(a, b) && n <= |a|
    ensures RowIndices(a, row, n) == RowIndices(b, row, n)
  {
    if n > 0 { SameRowIndices(a, b, row, n - 1); }
  }

  method BuildRowText(cells: array<RenderCell>, idxs: seq<nat>) returns (text: string)
    requires IndicesOf(idxs, cells[..])
    ensures text == TextOf(cells[..], idxs)
  {
    var maxCol := 0;
    for k := 0 to |idxs|
      invariant maxCol == MaxColumn(cells[..], idxs[..k])
    {
      assert idxs[..k + 1][..k] == idxs[..k];
      if cells[idxs[k]].col > maxCol { maxCol := cells[idxs[k]].col; }
    }
    assert idxs[..|idxs|] == idxs;
    text := seq(maxCol + 1, _ => ' ');
    for k := 0 to |idxs|
      invariant |text| == maxCol + 1
      invariant forall col :: 0 <= col <= maxCol ==> text[col] == LastAt(cells[..], idxs[..k], col)
    {
      assert idxs[..k + 1][..k] == idxs[..k];
      text := text[cells[idxs[k]].col := cells[idxs[k]].c];
    }
    assert idxs[..|idxs|] == idxs;
  }

  /** Gives the link to the row's cells in the columns from start to end that have none. */
  method TagColumns(cells: array<RenderCell>, idxs: seq<nat>, start: nat, end: nat, url: string)
    requires IndicesOf(idxs, cells[..]) && forall k, l :: 0 <= k < l < |idxs| ==> idxs[k] < idxs[l]
    modifies cells
    ensures forall i :: 0 <= i < cells.Length ==>
      cells[i] == old(Tag(cells[i], if i in idxs && start <= cells[i].col < end then Some(url) else None))
  {
    for k := 0 to |idxs|
      invariant forall i :: 0 <= i < cells.Length ==>
        cells[i] == old(Tag(cells[i], if i in idxs[..k] && start <= cells[i].col < end then Some(url) else None))
    {
      var idx := idxs[k];
      assert idxs[..k + 1] == idxs[..k] + [idx];
      var col := cells[idx].col;
      if start <= col < end && cells[idx].hyperlink.None? {
        cells[idx] := cells[idx].(hyperlink := Some(url), hyperlinkSource := Some(Regex));
      }
    }
    assert idxs[..|idxs|] == idxs;
  }

  /** The row's cells are tagged from the given matches; every other cell is as it was. */
  ghost predicate RowTagged(was: seq<RenderCell>, now: seq<RenderCell>, row: nat, text: string, spans: seq<Span>) {
    |was| == |now| && SpansOf(spans, text) &&
    forall i :: 0 <= i < |was| ==>
      now[i] == if was[i].row == row then Tag(was[i], LinkIn(text, spans, was[i].col)) else was[i]
  }

  /** What TagColumns does for one match. */
  ghost predicate ColumnsTagged(before: seq<RenderCell>, now: seq<RenderCell>, idxs: seq<nat>, start: nat, end: nat,
                                url: string) {
    |before| == |now| &&
    forall i :: 0 <= i < |before| ==>
      now[i] == Tag(before[i], if i in idxs && start <= before[i].col < end then Some(url) else None)
  }

  lemma MatchTagged(was: seq<RenderCell>, before: seq<RenderCell>, now: seq<RenderCell>, idxs: seq<nat>, row: nat,
                    text: string, spans: seq<Span>, m: nat, end: nat)
    requires m < |spans| && SpansOf(spans, text) && RowTagged(was, before, row, text, spans[..m])
    requires forall i :: 0 <= i < |was| ==> (i in idxs <==> was[i].row == row)
    requires end == Trimmed(text, spans[m].start, spans[m].end)
    requires
      var url := text[spans[m].start..end];
      if ByteLen(url) >= 10 then ColumnsTagged(before, now, idxs, spans[m].start, end, url) else now == before
    ensures RowTagged(was, now, row, text, spans[..m + 1])
  {
    assert spans[..m + 1][..m] == spans[..m];
    var url := text[spans[m].start..end];
    hide ByteLen, Trimmed, Tag;
    forall i | 0 <= i < |was| && was[i].row == row
      ensures now[i] == Tag(was[i], LinkIn(text, spans[..m + 1], was[i].col))
    {
      var col := was[i].col;
      assert before[i].col == col;
    }
    forall i | 0 <= i < |was| && was[i].row != row
      ensures now[i] == was[i]
    {
    }
  }

  /** Tags the columns of one match, if its trimmed text is long enough. */
  method TagMatch(cells: array<RenderCell>, idxs: seq<nat>, text: string, charStarts: seq<nat>, mat: Span)
    requires IndicesOf(idxs, cells[..]) && forall k, l :: 0 <= k < l < |idxs| ==> idxs[k] < idxs[l]
    requires charStarts == CharStarts(text) && mat.start <= mat.end <= |text|
    modifies cells
    ensures
      var end := Trimmed(text, mat.start, mat.end);
      var url := text[mat.start..end];
      if ByteLen(url) >= 10 then ColumnsTagged(old(cells[..]), cells[..], idxs, mat.start, end, url)
      else cells[..] == old(cells[..])
  {
    hide CharStarts, StartColumn, EndColumn, ByteAt, Encode;
    var end := Trimmed(text, mat.start, mat.end);
    var url := text[mat.start..end];
    if ByteLen(url) < 10 { return; }
    LongIsNotEmpty(url);
    BytesMapBackToColumns(text, mat.start, end);
    var byteStart := ByteAt(text, mat.start);
    var byteEnd := byteStart + ByteLen(url);
    TagColumns(cells, idxs, StartColumn(charStarts, byteStart), EndColumn(charStarts, byteEnd), url);
  }

  method DetectInRow(cells: array<RenderCell>, idxs: seq<nat>, row: nat)
    requires idxs == RowIndices(cells[..], row, cells.Length)
    modifies cells
    ensures RowTagged(old(cells[..]), cells[..], row, RowText(old(cells[..]), row),
      Matches(RowText(old(cells[..]), row), 0))
  {
    ghost var was := cells[..];
    if idxs == [] { return; }
    var text := BuildRowText(cells, idxs);
    assert text == RowText(was, row);
    var charStarts := CharStarts(text);
    var matches := Matches(text, 0);
    assert RowTagged(was, was, row, text, matches[..0]);
    assert SpansOf(matches, text);
    hide RowIndices, Matches, Trimmed, CharStarts, ByteLen, MatchEnd, StartsAt, RowTagged, RowText, LinkIn,
        ColumnsTagged;
    for m := 0 to |matches|
      invariant RowTagged(was, cells[..], row, text, matches[..m])
    {
      ghost var before := cells[..];
      TagMatch(cells, idxs, text, charStarts, matches[m]);
      MatchTagged(was, before, cells[..], idxs, row, text, matches, m, Trimmed(text, matches[m].start, matches[m].end));
    }
    assert matches[..|matches|] == matches;
  }

  lemma LongIsNotEmpty(s: string)
    requires ByteLen(s) >= 10
    ensures s != ""
  {
  }

  method GroupByRow(cells: array<RenderCell>, screenLines: nat) returns (rowIndices: array<seq<nat>>)
    ensures fresh(rowIndices) && rowIndices.Length == screenLines
    ensures forall r :: 0 <= r < screenLines ==> rowIndices[r] == RowIndices(cells[..], r, cells.Length)
  {
    rowIndices := new seq<nat>[screenLines](_ => []);
    for i := 0 to cells.Length
      invariant forall r :: 0 <= r < screenLines ==> rowIndices[r] == RowIndices(cells[..], r, i)
    {
      if cells[i].row < screenLines {
        rowIndices[cells[i].row] := rowIndices[cells[i].row] + [i];
      }
    }
  }

  /** Every cell of the array becomes what Detected says of the array as it was. */
  method DetectUrlsInCells(cells: array<RenderCell>, screenLines: nat)
    modifies cells
    ensures forall i :: 0 <= i < cells.Length ==> cells[i] == old(Detected(cells[..], screenLines, cells[i]))
  {
    ghost var was := cells[..];
    var rowIndices := GroupByRow(cells, screenLines);
    hide RowIndices, RowText;
    for r := 0 to screenLines
      invariant forall s :: 0 <= s < screenLines ==> rowIndices[s] == RowIndices(was, s, cells.Length)
      invariant forall i :: 0 <= i < cells.Length ==> cells[i] == Detected(was, r, was[i])
    {
      SameText(was, cells[..], r);
      DetectInRow(cells, rowIndices[r], r);
    }
  }

  lemma SameText(a: seq<RenderCell>, b: seq<RenderCell>, row: nat)
    requires SameShape(a, b)
    ensures RowIndices(a, row, |a|) == RowIndices(b, row, |b|) && RowText(a, row) == RowText(b, row)
  {
    SameRowIndices(a, b, row, |a|);
    var idxs := RowIndices(a, row, |a|);
    SameColumns(a, b, idxs);
    assert |RowText(a, row)| == |RowText(b, row)|;
    forall col | 0 <= col < |RowText(a, row)|
      ensures RowText(a, row)[col] == RowText(b, row)[col]
    {
      SameLast(a, b, idxs, col);
    }
  }

  lemma {:induction false} SameColumns(a: seq<RenderCell>, b: seq<RenderCell>, idxs: seq<nat>)
    requires SameShape(a, b) && IndicesOf(idxs, a)
    ensures MaxColumn(a, idxs) == MaxColumn(b, idxs)
  {
    if idxs != [] { SameColumns(a, b, idxs[..|idxs| - 1]); }
  }

  lemma {:induction false} SameLast(a: seq<RenderCell>, b: seq<RenderCell>, idxs: seq<nat>, col: nat)
    requires SameShape(a, b) && IndicesOf(idxs, a)
    ensures LastAt(a, idxs, col) == LastAt(b, idxs, col)
  {
    if idxs != [] { SameLast(a, b, idxs[..|idxs| - 1], col); }
  }

  // ── What the links mean ──────────────────────────────────────────────────

  /** A match's trimmed text is long enough and covers the column. */
  ghost predicate Covers(text: string, m: Span, col: nat, url: string)
    requires m.start <= m.end <= |text|
  {
    var end := Trimmed(text, m.start, m.end);
    m.start <= col < end && url == text[m.start..end] && ByteLen(url) >= 10
  }

  lemma CoverIsUnique(text: string, a: Span, b: Span, col: nat, url: string, other: string)
    requires a.start <= a.end <= b.start <= b.end <= |text| && Covers(text, a, col, url)
    ensures !Covers(text, b, col, other)
  {
  }

  lemma {:induction false} LinkInIff(text: string, spans: seq<Span>, col: nat, url: string)
    requires SpansOf(spans, text)
    requires forall k, l :: 0 <= k < l < |spans| ==> spans[k].end <= spans[l].start
    ensures LinkIn(text, spans, col) == Some(url) <==> exists k :: 0 <= k < |spans| && Covers(text, spans[k], col, url)
  {
    if spans != [] {
      var n := |spans| - 1;
      var first := spans[..n];
      hide Covers, LinkOf;
      LinkInIff(text, first, col, url);
      var before := LinkIn(text, first, col);
      if before.Some? {
        LinkInIff(text, first, col, before.value);
        var k :| 0 <= k < n && Covers(text, first[k], col, before.value);
        CoverIsUnique(text, spans[k], spans[n], col, before.value, url);
      }
      if k :| 0 <= k < n && Covers(text, first[k], col, url) { assert Covers(text, spans[k], col, url); }
      if k :| 0 <= k < n && Covers(text, spans[k], col, url) { assert Covers(text, first[k], col, url); }
    }
  }

  /**
   A column gets a link exactly when it lies in the trimmed span of a match, and the
   row's characters over that span spell the link.
   */
  lemma LinkedIffInSpan(text: string, spans: seq<Span>, col: nat, url: string)
    requires spans == Matches(text, 0)
    ensures SpansOf(spans, text)
    ensures LinkAt(text, col) == Some(url) <==> exists k :: 0 <= k < |spans| && Covers(text, spans[k], col, url)
  {
    assert SpansOf(spans, text);
    hide Matches, Covers, LinkIn, SpansOf, StartsAt, MatchEnd;
    LinkInIff(text, spans, col, url);
  }

  /** A scheme and more, of at least ten bytes, without blanks or brackets, whose last character is not punctuation. */
  ghost predicate LooksLikeUrl(url: string) {
    && ("http://" <= url || "https://" <= url) && |Encode(url)| >= 10
    && (forall i :: 0 <= i < |url| ==> !Whitespace(url[i]) && url[i] as int >= 0x20 && url[i] != '\U{7F}')
    && (forall i :: 0 <= i < |url| ==> url[i] !in {'<', '>', ')', ']', '}', '"', '\'', '`'})
    && url[|url| - 1] !in {'.', ',', ';', ':', '!', '?'}
  }

  predicate IsUrl(url: string) {
    && (HTTP <= url || HTTPS <= url) && (forall i :: 0 <= i < |url| ==> UrlChar(url[i]))
    && !TrailingPunctuation(url[|url| - 1])
  }

  /** Everything else may be part of a URL: printable characters but for blanks, the delimiters and quotes. */
  lemma OtherCharactersContinue(c: char)
    requires c as int > 0x20 && c as int != 0x7F && !Whitespace(c)
    requires c !in {'<', '>', ')', ']', '}', '"', '\'', '`'}
    ensures UrlChar(c)
  {
  }

  /** Only full stops, commas, semicolons, colons and exclamation and question marks at the end are trimmed. */
  lemma OnlyPunctuationIsTrimmed(text: string, start: nat, end: nat, i: nat)
    requires start <= end <= |text| && Trimmed(text, start, end) <= i < end
    ensures text[i] in {'.', ',', ';', ':', '!', '?'}
  {
    hide Trimmed;
  }

  /** A match begins with a scheme and is the longest run of URL characters behind it, at least one. */
  lemma MatchIsWholeRun(text: string, m: Span)
    requires IsMatch(text, m)
    ensures m.end <= |text| && exists body: nat ::
              && m.start <= body < m.end && (text[m.start..body] == "http://" || text[m.start..body] == "https://")
              && (forall i :: body <= i < m.end ==> UrlChar(text[i])) && (m.end < |text| ==> !UrlChar(text[m.end]))
  {
    var body := m.start + if SchemeAt(text, m.start, HTTP) then |HTTP| else |HTTPS|;
    assert text[m.start..body] == HTTP || text[m.start..body] == HTTPS;
    hide UrlChar;
  }

  /** The pattern can start wherever a scheme has a URL character behind it. */
  lemma SchemesStart(text: string, i: nat, scheme: string)
    requires scheme == "http://" || scheme == "https://"
    requires i + |scheme| < |text| && text[i..i + |scheme|] == scheme && UrlChar(text[i + |scheme|])
    ensures StartsAt(text, i)
  {
    hide UrlChar;
  }

  /** A cell on screen without a link takes that of its column, marked as found in the text; nothing else changes. */
  lemma TaggedCell(cells: seq<RenderCell>, screenLines: nat, cell: RenderCell)
    ensures
      var now := Detected(cells, screenLines, cell);
      var link := LinkAt(RowText(cells, cell.row), cell.col);
      && now == cell.(hyperlink := now.hyperlink, hyperlinkSource := now.hyperlinkSource)
      && (if cell.row < screenLines && cell.hyperlink.None? && link.Some?
          then now.hyperlink == link && now.hyperlinkSource == Some(Regex) else now == cell)
  {
    hide LinkAt, RowText;
  }

  lemma SchemeTrimmed(text: string, start: nat, end: nat, scheme: string)
    requires SchemeAt(text, start, scheme) && start + |scheme| <= end <= |text|
    requires forall i :: 0 <= i < |scheme| ==> UrlChar(scheme[i])
    requires forall j :: start + |scheme| <= j < end ==> UrlChar(text[j])
    ensures scheme <= text[start..end] && forall i :: 0 <= i < end - start ==> UrlChar(text[start..end][i])
  {
    hide UrlChar;
    var url := text[start..end];
    assert forall i :: 0 <= i < |scheme| ==> url[i] == text[start..start + |scheme|][i];
  }

  lemma TrimmedMatch(text: string, start: nat, scheme: string, end: nat)
    requires scheme == (if SchemeAt(text, start, HTTP) then HTTP else HTTPS)
    requires StartsAt(text, start) && end == Trimmed(text, start, MatchEnd(text, start)) && end > start
    ensures IsUrl(text[start..end])
  {
    assert forall i :: 0 <= i < |scheme| ==> UrlChar(scheme[i]);
    assert text[start..start + |scheme|][|scheme| - 1] == '/';
    hide Trimmed, UrlChar, RunEnd;
    SchemeTrimmed(text, start, end, scheme);
  }

  lemma UrlsLookLikeUrls(url: string)
    requires IsUrl(url) && ByteLen(url) >= 10
    ensures LooksLikeUrl(url)
  {
    hide Encode, Whitespace;
  }

  lemma LinksLookLikeUrls(text: string, spans: seq<Span>, col: nat, url: string)
    requires spans == Matches(text, 0) && LinkAt(text, col) == Some(url)
    ensures LooksLikeUrl(url)
  {
    hide LooksLikeUrl, LinkAt, Matches, StartsAt, MatchEnd, SpansOf, SchemeAt;
    LinkedIffInSpan(text, spans, col, url);
    var k :| 0 <= k < |spans| && Covers(text, spans[k], col, url);
    assert IsMatch(text, spans[k]);
    var start := spans[k].start;
    hide Trimmed;
    TrimmedMatch(text, start, if SchemeAt(text, start, HTTP) then HTTP else HTTPS, Trimmed(text, start, spans[k].end));
    UrlsLookLikeUrls(url);
  }

  /** The text at a column is what the last cell written there shows, in the order of the snapshot. */
  lemma TextShowsLastCell(cells: seq<RenderCell>, row: nat, i: nat)
    requires i < |cells| && cells[i].row == row
    requires forall j :: i < j < |cells| && cells[j].row == row ==> cells[j].col != cells[i].col
    ensures cells[i].col < |RowText(cells, row)| && RowText(cells, row)[cells[i].col] == cells[i].c
  {
    var idxs := RowIndices(cells, row, |cells|);
    var k :| 0 <= k < |idxs| && idxs[k] == i;
    hide RowIndices;
    LastAtIs(cells, idxs, k);
  }

  /** The text ends with the last column that has a cell, and shows a blank in each column that has none. */
  lemma TextIsAsWideAsTheRow(cells: seq<RenderCell>, row: nat)
    ensures
      var width := |RowText(cells, row)|;
      && width > 0 && (width == 1 || exists i :: 0 <= i < |cells| && cells[i].row == row && cells[i].col == width - 1)
      && (forall i :: 0 <= i < |cells| && cells[i].row == row ==> cells[i].col < width)
      && (forall col | 0 <= col < width ::
             (forall i :: 0 <= i < |cells| && cells[i].row == row ==> cells[i].col != col)
             ==> RowText(cells, row)[col] == ' ')
  {
    var idxs := RowIndices(cells, row, |cells|);
    var width := |RowText(cells, row)|;
    hide RowIndices;
    MaxColumnIsThere(cells, idxs);
    forall col | 0 <= col < width && forall i :: 0 <= i < |cells| && cells[i].row == row ==> cells[i].col != col
      ensures RowText(cells, row)[col] == ' '
    {
      BlankWithoutCell(cells, idxs, col);
    }
  }

  lemma {:induction false} MaxColumnIsThere(cells: seq<RenderCell>, idxs: seq<nat>)
    requires IndicesOf(idxs, cells)
    ensures MaxColumn(cells, idxs) == 0 || exists k :: 0 <= k < |idxs| && cells[idxs[k]].col == MaxColumn(cells, idxs)
  {
    if idxs != [] { MaxColumnIsThere(cells, idxs[..|idxs| - 1]); }
  }

  lemma {:induction false} BlankWithoutCell(cells: seq<RenderCell>, idxs: seq<nat>, col: nat)
    requires IndicesOf(idxs, cells) && forall k :: 0 <= k < |idxs| ==> cells[idxs[k]].col != col
    ensures LastAt(cells, idxs, col) == ' '
  {
    if idxs != [] { BlankWithoutCell(cells, idxs[..|idxs| - 1], col); }
  }

  lemma {:induction false} LastAtIs(cells: seq<RenderCell>, idxs: seq<nat>, k: nat)
    requires IndicesOf(idxs, cells) && k < |idxs|
    requires forall l :: k < l < |idxs| ==> cells[idxs[l]].col != cells[idxs[k]].col
    ensures LastAt(cells, idxs, cells[idxs[k]].col) == cells[idxs[k]].c
  {
    if k < |idxs| - 1 { LastAtIs(cells, idxs[..|idxs| - 1], k); }
  }
}
