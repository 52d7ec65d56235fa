/**
 Chunks of pane output with any number of marks in them. The reader thread hands the
 dispatcher the whole chunk's text first and the marks afterwards.
 */
module LateMarks {
  import opened Wrappers
  import opened PatternDispatch

  /** The text of a chunk without its marks. */
  function Texts(chunk: seq<Input>): string {
    if chunk == [] then ""
    else Texts(chunk[..|chunk| - 1]) + if chunk[|chunk| - 1].Text? then chunk[|chunk| - 1].text else ""
  }

  function Marks(chunk: seq<Input>): seq<Input> {
    if chunk == [] then []
    else Marks(chunk[..|chunk| - 1]) + if chunk[|chunk| - 1].Text? then [] else [chunk[|chunk| - 1]]
  }

  /** What the reader thread makes of a chunk. */
  function Late(a: Accumulator, chunk: seq<Input>): Outcome {
    var first := OnText(a, Texts(chunk));
    var second := Run(first.acc, Marks(chunk));
    Outcome(second.acc, first.calls + second.calls)
  }

  /** The transcripts among the engine calls. */
  function Boundaries(calls: seq<Call>): seq<Call> {
    if calls == [] then []
    else Boundaries(calls[..|calls| - 1]) + if calls[|calls| - 1].Boundary? then [calls[|calls| - 1]] else []
  }

  lemma {:induction false} BoundariesAppend(x: seq<Call>, y: seq<Call>)
    ensures Boundaries(x + y) == Boundaries(x) + Boundaries(y)
  {
    if y == [] {
      assert x + y == x;
    } else {
      assert (x + y)[..|x + y| - 1] == x + y[..|y| - 1];
      BoundariesAppend(x, y[..|y| - 1]);
    }
  }

  lemma {:induction false} TextHandsOverNothing(a: Accumulator, text: string)
    ensures Boundaries(OnText(a, text).calls) == []
  {
    if text != "" {
      TextHandsOverNothing(a, text[..|text| - 1]);
      var before := OnText(a, text[..|text| - 1]);
      BoundariesAppend(before.calls, OnChar(before.acc, text[|text| - 1]).calls);
    }
  }

  // ── Transcripts ──────────────────────────────────────────────────────────

  /** The first start or finish mark decides: a finish mark hands over what there is then, a start mark nothing. */
  function Handed(b: Accumulator, marks: seq<Input>): seq<Call>
    decreases |marks|
  {
    if marks == [] then []
    else
      match marks[0]
      case Start => []
      case Finish => OnFinish(b).calls
      case SetText(command) => Handed(b.(command := Some(command)), marks[1..])
      case Text(_) => Handed(b, marks[1..])
  }

  ghost predicate NoTexts(marks: seq<Input>) {
    forall i :: 0 <= i < |marks| ==> !marks[i].Text?
  }

  /** Nothing to hand over, and nothing that a start mark would make into something. */
  predicate Blank(b: Accumulator) {
    b.transcript == "" && (b.inCommand ==> b.lineBuf == "")
  }

  lemma BlankStays(b: Accumulator, mark: Input)
    requires Blank(b) && !mark.Text?
    ensures Blank(OnInput(b, mark).acc) && Boundaries(OnInput(b, mark).calls) == []
  {
    HandsOverIfFinish(b, mark);
    hide Boundaries;
  }

  lemma {:induction false} BlankHandsOverNothing(b: Accumulator, marks: seq<Input>)
    requires Blank(b) && NoTexts(marks)
    ensures Blank(Run(b, marks).acc) && Boundaries(Run(b, marks).calls) == []
  {
    hide OnInput, Blank;
    if marks != [] {
      var before := Run(b, marks[..|marks| - 1]);
      BlankHandsOverNothing(b, marks[..|marks| - 1]);
      BlankStays(before.acc, marks[|marks| - 1]);
      BoundariesAppend(before.calls, OnInput(before.acc, marks[|marks| - 1]).calls);
    }
  }

  lemma RunHead(b: Accumulator, mark: Input, rest: seq<Input>)
    ensures
      var first := OnInput(b, mark);
      var second := Run(first.acc, rest);
      && Run(b, [mark] + rest) == Outcome(second.acc, first.calls + second.calls)
      && Boundaries(Run(b, [mark] + rest).calls) == Boundaries(first.calls) + Boundaries(second.calls)
  {
    RunAppend(b, [mark], rest);
    assert [mark][..0] == [] && [] + OnInput(b, mark).calls == OnInput(b, mark).calls;
    assert Run(b, []) == Outcome(b, []);
    assert Run(b, [mark]) == OnInput(b, mark);
    BoundariesAppend(OnInput(b, mark).calls, Run(OnInput(b, mark).acc, rest).calls);
    hide OnInput, Boundaries;
  }

  lemma {:induction false} MarksHandOver(b: Accumulator, marks: seq<Input>)
    requires NoTexts(marks) && (!b.inCommand ==> b.transcript == "")
    ensures Boundaries(Run(b, marks).calls) == Handed(b, marks) && |Handed(b, marks)| <= 1
    decreases |marks|
  {
    if marks != [] {
      var mark, rest := marks[0], marks[1..];
      var next := OnInput(b, mark).acc;
      assert marks == [mark] + rest;
      RunHead(b, mark, rest);
      assert Boundaries(OnInput(b, mark).calls) == if mark.Finish? then OnFinish(b).calls else [] by {
        HandsOverIfFinish(b, mark);
      }
      hide Run, Boundaries;
      if mark.SetText? { MarksHandOver(next, rest); } else { BlankHandsOverNothing(next, rest); }
    }
  }

  lemma HandsOverIfFinish(b: Accumulator, mark: Input)
    requires !mark.Text?
    ensures Boundaries(OnInput(b, mark).calls) == if mark.Finish? then OnFinish(b).calls else []
  {
    var calls := OnInput(b, mark).calls;
    if calls != [] { assert calls == [calls[0]] && calls[..0] == []; }
  }

  lemma {:induction false} MarksHoldNoTexts(chunk: seq<Input>)
    ensures NoTexts(Marks(chunk))
  {
    if chunk != [] { MarksHoldNoTexts(chunk[..|chunk| - 1]); }
  }

  /**
   A chunk hands over at most one transcript, whatever marks it holds: none if a start
   mark precedes every finish mark in it, otherwise the transcript so far with all of
   the chunk's text, also what came before a later start mark or after the finish.
   */
  lemma OneTranscriptPerChunk(a: Accumulator, chunk: seq<Input>)
    requires !a.inCommand ==> a.transcript == ""
    ensures Boundaries(Late(a, chunk).calls) == Handed(OnText(a, Texts(chunk)).acc, Marks(chunk))
    ensures |Boundaries(Late(a, chunk).calls)| <= 1
  {
    var first := OnText(a, Texts(chunk));
    TextEffect(a, Texts(chunk));
    TextHandsOverNothing(a, Texts(chunk));
    MarksHoldNoTexts(chunk);
    hide OnText, Run, Boundaries, Texts, Marks, NoReturns, Completed, LineAfter;
    MarksHandOver(first.acc, Marks(chunk));
    BoundariesAppend(first.calls, Run(first.acc, Marks(chunk)).calls);
  }

  // ── A short command ──────────────────────────────────────────────────────

  /** A command that starts and ends within one chunk. */
  function ShortCommand(before: string, command: string, output: string, prompt: string): seq<Input> {
    [Text(before), SetText(command), Start, Text(output), Finish, Text(prompt)]
  }

  /**
   Of such a command the engine never sees a transcript, while the order of the stream
   would give it one exactly if the command prints anything visible.
   */
  lemma ShortCommandIsMissed(a: Accumulator, before: string, command: string, output: string, prompt: string)
    requires !a.inCommand && a.transcript == ""
    ensures
      var chunk := ShortCommand(before, command, output, prompt);
      && Boundaries(Late(a, chunk).calls) == []
      && (Boundaries(Run(a, chunk).calls) == [] <==> NoReturns(output) == "")
  {
    var chunk := ShortCommand(before, command, output, prompt);
    MarksOfShortCommand(before, command, output, prompt);
    OneTranscriptPerChunk(a, chunk);
    ShortCommandInStream(a, before, command, output, prompt);
  }

  lemma MarksOfShortCommand(before: string, command: string, output: string, prompt: string)
    ensures Marks(ShortCommand(before, command, output, prompt)) == [SetText(command), Start, Finish]
  {
    var c := ShortCommand(before, command, output, prompt);
    assert c[..5][..4] == c[..4] && c[..4][..3] == c[..3] && c[..3][..2] == c[..2] && c[..2][..1] == c[..1];
    assert Marks(c[..1]) == [] && Marks(c[..2]) == [SetText(command)];
    assert Marks(c[..3]) == [SetText(command), Start] && Marks(c[..4]) == [SetText(command), Start];
  }

  lemma RunOfTwo(a: Accumulator, x: Input, y: Input, rest: seq<Input>)
    ensures
      var first := OnInput(a, x);
      var second := OnInput(first.acc, y);
      Boundaries(Run(a, [x, y] + rest).calls)
      == Boundaries(first.calls) + Boundaries(second.calls) + Boundaries(Run(second.acc, rest).calls)
  {
    hide Run, OnInput, Boundaries;
    var first := OnInput(a, x);
    RunHead(a, x, [y] + rest);
    RunHead(first.acc, y, rest);
    assert [x, y] + rest == [x] + ([y] + rest);
  }

  lemma ShortCommandInStream(a: Accumulator, before: string, command: string, output: string, prompt: string)
    requires !a.inCommand && a.transcript == ""
    ensures Boundaries(Run(a, ShortCommand(before, command, output, prompt)).calls) == [] <==> NoReturns(output) == ""
  {
    var b := OnInput(OnInput(a, Text(before)).acc, SetText(command)).acc;
    var printed := OnInput(OnInput(b, Start).acc, Text(output)).acc;
    CommandPrints(a, before, command, output, prompt, b, printed);
    ShortCommandParts(before, command, output, prompt);
    hide *;
    RunOfTwo(a, Text(before), SetText(command), [Start, Text(output)] + ([Finish, Text(prompt)] + []));
    RunOfTwo(b, Start, Text(output), [Finish, Text(prompt)] + []);
    RunOfTwo(printed, Finish, Text(prompt), []);
    RunNothing(OnInput(OnInput(printed, Finish).acc, Text(prompt)).acc);
  }

  lemma ShortCommandParts(before: string, command: string, output: string, prompt: string)
    ensures ShortCommand(before, command, output, prompt) ==
            [Text(before), SetText(command)] + ([Start, Text(output)] + ([Finish, Text(prompt)] + []))
  {
  }

  lemma RunNothing(a: Accumulator)
    ensures Run(a, []) == Outcome(a, []) && Boundaries(Run(a, []).calls) == []
  {
  }

  lemma CommandPrints(a: Accumulator, before: string, command: string, output: string, prompt: string,
                      b: Accumulator, printed: Accumulator)
    requires !a.inCommand && a.transcript == ""
    requires b == OnInput(OnInput(a, Text(before)).acc, SetText(command)).acc
    requires printed == OnInput(OnInput(b, Start).acc, Text(output)).acc
    ensures Boundaries(OnInput(a, Text(before)).calls) == []
    ensures Boundaries(OnInput(OnInput(a, Text(before)).acc, SetText(command)).calls) == []
    ensures Boundaries(OnInput(b, Start).calls) == []
    ensures Boundaries(OnInput(OnInput(b, Start).acc, Text(output)).calls) == []
    ensures Boundaries(OnInput(printed, Finish).calls) == [] <==> NoReturns(output) == ""
    ensures Boundaries(OnInput(OnInput(printed, Finish).acc, Text(prompt)).calls) == []
  {
    TextHandsOverNothing(a, before);
    HandsOverIfFinish(OnText(a, before).acc, SetText(command));
    HandsOverIfFinish(b, Start);
    TextHandsOverNothing(OnStart(b).acc, output);
    TextEffect(OnStart(b).acc, output);
    HandsOverIfFinish(printed, Finish);
    TextHandsOverNothing(OnFinish(printed).acc, prompt);
    hide OnText, Boundaries, NoReturns, Completed, LineAfter;
  }

  // ── Marks behind all text ────────────────────────────────────────────────

  ghost predicate OnlyTexts(inputs: seq<Input>) {
    forall i :: 0 <= i < |inputs| ==> inputs[i].Text?
  }

  /** Nothing visible but carriage returns. */
  ghost predicate Invisible(inputs: seq<Input>) {
    forall i :: 0 <= i < |inputs| && inputs[i].Text? ==> NoReturns(inputs[i].text) == ""
  }

  lemma {:induction false} RunOfTexts(a: Accumulator, front: seq<Input>)
    requires OnlyTexts(front)
    ensures Run(a, front) == OnText(a, Texts(front)) && Marks(front) == []
  {
    if front != [] {
      var n := |front| - 1;
      RunOfTexts(a, front[..n]);
      OnTextAppend(a, Texts(front[..n]), front[n].text);
      hide OnText;
    }
  }

  lemma {:induction false} InvisibleDoesNothing(a: Accumulator, back: seq<Input>)
    requires Invisible(back)
    ensures OnText(a, Texts(back)) == Outcome(a, [])
  {
    if back != [] {
      var last := back[|back| - 1];
      InvisibleDoesNothing(a, back[..|back| - 1]);
      if last.Text? {
        ReturnsDoNothing(a, last.text);
        OnTextAppend(a, Texts(back[..|back| - 1]), last.text);
      } else {
        assert Texts(back) == Texts(back[..|back| - 1]);
      }
      hide OnText;
    }
  }

  lemma TextIsNothing(b: Accumulator, i: Input)
    requires i.Text? && NoReturns(i.text) == ""
    ensures OnInput(b, i) == Outcome(b, [])
  {
    ReturnsDoNothing(b, i.text);
  }

  lemma {:induction false} RunOfInvisible(b: Accumulator, back: seq<Input>)
    requires Invisible(back)
    ensures Run(b, back) == Run(b, Marks(back))
  {
    hide Run, OnInput, NoReturns;
    if back != [] {
      var before, last := back[..|back| - 1], back[|back| - 1];
      RunOfInvisible(b, before);
      RunLast(b, before, last);
      RunLast(b, Marks(before), last);
      assert back == before + [last];
      if last.Text? {
        TextIsNothing(Run(b, before).acc, last);
        assert Run(b, before).calls + [] == Run(b, before).calls && Marks(back) == Marks(before);
      }
    }
  }

  lemma {:induction false} PartsAppend(x: seq<Input>, y: seq<Input>)
    ensures Texts(x + y) == Texts(x) + Texts(y) && Marks(x + y) == Marks(x) + Marks(y)
  {
    if y == [] {
      assert x + y == x;
    } else {
      assert (x + y)[..|x + y| - 1] == x + y[..|y| - 1];
      PartsAppend(x, y[..|y| - 1]);
    }
  }

  /** If nothing visible follows the first mark of a chunk, it is handed over as it stands in the stream. */
  lemma TrailingMarksAgree(a: Accumulator, front: seq<Input>, back: seq<Input>)
    requires OnlyTexts(front) && Invisible(back)
    ensures Late(a, front + back) == Run(a, front + back)
  {
    var first := OnText(a, Texts(front));
    PartsAppend(front, back);
    RunOfTexts(a, front);
    RunOfInvisible(first.acc, back);
    InvisibleDoesNothing(first.acc, back);
    OnTextAppend(a, Texts(front), Texts(back));
    RunAppend(a, front, back);
    hide OnText, Run, Texts, Marks;
    assert first.calls + [] == first.calls && [] + Marks(back) == Marks(back);
  }
}
