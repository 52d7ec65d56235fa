/**
 Feeding a pane's output to the pattern engine: visible characters gather into
 lines, and between the marks of a shell command into a transcript. Every match
 the engine reports is published on the event bus.
 */
module PatternDispatch {
  import opened Wrappers
  import opened EventFilter
  import opened AnsiStrip
  import Utf8
  import Bus = EventBus

  type byte = Utf8.byte

  /** A call of the engine, with the command it is filtered by. */
  datatype Call = Line(text: string, command: Option<string>) | Boundary(transcript: string, command: Option<string>)

  /** What the engine finds; its resolved action is part of the body. */
  datatype Match = Match(pack: string, pattern: string, body: Body)

  /** The engine only reads its rules while it runs. */
  type Engine = Call -> seq<Match>

  datatype Accumulator = Accumulator(lineBuf: string, transcript: string, inCommand: bool, command: Option<string>)

  const EMPTY_ACCUMULATOR := Accumulator("", "", false, None)

  /** The accumulator afterwards, and the engine calls made on the way. */
  datatype Outcome = Outcome(acc: Accumulator, calls: seq<Call>)

  function LineCall(a: Accumulator, line: string): seq<Call> {
    if line == "" then [] else [Line(line, a.command)]
  }

  function OnChar(a: Accumulator, c: char): Outcome {
    if c == '\n' then
      Outcome(a.(lineBuf := "", transcript := if a.inCommand then a.transcript + a.lineBuf + "\n" else a.transcript),
              LineCall(a, a.lineBuf))
    else if c == '\r' then Outcome(a, [])
    else Outcome(a.(lineBuf := a.lineBuf + [c]), [])
  }

  function OnText(a: Accumulator, text: string): Outcome {
    if text == "" then Outcome(a, [])
    else
      var before := OnText(a, text[..|text| - 1]);
      var last := OnChar(before.acc, text[|text| - 1]);
      Outcome(last.acc, before.calls + last.calls)
  }

  function OnStart(a: Accumulator): Outcome {
    Outcome(a.(lineBuf := "", inCommand := true, transcript := ""), LineCall(a, a.lineBuf))
  }

  /** The transcript that ends with the command: an unfinished last line is part of it. */
  function Transcript(a: Accumulator): string {
    if a.lineBuf != "" && a.inCommand then a.transcript + a.lineBuf + "\n" else a.transcript
  }

  /** The unfinished line stays behind. */
  function OnFinish(a: Accumulator): Outcome {
    Outcome(a.(transcript := "", inCommand := false, command := None),
            if Transcript(a) == "" then [] else [Boundary(Transcript(a), a.command)])
  }

  // ── Where the matches go ─────────────────────────────────────────────────

  function EventOf(pane: nat, m: Match): Event {
    Event(Pattern, m.pack, m.pattern, Some(pane), 0, 0, m.body)
  }

  function Routed(b: Bus.Bus, pane: nat, matches: seq<Match>, now: nat): Bus.Bus {
    if matches == [] then b
    else Bus.Published(Routed(b, pane, matches[..|matches| - 1], now), EventOf(pane, matches[|matches| - 1]), now)
  }

  /** All matches of a list of calls, in order. */
  function Found(engine: Engine, calls: seq<Call>): seq<Match> {
    if calls == [] then [] else Found(engine, calls[..|calls| - 1]) + engine(calls[|calls| - 1])
  }

  lemma {:induction false} FoundAppend(engine: Engine, a: seq<Call>, b: seq<Call>)
    ensures Found(engine, a + b) == Found(engine, a) + Found(engine, b)
  {
    if b == [] {
      assert a + b == a;
    } else {
      assert (a + b)[..|a + b| - 1] == a + b[..|b| - 1];
      FoundAppend(engine, a, b[..|b| - 1]);
    }
  }

  /** What the engine finds in a call, it finds in the list of calls that ends with it. */
  lemma FoundLast(engine: Engine, calls: seq<Call>, last: Call)
    ensures Found(engine, calls + [last]) == Found(engine, calls) + engine(last) && Found(engine, []) == []
  {
    assert (calls + [last])[..|calls|] == calls;
  }

  lemma {:induction false} RoutedAppend(b: Bus.Bus, pane: nat, m: seq<Match>, n: seq<Match>, now: nat)
    ensures Routed(b, pane, m + n, now) == Routed(Routed(b, pane, m, now), pane, n, now)
  {
    if n == [] {
      assert m + n == m;
    } else {
      hide Bus.Published;
      assert (m + n)[..|m + n| - 1] == m + n[..|n| - 1];
      RoutedAppend(b, pane, m, n[..|n| - 1], now);
    }
  }

  /** The event on the bus that tells of a match: its pack and pattern as source and kind, for the pane. */
  ghost predicate TellsOf(m: Match, pane: nat, now: nat, cursor: nat, e: Event) {
    Bus.StoredAs(Event(Pattern, m.pack, m.pattern, Some(pane), 0, 0, m.body), now, cursor, e)
  }

  /** The newest events on the bus are those of the matches, in order, as far as the ring holds them. */
  lemma {:induction false} RoutedTellsOfMatches(b: Bus.Bus, pane: nat, matches: seq<Match>, now: nat, k: nat)
    requires Bus.BusOK(b) && k < |matches| && |matches| - k <= b.capacity
    ensures
      var c := Routed(b, pane, matches, now);
      && c.cursor == b.cursor + |matches| && c.capacity == b.capacity && Bus.BusOK(c) && |matches| - k <= |c.ring|
      && TellsOf(matches[k], pane, now, b.cursor + k + 1, c.ring[|c.ring| - |matches| + k])
  {
    hide *;
    var n := |matches| - 1;
    var before, c := Routed(b, pane, matches[..n], now), Routed(b, pane, matches, now);
    RoutedLast(b, pane, matches, now);
    RoutedKeepsOK(b, pane, matches[..n], now);
    OneRouted(before, pane, matches[n], now);
    if k < n {
      RoutedTellsOfMatches(b, pane, matches[..n], now, k);
      var d := |c.ring| - |matches| + k;
      assert c.ring[d] == c.ring[..|c.ring| - 1][d] == before.ring[|before.ring| - n + k];
    }
  }

  lemma RoutedLast(b: Bus.Bus, pane: nat, matches: seq<Match>, now: nat)
    requires matches != []
    ensures
      var n := |matches| - 1;
      Routed(b, pane, matches, now) == Bus.Published(Routed(b, pane, matches[..n], now), EventOf(pane, matches[n]), now)
  {
    hide Bus.Published, EventOf;
  }

  lemma OneRouted(b: Bus.Bus, pane: nat, m: Match, now: nat)
    requires Bus.BusOK(b)
    ensures
      var c := Bus.Published(b, EventOf(pane, m), now);
      && Bus.BusOK(c) && c.cursor == b.cursor + 1 && c.capacity == b.capacity && c.ring != []
      && TellsOf(m, pane, now, c.cursor, c.ring[|c.ring| - 1])
      && c.ring[..|c.ring| - 1] == if |b.ring| == b.capacity then b.ring[1..] else b.ring
  {
    Bus.PublishKeepsOK(b, EventOf(pane, m), now);
    Bus.PreparedIsStored(EventOf(pane, m), now, b.cursor + 1);
    hide Bus.StoredAs, Bus.Prepared;
  }

  lemma {:induction false} RoutedKeepsOK(b: Bus.Bus, pane: nat, matches: seq<Match>, now: nat)
    requires Bus.BusOK(b)
    ensures
      var c := Routed(b, pane, matches, now);
      Bus.BusOK(c) && c.cursor == b.cursor + |matches| && c.capacity == b.capacity && |c.ring| <= c.capacity
  {
    if matches != [] {
      var n := |matches| - 1;
      RoutedKeepsOK(b, pane, matches[..n], now);
      Bus.PublishKeepsOK(Routed(b, pane, matches[..n], now), EventOf(pane, matches[n]), now);
      hide Bus.BusOK;
    }
  }

  class Counter {
    var value: nat

    constructor ()
      ensures value == 0
    {
      value := 0;
    }
  }

  class PatternDispatcher {
    const engine: Engine
    const bus: Bus.EventBus
    const matchesTotal: Counter
    const pane: nat
    const stripper: AnsiStripper
    var lineBuf: string
    var transcriptBuf: string
    var inCommand: bool
    var currentCommand: Option<string>

    function State(): Accumulator
      reads this
    {
      Accumulator(lineBuf, transcriptBuf, inCommand, currentCommand)
    }

    constructor (engine: Engine, bus: Bus.EventBus, matchesTotal: Counter, pane: nat)
      ensures State() == EMPTY_ACCUMULATOR && fresh(stripper) && stripper.state == Normal
      ensures this.engine == engine && this.bus == bus && this.matchesTotal == matchesTotal && this.pane == pane
    {
      this.engine, this.bus, this.matchesTotal, this.pane := engine, bus, matchesTotal, pane;
      stripper := new AnsiStripper();
      lineBuf, transcriptBuf, inCommand, currentCommand := "", "", false, None;
    }

    /** Each match is published once, in order, and counted. */
    method RouteMatches(matches: seq<Match>, now: nat)
      requires bus.Valid()
      modifies bus, matchesTotal
      ensures bus.Valid() && bus.State() == old(Routed(bus.State(), pane, matches, now))
      ensures matchesTotal.value == old(matchesTotal.value) + |matches|
    {
      hide Bus.Published;
      for i := 0 to |matches|
        invariant bus.Valid() && bus.State() == old(Routed(bus.State(), pane, matches[..i], now))
        invariant matchesTotal.value == old(matchesTotal.value) + i
      {
        assert matches[..i + 1][..i] == matches[..i];
        matchesTotal.value := matchesTotal.value + 1;
        var _ := bus.Publish(EventOf(pane, matches[i]), now);
      }
      assert matches[..|matches|] == matches;
    }

    method DispatchLine(line: string, now: nat)
      requires bus.Valid()
      modifies bus, matchesTotal
      ensures bus.Valid()
      ensures bus.State() == old(Routed(bus.State(), pane, Found(engine, LineCall(State(), line)), now))
      ensures matchesTotal.value == old(matchesTotal.value + |Found(engine, LineCall(State(), line))|)
    {
      if line == "" { return; }
      var call := Line(line, currentCommand);
      assert Found(engine, [call]) == engine(call) by { assert [call][..0] == []; }
      RouteMatches(engine(call), now);
    }

    method ProcessBytes(bytes: seq<byte>, now: nat)
      requires bus.Valid()
      modifies this, stripper, bus, matchesTotal
      ensures bus.Valid()
      ensures stripper.state == old(Strip(stripper.state, bytes).state)
      ensures State() == old(OnText(State(), Strip(stripper.state, bytes).text).acc)
      ensures bus.State()
        == old(Routed(bus.State(), pane, Found(engine, OnText(State(), Strip(stripper.state, bytes).text).calls), now))
      ensures matchesTotal.value
        == old(matchesTotal.value + |Found(engine, OnText(State(), Strip(stripper.state, bytes).text).calls)|)
    {
      hide Strip, Routed, Found, Bus.Published;
      var visible := stripper.Feed(bytes);
      ghost var start, busStart, counted := State(), bus.State(), matchesTotal.value;
      NothingFound(engine, busStart, pane, now);
      for i := 0 to |visible|
        invariant bus.Valid() && stripper.state == old(Strip(stripper.state, bytes).state)
        invariant State() == OnText(start, visible[..i]).acc
        invariant bus.State() == Routed(busStart, pane, Found(engine, OnText(start, visible[..i]).calls), now)
        invariant matchesTotal.value == counted + |Found(engine, OnText(start, visible[..i]).calls)|
      {
        assert visible[..i + 1][..i] == visible[..i];
        ghost var calls := OnText(start, visible[..i]).calls;
        ghost var more := OnChar(State(), visible[i]).calls;
        FoundAppend(engine, calls, more);
        RoutedAppend(busStart, pane, Found(engine, calls), Found(engine, more), now);
        NothingFound(engine, bus.State(), pane, now);
        if visible[i] == '\n' {
          var line := lineBuf;
          lineBuf := "";
          DispatchLine(line, now);
          if inCommand { transcriptBuf := transcriptBuf + line + "\n"; }
        } else if visible[i] != '\r' {
          lineBuf := lineBuf + [visible[i]];
        }
      }
      assert visible[..|visible|] == visible;
    }

    method OnCommandStart(now: nat)
      requires bus.Valid()
      modifies this, bus, matchesTotal
      ensures bus.Valid() && State() == old(OnStart(State()).acc)
      ensures bus.State() == old(Routed(bus.State(), pane, Found(engine, OnStart(State()).calls), now))
      ensures matchesTotal.value == old(matchesTotal.value + |Found(engine, OnStart(State()).calls)|)
    {
      if lineBuf != "" {
        var partial := lineBuf;
        lineBuf := "";
        DispatchLine(partial, now);
      }
      inCommand := true;
      transcriptBuf := "";
    }

    method SetCommandText(command: string)
      modifies `currentCommand
      ensures State() == old(State()).(command := Some(command))
    {
      currentCommand := Some(command);
    }

    method OnCommandFinish(now: nat)
      requires bus.Valid()
      modifies this, bus, matchesTotal
      ensures bus.Valid() && State() == old(OnFinish(State()).acc)
      ensures bus.State() == old(Routed(bus.State(), pane, Found(engine, OnFinish(State()).calls), now))
      ensures matchesTotal.value == old(matchesTotal.value + |Found(engine, OnFinish(State()).calls)|)
    {
      if lineBuf != "" && inCommand {
        transcriptBuf := transcriptBuf + lineBuf + "\n";
      }
      var transcript, command := transcriptBuf, currentCommand;
      transcriptBuf := "";
      inCommand := false;
      currentCommand := None;
      if transcript != "" {
        var call := Boundary(transcript, command);
        assert Found(engine, [call]) == engine(call) by { assert [call][..0] == []; }
        RouteMatches(engine(call), now);
      }
    }
  }

  lemma NothingFound(engine: Engine, b: Bus.Bus, pane: nat, now: nat)
    ensures Found(engine, []) == [] && Routed(b, pane, [], now) == b
  {
  }

  // ── Runs ─────────────────────────────────────────────────────────────────

  /** What reaches the dispatcher: a chunk of visible text or a mark of shell integration. */
  datatype Input = Text(text: string) | Start | SetText(commandText: string) | Finish

  function OnInput(a: Accumulator, i: Input): Outcome {
    match i
    case Text(text) => OnText(a, text)
    case Start => OnStart(a)
    case SetText(commandText) => Outcome(a.(command := Some(commandText)), [])
    case Finish => OnFinish(a)
  }

  function Run(a: Accumulator, inputs: seq<Input>): Outcome {
    if inputs == [] then Outcome(a, [])
    else
      var before := Run(a, inputs[..|inputs| - 1]);
      var last := OnInput(before.acc, inputs[|inputs| - 1]);
      Outcome(last.acc, before.calls + last.calls)
  }

  /** The stream of single characters and marks, whatever chunks it came in. */
  function Flat(inputs: seq<Input>): seq<Input> {
    if inputs == [] then [] else Flat(inputs[..|inputs| - 1]) + Pieces(inputs[|inputs| - 1])
  }

  function Pieces(i: Input): seq<Input> {
    if i.Text? then seq(|i.text|, k requires 0 <= k < |i.text| => Text([i.text[k]])) else [i]
  }

  lemma RunLast(a: Accumulator, inputs: seq<Input>, last: Input)
    ensures
      var before := Run(a, inputs);
      var out := OnInput(before.acc, last);
      Run(a, inputs + [last]) == Outcome(out.acc, before.calls + out.calls)
  {
    hide OnInput;
    assert (inputs + [last])[..|inputs|] == inputs;
  }

  /** Running y behind x is running x and then y. */
  ghost predicate Splits(a: Accumulator, x: seq<Input>, y: seq<Input>) {
    var first := Run(a, x);
    var second := Run(first.acc, y);
    Run(a, x + y) == Outcome(second.acc, first.calls + second.calls)
  }

  lemma SplitsSnoc(a: Accumulator, x: seq<Input>, y: seq<Input>, last: Input)
    requires Splits(a, x, y)
    ensures Splits(a, x, y + [last])
  {
    var first := Run(a, x);
    var second := Run(first.acc, y);
    var calls := OnInput(second.acc, last).calls;
    RunLast(a, x + y, last);
    RunLast(first.acc, y, last);
    hide Run, OnInput;
    assert x + (y + [last]) == (x + y) + [last];
    assert (first.calls + second.calls) + calls == first.calls + (second.calls + calls);
  }

  lemma SplitsNothing(a: Accumulator, x: seq<Input>)
    ensures Splits(a, x, [])
  {
    var first := Run(a, x);
    assert Run(first.acc, []) == Outcome(first.acc, []);
    assert x + [] == x && first.calls + [] == first.calls;
    hide Run;
  }

  lemma {:induction false} RunAppend(a: Accumulator, x: seq<Input>, y: seq<Input>)
    ensures Splits(a, x, y)
  {
    hide *;
    if y == [] {
      SplitsNothing(a, x);
    } else {
      var n := |y| - 1;
      RunAppend(a, x, y[..n]);
      SplitsSnoc(a, x, y[..n], y[n]);
      assert y == y[..n] + [y[n]];
    }
  }

  lemma {:induction false} TextByCharacters(a: Accumulator, text: string)
    ensures Run(a, Pieces(Text(text))) == OnText(a, text)
  {
    if text != "" {
      var n := |text| - 1;
      hide OnChar;
      TextByCharacters(a, text[..n]);
      var pieces := Pieces(Text(text));
      assert pieces[..n] == Pieces(Text(text[..n]));
      OneCharacter(OnText(a, text[..n]).acc, text[n]);
    }
  }

  lemma OneCharacter(a: Accumulator, c: char)
    ensures OnText(a, [c]) == OnChar(a, c)
  {
    assert [c][..0] == "" && OnText(a, "") == Outcome(a, []);
  }

  lemma {:induction false} RunIsRunOfFlat(a: Accumulator, inputs: seq<Input>)
    ensures Run(a, Flat(inputs)) == Run(a, inputs)
  {
    if inputs != [] {
      var before, last := inputs[..|inputs| - 1], inputs[|inputs| - 1];
      RunIsRunOfFlat(a, before);
      RunAppend(a, Flat(before), Pieces(last));
      var mid := Run(a, before).acc;
      if last.Text? {
        TextByCharacters(mid, last.text);
      } else {
        hide OnInput;
        assert [last][..0] == [];
        assert Run(mid, []) == Outcome(mid, []);
        assert Run(mid, [last]) == OnInput(mid, last);
      }
    }
  }

  /** The engine calls depend only on the visible characters and the marks between them, not on the chunks. */
  lemma ChunkingDoesNotMatter(a: Accumulator, x: seq<Input>, y: seq<Input>)
    requires Flat(x) == Flat(y)
    ensures Run(a, x) == Run(a, y)
  {
    RunIsRunOfFlat(a, x);
    RunIsRunOfFlat(a, y);
  }

  // ── Nothing visible is lost ──────────────────────────────────────────────

  /** The visible text without line ends. */
  function Bare(inputs: seq<Input>): string {
    if inputs == [] then ""
    else Bare(inputs[..|inputs| - 1]) + if inputs[|inputs| - 1].Text? then BareText(inputs[|inputs| - 1].text) else ""
  }

  function BareText(text: string): string {
    if text == "" then ""
    else
      var c := text[|text| - 1];
      BareText(text[..|text| - 1]) + if c == '\n' || c == '\r' then "" else [c]
  }

  /** The lines dispatched, one after the other. */
  function Dispatched(calls: seq<Call>): string {
    if calls == [] then ""
    else Dispatched(calls[..|calls| - 1]) + if calls[|calls| - 1].Line? then calls[|calls| - 1].text else ""
  }

  lemma {:induction false} DispatchedAppend(x: seq<Call>, y: seq<Call>)
    ensures Dispatched(x + y) == Dispatched(x) + Dispatched(y)
  {
    if y == [] {
      assert x + y == x;
    } else {
      assert (x + y)[..|x + y| - 1] == x + y[..|y| - 1];
      DispatchedAppend(x, y[..|y| - 1]);
    }
  }

  lemma DispatchedLine(a: Accumulator, line: string)
    ensures Dispatched(LineCall(a, line)) == line
  {
    if line != "" { assert [Line(line, a.command)][..0] == []; }
  }

  lemma {:induction false} TextConserved(a: Accumulator, text: string)
    ensures var out := OnText(a, text); Dispatched(out.calls) + out.acc.lineBuf == a.lineBuf + BareText(text)
  {
    if text != "" {
      var c, before := text[|text| - 1], OnText(a, text[..|text| - 1]);
      TextConserved(a, text[..|text| - 1]);
      DispatchedLine(before.acc, before.acc.lineBuf);
      DispatchedAppend(before.calls, OnChar(before.acc, c).calls);
      assert Dispatched([]) == "";
      hide Dispatched, BareText, OnText, LineCall;
      Rejoin(Dispatched(before.calls), Dispatched(OnChar(before.acc, c).calls), OnChar(before.acc, c).acc.lineBuf,
             before.acc.lineBuf, a.lineBuf, BareText(text[..|text| - 1]), if c == '\n' || c == '\r' then "" else [c]);
    }
  }

  lemma Rejoin(d: string, e: string, after: string, line: string, first: string, bare: string, more: string)
    requires d + line == first + bare && e + after == line + more
    ensures (d + e) + after == first + (bare + more)
  {
    assert (d + e) + after == d + (e + after) == (d + line) + more;
  }

  /** At all times the lines dispatched and the unfinished line together are the visible text without line ends. */
  lemma {:induction false} NothingVisibleIsLost(inputs: seq<Input>, out: Outcome)
    requires out == Run(EMPTY_ACCUMULATOR, inputs)
    ensures Dispatched(out.calls) + out.acc.lineBuf == Bare(inputs)
  {
    if inputs != [] {
      var last, before := inputs[|inputs| - 1], Run(EMPTY_ACCUMULATOR, inputs[..|inputs| - 1]);
      NothingVisibleIsLost(inputs[..|inputs| - 1], before);
      DispatchedAppend(before.calls, OnInput(before.acc, last).calls);
      hide Dispatched, Bare, Run, BareText, OnText;
      InputConserved(before.acc, last);
      assert Bare(inputs) == Bare(inputs[..|inputs| - 1]) + if last.Text? then BareText(last.text) else "" by {
      }
      Rejoin(Dispatched(before.calls), Dispatched(OnInput(before.acc, last).calls),
          OnInput(before.acc, last).acc.lineBuf,
             before.acc.lineBuf, "", Bare(inputs[..|inputs| - 1]), if last.Text? then BareText(last.text) else "");
    }
  }

  lemma InputConserved(a: Accumulator, i: Input)
    ensures var out := OnInput(a, i);
            Dispatched(out.calls) + out.acc.lineBuf == a.lineBuf + if i.Text? then BareText(i.text) else ""
  {
    match i {
      case Text(text) => TextConserved(a, text);
      case Start => DispatchedLine(a, a.lineBuf); hide LineCall;
      case SetText(_) =>
      case Finish => if Transcript(a) != "" { assert [Boundary(Transcript(a), a.command)][..0] == []; }
    }
  }

  // ── The transcript ───────────────────────────────────────────────────────

  /** Is the shell between the marks of a command? */
  function Open(atoms: seq<Input>): bool {
    if atoms == [] then false
    else if atoms[|atoms| - 1].Start? then true
    else if atoms[|atoms| - 1].Finish? then false
    else Open(atoms[..|atoms| - 1])
  }

  /** The visible text since the last start mark, without carriage returns. */
  function Since(atoms: seq<Input>): string {
    if atoms == [] || atoms[|atoms| - 1].Start? then ""
    else Since(atoms[..|atoms| - 1]) + if atoms[|atoms| - 1].Text? then NoReturns(atoms[|atoms| - 1].text) else ""
  }

  function NoReturns(text: string): string {
    if text == "" then ""
    else NoReturns(text[..|text| - 1]) + if text[|text| - 1] == '\r' then "" else [text[|text| - 1]]
  }

  /** The command text announced since the last finish mark. */
  function Announced(atoms: seq<Input>): Option<string> {
    if atoms == [] || atoms[|atoms| - 1].Finish? then None
    else if atoms[|atoms| - 1].SetText? then Some(atoms[|atoms| - 1].commandText)
    else Announced(atoms[..|atoms| - 1])
  }

  /**
   While a command runs, transcript and unfinished line are the text since its start;
   otherwise the transcript is empty.
   */
  ghost predicate Tells(a: Accumulator, open: bool, since: string, announced: Option<string>) {
    && a.inCommand == open && a.command == announced && '\n' !in a.lineBuf
    && (open ==> a.transcript + a.lineBuf == since && (a.transcript == "" || a.transcript[|a.transcript| - 1] == '\n'))
    && (!open ==> a.transcript == "")
  }

  lemma {:induction false} TextTells(a: Accumulator, text: string, open: bool, since: string, announced: Option<string>)
    requires Tells(a, open, since, announced)
    ensures Tells(OnText(a, text).acc, open, since + NoReturns(text), announced)
  {
    if text == "" {
      assert since + "" == since;
    } else {
      hide Tells, OnChar;
      var before, c := text[..|text| - 1], text[|text| - 1];
      TextTells(a, before, open, since, announced);
      assert since + NoReturns(text) == since + NoReturns(before) + if c == '\r' then "" else [c];
    }
  }

  lemma {:induction false} RunTells(inputs: seq<Input>)
    ensures Tells(Run(EMPTY_ACCUMULATOR, inputs).acc, Open(inputs), Since(inputs), Announced(inputs))
  {
    if inputs != [] {
      var before, last := inputs[..|inputs| - 1], inputs[|inputs| - 1];
      RunTells(before);
      var a := Run(EMPTY_ACCUMULATOR, before).acc;
      if last.Text? {
        hide Tells, OnText;
        TextTells(a, last.text, Open(before), Since(before), Announced(before));
      } else {
        assert Since(before) + "" == Since(before);
        hide Run;
      }
    }
  }

  /**
   On command finish the engine gets exactly the visible text since the command's
   start, without carriage returns and with one newline more if its last line was
   unfinished; nothing if there is no such text or no command was running.
   */
  lemma FinishHandsOverTheTranscript(inputs: seq<Input>, out: Outcome)
    requires out == Run(EMPTY_ACCUMULATOR, inputs)
    ensures
      var since := Since(inputs);
      var whole := if since == "" || since[|since| - 1] == '\n' then since else since + "\n";
      OnFinish(out.acc).calls == if Open(inputs) && since != "" then [Boundary(whole, Announced(inputs))] else []
    ensures !Open(inputs) ==> out.acc.transcript == ""
  {
    RunTells(inputs);
    hide Run, Open, Since, Announced;
    var a, since := out.acc, Since(inputs);
    if Open(inputs) && a.lineBuf != "" {
      assert since[|since| - 1] == a.lineBuf[|a.lineBuf| - 1];
      assert a.lineBuf[|a.lineBuf| - 1] in a.lineBuf;
    } else if Open(inputs) {
      assert a.transcript + "" == a.transcript;
    }
  }

  // ── Marks come late ──────────────────────────────────────────────────────

  /** The unfinished line after some text. */
  function LineAfter(line: string, text: string): string {
    if text == "" then line
    else
      var before, c := LineAfter(line, text[..|text| - 1]), text[|text| - 1];
      if c == '\n' then "" else if c == '\r' then before else before + [c]
  }

  /** The lines that some text completes behind an unfinished one; empty ones do not count. */
  function Completed(line: string, text: string): seq<string> {
    if text == "" then []
    else
      var before := LineAfter(line, text[..|text| - 1]);
      Completed(line, text[..|text| - 1]) + if text[|text| - 1] == '\n' && before != "" then [before] else []
  }

  function LineCalls(lines: seq<string>, command: Option<string>): seq<Call> {
    seq(|lines|, i requires 0 <= i < |lines| => Line(lines[i], command))
  }

  /** What text does to the accumulator, part by part. */
  lemma {:induction false} TextEffect(a: Accumulator, text: string)
    ensures
      var out := OnText(a, text);
      && out.calls == LineCalls(Completed(a.lineBuf, text), a.command) && out.acc.lineBuf == LineAfter(a.lineBuf, text)
      && out.acc.command == a.command && out.acc.inCommand == a.inCommand
      && (!a.inCommand ==> out.acc.transcript == a.transcript)
      && (a.inCommand ==> out.acc.transcript + out.acc.lineBuf == a.transcript + a.lineBuf + NoReturns(text))
  {
    if text == "" {
      assert a.transcript + a.lineBuf + "" == a.transcript + a.lineBuf;
    } else {
      var before, c := text[..|text| - 1], text[|text| - 1];
      TextEffect(a, before);
      hide OnText;
      var b := OnText(a, before).acc;
      assert OnText(a, text)
          == Outcome(OnChar(b, c).acc, OnText(a, before).calls + OnChar(b, c).calls);
      assert LineCalls(Completed(a.lineBuf, text), a.command) == OnText(a, before).calls + OnChar(b, c).calls;
      hide Completed, LineAfter, LineCalls;
      assert a.transcript + a.lineBuf + NoReturns(before) + (if c == '\r' then "" else [c])
          == a.transcript + a.lineBuf + (NoReturns(before) + if c == '\r' then "" else [c]);
    }
  }

  lemma {:induction false} ReturnsDoNothing(a: Accumulator, text: string)
    requires NoReturns(text) == ""
    ensures OnText(a, text) == Outcome(a, [])
  {
    if text != "" { ReturnsDoNothing(a, text[..|text| - 1]); }
  }

  lemma TwoInputs(a: Accumulator, text: string, mark: Input)
    ensures
      var first := OnText(a, text);
      var second := OnInput(first.acc, mark);
      Run(a, [Text(text), mark]) == Outcome(second.acc, first.calls + second.calls)
  {
    var inputs := [Text(text), mark];
    assert inputs[..1] == [Text(text)] && [Text(text)][..0] == [];
    assert Run(a, []) == Outcome(a, []) && [] + OnText(a, text).calls == OnText(a, text).calls;
    hide OnText, OnStart, OnFinish;
  }

  lemma ThreeInputs(a: Accumulator, before: string, mark: Input, after: string)
    ensures
      var first := OnText(a, before);
      var second := OnInput(first.acc, mark);
      var last := OnText(second.acc, after);
      Run(a, [Text(before), mark, Text(after)]) == Outcome(last.acc, first.calls + second.calls + last.calls)
  {
    var inputs := [Text(before), mark, Text(after)];
    assert inputs[..2] == [Text(before), mark];
    TwoInputs(a, before, mark);
    hide OnText, OnStart, OnFinish;
  }

  /**
   The order of the stream, a mark between two texts, and the order in which the
   reader thread hands the chunk over.
   */
  function InStream(a: Accumulator, before: string, mark: Input, after: string): Outcome {
    Run(a, [Text(before), mark, Text(after)])
  }

  function HandedOver(a: Accumulator, before: string, mark: Input, after: string): Outcome {
    Run(a, [Text(before + after), mark])
  }

  /** Both orders agree on the text before the mark, so they agree at all if they agree from there. */
  lemma AgreeFromMark(a: Accumulator, before: string, mark: Input, after: string, b: Accumulator)
    requires b == OnText(a, before).acc
    ensures
      var marked := OnInput(b, mark);
      var stream, late := OnText(marked.acc, after), OnText(b, after);
      var lateMark := OnInput(late.acc, mark);
      InStream(a, before, mark, after) == HandedOver(a, before, mark, after) <==>
      stream.acc == lateMark.acc && marked.calls + stream.calls == late.calls + lateMark.calls
  {
    ThreeInputs(a, before, mark, after);
    TwoInputs(a, before + after, mark);
    OnTextAppend(a, before, after);
    var marked := OnInput(b, mark);
    var x, y := marked.calls + OnText(marked.acc, after).calls,
        OnText(b, after).calls + OnInput(OnText(b, after).acc, mark).calls;
    hide OnText, OnInput, Run;
    SamePrefix(OnText(a, before).calls, x, y);
    assert OnText(a, before).calls + marked.calls + OnText(marked.acc, after).calls == OnText(a, before).calls + x;
    assert OnText(a, before).calls + OnText(b, after).calls + OnInput(OnText(b, after).acc, mark).calls
        == OnText(a, before).calls + y;
  }

  lemma SamePrefix(p: seq<Call>, x: seq<Call>, y: seq<Call>)
    ensures p + x == p + y <==> x == y
  {
    assert (p + x)[|p|..] == x && (p + y)[|p|..] == y;
  }

  /**
   The reader thread hands a whole chunk over before the marks found in it. For a
   start mark that agrees with the stream if and only if nothing visible but
   carriage returns follows the mark in its chunk.
   */
  lemma DelayedStartAgreesIff(a: Accumulator, before: string, after: string)
    ensures InStream(a, before, Start, after) == HandedOver(a, before, Start, after) <==> NoReturns(after) == ""
  {
    var b := OnText(a, before).acc;
    AgreeFromMark(a, before, Start, after, b);
    TextEffect(OnStart(b).acc, after);
    if NoReturns(after) == "" {
      ReturnsDoNothing(OnStart(b).acc, after);
      ReturnsDoNothing(b, after);
    }
    hide InStream, HandedOver, OnText, NoReturns, Completed, LineAfter;
  }

  /**
   For a command-text mark it agrees if and only if the text behind it completes no
   line, or the command was the same before.
   */
  lemma DelayedTextAgreesIff(a: Accumulator, before: string, command: string, after: string, b: Accumulator)
    requires b == OnText(a, before).acc
    ensures InStream(a, before, SetText(command), after) == HandedOver(a, before, SetText(command), after) <==>
            Completed(b.lineBuf, after) == [] || b.command == Some(command)
  {
    var mark := SetText(command);
    AgreeFromMark(a, before, mark, after, b);
    TextEffect(OnInput(b, mark).acc, after);
    TextEffect(b, after);
    SameEffect(b, OnInput(b, mark).acc, after);
    hide InStream, HandedOver, OnText, NoReturns, LineAfter;
    var lines := Completed(b.lineBuf, after);
    assert [] + LineCalls(lines, Some(command)) == LineCalls(lines, Some(command));
    assert LineCalls(lines, b.command) + [] == LineCalls(lines, b.command);
    SameCalls(lines, Some(command), b.command);
    hide Completed, LineCalls;
  }

  lemma SameCalls(lines: seq<string>, c: Option<string>, d: Option<string>)
    ensures LineCalls(lines, c) == LineCalls(lines, d) <==> lines == [] || c == d
  {
    if lines != [] { assert LineCalls(lines, c)[0].command == c && LineCalls(lines, d)[0].command == d; }
  }

  /** The command has no part in what text does to line and transcript. */
  lemma {:induction false} SameEffect(a: Accumulator, b: Accumulator, text: string)
    requires b == a.(command := b.command)
    ensures OnText(b, text).acc == OnText(a, text).acc.(command := b.command)
  {
    if text != "" { SameEffect(a, b, text[..|text| - 1]); }
  }

  /**
   For a finish mark of a running command it agrees if and only if nothing visible
   but carriage returns follows; what does follow becomes part of the transcript.
   */
  lemma DelayedFinishAgreesIff(a: Accumulator, before: string, after: string, b: Accumulator)
    requires b == OnText(a, before).acc && b.inCommand
    ensures InStream(a, before, Finish, after) == HandedOver(a, before, Finish, after) <==> NoReturns(after) == ""
  {
    var done := OnFinish(b);
    AgreeFromMark(a, before, Finish, after, b);
    TextEffect(done.acc, after);
    TextEffect(b, after);
    var late := OnText(b, after);
    if NoReturns(after) == "" {
      ReturnsDoNothing(done.acc, after);
      ReturnsDoNothing(b, after);
      hide InStream, HandedOver, OnText, NoReturns, Completed, LineAfter;
    } else {
      hide InStream, HandedOver, OnText, NoReturns, LineAfter;
      var lines := Completed(b.lineBuf, after);
      if done.calls + LineCalls(lines, None) == LineCalls(lines, b.command) + OnFinish(late.acc).calls {
        LateTranscriptDiffers(b, after, late, lines);
      }
    }
  }

  /** With visible text behind the mark either the transcript differs or its call moves behind a line's. */
  lemma LateTranscriptDiffers(b: Accumulator, after: string, late: Outcome, lines: seq<string>)
    requires b.inCommand && late == OnText(b, after) && lines == Completed(b.lineBuf, after) && NoReturns(after) != ""
    ensures OnFinish(b).calls + LineCalls(lines, None) != LineCalls(lines, b.command) + OnFinish(late.acc).calls
  {
    TextEffect(b, after);
    var x := OnFinish(b).calls + LineCalls(lines, None);
    var y := LineCalls(lines, b.command) + OnFinish(late.acc).calls;
    var t, u := Transcript(b), Transcript(late.acc);
    assert |u| >= |b.transcript| + |b.lineBuf| + |NoReturns(after)|;
    hide OnText, Completed, NoReturns, LineAfter;
    if t == "" {
      assert |x| == |lines| && |y| == |lines| + 1;
    } else if lines == [] {
      assert x[0] == Boundary(t, b.command) && y[0] == Boundary(u, b.command);
      OneCharacterTold(b, after, late);
    } else {
      assert x[0] == Boundary(t, b.command) && y[0] == Line(lines[0], b.command);
    }
  }

  /** Equal transcripts mean that exactly the pending line's newline came late, and then a line was completed. */
  lemma OneCharacterTold(b: Accumulator, after: string, late: Outcome)
    requires b.inCommand && late == OnText(b, after) && NoReturns(after) != "" && Completed(b.lineBuf, after) == []
    ensures Transcript(late.acc) != Transcript(b)
  {
    TextEffect(b, after);
    if Transcript(late.acc) == Transcript(b) {
      assert |NoReturns(after)| == 1 && b.lineBuf != "" && late.acc.lineBuf == "";
      LineGrows(b.lineBuf, after);
    }
  }

  /** Without completing a line, text only adds to a line that is not empty. */
  lemma {:induction false} LineGrows(line: string, text: string)
    requires line != "" && Completed(line, text) == []
    ensures LineAfter(line, text) != ""
  {
    if text != "" { LineGrows(line, text[..|text| - 1]); }
  }

  /**
   A finish mark outside a command agrees if and only if the text behind it completes
   no line, or no command text was set.
   */
  lemma DelayedFinishOutsideAgreesIff(a: Accumulator, before: string, after: string, b: Accumulator)
    requires b == OnText(a, before).acc && !b.inCommand && b.transcript == ""
    ensures InStream(a, before, Finish, after) == HandedOver(a, before, Finish, after) <==>
            Completed(b.lineBuf, after) == [] || b.command == None
  {
    AgreeFromMark(a, before, Finish, after, b);
    TextEffect(OnFinish(b).acc, after);
    TextEffect(b, after);
    SameEffect(b, OnFinish(b).acc, after);
    hide InStream, HandedOver, OnText, NoReturns, LineAfter;
    var lines := Completed(b.lineBuf, after);
    assert [] + LineCalls(lines, None) == LineCalls(lines, None);
    assert LineCalls(lines, b.command) + [] == LineCalls(lines, b.command);
    SameCalls(lines, None, b.command);
    hide Completed, LineCalls;
  }

  // ── From raw bytes ───────────────────────────────────────────────────────

  lemma {:induction false} OnTextAppend(a: Accumulator, s: string, t: string)
    ensures
      var first := OnText(a, s);
      var second := OnText(first.acc, t);
      OnText(a, s + t) == Outcome(second.acc, first.calls + second.calls)
  {
    if t == "" {
      assert s + t == s;
    } else {
      hide OnChar;
      assert (s + t)[..|s + t| - 1] == s + t[..|t| - 1];
      OnTextAppend(a, s, t[..|t| - 1]);
    }
  }

  lemma {:induction false} BareTextAppend(s: string, t: string)
    ensures BareText(s + t) == BareText(s) + BareText(t)
  {
    if t == "" {
      assert s + t == s;
    } else {
      assert (s + t)[..|s + t| - 1] == s + t[..|t| - 1];
      BareTextAppend(s, t[..|t| - 1]);
    }
  }

  /** A lost character is none that the accumulator would drop. */
  lemma LostCharCounts(t: string, c: char, u: string)
    requires Utf8.CharLen(c) > 1
    ensures |BareText(t + [c] + u)| == |BareText(t + u)| + 1
  {
    BareTextAppend(t + [c], u);
    BareTextAppend(t, [c]);
    BareTextAppend(t, u);
    assert |BareText([c])| == 1 by { assert [c][..0] == ""; assert BareText([c]) == BareText("") + [c]; }
    hide BareText;
  }

  /**
   Raw bytes that arrive in two chunks have the effect of one chunk, on the
   accumulator and on the engine calls, if and only if no UTF-8 character
   straddles the border; a straddling character is lost.
   */
  lemma RawChunksAgreeIff(s: StripState, x: seq<byte>, y: seq<byte>, a: Accumulator, first: Outcome, second: Outcome)
    requires first == OnText(a, Strip(s, x).text) && second == OnText(first.acc, Strip(Strip(s, x).state, y).text)
    ensures OnText(a, Strip(s, x + y).text) == Outcome(second.acc, first.calls + second.calls) <==> !SplitsChar(s, x, y)
  {
    var t, u, whole := Strip(s, x).text, Strip(Strip(s, x).state, y).text, Strip(s, x + y).text;
    StripInTwo(s, x, y);
    CrossesIffStraddles(s, x, y);
    hide Strip, SplitsChar, CrossesBorder;
    OnTextAppend(a, t, u);
    if SplitsChar(s, x, y) {
      var c :| Utf8.CharLen(c) > 1 && whole == t + [c] + u;
      TextConserved(a, whole);
      TextConserved(a, t + u);
      LostCharCounts(t, c, u);
      hide OnText, BareText;
    }
  }

  /** What the chunks do one after the other. */
  function FeedChunks(s: StripState, chunks: seq<seq<byte>>, a: Accumulator): Outcome {
    if chunks == [] then Outcome(a, [])
    else
      var before := FeedChunks(s, chunks[..|chunks| - 1], a);
      var state := StripChunks(s, chunks[..|chunks| - 1]).state;
      var last := OnText(before.acc, Strip(state, chunks[|chunks| - 1]).text);
      Outcome(last.acc, before.calls + last.calls)
  }

  lemma {:induction false} FeedChunksIsOnText(s: StripState, chunks: seq<seq<byte>>, a: Accumulator)
    ensures FeedChunks(s, chunks, a) == OnText(a, StripChunks(s, chunks).text)
  {
    if chunks == [] {
      assert OnText(a, "") == Outcome(a, []);
    } else {
      var before := chunks[..|chunks| - 1];
      FeedChunksIsOnText(s, before, a);
      var first := StripChunks(s, before);
      OnTextAppend(a, first.text, Strip(first.state, chunks[|chunks| - 1]).text);
      hide OnText, Strip;
    }
  }

  lemma {:induction false} BareTextShrinks(s: StripState, chunks: seq<seq<byte>>)
    ensures |BareText(Strip(s, Joined(chunks)).text)| == |BareText(StripChunks(s, chunks).text)| + Cuts(s, chunks)
  {
    if chunks != [] {
      var before, last := chunks[..|chunks| - 1], chunks[|chunks| - 1];
      var x, whole := Joined(before), Strip(s, Joined(before) + last).text;
      var t := Strip(s, x).text;
      BareTextShrinks(s, before);
      StripInChunks(s, before);
      StripInTwo(s, x, last);
      var u := Strip(StripChunks(s, before).state, last).text;
      hide Strip, CrossesBorder, BareText;
      BareTextAppend(t, u);
      BareTextAppend(StripChunks(s, before).text, u);
      if CrossesBorder(s, x, last) {
        var c :| Utf8.CharLen(c) > 1 && whole == t + [c] + u;
        LostCharCounts(t, c, u);
      }
    }
  }

  /**
   Raw bytes in any number of chunks have the effect of one chunk, on the
   accumulator and on the engine calls, if and only if no chunk completes a UTF-8
   character begun before it.
   */
  lemma AllRawChunksAgreeIff(s: StripState, chunks: seq<seq<byte>>, a: Accumulator)
    ensures FeedChunks(s, chunks, a) == OnText(a, Strip(s, Joined(chunks)).text) <==>
            forall k :: 0 <= k < |chunks| ==> !SplitsChar(s, Joined(chunks[..k]), chunks[k])
  {
    var whole, fed := Strip(s, Joined(chunks)).text, StripChunks(s, chunks).text;
    FeedChunksIsOnText(s, chunks, a);
    AllChunksAgreeIff(s, chunks);
    StripInChunks(s, chunks);
    BareTextShrinks(s, chunks);
    TextConserved(a, whole);
    TextConserved(a, fed);
    hide SplitsChar, Joined, Strip, StripChunks, Cuts, OnText, BareText, Dispatched, FeedChunks;
  }
}
