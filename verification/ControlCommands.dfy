/** The command language of control mode: one command per line of words. */
module ControlCommands {
  import opened Wrappers
  import opened Text

  datatype Command =
    | NewSession(name: Option<string>)
    | ListSessions
    | SendKeys(pane: nat, keys: string)
    | SplitPane(pane: nat, horizontal: bool)
    | SelectPane(pane: nat)
    | CapturePane(pane: nat, printMode: bool)
    | KillPane(pane: nat)
    | ListPanes(session: nat)
    | Ping
    | Help
    | Exit

  datatype ParseError =
    | EmptyCommand
    | UnknownFlag(word: string)
    | Usage(verb: Verb)
    | InvalidPane(word: string)
    | InvalidSession(word: string)
    | UnknownCommand(word: string)

  datatype Verb =
    | NewSession | ListSessions | SendKeys | SplitPane | SelectPane | CapturePane | KillPane | ListPanes
    | Ping | Help | Exit

  function VerbName(v: Verb): string {
    match v
    case NewSession => "new-session"
    case ListSessions => "list-sessions"
    case SendKeys => "send-keys"
    case SplitPane => "split-pane"
    case SelectPane => "select-pane"
    case CapturePane => "capture-pane"
    case KillPane => "kill-pane"
    case ListPanes => "list-panes"
    case Ping => "ping"
    case Help => "help"
    case Exit => "exit"
  }

  function VerbOf(word: string): Option<Verb> {
    if word == "new-session" then Some(Verb.NewSession)
    else if word == "list-sessions" then Some(Verb.ListSessions)
    else if word == "send-keys" then Some(Verb.SendKeys)
    else if word == "split-pane" then Some(Verb.SplitPane)
    else if word == "select-pane" then Some(Verb.SelectPane)
    else if word == "capture-pane" then Some(Verb.CapturePane)
    else if word == "kill-pane" then Some(Verb.KillPane)
    else if word == "list-panes" then Some(Verb.ListPanes)
    else if word == "ping" then Some(Verb.Ping)
    else if word == "help" then Some(Verb.Help)
    else if word == "exit" then Some(Verb.Exit)
    else None
  }

  /** The arguments that the usage message of a verb shows. */
  function UsageOf(v: Verb): string {
    match v
    case SendKeys => "send-keys PANE_ID KEYS..."
    case SplitPane => "split-pane [-h|-v] PANE_ID"
    case SelectPane => "select-pane PANE_ID"
    case CapturePane => "capture-pane PANE_ID [-p]"
    case KillPane => "kill-pane PANE_ID"
    case ListPanes => "list-panes SESSION_ID"
    case _ => VerbName(v)
  }

  function Message(e: ParseError): string {
    match e
    case EmptyCommand => "empty command"
    case UnknownFlag(word) => "unknown flag: " + word
    case Usage(verb) => "usage: " + UsageOf(verb)
    case InvalidPane(word) => "invalid pane ID: " + word
    case InvalidSession(word) => "invalid session ID: " + word
    case UnknownCommand(word) => "unknown command: " + word + ". Type 'help' for available commands"
  }

  // ── Parsing ──────────────────────────────────────────────────────────────

  type Parsed = Result<Command, ParseError>

  function NewSessionFrom(parts: seq<string>, i: nat, name: Option<string>): Parsed
    decreases |parts| - i
  {
    if i >= |parts| then Ok(Command.NewSession(name))
    else if parts[i] == "-n" && i + 1 < |parts| then NewSessionFrom(parts, i + 2, Some(parts[i + 1]))
    else Err(UnknownFlag(parts[i]))
  }

  /** The last flag and the last pane given win. */
  function SplitPaneFrom(parts: seq<string>, i: nat, horizontal: bool, pane: Option<nat>): Parsed
    decreases |parts| - i
  {
    if i >= |parts| then
      if pane.Some? then Ok(Command.SplitPane(pane.value, horizontal)) else Err(Usage(Verb.SplitPane))
    else if parts[i] == "-h" then SplitPaneFrom(parts, i + 1, true, pane)
    else if parts[i] == "-v" then SplitPaneFrom(parts, i + 1, false, pane)
    else if ParseU64(parts[i]).None? then Err(InvalidPane(parts[i]))
    else SplitPaneFrom(parts, i + 1, horizontal, ParseU64(parts[i]))
  }

  /** The pane that a verb with enough words names, or why there is none. */
  function PaneOf(parts: seq<string>, verb: Verb, needed: nat): Result<nat, ParseError>
    requires needed >= 2
  {
    if |parts| < needed then Err(Usage(verb))
    else if ParseU64(parts[1]).None? then Err(InvalidPane(parts[1]))
    else Ok(ParseU64(parts[1]).value)
  }

  function ParseWords(parts: seq<string>): Parsed
    requires parts != []
  {
    match VerbOf(parts[0])
    case None => Err(UnknownCommand(parts[0]))
    case Some(verb) =>
      match verb
      case NewSession => NewSessionFrom(parts, 1, None)
      case ListSessions => Ok(Command.ListSessions)
      case SendKeys =>
        (match PaneOf(parts, verb, 3)
         case Err(e) => Err(e)
         case Ok(pane) => Ok(Command.SendKeys(pane, Join(parts[2..], " "))))
      case SplitPane => SplitPaneFrom(parts, 1, false, None)
      case SelectPane =>
        (match PaneOf(parts, verb, 2) case Err(e) => Err(e) case Ok(pane) => Ok(Command.SelectPane(pane)))
      case CapturePane =>
        (match PaneOf(parts, verb, 2)
         case Err(e) => Err(e)
         case Ok(pane) => Ok(Command.CapturePane(pane, "-p" in parts[2..])))
      case KillPane =>
        (match PaneOf(parts, verb, 2) case Err(e) => Err(e) case Ok(pane) => Ok(Command.KillPane(pane)))
      case ListPanes =>
        if |parts| < 2 then Err(Usage(verb))
        else if ParseU64(parts[1]).None? then Err(InvalidSession(parts[1]))
        else Ok(Command.ListPanes(ParseU64(parts[1]).value))
      case Ping => Ok(Command.Ping)
      case Help => Ok(Command.Help)
      case Exit => Ok(Command.Exit)
  }

  function Parse(line: string): Parsed {
    if Words(line) == [] then Err(EmptyCommand) else ParseWords(Words(line))
  }

  /** A line is rejected as empty when trimming leaves nothing; otherwise its words decide. */
  method ParseCommand(line: string) returns (r: Parsed)
    ensures r == Parse(line)
  {
    hide Words, Trim, Join, ParseU64, VerbOf;
    WordsTrim(line);
    var trimmed := Trim(line);
    if trimmed == "" { return Err(EmptyCommand); }
    var parts := Words(trimmed);
    var cmd := VerbOf(parts[0]);
    if cmd == Some(Verb.NewSession) {
      r := ParseNewSession(parts);
    } else if cmd == Some(Verb.SplitPane) {
      r := ParseSplitPane(parts);
    } else {
      r := ParseWords(parts);
    }
  }

  method ParseNewSession(parts: seq<string>) returns (r: Parsed)
    ensures r == NewSessionFrom(parts, 1, None)
  {
    var name := None;
    var i := 1;
    while i < |parts|
      invariant 1 <= i && NewSessionFrom(parts, i, name) == NewSessionFrom(parts, 1, None)
    {
      if parts[i] == "-n" && i + 1 < |parts| {
        name := Some(parts[i + 1]);
        i := i + 2;
      } else {
        return Err(UnknownFlag(parts[i]));
      }
    }
    r := Ok(Command.NewSession(name));
  }

  method ParseSplitPane(parts: seq<string>) returns (r: Parsed)
    ensures r == SplitPaneFrom(parts, 1, false, None)
  {
    hide ParseU64;
    var horizontal, pane := false, None;
    var i := 1;
    while i < |parts|
      invariant 1 <= i && SplitPaneFrom(parts, i, horizontal, pane) == SplitPaneFrom(parts, 1, false, None)
    {
      if parts[i] == "-h" {
        horizontal := true;
      } else if parts[i] == "-v" {
        horizontal := false;
      } else {
        var parsed := ParseU64(parts[i]);
        if parsed.None? { return Err(InvalidPane(parts[i])); }
        pane := parsed;
      }
      i := i + 1;
    }
    if pane.None? { return Err(Usage(Verb.SplitPane)); }
    r := Ok(Command.SplitPane(pane.value, horizontal));
  }

  // ── Rendering ────────────────────────────────────────────────────────────

  function VerbIn(c: Command): Verb {
    match c
    case NewSession(_) => Verb.NewSession
    case ListSessions => Verb.ListSessions
    case SendKeys(_, _) => Verb.SendKeys
    case SplitPane(_, _) => Verb.SplitPane
    case SelectPane(_) => Verb.SelectPane
    case CapturePane(_, _) => Verb.CapturePane
    case KillPane(_) => Verb.KillPane
    case ListPanes(_) => Verb.ListPanes
    case Ping => Verb.Ping
    case Help => Verb.Help
    case Exit => Verb.Exit
  }

  function Arguments(c: Command): seq<string> {
    match c
    case NewSession(Some(name)) => ["-n", name]
    case SendKeys(pane, keys) => [Print(pane)] + Words(keys)
    case SplitPane(pane, horizontal) => [if horizontal then "-h" else "-v", Print(pane)]
    case SelectPane(pane) => [Print(pane)]
    case CapturePane(pane, printMode) => [Print(pane)] + if printMode then ["-p"] else []
    case KillPane(pane) => [Print(pane)]
    case ListPanes(session) => [Print(session)]
    case _ => []
  }

  /** The command in the documented syntax, word by word. */
  function RenderWords(c: Command): seq<string> {
    [VerbName(VerbIn(c))] + Arguments(c)
  }

  function Render(c: Command): string {
    Join(RenderWords(c), " ")
  }

  /** The commands a line can mean: numbers fit 64 bits, a name is one word, keys are words one blank apart. */
  predicate WellFormed(c: Command) {
    match c
    case NewSession(name) => name.Some? ==> IsWord(name.value)
    case SendKeys(pane, keys) => pane < U64_LIMIT && Words(keys) != [] && keys == Join(Words(keys), " ")
    case SplitPane(pane, _) => pane < U64_LIMIT
    case SelectPane(pane) => pane < U64_LIMIT
    case CapturePane(pane, _) => pane < U64_LIMIT
    case KillPane(pane) => pane < U64_LIMIT
    case ListPanes(session) => session < U64_LIMIT
    case _ => true
  }

  lemma {:induction false} NewSessionNames(parts: seq<string>, i: nat, name: Option<string>)
    requires forall k :: 0 <= k < |parts| ==> IsWord(parts[k])
    requires name.Some? ==> IsWord(name.value)
    ensures var r := NewSessionFrom(parts, i, name); r.Ok? ==> r.value.NewSession? && WellFormed(r.value)
    decreases |parts| - i
  {
    if i < |parts| && parts[i] == "-n" && i + 1 < |parts| {
      hide IsWord;
      NewSessionNames(parts, i + 2, Some(parts[i + 1]));
    }
  }

  lemma {:induction false} SplitPaneFits(parts: seq<string>, i: nat, horizontal: bool, pane: Option<nat>)
    requires pane.Some? ==> pane.value < U64_LIMIT
    ensures var r := SplitPaneFrom(parts, i, horizontal, pane); r.Ok? ==> r.value.SplitPane? && WellFormed(r.value)
    decreases |parts| - i
  {
    hide ParseU64;
    if i < |parts| {
      var next := if parts[i] == "-h" || parts[i] == "-v" then pane else ParseU64(parts[i]);
      var h := if parts[i] == "-h" then true else if parts[i] == "-v" then false else horizontal;
      SplitPaneFits(parts, i + 1, h, next);
    }
  }

  lemma AcceptedIsWellFormed(line: string)
    requires Parse(line).Ok?
    ensures WellFormed(Parse(line).value)
  {
    var parts := Words(line);
    hide Words, ParseU64, VerbOf, IsWord, Join;
    NewSessionNames(parts, 1, None);
    SplitPaneFits(parts, 1, false, None);
    if |parts| > 2 { WordsJoin(parts[2..]); }
    hide NewSessionFrom, SplitPaneFrom;
  }

  lemma VerbIsWord(v: Verb)
    ensures IsWord(VerbName(v))
  {
  }

  lemma NumberIsWord(n: nat)
    ensures IsWord(Print(n))
    ensures n < U64_LIMIT ==> ParseU64(Print(n)) == Some(n)
    ensures Print(n)[0] != '-'
  {
    if n < U64_LIMIT { ParsePrint(n); }
    assert IsDigit(Print(n)[0]);
  }

  lemma RenderedWordsParse(c: Command)
    requires WellFormed(c)
    ensures ParseWords(RenderWords(c)) == Ok(c)
  {
    var parts := RenderWords(c);
    assert parts[0] == VerbName(VerbIn(c)) && parts[1..] == Arguments(c);
    hide WellFormed, Arguments, ParseWords, VerbOf, VerbName, RenderWords;
    if c.NewSession? || c.SplitPane? {
      FlagCommandsParse(c, parts);
    } else if c.SendKeys? || c.CapturePane? {
      TailCommandsParse(c, parts);
    } else {
      NumberCommandsParse(c, parts);
    }
  }

  lemma FlagCommandsParse(c: Command, parts: seq<string>)
    requires WellFormed(c) && parts != [] && VerbOf(parts[0]) == Some(VerbIn(c)) && parts[1..] == Arguments(c)
    requires c.NewSession? || c.SplitPane?
    ensures ParseWords(parts) == Ok(c)
  {
    hide VerbOf, IsWord, Words, Join, ParseU64, Print, NewSessionFrom, SplitPaneFrom;
    assert |Arguments(c)| > 1 ==> parts[1] == Arguments(c)[0] && parts[2] == Arguments(c)[1];
    if c.NewSession? {
      NewSessionParses(parts, c.name);
    } else {
      NumberIsWord(c.pane);
      SplitPaneParses(parts, c.pane, c.horizontal);
    }
  }

  lemma TailCommandsParse(c: Command, parts: seq<string>)
    requires WellFormed(c) && parts != [] && VerbOf(parts[0]) == Some(VerbIn(c)) && parts[1..] == Arguments(c)
    requires c.SendKeys? || c.CapturePane?
    ensures ParseWords(parts) == Ok(c)
  {
    hide VerbOf, IsWord, Words, Join, ParseU64, Print;
    NumberIsWord(c.pane);
    assert parts[1] == Arguments(c)[0] && parts[2..] == Arguments(c)[1..];
    if c.SendKeys? {
      assert Arguments(c)[1..] == Words(c.keys);
    } else {
      assert Arguments(c)[1..] == if c.printMode then ["-p"] else [];
    }
  }

  lemma NumberCommandsParse(c: Command, parts: seq<string>)
    requires WellFormed(c) && parts != [] && VerbOf(parts[0]) == Some(VerbIn(c)) && parts[1..] == Arguments(c)
    requires !c.NewSession? && !c.SplitPane? && !c.SendKeys? && !c.CapturePane?
    ensures ParseWords(parts) == Ok(c)
  {
    hide VerbOf, IsWord, Words, Join, ParseU64, Print;
    if c.SelectPane? || c.KillPane? { NumberIsWord(c.pane); }
    if c.ListPanes? { NumberIsWord(c.session); }
    assert |Arguments(c)| > 0 ==> parts[1] == Arguments(c)[0];
  }

  lemma NewSessionParses(parts: seq<string>, name: Option<string>)
    requires |parts| == if name.Some? then 3 else 1
    requires name.Some? ==> parts[1] == "-n" && parts[2] == name.value
    ensures NewSessionFrom(parts, 1, None) == Ok(Command.NewSession(name))
  {
    if name.Some? {
      assert NewSessionFrom(parts, 3, name) == Ok(Command.NewSession(name));
    }
  }

  lemma SplitPaneParses(parts: seq<string>, pane: nat, horizontal: bool)
    requires |parts| == 3 && parts[1] == (if horizontal then "-h" else "-v") && ParseU64(parts[2]) == Some(pane)
    requires parts[2] != "" && parts[2][0] != '-'
    ensures SplitPaneFrom(parts, 1, false, None) == Ok(Command.SplitPane(pane, horizontal))
  {
    hide ParseU64;
    assert SplitPaneFrom(parts, 3, horizontal, Some(pane)) == Ok(Command.SplitPane(pane, horizontal));
    assert SplitPaneFrom(parts, 2, horizontal, None) == Ok(Command.SplitPane(pane, horizontal));
  }

  lemma RenderParses(c: Command)
    requires WellFormed(c)
    ensures Parse(Render(c)) == Ok(c)
  {
    VerbIsWord(VerbIn(c));
    forall k | 0 <= k < |Arguments(c)| ensures IsWord(Arguments(c)[k]) {}
    RenderedWordsParse(c);
    hide IsWord, Words, Join, Arguments, VerbName, ParseWords;
    WordsJoin(RenderWords(c));
  }

  /**
   Every accepted line means a command that, rendered in the documented syntax and
   parsed again, is the same command.
   */
  lemma ParseRenderRoundTrip(line: string, c: Command)
    requires Parse(line) == Ok(c)
    ensures Parse(Render(c)) == Ok(c)
  {
    AcceptedIsWellFormed(line);
    RenderParses(c);
  }

  /** The well-formed commands are exactly those that some line means. */
  lemma WellFormedIffExpressible(c: Command)
    ensures WellFormed(c) <==> exists line :: Parse(line) == Ok(c)
  {
    if WellFormed(c) { RenderParses(c); }
    hide WellFormed, Parse;
    if line :| Parse(line) == Ok(c) { AcceptedIsWellFormed(line); }
  }
}
