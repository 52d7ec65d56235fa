/** What a control-mode line means, word by word, and what is wrong with the lines that mean nothing. */
module ControlMeaning {
  import opened Wrappers
  import opened Text
  import opened ControlCommands

  /** A pane or session number as a word: digits behind an optional plus sign, below two to the sixty-fourth. */
  ghost predicate IsNumber(word: string, n: nat) {
    var digits := if word != "" && word[0] == '+' then word[1..] else word;
    digits != "" && AllDigits(digits) && Value(digits) == n && n < 0x1_0000_0000_0000_0000
  }

  ghost predicate NumberAt(words: seq<string>, k: nat, n: nat) {
    k < |words| && IsNumber(words[k], n)
  }

  /** Names come in pairs with "-n" before them; the last one counts. */
  ghost predicate Names(words: seq<string>, name: Option<string>) {
    && |words| % 2 == 1 && (forall k :: 0 < k < |words| && k % 2 == 1 ==> words[k] == "-n")
    && name == if |words| == 1 then None else Some(words[|words| - 1])
  }

  predicate IsFlag(word: string) {
    word == "-h" || word == "-v"
  }

  ghost predicate LastPane(words: seq<string>, from: nat, k: nat) {
    from <= k < |words| && !IsFlag(words[k]) && forall j :: k < j < |words| ==> IsFlag(words[j])
  }

  ghost predicate LastFlag(words: seq<string>, from: nat, k: nat) {
    from <= k < |words| && IsFlag(words[k]) && forall j :: k < j < |words| ==> !IsFlag(words[j])
  }

  ghost predicate FlagOrPane(word: string) {
    IsFlag(word) || exists n: nat :: IsNumber(word, n)
  }

  /** Flags and panes in any order: the last pane counts, and whether the last flag is "-h". */
  ghost predicate Splits(words: seq<string>, pane: nat, horizontal: bool) {
    && (forall k :: 1 <= k < |words| ==> FlagOrPane(words[k]))
    && (exists k: nat :: LastPane(words, 1, k) && IsNumber(words[k], pane))
    && (horizontal <==> exists k: nat :: LastFlag(words, 1, k) && words[k] == "-h")
  }

  /** The words mean the command; further words are ignored where none are listed. */
  ghost predicate Means(words: seq<string>, c: Command) {
    words != [] &&
    match c
    case NewSession(name) => words[0] == "new-session" && Names(words, name)
    case ListSessions => words[0] == "list-sessions"
    case SendKeys(pane, keys) =>
      words[0] == "send-keys" && |words| >= 3 && NumberAt(words, 1, pane) && keys == Join(words[2..], " ")
    case SplitPane(pane, horizontal) => words[0] == "split-pane" && Splits(words, pane, horizontal)
    case SelectPane(pane) => words[0] == "select-pane" && NumberAt(words, 1, pane)
    case CapturePane(pane, printMode) =>
      words[0] == "capture-pane" && NumberAt(words, 1, pane)
      && (printMode <==> exists k :: 2 <= k < |words| && words[k] == "-p")
    case KillPane(pane) => words[0] == "kill-pane" && NumberAt(words, 1, pane)
    case ListPanes(session) => words[0] == "list-panes" && NumberAt(words, 1, session)
    case Ping => words[0] == "ping"
    case Help => words[0] == "help"
    case Exit => words[0] == "exit"
  }

  lemma NumberIff(word: string, n: nat)
    ensures ParseU64(word) == Some(n) <==> IsNumber(word, n)
    ensures ParseU64(word).None? <==> !exists m: nat :: IsNumber(word, m)
  {
    if ParseU64(word).Some? { assert IsNumber(word, ParseU64(word).value); }
  }

  lemma {:induction false} NamesFrom(words: seq<string>, i: nat, name: Option<string>, r: Option<string>)
    requires 1 <= i <= |words| && i % 2 == 1
    ensures NewSessionFrom(words, i, name) == Ok(Command.NewSession(r)) <==>
            && |words| % 2 == 1 && (forall k :: i <= k < |words| && k % 2 == 1 ==> words[k] == "-n")
            && r == if i == |words| then name else Some(words[|words| - 1])
    decreases |words| - i
  {
    if i < |words| && words[i] == "-n" && i + 1 < |words| {
      NamesFrom(words, i + 2, Some(words[i + 1]), r);
    }
  }

  /** The same for the words from `from` on, with a pane and a direction to go by where there is none. */
  ghost predicate SplitsFrom(words: seq<string>, from: nat, pane: Option<nat>, horizontal: bool, rp: nat, rh: bool) {
    && (forall k :: from <= k < |words| ==> FlagOrPane(words[k]))
    && PaneFrom(words, from, pane, rp) && (rh <==> FlagFrom(words, from, horizontal))
  }

  ghost predicate PaneFrom(words: seq<string>, from: nat, pane: Option<nat>, rp: nat) {
    || (exists k: nat :: LastPane(words, from, k) && IsNumber(words[k], rp))
    || ((forall k :: from <= k < |words| ==> IsFlag(words[k])) && pane == Some(rp))
  }

  ghost predicate FlagFrom(words: seq<string>, from: nat, horizontal: bool) {
    || (exists k: nat :: LastFlag(words, from, k) && words[k] == "-h")
    || ((forall k :: from <= k < |words| ==> !IsFlag(words[k])) && horizontal)
  }

  lemma PaneFromStep(words: seq<string>, from: nat, pane: Option<nat>, rp: nat)
    requires from < |words| && FlagOrPane(words[from])
    ensures PaneFrom(words, from, pane, rp) <==>
            PaneFrom(words, from + 1, if IsFlag(words[from]) then pane else ParseU64(words[from]), rp)
  {
    NumberIff(words[from], rp);
    hide IsNumber, ParseU64;
    if k: nat :| LastPane(words, from + 1, k) && IsNumber(words[k], rp) { assert LastPane(words, from, k); }
    if k: nat :| LastPane(words, from, k) && IsNumber(words[k], rp) {
      if k > from { assert LastPane(words, from + 1, k); }
    }
    if !IsFlag(words[from]) && forall k :: from + 1 <= k < |words| ==> IsFlag(words[k]) {
      assert LastPane(words, from, from);
    }
  }

  lemma FlagFromStep(words: seq<string>, from: nat, horizontal: bool)
    requires from < |words|
    ensures FlagFrom(words, from, horizontal) <==>
            FlagFrom(words, from + 1, if IsFlag(words[from]) then words[from] == "-h" else horizontal)
  {
    if k: nat :| LastFlag(words, from + 1, k) && words[k] == "-h" { assert LastFlag(words, from, k); }
    if k: nat :| LastFlag(words, from, k) && words[k] == "-h" {
      if k > from { assert LastFlag(words, from + 1, k); }
    }
    if IsFlag(words[from]) && forall k :: from + 1 <= k < |words| ==> !IsFlag(words[k]) {
      assert LastFlag(words, from, from);
    }
  }

  function PaneAfter(word: string, pane: Option<nat>): Option<nat> {
    if IsFlag(word) then pane else ParseU64(word)
  }

  function FlagAfter(word: string, horizontal: bool): bool {
    if IsFlag(word) then word == "-h" else horizontal
  }

  lemma SplitsFromStep(words: seq<string>, i: nat, pane: Option<nat>, horizontal: bool, rp: nat, rh: bool)
    requires i < |words|
    ensures SplitsFrom(words, i, pane, horizontal, rp, rh) <==>
            FlagOrPane(words[i])
            && SplitsFrom(words, i + 1, PaneAfter(words[i], pane), FlagAfter(words[i], horizontal), rp, rh)
  {
    hide PaneFrom, FlagFrom, IsFlag;
    if FlagOrPane(words[i]) { PaneFromStep(words, i, pane, rp); }
    FlagFromStep(words, i, horizontal);
    hide FlagOrPane;
    assert (forall k :: i <= k < |words| ==> FlagOrPane(words[k])) <==>
        FlagOrPane(words[i]) && forall k :: i + 1 <= k < |words| ==> FlagOrPane(words[k]);
  }

  lemma SplitPaneStep(words: seq<string>, i: nat, horizontal: bool, pane: Option<nat>)
    requires i < |words|
    ensures if FlagOrPane(words[i])
            then SplitPaneFrom(words, i, horizontal, pane)
              == SplitPaneFrom(words, i + 1, FlagAfter(words[i], horizontal), PaneAfter(words[i], pane))
            else SplitPaneFrom(words, i, horizontal, pane).Err?
  {
    NumberIff(words[i], 0);
    hide ParseU64, IsNumber;
  }

  lemma SplitEnds(words: seq<string>, horizontal: bool, pane: Option<nat>, rp: nat, rh: bool)
    ensures SplitPaneFrom(words, |words|, horizontal, pane) == Ok(Command.SplitPane(rp, rh)) <==>
            SplitsFrom(words, |words|, pane, horizontal, rp, rh)
  {
  }

  lemma {:induction false} SplitMeans(words: seq<string>, i: nat, horizontal: bool, pane: Option<nat>, rp: nat,
                                      rh: bool)
    requires i <= |words|
    ensures SplitPaneFrom(words, i, horizontal, pane) == Ok(Command.SplitPane(rp, rh)) <==>
            SplitsFrom(words, i, pane, horizontal, rp, rh)
    decreases |words| - i
  {
    hide *;
    if i == |words| {
      SplitEnds(words, horizontal, pane, rp, rh);
    } else {
      SplitPaneStep(words, i, horizontal, pane);
      SplitsFromStep(words, i, pane, horizontal, rp, rh);
      SplitMeans(words, i + 1, FlagAfter(words[i], horizontal), PaneAfter(words[i], pane), rp, rh);
    }
  }

  lemma SplitMeansAll(words: seq<string>, pane: nat, horizontal: bool)
    requires words != []
    ensures SplitPaneFrom(words, 1, false, None) == Ok(Command.SplitPane(pane, horizontal)) <==>
            Splits(words, pane, horizontal)
  {
    SplitMeans(words, 1, false, None, pane, horizontal);
    hide SplitPaneFrom;
  }

  lemma PaneIff(words: seq<string>, verb: Verb, needed: nat, pane: nat)
    requires needed >= 2
    ensures PaneOf(words, verb, needed) == Ok(pane) <==> |words| >= needed && NumberAt(words, 1, pane)
  {
    if |words| >= needed { NumberIff(words[1], pane); }
    hide ParseU64, IsNumber;
  }

  /** A line is accepted as a command exactly if its words mean it. */
  lemma AcceptedIffMeant(line: string, c: Command)
    ensures Parse(line) == Ok(c) <==> Means(Words(line), c)
  {
    var words := Words(line);
    if words != [] { WordsAcceptedIffMeant(words, c); }
    hide Words, ParseWords;
  }

  lemma WordsAcceptedIffMeant(words: seq<string>, c: Command)
    requires words != []
    ensures ParseWords(words) == Ok(c) <==> Means(words, c)
  {
    AcceptedHasVerb(words, c);
    VerbIff(words[0], VerbIn(c));
    hide VerbOf, ParseWords, Names, Splits, NumberAt, Join;
    if VerbOf(words[0]) == Some(VerbIn(c)) {
      if c.NewSession? || c.SplitPane? {
        FlagCommandMeant(words, c);
      } else if c.SendKeys? || c.CapturePane? {
        TailCommandMeant(words, c);
      } else {
        OtherCommandMeant(words, c);
      }
      hide Means;
    }
  }

  lemma VerbIff(word: string, v: Verb)
    ensures VerbOf(word) == Some(v) <==> word == VerbName(v)
  {
    match v { case _ => }
  }

  lemma AcceptedHasVerb(words: seq<string>, c: Command)
    requires words != []
    ensures ParseWords(words) == Ok(c) ==> VerbOf(words[0]) == Some(VerbIn(c))
  {
    FlagParsersKeepTheirVerb(words);
    hide VerbOf, PaneOf, NewSessionFrom, SplitPaneFrom, Join, ParseU64;
  }

  lemma FlagCommandMeant(words: seq<string>, c: Command)
    requires words != [] && VerbOf(words[0]) == Some(VerbIn(c)) && words[0] == VerbName(VerbIn(c))
    requires c.NewSession? || c.SplitPane?
    ensures ParseWords(words) == Ok(c) <==> Means(words, c)
  {
    hide VerbOf, PaneOf, NewSessionFrom, SplitPaneFrom, Splits, Names, NumberAt, Join, ParseU64;
    if c.NewSession? { NamesAll(words, c.name); } else { SplitMeansAll(words, c.pane, c.horizontal); }
  }

  lemma NamesAll(words: seq<string>, name: Option<string>)
    requires words != []
    ensures NewSessionFrom(words, 1, None) == Ok(Command.NewSession(name)) <==> Names(words, name)
  {
    NamesFrom(words, 1, None, name);
    hide NewSessionFrom;
  }

  lemma TailCommandMeant(words: seq<string>, c: Command)
    requires words != [] && VerbOf(words[0]) == Some(VerbIn(c)) && words[0] == VerbName(VerbIn(c))
    requires c.SendKeys? || c.CapturePane?
    ensures ParseWords(words) == Ok(c) <==> Means(words, c)
  {
    hide VerbOf, PaneOf, NewSessionFrom, SplitPaneFrom, Splits, Names, NumberAt, Join, ParseU64;
    PaneIff(words, VerbIn(c), if c.SendKeys? then 3 else 2, c.pane);
    if |words| >= 2 { PrintModeIff(words); }
    NumberIsThere(words, c.pane);
  }

  lemma OtherCommandMeant(words: seq<string>, c: Command)
    requires words != [] && VerbOf(words[0]) == Some(VerbIn(c)) && words[0] == VerbName(VerbIn(c))
    requires !c.NewSession? && !c.SplitPane? && !c.SendKeys? && !c.CapturePane?
    ensures ParseWords(words) == Ok(c) <==> Means(words, c)
  {
    hide VerbOf, PaneOf, NewSessionFrom, SplitPaneFrom, Splits, Names, NumberAt, Join, ParseU64;
    if c.SelectPane? || c.KillPane? {
      PaneIff(words, VerbIn(c), 2, c.pane);
      NumberIsThere(words, c.pane);
    }
    if c.ListPanes? { SessionIff(words, c.session); }
  }

  lemma NumberIsThere(words: seq<string>, n: nat)
    ensures NumberAt(words, 1, n) ==> |words| >= 2
  {
  }

  lemma SessionIff(words: seq<string>, session: nat)
    ensures |words| >= 2 && ParseU64(words[1]) == Some(session) <==> NumberAt(words, 1, session)
  {
    if |words| >= 2 { NumberIff(words[1], session); }
    hide ParseU64, IsNumber;
  }

  lemma PrintModeIff(words: seq<string>)
    requires |words| >= 2
    ensures "-p" in words[2..] <==> exists k :: 2 <= k < |words| && words[k] == "-p"
  {
    assert forall k :: 2 <= k < |words| ==> words[k] == words[2..][k - 2];
  }

  lemma FlagParsersKeepTheirVerb(words: seq<string>)
    ensures NewSessionFrom(words, 1, None).Ok? ==> NewSessionFrom(words, 1, None).value.NewSession?
    ensures SplitPaneFrom(words, 1, false, None).Ok? ==> SplitPaneFrom(words, 1, false, None).value.SplitPane?
  {
    NewSessionKeeps(words, 1, None);
    SplitPaneFits(words, 1, false, None);
  }

  lemma {:induction false} NewSessionKeeps(words: seq<string>, i: nat, name: Option<string>)
    ensures NewSessionFrom(words, i, name).Ok? ==> NewSessionFrom(words, i, name).value.NewSession?
    decreases |words| - i
  {
    if i + 1 < |words| && words[i] == "-n" { NewSessionKeeps(words, i + 2, Some(words[i + 1])); }
  }

  // ── Refused lines ────────────────────────────────────────────────────────

  const VERBS: set<string> := {"new-session", "list-sessions", "send-keys", "split-pane", "select-pane",
    "capture-pane", "kill-pane", "list-panes", "ping", "help", "exit"}

  /** The first word where a name option should be is something else, or lacks its name. */
  ghost predicate BadOption(words: seq<string>, from: nat, k: nat) {
    && from <= k < |words| && k % 2 == 1 && (forall j :: from <= j < k && j % 2 == 1 ==> words[j] == "-n")
    && (words[k] != "-n" || k + 1 == |words|)
  }

  ghost predicate BadPane(words: seq<string>, from: nat, k: nat) {
    from <= k < |words| && !FlagOrPane(words[k]) && forall j :: from <= j < k ==> FlagOrPane(words[j])
  }

  predicate NamesPane(word: string) {
    word == "select-pane" || word == "capture-pane" || word == "kill-pane"
  }

  predicate TooFew(words: seq<string>)
    requires words != []
  {
    || (words[0] == "send-keys" && |words| < 3)
    || ((NamesPane(words[0]) || words[0] == "list-panes") && |words| < 2)
    || (words[0] == "split-pane" && forall k :: 1 <= k < |words| ==> IsFlag(words[k]))
  }

  /** What is wrong with the words. */
  ghost predicate Refuses(words: seq<string>, e: ParseError) {
    match e
    case EmptyCommand => words == []
    case UnknownCommand(word) => words != [] && words[0] !in VERBS && word == words[0]
    case Usage(verb) => words != [] && TooFew(words) && words[0] == VerbName(verb)
    case UnknownFlag(word) =>
      words != [] && words[0] == "new-session" && exists k: nat :: BadOption(words, 1, k) && word == words[k]
    case InvalidSession(word) =>
      words != [] && words[0] == "list-panes" && |words| >= 2 && word == words[1] && !exists n: nat :: IsNumber(word, n)
    case InvalidPane(word) =>
      words != [] &&
      if words[0] == "split-pane" then exists k: nat :: BadPane(words, 1, k) && word == words[k]
      else (words[0] == "send-keys" || NamesPane(words[0])) && !TooFew(words) && word == words[1]
           && !exists n: nat :: IsNumber(word, n)
  }

  lemma {:induction false} OptionsRefused(words: seq<string>, i: nat, name: Option<string>, e: ParseError)
    requires i % 2 == 1
    ensures NewSessionFrom(words, i, name) == Err(e) <==>
            e.UnknownFlag? && exists k: nat :: BadOption(words, i, k) && e.word == words[k]
    decreases |words| - i
  {
    if i < |words| {
      if words[i] == "-n" && i + 1 < |words| {
        OptionsRefused(words, i + 2, Some(words[i + 1]), e);
        forall k: nat ensures BadOption(words, i, k) <==> BadOption(words, i + 2, k) {}
      } else {
        assert BadOption(words, i, i);
      }
    }
  }

  lemma SplitRefusedStep(words: seq<string>, i: nat)
    requires i < |words|
    ensures FlagOrPane(words[i]) ==> forall k: nat :: BadPane(words, i, k) <==> BadPane(words, i + 1, k)
    ensures !FlagOrPane(words[i]) ==> forall k: nat :: BadPane(words, i, k) <==> k == i
  {
    hide FlagOrPane;
  }

  lemma FlagsAreFine(word: string)
    ensures IsFlag(word) ==> FlagOrPane(word)
    ensures !IsFlag(word) && FlagOrPane(word) ==> ParseU64(word).Some?
    ensures !FlagOrPane(word) ==> ParseU64(word).None?
  {
    NumberIff(word, 0);
    hide ParseU64, IsNumber;
  }

  lemma {:induction false} SplitRefused(words: seq<string>, i: nat, horizontal: bool, pane: Option<nat>, e: ParseError)
    requires i <= |words|
    ensures SplitPaneFrom(words, i, horizontal, pane) == Err(e) <==>
            if e.InvalidPane? then exists k: nat :: BadPane(words, i, k) && e.word == words[k]
            else e == Usage(Verb.SplitPane) && pane == None && forall k :: i <= k < |words| ==> IsFlag(words[k])
    decreases |words| - i
  {
    if i < |words| {
      FlagsAreFine(words[i]);
      SplitRefusedStep(words, i);
      hide FlagOrPane, ParseU64, BadPane;
      if FlagOrPane(words[i]) {
        SplitRefused(words, i + 1, FlagAfter(words[i], horizontal), PaneAfter(words[i], pane), e);
      } else {
        assert BadPane(words, i, i);
      }
    }
  }

  lemma PaneRefused(words: seq<string>, verb: Verb, needed: nat, e: ParseError)
    requires needed >= 2
    ensures PaneOf(words, verb, needed) == Err(e) <==>
            || (|words| < needed && e == Usage(verb))
            || (|words| >= needed && e == InvalidPane(words[1]) && !exists n: nat :: IsNumber(words[1], n))
  {
    if |words| >= needed { NumberIff(words[1], 0); }
    hide ParseU64, IsNumber;
  }

  lemma VerbsAreKnown(word: string)
    ensures VerbOf(word).None? <==> word !in VERBS
    ensures VerbOf(word).Some? ==> word == VerbName(VerbOf(word).value)
  {
  }

  lemma WordsRefusedIff(words: seq<string>, e: ParseError)
    requires words != []
    ensures ParseWords(words) == Err(e) <==> Refuses(words, e)
  {
    VerbsAreKnown(words[0]);
    hide VerbOf, ParseWords, Refuses, VerbName;
    if VerbOf(words[0]).None? {
      UnknownRefused(words, e);
    } else {
      var v := VerbOf(words[0]).value;
      if v.NewSession? || v.SplitPane? {
        FlagVerbRefused(words, v, e);
      } else if v.SendKeys? || v.SelectPane? || v.CapturePane? || v.KillPane? || v.ListPanes? {
        NumberVerbRefused(words, v, e);
      } else {
        PlainVerbRefusesNothing(words, v, e);
      }
    }
  }

  lemma UnknownRefused(words: seq<string>, e: ParseError)
    requires words != [] && VerbOf(words[0]).None? && words[0] !in VERBS
    ensures ParseWords(words) == Err(e) <==> Refuses(words, e)
  {
    hide VerbOf, BadOption, BadPane, IsNumber;
    assert e.Usage? ==> VerbName(e.verb) in VERBS;
  }

  lemma PlainVerbRefusesNothing(words: seq<string>, v: Verb, e: ParseError)
    requires words != [] && VerbOf(words[0]) == Some(v) && words[0] in VERBS && words[0] == VerbName(v)
    requires v.ListSessions? || v.Ping? || v.Help? || v.Exit?
    ensures ParseWords(words).Ok? && !Refuses(words, e)
  {
    hide VerbOf, BadOption, BadPane, IsNumber, VERBS;
  }

  lemma FlagVerbRefused(words: seq<string>, v: Verb, e: ParseError)
    requires words != [] && VerbOf(words[0]) == Some(v) && words[0] in VERBS && words[0] == VerbName(v)
    requires v.NewSession? || v.SplitPane?
    ensures ParseWords(words) == Err(e) <==> Refuses(words, e)
  {
    hide VerbOf, BadOption, BadPane, IsNumber, VERBS, NewSessionFrom, SplitPaneFrom;
    if v.NewSession? { OptionsRefused(words, 1, None, e); } else { SplitRefused(words, 1, false, None, e); }
    assert e.Usage? && words[0] == VerbName(e.verb) ==> e.verb == v;
  }

  lemma NumberVerbRefused(words: seq<string>, v: Verb, e: ParseError)
    requires words != [] && VerbOf(words[0]) == Some(v) && words[0] in VERBS && words[0] == VerbName(v)
    requires v.SendKeys? || v.SelectPane? || v.CapturePane? || v.KillPane? || v.ListPanes?
    ensures ParseWords(words) == Err(e) <==> Refuses(words, e)
  {
    hide VerbOf, BadOption, BadPane, IsNumber, VERBS, PaneOf, ParseU64, Join;
    if v.ListPanes? {
      if |words| >= 2 { NumberIff(words[1], 0); }
    } else {
      PaneRefused(words, v, if v.SendKeys? then 3 else 2, e);
    }
    assert e.Usage? && words[0] == VerbName(e.verb) ==> e.verb == v;
  }

  /** Every line that is not accepted is refused for exactly one reason, the first that its words give. */
  lemma RefusedIff(line: string, e: ParseError)
    ensures Parse(line) == Err(e) <==> Refuses(Words(line), e)
  {
    var words := Words(line);
    if words != [] { WordsRefusedIff(words, e); }
    hide Words, ParseWords;
  }

  /** What the client reads when a line is refused. */
  ghost predicate Tells(e: ParseError, text: string) {
    match e
    case EmptyCommand => text == "empty command"
    case UnknownFlag(word) => text == "unknown flag: " + word
    case InvalidPane(word) => text == "invalid pane ID: " + word
    case InvalidSession(word) => text == "invalid session ID: " + word
    case UnknownCommand(word) => text == "unknown command: " + word + ". Type 'help' for available commands"
    case Usage(SendKeys) => text == "usage: " + "send-keys PANE_ID KEYS..."
    case Usage(SplitPane) => text == "usage: " + "split-pane [-h|-v] PANE_ID"
    case Usage(SelectPane) => text == "usage: " + "select-pane PANE_ID"
    case Usage(CapturePane) => text == "usage: " + "capture-pane PANE_ID [-p]"
    case Usage(KillPane) => text == "usage: " + "kill-pane PANE_ID"
    case Usage(ListPanes) => text == "usage: " + "list-panes SESSION_ID"
    case Usage(_) => true
  }

  lemma MessageTells(e: ParseError)
    ensures Tells(e, Message(e))
  {
  }
}
