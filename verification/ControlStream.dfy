/**
 The output stream of control mode: one reply block per input line, numbered in
 order, with notifications between blocks; and what a client that reads the
 stream line by line makes of it.
 */
module ControlStream {
  import opened Wrappers
  import opened Text
  import opened ControlCommands
  import opened ControlMeaning

  datatype Keyword =
    | SessionChanged | SessionClosed | StateChanged | PaneOutput | WorkspaceChanged | PaneExited | PaneResized
    | TrustEscalation | AgentChanged | PaneIdentityChanged | SubagentStarted | SubagentStopped
    | TimelineToggle | WebviewSpawnRequested

  function KeywordName(k: Keyword): string {
    match k
    case SessionChanged => "session-changed"
    case SessionClosed => "session-closed"
    case StateChanged => "state-changed"
    case PaneOutput => "pane-output"
    case WorkspaceChanged => "workspace-changed"
    case PaneExited => "pane-exited"
    case PaneResized => "pane-resized"
    case TrustEscalation => "trust-escalation"
    case AgentChanged => "agent-changed"
    case PaneIdentityChanged => "pane-identity-changed"
    case SubagentStarted => "subagent-started"
    case SubagentStopped => "subagent-stopped"
    case TimelineToggle => "timeline-toggle"
    case WebviewSpawnRequested => "webview-spawn-requested"
  }

  /** The word after the percent sign for each kind of event. */
  ghost predicate HasWord(k: Keyword, word: string) {
    && (k == SessionChanged ==> word == "session-changed") && (k == SessionClosed ==> word == "session-closed")
    && (k == StateChanged ==> word == "state-changed") && (k == PaneOutput ==> word == "pane-output")
    && (k == WorkspaceChanged ==> word == "workspace-changed") && (k == PaneExited ==> word == "pane-exited")
    && (k == PaneResized ==> word == "pane-resized") && (k == TrustEscalation ==> word == "trust-escalation")
    && (k == AgentChanged ==> word == "agent-changed") && (k == SubagentStarted ==> word == "subagent-started")
    && (k == PaneIdentityChanged ==> word == "pane-identity-changed")
    && (k == SubagentStopped ==> word == "subagent-stopped") && (k == TimelineToggle ==> word == "timeline-toggle")
    && (k == WebviewSpawnRequested ==> word == "webview-spawn-requested")
  }

  lemma KeywordsAreTheirWords(k: Keyword)
    ensures HasWord(k, KeywordName(k))
  {
  }

  /** An event with its arguments as they are printed; names in them are not escaped. */
  datatype Notice = Notice(keyword: Keyword, args: seq<string>)

  function NoticeText(n: Notice): string {
    "%" + KeywordName(n.keyword) + " " + Join(n.args, " ")
  }

  /** What the server writes: whole blocks and whole notifications. */
  datatype Item = Reply(id: nat, body: string) | Notify(notice: Notice)

  function Begin(id: nat): string { "%begin " + Print(id) }

  function End(id: nat): string { "%end " + Print(id) }

  function Format(item: Item): string {
    match item
    case Reply(id, body) => Begin(id) + "\n" + body + "\n" + End(id) + "\n"
    case Notify(notice) => NoticeText(notice) + "\n"
  }

  function Stream(items: seq<Item>): string {
    if items == [] then "" else Format(items[0]) + Stream(items[1..])
  }

  // ── The server's loop ────────────────────────────────────────────────────

  /** What the loop is woken by; a line comes with what dispatching its command would give. */
  datatype Arrival =
    | Line(text: string, dispatched: Result<string, string>)
    | Event(notice: Notice)
    | Lagged
    | EventsClosed
    | EndOfInput
    | ReadError

  /** Writing in response to an arrival may fail after some of the text went out. */
  datatype Turn = Turn(arrival: Arrival, cutAt: Option<nat>)

  function ErrorBody(message: string): string { "%error " + message }

  function AnswerTo(text: string, dispatched: Result<string, string>): string {
    match Parse(text)
    case Err(e) => ErrorBody(Message(e))
    case Ok(command) =>
      if command.Exit? then "goodbye"
      else match dispatched case Ok(body) => body case Err(message) => ErrorBody(message)
  }

  /** What goes out of a text when writing breaks off: its first `at` characters, if it has more. */
  function Cut(s: string, at: nat): (sent: string)
    ensures sent <= s && |sent| <= at && (sent == s || |sent| == at)
  {
    if at < |s| then s[..at] else s
  }

  /** The items written whole, and what went out of one that was cut off. */
  datatype Served = Served(items: seq<Item>, tail: string)

  /** The item an arrival calls for. */
  function ItemFor(a: Arrival, id: nat): Option<Item> {
    match a
    case Line(text, dispatched) => Some(Reply(id, AnswerTo(text, dispatched)))
    case Event(notice) => Some(Notify(notice))
    case _ => None
  }

  /** Does the loop end after this arrival even if writing succeeds? */
  predicate Ends(a: Arrival) {
    match a
    case Line(text, _) => Parse(text) == Ok(Command.Exit)
    case Event(_) | Lagged => false
    case EventsClosed | EndOfInput | ReadError => true
  }

  function Serve(turns: seq<Turn>, id: nat): Served
    decreases |turns|
  {
    if turns == [] then Served([], "")
    else
      var Turn(a, cutAt) := turns[0];
      var item := ItemFor(a, id);
      if item.Some? && cutAt.Some? then Served([], Cut(Format(item.value), cutAt.value))
      else
        var now := if item.Some? then [item.value] else [];
        if Ends(a) then Served(now, "")
        else
          var rest := Serve(turns[1..], if a.Line? then id + 1 else id);
          Served(now + rest.items, rest.tail)
  }

  lemma {:induction false} StreamAppend(a: seq<Item>, b: seq<Item>)
    ensures Stream(a + b) == Stream(a) + Stream(b)
  {
    if a == [] {
      assert a + b == b;
    } else {
      assert (a + b)[1..] == a[1..] + b;
      StreamAppend(a[1..], b);
    }
  }

  function WrittenBy(s: Served): string {
    Stream(s.items) + s.tail
  }

  lemma WrittenCons(item: Item, rest: Served)
    ensures WrittenBy(Served([item] + rest.items, rest.tail)) == Format(item) + WrittenBy(rest)
    ensures WrittenBy(Served([item], "")) == Format(item)
    ensures forall tail :: WrittenBy(Served([], tail)) == tail
  {
    hide Format;
    assert ([item] + rest.items)[1..] == rest.items && [item][1..] == [];
    assert Stream([]) == "" && Stream([item]) == Format(item) + "" + "";
  }

  lemma WrittenUnfolds(turns: seq<Turn>, id: nat)
    requires turns != []
    ensures
      var Turn(a, cutAt) := turns[0];
      var item := ItemFor(a, id);
      WrittenBy(Serve(turns, id)) ==
        if item.Some? && cutAt.Some? then Cut(Format(item.value), cutAt.value)
        else (if item.Some? then Format(item.value) else "") +
             if Ends(a) then "" else WrittenBy(Serve(turns[1..], if a.Line? then id + 1 else id))
  {
    hide Format, Cut, Ends, ItemFor, WrittenBy;
    var Turn(a, cutAt) := turns[0];
    var rest := Serve(turns[1..], if a.Line? then id + 1 else id);
    WrittenCons(ItemFor(a, id).GetOr(Reply(0, "")), rest);
    assert [] + rest.items == rest.items && Served(rest.items, rest.tail) == rest;
  }

  /** The greeting, which may be cut off too, and the connection loop behind it. */
  method HandleControlConnection(greeting: string, greetingCutAt: Option<nat>,
                                 turns: seq<Turn>) returns (output: string)
    ensures output == if greetingCutAt.Some? then Cut(Format(Reply(0, greeting)), greetingCutAt.value)
                      else Format(Reply(0, greeting)) + WrittenBy(Serve(turns, 1))
  {
    hide Format, Parse, WrittenBy, Serve, Message;
    var requestId := 0;
    output := Format(Reply(0, greeting));
    if greetingCutAt.Some? { return Cut(output, greetingCutAt.value); }
    for i := 0 to |turns|
      invariant output + WrittenBy(Serve(turns[i..], requestId + 1))
        == Format(Reply(0, greeting)) + WrittenBy(Serve(turns, 1))
    {
      assert turns[i..][1..] == turns[i + 1..];
      WrittenUnfolds(turns[i..], requestId + 1);
      var Turn(arrival, cutAt) := turns[i];
      match arrival {
        case Line(text, dispatched) =>
          requestId := requestId + 1;
          var parsed := ParseCommand(text);
          var body;
          match parsed {
            case Err(e) => body := ErrorBody(Message(e));
            case Ok(Exit) => body := "goodbye";
            case Ok(_) =>
              match dispatched {
                case Ok(reply) => body := reply;
                case Err(message) => body := ErrorBody(message);
              }
          }
          var response := Format(Reply(requestId, body));
          if cutAt.Some? {
            output := output + Cut(response, cutAt.value);
            return;
          }
          output := output + response;
          if parsed == Ok(Command.Exit) { return; }
        case Event(notice) =>
          var notification := Format(Notify(notice));
          if cutAt.Some? {
            output := output + Cut(notification, cutAt.value);
            return;
          }
          output := output + notification;
        case Lagged =>
        case EventsClosed | EndOfInput | ReadError => return;
      }
    }
    NothingMore(requestId + 1);
  }

  lemma NothingMore(id: nat)
    ensures WrittenBy(Serve([], id)) == ""
  {
  }

  // ── One block per line, in order ─────────────────────────────────────────

  function Replies(items: seq<Item>): seq<Item> {
    if items == [] then [] else (if items[0].Reply? then [items[0]] else []) + Replies(items[1..])
  }

  function Notices(items: seq<Item>): seq<Item> {
    if items == [] then [] else (if items[0].Notify? then [items[0]] else []) + Notices(items[1..])
  }

  function Lines(turns: seq<Turn>): (lines: seq<Arrival>)
    ensures forall k :: 0 <= k < |lines| ==> lines[k].Line?
  {
    if turns == [] then [] else (if turns[0].arrival.Line? then [turns[0].arrival] else []) + Lines(turns[1..])
  }

  function Events(turns: seq<Turn>): (events: seq<Arrival>)
    ensures forall k :: 0 <= k < |events| ==> events[k].Event?
  {
    if turns == [] then [] else (if turns[0].arrival.Event? then [turns[0].arrival] else []) + Events(turns[1..])
  }

  /** No write fails and nothing ends the connection. */
  ghost predicate Undisturbed(turns: seq<Turn>) {
    forall i :: 0 <= i < |turns| ==> turns[i].cutAt.None? && !Ends(turns[i].arrival)
  }

  lemma RepliesCons(item: Item, items: seq<Item>)
    ensures Replies([item] + items) == (if item.Reply? then [item] else []) + Replies(items)
    ensures Notices([item] + items) == (if item.Notify? then [item] else []) + Notices(items)
  {
    assert ([item] + items)[1..] == items;
  }

  lemma ServeUnfolds(turns: seq<Turn>, id: nat, next: nat)
    requires turns != [] && next == if turns[0].arrival.Line? then id + 1 else id
    ensures
      var Turn(a, cutAt) := turns[0];
      var item := ItemFor(a, id);
      var items := Serve(turns, id).items;
      if item.Some? && cutAt.Some? then items == []
      else if Ends(a) then items == if item.Some? then [item.value] else []
      else items == (if item.Some? then [item.value] else []) + Serve(turns[1..], next).items
  {
  }

  lemma ServedUnfolds(turns: seq<Turn>, id: nat, next: nat)
    requires turns != [] && next == if turns[0].arrival.Line? then id + 1 else id
    ensures
      var Turn(a, cutAt) := turns[0];
      var item := ItemFor(a, id);
      var items := Serve(turns, id).items;
      var stops := Ends(a) || (item.Some? && cutAt.Some?);
      var rest := if stops then [] else Serve(turns[1..], next).items;
      var whole := item.Some? && cutAt.None?;
      && Replies(items) == (if whole && a.Line? then [item.value] else []) + Replies(rest)
      && Notices(items) == (if whole && a.Event? then [item.value] else []) + Notices(rest)
  {
    ServeUnfolds(turns, id, next);
    var a, item := turns[0].arrival, ItemFor(turns[0].arrival, id);
    var rest := if Ends(a) then [] else Serve(turns[1..], next).items;
    hide AnswerTo, Ends, Serve;
    if item.Some? {
      RepliesCons(item.value, rest);
      assert [item.value] + [] == [item.value];
    } else {
      assert [] + rest == rest;
    }
  }

  /**
   The answer to a line: a farewell to exit, what dispatching any other command gave,
   and an error with its message where the line is no command or the command failed.
   */
  ghost predicate AnswersLine(line: Arrival, body: string)
    requires line.Line?
  {
    match Parse(line.text)
    case Err(e) => body == "%error " + Message(e)
    case Ok(Exit) => body == "goodbye"
    case Ok(_) => body == if line.dispatched.Ok? then line.dispatched.value else "%error " + line.dispatched.error
  }

  /** The k-th reply is numbered id + k and answers the k-th line. */
  ghost predicate Answers(replies: seq<Item>, lines: seq<Arrival>, id: nat) {
    |replies| <= |lines| &&
    forall k :: 0 <= k < |replies| ==>
      lines[k].Line? && replies[k].Reply? && replies[k].id == id + k && AnswersLine(lines[k], replies[k].body)
  }

  lemma AnswersCons(line: Arrival, lines: seq<Arrival>, replies: seq<Item>, id: nat)
    requires line.Line? && Answers(replies, lines, id + 1)
    ensures Answers([Reply(id, AnswerTo(line.text, line.dispatched))] + replies, [line] + lines, id)
  {
    assert AnswersLine(line, AnswerTo(line.text, line.dispatched)) by { hide Parse, Message; }
    hide AnswerTo, AnswersLine;
    var reply := Reply(id, AnswerTo(line.text, line.dispatched));
    var all, every := [reply] + replies, [line] + lines;
    forall k | 0 <= k < |all|
      ensures every[k].Line? && all[k].Reply? && all[k].id == id + k && AnswersLine(every[k], all[k].body)
    {
      if k > 0 { assert all[k] == replies[k - 1] && every[k] == lines[k - 1]; }
    }
  }

  /**
   The loop ends with this turn: the client is gone or says exit, the events are over,
   or what there was to write could not be written whole.
   */
  ghost predicate Stops(t: Turn) {
    || t.arrival.EventsClosed? || t.arrival.EndOfInput? || t.arrival.ReadError?
    || (t.arrival.Line? && Words(t.arrival.text) != [] && Words(t.arrival.text)[0] == "exit")
    || ((t.arrival.Line? || t.arrival.Event?) && t.cutAt.Some?)
  }

  lemma StopsIff(t: Turn)
    ensures Stops(t) <==> Ends(t.arrival) || ((t.arrival.Line? || t.arrival.Event?) && t.cutAt.Some?)
  {
    if t.arrival.Line? { AcceptedIffMeant(t.arrival.text, Command.Exit); }
    hide Parse, Words;
  }

  function OneIf(b: bool): nat {
    if b then 1 else 0
  }

  /** Every line and every event up to the turn that ends the loop is answered or passed on, and none behind it. */
  lemma {:induction false} ServesUntilItStops(turns: seq<Turn>, id: nat, n: nat, items: seq<Item>)
    requires n <= |turns| && (forall i :: 0 <= i < n ==> !Stops(turns[i])) && (n < |turns| ==> Stops(turns[n]))
    requires items == Serve(turns, id).items
    ensures |Replies(items)| == |Lines(turns[..n])|
                                + OneIf(n < |turns| && turns[n].arrival.Line? && turns[n].cutAt.None?)
    ensures |Notices(items)| == |Events(turns[..n])|
    decreases |turns|
  {
    if turns != [] {
      var next := if turns[0].arrival.Line? then id + 1 else id;
      StopsIff(turns[0]);
      ServedUnfolds(turns, id, next);
      hide Ends, Serve, Stops, AnswerTo;
      assert Replies([]) == [] && Notices([]) == [];
      if n > 0 {
        assert turns[..n][1..] == turns[1..][..n - 1] && turns[..n][0] == turns[0];
        ServesUntilItStops(turns[1..], next, n - 1, Serve(turns[1..], next).items);
      }
    }
  }

  /** In every run the k-th reply block is numbered k, is the answer to the k-th line, and is written whole. */
  lemma {:induction false} BlocksAnswerLines(turns: seq<Turn>, id: nat, replies: seq<Item>, lines: seq<Arrival>)
    requires replies == Replies(Serve(turns, id).items) && lines == Lines(turns)
    ensures Answers(replies, lines, id)
    ensures Undisturbed(turns) ==> |replies| == |lines|
    decreases |turns|
  {
    if turns != [] {
      var a, next := turns[0].arrival, if turns[0].arrival.Line? then id + 1 else id;
      ServedUnfolds(turns, id, next);
      assert Replies([]) == [];
      var others := Replies(Serve(turns[1..], next).items);
      BlocksAnswerLines(turns[1..], next, others, Lines(turns[1..]));
      assert Undisturbed(turns) ==> Undisturbed(turns[1..]) && turns[0].cutAt.None? && !Ends(a);
      assert Answers([], lines, id) && Answers([], Lines(turns[1..]), next);
      hide AnswerTo, Ends, Serve, Undisturbed, Replies, Notices, Answers;
      if a.Line? {
        AnswersCons(a, Lines(turns[1..]), others, id);
        AnswersCons(a, Lines(turns[1..]), [], id);
      }
    }
  }

  /** The notifications written are the first events, in their order. */
  lemma {:induction false} NoticesFollowEvents(turns: seq<Turn>, id: nat, notices: seq<Item>, events: seq<Arrival>)
    requires notices == Notices(Serve(turns, id).items) && events == Events(turns)
    ensures |notices| <= |events|
    ensures Undisturbed(turns) ==> |notices| == |events|
    ensures forall k :: 0 <= k < |notices| ==> notices[k] == Notify(events[k].notice)
    decreases |turns|
  {
    if turns != [] {
      var a, next := turns[0].arrival, if turns[0].arrival.Line? then id + 1 else id;
      ServedUnfolds(turns, id, next);
      assert Notices([]) == [];
      NoticesFollowEvents(turns[1..], next, Notices(Serve(turns[1..], next).items), Events(turns[1..]));
      assert Undisturbed(turns) ==> Undisturbed(turns[1..]) && turns[0].cutAt.None? && !Ends(a);
      hide AnswerTo, Ends, Serve, Undisturbed, Replies, Notices;
    }
  }

  // ── What a client reads ──────────────────────────────────────────────────

  datatype Heard = Answer(id: string, body: seq<string>) | Note(line: string)

  const BEGIN := "%begin "
  const END := "%end "

  /** The client opens a block at a begin line and reads to the first end line with the same number. */
  function Decode(lines: seq<string>): seq<Heard>
    decreases |lines|
  {
    if lines == [] then []
    else if BEGIN <= lines[0] then
      var id := lines[0][|BEGIN|..];
      var end := IndexOf(lines[1..], END + id);
      if end == |lines| - 1 then []
      else [Answer(id, lines[1..1 + end])] + Decode(lines[end + 2..])
    else [Note(lines[0])] + Decode(lines[1..])
  }

  function IndexOf(lines: seq<string>, line: string): (i: nat)
    ensures i <= |lines|
    ensures forall j :: 0 <= j < i ==> lines[j] != line
    ensures i < |lines| ==> lines[i] == line
  {
    if lines == [] || lines[0] == line then 0 else 1 + IndexOf(lines[1..], line)
  }

  /** The lines of a stream that ends in a newline. */
  function LinesOf(stream: string): seq<string> {
    var pieces := Split(stream, '\n');
    pieces[..|pieces| - 1]
  }

  function HeardOf(item: Item): Heard {
    match item
    case Reply(id, body) => Answer(Print(id), Split(body, '\n'))
    case Notify(notice) => Note(NoticeText(notice))
  }

  function HeardAll(items: seq<Item>): seq<Heard> {
    seq(|items|, i requires 0 <= i < |items| => HeardOf(items[i]))
  }

  /** A reply none of whose lines is its own end marker; a notification on one line. */
  ghost predicate Safe(item: Item) {
    match item
    case Reply(id, body) => End(id) !in Split(body, '\n')
    case Notify(notice) => '\n' !in NoticeText(notice)
  }

  function ItemLines(item: Item): seq<string> {
    match item
    case Reply(id, body) => [Begin(id)] + Split(body, '\n') + [End(id)]
    case Notify(notice) => Split(NoticeText(notice), '\n')
  }

  lemma LinesAppend(a: string, b: string)
    ensures LinesOf(a + "\n" + b) == Split(a, '\n') + LinesOf(b)
  {
    SplitAppend(a, b, '\n');
    hide Split;
  }

  lemma NoNewline(id: nat)
    ensures '\n' !in Begin(id) && '\n' !in End(id)
    ensures Split(Begin(id), '\n') == [Begin(id)] && Split(End(id), '\n') == [End(id)]
  {
    assert AllDigits(Print(id));
    hide Print;
    SplitPieces(Begin(id), '\n');
    SplitPieces(End(id), '\n');
    hide Split;
  }

  lemma ItemLinesFirst(item: Item, rest: string)
    ensures LinesOf(Format(item) + rest) == ItemLines(item) + LinesOf(rest)
  {
    match item {
      case Reply(id, body) =>
        NoNewline(id);
        hide Begin, End, Split, LinesOf;
        var end := End(id) + "\n" + rest;
        var inner := body + "\n" + end;
        assert Format(item) + rest == Begin(id) + "\n" + inner;
        LinesAppend(Begin(id), inner);
        LinesAppend(body, end);
        LinesAppend(End(id), rest);
      case Notify(notice) =>
        hide NoticeText, Split, LinesOf;
        assert Format(item) + rest == NoticeText(notice) + "\n" + rest;
        LinesAppend(NoticeText(notice), rest);
    }
  }

  lemma KeywordStart(k: Keyword)
    ensures KeywordName(k) != "" && KeywordName(k)[0] != 'b'
  {
  }

  lemma NoticeIsNoBegin(n: Notice)
    ensures !(BEGIN <= Split(NoticeText(n), '\n')[0])
  {
    KeywordStart(n.keyword);
    var text := NoticeText(n);
    assert text[1] == KeywordName(n.keyword)[0];
    hide KeywordName, NoticeText;
    var line := Split(text, '\n')[0];
    assert line == text[..Find(text, '\n')];
    hide Split;
    assert BEGIN[1] == 'b';
  }

  lemma DecodeReply(id: nat, body: seq<string>, rest: seq<string>)
    ensures
      var lines := [Begin(id)] + body + [End(id)] + rest;
      var end := IndexOf(body + [End(id)] + rest, End(id));
      end <= |body| && (end == |body| <==> End(id) !in body)
      && (end < |body| ==> |Decode(lines)| > 0 && Decode(lines)[0] == Answer(Print(id), body[..end]))
      && (end == |body| ==> Decode(lines) == [Answer(Print(id), body)] + Decode(rest))
  {
    var lines := [Begin(id)] + body + [End(id)] + rest;
    var inner := body + [End(id)] + rest;
    assert lines[1..] == inner;
    assert lines[0] == BEGIN + Print(id);
    assert lines[0][|BEGIN|..] == Print(id);
    assert inner[|body|] == End(id);
    var end := IndexOf(inner, End(id));
    hide Print, IndexOf;
    assert END + Print(id) == End(id);
    assert forall j :: 0 <= j < |body| ==> inner[j] == body[j];
    assert lines[1..1 + end] == inner[..end];
    if end == |body| {
      assert inner[..end] == body && lines[end + 2..] == rest;
    } else {
      assert inner[..end] == body[..end];
    }
  }

  lemma DecodeNote(line: string, rest: seq<string>)
    requires !(BEGIN <= line)
    ensures Decode([line] + rest) == [Note(line)] + Decode(rest)
  {
    assert ([line] + rest)[1..] == rest;
  }

  /** Decoding one item's lines gives that item first if it is safe, and something else first if not. */
  lemma DecodeItem(item: Item, rest: seq<string>)
    ensures Safe(item) ==> Decode(ItemLines(item) + rest) == [HeardOf(item)] + Decode(rest)
    ensures !Safe(item) ==> !([HeardOf(item)] <= Decode(ItemLines(item) + rest))
  {
    match item {
      case Reply(id, body) => DecodeReplyItem(id, body, rest);
      case Notify(notice) => DecodeNotice(notice, rest);
    }
  }

  lemma DecodeReplyItem(id: nat, body: string, rest: seq<string>)
    ensures
      var item := Reply(id, body);
      && (Safe(item) ==> Decode(ItemLines(item) + rest) == [HeardOf(item)] + Decode(rest))
      && (!Safe(item) ==> !([HeardOf(item)] <= Decode(ItemLines(item) + rest)))
  {
    var lines := Split(body, '\n');
    hide Split, Begin, End, Decode;
    assert ItemLines(Reply(id, body)) + rest == [Begin(id)] + lines + [End(id)] + rest;
    DecodeReply(id, lines, rest);
  }

  lemma DecodeNotice(notice: Notice, rest: seq<string>)
    ensures
      var item := Notify(notice);
      && (Safe(item) ==> Decode(ItemLines(item) + rest) == [HeardOf(item)] + Decode(rest))
      && (!Safe(item) ==> !([HeardOf(item)] <= Decode(ItemLines(item) + rest)))
  {
    var text := NoticeText(notice);
    var lines := Split(text, '\n');
    SplitPieces(text, '\n');
    NoticeIsNoBegin(notice);
    hide Split, NoticeText, Decode;
    assert lines + rest == [lines[0]] + (lines[1..] + rest);
    DecodeNote(lines[0], lines[1..] + rest);
    assert Decode(lines + rest)[0] == Note(lines[0]);
    if Safe(Notify(notice)) { assert lines[1..] + rest == rest; }
  }

  lemma HeardCons(items: seq<Item>)
    requires items != []
    ensures HeardAll(items) == [HeardOf(items[0])] + HeardAll(items[1..])
  {
    hide HeardOf;
  }

  /** Decoding behind the first item goes on exactly if that item is safe. */
  lemma DecodeFirst(items: seq<Item>)
    requires items != []
    ensures
      var d := Decode(LinesOf(Stream(items)));
      && (Safe(items[0]) ==> d == [HeardOf(items[0])] + Decode(LinesOf(Stream(items[1..]))))
      && (!Safe(items[0]) ==> !([HeardOf(items[0])] <= d))
  {
    assert Stream(items) == Format(items[0]) + Stream(items[1..]);
    hide *;
    ItemLinesFirst(items[0], Stream(items[1..]));
    DecodeItem(items[0], LinesOf(Stream(items[1..])));
  }

  /**
   A client recovers exactly what the server wrote if and only if every reply and
   every notification is safe.
   */
  lemma {:induction false} DecodedIffSafe(items: seq<Item>)
    ensures Decode(LinesOf(Stream(items))) == HeardAll(items) <==> forall i :: 0 <= i < |items| ==> Safe(items[i])
  {
    if items == [] {
      assert Split("", '\n') == [""];
    } else {
      hide *;
      DecodedIffSafe(items[1..]);
      DecodeFirst(items);
      HeardCons(items);
      SafeCons(items);
      ConsEqual(HeardOf(items[0]), Decode(LinesOf(Stream(items[1..]))), HeardAll(items[1..]));
    }
  }

  lemma ConsEqual(x: Heard, a: seq<Heard>, b: seq<Heard>)
    ensures [x] + a == [x] + b <==> a == b
  {
    assert ([x] + a)[1..] == a && ([x] + b)[1..] == b;
  }

  lemma SafeCons(items: seq<Item>)
    requires items != []
    ensures (forall i :: 0 <= i < |items| ==> Safe(items[i])) <==>
            Safe(items[0]) && forall i :: 0 <= i < |items[1..]| ==> Safe(items[1..][i])
  {
    hide Safe;
    assert forall i :: 0 < i < |items| ==> items[i] == items[1..][i - 1];
  }

  lemma CaptureCommand()
    ensures Parse("capture-pane 1 -p") == Ok(Command.CapturePane(1, true))
  {
    var capture := Command.CapturePane(1, true);
    assert Print(1) == "1";
    var words := RenderWords(capture);
    assert words == ["capture-pane", "1", "-p"] && words[1..] == ["1", "-p"] && words[1..][1..] == ["-p"];
    hide Parse;
    assert Join(["-p"], " ") == "-p";
    assert Join(["1", "-p"], " ") == "1" + " " + "-p";
    assert Join(words, " ") == "capture-pane" + " " + ("1" + " " + "-p");
    assert Render(capture) == "capture-pane 1 -p";
    hide Render;
    RenderParses(capture);
  }

  lemma OneLineServed(line: string, body: string, items: seq<Item>)
    requires Parse(line).Ok? && Parse(line).value != Command.Exit
    requires items == Serve([Turn(Line(line, Ok(body)), None)], 1).items
    ensures items == [Reply(1, body)]
  {
    hide Parse, Format;
    var turns := [Turn(Line(line, Ok(body)), None)];
    assert turns[1..] == [];
    assert Serve(turns[1..], 2) == Served([], "");
  }

  /** A capture whose only row reads like the end of its own reply: the client takes it for the end. */
  lemma CaptureEndsItsOwnReply(items: seq<Item>)
    requires items == Serve([Turn(Line("capture-pane 1 -p", Ok("%end 1")), None)], 1).items
    ensures items == [Reply(1, "%end 1")] && Decode(LinesOf(Stream(items))) != HeardAll(items)
  {
    CaptureCommand();
    hide Parse, Serve, Decode, LinesOf, Stream, HeardAll;
    OneLineServed("capture-pane 1 -p", "%end 1", items);
    assert !Safe(items[0]) by {
      assert Print(1) == "1" && End(1) == "%end 1";
      hide Split;
      OneLineBodiesAreSafe(1, "%end 1");
    }
    hide Safe;
    DecodedIffSafe(items);
  }

  lemma NoticeServed(notice: Notice)
    ensures Serve([Turn(Event(notice), None)], 1).items == [Notify(notice)]
  {
    hide Format;
    var turns := [Turn(Event(notice), None)];
    assert turns[1..] == [];
    assert Serve(turns[1..], 1) == Served([], "");
  }

  /** The arguments of an escalation are printed one after the other, line breaks included. */
  lemma EscalationOnOneLineIff(notice: Notice, id: nat, name: string, tool: string)
    requires notice == Notice(TrustEscalation, [Print(id), name, tool]) && '\n' !in tool
    ensures Safe(Notify(notice)) <==> '\n' !in name
  {
    assert AllDigits(Print(id));
    hide Print;
    var args := [Print(id), name, tool];
    assert args[1..] == [name, tool] && args[1..][1..] == [tool] && args[1..][1..][1..] == [];
    assert Join([tool], " ") == tool && Join([name, tool], " ") == name + " " + tool;
    assert Join(args, " ") == Print(id) + " " + (name + " " + tool);
    hide Join;
    var head, text := "%" + KeywordName(TrustEscalation) + " ", NoticeText(notice);
    assert text == head + Print(id) + " " + name + " " + tool && '\n' !in head;
    forall i | 0 <= i < |name| ensures text[|head| + |Print(id)| + 1 + i] == name[i] {}
    hide KeywordName, NoticeText;
  }

  /**
   The name in an escalation is the one the agent gave itself. The client hears the
   escalation as it was sent if and only if that name holds no line break.
   */
  lemma EscalationHeardIff(items: seq<Item>, notice: Notice, id: nat, name: string, tool: string)
    requires notice == Notice(TrustEscalation, [Print(id), name, tool]) && '\n' !in tool
    requires items == Serve([Turn(Event(notice), None)], 1).items
    ensures Decode(LinesOf(Stream(items))) == HeardAll(items) <==> '\n' !in name
  {
    hide *;
    NoticeServed(notice);
    EscalationOnOneLineIff(notice, id, name, tool);
    assert items[0] == Notify(notice);
    DecodedIffSafe(items);
  }

  /** A body of one line, such as any JSON document the server prints, is safe unless it is the end marker itself. */
  lemma OneLineBodiesAreSafe(id: nat, body: string)
    requires '\n' !in body
    ensures Safe(Reply(id, body)) <==> body != End(id)
  {
    SplitPieces(body, '\n');
    hide Split, End;
  }

  /** The word an error quotes is one of the line's words. */
  lemma {:induction false} QuotedFrom(parts: seq<string>, i: nat, horizontal: bool, name: Option<string>,
                                      pane: Option<nat>)
    requires forall k :: 0 <= k < |parts| ==> '\n' !in parts[k]
    ensures NewSessionFrom(parts, i, name).Err? ==> OneLineError(NewSessionFrom(parts, i, name).error)
    ensures SplitPaneFrom(parts, i, horizontal, pane).Err? ==>
      OneLineError(SplitPaneFrom(parts, i, horizontal, pane).error)
    decreases |parts| - i
  {
    if i < |parts| {
      hide ParseU64;
      if i + 1 < |parts| { QuotedFrom(parts, i + 2, horizontal, Some(parts[i + 1]), pane); }
      var next := if parts[i] == "-h" || parts[i] == "-v" then pane else ParseU64(parts[i]);
      var h := if parts[i] == "-h" then true else if parts[i] == "-v" then false else horizontal;
      QuotedFrom(parts, i + 1, h, name, next);
    }
  }

  ghost predicate OneLineError(e: ParseError) {
    match e
    case EmptyCommand | Usage(_) => true
    case UnknownFlag(word) => '\n' !in word
    case InvalidPane(word) => '\n' !in word
    case InvalidSession(word) => '\n' !in word
    case UnknownCommand(word) => '\n' !in word
  }

  lemma UsagesOnOneLine()
    ensures '\n' !in "send-keys PANE_ID KEYS..." && '\n' !in "split-pane [-h|-v] PANE_ID"
      && '\n' !in "select-pane PANE_ID"
  {
  }

  lemma MoreUsagesOnOneLine()
    ensures '\n' !in "capture-pane PANE_ID [-p]" && '\n' !in "kill-pane PANE_ID" && '\n' !in "list-panes SESSION_ID"
  {
  }

  lemma UsageOnOneLine(v: Verb)
    ensures '\n' !in UsageOf(v)
  {
    hide VerbName;
    match v {
      case SendKeys | SplitPane | SelectPane => UsagesOnOneLine();
      case CapturePane | KillPane | ListPanes => MoreUsagesOnOneLine();
      case _ => VerbIsWord(v);
    }
  }

  lemma SuffixOnOneLine()
    ensures '\n' !in ". Type 'help' for available commands"
  {
    assert ". Type 'help' for available commands" == ". Type 'help'" + " for available" + " commands";
  }

  lemma MessageOnOneLine(e: ParseError)
    requires OneLineError(e)
    ensures '\n' !in Message(e)
  {
    SuffixOnOneLine();
    if e.Usage? { UsageOnOneLine(e.verb); }
    hide UsageOf;
  }

  /** The reply to every line that does not parse is safe. */
  lemma ParseErrorsAreSafe(id: nat, line: string)
    requires Parse(line).Err?
    ensures Safe(Reply(id, ErrorBody(Message(Parse(line).error))))
  {
    var e := Parse(line).error;
    ErrorQuotesAWord(line);
    MessageOnOneLine(e);
    hide Parse, Message, Words, Safe;
    assert ErrorBody(Message(e))[2] == 'r' && End(id)[2] == 'n';
    assert '\n' !in "%error ";
    OneLineBodiesAreSafe(id, ErrorBody(Message(e)));
  }

  lemma ErrorQuotesAWord(line: string)
    requires Parse(line).Err?
    ensures OneLineError(Parse(line).error)
  {
    var parts := Words(line);
    forall k | 0 <= k < |parts| ensures '\n' !in parts[k] {}
    hide Words, ParseWords, OneLineError;
    assert OneLineError(EmptyCommand);
    if parts != [] { WordsErrorQuotesAWord(parts); }
  }

  lemma WordsErrorQuotesAWord(parts: seq<string>)
    requires parts != [] && forall k :: 0 <= k < |parts| ==> '\n' !in parts[k]
    ensures ParseWords(parts).Err? ==> OneLineError(ParseWords(parts).error)
  {
    QuotedFrom(parts, 1, false, None, None);
    assert '\n' !in parts[0] && (|parts| > 1 ==> '\n' !in parts[1]);
    hide VerbOf, ParseU64, NewSessionFrom, SplitPaneFrom, Join;
  }

  lemma {:induction false} PiecesWithin(body: string, c: char)
    ensures forall i, j :: 0 <= i < |Split(body, c)| && 0 <= j < |Split(body, c)[i]| ==> Split(body, c)[i][j] in body
    decreases |body|
  {
    var i := Find(body, c);
    if i < |body| { PiecesWithin(body[i + 1..], c); }
  }

  /** A body without any percent sign is safe on however many lines; the help text is one. */
  lemma BodiesWithoutPercentAreSafe(id: nat, body: string)
    requires '%' !in body
    ensures Safe(Reply(id, body))
  {
    PiecesWithin(body, '\n');
    assert End(id)[0] == '%';
    hide Split, End;
  }
}
