/** Events, the filter a subscriber asks for, and the query string it is written in. */
module EventFilter {
  import opened Wrappers
  import opened Text
  import Utf8
  import Glob

  datatype SourceClass = Harness | Pattern | Core

  /** The body of an event is opaque; only its serialised size matters. */
  datatype Event = Event(
    sourceClass: SourceClass,
    sourceId: string,
    kind: string,
    paneId: Option<nat>,
    tsMs: nat,
    cursor: nat,
    body: Body)

  datatype Body =
    | Json(bytes: nat, text: string)
    | TooLarge(originalClass: SourceClass, originalId: string, originalKind: string, bodyBytes: nat)

  /** Empty `kinds` and `panes` accept everything; `since` is an exclusive lower bound on the cursor. */
  datatype Filter = Filter(
    sourceClass: Option<SourceClass>,
    sourceId: Option<string>,
    kinds: seq<string>,
    panes: seq<nat>,
    since: nat)

  const EMPTY_FILTER := Filter(None, None, [], [], 0)

  // ── Matching ─────────────────────────────────────────────────────────────

  predicate KindMatches(pattern: string, kind: string) {
    Glob.Matches(Utf8.Encode(pattern), Utf8.Encode(kind))
  }

  /** Does the event pass the filter, whatever its cursor? */
  predicate Accepts(f: Filter, e: Event) {
    && (f.sourceClass.Some? ==> e.sourceClass == f.sourceClass.value)
    && (f.sourceId.Some? ==> e.sourceId == f.sourceId.value)
    && (f.panes != [] ==> e.paneId.Some? && e.paneId.value in f.panes)
    && (f.kinds != [] ==> exists i :: 0 <= i < |f.kinds| && KindMatches(f.kinds[i], e.kind))
  }

  method FilterMatches(f: Filter, e: Event) returns (matches: bool)
    ensures matches == Accepts(f, e)
  {
    if f.sourceClass.Some? && e.sourceClass != f.sourceClass.value { return false; }
    if f.sourceId.Some? && e.sourceId != f.sourceId.value { return false; }
    if f.panes != [] {
      if e.paneId.None? { return false; }
      if e.paneId.value !in f.panes { return false; }
    }
    if f.kinds != [] {
      var any := false;
      for i := 0 to |f.kinds|
        invariant !any && forall j :: 0 <= j < i ==> !KindMatches(f.kinds[j], e.kind)
      {
        var matched, _ := Glob.GlobMatch(Utf8.Encode(f.kinds[i]), Utf8.Encode(e.kind));
        if matched { any := true; break; }
      }
      if !any { return false; }
    }
    return true;
  }

  // ── Query strings ────────────────────────────────────────────────────────

  datatype QueryError =
    | MalformedParam(part: string)
    | UnknownSourceClass(name: string)
    | InvalidPaneId(token: string)
    | InvalidSince(text: string)
    | UnknownParam(key: string)

  function ParseClass(s: string): Option<SourceClass> {
    if s == "harness" then Some(Harness)
    else if s == "pattern" then Some(Pattern)
    else if s == "core" then Some(Core)
    else None
  }

  function NonEmpty(tokens: seq<string>): seq<string> {
    if tokens == [] then []
    else NonEmpty(tokens[..|tokens| - 1]) + if tokens[|tokens| - 1] == "" then [] else [tokens[|tokens| - 1]]
  }

  /** The pane ids of a token list, or the first token that is not one. */
  function ParsePanes(tokens: seq<string>): Result<seq<nat>, QueryError> {
    if tokens == [] then Ok([])
    else
      var init := ParsePanes(tokens[..|tokens| - 1]);
      var last := tokens[|tokens| - 1];
      if init.Err? then init
      else if ParseU64(last).None? then Err(InvalidPaneId(last))
      else Ok(init.value + [ParseU64(last).value])
  }

  /** One key and its value applied to the filter so far: panes accumulate, everything else is replaced. */
  function ApplyField(out: Filter, key: string, val: string): Result<Filter, QueryError> {
    if key == "source_class" then
      if ParseClass(val).Some? then Ok(out.(sourceClass := ParseClass(val))) else Err(UnknownSourceClass(val))
    else if key == "source_id" then Ok(out.(sourceId := Some(val)))
    else if key == "kinds" then Ok(out.(kinds := NonEmpty(Split(val, ','))))
    else if key == "panes" then
      (match ParsePanes(Split(val, ','))
       case Ok(ids) => Ok(out.(panes := out.panes + ids))
       case Err(e) => Err(e))
    else if key == "since" then
      if ParseU64(val).Some? then Ok(out.(since := ParseU64(val).value)) else Err(InvalidSince(val))
    else Err(UnknownParam(key))
  }

  /** One part of the query, split at its first equals sign. */
  function ApplyPart(out: Filter, part: string): Result<Filter, QueryError> {
    if part == "" then Ok(out)
    else
      var i := Find(part, '=');
      if i == |part| then Err(MalformedParam(part)) else ApplyField(out, part[..i], part[i + 1..])
  }

  function ApplyParts(out: Filter, parts: seq<string>): Result<Filter, QueryError> {
    if parts == [] then Ok(out)
    else
      var init := ApplyParts(out, parts[..|parts| - 1]);
      if init.Err? then init else ApplyPart(init.value, parts[|parts| - 1])
  }

  /** The filter that a query string denotes. */
  function Parsed(query: string): Result<Filter, QueryError> {
    if query == "" then Ok(EMPTY_FILTER) else ApplyParts(EMPTY_FILTER, Split(query, '&'))
  }

  lemma {:induction false} FirstErrorDecides(out: Filter, parts: seq<string>, i: nat)
    requires i <= |parts| && ApplyParts(out, parts[..i]).Err?
    ensures ApplyParts(out, parts) == ApplyParts(out, parts[..i])
    decreases |parts| - i
  {
    if i == |parts| {
      assert parts[..i] == parts;
    } else {
      assert parts[..i + 1][..i] == parts[..i];
      FirstErrorDecides(out, parts, i + 1);
    }
  }

  lemma {:induction false} FirstBadPaneDecides(tokens: seq<string>, i: nat)
    requires i <= |tokens| && ParsePanes(tokens[..i]).Err?
    ensures ParsePanes(tokens) == ParsePanes(tokens[..i])
    decreases |tokens| - i
  {
    if i == |tokens| {
      assert tokens[..i] == tokens;
    } else {
      assert tokens[..i + 1][..i] == tokens[..i];
      FirstBadPaneDecides(tokens, i + 1);
    }
  }

  method ParsePaneList(tokens: seq<string>) returns (r: Result<seq<nat>, QueryError>)
    ensures r == ParsePanes(tokens)
  {
    var ids: seq<nat> := [];
    for k := 0 to |tokens|
      invariant ParsePanes(tokens[..k]) == Ok(ids)
    {
      assert tokens[..k + 1][..k] == tokens[..k];
      var id := ParseU64(tokens[k]);
      if id.None? {
        FirstBadPaneDecides(tokens, k + 1);
        return Err(InvalidPaneId(tokens[k]));
      }
      ids := ids + [id.value];
    }
    assert tokens[..|tokens|] == tokens;
    r := Ok(ids);
  }

  /** One part of the query, split at its first equals sign and dispatched on its key. */
  method ReadPart(out: Filter, part: string) returns (r: Result<Filter, QueryError>)
    ensures r == ApplyPart(out, part)
  {
    if part == "" { return Ok(out); }
    var i := Find(part, '=');
    if i == |part| { return Err(MalformedParam(part)); }
    var key, val := part[..i], part[i + 1..];
    match key {
      case "source_class" =>
        var parsed := ParseClass(val);
        return if parsed.Some? then Ok(out.(sourceClass := parsed)) else Err(UnknownSourceClass(val));
      case "source_id" => return Ok(out.(sourceId := Some(val)));
      case "kinds" => return Ok(out.(kinds := NonEmpty(Split(val, ','))));
      case "panes" =>
        var ids := ParsePaneList(Split(val, ','));
        return if ids.Ok? then Ok(out.(panes := out.panes + ids.value)) else Err(ids.error);
      case "since" =>
        var since := ParseU64(val);
        return if since.Some? then Ok(out.(since := since.value)) else Err(InvalidSince(val));
      case _ => return Err(UnknownParam(key));
    }
  }

  method FromQuery(query: string) returns (r: Result<Filter, QueryError>)
    ensures r == Parsed(query)
  {
    var out := EMPTY_FILTER;
    if query == "" { return Ok(out); }
    var parts := Split(query, '&');
    for n := 0 to |parts|
      invariant ApplyParts(EMPTY_FILTER, parts[..n]) == Ok(out)
    {
      assert parts[..n + 1][..n] == parts[..n];
      var step := ReadPart(out, parts[n]);
      if step.Err? {
        FirstErrorDecides(EMPTY_FILTER, parts, n + 1);
        return step;
      }
      out := step.value;
    }
    assert parts[..|parts|] == parts;
    r := Ok(out);
  }

  // ── Round trip ───────────────────────────────────────────────────────────

  function ClassName(c: SourceClass): string {
    match c case Harness => "harness" case Pattern => "pattern" case Core => "core"
  }

  function Printed(ids: seq<nat>): seq<string> {
    if ids == [] then [] else Printed(ids[..|ids| - 1]) + [Print(ids[|ids| - 1])]
  }

  function ClassParts(f: Filter): seq<string> {
    if f.sourceClass.Some? then ["source_class=" + ClassName(f.sourceClass.value)] else []
  }

  function IdParts(f: Filter): seq<string> {
    if f.sourceId.Some? then ["source_id=" + f.sourceId.value] else []
  }

  function KindParts(f: Filter): seq<string> {
    if f.kinds != [] then ["kinds=" + Join(f.kinds, ",")] else []
  }

  function PaneParts(f: Filter): seq<string> {
    if f.panes != [] then ["panes=" + Join(Printed(f.panes), ",")] else []
  }

  function SinceParts(f: Filter): seq<string> {
    ["since=" + Print(f.since)]
  }

  /** The parts that spell a filter; an absent field contributes no part. */
  function PartsOf(f: Filter): seq<string> {
    ClassParts(f) + IdParts(f) + KindParts(f) + PaneParts(f) + SinceParts(f)
  }

  function Render(f: Filter): string {
    Join(PartsOf(f), "&")
  }

  /** Filters whose texts do not contain the syntax's own separators and whose numbers fit 64 bits. */
  predicate Expressible(f: Filter) {
    && (f.sourceId.Some? ==> '&' !in f.sourceId.value)
    && (forall i :: 0 <= i < |f.kinds| ==> f.kinds[i] != "" && ',' !in f.kinds[i] && '&' !in f.kinds[i])
    && (forall i :: 0 <= i < |f.panes| ==> f.panes[i] < U64_LIMIT)
    && f.since < U64_LIMIT
  }

  lemma {:induction false} KindsSurvive(kinds: seq<string>)
    requires forall i :: 0 <= i < |kinds| ==> kinds[i] != ""
    ensures NonEmpty(kinds) == kinds
  {
    if kinds != [] { KindsSurvive(kinds[..|kinds| - 1]); }
  }

  lemma {:induction false} PanesSurvive(ids: seq<nat>)
    requires forall i :: 0 <= i < |ids| ==> ids[i] < U64_LIMIT
    ensures ParsePanes(Printed(ids)) == Ok(ids)
  {
    if ids != [] {
      PanesSurvive(ids[..|ids| - 1]);
      ParsePrint(ids[|ids| - 1]);
      assert ids == ids[..|ids| - 1] + [ids[|ids| - 1]];
      assert Printed(ids)[..|Printed(ids)| - 1] == Printed(ids[..|ids| - 1]);
    }
  }

  lemma {:induction false} PrintedAvoids(ids: seq<nat>, c: char)
    requires !IsDigit(c)
    ensures forall i :: 0 <= i < |Printed(ids)| ==> c !in Printed(ids)[i]
    ensures |Printed(ids)| == |ids|
  {
    if ids != [] {
      PrintedAvoids(ids[..|ids| - 1], c);
    }
  }

  lemma {:induction false} JoinAvoids(pieces: seq<string>, separator: string, c: char)
    requires c !in separator && forall i :: 0 <= i < |pieces| ==> c !in pieces[i]
    ensures c !in Join(pieces, separator)
  {
    if |pieces| > 1 {
      JoinAvoids(pieces[1..], separator, c);
    }
  }

  /** A part whose key holds no equals sign is applied as that key and that value. */
  lemma PartKey(key: string, val: string)
    requires '=' !in key
    ensures Find(key + "=" + val, '=') == |key|
    ensures (key + "=" + val)[..|key|] == key && (key + "=" + val)[|key| + 1..] == val
  {
    FindIs(key + "=" + val, '=', |key|);
  }

  lemma PartsHaveNoAmpersand(f: Filter)
    requires Expressible(f)
    ensures forall i :: 0 <= i < |PartsOf(f)| ==> '&' !in PartsOf(f)[i]
  {
    assert forall i :: 0 <= i < |KindParts(f)| ==> '&' !in KindParts(f)[i] by { JoinAvoids(f.kinds, ",", '&'); }
    assert forall i :: 0 <= i < |PaneParts(f)| ==> '&' !in PaneParts(f)[i] by {
      PrintedAvoids(f.panes, '&');
      JoinAvoids(Printed(f.panes), ",", '&');
    }
    assert forall i :: 0 <= i < |SinceParts(f)| ==> '&' !in SinceParts(f)[i];
  }

  lemma {:induction false} ApplyAppend(out: Filter, a: seq<string>, b: seq<string>)
    requires ApplyParts(out, a).Ok?
    ensures ApplyParts(out, a + b) == ApplyParts(ApplyParts(out, a).value, b)
  {
    if b == [] {
      assert a + b == a;
    } else {
      assert (a + b)[..|a + b| - 1] == a + b[..|b| - 1];
      ApplyAppend(out, a, b[..|b| - 1]);
    }
  }

  lemma ApplyOne(out: Filter, part: string)
    ensures ApplyParts(out, [part]) == ApplyPart(out, part)
  {
    assert [part][..0] == [];
    assert ApplyParts(out, []) == Ok(out);
  }

  lemma ApplyClassParts(out: Filter, f: Filter)
    requires out.sourceClass == None
    ensures ApplyParts(out, ClassParts(f)) == Ok(out.(sourceClass := f.sourceClass))
  {
    if f.sourceClass.Some? {
      var name := ClassName(f.sourceClass.value);
      ApplyOne(out, "source_class=" + name);
      PartKey("source_class", name);
      assert "source_class=" + name == "source_class" + "=" + name;
    }
  }

  lemma ApplyIdParts(out: Filter, f: Filter)
    requires out.sourceId == None
    ensures ApplyParts(out, IdParts(f)) == Ok(out.(sourceId := f.sourceId))
  {
    if f.sourceId.Some? {
      var id := f.sourceId.value;
      ApplyOne(out, "source_id=" + id);
      PartKey("source_id", id);
      assert "source_id=" + id == "source_id" + "=" + id;
    }
  }

  lemma ApplyKindsPart(out: Filter, list: string, kinds: seq<string>)
    requires NonEmpty(Split(list, ',')) == kinds
    ensures ApplyParts(out, ["kinds=" + list]) == Ok(out.(kinds := kinds))
  {
    hide NonEmpty, Split;
    ApplyOne(out, "kinds=" + list);
    PartKey("kinds", list);
    assert "kinds=" + list == "kinds" + "=" + list;
  }

  lemma ApplyKindParts(out: Filter, f: Filter)
    requires out.kinds == [] && forall i :: 0 <= i < |f.kinds| ==> f.kinds[i] != "" && ',' !in f.kinds[i]
    ensures ApplyParts(out, KindParts(f)) == Ok(out.(kinds := f.kinds))
  {
    if f.kinds != [] {
      SplitJoin(f.kinds, ',');
      KindsSurvive(f.kinds);
      ApplyKindsPart(out, Join(f.kinds, ","), f.kinds);
    }
  }

  lemma PaneListReadBack(ids: seq<nat>)
    requires ids != [] && forall i :: 0 <= i < |ids| ==> ids[i] < U64_LIMIT
    ensures ParsePanes(Split(Join(Printed(ids), ","), ',')) == Ok(ids)
  {
    PrintedAvoids(ids, ',');
    SplitJoin(Printed(ids), ',');
    PanesSurvive(ids);
  }

  lemma ApplyPanesPart(out: Filter, list: string, ids: seq<nat>)
    requires ParsePanes(Split(list, ',')) == Ok(ids)
    ensures ApplyParts(out, ["panes=" + list]) == Ok(out.(panes := out.panes + ids))
  {
    hide ParsePanes, Split;
    ApplyOne(out, "panes=" + list);
    PartKey("panes", list);
    assert "panes=" + list == "panes" + "=" + list;
  }

  lemma ApplyPaneParts(out: Filter, f: Filter)
    requires out.panes == [] && forall i :: 0 <= i < |f.panes| ==> f.panes[i] < U64_LIMIT
    ensures ApplyParts(out, PaneParts(f)) == Ok(out.(panes := f.panes))
  {
    if f.panes != [] {
      PaneListReadBack(f.panes);
      ApplyPanesPart(out, Join(Printed(f.panes), ","), f.panes);
      assert [] + f.panes == f.panes;
    }
  }

  lemma ApplySinceParts(out: Filter, f: Filter)
    requires f.since < U64_LIMIT
    ensures ApplyParts(out, SinceParts(f)) == Ok(out.(since := f.since))
  {
    ApplyOne(out, "since=" + Print(f.since));
    PartKey("since", Print(f.since));
    assert "since=" + Print(f.since) == "since" + "=" + Print(f.since);
    ParsePrint(f.since);
  }

  /** Every expressible filter is read back from its own query string. */
  lemma QueryRoundTrip(f: Filter)
    requires Expressible(f)
    ensures Parsed(Render(f)) == Ok(f)
  {
    PartsHaveNoAmpersand(f);
    SplitJoin(PartsOf(f), '&');
    PartsApplied(f);
  }

  lemma PartsApplied(f: Filter)
    requires Expressible(f)
    ensures ApplyParts(EMPTY_FILTER, PartsOf(f)) == Ok(f)
  {
    hide ApplyPart, ApplyParts, ClassParts, IdParts, KindParts, PaneParts, SinceParts;
    var f1 := EMPTY_FILTER.(sourceClass := f.sourceClass);
    var f2 := f1.(sourceId := f.sourceId);
    var f3 := f2.(kinds := f.kinds);
    var f4 := f3.(panes := f.panes);
    ApplyClassParts(EMPTY_FILTER, f);
    ApplyIdParts(f1, f);
    ApplyAppend(EMPTY_FILTER, ClassParts(f), IdParts(f));
    ApplyKindParts(f2, f);
    ApplyAppend(EMPTY_FILTER, ClassParts(f) + IdParts(f), KindParts(f));
    ApplyPaneParts(f3, f);
    ApplyAppend(EMPTY_FILTER, ClassParts(f) + IdParts(f) + KindParts(f), PaneParts(f));
    ApplySinceParts(f4, f);
    ApplyAppend(EMPTY_FILTER, ClassParts(f) + IdParts(f) + KindParts(f) + PaneParts(f), SinceParts(f));
  }

  // ── What a query can ask for ─────────────────────────────────────────────

  lemma {:induction false} PiecesAvoid(s: string, c: char, d: char)
    requires d !in s
    ensures forall i :: 0 <= i < |Split(s, c)| ==> d !in Split(s, c)[i]
    decreases |s|
  {
    var i := Find(s, c);
    if i < |s| { PiecesAvoid(s[i + 1..], c, d); }
  }

  /** May the piece stand in a list of kinds? */
  predicate KindToken(s: string) {
    ',' !in s && '&' !in s
  }

  lemma {:induction false} NonEmptyTokens(tokens: seq<string>)
    requires forall i :: 0 <= i < |tokens| ==> KindToken(tokens[i])
    ensures forall i :: 0 <= i < |NonEmpty(tokens)| ==> NonEmpty(tokens)[i] != "" && KindToken(NonEmpty(tokens)[i])
  {
    if tokens != [] { NonEmptyTokens(tokens[..|tokens| - 1]); }
  }

  lemma {:induction false} PanesFit(tokens: seq<string>)
    requires ParsePanes(tokens).Ok?
    ensures forall i :: 0 <= i < |ParsePanes(tokens).value| ==> ParsePanes(tokens).value[i] < U64_LIMIT
  {
    if tokens != [] { PanesFit(tokens[..|tokens| - 1]); }
  }

  lemma KindsKeepExpressible(out: Filter, val: string)
    requires Expressible(out) && '&' !in val
    ensures Expressible(out.(kinds := NonEmpty(Split(val, ','))))
  {
    PiecesAvoid(val, ',', '&');
    SplitPieces(val, ',');
    hide Split, NonEmpty;
    NonEmptyTokens(Split(val, ','));
  }

  lemma PanesKeepExpressible(out: Filter, tokens: seq<string>)
    requires Expressible(out) && ParsePanes(tokens).Ok?
    ensures Expressible(out.(panes := out.panes + ParsePanes(tokens).value))
  {
    PanesFit(tokens);
    hide ParsePanes;
  }

  lemma FieldKeepsExpressible(out: Filter, key: string, val: string)
    requires Expressible(out) && '&' !in val && ApplyField(out, key, val).Ok?
    ensures Expressible(ApplyField(out, key, val).value)
  {
    KindsKeepExpressible(out, val);
    if ParsePanes(Split(val, ',')).Ok? { PanesKeepExpressible(out, Split(val, ',')); }
    hide Split, NonEmpty, ParsePanes, ParseU64, ParseClass, Expressible;
  }

  lemma PartKeepsExpressible(out: Filter, part: string)
    requires Expressible(out) && '&' !in part && ApplyPart(out, part).Ok?
    ensures Expressible(ApplyPart(out, part).value)
  {
    var i := Find(part, '=');
    hide ApplyField, Find, Expressible;
    if part != "" && i < |part| { FieldKeepsExpressible(out, part[..i], part[i + 1..]); }
  }

  lemma {:induction false} PartsKeepExpressible(out: Filter, parts: seq<string>)
    requires Expressible(out) && (forall i :: 0 <= i < |parts| ==> '&' !in parts[i]) && ApplyParts(out, parts).Ok?
    ensures Expressible(ApplyParts(out, parts).value)
  {
    if parts != [] {
      var init := parts[..|parts| - 1];
      hide ApplyPart, Expressible;
      PartsKeepExpressible(out, init);
      PartKeepsExpressible(ApplyParts(out, init).value, parts[|parts| - 1]);
    }
  }

  lemma ParsedIsExpressible(query: string)
    requires Parsed(query).Ok?
    ensures Expressible(Parsed(query).value)
  {
    SplitPieces(query, '&');
    assert Expressible(EMPTY_FILTER);
    hide Expressible, Split, ApplyParts;
    if query != "" { PartsKeepExpressible(EMPTY_FILTER, Split(query, '&')); }
  }

  /** The filters some query string denotes are exactly the expressible ones. */
  lemma ExpressibleIffSomeQuery(f: Filter)
    ensures Expressible(f) <==> exists query :: Parsed(query) == Ok(f)
  {
    if Expressible(f) { QueryRoundTrip(f); }
    hide Expressible, Parsed;
    if query :| Parsed(query) == Ok(f) { ParsedIsExpressible(query); }
  }
}
