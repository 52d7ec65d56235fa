/**
 The per-pane agent capacity cache: in-band markers are its primary source, a
 file poller its fallback. Two clocks govern it: marker data suppresses full file
 updates for thirty seconds, and an entry not touched for sixty is swept.
 */
module PaneCapacity {
  import opened Wrappers

  const STALE_TTL: nat := 60
  const MARKER_FRESH: nat := 30

  type PaneId = nat

  datatype Entry = Entry(
    contextPercent: Option<real>, model: Option<string>, status: Option<string>, sessionId: string,
    sessionTitle: Option<string>, currentTool: Option<string>, workingDir: Option<string>,
    environment: Option<string>, updatedAt: nat, lastSeenAt: nat, markerSeenAt: nat)

  const DEFAULT_ENTRY := Entry(None, None, None, "", None, None, None, None, 0, 0, 0)

  /** The fields a marker may carry. */
  datatype Patch = Patch(
    sessionId: Option<string>, status: Option<string>, currentTool: Option<string>, cwd: Option<string>,
    contextPercent: Option<real>, model: Option<string>, environment: Option<string>)

  /** What the poller read from a session's state file. */
  datatype FileState = FileState(
    contextPercent: Option<real>, model: Option<string>, status: string, sessionId: string,
    sessionTitle: Option<string>, currentTool: Option<string>, workingDir: Option<string>)

  type Cache = map<PaneId, Entry>

  function Or<T>(a: Option<T>, b: Option<T>): Option<T> {
    if a.Some? then a else b
  }

  function EntryFromState(f: FileState, now: nat): Entry {
    Entry(f.contextPercent, f.model, Some(f.status), f.sessionId, f.sessionTitle, f.currentTool, f.workingDir,
          None, now, now, 0)
  }

  function Patched(e: Entry, p: Patch, now: nat): Entry {
    Entry(Or(p.contextPercent, e.contextPercent), Or(p.model, e.model), Or(p.status, e.status),
          p.sessionId.GetOr(e.sessionId), e.sessionTitle, Or(p.currentTool, e.currentTool), Or(p.cwd, e.workingDir),
          Or(p.environment, e.environment), now, now, now)
  }

  function Merged(e: Entry, f: Entry, now: nat): Entry {
    e.(contextPercent := Or(f.contextPercent, e.contextPercent), model := Or(f.model, e.model),
       sessionTitle := Or(f.sessionTitle, e.sessionTitle), lastSeenAt := now)
  }

  /** Subtraction of clock readings saturates at zero. */
  function Minus(a: nat, b: nat): nat {
    if a < b then 0 else a - b
  }

  predicate Fresh(c: Cache, pane: PaneId, now: nat) {
    pane in c && c[pane].markerSeenAt > 0 && Minus(now, c[pane].markerSeenAt) < MARKER_FRESH
  }

  function Marked(c: Cache, pane: PaneId, p: Patch, now: nat): Cache {
    c[pane := Patched(if pane in c then c[pane] else DEFAULT_ENTRY, p, now)]
  }

  /** The bridge's decision: merge into a fresh entry, replace any other. */
  function Polled(c: Cache, pane: PaneId, f: FileState, now: nat): Cache {
    if Fresh(c, pane, now) then c[pane := Merged(c[pane], EntryFromState(f, now), now)]
    else c[pane := EntryFromState(f, now)]
  }

  function WithoutSession(c: Cache, key: string): Cache {
    map pane | pane in c && c[pane].sessionId != key :: c[pane]
  }

  function Swept(c: Cache, ttl: nat, now: nat): Cache {
    map pane | pane in c && c[pane].lastSeenAt >= Minus(now, ttl) :: c[pane]
  }

  class PaneCapacityCache {
    var entries: Cache

    constructor ()
      ensures entries == map[]
    {
      entries := map[];
    }

    method Upsert(pane: PaneId, entry: Entry)
      modifies this
      ensures entries == old(entries)[pane := entry]
    {
      entries := entries[pane := entry];
    }

    method UpsertFromMarker(pane: PaneId, patch: Patch, now: nat)
      modifies this
      ensures entries == old(Marked(entries, pane, patch, now))
    {
      var entry := if pane in entries then entries[pane] else DEFAULT_ENTRY;
      entry := entry.(sessionId := patch.sessionId.GetOr(entry.sessionId));
      entry := entry.(status := Or(patch.status, entry.status));
      entry := entry.(currentTool := Or(patch.currentTool, entry.currentTool));
      entry := entry.(workingDir := Or(patch.cwd, entry.workingDir));
      entry := entry.(contextPercent := Or(patch.contextPercent, entry.contextPercent));
      entry := entry.(model := Or(patch.model, entry.model));
      entry := entry.(environment := Or(patch.environment, entry.environment));
      entry := entry.(markerSeenAt := now, lastSeenAt := now, updatedAt := now);
      entries := entries[pane := entry];
    }

    method IsMarkerFresh(pane: PaneId, now: nat) returns (yes: bool)
      ensures yes == Fresh(entries, pane, now)
    {
      if pane !in entries { return false; }
      var e := entries[pane];
      yes := e.markerSeenAt > 0 && Minus(now, e.markerSeenAt) < MARKER_FRESH;
    }

    method MergeFilePolledFields(pane: PaneId, fileEntry: Entry, now: nat)
      modifies this
      ensures entries
        == old(if pane in entries then entries[pane := Merged(entries[pane], fileEntry, now)] else entries)
    {
      if pane in entries {
        var entry := entries[pane];
        if fileEntry.contextPercent.Some? { entry := entry.(contextPercent := fileEntry.contextPercent); }
        if fileEntry.model.Some? { entry := entry.(model := fileEntry.model); }
        if fileEntry.sessionTitle.Some? { entry := entry.(sessionTitle := fileEntry.sessionTitle); }
        entries := entries[pane := entry.(lastSeenAt := now)];
      }
    }

    method RemoveBySessionId(key: string)
      modifies this
      ensures entries == old(WithoutSession(entries, key))
    {
      entries := map pane | pane in entries && entries[pane].sessionId != key :: entries[pane];
    }

    method EvictStale(ttl: nat, now: nat) returns (evicted: nat)
      modifies this
      ensures entries == old(Swept(entries, ttl, now))
      ensures evicted == |old(entries)| - |entries|
    {
      var before := |entries|;
      var kept := Swept(entries, ttl, now);
      assert kept.Keys <= entries.Keys;
      assert |kept.Keys| <= |entries.Keys| by { FewerKeys(kept.Keys, entries.Keys); }
      entries := kept;
      evicted := before - |entries|;
    }
  }

  lemma FewerKeys(a: set<PaneId>, b: set<PaneId>)
    requires a <= b
    ensures |a| <= |b|
  {
    assert b == a + (b - a);
  }

  /** What the poller reports: a state with the pane it was resolved to, if any, or a removed file. */
  datatype Update =
    | Upserted(pane: Option<PaneId>, state: FileState)
    | Removed(stem: Option<string>, session: Option<string>)

  function EvictKey(u: Update): Option<string>
    requires u.Removed?
  {
    if u.session.Some? && u.session.value != "" then u.session
    else if u.stem.Some? && u.stem.value != "" then u.stem
    else None
  }

  function Applied(c: Cache, u: Update, now: nat): Cache {
    match u
    case Upserted(pane, state) => if pane.Some? then Polled(c, pane.value, state, now) else c
    case Removed(_, _) => if EvictKey(u).Some? then WithoutSession(c, EvictKey(u).value) else c
  }

  /** One round of the bridge: apply the update, then sweep. */
  method BridgeTick(cache: PaneCapacityCache, u: Update, now: nat)
    modifies cache
    ensures cache.entries == old(Swept(Applied(cache.entries, u, now), STALE_TTL, now))
  {
    hide Swept, WithoutSession;
    match u {
      case Upserted(pane, state) =>
        if pane.Some? {
          var fileEntry := EntryFromState(state, now);
          var isFresh := cache.IsMarkerFresh(pane.value, now);
          if isFresh {
            cache.MergeFilePolledFields(pane.value, fileEntry, now);
          } else {
            cache.Upsert(pane.value, fileEntry);
          }
        }
      case Removed(stem, session) =>
        var key := EvictKey(u);
        if key.Some? { cache.RemoveBySessionId(key.value); }
    }
    var _ := cache.EvictStale(STALE_TTL, now);
  }

  // ── Runs ─────────────────────────────────────────────────────────────────

  /** Markers come from their own thread, so they fall between any two steps of the bridge. */
  datatype Step =
    | Marker(pane: PaneId, patch: Patch, now: nat)
    | FilePoll(pane: PaneId, state: FileState, now: nat)
    | Remove(key: string, now: nat)
    | Sweep(now: nat)

  function Next(c: Cache, step: Step): Cache {
    match step
    case Marker(pane, patch, now) => Marked(c, pane, patch, now)
    case FilePoll(pane, state, now) => Polled(c, pane, state, now)
    case Remove(key, _) => WithoutSession(c, key)
    case Sweep(now) => Swept(c, STALE_TTL, now)
  }

  function Run(c: Cache, steps: seq<Step>): Cache {
    if steps == [] then c else Next(Run(c, steps[..|steps| - 1]), steps[|steps| - 1])
  }

  ghost predicate Ordered(steps: seq<Step>) {
    forall i, j :: 0 <= i < j < |steps| ==> steps[i].now <= steps[j].now
  }

  ghost predicate UpTo(steps: seq<Step>, now: nat) {
    forall i :: 0 <= i < |steps| ==> steps[i].now <= now
  }

  predicate Touches(step: Step, pane: PaneId) {
    (step.Marker? || step.FilePoll?) && step.pane == pane
  }

  predicate RemovesPane(c: Cache, step: Step, pane: PaneId) {
    step.Remove? && pane in c && c[pane].sessionId == step.key
  }

  /** When the pane was last touched, unless its session was removed since. */
  function LastTouch(c: Cache, steps: seq<Step>, pane: PaneId): Option<nat> {
    if steps == [] then None
    else
      var before, step := steps[..|steps| - 1], steps[|steps| - 1];
      if Touches(step, pane) then Some(step.now)
      else if RemovesPane(Run(c, before), step, pane) then None
      else LastTouch(c, before, pane)
  }

  /** The three clocks of an entry never overtake each other or the time. */
  ghost predicate Timed(c: Cache, now: nat) {
    forall pane :: pane in c ==>
        c[pane].markerSeenAt <= c[pane].lastSeenAt <= now && c[pane].updatedAt <= c[pane].lastSeenAt
  }

  lemma {:induction false} ClocksOrdered(steps: seq<Step>, c: Cache, now: nat)
    requires Ordered(steps) && UpTo(steps, now) && c == Run(map[], steps)
    ensures Timed(c, now)
  {
    if steps != [] {
      var before, step := steps[..|steps| - 1], steps[|steps| - 1];
      ClocksOrdered(before, Run(map[], before), step.now);
    }
  }

  /** A marker-fresh pane survives every sweep, untouched. */
  lemma FreshIsNeverSwept(steps: seq<Step>, c: Cache, pane: PaneId, now: nat)
    requires Ordered(steps) && UpTo(steps, now) && c == Run(map[], steps)
    requires Fresh(c, pane, now)
    ensures pane in Swept(c, STALE_TTL, now) && Swept(c, STALE_TTL, now)[pane] == c[pane]
  {
    ClocksOrdered(steps, c, now);
  }

  /** What the cache knows of a pane against the pane's history. */
  ghost predicate Remembers(c: Cache, touched: Option<nat>, pane: PaneId, now: nat) {
    && (pane in c ==> touched == Some(c[pane].lastSeenAt))
    && (touched.Some? && touched.value >= Minus(now, STALE_TTL) ==> pane in c)
  }

  lemma {:induction false} CacheRemembers(steps: seq<Step>, c: Cache, pane: PaneId, now: nat)
    requires Ordered(steps) && UpTo(steps, now) && c == Run(map[], steps)
    ensures Remembers(c, LastTouch(map[], steps, pane), pane, now)
  {
    if steps != [] {
      var before, step := steps[..|steps| - 1], steps[|steps| - 1];
      CacheRemembers(before, Run(map[], before), pane, step.now);
    }
  }

  /**
   A sweep at any moment keeps exactly the panes touched in the last sixty seconds,
   unless their session was removed.
   */
  lemma SweepKeepsRecentlyTouched(steps: seq<Step>, c: Cache, pane: PaneId, now: nat)
    requires Ordered(steps) && UpTo(steps, now) && c == Run(map[], steps)
    ensures
      var touched := LastTouch(map[], steps, pane);
      pane in Swept(c, STALE_TTL, now) <==> touched.Some? && touched.value + 60 >= now
  {
    CacheRemembers(steps, c, pane, now);
  }

  // ── Markers outrank files while they are fresh ───────────────────────────

  datatype Field = Status | Session | Cwd | Tool

  function Carried(p: Patch, f: Field): Option<string> {
    match f case Status => p.status case Session => p.sessionId case Cwd => p.cwd case Tool => p.currentTool
  }

  function Held(e: Entry, f: Field): Option<string> {
    match f
    case Status => e.status
    case Session => Some(e.sessionId)
    case Cwd => e.workingDir
    case Tool => e.currentTool
  }

  /** A poll that does not merge replaces the entry whole. */
  predicate Replaces(c: Cache, step: Step, pane: PaneId) {
    step.FilePoll? && step.pane == pane && !Fresh(c, pane, step.now)
  }

  predicate Carries(step: Step, pane: PaneId, f: Field) {
    step.Marker? && step.pane == pane && Carried(step.patch, f).Some?
  }

  /**
   The value of the field that a marker carried last since the pane's entry was
   last replaced whole, that is by a poll while the pane was not fresh, or lost.
   */
  function LastCarried(c: Cache, steps: seq<Step>, pane: PaneId, f: Field): Option<string> {
    if steps == [] then None
    else
      var before, step := steps[..|steps| - 1], steps[|steps| - 1];
      if pane !in Run(c, steps) || Replaces(Run(c, before), step, pane) then None
      else if Carries(step, pane, f) then Carried(step.patch, f)
      else LastCarried(c, before, pane, f)
  }

  /**
   In every run a value that a marker carried is held until the entry is replaced
   whole or lost, or a marker carries another.
   */
  lemma {:induction false} HoldsLastCarried(steps: seq<Step>, c: Cache, pane: PaneId, f: Field)
    requires c == Run(map[], steps)
    ensures
      var carried := LastCarried(map[], steps, pane, f);
      carried.Some? ==> pane in c && Held(c[pane], f) == carried
  {
    if steps != [] {
      var before, step := steps[..|steps| - 1], steps[|steps| - 1];
      HoldsLastCarried(before, Run(map[], before), pane, f);
      hide Next, Replaces, Carries;
    }
  }

  /**
   Seen from the clock: every poll of the pane comes within thirty seconds of an
   earlier marker of it, every sweep within sixty of something that touched it,
   no later marker carries the field, and its session is not removed.
   */
  ghost predicate Sustained(c: Cache, steps: seq<Step>, pane: PaneId, f: Field) {
    forall i :: 0 < i < |steps| ==> Spares(Run(c, steps[..i]), steps[..i], steps[i], pane, f)
  }

  ghost predicate Spares(c: Cache, before: seq<Step>, step: Step, pane: PaneId, f: Field) {
    && !Carries(step, pane, f) && !RemovesPane(c, step, pane)
    && (step.FilePoll? && step.pane == pane ==> MarkedWithin(before, pane, step.now))
    && (step.Sweep? ==> TouchedWithin(before, pane, step.now))
  }

  ghost predicate MarkedWithin(steps: seq<Step>, pane: PaneId, now: nat) {
    exists j :: 0 <= j < |steps| && steps[j].Marker? && steps[j].pane == pane && now < steps[j].now + MARKER_FRESH
  }

  ghost predicate TouchedWithin(steps: seq<Step>, pane: PaneId, now: nat) {
    exists j :: 0 <= j < |steps| && Touches(steps[j], pane) && now <= steps[j].now + STALE_TTL
  }

  /** The pane holds the value, and its clocks are not behind any step that set them. */
  ghost predicate Holds(c: Cache, steps: seq<Step>, pane: PaneId, f: Field, value: string) {
    && pane in c && Held(c[pane], f) == Some(value) && c[pane].markerSeenAt > 0
    && (forall j :: 0 <= j < |steps| && steps[j].Marker? && steps[j].pane == pane ==>
        steps[j].now <= c[pane].markerSeenAt)
    && (forall j :: 0 <= j < |steps| && Touches(steps[j], pane) ==> steps[j].now <= c[pane].lastSeenAt)
  }

  lemma StepKeepsValue(c: Cache, before: seq<Step>, step: Step, pane: PaneId, f: Field, value: string)
    requires Holds(c, before, pane, f, value) && UpTo(before, step.now)
    requires Spares(c, before, step, pane, f)
    requires step.now > 0
    ensures Holds(Next(c, step), before + [step], pane, f, value)
  {
    if step.FilePoll? && step.pane == pane { assert Fresh(c, pane, step.now); }
    if step.Sweep? { assert c[pane].lastSeenAt >= Minus(step.now, STALE_TTL); }
    assert pane in Next(c, step);
  }

  lemma SustainedBefore(c: Cache, steps: seq<Step>, pane: PaneId, f: Field)
    requires |steps| > 1 && Ordered(steps) && Sustained(c, steps, pane, f)
    ensures
      var n := |steps| - 1;
      && Ordered(steps[..n]) && Sustained(c, steps[..n], pane, f) && UpTo(steps[..n], steps[n].now)
      && Spares(Run(c, steps[..n]), steps[..n], steps[n], pane, f)
  {
    hide Spares, Run;
    var n := |steps| - 1;
    var before := steps[..n];
    forall i | 0 < i < n
      ensures Spares(Run(c, before[..i]), before[..i], before[i], pane, f)
    {
      assert before[..i] == steps[..i];
    }
  }

  lemma MarkerHolds(c: Cache, marker: Step, f: Field, value: string)
    requires marker.Marker? && marker.now > 0 && Carried(marker.patch, f) == Some(value)
    ensures Holds(Next(c, marker), [marker], marker.pane, f, value)
  {
  }

  lemma {:induction false} SustainedHolds(c: Cache, steps: seq<Step>, pane: PaneId, f: Field, value: string)
    requires steps != [] && steps[0].Marker? && steps[0].pane == pane && steps[0].now > 0
    requires Carried(steps[0].patch, f) == Some(value)
    requires Ordered(steps) && Sustained(c, steps, pane, f)
    ensures Holds(Run(c, steps), steps, pane, f, value)
  {
    var n := |steps| - 1;
    var before := steps[..n];
    assert Run(c, steps) == Next(Run(c, before), steps[n]);
    assert before + [steps[n]] == steps;
    if n == 0 {
      assert Run(c, before) == c && steps == [steps[0]];
      hide *;
      MarkerHolds(c, steps[0], f, value);
    } else {
      assert steps[0].now <= steps[n].now;
      hide *;
      SustainedBefore(c, steps, pane, f);
      SustainedHolds(c, before, pane, f, value);
      StepKeepsValue(Run(c, before), before, steps[n], pane, f, value);
    }
  }

  /**
   Whatever files are polled and whatever is swept, the entry holds the value a
   marker carried for as long as further markers, with the field or without it,
   keep the pane fresh at every poll.
   */
  lemma MarkerOutranksFiles(c: Cache, steps: seq<Step>, d: Cache, pane: PaneId, f: Field)
    requires steps != [] && steps[0].Marker? && steps[0].pane == pane && steps[0].now > 0
    requires Carried(steps[0].patch, f).Some?
    requires Ordered(steps) && Sustained(c, steps, pane, f) && d == Run(c, steps)
    ensures pane in d && Held(d[pane], f) == Carried(steps[0].patch, f)
  {
    SustainedHolds(c, steps, pane, f, Carried(steps[0].patch, f).value);
  }

  /**
   The fields only files carry reliably are never held back by fresh markers: a
   poll delivers each one the file has, and loses an older value only when the
   file has none and the pane is not fresh.
   */
  lemma PollDeliversFileFields(c: Cache, pane: PaneId, state: FileState, now: nat, e: Entry)
    requires e == Polled(c, pane, state, now)[pane]
    ensures state.contextPercent.Some? ==> e.contextPercent == state.contextPercent
    ensures state.model.Some? ==> e.model == state.model
    ensures state.sessionTitle.Some? ==> e.sessionTitle == state.sessionTitle
    ensures pane in c && state.model.None? && c[pane].model.Some? ==>
      (e.model == c[pane].model <==> Fresh(c, pane, now))
    ensures e.lastSeenAt == now
  {
  }

  /**
   The bridge asks for freshness and writes under separate locks. If a marker
   falls between the two, its values survive only if the pane was fresh before,
   or the file happens to say the same.
   */
  lemma MarkerBetweenCheckAndWrite(c: Cache, pane: PaneId, p: Patch, state: FileState, f: Field, now: nat)
    requires Carried(p, f).Some?
    ensures
      var between := Marked(c, pane, p, now);
      var written := if Fresh(c, pane, now) then between[pane := Merged(between[pane], EntryFromState(state, now), now)]
                     else between[pane := EntryFromState(state, now)];
      Held(written[pane], f) == Carried(p, f) <==>
      Fresh(c, pane, now) || Held(EntryFromState(state, now), f) == Carried(p, f)
  {
    match f { case Status => case Session => case Cwd => case Tool => }
  }

  // ── What an entry holds, from the history ────────────────────────────────

  function FileSays(state: FileState, f: Field): Option<string> {
    match f
    case Status => Some(state.status)
    case Session => Some(state.sessionId)
    case Cwd => state.workingDir
    case Tool => state.currentTool
  }

  /** The file's word counts unless a marker of the pane is less than thirty seconds old. */
  predicate FileDecides(c: Cache, pane: PaneId, now: nat) {
    !(pane in c && c[pane].markerSeenAt > 0 && now < c[pane].markerSeenAt + 30)
  }

  /**
   What was said last of the field: by a marker that carries it, or by a file that
   decides. A new entry begins with nothing said, and an empty session.
   */
  function LastSaid(steps: seq<Step>, pane: PaneId, f: Field): Option<string> {
    var unsaid := if f == Session then Some("") else None;
    if steps == [] then unsaid
    else
      var before, step := steps[..|steps| - 1], steps[|steps| - 1];
      var c := Run(map[], before);
      if Carries(step, pane, f) then Carried(step.patch, f)
      else if step.FilePoll? && step.pane == pane && FileDecides(c, pane, step.now) then FileSays(step.state, f)
      else if pane !in c then unsaid
      else LastSaid(before, pane, f)
  }

  /** In every run status, session, directory and tool of a pane are what was said of them last. */
  lemma {:induction false} EntryHoldsLastSaid(steps: seq<Step>, c: Cache, pane: PaneId, f: Field)
    requires c == Run(map[], steps)
    ensures pane in c ==> Held(c[pane], f) == LastSaid(steps, pane, f)
  {
    if steps != [] {
      var before, step := steps[..|steps| - 1], steps[|steps| - 1];
      EntryHoldsLastSaid(before, Run(map[], before), pane, f);
      hide Run;
    }
  }

  /**
   Every field of an entry after a poll. A file that decides leaves nothing of what was
   there; any other adds its percentage, model and title and refreshes the entry.
   */
  lemma PollLeaves(c: Cache, pane: PaneId, state: FileState, now: nat, e: Entry)
    requires e == Polled(c, pane, state, now)[pane]
    ensures FileDecides(c, pane, now) ==>
              && e.contextPercent == state.contextPercent && e.model == state.model
              && e.sessionTitle == state.sessionTitle && e.environment == None
              && e.updatedAt == now && e.markerSeenAt == 0
    ensures !FileDecides(c, pane, now) ==>
              && e.contextPercent
                 == (if state.contextPercent.Some? then state.contextPercent else c[pane].contextPercent)
              && e.model == (if state.model.Some? then state.model else c[pane].model)
              && e.sessionTitle == (if state.sessionTitle.Some? then state.sessionTitle else c[pane].sessionTitle)
              && e.environment == c[pane].environment && e.updatedAt == c[pane].updatedAt
              && e.markerSeenAt == c[pane].markerSeenAt
    ensures e.lastSeenAt == now
    ensures forall p :: p in c && p != pane ==>
              p in Polled(c, pane, state, now) && Polled(c, pane, state, now)[p] == c[p]
  {
  }

  /** Every field of an entry after a marker: what it carries, else what was there, and all clocks at now. */
  lemma MarkerLeaves(c: Cache, pane: PaneId, p: Patch, now: nat, e: Entry)
    requires e == Marked(c, pane, p, now)[pane]
    ensures p.contextPercent.Some? ==> e.contextPercent == p.contextPercent
    ensures p.model.Some? ==> e.model == p.model
    ensures p.environment.Some? ==> e.environment == p.environment
    ensures p.contextPercent.None? ==> e.contextPercent == if pane in c then c[pane].contextPercent else None
    ensures p.model.None? ==> e.model == if pane in c then c[pane].model else None
    ensures p.environment.None? ==> e.environment == if pane in c then c[pane].environment else None
    ensures e.sessionTitle == if pane in c then c[pane].sessionTitle else None
    ensures e.updatedAt == e.lastSeenAt == e.markerSeenAt == now
    ensures forall q :: q in c && q != pane ==> q in Marked(c, pane, p, now) && Marked(c, pane, p, now)[q] == c[q]
  {
  }

  /** A removed file takes out the session it names, or else the one its file name gives; neither may be empty. */
  lemma RemovalTakesOutTheSession(c: Cache, stem: Option<string>, session: Option<string>, now: nat, pane: PaneId)
    ensures
      var named := session.Some? && session.value != "";
      var d := Applied(c, Removed(stem, session), now);
      && (pane in d ==> pane in c && d[pane] == c[pane])
      && (pane in c && pane !in d <==>
            && pane in c
            && ((named && c[pane].sessionId == session.value)
                || (!named && stem.Some? && stem.value != "" && c[pane].sessionId == stem.value)))
  {
  }

  /** A state without a pane changes nothing, any other is a poll of its pane. */
  lemma StateIsPolledForItsPane(c: Cache, pane: PaneId, state: FileState, now: nat)
    ensures Applied(c, Upserted(None, state), now) == c
    ensures Applied(c, Upserted(Some(pane), state), now) == Polled(c, pane, state, now)
  {
  }
}
