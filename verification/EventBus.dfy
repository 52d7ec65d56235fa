/**
 The event bus with publishes serialised: a bounded ring of events under a
 monotonic cursor, read in filtered pages that can be resumed.
 */
module EventBus {
  import opened Wrappers
  import opened EventFilter
  import opened Selection

  const MAX_BODY_BYTES: nat := 64 * 1024
  const MAX_PAGE_SIZE: nat := 500

  datatype Page = Page(events: seq<Event>, nextCursor: nat, hasMore: bool)

  datatype Stats = Stats(total: nat, harness: nat, pattern: nat, core: nat, bufferUsed: nat, bufferCapacity: nat,
      currentCursor: nat)

  function BodyBytes(body: Body): nat {
    match body case Json(n, _) => n case TooLarge(_, _, _, _) => 0
  }

  /** The event that is stored: time-stamped, and replaced by a core event when its body is over the cap. */
  function Prepared(e: Event, now: nat): Event {
    var stamped := if e.tsMs == 0 then e.(tsMs := now) else e;
    if BodyBytes(e.body) > MAX_BODY_BYTES then
      Event(Core, "event-bus", "bus.body_too_large", e.paneId, stamped.tsMs, 0,
            TooLarge(e.sourceClass, e.sourceId, e.kind, BodyBytes(e.body)))
    else stamped
  }

  /**
   What is kept of an event published at some time under a cursor: the event itself,
   stamped if it bore no time, if its body has at most 64 KB; otherwise a core event for
   the same pane and time whose body names what it stands for.
   */
  ghost predicate StoredAs(e: Event, now: nat, cursor: nat, stored: Event) {
    && stored.cursor == cursor && stored.paneId == e.paneId
    && stored.tsMs == (if e.tsMs == 0 then now else e.tsMs)
    && (if e.body.Json? && e.body.bytes > 65536
        then stored.sourceClass == Core && stored.sourceId == "event-bus" && stored.kind == "bus.body_too_large"
             && stored.body == TooLarge(e.sourceClass, e.sourceId, e.kind, e.body.bytes)
        else stored.sourceClass == e.sourceClass && stored.sourceId == e.sourceId && stored.kind == e.kind
             && stored.body == e.body)
  }

  lemma PreparedIsStored(e: Event, now: nat, cursor: nat)
    ensures StoredAs(e, now, cursor, Prepared(e, now).(cursor := cursor))
  {
  }

  // ── The bus as a value ───────────────────────────────────────────────────

  datatype Bus = Bus(ring: seq<Event>, capacity: nat, cursor: nat, total: nat, harness: nat, pattern: nat, core: nat)

  function Published(b: Bus, e: Event, now: nat): Bus {
    var stored := Prepared(e, now).(cursor := b.cursor + 1);
    var kept := if |b.ring| == b.capacity && b.ring != [] then b.ring[1..] else b.ring;
    Bus(kept + [stored], b.capacity, b.cursor + 1, b.total + 1,
        if stored.sourceClass == Harness then b.harness + 1 else b.harness,
        if stored.sourceClass == Pattern then b.pattern + 1 else b.pattern,
        if stored.sourceClass == Core then b.core + 1 else b.core)
  }

  /** The ring's events beyond the filter's cursor that the filter accepts, in ring order. */
  function Pending(ring: seq<Event>, f: Filter): seq<Event> {
    Select(ring, (e: Event) => Waiting(f, e))
  }

  predicate Waiting(f: Filter, e: Event) {
    e.cursor > f.since && Accepts(f, e)
  }

  function Clamped(limit: nat): nat {
    if limit < 1 then 1 else if limit > MAX_PAGE_SIZE then MAX_PAGE_SIZE else limit
  }

  function PageOf(ring: seq<Event>, f: Filter, limit: nat): Page {
    var pending := Pending(ring, f);
    var n := if |pending| < Clamped(limit) then |pending| else Clamped(limit);
    Page(pending[..n], if n == 0 then f.since else pending[n - 1].cursor, n < |pending|)
  }

  /**
   A page holds every waiting event if they fit, and otherwise as many as are asked for,
   at least one and at most 500.
   */
  lemma PageSize(ring: seq<Event>, f: Filter, limit: nat)
    ensures
      var waiting, n := |Pending(ring, f)|, |PageOf(ring, f, limit).events|;
      && n <= 500 && (limit > 0 ==> n <= limit) && (limit == 0 ==> n <= 1)
      && (n == waiting || n == 500 || n == limit || (limit == 0 && n == 1))
      && PageOf(ring, f, limit).events == Pending(ring, f)[..n]
  {
    hide Pending;
  }

  /**
   Cursors are consecutive up to the current one, the ring is within its
   capacity, and every event published is counted once in its class.
   */
  ghost predicate BusOK(b: Bus) {
    && |b.ring| <= b.capacity && |b.ring| <= b.cursor && 0 < b.capacity
    && (forall i :: 0 <= i < |b.ring| ==> b.ring[i].cursor == b.cursor - |b.ring| + i + 1)
    && b.harness + b.pattern + b.core == b.total == b.cursor
  }

  lemma PublishKeepsOK(b: Bus, e: Event, now: nat)
    requires BusOK(b)
    ensures BusOK(Published(b, e, now))
  {
    var c := Published(b, e, now);
    forall i | 0 <= i < |c.ring| ensures c.ring[i].cursor == c.cursor - |c.ring| + i + 1 {
      if i < |c.ring| - 1 {
        assert c.ring[i] == if |b.ring| == b.capacity then b.ring[i + 1] else b.ring[i];
      }
    }
  }

  // ── The object ───────────────────────────────────────────────────────────

  class EventBus {
    var ring: seq<Event>
    var capacity: nat
    var cursor: nat
    var totalEvents: nat
    var eventsHarness: nat
    var eventsPattern: nat
    var eventsCore: nat

    function State(): Bus
      reads this
    {
      Bus(ring, capacity, cursor, totalEvents, eventsHarness, eventsPattern, eventsCore)
    }

    ghost predicate Valid()
      reads this
    {
      BusOK(State())
    }

    constructor (requested: nat)
      ensures Valid() && ring == [] && cursor == 0
      ensures capacity == if requested < 16 then 16 else requested
    {
      ring, capacity, cursor := [], if requested < 16 then 16 else requested, 0;
      totalEvents, eventsHarness, eventsPattern, eventsCore := 0, 0, 0, 0;
    }

    method Publish(e: Event, now: nat) returns (newCursor: nat)
      requires Valid()
      modifies this
      ensures Valid()
      ensures State() == old(Published(State(), e, now)) && newCursor == cursor == old(cursor) + 1
      ensures ring != [] && ring[..|ring| - 1] == old(if |ring| == capacity then ring[1..] else ring)
      ensures StoredAs(e, now, newCursor, ring[|ring| - 1])
      ensures eventsHarness == old(eventsHarness) + (if ring[|ring| - 1].sourceClass == Harness then 1 else 0)
      ensures eventsPattern == old(eventsPattern) + (if ring[|ring| - 1].sourceClass == Pattern then 1 else 0)
      ensures eventsCore == old(eventsCore) + (if ring[|ring| - 1].sourceClass == Core then 1 else 0)
    {
      PublishKeepsOK(State(), e, now);
      PreparedIsStored(e, now, cursor + 1);
      hide StoredAs, Prepared;
      var event := Prepared(e, now);
      cursor := cursor + 1;
      event := event.(cursor := cursor);
      match event.sourceClass {
        case Harness => eventsHarness := eventsHarness + 1;
        case Pattern => eventsPattern := eventsPattern + 1;
        case Core => eventsCore := eventsCore + 1;
      }
      totalEvents := totalEvents + 1;
      if |ring| == capacity {
        ring := ring[1..];
      }
      ring := ring + [event];
      newCursor := cursor;
    }

    method Query(f: Filter, requested: nat) returns (page: Page)
      ensures page == PageOf(ring, f, requested)
    {
      hide Accepts;
      var limit := Clamped(requested);
      var events: seq<Event>, lastCursor, more := [], f.since, false;
      var i := 0;
      while i < |ring| && !more
        invariant 0 <= i <= |ring|
        invariant |events| <= limit && lastCursor == if events == [] then f.since else events[|events| - 1].cursor
        invariant !more ==> events == Pending(ring[..i], f)
        invariant more ==> |events| == limit && 0 < i && Waiting(f, ring[i - 1]) && events == Pending(ring[..i - 1], f)
      {
        SelectSnoc(ring, (e: Event) => Waiting(f, e), i);
        var e := ring[i];
        i := i + 1;
        if e.cursor <= f.since { continue; }
        var accepted := FilterMatches(f, e);
        if !accepted { continue; }
        if |events| == limit {
          more := true;
        } else {
          lastCursor := e.cursor;
          events := events + [e];
        }
      }
      page := Page(events, lastCursor, more);
      assert ring[..|ring|] == ring;
      if more {
        SelectPrefix(ring, (e: Event) => Waiting(f, e), i);
        SelectSnoc(ring, (e: Event) => Waiting(f, e), i - 1);
      }
    }

    method GetStats() returns (stats: Stats)
      requires Valid()
      ensures stats == Stats(totalEvents, eventsHarness, eventsPattern, eventsCore, |ring|, capacity, cursor)
      ensures stats.harness + stats.pattern + stats.core == stats.total == stats.currentCursor
      ensures stats.bufferUsed <= stats.bufferCapacity
    {
      stats := Stats(totalEvents, eventsHarness, eventsPattern, eventsCore, |ring|, capacity, cursor);
    }
  }

  // ── A reader that resumes with the returned cursor ───────────────────────

  datatype Step = Publish(e: Event, now: nat) | Read(limit: nat)

  /**
   A bus, everything ever published on it, and one reader. `lost` collects the
   cursors that were already evicted when a page moved the reader past them.
   */
  datatype Reading = Reading(bus: Bus, log: seq<Event>, filter: Filter, start: nat, got: seq<Event>, lost: set<nat>)

  /** The cursors above `from`, up to and including `to`. */
  function CursorRange(from: nat, to: nat): (cursors: set<nat>)
    ensures forall c :: c in cursors <==> from < c <= to
  {
    if to <= from then {} else CursorRange(from, to - 1) + {to}
  }

  function Evicted(b: Bus): nat {
    if |b.ring| <= b.cursor then b.cursor - |b.ring| else 0
  }

  function Min(a: nat, b: nat): nat {
    if a < b then a else b
  }

  function NextReading(r: Reading, step: Step): Reading {
    match step
    case Publish(e, now) =>
      var bus := Published(r.bus, e, now);
      r.(bus := bus, log := r.log + [Prepared(e, now).(cursor := bus.cursor)])
    case Read(limit) =>
      var page := PageOf(r.bus.ring, r.filter, limit);
      r.(filter := r.filter.(since := page.nextCursor), got := r.got + page.events,
         lost := r.lost + CursorRange(r.filter.since, Min(page.nextCursor, Evicted(r.bus))))
  }

  function RunReading(r: Reading, steps: seq<Step>): Reading {
    if steps == [] then r
    else NextReading(RunReading(r, steps[..|steps| - 1]), steps[|steps| - 1])
  }

  /** A new bus and a reader that has read nothing. */
  function StartReading(capacity: nat, filter: Filter): Reading {
    Reading(Bus([], capacity, 0, 0, 0, 0, 0), [], filter, filter.since, [], {})
  }

  predicate Wanted(f: Filter, from: nat, to: nat, except: set<nat>, e: Event) {
    from < e.cursor <= to && e.cursor !in except && Accepts(f, e)
  }

  /** The accepted events of the log with a cursor in (from, to] that are not in `except`, in publication order. */
  function Picked(log: seq<Event>, f: Filter, from: nat, to: nat, except: set<nat>): seq<Event> {
    Select(log, (e: Event) => Wanted(f, from, to, except, e))
  }

  ghost predicate Numbered(log: seq<Event>) {
    forall i :: 0 <= i < |log| ==> log[i].cursor == i + 1
  }

  ghost predicate ReadingOK(r: Reading) {
    && BusOK(r.bus) && |r.log| == r.bus.cursor && Numbered(r.log)
    && r.bus.ring == r.log[Evicted(r.bus)..]
    && r.start <= r.filter.since && (r.start < r.filter.since ==> r.filter.since <= r.bus.cursor)
    && (forall c :: c in r.lost ==> r.start < c <= r.filter.since && c <= Evicted(r.bus))
    && r.got == Picked(r.log, r.filter, r.start, r.filter.since, r.lost)
  }

  function LastCursor(ring: seq<Event>, f: Filter, n: nat): nat
    requires n <= |Pending(ring, f)|
  {
    if n == 0 then f.since else Pending(ring, f)[n - 1].cursor
  }

  ghost predicate Ascending(events: seq<Event>) {
    forall i, j :: 0 <= i < j < |events| ==> events[i].cursor < events[j].cursor
  }

  /** In an ascending ring the first n pending events are the pending ones up to the n-th's cursor. */
  lemma {:induction false} PageByCursor(ring: seq<Event>, f: Filter, n: nat)
    requires Ascending(ring) && n <= |Pending(ring, f)|
    ensures Pending(ring, f)[..n] == Picked(ring, f, f.since, LastCursor(ring, f, n), {})
  {
    hide Accepts;
    var waiting := (e: Event) => Waiting(f, e);
    var to := LastCursor(ring, f, n);
    var wanted := (e: Event) => Wanted(f, f.since, to, {}, e);
    if n == |Pending(ring, f)| {
      forall i | 0 <= i < |ring| ensures waiting(ring[i]) == wanted(ring[i]) {
        if waiting(ring[i]) { SelectedBeforeLast(ring, waiting, i); }
      }
      SelectCongruent(ring, waiting, wanted);
    } else {
      var init := ring[..|ring| - 1];
      SelectSnoc(ring, waiting, |ring| - 1);
      SelectSnoc(ring, wanted, |ring| - 1);
      assert ring[..|ring|] == ring;
      PageByCursor(init, f, n);
      assert Pending(ring, f)[..n] == Pending(init, f)[..n];
      if n > 0 { SelectedIsMember(init, waiting, n - 1); }
    }
  }

  /** In an ascending list every selected event is at or before the last selected one. */
  lemma {:induction false} SelectedBeforeLast(events: seq<Event>, p: Event -> bool, i: nat)
    requires Ascending(events) && i < |events| && p(events[i])
    ensures Select(events, p) != []
    ensures events[i].cursor <= Select(events, p)[|Select(events, p)| - 1].cursor
  {
    var n := |events| - 1;
    SelectSnoc(events, p, n);
    assert events[..n + 1] == events;
    if i < n {
      SelectedBeforeLast(events[..n], p, i);
    }
  }

  /** A page, cut at its own last cursor, is what the log holds beyond the reader minus what was evicted. */
  lemma PageIsPicked(log: seq<Event>, evicted: nat, f: Filter, n: nat, except: set<nat>)
    requires evicted <= |log| && Numbered(log) && n <= |Pending(log[evicted..], f)|
    requires forall c: nat :: f.since < c <= LastCursor(log[evicted..], f, n) ==> (c in except <==> c <= evicted)
    ensures Picked(log, f, f.since, LastCursor(log[evicted..], f, n), except) == Pending(log[evicted..], f)[..n]
  {
    hide Accepts, Select;
    var ring, to := log[evicted..], LastCursor(log[evicted..], f, n);
    var wanted := (e: Event) => Wanted(f, f.since, to, except, e);
    assert log == log[..evicted] + ring;
    SelectAppend(log[..evicted], ring, wanted);
    SelectNothing(log[..evicted], wanted);
    PageByCursor(ring, f, n);
    SelectCongruent(ring, wanted, (e: Event) => Wanted(f, f.since, to, {}, e));
  }

  /** In a numbered log, what is wanted up to `to` splits at any cursor in between. */
  lemma PickedSplit(log: seq<Event>, f: Filter, from: nat, mid: nat, to: nat, e0: set<nat>, e1: set<nat>)
    requires from <= mid <= to && Numbered(log)
    requires forall c: nat :: from < c <= mid ==> (c in e0 <==> c in e1)
    ensures Picked(log, f, from, to, e1) == Picked(log, f, from, mid, e0) + Picked(log, f, mid, to, e1)
  {
    hide Accepts, Select;
    var k := Min(mid, |log|);
    var low, high := log[..k], log[k..];
    assert log == low + high;
    var all, first, second := (e: Event) => Wanted(f, from, to, e1, e), (e: Event) => Wanted(f, from, mid, e0, e),
                              (e: Event) => Wanted(f, mid, to, e1, e);
    SelectAppend(low, high, all);
    SelectAppend(low, high, first);
    SelectAppend(low, high, second);
    SelectCongruent(low, all, first);
    SelectNothing(high, first);
    SelectNothing(low, second);
    SelectCongruent(high, all, second);
  }

  /** One page carries the reader on to the page's last cursor. */
  lemma PageContinues(r: Reading, n: nat, lost: set<nat>)
    requires ReadingOK(r) && n <= |Pending(r.bus.ring, r.filter)|
    requires lost == r.lost + CursorRange(r.filter.since, Min(LastCursor(r.bus.ring, r.filter, n), Evicted(r.bus)))
    ensures
      var to := LastCursor(r.bus.ring, r.filter, n);
      && r.filter.since <= to && (to == r.filter.since || to <= r.bus.cursor)
      && r.got + Pending(r.bus.ring, r.filter)[..n] == Picked(r.log, r.filter.(since := to), r.start, to, lost)
  {
    var f, to := r.filter, LastCursor(r.bus.ring, r.filter, n);
    if n > 0 { SelectedIsMember(r.bus.ring, (e: Event) => Waiting(f, e), n - 1); }
    PageIsPicked(r.log, Evicted(r.bus), f, n, lost);
    PickedSplit(r.log, f, r.start, f.since, to, r.lost, lost);
    PickedIgnoresSince(r.log, f, to, r.start, to, lost);
  }

  /** Picking does not depend on the filter's own cursor. */
  lemma PickedIgnoresSince(log: seq<Event>, f: Filter, since: nat, from: nat, to: nat, except: set<nat>)
    ensures Picked(log, f.(since := since), from, to, except) == Picked(log, f, from, to, except)
  {
    var g := f.(since := since);
    forall i | 0 <= i < |log| ensures Accepts(g, log[i]) == Accepts(f, log[i]) {
      assert g.kinds == f.kinds && g.panes == f.panes;
    }
    hide Accepts;
    SelectCongruent(log, (e: Event) => Wanted(g, from, to, except, e), (e: Event) => Wanted(f, from, to, except, e));
  }

  lemma ReadKeepsOK(r: Reading, limit: nat)
    requires ReadingOK(r)
    ensures ReadingOK(NextReading(r, Read(limit)))
  {
    hide Pending, Picked;
    var pending := Pending(r.bus.ring, r.filter);
    var n := if |pending| < Clamped(limit) then |pending| else Clamped(limit);
    PageContinues(r, n, NextReading(r, Read(limit)).lost);
  }

  lemma PublishKeepsReadingOK(r: Reading, e: Event, now: nat)
    requires ReadingOK(r)
    ensures ReadingOK(NextReading(r, Publish(e, now)))
  {
    PublishKeepsOK(r.bus, e, now);
    var q := NextReading(r, Publish(e, now));
    PickedSnoc(r.log, q.log[|r.log|], r.filter, r.start, r.filter.since, r.lost);
  }

  /** An event published beyond everything the reader has passed does not change what it has received. */
  lemma PickedSnoc(log: seq<Event>, e: Event, f: Filter, from: nat, to: nat, except: set<nat>)
    requires e.cursor > to || from == to
    ensures Picked(log + [e], f, from, to, except) == Picked(log, f, from, to, except)
  {
    SelectSnoc(log + [e], (x: Event) => Wanted(f, from, to, except, x), |log|);
    assert (log + [e])[..|log|] == log && (log + [e])[..|log| + 1] == log + [e];
  }

  lemma {:induction false} RunKeepsReadingOK(r: Reading, steps: seq<Step>)
    requires ReadingOK(r)
    ensures ReadingOK(RunReading(r, steps)) && RunReading(r, steps).start == r.start
  {
    if steps != [] {
      var before := RunReading(r, steps[..|steps| - 1]);
      RunKeepsReadingOK(r, steps[..|steps| - 1]);
      match steps[|steps| - 1]
      case Publish(e, now) => PublishKeepsReadingOK(before, e, now);
      case Read(limit) => ReadKeepsOK(before, limit);
    }
  }

  /**
   However publishes and page reads interleave, the reader has received exactly
   the accepted events between its first and its present cursor, in publication
   order and once each, except those that had left the ring before the page that
   passed them was read.
   */
  lemma ReaderGetsWhatTheRingHeld(first: Reading, capacity: nat, filter: Filter, steps: seq<Step>, r: Reading)
    requires first == StartReading(capacity, filter) && 0 < capacity && r == RunReading(first, steps)
    ensures r.got == Picked(r.log, r.filter, filter.since, r.filter.since, r.lost)
    ensures Ascending(r.got)
    ensures forall c :: c in r.lost ==> filter.since < c <= r.filter.since && c <= Evicted(r.bus)
  {
    RunKeepsReadingOK(first, steps);
    SelectedAscending(r.log, (e: Event) => Wanted(r.filter, r.start, r.filter.since, r.lost, e));
  }

  lemma {:induction false} SelectedAscending(events: seq<Event>, p: Event -> bool)
    requires Ascending(events)
    ensures Ascending(Select(events, p))
  {
    if events != [] {
      var n := |events| - 1;
      SelectedAscending(events[..n], p);
      SelectSnoc(events, p, n);
      assert events[..n + 1] == events;
      forall i | 0 <= i < |Select(events[..n], p)| ensures Select(events[..n], p)[i] in events[..n] {
        SelectedIsMember(events[..n], p, i);
      }
    }
  }

  /** What a reader holds, event by event. */
  lemma PickedIffWanted(log: seq<Event>, f: Filter, from: nat, to: nat, except: set<nat>, e: Event)
    ensures e in Picked(log, f, from, to, except) <==>
      e in log && from < e.cursor <= to && e.cursor !in except && Accepts(f, e)
  {
    SelectMembers(log, (x: Event) => Wanted(f, from, to, except, x), e);
  }

  /** A page says there is more exactly when the ring holds an accepted event beyond the page. */
  lemma HasMoreIffMoreInRing(b: Bus, f: Filter, limit: nat)
    requires BusOK(b)
    ensures
      var page := PageOf(b.ring, f, limit);
      page.hasMore <==> exists e :: e in b.ring && e.cursor > page.nextCursor && Accepts(f, e)
  {
    hide Accepts;
    var page := PageOf(b.ring, f, limit);
    var pending := Pending(b.ring, f);
    var waiting := (e: Event) => Waiting(f, e);
    var n := |page.events|;
    SelectedAscending(b.ring, waiting);
    if page.hasMore {
      SelectMembers(b.ring, waiting, pending[n]);
      assert pending[n] in b.ring && pending[n].cursor > page.nextCursor;
    }
    forall e | e in b.ring && e.cursor > page.nextCursor && Accepts(f, e)
      ensures page.hasMore
    {
      if n > 0 { SelectMembers(b.ring, waiting, pending[n - 1]); }
      SelectMembers(b.ring, waiting, e);
    }
  }

  // ── What was published ───────────────────────────────────────────────────

  /** The publishes of a run, in order, with their times. */
  function Publishes(steps: seq<Step>): seq<(Event, nat)> {
    if steps == [] then []
    else
      var last := steps[|steps| - 1];
      Publishes(steps[..|steps| - 1]) + if last.Publish? then [(last.e, last.now)] else []
  }

  /** The event is what is kept of the k-th publish. */
  ghost predicate KeptOf(published: seq<(Event, nat)>, k: nat, e: Event) {
    k < |published| && StoredAs(published[k].0, published[k].1, k + 1, e)
  }

  ghost predicate Keeps(log: seq<Event>, published: seq<(Event, nat)>) {
    |log| == |published| && forall k :: 0 <= k < |log| ==> KeptOf(published, k, log[k])
  }

  function CountIn(log: seq<Event>, kind: SourceClass): nat {
    if log == [] then 0
    else CountIn(log[..|log| - 1], kind) + if log[|log| - 1].sourceClass == kind then 1 else 0
  }

  /** The log of a run is what was published, the counters say how many of each class. */
  lemma {:induction false} LogIsWhatWasPublished(first: Reading, capacity: nat, filter: Filter, steps: seq<Step>)
    requires first == StartReading(capacity, filter) && 0 < capacity
    ensures
      var r := RunReading(first, steps);
      && Keeps(r.log, Publishes(steps)) && |r.log| == r.bus.cursor
      && r.bus.harness == CountIn(r.log, Harness) && r.bus.pattern == CountIn(r.log, Pattern)
      && r.bus.core == CountIn(r.log, Core)
      && r.filter == filter.(since := r.filter.since)
  {
    if steps != [] {
      var before, last := RunReading(first, steps[..|steps| - 1]), steps[|steps| - 1];
      LogIsWhatWasPublished(first, capacity, filter, steps[..|steps| - 1]);
      if last.Publish? {
        PreparedIsStored(last.e, last.now, before.bus.cursor + 1);
        var stored := Prepared(last.e, last.now).(cursor := before.bus.cursor + 1);
        assert (before.log + [stored])[..|before.log|] == before.log;
        hide StoredAs, Prepared, RunReading;
      }
    }
  }

  /**
   However publishes and page reads interleave, each event the reader has received is
   what is kept of a publish of the run, and of the publishes between its first and its
   present cursor that were not lost it has received exactly those it accepts.
   */
  lemma ReaderGetsWhatWasPublished(first: Reading, capacity: nat, filter: Filter, steps: seq<Step>, r: Reading,
                                   published: seq<(Event, nat)>)
    requires first == StartReading(capacity, filter) && 0 < capacity && r == RunReading(first, steps)
    requires published == Publishes(steps)
    ensures forall e :: e in r.got ==> e.cursor > 0 && KeptOf(published, e.cursor - 1, e)
    ensures forall k: nat, e :: KeptOf(published, k, e) && filter.since <= k < r.filter.since && k + 1 !in r.lost ==>
              (e in r.got <==> Accepts(filter, e))
  {
    LogIsWhatWasPublished(first, capacity, filter, steps);
    ReaderGetsWhatTheRingHeld(first, capacity, filter, steps, r);
    RunKeepsReadingOK(first, steps);
    assert Numbered(r.log);
    hide *;
    var log, f, lost := r.log, r.filter, r.lost;
    forall e | e in r.got ensures e.cursor > 0 && KeptOf(published, e.cursor - 1, e) {
      PickedIsKept(log, published, f, filter.since, lost, e);
    }
    forall k: nat, e | KeptOf(published, k, e) && filter.since <= k < r.filter.since && k + 1 !in r.lost
      ensures e in r.got <==> Accepts(filter, e)
    {
      KeptIsPicked(log, published, filter, f.since, lost, k, e);
    }
  }

  lemma PickedIsKept(log: seq<Event>, published: seq<(Event, nat)>, f: Filter, from: nat, lost: set<nat>, e: Event)
    requires Keeps(log, published) && Numbered(log) && e in Picked(log, f, from, f.since, lost)
    ensures e.cursor > 0 && KeptOf(published, e.cursor - 1, e)
  {
    hide *;
    PickedIffWanted(log, f, from, f.since, lost, e);
    LoggedIsKept(log, published, e);
  }

  lemma KeptIsPicked(
      log: seq<Event>, published: seq<(Event, nat)>, f: Filter, to: nat, lost: set<nat>, k: nat, e: Event)
    requires Keeps(log, published) && KeptOf(published, k, e) && f.since <= k < to && k + 1 !in lost
    ensures e in Picked(log, f.(since := to), f.since, to, lost) <==> Accepts(f, e)
  {
    hide *;
    PickedIffWanted(log, f.(since := to), f.since, to, lost, e);
    KeptIsLogged(log, published, k, e);
    AcceptsIgnoresSince(f, to, e);
  }

  lemma LoggedIsKept(log: seq<Event>, published: seq<(Event, nat)>, e: Event)
    requires Keeps(log, published) && Numbered(log) && e in log
    ensures e.cursor > 0 && KeptOf(published, e.cursor - 1, e)
  {
    hide StoredAs, KeptOf;
    var k :| 0 <= k < |log| && log[k] == e;
  }

  lemma KeptIsLogged(log: seq<Event>, published: seq<(Event, nat)>, k: nat, e: Event)
    requires Keeps(log, published) && KeptOf(published, k, e)
    ensures e in log && e.cursor == k + 1
  {
    assert KeptOf(published, k, log[k]);
    assert e == log[k];
  }

  lemma AcceptsIgnoresSince(f: Filter, since: nat, e: Event)
    ensures Accepts(f.(since := since), e) == Accepts(f, e)
  {
  }
}
