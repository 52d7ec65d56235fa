/**
 A resuming reader of the bus while publishers race. It gets what a serialised
 bus would give it when appends keep the order of cursors, and it never gets an
 event that is appended after it has read past that event's cursor.
 */
module RaceReader {
  import opened EventFilter
  import opened EventBus
  import opened PublishRace
  import opened Selection

  /** The race, what has been appended so far, and one reader. `lost` are cursors passed when they had been evicted. */
  datatype Reader = Reader(race: Race, log: seq<Event>, filter: Filter, start: nat, got: seq<Event>, lost: set<nat>)

  datatype Move = Do(op: Op) | Look(limit: nat)

  function StartReader(capacity: nat, filter: Filter): Reader {
    Reader(Start(capacity), [], filter, filter.since, [], {})
  }

  predicate CanMove(r: Reader, move: Move) {
    move.Do? ==> Enabled(r.race, move.op)
  }

  function Moved(r: Reader, move: Move): Reader
    requires CanMove(r, move)
  {
    match move
    case Do(op) =>
      r.(race := Next(r.race, op), log := if op.Append? then r.log + [r.race.totalled[op.c]] else r.log)
    case Look(limit) =>
      var page := PageOf(r.race.ring, r.filter, limit);
      r.(filter := r.filter.(since := page.nextCursor), got := r.got + page.events,
         lost := r.lost + set c | c in r.race.evicted && r.filter.since < c <= page.nextCursor)
  }

  ghost predicate AllPossible(r: Reader, moves: seq<Move>)
    decreases |moves|
  {
    moves == [] || (CanMove(r, moves[0]) && AllPossible(Moved(r, moves[0]), moves[1..]))
  }

  ghost function Played(r: Reader, moves: seq<Move>): Reader
    requires AllPossible(r, moves)
    decreases |moves|
  {
    if moves == [] then r else Played(Moved(r, moves[0]), moves[1..])
  }

  /** Every append is that of the least cursor in flight. */
  ghost predicate KeepsOrder(r: Reader, moves: seq<Move>)
    requires AllPossible(r, moves)
    decreases |moves|
  {
    moves != [] ==>
      && (moves[0].Do? && moves[0].op.Append? ==> Least(r.race, moves[0].op.c))
      && KeepsOrder(Moved(r, moves[0]), moves[1..])
  }

  // ── Appends in order ─────────────────────────────────────────────────────

  /**
   The serialised bus after the publishes that have been appended; how they were
   classed does not matter to a reader.
   */
  function Shadow(r: Reader): Reading {
    var n := |r.log|;
    Reading(Bus(r.race.ring, r.race.capacity, n, n, n, 0, 0), r.log, r.filter, r.start, r.got, r.lost)
  }

  ghost predicate Ordered(r: Reader) {
    Conserved(r.race) && InOrder(r.race) && Appended(r.race) == |r.log| && ReadingOK(Shadow(r))
  }

  lemma CountOrdered(r: Reader, op: Op)
    requires Ordered(r) && CanMove(r, Do(op)) && !op.Append?
    ensures Ordered(Moved(r, Do(op)))
  {
    StepConserves(r.race, op);
    if op.Take? {
      TakeKeepsOrder(r.race, op.e, op.now);
    } else {
      CountKeepsOrder(r.race, op);
    }
    hide Conserved, InOrder, ReadingOK, Appended;
  }

  /** One more event at the end of log and ring changes nothing the reader has. */
  lemma AppendKeepsReading(r: Reading, q: Reading, e: Event)
    requires ReadingOK(r) && e.cursor == |r.log| + 1
    requires q.log == r.log + [e] && q.bus.capacity == r.bus.capacity && BusOK(q.bus) && q.bus.cursor == |q.log|
    requires q.bus.ring
      == (if |r.bus.ring| == r.bus.capacity && r.bus.ring != [] then r.bus.ring[1..] else r.bus.ring) + [e]
    requires q.filter == r.filter && q.start == r.start && q.got == r.got && q.lost == r.lost
    ensures ReadingOK(q)
  {
    PickedSnoc(r.log, e, r.filter, r.start, r.filter.since, r.lost);
    hide Picked;
  }

  lemma AppendOrdered(r: Reader, c: nat)
    requires Ordered(r) && CanMove(r, Do(Append(c))) && Least(r.race, c)
    ensures Ordered(Moved(r, Do(Append(c))))
  {
    var q := Moved(r, Do(Append(c)));
    LeastIsNext(r.race, c);
    StepConserves(r.race, Append(c));
    AppendInOrder(r.race, c);
    assert r.race.totalled[c].cursor == c;
    assert BusOK(Shadow(q).bus);
    hide Conserved, InOrder, ReadingOK, Appended, BusOK;
    AppendKeepsReading(Shadow(r), Shadow(q), r.race.totalled[c]);
  }

  /** In order, what has been evicted is exactly what precedes the ring. */
  lemma EvictedIff(s: Race, c: nat)
    requires Conserved(s) && InOrder(s)
    ensures c in s.evicted <==> 0 < c <= Appended(s) - |s.ring|
  {
    assert Located(s, c) && OrderedAt(s, c);
    if c in Cursors(s.ring) {
      var i :| 0 <= i < |s.ring| && Cursors(s.ring)[i] == c;
    }
    assert multiset(Cursors(s.ring))[c] > 0 <==> c in Cursors(s.ring);
  }

  lemma LookOrdered(r: Reader, limit: nat)
    requires Ordered(r)
    ensures Ordered(Moved(r, Look(limit)))
  {
    var q := Moved(r, Look(limit));
    var page := PageOf(r.race.ring, r.filter, limit);
    var s := NextReading(Shadow(r), Read(limit));
    ReadKeepsOK(Shadow(r), limit);
    assert q.lost == s.lost by {
      forall c ensures c in q.lost <==> c in s.lost { EvictedIff(r.race, c); }
    }
    hide Conserved, InOrder, ReadingOK, Appended, PageOf;
    assert Shadow(q) == s;
  }

  lemma {:induction false} RunOrdered(r: Reader, moves: seq<Move>)
    requires Ordered(r) && AllPossible(r, moves) && KeepsOrder(r, moves)
    ensures Ordered(Played(r, moves)) && Played(r, moves).start == r.start
    decreases |moves|
  {
    if moves != [] {
      var move := moves[0];
      hide Ordered, Least;
      match move {
        case Do(op) => if op.Append? { AppendOrdered(r, op.c); } else { CountOrdered(r, op); }
        case Look(limit) => LookOrdered(r, limit);
      }
      RunOrdered(Moved(r, move), moves[1..]);
    }
  }

  /**
   If every append is that of the least cursor in flight, then however publishers
   race and wherever the reader looks in between, it has got exactly the accepted
   events between its first and its present cursor, once each in cursor order,
   except those that had been evicted when it passed them.
   */
  lemma OrderedReaderGetsWhatTheRingHeld(first: Reader, capacity: nat, filter: Filter, moves: seq<Move>, r: Reader)
    requires first == StartReader(capacity, filter) && 0 < capacity
    requires AllPossible(first, moves) && KeepsOrder(first, moves) && r == Played(first, moves)
    ensures r.got == Picked(r.log, r.filter, filter.since, r.filter.since, r.lost)
    ensures Ascending(r.got) && Numbered(r.log)
    ensures forall c :: c in r.lost ==> filter.since < c <= r.filter.since && c in r.race.evicted
  {
    RunOrdered(first, moves);
    forall c | c in r.lost ensures c in r.race.evicted { EvictedIff(r.race, c); }
    hide Conserved, InOrder, Appended;
    SelectedAscending(r.log, (e: Event) => Wanted(r.filter, r.start, r.filter.since, r.lost, e));
  }

  // ── Appends out of order ─────────────────────────────────────────────────

  /** A page holds only what lies beyond the reader's cursor, and never takes it back. */
  lemma PageGoesOn(ring: seq<Event>, f: Filter, limit: nat)
    ensures
      var page := PageOf(ring, f, limit);
      page.nextCursor >= f.since && forall i :: 0 <= i < |page.events| ==> page.events[i].cursor > f.since
  {
    hide Accepts;
    forall i | 0 <= i < |Pending(ring, f)| ensures Pending(ring, f)[i].cursor > f.since {
      SelectedIsMember(ring, (e: Event) => Waiting(f, e), i);
    }
    hide Pending;
  }

  /** Whatever the order of appends, a reader later gets only events with cursors beyond its present one. */
  lemma {:induction false} LaterIsBeyond(r: Reader, moves: seq<Move>, q: Reader)
    requires AllPossible(r, moves) && q == Played(r, moves)
    ensures q.filter.since >= r.filter.since && r.got <= q.got
    ensures forall i :: |r.got| <= i < |q.got| ==> q.got[i].cursor > r.filter.since
    decreases |moves|
  {
    if moves != [] {
      if moves[0].Look? { PageGoesOn(r.race.ring, r.filter, moves[0].limit); }
      hide PageOf, Next, Enabled;
      LaterIsBeyond(Moved(r, moves[0]), moves[1..], q);
    }
  }

  /** What the reader has got is no longer in flight. */
  ghost predicate Landed(r: Reader) {
    && Conserved(r.race)
    && forall i :: 0 <= i < |r.got| ==> InPlace(r.race, r.got[i].cursor)
  }

  predicate InPlace(s: Race, c: nat) {
    c in s.evicted || c in Cursors(s.ring)
  }

  lemma InPlaceNotInFlight(s: Race, c: nat)
    requires Conserved(s) && InPlace(s, c)
    ensures c !in InFlight(s)
  {
    assert Located(s, c);
  }

  lemma StaysInPlace(s: Race, op: Op, c: nat)
    requires Enabled(s, op) && InPlace(s, c)
    ensures InPlace(Next(s, op), c)
  {
    var t := Next(s, op);
    if op.Append? && c in Cursors(s.ring) {
      var i :| 0 <= i < |s.ring| && Cursors(s.ring)[i] == c;
      if |s.ring| == s.capacity {
        if i > 0 { assert t.ring[i - 1] == s.ring[i] && Cursors(t.ring)[i - 1] == c; }
      } else {
        assert t.ring[i] == s.ring[i] && Cursors(t.ring)[i] == c;
      }
    }
  }

  lemma PageInPlace(s: Race, f: Filter, limit: nat, i: nat)
    requires i < |PageOf(s.ring, f, limit).events|
    ensures InPlace(s, PageOf(s.ring, f, limit).events[i].cursor)
  {
    hide Accepts;
    SelectedIsMember(s.ring, (e: Event) => Waiting(f, e), i);
    var e := Pending(s.ring, f)[i];
    var j :| 0 <= j < |s.ring| && s.ring[j] == e;
    assert Cursors(s.ring)[j] == e.cursor;
  }

  lemma {:induction false} RunLanded(r: Reader, moves: seq<Move>)
    requires Landed(r) && AllPossible(r, moves)
    ensures Landed(Played(r, moves))
    decreases |moves|
  {
    if moves != [] {
      var q := Moved(r, moves[0]);
      match moves[0] {
        case Do(op) =>
          StepConserves(r.race, op);
          hide Conserved, InPlace, Next;
          forall i | 0 <= i < |q.got| ensures InPlace(q.race, q.got[i].cursor) {
            StaysInPlace(r.race, op, q.got[i].cursor);
          }
        case Look(limit) =>
          hide Conserved, InPlace, PageOf;
          forall i | |r.got| <= i < |q.got| ensures InPlace(q.race, q.got[i].cursor) {
            PageInPlace(r.race, r.filter, limit, i - |r.got|);
          }
      }
      hide Landed;
      RunLanded(q, moves[1..]);
    }
  }

  /**
   An event still in flight when the reader passes its cursor is never got,
   however the run goes on: it is appended behind the reader's back.
   */
  lemma PassedInFlightIsNeverGot(first: Reader, capacity: nat, filter: Filter, early: seq<Move>, r: Reader,
                                                     late: seq<Move>, q: Reader, c: nat)
    requires first == StartReader(capacity, filter) && 0 < capacity
    requires AllPossible(first, early) && r == Played(first, early)
    requires c in InFlight(r.race) && c <= r.filter.since
    requires AllPossible(r, late) && q == Played(r, late)
    ensures forall i :: 0 <= i < |q.got| ==> q.got[i].cursor != c
  {
    RunLanded(first, early);
    hide Conserved;
    LaterIsBeyond(r, late, q);
    forall i | 0 <= i < |q.got| ensures q.got[i].cursor != c {
      if i < |r.got| {
        assert q.got[i] == r.got[i];
        if InPlace(r.race, c) { InPlaceNotInFlight(r.race, c); }
      }
    }
  }

  /** A cursor that the reader is past without having got its event will not come any more. */
  lemma PassedIsNeverGot(r: Reader, late: seq<Move>, q: Reader, c: nat)
    requires AllPossible(r, late) && q == Played(r, late)
    requires c <= r.filter.since && !HasCursor(r.got, c)
    ensures !HasCursor(q.got, c)
  {
    LaterIsBeyond(r, late, q);
    forall i | 0 <= i < |q.got| ensures q.got[i].cursor != c {
      if i < |r.got| { assert q.got[i] == r.got[i]; }
    }
  }

  // ── What a page passes over ──────────────────────────────────────────────

  ghost predicate HasCursor(events: seq<Event>, c: nat) {
    exists i :: 0 <= i < |events| && events[i].cursor == c
  }

  /** Behind the limit: waiting, but after more waiting events than fit on the page. */
  ghost predicate CutOff(s: Race, f: Filter, limit: nat, c: nat) {
    HasCursor(Pending(s.ring, f)[|PageOf(s.ring, f, limit).events|..], c)
  }

  ghost predicate Unwanted(s: Race, f: Filter, c: nat) {
    exists i :: 0 <= i < |s.ring| && s.ring[i].cursor == c && !Accepts(f, s.ring[i])
  }

  ghost predicate OnceEach(events: seq<Event>) {
    forall i, j :: 0 <= i < j < |events| ==> events[i].cursor != events[j].cursor
  }

  lemma TwiceCounts(s: seq<nat>, i: nat, j: nat)
    requires i < j < |s| && s[i] == s[j]
    ensures multiset(s)[s[i]] >= 2
  {
    assert s == s[..i] + [s[i]] + s[i + 1..j] + [s[j]] + s[j + 1..];
  }

  lemma RingOnceEach(s: Race)
    requires Conserved(s)
    ensures OnceEach(s.ring)
  {
    forall i, j | 0 <= i < j < |s.ring| ensures s.ring[i].cursor != s.ring[j].cursor {
      assert Located(s, s.ring[i].cursor);
      if s.ring[i].cursor == s.ring[j].cursor { TwiceCounts(Cursors(s.ring), i, j); }
    }
  }

  lemma {:induction false} SelectOnceEach(events: seq<Event>, p: Event -> bool)
    requires OnceEach(events)
    ensures OnceEach(Select(events, p))
  {
    if events != [] {
      var before, e := events[..|events| - 1], events[|events| - 1];
      SelectOnceEach(before, p);
      forall i | 0 <= i < |Select(before, p)| ensures Select(before, p)[i].cursor != e.cursor {
        SelectedIsMember(before, p, i);
        var j :| 0 <= j < |before| && before[j] == Select(before, p)[i];
        assert events[j] == before[j];
      }
    }
  }

  /** In the ring and beyond the reader's cursor, an event waits or is unwanted. */
  lemma WaitsIff(s: Race, f: Filter, c: nat)
    requires OnceEach(s.ring) && c > f.since
    ensures HasCursor(Pending(s.ring, f), c) <==> HasCursor(s.ring, c) && !Unwanted(s, f, c)
  {
    hide Accepts;
    var waiting := (e: Event) => Waiting(f, e);
    if i :| 0 <= i < |Pending(s.ring, f)| && Pending(s.ring, f)[i].cursor == c {
      SelectedIsMember(s.ring, waiting, i);
      var k :| 0 <= k < |s.ring| && s.ring[k] == Pending(s.ring, f)[i];
    }
    if i :| 0 <= i < |s.ring| && s.ring[i].cursor == c && Accepts(f, s.ring[i]) {
      SelectMembers(s.ring, waiting, s.ring[i]);
      var k :| 0 <= k < |Pending(s.ring, f)| && Pending(s.ring, f)[k] == s.ring[i];
    }
  }

  lemma SplitAtPage(s: Race, f: Filter, limit: nat, c: nat)
    requires OnceEach(s.ring)
    ensures
      var events := PageOf(s.ring, f, limit).events;
      HasCursor(Pending(s.ring, f), c) <==> HasCursor(events, c) || CutOff(s, f, limit, c)
    ensures !(HasCursor(PageOf(s.ring, f, limit).events, c) && CutOff(s, f, limit, c))
  {
    SelectOnceEach(s.ring, (e: Event) => Waiting(f, e));
    var all, n := Pending(s.ring, f), |PageOf(s.ring, f, limit).events|;
    assert PageOf(s.ring, f, limit).events == all[..n];
    hide Pending, PageOf;
    if i :| 0 <= i < |all| && all[i].cursor == c {
      if i < n { assert all[..n][i].cursor == c; } else { assert all[n..][i - n].cursor == c; }
    }
    if i :| 0 <= i < |all[n..]| && all[n..][i].cursor == c { assert all[n + i].cursor == c; }
  }

  lemma InRingIff(s: Race, c: nat)
    requires Conserved(s) && 1 <= c <= s.cursor
    ensures HasCursor(s.ring, c) <==> c !in InFlight(s) && c !in s.evicted
  {
    assert Located(s, c);
    assert multiset(Cursors(s.ring))[c] > 0 <==> c in Cursors(s.ring);
    if c in Cursors(s.ring) { var i :| 0 <= i < |Cursors(s.ring)| && Cursors(s.ring)[i] == c; }
    if i :| 0 <= i < |s.ring| && s.ring[i].cursor == c { assert Cursors(s.ring)[i] == c; }
  }

  /**
   However appends are ordered: of the cursors that a page takes the reader past, it does
   not hold exactly those of events still in flight, evicted, unwanted, or waiting behind
   the page's limit.
   */
  lemma PassedOverIff(s: Race, f: Filter, limit: nat, c: nat)
    requires Conserved(s) && f.since < c <= s.cursor && c <= PageOf(s.ring, f, limit).nextCursor
    ensures !HasCursor(PageOf(s.ring, f, limit).events, c) <==>
            c in InFlight(s) || c in s.evicted || Unwanted(s, f, c) || CutOff(s, f, limit, c)
  {
    RingOnceEach(s);
    InRingIff(s, c);
    hide Conserved, InFlight, PageOf, Pending;
    WaitsIff(s, f, c);
    SplitAtPage(s, f, limit, c);
    hide CutOff;
    if i :| 0 <= i < |s.ring| && s.ring[i].cursor == c && !Accepts(f, s.ring[i]) { assert HasCursor(s.ring, c); }
  }

  lemma MovedHead(r: Reader, move: Move, rest: seq<Move>)
    requires CanMove(r, move) && AllPossible(Moved(r, move), rest)
    ensures AllPossible(r, [move] + rest) && Played(r, [move] + rest) == Played(Moved(r, move), rest)
  {
    assert ([move] + rest)[1..] == rest;
    hide CanMove, Moved;
  }

  lemma PlayedNothing(r: Reader)
    ensures AllPossible(r, []) && Played(r, []) == r
  {
  }

  /** Such a reader exists: the second of two publishers appends, and the reader looks before the first one does. */
  lemma ReaderPassesInFlight(capacity: nat, a: Event, b: Event, now: nat, limit: nat) returns (early: seq<Move>)
    requires 0 < capacity
    ensures
      var first := StartReader(capacity, EMPTY_FILTER);
      AllPossible(first, early) &&
      var r := Played(first, early);
      1 in InFlight(r.race) && 1 <= r.filter.since
  {
    hide Prepared, AllPossible, Played, PageOf;
    var r0 := StartReader(capacity, EMPTY_FILTER);
    var r1 := Moved(r0, Do(Take(a, now)));
    var r2 := Moved(r1, Do(Take(b, now)));
    var r3 := Moved(r2, Do(CountClass(2)));
    var r4 := Moved(r3, Do(CountTotal(2)));
    var r5 := Moved(r4, Do(Append(2)));
    var r6 := Moved(r5, Look(limit));
    assert r5.race.ring == [Prepared(b, now).(cursor := 2)];
    PageOfOne(r5.race.ring[0], EMPTY_FILTER, limit);
    PlayedNothing(r6);
    MovedHead(r5, Look(limit), []);
    early := [Look(limit)] + [];
    MovedHead(r4, Do(Append(2)), early);
    early := [Do(Append(2))] + early;
    MovedHead(r3, Do(CountTotal(2)), early);
    early := [Do(CountTotal(2))] + early;
    MovedHead(r2, Do(CountClass(2)), early);
    early := [Do(CountClass(2))] + early;
    MovedHead(r1, Do(Take(b, now)), early);
    early := [Do(Take(b, now))] + early;
    MovedHead(r0, Do(Take(a, now)), early);
    early := [Do(Take(a, now))] + early;
  }

  lemma PageOfOne(e: Event, f: Filter, limit: nat)
    requires f == EMPTY_FILTER && e.cursor > 0
    ensures PageOf([e], f, limit).nextCursor == e.cursor
  {
    SelectSnoc([e], (x: Event) => Waiting(f, x), 0);
    assert [e][..0] == [] && [e][..1] == [e];
    assert Pending([e], f) == [e];
    hide Pending;
  }
}
