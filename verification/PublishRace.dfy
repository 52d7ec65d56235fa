/**
 The event bus with concurrent publishers. A publish takes its cursor before it
 enters the ring's lock, so appends may overtake each other: nothing is lost or
 counted twice, but order and paging hold only when appends keep cursor order.
 */
module PublishRace {
  import opened EventFilter
  import opened EventBus
  import opened Selection

  /**
   Publishes in flight are keyed by the cursor they took: `taken` have done only
   that, `classed` are counted in their class, `totalled` in the total as well.
   */
  datatype Race = Race(
    ring: seq<Event>, capacity: nat, cursor: nat,
    total: nat, harness: nat, pattern: nat, core: nat,
    taken: map<nat, Event>, classed: map<nat, Event>, totalled: map<nat, Event>,
    evicted: set<nat>)

  datatype Op = Take(e: Event, now: nat) | CountClass(c: nat) | CountTotal(c: nat) | Append(c: nat)

  predicate Enabled(s: Race, op: Op) {
    match op
    case Take(_, _) => true
    case CountClass(c) => c in s.taken
    case CountTotal(c) => c in s.classed
    case Append(c) => c in s.totalled
  }

  function Next(s: Race, op: Op): Race
    requires Enabled(s, op)
  {
    match op
    case Take(e, now) =>
      s.(cursor := s.cursor + 1, taken := s.taken[s.cursor + 1 := Prepared(e, now).(cursor := s.cursor + 1)])
    case CountClass(c) =>
      var kind := s.taken[c].sourceClass;
      s.(taken := s.taken - {c}, classed := s.classed[c := s.taken[c]],
         harness := if kind == Harness then s.harness + 1 else s.harness,
         pattern := if kind == Pattern then s.pattern + 1 else s.pattern,
         core := if kind == Core then s.core + 1 else s.core)
    case CountTotal(c) =>
      s.(classed := s.classed - {c}, totalled := s.totalled[c := s.classed[c]], total := s.total + 1)
    case Append(c) =>
      var full := |s.ring| == s.capacity && s.ring != [];
      s.(totalled := s.totalled - {c},
         ring := (if full then s.ring[1..] else s.ring) + [s.totalled[c]],
         evicted := if full then s.evicted + {s.ring[0].cursor} else s.evicted)
  }

  function Start(capacity: nat): Race {
    Race([], capacity, 0, 0, 0, 0, 0, map[], map[], map[], {})
  }

  ghost predicate AllEnabled(s: Race, ops: seq<Op>)
    decreases |ops|
  {
    ops == [] || (Enabled(s, ops[0]) && AllEnabled(Next(s, ops[0]), ops[1..]))
  }

  ghost function Run(s: Race, ops: seq<Op>): Race
    requires AllEnabled(s, ops)
    decreases |ops|
  {
    if ops == [] then s else Run(Next(s, ops[0]), ops[1..])
  }

  // ── Conservation ─────────────────────────────────────────────────────────

  function Cursors(ring: seq<Event>): seq<nat> {
    seq(|ring|, i requires 0 <= i < |ring| => ring[i].cursor)
  }

  function One(b: bool): nat {
    if b then 1 else 0
  }

  /** In how many places a cursor is to be found. */
  ghost function Places(s: Race, c: nat): nat {
    One(c in s.taken) + One(c in s.classed) + One(c in s.totalled) + multiset(Cursors(s.ring))[c] + One(c in s.evicted)
  }

  /** A cursor handed out is in exactly one place, any other in none. */
  ghost predicate Located(s: Race, c: nat) {
    Places(s, c) == One(1 <= c <= s.cursor)
  }

  ghost predicate Keyed(m: map<nat, Event>) {
    forall c :: c in m ==> m[c].cursor == c
  }

  ghost predicate Conserved(s: Race) {
    && 0 < s.capacity && |s.ring| <= s.capacity
    && Keyed(s.taken) && Keyed(s.classed) && Keyed(s.totalled)
    && (forall c :: Located(s, c))
    && s.harness + s.pattern + s.core + |s.taken| == s.cursor
    && s.total + |s.taken| + |s.classed| == s.cursor
  }

  function InFlight(s: Race): set<nat> {
    s.taken.Keys + s.classed.Keys + s.totalled.Keys
  }

  lemma CursorsSnoc(ring: seq<Event>, e: Event)
    ensures multiset(Cursors(ring + [e])) == multiset(Cursors(ring)) + multiset{e.cursor}
  {
    assert Cursors(ring + [e]) == Cursors(ring) + [e.cursor];
  }

  lemma CursorsCons(e: Event, ring: seq<Event>)
    ensures multiset(Cursors([e] + ring)) == multiset{e.cursor} + multiset(Cursors(ring))
  {
    assert Cursors([e] + ring) == [e.cursor] + Cursors(ring);
  }

  lemma AppendCursors(s: Race, c: nat)
    requires Enabled(s, Append(c)) && Keyed(s.totalled)
    ensures
      var full := |s.ring| == s.capacity && s.ring != [];
      multiset(Cursors(Next(s, Append(c)).ring))
      == multiset(Cursors(s.ring)) + multiset{c} - if full then multiset{s.ring[0].cursor} else multiset{}
  {
    var ring, e := s.ring, s.totalled[c];
    CursorsSnoc(ring, e);
    if |ring| == s.capacity && ring != [] {
      assert ring == [ring[0]] + ring[1..];
      CursorsCons(ring[0], ring[1..]);
      CursorsSnoc(ring[1..], e);
    }
    hide Cursors;
  }

  lemma RemoveSize(m: map<nat, Event>, c: nat)
    requires c in m
    ensures |m - {c}| == |m| - 1
  {
    assert (m - {c}).Keys == m.Keys - {c};
  }

  lemma InsertSize(m: map<nat, Event>, c: nat, e: Event)
    requires c !in m
    ensures |m[c := e]| == |m| + 1
  {
    assert m[c := e].Keys == m.Keys + {c};
  }

  lemma TakeConserves(s: Race, e: Event, now: nat)
    requires Conserved(s)
    ensures Conserved(Next(s, Take(e, now)))
  {
    var t := Next(s, Take(e, now));
    assert Located(s, s.cursor + 1);
    InsertSize(s.taken, s.cursor + 1, t.taken[s.cursor + 1]);
    forall c ensures Located(t, c) { assert Located(s, c); }
  }

  lemma CountClassConserves(s: Race, c: nat)
    requires Conserved(s) && Enabled(s, CountClass(c))
    ensures Conserved(Next(s, CountClass(c)))
  {
    assert Located(s, c);
    RemoveSize(s.taken, c);
    InsertSize(s.classed, c, s.taken[c]);
    forall d ensures Located(Next(s, CountClass(c)), d) { assert Located(s, d); }
  }

  lemma CountTotalConserves(s: Race, c: nat)
    requires Conserved(s) && Enabled(s, CountTotal(c))
    ensures Conserved(Next(s, CountTotal(c)))
  {
    assert Located(s, c);
    RemoveSize(s.classed, c);
    forall d ensures Located(Next(s, CountTotal(c)), d) { assert Located(s, d); }
  }

  lemma AppendLocates(s: Race, c: nat, d: nat)
    requires Enabled(s, Append(c)) && Keyed(s.totalled) && Located(s, c) && Located(s, d)
    requires |s.ring| == s.capacity && s.ring != [] ==> Located(s, s.ring[0].cursor)
    ensures Located(Next(s, Append(c)), d)
  {
    var t := Next(s, Append(c));
    AppendCursors(s, c);
    var full := |s.ring| == s.capacity && s.ring != [];
    if full { assert Cursors(s.ring)[0] in multiset(Cursors(s.ring)); }
    assert multiset(Cursors(t.ring))[d]
        == multiset(Cursors(s.ring))[d] + One(d == c) - One(full && d == s.ring[0].cursor);
    hide Cursors;
  }

  lemma AppendConserves(s: Race, c: nat)
    requires Conserved(s) && Enabled(s, Append(c))
    ensures Conserved(Next(s, Append(c)))
  {
    var t := Next(s, Append(c));
    forall d ensures Located(t, d) {
      assert Located(s, d) && Located(s, c);
      if s.ring != [] { assert Located(s, s.ring[0].cursor); }
      AppendLocates(s, c, d);
    }
    hide Located;
  }

  /** Every step moves a cursor from one place to the next, and counts it where it says. */
  lemma StepConserves(s: Race, op: Op)
    requires Conserved(s) && Enabled(s, op)
    ensures Conserved(Next(s, op))
  {
    hide Conserved, Next;
    match op
    case Take(e, now) => TakeConserves(s, e, now);
    case CountClass(c) => CountClassConserves(s, c);
    case CountTotal(c) => CountTotalConserves(s, c);
    case Append(c) => AppendConserves(s, c);
  }

  lemma {:induction false} RunConserves(s: Race, ops: seq<Op>)
    requires Conserved(s) && AllEnabled(s, ops)
    ensures Conserved(Run(s, ops))
    decreases |ops|
  {
    if ops != [] {
      StepConserves(s, ops[0]);
      RunConserves(Next(s, ops[0]), ops[1..]);
    }
  }

  /**
   With any number of publishers interleaved in any way, each cursor handed out
   is in flight, in the ring or evicted, and in exactly one of these; the ring
   stays within its capacity; and once nothing is in flight the three class
   counts add up to the total, which is the current cursor.
   */
  lemma NothingLostOrCountedTwice(start: Race, ops: seq<Op>, s: Race)
    requires start == Start(start.capacity) && 0 < start.capacity
    requires AllEnabled(start, ops) && s == Run(start, ops)
    ensures forall c :: Located(s, c)
    ensures |s.ring| <= s.capacity
    ensures InFlight(s) == {} ==> s.harness + s.pattern + s.core == s.total == s.cursor
  {
    RunConserves(start, ops);
    if InFlight(s) == {} {
      assert s.taken.Keys == {} && s.classed.Keys == {};
    }
  }

  // ── Contents ─────────────────────────────────────────────────────────────

  /** The events whose publishes were begun, with their times, in the order of their cursors. */
  function Begun(ops: seq<Op>): seq<(Event, nat)> {
    if ops == [] then []
    else
      var last := ops[|ops| - 1];
      Begun(ops[..|ops| - 1]) + if last.Take? then [(last.e, last.now)] else []
  }

  ghost predicate KeptInFlight(m: map<nat, Event>, begun: seq<(Event, nat)>) {
    forall c :: c in m ==> c > 0 && KeptOf(begun, c - 1, m[c])
  }

  /** Wherever the event of a cursor is, it is what is kept of the publish that took the cursor. */
  ghost predicate HoldsWhatWasBegun(s: Race, begun: seq<(Event, nat)>) {
    && s.cursor == |begun|
    && KeptInFlight(s.taken, begun) && KeptInFlight(s.classed, begun) && KeptInFlight(s.totalled, begun)
    && forall i :: 0 <= i < |s.ring| ==> s.ring[i].cursor > 0 && KeptOf(begun, s.ring[i].cursor - 1, s.ring[i])
  }

  lemma KeptOfMore(begun: seq<(Event, nat)>, next: (Event, nat), k: nat, e: Event)
    requires KeptOf(begun, k, e)
    ensures KeptOf(begun + [next], k, e)
  {
    hide StoredAs;
  }

  lemma TakeHolds(s: Race, e: Event, now: nat, begun: seq<(Event, nat)>)
    requires HoldsWhatWasBegun(s, begun)
    ensures HoldsWhatWasBegun(Next(s, Take(e, now)), begun + [(e, now)])
  {
    PreparedIsStored(e, now, s.cursor + 1);
    assert (begun + [(e, now)])[s.cursor] == (e, now);
    forall k: nat, x | KeptOf(begun, k, x) ensures KeptOf(begun + [(e, now)], k, x) {
      KeptOfMore(begun, (e, now), k, x);
    }
    assert KeptOf(begun + [(e, now)], s.cursor, Prepared(e, now).(cursor := s.cursor + 1));
    hide KeptOf, Prepared;
  }

  lemma MoveHolds(s: Race, op: Op, begun: seq<(Event, nat)>)
    requires HoldsWhatWasBegun(s, begun) && Enabled(s, op) && !op.Take? && Keyed(s.totalled)
    ensures HoldsWhatWasBegun(Next(s, op), begun)
  {
    hide KeptOf;
  }

  lemma BegunSnoc(before: seq<Op>, op: Op)
    ensures Begun(before + [op]) == if op.Take? then Begun(before) + [(op.e, op.now)] else Begun(before)
  {
    assert (before + [op])[..|before|] == before;
  }

  lemma StepHolds(s: Race, op: Op, before: seq<Op>)
    requires HoldsWhatWasBegun(s, Begun(before)) && Conserved(s) && Enabled(s, op)
    ensures HoldsWhatWasBegun(Next(s, op), Begun(before + [op]))
  {
    BegunSnoc(before, op);
    assert Keyed(s.totalled);
    hide *;
    if op.Take? { TakeHolds(s, op.e, op.now, Begun(before)); } else { MoveHolds(s, op, Begun(before)); }
  }

  lemma {:induction false} RunHolds(s: Race, before: seq<Op>, ops: seq<Op>)
    requires HoldsWhatWasBegun(s, Begun(before)) && Conserved(s) && AllEnabled(s, ops)
    ensures HoldsWhatWasBegun(Run(s, ops), Begun(before + ops))
    decreases |ops|
  {
    hide HoldsWhatWasBegun, Conserved, Next, Enabled, Begun;
    if ops == [] {
      assert before + [] == before;
    } else {
      assert before + ops == before + [ops[0]] + ops[1..];
      StepHolds(s, ops[0], before);
      StepConserves(s, ops[0]);
      RunHolds(Next(s, ops[0]), before + [ops[0]], ops[1..]);
    }
  }

  /**
   However publishers race, what the ring holds under a cursor is what is kept of the
   publish that took that cursor.
   */
  lemma RingHoldsWhatWasPublished(start: Race, ops: seq<Op>, s: Race)
    requires start == Start(start.capacity) && 0 < start.capacity
    requires AllEnabled(start, ops) && s == Run(start, ops)
    ensures s.cursor == |Begun(ops)|
    ensures forall i :: 0 <= i < |s.ring| ==>
              s.ring[i].cursor > 0 && KeptOf(Begun(ops), s.ring[i].cursor - 1, s.ring[i])
  {
    RunHolds(start, [], ops);
    assert [] + ops == ops;
  }

  /** A publish is counted in the class of the event that is stored, and in no other. */
  lemma CountedInItsClass(s: Race, c: nat)
    requires Enabled(s, CountClass(c))
    ensures
      var t, kind := Next(s, CountClass(c)), s.taken[c].sourceClass;
      && t.harness == s.harness + (if kind == Harness then 1 else 0)
      && t.pattern == s.pattern + (if kind == Pattern then 1 else 0)
      && t.core == s.core + (if kind == Core then 1 else 0)
  {
  }

  // ── Order ────────────────────────────────────────────────────────────────

  /** How many publishes have reached the ring. */
  function Appended(s: Race): int {
    s.cursor - |s.taken| - |s.classed| - |s.totalled|
  }

  /** The ring is what a serialised bus would hold after the publishes that reached it. */
  ghost predicate InOrder(s: Race) {
    && |s.ring| <= Appended(s)
    && (forall i :: 0 <= i < |s.ring| ==> s.ring[i].cursor == Appended(s) - |s.ring| + i + 1)
    && (forall c :: OrderedAt(s, c))
  }

  /** Evicted cursors precede the ring, those in flight follow it. */
  ghost predicate OrderedAt(s: Race, c: nat) {
    && (c in s.evicted ==> c <= Appended(s) - |s.ring|)
    && (c in s.taken || c in s.classed || c in s.totalled ==> c > Appended(s))
  }

  lemma TakeKeepsOrder(s: Race, e: Event, now: nat)
    requires Conserved(s) && InOrder(s)
    ensures InOrder(Next(s, Take(e, now))) && Appended(Next(s, Take(e, now))) == Appended(s)
  {
    var t := Next(s, Take(e, now));
    assert Located(s, s.cursor + 1);
    InsertSize(s.taken, s.cursor + 1, t.taken[s.cursor + 1]);
    assert Appended(t) == Appended(s);
    forall c ensures OrderedAt(t, c) { assert OrderedAt(s, c); }
  }

  lemma CountKeepsOrder(s: Race, op: Op)
    requires Conserved(s) && InOrder(s) && Enabled(s, op) && (op.CountClass? || op.CountTotal?)
    ensures InOrder(Next(s, op)) && Appended(Next(s, op)) == Appended(s)
  {
    var t := Next(s, op);
    assert Located(s, op.c);
    if op.CountClass? {
      RemoveSize(s.taken, op.c);
      InsertSize(s.classed, op.c, s.taken[op.c]);
    } else {
      RemoveSize(s.classed, op.c);
      InsertSize(s.totalled, op.c, s.classed[op.c]);
    }
    assert Appended(t) == Appended(s);
    forall c ensures OrderedAt(t, c) { assert OrderedAt(s, c); }
  }

  ghost predicate Least(s: Race, c: nat) {
    forall d :: d in InFlight(s) ==> c <= d
  }

  /** Without anything missing below it, the least cursor in flight is the next one the ring expects. */
  lemma LeastIsNext(s: Race, c: nat)
    requires Conserved(s) && InOrder(s) && c in InFlight(s)
    requires Least(s, c)
    ensures c == Appended(s) + 1
  {
    var next := Appended(s) + 1;
    assert Located(s, c) && Located(s, next) && OrderedAt(s, c) && OrderedAt(s, next);
    assert next !in Cursors(s.ring);
  }

  lemma AppendKeepsOrderAt(s: Race, c: nat, d: nat)
    requires Enabled(s, Append(c)) && c == Appended(s) + 1 && Appended(Next(s, Append(c))) == Appended(s) + 1
    requires c !in s.taken && c !in s.classed && OrderedAt(s, d)
    requires s.ring != [] ==> s.ring[0].cursor == Appended(s) - |s.ring| + 1
    ensures OrderedAt(Next(s, Append(c)), d)
  {
    hide Appended;
  }

  lemma AppendInOrder(s: Race, c: nat)
    requires Conserved(s) && InOrder(s) && Enabled(s, Append(c)) && c == Appended(s) + 1
    ensures InOrder(Next(s, Append(c))) && Appended(Next(s, Append(c))) == Appended(s) + 1
  {
    var t := Next(s, Append(c));
    assert Appended(t) == Appended(s) + 1 by { RemoveSize(s.totalled, c); }
    assert Located(s, c);
    forall d ensures OrderedAt(t, d) {
      assert OrderedAt(s, d);
      AppendKeepsOrderAt(s, c, d);
    }
  }

  /** An append keeps the serialised order exactly when it is the append of the least cursor in flight. */
  lemma InOrderIffLeastAppended(s: Race, c: nat)
    requires Conserved(s) && InOrder(s) && Enabled(s, Append(c))
    ensures InOrder(Next(s, Append(c))) <==> Least(s, c)
  {
    if Least(s, c) {
      LeastIsNext(s, c);
      AppendInOrder(s, c);
    }
    if InOrder(Next(s, Append(c))) {
      forall d | d in InFlight(s) ensures c <= d { NoneOvertaken(s, c, d); }
    }
  }

  lemma NoneOvertaken(s: Race, c: nat, d: nat)
    requires Conserved(s) && Enabled(s, Append(c)) && InOrder(Next(s, Append(c))) && d in InFlight(s)
    ensures c <= d
  {
    var t := Next(s, Append(c));
    assert t.ring[|t.ring| - 1] == s.totalled[c];
    assert OrderedAt(t, d) && Located(s, d) && Located(s, c);
  }

  ghost predicate InOrderThroughout(s: Race, ops: seq<Op>)
    requires AllEnabled(s, ops)
    decreases |ops|
  {
    InOrder(s) && (ops != [] ==> InOrderThroughout(Next(s, ops[0]), ops[1..]))
  }

  /** Every append is that of the least cursor in flight. */
  ghost predicate LeastFirst(s: Race, ops: seq<Op>)
    requires AllEnabled(s, ops)
    decreases |ops|
  {
    ops != [] ==> (ops[0].Append? ==> Least(s, ops[0].c)) && LeastFirst(Next(s, ops[0]), ops[1..])
  }

  /** However publishers race, the ring is in order after every step if and only if no append overtakes another. */
  lemma {:induction false} InOrderThroughoutIff(s: Race, ops: seq<Op>)
    requires Conserved(s) && InOrder(s) && AllEnabled(s, ops)
    ensures InOrderThroughout(s, ops) <==> LeastFirst(s, ops)
    decreases |ops|
  {
    if ops != [] {
      var op, t := ops[0], Next(s, ops[0]);
      StepConserves(s, op);
      match op {
        case Take(e, now) => TakeKeepsOrder(s, e, now);
        case CountClass(_) | CountTotal(_) => CountKeepsOrder(s, op);
        case Append(c) => InOrderIffLeastAppended(s, c);
      }
      hide Conserved, InOrder, InFlight, Next, Enabled;
      if InOrder(t) { InOrderThroughoutIff(t, ops[1..]); }
    }
  }

  /** Quiet and in order, the racing bus is in a state that a serialised bus could be in. */
  lemma QuietInOrderIsSerialised(s: Race)
    requires Conserved(s) && InOrder(s) && InFlight(s) == {}
    ensures BusOK(Bus(s.ring, s.capacity, s.cursor, s.total, s.harness, s.pattern, s.core))
  {
    assert s.taken.Keys == {} && s.classed.Keys == {} && s.totalled.Keys == {};
  }

  // ── What goes wrong otherwise ────────────────────────────────────────────

  /** A reader resuming from `since` sees an event once it is appended exactly when its cursor is beyond. */
  lemma LateAppendSeenIff(s: Race, c: nat, f: Filter)
    requires Conserved(s) && Enabled(s, Append(c)) && Accepts(f, s.totalled[c])
    ensures s.totalled[c] in Pending(Next(s, Append(c)).ring, f) <==> c > f.since
  {
    var ring := Next(s, Append(c)).ring;
    assert ring[|ring| - 1] == s.totalled[c];
    SelectMembers(ring, (e: Event) => Waiting(f, e), s.totalled[c]);
  }

  lemma PendingOfTwo(a: Event, b: Event, f: Filter)
    requires f == EMPTY_FILTER.(since := f.since)
    ensures Pending([a], f) == if a.cursor > f.since then [a] else []
    ensures Pending([a, b], f) == (if a.cursor > f.since then [a] else []) + if b.cursor > f.since then [b] else []
  {
    var waiting := (e: Event) => Waiting(f, e);
    SelectSnoc([a, b], waiting, 0);
    SelectSnoc([a, b], waiting, 1);
    assert [a, b][..0] == [] && [a, b][..1] == [a] && [a, b][..2] == [a, b];
  }

  lemma PageOfFew(ring: seq<Event>, f: Filter)
    requires |Pending(ring, f)| <= 10
    ensures PageOf(ring, f, 10) ==
      var all := Pending(ring, f);
      Page(all, if all == [] then f.since else all[|all| - 1].cursor, false)
  {
    hide Pending;
    assert Pending(ring, f)[..|Pending(ring, f)|] == Pending(ring, f);
  }

  lemma FirstOfTwo(ring: seq<Event>, f: Filter, a: Event, b: Event)
    requires Pending(ring, f) == [a, b]
    ensures PageOf(ring, f, 1) == Page([a], a.cursor, true)
  {
    hide Pending;
    assert [a, b][..1] == [a];
  }

  /**
   The second event may be appended before the first, and then: a reader that reads in
   between gets the second and nothing later; one that reads after both gets both, and
   the second once more; one that reads a page of one gets the second and is told of more,
   of which nothing is left to it.
   */
  ghost predicate Crosses(s: Race, first: Event, second: Event) {
    Enabled(s, Append(2)) && Enabled(Next(s, Append(2)), Append(1)) &&
    var between, after := Next(s, Append(2)).ring, Next(Next(s, Append(2)), Append(1)).ring;
    var all, one, two := EMPTY_FILTER, EMPTY_FILTER.(since := 1), EMPTY_FILTER.(since := 2);
    && PageOf(between, all, 10) == Page([second], 2, false) && PageOf(after, two, 10) == Page([], 2, false)
    && PageOf(after, all, 10) == Page([second, first], 1, false) && PageOf(after, one, 10) == Page([second], 2, false)
    && PageOf(after, all, 1) == Page([second], 2, true)
  }

  lemma CrossedFrom(s: Race, first: Event, second: Event)
    requires s.ring == [] && s.capacity >= 2
    requires first.cursor == 1 && second.cursor == 2
    requires 1 in s.totalled && 2 in s.totalled && s.totalled[1] == first && s.totalled[2] == second
    ensures Crosses(s, first, second)
  {
    var between, after := Next(s, Append(2)).ring, Next(Next(s, Append(2)), Append(1)).ring;
    assert between == [second] && after == [second, first];
    CrossedPages(first, second, between, after);
  }

  lemma RunHead(s: Race, op: Op, rest: seq<Op>)
    requires Enabled(s, op) && AllEnabled(Next(s, op), rest)
    ensures AllEnabled(s, [op] + rest) && Run(s, [op] + rest) == Run(Next(s, op), rest)
  {
    assert ([op] + rest)[1..] == rest;
    hide Enabled, Next;
  }

  /** A run after which two publishers have both done all but append. */
  lemma BothAboutToAppend(capacity: nat, a: Event, b: Event, now: nat) returns (ops: seq<Op>)
    ensures AllEnabled(Start(capacity), ops)
    ensures
      var s := Run(Start(capacity), ops);
      && s.ring == [] && s.capacity == capacity && 1 in s.totalled && 2 in s.totalled
      && s.totalled[1] == Prepared(a, now).(cursor := 1) && s.totalled[2] == Prepared(b, now).(cursor := 2)
  {
    hide Prepared, AllEnabled, Run;
    var s0 := Start(capacity);
    var s1 := Next(s0, Take(a, now));
    var s2 := Next(s1, Take(b, now));
    var s3 := Next(s2, CountClass(1));
    var s4 := Next(s3, CountClass(2));
    var s5 := Next(s4, CountTotal(1));
    var s6 := Next(s5, CountTotal(2));
    RunNothing(s6);
    RunHead(s5, CountTotal(2), []);
    RunHead(s4, CountTotal(1), [CountTotal(2)] + []);
    ops := [CountTotal(1)] + ([CountTotal(2)] + []);
    RunHead(s3, CountClass(2), ops);
    ops := [CountClass(2)] + ops;
    RunHead(s2, CountClass(1), ops);
    ops := [CountClass(1)] + ops;
    RunHead(s1, Take(b, now), ops);
    ops := [Take(b, now)] + ops;
    RunHead(s0, Take(a, now), ops);
    ops := [Take(a, now)] + ops;
  }

  /**
   A run in which the appends of two publishers cross. A reader that reads between
   the two appends never gets the first event, nor does one that reads pages of one;
   one that reads after both is sent the second event twice.
   */
  lemma CrossedAppends(capacity: nat, a: Event, b: Event, now: nat, first: Event, second: Event)
    returns (ops: seq<Op>)
    requires capacity >= 2
    requires first == Prepared(a, now).(cursor := 1) && second == Prepared(b, now).(cursor := 2)
    ensures AllEnabled(Start(capacity), ops)
    ensures Crosses(Run(Start(capacity), ops), first, second)
  {
    ops := BothAboutToAppend(capacity, a, b, now);
    hide Run, AllEnabled, PageOf, Prepared;
    CrossedFrom(Run(Start(capacity), ops), first, second);
  }

  lemma RunNothing(s: Race)
    ensures AllEnabled(s, []) && Run(s, []) == s
  {
  }

  lemma CrossedPages(first: Event, second: Event, between: seq<Event>, after: seq<Event>)
    requires first.cursor == 1 && second.cursor == 2 && between == [second] && after == [second, first]
    ensures
      var all, one, two := EMPTY_FILTER, EMPTY_FILTER.(since := 1), EMPTY_FILTER.(since := 2);
      && PageOf(between, all, 10) == Page([second], 2, false) && PageOf(after, two, 10) == Page([], 2, false)
      && PageOf(after, all, 10) == Page([second, first], 1, false) && PageOf(after, one, 10) == Page([second], 2, false)
      && PageOf(after, all, 1) == Page([second], 2, true)
  {
    hide Pending, PageOf;
    var all, one, two := EMPTY_FILTER, EMPTY_FILTER.(since := 1), EMPTY_FILTER.(since := 2);
    PendingOfTwo(second, first, all);
    PendingOfTwo(second, first, one);
    PendingOfTwo(second, first, two);
    FirstOfTwo(after, all, second, first);
    PageOfFew(between, all);
    PageOfFew(after, two);
    PageOfFew(after, all);
    PageOfFew(after, one);
  }
}
