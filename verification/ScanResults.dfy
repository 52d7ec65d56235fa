/**
 Reconciling the agent registry with a batch of process scans. Scans inside one
 WSL distribution see each other's agents, so a pid is claimed by one pane; every
 change is broadcast so that clients can follow the registry.
 */
module ScanResults {
  import opened Wrappers

  type PaneId = nat

  datatype AgentType = Claude | Codex | Copilot | Aider

  datatype Detected = Detected(name: string, agentType: AgentType, pid: nat)

  /** A registry entry; its status and detection time are not part of what is broadcast. */
  datatype Entry = Entry(name: string, agentType: AgentType, pid: Option<nat>)

  type Registry = map<PaneId, Entry>

  datatype Event = AgentChanged(pane: PaneId, name: Option<string>, typeName: Option<string>, pid: Option<nat>,
      session: Option<string>)

  datatype Scan = Scan(pane: PaneId, agents: seq<Detected>)

  function TypeName(t: AgentType): string {
    match t case Claude => "claude" case Codex => "codex" case Copilot => "copilot" case Aider => "aider"
  }

  function TypeOf(name: string): AgentType {
    if name == "claude" then Claude else if name == "codex" then Codex else if name == "copilot" then Copilot else Aider
  }

  lemma TypeNameRoundTrip(t: AgentType)
    ensures TypeOf(TypeName(t)) == t
  {
    assert TypeName(Claude)[1] == 'l' && TypeName(Codex)[2] == 'd' && TypeName(Copilot)[2] == 'p'
        && TypeName(Aider)[0] == 'a';
  }

  /** Panes are live or gone during the whole batch; `sessions` is what the capacity cache knows. */
  datatype Panes = Panes(live: set<PaneId>, sessions: map<PaneId, string>)

  datatype Batch = Batch(registry: Registry, claimed: set<nat>, events: seq<Event>)

  function SessionOf(panes: Panes, pane: PaneId): Option<string> {
    if pane in panes.sessions && panes.sessions[pane] != "" then Some(panes.sessions[pane]) else None
  }

  function EntryFor(a: Detected): Entry {
    Entry(a.name, a.agentType, Some(a.pid))
  }

  function Announce(panes: Panes, pane: PaneId, a: Detected): Event {
    AgentChanged(pane, Some(a.name), Some(TypeName(a.agentType)), Some(a.pid), SessionOf(panes, pane))
  }

  function Pids(r: Registry): set<nat> {
    set pane | pane in r && r[pane].pid.Some? :: r[pane].pid.value
  }

  function Step(panes: Panes, b: Batch, scan: Scan): Batch {
    var pane := scan.pane;
    if pane !in panes.live then b
    else if scan.agents != [] then
      var a := scan.agents[0];
      if pane !in b.registry && a.pid in b.claimed then b
      else if pane in b.registry && b.registry[pane].agentType == a.agentType
              && b.registry[pane].pid == Some(a.pid) then
        b.(claimed := b.claimed + {a.pid})
      else
        Batch(b.registry[pane := EntryFor(a)], b.claimed + {a.pid}, b.events + [Announce(panes, pane, a)])
    else if pane in b.registry && b.registry[pane].pid.Some? then
      b.(registry := b.registry - {pane}, events := b.events + [AgentChanged(pane, None, None, None, None)])
    else b
  }

  function Begin(r: Registry): Batch {
    Batch(r, Pids(r), [])
  }

  function After(panes: Panes, b: Batch, scans: seq<Scan>): Batch {
    if scans == [] then b else Step(panes, After(panes, b, scans[..|scans| - 1]), scans[|scans| - 1])
  }

  class SessionManager {
    var panes: Panes
    var registry: Registry
    var broadcast: seq<Event>

    constructor (panes: Panes)
      ensures this.panes == panes && registry == map[] && broadcast == []
    {
      this.panes := panes;
      registry := map[];
      broadcast := [];
    }

    method ApplyScanResults(scans: seq<Scan>)
      modifies `registry, `broadcast
      ensures registry == old(After(panes, Begin(registry), scans).registry)
      ensures broadcast == old(broadcast + After(panes, Begin(registry), scans).events)
    {
      var claimed := Pids(registry);
      ghost var begin := Begin(registry);
      for i := 0 to |scans|
        invariant panes == old(panes) && begin == old(Begin(registry))
        invariant var b := After(panes, begin, scans[..i]);
                  registry == b.registry && claimed == b.claimed && broadcast == old(broadcast) + b.events
      {
        assert scans[..i + 1][..i] == scans[..i];
        var pane, agents := scans[i].pane, scans[i].agents;
        if pane !in panes.live { continue; }
        if agents != [] && pane !in registry {
          var agent := agents[0];
          if agent.pid in claimed { continue; }
          registry := registry[pane := EntryFor(agent)];
          claimed := claimed + {agent.pid};
          broadcast := broadcast + [Announce(panes, pane, agent)];
        } else if agents != [] {
          var agent, existing := agents[0], registry[pane];
          claimed := claimed + {agent.pid};
          if existing.agentType != agent.agentType || existing.pid != Some(agent.pid) {
            registry := registry[pane := EntryFor(agent)];
            broadcast := broadcast + [Announce(panes, pane, agent)];
          }
        } else if pane in registry && registry[pane].pid.Some? {
          registry := registry - {pane};
          broadcast := broadcast + [AgentChanged(pane, None, None, None, None)];
        }
      }
      assert scans[..|scans|] == scans;
    }
  }

  // ── The events tell the whole story ──────────────────────────────────────

  /** How a client that only sees the events follows the registry. */
  function Follow(r: Registry, e: Event): Registry {
    if e.name.Some? && e.typeName.Some? then r[e.pane := Entry(e.name.value, TypeOf(e.typeName.value), e.pid)]
    else r - {e.pane}
  }

  function Replay(r: Registry, events: seq<Event>): Registry {
    if events == [] then r else Follow(Replay(r, events[..|events| - 1]), events[|events| - 1])
  }

  /** Replaying a batch's events over the registry as it stood before gives exactly the registry after it. */
  lemma {:induction false} ReplayGivesTheRegistry(panes: Panes, r: Registry, scans: seq<Scan>, b: Batch)
    requires b == After(panes, Begin(r), scans)
    ensures Replay(r, b.events) == b.registry
  {
    if scans != [] {
      var before := After(panes, Begin(r), scans[..|scans| - 1]);
      ReplayGivesTheRegistry(panes, r, scans[..|scans| - 1], before);
      StepFollows(panes, r, before, scans[|scans| - 1]);
    }
  }

  lemma AnnouncementRegisters(r: Registry, panes: Panes, pane: PaneId, a: Detected)
    ensures Follow(r, Announce(panes, pane, a)) == r[pane := EntryFor(a)]
  {
    TypeNameRoundTrip(a.agentType);
    hide TypeName, TypeOf;
  }

  lemma StepFollows(panes: Panes, r: Registry, b: Batch, scan: Scan)
    requires Replay(r, b.events) == b.registry
    ensures Replay(r, Step(panes, b, scan).events) == Step(panes, b, scan).registry
  {
    var gone := AgentChanged(scan.pane, None, None, None, None);
    assert Follow(b.registry, gone) == b.registry - {scan.pane};
    hide Replay, Follow, Announce, EntryFor;
    if scan.agents != [] {
      AnnouncementRegisters(b.registry, panes, scan.pane, scan.agents[0]);
    }
  }

  /** The words by which clients know the agents. */
  ghost predicate Named(t: AgentType, name: string) {
    && (t == Claude ==> name == "claude") && (t == Codex ==> name == "codex")
    && (t == Copilot ==> name == "copilot") && (t == Aider ==> name == "aider")
  }

  /** The pane is announced with the agent's name, type and pid and the session known of it, if that is not empty. */
  ghost predicate Announces(panes: Panes, pane: PaneId, a: Detected, e: Event) {
    && e.pane == pane && e.name == Some(a.name) && e.pid == Some(a.pid)
    && e.typeName.Some? && Named(a.agentType, e.typeName.value)
    && (if pane in panes.sessions && panes.sessions[pane] != "" then e.session == Some(panes.sessions[pane])
        else e.session == None)
  }

  /**
   What one scan does to its pane. The first agent found is registered and announced if
   the pane is live and had none, unless the pid is taken, or had another type or pid; a
   live pane in which none is found loses the agent that has a pid; else nothing happens.
   */
  lemma ScanDecides(panes: Panes, b: Batch, scan: Scan)
    ensures
      var t, pane := Step(panes, b, scan), scan.pane;
      var found := pane in panes.live && scan.agents != [];
      var registers := found &&
                       if pane !in b.registry then scan.agents[0].pid !in b.claimed
                       else b.registry[pane].agentType != scan.agents[0].agentType
                            || b.registry[pane].pid != Some(scan.agents[0].pid);
      var loses := pane in panes.live && scan.agents == [] && pane in b.registry && b.registry[pane].pid != None;
      && (registers ==>
            && pane in t.registry && t.registry[pane].name == scan.agents[0].name
            && t.registry[pane].agentType == scan.agents[0].agentType
            && t.registry[pane].pid == Some(scan.agents[0].pid)
            && |t.events| == |b.events| + 1 && t.events[..|b.events|] == b.events
            && Announces(panes, pane, scan.agents[0], t.events[|b.events|]))
      && (loses ==>
            && pane !in t.registry && |t.events| == |b.events| + 1 && t.events[..|b.events|] == b.events
            && t.events[|b.events|] == AgentChanged(pane, None, None, None, None))
      && (!registers && !loses ==> t.registry == b.registry && t.events == b.events)
      && t.claimed == b.claimed + if registers || (found && pane in b.registry) then {scan.agents[0].pid} else {}
  {
  }

  /** A batch begins with the pids in the registry taken, and no others. */
  lemma ClaimedAtFirst(r: Registry, pid: nat)
    ensures pid in Begin(r).claimed <==> exists pane :: pane in r && r[pane].pid == Some(pid)
    ensures Begin(r).registry == r && Begin(r).events == []
  {
  }

  /** Each scan broadcasts one event exactly when it changes the registry, and changes no pane but its own. */
  lemma EventIffChange(panes: Panes, b: Batch, scan: Scan)
    ensures
      var t := Step(panes, b, scan);
      && (t.registry != b.registry <==> |t.events| == |b.events| + 1)
      && (t.registry == b.registry <==> t.events == b.events)
      && t.registry - {scan.pane} == b.registry - {scan.pane}
  {
    var t := Step(panes, b, scan);
    if t.events != b.events && scan.agents != [] {
      assert t.registry[scan.pane] == EntryFor(scan.agents[0]);
    }
  }

  /** Panes that have gone are left as they were. */
  lemma {:induction false} GonePanesUntouched(panes: Panes, b: Batch, scans: seq<Scan>, pane: PaneId)
    requires pane !in panes.live
    ensures
      var t := After(panes, b, scans);
      (pane in t.registry <==> pane in b.registry) && (pane in b.registry ==> t.registry[pane] == b.registry[pane])
  {
    if scans != [] { GonePanesUntouched(panes, b, scans[..|scans| - 1], pane); }
  }

  // ── Who owns a pid ───────────────────────────────────────────────────────

  predicate Owns(r: Registry, pane: PaneId, pid: nat) {
    pane in r && r[pane].pid == Some(pid)
  }

  ghost predicate Unique(r: Registry) {
    forall p, q, pid :: Owns(r, p, pid) && Owns(r, q, pid) ==> p == q
  }

  /** Every pid in the registry is claimed. */
  ghost predicate AllClaimed(b: Batch) {
    forall p, pid :: Owns(b.registry, p, pid) ==> pid in b.claimed
  }

  lemma StepClaims(panes: Panes, b: Batch, scan: Scan)
    requires AllClaimed(b)
    ensures AllClaimed(Step(panes, b, scan)) && b.claimed <= Step(panes, b, scan).claimed
  {
    var t := Step(panes, b, scan);
    forall p, pid | Owns(t.registry, p, pid)
      ensures pid in t.claimed
    {
      assert p != scan.pane ==> Owns(b.registry, p, pid);
      assert Owns(b.registry, p, pid) ==> pid in b.claimed;
    }
  }

  lemma {:induction false} ClaimsGrow(panes: Panes, b: Batch, scans: seq<Scan>)
    requires AllClaimed(b)
    ensures AllClaimed(After(panes, b, scans)) && b.claimed <= After(panes, b, scans).claimed
  {
    if scans != [] {
      ClaimsGrow(panes, b, scans[..|scans| - 1]);
      StepClaims(panes, After(panes, b, scans[..|scans| - 1]), scans[|scans| - 1]);
    }
  }

  /** The pane has an agent and now reports one whose pid another pane holds: the claim is not consulted then. */
  ghost predicate TakesOver(panes: Panes, b: Batch, scan: Scan) {
    && scan.pane in panes.live && scan.pane in b.registry && scan.agents != []
    && exists q :: q != scan.pane && Owns(b.registry, q, scan.agents[0].pid)
  }

  /** One scan keeps pids unique unless it takes over; then it always breaks them. */
  lemma UniqueUnlessTakenOver(panes: Panes, b: Batch, scan: Scan)
    requires AllClaimed(b) && Unique(b.registry)
    ensures Unique(Step(panes, b, scan).registry) <==> !TakesOver(panes, b, scan)
  {
    var t := Step(panes, b, scan);
    if TakesOver(panes, b, scan) {
      var pid := scan.agents[0].pid;
      var q :| q != scan.pane && Owns(b.registry, q, pid);
      assert !Owns(b.registry, scan.pane, pid);
      assert Owns(t.registry, q, pid) && Owns(t.registry, scan.pane, pid);
    } else {
      forall p, q, pid | Owns(t.registry, p, pid) && Owns(t.registry, q, pid)
        ensures p == q
      {
        assert p != scan.pane ==> Owns(b.registry, p, pid);
        assert q != scan.pane ==> Owns(b.registry, q, pid);
      }
    }
  }

  ghost predicate UniqueAt(panes: Panes, r: Registry, scans: seq<Scan>, k: nat)
    requires k <= |scans|
  {
    Unique(After(panes, Begin(r), scans[..k]).registry)
  }

  ghost predicate TakenOverAt(panes: Panes, r: Registry, scans: seq<Scan>, k: nat)
    requires k < |scans|
  {
    TakesOver(panes, After(panes, Begin(r), scans[..k]), scans[k])
  }

  lemma UniqueNext(panes: Panes, r: Registry, scans: seq<Scan>, k: nat)
    requires k < |scans| && UniqueAt(panes, r, scans, k)
    ensures UniqueAt(panes, r, scans, k + 1) <==> !TakenOverAt(panes, r, scans, k)
  {
    ClaimsGrow(panes, Begin(r), scans[..k]);
    assert scans[..k + 1][..k] == scans[..k];
    hide Unique, AllClaimed, TakesOver, Step;
    UniqueUnlessTakenOver(panes, After(panes, Begin(r), scans[..k]), scans[k]);
  }

  /** From a registry with unique pids, pids stay unique throughout a batch if and only if no scan of it takes over. */
  lemma {:induction false} UniqueThroughoutIff(panes: Panes, r: Registry, scans: seq<Scan>, n: nat)
    requires Unique(r) && n <= |scans|
    ensures (forall k: nat :: k <= n ==> UniqueAt(panes, r, scans, k)) <==>
      (forall k: nat :: k < n ==> !TakenOverAt(panes, r, scans, k))
  {
    if n == 0 {
      assert UniqueAt(panes, r, scans, 0);
    } else {
      hide UniqueAt, TakenOverAt;
      UniqueThroughoutIff(panes, r, scans, n - 1);
      if UniqueAt(panes, r, scans, n - 1) { UniqueNext(panes, r, scans, n - 1); }
    }
  }

  /** A pane that has one agent and changes to a pid another pane holds ends up sharing it. */
  lemma ChangedPidIsShared(panes: Panes, r: Registry, scan: Scan, p: PaneId, q: PaneId, pid: nat)
    requires p != q && p in panes.live && p in r && !Owns(r, p, pid) && Owns(r, q, pid)
    requires scan.pane == p && scan.agents != [] && scan.agents[0].pid == pid
    ensures
      var t := After(panes, Begin(r), [scan]).registry;
      Owns(t, p, pid) && Owns(t, q, pid)
  {
    assert [scan][..0] == [];
  }

  ghost predicate DistinctPanes(scans: seq<Scan>) {
    forall i, j :: 0 <= i < j < |scans| ==> scans[i].pane != scans[j].pane
  }

  lemma {:induction false} UnscannedUntouched(panes: Panes, b: Batch, scans: seq<Scan>, pane: PaneId)
    requires forall i :: 0 <= i < |scans| ==> scans[i].pane != pane
    ensures
      var t := After(panes, b, scans);
      (pane in t.registry <==> pane in b.registry) && (pane in b.registry ==> t.registry[pane] == b.registry[pane])
  {
    if scans != [] { UnscannedUntouched(panes, b, scans[..|scans| - 1], pane); }
  }

  /** Whatever the order of the batch, a pane that had no agent never gets a pid that some pane held before it. */
  lemma {:induction false} HeldPidsAreNotStolen(panes: Panes, r: Registry, scans: seq<Scan>, t: Registry,
                                                owner: PaneId, pane: PaneId, pid: nat)
    requires DistinctPanes(scans) && t == After(panes, Begin(r), scans).registry
    requires Owns(r, owner, pid) && pane !in r
    ensures !Owns(t, pane, pid)
  {
    if scans != [] {
      var n := |scans| - 1;
      var before := After(panes, Begin(r), scans[..n]);
      ClaimsGrow(panes, Begin(r), scans[..n]);
      HeldPidsAreNotStolen(panes, r, scans[..n], before.registry, owner, pane, pid);
      if scans[n].pane == pane { UnscannedUntouched(panes, Begin(r), scans[..n], pane); }
    }
  }

  // ── The registry a batch leaves behind ───────────────────────────────────

  /** A scan of a live pane that found an agent with this pid. */
  predicate Reports(panes: Panes, scan: Scan, pid: nat) {
    scan.pane in panes.live && scan.agents != [] && scan.agents[0].pid == pid
  }

  /** The pane had an agent and reports this pid: it will hold it. */
  predicate Rejoins(panes: Panes, r: Registry, scans: seq<Scan>, i: nat, pid: nat) {
    i < |scans| && Reports(panes, scans[i], pid) && scans[i].pane in r
  }

  /** The pane had no agent and is the first to report this pid, which nobody held. */
  predicate Joins(panes: Panes, r: Registry, scans: seq<Scan>, i: nat, pid: nat) {
    && i < |scans| && Reports(panes, scans[i], pid) && scans[i].pane !in r && pid !in Pids(r)
    && forall j :: 0 <= j < i ==> !Reports(panes, scans[j], pid)
  }

  /** The pane held the pid and is not scanned while live. */
  ghost predicate Stays(panes: Panes, r: Registry, scans: seq<Scan>, pane: PaneId, pid: nat) {
    Owns(r, pane, pid) && (pane !in panes.live || forall i :: 0 <= i < |scans| ==> scans[i].pane != pane)
  }

  /** Who holds the pid after the batch, read off the registry before it and the scans. */
  ghost predicate EndsWith(panes: Panes, r: Registry, scans: seq<Scan>, pane: PaneId, pid: nat) {
    || Stays(panes, r, scans, pane, pid)
    || exists i: nat ::
         i < |scans| && scans[i].pane == pane && (Rejoins(panes, r, scans, i, pid) || Joins(panes, r, scans, i, pid))
  }

  /** A pid is claimed during a batch if it was held before or an earlier live scan reports it. */
  lemma {:induction false} ClaimedIff(panes: Panes, r: Registry, scans: seq<Scan>, pid: nat)
    ensures pid in After(panes, Begin(r), scans).claimed <==>
            pid in Pids(r) || exists j :: 0 <= j < |scans| && Reports(panes, scans[j], pid)
  {
    if scans != [] {
      var n := |scans| - 1;
      var before := scans[..n];
      ClaimedIff(panes, r, before, pid);
      hide Pids;
      if j :| 0 <= j < n && Reports(panes, before[j], pid) { assert Reports(panes, scans[j], pid); }
      if j :| 0 <= j < |scans| && Reports(panes, scans[j], pid) && j < n { assert Reports(panes, before[j], pid); }
      if Reports(panes, scans[n], pid) { assert pid in After(panes, Begin(r), scans).claimed; }
    }
  }

  lemma {:induction false} AfterAppend(panes: Panes, b: Batch, x: seq<Scan>, y: seq<Scan>)
    ensures After(panes, b, x + y) == After(panes, After(panes, b, x), y)
  {
    if y == [] {
      assert x + y == x;
    } else {
      hide Step;
      assert (x + y)[..|x + y| - 1] == x + y[..|y| - 1];
      AfterAppend(panes, b, x, y[..|y| - 1]);
    }
  }

  /** A pane's entry is decided by its only scan, and by what was claimed before it. */
  lemma OnlyScanDecides(panes: Panes, r: Registry, scans: seq<Scan>, i: nat, b: Batch)
    requires DistinctPanes(scans) && i < |scans| && b == After(panes, Begin(r), scans[..i])
    ensures
      var pane := scans[i].pane;
      var step, t := Step(panes, b, scans[i]).registry, After(panes, Begin(r), scans).registry;
      && (pane in b.registry <==> pane in r) && (pane in r ==> b.registry[pane] == r[pane])
      && (pane in t <==> pane in step) && (pane in step ==> t[pane] == step[pane])
  {
    var pane := scans[i].pane;
    var rest := scans[i + 1..];
    UnscannedUntouched(panes, Begin(r), scans[..i], pane);
    assert scans == scans[..i + 1] + rest;
    AfterAppend(panes, Begin(r), scans[..i + 1], rest);
    assert scans[..i + 1][..i] == scans[..i];
    UnscannedUntouched(panes, After(panes, Begin(r), scans[..i + 1]), rest, pane);
  }

  lemma ScannedEndsWith(panes: Panes, r: Registry, scans: seq<Scan>, i: nat, pid: nat)
    requires DistinctPanes(scans) && i < |scans| && scans[i].pane in panes.live
    ensures Owns(After(panes, Begin(r), scans).registry, scans[i].pane, pid) <==>
            Rejoins(panes, r, scans, i, pid) || Joins(panes, r, scans, i, pid)
  {
    var b := After(panes, Begin(r), scans[..i]);
    var a := scans[i];
    OnlyScanDecides(panes, r, scans, i, b);
    hide After, Pids;
    if a.agents != [] {
      ClaimedIff(panes, r, scans[..i], a.agents[0].pid);
      assert forall j :: 0 <= j < i ==> scans[..i][j] == scans[j];
    }
  }

  /** After the batch a pane holds a pid exactly as the inputs say. */
  lemma HoldersAfterBatch(panes: Panes, r: Registry, scans: seq<Scan>, t: Registry, pane: PaneId, pid: nat)
    requires DistinctPanes(scans) && t == After(panes, Begin(r), scans).registry
    ensures Owns(t, pane, pid) <==> EndsWith(panes, r, scans, pane, pid)
  {
    hide After;
    if pane !in panes.live {
      GonePanesUntouched(panes, Begin(r), scans, pane);
    } else if i: nat :| i < |scans| && scans[i].pane == pane {
      hide Rejoins, Joins;
      ScannedEndsWith(panes, r, scans, i, pid);
      forall j: nat | j < |scans| && scans[j].pane == pane ensures j == i {}
    } else {
      UnscannedUntouched(panes, Begin(r), scans, pane);
    }
  }

  /**
   What makes two panes share a pid, on the inputs alone: a pane that had an agent
   reports a pid that another such pane reports too, that an unscanned pane keeps,
   or that a newcomer reported before it.
   */
  ghost predicate Clash(panes: Panes, r: Registry, scans: seq<Scan>, i: nat, pid: nat) {
    && Rejoins(panes, r, scans, i, pid)
    && (|| (exists j: nat :: j != i && (Rejoins(panes, r, scans, j, pid) || Joins(panes, r, scans, j, pid)))
        || (exists q: PaneId :: q != scans[i].pane && Stays(panes, r, scans, q, pid)))
  }

  lemma ClashIsShared(panes: Panes, r: Registry, scans: seq<Scan>, t: Registry, i: nat, pid: nat)
    requires DistinctPanes(scans) && t == After(panes, Begin(r), scans).registry && Clash(panes, r, scans, i, pid)
    ensures !Unique(t)
  {
    var p := scans[i].pane;
    hide After, Rejoins, Joins, Stays;
    HoldersAfterBatch(panes, r, scans, t, p, pid);
    assert Owns(t, p, pid);
    if j: nat :| j != i && (Rejoins(panes, r, scans, j, pid) || Joins(panes, r, scans, j, pid)) {
      assert j < |scans|;
      HoldersAfterBatch(panes, r, scans, t, scans[j].pane, pid);
      assert Owns(t, scans[j].pane, pid);
    } else {
      var q: PaneId :| q != p && Stays(panes, r, scans, q, pid);
      HoldersAfterBatch(panes, r, scans, t, q, pid);
      assert Owns(t, q, pid);
    }
  }

  lemma SharedIsClash(panes: Panes, r: Registry, scans: seq<Scan>, p: PaneId, q: PaneId, pid: nat)
    requires Unique(r) && DistinctPanes(scans) && p != q
    requires EndsWith(panes, r, scans, p, pid) && EndsWith(panes, r, scans, q, pid)
    ensures exists i :: Clash(panes, r, scans, i, pid)
  {
    if Stays(panes, r, scans, p, pid) && Stays(panes, r, scans, q, pid) {
      assert false;
    } else if Stays(panes, r, scans, p, pid) {
      KeeperAndScanned(panes, r, scans, p, q, pid);
    } else if Stays(panes, r, scans, q, pid) {
      KeeperAndScanned(panes, r, scans, q, p, pid);
    } else {
      var i: nat :| i < |scans| && scans[i].pane == p
          && (Rejoins(panes, r, scans, i, pid) || Joins(panes, r, scans, i, pid));
      var j: nat :| j < |scans| && scans[j].pane == q
          && (Rejoins(panes, r, scans, j, pid) || Joins(panes, r, scans, j, pid));
      hide Rejoins, Joins;
      assert Clash(panes, r, scans, i, pid) || Clash(panes, r, scans, j, pid);
    }
  }

  lemma KeeperAndScanned(panes: Panes, r: Registry, scans: seq<Scan>, keeper: PaneId, q: PaneId, pid: nat)
    requires keeper != q && Stays(panes, r, scans, keeper, pid)
    requires EndsWith(panes, r, scans, q, pid) && !Stays(panes, r, scans, q, pid)
    ensures exists i :: Clash(panes, r, scans, i, pid)
  {
    var i: nat :| i < |scans| && scans[i].pane == q
        && (Rejoins(panes, r, scans, i, pid) || Joins(panes, r, scans, i, pid));
    assert Clash(panes, r, scans, i, pid);
  }

  /**
   From unique pids, and with each pane scanned at most once, the registry the
   batch leaves behind has unique pids if and only if nothing clashes.
   */
  lemma UniqueAfterBatchIff(panes: Panes, r: Registry, scans: seq<Scan>, t: Registry)
    requires Unique(r) && DistinctPanes(scans) && t == After(panes, Begin(r), scans).registry
    ensures Unique(t) <==> !exists i: nat, pid: nat :: Clash(panes, r, scans, i, pid)
  {
    hide After, Clash, EndsWith, DistinctPanes;
    if i: nat, pid: nat :| Clash(panes, r, scans, i, pid) { ClashIsShared(panes, r, scans, t, i, pid); }
    if !Unique(t) {
      var p, q, pid :| Owns(t, p, pid) && Owns(t, q, pid) && p != q;
      hide Owns, Unique;
      HoldersAfterBatch(panes, r, scans, t, p, pid);
      HoldersAfterBatch(panes, r, scans, t, q, pid);
      SharedIsClash(panes, r, scans, p, q, pid);
    }
  }

  /** In particular pids stay unique if every scanned pane that had an agent reports the pid it had. */
  lemma UniqueIfPidsAreKept(panes: Panes, r: Registry, scans: seq<Scan>, t: Registry)
    requires Unique(r) && DistinctPanes(scans) && t == After(panes, Begin(r), scans).registry
    requires forall i :: 0 <= i < |scans| && scans[i].pane in r && scans[i].agents != [] ==>
               r[scans[i].pane].pid == Some(scans[i].agents[0].pid)
    ensures Unique(t)
  {
    forall i: nat, pid: nat ensures !Clash(panes, r, scans, i, pid) {
      if Rejoins(panes, r, scans, i, pid) {
        assert Owns(r, scans[i].pane, pid);
        forall j: nat | Rejoins(panes, r, scans, j, pid) ensures j == i {
          assert Owns(r, scans[j].pane, pid);
        }
      }
    }
    hide After, Clash;
    UniqueAfterBatchIff(panes, r, scans, t);
  }
}
