/**
 The trust gate in front of every tool call: tiers, session grants, allowlists,
 and the sliding-window rate limiter behind them. The clock is a parameter.
 */
module Trust {
  import opened Wrappers
  import opened Selection

  type U32 = n: int | 0 <= n < 0x1_0000_0000

  /** Sixty seconds on the nanosecond clock. */
  const MINUTE := 60_000_000_000

  datatype Tier = Sandboxed | Supervised | Trusted {
    function Level(): nat {
      match this case Sandboxed => 0 case Supervised => 1 case Trusted => 2
    }

    predicate HasAccess(required: Tier) {
      Level() >= required.Level()
    }
  }

  datatype Category = Observer | Writer | Admin {
    function RequiredTier(): Tier {
      match this case Observer => Sandboxed case Writer => Supervised case Admin => Trusted
    }
  }

  const OBSERVER_TOOLS: set<string> := {
    "terminal.sessions.list", "terminal.sessions.get", "terminal.panes.list", "terminal.panes.get_geometry",
    "terminal.panes.get_content", "terminal.panes.get_summary", "terminal.panes.peek",
    "terminal.panes.wait_for_output", "terminal.panes.capture_result", "terminal.panes.query_events",
    "terminal.semantic.query_history", "terminal.semantic.query_commands", "terminal.semantic.get_hotspots",
    "terminal.workspaces.list", "terminal.workspaces.get_layout", "terminal.agents.list",
    "terminal.agents.get_details", "terminal.agents.get_status", "terminal.agents.get_session_detail",
    "terminal.agents.get_cadence", "terminal.agents.find_with_capacity", "terminal.patterns.stats",
    "terminal.events.stats" }

  const WRITER_TOOLS: set<string> := {
    "terminal.sessions.create", "terminal.panes.write", "terminal.panes.create", "terminal.panes.create_tail",
    "terminal.panes.tag", "terminal.panes.untag", "terminal.panes.pin", "terminal.panes.unpin",
    "terminal.widgets.timeline.toggle" }

  const ADMIN_TOOLS: set<string> := { "terminal.sessions.destroy", "terminal.panes.destroy" }

  function ToolCategory(tool: string): Option<Category> {
    if tool in OBSERVER_TOOLS then Some(Observer)
    else if tool in WRITER_TOOLS then Some(Writer)
    else if tool in ADMIN_TOOLS then Some(Admin)
    else None
  }

  datatype Agent = Agent(name: string, connection: nat)
  datatype AgentConfig = AgentConfig(tier: Tier, allowedTools: Option<seq<string>>)
  datatype TrustConfig = TrustConfig(defaultTier: Tier, agents: map<string, AgentConfig>, autoApproveTier: Option<Tier>)

  datatype Denial = TierTooLow(tier: Tier, required: Tier) | NotInAllowlist | RateLimited
  datatype CheckResult =
    | Allowed
    | Denied(reason: Denial)
    | Escalation(agentName: string, tool: string, currentTier: Tier, requiredTier: Tier)

  function ResolveTier(agent: Agent, config: TrustConfig): Tier {
    if agent.name in config.agents then config.agents[agent.name].tier else config.defaultTier
  }

  type Grants = set<(nat, string)>
  type Windows = map<string, seq<int>>

  function Since(cut: int): int -> bool { t => t > cut }

  function Within(lo: int, hi: int): int -> bool { t => lo < t <= hi }

  /** The agent's recorded times that lie in the last minute. */
  function Recent(windows: Windows, name: string, now: int): seq<int> {
    Select(if name in windows then windows[name] else [], Since(now - MINUTE))
  }

  /** The limiter's decision; the window's length is compared as a 32-bit number. */
  predicate Admits(windows: Windows, cap: U32, name: string, now: int) {
    cap == 0 || |Recent(windows, name, now)| % 0x1_0000_0000 < cap
  }

  function Recorded(windows: Windows, cap: U32, name: string, now: int): Windows {
    if cap == 0 then windows
    else if Admits(windows, cap, name, now) then windows[name := Recent(windows, name, now) + [now]]
    else windows[name := Recent(windows, name, now)]
  }

  /** Every check before the limiter: None when the call passes them. */
  function Objection(tool: string, category: Category, agent: Agent, config: TrustConfig,
                     grants: Option<Grants>): Option<CheckResult> {
    var tier := ResolveTier(agent, config);
    var required := category.RequiredTier();
    if !tier.HasAccess(required) && grants.None? then Some(Denied(TierTooLow(tier, required)))
    else if !tier.HasAccess(required) && (agent.connection, tool) !in grants.value
            && !(config.autoApproveTier.Some? && config.autoApproveTier.value.HasAccess(required)) then
      Some(Escalation(agent.name, tool, tier, required))
    else if agent.name in config.agents && config.agents[agent.name].allowedTools.Some?
            && tool !in config.agents[agent.name].allowedTools.value then
      Some(Denied(NotInAllowlist))
    else None
  }

  /** Does the call get as far as the limiter? */
  predicate ReachesLimiter(tool: string, agent: Agent, config: TrustConfig, grants: Option<Grants>) {
    ToolCategory(tool) == Some(Admin) && Objection(tool, Admin, agent, config, grants).None?
  }

  function GateResult(tool: string, agent: Agent, config: TrustConfig, grants: Option<Grants>,
                      windows: Windows, cap: U32, now: int): CheckResult
  {
    match ToolCategory(tool)
    case None => Allowed
    case Some(category) =>
      match Objection(tool, category, agent, config, grants)
      case Some(refusal) => refusal
      case None => if category.Admin? && !Admits(windows, cap, agent.name, now) then Denied(RateLimited) else Allowed
  }

  class RateLimiter {
    var maxPerMinute: U32
    var windows: Windows

    constructor (max: U32)
      ensures maxPerMinute == max && windows == map[]
    {
      maxPerMinute := max;
      windows := map[];
    }

    method CheckAndRecord(name: string, now: int) returns (admitted: bool)
      modifies `windows
      ensures admitted == old(Admits(windows, maxPerMinute, name, now))
      ensures windows == old(Recorded(windows, maxPerMinute, name, now))
    {
      if maxPerMinute == 0 { return true; }
      var since := now - MINUTE;
      var timestamps := if name in windows then windows[name] else [];
      timestamps := Select(timestamps, Since(since));
      if |timestamps| % 0x1_0000_0000 >= maxPerMinute {
        admitted := false;
      } else {
        timestamps := timestamps + [now];
        admitted := true;
      }
      windows := windows[name := timestamps];
    }

    method SetMaxPerMinute(max: U32)
      modifies `maxPerMinute
      ensures maxPerMinute == max
    {
      maxPerMinute := max;
    }
  }

  class SessionGrants {
    var grants: Grants

    constructor ()
      ensures grants == {}
    {
      grants := {};
    }

    method Grant(connection: nat, tool: string)
      modifies this
      ensures grants == old(grants) + {(connection, tool)}
    {
      grants := grants + {(connection, tool)};
    }
  }

  method CheckToolAccess(tool: string, agent: Agent, config: TrustConfig, limiter: RateLimiter,
                         sessionGrants: SessionGrants?, now: int) returns (result: CheckResult)
    modifies limiter`windows
    ensures
      var grants := if sessionGrants == null then None else Some(sessionGrants.grants);
      && result == old(GateResult(tool, agent, config, grants, limiter.windows, limiter.maxPerMinute, now))
      && limiter.windows == old(if ReachesLimiter(tool, agent, config, grants)
                                then Recorded(limiter.windows, limiter.maxPerMinute, agent.name, now)
                                    else limiter.windows)
  {
    hide ToolCategory;
    var category := ToolCategory(tool);
    if category.None? { return Allowed; }
    var tier := ResolveTier(agent, config);
    var required := category.value.RequiredTier();
    if !tier.HasAccess(required) {
      if sessionGrants == null { return Denied(TierTooLow(tier, required)); }
      if (agent.connection, tool) !in sessionGrants.grants {
        if config.autoApproveTier.None? || !config.autoApproveTier.value.HasAccess(required) {
          return Escalation(agent.name, tool, tier, required);
        }
      }
    }
    if agent.name in config.agents && config.agents[agent.name].allowedTools.Some?
       && tool !in config.agents[agent.name].allowedTools.value {
      return Denied(NotInAllowlist);
    }
    if category.value.Admin? {
      var admitted := limiter.CheckAndRecord(agent.name, now);
      if !admitted { return Denied(RateLimited); }
    }
    result := Allowed;
  }

  // ── Runs of the gate ─────────────────────────────────────────────────────

  /** A tool call; `prompts` says that a user can be asked, `ticket` is the number an escalation of it would get. */
  datatype Call = Call(tool: string, agent: Agent, config: TrustConfig, prompts: bool, ticket: nat, now: int)

  /** `asked` are the escalated calls that wait for the user, by ticket. */
  datatype Gate = Gate(cap: U32, windows: Windows, grants: Grants, asked: map<nat, Call>)

  /**
   The configuration may differ from call to call. An escalation that nobody can be
   asked about, or that is not answered in time, is declined.
   */
  datatype Op =
    | Check(call: Call)
    | Approve(ticket: nat, at: int)
    | Decline(ticket: nat)
    | SetCap(max: U32)

  function Visible(g: Gate, call: Call): Option<Grants> {
    if call.prompts then Some(g.grants) else None
  }

  function Outcome(g: Gate, call: Call): CheckResult {
    GateResult(call.tool, call.agent, call.config, Visible(g, call), g.windows, g.cap, call.now)
  }

  predicate Metered(g: Gate, call: Call) {
    ReachesLimiter(call.tool, call.agent, call.config, Visible(g, call))
  }

  function Asked(g: Gate, call: Call): map<nat, Call> {
    if Outcome(g, call).Escalation? then g.asked[call.ticket := call] else g.asked
  }

  function Step(g: Gate, op: Op): Gate {
    match op
    case Check(call) =>
      var windows := if Metered(g, call) then Recorded(g.windows, g.cap, call.agent.name, call.now) else g.windows;
      g.(windows := windows, asked := Asked(g, call))
    case Approve(ticket, _) =>
      if ticket in g.asked then
        g.(grants := g.grants + {(g.asked[ticket].agent.connection, g.asked[ticket].tool)}, asked := g.asked - {ticket})
      else g
    case Decline(ticket) => g.(asked := g.asked - {ticket})
    case SetCap(max) => g.(cap := max)
  }

  function Run(g: Gate, ops: seq<Op>): Gate {
    if ops == [] then g else Step(Run(g, ops[..|ops| - 1]), ops[|ops| - 1])
  }

  predicate AdminOf(call: Call, name: string) {
    call.agent.name == name && ToolCategory(call.tool) == Some(Admin)
  }

  /** When the operation is an Admin call of the agent that the gate allows, its time. */
  function NewlyAllowed(g: Gate, op: Op, name: string): seq<int> {
    if op.Check? && AdminOf(op.call, name) && Outcome(g, op.call) == Allowed then [op.call.now] else []
  }

  /** When the gate allowed the agent's Admin calls. */
  function AllowedAt(g: Gate, ops: seq<Op>, name: string): seq<int> {
    if ops == [] then []
    else AllowedAt(g, ops[..|ops| - 1], name) + NewlyAllowed(Run(g, ops[..|ops| - 1]), ops[|ops| - 1], name)
  }

  predicate Timed(op: Op) {
    op.Check? || op.Approve?
  }

  function TimeOf(op: Op): int
    requires Timed(op)
  {
    if op.Check? then op.call.now else op.at
  }

  ghost predicate NotAfter(ops: seq<Op>, now: int) {
    forall i :: 0 <= i < |ops| && Timed(ops[i]) ==> TimeOf(ops[i]) <= now
  }

  ghost predicate Ordered(ops: seq<Op>) {
    forall i, j :: 0 <= i < j < |ops| && Timed(ops[i]) && Timed(ops[j]) ==> TimeOf(ops[i]) <= TimeOf(ops[j])
  }

  /** A cap is always in force, and never above c. */
  ghost predicate CapsWithin(g: Gate, ops: seq<Op>, c: U32) {
    0 < g.cap <= c && forall i :: 0 <= i < |ops| && ops[i].SetCap? ==> 0 < ops[i].max <= c
  }

  lemma {:induction false} CapWithin(g: Gate, ops: seq<Op>, c: U32)
    requires CapsWithin(g, ops, c)
    ensures 0 < Run(g, ops).cap <= c
  {
    if ops != [] { CapWithin(g, ops[..|ops| - 1], c); }
  }

  ghost predicate WindowsWithin(windows: Windows, c: U32) {
    forall name :: name in windows ==> |windows[name]| <= c
  }

  lemma RecentFits(windows: Windows, c: U32, name: string, now: int)
    requires WindowsWithin(windows, c)
    ensures |Recent(windows, name, now)| <= c
  {
    SelectFewer(if name in windows then windows[name] else [], Since(now - MINUTE), Since(now - MINUTE));
  }

  lemma {:induction false} WindowsStayWithin(g: Gate, ops: seq<Op>, c: U32)
    requires WindowsWithin(g.windows, c) && CapsWithin(g, ops, c)
    ensures WindowsWithin(Run(g, ops).windows, c)
  {
    if ops != [] {
      var before, op := ops[..|ops| - 1], ops[|ops| - 1];
      WindowsStayWithin(g, before, c);
      CapWithin(g, before, c);
      hide ToolCategory, Objection, Select;
      var h := Run(g, before);
      if op.Check? { RecentFits(h.windows, c, op.call.agent.name, op.call.now); }
    }
  }

  lemma AdmitsIffBelowCap(windows: Windows, c: U32, cap: U32, name: string, now: int)
    requires WindowsWithin(windows, c) && cap > 0
    ensures Admits(windows, cap, name, now) <==> |Recent(windows, name, now)| < cap
  {
    RecentFits(windows, c, name, now);
    hide Recent;
  }

  lemma RecentOfRecorded(windows: Windows, cap: U32, name: string, time: int, other: string, now: int)
    requires cap > 0 && time <= now
    ensures Recent(Recorded(windows, cap, name, time), other, now) ==
            Recent(windows, other, now) +
            if other == name && Admits(windows, cap, name, time) then Select([time], Since(now - MINUTE)) else []
  {
    hide Select;
    if other == name {
      var s := if name in windows then windows[name] else [];
      var extra := if Admits(windows, cap, name, time) then [time] else [];
      SelectAppend(Recent(windows, name, time), extra, Since(now - MINUTE));
      SelectTwice(s, Since(time - MINUTE), Since(now - MINUTE));
      assert Select([], Since(now - MINUTE)) == [] by { SelectNothing([], Since(now - MINUTE)); }
    }
  }

  lemma StepRemembersWhatItAllows(g: Gate, op: Op, name: string, now: int)
    requires g.cap > 0 && (op.Check? ==> op.call.now <= now)
    ensures Recent(Step(g, op).windows, name, now)
      == Recent(g.windows, name, now) + Select(NewlyAllowed(g, op, name), Since(now - MINUTE))
  {
    assert Select([], Since(now - MINUTE)) == [] by { SelectNothing([], Since(now - MINUTE)); }
    hide Select, Recent, Recorded, Admits, Objection, ToolCategory;
    if op.Check? && Metered(g, op.call) {
      RecentOfRecorded(g.windows, g.cap, op.call.agent.name, op.call.now, name, now);
    }
  }

  /** What the limiter still remembers in the last minute is what the gate allowed in the last minute. */
  lemma {:induction false} WindowIsWhatWasAllowed(g: Gate, ops: seq<Op>, c: U32, name: string, now: int)
    requires g.windows == map[] && CapsWithin(g, ops, c) && Ordered(ops) && NotAfter(ops, now)
    ensures Recent(Run(g, ops).windows, name, now) == Select(AllowedAt(g, ops, name), Since(now - MINUTE))
  {
    if ops == [] {
      SelectNothing([], Since(now - MINUTE));
    } else {
      var before, op := ops[..|ops| - 1], ops[|ops| - 1];
      CapWithin(g, before, c);
      WindowIsWhatWasAllowed(g, before, c, name, now);
      hide Select, Recent, Step, NewlyAllowed;
      StepRemembersWhatItAllows(Run(g, before), op, name, now);
      SelectAppend(AllowedAt(g, before, name), NewlyAllowed(Run(g, before), op, name), Since(now - MINUTE));
    }
  }

  lemma MeteredOutcome(g: Gate, call: Call)
    requires Metered(g, call)
    ensures Outcome(g, call) == if Admits(g.windows, g.cap, call.agent.name, call.now) then Allowed
                                else Denied(RateLimited)
  {
    hide Objection, ToolCategory, Admits;
  }

  lemma NothingRecorded(c: U32)
    ensures WindowsWithin(map[], c)
  {
  }

  lemma AllowedInMinute(g: Gate, ops: seq<Op>, name: string, now: int)
    requires NotAfter(ops, now)
    ensures Select(AllowedAt(g, ops, name), Since(now - MINUTE))
      == Select(AllowedAt(g, ops, name), Within(now - 60_000_000_000, now))
  {
    AllowedNotAfter(g, ops, name, now);
    hide AllowedAt, NotAfter, Select;
    SelectCongruent(AllowedAt(g, ops, name), Since(now - MINUTE), Within(now - 60_000_000_000, now));
  }

  /** A metered call is refused exactly when the minute before it already holds as many allowed calls as the cap. */
  lemma {:induction false} RefusedIffMinuteIsFull(g: Gate, ops: seq<Op>, h: Gate, c: U32, call: Call)
    requires g.windows == map[] && CapsWithin(g, ops, c) && Ordered(ops) && h == Run(g, ops)
    requires NotAfter(ops, call.now) && Metered(h, call)
    ensures Outcome(h, call) == (
              if |Select(AllowedAt(g, ops, call.agent.name), Within(call.now - 60_000_000_000, call.now))| >= h.cap
              then Denied(RateLimited) else Allowed)
  {
    hide *;
    AllowedInMinute(g, ops, call.agent.name, call.now);
    NothingRecorded(c);
    WindowIsWhatWasAllowed(g, ops, c, call.agent.name, call.now);
    WindowsStayWithin(g, ops, c);
    CapWithin(g, ops, c);
    AdmitsIffBelowCap(h.windows, c, h.cap, call.agent.name, call.now);
    MeteredOutcome(h, call);
  }

  lemma {:induction false} AllowedNotAfter(g: Gate, ops: seq<Op>, name: string, now: int)
    requires NotAfter(ops, now)
    ensures forall i :: 0 <= i < |AllowedAt(g, ops, name)| ==> AllowedAt(g, ops, name)[i] <= now
  {
    if ops != [] {
      hide Outcome, ToolCategory, Run;
      AllowedNotAfter(g, ops[..|ops| - 1], name, now);
    }
  }

  lemma NewlyAllowedIsMetered(g: Gate, op: Op, name: string)
    requires NewlyAllowed(g, op, name) != []
    ensures op.Check? && op.call.agent.name == name && NewlyAllowed(g, op, name) == [op.call.now]
    ensures Metered(g, op.call) && Outcome(g, op.call) == Allowed
  {
    hide ToolCategory, Admits;
  }

  lemma AllowedEndsMinute(g: Gate, before: seq<Op>, h: Gate, c: U32, name: string, t: int, op: Op)
    requires g.windows == map[] && CapsWithin(g, before, c) && Ordered(before) && h == Run(g, before)
    requires op.Check? ==> NotAfter(before, op.call.now)
    requires |Select(AllowedAt(g, before, name), Within(t - MINUTE, t))| <= c
    ensures |Select(AllowedAt(g, before, name) + NewlyAllowed(h, op, name), Within(t - MINUTE, t))| <= c
  {
    hide Run, AllowedAt, NewlyAllowed, Outcome, Metered, CapsWithin, Ordered, NotAfter;
    var times := AllowedAt(g, before, name);
    var added := NewlyAllowed(h, op, name);
    SelectAppend(times, added, Within(t - MINUTE, t));
    if added == [] {
      SelectNothing(added, Within(t - MINUTE, t));
    } else {
      NewlyAllowedIsMetered(h, op, name);
      SelectFewer(added, Within(t - MINUTE, t), Within(t - MINUTE, t));
      if op.call.now <= t {
        RefusedIffMinuteIsFull(g, before, h, c, op.call);
        CapWithin(g, before, c);
        AllowedNotAfter(g, before, name, op.call.now);
        SelectFewer(times, Within(t - MINUTE, t), Within(op.call.now - MINUTE, op.call.now));
        hide *;
      } else {
        SelectNothing(added, Within(t - MINUTE, t));
      }
    }
  }

  /** In every run, any sixty seconds hold at most c Admin calls under one agent name that the gate itself allows. */
  lemma {:induction false} AtMostCapPerMinute(g: Gate, ops: seq<Op>, c: U32, name: string, t: int)
    requires g.windows == map[] && CapsWithin(g, ops, c) && Ordered(ops)
    ensures |Select(AllowedAt(g, ops, name), Within(t - 60_000_000_000, t))| <= c
  {
    if ops != [] {
      var before, op := ops[..|ops| - 1], ops[|ops| - 1];
      AtMostCapPerMinute(g, before, c, name, t);
      hide Select, NewlyAllowed;
      AllowedEndsMinute(g, before, Run(g, before), c, name, t, op);
    }
  }

  // ── Refused calls cost nothing ───────────────────────────────────────────

  function Outcomes(g: Gate, ops: seq<Op>): seq<CheckResult>
    decreases |ops|
  {
    if ops == [] then []
    else (if ops[0].Check? then [Outcome(g, ops[0].call)] else []) + Outcomes(Step(g, ops[0]), ops[1..])
  }

  /** The two gates will decide alike from the given time on, escalations under the given tickets aside. */
  ghost predicate Alike(a: Gate, b: Gate, from: int, except: set<nat>) {
    a.cap == b.cap && a.grants == b.grants && a.asked - except == b.asked - except
    && forall name, now :: now >= from ==> Recent(a.windows, name, now) == Recent(b.windows, name, now)
  }

  lemma RefusalLeavesAlike(g: Gate, call: Call)
    requires Outcome(g, call) != Allowed
    ensures Alike(Step(g, Check(call)), g, call.now, if Outcome(g, call).Escalation? then {call.ticket} else {})
  {
    hide Objection, ToolCategory, Select, Recent;
    if Metered(g, call) && g.cap > 0 {
      forall name, now | now >= call.now
        ensures Recent(Step(g, Check(call)).windows, name, now) == Recent(g.windows, name, now)
      {
        RecentOfRecorded(g.windows, g.cap, call.agent.name, call.now, name, now);
      }
    }
  }

  lemma AlikeStaysAlike(a: Gate, b: Gate, op: Op, from: int, except: set<nat>)
    requires Alike(a, b, from, except) && (op.Check? ==> from <= op.call.now) && (op.Approve? ==> op.ticket !in except)
    ensures op.Check? ==> Outcome(a, op.call) == Outcome(b, op.call)
    ensures Alike(Step(a, op), Step(b, op), if op.Check? then op.call.now else from, except)
  {
    if op.Check? {
      CheckStaysAlike(a, b, op.call, from, except);
    } else {
      hide Recent;
      assert op.Approve? ==>
          (op.ticket in a.asked <==> op.ticket in a.asked - except)
          && (op.ticket in b.asked <==> op.ticket in b.asked - except);
      assert op.Approve? || op.Decline? ==>
          a.asked - {op.ticket} - except == a.asked - except - {op.ticket}
          && b.asked - {op.ticket} - except == b.asked - except - {op.ticket};
    }
  }

  lemma CheckStaysAlike(a: Gate, b: Gate, call: Call, from: int, except: set<nat>)
    requires Alike(a, b, from, except) && from <= call.now
    ensures Outcome(a, call) == Outcome(b, call)
    ensures Alike(Step(a, Check(call)), Step(b, Check(call)), call.now, except)
  {
    hide Objection, ToolCategory, Select, Recent;
    AskedUnderOther(a.asked, call, except);
    AskedUnderOther(b.asked, call, except);
    if Metered(a, call) && a.cap > 0 {
      forall name, now | now >= call.now
        ensures Recent(Step(a, Check(call)).windows, name, now) == Recent(Step(b, Check(call)).windows, name, now)
      {
        RecentOfRecorded(a.windows, a.cap, call.agent.name, call.now, name, now);
        RecentOfRecorded(b.windows, b.cap, call.agent.name, call.now, name, now);
      }
    }
  }

  lemma AskedUnderOther(asked: map<nat, Call>, call: Call, except: set<nat>)
    ensures asked[call.ticket := call] - except ==
            if call.ticket in except then asked - except else (asked - except)[call.ticket := call]
  {
  }

  lemma {:induction false} AlikeOutcomes(a: Gate, b: Gate, ops: seq<Op>, from: int, except: set<nat>)
    requires Alike(a, b, from, except) && Ordered(ops)
    requires forall i :: 0 <= i < |ops| && ops[i].Check? ==> from <= ops[i].call.now
    requires forall i :: 0 <= i < |ops| && ops[i].Approve? ==> ops[i].ticket !in except
    ensures Outcomes(a, ops) == Outcomes(b, ops)
    decreases |ops|
  {
    if ops != [] {
      AlikeStaysAlike(a, b, ops[0], from, except);
      hide Alike, Outcome, Step;
      AlikeOutcomes(Step(a, ops[0]), Step(b, ops[0]), ops[1..],
                    if ops[0].Check? then ops[0].call.now else from, except);
    }
  }

  /**
   A call refused anywhere in the gate, by the limiter too, changes nothing that is
   decided later; nor does an escalated call that the user does not approve.
   */
  lemma RefusedCallsUseNoBudget(g: Gate, call: Call, later: seq<Op>)
    requires Outcome(g, call) != Allowed && Ordered([Check(call)] + later)
    requires Outcome(g, call).Escalation? ==>
               forall i :: 0 <= i < |later| && later[i].Approve? ==> later[i].ticket != call.ticket
    ensures Outcomes(Step(g, Check(call)), later) == Outcomes(g, later)
  {
    hide *;
    var except := if Outcome(g, call).Escalation? then {call.ticket} else {};
    RefusalLeavesAlike(g, call);
    OrderedTail(Check(call), later);
    AlikeOutcomes(Step(g, Check(call)), g, later, call.now, except);
  }

  lemma OrderedTail(op: Op, later: seq<Op>)
    requires op.Check? && Ordered([op] + later)
    ensures Ordered(later)
    ensures forall i :: 0 <= i < |later| && later[i].Check? ==> op.call.now <= later[i].call.now
  {
    var all := [op] + later;
    assert forall i :: 0 <= i < |later| ==> all[i + 1] == later[i];
    forall i | 0 <= i < |later| && later[i].Check? ensures op.call.now <= later[i].call.now {
      assert Timed(all[0]) && Timed(all[i + 1]);
    }
    forall i, j | 0 <= i < j < |later| && Timed(later[i]) && Timed(later[j])
      ensures TimeOf(later[i]) <= TimeOf(later[j])
    {
      assert Timed(all[i + 1]) && Timed(all[j + 1]);
    }
  }

  // ── Grants ───────────────────────────────────────────────────────────────

  /** Does the i-th operation approve an escalated call of the connection for the tool? */
  ghost predicate ApprovesAt(g: Gate, ops: seq<Op>, i: nat, connection: nat, tool: string) {
    && i < |ops| && ops[i].Approve? && ops[i].ticket in Run(g, ops[..i]).asked
    && Run(g, ops[..i]).asked[ops[i].ticket].agent.connection == connection
    && Run(g, ops[..i]).asked[ops[i].ticket].tool == tool
  }

  /** Has the user approved an escalated call of the connection for the tool at some point of the run? */
  ghost predicate Approved(g: Gate, ops: seq<Op>, connection: nat, tool: string) {
    exists i: nat :: ApprovesAt(g, ops, i, connection, tool)
  }

  lemma ApprovedSnoc(g: Gate, ops: seq<Op>, connection: nat, tool: string)
    requires ops != []
    ensures Approved(g, ops, connection, tool) <==>
      Approved(g, ops[..|ops| - 1], connection, tool) || ApprovesAt(g, ops, |ops| - 1, connection, tool)
  {
    var before := ops[..|ops| - 1];
    forall i: nat | i < |before|
      ensures ApprovesAt(g, ops, i, connection, tool) <==> ApprovesAt(g, before, i, connection, tool)
    {
      assert before[..i] == ops[..i];
    }
  }

  lemma {:induction false} GrantedIffApproved(g: Gate, ops: seq<Op>, connection: nat, tool: string)
    requires g.grants == {}
    ensures (connection, tool) in Run(g, ops).grants <==> Approved(g, ops, connection, tool)
  {
    if ops != [] {
      GrantedIffApproved(g, ops[..|ops| - 1], connection, tool);
      ApprovedSnoc(g, ops, connection, tool);
      hide Metered, Recorded, Approved, Outcome;
    }
  }

  predicate Listed(config: TrustConfig, agent: Agent, tool: string) {
    agent.name in config.agents && config.agents[agent.name].allowedTools.Some? ==>
      tool in config.agents[agent.name].allowedTools.value
  }

  // ── Whose tier counts ────────────────────────────────────────────────────

  /** Observer tools are for everybody, writer tools for the supervised and trusted, admin tools for the trusted. */
  predicate Suffices(tier: Tier, tool: string) {
    || tool in OBSERVER_TOOLS || (tool in WRITER_TOOLS && tier in {Supervised, Trusted})
    || (tool in ADMIN_TOOLS && tier == Trusted)
  }

  predicate Known(tool: string) {
    tool in OBSERVER_TOOLS || tool in WRITER_TOOLS || tool in ADMIN_TOOLS
  }

  /** The tier an agent is configured with, or the default for any other. */
  ghost predicate HasTier(agent: Agent, config: TrustConfig, tier: Tier) {
    (agent.name in config.agents ==> tier == config.agents[agent.name].tier)
    && (agent.name !in config.agents ==> tier == config.defaultTier)
  }

  lemma CategoriesOfTools(tool: string)
    ensures ToolCategory(tool).Some? <==> Known(tool)
    ensures ToolCategory(tool) == Some(Admin) <==> tool in ADMIN_TOOLS
    ensures ToolCategory(tool) == Some(Writer) <==> tool in WRITER_TOOLS
  {
  }

  lemma TierSuffices(tool: string, agent: Agent, config: TrustConfig, tier: Tier)
    requires Known(tool) && HasTier(agent, config, tier)
    ensures ToolCategory(tool).Some? && ResolveTier(agent, config) == tier
    ensures tier.HasAccess(ToolCategory(tool).value.RequiredTier()) <==> Suffices(tier, tool)
    ensures forall other: Tier :: other.HasAccess(ToolCategory(tool).value.RequiredTier()) <==> Suffices(other, tool)
  {
    CategoriesOfTools(tool);
    hide ToolCategory;
    assert tool in OBSERVER_TOOLS ==> ToolCategory(tool) == Some(Observer);
  }

  function RequiredFor(tool: string): Tier {
    if tool in ADMIN_TOOLS then Trusted else Supervised
  }

  /** Which of the gate's checks decides. */
  lemma CheckThatDecides(tool: string, agent: Agent, config: TrustConfig, grants: Option<Grants>, windows: Windows,
                         cap: U32, now: int, tier: Tier)
    requires Known(tool) && HasTier(agent, config, tier)
    ensures
      var granted := grants.Some? && (agent.connection, tool) in grants.value;
      var auto := config.autoApproveTier.Some? && Suffices(config.autoApproveTier.value, tool);
      var passes := Suffices(tier, tool) || (grants.Some? && (granted || auto));
      && (ReachesLimiter(tool, agent, config, grants) <==> tool in ADMIN_TOOLS && passes && Listed(config, agent, tool))
      && GateResult(tool, agent, config, grants, windows, cap, now) ==
         if !passes && grants.None? then Denied(TierTooLow(tier, RequiredFor(tool)))
         else if !passes then Escalation(agent.name, tool, tier, RequiredFor(tool))
         else if !Listed(config, agent, tool) then Denied(NotInAllowlist)
         else if tool in ADMIN_TOOLS && !Admits(windows, cap, agent.name, now) then Denied(RateLimited)
         else Allowed
  {
    TierSuffices(tool, agent, config, tier);
    CategoriesOfTools(tool);
    assert tool !in OBSERVER_TOOLS || !Suffices(tier, tool) ==> ToolCategory(tool) != Some(Observer) by {
      ObserversAreOthers(tool);
    }
    hide ToolCategory, ResolveTier, HasTier, Suffices, Admits, Known;
  }

  lemma ObserversAreOthers(tool: string)
    ensures ToolCategory(tool) == Some(Observer) ==> tool in OBSERVER_TOOLS
  {
  }

  /** Without a user to ask, a known tool is refused for its tier exactly if the agent's own tier does not suffice. */
  lemma RefusedForTierIff(tool: string, agent: Agent, config: TrustConfig, windows: Windows, cap: U32, now: int,
                          tier: Tier)
    requires HasTier(agent, config, tier)
    ensures
      var result := GateResult(tool, agent, config, None, windows, cap, now);
      && (result.Denied? && result.reason.TierTooLow? <==>
            || (tool in WRITER_TOOLS && tier == Sandboxed) || (tool in ADMIN_TOOLS && tier in {Sandboxed, Supervised}))
      && (result.Denied? && result.reason.TierTooLow? ==>
            result.reason == TierTooLow(tier, if tool in ADMIN_TOOLS then Trusted else Supervised))
  {
    if Known(tool) {
      CheckThatDecides(tool, agent, config, None, windows, cap, now, tier);
      ToolsAreDisjoint(tool);
      hide GateResult, Admits, Listed;
    } else {
      CategoriesOfTools(tool);
    }
  }

  lemma ToolsAreDisjoint(tool: string)
    ensures !(tool in OBSERVER_TOOLS && tool in WRITER_TOOLS)
    ensures !(tool in OBSERVER_TOOLS && tool in ADMIN_TOOLS) && !(tool in WRITER_TOOLS && tool in ADMIN_TOOLS)
  {
  }

  /** The default tier means nothing to a configured agent, the configured agents nothing to any other. */
  lemma OwnTierCounts(tool: string, agent: Agent, config: TrustConfig, grants: Option<Grants>, windows: Windows,
                      cap: U32, now: int, other: TrustConfig)
    requires other.autoApproveTier == config.autoApproveTier
    requires if agent.name in config.agents
             then agent.name in other.agents && other.agents[agent.name] == config.agents[agent.name]
             else agent.name !in other.agents && other.defaultTier == config.defaultTier
    ensures GateResult(tool, agent, other, grants, windows, cap, now)
      == GateResult(tool, agent, config, grants, windows, cap, now)
  {
    hide ToolCategory, Admits;
  }

  /** Raising an agent's tier, and nothing else, never takes a tool away. */
  lemma HigherTierKeepsTools(tool: string, agent: Agent, config: TrustConfig, grants: Option<Grants>, windows: Windows,
                             cap: U32, now: int, entry: AgentConfig, higher: Tier)
    requires entry.tier == Sandboxed || higher == Trusted || entry.tier == higher
    ensures
      var low := config.(agents := config.agents[agent.name := entry]);
      var high := config.(agents := config.agents[agent.name := entry.(tier := higher)]);
      GateResult(tool, agent, low, grants, windows, cap, now) == Allowed ==>
        GateResult(tool, agent, high, grants, windows, cap, now) == Allowed
  {
    hide ToolCategory, Admits;
  }

  /**
   The gate's verdict from the history of the run alone: a known tool is allowed
   exactly if the agent's own tier suffices or the user or the configuration makes up
   for it, the agent's list has it, and for Admin tools the last minute is not full. It
   is escalated exactly if only a user's approval is missing for the tier. Unknown tools
   are let through.
   */
  lemma AllowedIff(g: Gate, ops: seq<Op>, h: Gate, c: U32, call: Call, tier: Tier)
    requires g.windows == map[] && g.grants == {} && CapsWithin(g, ops, c) && Ordered(ops) && h == Run(g, ops)
    requires NotAfter(ops, call.now) && HasTier(call.agent, call.config, tier)
    ensures !Known(call.tool) ==> Outcome(h, call) == Allowed
    ensures
      var auto := call.config.autoApproveTier;
      var excused :=
        || Approved(g, ops, call.agent.connection, call.tool)
        || (auto.Some? && Suffices(auto.value, call.tool));
      var recent := |Select(AllowedAt(g, ops, call.agent.name), Within(call.now - 60_000_000_000, call.now))|;
      Known(call.tool) ==>
        && (Outcome(h, call) == Allowed <==>
              (Suffices(tier, call.tool) || (call.prompts && excused)) && Listed(call.config, call.agent, call.tool)
              && (call.tool in ADMIN_TOOLS ==> recent < h.cap))
        && (Outcome(h, call).Escalation? <==> !Suffices(tier, call.tool) && call.prompts && !excused)
        && (Outcome(h, call).Escalation? ==>
              Outcome(h, call) == Escalation(call.agent.name, call.tool, tier,
                                             if call.tool in ADMIN_TOOLS then Trusted else Supervised))
  {
    GrantedIffApproved(g, ops, call.agent.connection, call.tool);
    if Known(call.tool) {
      CheckThatDecides(call.tool, call.agent, call.config, Visible(h, call), h.windows, h.cap, call.now, tier);
      if Metered(h, call) { RefusedIffMinuteIsFull(g, ops, h, c, call); }
    } else {
      CategoriesOfTools(call.tool);
    }
    hide ToolCategory, GateResult, ReachesLimiter, Admits, Run, Select, AllowedAt, Approved, HasTier, Suffices;
  }

  /**
   Below the required tier and without auto-approval, the gate itself allows a known tool
   only to a connection the user approved it for.
   */
  lemma AllowedBelowTierOnlyIfApproved(g: Gate, ops: seq<Op>, call: Call, tier: Tier)
    requires g.grants == {} && Outcome(Run(g, ops), call) == Allowed && Known(call.tool)
    requires HasTier(call.agent, call.config, tier) && !Suffices(tier, call.tool)
    requires call.config.autoApproveTier.None?
    ensures Approved(g, ops, call.agent.connection, call.tool)
  {
    TierSuffices(call.tool, call.agent, call.config, tier);
    hide ToolCategory, Admits, Run, Approved;
    GrantedIffApproved(g, ops, call.agent.connection, call.tool);
  }
}
