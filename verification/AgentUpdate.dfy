/**
 * src/agent/agent-update.service.ts and the gateway events that drive it: the self-update of an agent as phases in
 * its row, guarded by one timer per agent in Hub memory. Each handler is one atomic step (the source awaits between
 * reading and writing, so this speaks of serialised handlers). `flight` counts the updates requested of an agent;
 * `connected` are the agents with a current socket, `offline` those whose three-second offline timer is armed.
 */
module AgentUpdate {
  import opened Wrappers
  import opened Texts
  import opened Semver

  datatype Phase = Idle | Requested | Pulling | Restarting | Succeeded | RolledBack | Failed

  datatype Status = Online | Offline | Rebooting

  datatype Agent = Agent(
    status: Status, version: Option<Text>, deleted: bool,
    phase: Phase, target: Option<Text>, startedAt: Option<int>, flight: nat)

  datatype Timer = Timer(dueAt: int, flight: nat)

  datatype State = State(
    agents: map<Text, Agent>, timers: map<Text, Timer>, connected: set<Text>, offline: set<Text>)

  const UPDATE_TIMEOUT_MS: int := 10 * 60 * 1000

  predicate InFlight(p: Phase) {
    p.Requested? || p.Pulling? || p.Restarting?
  }

  predicate IsAlphanumeric(u: CodeUnit) {
    IsDigit(u) || 65 <= u <= 90 || 97 <= u <= 122
  }

  /** TAG_PATTERN: what may become an image tag. */
  predicate IsImageTag(t: Text) {
    1 <= |t| <= 128 && IsAlphanumeric(t[0])
    && forall i | 1 <= i < |t| :: IsAlphanumeric(t[i]) || t[i] == DOT || t[i] == 95 || t[i] == MINUS
  }

  datatype RequestError =
    | BadTag
    | UnknownAgent
    | AgentOffline
    | NotSupported
    | AlreadyUpdating
    | ReleaseRefused
    | NotConnected

  // ---------------------------------------------------------------- the steps

  /** Why a request is refused, checked in the source's order. `installable` is the release catalogue's answer. */
  function Refusal(s: State, agent: Text, target: Text, installable: bool): Option<RequestError> {
    if !IsImageTag(target) then Some(BadTag)
    else if agent !in s.agents || s.agents[agent].deleted then Some(UnknownAgent)
    else
      var a := s.agents[agent];
      if !a.status.Online? then Some(AgentOffline)
      else if !SupportsRemoteUpdate(a.version) then Some(NotSupported)
      else if InFlight(a.phase) then Some(AlreadyUpdating)
      else if !installable then Some(ReleaseRefused)
      else if agent !in s.connected then Some(NotConnected)
      else None
  }

  function Request(s: State, agent: Text, target: Text, installable: bool, now: int): State {
    if Refusal(s, agent, target, installable).Some? then s else Begin(s, agent, target, now)
  }

  function Begin(s: State, agent: Text, target: Text, now: int): State
    requires agent in s.agents
  {
    var a := s.agents[agent];
    s.(agents := s.agents[agent := a.(
         phase := Requested, target := Some(target), startedAt := Some(now), flight := a.flight + 1)],
       timers := s.timers[agent := Timer(now + UPDATE_TIMEOUT_MS, a.flight + 1)])
  }

  predicate Flying(s: State, agent: Text) {
    agent in s.agents && InFlight(s.agents[agent].phase)
  }

  function SetPhase(s: State, agent: Text, phase: Phase): State
    requires agent in s.agents
  {
    s.(agents := s.agents[agent := s.agents[agent].(phase := phase)])
  }

  function Progress(s: State, agent: Text): State {
    if Flying(s, agent) && s.agents[agent].phase.Requested? then SetPhase(s, agent, Pulling) else s
  }

  function ReportFailure(s: State, agent: Text): State {
    if !Flying(s, agent) then s else SetPhase(s, agent, Failed).(timers := s.timers - {agent})
  }

  /** The current socket is gone: in flight that is the expected restart, else the offline timer is armed. */
  function Disconnect(s: State, agent: Text): State {
    if agent !in s.connected then s else
      var gone := s.(connected := s.connected - {agent});
      if !Flying(s, agent) then gone.(offline := gone.offline + {agent})
      else gone.(agents := s.agents[agent := s.agents[agent].(status := Rebooting, phase := Restarting)])
  }

  /** disconnectAgent: the Hub forgets the socket; its close is then nobody's. */
  function Unlink(s: State, agent: Text): State {
    if agent !in s.connected then s else s.(connected := s.connected - {agent}, offline := s.offline - {agent})
  }

  /** The offline timer's callback. */
  function GoOffline(s: State, agent: Text): State {
    var fired := s.(offline := s.offline - {agent});
    if agent in s.connected || agent !in s.agents then fired
    else fired.(agents := s.agents[agent := s.agents[agent].(status := Offline)])
  }

  /** The phase a reconnection reporting `version` decides on. */
  function Verdict(target: Option<Text>, version: Option<Text>): Phase {
    if version.Some? && version.value != [] && target.Some? && target.value != [] && version.value == target.value
    then Succeeded else RolledBack
  }

  /** The row of an agent the Hub has not seen before. */
  function NewAgent(version: Option<Text>): Agent {
    Agent(Online, version, false, Idle, None, None, 0)
  }

  /** registerAgent, which makes a row where there is none, and then handleReconnect. */
  function Reconnect(s: State, agent: Text, version: Option<Text>): State {
    var a := if agent in s.agents then s.agents[agent].(status := Online, version := version) else NewAgent(version);
    var back := s.(
      agents := s.agents[agent := a], connected := s.connected + {agent}, offline := s.offline - {agent});
    if !InFlight(a.phase) then back
    else SetPhase(back, agent, Verdict(a.target, version)).(timers := s.timers - {agent})
  }

  function Acknowledge(s: State, agent: Text): State {
    if agent !in s.agents then s
    else s.(agents := s.agents[agent := s.agents[agent].(phase := Idle, target := None, startedAt := None)])
  }

  function TimerFires(s: State, agent: Text): State {
    var fired := s.(timers := s.timers - {agent});
    if !Flying(s, agent) then fired
    else
      var a := s.agents[agent].(phase := Failed);
      fired.(agents := s.agents[agent := if agent in s.connected then a else a.(status := Offline)])
  }

  /** Memory is lost, what was in flight has an unknown end, and no agent is connected yet. */
  function HubRestart(s: State): State {
    State(map u | u in s.agents :: Booted(s.agents[u]), map[], {}, {})
  }

  function Booted(a: Agent): Agent {
    a.(phase := if InFlight(a.phase) then Failed else a.phase, status := if a.deleted then a.status else Offline)
  }

  // ---------------------------------------------------------------- the class

  class Updates {
    var agents: map<Text, Agent>
    var timers: map<Text, Timer>
    var connected: set<Text>
    var offline: set<Text>

    function View(): State
      reads this
    {
      State(agents, timers, connected, offline)
    }

    /** A Hub process starting over whatever rows the last one left. */
    constructor (rows: map<Text, Agent>)
      ensures View() == HubRestart(State(rows, map[], {}, {}))
    {
      agents := map u | u in rows :: Booted(rows[u]);
      timers, connected, offline := map[], {}, {};
    }

    method RequestUpdate(agent: Text, target: Text, installable: bool, now: int) returns (r: Result<(), RequestError>)
      modifies this
      ensures View() == Request(old(View()), agent, target, installable, now)
      ensures r ==
        match Refusal(old(View()), agent, target, installable) case None => Success(()) case Some(e) => Failure(e)
    {
      var refusal := CheckRequest(agent, target, installable);
      if refusal.Some? { return Failure(refusal.value); }
      BeginUpdate(agent, target, now);
      return Success(());
    }

    method BeginUpdate(agent: Text, target: Text, now: int)
      requires agent in agents
      modifies this
      ensures View() == Begin(old(View()), agent, target, now)
    {
      var a := agents[agent];
      agents := agents[agent := a.(
        phase := Requested, target := Some(target), startedAt := Some(now), flight := a.flight + 1)];
      ArmTimeout(agent, now, a.flight + 1);
    }

    method CheckRequest(agent: Text, target: Text, installable: bool) returns (refusal: Option<RequestError>)
      ensures refusal == Refusal(View(), agent, target, installable)
      ensures refusal.None? ==> agent in agents
    {
      if !IsImageTag(target) { return Some(BadTag); }
      if agent !in agents || agents[agent].deleted { return Some(UnknownAgent); }
      var a := agents[agent];
      if !a.status.Online? { return Some(AgentOffline); }
      var supported := SupportsRemoteUpdate(a.version);
      if !supported { return Some(NotSupported); }
      if InFlight(a.phase) { return Some(AlreadyUpdating); }
      if !installable { return Some(ReleaseRefused); }
      return if agent in connected then None else Some(NotConnected);
    }

    method ArmTimeout(agent: Text, now: int, flight: nat)
      modifies `timers
      ensures timers == old(timers)[agent := Timer(now + UPDATE_TIMEOUT_MS, flight)]
    {
      timers := timers - {agent};
      timers := timers[agent := Timer(now + UPDATE_TIMEOUT_MS, flight)];
    }

    method RecordProgress(agent: Text)
      modifies this
      ensures View() == Progress(old(View()), agent)
    {
      if agent !in agents || !InFlight(agents[agent].phase) { return; }
      var a := agents[agent];
      agents := agents[agent := a.(phase := if a.phase.Requested? then Pulling else a.phase)];
    }

    method RecordFailure(agent: Text)
      modifies this
      ensures View() == ReportFailure(old(View()), agent)
    {
      if agent !in agents || !InFlight(agents[agent].phase) { return; }
      timers := timers - {agent};
      agents := agents[agent := agents[agent].(phase := Failed)];
    }

    /** handleDisconnect with isExpectedRestart; the close of a socket that is not the current one is ignored. */
    method OnDisconnect(agent: Text)
      modifies this
      ensures View() == Disconnect(old(View()), agent)
    {
      if agent !in connected { return; }
      connected := connected - {agent};
      if agent in agents && InFlight(agents[agent].phase) {
        agents := agents[agent := agents[agent].(status := Rebooting)];
        agents := agents[agent := agents[agent].(phase := Restarting)];
        return;
      }
      offline := offline + {agent};
    }

    method DisconnectAgent(agent: Text) returns (ok: bool)
      modifies this
      ensures View() == Unlink(old(View()), agent) && ok == (agent in old(connected))
    {
      if agent !in connected { return false; }
      connected, offline := connected - {agent}, offline - {agent};
      return true;
    }

    method OnOfflineTimer(agent: Text)
      modifies this
      ensures View() == GoOffline(old(View()), agent)
    {
      offline := offline - {agent};
      if agent in connected || agent !in agents { return; }
      agents := agents[agent := agents[agent].(status := Offline)];
    }

    method OnRegister(agent: Text, version: Option<Text>)
      modifies this
      ensures View() == Reconnect(old(View()), agent, version)
    {
      if agent in agents {
        agents := agents[agent := agents[agent].(status := Online, version := version)];
      } else {
        agents := agents[agent := NewAgent(version)];
      }
      offline := offline - {agent};
      connected := connected + {agent};
      if !InFlight(agents[agent].phase) { return; }
      timers := timers - {agent};
      agents := agents[agent := agents[agent].(phase := Verdict(agents[agent].target, version))];
    }

    method AcknowledgeResult(agent: Text)
      modifies this
      ensures View() == Acknowledge(old(View()), agent)
    {
      if agent in agents {
        agents := agents[agent := agents[agent].(phase := Idle, target := None, startedAt := None)];
      }
    }

    /** The timeout callback and expire. */
    method OnTimer(agent: Text)
      modifies this
      ensures View() == TimerFires(old(View()), agent)
    {
      timers := timers - {agent};
      if agent !in agents || !InFlight(agents[agent].phase) { return; }
      agents := agents[agent := agents[agent].(phase := Failed)];
      if agent !in connected { agents := agents[agent := agents[agent].(status := Offline)]; }
    }
  }

  // ------------------------------------------------------------------ safety

  datatype Event =
    | Requests(agent: Text, target: Text, installable: bool, now: int)
    | Progresses(agent: Text)
    | ReportsFailure(agent: Text)
    | Disconnects(agent: Text)
    | Unlinks(agent: Text)
    | StaysAway(agent: Text)
    | Registers(agent: Text, version: Option<Text>)
    | Acknowledges(agent: Text)
    | Fires(agent: Text)
    | Restarts

  predicate Enabled(s: State, e: Event) {
    (e.Fires? ==> e.agent in s.timers) && (e.StaysAway? ==> e.agent in s.offline)
  }

  function Step(s: State, e: Event): State {
    match e
    case Requests(u, t, ok, now) => Request(s, u, t, ok, now)
    case Progresses(u) => Progress(s, u)
    case ReportsFailure(u) => ReportFailure(s, u)
    case Disconnects(u) => Disconnect(s, u)
    case Unlinks(u) => Unlink(s, u)
    case StaysAway(u) => GoOffline(s, u)
    case Registers(u, v) => Reconnect(s, u, v)
    case Acknowledges(u) => Acknowledge(s, u)
    case Fires(u) => TimerFires(s, u)
    case Restarts => HubRestart(s)
  }

  /** An update in flight has a target and the timer its own request armed, due ten minutes after it. */
  predicate Guarded(s: State, u: Text)
    requires u in s.agents
  {
    var a := s.agents[u];
    InFlight(a.phase) ==>
      a.target.Some? && IsImageTag(a.target.value) && a.startedAt.Some?
      && u in s.timers && s.timers[u] == Timer(a.startedAt.value + UPDATE_TIMEOUT_MS, a.flight)
  }

  ghost predicate Inv(s: State) {
    && (forall u | u in s.agents :: Guarded(s, u))
    && (forall u | u in s.offline :: u !in s.connected)
    && (forall u | u in s.connected :: u in s.agents)
  }

  lemma BootEstablishesInv(s: State)
    ensures Inv(HubRestart(s))
  {
  }

  lemma StepKeepsGuard(s: State, e: Event, u: Text)
    requires Inv(s) && u in Step(s, e).agents
    ensures Guarded(Step(s, e), u)
  {
    assert u in s.agents ==> Guarded(s, u);
  }

  lemma StepKeepsSockets(s: State, e: Event)
    requires Inv(s)
    ensures forall u | u in Step(s, e).offline :: u !in Step(s, e).connected
    ensures forall u | u in Step(s, e).connected :: u in Step(s, e).agents
  {
  }

  lemma StepKeepsInv(s: State, e: Event)
    requires Inv(s)
    ensures Inv(Step(s, e))
  {
    forall u | u in Step(s, e).agents ensures Guarded(Step(s, e), u) {
      StepKeepsGuard(s, e, u);
    }
    StepKeepsSockets(s, e);
  }

  function Rank(p: Phase): nat {
    match p
    case Idle => 0
    case Requested => 1
    case Pulling => 2
    case Restarting => 3
    case _ => 4
  }

  /** Within one flight: forward only, to one result, with the target fixed; or cut to idle for good. */
  predicate Forward(a: Agent, b: Agent) {
    a.flight <= b.flight
    && (a.flight == b.flight && !b.phase.Idle? ==>
          !a.phase.Idle? && b.target == a.target && Rank(a.phase) <= Rank(b.phase)
          && (!InFlight(a.phase) ==> b.phase == a.phase))
  }

  lemma StepIsForward(s: State, e: Event, u: Text)
    requires Inv(s) && u in s.agents
    ensures u in Step(s, e).agents && Forward(s.agents[u], Step(s, e).agents[u])
    ensures Step(s, e).agents[u].phase.Idle? && !s.agents[u].phase.Idle? ==> e == Acknowledges(u)
    ensures InFlight(Step(s, e).agents[u].phase) && Step(s, e).agents[u].flight == s.agents[u].flight ==>
      Step(s, e).agents[u].startedAt == s.agents[u].startedAt
  {
    assert Guarded(s, u);
  }

  ghost predicate Runs(s: State, events: seq<Event>, end: State)
    decreases |events|
  {
    if events == [] then s == end else Enabled(s, events[0]) && Runs(Step(s, events[0]), events[1..], end)
  }

  lemma {:induction false} RunKeepsInv(s: State, events: seq<Event>, end: State)
    requires Inv(s) && Runs(s, events, end)
    ensures Inv(end)
    decreases |events|
  {
    if events != [] {
      StepKeepsInv(s, events[0]);
      RunKeepsInv(Step(s, events[0]), events[1..], end);
    }
  }

  /** Over every run, restarts included: updates in flight stay guarded and every flight moves forward only. */
  lemma {:induction false} RunIsSafe(s: State, events: seq<Event>, end: State, u: Text)
    requires Inv(s) && Runs(s, events, end) && u in s.agents
    ensures Inv(end) && u in end.agents && Forward(s.agents[u], end.agents[u])
    decreases |events|
  {
    if events != [] {
      StepKeepsInv(s, events[0]);
      StepIsForward(s, events[0], u);
      RunIsSafe(Step(s, events[0]), events[1..], end, u);
    }
  }

  /** From any rows at start-up: at every later moment an update in flight has its own timer, due in ten minutes. */
  lemma FlightsAreTimed(rows: map<Text, Agent>, events: seq<Event>, end: State, u: Text)
    requires Runs(HubRestart(State(rows, map[], {}, {})), events, end)
    requires u in end.agents && InFlight(end.agents[u].phase)
    ensures var a := end.agents[u];
      u in end.timers && a.startedAt.Some? && end.timers[u] == Timer(a.startedAt.value + 600_000, a.flight)
  {
    BootEstablishesInv(State(rows, map[], {}, {}));
    RunKeepsInv(HubRestart(State(rows, map[], {}, {})), events, end);
    assert Guarded(end, u);
  }

  /** A timer that fails an update fails the one that armed it, and touches no other agent. */
  lemma TimerFailsItsOwnFlight(s: State, u: Text, v: Text)
    requires Inv(s) && u in s.timers && v in s.agents
    ensures TimerFires(s, u).agents[v].phase != s.agents[v].phase ==>
      v == u && InFlight(s.agents[u].phase) && s.timers[u].flight == s.agents[u].flight
      && TimerFires(s, u).agents[u].phase == Failed
    ensures v != u ==> TimerFires(s, u).agents[v] == s.agents[v]
  {
    assert Guarded(s, v);
  }

  /** Coming back settles the update: success exactly when the reported version is the target. */
  lemma ReconnectDecides(s: State, u: Text, version: Option<Text>)
    requires Inv(s) && Flying(s, u)
    ensures var after := Reconnect(s, u, version);
      && (after.agents[u].phase == Succeeded <==> version == s.agents[u].target)
      && (after.agents[u].phase == RolledBack <==> version != s.agents[u].target)
      && u !in after.timers
  {
    assert Guarded(s, u);
  }

  // ------------------------------------------------ what each event changes

  /** What may become an image tag, spelled out. */
  ghost predicate IsTagText(t: Text) {
    && 0 < |t| < 129
    && (forall u | u in t :: IsLetterOrDigit(u) || u == '.' as int || u == '_' as int || u == '-' as int)
    && IsLetterOrDigit(t[0])
  }

  ghost predicate IsLetterOrDigit(u: CodeUnit) {
    '0' as int <= u <= '9' as int || 'a' as int <= u <= 'z' as int || 'A' as int <= u <= 'Z' as int
  }

  lemma TagTextIsImageTag(t: Text)
    ensures IsTagText(t) <==> IsImageTag(t)
  {
    if IsTagText(t) {
      forall i | 1 <= i < |t| ensures IsAlphanumeric(t[i]) || t[i] == DOT || t[i] == 95 || t[i] == MINUS {
        assert t[i] in t;
      }
    }
  }

  ghost predicate IsKnown(s: State, agent: Text) {
    agent in s.agents && !s.agents[agent].deleted
  }

  ghost predicate IsBusy(a: Agent) {
    a.phase == Requested || a.phase == Pulling || a.phase == Restarting
  }

  /** All that a request needs. */
  ghost predicate MayBegin(s: State, agent: Text, target: Text, installable: bool) {
    && IsTagText(target)
    && IsKnown(s, agent)
    && s.agents[agent].status == Online
    && IsRecent(s.agents[agent].version)
    && !IsBusy(s.agents[agent])
    && installable
    && agent in s.connected
  }

  lemma RefusalOfOther(s: State, agent: Text, target: Text, installable: bool)
    requires !IsTagText(target) || !IsKnown(s, agent)
    ensures Refusal(s, agent, target, installable) == Some(if IsTagText(target) then UnknownAgent else BadTag)
  {
    TagTextIsImageTag(target);
  }

  lemma RefusalOfKnown(s: State, agent: Text, target: Text, installable: bool, recent: bool)
    requires IsImageTag(target) && IsKnown(s, agent) && recent == SupportsRemoteUpdate(s.agents[agent].version)
    ensures var r, a := Refusal(s, agent, target, installable), s.agents[agent];
      && (r.None? <==> a.status == Online && recent && !IsBusy(a) && installable && agent in s.connected)
      && (r == Some(AgentOffline) <==> a.status != Online)
      && (r == Some(NotSupported) <==> a.status == Online && !recent)
      && (r == Some(AlreadyUpdating) <==> a.status == Online && recent && IsBusy(a))
      && (r == Some(ReleaseRefused) <==> a.status == Online && recent && !IsBusy(a) && !installable)
      && (r == Some(NotConnected) <==>
            a.status == Online && recent && !IsBusy(a) && installable && agent !in s.connected)
      && r != Some(BadTag) && r != Some(UnknownAgent)
  {
  }

  /** Each reason is given exactly when it is the first that applies. */
  lemma RefusalsAreExact(s: State, agent: Text, target: Text, installable: bool)
    ensures var r := Refusal(s, agent, target, installable);
      && (r.None? <==> MayBegin(s, agent, target, installable))
      && (r == Some(BadTag) <==> !IsTagText(target))
      && (r == Some(UnknownAgent) <==> IsTagText(target) && !IsKnown(s, agent))
    ensures IsTagText(target) && IsKnown(s, agent) ==>
      var r, a := Refusal(s, agent, target, installable), s.agents[agent];
      && (r == Some(AgentOffline) <==> a.status != Online)
      && (r == Some(NotSupported) <==> a.status == Online && !IsRecent(a.version))
      && (r == Some(AlreadyUpdating) <==> a.status == Online && IsRecent(a.version) && IsBusy(a))
      && (r == Some(ReleaseRefused) <==>
            a.status == Online && IsRecent(a.version) && !IsBusy(a) && !installable)
      && (r == Some(NotConnected) <==>
            a.status == Online && IsRecent(a.version) && !IsBusy(a) && installable && agent !in s.connected)
  {
    if IsTagText(target) && IsKnown(s, agent) {
      TagTextIsImageTag(target);
      SupportMeans(s.agents[agent].version);
      RefusalOfKnown(s, agent, target, installable, IsRecent(s.agents[agent].version));
    } else {
      RefusalOfOther(s, agent, target, installable);
    }
  }

  /**
   * A request begins a flight exactly when nothing speaks against it: the row gets phase, target, start and number,
   * and a timer of its own due in ten minutes, and nothing else changes. A refused request changes nothing.
   */
  lemma RequestBegins(s: State, agent: Text, target: Text, installable: bool, now: int)
    ensures var t := Step(s, Requests(agent, target, installable, now));
      if MayBegin(s, agent, target, installable) then HasBegunFrom(s, t, agent, target, now) else t == s
  {
    RefusalsAreExact(s, agent, target, installable);
  }

  ghost predicate HasBegunFrom(s: State, t: State, agent: Text, target: Text, now: int)
    requires agent in s.agents
  {
    var a := s.agents[agent];
    && t.agents == s.agents[agent :=
         Agent(a.status, a.version, a.deleted, Requested, Some(target), Some(now), a.flight + 1)]
    && t.timers == s.timers[agent := Timer(now + 600_000, a.flight + 1)]
    && t.connected == s.connected && t.offline == s.offline
  }

  /** The event is a request for this agent that begins a flight. */
  ghost predicate Begins(s: State, e: Event, u: Text) {
    e.Requests? && e.agent == u && MayBegin(s, u, e.target, e.installable)
  }

  /** Each phase is entered by its own events alone; the flight number counts the begun flights. */
  lemma PhaseChanges(s: State, e: Event, u: Text)
    requires Inv(s) && u in s.agents
    ensures u in Step(s, e).agents
    ensures var a, b, busy := s.agents[u], Step(s, e).agents[u], IsBusy(s.agents[u]);
      && b.flight == (if Begins(s, e, u) then a.flight + 1 else a.flight)
      && (b.phase == Requested && a.phase != Requested <==> Begins(s, e, u))
      && (b.phase == Pulling && a.phase != Pulling <==> e == Progresses(u) && a.phase == Requested)
      && (b.phase == Restarting && a.phase != Restarting <==>
            e == Disconnects(u) && u in s.connected && busy && a.phase != Restarting)
      && (b.phase == Succeeded && a.phase != Succeeded <==> busy && e == Registers(u, a.target))
      && (b.phase == RolledBack && a.phase != RolledBack <==>
            busy && e.Registers? && e.agent == u && e.version != a.target)
      && (b.phase == Failed && a.phase != Failed <==>
            busy && (e == ReportsFailure(u) || e == Fires(u) || e == Restarts))
      && (b.phase == Idle && a.phase != Idle <==> e == Acknowledges(u) && a.phase != Idle)
  {
    if e.Requests? { RefusalsAreExact(s, e.agent, e.target, e.installable); }
    assert Guarded(s, u);
  }

  /** The same for the rest of the row. */
  lemma RowChanges(s: State, e: Event, u: Text)
    requires u in s.agents
    ensures u in Step(s, e).agents
    ensures var a, b := s.agents[u], Step(s, e).agents[u];
      && b.deleted == a.deleted
      && b.version == (if e.Registers? && e.agent == u then e.version else a.version)
      && b.target == (if Begins(s, e, u) then Some(e.target) else if e == Acknowledges(u) then None else a.target)
      && b.startedAt ==
           (if Begins(s, e, u) then Some(e.now) else if e == Acknowledges(u) then None else a.startedAt)
      && (b.status == Online && a.status != Online <==> a.status != Online && e.Registers? && e.agent == u)
      && (b.status == Rebooting && a.status != Rebooting <==>
            a.status != Rebooting && e == Disconnects(u) && u in s.connected && IsBusy(a))
      && (b.status == Offline && a.status != Offline <==>
            a.status != Offline && ((e == StaysAway(u) && u !in s.connected)
              || (e == Fires(u) && IsBusy(a) && u !in s.connected) || (e == Restarts && !a.deleted)))
  {
    if e.Requests? { RefusalsAreExact(s, e.agent, e.target, e.installable); }
  }

  /** Rows are made by registering alone. */
  lemma RowsAreMade(s: State, e: Event, u: Text)
    requires u !in s.agents
    ensures u in Step(s, e).agents <==> e.Registers? && e.agent == u
    ensures u in Step(s, e).agents ==>
      Step(s, e).agents[u] == Agent(Online, e.version, false, Idle, None, None, 0)
  {
    if e.Requests? { RefusalsAreExact(s, e.agent, e.target, e.installable); }
  }

  /** When an agent gains or loses its update timer, its socket and its offline timer. */
  lemma TimersAndSockets(s: State, e: Event, u: Text)
    requires Inv(s)
    ensures var t, busy := Step(s, e), u in s.agents && IsBusy(s.agents[u]);
      var comesBack := e.Registers? && e.agent == u;
      && (u in t.timers <==>
            Begins(s, e, u) || (u in s.timers && e != Fires(u) && e != Restarts
                                && !(busy && (e == ReportsFailure(u) || comesBack))))
      && (u in t.timers && !Begins(s, e, u) ==> t.timers[u] == s.timers[u])
      && (u in t.connected <==>
            comesBack || (u in s.connected && e != Disconnects(u) && e != Unlinks(u) && e != Restarts))
      && (u in t.offline <==>
            (e == Disconnects(u) && u in s.connected && !busy)
            || (u in s.offline && e != StaysAway(u) && !comesBack && e != Restarts))
  {
    if e.Requests? { RefusalsAreExact(s, e.agent, e.target, e.installable); }
  }

  /** Some event of the run is a request that begins a flight of this agent. */
  ghost predicate HasBegun(s: State, events: seq<Event>, u: Text)
    decreases |events|
  {
    events != [] && (Begins(s, events[0], u) || HasBegun(Step(s, events[0]), events[1..], u))
  }

  /** Over a run the flight number rises exactly with a request that begins a flight: none was then under way. */
  lemma {:induction false} FlightsDoNotOverlap(s: State, events: seq<Event>, end: State, u: Text)
    requires Inv(s) && Runs(s, events, end) && u in s.agents
    ensures u in end.agents && s.agents[u].flight <= end.agents[u].flight
    ensures end.agents[u].flight > s.agents[u].flight <==> HasBegun(s, events, u)
    decreases |events|
  {
    if events != [] {
      StepKeepsInv(s, events[0]);
      PhaseChanges(s, events[0], u);
      FlightsDoNotOverlap(Step(s, events[0]), events[1..], end, u);
    }
  }

  // ------------------------------------------------- agents that stay away

  /** What becomes of an agent that left for its restart: the first event that settles it decides. */
  datatype Fate = Waiting | Expired | Cut

  function FateOf(u: Text, events: seq<Event>): Fate {
    if events == [] then Waiting
    else if events[0] == Fires(u) then Expired
    else if events[0] == Acknowledges(u) || events[0] == ReportsFailure(u) then Cut
    else FateOf(u, events[1..])
  }

  /** The agent does not register and the Hub does not restart. */
  predicate StaysGone(u: Text, events: seq<Event>) {
    forall i | 0 <= i < |events| :: !events[i].Restarts? && !(events[i].Registers? && events[i].agent == u)
  }

  /** Away without an offline timer: only an update's timer could still put the agent offline. */
  predicate Away(s: State, u: Text) {
    u in s.agents && u !in s.connected && u !in s.offline
  }

  /** Once nothing is in flight, an agent that is away keeps its status for good. */
  lemma {:induction false} SettledStays(s: State, u: Text, events: seq<Event>, end: State)
    requires Inv(s) && Runs(s, events, end) && StaysGone(u, events) && Away(s, u) && !Flying(s, u)
    ensures Away(end, u) && !Flying(end, u) && end.agents[u].status == s.agents[u].status
    decreases |events|
  {
    if events != [] {
      SettledStep(s, u, events[0]);
      StepKeepsInv(s, events[0]);
      SettledStays(Step(s, events[0]), u, events[1..], end);
    }
  }

  lemma SettledStep(s: State, u: Text, e: Event)
    requires Enabled(s, e) && !e.Restarts? && !(e.Registers? && e.agent == u) && Away(s, u) && !Flying(s, u)
    ensures var t := Step(s, e);
      Away(t, u) && !Flying(t, u) && t.agents[u].status == s.agents[u].status
  {
  }

  lemma AwayStep(s: State, u: Text, e: Event)
    requires Inv(s) && Enabled(s, e) && !e.Restarts? && !(e.Registers? && e.agent == u) && Away(s, u) && Flying(s, u)
    ensures var t := Step(s, e);
      Away(t, u)
      && t.agents[u].status == (if e == Fires(u) then Offline else s.agents[u].status)
      && (Flying(t, u) <==> FateOf(u, [e]).Waiting?)
  {
    assert Guarded(s, u);
  }

  lemma {:induction false} AwayIsDecided(s: State, u: Text, events: seq<Event>, end: State)
    requires Inv(s) && Runs(s, events, end) && StaysGone(u, events) && Away(s, u) && Flying(s, u)
    requires s.agents[u].status == Rebooting
    ensures Away(end, u) && (Flying(end, u) <==> FateOf(u, events).Waiting?)
    ensures end.agents[u].status == if FateOf(u, events).Expired? then Offline else Rebooting
    decreases |events|
  {
    if events != [] {
      var t := Step(s, events[0]);
      AwayStep(s, u, events[0]);
      StepKeepsInv(s, events[0]);
      if FateOf(u, [events[0]]).Waiting? {
        AwayIsDecided(t, u, events[1..], end);
      } else {
        SettledStays(t, u, events[1..], end);
      }
    }
  }

  /**
   * From the moment an agent in flight disconnects, over every run without its return or a Hub restart: it is offline
   * exactly if its timer fired before any acknowledgement or failure report; until one of the three happens it waits
   * for that timer, which is armed; and cut off by one of the other two it says "restarting" at every later moment.
   */
  lemma RestartingAgentsFate(s: State, u: Text, events: seq<Event>, end: State)
    requires Inv(s) && Flying(s, u) && u in s.connected
    requires Runs(Disconnect(s, u), events, end) && StaysGone(u, events)
    ensures u in end.agents && u !in end.connected && u !in end.offline
    ensures end.agents[u].status == Offline <==> FateOf(u, events).Expired?
    ensures end.agents[u].status == Rebooting <==> !FateOf(u, events).Expired?
    ensures FateOf(u, events).Waiting? <==> Flying(end, u)
    ensures FateOf(u, events).Waiting? ==> u in end.timers && end.timers[u].flight == end.agents[u].flight
  {
    assert Step(s, Disconnects(u)) == Disconnect(s, u);
    StepKeepsInv(s, Disconnects(u));
    AwayIsDecided(Disconnect(s, u), u, events, end);
    RunKeepsInv(Disconnect(s, u), events, end);
    assert Guarded(end, u);
  }

  /** Two ways to be stranded: acknowledged during the restart, or reported failed by a socket that came late. */
  lemma StrandedAgents(s: State, u: Text)
    requires Inv(s) && Flying(s, u) && u in s.connected
    ensures var acknowledged := TimerFires(Acknowledge(Disconnect(s, u), u), u);
      acknowledged.agents[u].status == Rebooting
      && !Enabled(acknowledged, Fires(u)) && !Enabled(acknowledged, StaysAway(u))
    ensures var reported := ReportFailure(Disconnect(s, u), u);
      reported.agents[u].status == Rebooting && !Enabled(reported, Fires(u)) && !Enabled(reported, StaysAway(u))
  {
    assert Guarded(s, u);
  }
}
