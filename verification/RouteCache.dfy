/**
 * src/tunnel/tunnel.service.ts, sendProxyInfo and its cache, with the block switches of
 * src/services/service.service.ts. A lookup is one step that reads the clock twice: `now` at the cache check and
 * `done` when an answer is stored. Everything else that writes the tables is one arbitrary step, `Changes`.
 */
module RouteCache {
  import opened Wrappers
  import opened Texts

  const ROUTE_CACHE_TTL_MS: int := 5000
  const SLASH: CodeUnit := 47

  datatype Workspace = Workspace(index: int, subdomain: Option<Text>, active: bool)

  datatype Endpoint = Endpoint(workspace: int, service: int, subdomain: Option<Text>, port: int, deleted: bool)

  datatype Service = Service(agent: int, removed: bool, deleted: bool, blockedAt: Option<int>, hidden: bool)

  datatype Agent = Agent(uuid: Text, linked: bool, deleted: bool)

  datatype Tables = Tables(
    workspaces: seq<Workspace>, endpoints: seq<Endpoint>, services: map<int, Service>, agents: map<int, Agent>)

  datatype Route = Route(agent: Text, port: int)

  datatype Outcome = WorkspaceNotFound | ServiceNotFound | ServiceBlocked | AgentNotFound | AgentOffline

  datatype Cached = Cached(route: Route, expiresAt: int)

  datatype State = State(tables: Tables, cache: map<Text, Cached>)

  function RouteKey(workspace: Text, name: Text): Text {
    workspace + [SLASH] + name
  }

  // --------------------------------------------------------- the database's answer

  predicate Answers(w: Workspace, subdomain: Text) {
    w.subdomain == Some(subdomain) && w.active
  }

  predicate Publishes(t: Tables, e: Endpoint, workspace: int, name: Text) {
    e.workspace == workspace && e.subdomain == Some(name) && !e.deleted
    && e.service in t.services && !t.services[e.service].deleted
  }

  /** findFirst: the first row that matches. */
  function FirstWorkspace(rows: seq<Workspace>, subdomain: Text): (r: Option<Workspace>)
    ensures r.Some? ==> r.value in rows && Answers(r.value, subdomain)
    ensures r.None? ==> forall w | w in rows :: !Answers(w, subdomain)
  {
    if rows == [] then None
    else if Answers(rows[0], subdomain) then Some(rows[0]) else FirstWorkspace(rows[1..], subdomain)
  }

  function FirstEndpoint(t: Tables, rows: seq<Endpoint>, workspace: int, name: Text): (r: Option<Endpoint>)
    ensures r.Some? ==> r.value in rows && Publishes(t, r.value, workspace, name)
    ensures r.None? ==> forall e | e in rows :: !Publishes(t, e, workspace, name)
  {
    if rows == [] then None
    else if Publishes(t, rows[0], workspace, name) then Some(rows[0])
    else FirstEndpoint(t, rows[1..], workspace, name)
  }

  datatype Found = Found(route: Route, service: int)

  /** What the uncached path answers for a workspace label and a normalised service label. */
  function Resolve(t: Tables, subdomain: Text, name: Text): Result<Found, Outcome> {
    var w := FirstWorkspace(t.workspaces, subdomain);
    if w.None? then Failure(WorkspaceNotFound) else
      var e := FirstEndpoint(t, t.endpoints, w.value.index, name);
      if e.None? then Failure(ServiceNotFound) else
        var s := t.services[e.value.service];
        if s.blockedAt.Some? then Failure(if s.hidden then ServiceNotFound else ServiceBlocked)
        else if s.agent !in t.agents || !t.agents[s.agent].linked || t.agents[s.agent].deleted then
          Failure(AgentNotFound)
        else Success(Found(Route(t.agents[s.agent].uuid, e.value.port), e.value.service))
  }

  /** Pooled: nothing is sent. Otherwise the agent must be there to hear tunnel-connect. */
  function Dispatch(route: Route, preferPooled: bool, delivered: bool): Result<Route, Outcome> {
    if preferPooled || delivered then Success(route) else Failure(AgentOffline)
  }

  datatype Query = Query(workspace: Text, service: Text, preferPooled: bool, delivered: bool, now: int, done: int) {
    function Key(): Text { RouteKey(workspace, ServiceLabel(service)) }
  }

  function Uncached(t: Tables, q: Query): Result<Found, Outcome> {
    Resolve(t, q.workspace, ServiceLabel(q.service))
  }

  predicate IsCached(s: State, q: Query) {
    q.Key() in s.cache && s.cache[q.Key()].expiresAt > q.now
  }

  function Answer(s: State, q: Query): Result<Route, Outcome> {
    if IsCached(s, q) then Dispatch(s.cache[q.Key()].route, q.preferPooled, q.delivered)
    else match Uncached(s.tables, q)
      case Failure(o) => Failure(o)
      case Success(found) => Dispatch(found.route, q.preferPooled, q.delivered)
  }

  function Ask(s: State, q: Query): State {
    if IsCached(s, q) || Uncached(s.tables, q).Failure? then s
    else s.(cache := s.cache[q.Key() := Cached(Uncached(s.tables, q).value.route, q.done + ROUTE_CACHE_TTL_MS)])
  }

  predicate CanBlock(t: Tables, service: int) {
    service in t.services && !t.services[service].deleted && !t.services[service].removed
  }

  /** Blocking again keeps the first time of blocking and replaces the mode. */
  function Block(s: State, service: int, hidden: bool, now: int): State {
    if !CanBlock(s.tables, service) then s else
      var row := s.tables.services[service];
      var since := if row.blockedAt.Some? then row.blockedAt else Some(now);
      State(s.tables.(services := s.tables.services[service := row.(blockedAt := since, hidden := hidden)]), map[])
  }

  function Unblock(s: State, service: int): State {
    if service !in s.tables.services || s.tables.services[service].deleted then s else
      var row := s.tables.services[service];
      State(s.tables.(services := s.tables.services[service := row.(blockedAt := None, hidden := false)]), map[])
  }

  // ---------------------------------------------- the answer, told from the rows

  ghost predicate IsActiveWorkspace(t: Tables, subdomain: Text, i: nat) {
    i < |t.workspaces| && t.workspaces[i].active && t.workspaces[i].subdomain == Some(subdomain)
  }

  ghost predicate IsFirstWorkspace(t: Tables, subdomain: Text, i: nat) {
    IsActiveWorkspace(t, subdomain, i) && forall j: nat | j < i :: !IsActiveWorkspace(t, subdomain, j)
  }

  /** An endpoint row of the workspace under this label, neither deleted itself nor of a deleted service. */
  ghost predicate IsPublished(t: Tables, workspace: int, name: Text, k: nat) {
    && k < |t.endpoints|
    && var e := t.endpoints[k];
       e.workspace == workspace && e.subdomain == Some(name) && !e.deleted
       && e.service in t.services && !t.services[e.service].deleted
  }

  ghost predicate IsFirstPublished(t: Tables, workspace: int, name: Text, k: nat) {
    IsPublished(t, workspace, name, k) && forall j: nat | j < k :: !IsPublished(t, workspace, name, j)
  }

  lemma {:induction false} FirstWorkspaceIsFirst(rows: seq<Workspace>, subdomain: Text) returns (i: nat)
    ensures i < |rows| ==> FirstWorkspace(rows, subdomain) == Some(rows[i]) && Answers(rows[i], subdomain)
    ensures i >= |rows| ==> FirstWorkspace(rows, subdomain) == None
    ensures forall j: nat | j < i && j < |rows| :: !Answers(rows[j], subdomain)
  {
    if rows == [] || Answers(rows[0], subdomain) {
      i := 0;
    } else {
      i := FirstWorkspaceIsFirst(rows[1..], subdomain);
      forall j: nat | 0 < j < i + 1 && j < |rows| ensures !Answers(rows[j], subdomain) {
        assert rows[j] == rows[1..][j - 1];
      }
      i := i + 1;
    }
  }

  lemma {:induction false} FirstEndpointIsFirst(t: Tables, rows: seq<Endpoint>, workspace: int, name: Text)
    returns (i: nat)
    ensures i < |rows| ==> FirstEndpoint(t, rows, workspace, name) == Some(rows[i])
    ensures i < |rows| ==> Publishes(t, rows[i], workspace, name)
    ensures i >= |rows| ==> FirstEndpoint(t, rows, workspace, name) == None
    ensures forall j: nat | j < i && j < |rows| :: !Publishes(t, rows[j], workspace, name)
  {
    if rows == [] || Publishes(t, rows[0], workspace, name) {
      i := 0;
    } else {
      i := FirstEndpointIsFirst(t, rows[1..], workspace, name);
      forall j: nat | 0 < j < i + 1 && j < |rows| ensures !Publishes(t, rows[j], workspace, name) {
        assert rows[j] == rows[1..][j - 1];
      }
      i := i + 1;
    }
  }

  ghost predicate CanReach(t: Tables, agent: int) {
    agent in t.agents && t.agents[agent].linked && !t.agents[agent].deleted
  }

  /** A lookup fails at the first thing that is missing; `i` and `k` are the rows it is about, if there are such. */
  lemma ResolveMeans(t: Tables, subdomain: Text, name: Text) returns (i: nat, k: nat)
    ensures i < |t.workspaces| ==> IsFirstWorkspace(t, subdomain, i)
    ensures i >= |t.workspaces| ==>
      (forall w | w in t.workspaces :: !(w.active && w.subdomain == Some(subdomain)))
      && Resolve(t, subdomain, name) == Failure(WorkspaceNotFound)
    ensures i < |t.workspaces| && k >= |t.endpoints| ==>
      (forall j: nat :: !IsPublished(t, t.workspaces[i].index, name, j))
      && Resolve(t, subdomain, name) == Failure(ServiceNotFound)
    ensures i < |t.workspaces| && k < |t.endpoints| ==>
      IsFirstPublished(t, t.workspaces[i].index, name, k)
      && var e := t.endpoints[k];
         var s := t.services[e.service];
         Resolve(t, subdomain, name) ==
           if s.blockedAt != None && s.hidden then Failure(ServiceNotFound)
           else if s.blockedAt != None then Failure(ServiceBlocked)
           else if !CanReach(t, s.agent) then Failure(AgentNotFound)
           else Success(Found(Route(t.agents[s.agent].uuid, e.port), e.service))
  {
    i := FirstWorkspaceIsFirst(t.workspaces, subdomain);
    k := |t.endpoints|;
    if i < |t.workspaces| {
      var workspace := t.workspaces[i].index;
      k := FirstEndpointIsFirst(t, t.endpoints, workspace, name);
      forall j: nat ensures j < |t.endpoints| ==> (IsPublished(t, workspace, name, j)
                              <==> Publishes(t, t.endpoints[j], workspace, name))
      {
      }
    }
  }

  /** The switches: one row, its block alone, and an empty cache; or nothing at all. */
  lemma SwitchesMean(s: State, service: int, hidden: bool, now: int)
    ensures var known := service in s.tables.services && !s.tables.services[service].deleted;
      && Block(s, service, hidden, now) ==
           (if !known || s.tables.services[service].removed then s
            else Switched(s, service, FirstTime(s.tables.services[service], now), hidden))
      && Unblock(s, service) == (if !known then s else Switched(s, service, None, false))
  {
  }

  ghost function FirstTime(row: Service, now: int): Option<int> {
    match row.blockedAt
    case None => Some(now)
    case Some(_) => row.blockedAt
  }

  ghost function Switched(s: State, service: int, blockedAt: Option<int>, hidden: bool): State
    requires service in s.tables.services
  {
    var row := s.tables.services[service];
    State(Tables(s.tables.workspaces, s.tables.endpoints,
                 s.tables.services[service := Service(row.agent, row.removed, row.deleted, blockedAt, hidden)],
                 s.tables.agents),
          map[])
  }

  // ---------------------------------------------------------------- the class

  class Router {
    var tables: Tables
    var cache: map<Text, Cached>

    function View(): State
      reads this
    {
      State(tables, cache)
    }

    constructor (t: Tables)
      ensures View() == State(t, map[])
    {
      tables, cache := t, map[];
    }

    method SendProxyInfo(q: Query) returns (r: Result<Route, Outcome>)
      modifies `cache
      ensures r == Answer(old(View()), q)
      ensures View() == Ask(old(View()), q)
    {
      var name := ServiceLabel(q.service);
      var key := RouteKey(q.workspace, name);
      if key in cache && cache[key].expiresAt > q.now {
        return Dispatch(cache[key].route, q.preferPooled, q.delivered);
      }
      var workspace := FirstWorkspace(tables.workspaces, q.workspace);
      if workspace.None? { return Failure(WorkspaceNotFound); }
      var endpoint := FirstEndpoint(tables, tables.endpoints, workspace.value.index, name);
      if endpoint.None? { return Failure(ServiceNotFound); }
      var service := tables.services[endpoint.value.service];
      if service.blockedAt.Some? { return Failure(if service.hidden then ServiceNotFound else ServiceBlocked); }
      if service.agent !in tables.agents { return Failure(AgentNotFound); }
      var agent := tables.agents[service.agent];
      if !agent.linked || agent.deleted { return Failure(AgentNotFound); }
      var route := Route(agent.uuid, endpoint.value.port);
      cache := cache[key := Cached(route, q.done + ROUTE_CACHE_TTL_MS)];
      return Dispatch(route, q.preferPooled, q.delivered);
    }

    method InvalidateRouteCache()
      modifies `cache
      ensures cache == map[]
    {
      cache := map[];
    }

    /** Returns whether the call was accepted. */
    method BlockServiceTraffic(service: int, hidden: bool, now: int) returns (ok: bool)
      modifies this
      ensures ok == CanBlock(old(tables), service)
      ensures View() == Block(old(View()), service, hidden, now)
    {
      if service !in tables.services || tables.services[service].deleted || tables.services[service].removed {
        return false;
      }
      var row := tables.services[service];
      var since := if row.blockedAt.Some? then row.blockedAt else Some(now);
      tables := tables.(services := tables.services[service := row.(blockedAt := since, hidden := hidden)]);
      InvalidateRouteCache();
      return true;
    }

    method UnblockServiceTraffic(service: int) returns (ok: bool)
      modifies this
      ensures ok == (service in old(tables).services && !old(tables).services[service].deleted)
      ensures View() == Unblock(old(View()), service)
    {
      if service !in tables.services || tables.services[service].deleted { return false; }
      var row := tables.services[service];
      tables := tables.(services := tables.services[service := row.(blockedAt := None, hidden := false)]);
      InvalidateRouteCache();
      return true;
    }
  }

  // ------------------------------------------------------------------ the key

  predicate SlashFree(t: Text) {
    forall i | 0 <= i < |t| :: t[i] != SLASH
  }

  /** What the label formats of the workspace and endpoint forms guarantee of every stored row. */
  ghost predicate PlainLabels(t: Tables) {
    (forall w | w in t.workspaces && w.subdomain.Some? :: SlashFree(w.subdomain.value))
    && (forall e | e in t.endpoints && e.subdomain.Some? :: SlashFree(e.subdomain.value))
  }

  /** A key made of plain labels cannot be the key of any other pair, plain or not. */
  lemma KeyIsUnambiguous(w: Text, l: Text, w': Text, l': Text)
    requires SlashFree(w) && SlashFree(l) && RouteKey(w, l) == RouteKey(w', l')
    ensures w == w' && l == l'
  {
    var k := RouteKey(w, l);
    assert forall i | 0 <= i < |k| && i != |w| :: k[i] == (if i < |w| then w[i] else l[i - |w| - 1]);
    assert k[|w'|] == SLASH;
    assert k[..|w|] == w && k[..|w'|] == w' && k[|w| + 1..] == l && k[|w'| + 1..] == l';
  }

  lemma RoutedLabelsArePlain(t: Tables, subdomain: Text, name: Text)
    requires PlainLabels(t) && Resolve(t, subdomain, name).Success?
    ensures SlashFree(subdomain) && SlashFree(name)
  {
    var w := FirstWorkspace(t.workspaces, subdomain).value;
    var e := FirstEndpoint(t, t.endpoints, w.index, name).value;
    assert w.subdomain == Some(subdomain) && e.subdomain == Some(name);
  }

  // --------------------------------------------------------------- whole runs

  datatype Event =
    | Asks(query: Query)
    | Blocks(service: int, hidden: bool, now: int)
    | Unblocks(service: int)
    | Changes(tables: Tables)
    | Restarts

  function Step(s: State, e: Event): State {
    match e
    case Asks(q) => Ask(s, q)
    case Blocks(i, hidden, now) => Block(s, i, hidden, now)
    case Unblocks(i) => Unblock(s, i)
    case Changes(t) => s.(tables := t)
    case Restarts => s.(cache := map[])
  }

  predicate IsBlocked(t: Tables, service: int) {
    service in t.services && t.services[service].blockedAt.Some?
  }

  /** Other writers keep labels plain and block nothing: only the block switch sets service_traffic_blocked_at. */
  ghost predicate Enabled(s: State, e: Event) {
    match e
    case Changes(t) => PlainLabels(t) && forall i | IsBlocked(t, i) :: IsBlocked(s.tables, i)
    case Asks(q) => q.now <= q.done
    case _ => true
  }

  /** Queries run one after the other under a clock that does not go back. */
  ghost predicate IsRun(states: seq<State>, events: seq<Event>) {
    && |states| == |events| + 1
    && states[0].cache == map[] && PlainLabels(states[0].tables)
    && (forall i | 0 <= i < |events| :: Enabled(states[i], events[i]) && states[i + 1] == Step(states[i], events[i]))
    && (forall i, j | 0 <= i < j < |events| && events[i].Asks? && events[j].Asks? ::
          events[i].query.done <= events[j].query.now)
  }

  /** Event j asked the database for this key, was told `c.route` for a service that state i does not block. */
  ghost predicate Source(states: seq<State>, events: seq<Event>, i: nat, j: nat, key: Text, c: Cached)
    requires i < |states| && |states| == |events| + 1
  {
    j < i && events[j].Asks? &&
    var q := events[j].query;
    var found := Uncached(states[j].tables, q);
    && q.Key() == key && found.Success? && found.value.route == c.route && c.expiresAt == q.done + ROUTE_CACHE_TTL_MS
    && SlashFree(q.workspace) && SlashFree(ServiceLabel(q.service))
    && !IsBlocked(states[i].tables, found.value.service)
  }

  lemma ResolvedIsNotBlocked(t: Tables, subdomain: Text, name: Text)
    requires Resolve(t, subdomain, name).Success?
    ensures !IsBlocked(t, Resolve(t, subdomain, name).value.service)
  {
  }

  lemma {:induction false} LabelsStayPlain(states: seq<State>, events: seq<Event>, i: nat)
    requires IsRun(states, events) && i < |states|
    ensures PlainLabels(states[i].tables)
  {
    if i > 0 {
      LabelsStayPlain(states, events, i - 1);
      assert Enabled(states[i - 1], events[i - 1]) && states[i] == Step(states[i - 1], events[i - 1]);
    }
  }

  lemma {:induction false} EveryEntryHasASource(states: seq<State>, events: seq<Event>, i: nat, key: Text)
    returns (j: nat)
    requires IsRun(states, events) && i < |states| && key in states[i].cache
    ensures Source(states, events, i, j, key, states[i].cache[key])
  {
    var s, e := states[i - 1], events[i - 1];
    assert Enabled(s, e) && states[i] == Step(s, e);
    if e.Asks? && e.query.Key() == key && !IsCached(s, e.query) && Uncached(s.tables, e.query).Success? {
      j := i - 1;
      LabelsStayPlain(states, events, i - 1);
      RoutedLabelsArePlain(s.tables, e.query.workspace, ServiceLabel(e.query.service));
      ResolvedIsNotBlocked(s.tables, e.query.workspace, ServiceLabel(e.query.service));
    } else {
      j := EveryEntryHasASource(states, events, i - 1, key);
    }
  }

  /**
   * Every successful answer is the one the database gave for the same labels, at this query or at one that ended
   * less than five seconds before it, and for a service that is not blocked now.
   */
  lemma AnswersAreRecentAndUnblocked(states: seq<State>, events: seq<Event>, i: nat) returns (j: nat)
    requires IsRun(states, events) && i < |events| && events[i].Asks? && Answer(states[i], events[i].query).Success?
    ensures j <= i && events[j].Asks?
    ensures var asked, now := events[j].query, events[i].query;
      && asked.workspace == now.workspace && ServiceLabel(asked.service) == ServiceLabel(now.service)
      && (j < i ==> asked.done <= now.now < asked.done + 5000)
    ensures var found := Uncached(states[j].tables, events[j].query);
      && found.Success? && Answer(states[i], events[i].query) == Success(found.value.route)
      && !IsBlocked(states[i].tables, found.value.service)
  {
    var q := events[i].query;
    if IsCached(states[i], q) {
      j := EveryEntryHasASource(states, events, i, q.Key());
      var asked := events[j].query;
      KeyIsUnambiguous(asked.workspace, ServiceLabel(asked.service), q.workspace, ServiceLabel(q.service));
    } else {
      j := i;
      ResolvedIsNotBlocked(states[i].tables, q.workspace, ServiceLabel(q.service));
    }
  }

  /** Failures are never cached: a routing refusal is the database's own answer at that moment. */
  lemma RefusalsAreCurrent(s: State, q: Query)
    ensures Answer(s, q).Failure? && Answer(s, q).error != AgentOffline ==>
      Uncached(s.tables, q) == Failure(Answer(s, q).error)
    ensures Uncached(s.tables, q).Success? ==>
      (Answer(s, q).Success? <==> q.preferPooled || q.delivered)
  {
  }

  /** A hidden block cannot be told from a service that was never there, once it is set. */
  lemma HiddenLooksAbsent(s: State, q: Query, service: int, now: int)
    requires Uncached(s.tables, q).Success? && Uncached(s.tables, q).value.service == service
    requires CanBlock(s.tables, service)
    ensures Answer(Block(s, service, true, now), q) == Failure(ServiceNotFound)
    ensures Answer(Block(s, service, false, now), q) == Failure(ServiceBlocked)
  {
    BlockKeepsTheChoice(s, q, service, true, now);
    BlockKeepsTheChoice(s, q, service, false, now);
  }

  lemma BlockKeepsTheChoice(s: State, q: Query, service: int, hidden: bool, now: int)
    requires CanBlock(s.tables, service)
    ensures var t := Block(s, service, hidden, now).tables;
      forall w: int, name: Text :: FirstEndpoint(t, t.endpoints, w, name)
                                 == FirstEndpoint(s.tables, s.tables.endpoints, w, name)
  {
    var t := Block(s, service, hidden, now).tables;
    forall w: int, name: Text
      ensures FirstEndpoint(t, t.endpoints, w, name) == FirstEndpoint(s.tables, s.tables.endpoints, w, name)
    {
      SameChoice(t, s.tables, t.endpoints, w, name);
    }
  }

  lemma {:induction false} SameChoice(t: Tables, t': Tables, rows: seq<Endpoint>, workspace: int, name: Text)
    requires t.services.Keys == t'.services.Keys
    requires forall i | i in t.services :: t.services[i].deleted == t'.services[i].deleted
    ensures FirstEndpoint(t, rows, workspace, name) == FirstEndpoint(t', rows, workspace, name)
  {
    if rows != [] { SameChoice(t, t', rows[1..], workspace, name); }
  }

  /** For up to five seconds an answer may be out of date: an endpoint taken down is still routed to. */
  lemma DeletedEndpointStillAnswers(t: Tables, q: Query, later: Query)
    requires Uncached(t, q).Success? && later == q.(now := later.now, done := later.done)
    requires later.now < q.done + 5000 && (q.preferPooled || q.delivered)
    ensures var empty := t.(endpoints := []);
      var s := Step(Step(State(t, map[]), Asks(q)), Changes(empty));
      Answer(s, later) == Success(Uncached(t, q).value.route) && Uncached(empty, later) == Failure(ServiceNotFound)
  {
  }
}
