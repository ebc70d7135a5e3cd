/**
 * The three services that share the routing tables, put together: the rows src/workspaces/workspace.service.ts and
 * src/services/service.service.ts leave are those src/tunnel/tunnel.service.ts looks up with findFirst, which promises
 * no order. For reachable rows the order does not matter.
 */
module RoutingTables {
  import opened Wrappers
  import opened Texts
  import RouteCache
  import Domains = WorkspaceDomains
  import Endpoints = ServiceEndpoints

  /** What the router reads of a service beside its row's life: agent and block. */
  datatype Detail = Detail(agent: int, blockedAt: Option<int>, hidden: bool)

  function WorkspaceRows(domains: seq<Domains.Workspace>): seq<RouteCache.Workspace> {
    seq(|domains|, i requires 0 <= i < |domains| =>
          RouteCache.Workspace(i, domains[i].subdomain, domains[i].active))
  }

  function EndpointRow(x: Endpoints.Row): RouteCache.Endpoint {
    RouteCache.Endpoint(x.workspace, x.service, x.endpoint.subdomain, x.endpoint.ports.host, false)
  }

  function EndpointRows(rows: seq<Endpoints.Row>): seq<RouteCache.Endpoint> {
    seq(|rows|, i requires 0 <= i < |rows| => EndpointRow(rows[i]))
  }

  /** The tables the router sees, its rows in index order. */
  function TablesOf(
    domains: seq<Domains.Workspace>, s: Endpoints.State, details: int -> Detail, agents: map<int, RouteCache.Agent>)
    : RouteCache.Tables
  {
    RouteCache.Tables(
      WorkspaceRows(domains), EndpointRows(s.rows),
      map k | k in s.services ::
        RouteCache.Service(details(k).agent, s.services[k].removed, s.services[k].deleted,
                           details(k).blockedAt, details(k).hidden),
      agents)
  }

  /** The same rows in any order, and the same rows behind their keys. */
  ghost predicate SameRows(t: RouteCache.Tables, u: RouteCache.Tables) {
    && (forall w :: w in t.workspaces <==> w in u.workspaces)
    && (forall e :: e in t.endpoints <==> e in u.endpoints)
    && t.services == u.services && t.agents == u.agents
  }

  /** At most one active workspace has a given label. */
  ghost predicate OneWorkspace(t: RouteCache.Tables) {
    forall v, w | v in t.workspaces && w in t.workspaces && v.active && w.active && v.subdomain.Some?
      && v.subdomain == w.subdomain :: v == w
  }

  predicate SameName(e: RouteCache.Endpoint, f: RouteCache.Endpoint) {
    e.workspace == f.workspace && e.subdomain.Some? && e.subdomain == f.subdomain
  }

  ghost predicate OneService(t: RouteCache.Tables) {
    forall e, f | e in t.endpoints && f in t.endpoints && SameName(e, f) :: e.service == f.service
  }

  ghost predicate OneEndpoint(t: RouteCache.Tables) {
    forall e, f | e in t.endpoints && f in t.endpoints && SameName(e, f) :: e == f
  }

  lemma SameWorkspace(t: RouteCache.Tables, u: RouteCache.Tables, domain: Text)
    requires SameRows(t, u) && OneWorkspace(t)
    ensures RouteCache.FirstWorkspace(t.workspaces, domain) == RouteCache.FirstWorkspace(u.workspaces, domain)
  {
    var v, w := RouteCache.FirstWorkspace(t.workspaces, domain), RouteCache.FirstWorkspace(u.workspaces, domain);
    if v.Some? { assert v.value in u.workspaces; }
    if w.Some? { assert w.value in t.workspaces; }
  }

  lemma SamePublisher(t: RouteCache.Tables, u: RouteCache.Tables, workspace: int, name: Text)
    requires SameRows(t, u) && OneService(t)
    ensures var e := RouteCache.FirstEndpoint(t, t.endpoints, workspace, name);
      var f := RouteCache.FirstEndpoint(u, u.endpoints, workspace, name);
      && (e.Some? <==> f.Some?)
      && (e.Some? ==> e.value.service == f.value.service && (OneEndpoint(t) ==> e == f))
  {
    var e := RouteCache.FirstEndpoint(t, t.endpoints, workspace, name);
    var f := RouteCache.FirstEndpoint(u, u.endpoints, workspace, name);
    if e.Some? { assert e.value in u.endpoints && RouteCache.Publishes(u, e.value, workspace, name); }
    if f.Some? { assert f.value in t.endpoints && RouteCache.Publishes(t, f.value, workspace, name); }
    if e.Some? && f.Some? { assert SameName(e.value, f.value); }
  }

  /** With one service a label the order of rows can at most choose between ports of that service. */
  lemma OrderIsInvisible(t: RouteCache.Tables, u: RouteCache.Tables, domain: Text, name: Text)
    requires SameRows(t, u) && OneWorkspace(t) && OneService(t)
    ensures var a, b := RouteCache.Resolve(t, domain, name), RouteCache.Resolve(u, domain, name);
      && (a.Failure? <==> b.Failure?) && (a.Failure? ==> a == b)
      && (a.Success? ==> a.value.service == b.value.service && a.value.route.agent == b.value.route.agent)
      && (OneEndpoint(t) ==> a == b)
  {
    SameWorkspace(t, u, domain);
    var w := RouteCache.FirstWorkspace(t.workspaces, domain);
    if w.Some? { SamePublisher(t, u, w.value.index, name); }
  }

  lemma ReachableWorkspaces(
    limit: int, domains: seq<Domains.Workspace>, s: Endpoints.State, details: int -> Detail,
    agents: map<int, RouteCache.Agent>)
    requires Domains.Inv(limit, domains)
    ensures OneWorkspace(TablesOf(domains, s, details, agents))
  {
    var rows := WorkspaceRows(domains);
    forall v, w | v in rows && w in rows && v.active && w.active && v.subdomain.Some? && v.subdomain == w.subdomain
      ensures v == w
    {
      var i: nat :| i < |rows| && rows[i] == v;
      var j: nat :| j < |rows| && rows[j] == w;
      assert domains[i].active && domains[j].active && domains[i].subdomain == domains[j].subdomain;
    }
  }

  lemma ReachableEndpoints(
    domains: seq<Domains.Workspace>, s: Endpoints.State, details: int -> Detail, agents: map<int, RouteCache.Agent>)
    requires Endpoints.Inv(s)
    ensures OneService(TablesOf(domains, s, details, agents))
    ensures Endpoints.Unambiguous(s.rows) ==> OneEndpoint(TablesOf(domains, s, details, agents))
  {
    var rows := EndpointRows(s.rows);
    forall e, f | e in rows && f in rows && SameName(e, f)
      ensures e.service == f.service && (Endpoints.Unambiguous(s.rows) ==> e == f)
    {
      var i: nat :| i < |rows| && rows[i] == e;
      var j: nat :| j < |rows| && rows[j] == f;
      assert Endpoints.SameHost(s.rows[i], s.rows[j]) && Endpoints.SameHost(s.rows[j], s.rows[i]);
      assert s.rows[i] in s.rows && s.rows[j] in s.rows;
    }
  }

  /**
   * For the tables any two runs of the services leave: whatever order the database returns rows in, the router finds
   * the same service and agent or gives the same refusal; and the same port too, as long as no change of subdomain
   * repeated a label of the same service.
   */
  lemma LookupIgnoresRowOrder(
    limit: int, domainStates: seq<Domains.State>, domainRun: seq<Domains.Event>, i: nat,
    serviceStates: seq<Endpoints.State>, serviceRun: seq<Endpoints.Event>, j: nat,
    details: int -> Detail, agents: map<int, RouteCache.Agent>, u: RouteCache.Tables, domain: Text, name: Text)
    requires Domains.IsRun(limit, domainStates, domainRun) && i <= |domainRun|
    requires Endpoints.IsRun(serviceStates, serviceRun) && j <= |serviceRun|
    requires SameRows(TablesOf(domainStates[i].rows, serviceStates[j], details, agents), u)
    ensures var t := TablesOf(domainStates[i].rows, serviceStates[j], details, agents);
      var a, b := RouteCache.Resolve(t, domain, name), RouteCache.Resolve(u, domain, name);
      && (a.Failure? <==> b.Failure?) && (a.Failure? ==> a == b)
      && (a.Success? ==> a.value.service == b.value.service && a.value.route.agent == b.value.route.agent)
      && ((forall n | 0 <= n < j :: !Endpoints.RepeatsLabel(serviceStates[n], serviceRun[n])) ==> a == b)
  {
    var t := TablesOf(domainStates[i].rows, serviceStates[j], details, agents);
    Domains.DomainsAreSafe(limit, domainStates, domainRun, i);
    Endpoints.LabelsAreSafe(serviceStates, serviceRun, j);
    ReachableWorkspaces(limit, domainStates[i].rows, serviceStates[j], details, agents);
    ReachableEndpoints(domainStates[i].rows, serviceStates[j], details, agents);
    if forall n | 0 <= n < j :: !Endpoints.RepeatsLabel(serviceStates[n], serviceRun[n]) {
      Endpoints.LabelsAreUnambiguous(serviceStates, serviceRun, j);
    }
    OrderIsInvisible(t, u, domain, name);
  }
}
