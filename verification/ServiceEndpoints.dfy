/**
 * src/services/service.service.ts: the public endpoints of services, and which service a host name reaches. Each
 * handler is one atomic step (the source awaits between reading and writing, so this speaks of serialised handlers).
 * Component names, sources and environments are left out; endpoint_deleted_at is never set by the source.
 */
module ServiceEndpoints {
  import opened Wrappers
  import opened Texts
  import WorkspaceDomains

  datatype Ports = Ports(host: int, container: int)

  datatype Endpoint = Endpoint(ports: Ports, subdomain: Option<Text>)

  /** A label as a request gives it: left out, an explicit null, or anything else by its text. */
  datatype RawLabel = Absent | Null | Given(text: Text)

  datatype RawEndpoint = RawEndpoint(ports: Ports, subdomain: RawLabel)

  /** An endpoint row; rows stand in the order of their generated index. */
  datatype Row = Row(workspace: int, service: int, endpoint: Endpoint)

  datatype Service = Service(
    workspace: int, subdomain: Option<Text>, ports: Ports, mappings: seq<Ports>, removed: bool, deleted: bool)

  datatype State = State(rows: seq<Row>, services: map<int, Service>)

  datatype Error =
    | NotFound
    | AgentNotConnected
    | InvalidSubdomain
    | DuplicateHostPort(port: int)
    | DuplicateContainerPort(port: int)
    | DuplicateSubdomain
    | SubdomainInUse

  // ------------------------------------------------------------ port mappings

  predicate IsPort(p: int) { 1 <= p <= 65535 }

  predicate ArePorts(p: Ports) { IsPort(p.host) && IsPort(p.container) }

  function ValidPorts(raw: seq<Ports>): seq<Ports> {
    if raw == [] then [] else (if ArePorts(raw[0]) then [raw[0]] else []) + ValidPorts(raw[1..])
  }

  function Mappings(raw: seq<Ports>, fallback: Ports): seq<Ports> {
    if ValidPorts(raw) == [] then [fallback] else ValidPorts(raw)
  }

  function HostsOf(ms: seq<Ports>): set<int> { set p | p in ms :: p.host }

  function ContainersOf(ms: seq<Ports>): set<int> { set p | p in ms :: p.container }

  function RepeatOf(hosts: set<int>, containers: set<int>, p: Ports): Option<Error> {
    if p.host in hosts then Some(DuplicateHostPort(p.host))
    else if p.container in containers then Some(DuplicateContainerPort(p.container))
    else None
  }

  /** The error of the first port that comes a second time. */
  function FirstRepeat(ms: seq<Ports>): Option<Error> {
    if ms == [] then None else
      var n := |ms| - 1;
      var before := FirstRepeat(ms[..n]);
      if before.Some? then before else RepeatOf(HostsOf(ms[..n]), ContainersOf(ms[..n]), ms[n])
  }

  /** The mappings that are in range, else the fallback; refused at the first repeated port. */
  function PortMappings(raw: seq<Ports>, fallback: Ports): (r: Result<seq<Ports>, Error>)
    ensures r.Success? ==> r.value != []
  {
    var ms := Mappings(raw, fallback);
    if FirstRepeat(ms).Some? then Failure(FirstRepeat(ms).value) else Success(ms)
  }

  method NormalizePortMappings(raw: seq<Ports>, fallback: Ports) returns (r: Result<seq<Ports>, Error>)
    ensures r == PortMappings(raw, fallback)
  {
    var ms := Mappings(raw, fallback);
    var hosts: set<int>, containers: set<int> := {}, {};
    for n := 0 to |ms|
      invariant hosts == HostsOf(ms[..n]) && containers == ContainersOf(ms[..n]) && FirstRepeat(ms[..n]).None?
    {
      RepeatStep(ms, n);
      var repeat := RepeatOf(hosts, containers, ms[n]);
      if repeat.Some? {
        RepeatStays(ms, n + 1);
        return Failure(repeat.value);
      }
      hosts, containers := hosts + {ms[n].host}, containers + {ms[n].container};
    }
    assert ms[..|ms|] == ms;
    return Success(ms);
  }

  lemma RepeatStep(ms: seq<Ports>, n: nat)
    requires n < |ms| && FirstRepeat(ms[..n]).None?
    ensures FirstRepeat(ms[..n + 1]) == RepeatOf(HostsOf(ms[..n]), ContainersOf(ms[..n]), ms[n])
    ensures HostsOf(ms[..n + 1]) == HostsOf(ms[..n]) + {ms[n].host}
    ensures ContainersOf(ms[..n + 1]) == ContainersOf(ms[..n]) + {ms[n].container}
  {
    assert ms[..n + 1] == ms[..n] + [ms[n]];
    assert ms[..n + 1][..n] == ms[..n];
  }

  lemma {:induction false} RepeatStays(ms: seq<Ports>, n: nat)
    requires n <= |ms| && FirstRepeat(ms[..n]).Some?
    ensures FirstRepeat(ms) == FirstRepeat(ms[..n])
    decreases |ms|
  {
    if n == |ms| {
      assert ms[..n] == ms;
    } else {
      var m := |ms| - 1;
      assert ms[..m][..n] == ms[..n];
      RepeatStays(ms[..m], n);
    }
  }

  ghost predicate DistinctPorts(ms: seq<Ports>) {
    forall i, j | 0 <= i < j < |ms| :: ms[i].host != ms[j].host && ms[i].container != ms[j].container
  }

  predicate IsApart(ms: seq<Ports>, p: Ports) {
    forall j | 0 <= j < |ms| :: ms[j].host != p.host && ms[j].container != p.container
  }

  lemma NoRepeatMeansApart(ms: seq<Ports>, p: Ports)
    ensures RepeatOf(HostsOf(ms), ContainersOf(ms), p).None? <==> IsApart(ms, p)
  {
    assert forall j | 0 <= j < |ms| :: ms[j] in ms;
  }

  lemma DistinctStep(ms: seq<Ports>, p: Ports)
    ensures DistinctPorts(ms + [p]) <==> DistinctPorts(ms) && IsApart(ms, p)
  {
    var all := ms + [p];
    assert forall j | 0 <= j < |ms| :: all[j] == ms[j];
    assert all[|ms|] == p;
  }

  /** Mappings pass exactly when no host port and no container port comes twice. */
  lemma {:induction false} PassesIffDistinct(ms: seq<Ports>)
    ensures FirstRepeat(ms).None? <==> DistinctPorts(ms)
  {
    if ms != [] {
      var n := |ms| - 1;
      PassesIffDistinct(ms[..n]);
      NoRepeatMeansApart(ms[..n], ms[n]);
      DistinctStep(ms[..n], ms[n]);
      assert ms == ms[..n] + [ms[n]];
    }
  }

  // ------------------------------------------------------------- the endpoints

  /** The apex, or a label. */
  predicate IsServiceLabel(t: Text) {
    t == [] || IsSubdomainLabel(t)
  }

  function Normalized(subdomain: Option<Text>): Option<Text> {
    if subdomain.None? then None else Some(ServiceLabel(subdomain.value))
  }

  predicate HasFormat(subdomain: Option<Text>) {
    subdomain.Some? ==> IsServiceLabel(subdomain.value)
  }

  /** Only a label left out means "not public": String() makes a label of an explicit null. */
  function Spelled(l: RawLabel): Option<Text> {
    match l
    case Absent => None
    case Null => Some(Ascii("null"))
    case Given(t) => Some(t)
  }

  /** The entries with ports in range, with their labels normalised and checked. */
  function Entries(raw: seq<RawEndpoint>): (r: Result<seq<Endpoint>, Error>)
    ensures r.Success? ==> forall e | e in r.value :: HasFormat(e.subdomain) && ArePorts(e.ports)
  {
    if raw == [] then Success([])
    else if !ArePorts(raw[0].ports) then Entries(raw[1..])
    else if !HasFormat(Normalized(Spelled(raw[0].subdomain))) then Failure(InvalidSubdomain)
    else
      var rest := Entries(raw[1..]);
      if rest.Failure? then rest
      else Success([Endpoint(raw[0].ports, Normalized(Spelled(raw[0].subdomain)))] + rest.value)
  }

  /** One entry of a request: what becomes of its label, whatever it is. */
  lemma LabelOfAnEntry(ports: Ports, l: RawLabel)
    requires ArePorts(ports)
    ensures var es := Entries([RawEndpoint(ports, l)]);
      && (es.Success? <==> HasFormat(Normalized(Spelled(l))))
      && (es.Success? ==> es.value == [Endpoint(ports, Normalized(Spelled(l)))])
      && (es == Success([Endpoint(ports, None)]) <==> l.Absent?)
  {
    var raw := [RawEndpoint(ports, l)];
    assert raw[1..] == [] && Entries(raw[1..]) == Success([]);
    var e := Endpoint(ports, Normalized(Spelled(l)));
    assert [e] + [] == [e] && [e][0] == e;
    assert [Endpoint(ports, None)][0] == Endpoint(ports, None);
  }

  /** In particular an explicit null is published under the label "null". */
  lemma NullIsALabel(ports: Ports)
    requires ArePorts(ports)
    ensures Entries([RawEndpoint(ports, Null)]) == Success([Endpoint(ports, Some(Ascii("null")))])
  {
    var t := Ascii("null");
    assert t[0] == 110 && t[1] == 117 && t[2] == 108 && t[3] == 108;
    assert Trim(t) == t && Lower(t) == t && t != AT;
    assert Normalized(Spelled(Null)) == Some(t) && IsServiceLabel(t);
    LabelOfAnEntry(ports, Null);
  }

  /** With no usable entry: one endpoint a mapping, the first of them under the label there was. */
  function NormalizeEndpoints(raw: seq<RawEndpoint>, mappings: seq<Ports>, existing: Option<Text>)
    : Result<seq<Endpoint>, Error>
  {
    var entries := Entries(raw);
    if entries.Failure? || entries.value != [] then entries
    else Success(seq(|mappings|, i requires 0 <= i < |mappings| =>
                       Endpoint(mappings[i], if i == 0 then existing else None)))
  }

  predicate DistinctPublic(es: seq<Endpoint>) {
    forall i, j | 0 <= i < j < |es| && es[i].subdomain.Some? :: es[i].subdomain != es[j].subdomain
  }

  /** Another service of the workspace already publishes the label. */
  predicate IsUsed(rows: seq<Row>, workspace: int, service: int, subdomain: Text) {
    exists i | 0 <= i < |rows| ::
      rows[i].workspace == workspace && rows[i].service != service && rows[i].endpoint.subdomain == Some(subdomain)
  }

  predicate Collides(rows: seq<Row>, workspace: int, service: int, es: seq<Endpoint>) {
    exists i | 0 <= i < |es| ::
      es[i].subdomain.Some? && IsUsed(rows, workspace, service, es[i].subdomain.value)
  }

  function RowsFor(workspace: int, service: int, es: seq<Endpoint>): seq<Row> {
    seq(|es|, i requires 0 <= i < |es| => Row(workspace, service, es[i]))
  }

  function Others(rows: seq<Row>, service: int): (r: seq<Row>)
    ensures forall x :: x in r <==> x in rows && x.service != service
  {
    if rows == [] then [] else (if rows[0].service != service then [rows[0]] else []) + Others(rows[1..], service)
  }

  function Replace(rows: seq<Row>, workspace: int, service: int, es: seq<Endpoint>): Result<seq<Row>, Error> {
    if !DistinctPublic(es) then Failure(DuplicateSubdomain)
    else if Collides(rows, workspace, service, es) then Failure(SubdomainInUse)
    else Success(Others(rows, service) + RowsFor(workspace, service, es))
  }

  /** The service's endpoint of lowest index. */
  function Primary(rows: seq<Row>, service: int): (r: Option<nat>)
    ensures r.Some? ==> r.value < |rows| && rows[r.value].service == service
    ensures r.Some? ==> forall i | 0 <= i < r.value :: rows[i].service != service
    ensures r.None? ==> forall i | 0 <= i < |rows| :: rows[i].service != service
  {
    if rows == [] then None
    else if rows[0].service == service then Some(0)
    else
      var rest := Primary(rows[1..], service);
      if rest.None? then None else Some(rest.value + 1)
  }

  predicate IsFound(s: State, service: int) {
    service in s.services && !s.services[service].deleted
  }

  datatype Outcome = Outcome(state: State, error: Option<Error>)

  function UpdateSubdomain(s: State, service: int, subdomain: Option<Text>): Outcome {
    if !IsFound(s, service) then Outcome(s, Some(NotFound)) else
      var svc := s.services[service];
      var wanted := Normalized(subdomain);
      if !HasFormat(wanted) then Outcome(s, Some(InvalidSubdomain))
      else if wanted.Some? && IsUsed(s.rows, svc.workspace, service, wanted.value) then Outcome(s, Some(SubdomainInUse))
      else
        var rows := WithPrimary(s.rows, service, svc, wanted);
        Outcome(State(rows, s.services[service := svc.(subdomain := wanted)]), None)
  }

  function WithPrimary(rows: seq<Row>, service: int, svc: Service, wanted: Option<Text>): seq<Row> {
    var i := Primary(rows, service);
    if i.Some? then rows[i.value := rows[i.value].(endpoint := rows[i.value].endpoint.(subdomain := wanted))]
    else if wanted.Some? then rows + [Row(svc.workspace, service, Endpoint(svc.ports, wanted))]
    else rows
  }

  /** The label of the first public endpoint. */
  function FirstPublic(es: seq<Endpoint>): Option<Text> {
    if es == [] then None else if es[0].subdomain.Some? then es[0].subdomain else FirstPublic(es[1..])
  }

  function Redirect(s: State, service: int, es: seq<Endpoint>, svc: Service): Outcome {
    var rows := Replace(s.rows, svc.workspace, service, es);
    if rows.Failure? then Outcome(s, Some(rows.error))
    else Outcome(State(rows.value, s.services[service := svc]), None)
  }

  function UpdateEndpoints(s: State, service: int, raw: seq<RawEndpoint>): Outcome {
    if !IsFound(s, service) then Outcome(s, Some(NotFound)) else
      var svc := s.services[service];
      var mappings := PortMappings(svc.mappings, svc.ports);
      if mappings.Failure? then Outcome(s, Some(mappings.error)) else
        var es := NormalizeEndpoints(raw, mappings.value, svc.subdomain);
        if es.Failure? then Outcome(s, Some(es.error))
        else Redirect(s, service, es.value, svc.(subdomain := FirstPublic(es.value)))
  }

  /** The service row is written before its endpoints are: refused endpoints leave a service without any. */
  function Create(
    s: State, service: int, workspace: int, raw: seq<RawEndpoint>, ports: seq<Ports>, first: Ports): Outcome
  {
    var mappings := PortMappings(ports, first);
    if mappings.Failure? then Outcome(s, Some(mappings.error)) else
      var es := NormalizeEndpoints(raw, mappings.value, None);
      if es.Failure? then Outcome(s, Some(es.error)) else
        var svc := Service(workspace, None, mappings.value[0], mappings.value, false, false);
        Redirect(s.(services := s.services[service := svc]), service, es.value, svc)
  }

  /** The label a redeployment falls back on: that of the first public endpoint row, else the service's own. */
  function ExistingLabel(rows: seq<Row>, service: int, own: Option<Text>): Option<Text> {
    if rows == [] then own
    else if rows[0].service == service && rows[0].endpoint.subdomain.Some? then rows[0].endpoint.subdomain
    else ExistingLabel(rows[1..], service, own)
  }

  /** New port mappings, if any, are written before the endpoints are checked. */
  function Redeploy(s: State, service: int, raw: seq<RawEndpoint>, ports: Option<seq<Ports>>, first: Ports): Outcome {
    if !IsFound(s, service) then Outcome(s, Some(NotFound)) else
      var svc := s.services[service];
      var existing := PortMappings(svc.mappings, first);
      if existing.Failure? then Outcome(s, Some(existing.error)) else
        var mappings := if ports.Some? then PortMappings(ports.value, first) else existing;
        if mappings.Failure? then Outcome(s, Some(mappings.error)) else
          var renewed := svc.(ports := mappings.value[0], mappings := mappings.value);
          var written := s.(services := s.services[service := renewed]);
          var es := NormalizeEndpoints(raw, mappings.value, ExistingLabel(s.rows, service, svc.subdomain));
          if es.Failure? then Outcome(written, Some(es.error)) else Redirect(written, service, es.value, renewed)
  }

  /** Deleting needs the agent to hear of it, and leaves the endpoints where they are. */
  function Delete(s: State, service: int, whole: bool, sent: bool): Outcome {
    if !IsFound(s, service) then Outcome(s, Some(NotFound))
    else if !sent then Outcome(s, Some(AgentNotConnected))
    else Outcome(s.(services := s.services[service := s.services[service].(removed := true, deleted := whole)]), None)
  }

  // ---------------------------------------------------------------- the class

  class ServiceTable {
    var rows: seq<Row>
    var services: map<int, Service>

    function View(): State
      reads this
    {
      State(rows, services)
    }

    constructor ()
      ensures View() == State([], map[])
    {
      rows, services := [], map[];
    }

    method ReplaceServiceEndpoints(service: int, workspace: int, es: seq<Endpoint>) returns (error: Option<Error>)
      modifies `rows
      ensures match Replace(old(rows), workspace, service, es)
        case Success(replaced) => error == None && rows == replaced
        case Failure(e) => error == Some(e) && rows == old(rows)
    {
      if !DistinctPublic(es) { return Some(DuplicateSubdomain); }
      if Collides(rows, workspace, service, es) { return Some(SubdomainInUse); }
      rows := Others(rows, service);
      if es == [] {
        assert rows + RowsFor(workspace, service, es) == rows;
        return None;
      }
      rows := rows + RowsFor(workspace, service, es);
      return None;
    }

    method UpdateServiceSubdomain(service: int, subdomain: Option<Text>) returns (error: Option<Error>)
      modifies this
      ensures Outcome(View(), error) == UpdateSubdomain(old(View()), service, subdomain)
    {
      if service !in services || services[service].deleted { return Some(NotFound); }
      var svc := services[service];
      var wanted := Normalized(subdomain);
      if !HasFormat(wanted) { return Some(InvalidSubdomain); }
      if wanted.Some? && IsUsed(rows, svc.workspace, service, wanted.value) { return Some(SubdomainInUse); }
      var primary := Primary(rows, service);
      if primary.Some? {
        var row := rows[primary.value];
        rows := rows[primary.value := row.(endpoint := row.endpoint.(subdomain := wanted))];
      } else if wanted.Some? {
        rows := rows + [Row(svc.workspace, service, Endpoint(svc.ports, wanted))];
      }
      services := services[service := svc.(subdomain := wanted)];
      return None;
    }

    method UpdateServiceEndpoints(service: int, raw: seq<RawEndpoint>) returns (error: Option<Error>)
      modifies this
      ensures Outcome(View(), error) == UpdateEndpoints(old(View()), service, raw)
    {
      if service !in services || services[service].deleted { return Some(NotFound); }
      var svc := services[service];
      var mappings := NormalizePortMappings(svc.mappings, svc.ports);
      if mappings.Failure? { return Some(mappings.error); }
      var es := NormalizeEndpoints(raw, mappings.value, svc.subdomain);
      if es.Failure? { return Some(es.error); }
      error := ReplaceServiceEndpoints(service, svc.workspace, es.value);
      if error.Some? { return; }
      services := services[service := svc.(subdomain := FirstPublic(es.value))];
    }

    method CreateService(service: int, workspace: int, raw: seq<RawEndpoint>, ports: seq<Ports>, first: Ports)
      returns (error: Option<Error>)
      modifies this
      ensures Outcome(View(), error) == Create(old(View()), service, workspace, raw, ports, first)
    {
      var mappings := NormalizePortMappings(ports, first);
      if mappings.Failure? { return Some(mappings.error); }
      var es := NormalizeEndpoints(raw, mappings.value, None);
      if es.Failure? { return Some(es.error); }
      services := services[service := Service(workspace, None, mappings.value[0], mappings.value, false, false)];
      error := ReplaceServiceEndpoints(service, workspace, es.value);
    }

    method RedeployService(service: int, raw: seq<RawEndpoint>, ports: Option<seq<Ports>>, first: Ports)
      returns (error: Option<Error>)
      modifies this
      ensures Outcome(View(), error) == Redeploy(old(View()), service, raw, ports, first)
    {
      if service !in services || services[service].deleted { return Some(NotFound); }
      var svc := services[service];
      var mappings := NormalizePortMappings(svc.mappings, first);
      if mappings.Failure? { return Some(mappings.error); }
      if ports.Some? { mappings := NormalizePortMappings(ports.value, first); }
      if mappings.Failure? { return Some(mappings.error); }
      var existing := ExistingLabel(rows, service, svc.subdomain);
      services := services[service := svc.(ports := mappings.value[0], mappings := mappings.value)];
      var es := NormalizeEndpoints(raw, mappings.value, existing);
      if es.Failure? { return Some(es.error); }
      error := ReplaceServiceEndpoints(service, svc.workspace, es.value);
    }

    method DeleteService(service: int, whole: bool, sent: bool) returns (error: Option<Error>)
      modifies `services
      ensures Outcome(View(), error) == Delete(old(View()), service, whole, sent)
    {
      if service !in services || services[service].deleted { return Some(NotFound); }
      if !sent { return Some(AgentNotConnected); }
      services := services[service := services[service].(removed := true, deleted := whole)];
      return None;
    }
  }

  // --------------------------------------------------------------- invariants

  predicate SameHost(a: Row, b: Row) {
    a.workspace == b.workspace && a.endpoint.subdomain.Some? && a.endpoint.subdomain == b.endpoint.subdomain
  }

  /** Rows belong to the workspace of their service, and a public label of a workspace to one service. */
  ghost predicate Inv(s: State) {
    && (forall x | x in s.rows :: x.service in s.services && x.workspace == s.services[x.service].workspace)
    && OneServicePerLabel(s.rows)
  }

  ghost predicate OneServicePerLabel(rows: seq<Row>) {
    forall x, y | x in rows && y in rows && SameHost(x, y) :: x.service == y.service
  }

  /** Stronger: a public label of a workspace belongs to one endpoint. */
  ghost predicate Unambiguous(rows: seq<Row>) {
    forall i, j | 0 <= i < j < |rows| :: !SameHost(rows[i], rows[j])
  }

  lemma ReplaceKeepsInv(s: State, service: int, es: seq<Endpoint>, svc: Service)
    requires Inv(s) && service in s.services && svc.workspace == s.services[service].workspace
    ensures Inv(Redirect(s, service, es, svc).state)
  {
    var replaced := Replace(s.rows, svc.workspace, service, es);
    if replaced.Success? {
      forall x, y | x in replaced.value && y in replaced.value && SameHost(x, y) ensures x.service == y.service {
        if x.service != service && y.service == service { OtherIsUsed(s.rows, svc.workspace, service, es, x, y); }
        if x.service == service && y.service != service { OtherIsUsed(s.rows, svc.workspace, service, es, y, x); }
      }
    }
  }

  /** A kept row of another service cannot share its label with a new row, or the replacement had been refused. */
  lemma OtherIsUsed(rows: seq<Row>, workspace: int, service: int, es: seq<Endpoint>, kept: Row, added: Row)
    requires kept in rows && kept.service != service && added in RowsFor(workspace, service, es)
    requires SameHost(kept, added)
    ensures Collides(rows, workspace, service, es)
  {
    var i: nat :| i < |es| && added == RowsFor(workspace, service, es)[i];
    assert IsUsed(rows, workspace, service, es[i].subdomain.value);
  }

  lemma UpdateSubdomainKeepsInv(s: State, service: int, subdomain: Option<Text>)
    requires Inv(s)
    ensures Inv(UpdateSubdomain(s, service, subdomain).state)
  {
    var wanted := Normalized(subdomain);
    var after := UpdateSubdomain(s, service, subdomain);
    if after.error.None? {
      forall x | x in after.state.rows
        ensures x in s.rows
          || (x.service == service && x.workspace == s.services[service].workspace && x.endpoint.subdomain == wanted)
      {
        var i := Primary(s.rows, service);
        if i.Some? { assert s.rows[i.value] in s.rows; }
      }
    }
  }

  datatype Event =
    | Creates(service: int, workspace: int, raw: seq<RawEndpoint>, ports: seq<Ports>, first: Ports)
    | Redeploys(service: int, raw: seq<RawEndpoint>, newPorts: Option<seq<Ports>>, first: Ports)
    | UpdatesEndpoints(service: int, raw: seq<RawEndpoint>)
    | UpdatesSubdomain(service: int, subdomain: Option<Text>)
    | Deletes(service: int, whole: bool, sent: bool)

  function Handle(s: State, e: Event): Outcome {
    match e
    case Creates(service, workspace, raw, ports, first) => Create(s, service, workspace, raw, ports, first)
    case Redeploys(service, raw, ports, first) => Redeploy(s, service, raw, ports, first)
    case UpdatesEndpoints(service, raw) => UpdateEndpoints(s, service, raw)
    case UpdatesSubdomain(service, subdomain) => UpdateSubdomain(s, service, subdomain)
    case Deletes(service, whole, sent) => Delete(s, service, whole, sent)
  }

  predicate Enabled(s: State, e: Event) {
    e.Creates? ==> e.service !in s.services
  }

  /** Every step but a change of subdomain either keeps the endpoint rows or replaces one service's. */
  lemma StepIsReplace(s: State, e: Event)
    requires !e.UpdatesSubdomain?
    ensures var rows := Handle(s, e).state.rows;
      rows == s.rows || exists w, es :: Replace(s.rows, w, e.service, es) == Success(rows)
  {
  }

  lemma StepKeepsInv(s: State, e: Event)
    requires Inv(s) && Enabled(s, e)
    ensures Inv(Handle(s, e).state)
  {
    match e
    case UpdatesSubdomain(service, subdomain) => UpdateSubdomainKeepsInv(s, service, subdomain);
    case UpdatesEndpoints(service, raw) => UpdateEndpointsKeepsInv(s, service, raw);
    case Creates(_, _, _, _, _) => CreateKeepsInv(s, e);
    case Redeploys(_, _, _, _) => RedeployKeepsInv(s, e);
    case Deletes(_, _, _) =>
  }

  lemma UpdateEndpointsKeepsInv(s: State, service: int, raw: seq<RawEndpoint>)
    requires Inv(s)
    ensures Inv(UpdateEndpoints(s, service, raw).state)
  {
    if IsFound(s, service) {
      var svc := s.services[service];
      var mappings := PortMappings(svc.mappings, svc.ports);
      if mappings.Success? {
        var es := NormalizeEndpoints(raw, mappings.value, svc.subdomain);
        if es.Success? { ReplaceKeepsInv(s, service, es.value, svc.(subdomain := FirstPublic(es.value))); }
      }
    }
  }

  lemma CreateKeepsInv(s: State, e: Event)
    requires Inv(s) && Enabled(s, e) && e.Creates?
    ensures Inv(Handle(s, e).state)
  {
    var mappings := PortMappings(e.ports, e.first);
    if mappings.Success? {
      var es := NormalizeEndpoints(e.raw, mappings.value, None);
      var svc := Service(e.workspace, None, mappings.value[0], mappings.value, false, false);
      var made := s.(services := s.services[e.service := svc]);
      assert Inv(made);
      if es.Success? { ReplaceKeepsInv(made, e.service, es.value, svc); }
    }
  }

  lemma RedeployKeepsInv(s: State, e: Event)
    requires Inv(s) && e.Redeploys?
    ensures Inv(Handle(s, e).state)
  {
    if IsFound(s, e.service) && PortMappings(s.services[e.service].mappings, e.first).Success? {
      var svc := s.services[e.service];
      var mappings := PortMappings(if e.newPorts.Some? then e.newPorts.value else svc.mappings, e.first);
      if mappings.Success? {
        var renewed := svc.(ports := mappings.value[0], mappings := mappings.value);
        var written := s.(services := s.services[e.service := renewed]);
        assert Inv(written);
        var es := NormalizeEndpoints(e.raw, mappings.value, ExistingLabel(s.rows, e.service, svc.subdomain));
        if es.Success? { ReplaceKeepsInv(written, e.service, es.value, renewed); }
      }
    }
  }

  // ------------------------------------------------------------- unambiguity

  lemma {:induction false} OthersStayUnambiguous(rows: seq<Row>, service: int)
    requires Unambiguous(rows)
    ensures Unambiguous(Others(rows, service))
  {
    if rows != [] {
      assert forall i, j | 0 <= i < j < |rows[1..]| :: rows[1..][i] == rows[i + 1] && rows[1..][j] == rows[j + 1];
      OthersStayUnambiguous(rows[1..], service);
      var rest := Others(rows[1..], service);
      forall j | 0 <= j < |rest| ensures !SameHost(rows[0], rest[j]) {
        assert rest[j] in rows[1..];
      }
    }
  }

  lemma ReplaceKeepsUnambiguous(rows: seq<Row>, workspace: int, service: int, es: seq<Endpoint>)
    requires Unambiguous(rows) && Replace(rows, workspace, service, es).Success?
    ensures Unambiguous(Replace(rows, workspace, service, es).value)
  {
    var kept, added := Others(rows, service), RowsFor(workspace, service, es);
    OthersStayUnambiguous(rows, service);
    forall i, j | 0 <= i < |kept| && 0 <= j < |added| ensures !SameHost(kept[i], added[j]) {
      if SameHost(kept[i], added[j]) {
        assert kept[i] in kept && added[j] in added;
        OtherIsUsed(rows, workspace, service, es, kept[i], added[j]);
      }
    }
    assert forall i, j | 0 <= i < j < |added| :: !SameHost(added[i], added[j]);
  }

  /** A well-formed new label is that of another endpoint of the same service, which the change does not look at. */
  ghost predicate RepeatsItsOwn(s: State, service: int, subdomain: Option<Text>) {
    IsFound(s, service) && Normalized(subdomain).Some? && HasFormat(Normalized(subdomain))
    && exists j | 0 <= j < |s.rows| ::
         s.rows[j].service == service && Some(j) != Primary(s.rows, service)
         && s.rows[j].endpoint.subdomain == Normalized(subdomain)
  }

  /** A label the service has itself is used by no other. */
  lemma OwnLabelIsUnused(s: State, j: nat, name: Text)
    requires Inv(s) && j < |s.rows| && s.rows[j].endpoint.subdomain == Some(name)
    ensures !IsUsed(s.rows, s.services[s.rows[j].service].workspace, s.rows[j].service, name)
  {
    assert s.rows[j] in s.rows;
    forall i | 0 <= i < |s.rows| && SameHost(s.rows[i], s.rows[j]) ensures s.rows[i].service == s.rows[j].service {
      assert s.rows[i] in s.rows;
    }
  }

  /** A change of subdomain keeps labels unambiguous exactly unless the service repeats one of its own. */
  lemma SubdomainChangeIsUnambiguous(s: State, service: int, subdomain: Option<Text>)
    requires Inv(s) && Unambiguous(s.rows)
    ensures Unambiguous(UpdateSubdomain(s, service, subdomain).state.rows) <==> !RepeatsItsOwn(s, service, subdomain)
  {
    var wanted := Normalized(subdomain);
    if UpdateSubdomain(s, service, subdomain).error.None? && wanted.Some? {
      ChangedLabelIsUnambiguous(s, service, subdomain);
    } else if RepeatsItsOwn(s, service, subdomain) {
      var j: nat :| j < |s.rows| && s.rows[j].service == service && s.rows[j].endpoint.subdomain == wanted;
      OwnLabelIsUnused(s, j, wanted.value);
    }
  }

  lemma ChangedLabelIsUnambiguous(s: State, service: int, subdomain: Option<Text>)
    requires Inv(s) && Unambiguous(s.rows) && Normalized(subdomain).Some?
    requires UpdateSubdomain(s, service, subdomain).error.None?
    ensures Unambiguous(UpdateSubdomain(s, service, subdomain).state.rows) <==> !RepeatsItsOwn(s, service, subdomain)
  {
    var p, wanted := Primary(s.rows, service), Normalized(subdomain);
    var rows := UpdateSubdomain(s, service, subdomain).state.rows;
    var k := if p.Some? then p.value else |s.rows|;
    assert k < |rows| && rows[k].endpoint.subdomain == wanted && rows[k].service == service;
    assert forall j | 0 <= j < |s.rows| && j != k :: rows[j] == s.rows[j] && s.rows[j] in s.rows;
    forall j | 0 <= j < |s.rows| && j != k
      ensures SameHost(rows[j], rows[k]) <==> s.rows[j].service == service && s.rows[j].endpoint.subdomain == wanted
    {
      assert !IsUsed(s.rows, s.services[service].workspace, service, wanted.value);
    }
  }

  /** Such a change: a service with two labels takes its second one as its first. */
  lemma RepeatingIsAmbiguous(ports: Ports, a: Text, b: Text)
    requires a != b && IsServiceLabel(b) && ServiceLabel(b) == b
    ensures var svc := Service(1, Some(a), ports, [ports], false, false);
      var s := State([Row(1, 1, Endpoint(ports, Some(a))), Row(1, 1, Endpoint(ports, Some(b)))], map[1 := svc]);
      && Inv(s) && Unambiguous(s.rows) && RepeatsLabel(s, UpdatesSubdomain(1, Some(b)))
      && !Unambiguous(Handle(s, UpdatesSubdomain(1, Some(b))).state.rows)
  {
    var svc := Service(1, Some(a), ports, [ports], false, false);
    var s := State([Row(1, 1, Endpoint(ports, Some(a))), Row(1, 1, Endpoint(ports, Some(b)))], map[1 := svc]);
    assert s.rows[1].endpoint.subdomain == Normalized(Some(b)) && Primary(s.rows, 1) == Some(0);
    SubdomainChangeIsUnambiguous(s, 1, Some(b));
  }

  ghost predicate RepeatsLabel(s: State, e: Event) {
    e.UpdatesSubdomain? && RepeatsItsOwn(s, e.service, e.subdomain)
  }

  /** Over one step of any kind. */
  lemma StepIsUnambiguous(s: State, e: Event)
    requires Inv(s) && Unambiguous(s.rows)
    ensures Unambiguous(Handle(s, e).state.rows) <==> !RepeatsLabel(s, e)
  {
    if e.UpdatesSubdomain? {
      SubdomainChangeIsUnambiguous(s, e.service, e.subdomain);
    } else {
      StepIsReplace(s, e);
      if Handle(s, e).state.rows != s.rows {
        var w, es :| Replace(s.rows, w, e.service, es) == Success(Handle(s, e).state.rows);
        ReplaceKeepsUnambiguous(s.rows, w, e.service, es);
      }
    }
  }

  // --------------------------------------------------------------- whole runs

  ghost predicate IsRun(states: seq<State>, run: seq<Event>) {
    && |states| == |run| + 1 && states[0].rows == []
    && (forall k | 0 <= k < |run| :: Enabled(states[k], run[k]) && states[k + 1] == Handle(states[k], run[k]).state)
  }

  /** Over every run a public label of a workspace belongs to one service. */
  lemma {:induction false} LabelsAreSafe(states: seq<State>, run: seq<Event>, k: nat)
    requires IsRun(states, run) && k <= |run|
    ensures Inv(states[k])
  {
    if k > 0 {
      LabelsAreSafe(states, run, k - 1);
      StepKeepsInv(states[k - 1], run[k - 1]);
    }
  }

  /** And to one endpoint, as long as no change of subdomain repeated a label of the same service. */
  lemma {:induction false} LabelsAreUnambiguous(states: seq<State>, run: seq<Event>, k: nat)
    requires IsRun(states, run) && k <= |run|
    requires forall n | 0 <= n < k :: !RepeatsLabel(states[n], run[n])
    ensures Unambiguous(states[k].rows)
  {
    if k > 0 {
      LabelsAreUnambiguous(states, run, k - 1);
      LabelsAreSafe(states, run, k - 1);
      StepIsUnambiguous(states[k - 1], run[k - 1]);
    }
  }

  /** A workspace label and a service label together reach at most one service. */
  lemma AHostReachesOneService(
    limit: int, domains: seq<WorkspaceDomains.Workspace>, s: State, x: Row, y: Row, domain: Text, name: Text)
    requires WorkspaceDomains.Inv(limit, domains) && Inv(s) && x in s.rows && y in s.rows
    requires forall r | r == x || r == y ::
      0 <= r.workspace < |domains| && domains[r.workspace].active
      && domains[r.workspace].subdomain == Some(domain) && r.endpoint.subdomain == Some(name)
    ensures x.service == y.service
  {
    assert x.workspace == y.workspace;
    assert SameHost(x, y);
  }

  /** No step touches the endpoint rows of any other service. */
  lemma RowsAreLocal(s: State, e: Event)
    ensures Others(Handle(s, e).state.rows, e.service) == Others(s.rows, e.service)
  {
    if e.UpdatesSubdomain? {
      SubdomainChangeIsLocal(s, e.service, e.subdomain);
    } else {
      StepIsReplace(s, e);
      ReplacedOrKept(s.rows, Handle(s, e).state.rows, e.service);
    }
  }

  lemma SubdomainChangeIsLocal(s: State, service: int, subdomain: Option<Text>)
    ensures Others(UpdateSubdomain(s, service, subdomain).state.rows, service) == Others(s.rows, service)
  {
    if UpdateSubdomain(s, service, subdomain).error.None? {
      PrimaryIsOwn(s.rows, service, s.services[service], Normalized(subdomain));
    }
  }

  lemma ReplacedOrKept(rows: seq<Row>, after: seq<Row>, service: int)
    requires after == rows || exists w, es :: Replace(rows, w, service, es) == Success(after)
    ensures Others(after, service) == Others(rows, service)
  {
    if after != rows {
      var w, es :| Replace(rows, w, service, es) == Success(after);
      ReplaceIsLocal(rows, w, service, es);
    }
  }

  ghost predicate SameElsewhere(s: map<int, Service>, t: map<int, Service>, service: int) {
    forall k | k != service :: (k in t <==> k in s) && (k in s ==> t[k] == s[k])
  }

  lemma RedirectIsLocal(s: State, service: int, es: seq<Endpoint>, svc: Service)
    ensures SameElsewhere(s.services, Redirect(s, service, es, svc).state.services, service)
  {
  }

  /** Nor the other services themselves. */
  lemma ServicesAreLocal(s: State, e: Event)
    ensures SameElsewhere(s.services, Handle(s, e).state.services, e.service)
  {
    match e
    case Creates(service, workspace, raw, ports, first) => CreateIsLocal(s, service, workspace, raw, ports, first);
    case Redeploys(service, raw, ports, first) => RedeployIsLocal(s, service, raw, ports, first);
    case UpdatesEndpoints(service, raw) => UpdateEndpointsIsLocal(s, service, raw);
    case UpdatesSubdomain(_, _) =>
    case Deletes(_, _, _) =>
  }

  lemma CreateIsLocal(
    s: State, service: int, workspace: int, raw: seq<RawEndpoint>, ports: seq<Ports>, first: Ports)
    ensures SameElsewhere(s.services, Create(s, service, workspace, raw, ports, first).state.services, service)
  {
    var mappings := PortMappings(ports, first);
    if mappings.Success? {
      var svc := Service(workspace, None, mappings.value[0], mappings.value, false, false);
      var es := NormalizeEndpoints(raw, mappings.value, None);
      if es.Success? { RedirectIsLocal(s.(services := s.services[service := svc]), service, es.value, svc); }
    }
  }

  lemma UpdateEndpointsIsLocal(s: State, service: int, raw: seq<RawEndpoint>)
    ensures SameElsewhere(s.services, UpdateEndpoints(s, service, raw).state.services, service)
  {
    if IsFound(s, service) {
      var svc := s.services[service];
      var mappings := PortMappings(svc.mappings, svc.ports);
      if mappings.Success? {
        var es := NormalizeEndpoints(raw, mappings.value, svc.subdomain);
        if es.Success? { RedirectIsLocal(s, service, es.value, svc.(subdomain := FirstPublic(es.value))); }
      }
    }
  }

  lemma RedeployIsLocal(s: State, service: int, raw: seq<RawEndpoint>, ports: Option<seq<Ports>>, first: Ports)
    ensures SameElsewhere(s.services, Redeploy(s, service, raw, ports, first).state.services, service)
  {
    if IsFound(s, service) && PortMappings(s.services[service].mappings, first).Success? {
      var svc := s.services[service];
      var mappings := PortMappings(if ports.Some? then ports.value else svc.mappings, first);
      if mappings.Success? {
        var renewed := svc.(ports := mappings.value[0], mappings := mappings.value);
        var written := s.(services := s.services[service := renewed]);
        var es := NormalizeEndpoints(raw, mappings.value, ExistingLabel(s.rows, service, svc.subdomain));
        if es.Success? { RedirectIsLocal(written, service, es.value, renewed); }
      }
    }
  }

  lemma ReplaceIsLocal(rows: seq<Row>, workspace: int, service: int, es: seq<Endpoint>)
    requires Replace(rows, workspace, service, es).Success?
    ensures Others(Replace(rows, workspace, service, es).value, service) == Others(rows, service)
  {
    var kept, added := Others(rows, service), RowsFor(workspace, service, es);
    OthersOfBoth(kept, added, service);
  }

  lemma {:induction false} OthersOfBoth(others: seq<Row>, own: seq<Row>, service: int)
    requires forall x | x in others :: x.service != service
    requires forall x | x in own :: x.service == service
    ensures Others(others + own, service) == others
    decreases |others| + |own|
  {
    if others != [] {
      OthersOfBoth(others[1..], own, service);
      assert (others + own)[1..] == others[1..] + own;
    } else if own != [] {
      OthersOfBoth([], own[1..], service);
      assert [] + own == own && [] + own[1..] == own[1..];
    }
  }

  lemma {:induction false} PrimaryIsOwn(rows: seq<Row>, service: int, svc: Service, wanted: Option<Text>)
    ensures Others(WithPrimary(rows, service, svc, wanted), service) == Others(rows, service)
  {
    if rows != [] {
      if rows[0].service == service {
        OthersFirst(rows[0].(endpoint := rows[0].endpoint.(subdomain := wanted)), rows[1..], service);
        assert WithPrimary(rows, service, svc, wanted)
          == [rows[0].(endpoint := rows[0].endpoint.(subdomain := wanted))] + rows[1..];
      } else {
        PrimaryIsOwn(rows[1..], service, svc, wanted);
        PrimaryIsLater(rows, service, svc, wanted);
        OthersFirst(rows[0], WithPrimary(rows[1..], service, svc, wanted), service);
      }
    }
  }

  lemma PrimaryIsLater(rows: seq<Row>, service: int, svc: Service, wanted: Option<Text>)
    requires rows != [] && rows[0].service != service
    ensures WithPrimary(rows, service, svc, wanted) == [rows[0]] + WithPrimary(rows[1..], service, svc, wanted)
  {
    assert rows == [rows[0]] + rows[1..];
  }

  lemma OthersFirst(x: Row, rows: seq<Row>, service: int)
    ensures Others([x] + rows, service) == (if x.service != service then [x] else []) + Others(rows, service)
  {
    assert ([x] + rows)[1..] == rows;
  }

  /** A deleted service keeps its labels: no other service of the workspace can take them. */
  lemma DeletedServiceKeepsItsLabels(s: State, a: int, b: int, x: Row, name: Text)
    requires Inv(s) && IsFound(s, a) && IsFound(s, b) && a != b && x in s.rows && x.service == a
    requires s.services[a].workspace == s.services[b].workspace
    requires x.endpoint.subdomain == Some(name) && ServiceLabel(name) == name && IsServiceLabel(name)
    ensures UpdateSubdomain(Delete(s, a, true, true).state, b, Some(name)).error == Some(SubdomainInUse)
  {
  }
}
