/**
 * The handlers of src/services/service.service.ts seen by their callers: which ports and labels pass, why a request is
 * refused, and what it leaves in the service's row and in its endpoints.
 */
module ServiceOutcomes {
  import opened Wrappers
  import opened Texts
  import opened ServiceEndpoints

  // ------------------------------------------------------------ port mappings

  ghost predicate InRange(p: Ports) {
    0 < p.host < 65536 && 0 < p.container < 65536
  }

  lemma ValidPortsHead(p: Ports, rest: seq<Ports>)
    ensures ValidPorts([p] + rest) == if InRange(p) then [p] + ValidPorts(rest) else ValidPorts(rest)
  {
    assert ([p] + rest)[1..] == rest;
    assert [] + ValidPorts(rest) == ValidPorts(rest);
  }

  lemma PortsAssoc(a: seq<Ports>, b: seq<Ports>, c: seq<Ports>)
    ensures (a + b) + c == a + (b + c)
  {
  }

  /** Of the given mappings exactly those in range stay, in their order. */
  lemma {:induction false} ValidPortsOfBoth(a: seq<Ports>, b: seq<Ports>)
    ensures ValidPorts(a + b) == ValidPorts(a) + ValidPorts(b)
  {
    if a == [] {
      assert a + b == b;
    } else {
      ValidPortsOfBoth(a[1..], b);
      PortsAssoc([a[0]], a[1..], b);
      assert a == [a[0]] + a[1..];
      ValidPortsHead(a[0], a[1..] + b);
      ValidPortsHead(a[0], a[1..]);
      PortsAssoc([a[0]], ValidPorts(a[1..]), ValidPorts(b));
    }
  }

  lemma ValidPortsOfOne(p: Ports)
    ensures ValidPorts([p]) == if InRange(p) then [p] else []
  {
    var one := [p];
    assert one[1..] == [];
  }

  ghost predicate HostRepeats(ms: seq<Ports>, n: nat)
    requires n < |ms|
  {
    exists j | 0 <= j < n :: ms[j].host == ms[n].host
  }

  ghost predicate ContainerRepeats(ms: seq<Ports>, n: nat)
    requires n < |ms|
  {
    exists j | 0 <= j < n :: ms[j].container == ms[n].container
  }

  /** The first mapping that repeats a port names the error, its host port before its container port. */
  lemma FirstRepeatIsNamed(ms: seq<Ports>, n: nat)
    requires n < |ms| && DistinctPorts(ms[..n]) && (HostRepeats(ms, n) || ContainerRepeats(ms, n))
    ensures FirstRepeat(ms) ==
      Some(if HostRepeats(ms, n) then DuplicateHostPort(ms[n].host) else DuplicateContainerPort(ms[n].container))
  {
    PassesIffDistinct(ms[..n]);
    HostsAreEarlier(ms, n);
    ContainersAreEarlier(ms, n);
    RepeatIsAt(ms, n, HostsOf(ms[..n]), ContainersOf(ms[..n]));
  }

  lemma RepeatIsAt(ms: seq<Ports>, n: nat, hosts: set<int>, containers: set<int>)
    requires n < |ms| && FirstRepeat(ms[..n]).None?
    requires hosts == HostsOf(ms[..n]) && containers == ContainersOf(ms[..n])
    requires RepeatOf(hosts, containers, ms[n]).Some?
    ensures FirstRepeat(ms) == RepeatOf(hosts, containers, ms[n])
  {
    RepeatStep(ms, n);
    RepeatStays(ms, n + 1);
  }

  lemma HostsAreEarlier(ms: seq<Ports>, n: nat)
    requires n < |ms|
    ensures HostRepeats(ms, n) <==> ms[n].host in HostsOf(ms[..n])
  {
    assert forall j | 0 <= j < n :: ms[..n][j] == ms[j] && ms[j] in ms[..n];
  }

  lemma ContainersAreEarlier(ms: seq<Ports>, n: nat)
    requires n < |ms|
    ensures ContainerRepeats(ms, n) <==> ms[n].container in ContainersOf(ms[..n])
  {
    assert forall j | 0 <= j < n :: ms[..n][j] == ms[j] && ms[j] in ms[..n];
  }

  /** The mappings used: those in range, or the fallback alone if there are none; refused if a port comes twice. */
  lemma MappingsOutcome(raw: seq<Ports>, fallback: Ports)
    ensures var used := if |ValidPorts(raw)| == 0 then [fallback] else ValidPorts(raw);
      var r := PortMappings(raw, fallback);
      && (r.Success? <==> DistinctPorts(used))
      && (r.Success? ==> r.value == used)
      && (r.Failure? ==> r.error.DuplicateHostPort? || r.error.DuplicateContainerPort?)
  {
    var used := if |ValidPorts(raw)| == 0 then [fallback] else ValidPorts(raw);
    PassesIffDistinct(used);
    if FirstRepeat(used).Some? { RepeatIsOfPorts(used); }
  }

  lemma {:induction false} RepeatIsOfPorts(ms: seq<Ports>)
    requires FirstRepeat(ms).Some?
    ensures FirstRepeat(ms).value.DuplicateHostPort? || FirstRepeat(ms).value.DuplicateContainerPort?
  {
    var n := |ms| - 1;
    if FirstRepeat(ms[..n]).Some? { RepeatIsOfPorts(ms[..n]); }
  }

  // ------------------------------------------------------------- the endpoints

  /** The apex, or 1 to 63 small letters, digits and hyphens with no hyphen at either end. */
  ghost predicate IsPublicLabel(t: Text) {
    |t| > 0 ==>
      && |t| < 64
      && (forall u | u in t :: 'a' as int <= u <= 'z' as int || '0' as int <= u <= '9' as int || u == '-' as int)
      && t[0] != '-' as int && t[|t| - 1] != '-' as int
  }

  lemma PublicLabelMeans(t: Text)
    ensures IsServiceLabel(t) <==> IsPublicLabel(t)
  {
    if IsPublicLabel(t) {
      forall i | 0 <= i < |t| ensures IsLabelUnit(t[i]) || t[i] == MINUS {
        assert t[i] in t;
      }
    }
  }

  /** An entry as it is published: a label left out is none, and "null" is a label like any other. */
  ghost function Published(e: RawEndpoint): Endpoint {
    Endpoint(e.ports,
             match e.subdomain
             case Absent => None
             case Null => Some(ServiceLabel(Ascii("null")))
             case Given(t) => Some(ServiceLabel(t)))
  }

  ghost predicate IsRefused(e: RawEndpoint) {
    InRange(e.ports) && Published(e).subdomain.Some? && !IsPublicLabel(Published(e).subdomain.value)
  }

  /** One entry: skipped if its ports are out of range, else published or refused for its label. */
  lemma EntriesOfOne(e: RawEndpoint)
    ensures Entries([e]) ==
      if IsRefused(e) then Failure(InvalidSubdomain) else Success(if InRange(e.ports) then [Published(e)] else [])
  {
    var one := [e];
    assert one[1..] == [] && Entries([]) == Success([]);
    EntriesStep(e, one);
    assert [Published(e)] + [] == [Published(e)];
  }

  /** Several entries: refused if one is, else published one after the other. */
  lemma {:induction false} EntriesOfBoth(a: seq<RawEndpoint>, b: seq<RawEndpoint>)
    ensures Entries(a + b) ==
      if Entries(a).Failure? || Entries(b).Failure? then Failure(InvalidSubdomain)
      else Success(Entries(a).value + Entries(b).value)
  {
    if a == [] {
      assert a + b == b;
      EntriesFailAlike(b);
      assert Entries(b).Success? ==> [] + Entries(b).value == Entries(b).value;
    } else {
      assert (a + b)[1..] == a[1..] + b && (a + b)[0] == a[0];
      EntriesOfBoth(a[1..], b);
      EntriesStep(a[0], a + b);
      EntriesStep(a[0], a);
      if Entries(a).Success? && Entries(b).Success? {
        var first := if InRange(a[0].ports) then [Published(a[0])] else [];
        assert first + (Entries(a[1..]).value + Entries(b).value) == first + Entries(a[1..]).value + Entries(b).value;
      }
    }
  }

  lemma {:induction false} EntriesFailAlike(raw: seq<RawEndpoint>)
    ensures Entries(raw).Failure? ==> Entries(raw) == Failure(InvalidSubdomain)
  {
    if raw != [] { EntriesFailAlike(raw[1..]); }
  }

  lemma EntriesStep(e: RawEndpoint, raw: seq<RawEndpoint>)
    requires raw != [] && raw[0] == e
    ensures Entries(raw) ==
      if IsRefused(e) then Failure(InvalidSubdomain)
      else if Entries(raw[1..]).Failure? then Failure(InvalidSubdomain)
      else Success((if InRange(e.ports) then [Published(e)] else []) + Entries(raw[1..]).value)
  {
    EntriesFailAlike(raw[1..]);
    assert Published(e) == Endpoint(e.ports, Normalized(Spelled(e.subdomain)));
    assert forall es: seq<Endpoint> :: [] + es == es;
    if Published(e).subdomain.Some? { PublicLabelMeans(Published(e).subdomain.value); }
  }

  /** Without a usable entry each mapping gets an endpoint, the first under the label there was. */
  lemma EndpointsOutcome(raw: seq<RawEndpoint>, mappings: seq<Ports>, existing: Option<Text>)
    ensures var es := NormalizeEndpoints(raw, mappings, existing);
      && (es.Failure? <==> Entries(raw).Failure?)
      && (es.Success? && Entries(raw).value != [] ==> es.value == Entries(raw).value)
      && (es.Success? && Entries(raw).value == [] ==>
            && |es.value| == |mappings|
            && (forall i | 0 <= i < |mappings| :: es.value[i].ports == mappings[i])
            && (forall i | 0 < i < |mappings| :: es.value[i].subdomain == None)
            && (mappings != [] ==> es.value[0].subdomain == existing))
  {
  }

  // ------------------------------------------------------- replacing the rows

  lemma OthersHead(x: Row, rest: seq<Row>, service: int)
    ensures Others([x] + rest, service) == if x.service == service then Others(rest, service)
                                           else [x] + Others(rest, service)
  {
    OthersFirst(x, rest, service);
    assert [] + Others(rest, service) == Others(rest, service);
  }

  lemma RowsAssoc(a: seq<Row>, b: seq<Row>, c: seq<Row>)
    ensures (a + b) + c == a + (b + c)
  {
  }

  /** The rows of the other services stay, in their order. */
  lemma {:induction false} OthersOfTwo(a: seq<Row>, b: seq<Row>, service: int)
    ensures Others(a + b, service) == Others(a, service) + Others(b, service)
  {
    if a == [] {
      assert a + b == b;
    } else {
      OthersOfTwo(a[1..], b, service);
      RowsAssoc([a[0]], a[1..], b);
      assert a == [a[0]] + a[1..];
      OthersHead(a[0], a[1..] + b, service);
      OthersHead(a[0], a[1..], service);
      RowsAssoc([a[0]], Others(a[1..], service), Others(b, service));
    }
  }

  lemma OthersOfOne(x: Row, service: int)
    ensures Others([x], service) == if x.service == service then [] else [x]
  {
    var one := [x];
    assert one[1..] == [];
  }

  /** A row of another service in the workspace has the label. */
  ghost predicate IsForeign(rows: seq<Row>, workspace: int, service: int, name: Text) {
    exists x | x in rows :: x.workspace == workspace && x.service != service && x.endpoint.subdomain == Some(name)
  }

  lemma ForeignMeans(rows: seq<Row>, workspace: int, service: int, name: Text)
    ensures IsUsed(rows, workspace, service, name) <==> IsForeign(rows, workspace, service, name)
  {
    if IsForeign(rows, workspace, service, name) {
      var x :| x in rows && x.workspace == workspace && x.service != service && x.endpoint.subdomain == Some(name);
      var i :| 0 <= i < |rows| && rows[i] == x;
    }
  }

  /** The first refusal that applies: a label given twice, or a label of another service of the workspace. */
  ghost predicate RepeatsALabel(es: seq<Endpoint>) {
    exists i, j :: 0 <= i < j < |es| && es[i].subdomain != None && es[i].subdomain == es[j].subdomain
  }

  ghost predicate TakesAForeignLabel(rows: seq<Row>, workspace: int, service: int, es: seq<Endpoint>) {
    exists e, name :: e in es && e.subdomain == Some(name) && IsForeign(rows, workspace, service, name)
  }

  /** The service's rows become the given endpoints, one row each and in their order, after all others. */
  ghost predicate AreReplaced(rows: seq<Row>, after: seq<Row>, workspace: int, service: int, es: seq<Endpoint>) {
    var n := |Others(rows, service)|;
    && |after| == n + |es| && after[..n] == Others(rows, service)
    && forall i | 0 <= i < |es| :: after[n + i] == Row(workspace, service, es[i])
  }

  lemma ReplaceOutcome(rows: seq<Row>, workspace: int, service: int, es: seq<Endpoint>)
    ensures var r := Replace(rows, workspace, service, es);
      && (r == Failure(DuplicateSubdomain) <==> RepeatsALabel(es))
      && (r == Failure(SubdomainInUse) <==>
            !RepeatsALabel(es) && TakesAForeignLabel(rows, workspace, service, es))
      && (r.Success? <==> !RepeatsALabel(es) && !TakesAForeignLabel(rows, workspace, service, es))
      && (r.Success? ==> AreReplaced(rows, r.value, workspace, service, es))
  {
    RepetitionMeans(es);
    CollisionMeans(rows, workspace, service, es);
    if Replace(rows, workspace, service, es).Success? { AddedRows(rows, workspace, service, es); }
  }

  lemma RepetitionMeans(es: seq<Endpoint>)
    ensures RepeatsALabel(es) <==> !DistinctPublic(es)
  {
  }

  lemma AddedRows(rows: seq<Row>, workspace: int, service: int, es: seq<Endpoint>)
    ensures AreReplaced(rows, Others(rows, service) + RowsFor(workspace, service, es), workspace, service, es)
  {
  }

  lemma CollisionMeans(rows: seq<Row>, workspace: int, service: int, es: seq<Endpoint>)
    ensures Collides(rows, workspace, service, es) <==> TakesAForeignLabel(rows, workspace, service, es)
  {
    if i :| 0 <= i < |es| && es[i].subdomain.Some? && IsUsed(rows, workspace, service, es[i].subdomain.value) {
      ForeignMeans(rows, workspace, service, es[i].subdomain.value);
      assert es[i] in es;
    }
    if e, name :| e in es && e.subdomain == Some(name) && IsForeign(rows, workspace, service, name) {
      ForeignMeans(rows, workspace, service, name);
      var i :| 0 <= i < |es| && es[i] == e;
    }
  }

  // -------------------------------------------------------------- the handlers

  ghost predicate IsThere(s: State, service: int) {
    service in s.services && !s.services[service].deleted
  }

  /** The label a change asks for: none, or the text without blanks, in small letters, "@" being the apex. */
  ghost function Asked(subdomain: Option<Text>): Option<Text> {
    match subdomain
    case None => None
    case Some(t) => Some(ServiceLabel(t))
  }

  /** A change of subdomain is refused exactly for a missing service, a malformed label or a foreign one. */
  lemma SubdomainOutcome(s: State, service: int, subdomain: Option<Text>)
    ensures var r, asked := UpdateSubdomain(s, service, subdomain), Asked(subdomain);
      var wellFormed := asked.Some? ==> IsPublicLabel(asked.value);
      && (r.error == Some(NotFound) <==> !IsThere(s, service))
      && (r.error == Some(InvalidSubdomain) <==> IsThere(s, service) && !wellFormed)
      && (r.error == Some(SubdomainInUse) <==>
            IsThere(s, service) && wellFormed && asked.Some?
            && IsForeign(s.rows, s.services[service].workspace, service, asked.value))
      && (r.error.Some? ==> r.state == s && r.error.value in {NotFound, InvalidSubdomain, SubdomainInUse})
      && (r.error == None ==>
            r.state.services == s.services[service := s.services[service].(subdomain := asked)]
            && HasPrimaryLabel(s, r.state.rows, service, asked))
  {
    if subdomain.Some? {
      PublicLabelMeans(ServiceLabel(subdomain.value));
      if IsThere(s, service) {
        ForeignMeans(s.rows, s.services[service].workspace, service, ServiceLabel(subdomain.value));
      }
    }
  }

  ghost predicate IsFirstOf(rows: seq<Row>, service: int, k: int) {
    0 <= k < |rows| && rows[k].service == service && forall i | 0 <= i < k :: rows[i].service != service
  }

  /** The service's first row gets the label; without rows, one is added for a label, and no other row changes. */
  ghost predicate HasPrimaryLabel(s: State, after: seq<Row>, service: int, asked: Option<Text>)
    requires IsThere(s, service)
  {
    var svc := s.services[service];
    if exists x :: x in s.rows && x.service == service then
      exists k: nat :: IsFirstOf(s.rows, service, k)
        && after == s.rows[k := Row(s.rows[k].workspace, service, Endpoint(s.rows[k].endpoint.ports, asked))]
    else
      after == s.rows + if asked == None then [] else [Row(svc.workspace, service, Endpoint(svc.ports, asked))]
  }

  /** The first label given, if any. */
  ghost predicate IsFirstLabel(es: seq<Endpoint>, l: Option<Text>) {
    if l == None then forall e | e in es :: e.subdomain == None
    else exists k :: 0 <= k < |es| && es[k].subdomain == l && forall i | 0 <= i < k :: es[i].subdomain == None
  }

  lemma {:induction false} FirstPublicIsFirst(es: seq<Endpoint>)
    ensures IsFirstLabel(es, FirstPublic(es))
  {
    if es == [] {
    } else if es[0].subdomain.Some? {
      assert es[0].subdomain == FirstPublic(es);
    } else {
      FirstPublicIsFirst(es[1..]);
      LaterFirstLabel(es, FirstPublic(es));
    }
  }

  lemma LaterFirstLabel(es: seq<Endpoint>, l: Option<Text>)
    requires es != [] && es[0].subdomain == None && IsFirstLabel(es[1..], l)
    ensures IsFirstLabel(es, l)
  {
    var rest := es[1..];
    assert forall i | 0 <= i < |rest| :: rest[i] == es[i + 1];
    if l != None {
      var k :| 0 <= k < |rest| && rest[k].subdomain == l && forall i | 0 <= i < k :: rest[i].subdomain == None;
      assert forall i | 0 < i < k + 1 :: es[i] == rest[i - 1];
      assert es[k + 1].subdomain == l;
    } else {
      assert es == [es[0]] + rest;
    }
  }

  ghost predicate IsOwnPublic(rows: seq<Row>, service: int, k: nat) {
    k < |rows| && rows[k].service == service && rows[k].endpoint.subdomain != None
  }

  ghost predicate IsFirstOwnPublic(rows: seq<Row>, service: int, k: nat) {
    IsOwnPublic(rows, service, k) && forall i: nat | i < k :: !IsOwnPublic(rows, service, i)
  }

  /** The label a redeployment falls back on: that of the service's first public row, else the service's own. */
  lemma {:induction false} ExistingLabelMeans(rows: seq<Row>, service: int, own: Option<Text>) returns (k: nat)
    ensures if k < |rows|
      then IsFirstOwnPublic(rows, service, k) && ExistingLabel(rows, service, own) == rows[k].endpoint.subdomain
      else ExistingLabel(rows, service, own) == own && forall i: nat :: !IsOwnPublic(rows, service, i)
  {
    if rows == [] {
      k := 0;
    } else if rows[0].service == service && rows[0].endpoint.subdomain.Some? {
      k := 0;
    } else {
      k := ExistingLabelMeans(rows[1..], service, own);
      assert forall i: nat :: i > 0 ==> (IsOwnPublic(rows, service, i) <==> IsOwnPublic(rows[1..], service, i - 1));
      k := k + 1;
    }
  }

  /** What becomes of a service's endpoints once they are known: taken all or none, and the two reasons why not. */
  ghost predicate IsDecided(s: State, r: Outcome, workspace: int, service: int, es: seq<Endpoint>) {
    && (r.error == Some(DuplicateSubdomain) <==> RepeatsALabel(es))
    && (r.error == Some(SubdomainInUse) <==>
          !RepeatsALabel(es) && TakesAForeignLabel(s.rows, workspace, service, es))
    && (r.error == None <==> !RepeatsALabel(es) && !TakesAForeignLabel(s.rows, workspace, service, es))
    && (r.error == None ==> AreReplaced(s.rows, r.state.rows, workspace, service, es))
    && (r.error != None ==> r.state.rows == s.rows)
  }

  lemma RedirectOutcome(s: State, service: int, es: seq<Endpoint>, svc: Service)
    ensures IsDecided(s, Redirect(s, service, es, svc), svc.workspace, service, es)
    ensures var r := Redirect(s, service, es, svc);
      r.state.services == if r.error == None then s.services[service := svc] else s.services
  {
    ReplaceOutcome(s.rows, svc.workspace, service, es);
  }

  /** New endpoints: refused without a trace, or put in place of the old, the service taking the first label. */
  lemma UpdateEndpointsOutcome(s: State, service: int, raw: seq<RawEndpoint>)
    ensures var r := UpdateEndpoints(s, service, raw);
      if !IsThere(s, service) then r == Outcome(s, Some(NotFound)) else
        var svc := s.services[service];
        var ms := PortMappings(svc.mappings, svc.ports);
        if ms.Failure? then r == Outcome(s, Some(ms.error)) else
          var es := NormalizeEndpoints(raw, ms.value, svc.subdomain);
          if es.Failure? then r == Outcome(s, Some(InvalidSubdomain)) else
            IsDecided(s, r, svc.workspace, service, es.value)
            && (r.error != None ==> r.state == s)
            && (r.error == None ==> exists l :: IsFirstLabel(es.value, l)
                                                && r.state.services == s.services[service := svc.(subdomain := l)])
  {
    EntriesFailAlike(raw);
    if IsThere(s, service) {
      var svc := s.services[service];
      var ms := PortMappings(svc.mappings, svc.ports);
      if ms.Success? {
        var es := NormalizeEndpoints(raw, ms.value, svc.subdomain);
        if es.Success? {
          FirstPublicIsFirst(es.value);
          RedirectOutcome(s, service, es.value, svc.(subdomain := FirstPublic(es.value)));
        }
      }
    }
  }

  /** A new service: its row is written once ports and labels are well formed, with the first mapping as its ports. */
  lemma CreateOutcome(
    s: State, service: int, workspace: int, raw: seq<RawEndpoint>, ports: seq<Ports>, first: Ports)
    ensures var r := Create(s, service, workspace, raw, ports, first);
      var ms := PortMappings(ports, first);
      if ms.Failure? then r == Outcome(s, Some(ms.error)) else
        var es := NormalizeEndpoints(raw, ms.value, None);
        if es.Failure? then r == Outcome(s, Some(InvalidSubdomain)) else
          IsDecided(s, r, workspace, service, es.value)
          && r.state.services ==
               s.services[service := Service(workspace, None, ms.value[0], ms.value, false, false)]
  {
    EntriesFailAlike(raw);
    var ms := PortMappings(ports, first);
    if ms.Success? {
      var es := NormalizeEndpoints(raw, ms.value, None);
      var svc := Service(workspace, None, ms.value[0], ms.value, false, false);
      if es.Success? { RedirectOutcome(s.(services := s.services[service := svc]), service, es.value, svc); }
    }
  }

  /** The mappings of a redeployment: the given ones if any are given, though the old ones are checked all the same. */
  ghost function NewMappings(former: seq<Ports>, given: Option<seq<Ports>>, first: Ports): Result<seq<Ports>, Error> {
    if PortMappings(former, first).Failure? || given.None? then PortMappings(former, first)
    else PortMappings(given.value, first)
  }

  /** A redeployment writes the ports before it looks at the labels, and keeps the service's own label. */
  lemma RedeployOutcome(s: State, service: int, raw: seq<RawEndpoint>, ports: Option<seq<Ports>>, first: Ports)
    ensures var r := Redeploy(s, service, raw, ports, first);
      if !IsThere(s, service) then r == Outcome(s, Some(NotFound)) else
        var svc := s.services[service];
        var ms := NewMappings(svc.mappings, ports, first);
        if ms.Failure? then r == Outcome(s, Some(ms.error)) else
          && r.state.services == s.services[service := svc.(ports := ms.value[0], mappings := ms.value)]
          && var es := NormalizeEndpoints(raw, ms.value, ExistingLabel(s.rows, service, svc.subdomain));
             if es.Failure? then r.error == Some(InvalidSubdomain) && r.state.rows == s.rows
             else IsDecided(s, r, svc.workspace, service, es.value)
  {
    EntriesFailAlike(raw);
    if IsThere(s, service) {
      var svc := s.services[service];
      var ms := NewMappings(svc.mappings, ports, first);
      if ms.Success? {
        var renewed := svc.(ports := ms.value[0], mappings := ms.value);
        var es := NormalizeEndpoints(raw, ms.value, ExistingLabel(s.rows, service, svc.subdomain));
        if es.Success? { RedirectOutcome(s.(services := s.services[service := renewed]), service, es.value, renewed); }
      }
    }
  }

  /** Deleting needs a service and an agent that heard of it; the row stays, marked, and so do all endpoints. */
  lemma DeleteOutcome(s: State, service: int, whole: bool, sent: bool)
    ensures var r := Delete(s, service, whole, sent);
      && (r.error == Some(NotFound) <==> !IsThere(s, service))
      && (r.error == Some(AgentNotConnected) <==> IsThere(s, service) && !sent)
      && (r.error == None <==> IsThere(s, service) && sent)
      && (r.error != None ==> r.state == s)
      && (r.error == None ==>
            var svc := s.services[service];
            r.state == State(s.rows, s.services[service :=
              Service(svc.workspace, svc.subdomain, svc.ports, svc.mappings, true, whole)]))
  {
  }
}
