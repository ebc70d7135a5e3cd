/** proxy/server.ts, parseRouteFromHostHeader: which service of which workspace a Host header names. */
module HostRoutes {
  import opened Wrappers
  import opened Texts

  /** The empty service is the workspace's apex. */
  datatype Route = Route(service: Text, workspace: Text)

  const COLON: CodeUnit := 58
  const HOST: Text := Ascii("host:")
  const OPTICS: Text := Ascii("optics")
  const RUN: Text := Ascii("run")

  function WithoutName(line: Text): Text {
    if HOST <= Lower(line) then line[|HOST|..] else line
  }

  function WithoutDot(t: Text): Text {
    if t != [] && t[|t| - 1] == DOT then t[..|t| - 1] else t
  }

  /** The name that is looked up: trimmed, lower-case, without a final dot, without what follows a colon. */
  function CleanHost(line: Text): Text {
    Split(WithoutDot(Lower(Trim(WithoutName(line)))), COLON)[0]
  }

  function ParseRoute(line: Text): Option<Route> {
    RouteOf(Split(CleanHost(line), DOT))
  }

  function RouteOf(labels: seq<Text>): Option<Route> {
    if |labels| != 3 && |labels| != 4 then None
    else if |labels| == 3 then
      if labels[1] != OPTICS || labels[2] != RUN || !IsSubdomainLabel(labels[0]) then None
      else Some(Route([], labels[0]))
    else
      if labels[2] != OPTICS || labels[3] != RUN then None
      else if !IsSubdomainLabel(labels[0]) || !IsSubdomainLabel(labels[1]) then None
      else Some(Route(labels[0], labels[1]))
  }

  // ------------------------------------------------------------- the names

  predicate IsNamed(r: Route) {
    IsSubdomainLabel(r.workspace) && (r.service == [] || IsSubdomainLabel(r.service))
  }

  function Labels(r: Route): seq<Text> {
    (if r.service == [] then [] else [r.service]) + [r.workspace, OPTICS, RUN]
  }

  /** `workspace.optics.run` or `service.workspace.optics.run`. */
  function HostOf(r: Route): Text {
    Join(Labels(r), DOT)
  }

  predicate IsHostUnit(u: CodeUnit) {
    IsLabelUnit(u) || u == MINUS || u == DOT
  }

  predicate IsHostText(t: Text) {
    forall i | 0 <= i < |t| :: IsHostUnit(t[i])
  }

  lemma SuffixIsPlain()
    ensures IsSubdomainLabel(OPTICS) && IsSubdomainLabel(RUN)
  {
  }

  lemma LabelsArePlain(r: Route)
    requires IsNamed(r)
    ensures forall i | 0 <= i < |Labels(r)| :: IsSubdomainLabel(Labels(r)[i]) && DOT !in Labels(r)[i]
  {
    SuffixIsPlain();
  }

  lemma {:induction false} JoinedLabels(parts: seq<Text>)
    requires parts != [] && forall i | 0 <= i < |parts| :: IsSubdomainLabel(parts[i])
    ensures IsHostText(Join(parts, DOT)) && Join(parts, DOT) != []
    ensures Join(parts, DOT)[|Join(parts, DOT)| - 1] != DOT
  {
    if |parts| > 1 { JoinedLabels(parts[1..]); }
  }

  lemma HostsArePlain(r: Route)
    requires IsNamed(r)
    ensures IsHostText(HostOf(r)) && HostOf(r) != [] && HostOf(r)[|HostOf(r)| - 1] != DOT
    ensures Split(HostOf(r), DOT) == Labels(r)
  {
    LabelsArePlain(r);
    JoinedLabels(Labels(r));
    SplitJoin(Labels(r), DOT);
  }

  lemma LabelsAreRouted(labels: seq<Text>, r: Route)
    ensures RouteOf(labels) == Some(r) <==> IsNamed(r) && labels == Labels(r)
  {
    if RouteOf(labels) == Some(r) {
      assert |labels| == 3 ==> labels == [labels[0], labels[1], labels[2]];
      assert |labels| == 4 ==> labels == [labels[0], labels[1], labels[2], labels[3]];
    }
  }

  /** A header is routed exactly when its cleaned host is the name of a route, and then to that route. */
  lemma RoutesExactlyTheNames(line: Text, r: Route)
    ensures ParseRoute(line) == Some(r) <==> IsNamed(r) && CleanHost(line) == HostOf(r)
  {
    LabelsAreRouted(Split(CleanHost(line), DOT), r);
    JoinSplit(CleanHost(line), DOT);
    if IsNamed(r) { HostsArePlain(r); }
  }

  /** So one host names one route. */
  lemma NamesAreDistinct(r: Route, s: Route)
    requires IsNamed(r) && IsNamed(s) && HostOf(r) == HostOf(s)
    ensures r == s
  {
    HostsArePlain(r);
    HostsArePlain(s);
    assert Labels(r)[|Labels(r)| - 3] == Labels(s)[|Labels(s)| - 3];
    if |Labels(r)| == 4 { assert Labels(r)[0] == Labels(s)[0]; }
  }

  // ---------------------------------------------------------- written headers

  lemma LowerOfBoth(a: Text, b: Text)
    ensures Lower(a + b) == Lower(a) + Lower(b)
  {
  }

  /** What may stand after the name: nothing, a final dot, or a colon and anything. */
  predicate IsHostEnding(t: Text) {
    t == [] || t == [DOT] || t[0] == COLON
  }

  /**
   * Any spelling of a route's name, with letter case and blanks as they may be, is routed exactly if what follows the
   * name is one of the three endings, and then to that route; otherwise it is refused.
   */
  lemma AnySpellingIsRouted(name: Text, before: Text, host: Text, ending: Text, after: Text, r: Route)
    requires Lower(name) == HOST && IsNamed(r) && Lower(host) == HostOf(r)
    requires IsBlank(before) && IsBlank(after) && IsTrimmed(host + ending)
    ensures ParseRoute(name + (before + (host + ending) + after)) == if IsHostEnding(ending) then Some(r) else None
  {
    var line := name + (before + (host + ending) + after);
    CleanedBody(name, before, host + ending, after);
    LowerOfBoth(host, ending);
    LowerEnding(ending);
    HostsArePlain(r);
    EndingDecides(HostOf(r), Lower(ending));
    if IsHostEnding(ending) { RoutesExactlyTheNames(line, r); } else { LongerIsNoName(line, r); }
  }

  lemma LowerEnding(t: Text)
    ensures IsHostEnding(Lower(t)) <==> IsHostEnding(t)
    ensures Lower(t) == [] <==> t == []
  {
  }

  /** The final dot is looked for before the port is cut off: with both, a name is not recognised. */
  lemma DotBeforePortIsRefused(name: Text, before: Text, host: Text, port: Text, after: Text, r: Route)
    requires Lower(name) == HOST && IsNamed(r) && Lower(host) == HostOf(r)
    requires IsBlank(before) && IsBlank(after) && (port == [] || !IsSpace(port[|port| - 1]))
    ensures ParseRoute(name + (before + (host + ([DOT, COLON] + port)) + after)) == None
  {
    var ending := [DOT, COLON] + port;
    HostsArePlain(r);
    SameUnits(host, HostOf(r));
    TrimmedWithEnding(host, ending);
    AnySpellingIsRouted(name, before, host, ending, after, r);
  }

  lemma TrimmedWithEnding(host: Text, ending: Text)
    requires IsTrimmed(host) && ending != [] && !IsSpace(ending[|ending| - 1])
    ensures IsTrimmed(host + ending)
  {
    assert (host + ending)[0] == host[0];
    assert (host + ending)[|host + ending| - 1] == ending[|ending| - 1];
  }

  lemma CleanedBody(name: Text, before: Text, body: Text, after: Text)
    requires Lower(name) == HOST && IsBlank(before) && IsTrimmed(body) && IsBlank(after)
    ensures CleanHost(name + (before + body + after)) == Split(WithoutDot(Lower(body)), COLON)[0]
  {
    NameIsDropped(name, before + body + after);
    TrimBlanks(before, body, after);
  }

  lemma NameIsDropped(name: Text, rest: Text)
    requires Lower(name) == HOST
    ensures WithoutName(name + rest) == rest
  {
    LowerOfBoth(name, rest);
    assert Lower(name + rest)[..|HOST|] == HOST;
  }

  lemma SameUnits(host: Text, name: Text)
    requires Lower(host) == name && IsHostText(name) && name != []
    ensures IsTrimmed(host)
  {
    assert forall i | 0 <= i < |host| :: LowerUnit(host[i]) == name[i];
  }

  /** What cleaning leaves of a name and what follows it: the name, or the name and something more. */
  predicate IsLonger(t: Text, name: Text) {
    |name| < |t| && name <= t
  }

  lemma EndingDecides(name: Text, ending: Text)
    requires IsHostText(name) && name != [] && name[|name| - 1] != DOT
    ensures IsHostEnding(ending) ==> Split(WithoutDot(name + ending), COLON)[0] == name
    ensures !IsHostEnding(ending) ==> IsLonger(Split(WithoutDot(name + ending), COLON)[0], name)
  {
    var kept := WithoutDot(ending);
    assert WithoutDot(name + ending) == name + kept by { DotOfEnding(name, ending); }
    if kept == [] {
      assert name + kept == name;
      SplitNone(name, COLON);
    } else if kept[0] == COLON {
      assert name + kept == name + [COLON] + kept[1..];
      SplitHead(name, COLON, kept[1..]);
    } else {
      LongerFirstPart(name + [kept[0]], kept[1..]);
      assert name + kept == (name + [kept[0]]) + kept[1..];
    }
  }

  lemma DotOfEnding(name: Text, ending: Text)
    requires name != [] && name[|name| - 1] != DOT
    ensures WithoutDot(name + ending) == name + WithoutDot(ending)
  {
    var t := name + ending;
    if ending == [] {
      assert t == name;
    } else {
      assert t[|t| - 1] == ending[|ending| - 1] && t[..|t| - 1] == name + ending[..|ending| - 1];
    }
  }

  lemma {:induction false} LongerFirstPart(head: Text, rest: Text)
    requires COLON !in head
    ensures head <= Split(head + rest, COLON)[0]
  {
    if head != [] {
      LongerFirstPart(head[1..], rest);
      assert (head + rest)[1..] == head[1..] + rest;
    }
  }

  // ------------------------------------------------------- no name starts another

  /** What starts with the text of some labels starts with those labels, but for the last, which may be longer. */
  lemma {:induction false} LabelsOfLonger(p: seq<Text>, q: seq<Text>)
    requires p != [] && q != [] && (forall x | x in p :: DOT !in x) && (forall x | x in q :: DOT !in x)
    requires Join(p, DOT) <= Join(q, DOT)
    ensures |p| <= |q| && p[..|p| - 1] == q[..|p| - 1] && p[|p| - 1] <= q[|p| - 1]
  {
    var s, t := Join(p, DOT), Join(q, DOT);
    if |p| == 1 {
      if |q| > 1 { ShorterThanDot(p[0], q[0], Join(q[1..], DOT)); }
    } else {
      assert s == p[0] + [DOT] + Join(p[1..], DOT) && s[|p[0]|] == DOT && t[|p[0]|] == DOT;
      assert |q| > 1;
      SameFirstLabel(p[0], Join(p[1..], DOT), q[0], Join(q[1..], DOT));
      LabelsOfLonger(p[1..], q[1..]);
      assert p[..|p| - 1] == [p[0]] + p[1..][..|p[1..]| - 1];
      assert q[..|p| - 1] == [q[0]] + q[1..][..|p[1..]| - 1];
    }
  }

  lemma ShorterThanDot(x: Text, y: Text, rest: Text)
    requires DOT !in x && x <= y + [DOT] + rest
    ensures x <= y
  {
    var t := y + [DOT] + rest;
    assert t[|y|] == DOT && x == t[..|x|];
    assert forall i | 0 <= i < |x| :: t[i] == x[i] && t[i] != DOT;
    assert t[..|x|] == y[..|x|];
  }

  lemma SameFirstLabel(x: Text, a: Text, y: Text, b: Text)
    requires DOT !in x && DOT !in y && x + [DOT] + a <= y + [DOT] + b
    ensures x == y && a <= b
  {
    var s, t := x + [DOT] + a, y + [DOT] + b;
    assert s[|x|] == DOT && t[|y|] == DOT && s == t[..|s|];
    assert forall i | 0 <= i < |x| :: t[i] == s[i] == x[i] && t[i] != DOT;
    assert forall i | 0 <= i < |y| :: t[i] == y[i] && t[i] != DOT;
    assert t[|x|] == DOT && |x| == |y|;
    assert x == s[..|x|] && y == t[..|y|] && a == s[|x| + 1..] && b == t[|y| + 1..];
  }

  /** A name is never the start of another: the second would have its suffix too early. */
  lemma NamesAreNoPrefixes(r: Route, s: Route)
    requires IsNamed(r) && IsNamed(s) && HostOf(r) <= HostOf(s)
    ensures HostOf(r) == HostOf(s)
  {
    LabelsArePlain(r);
    LabelsArePlain(s);
    LabelsOfLonger(Labels(r), Labels(s));
    var p, q := Labels(r), Labels(s);
    assert p[|p| - 1] == RUN && q[|q| - 1] == RUN && q[|q| - 2] == OPTICS;
    assert RUN[0] == 114 && OPTICS[0] == 111;
    assert |p| == |q|;
    assert p == p[..|p| - 1] + [RUN] && q == q[..|q| - 1] + [RUN];
  }

  lemma LongerIsNoName(line: Text, r: Route)
    requires IsNamed(r) && IsLonger(CleanHost(line), HostOf(r))
    ensures ParseRoute(line) == None
  {
    if ParseRoute(line).Some? {
      RoutesExactlyTheNames(line, ParseRoute(line).value);
      NamesAreNoPrefixes(r, ParseRoute(line).value);
    }
  }

  /** The router's own normalisation leaves a routed label as it is. */
  lemma RoutedLabelIsNormal(line: Text)
    requires ParseRoute(line).Some?
    ensures ServiceLabel(ParseRoute(line).value.service) == ParseRoute(line).value.service
  {
    var t := ParseRoute(line).value.service;
    if t != [] { LabelIsNormal(t); }
  }

  lemma LabelIsNormal(t: Text)
    requires IsSubdomainLabel(t)
    ensures ServiceLabel(t) == t
  {
    assert Trim(t) == t && Lower(t) == t && t[0] != AT[0];
  }
}
