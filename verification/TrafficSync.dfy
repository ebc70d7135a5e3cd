/**
 * src/traffic/traffic-sync.service.ts: one row of traffic a whole UTC day, fetched, corrected and pruned; and the
 * public window src/stats/stats.service.ts reads. A date is its day number, times are milliseconds.
 */
module TrafficSync {
  import opened Wrappers
  import opened Texts
  import HostRoutes

  const DAY_MS: int := 86_400_000
  const TRAFFIC_WINDOW_DAYS: int := 30
  const RETENTION_MARGIN_DAYS: int := 10
  const PRUNE_KEEP_DAYS: int := TRAFFIC_WINDOW_DAYS + RETENTION_MARGIN_DAYS
  const RESYNC_TRAILING_DAYS: int := 3
  const FALLBACK_BACKFILL_DAYS: int := 7
  const RETENTION_SAFETY_MS: int := 15 * 60 * 1000

  /** The UTC day of an instant. */
  function Day(now: int): (d: int)
    ensures d * DAY_MS <= now < (d + 1) * DAY_MS
  {
    now / DAY_MS
  }

  lemma DaysDoNotGoBack(a: int, b: int)
    requires a <= b
    ensures Day(a) <= Day(b)
  {
  }

  // -------------------------------------------------------------- the date lists

  /** Yesterday first, `days` days back. */
  function Trailing(now: int, days: int): (r: seq<int>)
    ensures |r| == if days > 0 then days else 0
    ensures forall i | 0 <= i < |r| :: r[i] == Day(now) - 1 - i
  {
    seq(if days > 0 then days else 0, i => Day(now) - 1 - i)
  }

  method TrailingDateList(now: int, days: int) returns (dates: seq<int>)
    ensures dates == Trailing(now, days)
  {
    dates := [];
    var i := 1;
    while i <= days
      invariant 1 <= i && (i == 1 || i <= days + 1)
      invariant dates == Trailing(now, i - 1)
    {
      dates := dates + [Day(now) - i];
      i := i + 1;
      assert Trailing(now, i - 1) == Trailing(now, i - 2) + [Day(now) - (i - 1)];
    }
    assert Trailing(now, i - 1) == Trailing(now, days);
  }

  /** Math.ceil(seconds / 86400). */
  function CeilDays(seconds: int): (d: int)
    ensures (d - 1) * 86400 < seconds <= d * 86400
  {
    -((-seconds) / 86400)
  }

  function NotBefore(dates: seq<int>, earliest: int): seq<int> {
    if dates == [] then []
    else (if dates[0] * DAY_MS >= earliest then [dates[0]] else []) + NotBefore(dates[1..], earliest)
  }

  function Span(retention: int, maxDays: int): int {
    var days := if CeilDays(retention) > 0 then CeilDays(retention) else 0;
    if days < maxDays then days else maxDays
  }

  function BackfillDates(now: int, retention: int, maxDays: int): seq<int> {
    NotBefore(Trailing(now, Span(retention, maxDays)), now - retention * 1000 + RETENTION_SAFETY_MS)
  }

  /** A whole day before today, inside the retention window less the safety margin, and within `maxDays`. */
  predicate IsBackfillable(d: int, now: int, retention: int, maxDays: int) {
    Day(now) - maxDays <= d < Day(now) && d * DAY_MS >= now - retention * 1000 + RETENTION_SAFETY_MS
  }

  /** Dates going back a day at a time: filtering by age cuts the list short and nothing else. */
  lemma {:induction false} CutIsPrefix(dates: seq<int>, first: int, earliest: int)
    requires forall i | 0 <= i < |dates| :: dates[i] == first - i
    ensures |NotBefore(dates, earliest)| <= |dates|
    ensures forall i | 0 <= i < |NotBefore(dates, earliest)| :: NotBefore(dates, earliest)[i] == first - i
    ensures forall i | 0 <= i < |dates| :: i < |NotBefore(dates, earliest)| <==> dates[i] * DAY_MS >= earliest
  {
    if dates != [] {
      var tail, rest, kept := dates[1..], NotBefore(dates[1..], earliest), NotBefore(dates, earliest);
      CutIsPrefix(tail, first - 1, earliest);
      if dates[0] * DAY_MS >= earliest {
        assert kept == [dates[0]] + rest;
        forall i | 0 < i < |dates| ensures i < |kept| <==> dates[i] * DAY_MS >= earliest {
          assert dates[i] == tail[i - 1];
        }
      } else {
        assert forall i | 0 <= i < |tail| :: tail[i] == dates[0] - 1 - i;
        assert tail != [] ==> tail[0] * DAY_MS < earliest;
        assert rest == [] && kept == [];
        forall i | 0 < i < |dates| ensures dates[i] * DAY_MS < earliest {
          assert dates[i] == dates[0] - i;
        }
      }
    }
  }

  /** No day inside the retention window lies beyond the days asked for. */
  lemma SpanCovers(d: int, now: int, retention: int, maxDays: int)
    requires IsBackfillable(d, now, retention, maxDays)
    ensures d >= Day(now) - Span(retention, maxDays)
  {
    assert (Day(now) - d) * DAY_MS < retention * 1000;
    assert retention * 1000 <= CeilDays(retention) * DAY_MS;
  }

  /** Exactly the days that can be fetched whole, newest first and without a gap. */
  lemma BackfillIsExact(now: int, retention: int, maxDays: int)
    ensures var dates := BackfillDates(now, retention, maxDays);
      && (forall d :: d in dates <==> IsBackfillable(d, now, retention, maxDays))
      && (forall i | 0 <= i < |dates| :: dates[i] == Day(now) - 1 - i)
  {
    var trailing := Trailing(now, Span(retention, maxDays));
    var earliest := now - retention * 1000 + RETENTION_SAFETY_MS;
    var dates := BackfillDates(now, retention, maxDays);
    CutIsPrefix(trailing, Day(now) - 1, earliest);
    forall d | IsBackfillable(d, now, retention, maxDays) ensures d in dates {
      SpanCovers(d, now, retention, maxDays);
      var i := Day(now) - 1 - d;
      assert trailing[i] == d;
      assert i < |dates| && dates[i] == d;
    }
    forall d | d in dates ensures IsBackfillable(d, now, retention, maxDays) {
      var i: nat :| i < |dates| && dates[i] == d;
      assert trailing[i] == d;
    }
  }

  // ------------------------------------------------------------------- one day

  datatype HostBytes = HostBytes(hostname: Text, bytes: nat)

  const RESERVED: set<Text> := {
    Ascii("api"), Ascii("docs"), Ascii("console"), Ascii("admin"), Ascii("tunnel"), Ascii("proxy")
  }

  /** `<workspace>.optics.run` or `<service>.<workspace>.optics.run`, the workspace not a reserved name. */
  predicate IsWorkspaceHostname(hostname: Text) {
    var labels := Split(Lower(Trim(hostname)), DOT);
    (|labels| == 3 || |labels| == 4)
    && labels[|labels| - 2] == Ascii("optics") && labels[|labels| - 1] == Ascii("run")
    && labels[|labels| - 3] !in RESERVED
  }

  function Total(breakdown: seq<HostBytes>): nat {
    if breakdown == [] then 0 else
      var last := breakdown[|breakdown| - 1];
      Total(breakdown[..|breakdown| - 1]) + Counted(last)
  }

  /** A listing of no host counts nothing, one of a single host its bytes if it is a workspace's. */
  lemma TotalOfFew(h: HostBytes)
    ensures Total([]) == 0
    ensures Total([h]) == if IsWorkspaceHostname(h.hostname) then h.bytes else 0
  {
    var one := [h];
    assert one[..|one| - 1] == [];
  }

  /** One or two labels before "optics.run", the one next to it not a name of the platform's own. */
  ghost predicate IsWorkspaceHost(t: Text, service: Option<Text>, workspace: Text) {
    && t == Spelled(service, workspace)
    && DOT !in workspace && (service.Some? ==> DOT !in service.value)
    && !IsPlatformName(workspace)
  }

  ghost predicate IsPlatformName(t: Text) {
    t == Ascii("api") || t == Ascii("docs") || t == Ascii("console") || t == Ascii("admin") || t == Ascii("tunnel")
    || t == Ascii("proxy")
  }

  lemma PlatformNamesAreReserved(t: Text)
    ensures IsPlatformName(t) <==> t in RESERVED
  {
  }

  function PlatformLabels(): seq<Text> {
    [Ascii("optics"), Ascii("run")]
  }

  lemma PlatformDomain()
    ensures [DOT] + Join(PlatformLabels(), DOT) == Ascii(".optics.run")
    ensures DOT !in Ascii("optics") && DOT !in Ascii("run")
  {
    JoinOfMore(Ascii("optics"), [Ascii("run")], DOT);
    assert [Ascii("optics")] + [Ascii("run")] == PlatformLabels();
    assert Ascii(".optics.run") == [DOT] + (Ascii("optics") + ([DOT] + Ascii("run")));
  }

  function Spelled(service: Option<Text>, workspace: Text): Text {
    (if service.Some? then service.value + [DOT] else []) + workspace + Ascii(".optics.run")
  }

  function LabelsOf(service: Option<Text>, workspace: Text): seq<Text> {
    if service.Some? then [service.value] + ([workspace] + PlatformLabels()) else [workspace] + PlatformLabels()
  }

  lemma SpelledIsJoined(service: Option<Text>, workspace: Text)
    ensures Join(LabelsOf(service, workspace), DOT) == Spelled(service, workspace)
  {
    PlatformDomain();
    JoinOfMore(workspace, PlatformLabels(), DOT);
    var plain := workspace + Ascii(".optics.run");
    if service.Some? {
      JoinOfMore(service.value, [workspace] + PlatformLabels(), DOT);
      assert service.value + ([DOT] + plain) == service.value + [DOT] + workspace + Ascii(".optics.run");
    } else {
      assert [] + workspace == workspace;
    }
  }

  lemma SpelledIsSplit(service: Option<Text>, workspace: Text)
    requires DOT !in workspace && (service.Some? ==> DOT !in service.value)
    ensures Split(Spelled(service, workspace), DOT) == LabelsOf(service, workspace)
  {
    PlatformDomain();
    SpelledIsJoined(service, workspace);
    SplitJoin(LabelsOf(service, workspace), DOT);
  }

  /** Labels of a workspace's shape are those of some spelling. */
  lemma ShapedLabels(labels: seq<Text>) returns (service: Option<Text>, workspace: Text)
    requires (|labels| == 3 || |labels| == 4) && forall p | p in labels :: DOT !in p
    requires labels[|labels| - 2] == Ascii("optics") && labels[|labels| - 1] == Ascii("run")
    ensures labels == LabelsOf(service, workspace) && workspace == labels[|labels| - 3]
    ensures DOT !in workspace && (service.Some? ==> DOT !in service.value)
  {
    service := if |labels| == 4 then Some(labels[0]) else None;
    workspace := labels[|labels| - 3];
    assert labels[0] in labels && workspace in labels;
  }

  lemma IsNotReserved(service: Option<Text>, workspace: Text)
    ensures var labels := LabelsOf(service, workspace);
      && (|labels| == 3 || |labels| == 4)
      && labels[|labels| - 2] == Ascii("optics") && labels[|labels| - 1] == Ascii("run")
      && labels[|labels| - 3] == workspace
  {
  }

  ghost predicate IsSpelled(t: Text) {
    exists service, workspace :: IsWorkspaceHost(t, service, workspace)
  }

  /** Which hosts are a workspace's, by their spelling. */
  lemma WorkspaceHostnameMeans(hostname: Text)
    ensures IsWorkspaceHostname(hostname) <==> IsSpelled(Lower(Trim(hostname)))
  {
    if IsWorkspaceHostname(hostname) { CountedIsSpelled(hostname); }
    if IsSpelled(Lower(Trim(hostname))) { SpelledIsCounted(hostname); }
  }

  lemma CountedIsSpelled(hostname: Text)
    requires IsWorkspaceHostname(hostname)
    ensures IsSpelled(Lower(Trim(hostname)))
  {
    var t := Lower(Trim(hostname));
    JoinSplit(t, DOT);
    var service, workspace := ShapedLabels(Split(t, DOT));
    SpelledIsJoined(service, workspace);
    PlatformNamesAreReserved(workspace);
    assert IsWorkspaceHost(t, service, workspace);
  }

  lemma SpelledIsCounted(hostname: Text)
    requires IsSpelled(Lower(Trim(hostname)))
    ensures IsWorkspaceHostname(hostname)
  {
    var service, workspace :| IsWorkspaceHost(Lower(Trim(hostname)), service, workspace);
    SpelledIsSplit(service, workspace);
    IsNotReserved(service, workspace);
    PlatformNamesAreReserved(workspace);
  }

  lemma TotalOfMore(a: seq<HostBytes>, x: HostBytes)
    ensures Total(a + [x]) == Total(a) + Counted(x)
  {
    assert (a + [x])[..|a|] == a;
  }

  lemma {:induction false} TotalOfBoth(a: seq<HostBytes>, b: seq<HostBytes>)
    ensures Total(a + b) == Total(a) + Total(b)
  {
    if b == [] {
      assert a + b == a;
    } else {
      var n := |b| - 1;
      assert b == b[..n] + [b[n]];
      TotalOfBoth(a, b[..n]);
      TotalStep(a, b, b[..n], b[n], a + b);
    }
  }

  lemma TotalStep(a: seq<HostBytes>, b: seq<HostBytes>, c: seq<HostBytes>, x: HostBytes, both: seq<HostBytes>)
    requires b == c + [x] && both == a + b && Total(a + c) == Total(a) + Total(c)
    ensures Total(both) == Total(a) + Total(b)
  {
    HostsAssoc(a, c, [x]);
    TotalOfMore(a + c, x);
    TotalOfMore(c, x);
  }

  lemma HostsAssoc(a: seq<HostBytes>, b: seq<HostBytes>, c: seq<HostBytes>)
    ensures (a + b) + c == a + (b + c)
  {
  }

  /** The order Cloudflare lists hosts in does not matter. */
  lemma {:induction false} TotalIgnoresOrder(a: seq<HostBytes>, b: seq<HostBytes>)
    requires multiset(a) == multiset(b)
    ensures Total(a) == Total(b)
    decreases |a|
  {
    if a == [] {
      assert |multiset(b)| == 0;
    } else {
      var c, x := a[..|a| - 1], a[|a| - 1];
      assert a == c + [x] + [];
      OneMore(c, x, []);
      var p, q := Around(b, x);
      OneMore(p, x, q);
      assert c + [] == c;
      TotalIgnoresOrder(c, p + q);
    }
  }

  lemma Around(b: seq<HostBytes>, x: HostBytes) returns (p: seq<HostBytes>, q: seq<HostBytes>)
    requires x in multiset(b)
    ensures b == p + [x] + q
  {
    var k: nat :| k < |b| && b[k] == x;
    p, q := b[..k], b[k + 1..];
  }

  function Counted(h: HostBytes): nat { if IsWorkspaceHostname(h.hostname) then h.bytes else 0 }

  lemma OneMore(p: seq<HostBytes>, x: HostBytes, q: seq<HostBytes>)
    ensures Total(p + [x] + q) == Total(p + q) + Counted(x)
    ensures multiset(p + q) == multiset(p + [x] + q) - multiset{x}
  {
    TotalOfBoth(p + [x], q);
    TotalOfBoth(p, q);
    assert (p + [x])[..|p|] == p;
  }

  /** A host the gateway routes is counted exactly when its workspace label is not reserved for the platform. */
  lemma RoutedHostsAreCounted(r: HostRoutes.Route)
    requires HostRoutes.IsNamed(r)
    ensures IsWorkspaceHostname(HostRoutes.HostOf(r)) <==> r.workspace !in RESERVED
  {
    var host := HostRoutes.HostOf(r);
    HostRoutes.HostsArePlain(r);
    assert Trim(host) == host && Lower(host) == host;
  }

  // ---------------------------------------------------------------- one round

  /** What Cloudflare would answer for each day; a day it does not hold fails. */
  type Answers = map<int, seq<HostBytes>>

  /** Each day that could be fetched is overwritten with its total, none is added to. */
  function Synced(table: map<int, nat>, dates: seq<int>, answers: Answers): map<int, nat> {
    map d | d in table.Keys + (set x | x in dates && x in answers) ::
      if d in dates && d in answers then Total(answers[d]) else table[d]
  }

  function Pruned(table: map<int, nat>, now: int): map<int, nat> {
    map d | d in table && d >= Day(now) - PRUNE_KEEP_DAYS :: table[d]
  }

  /** The first round fetches all it can, later ones the last few days again. */
  function Dates(table: map<int, nat>, retention: Option<int>, now: int): seq<int> {
    if |table| == 0 then
      BackfillDates(now, if retention.Some? then retention.value else FALLBACK_BACKFILL_DAYS * 86400, PRUNE_KEEP_DAYS)
    else Trailing(now, RESYNC_TRAILING_DAYS)
  }

  /** A round that starts at `start` and prunes at `end`, unless the pruning fails. */
  datatype Round = Round(start: int, end: int, retention: Option<int>, answers: Answers, prunes: bool)

  function Sync(table: map<int, nat>, r: Round): map<int, nat> {
    var synced := Synced(table, Dates(table, r.retention, r.start), r.answers);
    if r.prunes then Pruned(synced, r.end) else synced
  }

  class TrafficDaily {
    var table: map<int, nat>

    constructor ()
      ensures table == map[]
    {
      table := map[];
    }

    method SyncOneDay(date: int, answers: Answers) returns (ok: bool)
      modifies this
      ensures ok <==> date in answers
      ensures table == if ok then old(table)[date := Total(answers[date])] else old(table)
    {
      if date !in answers { return false; }
      var breakdown := answers[date];
      var total: nat := 0;
      for i := 0 to |breakdown|
        invariant total == Total(breakdown[..i]) && table == old(table)
      {
        assert breakdown[..i + 1][..i] == breakdown[..i];
        if IsWorkspaceHostname(breakdown[i].hostname) { total := total + breakdown[i].bytes; }
      }
      assert breakdown[..|breakdown|] == breakdown;
      table := table[date := total];
      return true;
    }

    method PruneOldRows(now: int)
      modifies this
      ensures table == Pruned(old(table), now)
    {
      var cutoff := Day(now) - PRUNE_KEEP_DAYS;
      table := table - (set d | d in table && d < cutoff);
    }

    method RunSync(r: Round)
      modifies this
      ensures table == Sync(old(table), r)
    {
      var dates: seq<int>;
      if |table| == 0 {
        var seconds := if r.retention.Some? then r.retention.value else FALLBACK_BACKFILL_DAYS * 86400;
        dates := BackfillDates(r.start, seconds, PRUNE_KEEP_DAYS);
      } else {
        dates := TrailingDateList(r.start, RESYNC_TRAILING_DAYS);
      }
      for i := 0 to |dates|
        invariant table == Synced(old(table), dates[..i], r.answers)
      {
        SyncedNext(old(table), dates, i, r.answers);
        var _ := SyncOneDay(dates[i], r.answers);
      }
      assert dates[..|dates|] == dates;
      if r.prunes { PruneOldRows(r.end); }
    }
  }

  lemma SyncedNext(table: map<int, nat>, dates: seq<int>, i: nat, answers: Answers)
    requires i < |dates|
    ensures var before := Synced(table, dates[..i], answers);
      Synced(table, dates[..i + 1], answers) ==
        if dates[i] in answers then before[dates[i] := Total(answers[dates[i]])] else before
  {
    assert dates[..i + 1] == dates[..i] + [dates[i]];
    AfterOneMore(table, dates[..i], dates[i], answers);
  }

  lemma AfterOneMore(table: map<int, nat>, dates: seq<int>, date: int, answers: Answers)
    ensures Synced(table, dates + [date], answers) ==
      if date in answers then Synced(table, dates, answers)[date := Total(answers[date])]
      else Synced(table, dates, answers)
  {
    assert forall d :: d in dates + [date] <==> d in dates || d == date;
  }

  lemma DayMeans(now: int)
    ensures Day(now) * 86_400_000 <= now < (Day(now) + 1) * 86_400_000
  {
  }

  /**
   * The days a round asks for: on an empty table every whole day of the last forty that lies inside the retention
   * (a week if it is not known) less fifteen minutes; else the last three.
   */
  lemma DatesMean(table: map<int, nat>, retention: Option<int>, now: int)
    ensures |table| == 0 ==>
      var seconds := if retention == None then 7 * 86_400 else retention.value;
      forall d :: d in Dates(table, retention, now) <==>
        Day(now) - 40 <= d < Day(now) && d * 86_400_000 >= now - seconds * 1000 + 15 * 60_000
    ensures |table| > 0 ==>
      forall d :: d in Dates(table, retention, now) <==> Day(now) - 3 <= d < Day(now)
  {
    if |table| == 0 {
      var seconds := if retention == None then 7 * 86_400 else retention.value;
      BackfillIsExact(now, seconds, PRUNE_KEEP_DAYS);
      assert forall d :: IsBackfillable(d, now, seconds, PRUNE_KEEP_DAYS) <==>
        Day(now) - 40 <= d < Day(now) && d * 86_400_000 >= now - seconds * 1000 + 15 * 60_000;
    } else {
      forall d ensures d in Dates(table, retention, now) <==> Day(now) - 3 <= d < Day(now) {
        if Day(now) - 3 <= d < Day(now) { assert Trailing(now, 3)[Day(now) - 1 - d] == d; }
      }
    }
  }

  /** A day has a row after a round if it had one or was fetched, and is of the last forty where rows were pruned. */
  lemma SyncMeans(table: map<int, nat>, r: Round, d: int)
    ensures d in Sync(table, r) <==>
      && (d in table || (d in Dates(table, r.retention, r.start) && d in r.answers))
      && (r.prunes ==> Day(r.end) - 40 <= d)
  {
  }

  // ----------------------------------------------------------------- safety

  /** Only completed days have rows. */
  ghost predicate Inv(table: map<int, nat>, now: int) {
    forall d | d in table :: d < Day(now)
  }

  lemma DatesAreCompleted(table: map<int, nat>, retention: Option<int>, now: int, d: int)
    requires d in Dates(table, retention, now)
    ensures Day(now) - PRUNE_KEEP_DAYS <= d < Day(now)
  {
    if |table| == 0 {
      var seconds := if retention.Some? then retention.value else FALLBACK_BACKFILL_DAYS * 86400;
      BackfillIsExact(now, seconds, PRUNE_KEEP_DAYS);
      assert IsBackfillable(d, now, seconds, PRUNE_KEEP_DAYS);
    }
  }

  lemma SyncKeepsInv(table: map<int, nat>, r: Round, before: int)
    requires Inv(table, before) && before <= r.start <= r.end
    ensures Inv(Sync(table, r), r.end)
    ensures r.prunes ==> forall d | d in Sync(table, r) :: Day(r.end) - PRUNE_KEEP_DAYS <= d < Day(r.end)
  {
    DaysDoNotGoBack(before, r.start);
    DaysDoNotGoBack(r.start, r.end);
    forall d | d in Sync(table, r) ensures d < Day(r.end) {
      if d in Dates(table, r.retention, r.start) { DatesAreCompleted(table, r.retention, r.start, d); }
    }
  }

  lemma {:induction false} AtMostThatMany(days: set<int>, low: int, n: nat)
    requires forall d | d in days :: low <= d < low + n
    ensures |days| <= n
  {
    if n == 0 {
      assert forall d :: d in days ==> low <= d < low + n;
      assert days == {};
    } else {
      AtMostThatMany(days - {low + n - 1}, low, n - 1);
    }
  }

  /** The rows the public statistics read at `now`. */
  function PublicDays(table: map<int, nat>, now: int): set<int> {
    set d | d in table && d >= Day(now) - TRAFFIC_WINDOW_DAYS
  }

  // --------------------------------------------------------------- whole runs

  /** From an empty table: rounds one after the other, under a clock that does not go back. */
  ghost predicate IsRun(tables: seq<map<int, nat>>, run: seq<Round>) {
    && |tables| == |run| + 1 && tables[0] == map[]
    && (forall k | 0 <= k < |run| :: run[k].start <= run[k].end && tables[k + 1] == Sync(tables[k], run[k]))
    && (forall i, j | 0 <= i < j < |run| :: run[i].end <= run[j].start)
  }

  lemma {:induction false} RunKeepsInv(tables: seq<map<int, nat>>, run: seq<Round>, k: nat)
    requires IsRun(tables, run) && 0 < k <= |run|
    ensures Inv(tables[k], run[k - 1].end)
  {
    if k == 1 {
      SyncKeepsInv(tables[0], run[0], run[0].start);
    } else {
      RunKeepsInv(tables, run, k - 1);
      SyncKeepsInv(tables[k - 1], run[k - 1], run[k - 2].end);
    }
  }

  /** Over every run: at most thirty days are ever public, so the advertised window is the number of rows read. */
  lemma PublicWindowIsBounded(tables: seq<map<int, nat>>, run: seq<Round>, k: nat, now: int)
    requires IsRun(tables, run) && 0 < k <= |run| && run[k - 1].end <= now
    ensures |PublicDays(tables[k], now)| <= 30
    ensures forall d :: d in PublicDays(tables[k], now) <==> d in tables[k] && Day(now) - 30 <= d < Day(now)
  {
    RunKeepsInv(tables, run, k);
    DaysDoNotGoBack(run[k - 1].end, now);
    AtMostThatMany(PublicDays(tables[k], now), Day(now) - TRAFFIC_WINDOW_DAYS, TRAFFIC_WINDOW_DAYS);
  }

  /** After every round that could prune, the table holds at most the last forty completed days. */
  lemma TableIsBounded(tables: seq<map<int, nat>>, run: seq<Round>, k: nat)
    requires IsRun(tables, run) && 0 < k <= |run| && run[k - 1].prunes
    ensures |tables[k].Keys| <= 40
    ensures forall d | d in tables[k] :: Day(run[k - 1].end) - 40 <= d < Day(run[k - 1].end)
  {
    RunKeepsInv(tables, run, k);
    AtMostThatMany(tables[k].Keys, Day(run[k - 1].end) - PRUNE_KEEP_DAYS, PRUNE_KEEP_DAYS);
  }

  /** The round asks for the day and is answered. */
  predicate IsFetched(table: map<int, nat>, r: Round, d: int) {
    d in Dates(table, r.retention, r.start) && d in r.answers
  }

  lemma SyncRow(table: map<int, nat>, r: Round, d: int)
    requires d in Sync(table, r)
    ensures IsFetched(table, r, d) ==> Sync(table, r)[d] == Total(r.answers[d])
    ensures !IsFetched(table, r, d) ==> d in table && Sync(table, r)[d] == table[d]
  {
  }

  /** What was last fetched for a day before round k. */
  function LastFetched(tables: seq<map<int, nat>>, run: seq<Round>, k: nat, d: int): Option<seq<HostBytes>>
    requires k <= |run| <= |tables|
  {
    if k == 0 then None
    else if IsFetched(tables[k - 1], run[k - 1], d) then Some(run[k - 1].answers[d])
    else LastFetched(tables, run, k - 1, d)
  }

  /** The row of a day is the total of what was last fetched for it. */
  predicate IsLastTotal(tables: seq<map<int, nat>>, run: seq<Round>, k: nat, d: int)
    requires k <= |run| < |tables|
  {
    d in tables[k] ==>
      var last := LastFetched(tables, run, k, d);
      last.Some? && tables[k][d] == Total(last.value)
  }

  lemma NextIsLastTotal(tables: seq<map<int, nat>>, run: seq<Round>, k: nat, d: int)
    requires k < |run| < |tables| && tables[k + 1] == Sync(tables[k], run[k]) && IsLastTotal(tables, run, k, d)
    ensures IsLastTotal(tables, run, k + 1, d)
  {
    if d in tables[k + 1] { SyncRow(tables[k], run[k], d); }
  }

  lemma NoRowsAtFirst(tables: seq<map<int, nat>>, run: seq<Round>, d: int)
    requires IsRun(tables, run)
    ensures IsLastTotal(tables, run, 0, d)
  {
  }

  lemma RunStep(tables: seq<map<int, nat>>, run: seq<Round>, k: nat)
    requires IsRun(tables, run) && k < |run|
    ensures tables[k + 1] == Sync(tables[k], run[k])
  {
  }

  /** However often a day is fetched, its row is the total of the last answer for it: nothing is counted twice. */
  lemma {:induction false} RowsAreLastTotals(tables: seq<map<int, nat>>, run: seq<Round>, k: nat, d: int)
    requires IsRun(tables, run) && k <= |run|
    ensures IsLastTotal(tables, run, k, d)
  {
    if k == 0 {
      NoRowsAtFirst(tables, run, d);
    } else {
      var n := k - 1;
      RowsAreLastTotals(tables, run, n, d);
      RunStep(tables, run, n);
      NextIsLastTotal(tables, run, n, d);
      assert k == n + 1;
    }
  }
}
