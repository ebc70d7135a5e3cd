/**
 * src/releases/release-catalog.service.ts: the cached release list. A sync is one atomic step over the table (the
 * source awaits between rows, so this speaks of serialised handlers); fetching is reduced to the page it returned.
 */
module ReleaseCatalog {
  import opened Wrappers
  import opened Texts
  import opened Semver

  datatype Channel = Stable | Beta

  datatype Row = Row(
    channel: Channel, protocol: int, image: Text, notes: Option<Text>, publishedAt: int,
    blocked: Option<Text>, manualBlock: Option<Text>, yankedAt: Option<int>)

  type Rows = map<Text, Row>

  /** release.json as fetchMetadata returns it. */
  datatype Metadata = Metadata(version: Text, protocol: int, image: Text, blocked: Option<Text>)

  /** One release of the fetched page; `metadata` is None without the asset, or when it could not be read. */
  datatype Release = Release(
    draft: bool, publishedAt: Option<int>, prerelease: bool, body: Option<Text>, metadata: Option<Metadata>)

  const PROTOCOL_MIN: int := 0
  const PROTOCOL_CURRENT: int := 1

  /** The releases a sync takes in. */
  predicate Counts(r: Release) {
    !r.draft && r.publishedAt.Some? && r.metadata.Some?
  }

  /** Metadata without a version is not taken in. */
  predicate GoodPage(page: seq<Release>) {
    forall i | 0 <= i < |page| && page[i].metadata.Some? :: page[i].metadata.value.version != []
  }

  function Versions(page: seq<Release>): set<Text> {
    set i | 0 <= i < |page| && Counts(page[i]) :: page[i].metadata.value.version
  }

  /** The last entry of a version is the one that stays. */
  function LastOf(page: seq<Release>, v: Text): (r: Release)
    requires v in Versions(page)
    ensures r in page && Counts(r) && r.metadata.value.version == v
  {
    var last := page[|page| - 1];
    if Counts(last) && last.metadata.value.version == v then last else
      assert page == page[..|page| - 1] + [last];
      LastOf(page[..|page| - 1], v)
  }

  function Oldest(page: seq<Release>): (o: Option<int>)
    ensures o.None? <==> forall i | 0 <= i < |page| :: !Counts(page[i])
    ensures o.Some? ==> forall i | 0 <= i < |page| && Counts(page[i]) :: o.value <= page[i].publishedAt.value
    ensures o.Some? ==> exists i :: 0 <= i < |page| && Counts(page[i]) && page[i].publishedAt == o
  {
    if page == [] then None else
      var last := page[|page| - 1];
      var before := Oldest(page[..|page| - 1]);
      if !Counts(last) then before
      else if before.None? || last.publishedAt.value < before.value then
        assert page[|page| - 1].publishedAt == last.publishedAt;
        last.publishedAt
      else before
  }

  function Refresh(prior: Option<Row>, r: Release): Row
    requires Counts(r)
  {
    Row(if r.prerelease then Beta else Stable, r.metadata.value.protocol, r.metadata.value.image, r.body,
        r.publishedAt.value, r.metadata.value.blocked,
        if prior.Some? then prior.value.manualBlock else None, None)
  }

  function Find(rows: Rows, v: Text): Option<Row> {
    if v in rows then Some(rows[v]) else None
  }

  predicate ToYank(row: Row, oldest: Option<int>) {
    oldest.Some? && row.publishedAt >= oldest.value && row.yankedAt.None?
  }

  /** Every release the page lists, as its last entry says, over the rows there were. */
  function Upserted(rows: Rows, page: seq<Release>): Rows {
    map v | v in rows.Keys + Versions(page) ::
      if v in Versions(page) then Refresh(Find(rows, v), LastOf(page, v)) else rows[v]
  }

  function Marked(rows: Rows, seen: set<Text>, oldest: Option<int>, now: int): Rows {
    map v | v in rows ::
      if v !in seen && ToYank(rows[v], oldest) then rows[v].(yankedAt := Some(now)) else rows[v]
  }

  /** What a successful sync makes of the table. */
  function Synced(rows: Rows, page: seq<Release>, now: int): Rows {
    Marked(Upserted(rows, page), Versions(page), Oldest(page), now)
  }

  function BlockedReason(row: Row): Option<Text> {
    if row.manualBlock.Some? && row.manualBlock.value != [] then row.manualBlock
    else if row.blocked.Some? && row.blocked.value != [] then row.blocked
    else if row.yankedAt.Some? then Some(Ascii("withdrawn"))
    else if row.protocol < PROTOCOL_MIN then Some(Ascii("protocol too old"))
    else if row.protocol > PROTOCOL_CURRENT then Some(Ascii("protocol too new"))
    else None
  }

  predicate Installable(rows: Rows, v: Text) {
    v in rows && BlockedReason(rows[v]).None?
  }

  datatype CatalogError = UnknownRelease | NotInstallable(reason: Text)

  class Catalog {
    var rows: Rows

    constructor ()
      ensures rows == map[]
    {
      rows := map[];
    }

    method RunSync(page: seq<Release>, now: int)
      modifies this
      ensures rows == Synced(old(rows), page, now)
    {
      var seen: set<Text> := {};
      var oldestSeen: Option<int> := None;
      for i := 0 to |page|
        invariant seen == Versions(page[..i]) && oldestSeen == Oldest(page[..i])
        invariant rows == Upserted(old(rows), page[..i])
      {
        var release := page[i];
        assert page[..i + 1][..i] == page[..i];
        UpsertStep(old(rows), page, i);
        if Counts(release) {
          var version := release.metadata.value.version;
          seen := seen + {version};
          if oldestSeen.None? || release.publishedAt.value < oldestSeen.value { oldestSeen := release.publishedAt; }
          rows := rows[version := Refresh(Find(rows, version), release)];
        }
      }
      assert page[..|page|] == page;
      MarkYanked(seen, oldestSeen, now);
    }

    method MarkYanked(seen: set<Text>, oldestSeen: Option<int>, now: int)
      modifies this
      ensures rows == Marked(old(rows), seen, oldestSeen, now)
    {
      if oldestSeen.None? {
        assert rows == map v | v in rows :: rows[v];
        return;
      }
      rows := map v | v in rows ::
        if v !in seen && ToYank(rows[v], oldestSeen) then rows[v].(yankedAt := Some(now)) else rows[v];
    }

    method BlockRelease(version: Text, reason: Text) returns (r: Result<(), CatalogError>)
      modifies this
      ensures rows == Apply(old(rows), Block(version, reason))
      ensures r.Success? <==> version in old(rows)
    {
      if version !in rows { return Failure(UnknownRelease); }
      rows := rows[version := rows[version].(manualBlock := Some(reason))];
      return Success(());
    }

    method UnblockRelease(version: Text) returns (r: Result<(), CatalogError>)
      modifies this
      ensures rows == Apply(old(rows), Unblock(version))
      ensures r.Success? <==> version in old(rows)
    {
      if version !in rows { return Failure(UnknownRelease); }
      rows := rows[version := rows[version].(manualBlock := None)];
      return Success(());
    }

    method AssertInstallable(version: Text) returns (r: Result<Row, CatalogError>)
      ensures r.Success? <==> Installable(rows, version)
      ensures r.Success? ==> r.value == rows[version]
      ensures r.Failure? && version !in rows ==> r.error == UnknownRelease
      ensures r.Failure? && version in rows ==> r.error == NotInstallable(BlockedReason(rows[version]).value)
    {
      if version !in rows { return Failure(UnknownRelease); }
      var reason := BlockedReason(rows[version]);
      if reason.Some? { return Failure(NotInstallable(reason.value)); }
      return Success(rows[version]);
    }

    /** `order` is the order in which the database happened to return the rows. */
    method FindUpgradeFor(order: seq<Text>, current: Option<Text>) returns (r: Option<Text>)
      requires forall v :: v in order <==> v in rows
      ensures r == Upgrade(rows, order, current)
    {
      var list := Listed(rows, order);
      var latest := FirstInstallable(rows, list);
      if latest.None? { return None; }
      if current.None? || current.value == [] { return latest; }
      return if Compare(latest.value, current.value) > 0 then latest else None;
    }
  }

  lemma VersionsStep(page: seq<Release>, i: nat)
    requires i < |page|
    ensures Versions(page[..i + 1]) ==
      Versions(page[..i]) + if Counts(page[i]) then {page[i].metadata.value.version} else {}
  {
    var a, b := page[..i], page[..i + 1];
    forall v | v in Versions(a) ensures v in Versions(b) {
      var k :| 0 <= k < |a| && Counts(a[k]) && a[k].metadata.value.version == v;
      assert b[k] == a[k];
    }
    if Counts(page[i]) { assert b[i] == page[i]; }
    forall v | v in Versions(b) ensures v in Versions(a) || (Counts(page[i]) && v == page[i].metadata.value.version) {
      var k :| 0 <= k < |b| && Counts(b[k]) && b[k].metadata.value.version == v;
      if k < i { assert a[k] == b[k]; }
    }
  }

  lemma UpsertStep(rows: Rows, page: seq<Release>, i: nat)
    requires i < |page|
    ensures var before := Upserted(rows, page[..i]);
      && Versions(page[..i + 1])
           == Versions(page[..i]) + (if Counts(page[i]) then {page[i].metadata.value.version} else {})
      && Upserted(rows, page[..i + 1]) == if !Counts(page[i]) then before else
           before[page[i].metadata.value.version := Refresh(Find(before, page[i].metadata.value.version), page[i])]
  {
    VersionsStep(page, i);
    assert page[..i + 1][..i] == page[..i];
    forall v | v in Versions(page[..i]) && !(Counts(page[i]) && page[i].metadata.value.version == v)
      ensures LastOf(page[..i + 1], v) == LastOf(page[..i], v)
    {
    }
  }

  // ---------------------------------------------------------- what a sync does

  /** Seen rows are current and un-yanked; unseen rows are yanked exactly when not older than the oldest seen. */
  lemma SyncOutcome(rows: Rows, page: seq<Release>, now: int, v: Text)
    requires v in Synced(rows, page, now)
    ensures var row := Synced(rows, page, now)[v];
      && (v in Versions(page) ==> row.yankedAt.None?)
      && (v !in Versions(page) ==> v in rows && row == rows[v].(yankedAt := row.yankedAt))
      && (v !in Versions(page) && rows[v].yankedAt.None? ==>
            (row.yankedAt.Some? <==>
               exists i :: 0 <= i < |page| && Counts(page[i]) && page[i].publishedAt.value <= rows[v].publishedAt))
      && (v in rows ==> row.manualBlock == rows[v].manualBlock)
  {
  }

  /** A sync makes no row without a version. */
  lemma SyncKeepsVersions(rows: Rows, page: seq<Release>, now: int)
    requires [] !in rows && GoodPage(page)
    ensures [] !in Synced(rows, page, now)
  {
  }

  /** Running the same page again changes nothing, whenever it runs. */
  lemma SyncIsIdempotent(rows: Rows, page: seq<Release>, now: int, later: int)
    ensures Synced(Synced(rows, page, now), page, later) == Synced(rows, page, now)
  {
    var once, twice := Synced(rows, page, now), Synced(Synced(rows, page, now), page, later);
    forall v | v in once ensures twice[v] == once[v] {
    }
  }

  // ------------------------------------------------------------ whole runs

  datatype Op = Sync(page: seq<Release>, now: int) | Block(version: Text, reason: Text) | Unblock(version: Text)

  function Apply(rows: Rows, op: Op): Rows {
    match op
    case Sync(page, now) => Synced(rows, page, now)
    case Block(v, reason) => if v in rows then rows[v := rows[v].(manualBlock := Some(reason))] else rows
    case Unblock(v) => if v in rows then rows[v := rows[v].(manualBlock := None)] else rows
  }

  function RunOps(rows: Rows, ops: seq<Op>): Rows
    decreases |ops|
  {
    if ops == [] then rows else RunOps(Apply(rows, ops[0]), ops[1..])
  }

  /** No run of syncs of good pages, blocks and unblocks makes a row without a version. */
  lemma {:induction false} RunKeepsVersions(rows: Rows, ops: seq<Op>)
    requires [] !in rows && forall i | 0 <= i < |ops| && ops[i].Sync? :: GoodPage(ops[i].page)
    ensures [] !in RunOps(rows, ops)
    decreases |ops|
  {
    if ops != [] {
      if ops[0].Sync? { SyncKeepsVersions(rows, ops[0].page, ops[0].now); }
      RunKeepsVersions(Apply(rows, ops[0]), ops[1..]);
    }
  }

  /** The operator's last word on a version: syncs have no say in it. */
  function ManualAfter(block: Option<Text>, ops: seq<Op>, v: Text): Option<Text>
    decreases |ops|
  {
    if ops == [] then block
    else match ops[0]
      case Sync(_, _) => ManualAfter(block, ops[1..], v)
      case Block(w, reason) => ManualAfter(if w == v then Some(reason) else block, ops[1..], v)
      case Unblock(w) => ManualAfter(if w == v then None else block, ops[1..], v)
  }

  lemma {:induction false} ManualBlockSurvives(rows: Rows, ops: seq<Op>, v: Text)
    requires v in rows
    ensures v in RunOps(rows, ops)
    ensures RunOps(rows, ops)[v].manualBlock == ManualAfter(rows[v].manualBlock, ops, v)
    decreases |ops|
  {
    if ops != [] {
      ManualBlockSurvives(Apply(rows, ops[0]), ops[1..], v);
    }
  }

  predicate LeavesAlone(op: Op, v: Text) { op.Sync? || op.version != v }

  lemma {:induction false} UntouchedManual(block: Option<Text>, ops: seq<Op>, v: Text)
    requires forall i | 0 <= i < |ops| :: LeavesAlone(ops[i], v)
    ensures ManualAfter(block, ops, v) == block
    decreases |ops|
  {
    if ops != [] {
      assert LeavesAlone(ops[0], v);
      forall i | 0 <= i < |ops[1..]| ensures LeavesAlone(ops[1..][i], v) { assert LeavesAlone(ops[i + 1], v); }
      UntouchedManual(block, ops[1..], v);
    }
  }

  /**
   * A block with a reason keeps a version uninstallable, under that reason, through any later syncs and any blocks
   * and unblocks of other versions. An empty reason gives no such hold: that is exactly when the block says nothing.
   */
  lemma BlockedStaysBlocked(rows: Rows, v: Text, reason: Text, ops: seq<Op>)
    requires v in rows
    requires forall i | 0 <= i < |ops| :: LeavesAlone(ops[i], v)
    ensures var after := RunOps(Apply(rows, Block(v, reason)), ops);
      v in after && (reason != [] ==> !Installable(after, v) && BlockedReason(after[v]) == Some(reason))
      && (reason == [] ==> BlockedReason(after[v]) == BlockedReason(after[v].(manualBlock := None)))
  {
    ManualBlockSurvives(Apply(rows, Block(v, reason)), ops, v);
    UntouchedManual(Some(reason), ops, v);
  }

  // --------------------------------------------------------------- upgrades

  function Insert(v: Text, sorted: seq<Text>): (r: seq<Text>)
    ensures forall w :: w in r <==> w == v || w in sorted
  {
    if sorted == [] || Compare(sorted[0], v) <= 0 then [v] + sorted else [sorted[0]] + Insert(v, sorted[1..])
  }

  /** The stable rows, highest version first; equal versions keep the order they came in. */
  function Listed(rows: Rows, order: seq<Text>): (r: seq<Text>)
    ensures forall v :: v in r <==> v in order && v in rows && rows[v].channel.Stable?
  {
    if order == [] then [] else
      var rest := Listed(rows, order[1..]);
      if order[0] in rows && rows[order[0]].channel.Stable? then Insert(order[0], rest) else rest
  }

  function FirstInstallable(rows: Rows, list: seq<Text>): (r: Option<Text>)
    ensures r.Some? ==> r.value in list && Installable(rows, r.value)
    ensures r.None? ==> forall v | v in list :: !Installable(rows, v)
  {
    if list == [] then None
    else if Installable(rows, list[0]) then Some(list[0])
    else FirstInstallable(rows, list[1..])
  }

  function Upgrade(rows: Rows, order: seq<Text>, current: Option<Text>): Option<Text> {
    var latest := FirstInstallable(rows, Listed(rows, order));
    if latest.None? || current.None? || current.value == [] || Compare(latest.value, current.value) > 0 then latest
    else None
  }

  predicate Descending(list: seq<Text>) {
    list != [] ==> (forall w | w in list[1..] :: Compare(w, list[0]) <= 0) && Descending(list[1..])
  }

  lemma {:induction false} InsertDescends(v: Text, sorted: seq<Text>)
    requires Descending(sorted)
    ensures Descending(Insert(v, sorted))
  {
    if sorted == [] {
    } else if Compare(sorted[0], v) <= 0 {
      assert Insert(v, sorted)[1..] == sorted;
      forall w | w in sorted ensures Compare(w, v) <= 0 {
        CompareReflects(w, w);
        CompareIsTotalPreorder(w, sorted[0], v);
        if w != sorted[0] { assert w in sorted[1..]; }
      }
    } else {
      InsertDescends(v, sorted[1..]);
      assert Insert(v, sorted)[1..] == Insert(v, sorted[1..]);
      CompareReflects(v, sorted[0]);
    }
  }

  lemma {:induction false} ListedDescends(rows: Rows, order: seq<Text>)
    ensures Descending(Listed(rows, order))
  {
    if order != [] {
      ListedDescends(rows, order[1..]);
      if order[0] in rows && rows[order[0]].channel.Stable? {
        InsertDescends(order[0], Listed(rows, order[1..]));
      }
    }
  }

  lemma {:induction false} FirstIsHighest(rows: Rows, list: seq<Text>, v: Text)
    requires Descending(list) && v in list && Installable(rows, v)
    ensures FirstInstallable(rows, list).Some? && Compare(v, FirstInstallable(rows, list).value) <= 0
  {
    CompareReflects(v, v);
    if !Installable(rows, list[0]) {
      FirstIsHighest(rows, list[1..], v);
    }
  }

  predicate Candidate(rows: Rows, v: Text) {
    v in rows && rows[v].channel.Stable? && Installable(rows, v)
  }

  /** Whether a version is an upgrade from what the agent reports (nothing reported: anything is). */
  predicate IsUpgrade(v: Text, current: Option<Text>) {
    current.None? || current.value == [] || Compare(v, current.value) > 0
  }

  /**
   * A highest installable stable release, and only if it is above the reported version; nothing exactly when no
   * installable stable release is above it; and once the offer runs there is no more.
   */
  ghost predicate IsBestUpgrade(rows: Rows, order: seq<Text>, current: Option<Text>, u: Option<Text>) {
    && (u.Some? ==> Candidate(rows, u.value) && IsUpgrade(u.value, current))
    && (u.Some? ==> forall v | Candidate(rows, v) :: Compare(v, u.value) <= 0)
    && (u.None? <==> forall v | Candidate(rows, v) :: !IsUpgrade(v, current))
    && (u.Some? ==> Upgrade(rows, order, u).None?)
  }

  /** Over every run from rows with versions, whatever order the rows are returned in. */
  lemma UpgradeIsHighest(start: Rows, ops: seq<Op>, order: seq<Text>, current: Option<Text>)
    requires [] !in start && forall i | 0 <= i < |ops| && ops[i].Sync? :: GoodPage(ops[i].page)
    requires forall v :: v in order <==> v in RunOps(start, ops)
    ensures var rows := RunOps(start, ops); IsBestUpgrade(rows, order, current, Upgrade(rows, order, current))
  {
    RunKeepsVersions(start, ops);
    UpgradeFromRows(RunOps(start, ops), order, current);
  }

  /** For any rows with versions. */
  lemma UpgradeFromRows(rows: Rows, order: seq<Text>, current: Option<Text>)
    requires [] !in rows && forall v :: v in order <==> v in rows
    ensures IsBestUpgrade(rows, order, current, Upgrade(rows, order, current))
  {
    var list := Listed(rows, order);
    var latest := FirstInstallable(rows, list);
    ListedDescends(rows, order);
    forall v | Candidate(rows, v) ensures latest.Some? && Compare(v, latest.value) <= 0 {
      FirstIsHighest(rows, list, v);
    }
    if latest.Some? {
      CompareReflects(latest.value, latest.value);
      assert Candidate(rows, latest.value);
      if current.Some? && current.value != [] && Compare(latest.value, current.value) <= 0 {
        forall v | Candidate(rows, v) ensures !IsUpgrade(v, current) {
          CompareIsTotalPreorder(v, latest.value, current.value);
        }
      }
    }
  }
}
