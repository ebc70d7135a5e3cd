/**
 * What src/releases/release-catalog.service.ts promises its readers: which fields a sync writes, when and why a
 * release is refused, what the operator's commands touch, and which of several equal versions is offered.
 */
module ReleaseOutcomes {
  import opened Wrappers
  import opened Texts
  import opened Semver
  import opened ReleaseCatalog

  // ------------------------------------------------------------ one sync

  /** The page's entry `k` is a published release with readable metadata for version `v`. */
  ghost predicate Lists(page: seq<Release>, k: nat, v: Text) {
    && k < |page| && !page[k].draft && page[k].publishedAt != None
    && page[k].metadata.Some? && page[k].metadata.value.version == v
  }

  /** No entry after `k` is for `v`. */
  ghost predicate IsLast(page: seq<Release>, k: nat, v: Text) {
    Lists(page, k, v) && forall j | k < j < |page| :: !Lists(page, j, v)
  }

  lemma {:induction false} LastOfIsLast(page: seq<Release>, k: nat, v: Text)
    requires IsLast(page, k, v)
    ensures v in Versions(page) && LastOf(page, v) == page[k]
  {
    assert Counts(page[k]);
    var n := |page| - 1;
    if k < n {
      assert !Lists(page, n, v);
      var less := page[..n];
      forall j | k < j < n ensures !Lists(less, j, v) {
        assert !Lists(page, j, v);
      }
      LastOfIsLast(less, k, v);
    }
  }

  /** A listed version's row is its last entry's in every field, un-yanked, with the operator's block as it was. */
  lemma ListedRowIsWritten(rows: Rows, page: seq<Release>, now: int, k: nat, v: Text)
    requires IsLast(page, k, v)
    ensures v in Synced(rows, page, now)
    ensures var row, r := Synced(rows, page, now)[v], page[k];
      && (row.channel == Beta <==> r.prerelease)
      && row.protocol == r.metadata.value.protocol && row.image == r.metadata.value.image
      && row.blocked == r.metadata.value.blocked
      && row.notes == r.body && Some(row.publishedAt) == r.publishedAt
      && row.yankedAt == None
      && row.manualBlock == (if v in rows then rows[v].manualBlock else None)
  {
    LastOfIsLast(page, k, v);
  }

  /**
   * Any other row stays, and is marked withdrawn now exactly if it was not before and some listed release is no
   * younger than it. There are no rows but these.
   */
  lemma OtherRowsStay(rows: Rows, page: seq<Release>, now: int, v: Text)
    requires forall k: nat :: !Lists(page, k, v)
    ensures v in Synced(rows, page, now) <==> v in rows
    ensures v in rows ==>
      Synced(rows, page, now)[v] == if ToBeYanked(rows[v], page) then rows[v].(yankedAt := Some(now)) else rows[v]
  {
    forall k | 0 <= k < |page| && Counts(page[k]) ensures page[k].metadata.value.version != v {
      assert !Lists(page, k, v);
    }
    if v in rows { YankMeans(rows[v], page); }
  }

  lemma YankMeans(row: Row, page: seq<Release>)
    ensures ToYank(row, Oldest(page)) <==> ToBeYanked(row, page)
  {
    if ToYank(row, Oldest(page)) {
      var k :| 0 <= k < |page| && Counts(page[k]) && page[k].publishedAt == Oldest(page);
      assert Lists(page, k, page[k].metadata.value.version);
    }
    if ToBeYanked(row, page) {
      var k: nat, w :| Lists(page, k, w) && page[k].publishedAt.value <= row.publishedAt;
      assert Counts(page[k]);
    }
  }

  ghost predicate ToBeYanked(row: Row, page: seq<Release>) {
    row.yankedAt == None
    && exists k: nat, w :: Lists(page, k, w) && page[k].publishedAt.value <= row.publishedAt
  }

  // ----------------------------------------------------------- the refusals

  ghost predicate Says(reason: Option<Text>) {
    reason != None && reason != Some([])
  }

  /** Each reason is given exactly when none before it applies; none exactly when nothing speaks against the row. */
  lemma ReasonsAreExact(row: Row)
    ensures var r, manual, declared := BlockedReason(row), Says(row.manualBlock), Says(row.blocked);
      var plain := !manual && !declared;
      && (r == None <==> plain && row.yankedAt == None && 0 <= row.protocol <= 1)
      && (manual ==> r == row.manualBlock)
      && (!manual && declared ==> r == row.blocked)
      && (plain && row.yankedAt != None ==> r == Some(Ascii("withdrawn")))
      && (plain && row.yankedAt == None && row.protocol < 0 ==> r == Some(Ascii("protocol too old")))
      && (plain && row.yankedAt == None && row.protocol > 1 ==> r == Some(Ascii("protocol too new")))
  {
  }

  /** Blocking and unblocking write one field of one known row. */
  lemma OperatorWritesOneField(rows: Rows, v: Text, reason: Text)
    ensures Apply(rows, Block(v, reason)).Keys == rows.Keys == Apply(rows, Unblock(v)).Keys
    ensures forall w | w in rows ::
      && Apply(rows, Block(v, reason))[w]
           == rows[w].(manualBlock := if w == v then Some(reason) else rows[w].manualBlock)
      && Apply(rows, Unblock(v))[w] == rows[w].(manualBlock := if w == v then None else rows[w].manualBlock)
  {
  }

  // ---------------------------------------------------------------- the list

  ghost predicate Before(s: seq<Text>, a: Text, b: Text) {
    exists i, j :: 0 <= i < j < |s| && s[i] == a && s[j] == b
  }

  ghost predicate IsDistinct(s: seq<Text>) {
    forall i, j | 0 <= i < j < |s| :: s[i] != s[j]
  }

  lemma BeforeInTail(s: seq<Text>, a: Text, b: Text)
    requires s != []
    ensures Before(s, a, b) <==> (s[0] == a && b in s[1..]) || Before(s[1..], a, b)
  {
    var tail := s[1..];
    if i, j :| 0 <= i < j < |s| && s[i] == a && s[j] == b {
      assert tail[j - 1] == b;
      if i > 0 { assert tail[i - 1] == a; }
    }
    if s[0] == a && b in tail {
      var j :| 0 <= j < |tail| && tail[j] == b;
      assert s[j + 1] == b;
    }
    if i, j :| 0 <= i < j < |tail| && tail[i] == a && tail[j] == b {
      assert s[i + 1] == a && s[j + 1] == b;
    }
  }

  /** A new version comes before those it is not below; the others stay in their order. */
  lemma {:induction false} InsertKeepsOrder(v: Text, sorted: seq<Text>, a: Text, b: Text)
    requires Before(sorted, a, b)
    ensures Before(Insert(v, sorted), a, b)
  {
    if Compare(sorted[0], v) <= 0 {
      assert ([v] + sorted)[1..] == sorted;
      BeforeInTail([v] + sorted, a, b);
    } else {
      var more := Insert(v, sorted[1..]);
      assert ([sorted[0]] + more)[1..] == more;
      BeforeInTail(sorted, a, b);
      BeforeInTail([sorted[0]] + more, a, b);
      if Before(sorted[1..], a, b) { InsertKeepsOrder(v, sorted[1..], a, b); }
    }
  }

  lemma {:induction false} InsertedComesFirst(v: Text, sorted: seq<Text>, w: Text)
    requires Descending(sorted) && w in sorted && Compare(w, v) == 0
    ensures Before(Insert(v, sorted), v, w)
  {
    if Compare(sorted[0], v) <= 0 {
      assert ([v] + sorted)[1..] == sorted;
      BeforeInTail([v] + sorted, v, w);
    } else {
      var more := Insert(v, sorted[1..]);
      assert ([sorted[0]] + more)[1..] == more;
      assert w in sorted[1..];
      InsertedComesFirst(v, sorted[1..], w);
      BeforeInTail([sorted[0]] + more, v, w);
    }
  }

  ghost predicate IsStable(rows: Rows, v: Text) {
    v in rows && rows[v].channel == Stable
  }

  /** Equally high versions are listed in the order the rows came in. */
  lemma {:induction false} EqualVersionsKeepTheirOrder(rows: Rows, order: seq<Text>, a: Text, b: Text)
    requires Before(order, a, b) && IsStable(rows, a) && IsStable(rows, b) && Compare(b, a) == 0
    ensures Before(Listed(rows, order), a, b)
  {
    BeforeInTail(order, a, b);
    var rest := Listed(rows, order[1..]);
    ListedDescends(rows, order[1..]);
    if Before(order[1..], a, b) {
      EqualVersionsKeepTheirOrder(rows, order[1..], a, b);
      if IsStable(rows, order[0]) { InsertKeepsOrder(order[0], rest, a, b); }
    } else {
      InsertedComesFirst(a, rest, b);
    }
  }

  /** Each row is listed once. */
  lemma {:induction false} ListedOnce(rows: Rows, order: seq<Text>)
    requires IsDistinct(order)
    ensures IsDistinct(Listed(rows, order))
  {
    if order != [] {
      assert forall i, j | 0 <= i < j < |order[1..]| :: order[1..][i] == order[i + 1] && order[1..][j] == order[j + 1];
      ListedOnce(rows, order[1..]);
      assert order[0] !in order[1..];
      if IsStable(rows, order[0]) { InsertKeepsDistinct(order[0], Listed(rows, order[1..])); }
    }
  }

  lemma {:induction false} InsertKeepsDistinct(v: Text, sorted: seq<Text>)
    requires IsDistinct(sorted) && v !in sorted
    ensures IsDistinct(Insert(v, sorted))
  {
    if sorted != [] && Compare(sorted[0], v) > 0 {
      assert forall i, j | 0 <= i < j < |sorted[1..]| ::
        sorted[1..][i] == sorted[i + 1] && sorted[1..][j] == sorted[j + 1];
      InsertKeepsDistinct(v, sorted[1..]);
      assert sorted[0] !in sorted[1..];
    }
  }

  /** Of equally high installable releases the one whose row came first is offered. */
  lemma FirstOfEqualsIsOffered(rows: Rows, order: seq<Text>, a: Text, b: Text)
    requires IsDistinct(order) && Before(order, a, b) && Candidate(rows, a) && Candidate(rows, b) && Compare(b, a) == 0
    ensures FirstInstallable(rows, Listed(rows, order)) != Some(b)
  {
    EqualVersionsKeepTheirOrder(rows, order, a, b);
    ListedOnce(rows, order);
    LaterIsNotFirst(rows, Listed(rows, order), a, b);
  }

  lemma {:induction false} LaterIsNotFirst(rows: Rows, list: seq<Text>, a: Text, b: Text)
    requires IsDistinct(list) && Before(list, a, b) && Installable(rows, a)
    ensures FirstInstallable(rows, list) != Some(b)
  {
    BeforeInTail(list, a, b);
    assert forall i, j | 0 <= i < j < |list[1..]| :: list[1..][i] == list[i + 1] && list[1..][j] == list[j + 1];
    if !Installable(rows, list[0]) { LaterIsNotFirst(rows, list[1..], a, b); }
  }
}
