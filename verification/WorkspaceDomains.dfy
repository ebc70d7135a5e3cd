/**
 * src/workspaces/workspace.service.ts: workspace subdomains, their DNS records and the limit on active ones. Each
 * handler is one atomic step (the source awaits between reading and writing, so this speaks of serialised handlers).
 * `zone` is what Cloudflare holds: record id to subdomain.
 */
module WorkspaceDomains {
  import opened Wrappers
  import opened Texts

  /** A row; its index is its place. */
  datatype Workspace = Workspace(
    owner: int, name: Text, subdomain: Option<Text>, active: bool, recordId: Option<nat>, deleted: bool)

  datatype State = State(rows: seq<Workspace>, zone: map<nat, Text>)

  /** How a DNS call ends: as asked; not at all; or done, but reported as failed. */
  datatype Reply = Done | Refused | Lost

  datatype Error =
    | NotFound
    | NoSubdomain
    | LimitReached
    | SubdomainInUse
    | DnsFailed
    | ConfirmationMismatch
    | NameTaken

  datatype Outcome = Outcome(state: State, result: Result<Workspace, Error>)

  // -------------------------------------------------------------- the queries

  predicate Holds(w: Workspace) {
    w.active && !w.deleted
  }

  /** countActiveSubdomains */
  function ActiveCount(rows: seq<Workspace>): nat {
    if rows == [] then 0 else (if Holds(rows[0]) then 1 else 0) + ActiveCount(rows[1..])
  }

  /** isSubdomainTaken; a row that does not exist yet excludes none. */
  predicate IsTaken(rows: seq<Workspace>, subdomain: Text, except: nat) {
    exists i | 0 <= i < |rows| :: i != except && Holds(rows[i]) && rows[i].subdomain == Some(subdomain)
  }

  predicate Owns(rows: seq<Workspace>, owner: int, i: nat) {
    i < |rows| && rows[i].owner == owner && !rows[i].deleted
  }

  predicate IsNamed(subdomain: Option<Text>) {
    subdomain.Some? && subdomain.value != []
  }

  /** Rows of an owner, deleted ones too: the default name counts them and the unique key covers them. */
  function OwnedCount(rows: seq<Workspace>, owner: int): nat {
    if rows == [] then 0 else (if rows[0].owner == owner then 1 else 0) + OwnedCount(rows[1..], owner)
  }

  predicate IsNameTaken(rows: seq<Workspace>, owner: int, name: Text) {
    exists i | 0 <= i < |rows| :: rows[i].owner == owner && rows[i].name == name
  }

  const UNNAMED: Text := Ascii("Unnamed Workspace ")

  function NameFor(rows: seq<Workspace>, owner: int, name: Option<Text>): Text {
    if name.Some? then name.value else UNNAMED + IntText(OwnedCount(rows, owner) + 1)
  }

  // ---------------------------------------------------------------- the steps

  function Record(zone: map<nat, Text>, id: nat, subdomain: Text, reply: Reply): map<nat, Text> {
    if reply.Refused? then zone else zone[id := subdomain]
  }

  function Erase(zone: map<nat, Text>, id: Option<nat>, reply: Reply): map<nat, Text> {
    if id.None? || reply.Refused? then zone else zone - {id.value}
  }

  function ActivationError(limit: int, rows: seq<Workspace>, subdomain: Text, except: nat): Option<Error> {
    if ActiveCount(rows) >= limit then Some(LimitReached)
    else if IsTaken(rows, subdomain, except) then Some(SubdomainInUse)
    else None
  }

  /** `id` is the id a record made now would get. */
  function Create(
    limit: int, s: State, owner: int, name: Option<Text>, subdomain: Option<Text>, id: nat, reply: Reply): Outcome
  {
    var tries := IsNamed(subdomain) && ActivationError(limit, s.rows, subdomain.value, |s.rows|).None?;
    var recordId := if tries && reply.Done? then Some(id) else None;
    var zone := if tries then Record(s.zone, id, subdomain.value, reply) else s.zone;
    var w := Workspace(owner, NameFor(s.rows, owner, name), subdomain, recordId.Some?, recordId, false);
    if IsNameTaken(s.rows, owner, w.name) then Outcome(State(s.rows, zone), Failure(NameTaken))
    else Outcome(State(s.rows + [w], zone), Success(w))
  }

  function Put(s: State, i: nat, w: Workspace): Outcome
    requires i < |s.rows|
  {
    Outcome(s.(rows := s.rows[i := w]), Success(w))
  }

  function Toggle(limit: int, s: State, owner: int, i: nat, active: bool, id: nat, reply: Reply): Outcome {
    if !Owns(s.rows, owner, i) then Outcome(s, Failure(NotFound)) else
      var w := s.rows[i];
      if !IsNamed(w.subdomain) then Outcome(s, Failure(NoSubdomain))
      else if w.active == active then Outcome(s, Success(w))
      else if active then TurnOn(limit, s, i, id, reply)
      else Put(s.(zone := Erase(s.zone, w.recordId, reply)), i, w.(active := false, recordId := None))
  }

  function TurnOn(limit: int, s: State, i: nat, id: nat, reply: Reply): Outcome
    requires i < |s.rows| && IsNamed(s.rows[i].subdomain)
  {
    var w := s.rows[i];
    var error := ActivationError(limit, s.rows, w.subdomain.value, i);
    if error.Some? then Outcome(s, Failure(error.value)) else
      var made := s.(zone := Record(s.zone, id, w.subdomain.value, reply));
      if reply.Done? then Put(made, i, w.(active := true, recordId := Some(id)))
      else Outcome(made, Failure(DnsFailed))
  }

  /** null, empty and blank all mean "no subdomain". */
  function Cleaned(subdomain: Option<Text>): Option<Text> {
    if subdomain.Some? && Trim(subdomain.value) != [] then Some(Trim(subdomain.value)) else None
  }

  function Update(s: State, owner: int, i: nat, subdomain: Option<Text>, reply: Reply): Outcome {
    if !Owns(s.rows, owner, i) then Outcome(s, Failure(NotFound)) else
      var w := s.rows[i];
      var wanted := Cleaned(subdomain);
      if wanted == w.subdomain then Outcome(s, Success(w))
      else if wanted.None? then
        Put(s.(zone := Erase(s.zone, w.recordId, reply)), i, w.(subdomain := None, active := false, recordId := None))
      else if w.active && w.recordId.Some? then Rename(s, i, wanted.value, reply)
      else Put(s, i, w.(subdomain := wanted))
  }

  function Rename(s: State, i: nat, wanted: Text, reply: Reply): Outcome
    requires i < |s.rows| && s.rows[i].recordId.Some?
  {
    var w := s.rows[i];
    if IsTaken(s.rows, wanted, i) then Outcome(s, Failure(SubdomainInUse)) else
      var renamed := s.(zone := Record(s.zone, w.recordId.value, wanted, reply));
      if reply.Done? then Put(renamed, i, w.(subdomain := Some(wanted))) else Outcome(renamed, Failure(DnsFailed))
  }

  /** `confirmed`: the typed confirmation is the owner's display name, a slash and the workspace's name. */
  function Delete(s: State, owner: int, i: nat, confirmed: bool, reply: Reply): Outcome {
    if !Owns(s.rows, owner, i) then Outcome(s, Failure(NotFound))
    else if !confirmed then Outcome(s, Failure(ConfirmationMismatch))
    else
      var w := s.rows[i];
      var erased := s.(zone := Erase(s.zone, w.recordId, reply));
      if w.recordId.Some? && !reply.Done? then Outcome(erased, Failure(DnsFailed))
      else Put(erased, i, w.(deleted := true, active := false, recordId := None))
  }

  // ---------------------------------------------------------------- the class

  class Workspaces {
    const limit: int
    var rows: seq<Workspace>
    var zone: map<nat, Text>

    function View(): State
      reads this
    {
      State(rows, zone)
    }

    constructor (limit: int, zone: map<nat, Text>)
      ensures this.limit == limit && View() == State([], zone)
    {
      this.limit, this.rows, this.zone := limit, [], zone;
    }

    method CreateDnsRecord(subdomain: Text, id: nat, reply: Reply) returns (made: Option<nat>)
      modifies `zone
      ensures zone == Record(old(zone), id, subdomain, reply)
      ensures made == if reply.Done? then Some(id) else None
    {
      if !reply.Refused? { zone := zone[id := subdomain]; }
      return if reply.Done? then Some(id) else None;
    }

    method UpdateDnsRecord(subdomain: Text, id: nat, reply: Reply) returns (ok: bool)
      modifies `zone
      ensures zone == Record(old(zone), id, subdomain, reply) && ok == reply.Done?
    {
      if !reply.Refused? { zone := zone[id := subdomain]; }
      return reply.Done?;
    }

    method DeleteDnsRecord(id: nat, reply: Reply) returns (ok: bool)
      modifies `zone
      ensures zone == Erase(old(zone), Some(id), reply) && ok == reply.Done?
    {
      if !reply.Refused? { zone := zone - {id}; }
      return reply.Done?;
    }

    method TryActivateSubdomain(subdomain: Text, id: nat, reply: Reply) returns (made: Option<nat>)
      modifies `zone
      ensures var tries := ActivationError(limit, rows, subdomain, |rows|).None?;
        && zone == (if tries then Record(old(zone), id, subdomain, reply) else old(zone))
        && made == if tries && reply.Done? then Some(id) else None
    {
      if ActiveCount(rows) >= limit { return None; }
      if IsTaken(rows, subdomain, |rows|) { return None; }
      made := CreateDnsRecord(subdomain, id, reply);
    }

    method CreateWorkspace(owner: int, name: Option<Text>, subdomain: Option<Text>, id: nat, reply: Reply)
      returns (result: Result<Workspace, Error>)
      modifies this
      ensures Outcome(View(), result) == Create(limit, old(View()), owner, name, subdomain, id, reply)
    {
      var recordId: Option<nat> := None;
      if IsNamed(subdomain) { recordId := TryActivateSubdomain(subdomain.value, id, reply); }
      var w := Workspace(owner, NameFor(rows, owner, name), subdomain, recordId.Some?, recordId, false);
      if IsNameTaken(rows, owner, w.name) { return Failure(NameTaken); }
      rows := rows + [w];
      return Success(w);
    }

    method ToggleSubdomain(owner: int, i: nat, active: bool, id: nat, reply: Reply)
      returns (result: Result<Workspace, Error>)
      modifies this
      ensures Outcome(View(), result) == Toggle(limit, old(View()), owner, i, active, id, reply)
    {
      if !Owns(rows, owner, i) { return Failure(NotFound); }
      var w := rows[i];
      if !IsNamed(w.subdomain) { return Failure(NoSubdomain); }
      if w.active == active { return Success(w); }
      if active {
        var error := ActivationError(limit, rows, w.subdomain.value, i);
        if error.Some? { return Failure(error.value); }
        var recordId := CreateDnsRecord(w.subdomain.value, id, reply);
        if recordId.None? { return Failure(DnsFailed); }
        rows := rows[i := w.(active := true, recordId := recordId)];
        return Success(rows[i]);
      }
      if w.recordId.Some? { var _ := DeleteDnsRecord(w.recordId.value, reply); }
      rows := rows[i := w.(active := false, recordId := None)];
      return Success(rows[i]);
    }

    method UpdateSubdomain(owner: int, i: nat, subdomain: Option<Text>, reply: Reply)
      returns (result: Result<Workspace, Error>)
      modifies this
      ensures Outcome(View(), result) == Update(old(View()), owner, i, subdomain, reply)
    {
      if !Owns(rows, owner, i) { return Failure(NotFound); }
      var w := rows[i];
      var wanted := Cleaned(subdomain);
      if wanted == w.subdomain { return Success(w); }
      if wanted.None? {
        if w.recordId.Some? { var _ := DeleteDnsRecord(w.recordId.value, reply); }
        rows := rows[i := w.(subdomain := None, active := false, recordId := None)];
        return Success(rows[i]);
      }
      if w.active && w.recordId.Some? {
        if IsTaken(rows, wanted.value, i) { return Failure(SubdomainInUse); }
        var ok := UpdateDnsRecord(wanted.value, w.recordId.value, reply);
        if !ok { return Failure(DnsFailed); }
      }
      rows := rows[i := w.(subdomain := wanted)];
      return Success(rows[i]);
    }

    method DeleteWorkspace(owner: int, i: nat, confirmed: bool, reply: Reply)
      returns (result: Result<Workspace, Error>)
      modifies this
      ensures Outcome(View(), result) == Delete(old(View()), owner, i, confirmed, reply)
    {
      if !Owns(rows, owner, i) { return Failure(NotFound); }
      if !confirmed { return Failure(ConfirmationMismatch); }
      var w := rows[i];
      if w.recordId.Some? {
        var ok := DeleteDnsRecord(w.recordId.value, reply);
        if !ok { return Failure(DnsFailed); }
      }
      rows := rows[i := w.(deleted := true, active := false, recordId := None)];
      return Success(rows[i]);
    }
  }

  // --------------------------------------------------------------- invariants

  predicate RowOk(w: Workspace) {
    (w.active <==> w.recordId.Some?) && (w.active ==> IsNamed(w.subdomain) && !w.deleted)
  }

  /** What the rows keep whatever DNS answers. */
  ghost predicate Inv(limit: int, rows: seq<Workspace>) {
    && (forall i | 0 <= i < |rows| :: RowOk(rows[i]))
    && (forall i, j | 0 <= i < j < |rows| && rows[i].active && rows[j].active :: rows[i].subdomain != rows[j].subdomain)
    && (ActiveCount(rows) == 0 || ActiveCount(rows) <= limit)
  }

  predicate Served(w: Workspace, zone: map<nat, Text>) {
    w.active && w.recordId.Some? ==> w.recordId.value in zone && w.subdomain == Some(zone[w.recordId.value])
  }

  /** Every active workspace's DNS record exists under its current name. */
  ghost predicate ZoneInv(s: State) {
    forall i | 0 <= i < |s.rows| :: Served(s.rows[i], s.zone)
  }

  lemma {:induction false} CountAfterPut(rows: seq<Workspace>, i: nat, w: Workspace)
    requires i < |rows|
    ensures ActiveCount(rows[i := w]) + (if Holds(rows[i]) then 1 else 0)
         == ActiveCount(rows) + (if Holds(w) then 1 else 0)
  {
    if i == 0 {
      assert rows[0 := w][1..] == rows[1..];
    } else {
      CountAfterPut(rows[1..], i - 1, w);
      assert rows[i := w][1..] == rows[1..][i - 1 := w];
    }
  }

  lemma {:induction false} CountAfterAdd(rows: seq<Workspace>, w: Workspace)
    ensures ActiveCount(rows + [w]) == ActiveCount(rows) + (if Holds(w) then 1 else 0)
  {
    if rows != [] {
      CountAfterAdd(rows[1..], w);
      assert (rows + [w])[1..] == rows[1..] + [w];
    }
  }

  datatype Event =
    | Creates(owner: int, name: Option<Text>, subdomain: Option<Text>, id: nat, reply: Reply)
    | Toggles(owner: int, i: nat, on: bool, id: nat, reply: Reply)
    | Updates(owner: int, i: nat, subdomain: Option<Text>, reply: Reply)
    | Deletes(owner: int, i: nat, confirmed: bool, reply: Reply)

  function Handle(limit: int, s: State, e: Event): Outcome {
    match e
    case Creates(owner, name, subdomain, id, reply) => Create(limit, s, owner, name, subdomain, id, reply)
    case Toggles(owner, i, on, id, reply) => Toggle(limit, s, owner, i, on, id, reply)
    case Updates(owner, i, subdomain, reply) => Update(s, owner, i, subdomain, reply)
    case Deletes(owner, i, confirmed, reply) => Delete(s, owner, i, confirmed, reply)
  }

  /** A generated record id is one the zone does not hold. */
  predicate Enabled(s: State, e: Event) {
    e.Creates? || e.Toggles? ==> e.id !in s.zone
  }

  lemma PutKeepsInv(limit: int, rows: seq<Workspace>, i: nat, w: Workspace)
    requires Inv(limit, rows) && i < |rows| && RowOk(w)
    requires w.active ==> !IsTaken(rows, w.subdomain.value, i)
    requires w.active && !rows[i].active ==> ActiveCount(rows) < limit
    ensures Inv(limit, rows[i := w])
  {
    CountAfterPut(rows, i, w);
    assert RowOk(rows[i]);
    forall j | 0 <= j < |rows| && j != i && rows[j].active && w.active ensures rows[j].subdomain != w.subdomain {
      assert RowOk(rows[j]);
    }
  }

  lemma AddKeepsInv(limit: int, rows: seq<Workspace>, w: Workspace)
    requires Inv(limit, rows) && RowOk(w)
    requires w.active ==> !IsTaken(rows, w.subdomain.value, |rows|) && ActiveCount(rows) < limit
    ensures Inv(limit, rows + [w])
  {
    CountAfterAdd(rows, w);
    forall j | 0 <= j < |rows| && rows[j].active && w.active ensures rows[j].subdomain != w.subdomain {
      assert RowOk(rows[j]);
    }
  }

  lemma StepKeepsInv(limit: int, s: State, e: Event)
    requires Inv(limit, s.rows)
    ensures Inv(limit, Handle(limit, s, e).state.rows)
  {
    var after := Handle(limit, s, e).state.rows;
    if after != s.rows {
      if e.Creates? {
        AddKeepsInv(limit, s.rows, after[|s.rows|]);
      } else {
        assert RowOk(s.rows[e.i]);
        PutKeepsInv(limit, s.rows, e.i, after[e.i]);
      }
    }
  }

  /** The renaming or deleting of an active workspace was carried out by DNS but reported as failed. */
  predicate IsLost(s: State, e: Event) {
    match e
    case Updates(owner, i, subdomain, reply) =>
      reply.Lost? && Owns(s.rows, owner, i) && s.rows[i].active && Cleaned(subdomain).Some?
      && Cleaned(subdomain) != s.rows[i].subdomain && !IsTaken(s.rows, Cleaned(subdomain).value, i)
    case Deletes(owner, i, confirmed, reply) =>
      reply.Lost? && Owns(s.rows, owner, i) && s.rows[i].active && confirmed
    case _ => false
  }

  /** No two active rows share a record, since it cannot carry both their names. */
  lemma RecordsAreDistinct(limit: int, s: State, i: nat, j: nat)
    requires Inv(limit, s.rows) && ZoneInv(s) && i < |s.rows| && j < |s.rows| && i != j
    requires s.rows[i].active && s.rows[j].active
    ensures s.rows[i].recordId != s.rows[j].recordId
  {
    assert Served(s.rows[i], s.zone) && Served(s.rows[j], s.zone);
  }

  lemma ZoneSurvivesOnOthers(limit: int, s: State, e: Event, j: nat)
    requires Inv(limit, s.rows) && ZoneInv(s) && Enabled(s, e) && j < |s.rows| && (e.Creates? || j != e.i)
    ensures Served(s.rows[j], Handle(limit, s, e).state.zone)
  {
    assert Served(s.rows[j], s.zone) && RowOk(s.rows[j]);
    if !e.Creates? && e.i < |s.rows| {
      assert RowOk(s.rows[e.i]);
      if s.rows[e.i].active && s.rows[j].active { RecordsAreDistinct(limit, s, e.i, j); }
    }
  }

  lemma ZoneOnTheRow(limit: int, s: State, e: Event)
    requires Inv(limit, s.rows) && ZoneInv(s) && Enabled(s, e) && !e.Creates? && e.i < |s.rows|
    ensures var after := Handle(limit, s, e).state;
      Served(after.rows[e.i], after.zone) <==> !IsLost(s, e)
  {
    assert Served(s.rows[e.i], s.zone) && RowOk(s.rows[e.i]);
  }

  /** One step leaves every active workspace served exactly unless its DNS call was carried out and misreported. */
  lemma ZoneIsKeptUnlessLost(limit: int, s: State, e: Event)
    requires Inv(limit, s.rows) && ZoneInv(s) && Enabled(s, e)
    ensures ZoneInv(Handle(limit, s, e).state) <==> !IsLost(s, e)
  {
    var after := Handle(limit, s, e).state;
    forall j | 0 <= j < |s.rows| && (e.Creates? || j != e.i)
      ensures after.rows[j] == s.rows[j] && Served(s.rows[j], after.zone)
    {
      ZoneSurvivesOnOthers(limit, s, e, j);
    }
    if !e.Creates? && e.i < |s.rows| { ZoneOnTheRow(limit, s, e); }
  }

  /** A lost deletion: the one active workspace keeps its row and its record is gone. */
  lemma LostDeletionBreaksTheZone(limit: int, owner: int, name: Text, subdomain: Text, id: nat)
    requires limit >= 1 && subdomain != []
    ensures var s := State([Workspace(owner, name, Some(subdomain), true, Some(id), false)], map[id := subdomain]);
      var e := Deletes(owner, 0, true, Lost);
      Inv(limit, s.rows) && ZoneInv(s) && Enabled(s, e) && IsLost(s, e) && !ZoneInv(Handle(limit, s, e).state)
  {
    var s := State([Workspace(owner, name, Some(subdomain), true, Some(id), false)], map[id := subdomain]);
    assert s.rows[1..] == [] && ActiveCount(s.rows) == 1;
    ZoneIsKeptUnlessLost(limit, s, Deletes(owner, 0, true, Lost));
  }

  /** A lost renaming: the record has the new name, the row the old one. */
  lemma LostRenamingBreaksTheZone(limit: int, owner: int, name: Text, subdomain: Text, wanted: Text, id: nat)
    requires limit >= 1 && subdomain != [] && Cleaned(Some(wanted)) == Some(wanted) && wanted != subdomain
    ensures var s := State([Workspace(owner, name, Some(subdomain), true, Some(id), false)], map[id := subdomain]);
      var e := Updates(owner, 0, Some(wanted), Lost);
      Inv(limit, s.rows) && ZoneInv(s) && Enabled(s, e) && IsLost(s, e) && !ZoneInv(Handle(limit, s, e).state)
  {
    var s := State([Workspace(owner, name, Some(subdomain), true, Some(id), false)], map[id := subdomain]);
    assert s.rows[1..] == [] && ActiveCount(s.rows) == 1;
    ZoneIsKeptUnlessLost(limit, s, Updates(owner, 0, Some(wanted), Lost));
  }

  // --------------------------------------------------------------- whole runs

  ghost predicate IsRun(limit: int, states: seq<State>, run: seq<Event>) {
    && |states| == |run| + 1 && states[0].rows == []
    && (forall k | 0 <= k < |run| ::
          Enabled(states[k], run[k]) && states[k + 1] == Handle(limit, states[k], run[k]).state)
  }

  /**
   * Over every run: active means having a record id, active subdomains differ and stay within the limit; and as long
   * as no renaming or deletion was lost, each active one's record exists under its current name.
   */
  lemma {:induction false} DomainsAreSafe(limit: int, states: seq<State>, run: seq<Event>, k: nat)
    requires IsRun(limit, states, run) && k <= |run|
    ensures Inv(limit, states[k].rows)
    ensures (forall n | 0 <= n < k :: !IsLost(states[n], run[n])) ==> ZoneInv(states[k])
  {
    if k > 0 {
      DomainsAreSafe(limit, states, run, k - 1);
      StepKeepsInv(limit, states[k - 1], run[k - 1]);
      if ZoneInv(states[k - 1]) { ZoneIsKeptUnlessLost(limit, states[k - 1], run[k - 1]); }
    }
  }

  /** Every record in the zone is held by a workspace. */
  ghost predicate NoOrphans(s: State) {
    forall id | id in s.zone :: IsHeld(s.rows, id)
  }

  ghost predicate IsHeld(rows: seq<Workspace>, id: nat) {
    exists i | 0 <= i < |rows| :: rows[i].recordId == Some(id)
  }

  /**
   * A record is left behind: made but not reported, made for a workspace that then cannot be stored, or not deleted
   * where the source does not look at the outcome.
   */
  predicate Leaks(limit: int, s: State, e: Event) {
    match e
    case Creates(owner, name, subdomain, _, reply) =>
      IsNamed(subdomain) && ActivationError(limit, s.rows, subdomain.value, |s.rows|).None?
      && (reply.Lost? || (reply.Done? && IsNameTaken(s.rows, owner, NameFor(s.rows, owner, name))))
    case Toggles(owner, i, on, _, reply) =>
      Owns(s.rows, owner, i) && IsNamed(s.rows[i].subdomain) && s.rows[i].active != on
      && if !on then reply.Refused?
         else reply.Lost? && ActivationError(limit, s.rows, s.rows[i].subdomain.value, i).None?
    case Updates(owner, i, subdomain, reply) =>
      Owns(s.rows, owner, i) && s.rows[i].active && Cleaned(subdomain).None? && reply.Refused?
    case Deletes(_, _, _, _) => false
  }

  /** A leaking step leaves this record to nobody. */
  function LeakedId(s: State, e: Event): Option<nat> {
    if e.Creates? || (e.Toggles? && e.on) then Some(e.id)
    else if e.i < |s.rows| then s.rows[e.i].recordId
    else None
  }

  lemma LeakLeavesAnOrphan(limit: int, s: State, e: Event)
    requires Inv(limit, s.rows) && ZoneInv(s) && Enabled(s, e) && Leaks(limit, s, e)
    ensures var after := Handle(limit, s, e).state;
      LeakedId(s, e).Some? && LeakedId(s, e).value in after.zone && !IsHeld(after.rows, LeakedId(s, e).value)
  {
    var after := Handle(limit, s, e).state;
    if !e.Creates? { assert RowOk(s.rows[e.i]) && Served(s.rows[e.i], s.zone); }
    forall j | 0 <= j < |s.rows| && (e.Creates? || j != e.i)
      ensures after.rows[j] == s.rows[j] && s.rows[j].recordId != LeakedId(s, e)
    {
      assert RowOk(s.rows[j]) && Served(s.rows[j], s.zone);
      if !e.Creates? && s.rows[e.i].active && s.rows[j].active { RecordsAreDistinct(limit, s, e.i, j); }
    }
  }

  lemma HeldAfterPut(rows: seq<Workspace>, i: nat, w: Workspace, id: nat)
    requires i < |rows| && IsHeld(rows, id) && (rows[i].recordId != Some(id) || w.recordId == Some(id))
    ensures IsHeld(rows[i := w], id)
  {
    var j: nat :| j < |rows| && rows[j].recordId == Some(id);
    assert rows[i := w][j].recordId == Some(id);
  }

  lemma HeldAfterAdd(rows: seq<Workspace>, w: Workspace, id: nat)
    requires IsHeld(rows, id) || w.recordId == Some(id)
    ensures IsHeld(rows + [w], id)
  {
    if w.recordId == Some(id) {
      assert (rows + [w])[|rows|].recordId == Some(id);
    } else {
      var j: nat :| j < |rows| && rows[j].recordId == Some(id);
      assert (rows + [w])[j].recordId == Some(id);
    }
  }

  lemma CreateLeavesNoOrphan(limit: int, s: State, e: Event)
    requires NoOrphans(s) && e.Creates? && !Leaks(limit, s, e)
    ensures NoOrphans(Handle(limit, s, e).state)
  {
    var after := Handle(limit, s, e).state;
    if after.rows != s.rows {
      forall id | id in after.zone ensures IsHeld(after.rows, id) {
        HeldAfterAdd(s.rows, after.rows[|s.rows|], id);
      }
    }
  }

  lemma NoLeakNoOrphan(limit: int, s: State, e: Event)
    requires Inv(limit, s.rows) && NoOrphans(s) && !Leaks(limit, s, e)
    ensures NoOrphans(Handle(limit, s, e).state)
  {
    var after := Handle(limit, s, e).state;
    if e.Creates? {
      CreateLeavesNoOrphan(limit, s, e);
    } else if e.i < |s.rows| {
      forall id | id in after.zone ensures IsHeld(after.rows, id) {
        RecordFollowsRow(limit, s, e, id);
        if id in s.zone { HeldAfterPut(s.rows, e.i, after.rows[e.i], id); } else { HeldThere(after.rows, e.i, id); }
      }
    }
  }

  /** A record in the zone after a step on a row that leaks nothing: it was another's, or it is still the row's. */
  lemma RecordFollowsRow(limit: int, s: State, e: Event, id: nat)
    requires Inv(limit, s.rows) && !e.Creates? && !Leaks(limit, s, e) && e.i < |s.rows|
    requires id in Handle(limit, s, e).state.zone
    ensures var w, row := s.rows[e.i], Handle(limit, s, e).state.rows[e.i];
      && Handle(limit, s, e).state.rows == s.rows[e.i := row]
      && (if id in s.zone then w.recordId != Some(id) || row.recordId == Some(id) else row.recordId == Some(id))
  {
    assert RowOk(s.rows[e.i]);
  }

  lemma HeldThere(rows: seq<Workspace>, i: nat, id: nat)
    requires i < |rows| && rows[i].recordId == Some(id)
    ensures IsHeld(rows, id)
  {
  }

  /** One step leaves no record without a workspace exactly unless it leaks one. */
  lemma OrphansComeFromLeaks(limit: int, s: State, e: Event)
    requires Inv(limit, s.rows) && ZoneInv(s) && NoOrphans(s) && Enabled(s, e)
    ensures NoOrphans(Handle(limit, s, e).state) <==> !Leaks(limit, s, e)
  {
    if Leaks(limit, s, e) { LeakLeavesAnOrphan(limit, s, e); } else { NoLeakNoOrphan(limit, s, e); }
  }

  /** A lost creation: the workspace is stored inactive and the record made for it belongs to nobody. */
  lemma LostCreationLeavesAnOrphan(limit: int, owner: int, name: Text, subdomain: Text, id: nat)
    requires limit >= 1 && subdomain != []
    ensures var s := State([], map[]);
      var e := Creates(owner, Some(name), Some(subdomain), id, Lost);
      && Inv(limit, s.rows) && ZoneInv(s) && NoOrphans(s) && Enabled(s, e) && Leaks(limit, s, e)
      && !NoOrphans(Handle(limit, s, e).state)
  {
    var s := State([], map[]);
    OrphansComeFromLeaks(limit, s, Creates(owner, Some(name), Some(subdomain), id, Lost));
  }

  /** A refused deletion that switching off ignores: the slot is free and the record stays. */
  lemma IgnoredRefusalLeavesAnOrphan(limit: int, owner: int, name: Text, subdomain: Text, id: nat, next: nat)
    requires limit >= 1 && subdomain != [] && next != id
    ensures var s := State([Workspace(owner, name, Some(subdomain), true, Some(id), false)], map[id := subdomain]);
      var e := Toggles(owner, 0, false, next, Refused);
      && Inv(limit, s.rows) && ZoneInv(s) && NoOrphans(s) && Enabled(s, e) && Leaks(limit, s, e)
      && !NoOrphans(Handle(limit, s, e).state)
  {
    var s := State([Workspace(owner, name, Some(subdomain), true, Some(id), false)], map[id := subdomain]);
    assert s.rows[1..] == [] && ActiveCount(s.rows) == 1 && s.rows[0].recordId == Some(id);
    OrphansComeFromLeaks(limit, s, Toggles(owner, 0, false, next, Refused));
  }

  /** Over every run from an empty zone without such mishaps, the zone is exactly the active workspaces' records. */
  lemma {:induction false} ZoneIsExact(limit: int, states: seq<State>, run: seq<Event>, k: nat)
    requires IsRun(limit, states, run) && k <= |run| && states[0].zone == map[]
    requires forall n | 0 <= n < k :: !IsLost(states[n], run[n]) && !Leaks(limit, states[n], run[n])
    ensures ZoneInv(states[k]) && NoOrphans(states[k])
  {
    DomainsAreSafe(limit, states, run, k);
    if k > 0 {
      ZoneIsExact(limit, states, run, k - 1);
      DomainsAreSafe(limit, states, run, k - 1);
      OrphansComeFromLeaks(limit, states[k - 1], run[k - 1]);
    }
  }

  /** A freed slot can be taken again at once, and by the same name. */
  lemma TurningOffAndOn(limit: int, s: State, owner: int, i: nat, off: Reply, id: nat)
    requires Inv(limit, s.rows) && Owns(s.rows, owner, i) && s.rows[i].active
    ensures var freed := Toggle(limit, s, owner, i, false, id, off).state;
      var again := Toggle(limit, freed, owner, i, true, id, Done);
      again.result.Success? && again.state.rows == s.rows[i := s.rows[i].(recordId := Some(id))]
  {
    var freed := Toggle(limit, s, owner, i, false, id, off).state;
    assert RowOk(s.rows[i]);
    CountAfterPut(s.rows, i, freed.rows[i]);
    assert !IsTaken(freed.rows, s.rows[i].subdomain.value, i);
    CountIsPositive(s.rows, i);
  }

  lemma {:induction false} CountIsPositive(rows: seq<Workspace>, i: nat)
    requires i < |rows| && Holds(rows[i])
    ensures ActiveCount(rows) > 0
  {
    if i > 0 { CountIsPositive(rows[1..], i - 1); }
  }
}
