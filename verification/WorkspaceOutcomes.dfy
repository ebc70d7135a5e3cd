/**
 * The handlers of src/workspaces/workspace.service.ts seen by their callers: when each succeeds, with which row, why
 * it refuses, and what stays as it was.
 */
module WorkspaceOutcomes {
  import opened Wrappers
  import opened Texts
  import opened WorkspaceDomains

  // --------------------------------------------------------------- the queries

  ghost function ActiveRows(rows: seq<Workspace>): set<int> {
    set i | 0 <= i < |rows| && rows[i].active && !rows[i].deleted
  }

  ghost function RowsOf(rows: seq<Workspace>, owner: int): set<int> {
    set i | 0 <= i < |rows| && rows[i].owner == owner
  }

  lemma ActiveRowsOfMore(rows: seq<Workspace>, w: Workspace)
    ensures |ActiveRows(rows + [w])| == |ActiveRows(rows)| + (if w.active && !w.deleted then 1 else 0)
  {
    var more := rows + [w];
    assert forall i | 0 <= i < |rows| :: more[i] == rows[i];
    if w.active && !w.deleted {
      assert ActiveRows(more) == ActiveRows(rows) + {|rows|};
    } else {
      assert ActiveRows(more) == ActiveRows(rows);
    }
  }

  /** The count is the number of rows that are active and not deleted. */
  lemma {:induction false} CountsActiveRows(rows: seq<Workspace>)
    ensures ActiveCount(rows) == |ActiveRows(rows)|
  {
    if rows == [] {
      assert ActiveRows(rows) == {};
    } else {
      var n := |rows| - 1;
      CountsActiveRows(rows[..n]);
      CountAfterAdd(rows[..n], rows[n]);
      ActiveRowsOfMore(rows[..n], rows[n]);
      assert rows == rows[..n] + [rows[n]];
    }
  }

  lemma {:induction false} OwnedAfterAdd(rows: seq<Workspace>, w: Workspace, owner: int)
    ensures OwnedCount(rows + [w], owner) == OwnedCount(rows, owner) + (if w.owner == owner then 1 else 0)
  {
    if rows != [] {
      OwnedAfterAdd(rows[1..], w, owner);
      assert (rows + [w])[1..] == rows[1..] + [w];
    }
  }

  lemma RowsOfMore(rows: seq<Workspace>, w: Workspace, owner: int)
    ensures |RowsOf(rows + [w], owner)| == |RowsOf(rows, owner)| + (if w.owner == owner then 1 else 0)
  {
    var more := rows + [w];
    assert forall i | 0 <= i < |rows| :: more[i] == rows[i];
    if w.owner == owner {
      assert RowsOf(more, owner) == RowsOf(rows, owner) + {|rows|};
    } else {
      assert RowsOf(more, owner) == RowsOf(rows, owner);
    }
  }

  lemma {:induction false} CountsRowsOf(rows: seq<Workspace>, owner: int)
    ensures OwnedCount(rows, owner) == |RowsOf(rows, owner)|
  {
    if rows == [] {
      assert RowsOf(rows, owner) == {};
    } else {
      var n := |rows| - 1;
      CountsRowsOf(rows[..n], owner);
      OwnedAfterAdd(rows[..n], rows[n], owner);
      RowsOfMore(rows[..n], rows[n], owner);
      assert rows == rows[..n] + [rows[n]];
    }
  }

  /** Another workspace that is active and not deleted has this subdomain. */
  ghost predicate InUse(rows: seq<Workspace>, subdomain: Text, but: int) {
    exists i | 0 <= i < |rows| ::
      i != but && rows[i].active && !rows[i].deleted && rows[i].subdomain == Some(subdomain)
  }

  ghost predicate HasRoom(limit: int, rows: seq<Workspace>) {
    |ActiveRows(rows)| < limit
  }

  lemma ActivationMeans(limit: int, rows: seq<Workspace>, subdomain: Text, except: nat)
    ensures var e := ActivationError(limit, rows, subdomain, except);
      && (e == Some(LimitReached) <==> !HasRoom(limit, rows))
      && (e == Some(SubdomainInUse) <==> HasRoom(limit, rows) && InUse(rows, subdomain, except))
      && (e == None <==> HasRoom(limit, rows) && !InUse(rows, subdomain, except))
  {
    CountsActiveRows(rows);
  }

  ghost predicate IsMine(rows: seq<Workspace>, owner: int, i: nat) {
    i < |rows| && rows[i].owner == owner && !rows[i].deleted
  }

  // -------------------------------------------------------------- the handlers

  /** The name a new workspace gets: the given one, or one numbered after all rows of its owner. */
  ghost function GivenName(rows: seq<Workspace>, owner: int, name: Option<Text>): Text {
    match name
    case Some(given) => given
    case None => Ascii("Unnamed Workspace ") + IntText(1 + |RowsOf(rows, owner)|)
  }

  /**
   * Creating fails exactly if the owner has, or had, a workspace of that name. Else the new row is added, active
   * exactly if a subdomain was given, had room, was free and DNS confirmed it.
   */
  lemma CreateOutcome(
    limit: int, s: State, owner: int, name: Option<Text>, subdomain: Option<Text>, id: nat, reply: Reply)
    ensures var r := Handle(limit, s, Creates(owner, name, subdomain, id, reply));
      var called := GivenName(s.rows, owner, name);
      var asks := subdomain.Some? && subdomain.value != []
                  && HasRoom(limit, s.rows) && !InUse(s.rows, subdomain.value, -1);
      var on := asks && reply == Done;
      && (r.result.Success? <==> forall w | w in s.rows :: w.owner == owner ==> w.name != called)
      && (r.result.Failure? ==> r.result.error == NameTaken && r.state.rows == s.rows)
      && (r.result.Success? ==>
            && r.result.value == Workspace(owner, called, subdomain, on, if on then Some(id) else None, false)
            && r.state.rows == s.rows + [r.result.value])
      && r.state.zone == (if asks && reply != Refused then s.zone[id := subdomain.value] else s.zone)
  {
    CountsRowsOf(s.rows, owner);
    var called := GivenName(s.rows, owner, name);
    assert called == NameFor(s.rows, owner, name);
    if subdomain.Some? {
      ActivationMeans(limit, s.rows, subdomain.value, |s.rows|);
      assert InUse(s.rows, subdomain.value, |s.rows|) <==> InUse(s.rows, subdomain.value, -1);
    }
    if i :| 0 <= i < |s.rows| && s.rows[i].owner == owner && s.rows[i].name == called {
      assert s.rows[i] in s.rows;
    }
  }

  /** The row after a successful switch. */
  ghost function Switched(w: Workspace, on: bool, id: nat): Workspace {
    Workspace(w.owner, w.name, w.subdomain, on,
              if w.active == on then w.recordId else if on then Some(id) else None, w.deleted)
  }

  /**
   * Switching on needs room, a free subdomain and DNS; switching off and switching to what is needs nothing. The
   * row changes on success alone, and no other row ever does.
   */
  lemma ToggleOutcome(limit: int, s: State, owner: int, i: nat, on: bool, id: nat, reply: Reply)
    ensures var r := Handle(limit, s, Toggles(owner, i, on, id, reply));
      && (r.result == Failure(NotFound) <==> !IsMine(s.rows, owner, i))
      && (r.result.Failure? ==> r.state.rows == s.rows)
      && (r.result.Success? ==>
            r.result.value == Switched(s.rows[i], on, id) && r.state.rows == s.rows[i := r.result.value])
    ensures IsMine(s.rows, owner, i) ==>
      var r, w := Handle(limit, s, Toggles(owner, i, on, id, reply)), s.rows[i];
      var named := w.subdomain != None && w.subdomain != Some([]);
      var turns := named && on && !w.active;
      var room := HasRoom(limit, s.rows);
      var free := named && !InUse(s.rows, w.subdomain.value, i);
      && (r.result.Success? <==> named && (turns ==> room && free && reply == Done))
      && (r.result == Failure(NoSubdomain) <==> !named)
      && (r.result == Failure(LimitReached) <==> turns && !room)
      && (r.result == Failure(SubdomainInUse) <==> turns && room && !free)
      && (r.result == Failure(DnsFailed) <==> turns && room && free && reply != Done)
      && r.state.zone ==
           (if reply == Refused || !named then s.zone
            else if turns && room && free then s.zone[id := w.subdomain.value]
            else if !on && w.active && w.recordId.Some? then s.zone - {w.recordId.value}
            else s.zone)
  {
    if IsMine(s.rows, owner, i) && IsNamed(s.rows[i].subdomain) {
      ActivationMeans(limit, s.rows, s.rows[i].subdomain.value, i);
    }
  }

  /** What a wanted subdomain comes to: its trimmed text, or none if that is empty. */
  ghost function Wanted(subdomain: Option<Text>): Option<Text> {
    match subdomain
    case None => None
    case Some(t) => if |Trim(t)| == 0 then None else Some(Trim(t))
  }

  /**
   * Renaming: an active workspace needs the name free and DNS; an inactive one takes any name; and a blank removes
   * the subdomain, whatever DNS answers.
   */
  lemma UpdateOutcome(limit: int, s: State, owner: int, i: nat, subdomain: Option<Text>, reply: Reply)
    ensures var r, wanted := Handle(limit, s, Updates(owner, i, subdomain, reply)), Wanted(subdomain);
      && (r.result == Failure(NotFound) <==> !IsMine(s.rows, owner, i))
      && (r.result.Failure? ==> r.state.rows == s.rows)
      && (r.result.Success? ==>
            var w := s.rows[i];
            && r.result.value ==
                 (if wanted == w.subdomain then w
                  else Workspace(w.owner, w.name, wanted, wanted != None && w.active,
                                 if wanted != None then w.recordId else None, w.deleted))
            && r.state.rows == s.rows[i := r.result.value])
    ensures IsMine(s.rows, owner, i) ==>
      var r, w, wanted := Handle(limit, s, Updates(owner, i, subdomain, reply)), s.rows[i], Wanted(subdomain);
      var renames := wanted != w.subdomain && wanted.Some? && w.active && w.recordId.Some?;
      var free := wanted.Some? && !InUse(s.rows, wanted.value, i);
      && (r.result == Failure(SubdomainInUse) <==> renames && !free)
      && (r.result == Failure(DnsFailed) <==> renames && free && reply != Done)
      && (r.result.Success? <==> (renames ==> free && reply == Done))
      && r.state.zone ==
           (if reply == Refused then s.zone
            else if renames && free then s.zone[w.recordId.value := wanted.value]
            else if wanted.None? && w.subdomain.Some? && w.recordId.Some? then s.zone - {w.recordId.value}
            else s.zone)
  {
    assert Cleaned(subdomain) == Wanted(subdomain);
    assert IsMine(s.rows, owner, i) && Wanted(subdomain).Some? ==>
      (InUse(s.rows, Wanted(subdomain).value, i) <==> IsTaken(s.rows, Wanted(subdomain).value, i));
  }

  /** Deleting needs the confirmation, and DNS if there is a record; the row stays, marked and without a record. */
  lemma DeleteOutcome(limit: int, s: State, owner: int, i: nat, confirmed: bool, reply: Reply)
    ensures var r := Handle(limit, s, Deletes(owner, i, confirmed, reply));
      && (r.result == Failure(NotFound) <==> !IsMine(s.rows, owner, i))
      && (r.result == Failure(ConfirmationMismatch) <==> IsMine(s.rows, owner, i) && !confirmed)
      && (r.result == Failure(DnsFailed) <==>
            IsMine(s.rows, owner, i) && confirmed && s.rows[i].recordId != None && reply != Done)
      && (r.result.Success? <==>
            IsMine(s.rows, owner, i) && confirmed && (s.rows[i].recordId == None || reply == Done))
      && (r.result.Failure? ==> r.state.rows == s.rows)
      && (r.result.Success? ==>
            var w := s.rows[i];
            && r.result.value == Workspace(w.owner, w.name, w.subdomain, false, None, true)
            && r.state.rows == s.rows[i := r.result.value])
      && r.state.zone ==
           (if IsMine(s.rows, owner, i) && confirmed && s.rows[i].recordId != None && reply != Refused
            then s.zone - {s.rows[i].recordId.value} else s.zone)
  {
  }

  // ---------------------------------------------------------------- for good

  /** A deleted workspace is found by no later request, over every run. */
  lemma {:induction false} DeletedStaysDeleted(limit: int, states: seq<State>, run: seq<Event>, k: nat, m: nat, i: nat)
    requires IsRun(limit, states, run) && k <= m <= |run| && i < |states[k].rows| && states[k].rows[i].deleted
    ensures i < |states[m].rows| && states[m].rows[i] == states[k].rows[i]
    ensures m < |run| && !run[m].Creates? && run[m].i == i ==>
      Handle(limit, states[m], run[m]).result == Failure(NotFound)
    decreases m
  {
    if k < m {
      DeletedStaysDeleted(limit, states, run, k, m - 1, i);
      DeletedStep(limit, states[m - 1], run[m - 1], i);
    }
  }

  lemma DeletedStep(limit: int, s: State, e: Event, i: nat)
    requires i < |s.rows| && s.rows[i].deleted
    ensures var after := Handle(limit, s, e).state;
      i < |after.rows| && after.rows[i] == s.rows[i]
  {
  }
}
