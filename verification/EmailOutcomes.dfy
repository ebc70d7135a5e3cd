/**
 * The mailed codes of src/auth/auth.service.ts seen from outside: when a mail goes out and with which code, when a
 * code is taken and when it is refused, and what the link check answers.
 */
module EmailOutcomes {
  import opened Wrappers
  import opened Texts
  import opened EmailVerification

  // ------------------------------------------------------------ issuing

  /** A mail to the address went out less than a cooldown ago. */
  ghost predicate MustWait(c: Config, rows: seq<Row>, email: Text, now: int) {
    exists i | 0 <= i < |rows| :: rows[i].email == email && now < rows[i].lastSentAt + c.cooldownSeconds * 1000
  }

  /** After this many seconds, and no fewer, the cooldown of every mail to the address is over. */
  ghost predicate IsWait(c: Config, rows: seq<Row>, email: Text, now: int, seconds: int) {
    && (forall i | 0 <= i < |rows| && rows[i].email == email ::
          rows[i].lastSentAt + c.cooldownSeconds * 1000 <= now + seconds * 1000)
    && (exists i | 0 <= i < |rows| ::
          rows[i].email == email && now + (seconds - 1) * 1000 < rows[i].lastSentAt + c.cooldownSeconds * 1000)
  }

  /** An unused code of the address that is good for a cooldown more. */
  ghost predicate CanServeAgain(c: Config, r: Row, email: Text, now: int) {
    r.email == email && r.consumedAt == None && now + c.cooldownSeconds * 1000 <= r.createdAt + c.ttlMinutes * 60 * 1000
  }

  /** The newest of those, the first of equally new ones. */
  ghost predicate ServesAgain(c: Config, rows: seq<Row>, email: Text, now: int, k: nat) {
    && k < |rows| && CanServeAgain(c, rows[k], email, now)
    && (forall i | 0 <= i < |rows| && CanServeAgain(c, rows[i], email, now) ::
          if i < k then rows[i].createdAt < rows[k].createdAt else rows[i].createdAt <= rows[k].createdAt)
  }

  lemma WaitMeans(c: Config, rows: seq<Row>, email: Text, now: int)
    ensures Remaining(c, rows, email, now) > 0 <==> MustWait(c, rows, email, now)
    ensures Remaining(c, rows, email, now) > 0 ==> IsWait(c, rows, email, now, Remaining(c, rows, email, now))
  {
  }

  lemma ReusableMeans(c: Config, rows: seq<Row>, email: Text, now: int)
    ensures var r := Reusable(c, rows, email, now);
      if r.Some? then ServesAgain(c, rows, email, now, r.value)
      else forall i | 0 <= i < |rows| :: !CanServeAgain(c, rows[i], email, now)
  {
    var r := Reusable(c, rows, email, now);
    forall i | 0 <= i < |rows| ensures CanServeAgain(c, rows[i], email, now) <==>
      rows[i].email == email && rows[i].consumedAt.None? && rows[i].createdAt >= now - c.Ttl() + c.Cooldown()
    {
    }
  }

  /**
   * During the cooldown nothing is mailed, and the caller is told how long to wait. After it the newest code that
   * still serves is mailed again, with its own time of making; a new code is made exactly if there is none.
   */
  lemma IssueOutcome(c: Config, rows: seq<Row>, email: Text, code: Text, now: int)
    ensures var r := Issue(c, rows, email, code, now);
      && (r.mailed.Failure? <==> MustWait(c, rows, email, now))
      && (r.mailed.Failure? ==>
            r.rows == rows && r.mailed.error.TooManyRequests?
            && IsWait(c, rows, email, now, r.mailed.error.retryAfterSeconds))
      && (r.mailed.Success? && (exists i | 0 <= i < |rows| :: CanServeAgain(c, rows[i], email, now)) ==>
            var k := r.mailed.value;
            ServesAgain(c, rows, email, now, k)
            && r.rows == rows[k := Row(email, rows[k].code, rows[k].createdAt, now, None)])
      && (r.mailed.Success? && (forall i | 0 <= i < |rows| :: !CanServeAgain(c, rows[i], email, now)) ==>
            r.mailed.value == |rows| && r.rows == rows + [Row(email, code, now, now, None)])
  {
    WaitMeans(c, rows, email, now);
    ReusableMeans(c, rows, email, now);
  }

  /** New addresses must be without an account; the others must have one that is not verified yet. */
  lemma RequestOutcome(c: Config, s: State, existing: bool, email: Text, code: Text, now: int)
    ensures var r, known := Request(c, s, existing, email, code, now), email in s.users;
      && (r.mailed == Failure(AlreadyExists) <==> !existing && known)
      && (r.mailed == Failure(UserNotFound) <==> existing && !known)
      && (r.mailed == Failure(AlreadyVerified) <==> existing && known && s.users[email] != Unverified)
      && (if (known <==> existing) && (known ==> s.users[email] == Unverified)
          then r == Issue(c, s.rows, email, code, now)
          else r.rows == s.rows && r.mailed.Failure?)
  {
  }

  // ---------------------------------------------------------- redeeming

  /** The codes differ, as generated ones do. */
  ghost predicate HasDistinctCodes(rows: seq<Row>) {
    forall i, j | 0 <= i < |rows| && 0 <= j < |rows| && i != j :: rows[i].code != rows[j].code
  }

  /** Over every run they do. */
  lemma CodesAreDistinct(c: Config, states: seq<State>, run: seq<Event>, k: nat)
    requires IsRun(c, states, run) && k <= |run|
    ensures HasDistinctCodes(states[k].rows)
  {
    if k > 0 { RunKeepsInv(c, states, run, k); }
  }

  /** Row `k` has the code, not used and not older than the codes' lifetime. */
  ghost predicate Honours(c: Config, rows: seq<Row>, code: Text, now: int, k: nat) {
    k < |rows| && rows[k].code == code && rows[k].consumedAt == None
    && now <= rows[k].createdAt + c.ttlMinutes * 60 * 1000
  }

  lemma UsableMeans(c: Config, rows: seq<Row>, code: Text, now: int)
    requires HasDistinctCodes(rows)
    ensures forall k: nat :: Honours(c, rows, code, now, k) <==> Usable(c, rows, code, now) == Some(k)
  {
    var r := Usable(c, rows, code, now);
    forall k: nat | k < |rows| ensures Honours(c, rows, code, now, k) <==> rows[k].code == code && Live(c, rows[k], now)
    {
    }
  }

  /** The address behind an honoured code. */
  ghost predicate Proves(c: Config, rows: seq<Row>, code: Text, now: int, email: Text) {
    exists k: nat :: Honours(c, rows, code, now, k) && rows[k].email == email
  }

  /** Verifying takes exactly an honoured code of an address with an account, and says which reason failed it. */
  lemma VerifyExistingOutcome(c: Config, s: State, code: Text, now: int, email: Text)
    requires HasDistinctCodes(s.rows)
    ensures var r := VerifyExisting(c, s, code, now).who;
      && (r == Success(email) <==> Proves(c, s.rows, code, now, email) && email in s.users)
      && (r == Failure(NoAccount) <==>
            exists k: nat :: Honours(c, s.rows, code, now, k) && s.rows[k].email !in s.users)
      && (r == Failure(InvalidOrExpiredCode) <==> forall k: nat :: !Honours(c, s.rows, code, now, k))
  {
    UsableMeans(c, s.rows, code, now);
    var i := Usable(c, s.rows, code, now);
    if i.Some? { assert Honours(c, s.rows, code, now, i.value); }
  }

  /** Registering takes exactly an honoured code of an address without an account, and equal passwords. */
  lemma RegisterOutcome(c: Config, s: State, code: Text, same: bool, now: int, email: Text)
    requires HasDistinctCodes(s.rows)
    ensures var r := Register(c, s, code, same, now).who;
      && (r == Success(email) <==> same && Proves(c, s.rows, code, now, email) && email !in s.users)
      && (r == Failure(PasswordMismatch) <==> !same)
      && (r == Failure(AlreadyExists) <==>
            same && exists k: nat :: Honours(c, s.rows, code, now, k) && s.rows[k].email in s.users)
      && (r == Failure(InvalidOrExpiredCode) <==> same && forall k: nat :: !Honours(c, s.rows, code, now, k))
  {
    UsableMeans(c, s.rows, code, now);
    var i := Usable(c, s.rows, code, now);
    if i.Some? { assert Honours(c, s.rows, code, now, i.value); }
  }

  /** The link check's four answers for the row of a code, and its answer when there is none. */
  lemma CheckOutcome(c: Config, rows: seq<Row>, code: Text, now: int, k: nat)
    requires HasDistinctCodes(rows)
    ensures (forall i | 0 <= i < |rows| :: rows[i].code != code) <==> IsValidCode(c, rows, code, now) == NotFound
    ensures k < |rows| && rows[k].code == code ==>
      IsValidCode(c, rows, code, now) ==
        if rows[k].consumedAt != None then Consumed
        else if rows[k].createdAt + c.ttlMinutes * 60 * 1000 < now then Expired
        else Valid(rows[k].email)
  {
  }
}
