/**
 * src/auth/auth.service.ts: mailed verification codes, issued or reused under a cooldown and consumed once. Each
 * handler is one atomic step at one instant (the source awaits between reading and writing, so this speaks of
 * serialised handlers). A user is known by the e-mail address, which is unique.
 */
module EmailVerification {
  import opened Wrappers
  import opened Texts

  datatype Config = Config(ttlMinutes: nat, cooldownSeconds: nat) {
    function Ttl(): nat { ttlMinutes * 60_000 }
    function Cooldown(): nat { cooldownSeconds * 1000 }
  }

  datatype Permission = Unverified | Permitted | Moderator | Administrator

  datatype Row = Row(email: Text, code: Text, createdAt: int, lastSentAt: int, consumedAt: Option<int>)

  datatype State = State(rows: seq<Row>, users: map<Text, Permission>)

  datatype Error =
    | UserNotFound
    | AlreadyExists
    | AlreadyVerified
    | TooManyRequests(retryAfterSeconds: int)
    | InvalidOrExpiredCode
    | NoAccount
    | PasswordMismatch

  // ------------------------------------------------------------- the queries

  /** findFirst by descending creation time: the first of the latest rows that match. */
  function Latest(rows: seq<Row>, p: Row -> bool): (r: Option<nat>)
    ensures r.None? ==> forall i | 0 <= i < |rows| :: !p(rows[i])
    ensures r.Some? ==> r.value < |rows| && p(rows[r.value])
    ensures r.Some? ==> forall i | 0 <= i < |rows| && p(rows[i]) :: rows[i].createdAt <= rows[r.value].createdAt
    ensures r.Some? ==> forall i | 0 <= i < r.value && p(rows[i]) :: rows[i].createdAt < rows[r.value].createdAt
  {
    if rows == [] then None else
      var n := |rows| - 1;
      var before := Latest(rows[..n], p);
      if p(rows[n]) && (before.None? || rows[before.value].createdAt < rows[n].createdAt) then Some(n) else before
  }

  /** The time of the last mail to an address. */
  function LastSent(rows: seq<Row>, email: Text): (r: Option<int>)
    ensures r.None? ==> forall i | 0 <= i < |rows| :: rows[i].email != email
    ensures r.Some? ==> exists i | 0 <= i < |rows| :: rows[i].email == email && rows[i].lastSentAt == r.value
    ensures r.Some? ==> forall i | 0 <= i < |rows| && rows[i].email == email :: rows[i].lastSentAt <= r.value
  {
    if rows == [] then None else
      var n := |rows| - 1;
      var before := LastSent(rows[..n], email);
      if rows[n].email == email && (before.None? || before.value < rows[n].lastSentAt) then Some(rows[n].lastSentAt)
      else before
  }

  /** Math.ceil(ms / 1000). */
  function CeilSeconds(ms: int): (s: int)
    ensures s > 0 <==> ms > 0
    ensures (s - 1) * 1000 < ms <= s * 1000
  {
    -((-ms) / 1000)
  }

  function Remaining(c: Config, rows: seq<Row>, email: Text, now: int): int {
    var last := LastSent(rows, email);
    if last.None? then 0 else CeilSeconds(c.Cooldown() - (now - last.value))
  }

  function Reusable(c: Config, rows: seq<Row>, email: Text, now: int): Option<nat> {
    Latest(rows, (r: Row) =>
      r.email == email && r.consumedAt.None? && r.createdAt >= now - c.Ttl() + c.Cooldown())
  }

  predicate Live(c: Config, r: Row, now: int) {
    r.consumedAt.None? && r.createdAt >= now - c.Ttl()
  }

  function Usable(c: Config, rows: seq<Row>, code: Text, now: int): Option<nat> {
    Latest(rows, (r: Row) => r.code == code && Live(c, r, now))
  }

  // ---------------------------------------------------------------- the steps

  /** The rows after a mail to `email`, and which row was mailed. `code` is what randomUUID would give. */
  datatype Issued = Issued(rows: seq<Row>, mailed: Result<nat, Error>)

  function Issue(c: Config, rows: seq<Row>, email: Text, code: Text, now: int): Issued {
    var remaining := Remaining(c, rows, email, now);
    if remaining > 0 then Issued(rows, Failure(TooManyRequests(remaining))) else
      var reusable := Reusable(c, rows, email, now);
      if reusable.Some? then
        Issued(rows[reusable.value := rows[reusable.value].(lastSentAt := now)], Success(reusable.value))
      else Issued(rows + [Row(email, code, now, now, None)], Success(|rows|))
  }

  function RequestError(s: State, existing: bool, email: Text): Option<Error> {
    if existing then
      if email !in s.users then Some(UserNotFound)
      else if s.users[email].Unverified? then None else Some(AlreadyVerified)
    else if email in s.users then Some(AlreadyExists) else None
  }

  /** A code asked for: by an address without account, or by an existing account not yet verified. */
  function Request(c: Config, s: State, existing: bool, email: Text, code: Text, now: int): Issued {
    var error := RequestError(s, existing, email);
    if error.Some? then Issued(s.rows, Failure(error.value)) else Issue(c, s.rows, email, code, now)
  }

  function Consume(rows: seq<Row>, i: nat, now: int): seq<Row>
    requires i < |rows|
  {
    rows[i := rows[i].(consumedAt := Some(now))]
  }

  datatype Redeemed = Redeemed(state: State, who: Result<Text, Error>)

  function VerifyExisting(c: Config, s: State, code: Text, now: int): Redeemed {
    var i := Usable(c, s.rows, code, now);
    if i.None? then Redeemed(s, Failure(InvalidOrExpiredCode)) else
      var email := s.rows[i.value].email;
      if email !in s.users then Redeemed(s, Failure(NoAccount))
      else Redeemed(State(Consume(s.rows, i.value, now), s.users[email := Permitted]), Success(email))
  }

  function Register(c: Config, s: State, code: Text, passwordsMatch: bool, now: int): Redeemed {
    if !passwordsMatch then Redeemed(s, Failure(PasswordMismatch)) else
      var i := Usable(c, s.rows, code, now);
      if i.None? then Redeemed(s, Failure(InvalidOrExpiredCode)) else
        var email := s.rows[i.value].email;
        if email in s.users then Redeemed(s, Failure(AlreadyExists))
        else Redeemed(State(Consume(s.rows, i.value, now), s.users[email := Permitted]), Success(email))
  }

  datatype Check = Valid(email: Text) | NotFound | Consumed | Expired

  function IsValidCode(c: Config, rows: seq<Row>, code: Text, now: int): Check {
    var i := Latest(rows, (r: Row) => r.code == code);
    if i.None? then NotFound
    else if rows[i.value].consumedAt.Some? then Consumed
    else if rows[i.value].createdAt < now - c.Ttl() then Expired
    else Valid(rows[i.value].email)
  }

  // ---------------------------------------------------------------- the class

  class AuthTables {
    const config: Config
    var rows: seq<Row>
    var users: map<Text, Permission>

    function View(): State
      reads this
    {
      State(rows, users)
    }

    constructor (config: Config, users: map<Text, Permission>)
      ensures this.config == config && View() == State([], users)
    {
      this.config := config;
      this.rows, this.users := [], users;
    }

    method IssueOrReuse(email: Text, code: Text, now: int) returns (mailed: Result<nat, Error>)
      modifies `rows
      ensures Issued(rows, mailed) == Issue(config, old(rows), email, code, now)
    {
      var last := LastSent(rows, email);
      if last.Some? {
        var elapsed := now - last.value;
        var remaining := CeilSeconds(config.Cooldown() - elapsed);
        if remaining > 0 { return Failure(TooManyRequests(remaining)); }
      }
      var reusable := Reusable(config, rows, email, now);
      if reusable.Some? {
        rows := rows[reusable.value := rows[reusable.value].(lastSentAt := now)];
        return Success(reusable.value);
      }
      rows := rows + [Row(email, code, now, now, None)];
      return Success(|rows| - 1);
    }

    method VerifyEmail(email: Text, code: Text, now: int) returns (mailed: Result<nat, Error>)
      modifies `rows
      ensures Issued(rows, mailed) == Request(config, old(View()), false, email, code, now)
    {
      if email in users { return Failure(AlreadyExists); }
      mailed := IssueOrReuse(email, code, now);
    }

    method RequestExistingEmailVerification(email: Text, code: Text, now: int) returns (mailed: Result<nat, Error>)
      modifies `rows
      ensures Issued(rows, mailed) == Request(config, old(View()), true, email, code, now)
    {
      if email !in users { return Failure(UserNotFound); }
      if !users[email].Unverified? { return Failure(AlreadyVerified); }
      mailed := IssueOrReuse(email, code, now);
    }

    method VerifyExistingEmail(code: Text, now: int) returns (who: Result<Text, Error>)
      modifies this
      ensures Redeemed(View(), who) == VerifyExisting(config, old(View()), code, now)
    {
      var i := Usable(config, rows, code, now);
      if i.None? { return Failure(InvalidOrExpiredCode); }
      var email := rows[i.value].email;
      if email !in users { return Failure(NoAccount); }
      users := users[email := Permitted];
      rows := rows[i.value := rows[i.value].(consumedAt := Some(now))];
      return Success(email);
    }

    method RegisterUser(code: Text, passwordsMatch: bool, now: int) returns (who: Result<Text, Error>)
      modifies this
      ensures Redeemed(View(), who) == Register(config, old(View()), code, passwordsMatch, now)
    {
      if !passwordsMatch { return Failure(PasswordMismatch); }
      var i := Usable(config, rows, code, now);
      if i.None? { return Failure(InvalidOrExpiredCode); }
      var email := rows[i.value].email;
      if email in users { return Failure(AlreadyExists); }
      users := users[email := Permitted];
      rows := rows[i.value := rows[i.value].(consumedAt := Some(now))];
      return Success(email);
    }
  }

  // ---------------------------------------------------------------- invariant

  /** The earlier of two rows of one address was given up for good when the later one was made. */
  predicate Superseded(c: Config, a: Row, b: Row) {
    a.lastSentAt + c.Cooldown() <= b.createdAt
    && (a.consumedAt.Some? || a.createdAt < b.createdAt - c.Ttl() + c.Cooldown())
  }

  ghost predicate Inv(c: Config, rows: seq<Row>, clock: int) {
    && (forall i | 0 <= i < |rows| :: rows[i].createdAt <= rows[i].lastSentAt <= clock)
    && (forall i, j | 0 <= i < j < |rows| && rows[i].email == rows[j].email :: Superseded(c, rows[i], rows[j]))
    && (forall i, j | 0 <= i < j < |rows| :: rows[i].code != rows[j].code)
  }

  predicate NewCode(rows: seq<Row>, code: Text) {
    forall i | 0 <= i < |rows| :: rows[i].code != code
  }

  lemma IssueKeepsInv(c: Config, rows: seq<Row>, email: Text, code: Text, clock: int, now: int)
    requires Inv(c, rows, clock) && clock <= now && NewCode(rows, code)
    ensures Inv(c, Issue(c, rows, email, code, now).rows, now)
  {
    var issued := Issue(c, rows, email, code, now);
    if issued.mailed.Success? {
      CooldownIsOver(c, rows, email, now);
      if issued.mailed.value == |rows| { FreshKeepsInv(c, rows, email, code, clock, now); }
      else { ResendKeepsInv(c, rows, email, clock, now); }
    }
  }

  lemma CooldownIsOver(c: Config, rows: seq<Row>, email: Text, now: int)
    requires Remaining(c, rows, email, now) <= 0
    ensures forall i | 0 <= i < |rows| && rows[i].email == email :: rows[i].lastSentAt + c.Cooldown() <= now
  {
  }

  lemma FreshKeepsInv(c: Config, rows: seq<Row>, email: Text, code: Text, clock: int, now: int)
    requires Inv(c, rows, clock) && clock <= now && NewCode(rows, code) && Reusable(c, rows, email, now).None?
    requires forall i | 0 <= i < |rows| && rows[i].email == email :: rows[i].lastSentAt + c.Cooldown() <= now
    ensures Inv(c, rows + [Row(email, code, now, now, None)], now)
  {
    var after := rows + [Row(email, code, now, now, None)];
    forall i, j | 0 <= i < j < |after| && after[i].email == after[j].email ensures Superseded(c, after[i], after[j]) {
      assert after[i] == rows[i];
    }
  }

  /** Only the newest row of an address is ever mailed again. */
  lemma ResendKeepsInv(c: Config, rows: seq<Row>, email: Text, clock: int, now: int)
    requires Inv(c, rows, clock) && clock <= now && Reusable(c, rows, email, now).Some?
    ensures var i := Reusable(c, rows, email, now).value;
      Inv(c, rows[i := rows[i].(lastSentAt := now)], now)
  {
    var k := Reusable(c, rows, email, now).value;
    var after := rows[k := rows[k].(lastSentAt := now)];
    forall j | k < j < |rows| ensures rows[j].email != email {
      assert rows[j].email == email ==> Superseded(c, rows[k], rows[j]);
    }
    forall i, j | 0 <= i < j < |after| && after[i].email == after[j].email ensures Superseded(c, after[i], after[j]) {
      assert Superseded(c, rows[i], rows[j]);
    }
  }

  lemma ConsumeKeepsInv(c: Config, rows: seq<Row>, i: nat, clock: int, now: int)
    requires Inv(c, rows, clock) && clock <= now && i < |rows|
    ensures Inv(c, Consume(rows, i, now), now)
  {
    var after := Consume(rows, i, now);
    forall a, b | 0 <= a < b < |after| && after[a].email == after[b].email ensures Superseded(c, after[a], after[b]) {
      assert Superseded(c, rows[a], rows[b]);
    }
  }

  // --------------------------------------------------------------- whole runs

  datatype Event =
    | Requests(existing: bool, email: Text, code: Text, now: int)
    | VerifiesExisting(code: Text, now: int)
    | Registers(code: Text, passwordsMatch: bool, now: int)
    | UsersChange(users: map<Text, Permission>, now: int)

  function Step(c: Config, s: State, e: Event): State {
    match e
    case Requests(existing, email, code, now) => s.(rows := Request(c, s, existing, email, code, now).rows)
    case VerifiesExisting(code, now) => VerifyExisting(c, s, code, now).state
    case Registers(code, same, now) => Register(c, s, code, same, now).state
    case UsersChange(users, _) => s.(users := users)
  }

  /** From empty tables: the clock does not go back and every generated code is new. */
  ghost predicate IsRun(c: Config, states: seq<State>, run: seq<Event>) {
    && |states| == |run| + 1 && states[0].rows == []
    && (forall i, j | 0 <= i < j < |run| :: run[i].now <= run[j].now)
    && (forall k | 0 <= k < |run| :: Enabled(states[k], run[k]) && states[k + 1] == Step(c, states[k], run[k]))
  }

  predicate Enabled(s: State, e: Event) {
    e.Requests? ==> NewCode(s.rows, e.code)
  }

  lemma StepKeepsInv(c: Config, s: State, e: Event, clock: int)
    requires Inv(c, s.rows, clock) && clock <= e.now
    requires Enabled(s, e)
    ensures Inv(c, Step(c, s, e).rows, e.now)
  {
    match e
    case Requests(_, email, code, now) => IssueKeepsInv(c, s.rows, email, code, clock, now);
    case UsersChange(_, _) =>
    case _ =>
      var i := Usable(c, s.rows, e.code, e.now);
      if i.Some? { ConsumeKeepsInv(c, s.rows, i.value, clock, e.now); }
  }

  lemma {:induction false} RunKeepsInv(c: Config, states: seq<State>, run: seq<Event>, k: nat)
    requires IsRun(c, states, run) && 0 < k <= |run|
    ensures Inv(c, states[k].rows, run[k - 1].now)
  {
    if k == 1 {
      StepKeepsInv(c, states[0], run[0], run[0].now);
    } else {
      RunKeepsInv(c, states, run, k - 1);
      StepKeepsInv(c, states[k - 1], run[k - 1], run[k - 2].now);
    }
  }

  /** No three codes of one address can be live together. */
  lemma InvBoundsLiveCodes(c: Config, rows: seq<Row>, clock: int, now: int, i: nat, j: nat, k: nat)
    requires Inv(c, rows, clock) && clock <= now && i < j < k < |rows|
    requires rows[i].email == rows[j].email == rows[k].email
    ensures !(Live(c, rows[i], now) && Live(c, rows[j], now) && Live(c, rows[k], now))
  {
    assert Superseded(c, rows[i], rows[j]) && Superseded(c, rows[j], rows[k]);
  }

  /** Over every run: at most two live unconsumed codes for an address, at any moment up to the next event. */
  lemma AtMostTwoLiveCodes(
    c: Config, states: seq<State>, run: seq<Event>, n: nat, now: int, i: nat, j: nat, k: nat)
    requires IsRun(c, states, run) && 0 < n <= |run| && run[n - 1].now <= now
    requires i < j < k < |states[n].rows|
    requires var rows := states[n].rows; rows[i].email == rows[j].email == rows[k].email
    ensures var rows := states[n].rows;
      !(Live(c, rows[i], now) && Live(c, rows[j], now) && Live(c, rows[k], now))
  {
    RunKeepsInv(c, states, run, n);
    InvBoundsLiveCodes(c, states[n].rows, run[n - 1].now, now, i, j, k);
  }

  /** Every code mailed is unconsumed and good for at least min(TTL, cooldown) more. */
  lemma MailedCodeLasts(c: Config, s: State, existing: bool, email: Text, code: Text, now: int, later: int)
    requires Request(c, s, existing, email, code, now).mailed.Success?
    requires now <= later <= now + (if c.Ttl() <= c.Cooldown() then c.Ttl() else c.Cooldown())
    ensures var issued := Request(c, s, existing, email, code, now);
      issued.mailed.value < |issued.rows| && issued.rows[issued.mailed.value].email == email
      && issued.rows[issued.mailed.value].lastSentAt == now && Live(c, issued.rows[issued.mailed.value], later)
  {
  }

  /** Event k mailed a code to the address. */
  predicate Sends(c: Config, states: seq<State>, run: seq<Event>, k: nat, email: Text)
    requires k < |run| <= |states|
  {
    run[k].Requests? && run[k].email == email
    && Request(c, states[k], run[k].existing, email, run[k].code, run[k].now).mailed.Success?
  }

  /** Some row of the address was mailed at `since` or after. */
  ghost predicate SentSince(rows: seq<Row>, email: Text, since: int) {
    exists i | 0 <= i < |rows| :: rows[i].email == email && rows[i].lastSentAt >= since
  }

  lemma StepKeepsSent(c: Config, s: State, e: Event, clock: int, email: Text, since: int)
    requires Inv(c, s.rows, clock) && clock <= e.now && SentSince(s.rows, email, since)
    ensures SentSince(Step(c, s, e).rows, email, since)
  {
    var i: nat :| i < |s.rows| && s.rows[i].email == email && s.rows[i].lastSentAt >= since;
    assert s.rows[i].lastSentAt <= clock;
    var after := Step(c, s, e).rows;
    assert i < |after| && after[i].email == email && after[i].lastSentAt >= since;
  }

  lemma SendIsRecorded(c: Config, s: State, e: Event)
    requires e.Requests? && Request(c, s, e.existing, e.email, e.code, e.now).mailed.Success?
    ensures SentSince(Step(c, s, e).rows, e.email, e.now)
  {
    var issued := Request(c, s, e.existing, e.email, e.code, e.now);
    MailedCodeLasts(c, s, e.existing, e.email, e.code, e.now, e.now);
    assert issued.rows[issued.mailed.value].lastSentAt == e.now;
  }

  lemma SentStep(c: Config, states: seq<State>, run: seq<Event>, k: nat, email: Text, since: int)
    requires IsRun(c, states, run) && 0 < k < |run| && SentSince(states[k].rows, email, since)
    ensures SentSince(states[k + 1].rows, email, since)
  {
    RunKeepsInv(c, states, run, k);
    StepKeepsSent(c, states[k], run[k], run[k - 1].now, email, since);
  }

  lemma {:induction false} SentIsRemembered(
    c: Config, states: seq<State>, run: seq<Event>, i: nat, j: nat, email: Text)
    requires IsRun(c, states, run) && i < j <= |run|
    requires SentSince(states[i + 1].rows, email, run[i].now)
    ensures SentSince(states[j].rows, email, run[i].now)
    decreases j
  {
    if j > i + 1 {
      SentIsRemembered(c, states, run, i, j - 1, email);
      SentStep(c, states, run, j - 1, email, run[i].now);
    }
  }

  /** Over every run, two mails to one address are at least one cooldown apart. */
  lemma SendsAreSpaced(c: Config, states: seq<State>, run: seq<Event>, i: nat, j: nat, email: Text)
    requires IsRun(c, states, run) && i < j < |run|
    requires Sends(c, states, run, i, email) && Sends(c, states, run, j, email)
    ensures run[j].now >= run[i].now + c.Cooldown()
  {
    SendIsRecorded(c, states[i], run[i]);
    SentIsRemembered(c, states, run, i, j, email);
    CooldownIsOver(c, states[j].rows, email, run[j].now);
  }

  /** Event k consumed the code: an account was verified or made with it. */
  predicate Redeems(c: Config, states: seq<State>, run: seq<Event>, k: nat, code: Text)
    requires k < |run| <= |states|
  {
    var s := states[k];
    match run[k]
    case VerifiesExisting(used, now) => used == code && VerifyExisting(c, s, used, now).who.Success?
    case Registers(used, same, now) => used == code && Register(c, s, used, same, now).who.Success?
    case _ => false
  }

  ghost predicate Spent(rows: seq<Row>, code: Text) {
    exists i | 0 <= i < |rows| :: rows[i].code == code && rows[i].consumedAt.Some?
  }

  lemma StepKeepsSpent(c: Config, s: State, e: Event, code: Text)
    requires Spent(s.rows, code)
    ensures Spent(Step(c, s, e).rows, code)
  {
    var i: nat :| i < |s.rows| && s.rows[i].code == code && s.rows[i].consumedAt.Some?;
    var after := Step(c, s, e).rows;
    assert i < |after| && after[i].code == code && after[i].consumedAt.Some?;
  }

  lemma {:induction false} RedeemedStaysSpent(
    c: Config, states: seq<State>, run: seq<Event>, i: nat, j: nat, code: Text)
    requires IsRun(c, states, run) && i < j <= |run| && Redeems(c, states, run, i, code)
    ensures Spent(states[j].rows, code)
    decreases j
  {
    if j == i + 1 {
      var s := states[i];
      var k := Usable(c, s.rows, code, run[i].now).value;
      assert Consume(s.rows, k, run[i].now)[k].consumedAt.Some?;
    } else {
      RedeemedStaysSpent(c, states, run, i, j - 1, code);
      StepKeepsSpent(c, states[j - 1], run[j - 1], code);
    }
  }

  /** Over every run no code is consumed twice, by whichever of the two routes. */
  lemma CodesAreConsumedOnce(c: Config, states: seq<State>, run: seq<Event>, i: nat, j: nat, code: Text)
    requires IsRun(c, states, run) && i < j < |run| && Redeems(c, states, run, i, code)
    ensures !Redeems(c, states, run, j, code)
  {
    RedeemedStaysSpent(c, states, run, i, j, code);
    RunKeepsInv(c, states, run, j);
  }

  /** What one redemption changes: the row of that code, which was live, and the account of its address. */
  ghost predicate RedeemedBy(c: Config, s: State, code: Text, now: int, r: Redeemed) {
    var after := r.state;
    exists i | 0 <= i < |s.rows| ::
      s.rows[i].code == code && Live(c, s.rows[i], now) && r.who == Success(s.rows[i].email)
      && after.rows == s.rows[..i] + [s.rows[i].(consumedAt := Some(now))] + s.rows[i + 1..]
      && after.users.Keys == s.users.Keys + {s.rows[i].email} && after.users[s.rows[i].email] == Permitted
      && after.users - {s.rows[i].email} == s.users - {s.rows[i].email}
  }

  /** Either route changes nothing, or redeems one live code; and which accounts it is open to. */
  lemma RedeemingIsLocal(c: Config, s: State, code: Text, same: bool, now: int)
    ensures var r := VerifyExisting(c, s, code, now);
      if r.who.Success? then RedeemedBy(c, s, code, now, r) && r.who.value in s.users else r.state == s
    ensures var r := Register(c, s, code, same, now);
      if r.who.Success? then RedeemedBy(c, s, code, now, r) && r.who.value !in s.users && same else r.state == s
  {
    var i := Usable(c, s.rows, code, now);
    if i.Some? {
      var row := s.rows[i.value];
      var used := [row.(consumedAt := Some(now))];
      assert Consume(s.rows, i.value, now) == s.rows[..i.value] + used + s.rows[i.value + 1..];
      assert s.users[row.email := Permitted] - {row.email} == s.users - {row.email};
    }
  }

  /** The link check says "valid" exactly when consuming the code at that moment would find it, and for whom. */
  lemma ValidMeansUsable(c: Config, rows: seq<Row>, clock: int, code: Text, now: int)
    requires Inv(c, rows, clock)
    ensures IsValidCode(c, rows, code, now).Valid? <==> Usable(c, rows, code, now).Some?
    ensures IsValidCode(c, rows, code, now).Valid? ==>
      IsValidCode(c, rows, code, now).email == rows[Usable(c, rows, code, now).value].email
  {
  }
}
