/**
 * src/tunnel/tunnel.service.ts, verifyPreconnect and its cache of signing secrets, over the write-once secrets of
 * src/agent/agent.service.ts. A call is one instant: all its clock readings are `now`.
 */
module PreconnectVerification {
  import opened Wrappers
  import opened Texts
  import opened Json
  import opened KeyOrder
  import opened Canonical
  import opened ReplayGuard
  import opened Envelope

  const SIGNING_SECRET_TTL_MS: int := 60_000
  const EVENT: Text := Ascii("tunnel:pre")
  const AGENT_FIELD: Text := Ascii("agentUuid")
  const WINDOW: int := DEFAULT_MAX_CLOCK_SKEW_MS

  datatype Request = Request(agent: Text, timestamp: int, nonce: Text, signature: Text)

  /** `secrets` are the agent rows; a null column is None. */
  datatype State = State(secrets: map<Text, Option<Text>>, cache: map<Text, Cached>, seen: map<Text, int>)

  datatype Cached = Cached(secret: Option<Text>, expiresAt: int)

  /** What JavaScript takes for a missing secret: null or the empty string. */
  predicate Missing(secret: Option<Text>) {
    secret.None? || secret.value == []
  }

  function Stored(s: State, agent: Text): Option<Text> {
    if agent in s.secrets then s.secrets[agent] else None
  }

  function PreEnvelope(r: Request): Value {
    Record([Prop(AGENT_FIELD, Chars(r.agent)), Prop(TIMESTAMP_FIELD, Number(r.timestamp)),
            Prop(NONCE_FIELD, Chars(r.nonce)), Prop(SIGNATURE_FIELD, Chars(r.signature))])
  }

  /** One verify of the request against one secret. */
  function Once(mac: Mac, r: Request, secret: Option<Text>, now: int, seen: map<Text, int>): Verified {
    VerifyWith(mac, EVENT, PreEnvelope(r), secret, DEFAULT_MAX_CLOCK_SKEW_MS, now, seen, WINDOW)
  }

  /** The signed payload of a PRE line: the agent alone, under the event of preconnects, within five minutes. */
  lemma OnceMeans(mac: Mac, r: Request, secret: Option<Text>, now: int, seen: map<Text, int>)
    ensures var payload := Record([
        Prop(Ascii("agentUuid"), Chars(r.agent)), Prop(Ascii("_ts"), Number(r.timestamp)),
        Prop(Ascii("_nonce"), Chars(r.nonce)), Prop(Ascii("_sig"), Chars(r.signature))]);
      Once(mac, r, secret, now, seen)
        == VerifyWith(mac, Ascii("tunnel:pre"), payload, secret, 300_000, now, seen, 300_000)
    ensures StripEnvelope(PreEnvelope(r)) == Record([Prop(Ascii("agentUuid"), Chars(r.agent))])
  {
    StrippedRequest(r);
  }

  predicate ServedFromCache(s: State, agent: Text, now: int) {
    agent in s.cache && s.cache[agent].expiresAt > now
  }

  function Refill(s: State, agent: Text, now: int): State {
    s.(cache := s.cache[agent := Cached(Stored(s, agent), now + SIGNING_SECRET_TTL_MS)])
  }

  predicate Retries(mac: Mac, s: State, r: Request, now: int) {
    ServedFromCache(s, r.agent, now)
    && Once(mac, r, s.cache[r.agent].secret, now, s.seen).verdict == Rejected(InvalidSignature)
  }

  datatype Reply = Reply(verdict: Verdict, state: State)

  function VerifyPreconnect(mac: Mac, s: State, r: Request, now: int): Reply {
    if !ServedFromCache(s, r.agent, now) then
      var v := Once(mac, r, Stored(s, r.agent), now, s.seen);
      Reply(v.verdict, Refill(s, r.agent, now).(seen := v.seen))
    else
      var first := Once(mac, r, s.cache[r.agent].secret, now, s.seen);
      if !Retries(mac, s, r, now) then Reply(first.verdict, s.(seen := first.seen))
      else
        var second := Once(mac, r, Stored(s, r.agent), now, first.seen);
        Reply(second.verdict, Refill(s, r.agent, now).(seen := second.seen))
  }

  /** A registration under a known uuid fills in a missing secret and never replaces one; any other makes a row. */
  function Register(s: State, agent: Option<Text>, newAgent: Text, newSecret: Text): State {
    if agent.Some? && agent.value != [] && agent.value in s.secrets then
      if Missing(s.secrets[agent.value]) then s.(secrets := s.secrets[agent.value := Some(newSecret)]) else s
    else s.(secrets := s.secrets[newAgent := Some(newSecret)])
  }

  // ---------------------------------------------------------------- the class

  class Verifier {
    const mac: Mac
    const guard: Guard
    var secrets: map<Text, Option<Text>>
    var cache: map<Text, Cached>

    ghost predicate Valid() {
      guard.windowMs == WINDOW
    }

    function View(): State
      reads this, guard
    {
      State(secrets, cache, guard.seen)
    }

    constructor (mac: Mac, rows: map<Text, Option<Text>>)
      ensures Valid() && fresh(guard) && this.mac == mac && View() == State(rows, map[], map[])
    {
      this.mac := mac;
      guard := new Guard();
      secrets, cache := rows, map[];
    }

    method CacheSigningSecret(agent: Text, now: int) returns (secret: Option<Text>)
      modifies `cache
      ensures secret == Stored(old(View()), agent) && View() == Refill(old(View()), agent, now)
    {
      secret := if agent in secrets then secrets[agent] else None;
      cache := cache[agent := Cached(secret, now + SIGNING_SECRET_TTL_MS)];
    }

    method Verify(r: Request, now: int) returns (verdict: Verdict)
      requires Valid()
      modifies `cache, guard
      ensures Valid() && Reply(verdict, View()) == VerifyPreconnect(mac, old(View()), r, now)
    {
      var servedFromCache := r.agent in cache && cache[r.agent].expiresAt > now;
      var secret: Option<Text>;
      if servedFromCache { secret := cache[r.agent].secret; } else { secret := CacheSigningSecret(r.agent, now); }
      verdict := Attempt(r, secret, now);
      if verdict == Rejected(InvalidSignature) && servedFromCache {
        var current := CacheSigningSecret(r.agent, now);
        verdict := Attempt(r, current, now);
      }
    }

    method Attempt(r: Request, secret: Option<Text>, now: int) returns (verdict: Verdict)
      requires Valid()
      modifies guard
      ensures Verified(verdict, guard.seen) == Once(mac, r, secret, now, old(guard.seen))
    {
      verdict := Envelope.Verify(mac, EVENT, PreEnvelope(r), secret, DEFAULT_MAX_CLOCK_SKEW_MS, now, guard);
    }

    method RegisterAgent(agent: Option<Text>, newAgent: Text, newSecret: Text) returns (issued: Option<Text>)
      modifies `secrets
      ensures View() == Register(old(View()), agent, newAgent, newSecret)
      ensures issued ==
        if agent.Some? && agent.value != [] && !Missing(Stored(old(View()), agent.value)) then None else Some(newSecret)
    {
      if agent.Some? && agent.value != [] && agent.value in secrets {
        if !Missing(secrets[agent.value]) { return None; }
        secrets := secrets[agent.value := Some(newSecret)];
      } else {
        secrets := secrets[newAgent := Some(newSecret)];
      }
      return Some(newSecret);
    }
  }

  // ---------------------------------------------------------------- the retry

  /** The secret the final verdict rests on. */
  function Effective(mac: Mac, s: State, r: Request, now: int): Option<Text> {
    if ServedFromCache(s, r.agent, now) && !Retries(mac, s, r, now) then s.cache[r.agent].secret
    else Stored(s, r.agent)
  }

  /**
   * Whatever was cached, the outcome is that of one verify against one secret on the memory as the call found it:
   * the first attempt of a retried call left nothing behind that could make the second one a replay.
   */
  lemma OneVerifyDecides(mac: Mac, s: State, r: Request, now: int)
    ensures var reply := VerifyPreconnect(mac, s, r, now);
      Verified(reply.verdict, reply.state.seen) == Once(mac, r, Effective(mac, s, r, now), now, s.seen)
  {
    if Retries(mac, s, r, now) {
      BadSignatureBurnsNoNonce(
        mac, EVENT, PreEnvelope(r), s.cache[r.agent].secret, DEFAULT_MAX_CLOCK_SKEW_MS, now, s.seen, WINDOW);
    }
  }

  // ------------------------------------------------------- write-once secrets

  /** A cached secret is the stored one, or was read before there was one. */
  ghost predicate Inv(s: State) {
    forall a | a in s.cache :: s.cache[a].secret == Stored(s, a) || Missing(s.cache[a].secret)
  }

  datatype Event =
    | Verifies(request: Request, now: int)
    | Registers(agent: Option<Text>, newAgent: Text, newSecret: Text, now: int)

  /** A generated uuid is new and a generated secret is not empty. */
  predicate Enabled(s: State, e: Event) {
    e.Registers? ==> e.newAgent !in s.secrets && e.newSecret != []
  }

  function Step(mac: Mac, s: State, e: Event): State {
    match e
    case Verifies(r, now) => VerifyPreconnect(mac, s, r, now).state
    case Registers(agent, newAgent, newSecret, _) => Register(s, agent, newAgent, newSecret)
  }

  lemma StepKeepsInv(mac: Mac, s: State, e: Event)
    requires Inv(s) && Enabled(s, e)
    ensures Inv(Step(mac, s, e))
    ensures forall a | !Missing(Stored(s, a)) :: Stored(Step(mac, s, e), a) == Stored(s, a)
  {
  }

  /** A registration gives a secret to a known agent without one, or to a new agent, and to no other. */
  lemma RegisterMeans(s: State, agent: Option<Text>, newAgent: Text, newSecret: Text, a: Text)
    ensures var t := Register(s, agent, newAgent, newSecret);
      var known := agent.Some? && agent.value != [] && agent.value in s.secrets;
      var gets := if known then Some(a) == agent && s.secrets[a] in {None, Some([])} else a == newAgent;
      && t.cache == s.cache && t.seen == s.seen
      && (a in t.secrets <==> gets || a in s.secrets)
      && (a in t.secrets ==> t.secrets[a] == if gets then Some(newSecret) else s.secrets[a])
  {
  }

  /** The stored secret is read, and kept for a minute, exactly if none was kept or the kept one did not fit. */
  lemma CacheMeans(mac: Mac, s: State, r: Request, now: int)
    ensures var t := VerifyPreconnect(mac, s, r, now).state;
      var kept := r.agent in s.cache && now < s.cache[r.agent].expiresAt;
      var fits := kept && Once(mac, r, s.cache[r.agent].secret, now, s.seen).verdict != Rejected(InvalidSignature);
      var stored := if r.agent in s.secrets then s.secrets[r.agent] else None;
      && t.secrets == s.secrets
      && t.cache == (if fits then s.cache else s.cache[r.agent := Cached(stored, now + 60_000)])
  {
  }

  /** The call differs from one verify against the stored secret exactly while an outdated null is cached. */
  predicate NullStillCached(s: State, agent: Text, now: int) {
    ServedFromCache(s, agent, now) && Missing(s.cache[agent].secret) && !Missing(Stored(s, agent))
  }

  lemma CacheOnlyRefuses(mac: Mac, s: State, r: Request, now: int)
    requires Inv(s)
    ensures var reply := VerifyPreconnect(mac, s, r, now);
      var direct := Once(mac, r, Stored(s, r.agent), now, s.seen);
      && (Verified(reply.verdict, reply.state.seen) == direct <==> !NullStillCached(s, r.agent, now))
      && (NullStillCached(s, r.agent, now) ==> reply.verdict == Rejected(NoSecret) && reply.state.seen == s.seen)
      && (reply.verdict.Accepted? ==> direct.verdict.Accepted?)
  {
    OneVerifyDecides(mac, s, r, now);
  }

  // --------------------------------------------------------------- whole runs

  /** From a Hub with empty memory over any rows. */
  ghost predicate IsRun(mac: Mac, states: seq<State>, run: seq<Event>) {
    && |states| == |run| + 1 && states[0].cache == map[] && states[0].seen == map[]
    && (forall k | 0 <= k < |run| :: Enabled(states[k], run[k]) && states[k + 1] == Step(mac, states[k], run[k]))
  }

  function ReplyAt(mac: Mac, states: seq<State>, run: seq<Event>, k: nat): Verdict
    requires k < |run| <= |states| && run[k].Verifies?
  {
    VerifyPreconnect(mac, states[k], run[k].request, run[k].now).verdict
  }

  lemma {:induction false} RunKeepsInv(mac: Mac, states: seq<State>, run: seq<Event>, k: nat)
    requires IsRun(mac, states, run) && k <= |run|
    ensures Inv(states[k])
  {
    if k > 0 {
      RunKeepsInv(mac, states, run, k - 1);
      StepKeepsInv(mac, states[k - 1], run[k - 1]);
    }
  }

  /** Over every run from any rows: a preconnect is accepted only if the stored secret accepts it at that moment. */
  lemma AcceptedByTheStoredSecret(mac: Mac, states: seq<State>, run: seq<Event>, k: nat)
    requires IsRun(mac, states, run) && k < |run| && run[k].Verifies? && ReplyAt(mac, states, run, k).Accepted?
    ensures var s := states[k];
      Once(mac, run[k].request, Stored(s, run[k].request.agent), run[k].now, s.seen).verdict.Accepted?
  {
    RunKeepsInv(mac, states, run, k);
    CacheOnlyRefuses(mac, states[k], run[k].request, run[k].now);
  }

  /** Each event as a call on the one guard; a registration is a call that has no secret and leaves it alone. */
  function AsAttempt(mac: Mac, s: State, e: Event): Attempt {
    match e
    case Verifies(r, now) => Attempt(EVENT, PreEnvelope(r), Effective(mac, s, r, now), now)
    case Registers(_, _, _, now) => Attempt(EVENT, Nil, None, now)
  }

  function Attempts(mac: Mac, states: seq<State>, run: seq<Event>): (r: seq<Attempt>)
    requires |run| <= |states|
    ensures |r| == |run|
    ensures forall i | 0 <= i < |run| :: r[i] == AsAttempt(mac, states[i], run[i])
  {
    seq(|run|, i requires 0 <= i < |run| => AsAttempt(mac, states[i], run[i]))
  }

  /** One event as a call of verify on the memory. */
  function Replayed(mac: Mac, a: Attempt, seen: map<Text, int>): Verified {
    VerifyWith(mac, a.event, a.payload, a.secret, DEFAULT_MAX_CLOCK_SKEW_MS, a.now, seen, WINDOW)
  }

  lemma StepAsAttempt(mac: Mac, s: State, e: Event)
    ensures Step(mac, s, e).seen == Replayed(mac, AsAttempt(mac, s, e), s.seen).seen
    ensures e.Verifies? ==>
      VerifyPreconnect(mac, s, e.request, e.now).verdict == Replayed(mac, AsAttempt(mac, s, e), s.seen).verdict
  {
    if e.Verifies? { OneVerifyDecides(mac, s, e.request, e.now); }
  }

  lemma SeenGrows(mac: Mac, calls: seq<Attempt>, k: nat)
    requires 0 < k <= |calls|
    ensures SeenBefore(mac, DEFAULT_MAX_CLOCK_SKEW_MS, WINDOW, calls, k)
      == Replayed(mac, calls[k - 1], SeenBefore(mac, DEFAULT_MAX_CLOCK_SKEW_MS, WINDOW, calls, k - 1)).seen
  {
  }

  lemma {:induction false} SameMemory(mac: Mac, states: seq<State>, run: seq<Event>, k: nat)
    requires IsRun(mac, states, run) && k <= |run|
    ensures states[k].seen
         == SeenBefore(mac, DEFAULT_MAX_CLOCK_SKEW_MS, WINDOW, Attempts(mac, states, run), k)
  {
    if k > 0 {
      SameMemory(mac, states, run, k - 1);
      StepAsAttempt(mac, states[k - 1], run[k - 1]);
      SeenGrows(mac, Attempts(mac, states, run), k);
    }
  }

  /** An accepted preconnect is an accepted call of verify on the shared memory, for its own nonce and stamp. */
  lemma AcceptedAsAttempt(mac: Mac, states: seq<State>, run: seq<Event>, k: nat)
    requires IsRun(mac, states, run) && k < |run| && run[k].Verifies? && ReplyAt(mac, states, run, k).Accepted?
    ensures var calls := Attempts(mac, states, run);
      IsAccepted(mac, DEFAULT_MAX_CLOCK_SKEW_MS, WINDOW, calls, k)
      && Claimed(mac, calls[k]) == Success(Call(run[k].request.nonce, run[k].request.timestamp))
  {
    var s := states[k];
    SameMemory(mac, states, run, k);
    StepAsAttempt(mac, s, run[k]);
    AcceptedClaims(mac, run[k].request, Effective(mac, s, run[k].request, run[k].now), run[k].now, s.seen);
  }

  /** Retries, caches and registrations included: with a sane clock no signed line opens two preconnects. */
  lemma NoPreconnectIsReplayed(mac: Mac, states: seq<State>, run: seq<Event>, i: nat, j: nat)
    requires IsRun(mac, states, run) && i < j < |run| && run[i].Verifies? && run[j].Verifies?
    requires SaneClock(mac, Attempts(mac, states, run))
    requires run[i].request.nonce == run[j].request.nonce && run[i].request.timestamp == run[j].request.timestamp
    ensures !(ReplyAt(mac, states, run, i).Accepted? && ReplyAt(mac, states, run, j).Accepted?)
  {
    if ReplyAt(mac, states, run, i).Accepted? && ReplyAt(mac, states, run, j).Accepted? {
      AcceptedAsAttempt(mac, states, run, i);
      AcceptedAsAttempt(mac, states, run, j);
      AcceptedAtMostOnce(mac, DEFAULT_MAX_CLOCK_SKEW_MS, WINDOW, Attempts(mac, states, run), i, j);
    }
  }

  lemma PreEnvelopeReads(r: Request)
    ensures GetProp(PreEnvelope(r).props, TIMESTAMP_FIELD) == Number(r.timestamp)
    ensures GetProp(PreEnvelope(r).props, NONCE_FIELD) == Chars(r.nonce)
    ensures GetProp(PreEnvelope(r).props, SIGNATURE_FIELD) == Chars(r.signature)
  {
    FieldsDiffer();
    var ps := PreEnvelope(r).props;
    assert |AGENT_FIELD| == 9 && |TIMESTAMP_FIELD| == 3 && |NONCE_FIELD| == 6 && |SIGNATURE_FIELD| == 4;
    FirstProp(ps, TIMESTAMP_FIELD);
    FirstProp(ps[1..], TIMESTAMP_FIELD);
    FirstProp(ps, NONCE_FIELD);
    FirstProp(ps[1..], NONCE_FIELD);
    FirstProp(ps[1..][1..], NONCE_FIELD);
    FirstProp(ps, SIGNATURE_FIELD);
    FirstProp(ps[1..], SIGNATURE_FIELD);
    FirstProp(ps[1..][1..], SIGNATURE_FIELD);
    FirstProp(ps[1..][1..][1..], SIGNATURE_FIELD);
  }

  lemma FirstProp(ps: seq<Prop<Value>>, key: Text)
    requires ps != []
    ensures GetProp(ps, key) == if ps[0].key == key then ps[0].value else GetProp(ps[1..], key)
  {
  }

  lemma AcceptedClaims(mac: Mac, r: Request, secret: Option<Text>, now: int, seen: map<Text, int>)
    requires Once(mac, r, secret, now, seen).verdict.Accepted?
    ensures CheckSignature(mac, EVENT, PreEnvelope(r), secret) == Success(Call(r.nonce, r.timestamp))
  {
    PreEnvelopeReads(r);
  }

  // ------------------------------------------------- the outdated null, reached

  /** The request an agent makes with its secret. */
  function SignedRequest(mac: Mac, agent: Text, secret: Text, timestamp: int, nonce: Text): Request {
    Request(agent, timestamp, nonce,
            Digest(mac, EVENT, timestamp, nonce, Record([Prop(AGENT_FIELD, Chars(agent))]), secret))
  }

  lemma SignedRequestChecks(mac: Mac, agent: Text, secret: Text, timestamp: int, nonce: Text)
    requires IsHexMac(mac) && secret != [] && nonce != []
    ensures CheckSignature(mac, EVENT, PreEnvelope(SignedRequest(mac, agent, secret, timestamp, nonce)), Some(secret))
      == Success(Call(nonce, timestamp))
  {
    var r := SignedRequest(mac, agent, secret, timestamp, nonce);
    var ps, own := PreEnvelope(r).props, [Prop(AGENT_FIELD, Chars(agent))];
    PreEnvelopeReads(r);
    StrippedRequest(r);
    assert StripEnvelope(Record(own)) == Record(own) by { StrippedAgent(agent); }
    CheckPasses(mac, EVENT, ps, secret, timestamp, nonce, r.signature);
  }

  lemma StrippedAgent(agent: Text)
    ensures Without([Prop(AGENT_FIELD, Chars(agent))], ENVELOPE_FIELDS) == [Prop(AGENT_FIELD, Chars(agent))]
  {
    var own: seq<Prop<Value>> := [Prop(AGENT_FIELD, Chars(agent))];
    assert |AGENT_FIELD| == 9 && |TIMESTAMP_FIELD| == 3 && |NONCE_FIELD| == 6 && |SIGNATURE_FIELD| == 4;
    assert own[1..] == [] && Without(own[1..], ENVELOPE_FIELDS) == [];
    assert [own[0]] + [] == own;
  }

  lemma StrippedRequest(r: Request)
    ensures Without(PreEnvelope(r).props, ENVELOPE_FIELDS) == [Prop(AGENT_FIELD, Chars(r.agent))]
  {
    var ps := PreEnvelope(r).props;
    assert |AGENT_FIELD| == 9 && |TIMESTAMP_FIELD| == 3 && |NONCE_FIELD| == 6 && |SIGNATURE_FIELD| == 4;
    assert ps[1..] == [ps[1], ps[2], ps[3]] && ps[2..] == [ps[2], ps[3]] && ps[3..] == [ps[3]] && ps[4..] == [];
    assert ps[1..][1..] == ps[2..] && ps[2..][1..] == ps[3..] && ps[3..][1..] == ps[4..];
    assert Without(ps[3..], ENVELOPE_FIELDS) == [];
    assert Without(ps[2..], ENVELOPE_FIELDS) == [];
    assert Without(ps[1..], ENVELOPE_FIELDS) == [];
    assert [ps[0]] + [] == [Prop(AGENT_FIELD, Chars(r.agent))];
  }

  /**
   * An agent without a secret asks, registers and gets one, and asks again within a minute with a fresh signature of
   * its own: refused for want of a secret, where one verify against the stored secret accepts.
   */
  lemma RefusedRightAfterRegistering(
    mac: Mac, agent: Text, early: Request, secret: Text, other: Text, now: int, soon: int, nonce: Text)
    requires IsHexMac(mac) && agent != [] && secret != [] && nonce != [] && other != agent && early.agent == agent
    requires now <= soon < now + 60_000
    ensures var run := [Verifies(early, now), Registers(Some(agent), other, secret, now)];
      var s0 := State(map[agent := None], map[], map[]);
      var s1 := Step(mac, s0, run[0]);
      var s2 := Step(mac, s1, run[1]);
      var r := SignedRequest(mac, agent, secret, soon, nonce);
      && IsRun(mac, [s0, s1, s2], run)
      && VerifyPreconnect(mac, s2, r, soon).verdict == Rejected(NoSecret)
      && Once(mac, r, Stored(s2, agent), soon, s2.seen).verdict == Accepted
  {
    var s0 := State(map[agent := None], map[], map[]);
    NullIsCached(mac, agent, early, now);
    var s1 := Step(mac, s0, Verifies(early, now));
    var s2 := Step(mac, s1, Registers(Some(agent), other, secret, now));
    assert s2.secrets == map[agent := Some(secret)] && s2.cache == s1.cache;
    RefusedByCachedNull(mac, s2, SignedRequest(mac, agent, secret, soon, nonce), soon);
    SignedRequestPasses(mac, agent, secret, soon, nonce);
  }

  lemma NullIsCached(mac: Mac, agent: Text, early: Request, now: int)
    requires early.agent == agent
    ensures VerifyPreconnect(mac, State(map[agent := None], map[], map[]), early, now).state
      == State(map[agent := None], map[agent := Cached(None, now + 60_000)], map[])
  {
  }

  lemma RefusedByCachedNull(mac: Mac, s: State, r: Request, now: int)
    requires NullStillCached(s, r.agent, now)
    ensures VerifyPreconnect(mac, s, r, now).verdict == Rejected(NoSecret)
  {
  }

  lemma SignedRequestPasses(mac: Mac, agent: Text, secret: Text, now: int, nonce: Text)
    requires IsHexMac(mac) && secret != [] && nonce != []
    ensures Once(mac, SignedRequest(mac, agent, secret, now, nonce), Some(secret), now, map[]).verdict == Accepted
  {
    SignedRequestChecks(mac, agent, secret, now, nonce);
  }
}
