/**
 * tunnel/preconnect.ts: the idle agent sockets. A pool is an object that the `pools` map and the close listeners of
 * its sockets both hold, so pools are named by identity here. Verification by the Hub lies between PreLine and
 * HubAnswers, and anything may happen in that gap. Liveness (`destroyed || !writable`) is what the caller sees.
 */
module PreconnectPool {
  import opened Wrappers
  import opened Texts

  type Socket = nat
  type PoolId = nat

  const MAX_POOL_PER_AGENT: nat := 16

  /** History of a socket: where it stands in the hand-off. */
  datatype Status =
    | Verifying(agent: Text)
    | Idle(pool: PoolId)
    | HandedOut
    | Refused
    | Dropped

  /** A Set object: the agent its close listeners were made for, and its sockets in insertion order. */
  datatype Pool = Pool(agent: Text, sockets: seq<Socket>)

  datatype State = State(
    pools: map<Text, PoolId>,              // agent -> current pool object
    objects: map<PoolId, Pool>,            // every pool object ever made
    nextPool: PoolId,
    listeners: map<Socket, PoolId>,        // the pool object each close listener holds
    readers: set<Socket>,                  // sockets whose PINGs are being answered
    status: map<Socket, Status>,
    handedOut: seq<Socket>)

  const EMPTY: State := State(map[], map[], 0, map[], {}, map[], [])

  // -------------------------------------------------------------- the steps

  function Without(c: seq<Socket>, s: Socket): (r: seq<Socket>)
    ensures forall x :: x in r <==> x in c && x != s
    ensures |r| <= |c|
  {
    if c == [] then [] else if c[0] == s then Without(c[1..], s) else [c[0]] + Without(c[1..], s)
  }

  /** The agent's pool object as the code finds or makes it. */
  function PoolFor(st: State, agent: Text): (PoolId, Pool) {
    if agent in st.pools && st.pools[agent] in st.objects then (st.pools[agent], st.objects[st.pools[agent]])
    else (st.nextPool, Pool(agent, []))
  }

  function Accept(st: State, socket: Socket, agent: Text): State {
    var (id, pool) := PoolFor(st, agent);
    if |pool.sockets| >= MAX_POOL_PER_AGENT then st.(status := st.status[socket := Refused])
    else st.(
      pools := st.pools[agent := id],
      objects := st.objects[id := pool.(sockets := pool.sockets + [socket])],
      nextPool := if id == st.nextPool then id + 1 else st.nextPool,
      listeners := st.listeners[socket := id],
      readers := st.readers + {socket},
      status := st.status[socket := Idle(id)])
  }

  predicate IsCurrent(pools: map<Text, PoolId>, id: PoolId, agent: Text) {
    agent in pools && pools[agent] == id
  }

  function Close(st: State, socket: Socket): State {
    if socket !in st.listeners || st.listeners[socket] !in st.objects then st else
      var id := st.listeners[socket];
      var pool := st.objects[id];
      var left := Without(pool.sockets, socket);
      st.(
        objects := st.objects[id := pool.(sockets := left)],
        pools := if IsCurrent(st.pools, id, pool.agent) && left == [] then st.pools - {pool.agent} else st.pools,
        listeners := st.listeners - {socket},
        status := if socket in pool.sockets then st.status[socket := Dropped] else st.status)
  }

  /** How many sockets at the front are dead. */
  function DeadPrefix(c: seq<Socket>, dead: set<Socket>): (n: nat)
    ensures n <= |c| && (forall i | 0 <= i < n :: c[i] in dead) && (n < |c| ==> c[n] !in dead)
  {
    if c == [] || c[0] !in dead then 0 else 1 + DeadPrefix(c[1..], dead)
  }

  function Drop(status: map<Socket, Status>, c: seq<Socket>): map<Socket, Status> {
    map s | s in status :: if s in c then Dropped else status[s]
  }

  /** Taking the first `n` sockets out as dead, and then the next one if there is one. */
  function Claim(st: State, agent: Text, dead: set<Socket>): (State, Option<Socket>) {
    if agent !in st.pools || st.pools[agent] !in st.objects then (st, None) else
      var id := st.pools[agent];
      var c := st.objects[id].sockets;
      var n := DeadPrefix(c, dead);
      if n < |c| then (HandOut(Discard(st, id, c[n..], c[..n]), id, c[n]), Some(c[n]))
      else
        var emptied := Discard(st, id, [], c);
        (emptied.(pools := st.pools - {agent}), None)
  }

  function Discard(st: State, id: PoolId, left: seq<Socket>, gone: seq<Socket>): State
    requires id in st.objects
  {
    st.(objects := st.objects[id := st.objects[id].(sockets := left)], status := Drop(st.status, gone))
  }

  function HandOut(st: State, id: PoolId, socket: Socket): State
    requires id in st.objects && st.objects[id].sockets != [] && st.objects[id].sockets[0] == socket
  {
    st.(objects := st.objects[id := st.objects[id].(sockets := st.objects[id].sockets[1..])],
        readers := st.readers - {socket},
        status := st.status[socket := HandedOut],
        handedOut := st.handedOut + [socket])
  }

  // -------------------------------------------------------------- the class

  class Gateway {
    var pools: map<Text, PoolId>
    var objects: map<PoolId, Pool>
    var nextPool: PoolId
    var listeners: map<Socket, PoolId>
    var heartbeatReaders: set<Socket>
    ghost var status: map<Socket, Status>
    ghost var handedOut: seq<Socket>

    ghost function View(): State
      reads this
    {
      State(pools, objects, nextPool, listeners, heartbeatReaders, status, handedOut)
    }

    constructor ()
      ensures View() == EMPTY
    {
      pools, objects, nextPool, listeners, heartbeatReaders := map[], map[], 0, map[], {};
      status, handedOut := map[], [];
    }

    /** handlePreconnect after the Hub said ok. */
    method AcceptVerified(socket: Socket, agent: Text) returns (accepted: bool)
      modifies this
      ensures View() == Accept(old(View()), socket, agent)
      ensures accepted <==> |PoolFor(old(View()), agent).1.sockets| < MAX_POOL_PER_AGENT
    {
      var id, pool := nextPool, Pool(agent, []);
      if agent in pools && pools[agent] in objects { id, pool := pools[agent], objects[pools[agent]]; }
      if |pool.sockets| >= MAX_POOL_PER_AGENT {
        status := status[socket := Refused];
        return false;
      }
      objects := objects[id := pool.(sockets := pool.sockets + [socket])];
      pools := pools[agent := id];
      if id == nextPool { nextPool := nextPool + 1; }
      listeners := listeners[socket := id];
      heartbeatReaders := heartbeatReaders + {socket};
      status := status[socket := Idle(id)];
      return true;
    }

    method OnClose(socket: Socket)
      modifies this
      ensures View() == Close(old(View()), socket)
    {
      if socket !in listeners || listeners[socket] !in objects { return; }
      var id := listeners[socket];
      var pool := objects[id];
      var left := Without(pool.sockets, socket);
      objects := objects[id := pool.(sockets := left)];
      if IsCurrent(pools, id, pool.agent) && left == [] { pools := pools - {pool.agent}; }
      listeners := listeners - {socket};
      status := if socket in pool.sockets then status[socket := Dropped] else status;
    }

    method ClaimPreconnected(agent: Text, dead: set<Socket>) returns (claimed: Option<Socket>)
      modifies this
      ensures (View(), claimed) == Claim(old(View()), agent, dead)
    {
      if agent !in pools || pools[agent] !in objects { return None; }
      var id := pools[agent];
      ghost var c, n := objects[id].sockets, 0;
      while objects[id].sockets != []
        invariant n <= |c| && (forall i | 0 <= i < n :: c[i] in dead)
        invariant id in objects && View() == Discard(old(View()), id, c[n..], c[..n])
        decreases |c| - n
      {
        var socket := objects[id].sockets[0];
        objects := objects[id := objects[id].(sockets := objects[id].sockets[1..])];
        if socket in dead {
          status := Drop(status, [socket]);
          assert c[..n + 1] == c[..n] + [socket];
          n := n + 1;
          continue;
        }
        DeadPrefixIs(c, dead, n);
        heartbeatReaders := heartbeatReaders - {socket};
        status := status[socket := HandedOut];
        handedOut := handedOut + [socket];
        return Some(socket);
      }
      DeadPrefixIs(c, dead, n);
      assert c[..n] == c;
      pools := pools - {agent};
      return None;
    }
  }

  lemma {:induction false} DeadPrefixIs(c: seq<Socket>, dead: set<Socket>, n: nat)
    requires n <= |c| && (forall i | 0 <= i < n :: c[i] in dead) && (n < |c| ==> c[n] !in dead)
    ensures DeadPrefix(c, dead) == n
  {
    if n > 0 { DeadPrefixIs(c[1..], dead, n - 1); }
  }

  // --------------------------------------------------------------- invariant

  predicate NoRepeats(c: seq<Socket>) {
    forall i, j | 0 <= i < j < |c| :: c[i] != c[j]
  }

  /** Current pools exist, none is over the limit, and an object that is not current is empty. */
  ghost predicate PoolsInv(st: State) {
    && (forall a | a in st.pools :: st.pools[a] in st.objects && st.objects[st.pools[a]].agent == a)
    && (forall p | p in st.objects :: p < st.nextPool && |st.objects[p].sockets| <= MAX_POOL_PER_AGENT)
    && (forall p | p in st.objects :: IsCurrent(st.pools, p, st.objects[p].agent) || st.objects[p].sockets == [])
  }

  /** A socket is in a pool object, once, exactly while it is idle there. */
  ghost predicate MembersInv(st: State) {
    && (forall p | p in st.objects :: NoRepeats(st.objects[p].sockets))
    && (forall p, s | p in st.objects && s in st.objects[p].sockets :: s in st.status && st.status[s] == Idle(p))
    && (forall s | s in st.status && st.status[s].Idle? ::
          st.status[s].pool in st.objects && s in st.objects[st.status[s].pool].sockets)
  }

  /** Idle sockets are listened to; handed-out ones are no longer read; none is handed out twice. */
  ghost predicate HandOffInv(st: State) {
    && (forall s | s in st.status && st.status[s].Idle? ::
          s in st.readers && s in st.listeners && st.listeners[s] == st.status[s].pool)
    && (forall s | s in st.listeners :: st.listeners[s] in st.objects)
    && (forall s | s in st.readers :: s in st.status && !st.status[s].HandedOut?)
    && NoRepeats(st.handedOut)
    && (forall s | s in st.handedOut :: s in st.status && st.status[s].HandedOut?)
  }

  ghost predicate Inv(st: State) {
    PoolsInv(st) && MembersInv(st) && HandOffInv(st)
  }

  datatype Event =
    | PreLine(socket: Socket, agent: Text)
    | HubAnswers(socket: Socket, ok: bool)
    | Closes(socket: Socket)
    | Claims(agent: Text, dead: set<Socket>)

  /** A socket sends one first line, and is answered for once. */
  predicate Enabled(st: State, e: Event) {
    (e.PreLine? ==> e.socket !in st.status)
    && (e.HubAnswers? ==> e.socket in st.status && st.status[e.socket].Verifying?)
  }

  function Step(st: State, e: Event): State
    requires Enabled(st, e)
  {
    match e
    case PreLine(s, a) => st.(status := st.status[s := Verifying(a)])
    case HubAnswers(s, ok) =>
      if ok then Accept(st, s, st.status[s].agent) else st.(status := st.status[s := Refused])
    case Closes(s) => Close(st, s)
    case Claims(a, dead) => Claim(st, a, dead).0
  }

  lemma {:induction false} WithoutKeepsDistinct(c: seq<Socket>, s: Socket)
    requires NoRepeats(c)
    ensures NoRepeats(Without(c, s))
  {
    if c != [] {
      WithoutKeepsDistinct(c[1..], s);
      if c[0] != s {
        assert c[0] !in c[1..];
        assert Without(c, s) == [c[0]] + Without(c[1..], s);
      }
    }
  }

  lemma AcceptKeepsMembers(st: State, s: Socket, agent: Text)
    requires PoolsInv(st) && MembersInv(st) && s in st.status && st.status[s].Verifying?
    ensures MembersInv(Accept(st, s, agent))
  {
    var (id, pool) := PoolFor(st, agent);
    if |pool.sockets| < MAX_POOL_PER_AGENT {
      var st' := Accept(st, s, agent);
      assert forall q | q in pool.sockets :: q in st.status && st.status[q] == Idle(id);
      AppendKeepsDistinct(pool.sockets, s);
      IdleAreMembers(st, s, agent);
      forall p, q | p in st'.objects && q in st'.objects[p].sockets
        ensures q in st'.status && st'.status[q] == Idle(p)
      {
        assert p == id ==> q == s || q in pool.sockets;
      }
    }
  }

  lemma IdleAreMembers(st: State, s: Socket, agent: Text)
    requires PoolsInv(st) && MembersInv(st) && s in st.status && st.status[s].Verifying?
    requires |PoolFor(st, agent).1.sockets| < MAX_POOL_PER_AGENT
    ensures var st' := Accept(st, s, agent);
      forall q | q in st'.status && st'.status[q].Idle? ::
        st'.status[q].pool in st'.objects && q in st'.objects[st'.status[q].pool].sockets
  {
    var (id, pool) := PoolFor(st, agent);
    var st' := Accept(st, s, agent);
    forall q | q in st'.status && st'.status[q].Idle?
      ensures st'.status[q].pool in st'.objects && q in st'.objects[st'.status[q].pool].sockets
    {
      if q != s { assert q in st.objects[st.status[q].pool].sockets; }
    }
  }

  lemma AppendKeepsDistinct(c: seq<Socket>, s: Socket)
    requires NoRepeats(c) && s !in c
    ensures NoRepeats(c + [s])
  {
  }

  lemma AcceptKeepsPools(st: State, s: Socket, agent: Text)
    requires PoolsInv(st)
    ensures PoolsInv(Accept(st, s, agent))
  {
  }

  lemma AcceptKeepsInv(st: State, s: Socket, agent: Text)
    requires Inv(st) && s in st.status && st.status[s].Verifying?
    ensures Inv(Accept(st, s, agent))
  {
    AcceptKeepsPools(st, s, agent);
    AcceptKeepsMembers(st, s, agent);
    assert s !in st.handedOut;
  }

  lemma CloseKeepsPools(st: State, s: Socket)
    requires PoolsInv(st)
    ensures PoolsInv(Close(st, s))
  {
  }

  lemma CloseKeepsMembers(st: State, s: Socket)
    requires MembersInv(st) && HandOffInv(st)
    ensures MembersInv(Close(st, s))
  {
    if s in st.listeners {
      WithoutKeepsDistinct(st.objects[st.listeners[s]].sockets, s);
    }
  }

  lemma CloseKeepsInv(st: State, s: Socket)
    requires Inv(st)
    ensures Inv(Close(st, s))
  {
    CloseKeepsPools(st, s);
    CloseKeepsMembers(st, s);
    if s in st.listeners && s in st.objects[st.listeners[s]].sockets {
      assert s !in st.handedOut;
    }
  }

  lemma DiscardKeepsMembers(st: State, id: PoolId, n: nat)
    requires MembersInv(st) && id in st.objects && n <= |st.objects[id].sockets|
    ensures var c := st.objects[id].sockets; MembersInv(Discard(st, id, c[n..], c[..n]))
  {
    var c := st.objects[id].sockets;
    var st' := Discard(st, id, c[n..], c[..n]);
    CutSplits(c, n);
    forall p, s | p in st'.objects && s in st'.objects[p].sockets ensures s in st'.status && st'.status[s] == Idle(p) {
      assert p == id ==> s in c;
      assert s in st.objects[p].sockets;
    }
  }

  lemma CutSplits(c: seq<Socket>, n: nat)
    requires NoRepeats(c) && n <= |c|
    ensures NoRepeats(c[n..]) && forall s | s in c :: s in c[n..] <==> s !in c[..n]
    ensures forall s | s in c[..n] || s in c[n..] :: s in c
  {
    assert c == c[..n] + c[n..];
  }

  /** Dead sockets at the front leave their pool object. */
  lemma DiscardKeepsInv(st: State, id: PoolId, n: nat)
    requires Inv(st) && id in st.objects && n <= |st.objects[id].sockets|
    ensures var c := st.objects[id].sockets; Inv(Discard(st, id, c[n..], c[..n]))
  {
    DiscardKeepsMembers(st, id, n);
    var c := st.objects[id].sockets;
    forall s | s in c[..n] ensures s in c && s !in st.handedOut {
    }
  }

  lemma HandOutKeepsMembers(st: State, id: PoolId, s: Socket)
    requires MembersInv(st) && id in st.objects && st.objects[id].sockets != [] && st.objects[id].sockets[0] == s
    ensures MembersInv(HandOut(st, id, s))
  {
    var c, st' := st.objects[id].sockets, HandOut(st, id, s);
    assert c == [s] + c[1..] && s !in c[1..] && st.status[s] == Idle(id);
    forall p, q | p in st'.objects && q in st'.objects[p].sockets ensures q in st'.status && st'.status[q] == Idle(p) {
      assert q in st.objects[p].sockets && q != s;
    }
  }

  lemma HandOutKeepsInv(st: State, id: PoolId, s: Socket)
    requires Inv(st) && id in st.objects && st.objects[id].sockets != [] && st.objects[id].sockets[0] == s
    ensures Inv(HandOut(st, id, s))
  {
    HandOutKeepsMembers(st, id, s);
    assert st.status[s] == Idle(id) && s !in st.handedOut;
  }

  lemma ForgetEmptyKeepsInv(st: State, a: Text)
    requires Inv(st) && a in st.pools && st.objects[st.pools[a]].sockets == []
    ensures Inv(st.(pools := st.pools - {a}))
  {
  }

  lemma ClaimKeepsInv(st: State, a: Text, dead: set<Socket>)
    requires Inv(st)
    ensures Inv(Claim(st, a, dead).0)
  {
    if a in st.pools {
      var id := st.pools[a];
      var c := st.objects[id].sockets;
      var n := DeadPrefix(c, dead);
      DiscardKeepsInv(st, id, n);
      if n < |c| {
        HandOutKeepsInv(Discard(st, id, c[n..], c[..n]), id, c[n]);
      } else {
        assert c[n..] == [] && c[..n] == c;
        ForgetEmptyKeepsInv(Discard(st, id, [], c), a);
      }
    }
  }

  lemma RestatusKeepsInv(st: State, s: Socket, status: Status)
    requires Inv(st) && (s !in st.status || st.status[s].Verifying?) && (status.Verifying? || status.Refused?)
    ensures Inv(st.(status := st.status[s := status]))
  {
  }

  lemma StepKeepsInv(st: State, e: Event)
    requires Inv(st) && Enabled(st, e)
    ensures Inv(Step(st, e))
  {
    match e
    case PreLine(s, a) => RestatusKeepsInv(st, s, Verifying(a));
    case HubAnswers(s, ok) =>
      if ok { AcceptKeepsInv(st, s, st.status[s].agent); } else { RestatusKeepsInv(st, s, Refused); }
    case Closes(s) => CloseKeepsInv(st, s);
    case Claims(a, dead) => ClaimKeepsInv(st, a, dead);
  }

  ghost predicate Runs(st: State, events: seq<Event>, end: State)
    decreases |events|
  {
    if events == [] then st == end else Enabled(st, events[0]) && Runs(Step(st, events[0]), events[1..], end)
  }

  lemma {:induction false} RunKeepsInv(st: State, events: seq<Event>, end: State)
    requires Inv(st) && Runs(st, events, end)
    ensures Inv(end)
    decreases |events|
  {
    if events != [] {
      StepKeepsInv(st, events[0]);
      RunKeepsInv(Step(st, events[0]), events[1..], end);
    }
  }

  /** The idle sockets of an agent, in whatever pool object. */
  ghost function IdleOf(st: State, agent: Text): set<Socket> {
    set s | s in st.status && st.status[s].Idle? && st.status[s].pool in st.objects
      && st.objects[st.status[s].pool].agent == agent
  }

  lemma {:induction false} SeqBoundsSet(a: set<Socket>, c: seq<Socket>)
    requires forall s | s in a :: s in c
    ensures |a| <= |c|
  {
    if c != [] {
      SeqBoundsSet(a - {c[0]}, c[1..]);
    } else {
      assert a == {};
    }
  }

  lemma IdleIsBounded(st: State, agent: Text)
    requires PoolsInv(st) && MembersInv(st)
    ensures |IdleOf(st, agent)| <= MAX_POOL_PER_AGENT
  {
    if agent in st.pools {
      forall s | s in IdleOf(st, agent) ensures s in st.objects[st.pools[agent]].sockets {
      }
      SeqBoundsSet(IdleOf(st, agent), st.objects[st.pools[agent]].sockets);
    } else {
      assert IdleOf(st, agent) == {};
    }
  }

  /** Over all interleavings: at most 16 idle sockets an agent, abandoned pools empty, sockets handed out once. */
  lemma PoolsAreSafe(events: seq<Event>, end: State, agent: Text)
    requires Runs(EMPTY, events, end)
    ensures |IdleOf(end, agent)| <= 16
    ensures forall p | p in end.objects && p !in end.pools.Values :: end.objects[p].sockets == []
    ensures NoRepeats(end.handedOut)
    ensures forall s | s in end.handedOut :: s !in IdleOf(end, agent) && s !in end.readers
  {
    RunKeepsInv(EMPTY, events, end);
    IdleIsBounded(end, agent);
  }

  /** A claim hands out the oldest live socket and takes out exactly it and the dead ones before it. */
  lemma ClaimTakesTheOldestLive(st: State, agent: Text, dead: set<Socket>)
    requires Inv(st) && agent in st.pools
    ensures var (after, got) := Claim(st, agent, dead);
      var c, c' := st.objects[st.pools[agent]].sockets, after.objects[st.pools[agent]].sockets;
      && (got.None? <==> forall s | s in c :: s in dead)
      && (got.None? ==> c' == [] && agent !in after.pools)
      && (got.Some? ==> exists k :: 0 <= k < |c| && TakenAt(c, dead, k) && c[k] == got.value && c' == c[k + 1..])
      && (forall p | p in st.objects && p != st.pools[agent] :: after.objects[p] == st.objects[p])
  {
    var c := st.objects[st.pools[agent]].sockets;
    var n := DeadPrefix(c, dead);
    if n < |c| {
      assert c[n] in c && TakenAt(c, dead, n) && c[n..][1..] == c[n + 1..];
    }
  }

  predicate TakenAt(c: seq<Socket>, dead: set<Socket>, k: nat)
    requires k < |c|
  {
    c[k] !in dead && forall i | 0 <= i < k :: c[i] in dead
  }

  // ------------------------------------------------- dead sockets in the pool

  ghost predicate IsTrace(states: seq<State>, run: seq<Event>) {
    && |states| == |run| + 1 && states[0] == EMPTY
    && (forall k | 0 <= k < |run| :: Enabled(states[k], run[k]) && states[k + 1] == Step(states[k], run[k]))
  }

  lemma {:induction false} TraceKeepsInv(states: seq<State>, run: seq<Event>, k: nat)
    requires IsTrace(states, run) && k <= |run|
    ensures Inv(states[k])
  {
    if k > 0 {
      TraceKeepsInv(states, run, k - 1);
      StepKeepsInv(states[k - 1], run[k - 1]);
    }
  }

  /** A socket goes from unknown to verifying to idle to done, and not back. */
  function Progress(st: State, s: Socket): nat {
    if s !in st.status then 0 else if st.status[s].Verifying? then 1 else if st.status[s].Idle? then 2 else 3
  }

  lemma ClaimOnlyProgresses(st: State, agent: Text, dead: set<Socket>, s: Socket)
    requires Inv(st)
    ensures Progress(Claim(st, agent, dead).0, s) >= Progress(st, s)
  {
    if agent in st.pools {
      var c := st.objects[st.pools[agent]].sockets;
      var n := DeadPrefix(c, dead);
      assert n < |c| ==> c[n] in c;
    }
  }

  lemma StepOnlyProgresses(st: State, e: Event, s: Socket)
    requires Inv(st) && Enabled(st, e)
    ensures Progress(Step(st, e), s) >= Progress(st, s)
    ensures e == Closes(s) && Progress(st, s) == 2 ==> Progress(Step(st, e), s) == 3
  {
    if e.Claims? { ClaimOnlyProgresses(st, e.agent, e.dead, s); }
  }

  lemma TraceProgresses(states: seq<State>, run: seq<Event>, k: nat, s: Socket)
    requires IsTrace(states, run) && k < |run|
    ensures Progress(states[k], s) <= Progress(states[k + 1], s)
  {
    TraceKeepsInv(states, run, k);
    StepOnlyProgresses(states[k], run[k], s);
  }

  lemma {:induction false} Ascends(values: seq<nat>, i: nat, n: nat)
    requires i <= n < |values| && forall k | 0 < k < |values| :: values[k - 1] <= values[k]
    ensures values[i] <= values[n]
    decreases n
  {
    if i < n { Ascends(values, i, n - 1); }
  }

  lemma OnlyProgresses(states: seq<State>, run: seq<Event>, i: nat, n: nat, s: Socket)
    requires IsTrace(states, run) && i <= n <= |run|
    ensures Progress(states[n], s) >= Progress(states[i], s)
  {
    var values := seq(|states|, k requires 0 <= k < |states| => Progress(states[k], s));
    forall k | 0 < k < |values| ensures values[k - 1] <= values[k] {
      TraceProgresses(states, run, k - 1, s);
    }
    Ascends(values, i, n);
  }

  predicate HasClosed(run: seq<Event>, n: nat, s: Socket)
    requires n <= |run|
  {
    exists i | 0 <= i < n :: run[i] == Closes(s)
  }

  predicate ClosedInTheGap(states: seq<State>, run: seq<Event>, n: nat, s: Socket)
    requires n <= |run| < |states|
  {
    exists i | 0 <= i < n :: run[i] == Closes(s) && s in states[i].status && states[i].status[s].Verifying?
  }

  /**
   * A slot of the pool is held by a closed socket exactly if that socket closed while the Hub was verifying it: its
   * close listener is added too late to hear of it. (A socket closes after its PRE line.)
   */
  lemma DeadSlots(states: seq<State>, run: seq<Event>, n: nat, s: Socket)
    requires IsTrace(states, run) && n <= |run| && s in states[n].status && states[n].status[s].Idle?
    requires forall i | 0 <= i < n && run[i] == Closes(s) :: s in states[i].status
    ensures HasClosed(run, n, s) <==> ClosedInTheGap(states, run, n, s)
  {
    if HasClosed(run, n, s) {
      var i :| 0 <= i < n && run[i] == Closes(s);
      TraceKeepsInv(states, run, i);
      StepOnlyProgresses(states[i], run[i], s);
      OnlyProgresses(states, run, i, n, s);
      OnlyProgresses(states, run, i + 1, n, s);
    }
  }

  lemma IdleStep(st: State, e: Event, s: Socket)
    requires Inv(st) && Enabled(st, e) && s in st.status && st.status[s].Idle? && e != Closes(s)
    requires e.Claims? ==> e.agent != st.objects[st.status[s].pool].agent
    ensures var after := Step(st, e);
      s in after.status && after.status[s] == st.status[s]
      && after.objects[after.status[s].pool].agent == st.objects[st.status[s].pool].agent
  {
    if e.Claims? && e.agent in st.pools {
      var c := st.objects[st.pools[e.agent]].sockets;
      var n := DeadPrefix(c, e.dead);
      assert s !in c;
      assert n < |c| ==> c[n] in c;
    }
  }

  /** Having closed already it holds its slot until a claim of its agent comes by. */
  lemma {:induction false} DeadSlotsLast(states: seq<State>, run: seq<Event>, n: nat, m: nat, s: Socket)
    requires IsTrace(states, run) && n <= m <= |run| && s in states[n].status && states[n].status[s].Idle?
    requires states[n].status[s].pool in states[n].objects
    requires forall i | n <= i < m :: run[i] != Closes(s)
    requires var agent := states[n].objects[states[n].status[s].pool].agent;
      forall i | n <= i < m && run[i].Claims? :: run[i].agent != agent
    ensures s in states[m].status && states[m].status[s] == states[n].status[s]
    ensures s in IdleOf(states[m], states[n].objects[states[n].status[s].pool].agent)
    decreases m
  {
    if n < m {
      DeadSlotsLast(states, run, n, m - 1, s);
      TraceKeepsInv(states, run, m - 1);
      IdleStep(states[m - 1], run[m - 1], s);
      StepKeepsInv(states[m - 1], run[m - 1]);
    }
  }
}
