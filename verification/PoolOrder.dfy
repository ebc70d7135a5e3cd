/** tunnel/preconnect.ts: the age of idle sockets. A pool is a Set, which lists its sockets as they were added. */
module PoolOrder {
  import opened Wrappers
  import opened Texts
  import opened PreconnectPool

  /** Event i is the Hub's yes to the socket, and it was let in. */
  predicate LetInAt(states: seq<State>, run: seq<Event>, i: nat, s: Socket)
    requires |states| == |run| + 1
  {
    i < |run| && run[i] == HubAnswers(s, true) && s in states[i + 1].status && states[i + 1].status[s].Idle?
  }

  /** Before event n both were let in, the first one earlier. */
  ghost predicate LetInBefore(states: seq<State>, run: seq<Event>, n: nat, s: Socket, t: Socket)
    requires |states| == |run| + 1
  {
    exists i, j | 0 <= i < j < n :: LetInAt(states, run, i, s) && LetInAt(states, run, j, t)
  }

  ghost predicate WasLetIn(states: seq<State>, run: seq<Event>, n: nat, s: Socket)
    requires |states| == |run| + 1
  {
    exists i | 0 <= i < n :: LetInAt(states, run, i, s)
  }

  /** Every pool lists its sockets in the order they were let in. */
  ghost predicate ByAge(states: seq<State>, run: seq<Event>, n: nat, c: seq<Socket>)
    requires |states| == |run| + 1
  {
    && (forall s | s in c :: WasLetIn(states, run, n, s))
    && (forall i, j | 0 <= i < j < |c| :: LetInBefore(states, run, n, c[i], c[j]))
  }

  /** The first stands somewhere before the second. */
  ghost predicate Precedes(c: seq<Socket>, s: Socket, t: Socket) {
    exists k, m | 0 <= k < m < |c| :: c[k] == s && c[m] == t
  }

  /** `d` is `c` with some entries left out. */
  ghost predicate IsThinned(d: seq<Socket>, c: seq<Socket>) {
    (forall s | s in d :: s in c) && (forall i, j | 0 <= i < j < |d| :: Precedes(c, d[i], d[j]))
  }

  lemma PrecedesInLonger(first: Socket, rest: seq<Socket>, s: Socket, t: Socket)
    ensures Precedes(rest, s, t) ==> Precedes([first] + rest, s, t)
    ensures t in rest ==> Precedes([first] + rest, first, t)
  {
    var c := [first] + rest;
    if Precedes(rest, s, t) {
      var k, m :| 0 <= k < m < |rest| && rest[k] == s && rest[m] == t;
      assert c[k + 1] == s && c[m + 1] == t;
    }
    if t in rest {
      var m :| 0 <= m < |rest| && rest[m] == t;
      assert c[0] == first && c[m + 1] == t;
    }
  }

  lemma {:induction false} WithoutThins(c: seq<Socket>, s: Socket)
    ensures IsThinned(Without(c, s), c)
  {
    if c != [] {
      var d, rest := Without(c, s), Without(c[1..], s);
      WithoutThins(c[1..], s);
      assert c == [c[0]] + c[1..];
      forall i, j | 0 <= i < j < |d| ensures Precedes(c, d[i], d[j]) {
        var o := if c[0] != s then 1 else 0;
        assert d[j] == rest[j - o];
        assert i >= o ==> d[i] == rest[i - o];
        PrecedesInLonger(c[0], c[1..], d[i], d[j]);
      }
    }
  }

  lemma SuffixThins(c: seq<Socket>, n: nat)
    requires n <= |c|
    ensures IsThinned(c[n..], c)
  {
    var d := c[n..];
    forall i, j | 0 <= i < j < |d| ensures Precedes(c, d[i], d[j]) {
      assert c[n + i] == d[i] && c[n + j] == d[j];
    }
  }

  lemma ThinnedStaysByAge(states: seq<State>, run: seq<Event>, n: nat, c: seq<Socket>, d: seq<Socket>)
    requires |states| == |run| + 1 && n < |run| && ByAge(states, run, n, c) && IsThinned(d, c)
    ensures ByAge(states, run, n + 1, d)
  {
    forall s | s in d ensures WasLetIn(states, run, n + 1, s) {
      assert WasLetIn(states, run, n, s);
    }
    forall i, j | 0 <= i < j < |d| ensures LetInBefore(states, run, n + 1, d[i], d[j]) {
      assert Precedes(c, d[i], d[j]);
      var k, m :| 0 <= k < m < |c| && c[k] == d[i] && c[m] == d[j];
      assert LetInBefore(states, run, n, c[k], c[m]);
    }
  }

  lemma NewestLast(states: seq<State>, run: seq<Event>, n: nat, c: seq<Socket>, s: Socket)
    requires |states| == |run| + 1 && n < |run| && ByAge(states, run, n, c) && LetInAt(states, run, n, s)
    ensures ByAge(states, run, n + 1, c + [s])
  {
    var d := c + [s];
    forall t | t in d ensures WasLetIn(states, run, n + 1, t) {
      if t in c { assert WasLetIn(states, run, n, t); }
    }
    forall i, j | 0 <= i < j < |d| ensures LetInBefore(states, run, n + 1, d[i], d[j]) {
      assert d[i] == c[i];
      if j < |c| {
        assert LetInBefore(states, run, n, c[i], c[j]);
      } else {
        assert WasLetIn(states, run, n, c[i]);
      }
    }
  }

  /** What a step leaves of a pool: its sockets thinned, or one more let in at the end. */
  lemma PoolsOnlyThinOrGrow(st: State, e: Event, p: PoolId)
    requires Inv(st) && Enabled(st, e) && p in Step(st, e).objects
    ensures var was := if p in st.objects then st.objects[p].sockets else [];
      var now := Step(st, e).objects[p].sockets;
      IsThinned(now, was)
      || (e.HubAnswers? && e.ok && now == was + [e.socket] && Step(st, e).status[e.socket] == Idle(p))
  {
    var was := if p in st.objects then st.objects[p].sockets else [];
    SuffixThins(was, 0);
    assert was[0..] == was;
    match e
    case PreLine(_, _) =>
    case HubAnswers(_, _) =>
    case Closes(s) => WithoutThins(was, s);
    case Claims(a, dead) => ClaimThins(st, a, dead, p);
  }

  lemma ClaimThins(st: State, agent: Text, dead: set<Socket>, p: PoolId)
    requires Inv(st) && p in Claim(st, agent, dead).0.objects
    ensures p in st.objects && IsThinned(Claim(st, agent, dead).0.objects[p].sockets, st.objects[p].sockets)
  {
    var c := st.objects[p].sockets;
    var k := AfterClaim(st, agent, dead, p);
    SuffixThins(c, k);
  }

  /** A claim leaves a tail of every pool. */
  lemma AfterClaim(st: State, agent: Text, dead: set<Socket>, p: PoolId) returns (k: nat)
    requires p in Claim(st, agent, dead).0.objects
    ensures p in st.objects && k <= |st.objects[p].sockets|
    ensures Claim(st, agent, dead).0.objects[p].sockets == st.objects[p].sockets[k..]
  {
    var c := st.objects[p].sockets;
    if agent in st.pools && st.pools[agent] == p {
      var n := DeadPrefix(c, dead);
      k := if n < |c| then n + 1 else n;
      assert n < |c| ==> c[n..][1..] == c[n + 1..];
    } else {
      k := 0;
    }
  }

  lemma {:induction false} PoolsAreByAge(states: seq<State>, run: seq<Event>, n: nat, p: PoolId)
    requires IsTrace(states, run) && n <= |run| && p in states[n].objects
    ensures ByAge(states, run, n, states[n].objects[p].sockets)
  {
    if n > 0 {
      var st := states[n - 1];
      TraceKeepsInv(states, run, n - 1);
      PoolsOnlyThinOrGrow(st, run[n - 1], p);
      var was := if p in st.objects then st.objects[p].sockets else [];
      if p in st.objects { PoolsAreByAge(states, run, n - 1, p); }
      assert ByAge(states, run, n - 1, was);
      if IsThinned(states[n].objects[p].sockets, was) {
        ThinnedStaysByAge(states, run, n - 1, was, states[n].objects[p].sockets);
      } else {
        NewestLast(states, run, n - 1, was, run[n - 1].socket);
      }
    }
  }

  lemma IdleAreInThePool(st: State, agent: Text)
    requires Inv(st)
    ensures agent in st.pools ==>
      forall s :: s in IdleOf(st, agent) <==> s in st.objects[st.pools[agent]].sockets
    ensures agent !in st.pools ==> IdleOf(st, agent) == {}
  {
    if agent in st.pools {
      forall s | s in IdleOf(st, agent) ensures s in st.objects[st.pools[agent]].sockets {
      }
      forall s | s in st.objects[st.pools[agent]].sockets ensures s in IdleOf(st, agent) {
      }
    }
  }

  /**
   * Over every trace: a claim hands out the live idle socket of the agent that was let in first, and nothing exactly
   * if no idle socket of the agent is alive.
   */
  lemma OldestIdleIsClaimed(states: seq<State>, run: seq<Event>, n: nat, agent: Text, dead: set<Socket>)
    requires IsTrace(states, run) && n <= |run|
    ensures var idle, got := IdleOf(states[n], agent), Claim(states[n], agent, dead).1;
      && (got.None? <==> forall s | s in idle :: s in dead)
      && (got.Some? ==> got.value in idle && got.value !in dead)
      && (got.Some? ==> forall t | t in idle && t !in dead && t != got.value ::
            LetInBefore(states, run, n, got.value, t))
  {
    var st := states[n];
    TraceKeepsInv(states, run, n);
    IdleAreInThePool(st, agent);
    if agent in st.pools {
      var c := st.objects[st.pools[agent]].sockets;
      PoolsAreByAge(states, run, n, st.pools[agent]);
      FirstLive(c, dead);
      if DeadPrefix(c, dead) < |c| { FirstLiveIsOldest(states, run, n, c, dead); }
    }
  }

  lemma FirstLive(c: seq<Socket>, dead: set<Socket>)
    ensures var k := DeadPrefix(c, dead);
      if k < |c| then c[k] in c && c[k] !in dead else forall s | s in c :: s in dead
  {
  }

  lemma FirstLiveIsOldest(states: seq<State>, run: seq<Event>, n: nat, c: seq<Socket>, dead: set<Socket>)
    requires |states| == |run| + 1 && ByAge(states, run, n, c) && DeadPrefix(c, dead) < |c|
    ensures var first := c[DeadPrefix(c, dead)];
      forall t | t in c && t !in dead && t != first :: LetInBefore(states, run, n, first, t)
  {
    var k := DeadPrefix(c, dead);
    forall t | t in c && t !in dead && t != c[k] ensures LetInBefore(states, run, n, c[k], t) {
      var j: nat :| j < |c| && c[j] == t;
      assert j > k;
    }
  }

  // ------------------------------------------------- letting in, spelled out

  function Members(c: seq<Socket>): set<Socket> { set s | s in c }

  lemma {:induction false} DistinctCount(c: seq<Socket>)
    requires NoRepeats(c)
    ensures |Members(c)| == |c|
  {
    if c == [] {
      assert Members(c) == {};
    } else {
      DistinctCount(c[1..]);
      assert Members(c) == {c[0]} + Members(c[1..]) && c[0] !in c[1..];
    }
  }

  lemma IdleCount(st: State, agent: Text)
    requires Inv(st)
    ensures |IdleOf(st, agent)| == |PoolFor(st, agent).1.sockets|
  {
    IdleAreInThePool(st, agent);
    var c := PoolFor(st, agent).1.sockets;
    assert IdleOf(st, agent) == Members(c);
    DistinctCount(c);
  }

  lemma LetInJoins(st: State, s: Socket, agent: Text)
    requires Inv(st) && s in st.status && st.status[s].Verifying? && |PoolFor(st, agent).1.sockets| < 16
    ensures IdleOf(Accept(st, s, agent), agent) == IdleOf(st, agent) + {s}
  {
    AcceptKeepsInv(st, s, agent);
    IdleAreInThePool(st, agent);
    IdleAreInThePool(Accept(st, s, agent), agent);
  }

  /** A verified socket is let in exactly if its agent has fewer than 16 idle ones; else it is refused. */
  lemma LetInBelowTheLimit(st: State, s: Socket, agent: Text)
    requires Inv(st) && s in st.status && st.status[s] == Verifying(agent)
    ensures var after := Step(st, HubAnswers(s, true));
      if |IdleOf(st, agent)| < 16 then
        IdleOf(after, agent) == IdleOf(st, agent) + {s} && s in after.readers && s in after.listeners
      else after == st.(status := st.status[s := Refused])
  {
    IdleCount(st, agent);
    if |IdleOf(st, agent)| < 16 { LetInJoins(st, s, agent); }
  }

  /** And never if the Hub says no. */
  lemma RefusedByTheHub(st: State, s: Socket)
    requires s in st.status && st.status[s].Verifying?
    ensures Step(st, HubAnswers(s, false)) == st.(status := st.status[s := Refused])
  {
  }

  /** A closing idle socket leaves the pool, and no other socket does. */
  lemma CloseTakesOnlyIt(st: State, s: Socket, agent: Text)
    requires Inv(st)
    ensures IdleOf(Close(st, s), agent) == IdleOf(st, agent) - {s}
  {
    CloseKeepsInv(st, s);
    IdleAreInThePool(st, agent);
    IdleAreInThePool(Close(st, s), agent);
  }
}
