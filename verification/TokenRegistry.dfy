/**
 * tunnel/registry.ts with its two call sites: sockets waiting under a one-shot token, each with a timer. One call or
 * one timer callback is one turn of the event loop. `endings` is a history of how each registration ended; a
 * registration is named by the timer it was given.
 */
module TokenRegistry {
  import opened Wrappers
  import opened Texts

  type Socket = nat
  type TimerId = nat

  datatype Entry = Entry(socket: Socket, rest: Text, timer: TimerId)

  /** Lost: its entry was removed by the timer of another registration of the same token. */
  datatype Ending = Claimed | TimedOut | Released | Lost

  datatype Ended = Ended(timer: TimerId, how: Ending)

  datatype State = State(
    live: map<Text, Entry>, pending: map<TimerId, Text>, nextTimer: TimerId, endings: seq<Ended>)

  const EMPTY: State := State(map[], map[], 0, [])

  // ----------------------------------------------------- the registry's calls

  function Register(s: State, token: Text, socket: Socket, rest: Text): State {
    s.(live := s.live[token := Entry(socket, rest, s.nextTimer)],
       pending := s.pending[s.nextTimer := token],
       nextTimer := s.nextTimer + 1)
  }

  function Claim(s: State, token: Text): (State, Option<Entry>) {
    if token !in s.live then (s, None) else (End(s, token, Claimed), Some(s.live[token]))
  }

  function Release(s: State, token: Text, socket: Socket): State {
    if token in s.live && s.live[token].socket == socket then End(s, token, Released) else s
  }

  /** The entry goes and its timer is cleared. */
  function End(s: State, token: Text, how: Ending): State
    requires token in s.live
  {
    var timer := s.live[token].timer;
    s.(live := s.live - {token}, pending := s.pending - {timer}, endings := s.endings + [Ended(timer, how)])
  }

  /** The timer callback deletes whatever now waits under its token. */
  function Fire(s: State, timer: TimerId): State
    requires timer in s.pending
  {
    var token := s.pending[timer];
    s.(live := s.live - {token}, pending := s.pending - {timer},
       endings := s.endings +
         if token !in s.live then []
         else if s.live[token].timer == timer then [Ended(timer, TimedOut)]
         else [Ended(s.live[token].timer, Lost)])
  }

  class Registry {
    var localClientSocket: map<Text, Entry>
    var timers: map<TimerId, Text>
    var nextTimer: TimerId
    ghost var endings: seq<Ended>

    ghost function View(): State
      reads this
    {
      State(localClientSocket, timers, nextTimer, endings)
    }

    constructor ()
      ensures View() == EMPTY
    {
      localClientSocket, timers, nextTimer, endings := map[], map[], 0, [];
    }

    method RegisterSocket(token: Text, socket: Socket, rest: Text)
      modifies this
      ensures View() == Register(old(View()), token, socket, rest)
    {
      var timer := nextTimer;
      nextTimer := nextTimer + 1;
      timers := timers[timer := token];
      localClientSocket := localClientSocket[token := Entry(socket, rest, timer)];
    }

    method ClaimToken(token: Text) returns (entry: Option<Entry>)
      modifies this
      ensures (View(), entry) == Claim(old(View()), token)
    {
      if token !in localClientSocket { return None; }
      entry := Some(localClientSocket[token]);
      timers := timers - {entry.value.timer};
      localClientSocket := localClientSocket - {token};
      endings := endings + [Ended(entry.value.timer, Claimed)];
    }

    method ReleaseSocket(token: Text, socket: Socket)
      modifies this
      ensures View() == Release(old(View()), token, socket)
    {
      if token in localClientSocket && localClientSocket[token].socket == socket {
        var timer := localClientSocket[token].timer;
        timers := timers - {timer};
        localClientSocket := localClientSocket - {token};
        endings := endings + [Ended(timer, Released)];
      }
    }

    method OnTimer(timer: TimerId)
      requires timer in timers
      modifies this
      ensures View() == Fire(old(View()), timer)
    {
      var token := timers[timer];
      if token in localClientSocket {
        var entry := localClientSocket[token];
        endings := endings + [if entry.timer == timer then Ended(timer, TimedOut) else Ended(entry.timer, Lost)];
      }
      timers := timers - {timer};
      localClientSocket := localClientSocket - {token};
    }

    /** tunnel/server.ts: an agent's token line pairs with the waiting socket, or waits itself. */
    method OnTokenLine(token: Text, socket: Socket, rest: Text) returns (paired: Option<Entry>)
      modifies this
      ensures (View(), paired) == AgentArrives(old(View()), token, socket, rest)
    {
      paired := ClaimToken(token);
      if paired.None? { RegisterSocket(token, socket, rest); }
    }
  }

  function AgentArrives(s: State, token: Text, socket: Socket, rest: Text): (State, Option<Entry>) {
    var (claimed, entry) := Claim(s, token);
    if entry.Some? then (claimed, entry) else (Register(s, token, socket, rest), None)
  }

  // --------------------------------------------------------------- invariant

  /** Timers and live entries correspond one to one, and every past registration ended once. */
  ghost predicate Inv(s: State) {
    && (forall t | t in s.live :: s.live[t].timer in s.pending && s.pending[s.live[t].timer] == t)
    && (forall id | id in s.pending :: s.pending[id] in s.live && s.live[s.pending[id]].timer == id)
    && (forall id: nat :: id < s.nextTimer <==> id in s.pending || HasEnded(s, id))
    && (forall i | 0 <= i < |s.endings| :: s.endings[i].timer !in s.pending)
    && (forall i, j | 0 <= i < j < |s.endings| :: s.endings[i].timer != s.endings[j].timer)
    && (forall i | 0 <= i < |s.endings| :: !s.endings[i].how.Lost?)
  }

  ghost predicate HasEnded(s: State, id: TimerId) {
    exists i :: 0 <= i < |s.endings| && s.endings[i].timer == id
  }

  lemma EndKeepsInv(s: State, token: Text, how: Ending)
    requires Inv(s) && token in s.live && !how.Lost?
    ensures Inv(End(s, token, how))
  {
    var s', timer := End(s, token, how), s.live[token].timer;
    assert s'.endings[|s.endings|].timer == timer;
    forall id: nat ensures HasEnded(s', id) <==> HasEnded(s, id) || id == timer {
      if HasEnded(s, id) {
        var i :| 0 <= i < |s.endings| && s.endings[i].timer == id;
        assert s'.endings[i].timer == id;
      }
    }
  }

  /** Registering keeps the correspondence exactly when the token is not live: otherwise a timer is left behind. */
  lemma RegisterNeedsDeadToken(s: State, token: Text, socket: Socket, rest: Text)
    requires Inv(s)
    ensures Inv(Register(s, token, socket, rest)) <==> token !in s.live
  {
    var s' := Register(s, token, socket, rest);
    assert s.nextTimer !in s.pending && !HasEnded(s, s.nextTimer);
    assert forall id :: HasEnded(s', id) <==> HasEnded(s, id);
    if token in s.live {
      var stale := s.live[token].timer;
      assert stale in s'.pending && s'.live[s'.pending[stale]].timer != stale;
    } else {
      assert forall i | 0 <= i < |s'.endings| :: HasEnded(s, s.endings[i].timer);
    }
  }

  /** What goes wrong then: the old timer takes the new registration away although it has run no time of its own. */
  lemma StaleTimerLosesTheNewcomer(s: State, token: Text, socket: Socket, rest: Text)
    requires Inv(s) && token in s.live
    ensures var again := Register(s, token, socket, rest);
      var stale := s.live[token].timer;
      && stale in again.pending
      && token !in Fire(again, stale).live
      && Fire(again, stale).endings == s.endings + [Ended(s.nextTimer, Lost)]
  {
  }

  // ------------------------------------------------------------ whole runs

  datatype Event =
    | ClientWaits(token: Text, socket: Socket, rest: Text)
    | TokenLine(token: Text, socket: Socket, rest: Text)
    | TimerFires(timer: TimerId)
    | SocketCloses(token: Text, socket: Socket)

  /** The proxy registers under a fresh UUID; only armed timers fire. */
  predicate Enabled(s: State, e: Event) {
    (e.ClientWaits? ==> e.token !in s.live) && (e.TimerFires? ==> e.timer in s.pending)
  }

  function Step(s: State, e: Event): State
    requires Enabled(s, e)
  {
    match e
    case ClientWaits(t, c, rest) => Register(s, t, c, rest)
    case TokenLine(t, a, rest) => AgentArrives(s, t, a, rest).0
    case TimerFires(id) => Fire(s, id)
    case SocketCloses(t, c) => Release(s, t, c)
  }

  ghost predicate Runs(s: State, events: seq<Event>, end: State)
    decreases |events|
  {
    if events == [] then s == end else Enabled(s, events[0]) && Runs(Step(s, events[0]), events[1..], end)
  }

  lemma StepKeepsInv(s: State, e: Event)
    requires Inv(s) && Enabled(s, e)
    ensures Inv(Step(s, e))
    ensures s.endings <= Step(s, e).endings
  {
    match e
    case ClientWaits(t, c, rest) => RegisterNeedsDeadToken(s, t, c, rest);
    case TokenLine(t, a, rest) =>
      if t in s.live { EndKeepsInv(s, t, Claimed); } else { RegisterNeedsDeadToken(s, t, a, rest); }
    case TimerFires(id) => EndKeepsInv(s, s.pending[id], TimedOut);
    case SocketCloses(t, c) =>
      if t in s.live && s.live[t].socket == c { EndKeepsInv(s, t, Released); }
  }

  lemma {:induction false} RunKeepsInv(s: State, events: seq<Event>, end: State)
    requires Inv(s) && Runs(s, events, end)
    ensures Inv(end)
    ensures s.endings <= end.endings
    decreases |events|
  {
    if events != [] {
      StepKeepsInv(s, events[0]);
      RunKeepsInv(Step(s, events[0]), events[1..], end);
    }
  }

  /**
   * Over every run: a timer is pending exactly for each live entry; a registration is waiting or has ended, never
   * both, and in one way only. So a paired socket never gets the timeout page and a timed-out one is never paired.
   */
  lemma EveryRegistrationEndsOnce(events: seq<Event>, end: State, id: TimerId)
    requires Runs(EMPTY, events, end) && id < end.nextTimer
    ensures id in end.pending <==> exists t :: t in end.live && end.live[t].timer == id
    ensures id in end.pending <==> !HasEnded(end, id)
    ensures forall i, j | 0 <= i < j < |end.endings| :: end.endings[i].timer != end.endings[j].timer
    ensures Ended(id, Lost) !in end.endings
    ensures !(Ended(id, Claimed) in end.endings && Ended(id, TimedOut) in end.endings)
    ensures !(Ended(id, Claimed) in end.endings && Ended(id, Released) in end.endings)
    ensures !(Ended(id, TimedOut) in end.endings && Ended(id, Released) in end.endings)
  {
    RunKeepsInv(EMPTY, events, end);
    if id in end.pending {
      assert end.pending[id] in end.live;
    }
  }

  // ------------------------------------------------- what the calls mean

  /** A claim hands out socket and first bytes of the one registration there is, and only once. */
  lemma ClaimMeans(s: State, token: Text)
    ensures token !in s.live ==> Claim(s, token) == (s, None)
    ensures token in s.live ==>
      var (t, entry), timer := Claim(s, token), s.live[token].timer;
      && entry == Some(Entry(s.live[token].socket, s.live[token].rest, timer))
      && t.live == s.live - {token} && t.pending == s.pending - {timer} && t.nextTimer == s.nextTimer
      && t.endings == s.endings + [Ended(timer, Claimed)]
      && Claim(t, token) == (t, None)
  {
  }

  /** A close ends the registration of its own socket; any other close changes nothing. */
  lemma ReleaseMeans(s: State, token: Text, socket: Socket)
    ensures var t := Release(s, token, socket);
      && (t == s <==> !(token in s.live && s.live[token].socket == socket))
      && (t != s ==>
            var timer := s.live[token].timer;
            t == State(s.live - {token}, s.pending - {timer}, s.nextTimer, s.endings + [Ended(timer, Released)]))
  {
    if token in s.live && s.live[token].socket == socket {
      assert |Release(s, token, socket).endings| > |s.endings|;
    }
  }

  /** The event is about this token: it names it, or is the timer of its registration. */
  predicate Concerns(s: State, e: Event, token: Text) {
    match e
    case ClientWaits(t, _, _) => t == token
    case TokenLine(t, _, _) => t == token
    case TimerFires(id) => id in s.pending && s.pending[id] == token
    case SocketCloses(t, c) => t == token && token in s.live && s.live[token].socket == c
  }

  /** Every other event leaves the registration alone. */
  lemma OthersAreLeftAlone(s: State, e: Event, token: Text)
    requires Inv(s) && Enabled(s, e) && !Concerns(s, e, token)
    ensures token in Step(s, e).live <==> token in s.live
    ensures token in s.live ==> Step(s, e).live[token] == s.live[token]
  {
  }

  /** Neither a token line nor another client, nor the closing of the socket, nor the timer of this registration. */
  predicate Spares(e: Event, token: Text, entry: Entry) {
    match e
    case ClientWaits(t, _, _) => t != token
    case TokenLine(t, _, _) => t != token
    case TimerFires(id) => id != entry.timer
    case SocketCloses(t, c) => t != token || c != entry.socket
  }

  /** A waiting client is paired with the first agent that names its token, whatever else went on in between. */
  lemma {:induction false} WaitingIsPaired(
    s: State, token: Text, entry: Entry, events: seq<Event>, end: State, agent: Socket, rest: Text)
    requires Inv(s) && token in s.live && s.live[token] == entry && Runs(s, events, end)
    requires forall i | 0 <= i < |events| :: Spares(events[i], token, entry)
    ensures AgentArrives(end, token, agent, rest).1 == Some(entry)
    ensures AgentArrives(AgentArrives(end, token, agent, rest).0, token, agent, rest).1 == None
    decreases |events|
  {
    if events != [] {
      var e := events[0];
      assert Spares(e, token, entry);
      OthersAreLeftAlone(s, e, token);
      StepKeepsInv(s, e);
      assert forall i | 0 <= i < |events[1..]| :: events[1..][i] == events[i + 1];
      WaitingIsPaired(Step(s, e), token, entry, events[1..], end, agent, rest);
    }
  }
}
