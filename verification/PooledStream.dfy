/**
 * The pooled path of tunnel/server.ts, tunnel/preconnect.ts and proxy/server.ts, seen from one agent socket: the PRE
 * line, the pause while the Hub verifies, the heartbeat reader, the claim, and the pipe to the client. Bytes arrive
 * into the stream's buffer and are read from it later, in any portions, by whoever is reading then.
 */
module PooledStream {
  import opened Wrappers
  import opened Bytes
  import opened GatewayStreams

  /** `tunnel:pre:v1` and a space. */
  const PRE_VERB: Bytes := [116, 117, 110, 110, 101, 108, 58, 112, 114, 101, 58, 118, 49, 32]

  /** TokenPath: the first line was a token, which is not this socket's story. */
  datatype Stage =
    | Opening
    | TokenPath
    | Verifying
    | Idle
    | Piped
    | Rejected

  /** `partial` is what the current line reader has of an unfinished line; `out` is what the client was sent. */
  datatype State = State(stage: Stage, unread: Bytes, partial: Bytes, pongs: nat, out: Bytes)

  const START: State := State(Opening, [], [], 0, [])

  /** Nobody reads while the socket is paused for the Hub's answer, and nobody again after a rejection. */
  predicate IsRead(stage: Stage) {
    stage.Opening? || stage.Idle? || stage.Piped?
  }

  // ---------------------------------------------------------------- the steps

  function Arrive(st: State, bytes: Bytes): State {
    st.(unread := st.unread + bytes)
  }

  function Read(st: State, n: nat): State
    requires n <= |st.unread| && IsRead(st.stage)
  {
    Take(st.(unread := st.unread[n..]), st.unread[..n])
  }

  /** The data listener of the stage gets a chunk. */
  function Take(st: State, chunk: Bytes): State
    requires IsRead(st.stage)
  {
    match st.stage
    case Opening =>
      (match FirstLine(st.partial + chunk)
       case AwaitingLine(buffer) => st.(partial := buffer)
       case GotLine(line, rest, _) =>
         st.(stage := if !(PRE_VERB <= line) then TokenPath else if rest != [] then Rejected else Verifying,
             partial := []))
    case Idle =>
      var t := st.partial + chunk;
      st.(partial := Leftover(t), pongs := st.pongs + Pings(Frames(t)))
    case Piped => st.(out := st.out + chunk)
  }

  /** The end of handlePreconnect. */
  function Answer(st: State, accepted: bool): State
    requires st.stage.Verifying?
  {
    st.(stage := if accepted then Idle else Rejected)
  }

  /** detachHeartbeat and the pipe: an unfinished frame goes with the reader's buffer. */
  function Claim(st: State): State
    requires st.stage.Idle?
  {
    st.(stage := Piped, partial := [])
  }

  // ---------------------------------------------------------------- the class

  class PreconnectSocket {
    var stage: Stage
    var unread: Bytes
    const control: ControlConnection
    const heartbeat: HeartbeatReader
    var out: Bytes

    function Partial(): Bytes
      reads this, control, heartbeat
    {
      if stage.Idle? then heartbeat.buffer else if control.state.AwaitingLine? then control.state.buffer else []
    }

    function View(): State
      reads this, control, heartbeat
    {
      State(stage, unread, Partial(), heartbeat.pongs, out)
    }

    ghost predicate Valid()
      reads this, control, heartbeat
    {
      && (stage.Opening? <==> control.state.AwaitingLine?)
      && (stage.Opening? || stage.Verifying? ==> heartbeat.buffer == [] && heartbeat.pongs == 0)
    }

    constructor ()
      ensures Valid() && View() == START && fresh(control) && fresh(heartbeat)
    {
      stage, unread, out := Opening, [], [];
      control := new ControlConnection();
      heartbeat := new HeartbeatReader();
    }

    method OnArrival(bytes: Bytes)
      requires Valid()
      modifies `unread
      ensures Valid() && View() == Arrive(old(View()), bytes)
    {
      unread := unread + bytes;
    }

    method OnReadable(n: nat)
      requires Valid() && n <= |unread| && IsRead(stage)
      modifies this, control, heartbeat
      ensures Valid() && View() == Read(old(View()), n)
    {
      var chunk := unread[..n];
      unread := unread[n..];
      if stage.Opening? {
        control.OnData(chunk);
        match control.state
        case AwaitingLine(_) =>
        case GotLine(line, rest, _) =>
          stage := if !(PRE_VERB <= line) then TokenPath else if rest != [] then Rejected else Verifying;
      } else if stage.Idle? {
        heartbeat.OnData(chunk);
      } else {
        out := out + chunk;
      }
    }

    method OnVerification(accepted: bool)
      requires Valid() && stage.Verifying?
      modifies this
      ensures Valid() && View() == Answer(old(View()), accepted)
    {
      stage := if accepted then Idle else Rejected;
    }

    method Detach()
      requires Valid() && stage.Idle?
      modifies this
      ensures Valid() && View() == Claim(old(View()))
    {
      stage := Piped;
    }
  }

  // --------------------------------------------------------------- whole runs

  datatype Event =
    | Arrives(bytes: Bytes)
    | Reads(n: nat)
    | HubAnswers(accepted: bool)
    | Claimed

  predicate Enabled(st: State, e: Event) {
    match e
    case Arrives(_) => true
    case Reads(n) => n <= |st.unread| && IsRead(st.stage)
    case HubAnswers(_) => st.stage.Verifying?
    case Claimed => st.stage.Idle?
  }

  function Step(st: State, e: Event): State
    requires Enabled(st, e)
  {
    match e
    case Arrives(bytes) => Arrive(st, bytes)
    case Reads(n) => Read(st, n)
    case HubAnswers(accepted) => Answer(st, accepted)
    case Claimed => Claim(st)
  }

  ghost predicate IsRun(states: seq<State>, run: seq<Event>) {
    && |states| == |run| + 1 && states[0] == START
    && (forall k | 0 <= k < |run| :: Enabled(states[k], run[k]) && states[k + 1] == Step(states[k], run[k]))
  }

  /** All that arrived; what the first-line reader took of it, and then the heartbeat reader. */
  datatype History = History(arrived: Bytes, opening: Bytes, beats: Bytes)

  function Note(h: History, st: State, e: Event): History
    requires Enabled(st, e)
  {
    match e
    case Arrives(bytes) => h.(arrived := h.arrived + bytes)
    case Reads(n) =>
      if st.stage.Opening? then h.(opening := h.opening + st.unread[..n])
      else if st.stage.Idle? then h.(beats := h.beats + st.unread[..n])
      else h
    case _ => h
  }

  function HistoryAt(states: seq<State>, run: seq<Event>, k: nat): History
    requires IsRun(states, run) && k <= |run|
  {
    if k == 0 then History([], [], []) else Note(HistoryAt(states, run, k - 1), states[k - 1], run[k - 1])
  }

  /** One line with its newline, naming the preconnect verb. */
  predicate IsPreLine(t: Bytes) {
    t != [] && IndexOf([LF], t) == Some(|t| - 1) && PRE_VERB <= t[..|t| - 1]
  }

  predicate StageInv(st: State, h: History) {
    match st.stage
    case Opening =>
      st.partial == h.opening && IndexOf([LF], h.opening).None? && h.beats == [] && st.pongs == 0 && st.out == []
    case Verifying => IsPreLine(h.opening) && h.beats == [] && st.partial == [] && st.pongs == 0 && st.out == []
    case Idle =>
      IsPreLine(h.opening) && st.partial == Leftover(h.beats) && st.pongs == Pings(Frames(h.beats)) && st.out == []
    case Piped => IsPreLine(h.opening) && st.pongs == Pings(Frames(h.beats))
    case _ => true
  }

  /** Every byte that arrived was taken by one reader, in order, or is unread. */
  predicate Inv(st: State, h: History) {
    h.arrived == h.opening + h.beats + st.out + st.unread && StageInv(st, h)
  }

  lemma Portion(before: Bytes, unread: Bytes, n: nat)
    requires n <= |unread|
    ensures before + unread == before + unread[..n] + unread[n..]
  {
  }

  lemma OpeningRead(st: State, h: History, n: nat)
    requires Inv(st, h) && st.stage.Opening? && n <= |st.unread|
    ensures Inv(Read(st, n), Note(h, st, Reads(n)))
  {
    var t := h.opening + st.unread[..n];
    assert h.opening + h.beats + st.out == h.opening && t + h.beats + st.out == t;
    Portion(h.opening, st.unread, n);
    var i := IndexOf([LF], t);
    if i.Some? { assert t[i.value + 1..] == [] ==> i.value == |t| - 1; }
  }

  lemma IdleRead(st: State, h: History, n: nat)
    requires Inv(st, h) && st.stage.Idle? && n <= |st.unread|
    ensures Inv(Read(st, n), Note(h, st, Reads(n)))
  {
    var chunk := st.unread[..n];
    FramesOfMore(h.beats, chunk);
    PingsOfMore(Frames(h.beats), Frames(Leftover(h.beats) + chunk));
    Portion(h.opening + h.beats, st.unread, n);
    Regroup(h.opening, h.beats, chunk);
    assert h.opening + h.beats + st.out == h.opening + h.beats;
    assert h.opening + (h.beats + chunk) + st.out == h.opening + (h.beats + chunk);
  }

  lemma PipedRead(st: State, h: History, n: nat)
    requires Inv(st, h) && st.stage.Piped? && n <= |st.unread|
    ensures Inv(Read(st, n), Note(h, st, Reads(n)))
  {
    Portion(h.opening + h.beats + st.out, st.unread, n);
    Regroup(h.opening + h.beats, st.out, st.unread[..n]);
  }

  lemma StepKeepsInv(st: State, h: History, e: Event)
    requires Inv(st, h) && Enabled(st, e)
    ensures Inv(Step(st, e), Note(h, st, e))
  {
    match e
    case Arrives(bytes) => Regroup(h.opening + h.beats + st.out, st.unread, bytes);
    case Reads(n) =>
      if st.stage.Opening? { OpeningRead(st, h, n); }
      else if st.stage.Idle? { IdleRead(st, h, n); }
      else { PipedRead(st, h, n); }
    case HubAnswers(_) => assert Frames([]) == [];
    case Claimed =>
  }

  lemma {:induction false} RunKeepsInv(states: seq<State>, run: seq<Event>, k: nat)
    requires IsRun(states, run) && k <= |run|
    ensures Inv(states[k], HistoryAt(states, run, k))
  {
    if k > 0 {
      RunKeepsInv(states, run, k - 1);
      StepKeepsInv(states[k - 1], HistoryAt(states, run, k - 1), run[k - 1]);
    }
  }

  /** A claim is for good: what the readers took before it stays as it was. */
  lemma {:induction false} ClaimIsLast(states: seq<State>, run: seq<Event>, j: nat, k: nat)
    requires IsRun(states, run) && j < k <= |run| && run[j].Claimed?
    ensures states[k].stage.Piped? && states[k].pongs == states[j].pongs
    ensures var now, first := HistoryAt(states, run, k), HistoryAt(states, run, j);
      now.opening == first.opening && now.beats == first.beats
    decreases k
  {
    if j < k - 1 { ClaimIsLast(states, run, j, k - 1); }
  }

  /**
   * For every cutting, timing and claim point: what arrived is the PRE line, then what the heartbeat reader took until
   * the claim, then what the client was sent and is still owed. Each PING line the reader took got its PONG.
   */
  lemma ClientGetsWhatFollowsTheClaim(states: seq<State>, run: seq<Event>, j: nat, k: nat)
    requires IsRun(states, run) && j < k <= |run| && run[j].Claimed?
    ensures var taken := HistoryAt(states, run, j);
      && HistoryAt(states, run, k).arrived == taken.opening + taken.beats + (states[k].out + states[k].unread)
      && IsPreLine(taken.opening) && states[j].partial == Leftover(taken.beats)
      && states[k].pongs == Pings(Frames(taken.beats))
  {
    RunKeepsInv(states, run, j);
    RunKeepsInv(states, run, k);
    ClaimIsLast(states, run, j, k);
    var taken := HistoryAt(states, run, j);
    Regroup(taken.opening + taken.beats, states[k].out, states[k].unread);
  }

  // ------------------------------------------------------------- the reply

  lemma {:induction false} LeftoverOfLines(t: Bytes)
    requires t == [] || t[|t| - 1] == LF
    ensures Leftover(t) == []
    decreases |t|
  {
    if t != [] {
      assert t[|t| - 1..|t| - 1 + 1] == [LF];
      IndexOfIsFirst([LF], t, |t| - 1);
      LeftoverOfLines(t[IndexOf([LF], t).value + 1..]);
    }
  }

  lemma TailIsReply(taken: Bytes, rest: Bytes, before: Bytes, reply: Bytes)
    requires taken + rest == before + reply && |taken| <= |before|
    ensures taken <= before && rest == before[|taken|..] + reply
    ensures rest == reply <==> |taken| == |before|
  {
    assert (taken + rest)[..|taken|] == taken && (before + reply)[..|taken|] == before[..|taken|];
    assert (taken + rest)[|taken|..] == rest && (before + reply)[|taken|..] == before[|taken|..] + reply;
    assert |rest| == |before| - |taken| + |reply|;
    assert |taken| == |before| ==> before[|taken|..] + reply == reply;
  }

  /**
   * `before` is what the agent sent until it read the OPEN line, `reply` what it sent then; the claim comes while only
   * part of `before` has arrived. The client gets what had not been read of `before`, and then the reply. That is the
   * reply alone exactly if all of `before` had been read; for an agent that sends whole lines before OPEN, exactly if
   * nothing of them was unread and the reader held no unfinished one.
   */
  lemma ReplyIsDelivered(states: seq<State>, run: seq<Event>, j: nat, k: nat, before: Bytes, reply: Bytes)
    requires IsRun(states, run) && j < k <= |run| && run[j].Claimed?
    requires HistoryAt(states, run, k).arrived == before + reply
    requires |HistoryAt(states, run, j).arrived| <= |before|
    ensures var taken := HistoryAt(states, run, j).opening + HistoryAt(states, run, j).beats;
      var delivered := states[k].out + states[k].unread;
      && taken <= before && delivered == before[|taken|..] + reply
      && (delivered == reply <==> taken == before)
      && (before != [] && before[|before| - 1] == LF ==>
            (delivered == reply <==> taken == before && states[j].partial == []))
  {
    var h := HistoryAt(states, run, j);
    RunKeepsInv(states, run, j);
    TakenArrived(states[j], h);
    ClientGetsWhatFollowsTheClaim(states, run, j, k);
    TakenAndReply(h.opening, h.beats, states[k].out + states[k].unread, before, reply);
  }

  lemma TakenArrived(st: State, h: History)
    requires Inv(st, h)
    ensures |h.opening + h.beats| <= |h.arrived|
  {
  }

  lemma TakenAndReply(opening: Bytes, beats: Bytes, rest: Bytes, before: Bytes, reply: Bytes)
    requires opening + beats + rest == before + reply && |opening + beats| <= |before|
    ensures var taken := opening + beats;
      && taken <= before && rest == before[|taken|..] + reply
      && (rest == reply <==> taken == before)
      && (before != [] && before[|before| - 1] == LF ==> (rest == reply <==> taken == before && Leftover(beats) == []))
  {
    TailIsReply(opening + beats, rest, before, reply);
    if opening + beats == before && before != [] && before[|before| - 1] == LF { NothingPartial(opening, beats); }
  }

  lemma NothingPartial(opening: Bytes, beats: Bytes)
    requires opening + beats != [] && (opening + beats)[|opening + beats| - 1] == LF
    ensures Leftover(beats) == []
  {
    assert beats != [] ==> (opening + beats)[|opening + beats| - 1] == beats[|beats| - 1];
    LeftoverOfLines(beats);
  }

  const PI: Bytes := [80, 73]
  const NG: Bytes := [78, 71, LF]

  lemma PiIsNoLine()
    ensures Frames(PI) == [] && Leftover(PI) == PI
  {
    var i := PI[1..];
    assert [LF][0] == LF && PI[0] != LF && i[0] != LF && i[1..] == [];
    assert !([LF] <= PI) && !([LF] <= i) && !([LF] <= i[1..]);
    assert IndexOf([LF], i[1..]).None?;
    assert IndexOf([LF], i).None?;
  }

  /** A claim between the halves of a PING: the first half is dropped and the second reaches the client. */
  lemma SplitPingReachesTheClient(st: State)
    requires st.stage.Idle? && st.unread == [] && st.partial == [] && st.out == []
    ensures var claimed := Claim(Read(Arrive(st, PI), 2));
      var after := Read(Arrive(claimed, NG), 3);
      PI + NG == PING + [LF] && after.out == NG && after.unread == [] && after.pongs == st.pongs
  {
    PiIsNoLine();
    var read := Read(Arrive(st, PI), 2);
    assert st.unread + PI == PI && PI[..2] == PI && st.partial + PI == PI;
    assert read.unread == [] && read.pongs == st.pongs;
    assert [] + NG == NG && NG[..3] == NG && NG[3..] == [];
  }

  lemma VerbIsSpelled()
    ensures PRE_VERB == Latin("tunnel:pre:v1 ") && PING == Latin("PING")
  {
  }

  // ------------------------------------------------- what moves the socket on

  /** The text has a first line, and this after it. */
  ghost predicate StartsWithLine(t: Bytes, line: Bytes, rest: Bytes) {
    LF !in line && t == line + ([LF] + rest)
  }

  lemma FirstLineMeans(t: Bytes, line: Bytes, rest: Bytes)
    ensures StartsWithLine(t, line, rest) <==> FirstLine(t) == GotLine(line, rest, [])
  {
    var i := IndexOf([LF], t);
    if i.Some? {
      NoneBefore(t, i.value);
      assert t == t[..i.value] + ([LF] + t[i.value + 1..]);
    }
    if StartsWithLine(t, line, rest) {
      assert t[|line|] == LF && t[|line|..|line| + 1] == [LF];
      IndexOfIsFirst([LF], t, |line|);
      assert t[i.value..i.value + 1] == [LF];
      assert t[i.value] == LF && forall k | 0 <= k < |line| :: t[k] == line[k];
      assert t[..|line|] == line && t[|line| + 1..] == rest;
    }
  }

  /** The first line is complete and is a PRE line, or is not one; and something came after it in the same chunk. */
  ghost predicate IsOpened(t: Bytes, pre: bool, more: bool) {
    exists line, rest :: StartsWithLine(t, line, rest) && IsKind(line, rest, pre, more)
  }

  ghost predicate IsKind(line: Bytes, rest: Bytes, pre: bool, more: bool) {
    (pre <==> Latin("tunnel:pre:v1 ") <= line) && (more <==> rest != [])
  }

  lemma OpenedMeans(t: Bytes, pre: bool, more: bool)
    ensures IsOpened(t, pre, more) <==>
      var st := FirstLine(t);
      st.GotLine? && (pre <==> PRE_VERB <= st.line) && (more <==> st.rest != [])
  {
    VerbIsSpelled();
    var st := FirstLine(t);
    if st.GotLine? { FirstLineMeans(t, st.line, st.rest); }
    if line, rest :| StartsWithLine(t, line, rest) && IsKind(line, rest, pre, more) {
      FirstLineMeans(t, line, rest);
    }
  }

  /** What the first-line reader has after the event. */
  ghost function OpeningText(st: State, e: Event): Bytes
    requires Enabled(st, e)
  {
    if e.Reads? && st.stage.Opening? then st.partial + st.unread[..e.n] else []
  }

  /** Each stage is entered on its own occasions and on no others. */
  lemma StagesChange(st: State, e: Event)
    requires Enabled(st, e)
    ensures var t, opening := Step(st, e), OpeningText(st, e);
      && (t.stage == Verifying && st.stage != Verifying <==> IsOpened(opening, true, false))
      && (t.stage == TokenPath && st.stage != TokenPath <==>
            IsOpened(opening, false, false) || IsOpened(opening, false, true))
      && (t.stage == Rejected && st.stage != Rejected <==> IsOpened(opening, true, true) || e == HubAnswers(false))
      && (t.stage == Idle && st.stage != Idle <==> e == HubAnswers(true))
      && (t.stage == Piped && st.stage != Piped <==> e == Claimed)
      && (t.stage == Opening ==> st.stage == Opening)
  {
    var opening := OpeningText(st, e);
    OpenedMeans(opening, true, false);
    OpenedMeans(opening, true, true);
    OpenedMeans(opening, false, false);
    OpenedMeans(opening, false, true);
    NothingOpens();
  }

  lemma NothingOpens()
    ensures FirstLine([]) == AwaitingLine([])
  {
  }
}
