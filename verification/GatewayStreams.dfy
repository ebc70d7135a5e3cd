/**
 * The gateway's incremental readers: proxy/server.ts (request header), tunnel/server.ts (token line) and
 * tunnel/preconnect.ts (PING lines). TCP delivers chunks of any size; every theorem here says that only their
 * concatenation matters. Header names and PING are ASCII, so case and trimming are modelled on ASCII bytes.
 */
module GatewayStreams {
  import opened Wrappers
  import opened Bytes

  function Concat(chunks: seq<Bytes>): Bytes {
    if chunks == [] then [] else Concat(chunks[..|chunks| - 1]) + chunks[|chunks| - 1]
  }

  // ------------------------------------------------- the x-request-id header

  function LowerByte(b: Byte): Byte { if 65 <= b <= 90 then b + 32 else b }

  function Lower(t: Bytes): (r: Bytes)
    ensures |r| == |t| && forall i | 0 <= i < |t| :: r[i] == LowerByte(t[i])
  {
    seq(|t|, i requires 0 <= i < |t| => LowerByte(t[i]))
  }

  /** `x-request-id:` */
  const REQUEST_ID_NAME: Bytes := [120, 45, 114, 101, 113, 117, 101, 115, 116, 45, 105, 100, 58]

  predicate NamesRequestId(line: Bytes) {
    REQUEST_ID_NAME <= Lower(line)
  }

  /** The byte is this character, a letter in either case. */
  ghost predicate IsEitherCase(b: Byte, c: char) {
    b == c as int || ('a' <= c <= 'z' && b + 32 == c as int)
  }

  lemma NamesRequestIdMeans(line: Bytes)
    ensures NamesRequestId(line) <==>
      |line| >= 13 && forall i | 0 <= i < 13 :: IsEitherCase(line[i], "x-request-id:"[i])
  {
    var name := Latin("x-request-id:");
    assert name == REQUEST_ID_NAME;
    assert NamesRequestId(line) <==> |line| >= 13 && forall i | 0 <= i < 13 :: LowerByte(line[i]) == name[i];
    forall i | 0 <= i < 13 && |line| >= 13
      ensures LowerByte(line[i]) == name[i] <==> IsEitherCase(line[i], "x-request-id:"[i])
    {
    }
  }

  function RequestIdLine(id: Bytes): Bytes {
    REQUEST_ID_NAME + [32] + id
  }

  /** The header lines that are kept, in order. */
  function Others(lines: seq<Bytes>): (r: seq<Bytes>)
    ensures forall i | 0 <= i < |r| :: r[i] in lines && !NamesRequestId(r[i])
  {
    if lines == [] then []
    else if NamesRequestId(lines[0]) then Others(lines[1..])
    else [lines[0]] + Others(lines[1..])
  }

  lemma OthersFirst(line: Bytes, rest: seq<Bytes>)
    ensures Others([line] + rest) == if NamesRequestId(line) then Others(rest) else [line] + Others(rest)
  {
    assert ([line] + rest)[1..] == rest;
  }

  lemma AssocLines(a: seq<Bytes>, b: seq<Bytes>, c: seq<Bytes>)
    ensures (a + b) + c == a + (b + c)
  {
  }

  lemma {:induction false} OthersOfBoth(a: seq<Bytes>, b: seq<Bytes>)
    ensures Others(a + b) == Others(a) + Others(b)
  {
    if a == [] {
      assert a + b == b;
    } else {
      OthersOfBoth(a[1..], b);
      AssocLines([a[0]], a[1..], b);
      assert a == [a[0]] + a[1..];
      OthersFirst(a[0], a[1..] + b);
      OthersFirst(a[0], a[1..]);
      AssocLines([a[0]], Others(a[1..]), Others(b));
    }
  }

  lemma OthersOfOne(line: Bytes)
    ensures Others([line]) == if NamesRequestId(line) then [] else [line]
  {
    var one := [line];
    assert one[1..] == [];
  }

  /** `at` lists, ascending, the places of `lines` that do not name a request id. */
  ghost predicate ArePlacesOfOthers(lines: seq<Bytes>, at: seq<nat>) {
    && (forall i | 0 <= i < |at| :: at[i] < |lines|)
    && (forall i, j | 0 <= i < j < |at| :: at[i] < at[j])
    && (forall k: nat | k < |lines| :: k in at <==> !NamesRequestId(lines[k]))
  }

  predicate StandAt(lines: seq<Bytes>, kept: seq<Bytes>, at: seq<nat>) {
    |kept| == |at| && forall i | 0 <= i < |at| :: at[i] < |lines| && kept[i] == lines[at[i]]
  }

  /** The kept lines are exactly the lines that do not name a request id, in order, as often as they come. */
  ghost predicate AreTheOthers(lines: seq<Bytes>, kept: seq<Bytes>) {
    exists at: seq<nat> :: ArePlacesOfOthers(lines, at) && StandAt(lines, kept, at)
  }

  /** One line more: its place is listed if it does not name a request id. */
  lemma PlacesOfOneMore(lines: seq<Bytes>, line: Bytes, at: seq<nat>)
    requires ArePlacesOfOthers(lines, at)
    ensures ArePlacesOfOthers(lines + [line], if NamesRequestId(line) then at else at + [|lines|])
  {
    var all := lines + [line];
    assert all[|lines|] == line && forall k | 0 <= k < |lines| :: all[k] == lines[k];
  }

  lemma StandAtOneMore(lines: seq<Bytes>, line: Bytes, kept: seq<Bytes>, at: seq<nat>)
    requires StandAt(lines, kept, at)
    ensures StandAt(lines + [line], kept, at) && StandAt(lines + [line], kept + [line], at + [|lines|])
  {
  }

  lemma OthersOneMore(init: seq<Bytes>, last: Bytes, before: seq<nat>) returns (at: seq<nat>)
    requires ArePlacesOfOthers(init, before) && StandAt(init, Others(init), before)
    ensures ArePlacesOfOthers(init + [last], at) && StandAt(init + [last], Others(init + [last]), at)
  {
    PlacesOfOneMore(init, last, before);
    StandAtOneMore(init, last, Others(init), before);
    OthersOfBoth(init, [last]);
    OthersOfOne(last);
    if NamesRequestId(last) {
      assert Others(init) + [] == Others(init);
      at := before;
    } else {
      at := before + [|init|];
    }
  }

  lemma {:induction false} OthersAreTheOthers(lines: seq<Bytes>) returns (at: seq<nat>)
    ensures ArePlacesOfOthers(lines, at) && StandAt(lines, Others(lines), at)
  {
    if lines == [] {
      at := [];
    } else {
      var n := |lines| - 1;
      at := OthersAreTheOthers(lines[..n]);
      at := OthersOneMore(lines[..n], lines[n], at);
      assert lines[..n] + [lines[n]] == lines;
    }
  }

  function WithRequestIdHeader(buffer: Bytes, headerEnd: nat, id: Bytes): Bytes
    requires headerEnd + 4 <= |buffer|
  {
    var lines := SplitLines(buffer[..headerEnd]);
    JoinLines([lines[0]] + Others(lines[1..]) + [RequestIdLine(id), [], []]) + buffer[headerEnd + 4..]
  }

  lemma OtherByte(b: Byte, rest: Bytes)
    requires b != CR && IsLine(rest)
    ensures IsLine([b] + rest)
  {
    var t := [b] + rest;
    assert t[0] == b && t[1..] == rest && CRLF[0] == CR;
  }

  lemma {:induction false} NoBreakBefore(head: Bytes, t: Bytes)
    requires CR !in head && IsLine(t)
    ensures IsLine(head + t)
  {
    if head == [] {
      assert head + t == t;
    } else {
      NoBreakBefore(head[1..], t);
      OtherByte(head[0], head[1..] + t);
      assert head + t == [head[0]] + (head[1..] + t);
    }
  }

  lemma {:induction false} JoinLinesEnds(ls: seq<Bytes>)
    requires ls != []
    ensures JoinLines(ls + [[], []]) == JoinLines(ls) + HEADER_END
  {
    if |ls| == 1 {
      assert (ls + [[], []])[1..] == [[], []];
      var blank: seq<Bytes> := [[], []];
      assert JoinLines(blank) == CRLF by { assert blank[1..] == [[]]; }
      assert ls[0] + CRLF + CRLF == ls[0] + HEADER_END;
    } else {
      assert (ls + [[], []])[1..] == ls[1..] + [[], []];
      JoinLinesEnds(ls[1..]);
      assert ls[0] + CRLF + (JoinLines(ls[1..]) + HEADER_END) == JoinLines(ls) + HEADER_END;
    }
  }

  lemma {:induction false} HeaderEndAtLine(line: Bytes, body: Bytes)
    requires IsLine(line)
    ensures IndexOf(HEADER_END, line + HEADER_END + body) == Some(|line|)
  {
    var t := line + HEADER_END + body;
    if line == [] {
      assert t == HEADER_END + body;
    } else {
      assert t[1..] == line[1..] + HEADER_END + body;
      assert t == line + CRLF + (CRLF + body);
      LineEnd(line, CRLF + body);
      NoBreakNoHeaderEnd(t);
      HeaderEndAtLine(line[1..], body);
    }
  }

  predicate NonEmptyAfterFirst(ls: seq<Bytes>) {
    forall i | 1 <= i < |ls| :: ls[i] != []
  }

  lemma JoinedStartsWithItsLine(ls: seq<Bytes>, body: Bytes)
    requires ls != [] && IsLine(ls[0]) && ls[0] != []
    ensures !(CRLF <= JoinLines(ls) + HEADER_END + body)
  {
    var t := JoinLines(ls) + HEADER_END + body;
    var after := if |ls| == 1 then CRLF + body else JoinLines(ls[1..]) + HEADER_END + body;
    assert t == ls[0] + CRLF + after;
    LineEnd(ls[0], after);
  }

  /** Lines without an empty one after the first are one header, ended where they end. */
  lemma {:induction false} HeaderEndAtLines(ls: seq<Bytes>, body: Bytes)
    requires ls != [] && AreLines(ls) && NonEmptyAfterFirst(ls)
    ensures IndexOf(HEADER_END, JoinLines(ls) + HEADER_END + body) == Some(|JoinLines(ls)|)
  {
    if |ls| == 1 {
      HeaderEndAtLine(ls[0], body);
    } else {
      var rest := JoinLines(ls[1..]) + HEADER_END + body;
      assert JoinLines(ls) + HEADER_END + body == ls[0] + CRLF + rest;
      assert ls[1..][0] == ls[1];
      HeaderEndAtLines(ls[1..], body);
      JoinedStartsWithItsLine(ls[1..], body);
      HeaderEndPastLine(ls[0], rest);
    }
  }

  lemma SplitStep(t: Bytes, i: nat)
    requires IndexOf(CRLF, t) == Some(i)
    ensures t == t[..i] + CRLF + t[i + 2..] && IsLine(t[..i])
    ensures SplitLines(t) == [t[..i]] + SplitLines(t[i + 2..])
  {
    BeforeFirst(t, i);
  }

  /** If the header ends only after `more`, then `more` does not start with a line break. */
  lemma HeaderGoesOn(line: Bytes, more: Bytes)
    requires IsLine(line)
    requires IndexOf(HEADER_END, line + CRLF + (more + HEADER_END)) == Some(|line| + 2 + |more|)
    ensures !(CRLF <= more + HEADER_END) && IndexOf(HEADER_END, more + HEADER_END) == Some(|more|)
  {
    var u := more + HEADER_END;
    if CRLF <= u { BlankLineEndsHeader(line, u); }
    HeaderEndPastLine(line, u);
  }

  lemma BlankLineEndsHeader(line: Bytes, u: Bytes)
    requires CRLF <= u
    ensures IndexOf(HEADER_END, line + CRLF + u).Some? && IndexOf(HEADER_END, line + CRLF + u).value <= |line|
  {
    var t := line + CRLF + u;
    assert t[|line|..|line| + 4] == CRLF + u[..2];
    IndexOfIsFirst(HEADER_END, t, |line|);
  }

  /** Before the first blank line there is no empty header line. */
  lemma {:induction false} HeaderLinesAreNonEmpty(t: Bytes)
    requires IndexOf(HEADER_END, t + HEADER_END) == Some(|t|)
    ensures NonEmptyAfterFirst(SplitLines(t))
    decreases |t|
  {
    var i := IndexOf(CRLF, t);
    if i.Some? {
      var line, more := t[..i.value], t[i.value + 2..];
      SplitStep(t, i.value);
      HeaderRest(line, more);
      HeaderLinesAreNonEmpty(more);
      FirstLineNonEmpty(more);
      PrependLine(line, SplitLines(more));
    }
  }

  lemma HeaderRest(line: Bytes, more: Bytes)
    requires IsLine(line)
    requires IndexOf(HEADER_END, line + CRLF + more + HEADER_END) == Some(|line| + 2 + |more|)
    ensures !(CRLF <= more + HEADER_END) && IndexOf(HEADER_END, more + HEADER_END) == Some(|more|)
  {
    MoreOfHeader(line, more);
    HeaderGoesOn(line, more);
  }

  lemma MoreOfHeader(line: Bytes, more: Bytes)
    ensures line + CRLF + more + HEADER_END == line + CRLF + (more + HEADER_END)
  {
  }

  lemma PrependLine(line: Bytes, ls: seq<Bytes>)
    requires ls != [] && ls[0] != [] && NonEmptyAfterFirst(ls)
    ensures NonEmptyAfterFirst([line] + ls)
  {
  }

  lemma FirstLineNonEmpty(t: Bytes)
    requires !(CRLF <= t + HEADER_END)
    ensures SplitLines(t)[0] != []
  {
    assert |t| >= 2 ==> (t + HEADER_END)[..2] == t[..2];
  }

  lemma HeaderCut(buffer: Bytes, headerEnd: nat)
    requires IndexOf(HEADER_END, buffer) == Some(headerEnd)
    ensures IndexOf(HEADER_END, buffer[..headerEnd] + HEADER_END) == Some(headerEnd)
  {
    var cut, more := buffer[..headerEnd] + HEADER_END, buffer[headerEnd + 4..];
    assert cut + more == buffer;
    assert cut[headerEnd..headerEnd + 4] == HEADER_END;
    IndexOfIsFirst(HEADER_END, cut, headerEnd);
    IndexOfGrows(HEADER_END, cut, more);
  }

  /** The rewritten header as a line list, with its parts. */
  function RewrittenLines(buffer: Bytes, headerEnd: nat, id: Bytes): seq<Bytes>
    requires headerEnd <= |buffer|
  {
    var lines := SplitLines(buffer[..headerEnd]);
    [lines[0]] + Others(lines[1..]) + [RequestIdLine(id)]
  }

  lemma RewrittenLinesAreAHeader(buffer: Bytes, headerEnd: nat, id: Bytes)
    requires IndexOf(HEADER_END, buffer) == Some(headerEnd) && IsLine(id)
    ensures AreLines(RewrittenLines(buffer, headerEnd, id))
    ensures NonEmptyAfterFirst(RewrittenLines(buffer, headerEnd, id))
  {
    var lines := SplitLines(buffer[..headerEnd]);
    HeaderLinesAreGood(buffer, headerEnd);
    NoBreakBefore(REQUEST_ID_NAME + [32], id);
    OthersAreLines(lines[1..]);
    AssembledHeader(lines[0], Others(lines[1..]), RequestIdLine(id));
  }

  lemma HeaderLinesAreGood(buffer: Bytes, headerEnd: nat)
    requires IndexOf(HEADER_END, buffer) == Some(headerEnd)
    ensures var lines := SplitLines(buffer[..headerEnd]);
      IsLine(lines[0]) && AreLines(lines[1..]) && forall i | 0 <= i < |lines[1..]| :: lines[1..][i] != []
  {
    var lines := SplitLines(buffer[..headerEnd]);
    SplitGivesLines(buffer[..headerEnd]);
    HeaderCut(buffer, headerEnd);
    HeaderLinesAreNonEmpty(buffer[..headerEnd]);
    assert forall i | 0 <= i < |lines[1..]| :: lines[1..][i] == lines[i + 1];
  }

  lemma AssembledHeader(first: Bytes, others: seq<Bytes>, last: Bytes)
    requires IsLine(first) && IsLine(last) && last != []
    requires AreLines(others) && forall i | 0 <= i < |others| :: others[i] != []
    ensures AreLines([first] + others + [last]) && NonEmptyAfterFirst([first] + others + [last])
  {
  }

  lemma OthersAreLines(lines: seq<Bytes>)
    requires AreLines(lines) && forall i | 0 <= i < |lines| :: lines[i] != []
    ensures AreLines(Others(lines)) && forall i | 0 <= i < |Others(lines)| :: Others(lines)[i] != []
  {
    forall i | 0 <= i < |Others(lines)| ensures IsLine(Others(lines)[i]) && Others(lines)[i] != [] {
      assert Others(lines)[i] in lines;
    }
  }

  /** The first line, the others among the rest, and one line more: our request id. */
  ghost predicate IsRewrite(was: seq<Bytes>, now: seq<Bytes>, id: Bytes)
    requires was != []
  {
    |now| >= 2 && now[0] == was[0] && now[|now| - 1] == Latin("x-request-id: ") + id
    && AreTheOthers(was[1..], now[1..|now| - 1])
  }

  lemma RewrittenLinesAreRight(buffer: Bytes, headerEnd: nat, id: Bytes)
    requires headerEnd <= |buffer|
    ensures IsRewrite(SplitLines(buffer[..headerEnd]), RewrittenLines(buffer, headerEnd, id), id)
  {
    var lines := SplitLines(buffer[..headerEnd]);
    var at := OthersAreTheOthers(lines[1..]);
    assert RequestIdLine(id) == Latin("x-request-id: ") + id;
    Middle(lines[0], Others(lines[1..]), RequestIdLine(id));
  }

  lemma Middle(first: Bytes, others: seq<Bytes>, last: Bytes)
    ensures var all := [first] + others + [last];
      all[1..|all| - 1] == others && all[0] == first && all[|all| - 1] == last
  {
  }

  /**
   * What the agent reads: the request line and every header line in order, without the request ids the client sent
   * and with ours as the last one; then the untouched body.
   */
  lemma RewriteKeepsTheRequest(buffer: Bytes, headerEnd: nat, id: Bytes)
    requires IndexOf(HEADER_END, buffer) == Some(headerEnd) && IsLine(id)
    ensures var out := WithRequestIdHeader(buffer, headerEnd, id);
      var h := IndexOf(HEADER_END, out);
      && h.Some?
      && IsRewrite(SplitLines(buffer[..headerEnd]), SplitLines(out[..h.value]), id)
      && out[h.value + 4..] == buffer[headerEnd + 4..]
  {
    var ls, body := RewrittenLines(buffer, headerEnd, id), buffer[headerEnd + 4..];
    RewrittenText(buffer, headerEnd, id);
    RewrittenLinesAreAHeader(buffer, headerEnd, id);
    RewrittenLinesAreRight(buffer, headerEnd, id);
    HeaderEndAtLines(ls, body);
    SplitJoin(ls);
    AroundHeaderEnd(JoinLines(ls), body);
  }

  lemma RewrittenText(buffer: Bytes, headerEnd: nat, id: Bytes)
    requires headerEnd + 4 <= |buffer|
    ensures WithRequestIdHeader(buffer, headerEnd, id)
      == JoinLines(RewrittenLines(buffer, headerEnd, id)) + HEADER_END + buffer[headerEnd + 4..]
  {
    var first, others := SplitLines(buffer[..headerEnd])[0], Others(SplitLines(buffer[..headerEnd])[1..]);
    JoinLinesEnds(RewrittenLines(buffer, headerEnd, id));
    assert RewrittenLines(buffer, headerEnd, id) + [[], []] == [first] + others + [RequestIdLine(id), [], []];
  }

  lemma AroundHeaderEnd(head: Bytes, body: Bytes)
    ensures (head + HEADER_END + body)[..|head|] == head && (head + HEADER_END + body)[|head| + 4..] == body
  {
  }

  /** Exactly one header line names a request id: the last, which is ours. */
  lemma OneRequestId(buffer: Bytes, headerEnd: nat, id: Bytes, i: nat)
    requires headerEnd <= |buffer| && 1 <= i < |RewrittenLines(buffer, headerEnd, id)|
    ensures var ls := RewrittenLines(buffer, headerEnd, id);
      && ls[|ls| - 1] == RequestIdLine(id)
      && (NamesRequestId(ls[i]) <==> i == |ls| - 1)
  {
    var line := RequestIdLine(id);
    assert Lower(line)[..|REQUEST_ID_NAME|] == REQUEST_ID_NAME;
  }

  // -------------------------------------------------- the client connection

  /**
   * Reading until the header is complete; Refused after a request without a usable host (the listener stays, so the
   * buffer goes on growing); Paused once routed, when the stream keeps what arrives later for the pipe.
   */
  datatype ProxyState =
    | Reading(buffer: Bytes)
    | Refused(buffer: Bytes)
    | Paused(rest: Bytes, later: Bytes)

  /** `routable` is what the host header's parsing decides from the header lines. */
  function ProxyOnData(st: ProxyState, chunk: Bytes, id: Bytes, routable: seq<Bytes> -> bool): ProxyState {
    if st.Paused? then st.(later := st.later + chunk) else
      var buffer := st.buffer + chunk;
      var idx := IndexOf(HEADER_END, buffer);
      if idx.None? then Reading(buffer)
      else if !routable(SplitLines(buffer[..idx.value])) then Refused(buffer)
      else Paused(WithRequestIdHeader(buffer, idx.value, id), [])
  }

  class ProxyConnection {
    const requestId: Bytes
    var buffer: Bytes
    var ended: bool
    var paused: bool
    var later: Bytes

    function View(): ProxyState
      reads this
    {
      if paused then Paused(buffer, later) else if ended then Refused(buffer) else Reading(buffer)
    }

    constructor (requestId: Bytes)
      ensures View() == Reading([]) && this.requestId == requestId
    {
      this.requestId := requestId;
      buffer, ended, paused, later := [], false, false, [];
    }

    method OnData(chunk: Bytes, routable: seq<Bytes> -> bool)
      requires !paused && ended ==> IndexOf(HEADER_END, buffer).Some?
      modifies this
      ensures View() == ProxyOnData(old(View()), chunk, requestId, routable)
      ensures !paused && ended ==> IndexOf(HEADER_END, buffer).Some?
    {
      if paused {
        later := later + chunk;
        return;
      }
      if ended { IndexOfGrows(HEADER_END, buffer, chunk); }
      buffer := buffer + chunk;
      var idx := IndexOf(HEADER_END, buffer);
      if idx.None? { return; }
      ended := !routable(SplitLines(buffer[..idx.value]));
      if !ended {
        buffer := WithRequestIdHeader(buffer, idx.value, requestId);
        paused, later := true, [];
      }
    }
  }

  function ProxyFeed(chunks: seq<Bytes>, id: Bytes, routable: seq<Bytes> -> bool): ProxyState {
    if chunks == [] then Reading([]) else
      ProxyOnData(ProxyFeed(chunks[..|chunks| - 1], id, routable), chunks[|chunks| - 1], id, routable)
  }

  lemma RewriteCommutesWithBody(buffer: Bytes, headerEnd: nat, id: Bytes, more: Bytes)
    requires headerEnd + 4 <= |buffer|
    ensures WithRequestIdHeader(buffer + more, headerEnd, id) == WithRequestIdHeader(buffer, headerEnd, id) + more
  {
    assert (buffer + more)[..headerEnd] == buffer[..headerEnd];
    assert (buffer + more)[headerEnd + 4..] == buffer[headerEnd + 4..] + more;
  }

  /** The reader's state says just what the whole stream says: the rewrite of it, once routed. */
  predicate HasServed(st: ProxyState, whole: Bytes, id: Bytes, routable: seq<Bytes> -> bool) {
    match IndexOf(HEADER_END, whole)
    case None => st == Reading(whole)
    case Some(e) =>
      if routable(SplitLines(whole[..e])) then st.Paused? && st.rest + st.later == WithRequestIdHeader(whole, e, id)
      else st == Refused(whole)
  }

  lemma HeaderArrives(whole: Bytes, id: Bytes, routable: seq<Bytes> -> bool)
    ensures HasServed(ProxyOnData(Reading([]), whole, id, routable), whole, id, routable)
  {
    assert [] + whole == whole;
    var e := IndexOf(HEADER_END, whole);
    if e.Some? { assert WithRequestIdHeader(whole, e.value, id) + [] == WithRequestIdHeader(whole, e.value, id); }
  }

  lemma MoreAfterHeader(st: ProxyState, whole: Bytes, chunk: Bytes, id: Bytes, routable: seq<Bytes> -> bool)
    requires HasServed(st, whole, id, routable) && st.Paused?
    ensures HasServed(ProxyOnData(st, chunk, id, routable), whole + chunk, id, routable)
  {
    var e := IndexOf(HEADER_END, whole).value;
    IndexOfGrows(HEADER_END, whole, chunk);
    assert (whole + chunk)[..e] == whole[..e];
    RewriteCommutesWithBody(whole, e, id, chunk);
    assert st.rest + (st.later + chunk) == (st.rest + st.later) + chunk;
  }

  lemma ProxyStep(st: ProxyState, whole: Bytes, chunk: Bytes, id: Bytes, routable: seq<Bytes> -> bool)
    requires HasServed(st, whole, id, routable)
    ensures HasServed(ProxyOnData(st, chunk, id, routable), whole + chunk, id, routable)
  {
    if st.Paused? {
      MoreAfterHeader(st, whole, chunk, id, routable);
    } else {
      HeaderArrives(whole + chunk, id, routable);
      assert [] + (whole + chunk) == whole + chunk;
    }
  }

  /** However the client's bytes are cut, the agent is sent the rewrite of the whole, once and in order. */
  lemma {:induction false} ClientChunkingIsInvisible(chunks: seq<Bytes>, id: Bytes, routable: seq<Bytes> -> bool)
    ensures HasServed(ProxyFeed(chunks, id, routable), Concat(chunks), id, routable)
  {
    if chunks != [] {
      var before, chunk := chunks[..|chunks| - 1], chunks[|chunks| - 1];
      ClientChunkingIsInvisible(before, id, routable);
      ProxyStep(ProxyFeed(before, id, routable), Concat(before), chunk, id, routable);
    }
  }

  // ------------------------------------------------- the control connection

  /** The first line of an agent socket; afterwards the stream keeps what arrives for whoever reads it next. */
  datatype ControlState =
    | AwaitingLine(buffer: Bytes)
    | GotLine(line: Bytes, rest: Bytes, later: Bytes)

  function ControlOnData(st: ControlState, chunk: Bytes): ControlState {
    if st.GotLine? then st.(later := st.later + chunk) else FirstLine(st.buffer + chunk)
  }

  function FirstLine(buffer: Bytes): ControlState {
    var idx := IndexOf([LF], buffer);
    if idx.None? then AwaitingLine(buffer) else GotLine(buffer[..idx.value], buffer[idx.value + 1..], [])
  }

  class ControlConnection {
    var state: ControlState

    constructor ()
      ensures state == AwaitingLine([])
    {
      state := AwaitingLine([]);
    }

    method OnData(chunk: Bytes)
      modifies this
      ensures state == ControlOnData(old(state), chunk)
    {
      match state
      case GotLine(line, rest, later) => state := GotLine(line, rest, later + chunk);
      case AwaitingLine(buffer) =>
        var idx := IndexOf([LF], buffer + chunk);
        if idx.None? {
          state := AwaitingLine(buffer + chunk);
        } else {
          state := GotLine((buffer + chunk)[..idx.value], (buffer + chunk)[idx.value + 1..], []);
        }
    }
  }

  function ControlFeed(chunks: seq<Bytes>): ControlState {
    if chunks == [] then AwaitingLine([]) else
      ControlOnData(ControlFeed(chunks[..|chunks| - 1]), chunks[|chunks| - 1])
  }

  lemma FirstLineGrows(t: Bytes, more: Bytes, i: nat)
    requires IndexOf([LF], t) == Some(i)
    ensures IndexOf([LF], t + more) == Some(i)
    ensures (t + more)[..i] == t[..i] && (t + more)[i + 1..] == t[i + 1..] + more
  {
    IndexOfGrows([LF], t, more);
  }

  /** The reader's state says just what the whole stream says. */
  predicate HasRead(st: ControlState, whole: Bytes) {
    match IndexOf([LF], whole)
    case None => st == AwaitingLine(whole)
    case Some(i) => st.GotLine? && st.line == whole[..i] && st.rest + st.later == whole[i + 1..]
  }

  lemma ControlStep(st: ControlState, whole: Bytes, chunk: Bytes)
    requires HasRead(st, whole)
    ensures HasRead(ControlOnData(st, chunk), whole + chunk)
  {
    var i := IndexOf([LF], whole);
    if i.Some? {
      FirstLineGrows(whole, chunk, i.value);
      assert st.rest + (st.later + chunk) == (st.rest + st.later) + chunk;
    } else {
      LineArrives(whole + chunk);
    }
  }

  lemma LineArrives(whole: Bytes)
    ensures HasRead(FirstLine(whole), whole)
  {
    var st := FirstLine(whole);
    if st.GotLine? { assert st.rest + [] == st.rest; }
  }

  /** However the agent's bytes are cut, its first line and everything after it are those of the whole. */
  lemma {:induction false} AgentChunkingIsInvisible(chunks: seq<Bytes>)
    ensures HasRead(ControlFeed(chunks), Concat(chunks))
  {
    if chunks != [] {
      AgentChunkingIsInvisible(chunks[..|chunks| - 1]);
      ControlStep(ControlFeed(chunks[..|chunks| - 1]), Concat(chunks[..|chunks| - 1]), chunks[|chunks| - 1]);
    }
  }

  /** What a pairing writes to each side: first what was buffered, then what the pipe carries. */
  function ToAgent(client: ProxyState): Bytes
    requires client.Paused?
  {
    client.rest + client.later
  }

  function ToClient(agent: ControlState): Bytes
    requires agent.GotLine?
  {
    agent.rest + agent.later
  }

  /**
   * The token path: the agent gets the rewritten request, the client everything the agent sent after its token line,
   * whatever the chunks on either side.
   */
  lemma BothDirectionsAreDelivered(
    clientChunks: seq<Bytes>, agentChunks: seq<Bytes>, id: Bytes, routable: seq<Bytes> -> bool)
    requires ProxyFeed(clientChunks, id, routable).Paused? && ControlFeed(agentChunks).GotLine?
    ensures var sent := Concat(clientChunks);
      IndexOf(HEADER_END, sent).Some?
      && ToAgent(ProxyFeed(clientChunks, id, routable))
           == WithRequestIdHeader(sent, IndexOf(HEADER_END, sent).value, id)
    ensures var answered := Concat(agentChunks);
      IndexOf([LF], answered).Some?
      && ToClient(ControlFeed(agentChunks)) == answered[IndexOf([LF], answered).value + 1..]
  {
    ClientChunkingIsInvisible(clientChunks, id, routable);
    AgentChunkingIsInvisible(agentChunks);
  }

  /** The pooled path's way to the agent: the OPEN line is written first. */
  lemma RequestFollowsOpen(
    clientChunks: seq<Bytes>, id: Bytes, routable: seq<Bytes> -> bool, openLine: Bytes)
    requires ProxyFeed(clientChunks, id, routable).Paused?
    ensures var client, sent := ProxyFeed(clientChunks, id, routable), Concat(clientChunks);
      IndexOf(HEADER_END, sent).Some?
      && openLine + client.rest + client.later
           == openLine + WithRequestIdHeader(sent, IndexOf(HEADER_END, sent).value, id)
  {
    ClientChunkingIsInvisible(clientChunks, id, routable);
    var client := ProxyFeed(clientChunks, id, routable);
    assert openLine + client.rest + client.later == openLine + (client.rest + client.later);
  }

  // ---------------------------------------------------------- the heartbeat

  predicate IsSpace(b: Byte) { 9 <= b <= 13 || b == 32 }

  function Trim(t: Bytes): Bytes
    decreases |t|
  {
    if t == [] then []
    else if IsSpace(t[0]) then Trim(t[1..])
    else if IsSpace(t[|t| - 1]) then Trim(t[..|t| - 1])
    else t
  }

  const PING: Bytes := [80, 73, 78, 71]

  /** The complete lines of a stream, and what follows its last newline. */
  function Frames(t: Bytes): seq<Bytes>
    decreases |t|
  {
    var i := IndexOf([LF], t);
    if i.None? then [] else [t[..i.value]] + Frames(t[i.value + 1..])
  }

  function Leftover(t: Bytes): Bytes
    decreases |t|
  {
    var i := IndexOf([LF], t);
    if i.None? then t else Leftover(t[i.value + 1..])
  }

  function Pings(frames: seq<Bytes>): nat {
    if frames == [] then 0 else (if Trim(frames[0]) == PING then 1 else 0) + Pings(frames[1..])
  }

  class HeartbeatReader {
    var buffer: Bytes
    var pongs: nat

    constructor ()
      ensures buffer == [] && pongs == 0
    {
      buffer, pongs := [], 0;
    }

    method OnData(chunk: Bytes)
      modifies this
      ensures buffer == Leftover(old(buffer) + chunk)
      ensures pongs == old(pongs) + Pings(Frames(old(buffer) + chunk))
    {
      buffer := buffer + chunk;
      while true
        invariant Leftover(buffer) == Leftover(old(buffer) + chunk)
        invariant pongs + Pings(Frames(buffer)) == old(pongs) + Pings(Frames(old(buffer) + chunk))
        decreases |buffer|
      {
        var index := IndexOf([LF], buffer);
        if index.None? { return; }
        var line := Trim(buffer[..index.value]);
        assert Frames(buffer) == [buffer[..index.value]] + Frames(buffer[index.value + 1..]);
        buffer := buffer[index.value + 1..];
        if line == PING { pongs := pongs + 1; }
      }
    }
  }

  lemma FramesAt(t: Bytes, i: nat)
    requires IndexOf([LF], t) == Some(i)
    ensures Frames(t) == [t[..i]] + Frames(t[i + 1..]) && Leftover(t) == Leftover(t[i + 1..])
  {
  }

  lemma NoFrames(t: Bytes)
    requires IndexOf([LF], t).None?
    ensures Frames(t) == [] && Leftover(t) == t
  {
  }

  lemma {:induction false} FramesOfMore(a: Bytes, b: Bytes)
    ensures Frames(a + b) == Frames(a) + Frames(Leftover(a) + b)
    ensures Leftover(a + b) == Leftover(Leftover(a) + b)
    decreases |a|
  {
    var i := IndexOf([LF], a);
    if i.Some? {
      FramesOfMore(a[i.value + 1..], b);
      FramesPastOne(a, b, i.value, a[i.value + 1..]);
    } else {
      NoFrames(a);
      assert [] + Frames(a + b) == Frames(a + b);
    }
  }

  lemma FramesPastOne(a: Bytes, b: Bytes, i: nat, rest: Bytes)
    requires IndexOf([LF], a) == Some(i) && rest == a[i + 1..]
    requires Frames(rest + b) == Frames(rest) + Frames(Leftover(rest) + b)
    requires Leftover(rest + b) == Leftover(Leftover(rest) + b)
    ensures Frames(a + b) == Frames(a) + Frames(Leftover(a) + b) && Leftover(a + b) == Leftover(Leftover(a) + b)
  {
    FirstLineGrows(a, b, i);
    FramesAt(a, i);
    FramesAt(a + b, i);
    AssocLines([a[..i]], Frames(rest), Frames(Leftover(rest) + b));
  }

  lemma {:induction false} PingsOfMore(a: seq<Bytes>, b: seq<Bytes>)
    ensures Pings(a + b) == Pings(a) + Pings(b)
  {
    if a == [] {
      assert a + b == b;
    } else {
      assert (a + b)[1..] == a[1..] + b;
      PingsOfMore(a[1..], b);
    }
  }

  datatype Heartbeat = Heartbeat(buffer: Bytes, pongs: nat)

  function HeartbeatFeed(chunks: seq<Bytes>): Heartbeat {
    if chunks == [] then Heartbeat([], 0) else
      var h := HeartbeatFeed(chunks[..|chunks| - 1]);
      var t := h.buffer + chunks[|chunks| - 1];
      Heartbeat(Leftover(t), h.pongs + Pings(Frames(t)))
  }

  /** One PONG for each PING line of the whole stream, however it was cut. */
  lemma {:induction false} PongsAnswerThePings(chunks: seq<Bytes>)
    ensures HeartbeatFeed(chunks) == Heartbeat(Leftover(Concat(chunks)), Pings(Frames(Concat(chunks))))
  {
    if chunks != [] {
      var before, chunk := chunks[..|chunks| - 1], chunks[|chunks| - 1];
      PongsAnswerThePings(before);
      FramesOfMore(Concat(before), chunk);
      PingsOfMore(Frames(Concat(before)), Frames(Leftover(Concat(before)) + chunk));
    }
  }

  // ------------------------------------------------- frames and pings, spelled out

  /** The frames with their newlines again. */
  function Ended(frames: seq<Bytes>): Bytes {
    if frames == [] then [] else frames[0] + [LF] + Ended(frames[1..])
  }

  /** The stream is its newline-free frames, each with its newline, and a newline-free rest. */
  lemma FramesAreLines(t: Bytes)
    ensures t == Ended(Frames(t)) + Leftover(t) && LF !in Leftover(t)
    ensures forall f | f in Frames(t) :: LF !in f
  {
    FramesMakeTheStream(t);
    FramesHaveNoNewline(t);
  }

  lemma {:induction false} FramesMakeTheStream(t: Bytes)
    ensures t == Ended(Frames(t)) + Leftover(t)
    decreases |t|
  {
    var i := IndexOf([LF], t);
    if i.Some? {
      FramesMakeTheStream(t[i.value + 1..]);
      FrameAndRest(t, i.value);
    } else {
      NoFrames(t);
      assert [] + t == t;
    }
  }

  lemma {:induction false} FramesHaveNoNewline(t: Bytes)
    ensures LF !in Leftover(t) && forall f | f in Frames(t) :: LF !in f
    decreases |t|
  {
    var i := IndexOf([LF], t);
    if i.Some? {
      FramesHaveNoNewline(t[i.value + 1..]);
      NoneBefore(t, i.value);
      FramesAt(t, i.value);
    } else {
      NoNewline(t);
      NoFrames(t);
    }
  }

  lemma NoNewline(t: Bytes)
    requires IndexOf([LF], t).None?
    ensures LF !in t
  {
    if LF in t { NewlineIsFound(t); }
  }

  lemma FrameAndRest(t: Bytes, i: nat)
    requires IndexOf([LF], t) == Some(i)
    requires t[i + 1..] == Ended(Frames(t[i + 1..])) + Leftover(t[i + 1..])
    ensures t == Ended(Frames(t)) + Leftover(t)
  {
    EndedFirst(t[..i], Frames(t[i + 1..]));
    CutAt(t, i);
    Regroup(t[..i] + [LF], Ended(Frames(t[i + 1..])), Leftover(t[i + 1..]));
  }

  lemma CutAt(t: Bytes, i: nat)
    requires i < |t| && t[i] == LF
    ensures t == t[..i] + [LF] + t[i + 1..]
  {
  }

  lemma Regroup(a: Bytes, b: Bytes, c: Bytes)
    ensures a + b + c == a + (b + c)
  {
  }

  lemma EndedFirst(frame: Bytes, frames: seq<Bytes>)
    ensures Ended([frame] + frames) == frame + [LF] + Ended(frames)
  {
    assert ([frame] + frames)[1..] == frames;
  }

  lemma NewlineIsFound(t: Bytes)
    requires LF in t
    ensures IndexOf([LF], t).Some?
  {
    var i: nat :| i < |t| && t[i] == LF;
    assert t[i..i + 1] == [LF];
    IndexOfIsFirst([LF], t, i);
  }

  lemma NoneBefore(t: Bytes, i: nat)
    requires IndexOf([LF], t) == Some(i)
    ensures LF !in t[..i]
  {
    if LF in t[..i] {
      var k: nat :| k < i && t[k] == LF;
      assert t[k..k + 1] == [LF];
      IndexOfIsFirst([LF], t, k);
    }
  }

  lemma {:induction false} TrimSpaces(before: Bytes, t: Bytes, after: Bytes)
    requires (forall b | b in before + after :: IsSpace(b)) && t != [] && !IsSpace(t[0]) && !IsSpace(t[|t| - 1])
    ensures Trim(before + t + after) == t
    decreases |before| + |after|
  {
    var s := before + t + after;
    if before != [] {
      assert before[0] in before + after && s[0] == before[0] && s[1..] == before[1..] + t + after;
      assert forall b | b in before[1..] + after :: b in before + after;
      TrimSpaces(before[1..], t, after);
    } else if after != [] {
      var n := |after| - 1;
      assert after[n] in before + after;
      assert s[0] == t[0] && s[|s| - 1] == after[n] && s[..|s| - 1] == before + t + after[..n];
      assert forall b | b in before + after[..n] :: b in before + after;
      TrimSpaces(before, t, after[..n]);
    } else {
      assert s == t;
    }
  }

  predicate IsPing(frame: Bytes) {
    Trim(frame) == Latin("PING")
  }

  /** The places of the PING lines. */
  function PingPlaces(frames: seq<Bytes>): set<nat> {
    set i: nat | i < |frames| && IsPing(frames[i])
  }

  /** As many pongs as there are PING lines. */
  lemma {:induction false} PingsAreCounted(frames: seq<Bytes>)
    ensures Pings(frames) == |PingPlaces(frames)|
  {
    assert PING == Latin("PING");
    if frames != [] {
      var n := |frames| - 1;
      PingsAreCounted(frames[..n]);
      assert frames == frames[..n] + [frames[n]];
      PingsOfMore(frames[..n], [frames[n]]);
      var last := [frames[n]];
      assert last[1..] == [];
      assert forall i: nat | i < n :: frames[..n][i] == frames[i];
      assert PingPlaces(frames) == PingPlaces(frames[..n]) + if IsPing(frames[n]) then {n as nat} else {};
    }
  }
}
