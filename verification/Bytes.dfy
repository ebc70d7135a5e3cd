/** Byte buffers as the gateway searches, splits and joins them. */
module Bytes {
  import opened Wrappers

  type Byte = b: int | 0 <= b < 256

  type Bytes = seq<Byte>

  const CR: Byte := 13
  const LF: Byte := 10
  const CRLF: Bytes := [CR, LF]
  const HEADER_END: Bytes := [CR, LF, CR, LF]

  /** Buffer#indexOf. */
  function IndexOf(p: Bytes, t: Bytes): (i: Option<nat>)
    ensures i.Some? ==> i.value + |p| <= |t| && t[i.value..i.value + |p|] == p
  {
    if p <= t then Some(0)
    else if t == [] then None
    else
      var i := IndexOf(p, t[1..]);
      if i.None? then None else Some(i.value + 1)
  }

  lemma {:induction false} IndexOfIsFirst(p: Bytes, t: Bytes, i: nat)
    requires i + |p| <= |t| && t[i..i + |p|] == p
    ensures IndexOf(p, t).Some? && IndexOf(p, t).value <= i
  {
    if i == 0 {
      assert t[..|p|] == p;
    } else if !(p <= t) {
      assert t[1..][i - 1..i - 1 + |p|] == p;
      IndexOfIsFirst(p, t[1..], i - 1);
    }
  }

  /** What has been found stays where it is as the buffer grows. */
  lemma {:induction false} IndexOfGrows(p: Bytes, t: Bytes, more: Bytes)
    requires IndexOf(p, t).Some?
    ensures IndexOf(p, t + more) == IndexOf(p, t)
  {
    if !(p <= t) {
      IndexOfGrows(p, t[1..], more);
      assert (t + more)[1..] == t[1..] + more;
      IndexOfIsFirst(p, t + more, IndexOf(p, t).value);
    }
  }

  predicate IsLine(t: Bytes) {
    IndexOf(CRLF, t).None?
  }

  /** The first CRLF after a line is the one that ends it, also when the line ends in CR. */
  lemma {:induction false} LineEnd(line: Bytes, rest: Bytes)
    requires IsLine(line)
    ensures IndexOf(CRLF, line + CRLF + rest) == Some(|line|)
  {
    var t := line + CRLF + rest;
    if line != [] {
      assert t[1..] == line[1..] + CRLF + rest;
      LineEnd(line[1..], rest);
      assert !(CRLF <= line) && t[0] == line[0] && t[1] == if |line| > 1 then line[1] else CR;
    } else {
      assert t == CRLF + rest;
    }
  }

  /** Split on CRLF; never empty. */
  function SplitLines(t: Bytes): (ls: seq<Bytes>)
    ensures ls != []
    decreases |t|
  {
    var i := IndexOf(CRLF, t);
    if i.None? then [t] else [t[..i.value]] + SplitLines(t[i.value + 2..])
  }

  function JoinLines(ls: seq<Bytes>): Bytes
    requires ls != []
  {
    if |ls| == 1 then ls[0] else ls[0] + CRLF + JoinLines(ls[1..])
  }

  predicate AreLines(ls: seq<Bytes>) {
    forall i | 0 <= i < |ls| :: IsLine(ls[i])
  }

  lemma SplitAtBreak(line: Bytes, rest: Bytes)
    requires IsLine(line)
    ensures SplitLines(line + CRLF + rest) == [line] + SplitLines(rest)
  {
    LineEnd(line, rest);
    AroundBreak(line, rest);
  }

  lemma AroundBreak(line: Bytes, rest: Bytes)
    ensures (line + CRLF + rest)[..|line|] == line && (line + CRLF + rest)[|line| + 2..] == rest
  {
  }

  lemma {:induction false} SplitJoin(ls: seq<Bytes>)
    requires ls != [] && AreLines(ls)
    ensures SplitLines(JoinLines(ls)) == ls
  {
    if |ls| > 1 {
      SplitAtBreak(ls[0], JoinLines(ls[1..]));
      SplitJoin(ls[1..]);
      assert ls == [ls[0]] + ls[1..];
    }
  }

  lemma {:induction false} SplitGivesLines(t: Bytes)
    ensures AreLines(SplitLines(t))
    decreases |t|
  {
    var i := IndexOf(CRLF, t);
    if i.Some? {
      SplitGivesLines(t[i.value + 2..]);
      BeforeFirst(t, i.value);
    }
  }

  /** Nothing is found before the first occurrence. */
  lemma BeforeFirst(t: Bytes, i: nat)
    requires IndexOf(CRLF, t) == Some(i)
    ensures IsLine(t[..i])
  {
    assert t[..i] + t[i..] == t;
    if IndexOf(CRLF, t[..i]).Some? {
      IndexOfGrows(CRLF, t[..i], t[i..]);
    }
  }

  lemma NoBreakNoHeaderEnd(t: Bytes)
    requires !(CRLF <= t) && t != []
    ensures IndexOf(HEADER_END, t) ==
      match IndexOf(HEADER_END, t[1..]) case None => None case Some(i) => Some(1 + i)
  {
    if HEADER_END <= t { HeaderEndStartsWithBreak(t); }
  }

  lemma HeaderEndStartsWithBreak(t: Bytes)
    requires HEADER_END <= t
    ensures CRLF <= t && CRLF <= t[2..]
  {
    assert t[..4] == HEADER_END && t[0] == CR && t[1] == LF && t[2] == CR && t[3] == LF;
  }

  lemma SkipByte(t: Bytes)
    requires t != [] && !(HEADER_END <= t)
    ensures IndexOf(HEADER_END, t) ==
      match IndexOf(HEADER_END, t[1..]) case None => None case Some(i) => Some(1 + i)
  {
  }

  lemma HeaderEndPastBreak(rest: Bytes)
    requires !(CRLF <= rest)
    ensures IndexOf(HEADER_END, CRLF + rest) ==
      match IndexOf(HEADER_END, rest) case None => None case Some(i) => Some(2 + i)
  {
    var t, u := CRLF + rest, [LF] + rest;
    assert t[1..] == u && u[1..] == rest;
    assert t[2..] == rest;
    if HEADER_END <= t { HeaderEndStartsWithBreak(t); }
    SkipByte(u);
    SkipByte(t);
  }

  lemma LineTail(line: Bytes, rest: Bytes)
    requires IsLine(line) && line != []
    ensures (line + CRLF + rest)[1..] == line[1..] + CRLF + rest && IsLine(line[1..])
    ensures !(CRLF <= line + CRLF + rest)
  {
    LineEnd(line, rest);
  }

  /** Looking past a line for the end of the header. */
  lemma {:induction false} HeaderEndPastLine(line: Bytes, rest: Bytes)
    requires IsLine(line) && !(CRLF <= rest)
    ensures IndexOf(HEADER_END, line + CRLF + rest) ==
      match IndexOf(HEADER_END, rest) case None => None case Some(i) => Some(|line| + 2 + i)
  {
    if line == [] {
      HeaderEndPastBreak(rest);
      assert [] + CRLF + rest == CRLF + rest;
    } else {
      LineTail(line, rest);
      HeaderEndPastLine(line[1..], rest);
      NoBreakNoHeaderEnd(line + CRLF + rest);
    }
  }

  /** A text of one byte a character. */
  function Latin(s: string): (r: Bytes)
    requires forall i | 0 <= i < |s| :: s[i] as int < 256
    ensures |r| == |s| && forall i | 0 <= i < |s| :: r[i] == s[i] as int
  {
    seq(|s|, i requires 0 <= i < |s| => s[i] as int)
  }
}
