/** JavaScript strings as sequences of UTF-16 code units, their default sort order, and decimal numerals. */
module Texts {

  type CodeUnit = u: int | 0 <= u < 0x1_0000

  type Text = seq<CodeUnit>

  const NEWLINE: CodeUnit := 10
  const DOT: CodeUnit := 46
  const ZERO: CodeUnit := 48
  const MINUS: CodeUnit := 45

  predicate IsAscii(s: string) {
    forall i | 0 <= i < |s| :: s[i] as int < 128
  }

  /** An ASCII literal as code units. */
  function Ascii(s: string): (t: Text)
    requires IsAscii(s)
    ensures |t| == |s| && forall i | 0 <= i < |s| :: t[i] == s[i] as int
  {
    seq(|s|, i requires 0 <= i < |s| => s[i] as int)
  }

  // --------------------------------------------------------------- trimming and case

  /** White space and line terminators, sections 12.2 and 12.3 of ECMA-262. */
  predicate IsSpace(u: CodeUnit) {
    9 <= u <= 13 || u == 32 || u == 0xA0 || u == 0x1680 || 0x2000 <= u <= 0x200A
    || u == 0x2028 || u == 0x2029 || u == 0x202F || u == 0x205F || u == 0x3000 || u == 0xFEFF
  }

  /** String#trim. */
  function Trim(t: Text): (r: Text)
    ensures r != [] ==> !IsSpace(r[0]) && !IsSpace(r[|r| - 1])
    decreases |t|
  {
    if t == [] then []
    else if IsSpace(t[0]) then Trim(t[1..])
    else if IsSpace(t[|t| - 1]) then Trim(t[..|t| - 1])
    else t
  }

  predicate IsBlank(t: Text) {
    forall i | 0 <= i < |t| :: IsSpace(t[i])
  }

  predicate IsTrimmed(t: Text) {
    t != [] && !IsSpace(t[0]) && !IsSpace(t[|t| - 1])
  }

  lemma {:induction false} TrimBlanks(before: Text, t: Text, after: Text)
    requires IsBlank(before) && IsTrimmed(t) && IsBlank(after)
    ensures Trim(before + t + after) == t
    decreases |before| + |after|
  {
    var s := before + t + after;
    if before != [] {
      assert s[0] == before[0] && s[1..] == before[1..] + t + after;
      TrimBlanks(before[1..], t, after);
    } else if after != [] {
      var n := |after| - 1;
      assert s[0] == t[0] && s[|s| - 1] == after[n] && s[..|s| - 1] == before + t + after[..n];
      TrimBlanks(before, t, after[..n]);
    } else {
      assert s == t;
    }
  }

  lemma AddedBefore(t: Text, before: Text, core: Text, after: Text)
    requires t != [] && t[1..] == before + core + after && IsSpace(t[0]) && IsBlank(before)
    ensures t == [t[0]] + before + core + after && IsBlank([t[0]] + before)
  {
    assert t == [t[0]] + t[1..];
  }

  lemma AddedAfter(t: Text, before: Text, core: Text, after: Text)
    requires t != [] && t[..|t| - 1] == before + core + after && IsSpace(t[|t| - 1]) && IsBlank(after)
    ensures t == before + core + (after + [t[|t| - 1]]) && IsBlank(after + [t[|t| - 1]])
  {
    assert t == t[..|t| - 1] + [t[|t| - 1]];
  }

  /** Every text is blanks around what trimming leaves. */
  lemma {:induction false} TrimCuts(t: Text) returns (before: Text, after: Text)
    ensures IsBlank(before) && IsBlank(after) && t == before + Trim(t) + after
    decreases |t|
  {
    if t == [] {
      before, after := [], [];
    } else if IsSpace(t[0]) {
      before, after := TrimCuts(t[1..]);
      AddedBefore(t, before, Trim(t[1..]), after);
      before := [t[0]] + before;
    } else if IsSpace(t[|t| - 1]) {
      before, after := TrimCuts(t[..|t| - 1]);
      AddedAfter(t, before, Trim(t[..|t| - 1]), after);
      after := after + [t[|t| - 1]];
    } else {
      before, after := [], [];
    }
  }

  /** toLowerCase, for ASCII. */
  function LowerUnit(u: CodeUnit): CodeUnit { if 65 <= u <= 90 then u + 32 else u }

  function Lower(t: Text): (r: Text)
    ensures |r| == |t| && forall i | 0 <= i < |t| :: r[i] == LowerUnit(t[i])
  {
    seq(|t|, i requires 0 <= i < |t| => LowerUnit(t[i]))
  }

  const AT: Text := Ascii("@")

  lemma LowerMeans(t: Text, i: nat)
    requires i < |t|
    ensures 'A' as int <= t[i] <= 'Z' as int ==> Lower(t)[i] - 'a' as int == t[i] - 'A' as int
    ensures !('A' as int <= t[i] <= 'Z' as int) ==> Lower(t)[i] == t[i]
  {
  }

  /** A service's subdomain as both the service form and the router read it: "@" is the apex. */
  function ServiceLabel(t: Text): Text {
    var value := Lower(Trim(t));
    if value == AT then [] else value
  }

  /** The apex is written as "@" or as nothing; any other label is the trimmed text in lower case. */
  lemma ServiceLabelMeans(t: Text)
    ensures ServiceLabel(t) == [] <==> Trim(t) == [] || Trim(t) == Ascii("@")
    ensures Trim(t) != Ascii("@") ==> ServiceLabel(t) == Lower(Trim(t))
  {
    if Lower(Trim(t)) == AT { assert Trim(t) == [Trim(t)[0]] && LowerUnit(Trim(t)[0]) == 64; }
  }

  // ------------------------------------------------------ splitting, labels

  /** String#split on one code unit; never empty. */
  function Split(t: Text, at: CodeUnit): (r: seq<Text>)
    ensures r != []
  {
    if t == [] then [[]]
    else if t[0] == at then [[]] + Split(t[1..], at)
    else
      var more := Split(t[1..], at);
      [[t[0]] + more[0]] + more[1..]
  }

  function Join(parts: seq<Text>, with: CodeUnit): Text
    requires parts != []
  {
    if |parts| == 1 then parts[0] else parts[0] + [with] + Join(parts[1..], with)
  }

  lemma JoinOfMore(first: Text, rest: seq<Text>, with: CodeUnit)
    requires rest != []
    ensures Join([first] + rest, with) == first + ([with] + Join(rest, with))
  {
    assert ([first] + rest)[1..] == rest;
  }

  lemma {:induction false} SplitNone(t: Text, at: CodeUnit)
    requires at !in t
    ensures Split(t, at) == [t]
  {
    if t != [] {
      SplitNone(t[1..], at);
      assert [t[0]] + t[1..] == t;
    }
  }

  lemma {:induction false} SplitHead(t: Text, at: CodeUnit, rest: Text)
    requires at !in t
    ensures Split(t + [at] + rest, at) == [t] + Split(rest, at)
  {
    var s := t + [at] + rest;
    if t == [] {
      assert s[1..] == rest;
    } else {
      assert s[1..] == t[1..] + [at] + rest;
      SplitHead(t[1..], at, rest);
      assert [t[0]] + t[1..] == t;
    }
  }

  lemma {:induction false} JoinSplit(t: Text, at: CodeUnit)
    ensures Join(Split(t, at), at) == t && forall p | p in Split(t, at) :: at !in p
  {
    if t != [] {
      JoinSplit(t[1..], at);
      var more := Split(t[1..], at);
      if t[0] == at {
        assert ([[]] + more)[1..] == more;
        assert t == [] + [at] + t[1..];
      } else {
        FirstPart(t[0], more, at);
        assert t == [t[0]] + t[1..];
      }
    }
  }

  lemma FirstPart(u: CodeUnit, parts: seq<Text>, at: CodeUnit)
    requires parts != []
    ensures Join([[u] + parts[0]] + parts[1..], at) == [u] + Join(parts, at)
  {
    var grown := [[u] + parts[0]] + parts[1..];
    assert grown[1..] == parts[1..];
    if |parts| > 1 {
      assert [u] + parts[0] + [at] + Join(parts[1..], at) == [u] + (parts[0] + [at] + Join(parts[1..], at));
    }
  }

  lemma {:induction false} SplitJoin(parts: seq<Text>, at: CodeUnit)
    requires parts != [] && forall i | 0 <= i < |parts| :: at !in parts[i]
    ensures Split(Join(parts, at), at) == parts
  {
    if |parts| == 1 {
      SplitNone(parts[0], at);
    } else {
      SplitJoin(parts[1..], at);
      SplitHead(parts[0], at, Join(parts[1..], at));
      assert parts == [parts[0]] + parts[1..];
    }
  }

  predicate IsLabelUnit(u: CodeUnit) {
    IsDigit(u) || 97 <= u <= 122
  }

  /** A subdomain: 1 to 63 of a-z, 0-9 and inner hyphens. */
  predicate IsSubdomainLabel(t: Text) {
    1 <= |t| <= 63 && IsLabelUnit(t[0]) && IsLabelUnit(t[|t| - 1])
    && forall i | 0 <= i < |t| :: IsLabelUnit(t[i]) || t[i] == MINUS
  }

  // ---------------------------------------------------------------- order

  /** The comparison Array#sort uses by default: by code unit, a proper prefix first. */
  predicate LexLess(a: Text, b: Text) {
    b != [] && (a == [] || a[0] < b[0] || (a[0] == b[0] && LexLess(a[1..], b[1..])))
  }

  predicate IsProperPrefix(a: Text, b: Text) {
    |a| < |b| && a == b[..|a|]
  }

  /** At `i` the texts first differ, and `a` has the smaller code unit. */
  predicate FallsBelowAt(a: Text, b: Text, i: nat) {
    i < |a| && i < |b| && a[..i] == b[..i] && a[i] < b[i]
  }

  /** The order of section 7.2.13 of ECMA-262: a proper prefix first, else the first differing code unit decides. */
  ghost predicate CodeUnitBefore(a: Text, b: Text) {
    IsProperPrefix(a, b) || exists i :: FallsBelowAt(a, b, i)
  }

  lemma {:induction false} LexLessMeans(a: Text, b: Text)
    ensures LexLess(a, b) <==> CodeUnitBefore(a, b)
  {
    if a != [] && b != [] {
      if a[0] == b[0] {
        LexLessMeans(a[1..], b[1..]);
        PastEqualHeads(a, b);
      } else {
        DifferentHeads(a, b);
      }
    }
  }

  lemma PrefixTail(a: Text, b: Text)
    requires a != [] && b != [] && a[0] == b[0]
    ensures IsProperPrefix(a, b) <==> IsProperPrefix(a[1..], b[1..])
  {
    assert a == [a[0]] + a[1..];
    if |a| < |b| { assert b[..|a|] == [b[0]] + b[1..][..|a[1..]|]; }
  }

  lemma FallTail(a: Text, b: Text, i: nat)
    requires a != [] && b != [] && a[0] == b[0]
    ensures FallsBelowAt(a, b, i + 1) <==> FallsBelowAt(a[1..], b[1..], i)
  {
    if i + 1 < |a| && i + 1 < |b| {
      assert a[..i + 1] == [a[0]] + a[1..][..i] && b[..i + 1] == [b[0]] + b[1..][..i];
      assert a[..i + 1][1..] == a[1..][..i] && b[..i + 1][1..] == b[1..][..i];
    }
  }

  lemma PastEqualHeads(a: Text, b: Text)
    requires a != [] && b != [] && a[0] == b[0]
    ensures CodeUnitBefore(a, b) <==> CodeUnitBefore(a[1..], b[1..])
  {
    PrefixTail(a, b);
    if i: nat :| FallsBelowAt(a, b, i) { FallTail(a, b, i - 1); }
    if i: nat :| FallsBelowAt(a[1..], b[1..], i) { FallTail(a, b, i); }
  }

  lemma DifferentHeads(a: Text, b: Text)
    requires a != [] && b != [] && a[0] != b[0]
    ensures CodeUnitBefore(a, b) <==> a[0] < b[0]
  {
    assert FallsBelowAt(a, b, 0) <==> a[0] < b[0];
    assert forall i | 0 < i < |a| && i < |b| :: a[..i][0] == a[0] && b[..i][0] == b[0];
    assert |a| < |b| ==> b[..|a|][0] == b[0];
  }

  lemma {:induction false} LexLessTotal(a: Text, b: Text)
    ensures a == b || LexLess(a, b) || LexLess(b, a)
    ensures !(LexLess(a, b) && LexLess(b, a))
    ensures a == b ==> !LexLess(a, b)
  {
    if a != [] && b != [] && a[0] == b[0] {
      LexLessTotal(a[1..], b[1..]);
      assert a == [a[0]] + a[1..] && b == [b[0]] + b[1..];
    }
  }

  lemma {:induction false} LexLessTransitive(a: Text, b: Text, c: Text)
    requires LexLess(a, b) && LexLess(b, c)
    ensures LexLess(a, c)
  {
    if a != [] && a[0] == b[0] && b[0] == c[0] {
      LexLessTransitive(a[1..], b[1..], c[1..]);
    }
  }

  // ------------------------------------------------------------- numerals

  predicate IsDigit(u: CodeUnit) { ZERO <= u <= 57 }

  predicate AllDigits(t: Text) {
    forall i | 0 <= i < |t| :: IsDigit(t[i])
  }

  /** Number::toString for a non-negative integer. */
  function Digits(n: nat): (t: Text)
    ensures |t| > 0 && AllDigits(t)
  {
    if n < 10 then [ZERO + n] else Digits(n / 10) + [ZERO + n % 10]
  }

  function DigitsValue(t: Text): nat
    requires AllDigits(t)
  {
    if t == [] then 0 else 10 * DigitsValue(t[..|t| - 1]) + (t[|t| - 1] - ZERO)
  }

  lemma {:induction false} DigitsRoundTrip(n: nat)
    ensures DigitsValue(Digits(n)) == n
    ensures |Digits(n)| > 1 ==> Digits(n)[0] != ZERO
  {
    if n >= 10 {
      DigitsRoundTrip(n / 10);
      var t := Digits(n);
      assert t[..|t| - 1] == Digits(n / 10);
      if |Digits(n / 10)| == 1 {
        assert Digits(n / 10)[0] == ZERO + n / 10;
      }
    }
  }

  /** String(n) for an integer. */
  function IntText(n: int): (t: Text)
    ensures |t| > 0
  {
    if n < 0 then [MINUS] + Digits(-n) else Digits(n)
  }

  lemma IntTextSign(n: int)
    ensures IntText(n)[0] == MINUS <==> n < 0
  {
    if n >= 0 {
      assert IsDigit(Digits(n)[0]);
    }
  }

  lemma IntTextInjective(m: int, n: int)
    requires IntText(m) == IntText(n)
    ensures m == n
  {
    IntTextSign(m);
    IntTextSign(n);
    if m < 0 {
      assert IntText(m)[1..] == Digits(-m) && IntText(n)[1..] == Digits(-n);
      DigitsRoundTrip(-m);
      DigitsRoundTrip(-n);
    } else {
      DigitsRoundTrip(m);
      DigitsRoundTrip(n);
    }
  }

  lemma IntTextHasNoNewline(n: int)
    ensures NEWLINE !in IntText(n)
  {
    if n < 0 {
      assert AllDigits(Digits(-n));
    } else {
      assert AllDigits(Digits(n));
    }
  }

  /** How many leading digits `t` has. */
  function DigitRun(t: Text): (n: nat)
    ensures n <= |t| && AllDigits(t[..n]) && (n < |t| ==> !IsDigit(t[n]))
  {
    if t == [] || !IsDigit(t[0]) then 0 else
      var n := 1 + DigitRun(t[1..]);
      assert t[..n] == [t[0]] + t[1..][..n - 1];
      n
  }

  lemma {:induction false} DigitRunIsMaximal(t: Text, rest: Text)
    requires AllDigits(t) && (rest == [] || !IsDigit(rest[0]))
    ensures DigitRun(t + rest) == |t|
  {
    if t == [] {
      assert t + rest == rest;
    } else {
      DigitRunIsMaximal(t[1..], rest);
      assert (t + rest)[1..] == t[1..] + rest;
    }
  }
}
