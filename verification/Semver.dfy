/** src/global/semver.util.ts: reading version strings and ordering them, with numbers unbounded. */
module Semver {
  import opened Wrappers
  import opened Texts

  const PLUS: CodeUnit := 43

  datatype Version = Version(major: nat, minor: nat, patch: nat, pre: seq<Text>)

  // --------------------------------------------------------------- reading

  /** [0-9A-Za-z.-] */
  predicate IsTagUnit(u: CodeUnit) {
    IsDigit(u) || 65 <= u <= 90 || 97 <= u <= 122 || u == DOT || u == MINUS
  }

  predicate IsTag(t: Text) {
    t != [] && forall i | 0 <= i < |t| :: IsTagUnit(t[i])
  }

  function TagRun(t: Text): (n: nat)
    ensures n <= |t|
  {
    if t == [] || !IsTagUnit(t[0]) then 0 else 1 + TagRun(t[1..])
  }

  /** `\d+` followed by a dot, or `\d+` alone when `last`. */
  function ReadNumber(t: Text, last: bool): Option<(nat, Text)> {
    var n := DigitRun(t);
    if n == 0 then None
    else if last then Some((DigitsValue(t[..n]), t[n..]))
    else if n < |t| && t[n] == DOT then Some((DigitsValue(t[..n]), t[n + 1..]))
    else None
  }

  /** The optional pre-release and build parts, up to the end. */
  function ReadTail(t: Text): Option<seq<Text>> {
    var n := if t != [] && t[0] == MINUS then TagRun(t[1..]) else 0;
    if t != [] && t[0] == MINUS && n == 0 then None else
      var rest := if n == 0 then t else t[1 + n..];
      if rest == [] || (rest[0] == PLUS && IsTag(rest[1..])) then
        Some(if n == 0 then [] else Split(t[1..1 + n], DOT))
      else None
  }

  function Parse(version: Text): Option<Version> {
    var major := ReadNumber(Trim(version), false);
    if major.None? then None else
      var minor := ReadNumber(major.value.1, false);
      if minor.None? then None else
        var patch := ReadNumber(minor.value.1, true);
        if patch.None? then None else
          var pre := ReadTail(patch.value.1);
          if pre.None? then None
          else Some(Version(major.value.0, minor.value.0, patch.value.0, pre.value))
  }

  predicate IsIdentifier(t: Text) {
    forall i | 0 <= i < |t| :: IsTagUnit(t[i]) && t[i] != DOT
  }

  /** The pre-release part as text; a lone empty identifier has none. */
  predicate GoodPre(pre: seq<Text>) {
    pre != [[]] && forall i | 0 <= i < |pre| :: IsIdentifier(pre[i])
  }

  function FormatTail(pre: seq<Text>, build: Text): Text {
    (if pre == [] then [] else [MINUS] + Join(pre, DOT)) + (if build == [] then [] else [PLUS] + build)
  }

  function Format(v: Version, build: Text): Text {
    Digits(v.major) + ([DOT] + (Digits(v.minor) + ([DOT] + (Digits(v.patch) + FormatTail(v.pre, build)))))
  }

  lemma {:induction false} JoinedTags(parts: seq<Text>)
    requires parts != [] && forall i | 0 <= i < |parts| :: IsIdentifier(parts[i])
    ensures Split(Join(parts, DOT), DOT) == parts
    ensures forall i | 0 <= i < |Join(parts, DOT)| :: IsTagUnit(Join(parts, DOT)[i])
    ensures parts != [[]] ==> Join(parts, DOT) != []
  {
    assert forall i | 0 <= i < |parts| :: DOT !in parts[i];
    SplitJoin(parts, DOT);
    if |parts| > 1 { JoinedTags(parts[1..]); }
  }

  lemma {:induction false} TagRunIsMaximal(t: Text, rest: Text)
    requires (forall i | 0 <= i < |t| :: IsTagUnit(t[i])) && (rest == [] || !IsTagUnit(rest[0]))
    ensures TagRun(t + rest) == |t|
  {
    if t == [] {
      assert t + rest == rest;
    } else {
      TagRunIsMaximal(t[1..], rest);
      assert (t + rest)[1..] == t[1..] + rest;
    }
  }

  /** What may follow the three numbers. */
  function TailText(pre: Text, build: Text): Text {
    (if pre == [] then [] else [MINUS] + pre) + (if build == [] then [] else [PLUS] + build)
  }

  lemma ReadTailOf(pre: Text, build: Text)
    requires (pre == [] || IsTag(pre)) && (build == [] || IsTag(build))
    ensures ReadTail(TailText(pre, build)) == Some(if pre == [] then [] else Split(pre, DOT))
  {
    var plus := if build == [] then [] else [PLUS] + build;
    assert plus != [] ==> plus[1..] == build;
    if pre == [] {
      assert TailText(pre, build) == plus;
    } else {
      assert [MINUS] + pre + plus == [MINUS] + (pre + plus);
      ReadTailAfter(TailText(pre, build), pre, plus);
    }
  }

  lemma ReadTailAfter(t: Text, pre: Text, plus: Text)
    requires IsTag(pre) && t == [MINUS] + (pre + plus) && (plus == [] || (plus[0] == PLUS && IsTag(plus[1..])))
    ensures ReadTail(t) == Some(Split(pre, DOT))
  {
    TagRunIsMaximal(pre, plus);
    assert t[1..] == pre + plus;
    assert t[1..1 + |pre|] == (pre + plus)[..|pre|] == pre;
    assert t[1 + |pre|..] == (pre + plus)[|pre|..] == plus;
  }

  lemma ReadTailFormats(pre: seq<Text>, build: Text)
    requires GoodPre(pre) && (build == [] || IsTag(build))
    ensures ReadTail(FormatTail(pre, build)) == Some(pre)
  {
    if pre == [] {
      ReadTailOf([], build);
      assert FormatTail(pre, build) == TailText([], build);
    } else {
      JoinedTags(pre);
      ReadTailOf(Join(pre, DOT), build);
      assert FormatTail(pre, build) == TailText(Join(pre, DOT), build);
    }
  }

  lemma ReadNumberOf(digits: Text, rest: Text, last: bool)
    requires IsNumeric(digits)
    requires if last then rest == [] || !IsDigit(rest[0]) else rest != [] && rest[0] == DOT
    ensures ReadNumber(digits + rest, last) == Some((DigitsValue(digits), if last then rest else rest[1..]))
  {
    DigitRunIsMaximal(digits, rest);
    var t := digits + rest;
    assert t[..|digits|] == digits && t[|digits|..] == rest;
  }

  lemma ReadNumberFormats(n: nat, rest: Text, last: bool)
    requires if last then rest == [] || !IsDigit(rest[0]) else rest != [] && rest[0] == DOT
    ensures ReadNumber(Digits(n) + rest, last) == Some((n, if last then rest else rest[1..]))
  {
    DigitsRoundTrip(n);
    ReadNumberOf(Digits(n), rest, last);
  }

  lemma FormatIsTrimmed(v: Version, build: Text)
    requires GoodPre(v.pre) && (build == [] || IsTag(build))
    ensures IsTrimmed(Format(v, build))
  {
    var t, tail := Format(v, build), FormatTail(v.pre, build);
    assert IsDigit(t[0]);
    if tail == [] {
      assert t[|t| - 1] == Digits(v.patch)[|Digits(v.patch)| - 1];
    } else {
      assert t[|t| - 1] == tail[|tail| - 1];
      if build == [] {
        JoinedTags(v.pre);
        assert tail[|tail| - 1] == Join(v.pre, DOT)[|Join(v.pre, DOT)| - 1];
      }
    }
  }

  /** Every version text of the grammar, blanks around it or not, reads back without its build metadata. */
  lemma ParseFormats(v: Version, build: Text, before: Text, after: Text)
    requires GoodPre(v.pre) && (build == [] || IsTag(build)) && IsBlank(before) && IsBlank(after)
    ensures Parse(before + Format(v, build) + after) == Some(v)
  {
    var tail := FormatTail(v.pre, build);
    var r2 := Digits(v.patch) + tail;
    var r1 := Digits(v.minor) + ([DOT] + r2);
    FormatIsTrimmed(v, build);
    TrimBlanks(before, Format(v, build), after);
    ReadNumberFormats(v.major, [DOT] + r1, false);
    ReadNumberFormats(v.minor, [DOT] + r2, false);
    assert ([DOT] + r1)[1..] == r1 && ([DOT] + r2)[1..] == r2;
    assert tail == [] || tail[0] == MINUS || tail[0] == PLUS;
    ReadNumberFormats(v.patch, tail, true);
    ReadTailFormats(v.pre, build);
    ParseSteps(before + Format(v, build) + after, v, r1, r2, tail);
  }

  lemma ParseSteps(t: Text, v: Version, r1: Text, r2: Text, r3: Text)
    requires ReadNumber(Trim(t), false) == Some((v.major, r1)) && ReadNumber(r1, false) == Some((v.minor, r2))
    requires ReadNumber(r2, true) == Some((v.patch, r3)) && ReadTail(r3) == Some(v.pre)
    ensures Parse(t) == Some(v)
  {
  }

  /** The pieces of a version text: three digit texts, a pre-release and build metadata, either of which may lack. */
  datatype Pieces = Pieces(major: Text, minor: Text, patch: Text, pre: Text, build: Text)

  predicate AreGrammatical(p: Pieces) {
    && IsNumeric(p.major) && IsNumeric(p.minor) && IsNumeric(p.patch)
    && (p.pre == [] || IsTag(p.pre)) && (p.build == [] || IsTag(p.build))
  }

  function Spelled(p: Pieces): Text {
    p.major + ([DOT] + (p.minor + ([DOT] + (p.patch + TailText(p.pre, p.build)))))
  }

  function Meant(p: Pieces): Version
    requires AreGrammatical(p)
  {
    Version(DigitsValue(p.major), DigitsValue(p.minor), DigitsValue(p.patch),
            if p.pre == [] then [] else Split(p.pre, DOT))
  }

  ghost predicate IsSpelling(t: Text, v: Version, p: Pieces) {
    AreGrammatical(p) && Spelled(p) == Trim(t) && Meant(p) == v
  }

  /** parseSemver accepts exactly the texts of the grammar, and reads each as what its pieces say. */
  lemma ParseMeans(t: Text, v: Version)
    ensures Parse(t) == Some(v) <==> exists p :: IsSpelling(t, v, p)
  {
    if Parse(t) == Some(v) {
      var p := PiecesOf(t, v);
    }
    if p :| IsSpelling(t, v, p) {
      SpellingIsParsed(t, v, p);
    }
  }

  lemma SpellingIsParsed(t: Text, v: Version, p: Pieces)
    requires IsSpelling(t, v, p)
    ensures Parse(t) == Some(v)
  {
    var r3 := TailText(p.pre, p.build);
    var r2 := p.patch + r3;
    var r1 := p.minor + ([DOT] + r2);
    ReadNumberOf(p.major, [DOT] + r1, false);
    ReadNumberOf(p.minor, [DOT] + r2, false);
    assert ([DOT] + r1)[1..] == r1 && ([DOT] + r2)[1..] == r2;
    assert r3 == [] || r3[0] == MINUS || r3[0] == PLUS;
    ReadNumberOf(p.patch, r3, true);
    ReadTailOf(p.pre, p.build);
    ParseSteps(t, v, r1, r2, r3);
  }

  lemma NumberRead(t: Text, last: bool) returns (digits: Text)
    requires ReadNumber(t, last).Some?
    ensures IsNumeric(digits) && DigitsValue(digits) == ReadNumber(t, last).value.0
    ensures t == digits + ((if last then [] else [DOT]) + ReadNumber(t, last).value.1)
  {
    var n := DigitRun(t);
    digits := t[..n];
    assert t == digits + t[n..];
    assert last || t[n..] == [DOT] + t[n + 1..];
  }

  lemma {:induction false} TagRunIsTags(t: Text)
    ensures forall i | 0 <= i < TagRun(t) :: IsTagUnit(t[i])
  {
    if t != [] && IsTagUnit(t[0]) {
      TagRunIsTags(t[1..]);
      assert forall i | 1 <= i < TagRun(t) :: t[i] == t[1..][i - 1];
    }
  }

  lemma TailRead(t: Text) returns (pre: Text, build: Text)
    requires ReadTail(t).Some?
    ensures (pre == [] || IsTag(pre)) && (build == [] || IsTag(build)) && t == TailText(pre, build)
    ensures ReadTail(t).value == if pre == [] then [] else Split(pre, DOT)
  {
    var n := if t != [] && t[0] == MINUS then TagRun(t[1..]) else 0;
    var rest := if n == 0 then t else t[1 + n..];
    build := if rest == [] then [] else rest[1..];
    pre := if n == 0 then [] else t[1..1 + n];
    if n > 0 {
      TagRunIsTags(t[1..]);
      assert forall i | 0 <= i < n :: pre[i] == t[1..][i];
      assert t == [MINUS] + pre + rest;
    }
    assert rest == [] || rest == [PLUS] + build;
  }

  lemma PartsRead(t: Text, v: Version) returns (r1: Text, r2: Text, r3: Text)
    requires Parse(t) == Some(v)
    ensures ReadNumber(Trim(t), false) == Some((v.major, r1)) && ReadNumber(r1, false) == Some((v.minor, r2))
    ensures ReadNumber(r2, true) == Some((v.patch, r3)) && ReadTail(r3) == Some(v.pre)
  {
    r1 := ReadNumber(Trim(t), false).value.1;
    r2 := ReadNumber(r1, false).value.1;
    r3 := ReadNumber(r2, true).value.1;
  }

  lemma PiecesOf(t: Text, v: Version) returns (p: Pieces)
    requires Parse(t) == Some(v)
    ensures IsSpelling(t, v, p)
  {
    var r1, r2, r3 := PartsRead(t, v);
    p := PiecesOfParts(Trim(t), v, r1, r2, r3);
  }

  lemma PiecesOfParts(t: Text, v: Version, r1: Text, r2: Text, r3: Text) returns (p: Pieces)
    requires ReadNumber(t, false) == Some((v.major, r1)) && ReadNumber(r1, false) == Some((v.minor, r2))
    requires ReadNumber(r2, true) == Some((v.patch, r3)) && ReadTail(r3) == Some(v.pre)
    ensures AreGrammatical(p) && Spelled(p) == t && Meant(p) == v
  {
    var major := NumberRead(t, false);
    var minor := NumberRead(r1, false);
    var patch := NumberRead(r2, true);
    var pre, build := TailRead(r3);
    p := Pieces(major, minor, patch, pre, build);
    Assembled(p, t, r1, r2, r3);
  }

  lemma Assembled(p: Pieces, t: Text, r1: Text, r2: Text, r3: Text)
    requires t == p.major + ([DOT] + r1) && r1 == p.minor + ([DOT] + r2) && r2 == p.patch + ([] + r3)
    requires r3 == TailText(p.pre, p.build)
    ensures Spelled(p) == t
  {
    assert [] + r3 == r3;
  }

  // ------------------------------------------------------------- comparing

  predicate IsNumeric(t: Text) { t != [] && AllDigits(t) }

  function ComparePreIdentifier(a: Text, b: Text): int {
    if IsNumeric(a) && IsNumeric(b) then DigitsValue(a) - DigitsValue(b)
    else if IsNumeric(a) then -1
    else if IsNumeric(b) then 1
    else if LexLess(a, b) then -1
    else if LexLess(b, a) then 1
    else 0
  }

  /** The scan of two non-empty lists from their first difference on. */
  function CompareFrom(a: seq<Text>, b: seq<Text>): int {
    if a == [] && b == [] then 0
    else if a == [] then -1
    else if b == [] then 1
    else
      var first := ComparePreIdentifier(a[0], b[0]);
      if first != 0 then first else CompareFrom(a[1..], b[1..])
  }

  function ComparePre(a: seq<Text>, b: seq<Text>): int {
    if a == [] && b == [] then 0
    else if a == [] then 1
    else if b == [] then -1
    else CompareFrom(a, b)
  }

  method ComparePreScan(a: seq<Text>, b: seq<Text>) returns (r: int)
    ensures r == ComparePre(a, b)
  {
    if a == [] && b == [] { return 0; }
    if a == [] { return 1; }
    if b == [] { return -1; }
    var i := 0;
    while i < |a| || i < |b|
      invariant 0 <= i <= |a| && i <= |b|
      invariant CompareFrom(a, b) == CompareFrom(a[i..], b[i..])
      decreases |a| - i
    {
      if i >= |a| { return -1; }
      if i >= |b| { return 1; }
      var result := ComparePreIdentifier(a[i], b[i]);
      assert a[i..][1..] == a[i + 1..] && b[i..][1..] == b[i + 1..];
      if result != 0 { return result; }
      i := i + 1;
    }
    return 0;
  }

  function CompareVersions(a: Version, b: Version): int {
    if a.major != b.major then a.major - b.major
    else if a.minor != b.minor then a.minor - b.minor
    else if a.patch != b.patch then a.patch - b.patch
    else ComparePre(a.pre, b.pre)
  }

  function Compare(a: Text, b: Text): int {
    var left, right := Parse(a), Parse(b);
    if left.None? && right.None? then 0
    else if left.None? then -1
    else if right.None? then 1
    else CompareVersions(left.value, right.value)
  }

  // ------------------------------------ precedence, section 11 of SemVer 2.0.0

  /** Rule 11.4: numeric identifiers by value and below the others, which go by ASCII order. */
  ghost predicate IdPrecedes(a: Text, b: Text) {
    if IsNumeric(a) then !IsNumeric(b) || DigitsValue(a) < DigitsValue(b)
    else !IsNumeric(b) && CodeUnitBefore(a, b)
  }

  predicate IdTies(a: Text, b: Text) {
    if IsNumeric(a) then IsNumeric(b) && DigitsValue(a) == DigitsValue(b) else a == b
  }

  /** At `i` the lists first differ: `a` has ended, or its identifier precedes. */
  ghost predicate FirstDifference(a: seq<Text>, b: seq<Text>, i: nat) {
    i <= |a| && i < |b|
    && (forall k | 0 <= k < i :: IdTies(a[k], b[k]))
    && (i == |a| || IdPrecedes(a[i], b[i]))
  }

  /** A pre-release precedes the release; two pre-releases go by their first difference. */
  ghost predicate PrePrecedes(a: seq<Text>, b: seq<Text>) {
    a != [] && (b == [] || exists i :: FirstDifference(a, b, i))
  }

  ghost predicate Precedes(a: Version, b: Version) {
    a.major < b.major
    || (a.major == b.major && a.minor < b.minor)
    || (a.major == b.major && a.minor == b.minor && a.patch < b.patch)
    || (a.major == b.major && a.minor == b.minor && a.patch == b.patch && PrePrecedes(a.pre, b.pre))
  }

  lemma IdentifierPrecedence(a: Text, b: Text)
    ensures ComparePreIdentifier(a, b) < 0 <==> IdPrecedes(a, b)
    ensures ComparePreIdentifier(a, b) > 0 <==> IdPrecedes(b, a)
    ensures ComparePreIdentifier(a, b) == 0 <==> IdTies(a, b)
  {
    LexLessTotal(a, b);
    LexLessMeans(a, b);
    LexLessMeans(b, a);
  }

  lemma {:induction false} FirstDifferenceDecides(a: seq<Text>, b: seq<Text>)
    ensures CompareFrom(a, b) < 0 <==> exists i :: FirstDifference(a, b, i)
    ensures CompareFrom(a, b) > 0 <==> exists i :: FirstDifference(b, a, i)
    decreases |a|
  {
    if a == [] || b == [] {
      if b != [] { assert FirstDifference(a, b, 0); }
      if a != [] { assert FirstDifference(b, a, 0); }
    } else {
      IdentifierPrecedence(a[0], b[0]);
      IdentifierPrecedence(b[0], a[0]);
      FirstDifferenceDecides(a[1..], b[1..]);
      ShiftDifference(a, b);
      ShiftDifference(b, a);
    }
  }

  /** Past equal heads the first difference is the tails'; at different heads it is at 0. */
  lemma ShiftDifference(a: seq<Text>, b: seq<Text>)
    requires a != [] && b != []
    ensures (exists i :: FirstDifference(a, b, i)) <==>
      IdPrecedes(a[0], b[0]) || (IdTies(a[0], b[0]) && exists i :: FirstDifference(a[1..], b[1..], i))
  {
    IdentifierPrecedence(a[0], b[0]);
    if i: nat :| FirstDifference(a, b, i) {
      if i > 0 {
        assert forall k | 0 <= k < i - 1 :: IdTies(a[1..][k], b[1..][k]) by {
          forall k | 0 <= k < i - 1 ensures IdTies(a[1..][k], b[1..][k]) { assert IdTies(a[k + 1], b[k + 1]); }
        }
        assert FirstDifference(a[1..], b[1..], i - 1);
      }
    }
    if IdPrecedes(a[0], b[0]) {
      assert FirstDifference(a, b, 0);
    } else if IdTies(a[0], b[0]) {
      if i: nat :| FirstDifference(a[1..], b[1..], i) {
        assert forall k | 0 <= k < i + 1 :: IdTies(a[k], b[k]) by {
          forall k | 0 < k < i + 1 ensures IdTies(a[k], b[k]) { assert IdTies(a[1..][k - 1], b[1..][k - 1]); }
        }
        assert i < |a[1..]| ==> a[1..][i] == a[i + 1];
        assert FirstDifference(a, b, i + 1);
      }
    }
  }

  /** The comparison is precedence, and zero is its tie. */
  lemma ComparisonIsPrecedence(a: Version, b: Version)
    ensures CompareVersions(a, b) < 0 <==> Precedes(a, b)
    ensures CompareVersions(a, b) > 0 <==> Precedes(b, a)
  {
    FirstDifferenceDecides(a.pre, b.pre);
  }

  /** Text `a` ranks below text `b`: both parse and `a` precedes, or only `b` parses. */
  ghost predicate RanksBelow(a: Text, b: Text) {
    Parse(b).Some? && (Parse(a).Some? ==> Precedes(Parse(a).value, Parse(b).value))
  }

  lemma CompareMeans(a: Text, b: Text)
    ensures Compare(a, b) < 0 <==> RanksBelow(a, b)
    ensures Compare(a, b) > 0 <==> RanksBelow(b, a)
  {
    if Parse(a).Some? && Parse(b).Some? { ComparisonIsPrecedence(Parse(a).value, Parse(b).value); }
  }

  // -------------------------------------------------------- total preorder

  lemma IdentifierTransitive(a: Text, b: Text, c: Text)
    requires ComparePreIdentifier(a, b) <= 0 && ComparePreIdentifier(b, c) <= 0
    ensures ComparePreIdentifier(a, c) <= 0
    ensures ComparePreIdentifier(a, c) == 0 <==> ComparePreIdentifier(a, b) == 0 && ComparePreIdentifier(b, c) == 0
  {
    LexLessTotal(a, b);
    LexLessTotal(b, c);
    LexLessTotal(a, c);
    if LexLess(a, b) && LexLess(b, c) { LexLessTransitive(a, b, c); }
  }

  lemma {:induction false} CompareFromTransitive(a: seq<Text>, b: seq<Text>, c: seq<Text>)
    requires CompareFrom(a, b) <= 0 && CompareFrom(b, c) <= 0
    ensures CompareFrom(a, c) <= 0
  {
    if a != [] && b != [] && c != [] {
      IdentifierTransitive(a[0], b[0], c[0]);
      if ComparePreIdentifier(a[0], c[0]) == 0 {
        CompareFromTransitive(a[1..], b[1..], c[1..]);
      }
    }
  }

  lemma ComparePreTransitive(a: seq<Text>, b: seq<Text>, c: seq<Text>)
    requires ComparePre(a, b) <= 0 && ComparePre(b, c) <= 0
    ensures ComparePre(a, c) <= 0
  {
    if a != [] && b != [] && c != [] { CompareFromTransitive(a, b, c); }
  }

  lemma VersionsTransitive(a: Version, b: Version, c: Version)
    requires CompareVersions(a, b) <= 0 && CompareVersions(b, c) <= 0
    ensures CompareVersions(a, c) <= 0
  {
    if ComparePre(a.pre, b.pre) <= 0 && ComparePre(b.pre, c.pre) <= 0 {
      ComparePreTransitive(a.pre, b.pre, c.pre);
    }
  }

  lemma CompareReflects(a: Text, b: Text)
    ensures Compare(a, a) == 0
    ensures Compare(a, b) < 0 <==> Compare(b, a) > 0
    ensures Compare(a, b) == 0 <==> Compare(b, a) == 0
  {
    if Parse(a).Some? {
      ComparisonIsPrecedence(Parse(a).value, Parse(a).value);
      if Parse(b).Some? {
        ComparisonIsPrecedence(Parse(a).value, Parse(b).value);
        ComparisonIsPrecedence(Parse(b).value, Parse(a).value);
      }
    }
  }

  lemma CompareTransitive(a: Text, b: Text, c: Text)
    requires Compare(a, b) <= 0 && Compare(b, c) <= 0
    ensures Compare(a, c) <= 0
  {
    if Parse(a).Some? && Parse(b).Some? && Parse(c).Some? {
      VersionsTransitive(Parse(a).value, Parse(b).value, Parse(c).value);
    }
  }

  /** compareSemver is a total preorder on all strings; what does not parse is its one bottom class. */
  lemma CompareIsTotalPreorder(a: Text, b: Text, c: Text)
    ensures Compare(a, a) == 0
    ensures Compare(a, b) < 0 <==> Compare(b, a) > 0
    ensures Compare(a, b) == 0 <==> Compare(b, a) == 0
    ensures Compare(a, b) <= 0 && Compare(b, c) <= 0 ==> Compare(a, c) <= 0
    ensures Parse(a).None? ==> Compare(a, b) <= 0 && (Compare(a, b) == 0 <==> Parse(b).None?)
  {
    CompareReflects(a, b);
    if Compare(a, b) <= 0 && Compare(b, c) <= 0 { CompareTransitive(a, b, c); }
  }

  // ------------------------------------------------------- remote updates

  const MIN_REMOTE_UPDATE_VERSION: Text := Ascii("0.6.0")

  /** src/global/agent-capability.ts */
  predicate SupportsRemoteUpdate(agentVersion: Option<Text>) {
    agentVersion.Some? && agentVersion.value != [] && Compare(agentVersion.value, MIN_REMOTE_UPDATE_VERSION) >= 0
  }

  ghost predicate IsFrom060(v: Version) {
    v.major > 0 || v.minor > 6 || (v.minor == 6 && (v.patch > 0 || v.pre == []))
  }

  /** A version from 0.6.0 on; the pre-releases of 0.6.0 are below it. */
  ghost predicate IsRecent(version: Option<Text>) {
    version.Some? && Parse(version.value).Some? && IsFrom060(Parse(version.value).value)
  }

  lemma LeastIsFormatted()
    ensures Format(Version(0, 6, 0, []), []) == MIN_REMOTE_UPDATE_VERSION
  {
    assert Digits(0) == [48] && Digits(6) == [54];
    assert MIN_REMOTE_UPDATE_VERSION == [48, DOT, 54, DOT, 48];
    assert FormatTail([], []) == [];
  }

  lemma LeastIsParsed()
    ensures Parse(MIN_REMOTE_UPDATE_VERSION) == Some(Version(0, 6, 0, []))
  {
    var least := Version(0, 6, 0, []);
    LeastIsFormatted();
    ParseFormats(least, [], [], []);
    assert [] + MIN_REMOTE_UPDATE_VERSION + [] == MIN_REMOTE_UPDATE_VERSION;
  }

  lemma ComparedToLeast(v: Version)
    ensures CompareVersions(v, Version(0, 6, 0, [])) >= 0 <==> IsFrom060(v)
  {
  }

  lemma SupportOf(text: Text, parsed: Option<Version>)
    requires parsed == Parse(text)
    ensures Compare(text, MIN_REMOTE_UPDATE_VERSION) >= 0 <==> parsed.Some? && IsFrom060(parsed.value)
  {
    LeastIsParsed();
    if parsed.Some? { ComparedToLeast(parsed.value); }
  }

  lemma NothingIsNoVersion()
    ensures Parse([]).None?
  {
  }

  lemma SupportMeans(version: Option<Text>)
    ensures SupportsRemoteUpdate(version) <==> IsRecent(version)
  {
    NothingIsNoVersion();
    if version.Some? { SupportOf(version.value, Parse(version.value)); }
  }
}
