/**
 * JSON values, the text JSON.stringify gives them (section 25.5.2 of ECMA-262, no gap), and a parser for that
 * compact form. The parser is the independent reading of the printed text: ParsePrint says it recovers every value.
 */
module Json {
  import opened Texts

  /** One own property of an object: objects are lists of these, in the order they are enumerated. */
  datatype Prop<+V> = Prop(key: Text, value: V)

  datatype Json =
    | Null
    | Bool(b: bool)
    | Num(n: int)
    | Str(s: Text)
    | Arr(elems: seq<Json>)
    | Obj(members: seq<Prop<Json>>)

  const QUOTE: CodeUnit := 34
  const COMMA: CodeUnit := 44
  const COLON: CodeUnit := 58
  const OPEN_BRACKET: CodeUnit := 91
  const BACKSLASH: CodeUnit := 92
  const CLOSE_BRACKET: CodeUnit := 93
  const OPEN_BRACE: CodeUnit := 123
  const CLOSE_BRACE: CodeUnit := 125

  // -------------------------------------------------------------- strings

  predicate IsHighSurrogate(u: CodeUnit) { 0xD800 <= u < 0xDC00 }

  predicate IsLowSurrogate(u: CodeUnit) { 0xDC00 <= u < 0xE000 }

  /** A surrogate without its other half: well-formed JSON.stringify escapes it. */
  predicate IsLone(s: Text, i: nat)
    requires i < |s|
  {
    (IsHighSurrogate(s[i]) && !(i + 1 < |s| && IsLowSurrogate(s[i + 1])))
    || (IsLowSurrogate(s[i]) && !(i > 0 && IsHighSurrogate(s[i - 1])))
  }

  function HexDigit(d: nat): CodeUnit
    requires d < 16
  {
    if d < 10 then ZERO + d else 87 + d
  }

  /** The value of a hex digit of either case, or 16 when it is none. */
  function HexValue(u: CodeUnit): (d: nat)
    ensures d <= 16
  {
    if IsDigit(u) then u - ZERO
    else if 97 <= u <= 102 then u - 87
    else if 65 <= u <= 70 then u - 55
    else 16
  }

  function UnicodeEscape(u: CodeUnit): (t: Text)
    ensures |t| == 6
  {
    [BACKSLASH, 117, HexDigit(u / 4096), HexDigit(u / 256 % 16), HexDigit(u / 16 % 16), HexDigit(u % 16)]
  }

  /** One code unit of QuoteJSONString. */
  function Escape(u: CodeUnit, lone: bool): (t: Text)
    ensures |t| > 0
  {
    if u == 8 then [BACKSLASH, 98]
    else if u == 9 then [BACKSLASH, 116]
    else if u == 10 then [BACKSLASH, 110]
    else if u == 12 then [BACKSLASH, 102]
    else if u == 13 then [BACKSLASH, 114]
    else if u == QUOTE || u == BACKSLASH then [BACKSLASH, u]
    else if u < 32 || lone then UnicodeEscape(u)
    else [u]
  }

  /** The escaped units of `s` from index `i`, and the closing quote. */
  function QuoteFrom(s: Text, i: nat): (t: Text)
    requires i <= |s|
    ensures |t| > 0
    decreases |s| - i
  {
    if i == |s| then [QUOTE] else Escape(s[i], IsLone(s, i)) + QuoteFrom(s, i + 1)
  }

  /** Four lower-case hex digits after a backslash and a u. */
  predicate IsUnicodeEscapeOf(t: Text, u: CodeUnit) {
    && |t| == 6 && t[..2] == Ascii("\\u")
    && (forall i | 2 <= i < 6 :: 48 <= t[i] <= 57 || 97 <= t[i] <= 102)
    && u == 4096 * HexValue(t[2]) + 256 * HexValue(t[3]) + 16 * HexValue(t[4]) + HexValue(t[5])
  }

  lemma UnicodeEscapeMeans(u: CodeUnit)
    ensures IsUnicodeEscapeOf(UnicodeEscape(u), u)
  {
    HexNibbles(u);
    HexDigitValue(u / 4096);
    HexDigitValue(u / 256 % 16);
    HexDigitValue(u / 16 % 16);
    HexDigitValue(u % 16);
    assert UnicodeEscape(u)[..2] == Ascii("\\u");
  }

  /** The escapes of QuoteJSONString, one by one. */
  lemma EscapeMeans(u: CodeUnit, lone: bool)
    ensures u == 8 ==> Escape(u, lone) == Ascii("\\b")
    ensures u == 9 ==> Escape(u, lone) == Ascii("\\t")
    ensures u == 10 ==> Escape(u, lone) == Ascii("\\n")
    ensures u == 12 ==> Escape(u, lone) == Ascii("\\f")
    ensures u == 13 ==> Escape(u, lone) == Ascii("\\r")
    ensures u == 34 ==> Escape(u, lone) == Ascii("\\\"")
    ensures u == 92 ==> Escape(u, lone) == Ascii("\\\\")
  {
  }

  lemma OtherUnitsMean(u: CodeUnit, lone: bool)
    requires u !in {8, 9, 10, 12, 13, 34, 92}
    ensures u < 32 || lone ==> IsUnicodeEscapeOf(Escape(u, lone), u)
    ensures !(u < 32 || lone) ==> Escape(u, lone) == [u]
  {
    UnicodeEscapeMeans(u);
  }

  // ------------------------------------------------------------- printing

  function Print(j: Json): (t: Text)
    ensures |t| > 0
    decreases j, 1
  {
    match j
    case Null => Ascii("null")
    case Bool(b) => if b then Ascii("true") else Ascii("false")
    case Num(n) => IntText(n)
    case Str(s) => [QUOTE] + QuoteFrom(s, 0)
    case Arr(es) => [OPEN_BRACKET] + (if es == [] then [CLOSE_BRACKET] else Print(es[0]) + PrintElems(es[1..]))
    case Obj(ms) =>
      [OPEN_BRACE] + (if ms == [] then [CLOSE_BRACE] else PrintMember(ms[0]) + PrintMembers(ms[1..]))
  }

  /** Each further element after a comma, and the closing bracket. */
  function PrintElems(es: seq<Json>): (t: Text)
    ensures |t| > 0
    decreases es, 0
  {
    if es == [] then [CLOSE_BRACKET] else [COMMA] + (Print(es[0]) + PrintElems(es[1..]))
  }

  function PrintMember(m: Prop<Json>): (t: Text)
    ensures |t| > 0
    decreases m, 2
  {
    [QUOTE] + (QuoteFrom(m.key, 0) + ([COLON] + Print(m.value)))
  }

  function PrintMembers(ms: seq<Prop<Json>>): (t: Text)
    ensures |t| > 0
    decreases ms, 0
  {
    if ms == [] then [CLOSE_BRACE] else [COMMA] + (PrintMember(ms[0]) + PrintMembers(ms[1..]))
  }

  ghost function Printed(es: seq<Json>): (r: seq<Text>)
    ensures |r| == |es|
  {
    seq(|es|, i requires 0 <= i < |es| => Print(es[i]))
  }

  ghost function PrintedMembers(ms: seq<Prop<Json>>): (r: seq<Text>)
    ensures |r| == |ms|
  {
    seq(|ms|, i requires 0 <= i < |ms| => PrintMember(ms[i]))
  }

  lemma MoreJoined(first: Text, parts: seq<Text>, close: CodeUnit)
    requires parts != []
    ensures first + ([COMMA] + (Join(parts, COMMA) + [close])) == Join([first] + parts, COMMA) + [close]
  {
    JoinOfMore(first, parts, COMMA);
    Assoc(first, [COMMA] + Join(parts, COMMA), [close]);
    Assoc([COMMA], Join(parts, COMMA), [close]);
  }

  lemma {:induction false} ElementsAreJoined(es: seq<Json>)
    requires es != []
    ensures Print(es[0]) + PrintElems(es[1..]) == Join(Printed(es), COMMA) + [CLOSE_BRACKET]
  {
    var rest := es[1..];
    if rest != [] {
      ElementsAreJoined(rest);
      MoreJoined(Print(es[0]), Printed(rest), CLOSE_BRACKET);
      assert Printed(es) == [Print(es[0])] + Printed(rest);
    }
  }

  lemma {:induction false} MembersAreJoined(ms: seq<Prop<Json>>)
    requires ms != []
    ensures PrintMember(ms[0]) + PrintMembers(ms[1..]) == Join(PrintedMembers(ms), COMMA) + [CLOSE_BRACE]
  {
    var rest := ms[1..];
    if rest != [] {
      MembersAreJoined(rest);
      MoreJoined(PrintMember(ms[0]), PrintedMembers(rest), CLOSE_BRACE);
      assert PrintedMembers(ms) == [PrintMember(ms[0])] + PrintedMembers(rest);
    }
  }

  lemma MemberIsSpelled(key: Text, value: Json)
    ensures PrintMember(Prop(key, value)) == Print(Str(key)) + ([':' as int] + Print(value))
  {
    Assoc([QUOTE], QuoteFrom(key, 0), [COLON] + Print(value));
  }

  /** The punctuation, with no blanks: elements and members in their order, with a comma between two. */
  lemma PrintSpells(es: seq<Json>, ms: seq<Prop<Json>>)
    ensures Print(Arr([])) == Ascii("[]") && Print(Obj([])) == Ascii("{}")
    ensures es != [] ==> Print(Arr(es)) == ['[' as int] + (Join(Printed(es), ',' as int) + [']' as int])
    ensures ms != [] ==> Print(Obj(ms)) == ['{' as int] + (Join(PrintedMembers(ms), ',' as int) + ['}' as int])
  {
    EmptyAreSpelled();
    if es != [] { ElementsAreJoined(es); }
    if ms != [] { MembersAreJoined(ms); }
  }

  lemma EmptyAreSpelled()
    ensures Print(Arr([])) == Ascii("[]") && Print(Obj([])) == Ascii("{}")
  {
    assert Ascii("[]") == [OPEN_BRACKET] + [CLOSE_BRACKET] && Ascii("{}") == [OPEN_BRACE] + [CLOSE_BRACE];
  }

  /** Half of a surrogate pair whose other half is not next to it. */
  ghost predicate IsUnpaired(s: Text, i: nat)
    requires i < |s|
  {
    (0xD800 <= s[i] <= 0xDBFF && !(i + 1 < |s| && 0xDC00 <= s[i + 1] <= 0xDFFF))
    || (0xDC00 <= s[i] <= 0xDFFF && !(i > 0 && 0xD800 <= s[i - 1] <= 0xDBFF))
  }

  /** A string is its units one after the other between quotation marks, escaped as they stand. */
  lemma QuotesUnitByUnit(s: Text, i: nat)
    requires i <= |s|
    ensures Print(Str(s)) == ['"' as int] + QuoteFrom(s, 0)
    ensures i == |s| ==> QuoteFrom(s, i) == ['"' as int]
    ensures i < |s| ==> QuoteFrom(s, i) == Escape(s[i], IsUnpaired(s, i)) + QuoteFrom(s, i + 1)
  {
  }

  // -------------------------------------------------------------- parsing

  datatype Parsed<+T> = Malformed | Got(value: T, rest: Text)

  /** The rest of a string literal, up to its closing quote. */
  function ParseChars(s: Text): (r: Parsed<Text>)
    ensures r.Got? ==> |r.rest| < |s|
  {
    if s == [] then Malformed
    else if s[0] == QUOTE then Got([], s[1..])
    else
      var unit := ParseUnit(s);
      if unit.Malformed? then Malformed else
        var more := ParseChars(unit.rest);
        if more.Malformed? then Malformed else Got([unit.value] + more.value, more.rest)
  }

  function ParseUnit(s: Text): (r: Parsed<CodeUnit>)
    requires s != []
    ensures r.Got? ==> |r.rest| < |s|
  {
    if s[0] < 32 then Malformed
    else if s[0] != BACKSLASH then Got(s[0], s[1..])
    else if |s| < 2 then Malformed
    else if s[1] == 117 then
      if |s| >= 6 && forall i | 2 <= i < 6 :: HexValue(s[i]) < 16 then
        Got(4096 * HexValue(s[2]) + 256 * HexValue(s[3]) + 16 * HexValue(s[4]) + HexValue(s[5]), s[6..])
      else Malformed
    else if s[1] == 98 then Got(8, s[2..])
    else if s[1] == 116 then Got(9, s[2..])
    else if s[1] == 110 then Got(10, s[2..])
    else if s[1] == 102 then Got(12, s[2..])
    else if s[1] == 114 then Got(13, s[2..])
    else if s[1] == QUOTE || s[1] == BACKSLASH || s[1] == 47 then Got(s[1], s[2..])
    else Malformed
  }

  /** An integer numeral without leading zeros. */
  function ParseInt(s: Text): (r: Parsed<int>)
    ensures r.Got? ==> |r.rest| < |s|
  {
    var negative := s != [] && s[0] == MINUS;
    var body := if negative then s[1..] else s;
    var n := DigitRun(body);
    if n == 0 || (n > 1 && body[0] == ZERO) then Malformed else
      var value: int := DigitsValue(body[..n]);
      Got(if negative then -value else value, body[n..])
  }

  function Parse(s: Text): (r: Parsed<Json>)
    ensures r.Got? ==> |r.rest| < |s|
    decreases |s|, 1
  {
    if s == [] then Malformed
    else if Ascii("null") <= s then Got(Null, s[4..])
    else if Ascii("true") <= s then Got(Bool(true), s[4..])
    else if Ascii("false") <= s then Got(Bool(false), s[5..])
    else if s[0] == QUOTE then
      var chars := ParseChars(s[1..]);
      if chars.Malformed? then Malformed else Got(Str(chars.value), chars.rest)
    else if s[0] == OPEN_BRACKET then
      if |s| > 1 && s[1] == CLOSE_BRACKET then Got(Arr([]), s[2..]) else
        var first := Parse(s[1..]);
        if first.Malformed? then Malformed else
          var more := ParseElems(first.rest);
          if more.Malformed? then Malformed else Got(Arr([first.value] + more.value), more.rest)
    else if s[0] == OPEN_BRACE then
      if |s| > 1 && s[1] == CLOSE_BRACE then Got(Obj([]), s[2..]) else
        var first := ParseMember(s[1..]);
        if first.Malformed? then Malformed else
          var more := ParseMembers(first.rest);
          if more.Malformed? then Malformed else Got(Obj([first.value] + more.value), more.rest)
    else
      var number := ParseInt(s);
      if number.Malformed? then Malformed else Got(Num(number.value), number.rest)
  }

  function ParseElems(s: Text): (r: Parsed<seq<Json>>)
    ensures r.Got? ==> |r.rest| < |s|
    decreases |s|, 0
  {
    if s == [] then Malformed
    else if s[0] == CLOSE_BRACKET then Got([], s[1..])
    else if s[0] != COMMA then Malformed
    else
      var first := Parse(s[1..]);
      if first.Malformed? then Malformed else
        var more := ParseElems(first.rest);
        if more.Malformed? then Malformed else Got([first.value] + more.value, more.rest)
  }

  function ParseMember(s: Text): (r: Parsed<Prop<Json>>)
    ensures r.Got? ==> |r.rest| < |s|
    decreases |s|, 2
  {
    if s == [] || s[0] != QUOTE then Malformed else
      var key := ParseChars(s[1..]);
      if key.Malformed? || key.rest == [] || key.rest[0] != COLON then Malformed else
        var value := Parse(key.rest[1..]);
        if value.Malformed? then Malformed else Got(Prop(key.value, value.value), value.rest)
  }

  function ParseMembers(s: Text): (r: Parsed<seq<Prop<Json>>>)
    ensures r.Got? ==> |r.rest| < |s|
    decreases |s|, 0
  {
    if s == [] then Malformed
    else if s[0] == CLOSE_BRACE then Got([], s[1..])
    else if s[0] != COMMA then Malformed
    else
      var first := ParseMember(s[1..]);
      if first.Malformed? then Malformed else
        var more := ParseMembers(first.rest);
        if more.Malformed? then Malformed else Got([first.value] + more.value, more.rest)
  }

  // ----------------------------------------------------------- round trip

  lemma Cons(u: CodeUnit, t: Text)
    ensures ([u] + t)[0] == u && ([u] + t)[1..] == t
  {
  }

  lemma Assoc(a: Text, b: Text, c: Text)
    ensures (a + b) + c == a + (b + c)
  {
  }

  lemma HexDigitValue(d: nat)
    requires d < 16
    ensures HexValue(HexDigit(d)) == d
  {
  }

  lemma ParseEscape(u: CodeUnit, lone: bool, rest: Text)
    ensures ParseUnit(Escape(u, lone) + rest) == Got(u, rest)
    ensures Escape(u, lone)[0] != QUOTE
  {
    var t := Escape(u, lone);
    assert (t + rest)[|t|..] == rest;
    if t[0] == BACKSLASH && |t| == 6 {
      ParseUnicodeEscape(u, rest);
    }
  }

  lemma ParseUnicodeEscape(u: CodeUnit, rest: Text)
    ensures ParseUnit(UnicodeEscape(u) + rest) == Got(u, rest)
  {
    var a, b, c, d := u / 4096, u / 256 % 16, u / 16 % 16, u % 16;
    HexNibbles(u);
    var s := UnicodeEscape(u) + rest;
    assert s[2] == HexDigit(a) && s[3] == HexDigit(b) && s[4] == HexDigit(c) && s[5] == HexDigit(d);
    HexDigitValue(a);
    HexDigitValue(b);
    HexDigitValue(c);
    HexDigitValue(d);
    assert s[6..] == rest;
  }

  lemma HexNibbles(u: CodeUnit)
    ensures u == 4096 * (u / 4096) + 256 * (u / 256 % 16) + 16 * (u / 16 % 16) + u % 16
  {
    var q, p := u / 16, u / 256;
    assert p == q / 16 && u / 4096 == p / 16;
    assert u == 16 * q + u % 16 && q == 16 * p + q % 16 && p == 16 * (p / 16) + p % 16;
  }

  lemma {:induction false} ParseQuote(s: Text, i: nat, rest: Text)
    requires i <= |s|
    ensures ParseChars(QuoteFrom(s, i) + rest) == Got(s[i..], rest)
    decreases |s| - i
  {
    if i < |s| {
      var head, tail := Escape(s[i], IsLone(s, i)), QuoteFrom(s, i + 1);
      Assoc(head, tail, rest);
      ParseEscape(s[i], IsLone(s, i), tail + rest);
      ParseQuote(s, i + 1, rest);
      assert s[i..] == [s[i]] + s[i + 1..];
      ParseCharsStep(head + (tail + rest), s[i], tail + rest, s[i + 1..], rest);
    } else {
      Cons(QUOTE, rest);
      assert s[i..] == [];
    }
  }

  lemma ParseCharsStep(s: Text, u: CodeUnit, mid: Text, units: Text, rest: Text)
    requires s != [] && s[0] != QUOTE && ParseUnit(s) == Got(u, mid) && ParseChars(mid) == Got(units, rest)
    ensures ParseChars(s) == Got([u] + units, rest)
  {
  }

  lemma ParseNumeral(n: int, rest: Text)
    requires n >= 0 && (rest == [] || !IsDigit(rest[0]))
    ensures ParseInt(Digits(n) + rest) == Got(n, rest)
    ensures ParseInt([MINUS] + Digits(n) + rest) == Got(-n, rest)
  {
    var digits := Digits(n);
    var body := digits + rest;
    DigitsRoundTrip(n);
    DigitRunIsMaximal(digits, rest);
    assert body[..|digits|] == digits && body[|digits|..] == rest && body[0] == digits[0];
    assert ([MINUS] + digits + rest)[1..] == body;
  }

  lemma ParseIntText(n: int, rest: Text)
    requires rest == [] || !IsDigit(rest[0])
    ensures ParseInt(IntText(n) + rest) == Got(n, rest)
  {
    ParseNumeral(if n < 0 then -n else n, rest);
  }

  /** What may follow a printed value so that a number does not run on. */
  predicate Stops(rest: Text) {
    rest == [] || !IsDigit(rest[0])
  }

  lemma ParsePrintKeyword(j: Json, rest: Text)
    requires j.Null? || j.Bool?
    ensures Parse(Print(j) + rest) == Got(j, rest)
  {
    var s := Print(j) + rest;
    assert Print(j) <= s && s[|Print(j)|..] == rest;
    assert Ascii("null")[0] == 110 && Ascii("true")[0] == 116 && Ascii("false")[0] == 102;
  }

  lemma ParsePrintNum(n: int, rest: Text)
    requires Stops(rest)
    ensures Parse(Print(Num(n)) + rest) == Got(Num(n), rest)
  {
    var s := IntText(n) + rest;
    assert Print(Num(n)) == IntText(n);
    ParseIntText(n, rest);
    ParseNumStep(s, n, rest);
  }

  lemma ParsePrintStr(t: Text, rest: Text)
    ensures Parse(Print(Str(t)) + rest) == Got(Str(t), rest)
  {
    var chars := QuoteFrom(t, 0);
    Assoc([QUOTE], chars, rest);
    Cons(QUOTE, chars + rest);
    ParseQuote(t, 0, rest);
    ParseStrStep([QUOTE] + (chars + rest), t, rest);
  }

  lemma ParseNumStep(s: Text, n: int, rest: Text)
    requires s != [] && (s[0] == MINUS || IsDigit(s[0])) && ParseInt(s) == Got(n, rest)
    ensures Parse(s) == Got(Num(n), rest)
  {
    assert s[0] != QUOTE && s[0] != OPEN_BRACKET && s[0] != OPEN_BRACE;
    NotAKeyword(s);
  }

  lemma NotAKeyword(s: Text)
    requires s != [] && s[0] != 110 && s[0] != 116 && s[0] != 102
    ensures !(Ascii("null") <= s) && !(Ascii("true") <= s) && !(Ascii("false") <= s)
  {
    assert Ascii("null")[0] == 110 && Ascii("true")[0] == 116 && Ascii("false")[0] == 102;
  }

  lemma ParseStrStep(s: Text, chars: Text, rest: Text)
    requires s != [] && s[0] == QUOTE && ParseChars(s[1..]) == Got(chars, rest)
    ensures Parse(s) == Got(Str(chars), rest)
  {
    NotAKeyword(s);
  }

  /** Reading a printed value gives the value back and leaves what followed it. */
  lemma {:induction false} ParsePrint(j: Json, rest: Text)
    requires Stops(rest)
    ensures Parse(Print(j) + rest) == Got(j, rest)
    decreases j, 1
  {
    match j
    case Null => ParsePrintKeyword(j, rest);
    case Bool(_) => ParsePrintKeyword(j, rest);
    case Num(n) => ParsePrintNum(n, rest);
    case Str(t) => ParsePrintStr(t, rest);
    case Arr(es) => ParsePrintArr(es, rest);
    case Obj(ms) => ParsePrintObj(ms, rest);
  }

  lemma {:induction false} ParsePrintArr(es: seq<Json>, rest: Text)
    requires Stops(rest)
    ensures Parse(Print(Arr(es)) + rest) == Got(Arr(es), rest)
    decreases es, 1
  {
    if es == [] {
      ParseEmpty(rest);
    } else {
      var first, more := Print(es[0]), PrintElems(es[1..]);
      Assoc([OPEN_BRACKET], first + more, rest);
      Assoc(first, more, rest);
      Cons(OPEN_BRACKET, first + (more + rest));
      ParsePrint(es[0], more + rest);
      ParsePrintElems(es[1..], rest);
      PrintStart(es[0]);
      ParseArrStep([OPEN_BRACKET] + (first + (more + rest)), es[0], more + rest, es[1..], rest);
      assert es == [es[0]] + es[1..];
    }
  }

  lemma ParseEmpty(rest: Text)
    ensures Parse([OPEN_BRACKET] + [CLOSE_BRACKET] + rest) == Got(Arr([]), rest)
    ensures Parse([OPEN_BRACE] + [CLOSE_BRACE] + rest) == Got(Obj([]), rest)
  {
    var a, o := [OPEN_BRACKET] + [CLOSE_BRACKET] + rest, [OPEN_BRACE] + [CLOSE_BRACE] + rest;
    NotAKeyword(a);
    NotAKeyword(o);
    assert a[2..] == rest && o[2..] == rest;
  }

  lemma {:induction false} ParsePrintObj(ms: seq<Prop<Json>>, rest: Text)
    requires Stops(rest)
    ensures Parse(Print(Obj(ms)) + rest) == Got(Obj(ms), rest)
    decreases ms, 1
  {
    if ms == [] {
      ParseEmpty(rest);
    } else {
      var first, more := PrintMember(ms[0]), PrintMembers(ms[1..]);
      Assoc([OPEN_BRACE], first + more, rest);
      Assoc(first, more, rest);
      Cons(OPEN_BRACE, first + (more + rest));
      ParsePrintMember(ms[0], more + rest);
      ParsePrintMembers(ms[1..], rest);
      ParseObjStep([OPEN_BRACE] + (first + (more + rest)), ms[0], more + rest, ms[1..], rest);
      assert ms == [ms[0]] + ms[1..];
    }
  }

  /** No value starts with a closing bracket. */
  lemma PrintStart(j: Json)
    ensures Print(j)[0] != CLOSE_BRACKET
  {
    if j.Num? && j.n >= 0 {
      assert IsDigit(Digits(j.n)[0]);
    }
  }

  lemma ParseArrStep(s: Text, e: Json, mid: Text, es: seq<Json>, rest: Text)
    requires |s| > 1 && s[0] == OPEN_BRACKET && s[1] != CLOSE_BRACKET
    requires Parse(s[1..]) == Got(e, mid) && ParseElems(mid) == Got(es, rest)
    ensures Parse(s) == Got(Arr([e] + es), rest)
  {
    NotAKeyword(s);
  }

  lemma ParseObjStep(s: Text, m: Prop<Json>, mid: Text, ms: seq<Prop<Json>>, rest: Text)
    requires |s| > 1 && s[0] == OPEN_BRACE && s[1] != CLOSE_BRACE
    requires ParseMember(s[1..]) == Got(m, mid) && ParseMembers(mid) == Got(ms, rest)
    ensures Parse(s) == Got(Obj([m] + ms), rest)
  {
    NotAKeyword(s);
  }

  lemma {:induction false} ParsePrintElems(es: seq<Json>, rest: Text)
    requires Stops(rest)
    ensures ParseElems(PrintElems(es) + rest) == Got(es, rest)
    decreases es, 0
  {
    if es == [] {
      Cons(CLOSE_BRACKET, rest);
    } else {
      var first, more := Print(es[0]), PrintElems(es[1..]);
      Assoc([COMMA], first + more, rest);
      Assoc(first, more, rest);
      Cons(COMMA, first + (more + rest));
      ParsePrint(es[0], more + rest);
      ParsePrintElems(es[1..], rest);
      assert es == [es[0]] + es[1..];
    }
  }

  lemma {:induction false} ParsePrintMember(m: Prop<Json>, rest: Text)
    requires Stops(rest)
    ensures ParseMember(PrintMember(m) + rest) == Got(m, rest)
    decreases m, 2
  {
    var key, value := QuoteFrom(m.key, 0), Print(m.value);
    Assoc([QUOTE], key + ([COLON] + value), rest);
    Assoc(key, [COLON] + value, rest);
    Assoc([COLON], value, rest);
    var tail := [COLON] + (value + rest);
    Cons(QUOTE, key + tail);
    Cons(COLON, value + rest);
    ParseQuote(m.key, 0, tail);
    ParsePrint(m.value, rest);
    ParseMemberStep([QUOTE] + (key + tail), m, tail, rest);
  }

  lemma ParseMemberStep(s: Text, m: Prop<Json>, mid: Text, rest: Text)
    requires s != [] && s[0] == QUOTE && ParseChars(s[1..]) == Got(m.key, mid)
    requires mid != [] && mid[0] == COLON && Parse(mid[1..]) == Got(m.value, rest)
    ensures ParseMember(s) == Got(m, rest)
  {
  }

  lemma {:induction false} ParsePrintMembers(ms: seq<Prop<Json>>, rest: Text)
    requires Stops(rest)
    ensures ParseMembers(PrintMembers(ms) + rest) == Got(ms, rest)
    decreases ms, 0
  {
    if ms == [] {
      Cons(CLOSE_BRACE, rest);
    } else {
      var first, more := PrintMember(ms[0]), PrintMembers(ms[1..]);
      Assoc([COMMA], first + more, rest);
      Assoc(first, more, rest);
      Cons(COMMA, first + (more + rest));
      ParsePrintMember(ms[0], more + rest);
      ParsePrintMembers(ms[1..], rest);
      assert ms == [ms[0]] + ms[1..];
    }
  }

  /** Printed values hold no control characters, so no newline. */
  predicate NoControls(t: Text) {
    forall i | 0 <= i < |t| :: t[i] >= 32
  }

  lemma {:induction false} QuoteHasNoControls(s: Text, i: nat)
    requires i <= |s|
    ensures NoControls(QuoteFrom(s, i))
    decreases |s| - i
  {
    if i < |s| {
      QuoteHasNoControls(s, i + 1);
      assert NoControls(Escape(s[i], IsLone(s, i)));
    }
  }

  lemma {:induction false} PrintHasNoControls(j: Json)
    ensures NoControls(Print(j))
    decreases j, 1
  {
    match j
    case Null =>
    case Bool(_) =>
    case Num(n) => assert AllDigits(Digits(if n < 0 then -n else n));
    case Str(s) => QuoteHasNoControls(s, 0);
    case Arr(es) => if es != [] { PrintHasNoControls(es[0]); PrintElemsHaveNoControls(es[1..]); }
    case Obj(ms) => if ms != [] { PrintMemberHasNoControls(ms[0]); PrintMembersHaveNoControls(ms[1..]); }
  }

  lemma {:induction false} PrintElemsHaveNoControls(es: seq<Json>)
    ensures NoControls(PrintElems(es))
    decreases es, 0
  {
    if es != [] { PrintHasNoControls(es[0]); PrintElemsHaveNoControls(es[1..]); }
  }

  lemma {:induction false} PrintMemberHasNoControls(m: Prop<Json>)
    ensures NoControls(PrintMember(m))
    decreases m, 2
  {
    QuoteHasNoControls(m.key, 0);
    PrintHasNoControls(m.value);
  }

  lemma {:induction false} PrintMembersHaveNoControls(ms: seq<Prop<Json>>)
    ensures NoControls(PrintMembers(ms))
    decreases ms, 0
  {
    if ms != [] { PrintMemberHasNoControls(ms[0]); PrintMembersHaveNoControls(ms[1..]); }
  }
}
