/**
 * src/global/hash.util.ts: the signing string, sign and verify. HMAC-SHA256 is the uninterpreted function `mac`
 * from secret and message to 64 lower-case hex digits; nothing is claimed about forging it.
 */
module Envelope {
  import opened Wrappers
  import opened Texts
  import opened Json
  import opened KeyOrder
  import opened Canonical
  import opened ReplayGuard

  const SIGNATURE_FIELD: Text := Ascii("_sig")
  const TIMESTAMP_FIELD: Text := Ascii("_ts")
  const NONCE_FIELD: Text := Ascii("_nonce")

  const ENVELOPE_FIELDS: set<Text> := {SIGNATURE_FIELD, TIMESTAMP_FIELD, NONCE_FIELD}

  lemma FieldsDiffer()
    ensures SIGNATURE_FIELD != TIMESTAMP_FIELD && TIMESTAMP_FIELD != NONCE_FIELD && NONCE_FIELD != SIGNATURE_FIELD
    ensures PROTO !in ENVELOPE_FIELDS
  {
    assert |SIGNATURE_FIELD| == 4 && |TIMESTAMP_FIELD| == 3 && |NONCE_FIELD| == 6 && |PROTO| == 9;
  }

  // ------------------------------------------------------ the signing string

  function Without(ps: seq<Prop<Value>>, keys: set<Text>): seq<Prop<Value>> {
    if ps == [] then []
    else if ps[0].key in keys then Without(ps[1..], keys)
    else [ps[0]] + Without(ps[1..], keys)
  }

  /** The enumerable own properties of an object that is no array. */
  function OwnProps(payload: Value): Option<seq<Prop<Value>>> {
    match payload
    case Record(ps) => Some(ps)
    case WithToJson(own, _) => Some(own)
    case _ => None
  }

  /** Spreading an object takes its own properties and loses its toJSON. */
  function StripEnvelope(payload: Value): Value {
    match OwnProps(payload)
    case None => payload
    case Some(ps) => Record(Without(ps, ENVELOPE_FIELDS))
  }

  /** `[a, b, c, d, e].join('\n')`. */
  function JoinLines(a: Text, b: Text, c: Text, d: Text, e: Text): Text {
    a + [NEWLINE] + (b + [NEWLINE] + (c + [NEWLINE] + (d + [NEWLINE] + e)))
  }

  function SigningMaterial(event: Text, timestamp: int, nonce: Text, payload: Value): Text {
    JoinLines(Ascii("v1"), event, IntText(timestamp), nonce, Canonicalize(StripEnvelope(payload)))
  }

  /** What stripping leaves of a record's meaning. */
  lemma {:induction false} WithoutIsWellFormed(ps: seq<Prop<Value>>, keys: set<Text>)
    requires DistinctKeys(ps) && WellFormedProps(ps)
    ensures DistinctKeys(Without(ps, keys)) && MapOf(Without(ps, keys)).Keys <= MapOf(ps).Keys
    ensures WellFormedProps(Without(ps, keys))
  {
    if ps != [] {
      WithoutIsWellFormed(ps[1..], keys);
      ConsMap(ps[0], Without(ps[1..], keys));
      ConsIsWellFormed(ps[0], Without(ps[1..], keys));
    }
  }

  lemma {:induction false} WithoutMeans(ps: seq<Prop<Value>>, keys: set<Text>)
    requires DistinctKeys(ps) && WellFormedProps(ps)
    ensures DistinctKeys(Without(ps, keys)) && WellFormedProps(Without(ps, keys))
    ensures DenoteProps(Without(ps, keys)) == DenoteProps(ps) - keys
  {
    WithoutIsWellFormed(ps, keys);
    if ps != [] {
      WithoutMeans(ps[1..], keys);
      if ps[0].key !in keys {
        assert Without(ps, keys)[1..] == Without(ps[1..], keys);
      }
    }
  }

  lemma StripIsWellFormed(payload: Value)
    requires WellFormed(payload)
    ensures WellFormed(StripEnvelope(payload))
  {
    if OwnProps(payload).Some? { WithoutMeans(OwnProps(payload).value, ENVELOPE_FIELDS); }
  }

  /** Splitting at the first newline is unambiguous when the head has none. */
  lemma SplitAtFirst(a: Text, x: Text, b: Text, y: Text)
    requires NEWLINE !in a && NEWLINE !in b
    requires a + [NEWLINE] + x == b + [NEWLINE] + y
    ensures a == b && x == y
  {
    var s, t := a + [NEWLINE] + x, b + [NEWLINE] + y;
    assert s[|a|] == NEWLINE && t[|b|] == NEWLINE;
    assert a == s[..|a|] && b == t[..|b|] && x == s[|a| + 1..] && y == t[|b| + 1..];
  }

  /** And at the last newline when the tail has none. */
  lemma SplitAtLast(x: Text, a: Text, y: Text, b: Text)
    requires NEWLINE !in a && NEWLINE !in b
    requires x + [NEWLINE] + a == y + [NEWLINE] + b
    ensures x == y && a == b
  {
    var s, t := x + [NEWLINE] + a, y + [NEWLINE] + b;
    assert s[|x|] == NEWLINE && t[|y|] == NEWLINE;
    assert x == s[..|x|] && y == t[..|y|] && a == s[|x| + 1..] && b == t[|y| + 1..];
  }

  lemma JoinLinesIsInjective(
    a: Text, b: Text, c: Text, d: Text, e: Text, b': Text, c': Text, d': Text, e': Text)
    requires NEWLINE !in b + c + e && NEWLINE !in b' + c' + e'
    requires JoinLines(a, b, c, d, e) == JoinLines(a, b', c', d', e')
    ensures b == b' && c == c' && d == d' && e == e'
  {
    var t2, t2' := d + [NEWLINE] + e, d' + [NEWLINE] + e';
    var t1, t1' := c + [NEWLINE] + t2, c' + [NEWLINE] + t2';
    var t0, t0' := b + [NEWLINE] + t1, b' + [NEWLINE] + t1';
    assert t0 == (a + [NEWLINE] + t0)[|a| + 1..] && t0' == (a + [NEWLINE] + t0')[|a| + 1..];
    SplitAtFirst(b, t1, b', t1');
    SplitAtFirst(c, t2, c', t2');
    SplitAtLast(d, e, d', e');
  }

  /** For newline-free events the signing string determines event, stamp, nonce and stripped payload. */
  lemma SigningMaterialIsInjective(
    e: Text, t: int, n: Text, p: Value,
    e': Text, t': int, n': Text, p': Value)
    requires NEWLINE !in e && NEWLINE !in e' && WellFormed(p) && WellFormed(p')
    ensures SigningMaterial(e, t, n, p) == SigningMaterial(e', t', n', p') <==>
      e == e' && t == t' && n == n' && MeaningOf(StripEnvelope(p)) == MeaningOf(StripEnvelope(p'))
  {
    var c, c' := Canonicalize(StripEnvelope(p)), Canonicalize(StripEnvelope(p'));
    StripIsWellFormed(p);
    StripIsWellFormed(p');
    CanonicalEquality(StripEnvelope(p), StripEnvelope(p'));
    if SigningMaterial(e, t, n, p) == SigningMaterial(e', t', n', p') {
      IntTextHasNoNewline(t);
      IntTextHasNoNewline(t');
      CanonicalHasNoNewline(StripEnvelope(p));
      CanonicalHasNoNewline(StripEnvelope(p'));
      JoinLinesIsInjective(Ascii("v1"), e, IntText(t), n, c, e', IntText(t'), n', c');
      IntTextInjective(t, t');
    }
  }

  /** Text up to its first newline. */
  function FirstLine(t: Text): (r: Text)
    ensures NEWLINE !in r && r <= t
    ensures |r| < |t| ==> t[|r|] == NEWLINE
  {
    if t == [] || t[0] == NEWLINE then [] else [t[0]] + FirstLine(t[1..])
  }

  /** A newline in the event moves the border between event and stamp: the rest of the old stamp's line is a nonce. */
  lemma NewlineEventsCollide(e: Text, t: int, t': int, n': Text, p: Value)
    ensures SigningMaterial(e, t, IntText(t') + [NEWLINE] + n', p)
         == SigningMaterial(e + [NEWLINE] + IntText(t), t', n', p)
  {
    MoveBorder(Ascii("v1"), e, IntText(t), IntText(t'), n', Canonicalize(StripEnvelope(p)));
  }

  lemma MoveBorder(a: Text, e: Text, t: Text, t': Text, n': Text, c: Text)
    ensures JoinLines(a, e, t, t' + [NEWLINE] + n', c) == JoinLines(a, e + [NEWLINE] + t, t', n', c)
  {
    var tail := n' + [NEWLINE] + c;
    assert t' + [NEWLINE] + n' + [NEWLINE] + c == t' + [NEWLINE] + tail;
    assert e + [NEWLINE] + (t + [NEWLINE] + (t' + [NEWLINE] + tail))
        == e + [NEWLINE] + t + [NEWLINE] + (t' + [NEWLINE] + tail);
  }

  /** `longer` is `event`, a newline, and a text whose first line is an integer numeral. */
  ghost predicate Extends(longer: Text, event: Text) {
    event + [NEWLINE] <= longer && exists t: int :: IntText(t) == FirstLine(longer[|event| + 1..])
  }

  /** Some messages verify would look at, under the two events, have one signed text. */
  ghost predicate CanCollide(e: Text, e': Text) {
    exists t, n, p, t', n', p' ::
      IsMessage(n, p) && IsMessage(n', p') && SigningMaterial(e, t, n, p) == SigningMaterial(e', t', n', p')
  }

  /** A nonce and an object. */
  predicate IsMessage(nonce: Text, payload: Value) {
    nonce != [] && OwnProps(payload).Some? && WellFormed(payload)
  }

  /** Exactly when two different events can share a signed text. */
  lemma WhenEventsCollide(e: Text, e': Text)
    requires e != e'
    ensures CanCollide(e, e') <==> Extends(e, e') || Extends(e', e)
  {
    if CanCollide(e, e') {
      var t, n, p, t', n', p' :| IsMessage(n, p) && IsMessage(n', p')
        && SigningMaterial(e, t, n, p) == SigningMaterial(e', t', n', p');
      CollidingEvents(e, t, n, p, e', t', n', p');
    }
    if Extends(e', e) {
      ExtensionsCollide(e, e');
    } else if Extends(e, e') {
      ExtensionsCollide(e', e);
      var t, n, p, t', n', p' :| IsMessage(n, p) && IsMessage(n', p')
        && SigningMaterial(e', t, n, p) == SigningMaterial(e, t', n', p');
      assert SigningMaterial(e, t', n', p') == SigningMaterial(e', t, n, p);
    }
  }

  lemma ExtensionsCollide(e: Text, e': Text)
    requires Extends(e', e)
    ensures CanCollide(e, e')
  {
    var x := e'[|e| + 1..];
    var t: int :| IntText(t) == FirstLine(x);
    Dissect(e + [NEWLINE], e');
    AfterFirstLine(x);
    if |x| == |IntText(t)| { ExactCollides(e, t); } else { LongCollides(e, t, x[|IntText(t)| + 1..]); }
  }

  lemma Dissect(head: Text, t: Text)
    requires head <= t
    ensures t == head + t[|head|..]
  {
  }

  lemma AfterFirstLine(x: Text)
    ensures |x| == |FirstLine(x)| ==> x == FirstLine(x)
    ensures |x| != |FirstLine(x)| ==> x == FirstLine(x) + [NEWLINE] + x[|FirstLine(x)| + 1..]
  {
  }

  lemma ExactCollides(e: Text, t: int)
    ensures CanCollide(e, e + [NEWLINE] + IntText(t))
  {
    var p, n := Record([]), [ZERO];
    NewlineEventsCollide(e, t, 0, n, p);
    assert IsMessage(IntText(0) + [NEWLINE] + n, p) && IsMessage(n, p);
  }

  lemma LongCollides(e: Text, t: int, y: Text)
    ensures CanCollide(e, e + [NEWLINE] + (IntText(t) + [NEWLINE] + y))
  {
    var p, n' := Record([]), [ZERO];
    var n := y + [NEWLINE] + IntText(0) + [NEWLINE] + n';
    LongerCollide(Ascii("v1"), e, IntText(t), y, IntText(0), n', Canonicalize(StripEnvelope(p)));
    assert IsMessage(n, p) && IsMessage(n', p);
    assert SigningMaterial(e, t, n, p) == SigningMaterial(e + [NEWLINE] + (IntText(t) + [NEWLINE] + y), 0, n', p);
  }

  lemma LongerCollide(a: Text, e: Text, t: Text, y: Text, t': Text, n': Text, c: Text)
    ensures JoinLines(a, e, t, y + [NEWLINE] + t' + [NEWLINE] + n', c)
         == JoinLines(a, e + [NEWLINE] + (t + [NEWLINE] + y), t', n', c)
  {
    var tail := t' + [NEWLINE] + (n' + [NEWLINE] + c);
    assert y + [NEWLINE] + t' + [NEWLINE] + n' + [NEWLINE] + c == y + [NEWLINE] + tail;
    assert e + [NEWLINE] + (t + [NEWLINE] + (y + [NEWLINE] + tail))
        == e + [NEWLINE] + (t + [NEWLINE] + y) + [NEWLINE] + tail;
  }

  lemma CollidingEvents(e: Text, t: int, n: Text, p: Value, e': Text, t': int, n': Text, p': Value)
    requires e != e' && SigningMaterial(e, t, n, p) == SigningMaterial(e', t', n', p')
    ensures Extends(e, e') || Extends(e', e)
  {
    IntTextHasNoNewline(t);
    IntTextHasNoNewline(t');
    var c, c' := Canonicalize(StripEnvelope(p)), Canonicalize(StripEnvelope(p'));
    var s, s' := IntText(t) + [NEWLINE] + (n + [NEWLINE] + c), IntText(t') + [NEWLINE] + (n' + [NEWLINE] + c');
    DropPrefix(Ascii("v1") + [NEWLINE], e + [NEWLINE] + s, e' + [NEWLINE] + s');
    if |e| < |e'| {
      LongerEvent(e, IntText(t), n + [NEWLINE] + c, e', s');
      assert IntText(t) == FirstLine(e'[|e| + 1..]);
    } else {
      assert |e'| < |e| by { if |e'| == |e| { SameLength(e, s, e', s'); } }
      LongerEvent(e', IntText(t'), n' + [NEWLINE] + c', e, s);
      assert IntText(t') == FirstLine(e[|e'| + 1..]);
    }
  }

  lemma DropPrefix(a: Text, s: Text, t: Text)
    requires a + s == a + t
    ensures s == t
  {
    assert s == (a + s)[|a|..] && t == (a + t)[|a|..];
  }

  lemma SameLength(e: Text, s: Text, e': Text, s': Text)
    requires |e| == |e'| && e + [NEWLINE] + s == e' + [NEWLINE] + s'
    ensures e == e'
  {
    assert e == (e + [NEWLINE] + s)[..|e|] && e' == (e' + [NEWLINE] + s')[..|e'|];
  }

  lemma LongerEvent(e: Text, line: Text, rest: Text, e': Text, s': Text)
    requires |e| < |e'| && NEWLINE !in line
    requires e + [NEWLINE] + (line + [NEWLINE] + rest) == e' + [NEWLINE] + s'
    ensures e + [NEWLINE] <= e' && FirstLine(e'[|e| + 1..]) == line
  {
    var w := e' + [NEWLINE] + s';
    assert w[..|e| + 1] == e + [NEWLINE] && e'[..|e| + 1] == w[..|e| + 1];
    var x := e'[|e| + 1..];
    assert w[|e| + 1..] == line + [NEWLINE] + rest && w[|e| + 1..] == x + [NEWLINE] + s';
    FirstLineEnds(line, rest);
    FirstLineOfLonger(x, s');
  }

  lemma {:induction false} FirstLineEnds(line: Text, rest: Text)
    requires NEWLINE !in line
    ensures FirstLine(line + [NEWLINE] + rest) == line
  {
    if line != [] {
      FirstLineEnds(line[1..], rest);
      assert (line + [NEWLINE] + rest)[1..] == line[1..] + [NEWLINE] + rest;
    }
  }

  lemma {:induction false} FirstLineOfLonger(x: Text, rest: Text)
    ensures FirstLine(x + [NEWLINE] + rest) == FirstLine(x)
  {
    if x != [] && x[0] != NEWLINE {
      FirstLineOfLonger(x[1..], rest);
      assert (x + [NEWLINE] + rest)[1..] == x[1..] + [NEWLINE] + rest;
    }
  }

  // --------------------------------------------------------- hex comparison

  predicate IsHex(t: Text) {
    t != [] && forall i | 0 <= i < |t| :: HexValue(t[i]) < 16
  }

  predicate IsLowerHex(t: Text) {
    forall i | 0 <= i < |t| :: HexValue(t[i]) < 16 && LowerUnit(t[i]) == t[i]
  }

  /** Buffer.from(text, 'hex'): whole pairs up to the first that is not hex. */
  function HexBytes(t: Text): seq<int> {
    if |t| < 2 || HexValue(t[0]) == 16 || HexValue(t[1]) == 16 then []
    else [16 * HexValue(t[0]) + HexValue(t[1])] + HexBytes(t[2..])
  }

  predicate EqualsInConstantTime(left: Text, right: Text) {
    var l, r := HexBytes(Lower(left)), HexBytes(Lower(right));
    |l| == |r| && |l| > 0 && l == r
  }

  lemma HexPair(a: CodeUnit, b: CodeUnit, c: CodeUnit, d: CodeUnit)
    requires IsLowerHex([a, b]) && IsLowerHex([c, d])
    ensures 16 * HexValue(a) + HexValue(b) == 16 * HexValue(c) + HexValue(d) <==> a == c && b == d
  {
    assert [a, b][0] == a && [a, b][1] == b && [c, d][0] == c && [c, d][1] == d;
  }

  /** The text without a trailing odd digit. */
  function Even(t: Text): Text {
    t[..|t| - |t| % 2]
  }

  lemma EvenTail(t: Text)
    requires |t| >= 2
    ensures Even(t) == [t[0], t[1]] + Even(t[2..])
  {
  }

  lemma {:induction false} HexBytesInjective(a: Text, b: Text)
    requires IsLowerHex(a) && IsLowerHex(b) && |b| % 2 == 0
    ensures HexBytes(a) == HexBytes(b) <==> Even(a) == b
  {
    if |a| >= 2 && |b| >= 2 {
      HexBytesInjective(a[2..], b[2..]);
      HexPair(a[0], a[1], b[0], b[1]);
      EvenTail(a);
      EvenTail(b);
      PairsAreEqual(16 * HexValue(a[0]) + HexValue(a[1]), HexBytes(a[2..]),
                    16 * HexValue(b[0]) + HexValue(b[1]), HexBytes(b[2..]));
      assert Even(b) == b && ([a[0], a[1]] + Even(a[2..]))[2..] == Even(a[2..]);
    }
  }

  lemma PairsAreEqual(x: int, s: seq<int>, y: int, t: seq<int>)
    ensures [x] + s == [y] + t <==> x == y && s == t
  {
    if [x] + s == [y] + t { assert ([x] + s)[0] == x && ([x] + s)[1..] == s && ([y] + t)[1..] == t; }
  }

  /** A hex signature is accepted exactly when, in lower case and without a trailing odd digit, it is the digest. */
  lemma SignatureComparison(signature: Text, expected: Text)
    requires IsHex(signature) && IsLowerHex(expected) && |expected| % 2 == 0 && expected != []
    ensures EqualsInConstantTime(signature, expected) <==>
      Even(Lower(signature)) == expected
  {
    assert Lower(expected) == expected;
    forall i | 0 <= i < |signature|
      ensures HexValue(Lower(signature)[i]) < 16 && LowerUnit(Lower(signature)[i]) == Lower(signature)[i]
    {
      assert HexValue(signature[i]) < 16;
    }
    HexBytesInjective(Lower(signature), expected);
    assert HexBytes(expected) != [];
  }

  // --------------------------------------------------------- sign and verify

  /** HMAC: secret, then message. */
  type Mac = (Text, Text) -> Text

  ghost predicate IsHexMac(mac: Mac) {
    forall k, m :: |mac(k, m)| == 64 && IsLowerHex(mac(k, m))
  }

  function Digest(mac: Mac, event: Text, timestamp: int, nonce: Text, payload: Value, secret: Text): Text {
    mac(secret, SigningMaterial(event, timestamp, nonce, payload))
  }

  /** `{ ...ps, [key]: value }`: an existing key keeps its place. */
  function SetProp(ps: seq<Prop<Value>>, key: Text, value: Value): seq<Prop<Value>> {
    if ps == [] then [Prop(key, value)]
    else if ps[0].key == key then [Prop(key, value)] + ps[1..]
    else [ps[0]] + SetProp(ps[1..], key, value)
  }

  function GetProp(ps: seq<Prop<Value>>, key: Text): Value {
    if key in MapOf(ps) then MapOf(ps)[key] else Undef
  }

  /** sign, for a plain object given by its own properties; no secret leaves the payload as it was. */
  function Sign(
    mac: Mac, event: Text, ps: seq<Prop<Value>>, secret: Option<Text>, timestamp: int, nonce: Text): Value
  {
    if secret.None? || secret.value == [] then Record(ps) else
      var digest := Digest(mac, event, timestamp, nonce, Record(ps), secret.value);
      Record(SetProp(SetProp(SetProp(ps, TIMESTAMP_FIELD, Number(timestamp)), NONCE_FIELD, Chars(nonce)),
                     SIGNATURE_FIELD, Chars(digest)))
  }

  datatype VerifyFailure =
    | NoSecret
    | MissingSignature
    | MalformedSignature
    | MissingTimestamp
    | MissingNonce
    | Expired
    | Replayed
    | InvalidSignature

  datatype Verdict = Accepted | Rejected(reason: VerifyFailure)

  /** The checks that come before clock and memory. On success: the nonce and stamp the signature covers. */
  function CheckSignature(mac: Mac, event: Text, payload: Value, secret: Option<Text>): Result<Call, VerifyFailure> {
    if secret.None? || secret.value == [] then Failure(NoSecret)
    else if OwnProps(payload).None? then Failure(MissingSignature)
    else
      var ps := OwnProps(payload).value;
      var signature, timestamp := GetProp(ps, SIGNATURE_FIELD), GetProp(ps, TIMESTAMP_FIELD);
      var nonce := GetProp(ps, NONCE_FIELD);
      if !signature.Chars? || signature.s == [] then Failure(MissingSignature)
      else if !timestamp.Number? then Failure(MissingTimestamp)
      else if !nonce.Chars? || nonce.s == [] then Failure(MissingNonce)
      else if !IsHex(signature.s) then Failure(MalformedSignature)
      else if !EqualsInConstantTime(signature.s, Digest(mac, event, timestamp.n, nonce.s, payload, secret.value)) then
        Failure(InvalidSignature)
      else Success(Call(nonce.s, timestamp.n))
  }

  /** CheckSignature and the clock: what decides whether the memory is consulted. */
  function CheckFresh(mac: Mac, event: Text, payload: Value, secret: Option<Text>, skew: int, now: int)
    : Result<Call, VerifyFailure>
  {
    var checked := CheckSignature(mac, event, payload, secret);
    if checked.Success? && skew > 0 && Distance(now, checked.value.stamp) > skew then Failure(Expired) else checked
  }

  datatype Verified = Verified(verdict: Verdict, seen: map<Text, int>)

  function VerifyWith(
    mac: Mac, event: Text, payload: Value, secret: Option<Text>, skew: int, now: int,
    seen: map<Text, int>, window: int): Verified
  {
    match CheckFresh(mac, event, payload, secret, skew, now)
    case Failure(reason) => Verified(Rejected(reason), seen)
    case Success(call) =>
      var r := Remember(seen, window, call.nonce, call.stamp);
      Verified(if r.isNew then Accepted else Rejected(Replayed), r.seen)
  }

  /** verify with a guard. */
  method Verify(
    mac: Mac, event: Text, payload: Value, secret: Option<Text>, skew: int, now: int, guard: Guard)
    returns (verdict: Verdict)
    modifies guard
    ensures Verified(verdict, guard.seen) ==
      VerifyWith(mac, event, payload, secret, skew, now, old(guard.seen), guard.windowMs)
  {
    var checked := CheckSignature(mac, event, payload, secret);
    if checked.Failure? { return Rejected(checked.error); }
    if skew > 0 && Distance(now, checked.value.stamp) > skew { return Rejected(Expired); }
    var isNew := guard.RememberNonce(checked.value.nonce, checked.value.stamp);
    return if isNew then Accepted else Rejected(Replayed);
  }

  /** A message that fails before the memory is consulted leaves no trace in it. */
  lemma BadSignatureBurnsNoNonce(
    mac: Mac, event: Text, payload: Value, secret: Option<Text>, skew: int, now: int,
    seen: map<Text, int>, window: int)
    ensures var v := VerifyWith(mac, event, payload, secret, skew, now, seen, window);
      v.verdict.Rejected? && v.verdict.reason != Replayed ==> v.seen == seen
  {
  }

  // ------------------------------------------------------- the wire round trip

  lemma ConsIsWellFormed(p: Prop<Value>, ps: seq<Prop<Value>>)
    requires p.key != PROTO && WellFormed(p.value) && WellFormedProps(ps)
    ensures WellFormedProps([p] + ps)
  {
  }

  lemma {:induction false} SetPropIsWellFormed(ps: seq<Prop<Value>>, key: Text, value: Value)
    requires WellFormedProps(ps) && key != PROTO && WellFormed(value)
    ensures WellFormedProps(SetProp(ps, key, value))
  {
    if ps != [] {
      assert WellFormedProps(ps[1..]);
      if ps[0].key == key {
        ConsIsWellFormed(Prop(key, value), ps[1..]);
      } else {
        SetPropIsWellFormed(ps[1..], key, value);
        ConsIsWellFormed(ps[0], SetProp(ps[1..], key, value));
      }
    }
  }

  lemma {:induction false} SetPropSets(ps: seq<Prop<Value>>, key: Text, value: Value)
    requires DistinctKeys(ps)
    ensures DistinctKeys(SetProp(ps, key, value)) && MapOf(SetProp(ps, key, value)) == MapOf(ps)[key := value]
  {
    if ps == [] {
      ConsMap(Prop(key, value), ps);
    } else if ps[0].key == key {
      ConsMap(Prop(key, value), ps[1..]);
    } else {
      SetPropSets(ps[1..], key, value);
      ConsMap(ps[0], SetProp(ps[1..], key, value));
      Commute(MapOf(ps[1..]), key, value, ps[0].key, ps[0].value);
    }
  }

  lemma Commute<V>(m: map<Text, V>, a: Text, x: V, b: Text, y: V)
    requires a != b
    ensures m[a := x][b := y] == m[b := y][a := x]
  {
  }

  lemma SetPropMeans(ps: seq<Prop<Value>>, key: Text, value: Value)
    requires WellFormed(Record(ps)) && key != PROTO && WellFormed(value) && Denote(value).Some?
    ensures WellFormed(Record(SetProp(ps, key, value)))
    ensures DenoteProps(SetProp(ps, key, value)) == DenoteProps(ps)[key := Denote(value).value]
  {
    SetPropSets(ps, key, value);
    SetPropIsWellFormed(ps, key, value);
    DenotePropsByKey(ps);
    DenotePropsByKey(SetProp(ps, key, value));
  }

  /** JSON.parse as a payload. */
  function FromJson(j: Json): Value
    decreases j, 1
  {
    match j
    case Null => Nil
    case Bool(b) => Flag(b)
    case Num(n) => Number(n)
    case Str(s) => Chars(s)
    case Arr(es) => List(FromElems(es))
    case Obj(ms) => Record(FromMembers(ms))
  }

  function FromElems(es: seq<Json>): (r: seq<Value>)
    ensures |r| == |es| && forall i | 0 <= i < |es| :: r[i] == FromJson(es[i])
    decreases es, 0
  {
    if es == [] then [] else [FromJson(es[0])] + FromElems(es[1..])
  }

  function FromMembers(ms: seq<Prop<Json>>): seq<Prop<Value>>
    decreases ms, 0
  {
    if ms == [] then [] else [Prop(ms[0].key, FromJson(ms[0].value))] + FromMembers(ms[1..])
  }

  /** No duplicate keys and no `__proto__`, at any depth. */
  predicate CleanJson(j: Json)
    decreases j, 1
  {
    match j
    case Arr(es) => forall i | 0 <= i < |es| :: CleanJson(es[i])
    case Obj(ms) => DistinctKeys(ms) && CleanMembers(ms)
    case _ => true
  }

  predicate CleanMembers(ms: seq<Prop<Json>>)
    decreases ms, 0
  {
    forall i | 0 <= i < |ms| :: ms[i].key != PROTO && CleanJson(ms[i].value)
  }

  lemma {:induction false} FromJsonMeans(j: Json)
    requires CleanJson(j)
    ensures WellFormed(FromJson(j)) && Denote(FromJson(j)) == Some(DenoteJson(j))
    decreases j, 1
  {
    match j
    case Arr(es) =>
      forall i | 0 <= i < |es|
        ensures WellFormed(FromElems(es)[i]) && Denote(FromElems(es)[i]) == Some(DenoteJson(es[i]))
      {
        FromJsonMeans(es[i]);
      }
      assert DenoteElems(FromElems(es)) == DenoteJsons(es);
    case Obj(ms) => FromMembersMean(ms);
    case _ =>
  }

  lemma {:induction false} FromMembersMean(ms: seq<Prop<Json>>)
    requires DistinctKeys(ms) && CleanMembers(ms)
    ensures DistinctKeys(FromMembers(ms)) && MapOf(FromMembers(ms)).Keys == MapOf(ms).Keys
    ensures WellFormedProps(FromMembers(ms)) && DenoteProps(FromMembers(ms)) == DenoteMembers(ms)
    decreases ms, 0
  {
    if ms != [] {
      FromMembersMean(ms[1..]);
      FromJsonMeans(ms[0].value);
      assert FromMembers(ms)[1..] == FromMembers(ms[1..]);
      assert MapOf(FromMembers(ms)).Keys == MapOf(FromMembers(ms[1..])).Keys + {ms[0].key};
      assert MapOf(ms).Keys == MapOf(ms[1..]).Keys + {ms[0].key};
    }
  }

  /** The envelope a signed payload denotes, over whatever the payload said before. */
  function SignedMeaning(ps: seq<Prop<Value>>, timestamp: int, nonce: Text, digest: Text): map<Text, Meaning> {
    DenoteProps(ps)[TIMESTAMP_FIELD := MNum(timestamp)][NONCE_FIELD := MStr(nonce)][SIGNATURE_FIELD := MStr(digest)]
  }

  lemma SignMeans(mac: Mac, event: Text, ps: seq<Prop<Value>>, secret: Text, timestamp: int, nonce: Text)
    requires WellFormed(Record(ps)) && secret != []
    ensures MeaningOf(Sign(mac, event, ps, Some(secret), timestamp, nonce)) ==
      MObj(SignedMeaning(ps, timestamp, nonce, Digest(mac, event, timestamp, nonce, Record(ps), secret)))
  {
    FieldsDiffer();
    var digest := Chars(Digest(mac, event, timestamp, nonce, Record(ps), secret));
    SetPropMeans(ps, TIMESTAMP_FIELD, Number(timestamp));
    var p1 := SetProp(ps, TIMESTAMP_FIELD, Number(timestamp));
    SetPropMeans(p1, NONCE_FIELD, Chars(nonce));
    SetPropMeans(SetProp(p1, NONCE_FIELD, Chars(nonce)), SIGNATURE_FIELD, digest);
  }

  /** A member of a parsed message that means a string or a number is that string or number. */
  lemma ReadsBack(ps: seq<Prop<Value>>, key: Text)
    requires DistinctKeys(ps) && key in DenoteProps(ps)
    ensures Denote(GetProp(ps, key)) == Some(DenoteProps(ps)[key])
  {
    DenotePropsByKey(ps);
  }

  /** What a parsed message holds is never a toJSON wrapper. */
  lemma {:induction false} MembersAreParsed(ms: seq<Prop<Json>>, key: Text)
    ensures !GetProp(FromMembers(ms), key).WithToJson?
  {
    if ms != [] {
      MembersAreParsed(ms[1..], key);
      assert FromMembers(ms)[1..] == FromMembers(ms[1..]);
    }
  }

  /** Any JSON copy of a signed payload passes the signature check with the nonce and stamp it was signed with. */
  lemma SignedCopyChecks(
    mac: Mac, event: Text, ps: seq<Prop<Value>>, secret: Text, timestamp: int, nonce: Text, copy: seq<Prop<Json>>)
    requires IsHexMac(mac) && WellFormed(Record(ps)) && secret != [] && nonce != []
    requires CleanJson(Obj(copy))
    requires DenoteJson(Obj(copy)) == MeaningOf(Sign(mac, event, ps, Some(secret), timestamp, nonce))
    ensures CheckSignature(mac, event, FromJson(Obj(copy)), Some(secret)) == Success(Call(nonce, timestamp))
  {
    var digest := Digest(mac, event, timestamp, nonce, Record(ps), secret);
    var qs := FromMembers(copy);
    SignMeans(mac, event, ps, secret, timestamp, nonce);
    FromMembersMean(copy);
    CopyDenotes(ps, qs, timestamp, nonce, digest);
    EnvelopeReads(copy, timestamp, nonce, digest);
    SameDigest(mac, event, ps, qs, secret, timestamp, nonce);
    CheckPasses(mac, event, qs, secret, timestamp, nonce, digest);
  }

  lemma CopyDenotes(ps: seq<Prop<Value>>, qs: seq<Prop<Value>>, timestamp: int, nonce: Text, digest: Text)
    requires DenoteProps(qs) == SignedMeaning(ps, timestamp, nonce, digest)
    ensures var said := DenoteProps(qs);
      ENVELOPE_FIELDS <= said.Keys && said[TIMESTAMP_FIELD] == MNum(timestamp)
      && said[NONCE_FIELD] == MStr(nonce) && said[SIGNATURE_FIELD] == MStr(digest)
      && said - ENVELOPE_FIELDS == DenoteProps(ps) - ENVELOPE_FIELDS
  {
    FieldsDiffer();
  }

  lemma CheckPasses(
    mac: Mac, event: Text, qs: seq<Prop<Value>>, secret: Text, timestamp: int, nonce: Text, digest: Text)
    requires secret != [] && nonce != [] && |digest| == 64 && IsLowerHex(digest)
    requires GetProp(qs, TIMESTAMP_FIELD) == Number(timestamp)
    requires GetProp(qs, NONCE_FIELD) == Chars(nonce)
    requires GetProp(qs, SIGNATURE_FIELD) == Chars(digest)
    requires Digest(mac, event, timestamp, nonce, Record(qs), secret) == digest
    ensures CheckSignature(mac, event, Record(qs), Some(secret)) == Success(Call(nonce, timestamp))
  {
    MatchesItself(digest);
  }

  lemma MatchesItself(digest: Text)
    requires |digest| == 64 && IsLowerHex(digest)
    ensures IsHex(digest) && EqualsInConstantTime(digest, digest)
  {
    SignatureComparison(digest, digest);
    assert Lower(digest) == digest;
  }

  /**
   * Any JSON copy of a signed payload verifies: keys in any order, undefined members gone, whatever envelope fields
   * the payload carried before, as long as the stamp is within the skew and the memory does not hold the nonce.
   */
  lemma SignedCopyVerifies(
    mac: Mac, event: Text, ps: seq<Prop<Value>>, secret: Text, timestamp: int, nonce: Text,
    copy: seq<Prop<Json>>, skew: int, now: int, seen: map<Text, int>, window: int)
    requires IsHexMac(mac) && WellFormed(Record(ps)) && secret != [] && nonce != []
    requires CleanJson(Obj(copy))
    requires DenoteJson(Obj(copy)) == MeaningOf(Sign(mac, event, ps, Some(secret), timestamp, nonce))
    requires skew <= 0 || Distance(now, timestamp) <= skew
    requires nonce !in Pruned(seen, window, timestamp)
    ensures VerifyWith(mac, event, FromJson(Obj(copy)), Some(secret), skew, now, seen, window)
      == Verified(Accepted, Pruned(seen, window, timestamp)[nonce := timestamp])
  {
    SignedCopyChecks(mac, event, ps, secret, timestamp, nonce, copy);
  }

  lemma {:induction false} EmitIsClean(v: Value)
    requires WellFormed(v) && Emit(v).Some?
    ensures CleanJson(Emit(v).value)
    decreases v, 1
  {
    match v
    case List(es) =>
      forall i | 0 <= i < |es| ensures CleanJson(EmitElems(es)[i]) {
        if Emit(es[i]).Some? { EmitIsClean(es[i]); }
      }
    case Record(ps) =>
      var ms := EmitProps(ps);
      StringifiedPropsKeepMeaning(ps);
      OwnOrderKeepsAll(ms);
      EmittedPropsAreClean(ps);
      forall i | 0 <= i < |OwnOrder(ms)| ensures OwnOrder(ms)[i].key != PROTO && CleanJson(OwnOrder(ms)[i].value) {
        assert OwnOrder(ms)[i] in ms;
      }
    case WithToJson(_, r) => EmitIsClean(r);
    case _ =>
  }

  lemma {:induction false} EmittedPropsAreClean(ps: seq<Prop<Value>>)
    requires WellFormedProps(ps)
    ensures CleanMembers(EmitProps(ps))
    decreases ps, 0
  {
    if ps != [] {
      assert WellFormedProps(ps[1..]);
      EmittedPropsAreClean(ps[1..]);
      if Emit(ps[0].value).Some? { EmitIsClean(ps[0].value); }
    }
  }

  lemma SignIsWellFormed(mac: Mac, event: Text, ps: seq<Prop<Value>>, secret: Text, timestamp: int, nonce: Text)
    requires WellFormed(Record(ps)) && secret != []
    ensures WellFormed(Sign(mac, event, ps, Some(secret), timestamp, nonce))
  {
    FieldsDiffer();
    var p1 := SetProp(ps, TIMESTAMP_FIELD, Number(timestamp));
    var p2 := SetProp(p1, NONCE_FIELD, Chars(nonce));
    SetPropMeans(ps, TIMESTAMP_FIELD, Number(timestamp));
    SetPropMeans(p1, NONCE_FIELD, Chars(nonce));
    SetPropMeans(p2, SIGNATURE_FIELD, Chars(Digest(mac, event, timestamp, nonce, Record(ps), secret)));
  }

  /** The way of a real message: signed, printed as it is, parsed at the other end, and found good. */
  lemma SentMessageChecks(mac: Mac, event: Text, ps: seq<Prop<Value>>, secret: Text, timestamp: int, nonce: Text)
    requires IsHexMac(mac) && WellFormed(Record(ps)) && secret != [] && nonce != []
    ensures var sent := Emit(Sign(mac, event, ps, Some(secret), timestamp, nonce));
      && sent.Some? && Parse(Print(sent.value)) == Got(sent.value, [])
      && CheckSignature(mac, event, FromJson(sent.value), Some(secret)) == Success(Call(nonce, timestamp))
  {
    var signed := Sign(mac, event, ps, Some(secret), timestamp, nonce);
    SignIsWellFormed(mac, event, ps, secret, timestamp, nonce);
    StringifyKeepsMeaning(signed);
    EmitIsClean(signed);
    var sent := Emit(signed).value;
    ParsePrint(sent, []);
    assert Print(sent) + [] == Print(sent);
    SignedCopyChecks(mac, event, ps, secret, timestamp, nonce, sent.members);
  }

  lemma EnvelopeReads(copy: seq<Prop<Json>>, timestamp: int, nonce: Text, digest: Text)
    requires CleanJson(Obj(copy))
    requires var said := DenoteProps(FromMembers(copy));
      ENVELOPE_FIELDS <= said.Keys && said[TIMESTAMP_FIELD] == MNum(timestamp)
      && said[NONCE_FIELD] == MStr(nonce) && said[SIGNATURE_FIELD] == MStr(digest)
    ensures GetProp(FromMembers(copy), TIMESTAMP_FIELD) == Number(timestamp)
    ensures GetProp(FromMembers(copy), NONCE_FIELD) == Chars(nonce)
    ensures GetProp(FromMembers(copy), SIGNATURE_FIELD) == Chars(digest)
  {
    var qs := FromMembers(copy);
    FromMembersMean(copy);
    ReadsBack(qs, TIMESTAMP_FIELD);
    ReadsBack(qs, NONCE_FIELD);
    ReadsBack(qs, SIGNATURE_FIELD);
    MembersAreParsed(copy, TIMESTAMP_FIELD);
    MembersAreParsed(copy, NONCE_FIELD);
    MembersAreParsed(copy, SIGNATURE_FIELD);
  }

  /** Payload and signed copy strip to the same meaning, so both ends compute the same digest. */
  lemma SameDigest(
    mac: Mac, event: Text, ps: seq<Prop<Value>>, qs: seq<Prop<Value>>, secret: Text, timestamp: int, nonce: Text)
    requires WellFormed(Record(ps)) && WellFormed(Record(qs))
    requires DenoteProps(qs) - ENVELOPE_FIELDS == DenoteProps(ps) - ENVELOPE_FIELDS
    ensures Digest(mac, event, timestamp, nonce, Record(qs), secret)
         == Digest(mac, event, timestamp, nonce, Record(ps), secret)
  {
    WithoutMeans(ps, ENVELOPE_FIELDS);
    WithoutMeans(qs, ENVELOPE_FIELDS);
    CanonicalEquality(StripEnvelope(Record(ps)), StripEnvelope(Record(qs)));
  }

  // --------------------------------------------------------- accepted once

  /** One call of verify with a shared guard. */
  datatype Attempt = Attempt(event: Text, payload: Value, secret: Option<Text>, now: int)

  function SeenBefore(mac: Mac, skew: int, window: int, run: seq<Attempt>, k: nat): map<Text, int>
    requires k <= |run|
  {
    if k == 0 then map[] else
      var a := run[k - 1];
      VerifyWith(mac, a.event, a.payload, a.secret, skew, a.now, SeenBefore(mac, skew, window, run, k - 1), window).seen
  }

  predicate IsAccepted(mac: Mac, skew: int, window: int, run: seq<Attempt>, k: nat)
    requires k < |run|
  {
    var a, seen := run[k], SeenBefore(mac, skew, window, run, k);
    VerifyWith(mac, a.event, a.payload, a.secret, skew, a.now, seen, window).verdict.Accepted?
  }

  function Claimed(mac: Mac, a: Attempt): Result<Call, VerifyFailure> {
    CheckSignature(mac, a.event, a.payload, a.secret)
  }

  /** The clock never runs back and no valid message is stamped ahead of it. */
  predicate SaneClock(mac: Mac, run: seq<Attempt>) {
    && (forall i, j | 0 <= i < j < |run| :: run[i].now <= run[j].now)
    && (forall i | 0 <= i < |run| :: Claimed(mac, run[i]).Success? ==> Claimed(mac, run[i]).value.stamp <= run[i].now)
  }

  predicate Holds(seen: map<Text, int>, c: Call) {
    c.nonce in seen && seen[c.nonce] == c.stamp
  }

  /** One more message either leaves a held nonce alone or shows that the clock has left its window. */
  lemma HeldStep(mac: Mac, skew: int, window: int, a: Attempt, seen: map<Text, int>, c: Call)
    requires 0 < skew <= window && Holds(seen, c) && c.stamp <= a.now
    requires Claimed(mac, a).Success? ==> Claimed(mac, a).value.stamp <= a.now
    ensures Holds(VerifyWith(mac, a.event, a.payload, a.secret, skew, a.now, seen, window).seen, c)
      || a.now > c.stamp + window
  {
    var checked := CheckFresh(mac, a.event, a.payload, a.secret, skew, a.now);
    if checked.Success? && Distance(checked.value.stamp, c.stamp) <= window {
      assert c.nonce in Pruned(seen, window, checked.value.stamp);
    }
  }

  lemma SeenNext(mac: Mac, skew: int, window: int, run: seq<Attempt>, k: nat)
    requires k < |run|
    ensures var a := run[k];
      SeenBefore(mac, skew, window, run, k + 1) == VerifyWith(
        mac, a.event, a.payload, a.secret, skew, a.now, SeenBefore(mac, skew, window, run, k), window).seen
  {
  }

  lemma AcceptedIsHeld(mac: Mac, skew: int, window: int, run: seq<Attempt>, i: nat)
    requires i < |run| && IsAccepted(mac, skew, window, run, i)
    ensures Claimed(mac, run[i]).Success?
    ensures Holds(SeenBefore(mac, skew, window, run, i + 1), Claimed(mac, run[i]).value)
  {
  }

  /** The call is held before message k, or the clock of message k - 1 has left its window. */
  predicate HeldOrPast(mac: Mac, skew: int, window: int, run: seq<Attempt>, c: Call, k: nat)
    requires 0 < k <= |run|
  {
    Holds(SeenBefore(mac, skew, window, run, k), c) || run[k - 1].now > c.stamp + window
  }

  lemma HeldOrPastNext(mac: Mac, skew: int, window: int, run: seq<Attempt>, c: Call, k: nat)
    requires 0 < skew <= window && SaneClock(mac, run) && 0 < k < |run| && c.stamp <= run[k].now
    requires HeldOrPast(mac, skew, window, run, c, k)
    ensures HeldOrPast(mac, skew, window, run, c, k + 1)
  {
    assert run[k - 1].now <= run[k].now;
    if Holds(SeenBefore(mac, skew, window, run, k), c) {
      SeenNext(mac, skew, window, run, k);
      HeldStep(mac, skew, window, run[k], SeenBefore(mac, skew, window, run, k), c);
    }
  }

  lemma {:induction false} HeldOrPastUntil(
    mac: Mac, skew: int, window: int, run: seq<Attempt>, c: Call, i: nat, k: nat)
    requires 0 < skew <= window && SaneClock(mac, run) && i < k <= |run| && c.stamp <= run[i].now
    requires HeldOrPast(mac, skew, window, run, c, i + 1)
    ensures HeldOrPast(mac, skew, window, run, c, k)
    decreases k
  {
    if k > i + 1 {
      HeldOrPastUntil(mac, skew, window, run, c, i, k - 1);
      assert run[i].now <= run[k - 1].now;
      HeldOrPastNext(mac, skew, window, run, c, k - 1);
    }
  }

  /** From its acceptance on, a nonce is held with its stamp, until the clock has left the window for good. */
  lemma HeldWhileValid(mac: Mac, skew: int, window: int, run: seq<Attempt>, i: nat, k: nat)
    requires 0 < skew <= window && SaneClock(mac, run) && i < k <= |run| && IsAccepted(mac, skew, window, run, i)
    ensures HeldOrPast(mac, skew, window, run, Claimed(mac, run[i]).value, k)
  {
    AcceptedIsHeld(mac, skew, window, run, i);
    HeldOrPastUntil(mac, skew, window, run, Claimed(mac, run[i]).value, i, k);
  }

  /** With a sane clock one guard accepts each signed message at most once over the whole run. */
  lemma AcceptedAtMostOnce(mac: Mac, skew: int, window: int, run: seq<Attempt>, i: nat, j: nat)
    requires 0 < skew <= window && SaneClock(mac, run) && i < j < |run|
    requires Claimed(mac, run[j]) == Claimed(mac, run[i]) && IsAccepted(mac, skew, window, run, i)
    ensures !IsAccepted(mac, skew, window, run, j)
  {
    HeldWhileValid(mac, skew, window, run, i, j);
    assert run[j - 1].now <= run[j].now;
  }

  // ------------------------------------------------- accepted again, exactly

  function Checked(mac: Mac, skew: int, a: Attempt): Result<Call, VerifyFailure> {
    CheckFresh(mac, a.event, a.payload, a.secret, skew, a.now)
  }

  /** The message passes the checks and is stamped more than the window from the call. */
  predicate IsFar(mac: Mac, skew: int, window: int, a: Attempt, c: Call) {
    Checked(mac, skew, a).Success? && Distance(Checked(mac, skew, a).value.stamp, c.stamp) > window
  }

  /** Some message in (i, j] is far from the call. */
  predicate FarMessage(mac: Mac, skew: int, window: int, run: seq<Attempt>, c: Call, i: nat, j: nat)
    requires i <= j < |run|
  {
    exists k | i < k <= j :: IsFar(mac, skew, window, run[k], c)
  }

  /** No message strictly between is accepted for this nonce. */
  predicate NoneBetween(mac: Mac, skew: int, window: int, run: seq<Attempt>, i: nat, j: nat, nonce: Text)
    requires j <= |run|
  {
    forall k | i < k < j :: !Accepts(mac, skew, window, run, k, nonce)
  }

  predicate Accepts(mac: Mac, skew: int, window: int, run: seq<Attempt>, k: nat, nonce: Text)
    requires k < |run|
  {
    IsAccepted(mac, skew, window, run, k) && Claimed(mac, run[k]).value.nonce == nonce
  }

  /** One message that is not accepted for the nonce: it stays held exactly if the message is not far. */
  lemma HeldUnlessFar(mac: Mac, skew: int, window: nat, a: Attempt, seen: map<Text, int>, c: Call)
    requires var v := VerifyWith(mac, a.event, a.payload, a.secret, skew, a.now, seen, window);
      v.verdict.Accepted? ==> Claimed(mac, a).value.nonce != c.nonce
    requires c.nonce in seen ==> seen[c.nonce] == c.stamp
    ensures var after := VerifyWith(mac, a.event, a.payload, a.secret, skew, a.now, seen, window).seen;
      && (c.nonce in after <==> c.nonce in seen && !IsFar(mac, skew, window, a, c))
      && (c.nonce in after ==> after[c.nonce] == c.stamp)
  {
  }

  /** The call is held before message j, with its stamp, exactly if no message after i was far from it. */
  predicate HeldUntilFar(mac: Mac, skew: int, window: int, run: seq<Attempt>, c: Call, i: nat, j: nat)
    requires i < j <= |run|
  {
    var seen := SeenBefore(mac, skew, window, run, j);
    (c.nonce in seen <==> !FarMessage(mac, skew, window, run, c, i, j - 1)) && (c.nonce in seen ==> Holds(seen, c))
  }

  lemma HeldNext(mac: Mac, skew: int, window: nat, run: seq<Attempt>, c: Call, i: nat, j: nat)
    requires i < j < |run| && HeldUntilFar(mac, skew, window, run, c, i, j)
    requires !Accepts(mac, skew, window, run, j, c.nonce)
    ensures HeldUntilFar(mac, skew, window, run, c, i, j + 1)
  {
    SeenNext(mac, skew, window, run, j);
    HeldUnlessFar(mac, skew, window, run[j], SeenBefore(mac, skew, window, run, j), c);
    FarGrows(mac, skew, window, run, c, i, j);
  }

  lemma {:induction false} HeldUntilFarMessage(
    mac: Mac, skew: int, window: nat, run: seq<Attempt>, c: Call, i: nat, j: nat)
    requires i < j <= |run| && HeldUntilFar(mac, skew, window, run, c, i, i + 1)
    requires NoneBetween(mac, skew, window, run, i, j, c.nonce)
    ensures HeldUntilFar(mac, skew, window, run, c, i, j)
    decreases j
  {
    if j > i + 1 {
      HeldUntilFarMessage(mac, skew, window, run, c, i, j - 1);
      HeldNext(mac, skew, window, run, c, i, j - 1);
    }
  }

  lemma FarGrows(mac: Mac, skew: int, window: int, run: seq<Attempt>, c: Call, i: nat, j: nat)
    requires i < j < |run|
    ensures FarMessage(mac, skew, window, run, c, i, j) <==>
      FarMessage(mac, skew, window, run, c, i, j - 1) || IsFar(mac, skew, window, run[j], c)
  {
  }

  /**
   * Whatever the clock: after a message was accepted, the next one with its nonce is accepted exactly if it passes the
   * checks itself and some message since, itself included, passed them with a stamp more than the window away.
   */
  lemma ReacceptedIffFarMessage(mac: Mac, skew: int, window: nat, run: seq<Attempt>, i: nat, j: nat)
    requires i < j < |run| && IsAccepted(mac, skew, window, run, i)
    requires Claimed(mac, run[j]).Success? && Claimed(mac, run[j]).value.nonce == Claimed(mac, run[i]).value.nonce
    requires NoneBetween(mac, skew, window, run, i, j, Claimed(mac, run[i]).value.nonce)
    ensures IsAccepted(mac, skew, window, run, j) <==>
      Checked(mac, skew, run[j]).Success? && FarMessage(mac, skew, window, run, Claimed(mac, run[i]).value, i, j)
  {
    var c := Claimed(mac, run[i]).value;
    AcceptedIsHeld(mac, skew, window, run, i);
    HeldUntilFarMessage(mac, skew, window, run, c, i, j);
    FarGrows(mac, skew, window, run, c, i, j);
    AcceptedUnlessHeld(mac, skew, window, run[j], SeenBefore(mac, skew, window, run, j), c);
  }

  lemma AcceptedUnlessHeld(mac: Mac, skew: int, window: nat, a: Attempt, seen: map<Text, int>, c: Call)
    requires Claimed(mac, a).Success? && Claimed(mac, a).value.nonce == c.nonce
    requires c.nonce in seen ==> seen[c.nonce] == c.stamp
    ensures VerifyWith(mac, a.event, a.payload, a.secret, skew, a.now, seen, window).verdict.Accepted? <==>
      Checked(mac, skew, a).Success? && (c.nonce !in seen || IsFar(mac, skew, window, a, c))
  {
  }

  /** What sign returns passes the check under the same secret. */
  lemma SignedChecks(mac: Mac, event: Text, ps: seq<Prop<Value>>, secret: Text, timestamp: int, nonce: Text)
    requires IsHexMac(mac) && WellFormed(Record(ps)) && secret != [] && nonce != []
    ensures CheckSignature(mac, event, Sign(mac, event, ps, Some(secret), timestamp, nonce), Some(secret))
      == Success(Call(nonce, timestamp))
  {
    var digest := Digest(mac, event, timestamp, nonce, Record(ps), secret);
    var p1 := SetProp(ps, TIMESTAMP_FIELD, Number(timestamp));
    var p2 := SetProp(p1, NONCE_FIELD, Chars(nonce));
    var qs := SetProp(p2, SIGNATURE_FIELD, Chars(digest));
    FieldsDiffer();
    SetPropMeans(ps, TIMESTAMP_FIELD, Number(timestamp));
    SetPropMeans(p1, NONCE_FIELD, Chars(nonce));
    SetPropMeans(p2, SIGNATURE_FIELD, Chars(digest));
    SetPropSets(ps, TIMESTAMP_FIELD, Number(timestamp));
    SetPropSets(p1, NONCE_FIELD, Chars(nonce));
    SetPropSets(p2, SIGNATURE_FIELD, Chars(digest));
    CopyDenotes(ps, qs, timestamp, nonce, digest);
    SameDigest(mac, event, ps, qs, secret, timestamp, nonce);
    CheckPasses(mac, event, qs, secret, timestamp, nonce, digest);
  }

  /**
   * Messages stamped ahead of the clock can be accepted twice. All three are signed, pass the checks at one instant
   * and arrive within the allowed skew; the second makes the memory forget the first, which then passes again.
   */
  lemma FutureMessageIsReplayed(
    mac: Mac, event: Text, ps: seq<Prop<Value>>, qs: seq<Prop<Value>>, secret: Text, now: int, n: Text, m: Text)
    requires IsHexMac(mac) && WellFormed(Record(ps)) && WellFormed(Record(qs)) && secret != []
    requires n != m && n != [] && m != []
    ensures var w := 5 * 60 * 1000;
      var first := Attempt(event, Sign(mac, event, ps, Some(secret), now + w, n), Some(secret), now);
      var second := Attempt(event, Sign(mac, event, qs, Some(secret), now - w, m), Some(secret), now);
      var run := [first, second, first];
      IsAccepted(mac, w, w, run, 0) && IsAccepted(mac, w, w, run, 1) && IsAccepted(mac, w, w, run, 2)
  {
    var w := DEFAULT_MAX_CLOCK_SKEW_MS;
    SignedChecks(mac, event, ps, secret, now + w, n);
    SignedChecks(mac, event, qs, secret, now - w, m);
    var first := Attempt(event, Sign(mac, event, ps, Some(secret), now + w, n), Some(secret), now);
    var second := Attempt(event, Sign(mac, event, qs, Some(secret), now - w, m), Some(secret), now);
    ForgottenOnTheWay(mac, first, second, [first, second, first], now, n, m);
  }

  lemma ForgottenOnTheWay(
    mac: Mac, first: Attempt, second: Attempt, run: seq<Attempt>, now: int, n: Text, m: Text)
    requires n != m && run == [first, second, first] && first.now == now && second.now == now
    requires Claimed(mac, first) == Success(Call(n, now + DEFAULT_MAX_CLOCK_SKEW_MS))
    requires Claimed(mac, second) == Success(Call(m, now - DEFAULT_MAX_CLOCK_SKEW_MS))
    ensures var w := DEFAULT_MAX_CLOCK_SKEW_MS;
      IsAccepted(mac, w, w, run, 0) && IsAccepted(mac, w, w, run, 1) && IsAccepted(mac, w, w, run, 2)
  {
    var w := DEFAULT_MAX_CLOCK_SKEW_MS;
    Passes(mac, first, map[], now + w, n);
    assert SeenBefore(mac, w, w, run, 0) == map[] && SeenBefore(mac, w, w, run, 1) == map[n := now + w];
    Passes(mac, second, map[n := now + w], now - w, m);
    assert SeenBefore(mac, w, w, run, 2) == map[m := now - w];
    Passes(mac, first, map[m := now - w], now + w, n);
  }

  /** A message at the edge of the allowed skew, met by a memory that holds at most one nonce, from the other edge. */
  lemma Passes(mac: Mac, a: Attempt, seen: map<Text, int>, stamp: int, nonce: Text)
    requires Claimed(mac, a) == Success(Call(nonce, stamp)) && Distance(a.now, stamp) == DEFAULT_MAX_CLOCK_SKEW_MS
    requires forall k | k in seen :: Distance(stamp, seen[k]) > DEFAULT_MAX_CLOCK_SKEW_MS
    ensures var w := DEFAULT_MAX_CLOCK_SKEW_MS;
      VerifyWith(mac, a.event, a.payload, a.secret, w, a.now, seen, w) == Verified(Accepted, map[nonce := stamp])
  {
    assert Pruned(seen, DEFAULT_MAX_CLOCK_SKEW_MS, stamp) == map[];
  }

  // ------------------------------------------------- verify, spelled out

  /** A field of the payload, as reading a property of an object gives it. */
  function Field(payload: Value, key: Text): Value {
    if OwnProps(payload).Some? then GetProp(OwnProps(payload).value, key) else Undef
  }

  predicate HasSecret(secret: Option<Text>) {
    secret.Some? && |secret.value| > 0
  }

  predicate HasSignature(payload: Value) {
    OwnProps(payload).Some? && Field(payload, SIGNATURE_FIELD).Chars? && |Field(payload, SIGNATURE_FIELD).s| > 0
  }

  predicate HasTimestamp(payload: Value) {
    Field(payload, TIMESTAMP_FIELD).Number?
  }

  predicate HasNonce(payload: Value) {
    Field(payload, NONCE_FIELD).Chars? && |Field(payload, NONCE_FIELD).s| > 0
  }

  predicate IsHexText(t: Text) {
    |t| > 0 && forall i | 0 <= i < |t| :: 48 <= t[i] <= 57 || 97 <= t[i] <= 102 || 65 <= t[i] <= 70
  }

  predicate HasHexSignature(payload: Value) {
    HasSignature(payload) && IsHexText(Field(payload, SIGNATURE_FIELD).s)
  }

  /** The signature, in lower case and without a trailing odd digit, is the HMAC of the signed text. */
  predicate HasRightSignature(mac: Mac, event: Text, payload: Value, secret: Option<Text>)
    requires HasSecret(secret) && HasSignature(payload) && HasTimestamp(payload) && HasNonce(payload)
  {
    var signature, timestamp := Field(payload, SIGNATURE_FIELD).s, Field(payload, TIMESTAMP_FIELD).n;
    Even(Lower(signature))
      == mac(secret.value, SigningMaterial(event, timestamp, Field(payload, NONCE_FIELD).s, payload))
  }

  predicate IsInTime(payload: Value, skew: int, now: int)
    requires HasTimestamp(payload)
  {
    skew <= 0 || -skew <= now - Field(payload, TIMESTAMP_FIELD).n <= skew
  }

  /** The nonce is remembered with a stamp within the window of this one. */
  predicate IsRemembered(payload: Value, seen: map<Text, int>, window: int)
    requires HasTimestamp(payload) && HasNonce(payload)
  {
    var nonce, timestamp := Field(payload, NONCE_FIELD).s, Field(payload, TIMESTAMP_FIELD).n;
    nonce in seen && -window <= seen[nonce] - timestamp <= window
  }

  /** Everything but the signature's value: secret and fields are there. */
  predicate IsComplete(payload: Value, secret: Option<Text>) {
    HasSecret(secret) && HasSignature(payload) && HasTimestamp(payload) && HasNonce(payload)
  }

  lemma HexTextIsHex(t: Text)
    ensures IsHex(t) <==> IsHexText(t)
  {
  }

  /** What CheckSignature decides, for every payload and secret: each failure exactly when, in this order. */
  lemma SignatureVerdicts(mac: Mac, event: Text, payload: Value, secret: Option<Text>)
    requires IsHexMac(mac)
    ensures var checked := CheckSignature(mac, event, payload, secret);
      && (checked == Failure(NoSecret) <==> !HasSecret(secret))
      && (checked == Failure(MissingSignature) <==> HasSecret(secret) && !HasSignature(payload))
      && (checked == Failure(MissingTimestamp) <==>
            HasSecret(secret) && HasSignature(payload) && !HasTimestamp(payload))
      && (checked == Failure(MissingNonce) <==>
            HasSecret(secret) && HasSignature(payload) && HasTimestamp(payload) && !HasNonce(payload))
      && (checked == Failure(MalformedSignature) <==> IsComplete(payload, secret) && !HasHexSignature(payload))
      && (checked == Failure(InvalidSignature) <==>
            IsComplete(payload, secret) && HasHexSignature(payload) && !HasRightSignature(mac, event, payload, secret))
      && (checked.Success? <==>
            IsComplete(payload, secret) && HasHexSignature(payload) && HasRightSignature(mac, event, payload, secret))
      && (checked.Success? ==>
            checked.value == Call(Field(payload, NONCE_FIELD).s, Field(payload, TIMESTAMP_FIELD).n))
  {
    if IsComplete(payload, secret) {
      var signature := Field(payload, SIGNATURE_FIELD).s;
      HexTextIsHex(signature);
      if IsHex(signature) {
        var digest := Digest(
          mac, event, Field(payload, TIMESTAMP_FIELD).n, Field(payload, NONCE_FIELD).s, payload, secret.value);
        SignatureComparison(signature, digest);
      }
    }
  }

  /** The payload passes everything that comes before clock and memory. */
  predicate IsSignedFor(mac: Mac, event: Text, payload: Value, secret: Option<Text>) {
    IsComplete(payload, secret) && HasHexSignature(payload) && HasRightSignature(mac, event, payload, secret)
  }

  /**
   * verify, for every payload, secret, clock and memory: accepted exactly if secret and fields are there, the
   * signature is hex and right, the stamp within the skew, and the nonce not remembered; and why it is refused.
   */
  lemma AcceptedIff(
    mac: Mac, event: Text, payload: Value, secret: Option<Text>, skew: int, now: int,
    seen: map<Text, int>, window: int)
    requires IsHexMac(mac)
    ensures var verdict := VerifyWith(mac, event, payload, secret, skew, now, seen, window).verdict;
      var signed := IsSignedFor(mac, event, payload, secret);
      && (verdict.Accepted? <==> signed && IsInTime(payload, skew, now) && !IsRemembered(payload, seen, window))
      && (verdict == Rejected(Replayed) <==>
            signed && IsInTime(payload, skew, now) && IsRemembered(payload, seen, window))
      && (verdict == Rejected(Expired) <==> signed && !IsInTime(payload, skew, now))
      && (!signed ==> CheckSignature(mac, event, payload, secret).Failure?)
      && (!signed ==> verdict == Rejected(CheckSignature(mac, event, payload, secret).error))
  {
    SignatureVerdicts(mac, event, payload, secret);
  }

  /** The memory after a call: untouched by a refusal before it, else pruned, and with the nonce if it was new. */
  lemma MemoryAfter(
    mac: Mac, event: Text, payload: Value, secret: Option<Text>, skew: int, now: int,
    seen: map<Text, int>, window: int, n: Text)
    requires IsHexMac(mac)
    ensures var v := VerifyWith(mac, event, payload, secret, skew, now, seen, window);
      if !(IsSignedFor(mac, event, payload, secret) && IsInTime(payload, skew, now)) then v.seen == seen
      else
        var nonce, timestamp := Field(payload, NONCE_FIELD).s, Field(payload, TIMESTAMP_FIELD).n;
        var kept := n in seen && -window <= seen[n] - timestamp <= window;
        && (n in v.seen <==> kept || n == nonce)
        && (n in v.seen ==> v.seen[n] == if kept then seen[n] else timestamp)
  {
    SignatureVerdicts(mac, event, payload, secret);
  }

  // ------------------------------------------------- sign, spelled out

  /** Version, event, stamp, nonce and canonical payload, a line each. */
  lemma SignedText(event: Text, timestamp: int, nonce: Text, payload: Value)
    ensures SigningMaterial(event, timestamp, nonce, payload)
      == Ascii("v1") + [10] + event + [10] + IntText(timestamp) + [10] + nonce + [10]
         + Canonicalize(StripEnvelope(payload))
  {
    FlatLines(Ascii("v1"), event, IntText(timestamp), nonce, Canonicalize(StripEnvelope(payload)));
  }

  lemma FlatLines(a: Text, b: Text, c: Text, d: Text, e: Text)
    ensures JoinLines(a, b, c, d, e) == a + [10] + b + [10] + c + [10] + d + [10] + e
  {
    assert d + [NEWLINE] + e == d + ([NEWLINE] + e);
    assert JoinLines(a, b, c, d, e) == a + [10] + (b + [10] + (c + [10] + (d + [10] + e)));
  }

  /** Stripping a record or any other object that is no array leaves its properties but for the envelope's. */
  lemma StrippedProps(payload: Value, key: Text)
    requires WellFormed(payload) && OwnProps(payload).Some?
    ensures StripEnvelope(payload).Record?
    ensures var ps, left := MapOf(OwnProps(payload).value), MapOf(StripEnvelope(payload).props);
      && (key in left <==> key in ps && key != Ascii("_sig") && key != Ascii("_ts") && key != Ascii("_nonce"))
      && (key in left ==> left[key] == ps[key])
  {
    WithoutMap(OwnProps(payload).value, ENVELOPE_FIELDS);
  }

  lemma {:induction false} WithoutMap(ps: seq<Prop<Value>>, keys: set<Text>)
    requires DistinctKeys(ps)
    ensures DistinctKeys(Without(ps, keys)) && MapOf(Without(ps, keys)) == MapOf(ps) - keys
  {
    if ps != [] {
      WithoutMap(ps[1..], keys);
      ConsMap(ps[0], Without(ps[1..], keys));
    }
  }

  /** Before there is a secret the payload is sent as it is. */
  lemma UnsignedWithoutSecret(mac: Mac, event: Text, ps: seq<Prop<Value>>, timestamp: int, nonce: Text)
    ensures Sign(mac, event, ps, None, timestamp, nonce) == Record(ps)
    ensures Sign(mac, event, ps, Some([]), timestamp, nonce) == Record(ps)
  {
  }
}
