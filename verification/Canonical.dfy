/**
 * src/global/hash.util.ts, canonicalize: the deterministic JSON text of a payload, on trees. `Value` is what a
 * JavaScript payload holds; `Meaning` is what it says once key order, undefined members, undefined or non-finite
 * entries and toJSON wrappers are forgotten. The main theorem: two payloads get the same text exactly when they mean
 * the same.
 */
module Canonical {
  import opened Wrappers
  import opened Texts
  import opened Json
  import opened KeyOrder

  /** A toJSON object has enumerable properties of its own beside what toJSON returns. */
  datatype Value =
    | Undef
    | Nil
    | Flag(b: bool)
    | Number(n: int)
    | NonFinite
    | Chars(s: Text)
    | List(elems: seq<Value>)
    | Record(props: seq<Prop<Value>>)
    | WithToJson(own: seq<Prop<Value>>, result: Value)

  /** Assigning this key sets a prototype instead of a property, so it is outside the domain. */
  const PROTO: Text := Ascii("__proto__")

  predicate WellFormed(v: Value)
    decreases v, 1
  {
    match v
    case List(es) => forall i | 0 <= i < |es| :: WellFormed(es[i])
    case Record(ps) => DistinctKeys(ps) && WellFormedProps(ps)
    case WithToJson(own, r) => DistinctKeys(own) && WellFormedProps(own) && WellFormed(r)
    case _ => true
  }

  predicate WellFormedProps(ps: seq<Prop<Value>>)
    decreases ps, 0
  {
    forall i | 0 <= i < |ps| :: ps[i].key != PROTO && WellFormed(ps[i].value)
  }

  // -------------------------------------------------------- the code's steps

  /** normalize on a tree: undefined members dropped, keys in sort order, toJSON applied. */
  function Normalize(v: Value): Value
    decreases v, 1
  {
    match v
    case List(es) => List(NormalizeElems(es))
    case Record(ps) => Record(Sort(ByCodeUnit, NormalizeProps(ps)))
    case WithToJson(_, r) => Normalize(r)
    case _ => v
  }

  function NormalizeElems(es: seq<Value>): (r: seq<Value>)
    ensures |r| == |es| && forall i | 0 <= i < |es| :: r[i] == Normalize(es[i])
    decreases es, 0
  {
    if es == [] then [] else [Normalize(es[0])] + NormalizeElems(es[1..])
  }

  function NormalizeProps(ps: seq<Prop<Value>>): seq<Prop<Value>>
    decreases ps, 0
  {
    if ps == [] then []
    else if ps[0].value.Undef? then NormalizeProps(ps[1..])
    else [Prop(ps[0].key, Normalize(ps[0].value))] + NormalizeProps(ps[1..])
  }

  /** SerializeJSONProperty: None for undefined, own keys in enumeration order. */
  function Emit(v: Value): Option<Json>
    decreases v, 1
  {
    match v
    case Undef => None
    case Nil => Some(Null)
    case NonFinite => Some(Null)
    case Flag(b) => Some(Bool(b))
    case Number(n) => Some(Num(n))
    case Chars(s) => Some(Str(s))
    case List(es) => Some(Arr(EmitElems(es)))
    case Record(ps) => Some(Obj(OwnOrder(EmitProps(ps))))
    case WithToJson(_, r) => Emit(r)
  }

  function OrNull(j: Option<Json>): Json {
    match j case Some(x) => x case None => Null
  }

  function EmitElems(es: seq<Value>): (r: seq<Json>)
    ensures |r| == |es| && forall i | 0 <= i < |es| :: r[i] == OrNull(Emit(es[i]))
    decreases es, 0
  {
    if es == [] then [] else [OrNull(Emit(es[0]))] + EmitElems(es[1..])
  }

  function EmitProps(ps: seq<Prop<Value>>): seq<Prop<Json>>
    decreases ps, 0
  {
    if ps == [] then []
    else if Emit(ps[0].value).None? then EmitProps(ps[1..])
    else [Prop(ps[0].key, Emit(ps[0].value).value)] + EmitProps(ps[1..])
  }

  /** The value whose text JSON.stringify prints. */
  function Canon(v: Value): Json {
    OrNull(Emit(Normalize(v)))
  }

  function Canonicalize(v: Value): Text {
    Print(Canon(v))
  }

  // ------------------------------------------------------------ the meaning

  datatype Meaning =
    | MNull
    | MBool(b: bool)
    | MNum(n: int)
    | MStr(s: Text)
    | MArr(elems: seq<Meaning>)
    | MObj(members: map<Text, Meaning>)

  /** None for a value that is undefined and so disappears from its object. */
  function Denote(v: Value): Option<Meaning>
    decreases v, 1
  {
    match v
    case Undef => None
    case Nil => Some(MNull)
    case NonFinite => Some(MNull)
    case Flag(b) => Some(MBool(b))
    case Number(n) => Some(MNum(n))
    case Chars(s) => Some(MStr(s))
    case List(es) => Some(MArr(DenoteElems(es)))
    case Record(ps) => Some(MObj(DenoteProps(ps)))
    case WithToJson(_, r) => Denote(r)
  }

  function OrMNull(m: Option<Meaning>): Meaning {
    match m case Some(x) => x case None => MNull
  }

  function DenoteElems(es: seq<Value>): (r: seq<Meaning>)
    ensures |r| == |es| && forall i | 0 <= i < |es| :: r[i] == OrMNull(Denote(es[i]))
    decreases es, 0
  {
    if es == [] then [] else [OrMNull(Denote(es[0]))] + DenoteElems(es[1..])
  }

  function DenoteProps(ps: seq<Prop<Value>>): map<Text, Meaning>
    decreases ps, 0
  {
    if ps == [] then map[]
    else if Denote(ps[0].value).None? then DenoteProps(ps[1..])
    else DenoteProps(ps[1..])[ps[0].key := Denote(ps[0].value).value]
  }

  function MeaningOf(v: Value): Meaning {
    OrMNull(Denote(v))
  }

  function DenoteJson(j: Json): Meaning
    decreases j, 1
  {
    match j
    case Null => MNull
    case Bool(b) => MBool(b)
    case Num(n) => MNum(n)
    case Str(s) => MStr(s)
    case Arr(es) => MArr(DenoteJsons(es))
    case Obj(ms) => MObj(DenoteMembers(ms))
  }

  function DenoteJsons(es: seq<Json>): (r: seq<Meaning>)
    ensures |r| == |es| && forall i | 0 <= i < |es| :: r[i] == DenoteJson(es[i])
    decreases es, 0
  {
    if es == [] then [] else [DenoteJson(es[0])] + DenoteJsons(es[1..])
  }

  function DenoteMembers(ms: seq<Prop<Json>>): map<Text, Meaning>
    decreases ms, 0
  {
    if ms == [] then map[] else DenoteMembers(ms[1..])[ms[0].key := DenoteJson(ms[0].value)]
  }

  // -------------------------------------- what normalize and emit preserve

  /** Denotations look only at the map a property list stands for. */
  lemma {:induction false} DenotePropsByKey(ps: seq<Prop<Value>>)
    requires DistinctKeys(ps)
    ensures DenoteProps(ps) ==
      map k | k in MapOf(ps) && Denote(MapOf(ps)[k]).Some? :: Denote(MapOf(ps)[k]).value
  {
    if ps != [] { DenotePropsByKey(ps[1..]); }
  }

  lemma {:induction false} DenoteMembersByKey(ms: seq<Prop<Json>>)
    ensures DenoteMembers(ms) == map k | k in MapOf(ms) :: DenoteJson(MapOf(ms)[k])
  {
    if ms != [] { DenoteMembersByKey(ms[1..]); }
  }

  /** The shape normalize leaves: sorted keys everywhere and no toJSON wrappers. */
  predicate Normalized(v: Value)
    decreases v, 1
  {
    match v
    case List(es) => forall i | 0 <= i < |es| :: Normalized(es[i])
    case Record(ps) => Sorted(ByCodeUnit, ps) && NormalizedProps(ps)
    case WithToJson(_, _) => false
    case _ => true
  }

  predicate NormalizedProps(ps: seq<Prop<Value>>)
    decreases ps, 0
  {
    forall i | 0 <= i < |ps| :: Normalized(ps[i].value)
  }

  lemma {:induction false} NormalizeKeepsMeaning(v: Value)
    requires WellFormed(v)
    ensures Denote(Normalize(v)) == Denote(v)
    ensures Normalized(Normalize(v))
    decreases v, 1
  {
    match v
    case List(es) =>
      forall i | 0 <= i < |es|
        ensures Denote(NormalizeElems(es)[i]) == Denote(es[i]) && Normalized(NormalizeElems(es)[i])
      {
        NormalizeKeepsMeaning(es[i]);
      }
      assert DenoteElems(NormalizeElems(es)) == DenoteElems(es);
    case Record(ps) =>
      var qs := NormalizeProps(ps);
      NormalizePropsKeepMeaning(ps);
      SortSorts(ByCodeUnit, qs);
      SortedIsDistinct(ByCodeUnit, Sort(ByCodeUnit, qs));
      DenotePropsByKey(qs);
      DenotePropsByKey(Sort(ByCodeUnit, qs));
      forall i | 0 <= i < |Sort(ByCodeUnit, qs)| ensures Normalized(Sort(ByCodeUnit, qs)[i].value) {
        assert Sort(ByCodeUnit, qs)[i] in qs;
      }
    case WithToJson(_, r) => NormalizeKeepsMeaning(r);
    case _ =>
  }

  lemma {:induction false} NormalizePropsKeepMeaning(ps: seq<Prop<Value>>)
    requires DistinctKeys(ps) && WellFormedProps(ps)
    ensures DistinctKeys(NormalizeProps(ps)) && MapOf(NormalizeProps(ps)).Keys <= MapOf(ps).Keys
    ensures DenoteProps(NormalizeProps(ps)) == DenoteProps(ps)
    ensures NormalizedProps(NormalizeProps(ps))
    decreases ps, 0
  {
    if ps != [] {
      NormalizePropsKeepMeaning(ps[1..]);
      if !ps[0].value.Undef? {
        NormalizeKeepsMeaning(ps[0].value);
        assert NormalizeProps(ps)[1..] == NormalizeProps(ps[1..]);
      }
    }
  }

  /** All objects list their keys strictly in enumeration order. */
  predicate Ordered(j: Json)
    decreases j, 1
  {
    match j
    case Arr(es) => forall i | 0 <= i < |es| :: Ordered(es[i])
    case Obj(ms) => Sorted(ByOwnKey, ms) && OrderedMembers(ms)
    case _ => true
  }

  predicate OrderedMembers(ms: seq<Prop<Json>>)
    decreases ms, 0
  {
    forall i | 0 <= i < |ms| :: Ordered(ms[i].value)
  }

  lemma {:induction false} EmitKeepsMeaning(v: Value)
    requires Normalized(v)
    ensures Emit(v).Some? == Denote(v).Some?
    ensures Emit(v).Some? ==> DenoteJson(Emit(v).value) == Denote(v).value && Ordered(Emit(v).value)
    decreases v, 1
  {
    match v
    case List(es) =>
      forall i | 0 <= i < |es|
        ensures DenoteJson(EmitElems(es)[i]) == OrMNull(Denote(es[i])) && Ordered(EmitElems(es)[i])
      {
        EmitKeepsMeaning(es[i]);
      }
      assert DenoteJsons(EmitElems(es)) == DenoteElems(es);
    case Record(ps) =>
      var ms := EmitProps(ps);
      EmitPropsKeepMeaning(ps);
      OwnOrderSorts(ms);
      DenoteMembersByKey(ms);
      DenoteMembersByKey(OwnOrder(ms));
      forall i | 0 <= i < |OwnOrder(ms)| ensures Ordered(OwnOrder(ms)[i].value) {
        assert OwnOrder(ms)[i] in ms;
      }
    case _ =>
  }

  lemma {:induction false} EmitPropsKeepMeaning(ps: seq<Prop<Value>>)
    requires Sorted(ByCodeUnit, ps) && NormalizedProps(ps)
    ensures Sorted(ByCodeUnit, EmitProps(ps)) && MapOf(EmitProps(ps)).Keys <= MapOf(ps).Keys
    ensures DenoteMembers(EmitProps(ps)) == DenoteProps(ps)
    ensures OrderedMembers(EmitProps(ps))
    decreases ps, 0
  {
    if ps != [] {
      EmitPropsKeepMeaning(ps[1..]);
      EmitKeepsMeaning(ps[0].value);
      if Emit(ps[0].value).Some? {
        assert EmitProps(ps)[1..] == EmitProps(ps[1..]);
      }
    }
  }

  /** Also without normalize: what JSON.stringify prints of any payload means what the payload means. */
  lemma {:induction false} StringifyKeepsMeaning(v: Value)
    requires WellFormed(v)
    ensures Emit(v).Some? == Denote(v).Some?
    ensures Emit(v).Some? ==> DenoteJson(Emit(v).value) == Denote(v).value
    decreases v, 1
  {
    match v
    case List(es) =>
      forall i | 0 <= i < |es| ensures DenoteJson(EmitElems(es)[i]) == OrMNull(Denote(es[i])) {
        StringifyKeepsMeaning(es[i]);
      }
      assert DenoteJsons(EmitElems(es)) == DenoteElems(es);
    case Record(ps) =>
      var ms := EmitProps(ps);
      StringifiedPropsKeepMeaning(ps);
      OwnOrderKeepsAll(ms);
      DenoteMembersByKey(ms);
      DenoteMembersByKey(OwnOrder(ms));
    case WithToJson(_, r) => StringifyKeepsMeaning(r);
    case _ =>
  }

  lemma {:induction false} StringifiedPropsKeepMeaning(ps: seq<Prop<Value>>)
    requires DistinctKeys(ps) && WellFormedProps(ps)
    ensures DistinctKeys(EmitProps(ps)) && MapOf(EmitProps(ps)).Keys <= MapOf(ps).Keys
    ensures DenoteMembers(EmitProps(ps)) == DenoteProps(ps)
    decreases ps, 0
  {
    if ps != [] {
      StringifiedPropsKeepMeaning(ps[1..]);
      StringifyKeepsMeaning(ps[0].value);
      if Emit(ps[0].value).Some? {
        ConsMap(Prop(ps[0].key, Emit(ps[0].value).value), EmitProps(ps[1..]));
        assert EmitProps(ps)[1..] == EmitProps(ps[1..]);
      }
    }
  }

  /** Ordered JSON is determined by its meaning. */
  lemma {:induction false} OrderedIsUnique(a: Json, b: Json)
    requires Ordered(a) && Ordered(b) && DenoteJson(a) == DenoteJson(b)
    ensures a == b
    decreases a, 1
  {
    if a.Arr? {
      forall i | 0 <= i < |a.elems| ensures a.elems[i] == b.elems[i] {
        assert DenoteJsons(a.elems)[i] == DenoteJsons(b.elems)[i];
        OrderedIsUnique(a.elems[i], b.elems[i]);
      }
    } else if a.Obj? {
      OrderedMembersAreUnique(a.members, b.members);
    }
  }

  lemma {:induction false} OrderedMembersAreUnique(a: seq<Prop<Json>>, b: seq<Prop<Json>>)
    requires Sorted(ByOwnKey, a) && Sorted(ByOwnKey, b) && OrderedMembers(a) && OrderedMembers(b)
    requires DenoteMembers(a) == DenoteMembers(b)
    ensures a == b
    decreases a, 0
  {
    DenoteMembersByKey(a);
    DenoteMembersByKey(b);
    assert DenoteMembers(a).Keys == MapOf(a).Keys && DenoteMembers(b).Keys == MapOf(b).Keys;
    MapOfEmpty(a);
    MapOfEmpty(b);
    if a != [] {
      SameHead(ByOwnKey, a, b);
      TailMeaning(a);
      TailMeaning(b);
      OrderedIsUnique(a[0].value, b[0].value);
      OrderedMembersAreUnique(a[1..], b[1..]);
      assert a == [a[0]] + a[1..] && b == [b[0]] + b[1..];
    }
  }

  lemma TailMeaning(ms: seq<Prop<Json>>)
    requires ms != [] && Sorted(ByOwnKey, ms)
    ensures DenoteMembers(ms[1..]) == DenoteMembers(ms) - {ms[0].key}
    ensures DenoteMembers(ms)[ms[0].key] == DenoteJson(ms[0].value)
  {
    var rest, key := DenoteMembers(ms[1..]), ms[0].key;
    SortedIsDistinct(ByOwnKey, ms);
    DenoteMembersByKey(ms[1..]);
    PutThenDrop(rest, key, DenoteJson(ms[0].value));
  }

  lemma PutThenDrop<V>(m: map<Text, V>, key: Text, value: V)
    requires key !in m
    ensures m[key := value] - {key} == m && m[key := value][key] == value
  {
  }

  // ---------------------------------------------------------- the theorems

  lemma CanonMeans(v: Value)
    requires WellFormed(v)
    ensures DenoteJson(Canon(v)) == MeaningOf(v)
    ensures Ordered(Canon(v))
  {
    NormalizeKeepsMeaning(v);
    EmitKeepsMeaning(Normalize(v));
  }

  /** Parsing the canonical text returns the payload: same meaning, keys in order, nothing left over. */
  lemma ParseCanonical(v: Value)
    requires WellFormed(v)
    ensures Parse(Canonicalize(v)).Got? && Parse(Canonicalize(v)).rest == []
    ensures DenoteJson(Parse(Canonicalize(v)).value) == MeaningOf(v)
    ensures Ordered(Parse(Canonicalize(v)).value)
  {
    CanonMeans(v);
    ParsePrint(Canon(v), []);
    assert Canonicalize(v) + [] == Canonicalize(v);
  }

  /** Two payloads share a canonical text exactly when they mean the same. */
  lemma CanonicalEquality(v: Value, w: Value)
    requires WellFormed(v) && WellFormed(w)
    ensures Canonicalize(v) == Canonicalize(w) <==> MeaningOf(v) == MeaningOf(w)
  {
    ParseCanonical(v);
    ParseCanonical(w);
    CanonMeans(v);
    CanonMeans(w);
    if MeaningOf(v) == MeaningOf(w) {
      OrderedIsUnique(Canon(v), Canon(w));
    }
  }

  lemma CanonicalHasNoNewline(v: Value)
    ensures NEWLINE !in Canonicalize(v)
  {
    PrintHasNoControls(Canon(v));
  }

  /** At every depth the canonical text lists keys in the order an object enumerates them. */
  ghost predicate Ascends(j: Json)
    decreases j, 1
  {
    match j
    case Arr(es) => forall i | 0 <= i < |es| :: Ascends(es[i])
    case Obj(ms) => MembersAscend(ms)
    case _ => true
  }

  ghost predicate MembersAscend(ms: seq<Prop<Json>>)
    decreases ms, 0
  {
    && (forall i, k | 0 <= i < k < |ms| :: OwnKeyBefore(ms[i].key, ms[k].key))
    && (forall i | 0 <= i < |ms| :: Ascends(ms[i].value))
  }

  lemma {:induction false} OrderedAscends(j: Json)
    requires Ordered(j)
    ensures Ascends(j)
    decreases j
  {
    match j
    case Arr(es) =>
      forall i | 0 <= i < |es| ensures Ascends(es[i]) { OrderedAscends(es[i]); }
    case Obj(ms) =>
      forall i, k | 0 <= i < k < |ms| ensures OwnKeyBefore(ms[i].key, ms[k].key) {
        SortedPairs(ByOwnKey, ms, i, k);
        LessMeans(ms[i].key, ms[k].key);
      }
      forall i | 0 <= i < |ms| ensures Ascends(ms[i].value) { OrderedAscends(ms[i].value); }
    case _ =>
  }

  lemma CanonicalAscends(v: Value)
    requires WellFormed(v)
    ensures Ascends(Canon(v))
  {
    CanonMeans(v);
    OrderedAscends(Canon(v));
  }
}
