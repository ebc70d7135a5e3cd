/** Property lists as maps, the two key orders JavaScript uses on them, and sorting by either. */
module KeyOrder {
  import opened Texts
  import opened Json

  /** The list read as a map; the first entry of a key counts. */
  function MapOf<V>(ps: seq<Prop<V>>): map<Text, V> {
    if ps == [] then map[] else MapOf(ps[1..])[ps[0].key := ps[0].value]
  }

  lemma MapOfEmpty<V>(ps: seq<Prop<V>>)
    ensures MapOf(ps).Keys == {} <==> ps == []
  {
    if ps != [] { assert ps[0].key in MapOf(ps).Keys; }
  }

  predicate DistinctKeys<V>(ps: seq<Prop<V>>) {
    ps != [] ==> ps[0].key !in MapOf(ps[1..]) && DistinctKeys(ps[1..])
  }

  /** An array index of section 10.1.11 of ECMA-262: a canonical numeral below 2^32 - 1. */
  predicate IsArrayIndex(k: Text) {
    k != [] && AllDigits(k) && Digits(DigitsValue(k)) == k && DigitsValue(k) < 0xFFFF_FFFF
  }

  /** ByCodeUnit is Array#sort; ByOwnKey is that order with array indices first, by value. */
  datatype Order = ByCodeUnit | ByOwnKey

  predicate Less(o: Order, a: Text, b: Text) {
    if o.ByOwnKey? && (IsArrayIndex(a) || IsArrayIndex(b)) then
      IsArrayIndex(a) && (IsArrayIndex(b) ==> DigitsValue(a) < DigitsValue(b))
    else LexLess(a, b)
  }

  lemma LessTotal(o: Order, a: Text, b: Text)
    ensures a == b || Less(o, a, b) || Less(o, b, a)
    ensures !(Less(o, a, b) && Less(o, b, a))
    ensures !Less(o, a, a)
  {
    LexLessTotal(a, b);
    LexLessTotal(a, a);
  }

  lemma LessTransitive(o: Order, a: Text, b: Text, c: Text)
    requires Less(o, a, b) && Less(o, b, c)
    ensures Less(o, a, c)
  {
    if LexLess(a, b) && LexLess(b, c) {
      LexLessTransitive(a, b, c);
    }
  }

  predicate Below<V>(o: Order, k: Text, ps: seq<Prop<V>>) {
    forall k' | k' in MapOf(ps) :: Less(o, k, k')
  }

  predicate Sorted<V>(o: Order, ps: seq<Prop<V>>) {
    ps != [] ==> Below(o, ps[0].key, ps[1..]) && Sorted(o, ps[1..])
  }

  lemma {:induction false} SortedIsDistinct<V>(o: Order, ps: seq<Prop<V>>)
    requires Sorted(o, ps)
    ensures DistinctKeys(ps)
  {
    if ps != [] {
      LessTotal(o, ps[0].key, ps[0].key);
      SortedIsDistinct(o, ps[1..]);
    }
  }

  /** A strictly sorted list is determined by the map it lists. */
  lemma {:induction false} SortedIsUnique<V>(o: Order, a: seq<Prop<V>>, b: seq<Prop<V>>)
    requires Sorted(o, a) && Sorted(o, b) && MapOf(a) == MapOf(b)
    ensures a == b
  {
    MapOfEmpty(a);
    MapOfEmpty(b);
    if a != [] {
      SameHead(o, a, b);
      SortedTail(o, a);
      SortedTail(o, b);
      SortedIsUnique(o, a[1..], b[1..]);
      assert a == [a[0]] + a[1..] && b == [b[0]] + b[1..];
    }
  }

  lemma SortedTail<V>(o: Order, ps: seq<Prop<V>>)
    requires ps != [] && Sorted(o, ps)
    ensures MapOf(ps[1..]) == MapOf(ps) - {ps[0].key}
    ensures ps[0].key in MapOf(ps) && MapOf(ps)[ps[0].key] == ps[0].value
  {
    SortedIsDistinct(o, ps);
  }

  lemma SameHead<V>(o: Order, a: seq<Prop<V>>, b: seq<Prop<V>>)
    requires a != [] && b != [] && Sorted(o, a) && Sorted(o, b)
    requires MapOf(a).Keys == MapOf(b).Keys
    ensures a[0].key == b[0].key
  {
    assert a[0].key in MapOf(b).Keys && b[0].key in MapOf(a).Keys;
    if a[0].key != b[0].key {
      assert a[0].key in MapOf(b[1..]) && b[0].key in MapOf(a[1..]);
      LessTotal(o, a[0].key, b[0].key);
    }
  }

  function Insert<V>(o: Order, p: Prop<V>, ps: seq<Prop<V>>): (r: seq<Prop<V>>)
    ensures forall q | q in r :: q == p || q in ps
  {
    if ps == [] || Less(o, p.key, ps[0].key) then [p] + ps else [ps[0]] + Insert(o, p, ps[1..])
  }

  function Sort<V>(o: Order, ps: seq<Prop<V>>): (r: seq<Prop<V>>)
    ensures forall q | q in r :: q in ps
  {
    if ps == [] then [] else Insert(o, ps[0], Sort(o, ps[1..]))
  }

  lemma ConsMap<V>(p: Prop<V>, ps: seq<Prop<V>>)
    ensures MapOf([p] + ps) == MapOf(ps)[p.key := p.value]
    ensures DistinctKeys([p] + ps) <==> p.key !in MapOf(ps) && DistinctKeys(ps)
  {
    assert ([p] + ps)[1..] == ps;
  }

  lemma {:induction false} InsertMap<V>(o: Order, p: Prop<V>, ps: seq<Prop<V>>)
    requires p.key !in MapOf(ps)
    ensures MapOf(Insert(o, p, ps)) == MapOf(ps)[p.key := p.value]
  {
    if ps == [] || Less(o, p.key, ps[0].key) {
      ConsMap(p, ps);
    } else {
      InsertMap(o, p, ps[1..]);
      ConsMap(ps[0], Insert(o, p, ps[1..]));
    }
  }

  lemma BelowAll<V>(o: Order, k: Text, ps: seq<Prop<V>>)
    requires ps != [] && Sorted(o, ps) && Less(o, k, ps[0].key)
    ensures Below(o, k, ps)
  {
    forall k' | k' in MapOf(ps) ensures Less(o, k, k') {
      if k' != ps[0].key { LessTransitive(o, k, ps[0].key, k'); }
    }
  }

  lemma {:induction false} InsertSorts<V>(o: Order, p: Prop<V>, ps: seq<Prop<V>>)
    requires Sorted(o, ps) && p.key !in MapOf(ps)
    ensures Sorted(o, Insert(o, p, ps))
    ensures MapOf(Insert(o, p, ps)) == MapOf(ps)[p.key := p.value]
  {
    InsertMap(o, p, ps);
    if ps == [] {
      assert ([p] + ps)[1..] == ps;
    } else if Less(o, p.key, ps[0].key) {
      BelowAll(o, p.key, ps);
      assert ([p] + ps)[1..] == ps;
    } else {
      LessTotal(o, p.key, ps[0].key);
      InsertSorts(o, p, ps[1..]);
      assert Insert(o, p, ps)[1..] == Insert(o, p, ps[1..]);
    }
  }

  lemma {:induction false} SortSorts<V>(o: Order, ps: seq<Prop<V>>)
    requires DistinctKeys(ps)
    ensures Sorted(o, Sort(o, ps))
    ensures MapOf(Sort(o, ps)) == MapOf(ps)
  {
    if ps != [] {
      SortSorts(o, ps[1..]);
      InsertSorts(o, ps[0], Sort(o, ps[1..]));
    }
  }

  lemma {:induction false} InsertKeepsAll<V>(o: Order, p: Prop<V>, ps: seq<Prop<V>>)
    ensures p in Insert(o, p, ps) && forall q | q in ps :: q in Insert(o, p, ps)
  {
    if ps != [] && !Less(o, p.key, ps[0].key) { InsertKeepsAll(o, p, ps[1..]); }
  }

  lemma {:induction false} SortKeepsAll<V>(o: Order, ps: seq<Prop<V>>)
    ensures forall q | q in ps :: q in Sort(o, ps)
  {
    if ps != [] {
      SortKeepsAll(o, ps[1..]);
      InsertKeepsAll(o, ps[0], Sort(o, ps[1..]));
    }
  }

  // ------------------------------------------- the order of own properties

  /** The entries whose keys are array indices (or are not). */
  function Select<V>(indices: bool, ps: seq<Prop<V>>): (r: seq<Prop<V>>)
    ensures forall q | q in r :: q in ps
  {
    if ps == [] then []
    else if IsArrayIndex(ps[0].key) == indices then [ps[0]] + Select(indices, ps[1..])
    else Select(indices, ps[1..])
  }

  /** OrdinaryOwnPropertyKeys: array indices ascending, then the other keys as they were inserted. */
  function OwnOrder<V>(ps: seq<Prop<V>>): (r: seq<Prop<V>>)
    ensures forall q | q in r :: q in ps
  {
    Sort(ByOwnKey, Select(true, ps)) + Select(false, ps)
  }

  lemma {:induction false} SelectKeys<V>(indices: bool, ps: seq<Prop<V>>)
    requires DistinctKeys(ps)
    ensures forall k :: k in MapOf(Select(indices, ps)) <==> k in MapOf(ps) && IsArrayIndex(k) == indices
    ensures DistinctKeys(Select(indices, ps))
  {
    if ps != [] {
      SelectKeys(indices, ps[1..]);
      ConsMap(ps[0], Select(indices, ps[1..]));
    }
  }

  lemma {:induction false} SelectValues<V>(indices: bool, ps: seq<Prop<V>>)
    requires DistinctKeys(ps)
    ensures forall k | k in MapOf(Select(indices, ps)) ::
      k in MapOf(ps) && MapOf(Select(indices, ps))[k] == MapOf(ps)[k]
  {
    if ps != [] {
      SelectValues(indices, ps[1..]);
      SelectKeys(indices, ps[1..]);
      ConsMap(ps[0], Select(indices, ps[1..]));
    }
  }

  lemma SelectMap<V>(indices: bool, ps: seq<Prop<V>>)
    requires DistinctKeys(ps)
    ensures MapOf(Select(indices, ps)) == map k | k in MapOf(ps) && IsArrayIndex(k) == indices :: MapOf(ps)[k]
    ensures DistinctKeys(Select(indices, ps))
  {
    SelectKeys(indices, ps);
    SelectValues(indices, ps);
  }

  lemma {:induction false} NamedStaySorted<V>(ps: seq<Prop<V>>)
    requires Sorted(ByCodeUnit, ps)
    ensures Sorted(ByOwnKey, Select(false, ps))
  {
    if ps != [] {
      NamedStaySorted(ps[1..]);
      SortedIsDistinct(ByCodeUnit, ps[1..]);
      SelectMap(false, ps[1..]);
      if !IsArrayIndex(ps[0].key) {
        assert Select(false, ps)[1..] == Select(false, ps[1..]);
      }
    }
  }

  lemma {:induction false} AppendKeys<V>(a: seq<Prop<V>>, b: seq<Prop<V>>)
    ensures MapOf(a + b).Keys == MapOf(a).Keys + MapOf(b).Keys
  {
    if a == [] {
      assert a + b == b;
    } else {
      AppendKeys(a[1..], b);
      assert (a + b)[1..] == a[1..] + b;
    }
  }

  lemma {:induction false} AppendSorted<V>(o: Order, a: seq<Prop<V>>, b: seq<Prop<V>>)
    requires Sorted(o, a) && Sorted(o, b)
    requires forall k, k' | k in MapOf(a) && k' in MapOf(b) :: Less(o, k, k')
    ensures Sorted(o, a + b)
  {
    if a == [] {
      assert a + b == b;
    } else {
      AppendSorted(o, a[1..], b);
      AppendKeys(a[1..], b);
      assert (a + b)[1..] == a[1..] + b;
    }
  }

  /** Inserting keys in code-unit order makes the object enumerate them in the order ByOwnKey. */
  lemma OwnOrderSorts<V>(ps: seq<Prop<V>>)
    requires Sorted(ByCodeUnit, ps)
    ensures Sorted(ByOwnKey, OwnOrder(ps))
    ensures MapOf(OwnOrder(ps)) == MapOf(ps)
  {
    var indices, named := Select(true, ps), Select(false, ps);
    SortedIsDistinct(ByCodeUnit, ps);
    SelectIsSplit(ps);
    SortSorts(ByOwnKey, indices);
    NamedStaySorted(ps);
    AppendSorted(ByOwnKey, Sort(ByOwnKey, indices), named);
    OwnOrderKeepsAll(ps);
  }

  /** The two selections are apart, array indices below, and together they are all. */
  lemma SelectIsSplit<V>(ps: seq<Prop<V>>)
    requires DistinctKeys(ps)
    ensures DistinctKeys(Select(true, ps))
    ensures forall k, k' | k in MapOf(Select(true, ps)) && k' in MapOf(Select(false, ps)) :: Less(ByOwnKey, k, k')
    ensures MapOf(Select(false, ps)) + MapOf(Select(true, ps)) == MapOf(ps)
  {
    SelectKeys(true, ps);
    SelectKeys(false, ps);
    SelectsAreAll(ps);
  }

  lemma SelectsAreAll<V>(ps: seq<Prop<V>>)
    requires DistinctKeys(ps)
    ensures MapOf(Select(false, ps)) + MapOf(Select(true, ps)) == MapOf(ps)
  {
    SelectMap(true, ps);
    SelectMap(false, ps);
  }

  lemma {:induction false} AppendMap<V>(a: seq<Prop<V>>, b: seq<Prop<V>>)
    requires DistinctKeys(a) && DistinctKeys(b) && forall k | k in MapOf(a) :: k !in MapOf(b)
    ensures DistinctKeys(a + b) && MapOf(a + b) == MapOf(b) + MapOf(a)
  {
    if a == [] {
      assert a + b == b;
    } else {
      AppendMap(a[1..], b);
      ConsMap(a[0], a[1..] + b);
      assert a + b == [a[0]] + (a[1..] + b);
    }
  }

  /** Whatever order the keys were inserted in, enumerating them loses and repeats none. */
  lemma OwnOrderKeepsAll<V>(ps: seq<Prop<V>>)
    requires DistinctKeys(ps)
    ensures DistinctKeys(OwnOrder(ps)) && MapOf(OwnOrder(ps)) == MapOf(ps)
  {
    var indices, named := Select(true, ps), Select(false, ps);
    SelectKeys(true, ps);
    SelectKeys(false, ps);
    SortSorts(ByOwnKey, indices);
    SortedIsDistinct(ByOwnKey, Sort(ByOwnKey, indices));
    AppendMap(Sort(ByOwnKey, indices), named);
    SelectsAreAll(ps);
  }

  // -------------------------------------------------------- the orders, spelled out

  lemma ArrayIndexMeans(k: Text)
    ensures IsArrayIndex(k) <==> exists n: nat | n < 4294967295 :: Digits(n) == k
  {
    if IsArrayIndex(k) { assert Digits(DigitsValue(k)) == k; }
    if n: nat :| n < 4294967295 && Digits(n) == k { DigitsRoundTrip(n); }
  }

  /** The order keys are enumerated in: array indices by value, then the others by code unit. */
  ghost predicate OwnKeyBefore(a: Text, b: Text) {
    if IsArrayIndex(a) && IsArrayIndex(b) then DigitsValue(a) < DigitsValue(b)
    else IsArrayIndex(a) || (!IsArrayIndex(b) && CodeUnitBefore(a, b))
  }

  lemma LessMeans(a: Text, b: Text)
    ensures Less(ByCodeUnit, a, b) <==> CodeUnitBefore(a, b)
    ensures Less(ByOwnKey, a, b) <==> OwnKeyBefore(a, b)
  {
    LexLessMeans(a, b);
  }

  lemma KeyIsListed<V>(ps: seq<Prop<V>>, i: nat)
    requires i < |ps|
    ensures ps[i].key in MapOf(ps)
  {
    if i > 0 { KeyIsListed(ps[1..], i - 1); }
  }

  lemma {:induction false} SortedPairs<V>(o: Order, ps: seq<Prop<V>>, i: nat, j: nat)
    requires Sorted(o, ps) && i < j < |ps|
    ensures Less(o, ps[i].key, ps[j].key)
  {
    if i == 0 {
      KeyIsListed(ps[1..], j - 1);
    } else {
      SortedPairs(o, ps[1..], i - 1, j - 1);
    }
  }

  /** Array#sort leaves the keys ascending by code unit. */
  lemma SortAscends<V>(ps: seq<Prop<V>>, i: nat, j: nat)
    requires DistinctKeys(ps) && i < j < |Sort(ByCodeUnit, ps)|
    ensures CodeUnitBefore(Sort(ByCodeUnit, ps)[i].key, Sort(ByCodeUnit, ps)[j].key)
  {
    SortSorts(ByCodeUnit, ps);
    SortedPairs(ByCodeUnit, Sort(ByCodeUnit, ps), i, j);
    LessMeans(Sort(ByCodeUnit, ps)[i].key, Sort(ByCodeUnit, ps)[j].key);
  }

  /** And the object they are inserted into enumerates indices by value first, then the others by code unit. */
  lemma OwnOrderAscends<V>(ps: seq<Prop<V>>, i: nat, j: nat)
    requires Sorted(ByCodeUnit, ps) && i < j < |OwnOrder(ps)|
    ensures OwnKeyBefore(OwnOrder(ps)[i].key, OwnOrder(ps)[j].key)
  {
    OwnOrderSorts(ps);
    SortedPairs(ByOwnKey, OwnOrder(ps), i, j);
    LessMeans(OwnOrder(ps)[i].key, OwnOrder(ps)[j].key);
  }
}
