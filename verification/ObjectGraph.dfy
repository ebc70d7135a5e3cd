/**
 * src/global/hash.util.ts, normalize: the same canonical form computed over a heap of objects, where siblings may
 * share an object and cycles must be refused. The `seen` set is the source's WeakSet, added to on the way in and
 * deleted from on the way out.
 */
module ObjectGraph {
  import opened Wrappers
  import opened Texts
  import opened Json
  import opened KeyOrder
  import opened Canonical

  type Id = nat

  datatype Slot = Leaf(value: Value) | Ref(id: Id)

  /** An array, a plain object, or an object whose toJSON returns `result`, whose own properties nobody reads here. */
  datatype Node =
    | ArrayNode(elems: seq<Slot>)
    | ObjectNode(props: seq<Prop<Slot>>)
    | ToJsonNode(result: Slot)

  type Graph = map<Id, Node>

  datatype TypeError = CircularReference

  class WeakSet {
    var ids: set<Id>

    constructor ()
      ensures ids == {}
    {
      ids := {};
    }
  }

  predicate GoodSlot(g: Graph, s: Slot) {
    match s
    case Leaf(v) => !v.List? && !v.Record? && !v.WithToJson?
    case Ref(id) => id in g
  }

  predicate GoodNode(g: Graph, n: Node) {
    match n
    case ArrayNode(es) => forall i | 0 <= i < |es| :: GoodSlot(g, es[i])
    case ObjectNode(ps) =>
      DistinctKeys(ps) && forall i | 0 <= i < |ps| :: ps[i].key != PROTO && GoodSlot(g, ps[i].value)
    case ToJsonNode(r) => GoodSlot(g, r)
  }

  predicate GoodGraph(g: Graph) {
    forall id | id in g :: GoodNode(g, g[id])
  }

  ghost function SlotRank(g: Graph, rank: map<Id, nat>, s: Slot): nat {
    if s.Ref? && s.id in g && g[s.id].ToJsonNode? && s.id in rank then 1 + rank[s.id] else 0
  }

  /** Calling toJSON again and again ends: no cycle consists of toJSON objects only. */
  ghost predicate Settles(g: Graph, rank: map<Id, nat>) {
    forall id | id in g && g[id].ToJsonNode? :: id in rank && SlotRank(g, rank, g[id].result) <= rank[id]
  }

  ghost predicate Good(g: Graph, rank: map<Id, nat>, s: Slot) {
    GoodGraph(g) && Settles(g, rank) && GoodSlot(g, s)
  }

  /** The tree below a slot, or None when the walk meets an object it is already inside of. */
  ghost function Unfold(g: Graph, rank: map<Id, nat>, s: Slot, seen: set<Id>): Option<Value>
    requires Good(g, rank, s)
    decreases g.Keys - seen, SlotRank(g, rank, s)
  {
    match s
    case Leaf(v) => Some(v)
    case Ref(id) =>
      assert GoodNode(g, g[id]);
      match g[id]
      case ToJsonNode(r) =>
        var t := Unfold(g, rank, r, seen);
        if t.None? then None else Some(WithToJson([], t.value))
      case ArrayNode(es) =>
        if id in seen then None else
          assert g.Keys - (seen + {id}) < g.Keys - seen;
          if forall i | 0 <= i < |es| :: Unfold(g, rank, es[i], seen + {id}).Some? then
            Some(List(seq(|es|, i requires 0 <= i < |es| && Unfold(g, rank, es[i], seen + {id}).Some? =>
              Unfold(g, rank, es[i], seen + {id}).value)))
          else None
      case ObjectNode(ps) =>
        if id in seen then None else
          assert g.Keys - (seen + {id}) < g.Keys - seen;
          if forall i | 0 <= i < |ps| :: Unfold(g, rank, ps[i].value, seen + {id}).Some? then
            Some(Record(seq(|ps|, i requires 0 <= i < |ps| && Unfold(g, rank, ps[i].value, seen + {id}).Some? =>
              Prop(ps[i].key, Unfold(g, rank, ps[i].value, seen + {id}).value))))
          else None
  }

  /** `t` is the tree unfolding of `s`, shared objects copied at each use. */
  ghost predicate Unfolds(g: Graph, s: Slot, t: Value)
    requires GoodGraph(g) && GoodSlot(g, s)
    decreases t
  {
    match s
    case Leaf(v) => t == v
    case Ref(id) =>
      assert GoodNode(g, g[id]);
      match g[id]
      case ToJsonNode(r) => t.WithToJson? && t.own == [] && Unfolds(g, r, t.result)
      case ArrayNode(es) =>
        t.List? && |t.elems| == |es| && forall i | 0 <= i < |es| :: Unfolds(g, es[i], t.elems[i])
      case ObjectNode(ps) =>
        t.Record? && |t.props| == |ps|
        && forall i | 0 <= i < |ps| :: t.props[i].key == ps[i].key && Unfolds(g, ps[i].value, t.props[i].value)
  }

  lemma {:induction false} UnfoldUnfolds(g: Graph, rank: map<Id, nat>, s: Slot, seen: set<Id>)
    requires Good(g, rank, s) && Unfold(g, rank, s, seen).Some?
    ensures Unfolds(g, s, Unfold(g, rank, s, seen).value)
    decreases g.Keys - seen, SlotRank(g, rank, s)
  {
    if s.Ref? {
      assert GoodNode(g, g[s.id]);
      match g[s.id]
      case ToJsonNode(r) => UnfoldUnfolds(g, rank, r, seen);
      case ArrayNode(es) =>
        assert g.Keys - (seen + {s.id}) < g.Keys - seen;
        forall i | 0 <= i < |es| ensures Unfolds(g, es[i], Unfold(g, rank, s, seen).value.elems[i]) {
          UnfoldUnfolds(g, rank, es[i], seen + {s.id});
        }
      case ObjectNode(ps) =>
        assert g.Keys - (seen + {s.id}) < g.Keys - seen;
        forall i | 0 <= i < |ps| ensures Unfolds(g, ps[i].value, Unfold(g, rank, s, seen).value.props[i].value) {
          UnfoldUnfolds(g, rank, ps[i].value, seen + {s.id});
        }
    }
  }

  /** A finite unfolding is unique, and well formed as a payload tree. */
  lemma {:induction false} UnfoldingIsUnique(g: Graph, s: Slot, t: Value, u: Value)
    requires GoodGraph(g) && GoodSlot(g, s) && Unfolds(g, s, t) && Unfolds(g, s, u)
    ensures t == u && WellFormed(t)
    decreases t
  {
    if s.Ref? {
      assert GoodNode(g, g[s.id]);
      match g[s.id]
      case ToJsonNode(r) => UnfoldingIsUnique(g, r, t.result, u.result);
      case ArrayNode(es) =>
        forall i | 0 <= i < |es| ensures t.elems[i] == u.elems[i] && WellFormed(t.elems[i]) {
          UnfoldingIsUnique(g, es[i], t.elems[i], u.elems[i]);
        }
      case ObjectNode(ps) =>
        forall i | 0 <= i < |ps| ensures t.props[i] == u.props[i] && WellFormed(t.props[i].value) {
          UnfoldingIsUnique(g, ps[i].value, t.props[i].value, u.props[i].value);
        }
        SameKeysDistinct(ps, t.props);
    }
  }

  lemma {:induction false} SameKeysDistinct<A, B>(ps: seq<Prop<A>>, qs: seq<Prop<B>>)
    requires |ps| == |qs| && (forall i | 0 <= i < |ps| :: ps[i].key == qs[i].key) && DistinctKeys(ps)
    ensures DistinctKeys(qs) && MapOf(ps).Keys == MapOf(qs).Keys
  {
    if ps != [] {
      SameKeysDistinct(ps[1..], qs[1..]);
      assert MapOf(ps).Keys == MapOf(ps[1..]).Keys + {ps[0].key};
      assert MapOf(qs).Keys == MapOf(qs[1..]).Keys + {qs[0].key};
    }
  }

  // -------------------------------------------------------------- cycles

  ghost predicate Edge(g: Graph, a: Id, b: Id)
    requires a in g
  {
    match g[a]
    case ArrayNode(es) => Ref(b) in es
    case ObjectNode(ps) => exists i | 0 <= i < |ps| :: ps[i].value == Ref(b)
    case ToJsonNode(r) => r == Ref(b)
  }

  ghost predicate Walk(g: Graph, w: seq<Id>) {
    w != []
    && (forall i | 0 <= i < |w| :: w[i] in g)
    && (forall i | 0 <= i < |w| - 1 :: Edge(g, w[i], w[i + 1]))
  }

  /** The walk ends at an array or object it has already been through (or that `seen` holds). */
  ghost predicate Closes(g: Graph, w: seq<Id>, seen: set<Id>)
    requires Walk(g, w)
  {
    var last := w[|w| - 1];
    !g[last].ToJsonNode? && (last in seen || exists i | 0 <= i < |w| - 1 :: w[i] == last)
  }

  /** A cycle can be reached from `s`. */
  ghost predicate ReachesCycle(g: Graph, s: Slot) {
    exists w :: Walk(g, w) && s == Ref(w[0]) && Closes(g, w, {})
  }

  lemma {:induction false} FindCycle(g: Graph, rank: map<Id, nat>, s: Slot, seen: set<Id>) returns (w: seq<Id>)
    requires Good(g, rank, s) && Unfold(g, rank, s, seen).None?
    ensures Walk(g, w) && s == Ref(w[0]) && Closes(g, w, seen)
    decreases g.Keys - seen, SlotRank(g, rank, s)
  {
    assert GoodNode(g, g[s.id]);
    if !g[s.id].ToJsonNode? && s.id in seen {
      return [s.id];
    }
    var next: Slot;
    var inside := seen;
    match g[s.id] {
      case ToJsonNode(r) =>
        next := r;
      case ArrayNode(es) =>
        inside := seen + {s.id};
        assert g.Keys - inside < g.Keys - seen;
        var i :| 0 <= i < |es| && Unfold(g, rank, es[i], inside).None?;
        next := es[i];
      case ObjectNode(ps) =>
        inside := seen + {s.id};
        assert g.Keys - inside < g.Keys - seen;
        var i :| 0 <= i < |ps| && Unfold(g, rank, ps[i].value, inside).None?;
        next := ps[i].value;
    }
    var tail := FindCycle(g, rank, next, inside);
    w := [s.id] + tail;
    ExtendClosing(g, s.id, tail, seen, inside);
  }

  lemma ExtendClosing(g: Graph, a: Id, tail: seq<Id>, seen: set<Id>, inside: set<Id>)
    requires a in g && Walk(g, tail) && Edge(g, a, tail[0]) && Closes(g, tail, inside)
    requires inside == seen || inside == seen + {a}
    ensures Walk(g, [a] + tail) && Closes(g, [a] + tail, seen)
  {
    var w, last := [a] + tail, tail[|tail| - 1];
    forall i | 0 <= i < |w| - 1 ensures Edge(g, w[i], w[i + 1]) {
      if i > 0 { assert Edge(g, tail[i - 1], tail[i]); }
    }
    if last !in seen {
      if last == a && last in inside {
        assert w[0] == last;
      } else {
        var i :| 0 <= i < |tail| - 1 && tail[i] == last;
        assert w[i + 1] == last;
      }
    }
  }

  lemma {:induction false} CycleIsCaught(g: Graph, rank: map<Id, nat>, s: Slot, seen: set<Id>, w: seq<Id>)
    requires Good(g, rank, s) && Walk(g, w) && s == Ref(w[0]) && Closes(g, w, seen)
    ensures Unfold(g, rank, s, seen).None?
    decreases |w|
  {
    assert GoodNode(g, g[s.id]);
    if g[s.id].ToJsonNode? || s.id !in seen {
      var inside := if g[s.id].ToJsonNode? then seen else seen + {s.id};
      var tail := w[1..];
      assert Edge(g, w[0], w[1]);
      forall i | 0 <= i < |tail| - 1 ensures Edge(g, tail[i], tail[i + 1]) {
        assert Edge(g, w[i + 1], w[i + 2]);
      }
      if w[|w| - 1] !in inside {
        var i :| 0 <= i < |w| - 1 && w[i] == w[|w| - 1];
        assert tail[i - 1] == tail[|tail| - 1];
      }
      CycleIsCaught(g, rank, Ref(w[1]), inside, tail);
    }
  }

  /** normalize throws its TypeError exactly when a cycle is reachable. */
  lemma ThrowsOnCycles(g: Graph, rank: map<Id, nat>, s: Slot)
    requires Good(g, rank, s)
    ensures Unfold(g, rank, s, {}).None? <==> ReachesCycle(g, s)
  {
    if Unfold(g, rank, s, {}).None? {
      var w := FindCycle(g, rank, s, {});
    } else if ReachesCycle(g, s) {
      var w :| Walk(g, w) && s == Ref(w[0]) && Closes(g, w, {});
      CycleIsCaught(g, rank, s, {}, w);
    }
  }

  // ----------------------------------------------------- sorted properties

  ghost predicate AllUnfold(g: Graph, rank: map<Id, nat>, ps: seq<Prop<Slot>>, seen: set<Id>)
    requires GoodGraph(g) && Settles(g, rank) && forall i | 0 <= i < |ps| :: GoodSlot(g, ps[i].value)
  {
    forall i | 0 <= i < |ps| :: Unfold(g, rank, ps[i].value, seen).Some?
  }

  ghost function Unfolded(g: Graph, rank: map<Id, nat>, ps: seq<Prop<Slot>>, seen: set<Id>): (r: seq<Prop<Value>>)
    requires GoodGraph(g) && Settles(g, rank) && forall i | 0 <= i < |ps| :: GoodSlot(g, ps[i].value)
    requires AllUnfold(g, rank, ps, seen)
    ensures |r| == |ps|
    ensures forall i | 0 <= i < |ps| :: r[i] == Prop(ps[i].key, Unfold(g, rank, ps[i].value, seen).value)
  {
    if ps == [] then [] else
      [Prop(ps[0].key, Unfold(g, rank, ps[0].value, seen).value)] + Unfolded(g, rank, ps[1..], seen)
  }

  lemma {:induction false} EachUnfolds(g: Graph, rank: map<Id, nat>, ps: seq<Prop<Slot>>, seen: set<Id>)
    requires GoodGraph(g) && Settles(g, rank) && forall i | 0 <= i < |ps| :: GoodSlot(g, ps[i].value)
    requires AllUnfold(g, rank, ps, seen)
    ensures forall k | k in MapOf(ps) :: GoodSlot(g, MapOf(ps)[k]) && Unfold(g, rank, MapOf(ps)[k], seen).Some?
  {
    if ps != [] { EachUnfolds(g, rank, ps[1..], seen); }
  }

  lemma {:induction false} UnfoldedEntries(g: Graph, rank: map<Id, nat>, ps: seq<Prop<Slot>>, seen: set<Id>)
    requires GoodGraph(g) && Settles(g, rank) && forall i | 0 <= i < |ps| :: GoodSlot(g, ps[i].value)
    requires AllUnfold(g, rank, ps, seen)
    requires forall k | k in MapOf(ps) :: GoodSlot(g, MapOf(ps)[k]) && Unfold(g, rank, MapOf(ps)[k], seen).Some?
    ensures MapOf(Unfolded(g, rank, ps, seen)).Keys == MapOf(ps).Keys
    ensures forall k | k in MapOf(ps) ::
      MapOf(Unfolded(g, rank, ps, seen))[k] == Unfold(g, rank, MapOf(ps)[k], seen).value
  {
    if ps != [] {
      EachUnfolds(g, rank, ps[1..], seen);
      UnfoldedEntries(g, rank, ps[1..], seen);
      ConsMap(Prop(ps[0].key, Unfold(g, rank, ps[0].value, seen).value), Unfolded(g, rank, ps[1..], seen));
    }
  }

  lemma UnfoldedMap(g: Graph, rank: map<Id, nat>, ps: seq<Prop<Slot>>, seen: set<Id>)
    requires GoodGraph(g) && Settles(g, rank) && forall i | 0 <= i < |ps| :: GoodSlot(g, ps[i].value)
    requires AllUnfold(g, rank, ps, seen)
    ensures forall k | k in MapOf(ps) :: GoodSlot(g, MapOf(ps)[k]) && Unfold(g, rank, MapOf(ps)[k], seen).Some?
    ensures MapOf(Unfolded(g, rank, ps, seen)) == map k | k in MapOf(ps) :: Unfold(g, rank, MapOf(ps)[k], seen).value
  {
    EachUnfolds(g, rank, ps, seen);
    UnfoldedEntries(g, rank, ps, seen);
  }

  lemma {:induction false} NormalizedMap(ps: seq<Prop<Value>>)
    requires DistinctKeys(ps)
    ensures DistinctKeys(NormalizeProps(ps))
    ensures MapOf(NormalizeProps(ps)) == map k | k in MapOf(ps) && !MapOf(ps)[k].Undef? :: Normalize(MapOf(ps)[k])
  {
    if ps != [] {
      NormalizedMap(ps[1..]);
      if !ps[0].value.Undef? {
        assert NormalizeProps(ps)[1..] == NormalizeProps(ps[1..]);
      }
    }
  }

  lemma {:induction false} NormalizedStaysSorted(ps: seq<Prop<Value>>)
    requires Sorted(ByCodeUnit, ps)
    ensures Sorted(ByCodeUnit, NormalizeProps(ps))
  {
    if ps != [] {
      NormalizedStaysSorted(ps[1..]);
      SortedIsDistinct(ByCodeUnit, ps[1..]);
      NormalizedMap(ps[1..]);
      if !ps[0].value.Undef? {
        assert NormalizeProps(ps)[1..] == NormalizeProps(ps[1..]);
      }
    }
  }

  lemma {:induction false} SameKeysSorted<A, B>(ps: seq<Prop<A>>, qs: seq<Prop<B>>)
    requires |ps| == |qs| && (forall i | 0 <= i < |ps| :: ps[i].key == qs[i].key)
    requires Sorted(ByCodeUnit, ps)
    ensures Sorted(ByCodeUnit, qs)
  {
    if ps != [] {
      SameKeysSorted(ps[1..], qs[1..]);
      SortedIsDistinct(ByCodeUnit, ps[1..]);
      SameKeysDistinct(ps[1..], qs[1..]);
      forall k | k in MapOf(qs[1..]) ensures Less(ByCodeUnit, qs[0].key, k) {
        assert k in MapOf(ps[1..]).Keys;
      }
    }
  }

  /** Visiting the sorted keys and appending gives what sorting afterwards gives. */
  lemma SortingFirst(g: Graph, rank: map<Id, nat>, ps: seq<Prop<Slot>>, seen: set<Id>)
    requires GoodGraph(g) && Settles(g, rank) && GoodNode(g, ObjectNode(ps))
    ensures forall p | p in Sort(ByCodeUnit, ps) :: GoodSlot(g, p.value)
    ensures AllUnfold(g, rank, Sort(ByCodeUnit, ps), seen) <==> AllUnfold(g, rank, ps, seen)
    ensures AllUnfold(g, rank, ps, seen) ==>
      NormalizeProps(Unfolded(g, rank, Sort(ByCodeUnit, ps), seen))
      == Sort(ByCodeUnit, NormalizeProps(Unfolded(g, rank, ps, seen)))
  {
    var sorted := Sort(ByCodeUnit, ps);
    forall i | 0 <= i < |sorted| ensures GoodSlot(g, sorted[i].value) {
      assert sorted[i] in ps;
    }
    if AllUnfold(g, rank, ps, seen) {
      forall i | 0 <= i < |sorted| ensures Unfold(g, rank, sorted[i].value, seen).Some? {
        assert sorted[i] in ps;
      }
      SortSorts(ByCodeUnit, ps);
      UnfoldedMap(g, rank, ps, seen);
      UnfoldedMap(g, rank, sorted, seen);
      var a, b := Unfolded(g, rank, sorted, seen), Unfolded(g, rank, ps, seen);
      SameKeysSorted(sorted, a);
      SameKeysDistinct(ps, b);
      SortedIsDistinct(ByCodeUnit, a);
      NormalizedMap(a);
      NormalizedMap(b);
      NormalizedStaysSorted(a);
      SortSorts(ByCodeUnit, NormalizeProps(b));
      SortedIsUnique(ByCodeUnit, NormalizeProps(a), Sort(ByCodeUnit, NormalizeProps(b)));
    } else {
      var i :| 0 <= i < |ps| && Unfold(g, rank, ps[i].value, seen).None?;
      SortKeepsAll(ByCodeUnit, ps);
      assert ps[i] in sorted;
      var j :| 0 <= j < |sorted| && sorted[j] == ps[i];
      assert Unfold(g, rank, sorted[j].value, seen).None?;
    }
  }

  lemma {:induction false} NormalizePropsAppend(ps: seq<Prop<Value>>, p: Prop<Value>)
    ensures NormalizeProps(ps + [p]) == NormalizeProps(ps) + NormalizeProps([p])
  {
    if ps == [] {
      assert ps + [p] == [p];
    } else {
      NormalizePropsAppend(ps[1..], p);
      assert (ps + [p])[1..] == ps[1..] + [p];
    }
  }

  lemma UnfoldIsUndef(g: Graph, rank: map<Id, nat>, s: Slot, seen: set<Id>)
    requires Good(g, rank, s)
    ensures Unfold(g, rank, s, seen) == Some(Undef) <==> s == Leaf(Undef)
  {
    if s.Ref? { assert GoodNode(g, g[s.id]); }
  }

  // ------------------------------------------------------------ the method

  ghost function NormalizedTree(t: Option<Value>): Option<Value> {
    if t.None? then None else Some(Normalize(t.value))
  }

  lemma ArrayOutcome(g: Graph, rank: map<Id, nat>, id: Id, seen: set<Id>, out: Option<seq<Value>>)
    requires Good(g, rank, Ref(id)) && g[id].ArrayNode? && id !in seen
    requires forall i | 0 <= i < |g[id].elems| :: GoodSlot(g, g[id].elems[i])
    requires out.Some? <==> forall i | 0 <= i < |g[id].elems| :: Unfold(g, rank, g[id].elems[i], seen + {id}).Some?
    requires out.Some? ==> |out.value| == |g[id].elems| && forall i | 0 <= i < |out.value| ::
      out.value[i] == Normalize(Unfold(g, rank, g[id].elems[i], seen + {id}).value)
    ensures NormalizedTree(Unfold(g, rank, Ref(id), seen)) == if out.None? then None else Some(List(out.value))
  {
    if out.Some? {
      assert out.value == NormalizeElems(Unfold(g, rank, Ref(id), seen).value.elems);
    }
  }

  lemma ObjectOutcome(g: Graph, rank: map<Id, nat>, id: Id, seen: set<Id>)
    requires Good(g, rank, Ref(id)) && g[id].ObjectNode? && id !in seen
    ensures forall p | p in Sort(ByCodeUnit, g[id].props) :: GoodSlot(g, p.value)
    ensures NormalizedTree(Unfold(g, rank, Ref(id), seen)) ==
      if AllUnfold(g, rank, Sort(ByCodeUnit, g[id].props), seen + {id})
      then Some(Record(NormalizeProps(Unfolded(g, rank, Sort(ByCodeUnit, g[id].props), seen + {id}))))
      else None
  {
    assert GoodNode(g, g[id]);
    SortingFirst(g, rank, g[id].props, seen + {id});
    if AllUnfold(g, rank, g[id].props, seen + {id}) {
      assert Unfold(g, rank, Ref(id), seen).value.props == Unfolded(g, rank, g[id].props, seen + {id});
    }
  }

  /** None stands for the thrown TypeError; `seen` is back to what it was either way. */
  method NormalizeGraph(g: Graph, ghost rank: map<Id, nat>, s: Slot, seen: WeakSet) returns (r: Option<Value>)
    requires Good(g, rank, s)
    modifies seen
    ensures seen.ids == old(seen.ids)
    ensures r == NormalizedTree(Unfold(g, rank, s, old(seen.ids)))
    decreases g.Keys - seen.ids, 0, SlotRank(g, rank, s)
  {
    match s
    case Leaf(v) =>
      return Some(v);
    case Ref(id) =>
      assert GoodNode(g, g[id]);
      match g[id]
      case ToJsonNode(result) =>
        r := NormalizeGraph(g, rank, result, seen);
      case ArrayNode(es) =>
        if id in seen.ids { return None; }
        ghost var before := seen.ids;
        seen.ids := seen.ids + {id};
        assert g.Keys - (before + {id}) < g.Keys - before;
        var out := NormalizeElements(g, rank, es, seen);
        r := if out.None? then None else Some(List(out.value));
        ArrayOutcome(g, rank, id, before, out);
        seen.ids := seen.ids - {id};
        assert seen.ids == before;
      case ObjectNode(ps) =>
        if id in seen.ids { return None; }
        ghost var before := seen.ids;
        seen.ids := seen.ids + {id};
        assert g.Keys - (before + {id}) < g.Keys - before;
        ObjectOutcome(g, rank, id, before);
        var sorted := NormalizeMembers(g, rank, Sort(ByCodeUnit, ps), seen);
        r := if sorted.None? then None else Some(Record(sorted.value));
        seen.ids := seen.ids - {id};
        assert seen.ids == before;
  }

  /** Array#map over the elements, stopping at the first that throws. */
  method NormalizeElements(g: Graph, ghost rank: map<Id, nat>, es: seq<Slot>, seen: WeakSet)
    returns (r: Option<seq<Value>>)
    requires GoodGraph(g) && Settles(g, rank) && forall i | 0 <= i < |es| :: GoodSlot(g, es[i])
    modifies seen
    ensures seen.ids == old(seen.ids)
    ensures r.Some? <==> forall i | 0 <= i < |es| :: Unfold(g, rank, es[i], old(seen.ids)).Some?
    ensures r.Some? ==> |r.value| == |es| && forall i | 0 <= i < |es| ::
      r.value[i] == Normalize(Unfold(g, rank, es[i], old(seen.ids)).value)
    decreases g.Keys - seen.ids, 1, 0
  {
    ghost var inside := seen.ids;
    var out, i := [], 0;
    while i < |es|
      invariant 0 <= i <= |es| && |out| == i && seen.ids == inside
      invariant forall j | 0 <= j < i :: NormalizedTree(Unfold(g, rank, es[j], inside)) == Some(out[j])
    {
      var e := NormalizeGraph(g, rank, es[i], seen);
      if e.None? { return None; }
      out := out + [e.value];
      i := i + 1;
    }
    return Some(out);
  }

  /** The loop over the sorted keys: undefined members skipped, the others normalized in place. */
  method NormalizeMembers(g: Graph, ghost rank: map<Id, nat>, keys: seq<Prop<Slot>>, seen: WeakSet)
    returns (r: Option<seq<Prop<Value>>>)
    requires GoodGraph(g) && Settles(g, rank) && forall i | 0 <= i < |keys| :: GoodSlot(g, keys[i].value)
    modifies seen
    ensures seen.ids == old(seen.ids)
    ensures r.Some? <==> AllUnfold(g, rank, keys, old(seen.ids))
    ensures r.Some? ==> r.value == NormalizeProps(Unfolded(g, rank, keys, old(seen.ids)))
    decreases g.Keys - seen.ids, 1, 0
  {
    ghost var inside := seen.ids;
    var sorted, i := [], 0;
    ghost var tree: seq<Prop<Value>> := [];
    while i < |keys|
      invariant 0 <= i <= |keys| && |tree| == i && seen.ids == inside
      invariant forall j | 0 <= j < i ::
        Unfold(g, rank, keys[j].value, inside).Some?
        && tree[j] == Prop(keys[j].key, Unfold(g, rank, keys[j].value, inside).value)
      invariant sorted == NormalizeProps(tree)
    {
      var p := keys[i];
      UnfoldIsUndef(g, rank, p.value, inside);
      if p.value != Leaf(Undef) {
        var member := NormalizeGraph(g, rank, p.value, seen);
        if member.None? { return None; }
        sorted := sorted + [Prop(p.key, member.value)];
      }
      ghost var q := Prop(p.key, Unfold(g, rank, p.value, inside).value);
      NormalizePropsAppend(tree, q);
      tree := tree + [q];
      i := i + 1;
    }
    assert tree == Unfolded(g, rank, keys, inside);
    return Some(sorted);
  }

  /** canonicalize on the heap: a TypeError exactly on a reachable cycle, else the text of the tree unfolding. */
  method CanonicalizeGraph(g: Graph, ghost rank: map<Id, nat>, s: Slot) returns (r: Result<Text, TypeError>)
    requires Good(g, rank, s)
    ensures r.Failure? <==> ReachesCycle(g, s)
    ensures r.Success? ==> exists t :: Unfolds(g, s, t) && WellFormed(t) && r.value == Canonicalize(t)
  {
    var seen := new WeakSet();
    var normal := NormalizeGraph(g, rank, s, seen);
    ThrowsOnCycles(g, rank, s);
    if normal.None? { return Failure(CircularReference); }
    ghost var t := Unfold(g, rank, s, {}).value;
    UnfoldUnfolds(g, rank, s, {});
    UnfoldingIsUnique(g, s, t, t);
    return Success(Print(OrNull(Emit(normal.value))));
  }
}
