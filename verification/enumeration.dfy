/**
  What a visit enumerates at one level of the path: the items of a vector, the
  entries of a map, the aggregates of an object, and the settable attributes
  of an object. Events of nested visits observe longer paths, so selecting the
  events at one path length isolates a single level.
*/
module Enumeration {
  import opened Wrappers
  import opened ObjectGraph
  import opened Events
  import opened Paths
  import opened Traversal

  /** Enter hooks, or attribute visits. */
  datatype Kind = Entering | Visiting

  predicate Selected(e: Event, depth: nat, k: Kind)
  {
    && |e.path| == depth
    && match k
       case Entering => Opens(e.hook).Some?
       case Visiting => e.hook.VisitAttribute?
  }

  /** The events of `t` of kind `k` that observe a path of length `depth`, in order. */
  function Select(t: seq<Event>, depth: nat, k: Kind): seq<Event>
  {
    if t == [] then []
    else Select(t[..|t| - 1], depth, k) + (if Selected(t[|t| - 1], depth, k) then [t[|t| - 1]] else [])
  }

  lemma {:induction false} SelectConcat(a: seq<Event>, b: seq<Event>, depth: nat, k: Kind)
    ensures Select(a + b, depth, k) == Select(a, depth, k) + Select(b, depth, k)
    decreases |b|
  {
    if b == [] {
      assert a + b == a;
    } else {
      var b' := b[..|b| - 1];
      assert (a + b)[..|a + b| - 1] == a + b';
      assert (a + b)[|a + b| - 1] == b[|b| - 1];
      SelectConcat(a, b', depth, k);
    }
  }

  lemma SelectSingle(e: Event, depth: nat, k: Kind)
    ensures Select([e], depth, k) == if Selected(e, depth, k) then [e] else []
  {
    assert [e][..0] == [];
  }

  /** A nested visit below `p` contributes nothing at `p`'s length or shorter. */
  lemma {:induction false} SelectShallow(t: seq<Event>, p: seq<string>, depth: nat, k: Kind)
    requires Deeper(t, p) && depth <= |p|
    ensures Select(t, depth, k) == []
    decreases |t|
  {
    if t != [] {
      var t' := t[..|t| - 1];
      assert Deeper(t', p) by {
        forall i | 0 <= i < |t'| ensures t'[i] == t[i] {
        }
      }
      SelectShallow(t', p, depth, k);
    }
  }

  /** The events of `[s] + inner + [e]` selected at a level `inner` lies strictly below. */
  lemma SelectWrap(s: Event, inner: seq<Event>, e: Event, q: seq<string>, depth: nat, k: Kind)
    requires Nested(inner, q) && depth <= |q| && !Selected(e, depth, k)
    ensures Select([s] + inner + [e], depth, k) == Select([s], depth, k)
  {
    SelectConcat([s] + inner, [e], depth, k);
    SelectConcat([s], inner, depth, k);
    SelectShallow(inner, q, depth, k);
    SelectSingle(e, depth, k);
  }

  /** A visit entered at `depth` and nested strictly below it is selected once, by its enter event. */
  lemma SelectEnteredOnce(t: seq<Event>, s: Event, inner: seq<Event>, e: Event, q: seq<string>, depth: nat, k: Kind)
    requires t == [s] + inner + [e]
    requires Deeper(inner, q) && depth <= |q|
    requires !Selected(e, depth, k)
    ensures Select(t, depth, k) == if Selected(s, depth, k) then [s] else []
  {
    SelectConcat([s] + inner, [e], depth, k);
    SelectConcat([s], inner, depth, k);
    SelectShallow(inner, q, depth, k);
    SelectSingle(s, depth, k);
    SelectSingle(e, depth, k);
  }

  // -------------------------------------------------------------- pointers

  /**
    A pointer attribute holding no object emits nothing. One holding an object
    opens at `p + [name, $Type]` of the target, closes at `p`, and is the only
    thing entered at that level: the target's own visit lies deeper.
  */
  lemma PointerEnumerated(g: Graph, p: seq<string>, E: seq<Handle>, obj: Handle, a: Attribute)
    requires WellFormed(g) && obj in g && obj !in E
    requires AttributeClosed(g, a) && a.PointerAttr?
    ensures a.target.None? ==> WalkAttribute(g, p, E, obj, a) == []
    ensures a.target.Some? ==>
      && a.target.value in g
      && var t := WalkAttribute(g, p, E, obj, a);
         && |t| >= 2
         && t[0] == Event(StartPointer(obj, a.name, a.target.value), p + [a.name, TypeSegment(g, a.target.value)])
         && t[|t| - 1] == Event(EndPointer, p)
         && Select(t, |p| + 2, Entering) == [t[0]]
  {
    AttributeTargetsClosed(g, a);
    if a.target.Some? {
      var item := a.target.value;
      var q := p + [a.name, TypeSegment(g, item)];
      PushShrinks(g, E, obj);
      WalkNested(g, q, E + [obj], item);
      var s, w, e := Event(StartPointer(obj, a.name, item), q), Walk(g, q, E + [obj], item), Event(EndPointer, p);
      assert WalkAttribute(g, p, E, obj, a) == [s] + w + [e];
      assert |q| == |p| + 2;
      assert Selected(s, |p| + 2, Entering);
      SelectEnteredOnce(WalkAttribute(g, p, E, obj, a), s, w, e, q, |p| + 2, Entering);
    }
  }

  // ---------------------------------------------------------------- items

  /** The enter event of item `k` of a vector whose own path is `p`: under its index and type. */
  function ItemStart(g: Graph, p: seq<string>, items: seq<Handle>, k: nat): Event
    requires WellFormed(g) && HandlesClosed(g, items) && k < |items|
  {
    Event(StartArrayItem(items, k, items[k]), p + [Decimal(k), TypeSegment(g, items[k])])
  }

  /** The enter events of the first `j` items of a vector, in index order. */
  function ItemStarts(g: Graph, p: seq<string>, items: seq<Handle>, j: nat): (r: seq<Event>)
    requires WellFormed(g) && HandlesClosed(g, items) && j <= |items|
    ensures |r| == j
    ensures forall k :: 0 <= k < j ==> r[k] == ItemStart(g, p, items, k)
  {
    if j == 0 then [] else ItemStarts(g, p, items, j - 1) + [ItemStart(g, p, items, j - 1)]
  }

  /** The item enter events of a vector whose own path is `p`: one per item, in order. */
  lemma {:induction false} ItemsEntered(g: Graph, p: seq<string>, E: seq<Handle>, obj: Handle,
                                        items: seq<Handle>, j: nat)
    requires WellFormed(g) && obj in g && obj !in E
    requires HandlesClosed(g, items) && j <= |items|
    ensures Select(WalkItems(g, p, E, obj, items, j), |p| + 2, Entering) == ItemStarts(g, p, items, j)
    decreases j
  {
    if j > 0 {
      var m := j - 1;
      var front, last := WalkItems(g, p, E, obj, items, m), WalkItem(g, p, E, obj, items, m);
      assert WalkItems(g, p, E, obj, items, j) == front + last;
      ItemsEntered(g, p, E, obj, items, m);
      ItemEntered(g, p, E, obj, items, m);
      SelectConcat(front, last, |p| + 2, Entering);
    }
  }

  /** Item `j` enters once at its own level. */
  lemma ItemEntered(g: Graph, p: seq<string>, E: seq<Handle>, obj: Handle, items: seq<Handle>, j: nat)
    requires WellFormed(g) && obj in g && obj !in E
    requires HandlesClosed(g, items) && j < |items|
    ensures Select(WalkItem(g, p, E, obj, items, j), |p| + 2, Entering) == [ItemStart(g, p, items, j)]
  {
    var item := items[j];
    var q := p + [Decimal(j), TypeSegment(g, item)];
    PushShrinks(g, E, obj);
    WalkNested(g, q, E + [obj], item);
    var s, w, e := ItemStart(g, p, items, j), Walk(g, q, E + [obj], item), Event(EndArrayItem, p);
    assert s == Event(StartArrayItem(items, j, item), q);
    assert WalkItem(g, p, E, obj, items, j) == [s] + w + [e];
    assert |q| == |p| + 2;
    assert Selected(s, |p| + 2, Entering);
    SelectEnteredOnce(WalkItem(g, p, E, obj, items, j), s, w, e, q, |p| + 2, Entering);
  }

  /**
    A vector attribute named `name` opens at `p + [name]`, closes at `p`, and
    in between enters each item in index order under its decimal index and
    its type, even when the vector is empty.
  */
  lemma VectorEnumerated(g: Graph, p: seq<string>, E: seq<Handle>, obj: Handle, a: Attribute)
    requires WellFormed(g) && obj in g && obj !in E
    requires AttributeClosed(g, a) && a.VectorAttr?
    ensures var t := WalkAttribute(g, p, E, obj, a);
      && |t| >= 2
      && t[0] == Event(StartArray(obj, a.name, a.items), p + [a.name])
      && t[|t| - 1] == Event(EndArray, p)
    ensures HandlesClosed(g, a.items)
    ensures Select(WalkAttribute(g, p, E, obj, a), |p| + 3, Entering) == ItemStarts(g, p + [a.name], a.items, |a.items|)
  {
    AttributeTargetsClosed(g, a);
    var q := p + [a.name];
    var s := Event(StartArray(obj, a.name, a.items), q);
    var w := WalkItems(g, q, E, obj, a.items, |a.items|);
    var e := Event(EndArray, p);
    assert WalkAttribute(g, p, E, obj, a) == [s] + w + [e];
    var d := |p| + 3;
    assert d == |q| + 2;
    assert !Selected(s, d, Entering) && !Selected(e, d, Entering);
    SelectConcat([s] + w, [e], d, Entering);
    SelectConcat([s], w, d, Entering);
    SelectSingle(s, d, Entering);
    SelectSingle(e, d, Entering);
    ItemsEntered(g, q, E, obj, a.items, |a.items|);
  }

  // -------------------------------------------------------------- entries

  /** The enter event of entry `k` of a map whose own path is `p`: under the entry's key and type. */
  function EntryStart(g: Graph, p: seq<string>, entries: seq<(nat, Handle)>, k: nat): Event
    requires WellFormed(g) && EntriesClosed(g, entries) && k < |entries|
  {
    Event(StartMapItem(entries, entries[k].0, entries[k].1), p + [Decimal(entries[k].0), TypeSegment(g, entries[k].1)])
  }

  /** The enter events of the first `j` entries of a map, in iteration order. */
  function EntryStarts(g: Graph, p: seq<string>, entries: seq<(nat, Handle)>, j: nat): (r: seq<Event>)
    requires WellFormed(g) && EntriesClosed(g, entries) && j <= |entries|
    ensures |r| == j
    ensures forall k :: 0 <= k < j ==> r[k] == EntryStart(g, p, entries, k)
  {
    if j == 0 then [] else EntryStarts(g, p, entries, j - 1) + [EntryStart(g, p, entries, j - 1)]
  }

  /** The entry enter events of a map whose own path is `p`: one per entry, under its key. */
  lemma {:induction false} EntriesEntered(g: Graph, p: seq<string>, E: seq<Handle>, obj: Handle,
                                          entries: seq<(nat, Handle)>, j: nat)
    requires WellFormed(g) && obj in g && obj !in E
    requires EntriesClosed(g, entries) && j <= |entries|
    ensures Select(WalkEntries(g, p, E, obj, entries, j), |p| + 2, Entering) == EntryStarts(g, p, entries, j)
    decreases j
  {
    if j > 0 {
      var m := j - 1;
      var front, last := WalkEntries(g, p, E, obj, entries, m), WalkEntry(g, p, E, obj, entries, m);
      assert WalkEntries(g, p, E, obj, entries, j) == front + last;
      EntriesEntered(g, p, E, obj, entries, m);
      EntryEntered(g, p, E, obj, entries, m);
      SelectConcat(front, last, |p| + 2, Entering);
    }
  }

  /** Entry `j` enters once at its own level. */
  lemma EntryEntered(g: Graph, p: seq<string>, E: seq<Handle>, obj: Handle, entries: seq<(nat, Handle)>, j: nat)
    requires WellFormed(g) && obj in g && obj !in E
    requires EntriesClosed(g, entries) && j < |entries|
    ensures Select(WalkEntry(g, p, E, obj, entries, j), |p| + 2, Entering) == [EntryStart(g, p, entries, j)]
  {
    var index, item := entries[j].0, entries[j].1;
    var q := p + [Decimal(index), TypeSegment(g, item)];
    PushShrinks(g, E, obj);
    WalkNested(g, q, E + [obj], item);
    var s, w, e := EntryStart(g, p, entries, j), Walk(g, q, E + [obj], item), Event(EndMapItem, p);
    assert s == Event(StartMapItem(entries, index, item), q);
    assert WalkEntry(g, p, E, obj, entries, j) == [s] + w + [e];
    assert |q| == |p| + 2;
    assert Selected(s, |p| + 2, Entering);
    SelectEnteredOnce(WalkEntry(g, p, E, obj, entries, j), s, w, e, q, |p| + 2, Entering);
  }

  /**
    A map attribute named `name` opens at `p + [name]`, closes at `p`, and in
    between enters each entry in iteration order under its decimal key and
    its type, even when the map is empty.
  */
  lemma MapEnumerated(g: Graph, p: seq<string>, E: seq<Handle>, obj: Handle, a: Attribute)
    requires WellFormed(g) && obj in g && obj !in E
    requires AttributeClosed(g, a) && a.MapAttr?
    ensures var t := WalkAttribute(g, p, E, obj, a);
      && |t| >= 2
      && t[0] == Event(StartMap(obj, a.name, a.entries), p + [a.name])
      && t[|t| - 1] == Event(EndMap, p)
    ensures EntriesClosed(g, a.entries)
    ensures Select(WalkAttribute(g, p, E, obj, a), |p| + 3, Entering) == EntryStarts(g, p + [a.name], a.entries, |a.entries|)
  {
    AttributeTargetsClosed(g, a);
    var q := p + [a.name];
    var s := Event(StartMap(obj, a.name, a.entries), q);
    var w := WalkEntries(g, q, E, obj, a.entries, |a.entries|);
    var e := Event(EndMap, p);
    assert WalkAttribute(g, p, E, obj, a) == [s] + w + [e];
    var d := |p| + 3;
    assert d == |q| + 2;
    assert !Selected(s, d, Entering) && !Selected(e, d, Entering);
    SelectConcat([s] + w, [e], d, Entering);
    SelectConcat([s], w, d, Entering);
    SelectSingle(s, d, Entering);
    SelectSingle(e, d, Entering);
    EntriesEntered(g, q, E, obj, a.entries, |a.entries|);
  }

  // ----------------------------------------------------------- aggregates

  /** The enter event of an aggregate of an object whose path is `p`: under the aggregate's type. */
  function PeerStart(g: Graph, p: seq<string>, peer: Handle): Event
    requires WellFormed(g) && peer in g
  {
    Event(StartObject(peer), p + [TypeSegment(g, peer)])
  }

  /** The enter events of the first `j` aggregates, in iterator order. */
  function PeerStarts(g: Graph, p: seq<string>, aggs: seq<Handle>, j: nat): (r: seq<Event>)
    requires WellFormed(g) && HandlesClosed(g, aggs) && j <= |aggs|
    ensures |r| == j
    ensures forall k :: 0 <= k < j ==> r[k] == PeerStart(g, p, aggs[k])
  {
    if j == 0 then [] else PeerStarts(g, p, aggs, j - 1) + [PeerStart(g, p, aggs[j - 1])]
  }

  lemma {:induction false} AggregateListEntered(g: Graph, p: seq<string>, E: seq<Handle>, obj: Handle,
                                                aggs: seq<Handle>, j: nat)
    requires WellFormed(g) && obj in g && obj !in E
    requires HandlesClosed(g, aggs) && j <= |aggs|
    ensures Select(WalkAggregateList(g, p, E, obj, aggs, j), |p| + 1, Entering) == PeerStarts(g, p, aggs, j)
    ensures Select(WalkAggregateList(g, p, E, obj, aggs, j), |p| + 1, Visiting) == []
    decreases j
  {
    if j > 0 {
      var m := j - 1;
      var front, last := WalkAggregateList(g, p, E, obj, aggs, m), WalkPeer(g, p, E, obj, aggs[m]);
      assert WalkAggregateList(g, p, E, obj, aggs, j) == front + last;
      AggregateListEntered(g, p, E, obj, aggs, m);
      PeerEntered(g, p, E, obj, aggs[m]);
      SelectConcat(front, last, |p| + 1, Entering);
      SelectConcat(front, last, |p| + 1, Visiting);
    }
  }

  /** One aggregate enters once at its own level and visits nothing there. */
  lemma PeerEntered(g: Graph, p: seq<string>, E: seq<Handle>, obj: Handle, peer: Handle)
    requires WellFormed(g) && obj in g && obj !in E && peer in g
    ensures Select(WalkPeer(g, p, E, obj, peer), |p| + 1, Entering) == [PeerStart(g, p, peer)]
    ensures Select(WalkPeer(g, p, E, obj, peer), |p| + 1, Visiting) == []
  {
    var q := p + [TypeSegment(g, peer)];
    PushShrinks(g, E, obj);
    WalkNested(g, q, E + [obj], peer);
    var s := Event(StartObject(peer), q);
    var w := Walk(g, q, E + [obj], peer);
    var e := Event(EndObject, p);
    assert WalkPeer(g, p, E, obj, peer) == [s] + w + [e];
    SelectWrap(s, w, e, q, |p| + 1, Entering);
    SelectWrap(s, w, e, q, |p| + 1, Visiting);
    SelectSingle(s, |p| + 1, Entering);
    SelectSingle(s, |p| + 1, Visiting);
  }

  /**
    The aggregates of an object are skipped altogether when any one of them
    is already examined; otherwise each is entered, in iterator order, as an
    object under its type.
  */
  lemma AggregatesEnumerated(g: Graph, p: seq<string>, E: seq<Handle>, obj: Handle)
    requires WellFormed(g) && obj in g && obj !in E
    ensures HandlesClosed(g, g[obj].aggregates)
    ensures RecursiveAggregate(g[obj].aggregates, E) ==> WalkAggregates(g, p, E, obj) == []
    ensures !RecursiveAggregate(g[obj].aggregates, E) ==>
      Select(WalkAggregates(g, p, E, obj), |p| + 1, Entering) == PeerStarts(g, p, g[obj].aggregates, |g[obj].aggregates|)
  {
    var aggs := g[obj].aggregates;
    NodeOf(g, obj);
    if !RecursiveAggregate(aggs, E) {
      AggregateListEntered(g, p, E, obj, aggs, |aggs|);
    }
  }

  lemma AggregatesVisitNothing(g: Graph, p: seq<string>, E: seq<Handle>, obj: Handle)
    requires WellFormed(g) && obj in g && obj !in E
    ensures Select(WalkAggregates(g, p, E, obj), |p| + 1, Visiting) == []
  {
    var aggs := g[obj].aggregates;
    NodeOf(g, obj);
    if !RecursiveAggregate(aggs, E) {
      AggregateListEntered(g, p, E, obj, aggs, |aggs|);
    }
  }

  // ----------------------------------------------------------- attributes

  /** Readable and writable through its accessor: the condition for a visit. */
  predicate Settable(a: Attribute)
  {
    a.ValueAttr? && a.getFlag && a.hasGetter && a.setFlag && a.hasSetter
  }

  /** The visits of the settable value attributes among the first `i` of `attrs`, in order. */
  function SettableVisits(obj: Handle, p: seq<string>, attrs: seq<Attribute>, i: nat): (r: seq<Event>)
    requires i <= |attrs|
    ensures |r| <= i
  {
    if i == 0 then []
    else
      var a := attrs[i - 1];
      SettableVisits(obj, p, attrs, i - 1) + (if Settable(a) then [Event(VisitAttribute(obj, a.name), p + [a.name])] else [])
  }

  /** The settable-attribute visits of the first `t` types of `obj`'s chain, most-derived first. */
  function ChainVisits(g: Graph, p: seq<string>, obj: Handle, t: nat): seq<Event>
    requires WellFormed(g) && obj in g && t < |g[obj].typeChain|
  {
    if t == 0 then []
    else
      var attrs := g[obj].typeChain[t - 1].attributes;
      ChainVisits(g, p, obj, t - 1) + SettableVisits(obj, p, attrs, |attrs|)
  }

  /** One attribute yields a visit at its own level exactly when it is a settable value attribute. */
  lemma AttributeVisits(g: Graph, p: seq<string>, E: seq<Handle>, obj: Handle, a: Attribute)
    requires WellFormed(g) && obj in g && obj !in E
    requires AttributeClosed(g, a)
    ensures Select(WalkAttribute(g, p, E, obj, a), |p| + 1, Visiting)
         == if Settable(a) then [Event(VisitAttribute(obj, a.name), p + [a.name])] else []
  {
    match a
    case PointerAttr(_, _) => PointerVisitsNothing(g, p, E, obj, a);
    case VectorAttr(_, _) => VectorVisitsNothing(g, p, E, obj, a);
    case MapAttr(_, _) => MapVisitsNothing(g, p, E, obj, a);
    case ValueAttr(name, _, _, _, _) =>
      if Settable(a) {
        SelectSingle(Event(VisitAttribute(obj, name), p + [name]), |p| + 1, Visiting);
      }
  }

  lemma PointerVisitsNothing(g: Graph, p: seq<string>, E: seq<Handle>, obj: Handle, a: Attribute)
    requires WellFormed(g) && obj in g && obj !in E
    requires AttributeClosed(g, a) && a.PointerAttr?
    ensures Select(WalkAttribute(g, p, E, obj, a), |p| + 1, Visiting) == []
  {
    AttributeTargetsClosed(g, a);
    if a.target.Some? {
      var item := a.target.value;
      var q := p + [a.name, TypeSegment(g, item)];
      PushShrinks(g, E, obj);
      WalkNested(g, q, E + [obj], item);
      var s := Event(StartPointer(obj, a.name, item), q);
      var w := Walk(g, q, E + [obj], item);
      assert WalkAttribute(g, p, E, obj, a) == [s] + w + [Event(EndPointer, p)];
      SelectWrap(s, w, Event(EndPointer, p), q, |p| + 1, Visiting);
      SelectSingle(s, |p| + 1, Visiting);
    }
  }

  lemma VectorVisitsNothing(g: Graph, p: seq<string>, E: seq<Handle>, obj: Handle, a: Attribute)
    requires WellFormed(g) && obj in g && obj !in E
    requires AttributeClosed(g, a) && a.VectorAttr?
    ensures Select(WalkAttribute(g, p, E, obj, a), |p| + 1, Visiting) == []
  {
    AttributeTargetsClosed(g, a);
    var q := p + [a.name];
    WalkItemsNested(g, q, E, obj, a.items, |a.items|);
    var s := Event(StartArray(obj, a.name, a.items), q);
    var w := WalkItems(g, q, E, obj, a.items, |a.items|);
    assert WalkAttribute(g, p, E, obj, a) == [s] + w + [Event(EndArray, p)];
    SelectWrap(s, w, Event(EndArray, p), q, |p| + 1, Visiting);
    SelectSingle(s, |p| + 1, Visiting);
  }

  lemma MapVisitsNothing(g: Graph, p: seq<string>, E: seq<Handle>, obj: Handle, a: Attribute)
    requires WellFormed(g) && obj in g && obj !in E
    requires AttributeClosed(g, a) && a.MapAttr?
    ensures Select(WalkAttribute(g, p, E, obj, a), |p| + 1, Visiting) == []
  {
    AttributeTargetsClosed(g, a);
    var q := p + [a.name];
    WalkEntriesNested(g, q, E, obj, a.entries, |a.entries|);
    var s := Event(StartMap(obj, a.name, a.entries), q);
    var w := WalkEntries(g, q, E, obj, a.entries, |a.entries|);
    assert WalkAttribute(g, p, E, obj, a) == [s] + w + [Event(EndMap, p)];
    SelectWrap(s, w, Event(EndMap, p), q, |p| + 1, Visiting);
    SelectSingle(s, |p| + 1, Visiting);
  }

  lemma {:induction false} AttributesVisits(g: Graph, p: seq<string>, E: seq<Handle>, obj: Handle,
                                            attrs: seq<Attribute>, i: nat)
    requires WellFormed(g) && obj in g && obj !in E
    requires AttributesClosed(g, attrs) && i <= |attrs|
    ensures Select(WalkAttributes(g, p, E, obj, attrs, i), |p| + 1, Visiting) == SettableVisits(obj, p, attrs, i)
    decreases i
  {
    if i > 0 {
      var front, last := WalkAttributes(g, p, E, obj, attrs, i - 1), WalkAttribute(g, p, E, obj, attrs[i - 1]);
      assert WalkAttributes(g, p, E, obj, attrs, i) == front + last;
      var x := attrs[i - 1];
      assert SettableVisits(obj, p, attrs, i) == SettableVisits(obj, p, attrs, i - 1)
        + (if Settable(x) then [Event(VisitAttribute(obj, x.name), p + [x.name])] else []);
      AttributesVisits(g, p, E, obj, attrs, i - 1);
      AttributeVisits(g, p, E, obj, attrs[i - 1]);
      SelectConcat(front, last, |p| + 1, Visiting);
    }
  }

  lemma {:induction false} TypesVisits(g: Graph, p: seq<string>, E: seq<Handle>, obj: Handle, t: nat)
    requires WellFormed(g) && obj in g && obj !in E
    requires t < |g[obj].typeChain|
    ensures Select(WalkTypes(g, p, E, obj, t), |p| + 1, Visiting) == ChainVisits(g, p, obj, t)
    decreases t
  {
    if t > 0 {
      var attrs := g[obj].typeChain[t - 1].attributes;
      ChainAttributesClosed(g, obj, t - 1);
      var front, last := WalkTypes(g, p, E, obj, t - 1), WalkAttributes(g, p, E, obj, attrs, |attrs|);
      assert WalkTypes(g, p, E, obj, t) == front + last;
      assert ChainVisits(g, p, obj, t) == ChainVisits(g, p, obj, t - 1) + SettableVisits(obj, p, attrs, |attrs|);
      TypesVisits(g, p, E, obj, t - 1);
      AttributesVisits(g, p, E, obj, attrs, |attrs|);
      SelectConcat(front, last, |p| + 1, Visiting);
    }
  }

  /**
    The attribute visits of one object, at the object's own level: nothing
    when it is already examined; otherwise exactly its settable value
    attributes, type by type from the most-derived type up to but excluding
    the parentless root type, in declaration order within each type. Nested
    objects and aggregates visit only at longer paths.
  */
  lemma WalkVisits(g: Graph, p: seq<string>, E: seq<Handle>, obj: Handle)
    requires WellFormed(g) && obj in g
    ensures Select(Walk(g, p, E, obj), |p| + 1, Visiting)
         == if obj in E then [] else ChainVisits(g, p, obj, ParentedTypes(g, obj))
  {
    if obj !in E {
      var types := WalkTypes(g, p, E, obj, ParentedTypes(g, obj));
      var aggregates := WalkAggregates(g, p, E, obj);
      assert Walk(g, p, E, obj) == types + aggregates;
      TypesVisits(g, p, E, obj, ParentedTypes(g, obj));
      AggregatesVisitNothing(g, p, E, obj);
      SelectConcat(types, aggregates, |p| + 1, Visiting);
    }
  }
}
