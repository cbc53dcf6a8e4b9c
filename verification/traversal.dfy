/**
  The events `AttributeIterator::DoIterate` emits, defined compositionally: the
  path stack and the examined stack are parameters instead of mutable state,
  and each visit is its enter event, the visits nested inside it, and its exit
  event. The imperative iterator is proved to produce exactly these events.
*/
module Traversal {
  import opened Wrappers
  import opened ObjectGraph
  import opened Events
  import opened Paths

  /**
    Events of visiting `obj` when the path stack is `p` and the examined stack
    is `E`: nothing when `obj` is already examined, otherwise its attributes
    type by type, then its aggregates.
  */
  function Walk(g: Graph, p: seq<string>, E: seq<Handle>, obj: Handle): seq<Event>
    requires WellFormed(g) && obj in g
    decreases Unexamined(g, E), 6, 0
  {
    if obj in E then []
    else WalkTypes(g, p, E, obj, ParentedTypes(g, obj)) + WalkAggregates(g, p, E, obj)
  }

  /**
    Attributes of the first `t` types of the chain, most-derived type first.
    The full walk takes all types but the last: the loop stops at the type
    without a parent.
  */
  function WalkTypes(g: Graph, p: seq<string>, E: seq<Handle>, obj: Handle, t: nat): seq<Event>
    requires WellFormed(g) && obj in g && obj !in E
    requires t < |g[obj].typeChain|
    decreases Unexamined(g, E), 5, t
  {
    if t == 0 then []
    else
      var attrs := g[obj].typeChain[t - 1].attributes;
      ChainAttributesClosed(g, obj, t - 1);
      WalkTypes(g, p, E, obj, t - 1) + WalkAttributes(g, p, E, obj, attrs, |attrs|)
  }

  /** The first `i` attributes declared on one type, in declaration order. */
  function WalkAttributes(g: Graph, p: seq<string>, E: seq<Handle>, obj: Handle,
                          attrs: seq<Attribute>, i: nat): seq<Event>
    requires WellFormed(g) && obj in g && obj !in E
    requires AttributesClosed(g, attrs) && i <= |attrs|
    decreases Unexamined(g, E), 4, i
  {
    if i == 0 then []
    else WalkAttributes(g, p, E, obj, attrs, i - 1) + WalkAttribute(g, p, E, obj, attrs[i - 1])
  }

  /**
    One attribute of `obj`. A set pointer is entered under its name and the
    target's type; a vector or map is entered under its name and then each
    element under its index and type; a value attribute is visited only when
    it is readable and writable through its accessor.
  */
  function WalkAttribute(g: Graph, p: seq<string>, E: seq<Handle>, obj: Handle, a: Attribute): seq<Event>
    requires WellFormed(g) && obj in g && obj !in E
    requires AttributeClosed(g, a)
    decreases Unexamined(g, E), 3, 0
  {
    AttributeTargetsClosed(g, a);
    match a
    case PointerAttr(name, target) =>
      if target.None? then []
      else
        var q := p + [name, TypeSegment(g, target.value)];
        PushShrinks(g, E, obj);
        [Event(StartPointer(obj, name, target.value), q)]
          + Walk(g, q, E + [obj], target.value)
          + [Event(EndPointer, p)]
    case VectorAttr(name, items) =>
      [Event(StartArray(obj, name, items), p + [name])]
        + WalkItems(g, p + [name], E, obj, items, |items|)
        + [Event(EndArray, p)]
    case MapAttr(name, entries) =>
      [Event(StartMap(obj, name, entries), p + [name])]
        + WalkEntries(g, p + [name], E, obj, entries, |entries|)
        + [Event(EndMap, p)]
    case ValueAttr(name, getFlag, hasGetter, setFlag, hasSetter) =>
      if getFlag && hasGetter && setFlag && hasSetter then [Event(VisitAttribute(obj, name), p + [name])]
      else []
  }

  /** The first `j` items of a vector attribute whose own path is `p`. */
  function WalkItems(g: Graph, p: seq<string>, E: seq<Handle>, obj: Handle,
                     items: seq<Handle>, j: nat): seq<Event>
    requires WellFormed(g) && obj in g && obj !in E
    requires HandlesClosed(g, items) && j <= |items|
    decreases Unexamined(g, E), 2, j
  {
    if j == 0 then []
    else WalkItems(g, p, E, obj, items, j - 1) + WalkItem(g, p, E, obj, items, j - 1)
  }

  /** Item `j` of a vector: entered under its index and type, walked with `obj` examined, exited. */
  function WalkItem(g: Graph, p: seq<string>, E: seq<Handle>, obj: Handle, items: seq<Handle>, j: nat): seq<Event>
    requires WellFormed(g) && obj in g && obj !in E
    requires HandlesClosed(g, items) && j < |items|
    decreases Unexamined(g, E), 1, 0
  {
    var item := items[j];
    var q := p + [Decimal(j), TypeSegment(g, item)];
    PushShrinks(g, E, obj);
    [Event(StartArrayItem(items, j, item), q)] + Walk(g, q, E + [obj], item) + [Event(EndArrayItem, p)]
  }

  /** The first `j` entries of a map attribute whose own path is `p`, in iteration order. */
  function WalkEntries(g: Graph, p: seq<string>, E: seq<Handle>, obj: Handle,
                       entries: seq<(nat, Handle)>, j: nat): seq<Event>
    requires WellFormed(g) && obj in g && obj !in E
    requires EntriesClosed(g, entries) && j <= |entries|
    decreases Unexamined(g, E), 2, j
  {
    if j == 0 then []
    else WalkEntries(g, p, E, obj, entries, j - 1) + WalkEntry(g, p, E, obj, entries, j - 1)
  }

  /** Entry `j` of a map: entered under its key and type, walked with `obj` examined, exited. */
  function WalkEntry(g: Graph, p: seq<string>, E: seq<Handle>, obj: Handle,
                     entries: seq<(nat, Handle)>, j: nat): seq<Event>
    requires WellFormed(g) && obj in g && obj !in E
    requires EntriesClosed(g, entries) && j < |entries|
    decreases Unexamined(g, E), 1, 0
  {
    var (index, item) := entries[j];
    var q := p + [Decimal(index), TypeSegment(g, item)];
    PushShrinks(g, E, obj);
    [Event(StartMapItem(entries, index, item), q)] + Walk(g, q, E + [obj], item) + [Event(EndMapItem, p)]
  }

  /** Some aggregate of `obj` is already on the examined stack. */
  predicate RecursiveAggregate(aggs: seq<Handle>, E: seq<Handle>)
  {
    exists k :: 0 <= k < |aggs| && aggs[k] in E
  }

  /** The aggregates of `obj`: all of them, or none when any one is already examined. */
  function WalkAggregates(g: Graph, p: seq<string>, E: seq<Handle>, obj: Handle): seq<Event>
    requires WellFormed(g) && obj in g && obj !in E
    decreases Unexamined(g, E), 3, 0
  {
    var aggs := g[obj].aggregates;
    NodeOf(g, obj);
    if RecursiveAggregate(aggs, E) then []
    else WalkAggregateList(g, p, E, obj, aggs, |aggs|)
  }

  /** The first `j` aggregates, each entered as an object under its type. */
  function WalkAggregateList(g: Graph, p: seq<string>, E: seq<Handle>, obj: Handle,
                             aggs: seq<Handle>, j: nat): seq<Event>
    requires WellFormed(g) && obj in g && obj !in E
    requires HandlesClosed(g, aggs) && j <= |aggs|
    decreases Unexamined(g, E), 2, j
  {
    if j == 0 then []
    else WalkAggregateList(g, p, E, obj, aggs, j - 1) + WalkPeer(g, p, E, obj, aggs[j - 1])
  }

  /** One aggregate: entered as an object under its type, walked with `obj` examined, exited. */
  function WalkPeer(g: Graph, p: seq<string>, E: seq<Handle>, obj: Handle, peer: Handle): seq<Event>
    requires WellFormed(g) && obj in g && obj !in E && peer in g
    decreases Unexamined(g, E), 1, 0
  {
    var q := p + [TypeSegment(g, peer)];
    PushShrinks(g, E, obj);
    [Event(StartObject(peer), q)] + Walk(g, q, E + [obj], peer) + [Event(EndObject, p)]
  }

  /** The first `i` root objects, each entered as an object from the empty path. */
  function WalkRoots(g: Graph, roots: seq<Handle>, i: nat): seq<Event>
    requires WellFormed(g) && HandlesClosed(g, roots) && i <= |roots|
  {
    if i == 0 then []
    else
      var root := roots[i - 1];
      var q := [TypeSegment(g, root)];
      WalkRoots(g, roots, i - 1)
        + [Event(StartObject(root), q)]
        + Walk(g, q, [], root)
        + [Event(EndObject, [])]
  }

  // ------------------------------------------------------------------ shape

  /** Every hook of `t` other than an exit hook observes a path strictly longer than `p`. */
  ghost predicate Deeper(t: seq<Event>, p: seq<string>)
  {
    forall i :: 0 <= i < |t| && Closes(t[i].hook).None? ==> |p| < |t[i].path|
  }

  /**
    Well-nested output below `p`: balanced hooks, each observing an extension
    of `p`, and only exit hooks observing `p` itself.
  */
  ghost predicate Nested(t: seq<Event>, p: seq<string>)
  {
    Balanced(t) && AllBelow(t, p) && Deeper(t, p)
  }

  lemma NestedEmpty(p: seq<string>)
    ensures Nested([], p)
  {
  }

  lemma NestedConcat(a: seq<Event>, b: seq<Event>, p: seq<string>)
    requires Nested(a, p) && Nested(b, p)
    ensures Nested(a + b, p)
  {
    BalancedConcat(a, b);
    forall i | 0 <= i < |a + b| ensures (a + b)[i] == if i < |a| then a[i] else b[i - |a|] {
    }
  }

  /** An enter event below `p`, a visit nested below `q`, and an exit event at `p`. */
  lemma NestedWrap(s: Event, inner: seq<Event>, e: Event, p: seq<string>, q: seq<string>)
    requires Opens(s.hook).Some? && Closes(e.hook) == Opens(s.hook)
    requires p < q && s.path == q && e.path == p
    requires Nested(inner, q)
    ensures Nested([s] + inner + [e], p)
  {
    BalancedWrap(s, inner, e);
    var t := [s] + inner + [e];
    forall i | 0 <= i < |t| ensures p <= t[i].path && (Closes(t[i].hook).None? ==> |p| < |t[i].path|) {
      if 0 < i < |t| - 1 {
        assert t[i] == inner[i - 1];
      }
    }
  }

  /**
    The visit of one object is well nested: every enter hook is matched by the
    exit hook of its kind, and no hook observes a path shorter than the one the
    visit started from.
  */
  lemma {:induction false} WalkNested(g: Graph, p: seq<string>, E: seq<Handle>, obj: Handle)
    requires WellFormed(g) && obj in g
    ensures Nested(Walk(g, p, E, obj), p)
    decreases Unexamined(g, E), 6, 0
  {
    if obj !in E {
      WalkTypesNested(g, p, E, obj, ParentedTypes(g, obj));
      WalkAggregatesNested(g, p, E, obj);
      NestedConcat(WalkTypes(g, p, E, obj, ParentedTypes(g, obj)), WalkAggregates(g, p, E, obj), p);
    }
  }

  lemma {:induction false} WalkTypesNested(g: Graph, p: seq<string>, E: seq<Handle>, obj: Handle, t: nat)
    requires WellFormed(g) && obj in g && obj !in E
    requires t < |g[obj].typeChain|
    ensures Nested(WalkTypes(g, p, E, obj, t), p)
    decreases Unexamined(g, E), 5, t
  {
    if t > 0 {
      var attrs := g[obj].typeChain[t - 1].attributes;
      ChainAttributesClosed(g, obj, t - 1);
      WalkTypesNested(g, p, E, obj, t - 1);
      WalkAttributesNested(g, p, E, obj, attrs, |attrs|);
      NestedConcat(WalkTypes(g, p, E, obj, t - 1), WalkAttributes(g, p, E, obj, attrs, |attrs|), p);
    }
  }

  lemma {:induction false} WalkAttributesNested(g: Graph, p: seq<string>, E: seq<Handle>, obj: Handle,
                                                attrs: seq<Attribute>, i: nat)
    requires WellFormed(g) && obj in g && obj !in E
    requires AttributesClosed(g, attrs) && i <= |attrs|
    ensures Nested(WalkAttributes(g, p, E, obj, attrs, i), p)
    decreases Unexamined(g, E), 4, i
  {
    if i > 0 {
      WalkAttributesNested(g, p, E, obj, attrs, i - 1);
      WalkAttributeNested(g, p, E, obj, attrs[i - 1]);
      NestedConcat(WalkAttributes(g, p, E, obj, attrs, i - 1), WalkAttribute(g, p, E, obj, attrs[i - 1]), p);
    }
  }

  lemma {:induction false} WalkAttributeNested(g: Graph, p: seq<string>, E: seq<Handle>, obj: Handle, a: Attribute)
    requires WellFormed(g) && obj in g && obj !in E
    requires AttributeClosed(g, a)
    ensures Nested(WalkAttribute(g, p, E, obj, a), p)
    decreases Unexamined(g, E), 3, 1
  {
    match a
    case PointerAttr(name, target) => WalkPointerNested(g, p, E, obj, a);
    case VectorAttr(name, items) => WalkVectorNested(g, p, E, obj, a);
    case MapAttr(name, entries) => WalkMapNested(g, p, E, obj, a);
    case ValueAttr(name, getFlag, hasGetter, setFlag, hasSetter) =>
      if getFlag && hasGetter && setFlag && hasSetter {
        BalancedSingle(Event(VisitAttribute(obj, name), p + [name]));
      }
  }

  lemma {:induction false} WalkPointerNested(g: Graph, p: seq<string>, E: seq<Handle>, obj: Handle, a: Attribute)
    requires WellFormed(g) && obj in g && obj !in E
    requires AttributeClosed(g, a) && a.PointerAttr?
    ensures Nested(WalkAttribute(g, p, E, obj, a), p)
    decreases Unexamined(g, E), 3, 0
  {
    AttributeTargetsClosed(g, a);
    if a.target.Some? {
      var item := a.target.value;
      var q := p + [a.name, TypeSegment(g, item)];
      PushShrinks(g, E, obj);
      WalkNested(g, q, E + [obj], item);
      var s := Event(StartPointer(obj, a.name, item), q);
      var w := Walk(g, q, E + [obj], item);
      var e := Event(EndPointer, p);
      assert WalkAttribute(g, p, E, obj, a) == [s] + w + [e];
      NestedWrap(s, w, e, p, q);
    }
  }

  lemma {:induction false} WalkVectorNested(g: Graph, p: seq<string>, E: seq<Handle>, obj: Handle, a: Attribute)
    requires WellFormed(g) && obj in g && obj !in E
    requires AttributeClosed(g, a) && a.VectorAttr?
    ensures Nested(WalkAttribute(g, p, E, obj, a), p)
    decreases Unexamined(g, E), 3, 0
  {
    AttributeTargetsClosed(g, a);
    var q := p + [a.name];
    WalkItemsNested(g, q, E, obj, a.items, |a.items|);
    var s := Event(StartArray(obj, a.name, a.items), q);
    var w := WalkItems(g, q, E, obj, a.items, |a.items|);
    var e := Event(EndArray, p);
    assert WalkAttribute(g, p, E, obj, a) == [s] + w + [e];
    NestedWrap(s, w, e, p, q);
  }

  lemma {:induction false} WalkMapNested(g: Graph, p: seq<string>, E: seq<Handle>, obj: Handle, a: Attribute)
    requires WellFormed(g) && obj in g && obj !in E
    requires AttributeClosed(g, a) && a.MapAttr?
    ensures Nested(WalkAttribute(g, p, E, obj, a), p)
    decreases Unexamined(g, E), 3, 0
  {
    AttributeTargetsClosed(g, a);
    var q := p + [a.name];
    WalkEntriesNested(g, q, E, obj, a.entries, |a.entries|);
    var s := Event(StartMap(obj, a.name, a.entries), q);
    var w := WalkEntries(g, q, E, obj, a.entries, |a.entries|);
    var e := Event(EndMap, p);
    assert WalkAttribute(g, p, E, obj, a) == [s] + w + [e];
    NestedWrap(s, w, e, p, q);
  }

  lemma {:induction false} WalkItemsNested(g: Graph, p: seq<string>, E: seq<Handle>, obj: Handle,
                                           items: seq<Handle>, j: nat)
    requires WellFormed(g) && obj in g && obj !in E
    requires HandlesClosed(g, items) && j <= |items|
    ensures Nested(WalkItems(g, p, E, obj, items, j), p)
    decreases Unexamined(g, E), 2, j
  {
    if j > 0 {
      var front, last := WalkItems(g, p, E, obj, items, j - 1), WalkItem(g, p, E, obj, items, j - 1);
      assert WalkItems(g, p, E, obj, items, j) == front + last;
      WalkItemsNested(g, p, E, obj, items, j - 1);
      WalkItemNested(g, p, E, obj, items, j - 1);
      NestedConcat(front, last, p);
    }
  }

  lemma {:induction false} WalkItemNested(g: Graph, p: seq<string>, E: seq<Handle>, obj: Handle,
                                          items: seq<Handle>, j: nat)
    requires WellFormed(g) && obj in g && obj !in E
    requires HandlesClosed(g, items) && j < |items|
    ensures Nested(WalkItem(g, p, E, obj, items, j), p)
    decreases Unexamined(g, E), 1, 0
  {
    var item := items[j];
    var q := p + [Decimal(j), TypeSegment(g, item)];
    PushShrinks(g, E, obj);
    WalkNested(g, q, E + [obj], item);
    NestedWrap(Event(StartArrayItem(items, j, item), q), Walk(g, q, E + [obj], item), Event(EndArrayItem, p), p, q);
  }

  lemma {:induction false} WalkEntriesNested(g: Graph, p: seq<string>, E: seq<Handle>, obj: Handle,
                                             entries: seq<(nat, Handle)>, j: nat)
    requires WellFormed(g) && obj in g && obj !in E
    requires EntriesClosed(g, entries) && j <= |entries|
    ensures Nested(WalkEntries(g, p, E, obj, entries, j), p)
    decreases Unexamined(g, E), 2, j
  {
    if j > 0 {
      var front, last := WalkEntries(g, p, E, obj, entries, j - 1), WalkEntry(g, p, E, obj, entries, j - 1);
      assert WalkEntries(g, p, E, obj, entries, j) == front + last;
      WalkEntriesNested(g, p, E, obj, entries, j - 1);
      WalkEntryNested(g, p, E, obj, entries, j - 1);
      NestedConcat(front, last, p);
    }
  }

  lemma {:induction false} WalkEntryNested(g: Graph, p: seq<string>, E: seq<Handle>, obj: Handle,
                                           entries: seq<(nat, Handle)>, j: nat)
    requires WellFormed(g) && obj in g && obj !in E
    requires EntriesClosed(g, entries) && j < |entries|
    ensures Nested(WalkEntry(g, p, E, obj, entries, j), p)
    decreases Unexamined(g, E), 1, 0
  {
    var (index, item) := entries[j];
    var q := p + [Decimal(index), TypeSegment(g, item)];
    PushShrinks(g, E, obj);
    WalkNested(g, q, E + [obj], item);
    NestedWrap(Event(StartMapItem(entries, index, item), q), Walk(g, q, E + [obj], item), Event(EndMapItem, p), p, q);
  }

  lemma {:induction false} WalkAggregatesNested(g: Graph, p: seq<string>, E: seq<Handle>, obj: Handle)
    requires WellFormed(g) && obj in g && obj !in E
    ensures Nested(WalkAggregates(g, p, E, obj), p)
    decreases Unexamined(g, E), 3, 0
  {
    var aggs := g[obj].aggregates;
    NodeOf(g, obj);
    if !RecursiveAggregate(aggs, E) {
      WalkAggregateListNested(g, p, E, obj, aggs, |aggs|);
    }
  }

  lemma {:induction false} WalkAggregateListNested(g: Graph, p: seq<string>, E: seq<Handle>, obj: Handle,
                                                   aggs: seq<Handle>, j: nat)
    requires WellFormed(g) && obj in g && obj !in E
    requires HandlesClosed(g, aggs) && j <= |aggs|
    ensures Nested(WalkAggregateList(g, p, E, obj, aggs, j), p)
    decreases Unexamined(g, E), 2, j
  {
    if j > 0 {
      WalkAggregateListNested(g, p, E, obj, aggs, j - 1);
      WalkPeerNested(g, p, E, obj, aggs[j - 1]);
      NestedConcat(WalkAggregateList(g, p, E, obj, aggs, j - 1), WalkPeer(g, p, E, obj, aggs[j - 1]), p);
    }
  }

  lemma {:induction false} WalkPeerNested(g: Graph, p: seq<string>, E: seq<Handle>, obj: Handle, peer: Handle)
    requires WellFormed(g) && obj in g && obj !in E && peer in g
    ensures Nested(WalkPeer(g, p, E, obj, peer), p)
    decreases Unexamined(g, E), 1, 0
  {
    var q := p + [TypeSegment(g, peer)];
    PushShrinks(g, E, obj);
    WalkNested(g, q, E + [obj], peer);
    NestedWrap(Event(StartObject(peer), q), Walk(g, q, E + [obj], peer), Event(EndObject, p), p, q);
  }

  /** The whole pass over the roots is balanced. */
  lemma {:induction false} WalkRootsBalanced(g: Graph, roots: seq<Handle>, i: nat)
    requires WellFormed(g) && HandlesClosed(g, roots) && i <= |roots|
    ensures Balanced(WalkRoots(g, roots, i))
  {
    if i > 0 {
      var root := roots[i - 1];
      var q := [TypeSegment(g, root)];
      WalkRootsBalanced(g, roots, i - 1);
      WalkNested(g, q, [], root);
      var s := Event(StartObject(root), q);
      var e := Event(EndObject, []);
      var w := Walk(g, q, [], root);
      NestedWrap(s, w, e, [], q);
      BalancedConcat(WalkRoots(g, roots, i - 1), [s] + w + [e]);
      assert WalkRoots(g, roots, i) == WalkRoots(g, roots, i - 1) + ([s] + w + [e]);
    }
  }
}
