/**
  `AttributeIterator`: the depth-first walk over the object graph, written as
  the source writes it, with a path stack and an examined stack that every
  step pushes and pops. The iterator's state is a value threaded through the
  methods; each hook call appends one event to its trace.
*/
module AttributeIterator {
  import opened Wrappers
  import opened ObjectGraph
  import opened Events
  import opened Paths
  import opened Traversal

  /** `m_currentPath`, `m_examined`, and the hook calls made so far. */
  datatype Iterator = Iterator(path: seq<string>, examined: seq<Handle>, trace: seq<Event>)

  // ------------------------------------------------------ stack primitives

  function Push(s: Iterator, segment: string): Iterator
  {
    s.(path := s.path + [segment])
  }

  function Pop(s: Iterator): Iterator
    requires |s.path| >= 1
  {
    s.(path := s.path[..|s.path| - 1])
  }

  function PushExamined(s: Iterator, obj: Handle): Iterator
  {
    s.(examined := s.examined + [obj])
  }

  function PopExamined(s: Iterator): Iterator
    requires |s.examined| >= 1
  {
    s.(examined := s.examined[..|s.examined| - 1])
  }

  /** A hook call: it observes the current path stack. */
  function Emit(s: Iterator, h: Hook): Iterator
  {
    s.(trace := s.trace + [Event(h, s.path)])
  }

  // ------------------------------------------------ Start*/End* and visits

  /** Pushes the name, calls the hook, pops the name. */
  function VisitAttribute(s: Iterator, obj: Handle, name: string): Iterator
  {
    Pop(Emit(Push(s, name), Hook.VisitAttribute(obj, name)))
  }

  /** Pushes `$TypeName` of the object, then calls the hook. */
  function StartVisitObject(g: Graph, s: Iterator, obj: Handle): Iterator
    requires WellFormed(g) && obj in g
  {
    Emit(Push(s, TypeSegment(g, obj)), StartObject(obj))
  }

  /** Pops one segment, then calls the hook. */
  function EndVisitObject(s: Iterator): Iterator
    requires |s.path| >= 1
  {
    Emit(Pop(s), EndObject)
  }

  /** Pushes the attribute name and `$TypeName` of the target, then calls the hook. */
  function StartVisitPointerAttribute(g: Graph, s: Iterator, obj: Handle, name: string, value: Handle): Iterator
    requires WellFormed(g) && value in g
  {
    Emit(Push(Push(s, name), TypeSegment(g, value)), StartPointer(obj, name, value))
  }

  /** Pops two segments, then calls the hook. */
  function EndVisitPointerAttribute(s: Iterator): Iterator
    requires |s.path| >= 2
  {
    Emit(Pop(Pop(s)), EndPointer)
  }

  /** Pushes the attribute name, then calls the hook. */
  function StartVisitArrayAttribute(s: Iterator, obj: Handle, name: string, items: seq<Handle>): Iterator
  {
    Emit(Push(s, name), StartArray(obj, name, items))
  }

  /** Pops one segment, then calls the hook. */
  function EndVisitArrayAttribute(s: Iterator): Iterator
    requires |s.path| >= 1
  {
    Emit(Pop(s), EndArray)
  }

  /** Pushes the decimal index and `$TypeName` of the item, then calls the hook. */
  function StartVisitArrayItem(g: Graph, s: Iterator, items: seq<Handle>, index: nat, item: Handle): Iterator
    requires WellFormed(g) && item in g
  {
    Emit(Push(Push(s, Decimal(index)), TypeSegment(g, item)), StartArrayItem(items, index, item))
  }

  /** Pops two segments, then calls the hook. */
  function EndVisitArrayItem(s: Iterator): Iterator
    requires |s.path| >= 2
  {
    Emit(Pop(Pop(s)), EndArrayItem)
  }

  /** Pushes the attribute name, then calls the hook. */
  function StartVisitMapAttribute(s: Iterator, obj: Handle, name: string, entries: seq<(nat, Handle)>): Iterator
  {
    Emit(Push(s, name), StartMap(obj, name, entries))
  }

  /** Pops one segment, then calls the hook. */
  function EndVisitMapAttribute(s: Iterator): Iterator
    requires |s.path| >= 1
  {
    Emit(Pop(s), EndMap)
  }

  /** Pushes the decimal key and `$TypeName` of the item, then calls the hook. */
  function StartVisitMapItem(g: Graph, s: Iterator, entries: seq<(nat, Handle)>, index: nat, item: Handle): Iterator
    requires WellFormed(g) && item in g
  {
    Emit(Push(Push(s, Decimal(index)), TypeSegment(g, item)), StartMapItem(entries, index, item))
  }

  /** Pops two segments, then calls the hook. */
  function EndVisitMapItem(s: Iterator): Iterator
    requires |s.path| >= 2
  {
    Emit(Pop(Pop(s)), EndMapItem)
  }

  /**
    `VisitAttribute` leaves both stacks as it found them and calls its hook
    once, observing the current path extended by the attribute name, which
    renders as `GetCurrentPath(name)` for a non-empty name.
  */
  lemma VisitAttributeRestores(s: Iterator, obj: Handle, name: string)
    ensures var r := VisitAttribute(s, obj, name);
      && r.path == s.path && r.examined == s.examined
      && r.trace == s.trace + [Event(Hook.VisitAttribute(obj, name), s.path + [name])]
      && (name != "" ==> r.trace[|r.trace| - 1].CurrentPath() == CurrentPath(s.path, name))
  {
  }

  /**
    Object, array-attribute and map-attribute enter hooks push one segment
    and their exit hooks pop it; the exit hook runs after the pop.
  */
  lemma OneSegmentPairsRestore(g: Graph, s: Iterator, obj: Handle, name: string,
                               items: seq<Handle>, entries: seq<(nat, Handle)>)
    requires WellFormed(g) && obj in g
    ensures var r := StartVisitObject(g, s, obj);
      && r.path == s.path + [TypeSegment(g, obj)]
      && EndVisitObject(r).path == s.path
      && EndVisitObject(r).trace == r.trace + [Event(EndObject, s.path)]
    ensures var r := StartVisitArrayAttribute(s, obj, name, items);
      && r.path == s.path + [name]
      && EndVisitArrayAttribute(r).path == s.path
      && EndVisitArrayAttribute(r).trace == r.trace + [Event(EndArray, s.path)]
    ensures var r := StartVisitMapAttribute(s, obj, name, entries);
      && r.path == s.path + [name]
      && EndVisitMapAttribute(r).path == s.path
      && EndVisitMapAttribute(r).trace == r.trace + [Event(EndMap, s.path)]
  {
  }

  /**
    Pointer, array-item and map-item enter hooks push two segments, the name
    or the decimal index and then the `$TypeName` of the target; their exit
    hooks pop both, and run after the pops.
  */
  lemma TwoSegmentPairsRestore(g: Graph, s: Iterator, obj: Handle, name: string, item: Handle,
                               items: seq<Handle>, entries: seq<(nat, Handle)>, index: nat)
    requires WellFormed(g) && item in g
    ensures var r := StartVisitPointerAttribute(g, s, obj, name, item);
      && r.path == s.path + [name, TypeSegment(g, item)]
      && EndVisitPointerAttribute(r).path == s.path
      && EndVisitPointerAttribute(r).trace == r.trace + [Event(EndPointer, s.path)]
    ensures var r := StartVisitArrayItem(g, s, items, index, item);
      && r.path == s.path + [Decimal(index), TypeSegment(g, item)]
      && EndVisitArrayItem(r).path == s.path
      && EndVisitArrayItem(r).trace == r.trace + [Event(EndArrayItem, s.path)]
    ensures var r := StartVisitMapItem(g, s, entries, index, item);
      && r.path == s.path + [Decimal(index), TypeSegment(g, item)]
      && EndVisitMapItem(r).path == s.path
      && EndVisitMapItem(r).trace == r.trace + [Event(EndMapItem, s.path)]
  {
    PushTwoPopTwo(s.path, name, TypeSegment(g, item));
    PushTwoPopTwo(s.path, Decimal(index), TypeSegment(g, item));
  }

  // ---------------------------------------------------------------- walking

  /** Linear scan of the examined stack for `obj`. */
  method IsExamined(examined: seq<Handle>, obj: Handle) returns (found: bool)
    ensures found <==> obj in examined
  {
    var i := 0;
    while i < |examined|
      invariant 0 <= i <= |examined|
      invariant forall k :: 0 <= k < i ==> examined[k] != obj
    {
      if obj == examined[i] {
        return true;
      }
      i := i + 1;
    }
    return false;
  }

  /**
    `DoIterate`: visits the attributes of `obj` type by type, stopping before
    the parentless root type, then its aggregates; returns at once when `obj`
    is already on the examined stack.
  */
  method DoIterate(g: Graph, s: Iterator, obj: Handle) returns (r: Iterator)
    requires WellFormed(g) && obj in g
    ensures r == s.(trace := s.trace + Walk(g, s.path, s.examined, obj))
    ensures r.path == s.path && r.examined == s.examined
    ensures obj in s.examined ==> r == s
    decreases Unexamined(g, s.examined), 5
  {
    var examined := IsExamined(s.examined, obj);
    if examined {
      return s;
    }
    var chain := g[obj].typeChain;
    NodeOf(g, obj);
    r := s;
    var t := 0;
    while t < |chain| - 1
      invariant 0 <= t <= |chain| - 1
      invariant r == s.(trace := s.trace + WalkTypes(g, s.path, s.examined, obj, t))
    {
      var attrs := chain[t].attributes;
      ChainAttributesClosed(g, obj, t);
      r := VisitTypeAttributes(g, r, obj, attrs);
      t := t + 1;
    }
    r := VisitAggregates(g, r, obj);
    assert Walk(g, s.path, s.examined, obj)
        == WalkTypes(g, s.path, s.examined, obj, |chain| - 1) + WalkAggregates(g, s.path, s.examined, obj);
  }

  /** The inner loop of `DoIterate`: the attributes declared on one type, in declaration order. */
  method VisitTypeAttributes(g: Graph, s: Iterator, obj: Handle, attrs: seq<Attribute>) returns (r: Iterator)
    requires WellFormed(g) && obj in g && obj !in s.examined
    requires AttributesClosed(g, attrs)
    ensures r == s.(trace := s.trace + WalkAttributes(g, s.path, s.examined, obj, attrs, |attrs|))
    decreases Unexamined(g, s.examined), 4
  {
    r := s;
    var i := 0;
    while i < |attrs|
      invariant 0 <= i <= |attrs|
      invariant r == s.(trace := s.trace + WalkAttributes(g, s.path, s.examined, obj, attrs, i))
    {
      assert WalkAttributes(g, s.path, s.examined, obj, attrs, i + 1)
          == WalkAttributes(g, s.path, s.examined, obj, attrs, i) + WalkAttribute(g, s.path, s.examined, obj, attrs[i]);
      r := VisitOneAttribute(g, r, obj, attrs[i]);
      i := i + 1;
    }
  }

  /** The body of the attribute loop of `DoIterate` for one attribute. */
  method VisitOneAttribute(g: Graph, s: Iterator, obj: Handle, a: Attribute) returns (r: Iterator)
    requires WellFormed(g) && obj in g && obj !in s.examined
    requires AttributeClosed(g, a)
    ensures r == s.(trace := s.trace + WalkAttribute(g, s.path, s.examined, obj, a))
    decreases Unexamined(g, s.examined), 3
  {
    AttributeTargetsClosed(g, a);
    match a
    case PointerAttr(name, target) =>
      r := s;
      if target.Some? {
        r := VisitPointer(g, s, obj, name, target.value);
      }
    case VectorAttr(name, items) =>
      r := VisitVector(g, s, obj, name, items);
    case MapAttr(name, entries) =>
      r := VisitMap(g, s, obj, name, entries);
    case ValueAttr(name, getFlag, hasGetter, setFlag, hasSetter) =>
      if getFlag && hasGetter && setFlag && hasSetter {
        r := VisitAttribute(s, obj, name);
      } else {
        r := s;
      }
  }

  /** Entering two segments and leaving them again restores the path stack. */
  lemma PushTwoPopTwo(p: seq<string>, a: string, b: string)
    ensures (p + [a] + [b])[..|p| + 1][..|p|] == p
    ensures p + [a] + [b] == p + [a, b]
  {
  }

  /** Pushing and popping the examined stack restores it. */
  lemma PushPopExamined(e: seq<Handle>, obj: Handle)
    ensures (e + [obj])[..|e|] == e
  {
  }

  /**
    The nested walk every object-valued visit makes between its enter and
    exit hooks: `obj` is pushed on the examined stack, `item` is walked, and
    `obj` is popped again.
  */
  method WalkExamined(g: Graph, s: Iterator, obj: Handle, item: Handle) returns (r: Iterator)
    requires WellFormed(g) && obj in g && obj !in s.examined && item in g
    ensures r == s.(trace := s.trace + Walk(g, s.path, s.examined + [obj], item))
    decreases Unexamined(g, s.examined), 0
  {
    PushShrinks(g, s.examined, obj);
    PushPopExamined(s.examined, obj);
    r := PushExamined(s, obj);
    r := DoIterate(g, r, item);
    r := PopExamined(r);
  }

  /** A pointer attribute holding `item`: entered, the target walked with `obj` examined, exited. */
  method VisitPointer(g: Graph, s: Iterator, obj: Handle, name: string, item: Handle) returns (r: Iterator)
    requires WellFormed(g) && obj in g && obj !in s.examined && item in g
    ensures r == s.(trace := s.trace + WalkAttribute(g, s.path, s.examined, obj, PointerAttr(name, Some(item))))
    decreases Unexamined(g, s.examined), 1
  {
    var q := s.path + [name, TypeSegment(g, item)];
    PushTwoPopTwo(s.path, name, TypeSegment(g, item));
    var start := Event(StartPointer(obj, name, item), q);
    r := StartVisitPointerAttribute(g, s, obj, name, item);
    assert r == Iterator(q, s.examined, s.trace + [start]);
    r := WalkExamined(g, r, obj, item);
    var w := Walk(g, q, s.examined + [obj], item);
    r := EndVisitPointerAttribute(r);
    assert r == Iterator(s.path, s.examined, s.trace + [start] + w + [Event(EndPointer, s.path)]);
    assert WalkAttribute(g, s.path, s.examined, obj, PointerAttr(name, Some(item)))
        == [start] + w + [Event(EndPointer, s.path)];
  }

  /** A vector attribute: entered, each item visited in order, exited (also when empty). */
  method VisitVector(g: Graph, s: Iterator, obj: Handle, name: string, items: seq<Handle>) returns (r: Iterator)
    requires WellFormed(g) && obj in g && obj !in s.examined && HandlesClosed(g, items)
    ensures r == s.(trace := s.trace + WalkAttribute(g, s.path, s.examined, obj, VectorAttr(name, items)))
    decreases Unexamined(g, s.examined), 2
  {
    var p := s.path + [name];
    var start := Event(StartArray(obj, name, items), p);
    r := StartVisitArrayAttribute(s, obj, name, items);
    assert r == Iterator(p, s.examined, s.trace + [start]);
    var j := 0;
    while j < |items|
      invariant 0 <= j <= |items|
      invariant r == Iterator(p, s.examined, s.trace + [start] + WalkItems(g, p, s.examined, obj, items, j))
    {
      assert WalkItems(g, p, s.examined, obj, items, j + 1)
          == WalkItems(g, p, s.examined, obj, items, j) + WalkItem(g, p, s.examined, obj, items, j);
      r := VisitArrayItem(g, r, obj, items, j);
      j := j + 1;
    }
    var w := WalkItems(g, p, s.examined, obj, items, |items|);
    r := EndVisitArrayAttribute(r);
    assert p[..|p| - 1] == s.path;
    assert r == Iterator(s.path, s.examined, s.trace + [start] + w + [Event(EndArray, s.path)]);
    assert WalkAttribute(g, s.path, s.examined, obj, VectorAttr(name, items)) == [start] + w + [Event(EndArray, s.path)];
  }

  /** One vector item: `StartVisitArrayItem`, the item walked with `obj` examined, `EndVisitArrayItem`. */
  method VisitArrayItem(g: Graph, s: Iterator, obj: Handle, items: seq<Handle>, j: nat) returns (r: Iterator)
    requires WellFormed(g) && obj in g && obj !in s.examined && HandlesClosed(g, items) && j < |items|
    ensures r == s.(trace := s.trace + WalkItem(g, s.path, s.examined, obj, items, j))
    decreases Unexamined(g, s.examined), 1
  {
    var item := items[j];
    var q := s.path + [Decimal(j), TypeSegment(g, item)];
    PushTwoPopTwo(s.path, Decimal(j), TypeSegment(g, item));
    var start := Event(StartArrayItem(items, j, item), q);
    r := StartVisitArrayItem(g, s, items, j, item);
    assert r == Iterator(q, s.examined, s.trace + [start]);
    r := WalkExamined(g, r, obj, item);
    r := EndVisitArrayItem(r);
  }

  /** A map attribute: entered, each entry visited in iteration order, exited (also when empty). */
  method VisitMap(g: Graph, s: Iterator, obj: Handle, name: string, entries: seq<(nat, Handle)>) returns (r: Iterator)
    requires WellFormed(g) && obj in g && obj !in s.examined && EntriesClosed(g, entries)
    ensures r == s.(trace := s.trace + WalkAttribute(g, s.path, s.examined, obj, MapAttr(name, entries)))
    decreases Unexamined(g, s.examined), 2
  {
    var p := s.path + [name];
    var start := Event(StartMap(obj, name, entries), p);
    r := StartVisitMapAttribute(s, obj, name, entries);
    assert r == Iterator(p, s.examined, s.trace + [start]);
    var j := 0;
    while j < |entries|
      invariant 0 <= j <= |entries|
      invariant r == Iterator(p, s.examined, s.trace + [start] + WalkEntries(g, p, s.examined, obj, entries, j))
    {
      assert WalkEntries(g, p, s.examined, obj, entries, j + 1)
          == WalkEntries(g, p, s.examined, obj, entries, j) + WalkEntry(g, p, s.examined, obj, entries, j);
      r := VisitMapItem(g, r, obj, entries, j);
      j := j + 1;
    }
    var w := WalkEntries(g, p, s.examined, obj, entries, |entries|);
    r := EndVisitMapAttribute(r);
    assert p[..|p| - 1] == s.path;
    assert r == Iterator(s.path, s.examined, s.trace + [start] + w + [Event(EndMap, s.path)]);
    assert WalkAttribute(g, s.path, s.examined, obj, MapAttr(name, entries)) == [start] + w + [Event(EndMap, s.path)];
  }

  /** One map entry: `StartVisitMapItem` with its key, the item walked with `obj` examined, `EndVisitMapItem`. */
  method VisitMapItem(g: Graph, s: Iterator, obj: Handle, entries: seq<(nat, Handle)>, j: nat) returns (r: Iterator)
    requires WellFormed(g) && obj in g && obj !in s.examined && EntriesClosed(g, entries) && j < |entries|
    ensures r == s.(trace := s.trace + WalkEntry(g, s.path, s.examined, obj, entries, j))
    decreases Unexamined(g, s.examined), 1
  {
    var (index, item) := entries[j];
    var q := s.path + [Decimal(index), TypeSegment(g, item)];
    PushTwoPopTwo(s.path, Decimal(index), TypeSegment(g, item));
    var start := Event(StartMapItem(entries, index, item), q);
    r := StartVisitMapItem(g, s, entries, index, item);
    assert r == Iterator(q, s.examined, s.trace + [start]);
    r := WalkExamined(g, r, obj, item);
    r := EndVisitMapItem(r);
  }

  /**
    The aggregate part of `DoIterate`: a first pass looks for any aggregate on
    the examined stack; only when there is none does a second pass visit each
    aggregate in iterator order.
  */
  method VisitAggregates(g: Graph, s: Iterator, obj: Handle) returns (r: Iterator)
    requires WellFormed(g) && obj in g && obj !in s.examined
    ensures r == s.(trace := s.trace + WalkAggregates(g, s.path, s.examined, obj))
    decreases Unexamined(g, s.examined), 3
  {
    var aggs := g[obj].aggregates;
    NodeOf(g, obj);
    var recursiveAggregate := FindExaminedAggregate(aggs, s.examined);
    r := s;
    if !recursiveAggregate {
      var k := 0;
      while k < |aggs|
        invariant 0 <= k <= |aggs|
        invariant r == s.(trace := s.trace + WalkAggregateList(g, s.path, s.examined, obj, aggs, k))
      {
        r := VisitPeer(g, r, obj, aggs[k]);
        k := k + 1;
      }
    }
  }

  /** One aggregate: `StartVisitObject`, the peer walked with `obj` examined, `EndVisitObject`. */
  method VisitPeer(g: Graph, s: Iterator, obj: Handle, peer: Handle) returns (r: Iterator)
    requires WellFormed(g) && obj in g && obj !in s.examined && peer in g
    ensures r == s.(trace := s.trace + WalkPeer(g, s.path, s.examined, obj, peer))
    decreases Unexamined(g, s.examined), 1
  {
    var q := s.path + [TypeSegment(g, peer)];
    r := StartVisitObject(g, s, peer);
    r := WalkExamined(g, r, obj, peer);
    r := EndVisitObject(r);
    assert q[..|q| - 1] == s.path;
  }

  /** The first pass over the aggregates: is any of them on the examined stack? */
  method FindExaminedAggregate(aggs: seq<Handle>, examined: seq<Handle>) returns (recursiveAggregate: bool)
    ensures recursiveAggregate <==> RecursiveAggregate(aggs, examined)
  {
    recursiveAggregate := false;
    var k := 0;
    while k < |aggs|
      invariant 0 <= k <= |aggs|
      invariant recursiveAggregate <==> exists m :: 0 <= m < k && aggs[m] in examined
    {
      var seen := IsExamined(examined, aggs[k]);
      if seen {
        recursiveAggregate := true;
      }
      k := k + 1;
    }
  }

  /**
    `Iterate`: walks every root object in registry order, each entered as an
    object from the empty path; both stacks are empty again at the end, which
    is what the two closing assertions of the source check.
  */
  method Iterate(g: Graph, roots: seq<Handle>) returns (r: Iterator)
    requires WellFormed(g) && HandlesClosed(g, roots)
    ensures r.path == [] && r.examined == []
    ensures r.trace == WalkRoots(g, roots, |roots|)
    ensures Balanced(r.trace)
  {
    r := Iterator([], [], []);
    var i := 0;
    while i < |roots|
      invariant 0 <= i <= |roots|
      invariant r == Iterator([], [], WalkRoots(g, roots, i))
    {
      var root := roots[i];
      r := StartVisitObject(g, r, root);
      r := DoIterate(g, r, root);
      r := EndVisitObject(r);
      i := i + 1;
    }
    WalkRootsBalanced(g, roots, |roots|);
  }
}
