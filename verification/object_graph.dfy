/**
  The live object graph the attribute iterator walks, frozen into an immutable
  arena: handles name objects, each object carries its type chain (with the
  current values of the attributes declared on each type) and its aggregates.
*/
module ObjectGraph {
  import opened Wrappers

  /** Object identity: `Ptr<Object>` equality becomes handle equality. */
  type Handle = nat

  /**
    One attribute of one object, classified by its checker. The three object
    kinds carry the value `GetAttribute` returns for this object; a plain value
    attribute carries the access flags and accessor capabilities instead.
  */
  datatype Attribute =
    | PointerAttr(name: string, target: Option<Handle>)
    | VectorAttr(name: string, items: seq<Handle>)
    | MapAttr(name: string, entries: seq<(nat, Handle)>)
    | ValueAttr(name: string, getFlag: bool, hasGetter: bool, setFlag: bool, hasSetter: bool)
  {
    /** The handles this attribute refers to. */
    predicate RefersTo(h: Handle)
    {
      match this
      case PointerAttr(_, target) => target == Some(h)
      case VectorAttr(_, items) => h in items
      case MapAttr(_, entries) => exists k :: 0 <= k < |entries| && entries[k].1 == h
      case ValueAttr(_, _, _, _, _) => false
    }
  }

  /** A `TypeId`: its name and the attributes declared on exactly this type. */
  datatype TypeId = TypeId(name: string, attributes: seq<Attribute>)

  /**
    An object: its type chain, most-derived type first and the parentless root
    type last, and the objects reachable through its aggregate iterator.
  */
  datatype Node = Node(typeChain: seq<TypeId>, aggregates: seq<Handle>)

  type Graph = map<Handle, Node>

  /** Every object an attribute refers to is in the arena. */
  ghost predicate AttributeClosed(g: Graph, a: Attribute)
  {
    forall h :: a.RefersTo(h) ==> h in g
  }

  ghost predicate AttributesClosed(g: Graph, attrs: seq<Attribute>)
  {
    forall i :: 0 <= i < |attrs| ==> AttributeClosed(g, attrs[i])
  }

  ghost predicate HandlesClosed(g: Graph, hs: seq<Handle>)
  {
    forall k :: 0 <= k < |hs| ==> hs[k] in g
  }

  ghost predicate EntriesClosed(g: Graph, entries: seq<(nat, Handle)>)
  {
    forall k :: 0 <= k < |entries| ==> entries[k].1 in g
  }

  ghost predicate NodeClosed(g: Graph, n: Node)
  {
    && |n.typeChain| >= 1
    && (forall t :: 0 <= t < |n.typeChain| ==> AttributesClosed(g, n.typeChain[t].attributes))
    && HandlesClosed(g, n.aggregates)
  }

  /** Every object has a type, and every handle an object mentions is in the arena. */
  ghost predicate WellFormed(g: Graph)
  {
    forall h {:trigger NodeClosed(g, g[h])} :: h in g ==> NodeClosed(g, g[h])
  }

  /** What well-formedness says about one object of the arena. */
  lemma NodeOf(g: Graph, h: Handle)
    requires WellFormed(g) && h in g
    ensures NodeClosed(g, g[h])
    ensures |g[h].typeChain| >= 1 && HandlesClosed(g, g[h].aggregates)
  {
  }

  /** `GetInstanceTypeId().GetName()`. */
  function TypeName(g: Graph, h: Handle): string
    requires WellFormed(g) && h in g
  {
    NodeOf(g, h);
    g[h].typeChain[0].name
  }

  /**
    How many types of the chain the walk visits: every type that has a parent,
    that is all but the root type at the end of the chain.
  */
  function ParentedTypes(g: Graph, h: Handle): (n: nat)
    requires WellFormed(g) && h in g
    ensures n + 1 == |g[h].typeChain|
  {
    NodeOf(g, h);
    |g[h].typeChain| - 1
  }

  /** The `$TypeName` segment pushed when the walk enters object `h`. */
  function TypeSegment(g: Graph, h: Handle): string
    requires WellFormed(g) && h in g
  {
    "$" + TypeName(g, h)
  }

  lemma ChainAttributesClosed(g: Graph, obj: Handle, t: nat)
    requires WellFormed(g) && obj in g && t < |g[obj].typeChain|
    ensures AttributesClosed(g, g[obj].typeChain[t].attributes)
  {
    NodeOf(g, obj);
  }

  /** The objects a closed attribute refers to, by attribute kind. */
  lemma AttributeTargetsClosed(g: Graph, a: Attribute)
    requires AttributeClosed(g, a)
    ensures a.PointerAttr? && a.target.Some? ==> a.target.value in g
    ensures a.VectorAttr? ==> HandlesClosed(g, a.items)
    ensures a.MapAttr? ==> EntriesClosed(g, a.entries)
  {
    if a.PointerAttr? && a.target.Some? {
      assert a.RefersTo(a.target.value);
    }
    if a.VectorAttr? {
      forall k | 0 <= k < |a.items| ensures a.items[k] in g {
        assert a.RefersTo(a.items[k]);
      }
    }
    if a.MapAttr? {
      forall k | 0 <= k < |a.entries| ensures a.entries[k].1 in g {
        assert a.RefersTo(a.entries[k].1);
      }
    }
  }

  // ------------------------------------------------------- termination measure

  function Elements(s: seq<Handle>): set<Handle>
  {
    set x | x in s
  }

  /** Objects of the arena not yet on the examined stack: the walk's termination measure. */
  function Unexamined(g: Graph, examined: seq<Handle>): nat
  {
    |g.Keys - Elements(examined)|
  }

  /** Pushing an arena object that is not yet examined shrinks the measure. */
  lemma PushShrinks(g: Graph, examined: seq<Handle>, obj: Handle)
    requires obj in g && obj !in examined
    ensures Unexamined(g, examined + [obj]) < Unexamined(g, examined)
  {
    var before := g.Keys - Elements(examined);
    var after := g.Keys - Elements(examined + [obj]);
    assert Elements(examined + [obj]) == Elements(examined) + {obj};
    assert obj in before;
    assert after == before - {obj};
  }
}
