/**
  The observable output of the attribute iterator: one event per hook call,
  each tagged with the path stack at the moment the hook runs, and the
  bracket discipline the enter/exit hooks obey.
*/
module Events {
  import opened Wrappers
  import opened ObjectGraph
  import Paths

  /** The `Do*` hooks and the arguments the iterator passes to them. */
  datatype Hook =
    | StartObject(object: Handle)
    | EndObject
    | StartPointer(object: Handle, name: string, item: Handle)
    | EndPointer
    | StartArray(object: Handle, name: string, items: seq<Handle>)
    | EndArray
    | StartArrayItem(items: seq<Handle>, index: nat, item: Handle)
    | EndArrayItem
    | StartMap(object: Handle, name: string, entries: seq<(nat, Handle)>)
    | EndMap
    | StartMapItem(entries: seq<(nat, Handle)>, index: nat, item: Handle)
    | EndMapItem
    | VisitAttribute(object: Handle, name: string)

  /** A hook call and the path stack it observes. */
  datatype Event = Event(hook: Hook, path: seq<string>)
  {
    /** What `GetCurrentPath()` returns inside the hook. */
    function CurrentPath(): string
    {
      Paths.Render(path)
    }
  }

  /** The six kinds of bracket the enter/exit hooks form. */
  datatype Bracket = ObjectB | PointerB | ArrayB | ArrayItemB | MapB | MapItemB

  function Opens(h: Hook): Option<Bracket>
  {
    match h
    case StartObject(_) => Some(ObjectB)
    case StartPointer(_, _, _) => Some(PointerB)
    case StartArray(_, _, _) => Some(ArrayB)
    case StartArrayItem(_, _, _) => Some(ArrayItemB)
    case StartMap(_, _, _) => Some(MapB)
    case StartMapItem(_, _, _) => Some(MapItemB)
    case _ => None
  }

  function Closes(h: Hook): Option<Bracket>
  {
    match h
    case EndObject => Some(ObjectB)
    case EndPointer => Some(PointerB)
    case EndArray => Some(ArrayB)
    case EndArrayItem => Some(ArrayItemB)
    case EndMap => Some(MapB)
    case EndMapItem => Some(MapItemB)
    case _ => None
  }

  /**
    Reads events left to right against a stack of open brackets; None when an
    exit hook does not close the innermost open bracket of its own kind.
  */
  function Scan(t: seq<Event>, open: seq<Bracket>): Option<seq<Bracket>>
  {
    if t == [] then Some(open)
    else
      var h := t[0].hook;
      if Opens(h).Some? then Scan(t[1..], open + [Opens(h).value])
      else if Closes(h).Some? then
        if open != [] && open[|open| - 1] == Closes(h).value then Scan(t[1..], open[..|open| - 1])
        else None
      else Scan(t[1..], open)
  }

  /** Every enter hook is matched by a later exit hook of the same kind, properly nested. */
  predicate Balanced(t: seq<Event>)
  {
    Scan(t, []) == Some([])
  }

  /** Scanning a concatenation is scanning the parts one after the other. */
  lemma {:induction false} ScanConcat(a: seq<Event>, b: seq<Event>, open: seq<Bracket>)
    requires Scan(a, open).Some?
    ensures Scan(a + b, open) == Scan(b, Scan(a, open).value)
    decreases |a|
  {
    if a != [] {
      assert (a + b)[0] == a[0];
      assert (a + b)[1..] == a[1..] + b;
      var h := a[0].hook;
      if Opens(h).Some? {
        ScanConcat(a[1..], b, open + [Opens(h).value]);
      } else if Closes(h).Some? {
        ScanConcat(a[1..], b, open[..|open| - 1]);
      } else {
        ScanConcat(a[1..], b, open);
      }
    } else {
      assert a + b == b;
    }
  }

  /** Brackets already open below the scanned part are left alone. */
  lemma {:induction false} ScanBelow(t: seq<Event>, base: seq<Bracket>, open: seq<Bracket>)
    requires Scan(t, open).Some?
    ensures Scan(t, base + open) == Some(base + Scan(t, open).value)
    decreases |t|
  {
    if t != [] {
      var h := t[0].hook;
      if Opens(h).Some? {
        assert base + open + [Opens(h).value] == base + (open + [Opens(h).value]);
        ScanBelow(t[1..], base, open + [Opens(h).value]);
      } else if Closes(h).Some? {
        assert (base + open)[..|base + open| - 1] == base + open[..|open| - 1];
        ScanBelow(t[1..], base, open[..|open| - 1]);
      } else {
        ScanBelow(t[1..], base, open);
      }
    }
  }

  /** Two balanced traces in a row form a balanced trace. */
  lemma BalancedConcat(a: seq<Event>, b: seq<Event>)
    requires Balanced(a) && Balanced(b)
    ensures Balanced(a + b)
  {
    ScanConcat(a, b, []);
  }

  /** An enter hook, a balanced trace and the matching exit hook form a balanced trace. */
  lemma BalancedWrap(s: Event, inner: seq<Event>, e: Event)
    requires Opens(s.hook).Some? && Closes(e.hook) == Opens(s.hook)
    requires Balanced(inner)
    ensures Balanced([s] + inner + [e])
  {
    var k := Opens(s.hook).value;
    var t := [s] + inner + [e];
    assert t[0] == s;
    assert t[1..] == inner + [e];
    assert [] + [k] == [k];
    assert Scan(t, []) == Scan(inner + [e], [k]);
    ScanBelow(inner, [k], []);
    assert [k] + [] == [k];
    assert Scan(inner, [k]) == Some([k]);
    ScanConcat(inner, [e], [k]);
    assert [k][..0] == [];
    assert [e][1..] == [];
    assert Scan([e], [k]) == Some([]);
  }

  /** A hook that neither enters nor exits is balanced on its own. */
  lemma BalancedSingle(e: Event)
    requires Opens(e.hook).None? && Closes(e.hook).None?
    ensures Balanced([e])
  {
    assert [e][1..] == [];
  }

  /** Every event of `t` observes a path that extends `p`. */
  ghost predicate AllBelow(t: seq<Event>, p: seq<string>)
  {
    forall i :: 0 <= i < |t| ==> p <= t[i].path
  }
}
