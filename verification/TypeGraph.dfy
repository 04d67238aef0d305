/** The registered types that utils/print-introspected-doxygen.cc walks, the labelled edges between them,
    and the configuration paths those edges spell. */
module TypeGraph {
  import opened Sequences
  import opened Escaping

  type TypeId = nat

  datatype AttributeKind = Plain | Pointer(pointee: TypeId) | ObjectVector(item: TypeId)

  datatype Attribute = Attribute(name: string, kind: AttributeKind)

  /** What the TypeId class answers: names, attributes, registration order and inheritance. */
  datatype Registry = Registry(
    names: map<TypeId, string>,
    attributes: map<TypeId, seq<Attribute>>,
    registered: seq<TypeId>,
    childOf: set<(TypeId, TypeId)>)
  {
    ghost function Types(): set<TypeId> {
      set t | t in registered
    }

    /** Registered types have a name and attributes, and attributes point at registered types. */
    ghost predicate Valid() {
      && names.Keys == Types() && attributes.Keys == Types()
      && forall t, a :: t in attributes && a in attributes[t] ==>
           && (a.kind.Pointer? ==> a.kind.pointee in Types())
           && (a.kind.ObjectVector? ==> a.kind.item in Types())
    }

    predicate IsChildOf(child: TypeId, parent: TypeId) {
      (child, parent) in childOf
    }
  }

  type Aggregates = seq<(TypeId, TypeId)>

  ghost predicate AggregatesRegistered(reg: Registry, aggregates: Aggregates) {
    forall p :: p in aggregates ==> p.0 in reg.Types() && p.1 in reg.Types()
  }

  /** A path element and the type it leads to. */
  datatype Hop = Hop(name: string, target: TypeId)

  ghost function TypeLabel(reg: Registry, t: TypeId): string
    requires t in reg.names
  {
    Escape("$%" + reg.names[t])
  }

  ghost function AttributeHop(a: Attribute): seq<Hop> {
    match a.kind
    case Plain => []
    case Pointer(pointee) => [Hop(a.name, pointee)]
    case ObjectVector(item) => [Hop(a.name + "/[i]", item)]
  }

  ghost function AttributeHops(attributes: seq<Attribute>): seq<Hop> {
    if attributes == [] then []
    else AttributeHops(attributes[..|attributes| - 1]) + AttributeHop(attributes[|attributes| - 1])
  }

  ghost function ChildHops(reg: Registry, t: TypeId, registered: seq<TypeId>): seq<Hop>
    requires forall r :: r in registered ==> r in reg.names
  {
    if registered == [] then []
    else
      var child := registered[|registered| - 1];
      ChildHops(reg, t, registered[..|registered| - 1])
      + (if reg.IsChildOf(child, t) then [Hop(TypeLabel(reg, child), child)] else [])
  }

  /** The other end of an aggregation; a type aggregated with itself leads to itself. */
  ghost function AggregateHop(reg: Registry, t: TypeId, p: (TypeId, TypeId)): seq<Hop>
    requires p.0 in reg.names && p.1 in reg.names
  {
    if p.1 == t then [Hop(TypeLabel(reg, p.0), p.0)]
    else if p.0 == t then [Hop(TypeLabel(reg, p.1), p.1)]
    else []
  }

  ghost function AggregateHops(reg: Registry, t: TypeId, aggregates: Aggregates): seq<Hop>
    requires forall p :: p in aggregates ==> p.0 in reg.names && p.1 in reg.names
  {
    if aggregates == [] then []
    else AggregateHops(reg, t, aggregates[..|aggregates| - 1]) + AggregateHop(reg, t, aggregates[|aggregates| - 1])
  }

  /** Everything one step away from t, in the order it is visited. */
  ghost function Hops(reg: Registry, aggregates: Aggregates, t: TypeId): seq<Hop>
    requires reg.Valid() && AggregatesRegistered(reg, aggregates) && t in reg.Types()
  {
    AttributeHops(reg.attributes[t]) + ChildHops(reg, t, reg.registered) + AggregateHops(reg, t, aggregates)
  }

  /** What GetCurrentPath prints. */
  function Render(path: seq<string>): string {
    if path == [] then "" else Render(path[..|path| - 1]) + "/" + path[|path| - 1]
  }

  // ----- the meaning: simple walks

  /** The types a walk from root goes through, root first. */
  ghost function Visited(root: TypeId, walk: seq<Hop>): seq<TypeId> {
    [root] + seq(|walk|, i requires 0 <= i < |walk| => walk[i].target)
  }

  ghost function Labels(walk: seq<Hop>): seq<string> {
    seq(|walk|, i requires 0 <= i < |walk| => walk[i].name)
  }

  /** Each step is a hop of the type it leaves, and no type is met twice. */
  ghost predicate IsSimpleWalk(reg: Registry, aggregates: Aggregates, root: TypeId, walk: seq<Hop>)
    requires reg.Valid() && AggregatesRegistered(reg, aggregates)
  {
    NoDuplicates(Visited(root, walk)) && FollowsHops(reg, aggregates, Visited(root, walk), walk)
  }

  ghost predicate FollowsHops(reg: Registry, aggregates: Aggregates, visited: seq<TypeId>, walk: seq<Hop>)
    requires reg.Valid() && AggregatesRegistered(reg, aggregates) && |visited| == |walk| + 1
  {
    forall i :: 0 <= i < |walk| ==> visited[i] in reg.Types() && walk[i] in Hops(reg, aggregates, visited[i])
  }

  type Entry = (TypeId, string)

  /** The entry (type, path) is spelled by a simple walk from root. */
  ghost predicate Reachable(reg: Registry, aggregates: Aggregates, root: TypeId, entry: Entry)
    requires reg.Valid() && AggregatesRegistered(reg, aggregates)
  {
    exists walk :: IsSimpleWalk(reg, aggregates, root, walk) && entry == EntryOf(root, walk)
  }

  ghost function EntryOf(root: TypeId, walk: seq<Hop>): Entry {
    (Visited(root, walk)[|walk|], Render(Labels(walk)))
  }

  // ----- hops stay among the registered types

  /** The attribute leads there: a pointer under its name, a vector under its name and "/[i]". */
  ghost predicate LeadsTo(a: Attribute, h: Hop) {
    || (a.kind == Pointer(h.target) && h.name == a.name)
    || (a.kind == ObjectVector(h.target) && h.name == a.name + "/[i]")
  }

  lemma AttributeHopLeads(a: Attribute, h: Hop)
    ensures h in AttributeHop(a) <==> LeadsTo(a, h)
  {
  }

  lemma {:induction false} AttributeHopsMembers(attributes: seq<Attribute>, h: Hop)
    ensures h in AttributeHops(attributes) <==> exists a :: a in attributes && LeadsTo(a, h)
  {
    if attributes != [] {
      var last := |attributes| - 1;
      AttributeHopsMembers(attributes[..last], h);
      AttributeHopLeads(attributes[last], h);
      assert attributes == attributes[..last] + [attributes[last]];
    }
  }

  lemma {:induction false} ChildHopsMembers(reg: Registry, t: TypeId, registered: seq<TypeId>, h: Hop)
    requires forall r :: r in registered ==> r in reg.names
    ensures h in ChildHops(reg, t, registered) <==>
            h.target in registered && (h.target, t) in reg.childOf && h.name == Escape("$%" + reg.names[h.target])
  {
    if registered != [] {
      var last := |registered| - 1;
      ChildHopsMembers(reg, t, registered[..last], h);
      assert registered == registered[..last] + [registered[last]];
    }
  }

  lemma {:induction false} AggregateHopsMembers(reg: Registry, t: TypeId, aggregates: Aggregates, h: Hop)
    requires forall p :: p in aggregates ==> p.0 in reg.names && p.1 in reg.names
    ensures h in AggregateHops(reg, t, aggregates) <==>
            && ((h.target, t) in aggregates || (t, h.target) in aggregates)
            && h.name == Escape("$%" + reg.names[h.target])
  {
    if aggregates != [] {
      var last := |aggregates| - 1;
      AggregateHopsMembers(reg, t, aggregates[..last], h);
      assert aggregates == aggregates[..last] + [aggregates[last]];
    }
  }

  /** A path is printed with a slash before every element. */
  lemma {:induction false} RenderFirst(x: string, path: seq<string>)
    ensures Render([]) == "" && Render([x] + path) == "/" + x + Render(path)
  {
    if path == [] {
      assert ([x] + path)[..0] == [];
      assert Render([x]) == Render([]) + "/" + x;
    } else {
      var last := |path| - 1;
      RenderFirst(x, path[..last]);
      assert ([x] + path)[..|path|] == [x] + path[..last];
    }
  }

  // ----- one step from the root

  /** A descendant, or an aggregation partner on either side. */
  ghost predicate IsNeighbour(reg: Registry, aggregates: Aggregates, root: TypeId, t: TypeId) {
    (t, root) in reg.childOf || (t, root) in aggregates || (root, t) in aggregates
  }

  /** The root itself, and what its attributes, descendants and aggregates lead to. */
  ghost predicate OneStepRecorded(reg: Registry, aggregates: Aggregates, root: TypeId, output: seq<Entry>)
    requires reg.Valid() && AggregatesRegistered(reg, aggregates) && root in reg.Types()
  {
    && (root, "") in output
    && (forall a, t :: a in reg.attributes[root] && a.kind == Pointer(t) && t != root ==> (t, "/" + a.name) in output)
    && (forall a, t :: a in reg.attributes[root] && a.kind == ObjectVector(t) && t != root ==>
          (t, "/" + a.name + "/[i]") in output)
    && (forall t :: t in reg.Types() && t != root && IsNeighbour(reg, aggregates, root, t) ==>
          (t, "/" + Escape("$%" + reg.names[t])) in output)
  }

  lemma OneHop(reg: Registry, aggregates: Aggregates, root: TypeId, h: Hop)
    requires reg.Valid() && AggregatesRegistered(reg, aggregates) && root in reg.Types()
    requires h in Hops(reg, aggregates, root) && h.target != root
    ensures Reachable(reg, aggregates, root, (h.target, "/" + h.name))
  {
    hide Hops;
    var walk := [h];
    assert Visited(root, walk) == [root, h.target] && Labels(walk) == [h.name];
    assert IsSimpleWalk(reg, aggregates, root, walk);
    RenderFirst(h.name, []);
    assert [h.name] + [] == [h.name];
    assert "/" + h.name + "" == "/" + h.name;
    assert EntryOf(root, walk) == (h.target, "/" + h.name);
  }

  lemma NoHop(reg: Registry, aggregates: Aggregates, root: TypeId)
    requires reg.Valid() && AggregatesRegistered(reg, aggregates) && root in reg.Types()
    ensures Reachable(reg, aggregates, root, (root, ""))
  {
    assert Visited(root, []) == [root] && Labels([]) == [];
    assert IsSimpleWalk(reg, aggregates, root, []);
    assert EntryOf(root, []) == (root, "");
  }

  /** Whoever records all that can be reached records the root and what is one step away. */
  lemma ReachableHasOneStep(reg: Registry, aggregates: Aggregates, root: TypeId, output: seq<Entry>)
    requires reg.Valid() && AggregatesRegistered(reg, aggregates) && root in reg.Types()
    requires forall e :: Reachable(reg, aggregates, root, e) ==> e in output
    ensures OneStepRecorded(reg, aggregates, root, output)
  {
    hide Reachable, AttributeHops, ChildHops, AggregateHops;
    NoHop(reg, aggregates, root);
    forall a, t | a in reg.attributes[root] && a.kind == Pointer(t) && t != root ensures (t, "/" + a.name) in output {
      assert LeadsTo(a, Hop(a.name, t));
      AttributeHopsMembers(reg.attributes[root], Hop(a.name, t));
      OneHop(reg, aggregates, root, Hop(a.name, t));
    }
    forall a, t | a in reg.attributes[root] && a.kind == ObjectVector(t) && t != root
      ensures (t, "/" + a.name + "/[i]") in output
    {
      assert LeadsTo(a, Hop(a.name + "/[i]", t));
      AttributeHopsMembers(reg.attributes[root], Hop(a.name + "/[i]", t));
      OneHop(reg, aggregates, root, Hop(a.name + "/[i]", t));
      assert "/" + (a.name + "/[i]") == "/" + a.name + "/[i]";
    }
    forall t | t in reg.Types() && t != root && IsNeighbour(reg, aggregates, root, t)
      ensures (t, "/" + Escape("$%" + reg.names[t])) in output
    {
      var h := Hop(Escape("$%" + reg.names[t]), t);
      ChildHopsMembers(reg, root, reg.registered, h);
      AggregateHopsMembers(reg, root, aggregates, h);
      OneHop(reg, aggregates, root, h);
    }
  }

  lemma HopsAreRegistered(reg: Registry, aggregates: Aggregates, t: TypeId, h: Hop)
    requires reg.Valid() && AggregatesRegistered(reg, aggregates) && t in reg.Types()
    requires h in Hops(reg, aggregates, t)
    ensures h.target in reg.Types()
  {
    AttributeHopsMembers(reg.attributes[t], h);
    ChildHopsMembers(reg, t, reg.registered, h);
    AggregateHopsMembers(reg, t, aggregates, h);
  }
}
