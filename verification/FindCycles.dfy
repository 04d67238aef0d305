/** find_cycles of bindings/python/topsort.py: the stack of simple paths that enumerates all elementary cycles. */
module FindCycles {
  import opened DependencyGraph
  import opened Sequences
  import opened Rotation

  /** parent -> collection of children; a child need not be a key. */
  type Graph = map<Item, seq<Item>>

  ghost predicate Edge(g: Graph, a: Item, b: Item) {
    a in g && b in g[a]
  }

  ghost function Last(p: seq<Item>): Item
    requires p != []
  {
    p[|p| - 1]
  }

  ghost predicate SimplePath(g: Graph, p: seq<Item>) {
    && p != [] && NoDuplicates(p)
    && forall i :: 0 < i < |p| ==> Edge(g, p[i - 1], p[i])
  }

  ghost predicate PathFrom(g: Graph, root: Item, p: seq<Item>) {
    SimplePath(g, p) && p[0] == root
  }

  /** A cycle that repeats no item. */
  ghost predicate ElementaryCycle(g: Graph, c: seq<Item>) {
    SimplePath(g, c) && Edge(g, Last(c), c[0])
  }

  /** Some cycle of the list is c, read from some starting point. */
  ghost predicate Known(cycles: seq<seq<Item>>, c: seq<Item>) {
    exists i :: 0 <= i < |cycles| && IsRotation(cycles[i], c)
  }

  /** Every way of closing p into a cycle is known. */
  ghost predicate Closed(g: Graph, cycles: seq<seq<Item>>, p: seq<Item>)
    requires p != []
  {
    forall k :: 0 <= k < |p| && Edge(g, Last(p), p[k]) ==> Known(cycles, p[k..])
  }

  /** Some path on the stack starts p. */
  ghost predicate Pending(paths: seq<seq<Item>>, p: seq<Item>) {
    exists i :: 0 <= i < |paths| && paths[i] <= p
  }

  // ----- the contract

  ghost predicate SoundCycles(g: Graph, cycles: seq<seq<Item>>) {
    forall i :: 0 <= i < |cycles| ==> ElementaryCycle(g, cycles[i])
  }

  ghost predicate DistinctCycles(cycles: seq<seq<Item>>) {
    forall i, j :: 0 <= i < j < |cycles| ==> !IsRotation(cycles[i], cycles[j])
  }

  // ----- the stack

  /** The search from a root: every path from it still starts with a path on the stack, or has been closed. */
  ghost predicate Searching(g: Graph, root: Item, paths: seq<seq<Item>>, cycles: seq<seq<Item>>) {
    && (forall i :: 0 <= i < |paths| ==> PathFrom(g, root, paths[i]))
    && (forall p :: PathFrom(g, root, p) ==> Pending(paths, p) || Closed(g, cycles, p))
  }

  /** The same while the children of path are being handled; rest are those still to come. */
  ghost predicate Extending(g: Graph, root: Item, paths: seq<seq<Item>>, cycles: seq<seq<Item>>,
                            path: seq<Item>, rest: seq<Item>) {
    && (forall i :: 0 <= i < |paths| ==> PathFrom(g, root, paths[i]))
    && PathFrom(g, root, path)
    && (forall p :: PathFrom(g, root, p) && p != path ==>
          Pending(paths, p) || Closed(g, cycles, p) || (path < p && p[|path|] in rest))
    && (forall k :: 0 <= k < |path| && Edge(g, Last(path), path[k]) ==> path[k] in rest || Known(cycles, path[k..]))
  }

  lemma StartExtending(g: Graph, root: Item, paths: seq<seq<Item>>, cycles: seq<seq<Item>>)
    requires paths != [] && Searching(g, root, paths, cycles)
    ensures var path := paths[|paths| - 1];
            && PathFrom(g, root, path)
            && Extending(g, root, paths[..|paths| - 1], cycles, path, if Last(path) in g then g[Last(path)] else [])
  {
    hide Closed, NoDuplicates, Known, Pending, Edge;
    var path, below := paths[|paths| - 1], paths[..|paths| - 1];
    var kids := if Last(path) in g then g[Last(path)] else [];
    forall p | PathFrom(g, root, p) && p != path
      ensures Pending(below, p) || Closed(g, cycles, p) || (path < p && p[|path|] in kids)
    {
      PendingBelow(paths, p);
      if path < p {
        assert Edge(g, p[|path| - 1], p[|path|]);
        EdgeLeadsToKid(g, path, p[|path|]);
      }
    }
    forall k | 0 <= k < |path| && Edge(g, Last(path), path[k]) ensures path[k] in kids {
      EdgeLeadsToKid(g, path, path[k]);
    }
  }

  lemma PendingBelow(paths: seq<seq<Item>>, p: seq<Item>)
    requires paths != []
    ensures Pending(paths, p) ==> Pending(paths[..|paths| - 1], p) || paths[|paths| - 1] <= p
  {
    if i :| 0 <= i < |paths| && paths[i] <= p {
      assert i < |paths| - 1 ==> paths[..|paths| - 1][i] == paths[i];
    }
  }

  lemma EdgeLeadsToKid(g: Graph, path: seq<Item>, child: Item)
    requires path != [] && Edge(g, Last(path), child)
    ensures Last(path) in g && child in g[Last(path)]
  {
  }

  lemma DoneExtending(g: Graph, root: Item, paths: seq<seq<Item>>, cycles: seq<seq<Item>>, path: seq<Item>)
    requires Extending(g, root, paths, cycles, path, [])
    ensures Searching(g, root, paths, cycles)
  {
  }

  lemma KnownGrows(cycles: seq<seq<Item>>, cycle: seq<Item>, c: seq<Item>)
    requires Known(cycles, c)
    ensures Known(cycles + [cycle], c)
  {
    var i :| 0 <= i < |cycles| && IsRotation(cycles[i], c);
    assert (cycles + [cycle])[i] == cycles[i];
  }

  lemma NewIsKnown(cycles: seq<seq<Item>>, cycle: seq<Item>)
    ensures Known(cycles + [cycle], cycle)
  {
    RotationReflexive(cycle);
    assert (cycles + [cycle])[|cycles|] == cycle;
  }

  lemma ClosedGrows(g: Graph, cycles: seq<seq<Item>>, cycle: seq<Item>, p: seq<Item>)
    requires p != [] && Closed(g, cycles, p)
    ensures Closed(g, cycles + [cycle], p)
  {
    forall k | 0 <= k < |p| && Edge(g, Last(p), p[k]) ensures Known(cycles + [cycle], p[k..]) {
      KnownGrows(cycles, cycle, p[k..]);
    }
  }

  /** A child that is on the path closes a cycle there; nothing else starts with it. */
  lemma ChildOnPath(g: Graph, root: Item, paths: seq<seq<Item>>, cycles: seq<seq<Item>>, path: seq<Item>,
                    rest: seq<Item>, k: nat)
    requires rest != [] && Extending(g, root, paths, cycles, path, rest)
    requires k < |path| && path[k] == rest[0] && Known(cycles, path[k..])
    ensures Extending(g, root, paths, cycles, path, rest[1..])
  {
    hide Closed, Known, Pending, Edge;
    assert rest == [rest[0]] + rest[1..];
    forall p | PathFrom(g, root, p) && path < p ensures p[|path|] != rest[0] {
      assert p[k] == path[k];
    }
  }

  lemma CyclesGrow(g: Graph, root: Item, paths: seq<seq<Item>>, cycles: seq<seq<Item>>, cycle: seq<Item>,
                   path: seq<Item>, rest: seq<Item>)
    requires Extending(g, root, paths, cycles, path, rest)
    ensures Extending(g, root, paths, cycles + [cycle], path, rest)
  {
    hide Known, Pending, Edge, Closed;
    forall p | PathFrom(g, root, p) && Closed(g, cycles, p) ensures Closed(g, cycles + [cycle], p) {
      ClosedGrows(g, cycles, cycle, p);
    }
    forall k | 0 <= k < |path| && Known(cycles, path[k..]) ensures Known(cycles + [cycle], path[k..]) {
      KnownGrows(cycles, cycle, path[k..]);
    }
  }

  /** A child off the path is pushed, and covers every path that goes on with it. */
  lemma ChildPushed(g: Graph, root: Item, paths: seq<seq<Item>>, cycles: seq<seq<Item>>, path: seq<Item>, rest: seq<Item>)
    requires rest != [] && Extending(g, root, paths, cycles, path, rest)
    requires rest[0] !in path && Edge(g, Last(path), rest[0])
    ensures PathFrom(g, root, path + [rest[0]])
    ensures Extending(g, root, paths + [path + [rest[0]]], cycles, path, rest[1..])
  {
    hide Closed, Known;
    var child := rest[0];
    var longer := path + [child];
    var paths' := paths + [longer];
    assert rest == [child] + rest[1..];
    assert PathFrom(g, root, longer);
    forall p | PathFrom(g, root, p) && p != path
      ensures Pending(paths', p) || Closed(g, cycles, p) || (path < p && p[|path|] in rest[1..])
    {
      if Pending(paths, p) {
        var i :| 0 <= i < |paths| && paths[i] <= p;
        assert paths'[i] <= p;
      } else if path < p && p[|path|] == child {
        assert longer <= p;
        assert paths'[|paths|] <= p;
      }
    }
  }

  // ----- termination: the number of paths that will still be popped

  ghost function Universe(g: Graph): set<Item> {
    set a, b | a in g && b in g[a] :: b
  }

  ghost function Work(g: Graph, p: seq<Item>): nat
    requires p != []
    decreases Universe(g) - SetOf(p), 1, 0
  {
    1 + (if Last(p) in g then KidWork(g, p, g[Last(p)]) else 0)
  }

  ghost function KidWork(g: Graph, p: seq<Item>, kids: seq<Item>): nat
    requires p != [] && Last(p) in g && forall c :: c in kids ==> c in g[Last(p)]
    decreases Universe(g) - SetOf(p), 0, |kids|
  {
    if kids == [] then 0
    else
      var own := if kids[0] in p then 0
                 else
                   assert kids[0] in kids && kids[0] in g[Last(p)] && kids[0] in Universe(g);
                   assert SetOf(p + [kids[0]]) == SetOf(p) + {kids[0]};
                   Work(g, p + [kids[0]]);
      own + KidWork(g, p, kids[1..])
  }

  ghost predicate NonEmpty(paths: seq<seq<Item>>) {
    forall i :: 0 <= i < |paths| ==> paths[i] != []
  }

  ghost function StackWork(g: Graph, paths: seq<seq<Item>>): nat
    requires NonEmpty(paths)
  {
    if paths == [] then 0
    else StackWork(g, paths[..|paths| - 1]) + Work(g, paths[|paths| - 1])
  }

  // ----- the search from one root, and from all of them

  /** All paths from the root have been closed. */
  ghost predicate Exhausted(g: Graph, cycles: seq<seq<Item>>, root: Item) {
    forall p :: PathFrom(g, root, p) ==> Closed(g, cycles, p)
  }

  ghost predicate ReachedFrom(g: Graph, root: Item, v: Item) {
    exists p :: PathFrom(g, root, p) && Last(p) == v
  }

  ghost predicate ReachedFromSome(g: Graph, roots: set<Item>, v: Item) {
    exists r :: r in roots && ReachedFrom(g, r, v)
  }

  /** All keys so far are roots or were met on the way from one. */
  ghost predicate RootsDone(g: Graph, keys: seq<Item>, roots: set<Item>, visited: set<Item>, cycles: seq<seq<Item>>) {
    && (forall r :: r in roots ==> Exhausted(g, cycles, r))
    && (forall v :: v in visited ==> ReachedFromSome(g, roots, v))
    && (forall k :: k in keys ==> k in roots || k in visited)
  }

  method FindCycles(parentChildren: Graph) returns (cycles: seq<seq<Item>>)
    ensures SoundCycles(parentChildren, cycles)
    ensures DistinctCycles(cycles)
    ensures forall c :: ElementaryCycle(parentChildren, c) ==> Known(cycles, c)
  {
    cycles := [];
    var visitedNodes: set<Item> := {};
    var keys := Keys(parentChildren);
    ghost var roots: set<Item> := {};
    for n := 0 to |keys|
      invariant SoundCycles(parentChildren, cycles) && DistinctCycles(cycles)
      invariant RootsDone(parentChildren, keys[..n], roots, visitedNodes, cycles)
    {
      hide *;
      var parent := keys[n];
      if parent in visitedNodes {
        continue;
      }
      ghost var before, visitedBefore := cycles, visitedNodes;
      cycles, visitedNodes := SearchFrom(parentChildren, parent, cycles, visitedNodes);
      roots := roots + {parent};
    }
    assert keys[..|keys|] == keys;
    forall c | ElementaryCycle(parentChildren, c) ensures Known(cycles, c) {
      CycleIsKnown(parentChildren, keys, roots, visitedNodes, cycles, c);
    }
  }

  /** path.index(child) */
  function IndexOf(s: seq<Item>, x: Item): (k: nat)
    requires x in s
    ensures k < |s| && s[k] == x && x !in s[..k]
  {
    if s[0] == x then 0 else 1 + IndexOf(s[1..], x)
  }

  /** The iterations for one root. */
  method SearchFrom(parentChildren: Graph, root: Item, found: seq<seq<Item>>, visited: set<Item>)
    returns (cycles: seq<seq<Item>>, visitedNodes: set<Item>)
    requires SoundCycles(parentChildren, found) && DistinctCycles(found)
    ensures SoundCycles(parentChildren, cycles) && DistinctCycles(cycles)
    ensures found <= cycles && Exhausted(parentChildren, cycles, root)
    ensures visited <= visitedNodes
    ensures forall v :: v in visitedNodes - visited ==> ReachedFrom(parentChildren, root, v)
  {
    hide *;
    cycles, visitedNodes := found, visited;
    var paths := [[root]];
    SearchBegins(parentChildren, root, cycles);
    while paths != []
      invariant Searching(parentChildren, root, paths, cycles) && NonEmpty(paths)
      invariant SoundCycles(parentChildren, cycles) && DistinctCycles(cycles) && found <= cycles
      invariant visited <= visitedNodes
      invariant forall v :: v in visitedNodes - visited ==> ReachedFrom(parentChildren, root, v)
      decreases StackWork(parentChildren, paths)
    {
      var path := paths[|paths| - 1];
      StartExtending(parentChildren, root, paths, cycles);
      PopWork(parentChildren, paths);
      paths := paths[..|paths| - 1];
      var parent := path[|path| - 1];
      if parent !in parentChildren {
        DoneExtending(parentChildren, root, paths, cycles, path);
        continue;
      }
      var children := parentChildren[parent];
      assert children[0..] == children;
      ghost var budget := StackWork(parentChildren, paths) + KidWork(parentChildren, path, children);
      for i := 0 to |children|
        invariant Extending(parentChildren, root, paths, cycles, path, children[i..]) && NonEmpty(paths)
        invariant StackWork(parentChildren, paths) + KidWork(parentChildren, path, children[i..]) == budget
        invariant SoundCycles(parentChildren, cycles) && DistinctCycles(cycles) && found <= cycles
        invariant visited <= visitedNodes
        invariant forall v :: v in visitedNodes - visited ==> ReachedFrom(parentChildren, root, v)
      {
        var child := children[i];
        assert children[i..][0] == child && children[i..][1..] == children[i + 1..];
        NextKid(parentChildren, path, children[i..]);
        if child in path {
          var at := IndexOf(path, child);
          var cycle := path[at..];
          ClosesCycle(parentChildren, root, paths, cycles, path, children[i..], at);
          ghost var before := cycles;
          cycles := AddIfNew(parentChildren, cycles, cycle);
          if cycles != before {
            CyclesGrow(parentChildren, root, paths, before, cycle, path, children[i..]);
          }
          ChildOnPath(parentChildren, root, paths, cycles, path, children[i..], at);
        } else {
          ChildPushed(parentChildren, root, paths, cycles, path, children[i..]);
          PushWork(parentChildren, paths, path + [child]);
          paths := paths + [path + [child]];
          visitedNodes := visitedNodes + {child};
          ChildReached(parentChildren, root, path, child);
        }
      }
      assert children[|children|..] == [];
      DoneExtending(parentChildren, root, paths, cycles, path);
    }
    SearchEnds(parentChildren, root, cycles);
  }

  /** The duplicate check. */
  method AddIfNew(ghost g: Graph, cycles: seq<seq<Item>>, cycle: seq<Item>) returns (cycles': seq<seq<Item>>)
    requires SoundCycles(g, cycles) && DistinctCycles(cycles) && ElementaryCycle(g, cycle)
    ensures SoundCycles(g, cycles') && DistinctCycles(cycles') && Known(cycles', cycle)
    ensures cycles' == cycles || cycles' == cycles + [cycle]
  {
    hide IsRotation;
    var isDup := false;
    for i := 0 to |cycles|
      invariant forall j :: 0 <= j < i ==> !IsRotation(cycles[j], cycle)
    {
      isDup := IsRotated(cycles[i], cycle);
      if isDup {
        return cycles;
      }
    }
    NewIsKnown(cycles, cycle);
    cycles' := cycles + [cycle];
  }

  lemma SearchBegins(g: Graph, root: Item, cycles: seq<seq<Item>>)
    ensures Searching(g, root, [[root]], cycles) && NonEmpty([[root]])
  {
    forall p | PathFrom(g, root, p) ensures Pending([[root]], p) {
      assert [[root]][0] <= p;
    }
  }

  lemma SearchEnds(g: Graph, root: Item, cycles: seq<seq<Item>>)
    requires Searching(g, root, [], cycles)
    ensures Exhausted(g, cycles, root)
  {
  }

  lemma PopWork(g: Graph, paths: seq<seq<Item>>)
    requires paths != [] && NonEmpty(paths)
    ensures var path, below := paths[|paths| - 1], paths[..|paths| - 1];
            && path != [] && NonEmpty(below)
            && StackWork(g, paths) == StackWork(g, below) + 1 + (if Last(path) in g then KidWork(g, path, g[Last(path)]) else 0)
            && Last(path) == path[|path| - 1]
  {
  }

  lemma PushWork(g: Graph, paths: seq<seq<Item>>, path: seq<Item>)
    requires NonEmpty(paths) && path != []
    ensures NonEmpty(paths + [path]) && StackWork(g, paths + [path]) == StackWork(g, paths) + Work(g, path)
  {
    assert (paths + [path])[..|paths|] == paths;
  }

  lemma NextKid(g: Graph, path: seq<Item>, kids: seq<Item>)
    requires path != [] && Last(path) in g && kids != [] && forall c :: c in kids ==> c in g[Last(path)]
    ensures Edge(g, Last(path), kids[0])
    ensures KidWork(g, path, kids) ==
            (if kids[0] in path then 0 else Work(g, path + [kids[0]])) + KidWork(g, path, kids[1..])
  {
  }

  lemma ClosesCycle(g: Graph, root: Item, paths: seq<seq<Item>>, cycles: seq<seq<Item>>, path: seq<Item>,
                    rest: seq<Item>, at: nat)
    requires Extending(g, root, paths, cycles, path, rest)
    requires at < |path| && Edge(g, Last(path), path[at])
    ensures ElementaryCycle(g, path[at..])
  {
    hide Known, Pending, Closed;
  }

  lemma ChildReached(g: Graph, root: Item, path: seq<Item>, child: Item)
    requires PathFrom(g, root, path + [child])
    ensures ReachedFrom(g, root, child)
  {
    assert Last(path + [child]) == child;
  }

  // ----- completeness

  /** A cycle that can be reached from an exhausted root is known: walk to the first item of the cycle, then round. */
  lemma ReachedCycleIsKnown(g: Graph, cycles: seq<seq<Item>>, root: Item, c: seq<Item>, walk: seq<Item>)
    requires ElementaryCycle(g, c) && Exhausted(g, cycles, root)
    requires PathFrom(g, root, walk) && Last(walk) in c
    ensures Known(cycles, c)
  {
    hide NoDuplicates, IsRotation, Closed, Edge;
    var m := 0;
    while walk[m] !in c
      invariant m < |walk|
      invariant forall i :: 0 <= i < m ==> walk[i] !in c
      decreases |walk| - m
    {
      m := m + 1;
    }
    var j :| 0 <= j < |c| && c[j] == walk[m];
    var round := c[j..] + c[..j];
    var full := walk[..m] + round;
    RoundTheCycle(g, c, j);
    JoinPaths(g, walk, m, round);
    assert full[m..] == round && Last(full) == Last(round);
    ClosedMeansKnown(g, cycles, full, m);
    var i :| 0 <= i < |cycles| && IsRotation(cycles[i], round);
    TurnedCycle(c, j);
    RotationSymmetric(c, round);
    RotationTransitive(cycles[i], round, c);
  }

  lemma TurnedCycle(c: seq<Item>, j: nat)
    requires j <= |c|
    ensures IsRotation(c, c[j..] + c[..j])
  {
    assert IsRotationBy(c, c[j..] + c[..j], j);
  }

  lemma ClosedMeansKnown(g: Graph, cycles: seq<seq<Item>>, p: seq<Item>, k: nat)
    requires k < |p| && Closed(g, cycles, p) && Edge(g, Last(p), p[k])
    ensures exists i :: 0 <= i < |cycles| && IsRotation(cycles[i], p[k..])
  {
    assert Known(cycles, p[k..]);
  }

  lemma RoundTheCycle(g: Graph, c: seq<Item>, j: nat)
    requires ElementaryCycle(g, c) && j < |c|
    ensures ElementaryCycle(g, c[j..] + c[..j])
  {
    var round := c[j..] + c[..j];
    var n := |c|;
    forall i | 0 < i < n ensures Edge(g, round[i - 1], round[i]) {
      if i < n - j {
        assert round[i - 1] == c[j + i - 1] && round[i] == c[j + i];
      } else if i == n - j {
        assert round[i - 1] == Last(c) && round[i] == c[0];
      } else {
        assert round[i - 1] == c[i - 1 - (n - j)] && round[i] == c[i - (n - j)];
      }
    }
  }

  lemma JoinPaths(g: Graph, walk: seq<Item>, m: nat, round: seq<Item>)
    requires SimplePath(g, walk) && m < |walk| && SimplePath(g, round) && round[0] == walk[m]
    requires forall i :: 0 <= i < m ==> walk[i] !in round
    ensures PathFrom(g, walk[0], walk[..m] + round)
  {
    var full := walk[..m] + round;
    forall i | 0 < i < |full| ensures Edge(g, full[i - 1], full[i]) {
      if i <= m {
        assert full[i - 1] == walk[i - 1] && full[i] == walk[i];
      } else {
        assert full[i - 1] == round[i - 1 - m] && full[i] == round[i - m];
      }
    }
  }

  lemma CycleIsKnown(g: Graph, keys: seq<Item>, roots: set<Item>, visited: set<Item>, cycles: seq<seq<Item>>, c: seq<Item>)
    requires RootsDone(g, keys, roots, visited, cycles) && forall k :: k in keys <==> k in g
    requires ElementaryCycle(g, c)
    ensures Known(cycles, c)
  {
    hide Exhausted, Known;
    var start := c[0];
    if |c| > 1 {
      assert Edge(g, c[0], c[1]);
    }
    assert start in keys;
    if start in roots {
      ReachedCycleIsKnown(g, cycles, start, c, [start]);
    } else {
      assert ReachedFromSome(g, roots, start);
      var r :| r in roots && ReachedFrom(g, r, start);
      var walk :| PathFrom(g, r, walk) && Last(walk) == start;
      ReachedCycleIsKnown(g, cycles, r, c, walk);
    }
  }
}
