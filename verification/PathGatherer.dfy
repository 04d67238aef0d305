/** Class StaticInformation of utils/print-introspected-doxygen.cc: the depth-first search that collects, for every
    type, the configuration paths that lead to it. */
module PathGatherer {
  import opened Escaping
  import opened Sequences
  import opened TypeGraph
  import opened EntryOrder

  ghost function SetOfTypes(s: seq<TypeId>): set<TypeId> {
    set t | t in s
  }

  ghost predicate HopsRegistered(reg: Registry, hops: seq<Hop>) {
    forall h :: h in hops ==> h.target in reg.Types()
  }

  lemma HopsOfRegistered(reg: Registry, aggregates: Aggregates, t: TypeId)
    requires reg.Valid() && AggregatesRegistered(reg, aggregates) && t in reg.Types()
    ensures HopsRegistered(reg, Hops(reg, aggregates, t))
  {
    forall h | h in Hops(reg, aggregates, t) ensures h.target in reg.Types() {
      HopsAreRegistered(reg, aggregates, t, h);
    }
  }

  lemma OneMoreSeen(reg: Registry, seen: seq<TypeId>, tid: TypeId)
    requires tid in reg.Types() && tid !in seen
    ensures reg.Types() - SetOfTypes(seen + [tid]) < reg.Types() - SetOfTypes(seen)
  {
    assert SetOfTypes(seen + [tid]) == SetOfTypes(seen) + {tid};
  }

  /** What one call of DoGather appends, given the path and the ancestors it is called with. */
  ghost function Gathered(reg: Registry, aggregates: Aggregates, tid: TypeId, path: seq<string>, seen: seq<TypeId>): seq<Entry>
    requires reg.Valid() && AggregatesRegistered(reg, aggregates) && tid in reg.Types()
    decreases reg.Types() - SetOfTypes(seen), 1, 0
  {
    if tid in seen then []
    else
      HopsOfRegistered(reg, aggregates, tid);
      [(tid, Render(path))] + GatheredHops(reg, aggregates, tid, Hops(reg, aggregates, tid), path, seen)
  }

  ghost function GatheredHops(reg: Registry, aggregates: Aggregates, tid: TypeId, hops: seq<Hop>,
                              path: seq<string>, seen: seq<TypeId>): seq<Entry>
    requires reg.Valid() && AggregatesRegistered(reg, aggregates)
    requires tid in reg.Types() && tid !in seen && HopsRegistered(reg, hops)
    decreases reg.Types() - SetOfTypes(seen), 0, |hops|
  {
    if hops == [] then []
    else
      var last := hops[|hops| - 1];
      OneMoreSeen(reg, seen, tid);
      GatheredHops(reg, aggregates, tid, hops[..|hops| - 1], path, seen)
      + Gathered(reg, aggregates, last.target, path + [last.name], seen + [tid])
  }

  // ----- the entries gathered are those of the simple walks

  lemma {:induction false} GatheredHopsMembers(reg: Registry, aggregates: Aggregates, tid: TypeId, hops: seq<Hop>,
                                               path: seq<string>, seen: seq<TypeId>, e: Entry)
    requires reg.Valid() && AggregatesRegistered(reg, aggregates)
    requires tid in reg.Types() && tid !in seen && HopsRegistered(reg, hops)
    ensures e in GatheredHops(reg, aggregates, tid, hops, path, seen) <==>
            exists h :: h in hops && e in Gathered(reg, aggregates, h.target, path + [h.name], seen + [tid])
  {
    if hops != [] {
      var last := |hops| - 1;
      assert hops == hops[..last] + [hops[last]];
      GatheredHopsMembers(reg, aggregates, tid, hops[..last], path, seen, e);
    }
  }

  /** A walk that stays clear of some types. */
  ghost predicate Avoids(root: TypeId, walk: seq<Hop>, seen: seq<TypeId>) {
    forall v :: v in Visited(root, walk) ==> v !in seen
  }

  lemma VisitedAfterHop(root: TypeId, walk: seq<Hop>)
    requires walk != []
    ensures Visited(root, walk) == [root] + Visited(walk[0].target, walk[1..])
    ensures |Visited(walk[0].target, walk[1..])| == |walk|
    ensures Labels(walk) == [walk[0].name] + Labels(walk[1..])
  {
  }

  lemma WalkAfterHop(reg: Registry, aggregates: Aggregates, root: TypeId, walk: seq<Hop>)
    requires reg.Valid() && AggregatesRegistered(reg, aggregates) && walk != []
    ensures IsSimpleWalk(reg, aggregates, root, walk) <==>
            && root in reg.Types() && walk[0] in Hops(reg, aggregates, root)
            && IsSimpleWalk(reg, aggregates, walk[0].target, walk[1..])
            && root !in Visited(walk[0].target, walk[1..])
  {
    hide Hops, NoDuplicates, FollowsHops, Visited;
    VisitedAfterHop(root, walk);
    NoDuplicatesCons(root, Visited(walk[0].target, walk[1..]));
    FollowsAfterHop(reg, aggregates, root, Visited(walk[0].target, walk[1..]), walk);
  }

  lemma FollowsAfterHop(reg: Registry, aggregates: Aggregates, root: TypeId, tail: seq<TypeId>, walk: seq<Hop>)
    requires reg.Valid() && AggregatesRegistered(reg, aggregates) && walk != [] && |tail| == |walk|
    ensures FollowsHops(reg, aggregates, [root] + tail, walk) <==>
            && root in reg.Types() && walk[0] in Hops(reg, aggregates, root)
            && FollowsHops(reg, aggregates, tail, walk[1..])
  {
    hide Hops;
    var visited := [root] + tail;
    if FollowsHops(reg, aggregates, visited, walk) {
      assert visited[0] == root;
      forall i | 0 <= i < |walk| - 1
        ensures tail[i] in reg.Types() && walk[1..][i] in Hops(reg, aggregates, tail[i])
      {
        assert visited[i + 1] == tail[i] && walk[i + 1] == walk[1..][i];
      }
    }
  }

  lemma EmptyWalk(reg: Registry, aggregates: Aggregates, root: TypeId, seen: seq<TypeId>)
    requires reg.Valid() && AggregatesRegistered(reg, aggregates) && root !in seen
    ensures IsSimpleWalk(reg, aggregates, root, []) && Avoids(root, [], seen)
  {
  }

  lemma AvoidsMore(root: TypeId, h: Hop, rest: seq<Hop>, seen: seq<TypeId>)
    requires Avoids(h.target, rest, seen + [root]) && root !in seen
    ensures Avoids(root, [h] + rest, seen) && root !in Visited(h.target, rest)
  {
    assert ([h] + rest)[1..] == rest;
    VisitedAfterHop(root, [h] + rest);
    assert root in seen + [root];
  }

  lemma {:induction false} GatheredHasWalk(reg: Registry, aggregates: Aggregates, tid: TypeId, path: seq<string>,
                                           seen: seq<TypeId>, e: Entry) returns (walk: seq<Hop>)
    requires reg.Valid() && AggregatesRegistered(reg, aggregates) && tid in reg.Types()
    requires e in Gathered(reg, aggregates, tid, path, seen)
    ensures IsSimpleWalk(reg, aggregates, tid, walk) && Avoids(tid, walk, seen)
    ensures e == (Visited(tid, walk)[|walk|], Render(path + Labels(walk)))
    decreases reg.Types() - SetOfTypes(seen)
  {
    hide Hops, IsSimpleWalk, Render, NoDuplicates;
    if e == (tid, Render(path)) {
      walk := [];
      EmptyWalk(reg, aggregates, tid, seen);
      assert path + Labels([]) == path;
    } else {
      HopsOfRegistered(reg, aggregates, tid);
      GatheredHopsMembers(reg, aggregates, tid, Hops(reg, aggregates, tid), path, seen, e);
      var h :| h in Hops(reg, aggregates, tid) && e in Gathered(reg, aggregates, h.target, path + [h.name], seen + [tid]);
      OneMoreSeen(reg, seen, tid);
      var rest := GatheredHasWalk(reg, aggregates, h.target, path + [h.name], seen + [tid], e);
      walk := [h] + rest;
      assert walk[1..] == rest;
      VisitedAfterHop(tid, walk);
      AvoidsMore(tid, h, rest, seen);
      WalkAfterHop(reg, aggregates, tid, walk);
      assert path + Labels(walk) == path + [h.name] + Labels(rest);
    }
  }

  lemma {:induction false} WalkIsGathered(reg: Registry, aggregates: Aggregates, tid: TypeId, path: seq<string>,
                                          seen: seq<TypeId>, walk: seq<Hop>)
    requires reg.Valid() && AggregatesRegistered(reg, aggregates) && tid in reg.Types()
    requires IsSimpleWalk(reg, aggregates, tid, walk) && Avoids(tid, walk, seen)
    ensures (Visited(tid, walk)[|walk|], Render(path + Labels(walk))) in Gathered(reg, aggregates, tid, path, seen)
    decreases |walk|
  {
    hide Hops, Render, IsSimpleWalk;
    assert Visited(tid, walk)[0] == tid && tid !in seen;
    HopsOfRegistered(reg, aggregates, tid);
    if walk == [] {
      assert path + Labels(walk) == path;
    } else {
      var h, rest := walk[0], walk[1..];
      WalkAfterHop(reg, aggregates, tid, walk);
      VisitedAfterHop(tid, walk);
      assert h.target in reg.Types();
      assert path + Labels(walk) == path + [h.name] + Labels(rest);
      var e := (Visited(tid, walk)[|walk|], Render(path + Labels(walk)));
      WalkIsGathered(reg, aggregates, h.target, path + [h.name], seen + [tid], rest);
      GatheredHopsMembers(reg, aggregates, tid, Hops(reg, aggregates, tid), path, seen, e);
    }
  }

  /** A call from the outside gathers exactly the entries spelled by simple walks. */
  lemma GatheredIsReachable(reg: Registry, aggregates: Aggregates, root: TypeId, e: Entry)
    requires reg.Valid() && AggregatesRegistered(reg, aggregates) && root in reg.Types()
    ensures e in Gathered(reg, aggregates, root, [], []) <==> Reachable(reg, aggregates, root, e)
  {
    hide IsSimpleWalk, Gathered;
    if e in Gathered(reg, aggregates, root, [], []) {
      var walk := GatheredHasWalk(reg, aggregates, root, [], [], e);
      assert [] + Labels(walk) == Labels(walk);
    }
    if Reachable(reg, aggregates, root, e) {
      var walk :| IsSimpleWalk(reg, aggregates, root, walk) && e == EntryOf(root, walk);
      assert [] + Labels(walk) == Labels(walk);
      WalkIsGathered(reg, aggregates, root, [], [], walk);
    }
  }

  // ----- the class

  lemma {:induction false} HopsAppended(reg: Registry, aggregates: Aggregates, tid: TypeId, hops: seq<Hop>, h: Hop,
                                        path: seq<string>, seen: seq<TypeId>)
    requires reg.Valid() && AggregatesRegistered(reg, aggregates)
    requires tid in reg.Types() && tid !in seen && HopsRegistered(reg, hops) && h.target in reg.Types()
    ensures HopsRegistered(reg, hops + [h])
    ensures GatheredHops(reg, aggregates, tid, hops + [h], path, seen)
         == GatheredHops(reg, aggregates, tid, hops, path, seen)
            + Gathered(reg, aggregates, h.target, path + [h.name], seen + [tid])
  {
    assert (hops + [h])[..|hops|] == hops;
  }

  lemma SeenGathersNothing(reg: Registry, aggregates: Aggregates, tid: TypeId, path: seq<string>, seen: seq<TypeId>)
    requires reg.Valid() && AggregatesRegistered(reg, aggregates) && tid in reg.Types() && tid in seen
    ensures Gathered(reg, aggregates, tid, path, seen) == []
  {
  }

  lemma HopsBegin(reg: Registry, aggregates: Aggregates, tid: TypeId, path: seq<string>, seen: seq<TypeId>)
    requires reg.Valid() && AggregatesRegistered(reg, aggregates) && tid in reg.Types() && tid !in seen
    ensures AttributeHops(reg.attributes[tid][..0]) == []
    ensures GatheredHops(reg, aggregates, tid, [], path, seen) == []
  {
  }

  lemma NextAttribute(reg: Registry, tid: TypeId, i: nat)
    requires reg.Valid() && tid in reg.Types() && i < |reg.attributes[tid]|
    ensures var a := reg.attributes[tid][i];
            && AttributeHops(reg.attributes[tid][..i + 1]) == AttributeHops(reg.attributes[tid][..i]) + AttributeHop(a)
            && HopsRegistered(reg, AttributeHop(a))
  {
    assert reg.attributes[tid][..i + 1][..i] == reg.attributes[tid][..i];
    assert reg.attributes[tid][i] in reg.attributes[tid];
  }

  lemma NextChild(reg: Registry, tid: TypeId, before: seq<Hop>, j: nat)
    requires reg.Valid() && j < |reg.registered|
    ensures var child := reg.registered[j];
            && child in reg.Types()
            && before + ChildHops(reg, tid, reg.registered[..j + 1])
               == before + ChildHops(reg, tid, reg.registered[..j])
                  + (if reg.IsChildOf(child, tid) then [Hop(TypeLabel(reg, child), child)] else [])
  {
    assert reg.registered[..j + 1][..j] == reg.registered[..j];
  }

  lemma NextAggregate(reg: Registry, tid: TypeId, before: seq<Hop>, aggregates: Aggregates, k: nat)
    requires reg.Valid() && AggregatesRegistered(reg, aggregates) && k < |aggregates|
    ensures aggregates[k].0 in reg.Types() && aggregates[k].1 in reg.Types()
    ensures before + AggregateHops(reg, tid, aggregates[..k + 1])
         == before + AggregateHops(reg, tid, aggregates[..k]) + AggregateHop(reg, tid, aggregates[k])
  {
    assert aggregates[..k + 1][..k] == aggregates[..k];
    assert aggregates[k] in aggregates;
  }

  lemma LoopsBegin(reg: Registry, tid: TypeId, hops: seq<Hop>)
    requires reg.Valid()
    ensures hops + ChildHops(reg, tid, reg.registered[..0]) == hops
    ensures hops + AggregateHops(reg, tid, []) == hops
  {
  }

  lemma LoopsEnd(reg: Registry, aggregates: Aggregates, tid: TypeId, path: seq<string>, seen: seq<TypeId>, hops: seq<Hop>)
    requires reg.Valid() && AggregatesRegistered(reg, aggregates) && tid in reg.Types() && tid !in seen
    requires hops == AttributeHops(reg.attributes[tid]) + ChildHops(reg, tid, reg.registered) + AggregateHops(reg, tid, aggregates)
    ensures HopsRegistered(reg, hops)
    ensures Gathered(reg, aggregates, tid, path, seen)
         == [(tid, Render(path))] + GatheredHops(reg, aggregates, tid, hops, path, seen)
  {
    HopsOfRegistered(reg, aggregates, tid);
  }

  /** Every hop list of the three loops appends its entries to what was there at the start. */
  ghost predicate Appended(info: StaticInformation, start: seq<Entry>, tid: TypeId, hops: seq<Hop>,
                           path: seq<string>, seen: seq<TypeId>)
    reads info
    requires info.Valid() && tid in info.reg.Types() && tid !in seen && HopsRegistered(info.reg, hops)
  {
    && info.currentPath == path && info.alreadyProcessed == seen
    && info.output == start + GatheredHops(info.reg, info.aggregates, tid, hops, path, seen)
  }

  /** What GatherAll leaves in the output. */
  ghost predicate GatheredFrom(reg: Registry, aggregates: Aggregates, roots: seq<TypeId>, output: seq<Entry>)
    requires reg.Valid() && AggregatesRegistered(reg, aggregates)
  {
    && StrictlySorted(output)
    && forall e :: e in output <==> exists r :: r in roots && Reachable(reg, aggregates, r, e)
  }

  class StaticInformation {
    const reg: Registry
    var output: seq<Entry>
    var currentPath: seq<string>
    var alreadyProcessed: seq<TypeId>
    var aggregates: Aggregates

    ghost predicate Valid()
      reads this
    {
      reg.Valid() && AggregatesRegistered(reg, aggregates)
    }

    /** Not inside a Gather. */
    ghost predicate AtRest()
      reads this
    {
      Valid() && currentPath == [] && alreadyProcessed == []
    }

    constructor (reg: Registry)
      requires reg.Valid()
      ensures AtRest() && this.reg == reg && output == [] && aggregates == []
    {
      this.reg := reg;
      output, currentPath, alreadyProcessed, aggregates := [], [], [], [];
    }

    method RecordAggregationInfo(a: TypeId, b: TypeId)
      requires Valid() && a in reg.Types() && b in reg.Types()
      modifies this`aggregates
      ensures Valid() && aggregates == old(aggregates) + [(a, b)]
    {
      aggregates := aggregates + [(a, b)];
    }

    method GetCurrentPath() returns (s: string)
      ensures s == Render(currentPath)
    {
      s := "";
      for i := 0 to |currentPath|
        invariant s == Render(currentPath[..i])
      {
        assert currentPath[..i + 1][..i] == currentPath[..i];
        s := s + "/" + currentPath[i];
      }
      assert currentPath[..|currentPath|] == currentPath;
    }

    method RecordOutput(tid: TypeId)
      modifies this`output
      ensures output == old(output) + [(tid, Render(currentPath))]
    {
      var path := GetCurrentPath();
      output := output + [(tid, path)];
    }

    method HasAlreadyBeenProcessed(tid: TypeId) returns (r: bool)
      ensures r <==> tid in alreadyProcessed
    {
      for i := 0 to |alreadyProcessed|
        invariant tid !in alreadyProcessed[..i]
      {
        if alreadyProcessed[i] == tid {
          return true;
        }
      }
      return false;
    }

    method DoGather(tid: TypeId)
      requires Valid() && tid in reg.Types()
      modifies this`output, this`currentPath, this`alreadyProcessed
      ensures output == old(output) + Gathered(reg, aggregates, tid, old(currentPath), old(alreadyProcessed))
      ensures currentPath == old(currentPath) && alreadyProcessed == old(alreadyProcessed)
      decreases reg.Types() - SetOfTypes(alreadyProcessed), 1
    {
      hide Gathered, GatheredHops, Render, Hops, AttributeHops, ChildHops, AggregateHops, TypeLabel;
      ghost var path, seen := currentPath, alreadyProcessed;
      var processed := HasAlreadyBeenProcessed(tid);
      if processed {
        SeenGathersNothing(reg, aggregates, tid, path, seen);
        return;
      }
      RecordOutput(tid);
      ghost var start, hops := output, [];
      HopsBegin(reg, aggregates, tid, path, seen);
      var attributes := reg.attributes[tid];
      for i := 0 to |attributes|
        invariant hops == AttributeHops(attributes[..i]) && HopsRegistered(reg, hops)
        invariant Appended(this, start, tid, hops, path, seen)
      {
        NextAttribute(reg, tid, i);
        match attributes[i].kind {
          case Plain =>
          case Pointer(pointee) =>
            hops := Descend(start, tid, attributes[i].name, pointee, hops);
          case ObjectVector(item) =>
            hops := Descend(start, tid, attributes[i].name + "/[i]", item, hops);
        }
      }
      ghost var attributeHops := hops;
      assert attributes[..|attributes|] == attributes;
      LoopsBegin(reg, tid, hops);
      for j := 0 to |reg.registered|
        invariant hops == attributeHops + ChildHops(reg, tid, reg.registered[..j]) && HopsRegistered(reg, hops)
        invariant Appended(this, start, tid, hops, path, seen)
      {
        var child := reg.registered[j];
        NextChild(reg, tid, attributeHops, j);
        if reg.IsChildOf(child, tid) {
          var childName := PathLabel(child);
          hops := Descend(start, tid, childName, child, hops);
        }
      }
      ghost var typeHops := hops;
      assert reg.registered[..|reg.registered|] == reg.registered;
      LoopsBegin(reg, tid, hops);
      assert aggregates[..0] == [];
      for k := 0 to |aggregates|
        invariant hops == typeHops + AggregateHops(reg, tid, aggregates[..k]) && HopsRegistered(reg, hops)
        invariant Appended(this, start, tid, hops, path, seen)
      {
        var tmp := aggregates[k];
        NextAggregate(reg, tid, typeHops, aggregates, k);
        if tmp.0 == tid || tmp.1 == tid {
          var other := tmp.1;
          if tmp.1 == tid {
            other := tmp.0;
          }
          var name := PathLabel(other);
          hops := Descend(start, tid, name, other, hops);
        }
      }
      assert aggregates[..|aggregates|] == aggregates;
      LoopsEnd(reg, aggregates, tid, path, seen, hops);
    }

    /** "$%" and the name, marked for doxygen. */
    method PathLabel(t: TypeId) returns (name: string)
      requires Valid() && t in reg.Types()
      ensures name == TypeLabel(reg, t)
    {
      name := MarkColons("$%" + reg.names[t]);
    }

    /** Push, gather, pop. */
    method Descend(ghost start: seq<Entry>, tid: TypeId, name: string, target: TypeId, ghost hops: seq<Hop>)
      returns (ghost hops': seq<Hop>)
      requires Valid() && tid in reg.Types() && target in reg.Types() && tid !in alreadyProcessed
      requires HopsRegistered(reg, hops) && Appended(this, start, tid, hops, currentPath, alreadyProcessed)
      modifies this`output, this`currentPath, this`alreadyProcessed
      ensures hops' == hops + [Hop(name, target)] && HopsRegistered(reg, hops')
      ensures Appended(this, start, tid, hops', old(currentPath), old(alreadyProcessed))
      decreases reg.Types() - SetOfTypes(alreadyProcessed), 0
    {
      hide Gathered, GatheredHops;
      hops' := hops + [Hop(name, target)];
      HopsAppended(reg, aggregates, tid, hops, Hop(name, target), currentPath, alreadyProcessed);
      OneMoreSeen(reg, alreadyProcessed, tid);
      currentPath := currentPath + [name];
      alreadyProcessed := alreadyProcessed + [tid];
      DoGather(target);
      alreadyProcessed := alreadyProcessed[..|alreadyProcessed| - 1];
      currentPath := currentPath[..|currentPath| - 1];
    }

    /** One call per root object: what it adds, as a set, is what simple walks from the root spell. */
    method Gather(tid: TypeId)
      requires AtRest() && tid in reg.Types()
      modifies this`output, this`currentPath, this`alreadyProcessed
      ensures AtRest() && StrictlySorted(output)
      ensures forall e :: e in output <==> e in old(output) || Reachable(reg, aggregates, tid, e)
      ensures OneStepRecorded(reg, aggregates, tid, output)
    {
      hide Gathered, Reachable, OneStepRecorded;
      DoGather(tid);
      forall e ensures e in Gathered(reg, aggregates, tid, [], []) <==> Reachable(reg, aggregates, tid, e) {
        GatheredIsReachable(reg, aggregates, tid, e);
      }
      ghost var gathered := output;
      output := Sort(output);
      forall e ensures e in output <==> e in gathered {
        assert e in multiset(output) <==> e in multiset(gathered);
      }
      output := Unique(output);
      ReachableHasOneStep(reg, aggregates, tid, output);
    }

    /** The loop of main over the root namespace objects. */
    method GatherAll(roots: seq<TypeId>)
      requires AtRest() && output == [] && forall r :: r in roots ==> r in reg.Types()
      modifies this`output, this`currentPath, this`alreadyProcessed
      ensures AtRest() && GatheredFrom(reg, aggregates, roots, output)
    {
      hide Reachable, Less;
      for i := 0 to |roots|
        invariant AtRest() && StrictlySorted(output)
        invariant forall e :: e in output <==> exists r :: r in roots[..i] && Reachable(reg, aggregates, r, e)
      {
        assert roots[..i + 1] == roots[..i] + [roots[i]];
        Gather(roots[i]);
      }
      assert roots[..|roots|] == roots;
    }

    /** The paths recorded for a type, in the order of the output. */
    method Get(tid: TypeId) returns (paths: seq<string>)
      requires StrictlySorted(output)
      ensures forall p :: p in paths <==> (tid, p) in output
      ensures forall i, j :: 0 <= i < j < |paths| ==> StringLess(paths[i], paths[j])
    {
      hide StringLess;
      paths := [];
      ghost var at: seq<nat> := [];
      for i := 0 to |output|
        invariant |at| == |paths| && forall k :: 0 <= k < |at| ==> at[k] < i && output[at[k]] == (tid, paths[k])
        invariant forall k, m :: 0 <= k < m < |at| ==> at[k] < at[m]
        invariant forall p :: p in paths <==> (tid, p) in output[..i]
      {
        var tmp := output[i];
        if tmp.0 == tid {
          paths, at := paths + [tmp.1], at + [i];
        }
      }
      assert output[..|output|] == output;
      forall i, j | 0 <= i < j < |paths| ensures StringLess(paths[i], paths[j]) {
        assert Less(output[at[i]], output[at[j]]);
      }
    }
  }

  /** The output does not depend on the order of the roots, nor on repeated ones. */
  lemma OrderOfRoots(reg: Registry, aggregates: Aggregates, roots: seq<TypeId>, others: seq<TypeId>,
                     output: seq<Entry>, output': seq<Entry>)
    requires reg.Valid() && AggregatesRegistered(reg, aggregates)
    requires GatheredFrom(reg, aggregates, roots, output) && GatheredFrom(reg, aggregates, others, output')
    requires forall r :: r in roots <==> r in others
    ensures output == output'
  {
    hide Reachable, StrictlySorted;
    SameMembersSameList(output, output');
  }
}
