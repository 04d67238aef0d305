/** topsort and topsort_levels of bindings/python/topsort.py. */
module Topsort {
  import opened DependencyGraph
  import opened QueueOrder
  import opened Sequences

  datatype SortOutcome =
    | Sorted(answer: seq<Item>)
    | CycleError(answer: seq<Item>, numParents: map<Item, nat>, children: map<Item, seq<Item>>)

  datatype LevelsOutcome =
    | AllLevels(levels: seq<seq<Item>>)
    | LevelsCycleError(levels: seq<seq<Item>>, numParents: map<Item, nat>, children: map<Item, seq<Item>>)

  /** children holds the child list of every item outside done that has one (and possibly empty lists). */
  ghost predicate HoldsChildren(pairs: seq<Pair>, done: set<Item>, children: map<Item, seq<Item>>) {
    && children.Keys !! done
    && (forall p :: p in children ==> children[p] == ChildList(pairs, p))
    && (forall p :: p !in children && p !in done ==> ChildList(pairs, p) == [])
  }

  /** Nothing finishes before its parents. */
  ghost predicate ParentsDone(pairs: seq<Pair>, done: set<Item>) {
    forall p, x :: (p, x) in pairs && x in done ==> p in done
  }

  /** The two dictionaries describe what is left of the graph once the items of done are finished. */
  ghost predicate Tracks(nodes: set<Item>, pairs: seq<Pair>, done: set<Item>,
                         numParents: map<Item, nat>, children: map<Item, seq<Item>>) {
    && Elements(pairs) <= nodes && done <= nodes
    && ParentsDone(pairs, done)
    && numParents == LiveCounts(nodes, pairs, done)
    && HoldsChildren(pairs, done, children)
  }

  /** The answer lists exactly the grounded nodes, once each, parents before children, and by depth. */
  ghost predicate IsDependencyOrder(nodes: set<Item>, pairs: seq<Pair>, answer: seq<Item>) {
    && NoDuplicates(answer)
    && (forall x :: x in answer <==> x in nodes && Grounded(pairs, x))
    && (forall j, p :: 0 <= j < |answer| && (p, answer[j]) in pairs ==> p in answer[..j])
    && (forall i, j :: 0 <= i < j < |answer| ==> Depth(pairs, answer[i]) <= Depth(pairs, answer[j]))
  }

  /** Level k lists exactly the nodes at depth k, once each; no level is empty and none is missing. */
  ghost predicate IsLevelling(nodes: set<Item>, pairs: seq<Pair>, levels: seq<seq<Item>>) {
    && (forall k :: 0 <= k < |levels| ==> NoDuplicates(levels[k]) && levels[k] != [])
    && (forall k, x :: 0 <= k < |levels| ==> (x in levels[k] <==> x in nodes && AtDepth(pairs, x, k)))
    && (forall x :: x in nodes && Grounded(pairs, x) ==> Depth(pairs, x) < |levels|)
  }

  /** What topsort may return or raise: the answer lists the grounded items in dependency order; it is complete
      exactly when there is no cycle; otherwise the error holds the counts and child lists of the rest, in which
      every item has a parent and some items form a cycle. */
  ghost predicate IsSortOutcome(pairs: seq<Pair>, r: SortOutcome) {
    && IsDependencyOrder(Elements(pairs), pairs, r.answer) && InQueueOrder(pairs, r.answer)
    && (r.Sorted? <==> !HasCycle(pairs))
    && (r.Sorted? ==> SetOf(r.answer) == Elements(pairs))
    && (r.CycleError? ==>
          && r.numParents == LiveCounts(Elements(pairs), pairs, SetOf(r.answer))
          && r.children == LiveChildren(pairs, SetOf(r.answer))
          && ParentClosed(pairs, r.numParents.Keys)
          && exists c :: IsCycle(pairs, c) && SetOf(c) <= r.numParents.Keys)
  }

  /** The same for topsort_levels_core, given the child lists it started with. */
  ghost predicate IsLevelsOutcome(nodes: set<Item>, pairs: seq<Pair>, lists: map<Item, seq<Item>>, r: LevelsOutcome) {
    && IsLevelling(nodes, pairs, r.levels)
    && (r.AllLevels? <==> !HasCycle(pairs))
    && (r.LevelsCycleError? ==>
          var done := Shallower(nodes, pairs, |r.levels|);
          && r.numParents == LiveCounts(nodes, pairs, done)
          && r.children == lists - done
          && ParentClosed(pairs, r.numParents.Keys)
          && exists c :: IsCycle(pairs, c) && SetOf(c) <= r.numParents.Keys)
  }

  /** The nodes with no chain of k dependencies above them, that is, those at depth less than k. */
  ghost function Shallower(nodes: set<Item>, pairs: seq<Pair>, k: nat): set<Item> {
    set x | x in nodes && !HasChain(pairs, x, k)
  }

  // ----- building the dictionaries

  method BuildMaps(pairs: seq<Pair>) returns (numParents: map<Item, nat>, children: map<Item, seq<Item>>)
    ensures Tracks(Elements(pairs), pairs, {}, numParents, children)
    ensures children == LiveChildren(pairs, {})
  {
    hide LiveIn, ChildList;
    numParents, children := map[], map[];
    for i := 0 to |pairs|
      invariant numParents == LiveCounts(Elements(pairs[..i]), pairs[..i], {})
      invariant children == LiveChildren(pairs[..i], {})
    {
      var (parent, child) := pairs[i];
      ghost var counts, lists := numParents, children;
      if parent !in numParents {
        numParents := numParents[parent := 0];
      }
      if child !in numParents {
        numParents := numParents[child := 0];
      }
      numParents := numParents[child := numParents[child] + 1];
      if parent !in children {
        children := children[parent := []];
      }
      children := children[parent := children[parent] + [child]];
      assert pairs[..i + 1] == pairs[..i] + [pairs[i]];
      assert numParents == LiveCounts(Elements(pairs[..i + 1]), pairs[..i + 1], {}) by {
        CountOnePair(pairs[..i], pairs[i], counts, numParents);
      }
      assert children == LiveChildren(pairs[..i + 1], {}) by {
        ListOnePair(pairs[..i], pairs[i], lists, children);
      }
    }
    assert pairs[..|pairs|] == pairs;
    forall p | p !in children ensures ChildList(pairs, p) == [] {
      UnseenHasNoEdges(pairs, p);
    }
  }

  lemma CountOnePair(before: seq<Pair>, pair: Pair, counts: map<Item, nat>, counts': map<Item, nat>)
    requires counts == LiveCounts(Elements(before), before, {})
    requires counts'.Keys == counts.Keys + {pair.0, pair.1}
    requires forall x :: x in counts' ==>
                           counts'[x] == (if x in counts then counts[x] else 0) + (if x == pair.1 then 1 else 0)
    ensures counts' == LiveCounts(Elements(before + [pair]), before + [pair], {})
  {
    SetsGrow(before, pair);
    var after := before + [pair];
    assert after[..|before|] == before && after[|before|] == pair;
    forall x | x in counts' ensures counts'[x] == LiveIn(after, {}, x) {
      UnseenHasNoEdges(before, x);
    }
  }

  lemma ListOnePair(before: seq<Pair>, pair: Pair, lists: map<Item, seq<Item>>, lists': map<Item, seq<Item>>)
    requires lists == LiveChildren(before, {})
    requires lists' == lists[pair.0 := (if pair.0 in lists then lists[pair.0] else []) + [pair.1]]
    ensures lists' == LiveChildren(before + [pair], {})
  {
    SetsGrow(before, pair);
    var after := before + [pair];
    assert after[..|before|] == before && after[|before|] == pair;
    forall x | x in lists' ensures lists'[x] == ChildList(after, x) {
      UnseenHasNoEdges(before, x);
    }
  }

  lemma SetsGrow(before: seq<Pair>, pair: Pair)
    ensures Elements(before + [pair]) == Elements(before) + {pair.0, pair.1}
    ensures Parents(before + [pair]) == Parents(before) + {pair.0}
  {
    var after := before + [pair];
    assert after[|before|] == pair;
    assert pair.0 in Parents(after) && pair.0 in Elements(after) && pair.1 in Elements(after);
    assert forall i :: 0 <= i < |before| ==> after[i] == before[i];
    forall x | x in Parents(before) ensures x in Parents(after) {
      var i :| 0 <= i < |before| && before[i].0 == x;
      assert after[i].0 == x;
    }
    forall x | x in Elements(before) ensures x in Elements(after) {
      var i :| 0 <= i < |before| && (before[i].0 == x || before[i].1 == x);
      assert after[i].0 == x || after[i].1 == x;
    }
  }

  lemma {:induction false} UnseenHasNoEdges(pairs: seq<Pair>, x: Item)
    ensures x !in Parents(pairs) ==> ChildList(pairs, x) == []
    ensures x !in Elements(pairs) ==> LiveIn(pairs, {}, x) == 0
  {
    if x !in Parents(pairs) && ChildList(pairs, x) != [] {
      ChildListMembers(pairs, x, ChildList(pairs, x)[0]);
    }
    LiveInZero(pairs, {}, x);
    if p :| (p, x) in pairs {
      assert x in Elements(pairs);
    }
  }

  /** The list comprehension that picks the items without a live parent. */
  method WithoutParents(numParents: map<Item, nat>) returns (free: seq<Item>)
    ensures NoDuplicates(free)
    ensures forall x :: x in free <==> x in numParents && numParents[x] == 0
  {
    var keys := Keys(numParents);
    free := [];
    for i := 0 to |keys|
      invariant NoDuplicates(free)
      invariant forall x :: x in free <==> x in keys[..i] && numParents[x] == 0
    {
      if numParents[keys[i]] == 0 {
        free := free + [keys[i]];
      }
    }
    assert keys[..|keys|] == keys;
  }

  // ----- one parent is finished

  /** While parent's children are being counted down; rest are those still to be counted. */
  ghost predicate MidRetire(nodes: set<Item>, pairs: seq<Pair>, done: set<Item>, rest: seq<Item>, numParents: map<Item, nat>) {
    && numParents.Keys == nodes - done
    && (forall c :: c in rest ==> c in numParents)
    && forall x :: x in numParents ==> numParents[x] == LiveIn(pairs, done, x) + multiset(rest)[x]
  }

  lemma StartRetire(nodes: set<Item>, pairs: seq<Pair>, done: set<Item>, parent: Item,
                    numParents: map<Item, nat>, children: map<Item, seq<Item>>)
    requires Tracks(nodes, pairs, done, numParents, children)
    requires parent in numParents && numParents[parent] == 0
    ensures MidRetire(nodes, pairs, done + {parent}, ChildList(pairs, parent), numParents - {parent})
  {
    hide LiveIn, ChildList;
    forall x | x in nodes - done
      ensures LiveIn(pairs, done, x) == LiveIn(pairs, done + {parent}, x) + multiset(ChildList(pairs, parent))[x]
    {
      LiveInRetire(pairs, done, parent, x);
    }
    forall c | c in ChildList(pairs, parent)
      ensures c in numParents - {parent}
    {
      ChildListMembers(pairs, parent, c);
      LiveInZero(pairs, done, c);
      LiveInZero(pairs, done, parent);
      assert c in Elements(pairs);
    }
  }

  lemma EndRetire(nodes: set<Item>, pairs: seq<Pair>, done: set<Item>, parent: Item,
                  numParents: map<Item, nat>, children: map<Item, seq<Item>>)
    requires Elements(pairs) <= nodes && done <= nodes && parent in nodes
    requires ParentsDone(pairs, done)
    requires LiveIn(pairs, done, parent) == 0
    requires MidRetire(nodes, pairs, done + {parent}, [], numParents)
    requires HoldsChildren(pairs, done, children)
    ensures Tracks(nodes, pairs, done + {parent}, numParents, children - {parent})
  {
    var done' := done + {parent};
    forall p, x | (p, x) in pairs && x in done' ensures p in done' {
      LiveInZero(pairs, done, parent);
    }
    forall x | x in numParents ensures numParents[x] == LiveIn(pairs, done', x) {
      assert multiset([])[x] == 0;
    }
    assert HoldsChildren(pairs, done', children - {parent}) by {
      assert (children - {parent}).Keys == children.Keys - {parent};
    }
  }

  // ----- topsort

  ghost predicate ParentsEarlier(pairs: seq<Pair>, answer: seq<Item>) {
    forall j, p :: 0 <= j < |answer| && (p, answer[j]) in pairs ==> p in answer[..j]
  }

  /** The growing answer, with the depth of each item; position i is the one being worked on. */
  ghost predicate Growing(nodes: set<Item>, pairs: seq<Pair>, answer: seq<Item>, depths: seq<nat>, i: nat) {
    && NoDuplicates(answer) && SetOf(answer) <= nodes
    && ParentsEarlier(pairs, answer)
    && |depths| == |answer|
    && (forall j :: 0 <= j < |answer| ==> AtDepth(pairs, answer[j], depths[j]))
    && (forall j, k :: 0 <= j < k < |answer| ==> depths[j] <= depths[k])
    && (i < |answer| ==> forall j :: 0 <= j < |answer| ==> depths[j] <= depths[i] + 1)
  }

  /** Exactly the finished items and those without live parents are in the answer. */
  ghost predicate Queued(answer: seq<Item>, done: set<Item>, numParents: map<Item, nat>) {
    forall x :: x in answer <==> x in done || (x in numParents && numParents[x] == 0)
  }

  /** Inside the loop over the children of answer[i]; rest are the children still to be counted. */
  ghost predicate Sweeping(nodes: set<Item>, pairs: seq<Pair>, answer: seq<Item>, depths: seq<nat>, i: nat,
                           rest: seq<Item>, numParents: map<Item, nat>) {
    && i < |answer|
    && MidRetire(nodes, pairs, SetOf(answer[..i + 1]), rest, numParents)
    && Growing(nodes, pairs, answer, depths, i)
    && Queued(answer, SetOf(answer[..i + 1]), numParents)
  }

  /** Between two parents: everything before position i is finished. */
  ghost predicate Swept(nodes: set<Item>, pairs: seq<Pair>, answer: seq<Item>, depths: seq<nat>, i: nat,
                        numParents: map<Item, nat>, children: map<Item, seq<Item>>) {
    && i <= |answer|
    && Tracks(nodes, pairs, SetOf(answer[..i]), numParents, children)
    && children == LiveChildren(pairs, SetOf(answer[..i]))
    && Growing(nodes, pairs, answer, depths, i)
    && Queued(answer, SetOf(answer[..i]), numParents)
  }

  method Topsort(pairs: seq<Pair>) returns (r: SortOutcome)
    ensures IsSortOutcome(pairs, r)
  {
    hide *;
    var numParents, children := BuildMaps(pairs);
    ghost var nodes := Elements(pairs);
    var answer := WithoutParents(numParents);
    ghost var depths: seq<nat> := seq(|answer|, _ => 0);
    RootsAreSwept(nodes, pairs, answer, depths, numParents, children);
    RootsAreQueued(nodes, pairs, answer, numParents, children);
    ghost var roots, origins: seq<(nat, nat)> := |answer|, [];
    var i := 0;
    while i < |answer|
      invariant i <= |answer| && Swept(nodes, pairs, answer, depths, i, numParents, children)
      invariant Queue(pairs, answer, roots, origins) && QueuedBefore(origins, i, 0)
      decreases nodes - SetOf(answer[..i])
    {
      var parent := answer[i];
      ghost var queue, queueDepths, counts, lists := answer, depths, numParents, children;
      NextParent(nodes, pairs, answer, depths, i, numParents, children);
      numParents := numParents - {parent};
      if parent in children {
        numParents, answer, depths, origins :=
          CountChildren(nodes, pairs, children[parent], numParents, answer, depths, i, roots, origins);
        children := children - {parent};
      }
      StillBefore(origins, i, if parent in lists then |lists[parent]| else 0);
      ParentFinished(nodes, pairs, i, queue, queueDepths, counts, lists, answer, depths, numParents, children);
      i := i + 1;
    }
    r := if |numParents| > 0 then CycleError(answer, numParents, children) else Sorted(answer);
    Finished(nodes, pairs, answer, depths, numParents, children, roots, origins);
  }

  /** The loop over the children of answer[i]. */
  method CountChildren(ghost nodes: set<Item>, ghost pairs: seq<Pair>, list: seq<Item>, counts: map<Item, nat>,
                       queue: seq<Item>, ghost depths: seq<nat>, ghost i: nat, ghost roots: nat, ghost origins: seq<(nat, nat)>)
    returns (numParents: map<Item, nat>, answer: seq<Item>, ghost depths': seq<nat>, ghost origins': seq<(nat, nat)>)
    requires i < |queue| && list == ChildList(pairs, queue[i])
    requires Sweeping(nodes, pairs, queue, depths, i, list, counts)
    requires Queue(pairs, queue, roots, origins) && QueuedBefore(origins, i, 0)
    ensures Sweeping(nodes, pairs, answer, depths', i, [], numParents)
    ensures queue <= answer
    ensures Queue(pairs, answer, roots, origins') && QueuedBefore(origins', i, |list|)
  {
    hide MidRetire, Growing, Queued, HoldsChildren, ChildList, Queue, QueuedBefore;
    numParents, answer, depths', origins' := counts, queue, depths, origins;
    assert list[0..] == list;
    for m := 0 to |list|
      invariant queue <= answer
      invariant Sweeping(nodes, pairs, answer, depths', i, list[m..], numParents)
      invariant Queue(pairs, answer, roots, origins') && QueuedBefore(origins', i, m)
    {
      var child := list[m];
      assert list[m..][1..] == list[m + 1..];
      ChildListMembers(pairs, queue[i], child);
      CountDown(nodes, pairs, answer, depths', i, list[m..], numParents);
      numParents := numParents[child := numParents[child] - 1];
      StillBefore(origins', i, m);
      if numParents[child] == 0 {
        assert (answer + [child])[..i + 1] == answer[..i + 1];
        FreedNow(nodes, pairs, answer, i, m, numParents);
        QueueGrows(pairs, answer, roots, origins', i, m);
        answer, depths', origins' := answer + [child], depths' + [depths'[i] + 1], origins' + [(i, m)];
      }
    }
  }

  /** A child with no live parent left is no later child of the one being finished, and all its parents are done. */
  lemma FreedNow(nodes: set<Item>, pairs: seq<Pair>, answer: seq<Item>, i: nat, m: nat, numParents: map<Item, nat>)
    requires i < |answer| && m < |ChildList(pairs, answer[i])|
    requires MidRetire(nodes, pairs, SetOf(answer[..i + 1]), ChildList(pairs, answer[i])[m + 1..], numParents)
    requires var child := ChildList(pairs, answer[i])[m]; child in numParents && numParents[child] == 0
    ensures var child := ChildList(pairs, answer[i])[m];
            && child !in ChildList(pairs, answer[i])[m + 1..]
            && forall p :: (p, child) in pairs ==> p in answer[..i + 1]
  {
    hide ChildList, LiveIn;
    LiveInZero(pairs, SetOf(answer[..i + 1]), ChildList(pairs, answer[i])[m]);
  }

  lemma RootsAreQueued(nodes: set<Item>, pairs: seq<Pair>, answer: seq<Item>,
                       numParents: map<Item, nat>, children: map<Item, seq<Item>>)
    requires Tracks(nodes, pairs, {}, numParents, children)
    requires forall x :: x in answer ==> x in numParents && numParents[x] == 0
    ensures Queue(pairs, answer, |answer|, []) && QueuedBefore([], 0, 0)
  {
    hide LiveIn, ChildList;
    forall j | 0 <= j < |answer| ensures forall p :: (p, answer[j]) !in pairs {
      assert answer[j] in numParents;
      LiveInZero(pairs, {}, answer[j]);
    }
    QueueBegins(pairs, answer);
  }

  lemma RootsAreSwept(nodes: set<Item>, pairs: seq<Pair>, answer: seq<Item>, depths: seq<nat>,
                      numParents: map<Item, nat>, children: map<Item, seq<Item>>)
    requires Tracks(nodes, pairs, {}, numParents, children) && children == LiveChildren(pairs, {})
    requires NoDuplicates(answer) && forall x :: x in answer <==> x in numParents && numParents[x] == 0
    requires depths == seq(|answer|, _ => 0)
    ensures Swept(nodes, pairs, answer, depths, 0, numParents, children)
  {
    assert SetOf(answer[..0]) == {};
    forall j | 0 <= j < |answer|
      ensures AtDepth(pairs, answer[j], 0) && forall p :: (p, answer[j]) !in pairs
    {
      assert answer[j] in numParents && LiveIn(pairs, {}, answer[j]) == 0;
      LiveInZero(pairs, {}, answer[j]);
      HasChainZero(pairs, answer[j]);
      HasChainStep(pairs, answer[j], 0);
    }
  }

  lemma PrefixGrows(s: seq<Item>, i: nat)
    requires i < |s|
    ensures SetOf(s[..i + 1]) == SetOf(s[..i]) + {s[i]}
    ensures SetOf(s[..i + 1]) <= SetOf(s)
  {
    assert s[..i + 1] == s[..i] + [s[i]];
  }

  lemma NextParent(nodes: set<Item>, pairs: seq<Pair>, answer: seq<Item>, depths: seq<nat>, i: nat,
                   numParents: map<Item, nat>, children: map<Item, seq<Item>>)
    requires i < |answer| && Swept(nodes, pairs, answer, depths, i, numParents, children)
    ensures answer[i] in numParents
    ensures Sweeping(nodes, pairs, answer, depths, i, ChildList(pairs, answer[i]), numParents - {answer[i]})
    ensures if answer[i] in children then children[answer[i]] == ChildList(pairs, answer[i])
            else ChildList(pairs, answer[i]) == []
  {
    hide AtDepth, LiveIn, ChildList, MidRetire, ParentsDone, ParentsEarlier;
    var parent, done := answer[i], SetOf(answer[..i]);
    PrefixGrows(answer, i);
    assert parent in answer && parent !in done;
    StartRetire(nodes, pairs, done, parent, numParents, children);
  }

  lemma ParentFinished(nodes: set<Item>, pairs: seq<Pair>, i: nat,
                       queue: seq<Item>, queueDepths: seq<nat>, counts: map<Item, nat>, lists: map<Item, seq<Item>>,
                       answer: seq<Item>, depths: seq<nat>, numParents: map<Item, nat>, children: map<Item, seq<Item>>)
    requires i < |queue| && Swept(nodes, pairs, queue, queueDepths, i, counts, lists)
    requires queue <= answer && Sweeping(nodes, pairs, answer, depths, i, [], numParents)
    requires children == lists - {queue[i]}
    ensures Swept(nodes, pairs, answer, depths, i + 1, numParents, children)
    ensures nodes - SetOf(answer[..i + 1]) < nodes - SetOf(queue[..i])
  {
    hide AtDepth, LiveIn, ChildList, ParentsDone;
    var parent, done := answer[i], SetOf(answer[..i]);
    PrefixGrows(answer, i);
    assert queue[..i] == answer[..i] && parent == queue[i] && parent in queue;
    EndRetire(nodes, pairs, done, parent, numParents, lists);
    assert (lists - {parent}).Keys == lists.Keys - {parent};
  }

  /** One child counted down, and appended if that was its last live parent. */
  lemma CountDown(nodes: set<Item>, pairs: seq<Pair>, answer: seq<Item>, depths: seq<nat>, i: nat,
                  rest: seq<Item>, numParents: map<Item, nat>)
    requires rest != [] && Sweeping(nodes, pairs, answer, depths, i, rest, numParents)
    requires (answer[i], rest[0]) in pairs
    ensures i < |depths| && rest[0] in numParents && numParents[rest[0]] > 0
    ensures var fewer := numParents[rest[0] := numParents[rest[0]] - 1];
            if fewer[rest[0]] == 0
            then Sweeping(nodes, pairs, answer + [rest[0]], depths + [depths[i] + 1], i, rest[1..], fewer)
            else Sweeping(nodes, pairs, answer, depths, i, rest[1..], fewer)
  {
    hide HasChain, AtDepth, LiveIn, ParentsEarlier;
    var child := rest[0];
    assert rest == [child] + rest[1..];
    assert multiset(rest) == multiset{child} + multiset(rest[1..]);
    var fewer := numParents[child := numParents[child] - 1];
    assert MidRetire(nodes, pairs, SetOf(answer[..i + 1]), rest[1..], fewer);
    if fewer[child] == 0 {
      AppendChild(nodes, pairs, answer, depths, i, child, fewer, rest[1..]);
      assert (answer + [child])[..i + 1] == answer[..i + 1];
    }
  }

  /** A child whose last live parent is position i goes one level below position i. */
  lemma AppendChild(nodes: set<Item>, pairs: seq<Pair>, answer: seq<Item>, depths: seq<nat>, i: nat, child: Item,
                    numParents: map<Item, nat>, rest: seq<Item>)
    requires i < |answer| && Growing(nodes, pairs, answer, depths, i)
    requires child !in answer && child in nodes && (answer[i], child) in pairs
    requires MidRetire(nodes, pairs, SetOf(answer[..i + 1]), rest, numParents)
    requires child in numParents && numParents[child] == 0
    ensures Growing(nodes, pairs, answer + [child], depths + [depths[i] + 1], i)
  {
    hide HasChain, LiveIn;
    LiveInZero(pairs, SetOf(answer[..i + 1]), child);
    forall p | (p, child) in pairs ensures p in answer && !HasChain(pairs, p, depths[i] + 1) {
      var j :| 0 <= j <= i && answer[..i + 1][j] == p;
      if HasChain(pairs, p, depths[i] + 1) {
        HasChainShorter(pairs, p, depths[j] + 1, depths[i] + 1);
      }
    }
    DepthAbove(pairs, child, depths[i], answer[i]);
    var grown := answer + [child];
    assert forall j :: 0 <= j < |answer| ==> grown[..j] == answer[..j];
    assert grown[..|answer|] == answer;
    assert SetOf(grown) == SetOf(answer) + {child};
  }

  /** The sweep ended: the answer has every grounded node and the rest is parent-closed. */
  lemma Finished(nodes: set<Item>, pairs: seq<Pair>, answer: seq<Item>, depths: seq<nat>,
                 numParents: map<Item, nat>, children: map<Item, seq<Item>>, roots: nat, origins: seq<(nat, nat)>)
    requires Queue(pairs, answer, roots, origins)
    requires nodes == Elements(pairs) && Swept(nodes, pairs, answer, depths, |answer|, numParents, children)
    ensures IsSortOutcome(pairs, if |numParents| > 0 then CycleError(answer, numParents, children) else Sorted(answer))
  {
    hide IsDependencyOrder, AtDepth, HasCycle, IsCycle, ParentClosed, LiveIn, ParentsEarlier, Queue;
    assert answer[..|answer|] == answer;
    forall x | x in answer ensures Grounded(pairs, x) {
      var j :| 0 <= j < |answer| && answer[j] == x;
      assert AtDepth(pairs, x, depths[j]);
    }
    LeftoversStuck(nodes, pairs, SetOf(answer), numParents, children);
    GrownIsOrdered(nodes, pairs, answer, depths);
  }

  lemma GrownIsOrdered(nodes: set<Item>, pairs: seq<Pair>, answer: seq<Item>, depths: seq<nat>)
    requires Growing(nodes, pairs, answer, depths, |answer|)
    requires forall x :: x in nodes ==> (x in answer <==> Grounded(pairs, x))
    ensures IsDependencyOrder(nodes, pairs, answer)
  {
    hide AtDepth;
    forall j | 0 <= j < |answer| ensures Grounded(pairs, answer[j]) && Depth(pairs, answer[j]) == depths[j] {
      assert AtDepth(pairs, answer[j], depths[j]);
      DepthUnique(pairs, answer[j], Depth(pairs, answer[j]), depths[j]);
    }
    forall x ensures x in answer <==> x in nodes && Grounded(pairs, x) {
      assert x in SetOf(answer) <==> x in answer;
    }
  }

  lemma LeftoversStuck(nodes: set<Item>, pairs: seq<Pair>, done: set<Item>,
                       numParents: map<Item, nat>, children: map<Item, seq<Item>>)
    requires Tracks(nodes, pairs, done, numParents, children)
    requires forall x :: x in numParents ==> numParents[x] > 0
    requires forall x :: x in done ==> Grounded(pairs, x)
    ensures numParents.Keys == nodes - done && ParentClosed(pairs, numParents.Keys)
    ensures forall x :: x in nodes ==> (x in done <==> Grounded(pairs, x))
    ensures |numParents| > 0 <==> HasCycle(pairs)
    ensures HasCycle(pairs) ==> exists c :: IsCycle(pairs, c) && SetOf(c) <= numParents.Keys
  {
    hide LiveIn, HasChain, HasCycle, HoldsChildren;
    var stuck := numParents.Keys;
    forall x | x in stuck ensures HasParentIn(pairs, stuck, x) {
      LiveInZero(pairs, done, x);
      var p :| (p, x) in pairs && p !in done;
      assert p in Elements(pairs);
    }
    forall x | x in stuck ensures !Grounded(pairs, x) {
      if k: nat :| AtDepth(pairs, x, k) {
        ParentClosedNotGrounded(pairs, stuck, x, k + 1);
      }
    }
    CyclicIffUngrounded(pairs, stuck);
  }

  // ----- topsort_levels

  method TopsortLevels(pairs: seq<Pair>) returns (r: LevelsOutcome)
    ensures IsLevelsOutcome(Elements(pairs), pairs, LiveChildren(pairs, {}), r)
  {
    hide ChildList, LiveIn, LiveChildren, IsLevelsOutcome, HoldsChildren, ParentsDone;
    var numParents, children := BuildMaps(pairs);
    assert numParents.Keys == Elements(pairs);
    r := TopsortLevelsCore(numParents, children, pairs);
  }

  /** The dictionaries may come from anywhere, as long as the counts agree with the child lists, that is,
      both describe one pair list; they may also hold childless items without any pair. */
  method TopsortLevelsCore(counts: map<Item, nat>, lists: map<Item, seq<Item>>, ghost pairs: seq<Pair>)
    returns (r: LevelsOutcome)
    requires Tracks(counts.Keys, pairs, {}, counts, lists)
    ensures IsLevelsOutcome(counts.Keys, pairs, lists, r)
  {
    hide *;
    var numParents, children := counts, lists;
    ghost var nodes := counts.Keys;
    var levels: seq<seq<Item>> := [];
    LevelsBegin(nodes, pairs, counts, lists);
    while true
      invariant LevelsSwept(nodes, pairs, lists, levels, numParents, children)
      decreases nodes - Shallower(nodes, pairs, |levels|)
    {
      var level := WithoutParents(numParents);
      if level == [] {
        break;
      }
      ghost var done := Shallower(nodes, pairs, |levels|);
      NextLevel(nodes, pairs, lists, levels, level, numParents, children);
      levels := levels + [level];
      for j := 0 to |level|
        invariant LevelSweeping(nodes, pairs, lists, done, level, j, numParents, children)
      {
        var levelParent := level[j];
        ghost var before, beforeLists := numParents, children;
        NextLevelParent(nodes, pairs, lists, done, level, j, numParents, children);
        numParents := numParents - {levelParent};
        if levelParent in children {
          var list := children[levelParent];
          assert list[0..] == list;
          for m := 0 to |list|
            invariant MidRetire(nodes, pairs, done + SetOf(level[..j]) + {levelParent}, list[m..], numParents)
          {
            assert list[m..][1..] == list[m + 1..];
            OneCountLess(nodes, pairs, done + SetOf(level[..j]) + {levelParent}, list[m..], numParents);
            numParents := numParents[list[m] := numParents[list[m]] - 1];
          }
          children := children - {levelParent};
        }
        LevelParentFinished(nodes, pairs, lists, done, level, j, before, beforeLists, numParents, children);
      }
      LevelFinished(nodes, pairs, lists, levels, level, numParents, children);
    }
    r := if |numParents| > 0 then LevelsCycleError(levels, numParents, children) else AllLevels(levels);
    LevelsEnd(nodes, pairs, lists, levels, numParents, children);
  }

  ghost predicate LevelsSoFar(nodes: set<Item>, pairs: seq<Pair>, levels: seq<seq<Item>>) {
    && (forall k :: 0 <= k < |levels| ==> NoDuplicates(levels[k]) && levels[k] != [])
    && (forall k, x :: 0 <= k < |levels| ==> (x in levels[k] <==> x in nodes && AtDepth(pairs, x, k)))
  }

  /** Between two levels. */
  ghost predicate LevelsSwept(nodes: set<Item>, pairs: seq<Pair>, lists: map<Item, seq<Item>>, levels: seq<seq<Item>>,
                              numParents: map<Item, nat>, children: map<Item, seq<Item>>) {
    && LevelsSoFar(nodes, pairs, levels)
    && Tracks(nodes, pairs, Shallower(nodes, pairs, |levels|), numParents, children)
    && children == lists - Shallower(nodes, pairs, |levels|)
  }

  /** Inside a level, with its first j items finished. */
  ghost predicate LevelSweeping(nodes: set<Item>, pairs: seq<Pair>, lists: map<Item, seq<Item>>, done: set<Item>,
                                level: seq<Item>, j: nat, numParents: map<Item, nat>, children: map<Item, seq<Item>>) {
    && j <= |level| && NoDuplicates(level)
    && Tracks(nodes, pairs, done + SetOf(level[..j]), numParents, children)
    && children == lists - (done + SetOf(level[..j]))
    && (forall x :: x in level ==> x in nodes && x !in done && LiveIn(pairs, done, x) == 0)
  }

  lemma LevelsBegin(nodes: set<Item>, pairs: seq<Pair>, counts: map<Item, nat>, lists: map<Item, seq<Item>>)
    requires Tracks(nodes, pairs, {}, counts, lists)
    ensures LevelsSwept(nodes, pairs, lists, [], counts, lists)
  {
    assert Shallower(nodes, pairs, 0) == {} by {
      forall x ensures HasChain(pairs, x, 0) {
        HasChainZero(pairs, x);
      }
    }
    assert lists - {} == lists;
  }

  /** The nodes whose live count is zero are those at the next depth. */
  lemma NextLevel(nodes: set<Item>, pairs: seq<Pair>, lists: map<Item, seq<Item>>, levels: seq<seq<Item>>,
                  level: seq<Item>, numParents: map<Item, nat>, children: map<Item, seq<Item>>)
    requires LevelsSwept(nodes, pairs, lists, levels, numParents, children)
    requires level != [] && NoDuplicates(level)
    requires forall x :: x in level <==> x in numParents && numParents[x] == 0
    ensures LevelsSoFar(nodes, pairs, levels + [level])
    ensures LevelSweeping(nodes, pairs, lists, Shallower(nodes, pairs, |levels|), level, 0, numParents, children)
  {
    hide HasChain, LiveIn, ParentsDone, HoldsChildren;
    var k, done := |levels|, Shallower(nodes, pairs, |levels|);
    forall x ensures x in level <==> x in nodes && AtDepth(pairs, x, k) {
      if x in nodes && HasChain(pairs, x, k) {
        FreeMeansAtDepth(nodes, pairs, x, k);
      }
    }
    assert SetOf(level[..0]) == {} && done + {} == done;
  }

  lemma FreeMeansAtDepth(nodes: set<Item>, pairs: seq<Pair>, x: Item, k: nat)
    requires Elements(pairs) <= nodes && x in nodes && HasChain(pairs, x, k)
    ensures LiveIn(pairs, Shallower(nodes, pairs, k), x) == 0 <==> AtDepth(pairs, x, k)
  {
    hide HasChain;
    LiveInZero(pairs, Shallower(nodes, pairs, k), x);
    HasChainStep(pairs, x, k);
    forall p | (p, x) in pairs ensures p in nodes {
      assert p in Elements(pairs);
    }
  }

  lemma NextLevelParent(nodes: set<Item>, pairs: seq<Pair>, lists: map<Item, seq<Item>>, done: set<Item>,
                        level: seq<Item>, j: nat, numParents: map<Item, nat>, children: map<Item, seq<Item>>)
    requires j < |level| && LevelSweeping(nodes, pairs, lists, done, level, j, numParents, children)
    ensures level[j] in numParents && numParents[level[j]] == 0
    ensures MidRetire(nodes, pairs, done + SetOf(level[..j]) + {level[j]}, ChildList(pairs, level[j]), numParents - {level[j]})
    ensures if level[j] in children then children[level[j]] == ChildList(pairs, level[j])
            else ChildList(pairs, level[j]) == []
  {
    hide LiveIn, ChildList, MidRetire, ParentsDone;
    var done', parent := done + SetOf(level[..j]), level[j];
    assert parent in level && parent !in level[..j];
    LiveInZero(pairs, done, parent);
    LiveInZero(pairs, done', parent);
    StartRetire(nodes, pairs, done', parent, numParents, children);
  }

  lemma OneCountLess(nodes: set<Item>, pairs: seq<Pair>, done: set<Item>, rest: seq<Item>, numParents: map<Item, nat>)
    requires rest != [] && MidRetire(nodes, pairs, done, rest, numParents)
    ensures rest[0] in numParents && numParents[rest[0]] > 0
    ensures MidRetire(nodes, pairs, done, rest[1..], numParents[rest[0] := numParents[rest[0]] - 1])
  {
    hide LiveIn;
    assert rest == [rest[0]] + rest[1..];
    assert multiset(rest) == multiset{rest[0]} + multiset(rest[1..]);
  }

  lemma LevelParentFinished(nodes: set<Item>, pairs: seq<Pair>, lists: map<Item, seq<Item>>, done: set<Item>,
                            level: seq<Item>, j: nat, before: map<Item, nat>, beforeLists: map<Item, seq<Item>>,
                            numParents: map<Item, nat>, children: map<Item, seq<Item>>)
    requires j < |level| && LevelSweeping(nodes, pairs, lists, done, level, j, before, beforeLists)
    requires MidRetire(nodes, pairs, done + SetOf(level[..j]) + {level[j]}, [], numParents)
    requires children == beforeLists - {level[j]}
    ensures LevelSweeping(nodes, pairs, lists, done, level, j + 1, numParents, children)
  {
    hide LiveIn, ChildList, MidRetire, ParentsDone;
    var done', parent := done + SetOf(level[..j]), level[j];
    assert parent in level && parent !in level[..j];
    LiveInZero(pairs, done, parent);
    LiveInZero(pairs, done', parent);
    EndRetire(nodes, pairs, done', parent, numParents, beforeLists);
    PrefixGrows(level, j);
    assert done + SetOf(level[..j + 1]) == done' + {parent};
    assert lists - (done' + {parent}) == (lists - done') - {parent};
  }

  lemma LevelFinished(nodes: set<Item>, pairs: seq<Pair>, lists: map<Item, seq<Item>>, levels: seq<seq<Item>>,
                      level: seq<Item>, numParents: map<Item, nat>, children: map<Item, seq<Item>>)
    requires |levels| > 0 && levels[|levels| - 1] == level && LevelsSoFar(nodes, pairs, levels)
    requires LevelSweeping(nodes, pairs, lists, Shallower(nodes, pairs, |levels| - 1), level, |level|, numParents, children)
    ensures LevelsSwept(nodes, pairs, lists, levels, numParents, children)
    ensures nodes - Shallower(nodes, pairs, |levels|) < nodes - Shallower(nodes, pairs, |levels| - 1)
  {
    hide Tracks, HasChain, LiveIn;
    var k := |levels| - 1;
    assert level[..|level|] == level;
    forall x | x in nodes ensures x in Shallower(nodes, pairs, k + 1) <==> x in Shallower(nodes, pairs, k) || x in level {
      if HasChain(pairs, x, k + 1) {
        HasChainShorter(pairs, x, k, k + 1);
      }
      assert x in levels[k] <==> AtDepth(pairs, x, k);
    }
    assert Shallower(nodes, pairs, k + 1) == Shallower(nodes, pairs, k) + SetOf(level);
    assert level[0] in level;
  }

  lemma LevelsEnd(nodes: set<Item>, pairs: seq<Pair>, lists: map<Item, seq<Item>>, levels: seq<seq<Item>>,
                  numParents: map<Item, nat>, children: map<Item, seq<Item>>)
    requires LevelsSwept(nodes, pairs, lists, levels, numParents, children)
    requires forall x :: x in numParents ==> numParents[x] != 0
    ensures IsLevelsOutcome(nodes, pairs, lists,
              if |numParents| > 0 then LevelsCycleError(levels, numParents, children) else AllLevels(levels))
  {
    hide HasChain, LiveIn, HasCycle, IsCycle, ParentClosed, HoldsChildren, ParentsDone, IsLevelling, AtDepth;
    var k, done := |levels|, Shallower(nodes, pairs, |levels|);
    forall x | x in done ensures Grounded(pairs, x) {
      var d := BoundedChainsHaveDepth(pairs, x, k);
    }
    LeftoversStuck(nodes, pairs, done, numParents, children);
    NoLevelMissing(nodes, pairs, levels);
  }

  lemma NoLevelMissing(nodes: set<Item>, pairs: seq<Pair>, levels: seq<seq<Item>>)
    requires LevelsSoFar(nodes, pairs, levels)
    requires forall x :: x in nodes ==> (x in Shallower(nodes, pairs, |levels|) <==> Grounded(pairs, x))
    ensures IsLevelling(nodes, pairs, levels)
  {
    hide HasChain;
    forall x | x in nodes && Grounded(pairs, x) ensures Depth(pairs, x) < |levels| {
      assert x in Shallower(nodes, pairs, |levels|);
      var d := BoundedChainsHaveDepth(pairs, x, |levels|);
      DepthUnique(pairs, x, d, Depth(pairs, x));
    }
  }
}
