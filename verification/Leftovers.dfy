/** Which items the sorts of bindings/python/topsort.py leave over: those on a cycle or below one. Such an item may have
    no child. */
module Leftovers {
  import opened Sequences
  import opened DependencyGraph
  import opened Topsort
  import opened SortAgreement
  import opened QueueOrder
  import opened LinearScan

  ghost predicate OnCycle(pairs: seq<Pair>, x: Item) {
    exists c :: IsCycle(pairs, c) && x in c
  }

  /** Some path leads to y from an item on a cycle; y itself may be on it. */
  ghost predicate BelowCycle(pairs: seq<Pair>, y: Item) {
    exists s :: IsChainInto(pairs, s, y) && OnCycle(pairs, s[0])
  }

  ghost predicate HasChild(pairs: seq<Pair>, y: Item) {
    exists c :: (y, c) in pairs
  }

  ghost function Ungrounded(pairs: seq<Pair>): set<Item> {
    set x | x in Elements(pairs) && !Grounded(pairs, x)
  }

  // ----- an item has no depth exactly below a cycle

  /** A common bound for the chains into the parents of x, if they all have one. */
  lemma {:induction false} ParentsBound(pairs: seq<Pair>, x: Item, i: nat) returns (k: nat)
    requires i <= |pairs|
    requires forall p :: (p, x) in pairs ==> Grounded(pairs, p)
    ensures forall j :: 0 <= j < i && pairs[j].1 == x ==> !HasChain(pairs, pairs[j].0, k)
  {
    hide HasChain;
    k := 0;
    if i > 0 {
      k := ParentsBound(pairs, x, i - 1);
      var p := pairs[i - 1].0;
      if pairs[i - 1].1 == x {
        assert (p, x) in pairs;
        var top := if Depth(pairs, p) + 1 > k then Depth(pairs, p) + 1 else k;
        Longer(pairs, x, i - 1, k, top);
        if HasChain(pairs, p, top) {
          HasChainShorter(pairs, p, Depth(pairs, p) + 1, top);
        }
        k := top;
      }
    }
  }

  lemma Longer(pairs: seq<Pair>, x: Item, i: nat, k: nat, top: nat)
    requires i <= |pairs| && k <= top
    requires forall j :: 0 <= j < i && pairs[j].1 == x ==> !HasChain(pairs, pairs[j].0, k)
    ensures forall j :: 0 <= j < i && pairs[j].1 == x ==> !HasChain(pairs, pairs[j].0, top)
  {
    hide HasChain;
    forall j | 0 <= j < i && pairs[j].1 == x ensures !HasChain(pairs, pairs[j].0, top) {
      if HasChain(pairs, pairs[j].0, top) {
        HasChainShorter(pairs, pairs[j].0, k, top);
      }
    }
  }

  lemma GroundedBelowGrounded(pairs: seq<Pair>, x: Item)
    requires forall p :: (p, x) in pairs ==> Grounded(pairs, p)
    ensures Grounded(pairs, x)
  {
    hide HasChain;
    var k := ParentsBound(pairs, x, |pairs|);
    HasChainStep(pairs, x, k);
    var depth := BoundedChainsHaveDepth(pairs, x, k + 1);
  }

  lemma UngroundedIsParentClosed(pairs: seq<Pair>)
    ensures ParentClosed(pairs, Ungrounded(pairs))
    ensures forall x :: x in Ungrounded(pairs) <==> !Grounded(pairs, x)
  {
    forall x | !Grounded(pairs, x) ensures x in Ungrounded(pairs) && HasParentIn(pairs, Ungrounded(pairs), x) {
      if forall p :: (p, x) in pairs ==> Grounded(pairs, p) {
        GroundedBelowGrounded(pairs, x);
      }
      var p :| (p, x) in pairs && !Grounded(pairs, p);
      var i :| 0 <= i < |pairs| && pairs[i] == (p, x);
      assert pairs[i].0 in Elements(pairs) && pairs[i].1 in Elements(pairs);
    }
  }

  /** Walking from parent to parent inside a parent-closed set closes a cycle, from which the walk leads back down. */
  lemma {:induction false} WalkBackToCycle(pairs: seq<Pair>, stuck: set<Item>, s: seq<Item>, y: Item)
    requires ParentClosed(pairs, stuck)
    requires IsChainInto(pairs, s, y) && NoDuplicates(s) && SetOf(s) <= stuck
    ensures BelowCycle(pairs, y)
    decreases stuck - SetOf(s)
  {
    assert s[0] in SetOf(s);
    assert HasParentIn(pairs, stuck, s[0]);
    var p :| p in stuck && (p, s[0]) in pairs;
    if p in s {
      var j :| 0 <= j < |s| && s[j] == p;
      assert IsCycle(pairs, s[..j + 1]) && s[j] in s[..j + 1];
      assert IsChainInto(pairs, s[j..], y) && s[j..][0] == s[j];
    } else {
      var s' := [p] + s;
      assert SetOf(s') == SetOf(s) + {p};
      WalkBackToCycle(pairs, stuck, s', y);
    }
  }

  lemma {:induction false} UngroundedDownwards(pairs: seq<Pair>, s: seq<Item>, k: nat)
    requires IsPath(pairs, s) && k < |s| && OnCycle(pairs, s[0])
    ensures !Grounded(pairs, s[k])
  {
    hide Grounded;
    if k == 0 {
      var c :| IsCycle(pairs, c) && s[0] in c;
      var i :| 0 <= i < |c| && c[i] == s[0];
      CyclesAreNotGrounded(pairs, c, i);
    } else {
      UngroundedDownwards(pairs, s, k - 1);
      assert (s[k - 1], s[k]) in pairs;
      ParentOfGrounded(pairs, s[k - 1], s[k]);
    }
  }

  lemma ParentOfGrounded(pairs: seq<Pair>, p: Item, x: Item)
    requires (p, x) in pairs
    ensures Grounded(pairs, x) ==> Grounded(pairs, p)
  {
    hide HasChain;
    if k: nat :| AtDepth(pairs, x, k) {
      HasChainStep(pairs, x, k);
      var depth := BoundedChainsHaveDepth(pairs, p, k);
    }
  }

  /** The chains into an item are unbounded exactly if it is on a cycle or below one. */
  lemma UngroundedIffBelowCycle(pairs: seq<Pair>, y: Item)
    ensures !Grounded(pairs, y) <==> BelowCycle(pairs, y)
  {
    hide Grounded, IsCycle;
    if !Grounded(pairs, y) {
      UngroundedIsParentClosed(pairs);
      WalkBackToCycle(pairs, Ungrounded(pairs), [y], y);
    }
    if s :| IsChainInto(pairs, s, y) && OnCycle(pairs, s[0]) {
      UngroundedDownwards(pairs, s, |s| - 1);
    }
  }

  // ----- the leftovers of a failed sort

  /** Whatever topsort does with a pair list, it leaves over exactly the items on or below a cycle. */
  lemma LeftoversAreBelowCycles(pairs: seq<Pair>, r: SortOutcome, y: Item)
    requires IsSortOutcome(pairs, r)
    ensures (r.CycleError? && y in r.numParents) <==> BelowCycle(pairs, y)
  {
    hide Grounded, BelowCycle;
    UngroundedIffBelowCycle(pairs, y);
    UngroundedIsParentClosed(pairs);
    assert y in r.answer <==> y in SetOf(r.answer);
  }

  /** And so does topsort_levels. */
  lemma LevelsLeaveTheSame(pairs: seq<Pair>, r: LevelsOutcome, y: Item)
    requires IsLevelsOutcome(Elements(pairs), pairs, LiveChildren(pairs, {}), r)
    ensures (r.LevelsCycleError? && y in r.numParents) <==> BelowCycle(pairs, y)
  {
    hide BelowCycle, HasChain, IsCycle, Elements;
    UngroundedIffBelowCycle(pairs, y);
    UngroundedIsParentClosed(pairs);
    if Grounded(pairs, y) {
      ShallowerMeansDepth(Elements(pairs), pairs, y, |r.levels|);
    } else {
      assert y in Elements(pairs);
      if !HasChain(pairs, y, |r.levels|) {
        var depth := BoundedChainsHaveDepth(pairs, y, |r.levels|);
      }
      BelowMeansCyclic(pairs, y);
    }
  }

  lemma BelowMeansCyclic(pairs: seq<Pair>, y: Item)
    requires BelowCycle(pairs, y)
    ensures HasCycle(pairs)
  {
  }

  lemma ChildListIsKept(pairs: seq<Pair>, r: SortOutcome, y: Item)
    requires IsSortOutcome(pairs, r) && r.CycleError? && y in r.numParents
    ensures y in r.children <==> HasChild(pairs, y)
  {
    hide Grounded;
    if HasChild(pairs, y) {
      var c :| (y, c) in pairs;
      var i :| 0 <= i < |pairs| && pairs[i] == (y, c);
      assert pairs[i].0 in Parents(pairs);
    }
    if y in r.children {
      var i :| 0 <= i < |pairs| && pairs[i].0 == y;
      assert (y, pairs[i].1) in pairs;
    }
  }

  /** What a CycleError carries: for every item on or below a cycle the number of its pairs from such items, and for those
      with children the children of all their pairs, in pair order. */
  lemma ErrorDetails(pairs: seq<Pair>, r: SortOutcome, y: Item)
    requires IsSortOutcome(pairs, r) && r.CycleError?
    ensures y in r.numParents <==> BelowCycle(pairs, y)
    ensures y in r.numParents ==> r.numParents[y] == |Filter(pairs, (q: Pair) => q.1 == y && BelowCycle(pairs, q.0))|
    ensures y in r.children <==> BelowCycle(pairs, y) && HasChild(pairs, y)
    ensures y in r.children ==> |r.children[y]| == |Filter(pairs, (q: Pair) => q.0 == y)|
    ensures y in r.children ==> forall i :: 0 <= i < |r.children[y]| ==>
              r.children[y][i] == Filter(pairs, (q: Pair) => q.0 == y)[i].1
  {
    hide BelowCycle, Filter, ChildList, LiveIn, HasChild, IsDependencyOrder, InQueueOrder;
    LeftoversAreBelowCycles(pairs, r, y);
    ChildrenInPairOrder(pairs, y);
    ChildKeysAreLeft(pairs, r, y);
    forall p, x | (p, x) in pairs ensures BelowCycle(pairs, p) <==> p !in SetOf(r.answer) {
      LeftoversAreBelowCycles(pairs, r, p);
      PairIsElements(pairs, p, x);
    }
    LiveFromBelow(pairs, pairs, SetOf(r.answer), y);
    if y in r.numParents {
      ChildListIsKept(pairs, r, y);
    }
  }

  lemma PairIsElements(pairs: seq<Pair>, p: Item, x: Item)
    requires (p, x) in pairs
    ensures p in Elements(pairs) && x in Elements(pairs)
  {
    var i :| 0 <= i < |pairs| && pairs[i] == (p, x);
  }

  lemma ChildKeysAreLeft(pairs: seq<Pair>, r: SortOutcome, y: Item)
    requires IsSortOutcome(pairs, r) && r.CycleError?
    ensures y in r.children ==> y in r.numParents
  {
    hide IsDependencyOrder, InQueueOrder, LiveIn, ChildList;
    if y in r.children {
      var i :| 0 <= i < |pairs| && pairs[i].0 == y;
      assert pairs[i].0 in Elements(pairs);
    }
  }

  /** The live counts are the pairs from below cycles. */
  lemma {:induction false} LiveFromBelow(all: seq<Pair>, pairs: seq<Pair>, done: set<Item>, y: Item)
    requires forall i :: 0 <= i < |pairs| ==> (BelowCycle(all, pairs[i].0) <==> pairs[i].0 !in done)
    ensures LiveIn(pairs, done, y) == |Filter(pairs, (q: Pair) => q.1 == y && BelowCycle(all, q.0))|
  {
    hide BelowCycle;
    if pairs != [] {
      LiveFromBelow(all, pairs[..|pairs| - 1], done, y);
    }
  }

  /** Every leftover item has a child exactly if every item below a cycle has one. */
  lemma LeftoversHaveChildrenIff(pairs: seq<Pair>, r: SortOutcome)
    requires IsSortOutcome(pairs, r) && r.CycleError?
    ensures (forall y :: y in r.numParents ==> y in r.children) <==>
            (forall y :: BelowCycle(pairs, y) ==> HasChild(pairs, y))
  {
    hide IsSortOutcome, BelowCycle, HasChild;
    forall y ensures y in r.numParents <==> BelowCycle(pairs, y) {
      LeftoversAreBelowCycles(pairs, r, y);
    }
    forall y | y in r.numParents ensures y in r.children <==> HasChild(pairs, y) {
      ChildListIsKept(pairs, r, y);
    }
  }

  /** Here they do not: b is below the cycle of a with itself, and has no child. */
  lemma LeftoverWithoutChild(a: Item, b: Item, r: SortOutcome)
    requires a != b && IsSortOutcome([(a, a), (a, b)], r)
    ensures r.CycleError? && b in r.numParents && b !in r.children && !HasChild([(a, a), (a, b)], b)
  {
    var pairs := [(a, a), (a, b)];
    hide IsSortOutcome;
    assert IsCycle(pairs, [a]) && a in [a];
    assert IsChainInto(pairs, [a, b], b) && OnCycle(pairs, [a, b][0]);
    LeftoversAreBelowCycles(pairs, r, b);
    ChildListIsKept(pairs, r, b);
  }
}
