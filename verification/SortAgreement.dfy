/** The two sorts of bindings/python/topsort.py give the same answer, up to the order inside a level. */
module SortAgreement {
  import opened DependencyGraph
  import opened Sequences
  import opened Topsort

  /** Where level k starts when the levels are laid end to end. */
  ghost function Offset(levels: seq<seq<Item>>, k: nat): nat
    requires k <= |levels|
  {
    if k == 0 then 0 else Offset(levels, k - 1) + |levels[k - 1]|
  }

  lemma {:induction false} NoDuplicatesSize(s: seq<Item>)
    requires NoDuplicates(s)
    ensures |SetOf(s)| == |s|
  {
    if s != [] {
      var last := |s| - 1;
      NoDuplicatesSize(s[..last]);
      assert SetOf(s) == SetOf(s[..last]) + {s[last]};
    }
  }

  lemma {:induction false} SameItemsSameMultiset(s: seq<Item>, t: seq<Item>)
    requires NoDuplicates(s) && NoDuplicates(t) && SetOf(s) == SetOf(t)
    ensures multiset(s) == multiset(t)
  {
    forall x ensures multiset(s)[x] == multiset(t)[x] {
      CountInNoDuplicates(s, x);
      CountInNoDuplicates(t, x);
      assert x in SetOf(s) <==> x in SetOf(t);
    }
  }

  lemma {:induction false} CountInNoDuplicates(s: seq<Item>, x: Item)
    requires NoDuplicates(s)
    ensures multiset(s)[x] == if x in s then 1 else 0
  {
    if s != [] {
      var last := |s| - 1;
      CountInNoDuplicates(s[..last], x);
      assert s == s[..last] + [s[last]];
    }
  }

  /** The levels before k hold exactly the shallower nodes, and so many of them. */
  lemma {:induction false} ShallowerSize(nodes: set<Item>, pairs: seq<Pair>, levels: seq<seq<Item>>, k: nat)
    requires IsLevelling(nodes, pairs, levels) && k <= |levels|
    ensures |Shallower(nodes, pairs, k)| == Offset(levels, k)
  {
    if k == 0 {
      LevelsBeginEmpty(nodes, pairs);
    } else {
      hide IsLevelling, Shallower;
      ShallowerSize(nodes, pairs, levels, k - 1);
      ShallowerStep(nodes, pairs, levels, k - 1);
      NoDuplicatesSize(levels[k - 1]);
    }
  }

  lemma LevelsBeginEmpty(nodes: set<Item>, pairs: seq<Pair>)
    ensures Shallower(nodes, pairs, 0) == {}
  {
    forall x ensures HasChain(pairs, x, 0) {
      HasChainZero(pairs, x);
    }
  }

  lemma ShallowerStep(nodes: set<Item>, pairs: seq<Pair>, levels: seq<seq<Item>>, k: nat)
    requires IsLevelling(nodes, pairs, levels) && k < |levels|
    ensures Shallower(nodes, pairs, k + 1) == Shallower(nodes, pairs, k) + SetOf(levels[k])
    ensures Shallower(nodes, pairs, k) !! SetOf(levels[k])
    ensures NoDuplicates(levels[k])
  {
    hide HasChain;
    forall x | x in nodes
      ensures x in Shallower(nodes, pairs, k + 1) <==> x in Shallower(nodes, pairs, k) || x in levels[k]
    {
      if HasChain(pairs, x, k + 1) {
        HasChainShorter(pairs, x, k, k + 1);
      }
      assert x in levels[k] <==> AtDepth(pairs, x, k);
    }
  }

  lemma ShallowerMeansDepth(nodes: set<Item>, pairs: seq<Pair>, x: Item, k: nat)
    requires Grounded(pairs, x)
    ensures !HasChain(pairs, x, k) <==> Depth(pairs, x) < k
  {
    hide HasChain;
    var d := Depth(pairs, x);
    if d < k && HasChain(pairs, x, k) {
      HasChainShorter(pairs, x, d + 1, k);
    }
    if k <= d {
      HasChainShorter(pairs, x, k, d);
    }
  }

  /** The first Offset(levels, k) items of the answer are exactly the nodes shallower than k. */
  lemma PrefixIsShallower(nodes: set<Item>, pairs: seq<Pair>, answer: seq<Item>, levels: seq<seq<Item>>, k: nat)
    requires IsDependencyOrder(nodes, pairs, answer) && IsLevelling(nodes, pairs, levels) && k <= |levels|
    ensures Offset(levels, k) <= |answer|
    ensures SetOf(answer[..Offset(levels, k)]) == Shallower(nodes, pairs, k)
  {
    hide Depth, HasChain, IsLevelling;
    var m := 0;
    while m < |answer| && Depth(pairs, answer[m]) < k
      invariant m <= |answer|
      invariant forall j :: 0 <= j < m ==> Depth(pairs, answer[j]) < k
    {
      m := m + 1;
    }
    forall x ensures x in answer[..m] <==> x in Shallower(nodes, pairs, k) {
      if x in nodes && !HasChain(pairs, x, k) {
        var d := BoundedChainsHaveDepth(pairs, x, k);
        assert Grounded(pairs, x);
        ShallowerMeansDepth(nodes, pairs, x, k);
        var j :| 0 <= j < |answer| && answer[j] == x;
        assert j < m && answer[..m][j] == x;
      }
      if x in answer[..m] {
        var j :| 0 <= j < m && answer[j] == x;
        ShallowerMeansDepth(nodes, pairs, x, k);
        assert x in answer;
      }
    }
    assert SetOf(answer[..m]) == Shallower(nodes, pairs, k);
    NoDuplicatesSize(answer[..m]);
    ShallowerSize(nodes, pairs, levels, k);
  }

  /** The piece of the answer that lies where level k belongs is level k, up to order. */
  ghost predicate LevelInPlace(answer: seq<Item>, levels: seq<seq<Item>>, k: nat)
    requires k < |levels|
  {
    && Offset(levels, k) <= Offset(levels, k + 1) <= |answer|
    && multiset(answer[Offset(levels, k)..Offset(levels, k + 1)]) == multiset(levels[k])
  }

  /** Cutting the sorted list by depth gives the levels, as collections; and both sorts finish the same items. */
  lemma SortsAgree(nodes: set<Item>, pairs: seq<Pair>, answer: seq<Item>, levels: seq<seq<Item>>)
    requires IsDependencyOrder(nodes, pairs, answer) && IsLevelling(nodes, pairs, levels)
    ensures Offset(levels, |levels|) == |answer|
    ensures forall k :: 0 <= k < |levels| ==> LevelInPlace(answer, levels, k)
    ensures SetOf(answer) == Shallower(nodes, pairs, |levels|)
  {
    hide IsDependencyOrder, IsLevelling, LevelInPlace;
    WholeAnswer(nodes, pairs, answer, levels);
    forall k | 0 <= k < |levels| ensures LevelInPlace(answer, levels, k) {
      OneLevel(nodes, pairs, answer, levels, k);
    }
  }

  /** Whatever the two sorts return for one pair list: both succeed or both fail, the answers agree level by
      level, and on failure the leftover counts and the leftover child lists are the same. */
  lemma OutcomesAgree(pairs: seq<Pair>, sorted: SortOutcome, levelled: LevelsOutcome)
    requires IsSortOutcome(pairs, sorted) && IsLevelsOutcome(Elements(pairs), pairs, LiveChildren(pairs, {}), levelled)
    ensures sorted.Sorted? <==> levelled.AllLevels?
    ensures Offset(levelled.levels, |levelled.levels|) == |sorted.answer|
    ensures forall k :: 0 <= k < |levelled.levels| ==> LevelInPlace(sorted.answer, levelled.levels, k)
    ensures sorted.CycleError? ==>
              sorted.numParents == levelled.numParents && sorted.children == levelled.children
  {
    hide IsDependencyOrder, IsLevelling, HasCycle, LiveCounts, LevelInPlace, Shallower;
    SortsAgree(Elements(pairs), pairs, sorted.answer, levelled.levels);
    var done := SetOf(sorted.answer);
    assert LiveChildren(pairs, {}) - done == LiveChildren(pairs, done);
  }

  lemma OneLevel(nodes: set<Item>, pairs: seq<Pair>, answer: seq<Item>, levels: seq<seq<Item>>, k: nat)
    requires IsDependencyOrder(nodes, pairs, answer) && IsLevelling(nodes, pairs, levels) && k < |levels|
    ensures LevelInPlace(answer, levels, k)
  {
    hide Depth, Shallower, AtDepth, Grounded;
    var i, j := Offset(levels, k), Offset(levels, k + 1);
    PrefixIsShallower(nodes, pairs, answer, levels, k);
    PrefixIsShallower(nodes, pairs, answer, levels, k + 1);
    ShallowerStep(nodes, pairs, levels, k);
    var slice := answer[i..j];
    SameItemsSameMultiset(slice, levels[k]);
  }

  lemma WholeAnswer(nodes: set<Item>, pairs: seq<Pair>, answer: seq<Item>, levels: seq<seq<Item>>)
    requires IsDependencyOrder(nodes, pairs, answer) && IsLevelling(nodes, pairs, levels)
    ensures Offset(levels, |levels|) == |answer|
    ensures SetOf(answer) == Shallower(nodes, pairs, |levels|)
  {
    hide HasChain;
    var n := |levels|;
    PrefixIsShallower(nodes, pairs, answer, levels, n);
    forall x | x in nodes && Grounded(pairs, x) ensures x in Shallower(nodes, pairs, n) {
      ShallowerMeansDepth(nodes, pairs, x, n);
    }
    assert SetOf(answer) == Shallower(nodes, pairs, n) by {
      forall x | x in Shallower(nodes, pairs, n) ensures x in answer {
        assert x in SetOf(answer[..Offset(levels, n)]);
      }
    }
    NoDuplicatesSize(answer);
    NoDuplicatesSize(answer[..Offset(levels, n)]);
  }
}
