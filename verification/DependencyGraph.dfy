/** The pair lists that bindings/python/topsort.py sorts, and what they mean: the counts and
    child lists the algorithms keep, chains of dependencies, depth and cycles. */
module DependencyGraph {
  import opened Sequences

  /** Anything Python can hash. */
  type Item(==, !new)

  /** A dependency (parent, child). */
  type Pair = (Item, Item)

  ghost function Elements(pairs: seq<Pair>): set<Item> {
    (set i | 0 <= i < |pairs| :: pairs[i].0) + (set i | 0 <= i < |pairs| :: pairs[i].1)
  }

  ghost function Parents(pairs: seq<Pair>): set<Item> {
    set i | 0 <= i < |pairs| :: pairs[i].0
  }

  ghost function SetOf(s: seq<Item>): set<Item> {
    set x | x in s
  }

  /** The children of p, one entry per pair, in pair order. */
  ghost function ChildList(pairs: seq<Pair>, p: Item): seq<Item> {
    if pairs == [] then []
    else
      var last := |pairs| - 1;
      ChildList(pairs[..last], p) + (if pairs[last].0 == p then [pairs[last].1] else [])
  }

  /** How many pairs lead into x from a parent that is not yet done. */
  ghost function LiveIn(pairs: seq<Pair>, done: set<Item>, x: Item): nat {
    if pairs == [] then 0
    else
      var last := |pairs| - 1;
      LiveIn(pairs[..last], done, x) + (if pairs[last].1 == x && pairs[last].0 !in done then 1 else 0)
  }

  ghost function LiveCounts(nodes: set<Item>, pairs: seq<Pair>, done: set<Item>): map<Item, nat> {
    map x | x in nodes - done :: LiveIn(pairs, done, x)
  }

  ghost function LiveChildren(pairs: seq<Pair>, done: set<Item>): map<Item, seq<Item>> {
    map p | p in Parents(pairs) - done :: ChildList(pairs, p)
  }

  /** Consecutive items are linked by a pair. */
  ghost predicate IsPath(pairs: seq<Pair>, s: seq<Item>) {
    forall i :: 0 < i < |s| ==> (s[i - 1], s[i]) in pairs
  }

  ghost predicate IsCycle(pairs: seq<Pair>, c: seq<Item>) {
    |c| > 0 && IsPath(pairs, c) && (c[|c| - 1], c[0]) in pairs
  }

  ghost predicate HasCycle(pairs: seq<Pair>) {
    exists c :: IsCycle(pairs, c)
  }

  ghost predicate IsChainInto(pairs: seq<Pair>, s: seq<Item>, x: Item) {
    |s| > 0 && s[|s| - 1] == x && IsPath(pairs, s)
  }

  /** Some chain of n dependencies ends in x. */
  ghost predicate HasChain(pairs: seq<Pair>, x: Item, n: nat) {
    exists s :: IsChainInto(pairs, s, x) && |s| == n + 1
  }

  /** The longest chain into x has exactly k dependencies. */
  ghost predicate AtDepth(pairs: seq<Pair>, x: Item, k: nat) {
    HasChain(pairs, x, k) && !HasChain(pairs, x, k + 1)
  }

  /** Chains into x are bounded: nothing above x lies on a cycle. */
  ghost predicate Grounded(pairs: seq<Pair>, x: Item) {
    exists k: nat :: AtDepth(pairs, x, k)
  }

  ghost function Depth(pairs: seq<Pair>, x: Item): (k: nat)
    requires Grounded(pairs, x)
  {
    var k: nat :| AtDepth(pairs, x, k);
    k
  }

  // ----- counts and child lists

  lemma {:induction false} ChildListMembers(pairs: seq<Pair>, p: Item, c: Item)
    ensures c in ChildList(pairs, p) <==> (p, c) in pairs
  {
    if pairs != [] {
      var last := |pairs| - 1;
      assert pairs == pairs[..last] + [pairs[last]];
      ChildListMembers(pairs[..last], p, c);
    }
  }

  /** Finishing p takes exactly p's edges out of the live counts. */
  lemma {:induction false} LiveInRetire(pairs: seq<Pair>, done: set<Item>, p: Item, x: Item)
    requires p !in done
    ensures LiveIn(pairs, done, x) == LiveIn(pairs, done + {p}, x) + multiset(ChildList(pairs, p))[x]
  {
    if pairs != [] {
      LiveInRetire(pairs[..|pairs| - 1], done, p, x);
    }
  }

  lemma {:induction false} LiveInZero(pairs: seq<Pair>, done: set<Item>, x: Item)
    ensures LiveIn(pairs, done, x) == 0 <==> forall p :: (p, x) in pairs ==> p in done
  {
    if pairs != [] {
      var last := |pairs| - 1;
      assert pairs == pairs[..last] + [pairs[last]];
      LiveInZero(pairs[..last], done, x);
      assert forall p :: (p, x) in pairs <==> (p, x) in pairs[..last] || (p, x) == pairs[last];
      if pairs[last].1 == x {
        assert (pairs[last].0, x) in pairs;
      }
    }
  }

  // ----- chains and depth

  lemma HasChainZero(pairs: seq<Pair>, x: Item)
    ensures HasChain(pairs, x, 0)
  {
    assert IsChainInto(pairs, [x], x);
  }

  lemma HasChainStep(pairs: seq<Pair>, x: Item, n: nat)
    ensures HasChain(pairs, x, n + 1) <==> exists p :: (p, x) in pairs && HasChain(pairs, p, n)
  {
    if HasChain(pairs, x, n + 1) {
      var s :| IsChainInto(pairs, s, x) && |s| == n + 2;
      assert IsChainInto(pairs, s[..n + 1], s[n]);
      assert (s[n], x) in pairs && HasChain(pairs, s[n], n);
    }
    if p :| (p, x) in pairs && HasChain(pairs, p, n) {
      var s :| IsChainInto(pairs, s, p) && |s| == n + 1;
      assert IsChainInto(pairs, s + [x], x);
    }
  }

  /** Dropping the first dependencies of a chain leaves a chain. */
  lemma HasChainShorter(pairs: seq<Pair>, x: Item, m: nat, n: nat)
    requires m <= n && HasChain(pairs, x, n)
    ensures HasChain(pairs, x, m)
  {
    var s :| IsChainInto(pairs, s, x) && |s| == n + 1;
    assert IsChainInto(pairs, s[n - m..], x);
  }

  lemma DepthUnique(pairs: seq<Pair>, x: Item, j: nat, k: nat)
    requires AtDepth(pairs, x, j) && AtDepth(pairs, x, k)
    ensures j == k
  {
    if j < k {
      HasChainShorter(pairs, x, j + 1, k);
    } else if k < j {
      HasChainShorter(pairs, x, k + 1, j);
    }
  }

  /** An item whose chains are shorter than n has a depth below n. */
  lemma {:induction false} BoundedChainsHaveDepth(pairs: seq<Pair>, x: Item, n: nat) returns (k: nat)
    requires !HasChain(pairs, x, n)
    ensures k < n && AtDepth(pairs, x, k)
  {
    HasChainZero(pairs, x);
    if HasChain(pairs, x, n - 1) {
      k := n - 1;
    } else {
      k := BoundedChainsHaveDepth(pairs, x, n - 1);
    }
  }

  /** Depth of x from the depths of its parents. */
  lemma DepthAbove(pairs: seq<Pair>, x: Item, k: nat, top: Item)
    requires (top, x) in pairs && AtDepth(pairs, top, k)
    requires forall p :: (p, x) in pairs ==> !HasChain(pairs, p, k + 1)
    ensures AtDepth(pairs, x, k + 1)
  {
    HasChainStep(pairs, x, k);
    HasChainStep(pairs, x, k + 1);
  }

  // ----- cycles

  lemma {:induction false} ChainsRoundACycle(pairs: seq<Pair>, c: seq<Item>, i: nat, n: nat)
    requires IsCycle(pairs, c) && i < |c|
    ensures HasChain(pairs, c[i], n)
    decreases n
  {
    if n == 0 {
      HasChainZero(pairs, c[i]);
    } else {
      var j := if i == 0 then |c| - 1 else i - 1;
      ChainsRoundACycle(pairs, c, j, n - 1);
      HasChainStep(pairs, c[i], n - 1);
    }
  }

  lemma CyclesAreNotGrounded(pairs: seq<Pair>, c: seq<Item>, i: nat)
    requires IsCycle(pairs, c) && i < |c|
    ensures !Grounded(pairs, c[i])
  {
    if k: nat :| AtDepth(pairs, c[i], k) {
      ChainsRoundACycle(pairs, c, i, k + 1);
    }
  }

  ghost predicate HasParentIn(pairs: seq<Pair>, stuck: set<Item>, x: Item) {
    exists p :: p in stuck && (p, x) in pairs
  }

  /** Every item of the set has a parent in the set. */
  ghost predicate ParentClosed(pairs: seq<Pair>, stuck: set<Item>) {
    forall x :: x in stuck ==> HasParentIn(pairs, stuck, x)
  }

  /** Walking from parent to parent inside a parent-closed set runs into a cycle without repetition. */
  lemma {:induction false} WalkBack(pairs: seq<Pair>, stuck: set<Item>, s: seq<Item>) returns (c: seq<Item>)
    requires ParentClosed(pairs, stuck)
    requires |s| > 0 && IsPath(pairs, s) && NoDuplicates(s) && SetOf(s) <= stuck
    ensures IsCycle(pairs, c) && NoDuplicates(c) && SetOf(c) <= stuck
    decreases stuck - SetOf(s)
  {
    assert s[0] in SetOf(s);
    assert HasParentIn(pairs, stuck, s[0]);
    var p :| p in stuck && (p, s[0]) in pairs;
    if p in s {
      var j :| 0 <= j < |s| && s[j] == p;
      c := s[..j + 1];
      assert SetOf(c) <= SetOf(s);
    } else {
      var s' := [p] + s;
      assert SetOf(s') == SetOf(s) + {p};
      c := WalkBack(pairs, stuck, s');
    }
  }

  lemma {:induction false} ParentClosedNotGrounded(pairs: seq<Pair>, stuck: set<Item>, x: Item, n: nat)
    requires ParentClosed(pairs, stuck) && x in stuck
    ensures HasChain(pairs, x, n)
  {
    if n == 0 {
      HasChainZero(pairs, x);
    } else {
      assert HasParentIn(pairs, stuck, x);
      var p :| p in stuck && (p, x) in pairs;
      ParentClosedNotGrounded(pairs, stuck, p, n - 1);
      HasChainStep(pairs, x, n - 1);
    }
  }

  /** The list has a cycle exactly when some element has unboundedly long chains above it. */
  lemma CyclicIffUngrounded(pairs: seq<Pair>, stuck: set<Item>)
    requires ParentClosed(pairs, stuck)
    requires forall x :: x in Elements(pairs) && x !in stuck ==> Grounded(pairs, x)
    ensures HasCycle(pairs) <==> stuck != {}
    ensures stuck != {} ==> exists c :: IsCycle(pairs, c) && SetOf(c) <= stuck
  {
    if x :| x in stuck {
      var c := WalkBack(pairs, stuck, [x]);
    }
    if c :| IsCycle(pairs, c) {
      CyclesAreNotGrounded(pairs, c, 0);
      assert (c[|c| - 1], c[0]) in pairs;
      assert c[0] in Elements(pairs);
    }
  }

  /** The keys of a dictionary, in whatever order it iterates. */
  method Keys<V>(m: map<Item, V>) returns (keys: seq<Item>)
    ensures NoDuplicates(keys)
    ensures forall x :: x in keys <==> x in m
  {
    keys := [];
    var rest := m.Keys;
    while rest != {}
      invariant NoDuplicates(keys) && rest <= m.Keys
      invariant forall x :: x in keys <==> x in m && x !in rest
    {
      var x :| x in rest;
      keys, rest := keys + [x], rest - {x};
    }
  }
}
