/** The order in which topsort of bindings/python/topsort.py lists the items: the work list is a queue. */
module QueueOrder {
  import opened Sequences
  import opened DependencyGraph
  import opened LinearScan

  /** Position j was freed by position a, through its b-th child: no parent stands behind a, and the item is no later
      child of a. */
  ghost predicate FreedBy(pairs: seq<Pair>, answer: seq<Item>, j: nat, a: nat, b: nat)
    requires j < |answer|
  {
    && a < j && b < |ChildList(pairs, answer[a])| && ChildList(pairs, answer[a])[b] == answer[j]
    && answer[j] !in ChildList(pairs, answer[a])[b + 1..]
    && forall p :: (p, answer[j]) in pairs ==> p in answer[..a + 1]
  }

  ghost predicate Earlier(o: (nat, nat), o': (nat, nat)) {
    o.0 < o'.0 || (o.0 == o'.0 && o.1 < o'.1)
  }

  /** The first m items have no parents; the origins of the others increase. */
  ghost predicate Queue(pairs: seq<Pair>, answer: seq<Item>, m: nat, origins: seq<(nat, nat)>) {
    && |answer| == m + |origins|
    && (forall j, p :: 0 <= j < m ==> (p, answer[j]) !in pairs)
    && (forall j :: 0 <= j < |origins| ==> FreedBy(pairs, answer, m + j, origins[j].0, origins[j].1))
    && (forall j, k :: 0 <= j < k < |origins| ==> Earlier(origins[j], origins[k]))
  }

  /** First the items without parents, then the others by the position of their last parent, and below one parent by the
      place in its child list. */
  ghost predicate InQueueOrder(pairs: seq<Pair>, answer: seq<Item>) {
    exists m, origins :: Queue(pairs, answer, m, origins)
  }

  /** Everything so far was freed before the b-th child of position i. */
  ghost predicate QueuedBefore(origins: seq<(nat, nat)>, i: nat, b: nat) {
    forall j :: 0 <= j < |origins| ==> Earlier(origins[j], (i, b))
  }

  lemma QueueBegins(pairs: seq<Pair>, answer: seq<Item>)
    requires forall j, p :: 0 <= j < |answer| ==> (p, answer[j]) !in pairs
    ensures Queue(pairs, answer, |answer|, []) && QueuedBefore([], 0, 0)
  {
  }

  /** With the next child, or the next parent. */
  lemma StillBefore(origins: seq<(nat, nat)>, i: nat, b: nat)
    requires QueuedBefore(origins, i, b)
    ensures QueuedBefore(origins, i, b + 1) && QueuedBefore(origins, i + 1, 0)
  {
  }

  lemma FreedByPrefix(pairs: seq<Pair>, answer: seq<Item>, child: Item, j: nat, a: nat, b: nat)
    requires j < |answer| && FreedBy(pairs, answer, j, a, b)
    ensures FreedBy(pairs, answer + [child], j, a, b)
  {
    hide ChildList;
    assert (answer + [child])[..a + 1] == answer[..a + 1];
  }

  /** The b-th child of position i is freed now. */
  lemma QueueGrows(pairs: seq<Pair>, answer: seq<Item>, m: nat, origins: seq<(nat, nat)>, i: nat, b: nat)
    requires i < |answer| && b < |ChildList(pairs, answer[i])|
    requires Queue(pairs, answer, m, origins) && QueuedBefore(origins, i, b)
    requires var child := ChildList(pairs, answer[i])[b];
             && child !in ChildList(pairs, answer[i])[b + 1..]
             && forall p :: (p, child) in pairs ==> p in answer[..i + 1]
    ensures Queue(pairs, answer + [ChildList(pairs, answer[i])[b]], m, origins + [(i, b)])
    ensures QueuedBefore(origins + [(i, b)], i, b + 1)
  {
    hide ChildList;
    var child := ChildList(pairs, answer[i])[b];
    var more := answer + [child];
    assert more[..i + 1] == answer[..i + 1] && more[|answer|] == child && more[i] == answer[i];
    assert FreedBy(pairs, more, |answer|, i, b);
    forall j | 0 <= j < |origins| ensures FreedBy(pairs, more, m + j, origins[j].0, origins[j].1) {
      FreedByPrefix(pairs, answer, child, m + j, origins[j].0, origins[j].1);
    }
    hide FreedBy;
  }

  /** The origin of a position is determined by the answer. */
  lemma OneOrigin(pairs: seq<Pair>, answer: seq<Item>, j: nat, a: nat, b: nat, c: nat, d: nat)
    requires NoDuplicates(answer) && j < |answer| && FreedBy(pairs, answer, j, a, b) && FreedBy(pairs, answer, j, c, d)
    ensures a == c && b == d
  {
    LastParent(pairs, answer, j, a, b, c, d);
    LastParent(pairs, answer, j, c, d, a, b);
    var list := ChildList(pairs, answer[a]);
    if b < d {
      InTheTail(list, b, d);
    } else if d < b {
      InTheTail(list, d, b);
    }
  }

  lemma InTheTail(list: seq<Item>, b: nat, d: nat)
    requires b < d < |list|
    ensures list[d] in list[b + 1..]
  {
    assert list[b + 1..][d - b - 1] == list[d];
  }

  lemma LastParent(pairs: seq<Pair>, answer: seq<Item>, j: nat, a: nat, b: nat, c: nat, d: nat)
    requires NoDuplicates(answer) && j < |answer| && FreedBy(pairs, answer, j, a, b) && FreedBy(pairs, answer, j, c, d)
    ensures c <= a
  {
    ChildListMembers(pairs, answer[c], answer[j]);
    assert answer[c] in answer[..a + 1];
    var k :| 0 <= k <= a && answer[..a + 1][k] == answer[c];
    assert answer[k] == answer[c];
  }

  /** A parent's children in pair order, and the parents counted with multiplicity. */
  lemma {:induction false} ChildrenInPairOrder(pairs: seq<Pair>, p: Item)
    ensures |ChildList(pairs, p)| == |Filter(pairs, (q: Pair) => q.0 == p)|
    ensures forall i :: 0 <= i < |ChildList(pairs, p)| ==>
              ChildList(pairs, p)[i] == Filter(pairs, (q: Pair) => q.0 == p)[i].1
  {
    if pairs != [] {
      ChildrenInPairOrder(pairs[..|pairs| - 1], p);
    }
  }

  lemma {:induction false} CountsPairs(pairs: seq<Pair>, x: Item)
    ensures LiveIn(pairs, {}, x) == |Filter(pairs, (q: Pair) => q.1 == x)|
  {
    if pairs != [] {
      CountsPairs(pairs[..|pairs| - 1], x);
    }
  }
}
