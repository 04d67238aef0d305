/** Which dictionaries topsort_levels_core of bindings/python/topsort.py may be given: those whose counts are the
    occurrences in the child lists. */
module Dictionaries {
  import opened DependencyGraph
  import opened Topsort

  ghost function Pick(lists: map<Item, seq<Item>>): Item
    requires lists != map[]
    ensures Pick(lists) in lists
  {
    var p :| p in lists;
    p
  }

  /** How often x is in the child lists. */
  ghost function Occurrences(lists: map<Item, seq<Item>>, x: Item): nat
    decreases |lists|
  {
    if lists == map[] then 0
    else
      var p := Pick(lists);
      multiset(lists[p])[x] + Occurrences(lists - {p}, x)
  }

  /** Every item with a count or a child is counted, as often as it is somebody's child. */
  ghost predicate Consistent(counts: map<Item, nat>, lists: map<Item, seq<Item>>) {
    && (forall p :: p in lists && lists[p] != [] ==> p in counts)
    && (forall p, c :: p in lists && c in lists[p] ==> c in counts)
    && (forall x :: x in counts ==> counts[x] == Occurrences(lists, x))
  }

  /** The pair list has these child lists. */
  ghost predicate Spells(pairs: seq<Pair>, lists: map<Item, seq<Item>>) {
    forall p :: ChildList(pairs, p) == if p in lists then lists[p] else []
  }

  /** With the items of done taken out, what is left in the lists is what is left of the pairs. */
  lemma {:induction false} LiveInIsOccurrences(pairs: seq<Pair>, lists: map<Item, seq<Item>>, done: set<Item>, x: Item)
    requires Spells(pairs, lists)
    ensures LiveIn(pairs, done, x) == Occurrences(lists - done, x)
    decreases |lists - done|
  {
    hide ChildList, LiveIn;
    var rest := lists - done;
    if rest == map[] {
      forall p | (p, x) in pairs ensures p in done {
        ChildListMembers(pairs, p, x);
        assert p in lists ==> p in rest || p in done;
      }
      LiveInZero(pairs, done, x);
    } else {
      var p := Pick(rest);
      assert lists - (done + {p}) == rest - {p};
      LiveInIsOccurrences(pairs, lists, done + {p}, x);
      LiveInRetire(pairs, done, p, x);
    }
  }

  // ----- a pair list for any child lists

  ghost function EdgesFrom(p: Item, children: seq<Item>): seq<Pair> {
    if children == [] then [] else EdgesFrom(p, children[..|children| - 1]) + [(p, children[|children| - 1])]
  }

  ghost function PairsOf(lists: map<Item, seq<Item>>): seq<Pair>
    decreases |lists|
  {
    if lists == map[] then []
    else
      var p := Pick(lists);
      PairsOf(lists - {p}) + EdgesFrom(p, lists[p])
  }

  lemma {:induction false} EdgesSpell(pairs: seq<Pair>, p: Item, children: seq<Item>, q: Item)
    ensures ChildList(pairs + EdgesFrom(p, children), q) == ChildList(pairs, q) + if p == q then children else []
  {
    var edges := EdgesFrom(p, children);
    if children == [] {
      assert pairs + edges == pairs;
    } else {
      var last := |children| - 1;
      EdgesSpell(pairs, p, children[..last], q);
      var before := pairs + EdgesFrom(p, children[..last]);
      assert pairs + edges == before + [(p, children[last])];
      assert (before + [(p, children[last])])[..|before|] == before;
      assert children == children[..last] + [children[last]];
    }
  }

  lemma {:induction false} PairsOfSpells(lists: map<Item, seq<Item>>)
    ensures Spells(PairsOf(lists), lists)
    decreases |lists|
  {
    hide ChildList;
    if lists == map[] {
      forall q ensures ChildList([], q) == [] { NoPairs(q); }
    } else {
      var p := Pick(lists);
      PairsOfSpells(lists - {p});
      forall q ensures ChildList(PairsOf(lists), q) == if q in lists then lists[q] else [] {
        EdgesSpell(PairsOf(lists - {p}), p, lists[p], q);
      }
    }
  }

  lemma NoPairs(q: Item)
    ensures ChildList([], q) == []
  {
  }

  /** Occurrences add up in any order. */
  lemma OccurrencesWithout(lists: map<Item, seq<Item>>, p: Item, x: Item)
    requires p in lists
    ensures Occurrences(lists, x) == multiset(lists[p])[x] + Occurrences(lists - {p}, x)
  {
    hide ChildList, LiveIn, Occurrences;
    var pairs := PairsOf(lists);
    PairsOfSpells(lists);
    assert lists - {} == lists && {} + {p} == {p};
    LiveInIsOccurrences(pairs, lists, {}, x);
    LiveInIsOccurrences(pairs, lists, {p}, x);
    LiveInRetire(pairs, {}, p, x);
  }

  // ----- consistent means tracked

  lemma TrackedBySpelling(counts: map<Item, nat>, lists: map<Item, seq<Item>>, pairs: seq<Pair>)
    requires Consistent(counts, lists) && Spells(pairs, lists)
    ensures Tracks(counts.Keys, pairs, {}, counts, lists)
  {
    hide ChildList, LiveIn;
    forall i | 0 <= i < |pairs| ensures pairs[i].0 in counts && pairs[i].1 in counts {
      var p, c := pairs[i].0, pairs[i].1;
      assert pairs[i] == (p, c) && pairs[i] in pairs;
      ChildListMembers(pairs, p, c);
      assert p in lists && c in lists[p];
    }
    forall x | x in counts ensures counts[x] == LiveIn(pairs, {}, x) {
      assert lists - {} == lists;
      LiveInIsOccurrences(pairs, lists, {}, x);
    }
    assert counts == LiveCounts(counts.Keys, pairs, {});
  }

  lemma PairIsCounted(counts: map<Item, nat>, pairs: seq<Pair>, p: Item, c: Item)
    requires Elements(pairs) <= counts.Keys && c in ChildList(pairs, p)
    ensures p in counts && c in counts
  {
    hide ChildList;
    ChildListMembers(pairs, p, c);
    var i :| 0 <= i < |pairs| && pairs[i] == (p, c);
    assert pairs[i].0 in Elements(pairs) && pairs[i].1 in Elements(pairs);
  }

  lemma TrackedIsConsistent(counts: map<Item, nat>, lists: map<Item, seq<Item>>, pairs: seq<Pair>)
    requires Tracks(counts.Keys, pairs, {}, counts, lists)
    ensures Consistent(counts, lists)
  {
    hide ChildList, LiveIn;
    forall p, c | p in lists && c in lists[p] ensures c in counts {
      PairIsCounted(counts, pairs, p, c);
    }
    forall p | p in lists && lists[p] != [] ensures p in counts {
      PairIsCounted(counts, pairs, p, lists[p][0]);
    }
    forall x | x in counts ensures counts[x] == Occurrences(lists, x) {
      assert lists - {} == lists;
      LiveInIsOccurrences(pairs, lists, {}, x);
    }
  }

  /** Dictionaries describe some pair list exactly if their counts are the occurrences in the child lists. */
  lemma ConsistentIffTracked(counts: map<Item, nat>, lists: map<Item, seq<Item>>)
    ensures Consistent(counts, lists) <==> exists pairs :: Tracks(counts.Keys, pairs, {}, counts, lists)
  {
    hide Consistent, Tracks;
    if Consistent(counts, lists) {
      PairsOfSpells(lists);
      TrackedBySpelling(counts, lists, PairsOf(lists));
    }
    if pairs :| Tracks(counts.Keys, pairs, {}, counts, lists) {
      TrackedIsConsistent(counts, lists, pairs);
    }
  }
}
