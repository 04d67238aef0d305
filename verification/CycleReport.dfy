/** What find_cycles is for in bindings/python/topsort.py: explaining a CycleError. */
module CycleReport {
  import opened DependencyGraph
  import opened Sequences
  import opened Topsort
  import opened FindCycles

  /** The child lists in a CycleError keep every cycle of the sorted pairs and add none. */
  lemma LeftoversKeepTheCycles(pairs: seq<Pair>, r: SortOutcome, c: seq<Item>)
    requires IsSortOutcome(pairs, r) && r.CycleError?
    ensures ElementaryCycle(r.children, c) <==> IsCycle(pairs, c) && NoDuplicates(c)
  {
    hide HasCycle, LiveIn, ParentClosed, ChildList;
    if IsCycle(pairs, c) && NoDuplicates(c) {
      forall i | 0 < i < |c| ensures Edge(r.children, c[i - 1], c[i]) {
        EdgeIsLeft(pairs, r, c, i - 1);
      }
      EdgeIsLeft(pairs, r, c, |c| - 1);
    }
    if ElementaryCycle(r.children, c) {
      forall a, b | Edge(r.children, a, b) ensures (a, b) in pairs {
        ChildListMembers(pairs, a, b);
      }
    }
  }

  /** An edge of a cycle survives in the leftover child lists. */
  lemma EdgeIsLeft(pairs: seq<Pair>, r: SortOutcome, c: seq<Item>, i: nat)
    requires IsSortOutcome(pairs, r) && r.CycleError? && IsCycle(pairs, c) && i < |c|
    ensures Edge(r.children, c[i], if i + 1 < |c| then c[i + 1] else c[0])
  {
    hide HasCycle, LiveIn, ParentClosed, AtDepth, Depth, ChildList, LiveCounts;
    var a, b := c[i], if i + 1 < |c| then c[i + 1] else c[0];
    CyclesAreNotGrounded(pairs, c, i);
    assert (a, b) in pairs;
    ChildListMembers(pairs, a, b);
    var j :| 0 <= j < |pairs| && pairs[j] == (a, b);
    assert pairs[j].0 in Parents(pairs);
    assert a !in r.answer && a !in SetOf(r.answer);
  }

  /** Any cycle of pairs contains one without repetition. */
  lemma CycleWithoutRepetition(pairs: seq<Pair>, c: seq<Item>) returns (e: seq<Item>)
    requires IsCycle(pairs, c)
    ensures IsCycle(pairs, e) && NoDuplicates(e) && SetOf(e) <= SetOf(c)
  {
    forall x | x in SetOf(c) ensures HasParentIn(pairs, SetOf(c), x) {
      var i :| 0 <= i < |c| && c[i] == x;
      assert c[if i == 0 then |c| - 1 else i - 1] in SetOf(c);
    }
    e := WalkBack(pairs, SetOf(c), [c[0]]);
  }

  /** topsort fails on a pair list exactly when find_cycles reports something for its child lists. */
  lemma SortFailsIffCyclesFound(pairs: seq<Pair>, cycles: seq<seq<Item>>)
    requires SoundCycles(LiveChildren(pairs, {}), cycles)
    requires forall c :: ElementaryCycle(LiveChildren(pairs, {}), c) ==> Known(cycles, c)
    ensures HasCycle(pairs) <==> cycles != []
  {
    hide Known;
    var g := LiveChildren(pairs, {});
    forall a, b ensures Edge(g, a, b) <==> (a, b) in pairs {
      EdgesArePairs(pairs, a, b);
    }
    if c :| IsCycle(pairs, c) {
      var e := CycleWithoutRepetition(pairs, c);
      assert ElementaryCycle(g, e);
      KnownIsNotEmpty(cycles, e);
    }
    if cycles != [] {
      assert ElementaryCycle(g, cycles[0]);
      assert IsCycle(pairs, cycles[0]);
    }
  }

  lemma KnownIsNotEmpty(cycles: seq<seq<Item>>, c: seq<Item>)
    requires Known(cycles, c)
    ensures cycles != []
  {
  }

  lemma EdgesArePairs(pairs: seq<Pair>, a: Item, b: Item)
    ensures Edge(LiveChildren(pairs, {}), a, b) <==> (a, b) in pairs
  {
    ChildListMembers(pairs, a, b);
    if (a, b) in pairs {
      var j :| 0 <= j < |pairs| && pairs[j] == (a, b);
      assert pairs[j].0 in Parents(pairs);
    }
  }

  /** After a CycleError, running find_cycles on the child lists it carries reports every cycle of the
      original pairs exactly once up to rotation, and there is at least one. */
  lemma ReportIsComplete(pairs: seq<Pair>, r: SortOutcome, cycles: seq<seq<Item>>)
    requires IsSortOutcome(pairs, r) && r.CycleError?
    requires SoundCycles(r.children, cycles) && DistinctCycles(cycles)
    requires forall c :: ElementaryCycle(r.children, c) ==> Known(cycles, c)
    ensures cycles != []
    ensures forall i :: 0 <= i < |cycles| ==> IsCycle(pairs, cycles[i])
    ensures forall c :: IsCycle(pairs, c) && NoDuplicates(c) ==> Known(cycles, c)
  {
    hide Known, IsSortOutcome, DistinctCycles, NoDuplicates, IsCycle, ElementaryCycle;
    forall c ensures ElementaryCycle(r.children, c) <==> IsCycle(pairs, c) && NoDuplicates(c) {
      LeftoversKeepTheCycles(pairs, r, c);
    }
    assert exists c :: IsCycle(pairs, c) by {
      FailureHasCycle(pairs, r);
    }
    var c :| IsCycle(pairs, c);
    var e := CycleWithoutRepetition(pairs, c);
    KnownIsNotEmpty(cycles, e);
  }

  lemma FailureHasCycle(pairs: seq<Pair>, r: SortOutcome)
    requires IsSortOutcome(pairs, r) && r.CycleError?
    ensures exists c :: IsCycle(pairs, c)
  {
    hide IsCycle, IsDependencyOrder, ParentClosed;
  }
}
