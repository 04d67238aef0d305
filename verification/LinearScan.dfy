/** Lists in order, and what a linear scan of them finds. */
module LinearScan {

  /** The reference: what every element is asked, one after the other. */
  function Filter<T>(s: seq<T>, p: T -> bool): (r: seq<T>)
    ensures |r| <= |s|
  {
    if s == [] then [] else
      var r := Filter(s[..|s| - 1], p);
      if p(s[|s| - 1]) then r + [s[|s| - 1]] else r
  }

  lemma FilterAppend<T>(s: seq<T>, x: T, p: T -> bool)
    ensures Filter(s + [x], p) == if p(x) then Filter(s, p) + [x] else Filter(s, p)
  {
    assert (s + [x])[..|s|] == s;
  }

  ghost predicate PassBetween<T>(s: seq<T>, p: T -> bool, lo: nat, hi: nat) {
    forall i :: 0 <= i < |s| ==> (p(s[i]) <==> lo <= i < hi)
  }

  lemma ShorterPass<T>(s: seq<T>, p: T -> bool, lo: nat, hi: nat)
    requires lo <= hi <= |s| && s != [] && PassBetween(s, p, lo, hi)
    ensures hi < |s| ==> !p(s[|s| - 1]) && PassBetween(s[..|s| - 1], p, lo, hi)
    ensures lo < hi == |s| ==> p(s[|s| - 1]) && PassBetween(s[..|s| - 1], p, lo, hi - 1)
    ensures lo == hi == |s| ==> !p(s[|s| - 1]) && PassBetween(s[..|s| - 1], p, 0, 0)
  {
    assert forall i :: 0 <= i < |s| - 1 ==> s[..|s| - 1][i] == s[i];
  }

  lemma {:induction false} FilterIsSlice<T>(s: seq<T>, p: T -> bool, lo: nat, hi: nat)
    requires lo <= hi <= |s| && PassBetween(s, p, lo, hi)
    ensures Filter(s, p) == s[lo..hi]
  {
    hide Filter, PassBetween;
    if s == [] {
    } else {
      var last := |s| - 1;
      var init := s[..last];
      assert s == init + [s[last]];
      FilterAppend(init, s[last], p);
      ShorterPass(s, p, lo, hi);
      if hi < |s| {
        FilterIsSlice(init, p, lo, hi);
        assert s[lo..hi] == init[lo..hi];
      } else if lo < hi {
        FilterIsSlice(init, p, lo, last);
        assert s[lo..hi] == init[lo..last] + [s[last]];
      } else {
        FilterIsSlice(init, p, 0, 0);
      }
    }
  }

  /** Of two questions one of which implies the other, the same elements pass exactly when both always agree. */
  lemma {:induction false} SameFilter<T>(s: seq<T>, p: T -> bool, q: T -> bool)
    requires forall i :: 0 <= i < |s| && p(s[i]) ==> q(s[i])
    ensures |Filter(s, p)| <= |Filter(s, q)|
    ensures Filter(s, p) == Filter(s, q) <==> forall i :: 0 <= i < |s| && q(s[i]) ==> p(s[i])
  {
    if s != [] {
      var last := |s| - 1;
      SameFilter(s[..last], p, q);
      if q(s[last]) && p(s[last]) {
        var a, b := Filter(s[..last], p), Filter(s[..last], q);
        assert Filter(s, p) == a + [s[last]] && Filter(s, q) == b + [s[last]];
        assert a + [s[last]] == b + [s[last]] ==> (a + [s[last]])[..|a|] == (b + [s[last]])[..|b|];
      }
    }
  }

  lemma {:induction false} TwoPass<T>(s: seq<T>, p: T -> bool, i: nat, j: nat)
    requires i < j < |s| && p(s[i]) && p(s[j])
    ensures |Filter(s, p)| >= 2
  {
    var last := |s| - 1;
    if j < last {
      TwoPass(s[..last], p, i, j);
    } else {
      OnePasses(s[..last], p, i);
    }
  }

  lemma {:induction false} OnePasses<T>(s: seq<T>, p: T -> bool, i: nat)
    requires i < |s| && p(s[i])
    ensures |Filter(s, p)| >= 1
  {
    if i < |s| - 1 {
      OnePasses(s[..|s| - 1], p, i);
    }
  }

  lemma {:induction false} FilterMembers<T>(s: seq<T>, p: T -> bool, x: T)
    requires x in Filter(s, p)
    ensures p(x)
  {
    if x in Filter(s[..|s| - 1], p) {
      FilterMembers(s[..|s| - 1], p, x);
    }
  }

  /** s[a:b] of Python for indices that are not negative */
  function Slice<T>(s: seq<T>, a: nat, b: nat): seq<T> {
    var hi := if b < |s| then b else |s|;
    if a <= hi then s[a..hi] else []
  }

  // ----- list.sort with a comparison by key

  ghost predicate InOrder<T>(s: seq<T>, key: T -> int) {
    forall i, j :: 0 <= i < j < |s| ==> key(s[i]) <= key(s[j])
  }

  ghost predicate Pairwise<T>(s: seq<T>, rel: (T, T) -> bool) {
    forall i, j :: 0 <= i < j < |s| ==> rel(s[i], s[j])
  }

  ghost predicate Symmetric<T(!new)>(rel: (T, T) -> bool) {
    forall a, b :: rel(a, b) <==> rel(b, a)
  }

  function Insert<T>(s: seq<T>, x: T, key: T -> int): (r: seq<T>)
    ensures multiset(r) == multiset(s) + multiset{x}
  {
    if s == [] || key(s[|s| - 1]) <= key(x) then s + [x] else
      assert s == s[..|s| - 1] + [s[|s| - 1]];
      Insert(s[..|s| - 1], x, key) + [s[|s| - 1]]
  }

  /** The stable sort. */
  function Sorted<T>(s: seq<T>, key: T -> int): (r: seq<T>)
    ensures multiset(r) == multiset(s)
  {
    if s == [] then [] else
      assert s == s[..|s| - 1] + [s[|s| - 1]];
      Insert(Sorted(s[..|s| - 1], key), s[|s| - 1], key)
  }

  lemma InsertMembers<T>(s: seq<T>, x: T, key: T -> int)
    ensures forall i :: 0 <= i < |Insert(s, x, key)| ==> Insert(s, x, key)[i] in s || Insert(s, x, key)[i] == x
  {
    hide Insert;
    var r := Insert(s, x, key);
    forall i | 0 <= i < |r| ensures r[i] in s || r[i] == x {
      assert r[i] in multiset(r);
      assert r[i] in multiset(s) || r[i] == x;
    }
  }

  lemma AppendInOrder<T>(s: seq<T>, x: T, key: T -> int)
    requires InOrder(s, key) && forall i :: 0 <= i < |s| ==> key(s[i]) <= key(x)
    ensures InOrder(s + [x], key)
  {
  }

  lemma InOrderParts<T>(s: seq<T>, key: T -> int)
    requires s != [] && InOrder(s, key)
    ensures InOrder(s[..|s| - 1], key)
    ensures forall i :: 0 <= i < |s| ==> key(s[i]) <= key(s[|s| - 1])
  {
  }

  lemma {:induction false} InsertInOrder<T>(s: seq<T>, x: T, key: T -> int)
    requires InOrder(s, key)
    ensures InOrder(Insert(s, x, key), key)
  {
    hide InOrder;
    if s == [] {
      AppendInOrder([], x, key);
    } else {
      var last := |s| - 1;
      InOrderParts(s, key);
      if key(s[last]) <= key(x) {
        AppendInOrder(s, x, key);
      } else {
        InsertInOrder(s[..last], x, key);
        InsertMembers(s[..last], x, key);
        AppendInOrder(Insert(s[..last], x, key), s[last], key);
      }
    }
  }

  lemma {:induction false} SortedInOrder<T>(s: seq<T>, key: T -> int)
    ensures InOrder(Sorted(s, key), key)
  {
    if s != [] {
      SortedInOrder(s[..|s| - 1], key);
      InsertInOrder(Sorted(s[..|s| - 1], key), s[|s| - 1], key);
    }
  }

  /** The elements with this key, in their order. */
  ghost function WithKey<T>(s: seq<T>, key: T -> int, k: int): seq<T> {
    Filter(s, (e: T) => key(e) == k)
  }

  lemma WithKeyAppend<T>(s: seq<T>, x: T, key: T -> int, k: int)
    ensures WithKey(s + [x], key, k) == WithKey(s, key, k) + if key(x) == k then [x] else []
  {
    FilterAppend(s, x, (e: T) => key(e) == k);
  }

  lemma {:induction false} InsertIsStable<T>(s: seq<T>, x: T, key: T -> int, k: int)
    ensures WithKey(Insert(s, x, key), key, k) == WithKey(s + [x], key, k)
  {
    hide WithKey;
    if s != [] && key(s[|s| - 1]) > key(x) {
      var init, last := s[..|s| - 1], s[|s| - 1];
      InsertIsStable(init, x, key, k);
      assert s == init + [last];
      WithKeyAppend(Insert(init, x, key), last, key, k);
      WithKeyAppend(init, x, key, k);
      WithKeyAppend(init, last, key, k);
      WithKeyAppend(s, x, key, k);
    }
  }

  /** Elements with the same key keep their order. */
  lemma {:induction false} SortedIsStable<T>(s: seq<T>, key: T -> int, k: int)
    ensures WithKey(Sorted(s, key), key, k) == WithKey(s, key, k)
  {
    hide WithKey, Insert;
    if s != [] {
      var init, last := s[..|s| - 1], s[|s| - 1];
      SortedIsStable(init, key, k);
      InsertIsStable(Sorted(init, key), last, key, k);
      WithKeyAppend(Sorted(init, key), last, key, k);
      WithKeyAppend(init, last, key, k);
      assert s == init + [last];
    }
  }

  lemma {:induction false} InsertPairwise<T(!new)>(s: seq<T>, x: T, key: T -> int, rel: (T, T) -> bool)
    requires Symmetric(rel) && Pairwise(s, rel) && forall i :: 0 <= i < |s| ==> rel(s[i], x)
    ensures Pairwise(Insert(s, x, key), rel)
  {
    if s != [] && key(s[|s| - 1]) > key(x) {
      var last := |s| - 1;
      InsertPairwise(s[..last], x, key, rel);
      var r := Insert(s[..last], x, key);
      InsertMembers(s[..last], x, key);
    }
  }

  lemma {:induction false} SortedPairwise<T(!new)>(s: seq<T>, key: T -> int, rel: (T, T) -> bool)
    requires Symmetric(rel) && Pairwise(s, rel)
    ensures Pairwise(Sorted(s, key), rel)
  {
    if s != [] {
      var last := |s| - 1;
      var r := Sorted(s[..last], key);
      SortedPairwise(s[..last], key, rel);
      forall i | 0 <= i < |r| ensures rel(r[i], s[last]) {
        assert r[i] in multiset(r);
        assert r[i] in multiset(s[..last]);
      }
      InsertPairwise(r, s[last], key, rel);
    }
  }
}
