/** permutations of bindings/python/rad_util.py. */
module Permutations {
  import opened Sequences

  function Factorial(n: nat): nat {
    if n == 0 then 1 else n * Factorial(n - 1)
  }

  /** sub with item put in before position i */
  function InsertAt<T>(sub: seq<T>, item: T, i: nat): (r: seq<T>)
    requires i <= |sub|
    ensures |r| == |sub| + 1
  {
    sub[..i] + [item] + sub[i..]
  }

  ghost function Insertions<T>(sub: seq<T>, item: T, n: nat): (r: seq<seq<T>>)
    requires n <= |sub| + 1
    ensures |r| == n
  {
    seq(n, i requires 0 <= i < n => InsertAt(sub, item, i))
  }

  ghost predicate AllOfLength<T>(subs: seq<seq<T>>, n: nat) {
    forall k :: 0 <= k < |subs| ==> |subs[k]| == n
  }

  ghost function InsertEverywhere<T>(subs: seq<seq<T>>, item: T, n: nat): (r: seq<seq<T>>)
    requires AllOfLength(subs, n)
    ensures |r| == |subs| * (n + 1) && AllOfLength(r, n + 1)
  {
    if subs == [] then [] else
      var last := |subs| - 1;
      InsertEverywhere(subs[..last], item, n) + Insertions(subs[last], item, n + 1)
  }

  ghost function Orders<T>(s: seq<T>): (r: seq<seq<T>>)
    ensures AllOfLength(r, |s|)
  {
    if |s| <= 1 then [s] else InsertEverywhere(Orders(s[1..]), s[0], |s| - 1)
  }

  method Permutations<T>(input: seq<T>) returns (out: seq<seq<T>>)
    ensures out == Orders(input)
    decreases |input|
  {
    hide InsertAt;
    out := [];
    if |input| > 1 {
      var item := input[0];
      var subLists := Permutations(input[1..]);
      for k := 0 to |subLists|
        invariant out == InsertEverywhere(subLists[..k], item, |input| - 1)
      {
        assert subLists[..k + 1][..k] == subLists[..k];
        for i := 0 to |input|
          invariant out == InsertEverywhere(subLists[..k], item, |input| - 1) + Insertions(subLists[k], item, i)
        {
          out := out + [InsertAt(subLists[k], item, i)];
        }
      }
      assert subLists[..|subLists|] == subLists;
    } else {
      out := [input];
    }
  }

  // ----- what is in the list

  lemma {:induction false} InsertEverywhereMembers<T>(subs: seq<seq<T>>, item: T, n: nat, p: seq<T>)
    requires AllOfLength(subs, n)
    ensures p in InsertEverywhere(subs, item, n) <==>
            exists sub, i: nat :: sub in subs && i <= n && |sub| == n && p == InsertAt(sub, item, i)
  {
    hide InsertAt;
    if subs != [] {
      var last := |subs| - 1;
      InsertEverywhereMembers(subs[..last], item, n, p);
      assert subs == subs[..last] + [subs[last]];
      forall i: nat | i <= n ensures InsertAt(subs[last], item, i) in Insertions(subs[last], item, n + 1) {
        assert Insertions(subs[last], item, n + 1)[i] == InsertAt(subs[last], item, i);
      }
    }
  }

  lemma InsertKeepsItems<T>(sub: seq<T>, item: T, i: nat)
    requires i <= |sub|
    ensures multiset(InsertAt(sub, item, i)) == multiset{item} + multiset(sub)
  {
    assert sub == sub[..i] + sub[i..];
  }

  function Without<T>(p: seq<T>, i: nat): (q: seq<T>)
    requires i < |p|
    ensures |q| == |p| - 1 && InsertAt(q, p[i], i) == p
  {
    p[..i] + p[i + 1..]
  }

  lemma ShortSequence<T>(p: seq<T>, s: seq<T>)
    requires |s| <= 1
    ensures multiset(p) == multiset(s) <==> p == s
  {
    if multiset(p) == multiset(s) {
      assert |multiset(p)| == |p| && |multiset(s)| == |s|;
      if |s| == 1 {
        assert p[0] in multiset(p) && s == [s[0]];
      }
    }
  }

  lemma SameItemsBehind<T>(p: seq<T>, q: seq<T>, item: T, i: nat)
    requires i <= |q| && p == InsertAt(q, item, i)
    ensures forall s: seq<T> :: s != [] && s[0] == item ==> (multiset(p) == multiset(s) <==> multiset(q) == multiset(s[1..]))
  {
    hide InsertAt;
    InsertKeepsItems(q, item, i);
    forall s: seq<T> | s != [] && s[0] == item
      ensures multiset(p) == multiset(s) <==> multiset(q) == multiset(s[1..])
    {
      assert s == [item] + s[1..];
      assert multiset(s) == multiset{item} + multiset(s[1..]);
      assert multiset(s) - multiset{item} == multiset(s[1..]);
      assert multiset(p) - multiset{item} == multiset(q);
    }
  }

  lemma FindItem<T>(s: seq<T>, p: seq<T>) returns (i: nat)
    requires s != [] && multiset(p) == multiset(s)
    ensures i < |p| && |p| == |s| && p[i] == s[0]
  {
    assert |multiset(p)| == |p| && |multiset(s)| == |s|;
    assert s[0] in multiset(p);
    i :| 0 <= i < |p| && p[i] == s[0];
  }

  lemma OrdersStep<T>(s: seq<T>, p: seq<T>)
    requires |s| > 1
    ensures p in Orders(s) <==>
            exists q, i: nat :: q in Orders(s[1..]) && i <= |q| && |q| == |s| - 1 && p == InsertAt(q, s[0], i)
  {
    hide InsertAt, InsertEverywhere;
    InsertEverywhereMembers(Orders(s[1..]), s[0], |s| - 1, p);
  }

  /** The results are the rearrangements of the input, all of them and nothing else. */
  lemma {:induction false} OrdersAreRearrangements<T>(s: seq<T>, p: seq<T>)
    ensures p in Orders(s) <==> multiset(p) == multiset(s)
    decreases |s|
  {
    if |s| <= 1 {
      ShortSequence(p, s);
    } else {
      hide InsertAt, Orders;
      OrdersStep(s, p);
      if p in Orders(s) {
        var q, i: nat :| q in Orders(s[1..]) && i <= |q| && |q| == |s| - 1 && p == InsertAt(q, s[0], i);
        OrdersAreRearrangements(s[1..], q);
        SameItemsBehind(p, q, s[0], i);
      } else if multiset(p) == multiset(s) {
        var i := FindItem(s, p);
        var q := Without(p, i);
        SameItemsBehind(p, q, s[0], i);
        OrdersAreRearrangements(s[1..], q);
      }
    }
  }

  /** There are n! of them. */
  lemma {:induction false} OrdersCount<T>(s: seq<T>)
    ensures |Orders(s)| == Factorial(|s|)
    decreases |s|
  {
    if |s| > 1 {
      OrdersCount(s[1..]);
    } else {
      assert Factorial(0) == 1 && Factorial(1) == 1;
    }
  }

  lemma {:induction false} InsertEverywhereAt<T>(subs: seq<seq<T>>, item: T, n: nat, k: nat, i: nat)
    requires AllOfLength(subs, n) && k < |subs| && i <= n
    ensures k * (n + 1) + i < |subs| * (n + 1)
    ensures InsertEverywhere(subs, item, n)[k * (n + 1) + i] == InsertAt(subs[k], item, i)
  {
    hide InsertAt;
    var last := |subs| - 1;
    Row(k, last, n, i);
    if k < last {
      InsertEverywhereAt(subs[..last], item, n, k, i);
    }
  }

  lemma Row(k: nat, last: nat, n: nat, i: nat)
    requires k <= last && i <= n
    ensures k * (n + 1) + i < (last + 1) * (n + 1)
    ensures k < last ==> k * (n + 1) + i < last * (n + 1)
  {
    assert k < last ==> (k + 1) * (n + 1) <= last * (n + 1);
    assert (k + 1) * (n + 1) <= (last + 1) * (n + 1);
  }

  /** The order of the results: for each order of the rest, the first item at every place from the front. */
  lemma OrdersAt<T>(s: seq<T>, k: nat, i: nat)
    requires |s| > 1 && k < |Orders(s[1..])| && i < |s|
    ensures k * |s| + i < |Orders(s)| && Orders(s)[k * |s| + i] == InsertAt(Orders(s[1..])[k], s[0], i)
  {
    hide InsertAt, InsertEverywhere;
    InsertEverywhereAt(Orders(s[1..]), s[0], |s| - 1, k, i);
  }

  // ----- repetitions

  lemma DistinctParts<T>(a: seq<T>, b: seq<T>)
    requires NoDuplicates(a + b)
    ensures NoDuplicates(a) && NoDuplicates(b) && forall x :: x in a ==> x !in b
  {
    var c := a + b;
    forall i, j | 0 <= i < j < |b| ensures b[i] != b[j] {
      assert c[|a| + i] == b[i] && c[|a| + j] == b[j];
    }
    forall i, j | 0 <= i < j < |a| ensures a[i] != a[j] {
      assert c[i] == a[i] && c[j] == a[j];
    }
    forall x | x in a ensures x !in b {
      var i :| 0 <= i < |a| && a[i] == x;
      assert forall j :: 0 <= j < |b| ==> c[|a| + j] == b[j];
      assert c[i] == x;
    }
  }

  lemma DistinctConcat<T>(a: seq<T>, b: seq<T>)
    ensures NoDuplicates(a + b) <==> NoDuplicates(a) && NoDuplicates(b) && forall x :: x in a ==> x !in b
  {
    var c := a + b;
    if NoDuplicates(c) {
      DistinctParts(a, b);
    } else {
      var i, j :| 0 <= i < j < |c| && c[i] == c[j];
      assert i < |a| ==> c[i] == a[i] && a[i] in a;
      assert j >= |a| ==> c[j] == b[j - |a|] && b[j - |a|] in b;
    }
  }

  /** An insertion can be undone when the item is new. */
  lemma InsertIsInjective<T>(a: seq<T>, b: seq<T>, item: T, i: nat, j: nat)
    requires i <= |a| && j <= |b| && item !in a && item !in b
    requires InsertAt(a, item, i) == InsertAt(b, item, j)
    ensures a == b && i == j
  {
    var p := InsertAt(a, item, i);
    assert InsertAt(b, item, j)[i] == item;
    assert a == p[..i] + p[i + 1..] && b == p[..i] + p[i + 1..];
  }

  lemma InsertionsDistinct<T>(sub: seq<T>, item: T, n: nat)
    requires n <= |sub| + 1 && item !in sub
    ensures NoDuplicates(Insertions(sub, item, n))
  {
    hide InsertAt;
    var r := Insertions(sub, item, n);
    forall i, j | 0 <= i < j < |r| ensures r[i] != r[j] {
      if r[i] == r[j] {
        InsertIsInjective(sub, sub, item, i, j);
      }
    }
  }

  ghost predicate NewIn<T>(item: T, subs: seq<seq<T>>) {
    forall k :: 0 <= k < |subs| ==> item !in subs[k]
  }

  lemma {:induction false} InsertEverywhereDistinct<T>(subs: seq<seq<T>>, item: T, n: nat)
    requires AllOfLength(subs, n) && NewIn(item, subs) && NoDuplicates(subs)
    ensures NoDuplicates(InsertEverywhere(subs, item, n))
  {
    hide InsertAt;
    if subs != [] {
      var last := |subs| - 1;
      var a, b := InsertEverywhere(subs[..last], item, n), Insertions(subs[last], item, n + 1);
      InsertEverywhereDistinct(subs[..last], item, n);
      InsertionsDistinct(subs[last], item, n + 1);
      forall p | p in a ensures p !in b {
        InsertEverywhereMembers(subs[..last], item, n, p);
        if p in b {
          var sub, i: nat :| sub in subs[..last] && i <= n && |sub| == n && p == InsertAt(sub, item, i);
          var j :| 0 <= j < n + 1 && p == InsertAt(subs[last], item, j);
          InsertIsInjective(sub, subs[last], item, i, j);
        }
      }
      DistinctConcat(a, b);
    }
  }

  /** A repeated list is repeated with the item in front. */
  lemma {:induction false} RepetitionStays<T>(subs: seq<seq<T>>, item: T, n: nat)
    requires AllOfLength(subs, n) && !NoDuplicates(subs)
    ensures !NoDuplicates(InsertEverywhere(subs, item, n))
  {
    hide InsertAt;
    var last := |subs| - 1;
    var a, b := InsertEverywhere(subs[..last], item, n), Insertions(subs[last], item, n + 1);
    DistinctConcat(a, b);
    if NoDuplicates(subs[..last]) {
      var k :| 0 <= k < last && subs[k] == subs[last];
      var p := InsertAt(subs[last], item, 0);
      assert subs[..last][k] == subs[last];
      InsertEverywhereMembers(subs[..last], item, n, p);
      assert b[0] == p;
    } else {
      RepetitionStays(subs[..last], item, n);
    }
  }

  /** Before and behind an equal item the insertion gives the same list. */
  lemma {:induction false} RepeatedItem<T>(subs: seq<seq<T>>, item: T, n: nat, k: nat)
    requires AllOfLength(subs, n) && k < |subs| && item in subs[k]
    ensures !NoDuplicates(InsertEverywhere(subs, item, n))
  {
    hide InsertAt;
    var last := |subs| - 1;
    var a, b := InsertEverywhere(subs[..last], item, n), Insertions(subs[last], item, n + 1);
    DistinctConcat(a, b);
    if k < last {
      RepeatedItem(subs[..last], item, n, k);
    } else {
      var q :| 0 <= q < n && subs[k][q] == item;
      SameEitherSide(subs[k], q);
      assert b[q] == b[q + 1];
    }
  }

  lemma SameEitherSide<T>(sub: seq<T>, q: nat)
    requires q < |sub|
    ensures InsertAt(sub, sub[q], q) == InsertAt(sub, sub[q], q + 1)
  {
  }

  lemma OrdersUnfold<T>(s: seq<T>)
    ensures |s| > 1 ==> Orders(s) == InsertEverywhere(Orders(s[1..]), s[0], |s| - 1)
    ensures |s| <= 1 ==> NoDuplicates(Orders(s)) && NoDuplicates(s)
  {
    hide InsertEverywhere;
  }

  lemma FirstIsNew<T>(s: seq<T>)
    requires s != [] && s[0] !in s[1..]
    ensures NewIn(s[0], Orders(s[1..]))
  {
    var subs := Orders(s[1..]);
    forall k | 0 <= k < |subs| ensures s[0] !in subs[k] {
      OrdersAreRearrangements(s[1..], subs[k]);
      assert s[0] !in multiset(s[1..]);
      assert s[0] !in multiset(subs[k]);
    }
  }

  lemma FirstIsRepeated<T>(s: seq<T>)
    requires s != [] && s[0] in s[1..]
    ensures !NoDuplicates(InsertEverywhere(Orders(s[1..]), s[0], |s| - 1))
  {
    hide InsertEverywhere, NoDuplicates;
    var subs := Orders(s[1..]);
    OrdersAreRearrangements(s[1..], s[1..]);
    var k :| 0 <= k < |subs| && subs[k] == s[1..];
    RepeatedItem(subs, s[0], |s| - 1, k);
  }

  /** No list occurs twice exactly when no item of the input does. */
  lemma {:induction false} OrdersDistinctIff<T>(s: seq<T>)
    ensures NoDuplicates(Orders(s)) <==> NoDuplicates(s)
    decreases |s|
  {
    hide InsertEverywhere, Orders, NoDuplicates;
    OrdersUnfold(s);
    if |s| > 1 {
      OrdersDistinctIff(s[1..]);
      NoDuplicatesCons(s[0], s[1..]);
      assert s == [s[0]] + s[1..];
      if !NoDuplicates(s[1..]) {
        RepetitionStays(Orders(s[1..]), s[0], |s| - 1);
      } else if s[0] in s[1..] {
        FirstIsRepeated(s);
      } else {
        FirstIsNew(s);
        InsertEverywhereDistinct(Orders(s[1..]), s[0], |s| - 1);
      }
    }
  }
}
