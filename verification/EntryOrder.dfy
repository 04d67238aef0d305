/** The order std::sort uses on (type, path) pairs, and the sort-and-unique idiom. */
module EntryOrder {
  import opened TypeGraph

  predicate StringLess(a: string, b: string) {
    b != "" && (a == "" || a[0] < b[0] || (a[0] == b[0] && StringLess(a[1..], b[1..])))
  }

  predicate Less(a: Entry, b: Entry) {
    a.0 < b.0 || (a.0 == b.0 && StringLess(a.1, b.1))
  }

  /** a and b agree up to k, where a ends or has the smaller character. */
  ghost predicate SmallerAt(a: string, b: string, k: nat) {
    k <= |a| && k < |b| && a[..k] == b[..k] && (k == |a| || a[k] < b[k])
  }

  lemma SameFirst(a: string, b: string, k: nat)
    requires 0 < k <= |a| && k <= |b| && a[..k] == b[..k]
    ensures a[0] == b[0]
  {
    assert a[..k][0] == b[..k][0];
  }

  /** The order of std::string: by the first difference, a prefix before what it is a prefix of. */
  lemma {:induction false} StringLessIff(a: string, b: string)
    ensures StringLess(a, b) <==> exists k :: SmallerAt(a, b, k)
  {
    if a == "" || b == "" || a[0] != b[0] {
      if b != "" && (a == "" || a[0] < b[0]) {
        assert SmallerAt(a, b, 0);
      }
      forall k: nat | SmallerAt(a, b, k) ensures k == 0 {
        if k > 0 {
          SameFirst(a, b, k);
        }
      }
    } else {
      StringLessIff(a[1..], b[1..]);
      if k: nat :| SmallerAt(a[1..], b[1..], k) {
        assert a[..k + 1] == [a[0]] + a[1..][..k] && b[..k + 1] == [b[0]] + b[1..][..k];
        assert SmallerAt(a, b, k + 1);
      }
      if k: nat :| SmallerAt(a, b, k) {
        assert k > 0;
        assert a[1..][..k - 1] == a[..k][1..] && b[1..][..k - 1] == b[..k][1..];
        assert SmallerAt(a[1..], b[1..], k - 1);
      }
    }
  }

  /** The order of std::pair: by type, and for one type by path. */
  lemma LessIff(a: Entry, b: Entry)
    ensures Less(a, b) <==> a.0 < b.0 || (a.0 == b.0 && exists k :: SmallerAt(a.1, b.1, k))
  {
    hide StringLess, SmallerAt;
    StringLessIff(a.1, b.1);
  }

  lemma {:induction false} StringLessIrreflexive(a: string)
    ensures !StringLess(a, a)
  {
    if a != "" {
      StringLessIrreflexive(a[1..]);
    }
  }

  lemma {:induction false} StringLessTransitive(a: string, b: string, c: string)
    requires StringLess(a, b) && StringLess(b, c)
    ensures StringLess(a, c)
  {
    if a != "" && a[0] == b[0] && b[0] == c[0] {
      StringLessTransitive(a[1..], b[1..], c[1..]);
    }
  }

  lemma {:induction false} StringLessTotal(a: string, b: string)
    ensures StringLess(a, b) || a == b || StringLess(b, a)
  {
    if a != "" && b != "" && a[0] == b[0] {
      StringLessTotal(a[1..], b[1..]);
      assert a == [a[0]] + a[1..] && b == [b[0]] + b[1..];
    }
  }

  lemma LessIrreflexive(a: Entry)
    ensures !Less(a, a)
  {
    StringLessIrreflexive(a.1);
  }

  lemma LessTransitive(a: Entry, b: Entry, c: Entry)
    requires Less(a, b) && Less(b, c)
    ensures Less(a, c)
  {
    if a.0 == b.0 == c.0 {
      StringLessTransitive(a.1, b.1, c.1);
    }
  }

  lemma LessTotal(a: Entry, b: Entry)
    ensures Less(a, b) || a == b || Less(b, a)
  {
    StringLessTotal(a.1, b.1);
  }

  ghost predicate Sorted(s: seq<Entry>) {
    forall i, j :: 0 <= i < j < |s| ==> Less(s[i], s[j]) || s[i] == s[j]
  }

  ghost predicate StrictlySorted(s: seq<Entry>) {
    forall i, j :: 0 <= i < j < |s| ==> Less(s[i], s[j])
  }

  /** std::sort */
  method Sort(s: seq<Entry>) returns (r: seq<Entry>)
    ensures Sorted(r) && multiset(r) == multiset(s)
  {
    hide Less;
    r := [];
    for i := 0 to |s|
      invariant Sorted(r) && multiset(r) == multiset(s[..i])
    {
      var j := |r|;
      while j > 0 && Less(s[i], r[j - 1])
        invariant 0 <= j <= |r| && forall k :: j <= k < |r| ==> Less(s[i], r[k])
      {
        j := j - 1;
      }
      Inserted(r, j, s[i]);
      assert r == r[..j] + r[j..] && s[..i + 1] == s[..i] + [s[i]];
      r := r[..j] + [s[i]] + r[j..];
    }
    assert s[..|s|] == s;
  }

  lemma Inserted(r: seq<Entry>, j: nat, e: Entry)
    requires Sorted(r) && j <= |r|
    requires j > 0 ==> !Less(e, r[j - 1])
    requires forall k :: j <= k < |r| ==> Less(e, r[k])
    ensures Sorted(r[..j] + [e] + r[j..])
  {
    hide Less;
    if j > 0 {
      LessTotal(e, r[j - 1]);
      forall k | 0 <= k < j ensures Less(r[k], e) || r[k] == e {
        if k < j - 1 && Less(r[k], r[j - 1]) && Less(r[j - 1], e) {
          LessTransitive(r[k], r[j - 1], e);
        }
      }
    }
  }

  /** m_output.erase (std::unique (...), end) on a sorted range */
  method Unique(s: seq<Entry>) returns (r: seq<Entry>)
    requires Sorted(s)
    ensures StrictlySorted(r) && forall e :: e in r <==> e in s
  {
    hide Less;
    r := [];
    for i := 0 to |s|
      invariant StrictlySorted(r) && (forall e :: e in r <==> e in s[..i])
      invariant if i == 0 then r == [] else r != [] && r[|r| - 1] == s[i - 1]
    {
      assert i > 0 ==> Less(s[i - 1], s[i]) || s[i - 1] == s[i];
      if i == 0 || s[i - 1] != s[i] {
        forall k | 0 <= k < |r| ensures Less(r[k], s[i]) {
          if k < |r| - 1 && Less(r[k], r[|r| - 1]) {
            LessTransitive(r[k], r[|r| - 1], s[i]);
          }
        }
        r := r + [s[i]];
      }
    }
    assert s[..|s|] == s;
  }

  lemma LastIsGreatest(s: seq<Entry>, e: Entry)
    requires s != [] && StrictlySorted(s) && e in s
    ensures e in s[..|s| - 1] <==> e != s[|s| - 1]
    ensures e != s[|s| - 1] ==> Less(e, s[|s| - 1])
  {
    hide Less;
    LessIrreflexive(s[|s| - 1]);
    var i :| 0 <= i < |s| && s[i] == e;
    assert i < |s| - 1 ==> s[..|s| - 1][i] == e;
  }

  /** A strictly sorted list is determined by its members. */
  lemma {:induction false} SameMembersSameList(s: seq<Entry>, t: seq<Entry>)
    requires StrictlySorted(s) && StrictlySorted(t) && forall e :: e in s <==> e in t
    ensures s == t
  {
    hide Less, StrictlySorted;
    if s == [] {
      FirstIsMember(t);
    } else {
      assert s[0] in s && t != [];
      var a, b := s[|s| - 1], t[|t| - 1];
      LastIsGreatest(s, b);
      LastIsGreatest(t, a);
      if a != b {
        LessTransitive(a, b, a);
        LessIrreflexive(a);
      }
      var s', t' := s[..|s| - 1], t[..|t| - 1];
      PrefixIsSorted(s);
      PrefixIsSorted(t);
      forall e ensures e in s' <==> e in t' {
        if e in s {
          LastIsGreatest(s, e);
          LastIsGreatest(t, e);
        }
      }
      SameMembersSameList(s', t');
      assert s == s' + [a] && t == t' + [b];
    }
  }

  lemma FirstIsMember(s: seq<Entry>)
    ensures s == [] || s[0] in s
  {
  }

  lemma PrefixIsSorted(s: seq<Entry>)
    requires s != [] && StrictlySorted(s)
    ensures StrictlySorted(s[..|s| - 1])
  {
  }
}
