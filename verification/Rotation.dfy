/** is_rotated of bindings/python/rad_util.py. */
module Rotation {
  import opened DependencyGraph

  ghost predicate IsRotationBy(s: seq<Item>, t: seq<Item>, k: nat) {
    k <= |s| && t == s[k..] + s[..k]
  }

  ghost predicate IsRotation(s: seq<Item>, t: seq<Item>) {
    exists k: nat :: IsRotationBy(s, t, k)
  }

  method IsRotated(seq1: seq<Item>, seq2: seq<Item>) returns (r: bool)
    requires seq1 != [] || seq2 != []
    ensures r <==> IsRotation(seq1, seq2)
  {
    if |seq1| != |seq2| {
      return false;
    }
    var startIndexes: seq<nat> := [];
    var headItem := seq2[0];
    for index1 := 0 to |seq1|
      invariant forall k :: k in startIndexes <==> 0 <= k < index1 && seq1[k] == headItem
    {
      if seq1[index1] == headItem {
        startIndexes := startIndexes + [index1];
      }
    }
    var doubleSeq1 := seq1 + seq1;
    for j := 0 to |startIndexes|
      invariant forall k :: k in startIndexes[..j] ==> !IsRotationBy(seq1, seq2, k)
    {
      var index1 := startIndexes[j];
      assert index1 in startIndexes;
      assert doubleSeq1[index1..index1 + |seq1|] == seq1[index1..] + seq1[..index1];
      if doubleSeq1[index1..index1 + |seq1|] == seq2 {
        assert IsRotationBy(seq1, seq2, index1);
        return true;
      }
    }
    if k: nat :| IsRotationBy(seq1, seq2, k) {
      StartOfRotation(seq1, seq2, k);
    }
    return false;
  }

  /** Where a rotation starts, the head of the rotated list stands. */
  lemma StartOfRotation(s: seq<Item>, t: seq<Item>, k: nat)
    requires s != [] && IsRotationBy(s, t, k)
    ensures var start := if k == |s| then 0 else k; IsRotationBy(s, t, start) && s[start] == t[0]
  {
    if k == |s| {
      assert t == s;
      assert IsRotationBy(s, t, 0);
    }
  }

  lemma RotationReflexive(s: seq<Item>)
    ensures IsRotation(s, s)
  {
    assert IsRotationBy(s, s, 0);
  }

  lemma RotationSymmetric(s: seq<Item>, t: seq<Item>)
    requires IsRotation(s, t)
    ensures IsRotation(t, s)
  {
    var k: nat :| IsRotationBy(s, t, k);
    assert t[|s| - k..] == s[..k] && t[..|s| - k] == s[k..];
    assert IsRotationBy(t, s, |s| - k);
  }

  lemma RotationTransitive(s: seq<Item>, t: seq<Item>, u: seq<Item>)
    requires IsRotation(s, t) && IsRotation(t, u)
    ensures IsRotation(s, u)
  {
    hide IsRotationBy;
    var j: nat :| IsRotationBy(s, t, j);
    var k: nat :| IsRotationBy(t, u, k);
    var m := RotateTwice(s, t, u, j, k);
  }

  lemma RotateTwice(s: seq<Item>, t: seq<Item>, u: seq<Item>, j: nat, k: nat) returns (m: nat)
    requires IsRotationBy(s, t, j) && IsRotationBy(t, u, k)
    ensures IsRotationBy(s, u, m)
  {
    if j + k <= |s| {
      m := j + k;
      CutTwice(s, j, k);
    } else {
      m := j + k - |s|;
      CutRound(s, j, k);
    }
  }

  lemma CutTwice(s: seq<Item>, j: nat, k: nat)
    requires j + k <= |s|
    ensures var t := s[j..] + s[..j]; t[k..] + t[..k] == s[j + k..] + s[..j + k]
  {
    RotatePieces(s[..j], s[j..j + k], s[j + k..]);
    assert s == s[..j] + s[j..j + k] + s[j + k..] && s[j..] + s[..j] == s[j..j + k] + s[j + k..] + s[..j];
  }

  lemma CutRound(s: seq<Item>, j: nat, k: nat)
    requires j <= |s| && k <= |s| < j + k
    ensures var t, m := s[j..] + s[..j], j + k - |s|; t[k..] + t[..k] == s[m..] + s[..m]
  {
    var m := j + k - |s|;
    RotatePieces(s[j..], s[..m], s[m..j]);
    assert s == s[..m] + s[m..j] + s[j..] && s[j..] + s[..j] == s[j..] + s[..m] + s[m..j];
  }

  /** In pieces a b c, cutting off a, or a b, from the front. */
  lemma RotatePieces(a: seq<Item>, b: seq<Item>, c: seq<Item>)
    ensures (a + b + c)[|a|..] == b + c && (a + b + c)[..|a|] == a
    ensures (a + b + c)[|a| + |b|..] == c && (a + b + c)[..|a| + |b|] == a + b
    ensures (b + c + a)[|b|..] == c + a && (b + c + a)[..|b|] == b
  {
  }
}
