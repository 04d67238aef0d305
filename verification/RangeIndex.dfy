/** Intervals in a list, the binary search of class TimelineDataRange in utils/grid.py for one that holds a key, and
    when the window between two such searches is right. */
module RangeIndex {
  import opened LinearScan

  datatype DataRange = DataRange(start: int, end: int, value: string)

  predicate Contains(r: DataRange, key: int) {
    r.start <= key <= r.end
  }

  predicate Meets(r: DataRange, start: int, end: int) {
    r.start <= end && start <= r.end
  }

  predicate Apart(a: DataRange, b: DataRange) {
    a.end < b.start || b.end < a.start
  }

  function StartOf(r: DataRange): int {
    r.start
  }

  ghost predicate Proper(s: seq<DataRange>) {
    forall i :: 0 <= i < |s| ==> s[i].start <= s[i].end
  }

  /** Proper intervals, each behind the one before. */
  ghost predicate Disjoint(s: seq<DataRange>) {
    Proper(s) && forall i, j :: 0 <= i < j < |s| ==> s[i].end < s[j].start
  }

  /** Proper intervals in order, where one may begin at the point where another ends. */
  ghost predicate Adjoining(s: seq<DataRange>) {
    Proper(s) && forall i, j :: 0 <= i < j < |s| ==> s[i].end <= s[j].start
  }

  ghost predicate Covered(s: seq<DataRange>, key: int) {
    exists i :: 0 <= i < |s| && Contains(s[i], key)
  }

  // ----- the search

  /** The binary search between l and u; -1 if it finds nothing. */
  function FindRange(s: seq<DataRange>, key: int, l: int, u: int): (i: int)
    requires 0 <= l <= u + 1 <= |s|
    ensures i == -1 || (l <= i <= u && Contains(s[i], key))
    decreases u - l + 1
  {
    if l > u then -1
    else
      var i := (l + u) / 2;
      if Contains(s[i], key) then i
      else if key < s[i].start then FindRange(s, key, l, i - 1)
      else FindRange(s, key, i + 1, u)
  }

  function RangeAt(s: seq<DataRange>, key: int): (i: int)
    ensures i == -1 || (0 <= i < |s| && Contains(s[i], key))
  {
    FindRange(s, key, 0, |s| - 1)
  }

  lemma SearchBegins(s: seq<DataRange>, key: int)
    ensures RangeAt(s, key) == FindRange(s, key, 0, |s| - 1)
  {
  }

  /** One turn of the search. */
  lemma FindStep(s: seq<DataRange>, key: int, l: int, u: int)
    requires 0 <= l <= u < |s|
    ensures var i := (l + u) / 2;
            FindRange(s, key, l, u) ==
            if Contains(s[i], key) then i
            else if key < s[i].start then FindRange(s, key, l, i - 1)
            else FindRange(s, key, i + 1, u)
  {
  }

  lemma {:induction false} FindRangeCovers(s: seq<DataRange>, key: int, l: int, u: int, k: int)
    requires Adjoining(s) && 0 <= l <= k <= u < |s| && Contains(s[k], key)
    ensures FindRange(s, key, l, u) != -1
    decreases u - l + 1
  {
    var i := (l + u) / 2;
    if Contains(s[i], key) {
    } else if key < s[i].start {
      assert k < i;
      FindRangeCovers(s, key, l, i - 1, k);
    } else {
      assert i < k;
      FindRangeCovers(s, key, i + 1, u, k);
    }
  }

  /** In a list in order, even with adjoining intervals, the search finds the key exactly if it is covered. */
  lemma RangeAtCovers(s: seq<DataRange>, key: int)
    requires Adjoining(s)
    ensures RangeAt(s, key) != -1 <==> Covered(s, key)
  {
    if k :| 0 <= k < |s| && Contains(s[k], key) {
      FindRangeCovers(s, key, 0, |s| - 1, k);
    }
  }

  /** What the search answers; -1 on a list in order only if the key is not covered. */
  ghost predicate IsIndex(s: seq<DataRange>, key: int, i: int) {
    && (i == -1 || (0 <= i < |s| && Contains(s[i], key)))
    && (Adjoining(s) ==> (i >= 0 <==> Covered(s, key)))
  }

  lemma RangeAtIsIndex(s: seq<DataRange>, key: int)
    ensures IsIndex(s, key, RangeAt(s, key))
  {
    if Adjoining(s) {
      RangeAtCovers(s, key);
    }
  }

  // ----- the window

  /** The four cases of get_ranges_bounds. */
  function BoundsBetween(s: seq<DataRange>, start: int, end: int): (r: (nat, nat))
    ensures r.0 <= |s| && r.1 <= |s|
  {
    var a, b := RangeAt(s, start), RangeAt(s, end);
    if a == -1 && b == -1 then (0, 0)
    else if a == -1 then (0, b + 1)
    else if b == -1 then (a, |s|)
    else (a, b + 1)
  }

  function RangesBetween(s: seq<DataRange>, start: int, end: int): seq<DataRange> {
    var (lo, hi) := BoundsBetween(s, start, end);
    Slice(s, lo, hi)
  }

  ghost function Meeting(s: seq<DataRange>, start: int, end: int): seq<DataRange> {
    Filter(s, (r: DataRange) => Meets(r, start, end))
  }

  /** What get_ranges finds among disjoint intervals, as a linear scan: with both ends of the window covered, the
      intervals that meet it; with one end covered, everything on the open side as well; otherwise nothing. */
  ghost function Found(s: seq<DataRange>, start: int, end: int): seq<DataRange> {
    if Covered(s, start) && Covered(s, end) then Meeting(s, start, end)
    else if Covered(s, end) then Filter(s, (r: DataRange) => r.start <= end)
    else if Covered(s, start) then Filter(s, (r: DataRange) => start <= r.end)
    else []
  }

  lemma MeetingIsSlice(s: seq<DataRange>, start: int, end: int, a: nat, b: nat)
    requires Disjoint(s) && a < |s| && b < |s| && Contains(s[a], start) && Contains(s[b], end)
    ensures Meeting(s, start, end) == Slice(s, a, b + 1)
  {
    hide Filter;
    var hi := if a <= b then b + 1 else a;
    FilterIsSlice(s, (r: DataRange) => Meets(r, start, end), a, hi);
  }

  lemma OpenSides(s: seq<DataRange>, key: int, a: nat)
    requires Disjoint(s) && a < |s| && Contains(s[a], key)
    ensures Filter(s, (r: DataRange) => r.start <= key) == Slice(s, 0, a + 1)
    ensures Filter(s, (r: DataRange) => key <= r.end) == Slice(s, a, |s|)
  {
    hide Filter;
    FilterIsSlice(s, (r: DataRange) => r.start <= key, 0, a + 1);
    FilterIsSlice(s, (r: DataRange) => key <= r.end, a, |s|);
  }

  /** For any window, even one that ends before it starts. */
  lemma BetweenIsFound(s: seq<DataRange>, start: int, end: int)
    requires Disjoint(s)
    ensures RangesBetween(s, start, end) == Found(s, start, end)
  {
    RangeAtCovers(s, start);
    RangeAtCovers(s, end);
    hide RangeAt, Filter, Covered, Disjoint, Meeting, Contains;
    var a, b := RangeAt(s, start), RangeAt(s, end);
    if a >= 0 && b >= 0 {
      MeetingIsSlice(s, start, end, a, b);
    } else if b >= 0 {
      OpenSides(s, end, b);
    } else if a >= 0 {
      OpenSides(s, start, a);
    }
  }

  /** What a caller can check beforehand for the answer to be the intervals that meet the window. */
  ghost predicate Exact(s: seq<DataRange>, start: int, end: int) {
    if Covered(s, start) then Covered(s, end) || forall i :: 0 <= i < |s| ==> s[i].start <= end
    else if Covered(s, end) then forall i :: 0 <= i < |s| ==> start <= s[i].end
    else forall i :: 0 <= i < |s| ==> s[i].end < start || end < s[i].start
  }

  /** The answer is the intervals that meet the window exactly when the open side, if any, holds nothing else. */
  lemma FoundIsExactIff(s: seq<DataRange>, start: int, end: int)
    requires Proper(s) && start <= end
    ensures Found(s, start, end) == Meeting(s, start, end) <==> Exact(s, start, end)
  {
    var meets := (r: DataRange) => Meets(r, start, end);
    if Covered(s, start) && Covered(s, end) {
    } else if Covered(s, end) {
      SameFilter(s, meets, (r: DataRange) => r.start <= end);
    } else if Covered(s, start) {
      SameFilter(s, meets, (r: DataRange) => start <= r.end);
    } else {
      var none := (r: DataRange) => false;
      FilterIsSlice(s, none, 0, 0);
      SameFilter(s, none, meets);
    }
  }

  /** Here the answer is wider: 3 is in no interval, so [0, 1] comes back although the window starts behind it. */
  lemma WidenedWindow()
    ensures var s := [DataRange(0, 1, "a"), DataRange(4, 5, "b")];
            && Disjoint(s)
            && RangesBetween(s, 3, 4) == s
            && Meeting(s, 3, 4) == [DataRange(4, 5, "b")]
  {
    var s := [DataRange(0, 1, "a"), DataRange(4, 5, "b")];
    assert s[1] == DataRange(4, 5, "b");
    assert Covered(s, 4) && !Covered(s, 3);
    BetweenIsFound(s, 3, 4);
    FilterIsSlice(s, (r: DataRange) => r.start <= 4, 0, 2);
    FilterIsSlice(s, (r: DataRange) => Meets(r, 3, 4), 1, 2);
  }

  /** Where intervals may adjoin, a window with both ends covered still holds only intervals that meet it, and all that
      share more than an end point with it. */
  lemma AdjoiningWindow(s: seq<DataRange>, start: int, end: int, i: nat)
    requires Adjoining(s) && start <= end && Covered(s, start) && Covered(s, end) && i < |s|
    ensures var (lo, hi) := BoundsBetween(s, start, end);
            && (lo <= i < hi ==> Meets(s[i], start, end))
            && (s[i].start < end && start < s[i].end ==> lo <= i < hi)
  {
    RangeAtCovers(s, start);
    RangeAtCovers(s, end);
    hide RangeAt, Covered;
  }

  // ----- exactly on which lists the windows are right

  /** Both searches of a window (p, p) end at the same place, so at most one interval comes back. */
  lemma PointWindow(s: seq<DataRange>, p: int)
    ensures RangesBetween(s, p, p) == if RangeAt(s, p) == -1 then [] else [s[RangeAt(s, p)]]
  {
    hide RangeAt;
  }

  /** Two intervals that hold one point: whatever the rest of the list, the window at that point is wrong. */
  lemma SharedPoint(s: seq<DataRange>, p: int, i: nat, j: nat)
    requires i < j < |s| && Contains(s[i], p) && Contains(s[j], p)
    ensures RangesBetween(s, p, p) != Meeting(s, p, p)
  {
    hide RangesBetween, Filter;
    PointWindow(s, p);
    TwoPass(s, (r: DataRange) => Meets(r, p, p), i, j);
  }

  /** Every window whose ends are covered holds exactly the intervals that meet it. */
  ghost predicate CoveredWindowsRight(s: seq<DataRange>) {
    forall start, end :: Covered(s, start) && Covered(s, end) ==> RangesBetween(s, start, end) == Meeting(s, start, end)
  }

  /** The search finds every interval at both of its ends. */
  ghost predicate FindsEnds(s: seq<DataRange>, l: int, u: int)
    requires 0 <= l <= u + 1 <= |s|
  {
    forall k :: l <= k <= u ==> FindRange(s, s[k].start, l, u) == k && FindRange(s, s[k].end, l, u) == k
  }

  lemma RightMeansFound(s: seq<DataRange>, key: int, k: nat)
    requires CoveredWindowsRight(s) && k < |s| && Contains(s[k], key)
    ensures RangeAt(s, key) == k
  {
    hide RangesBetween, Filter, RangeAt;
    assert Covered(s, key);
    PointWindow(s, key);
    OnePasses(s, (r: DataRange) => Meets(r, key, key), k);
    var i := RangeAt(s, key);
    if i < k {
      SharedPoint(s, key, i, k);
    } else if k < i {
      SharedPoint(s, key, k, i);
    }
  }

  ghost predicate DisjointFrom(s: seq<DataRange>, l: int, u: int)
    requires 0 <= l <= u + 1 <= |s|
  {
    forall i, j :: l <= i < j <= u ==> s[i].end < s[j].start
  }

  lemma LeftHalf(s: seq<DataRange>, l: int, u: int)
    requires 0 <= l <= u < |s| && FindsEnds(s, l, u)
    ensures FindsEnds(s, l, (l + u) / 2 - 1)
    ensures forall k :: l <= k < (l + u) / 2 ==> s[k].end < s[(l + u) / 2].start
  {
    hide FindRange;
    var m := (l + u) / 2;
    forall k | l <= k < m
      ensures s[k].end < s[m].start
      ensures FindRange(s, s[k].start, l, m - 1) == k && FindRange(s, s[k].end, l, m - 1) == k
    {
      GoesLeft(s, s[k].start, l, u, k);
      GoesLeft(s, s[k].end, l, u, k);
    }
  }

  lemma RightHalf(s: seq<DataRange>, l: int, u: int)
    requires Proper(s) && 0 <= l <= u < |s| && FindsEnds(s, l, u)
    ensures FindsEnds(s, (l + u) / 2 + 1, u)
    ensures forall k :: (l + u) / 2 < k <= u ==> s[(l + u) / 2].end < s[k].start
  {
    hide FindRange;
    var m := (l + u) / 2;
    forall k | m < k <= u
      ensures s[m].end < s[k].start
      ensures FindRange(s, s[k].start, m + 1, u) == k && FindRange(s, s[k].end, m + 1, u) == k
    {
      GoesRight(s, s[k].start, l, u, k);
      GoesRight(s, s[k].end, l, u, k);
    }
  }

  lemma JoinHalves(s: seq<DataRange>, l: int, m: int, u: int)
    requires Proper(s) && 0 <= l <= m <= u < |s|
    requires DisjointFrom(s, l, m - 1) && DisjointFrom(s, m + 1, u)
    requires forall k :: l <= k < m ==> s[k].end < s[m].start
    requires forall k :: m < k <= u ==> s[m].end < s[k].start
    ensures DisjointFrom(s, l, u)
  {
    forall i, j | l <= i < j <= u ensures s[i].end < s[j].start {
      assert s[m].start <= s[m].end;
    }
  }

  /** A binary search that finds every interval has a list in order. */
  lemma {:induction false} FindsEndsMeansDisjoint(s: seq<DataRange>, l: int, u: int)
    requires Proper(s) && 0 <= l <= u + 1 <= |s| && FindsEnds(s, l, u)
    ensures DisjointFrom(s, l, u)
    decreases u - l + 1
  {
    hide FindRange, FindsEnds, DisjointFrom, Proper;
    if l > u {
      NothingBetween(s, l, u);
    } else {
      var m := (l + u) / 2;
      LeftHalf(s, l, u);
      RightHalf(s, l, u);
      FindsEndsMeansDisjoint(s, l, m - 1);
      FindsEndsMeansDisjoint(s, m + 1, u);
      JoinHalves(s, l, m, u);
    }
  }

  lemma NothingBetween(s: seq<DataRange>, l: int, u: int)
    requires 0 <= l == u + 1 <= |s|
    ensures DisjointFrom(s, l, u)
  {
  }

  lemma GoesLeft(s: seq<DataRange>, key: int, l: int, u: int, k: int)
    requires 0 <= l <= k < (l + u) / 2 && u < |s| && FindRange(s, key, l, u) == k
    ensures key < s[(l + u) / 2].start && FindRange(s, key, l, (l + u) / 2 - 1) == k
  {
  }

  lemma GoesRight(s: seq<DataRange>, key: int, l: int, u: int, k: int)
    requires 0 <= l && (l + u) / 2 < k <= u < |s| && Proper(s) && FindRange(s, key, l, u) == k
    ensures s[(l + u) / 2].end < key && FindRange(s, key, (l + u) / 2 + 1, u) == k
  {
  }

  lemma RightMeansDisjoint(s: seq<DataRange>)
    requires Proper(s) && CoveredWindowsRight(s)
    ensures Disjoint(s)
  {
    hide CoveredWindowsRight, FindRange;
    if s != [] {
      forall k: nat | k < |s| ensures RangeAt(s, s[k].start) == k && RangeAt(s, s[k].end) == k {
        RightMeansFound(s, s[k].start, k);
        RightMeansFound(s, s[k].end, k);
      }
      FindsEndsMeansDisjoint(s, 0, |s| - 1);
    }
  }

  /** On a list of proper intervals, whatever their order, all windows with covered ends are right exactly if the
      intervals are disjoint and in order. */
  lemma CoveredWindowsRightIff(s: seq<DataRange>)
    requires Proper(s)
    ensures CoveredWindowsRight(s) <==> Disjoint(s)
  {
    hide RangesBetween, Meeting;
    if Disjoint(s) {
      forall start, end | Covered(s, start) && Covered(s, end)
        ensures RangesBetween(s, start, end) == Meeting(s, start, end)
      {
        BetweenIsFound(s, start, end);
      }
    }
    if CoveredWindowsRight(s) {
      RightMeansDisjoint(s);
    }
  }

  /** And so are all windows, in the sense of Found. */
  lemma AllWindowsFoundIff(s: seq<DataRange>)
    requires Proper(s)
    ensures (forall start, end :: RangesBetween(s, start, end) == Found(s, start, end)) <==> Disjoint(s)
  {
    hide RangesBetween, Meeting, Covered, Disjoint;
    if Disjoint(s) {
      forall start, end ensures RangesBetween(s, start, end) == Found(s, start, end) {
        BetweenIsFound(s, start, end);
      }
    }
    CoveredWindowsRightIff(s);
  }

  /** Two intervals that touch: at the common point only one of them comes back. */
  lemma TouchingRanges()
    ensures var s := [DataRange(0, 1, "a"), DataRange(1, 2, "b")];
            RangesBetween(s, 1, 1) == s[..1] && Meeting(s, 1, 1) == s
  {
    var s := [DataRange(0, 1, "a"), DataRange(1, 2, "b")];
    assert s[0] == DataRange(0, 1, "a");
    assert FindRange(s, 1, 0, 1) == 0;
    PointWindow(s, 1);
    FilterIsSlice(s, (r: DataRange) => Meets(r, 1, 1), 0, 2);
  }

  // ----- sorting

  lemma SortedIsProper(s: seq<DataRange>)
    requires Proper(s)
    ensures Proper(Sorted(s, StartOf))
  {
    hide Sorted;
    var r := Sorted(s, StartOf);
    forall i | 0 <= i < |r| ensures r[i].start <= r[i].end {
      assert r[i] in multiset(r);
      assert r[i] in multiset(s);
    }
  }

  lemma SortedIsDisjoint(s: seq<DataRange>)
    requires Proper(s) && Pairwise(s, Apart)
    ensures Disjoint(Sorted(s, StartOf))
  {
    var r := Sorted(s, StartOf);
    assert Symmetric(Apart);
    SortedInOrder(s, StartOf);
    SortedPairwise(s, StartOf, Apart);
    SortedIsProper(s);
    hide Sorted;
    forall i, j | 0 <= i < j < |r| ensures r[i].end < r[j].start {
      assert Apart(r[i], r[j]) && StartOf(r[i]) <= StartOf(r[j]);
    }
  }
}
