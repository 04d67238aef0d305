/** Events in a list, the binary search of class TimelineEvent in utils/grid.py for a time, and when the window between
    two such searches is right. */
module EventIndex {
  import opened LinearScan

  datatype Event = Event(at: int, value: string)

  function TimeOf(e: Event): int {
    e.at
  }

  predicate AtOtherTimes(a: Event, b: Event) {
    a.at != b.at
  }

  ghost predicate Increasing(s: seq<Event>) {
    forall i, j :: 0 <= i < j < |s| ==> s[i].at < s[j].at
  }

  ghost predicate IsTime(s: seq<Event>, key: int) {
    exists i :: 0 <= i < |s| && s[i].at == key
  }

  // ----- the search

  /** The binary search between l and u: an event at the key, or the place where one would go. */
  function FindEvent(s: seq<Event>, key: int, l: int, u: int): (i: nat)
    requires 0 <= l <= u + 1 <= |s|
    ensures l <= i <= u + 1
    decreases u - l + 1
  {
    if l > u then l
    else
      var i := (l + u) / 2;
      if key == s[i].at then i
      else if key < s[i].at then FindEvent(s, key, l, i - 1)
      else FindEvent(s, key, i + 1, u)
  }

  function EventAt(s: seq<Event>, key: int): (i: nat)
    ensures i <= |s|
  {
    FindEvent(s, key, 0, |s| - 1)
  }

  /** Nothing before k is later than the key, and nothing from k on is earlier. */
  ghost predicate Separates(s: seq<Event>, key: int, k: nat) {
    k <= |s| && (forall i :: 0 <= i < k ==> s[i].at <= key) && forall i :: k <= i < |s| ==> key <= s[i].at
  }

  lemma SearchBegins(s: seq<Event>, key: int)
    ensures EventAt(s, key) == FindEvent(s, key, 0, |s| - 1)
  {
  }

  /** One turn of the search. */
  lemma FindStep(s: seq<Event>, key: int, l: int, u: int)
    requires 0 <= l <= u < |s|
    ensures var i := (l + u) / 2;
            FindEvent(s, key, l, u) ==
            if key == s[i].at then i
            else if key < s[i].at then FindEvent(s, key, l, i - 1)
            else FindEvent(s, key, i + 1, u)
  {
  }

  /** The key belongs between l and u. */
  ghost predicate Enclosed(s: seq<Event>, key: int, l: int, u: int)
    requires 0 <= l <= u + 1 <= |s|
  {
    (forall i :: 0 <= i < l ==> s[i].at < key) && forall i :: u < i < |s| ==> key < s[i].at
  }

  lemma EnclosedStep(s: seq<Event>, key: int, l: int, u: int, i: int)
    requires InOrder(s, TimeOf) && 0 <= l <= i <= u < |s| && Enclosed(s, key, l, u)
    ensures key < s[i].at ==> Enclosed(s, key, l, i - 1)
    ensures s[i].at < key ==> Enclosed(s, key, i + 1, u)
    ensures key == s[i].at ==> Separates(s, key, i)
  {
    assert forall j :: 0 <= j < i ==> TimeOf(s[j]) <= TimeOf(s[i]);
    assert forall j :: i < j < |s| ==> TimeOf(s[i]) <= TimeOf(s[j]);
  }

  lemma EnclosedNothing(s: seq<Event>, key: int, l: int, u: int)
    requires 0 <= l == u + 1 <= |s| && Enclosed(s, key, l, u)
    ensures Separates(s, key, l) && !IsTime(s, key)
  {
  }

  lemma {:induction false} FindEventSeparates(s: seq<Event>, key: int, l: int, u: int)
    requires InOrder(s, TimeOf) && 0 <= l <= u + 1 <= |s| && Enclosed(s, key, l, u)
    ensures var k := FindEvent(s, key, l, u);
            Separates(s, key, k) && (IsTime(s, key) ==> k < |s| && s[k].at == key)
    decreases u - l + 1
  {
    hide FindEvent, Enclosed, Separates, IsTime, InOrder;
    if l > u {
      EnclosedNothing(s, key, l, u);
    } else {
      var i := (l + u) / 2;
      FindStep(s, key, l, u);
      EnclosedStep(s, key, l, u, i);
      if key < s[i].at {
        FindEventSeparates(s, key, l, i - 1);
      } else if key > s[i].at {
        FindEventSeparates(s, key, i + 1, u);
      }
    }
  }

  /** In a list in order, several events at one time or not, the search ends where the key belongs, and at an event with
      that time if there is one. */
  lemma EventAtSeparates(s: seq<Event>, key: int)
    requires InOrder(s, TimeOf)
    ensures Separates(s, key, EventAt(s, key))
    ensures IsTime(s, key) <==> EventAt(s, key) < |s| && s[EventAt(s, key)].at == key
  {
    FindEventSeparates(s, key, 0, |s| - 1);
  }

  /** What the search answers on a list in order. */
  ghost predicate IsPlace(s: seq<Event>, key: int, k: nat) {
    && k <= |s|
    && (InOrder(s, TimeOf) ==> Separates(s, key, k) && (IsTime(s, key) <==> k < |s| && s[k].at == key))
  }

  lemma EventAtIsPlace(s: seq<Event>, key: int)
    ensures IsPlace(s, key, EventAt(s, key))
  {
    if InOrder(s, TimeOf) {
      EventAtSeparates(s, key);
    }
  }

  function EventsBetween(s: seq<Event>, start: int, end: int): seq<Event> {
    Slice(s, EventAt(s, start), EventAt(s, end) + 1)
  }

  // ----- the window

  /** How many events are before the key. */
  function Before(s: seq<Event>, key: int): nat {
    |Filter(s, (e: Event) => e.at < key)|
  }

  /** The first event at or after the key, as a list of at most one. */
  function Next(s: seq<Event>, key: int): seq<Event> {
    Slice(s, Before(s, key), Before(s, key) + 1)
  }

  ghost function Within(s: seq<Event>, start: int, end: int): seq<Event> {
    Filter(s, (e: Event) => start <= e.at <= end)
  }

  /** The next event after the window is returned too when the window does not end at an event. */
  ghost predicate OneMore(s: seq<Event>, start: int, end: int) {
    !IsTime(s, end) && Next(s, end) != [] && start <= Next(s, end)[0].at
  }

  ghost predicate Splits(s: seq<Event>, key: int, k: nat) {
    k <= |s| && (forall i :: 0 <= i < k ==> s[i].at < key) && forall i :: k <= i < |s| ==> key <= s[i].at
  }

  lemma BeforeSplits(s: seq<Event>, key: int, k: nat)
    requires Splits(s, key, k)
    ensures Before(s, key) == k
  {
    FilterIsSlice(s, (e: Event) => e.at < key, 0, k);
  }

  ghost predicate SplitsBehind(s: seq<Event>, key: int, k: nat) {
    k <= |s| && (forall i :: 0 <= i < k ==> s[i].at <= key) && forall i :: k <= i < |s| ==> key < s[i].at
  }

  lemma TimeIsThere(s: seq<Event>, key: int, k: nat)
    requires Increasing(s) && Splits(s, key, k)
    ensures if IsTime(s, key) then k < |s| && SplitsBehind(s, key, k + 1) else SplitsBehind(s, key, k)
  {
    if IsTime(s, key) {
      var i :| 0 <= i < |s| && s[i].at == key;
      assert k <= i && s[k].at <= s[i].at;
    }
  }

  lemma WindowOfIndices(s: seq<Event>, start: int, end: int, a: nat, b: nat)
    requires Splits(s, start, a) && SplitsBehind(s, end, b)
    ensures Slice(s, a, b) == Within(s, start, end)
  {
    FilterIsSlice(s, (e: Event) => start <= e.at <= end, if a <= b then a else b, b);
  }

  lemma NextStartsLater(s: seq<Event>, start: int, end: int, a: nat, b: nat)
    requires Splits(s, start, a) && Splits(s, end, b)
    ensures Next(s, end) == if b < |s| then [s[b]] else []
    ensures b < |s| ==> (a <= b <==> start <= s[b].at)
    ensures a <= |s| && b <= |s|
  {
    BeforeSplits(s, end, b);
  }

  lemma WindowBetween(s: seq<Event>, start: int, end: int, a: nat, b: nat)
    requires Increasing(s) && Splits(s, start, a) && Splits(s, end, b)
    ensures Slice(s, a, b + 1) == Within(s, start, end) + if OneMore(s, start, end) then Next(s, end) else []
  {
    hide Filter, IsTime, Increasing, Splits, SplitsBehind, Slice, Next, Within;
    TimeIsThere(s, end, b);
    NextStartsLater(s, start, end, a, b);
    if IsTime(s, end) {
      WindowOfIndices(s, start, end, a, b + 1);
    } else {
      WindowOfIndices(s, start, end, a, b);
      OneLonger(s, a, b);
    }
  }

  lemma OneLonger(s: seq<Event>, a: nat, b: nat)
    requires a <= |s| && b <= |s|
    ensures Slice(s, a, b + 1) == if a <= b < |s| then Slice(s, a, b) + [s[b]] else Slice(s, a, b)
  {
  }

  lemma IncreasingSplits(s: seq<Event>, key: int)
    requires Increasing(s)
    ensures Splits(s, key, EventAt(s, key))
  {
    assert InOrder(s, TimeOf);
    EventAtSeparates(s, key);
  }

  /** On events at increasing times the window is the scan and at most one event more, for any two ends. */
  lemma EventWindow(s: seq<Event>, start: int, end: int)
    requires Increasing(s)
    ensures EventsBetween(s, start, end) == Within(s, start, end) + if OneMore(s, start, end) then Next(s, end) else []
  {
    IncreasingSplits(s, start);
    IncreasingSplits(s, end);
    WindowBetween(s, start, end, EventAt(s, start), EventAt(s, end));
  }

  /** With several events at one time, those strictly inside the window are still there, and only the last one of the
      answer can be outside. */
  lemma WindowInOrder(s: seq<Event>, start: int, end: int, i: nat)
    requires InOrder(s, TimeOf) && i < |s|
    ensures start < s[i].at < end ==> EventAt(s, start) <= i <= EventAt(s, end)
    ensures EventAt(s, start) <= i < EventAt(s, end) ==> start <= s[i].at <= end
  {
    hide EventAt;
    EventAtSeparates(s, start);
    EventAtSeparates(s, end);
  }

  // ----- exactly on which lists the windows are right

  /** The window is the scan, and perhaps one event more behind it. */
  ghost predicate ScanAndOneMore(s: seq<Event>, start: int, end: int) {
    && Within(s, start, end) <= EventsBetween(s, start, end)
    && |EventsBetween(s, start, end)| <= |Within(s, start, end)| + 1
  }

  ghost predicate AllWindowsRight(s: seq<Event>) {
    forall start, end :: ScanAndOneMore(s, start, end)
  }

  lemma WindowIsScanAndOneMore(s: seq<Event>, start: int, end: int)
    requires Increasing(s)
    ensures ScanAndOneMore(s, start, end)
  {
    hide EventsBetween, Within, Before, IsTime;
    EventWindow(s, start, end);
  }

  /** Both searches of a window (p, p) end at the same place, so at most one event comes back. */
  lemma PointWindow(s: seq<Event>, p: int)
    ensures EventsBetween(s, p, p) == if EventAt(s, p) < |s| then [s[EventAt(s, p)]] else []
  {
    hide EventAt;
  }

  /** Two events at one time: whatever the rest of the list, the window at that time misses one. */
  lemma SharedTime(s: seq<Event>, i: nat, j: nat)
    requires i < j < |s| && s[i].at == s[j].at
    ensures !ScanAndOneMore(s, s[i].at, s[i].at)
  {
    hide EventsBetween, Filter;
    var p := s[i].at;
    PointWindow(s, p);
    TwoPass(s, (e: Event) => p <= e.at <= p, i, j);
  }

  lemma RightMeansFound(s: seq<Event>, k: nat)
    requires AllWindowsRight(s) && k < |s|
    ensures EventAt(s, s[k].at) == k
  {
    hide EventsBetween, Filter, EventAt;
    var p := s[k].at;
    var at := (e: Event) => p <= e.at <= p;
    PointWindow(s, p);
    OnePasses(s, at, k);
    assert ScanAndOneMore(s, p, p);
    var i := EventAt(s, p);
    assert Within(s, p, p)[0] == s[i];
    FilterMembers(s, at, s[i]);
    if i < k {
      SharedTime(s, i, k);
    } else if k < i {
      SharedTime(s, k, i);
    }
  }

  ghost predicate FindsAll(s: seq<Event>, l: int, u: int)
    requires 0 <= l <= u + 1 <= |s|
  {
    forall k :: l <= k <= u ==> FindEvent(s, s[k].at, l, u) == k
  }

  ghost predicate IncreasingFrom(s: seq<Event>, l: int, u: int)
    requires 0 <= l <= u + 1 <= |s|
  {
    forall i, j :: l <= i < j <= u ==> s[i].at < s[j].at
  }

  lemma GoesLeft(s: seq<Event>, l: int, u: int, k: int)
    requires 0 <= l <= k < (l + u) / 2 && u < |s| && FindEvent(s, s[k].at, l, u) == k
    ensures s[k].at < s[(l + u) / 2].at && FindEvent(s, s[k].at, l, (l + u) / 2 - 1) == k
  {
  }

  lemma GoesRight(s: seq<Event>, l: int, u: int, k: int)
    requires 0 <= l && (l + u) / 2 < k <= u < |s| && FindEvent(s, s[k].at, l, u) == k
    ensures s[(l + u) / 2].at < s[k].at && FindEvent(s, s[k].at, (l + u) / 2 + 1, u) == k
  {
  }

  lemma Halves(s: seq<Event>, l: int, u: int)
    requires 0 <= l <= u < |s| && FindsAll(s, l, u)
    ensures FindsAll(s, l, (l + u) / 2 - 1) && FindsAll(s, (l + u) / 2 + 1, u)
    ensures forall k :: l <= k < (l + u) / 2 ==> s[k].at < s[(l + u) / 2].at
    ensures forall k :: (l + u) / 2 < k <= u ==> s[(l + u) / 2].at < s[k].at
  {
    hide FindEvent;
    var m := (l + u) / 2;
    forall k | l <= k < m ensures s[k].at < s[m].at && FindEvent(s, s[k].at, l, m - 1) == k {
      GoesLeft(s, l, u, k);
    }
    forall k | m < k <= u ensures s[m].at < s[k].at && FindEvent(s, s[k].at, m + 1, u) == k {
      GoesRight(s, l, u, k);
    }
  }

  lemma JoinHalves(s: seq<Event>, l: int, m: int, u: int)
    requires 0 <= l <= m <= u < |s| && IncreasingFrom(s, l, m - 1) && IncreasingFrom(s, m + 1, u)
    requires forall k :: l <= k < m ==> s[k].at < s[m].at
    requires forall k :: m < k <= u ==> s[m].at < s[k].at
    ensures IncreasingFrom(s, l, u)
  {
  }

  /** A binary search that finds every event has a list in order. */
  lemma {:induction false} FindsAllMeansIncreasing(s: seq<Event>, l: int, u: int)
    requires 0 <= l <= u + 1 <= |s| && FindsAll(s, l, u)
    ensures IncreasingFrom(s, l, u)
    decreases u - l + 1
  {
    hide FindEvent, FindsAll, IncreasingFrom;
    if l > u {
      NothingBetween(s, l, u);
    } else {
      var m := (l + u) / 2;
      Halves(s, l, u);
      FindsAllMeansIncreasing(s, l, m - 1);
      FindsAllMeansIncreasing(s, m + 1, u);
      JoinHalves(s, l, m, u);
    }
  }

  lemma NothingBetween(s: seq<Event>, l: int, u: int)
    requires 0 <= l == u + 1 <= |s|
    ensures IncreasingFrom(s, l, u)
  {
  }

  /** On any list, all windows are the scan and at most one event more exactly if the times increase. */
  lemma AllWindowsRightIff(s: seq<Event>)
    ensures AllWindowsRight(s) <==> Increasing(s)
  {
    hide ScanAndOneMore, FindEvent;
    if Increasing(s) {
      forall start, end ensures ScanAndOneMore(s, start, end) {
        WindowIsScanAndOneMore(s, start, end);
      }
    }
    if AllWindowsRight(s) && s != [] {
      forall k: nat | k < |s| ensures EventAt(s, s[k].at) == k {
        RightMeansFound(s, k);
      }
      FindsAllMeansIncreasing(s, 0, |s| - 1);
    }
  }

  /** Two events at one time: the window at that time returns only the first. */
  lemma EqualTimes()
    ensures var s := [Event(1, "a"), Event(1, "b")];
            EventsBetween(s, 1, 1) == s[..1] && Within(s, 1, 1) == s
  {
    var s := [Event(1, "a"), Event(1, "b")];
    assert s[0] == Event(1, "a");
    assert FindEvent(s, 1, 0, 1) == 0;
    PointWindow(s, 1);
    FilterIsSlice(s, (e: Event) => 1 <= e.at <= 1, 0, 2);
  }

  // ----- sorting

  lemma SortedIsIncreasing(s: seq<Event>)
    requires Pairwise(s, AtOtherTimes)
    ensures Increasing(Sorted(s, TimeOf))
  {
    var r := Sorted(s, TimeOf);
    assert Symmetric(AtOtherTimes);
    SortedInOrder(s, TimeOf);
    SortedPairwise(s, TimeOf, AtOtherTimes);
    hide Sorted;
    forall i, j | 0 <= i < j < |r| ensures r[i].at < r[j].at {
      assert AtOtherTimes(r[i], r[j]) && TimeOf(r[i]) <= TimeOf(r[j]);
    }
  }
}
