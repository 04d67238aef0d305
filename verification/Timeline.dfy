/** The data classes of utils/grid.py: lists of intervals and of events in time with binary-search windows. */
module Timeline {
  import opened LinearScan
  import opened RangeIndex
  import E = EventIndex

  class TimelineDataRange {
    const name: string
    var ranges: seq<DataRange>

    constructor (name: string)
      ensures this.name == name && ranges == []
    {
      this.name := name;
      ranges := [];
    }

    /** An interval with the key if there is one and the list is in order; never one without it. */
    method Search(key: int) returns (index: int)
      ensures index == RangeAt(ranges, key) && IsIndex(ranges, key, index)
    {
      hide IsIndex, FindRange, RangeAt;
      RangeAtIsIndex(ranges, key);
      SearchBegins(ranges, key);
      var l, u := 0, |ranges| - 1;
      while l <= u
        invariant 0 <= l <= u + 1 <= |ranges|
        invariant RangeAt(ranges, key) == FindRange(ranges, key, l, u)
        decreases u - l
      {
        FindStep(ranges, key, l, u);
        var i := (l + u) / 2;
        if Contains(ranges[i], key) {
          return i;
        } else if key < ranges[i].start {
          u := i - 1;
        } else {
          l := i + 1;
        }
      }
      return -1;
    }

    method AddRange(range: DataRange)
      modifies this
      ensures ranges == old(ranges) + [range]
    {
      ranges := ranges + [range];
    }

    method GetRanges(start: int, end: int) returns (r: seq<DataRange>)
      ensures r == RangesBetween(ranges, start, end)
      ensures Disjoint(ranges) ==> r == Found(ranges, start, end)
    {
      hide RangeAt, Found, Covered;
      if Disjoint(ranges) {
        BetweenIsFound(ranges, start, end);
      }
      var s := Search(start);
      var e := Search(end);
      if s == -1 && e == -1 {
        return [];
      } else if s == -1 {
        return Slice(ranges, 0, e + 1);
      } else if e == -1 {
        return Slice(ranges, s, |ranges|);
      } else {
        return Slice(ranges, s, e + 1);
      }
    }

    /** The same window as a pair of indices. */
    method GetRangesBounds(start: int, end: int) returns (lo: nat, hi: nat)
      ensures (lo, hi) == BoundsBetween(ranges, start, end)
      ensures Disjoint(ranges) ==> Slice(ranges, lo, hi) == Found(ranges, start, end)
    {
      hide RangeAt, Found, Covered;
      if Disjoint(ranges) {
        BetweenIsFound(ranges, start, end);
      }
      var s := Search(start);
      var e := Search(end);
      if s == -1 && e == -1 {
        return 0, 0;
      } else if s == -1 {
        return 0, e + 1;
      } else if e == -1 {
        return s, |ranges|;
      } else {
        return s, e + 1;
      }
    }

    /** Sorting by the start makes intervals that were apart in any order into a list the windows are right for. */
    method Sort()
      modifies this
      ensures multiset(ranges) == multiset(old(ranges)) && InOrder(ranges, StartOf)
      ensures forall k :: WithKey(ranges, StartOf, k) == WithKey(old(ranges), StartOf, k)
      ensures old(Proper(ranges) && Pairwise(ranges, Apart)) ==> Disjoint(ranges)
    {
      ghost var before := ranges;
      ranges := Sorted(ranges, StartOf);
      SortedInOrder(before, StartOf);
      forall k ensures WithKey(ranges, StartOf, k) == WithKey(before, StartOf, k) { SortedIsStable(before, StartOf, k); }
      if Proper(before) && Pairwise(before, Apart) {
        SortedIsDisjoint(before);
      }
    }

    /** The earliest start and the latest end; (0, 0) without ranges. */
    method GetBounds() returns (lo: int, hi: int)
      ensures ranges == [] ==> lo == 0 && hi == 0
      ensures Disjoint(ranges) ==> forall i :: 0 <= i < |ranges| ==> lo <= ranges[i].start && ranges[i].end <= hi
      ensures ranges != [] ==> lo == ranges[0].start && hi == ranges[|ranges| - 1].end
    {
      if |ranges| > 0 {
        return ranges[0].start, ranges[|ranges| - 1].end;
      } else {
        return 0, 0;
      }
    }
  }

  class TimelineEvent {
    const name: string
    var events: seq<E.Event>

    constructor (name: string)
      ensures this.name == name && events == []
    {
      this.name := name;
      events := [];
    }

    /** The place of the key in a list in order: nothing later comes before it and nothing earlier behind. */
    method Search(key: int) returns (l: nat)
      ensures l == E.EventAt(events, key) && E.IsPlace(events, key, l)
    {
      hide E.IsPlace, E.FindEvent, E.EventAt;
      E.EventAtIsPlace(events, key);
      E.SearchBegins(events, key);
      l := 0;
      var u := |events| - 1;
      while l <= u
        invariant 0 <= l <= u + 1 <= |events|
        invariant E.EventAt(events, key) == E.FindEvent(events, key, l, u)
        decreases u - l
      {
        E.FindStep(events, key, l, u);
        var i := (l + u) / 2;
        if key == events[i].at {
          return i;
        } else if key < events[i].at {
          u := i - 1;
        } else {
          l := i + 1;
        }
      }
    }

    method AddEvent(event: E.Event)
      modifies this
      ensures events == old(events) + [event]
    {
      events := events + [event];
    }

    method GetEvents(start: int, end: int) returns (r: seq<E.Event>)
      ensures r == E.EventsBetween(events, start, end)
      ensures E.Increasing(events) ==>
                r == E.Within(events, start, end) + if E.OneMore(events, start, end) then E.Next(events, end) else []
    {
      hide E.Within, E.Next, E.OneMore, E.EventAt;
      if E.Increasing(events) {
        E.EventWindow(events, start, end);
      }
      var s := Search(start);
      var e := Search(end);
      return Slice(events, s, e + 1);
    }

    /** The window as a pair of indices; the second one may be behind the list by one. */
    method GetEventsBounds(start: int, end: int) returns (lo: nat, hi: nat)
      ensures lo == E.EventAt(events, start) && hi == E.EventAt(events, end) + 1
      ensures Slice(events, lo, hi) == E.EventsBetween(events, start, end)
      ensures E.Increasing(events) ==> lo == E.Before(events, start) && hi == E.Before(events, end) + 1
    {
      hide E.EventAt, E.Before;
      if E.Increasing(events) {
        E.IncreasingSplits(events, start);
        E.IncreasingSplits(events, end);
        E.BeforeSplits(events, start, E.EventAt(events, start));
        E.BeforeSplits(events, end, E.EventAt(events, end));
      }
      var s := Search(start);
      var e := Search(end);
      return s, e + 1;
    }

    /** Sorting events at different times makes them a list the windows are right for. */
    method Sort()
      modifies this
      ensures multiset(events) == multiset(old(events)) && InOrder(events, E.TimeOf)
      ensures forall k :: WithKey(events, E.TimeOf, k) == WithKey(old(events), E.TimeOf, k)
      ensures old(Pairwise(events, E.AtOtherTimes)) ==> E.Increasing(events)
    {
      ghost var before := events;
      events := Sorted(events, E.TimeOf);
      SortedInOrder(before, E.TimeOf);
      forall k ensures WithKey(events, E.TimeOf, k) == WithKey(before, E.TimeOf, k) { SortedIsStable(before, E.TimeOf, k); }
      if Pairwise(before, E.AtOtherTimes) {
        E.SortedIsIncreasing(before);
      }
    }

    /** The first and the last time; (0, 0) without events. */
    method GetBounds() returns (lo: int, hi: int)
      ensures events == [] ==> lo == 0 && hi == 0
      ensures InOrder(events, E.TimeOf) ==> forall i :: 0 <= i < |events| ==> lo <= events[i].at <= hi
      ensures events != [] ==> lo == events[0].at && hi == events[|events| - 1].at
    {
      if |events| > 0 {
        lo, hi := events[0].at, events[|events| - 1].at;
        assert InOrder(events, E.TimeOf) ==> forall i :: 0 <= i < |events| ==> E.TimeOf(events[0]) <= E.TimeOf(events[i]);
        assert InOrder(events, E.TimeOf) ==> forall i :: 0 <= i < |events| ==> E.TimeOf(events[i]) <= E.TimeOf(events[|events| - 1]);
      } else {
        return 0, 0;
      }
    }
  }
}
