/** Binary searches over the events and ranges of a timeline, against a linear scan. */
module Timeline {

  // ---- Events ----

  datatype EventInt = EventInt(at: real, value: real)

  ghost predicate Ordered(events: seq<EventInt>) {
    forall i, j :: 0 <= i < j < |events| ==> events[i].at <= events[j].at
  }

  ghost predicate StrictlyOrdered(events: seq<EventInt>) {
    forall i, j :: 0 <= i < j < |events| ==> events[i].at < events[j].at
  }

  /** The index at which the binary search of the events from l to u stops. */
  function FindEvent(events: seq<EventInt>, key: real, l: int, u: int): (r: int)
    requires 0 <= l <= u + 1 <= |events|
    ensures l <= r <= u + 1
    decreases u - l
  {
    if l > u then l else
      var i := (l + u) / 2;
      if key == events[i].at then i
      else if key < events[i].at then FindEvent(events, key, l, i - 1)
      else FindEvent(events, key, i + 1, u)
  }

  lemma EventStep(events: seq<EventInt>, key: real, l: int, u: int)
    requires 0 <= l <= u < |events|
    ensures var i := (l + u) / 2;
            && l <= i <= u
            && (key == events[i].at ==> FindEvent(events, key, l, u) == i)
            && (key < events[i].at ==> FindEvent(events, key, l, u) == FindEvent(events, key, l, i - 1))
            && (key > events[i].at ==> FindEvent(events, key, l, u) == FindEvent(events, key, i + 1, u))
  {
  }

  function EventAt(events: seq<EventInt>, key: real): int {
    FindEvent(events, key, 0, |events| - 1)
  }

  /** An event at the key, or the place where the key belongs. */
  ghost predicate Located(events: seq<EventInt>, key: real, r: int) {
    && 0 <= r <= |events|
    && ((r < |events| && events[r].at == key) ||
        ((forall i :: 0 <= i < r ==> events[i].at < key) && (forall i :: r <= i < |events| ==> events[i].at > key)))
  }

  /** An event of the window is among those with indices from lo up to but not including hi. */
  ghost predicate Covers(events: seq<EventInt>, lo: int, hi: int, start: real, end: real) {
    forall i :: 0 <= i < |events| && start <= events[i].at <= end ==> lo <= i < hi
  }

  class TimelineEvent {
    var events: seq<EventInt>

    constructor (events: seq<EventInt>)
      ensures this.events == events
    {
      this.events := events;
    }

    method Search(key: real) returns (r: int)
      ensures r == EventAt(events, key)
      ensures Ordered(events) ==> Located(events, key, r)
    {
      hide *;
      EventAtIsLocated(events, key);
      var l, u := 0, |events| - 1;
      while l <= u
        invariant 0 <= l <= u + 1 <= |events|
        invariant FindEvent(events, key, l, u) == EventAt(events, key)
        decreases u - l
      {
        EventStep(events, key, l, u);
        var i := (l + u) / 2;
        if key == events[i].at {
          return i;
        } else if key < events[i].at {
          u := i - 1;
        } else {
          l := i + 1;
        }
      }
      return l;
    }

    method GetEventsBounds(start: real, end: real) returns (lo: int, hi: int)
      ensures lo == EventAt(events, start) && hi == EventAt(events, end) + 1
      ensures StrictlyOrdered(events) ==> Covers(events, lo, hi, start, end)
      ensures StrictlyOrdered(events) ==>
        forall i :: lo <= i < hi && i < |events| ==> start <= events[i].at && (events[i].at <= end || i == hi - 1)
    {
      lo := Search(start);
      var e := Search(end);
      hi := e + 1;
    }
  }

  lemma {:induction false} EventIsLocated(events: seq<EventInt>, key: real, l: int, u: int)
    requires Ordered(events) && 0 <= l <= u + 1 <= |events|
    requires forall i :: 0 <= i < l ==> events[i].at < key
    requires forall i :: u < i < |events| ==> events[i].at > key
    ensures Located(events, key, FindEvent(events, key, l, u))
    decreases u - l
  {
    hide FindEvent;
    if l <= u {
      EventStep(events, key, l, u);
      var i := (l + u) / 2;
      if key < events[i].at {
        EventIsLocated(events, key, l, i - 1);
      } else if key > events[i].at {
        EventIsLocated(events, key, i + 1, u);
      }
    }
  }

  lemma EventAtIsLocated(events: seq<EventInt>, key: real)
    ensures EventAt(events, key) == FindEvent(events, key, 0, |events| - 1)
    ensures Ordered(events) ==> Located(events, key, EventAt(events, key))
  {
    if Ordered(events) {
      EventIsLocated(events, key, 0, |events| - 1);
    }
  }

  /** With distinct times the bounds hold every event of the window, and besides those at most one
      event: the first one after the window. */
  lemma BoundsAreTight(events: seq<EventInt>, start: real, end: real)
    requires StrictlyOrdered(events)
    ensures var lo, hi := EventAt(events, start), EventAt(events, end) + 1;
            && Covers(events, lo, hi, start, end)
            && forall i :: lo <= i < hi && i < |events| ==>
                 start <= events[i].at && (events[i].at <= end || i == hi - 1)
  {
    hide FindEvent;
    hide EventAt;
    EventAtIsLocated(events, start);
    EventAtIsLocated(events, end);
  }

  /** The search from l to u finds every event there at its own index. */
  ghost predicate FindsAll(events: seq<EventInt>, l: int, u: int)
    requires 0 <= l <= u + 1 <= |events|
  {
    forall i :: l <= i <= u ==> FindEvent(events, events[i].at, l, u) == i
  }

  ghost predicate Rising(events: seq<EventInt>, l: int, u: int)
    requires 0 <= l <= u + 1 <= |events|
  {
    forall i, j :: l <= i < j <= u ==> events[i].at < events[j].at
  }

  /** Such a search finds the events of each half there, and the middle event lies between the halves. */
  lemma MiddleEventSplits(events: seq<EventInt>, l: int, u: int)
    requires 0 <= l <= u < |events| && FindsAll(events, l, u)
    ensures var m := (l + u) / 2;
            && FindsAll(events, l, m - 1) && FindsAll(events, m + 1, u)
            && (forall i :: l <= i < m ==> events[i].at < events[m].at)
            && (forall i :: m < i <= u ==> events[m].at < events[i].at)
  {
    hide FindEvent;
    var m := (l + u) / 2;
    forall i | l <= i <= u
      ensures i < m ==> events[i].at < events[m].at && FindEvent(events, events[i].at, l, m - 1) == i
      ensures i > m ==> events[m].at < events[i].at && FindEvent(events, events[i].at, m + 1, u) == i
    {
      EventStep(events, events[i].at, l, u);
    }
  }

  lemma {:induction false} FoundMeansRising(events: seq<EventInt>, l: int, u: int)
    requires 0 <= l <= u + 1 <= |events| && FindsAll(events, l, u)
    ensures Rising(events, l, u)
    decreases u - l
  {
    hide FindsAll;
    hide FindEvent;
    if l <= u {
      var m := (l + u) / 2;
      MiddleEventSplits(events, l, u);
      FoundMeansRising(events, l, m - 1);
      FoundMeansRising(events, m + 1, u);
    }
  }

  /** The bounds cover every window exactly when the events are in order at distinct times. */
  lemma CoversExactlyWhenStrict(events: seq<EventInt>)
    ensures StrictlyOrdered(events) <==>
            forall start, end :: Covers(events, EventAt(events, start), EventAt(events, end) + 1, start, end)
  {
    hide FindEvent;
    if StrictlyOrdered(events) {
      forall start, end
        ensures Covers(events, EventAt(events, start), EventAt(events, end) + 1, start, end)
      {
        BoundsAreTight(events, start, end);
      }
    } else if forall start, end :: Covers(events, EventAt(events, start), EventAt(events, end) + 1, start, end) {
      forall i | 0 <= i < |events|
        ensures FindEvent(events, events[i].at, 0, |events| - 1) == i
      {
        var t := events[i].at;
        assert Covers(events, EventAt(events, t), EventAt(events, t) + 1, t, t);
      }
      FoundMeansRising(events, 0, |events| - 1);
      assert false;
    }
  }

  /** Among events at one time the search stops at the middle one. */
  lemma SearchStopsInTheMiddle(events: seq<EventInt>, t: real)
    requires events != [] && forall i :: 0 <= i < |events| ==> events[i].at == t
    ensures EventAt(events, t) == (|events| - 1) / 2
  {
  }

  /** Of two events at one time the window of that time gets the first only. */
  lemma SecondEventIsMissed(t: real, v: real, w: real)
    ensures var events := [EventInt(t, v), EventInt(t, w)];
            Ordered(events) && EventAt(events, t) == 0 && !Covers(events, 0, 1, t, t)
  {
    var events := [EventInt(t, v), EventInt(t, w)];
    assert t <= events[1].at <= t;
  }

  // ---- Ranges ----

  datatype DataRange = DataRange(start: real, end: real)

  /** Ranges one after the other; the end of one may be the start of the next. */
  ghost predicate InSequence(ranges: seq<DataRange>) {
    && (forall i :: 0 <= i < |ranges| ==> ranges[i].start <= ranges[i].end)
    && (forall i, j :: 0 <= i < j < |ranges| ==> ranges[i].end <= ranges[j].start)
  }

  predicate Holds(range: DataRange, key: real) {
    range.start <= key <= range.end
  }

  ghost predicate SomeHolds(ranges: seq<DataRange>, key: real) {
    exists i :: 0 <= i < |ranges| && Holds(ranges[i], key)
  }

  predicate Inside(range: DataRange, p: real) {
    range.start < p < range.end
  }

  /** The range and the window have a point in common. */
  predicate Touches(range: DataRange, start: real, end: real) {
    range.start <= end && start <= range.end
  }

  /** They have more in common than an end point of the window with one of the range. */
  predicate Overlaps(range: DataRange, start: real, end: real) {
    range.start < end && start < range.end
  }

  ghost predicate CoversRanges(ranges: seq<DataRange>, lo: int, hi: int, start: real, end: real) {
    forall i :: 0 <= i < |ranges| && Overlaps(ranges[i], start, end) ==> lo <= i < hi
  }

  /** The range at which the binary search of the ranges from l to u stops, or -1. */
  function FindRange(ranges: seq<DataRange>, key: real, l: int, u: int): (r: int)
    requires 0 <= l <= u + 1 <= |ranges|
    ensures r == -1 || (l <= r <= u && Holds(ranges[r], key))
    decreases u - l
  {
    if l > u then -1 else
      var i := (l + u) / 2;
      if Holds(ranges[i], key) then i
      else if key < ranges[i].start then FindRange(ranges, key, l, i - 1)
      else FindRange(ranges, key, i + 1, u)
  }

  lemma RangeStep(ranges: seq<DataRange>, key: real, l: int, u: int)
    requires 0 <= l <= u < |ranges|
    ensures var i := (l + u) / 2;
            && l <= i <= u
            && (ranges[i].start <= key <= ranges[i].end ==> FindRange(ranges, key, l, u) == i)
            && (key < ranges[i].start ==> FindRange(ranges, key, l, u) == FindRange(ranges, key, l, i - 1))
            && (key >= ranges[i].start && key > ranges[i].end ==>
                FindRange(ranges, key, l, u) == FindRange(ranges, key, i + 1, u))
  {
  }

  function RangeAt(ranges: seq<DataRange>, key: real): int {
    FindRange(ranges, key, 0, |ranges| - 1)
  }

  /** The bounds that the ranges found at the ends of the window give. */
  function RangeBounds(ranges: seq<DataRange>, start: real, end: real): (int, int) {
    var s, e := RangeAt(ranges, start), RangeAt(ranges, end);
    (if s == -1 then 0 else s, if e >= 0 then e + 1 else if s >= 0 then |ranges| else 0)
  }

  class TimelineDataRange {
    var ranges: seq<DataRange>

    constructor (ranges: seq<DataRange>)
      ensures this.ranges == ranges
    {
      this.ranges := ranges;
    }

    method Search(key: real) returns (r: int)
      ensures r == RangeAt(ranges, key)
      ensures r == -1 || (0 <= r < |ranges| && Holds(ranges[r], key))
      ensures InSequence(ranges) ==> (r == -1 <==> !SomeHolds(ranges, key))
    {
      hide *;
      RangeAtIsExact(ranges, key);
      var l, u := 0, |ranges| - 1;
      while l <= u
        invariant 0 <= l <= u + 1 <= |ranges|
        invariant FindRange(ranges, key, l, u) == RangeAt(ranges, key)
        decreases u - l
      {
        RangeStep(ranges, key, l, u);
        var i := (l + u) / 2;
        if key >= ranges[i].start && key <= ranges[i].end {
          return i;
        } else if key < ranges[i].start {
          u := i - 1;
        } else {
          l := i + 1;
        }
      }
      return -1;
    }

    method GetRangesBounds(start: real, end: real) returns (lo: int, hi: int)
      ensures (lo, hi) == RangeBounds(ranges, start, end)
      ensures 0 <= lo <= |ranges| && 0 <= hi <= |ranges|
      ensures InSequence(ranges) ==>
        (CoversRanges(ranges, lo, hi, start, end) <==>
         SomeHolds(ranges, start) || SomeHolds(ranges, end) ||
         forall i :: 0 <= i < |ranges| ==> !Overlaps(ranges[i], start, end))
      ensures InSequence(ranges) && SomeHolds(ranges, start) && SomeHolds(ranges, end) ==>
        forall i :: lo <= i < hi ==> Touches(ranges[i], start, end)
      ensures InSequence(ranges) ==>
        if SomeHolds(ranges, start) then lo < |ranges| && Holds(ranges[lo], start) else lo == 0
      ensures InSequence(ranges) ==>
        if SomeHolds(ranges, end) then hi > 0 && Holds(ranges[hi - 1], end)
        else hi == if SomeHolds(ranges, start) then |ranges| else 0
    {
      if InSequence(ranges) {
        BoundsMissRanges(ranges, start, end);
      }
      var s := Search(start);
      var e := Search(end);
      if s == -1 && e == -1 {
        lo, hi := 0, 0;
      } else if s == -1 {
        lo, hi := 0, e + 1;
      } else if e == -1 {
        lo, hi := s, |ranges|;
      } else {
        lo, hi := s, e + 1;
      }
    }
  }

  lemma {:induction false} RangeIsFound(ranges: seq<DataRange>, key: real, l: int, u: int)
    requires InSequence(ranges) && 0 <= l <= u + 1 <= |ranges|
    requires forall i :: 0 <= i < |ranges| && Holds(ranges[i], key) ==> l <= i <= u
    ensures FindRange(ranges, key, l, u) == -1 <==> !SomeHolds(ranges, key)
    decreases u - l
  {
    hide FindRange;
    if l <= u {
      RangeStep(ranges, key, l, u);
      var i := (l + u) / 2;
      if Holds(ranges[i], key) {
      } else if key < ranges[i].start {
        RangeIsFound(ranges, key, l, i - 1);
      } else {
        RangeIsFound(ranges, key, i + 1, u);
      }
    }
  }

  lemma RangeAtIsExact(ranges: seq<DataRange>, key: real)
    ensures RangeAt(ranges, key) == FindRange(ranges, key, 0, |ranges| - 1)
    ensures InSequence(ranges) ==> (RangeAt(ranges, key) == -1 <==> !SomeHolds(ranges, key))
  {
    if InSequence(ranges) {
      RangeIsFound(ranges, key, 0, |ranges| - 1);
    }
  }

  /** The ranges between the bounds include all that overlap the window, except when neither end of the
      window lies in a range while some range overlaps it. */
  lemma BoundsMissRanges(ranges: seq<DataRange>, start: real, end: real)
    requires InSequence(ranges)
    ensures var (lo, hi) := RangeBounds(ranges, start, end);
            && (CoversRanges(ranges, lo, hi, start, end) <==>
                SomeHolds(ranges, start) || SomeHolds(ranges, end) ||
                forall i :: 0 <= i < |ranges| ==> !Overlaps(ranges[i], start, end))
            && (SomeHolds(ranges, start) && SomeHolds(ranges, end) ==>
                forall i :: lo <= i < hi ==> Touches(ranges[i], start, end))
            && (if SomeHolds(ranges, start) then 0 <= lo < |ranges| && Holds(ranges[lo], start) else lo == 0)
            && (if SomeHolds(ranges, end) then 0 < hi <= |ranges| && Holds(ranges[hi - 1], end)
                else hi == if SomeHolds(ranges, start) then |ranges| else 0)
  {
    hide FindRange;
    RangeAtIsExact(ranges, start);
    RangeAtIsExact(ranges, end);
  }

  /** The search from l to u finds every range there from each of its inner points. */
  ghost predicate FindsInner(ranges: seq<DataRange>, l: int, u: int)
    requires 0 <= l <= u + 1 <= |ranges|
  {
    forall i, p :: l <= i <= u && Inside(ranges[i], p) ==> FindRange(ranges, p, l, u) == i
  }

  /** Such a search finds the ranges of each half there, and the middle range lies between the halves. */
  lemma MiddleSplits(ranges: seq<DataRange>, l: int, u: int)
    requires 0 <= l <= u < |ranges| && FindsInner(ranges, l, u)
    ensures var m := (l + u) / 2;
            && FindsInner(ranges, l, m - 1) && FindsInner(ranges, m + 1, u)
            && (forall i, p :: l <= i < m && Inside(ranges[i], p) ==> p < ranges[m].start)
            && (forall i, p :: m < i <= u && Inside(ranges[i], p) ==> p > ranges[m].end)
  {
    hide FindRange;
    var m := (l + u) / 2;
    forall i, p | l <= i <= u && Inside(ranges[i], p)
      ensures i < m ==> p < ranges[m].start && FindRange(ranges, p, l, m - 1) == i
      ensures i > m ==> p > ranges[m].end && FindRange(ranges, p, m + 1, u) == i
    {
      RangeStep(ranges, p, l, u);
    }
  }

  ghost predicate Apart(ranges: seq<DataRange>, l: int, u: int)
    requires 0 <= l <= u + 1 <= |ranges|
  {
    forall i, j :: l <= i < j <= u ==> ranges[i].end <= ranges[j].start
  }

  /** A search that finds every range from each of its inner points has the ranges in sequence. */
  lemma {:induction false} FoundMeansApart(ranges: seq<DataRange>, l: int, u: int)
    requires 0 <= l <= u + 1 <= |ranges|
    requires forall i :: l <= i <= u ==> ranges[i].start < ranges[i].end
    requires FindsInner(ranges, l, u)
    ensures Apart(ranges, l, u)
    decreases u - l
  {
    if l <= u {
      hide *;
      var m := (l + u) / 2;
      MiddleSplits(ranges, l, u);
      FoundMeansApart(ranges, l, m - 1);
      FoundMeansApart(ranges, m + 1, u);
      forall i | l <= i <= u
        ensures i < m ==> ranges[i].end <= ranges[m].start
        ensures i > m ==> ranges[m].end <= ranges[i].start
      {
        Between(ranges[i], ranges[m]);
      }
      JoinApart(ranges, l, m, u);
    }
  }

  lemma JoinApart(ranges: seq<DataRange>, l: int, m: int, u: int)
    requires 0 <= l <= m <= u < |ranges| && Apart(ranges, l, m - 1) && Apart(ranges, m + 1, u)
    requires ranges[m].start < ranges[m].end
    requires forall i :: l <= i <= u ==>
      (i < m ==> ranges[i].end <= ranges[m].start) && (i > m ==> ranges[m].end <= ranges[i].start)
    ensures Apart(ranges, l, u)
  {
  }

  /** Intervals without a common inner point lie one after the other. */
  lemma Between(a: DataRange, b: DataRange)
    requires a.start < a.end
    ensures (forall p :: Inside(a, p) ==> p < b.start) ==> a.end <= b.start
    ensures (forall p :: Inside(a, p) ==> p > b.end) ==> b.end <= a.start
  {
    var p := ((if b.start > a.start then b.start else a.start) + a.end) / 2.0;
    var q := ((if b.end < a.end then b.end else a.end) + a.start) / 2.0;
    assert b.start < a.end ==> Inside(a, p);
    assert a.start < b.end ==> Inside(a, q);
  }

  /** For ranges of positive length: all windows with an end in some range are covered exactly when
      no two ranges overlap and all are in order. */
  lemma CoversExactlyWhenInSequence(ranges: seq<DataRange>)
    requires forall i :: 0 <= i < |ranges| ==> ranges[i].start < ranges[i].end
    ensures InSequence(ranges) <==>
            forall start, end :: SomeHolds(ranges, start) || SomeHolds(ranges, end) ==>
              CoversRanges(ranges, RangeBounds(ranges, start, end).0, RangeBounds(ranges, start, end).1, start, end)
  {
    if InSequence(ranges) {
      forall start, end | SomeHolds(ranges, start) || SomeHolds(ranges, end)
        ensures CoversRanges(ranges, RangeBounds(ranges, start, end).0, RangeBounds(ranges, start, end).1, start, end)
      {
        BoundsMissRanges(ranges, start, end);
      }
    } else if forall start, end :: SomeHolds(ranges, start) || SomeHolds(ranges, end) ==>
              CoversRanges(ranges, RangeBounds(ranges, start, end).0, RangeBounds(ranges, start, end).1, start, end) {
      forall i, p | 0 <= i < |ranges| && Inside(ranges[i], p)
        ensures FindRange(ranges, p, 0, |ranges| - 1) == i
      {
        assert Holds(ranges[i], p) && Overlaps(ranges[i], p, p);
        assert SomeHolds(ranges, p);
        assert CoversRanges(ranges, RangeBounds(ranges, p, p).0, RangeBounds(ranges, p, p).1, p, p);
      }
      FoundMeansApart(ranges, 0, |ranges| - 1);
      assert false;
    }
  }

  /** Among ranges that all hold the key the search stops at the middle one. */
  lemma RangeSearchStopsInTheMiddle(ranges: seq<DataRange>, key: real)
    requires ranges != [] && forall i :: 0 <= i < |ranges| ==> Holds(ranges[i], key)
    ensures RangeAt(ranges, key) == (|ranges| - 1) / 2
  {
  }

  /** A window that reaches beyond the only range on both sides gets nothing. */
  lemma WideWindowMissesTheRange(range: DataRange, start: real, end: real)
    requires start < range.start <= range.end < end
    ensures RangeBounds([range], start, end) == (0, 0) && !CoversRanges([range], 0, 0, start, end)
  {
    assert Overlaps([range][0], start, end);
  }
}
