/** The timeline viewer's lists: binary search over sorted disjoint ranges and over sorted events,
    and the slices selected with it. */
module Timeline {

  datatype DataRange = DataRange(start: int, end: int, value: string)

  datatype EventString = EventString(at: int, value: string)

  /** Python's s[lo:hi] for non-negative bounds. */
  function Slice<T>(s: seq<T>, lo: nat, hi: nat): (r: seq<T>)
    ensures |r| == if lo >= hi || lo >= |s| then 0 else if hi <= |s| then hi - lo else |s| - lo
    ensures forall i :: 0 <= i < |r| ==> r[i] == s[lo + i]
  {
    var to := if hi < |s| then hi else |s|;
    if lo < to then s[lo..to] else []
  }

  // ---------------------------------------------------------------------------
  // Ranges
  // ---------------------------------------------------------------------------

  predicate Contains(r: DataRange, key: int) {
    r.start <= key <= r.end
  }

  ghost predicate Meets(r: DataRange, start: int, end: int) {
    r.start <= end && start <= r.end
  }

  ghost predicate SortedDisjoint(ranges: seq<DataRange>) {
    && (forall i :: 0 <= i < |ranges| ==> ranges[i].start <= ranges[i].end)
    && (forall i, j :: 0 <= i < j < |ranges| ==> ranges[i].end < ranges[j].start)
  }

  ghost predicate IsHit(ranges: seq<DataRange>, key: int, i: int) {
    0 <= i < |ranges| && ranges[i].start <= key <= ranges[i].end
  }

  /** What a search returns: an index whose range contains the key, or -1 if (in a sorted disjoint
      list) there is none. */
  ghost predicate IsFound(ranges: seq<DataRange>, key: int, i: int) {
    IsHit(ranges, key, i) || (i == -1 && (SortedDisjoint(ranges) ==> forall j :: !IsHit(ranges, key, j)))
  }

  /** The binary search between positions `l` and `u`. */
  ghost function Probe(ranges: seq<DataRange>, key: int, l: int, u: int): int
    requires 0 <= l <= u + 1 <= |ranges|
    decreases u - l + 1
  {
    if l > u then -1 else
      var i := (l + u) / 2;
      if Contains(ranges[i], key) then i
      else if key < ranges[i].start then Probe(ranges, key, l, i - 1)
      else Probe(ranges, key, i + 1, u)
  }

  ghost function Find(ranges: seq<DataRange>, key: int): int {
    Probe(ranges, key, 0, |ranges| - 1)
  }

  lemma {:induction false} ProbeFinds(ranges: seq<DataRange>, key: int, l: int, u: int)
    requires 0 <= l <= u + 1 <= |ranges|
    requires SortedDisjoint(ranges) ==> forall j :: IsHit(ranges, key, j) ==> l <= j <= u
    ensures IsFound(ranges, key, Probe(ranges, key, l, u))
    decreases u - l + 1
  {
    if l <= u {
      var i := (l + u) / 2;
      if Contains(ranges[i], key) {
      } else if key < ranges[i].start {
        ProbeFinds(ranges, key, l, i - 1);
      } else {
        ProbeFinds(ranges, key, i + 1, u);
      }
    }
  }

  /** The bounds get_ranges_bounds computes from the two search results. */
  function Bounds(s: int, e: int, n: nat): (int, int) {
    if s == -1 && e == -1 then (0, 0)
    else if s == -1 then (0, e + 1)
    else if e == -1 then (s, n)
    else (s, e + 1)
  }

  ghost function BoundsOf(ranges: seq<DataRange>, start: int, end: int): (b: (int, int))
    ensures 0 <= b.0 <= |ranges| && 0 <= b.1 <= |ranges|
  {
    ProbeFinds(ranges, start, 0, |ranges| - 1);
    ProbeFinds(ranges, end, 0, |ranges| - 1);
    Bounds(Find(ranges, start), Find(ranges, end), |ranges|)
  }

  ghost predicate SelectsExactly(ranges: seq<DataRange>, bounds: (int, int), start: int, end: int) {
    forall i :: 0 <= i < |ranges| ==> (bounds.0 <= i < bounds.1 <==> Meets(ranges[i], start, end))
  }

  /** Both keys fall before, after or strictly between the same two neighbouring ranges. */
  ghost predicate SameGap(ranges: seq<DataRange>, start: int, end: int) {
    || ranges == [] || end < ranges[0].start || ranges[|ranges| - 1].end < start
    || exists i :: 0 <= i < |ranges| - 1 && ranges[i].end < start && end < ranges[i + 1].start
  }

  lemma TwoHitsAreExact(ranges: seq<DataRange>, start: int, end: int, s: int, e: int)
    requires SortedDisjoint(ranges) && start <= end
    requires IsHit(ranges, start, s) && IsHit(ranges, end, e)
    ensures s <= e && SelectsExactly(ranges, Bounds(s, e, |ranges|), start, end)
  {
  }

  /** One hit selects every range that meets the interval, perhaps among others; there are no others
      exactly when the missing key lies outside the whole list. */
  lemma OneHitIsSuperset(ranges: seq<DataRange>, start: int, end: int, s: int, e: int)
    requires SortedDisjoint(ranges) && start <= end
    requires IsFound(ranges, start, s) && IsFound(ranges, end, e) && (s == -1) != (e == -1)
    ensures var b := Bounds(s, e, |ranges|);
            && (forall i :: 0 <= i < |ranges| && Meets(ranges[i], start, end) ==> b.0 <= i < b.1)
            && (SelectsExactly(ranges, b, start, end) <==> start < ranges[0].start || ranges[|ranges| - 1].end < end)
  {
    if s == -1 {
      assert !IsHit(ranges, start, 0);
    } else {
      assert !IsHit(ranges, end, |ranges| - 1);
    }
  }

  /** Two misses select nothing; that is right exactly when both keys fall into the same gap. */
  lemma TwoMissesSelectNothing(ranges: seq<DataRange>, start: int, end: int)
    requires SortedDisjoint(ranges) && start <= end
    requires IsFound(ranges, start, -1) && IsFound(ranges, end, -1)
    ensures SelectsExactly(ranges, Bounds(-1, -1, |ranges|), start, end) <==> SameGap(ranges, start, end)
  {
    if SelectsExactly(ranges, (0, 0), start, end) && ranges != [] {
      var i := 0;
      while i < |ranges| && ranges[i].end < start
        invariant 0 <= i <= |ranges|
        invariant forall j :: 0 <= j < i ==> ranges[j].end < start
      {
        i := i + 1;
      }
      assert i < |ranges| ==> !Meets(ranges[i], start, end);
      if 0 < i < |ranges| { assert ranges[i - 1].end < start && end < ranges[i - 1 + 1].start; }
    }
  }

  /** When a timeline query over sorted disjoint ranges is exact. */
  ghost predicate IsExactQuery(ranges: seq<DataRange>, start: int, end: int) {
    var hitStart, hitEnd := exists i :: IsHit(ranges, start, i), exists i :: IsHit(ranges, end, i);
    if hitStart && hitEnd then true
    else if hitStart || hitEnd then
      ranges != [] && (start < ranges[0].start || ranges[|ranges| - 1].end < end)
    else SameGap(ranges, start, end)
  }

  /** A query returns exactly the ranges that meet [start, end] if and only if both keys hit, or one
      hits and the other lies outside the whole list, or both miss in the same gap. */
  lemma QueryIsExactIff(ranges: seq<DataRange>, start: int, end: int)
    requires SortedDisjoint(ranges) && start <= end
    ensures SelectsExactly(ranges, BoundsOf(ranges, start, end), start, end) <==> IsExactQuery(ranges, start, end)
  {
    var s, e := Find(ranges, start), Find(ranges, end);
    ProbeFinds(ranges, start, 0, |ranges| - 1);
    ProbeFinds(ranges, end, 0, |ranges| - 1);
    hide Find, SelectsExactly, SameGap;
    assert s != -1 <==> exists i :: IsHit(ranges, start, i);
    assert e != -1 <==> exists i :: IsHit(ranges, end, i);
    if s != -1 && e != -1 {
      TwoHitsAreExact(ranges, start, end, s, e);
    } else if s != -1 || e != -1 {
      OneHitIsSuperset(ranges, start, end, s, e);
    } else {
      TwoMissesSelectNothing(ranges, start, end);
    }
  }

  /** A query from before the only range to after it gets nothing at all. */
  lemma QueryAroundMissesAll()
    ensures var rs := [DataRange(5, 6, "")];
            && SortedDisjoint(rs) && Meets(rs[0], 1, 9)
            && BoundsOf(rs, 1, 9) == (0, 0) && !SelectsExactly(rs, BoundsOf(rs, 1, 9), 1, 9)
  {
    var rs := [DataRange(5, 6, "")];
    assert !IsHit(rs, 1, 0) && !IsHit(rs, 9, 0);
    ProbeFinds(rs, 1, 0, 0);
    ProbeFinds(rs, 9, 0, 0);
  }

  /** A query that starts in a range and ends in a gap gets everything from that range on, also what
      lies past its end. */
  lemma QueryIntoGapTakesTheRest()
    ensures var rs := [DataRange(1, 2, ""), DataRange(8, 9, "")];
            && SortedDisjoint(rs) && !Meets(rs[1], 1, 5)
            && BoundsOf(rs, 1, 5) == (0, 2) && !SelectsExactly(rs, BoundsOf(rs, 1, 5), 1, 5)
  {
    var rs := [DataRange(1, 2, ""), DataRange(8, 9, "")];
    assert IsHit(rs, 1, 0) && !IsHit(rs, 1, 1) && !IsHit(rs, 5, 0) && !IsHit(rs, 5, 1);
    ProbeFinds(rs, 1, 0, 1);
    ProbeFinds(rs, 5, 0, 1);
  }

  /** The range starts after all of the list ends. */
  ghost predicate Follows(ranges: seq<DataRange>, range: DataRange) {
    range.start <= range.end && (ranges != [] ==> ranges[|ranges| - 1].end < range.start)
  }

  /** A list stays sorted and disjoint exactly as long as every added range follows the last. */
  lemma SortedDisjointNext(ranges: seq<DataRange>, range: DataRange)
    ensures SortedDisjoint(ranges + [range]) <==> SortedDisjoint(ranges) && Follows(ranges, range)
  {
    var all := ranges + [range];
    assert forall i :: 0 <= i < |ranges| ==> all[i] == ranges[i];
    assert all[|ranges|] == range;
    if SortedDisjoint(all) {
      assert ranges != [] ==> all[|ranges| - 1].end < all[|ranges|].start;
      forall i, j | 0 <= i < j < |ranges| ensures ranges[i].end < ranges[j].start {
        assert all[i].end < all[j].start;
      }
      forall i | 0 <= i < |ranges| ensures ranges[i].start <= ranges[i].end {
        assert all[i].start <= all[i].end;
      }
    }
  }

  ghost predicate Hits(ranges: seq<DataRange>, key: int) {
    exists i :: IsHit(ranges, key, i)
  }

  /** The bounds of a query over a sorted disjoint list: from the range that the start hits, through the
      one that the end hits; a side that misses is open, and if both miss there is nothing. */
  ghost predicate AreBounds(ranges: seq<DataRange>, start: int, end: int, lo: int, hi: int) {
    && (forall i :: IsHit(ranges, start, i) ==> lo == i)
    && (forall i :: IsHit(ranges, end, i) ==> hi == i + 1)
    && (!Hits(ranges, start) ==> lo == 0)
    && (!Hits(ranges, end) ==> hi == if Hits(ranges, start) then |ranges| else 0)
  }

  lemma BoundsAre(ranges: seq<DataRange>, start: int, end: int)
    requires SortedDisjoint(ranges)
    ensures AreBounds(ranges, start, end, BoundsOf(ranges, start, end).0, BoundsOf(ranges, start, end).1)
  {
    ProbeFinds(ranges, start, 0, |ranges| - 1);
    ProbeFinds(ranges, end, 0, |ranges| - 1);
    HitIsUnique(ranges, start);
    HitIsUnique(ranges, end);
  }

  lemma HitIsUnique(ranges: seq<DataRange>, key: int)
    requires SortedDisjoint(ranges)
    ensures forall i, j :: IsHit(ranges, key, i) && IsHit(ranges, key, j) ==> i == j
  {
  }

  /** A query that hits at either end misses nothing. */
  lemma HitFindsAll(ranges: seq<DataRange>, start: int, end: int, lo: int, hi: int)
    requires SortedDisjoint(ranges) && start <= end && AreBounds(ranges, start, end, lo, hi)
    requires Hits(ranges, start) || Hits(ranges, end)
    ensures forall i :: 0 <= i < |ranges| && Meets(ranges[i], start, end) ==> lo <= i < hi
  {
  }

  class TimelineDataRange {
    var ranges: seq<DataRange>

    constructor ()
      ensures ranges == []
    {
      ranges := [];
    }

    method AddRange(range: DataRange)
      modifies this
      ensures ranges == old(ranges) + [range]
      ensures SortedDisjoint(ranges) <==> old(SortedDisjoint(ranges)) && Follows(old(ranges), range)
    {
      SortedDisjointNext(ranges, range);
      ranges := ranges + [range];
    }

    method Search(key: int) returns (r: int)
      ensures r == Find(ranges, key) && IsFound(ranges, key, r)
    {
      ProbeFinds(ranges, key, 0, |ranges| - 1);
      var l, u := 0, |ranges| - 1;
      while l <= u
        invariant 0 <= l <= u + 1 <= |ranges|
        invariant Probe(ranges, key, l, u) == Find(ranges, key)
        decreases u - l
      {
        var i := (l + u) / 2;
        if Contains(ranges[i], key) {
          return i;
        } else if key < ranges[i].start {
          u := i - 1;
        } else {
          l := i + 1;
        }
      }
      return -1;
    }

    method GetRangesBounds(start: int, end: int) returns (lo: int, hi: int)
      ensures (lo, hi) == BoundsOf(ranges, start, end)
      ensures SortedDisjoint(ranges) ==> AreBounds(ranges, start, end, lo, hi)
    {
      if SortedDisjoint(ranges) { BoundsAre(ranges, start, end); }
      var s := Search(start);
      var e := Search(end);
      if s == -1 && e == -1 {
        return 0, 0;
      } else if s == -1 {
        return 0, e + 1;
      } else if e == -1 {
        return s, |ranges|;
      } else {
        return s, e + 1;
      }
    }

    /** Always the slice that the bounds describe; on a sorted disjoint list, which ranges that are. */
    method GetRanges(start: int, end: int) returns (r: seq<DataRange>)
      ensures var b := BoundsOf(ranges, start, end); r == Slice(ranges, b.0, b.1)
      ensures SortedDisjoint(ranges) && start <= end && IsExactQuery(ranges, start, end) ==>
                forall x :: x in r <==> x in ranges && Meets(x, start, end)
      ensures SortedDisjoint(ranges) && start <= end && (Hits(ranges, start) || Hits(ranges, end)) ==>
                forall x :: x in ranges && Meets(x, start, end) ==> x in r
      ensures SortedDisjoint(ranges) && !Hits(ranges, start) && !Hits(ranges, end) ==> r == []
    {
      var s := Search(start);
      var e := Search(end);
      if s == -1 && e == -1 {
        r := [];
      } else if s == -1 {
        r := Slice(ranges, 0, e + 1);
      } else if e == -1 {
        r := Slice(ranges, s, |ranges|);
      } else {
        r := Slice(ranges, s, e + 1);
      }
      if SortedDisjoint(ranges) && start <= end && IsExactQuery(ranges, start, end) {
        QueryIsExactIff(ranges, start, end);
        SliceSelects(ranges, BoundsOf(ranges, start, end), start, end);
      }
      if SortedDisjoint(ranges) {
        BoundsAre(ranges, start, end);
        if start <= end && (Hits(ranges, start) || Hits(ranges, end)) { SliceFindsAll(ranges, BoundsOf(ranges, start, end), start, end); }
      }
    }
  }

  lemma SliceFindsAll(ranges: seq<DataRange>, b: (int, int), start: int, end: int)
    requires SortedDisjoint(ranges) && start <= end && AreBounds(ranges, start, end, b.0, b.1)
    requires Hits(ranges, start) || Hits(ranges, end)
    requires 0 <= b.0 <= |ranges| && 0 <= b.1 <= |ranges|
    ensures forall x :: x in ranges && Meets(x, start, end) ==> x in Slice(ranges, b.0, b.1)
  {
    HitFindsAll(ranges, start, end, b.0, b.1);
    forall x | x in ranges && Meets(x, start, end) ensures x in Slice(ranges, b.0, b.1) {
      var i :| 0 <= i < |ranges| && ranges[i] == x;
      assert Slice(ranges, b.0, b.1)[i - b.0] == x;
    }
  }

  lemma SliceSelects(ranges: seq<DataRange>, b: (int, int), start: int, end: int)
    requires 0 <= b.0 <= |ranges| && 0 <= b.1 <= |ranges| && SelectsExactly(ranges, b, start, end)
    ensures forall x :: x in Slice(ranges, b.0, b.1) <==> x in ranges && Meets(x, start, end)
  {
    var r := Slice(ranges, b.0, b.1);
    forall x | x in ranges && Meets(x, start, end) ensures x in r {
      var i :| 0 <= i < |ranges| && ranges[i] == x;
      assert r[i - b.0] == x;
    }
    forall x | x in r ensures x in ranges && Meets(x, start, end) {
      var i :| 0 <= i < |r| && r[i] == x;
      assert ranges[b.0 + i] == x;
    }
  }

  // ---------------------------------------------------------------------------
  // Events
  // ---------------------------------------------------------------------------

  ghost predicate StrictlyIncreasing(events: seq<EventString>) {
    forall i, j :: 0 <= i < j < |events| ==> events[i].at < events[j].at
  }

  /** The position of the first event at or after `key`. */
  ghost predicate IsLowerBound(events: seq<EventString>, key: int, r: int) {
    && 0 <= r <= |events|
    && (forall j :: 0 <= j < r ==> events[j].at < key)
    && (forall j :: r <= j < |events| ==> key <= events[j].at)
  }

  /** The binary search between positions `l` and `u`. */
  ghost function ProbeEvents(events: seq<EventString>, key: int, l: int, u: int): (r: int)
    requires 0 <= l <= u + 1 <= |events|
    ensures 0 <= r <= |events|
    decreases u - l + 1
  {
    if l > u then l else
      var i := (l + u) / 2;
      if key == events[i].at then i
      else if key < events[i].at then ProbeEvents(events, key, l, i - 1)
      else ProbeEvents(events, key, i + 1, u)
  }

  ghost function FindEvent(events: seq<EventString>, key: int): (r: int)
    ensures 0 <= r <= |events|
  {
    ProbeEvents(events, key, 0, |events| - 1)
  }

  /** On strictly increasing times the search finds the lower bound. */
  lemma {:induction false} ProbeEventsFinds(events: seq<EventString>, key: int, l: int, u: int)
    requires StrictlyIncreasing(events) && 0 <= l <= u + 1 <= |events|
    requires forall j :: 0 <= j < l ==> events[j].at < key
    requires forall j :: u < j < |events| ==> key < events[j].at
    ensures IsLowerBound(events, key, ProbeEvents(events, key, l, u))
    decreases u - l + 1
  {
    if l <= u {
      var i := (l + u) / 2;
      if key == events[i].at {
      } else if key < events[i].at {
        ProbeEventsFinds(events, key, l, i - 1);
      } else {
        ProbeEventsFinds(events, key, i + 1, u);
      }
    }
  }

  /** The slice from the first event at or after `start` through the first one at or after `end`
      holds every event in [start, end] and at most one more, the next event after `end`; it holds
      no more exactly when `end` is the time of an event or lies after all of them. */
  lemma EventsSelected(events: seq<EventString>, start: int, end: int, s: int, e: int)
    requires StrictlyIncreasing(events) && start <= end
    requires IsLowerBound(events, start, s) && IsLowerBound(events, end, e)
    ensures s <= e
    ensures forall i :: 0 <= i < |events| && i != e ==> (s <= i < e + 1 <==> start <= events[i].at <= end)
    ensures (forall i :: 0 <= i < |events| ==> (s <= i < e + 1 <==> start <= events[i].at <= end))
            <==> (e == |events| || events[e].at == end)
  {
    var n := 0;
    while n < s
      invariant 0 <= n <= s && n <= e
    {
      assert events[n].at < end;
      n := n + 1;
    }
    forall i | e < i < |events| ensures end < events[i].at {
      assert events[e].at < events[i].at;
    }
  }

  lemma IncreasingNext(events: seq<EventString>, event: EventString)
    ensures StrictlyIncreasing(events + [event]) <==>
              StrictlyIncreasing(events) && (events != [] ==> events[|events| - 1].at < event.at)
  {
    var all := events + [event];
    assert forall i :: 0 <= i < |events| ==> all[i] == events[i];
    assert all[|events|] == event;
    if StrictlyIncreasing(all) {
      assert events != [] ==> all[|events| - 1].at < all[|events|].at;
      forall i, j | 0 <= i < j < |events| ensures events[i].at < events[j].at {
        assert all[i].at < all[j].at;
      }
    }
  }

  /** The bounds get_events_bounds computes. */
  ghost function EventBounds(events: seq<EventString>, start: int, end: int): (nat, nat) {
    (FindEvent(events, start), FindEvent(events, end) + 1)
  }

  /** All events of the interval in their order, and at most the next one after it. */
  ghost predicate HoldsQuery(events: seq<EventString>, r: seq<EventString>, start: int, end: int) {
    && (forall j :: 0 <= j < |events| && start <= events[j].at <= end ==> events[j] in r)
    && (forall i :: 0 <= i < |r| ==> r[i] in events && start <= r[i].at)
    && (forall i, j :: 0 <= i < |r| && 0 <= j < |events| && r[i].at > end && events[j].at > end ==> r[i].at <= events[j].at)
    && (forall i, j :: 0 <= i < j < |r| ==> r[i].at < r[j].at)
  }

  lemma QueryIsHeld(events: seq<EventString>, start: int, end: int, s: int, e: int)
    requires StrictlyIncreasing(events) && start <= end
    requires IsLowerBound(events, start, s) && IsLowerBound(events, end, e)
    ensures HoldsQuery(events, Slice(events, s, e + 1), start, end)
  {
    hide StrictlyIncreasing, IsLowerBound, Slice;
    EventsSelected(events, start, end, s, e);
    assert 0 <= s && 0 <= e by { LowerBoundInRange(events, start, s); LowerBoundInRange(events, end, e); }
    var r := Slice(events, s, e + 1);
    forall j | 0 <= j < |events| && start <= events[j].at <= end ensures events[j] in r {
      EndMeetsInterval(events, start, end, s, e, j);
      assert r[j - s] == events[j];
    }
    forall i | 0 <= i < |r| ensures r[i] in events && start <= r[i].at {
      SlicedFrom(events, start, s, e + 1, i);
    }
    forall i, j | 0 <= i < |r| && 0 <= j < |events| && r[i].at > end && events[j].at > end ensures r[i].at <= events[j].at {
      NextEventOnly(events, end, s, e, i, j);
    }
    forall i, j | 0 <= i < j < |r| ensures r[i].at < r[j].at {
      Ascends(events, s + i, s + j);
    }
  }

  lemma LowerBoundInRange(events: seq<EventString>, key: int, r: int)
    requires IsLowerBound(events, key, r)
    ensures 0 <= r <= |events|
  {
  }

  lemma EndMeetsInterval(events: seq<EventString>, start: int, end: int, s: int, e: int, j: int)
    requires StrictlyIncreasing(events) && IsLowerBound(events, start, s) && IsLowerBound(events, end, e)
    requires 0 <= j < |events| && start <= events[j].at <= end
    ensures s <= j <= e
  {
    if e < j { Ascends(events, e, j); }
  }

  lemma SlicedFrom(events: seq<EventString>, start: int, s: nat, hi: nat, i: nat)
    requires IsLowerBound(events, start, s) && i < |Slice(events, s, hi)|
    ensures Slice(events, s, hi)[i] in events && start <= Slice(events, s, hi)[i].at
  {
    assert events[s + i] in events;
  }

  lemma NextEventOnly(events: seq<EventString>, end: int, s: nat, e: nat, i: nat, j: nat)
    requires StrictlyIncreasing(events) && IsLowerBound(events, end, e)
    requires i < |Slice(events, s, e + 1)| && j < |events|
    requires events[s + i].at > end && events[j].at > end
    ensures events[s + i].at <= events[j].at
  {
    if s + i < j { Ascends(events, s + i, j); }
  }

  lemma Ascends(events: seq<EventString>, i: nat, j: nat)
    requires StrictlyIncreasing(events) && i < j < |events|
    ensures events[i].at < events[j].at
  {
  }

  class TimelineEvent {
    var events: seq<EventString>

    constructor ()
      ensures events == []
    {
      events := [];
    }

    method AddEvent(event: EventString)
      modifies this
      ensures events == old(events) + [event]
      ensures StrictlyIncreasing(events) <==>
                old(StrictlyIncreasing(events)) && (old(events) != [] ==> old(events)[|old(events)| - 1].at < event.at)
    {
      IncreasingNext(events, event);
      events := events + [event];
    }

    method Search(key: int) returns (r: int)
      ensures r == FindEvent(events, key)
      ensures StrictlyIncreasing(events) ==> IsLowerBound(events, key, r)
    {
      if StrictlyIncreasing(events) { ProbeEventsFinds(events, key, 0, |events| - 1); }
      var l, u := 0, |events| - 1;
      while l <= u
        invariant 0 <= l <= u + 1 <= |events|
        invariant ProbeEvents(events, key, l, u) == FindEvent(events, key)
        decreases u - l
      {
        var i := (l + u) / 2;
        if key == events[i].at {
          return i;
        } else if key < events[i].at {
          u := i - 1;
        } else {
          l := i + 1;
        }
      }
      return l;
    }

    /** The bounds of the slice that GetEvents returns. */
    method GetEventsBounds(start: int, end: int) returns (lo: nat, hi: nat)
      ensures (lo, hi) == EventBounds(events, start, end)
      ensures StrictlyIncreasing(events) ==> hi > 0 && IsLowerBound(events, start, lo) && IsLowerBound(events, end, hi - 1)
    {
      var s := Search(start);
      var e := Search(end);
      return s, e + 1;
    }

    /** Always the slice that the bounds describe; on strictly increasing times and a query that ends
        at an event or past all of them, exactly the events in the interval. */
    method GetEvents(start: int, end: int) returns (r: seq<EventString>)
      ensures var b := EventBounds(events, start, end); r == Slice(events, b.0, b.1)
      ensures StrictlyIncreasing(events) && start <= end && EndsCleanly(events, end) ==>
                forall x :: x in r <==> x in events && start <= x.at <= end
      ensures StrictlyIncreasing(events) && start <= end ==> HoldsQuery(events, r, start, end)
    {
      hide StrictlyIncreasing, EndsCleanly, Slice, IsLowerBound, HoldsQuery;
      var s := Search(start);
      var e := Search(end);
      r := Slice(events, s, e + 1);
      if StrictlyIncreasing(events) && start <= end && EndsCleanly(events, end) {
        CleanEventsSelected(events, start, end, s, e);
      }
      if StrictlyIncreasing(events) && start <= end { QueryIsHeld(events, start, end, s, e); }
    }
  }

  /** `end` is the time of an event or lies after all of them. */
  ghost predicate EndsCleanly(events: seq<EventString>, end: int) {
    (exists i :: 0 <= i < |events| && events[i].at == end) || (forall i :: 0 <= i < |events| ==> events[i].at < end)
  }

  lemma CleanEnd(events: seq<EventString>, end: int, e: int)
    requires StrictlyIncreasing(events) && IsLowerBound(events, end, e)
    ensures EndsCleanly(events, end) <==> e == |events| || events[e].at == end
  {
  }

  lemma CleanEventsSelected(events: seq<EventString>, start: int, end: int, s: int, e: int)
    requires StrictlyIncreasing(events) && start <= end && EndsCleanly(events, end)
    requires IsLowerBound(events, start, s) && IsLowerBound(events, end, e)
    ensures forall x :: x in Slice(events, s, e + 1) <==> x in events && start <= x.at <= end
  {
    CleanEnd(events, end, e);
    EventsSelected(events, start, end, s, e);
    hide StrictlyIncreasing, EndsCleanly, IsLowerBound;
    var r := Slice(events, s, e + 1);
    forall x | x in events && start <= x.at <= end ensures x in r {
      var i :| 0 <= i < |events| && events[i] == x;
      assert r[i - s] == x;
    }
    forall x | x in r ensures x in events && start <= x.at <= end {
      var i :| 0 <= i < |r| && r[i] == x;
      assert events[s + i] == x;
    }
  }
}
