/** Looking up ranges and events on a timeline (utils/grid.py). */
module Timeline {

  /** `s[low:high]`: bounds beyond the end are cut, and crossed bounds give nothing. */
  function Slice<T>(s: seq<T>, low: nat, high: nat): (part: seq<T>)
    ensures low <= high <= |s| ==> |part| == high - low
    ensures low <= |s| < high ==> |part| == |s| - low
    ensures high < low || |s| < low ==> part == []
    ensures forall i | 0 <= i < |part| :: low + i < |s| && part[i] == s[low + i]
  {
    var top := if high < |s| then high else |s|;
    if low < top then s[low..top] else []
  }

  // ----- Ranges -----

  datatype DataRange = DataRange(start: int, end: int, value: string)

  predicate Covers(r: DataRange, key: int) {
    r.start <= key <= r.end
  }

  /** The range has a point in common with [start, end]. */
  predicate Meets(r: DataRange, start: int, end: int) {
    r.start <= end && start <= r.end
  }

  predicate SortedRanges(ranges: seq<DataRange>) {
    && (forall i | 0 <= i < |ranges| :: ranges[i].start <= ranges[i].end)
    && (forall i, j | 0 <= i < j < |ranges| :: ranges[i].end < ranges[j].start)
  }

  predicate Covered(ranges: seq<DataRange>, key: int) {
    exists i | 0 <= i < |ranges| :: Covers(ranges[i], key)
  }

  /** The bounds hold exactly the ranges that meet [start, end]. */
  ghost predicate Exact(ranges: seq<DataRange>, start: int, end: int, low: nat, high: nat) {
    forall i | 0 <= i < |ranges| :: low <= i < high <==> Meets(ranges[i], start, end)
  }

  /** When the bounds are exact.  With one end covered they run to the other end of the list;
      with none they are empty. */
  predicate ExactWhen(ranges: seq<DataRange>, start: int, end: int) {
    if Covered(ranges, start) then
      Covered(ranges, end) || ranges == [] || ranges[|ranges| - 1].start <= end
    else if Covered(ranges, end) then
      ranges == [] || start <= ranges[0].end
    else
      forall i | 0 <= i < |ranges| :: !(start < ranges[i].start <= end)
  }

  /** What a lookup returns, whatever the order of the two ends: an end that no range covers
      sets no limit, and with neither covered nothing is returned. */
  predicate Returned(ranges: seq<DataRange>, start: int, end: int, r: DataRange) {
    && (Covered(ranges, start) || Covered(ranges, end))
    && (Covered(ranges, start) ==> start <= r.end)
    && (Covered(ranges, end) ==> r.start <= end)
  }

  class TimelineDataRange {
    var ranges: seq<DataRange>

    constructor ()
      ensures ranges == []
    {
      ranges := [];
    }

    method AddRange(r: DataRange)
      modifies this
      ensures ranges == old(ranges) + [r]
    {
      ranges := ranges + [r];
    }

    method Search(key: int) returns (index: int)
      ensures -1 <= index < |ranges|
      ensures index != -1 ==> Covers(ranges[index], key)
      ensures SortedRanges(ranges) && index == -1 ==> !Covered(ranges, key)
    {
      var l, u := 0, |ranges| - 1;
      while l <= u
        invariant 0 <= l <= u + 1 <= |ranges|
        invariant SortedRanges(ranges) ==>
                    forall i | 0 <= i < |ranges| && !(l <= i <= u) :: !Covers(ranges[i], key)
        decreases u - l
      {
        var i := (l + u) / 2;
        if key >= ranges[i].start && key <= ranges[i].end {
          return i;
        } else if key < ranges[i].start {
          u := i - 1;
        } else {
          l := i + 1;
        }
      }
      return -1;
    }

    /** The bounds hold the ranges that `Returned` describes; those are exactly the ranges that
        meet [start, end] just when `ExactWhen` says so, for instance with both ends covered. */
    method GetRangesBounds(start: int, end: int) returns (low: nat, high: nat)
      requires SortedRanges(ranges)
      ensures high <= |ranges|
      ensures forall i | 0 <= i < |ranges| :: low <= i < high <==> Returned(ranges, start, end, ranges[i])
      ensures start <= end ==> (Exact(ranges, start, end, low, high) <==> ExactWhen(ranges, start, end))
    {
      var s := Search(start);
      var e := Search(end);
      if s == -1 && e == -1 {
        low, high := 0, 0;
      } else if s == -1 {
        low, high := 0, e + 1;
      } else if e == -1 {
        low, high := s, |ranges|;
      } else {
        low, high := s, e + 1;
      }
      BoundsAreReturned(ranges, start, end, s, e, low, high);
      if start <= end {
        ReturnedIsExactWhen(ranges, start, end, low, high);
      }
    }

    method GetRanges(start: int, end: int) returns (found: seq<DataRange>)
      requires SortedRanges(ranges)
      ensures exists low: nat, high: nat :: found == Slice(ranges, low, high)
      ensures forall r :: r in found <==> r in ranges && Returned(ranges, start, end, r)
      ensures start <= end ==>
                ((forall r :: r in found <==> r in ranges && Meets(r, start, end)) <==> ExactWhen(ranges, start, end))
    {
      var low, high := GetRangesBounds(start, end);
      found := Slice(ranges, low, high);
      BoundsAndSlice(ranges, low, high);
      SliceIsReturned(ranges, start, end, low, high);
    }
  }

  lemma SliceIsReturned(ranges: seq<DataRange>, start: int, end: int, low: nat, high: nat)
    requires SortedRanges(ranges) && high <= |ranges|
    requires forall i | 0 <= i < |ranges| :: low <= i < high <==> Returned(ranges, start, end, ranges[i])
    ensures forall r :: r in Slice(ranges, low, high) <==> r in ranges && Returned(ranges, start, end, r)
    ensures Exact(ranges, start, end, low, high) <==>
            forall r :: r in Slice(ranges, low, high) <==> r in ranges && Meets(r, start, end)
  {
    hide Returned, Meets, SortedRanges;
    BoundsAndSlice(ranges, low, high);
    var found := Slice(ranges, low, high);
    forall r
      ensures r in found <==> r in ranges && Returned(ranges, start, end, r)
    {
      if i :| 0 <= i < |ranges| && ranges[i] == r && Returned(ranges, start, end, r) {
        assert low <= i < high;
      }
    }
    if Exact(ranges, start, end, low, high) {
      forall r
        ensures r in found <==> r in ranges && Meets(r, start, end)
      {
        if i :| 0 <= i < |ranges| && ranges[i] == r && Meets(r, start, end) {
          assert low <= i < high;
        }
      }
    }
    if forall r :: r in found <==> r in ranges && Meets(r, start, end) {
      forall i | 0 <= i < |ranges|
        ensures low <= i < high <==> Meets(ranges[i], start, end)
      {
        assert ranges[i] in found <==> Meets(ranges[i], start, end);
      }
    }
  }

  lemma BoundsAreReturned(ranges: seq<DataRange>, start: int, end: int, s: int, e: int, low: nat, high: nat)
    requires SortedRanges(ranges)
    requires -1 <= s < |ranges| && (if s == -1 then !Covered(ranges, start) else Covers(ranges[s], start))
    requires -1 <= e < |ranges| && (if e == -1 then !Covered(ranges, end) else Covers(ranges[e], end))
    requires low == if s == -1 then 0 else s
    requires high == if e != -1 then e + 1 else if s == -1 then 0 else |ranges|
    ensures forall i | 0 <= i < |ranges| :: low <= i < high <==> Returned(ranges, start, end, ranges[i])
  {
    assert s != -1 ==> Covered(ranges, start);
    assert e != -1 ==> Covered(ranges, end);
  }

  /** The ranges returned are those that meet [start, end] if and only if `ExactWhen` holds. */
  lemma ReturnedIsExactWhen(ranges: seq<DataRange>, start: int, end: int, low: nat, high: nat)
    requires SortedRanges(ranges) && start <= end
    requires forall i | 0 <= i < |ranges| :: low <= i < high <==> Returned(ranges, start, end, ranges[i])
    ensures Exact(ranges, start, end, low, high) <==> ExactWhen(ranges, start, end)
  {
    if !Covered(ranges, start) && !Covered(ranges, end) {
      forall i | 0 <= i < |ranges|
        ensures Meets(ranges[i], start, end) <==> start < ranges[i].start <= end
      {
        assert !Covers(ranges[i], start) && !Covers(ranges[i], end);
      }
    } else if !Covered(ranges, start) {
      assert Meets(ranges[0], start, end) <==> start <= ranges[0].end;
    } else if !Covered(ranges, end) {
      var last := |ranges| - 1;
      assert Meets(ranges[last], start, end) <==> ranges[last].start <= end;
    }
  }

  /** Ranges that lie between two uncovered ends are missed. */
  lemma RangesInsideAreMissed()
    ensures var ranges := [DataRange(2, 3, "x")];
            SortedRanges(ranges) && Meets(ranges[0], 1, 4) && !ExactWhen(ranges, 1, 4)
  {
    var ranges := [DataRange(2, 3, "x")];
    assert 1 < ranges[0].start <= 4;
  }

  // ----- Events -----

  datatype Event = Event(at: int, value: string)

  predicate SortedEvents(events: seq<Event>) {
    forall i, j | 0 <= i < j < |events| :: events[i].at <= events[j].at
  }

  /** An event at the key, or the place where one would go. */
  predicate IsPlace(events: seq<Event>, key: int, place: nat) {
    || (place < |events| && events[place].at == key)
    || (place <= |events| && forall i | 0 <= i < |events| :: if i < place then events[i].at < key else key < events[i].at)
  }

  ghost predicate ExactEvents(events: seq<Event>, start: int, end: int, found: seq<Event>) {
    forall e :: e in found <==> e in events && start <= e.at <= end
  }

  predicate EventAtEndOrNoneAfter(events: seq<Event>, end: int) {
    (exists e :: e in events && e.at == end) || (forall e | e in events :: e.at < end)
  }

  /** Where the binary search ends between `l` and `u`. */
  ghost function Place(events: seq<Event>, key: int, l: int, u: int): (place: nat)
    requires 0 <= l <= u + 1 <= |events|
    ensures place <= |events|
    decreases u - l + 1
  {
    if l > u then l else
      var i := (l + u) / 2;
      if key == events[i].at then i
      else if key < events[i].at then Place(events, key, l, i - 1)
      else Place(events, key, i + 1, u)
  }

  lemma {:induction false} PlaceIsPlace(events: seq<Event>, key: int, l: int, u: int)
    requires SortedEvents(events) && 0 <= l <= u + 1 <= |events|
    requires forall i | 0 <= i < l :: events[i].at < key
    requires forall i | u < i < |events| :: key < events[i].at
    ensures IsPlace(events, key, Place(events, key, l, u))
    decreases u - l + 1
  {
    if l <= u {
      var i := (l + u) / 2;
      if key < events[i].at {
        PlaceIsPlace(events, key, l, i - 1);
      } else if key > events[i].at {
        PlaceIsPlace(events, key, i + 1, u);
      }
    }
  }

  ghost function PlaceOf(events: seq<Event>, key: int): (place: nat)
    ensures place <= |events|
  {
    Place(events, key, 0, |events| - 1)
  }

  /** No event at the key lies before the place. */
  predicate IsFirst(events: seq<Event>, key: int, place: nat) {
    0 < place <= |events| ==> events[place - 1].at < key
  }

  /** No event at the key lies behind the place. */
  predicate IsLast(events: seq<Event>, key: int, place: nat) {
    place + 1 < |events| ==> key < events[place + 1].at
  }

  /** The bounds hold exactly the events from start to end. */
  ghost predicate ExactBounds(events: seq<Event>, start: int, end: int, low: nat, high: nat) {
    forall i | 0 <= i < |events| :: low <= i < high <==> start <= events[i].at <= end
  }

  predicate AtMostOneAt(events: seq<Event>, key: int) {
    forall i, j | 0 <= i < j < |events| :: events[i].at != key || events[j].at != key
  }

  class TimelineEvent {
    var events: seq<Event>

    constructor ()
      ensures events == []
    {
      events := [];
    }

    method AddEvent(e: Event)
      modifies this
      ensures events == old(events) + [e]
    {
      events := events + [e];
    }

    method Search(key: int) returns (place: nat)
      ensures place == PlaceOf(events, key)
      ensures SortedEvents(events) ==> IsPlace(events, key, place)
    {
      if SortedEvents(events) {
        PlaceIsPlace(events, key, 0, |events| - 1);
      }
      var l, u := 0, |events| - 1;
      while l <= u
        invariant 0 <= l <= u + 1 <= |events|
        invariant Place(events, key, l, u) == PlaceOf(events, key)
        decreases u - l
      {
        var i := (l + u) / 2;
        if key == events[i].at {
          return i;
        } else if key < events[i].at {
          u := i - 1;
        } else {
          l := i + 1;
        }
      }
      return l;
    }

    /** The bounds are exact just when both searches end at the outermost events of their times
        and there is an event at the end or none after it. */
    method GetEventsBounds(start: int, end: int) returns (low: nat, high: nat)
      requires SortedEvents(events)
      ensures low == PlaceOf(events, start) && high == PlaceOf(events, end) + 1
      ensures IsPlace(events, start, low) && IsPlace(events, end, high - 1)
      ensures start <= end ==>
                (ExactBounds(events, start, end, low, high) <==>
                 IsFirst(events, start, low) && IsLast(events, end, high - 1) && EventAtEndOrNoneAfter(events, end))
    {
      low := Search(start);
      var e := Search(end);
      high := e + 1;
      if start <= end {
        BoundsAreExactIff(events, start, end, low, e);
      }
    }

    /** Every event strictly between is found, none before the start, and at most one, the last,
        after the end: none just when there is an event at the end or none after it.  If no two
        events share the time of an end, the result is exact just then. */
    method GetEvents(start: int, end: int) returns (found: seq<Event>)
      requires SortedEvents(events)
      ensures start <= end ==> forall e | e in events && start < e.at < end :: e in found
      ensures found == Slice(events, PlaceOf(events, start), PlaceOf(events, end) + 1)
      ensures start <= end ==> forall e | e in found :: start <= e.at
      ensures start <= end ==> forall i | 0 <= i < |found| - 1 :: found[i].at <= end
      ensures start <= end ==> ((forall e | e in found :: e.at <= end) <==> EventAtEndOrNoneAfter(events, end))
      ensures start <= end && AtMostOneAt(events, start) && AtMostOneAt(events, end) ==>
                (ExactEvents(events, start, end, found) <==> EventAtEndOrNoneAfter(events, end))
    {
      hide *;
      var low, high := GetEventsBounds(start, end);
      found := Slice(events, low, high);
      if start <= end {
        FoundEvents(events, start, end, low, high - 1);
        FoundNoneAfter(events, start, end, low, high - 1);
        if AtMostOneAt(events, start) && AtMostOneAt(events, end) {
          FoundSingly(events, start, end, low, high - 1);
        }
      }
    }
  }

  lemma FoundEvents(events: seq<Event>, start: int, end: int, low: nat, e: nat)
    requires SortedEvents(events) && start <= end && IsPlace(events, start, low) && IsPlace(events, end, e)
    ensures var found := Slice(events, low, e + 1);
            && (forall x | x in events && start < x.at < end :: x in found)
            && (forall x | x in found :: start <= x.at)
            && (forall i | 0 <= i < |found| - 1 :: found[i].at <= end)
  {
    hide IsPlace, SortedEvents;
    PlaceParts(events, start, low);
    PlaceParts(events, end, e);
    var found := Slice(events, low, e + 1);
    forall x | x in events && start < x.at < end
      ensures x in found
    {
      var i :| 0 <= i < |events| && events[i] == x;
      assert low <= i <= e;
      assert found[i - low] == x;
    }
    forall i | 0 <= i < |found|
      ensures start <= found[i].at && (i < |found| - 1 ==> found[i].at <= end)
    {
      assert found[i] == events[low + i];
    }
  }

  /** A place parts the events: no later time before it, no earlier time from it on. */
  lemma PlaceParts(events: seq<Event>, key: int, place: nat)
    requires SortedEvents(events) && IsPlace(events, key, place)
    ensures place <= |events|
    ensures forall i | 0 <= i < place :: events[i].at <= key
    ensures forall i | place <= i < |events| :: key <= events[i].at
  {
  }

  /** Nothing after the end is found exactly when there is an event at the end or none after it. */
  lemma FoundNoneAfter(events: seq<Event>, start: int, end: int, low: nat, e: nat)
    requires SortedEvents(events) && start <= end && IsPlace(events, start, low) && IsPlace(events, end, e)
    ensures (forall x | x in Slice(events, low, e + 1) :: x.at <= end) <==> EventAtEndOrNoneAfter(events, end)
  {
    var found := Slice(events, low, e + 1);
    PlaceParts(events, start, low);
    PlaceParts(events, end, e);
    if e < |events| {
      assert events[e] in events;
      if events[e].at != end {
        assert low <= e;
        assert found[e - low] == events[e];
      }
    }
  }

  /** The bounds are exact if and only if no event at either end's time is left out and none
      after the end is let in. */
  lemma BoundsAreExactIff(events: seq<Event>, start: int, end: int, low: nat, e: nat)
    requires SortedEvents(events) && start <= end && IsPlace(events, start, low) && IsPlace(events, end, e)
    ensures ExactBounds(events, start, end, low, e + 1) <==>
            IsFirst(events, start, low) && IsLast(events, end, e) && EventAtEndOrNoneAfter(events, end)
  {
    hide IsPlace, EventAtEndOrNoneAfter;
    PlaceParts(events, start, low);
    PlaceParts(events, end, e);
    FoundNoneAfter(events, start, end, low, e);
    BoundsGiveEvents(events, start, end, low, e + 1);
    NoneLeftOutIff(events, start, end, low, e);
  }

  lemma NoneLeftOutIff(events: seq<Event>, start: int, end: int, low: nat, e: nat)
    requires SortedEvents(events) && start <= end && low <= |events| && e <= |events|
    requires forall i | 0 <= i < low :: events[i].at <= start
    requires forall i | low <= i < |events| :: start <= events[i].at
    requires forall i | 0 <= i < e :: events[i].at <= end
    requires forall i | e <= i < |events| :: end <= events[i].at
    ensures ExactBounds(events, start, end, low, e + 1) <==>
            && IsFirst(events, start, low) && IsLast(events, end, e)
            && forall x | x in Slice(events, low, e + 1) :: x.at <= end
  {
    BoundsAndSlice(events, low, e + 1);
    if low > 0 {
      assert events[low - 1].at <= start;
    }
    if e + 1 < |events| {
      assert end <= events[e + 1].at;
    }
  }

  lemma BoundsAndSlice<T>(s: seq<T>, low: nat, high: nat)
    ensures forall i | 0 <= i < |s| && low <= i < high :: s[i] in Slice(s, low, high)
    ensures forall x | x in Slice(s, low, high) :: exists i | 0 <= i < |s| && low <= i < high :: s[i] == x
  {
    forall i | 0 <= i < |s| && low <= i < high
      ensures s[i] in Slice(s, low, high)
    {
      assert Slice(s, low, high)[i - low] == s[i];
    }
  }

  /** If no two events share the time of an end, the result is the events from start to end
      exactly when there is an event at the end or none after it. */
  lemma FoundSingly(events: seq<Event>, start: int, end: int, low: nat, e: nat)
    requires SortedEvents(events) && start <= end && IsPlace(events, start, low) && IsPlace(events, end, e)
    requires AtMostOneAt(events, start) && AtMostOneAt(events, end)
    ensures ExactEvents(events, start, end, Slice(events, low, e + 1)) <==> EventAtEndOrNoneAfter(events, end)
  {
    hide *;
    FoundNoneAfter(events, start, end, low, e);
    SinglyIsOutermost(events, start, low);
    SinglyIsOutermost(events, end, e);
    BoundsAreExactIff(events, start, end, low, e);
    BoundsGiveEvents(events, start, end, low, e + 1);
  }

  lemma BoundsGiveEvents(events: seq<Event>, start: int, end: int, low: nat, high: nat)
    ensures ExactBounds(events, start, end, low, high) ==> ExactEvents(events, start, end, Slice(events, low, high))
    ensures ExactEvents(events, start, end, Slice(events, low, high)) ==>
              forall x | x in Slice(events, low, high) :: x.at <= end
  {
    hide Slice;
    BoundsAndSlice(events, low, high);
  }

  lemma SinglyIsOutermost(events: seq<Event>, key: int, place: nat)
    requires SortedEvents(events) && IsPlace(events, key, place) && AtMostOneAt(events, key)
    ensures IsFirst(events, key, place) && IsLast(events, key, place)
  {
  }

  /** Of two events at the start, the search may end at the first and, for the same end, stop
      there: an event is at the end, and still the second one is missed. */
  lemma TwinIsMissed()
    ensures var events := [Event(1, "a"), Event(1, "b")];
            && SortedEvents(events) && EventAtEndOrNoneAfter(events, 1)
            && Slice(events, PlaceOf(events, 1), PlaceOf(events, 1) + 1) == [Event(1, "a")]
            && !ExactEvents(events, 1, 1, [Event(1, "a")])
  {
    var a, b := Event(1, "a"), Event(1, "b");
    assert "a"[0] != "b"[0];
    PlaceOfTwins(a, b);
    hide Place, PlaceOf, Slice, ExactEvents;
    assert a in [a, b] && b in [a, b];
    FirstOfTwo(a, b);
    MissingIsInexact([a, b], 1, 1, [a], b);
  }

  lemma PlaceOfTwins(a: Event, b: Event)
    ensures PlaceOf([a, b], a.at) == 0
  {
    assert Place([a, b], a.at, 0, 1) == 0;
  }

  lemma FirstOfTwo<T>(a: T, b: T)
    ensures Slice([a, b], 0, 1) == [a]
  {
    assert [a, b][0..1] == [a];
  }

  lemma MissingIsInexact(events: seq<Event>, start: int, end: int, found: seq<Event>, e: Event)
    requires e in events && start <= e.at <= end && e !in found
    ensures !ExactEvents(events, start, end, found)
  {
  }
}
