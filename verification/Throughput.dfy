/** Throughput per interval from a list of arrival times (tacc-scripts/sampleMultiThread.py,
    `get_tput`), with exact real arithmetic. */
module Throughput {
  import opened Totals

  // ----- What the rows should count -----

  /** The end of row `i`, which begins at `interval * i`. */
  function End(interval: real, i: nat): real {
    interval * i as real + interval
  }

  ghost function UpTo(bound: real): real -> int {
    (t: real) => if t <= bound then 1 else 0
  }

  ghost function ArrivalsUpTo(times: seq<real>, bound: real): int {
    Total(times, UpTo(bound))
  }

  ghost function Within(low: real, high: real): real -> int {
    (t: real) => if low < t <= high then 1 else 0
  }

  /** Row 0 counts the arrivals up to its end; every other row those after the end of the row before. */
  ghost function Arrivals(times: seq<real>, interval: real, i: nat): int {
    if i == 0 then ArrivalsUpTo(times, End(interval, 0))
    else Total(times, Within(End(interval, i - 1), End(interval, i)))
  }

  /** The arrivals, counted one by one. */
  lemma ArrivalsAreCounted(times: seq<real>, interval: real, i: nat)
    requires interval > 0.0
    ensures Arrivals(times, interval, i) ==
            |set k | 0 <= k < |times| && (i > 0 ==> times[k] > interval * i as real) && times[k] <= interval * (i + 1) as real|
  {
    var counted := set k | 0 <= k < |times| && (i > 0 ==> times[k] > interval * i as real) && times[k] <= interval * (i + 1) as real;
    assert End(interval, i) == interval * (i + 1) as real;
    if i == 0 {
      TotalIsCount(times, UpTo(End(interval, 0)));
      assert Ones(times, UpTo(End(interval, 0))) == counted;
    } else {
      assert End(interval, i - 1) == interval * i as real;
      TotalIsCount(times, Within(End(interval, i - 1), End(interval, i)));
      assert Ones(times, Within(End(interval, i - 1), End(interval, i))) == counted;
    }
  }

  // ----- What one pass over the list counts -----

  /** How far a pass that stops at the first arrival beyond `bound` gets. */
  ghost function Reach(times: seq<real>, bound: real): (n: nat)
    ensures n <= |times|
    ensures forall k | 0 <= k < n :: times[k] <= bound
    ensures n < |times| ==> times[n] > bound
  {
    if times == [] || times[0] > bound then 0 else 1 + Reach(times[1..], bound)
  }

  ghost function RowCount(times: seq<real>, interval: real, i: nat): int {
    Reach(times, End(interval, i)) - if i == 0 then 0 else Reach(times, End(interval, i - 1))
  }

  lemma ReachIsUnique(times: seq<real>, bound: real, n: nat)
    requires n <= |times| && (forall k | 0 <= k < n :: times[k] <= bound)
    requires n < |times| ==> times[n] > bound
    ensures n == Reach(times, bound)
  {
  }

  lemma EndsIncrease(interval: real, i: nat)
    requires interval > 0.0
    ensures End(interval, i) < End(interval, i + 1)
  {
    assert interval * (i + 1) as real == interval * i as real + interval;
  }

  // ----- When the two agree -----

  /** No arrival up to `bound` comes behind one that is beyond it. */
  ghost predicate InFront(times: seq<real>, bound: real) {
    forall j, k | 0 <= j < k < |times| && times[k] <= bound :: times[j] <= bound
  }

  lemma {:induction false} ReachCountsAll(times: seq<real>, bound: real)
    ensures Reach(times, bound) <= ArrivalsUpTo(times, bound)
    ensures Reach(times, bound) == ArrivalsUpTo(times, bound) <==> InFront(times, bound)
  {
    if times != [] {
      var rest := times[1..];
      TotalCons(times, UpTo(bound));
      ReachCountsAll(rest, bound);
      TotalBounds(rest, UpTo(bound));
      assert forall k | 0 <= k < |rest| :: rest[k] == times[k + 1];
      if times[0] > bound {
        if k :| 0 <= k < |rest| && UpTo(bound)(rest[k]) != 0 {
          assert times[k + 1] <= bound;
        }
      } else {
        ConsInFront(times, bound);
      }
    }
  }

  lemma ConsInFront(times: seq<real>, bound: real)
    requires times != [] && times[0] <= bound
    ensures InFront(times, bound) <==> InFront(times[1..], bound)
  {
    var rest := times[1..];
    if InFront(times, bound) {
      forall j, k | 0 <= j < k < |rest| && rest[k] <= bound
        ensures rest[j] <= bound
      {
        assert times[k + 1] == rest[k] && times[j + 1] == rest[j];
      }
    }
    if InFront(rest, bound) {
      forall j, k | 0 <= j < k < |times| && times[k] <= bound
        ensures times[j] <= bound
      {
        if j > 0 {
          assert rest[k - 1] == times[k] && rest[j - 1] == times[j];
        }
      }
    }
  }

  lemma {:induction false} SplitArrivals(times: seq<real>, low: real, high: real)
    requires low <= high
    ensures Total(times, Within(low, high)) == ArrivalsUpTo(times, high) - ArrivalsUpTo(times, low)
  {
    if times != [] {
      SplitArrivals(times[..|times| - 1], low, high);
    }
  }

  /** The rows are right exactly when no arrival of a row is listed behind one of a later row. */
  lemma RowsAreRightIff(times: seq<real>, interval: real, rows: nat)
    requires interval > 0.0
    ensures (forall i: nat | i < rows :: RowCount(times, interval, i) == Arrivals(times, interval, i)) <==>
            (forall i: nat | i < rows :: InFront(times, End(interval, i)))
  {
    hide RowCount, Arrivals, InFront;
    if forall i: nat | i < rows :: RowCount(times, interval, i) == Arrivals(times, interval, i) {
      forall i: nat | i < rows
        ensures InFront(times, End(interval, i))
      {
        RowsAddUp(times, interval, i);
        ReachCountsAll(times, End(interval, i));
      }
    }
    if forall i: nat | i < rows :: InFront(times, End(interval, i)) {
      forall i: nat | i < rows
        ensures RowCount(times, interval, i) == Arrivals(times, interval, i)
      {
        if i > 0 {
          var h := i - 1;
          assert InFront(times, End(interval, h));
        }
        RowIsRight(times, interval, i);
      }
    }
  }

  lemma RowIsRight(times: seq<real>, interval: real, i: nat)
    requires interval > 0.0 && InFront(times, End(interval, i))
    requires i > 0 ==> InFront(times, End(interval, i - 1))
    ensures RowCount(times, interval, i) == Arrivals(times, interval, i)
  {
    hide InFront, End;
    ReachCountsAll(times, End(interval, i));
    if i > 0 {
      ReachCountsAll(times, End(interval, i - 1));
      EndsIncrease(interval, i - 1);
      SplitArrivals(times, End(interval, i - 1), End(interval, i));
    }
  }

  /** Two arrivals listed in reverse across two rows: row 0 counts none, and row 1 both. */
  lemma ReversedArrivals()
    ensures var times := [1.5, 0.5];
            && RowCount(times, 1.0, 0) == 0 && Arrivals(times, 1.0, 0) == 1
            && RowCount(times, 1.0, 1) == 2 && Arrivals(times, 1.0, 1) == 1
  {
    var times := [1.5, 0.5];
    assert End(1.0, 0) == 1.0 && End(1.0, 1) == 2.0;
    TotalOfTwo(1.5, 0.5, UpTo(1.0));
    TotalOfTwo(1.5, 0.5, Within(1.0, 2.0));
    ReachIsUnique(times, 1.0, 0);
    ReachIsUnique(times, 2.0, 2);
  }

  lemma TotalOfTwo(x: real, y: real, weight: real -> int)
    ensures Total([x, y], weight) == weight(x) + weight(y)
  {
    TotalSnoc([], x, weight);
    TotalSnoc([x], y, weight);
    assert [] + [x] == [x] && [x] + [y] == [x, y];
  }

  lemma {:induction false} RowsAddUp(times: seq<real>, interval: real, i: nat)
    requires interval > 0.0
    requires forall j: nat | j <= i :: RowCount(times, interval, j) == Arrivals(times, interval, j)
    ensures Reach(times, End(interval, i)) == ArrivalsUpTo(times, End(interval, i))
  {
    assert RowCount(times, interval, i) == Arrivals(times, interval, i);
    if i > 0 {
      RowsAddUp(times, interval, i - 1);
      EndsIncrease(interval, i - 1);
      SplitArrivals(times, End(interval, i - 1), End(interval, i));
    }
  }

  /** Arrivals in order of time are in order of rows. */
  lemma SortedRowsAreRight(times: seq<real>, interval: real, rows: nat)
    requires interval > 0.0 && forall j, k | 0 <= j < k < |times| :: times[j] <= times[k]
    ensures forall i: nat | i < rows :: RowCount(times, interval, i) == Arrivals(times, interval, i)
    ensures SumOfRows(times, interval, rows) ==
            if rows == 0 then 0 else ArrivalsUpTo(times, End(interval, rows - 1))
  {
    RowsAreRightIff(times, interval, rows);
    SumIsReach(times, interval, rows);
    if rows > 0 {
      ReachCountsAll(times, End(interval, rows - 1));
    }
  }

  ghost function SumOfRows(times: seq<real>, interval: real, rows: nat): int {
    if rows == 0 then 0 else SumOfRows(times, interval, rows - 1) + RowCount(times, interval, rows - 1)
  }

  lemma {:induction false} SumIsReach(times: seq<real>, interval: real, rows: nat)
    ensures SumOfRows(times, interval, rows) == if rows == 0 then 0 else Reach(times, End(interval, rows - 1))
  {
    if rows > 0 {
      SumIsReach(times, interval, rows - 1);
    }
  }

  // ----- The pass -----

  /** Packets of 1448 bytes in an interval, as Mbit/s. */
  function Rate(packets: int, interval: real): real
    requires interval > 0.0
  {
    0.000001 * packets as real * 1448.0 * 8.0 / interval
  }

  /** As many bits as the packets have, spread over the interval. */
  lemma RateIsBits(packets: int, interval: real)
    requires interval > 0.0
    ensures Rate(packets, interval) * interval * 1000000.0 == packets as real * 1448.0 * 8.0
  {
    var bits := 0.000001 * packets as real * 1448.0 * 8.0;
    assert (bits / interval) * interval == bits;
  }

  /** The inner loop: the packets from line `start` on that arrive up to `bound`. */
  method CountPackets(times: seq<real>, start: nat, bound: real) returns (countPackets: nat)
    requires start <= Reach(times, bound)
    ensures start + countPackets == Reach(times, bound)
  {
    countPackets := 0;
    var currLine := start;
    while currLine < |times| && times[currLine] <= bound
      invariant currLine <= |times| && countPackets == currLine - start
      invariant forall k | 0 <= k < currLine :: times[k] <= bound
    {
      countPackets := countPackets + 1;
      currLine := currLine + 1;
    }
    ReachIsUnique(times, bound, currLine);
  }

  method GetTput(times: seq<real>, rows: nat, interval: real) returns (tput: array<real>)
    requires interval > 0.0
    ensures fresh(tput) && tput.Length == rows
    ensures forall i | 0 <= i < rows :: tput[i] == Rate(RowCount(times, interval, i), interval)
  {
    hide Rate, End, Reach;
    tput := new real[rows](_ => 0.0);
    var currLine := 0;
    NoPackets(interval);
    for i := 0 to rows
      invariant currLine == if i == 0 then 0 else Reach(times, End(interval, i - 1))
      invariant forall j | 0 <= j < i :: tput[j] == Rate(RowCount(times, interval, j), interval)
      invariant forall j | i <= j < rows :: tput[j] == 0.0
    {
      if currLine == |times| {
        NothingLeft(times, interval, i, rows);
        break;
      }
      var bound := End(interval, i);
      NextReach(times, interval, i);
      if times[currLine] > bound {
        ReachIsUnique(times, bound, currLine);
        assert RowCount(times, interval, i) == 0;
        continue;
      }
      var countPackets := CountPackets(times, currLine, bound);
      currLine := currLine + countPackets;
      assert RowCount(times, interval, i) == countPackets;
      tput[i] := Rate(countPackets, interval);
    }
  }

  /** Where the previous row stopped, the next one can go on. */
  lemma NextReach(times: seq<real>, interval: real, i: nat)
    requires interval > 0.0
    ensures var start := if i == 0 then 0 else Reach(times, End(interval, i - 1));
            && start <= Reach(times, End(interval, i))
            && forall k | 0 <= k < start :: times[k] <= End(interval, i)
  {
    if i > 0 {
      EndsIncrease(interval, i - 1);
      ReachGrows(times, End(interval, i - 1), End(interval, i));
    }
  }

  lemma NoPackets(interval: real)
    requires interval > 0.0
    ensures Rate(0, interval) == 0.0
  {
  }

  lemma ReachGrows(times: seq<real>, low: real, high: real)
    requires low <= high
    ensures Reach(times, low) <= Reach(times, high)
    ensures forall k | 0 <= k < Reach(times, low) :: times[k] <= high
  {
  }

  /** Once the list is exhausted all later rows are empty. */
  lemma {:induction false} NothingLeft(times: seq<real>, interval: real, i: nat, rows: nat)
    requires interval > 0.0 && |times| == if i == 0 then 0 else Reach(times, End(interval, i - 1))
    ensures forall j: nat | i <= j < rows :: RowCount(times, interval, j) == 0
    decreases rows - i
  {
    if i < rows {
      if i > 0 {
        EndsIncrease(interval, i - 1);
        ReachGrows(times, End(interval, i - 1), End(interval, i));
      }
      NothingLeft(times, interval, i + 1, rows);
    }
  }
}
