/** Rewards and throughput windows of the policy data set (tacc-scripts/trainCCPolicyDecider.py),
    with exact real arithmetic. */
module PolicyDecider {
  import opened Sequences

  const LABEL_LINE_LIMIT: nat := 16
  const D_MIN := 20.0
  const DELTA := 0.1

  // ----- The capacity pointer -----

  /** One sample moves the capacity pointer by at most one breakpoint. */
  function Advance(breakpoints: seq<real>, index: nat, t: real): (next: nat)
    ensures index < |breakpoints| ==> next < |breakpoints|
    ensures next == index || next == index + 1
  {
    if index + 1 < |breakpoints| && t >= breakpoints[index + 1] then index + 1 else index
  }

  /** The capacity pointer when sample `k` is judged. */
  ghost function Pointer(breakpoints: seq<real>, times: seq<real>, k: nat): nat
    requires k < |times|
  {
    Advance(breakpoints, if k == 0 then 0 else Pointer(breakpoints, times, k - 1), times[k])
  }

  ghost predicate Ascending(s: seq<real>) {
    forall i, j | 0 <= i < j < |s| :: s[i] <= s[j]
  }

  /** The bucket in which a time lies: the last breakpoint that is not after it, or the first one. */
  ghost function Bucket(breakpoints: seq<real>, t: real): (g: nat)
    requires breakpoints != []
    ensures g < |breakpoints|
    ensures g > 0 ==> breakpoints[g] <= t
    ensures forall j | g < j < |breakpoints| :: breakpoints[j] > t
  {
    var last := |breakpoints| - 1;
    if last == 0 || breakpoints[last] <= t then last else Bucket(breakpoints[..last], t)
  }

  lemma BucketGrows(breakpoints: seq<real>, t: real, t': real)
    requires breakpoints != [] && t <= t'
    ensures Bucket(breakpoints, t) <= Bucket(breakpoints, t')
  {
  }

  /** A pointer that is not ahead of time moves to the bucket or one step towards it. */
  lemma AdvanceIsMin(breakpoints: seq<real>, index: nat, t: real)
    requires breakpoints != [] && Ascending(breakpoints) && index <= Bucket(breakpoints, t)
    ensures var g := Bucket(breakpoints, t);
            Advance(breakpoints, index, t) == if index + 1 <= g then index + 1 else g
  {
    var g := Bucket(breakpoints, t);
    if index + 1 < g {
      assert breakpoints[index + 1] <= breakpoints[g];
    }
  }

  ghost function G(breakpoints: seq<real>, times: seq<real>, j: nat): nat
    requires breakpoints != [] && j < |times|
  {
    Bucket(breakpoints, times[j])
  }

  /** The capacity pointer is in range, never ahead of time and never moves back. */
  lemma {:induction false} PointerIsBehind(breakpoints: seq<real>, times: seq<real>, k: nat)
    requires breakpoints != [] && Ascending(breakpoints) && Ascending(times) && k < |times|
    ensures Pointer(breakpoints, times, k) <= G(breakpoints, times, k) < |breakpoints|
    ensures var before := if k == 0 then 0 else Pointer(breakpoints, times, k - 1);
            var g := G(breakpoints, times, k);
            && before <= Pointer(breakpoints, times, k)
            && Pointer(breakpoints, times, k) == if before + 1 <= g then before + 1 else g
  {
    if k > 0 {
      PointerIsBehind(breakpoints, times, k - 1);
      BucketGrows(breakpoints, times[k - 1], times[k]);
    }
    AdvanceIsMin(breakpoints, if k == 0 then 0 else Pointer(breakpoints, times, k - 1), times[k]);
  }

  /** Closed form: the least of k + 1 and of the earlier buckets, each with a step for every sample since. */
  lemma {:induction false} PointerClosedForm(breakpoints: seq<real>, times: seq<real>, k: nat)
    requires breakpoints != [] && Ascending(breakpoints) && Ascending(times) && k < |times|
    ensures var p := Pointer(breakpoints, times, k);
            && p <= k + 1
            && (forall j: nat | j <= k :: p <= G(breakpoints, times, j) + (k - j))
            && (p == k + 1 || exists j: nat | j <= k :: p == G(breakpoints, times, j) + (k - j))
  {
    PointerIsBehind(breakpoints, times, k);
    var p := Pointer(breakpoints, times, k);
    if p == G(breakpoints, times, k) {
      assert p == G(breakpoints, times, k) + (k - k);
    }
    if k > 0 {
      PointerClosedForm(breakpoints, times, k - 1);
      var before := Pointer(breakpoints, times, k - 1);
      if p == before + 1 && before != k {
        var j: nat :| j <= k - 1 && before == G(breakpoints, times, j) + (k - 1 - j);
        assert p == G(breakpoints, times, j) + (k - j);
      }
    }
  }

  /** The capacity pointer is at the right bucket for every sample exactly when the buckets never skip a
      breakpoint from one sample to the next; otherwise it lags behind. */
  lemma PointerIsRightIff(breakpoints: seq<real>, times: seq<real>)
    requires breakpoints != [] && Ascending(breakpoints) && Ascending(times)
    ensures (forall k: nat | k < |times| :: Pointer(breakpoints, times, k) == G(breakpoints, times, k)) <==>
            (forall k: nat | k < |times| :: NoSkip(breakpoints, times, k))
  {
    if forall k: nat | k < |times| :: Pointer(breakpoints, times, k) == G(breakpoints, times, k) {
      forall k: nat | k < |times|
        ensures NoSkip(breakpoints, times, k)
      {
        PointerIsBehind(breakpoints, times, k);
        if k > 0 {
          var h: nat := k - 1;
          assert Pointer(breakpoints, times, h) == G(breakpoints, times, h);
        }
      }
    }
    if forall k: nat | k < |times| :: NoSkip(breakpoints, times, k) {
      forall k: nat | k < |times|
        ensures Pointer(breakpoints, times, k) == G(breakpoints, times, k)
      {
        PointerKeepsUp(breakpoints, times, k);
      }
    }
  }

  /** Two breakpoints pass before the first sample: the index lags one behind. */
  lemma SkippedBreakpoint()
    ensures var breakpoints, times := [0.0, 1.0, 2.0], [5.0];
            && Ascending(breakpoints) && Ascending(times)
            && G(breakpoints, times, 0) == 2 && Pointer(breakpoints, times, 0) == 1
  {
  }

  ghost predicate NoSkip(breakpoints: seq<real>, times: seq<real>, k: nat)
    requires breakpoints != [] && k < |times|
  {
    G(breakpoints, times, k) <= 1 + if k == 0 then 0 else G(breakpoints, times, k - 1)
  }

  lemma {:induction false} PointerKeepsUp(breakpoints: seq<real>, times: seq<real>, k: nat)
    requires breakpoints != [] && Ascending(breakpoints) && Ascending(times) && k < |times|
    requires forall j: nat | j < |times| :: NoSkip(breakpoints, times, j)
    ensures Pointer(breakpoints, times, k) == G(breakpoints, times, k)
  {
    PointerIsBehind(breakpoints, times, k);
    assert NoSkip(breakpoints, times, k);
    if k > 0 {
      PointerKeepsUp(breakpoints, times, k - 1);
    }
  }

  // ----- The reward -----

  datatype Row = Row(t: real, tput: real, delay: real, drop: int)

  /** The reward of a file, or the line at which a division by zero or a missing capacity stops it. */
  datatype Reward = Total(value: real) | FailedAt(line: nat)

  ghost function Times(rows: seq<Row>): seq<real> {
    seq(|rows|, i requires 0 <= i < |rows| => rows[i].t)
  }

  predicate Divides(capacities: seq<real>, row: Row, index: nat) {
    index < |capacities| && row.delay != 0.0 && capacities[index] != 0.0
  }

  function RowReward(capacities: seq<real>, row: Row, index: nat): real
    requires Divides(capacities, row, index)
  {
    (row.tput - DELTA * row.drop as real) / row.delay / (capacities[index] / D_MIN)
  }

  /** The reward, multiplied out: twenty times the rate, less a tenth for each drop, is the
      reward times the delay and the capacity. */
  lemma RewardMultipliedOut(capacities: seq<real>, row: Row, index: nat)
    requires Divides(capacities, row, index)
    ensures RowReward(capacities, row, index) * row.delay * capacities[index] ==
            20.0 * (row.tput - row.drop as real / 10.0)
  {
    var gain, load := row.tput - DELTA * row.drop as real, capacities[index] / D_MIN;
    var perDelay := gain / row.delay;
    assert load * D_MIN == capacities[index];
    assert load != 0.0;
    assert perDelay * row.delay == gain;
    Regroup(perDelay / load, row.delay, load, perDelay, capacities[index], gain);
  }

  lemma Regroup(r: real, delay: real, load: real, perDelay: real, capacity: real, gain: real)
    requires r * load == perDelay && perDelay * delay == gain && load * 20.0 == capacity
    ensures r * delay * capacity == 20.0 * gain
  {
    assert r * delay * (load * 20.0) == ((r * load) * delay) * 20.0;
  }

  /** The reward of row `k`; 0 where it cannot be computed. */
  ghost function Term(breakpoints: seq<real>, capacities: seq<real>, rows: seq<Row>, k: nat): real
    requires k < |rows|
  {
    var index := Pointer(breakpoints, Times(rows), k);
    if Divides(capacities, rows[k], index) then RowReward(capacities, rows[k], index) else 0.0
  }

  ghost predicate Computable(breakpoints: seq<real>, capacities: seq<real>, rows: seq<Row>, k: nat)
    requires k < |rows|
  {
    Divides(capacities, rows[k], Pointer(breakpoints, Times(rows), k))
  }

  /** The positive rewards among the first `n` rows, in order. */
  ghost function Positive(breakpoints: seq<real>, capacities: seq<real>, rows: seq<Row>, n: nat): seq<real>
    requires n <= |rows|
  {
    if n == 0 then [] else
      var r := Term(breakpoints, capacities, rows, n - 1);
      Positive(breakpoints, capacities, rows, n - 1) + if r > 0.0 then [r] else []
  }

  lemma {:induction false} PositiveGrows(breakpoints: seq<real>, capacities: seq<real>, rows: seq<Row>, m: nat, n: nat)
    requires m <= n <= |rows|
    ensures Positive(breakpoints, capacities, rows, m) <= Positive(breakpoints, capacities, rows, n)
  {
    if m < n {
      PositiveGrows(breakpoints, capacities, rows, m, n - 1);
    }
  }

  /** The positive rewards are those of the rows with a positive one, each once and in order. */
  lemma PositiveInOrder(breakpoints: seq<real>, capacities: seq<real>, rows: seq<Row>, n: nat) returns (at: seq<nat>)
    requires n <= |rows|
    ensures var all := Positive(breakpoints, capacities, rows, n);
            && Rising(at) && |at| == |all|
            && (forall k | 0 <= k < |at| :: at[k] < n && all[k] == Term(breakpoints, capacities, rows, at[k]) > 0.0)
            && forall i: nat | i < n && Term(breakpoints, capacities, rows, i) > 0.0 :: i in at
  {
    var parts := seq(n, i requires 0 <= i < n =>
      var r := Term(breakpoints, capacities, rows, i); if r > 0.0 then [r] else []);
    hide Term;
    PositiveFlatten(breakpoints, capacities, rows, n, parts);
    at := FlattenPicks(parts);
    forall i: nat | i < n && Term(breakpoints, capacities, rows, i) > 0.0
      ensures i in at
    {
      assert |parts[i]| == 1;
    }
  }

  lemma {:induction false} PositiveFlatten(breakpoints: seq<real>, capacities: seq<real>, rows: seq<Row>, n: nat,
                                           parts: seq<seq<real>>)
    requires |parts| == n <= |rows|
    requires forall i | 0 <= i < n ::
               var r := Term(breakpoints, capacities, rows, i); parts[i] == if r > 0.0 then [r] else []
    ensures Positive(breakpoints, capacities, rows, n) == Flatten(parts)
  {
    hide Term, Flatten;
    if n == 0 {
      FlattenLength(parts);
    } else {
      PositiveFlatten(breakpoints, capacities, rows, n - 1, parts[..n - 1]);
      FlattenSnoc(parts[..n - 1], parts[n - 1]);
      assert parts == parts[..n - 1] + [parts[n - 1]];
    }
  }

  ghost function FirstPositive(breakpoints: seq<real>, capacities: seq<real>, rows: seq<Row>): seq<real> {
    var all := Positive(breakpoints, capacities, rows, |rows|);
    if |all| <= LABEL_LINE_LIMIT then all else all[..LABEL_LINE_LIMIT]
  }

  lemma FirstSixteen(breakpoints: seq<real>, capacities: seq<real>, rows: seq<Row>)
    ensures var first, all := FirstPositive(breakpoints, capacities, rows), Positive(breakpoints, capacities, rows, |rows|);
            first <= all && |first| <= 16 && (|first| < 16 ==> first == all)
  {
  }

  /** The reward is the sum of the first positive rewards, 16 at most.  It fails exactly at the
      first row that cannot be computed, if that row is reached before the 16 are complete. */
  method GetReward(breakpoints: seq<real>, capacities: seq<real>, rows: seq<Row>) returns (reward: Reward)
    requires |breakpoints| == |capacities|
    ensures reward.Total? ==> reward.value == Sum(FirstPositive(breakpoints, capacities, rows))
    ensures reward.FailedAt? <==> exists k | 0 <= k < |rows| ::
              && !Computable(breakpoints, capacities, rows, k)
              && |Positive(breakpoints, capacities, rows, k)| < LABEL_LINE_LIMIT
    ensures reward.FailedAt? ==>
              && reward.line < |rows| && !Computable(breakpoints, capacities, rows, reward.line)
              && forall j | 0 <= j < reward.line :: Computable(breakpoints, capacities, rows, j)
  {
    hide RowReward, Divides, Pointer, Positive, Sum, Advance;
    var totalReward := 0.0;
    var lineCount := 0;
    var tputMaxIndex := 0;
    NothingPositive(breakpoints, capacities, rows);
    for k := 0 to |rows|
      invariant lineCount < LABEL_LINE_LIMIT
      invariant lineCount == |Positive(breakpoints, capacities, rows, k)|
      invariant totalReward == Sum(Positive(breakpoints, capacities, rows, k))
      invariant tputMaxIndex == if k == 0 then 0 else Pointer(breakpoints, Times(rows), k - 1)
      invariant forall j | 0 <= j < k :: Computable(breakpoints, capacities, rows, j)
    {
      var row := rows[k];
      RowStep(breakpoints, capacities, rows, k);
      tputMaxIndex := Advance(breakpoints, tputMaxIndex, row.t);
      if !Divides(capacities, row, tputMaxIndex) {
        assert !Computable(breakpoints, capacities, rows, k);
        return FailedAt(k);
      }
      var r := RowReward(capacities, row, tputMaxIndex);
      if r > 0.0 {
        totalReward := totalReward + r;
        lineCount := lineCount + 1;
        if lineCount >= LABEL_LINE_LIMIT {
          EnoughPositive(breakpoints, capacities, rows, k + 1);
          return Total(totalReward);
        }
      }
    }
    return Total(totalReward);
  }

  lemma NothingPositive(breakpoints: seq<real>, capacities: seq<real>, rows: seq<Row>)
    ensures Positive(breakpoints, capacities, rows, 0) == [] && Sum([]) == 0.0
  {
  }

  /** One row: the capacity pointer, and what it adds to the positive rewards. */
  lemma RowStep(breakpoints: seq<real>, capacities: seq<real>, rows: seq<Row>, k: nat)
    requires k < |rows|
    ensures Pointer(breakpoints, Times(rows), k) ==
            Advance(breakpoints, if k == 0 then 0 else Pointer(breakpoints, Times(rows), k - 1), rows[k].t)
    ensures var index := Pointer(breakpoints, Times(rows), k);
            var before := Positive(breakpoints, capacities, rows, k);
            var after := Positive(breakpoints, capacities, rows, k + 1);
            Divides(capacities, rows[k], index) ==>
              var r := RowReward(capacities, rows[k], index);
              if r > 0.0 then |after| == |before| + 1 && Sum(after) == Sum(before) + r else after == before
  {
    hide RowReward, Divides;
    PointerStep(breakpoints, rows, k);
    SumSnoc(Positive(breakpoints, capacities, rows, k), Term(breakpoints, capacities, rows, k));
  }

  lemma PointerStep(breakpoints: seq<real>, rows: seq<Row>, k: nat)
    requires k < |rows|
    ensures Pointer(breakpoints, Times(rows), k) ==
            Advance(breakpoints, if k == 0 then 0 else Pointer(breakpoints, Times(rows), k - 1), rows[k].t)
  {
  }

  lemma EnoughPositive(breakpoints: seq<real>, capacities: seq<real>, rows: seq<Row>, n: nat)
    requires n <= |rows| && |Positive(breakpoints, capacities, rows, n)| == LABEL_LINE_LIMIT
    ensures FirstPositive(breakpoints, capacities, rows) == Positive(breakpoints, capacities, rows, n)
    ensures forall k: nat | n <= k <= |rows| :: |Positive(breakpoints, capacities, rows, k)| >= LABEL_LINE_LIMIT
  {
    PositiveGrows(breakpoints, capacities, rows, n, |rows|);
    forall k: nat | n <= k <= |rows|
      ensures |Positive(breakpoints, capacities, rows, k)| >= LABEL_LINE_LIMIT
    {
      PositiveGrows(breakpoints, capacities, rows, n, k);
    }
  }

  // ----- Throughput windows -----

  const WINDOW_MS := 20

  /** A packet trace entry: the time in milliseconds and the bytes received. */
  datatype Arrival = Arrival(ms: real, bytes: real)

  /** `int` of a float: towards zero. */
  function Truncate(x: real): int {
    if x >= 0.0 then x.Floor else -((-x).Floor)
  }

  predicate InWindow(a: Arrival, k: nat) {
    (WINDOW_MS * k) as real <= a.ms < (WINDOW_MS * k + WINDOW_MS) as real
  }

  /** Windows are 20 ms wide: the window of a time is the number of whole 20 ms before it. */
  lemma WindowOf(a: Arrival, k: nat)
    requires a.ms >= 0.0
    ensures InWindow(a, k) <==> k == (a.ms / 20.0).Floor
  {
    var x := a.ms / 20.0;
    assert x * 20.0 == a.ms;
    assert (WINDOW_MS * k) as real == 20.0 * k as real;
    assert (WINDOW_MS * k + WINDOW_MS) as real == 20.0 * (k as real + 1.0);
    assert InWindow(a, k) <==> k as real <= x < k as real + 1.0;
  }

  ghost function BytesIn(arrivals: seq<Arrival>, k: nat): real {
    if arrivals == [] then 0.0 else
      var last := arrivals[|arrivals| - 1];
      BytesIn(arrivals[..|arrivals| - 1], k) + if InWindow(last, k) then last.bytes else 0.0
  }

  ghost function BytesInAll(arrivals: seq<Arrival>, windows: nat): real {
    if windows == 0 then 0.0 else BytesInAll(arrivals, windows - 1) + BytesIn(arrivals, windows - 1)
  }

  /** The bytes of the arrivals before `end`, negative times excepted. */
  ghost function BytesBefore(arrivals: seq<Arrival>, end: real): real {
    if arrivals == [] then 0.0 else
      var last := arrivals[|arrivals| - 1];
      BytesBefore(arrivals[..|arrivals| - 1], end) + if 0.0 <= last.ms < end then last.bytes else 0.0
  }

  /** The windows are a partition: together they hold each arrival in their range once. */
  lemma {:induction false} WindowsPartition(arrivals: seq<Arrival>, windows: nat)
    ensures BytesInAll(arrivals, windows) == BytesBefore(arrivals, (WINDOW_MS * windows) as real)
  {
    if windows == 0 {
      NothingBefore(arrivals);
    } else {
      WindowsPartition(arrivals, windows - 1);
      OneMoreWindow(arrivals, windows - 1);
    }
  }

  lemma {:induction false} NothingBefore(arrivals: seq<Arrival>)
    ensures BytesBefore(arrivals, 0.0) == 0.0
  {
    if arrivals != [] {
      NothingBefore(arrivals[..|arrivals| - 1]);
    }
  }

  lemma {:induction false} OneMoreWindow(arrivals: seq<Arrival>, k: nat)
    ensures BytesBefore(arrivals, (WINDOW_MS * (k + 1)) as real) ==
            BytesBefore(arrivals, (WINDOW_MS * k) as real) + BytesIn(arrivals, k)
  {
    if arrivals != [] {
      OneMoreWindow(arrivals[..|arrivals| - 1], k);
    }
  }

  /** `range(0, max + 1, 20)`. */
  function WindowCount(arrivals: seq<Arrival>): nat
    requires arrivals != []
  {
    var maxTime := Truncate(arrivals[|arrivals| - 1].ms);
    if maxTime < 0 then 0 else maxTime / WINDOW_MS + 1
  }

  /** If the last arrival is the latest and none is negative, the windows hold every byte received. */
  lemma NoByteIsLost(arrivals: seq<Arrival>)
    requires arrivals != []
    requires forall i | 0 <= i < |arrivals| :: 0.0 <= arrivals[i].ms <= arrivals[|arrivals| - 1].ms
    ensures BytesInAll(arrivals, WindowCount(arrivals)) == TotalBytes(arrivals)
  {
    var n, last := WindowCount(arrivals), arrivals[|arrivals| - 1].ms;
    WindowsPartition(arrivals, n);
    assert last < (last.Floor + 1) as real;
    assert last.Floor + 1 <= WINDOW_MS * n;
    AllBefore(arrivals, (WINDOW_MS * n) as real);
  }

  /** A window is counted if it begins no later than the last arrival; the first one also if the
      last arrival is less than a millisecond before 0, which is cut to 0. */
  lemma WindowIsCounted(arrivals: seq<Arrival>, k: nat)
    requires arrivals != []
    ensures k < WindowCount(arrivals) <==>
            var ms := arrivals[|arrivals| - 1].ms; 20.0 * k as real <= ms || (k == 0 && ms > -1.0)
  {
    var ms := arrivals[|arrivals| - 1].ms;
    if ms >= 0.0 {
      assert ms.Floor as real <= ms < (ms.Floor + 1) as real;
      assert (20 * k) as real == 20.0 * k as real;
      assert 20 * k <= ms.Floor <==> 20.0 * k as real <= ms;
    } else {
      assert (-ms).Floor as real <= -ms < ((-ms).Floor + 1) as real;
    }
  }

  /** The last window is the one with the last arrival. */
  lemma LastWindow(arrivals: seq<Arrival>)
    requires arrivals != [] && arrivals[|arrivals| - 1].ms >= 0.0
    ensures WindowCount(arrivals) > 0 && InWindow(arrivals[|arrivals| - 1], WindowCount(arrivals) - 1)
  {
    var last, k := arrivals[|arrivals| - 1], WindowCount(arrivals) - 1;
    assert last.ms.Floor as real <= last.ms < (last.ms.Floor + 1) as real;
    assert WINDOW_MS * k <= last.ms.Floor < WINDOW_MS * k + WINDOW_MS;
  }

  ghost function TotalBytes(arrivals: seq<Arrival>): real {
    if arrivals == [] then 0.0 else TotalBytes(arrivals[..|arrivals| - 1]) + arrivals[|arrivals| - 1].bytes
  }

  lemma {:induction false} AllBefore(arrivals: seq<Arrival>, end: real)
    requires forall i | 0 <= i < |arrivals| :: 0.0 <= arrivals[i].ms < end
    ensures BytesBefore(arrivals, end) == TotalBytes(arrivals)
  {
    if arrivals != [] {
      AllBefore(arrivals[..|arrivals| - 1], end);
    }
  }

  function Mbps(bytes: real): real {
    bytes * 8.0 / (0.02 * 1000000.0)
  }

  /** As many bits as the bytes have, spread over 20 ms. */
  lemma MbpsIsBits(bytes: real)
    ensures Mbps(bytes) * 1000000.0 * 0.02 == bytes * 8.0
  {
  }

  datatype Throughputs = NoArrivals | Throughputs(perWindow: seq<real>)

  /** One throughput for each window up to the last arrival; without arrivals there is no last one. */
  method GetTput(arrivals: seq<Arrival>) returns (r: Throughputs)
    ensures r.NoArrivals? <==> arrivals == []
    ensures r.Throughputs? ==>
              && |r.perWindow| == WindowCount(arrivals)
              && forall k | 0 <= k < |r.perWindow| :: r.perWindow[k] == Mbps(BytesIn(arrivals, k))
  {
    if arrivals == [] {
      return NoArrivals;
    }
    var maxTime := Truncate(arrivals[|arrivals| - 1].ms);
    var throughputs: seq<real> := [];
    var currentTime := 0;
    while currentTime < maxTime + 1
      invariant currentTime == WINDOW_MS * |throughputs|
      invariant throughputs == [] || currentTime - WINDOW_MS <= maxTime
      invariant forall k | 0 <= k < |throughputs| :: throughputs[k] == Mbps(BytesIn(arrivals, k))
    {
      var bytes := SumBytes(arrivals, |throughputs|);
      throughputs := throughputs + [Mbps(bytes)];
      currentTime := currentTime + WINDOW_MS;
    }
    return Throughputs(throughputs);
  }

  /** The masked sum over one window. */
  method SumBytes(arrivals: seq<Arrival>, k: nat) returns (bytes: real)
    ensures bytes == BytesIn(arrivals, k)
  {
    bytes := 0.0;
    for i := 0 to |arrivals|
      invariant bytes == BytesIn(arrivals[..i], k)
    {
      assert arrivals[..i + 1][..i] == arrivals[..i];
      if InWindow(arrivals[i], k) {
        bytes := bytes + arrivals[i].bytes;
      }
    }
    assert arrivals[..|arrivals|] == arrivals;
  }
}
