/** Building the training set (tacc-scripts/sampleMultiThread.py, `form_dataset_mod`):
    files are read in chunks, one per thread, and every sample is cut into random segments
    that do not overlap. */
module TrainingData {
  import opened Sequences

  // ----- Reading the files -----

  /** What a readable file gives: its rows of data and the largest value of each column. */
  datatype Sample<D> = Sample(data: D, maxima: seq<real>)

  ghost predicate Uniform<F(!new), D>(process: F -> Option<Sample<D>>, dim: nat) {
    forall file: F :: process(file).Some? ==> |process(file).value.maxima| == dim
  }

  function Floor(dim: nat): seq<real> {
    seq(dim, _ => -10.0)
  }

  /** `np.maximum`, entry by entry. */
  function Maximum(a: seq<real>, b: seq<real>): (m: seq<real>)
    requires |a| == |b|
    ensures |m| == |a|
    ensures forall i | 0 <= i < |a| :: a[i] <= m[i] && b[i] <= m[i] && (m[i] == a[i] || m[i] == b[i])
  {
    seq(|a|, i requires 0 <= i < |a| => if a[i] < b[i] then b[i] else a[i])
  }

  ghost function DataOf<F(!new), D>(process: F -> Option<Sample<D>>, files: seq<F>): seq<D> {
    if files == [] then [] else
      DataOf(process, files[..|files| - 1]) +
      match process(files[|files| - 1])
      case None => []
      case Some(s) => [s.data]
  }

  ghost function MaximaOf<F(!new), D>(process: F -> Option<Sample<D>>, files: seq<F>, dim: nat): (m: seq<real>)
    requires Uniform(process, dim)
    ensures |m| == dim
  {
    if files == [] then Floor(dim) else
      var front := MaximaOf(process, files[..|files| - 1], dim);
      match process(files[|files| - 1])
      case None => front
      case Some(s) => Maximum(s.maxima, front)
  }

  /** The maxima are the least values above -10 and above those of every readable file. */
  lemma {:induction false} MaximaAreMaxima<F(!new), D>(process: F -> Option<Sample<D>>, files: seq<F>, dim: nat, i: nat)
    requires Uniform(process, dim) && i < dim
    ensures var m := MaximaOf(process, files, dim);
            && m[i] >= -10.0
            && (forall f | f in files && process(f).Some? :: process(f).value.maxima[i] <= m[i])
            && (m[i] == -10.0 || exists f | f in files && process(f).Some? :: process(f).value.maxima[i] == m[i])
  {
    if files != [] {
      var front, last := files[..|files| - 1], files[|files| - 1];
      MaximaAreMaxima(process, front, dim, i);
      assert files == front + [last];
    }
  }

  lemma {:induction false} DataConcat<F(!new), D>(process: F -> Option<Sample<D>>, a: seq<F>, b: seq<F>)
    ensures DataOf(process, a + b) == DataOf(process, a) + DataOf(process, b)
  {
    if b == [] {
      assert a + b == a;
    } else {
      assert (a + b)[..|a + b| - 1] == a + b[..|b| - 1];
      DataConcat(process, a, b[..|b| - 1]);
    }
  }

  lemma {:induction false} MaximaConcat<F(!new), D>(process: F -> Option<Sample<D>>, a: seq<F>, b: seq<F>, dim: nat)
    requires Uniform(process, dim)
    ensures MaximaOf(process, a + b, dim) == Maximum(MaximaOf(process, a, dim), MaximaOf(process, b, dim))
  {
    var ma := MaximaOf(process, a, dim);
    if b == [] {
      assert a + b == a;
      forall i | 0 <= i < dim
        ensures ma[i] >= -10.0
      {
        MaximaAreMaxima(process, a, dim, i);
      }
    } else {
      var front, last := b[..|b| - 1], b[|b| - 1];
      assert (a + b)[..|a + b| - 1] == a + front;
      MaximaConcat(process, a, front, dim);
    }
  }

  /** One thread: the files of its chunk. */
  method ProcessChunk<F(!new), D>(process: F -> Option<Sample<D>>, chunk: seq<F>, dim: nat)
    returns (data: seq<D>, maxVals: seq<real>)
    requires Uniform(process, dim)
    ensures data == DataOf(process, chunk) && maxVals == MaximaOf(process, chunk, dim)
  {
    data, maxVals := [], Floor(dim);
    for i := 0 to |chunk|
      invariant data == DataOf(process, chunk[..i]) && maxVals == MaximaOf(process, chunk[..i], dim)
    {
      assert chunk[..i + 1][..i] == chunk[..i];
      var r := process(chunk[i]);
      if r.Some? {
        maxVals := Maximum(r.value.maxima, maxVals);
        data := data + [r.value.data];
      }
    }
    assert chunk[..|chunk|] == chunk;
  }

  /** All threads: what comes out is that of the first `threads * (|files| / threads)` files. */
  method FormDataset<F(!new), D>(process: F -> Option<Sample<D>>, files: seq<F>, threads: nat, dim: nat)
    returns (data: seq<D>, globalMax: seq<real>)
    requires Uniform(process, dim) && threads > 0
    ensures var used := files[..threads * (|files| / threads)];
            data == DataOf(process, used) && globalMax == MaximaOf(process, used, dim)
  {
    hide DataOf, MaximaOf;
    var filesPerThread := |files| / threads;
    data, globalMax := [], Floor(dim);
    NoFiles(process, dim);
    assert files[..0] == [];
    for t := 0 to threads
      invariant t * filesPerThread <= |files|
      invariant data == DataOf(process, files[..t * filesPerThread])
      invariant globalMax == MaximaOf(process, files[..t * filesPerThread], dim)
    {
      ChunkFits(|files|, threads, t);
      var from, to := t * filesPerThread, (t + 1) * filesPerThread;
      var d, maxVals := ProcessChunk(process, files[from..to], dim);
      assert files[..to] == files[..from] + files[from..to];
      DataConcat(process, files[..from], files[from..to]);
      MaximaConcat(process, files[..from], files[from..to], dim);
      data := data + d;
      globalMax := Maximum(globalMax, maxVals);
    }
  }

  lemma NoFiles<F(!new), D>(process: F -> Option<Sample<D>>, dim: nat)
    requires Uniform(process, dim)
    ensures DataOf(process, []) == [] && MaximaOf(process, [], dim) == Floor(dim)
  {
  }

  lemma ChunkFits(n: nat, threads: nat, t: nat)
    requires t < threads
    ensures t * (n / threads) <= (t + 1) * (n / threads) <= n
  {
    var q := n / threads;
    assert n == threads * q + n % threads;
    Increasing(t, t + 1, q);
    Increasing(t + 1, threads, q);
  }

  lemma Increasing(a: nat, b: nat, q: nat)
    requires a <= b
    ensures a * q <= b * q
  {
  }

  /** The files left over by the division are dropped: nothing is lost exactly when none of
      them can be read, for instance when the threads divide the number of files. */
  lemma NothingIsDroppedIff<F(!new), D>(process: F -> Option<Sample<D>>, files: seq<F>, threads: nat)
    requires threads > 0
    ensures threads * (|files| / threads) <= |files|
    ensures var used := threads * (|files| / threads);
            DataOf(process, files[..used]) == DataOf(process, files) <==>
            forall i | used <= i < |files| :: process(files[i]).None?
    ensures |files| % threads == 0 ==> threads * (|files| / threads) == |files|
  {
    hide DataOf;
    var used := threads * (|files| / threads);
    UsedAndLeft(|files|, threads);
    var a, b := files[..used], files[used..];
    assert files == a + b;
    DataConcat(process, a, b);
    NoDataIff(process, b);
    NothingAppended(DataOf(process, a), DataOf(process, b));
    assert forall i | used <= i < |files| :: files[i] == b[i - used];
    assert forall i | 0 <= i < |b| :: b[i] == files[used + i];
  }

  /** One readable file and two threads: its data is lost. */
  lemma OneFileTwoThreads<F(!new), D>(process: F -> Option<Sample<D>>, file: F)
    requires process(file).Some?
    ensures DataOf(process, [file][..2 * (|[file]| / 2)]) == []
    ensures DataOf(process, [file]) == [process(file).value.data]
  {
    assert [file][..0] == [];
  }

  lemma UsedAndLeft(n: nat, threads: nat)
    requires threads > 0
    ensures threads * (n / threads) + n % threads == n
  {
  }

  lemma NothingAppended<D>(a: seq<D>, b: seq<D>)
    ensures a == a + b <==> b == []
  {
    if b == [] {
      assert a + b == a;
    } else {
      assert |a + b| > |a|;
    }
  }

  lemma {:induction false} NoDataIff<F(!new), D>(process: F -> Option<Sample<D>>, files: seq<F>)
    ensures DataOf(process, files) == [] <==> forall i | 0 <= i < |files| :: process(files[i]).None?
  {
    if files != [] {
      var front, last := files[..|files| - 1], files[|files| - 1];
      NoDataIff(process, front);
      assert files == front + [last];
    }
  }

  // ----- Cutting a sample into segments -----

  /** The choices a run may make: each start lies behind the last segment and leaves room for a
      whole one, and the run goes on as long as a whole one fits. */
  ghost predicate Possible(lastEnd: nat, totalLen: nat, seqLen: nat, starts: seq<nat>)
    decreases |starts|
  {
    if lastEnd + seqLen > totalLen then starts == []
    else starts != [] && lastEnd <= starts[0] <= totalLen - seqLen && Possible(starts[0] + seqLen, totalLen, seqLen, starts[1..])
  }

  /** Segments in order, within bounds, without overlap, with less than a segment's room after the last. */
  ghost predicate IsCut(from: nat, totalLen: nat, seqLen: nat, starts: seq<nat>) {
    && (forall i | 0 <= i < |starts| :: from <= starts[i] && starts[i] + seqLen <= totalLen)
    && (forall i, j | 0 <= i < j < |starts| :: starts[i] + seqLen <= starts[j])
    && totalLen < (if starts == [] then from else starts[|starts| - 1] + seqLen) + seqLen
  }

  /** The segmentations a run can produce are exactly these cuts. */
  lemma {:induction false} PossibleIsCut(from: nat, totalLen: nat, seqLen: nat, starts: seq<nat>)
    requires seqLen > 0
    ensures Possible(from, totalLen, seqLen, starts) <==> IsCut(from, totalLen, seqLen, starts)
    decreases |starts|
  {
    if starts != [] {
      PossibleIsCut(starts[0] + seqLen, totalLen, seqLen, starts[1..]);
      CutStep(from, totalLen, seqLen, starts);
    }
  }

  lemma CutStep(from: nat, totalLen: nat, seqLen: nat, starts: seq<nat>)
    requires starts != []
    ensures IsCut(from, totalLen, seqLen, starts) <==>
            && from <= starts[0] <= totalLen - seqLen
            && IsCut(starts[0] + seqLen, totalLen, seqLen, starts[1..])
  {
    var rest := starts[1..];
    assert forall i | 1 <= i < |starts| :: starts[i] == rest[i - 1];
    if IsCut(from, totalLen, seqLen, starts) {
      forall i | 0 <= i < |rest|
        ensures starts[0] + seqLen <= rest[i] && rest[i] + seqLen <= totalLen
      {
        assert rest[i] == starts[i + 1];
      }
      forall i, j | 0 <= i < j < |rest|
        ensures rest[i] + seqLen <= rest[j]
      {
        assert rest[i] == starts[i + 1] && rest[j] == starts[j + 1];
      }
    }
  }

  lemma {:induction false} CutCount(from: nat, totalLen: nat, seqLen: nat, starts: seq<nat>)
    requires Possible(from, totalLen, seqLen, starts) && from <= totalLen
    ensures from + |starts| * seqLen <= totalLen
    ensures from + seqLen <= totalLen ==> starts != []
    decreases |starts|
  {
    if starts != [] {
      CutCount(starts[0] + seqLen, totalLen, seqLen, starts[1..]);
      assert |starts| * seqLen == |starts[1..]| * seqLen + seqLen;
    }
  }

  /** At most as many segments as fit end to end, and at least one if one fits. */
  lemma CutSize(totalLen: nat, seqLen: nat, starts: seq<nat>)
    requires seqLen > 0 && Possible(0, totalLen, seqLen, starts)
    ensures |starts| <= totalLen / seqLen
    ensures totalLen >= seqLen ==> |starts| >= 1
  {
    CutCount(0, totalLen, seqLen, starts);
    var q := totalLen / seqLen;
    if |starts| > q {
      TooMany(totalLen, seqLen, |starts|);
    }
  }

  lemma TooMany(totalLen: nat, seqLen: nat, n: nat)
    requires seqLen > 0 && n > totalLen / seqLen
    ensures n * seqLen > totalLen
  {
    var q := totalLen / seqLen;
    assert totalLen < (q + 1) * seqLen;
    Increasing(q + 1, n, seqLen);
  }

  /** The segments of one sample; the random choice is any number in its range. */
  method Segment<T>(sample: seq<T>, seqLen: nat) returns (segments: seq<seq<T>>, ghost starts: seq<nat>)
    requires seqLen > 0
    ensures Possible(0, |sample|, seqLen, starts)
    ensures |segments| == |starts|
    ensures forall i | 0 <= i < |starts| ::
              starts[i] + seqLen <= |sample| && segments[i] == sample[starts[i]..starts[i] + seqLen]
  {
    hide Possible, IsCut;
    segments, starts := [], [];
    var totalLen := |sample|;
    var remainingLength := totalLen;
    var lastEnd := 0;
    while remainingLength >= seqLen
      invariant 0 <= remainingLength == totalLen - lastEnd
      invariant Laid(sample, seqLen, starts, segments, lastEnd)
      decreases remainingLength
    {
      hide Laid;
      var start: nat :| lastEnd <= start < totalLen - seqLen + 1;
      var end := start + seqLen;
      LaidSnoc(sample, seqLen, starts, segments, lastEnd, start);
      segments := segments + [sample[start..end]];
      starts := starts + [start];
      lastEnd := end;
      remainingLength := totalLen - lastEnd;
    }
    LaidIsCut(sample, seqLen, starts, segments, lastEnd);
    PossibleIsCut(0, totalLen, seqLen, starts);
  }

  /** The segments cut so far, none of them reaching beyond `lastEnd`. */
  ghost predicate Laid<T>(sample: seq<T>, seqLen: nat, starts: seq<nat>, segments: seq<seq<T>>, lastEnd: nat) {
    && |segments| == |starts|
    && lastEnd == (if starts == [] then 0 else starts[|starts| - 1] + seqLen) <= |sample|
    && (forall i | 0 <= i < |starts| ::
          starts[i] + seqLen <= lastEnd && segments[i] == sample[starts[i]..starts[i] + seqLen])
    && forall i, j | 0 <= i < j < |starts| :: starts[i] + seqLen <= starts[j]
  }

  lemma LaidSnoc<T>(sample: seq<T>, seqLen: nat, starts: seq<nat>, segments: seq<seq<T>>, lastEnd: nat, start: nat)
    requires Laid(sample, seqLen, starts, segments, lastEnd) && lastEnd <= start && start + seqLen <= |sample|
    ensures Laid(sample, seqLen, starts + [start], segments + [sample[start..start + seqLen]], start + seqLen)
  {
  }

  lemma LaidIsCut<T>(sample: seq<T>, seqLen: nat, starts: seq<nat>, segments: seq<seq<T>>, lastEnd: nat)
    requires Laid(sample, seqLen, starts, segments, lastEnd) && |sample| < lastEnd + seqLen
    ensures IsCut(0, |sample|, seqLen, starts)
  {
  }

  /** The segment of sample `i` at the `j`-th start drawn for it. */
  ghost predicate HoldsSegment<T>(modData: seq<seq<T>>, samples: seq<seq<T>>, seqLen: nat, starts: seq<seq<nat>>, i: nat, j: nat)
    requires i < |starts| && i < |samples| && j < |starts[i]|
  {
    var place, start := Offset(starts, i) + j, starts[i][j];
    start + seqLen <= |samples[i]| && place < |modData| && modData[place] == samples[i][start..start + seqLen]
  }

  /** All samples: the segments of each, behind those of the samples before it, and no others. */
  method SegmentAll<T>(samples: seq<seq<T>>, seqLen: nat)
    returns (modData: seq<seq<T>>, ghost starts: seq<seq<nat>>)
    requires seqLen > 0
    ensures |starts| == |samples|
    ensures forall i | 0 <= i < |samples| :: Possible(0, |samples[i]|, seqLen, starts[i])
    ensures |modData| == Offset(starts, |starts|)
    ensures forall i, j | 0 <= i < |samples| && 0 <= j < |starts[i]| :: HoldsSegment(modData, samples, seqLen, starts, i, j)
  {
    hide Possible, Offset, HoldsSegment;
    modData, starts := [], [];
    NoParts<nat>();
    for n := 0 to |samples|
      invariant |starts| == n && |modData| == Offset(starts, n)
      invariant forall i | 0 <= i < n :: Possible(0, |samples[i]|, seqLen, starts[i])
      invariant forall i, j | 0 <= i < n && 0 <= j < |starts[i]| :: HoldsSegment(modData, samples, seqLen, starts, i, j)
    {
      var segments;
      ghost var cuts;
      segments, cuts := Segment(samples[n], seqLen);
      OneMoreSample(modData, samples, seqLen, starts, segments, cuts);
      modData := modData + segments;
      starts := starts + [cuts];
    }
  }

  lemma NoParts<T>()
    ensures Offset<T>([], 0) == 0
  {
  }

  lemma OneMoreSample<T>(modData: seq<seq<T>>, samples: seq<seq<T>>, seqLen: nat, starts: seq<seq<nat>>,
                         segments: seq<seq<T>>, cuts: seq<nat>)
    requires |starts| < |samples| && |modData| == Offset(starts, |starts|) && |segments| == |cuts|
    requires forall j | 0 <= j < |cuts| ::
               cuts[j] + seqLen <= |samples[|starts|]| && segments[j] == samples[|starts|][cuts[j]..cuts[j] + seqLen]
    requires forall i, j | 0 <= i < |starts| && 0 <= j < |starts[i]| :: HoldsSegment(modData, samples, seqLen, starts, i, j)
    ensures |modData + segments| == Offset(starts + [cuts], |starts| + 1)
    ensures forall i, j | 0 <= i <= |starts| && 0 <= j < |(starts + [cuts])[i]| ::
              HoldsSegment(modData + segments, samples, seqLen, starts + [cuts], i, j)
  {
    var n := |starts|;
    OffsetOfFront(starts, cuts, n);
    forall i, j | 0 <= i <= n && 0 <= j < |(starts + [cuts])[i]|
      ensures HoldsSegment(modData + segments, samples, seqLen, starts + [cuts], i, j)
    {
      OffsetOfFront(starts, cuts, i);
      if i < n {
        assert HoldsSegment(modData, samples, seqLen, starts, i, j);
      }
    }
  }
}
