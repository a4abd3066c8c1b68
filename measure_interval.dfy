/**
 * measure_interval: measures how long `Sleep(1)` takes by recording `timeGetTime()` after each
 * sleep for one second, and tallies the gaps, next to the same gaps measured with
 * `QueryPerformanceCounter` and rounded to milliseconds. `timeGetTime()` values are an input, as
 * are the rounded performance-counter gaps (their floating-point computation is not modelled)
 * and the timer resolution queried before and after.
 */
module MeasureInterval {
  import opened TimerHistogram
  import PyText

  /** The first index from `k` on whose value differs from the first, or `|clock|` when none does. */
  function FirstChange(clock: seq<Dword>, k: nat): (c: nat)
    requires 0 < k <= |clock|
    ensures k <= c <= |clock|
    ensures forall m :: k <= m < c ==> clock[m] == clock[0]
    ensures c < |clock| ==> clock[c] != clock[0]
    decreases |clock| - k
  {
    if k == |clock| || clock[k] != clock[0] then k else FirstChange(clock, k + 1)
  }

  /**
   * The resolution `clock` shows: how far the value after the first change is from the first
   * value. `None` when no change is followed by another value.
   */
  function Resolution(clock: seq<Dword>): (r: PyText.Option<Dword>)
    ensures r.None? <==> forall k :: 0 < k < |clock| - 1 ==> clock[k] == clock[0]
  {
    if |clock| == 0 then PyText.None
    else
      var c := FirstChange(clock, 1);
      if c + 1 < |clock| then PyText.Some(Sub(clock[c + 1], clock[0])) else PyText.None
  }

  /**
   * `TimeGetTimeResolution` (lines 58-64): `clock` holds the successive `timeGetTime()` values.
   * It spins until a value differs from the first, then returns how far the next value is from
   * the first. `None` when the values run out first. `changeAt` is the index of the first change.
   */
  method TimeGetTimeResolution(clock: seq<Dword>) returns (r: PyText.Option<Dword>, ghost changeAt: nat)
    ensures r.Some? ==>
      && 0 < changeAt && changeAt + 1 < |clock|
      && (forall k :: 0 < k < changeAt ==> clock[k] == clock[0])
      && clock[changeAt] != clock[0]
      && r.value == Sub(clock[changeAt + 1], clock[0])
    ensures r.None? ==> forall k :: 0 < k < |clock| - 1 ==> clock[k] == clock[0]
    ensures r == Resolution(clock)
  {
    if |clock| == 0 {
      return PyText.None, 0;
    }
    var timeStart := clock[0];
    var k := 1;
    while k < |clock| && clock[k] == timeStart
      invariant 1 <= k <= |clock|
      invariant forall m :: 0 < m < k ==> clock[m] == timeStart
    {
      k := k + 1;
    }
    if k + 1 >= |clock| {
      return PyText.None, k;
    }
    return PyText.Some(Sub(clock[k + 1], timeStart)), k;
  }

  datatype Sleeping =
    | Finished(iterations: nat)
      /** The polls ran out before a second had passed. */
    | Exhausted
      /** A 2000th sleep would be stored past the end of `times`. */
    | Overrun

  /** The readings stored after each sleep. */
  function Nexts(polls: seq<Poll>): (r: seq<Dword>)
    ensures |r| == |polls| && forall i :: 0 <= i < |polls| ==> r[i] == polls[i].next
  {
    seq(|polls|, i requires 0 <= i < |polls| => polls[i].next)
  }

  /**
   * The loop of lines 73-87: pass `i` tests `polls[i].check` against the start; while less than a
   * second has passed it sleeps, counts an iteration and stores `polls[i].next` at
   * `times[iterations]`.
   */
  /** The sleep loop ends normally: one second passes before the 2000th sleep would be stored. */
  predicate SleepCompletes(start: Dword, polls: seq<Poll>) {
    FirstExpired(start, polls) < |polls| && FirstExpired(start, polls) < TIMES_LENGTH
  }

  method SleepLoop(start: Dword, polls: seq<Poll>) returns (outcome: Sleeping, times: array<Dword>)
    ensures fresh(times) && times.Length == TIMES_LENGTH
    ensures outcome.Finished? ==>
      && outcome.iterations < |polls| && outcome.iterations < TIMES_LENGTH
      && Expired(start, polls[outcome.iterations].check)
      && (forall i :: 0 <= i < outcome.iterations ==> !Expired(start, polls[i].check))
      && times[..outcome.iterations + 1] == [start] + Nexts(polls[..outcome.iterations])
    ensures outcome.Exhausted? ==>
      |polls| < TIMES_LENGTH && forall i :: 0 <= i < |polls| ==> !Expired(start, polls[i].check)
    ensures outcome.Overrun? ==>
      TIMES_LENGTH <= |polls| && forall i :: 0 <= i < TIMES_LENGTH ==> !Expired(start, polls[i].check)
    ensures outcome.Finished? <==> SleepCompletes(start, polls)
    ensures outcome.Finished? ==> outcome.iterations == FirstExpired(start, polls)
    ensures outcome.Exhausted? <==> FirstExpired(start, polls) == |polls| < TIMES_LENGTH
  {
    times := new Dword[TIMES_LENGTH];
    times[0] := start;
    var iterations := 0;
    while true
      invariant iterations <= |polls| && iterations < TIMES_LENGTH
      invariant forall i :: 0 <= i < iterations ==> !Expired(start, polls[i].check)
      invariant times[..iterations + 1] == [start] + Nexts(polls[..iterations])
      decreases |polls| - iterations
    {
      if iterations == |polls| {
        return Exhausted, times;
      }
      if Sub(polls[iterations].check, start) >= LOOP_LENGTH {
        return Finished(iterations), times;
      }
      if iterations + 1 == TIMES_LENGTH {
        return Overrun, times;
      }
      iterations := iterations + 1;
      times[iterations] := polls[iterations - 1].next;
      assert times[..iterations + 1] == times[..iterations] + [polls[iterations - 1].next];
      assert polls[..iterations] == polls[..iterations - 1] + [polls[iterations - 1]];
    }
  }

  /** The buckets of the rounded performance-counter gaps of the first `n` sleeps. */
  function PreciseBuckets(precise: nat -> Dword, n: nat): (r: seq<nat>)
    ensures |r| == n && forall i :: 0 <= i < n ==> r[i] == Bucket(precise(i)) < NUM_BUCKETS
  {
    if n == 0 then [] else PreciseBuckets(precise, n - 1) + [Bucket(precise(n - 1))]
  }

  /** Tallying the rounded gap of sleep `i` into bucket `b` extends the histogram by one sleep. */
  lemma PreciseStep(p: seq<nat>, preciseGap: nat -> Dword, i: nat, b: nat)
    requires p == Histogram(PreciseBuckets(preciseGap, i))
    requires b == Bucket(preciseGap(i))
    ensures p[b := p[b] + 1] == Histogram(PreciseBuckets(preciseGap, i + 1))
  {
    HistogramSnoc(PreciseBuckets(preciseGap, i), b);
  }

  /** The second half of the loop body of lines 102-117: tallies the rounded gap of sleep `i`. */
  method TallyPrecise(preciseGap: nat -> Dword, i: nat, precise: array<nat>)
    requires precise.Length == NUM_BUCKETS
    requires precise[..] == Histogram(PreciseBuckets(preciseGap, i))
    modifies precise
    ensures precise[..] == Histogram(PreciseBuckets(preciseGap, i + 1))
  {
    var elapsedPrecise := preciseGap(i);
    if elapsedPrecise >= NUM_BUCKETS {
      elapsedPrecise := NUM_BUCKETS - 1;
    }
    ghost var before := precise[..];
    precise[elapsedPrecise] := precise[elapsedPrecise] + 1;
    assert precise[..] == before[elapsedPrecise := before[elapsedPrecise] + 1];
    PreciseStep(before, preciseGap, i, elapsedPrecise);
  }

  /**
   * Lines 100-117: tallies each sleep's `timeGetTime()` gap into `counts` and its rounded
   * performance-counter gap into `precise`; each histogram sums to the number of sleeps.
   */
  method Histograms(times: array<Dword>, iterations: nat, preciseGap: nat -> Dword)
    returns (counts: array<nat>, precise: array<nat>)
    requires iterations < times.Length
    ensures fresh(counts) && fresh(precise)
    ensures counts[..] == Histogram(Buckets(times[..iterations + 1]))
    ensures precise[..] == Histogram(PreciseBuckets(preciseGap, iterations))
    ensures PyText.Sum(counts[..]) == iterations && PyText.Sum(precise[..]) == iterations
  {
    hide Histogram, Buckets, PreciseBuckets, PyText.Sum;
    counts := new nat[NUM_BUCKETS](_ => 0);
    precise := new nat[NUM_BUCKETS](_ => 0);
    HistogramEmpty();
    assert counts[..] == Histogram(Buckets(times[..1])) by {
      assert Buckets(times[..1]) == [];
      assert counts[..] == Zeros();
    }
    assert precise[..] == Histogram(PreciseBuckets(preciseGap, 0)) by {
      assert PreciseBuckets(preciseGap, 0) == [];
      assert precise[..] == Zeros();
    }
    for i := 0 to iterations
      invariant counts.Length == NUM_BUCKETS && precise.Length == NUM_BUCKETS && counts != precise
      invariant counts[..] == Histogram(Buckets(times[..i + 1]))
      invariant precise[..] == Histogram(PreciseBuckets(preciseGap, i))
    {
      TallyGap(times, i, counts);
      TallyPrecise(preciseGap, i, precise);
    }
    HistogramSum(Buckets(times[..iterations + 1]));
    HistogramSum(PreciseBuckets(preciseGap, iterations));
  }

  /**
   * `rows` lists, in ascending order of bucket, every bucket where either histogram is nonzero,
   * with both counts.
   */
  ghost predicate TableOf2(rows: seq<(nat, nat, nat)>, counts: seq<nat>, precise: seq<nat>)
    requires |counts| == |precise|
  {
    && (forall k :: 0 <= k < |rows| ==>
          && rows[k].0 < |counts|
          && rows[k].1 == counts[rows[k].0] && rows[k].2 == precise[rows[k].0]
          && (rows[k].1 != 0 || rows[k].2 != 0))
    && (forall k, l :: 0 <= k < l < |rows| ==> rows[k].0 < rows[l].0)
    && (forall b :: 0 <= b < |counts| && (counts[b] != 0 || precise[b] != 0) ==>
          exists k :: 0 <= k < |rows| && rows[k].0 == b)
  }

  /** Lines 118-121: one row per bucket where either count is nonzero, in ascending order. */
  method EitherNonZeroRows(counts: array<nat>, precise: array<nat>) returns (rows: seq<(nat, nat, nat)>)
    requires counts.Length == precise.Length
    ensures TableOf2(rows, counts[..], precise[..])
  {
    rows := [];
    for i := 0 to precise.Length
      invariant forall k :: 0 <= k < |rows| ==>
        && rows[k].0 < i
        && rows[k].1 == counts[rows[k].0] && rows[k].2 == precise[rows[k].0]
        && (rows[k].1 != 0 || rows[k].2 != 0)
      invariant forall k, l :: 0 <= k < l < |rows| ==> rows[k].0 < rows[l].0
      invariant forall b :: 0 <= b < i && (counts[b] != 0 || precise[b] != 0) ==>
        exists k :: 0 <= k < |rows| && rows[k].0 == b
    {
      if counts[i] != 0 || precise[i] != 0 {
        ghost var before := rows;
        rows := rows + [(i, counts[i], precise[i])];
        assert rows[|rows| - 1].0 == i;
        assert forall k :: 0 <= k < |before| ==> rows[k] == before[k];
      }
    }
  }

  datatype Report =
    | Incomplete
      /** The timer resolution differed before and after: nothing is reported. */
    | ResolutionChanged
    | Table(timeGetTimeResolution: Dword, iterations: nat, rows: seq<(nat, nat, nat)>)

  /**
   * `SleepTest`: measures the `timeGetTime()` resolution from `clock`, then sleeps in a loop for
   * one second and, when the timer resolution is unchanged, reports the table of gap buckets.
   */
  method SleepTest(resolutionStart: nat, resolutionEnd: nat, clock: seq<Dword>, start: Dword,
                   polls: seq<Poll>, preciseGap: nat -> Dword) returns (report: Report)
    ensures report.ResolutionChanged? ==> resolutionStart != resolutionEnd
    ensures report.Incomplete? <==> Resolution(clock).None? || !SleepCompletes(start, polls)
    ensures report.Table? <==>
      Resolution(clock).Some? && SleepCompletes(start, polls) && resolutionStart == resolutionEnd
    ensures report.Table? ==>
      && Resolution(clock) == PyText.Some(report.timeGetTimeResolution)
      && report.iterations == FirstExpired(start, polls)
      && resolutionStart == resolutionEnd
      && report.iterations < |polls|
      && Expired(start, polls[report.iterations].check)
      && (forall i :: 0 <= i < report.iterations ==> !Expired(start, polls[i].check))
      && TableOf2(report.rows,
                  Histogram(Buckets([start] + Nexts(polls[..report.iterations]))),
                  Histogram(PreciseBuckets(preciseGap, report.iterations)))
  {
    var resolution, _ := TimeGetTimeResolution(clock);
    if resolution.None? {
      return Incomplete;
    }
    var outcome, times := SleepLoop(start, polls);
    if !outcome.Finished? {
      return Incomplete;
    }
    if resolutionStart != resolutionEnd {
      return ResolutionChanged;
    }
    var iterations := outcome.iterations;
    var counts, precise := Histograms(times, iterations, preciseGap);
    var rows := EitherNonZeroRows(counts, precise);
    return Table(resolution.value, iterations, rows);
  }
}
