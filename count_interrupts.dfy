/**
 * count_interrupts: counts timer interrupts by watching `timeGetTime()` change for one second,
 * stores a reading after each change, and tallies the gaps between stored readings.
 * The `timeGetTime()` values are an input: a start value and one `Poll` per loop pass.
 * The timer resolution queried before and after the measurement is an input too.
 */
module CountInterrupts {
  import opened TimerHistogram

  /** The sample the pass at `i` compares against: the start value, then the previous pass's. */
  function Prev(start: Dword, polls: seq<Poll>, i: nat): Dword
    requires i <= |polls|
  {
    if i == 0 then start else polls[i - 1].check
  }

  /** The pass at `i` saw the counter change. */
  predicate Changed(start: Dword, polls: seq<Poll>, i: nat)
    requires i < |polls|
  {
    polls[i].check != Prev(start, polls, i)
  }

  /** The readings stored into `times[1..]` by the passes `polls`, one per change, in order. */
  function Recorded(start: Dword, polls: seq<Poll>): (r: seq<Dword>)
    ensures |r| <= |polls|
  {
    if polls == [] then []
    else Recorded(start, polls[..|polls| - 1]) + (if Changed(start, polls, |polls| - 1) then [polls[|polls| - 1].next] else [])
  }

  /** The passes that saw a change. */
  ghost function ChangePositions(start: Dword, polls: seq<Poll>): set<nat> {
    set i: nat | i < |polls| && Changed(start, polls, i)
  }

  lemma ChangedInPrefix(start: Dword, polls: seq<Poll>, n: nat, i: nat)
    requires i < n <= |polls|
    ensures Changed(start, polls[..n], i) == Changed(start, polls, i)
  {
  }

  /** One more pass adds its own position to the change positions exactly when it saw a change. */
  lemma ChangePositionsSnoc(start: Dword, polls: seq<Poll>)
    requires polls != []
    ensures var n := |polls| - 1;
      ChangePositions(start, polls) ==
        ChangePositions(start, polls[..n]) + (if Changed(start, polls, n) then {n} else {})
    ensures |polls| - 1 !in ChangePositions(start, polls[..|polls| - 1])
  {
    var n := |polls| - 1;
    forall i | 0 <= i < n
      ensures Changed(start, polls[..n], i) == Changed(start, polls, i)
    {
      ChangedInPrefix(start, polls, n, i);
    }
  }

  /** `count` counts exactly the passes at which the counter differed from the previous sample. */
  lemma {:induction false} CountIsChanges(start: Dword, polls: seq<Poll>)
    ensures |Recorded(start, polls)| == |ChangePositions(start, polls)|
  {
    if polls != [] {
      var n := |polls| - 1;
      CountIsChanges(start, polls[..n]);
      ChangePositionsSnoc(start, polls);
      hide ChangePositions;
    }
  }

  /** While the counter never changes nothing is recorded, and the last sample is still the start value. */
  lemma {:induction false} NoChangeKeepsStart(start: Dword, polls: seq<Poll>)
    requires forall i :: 0 <= i < |polls| ==> polls[i].check == start
    ensures Recorded(start, polls) == []
    ensures Prev(start, polls, |polls|) == start
  {
    if polls != [] {
      NoChangeKeepsStart(start, polls[..|polls| - 1]);
    }
  }

  lemma RecordedSnoc(start: Dword, polls: seq<Poll>, i: nat)
    requires i < |polls|
    ensures Recorded(start, polls[..i + 1]) ==
      Recorded(start, polls[..i]) + (if Changed(start, polls, i) then [polls[i].next] else [])
  {
    assert polls[..i + 1][..i] == polls[..i];
  }

  /** Recording never shrinks as more passes are made. */
  lemma {:induction false} RecordedGrows(start: Dword, polls: seq<Poll>, i: nat, j: nat)
    requires i <= j <= |polls|
    ensures |Recorded(start, polls[..i])| <= |Recorded(start, polls[..j])|
    decreases j - i
  {
    if i < j {
      RecordedGrows(start, polls, i, j - 1);
      RecordedSnoc(start, polls, j - 1);
    }
  }

  /**
   * The sampling loop ends normally: some pass sees one second go by, and by then fewer than
   * 2000 changes have been stored.
   */
  predicate Completes(start: Dword, polls: seq<Poll>) {
    var e := FirstExpired(start, polls);
    e < |polls| && |Recorded(start, polls[..e + 1])| < TIMES_LENGTH
  }

  /** A pass that stores the 2000th change comes no later than the first expired pass. */
  lemma OverrunIncomplete(start: Dword, polls: seq<Poll>, pass: nat)
    requires pass < |polls| && forall i :: 0 <= i < pass ==> !Expired(start, polls[i].check)
    requires |Recorded(start, polls[..pass + 1])| == TIMES_LENGTH
    ensures !Completes(start, polls)
    ensures |Recorded(start, polls)| >= TIMES_LENGTH
  {
    var e := FirstExpired(start, polls);
    if e < |polls| {
      RecordedGrows(start, polls, pass + 1, e + 1);
    }
    RecordedGrows(start, polls, pass + 1, |polls|);
    assert polls[..|polls|] == polls;
  }

  /** A loop that stops at an expired pass with room left in `times` completes there. */
  lemma FinishedCompletes(start: Dword, polls: seq<Poll>, pass: nat)
    requires 0 < pass <= |polls| && forall i :: 0 <= i < pass - 1 ==> !Expired(start, polls[i].check)
    requires Expired(start, polls[pass - 1].check) && |Recorded(start, polls[..pass])| < TIMES_LENGTH
    ensures Completes(start, polls) && FirstExpired(start, polls) == pass - 1
  {
    FirstExpiredIs(start, polls, pass - 1);
  }

  /** A loop that runs out of passes before a second has gone by does not complete. */
  lemma ExhaustedIncomplete(start: Dword, polls: seq<Poll>)
    requires forall i :: 0 <= i < |polls| ==> !Expired(start, polls[i].check)
    ensures FirstExpired(start, polls) == |polls| && !Completes(start, polls)
  {
    FirstExpiredIs(start, polls, |polls|);
  }

  datatype Sampling =
    | Finished(count: nat, last: Dword)
      /** The polls ran out before a second had passed. */
    | Exhausted
      /** A 2000th change would be stored past the end of `times`. */
    | Overrun

  /**
   * The sampling loop of lines 45-60. Pass `i` reads `polls[i].check`; on a change it counts,
   * stores the next reading at `times[count]` and remembers the sample as `last`; it stops once
   * one second has passed. `n` is the number of passes made.
   */
  method SampleLoop(start: Dword, polls: seq<Poll>) returns (outcome: Sampling, times: array<Dword>, ghost n: nat)
    ensures fresh(times) && times.Length == TIMES_LENGTH
    ensures n <= |polls| && forall i :: 0 <= i < n - 1 ==> !Expired(start, polls[i].check)
    ensures outcome.Finished? ==>
      && 0 < n && Expired(start, polls[n - 1].check)
      && outcome.count == |Recorded(start, polls[..n])| < TIMES_LENGTH
      && times[0] == start && times[1..outcome.count + 1] == Recorded(start, polls[..n])
      && outcome.last == polls[n - 1].check
    ensures outcome.Exhausted? ==>
      n == |polls| && (forall i :: 0 <= i < |polls| ==> !Expired(start, polls[i].check))
      && |Recorded(start, polls)| < TIMES_LENGTH
    ensures outcome.Overrun? ==> 0 < n && |Recorded(start, polls[..n])| == TIMES_LENGTH
    ensures outcome.Finished? <==> Completes(start, polls)
    ensures outcome.Finished? ==> n == FirstExpired(start, polls) + 1
    ensures outcome.Exhausted? <==> FirstExpired(start, polls) == |polls| && |Recorded(start, polls)| < TIMES_LENGTH
  {
    hide Recorded, Completes;
    times := new Dword[TIMES_LENGTH];
    times[0] := start;
    var last := start;
    var count := 0;
    var pass := 0;
    while pass < |polls|
      invariant pass <= |polls|
      invariant forall i :: 0 <= i < pass ==> !Expired(start, polls[i].check)
      invariant count == |Recorded(start, polls[..pass])| < TIMES_LENGTH
      invariant times[0] == start && times[1..count + 1] == Recorded(start, polls[..pass])
      invariant last == Prev(start, polls, pass)
    {
      var current := polls[pass].check;
      RecordedSnoc(start, polls, pass);
      if current != last {
        if count + 1 == TIMES_LENGTH {
          OverrunIncomplete(start, polls, pass);
          return Overrun, times, pass + 1;
        }
        count := count + 1;
        times[count] := polls[pass].next;
        last := current;
      }
      pass := pass + 1;
      if Sub(current, start) >= LOOP_LENGTH {
        FinishedCompletes(start, polls, pass);
        return Finished(count, last), times, pass;
      }
    }
    assert polls[..pass] == polls;
    ExhaustedIncomplete(start, polls);
    return Exhausted, times, pass;
  }

  datatype Report =
    | Incomplete(outcome: Sampling)
      /** The timer resolution differed before and after: nothing is reported. */
    | ResolutionChanged
    | Table(count: nat, rows: seq<(nat, nat)>)

  /**
   * `CountInterrupts`: samples for a second and, when the timer resolution is unchanged, reports
   * the number of changes and the table of nonzero gap buckets, whose counts add up to it.
   */
  method CountInterrupts(resolutionStart: nat, resolutionEnd: nat, start: Dword, polls: seq<Poll>)
    returns (report: Report, ghost n: nat)
    ensures n <= |polls|
    ensures report.Table? || report.ResolutionChanged? ==>
      0 < n && Expired(start, polls[n - 1].check) && forall i :: 0 <= i < n - 1 ==> !Expired(start, polls[i].check)
    ensures report.ResolutionChanged? ==> resolutionStart != resolutionEnd
    ensures report.Table? ==>
      && resolutionStart == resolutionEnd
      && report.count == |Recorded(start, polls[..n])|
      && TableOf(report.rows, Histogram(Buckets([start] + Recorded(start, polls[..n]))))
      && RowTotal(report.rows) == report.count
    ensures report.Incomplete? ==> !report.outcome.Finished?
    ensures report.Incomplete? <==> !Completes(start, polls)
    ensures report.Table? <==> Completes(start, polls) && resolutionStart == resolutionEnd
    ensures report.Incomplete? ==>
      (report.outcome.Exhausted? <==> FirstExpired(start, polls) == |polls| && |Recorded(start, polls)| < TIMES_LENGTH)
    ensures !report.Incomplete? ==> n == FirstExpired(start, polls) + 1
  {
    var outcome, times;
    outcome, times, n := SampleLoop(start, polls);
    if !outcome.Finished? {
      return Incomplete(outcome), n;
    }
    if resolutionStart != resolutionEnd {
      return ResolutionChanged, n;
    }
    var count := outcome.count;
    assert times[..count + 1] == [start] + Recorded(start, polls[..n]);
    var counts := Tally(times, count);
    var rows := NonZeroRows(counts);
    return Table(count, rows), n;
  }
}
