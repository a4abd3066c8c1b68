/**
 * What the two timer probes share: `timeGetTime()` readings are 32-bit millisecond counters
 * (`DWORD`) whose differences wrap, and the gaps between consecutive recorded readings are
 * tallied into 50 one-millisecond buckets, the last of which also takes every longer gap.
 */
module TimerHistogram {
  import opened PyText

  /** The range of a `DWORD`. */
  const DWORD_RANGE: nat := 0x1_0000_0000

  type Dword = x: int | 0 <= x < 0x1_0000_0000

  /** `_countof(interval_counts)` */
  const NUM_BUCKETS: nat := 50

  /** Both probes sample for one second. */
  const LOOP_LENGTH: nat := 1000

  /** `DWORD times[2000]` */
  const TIMES_LENGTH: nat := 2000

  /**
   * One pass of a sampling loop: the `timeGetTime()` value it tests, and the value the next
   * `timeGetTime()` call returns, which the pass stores only when it records a sample.
   */
  datatype Poll = Poll(check: Dword, next: Dword)

  /** One second has passed since `start`, counted in wrapping milliseconds. */
  predicate Expired(start: Dword, now: Dword) {
    Sub(now, start) >= LOOP_LENGTH
  }

  /** The first pass at which one second has passed, or `|polls|` when none does. */
  function FirstExpired(start: Dword, polls: seq<Poll>): (e: nat)
    ensures e <= |polls|
    ensures forall i :: 0 <= i < e ==> !Expired(start, polls[i].check)
    ensures e < |polls| ==> Expired(start, polls[e].check)
  {
    if polls == [] then 0
    else if Expired(start, polls[0].check) then 0
    else 1 + FirstExpired(start, polls[1..])
  }

  /** A pass that is expired and comes after only unexpired ones is the first expired pass. */
  lemma FirstExpiredIs(start: Dword, polls: seq<Poll>, p: nat)
    requires p <= |polls| && forall i :: 0 <= i < p ==> !Expired(start, polls[i].check)
    requires p < |polls| ==> Expired(start, polls[p].check)
    ensures FirstExpired(start, polls) == p
  {
  }

  /** Unsigned 32-bit `a - b`. */
  function Sub(a: Dword, b: Dword): (r: Dword)
    ensures a >= b ==> r == a - b
    ensures a < b ==> r == a - b + DWORD_RANGE
  {
    (a - b) % DWORD_RANGE
  }

  /** Unsigned 32-bit `a + b`. */
  function Add(a: Dword, b: Dword): (r: Dword)
    ensures a + b < DWORD_RANGE ==> r == a + b
    ensures a + b >= DWORD_RANGE ==> r == a + b - DWORD_RANGE
  {
    (a + b) % DWORD_RANGE
  }

  /** The wrapped difference is the time that passed: adding it back to `b` gives `a`. */
  lemma SubAddRoundTrip(a: Dword, b: Dword)
    ensures Add(Sub(a, b), b) == a
  {
  }

  /** The wrapped difference is the only value with that property. */
  lemma SubUnique(a: Dword, b: Dword, d: Dword)
    requires Add(d, b) == a
    ensures d == Sub(a, b)
  {
  }

  /** `if (elapsed >= 50) elapsed = 49;` */
  function Bucket(elapsed: Dword): (r: nat)
    ensures r < NUM_BUCKETS
    ensures elapsed < NUM_BUCKETS ==> r == elapsed
    ensures elapsed >= NUM_BUCKETS ==> r == NUM_BUCKETS - 1
  {
    if elapsed >= NUM_BUCKETS then NUM_BUCKETS - 1 else elapsed
  }

  /** The bucket of each gap between consecutive readings of `times`. */
  function Buckets(times: seq<Dword>): (r: seq<nat>)
    ensures |r| == if |times| == 0 then 0 else |times| - 1
    ensures forall i :: 0 <= i < |r| ==> r[i] == Bucket(Sub(times[i + 1], times[i]))
    ensures forall i :: 0 <= i < |r| ==> r[i] < NUM_BUCKETS
  {
    if |times| < 2 then [] else Buckets(times[..|times| - 1]) + [Bucket(Sub(times[|times| - 1], times[|times| - 2]))]
  }

  /** Raising one count by one raises the sum by one. */
  lemma {:induction false} SumIncrement(s: seq<nat>, j: nat)
    requires j < |s|
    ensures Sum(s[j := s[j] + 1]) == Sum(s) + 1
  {
    var t := s[j := s[j] + 1];
    if j < |s| - 1 {
      assert t[..|t| - 1] == s[..|s| - 1][j := s[j] + 1];
      SumIncrement(s[..|s| - 1], j);
    } else {
      assert t[..|t| - 1] == s[..|s| - 1];
    }
  }

  /** A sequence of zeros sums to zero. */
  lemma {:induction false} SumZeros(s: seq<nat>)
    requires forall i :: 0 <= i < |s| ==> s[i] == 0
    ensures Sum(s) == 0
  {
    if s != [] {
      SumZeros(s[..|s| - 1]);
    }
  }

  /** The sum of the first `k + 1` counts adds count `k` to the sum of the first `k`. */
  lemma SumPrefixSnoc(s: seq<nat>, k: nat)
    requires k < |s|
    ensures Sum(s[..k + 1]) == Sum(s[..k]) + s[k]
  {
    assert s[..k + 1][..k] == s[..k];
  }

  lemma BucketsSnoc(times: seq<Dword>, i: nat)
    requires i + 1 < |times|
    ensures Buckets(times[..i + 2]) == Buckets(times[..i + 1]) + [Bucket(Sub(times[i + 1], times[i]))]
  {
    assert times[..i + 2][..i + 1] == times[..i + 1];
  }

  /** 50 empty buckets: `int interval_counts[50] = {};` */
  function Zeros(): (r: seq<nat>)
    ensures |r| == NUM_BUCKETS && forall b :: 0 <= b < NUM_BUCKETS ==> r[b] == 0
  {
    seq(NUM_BUCKETS, _ => 0)
  }

  /** The 50 buckets after tallying `buckets` in order, raising bucket `x` by one for each `x`. */
  function Histogram(buckets: seq<nat>): (r: seq<nat>)
    ensures |r| == NUM_BUCKETS
  {
    if buckets == [] then Zeros()
    else
      var h, x := Histogram(buckets[..|buckets| - 1]), buckets[|buckets| - 1];
      if x < NUM_BUCKETS then h[x := h[x] + 1] else h
  }

  /** Before any gap every bucket is empty. */
  lemma HistogramEmpty()
    ensures Histogram([]) == Zeros()
  {
  }

  /** One more gap raises exactly its own bucket by one. */
  lemma HistogramSnoc(buckets: seq<nat>, x: nat)
    requires x < NUM_BUCKETS
    ensures Histogram(buckets + [x]) == Histogram(buckets)[x := Histogram(buckets)[x] + 1]
  {
    assert (buckets + [x])[..|buckets|] == buckets;
  }

  /** Bucket `b` holds the number of gaps that fall into it. */
  lemma {:induction false} HistogramCounts(buckets: seq<nat>)
    ensures forall b :: 0 <= b < NUM_BUCKETS ==> Histogram(buckets)[b] == multiset(buckets)[b]
  {
    if buckets != [] {
      var init, x := buckets[..|buckets| - 1], buckets[|buckets| - 1];
      assert buckets == init + [x];
      HistogramCounts(init);
      assert multiset(buckets) == multiset(init) + multiset{x};
    }
  }

  /** Every gap lands in exactly one bucket, so the histogram of `n` gaps sums to `n`. */
  lemma {:induction false} HistogramSum(buckets: seq<nat>)
    requires forall i :: 0 <= i < |buckets| ==> buckets[i] < NUM_BUCKETS
    ensures Sum(Histogram(buckets)) == |buckets|
  {
    if buckets == [] {
      SumZeros(Histogram(buckets));
    } else {
      var init, x := buckets[..|buckets| - 1], buckets[|buckets| - 1];
      assert buckets == init + [x];
      HistogramSum(init);
      HistogramSnoc(init, x);
      SumIncrement(Histogram(init), x);
    }
  }

  /** Tallying gap `i` into bucket `b` turns the histogram of the first `i` gaps into that of the first `i + 1`. */
  lemma TallyStep(c: seq<nat>, times: seq<Dword>, i: nat, b: nat)
    requires i + 1 < |times| && c == Histogram(Buckets(times[..i + 1]))
    requires b == Bucket(Sub(times[i + 1], times[i]))
    ensures c[b := c[b] + 1] == Histogram(Buckets(times[..i + 2]))
  {
    BucketsSnoc(times, i);
    HistogramSnoc(Buckets(times[..i + 1]), b);
  }

  /**
   * Lines 66-72 of count_interrupts.cpp (and the `interval_counts` half of lines 100-106 of
   * measure_interval.cpp): tallies the `count` gaps between `times[0..count]` into 50 buckets.
   * Bucket `b` ends up holding how many gaps fall into it, and the buckets sum to `count`.
   */
  method Tally(times: array<Dword>, count: nat) returns (counts: array<nat>)
    requires count < times.Length
    ensures fresh(counts)
    ensures counts[..] == Histogram(Buckets(times[..count + 1]))
    ensures Sum(counts[..]) == count
  {
    counts := new nat[NUM_BUCKETS](_ => 0);
    assert counts[..] == Histogram(Buckets(times[..1])) by {
      assert Buckets(times[..1]) == [];
      assert counts[..] == Zeros();
    }
    for i := 0 to count
      invariant counts.Length == NUM_BUCKETS
      invariant counts[..] == Histogram(Buckets(times[..i + 1]))
    {
      TallyGap(times, i, counts);
    }
    HistogramSum(Buckets(times[..count + 1]));
  }

  /** The loop body: tallies the gap between `times[i]` and `times[i + 1]`. */
  method TallyGap(times: array<Dword>, i: nat, counts: array<nat>)
    requires i + 1 < times.Length && counts.Length == NUM_BUCKETS
    requires counts[..] == Histogram(Buckets(times[..i + 1]))
    modifies counts
    ensures counts[..] == Histogram(Buckets(times[..i + 2]))
  {
    var elapsed := Sub(times[i + 1], times[i]);
    if elapsed >= NUM_BUCKETS {
      elapsed := NUM_BUCKETS - 1;
    }
    ghost var before := counts[..];
    counts[elapsed] := counts[elapsed] + 1;
    assert counts[..] == before[elapsed := before[elapsed] + 1];
    TallyStep(before, times[..], i, elapsed);
  }

  /**
   * The report loop of count_interrupts.cpp lines 74-76: one `(delay, count)` row per nonzero
   * bucket, in ascending order of delay. The printed counts add up to the total.
   */
  method NonZeroRows(counts: array<nat>) returns (rows: seq<(nat, nat)>)
    ensures TableOf(rows, counts[..])
    ensures RowTotal(rows) == Sum(counts[..])
  {
    hide TableUpTo;
    ghost var c := counts[..];
    rows := [];
    TableUpToEmpty(c);
    for i := 0 to counts.Length
      invariant TableUpTo(rows, c, i)
    {
      TableUpToStep(rows, c, i);
      if counts[i] != 0 {
        rows := rows + [(i, counts[i])];
      }
    }
    TableUpToAll(rows, c);
  }

  lemma TableUpToEmpty(counts: seq<nat>)
    ensures TableUpTo([], counts, 0)
  {
    assert counts[..0] == [];
  }

  /** The table of the buckets below `|counts|` is the table of all of them. */
  lemma TableUpToAll(rows: seq<(nat, nat)>, counts: seq<nat>)
    requires TableUpTo(rows, counts, |counts|)
    ensures TableOf(rows, counts) && RowTotal(rows) == Sum(counts)
  {
    assert counts[..|counts|] == counts;
  }

  /** Every row is a nonzero bucket below `i`, with its count. */
  ghost predicate RowsBelow(rows: seq<(nat, nat)>, counts: seq<nat>, i: nat)
    requires i <= |counts|
  {
    forall k :: 0 <= k < |rows| ==> rows[k].0 < i && rows[k].1 == counts[rows[k].0] != 0
  }

  /** The rows are in strictly ascending order of bucket. */
  ghost predicate Ascending(rows: seq<(nat, nat)>) {
    forall k, l :: 0 <= k < l < |rows| ==> rows[k].0 < rows[l].0
  }

  /** Every nonzero bucket below `i` has a row. */
  ghost predicate Covers(rows: seq<(nat, nat)>, counts: seq<nat>, i: nat)
    requires i <= |counts|
  {
    forall b :: 0 <= b < i && counts[b] != 0 ==> exists k :: 0 <= k < |rows| && rows[k].0 == b
  }

  /** `rows` is the table of the buckets below `i`, and its counts add up to theirs. */
  ghost predicate TableUpTo(rows: seq<(nat, nat)>, counts: seq<nat>, i: nat)
    requires i <= |counts|
  {
    RowsBelow(rows, counts, i) && Ascending(rows) && Covers(rows, counts, i) && RowTotal(rows) == Sum(counts[..i])
  }

  /** Bucket `i` adds a row exactly when it is nonzero. */
  lemma TableUpToStep(rows: seq<(nat, nat)>, counts: seq<nat>, i: nat)
    requires i < |counts| && TableUpTo(rows, counts, i)
    ensures TableUpTo(if counts[i] != 0 then rows + [(i, counts[i])] else rows, counts, i + 1)
  {
    SumPrefixSnoc(counts, i);
    CoversStep(rows, counts, i);
    if counts[i] != 0 {
      RowsBelowStep(rows, counts, i);
      AscendingStep(rows, counts, i);
      RowTotalSnoc(rows, (i, counts[i]));
    } else {
      RowsBelowWiden(rows, counts, i);
    }
  }

  lemma RowsBelowWiden(rows: seq<(nat, nat)>, counts: seq<nat>, i: nat)
    requires i < |counts| && RowsBelow(rows, counts, i)
    ensures RowsBelow(rows, counts, i + 1)
  {
  }

  lemma RowsBelowStep(rows: seq<(nat, nat)>, counts: seq<nat>, i: nat)
    requires i < |counts| && counts[i] != 0 && RowsBelow(rows, counts, i)
    ensures RowsBelow(rows + [(i, counts[i])], counts, i + 1)
  {
    var rows' := rows + [(i, counts[i])];
    forall k | 0 <= k < |rows'|
      ensures rows'[k].0 < i + 1 && rows'[k].1 == counts[rows'[k].0] != 0
    {
      if k < |rows| {
        assert rows'[k] == rows[k];
      }
    }
  }

  lemma AscendingStep(rows: seq<(nat, nat)>, counts: seq<nat>, i: nat)
    requires i < |counts| && RowsBelow(rows, counts, i) && Ascending(rows)
    ensures Ascending(rows + [(i, counts[i])])
  {
    var rows' := rows + [(i, counts[i])];
    forall k, l | 0 <= k < l < |rows'|
      ensures rows'[k].0 < rows'[l].0
    {
      assert rows'[k] == rows[k];
      if l < |rows| {
        assert rows'[l] == rows[l];
      }
    }
  }

  lemma CoversStep(rows: seq<(nat, nat)>, counts: seq<nat>, i: nat)
    requires i < |counts| && Covers(rows, counts, i)
    ensures Covers(if counts[i] != 0 then rows + [(i, counts[i])] else rows, counts, i + 1)
  {
    var rows' := if counts[i] != 0 then rows + [(i, counts[i])] else rows;
    forall b | 0 <= b < i + 1 && counts[b] != 0
      ensures exists k :: 0 <= k < |rows'| && rows'[k].0 == b
    {
      if b == i {
        assert rows'[|rows|].0 == b;
      } else {
        var k :| 0 <= k < |rows| && rows[k].0 == b;
        assert rows'[k].0 == b;
      }
    }
  }

  lemma RowTotalSnoc(rows: seq<(nat, nat)>, row: (nat, nat))
    ensures RowTotal(rows + [row]) == RowTotal(rows) + row.1
  {
    assert (rows + [row])[..|rows|] == rows;
  }

  /** `rows` lists, in ascending order of bucket, every nonzero bucket of `counts` with its count. */
  ghost predicate TableOf(rows: seq<(nat, nat)>, counts: seq<nat>) {
    RowsBelow(rows, counts, |counts|) && Ascending(rows) && Covers(rows, counts, |counts|)
  }

  /** The sum of the counts printed in a table. */
  function RowTotal(rows: seq<(nat, nat)>): nat {
    if rows == [] then 0 else RowTotal(rows[..|rows| - 1]) + rows[|rows| - 1].1
  }
}
