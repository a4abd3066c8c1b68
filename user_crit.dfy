/**
 * The UserCrit event summariser: reads the exported CSV of ExclusiveUserCrit,
 * SharedUserCrit and ReleaseUserCrit events, groups the QPC counts by process
 * (without its PID) and by report label, and totals them per label. Counts stay
 * in QPC ticks; the division by the assumed 10 MHz frequency is not modelled.
 */
module UserCrit {
  import opened PyText

  const WAIT_LABEL: string := "Wait time"
  const HELD_LABEL: string := "Held time"

  /** `event_remap[event]`: the report label of an event name; `None` where Python raises KeyError. */
  function Remap(event: string): (r: Option<string>)
    ensures r.Some? <==> event in {"ExclusiveUserCrit", "SharedUserCrit", "ReleaseUserCrit"}
    ensures r.Some? ==> (r.value == HELD_LABEL <==> event == "ReleaseUserCrit")
    ensures r.Some? ==> r.value in {WAIT_LABEL, HELD_LABEL}
  {
    if event == "ExclusiveUserCrit" || event == "SharedUserCrit" then Some(WAIT_LABEL)
    else if event == "ReleaseUserCrit" then Some(HELD_LABEL)
    else None
  }

  /** `process_name.lower() in interesting_processes` */
  predicate Interesting(name: string) {
    Lower(name) in ["conhost.exe", "processcreatetests.exe", "unknown"]
  }

  /** One event row: report label (the event field after remapping), process name without PID, and QPC count. */
  datatype Row = Row(event: string, process: string, count: int)

  /**
   * One CSV line: exactly three comma-separated fields after stripping (else the unpacking
   * raises ValueError), a known event (else KeyError), a process field with a word in it
   * (else IndexError) and an integer count (else ValueError), checked in that order.
   */
  function ParseRow(line: string): (r: Result<Row>)
    ensures |Split(Strip(line), ",")| != 3 ==> r == Raise(ValueError)
    ensures r.Ok? ==>
      && |Split(Strip(line), ",")| == 3
      && Remap(Split(Strip(line), ",")[0]) == Some(r.value.event)
      && FirstWord(Split(Strip(line), ",")[1]) == Some(r.value.process)
      && ParseInt(Split(Strip(line), ",")[2], 10) == Some(r.value.count)
    ensures r.Ok? ==> r.value.event in {WAIT_LABEL, HELD_LABEL} && r.value.process != []
    ensures var f := Split(Strip(line), ",");
      && (r == Raise(KeyError) <==> |f| == 3 && Remap(f[0]).None?)
      && (r == Raise(IndexError) <==> |f| == 3 && Remap(f[0]).Some? && FirstWord(f[1]).None?)
      && (r == Raise(ValueError) <==>
            |f| != 3 || (Remap(f[0]).Some? && FirstWord(f[1]).Some? && ParseInt(f[2], 10).None?))
      && (r.Ok? <==>
            |f| == 3 && Remap(f[0]).Some? && FirstWord(f[1]).Some? && ParseInt(f[2], 10).Some?)
  {
    var fields := Split(Strip(line), ",");
    if |fields| != 3 then Raise(ValueError)
    else
      match Remap(fields[0])
      case None => Raise(KeyError)
      case Some(event) =>
        match FirstWord(fields[1])
        case None => Raise(IndexError)
        case Some(process) =>
          match ParseInt(fields[2], 10)
          case None => Raise(ValueError)
          case Some(count) => Ok(Row(event, process, count))
  }

  /** The values of `results` in order, or the first exception among them. */
  function Collect<T>(results: seq<Result<T>>): (r: Result<seq<T>>)
    ensures r.Ok? ==> |r.value| == |results|
  {
    if results == [] then Ok([])
    else
      match Collect(results[..|results| - 1])
      case Raise(e) => Raise(e)
      case Ok(values) =>
        match Last(results)
        case Raise(e) => Raise(e)
        case Ok(v) => Ok(values + [v])
  }

  /** What each line parses to. */
  function ParsedLines(lines: seq<string>): (r: seq<Result<Row>>)
    ensures |r| == |lines|
  {
    seq(|lines|, k requires 0 <= k < |lines| => ParseRow(lines[k]))
  }

  /** The rows of the data lines in file order, or the exception of the first bad one. */
  function Rows(lines: seq<string>): (r: Result<seq<Row>>)
    ensures r.Ok? ==> |r.value| == |lines|
  {
    Collect(ParsedLines(lines))
  }

  /** When every result is a value, value `k` is result `k`'s. */
  lemma {:induction false} CollectEach<T>(results: seq<Result<T>>, k: nat)
    requires Collect(results).Ok? && k < |results|
    ensures results[k] == Ok(Collect(results).value[k])
  {
    var init := results[..|results| - 1];
    if k < |init| {
      CollectEach(init, k);
      assert results[k] == init[k];
    }
  }

  /** Collecting one more result: an exception replaces the values, a value is appended. */
  lemma CollectSnoc<T>(results: seq<Result<T>>, x: Result<T>)
    requires Collect(results).Ok?
    ensures x.Raise? ==> Collect(results + [x]) == Raise(x.error)
    ensures x.Ok? ==> Collect(results + [x]) == Ok(Collect(results).value + [x.value])
  {
    assert (results + [x])[..|results|] == results;
  }

  /** Once an exception is collected, more results do not change it. */
  lemma {:induction false} CollectErrorPersists<T>(results: seq<Result<T>>, more: seq<Result<T>>)
    requires Collect(results).Raise?
    decreases |more|
    ensures Collect(results + more) == Collect(results)
  {
    if more != [] {
      var init := more[..|more| - 1];
      CollectErrorPersists(results, init);
      assert (results + more)[..|results + more| - 1] == results + init;
    } else {
      assert results + more == results;
    }
  }

  /** Result `k` is line `k`'s. */
  lemma ParsedLinesAt(lines: seq<string>, k: nat)
    requires k < |lines|
    ensures ParsedLines(lines)[k] == ParseRow(lines[k])
  {
  }

  /** The results of the first `j` lines are the first `j` results. */
  lemma ParsedLinesTake(lines: seq<string>, j: nat)
    requires j <= |lines|
    ensures ParsedLines(lines[..j]) == ParsedLines(lines)[..j]
  {
    hide ParseRow, ParsedLines;
    var taken, all := ParsedLines(lines[..j]), ParsedLines(lines);
    forall k | 0 <= k < j
      ensures taken[k] == all[k]
    {
      ParsedLinesAt(lines[..j], k);
      ParsedLinesAt(lines, k);
      assert lines[..j][k] == lines[k];
    }
    assert taken == all[..j];
  }

  lemma ParsedLinesPrefix(lines: seq<string>, i: nat)
    requires i < |lines|
    ensures ParsedLines(lines[..i + 1]) == ParsedLines(lines[..i]) + [ParseRow(lines[i])]
  {
    hide *;
    var all := ParsedLines(lines);
    ParsedLinesTake(lines, i + 1);
    ParsedLinesTake(lines, i);
    ParsedLinesAt(lines, i);
    assert all[..i + 1] == all[..i] + [all[i]];
  }

  /** When every line parses, row `k` is what line `k` parses to. */
  lemma RowsParseEachLine(lines: seq<string>, k: nat)
    requires Rows(lines).Ok? && k < |lines|
    ensures ParseRow(lines[k]) == Ok(Rows(lines).value[k])
  {
    CollectEach(ParsedLines(lines), k);
  }

  /** Every parsed row carries one of the two report labels. */
  lemma RowsLabelled(lines: seq<string>)
    requires Rows(lines).Ok?
    ensures forall k :: 0 <= k < |lines| ==> Rows(lines).value[k].event in {WAIT_LABEL, HELD_LABEL}
  {
    forall k | 0 <= k < |lines|
      ensures Rows(lines).value[k].event in {WAIT_LABEL, HELD_LABEL}
    {
      RowsParseEachLine(lines, k);
    }
  }

  /** The data lines: every line after the heading line. */
  function DataLines(lines: seq<string>): (r: seq<string>)
    ensures |lines| >= 1 ==> r == lines[1..]
    ensures |lines| == 0 ==> r == []
  {
    if |lines| == 0 then [] else lines[1..]
  }

  // ---------------------------------------------------------------------------
  // Reference definitions over the rows

  /** The counts of the rows of process `p` with label `l`, in file order. */
  function CountsOf(rows: seq<Row>, p: string, l: string): (r: seq<int>)
    ensures |r| <= |rows|
  {
    if rows == [] then []
    else CountsOf(rows[..|rows| - 1], p, l)
         + (if Last(rows).process == p && Last(rows).event == l then [Last(rows).count] else [])
  }

  /** The process names that occur in the rows. */
  function Names(rows: seq<Row>): set<string> {
    set k | 0 <= k < |rows| :: rows[k].process
  }

  /** The sum of the counts of the rows labelled `l` whose process is in `names`. */
  function SumWhere(rows: seq<Row>, l: string, names: set<string>): int {
    if rows == [] then 0
    else SumWhere(rows[..|rows| - 1], l, names)
         + (if Last(rows).event == l && Last(rows).process in names then Last(rows).count else 0)
  }

  /** The number of rows labelled `l` whose process is in `names`. */
  function CountWhere(rows: seq<Row>, l: string, names: set<string>): (r: nat)
    ensures r <= |rows|
  {
    if rows == [] then 0
    else CountWhere(rows[..|rows| - 1], l, names)
         + (if Last(rows).event == l && Last(rows).process in names then 1 else 0)
  }

  /** The sum of the counts of all rows labelled `l`. */
  function LabelSum(rows: seq<Row>, l: string): int {
    if rows == [] then 0
    else LabelSum(rows[..|rows| - 1], l) + (if Last(rows).event == l then Last(rows).count else 0)
  }

  /** The number of rows labelled `l`. */
  function LabelCount(rows: seq<Row>, l: string): (r: nat)
    ensures r <= |rows|
  {
    if rows == [] then 0
    else LabelCount(rows[..|rows| - 1], l) + (if Last(rows).event == l then 1 else 0)
  }

  /** `processes[p][l]` holds exactly the counts of the rows of `p` labelled `l`, and nothing else is present. */
  ghost predicate Groups(processes: map<string, map<string, seq<int>>>, rows: seq<Row>) {
    && processes.Keys == Names(rows)
    && (forall p, l :: p in processes && l in processes[p] ==> processes[p][l] == CountsOf(rows, p, l))
    && (forall p, l :: p in processes && l !in processes[p] ==> CountsOf(rows, p, l) == [])
    && (forall p, l :: p in processes && l in processes[p] ==> processes[p][l] != [])
  }

  /** The labels that occur in the rows. */
  function Labels(rows: seq<Row>): set<string> {
    set k | 0 <= k < |rows| :: rows[k].event
  }

  /** The dictionary of dictionaries the rows determine: every process and label that occurs, with its counts. */
  function GroupsOf(rows: seq<Row>): map<string, map<string, seq<int>>> {
    map p | p in Names(rows) :: map l | l in Labels(rows) && CountsOf(rows, p, l) != [] :: CountsOf(rows, p, l)
  }

  // ---------------------------------------------------------------------------
  // Lemmas about the reference definitions

  lemma MoveOne<T>(finished: set<T>, todo: set<T>, all: set<T>, x: T)
    requires finished !! todo && finished + todo == all && x in todo
    ensures (finished + {x}) !! (todo - {x}) && (finished + {x}) + (todo - {x}) == all
  {
  }

  lemma MoveOne'<T>(finished: set<T>, all: set<T>)
    requires finished + {} == all
    ensures finished == all
  {
  }

  lemma RowsSnoc(rows: seq<Row>, row: Row)
    ensures (rows + [row])[..|rows|] == rows && Last(rows + [row]) == row
  {
  }

  lemma NamesSnoc(rows: seq<Row>, row: Row)
    ensures Names(rows + [row]) == Names(rows) + {row.process}
  {
    var all := rows + [row];
    forall p | p in Names(rows)
      ensures p in Names(all)
    {
      var k :| 0 <= k < |rows| && rows[k].process == p;
      assert all[k] == rows[k];
    }
    assert all[|rows|] == row;
  }

  /** The rows of a process not in `names` add nothing to the sums over `names`; adding it adds exactly its counts. */
  lemma {:induction false} SumWhereAddName(rows: seq<Row>, l: string, names: set<string>, p: string)
    requires p !in names
    ensures SumWhere(rows, l, names + {p}) == SumWhere(rows, l, names) + Sum(CountsOf(rows, p, l))
    ensures CountWhere(rows, l, names + {p}) == CountWhere(rows, l, names) + |CountsOf(rows, p, l)|
  {
    if rows != [] {
      var init := rows[..|rows| - 1];
      var row := Last(rows);
      SumWhereAddName(init, l, names, p);
      if row.process == p && row.event == l {
        SumSnoc(CountsOf(init, p, l), row.count);
      } else {
        assert CountsOf(rows, p, l) == CountsOf(init, p, l);
      }
    }
  }

  /** Summing over no process gives nothing. */
  lemma {:induction false} SumWhereNone(rows: seq<Row>, l: string)
    ensures SumWhere(rows, l, {}) == 0 && CountWhere(rows, l, {}) == 0
  {
    if rows != [] {
      SumWhereNone(rows[..|rows| - 1], l);
    }
  }

  /** Summing over a set that covers every process sums over all rows. */
  lemma {:induction false} SumWhereAll(rows: seq<Row>, l: string, names: set<string>)
    requires Names(rows) <= names
    ensures SumWhere(rows, l, names) == LabelSum(rows, l)
    ensures CountWhere(rows, l, names) == LabelCount(rows, l)
  {
    if rows != [] {
      var init := rows[..|rows| - 1];
      SplitLast(rows);
      NamesSnoc(init, Last(rows));
      SumWhereAll(init, l, names);
    }
  }

  /** Every row's label is one of the two report labels, so no other label has a total. */
  lemma {:induction false} OnlyTwoLabels(rows: seq<Row>, l: string)
    requires forall k :: 0 <= k < |rows| ==> rows[k].event in {WAIT_LABEL, HELD_LABEL}
    requires l !in {WAIT_LABEL, HELD_LABEL}
    ensures LabelCount(rows, l) == 0 && LabelSum(rows, l) == 0
  {
    if rows != [] {
      OnlyTwoLabels(rows[..|rows| - 1], l);
    }
  }

  // ---------------------------------------------------------------------------
  // Lexicographic order of names, as Python compares `str`

  /** `a < b` on strings: a proper prefix, or smaller at the first difference. */
  predicate LexLess(a: string, b: string)
    decreases |a|
  {
    b != [] && (a == [] || a[0] < b[0] || (a[0] == b[0] && LexLess(a[1..], b[1..])))
  }

  lemma {:induction false} LexLessIrreflexive(a: string)
    decreases |a|
    ensures !LexLess(a, a)
  {
    if a != [] {
      LexLessIrreflexive(a[1..]);
    }
  }

  lemma {:induction false} LexLessTransitive(a: string, b: string, c: string)
    requires LexLess(a, b) && LexLess(b, c)
    decreases |a|
    ensures LexLess(a, c)
  {
    if a != [] && a[0] == b[0] && b[0] == c[0] {
      LexLessTransitive(a[1..], b[1..], c[1..]);
    }
  }

  lemma {:induction false} LexLessTotal(a: string, b: string)
    requires a != b
    decreases |a|
    ensures LexLess(a, b) || LexLess(b, a)
  {
    if a != [] && b != [] && a[0] == b[0] {
      assert a == [a[0]] + a[1..] && b == [b[0]] + b[1..];
      LexLessTotal(a[1..], b[1..]);
    }
  }

  /** Every non-empty finite set of names has a least element, so sorting is well defined. */
  lemma {:induction false} LeastExists(names: set<string>) returns (least: string)
    requires names != {}
    decreases |names|
    ensures least in names && forall other :: other in names && other != least ==> LexLess(least, other)
  {
    var x :| x in names;
    if names == {x} {
      least := x;
    } else {
      var rest := LeastExists(names - {x});
      if LexLess(x, rest) {
        least := x;
        forall other | other in names && other != x
          ensures LexLess(x, other)
        {
          if other != rest {
            LexLessTransitive(x, rest, other);
          }
        }
      } else {
        LexLessTotal(x, rest);
        least := rest;
      }
    }
  }

  // ---------------------------------------------------------------------------
  // The script

  /** The dictionary after appending one row's count to `processes[process][label]`. */
  function Appended(processes: map<string, map<string, seq<int>>>, row: Row): map<string, map<string, seq<int>>> {
    var processData := if row.process in processes then processes[row.process] else map[];
    var eventData := if row.event in processData then processData[row.event] else [];
    processes[row.process := processData[row.event := eventData + [row.count]]]
  }

  /** Appending a row's count keeps the dictionary grouping exactly the rows seen. */
  lemma GroupsSnoc(processes: map<string, map<string, seq<int>>>, rows: seq<Row>, row: Row)
    requires Groups(processes, rows)
    ensures Groups(Appended(processes, row), rows + [row])
  {
    var rows' := rows + [row];
    var processes' := Appended(processes, row);
    RowsSnoc(rows, row);
    NamesSnoc(rows, row);
    forall p, l | p in processes'
      ensures l in processes'[p] ==> processes'[p][l] == CountsOf(rows', p, l) && processes'[p][l] != []
      ensures l !in processes'[p] ==> CountsOf(rows', p, l) == []
    {
      assert CountsOf(rows', p, l)
        == CountsOf(rows, p, l) + (if p == row.process && l == row.event then [row.count] else []);
      if p !in processes {
        assert p == row.process;
        assert p !in Names(rows);
        NoCountsWithoutName(rows, p, l);
      }
    }
  }

  /** A process that does not occur has no counts. */
  lemma {:induction false} NoCountsWithoutName(rows: seq<Row>, p: string, l: string)
    requires p !in Names(rows)
    ensures CountsOf(rows, p, l) == []
  {
    if rows != [] {
      var init := rows[..|rows| - 1];
      SplitLast(rows);
      NamesSnoc(init, Last(rows));
      NoCountsWithoutName(init, p, l);
    }
  }

  /** A label with counts occurs in the rows. */
  lemma {:induction false} CountsOfLabelled(rows: seq<Row>, p: string, l: string)
    requires CountsOf(rows, p, l) != []
    ensures l in Labels(rows)
  {
    var init := rows[..|rows| - 1];
    if Last(rows).process == p && Last(rows).event == l {
      assert rows[|rows| - 1].event == l;
    } else {
      CountsOfLabelled(init, p, l);
      var k :| 0 <= k < |init| && init[k].event == l;
      assert rows[k] == init[k];
    }
  }

  /** The grouping is unique: the only dictionary that groups the rows is the one they determine. */
  lemma GroupsAreGroupsOf(processes: map<string, map<string, seq<int>>>, rows: seq<Row>)
    requires Groups(processes, rows)
    ensures processes == GroupsOf(rows)
  {
    var g := GroupsOf(rows);
    forall p | p in processes
      ensures processes[p] == g[p]
    {
      forall l | l in processes[p]
        ensures l in Labels(rows)
      {
        CountsOfLabelled(rows, p, l);
      }
      assert processes[p].Keys == g[p].Keys;
    }
  }

  /**
   * The first loop: every data line is parsed and its count appended to
   * `processes[process_name][label]`, creating missing levels on demand.
   */
  method Accumulate(lines: seq<string>) returns (r: Result<map<string, map<string, seq<int>>>>)
    ensures r.Raise? <==> Rows(DataLines(lines)).Raise?
    ensures r.Raise? ==> r.error == Rows(DataLines(lines)).error
    ensures r.Ok? ==> Groups(r.value, Rows(DataLines(lines)).value)
  {
    var data := DataLines(lines);
    var processes: map<string, map<string, seq<int>>> := map[];
    ghost var rows: seq<Row> := [];
    FullPrefix(data);
    var i := 0;
    while i < |data|
      invariant 0 <= i <= |data|
      invariant Rows(data[..i]) == Ok(rows)
      invariant Groups(processes, rows)
    {
      var row := ParseRow(data[i]);
      ParsedLinesPrefix(data, i);
      CollectSnoc(ParsedLines(data[..i]), row);
      if row.Raise? {
        RowsErrorPersists(data, i + 1);
        return Raise(row.error);
      }
      var name := row.value.process;
      var event := row.value.event;
      var processData := if name in processes then processes[name] else map[];
      var eventData := if event in processData then processData[event] else [];
      GroupsSnoc(processes, rows, row.value);
      processes := processes[name := processData[event := eventData + [row.value.count]]];
      rows := rows + [row.value];
      i := i + 1;
    }
    return Ok(processes);
  }

  /** A bad line among the first `k` makes the whole file fail with its exception. */
  lemma RowsErrorPersists(lines: seq<string>, k: nat)
    requires k <= |lines|
    requires Rows(lines[..k]).Raise?
    ensures Rows(lines) == Rows(lines[..k])
  {
    hide ParseRow;
    var head, tail := ParsedLines(lines[..k]), ParsedLines(lines[k..]);
    assert ParsedLines(lines) == head + tail by {
      var all := ParsedLines(lines);
      forall i | 0 <= i < |lines|
        ensures all[i] == (head + tail)[i]
      {
        if i < k {
          assert lines[..k][i] == lines[i];
        } else {
          assert lines[k..][i - k] == lines[i];
        }
      }
    }
    CollectErrorPersists(head, tail);
  }

  /** One line of the per-process report: a process heading, or one label's sum and event count. */
  datatype Detail = Heading(process: string) | Event(process: string, event: string, sum: int, count: nat)

  /** `m.get(k, 0)` */
  function Get(m: map<string, int>, k: string): (r: int)
    ensures k in m ==> r == m[k]
    ensures k !in m ==> r == 0
  {
    if k in m then m[k] else 0
  }

  /** An event line carries the sum and number of the counts of its process and label. */
  ghost predicate EventLine(d: Detail, processes: map<string, map<string, seq<int>>>)
    requires d.Event?
  {
    d.process in processes && d.event in processes[d.process]
    && d.sum == Sum(processes[d.process][d.event]) && d.count == |processes[d.process][d.event]|
  }

  /** The report so far: the lines of the processes in `done`, each heading followed by its labels' lines, in name order. */
  ghost predicate DetailsOf(details: seq<Detail>, processes: map<string, map<string, seq<int>>>, done: set<string>)
    requires done <= processes.Keys
  {
    && LinesOfDone(details, done)
    && EventsUnderHeading(details)
    && EventsCorrect(details, processes)
    && EventsListed(details, processes, done)
    && HeadingsListed(details, done)
    && OrderedByName(details)
    && NoRepeats(details)
  }

  /** Before any process is done there are no detail lines. */
  lemma NoDetails(processes: map<string, map<string, seq<int>>>)
    ensures DetailsOf([], processes, {})
  {
  }

  /** Every line belongs to an interesting process already done. */
  ghost predicate LinesOfDone(details: seq<Detail>, done: set<string>) {
    forall k :: 0 <= k < |details| ==> details[k].process in done && Interesting(details[k].process)
  }

  /** Every label line follows a line of its own process. */
  ghost predicate EventsUnderHeading(details: seq<Detail>) {
    forall k :: 0 <= k < |details| && details[k].Event? ==> k > 0 && details[k - 1].process == details[k].process
  }

  /** Every label line carries the right sum and count. */
  ghost predicate EventsCorrect(details: seq<Detail>, processes: map<string, map<string, seq<int>>>) {
    forall k :: 0 <= k < |details| && details[k].Event? ==> EventLine(details[k], processes)
  }

  /** Every label of every interesting process done has its line. */
  ghost predicate EventsListed(details: seq<Detail>, processes: map<string, map<string, seq<int>>>, done: set<string>)
    requires done <= processes.Keys
  {
    forall q, l :: q in done && Interesting(q) && l in processes[q] ==>
      Event(q, l, Sum(processes[q][l]), |processes[q][l]|) in details
  }

  /** Every interesting process done has its heading. */
  ghost predicate HeadingsListed(details: seq<Detail>, done: set<string>) {
    forall q :: q in done && Interesting(q) ==> Heading(q) in details
  }

  /** Two lines of the report for the same thing: a process's heading twice, or one of its labels twice. */
  predicate SameLine(a: Detail, b: Detail) {
    a.process == b.process && a.Heading? == b.Heading? && (a.Event? && b.Event? ==> a.event == b.event)
  }

  /** No heading and no label line is printed twice. */
  ghost predicate NoRepeats(details: seq<Detail>) {
    forall i, j :: 0 <= i < j < |details| ==> !SameLine(details[i], details[j])
  }

  /** The lines are grouped by process, in ascending name order. */
  ghost predicate OrderedByName(details: seq<Detail>) {
    forall i, j :: 0 <= i < j < |details| ==>
      details[i].process == details[j].process || LexLess(details[i].process, details[j].process)
  }

  /**
   * The second loop: processes in ascending name order, each label's counts summed into
   * `total_sum` and `total_count`, and detail lines for the interesting processes.
   */
  method Totals(processes: map<string, map<string, seq<int>>>, ghost rows: seq<Row>)
    returns (totalSum: map<string, int>, totalCount: map<string, int>, details: seq<Detail>)
    requires Groups(processes, rows)
    ensures forall l :: l in totalCount <==> LabelCount(rows, l) > 0
    ensures totalSum.Keys == totalCount.Keys
    ensures forall l :: l in totalSum ==> totalSum[l] == LabelSum(rows, l) && totalCount[l] == LabelCount(rows, l)
    ensures DetailsOf(details, processes, processes.Keys)
  {
    hide DetailsOf, LexLess, SumWhere, CountWhere, LabelSum, LabelCount;
    totalSum, totalCount, details := map[], map[], [];
    var todo := processes.Keys;
    ghost var done: set<string> := {};
    NoDetails(processes);
    forall l
      ensures SumWhere(rows, l, done) == 0 && CountWhere(rows, l, done) == 0
    {
      SumWhereNone(rows, l);
    }
    while todo != {}
      decreases todo
      invariant todo + done == processes.Keys && todo !! done
      invariant totalSum.Keys == totalCount.Keys
      invariant forall l :: Get(totalSum, l) == SumWhere(rows, l, done) && Get(totalCount, l) == CountWhere(rows, l, done)
      invariant forall l :: l in totalCount ==> totalCount[l] > 0
      invariant DetailsOf(details, processes, done)
      invariant forall q, o :: q in done && o in todo ==> LexLess(q, o)
    {
      var least := LeastExists(todo);
      var name :| name in todo && forall o :: o in todo && o != name ==> LexLess(name, o);
      totalSum, totalCount, details := AddProcess(processes, rows, done, name, totalSum, totalCount, details);
      forall q, o | q in done + {name} && o in todo - {name}
        ensures LexLess(q, o)
      {
        if q != name {
          LexLessTransitive(q, name, o);
        }
      }
      done := done + {name};
      todo := todo - {name};
    }
    assert done == processes.Keys;
    forall l
      ensures Get(totalSum, l) == LabelSum(rows, l) && Get(totalCount, l) == LabelCount(rows, l)
    {
      SumWhereAll(rows, l, done);
    }
  }

  /** `sum(data)`, as the innermost loop adds it up. */
  method SumOf(data: seq<int>) returns (sum: int)
    ensures sum == Sum(data)
  {
    sum := 0;
    for j := 0 to |data|
      invariant sum == Sum(data[..j])
    {
      PrefixSnoc(data, j);
      SumSnoc(data[..j], data[j]);
      sum := sum + data[j];
    }
    FullPrefix(data);
  }

  /** The lines printed for one interesting process: its heading, then one line per label in `printed`. */
  ghost predicate ProcessLines(lines: seq<Detail>, name: string, process: map<string, seq<int>>, printed: set<string>) {
    && |lines| >= 1 && lines[0] == Heading(name)
    && (forall k :: 1 <= k < |lines| ==>
          && lines[k].Event? && lines[k].process == name && lines[k].event in printed && lines[k].event in process
          && lines[k].sum == Sum(process[lines[k].event]) && lines[k].count == |process[lines[k].event]|)
    && (forall l :: l in printed && l in process ==> Event(name, l, Sum(process[l]), |process[l]|) in lines)
    && (forall i, j :: 1 <= i < j < |lines| ==> lines[i].event != lines[j].event)
  }

  lemma ProcessLinesSnoc(lines: seq<Detail>, name: string, process: map<string, seq<int>>, printed: set<string>,
                         event: string)
    requires ProcessLines(lines, name, process, printed) && event in process && event !in printed
    ensures ProcessLines(lines + [Event(name, event, Sum(process[event]), |process[event]|)], name, process, printed + {event})
  {
    var e := Event(name, event, Sum(process[event]), |process[event]|);
    var all := lines + [e];
    forall l | l in printed + {event} && l in process
      ensures Event(name, l, Sum(process[l]), |process[l]|) in all
    {
      if l in printed && l != event {
        var k :| 0 <= k < |lines| && lines[k] == Event(name, l, Sum(process[l]), |process[l]|);
        assert all[k] == lines[k];
      } else {
        assert all[|lines|] == e;
      }
    }
    forall k | 1 <= k < |all|
      ensures all[k].Event? && all[k].process == name && all[k].event in printed + {event} && all[k].event in process
      ensures all[k].sum == Sum(process[all[k].event]) && all[k].count == |process[all[k].event]|
    {
      if k < |lines| {
        assert all[k] == lines[k];
      }
    }
  }

  /** Appending one process's lines after the lines of smaller names keeps the report well formed. */
  lemma DetailsAppend(details: seq<Detail>, processes: map<string, map<string, seq<int>>>, done: set<string>,
                      name: string, lines: seq<Detail>)
    requires done <= processes.Keys && name in processes && name !in done
    requires DetailsOf(details, processes, done)
    requires forall q :: q in done ==> LexLess(q, name)
    requires Interesting(name) ==> ProcessLines(lines, name, processes[name], processes[name].Keys)
    requires !Interesting(name) ==> lines == []
    ensures DetailsOf(details + lines, processes, done + {name})
  {
    assert forall k :: 0 <= k < |lines| ==> lines[k].process == name && Interesting(name);
    assert EventsCorrect(lines, processes) by {
      if Interesting(name) {
        forall k | 0 <= k < |lines| && lines[k].Event?
          ensures EventLine(lines[k], processes)
        {
          assert k != 0;
        }
      }
    }
    AppendLinesOfDone(details, done, name, lines);
    AppendEventsUnderHeading(details, name, lines);
    AppendEventsCorrect(details, processes, lines);
    AppendListed(details, processes, done, name, lines);
    AppendOrdered(details, done, name, lines);
    AppendNoRepeats(details, done, name, lines);
  }

  lemma AppendLinesOfDone(details: seq<Detail>, done: set<string>, name: string, lines: seq<Detail>)
    requires LinesOfDone(details, done)
    requires forall k :: 0 <= k < |lines| ==> lines[k].process == name && Interesting(name)
    ensures LinesOfDone(details + lines, done + {name})
  {
    var all := details + lines;
    forall k | 0 <= k < |all|
      ensures all[k].process in done + {name} && Interesting(all[k].process)
    {
      if k >= |details| {
        assert all[k] == lines[k - |details|];
      }
    }
  }

  lemma AppendEventsUnderHeading(details: seq<Detail>, name: string, lines: seq<Detail>)
    requires EventsUnderHeading(details)
    requires lines != [] ==> lines[0] == Heading(name)
    requires forall k :: 0 <= k < |lines| ==> lines[k].process == name
    ensures EventsUnderHeading(details + lines)
  {
    var all := details + lines;
    forall k | 0 <= k < |all| && all[k].Event?
      ensures k > 0 && all[k - 1].process == all[k].process
    {
      if k < |details| {
        assert all[k] == details[k] && all[k - 1] == details[k - 1];
      } else {
        assert all[k] == lines[k - |details|];
        assert k != |details|;
        assert all[k - 1] == lines[k - 1 - |details|];
      }
    }
  }

  lemma AppendEventsCorrect(details: seq<Detail>, processes: map<string, map<string, seq<int>>>, lines: seq<Detail>)
    requires EventsCorrect(details, processes) && EventsCorrect(lines, processes)
    ensures EventsCorrect(details + lines, processes)
  {
    var all := details + lines;
    forall k | 0 <= k < |all| && all[k].Event?
      ensures EventLine(all[k], processes)
    {
      if k < |details| {
        assert all[k] == details[k];
      } else {
        assert all[k] == lines[k - |details|];
      }
    }
  }

  lemma AppendListed(details: seq<Detail>, processes: map<string, map<string, seq<int>>>, done: set<string>,
                     name: string, lines: seq<Detail>)
    requires done <= processes.Keys && name in processes
    requires EventsListed(details, processes, done) && HeadingsListed(details, done)
    requires Interesting(name) ==> ProcessLines(lines, name, processes[name], processes[name].Keys)
    ensures EventsListed(details + lines, processes, done + {name})
    ensures HeadingsListed(details + lines, done + {name})
  {
    var all := details + lines;
    forall q, l | q in done + {name} && Interesting(q) && l in processes[q]
      ensures Event(q, l, Sum(processes[q][l]), |processes[q][l]|) in all
    {
      var e := Event(q, l, Sum(processes[q][l]), |processes[q][l]|);
      if q in done {
        var k :| 0 <= k < |details| && details[k] == e;
        assert all[k] == e;
      } else {
        var k :| 0 <= k < |lines| && lines[k] == e;
        assert all[|details| + k] == e;
      }
    }
    forall q | q in done + {name} && Interesting(q)
      ensures Heading(q) in all
    {
      if q in done {
        var k :| 0 <= k < |details| && details[k] == Heading(q);
        assert all[k] == Heading(q);
      } else {
        assert all[|details|] == Heading(q);
      }
    }
  }

  lemma AppendOrdered(details: seq<Detail>, done: set<string>, name: string, lines: seq<Detail>)
    requires OrderedByName(details) && LinesOfDone(details, done)
    requires forall q :: q in done ==> LexLess(q, name)
    requires forall k :: 0 <= k < |lines| ==> lines[k].process == name
    ensures OrderedByName(details + lines)
  {
    var all := details + lines;
    forall i, j | 0 <= i < j < |all|
      ensures all[i].process == all[j].process || LexLess(all[i].process, all[j].process)
    {
      if j < |details| {
        assert all[i] == details[i] && all[j] == details[j];
      } else if i < |details| {
        assert all[i] == details[i] && all[j] == lines[j - |details|];
      } else {
        assert all[i] == lines[i - |details|] && all[j] == lines[j - |details|];
      }
    }
  }

  lemma AppendNoRepeats(details: seq<Detail>, done: set<string>, name: string, lines: seq<Detail>)
    requires NoRepeats(details) && LinesOfDone(details, done) && name !in done
    requires forall k :: 0 <= k < |lines| ==> lines[k].process == name
    requires lines != [] ==> lines[0].Heading?
    requires forall k :: 1 <= k < |lines| ==> lines[k].Event?
    requires forall i, j :: 1 <= i < j < |lines| ==> lines[i].event != lines[j].event
    ensures NoRepeats(details + lines)
  {
    var all := details + lines;
    forall i, j | 0 <= i < j < |all|
      ensures !SameLine(all[i], all[j])
    {
      if j < |details| {
        assert all[i] == details[i] && all[j] == details[j];
      } else if i < |details| {
        assert all[i] == details[i] && all[j] == lines[j - |details|];
      } else {
        assert all[i] == lines[i - |details|] && all[j] == lines[j - |details|];
      }
    }
  }

  /**
   * The running totals part-way through a process: the labels in `finished` already include
   * its counts (they are the totals over `after`), the others do not yet (over `before`).
   */
  ghost predicate PartialTotals(totalSum: map<string, int>, totalCount: map<string, int>, rows: seq<Row>,
                                before: set<string>, after: set<string>, finished: set<string>) {
    && totalSum.Keys == totalCount.Keys
    && (forall l :: l in finished ==> Get(totalSum, l) == SumWhere(rows, l, after))
    && (forall l :: l !in finished ==> Get(totalSum, l) == SumWhere(rows, l, before))
    && (forall l :: l in finished ==> Get(totalCount, l) == CountWhere(rows, l, after))
    && (forall l :: l !in finished ==> Get(totalCount, l) == CountWhere(rows, l, before))
    && (forall l :: l in totalCount ==> totalCount[l] > 0)
  }

  /** Adding one label's sum and count of the process to the totals. */
  lemma AddEventTotals(data: seq<int>, totalSum: map<string, int>, totalCount: map<string, int>, rows: seq<Row>,
                       before: set<string>, after: set<string>, finished: set<string>, event: string)
    requires Sum(data) == SumWhere(rows, event, after) - SumWhere(rows, event, before)
    requires |data| == CountWhere(rows, event, after) - CountWhere(rows, event, before) && data != []
    requires event !in finished
    requires PartialTotals(totalSum, totalCount, rows, before, after, finished)
    ensures PartialTotals(totalSum[event := Get(totalSum, event) + Sum(data)],
                          totalCount[event := Get(totalCount, event) + |data|],
                          rows, before, after, finished + {event})
  {
    var sums := totalSum[event := Get(totalSum, event) + Sum(data)];
    var counts := totalCount[event := Get(totalCount, event) + |data|];
    var finished' := finished + {event};
    forall l | l in finished'
      ensures Get(sums, l) == SumWhere(rows, l, after) && Get(counts, l) == CountWhere(rows, l, after)
    {
      if l != event {
        assert Get(sums, l) == Get(totalSum, l) && Get(counts, l) == Get(totalCount, l);
      }
    }
    forall l | l !in finished'
      ensures Get(sums, l) == SumWhere(rows, l, before) && Get(counts, l) == CountWhere(rows, l, before)
    {
      assert Get(sums, l) == Get(totalSum, l) && Get(counts, l) == Get(totalCount, l);
    }
    forall l | l in counts
      ensures counts[l] > 0
    {
      if l != event {
        assert l in totalCount;
      }
    }
  }

  /** The body of the second loop for one process `name`, greater than every process already done. */
  method AddProcess(processes: map<string, map<string, seq<int>>>, ghost rows: seq<Row>, ghost done: set<string>,
                    name: string, totalSum: map<string, int>, totalCount: map<string, int>, details: seq<Detail>)
    returns (totalSum': map<string, int>, totalCount': map<string, int>, details': seq<Detail>)
    requires Groups(processes, rows)
    requires done <= processes.Keys && name in processes && name !in done
    requires totalSum.Keys == totalCount.Keys
    requires forall l :: Get(totalSum, l) == SumWhere(rows, l, done) && Get(totalCount, l) == CountWhere(rows, l, done)
    requires forall l :: l in totalCount ==> totalCount[l] > 0
    requires DetailsOf(details, processes, done)
    requires forall q :: q in done ==> LexLess(q, name)
    ensures totalSum'.Keys == totalCount'.Keys
    ensures forall l :: Get(totalSum', l) == SumWhere(rows, l, done + {name})
                     && Get(totalCount', l) == CountWhere(rows, l, done + {name})
    ensures forall l :: l in totalCount' ==> totalCount'[l] > 0
    ensures DetailsOf(details', processes, done + {name})
  {
    var process := processes[name];
    var printDetails := Interesting(name);
    ghost var after := done + {name};
    var lines: seq<Detail> := [];
    if printDetails {
      lines := [Heading(name)];
    }
    assert PartialTotals(totalSum, totalCount, rows, done, after, {});
    forall l | l in process
      ensures Sum(process[l]) == SumWhere(rows, l, after) - SumWhere(rows, l, done)
      ensures |process[l]| == CountWhere(rows, l, after) - CountWhere(rows, l, done) && process[l] != []
    {
      SumWhereAddName(rows, l, done, name);
    }
    totalSum', totalCount', lines := AddEvents(process, rows, done, after, name, printDetails, totalSum, totalCount, lines);
    forall l
      ensures Get(totalSum', l) == SumWhere(rows, l, after)
      ensures Get(totalCount', l) == CountWhere(rows, l, after)
    {
      if l !in process {
        SumWhereAddName(rows, l, done, name);
      }
    }
    DetailsAppend(details, processes, done, name, lines);
    details' := details + lines;
  }

  /** The label loop for one process: each label's counts summed into the totals, and printed when asked. */
  method AddEvents(process: map<string, seq<int>>, ghost rows: seq<Row>, ghost before: set<string>,
                   ghost after: set<string>, name: string, printDetails: bool,
                   totalSum: map<string, int>, totalCount: map<string, int>, lines: seq<Detail>)
    returns (totalSum': map<string, int>, totalCount': map<string, int>, lines': seq<Detail>)
    requires forall l :: l in process ==>
      && Sum(process[l]) == SumWhere(rows, l, after) - SumWhere(rows, l, before)
      && |process[l]| == CountWhere(rows, l, after) - CountWhere(rows, l, before) && process[l] != []
    requires PartialTotals(totalSum, totalCount, rows, before, after, {})
    requires printDetails ==> ProcessLines(lines, name, process, {})
    requires !printDetails ==> lines == []
    ensures PartialTotals(totalSum', totalCount', rows, before, after, process.Keys)
    ensures printDetails ==> ProcessLines(lines', name, process, process.Keys)
    ensures !printDetails ==> lines' == []
  {
    totalSum', totalCount', lines' := totalSum, totalCount, lines;
    ghost var finished: set<string> := {};
    var events := process.Keys;
    while events != {}
      decreases events
      invariant finished !! events && finished + events == process.Keys
      invariant PartialTotals(totalSum', totalCount', rows, before, after, finished)
      invariant printDetails ==> ProcessLines(lines', name, process, finished)
      invariant !printDetails ==> lines' == []
    {
      var event :| event in events;
      var eventData := process[event];
      var sum := SumOf(eventData);
      AddEventTotals(eventData, totalSum', totalCount', rows, before, after, finished, event);
      totalSum' := totalSum'[event := Get(totalSum', event) + sum];
      totalCount' := totalCount'[event := Get(totalCount', event) + |eventData|];
      if printDetails {
        ProcessLinesSnoc(lines', name, process, finished, event);
        lines' := lines' + [Event(name, event, sum, |eventData|)];
      }
      MoveOne(finished, events, process.Keys, event);
      events := events - {event};
      finished := finished + {event};
    }
    MoveOne'(finished, process.Keys);
  }

  /** The report: per-process detail lines in name order, and per-label totals (their print order is unspecified). */
  datatype Summary = Summary(details: seq<Detail>, totalSum: map<string, int>, totalCount: map<string, int>)

  /** The whole script over the lines of the CSV file. */
  method Summarize(lines: seq<string>) returns (r: Result<Summary>)
    ensures r.Raise? <==> Rows(DataLines(lines)).Raise?
    ensures r.Raise? ==> r.error == Rows(DataLines(lines)).error
    ensures r.Ok? ==>
      var rows := Rows(DataLines(lines)).value;
      DetailsOf(r.value.details, GroupsOf(rows), GroupsOf(rows).Keys)
    ensures r.Ok? ==>
      var rows := Rows(DataLines(lines)).value;
      && (forall l :: l in r.value.totalCount <==> LabelCount(rows, l) > 0)
      && r.value.totalSum.Keys == r.value.totalCount.Keys <= {WAIT_LABEL, HELD_LABEL}
      && (forall l :: l in r.value.totalSum ==>
            r.value.totalSum[l] == LabelSum(rows, l) && r.value.totalCount[l] == LabelCount(rows, l))
      && (forall k :: 0 <= k < |r.value.details| ==> Interesting(r.value.details[k].process))
  {
    var processes := Accumulate(lines);
    if processes.Raise? {
      return Raise(processes.error);
    }
    ghost var rows := Rows(DataLines(lines)).value;
    RowsLabelled(DataLines(lines));
    var totalSum, totalCount, details := Totals(processes.value, rows);
    GroupsAreGroupsOf(processes.value, rows);
    forall l | l in totalCount
      ensures l in {WAIT_LABEL, HELD_LABEL}
    {
      if l !in {WAIT_LABEL, HELD_LABEL} {
        OnlyTwoLabels(rows, l);
      }
    }
    return Ok(Summary(details, totalSum, totalCount));
  }
}
