/**
 * The build-log side of the Chromium build analysis script: `ReadTargets` over the
 * lines of a `.ninja_log` file, the durations table built from its result, the
 * `ninja -t deps` listing state machine and the field extraction from a
 * `clang-cl.exe` command line. Times stay in integer milliseconds.
 */
module NinjaLog {
  import opened PyText

  const HEADER: string := "# ninja log v5\n"

  /** One build step: start and end in milliseconds, and the names of the outputs it built. */
  datatype Target = Target(start: int, end: int, targets: seq<string>)
  {
    /** The step's duration in milliseconds. */
    function Duration(): (r: int)
      ensures start + r == end
    {
      end - start
    }
  }

  /** A log line with exactly five tab-separated fields, the restat field dropped. */
  datatype Record = Record(start: int, end: int, name: string, cmdhash: string)

  /** What one log line contributes: nothing, a record, or a ValueError from `int()`. */
  datatype LineParse = Skip | BadInt | Rec(record: Record)

  /** `ReadTargets`'s local state: the dictionary of targets by command hash and `last_end_seen`. */
  datatype Collected = Collected(targets: map<string, Target>, lastEnd: int)

  const EMPTY: Collected := Collected(map[], 0)

  /** The fields of one log line: skipped unless `line.strip().split('\t')` has exactly five fields. */
  function ParseLine(line: string): (r: LineParse)
    ensures |Split(Strip(line), "\t")| != 5 <==> r.Skip?
    ensures r.Rec? ==>
      && r.record.name == Split(Strip(line), "\t")[3]
      && r.record.cmdhash == Split(Strip(line), "\t")[4]
      && ParseInt(Split(Strip(line), "\t")[0], 10) == Some(r.record.start)
      && ParseInt(Split(Strip(line), "\t")[1], 10) == Some(r.record.end)
    ensures r.BadInt? <==> r != Skip && (ParseInt(Split(Strip(line), "\t")[0], 10).None?
                                        || ParseInt(Split(Strip(line), "\t")[1], 10).None?)
  {
    var parts := Split(Strip(line), "\t");
    if |parts| != 5 then Skip
    else
      match (ParseInt(parts[0], 10), ParseInt(parts[1], 10))
      case (Some(start), Some(end)) => Rec(Record(start, end, parts[3], parts[4]))
      case _ => BadInt
  }

  /** The records of the log's body lines in file order, or the ValueError of the first bad one. */
  function Parse(lines: seq<string>): (r: Result<seq<Record>>)
    ensures r.Ok? ==> |r.value| <= |lines|
    ensures r.Raise? ==> r.error == ValueError
  {
    if lines == [] then Ok([]) else Extend(Parse(lines[..|lines| - 1]), Last(lines))
  }

  /** The records so far, followed by what one more line contributes. */
  function Extend(sofar: Result<seq<Record>>, line: string): (r: Result<seq<Record>>)
    ensures sofar.Raise? ==> r == sofar
    ensures sofar.Ok? && r.Ok? ==> |r.value| <= |sofar.value| + 1
  {
    match sofar
    case Raise(e) => Raise(e)
    case Ok(recs) =>
      match ParseLine(line)
      case Skip => Ok(recs)
      case BadInt => Raise(ValueError)
      case Rec(rec) => Ok(recs + [rec])
  }

  lemma SliceSnoc<T>(s: seq<T>, a: nat, b: nat)
    requires a <= b < |s|
    ensures s[a..b + 1] == s[a..b] + [s[b]]
  {
  }

  lemma Reassociate<T>(a: seq<T>, b: seq<T>, x: T)
    ensures a + (b + [x]) == (a + b) + [x]
  {
  }

  lemma CollectSnoc(recs: seq<Record>, rec: Record, showAll: bool)
    ensures Collect(recs + [rec], showAll) == Absorb(Collect(recs, showAll), rec, showAll)
  {
    assert (recs + [rec])[..|recs|] == recs;
  }

  lemma ParseSnoc(lines: seq<string>, line: string)
    ensures Parse(lines + [line]) == Extend(Parse(lines), line)
  {
    assert (lines + [line])[..|lines|] == lines;
  }

  /** Parsing one more line of `lines`, after the first `i` parsed to `recs`. */
  lemma ParseStep(lines: seq<string>, i: nat, recs: seq<Record>)
    requires i < |lines| && Parse(lines[..i]) == Ok(recs)
    ensures ParseLine(lines[i]).Skip? ==> Parse(lines[..i + 1]) == Ok(recs)
    ensures ParseLine(lines[i]).BadInt? ==> Parse(lines[..i + 1]).Raise?
    ensures ParseLine(lines[i]).Rec? ==> Parse(lines[..i + 1]) == Ok(recs + [ParseLine(lines[i]).record])
  {
    PrefixSnoc(lines, i);
    ParseSnoc(lines[..i], lines[i]);
  }

  /** One record's effect on the dictionary, with the two "new build" reset rules when `showAll` is false. */
  function Absorb(c: Collected, rec: Record, showAll: bool): (r: Collected)
    ensures r.lastEnd == rec.end
    ensures rec.cmdhash in r.targets
    ensures r.targets[rec.cmdhash].targets != [] && Last(r.targets[rec.cmdhash].targets) == rec.name
    // an end time earlier than the last one seen starts a new build
    ensures !showAll && rec.end < c.lastEnd ==>
      r.targets == map[rec.cmdhash := Target(rec.start, rec.end, [rec.name])]
    // so does a known command whose times changed
    ensures !showAll && rec.cmdhash in c.targets
            && (c.targets[rec.cmdhash].start != rec.start || c.targets[rec.cmdhash].end != rec.end) ==>
      r.targets == map[rec.cmdhash := Target(rec.start, rec.end, [rec.name])]
    // otherwise every other target is kept, and a known command keeps its times and gains the name
    ensures !Resets(c, rec, showAll) ==>
      r.targets.Keys == c.targets.Keys + {rec.cmdhash}
      && (forall h :: h in c.targets && h != rec.cmdhash ==> r.targets[h] == c.targets[h])
      && (rec.cmdhash in c.targets ==>
            r.targets[rec.cmdhash] == c.targets[rec.cmdhash].(targets := c.targets[rec.cmdhash].targets + [rec.name]))
      && (rec.cmdhash !in c.targets ==> r.targets[rec.cmdhash] == Target(rec.start, rec.end, [rec.name]))
  {
    var d0 := if !showAll && rec.end < c.lastEnd then map[] else c.targets;
    var d1 := if rec.cmdhash in d0 && !showAll
                 && (d0[rec.cmdhash].start != rec.start || d0[rec.cmdhash].end != rec.end)
              then map[] else d0;
    var t := if rec.cmdhash in d1 then d1[rec.cmdhash] else Target(rec.start, rec.end, []);
    assert rec.cmdhash !in d1 ==> t.targets + [rec.name] == [rec.name];
    assert d1 == map[] ==>
      d1[rec.cmdhash := t.(targets := t.targets + [rec.name])] == map[rec.cmdhash := Target(rec.start, rec.end, [rec.name])];
    Collected(d1[rec.cmdhash := t.(targets := t.targets + [rec.name])], rec.end)
  }

  /** Whether a record starts a new build (only when `showAll` is false). */
  predicate Resets(c: Collected, rec: Record, showAll: bool) {
    !showAll
    && (rec.end < c.lastEnd
        || (rec.cmdhash in c.targets
            && (c.targets[rec.cmdhash].start != rec.start || c.targets[rec.cmdhash].end != rec.end)))
  }

  /** The state after absorbing the records in order. */
  function Collect(recs: seq<Record>, showAll: bool): (r: Collected)
    ensures recs != [] ==> r.lastEnd == Last(recs).end && Last(recs).cmdhash in r.targets
    ensures recs == [] ==> r == EMPTY
  {
    if recs == [] then EMPTY
    else Absorb(Collect(recs[..|recs| - 1], showAll), Last(recs), showAll)
  }

  /** What `ReadTargets` returns (the dictionary whose values it hands back), or the exception it raises. */
  function TargetsOf(log: seq<string>, showAll: bool): (r: Result<map<string, Target>>)
    ensures (log == [] || log[0] != HEADER) <==> r == Raise(AssertionError)
  {
    if log == [] || log[0] != HEADER then Raise(AssertionError)
    else
      match Parse(log[1..])
      case Raise(e) => Raise(e)
      case Ok(recs) => Ok(Collect(recs, showAll).targets)
  }

  /**
   * `ReadTargets(log, show_all)`: checks the header, then absorbs every well-formed line.
   * The log is its list of lines, each with its line break.
   */
  method ReadTargets(log: seq<string>, showAll: bool) returns (r: Result<map<string, Target>>)
    ensures r == TargetsOf(log, showAll)
  {
    if |log| == 0 || log[0] != HEADER {
      return Raise(AssertionError);
    }
    var body := log[1..];
    var targets: map<string, Target> := map[];
    var lastEnd := 0;
    ghost var recs: seq<Record> := [];
    var i := 0;
    FullPrefix(body);
    while i < |body|
      invariant 0 <= i <= |body|
      invariant Parse(body[..i]) == Ok(recs)
      invariant Collected(targets, lastEnd) == Collect(recs, showAll)
    {
      ParseStep(body, i, recs);
      match ParseLine(body[i]) {
        case Skip =>
        case BadInt =>
          ParseErrorPersists(body, i + 1);
          return Raise(ValueError);
        case Rec(rec) =>
          targets, lastEnd := AddRecord(targets, lastEnd, rec.start, rec.end, rec.name, rec.cmdhash, showAll);
          CollectSnoc(recs, rec, showAll);
          recs := recs + [rec];
      }
      i := i + 1;
    }
    return Ok(targets);
  }

  /** The loop body of `ReadTargets` for one well-formed line, after its two fields are converted. */
  method AddRecord(targets: map<string, Target>, lastEnd: int, start: int, end: int, name: string,
                   cmdhash: string, showAll: bool)
    returns (targets': map<string, Target>, lastEnd': int)
    ensures Collected(targets', lastEnd') == Absorb(Collected(targets, lastEnd), Record(start, end, name, cmdhash), showAll)
  {
    targets' := targets;
    if !showAll && end < lastEnd {
      targets' := map[];
    }
    var target: Option<Target> := None;
    if cmdhash in targets' {
      target := Some(targets'[cmdhash]);
      if !showAll && (target.value.start != start || target.value.end != end) {
        targets' := map[];
        target := None;
      }
    }
    if target.None? {
      target := Some(Target(start, end, []));
    }
    lastEnd' := end;
    targets' := targets'[cmdhash := target.value.(targets := target.value.targets + [name])];
  }

  /** Once a line has raised, the longer prefixes raise too. */
  lemma {:induction false} ParseErrorPersists(lines: seq<string>, k: nat)
    requires k <= |lines|
    requires Parse(lines[..k]).Raise?
    decreases |lines| - k
    ensures Parse(lines).Raise?
  {
    if k < |lines| {
      PrefixSnoc(lines, k);
      ParseSnoc(lines[..k], lines[k]);
      ParseErrorPersists(lines, k + 1);
    } else {
      FullPrefix(lines);
    }
  }

  // ---------------------------------------------------------------------------
  // Properties of ReadTargets

  /** A line without exactly five fields changes nothing, wherever it sits, `last_end_seen` included. */
  lemma {:induction false} SkippedLineChangesNothing(before: seq<string>, line: string, after: seq<string>)
    requires ParseLine(line).Skip?
    decreases |after|
    ensures Parse(before + [line] + after) == Parse(before + after)
  {
    if after == [] {
      ParseSnoc(before, line);
      assert before + [line] + after == before + [line];
      assert before + after == before;
    } else {
      var init := after[..|after| - 1];
      var x := Last(after);
      var withLine := before + [line] + init;
      var without := before + init;
      SkippedLineChangesNothing(before, line, init);
      ParseSnoc(withLine, x);
      ParseSnoc(without, x);
      assert Parse(withLine + [x]) == Parse(without + [x]);
      SplitLast(after);
      Reassociate(before + [line], init, x);
      Reassociate(before, init, x);
    }
  }

  /** The names of the records with command hash `h`, in record order. */
  function NamesOf(recs: seq<Record>, h: string): (r: seq<string>)
    ensures |r| <= |recs|
  {
    if recs == [] then []
    else NamesOf(recs[..|recs| - 1], h) + (if Last(recs).cmdhash == h then [Last(recs).name] else [])
  }

  /** The command hashes that occur in the records. */
  function Hashes(recs: seq<Record>): set<string>
  {
    set k | 0 <= k < |recs| :: recs[k].cmdhash
  }

  /** The first record with command hash `h`. */
  function FirstWith(recs: seq<Record>, h: string): (r: Record)
    requires h in Hashes(recs)
    ensures r in recs && r.cmdhash == h
  {
    var init := recs[..|recs| - 1];
    if h in Hashes(init) then FirstWith(init, h) else Last(recs)
  }

  lemma HashesOfSnoc(recs: seq<Record>, rec: Record)
    ensures Hashes(recs + [rec]) == Hashes(recs) + {rec.cmdhash}
  {
    var all := recs + [rec];
    forall h | h in Hashes(recs)
      ensures h in Hashes(all)
    {
      var k :| 0 <= k < |recs| && recs[k].cmdhash == h;
      assert all[k] == recs[k];
    }
    assert all[|recs|] == rec;
  }

  /**
   * With `showAll`, nothing is ever reset: there is one target per command hash seen, it keeps
   * the times of that hash's first record, and it lists every name recorded under it in file order.
   */
  lemma {:induction false} ShowAllKeepsEverything(recs: seq<Record>)
    ensures Collect(recs, true).targets.Keys == Hashes(recs)
    ensures forall h :: h in Collect(recs, true).targets ==>
      Collect(recs, true).targets[h].targets == NamesOf(recs, h)
      && Collect(recs, true).targets[h].start == FirstWith(recs, h).start
      && Collect(recs, true).targets[h].end == FirstWith(recs, h).end
  {
    if recs != [] {
      var init := recs[..|recs| - 1];
      var rec := Last(recs);
      SplitLast(recs);
      ShowAllKeepsEverything(init);
      HashesOfSnoc(init, rec);
      var c := Collect(init, true);
      var r := Collect(recs, true);
      assert r == Absorb(c, rec, true);
      assert !Resets(c, rec, true);
      forall h | h in r.targets
        ensures r.targets[h].targets == NamesOf(recs, h)
        ensures r.targets[h].start == FirstWith(recs, h).start && r.targets[h].end == FirstWith(recs, h).end
      {
        assert NamesOf(recs, h) == NamesOf(init, h) + (if rec.cmdhash == h then [rec.name] else []);
        if h in c.targets {
          assert FirstWith(recs, h) == FirstWith(init, h);
        } else {
          assert h == rec.cmdhash;
          assert NamesOf(init, h) == [] by {
            NoNamesWithoutHash(init, h);
          }
          assert FirstWith(recs, h) == rec;
        }
      }
    }
  }

  /** A hash that does not occur has no names. */
  lemma {:induction false} NoNamesWithoutHash(recs: seq<Record>, h: string)
    requires h !in Hashes(recs)
    ensures NamesOf(recs, h) == []
  {
    if recs != [] {
      var init := recs[..|recs| - 1];
      SplitLast(recs);
      HashesOfSnoc(init, Last(recs));
      NoNamesWithoutHash(init, h);
    }
  }

  /**
   * With `showAll` false, a record whose end precedes the previous record's end starts a new
   * build: from then on only the commands of that record and later ones are listed.
   */
  lemma {:induction false} EarlierEndStartsNewBuild(recs: seq<Record>, k: nat, j: nat)
    requires 0 < k <= j < |recs|
    requires recs[k].end < recs[k - 1].end
    decreases j
    ensures Collect(recs[..j + 1], false).targets.Keys <= Hashes(recs[k..j + 1])
  {
    var pre := recs[..j + 1];
    assert pre[..|pre| - 1] == recs[..j];
    if j == k {
      assert Collect(recs[..j], false).lastEnd == recs[k - 1].end by {
        assert Last(recs[..j]) == recs[k - 1];
      }
      assert recs[k..j + 1][0] == recs[k];
    } else {
      EarlierEndStartsNewBuild(recs, k, j - 1);
      HashesOfSnoc(recs[k..j], recs[j]);
      SliceSnoc(recs, k, j);
    }
  }

  /**
   * With `showAll` false, a log whose end times never go backwards and whose repeated commands
   * keep their times gives the same targets as with `showAll`: the reset rules never fire on it.
   */
  lemma {:induction false} OrderedLogNeverResets(recs: seq<Record>)
    requires forall i, j :: 0 <= i < j < |recs| ==> recs[i].end <= recs[j].end
    requires forall i, j :: 0 <= i < j < |recs| && recs[i].cmdhash == recs[j].cmdhash ==>
      recs[i].start == recs[j].start && recs[i].end == recs[j].end
    ensures Collect(recs, false) == Collect(recs, true)
  {
    hide FirstWith, NamesOf, Hashes;
    if recs != [] {
      var n := |recs|;
      var init := recs[..n - 1];
      var rec := Last(recs);
      assert forall i :: 0 <= i < |init| ==> init[i] == recs[i];
      OrderedLogNeverResets(init);
      ShowAllKeepsEverything(init);
      var c := Collect(init, true);
      assert Collect(recs, true) == Absorb(c, rec, true);
      assert Collect(recs, false) == Absorb(c, rec, false);
      if init != [] {
        assert c.lastEnd == recs[n - 2].end;
        assert recs[n - 2].end <= recs[n - 1].end;
      }
      if rec.cmdhash in c.targets {
        var first := FirstWith(init, rec.cmdhash);
        var i :| 0 <= i < |init| && init[i] == first;
        assert recs[i] == first && recs[n - 1] == rec;
        assert c.targets[rec.cmdhash].start == first.start == rec.start;
        assert c.targets[rec.cmdhash].end == first.end == rec.end;
      }
      if init == [] {
        // the empty dictionary is reset for a negative end; nothing is lost
        assert c == EMPTY;
      } else {
        assert !Resets(c, rec, false);
      }
    }
  }

  // ---------------------------------------------------------------------------
  // The durations table

  /** `name` was built by some entry whose duration is `duration`. */
  ghost predicate BuiltWith(entries: map<string, Target>, name: string, duration: int) {
    exists h :: h in entries && name in entries[h].targets && duration == entries[h].Duration()
  }

  /**
   * `durations[target] = entry.Duration()` for every target of every entry. The dictionary's
   * iteration order is unspecified, so when a name belongs to several entries any of their
   * durations may win.
   */
  method Durations(entries: map<string, Target>) returns (durations: map<string, int>)
    ensures forall h, name :: h in entries && name in entries[h].targets ==> name in durations
    ensures forall name :: name in durations ==> BuiltWith(entries, name, durations[name])
  {
    durations := map[];
    var todo := entries.Keys;
    while todo != {}
      decreases todo
      invariant todo <= entries.Keys
      invariant forall h, name :: h in entries && h !in todo && name in entries[h].targets ==> name in durations
      invariant forall name :: name in durations ==> BuiltWith(entries, name, durations[name])
    {
      var h :| h in todo;
      var entry := entries[h];
      var j := 0;
      while j < |entry.targets|
        invariant 0 <= j <= |entry.targets|
        invariant forall k :: 0 <= k < j ==> entry.targets[k] in durations
        invariant forall h', name :: h' in entries && h' !in todo && name in entries[h'].targets ==> name in durations
        invariant forall name :: name in durations ==> BuiltWith(entries, name, durations[name])
      {
        durations := durations[entry.targets[j] := entry.Duration()];
        j := j + 1;
      }
      todo := todo - {h};
    }
  }

  // ---------------------------------------------------------------------------
  // The `ninja -t deps` listing

  /**
   * The listing loop's variables: `active_obj`, `active_deps` (`None` while still unbound), the
   * `deps` dictionary, and the key of `deps` whose list is the very object `active_deps` names,
   * if any (after a close, `+=` extends the stored list in place).
   */
  datatype DepsState = DepsState(activeObj: Option<string>, activeDeps: Option<seq<string>>,
                                 deps: map<string, seq<string>>, alias: Option<string>)
  {
    ghost predicate Valid() {
      (activeObj.Some? ==> activeDeps.Some?)
      && (alias.Some? ==> activeDeps.Some? && alias.value in deps && deps[alias.value] == activeDeps.value)
    }
  }

  const DEPS_START: DepsState := DepsState(None, None, map[], None)

  /** One line of the listing: open an object, add a dependency, or close the object. */
  function DepsStep(st: DepsState, line: string): (r: Result<DepsState>)
    requires st.Valid()
    ensures r.Ok? ==> r.value.Valid()
    // a line with a ':' opens the object named by the text before it, with an empty list
    ensures Contains(line, ":") ==>
      r == Ok(DepsState(Some(Before(line, ":")), Some([]), st.deps, None))
    // a longer line extends the list, and the stored list it still names after a close; before
    // any object it reads a local variable not yet assigned
    ensures !Contains(line, ":") && |line| > 2 ==>
      (r.Raise? <==> st.activeDeps.None?) && (r.Raise? ==> r.error == UnboundLocalError)
      && (r.Ok? ==>
            && r.value.activeDeps == Some(st.activeDeps.value + [Strip(line)])
            && r.value.activeObj == st.activeObj && r.value.alias == st.alias
            && r.value.deps == if st.alias.Some? then st.deps[st.alias.value := r.value.activeDeps.value] else st.deps)
    // a short line stores the list of a named open object and closes it
    ensures !Contains(line, ":") && |line| <= 2 && st.activeObj.Some? && st.activeObj.value != "" ==>
      r.Ok? && r.value.deps == st.deps[st.activeObj.value := st.activeDeps.value] && r.value.activeObj.None?
    ensures !Contains(line, ":") && |line| <= 2 && (st.activeObj.None? || st.activeObj.value == "") ==>
      r == Ok(st)
  {
    if Contains(line, ":") then
      Ok(DepsState(Some(Before(line, ":")), Some([]), st.deps, None))
    else if |line| > 2 then
      match st.activeDeps
      case None => Raise(UnboundLocalError)
      case Some(list) =>
        var list' := list + [Strip(line)];
        Ok(DepsState(st.activeObj, Some(list'),
                     if st.alias.Some? then st.deps[st.alias.value := list'] else st.deps, st.alias))
    else if st.activeObj.Some? && st.activeObj.value != "" then
      Ok(DepsState(None, st.activeDeps, st.deps[st.activeObj.value := st.activeDeps.value], st.activeObj))
    else Ok(st)
  }

  /** The listing loop's state after the given lines. */
  function DepsRun(lines: seq<string>): (r: Result<DepsState>)
    ensures r.Ok? ==> r.value.Valid()
    ensures r.Raise? ==> r.error == UnboundLocalError
  {
    if lines == [] then Ok(DEPS_START) else DepsThen(DepsRun(lines[..|lines| - 1]), Last(lines))
  }

  /** The state after one more line, once the earlier lines have not raised. */
  function DepsThen(sofar: Result<DepsState>, line: string): (r: Result<DepsState>)
    requires sofar.Ok? ==> sofar.value.Valid()
    ensures sofar.Raise? ==> r == sofar
    ensures r.Ok? ==> r.value.Valid()
  {
    match sofar
    case Raise(e) => Raise(e)
    case Ok(st) => DepsStep(st, line)
  }

  lemma DepsSnoc(lines: seq<string>, line: string)
    ensures DepsRun(lines + [line]) == DepsThen(DepsRun(lines), line)
  {
    assert (lines + [line])[..|lines|] == lines;
  }

  /** The `deps` dictionary the listing loop builds from the output lines of `ninja -t deps`. */
  method ReadDeps(lines: seq<string>) returns (r: Result<map<string, seq<string>>>)
    ensures r.Ok? <==> DepsRun(lines).Ok?
    ensures r.Ok? ==> r.value == DepsRun(lines).value.deps
  {
    var activeObj: Option<string> := None;
    var activeDeps: Option<seq<string>> := None;
    var deps: map<string, seq<string>> := map[];
    var alias: Option<string> := None;  // the key whose stored list `active_deps` still names
    var i := 0;
    FullPrefix(lines);
    while i < |lines|
      invariant 0 <= i <= |lines|
      invariant DepsRun(lines[..i]) == Ok(DepsState(activeObj, activeDeps, deps, alias))
    {
      hide Contains, Before, Strip;
      ghost var st := DepsState(activeObj, activeDeps, deps, alias);
      DepsRunStep(lines, i, st);
      var line := lines[i];
      if Contains(line, ":") {
        activeObj := Some(Before(line, ":"));
        activeDeps := Some([]);
        alias := None;
      } else if |line| > 2 {
        if activeDeps.None? {
          DepsErrorPersists(lines, i + 1);
          return Raise(UnboundLocalError);
        }
        activeDeps := Some(activeDeps.value + [Strip(line)]);
        if alias.Some? {
          deps := deps[alias.value := activeDeps.value];
        }
      } else if activeObj.Some? && activeObj.value != "" {
        deps := deps[activeObj.value := activeDeps.value];
        alias := activeObj;
        activeObj := None;
      }
      assert DepsStep(st, line) == Ok(DepsState(activeObj, activeDeps, deps, alias));
      i := i + 1;
    }
    FullPrefix(lines);
    return Ok(deps);
  }

  /** Once the first `i` lines leave the loop in `st`, line `i` takes it one step further. */
  lemma DepsRunStep(lines: seq<string>, i: nat, st: DepsState)
    requires i < |lines| && DepsRun(lines[..i]) == Ok(st)
    ensures DepsRun(lines[..i + 1]) == DepsStep(st, lines[i])
  {
    PrefixSnoc(lines, i);
    DepsSnoc(lines[..i], lines[i]);
  }

  lemma {:induction false} DepsErrorPersists(lines: seq<string>, k: nat)
    requires k <= |lines|
    requires DepsRun(lines[..k]).Raise?
    decreases |lines| - k
    ensures DepsRun(lines).Raise?
  {
    if k < |lines| {
      PrefixSnoc(lines, k);
      DepsSnoc(lines[..k], lines[k]);
      DepsErrorPersists(lines, k + 1);
    } else {
      FullPrefix(lines);
    }
  }

  /** A dependency line: no ':' and longer than 2 characters. */
  predicate IsDependency(line: string) {
    !Contains(line, ":") && |line| > 2
  }

  /** The dependency lines as `active_deps += [line.strip()]` collects them. */
  function StripAll(lines: seq<string>): (r: seq<string>)
    ensures |r| == |lines|
  {
    if lines == [] then [] else StripAll(lines[..|lines| - 1]) + [Strip(Last(lines))]
  }

  /** Entry `k` of the collected list is line `k` stripped. */
  lemma {:induction false} StripAllEach(lines: seq<string>, k: nat)
    requires k < |lines|
    ensures StripAll(lines)[k] == Strip(lines[k])
  {
    hide Strip;
    var init := lines[..|lines| - 1];
    if k < |init| {
      StripAllEach(init, k);
      assert lines[k] == init[k];
    }
  }

  /** After an object's line and its dependency lines, the object is open with their stripped text. */
  lemma {:induction false} OpenObject(before: seq<string>, header: string, lines: seq<string>)
    requires DepsRun(before).Ok?
    requires Contains(header, ":")
    requires forall k :: 0 <= k < |lines| ==> IsDependency(lines[k])
    decreases |lines|
    ensures DepsRun(before + [header] + lines)
      == Ok(DepsState(Some(Before(header, ":")), Some(StripAll(lines)), DepsRun(before).value.deps, None))
  {
    if lines == [] {
      DepsSnoc(before, header);
      assert before + [header] + lines == before + [header];
    } else {
      var init := lines[..|lines| - 1];
      var x := Last(lines);
      OpenObject(before, header, init);
      SplitLast(lines);
      Reassociate(before + [header], init, x);
      DepsSnoc(before + [header] + init, x);
      assert IsDependency(x);
    }
  }

  /** An object's line, its dependency lines and a short line store exactly those dependencies under its name. */
  lemma ClosedObjectIsStored(before: seq<string>, header: string, lines: seq<string>, close: string)
    requires DepsRun(before).Ok?
    requires Contains(header, ":") && Before(header, ":") != ""
    requires forall k :: 0 <= k < |lines| ==> IsDependency(lines[k])
    requires !Contains(close, ":") && |close| <= 2
    ensures DepsRun(before + [header] + lines + [close]).Ok?
    ensures DepsRun(before + [header] + lines + [close]).value.deps
      == DepsRun(before).value.deps[Before(header, ":") := StripAll(lines)]
  {
    OpenObject(before, header, lines);
    DepsSnoc(before + [header] + lines, close);
  }

  /**
   * After an object is closed, `active_deps` still names the list stored for it, so a further
   * dependency line before the next object's line extends the stored list as well.
   */
  lemma DependencyAfterCloseExtendsStored(before: seq<string>, header: string, lines: seq<string>,
                                          close: string, extra: string)
    requires DepsRun(before).Ok?
    requires Contains(header, ":") && Before(header, ":") != ""
    requires forall k :: 0 <= k < |lines| ==> IsDependency(lines[k])
    requires !Contains(close, ":") && |close| <= 2
    requires IsDependency(extra)
    ensures DepsRun(before + [header] + lines + [close, extra]).Ok?
    ensures DepsRun(before + [header] + lines + [close, extra]).value.deps
      == DepsRun(before).value.deps[Before(header, ":") := StripAll(lines) + [Strip(extra)]]
  {
    OpenObject(before, header, lines);
    var open := before + [header] + lines;
    DepsSnoc(open, close);
    assert open + [close, extra] == (open + [close]) + [extra];
    DepsSnoc(open + [close], extra);
  }

  /** An object whose dependency lines run to the end of the listing is never stored. */
  lemma UnclosedObjectIsDropped(before: seq<string>, header: string, lines: seq<string>)
    requires DepsRun(before).Ok?
    requires Contains(header, ":")
    requires forall k :: 0 <= k < |lines| ==> IsDependency(lines[k])
    ensures DepsRun(before + [header] + lines).Ok?
    ensures DepsRun(before + [header] + lines).value.deps == DepsRun(before).value.deps
  {
    OpenObject(before, header, lines);
  }

  // ---------------------------------------------------------------------------
  // clang-cl command lines

  /** The compiled source (with '\' separators) and the object file of one command line. */
  datatype Command = Command(source: string, obj: string)

  /**
   * The fields of a `ninja -t commands` line: `None` unless it mentions `clang-cl.exe`;
   * the object is the second-to-last space-separated field without its `/Fo` prefix and
   * the source the third-to-last; fewer than three fields raise IndexError.
   */
  function ParseCommand(line: string): (r: Option<Result<Command>>)
    ensures r.None? <==> !Contains(line, "clang-cl.exe")
    ensures r.Some? ==> (r.value.Raise? <==> |Split(line, " ")| < 3)
    ensures r.Some? && r.value.Raise? ==> r.value.error == IndexError
  {
    if !Contains(line, "clang-cl.exe") then None
    else
      var parts := Split(line, " ");
      if |parts| < 3 then Some(Raise(IndexError))
      else
        Some(Ok(Command(ReplaceChar(parts[|parts| - 3], '/', '\\'), Drop(parts[|parts| - 2], 3))))
  }

  /** A `clang-cl` line ending in `<source> /Fo<object> <last>` gives back that source and object. */
  lemma CommandFields(words: seq<string>, source: string, obj: string, last: string)
    requires forall k, i :: 0 <= k < |words| && 0 <= i < |words[k]| ==> words[k][i] != ' '
    requires forall i :: 0 <= i < |source| ==> source[i] != ' '
    requires forall i :: 0 <= i < |obj| ==> obj[i] != ' '
    requires forall i :: 0 <= i < |last| ==> last[i] != ' '
    requires Contains(Join(words + [source, "/Fo" + obj, last], " "), "clang-cl.exe")
    ensures ParseCommand(Join(words + [source, "/Fo" + obj, last], " "))
      == Some(Ok(Command(ReplaceChar(source, '/', '\\'), obj)))
  {
    var parts := words + [source, "/Fo" + obj, last];
    forall k, i | 0 <= k < |parts| && 0 <= i < |parts[k]|
      ensures parts[k][i] != ' '
    {
      if k < |words| {
        assert parts[k] == words[k];
      }
    }
    JoinSplitChar(parts, ' ');
    assert ("/Fo" + obj)[3..] == obj;
  }
}
