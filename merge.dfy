/**
 * The sample/disassembly merger: reads CPU-sample counts per instruction address,
 * then prefixes each disassembly line whose address was sampled with its count,
 * using each sample at most once, and reports how many samples were never matched.
 */
module MergeSamples {
  import opened PyText

  const MATCHED_WIDTH: nat := 5
  const UNMATCHED_PREFIX: string := "      "
  const ADDRESS_LINE_START: string := "ffff"
  const ADDRESS_CHARS: nat := 17

  /**
   * One line of the samples file: exactly three `", "`-separated fields (else the unpacking
   * raises ValueError); the address is the second field without its first two characters,
   * in hexadecimal, and the count the third field, in decimal.
   */
  function SampleLine(line: string): (r: Result<(int, int)>)
    ensures |Split(line, ", ")| != 3 ==> r == Raise(ValueError)
    ensures var f := Split(line, ", ");
      |f| == 3 && ParseInt(Drop(f[1], 2), 16).Some? && ParseInt(f[2], 10).Some? ==>
        r == Ok((ParseInt(Drop(f[1], 2), 16).value, ParseInt(f[2], 10).value))
    ensures r.Ok? ==>
      && |Split(line, ", ")| == 3
      && ParseInt(Drop(Split(line, ", ")[1], 2), 16) == Some(r.value.0)
      && ParseInt(Split(line, ", ")[2], 10) == Some(r.value.1)
    ensures r.Raise? ==> r.error == ValueError
  {
    var fields := Split(line, ", ");
    if |fields| != 3 then Raise(ValueError)
    else
      match (ParseInt(Drop(fields[1], 2), 16), ParseInt(fields[2], 10))
      case (Some(address), Some(count)) => Ok((address, count))
      case _ => Raise(ValueError)
  }

  /** The sample table built from the sample lines in order: a later line for an address overwrites an earlier one. */
  function Samples(lines: seq<string>): (r: Result<map<int, int>>)
    ensures r.Raise? ==> r.error == ValueError
  {
    if lines == [] then Ok(map[])
    else
      match Samples(lines[..|lines| - 1])
      case Raise(e) => Raise(e)
      case Ok(table) =>
        match SampleLine(Last(lines))
        case Raise(e) => Raise(e)
        case Ok((address, count)) => Ok(table[address := count])
  }

  /** The count of the last of the well-formed lines whose address is `address`, if any. */
  function LastCount(lines: seq<string>, address: int): Option<int> {
    if lines == [] then None
    else
      match SampleLine(Last(lines))
      case Ok((a, count)) => if a == address then Some(count) else LastCount(lines[..|lines| - 1], address)
      case Raise(_) => LastCount(lines[..|lines| - 1], address)
  }

  /** The table holds, for every sampled address, the count of the last line for it. */
  lemma {:induction false} LaterSampleOverwrites(lines: seq<string>)
    requires forall k :: 0 <= k < |lines| ==> SampleLine(lines[k]).Ok?
    ensures Samples(lines).Ok?
    ensures forall a :: (a in Samples(lines).value) <==> LastCount(lines, a).Some?
    ensures forall a :: a in Samples(lines).value ==> Samples(lines).value[a] == LastCount(lines, a).value
  {
    if lines != [] {
      var init := lines[..|lines| - 1];
      assert forall k :: 0 <= k < |init| ==> init[k] == lines[k];
      LaterSampleOverwrites(init);
    }
  }

  /** `s.replace(c, '')` */
  function Without(s: string, c: char): (r: string)
    ensures |r| <= |s|
    ensures forall i :: 0 <= i < |r| ==> r[i] != c
    ensures (forall i :: 0 <= i < |s| ==> s[i] != c) ==> r == s
    ensures multiset(r)[c] == 0 && forall x :: x != c ==> multiset(r)[x] == multiset(s)[x]
  {
    if s == [] then []
    else
      assert s == [s[0]] + s[1..];
      (if s[0] == c then [] else [s[0]]) + Without(s[1..], c)
  }

  /** Removing a character from a concatenation removes it from each part. */
  lemma {:induction false} WithoutAppend(s: string, t: string, c: char)
    ensures Without(s + t, c) == Without(s, c) + Without(t, c)
    decreases |s|
  {
    if s == [] {
      assert s + t == t;
    } else {
      WithoutAppend(s[1..], t, c);
      WithoutCons(s, t, c);
    }
  }

  /** The inductive step of `WithoutAppend`: both sides lose or keep the first character alike. */
  lemma WithoutCons(s: string, t: string, c: char)
    requires s != []
    requires Without(s[1..] + t, c) == Without(s[1..], c) + Without(t, c)
    ensures Without(s + t, c) == Without(s, c) + Without(t, c)
  {
    hide Without;
    var head := if s[0] == c then [] else [s[0]];
    var rest, tail := Without(s[1..], c), Without(t, c);
    assert Without(s + t, c) == head + (rest + tail) by {
      WithoutFirst(s + t, c);
      assert (s + t)[0] == s[0] && (s + t)[1..] == s[1..] + t;
    }
    assert Without(s, c) == head + rest by {
      WithoutFirst(s, c);
    }
    Assoc(head, rest, tail);
  }

  lemma WithoutFirst(s: string, c: char)
    requires s != []
    ensures Without(s, c) == (if s[0] == c then [] else [s[0]]) + Without(s[1..], c)
  {
  }

  /** The address of a disassembly line: its first 17 characters without backticks, in hexadecimal. */
  function LineAddress(line: string): Option<int> {
    ParseInt(Without(Take(line, ADDRESS_CHARS), '`'), 16)
  }

  /**
   * The merger's state over the disassembly: the samples not yet used, the printed lines,
   * and (for the proofs) the addresses used so far, in order.
   */
  datatype Merged = Merged(samples: map<int, int>, out: seq<string>, matched: seq<int>)

  /** One disassembly line: annotated with (and consuming) its sample, padded, or only stripped. */
  function AnnotateLine(st: Merged, line: string): (r: Result<Merged>)
    ensures r.Raise? ==> r.error == ValueError && StartsWith(line, ADDRESS_LINE_START)
    ensures r.Ok? ==> |r.value.out| == |st.out| + 1 && r.value.out[..|st.out|] == st.out
    ensures !StartsWith(line, ADDRESS_LINE_START) ==> r == Ok(Merged(st.samples, st.out + [Strip(line)], st.matched))
    ensures StartsWith(line, ADDRESS_LINE_START) ==> (r.Raise? <==> LineAddress(line).None?)
    ensures r.Ok? && StartsWith(line, ADDRESS_LINE_START) && LineAddress(line).Some? && LineAddress(line).value in st.samples ==>
      var a := LineAddress(line).value;
      r.value == Merged(st.samples - {a}, st.out + [PadInt(st.samples[a], MATCHED_WIDTH) + " " + Strip(line)], st.matched + [a])
    ensures r.Ok? && StartsWith(line, ADDRESS_LINE_START) && LineAddress(line).Some? && LineAddress(line).value !in st.samples ==>
      r.value == Merged(st.samples, st.out + [UNMATCHED_PREFIX + Strip(line)], st.matched)
  {
    if !StartsWith(line, ADDRESS_LINE_START) then Ok(Merged(st.samples, st.out + [Strip(line)], st.matched))
    else
      match LineAddress(line)
      case None => Raise(ValueError)
      case Some(a) =>
        if a in st.samples then
          Ok(Merged(st.samples - {a}, st.out + [PadInt(st.samples[a], MATCHED_WIDTH) + " " + Strip(line)], st.matched + [a]))
        else
          Ok(Merged(st.samples, st.out + [UNMATCHED_PREFIX + Strip(line)], st.matched))
  }

  /** The state after the given disassembly lines. */
  function Annotate(samples: map<int, int>, lines: seq<string>): (r: Result<Merged>)
    ensures r.Ok? ==> |r.value.out| == |lines|
  {
    if lines == [] then Ok(Merged(samples, [], []))
    else
      match Annotate(samples, lines[..|lines| - 1])
      case Raise(e) => Raise(e)
      case Ok(st) => AnnotateLine(st, Last(lines))
  }

  /** `'%d samples not matched up' % n` */
  function UnmatchedMessage(n: nat): string {
    IntToString(n) + " samples not matched up"
  }

  /** What the script prints: the merged lines, then the message when samples remain. */
  function Output(st: Merged): (r: seq<string>)
    ensures st.samples == map[] ==> r == st.out
    ensures st.samples != map[] ==> r == st.out + [UnmatchedMessage(|st.samples|)]
  {
    if |st.samples| > 0 then st.out + [UnmatchedMessage(|st.samples|)] else st.out
  }

  /** The whole script's output, or the exception it raises. */
  function MergeOutput(sampleFile: seq<string>, disassembly: seq<string>): Result<seq<string>> {
    var sampleLines := if |sampleFile| == 0 then [] else sampleFile[1..];
    match Samples(sampleLines)
    case Raise(e) => Raise(e)
    case Ok(table) =>
      match Annotate(table, disassembly)
      case Raise(e) => Raise(e)
      case Ok(st) => Ok(Output(st))
  }

  // ---------------------------------------------------------------------------
  // Properties

  /**
   * The bookkeeping of used samples: the addresses used are distinct sampled addresses, the
   * samples left are exactly the others, with their counts, and used plus left is all.
   */
  ghost predicate UsedOnce(samples: map<int, int>, st: Merged) {
    && (forall i, j :: 0 <= i < j < |st.matched| ==> st.matched[i] != st.matched[j])
    && (forall i :: 0 <= i < |st.matched| ==> st.matched[i] in samples && st.matched[i] !in st.samples)
    && (forall a :: a in st.samples <==> a in samples && a !in st.matched)
    && (forall a :: a in st.samples ==> st.samples[a] == samples[a])
    && |st.samples| + |st.matched| == |samples|
  }

  /** One disassembly line keeps the bookkeeping. */
  lemma UsedOnceStep(samples: map<int, int>, st: Merged, line: string)
    requires UsedOnce(samples, st)
    requires AnnotateLine(st, line).Ok?
    ensures UsedOnce(samples, AnnotateLine(st, line).value)
  {
    var next := AnnotateLine(st, line).value;
    if StartsWith(line, ADDRESS_LINE_START) && LineAddress(line).value in st.samples {
      ConsumeKeepsUsedOnce(samples, st, LineAddress(line).value, next.out);
    } else {
      assert next.samples == st.samples && next.matched == st.matched;
    }
  }

  /** Using the sample at `a` moves it from the samples left to the addresses used. */
  lemma ConsumeKeepsUsedOnce(samples: map<int, int>, st: Merged, a: int, out: seq<string>)
    requires UsedOnce(samples, st) && a in st.samples
    ensures UsedOnce(samples, Merged(st.samples - {a}, out, st.matched + [a]))
  {
    assert |st.samples.Keys - {a}| == |st.samples.Keys| - 1;
    assert (st.samples - {a}).Keys == st.samples.Keys - {a};
  }

  /** Each sample annotates at most one line, and the samples left are exactly those never used. */
  lemma {:induction false} EachSampleUsedOnce(samples: map<int, int>, lines: seq<string>)
    requires Annotate(samples, lines).Ok?
    ensures UsedOnce(samples, Annotate(samples, lines).value)
  {
    if lines != [] {
      var init := lines[..|lines| - 1];
      EachSampleUsedOnce(samples, init);
      UsedOnceStep(samples, Annotate(samples, init).value, Last(lines));
    }
  }

  /** The closing message reports exactly the number of samples never matched to a line. */
  lemma UnmatchedCountIsReported(samples: map<int, int>, lines: seq<string>)
    requires Annotate(samples, lines).Ok?
    ensures var st := Annotate(samples, lines).value;
      (|samples| > |st.matched| <==> |Output(st)| == |lines| + 1)
      && (|samples| > |st.matched| ==> Last(Output(st)) == UnmatchedMessage(|samples| - |st.matched|))
  {
    EachSampleUsedOnce(samples, lines);
  }

  // ---------------------------------------------------------------------------
  // The script

  /** The first loop: the sample table from the sample file's lines after its heading. */
  method ReadSamples(sampleFile: seq<string>) returns (r: Result<map<int, int>>)
    ensures r == Samples(if |sampleFile| == 0 then [] else sampleFile[1..])
  {
    var lines := if |sampleFile| == 0 then [] else sampleFile[1..];
    var samples: map<int, int> := map[];
    var i := 0;
    assert lines[..0] == [];
    while i < |lines|
      invariant 0 <= i <= |lines|
      invariant Samples(lines[..i]) == Ok(samples)
    {
      SamplesSnoc(lines, i);
      var row := SampleLine(lines[i]);
      if row.Raise? {
        SamplesErrorPersists(lines, i + 1);
        return Raise(row.error);
      }
      samples := samples[row.value.0 := row.value.1];
      i := i + 1;
    }
    assert lines[..i] == lines;
    return Ok(samples);
  }

  lemma SamplesSnoc(lines: seq<string>, i: nat)
    requires i < |lines|
    ensures Samples(lines[..i + 1]) ==
      match Samples(lines[..i])
      case Raise(e) => Raise(e)
      case Ok(table) =>
        match SampleLine(lines[i])
        case Raise(e) => Raise(e)
        case Ok((address, count)) => Ok(table[address := count])
  {
    assert lines[..i + 1][..i] == lines[..i];
  }

  lemma {:induction false} SamplesErrorPersists(lines: seq<string>, k: nat)
    requires k <= |lines|
    requires Samples(lines[..k]).Raise?
    decreases |lines| - k
    ensures Samples(lines) == Samples(lines[..k])
  {
    if k < |lines| {
      assert lines[..k + 1][..k] == lines[..k];
      SamplesErrorPersists(lines, k + 1);
    } else {
      assert lines[..k] == lines;
    }
  }

  lemma AnnotateSnoc(samples: map<int, int>, lines: seq<string>, i: nat)
    requires i < |lines|
    ensures Annotate(samples, lines[..i + 1]) ==
      match Annotate(samples, lines[..i])
      case Raise(e) => Raise(e)
      case Ok(st) => AnnotateLine(st, lines[i])
  {
    assert lines[..i + 1][..i] == lines[..i];
  }

  lemma {:induction false} AnnotateErrorPersists(samples: map<int, int>, lines: seq<string>, k: nat)
    requires k <= |lines|
    requires Annotate(samples, lines[..k]).Raise?
    decreases |lines| - k
    ensures Annotate(samples, lines) == Annotate(samples, lines[..k])
  {
    if k < |lines| {
      assert lines[..k + 1][..k] == lines[..k];
      AnnotateErrorPersists(samples, lines, k + 1);
    } else {
      assert lines[..k] == lines;
    }
  }

  /** The whole script: the sample table, then the disassembly loop that deletes used samples. */
  method Merge(sampleFile: seq<string>, disassembly: seq<string>) returns (r: Result<seq<string>>)
    ensures r == MergeOutput(sampleFile, disassembly)
  {
    var table := ReadSamples(sampleFile);
    if table.Raise? {
      return Raise(table.error);
    }
    var samples := table.value;
    var out: seq<string> := [];
    ghost var matched: seq<int> := [];
    var i := 0;
    assert disassembly[..0] == [];
    while i < |disassembly|
      invariant 0 <= i <= |disassembly|
      invariant Annotate(table.value, disassembly[..i]) == Ok(Merged(samples, out, matched))
    {
      ghost var st := Merged(samples, out, matched);
      AnnotateSnoc(table.value, disassembly, i);
      var line := disassembly[i];
      if StartsWith(line, ADDRESS_LINE_START) {
        var address := ParseInt(Without(Take(line, ADDRESS_CHARS), '`'), 16);
        if address.None? {
          AnnotateErrorPersists(table.value, disassembly, i + 1);
          return Raise(ValueError);
        }
        var prefix := UNMATCHED_PREFIX;
        if address.value in samples {
          prefix := PadInt(samples[address.value], MATCHED_WIDTH) + " ";
          samples := samples - {address.value};
          matched := matched + [address.value];
        }
        out := out + [prefix + Strip(line)];
      } else {
        out := out + [Strip(line)];
      }
      assert AnnotateLine(st, line) == Ok(Merged(samples, out, matched));
      i := i + 1;
    }
    assert disassembly[..i] == disassembly;
    if |samples| > 0 {
      out := out + [UnmatchedMessage(|samples|)];
    }
    return Ok(out);
  }
}
