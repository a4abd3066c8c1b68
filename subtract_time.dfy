/**
 * The `%time%` subtractor: parses two `h:m:s.f` (or `h:m:s,f`) times and takes their
 * difference. Times are kept in hundredths of a second, so the arithmetic is exact.
 */
module SubtractTime {
  import opened PyText

  /** The characters the pattern's literals match: `[\.,]` and `:`. */
  datatype CharClass = Separator | Colon

  predicate In(c: char, kind: CharClass) {
    match kind
    case Separator => c == '.' || c == ','
    case Colon => c == ':'
  }


  /** The text the pattern can see: `.` never matches a newline, so a match stays on the first line. */
  function FirstLine(s: string): (r: string)
    ensures |r| <= |s| && r == s[..|r|]
    ensures forall p :: 0 <= p < |r| ==> r[p] != '\n'
    ensures |r| < |s| ==> s[|r|] == '\n'
  {
    if s == [] || s[0] == '\n' then [] else [s[0]] + FirstLine(s[1..])
  }

  /** The last index below `n` holding a character of `cs`. */
  function LastOf(s: string, n: nat, cs: CharClass): (r: Option<nat>)
    requires n <= |s|
    ensures r.Some? ==> r.value < n && In(s[r.value], cs) && forall p :: r.value < p < n ==> !In(s[p], cs)
    ensures r.None? ==> forall p :: 0 <= p < n ==> !In(s[p], cs)
  {
    if n == 0 then None
    else if In(s[n - 1], cs) then Some(n - 1)
    else LastOf(s, n - 1, cs)
  }

  /** The four groups of `(.*):(.*):(.*)[\.,](.*)` and the separator the match used. */
  datatype TimeMatch = TimeMatch(hours: string, minutes: string, seconds: string, separator: char, fraction: string)

  predicate NoneOf(s: string, cs: CharClass) {
    forall p :: 0 <= p < |s| ==> !In(s[p], cs)
  }

  /**
   * What a greedy match looks like: the line is the groups joined by the pattern's literals, and
   * greediness means the later groups hold no character that an earlier `.*` could have taken up to.
   */
  predicate Greedy(line: string, g: TimeMatch) {
    && line == g.hours + ":" + g.minutes + ":" + g.seconds + [g.separator] + g.fraction
    && In(g.separator, Separator)
    && NoneOf(g.minutes, Colon) && NoneOf(g.seconds, Colon) && NoneOf(g.fraction, Separator)
  }

  /** The line contains a colon, a later colon and a later separator. */
  predicate HasShape(line: string) {
    exists i, j, k :: 0 <= i < j < k < |line| && line[i] == ':' && line[j] == ':' && In(line[k], Separator)
  }

  /** `re.match("(.*):(.*):(.*)[\.,](.*)", line)` on a line without newlines: backtracking leaves the last separator to `[\.,]`. */
  function MatchLine(line: string): (r: Option<TimeMatch>)
    ensures r.Some? ==> |r.value.hours| + |r.value.minutes| + |r.value.seconds| + |r.value.fraction| + 3 == |line|
    ensures r.Some? ==> In(r.value.separator, Separator)
  {
    match LastOf(line, |line|, Separator)
    case None => None
    case Some(k) => MatchBefore(line, k)
  }

  /** With the separator at `k`, the second `:` is the last colon before it. */
  function MatchBefore(line: string, k: nat): (r: Option<TimeMatch>)
    requires k < |line| && In(line[k], Separator)
    ensures r.Some? ==> |r.value.hours| + |r.value.minutes| + |r.value.seconds| + |r.value.fraction| + 3 == |line|
    ensures r.Some? ==> In(r.value.separator, Separator)
  {
    match LastOf(line, k, Colon)
    case None => None
    case Some(j) => MatchGroups(line, j, k)
  }

  /** With the second `:` at `j`, the first is the last colon before it. */
  function MatchGroups(line: string, j: nat, k: nat): (r: Option<TimeMatch>)
    requires j < k < |line| && In(line[k], Separator)
    ensures r.Some? ==> |r.value.hours| + |r.value.minutes| + |r.value.seconds| + |r.value.fraction| + 3 == |line|
    ensures r.Some? ==> In(r.value.separator, Separator)
  {
    match LastOf(line, j, Colon)
    case None => None
    case Some(i) => Some(TimeMatch(line[..i], line[i + 1..j], line[j + 1..k], line[k], line[k + 1..]))
  }

  /** What the match finds is a greedy decomposition of the line. */
  lemma MatchIsGreedy(line: string)
    requires MatchLine(line).Some?
    ensures Greedy(line, MatchLine(line).value)
  {
    var k := LastOf(line, |line|, Separator).value;
    var j := LastOf(line, k, Colon).value;
    var i := LastOf(line, j, Colon).value;
    MatchLineAt(line, i, j, k);
    var g := MatchLine(line).value;
    assert line[i] == ':' && line[j] == ':';
    Reassemble(line, i, j, k);
    SliceNoneOf(line, i, j, Colon);
    SliceNoneOf(line, j, k, Colon);
    SliceNoneOf(line, k, |line|, Separator);
  }

  /** The text strictly between `a` and `b` holds none of `cs` when no position there does. */
  lemma SliceNoneOf(line: string, a: nat, b: nat, cs: CharClass)
    requires a < b <= |line|
    requires forall p :: a < p < b ==> !In(line[p], cs)
    ensures NoneOf(line[a + 1..b], cs)
  {
    var piece := line[a + 1..b];
    forall p | 0 <= p < |piece| ensures !In(piece[p], cs) {
      assert piece[p] == line[a + 1 + p];
    }
  }

  /** A line cut at three positions is the pieces and the three characters there, in order. */
  lemma Reassemble(line: string, i: nat, j: nat, k: nat)
    requires i < j < k < |line|
    ensures line == line[..i] + [line[i]] + line[i + 1..j] + [line[j]] + line[j + 1..k] + [line[k]] + line[k + 1..]
  {
    assert line == line[..k] + [line[k]] + line[k + 1..];
    assert line[..k] == line[..j] + [line[j]] + line[j + 1..k];
    assert line[..j] == line[..i] + [line[i]] + line[i + 1..j];
  }

  /** `LastOf` finds `k` when `s[k]` is in `cs` and nothing between `k` and `n` is. */
  lemma LastOfIs(s: string, n: nat, cs: CharClass, k: nat)
    requires k < n <= |s| && In(s[k], cs)
    requires forall p :: k < p < n ==> !In(s[p], cs)
    ensures LastOf(s, n, cs) == Some(k)
  {
    var r := LastOf(s, n, cs);
    assert r.Some? && r.value >= k;
  }

  /** Where the literals of a greedy match sit in the line. */
  lemma GreedyLiterals(line: string, g: TimeMatch)
    requires Greedy(line, g)
    ensures var i := |g.hours|; var j := i + 1 + |g.minutes|; var k := j + 1 + |g.seconds|;
      && k < |line| && line[i] == ':' && line[j] == ':' && line[k] == g.separator
      && line[..i] == g.hours && line[i + 1..j] == g.minutes
      && line[j + 1..k] == g.seconds && line[k + 1..] == g.fraction
  {
  }

  /** A greedy decomposition is unique: it is the one the match finds. */
  lemma GreedyIsTheMatch(line: string, g: TimeMatch)
    requires Greedy(line, g)
    ensures MatchLine(line) == Some(g)
  {
    GreedyLiterals(line, g);
    var i := |g.hours|;
    var j := i + 1 + |g.minutes|;
    var k := j + 1 + |g.seconds|;
    MatchFromPieces(line, g, i, j, k);
  }

  /** The match from the pieces of the line between its literals. */
  lemma MatchFromPieces(line: string, g: TimeMatch, i: nat, j: nat, k: nat)
    requires i < j < k < |line|
    requires line[i] == ':' && line[j] == ':' && line[k] == g.separator && In(g.separator, Separator)
    requires line[..i] == g.hours && line[i + 1..j] == g.minutes
    requires line[j + 1..k] == g.seconds && line[k + 1..] == g.fraction
    requires NoneOf(g.minutes, Colon) && NoneOf(g.seconds, Colon) && NoneOf(g.fraction, Separator)
    ensures MatchLine(line) == Some(g)
  {
    assert LastOf(line, |line|, Separator) == Some(k) by {
      forall p | k < p < |line| ensures !In(line[p], Separator) {
        assert line[p] == g.fraction[p - k - 1];
      }
      LastOfIs(line, |line|, Separator, k);
    }
    assert LastOf(line, k, Colon) == Some(j) by {
      forall p | j < p < k ensures !In(line[p], Colon) {
        assert line[p] == g.seconds[p - j - 1];
      }
      LastOfIs(line, k, Colon, j);
    }
    assert LastOf(line, j, Colon) == Some(i) by {
      forall p | i < p < j ensures !In(line[p], Colon) {
        assert line[p] == g.minutes[p - i - 1];
      }
      LastOfIs(line, j, Colon, i);
    }
    MatchLineAt(line, i, j, k);
  }

  /** A character of `cs` at `p` below `n` means the search finds one at `p` or later. */
  lemma LastOfFinds(s: string, n: nat, cs: CharClass, p: nat) returns (q: nat)
    requires p < n <= |s| && In(s[p], cs)
    ensures LastOf(s, n, cs) == Some(q) && p <= q < n
  {
    q := LastOf(s, n, cs).value;
  }

  /** The match the three positions determine. */
  lemma MatchLineAt(line: string, i: nat, j: nat, k: nat)
    requires i < j < k < |line|
    requires LastOf(line, |line|, Separator) == Some(k)
    requires LastOf(line, k, Colon) == Some(j)
    requires LastOf(line, j, Colon) == Some(i)
    ensures MatchLine(line) == Some(TimeMatch(line[..i], line[i + 1..j], line[j + 1..k], line[k], line[k + 1..]))
  {
    MatchGroupsAt(line, i, j, k);
    MatchBeforeAt(line, j, k);
  }

  lemma MatchGroupsAt(line: string, i: nat, j: nat, k: nat)
    requires i < j < k < |line| && In(line[k], Separator)
    requires LastOf(line, j, Colon) == Some(i)
    ensures MatchGroups(line, j, k) == Some(TimeMatch(line[..i], line[i + 1..j], line[j + 1..k], line[k], line[k + 1..]))
  {
  }

  lemma MatchBeforeAt(line: string, j: nat, k: nat)
    requires j < k < |line| && In(line[k], Separator)
    requires LastOf(line, k, Colon) == Some(j)
    ensures MatchBefore(line, k) == MatchGroups(line, j, k)
  {
  }

  /** The pattern fails exactly on a line without a colon, a later colon and a later separator. */
  lemma NoMatchWithoutShape(line: string)
    ensures MatchLine(line).None? <==> !HasShape(line)
  {
    if HasShape(line) {
      var i, j, k :| 0 <= i < j < k < |line| && line[i] == ':' && line[j] == ':' && In(line[k], Separator);
      var k' := LastOfFinds(line, |line|, Separator, k);
      var j' := LastOfFinds(line, k', Colon, j);
      var i' := LastOfFinds(line, j', Colon, i);
      MatchLineAt(line, i', j', k');
    }
  }

  /** A time of day in hundredths of a second. */
  function Hundredths(hours: int, minutes: int, seconds: int, fraction: int): int {
    360000 * hours + 6000 * minutes + 100 * seconds + fraction
  }

  /** The value of the four groups, `hours * 3600 + minutes * 60 + seconds + fraction * .01`, in hundredths. */
  function GroupsValue(g: TimeMatch): (r: Option<int>)
    ensures r.Some? <==>
      && ParseInt(g.hours, 10).Some? && ParseInt(g.minutes, 10).Some?
      && ParseInt(g.seconds, 10).Some? && ParseInt(g.fraction, 10).Some?
    ensures r.Some? ==>
      r.value == Hundredths(ParseInt(g.hours, 10).value, ParseInt(g.minutes, 10).value,
                            ParseInt(g.seconds, 10).value, ParseInt(g.fraction, 10).value)
  {
    var h, m, sec, f := ParseInt(g.hours, 10), ParseInt(g.minutes, 10), ParseInt(g.seconds, 10), ParseInt(g.fraction, 10);
    if h.Some? && m.Some? && sec.Some? && f.Some? then
      Some(Hundredths(h.value, m.value, sec.value, f.value))
    else None
  }

  /** `ParseTime`: the time in hundredths of a second; AttributeError when the pattern does not match, ValueError when a group is not an integer. */
  function ParseTime(s: string): (r: Result<int>)
    ensures r == Raise(AttributeError) <==> MatchLine(FirstLine(s)).None?
    ensures r == Raise(ValueError) <==> MatchLine(FirstLine(s)).Some? && GroupsValue(MatchLine(FirstLine(s)).value).None?
    ensures r.Ok? ==> GroupsValue(MatchLine(FirstLine(s)).value) == Some(r.value)
  {
    match MatchLine(FirstLine(s))
    case None => Raise(AttributeError)
    case Some(g) =>
      match GroupsValue(g)
      case None => Raise(ValueError)
      case Some(v) => Ok(v)
  }

  /** `ParseTime` raises AttributeError exactly when its first line lacks the `h:m:s<sep>f` shape. */
  lemma NoShapeRaises(s: string)
    ensures ParseTime(s) == Raise(AttributeError) <==> !HasShape(FirstLine(s))
  {
    NoMatchWithoutShape(FirstLine(s));
  }

  /** `ParseTime(argv[1]) - ParseTime(argv[2])`, in hundredths; the first argument is parsed first. */
  function Elapsed(later: string, earlier: string): (r: Result<int>)
    ensures ParseTime(later).Raise? ==> r == ParseTime(later)
    ensures ParseTime(later).Ok? && ParseTime(earlier).Raise? ==> r == ParseTime(earlier)
    ensures r.Ok? <==> ParseTime(later).Ok? && ParseTime(earlier).Ok?
  {
    match ParseTime(later)
    case Raise(e) => Raise(e)
    case Ok(a) =>
      match ParseTime(earlier)
      case Raise(e) => Raise(e)
      case Ok(b) => Ok(a - b)
  }

  // ---------------------------------------------------------------------------
  // Properties

  predicate OneLine(s: string) {
    forall p :: 0 <= p < |s| ==> s[p] != '\n'
  }

  lemma OneLineConcat(a: string, b: string)
    requires OneLine(a) && OneLine(b)
    ensures OneLine(a + b)
  {
    forall p | 0 <= p < |a + b| ensures (a + b)[p] != '\n' {
      if p >= |a| {
        assert (a + b)[p] == b[p - |a|];
      }
    }
  }

  /**
   * A line `hours:minutes:seconds<sep>fraction`, then a newline and anything: when the later groups
   * hold no character the literals after them match, the groups are exactly these four strings.
   */
  lemma ParseJoined(hours: string, minutes: string, seconds: string, separator: char, fraction: string, rest: string)
    requires In(separator, Separator)
    requires NoneOf(minutes, Colon) && NoneOf(seconds, Colon) && NoneOf(fraction, Separator)
    requires OneLine(hours) && OneLine(minutes) && OneLine(seconds) && OneLine(fraction)
    ensures var g := TimeMatch(hours, minutes, seconds, separator, fraction);
      ParseTime(hours + ":" + minutes + ":" + seconds + [separator] + fraction + "\n" + rest)
        == if GroupsValue(g).Some? then Ok(GroupsValue(g).value) else Raise(ValueError)
  {
    var line := hours + ":" + minutes + ":" + seconds + [separator] + fraction;
    var g := TimeMatch(hours, minutes, seconds, separator, fraction);
    OneLineConcat(hours, ":");
    OneLineConcat(hours + ":", minutes);
    OneLineConcat(hours + ":" + minutes, ":");
    OneLineConcat(hours + ":" + minutes + ":", seconds);
    OneLineConcat(hours + ":" + minutes + ":" + seconds, [separator]);
    OneLineConcat(hours + ":" + minutes + ":" + seconds + [separator], fraction);
    FirstLineStopsAtNewline(line, rest);
    GreedyIsTheMatch(line, g);
  }

  lemma {:induction false} FirstLineStopsAtNewline(line: string, rest: string)
    requires OneLine(line)
    ensures FirstLine(line + "\n" + rest) == line
  {
    if line != [] {
      assert (line + "\n" + rest)[1..] == line[1..] + "\n" + rest;
      FirstLineStopsAtNewline(line[1..], rest);
    }
  }

  lemma GroupsValueOf(g: TimeMatch, h: int, m: int, s: int, f: int)
    requires ParseInt(g.hours, 10) == Some(h) && ParseInt(g.minutes, 10) == Some(m)
    requires ParseInt(g.seconds, 10) == Some(s) && ParseInt(g.fraction, 10) == Some(f)
    ensures GroupsValue(g) == Some(Hundredths(h, m, s, f))
  {
  }

  /** `'%d:%d:%d<sep>%d'`, the shape `%time%` produces (without its zero padding). */
  function TimeString(h: nat, m: nat, s: nat, separator: char, f: nat): string {
    NatToString(h) + ":" + NatToString(m) + ":" + NatToString(s) + [separator] + NatToString(f)
  }

  lemma NatRoundTrip(n: nat)
    ensures ParseInt(NatToString(n), 10) == Some(n as int)
    ensures OneLine(NatToString(n)) && NoneOf(NatToString(n), Colon) && NoneOf(NatToString(n), Separator)
  {
    hide ParseInt;
    IntToStringRoundTrip(n);
    assert IntToString(n) == NatToString(n);
  }

  /**
   * Formatting a time and parsing it back gives its hundredths, with either separator and with
   * anything after a newline ignored.
   */
  lemma TimeRoundTrip(h: nat, m: nat, s: nat, separator: char, f: nat, rest: string)
    requires In(separator, Separator)
    ensures ParseTime(TimeString(h, m, s, separator, f) + "\n" + rest) == Ok(Hundredths(h, m, s, f))
  {
    NatRoundTrip(h);
    NatRoundTrip(m);
    NatRoundTrip(s);
    NatRoundTrip(f);
    var g := TimeMatch(NatToString(h), NatToString(m), NatToString(s), separator, NatToString(f));
    GroupsValueOf(g, h, m, s, f);
    ParseJoined(NatToString(h), NatToString(m), NatToString(s), separator, NatToString(f), rest);
  }

  /** Both times parse: the result is their plain difference, with no wrap at midnight (it is negative when the first time is earlier). */
  lemma ElapsedIsDifference(later: string, earlier: string)
    requires ParseTime(later).Ok? && ParseTime(earlier).Ok?
    ensures Elapsed(later, earlier) == Ok(ParseTime(later).value - ParseTime(earlier).value)
  {
  }

  /** Swapping the two arguments negates the difference. */
  lemma ElapsedAntisymmetric(a: string, b: string)
    requires ParseTime(a).Ok? && ParseTime(b).Ok?
    ensures Elapsed(b, a).Ok? && Elapsed(b, a).value == -Elapsed(a, b).value
  {
    ElapsedIsDifference(a, b);
    ElapsedIsDifference(b, a);
  }
}
