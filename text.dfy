/**
 * Python `str` operations used by the repository's scripts, on `seq<char>`:
 * `strip`, `split(sep)`, `split()[0]`, `startswith`, `count(sub) > 0`,
 * `replace` of one character, ASCII `lower`, `int(s)` / `int(s, 16)` and
 * the `'%d'` / `'%5d'` formats.
 */
module PyText {

  datatype Option<T> = None | Some(value: T)

  /** The Python exceptions the scripts can raise on malformed input. */
  datatype Exception = AssertionError | ValueError | KeyError | IndexError | UnboundLocalError | AttributeError

  /** A value, or the exception raised instead of producing it. */
  datatype Result<T> = Ok(value: T) | Raise(error: Exception)

  lemma Assoc<T>(a: seq<T>, b: seq<T>, c: seq<T>)
    ensures (a + b) + c == a + (b + c)
  {
  }

  /** `s[-1]` */
  function Last<T>(s: seq<T>): T
    requires s != []
  {
    s[|s| - 1]
  }

  lemma SplitLast<T>(s: seq<T>)
    requires s != []
    ensures s == s[..|s| - 1] + [Last(s)]
  {
  }

  lemma FullPrefix<T>(s: seq<T>)
    ensures s[..|s|] == s && s[..0] == []
  {
  }

  lemma PrefixSnoc<T>(s: seq<T>, i: nat)
    requires i < |s|
    ensures s[..i + 1] == s[..i] + [s[i]]
  {
  }

  /** `sum(s)` */
  function Sum(s: seq<int>): int {
    if s == [] then 0 else Sum(s[..|s| - 1]) + Last(s)
  }

  lemma SumSnoc(s: seq<int>, x: int)
    ensures Sum(s + [x]) == Sum(s) + x
  {
    assert (s + [x])[..|s|] == s;
  }

  /** The characters Python's `str.strip()` and `str.split()` treat as whitespace (ASCII subset). */
  predicate IsSpace(c: char) {
    c == ' ' || c == '\t' || c == '\n' || c == '\r' || c == '\U{0B}' || c == '\U{0C}'
  }

  /** `s.lstrip()` */
  function LStrip(s: string): (r: string)
    ensures |r| <= |s| && r == s[|s| - |r|..]
    ensures r == [] || !IsSpace(r[0])
    ensures forall i :: 0 <= i < |s| - |r| ==> IsSpace(s[i])
  {
    if s != [] && IsSpace(s[0]) then LStrip(s[1..]) else s
  }

  /** A string that does not start with whitespace is its own `lstrip()`. */
  lemma LStripUnchanged(s: string)
    requires s == [] || !IsSpace(s[0])
    ensures LStrip(s) == s
  {
  }

  /** Signs and decimal digits are not whitespace. */
  lemma NotSpace(c: char)
    requires c == '-' || c == '+' || '0' <= c <= '9'
    ensures !IsSpace(c)
  {
  }

  /** `lstrip()` removes a leading run of whitespace and nothing after it. */
  lemma {:induction false} LStripSpaces(spaces: string, t: string)
    requires forall i :: 0 <= i < |spaces| ==> IsSpace(spaces[i])
    requires t == [] || !IsSpace(t[0])
    ensures LStrip(spaces + t) == t
  {
    if spaces == [] {
      assert spaces + t == t;
      LStripUnchanged(t);
    } else {
      assert (spaces + t)[1..] == spaces[1..] + t;
      LStripSpaces(spaces[1..], t);
    }
  }

  /** `s.rstrip()` */
  function RStrip(s: string): (r: string)
    ensures |r| <= |s| && r == s[..|r|]
    ensures r == [] || !IsSpace(r[|r| - 1])
    ensures forall i :: |r| <= i < |s| ==> IsSpace(s[i])
  {
    if s != [] && IsSpace(s[|s| - 1]) then RStrip(s[..|s| - 1]) else s
  }

  /** `s.strip()` */
  function Strip(s: string): (r: string)
    ensures |r| <= |s|
    ensures r == [] || (!IsSpace(r[0]) && !IsSpace(r[|r| - 1]))
    ensures (s == [] || (!IsSpace(s[0]) && !IsSpace(s[|s| - 1]))) ==> r == s
  {
    RStrip(LStrip(s))
  }

  /** Every character of `t` is whitespace. */
  predicate AllSpace(t: string) {
    forall k :: 0 <= k < |t| ==> IsSpace(t[k])
  }

  /** `lstrip()` drops a run of whitespace from the front and nothing else. */
  lemma LStripSplit(s: string)
    ensures var l := LStrip(s); s == s[..|s| - |l|] + l && AllSpace(s[..|s| - |l|])
  {
    var l := LStrip(s);
    var pre := s[..|s| - |l|];
    forall k | 0 <= k < |pre|
      ensures IsSpace(pre[k])
    {
      assert pre[k] == s[k];
    }
  }

  /** `rstrip()` drops a run of whitespace from the back and nothing else. */
  lemma RStripSplit(t: string)
    ensures var r := RStrip(t); t == r + t[|r|..] && AllSpace(t[|r|..])
  {
    var r := RStrip(t);
    var post := t[|r|..];
    forall k | 0 <= k < |post|
      ensures IsSpace(post[k])
    {
      assert post[k] == t[|r| + k];
    }
  }

  /**
   * `strip()` removes whitespace at the two ends and nothing else: `s` is the stripped string
   * with a run of whitespace before it and one after it.
   */
  lemma StripRemovesOnlyEdges(s: string)
    ensures exists pre, post :: s == pre + Strip(s) + post && AllSpace(pre) && AllSpace(post)
  {
    hide LStrip, RStrip, IsSpace, AllSpace;
    var l := LStrip(s);
    var r := RStrip(l);
    LStripSplit(s);
    RStripSplit(l);
    var pre := s[..|s| - |l|];
    var post := l[|r|..];
    assert s == pre + r + post;
  }

  /** `prefix` occurs in `s` at position `i`. */
  predicate OccursAt(s: string, sub: string, i: nat) {
    i + |sub| <= |s| && s[i..i + |sub|] == sub
  }

  /** `s.startswith(prefix)` */
  predicate StartsWith(s: string, prefix: string) {
    OccursAt(s, prefix, 0)
  }

  /** The position of the leftmost occurrence of `sub` in `s` at or after `from`, as `s.find(sub, from)`. */
  function Find(s: string, sub: string, from: nat): (r: Option<nat>)
    requires sub != []
    decreases |s| - from
    ensures r.Some? ==> from <= r.value && OccursAt(s, sub, r.value)
    ensures forall i :: from <= i && (r.None? || i < r.value) ==> !OccursAt(s, sub, i)
  {
    if from + |sub| > |s| then None
    else if OccursAt(s, sub, from) then Some(from)
    else Find(s, sub, from + 1)
  }

  /** `s.count(sub) > 0`, i.e. `sub in s`. */
  predicate Contains(s: string, sub: string)
    requires sub != []
  {
    Find(s, sub, 0).Some?
  }

  /** `sep.join(parts)` */
  function Join(parts: seq<string>, sep: string): (r: string)
    decreases |parts|
  {
    if parts == [] then ""
    else if |parts| == 1 then parts[0]
    else parts[0] + sep + Join(parts[1..], sep)
  }

  /** `s.split(sep)` for a non-empty separator: the pieces between the non-overlapping occurrences, left to right. */
  function Split(s: string, sep: string): (r: seq<string>)
    requires sep != []
    decreases |s|
    ensures |r| >= 1
    ensures forall k, i :: 0 <= k < |r| && 0 <= i ==> !OccursAt(r[k], sep, i)
  {
    match Find(s, sep, 0)
    case None => [s]
    case Some(i) =>
      var rest := Split(s[i + |sep|..], sep);
      assert forall j :: 0 <= j < i ==> !OccursAt(s, sep, j);
      assert forall j :: 0 <= j ==> !OccursAt(s[..i], sep, j) by {
        forall j | 0 <= j
          ensures !OccursAt(s[..i], sep, j)
        {
          if j + |sep| <= i {
            assert !OccursAt(s, sep, j);
            assert s[..i][j..j + |sep|] == s[j..j + |sep|];
          }
        }
      }
      [s[..i]] + rest
  }

  /** Splitting on `sep` and joining with `sep` gives the text back. */
  lemma {:induction false} SplitJoin(s: string, sep: string)
    requires sep != []
    decreases |s|
    ensures Join(Split(s, sep), sep) == s
  {
    match Find(s, sep, 0)
    case None =>
    case Some(i) =>
      SplitJoin(s[i + |sep|..], sep);
      var rest := Split(s[i + |sep|..], sep);
      assert Split(s, sep) == [s[..i]] + rest;
      assert s == s[..i] + sep + s[i + |sep|..];
  }

  /** Joining pieces free of the one-character separator `c` and splitting again gives the pieces back. */
  lemma {:induction false} JoinSplitChar(parts: seq<string>, c: char)
    requires |parts| >= 1
    requires forall k, i :: 0 <= k < |parts| && 0 <= i < |parts[k]| ==> parts[k][i] != c
    decreases |parts|
    ensures Split(Join(parts, [c]), [c]) == parts
  {
    var s := Join(parts, [c]);
    if |parts| == 1 {
      assert s == parts[0];
      forall i | 0 <= i
        ensures !OccursAt(s, [c], i)
      {
        if i + 1 <= |s| {
          assert s[i..i + 1] == [s[i]];
        }
      }
    } else {
      var p0 := parts[0];
      var rest := Join(parts[1..], [c]);
      assert s == p0 + [c] + rest;
      assert OccursAt(s, [c], |p0|) by {
        assert s[|p0|..|p0| + 1] == [c];
      }
      forall i | 0 <= i < |p0|
        ensures !OccursAt(s, [c], i)
      {
        assert s[i] == p0[i];
        assert s[i..i + 1] == [s[i]];
      }
      assert Find(s, [c], 0) == Some(|p0|);
      assert s[..|p0|] == p0;
      assert s[|p0| + 1..] == rest;
      JoinSplitChar(parts[1..], c);
      assert Split(s, [c]) == [p0] + Split(rest, [c]);
    }
  }

  /** The text before the first `sep`, as `s.split(sep)[0]`. */
  function Before(s: string, sep: string): (r: string)
    requires sep != []
    ensures r == Split(s, sep)[0]
    ensures StartsWith(s, r)
  {
    match Find(s, sep, 0)
    case None => s
    case Some(i) => s[..i]
  }

  /** `s.split()[0]`: the first run of non-whitespace characters; `None` where Python raises IndexError. */
  function FirstWord(s: string): (r: Option<string>)
    ensures r.None? <==> forall i :: 0 <= i < |s| ==> IsSpace(s[i])
    ensures r.Some? ==> r.value != [] && forall i :: 0 <= i < |r.value| ==> !IsSpace(r.value[i])
    ensures r.Some? ==> |r.value| <= |s|
  {
    var t := LStrip(s);
    if t == [] then None else
      Some(TakeWord(t))
  }

  /** The longest prefix of `s` free of whitespace. */
  function TakeWord(s: string): (r: string)
    ensures |r| <= |s| && r == s[..|r|]
    ensures forall i :: 0 <= i < |r| ==> !IsSpace(r[i])
    ensures |r| < |s| ==> IsSpace(s[|r|])
  {
    if s == [] || IsSpace(s[0]) then [] else [s[0]] + TakeWord(s[1..])
  }

  /** `s.replace(from, to)` for single characters. */
  function ReplaceChar(s: string, from: char, to: char): (r: string)
    ensures |r| == |s|
    ensures forall i :: 0 <= i < |s| ==> r[i] == (if s[i] == from then to else s[i])
  {
    if s == [] then [] else [if s[0] == from then to else s[0]] + ReplaceChar(s[1..], from, to)
  }

  /** ASCII `c.lower()` */
  function LowerChar(c: char): (r: char)
    ensures 'A' <= c <= 'Z' ==> r as int == c as int + 32
    ensures !('A' <= c <= 'Z') ==> r == c
  {
    if 'A' <= c <= 'Z' then (c as int + 32) as char else c
  }

  /** ASCII `s.lower()` */
  function Lower(s: string): (r: string)
    ensures |r| == |s| && forall i :: 0 <= i < |s| ==> r[i] == LowerChar(s[i])
  {
    if s == [] then [] else [LowerChar(s[0])] + Lower(s[1..])
  }

  /** `s[n:]`: Python slicing past the end gives the empty string. */
  function Drop(s: string, n: nat): (r: string)
    ensures n <= |s| ==> r == s[n..]
    ensures n >= |s| ==> r == []
  {
    if n <= |s| then s[n..] else []
  }

  /** `s[:n]` */
  function Take(s: string, n: nat): (r: string)
    ensures n <= |s| ==> r == s[..n]
    ensures n >= |s| ==> r == s
  {
    if n <= |s| then s[..n] else s
  }

  // ---------------------------------------------------------------------------
  // Integers: int(s), int(s, 16), '%d', '%5d'

  /** The value of `c` as a digit in base `base` (10 or 16), if it is one. */
  function DigitValue(c: char, base: nat): (r: Option<nat>)
    ensures r.Some? ==> r.value < base
  {
    if '0' <= c <= '9' && (c as int - '0' as int) < base then Some(c as int - '0' as int)
    else if base == 16 && 'a' <= c <= 'f' then Some(c as int - 'a' as int + 10)
    else if base == 16 && 'A' <= c <= 'F' then Some(c as int - 'A' as int + 10)
    else None
  }

  /** The value of a run of digits, most significant first; `None` if some character is not a digit. */
  function DigitsValue(s: string, base: nat): (r: Option<nat>)
    decreases |s|
  {
    if s == [] then Some(0)
    else
      match (DigitsValue(s[..|s| - 1], base), DigitValue(s[|s| - 1], base))
      case (Some(hi), Some(d)) => Some(hi * base + d)
      case _ => None
  }

  /**
   * Python 2's `int(s, base)` for base 10 or 16: surrounding whitespace is ignored,
   * one optional sign, whitespace again (the C `strtoul` under `int()` skips it after the
   * sign), then at least one digit; anything else raises ValueError (`None`).
   */
  function ParseInt(s: string, base: nat): (r: Option<int>)
    ensures Strip(s) == [] ==> r.None?
  {
    var t := Strip(s);
    if t == [] then None
    else
      var neg := t[0] == '-';
      var digits := if t[0] == '-' || t[0] == '+' then LStrip(t[1..]) else t;
      if digits == [] then None
      else
        match DigitsValue(digits, base)
        case None => None
        case Some(v) =>
          var value: int := v;
          Some(if neg then -value else value)
  }

  /** A sign, then whitespace and a word that neither starts nor ends with whitespace, is already stripped. */
  lemma SignedWordStripped(sign: char, spaces: string, word: string)
    requires !IsSpace(sign) && word != [] && !IsSpace(word[0]) && !IsSpace(word[|word| - 1])
    ensures Strip([sign] + (spaces + word)) == [sign] + (spaces + word)
  {
    var s := [sign] + (spaces + word);
    assert s[|s| - 1] == word[|word| - 1];
  }

  /**
   * A sign may be followed by any run of whitespace before the digits:
   * `int('- 5') == -5` and `int('+\t 7') == 7`.
   */
  lemma SpaceAfterSign(sign: char, spaces: string, n: nat)
    requires sign == '-' || sign == '+'
    requires forall i :: 0 <= i < |spaces| ==> IsSpace(spaces[i])
    ensures ParseInt([sign] + (spaces + NatToString(n)), 10) == Some(if sign == '-' then -(n as int) else n)
  {
    hide *;
    var digits := NatToString(n);
    DigitsOfNatToString(n);
    NotSpace(sign);
    NotSpace(digits[0]);
    NotSpace(digits[|digits| - 1]);
    SignedWordStripped(sign, spaces, digits);
    LStripSpaces(spaces, digits);
    ParseSignedParts(sign, spaces + digits, 10, digits, n);
  }

  /** A sign needs a digit after it, whitespace or not: `int('- ')` raises. */
  lemma SignAloneRaises()
    ensures ParseInt("- ", 10) == None
  {
    assert Strip("- ") == "-" by {
      assert RStrip("- ") == "-" by {
        assert "- "[..1] == "-";
      }
      LStripUnchanged("- ");
    }
  }

  /** The decimal digits of `n`, without sign or padding. */
  function NatToString(n: nat): (r: string)
    decreases n
    ensures r != [] && forall i :: 0 <= i < |r| ==> '0' <= r[i] <= '9'
    ensures r[0] == '0' ==> n == 0
  {
    if n < 10 then [('0' as int + n) as char]
    else NatToString(n / 10) + [('0' as int + n % 10) as char]
  }

  /** `'%d' % n` */
  function IntToString(n: int): (r: string)
    ensures r != []
  {
    if n < 0 then "-" + NatToString(-n) else NatToString(n)
  }

  /** Reading back the decimal digits gives the number. */
  lemma {:induction false} DigitsOfNatToString(n: nat)
    decreases n
    ensures DigitsValue(NatToString(n), 10) == Some(n)
  {
    if n >= 10 {
      DigitsOfNatToString(n / 10);
      var s := NatToString(n);
      assert s[..|s| - 1] == NatToString(n / 10);
    }
  }

  /** `int(s)` for a stripped `s`: an optional sign, then `digits` once whitespace after the sign is skipped. */
  lemma ParseIntOfParts(s: string, base: nat, digits: string, v: nat)
    requires s != [] && Strip(s) == s && digits != [] && DigitsValue(digits, base) == Some(v)
    requires digits == if s[0] == '-' || s[0] == '+' then LStrip(s[1..]) else s
    ensures ParseInt(s, base) == Some(if s[0] == '-' then -(v as int) else v)
  {
    hide Strip, LStrip, DigitsValue;
  }

  /** `int(s)` for a stripped `s` made of a sign and `rest`, where `rest.lstrip()` is `digits`. */
  lemma ParseSignedParts(sign: char, rest: string, base: nat, digits: string, v: nat)
    requires sign == '-' || sign == '+'
    requires Strip([sign] + rest) == [sign] + rest && LStrip(rest) == digits
    requires digits != [] && DigitsValue(digits, base) == Some(v)
    ensures ParseInt([sign] + rest, base) == Some(if sign == '-' then -(v as int) else v)
  {
    hide *;
    var s := [sign] + rest;
    assert s[0] == sign && s[1..] == rest;
    ParseIntOfParts(s, base, digits, v);
  }

  /** `int(str(m)) == m` for a natural number `m`. */
  lemma NatToStringParses(m: nat)
    ensures ParseInt(NatToString(m), 10) == Some(m)
  {
    hide *;
    var digits := NatToString(m);
    DigitsOfNatToString(m);
    NotSpace(digits[0]);
    NotSpace(digits[|digits| - 1]);
    LStripUnchanged(digits);
    ParseIntOfParts(digits, 10, digits, m);
  }

  /** `int('%d' % n) == n` */
  lemma IntToStringRoundTrip(n: int)
    ensures ParseInt(IntToString(n), 10) == Some(n)
  {
    hide ParseInt, Strip, LStrip, RStrip, DigitsValue, NatToString, IsSpace;
    if n < 0 {
      assert IntToString(n) == ['-'] + ([] + NatToString(-n));
      SpaceAfterSign('-', [], -n);
    } else {
      NatToStringParses(n);
    }
  }

  /** `'%d' % n` is one-to-one. */
  lemma IntToStringInjective(a: int, b: int)
    requires IntToString(a) == IntToString(b)
    ensures a == b
  {
    IntToStringRoundTrip(a);
    IntToStringRoundTrip(b);
  }

  /** `'%*d' % (width, n)`: right-aligned in `width` columns, never truncated. */
  function PadInt(n: int, width: nat): (r: string)
    ensures |r| == if |IntToString(n)| < width then width else |IntToString(n)|
    ensures r == Spaces(|r| - |IntToString(n)|) + IntToString(n)
  {
    var d := IntToString(n);
    if |d| < width then Spaces(width - |d|) + d else d
  }

  /** `' ' * n` */
  function Spaces(n: nat): (r: string)
    ensures |r| == n && forall i :: 0 <= i < n ==> r[i] == ' '
  {
    if n == 0 then "" else " " + Spaces(n - 1)
  }
}
