/**
 * The excess-CFG source generator: writes `num_files` C++ files, each holding `num_classes`
 * classes of `num_members` virtual methods, numbering classes and printf payloads so that
 * every one is unique across all files. Each output file is the sequence of strings written
 * to it; the model describes each written string by the `Line` it formats, and `Text` is the
 * formatting.
 */
module GenerateSources {
  import opened PyText

  const NUM_FILES: nat := 16
  const NUM_CLASSES: nat := 50
  const DEFAULT_MEMBERS: nat := 100
  /** Padding characters added to every printf string. */
  const NUM_CHARS: nat := 1

  /** One `out.write(...)` call, by what it writes. */
  datatype Line =
    | Include
    | Blank
    | ClassOpen(classNum: nat)
    | Public
    | Method(memberNum: nat, payload: nat)
    | ClassClose
    | Global(classNum: nat)
    | MainOpen
    | MainClose

  /** `c * n` */
  function Repeat(c: char, n: nat): (r: string)
    ensures |r| == n && forall i :: 0 <= i < n ==> r[i] == c
  {
    if n == 0 then "" else Repeat(c, n - 1) + [c]
  }

  /** The string each write formats. */
  function Text(line: Line): (r: string)
    ensures r != []
  {
    match line
    case Include => "#include <stdio.h>\n"
    case Blank => "\n"
    case ClassOpen(c) => "class Foo" + IntToString(c) + " {\n"
    case Public => "public:\n"
    case Method(m, p) => "  virtual void DoSomething" + IntToString(m) + "() { printf(\"" + IntToString(p) + Repeat('-', NUM_CHARS) + "\");}\n"
    case ClassClose => "};\n"
    case Global(c) => "Foo" + IntToString(c) + "* pFoo" + IntToString(c) + " = new Foo" + IntToString(c) + "();\n"
    case MainOpen => "int main() {\n"
    case MainClose => "}\n"
  }

  /** The strings of a sequence of writes. */
  function Texts(lines: seq<Line>): (r: seq<string>)
    ensures |r| == |lines| && forall i :: 0 <= i < |lines| ==> r[i] == Text(lines[i])
  {
    seq(|lines|, i requires 0 <= i < |lines| => Text(lines[i]))
  }

  datatype SourceFile = SourceFile(name: string, writes: seq<string>)

  /** `'gen%d.cpp' % file_num` */
  function FileName(fileNum: nat): string {
    "gen" + IntToString(fileNum) + ".cpp"
  }

  /** `file_num * num_classes + i` */
  function ClassNumber(fileNum: nat, i: nat): nat {
    fileNum * NUM_CLASSES + i
  }

  /** `class_num * num_members + member_num` */
  function Payload(classNum: nat, memberNum: nat, numMembers: nat): nat {
    classNum * numMembers + memberNum
  }

  /** The first `k` method declarations of a class, in order. */
  function Methods(classNum: nat, numMembers: nat, k: nat): (r: seq<Line>)
    ensures |r| == k
    ensures forall m :: 0 <= m < k ==> r[m] == Method(m, Payload(classNum, m, numMembers))
  {
    if k == 0 then [] else Methods(classNum, numMembers, k - 1) + [Method(k - 1, Payload(classNum, k - 1, numMembers))]
  }

  /** Everything written for one class. */
  function ClassLines(classNum: nat, numMembers: nat): (r: seq<Line>)
    ensures |r| == numMembers + 5
  {
    [ClassOpen(classNum), Public] + Methods(classNum, numMembers, numMembers) + [ClassClose, Global(classNum), Blank]
  }

  /** Everything written for the first `k` classes of a file. */
  function Classes(fileNum: nat, numMembers: nat, k: nat): seq<Line> {
    if k == 0 then [] else Classes(fileNum, numMembers, k - 1) + ClassLines(ClassNumber(fileNum, k - 1), numMembers)
  }

  /** Everything written to `gen<fileNum>.cpp`. */
  function FileLines(fileNum: nat, numMembers: nat): seq<Line> {
    [Include, Blank] + Classes(fileNum, numMembers, NUM_CLASSES) + (if fileNum == 0 then [MainOpen, MainClose] else [])
  }

  /** `num_members`: 100, or `int(argv[1])` when an argument is given (ValueError if it is not an integer). */
  function NumMembers(argv: seq<string>): (r: Result<int>)
    ensures |argv| <= 1 ==> r == Ok(DEFAULT_MEMBERS)
    ensures |argv| > 1 ==> (r.Raise? <==> ParseInt(argv[1], 10).None?)
    ensures |argv| > 1 && r.Ok? ==> ParseInt(argv[1], 10) == Some(r.value)
    ensures r.Raise? ==> r.error == ValueError
  {
    if |argv| > 1 then
      match ParseInt(argv[1], 10)
      case None => Raise(ValueError)
      case Some(n) => Ok(n)
    else Ok(DEFAULT_MEMBERS)
  }

  /** How many times `range(n)` iterates. */
  function RangeLength(n: int): nat {
    if n > 0 then n else 0
  }

  // ---------------------------------------------------------------------------
  // Uniqueness of the numbering

  /** Class numbers are distinct across all classes of all files. */
  lemma ClassNumbersUnique(f1: nat, i1: nat, f2: nat, i2: nat)
    requires i1 < NUM_CLASSES && i2 < NUM_CLASSES
    requires ClassNumber(f1, i1) == ClassNumber(f2, i2)
    ensures f1 == f2 && i1 == i2
  {
  }

  /** A lower class number's payloads all lie below a higher class number's. */
  lemma PayloadsOrdered(c1: nat, m1: nat, c2: nat, m2: nat, numMembers: nat)
    requires c1 < c2 && m1 < numMembers
    ensures Payload(c1, m1, numMembers) < Payload(c2, m2, numMembers)
  {
    var d := c2 - (c1 + 1);
    assert c2 * numMembers == c1 * numMembers + numMembers + d * numMembers;
  }

  /** Payloads are distinct across all methods of all classes. */
  lemma PayloadsUnique(c1: nat, m1: nat, c2: nat, m2: nat, numMembers: nat)
    requires m1 < numMembers && m2 < numMembers
    requires Payload(c1, m1, numMembers) == Payload(c2, m2, numMembers)
    ensures c1 == c2 && m1 == m2
  {
    if c1 < c2 {
      PayloadsOrdered(c1, m1, c2, m2, numMembers);
    } else if c2 < c1 {
      PayloadsOrdered(c2, m2, c1, m1, numMembers);
    }
  }

  /** The printed payloads of two different methods differ, across all files. */
  lemma PrintedPayloadsDiffer(f1: nat, i1: nat, m1: nat, f2: nat, i2: nat, m2: nat, numMembers: nat)
    requires i1 < NUM_CLASSES && i2 < NUM_CLASSES && m1 < numMembers && m2 < numMembers
    requires (f1, i1, m1) != (f2, i2, m2)
    ensures IntToString(Payload(ClassNumber(f1, i1), m1, numMembers))
         != IntToString(Payload(ClassNumber(f2, i2), m2, numMembers))
  {
    var p1 := Payload(ClassNumber(f1, i1), m1, numMembers);
    var p2 := Payload(ClassNumber(f2, i2), m2, numMembers);
    if IntToString(p1) == IntToString(p2) {
      IntToStringInjective(p1, p2);
      PayloadsUnique(ClassNumber(f1, i1), m1, ClassNumber(f2, i2), m2, numMembers);
      ClassNumbersUnique(f1, i1, f2, i2);
    }
  }

  /** Output files have distinct names. */
  lemma FileNamesDiffer(f1: nat, f2: nat)
    requires f1 != f2
    ensures FileName(f1) != FileName(f2)
  {
    if FileName(f1) == FileName(f2) {
      var a, b := IntToString(f1), IntToString(f2);
      assert |a| == |b|;
      assert a == FileName(f1)[3..3 + |a|];
      IntToStringInjective(f1, f2);
    }
  }

  // ---------------------------------------------------------------------------
  // Structure of the generated files

  /** Line `2 + m` of a class declares its method `m` with that method's payload; the class ends with its global. */
  lemma ClassStructure(classNum: nat, numMembers: nat)
    ensures var lines := ClassLines(classNum, numMembers);
      && lines[0] == ClassOpen(classNum) && lines[1] == Public
      && (forall m :: 0 <= m < numMembers ==> lines[2 + m] == Method(m, Payload(classNum, m, numMembers)))
      && lines[numMembers + 2] == ClassClose
      && lines[numMembers + 3] == Global(classNum)
      && lines[numMembers + 4] == Blank
  {
    var lines := ClassLines(classNum, numMembers);
    var methods := Methods(classNum, numMembers, numMembers);
    forall m | 0 <= m < numMembers ensures lines[2 + m] == Method(m, Payload(classNum, m, numMembers)) {
      assert lines[2 + m] == methods[m];
    }
  }

  lemma SliceOfAppend<T>(p: seq<T>, q: seq<T>, i: nat, j: nat)
    requires i <= j
    ensures j <= |p| ==> (p + q)[i..j] == p[i..j]
    ensures i == |p| && j == |p| + |q| ==> (p + q)[i..j] == q
  {
  }

  /** Every class takes `n + 5` lines, so the first `k` take `k * (n + 5)`. */
  lemma {:induction false} ClassesLength(fileNum: nat, numMembers: nat, k: nat)
    ensures |Classes(fileNum, numMembers, k)| == k * (numMembers + 5)
  {
    if k > 0 {
      ClassesLength(fileNum, numMembers, k - 1);
      assert k * (numMembers + 5) == (k - 1) * (numMembers + 5) + (numMembers + 5);
    }
  }

  /** Writing more classes only appends: the first `i` classes are a prefix of the first `k`. */
  lemma {:induction false} ClassesPrefix(fileNum: nat, numMembers: nat, i: nat, k: nat)
    requires i <= k
    ensures |Classes(fileNum, numMembers, i)| <= |Classes(fileNum, numMembers, k)|
    ensures Classes(fileNum, numMembers, k)[..|Classes(fileNum, numMembers, i)|] == Classes(fileNum, numMembers, i)
  {
    if i < k {
      ClassesPrefix(fileNum, numMembers, i, k - 1);
      var prefix := Classes(fileNum, numMembers, k - 1);
      var last := ClassLines(ClassNumber(fileNum, k - 1), numMembers);
      SliceOfAppend(prefix, last, 0, |Classes(fileNum, numMembers, i)|);
    }
  }

  /** A block appended after `before` in a prefix of `whole` sits at offset `|before|` of `whole`. */
  lemma BlockAt<T>(whole: seq<T>, before: seq<T>, block: seq<T>)
    requires |before + block| <= |whole| && whole[..|before + block|] == before + block
    ensures whole[|before|..|before| + |block|] == block
  {
    forall m | 0 <= m < |block|
      ensures whole[|before|..|before| + |block|][m] == block[m]
    {
      assert whole[|before| + m] == whole[..|before + block|][|before| + m];
    }
  }

  /** Class `i` of a file occupies the `n + 5` lines after the first `i` classes. */
  lemma ClassAt(fileNum: nat, numMembers: nat, k: nat, i: nat)
    requires i < k
    ensures var start := |Classes(fileNum, numMembers, i)|;
      && start + numMembers + 5 <= |Classes(fileNum, numMembers, k)|
      && Classes(fileNum, numMembers, k)[start..start + numMembers + 5] == ClassLines(ClassNumber(fileNum, i), numMembers)
  {
    hide ClassLines;
    ClassesPrefix(fileNum, numMembers, i + 1, k);
    BlockAt(Classes(fileNum, numMembers, k), Classes(fileNum, numMembers, i), ClassLines(ClassNumber(fileNum, i), numMembers));
  }

  /** The first character of each write. */
  function Initial(line: Line): char {
    match line
    case Include => '#'
    case Blank => '\n'
    case ClassOpen(_) => 'c'
    case Public => 'p'
    case Method(_, _) => ' '
    case ClassClose => '}'
    case Global(_) => 'F'
    case MainOpen => 'i'
    case MainClose => '}'
  }

  lemma TextStartsWithInitial(line: Line)
    ensures Text(line)[0] == Initial(line)
  {
  }

  /** The text opening `main` is written by nothing else: every other line starts with another character. */
  lemma MainTextUnique(line: Line)
    requires Text(line) == Text(MainOpen)
    ensures line == MainOpen
  {
    TextStartsWithInitial(line);
    TextStartsWithInitial(MainOpen);
  }

  lemma {:induction false} NoMainInClasses(fileNum: nat, numMembers: nat, k: nat)
    ensures MainOpen !in Classes(fileNum, numMembers, k)
  {
    if k > 0 {
      NoMainInClasses(fileNum, numMembers, k - 1);
      ClassStructure(ClassNumber(fileNum, k - 1), numMembers);
    }
  }

  /** Only `gen0.cpp` receives the empty `main`. */
  lemma OnlyFirstFileHasMain(fileNum: nat, numMembers: nat)
    ensures Text(MainOpen) in Texts(FileLines(fileNum, numMembers)) <==> fileNum == 0
  {
    hide Text, Classes;
    NoMainInClasses(fileNum, numMembers, NUM_CLASSES);
    var lines := FileLines(fileNum, numMembers);
    var texts := Texts(lines);
    if Text(MainOpen) in texts {
      var j :| 0 <= j < |texts| && texts[j] == Text(MainOpen);
      MainTextUnique(lines[j]);
      assert MainOpen in lines;
    }
    if fileNum == 0 {
      assert texts[|texts| - 2] == Text(MainOpen);
    }
  }

  /** Every file has the header, 50 classes of `n + 5` lines, and the two `main` lines in the first file only. */
  lemma FileLength(fileNum: nat, numMembers: nat)
    ensures |FileLines(fileNum, numMembers)| == 2 + NUM_CLASSES * (numMembers + 5) + (if fileNum == 0 then 2 else 0)
  {
    ClassesLength(fileNum, numMembers, NUM_CLASSES);
  }

  lemma TextsAppend(a: seq<Line>, b: seq<Line>)
    ensures Texts(a + b) == Texts(a) + Texts(b)
  {
  }

  // ---------------------------------------------------------------------------
  // The generator

  /** Writing one more line appends its text. */
  lemma WriteOne(out: seq<string>, written: seq<Line>, line: Line)
    ensures out + Texts(written) + [Text(line)] == out + Texts(written + [line])
  {
    TextsAppend(written, [line]);
  }

  /** Writes one class: its opening, `public:`, one line per member, the end and its global. */
  method WriteClass(out: seq<string>, classNum: nat, numMembers: nat) returns (out': seq<string>)
    ensures out' == out + Texts(ClassLines(classNum, numMembers))
  {
    ghost var written: seq<Line> := [];
    out' := out;
    WriteOne(out, written, ClassOpen(classNum));
    out', written := out' + [Text(ClassOpen(classNum))], written + [ClassOpen(classNum)];
    WriteOne(out, written, Public);
    out', written := out' + [Text(Public)], written + [Public];
    for memberNum := 0 to numMembers
      invariant written == [ClassOpen(classNum), Public] + Methods(classNum, numMembers, memberNum)
      invariant out' == out + Texts(written)
    {
      WriteOne(out, written, Method(memberNum, classNum * numMembers + memberNum));
      out' := out' + [Text(Method(memberNum, classNum * numMembers + memberNum))];
      written := written + [Method(memberNum, classNum * numMembers + memberNum)];
    }
    WriteOne(out, written, ClassClose);
    out', written := out' + [Text(ClassClose)], written + [ClassClose];
    WriteOne(out, written, Global(classNum));
    out', written := out' + [Text(Global(classNum))], written + [Global(classNum)];
    WriteOne(out, written, Blank);
    out', written := out' + [Text(Blank)], written + [Blank];
    assert written == ClassLines(classNum, numMembers);
  }

  /** Writes `gen<fileNum>.cpp`. */
  method WriteFile(fileNum: nat, numMembers: nat) returns (out: seq<string>)
    ensures out == Texts(FileLines(fileNum, numMembers))
  {
    out := [Text(Include)];
    out := out + [Text(Blank)];
    for i := 0 to NUM_CLASSES
      invariant out == Texts([Include, Blank] + Classes(fileNum, numMembers, i))
    {
      var classNum := fileNum * NUM_CLASSES + i;
      Assoc([Include, Blank], Classes(fileNum, numMembers, i), ClassLines(classNum, numMembers));
      TextsAppend([Include, Blank] + Classes(fileNum, numMembers, i), ClassLines(classNum, numMembers));
      out := WriteClass(out, classNum, numMembers);
    }
    var tail: seq<Line> := [];
    if fileNum == 0 {
      out := out + [Text(MainOpen)];
      out := out + [Text(MainClose)];
      tail := [MainOpen, MainClose];
    }
    TextsAppend([Include, Blank] + Classes(fileNum, numMembers, NUM_CLASSES), tail);
  }

  /** The whole script: every output file with what was written to it, or the ValueError of `int(argv[1])`. */
  method Generate(argv: seq<string>) returns (r: Result<seq<SourceFile>>)
    ensures r.Raise? <==> NumMembers(argv).Raise?
    ensures r.Raise? ==> r.error == ValueError
    ensures r.Ok? ==> |r.value| == NUM_FILES
    ensures r.Ok? ==> forall f :: 0 <= f < NUM_FILES ==>
      r.value[f] == SourceFile(FileName(f), Texts(FileLines(f, RangeLength(NumMembers(argv).value))))
  {
    var numMembers: int := DEFAULT_MEMBERS;
    if |argv| > 1 {
      var parsed := ParseInt(argv[1], 10);
      if parsed.None? {
        return Raise(ValueError);
      }
      numMembers := parsed.value;
    }
    var count := RangeLength(numMembers);
    var files: seq<SourceFile> := [];
    for fileNum := 0 to NUM_FILES
      invariant |files| == fileNum
      invariant forall f :: 0 <= f < fileNum ==> files[f] == SourceFile(FileName(f), Texts(FileLines(f, count)))
    {
      var out := WriteFile(fileNum, count);
      files := files + [SourceFile("gen" + IntToString(fileNum) + ".cpp", out)];
    }
    return Ok(files);
  }
}
