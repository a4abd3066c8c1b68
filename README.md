# Windows probes: verified models of their sequential cores

The repository is a collection of small Windows measurement tools and helper scripts. Most of
each tool is operating-system calls, timing and `printf`. A handful of them contain a sequential
core whose behaviour can be stated. This project models those cores in Dafny and proves what they
promise. In every case the operating-system answers, the clock readings or the file contents
become inputs.

- **VirtualScan** (`virtual_scan.dfy`, module `VirtualScan`) walks a process's address space one
  region at a time. It totals the committed bytes and blocks, and counts blocks whose protection
  is executable. It estimates the page-table pages by tracking the last 2 MiB, 1 GiB and 512 GiB
  aligned bases, as in x86-64 4-level paging. It also records the statistics of a reservation
  spanning exactly 2 TiB, which is the size of the CFG (Control Flow Guard) bitmap reservation.
  Each answer of the memory query is an input: a region or a failure.
- **CompareAsInt** (`float_compare.dfy`, module `FloatCompare`) compares floats through their
  32-bit IEEE 754 binary32 encodings (IEEE 754-2008 section 3.4), using masks and a
  two's-complement remap. Floats are their bit patterns; float equality is IEEE equality
  (IEEE 754-2008 section 5.11).
- **analyze_chrome.py** (`ninja_log.dfy`, module `NinjaLog`) reads a `.ninja_log`, including the
  two rules that detect a new build. It builds the table of durations, and models the
  `ninja -t deps` listing state machine and the `clang-cl` command-line field extraction.
- **SummarizeUserCrit.py** (`user_crit.dfy`, module `UserCrit`) summarises an ETW CSV export of
  user-critical-section events per process and per label.
- **merge.py** (`merge.dfy`, module `MergeSamples`) annotates disassembly lines with sample counts
  by address. Each sample annotates at most one line, and the number of unmatched samples is
  reported.
- **subtract_time.py** (`subtract_time.dfy`, module `SubtractTime`) parses two `%time%` strings
  (`h:m:s.ff` or `h:m:s,ff`) and subtracts them. Values are in hundredths of a second.
- **generate.py** (`generate.dfy`, module `GenerateSources`) writes 16 C++ files full of classes
  with virtual methods. Every class number and every printed payload is distinct.
- **VAllocStress** (`valloc_stress.dfy`, module `VAllocStress`) maps its argument to an
  allocation count, size and stride. It clamps the stride, runs the allocation loop against an
  oracle that says whether an allocation succeeds, and estimates the CFG memory left behind.
- **count_interrupts** and **measure_interval** (`count_interrupts.dfy`, `measure_interval.dfy`,
  sharing `timer_histogram.dfy`) sample `timeGetTime()` for one second and bucket the wrapped
  32-bit gaps into 50 slots. Only the nonzero rows are reported, and only when the timer
  resolution did not change.
- `text.dfy` (module `PyText`) holds the Python string operations the scripts rely on: `strip`,
  `split`, `join`, `int()`, `str()` of an integer, `lower`, `startswith`, `in` and `%5d`.

Integers are unbounded. Wrap-around is written out where the source depends on it: `size_t`
subtraction in VirtualScan, 32-bit `int` arithmetic in CompareAsInt, and `DWORD` subtraction in
the timer tools. Python exceptions are a `Result` whose error names the exception class.

## Model

| member | source | states |
|---|---|---|
| VirtualScan.SizeSub | cfg/VirtualScan/VirtualScan.cpp:64-75 | `size_t` subtraction: the exact difference when it does not underflow, otherwise the value congruent to it modulo 2^64 |
| VirtualScan.Sub | cfg/VirtualScan/VirtualScan.cpp:64-75 | `operator-` on `stats`: each of commit, blocks and page-table pages is the field-wise difference, wrapped modulo 2^64 |
| VirtualScan.Touch | cfg/VirtualScan/VirtualScan.cpp:147-164 | one 2 MiB step records the aligned L4/L3/L2 bases of its address and adds one page per level whose base changed: at most 3, none exactly when no base changed, 3 exactly when all three changed |
| VirtualScan.AlignTwice | cfg/VirtualScan/VirtualScan.cpp:147-149 | masking an already masked address changes nothing, and masking it to a range 512 times coarser gives the coarser mask of the address |
| VirtualScan.TouchNested | cfg/VirtualScan/VirtualScan.cpp:147-164 | a step leaves the bases nested (the 1 GiB and 512 GiB bases are those of the 2 MiB base); from nested bases a coarser base moves only with the finer ones, so the step adds 0 pages exactly when the 2 MiB base is unchanged, 1 exactly when only it moved, 2 exactly when the 1 GiB base moved and the 512 GiB base did not, 3 exactly when the 512 GiB base moved |
| VirtualScan.FirstTouchAddsThree | cfg/VirtualScan/VirtualScan.cpp:97-99 | the sentinel base 1 is never aligned, so the first step adds exactly three pages |
| VirtualScan.Walk | cfg/VirtualScan/VirtualScan.cpp:143-166 | walking a committed region adds at most three pages per 2 MiB step, and an empty region adds none |
| VirtualScan.WalkPageTables | cfg/VirtualScan/VirtualScan.cpp:143-166 | the inner stepping loop computes Walk, with its page bounds |
| VirtualScan.WalkNested | cfg/VirtualScan/VirtualScan.cpp:143-164 | the inner walk keeps the bases nested |
| VirtualScan.EnterGroup | cfg/VirtualScan/VirtualScan.cpp:123-136 | a new allocation base snapshots the running stats; `cfg_stats` changes only on a base change after a group of exactly 2 TiB, and then becomes running minus snapshot |
| VirtualScan.CommitRegion | cfg/VirtualScan/VirtualScan.cpp:138-180 | a committed region adds its size to commit and one block; the code-block count rises exactly for the four executable protections; page-table pages never decrease |
| VirtualScan.Step | cfg/VirtualScan/VirtualScan.cpp:114-188 | one region: the cursor advances by its size; a non-committed region changes no statistic and no table base; group tracking as in EnterGroup |
| VirtualScan.RunNested | cfg/VirtualScan/VirtualScan.cpp:97-164 | from the sentinel start on, every state of the scan holds nested bases, so every step counts pages as TouchNested says |
| VirtualScan.Regions | cfg/VirtualScan/VirtualScan.cpp:117-118 | the scanned regions are the answers before the first failed query |
| VirtualScan.StopsAtFirstFailure | cfg/VirtualScan/VirtualScan.cpp:184-187 | answers after a failure are never read |
| VirtualScan.RunTotals | cfg/VirtualScan/VirtualScan.cpp:91 | after a scan: the cursor is the total region size, commit and blocks count the committed regions, code blocks are at most blocks, and page-table pages lie between 1 and 1 + 3 per step |
| VirtualScan.PagesNeverDecrease | cfg/VirtualScan/VirtualScan.cpp:149-165 | the page-table count of a prefix of the scan never exceeds that of the whole scan |
| VirtualScan.SnapshotBelowRunning | cfg/VirtualScan/VirtualScan.cpp:106-110 | the group snapshot never exceeds the running stats in any field |
| VirtualScan.OpenGroupNotRecorded | cfg/VirtualScan/VirtualScan.cpp:123-136 | regions that keep the current allocation base never change `cfg_stats`, so a 2 TiB group still open at the end is not recorded |
| VirtualScan.GroupDelta | cfg/VirtualScan/VirtualScan.cpp:123-136 | a group of exactly 2 TiB that is left for a new base records the stats delta accumulated over its own regions |
| VirtualScan.Finish | cfg/VirtualScan/VirtualScan.cpp:191 | the reported commit adds 4096 bytes per page-table page; `cfg_stats` gets no such addition |
| VirtualScan.ScanProcess | cfg/VirtualScan/VirtualScan.cpp:77-215 | the scan loop reports the fold of Step over the regions, and so the totals of RunTotals |
| FloatCompare.Magnitude | FloatingPoint/CompareAsInt/CompareAsInt.cpp:69-76 | a pattern is its sign bit times 2^31 plus a 31-bit magnitude |
| FloatCompare.AsInt | FloatingPoint/CompareAsInt/CompareAsInt.cpp:72 | `*(int*)&A` is negative exactly when the sign bit is set |
| FloatCompare.IsInfinite | FloatingPoint/CompareAsInt/CompareAsInt.cpp:105-113 | true exactly for 0x7F800000 and 0xFF800000 |
| FloatCompare.IsNan | FloatingPoint/CompareAsInt/CompareAsInt.cpp:115-123 | true exactly when the magnitude exceeds the infinity pattern (exponent all ones, mantissa nonzero); never both NaN and infinite |
| FloatCompare.Sign | FloatingPoint/CompareAsInt/CompareAsInt.cpp:125-128 | `INT_MIN` exactly for a set sign bit, else 0 |
| FloatCompare.Lexicographic | FloatingPoint/CompareAsInt/CompareAsInt.cpp:85-92 | the remap `0x80000000 - x` yields minus the magnitude for negatives, so -0 maps to 0 |
| FloatCompare.LexicographicIsOrdered | FloatingPoint/CompareAsInt/CompareAsInt.cpp:85-92 | for non-NaN floats the remapped integers are ordered exactly as the floats are, and equal exactly when the floats are equal |
| FloatCompare.RawDifference | FloatingPoint/CompareAsInt/CompareAsInt.cpp:72 | the wrapped `abs` of the raw difference is the ulp distance for one sign, and 2^31 minus the magnitude difference across the sign, `INT_MIN` when the magnitudes are equal |
| FloatCompare.AlmostEqualUlps | FloatingPoint/CompareAsInt/CompareAsInt.cpp:69-76 | float-equal inputs are equal; otherwise, for inputs of one sign, true exactly when the ulp distance is at most maxUlps, and across the sign, where the wrapped difference is 2^31 minus the magnitude difference, true exactly when the magnitudes are equal (`abs(INT_MIN)`) or 2^31 minus their difference is at most maxUlps |
| FloatCompare.AlmostEqual2sComplement | FloatingPoint/CompareAsInt/CompareAsInt.cpp:79-97 | for inputs of one sign, true exactly when the ulp distance is at most maxUlps; for inputs of different signs the remapped difference is the sum of the magnitudes, true exactly when that sum is at most maxUlps while it is below 2^31, always true when it is 2^31 (the `abs(INT_MIN)` overflow), and true exactly when 2^32 minus the sum is at most maxUlps above 2^31 (the wrapped subtraction); +0 and -0 are equal |
| FloatCompare.AlmostEqual2sComplementSymmetric | FloatingPoint/CompareAsInt/CompareAsInt.cpp:93 | swapping the operands never changes the answer |
| FloatCompare.AlmostEqualUlpsFinal | FloatingPoint/CompareAsInt/CompareAsInt.cpp:133-188 | an infinite input gives float equality; a NaN gives false; differing signs give float equality; otherwise true exactly when the ulp distance is at most maxUlps |
| FloatCompare.CommonExpectations | FloatingPoint/CompareAsInt/CompareAsInt.cpp:297-309 | both functions accept 0 against -0, and 2.0 against its neighbours one and four ulps below |
| FloatCompare.DifferingExpectations | FloatingPoint/CompareAsInt/CompareAsInt.cpp:318-336 | the two functions disagree on inf/-inf, FLT_MAX/inf, NaN/NaN and the ± smallest denormals |
| FloatCompare.UlpsEqualsItsNegation | FloatingPoint/CompareAsInt/CompareAsInt.cpp:72 | as written, every non-negative float compares equal to its own negation |
| FloatCompare.TwosComplementTwoEqualsMinusTwo | FloatingPoint/CompareAsInt/CompareAsInt.cpp:93 | as written, 2.0 equals -2.0 for every maxUlps |
| FloatCompare.AlmostEqualUlpsCorrected | FloatingPoint/CompareAsInt/CompareAsInt.cpp:69-76 | without the `abs(INT_MIN)` overflow: never equal to a nonzero negation, and otherwise the same as AlmostEqualUlps |
| FloatCompare.AlmostEqual2sComplementCorrected | FloatingPoint/CompareAsInt/CompareAsInt.cpp:79-97 | without the overflow: the same ulp rule and the same answer wherever the wrapped difference is not `INT_MIN` |
| FloatCompare.CorrectedExpectations | FloatingPoint/CompareAsInt/CompareAsInt.cpp:297-336 | the corrected function keeps every expectation of main and rejects 2.0 against -2.0 |
| FloatCompare.AlmostEqual2sComplementCorrectedSymmetric | FloatingPoint/CompareAsInt/CompareAsInt.cpp:93 | the corrected function is symmetric too |
| NinjaLog.Target.Duration | ChromiumBuildAnalysis/analyze_chrome.py:37-39 | start plus duration is end |
| NinjaLog.ParseLine | ChromiumBuildAnalysis/analyze_chrome.py:53-61 | a line is skipped exactly when it does not split into five tab fields; a non-integer time raises ValueError; otherwise the record holds the parsed fields |
| NinjaLog.Parse | ChromiumBuildAnalysis/analyze_chrome.py:52-61 | at most one record per line; the only error is ValueError |
| NinjaLog.SkippedLineChangesNothing | ChromiumBuildAnalysis/analyze_chrome.py:53-57 | a skipped line can be removed without changing the result, `last_end_seen` included |
| NinjaLog.ParseErrorPersists | ChromiumBuildAnalysis/analyze_chrome.py:60-61 | once a line raises, the whole read raises |
| NinjaLog.Absorb | ChromiumBuildAnalysis/analyze_chrome.py:62-85 | an earlier end, or a known hash with different times, leaves only the new target; otherwise all other targets are kept and the name is appended to its hash's target |
| NinjaLog.Collect | ChromiumBuildAnalysis/analyze_chrome.py:51-85 | after the records, `last_end_seen` is the last record's end and its hash is present |
| NinjaLog.ShowAllKeepsEverything | ChromiumBuildAnalysis/analyze_chrome.py:71-85 | with show_all, every hash has one target holding all its names in file order and the times of its first record |
| NinjaLog.EarlierEndStartsNewBuild | ChromiumBuildAnalysis/analyze_chrome.py:62-69 | after an end earlier than its predecessor's, only hashes seen from that line on remain |
| NinjaLog.OrderedLogNeverResets | ChromiumBuildAnalysis/analyze_chrome.py:62-81 | with ordered ends and consistent times per hash, the reset rules never fire |
| NinjaLog.TargetsOf | ChromiumBuildAnalysis/analyze_chrome.py:43-86 | a missing or wrong header line fails the assertion, and nothing else does |
| NinjaLog.ReadTargets | ChromiumBuildAnalysis/analyze_chrome.py:43-86 | the reading loop computes TargetsOf |
| NinjaLog.AddRecord | ChromiumBuildAnalysis/analyze_chrome.py:62-85 | one loop iteration updates the dictionary and `last_end_seen` as Absorb does |
| NinjaLog.Durations | ChromiumBuildAnalysis/analyze_chrome.py:110-113 | every built name gets a duration, and each one is the duration of an entry that built it |
| NinjaLog.DepsStep | ChromiumBuildAnalysis/analyze_chrome.py:129-138 | a ':' line opens the object before the ':' with an empty list; a longer line raises UnboundLocalError before any object, and otherwise appends its stripped text to `active_deps`, leaves the open object and the aliased name as they were, and extends the stored list too when it is aliased; a short line stores the list of a named open object |
| NinjaLog.DepsRun | ChromiumBuildAnalysis/analyze_chrome.py:129-138 | the state stays consistent, and the only error is UnboundLocalError |
| NinjaLog.DepsErrorPersists | ChromiumBuildAnalysis/analyze_chrome.py:133-135 | once a line raises, the whole listing raises |
| NinjaLog.ReadDeps | ChromiumBuildAnalysis/analyze_chrome.py:129-138 | the listing loop computes the dictionary DepsRun describes |
| NinjaLog.StripAllEach | ChromiumBuildAnalysis/analyze_chrome.py:135 | each dependency is its line, stripped |
| NinjaLog.OpenObject | ChromiumBuildAnalysis/analyze_chrome.py:131-135 | an object line followed by dependency lines leaves that object open with those dependencies |
| NinjaLog.ClosedObjectIsStored | ChromiumBuildAnalysis/analyze_chrome.py:129-138 | an object closed by a short line is stored with exactly its stripped dependencies |
| NinjaLog.UnclosedObjectIsDropped | ChromiumBuildAnalysis/analyze_chrome.py:129-138 | an object still open at the end of the listing is never stored |
| NinjaLog.DependencyAfterCloseExtendsStored | ChromiumBuildAnalysis/analyze_chrome.py:129-138 | after an object is closed, a further dependency line extends the list already stored for it, because `active_deps` still names that list |
| NinjaLog.ParseCommand | ChromiumBuildAnalysis/analyze_chrome.py:146-153 | only lines containing `clang-cl.exe` count, and fewer than three space fields raise IndexError |
| NinjaLog.CommandFields | ChromiumBuildAnalysis/analyze_chrome.py:146-153 | a command ending `<source> /Fo<object> <last>` yields the source with '/' replaced by '\' and the object |
| UserCrit.Remap | ProcessCreateTests/SummarizeUserCrit.py:31-34 | only the three user-critical-section events are known; Release maps to "Held time", the other two to "Wait time" |
| UserCrit.ParseRow | ProcessCreateTests/SummarizeUserCrit.py:48-52 | KeyError exactly for three fields with an unknown event; IndexError exactly for a known event whose process field has no word; ValueError exactly for a field count other than three or a non-integer count after good event and process; a row exactly when all three fields are good, holding the remapped label, the first word of the process field and the count |
| UserCrit.DataLines | ProcessCreateTests/SummarizeUserCrit.py:45 | the header line is dropped |
| UserCrit.Rows | ProcessCreateTests/SummarizeUserCrit.py:46-59 | one row per data line |
| UserCrit.RowsParseEachLine | ProcessCreateTests/SummarizeUserCrit.py:48-52 | each row is the parse of its own line |
| UserCrit.RowsLabelled | ProcessCreateTests/SummarizeUserCrit.py:50 | every row carries one of the two labels |
| UserCrit.RowsErrorPersists | ProcessCreateTests/SummarizeUserCrit.py:46-59 | a row that raises ends the run with its error |
| UserCrit.CollectEach | ProcessCreateTests/SummarizeUserCrit.py:46-59 | a successful collection holds each result's value in order |
| UserCrit.GroupsSnoc | ProcessCreateTests/SummarizeUserCrit.py:55-59 | appending a row's count keeps `processes[name][label]` equal to that pair's counts in file order |
| UserCrit.Accumulate | ProcessCreateTests/SummarizeUserCrit.py:45-59 | the reading loop raises exactly when a row does; otherwise it groups every row's count by process and label |
| UserCrit.GroupsAreGroupsOf | ProcessCreateTests/SummarizeUserCrit.py:55-59 | the dictionary the reading loop builds is the one reference grouping of the rows: a process per name, a label per nonempty list, each list the pair's counts in file order |
| UserCrit.SumWhereAll | ProcessCreateTests/SummarizeUserCrit.py:74-80 | summing over every process gives each label's total sum and row count |
| UserCrit.OnlyTwoLabels | ProcessCreateTests/SummarizeUserCrit.py:31-34 | no other label has any rows |
| UserCrit.LeastExists | ProcessCreateTests/SummarizeUserCrit.py:61-62 | `sorted` has a first name: every nonempty set of names has a least one |
| UserCrit.LexLessTransitive | ProcessCreateTests/SummarizeUserCrit.py:61-62 | the string order that `sorted` uses is transitive |
| UserCrit.LexLessTotal | ProcessCreateTests/SummarizeUserCrit.py:61-62 | and total on distinct strings |
| UserCrit.SumOf | ProcessCreateTests/SummarizeUserCrit.py:76-78 | the summing loop computes the sum of the counts |
| UserCrit.AddEvents | ProcessCreateTests/SummarizeUserCrit.py:74-83 | one process's events extend the per-label totals and, when printed, its detail lines |
| UserCrit.AddProcess | ProcessCreateTests/SummarizeUserCrit.py:66-83 | one process extends the totals to include it and appends its details in name order |
| UserCrit.DetailsAppend | ProcessCreateTests/SummarizeUserCrit.py:66-73 | appending the next process in name order keeps the details correct |
| UserCrit.AppendNoRepeats | ProcessCreateTests/SummarizeUserCrit.py:66-83 | appending a new process's heading and its distinct labels never repeats a detail line |
| UserCrit.Totals | ProcessCreateTests/SummarizeUserCrit.py:61-83 | the totals loop: each label's total is the sum and number of its rows, and the details list the interesting processes in name order |
| UserCrit.Summarize | ProcessCreateTests/SummarizeUserCrit.py:36-88 | the script raises exactly when a row does, with that row's exception; otherwise totals per label over all rows, and details, without repeats and in name order, for exactly the interesting processes of the grouping of all rows |
| MergeSamples.SampleLine | CfgCreateProcess/AnnotatedAssembly/merge.py:8-11 | a line not of three ", " fields raises ValueError; a line of three fields whose address (hex after its first two characters) and count parse gives that pair |
| MergeSamples.Samples | CfgCreateProcess/AnnotatedAssembly/merge.py:5-11 | the only error is ValueError |
| MergeSamples.LaterSampleOverwrites | CfgCreateProcess/AnnotatedAssembly/merge.py:11 | an address is in the table exactly when some line has it, with the count of its last such line |
| MergeSamples.SamplesErrorPersists | CfgCreateProcess/AnnotatedAssembly/merge.py:8-11 | once a sample line raises, reading the samples raises |
| MergeSamples.ReadSamples | CfgCreateProcess/AnnotatedAssembly/merge.py:5-11 | the loop skips the header and computes Samples |
| MergeSamples.Without | CfgCreateProcess/AnnotatedAssembly/merge.py:15 | removing backticks leaves no backtick and every other character as often as before, and a string without one unchanged |
| MergeSamples.WithoutAppend | CfgCreateProcess/AnnotatedAssembly/merge.py:15 | removing backticks from a concatenation removes them from each part |
| MergeSamples.AnnotateLine | CfgCreateProcess/AnnotatedAssembly/merge.py:14-22 | each line adds one output line: a non-'ffff' line stripped; an 'ffff' line raises exactly when it has no address field; a matched address prefixed with its count and the sample deleted; an unmatched one prefixed with six spaces |
| MergeSamples.Annotate | CfgCreateProcess/AnnotatedAssembly/merge.py:13-22 | one output line per disassembly line |
| MergeSamples.AnnotateErrorPersists | CfgCreateProcess/AnnotatedAssembly/merge.py:15 | once a line raises, the whole annotation raises |
| MergeSamples.EachSampleUsedOnce | CfgCreateProcess/AnnotatedAssembly/merge.py:17-19 | every sample is either still unmatched or matched exactly once, never both |
| MergeSamples.UnmatchedCountIsReported | CfgCreateProcess/AnnotatedAssembly/merge.py:24-25 | the closing message appears exactly when samples remain, and reports how many were never matched |
| MergeSamples.Output | CfgCreateProcess/AnnotatedAssembly/merge.py:24-25 | the message is added only when samples remain |
| MergeSamples.Merge | CfgCreateProcess/AnnotatedAssembly/merge.py:5-25 | the script's loops compute the merged output |
| SubtractTime.MatchLine | ProcessCreateSlowdowns/subtract_time.py:12 | a match splits the line into three groups, two colons, a '.' or ',' separator and the fraction |
| SubtractTime.MatchIsGreedy | ProcessCreateSlowdowns/subtract_time.py:12 | the match is the greedy one: no colon in minutes or seconds, no separator in the fraction |
| SubtractTime.GreedyIsTheMatch | ProcessCreateSlowdowns/subtract_time.py:12 | the greedy split is the only one returned |
| SubtractTime.NoMatchWithoutShape | ProcessCreateSlowdowns/subtract_time.py:12 | there is no match exactly when the line lacks the `h:m:s<sep>f` shape |
| SubtractTime.GroupsValue | ProcessCreateSlowdowns/subtract_time.py:13-14 | defined exactly when all four groups are integers; then 360000h + 6000m + 100s + f hundredths |
| SubtractTime.GroupsValueOf | ProcessCreateSlowdowns/subtract_time.py:13-14 | the fraction counts hundredths whatever its number of digits |
| SubtractTime.ParseTime | ProcessCreateSlowdowns/subtract_time.py:9-14 | no match raises AttributeError, a non-integer group ValueError; otherwise the value of the groups |
| SubtractTime.NoShapeRaises | ProcessCreateSlowdowns/subtract_time.py:12-13 | input without the shape raises |
| SubtractTime.TimeRoundTrip | ProcessCreateSlowdowns/subtract_time.py:9-14 | a time written as `h:m:s.f` or `h:m:s,f` parses back to its hundredths |
| SubtractTime.ParseJoined | ProcessCreateSlowdowns/subtract_time.py:12-14 | any groups joined with the literals parse back as those groups |
| SubtractTime.Elapsed | ProcessCreateSlowdowns/subtract_time.py:16-18 | the first error wins, and a result exists exactly when both times parse |
| SubtractTime.ElapsedIsDifference | ProcessCreateSlowdowns/subtract_time.py:16-18 | the result is the difference of the two times, with no wrap at midnight |
| SubtractTime.ElapsedAntisymmetric | ProcessCreateSlowdowns/subtract_time.py:16-18 | swapping the arguments negates the result |
| GenerateSources.NumMembers | CfgCreateProcess/ExcessCfg/generate.py:11-14 | the default without an argument, otherwise `int(argv[1])`, raising ValueError when that fails |
| GenerateSources.Methods | CfgCreateProcess/ExcessCfg/generate.py:30-31 | method m prints payload class_num * num_members + m |
| GenerateSources.ClassStructure | CfgCreateProcess/ExcessCfg/generate.py:27-34 | a class is its header, `public:`, one virtual method per member, its close, one global instance and a blank line |
| GenerateSources.ClassNumbersUnique | CfgCreateProcess/ExcessCfg/generate.py:25-27 | class_num is distinct for every class of every file |
| GenerateSources.PayloadsUnique | CfgCreateProcess/ExcessCfg/generate.py:31 | the payload determines its class and member |
| GenerateSources.PrintedPayloadsDiffer | CfgCreateProcess/ExcessCfg/generate.py:17-31 | any two methods anywhere print different text |
| GenerateSources.FileNamesDiffer | CfgCreateProcess/ExcessCfg/generate.py:20 | gen0.cpp … gen15.cpp are distinct names |
| GenerateSources.OnlyFirstFileHasMain | CfgCreateProcess/ExcessCfg/generate.py:36-38 | a file contains `int main()` exactly when it is gen0.cpp |
| GenerateSources.FileLength | CfgCreateProcess/ExcessCfg/generate.py:19-38 | a file has 2 header lines, num_members + 5 lines per class, and 2 more for main in the first file |
| GenerateSources.WriteClass | CfgCreateProcess/ExcessCfg/generate.py:26-34 | the class-writing loop appends exactly the class's lines |
| GenerateSources.WriteFile | CfgCreateProcess/ExcessCfg/generate.py:20-38 | the file-writing loop produces exactly the file's lines |
| GenerateSources.Generate | CfgCreateProcess/ExcessCfg/generate.py:5-38 | raises exactly when the argument is not an integer; otherwise 16 files, file f named gen<f>.cpp with its lines |
| VAllocStress.ModeIgnoresCase | cfg/VAllocStress/VAllocStress.cpp:40-62 | mode names match case-insensitively |
| VAllocStress.DefaultMode | cfg/VAllocStress/VAllocStress.cpp:23-25 | without an argument the mode is -fewbigblocks |
| VAllocStress.Clamp | cfg/VAllocStress/VAllocStress.cpp:80-81 | the stride is raised to the allocation size when smaller, and nothing else changes |
| VAllocStress.ConfigurationTable | cfg/VAllocStress/VAllocStress.cpp:40-81 | count, size and stride of each of the five modes after the clamp |
| VAllocStress.StrideCoversSize | cfg/VAllocStress/VAllocStress.cpp:80-81 | stride ≥ size ≥ 4 KiB, and at least one allocation |
| VAllocStress.Configure | cfg/VAllocStress/VAllocStress.cpp:23-81 | the branches assign the configuration of the named mode, stride ≥ size, and report whether the mode was recognised |
| VAllocStress.Successes | cfg/VAllocStress/VAllocStress.cpp:89-94 | no more allocations succeed than were attempted |
| VAllocStress.AllSucceed | cfg/VAllocStress/VAllocStress.cpp:89-94 | if every allocation succeeds, every attempt counts |
| VAllocStress.AllSucceedReachesCount | cfg/VAllocStress/VAllocStress.cpp:85-95 | when every allocation succeeds and `num_allocs` strides fit below 256 TiB, a loop that stopped has made all `num_allocs` allocations |
| VAllocStress.AllocateAll | cfg/VAllocStress/VAllocStress.cpp:85-95 | attempted offsets are multiples of the stride below 256 TiB; the count never exceeds num_allocs, and reaches it unless the address space ran out |
| VAllocStress.ModesFitAddressSpace | cfg/VAllocStress/VAllocStress.cpp:85 | every mode's allocations fit below 256 TiB |
| VAllocStress.CfgAllocSize | cfg/VAllocStress/VAllocStress.cpp:98-100 | max(alloc_size / 64, 4 KiB) |
| VAllocStress.CfgEstimate | cfg/VAllocStress/VAllocStress.cpp:98-103 | the descriptor is " fragmented" exactly when the stride exceeds 64 times the CFG size, else " contiguous" |
| VAllocStress.AdjacentBlocksContiguous | cfg/VAllocStress/VAllocStress.cpp:98-103 | blocks of at least 256 KiB laid end to end are contiguous exactly when their size is a multiple of 64 |
| VAllocStress.FragmentedModes | cfg/VAllocStress/VAllocStress.cpp:40-103 | only -fewbigblocks and -supersparse fragment their CFG memory |
| TimerHistogram.Sub | timer_interval/count_interrupts.cpp:58 | `DWORD` subtraction: the difference, plus 2^32 when it would be negative |
| TimerHistogram.SubAddRoundTrip | timer_interval/count_interrupts.cpp:68 | adding back the subtrahend, modulo 2^32, restores the minuend |
| TimerHistogram.SubUnique | timer_interval/count_interrupts.cpp:68 | the wrapped difference is the only such value |
| TimerHistogram.FirstExpired | timer_interval/count_interrupts.cpp:58-59 | the first pass at which a second has passed since the start, with every earlier pass unexpired, or the number of passes when none is |
| TimerHistogram.FirstExpiredIs | timer_interval/count_interrupts.cpp:58-59 | an expired pass preceded only by unexpired ones is that first pass |
| TimerHistogram.Bucket | timer_interval/count_interrupts.cpp:69-70 | a gap goes to bucket min(gap, 49) |
| TimerHistogram.HistogramCounts | timer_interval/count_interrupts.cpp:66-72 | each bucket's count is the number of gaps falling into it |
| TimerHistogram.HistogramSum | timer_interval/count_interrupts.cpp:66-72 | the counts add up to the number of gaps |
| TimerHistogram.Tally | timer_interval/count_interrupts.cpp:66-72 | the tally loop computes the histogram of the gaps, which sums to `count` |
| TimerHistogram.TallyGap | timer_interval/measure_interval.cpp:103-106 | one gap is added to its bucket |
| TimerHistogram.NonZeroRows | timer_interval/count_interrupts.cpp:74-76 | the printed rows are exactly the nonzero buckets, in ascending order, and their counts add up to the total |
| TimerHistogram.TableUpToStep | timer_interval/count_interrupts.cpp:74-76 | each bucket examined keeps the row table correct up to that bucket |
| CountInterrupts.Recorded | timer_interval/count_interrupts.cpp:52-57 | at most one reading is stored per pass |
| CountInterrupts.CountIsChanges | timer_interval/count_interrupts.cpp:52-57 | `count` is exactly the number of passes whose sample differed from the previous one |
| CountInterrupts.NoChangeKeepsStart | timer_interval/count_interrupts.cpp:53-56 | while the sample never changes nothing is stored and `last` stays the start |
| CountInterrupts.RecordedGrows | timer_interval/count_interrupts.cpp:52-57 | more passes never store fewer readings |
| CountInterrupts.OverrunIncomplete | timer_interval/count_interrupts.cpp:48-59 | a pass that stores the 2000th change comes before the loop can complete |
| CountInterrupts.SampleLoop | timer_interval/count_interrupts.cpp:45-60 | the loop stops at the first pass a second after the start, and finishes exactly when that pass exists with fewer than 2000 changes by then; `times` holds the start and then the stored readings; `last` is the latest differing sample; running out of passes and the 2000-entry overrun are reported as such |
| CountInterrupts.CountInterrupts | timer_interval/count_interrupts.cpp:42-78 | a table exactly when the loop completes and the resolution is unchanged, made after the first expired pass: the nonzero buckets of the gaps, which add up to `count`; nothing is reported exactly when the resolution changed, and the incomplete outcomes are those of the loop |
| MeasureInterval.TimeGetTimeResolution | timer_interval/measure_interval.cpp:58-64 | spins until the clock changes, and returns the next reading minus the first: the value Resolution gives for the clock |
| MeasureInterval.FirstChange | timer_interval/measure_interval.cpp:61-62 | the first reading from `k` on that differs from the first one, or the end of the readings |
| MeasureInterval.Resolution | timer_interval/measure_interval.cpp:58-64 | no resolution exactly when no reading before the last differs from the first |
| MeasureInterval.SleepLoop | timer_interval/measure_interval.cpp:73-87 | `times[0]` is the start and each sleep stores one reading at index `iterations`; the loop finishes exactly when a pass sees a second go by before 2000 sleeps, after as many sleeps as the first such pass |
| MeasureInterval.TallyPrecise | timer_interval/measure_interval.cpp:110-112 | one rounded gap is added to its bucket |
| MeasureInterval.Histograms | timer_interval/measure_interval.cpp:100-117 | both histograms are those of the sleeps, and each sums to `iterations` |
| MeasureInterval.EitherNonZeroRows | timer_interval/measure_interval.cpp:118-121 | a row exactly for each bucket where either count is nonzero, in ascending order |
| MeasureInterval.SleepTest | timer_interval/measure_interval.cpp:66-123 | a table exactly when the clock gives a resolution, the sleep loop completes and the timer resolution is unchanged; the table carries that clock resolution, the number of sleeps up to the first expired pass and the rows of both histograms of those sleeps |
| PyText.Strip | ChromiumBuildAnalysis/analyze_chrome.py:53 | `strip()` leaves no whitespace at either end, and changes nothing already stripped |
| PyText.StripRemovesOnlyEdges | ChromiumBuildAnalysis/analyze_chrome.py:53 | the input is the stripped string with a run of whitespace before and after it, so `strip()` removes the edge whitespace and nothing else |
| PyText.Split | ChromiumBuildAnalysis/analyze_chrome.py:53 | `split(sep)` yields at least one part, and no part contains the separator |
| PyText.SplitJoin | ChromiumBuildAnalysis/analyze_chrome.py:53 | joining the parts with the separator gives back the string |
| PyText.JoinSplitChar | ChromiumBuildAnalysis/analyze_chrome.py:146-153 | splitting parts joined by a character they lack gives back the parts |
| PyText.Find | ChromiumBuildAnalysis/analyze_chrome.py:131 | the first occurrence at or after the start |
| PyText.IntToStringRoundTrip | ChromiumBuildAnalysis/analyze_chrome.py:60-61 | `int(str(n)) == n` |
| PyText.SpaceAfterSign | ProcessCreateTests/SummarizeUserCrit.py:59 | `int()` skips whitespace between the sign and the digits: `int('-' + spaces + str(n)) == -n`, and likewise with `+` |
| PyText.SignAloneRaises | ProcessCreateTests/SummarizeUserCrit.py:59 | a sign followed only by whitespace is not a number: `int('- ')` raises ValueError |
| PyText.IntToStringInjective | CfgCreateProcess/ExcessCfg/generate.py:31 | distinct integers print differently |
| PyText.PadInt | CfgCreateProcess/AnnotatedAssembly/merge.py:17 | `%5d` right-aligns the number in at least five columns |

## Left out

- Operating-system calls and output formatting: process opening, process enumeration, the
  memory query itself (an input), `VirtualAlloc` (an oracle), `timeGetTime` and
  `QueryPerformanceCounter` (inputs), timer-resolution queries (inputs), `Sleep`, and every
  `printf` with its MiB, seconds and floating-point formatting.
- VirtualScan: the answers of the memory query are a finite sequence, and its end stands for the
  query that fails past the top of the address space, so the scan also stops there.
- VirtualScan: addresses and statistics are unbounded; only `operator-` wraps modulo 2^64,
  because no scan of a 48-bit address space overflows the other sums.
- VAllocStress: the endless `VirtualAlloc`/`Sleep` stress loop of lines 113-128 and the
  `memset`/`VirtualFree` of each block.
- MeasureInterval.SleepTest: the performance-counter gap rounded to milliseconds is given as an
  input, because its computation is floating point; the `-tabbed` switch only changes printing.
- CountInterrupts.SampleLoop: the source writes past `times[2000]` when more than 1999 changes are
  seen; the model reports this as an Overrun outcome instead. Running out of input readings is an
  Exhausted outcome. Both are model artefacts of the infinite clock.
- CompareAsInt: `AlmostEqualRelative`, `AlmostEqualRelative2`, `AlmostEqualRelativeOrAbsolute`,
  `CopyPasteCode` and the printing helpers use float arithmetic and are not modelled. NaNs and
  infinities that main makes with `sqrtf` or division are fixed bit patterns (the x86 default
  NaN 0xFFC00000).
- analyze_chrome.py: running ninja, counting file lines and the command search are file and
  process I/O. The `Target` objects are values, so sharing of one `Target` between dictionary
  generations is not modelled; the one aliasing effect the deps listing depends on
  (a list stored under an object and then extended) is.
- NinjaLog.Durations: Python 2 dictionary order is unspecified, so when a name belongs to several
  entries the model only says which durations may win.
- UserCrit: the conversion of QPC units to seconds in the printed output is floating point and is
  left out; the totals print order follows the dictionary and is unspecified.
- PyText.ParseInt: accepts surrounding whitespace, one sign, whitespace after the sign and digits
  in base 10 or 16; the optional `0x` prefix Python 2 allows with base 16 is not modelled.
- SubtractTime.Elapsed: the printed float and its `%1.2f` rounding, and the extra arguments
  echoed after the difference, are output formatting; the value is exact in hundredths.
- MergeSamples.Merge and GenerateSources.Generate: opening and writing files; their contents are
  sequences of lines.
- MergeSamples.LastCount: ill-formed sample lines are passed over, because it is only used when
  every line is well formed.

## Findings

| source | as written | input that shows it | evidently intended | confidence | as-written member | corrected member |
|---|---|---|---|---|---|---|
| FloatingPoint/CompareAsInt/CompareAsInt.cpp:72 | `abs(*(int*)&A - *(int*)&B)` overflows when the patterns differ by 2^31; `abs(INT_MIN)` stays negative, so the test passes | A = 1.0f, B = -1.0f, any maxUlps: reported almost equal | a nonzero float is never almost equal to its negation | medium, not executed | FloatCompare.UlpsEqualsItsNegation | FloatCompare.AlmostEqualUlpsCorrected |
| FloatingPoint/CompareAsInt/CompareAsInt.cpp:93 | after the remap, 2.0 and -2.0 are 0x40000000 and -0x40000000; their difference wraps to `INT_MIN`, whose `abs` is negative | A = 2.0f, B = -2.0f, any maxUlps: reported almost equal | 2.0 and -2.0 are 2^31 ulps apart and not almost equal | medium, not executed | FloatCompare.TwosComplementTwoEqualsMinusTwo | FloatCompare.AlmostEqual2sComplementCorrected |
