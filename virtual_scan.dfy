/**
 * The address-space scan of VirtualScan (cfg/VirtualScan/VirtualScan.cpp).
 *
 * The scanner walks a process's address space region by region, starting at
 * address 0. Each answer of the OS query gives one region's size, state,
 * protection and allocation base. The scanner sums committed bytes and blocks,
 * counts executable blocks, estimates how many page-table pages x86-64
 * four-level paging needs for the committed ranges, and records the stats of
 * the allocation group that spans exactly 2 TiB (the CFG reservation).
 *
 * The OS query is replaced by the sequence of its answers in call order: the
 * first `Failure` ends the scan. Addresses and counters are unbounded naturals;
 * only `operator-` on `stats` wraps, as `size_t` subtraction does.
 */
module VirtualScan {

  // Page-table geometry: one bottom-level page-table page maps 2 MiB, and each
  // level up maps 512 times as much (4 KiB pages of 8-byte entries).
  const PAGE_SIZE: nat := 4096
  const L4_RANGE: nat := 2 * 1024 * 1024
  const L3_RANGE: nat := L4_RANGE * 512
  const L2_RANGE: nat := L3_RANGE * 512
  /** The stride of the inner walk through a committed region. */
  const SCAN_STEP: nat := 4096 * 512
  /** The span of the one allocation group taken to be the CFG reservation: 2 TiB. */
  const CFG_RESERVATION_SIZE: int := 0x200_0000_0000
  /** The initial "last base" of each page-table level; no aligned base equals it. */
  const NOT_A_BASE: nat := 1
  /** `size_t` arithmetic is modulo 2^64. */
  const SIZE_T_MODULUS: nat := 0x1_0000_0000_0000_0000

  // The four protection values the scanner counts as code (winnt.h values).
  const PAGE_EXECUTE: nat := 0x10
  const PAGE_EXECUTE_READ: nat := 0x20
  const PAGE_EXECUTE_READWRITE: nat := 0x40
  const PAGE_EXECUTE_WRITECOPY: nat := 0x80

  datatype MemState = Commit | Reserve | Free

  /** The part of one MEMORY_BASIC_INFORMATION answer the scanner reads. */
  datatype Region = Region(size: nat, state: MemState, protect: nat, allocationBase: nat)

  /** One answer of the region query: a region, or a failed query. */
  datatype Answer = Success(info: Region) | Failure

  /** The `stats` record, without its tick fields. */
  datatype Stats = Stats(commit: nat, blocks: nat, pageTablePages: nat)

  const NO_STATS := Stats(0, 0, 0)

  /** Exactly the four PAGE_EXECUTE* values; combinations with other flags do not count. */
  predicate IsCodeProtection(protect: nat) {
    protect == PAGE_EXECUTE || protect == PAGE_EXECUTE_READ ||
    protect == PAGE_EXECUTE_READWRITE || protect == PAGE_EXECUTE_WRITECOPY
  }

  /** `size_t` subtraction. */
  function SizeSub(a: nat, b: nat): (r: nat)
    ensures r < SIZE_T_MODULUS
    ensures (r + b - a) % SIZE_T_MODULUS == 0
    ensures b <= a < SIZE_T_MODULUS ==> r == a - b
  {
    (a - b) % SIZE_T_MODULUS
  }

  /** `operator-` on `stats`: the field-wise wrapped difference. */
  function Sub(lhs: Stats, rhs: Stats): (r: Stats)
    ensures rhs.commit <= lhs.commit < SIZE_T_MODULUS ==> r.commit == lhs.commit - rhs.commit
    ensures rhs.blocks <= lhs.blocks < SIZE_T_MODULUS ==> r.blocks == lhs.blocks - rhs.blocks
    ensures rhs.pageTablePages <= lhs.pageTablePages < SIZE_T_MODULUS ==>
              r.pageTablePages == lhs.pageTablePages - rhs.pageTablePages
    ensures r.commit < SIZE_T_MODULUS && r.blocks < SIZE_T_MODULUS && r.pageTablePages < SIZE_T_MODULUS
  {
    Stats(SizeSub(lhs.commit, rhs.commit), SizeSub(lhs.blocks, rhs.blocks),
          SizeSub(lhs.pageTablePages, rhs.pageTablePages))
  }

  /** `a & ~(range - 1)` for a power-of-two `range`. */
  function AlignDown(a: nat, range: nat): (r: nat)
    requires range > 0
    ensures r <= a < r + range
  {
    (a / range) * range
  }

  // ---------------------------------------------------------------------------
  // Page-table estimate: the inner 2 MiB walk

  /** The last aligned base seen at each of the three lower levels, and the page count. */
  datatype Tables = Tables(l4: nat, l3: nat, l2: nat, pages: nat)

  /**
   * The three bases are those of one address (each level's base is the one above it aligned
   * down further), or all three are still the sentinel.
   */
  predicate Nested(t: Tables) {
    || (t.l4 == NOT_A_BASE && t.l3 == NOT_A_BASE && t.l2 == NOT_A_BASE)
    || (AlignDown(t.l4, L4_RANGE) == t.l4 && t.l3 == AlignDown(t.l4, L3_RANGE) && t.l2 == AlignDown(t.l4, L2_RANGE))
  }

  /** `x` written as `q` whole `d`s plus a remainder below `d` has quotient `q`. */
  lemma Quotient(x: int, q: int, r: int, d: int)
    requires d > 0 && x == q * d + r && 0 <= r < d
    ensures x / d == q
  {
    var q', r' := x / d, x % d;
    assert (q - q') * d == r' - r;
    if q > q' {
      assert (q - q') * d >= d by { MulAtLeast(q - q', d); }
    } else if q < q' {
      assert (q' - q) * d >= d by { MulAtLeast(q' - q, d); }
    }
  }

  lemma MulAtLeast(n: int, d: int)
    requires n >= 1 && d > 0
    ensures n * d >= d
  {
  }

  lemma MulLe(m: nat, n: nat, d: nat)
    requires m <= n
    ensures m * d <= n * d
  {
  }

  /** Aligning `q * d + r` down to `d`, with `r` below `d`, gives `q * d`. */
  lemma AlignDownOf(x: nat, d: nat, q: nat, r: nat)
    requires d > 0 && x == q * d + r && r < d
    ensures AlignDown(x, d) == q * d
  {
    Quotient(x, q, r, d);
  }

  /** `q * k + s` whole `range`s, with `s` below `k`, regrouped into whole `range * k` blocks. */
  lemma Regroup(q: nat, k: nat, s: nat, range: nat)
    requires s < k
    ensures (q * k + s) * range == q * (range * k) + s * range
    ensures s * range + range <= range * k
  {
    assert (s + 1) * range <= k * range by { MulLe(s + 1, k, range); }
  }

  /** Aligning down to `range` and then to `range * k` is aligning down to `range * k`. */
  lemma AlignTwice(a: nat, range: nat, k: nat)
    requires range > 0 && k > 0
    ensures AlignDown(AlignDown(a, range), range) == AlignDown(a, range)
    ensures AlignDown(AlignDown(a, range), range * k) == AlignDown(a, range * k)
  {
    var q, r := a / range, a % range;
    var q2, s := q / k, q % k;
    var b := AlignDown(a, range);
    hide AlignDown;
    AlignDownOf(a, range, q, r);
    AlignDownOf(b, range, q, 0);
    Regroup(q2, k, s, range);
    AlignDownOf(b, range * k, q2, s * range);
    AlignDownOf(a, range * k, q2, s * range + r);
  }

  /** One step of the inner loop at address `a`: a new page for each level whose aligned base moved. */
  function Touch(t: Tables, a: nat): (r: Tables)
    ensures r.l4 == AlignDown(a, L4_RANGE) && r.l3 == AlignDown(a, L3_RANGE) && r.l2 == AlignDown(a, L2_RANGE)
    ensures t.pages <= r.pages <= t.pages + 3
    ensures r.pages == t.pages <==> (t.l4 == r.l4 && t.l3 == r.l3 && t.l2 == r.l2)
    ensures r.pages == t.pages + 3 <==> (t.l4 != r.l4 && t.l3 != r.l3 && t.l2 != r.l2)
  {
    var l4 := AlignDown(a, L4_RANGE);
    var l3 := AlignDown(a, L3_RANGE);
    var l2 := AlignDown(a, L2_RANGE);
    var pages := t.pages + (if l4 != t.l4 then 1 else 0) + (if l3 != t.l3 then 1 else 0)
                         + (if l2 != t.l2 then 1 else 0);
    Tables(l4, l3, l2, pages)
  }

  /**
   * A step keeps the bases nested. From nested bases a higher level moves only when every lower
   * one does, so the step adds one page when only the 2 MiB base moved, two when the 1 GiB base
   * moved too, and three when the 512 GiB base moved as well.
   */
  lemma TouchNested(t: Tables, a: nat)
    ensures Nested(Touch(t, a))
    ensures Nested(t) ==> var r := Touch(t, a);
      && (t.l3 != r.l3 ==> t.l4 != r.l4) && (t.l2 != r.l2 ==> t.l3 != r.l3)
      && (r.pages == t.pages <==> t.l4 == r.l4)
      && (r.pages == t.pages + 1 <==> t.l4 != r.l4 && t.l3 == r.l3)
      && (r.pages == t.pages + 2 <==> t.l3 != r.l3 && t.l2 == r.l2)
      && (r.pages == t.pages + 3 <==> t.l2 != r.l2)
  {
    AlignTwice(a, L4_RANGE, 512);
    AlignTwice(a, L3_RANGE, 512);
    AlignTwice(AlignDown(a, L4_RANGE), L3_RANGE, 512);
    AlignTwice(t.l4, L3_RANGE, 512);
    // the sentinel is aligned at no level
    AlignDownOf(NOT_A_BASE, L4_RANGE, 0, NOT_A_BASE);
    AlignDownOf(NOT_A_BASE, L3_RANGE, 0, NOT_A_BASE);
    AlignDownOf(NOT_A_BASE, L2_RANGE, 0, NOT_A_BASE);
    AlignTwice(a, L2_RANGE, 1);
    hide AlignDown;
  }

  /** The number of inner-loop iterations for the committed range [from, end). */
  function NumSteps(from: nat, end: nat): nat
    decreases end - from
  {
    if from < end then 1 + NumSteps(from + SCAN_STEP, end) else 0
  }

  /** The inner loop `for (p_scan = from; p_scan < end; p_scan += 2 MiB)`. */
  function Walk(t: Tables, from: nat, end: nat): (r: Tables)
    decreases end - from
    ensures t.pages <= r.pages <= t.pages + 3 * NumSteps(from, end)
    ensures from >= end ==> r == t
  {
    if from < end then Walk(Touch(t, from), from + SCAN_STEP, end) else t
  }

  /** The inner walk keeps the bases nested. */
  lemma {:induction false} WalkNested(t: Tables, from: nat, end: nat)
    requires Nested(t)
    ensures Nested(Walk(t, from, end))
    decreases end - from
  {
    if from < end {
      TouchNested(t, from);
      WalkNested(Touch(t, from), from + SCAN_STEP, end);
    }
  }

  /** No aligned base is the sentinel, so the first step of a scan adds a page at every level. */
  lemma FirstTouchAddsThree(pages: nat, a: nat)
    ensures Touch(Tables(NOT_A_BASE, NOT_A_BASE, NOT_A_BASE, pages), a).pages == pages + 3
  {
    assert AlignDown(a, L4_RANGE) == (a / L4_RANGE) * L4_RANGE;
    assert AlignDown(a, L3_RANGE) == (a / L3_RANGE) * L3_RANGE;
    assert AlignDown(a, L2_RANGE) == (a / L2_RANGE) * L2_RANGE;
  }

  // ---------------------------------------------------------------------------
  // The outer loop, as a function of the regions seen so far

  /** The scanner's local variables between two queries. */
  datatype ScanState = ScanState(
    cursor: nat,           // p
    scan: Stats,           // scan_stats
    l4: nat, l3: nat, l2: nat,  // cur_base_l4, cur_base_l3, cur_base_l2
    codeBlocks: nat,       // code_blocks
    curBase: nat,          // cur_base
    curBaseStats: Stats,   // cur_base_stats
    cfg: Stats)            // cfg_stats

  /** The state before the first query: one top-level page-table page, sentinel bases, cursor at 0. */
  function Init(): ScanState {
    ScanState(0, Stats(0, 0, 1), NOT_A_BASE, NOT_A_BASE, NOT_A_BASE, 0, 0, NO_STATS, NO_STATS)
  }

  /**
   * Entering a region with allocation base `base`: when the base changes, the group
   * that just ended is recorded as the CFG reservation if it spanned exactly 2 TiB,
   * and a new group starts with a snapshot of the running stats.
   */
  function EnterGroup(s: ScanState, base: nat): (r: ScanState)
    ensures r.cursor == s.cursor && r.scan == s.scan && r.codeBlocks == s.codeBlocks
    ensures r.l4 == s.l4 && r.l3 == s.l3 && r.l2 == s.l2
    ensures r.curBase == base
    ensures base == s.curBase ==> r == s
    ensures base != s.curBase ==> r.curBaseStats == s.scan
    ensures r.cfg != s.cfg ==> base != s.curBase && s.cursor - s.curBase == CFG_RESERVATION_SIZE
    ensures base != s.curBase && s.cursor - s.curBase == CFG_RESERVATION_SIZE ==>
              r.cfg == Sub(s.scan, s.curBaseStats)
  {
    if base != s.curBase then
      var cfg := if s.cursor - s.curBase == CFG_RESERVATION_SIZE then Sub(s.scan, s.curBaseStats) else s.cfg;
      s.(cfg := cfg, curBaseStats := s.scan, curBase := base)
    else s
  }

  /** The bases of a state's page-table levels, with its page count. */
  function TablesOf(s: ScanState): Tables {
    Tables(s.l4, s.l3, s.l2, s.scan.pageTablePages)
  }

  /** The committed-region branch: commit, page-table walk, block and code-block counts. */
  function CommitRegion(s: ScanState, r: Region): (n: ScanState)
    ensures n.scan.commit == s.scan.commit + r.size && n.scan.blocks == s.scan.blocks + 1
    ensures s.scan.pageTablePages <= n.scan.pageTablePages
              <= s.scan.pageTablePages + 3 * NumSteps(s.cursor, s.cursor + r.size)
    ensures n.codeBlocks == s.codeBlocks + (if IsCodeProtection(r.protect) then 1 else 0)
    ensures n.cursor == s.cursor && n.curBase == s.curBase && n.curBaseStats == s.curBaseStats && n.cfg == s.cfg
  {
    var t := Walk(TablesOf(s), s.cursor, s.cursor + r.size);
    s.(scan := Stats(s.scan.commit + r.size, s.scan.blocks + 1, t.pages),
       l4 := t.l4, l3 := t.l3, l2 := t.l2,
       codeBlocks := if IsCodeProtection(r.protect) then s.codeBlocks + 1 else s.codeBlocks)
  }

  /** One successful query: group bookkeeping, the committed branch, then `p += RegionSize`. */
  function Step(s: ScanState, r: Region): (n: ScanState)
    ensures n.cursor == s.cursor + r.size
    ensures r.state == Commit ==> n.scan.commit == s.scan.commit + r.size && n.scan.blocks == s.scan.blocks + 1
    ensures r.state != Commit ==> n.scan == s.scan && n.l4 == s.l4 && n.l3 == s.l3 && n.l2 == s.l2
    ensures s.scan.pageTablePages <= n.scan.pageTablePages
    ensures n.codeBlocks == s.codeBlocks + (if r.state == Commit && IsCodeProtection(r.protect) then 1 else 0)
    ensures n.curBase == r.allocationBase
    ensures r.allocationBase == s.curBase ==> n.cfg == s.cfg && n.curBaseStats == s.curBaseStats
    ensures r.allocationBase != s.curBase ==> n.curBaseStats == s.scan
    ensures n.cfg != s.cfg ==> r.allocationBase != s.curBase && s.cursor - s.curBase == CFG_RESERVATION_SIZE
    ensures r.allocationBase != s.curBase && s.cursor - s.curBase == CFG_RESERVATION_SIZE ==>
              n.cfg == Sub(s.scan, s.curBaseStats)
  {
    var g := EnterGroup(s, r.allocationBase);
    var c := if r.state == Commit then CommitRegion(g, r) else g;
    c.(cursor := c.cursor + r.size)
  }

  /** The state after the regions `rs`, in query order. */
  function Run(rs: seq<Region>): ScanState
    decreases |rs|
  {
    if rs == [] then Init() else Step(Run(rs[..|rs| - 1]), rs[|rs| - 1])
  }

  lemma RunEmpty()
    ensures Run([]) == Init()
  {
  }

  lemma RunSnoc(rs: seq<Region>, i: nat)
    requires i < |rs|
    ensures Run(rs[..i + 1]) == Step(Run(rs[..i]), rs[i])
  {
    assert rs[..i + 1][..i] == rs[..i];
  }

  /** Every state the scan reaches holds nested bases, so each inner step counts pages as `TouchNested` says. */
  lemma {:induction false} RunNested(rs: seq<Region>)
    ensures Nested(TablesOf(Run(rs)))
    decreases |rs|
  {
    if rs != [] {
      var s := Run(rs[..|rs| - 1]);
      var r := rs[|rs| - 1];
      RunNested(rs[..|rs| - 1]);
      var g := EnterGroup(s, r.allocationBase);
      if r.state == Commit {
        WalkNested(TablesOf(g), g.cursor, g.cursor + r.size);
      }
    }
  }

  /** The regions the scan visits: the answers up to the first failed query. */
  function Regions(answers: seq<Answer>): (rs: seq<Region>)
    ensures |rs| <= |answers|
    ensures forall i :: 0 <= i < |rs| ==> answers[i] == Success(rs[i])
    ensures |rs| < |answers| ==> answers[|rs|].Failure?
  {
    if answers == [] || answers[0].Failure? then [] else [answers[0].info] + Regions(answers[1..])
  }

  /** What ScanProcess reports: total stats (commit including page tables), code blocks, CFG stats. */
  datatype Report = Report(total: Stats, codeBlocks: nat, cfg: Stats)

  /** The final accounting: page-table pages are added to the total commit, not to the CFG commit. */
  function Finish(s: ScanState): (r: Report)
    ensures r.total.commit == s.scan.commit + s.scan.pageTablePages * PAGE_SIZE
    ensures r.total.blocks == s.scan.blocks && r.total.pageTablePages == s.scan.pageTablePages
    ensures r.codeBlocks == s.codeBlocks && r.cfg == s.cfg
  {
    Report(s.scan.(commit := s.scan.commit + s.scan.pageTablePages * PAGE_SIZE), s.codeBlocks, s.cfg)
  }

  // ---------------------------------------------------------------------------
  // Reference sums over the visited regions

  function TotalSize(rs: seq<Region>): nat
    decreases |rs|
  {
    if rs == [] then 0 else TotalSize(rs[..|rs| - 1]) + rs[|rs| - 1].size
  }

  function CommittedBytes(rs: seq<Region>): nat
    decreases |rs|
  {
    if rs == [] then 0
    else CommittedBytes(rs[..|rs| - 1]) + (if rs[|rs| - 1].state == Commit then rs[|rs| - 1].size else 0)
  }

  function CommittedBlocks(rs: seq<Region>): nat
    decreases |rs|
  {
    if rs == [] then 0
    else CommittedBlocks(rs[..|rs| - 1]) + (if rs[|rs| - 1].state == Commit then 1 else 0)
  }

  function CodeBlocks(rs: seq<Region>): nat
    decreases |rs|
  {
    if rs == [] then 0
    else
      var r := rs[|rs| - 1];
      CodeBlocks(rs[..|rs| - 1]) + (if r.state == Commit && IsCodeProtection(r.protect) then 1 else 0)
  }

  /** The number of 2 MiB steps the inner loop takes over all committed regions. */
  function WalkSteps(rs: seq<Region>): nat
    decreases |rs|
  {
    if rs == [] then 0
    else
      var init := rs[..|rs| - 1];
      var r := rs[|rs| - 1];
      WalkSteps(init) + (if r.state == Commit then NumSteps(TotalSize(init), TotalSize(init) + r.size) else 0)
  }

  /**
   * The scan's totals: the cursor is the sum of the region sizes, commit and blocks
   * count exactly the committed regions, code blocks exactly the committed ones with an
   * execute protection, and the page-table estimate is between 1 and 1 + 3 per step.
   */
  lemma {:induction false} RunTotals(rs: seq<Region>)
    decreases |rs|
    ensures Run(rs).cursor == TotalSize(rs)
    ensures Run(rs).scan.commit == CommittedBytes(rs)
    ensures Run(rs).scan.blocks == CommittedBlocks(rs)
    ensures Run(rs).codeBlocks == CodeBlocks(rs) <= CommittedBlocks(rs)
    ensures 1 <= Run(rs).scan.pageTablePages <= 1 + 3 * WalkSteps(rs)
  {
    if rs != [] {
      var init := rs[..|rs| - 1];
      RunTotals(init);
      var s := Run(init);
      var r := rs[|rs| - 1];
      var g := EnterGroup(s, r.allocationBase);
      if r.state == Commit {
        assert g.cursor == TotalSize(init);
        assert Run(rs).scan.pageTablePages == CommitRegion(g, r).scan.pageTablePages;
      }
    }
  }

  /** The page-table estimate never decreases as the scan goes on. */
  lemma {:induction false} PagesNeverDecrease(rs: seq<Region>, k: nat)
    requires k <= |rs|
    decreases |rs|
    ensures Run(rs[..k]).scan.pageTablePages <= Run(rs).scan.pageTablePages
  {
    if k < |rs| {
      var init := rs[..|rs| - 1];
      assert rs[..k] == init[..k];
      PagesNeverDecrease(init, k);
    } else {
      assert rs[..k] == rs;
    }
  }

  /** The group snapshot never runs ahead of the running stats, so the CFG delta never wraps below zero. */
  lemma {:induction false} SnapshotBelowRunning(rs: seq<Region>)
    decreases |rs|
    ensures Run(rs).curBaseStats.commit <= Run(rs).scan.commit
    ensures Run(rs).curBaseStats.blocks <= Run(rs).scan.blocks
    ensures Run(rs).curBaseStats.pageTablePages <= Run(rs).scan.pageTablePages
  {
    if rs != [] {
      SnapshotBelowRunning(rs[..|rs| - 1]);
    }
  }

  /**
   * While the allocation base stays the same, the group snapshot and the recorded CFG
   * stats stay as they were: a group that is still open when the queries end is never
   * recorded, however large it is.
   */
  lemma {:induction false} OpenGroupNotRecorded(rs: seq<Region>, tail: seq<Region>)
    requires forall i :: 0 <= i < |tail| ==> tail[i].allocationBase == Run(rs).curBase
    decreases |tail|
    ensures Run(rs + tail).cfg == Run(rs).cfg
    ensures Run(rs + tail).curBase == Run(rs).curBase
    ensures Run(rs + tail).curBaseStats == Run(rs).curBaseStats
  {
    if tail != [] {
      var front := tail[..|tail| - 1];
      OpenGroupNotRecorded(rs, front);
      assert (rs + tail)[..|rs + tail| - 1] == rs + front;
      var last := tail[|tail| - 1];
      assert (rs + tail)[|rs + tail| - 1] == last;
      assert Run(rs + tail) == Step(Run(rs + front), last);
      assert last.allocationBase == Run(rs + front).curBase;
    } else {
      assert rs + tail == rs;
    }
  }

  /**
   * The CFG record is the stats accumulated within one group: if the region at `k`
   * opens a group, the regions up to `j` stay in it, and the region at `j` starts
   * another group when the cursor is exactly 2 TiB past the group's base, then the
   * recorded stats are the running stats at `j` minus those at `k`.
   */
  lemma GroupDelta(rs: seq<Region>, k: nat, j: nat)
    requires k < j < |rs|
    requires rs[k].allocationBase != Run(rs[..k]).curBase
    requires forall i :: k <= i < j ==> rs[i].allocationBase == rs[k].allocationBase
    requires rs[j].allocationBase != rs[k].allocationBase
    requires TotalSize(rs[..j]) - rs[k].allocationBase == CFG_RESERVATION_SIZE
    ensures Run(rs[..j + 1]).cfg == Sub(Run(rs[..j]).scan, Run(rs[..k]).scan)
  {
    InsideGroup(rs, k, j);
    LeaveGroup(rs, j, rs[k].allocationBase, Run(rs[..k]).scan);
  }

  /** Region `k` opens a group: the state after it has that base and a snapshot of the stats before it. */
  lemma EnterGroupAt(rs: seq<Region>, k: nat)
    requires k < |rs| && rs[k].allocationBase != Run(rs[..k]).curBase
    ensures Run(rs[..k + 1]).curBase == rs[k].allocationBase
    ensures Run(rs[..k + 1]).curBaseStats == Run(rs[..k]).scan
  {
    hide Step;
    assert rs[..k + 1][..k] == rs[..k];
  }

  /** Up to region `j` the group opened at `k` is still the current one, with the same snapshot. */
  lemma InsideGroup(rs: seq<Region>, k: nat, j: nat)
    requires k < j <= |rs|
    requires rs[k].allocationBase != Run(rs[..k]).curBase
    requires forall i :: k <= i < j ==> rs[i].allocationBase == rs[k].allocationBase
    ensures Run(rs[..j]).curBase == rs[k].allocationBase
    ensures Run(rs[..j]).curBaseStats == Run(rs[..k]).scan
  {
    EnterGroupAt(rs, k);
    var entered := rs[..k + 1];
    var tail := rs[k + 1..j];
    assert forall i :: 0 <= i < |tail| ==> tail[i] == rs[k + 1 + i];
    OpenGroupNotRecorded(entered, tail);
    assert entered + tail == rs[..j];
  }

  /** Region `j` leaves a group with base `base` that spans exactly 2 TiB: the group's stats are recorded. */
  lemma LeaveGroup(rs: seq<Region>, j: nat, base: nat, snapshot: Stats)
    requires j < |rs| && rs[j].allocationBase != base
    requires Run(rs[..j]).curBase == base && Run(rs[..j]).curBaseStats == snapshot
    requires TotalSize(rs[..j]) - base == CFG_RESERVATION_SIZE
    ensures Run(rs[..j + 1]).cfg == Sub(Run(rs[..j]).scan, snapshot)
  {
    hide Step;
    RunTotals(rs[..j]);
    assert rs[..j + 1][..j] == rs[..j];
  }

  /** Answers after the first failed query are never read. */
  lemma {:induction false} StopsAtFirstFailure(before: seq<Answer>, after: seq<Answer>)
    decreases |before|
    ensures Regions(before + [Failure] + after) == Regions(before)
  {
    if before != [] && before[0].Success? {
      assert (before + [Failure] + after)[1..] == before[1..] + [Failure] + after;
      StopsAtFirstFailure(before[1..], after);
    }
  }

  // ---------------------------------------------------------------------------
  // ScanProcess

  /** The inner loop of ScanProcess: walk a committed region in 2 MiB steps from its start. */
  method WalkPageTables(t: Tables, p: nat, size: nat) returns (r: Tables)
    ensures r == Walk(t, p, p + size)
    ensures t.pages <= r.pages <= t.pages + 3 * NumSteps(p, p + size)
  {
    var curBaseL4, curBaseL3, curBaseL2, pages := t.l4, t.l3, t.l2, t.pages;
    var pScan := p;
    while pScan < p + size
      invariant Walk(Tables(curBaseL4, curBaseL3, curBaseL2, pages), pScan, p + size) == Walk(t, p, p + size)
      decreases p + size - pScan
    {
      var l4 := AlignDown(pScan, L4_RANGE);
      var l3 := AlignDown(pScan, L3_RANGE);
      var l2 := AlignDown(pScan, L2_RANGE);
      if l4 != curBaseL4 {
        curBaseL4 := l4;
        pages := pages + 1;
      }
      if l3 != curBaseL3 {
        curBaseL3 := l3;
        pages := pages + 1;
      }
      if l2 != curBaseL2 {
        curBaseL2 := l2;
        pages := pages + 1;
      }
      pScan := pScan + SCAN_STEP;
    }
    r := Tables(curBaseL4, curBaseL3, curBaseL2, pages);
  }

  /** The scan loop of ScanProcess over the answers of the region query. */
  method ScanProcess(answers: seq<Answer>) returns (report: Report)
    ensures report == Finish(Run(Regions(answers)))
    ensures report.total.commit == CommittedBytes(Regions(answers)) + report.total.pageTablePages * PAGE_SIZE
    ensures report.total.blocks == CommittedBlocks(Regions(answers))
    ensures report.codeBlocks == CodeBlocks(Regions(answers)) <= report.total.blocks
    ensures 1 <= report.total.pageTablePages <= 1 + 3 * WalkSteps(Regions(answers))
  {
    hide Run;
    ghost var rs := Regions(answers);
    RunEmpty();
    var scanStats := Stats(0, 0, 1);
    var curBaseL4, curBaseL3, curBaseL2 := NOT_A_BASE, NOT_A_BASE, NOT_A_BASE;
    var codeBlocks := 0;
    var curBase: nat := 0;
    var curBaseStats := NO_STATS;
    var cfgStats := NO_STATS;
    var p: nat := 0;
    var i := 0;
    while i < |answers| && answers[i].Success?
      invariant 0 <= i <= |rs|
      invariant ScanState(p, scanStats, curBaseL4, curBaseL3, curBaseL2, codeBlocks, curBase, curBaseStats, cfgStats)
                == Run(rs[..i])
    {
      var info := answers[i].info;
      if info.allocationBase != curBase {
        var curBaseSize := p - curBase;
        if curBaseSize == CFG_RESERVATION_SIZE {
          cfgStats := Sub(scanStats, curBaseStats);
        }
        curBaseStats := scanStats;
        curBase := info.allocationBase;
      }
      if info.state == Commit {
        var tables := WalkPageTables(Tables(curBaseL4, curBaseL3, curBaseL2, scanStats.pageTablePages), p, info.size);
        curBaseL4, curBaseL3, curBaseL2 := tables.l4, tables.l3, tables.l2;
        scanStats := Stats(scanStats.commit + info.size, scanStats.blocks, tables.pages);
        scanStats := scanStats.(blocks := scanStats.blocks + 1);
        if IsCodeProtection(info.protect) {
          codeBlocks := codeBlocks + 1;
        }
      }
      p := p + info.size;
      RunSnoc(rs, i);
      i := i + 1;
    }
    assert rs[..i] == rs;
    RunTotals(rs);
    scanStats := scanStats.(commit := scanStats.commit + scanStats.pageTablePages * PAGE_SIZE);
    report := Report(scanStats, codeBlocks, cfgStats);
  }
}
