/**
 * VAllocStress: picks an allocation pattern from its first argument, allocates and frees
 * executable blocks at multiples of a stride below 256 TiB, and estimates the CFG (Control
 * Flow Guard) bitmap memory those allocations leave behind. `VirtualAlloc` becomes an oracle
 * telling whether the allocation at a given address succeeds.
 */
module VAllocStress {
  import opened PyText

  /** The allocation loop stops at this address: 256 TiB. */
  const ADDRESS_LIMIT: nat := 0x1_0000_0000_0000

  /** The mode used when no argument is given. */
  const DEFAULT_MODE: string := "-fewbigblocks"

  datatype Mode = OneBigBlock | FewBigBlocks | ManyBlocks | SuperSparse | Unrecognised

  datatype Config = Config(numAllocs: nat, allocSize: nat, allocStride: nat)

  /**
   * The mode `_stricmp` selects for an argument. The names compared against are already in
   * lower case, so `_stricmp(arg, name) == 0` holds exactly when `arg` lower-cases to `name`.
   */
  function ModeNamed(arg: string): Mode {
    var key := Lower(arg);
    if key == "-onebigblock" then OneBigBlock
    else if key == "-fewbigblocks" then FewBigBlocks
    else if key == "-manyblocks" then ManyBlocks
    else if key == "-supersparse" then SuperSparse
    else Unrecognised
  }

  /** The mode named by `argv[1]`, or by the default when there is no argument. */
  function ModeOf(argv: seq<string>): Mode {
    ModeNamed(if |argv| > 1 then argv[1] else DEFAULT_MODE)
  }

  /** What each branch assigns, starting from 1 allocation of 4 KiB with a 256 KiB stride. */
  function Selected(mode: Mode): Config {
    match mode
    case OneBigBlock => Config(1, 64 * 1024 * 1024 * 64, 256 * 1024)
    case FewBigBlocks => Config(128, 1024 * 1024 * 1024, 2 * (1024 * 1024 * 1024))
    case ManyBlocks => Config(20000, 1024 * 1024, 256 * 1024)
    case SuperSparse => Config(12800, 4 * 1024, 10 * (1024 * 1024 * 1024))
    case Unrecognised => Config(100, 128 * (1024 * 1024), 256 * 1024)
  }

  /** The stride is raised to the allocation size when it is smaller. */
  function Clamp(c: Config): (r: Config)
    ensures r.numAllocs == c.numAllocs && r.allocSize == c.allocSize
    ensures r.allocStride >= r.allocSize && r.allocStride >= c.allocStride
    ensures r.allocStride == c.allocStride || r.allocStride == c.allocSize
  {
    if c.allocSize > c.allocStride then c.(allocStride := c.allocSize) else c
  }

  /** The configuration a mode ends up with. */
  function Effective(mode: Mode): Config {
    Clamp(Selected(mode))
  }

  /** The configuration in effect after argument parsing. */
  function Configuration(argv: seq<string>): Config {
    Effective(ModeOf(argv))
  }

  /** Lower-casing twice changes nothing more. */
  lemma LowerIdempotent(s: string)
    ensures Lower(Lower(s)) == Lower(s)
  {
    forall i | 0 <= i < |s|
      ensures Lower(Lower(s))[i] == Lower(s)[i]
    {
      assert LowerChar(LowerChar(s[i])) == LowerChar(s[i]);
    }
  }

  /** Mode names are matched case-insensitively: an argument selects the same mode as its lower-case form. */
  lemma ModeIgnoresCase(arg: string)
    ensures ModeNamed(arg) == ModeNamed(Lower(arg))
  {
    LowerIdempotent(arg);
  }

  /** Without an argument the mode is `-fewbigblocks`. */
  lemma DefaultMode(argv: seq<string>)
    requires |argv| <= 1
    ensures ModeOf(argv) == FewBigBlocks
  {
    DefaultIsLowerCase();
    assert DEFAULT_MODE != "-onebigblock" by {
      assert |DEFAULT_MODE| == 13;
    }
  }

  lemma DefaultIsLowerCase()
    ensures Lower(DEFAULT_MODE) == DEFAULT_MODE
  {
    var s := DEFAULT_MODE;
    assert forall i :: 0 <= i < |s| ==> 'a' <= s[i] <= 'z' || s[i] == '-';
    LowerNoUpper(s);
  }

  /** A string without upper-case letters is its own lower-case form. */
  lemma LowerNoUpper(s: string)
    requires forall i :: 0 <= i < |s| ==> !('A' <= s[i] <= 'Z')
    ensures Lower(s) == s
  {
  }

  /** The effective configuration of every mode, after the stride clamp. */
  lemma ConfigurationTable(mode: Mode)
    ensures var c := Effective(mode);
      match mode
      case OneBigBlock => c == Config(1, 0x1_0000_0000, 0x1_0000_0000)
      case FewBigBlocks => c == Config(128, 0x4000_0000, 0x8000_0000)
      case ManyBlocks => c == Config(20000, 0x10_0000, 0x10_0000)
      case SuperSparse => c == Config(12800, 0x1000, 0x2_8000_0000)
      case Unrecognised => c == Config(100, 0x800_0000, 0x800_0000)
  {
  }

  /** After configuration the stride covers the allocation, and neither is below one 4 KiB page. */
  lemma StrideCoversSize(mode: Mode)
    ensures var c := Effective(mode);
      c.allocStride >= c.allocSize >= 0x1000 && c.numAllocs >= 1
  {
    ConfigurationTable(mode);
  }

  /** The method form of the branches in `main`: reassigns the three settings as the source does. */
  method Configure(argv: seq<string>) returns (numAllocs: nat, allocSize: nat, allocStride: nat, recognised: bool)
    ensures Config(numAllocs, allocSize, allocStride) == Configuration(argv)
    ensures allocStride >= allocSize
    ensures recognised <==> ModeOf(argv) != Unrecognised
  {
    var arg := DEFAULT_MODE;
    if |argv| > 1 {
      arg := argv[1];
    }
    numAllocs := 1;
    allocSize := 4 * 1024;
    allocStride := 256 * 1024;
    recognised := true;
    var key := Lower(arg);
    if key == "-onebigblock" {
      var targetCfgSize := 64 * 1024 * 1024;
      allocSize := targetCfgSize * 64;
    } else if key == "-fewbigblocks" {
      numAllocs := 128;
      allocSize := 1024 * 1024 * 1024;
      allocStride := allocSize;
      allocStride := allocStride * 2;
    } else if key == "-manyblocks" {
      numAllocs := 20000;
      allocSize := 1024 * 1024;
    } else if key == "-supersparse" {
      numAllocs := 12800;
      allocStride := 10 * (1024 * 1024 * 1024);
    } else {
      numAllocs := 100;
      allocSize := 128 * (1024 * 1024);
      recognised := false;
    }
    if allocSize > allocStride {
      allocStride := allocSize;
    }
  }

  // ---------------------------------------------------------------------------
  // The allocation loop

  /** How many of the offsets `stride, 2 * stride, ..., n * stride` the oracle lets succeed. */
  function Successes(stride: nat, n: nat, succeeds: nat -> bool): (r: nat)
    ensures r <= n
  {
    if n == 0 then 0 else Successes(stride, n - 1, succeeds) + (if succeeds(n * stride) then 1 else 0)
  }

  /** When every allocation succeeds, every attempt counts. */
  lemma {:induction false} AllSucceed(stride: nat, n: nat, succeeds: nat -> bool)
    requires forall offset :: succeeds(offset)
    ensures Successes(stride, n, succeeds) == n
  {
    if n > 0 {
      AllSucceed(stride, n - 1, succeeds);
    }
  }

  lemma MulMonotone(a: nat, b: nat, c: nat)
    requires a <= b
    ensures a * c <= b * c
  {
  }

  /**
   * When every allocation succeeds and `numAllocs` of them fit below 256 TiB, the loop cannot
   * run out of addresses first: it stops only once all `numAllocs` allocations are made.
   */
  lemma AllSucceedReachesCount(numAllocs: nat, stride: nat, attempts: nat, succeeds: nat -> bool)
    requires forall offset :: succeeds(offset)
    requires numAllocs * stride < ADDRESS_LIMIT
    requires Successes(stride, attempts, succeeds) <= numAllocs
    requires Successes(stride, attempts, succeeds) == numAllocs || (attempts + 1) * stride >= ADDRESS_LIMIT
    ensures Successes(stride, attempts, succeeds) == numAllocs
  {
    AllSucceed(stride, attempts, succeeds);
    if attempts < numAllocs {
      MulMonotone(attempts + 1, numAllocs, stride);
      assert false;
    }
  }

  /**
   * The loop of lines 85-95: tries offsets `stride, 2 * stride, ...` while the offset is below
   * 256 TiB and fewer than `numAllocs` allocations have succeeded. `attempts` is how many offsets
   * were tried.
   */
  method AllocateAll(numAllocs: nat, allocStride: nat, succeeds: nat -> bool) returns (allocCount: nat, ghost attempts: nat)
    requires allocStride > 0
    ensures allocCount <= numAllocs
    ensures allocCount == Successes(allocStride, attempts, succeeds)
    ensures attempts == 0 || attempts * allocStride < ADDRESS_LIMIT
    ensures allocCount == numAllocs || (attempts + 1) * allocStride >= ADDRESS_LIMIT
    ensures (forall offset :: succeeds(offset)) && numAllocs * allocStride < ADDRESS_LIMIT ==> allocCount == numAllocs
  {
    allocCount := 0;
    attempts := 0;
    var offset := allocStride;
    while offset < ADDRESS_LIMIT && allocCount < numAllocs
      invariant offset == (attempts + 1) * allocStride
      invariant attempts == 0 || attempts * allocStride < ADDRESS_LIMIT
      invariant allocCount <= numAllocs
      invariant allocCount == Successes(allocStride, attempts, succeeds)
      decreases ADDRESS_LIMIT - offset
    {
      if succeeds(offset) {
        allocCount := allocCount + 1;
      }
      attempts := attempts + 1;
      offset := offset + allocStride;
    }
    if (forall o :: succeeds(o)) && numAllocs * allocStride < ADDRESS_LIMIT {
      AllSucceedReachesCount(numAllocs, allocStride, attempts, succeeds);
    }
  }

  /** Every mode's allocations fit below 256 TiB, so if each allocation succeeds all of them are made. */
  lemma ModesFitAddressSpace(mode: Mode)
    ensures var c := Effective(mode); c.numAllocs * c.allocStride < ADDRESS_LIMIT
  {
    ConfigurationTable(mode);
  }

  // ---------------------------------------------------------------------------
  // The CFG estimate

  /** One 4 KiB CFG page describes 256 KiB of code: `max(alloc_size / 64, 4 KiB)`. */
  function CfgAllocSize(allocSize: nat): (r: nat)
    ensures r >= allocSize / 64 && r >= 4096
    ensures r == allocSize / 64 || r == 4096
  {
    if allocSize / 64 < 4096 then 4096 else allocSize / 64
  }

  /** The stride leaves gaps between the CFG pages of consecutive allocations. */
  predicate Fragmented(allocSize: nat, allocStride: nat) {
    allocStride > CfgAllocSize(allocSize) * 64
  }

  /** Lines 98-103: the CFG size per allocation and the word describing its layout. */
  method CfgEstimate(allocSize: nat, allocStride: nat) returns (cfgAllocSize: nat, descriptor: string)
    ensures cfgAllocSize == CfgAllocSize(allocSize)
    ensures descriptor == " fragmented" || descriptor == " contiguous"
    ensures descriptor == " fragmented" <==> Fragmented(allocSize, allocStride)
  {
    cfgAllocSize := allocSize / 64;
    if cfgAllocSize < 4 * 1024 {
      cfgAllocSize := 4 * 1024;
    }
    descriptor := " contiguous";
    if allocStride > cfgAllocSize * 64 {
      descriptor := " fragmented";
    }
  }

  /**
   * Blocks of at least 256 KiB, a multiple of 64 bytes long, laid end to end count as contiguous;
   * a size that is not a multiple of 64 makes even adjacent blocks count as fragmented.
   */
  lemma AdjacentBlocksContiguous(allocSize: nat)
    requires allocSize >= 256 * 1024
    ensures !Fragmented(allocSize, allocSize) <==> allocSize % 64 == 0
  {
    var cfg := allocSize / 64;
    assert CfgAllocSize(allocSize) == cfg;
    assert cfg * 64 + allocSize % 64 == allocSize;
  }

  /** Which modes fragment their CFG memory: only the two whose stride exceeds the block size. */
  lemma FragmentedModes(mode: Mode)
    ensures var c := Effective(mode);
      Fragmented(c.allocSize, c.allocStride) <==> mode == FewBigBlocks || mode == SuperSparse
  {
    ConfigurationTable(mode);
  }
}
