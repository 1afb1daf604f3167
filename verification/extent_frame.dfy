/** Which blocks of the device a run writes at all. */
module ExtentFrame {
  import opened Bytes
  import opened ErrorCodes
  import opened ExtentHeaders
  import opened Devices
  import opened Layouts
  import opened ExtentGeometry
  import opened ExtentProtocol
  import opened ExtentViews

  /** Block `k` is one of the bitmap or holds the header of an extent. */
  ghost predicate OwnBlock(g: Geometry, k: nat) {
    (exists b: nat :: b < LiveBlocks(g) && BitmapBlock(g, b) == k)
    || (exists i: nat :: i < g.count && HeaderBlock(g, i) == k)
  }

  /** Where a task writes there is an extent. */
  predicate InRange(cfg: Config, phase: Phase) {
    phase.HeaderWrite? || phase.BitmapWrite? ==> phase.index < cfg.geo.count
  }

  ghost predicate AllInRange(cfg: Config, s: State) {
    |s.mem.bitmap| == cfg.geo.count && forall t | 0 <= t < |s.tasks| :: InRange(cfg, s.tasks[t].phase)
  }

  /** One task moves on and stays in range, and the bitmap keeps its size. */
  ghost predicate StaysInRange(cfg: Config, s: State, t: nat, s': State) {
    && |s'.mem.bitmap| == |s.mem.bitmap| && t < |s.tasks| == |s'.tasks|
    && s'.tasks == s.tasks[t := s'.tasks[t]] && InRange(cfg, s'.tasks[t].phase)
  }

  lemma BeginInRange(cfg: Config, s: State, t: nat)
    requires AllInRange(cfg, s) && Enabled(cfg, s, Begin(t))
    ensures StaysInRange(cfg, s, t, BeginTask(cfg, s, t)) && BeginTask(cfg, s, t).disk == s.disk
  {
    hide Admit, Indexed, HeaderEncode;
  }

  lemma FinishInRange(cfg: Config, s: State, t: nat, ok: bool)
    requires AllInRange(cfg, s) && Enabled(cfg, s, Finish(t, ok))
    ensures StaysInRange(cfg, s, t, FinishTask(cfg, s, t, ok)) && FinishTask(cfg, s, t, ok).disk == s.disk
  {
    hide HeaderBlock, Inspect, BitmapWriteOf, Insert, Remove, Elsewhere;
  }

  /** A landing writes the header block of an extent or the bitmap block with the entry of one. */
  lemma LandInRange(cfg: Config, s: State, t: nat) returns (i: nat, bytes: seq<bv8>)
    requires AllInRange(cfg, s) && Enabled(cfg, s, Land(t))
    ensures StaysInRange(cfg, s, t, LandTask(cfg, s, t)) && i < cfg.geo.count
    ensures LandTask(cfg, s, t).disk == s.disk[HeaderBlock(cfg.geo, i) := bytes]
      || LandTask(cfg, s, t).disk == s.disk[BitmapBlock(cfg.geo, BitmapIndex(i)) := bytes]
  {
    hide HeaderBlock, BitmapBlock, BitmapIndex;
    i, bytes := s.tasks[t].phase.index, s.tasks[t].phase.bytes;
  }

  lemma OwnHeader(g: Geometry, i: nat)
    requires i < g.count
    ensures OwnBlock(g, HeaderBlock(g, i)) && OwnBlock(g, BitmapBlock(g, BitmapIndex(i)))
  {
    hide HeaderBlock, BitmapBlock, BitmapIndex, LiveBlocks;
    LiveIndex(g, i);
  }

  lemma StepWritesOwn(cfg: Config, s: State, step: Step, k: nat)
    requires AllInRange(cfg, s) && Enabled(cfg, s, step) && !OwnBlock(cfg.geo, k)
    ensures AllInRange(cfg, Next(cfg, s, step)) && SameAt(s.disk, Next(cfg, s, step).disk, k)
  {
    hide Enabled, BeginTask, LandTask, FinishTask, OwnBlock, HeaderBlock, BitmapBlock, BitmapIndex;
    match step
    case Spawn(task) => WaitsInRange(cfg, s, task);
    case Begin(t) => BeginInRange(cfg, s, t);
    case Finish(t, ok) => FinishInRange(cfg, s, t, ok);
    case Land(t) =>
      var i, bytes := LandInRange(cfg, s, t);
      OwnHeader(cfg.geo, i);
  }

  lemma WaitsInRange(cfg: Config, s: State, task: Task)
    requires Enabled(cfg, s, Spawn(task))
    ensures InRange(cfg, task.phase)
  {
  }

  lemma {:induction false} RunWritesOwn(cfg: Config, s: State, steps: seq<Step>, k: nat)
    requires AllInRange(cfg, s) && IsRun(cfg, s, steps) && !OwnBlock(cfg.geo, k)
    ensures SameAt(s.disk, After(cfg, s, steps).disk, k)
    decreases |steps|
  {
    if steps != [] {
      hide Enabled, Next, OwnBlock, AllInRange;
      StepWritesOwn(cfg, s, steps[0], k);
      RunWritesOwn(cfg, Next(cfg, s, steps[0]), steps[1..], k);
    }
  }

  /**
   Whatever the tasks do and whatever fails, no run writes any block but those of the bitmap and the header
   blocks of the extents.
   */
  lemma WritesOwnBlocks(cfg: Config, disk: Disk, steps: seq<Step>, k: nat)
    requires IsRun(cfg, Initial(cfg, disk), steps) && !OwnBlock(cfg.geo, k)
    ensures SameAt(disk, After(cfg, Initial(cfg, disk), steps).disk, k)
  {
    hide IsRun, After, OwnBlock;
    RunWritesOwn(cfg, Initial(cfg, disk), steps, k);
  }

  /** The manager of a device of any size, laid out by `BuildLayout` with either divisor, whether that tiles or not. */
  function LaidOut(size: U64, form: Form): Geometry {
    var l := LayoutOf(size, form);
    Geometry(l.bitmap.blockIndex * 4096, l.bitmap.blockCount, l.extents.blockCount, 0x400_0000,
      l.extents.blockIndex * 4096)
  }

  /** On such a device no run touches the padding, the super block in block 4 or its backup in block 5. */
  lemma SuperBlocksStay(cfg: Config, size: U64, form: Form, disk: Disk, steps: seq<Step>, k: nat)
    requires cfg.geo == LaidOut(size, form) && k < 6 && IsRun(cfg, Initial(cfg, disk), steps)
    ensures SameAt(disk, After(cfg, Initial(cfg, disk), steps).disk, k)
  {
    hide IsRun, After, BitmapBlock, HeaderBlock, LiveBlocks;
    PastSix(cfg.geo);
    WritesOwnBlocks(cfg, disk, steps, k);
  }

  lemma PastSix(g: Geometry)
    requires g.offset == 6 * 4096 && g.extentsOffset == 0x400_0000 && g.extentSize == 0x400_0000
    ensures forall b: nat | b < LiveBlocks(g) :: BitmapBlock(g, b) >= 6
    ensures forall i: nat | i < g.count :: HeaderBlock(g, i) >= 6
  {
    hide LiveBlocks;
  }
}
