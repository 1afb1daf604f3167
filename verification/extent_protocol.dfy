/**
 `AddExtent` and `DelExtent` cut at their suspension points. Any number of tasks run, one step of one
 task at a time; a write reaches the device at some moment before it completes, or, if it fails,
 perhaps never. What is on the device after any step is what a crash leaves behind.
 */
module ExtentProtocol {
  import opened Bytes
  import opened ErrorCodes
  import opened SealedBlock
  import opened PayloadBlocks
  import opened ExtentHeaders
  import opened Devices
  import opened Layouts
  import opened ExtentGeometry
  import opened BitmapImages
  import opened NextFit

  /** Where the source departs from what its surroundings call for; all `false` and `AsWritten` is the source. */
  datatype Fixes = Fixes(
    countUsed: bool,      // the counter follows adds and deletes
    stopOnMissing: bool,  // a delete of an unknown id ends there
    eraseOnDelete: bool,  // a delete removes the id from the map
    header: Form)         // how a header is read back

  /** The source reduces the cursor modulo the number of bitmap blocks: here the modulus is a parameter. */
  datatype Config = Config(geo: Geometry, modulus: nat, fixes: Fixes)

  function AsWrittenConfig(g: Geometry): Config {
    Config(g, g.bitmapBlocks, Fixes(false, false, false, AsWritten))
  }

  function RepairedConfig(g: Geometry): Config {
    Config(g, g.count, Fixes(true, true, true, Repaired))
  }

  ghost predicate ValidConfig(cfg: Config) {
    && Roomy(cfg.geo) && cfg.geo.count <= CLONE_LIMIT
    && (0 < cfg.geo.count ==> 0 < cfg.modulus <= cfg.geo.count)
  }

  /** What a bitmap block gets when entry `i` of it changes: a clone with that entry marked. */
  function CloneImage(bits: seq<bool>, i: nat, used: bool): (block: seq<bv8>)
    requires i < |bits|
    ensures |block| == BLOCK_SIZE
    ensures |bits| <= CLONE_LIMIT ==> block == BitmapImage(bits[i := used], BitmapIndex(i))
  {
    BitmapImage(Cloned(bits)[i := used], BitmapIndex(i))
  }

  /**
   Where the loop is defined, the block written is the one of the changed bitmap exactly when the number
   of extents is not negative as an `int`, or nothing else in the block is used.
   */
  lemma CloneExactly(bits: seq<bool>, i: nat, used: bool)
    requires i < |bits|
    ensures CloneImage(bits, i, used) == BitmapImage(bits[i := used], BitmapIndex(i)) <==>
      (|bits| < 0x8000_0000 || forall j | 0 <= j < |bits| && j != i && j / DATA_SIZE == BitmapIndex(i) :: !bits[j])
  {
    hide BitmapImage;
    var want, got, b := bits[i := used], Cloned(bits)[i := used], BitmapIndex(i);
    ImageExactly(want, got, b);
    if SameBlock(want, got, b) && |bits| >= 0x8000_0000 {
      forall j | 0 <= j < |bits| && j != i && j / DATA_SIZE == b ensures !bits[j] {
        assert want[j] == got[j];
      }
    }
  }

  /**
   The manager as written and the one repaired can both run on what `BuildLayout` gives, with either
   divisor, as long as the layout tiles; with the divisor as written headers lie beyond the device.
   */
  lemma LayoutConfigs(size: U64, form: Form)
    requires ExtentBlockCount(size, form) <= MAX_EXTENTS
    ensures Tiled(LayoutOf(size, form)) && LayoutOf(size, form).extents.blockCount <= MAX_EXTENTS
    ensures ValidConfig(AsWrittenConfig(GeometryOf(LayoutOf(size, form))))
    ensures ValidConfig(RepairedConfig(GeometryOf(LayoutOf(size, form))))
  {
    LayoutRoomy(size, form);
    hide Roomy;
    var g := GeometryOf(LayoutOf(size, form));
    if 0 < g.count {
      BitmapBlocksBelowExtents(g);
    }
  }

  /** The fields of the manager that change. */
  datatype Memory = Memory(bitmap: seq<bool>, cursor: nat, used: U32, offsets: map<U64, U64>)

  function FreshMemory(count: nat): (m: Memory)
    ensures |m.bitmap| == count
  {
    Memory(seq(count, i => false), 0, 0, map[])
  }

  // ---- what happens between two suspension points ----

  datatype Admission = Admitted(index: nat) | Refused(err: ErrorCode) | Undefined

  /** `AddExtent` from the lock to the first write. Without bits or modulus the loop has no defined behaviour. */
  function Admit(cfg: Config, m: Memory, id: U64): (r: (Memory, Admission))
    ensures r.1.Admitted? ==>
      && id !in m.offsets && r.1.index < |m.bitmap| && !m.bitmap[r.1.index]
      && r.0 == m.(cursor := r.0.cursor)
    ensures r.0 == m.(cursor := r.0.cursor)
  {
    if id in m.offsets then (m, Refused(ExtentAlreadyExists))
    else if m.used == cfg.geo.count then (m, Refused(FsFull))
    else if cfg.modulus == 0 && cfg.geo.count != 0 then (m, Undefined)
    else
      match Scan(m.bitmap, m.cursor, cfg.modulus, cfg.geo.count)
      case Found(i, next) => (m.(cursor := next), Admitted(i))
      case NotFound(next) => (m.(cursor := next), Refused(CodeError))
      case OutOfBounds(_) => (m, Undefined)
  }

  /** The end of a successful add; the counter has 32 bits. */
  function Insert(cfg: Config, m: Memory, i: nat, id: U64): (m': Memory)
    requires i < |m.bitmap|
    ensures |m'.bitmap| == |m.bitmap|
  {
    m.(bitmap := m.bitmap[i := true],
       offsets := m.offsets[id := ExtentOffset(cfg.geo, i)],
       used := if cfg.fixes.countUsed then (m.used + 1) % 0x1_0000_0000 else m.used)
  }

  /** The end of a successful delete. */
  function Remove(cfg: Config, m: Memory, i: nat, id: U64): (m': Memory)
    requires i < |m.bitmap|
    ensures |m'.bitmap| == |m.bitmap|
  {
    m.(bitmap := m.bitmap[i := false],
       offsets := if cfg.fixes.eraseOnDelete then m.offsets - {id} else m.offsets,
       used := if cfg.fixes.countUsed then (m.used - 1) % 0x1_0000_0000 else m.used)
  }

  function BlankHeader(): (h: Header)
    ensures h.Valid()
  {
    Header(Start(0, 0, 0, 0, 0), Fields(0, 0, 0, 0, 0, 0, 0, 0, 0, 0), Zeros(RESERVED),
      BlockFooter(0, 0, 0, 0, 0, Zeros(12), 0))
  }

  function Indexed(h: Header, i: U32): (h': Header)
    requires h.Valid()
    ensures h'.Valid()
  {
    HeaderStamped(h.(fields := h.fields.(bitmapIndex := i)))
  }

  lemma IndexedKeeps(h: Header, i: U32)
    requires h.Valid()
    ensures Indexed(h, i).fields == h.fields.(bitmapIndex := i)
  {
    hide HeaderCovered;
  }

  /** The checks of `DelExtent` on the block it read. */
  function Inspect(cfg: Config, block: seq<bv8>, id: U64): ErrorCode {
    var (h, err) := HeaderDecode(BlankHeader(), block, cfg.fixes.header);
    if err != Ok then err else if h.fields.extentId != id then InternalError else Ok
  }

  // ---- tasks ----

  datatype Phase =
    | Waiting
    | Reading
    | HeaderWrite(index: nat, bytes: seq<bv8>, landed: bool)
    | BitmapWrite(index: nat, bytes: seq<bv8>, landed: bool)
    | Done(err: ErrorCode)
  {
    /** Suspended while holding the lock. */
    predicate InFlight() {
      Reading? || HeaderWrite? || BitmapWrite?
    }
  }

  datatype Task = Task(adds: bool, header: Header, phase: Phase) {
    function Id(): U64 {
      header.fields.extentId
    }

    function Index(): U32 {
      header.fields.bitmapIndex
    }
  }

  datatype Lock = Free | Held(task: nat)

  /** `suspect` is history: the entries whose last bitmap write failed, with no later success on their block. */
  datatype State = State(mem: Memory, disk: Disk, tasks: seq<Task>, lock: Lock, suspect: set<nat>)

  datatype Step =
    | Spawn(task: Task)          // a call arrives
    | Begin(t: nat)              // the lock is taken; runs to the first suspension
    | Land(t: nat)               // the write in flight reaches the device
    | Finish(t: nat, ok: bool)   // the transfer completes; runs to the next suspension

  /** Steps without defined behaviour are none: see `Admit`, and `Continues` for what follows a first transfer. */
  predicate Enabled(cfg: Config, s: State, step: Step) {
    match step
    case Spawn(task) =>
      task.phase.Waiting? && task.header.Valid()
    case Begin(t) =>
      && t < |s.tasks| && s.tasks[t].phase.Waiting? && s.tasks[t].header.Valid() && s.lock.Free?
      && (s.tasks[t].adds ==> Admit(cfg, s.mem, s.tasks[t].Id()).1 != Undefined)
      && |s.mem.bitmap| <= 0x1_0000_0000
    case Land(t) => t < |s.tasks| && CanLand(cfg, s, s.tasks[t].phase)
    case Finish(t, ok) => t < |s.tasks| && CanFinish(cfg, s, s.tasks[t], ok)
  }

  predicate CanLand(cfg: Config, s: State, phase: Phase) {
    match phase
    case HeaderWrite(i, _, landed) => !landed && HeaderBlock(cfg.geo, i) in s.disk
    case BitmapWrite(i, _, landed) => !landed && BitmapBlock(cfg.geo, BitmapIndex(i)) in s.disk
    case _ => false
  }

  /** The clone loop does not overflow, and the bitmap has the entry that is marked at the end. */
  predicate Continues(m: Memory, i: nat) {
    i < |m.bitmap| && CloneDefined(i)
  }

  /** Success of a write means that it has landed. */
  predicate CanFinish(cfg: Config, s: State, task: Task, ok: bool) {
    match task.phase
    case Reading =>
      ok ==>
        && HeaderBlock(cfg.geo, task.Index()) in s.disk
        && (Inspect(cfg, s.disk[HeaderBlock(cfg.geo, task.Index())], task.Id()) == ErrorCode.Ok ==>
              Continues(s.mem, task.Index()))
    case HeaderWrite(i, _, landed) => ok ==> landed && Continues(s.mem, i)
    case BitmapWrite(i, _, landed) => (ok ==> landed) && i < |s.mem.bitmap|
    case _ => false
  }

  function SetPhase(s: State, t: nat, phase: Phase): State
    requires t < |s.tasks|
  {
    s.(tasks := s.tasks[t := s.tasks[t].(phase := phase)])
  }

  /** The task ends and the lock is released. */
  function Leave(s: State, t: nat, err: ErrorCode): State
    requires t < |s.tasks|
  {
    SetPhase(s, t, Done(err)).(lock := Free)
  }

  function BitmapWriteOf(m: Memory, i: nat, used: bool): (p: Phase)
    requires i < |m.bitmap|
    ensures p.BitmapWrite? && p.index == i && !p.landed
  {
    BitmapWrite(i, CloneImage(m.bitmap, i, used), false)
  }

  function BeginTask(cfg: Config, s: State, t: nat): State
    requires Enabled(cfg, s, Begin(t))
  {
    var task := s.tasks[t];
    if task.adds then
      var (m, admission) := Admit(cfg, s.mem, task.Id());
      match admission
      case Admitted(i) =>
        var h := Indexed(task.header, i);
        s.(mem := m, tasks := s.tasks[t := Task(true, h, HeaderWrite(i, HeaderEncode(h), false))], lock := Held(t))
      case Refused(err) => SetPhase(s.(mem := m), t, Done(err))
      case Undefined => s
    else if cfg.fixes.stopOnMissing && task.Id() !in s.mem.offsets then SetPhase(s, t, Done(ExtentNotExists))
    else SetPhase(s, t, Reading).(lock := Held(t))
  }

  function LandTask(cfg: Config, s: State, t: nat): State
    requires Enabled(cfg, s, Land(t))
  {
    match s.tasks[t].phase
    case HeaderWrite(i, bytes, _) =>
      SetPhase(s, t, HeaderWrite(i, bytes, true)).(disk := s.disk[HeaderBlock(cfg.geo, i) := bytes])
    case BitmapWrite(i, bytes, _) =>
      SetPhase(s, t, BitmapWrite(i, bytes, true)).(disk := s.disk[BitmapBlock(cfg.geo, BitmapIndex(i)) := bytes])
    case _ => s
  }

  /** The entries of `suspect` that lie in another bitmap block than `i`. */
  function Elsewhere(suspect: set<nat>, i: nat): set<nat> {
    set j | j in suspect && BitmapIndex(j) != BitmapIndex(i)
  }

  function FinishTask(cfg: Config, s: State, t: nat, ok: bool): State
    requires Enabled(cfg, s, Finish(t, ok))
  {
    var task := s.tasks[t];
    match task.phase
    case Reading =>
      if !ok then Leave(s, t, IoReadAtFailed)
      else
        var err := Inspect(cfg, s.disk[HeaderBlock(cfg.geo, task.Index())], task.Id());
        if err != ErrorCode.Ok then Leave(s, t, err) else SetPhase(s, t, BitmapWriteOf(s.mem, task.Index(), false))
    case HeaderWrite(i, _, _) =>
      if !ok then Leave(s, t, IoWriteAtFailed) else SetPhase(s, t, BitmapWriteOf(s.mem, i, true))
    case BitmapWrite(i, _, _) =>
      if !ok then Leave(s, t, IoWriteAtFailed).(suspect := s.suspect + {i})
      else
        var m := if task.adds then Insert(cfg, s.mem, i, task.Id()) else Remove(cfg, s.mem, i, task.Id());
        Leave(s, t, ErrorCode.Ok).(mem := m, suspect := Elsewhere(s.suspect, i))
    case _ => s
  }

  function Next(cfg: Config, s: State, step: Step): State
    requires Enabled(cfg, s, step)
  {
    match step
    case Spawn(task) => s.(tasks := s.tasks + [task])
    case Begin(t) => BeginTask(cfg, s, t)
    case Land(t) => LandTask(cfg, s, t)
    case Finish(t, ok) => FinishTask(cfg, s, t, ok)
  }

  // ---- runs ----

  /** Deletes act on the index their caller gives. As written none gets far enough for a wrong one to do harm. */
  predicate TrustsIndex(fixes: Fixes) {
    fixes.header.Repaired? || fixes.eraseOnDelete || fixes.countUsed
  }

  /** The index that comes with the id is the one the map records: what `AddExtent` put into the caller's header. */
  predicate Matched(cfg: Config, m: Memory, task: Task) {
    TrustsIndex(cfg.fixes) && task.Id() in m.offsets ==>
      m.offsets[task.Id()] == ExtentOffset(cfg.geo, task.Index())
  }

  /** Where it matters, deletes come with a matching index. */
  predicate Careful(cfg: Config, s: State, step: Step) {
    step.Begin? && step.t < |s.tasks| && !s.tasks[step.t].adds ==> Matched(cfg, s.mem, s.tasks[step.t])
  }

  predicate IsRun(cfg: Config, s: State, steps: seq<Step>)
    decreases |steps|
  {
    steps == [] || (Enabled(cfg, s, steps[0]) && IsRun(cfg, Next(cfg, s, steps[0]), steps[1..]))
  }

  function After(cfg: Config, s: State, steps: seq<Step>): State
    requires IsRun(cfg, s, steps)
    decreases |steps|
  {
    if steps == [] then s else After(cfg, Next(cfg, s, steps[0]), steps[1..])
  }

  predicate IsCareful(cfg: Config, s: State, steps: seq<Step>)
    requires IsRun(cfg, s, steps)
    decreases |steps|
  {
    steps == [] || (Careful(cfg, s, steps[0]) && IsCareful(cfg, Next(cfg, s, steps[0]), steps[1..]))
  }

  /** A device with a bitmap without entries. Of header blocks it may have any, with any content. */
  ghost predicate BlankDevice(cfg: Config, disk: Disk) {
    forall b | 0 <= b < LiveBlocks(cfg.geo) ::
      && BitmapBlock(cfg.geo, b) in disk
      && disk[BitmapBlock(cfg.geo, b)] == BitmapImage(FreshMemory(cfg.geo.count).bitmap, b)
  }

  function Initial(cfg: Config, disk: Disk): State {
    State(FreshMemory(cfg.geo.count), disk, [], Free, {})
  }
}
