/** What the invariant means: for tasks that interleave, for a crash at any moment, and for writes that fail. */
module ExtentSafety {
  import opened Bytes
  import opened ExtentHeaders
  import opened Devices
  import opened ExtentGeometry
  import opened BitmapImages
  import opened NextFit
  import opened ExtentProtocol
  import opened ExtentViews
  import opened ExtentInvariant
  import opened ExtentSteps

  /** A run that starts with an empty manager on a device without extents. */
  ghost predicate RunsTo(cfg: Config, disk: Disk, steps: seq<Step>, s: State) {
    BlankDevice(cfg, disk) && IsRun(cfg, Initial(cfg, disk), steps) && s == After(cfg, Initial(cfg, disk), steps)
  }

  /** Such a run, in a configuration where search and clone are defined, with matching deletes where it matters. */
  ghost predicate Reaches(cfg: Config, disk: Disk, steps: seq<Step>, s: State) {
    ValidConfig(cfg) && RunsTo(cfg, disk, steps, s) && IsCareful(cfg, Initial(cfg, disk), steps)
  }

  lemma ReachesInv(cfg: Config, disk: Disk, steps: seq<Step>, s: State)
    requires Sound(cfg.fixes) && Reaches(cfg, disk, steps, s)
    ensures Inv(cfg, s) && Roomy(cfg.geo)
  {
    hide Inv, Roomy, BlankDevice, IsRun, After, IsCareful;
    InitialInv(cfg, disk);
    RunKeeps(cfg, Initial(cfg, disk), steps);
  }

  // ---- the map ----

  /** The map sends different ids to different extents, and to exactly those that are marked. */
  ghost predicate OneOwnerEach(g: Geometry, bits: seq<bool>, offsets: map<U64, U64>) {
    && (forall id, id' | id in offsets && id' in offsets && offsets[id] == offsets[id'] :: id == id')
    && (forall i | 0 <= i < |bits| :: bits[i] <==> exists id :: id in offsets && offsets[id] == ExtentOffset(g, i))
    && (forall id | id in offsets :: exists i :: 0 <= i < |bits| && offsets[id] == ExtentOffset(g, i))
  }

  lemma OwnedMeans(cfg: Config, bits: seq<bool>, v: View, offsets: map<U64, U64>)
    requires Roomy(cfg.geo) && |bits| == |v.good| == |v.owner| == cfg.geo.count
    requires Owned(cfg.geo, bits, v, offsets)
    ensures OneOwnerEach(cfg.geo, bits, offsets)
  {
    hide ExtentOffset, Roomy, Owned;
    forall id | id in offsets
      ensures exists i :: 0 <= i < |bits| && v.owner[i] == id && offsets[id] == ExtentOffset(cfg.geo, i)
    {
      var i := SlotOf(cfg, bits, v, offsets, id);
    }
    forall id, id' | id in offsets && id' in offsets && offsets[id] == offsets[id'] ensures id == id' {
      var i := SlotOf(cfg, bits, v, offsets, id);
      OwnedAt(cfg, bits, v, offsets, i, id');
    }
    forall i | 0 <= i < |bits|
      ensures bits[i] <==> exists id :: id in offsets && offsets[id] == ExtentOffset(cfg.geo, i)
    {
      if bits[i] {
        OwnerIn(cfg.geo, bits, v, offsets, i);
      } else if id :| id in offsets && offsets[id] == ExtentOffset(cfg.geo, i) {
        OwnedAt(cfg, bits, v, offsets, i, id);
      }
    }
  }

  // ---- tasks that interleave ----

  /** Slot `i` is the one that the task is about to give its extent. */
  predicate Chooses(task: Task, i: nat) {
    task.adds && (task.phase.HeaderWrite? || task.phase.BitmapWrite?) && task.phase.index == i
  }

  /** No extent lives in slot `i`, and the id of the task is not in the map. */
  predicate Vacant(m: Memory, task: Task, i: nat) {
    i < |m.bitmap| && !m.bitmap[i] && task.Id() !in m.offsets
  }

  /**
   However the tasks interleave and whatever fails: no slot is chosen by two tasks or by one while an
   extent lives there, the id of the newcomer is not in the map, and every live extent has a header
   of its own, intact as the repaired reader sees it, that names it and its slot.
   */
  lemma NoSharedExtent(cfg: Config, disk: Disk, steps: seq<Step>, s: State)
    requires Sound(cfg.fixes) && Reaches(cfg, disk, steps, s)
    ensures forall t: nat, u: nat, i: nat, j: nat | t < |s.tasks| && u < |s.tasks|
      && Chooses(s.tasks[t], i) && Chooses(s.tasks[u], j) :: t == u
    ensures forall t: nat, i: nat | t < |s.tasks| && Chooses(s.tasks[t], i) ::
      Vacant(s.mem, s.tasks[t], i)
    ensures OneOwnerEach(cfg.geo, s.mem.bitmap, s.mem.offsets)
    ensures forall i | 0 <= i < |s.mem.bitmap| && s.mem.bitmap[i] ::
      && HeaderGood(cfg.geo, s.disk, i)
      && OwnerAt(cfg.geo, s.disk, i) in s.mem.offsets
      && s.mem.offsets[OwnerAt(cfg.geo, s.disk, i)] == ExtentOffset(cfg.geo, i)
  {
    var v := ViewOf(cfg.geo, s.disk);
    hide Reaches, ExtentOffset, Roomy, Readable, Owned, Core, InvOn, Chooses, Vacant, DiskBit, HeaderGood, OwnerAt;
    ReachesInv(cfg, disk, steps, s);
    Parts(cfg, s, v);
    OwnedMeans(cfg, s.mem.bitmap, v, s.mem.offsets);
    forall t: nat, u: nat, i: nat, j: nat | t < |s.tasks| && u < |s.tasks|
      && Chooses(s.tasks[t], i) && Chooses(s.tasks[u], j) ensures t == u
    {
      Chosen(cfg, s, v, t, i);
      Chosen(cfg, s, v, u, j);
    }
    forall t: nat, i: nat | t < |s.tasks| && Chooses(s.tasks[t], i)
      ensures Vacant(s.mem, s.tasks[t], i)
    {
      Chosen(cfg, s, v, t, i);
    }
    forall i | 0 <= i < |s.mem.bitmap| && s.mem.bitmap[i]
      ensures HeaderGood(cfg.geo, s.disk, i) && OwnerAt(cfg.geo, s.disk, i) in s.mem.offsets
      ensures s.mem.offsets[OwnerAt(cfg.geo, s.disk, i)] == ExtentOffset(cfg.geo, i)
    {
      OwnerIn(cfg.geo, s.mem.bitmap, v, s.mem.offsets, i);
    }
  }

  lemma Parts(cfg: Config, s: State, v: View)
    requires InvOn(cfg, s, v)
    ensures |s.mem.bitmap| == |v.bits| == |v.good| == |v.owner| == cfg.geo.count
    ensures Owned(cfg.geo, s.mem.bitmap, v, s.mem.offsets)
  {
    CoreParts(cfg, s.mem, v, s.suspect, HolderOf(s));
  }

  lemma Chosen(cfg: Config, s: State, v: View, t: nat, i: nat)
    requires InvOn(cfg, s, v) && t < |s.tasks| && Chooses(s.tasks[t], i)
    ensures s.lock == Held(t) && Vacant(s.mem, s.tasks[t], i)
  {
    hide CloneImage, HeaderEncode, BitmapIndex, SameBlock, InvOn, Core;
    HolderMoves(cfg, s, v, t);
  }

  /** No step touches the header of a live extent: its block is there and stays the same byte for byte. */
  lemma LiveHeadersStay(cfg: Config, s: State, step: Step, i: nat)
    requires Roomy(cfg.geo) && Inv(cfg, s) && Enabled(cfg, s, step) && i < |s.mem.bitmap| && s.mem.bitmap[i]
    ensures HeaderBlock(cfg.geo, i) in s.disk
    ensures SameAt(s.disk, Next(cfg, s, step).disk, HeaderBlock(cfg.geo, i))
  {
    hide HeaderBlock, Roomy, Owned, ViewOf, HeaderGood, Readable, InvOn, LandTask, Enabled, Next;
    var v := ViewOf(cfg.geo, s.disk);
    Parts(cfg, s, v);
    OwnerIn(cfg.geo, s.mem.bitmap, v, s.mem.offsets, i);
    GoodIsThere(cfg.geo, s.disk, i);
    if step.Land? {
      LandsElsewhere(cfg, s, v, step.t, i);
    }
    OnlyLandWrites(cfg, s, step);
  }

  lemma OnlyLandWrites(cfg: Config, s: State, step: Step)
    requires Enabled(cfg, s, step)
    ensures !step.Land? ==> Next(cfg, s, step).disk == s.disk
    ensures step.Land? ==> Next(cfg, s, step) == LandTask(cfg, s, step.t)
  {
    hide Admit, Indexed, HeaderEncode, BitmapWriteOf, Insert, Remove, Inspect, HeaderBlock, BitmapBlock, Elsewhere;
  }

  lemma LandsElsewhere(cfg: Config, s: State, v: View, t: nat, i: nat)
    requires Roomy(cfg.geo) && InvOn(cfg, s, v) && Enabled(cfg, s, Land(t)) && i < |s.mem.bitmap| && s.mem.bitmap[i]
    ensures SameAt(s.disk, LandTask(cfg, s, t).disk, HeaderBlock(cfg.geo, i))
  {
    hide HeaderBlock, BitmapBlock, LiveBlocks, Roomy, ExtentOffset, BitmapIndex, HeaderEncode, CloneImage, SameBlock,
      InvOn, Core;
    AddressesApart(cfg.geo);
    HolderMoves(cfg, s, v, t);
    var phase := s.tasks[t].phase;
    if phase.BitmapWrite? {
      LiveIndex(cfg.geo, phase.index);
    }
  }

  lemma GoodIsThere(g: Geometry, disk: Disk, i: nat)
    requires HeaderGood(g, disk, i)
    ensures HeaderBlock(g, i) in disk
  {
    hide HeaderDecode, HeaderBlock;
  }

  lemma FlightIndex(cfg: Config, m: Memory, v: View, task: Task)
    requires FlightOk(cfg, m, v, task)
    ensures task.phase.HeaderWrite? || task.phase.BitmapWrite? ==> task.phase.index < |m.bitmap|
  {
    hide HeaderEncode, CloneImage, BitmapIndex, SameBlock, Matched;
  }

  /** The block that the holder of the lock is waiting for. */
  function TransferBlock(cfg: Config, task: Task): nat {
    match task.phase
    case HeaderWrite(i, _, _) => HeaderBlock(cfg.geo, i)
    case BitmapWrite(i, _, _) => BitmapBlock(cfg.geo, BitmapIndex(i))
    case _ => HeaderBlock(cfg.geo, task.Index())
  }

  /**
   Nothing ever gets stuck: when the lock is free any task that waits can begin, and whoever holds it
   can go on: its transfer can always fail, and it can succeed if its block is on the device and, for
   a read, the index of the delete is one of the bitmap.
   */
  lemma NeverStuck(cfg: Config, s: State)
    requires ValidConfig(cfg) && Inv(cfg, s)
    ensures s.lock.Free? ==> forall t | 0 <= t < |s.tasks| && s.tasks[t].phase.Waiting? :: Enabled(cfg, s, Begin(t))
    ensures s.lock.Held? ==>
      && s.lock.task < |s.tasks|
      && Enabled(cfg, s, Finish(s.lock.task, false))
    ensures s.lock.Held? ==>
      var task := s.tasks[s.lock.task];
      TransferBlock(cfg, task) in s.disk && (task.phase.Reading? ==> task.Index() < |s.mem.bitmap|) ==>
        Enabled(cfg, s, Finish(s.lock.task, true)) || Enabled(cfg, s, Land(s.lock.task))
  {
    var v := ViewOf(cfg.geo, s.disk);
    hide Roomy, Core, FlightOk, HeaderBlock, BitmapBlock, LiveBlocks, Admit, ViewOf, CloneImage, Inspect;
    CoreSize(cfg, s.mem, v, s.suspect, HolderOf(s));
    CloneRange(cfg.geo.count);
    hide BitmapIndex;
    if s.lock.Free? {
      forall t | 0 <= t < |s.tasks| && s.tasks[t].phase.Waiting? ensures Enabled(cfg, s, Begin(t)) {
        AdmitDefined(cfg, s.mem, s.tasks[t].Id());
      }
    } else {
      var task := s.tasks[s.lock.task];
      HolderMoves(cfg, s, v, s.lock.task);
      FlightIndex(cfg, s.mem, v, task);
    }
  }

  lemma AdmitDefined(cfg: Config, m: Memory, id: U64)
    requires ValidConfig(cfg) && |m.bitmap| == cfg.geo.count
    ensures Admit(cfg, m, id).1 != Undefined
  {
    hide Scan, Roomy;
    if cfg.geo.count != 0 {
      ScanComplete(m.bitmap, m.cursor, cfg.modulus);
    } else {
      ScanNothing(m.bitmap, m.cursor, cfg.modulus);
    }
  }

  /** How many steps the holder of the lock can still take: to land or complete its transfers. */
  function StepsLeft(phase: Phase): nat {
    match phase
    case HeaderWrite(_, _, landed) => if landed then 3 else 4
    case Reading => 3
    case BitmapWrite(_, _, landed) => if landed then 1 else 2
    case _ => 0
  }

  /** The steps of a run other than arrivals of calls. */
  function Moves(steps: seq<Step>): nat {
    if steps == [] then 0 else (if steps[0].Spawn? then 0 else 1) + Moves(steps[1..])
  }

  /** The holder of the lock has fewer steps left, and has ended or still holds it. */
  ghost predicate GoesOn(s: State, t: nat, s': State) {
    && t < |s.tasks| == |s'.tasks| && StepsLeft(s'.tasks[t].phase) < StepsLeft(s.tasks[t].phase)
    && (s'.tasks[t].phase.Done? || (s'.lock == Held(t) && Locking(s')))
  }

  lemma HolderLands(cfg: Config, s: State, t: nat)
    requires Locking(s) && s.lock == Held(t) && Enabled(cfg, s, Land(t))
    ensures GoesOn(s, t, LandTask(cfg, s, t))
  {
    CanLandParts(cfg, s, t);
    LandShape(cfg, s, t);
    hide LandTask, Enabled;
  }

  lemma CanLandParts(cfg: Config, s: State, t: nat)
    requires Enabled(cfg, s, Land(t))
    ensures t < |s.tasks| && (s.tasks[t].phase.HeaderWrite? || s.tasks[t].phase.BitmapWrite?)
    ensures !s.tasks[t].phase.landed
  {
    hide HeaderBlock, BitmapBlock, BitmapIndex;
  }

  lemma HolderFinishes(cfg: Config, s: State, t: nat, ok: bool)
    requires Locking(s) && s.lock == Held(t) && Enabled(cfg, s, Finish(t, ok))
    ensures GoesOn(s, t, FinishTask(cfg, s, t, ok))
  {
    hide FinishTask, Enabled, GoesOn, Locking, OnlyFinishes;
    FinishShape(cfg, s, t, ok);
    FinishGoesOn(cfg, s, t, ok, FinishTask(cfg, s, t, ok));
  }

  lemma FinishGoesOn(cfg: Config, s: State, t: nat, ok: bool, s': State)
    requires Locking(s) && s.lock == Held(t) && s.tasks[t].phase.InFlight() && OnlyFinishes(cfg, s, t, ok, s')
    ensures GoesOn(s, t, s')
  {
    hide Insert, Remove;
  }

  lemma HolderSteps(cfg: Config, s: State, t: nat, step: Step)
    requires Locking(s) && s.lock == Held(t) && Enabled(cfg, s, step) && !step.Spawn?
    ensures GoesOn(s, t, Next(cfg, s, step))
  {
    OnlyHolderSteps(cfg, s, t, step);
    hide Enabled, LandTask, FinishTask, GoesOn, Locking;
    if step.Land? {
      HolderLands(cfg, s, t);
    } else {
      HolderFinishes(cfg, s, t, step.ok);
    }
  }

  lemma OnlyHolderSteps(cfg: Config, s: State, t: nat, step: Step)
    requires Locking(s) && s.lock == Held(t) && Enabled(cfg, s, step) && !step.Spawn?
    ensures step.t == t && (step.Land? || step.Finish?)
  {
    hide Continues, HeaderBlock, BitmapBlock, BitmapIndex, Inspect;
  }

  lemma SpawnLocks(cfg: Config, s: State, task: Task)
    requires Locking(s) && Enabled(cfg, s, Spawn(task))
    ensures Locking(Next(cfg, s, Spawn(task)))
  {
  }

  lemma {:induction false} DoneStays(cfg: Config, s: State, t: nat, steps: seq<Step>)
    requires t < |s.tasks| && s.tasks[t].phase.Done? && IsRun(cfg, s, steps)
    ensures t < |After(cfg, s, steps).tasks| && After(cfg, s, steps).tasks[t] == s.tasks[t]
    decreases |steps|
  {
    if steps != [] {
      DoneStaysDone(cfg, s, t, steps[0]);
      hide Enabled, Next;
      DoneStays(cfg, Next(cfg, s, steps[0]), t, steps[1..]);
    }
  }

  lemma DoneStaysDone(cfg: Config, s: State, t: nat, step: Step)
    requires t < |s.tasks| && s.tasks[t].phase.Done? && Enabled(cfg, s, step)
    ensures t < |Next(cfg, s, step).tasks| && Next(cfg, s, step).tasks[t] == s.tasks[t]
  {
    hide Admit, Indexed, HeaderEncode, BitmapWriteOf, Insert, Remove, Inspect, HeaderBlock, BitmapBlock, BitmapIndex,
      Elsewhere;
  }

  /**
   No call holds the lock for ever: whatever other tasks do, the holder has ended, with its result for
   good, once as many steps other than arrivals have been taken as it had left, and these are four at most.
   */
  lemma {:induction false} CallsEnd(cfg: Config, s: State, t: nat, steps: seq<Step>)
    requires Locking(s) && s.lock == Held(t) && IsRun(cfg, s, steps) && StepsLeft(s.tasks[t].phase) <= Moves(steps)
    ensures StepsLeft(s.tasks[t].phase) <= 4
    ensures t < |After(cfg, s, steps).tasks| && After(cfg, s, steps).tasks[t].phase.Done?
    decreases |steps|
  {
    hide Enabled, Next;
    var s' := Next(cfg, s, steps[0]);
    if steps[0].Spawn? {
      SpawnLocks(cfg, s, steps[0].task);
      SpawnKeepsTask(cfg, s, steps[0].task, t);
      CallsEnd(cfg, s', t, steps[1..]);
    } else {
      HolderSteps(cfg, s, t, steps[0]);
      if s'.tasks[t].phase.Done? {
        DoneStays(cfg, s', t, steps[1..]);
      } else {
        CallsEnd(cfg, s', t, steps[1..]);
      }
    }
  }

  lemma SpawnKeepsTask(cfg: Config, s: State, task: Task, t: nat)
    requires t < |s.tasks| && Enabled(cfg, s, Spawn(task))
    ensures var s' := Next(cfg, s, Spawn(task)); t < |s'.tasks| && s'.tasks[t] == s.tasks[t] && s'.lock == s.lock
  {
  }

  // ---- a crash ----

  /** What memory is, or becomes once the bitmap write that has landed completes. */
  function CrashMemory(cfg: Config, s: State): Memory {
    var h := HolderOf(s);
    if h.Suspended? && h.task.phase.BitmapWrite? && h.task.phase.landed && h.task.phase.index < |s.mem.bitmap| then
      if h.task.adds then Insert(cfg, s.mem, h.task.phase.index, h.task.Id())
      else Remove(cfg, s.mem, h.task.phase.index, h.task.Id())
    else s.mem
  }

  /** No bitmap write of the run completes with an error. */
  predicate WritesSucceed(cfg: Config, s: State, steps: seq<Step>)
    requires IsRun(cfg, s, steps)
    decreases |steps|
  {
    steps == [] ||
    (!(steps[0].Finish? && !steps[0].ok && s.tasks[steps[0].t].phase.BitmapWrite?)
     && WritesSucceed(cfg, Next(cfg, s, steps[0]), steps[1..]))
  }

  /** The slots whose bitmap write failed in a run. */
  function Failures(cfg: Config, s: State, steps: seq<Step>): set<nat>
    requires IsRun(cfg, s, steps)
    decreases |steps|
  {
    if steps == [] then {}
    else
      var here :=
        if steps[0].Finish? && !steps[0].ok && s.tasks[steps[0].t].phase.BitmapWrite? then
          {s.tasks[steps[0].t].phase.index}
        else {};
      here + Failures(cfg, Next(cfg, s, steps[0]), steps[1..])
  }

  lemma SuspectsStep(cfg: Config, s: State, step: Step)
    requires Enabled(cfg, s, step)
    ensures var failed := step.Finish? && !step.ok && s.tasks[step.t].phase.BitmapWrite?;
      Next(cfg, s, step).suspect <= s.suspect + if failed then {s.tasks[step.t].phase.index} else {}
  {
    hide Admit, Indexed, HeaderEncode, BitmapIndex, BitmapWriteOf, Insert, Remove, Inspect, HeaderBlock, BitmapBlock;
  }

  lemma {:induction false} SuspectsFailed(cfg: Config, s: State, steps: seq<Step>)
    requires IsRun(cfg, s, steps)
    ensures After(cfg, s, steps).suspect <= s.suspect + Failures(cfg, s, steps)
    decreases |steps|
  {
    if steps != [] {
      SuspectsStep(cfg, s, steps[0]);
      hide Enabled, Careful, Next;
      SuspectsFailed(cfg, Next(cfg, s, steps[0]), steps[1..]);
    }
  }

  lemma {:induction false} SuccessMeansNoFailures(cfg: Config, s: State, steps: seq<Step>)
    requires IsRun(cfg, s, steps) && WritesSucceed(cfg, s, steps)
    ensures Failures(cfg, s, steps) == {}
    decreases |steps|
  {
    if steps != [] {
      hide Enabled, Careful, Next;
      SuccessMeansNoFailures(cfg, Next(cfg, s, steps[0]), steps[1..]);
    }
  }

  /**
   Stop a run without failed bitmap writes after any step. The device marks exactly the extents that
   memory had before, or has after, the operation in flight; every marked extent has a header, intact
   as the repaired reader sees it, with its own index; and marks and headers together describe that map.
   */
  lemma CrashImage(cfg: Config, disk: Disk, steps: seq<Step>, s: State)
    requires Sound(cfg.fixes) && Reaches(cfg, disk, steps, s)
    requires WritesSucceed(cfg, Initial(cfg, disk), steps)
    ensures var v, m := ViewOf(cfg.geo, s.disk), CrashMemory(cfg, s);
      && v.bits == m.bitmap
      && (forall i | 0 <= i < |v.bits| && v.bits[i] :: v.good[i])
      && Owned(cfg.geo, v.bits, v, m.offsets)
  {
    var v := ViewOf(cfg.geo, s.disk);
    hide BlankDevice, Roomy, Readable, IsRun, After, IsCareful, InvOn, ViewOf;
    SuspectsFailed(cfg, Initial(cfg, disk), steps);
    SuccessMeansNoFailures(cfg, Initial(cfg, disk), steps);
    ReachesInv(cfg, disk, steps, s);
    CrashView(cfg, s, v);
  }

  lemma CrashView(cfg: Config, s: State, v: View)
    requires Roomy(cfg.geo) && Sound(cfg.fixes) && InvOn(cfg, s, v) && s.suspect == {}
    ensures v.bits == CrashMemory(cfg, s).bitmap && MarkedGood(v)
    ensures Owned(cfg.geo, v.bits, v, CrashMemory(cfg, s).offsets)
  {
    var h, m, m' := HolderOf(s), s.mem, CrashMemory(cfg, s);
    hide Roomy, Owned, MarkedGood, Counted, Agree, FlightOk, ExtentOffset, CloneImage, BitmapIndex, SameBlock;
    if h.Suspended? && h.task.phase.BitmapWrite? && h.task.phase.landed {
      var i := h.task.phase.index;
      BitmapFlight(cfg, m, v, h.task);
      AgreeAgain(m, v, {}, h.task.phase, h.task.adds, m');
      NothingSuspect(m', v, i);
      if h.task.adds {
        OwnedAfterAdd(cfg.geo, m.bitmap, v, m.offsets, i, h.task.Id());
      } else {
        OwnedAfterRemove(cfg, m, v, i, h.task.Id());
      }
    } else {
      AgreeOnlyLanded(m, v, {}, PhaseOf(h), v, Waiting);
      NothingElse(m, v);
    }
  }

  lemma NothingElse(m: Memory, v: View)
    requires Agree(m, v, {}, Waiting)
    ensures v.bits == m.bitmap
  {
  }

  lemma NothingSuspect(m: Memory, v: View, i: nat)
    requires Agree(m, v, Elsewhere({}, i), Waiting)
    ensures v.bits == m.bitmap
  {
    assert Elsewhere({}, i) == {};
    NothingElse(m, v);
  }

  // ---- writes that fail ----

  /**
   Whatever fails, device and memory differ only at slots whose bitmap write failed and at that of
   the write which has landed and not completed; and at no more than one slot of a bitmap block.
   */
  lemma Disagreements(cfg: Config, disk: Disk, steps: seq<Step>, s: State)
    requires Sound(cfg.fixes) && Reaches(cfg, disk, steps, s)
    ensures forall i | 0 <= i < |s.mem.bitmap| && DiskBit(cfg.geo, s.disk, i) != s.mem.bitmap[i] ::
      i in Failures(cfg, Initial(cfg, disk), steps) || LandedAt(PhaseOf(HolderOf(s)), i)
    ensures forall i, j | 0 <= i < j < |s.mem.bitmap| && DiskBit(cfg.geo, s.disk, i) != s.mem.bitmap[i]
      && DiskBit(cfg.geo, s.disk, j) != s.mem.bitmap[j] :: BitmapIndex(i) != BitmapIndex(j)
    ensures forall i | 0 <= i < cfg.geo.count && DiskBit(cfg.geo, s.disk, i) :: HeaderGood(cfg.geo, s.disk, i)
  {
    hide BlankDevice, Roomy, Readable, IsRun, After, IsCareful, Locking, Called, FlightOk, Owned, Counted, DiskBit,
      HeaderGood, OwnerAt, BitmapIndex;
    SuspectsFailed(cfg, Initial(cfg, disk), steps);
    ReachesInv(cfg, disk, steps, s);
    var v := ViewOf(cfg.geo, s.disk);
    assert forall i | 0 <= i < |s.mem.bitmap| :: v.bits[i] == DiskBit(cfg.geo, s.disk, i);
  }

  /** A bitmap write that succeeds brings its whole block into agreement, whatever had failed there before. */
  lemma NextWriteHeals(cfg: Config, s: State, t: nat)
    requires ValidConfig(cfg) && Inv(cfg, s) && Enabled(cfg, s, Finish(t, true)) && s.tasks[t].phase.BitmapWrite?
    ensures var s', b := FinishTask(cfg, s, t, true), BitmapIndex(s.tasks[t].phase.index);
      && |s'.mem.bitmap| == cfg.geo.count
      && SameBlock(ViewOf(cfg.geo, s'.disk).bits, s'.mem.bitmap, b)
      && forall i | i in s'.suspect :: i in s.suspect && BitmapIndex(i) != b
  {
    var v, task := ViewOf(cfg.geo, s.disk), s.tasks[t];
    hide ViewOf, Roomy, Core, FlightOk, CloneImage, BitmapIndex, SameBlock, Prepared, Enabled, FinishTask, Elsewhere,
      Locking, Called, Readable;
    HolderMoves(cfg, s, v, t);
    BitmapFlight(cfg, s.mem, v, task);
    BitmapWritten(cfg, s, t);
    ElsewhereMeans(s.suspect, task.phase.index);
  }

  lemma BitmapWritten(cfg: Config, s: State, t: nat)
    requires Enabled(cfg, s, Finish(t, true)) && s.tasks[t].phase.BitmapWrite?
    ensures var s', task := FinishTask(cfg, s, t, true), s.tasks[t];
      && task.phase.landed && task.phase.index < |s.mem.bitmap| && s'.disk == s.disk
      && s'.mem.bitmap == s.mem.bitmap[task.phase.index := task.adds]
      && s'.suspect == Elsewhere(s.suspect, task.phase.index)
  {
    hide Elsewhere, BitmapIndex, Inspect;
  }

  lemma ElsewhereMeans(suspect: set<nat>, i: nat)
    ensures forall j | j in Elsewhere(suspect, i) :: j in suspect && BitmapIndex(j) != BitmapIndex(i)
  {
    hide BitmapIndex;
  }
}
