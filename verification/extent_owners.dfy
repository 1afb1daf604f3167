/** Whether two slots marked on the device can name the same extent: for runs, for one call and for a configuration. */
module ExtentOwners {
  import opened Bytes
  import opened ErrorCodes
  import opened ExtentHeaders
  import opened Devices
  import opened ExtentGeometry
  import opened BitmapImages
  import opened ExtentProtocol
  import opened ExtentViews
  import opened ExtentInvariant
  import opened ExtentSteps
  import opened ExtentSafety

  /** Two slots that are both marked on the device never have headers that name the same id. */
  ghost predicate OwnersUnique(g: Geometry, disk: Disk) {
    forall i, j | 0 <= i < g.count && 0 <= j < g.count && DiskBit(g, disk, i) && DiskBit(g, disk, j)
      && OwnerAt(g, disk, i) == OwnerAt(g, disk, j) :: i == j
  }

  /** Slot `i` is marked on the device and not in memory. */
  predicate OnlyOnDevice(g: Geometry, s: State, i: nat) {
    i < |s.mem.bitmap| && DiskBit(g, s.disk, i) && !s.mem.bitmap[i]
  }

  /** The ids of the adds that have ended with a failed write. */
  function FailedIds(tasks: seq<Task>): set<U64> {
    set t | 0 <= t < |tasks| && Failed(tasks[t]) :: tasks[t].Id()
  }

  predicate Failed(task: Task) {
    task.adds && task.phase == Done(IoWriteAtFailed)
  }

  /** An add that begins is not for an id whose add has failed before. */
  predicate Untried(s: State, step: Step) {
    step.Begin? && step.t < |s.tasks| && s.tasks[step.t].adds ==> s.tasks[step.t].Id() !in FailedIds(s.tasks)
  }

  /** No id whose add has failed is ever tried again. */
  predicate IsFresh(cfg: Config, s: State, steps: seq<Step>)
    requires IsRun(cfg, s, steps)
    decreases |steps|
  {
    steps == [] || (Untried(s, steps[0]) && IsFresh(cfg, Next(cfg, s, steps[0]), steps[1..]))
  }

  // ---- the tasks ----

  lemma FailedMoves(tasks: seq<Task>, t: nat, task: Task)
    requires t < |tasks| && !Failed(tasks[t])
    ensures FailedIds(tasks[t := task]) == if Failed(task) then FailedIds(tasks) + {task.Id()} else FailedIds(tasks)
  {
    var tasks' := tasks[t := task];
    forall id | id in FailedIds(tasks) ensures id in FailedIds(tasks') {
      var u :| 0 <= u < |tasks| && Failed(tasks[u]) && tasks[u].Id() == id;
      assert tasks'[u] == tasks[u];
    }
    if Failed(task) {
      assert Failed(tasks'[t]);
    }
  }

  lemma FailedSpawned(tasks: seq<Task>, task: Task)
    requires !Failed(task)
    ensures FailedIds(tasks + [task]) == FailedIds(tasks)
  {
    var tasks' := tasks + [task];
    forall id | id in FailedIds(tasks) ensures id in FailedIds(tasks') {
      var u :| 0 <= u < |tasks| && Failed(tasks[u]) && tasks[u].Id() == id;
      assert tasks'[u] == tasks[u];
    }
  }

  // ---- where the marks come from ----

  /** Marked on the device and not in memory. */
  predicate Stray(m: Memory, v: View, i: nat) {
    i < |m.bitmap| == |v.bits| == |v.owner| && v.bits[i] && !m.bitmap[i]
  }

  /** The holder of the lock is an add of `id` to slot `i`. */
  predicate Claims(h: Holder, i: nat, id: U64) {
    h.Suspended? && Chooses(h.task, i) && h.task.Id() == id
  }

  /**
   Every mark that is only on the device was left by an add that has failed, or is that of the add under
   way; each by another id, and none of them by one that the map has.
   */
  ghost predicate Traced(m: Memory, v: View, h: Holder, failed: set<U64>) {
    && (forall i: nat | Stray(m, v, i) :: v.owner[i] in failed || Claims(h, i, v.owner[i]))
    && (forall i: nat, j: nat | Stray(m, v, i) && Stray(m, v, j) && v.owner[i] == v.owner[j] :: i == j)
    && (forall id | id in failed :: id !in m.offsets)
    && (h.Suspended? && h.task.adds ==> h.task.Id() !in failed)
  }

  /** A task takes the lock. */
  lemma TracedBegins(m: Memory, m': Memory, v: View, h: Holder, failed: set<U64>)
    requires Traced(m, v, Nobody, failed) && m' == m.(cursor := m'.cursor)
    requires h.Suspended? && h.task.adds ==> h.task.Id() !in failed
    ensures Traced(m', v, h, failed)
  {
    assert forall i: nat :: Stray(m', v, i) == Stray(m, v, i);
  }

  /** The header of an add lands. */
  lemma TracedHeader(m: Memory, v: View, task: Task, task': Task, failed: set<U64>)
    requires Traced(m, v, Suspended(task), failed) && task.adds && task.phase.HeaderWrite?
    requires task.phase.index < |v.good| == |v.owner|
    requires task' == task.(phase := HeaderWrite(task.phase.index, task.phase.bytes, true))
    ensures Traced(m, v.(good := v.good[task.phase.index := true], owner := v.owner[task.phase.index := task.Id()]),
      Suspended(task'), failed)
  {
    var v' := v.(good := v.good[task.phase.index := true], owner := v.owner[task.phase.index := task.Id()]);
    assert forall i: nat :: Stray(m, v', i) == Stray(m, v, i);
  }

  /** A bitmap block lands: of the marks in it at most the one of the task is only on the device. */
  lemma TracedBitmap(m: Memory, v: View, task: Task, task': Task, failed: set<U64>)
    requires Traced(m, v, Suspended(task), failed) && task.phase.BitmapWrite?
    requires task.phase.index < |m.bitmap| == |v.bits| == |v.owner|
    requires task.adds ==> v.owner[task.phase.index] == task.Id()
    requires task' == task.(phase := BitmapWrite(task.phase.index, task.phase.bytes, true))
    ensures Traced(m,
      v.(bits := Merge(v.bits, m.bitmap[task.phase.index := task.adds], BitmapIndex(task.phase.index))),
      Suspended(task'), failed)
  {
    hide BitmapIndex;
    var i := task.phase.index;
    var v' := v.(bits := Merge(v.bits, m.bitmap[i := task.adds], BitmapIndex(i)));
    assert forall j: nat | Stray(m, v', j) :: Stray(m, v, j) || (j == i && task.adds);
  }

  /** The lock is let go without a change of memory. */
  lemma TracedLeaves(m: Memory, v: View, task: Task, failed: set<U64>, failed': set<U64>)
    requires Traced(m, v, Suspended(task), failed)
    requires failed' == failed || (task.adds && failed' == failed + {task.Id()} && task.Id() !in m.offsets)
    requires task.adds && (task.phase.HeaderWrite? || task.phase.BitmapWrite?) ==> failed' == failed + {task.Id()}
    ensures Traced(m, v, Nobody, failed')
  {
  }

  /** A bitmap write completes: memory is as the device, in the block that was written. */
  lemma TracedDone(m: Memory, v: View, task: Task, m': Memory, failed: set<U64>)
    requires Traced(m, v, Suspended(task), failed) && task.phase.BitmapWrite?
    requires task.phase.index < |m.bitmap| == |v.bits|
    requires m'.bitmap == m.bitmap[task.phase.index := task.adds]
    requires SameBlock(v.bits, m'.bitmap, BitmapIndex(task.phase.index))
    requires forall id | id in m'.offsets :: id in m.offsets || (task.adds && id == task.Id())
    ensures Traced(m', v, Nobody, failed)
  {
    forall j: nat | Stray(m', v, j) ensures Stray(m, v, j) && j != task.phase.index {
    }
  }

  // ---- the steps ----

  ghost predicate TracedState(cfg: Config, s: State) {
    Traced(s.mem, ViewOf(cfg.geo, s.disk), HolderOf(s), FailedIds(s.tasks))
  }

  lemma InitialTraced(cfg: Config, disk: Disk)
    requires BlankDevice(cfg, disk)
    ensures TracedState(cfg, Initial(cfg, disk))
  {
    hide BlankDevice, ViewOf, Readable;
    BlankView(cfg, disk);
    assert forall i: nat :: !Stray(FreshMemory(cfg.geo.count), ViewOf(cfg.geo, disk), i);
  }

  lemma BeginTraced(cfg: Config, s: State, t: nat)
    requires Inv(cfg, s) && TracedState(cfg, s) && Enabled(cfg, s, Begin(t)) && Untried(s, Begin(t))
    ensures TracedState(cfg, BeginTask(cfg, s, t))
  {
    var s' := BeginTask(cfg, s, t);
    hide Inv, ViewOf, BeginTask, Traced, Failed, FailedIds;
    if s.tasks[t].adds {
      BeginAdd(cfg, s, t);
    } else {
      BeginDelete(cfg, s, t);
    }
    FailedMoves(s.tasks, t, s'.tasks[t]);
    TracedBegins(s.mem, s'.mem, ViewOf(cfg.geo, s.disk), HolderOf(s'), FailedIds(s.tasks));
  }

  lemma SpawnTraced(cfg: Config, s: State, task: Task)
    requires Inv(cfg, s) && TracedState(cfg, s) && Enabled(cfg, s, Spawn(task))
    ensures TracedState(cfg, Next(cfg, s, Spawn(task)))
  {
    hide Readable, Core, ViewOf, Traced, FailedIds;
    FailedSpawned(s.tasks, task);
  }

  /** The holder of the lock changes its phase and nothing else of itself. */
  lemma HolderOn(cfg: Config, s: State, s': State, t: nat)
    requires Inv(cfg, s) && t < |s.tasks| == |s'.tasks| && s.tasks[t].phase.InFlight()
    requires s'.tasks == s.tasks[t := s.tasks[t].(phase := s'.tasks[t].phase)]
    requires s'.lock == if s'.tasks[t].phase.InFlight() then Held(t) else Free
    ensures s.lock == Held(t) && HolderOf(s) == Suspended(s.tasks[t])
    ensures HolderOf(s') == if s'.tasks[t].phase.InFlight() then Suspended(s'.tasks[t]) else Nobody
    ensures FailedIds(s'.tasks)
      == if Failed(s'.tasks[t]) then FailedIds(s.tasks) + {s.tasks[t].Id()} else FailedIds(s.tasks)
    ensures |s.mem.bitmap| == cfg.geo.count && FlightOk(cfg, s.mem, ViewOf(cfg.geo, s.disk), s.tasks[t])
  {
    hide Readable, Core, ViewOf, FailedIds, FlightOk, Failed, Locking, Called;
    HolderMoves(cfg, s, ViewOf(cfg.geo, s.disk), t);
    NotFailed(s.tasks[t]);
    FailedMoves(s.tasks, t, s'.tasks[t]);
  }

  lemma HoldsIt(cfg: Config, s: State, t: nat)
    requires Inv(cfg, s) && t < |s.tasks| && s.tasks[t].phase.InFlight()
    ensures s.lock == Held(t)
  {
    hide Readable, Core, ViewOf;
    HolderMoves(cfg, s, ViewOf(cfg.geo, s.disk), t);
  }

  lemma LandHeaderTraced(cfg: Config, s: State, t: nat, s': State)
    requires Inv(cfg, s) && TracedState(cfg, s) && OnlyLands(s, t, s') && s.tasks[t].phase.HeaderWrite?
    requires var v, i := ViewOf(cfg.geo, s.disk), s.tasks[t].phase.index;
      && i < cfg.geo.count
      && ViewOf(cfg.geo, s'.disk) == v.(good := v.good[i := true], owner := v.owner[i := s.tasks[t].Id()])
    ensures TracedState(cfg, s')
  {
    hide Inv, ViewOf, Traced, FailedIds, FlightOk, HolderOf, Failed;
    HoldsIt(cfg, s, t);
    HolderOn(cfg, s, s', t);
    FlightSays(cfg, s.mem, ViewOf(cfg.geo, s.disk), s.tasks[t]);
    NotFailed(s'.tasks[t]);
    TracedHeader(s.mem, ViewOf(cfg.geo, s.disk), s.tasks[t], s'.tasks[t], FailedIds(s.tasks));
  }

  lemma LandBitmapTraced(cfg: Config, s: State, t: nat, s': State)
    requires Inv(cfg, s) && TracedState(cfg, s) && OnlyLands(s, t, s') && s.tasks[t].phase.BitmapWrite?
    requires var v, i := ViewOf(cfg.geo, s.disk), s.tasks[t].phase.index;
      && i < |s.mem.bitmap| == cfg.geo.count
      && ViewOf(cfg.geo, s'.disk)
        == v.(bits := Merge(v.bits, s.mem.bitmap[i := s.tasks[t].adds], BitmapIndex(i)))
    ensures TracedState(cfg, s')
  {
    hide Inv, ViewOf, Traced, FailedIds, BitmapIndex, Merge, FlightOk, HolderOf, Failed;
    HoldsIt(cfg, s, t);
    HolderOn(cfg, s, s', t);
    FlightSays(cfg, s.mem, ViewOf(cfg.geo, s.disk), s.tasks[t]);
    NotFailed(s'.tasks[t]);
    TracedBitmap(s.mem, ViewOf(cfg.geo, s.disk), s.tasks[t], s'.tasks[t], FailedIds(s.tasks));
  }

  lemma NotFailed(task: Task)
    ensures !task.phase.Done? ==> !Failed(task)
  {
  }

  lemma FlightSays(cfg: Config, m: Memory, v: View, task: Task)
    requires FlightOk(cfg, m, v, task)
    ensures task.phase.HeaderWrite? ==> task.adds
    ensures task.phase.Reading? ==> !task.adds
    ensures task.adds && task.phase.InFlight() ==> task.Id() !in m.offsets
    ensures task.phase.BitmapWrite? && task.adds ==>
      task.phase.index < |v.owner| && v.owner[task.phase.index] == task.Id()
  {
    hide HeaderEncode, CloneImage, SameBlock, Matched;
  }

  lemma GoesOnTraced(cfg: Config, s: State, t: nat, ok: bool, s': State)
    requires Inv(cfg, s) && TracedState(cfg, s) && OnlyFinishes(cfg, s, t, ok, s') && s.tasks[t].phase.InFlight()
    requires s'.lock.Held?
    ensures TracedState(cfg, s')
  {
    hide Inv, ViewOf, Traced, FailedIds, FlightOk, HolderOf, Failed, Insert, Remove;
    HolderOn(cfg, s, s', t);
    NotFailed(s'.tasks[t]);
    TracedGoesOn(s.mem, ViewOf(cfg.geo, s.disk), s.tasks[t], s'.tasks[t], FailedIds(s.tasks));
  }

  lemma DoneTraced(cfg: Config, s: State, t: nat, s': State)
    requires Inv(cfg, s) && TracedState(cfg, s) && OnlyFinishes(cfg, s, t, true, s') && s.tasks[t].phase.BitmapWrite?
    ensures TracedState(cfg, s')
  {
    var v := ViewOf(cfg.geo, s.disk);
    hide Inv, ViewOf, Traced, FailedIds, BitmapIndex, FlightOk, Insert, Remove, HolderOf;
    HolderOn(cfg, s, s', t);
    WriteDone(cfg, s.mem, v, s.tasks[t], s'.mem);
    TracedDone(s.mem, v, s.tasks[t], s'.mem, FailedIds(s.tasks));
  }

  lemma LeavesTraced(cfg: Config, s: State, t: nat, ok: bool, s': State)
    requires Inv(cfg, s) && TracedState(cfg, s) && OnlyFinishes(cfg, s, t, ok, s') && s.tasks[t].phase.InFlight()
    requires s'.lock.Free? && !(ok && s.tasks[t].phase.BitmapWrite?)
    ensures TracedState(cfg, s')
  {
    var v := ViewOf(cfg.geo, s.disk);
    hide Inv, ViewOf, Traced, FailedIds, FlightOk, HolderOf, Insert, Remove;
    HolderOn(cfg, s, s', t);
    FlightSays(cfg, s.mem, v, s.tasks[t]);
    TracedLeaves(s.mem, v, s.tasks[t], FailedIds(s.tasks), FailedIds(s'.tasks));
  }

  /** A transfer is over and the next one begins. */
  lemma TracedGoesOn(m: Memory, v: View, task: Task, task': Task, failed: set<U64>)
    requires Traced(m, v, Suspended(task), failed) && task' == task.(phase := task'.phase)
    requires task.phase.HeaderWrite? ==> task'.phase.BitmapWrite? && task'.phase.index == task.phase.index
    requires task.phase.BitmapWrite? ==> task' == task
    ensures Traced(m, v, Suspended(task'), failed)
  {
  }

  /** A bitmap write that completes brings device and memory together in its block. */
  lemma WriteDone(cfg: Config, m: Memory, v: View, task: Task, m': Memory)
    requires FlightOk(cfg, m, v, task) && task.phase.BitmapWrite? && task.phase.landed
    requires task.phase.index < |m.bitmap|
    requires m' == if task.adds then Insert(cfg, m, task.phase.index, task.Id())
      else Remove(cfg, m, task.phase.index, task.Id())
    ensures m'.bitmap == m.bitmap[task.phase.index := task.adds] && |m.bitmap| == |v.bits|
    ensures SameBlock(v.bits, m'.bitmap, BitmapIndex(task.phase.index))
    ensures forall id | id in m'.offsets :: id in m.offsets || (task.adds && id == task.Id())
  {
    hide SameBlock, BitmapIndex, CloneImage, ExtentOffset, FlightOk;
    BitmapFlight(cfg, m, v, task);
  }

  lemma FinishTraced(cfg: Config, s: State, t: nat, ok: bool)
    requires Inv(cfg, s) && TracedState(cfg, s) && Enabled(cfg, s, Finish(t, ok))
    ensures TracedState(cfg, FinishTask(cfg, s, t, ok))
  {
    var s' := FinishTask(cfg, s, t, ok);
    CanOnlyFly(cfg, s, t, ok);
    hide Inv, TracedState, FinishTask, CanFinish, OnlyFinishes;
    HoldsIt(cfg, s, t);
    FinishShape(cfg, s, t, ok);
    if s'.lock.Held? {
      GoesOnTraced(cfg, s, t, ok, s');
    } else if ok && s.tasks[t].phase.BitmapWrite? {
      DoneTraced(cfg, s, t, s');
    } else {
      LeavesTraced(cfg, s, t, ok, s');
    }
  }

  lemma LandTraced(cfg: Config, s: State, t: nat)
    requires ValidConfig(cfg) && Inv(cfg, s) && TracedState(cfg, s) && Enabled(cfg, s, Land(t))
    ensures TracedState(cfg, LandTask(cfg, s, t))
  {
    hide Inv, TracedState, LandTask, Roomy, OnlyLands, ViewOf, Merge, BitmapIndex, CanLand;
    LandShape(cfg, s, t);
    if s.tasks[t].phase.HeaderWrite? {
      HeaderSeen(cfg, s, t);
      LandHeaderTraced(cfg, s, t, LandTask(cfg, s, t));
    } else {
      BitmapSeen(cfg, s, t);
      LandBitmapTraced(cfg, s, t, LandTask(cfg, s, t));
    }
  }

  lemma StepTraced(cfg: Config, s: State, step: Step)
    requires ValidConfig(cfg) && Inv(cfg, s) && TracedState(cfg, s) && Enabled(cfg, s, step) && Untried(s, step)
    ensures TracedState(cfg, Next(cfg, s, step))
  {
    hide Inv, TracedState, Enabled, BeginTask, LandTask, FinishTask, Roomy, Untried;
    match step
    case Spawn(task) => SpawnTraced(cfg, s, task);
    case Begin(t) => BeginTraced(cfg, s, t);
    case Land(t) => LandTraced(cfg, s, t);
    case Finish(t, ok) => FinishTraced(cfg, s, t, ok);
  }

  lemma {:induction false} RunTraced(cfg: Config, s: State, steps: seq<Step>)
    requires ValidConfig(cfg) && Sound(cfg.fixes) && Inv(cfg, s) && TracedState(cfg, s)
    requires IsRun(cfg, s, steps) && IsCareful(cfg, s, steps) && IsFresh(cfg, s, steps)
    ensures TracedState(cfg, After(cfg, s, steps))
    decreases |steps|
  {
    if steps != [] {
      hide Inv, TracedState, Next, Enabled, Careful, ValidConfig, Untried;
      StepTraced(cfg, s, steps[0]);
      StepKeeps(cfg, s, steps[0]);
      RunTraced(cfg, Next(cfg, s, steps[0]), steps[1..]);
    }
  }

  // ---- owners in every run ----

  /** No stray mark has an owner that is in the map, and no two of them share one. */
  ghost predicate StraysApart(m: Memory, v: View) {
    && (forall i: nat | Stray(m, v, i) :: v.owner[i] !in m.offsets)
    && (forall i: nat, j: nat | Stray(m, v, i) && Stray(m, v, j) && v.owner[i] == v.owner[j] :: i == j)
  }

  ghost predicate DistinctMarks(bits: seq<bool>, owner: seq<U64>) {
    |bits| == |owner| &&
    forall i, j | 0 <= i < |bits| && 0 <= j < |bits| && bits[i] && bits[j] && owner[i] == owner[j] :: i == j
  }

  lemma ApartIsDistinct(cfg: Config, m: Memory, v: View)
    requires Roomy(cfg.geo) && |m.bitmap| == |v.bits| == |v.good| == |v.owner| == cfg.geo.count
    requires Owned(cfg.geo, m.bitmap, v, m.offsets)
    ensures StraysApart(m, v) ==> DistinctMarks(v.bits, v.owner)
    ensures (forall i | 0 <= i < |m.bitmap| && m.bitmap[i] :: v.bits[i]) ==>
      (DistinctMarks(v.bits, v.owner) <==> StraysApart(m, v))
  {
    hide ExtentOffset, Roomy, Owned;
    AddressesApart(cfg.geo);
    forall i: nat | i < |m.bitmap| && m.bitmap[i]
      ensures v.owner[i] in m.offsets && m.offsets[v.owner[i]] == ExtentOffset(cfg.geo, i)
    {
      OwnerIn(cfg.geo, m.bitmap, v, m.offsets, i);
    }
    assert forall i: nat | i < |v.bits| && v.bits[i] :: Stray(m, v, i) || m.bitmap[i];
    if (forall i | 0 <= i < |m.bitmap| && m.bitmap[i] :: v.bits[i]) && DistinctMarks(v.bits, v.owner) {
      forall i: nat | Stray(m, v, i) ensures v.owner[i] !in m.offsets {
        if v.owner[i] in m.offsets {
          var j := SlotOf(cfg, m.bitmap, v, m.offsets, v.owner[i]);
        }
      }
    }
  }

  lemma UniqueInView(g: Geometry, disk: Disk)
    ensures OwnersUnique(g, disk) <==> DistinctMarks(ViewOf(g, disk).bits, ViewOf(g, disk).owner)
  {
    hide DiskBit, OwnerAt, HeaderGood;
  }

  lemma TracedIsApart(cfg: Config, m: Memory, v: View, h: Holder, failed: set<U64>)
    requires Traced(m, v, h, failed) && (h.Suspended? ==> FlightOk(cfg, m, v, h.task))
    ensures StraysApart(m, v)
  {
    hide FlightOk;
    if h.Suspended? {
      FlightSays(cfg, m, v, h.task);
    }
  }

  lemma OwnersOfState(cfg: Config, s: State)
    requires Roomy(cfg.geo) && Inv(cfg, s) && TracedState(cfg, s)
    ensures |s.mem.bitmap| == cfg.geo.count && OwnersUnique(cfg.geo, s.disk)
    ensures forall i: nat | OnlyOnDevice(cfg.geo, s, i) ::
      OwnerAt(cfg.geo, s.disk, i) in FailedIds(s.tasks) || Claims(HolderOf(s), i, OwnerAt(cfg.geo, s.disk, i))
  {
    var v := ViewOf(cfg.geo, s.disk);
    hide Roomy, Readable, Owned, Locking, Called, Core, FlightOk, OwnersUnique, DistinctMarks, StraysApart, FailedIds,
      Claims, DiskBit, OwnerAt, HeaderGood;
    CoreParts(cfg, s.mem, v, s.suspect, HolderOf(s));
    TracedIsApart(cfg, s.mem, v, HolderOf(s), FailedIds(s.tasks));
    ApartIsDistinct(cfg, s.mem, v);
    UniqueInView(cfg.geo, s.disk);
    forall i: nat | OnlyOnDevice(cfg.geo, s, i)
      ensures Stray(s.mem, v, i) && v.owner[i] == OwnerAt(cfg.geo, s.disk, i)
    {
    }
  }

  lemma FreshTraced(cfg: Config, disk: Disk, steps: seq<Step>, s: State)
    requires Sound(cfg.fixes) && Reaches(cfg, disk, steps, s) && IsFresh(cfg, Initial(cfg, disk), steps)
    ensures Roomy(cfg.geo) && Inv(cfg, s) && TracedState(cfg, s)
  {
    hide Roomy, Inv, TracedState, BlankDevice, After, IsFresh, IsCareful;
    InitialInv(cfg, disk);
    InitialTraced(cfg, disk);
    RunKeeps(cfg, Initial(cfg, disk), steps);
    RunTraced(cfg, Initial(cfg, disk), steps);
  }

  /**
   Whatever fails and whenever the device is looked at: as long as no id is added again after an add of
   it has ended with a failed write, no two slots marked on the device have headers that name one id. A
   mark that memory does not have is that of the add under way or of one that failed.
   */
  lemma DeviceOwners(cfg: Config, disk: Disk, steps: seq<Step>, s: State)
    requires Sound(cfg.fixes) && Reaches(cfg, disk, steps, s) && IsFresh(cfg, Initial(cfg, disk), steps)
    ensures OwnersUnique(cfg.geo, s.disk)
    ensures forall i: nat | OnlyOnDevice(cfg.geo, s, i) ::
      OwnerAt(cfg.geo, s.disk, i) in FailedIds(s.tasks) || Claims(HolderOf(s), i, OwnerAt(cfg.geo, s.disk, i))
  {
    hide Roomy, Reaches, IsFresh, Inv, TracedState, OwnersUnique;
    FreshTraced(cfg, disk, steps, s);
    OwnersOfState(cfg, s);
  }

  // ---- ids that come once ----

  /** No two adds are for the same id. */
  ghost predicate IdsOnce(tasks: seq<Task>) {
    forall t, u | 0 <= t < u < |tasks| && tasks[t].adds && tasks[u].adds :: tasks[t].Id() != tasks[u].Id()
  }

  ghost predicate SameCalls(tasks: seq<Task>, tasks': seq<Task>) {
    |tasks| <= |tasks'| &&
    forall t | 0 <= t < |tasks| :: tasks'[t].adds == tasks[t].adds && tasks'[t].Id() == tasks[t].Id()
  }

  lemma StepSameCalls(cfg: Config, s: State, step: Step)
    requires Enabled(cfg, s, step)
    ensures SameCalls(s.tasks, Next(cfg, s, step).tasks)
  {
    hide Admit, Indexed, HeaderEncode, BitmapWriteOf, Insert, Remove, Inspect, HeaderBlock, BitmapBlock, BitmapIndex,
      Elsewhere, OnlyBegins;
    if step.Begin? && s.tasks[step.t].adds {
      var (m, admission) := Admit(cfg, s.mem, s.tasks[step.t].Id());
      if admission.Admitted? {
        IndexedKeeps(s.tasks[step.t].header, admission.index);
      }
    }
  }

  lemma {:induction false} RunSameCalls(cfg: Config, s: State, steps: seq<Step>)
    requires IsRun(cfg, s, steps)
    ensures SameCalls(s.tasks, After(cfg, s, steps).tasks)
    decreases |steps|
  {
    if steps != [] {
      hide Enabled, Next;
      StepSameCalls(cfg, s, steps[0]);
      RunSameCalls(cfg, Next(cfg, s, steps[0]), steps[1..]);
    }
  }

  /** A run in which no id is added twice is fresh. */
  lemma {:induction false} OnceIsFresh(cfg: Config, s: State, steps: seq<Step>)
    requires IsRun(cfg, s, steps) && IdsOnce(After(cfg, s, steps).tasks)
    ensures IsFresh(cfg, s, steps)
    decreases |steps|
  {
    if steps != [] {
      hide Next, IdsOnce, SameCalls;
      OnceUntried(cfg, s, steps);
      hide Enabled, Untried;
      OnceIsFresh(cfg, Next(cfg, s, steps[0]), steps[1..]);
    }
  }

  lemma OnceUntried(cfg: Config, s: State, steps: seq<Step>)
    requires IsRun(cfg, s, steps) && steps != [] && IdsOnce(After(cfg, s, steps).tasks)
    ensures Untried(s, steps[0])
  {
    RunSameCalls(cfg, s, steps);
    if steps[0].Begin? {
      BegunIsNotDone(cfg, s, steps);
      hide IsRun, After, IdsOnce, SameCalls, FailedIds;
      if s.tasks[steps[0].t].adds {
        NotAmongFailed(s.tasks, steps[0].t, After(cfg, s, steps).tasks);
      }
    }
  }

  lemma NotAmongFailed(tasks: seq<Task>, t: nat, last: seq<Task>)
    requires SameCalls(tasks, last) && IdsOnce(last) && t < |tasks| && tasks[t].adds && !Failed(tasks[t])
    ensures tasks[t].Id() !in FailedIds(tasks)
  {
    forall u | 0 <= u < |tasks| && u != t && tasks[u].adds ensures tasks[u].Id() != tasks[t].Id() {
      assert last[u].adds && last[t].adds;
    }
  }

  lemma BegunIsNotDone(cfg: Config, s: State, steps: seq<Step>)
    requires IsRun(cfg, s, steps) && steps != [] && steps[0].Begin?
    ensures steps[0].t < |s.tasks| && s.tasks[steps[0].t].phase.Waiting?
  {
    hide Next, Admit;
  }
}
