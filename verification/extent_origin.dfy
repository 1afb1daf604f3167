/** Where the header of a live extent comes from: the call that added it. */
module ExtentOrigins {
  import opened Bytes
  import opened ErrorCodes
  import opened ExtentHeaders
  import opened Devices
  import opened ExtentGeometry
  import opened ExtentProtocol
  import opened ExtentViews
  import opened ExtentInvariant
  import opened ExtentSteps
  import opened ExtentSafety
  import opened ExtentAccounting
  import opened ExtentSerial
  import opened ExtentOutcomes

  /** The task has the header it came with, or that header set for the slot it has got. */
  ghost predicate Carries(came: Header, task: Task) {
    if task.adds && (task.phase.HeaderWrite? || task.phase.BitmapWrite? || task.phase == Done(ErrorCode.Ok)) then
      SetFrom(came, task.header, task.Index())
    else task.phase.Waiting? ==> task.header == came
  }

  /** The header block of slot `i` decodes to `h`. */
  ghost predicate Shows(g: Geometry, disk: Disk, i: nat, h: Header) {
    HeaderBlock(g, i) in disk && HeaderDecode(BlankHeader(), disk[HeaderBlock(g, i)], Repaired) == (h, ErrorCode.Ok)
  }

  /** Task `t` has added an extent to slot `i` with the header that is there. */
  ghost predicate Brought(g: Geometry, disk: Disk, tasks: seq<Task>, came: seq<Header>, i: nat, t: nat) {
    && t < |tasks| == |came| && tasks[t].adds && tasks[t].phase == Done(ErrorCode.Ok)
    && tasks[t].Index() == i && SetFrom(came[t], tasks[t].header, tasks[t].Index())
    && Shows(g, disk, i, tasks[t].header)
  }

  /** The header that an add under way has written stands on the device; of one that has not, the bytes are right. */
  ghost predicate Underway(g: Geometry, disk: Disk, task: Task) {
    task.adds ==>
      && (task.phase.HeaderWrite? && !task.phase.landed ==>
            task.header.Valid() && Encodes(task.phase.bytes, task.header))
      && (task.phase.HeaderWrite? || task.phase.BitmapWrite? ==> task.Index() == task.phase.index)
      && ((task.phase.HeaderWrite? && task.phase.landed) || task.phase.BitmapWrite? ==>
            Shows(g, disk, task.phase.index, task.header))
  }

  ghost predicate Encodes(bytes: seq<bv8>, h: Header) {
    HeaderDecode(BlankHeader(), bytes, Repaired) == (h, ErrorCode.Ok)
  }

  ghost predicate Traceable(cfg: Config, s: State, came: seq<Header>) {
    && |came| == |s.tasks|
    && (forall t | 0 <= t < |s.tasks| :: Carries(came[t], s.tasks[t]))
    && (forall t | 0 <= t < |s.tasks| :: Underway(cfg.geo, s.disk, s.tasks[t]))
    && (forall i: nat | i < |s.mem.bitmap| && s.mem.bitmap[i] ::
          exists t: nat :: Brought(cfg.geo, s.disk, s.tasks, came, i, t))
  }

  // ---- the steps ----

  /** Task `t` moves; the other tasks, and the headers of the extents of finished adds, stay. */
  lemma TaskMovesOn(cfg: Config, s: State, t: nat, s': State, came: seq<Header>)
    requires Traceable(cfg, s, came) && t < |s.tasks| == |s'.tasks| && s'.tasks == s.tasks[t := s'.tasks[t]]
    requires !s.tasks[t].phase.Done? && Carries(came[t], s'.tasks[t]) && Underway(cfg.geo, s'.disk, s'.tasks[t])
    requires forall u | 0 <= u < |s.tasks| && u != t :: !s.tasks[u].phase.InFlight()
    requires forall i: nat | i < |s.mem.bitmap| && s.mem.bitmap[i] ::
      SameAt(s.disk, s'.disk, HeaderBlock(cfg.geo, i))
    requires |s'.mem.bitmap| == |s.mem.bitmap|
    requires forall i: nat | i < |s.mem.bitmap| && s'.mem.bitmap[i] ::
      s.mem.bitmap[i] || Brought(cfg.geo, s'.disk, s'.tasks, came, i, t)
    ensures Traceable(cfg, s', came)
  {
    hide Carries, Shows, SetFrom, HeaderBlock, Underway;
    forall u | 0 <= u < |s.tasks| && u != t ensures Underway(cfg.geo, s'.disk, s'.tasks[u]) {
      Idle(cfg.geo, s'.disk, s.tasks[u]);
    }
    forall i: nat | i < |s.mem.bitmap| && s'.mem.bitmap[i]
      ensures exists u: nat :: Brought(cfg.geo, s'.disk, s'.tasks, came, i, u)
    {
      if s.mem.bitmap[i] {
        var u: nat :| Brought(cfg.geo, s.disk, s.tasks, came, i, u);
        ShowsStill(cfg.geo, s.disk, s'.disk, i, s.tasks[u].header);
        assert Brought(cfg.geo, s'.disk, s'.tasks, came, i, u);
      } else {
        assert Brought(cfg.geo, s'.disk, s'.tasks, came, i, t);
      }
    }
  }

  lemma Idle(g: Geometry, disk: Disk, task: Task)
    requires !task.phase.InFlight()
    ensures Underway(g, disk, task)
  {
  }

  lemma ShowsStill(g: Geometry, disk: Disk, after: Disk, i: nat, h: Header)
    requires Shows(g, disk, i, h) && SameAt(disk, after, HeaderBlock(g, i))
    ensures Shows(g, after, i, h)
  {
    hide HeaderBlock, HeaderDecode;
  }

  lemma OthersIdle(cfg: Config, s: State, t: nat)
    requires Inv(cfg, s) && t < |s.tasks| && (s.lock.Free? || s.tasks[t].phase.InFlight())
    ensures forall u | 0 <= u < |s.tasks| && u != t :: !s.tasks[u].phase.InFlight()
    ensures s.tasks[t].phase.InFlight() ==> s.lock == Held(t)
  {
    hide Core, Readable, Called, ViewOf;
  }

  lemma SpawnTraceable(cfg: Config, s: State, task: Task, came: seq<Header>)
    requires Traceable(cfg, s, came) && Enabled(cfg, s, Spawn(task))
    ensures Traceable(cfg, Next(cfg, s, Spawn(task)), came + [task.header])
  {
    hide Shows, SetFrom, HeaderBlock, Encodes;
    var s', came' := Next(cfg, s, Spawn(task)), came + [task.header];
    forall i: nat | i < |s.mem.bitmap| && s.mem.bitmap[i]
      ensures exists t: nat :: Brought(cfg.geo, s'.disk, s'.tasks, came', i, t)
    {
      var t: nat :| Brought(cfg.geo, s.disk, s.tasks, came, i, t);
      assert Brought(cfg.geo, s'.disk, s'.tasks, came', i, t);
    }
  }

  /** What an add starts with once it has its slot. */
  lemma AdmittedStarts(g: Geometry, disk: Disk, header: Header, i: U32)
    requires header.Valid()
    ensures var task := Task(true, Indexed(header, i), HeaderWrite(i, HeaderEncode(Indexed(header, i)), false));
      Carries(header, task) && Underway(g, disk, task)
  {
    hide Indexed, HeaderEncode, HeaderDecode, HeaderStamped, SetFrom, Shows, BlankHeader;
    IndexedSets(header, i);
    IndexedReads(BlankHeader(), header, i);
    IndexedKeeps(header, i);
  }

  lemma BeginStarts(cfg: Config, s: State, t: nat, came: Header)
    requires Enabled(cfg, s, Begin(t)) && Carries(came, s.tasks[t])
    ensures var s' := BeginTask(cfg, s, t);
      t < |s'.tasks| && Carries(came, s'.tasks[t]) && Underway(cfg.geo, s'.disk, s'.tasks[t])
  {
    hide Admit, Indexed, HeaderEncode, SetFrom, Shows, Encodes;
    NotRefusedOk(cfg, s.mem, s.tasks[t].Id());
    if s.tasks[t].adds && Admit(cfg, s.mem, s.tasks[t].Id()).1.Admitted? {
      AdmittedStarts(cfg.geo, s.disk, s.tasks[t].header, Admit(cfg, s.mem, s.tasks[t].Id()).1.index);
    }
  }

  lemma BeginTraceable(cfg: Config, s: State, t: nat, came: seq<Header>)
    requires Inv(cfg, s) && Traceable(cfg, s, came) && Enabled(cfg, s, Begin(t))
    ensures Traceable(cfg, BeginTask(cfg, s, t), came)
  {
    var s' := BeginTask(cfg, s, t);
    StepTask(cfg, s, Begin(t));
    if s.tasks[t].adds {
      BeginAdd(cfg, s, t);
    } else {
      BeginDelete(cfg, s, t);
    }
    BeginStarts(cfg, s, t, came[t]);
    hide Inv, Enabled, BeginTask, Carries, Underway, Brought;
    OthersIdle(cfg, s, t);
    TaskMovesOn(cfg, s, t, s', came);
  }

  lemma LandStarts(g: Geometry, disk: Disk, task: Task, came: Header, task': Task, disk': Disk)
    requires Carries(came, task) && Underway(g, disk, task) && (task.phase.HeaderWrite? || task.phase.BitmapWrite?)
    requires task' == task.(phase := task'.phase)
    requires task.phase.HeaderWrite? ==>
      && !task.phase.landed && task'.phase == HeaderWrite(task.phase.index, task.phase.bytes, true)
      && disk' == disk[HeaderBlock(g, task.phase.index) := task.phase.bytes]
    requires task.phase.BitmapWrite? ==>
      && task'.phase == BitmapWrite(task.phase.index, task.phase.bytes, true)
      && SameAt(disk, disk', HeaderBlock(g, task.phase.index))
    ensures Carries(came, task') && Underway(g, disk', task')
  {
    hide SetFrom, HeaderBlock, HeaderDecode;
  }

  lemma LandTraceable(cfg: Config, s: State, t: nat, came: seq<Header>)
    requires Roomy(cfg.geo) && Inv(cfg, s) && Traceable(cfg, s, came) && Enabled(cfg, s, Land(t))
    ensures Traceable(cfg, LandTask(cfg, s, t), came)
  {
    var s' := LandTask(cfg, s, t);
    hide Roomy, Inv, Carries, Underway, Brought, HeaderBlock, BitmapBlock, BitmapIndex, OnlyLands;
    LandShape(cfg, s, t);
    OthersIdle(cfg, s, t);
    forall i: nat | i < |s.mem.bitmap| && s.mem.bitmap[i] ensures SameAt(s.disk, s'.disk, HeaderBlock(cfg.geo, i)) {
      LiveHeadersStay(cfg, s, Land(t), i);
    }
    if s.tasks[t].phase.BitmapWrite? {
      BitmapSpares(cfg, s, t);
    }
    LandStarts(cfg.geo, s.disk, s.tasks[t], came[t], s'.tasks[t], s'.disk);
    LandMoves(cfg, s, t);
    hide LandTask;
    TaskMovesOn(cfg, s, t, s', came);
  }

  lemma LandMoves(cfg: Config, s: State, t: nat)
    requires Enabled(cfg, s, Land(t))
    ensures var s' := LandTask(cfg, s, t);
      && t < |s.tasks| == |s'.tasks| && s'.tasks == s.tasks[t := s'.tasks[t]] && !s.tasks[t].phase.Done?
      && s'.mem == s.mem
  {
    hide HeaderBlock, BitmapBlock, BitmapIndex;
  }

  /** A bitmap write spares the header of its own slot too. */
  lemma BitmapSpares(cfg: Config, s: State, t: nat)
    requires Roomy(cfg.geo) && Inv(cfg, s) && Enabled(cfg, s, Land(t)) && s.tasks[t].phase.BitmapWrite?
    ensures SameAt(s.disk, LandTask(cfg, s, t).disk, HeaderBlock(cfg.geo, s.tasks[t].phase.index))
  {
    hide Inv, HeaderBlock, BitmapBlock, Roomy, BitmapIndex, SameAt;
    InFlightIndex(cfg, s, t);
    var i := s.tasks[t].phase.index;
    HeaderNotBitmap(cfg.geo, i);
    OtherBlockStays(s.disk, BitmapBlock(cfg.geo, BitmapIndex(i)), s.tasks[t].phase.bytes, HeaderBlock(cfg.geo, i));
  }

  lemma OtherBlockStays(disk: Disk, k: nat, bytes: seq<bv8>, other: nat)
    requires other != k
    ensures SameAt(disk, disk[k := bytes], other)
  {
  }

  lemma InFlightIndex(cfg: Config, s: State, t: nat)
    requires Inv(cfg, s) && t < |s.tasks| && s.tasks[t].phase.BitmapWrite?
    ensures s.tasks[t].phase.index < cfg.geo.count
  {
    hide Readable, Core, ViewOf, FlightOk;
    HolderMoves(cfg, s, ViewOf(cfg.geo, s.disk), t);
    FlightIndex(cfg, s.mem, ViewOf(cfg.geo, s.disk), s.tasks[t]);
  }

  lemma ReadersDelete(cfg: Config, s: State, t: nat)
    requires Inv(cfg, s) && t < |s.tasks| && s.tasks[t].phase.Reading?
    ensures !s.tasks[t].adds
  {
    hide Readable, Core, ViewOf;
    HolderMoves(cfg, s, ViewOf(cfg.geo, s.disk), t);
  }

  lemma FinishStarts(cfg: Config, s: State, t: nat, ok: bool, s': State, came: Header)
    requires OnlyFinishes(cfg, s, t, ok, s') && s.tasks[t].phase.InFlight()
    requires s.tasks[t].adds ==> !s.tasks[t].phase.Reading?
    requires Carries(came, s.tasks[t]) && Underway(cfg.geo, s.disk, s.tasks[t])
    ensures Carries(came, s'.tasks[t]) && Underway(cfg.geo, s'.disk, s'.tasks[t])
  {
    hide SetFrom, Shows, Encodes, Insert, Remove;
  }

  /** A finish marks no slot but that of an add that succeeds, and the header of that is on the device. */
  lemma FinishBrings(cfg: Config, s: State, t: nat, ok: bool, s': State, came: seq<Header>, i: nat)
    requires OnlyFinishes(cfg, s, t, ok, s') && s.tasks[t].phase.InFlight() && |came| == |s.tasks|
    requires Carries(came[t], s.tasks[t]) && Underway(cfg.geo, s.disk, s.tasks[t])
    requires |s'.mem.bitmap| == |s.mem.bitmap| && i < |s.mem.bitmap| && s'.mem.bitmap[i] && !s.mem.bitmap[i]
    ensures Brought(cfg.geo, s'.disk, s'.tasks, came, i, t)
  {
    hide SetFrom, Shows, Encodes;
  }

  lemma FinishSizes(cfg: Config, s: State, t: nat, ok: bool, s': State)
    requires OnlyFinishes(cfg, s, t, ok, s')
    ensures |s'.mem.bitmap| == |s.mem.bitmap| && s'.disk == s.disk
    ensures |s'.tasks| == |s.tasks| && s'.tasks == s.tasks[t := s'.tasks[t]]
  {
  }

  lemma FinishTraceable(cfg: Config, s: State, t: nat, ok: bool, came: seq<Header>)
    requires Inv(cfg, s) && Traceable(cfg, s, came) && Enabled(cfg, s, Finish(t, ok))
    ensures Traceable(cfg, FinishTask(cfg, s, t, ok), came)
  {
    hide Inv, FinishTask, Carries, Underway, Brought, OnlyFinishes, Enabled, SameAt;
    CanOnlyFly(cfg, s, t, ok);
    OthersIdle(cfg, s, t);
    FinishShape(cfg, s, t, ok);
    var s' := FinishTask(cfg, s, t, ok);
    FinishSizes(cfg, s, t, ok, s');
    if s.tasks[t].phase.Reading? {
      ReadersDelete(cfg, s, t);
    }
    FinishStarts(cfg, s, t, ok, s', came[t]);
    forall i: nat | i < |s.mem.bitmap| && s'.mem.bitmap[i]
      ensures s.mem.bitmap[i] || Brought(cfg.geo, s'.disk, s'.tasks, came, i, t)
    {
      if !s.mem.bitmap[i] {
        FinishBrings(cfg, s, t, ok, s', came, i);
      }
    }
    Unchanged(cfg.geo, s.disk, s.mem.bitmap);
    TaskMovesOn(cfg, s, t, s', came);
  }

  lemma Unchanged(g: Geometry, disk: Disk, bits: seq<bool>)
    ensures forall i: nat | i < |bits| && bits[i] :: SameAt(disk, disk, HeaderBlock(g, i))
  {
    hide HeaderBlock;
  }

  lemma StepTraceable(cfg: Config, s: State, step: Step, came: seq<Header>)
    requires Roomy(cfg.geo) && Inv(cfg, s) && Traceable(cfg, s, came) && Enabled(cfg, s, step)
    ensures Traceable(cfg, Next(cfg, s, step), came + ArrivedBy(step))
  {
    hide Roomy, Inv, Traceable, Enabled, BeginTask, LandTask, FinishTask;
    if step.Spawn? {
      SpawnTraceable(cfg, s, step.task, came);
    } else {
      assert came + [] == came;
      match step
      case Begin(t) => BeginTraceable(cfg, s, t, came);
      case Land(t) => LandTraceable(cfg, s, t, came);
      case Finish(t, ok) => FinishTraceable(cfg, s, t, ok, came);
    }
  }

  lemma {:induction false} RunTraceable(cfg: Config, s: State, steps: seq<Step>, came: seq<Header>)
    requires ValidConfig(cfg) && Sound(cfg.fixes) && Inv(cfg, s) && Traceable(cfg, s, came)
    requires IsRun(cfg, s, steps) && IsCareful(cfg, s, steps)
    ensures Traceable(cfg, After(cfg, s, steps), came + Arrivals(steps))
    decreases |steps|
  {
    hide Roomy, Inv, Traceable, Enabled, Careful, Next, ArrivedBy;
    if steps == [] {
      assert came + [] == came;
    } else {
      StepTraceable(cfg, s, steps[0], came);
      StepKeeps(cfg, s, steps[0]);
      RunTraceable(cfg, Next(cfg, s, steps[0]), steps[1..], came + ArrivedBy(steps[0]));
      Associates(came, ArrivedBy(steps[0]), Arrivals(steps[1..]));
    }
  }

  /**
   Whatever runs, fails or comes in between: the header block of every live extent decodes to the header that
   the call brought which added it, with the index, both magics and the CRC set and every other field as it came.
   */
  lemma HeadersBrought(cfg: Config, disk: Disk, steps: seq<Step>, s: State, i: nat)
    requires Sound(cfg.fixes) && Reaches(cfg, disk, steps, s) && i < |s.mem.bitmap| && s.mem.bitmap[i]
    ensures |Arrivals(steps)| == |s.tasks|
    ensures exists t: nat :: Brought(cfg.geo, s.disk, s.tasks, Arrivals(steps), i, t)
  {
    hide Roomy, Inv, Traceable, IsRun, After, IsCareful, BlankDevice, Arrivals;
    InitialInv(cfg, disk);
    InitialTraceable(cfg, disk);
    RunTraceable(cfg, Initial(cfg, disk), steps, []);
    assert [] + Arrivals(steps) == Arrivals(steps);
    TraceableMeans(cfg, s, Arrivals(steps), i);
  }

  lemma TraceableMeans(cfg: Config, s: State, came: seq<Header>, i: nat)
    requires Traceable(cfg, s, came) && i < |s.mem.bitmap| && s.mem.bitmap[i]
    ensures |came| == |s.tasks| && exists t: nat :: Brought(cfg.geo, s.disk, s.tasks, came, i, t)
  {
    hide Carries, Underway, Brought;
  }

  lemma InitialTraceable(cfg: Config, disk: Disk)
    ensures Traceable(cfg, Initial(cfg, disk), [])
  {
    hide Brought;
  }
}
