/** Each kind of step keeps the invariant. */
module ExtentSteps {
  import opened Bytes
  import opened ErrorCodes
  import opened PayloadBlocks
  import opened ExtentHeaders
  import opened Devices
  import opened ExtentGeometry
  import opened BitmapImages
  import opened ExtentProtocol
  import opened ExtentViews
  import opened ExtentInvariant

  // ---- the tasks and the lock ----

  /** One task moves on, either holding the lock or letting go of it. */
  lemma TaskMoves(s: State, s': State, t: nat, task: Task)
    requires Locking(s) && Called(s.tasks) && t < |s.tasks| && (s.lock.Free? || s.lock == Held(t))
    requires s'.tasks == s.tasks[t := task] && task.header.Valid()
    requires s'.lock == if task.phase.InFlight() then Held(t) else Free
    ensures Locking(s') && Called(s'.tasks)
    ensures HolderOf(s') == if task.phase.InFlight() then Suspended(task) else Nobody
  {
  }

  lemma SpawnKeeps(cfg: Config, s: State, v: View, task: Task)
    requires InvOn(cfg, s, v) && Enabled(cfg, s, Spawn(task))
    ensures InvOn(cfg, Next(cfg, s, Spawn(task)), v)
  {
    hide Core;
  }

  lemma CoreSize(cfg: Config, m: Memory, v: View, suspect: set<nat>, h: Holder)
    requires Core(cfg, m, v, suspect, h)
    ensures |m.bitmap| == |v.bits| == |v.good| == |v.owner| == cfg.geo.count
  {
  }

  // ---- what a step does to memory and device, given who holds the lock ----

  /** A task begins: only the cursor moves, and what the task has promised holds. */
  lemma Begins(cfg: Config, m: Memory, m': Memory, v: View, suspect: set<nat>, h: Holder)
    requires Core(cfg, m, v, suspect, Nobody) && m' == m.(cursor := m'.cursor)
    requires h.Suspended? ==> FlightOk(cfg, m', v, h.task) && !(h.task.phase.BitmapWrite? && h.task.phase.landed)
    ensures Core(cfg, m', v, suspect, h)
  {
    hide Owned, MarkedGood, Marked, FlightOk;
  }

  lemma OwnedAfterHeader(cfg: Config, bits: seq<bool>, v: View, offsets: map<U64, U64>, i: nat, v': View)
    requires Owned(cfg.geo, bits, v, offsets) && i < |bits| && !bits[i]
    requires |v'.good| == |v.good| && |v'.owner| == |v.owner|
    requires forall j | 0 <= j < |bits| && j != i :: v'.good[j] == v.good[j] && v'.owner[j] == v.owner[j]
    ensures Owned(cfg.geo, bits, v', offsets)
  {
    hide ExtentOffset, Owned;
    OwnedSize(cfg.geo, bits, v, offsets);
    forall d | d in offsets ensures exists k :: Owns(bits, v', k, d) {
      var k := SlotOf(cfg, bits, v, offsets, d);
      assert Owns(bits, v', k, d);
    }
    forall j | 0 <= j < |bits| && bits[j]
      ensures v'.good[j] && v'.owner[j] in offsets && offsets[v'.owner[j]] == ExtentOffset(cfg.geo, j)
    {
      OwnerIn(cfg.geo, bits, v, offsets, j);
    }
    OwnedWhole(cfg.geo, bits, v', offsets);
  }

  lemma HeaderLanded(cfg: Config, m: Memory, v: View, suspect: set<nat>, task: Task, v': View, task': Task)
    requires Core(cfg, m, v, suspect, Suspended(task)) && task.phase.HeaderWrite?
    requires task' == task.(phase := HeaderWrite(task.phase.index, task.phase.bytes, true))
    requires task.phase.index < |v.good| == |v.owner|
    requires v' == v.(good := v.good[task.phase.index := true], owner := v.owner[task.phase.index := task.Id()])
    ensures Core(cfg, m, v', suspect, Suspended(task'))
  {
    hide HeaderEncode, ExtentOffset, Counted, Owned, Agree;
    OwnedAfterHeader(cfg, m.bitmap, v, m.offsets, task.phase.index, v');
    assert MarkedGood(v');
    AgreeOnlyLanded(m, v, suspect, task.phase, v', task'.phase);
  }

  lemma MergedBlock(bits: seq<bool>, source: seq<bool>, b: nat)
    requires |bits| == |source|
    ensures SameBlock(Merge(bits, source, b), source, b)
  {
  }

  /** A block of entries that comes from memory with one entry changed differs from memory there at most. */
  lemma AgreeMerged(m: Memory, v: View, suspect: set<nat>, i: nat, source: seq<bool>, before: Phase, after: Phase)
    requires Agree(m, v, suspect, before) && !(before.BitmapWrite? && before.landed)
    requires i < |m.bitmap| == |source|
    requires forall j | 0 <= j < |source| && j != i :: source[j] == m.bitmap[j]
    requires LandedAt(after, i)
    ensures Agree(m, v.(bits := Merge(v.bits, source, BitmapIndex(i))), suspect, after)
  {
    hide BitmapIndex;
  }

  lemma MarkedGoodMerged(v: View, source: seq<bool>, b: nat)
    requires MarkedGood(v) && |source| == |v.bits|
    requires forall j | 0 <= j < |source| && source[j] :: v.good[j]
    ensures MarkedGood(v.(bits := Merge(v.bits, source, b)))
  {
  }

  lemma OwnedIgnoresMarks(g: Geometry, bits: seq<bool>, v: View, v': View, offsets: map<U64, U64>)
    requires Owned(g, bits, v, offsets) && v'.good == v.good && v'.owner == v.owner
    ensures Owned(g, bits, v', offsets)
  {
    forall id | id in offsets ensures exists k :: Owns(bits, v', k, id) {
      var k :| Owns(bits, v, k, id);
      assert Owns(bits, v', k, id);
    }
  }

  lemma SourceGood(cfg: Config, m: Memory, v: View, task: Task, i: nat)
    requires Prepared(cfg, m, v, task, i) && Owned(cfg.geo, m.bitmap, v, m.offsets)
    ensures forall j | 0 <= j < |m.bitmap| && m.bitmap[i := task.adds][j] :: v.good[j]
  {
  }

  lemma CoreParts(cfg: Config, m: Memory, v: View, suspect: set<nat>, h: Holder)
    requires Core(cfg, m, v, suspect, h)
    ensures |m.bitmap| == |v.bits| == |v.good| == |v.owner| == cfg.geo.count
    ensures Owned(cfg.geo, m.bitmap, v, m.offsets) && MarkedGood(v)
    ensures Agree(m, v, suspect, PhaseOf(h)) && Counted(cfg, m)
    ensures h.Suspended? ==> FlightOk(cfg, m, v, h.task)
  {
    hide Owned, MarkedGood, Agree, Counted, FlightOk;
  }

  lemma CoreWhole(cfg: Config, m: Memory, v: View, suspect: set<nat>, h: Holder)
    requires |m.bitmap| == |v.bits| == |v.good| == |v.owner| == cfg.geo.count
    requires Owned(cfg.geo, m.bitmap, v, m.offsets) && MarkedGood(v)
    requires Agree(m, v, suspect, PhaseOf(h)) && Counted(cfg, m)
    requires h.Suspended? ==> FlightOk(cfg, m, v, h.task)
    ensures Core(cfg, m, v, suspect, h)
  {
    hide Owned, MarkedGood, Agree, Counted, FlightOk;
  }

  /** What is known of a bitmap write under way. */
  lemma BitmapFlight(cfg: Config, m: Memory, v: View, task: Task)
    requires FlightOk(cfg, m, v, task) && task.phase.BitmapWrite?
    ensures Prepared(cfg, m, v, task, task.phase.index) && |m.bitmap| == |v.bits|
    ensures task.phase.bytes == CloneImage(m.bitmap, task.phase.index, task.adds)
    ensures task.phase.landed ==>
      SameBlock(v.bits, m.bitmap[task.phase.index := task.adds], BitmapIndex(task.phase.index))
  {
    hide Prepared, CloneImage, SameBlock, BitmapIndex;
  }

  lemma BitmapFlies(cfg: Config, m: Memory, v: View, task: Task)
    requires task.phase.BitmapWrite? && Prepared(cfg, m, v, task, task.phase.index) && |m.bitmap| == |v.bits|
    requires task.phase.bytes == CloneImage(m.bitmap, task.phase.index, task.adds)
    requires task.phase.landed ==>
      SameBlock(v.bits, m.bitmap[task.phase.index := task.adds], BitmapIndex(task.phase.index))
    ensures FlightOk(cfg, m, v, task)
  {
    hide CloneImage, SameBlock, BitmapIndex, Adding, Deleting;
  }

  lemma PreparedStays(cfg: Config, m: Memory, v: View, task: Task, i: nat, v': View, task': Task)
    requires Prepared(cfg, m, v, task, i) && v'.good == v.good && v'.owner == v.owner
    requires task' == task.(phase := task'.phase)
    ensures Prepared(cfg, m, v', task', i)
  {
  }

  lemma BitmapLanded(cfg: Config, m: Memory, v: View, suspect: set<nat>, task: Task, v': View, task': Task)
    requires Core(cfg, m, v, suspect, Suspended(task)) && task.phase.BitmapWrite? && !task.phase.landed
    requires task' == task.(phase := BitmapWrite(task.phase.index, task.phase.bytes, true))
    requires task.phase.index < |m.bitmap| == |v.bits|
    requires v' == v.(bits := Merge(v.bits, m.bitmap[task.phase.index := task.adds], BitmapIndex(task.phase.index)))
    ensures Core(cfg, m, v', suspect, Suspended(task'))
  {
    hide CloneImage, Counted, BitmapIndex, SameBlock, Agree, Owned, MarkedGood, Merge, Core, FlightOk, Prepared;
    CoreParts(cfg, m, v, suspect, Suspended(task));
    BitmapFlight(cfg, m, v, task);
    LandedMarks(cfg, m, v, suspect, task, v', task');
    OwnedIgnoresMarks(cfg.geo, m.bitmap, v, v', m.offsets);
    PreparedStays(cfg, m, v, task, task.phase.index, v', task');
    BitmapFlies(cfg, m, v', task');
    CoreWhole(cfg, m, v', suspect, Suspended(task'));
  }

  /** The marks on the device once the block has landed. */
  lemma LandedMarks(cfg: Config, m: Memory, v: View, suspect: set<nat>, task: Task, v': View, task': Task)
    requires task.phase.BitmapWrite? && !task.phase.landed && Agree(m, v, suspect, task.phase) && MarkedGood(v)
    requires Prepared(cfg, m, v, task, task.phase.index) && Owned(cfg.geo, m.bitmap, v, m.offsets)
    requires task' == task.(phase := BitmapWrite(task.phase.index, task.phase.bytes, true))
    requires task.phase.index < |m.bitmap| == |v.bits|
    requires v' == v.(bits := Merge(v.bits, m.bitmap[task.phase.index := task.adds], BitmapIndex(task.phase.index)))
    ensures Agree(m, v', suspect, task'.phase) && MarkedGood(v')
    ensures SameBlock(v'.bits, m.bitmap[task.phase.index := task.adds], BitmapIndex(task.phase.index))
  {
    hide BitmapIndex, SameBlock, Agree, Owned, MarkedGood, Merge, Prepared;
    var i := task.phase.index;
    var source := m.bitmap[i := task.adds];
    SourceGood(cfg, m, v, task, i);
    MergedBlock(v.bits, source, BitmapIndex(i));
    AgreeMerged(m, v, suspect, i, source, task.phase, task'.phase);
    MarkedGoodMerged(v, source, BitmapIndex(i));
  }

  /** A task that ends without having changed memory; if it was writing the bitmap, its slot becomes suspect. */
  lemma GivesUp(cfg: Config, m: Memory, v: View, suspect: set<nat>, task: Task, suspect': set<nat>)
    requires Core(cfg, m, v, suspect, Suspended(task))
    requires suspect' == if task.phase.BitmapWrite? then suspect + {task.phase.index} else suspect
    ensures Core(cfg, m, v, suspect', Nobody)
  {
    hide Owned, Counted, FlightOk, MarkedGood;
  }

  /** A delete goes on only if the header it read names the extent; then the slot is that extent's or nobody's. */
  lemma ReadOn(cfg: Config, m: Memory, v: View, suspect: set<nat>, task: Task, task': Task)
    requires Roomy(cfg.geo) && Core(cfg, m, v, suspect, Suspended(task)) && task.phase.Reading?
    requires task.Index() < |v.owner| && task.Index() < |m.bitmap|
    requires m.bitmap[task.Index()] ==> cfg.fixes.header.Repaired? && v.owner[task.Index()] == task.Id()
    requires task' == task.(phase := BitmapWriteOf(m, task.Index(), false))
    ensures Core(cfg, m, v, suspect, Suspended(task'))
  {
    var i, id := task.Index(), task.Id();
    hide Counted, MarkedGood, CloneImage, ExtentOffset, Roomy, BitmapIndex, SameBlock;
    if id in m.offsets && TrustsIndex(cfg.fixes) {
      OwnedAt(cfg, m.bitmap, v, m.offsets, i, id);
    }
    hide Owned, Agree;
    AgreeOnlyLanded(m, v, suspect, task.phase, v, task'.phase);
  }

  lemma AgreeOnlyLanded(m: Memory, v: View, suspect: set<nat>, before: Phase, v': View, after: Phase)
    requires Agree(m, v, suspect, before) && !(before.BitmapWrite? && before.landed) && v'.bits == v.bits
    ensures Agree(m, v', suspect, after)
  {
  }

  lemma HeaderDone(cfg: Config, m: Memory, v: View, suspect: set<nat>, task: Task, task': Task)
    requires Core(cfg, m, v, suspect, Suspended(task)) && task.phase.HeaderWrite? && task.phase.landed
    requires task.phase.index < |m.bitmap| && task' == task.(phase := BitmapWriteOf(m, task.phase.index, true))
    ensures Core(cfg, m, v, suspect, Suspended(task'))
  {
    hide Owned, Counted, MarkedGood, CloneImage, HeaderEncode, BitmapIndex, SameBlock, Agree;
    AgreeOnlyLanded(m, v, suspect, task.phase, v, task'.phase);
  }

  /** A successful bitmap write: memory follows the device, and the whole block agrees. */
  lemma AgreeAgain(m: Memory, v: View, suspect: set<nat>, flight: Phase, used: bool, m': Memory)
    requires flight.BitmapWrite? && flight.index < |m.bitmap| && Agree(m, v, suspect, flight)
    requires SameBlock(v.bits, m.bitmap[flight.index := used], BitmapIndex(flight.index))
    requires m'.bitmap == m.bitmap[flight.index := used]
    ensures Agree(m', v, Elsewhere(suspect, flight.index), Waiting)
    ensures SameBlock(v.bits, m'.bitmap, BitmapIndex(flight.index))
  {
    var i := flight.index;
    forall j | 0 <= j < |v.bits| && v.bits[j] != m'.bitmap[j]
      ensures BitmapIndex(j) != BitmapIndex(i) && v.bits[j] != m.bitmap[j]
    {
      if j / DATA_SIZE == BitmapIndex(i) {
        assert false;
      }
    }
    hide BitmapIndex;
  }

  lemma CountedAfterAdd(cfg: Config, m: Memory, i: nat, id: U64)
    requires Counted(cfg, m) && i < |m.bitmap| < 0x1_0000_0000 && !m.bitmap[i]
    ensures Counted(cfg, Insert(cfg, m, i, id))
  {
    hide Marked;
    MarkedUpdate(m.bitmap, i, true);
  }

  lemma CountedAfterDelete(cfg: Config, m: Memory, i: nat, id: U64)
    requires Counted(cfg, m) && i < |m.bitmap| < 0x1_0000_0000
    requires cfg.fixes.countUsed && cfg.fixes.stopOnMissing ==> m.bitmap[i]
    ensures Counted(cfg, Remove(cfg, m, i, id))
  {
    hide Marked;
    MarkedUpdate(m.bitmap, i, false);
    MarkedBound(m.bitmap);
  }

  lemma Added(cfg: Config, m: Memory, v: View, suspect: set<nat>, task: Task)
    requires Core(cfg, m, v, suspect, Suspended(task)) && task.adds && task.phase.BitmapWrite? && task.phase.landed
    requires task.phase.index < |m.bitmap|
    ensures Core(cfg, Insert(cfg, m, task.phase.index, task.Id()), v, Elsewhere(suspect, task.phase.index), Nobody)
  {
    var i, m' := task.phase.index, Insert(cfg, m, task.phase.index, task.Id());
    hide CloneImage, ExtentOffset, MarkedGood, Owned, Agree, SameBlock, BitmapIndex, Elsewhere, Counted, Core,
      FlightOk;
    CoreParts(cfg, m, v, suspect, Suspended(task));
    BitmapFlight(cfg, m, v, task);
    OwnedAfterAdd(cfg.geo, m.bitmap, v, m.offsets, i, task.Id());
    CountedAfterAdd(cfg, m, i, task.Id());
    AgreeAgain(m, v, suspect, task.phase, true, m');
    CoreWhole(cfg, m', v, Elsewhere(suspect, i), Nobody);
  }

  lemma OwnedAfterRemove(cfg: Config, m: Memory, v: View, i: nat, id: U64)
    requires Roomy(cfg.geo) && |m.bitmap| == |v.good| == |v.owner| == cfg.geo.count
    requires Owned(cfg.geo, m.bitmap, v, m.offsets) && i < |m.bitmap|
    requires m.bitmap[i] ==> cfg.fixes.eraseOnDelete && v.owner[i] == id
    requires !m.bitmap[i] ==> id !in m.offsets || !cfg.fixes.eraseOnDelete
    ensures Owned(cfg.geo, Remove(cfg, m, i, id).bitmap, v, Remove(cfg, m, i, id).offsets)
  {
    hide Owned, ExtentOffset, Roomy;
    if m.bitmap[i] {
      OwnedAfterDelete(cfg, m.bitmap, v, m.offsets, i, id);
    } else {
      assert id !in m.offsets ==> m.offsets - {id} == m.offsets;
      assert m.bitmap[i := false] == m.bitmap;
    }
  }

  lemma Deleted(cfg: Config, m: Memory, v: View, suspect: set<nat>, task: Task)
    requires Roomy(cfg.geo) && Sound(cfg.fixes)
    requires Core(cfg, m, v, suspect, Suspended(task)) && !task.adds && task.phase.BitmapWrite? && task.phase.landed
    requires task.phase.index < |m.bitmap|
    ensures Core(cfg, Remove(cfg, m, task.phase.index, task.Id()), v, Elsewhere(suspect, task.phase.index), Nobody)
  {
    var i, m' := task.phase.index, Remove(cfg, m, task.phase.index, task.Id());
    hide CloneImage, MarkedGood, Owned, Agree, SameBlock, BitmapIndex, Elsewhere, Matched, Counted, Roomy, Core,
      FlightOk;
    CoreParts(cfg, m, v, suspect, Suspended(task));
    BitmapFlight(cfg, m, v, task);
    OwnedAfterRemove(cfg, m, v, i, task.Id());
    CountedAfterDelete(cfg, m, i, task.Id());
    AgreeAgain(m, v, suspect, task.phase, false, m');
    CoreWhole(cfg, m', v, Elsewhere(suspect, i), Nobody);
  }

  // ---- the shape of each step ----

  lemma RefusedOtherwise(cfg: Config, m: Memory, id: U64)
    ensures Admit(cfg, m, id).1 != Refused(IoWriteAtFailed)
  {
  }

  /** Only the cursor, the lock and the task itself change, and the task has not failed to write. */
  ghost predicate OnlyBegins(s: State, t: nat, s': State) {
    && s'.disk == s.disk && s'.mem == s.mem.(cursor := s'.mem.cursor)
    && t < |s.tasks| == |s'.tasks| && s'.tasks == s.tasks[t := s'.tasks[t]]
    && s'.tasks[t].adds == s.tasks[t].adds && s'.tasks[t].Id() == s.tasks[t].Id()
    && s.tasks[t].phase.Waiting? && s'.tasks[t].phase != Done(IoWriteAtFailed)
    && (s'.lock == Free || s'.lock == Held(t))
  }

  lemma BeginAdd(cfg: Config, s: State, t: nat)
    requires Enabled(cfg, s, Begin(t)) && s.tasks[t].adds
    ensures OnlyBegins(s, t, BeginTask(cfg, s, t))
  {
    hide Admit, Indexed, HeaderEncode;
    var task := s.tasks[t];
    RefusedOtherwise(cfg, s.mem, task.Id());
    var (m, admission) := Admit(cfg, s.mem, task.Id());
    if admission.Admitted? {
      IndexedKeeps(task.header, admission.index);
    }
  }

  lemma BeginDelete(cfg: Config, s: State, t: nat)
    requires Enabled(cfg, s, Begin(t)) && !s.tasks[t].adds
    ensures OnlyBegins(s, t, BeginTask(cfg, s, t))
  {
  }

  /** What the landing of a write makes of the state, but for the device. */
  ghost predicate OnlyLands(s: State, t: nat, s': State) {
    && s'.mem == s.mem && s'.lock == s.lock && t < |s.tasks| == |s'.tasks|
    && s'.tasks == s.tasks[t := s.tasks[t].(phase := s'.tasks[t].phase)]
    && (s.tasks[t].phase.HeaderWrite? ==>
          s'.tasks[t].phase == HeaderWrite(s.tasks[t].phase.index, s.tasks[t].phase.bytes, true))
    && (s.tasks[t].phase.BitmapWrite? ==>
          s'.tasks[t].phase == BitmapWrite(s.tasks[t].phase.index, s.tasks[t].phase.bytes, true))
  }

  lemma LandShape(cfg: Config, s: State, t: nat)
    requires Enabled(cfg, s, Land(t))
    ensures t < |s.tasks| && (s.tasks[t].phase.HeaderWrite? || s.tasks[t].phase.BitmapWrite?)
    ensures OnlyLands(s, t, LandTask(cfg, s, t))
  {
    hide HeaderBlock, BitmapBlock, BitmapIndex;
  }

  /** What the completion of a transfer makes of the state. */
  ghost predicate OnlyFinishes(cfg: Config, s: State, t: nat, ok: bool, s': State) {
    && s'.disk == s.disk && t < |s.tasks| == |s'.tasks|
    && s'.tasks == s.tasks[t := s.tasks[t].(phase := s'.tasks[t].phase)]
    && s'.lock == (if s'.tasks[t].phase.InFlight() then Held(t) else Free)
    && match s'.tasks[t].phase
       case BitmapWrite(i, _, _) =>
         && s'.mem == s.mem && !s'.tasks[t].phase.landed && !s.tasks[t].phase.BitmapWrite?
         && (s.tasks[t].phase.HeaderWrite? ==> s.tasks[t].phase.index == i && s.tasks[t].phase.landed)
       case Done(err) =>
         if ok && s.tasks[t].phase.BitmapWrite? then
           && err == Ok && s.tasks[t].phase.landed && s.tasks[t].phase.index < |s.mem.bitmap|
           && s'.mem == if s.tasks[t].adds then Insert(cfg, s.mem, s.tasks[t].phase.index, s.tasks[t].Id())
             else Remove(cfg, s.mem, s.tasks[t].phase.index, s.tasks[t].Id())
         else s'.mem == s.mem && (s.tasks[t].phase.Reading? || err == IoWriteAtFailed)
       case _ => false
  }

  lemma FinishShape(cfg: Config, s: State, t: nat, ok: bool)
    requires Enabled(cfg, s, Finish(t, ok)) && s.lock == Held(t)
    ensures s.tasks[t].phase.InFlight() && OnlyFinishes(cfg, s, t, ok, FinishTask(cfg, s, t, ok))
  {
    hide HeaderBlock, Inspect, BitmapWriteOf, Insert, Remove, Elsewhere;
  }

  lemma CanOnlyFly(cfg: Config, s: State, t: nat, ok: bool)
    requires Enabled(cfg, s, Finish(t, ok))
    ensures t < |s.tasks| && s.tasks[t].phase.InFlight()
  {
  }

  lemma StepTask(cfg: Config, s: State, step: Step)
    requires Enabled(cfg, s, step)
    ensures !step.Spawn? ==> step.t < |s.tasks| && !s.tasks[step.t].phase.Done?
    ensures step.Begin? ==> s.lock.Free?
    ensures step.Finish? ==> s.tasks[step.t].phase.InFlight()
  {
    hide Continues, HeaderBlock, BitmapBlock, BitmapIndex, Inspect;
  }

  // ---- the steps ----

  lemma AdmittedFlies(cfg: Config, m: Memory, m': Memory, v: View, task: Task, i: U32)
    requires |m.bitmap| == |v.bits| == |v.good| == |v.owner| && task.adds && task.header.Valid()
    requires task.Id() !in m.offsets && i < |m.bitmap| && !m.bitmap[i] && m' == m.(cursor := m'.cursor)
    ensures var h := Indexed(task.header, i);
      FlightOk(cfg, m', v, Task(true, h, HeaderWrite(i, HeaderEncode(h), false)))
  {
    hide Indexed, HeaderEncode;
    IndexedKeeps(task.header, i);
  }

  /** A task that has begun goes on from memory with the cursor moved, or is over. */
  lemma BegunKeeps(cfg: Config, s: State, v: View, t: nat, s': State)
    requires InvOn(cfg, s, v) && s.lock.Free? && t < |s.tasks| == |s'.tasks|
    requires s'.tasks == s.tasks[t := s'.tasks[t]] && s'.tasks[t].header.Valid()
    requires s'.lock == (if s'.tasks[t].phase.InFlight() then Held(t) else Free) && s'.suspect == s.suspect
    requires s'.mem == s.mem.(cursor := s'.mem.cursor) && !s'.tasks[t].phase.BitmapWrite?
    requires s'.tasks[t].phase.InFlight() ==> FlightOk(cfg, s'.mem, v, s'.tasks[t])
    ensures InvOn(cfg, s', v)
  {
    hide Core, FlightOk;
    TaskMoves(s, s', t, s'.tasks[t]);
    Begins(cfg, s.mem, s'.mem, v, s.suspect, HolderOf(s'));
  }

  lemma InvSizes(cfg: Config, s: State, v: View)
    requires InvOn(cfg, s, v)
    ensures |s.mem.bitmap| == |v.bits| == |v.good| == |v.owner| == cfg.geo.count
  {
    hide Core, Locking, Called;
    CoreSize(cfg, s.mem, v, s.suspect, HolderOf(s));
  }

  lemma BeginAddKeeps(cfg: Config, s: State, v: View, t: nat)
    requires InvOn(cfg, s, v) && Enabled(cfg, s, Begin(t)) && s.tasks[t].adds
    ensures InvOn(cfg, BeginTask(cfg, s, t), v)
  {
    var task := s.tasks[t];
    hide InvOn, Admit, Indexed, HeaderEncode, FlightOk;
    InvSizes(cfg, s, v);
    var (m, admission) := Admit(cfg, s.mem, task.Id());
    if admission.Admitted? {
      IndexedKeeps(task.header, admission.index);
      AdmittedFlies(cfg, s.mem, m, v, task, admission.index);
    }
    BegunKeeps(cfg, s, v, t, BeginTask(cfg, s, t));
  }

  lemma BeginDeleteKeeps(cfg: Config, s: State, v: View, t: nat)
    requires InvOn(cfg, s, v) && Enabled(cfg, s, Begin(t)) && Careful(cfg, s, Begin(t)) && !s.tasks[t].adds
    ensures InvOn(cfg, BeginTask(cfg, s, t), v)
  {
    hide InvOn, FlightOk, ExtentOffset;
    InvSizes(cfg, s, v);
    DeletingFlies(cfg, s.mem, v, s.tasks[t].(phase := Reading));
    BegunKeeps(cfg, s, v, t, BeginTask(cfg, s, t));
  }

  lemma BeginKeeps(cfg: Config, s: State, v: View, t: nat)
    requires InvOn(cfg, s, v) && Enabled(cfg, s, Begin(t)) && Careful(cfg, s, Begin(t))
    ensures InvOn(cfg, BeginTask(cfg, s, t), v)
  {
    hide InvOn, Matched, BeginTask, Admit;
    if s.tasks[t].adds {
      BeginAddKeeps(cfg, s, v, t);
    } else {
      BeginDeleteKeeps(cfg, s, v, t);
    }
  }

  lemma DeletingFlies(cfg: Config, m: Memory, v: View, task: Task)
    requires |m.bitmap| == |v.bits| == |v.good| == |v.owner| && task.phase.Reading? && !task.adds
    requires Matched(cfg, m, task)
    ensures (cfg.fixes.stopOnMissing ==> task.Id() in m.offsets) ==> FlightOk(cfg, m, v, task)
  {
  }

  lemma HolderMoves(cfg: Config, s: State, v: View, t: nat)
    requires InvOn(cfg, s, v) && t < |s.tasks| && s.tasks[t].phase.InFlight()
    ensures s.lock == Held(t) && HolderOf(s) == Suspended(s.tasks[t])
    ensures FlightOk(cfg, s.mem, v, s.tasks[t]) && Core(cfg, s.mem, v, s.suspect, Suspended(s.tasks[t]))
    ensures |s.mem.bitmap| == |v.bits| == |v.good| == |v.owner| == cfg.geo.count
  {
    hide Owned, Agree, Counted, MarkedGood, FlightOk;
  }

  /** What the landing of a header makes of the view. */
  lemma HeaderSeen(cfg: Config, s: State, t: nat)
    requires Roomy(cfg.geo) && Inv(cfg, s) && Enabled(cfg, s, Land(t)) && s.tasks[t].phase.HeaderWrite?
    ensures var v, task, after := ViewOf(cfg.geo, s.disk), s.tasks[t], LandTask(cfg, s, t).disk;
      && task.phase.index < cfg.geo.count && Readable(cfg.geo, after)
      && ViewOf(cfg.geo, after) ==
        v.(good := v.good[task.phase.index := true], owner := v.owner[task.phase.index := task.Id()])
  {
    var v, task := ViewOf(cfg.geo, s.disk), s.tasks[t];
    hide Readable, Core, ViewOf, BitmapBlock, HeaderBlock, Roomy, HeaderEncode, CloneImage, Merge;
    HolderMoves(cfg, s, v, t);
    HeaderLands(cfg.geo, s.disk, task.phase.index, task.header);
  }

  lemma LandHeaderKeeps(cfg: Config, s: State, t: nat)
    requires Roomy(cfg.geo) && Inv(cfg, s) && Enabled(cfg, s, Land(t)) && s.tasks[t].phase.HeaderWrite?
    ensures Inv(cfg, LandTask(cfg, s, t))
  {
    var task, s' := s.tasks[t], LandTask(cfg, s, t);
    var v, v' := ViewOf(cfg.geo, s.disk), ViewOf(cfg.geo, s'.disk);
    hide Readable, Core, ViewOf, BitmapBlock, HeaderBlock, Roomy, HeaderEncode, CloneImage, Merge, FlightOk;
    HeaderSeen(cfg, s, t);
    HolderMoves(cfg, s, v, t);
    TaskMoves(s, s', t, s'.tasks[t]);
    HeaderLanded(cfg, s.mem, v, s.suspect, task, v', s'.tasks[t]);
  }

  /** What the landing of a bitmap block makes of the view. */
  lemma BitmapSeen(cfg: Config, s: State, t: nat)
    requires ValidConfig(cfg) && Inv(cfg, s) && Enabled(cfg, s, Land(t)) && s.tasks[t].phase.BitmapWrite?
    ensures var v, task, after := ViewOf(cfg.geo, s.disk), s.tasks[t], LandTask(cfg, s, t).disk;
      && task.phase.index < |s.mem.bitmap| == cfg.geo.count && Readable(cfg.geo, after)
      && ViewOf(cfg.geo, after) ==
        v.(bits := Merge(v.bits, s.mem.bitmap[task.phase.index := task.adds], BitmapIndex(task.phase.index)))
  {
    var v, task := ViewOf(cfg.geo, s.disk), s.tasks[t];
    var i := task.phase.index;
    hide Readable, Core, ViewOf, BitmapBlock, BitmapIndex, Roomy, CloneImage, BitmapImage, Merge, FlightOk, Prepared,
      SameBlock;
    HolderMoves(cfg, s, v, t);
    BitmapFlight(cfg, s.mem, v, task);
    PreparedIndex(cfg, s.mem, v, task, i);
    LiveIndex(cfg.geo, i);
    BitmapLands(cfg.geo, s.disk, BitmapIndex(i), s.mem.bitmap[i := task.adds]);
  }

  lemma LandBitmapKeeps(cfg: Config, s: State, t: nat)
    requires ValidConfig(cfg) && Inv(cfg, s) && Enabled(cfg, s, Land(t)) && s.tasks[t].phase.BitmapWrite?
    ensures Inv(cfg, LandTask(cfg, s, t))
  {
    var task, s' := s.tasks[t], LandTask(cfg, s, t);
    var v, v' := ViewOf(cfg.geo, s.disk), ViewOf(cfg.geo, s'.disk);
    hide Readable, Core, ViewOf, BitmapBlock, BitmapIndex, Roomy, CloneImage, BitmapImage, Merge, FlightOk;
    BitmapSeen(cfg, s, t);
    HolderMoves(cfg, s, v, t);
    TaskMoves(s, s', t, s'.tasks[t]);
    BitmapLanded(cfg, s.mem, v, s.suspect, task, v', s'.tasks[t]);
  }

  lemma PreparedIndex(cfg: Config, m: Memory, v: View, task: Task, i: nat)
    requires Prepared(cfg, m, v, task, i)
    ensures i < |m.bitmap|
  {
  }

  lemma LandKeeps(cfg: Config, s: State, t: nat)
    requires ValidConfig(cfg) && Inv(cfg, s) && Enabled(cfg, s, Land(t))
    ensures Inv(cfg, LandTask(cfg, s, t))
  {
    hide Inv, LandTask, Roomy, HeaderBlock, BitmapBlock;
    if s.tasks[t].phase.HeaderWrite? {
      LandHeaderKeeps(cfg, s, t);
    } else {
      LandBitmapKeeps(cfg, s, t);
    }
  }

  /** The holder of the lock suspends again. */
  lemma SuspendsAgain(cfg: Config, s: State, v: View, t: nat, phase: Phase)
    requires InvOn(cfg, s, v) && t < |s.tasks| && s.tasks[t].phase.InFlight() && phase.InFlight()
    requires Core(cfg, s.mem, v, s.suspect, Suspended(s.tasks[t].(phase := phase)))
    ensures InvOn(cfg, SetPhase(s, t, phase), v)
  {
    var s' := SetPhase(s, t, phase);
    hide Core;
    TaskMoves(s, s', t, s'.tasks[t]);
  }

  /** The holder of the lock ends. */
  lemma Leaves(cfg: Config, s: State, v: View, t: nat, err: ErrorCode, m: Memory, suspect: set<nat>)
    requires InvOn(cfg, s, v) && t < |s.tasks| && s.tasks[t].phase.InFlight()
    requires Core(cfg, m, v, suspect, Nobody)
    ensures InvOn(cfg, Leave(s, t, err).(mem := m, suspect := suspect), v)
  {
    var s' := Leave(s, t, err).(mem := m, suspect := suspect);
    hide Core;
    TaskMoves(s, s', t, s'.tasks[t]);
  }

  lemma FinishReadKeeps(cfg: Config, s: State, v: View, t: nat, ok: bool)
    requires Roomy(cfg.geo) && InvOn(cfg, s, v) && v == ViewOf(cfg.geo, s.disk)
    requires Enabled(cfg, s, Finish(t, ok)) && s.tasks[t].phase.Reading?
    ensures InvOn(cfg, FinishTask(cfg, s, t, ok), v)
  {
    var task, s' := s.tasks[t], FinishTask(cfg, s, t, ok);
    hide Core, ViewOf, Roomy, BitmapWriteOf, Inspect, HeaderBlock, FlightOk;
    HolderMoves(cfg, s, v, t);
    var phase := s'.tasks[t].phase;
    if phase.Done? {
      GivesUp(cfg, s.mem, v, s.suspect, task, s.suspect);
      Leaves(cfg, s, v, t, phase.err, s.mem, s.suspect);
    } else {
      Found(cfg, s.mem, s.disk, s.suspect, task);
      ReadOn(cfg, s.mem, v, s.suspect, task, s'.tasks[t]);
      SuspendsAgain(cfg, s, v, t, phase);
    }
  }

  lemma FinishHeaderKeeps(cfg: Config, s: State, v: View, t: nat, ok: bool)
    requires InvOn(cfg, s, v) && Enabled(cfg, s, Finish(t, ok)) && s.tasks[t].phase.HeaderWrite?
    ensures InvOn(cfg, FinishTask(cfg, s, t, ok), v)
  {
    hide Core, BitmapWriteOf, FlightOk, InvOn, Leave, SetPhase;
    HolderMoves(cfg, s, v, t);
    if ok {
      HeaderGoesOn(cfg, s, v, t);
    } else {
      HeaderFails(cfg, s, v, t);
    }
  }

  lemma HeaderGoesOn(cfg: Config, s: State, v: View, t: nat)
    requires InvOn(cfg, s, v) && t < |s.tasks| && s.tasks[t].phase.HeaderWrite? && s.tasks[t].phase.landed
    requires s.tasks[t].phase.index < |s.mem.bitmap|
    ensures InvOn(cfg, SetPhase(s, t, BitmapWriteOf(s.mem, s.tasks[t].phase.index, true)), v)
  {
    var task, phase := s.tasks[t], BitmapWriteOf(s.mem, s.tasks[t].phase.index, true);
    hide Core, BitmapWriteOf, FlightOk, InvOn, SetPhase;
    HolderMoves(cfg, s, v, t);
    HeaderDone(cfg, s.mem, v, s.suspect, task, task.(phase := phase));
    SuspendsAgain(cfg, s, v, t, phase);
  }

  lemma HeaderFails(cfg: Config, s: State, v: View, t: nat)
    requires InvOn(cfg, s, v) && t < |s.tasks| && s.tasks[t].phase.HeaderWrite?
    ensures InvOn(cfg, Leave(s, t, IoWriteAtFailed), v)
  {
    hide Core, FlightOk, InvOn;
    HolderMoves(cfg, s, v, t);
    GivesUp(cfg, s.mem, v, s.suspect, s.tasks[t], s.suspect);
    Leaves(cfg, s, v, t, IoWriteAtFailed, s.mem, s.suspect);
  }

  lemma FinishBitmapKeeps(cfg: Config, s: State, v: View, t: nat, ok: bool)
    requires Roomy(cfg.geo) && Sound(cfg.fixes) && InvOn(cfg, s, v)
    requires Enabled(cfg, s, Finish(t, ok)) && s.tasks[t].phase.BitmapWrite?
    ensures InvOn(cfg, FinishTask(cfg, s, t, ok), v)
  {
    var task, s' := s.tasks[t], FinishTask(cfg, s, t, ok);
    hide Core, Roomy, Insert, Remove, Elsewhere, FlightOk, Inspect, BitmapWriteOf, HeaderBlock, InvOn;
    HolderMoves(cfg, s, v, t);
    if !ok {
      GivesUp(cfg, s.mem, v, s.suspect, task, s'.suspect);
      Leaves(cfg, s, v, t, IoWriteAtFailed, s.mem, s'.suspect);
    } else {
      if task.adds {
        Added(cfg, s.mem, v, s.suspect, task);
      } else {
        Deleted(cfg, s.mem, v, s.suspect, task);
      }
      Leaves(cfg, s, v, t, ErrorCode.Ok, s'.mem, s'.suspect);
    }
  }

  lemma FinishKeeps(cfg: Config, s: State, v: View, t: nat, ok: bool)
    requires Roomy(cfg.geo) && Sound(cfg.fixes) && InvOn(cfg, s, v) && v == ViewOf(cfg.geo, s.disk)
    requires Enabled(cfg, s, Finish(t, ok))
    ensures InvOn(cfg, FinishTask(cfg, s, t, ok), v) && FinishTask(cfg, s, t, ok).disk == s.disk
  {
    hide InvOn, Roomy, ViewOf, Inspect, Insert, Remove, CloneImage, HeaderBlock;
    match s.tasks[t].phase
    case Reading => FinishReadKeeps(cfg, s, v, t, ok);
    case HeaderWrite(_, _, _) => FinishHeaderKeeps(cfg, s, v, t, ok);
    case BitmapWrite(_, _, _) => FinishBitmapKeeps(cfg, s, v, t, ok);
  }

  /** A header that passes the checks of a delete names its extent; that of a live slot never does as written. */
  lemma Found(cfg: Config, m: Memory, disk: Disk, suspect: set<nat>, task: Task)
    requires task.Index() < cfg.geo.count && Core(cfg, m, ViewOf(cfg.geo, disk), suspect, Suspended(task))
    requires HeaderBlock(cfg.geo, task.Index()) in disk
    requires Inspect(cfg, disk[HeaderBlock(cfg.geo, task.Index())], task.Id()) == ErrorCode.Ok
    ensures m.bitmap[task.Index()] ==>
      cfg.fixes.header.Repaired? && ViewOf(cfg.geo, disk).owner[task.Index()] == task.Id()
  {
    hide HeaderDecode, HeaderBlock, Agree, Counted, FlightOk, MarkedGood;
    var i := task.Index();
    if m.bitmap[i] {
      assert ViewOf(cfg.geo, disk).good[i];
      InspectGood(cfg, disk, i, task.Id());
    }
  }

  /** Every step keeps the invariant. */
  lemma StepKeeps(cfg: Config, s: State, step: Step)
    requires ValidConfig(cfg) && Sound(cfg.fixes) && Inv(cfg, s) && Enabled(cfg, s, step) && Careful(cfg, s, step)
    ensures Inv(cfg, Next(cfg, s, step))
  {
    var v := ViewOf(cfg.geo, s.disk);
    hide Readable, InvOn, ViewOf, Roomy, BeginTask, LandTask, FinishTask, Enabled, Careful;
    match step
    case Spawn(task) => SpawnKeeps(cfg, s, v, task);
    case Begin(t) =>
      BeginDisk(cfg, s, t);
      BeginKeeps(cfg, s, v, t);
    case Land(t) => LandKeeps(cfg, s, t);
    case Finish(t, ok) => FinishKeeps(cfg, s, v, t, ok);
  }

  lemma BeginDisk(cfg: Config, s: State, t: nat)
    requires Enabled(cfg, s, Begin(t))
    ensures BeginTask(cfg, s, t).disk == s.disk
  {
  }

  /** Every state of every run satisfies the invariant. */
  lemma {:induction false} RunKeeps(cfg: Config, s: State, steps: seq<Step>)
    requires ValidConfig(cfg) && Sound(cfg.fixes) && Inv(cfg, s) && IsRun(cfg, s, steps) && IsCareful(cfg, s, steps)
    ensures Inv(cfg, After(cfg, s, steps))
    decreases |steps|
  {
    if steps != [] {
      hide Inv, Next, Enabled, Careful, ValidConfig;
      StepKeeps(cfg, s, steps[0]);
      RunKeeps(cfg, Next(cfg, s, steps[0]), steps[1..]);
    }
  }
}
