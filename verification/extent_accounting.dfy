/** The counter, what fits, and what a delete gives back. */
module ExtentAccounting {
  import opened Bytes
  import opened ErrorCodes
  import opened ExtentHeaders
  import opened Devices
  import opened ExtentGeometry
  import opened BitmapImages
  import opened NextFit
  import opened ExtentProtocol
  import opened ExtentViews
  import opened ExtentInvariant
  import opened ExtentSteps
  import opened ExtentSafety

  function AllocCount(m: Memory): U32 {
    m.used
  }

  /** The subtraction has 32 bits. */
  function FreeCount(cfg: Config, m: Memory): U32 {
    (cfg.geo.count - m.used) % 0x1_0000_0000
  }

  /** Two sets of the same size: `f` takes one onto the other and no two members to the same place. */
  lemma {:induction false} SameSize(slots: set<nat>, ids: set<U64>, owner: seq<U64>)
    requires forall i | i in slots :: i < |owner| && owner[i] in ids
    requires forall i, j | i in slots && j in slots && owner[i] == owner[j] :: i == j
    requires forall id | id in ids :: exists i :: i in slots && owner[i] == id
    ensures |slots| == |ids|
    decreases |slots|
  {
    if slots == {} {
      assert ids == {};
    } else {
      var i :| i in slots;
      var slots', ids' := slots - {i}, ids - {owner[i]};
      forall id | id in ids' ensures exists j :: j in slots' && owner[j] == id {
        var j :| j in slots && owner[j] == id;
        assert j in slots';
      }
      SameSize(slots', ids', owner);
    }
  }

  /** As many ids as marked extents. */
  lemma MapSize(cfg: Config, bits: seq<bool>, v: View, offsets: map<U64, U64>)
    requires Roomy(cfg.geo) && |bits| == |v.good| == |v.owner| == cfg.geo.count
    requires Owned(cfg.geo, bits, v, offsets)
    ensures |Marked(bits)| == |offsets|
  {
    hide Roomy, ExtentOffset, Owned;
    AddressesApart(cfg.geo);
    forall i | i in Marked(bits) ensures v.owner[i] in offsets && offsets[v.owner[i]] == ExtentOffset(cfg.geo, i) {
      OwnerIn(cfg.geo, bits, v, offsets, i);
    }
    forall id | id in offsets.Keys ensures exists i :: i in Marked(bits) && v.owner[i] == id {
      var i := SlotOf(cfg, bits, v, offsets, id);
      assert i in Marked(bits);
    }
    SameSize(Marked(bits), offsets.Keys, v.owner);
    assert |offsets.Keys| == |offsets|;
  }

  /** With the counter repaired it counts the marked extents and the ids, and used and free add up, in every run. */
  lemma Conserved(cfg: Config, disk: Disk, steps: seq<Step>, s: State)
    requires Sound(cfg.fixes) && cfg.fixes.countUsed && cfg.fixes.stopOnMissing && Reaches(cfg, disk, steps, s)
    ensures AllocCount(s.mem) == |Marked(s.mem.bitmap)| == |s.mem.offsets|
    ensures AllocCount(s.mem) + FreeCount(cfg, s.mem) == cfg.geo.count
  {
    hide Reaches, Roomy, Readable, Owned, Agree, Marked, MarkedGood, ViewOf, FlightOk, Called, Locking;
    ReachesInv(cfg, disk, steps, s);
    MapSize(cfg, s.mem.bitmap, ViewOf(cfg.geo, s.disk), s.mem.offsets);
    MarkedBound(s.mem.bitmap);
  }

  /** As written the counter is right exactly when there are no extents. */
  lemma NeverCounted(cfg: Config, disk: Disk, steps: seq<Step>, s: State)
    requires Sound(cfg.fixes) && !cfg.fixes.countUsed && Reaches(cfg, disk, steps, s)
    ensures AllocCount(s.mem) == 0 && FreeCount(cfg, s.mem) == cfg.geo.count
    ensures AllocCount(s.mem) == |Marked(s.mem.bitmap)| <==> s.mem.offsets == map[]
  {
    hide Reaches, Roomy, Readable, Owned, Agree, Marked, MarkedGood, ViewOf, FlightOk, Called, Locking;
    ReachesInv(cfg, disk, steps, s);
    MapSize(cfg, s.mem.bitmap, ViewOf(cfg.geo, s.disk), s.mem.offsets);
    assert |s.mem.offsets| == 0 ==> s.mem.offsets == map[];
  }

  // ---- the counter in any form ----

  /** The tasks whose adds, or else deletes, have succeeded. */
  function Succeeded(tasks: seq<Task>, adds: bool): set<nat> {
    set t: nat | t < |tasks| && HasDone(tasks[t], adds)
  }

  predicate HasDone(task: Task, adds: bool) {
    task.adds == adds && task.phase == Done(ErrorCode.Ok)
  }

  /** Adds that have succeeded less deletes that have, in 32 bits. */
  function Balance(tasks: seq<Task>): U32 {
    (|Succeeded(tasks, true)| - |Succeeded(tasks, false)|) % 0x1_0000_0000
  }

  lemma SucceededMoves(tasks: seq<Task>, t: nat, task: Task, adds: bool)
    requires t < |tasks| && !tasks[t].phase.Done?
    ensures |Succeeded(tasks[t := task], adds)|
      == |Succeeded(tasks, adds)| + if HasDone(task, adds) then 1 else 0
  {
    var before, after := Succeeded(tasks, adds), Succeeded(tasks[t := task], adds);
    assert t !in before;
    assert after == if HasDone(task, adds) then before + {t} else before;
  }

  lemma SucceededSpawned(tasks: seq<Task>, task: Task, adds: bool)
    requires !task.phase.Done?
    ensures Succeeded(tasks + [task], adds) == Succeeded(tasks, adds)
  {
  }

  /** What a step of task `t` does to the counter, and whether it ends the task well. */
  ghost predicate CountsOn(cfg: Config, s: State, t: nat, s': State) {
    && t < |s.tasks| == |s'.tasks| && !s.tasks[t].phase.Done? && s'.tasks == s.tasks[t := s'.tasks[t]]
    && s'.mem.used ==
      if !cfg.fixes.countUsed then s.mem.used
      else if HasDone(s'.tasks[t], true) then (s.mem.used + 1) % 0x1_0000_0000
      else if HasDone(s'.tasks[t], false) then (s.mem.used - 1) % 0x1_0000_0000
      else s.mem.used
  }

  lemma NotRefusedOk(cfg: Config, m: Memory, id: U64)
    ensures Admit(cfg, m, id).1 != Refused(ErrorCode.Ok)
  {
    hide Scan;
  }

  lemma BeginCounts(cfg: Config, s: State, t: nat)
    requires Enabled(cfg, s, Begin(t))
    ensures CountsOn(cfg, s, t, BeginTask(cfg, s, t))
  {
    hide Admit, Indexed, HeaderEncode;
    NotRefusedOk(cfg, s.mem, s.tasks[t].Id());
  }

  lemma LandCounts(cfg: Config, s: State, t: nat)
    requires Enabled(cfg, s, Land(t))
    ensures CountsOn(cfg, s, t, LandTask(cfg, s, t))
  {
    hide HeaderBlock, BitmapBlock, BitmapIndex;
  }

  lemma FinishCounts(cfg: Config, s: State, t: nat, ok: bool)
    requires Enabled(cfg, s, Finish(t, ok))
    ensures CountsOn(cfg, s, t, FinishTask(cfg, s, t, ok))
  {
    hide HeaderBlock, Inspect, BitmapWriteOf, Elsewhere, ExtentOffset, BitmapIndex;
  }

  lemma StepCounts(cfg: Config, s: State, step: Step)
    requires Enabled(cfg, s, step) && !step.Spawn?
    ensures CountsOn(cfg, s, step.t, Next(cfg, s, step))
  {
    hide Enabled, BeginTask, LandTask, FinishTask, CountsOn;
    match step
    case Begin(t) => BeginCounts(cfg, s, t);
    case Land(t) => LandCounts(cfg, s, t);
    case Finish(t, ok) => FinishCounts(cfg, s, t, ok);
  }

  lemma BalanceMoves(cfg: Config, s: State, t: nat, s': State)
    requires CountsOn(cfg, s, t, s') && cfg.fixes.countUsed && s.mem.used == Balance(s.tasks)
    ensures s'.mem.used == Balance(s'.tasks)
  {
    hide Succeeded;
    SucceededMoves(s.tasks, t, s'.tasks[t], true);
    SucceededMoves(s.tasks, t, s'.tasks[t], false);
  }

  lemma {:induction false} RunCounts(cfg: Config, s: State, steps: seq<Step>)
    requires IsRun(cfg, s, steps) && s.mem.used == if cfg.fixes.countUsed then Balance(s.tasks) else 0
    ensures var last := After(cfg, s, steps);
      last.mem.used == if cfg.fixes.countUsed then Balance(last.tasks) else 0
    decreases |steps|
  {
    if steps != [] {
      hide Enabled, CountsOn, Balance;
      var s' := Next(cfg, s, steps[0]);
      if steps[0].Spawn? {
        SpawnCounts(cfg, s, steps[0].task);
      } else {
        StepCounts(cfg, s, steps[0]);
        UsedMoves(cfg, s, steps[0].t, s');
      }
      hide Next;
      RunCounts(cfg, s', steps[1..]);
    }
  }

  lemma SpawnCounts(cfg: Config, s: State, task: Task)
    requires Enabled(cfg, s, Spawn(task))
    ensures Balance(s.tasks + [task]) == Balance(s.tasks)
  {
    SucceededSpawned(s.tasks, task, true);
    SucceededSpawned(s.tasks, task, false);
  }

  lemma UsedMoves(cfg: Config, s: State, t: nat, s': State)
    requires CountsOn(cfg, s, t, s') && s.mem.used == if cfg.fixes.countUsed then Balance(s.tasks) else 0
    ensures s'.mem.used == if cfg.fixes.countUsed then Balance(s'.tasks) else 0
  {
    hide Balance;
    if cfg.fixes.countUsed {
      BalanceMoves(cfg, s, t, s');
    }
  }

  /** In every run, careful or not: the counter, if it is kept, is the balance of the calls that succeeded. */
  lemma CounterBalances(cfg: Config, disk: Disk, steps: seq<Step>, s: State)
    requires RunsTo(cfg, disk, steps, s)
    ensures AllocCount(s.mem) == if cfg.fixes.countUsed then Balance(s.tasks) else 0
  {
    hide BlankDevice, After, IsRun, Balance;
    NoCallsYet();
    RunCounts(cfg, Initial(cfg, disk), steps);
  }

  lemma NoCallsYet()
    ensures Balance([]) == 0
  {
    assert Succeeded([], true) == {} == Succeeded([], false);
  }

  /** `m` is the memory of some reached state. */
  ghost predicate Reached(cfg: Config, m: Memory) {
    exists disk, steps, s :: Reaches(cfg, disk, steps, s) && s.mem == m
  }

  /** What the two counts are in reached states. */
  lemma CountsOfReached(cfg: Config, m: Memory)
    requires Sound(cfg.fixes) && Reached(cfg, m)
    ensures cfg.fixes.countUsed && cfg.fixes.stopOnMissing ==>
      AllocCount(m) == |Marked(m.bitmap)| == |m.offsets| && AllocCount(m) + FreeCount(cfg, m) == cfg.geo.count
    ensures !cfg.fixes.countUsed ==> AllocCount(m) == 0 && FreeCount(cfg, m) == cfg.geo.count
  {
    hide Reaches, Marked;
    var disk, steps, s :| Reaches(cfg, disk, steps, s) && s.mem == m;
    if !cfg.fixes.countUsed {
      NeverCounted(cfg, disk, steps, s);
    } else if cfg.fixes.stopOnMissing {
      Conserved(cfg, disk, steps, s);
    }
  }

  // ---- what fits ----

  /** An add under way is to a slot below the modulus. */
  predicate TaskBelow(cfg: Config, task: Task) {
    && (task.adds && (task.phase.HeaderWrite? || task.phase.BitmapWrite?) ==> task.phase.index < cfg.modulus)
    && (task.phase.Reading? ==> !task.adds)
  }

  ghost predicate BelowModulus(cfg: Config, s: State) {
    && (forall i | 0 <= i < |s.mem.bitmap| && s.mem.bitmap[i] :: i < cfg.modulus)
    && (forall t | 0 <= t < |s.tasks| :: TaskBelow(cfg, s.tasks[t]))
  }

  lemma AdmitBelow(cfg: Config, m: Memory, id: U64)
    ensures Admit(cfg, m, id).1.Admitted? ==> Admit(cfg, m, id).1.index < cfg.modulus
  {
  }

  lemma BeginBelow(cfg: Config, s: State, t: nat)
    requires Enabled(cfg, s, Begin(t))
    ensures var s' := BeginTask(cfg, s, t);
      && s'.mem.bitmap == s.mem.bitmap && |s'.tasks| == |s.tasks|
      && s'.tasks == s.tasks[t := s'.tasks[t]] && TaskBelow(cfg, s'.tasks[t])
  {
    hide Admit, Indexed, HeaderEncode;
    if s.tasks[t].adds {
      AdmitBelow(cfg, s.mem, s.tasks[t].Id());
    }
  }

  lemma LandBelow(cfg: Config, s: State, t: nat)
    requires Enabled(cfg, s, Land(t)) && TaskBelow(cfg, s.tasks[t])
    ensures var s' := LandTask(cfg, s, t);
      && s'.mem.bitmap == s.mem.bitmap && |s'.tasks| == |s.tasks|
      && s'.tasks == s.tasks[t := s'.tasks[t]] && TaskBelow(cfg, s'.tasks[t])
  {
    hide HeaderBlock, BitmapBlock, BitmapIndex;
  }

  lemma FinishBelow(cfg: Config, s: State, t: nat, ok: bool)
    requires Enabled(cfg, s, Finish(t, ok)) && TaskBelow(cfg, s.tasks[t])
    ensures var s' := FinishTask(cfg, s, t, ok);
      && |s'.mem.bitmap| == |s.mem.bitmap| && |s'.tasks| == |s.tasks|
      && (forall i | 0 <= i < |s.mem.bitmap| && s'.mem.bitmap[i] :: s.mem.bitmap[i] || i < cfg.modulus)
      && s'.tasks == s.tasks[t := s'.tasks[t]] && TaskBelow(cfg, s'.tasks[t])
  {
    hide HeaderBlock, Inspect, Elsewhere, ExtentOffset, BitmapIndex, CloneImage;
  }

  lemma BelowKept(cfg: Config, s: State, step: Step)
    requires BelowModulus(cfg, s) && Enabled(cfg, s, step)
    ensures BelowModulus(cfg, Next(cfg, s, step))
  {
    StepTask(cfg, s, step);
    hide Enabled, BeginTask, LandTask, FinishTask, TaskBelow;
    match step
    case Spawn(task) => WaitsBelow(cfg, s, task);
    case Begin(t) => BeginBelow(cfg, s, t);
    case Land(t) => LandBelow(cfg, s, t);
    case Finish(t, ok) => FinishBelow(cfg, s, t, ok);
  }

  lemma WaitsBelow(cfg: Config, s: State, task: Task)
    requires Enabled(cfg, s, Spawn(task))
    ensures TaskBelow(cfg, task)
  {
  }

  lemma {:induction false} BelowAlways(cfg: Config, s: State, steps: seq<Step>)
    requires BelowModulus(cfg, s) && IsRun(cfg, s, steps)
    ensures BelowModulus(cfg, After(cfg, s, steps))
    decreases |steps|
  {
    if steps != [] {
      BelowKept(cfg, s, steps[0]);
      hide Enabled, Careful, Next, BelowModulus;
      BelowAlways(cfg, Next(cfg, s, steps[0]), steps[1..]);
    }
  }

  lemma MarkedBelow(bits: seq<bool>, n: nat)
    requires n <= |bits| && forall i | 0 <= i < |bits| && bits[i] :: i < n
    ensures |Marked(bits)| <= n
    ensures |Marked(bits)| == n <==> forall i | 0 <= i < n :: bits[i]
  {
    assert Marked(bits[..n]) == Marked(bits);
    MarkedBound(bits[..n]);
    AllMarked(bits[..n]);
    assert forall i | 0 <= i < n :: bits[..n][i] == bits[i];
  }

  lemma {:induction false} AllMarked(bits: seq<bool>)
    ensures |Marked(bits)| == |bits| <==> forall i | 0 <= i < |bits| :: bits[i]
    decreases |bits|
  {
    if bits != [] {
      var n := |bits| - 1;
      var init := bits[..n];
      AllMarked(init);
      MarkedBound(init);
      assert Marked(bits) == Marked(init) + if bits[n] then {n} else {};
      assert forall i | 0 <= i < n :: init[i] == bits[i];
    }
  }

  /**
   A new extent is turned away exactly when as many extents exist as the modulus allows, or the counter
   says that the device is full, which, when it is right, comes to the same. The message is that of a
   full device if the counter says so, and otherwise the one for what cannot happen: as written that is
   after one extent per bitmap block, and with a right counter whenever the modulus is too small.
   */
  lemma Capacity(cfg: Config, disk: Disk, steps: seq<Step>, s: State, id: U64)
    requires Sound(cfg.fixes) && Reaches(cfg, disk, steps, s) && id !in s.mem.offsets && 0 < cfg.geo.count
    ensures |s.mem.offsets| <= cfg.modulus
    ensures var r := Admit(cfg, s.mem, id).1;
      if s.mem.used == cfg.geo.count then r == Refused(FsFull)
      else if |s.mem.offsets| < cfg.modulus then r.Admitted?
      else r == Refused(CodeError)
    ensures !cfg.fixes.countUsed || cfg.fixes.stopOnMissing ==>
      var r := Admit(cfg, s.mem, id).1;
      if |s.mem.offsets| < cfg.modulus then r.Admitted?
      else r == Refused(if cfg.fixes.countUsed && cfg.modulus == cfg.geo.count then FsFull else CodeError)
  {
    hide BlankDevice, Roomy, Readable, Owned, Agree, Marked, MarkedGood, ViewOf, FlightOk, Called, Locking, IsRun,
      After, IsCareful, Scan;
    ReachesInv(cfg, disk, steps, s);
    BelowAlways(cfg, Initial(cfg, disk), steps);
    MapSize(cfg, s.mem.bitmap, ViewOf(cfg.geo, s.disk), s.mem.offsets);
    MarkedBelow(s.mem.bitmap, cfg.modulus);
    ScanComplete(s.mem.bitmap, s.mem.cursor, cfg.modulus);
  }

  // ---- nothing is ever freed as written ----

  /** Every extent of the one state is in the other, with its id. */
  ghost predicate Keeps(m: Memory, m': Memory) {
    && |m.bitmap| <= |m'.bitmap| && (forall i | 0 <= i < |m.bitmap| && m.bitmap[i] :: m'.bitmap[i])
    && (forall id | id in m.offsets :: id in m'.offsets && m'.offsets[id] == m.offsets[id])
  }

  /** A bitmap write that completes: an add puts something in, a delete takes nothing out. */
  lemma NothingFreedByWrite(cfg: Config, m: Memory, v: View, task: Task)
    requires FlightOk(cfg, m, v, task) && task.phase.BitmapWrite? && cfg.fixes.header.AsWritten?
    ensures task.phase.index < |m.bitmap|
    ensures Keeps(m, if task.adds then Insert(cfg, m, task.phase.index, task.Id())
              else Remove(cfg, m, task.phase.index, task.Id()))
  {
    hide CloneImage, BitmapIndex, SameBlock, ExtentOffset, FlightOk, Matched;
    BitmapFlight(cfg, m, v, task);
  }

  lemma NothingFreedByStep(cfg: Config, s: State, step: Step)
    requires Inv(cfg, s) && cfg.fixes.header.AsWritten? && Enabled(cfg, s, step)
    ensures Keeps(s.mem, Next(cfg, s, step).mem)
  {
    var v := ViewOf(cfg.geo, s.disk);
    hide Readable, ViewOf, HeaderEncode, BitmapWriteOf, BitmapIndex, HeaderBlock, BitmapBlock, Inspect, InvOn, FlightOk,
      Core, Admit, Indexed, Elsewhere, Insert, Remove;
    if step.Finish? {
      HolderMoves(cfg, s, v, step.t);
      if s.tasks[step.t].phase.BitmapWrite? {
        NothingFreedByWrite(cfg, s.mem, v, s.tasks[step.t]);
      }
    }
  }

  /** As written no delete ever frees an extent, in any run: extents and ids only accumulate. */
  lemma {:induction false} NothingFreed(cfg: Config, s: State, steps: seq<Step>)
    requires ValidConfig(cfg) && Inv(cfg, s) && cfg.fixes.header.AsWritten?
    requires IsRun(cfg, s, steps) && IsCareful(cfg, s, steps)
    ensures Keeps(s.mem, After(cfg, s, steps).mem)
    decreases |steps|
  {
    if steps != [] {
      hide Enabled, Careful, Next, Inv, Roomy;
      NothingFreedByStep(cfg, s, steps[0]);
      StepKeeps(cfg, s, steps[0]);
      NothingFreed(cfg, Next(cfg, s, steps[0]), steps[1..]);
    }
  }
}
