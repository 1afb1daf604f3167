/** `AddExtent` and `DelExtent` from call to return, and that undisturbed they are runs of the protocol. */
module ExtentCalls {
  import opened Bytes
  import opened ErrorCodes
  import opened SealedBlock
  import opened ExtentHeaders
  import opened Devices
  import opened Layouts
  import opened ExtentGeometry
  import opened ExtentProtocol

  datatype AddResult = AddResult(mem: Memory, disk: Disk, header: Header, err: ErrorCode)
  datatype DelResult = DelResult(mem: Memory, disk: Disk, err: ErrorCode)

  /** An add from the header write on, with slot `i` found. */
  function StoreCall(cfg: Config, m: Memory, disk: Disk, header: Header, i: U32, done1: Completion, done2: Completion)
    : (r: AddResult)
    requires header.Valid() && i < |m.bitmap|
    ensures |r.mem.bitmap| == |m.bitmap|
  {
    var h := Indexed(header, i);
    var (d1, err1) := WriteResult(disk, ExtentOffset(cfg.geo, i), HeaderEncode(h), done1);
    if err1 != Ok then AddResult(m, d1, h, err1)
    else
      var b := BitmapIndex(i);
      var (d2, err2) := WriteResult(d1, BitmapOffset(cfg.geo, b), CloneImage(m.bitmap, i, true), done2);
      AddResult(if err2 == Ok then Insert(cfg, m, i, header.fields.extentId) else m, d2, h, err2)
  }

  /** `done1` and `done2` say what becomes of the header write and of the bitmap write. */
  function AddCall(cfg: Config, m: Memory, disk: Disk, header: Header, done1: Completion, done2: Completion)
    : (r: AddResult)
    requires header.Valid() && |m.bitmap| <= 0x1_0000_0000
    ensures |r.mem.bitmap| == |m.bitmap|
  {
    match Admit(cfg, m, header.fields.extentId)
    case (m1, Admitted(i)) => StoreCall(cfg, m1, disk, header, i, done1, done2)
    case (m1, Refused(err)) => AddResult(m1, disk, header, err)
    case (m1, Undefined) => AddResult(m1, disk, header, CodeError)
  }

  /** The search stays inside the bitmap, and the clone loop does not overflow. */
  predicate AddDefined(cfg: Config, m: Memory, disk: Disk, header: Header, done1: Completion)
    requires header.Valid() && |m.bitmap| <= 0x1_0000_0000
  {
    match Admit(cfg, m, header.fields.extentId).1
    case Admitted(i) =>
      WriteResult(disk, ExtentOffset(cfg.geo, i), HeaderEncode(Indexed(header, i)), done1).1 == Ok ==> CloneDefined(i)
    case Refused(_) => true
    case Undefined => false
  }

  /** The error with which a delete ends before it writes, or none; `ok` says whether the read works. */
  function DelRefusal(cfg: Config, m: Memory, disk: Disk, header: Header, ok: bool): ErrorCode {
    if cfg.fixes.stopOnMissing && header.fields.extentId !in m.offsets then ExtentNotExists
    else
      var (block, err) := ReadResult(disk, ExtentOffset(cfg.geo, header.fields.bitmapIndex), BLOCK_SIZE, ok);
      if err != ErrorCode.Ok then err else Inspect(cfg, block, header.fields.extentId)
  }

  /** Nothing bounds the index that a delete is given; it must be one only if the delete is not refused. */
  predicate DelDefined(cfg: Config, m: Memory, disk: Disk, header: Header, ok: bool) {
    DelRefusal(cfg, m, disk, header, ok) == ErrorCode.Ok ==> Continues(m, header.fields.bitmapIndex)
  }

  /** `ok` says whether the read works and `done` what becomes of the bitmap write. */
  function DelCall(cfg: Config, m: Memory, disk: Disk, header: Header, ok: bool, done: Completion): (r: DelResult)
    requires header.Valid()
    ensures |r.mem.bitmap| == |m.bitmap|
  {
    var i, id := header.fields.bitmapIndex, header.fields.extentId;
    var err := DelRefusal(cfg, m, disk, header, ok);
    if err != Ok then DelResult(m, disk, err)
    else if i >= |m.bitmap| then DelResult(m, disk, CodeError)
    else
      var b := BitmapIndex(i);
      var (d, err2) := WriteResult(disk, BitmapOffset(cfg.geo, b), CloneImage(m.bitmap, i, false), done);
      DelResult(if err2 == Ok then Remove(cfg, m, i, id) else m, d, err2)
  }

  /** A delete with an index past the bitmap is harmless exactly when it is refused; otherwise it is not defined. */
  lemma DeleteOutOfRange(cfg: Config, m: Memory, disk: Disk, header: Header, ok: bool, done: Completion)
    requires header.Valid() && |m.bitmap| <= header.fields.bitmapIndex
    ensures DelDefined(cfg, m, disk, header, ok) <==> DelRefusal(cfg, m, disk, header, ok) != Ok
    ensures DelDefined(cfg, m, disk, header, ok) ==>
      DelCall(cfg, m, disk, header, ok, done) == DelResult(m, disk, DelRefusal(cfg, m, disk, header, ok))
  {
    hide DelRefusal;
  }

  /** Past the last extent of a layout there is no whole extent, so no header can be read. */
  lemma PastLayout(size: U64, i: U32)
    requires MIN_DEVICE_SIZE <= size && size / EXTENT_SIZE - 1 <= MAX_EXTENTS
    requires Tiled(LayoutOf(size, Repaired)) && LayoutOf(size, Repaired).extents.blockCount <= MAX_EXTENTS
    requires LayoutOf(size, Repaired).extents.blockCount < i
    ensures var g := GeometryOf(LayoutOf(size, Repaired));
      IsBlockAlign(ExtentOffset(g, i)) && HeaderBlock(g, i) * BLOCK_SIZE >= size
  {
    RepairedLayout(size);
    var g := GeometryOf(LayoutOf(size, Repaired));
    ExtentAligned(g, i);
    assert ExtentOffset(g, i) == i * EXTENT_SIZE + META_BLOCKS * BLOCK_SIZE;
  }

  /**
   On a device laid out by `BuildLayout` with the 64 MB divisor, a delete with an index beyond the one
   that follows the last extent changes nothing: it ends at the lookup or at the read.
   */
  lemma DeletePastLayout(cfg: Config, size: U64, m: Memory, disk: Disk, header: Header, ok: bool, done: Completion)
    requires MIN_DEVICE_SIZE <= size && size / EXTENT_SIZE - 1 <= MAX_EXTENTS
    requires Tiled(LayoutOf(size, Repaired)) && LayoutOf(size, Repaired).extents.blockCount <= MAX_EXTENTS
    requires cfg.geo == GeometryOf(LayoutOf(size, Repaired)) && header.Valid()
    requires cfg.geo.count < header.fields.bitmapIndex && forall k | k in disk :: k * BLOCK_SIZE < size
    ensures DelDefined(cfg, m, disk, header, ok)
    ensures var r := DelCall(cfg, m, disk, header, ok, done);
      r.mem == m && r.disk == disk && (r.err == ExtentNotExists || r.err == IoReadAtFailed)
  {
    hide ReadResult, HeaderBlock, Inspect, ExtentOffset, CloneDefined, CloneImage, WriteResult;
    PastLayout(size, header.fields.bitmapIndex);
    OneBlockRead(disk, ExtentOffset(cfg.geo, header.fields.bitmapIndex), ok);
    NotThere(cfg.geo, header.fields.bitmapIndex, disk, size);
  }

  lemma NotThere(g: Geometry, i: nat, disk: Disk, size: nat)
    requires HeaderBlock(g, i) * BLOCK_SIZE >= size && forall k | k in disk :: k * BLOCK_SIZE < size
    ensures ExtentOffset(g, i) / BLOCK_SIZE !in disk
  {
  }

  // ---- transfers of one block ----

  /** A write of one block reaches the device. */
  predicate Lands(disk: Disk, block: nat, done: Completion) {
    block in disk && (done.Complete? || done.landed == 1)
  }

  lemma OneBlockWrite(disk: Disk, offset: nat, buf: seq<bv8>, done: Completion)
    requires IsBlockAlign(offset) && |buf| == BLOCK_SIZE
    ensures WriteResult(disk, offset, buf, done) ==
      (if Lands(disk, offset / BLOCK_SIZE, done) then disk[offset / BLOCK_SIZE := buf] else disk,
       if Lands(disk, offset / BLOCK_SIZE, done) && done.Complete? then Ok else IoWriteAtFailed)
  {
    var k := offset / BLOCK_SIZE;
    assert buf[0 * BLOCK_SIZE..1 * BLOCK_SIZE] == buf;
    assert |buf| / BLOCK_SIZE == 1;
    assert Put(disk, k, buf, 0) == disk;
    assert Put(disk, k, buf, 1) == if k in disk then disk[k := buf] else disk;
  }

  lemma OneBlockRead(disk: Disk, offset: nat, ok: bool)
    requires IsBlockAlign(offset)
    ensures ReadResult(disk, offset, BLOCK_SIZE, ok) ==
      if ok && offset / BLOCK_SIZE in disk then (disk[offset / BLOCK_SIZE], ErrorCode.Ok) else ([], IoReadAtFailed)
  {
    var k := offset / BLOCK_SIZE;
    assert BLOCK_SIZE / BLOCK_SIZE == 1;
    if k in disk {
      assert Gather(disk, k, 0) == [];
      assert Gather(disk, k, 1) == disk[k];
    }
  }

  // ---- runs ----

  /** The steps lead from one state to the other, and, if `careful`, do so with care. */
  predicate Leads(cfg: Config, s: State, steps: seq<Step>, s': State, careful: bool) {
    IsRun(cfg, s, steps) && After(cfg, s, steps) == s' && (careful ==> IsCareful(cfg, s, steps))
  }

  lemma {:induction false} LeadsOn(cfg: Config, s: State, steps: seq<Step>, s': State, step: Step, careful: bool)
    requires Leads(cfg, s, steps, s', careful) && Enabled(cfg, s', step) && (careful ==> Careful(cfg, s', step))
    ensures Leads(cfg, s, steps + [step], Next(cfg, s', step), careful)
    decreases |steps|
  {
    hide Enabled, Careful, Next;
    var all := steps + [step];
    if steps == [] {
      assert all[0] == step && all[1..] == [];
      var s1 := Next(cfg, s, step);
      assert IsRun(cfg, s1, []);
      assert After(cfg, s1, []) == s1;
      assert IsCareful(cfg, s1, []);
    } else {
      assert all[0] == steps[0] && all[1..] == steps[1..] + [step];
      LeadsOn(cfg, Next(cfg, s, steps[0]), steps[1..], s', step, careful);
    }
  }

  lemma {:induction false} RunsJoin(cfg: Config, s: State, a: seq<Step>, s': State, b: seq<Step>, s'': State,
      careful: bool)
    requires Leads(cfg, s, a, s', careful) && Leads(cfg, s', b, s'', careful)
    ensures Leads(cfg, s, a + b, s'', careful)
    decreases |b|
  {
    if b == [] {
      assert a + b == a;
    } else {
      hide Enabled, Careful, Next;
      var s1 := Next(cfg, s', b[0]);
      LeadsOn(cfg, s, a, s', b[0], careful);
      RunsJoin(cfg, s, a + [b[0]], s1, b[1..], s'', careful);
      assert a + [b[0]] + b[1..] == a + b;
    }
  }

  /** `s` with one more task, the last to come, and what it has done. */
  function With(s: State, mem: Memory, disk: Disk, task: Task, suspect: set<nat>): State {
    State(mem, disk, s.tasks + [task], if task.phase.InFlight() then Held(|s.tasks|) else Free, suspect)
  }

  /** The last task comes and takes the lock. */
  lemma Starts(cfg: Config, s: State, task: Task, careful: bool)
    requires s.lock.Free? && Enabled(cfg, s, Spawn(task))
    requires var s1 := With(s, s.mem, s.disk, task, s.suspect);
      Enabled(cfg, s1, Begin(|s.tasks|)) && (careful ==> Careful(cfg, s1, Begin(|s.tasks|)))
    ensures var s1 := With(s, s.mem, s.disk, task, s.suspect);
      Leads(cfg, s, [Spawn(task), Begin(|s.tasks|)], BeginTask(cfg, s1, |s.tasks|), careful)
  {
    var s1 := With(s, s.mem, s.disk, task, s.suspect);
    hide BeginTask;
    assert Leads(cfg, s, [], s, careful);
    assert Next(cfg, s, Spawn(task)) == s1;
    assert !Spawn(task).Begin?;
    LeadsOn(cfg, s, [], s, Spawn(task), careful);
    LeadsOn(cfg, s, [] + [Spawn(task)], s1, Begin(|s.tasks|), careful);
    assert [] + [Spawn(task)] + [Begin(|s.tasks|)] == [Spawn(task), Begin(|s.tasks|)];
  }

  /** The steps of a transfer by the last task: it lands first if it lands at all. */
  function TransferSteps(t: nat, lands: bool, ok: bool): seq<Step> {
    if lands then [Land(t), Finish(t, ok)] else [Finish(t, ok)]
  }

  function BlockOf(cfg: Config, phase: Phase): nat {
    match phase
    case HeaderWrite(i, _, _) => HeaderBlock(cfg.geo, i)
    case BitmapWrite(i, _, _) => BitmapBlock(cfg.geo, BitmapIndex(i))
    case _ => 0
  }

  predicate Writes(phase: Phase) {
    phase.HeaderWrite? || phase.BitmapWrite?
  }

  function Landed(phase: Phase): Phase {
    match phase
    case HeaderWrite(i, bytes, _) => HeaderWrite(i, bytes, true)
    case BitmapWrite(i, bytes, _) => BitmapWrite(i, bytes, true)
    case other => other
  }

  /** The write of the last task, from its start until its result is known. */
  lemma TransferRuns(cfg: Config, s: State, steps: seq<Step>, mem: Memory, disk: Disk, task: Task, suspect: set<nat>,
      lands: bool, ok: bool, careful: bool)
    requires Writes(task.phase) && !task.phase.landed && task.phase.index < |mem.bitmap|
    requires Leads(cfg, s, steps, With(s, mem, disk, task, suspect), careful)
    requires ok && task.phase.HeaderWrite? ==> CloneDefined(task.phase.index)
    requires (lands ==> BlockOf(cfg, task.phase) in disk) && (ok ==> lands)
    ensures var disk' := if lands then disk[BlockOf(cfg, task.phase) := task.phase.bytes] else disk;
      var task' := if lands then task.(phase := Landed(task.phase)) else task;
      var s1 := With(s, mem, disk', task', suspect);
      && Enabled(cfg, s1, Finish(|s.tasks|, ok))
      && Leads(cfg, s, steps + TransferSteps(|s.tasks|, lands, ok), FinishTask(cfg, s1, |s.tasks|, ok), careful)
  {
    hide FinishTask, Leads, HeaderBlock, BitmapBlock, BitmapIndex;
    var t := |s.tasks|;
    var s0 := With(s, mem, disk, task, suspect);
    if lands {
      var s1 := With(s, mem, disk[BlockOf(cfg, task.phase) := task.phase.bytes], task.(phase := Landed(task.phase)),
        suspect);
      assert Next(cfg, s0, Land(t)) == s1;
      LeadsOn(cfg, s, steps, s0, Land(t), careful);
      LeadsOn(cfg, s, steps + [Land(t)], s1, Finish(t, ok), careful);
      assert steps + [Land(t)] + [Finish(t, ok)] == steps + [Land(t), Finish(t, ok)];
    } else {
      LeadsOn(cfg, s, steps, s0, Finish(t, ok), careful);
    }
  }

  /** What is left of a call in the protocol's state when it has returned. */
  ghost predicate Returned(s: State, s': State, mem: Memory, disk: Disk, header: Header, err: ErrorCode) {
    && s'.mem == mem && s'.disk == disk && s'.lock.Free?
    && |s'.tasks| == |s.tasks| + 1 && s'.tasks[..|s.tasks|] == s.tasks
    && s'.tasks[|s.tasks|].header == header && s'.tasks[|s.tasks|].phase == Done(err)
  }

  /** From the start of the bitmap write to the return of either call. */
  lemma BitmapWriteRuns(cfg: Config, s: State, steps: seq<Step>, mem: Memory, disk: Disk, task: Task, suspect: set<nat>,
      done: Completion, careful: bool)
    returns (steps': seq<Step>, s': State)
    requires Roomy(cfg.geo) && |mem.bitmap| == cfg.geo.count
    requires task.phase.BitmapWrite? && !task.phase.landed && task.phase.index < |mem.bitmap|
    requires |task.phase.bytes| == BLOCK_SIZE
    requires Leads(cfg, s, steps, With(s, mem, disk, task, suspect), careful)
    ensures Leads(cfg, s, steps', s', careful)
    ensures var i := task.phase.index;
      var (disk', err) := WriteResult(disk, BitmapOffset(cfg.geo, BitmapIndex(i)), task.phase.bytes, done);
      && Returned(s, s', if err != Ok then mem else if task.adds then Insert(cfg, mem, i, task.Id())
           else Remove(cfg, mem, i, task.Id()), disk', task.header, err)
      && s'.suspect == if err == Ok then Elsewhere(suspect, i) else suspect + {i}
  {
    hide Leads, Insert, Remove, BitmapIndex, BitmapOffset, Roomy, WriteResult, Elsewhere;
    var i := task.phase.index;
    var k := BitmapBlock(cfg.geo, BitmapIndex(i));
    LiveIndex(cfg.geo, i);
    BitmapAddress(cfg.geo, BitmapIndex(i));
    OneBlockWrite(disk, BitmapOffset(cfg.geo, BitmapIndex(i)), task.phase.bytes, done);
    var lands := Lands(disk, k, done);
    var ok := lands && done.Complete?;
    TransferRuns(cfg, s, steps, mem, disk, task, suspect, lands, ok, careful);
    steps' := steps + TransferSteps(|s.tasks|, lands, ok);
    var disk' := if lands then disk[k := task.phase.bytes] else disk;
    var task' := if lands then task.(phase := Landed(task.phase)) else task;
    s' := FinishTask(cfg, With(s, mem, disk', task', suspect), |s.tasks|, ok);
  }

  /** From the start of the header write to the return of an add. */
  lemma HeaderWriteRuns(cfg: Config, s: State, steps: seq<Step>, mem: Memory, task: Task, done1: Completion,
      done2: Completion)
    returns (steps': seq<Step>, s': State)
    requires Roomy(cfg.geo) && |mem.bitmap| == cfg.geo.count && task.adds
    requires task.phase.HeaderWrite? && !task.phase.landed && task.phase.index < |mem.bitmap|
    requires |task.phase.bytes| == BLOCK_SIZE
    requires WriteResult(s.disk, ExtentOffset(cfg.geo, task.phase.index), task.phase.bytes, done1).1 == Ok ==>
      CloneDefined(task.phase.index)
    requires Leads(cfg, s, steps, With(s, mem, s.disk, task, s.suspect), true)
    ensures Leads(cfg, s, steps', s', true)
    ensures var i := task.phase.index;
      var (d1, err1) := WriteResult(s.disk, ExtentOffset(cfg.geo, i), task.phase.bytes, done1);
      if err1 != Ok then Returned(s, s', mem, d1, task.header, err1) && s'.suspect == s.suspect
      else
        var image := CloneImage(mem.bitmap, i, true);
        var (d2, err2) := WriteResult(d1, BitmapOffset(cfg.geo, BitmapIndex(i)), image, done2);
        && Returned(s, s', if err2 != Ok then mem else Insert(cfg, mem, i, task.Id()), d2, task.header, err2)
        && s'.suspect == if err2 == Ok then Elsewhere(s.suspect, i) else s.suspect + {i}
  {
    hide Leads, Insert, BitmapIndex, BitmapOffset, ExtentOffset, Roomy, WriteResult, Elsewhere, CloneImage;
    var i := task.phase.index;
    ExtentAddress(cfg.geo, i);
    OneBlockWrite(s.disk, ExtentOffset(cfg.geo, i), task.phase.bytes, done1);
    var k := HeaderBlock(cfg.geo, i);
    var lands := Lands(s.disk, k, done1);
    var ok := lands && done1.Complete?;
    TransferRuns(cfg, s, steps, mem, s.disk, task, s.suspect, lands, ok, true);
    var steps1 := steps + TransferSteps(|s.tasks|, lands, ok);
    var d1 := if lands then s.disk[k := task.phase.bytes] else s.disk;
    var task1 := if lands then task.(phase := Landed(task.phase)) else task;
    var s1 := FinishTask(cfg, With(s, mem, d1, task1, s.suspect), |s.tasks|, ok);
    if ok {
      var task2 := task.(phase := BitmapWriteOf(mem, i, true));
      assert s1 == With(s, mem, d1, task2, s.suspect);
      steps', s' := BitmapWriteRuns(cfg, s, steps1, mem, d1, task2, s.suspect, done2, true);
    } else {
      steps', s' := steps1, s1;
    }
  }

  /** An add that the search admits. */
  lemma AdmittedRuns(cfg: Config, s: State, header: Header, done1: Completion, done2: Completion, m: Memory, i: U32)
    returns (steps: seq<Step>, s': State)
    requires Roomy(cfg.geo) && |s.mem.bitmap| == cfg.geo.count && s.lock.Free? && header.Valid()
    requires AddDefined(cfg, s.mem, s.disk, header, done1)
    requires Admit(cfg, s.mem, header.fields.extentId) == (m, Admitted(i)) && i < |m.bitmap| == cfg.geo.count
    ensures Leads(cfg, s, steps, s', true)
    ensures var r := StoreCall(cfg, m, s.disk, header, i, done1, done2);
      Returned(s, s', r.mem, r.disk, r.header, r.err) && (r.err == Ok ==> s'.suspect <= s.suspect)
  {
    hide Leads, Admit, Indexed, Insert, BitmapIndex, ExtentOffset, BitmapOffset, Roomy, WriteResult, HeaderEncode,
      CloneImage, CloneDefined;
    var t, task, h := |s.tasks|, Task(true, header, Waiting), Indexed(header, i);
    var s0 := With(s, s.mem, s.disk, task, s.suspect);
    IndexedKeeps(header, i);
    Starts(cfg, s, task, true);
    var task1 := Task(true, h, HeaderWrite(i, HeaderEncode(h), false));
    assert BeginTask(cfg, s0, t) == With(s, m, s.disk, task1, s.suspect);
    hide AddDefined, With, BeginTask;
    steps, s' := HeaderWriteRuns(cfg, s, [Spawn(task), Begin(t)], m, task1, done1, done2);
  }

  lemma RefusedRuns(cfg: Config, s: State, header: Header, m: Memory, err: ErrorCode)
    returns (steps: seq<Step>, s': State)
    requires |s.mem.bitmap| <= 0x1_0000_0000 && s.lock.Free? && header.Valid()
    requires Admit(cfg, s.mem, header.fields.extentId) == (m, Refused(err))
    ensures Leads(cfg, s, steps, s', true)
    ensures Returned(s, s', m, s.disk, header, err) && s'.suspect == s.suspect
  {
    hide Leads, Admit;
    var t, task := |s.tasks|, Task(true, header, Waiting);
    var s0 := With(s, s.mem, s.disk, task, s.suspect);
    Starts(cfg, s, task, true);
    steps := [Spawn(task), Begin(t)];
    s' := With(s, m, s.disk, task.(phase := Done(err)), s.suspect);
    assert BeginTask(cfg, s0, t) == s';
  }

  /** An undisturbed `AddExtent` is a run of one task. */
  lemma AddCallRuns(cfg: Config, s: State, header: Header, done1: Completion, done2: Completion)
    returns (steps: seq<Step>, s': State)
    requires Roomy(cfg.geo) && |s.mem.bitmap| == cfg.geo.count && s.lock.Free? && header.Valid()
    requires AddDefined(cfg, s.mem, s.disk, header, done1)
    ensures Leads(cfg, s, steps, s', true)
    ensures var r := AddCall(cfg, s.mem, s.disk, header, done1, done2);
      Returned(s, s', r.mem, r.disk, r.header, r.err) && (r.err == Ok ==> s'.suspect <= s.suspect)
  {
    hide Leads, Admit, Indexed, ExtentOffset, Roomy, WriteResult, HeaderEncode, CloneDefined, StoreCall, Returned;
    var (m, admission) := Admit(cfg, s.mem, header.fields.extentId);
    if admission.Refused? {
      steps, s' := RefusedRuns(cfg, s, header, m, admission.err);
    } else {
      steps, s' := AdmittedRuns(cfg, s, header, done1, done2, m, admission.index);
    }
  }

  lemma UnknownRuns(cfg: Config, s: State, header: Header, careful: bool) returns (steps: seq<Step>, s': State)
    requires |s.mem.bitmap| <= 0x1_0000_0000 && s.lock.Free? && header.Valid()
    requires cfg.fixes.stopOnMissing && header.fields.extentId !in s.mem.offsets
    requires careful ==> Matched(cfg, s.mem, Task(false, header, Waiting))
    ensures Leads(cfg, s, steps, s', careful)
    ensures Returned(s, s', s.mem, s.disk, header, ExtentNotExists) && s'.suspect == s.suspect
  {
    hide Leads, Matched;
    var t, task := |s.tasks|, Task(false, header, Waiting);
    Starts(cfg, s, task, careful);
    steps := [Spawn(task), Begin(t)];
    s' := With(s, s.mem, s.disk, task.(phase := Done(ExtentNotExists)), s.suspect);
    assert BeginTask(cfg, With(s, s.mem, s.disk, task, s.suspect), t) == s';
  }

  /** A delete up to the end of its read. */
  lemma ReadRuns(cfg: Config, s: State, header: Header, read: bool, careful: bool) returns (steps: seq<Step>, s': State)
    requires |s.mem.bitmap| <= 0x1_0000_0000 && s.lock.Free? && header.Valid()
    requires cfg.fixes.stopOnMissing ==> header.fields.extentId in s.mem.offsets
    requires careful ==> Matched(cfg, s.mem, Task(false, header, Waiting))
    requires CanFinish(cfg, s, Task(false, header, Reading), read)
    ensures var s1 := With(s, s.mem, s.disk, Task(false, header, Reading), s.suspect);
      && Enabled(cfg, s1, Finish(|s.tasks|, read))
      && s' == FinishTask(cfg, s1, |s.tasks|, read) && Leads(cfg, s, steps, s', careful)
  {
    hide Leads, Matched, FinishTask, CanFinish;
    var t, task := |s.tasks|, Task(false, header, Waiting);
    var s1 := With(s, s.mem, s.disk, task.(phase := Reading), s.suspect);
    Starts(cfg, s, task, careful);
    assert BeginTask(cfg, With(s, s.mem, s.disk, task, s.suspect), t) == s1;
    SameFinish(cfg, s, s1, task.(phase := Reading), read);
    LeadsOn(cfg, s, [Spawn(task), Begin(t)], s1, Finish(t, read), careful);
    steps := [Spawn(task), Begin(t)] + [Finish(t, read)];
    s' := FinishTask(cfg, s1, t, read);
  }

  lemma SameFinish(cfg: Config, s: State, s': State, task: Task, ok: bool)
    requires s'.mem == s.mem && s'.disk == s.disk && CanFinish(cfg, s, task, ok)
    ensures CanFinish(cfg, s', task, ok)
  {
    hide HeaderBlock, Inspect, Continues;
  }

  /** A delete that gets as far as its read. */
  lemma KnownRuns(cfg: Config, s: State, header: Header, ok: bool, done: Completion, careful: bool)
    returns (steps: seq<Step>, s': State)
    requires Roomy(cfg.geo) && |s.mem.bitmap| == cfg.geo.count && s.lock.Free? && header.Valid()
    requires cfg.fixes.stopOnMissing ==> header.fields.extentId in s.mem.offsets
    requires careful ==> Matched(cfg, s.mem, Task(false, header, Waiting))
    requires DelDefined(cfg, s.mem, s.disk, header, ok)
    ensures Leads(cfg, s, steps, s', careful)
    ensures var r := DelCall(cfg, s.mem, s.disk, header, ok, done);
      Returned(s, s', r.mem, r.disk, header, r.err) && (r.err == Ok ==> s'.suspect <= s.suspect)
  {
    hide Leads, Remove, BitmapIndex, ExtentOffset, BitmapOffset, Roomy, WriteResult, ReadResult, CloneImage, Inspect,
      CloneDefined, Matched;
    var i := header.fields.bitmapIndex;
    RoomyAligned(cfg.geo, i);
    OneBlockRead(s.disk, ExtentOffset(cfg.geo, i), ok);
    var read := ok && HeaderBlock(cfg.geo, i) in s.disk;
    steps, s' := ReadRuns(cfg, s, header, read, careful);
    if s'.lock.Held? {
      var task2 := Task(false, header, BitmapWriteOf(s.mem, i, false));
      assert s' == With(s, s.mem, s.disk, task2, s.suspect);
      steps, s' := BitmapWriteRuns(cfg, s, steps, s.mem, s.disk, task2, s.suspect, done, careful);
    }
  }

  /** An undisturbed `DelExtent` is a run of one task, and a careful one when its index matches. */
  lemma DelCallRuns(cfg: Config, s: State, header: Header, ok: bool, done: Completion)
    returns (steps: seq<Step>, s': State)
    requires Roomy(cfg.geo) && |s.mem.bitmap| == cfg.geo.count && s.lock.Free? && header.Valid()
    requires DelDefined(cfg, s.mem, s.disk, header, ok)
    ensures Leads(cfg, s, steps, s', Matched(cfg, s.mem, Task(false, header, Waiting)))
    ensures var r := DelCall(cfg, s.mem, s.disk, header, ok, done);
      Returned(s, s', r.mem, r.disk, header, r.err) && (r.err == Ok ==> s'.suspect <= s.suspect)
  {
    hide Leads, Roomy, Matched, ReadResult, WriteResult, Inspect, DelDefined;
    var careful := Matched(cfg, s.mem, Task(false, header, Waiting));
    if cfg.fixes.stopOnMissing && header.fields.extentId !in s.mem.offsets {
      steps, s' := UnknownRuns(cfg, s, header, careful);
    } else {
      steps, s' := KnownRuns(cfg, s, header, ok, done, careful);
    }
  }

  lemma RoomyAligned(g: Geometry, i: nat)
    requires Roomy(g)
    ensures IsBlockAlign(ExtentOffset(g, i))
  {
    ExtentAligned(g, i);
  }
}
