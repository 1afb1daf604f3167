/** However tasks interleave, what they do is what the same calls do one after the other. */
module ExtentSerial {
  import opened Bytes
  import opened ErrorCodes
  import opened SealedBlock
  import opened ExtentHeaders
  import opened Devices
  import opened ExtentGeometry
  import opened ExtentProtocol
  import opened ExtentCalls
  import opened ExtentInvariant
  import opened ExtentSteps

  /** A call with what becomes of its transfers. */
  datatype Call =
    | Add(header: Header, done1: Completion, done2: Completion)
    | Del(header: Header, ok: bool, done: Completion)

  /** What a call leaves and returns, and whether its behaviour was defined. */
  datatype Effect = Effect(mem: Memory, disk: Disk, header: Header, err: ErrorCode, defined: bool)

  predicate Fits(count: nat, call: Call) {
    count <= 0x1_0000_0000 && call.header.Valid()
  }

  function Perform(cfg: Config, m: Memory, disk: Disk, call: Call): (e: Effect)
    requires Fits(|m.bitmap|, call)
    ensures |e.mem.bitmap| == |m.bitmap|
  {
    match call
    case Add(header, done1, done2) =>
      var r := AddCall(cfg, m, disk, header, done1, done2);
      Effect(r.mem, r.disk, r.header, r.err, AddDefined(cfg, m, disk, header, done1))
    case Del(header, ok, done) =>
      var r := DelCall(cfg, m, disk, header, ok, done);
      Effect(r.mem, r.disk, header, r.err, DelDefined(cfg, m, disk, header, ok))
  }

  /** Memory and device when the calls with these effects have returned. */
  function Left(m: Memory, disk: Disk, effects: seq<Effect>): (Memory, Disk) {
    if effects == [] then (m, disk) else (effects[|effects| - 1].mem, effects[|effects| - 1].disk)
  }

  /** The effects of calls made one after the other. */
  function Effects(cfg: Config, m: Memory, disk: Disk, calls: seq<Call>): (es: seq<Effect>)
    requires forall k | 0 <= k < |calls| :: Fits(|m.bitmap|, calls[k])
    ensures |es| == |calls| && forall k | 0 <= k < |es| :: |es[k].mem.bitmap| == |m.bitmap|
  {
    if calls == [] then []
    else
      var before := Effects(cfg, m, disk, calls[..|calls| - 1]);
      var (m1, d1) := Left(m, disk, before);
      before + [Perform(cfg, m1, d1, calls[|calls| - 1])]
  }

  function Written(disk: Disk, block: nat, bytes: seq<bv8>, landed: bool): Disk {
    if landed && block in disk then disk[block := bytes] else disk
  }

  /** A delete that reads: nothing has changed. */
  ghost predicate ReadSince(cfg: Config, m: Memory, disk: Disk, mem: Memory, d: Disk, task: Task, came: Header) {
    !task.adds && mem == m && d == disk && Permitted(cfg, m, task) && task.header == came
  }

  /** An add that writes its header: the cursor has moved, and the device has at most that header more. */
  ghost predicate HeaderSince(cfg: Config, m: Memory, disk: Disk, mem: Memory, d: Disk, task: Task, came: Header) {
    && task.phase.HeaderWrite?
    && var HeaderWrite(i, bytes, landed) := task.phase;
    && i < |m.bitmap| && Placed(cfg, m, mem, task, i, came) && bytes == HeaderEncode(task.header)
    && d == Written(disk, HeaderBlock(cfg.geo, i), bytes, landed)
    && (landed ==> HeaderBlock(cfg.geo, i) in disk)
  }

  ghost predicate BitmapSince(cfg: Config, m: Memory, disk: Disk, mem: Memory, d: Disk, task: Task, came: Header) {
    && task.phase.BitmapWrite?
    && var BitmapWrite(i, bytes, landed) := task.phase;
    && Continues(m, i) && bytes == CloneImage(m.bitmap, i, task.adds)
    && d == Written(BeforeBitmap(cfg, disk, task, i), BitmapBlock(cfg.geo, BitmapIndex(i)), bytes, landed)
    && (landed ==> BitmapBlock(cfg.geo, BitmapIndex(i)) in BeforeBitmap(cfg, disk, task, i))
    && HeaderBlock(cfg.geo, i) in disk
    && if task.adds then Placed(cfg, m, mem, task, i, came)
       else
         && mem == m && task.Index() == i && Permitted(cfg, m, task) && task.header == came
         && Inspect(cfg, disk[HeaderBlock(cfg.geo, i)], task.Id()) == Ok
  }

  /**
   `m` and `disk` are what memory and device were when the lock was last free; `mem` and `d` are
   what they are now. The holder of the lock came with the header `came`.
   */
  ghost predicate Since(cfg: Config, m: Memory, disk: Disk, mem: Memory, d: Disk, h: Holder, came: Header) {
    && |m.bitmap| == |mem.bitmap| == cfg.geo.count
    && match h
       case Nobody => mem == m && d == disk
       case Suspended(task) =>
         task.header.Valid() &&
         if task.phase.Reading? then ReadSince(cfg, m, disk, mem, d, task, came)
         else if task.phase.HeaderWrite? then HeaderSince(cfg, m, disk, mem, d, task, came)
         else BitmapSince(cfg, m, disk, mem, d, task, came)
  }

  predicate Permitted(cfg: Config, m: Memory, task: Task) {
    cfg.fixes.stopOnMissing ==> task.Id() in m.offsets
  }

  /** The search, starting from `m`, has given the task slot `i`, and the header it came with now says so. */
  predicate Placed(cfg: Config, m: Memory, m1: Memory, task: Task, i: nat, came: Header) {
    && task.adds && i < 0x1_0000_0000 && task.header.Valid()
    && came.Valid() && came.fields.extentId == task.Id()
    && Admit(cfg, m, task.Id()) == (m1, Admitted(i)) && Indexed(came, i) == task.header
  }

  function BeforeBitmap(cfg: Config, disk: Disk, task: Task, i: nat): Disk {
    if task.adds && task.header.Valid() then disk[HeaderBlock(cfg.geo, i) := HeaderEncode(task.header)] else disk
  }

  ghost predicate Orderly(cfg: Config, s: State) {
    |s.mem.bitmap| == cfg.geo.count && Locking(s) && Called(s.tasks)
  }

  /** What the task got is what the call gives, and the call is defined. */
  ghost predicate Outcome(task: Task, call: Call, e: Effect) {
    task.phase == Done(e.err) && task.header == e.header && task.adds == call.Add? && e.defined
  }

  // ---- the call of a task that ends ----

  function Failure(landed: bool): Completion {
    Failed(if landed then 1 else 0)
  }

  /** A write that ends with an error. */
  lemma FailedWrite(disk: Disk, offset: nat, buf: seq<bv8>, landed: bool)
    requires IsBlockAlign(offset) && |buf| == BLOCK_SIZE
    ensures WriteResult(disk, offset, buf, Failure(landed)) ==
      (Written(disk, offset / BLOCK_SIZE, buf, landed), IoWriteAtFailed)
  {
    hide WriteResult;
    OneBlockWrite(disk, offset, buf, Failure(landed));
  }

  /** A write that ends well. */
  lemma DoneWrite(disk: Disk, offset: nat, buf: seq<bv8>)
    requires IsBlockAlign(offset) && |buf| == BLOCK_SIZE && offset / BLOCK_SIZE in disk
    ensures WriteResult(disk, offset, buf, Complete) == (Written(disk, offset / BLOCK_SIZE, buf, true), Ok)
  {
    hide WriteResult;
    OneBlockWrite(disk, offset, buf, Complete);
  }

  lemma AddRefused(cfg: Config, m: Memory, disk: Disk, header: Header)
    requires |m.bitmap| <= 0x1_0000_0000 && header.Valid() && Admit(cfg, m, header.fields.extentId).1.Refused?
    ensures var (m1, admission) := Admit(cfg, m, header.fields.extentId);
      Perform(cfg, m, disk, Add(header, Complete, Complete)) == Effect(m1, disk, header, admission.err, true)
  {
    hide Admit;
  }

  lemma AddLosesHeader(cfg: Config, m: Memory, disk: Disk, m1: Memory, task: Task, i: nat, landed: bool, came: Header)
    requires Roomy(cfg.geo) && i < |m.bitmap| == cfg.geo.count && Placed(cfg, m, m1, task, i, came)
    ensures Perform(cfg, m, disk, Add(came, Failure(landed), Complete)) ==
      Effect(m1, Written(disk, HeaderBlock(cfg.geo, i), HeaderEncode(task.header), landed), task.header,
        IoWriteAtFailed, true)
  {
    hide Admit, Indexed, HeaderEncode, WriteResult, ExtentOffset, BitmapOffset, CloneImage, Roomy, Failure, Insert;
    ExtentAddress(cfg.geo, i);
    FailedWrite(disk, ExtentOffset(cfg.geo, i), HeaderEncode(task.header), landed);
  }

  /** How the bitmap write goes. */
  function Ending(ok: bool, landed: bool): Completion {
    if ok then Complete else Failure(landed)
  }

  lemma BitmapEnds(cfg: Config, disk: Disk, i: nat, bytes: seq<bv8>, ok: bool, landed: bool)
    requires Roomy(cfg.geo) && i < cfg.geo.count && |bytes| == BLOCK_SIZE
    requires ok ==> landed && BitmapBlock(cfg.geo, BitmapIndex(i)) in disk
    ensures WriteResult(disk, BitmapOffset(cfg.geo, BitmapIndex(i)), bytes, Ending(ok, landed)) ==
      (Written(disk, BitmapBlock(cfg.geo, BitmapIndex(i)), bytes, landed), if ok then Ok else IoWriteAtFailed)
  {
    hide WriteResult, BitmapOffset, Roomy, BitmapIndex, Failure;
    LiveIndex(cfg.geo, i);
    BitmapAddress(cfg.geo, BitmapIndex(i));
    if ok {
      DoneWrite(disk, BitmapOffset(cfg.geo, BitmapIndex(i)), bytes);
    } else {
      FailedWrite(disk, BitmapOffset(cfg.geo, BitmapIndex(i)), bytes, landed);
    }
  }

  lemma AddEnds(cfg: Config, m: Memory, disk: Disk, m1: Memory, task: Task, i: nat, ok: bool, landed: bool,
      came: Header)
    requires Roomy(cfg.geo) && i < |m.bitmap| == cfg.geo.count == |m1.bitmap| && Placed(cfg, m, m1, task, i, came)
    requires HeaderBlock(cfg.geo, i) in disk && m1.bitmap == m.bitmap && CloneDefined(i)
    requires ok ==> landed && BitmapBlock(cfg.geo, BitmapIndex(i)) in BeforeBitmap(cfg, disk, task, i)
    ensures Perform(cfg, m, disk, Add(came, Complete, Ending(ok, landed))) ==
      Effect(if ok then Insert(cfg, m1, i, task.Id()) else m1,
        Written(BeforeBitmap(cfg, disk, task, i), BitmapBlock(cfg.geo, BitmapIndex(i)),
          CloneImage(m.bitmap, i, true), landed),
        task.header, if ok then Ok else IoWriteAtFailed, true)
  {
    hide Admit, Indexed, HeaderEncode, WriteResult, ExtentOffset, BitmapOffset, CloneImage, Roomy, Ending, Insert,
      BitmapIndex, BitmapBlock;
    ExtentAddress(cfg.geo, i);
    DoneWrite(disk, ExtentOffset(cfg.geo, i), HeaderEncode(task.header));
    BitmapEnds(cfg, BeforeBitmap(cfg, disk, task, i), i, CloneImage(m.bitmap, i, true), ok, landed);
  }

  lemma DelRefused(cfg: Config, m: Memory, disk: Disk, header: Header)
    requires header.Valid() && |m.bitmap| <= 0x1_0000_0000
    requires cfg.fixes.stopOnMissing && header.fields.extentId !in m.offsets
    ensures Perform(cfg, m, disk, Del(header, false, Complete)) == Effect(m, disk, header, ExtentNotExists, true)
  {
  }

  lemma DelStops(cfg: Config, m: Memory, disk: Disk, task: Task, ok: bool)
    requires Roomy(cfg.geo) && |m.bitmap| == cfg.geo.count && task.header.Valid() && Permitted(cfg, m, task)
    requires ok ==> HeaderBlock(cfg.geo, task.Index()) in disk
    requires ok ==> Inspect(cfg, disk[HeaderBlock(cfg.geo, task.Index())], task.Id()) != ErrorCode.Ok
    ensures Perform(cfg, m, disk, Del(task.header, ok, Complete)) ==
      Effect(m, disk, task.header,
        if ok then Inspect(cfg, disk[HeaderBlock(cfg.geo, task.Index())], task.Id()) else IoReadAtFailed, true)
  {
    hide ReadResult, WriteResult, ExtentOffset, BitmapOffset, CloneImage, Roomy, Inspect, Remove, BitmapIndex;
    RoomyAligned(cfg.geo, task.Index());
    OneBlockRead(disk, ExtentOffset(cfg.geo, task.Index()), ok);
  }

  lemma DelEnds(cfg: Config, m: Memory, disk: Disk, task: Task, ok: bool, landed: bool)
    requires Roomy(cfg.geo) && |m.bitmap| == cfg.geo.count && task.header.Valid() && Permitted(cfg, m, task)
    requires HeaderBlock(cfg.geo, task.Index()) in disk && Continues(m, task.Index())
    requires Inspect(cfg, disk[HeaderBlock(cfg.geo, task.Index())], task.Id()) == Ok
    requires ok ==> landed && BitmapBlock(cfg.geo, BitmapIndex(task.Index())) in disk
    ensures Perform(cfg, m, disk, Del(task.header, true, Ending(ok, landed))) ==
      Effect(if ok then Remove(cfg, m, task.Index(), task.Id()) else m,
        Written(disk, BitmapBlock(cfg.geo, BitmapIndex(task.Index())),
          CloneImage(m.bitmap, task.Index(), false), landed),
        task.header, if ok then Ok else IoWriteAtFailed, true)
  {
    hide ReadResult, WriteResult, ExtentOffset, BitmapOffset, CloneImage, Roomy, Inspect, Remove, BitmapIndex, Ending,
      BitmapBlock;
    RoomyAligned(cfg.geo, task.Index());
    OneBlockRead(disk, ExtentOffset(cfg.geo, task.Index()), true);
    BitmapEnds(cfg, disk, task.Index(), CloneImage(m.bitmap, task.Index(), false), ok, landed);
  }

  // ---- each suspension, from where the lock was last free ----

  lemma AdmittedSince(cfg: Config, m: Memory, disk: Disk, m1: Memory, task: Task, i: U32)
    requires |m.bitmap| == cfg.geo.count && task.adds && task.header.Valid()
    requires Admit(cfg, m, task.Id()) == (m1, Admitted(i)) && i < |m.bitmap|
    ensures var h := Indexed(task.header, i);
      Since(cfg, m, disk, m1, disk, Suspended(Task(true, h, HeaderWrite(i, HeaderEncode(h), false))), task.header)
  {
    AdmitKeepsBits(cfg, m, task.Id());
    hide Admit, Indexed, HeaderEncode, HeaderBlock;
    IndexedKeeps(task.header, i);
  }

  lemma AdmitKeepsBits(cfg: Config, m: Memory, id: U64)
    ensures Admit(cfg, m, id).0.bitmap == m.bitmap
    ensures Admit(cfg, m, id).1.Admitted? ==> Admit(cfg, m, id).1.index < |m.bitmap|
  {
  }

  lemma LandedSince(cfg: Config, m: Memory, disk: Disk, mem: Memory, d: Disk, task: Task, came: Header)
    requires Since(cfg, m, disk, mem, d, Suspended(task), came) && Writes(task.phase) && !task.phase.landed
    requires BlockOf(cfg, task.phase) in d
    ensures Since(cfg, m, disk, mem, d[BlockOf(cfg, task.phase) := task.phase.bytes],
      Suspended(task.(phase := Landed(task.phase))), came)
  {
    hide Admit, Indexed, HeaderEncode, HeaderBlock, BitmapBlock, BitmapIndex, CloneImage, Inspect;
  }

  lemma ReadSinceGoesOn(cfg: Config, m: Memory, disk: Disk, mem: Memory, d: Disk, task: Task, came: Header)
    requires Since(cfg, m, disk, mem, d, Suspended(task), came) && task.phase.Reading?
    requires HeaderBlock(cfg.geo, task.Index()) in d && Continues(mem, task.Index())
    requires Inspect(cfg, d[HeaderBlock(cfg.geo, task.Index())], task.Id()) == Ok
    ensures Since(cfg, m, disk, mem, d, Suspended(task.(phase := BitmapWriteOf(mem, task.Index(), false))), came)
  {
    hide HeaderBlock, BitmapBlock, BitmapIndex, CloneImage, Inspect;
  }

  lemma HeaderSinceGoesOn(cfg: Config, m: Memory, disk: Disk, mem: Memory, d: Disk, task: Task, came: Header)
    requires Since(cfg, m, disk, mem, d, Suspended(task), came) && task.phase.HeaderWrite? && task.phase.landed
    requires Continues(mem, task.phase.index)
    ensures Since(cfg, m, disk, mem, d, Suspended(task.(phase := BitmapWriteOf(mem, task.phase.index, true))), came)
  {
    AdmitKeepsBits(cfg, m, task.Id());
    hide Admit, Indexed, HeaderEncode, HeaderBlock, BitmapBlock, BitmapIndex, CloneImage;
  }

  /** The call, made with `came`, of a task that ends where it stands; `ok` is the result of its last transfer. */
  function CallOf(task: Task, ok: bool, came: Header): Call {
    match task.phase
    case HeaderWrite(_, _, landed) => Add(came, Failure(landed), Complete)
    case BitmapWrite(_, _, landed) =>
      if task.adds then Add(came, Complete, Ending(ok, landed)) else Del(came, true, Ending(ok, landed))
    case _ => if task.adds then Add(came, Complete, Complete) else Del(came, ok, Complete)
  }

  lemma ReadSinceEnds(cfg: Config, m: Memory, disk: Disk, mem: Memory, d: Disk, task: Task, ok: bool,
      came: Header)
    requires Roomy(cfg.geo) && Since(cfg, m, disk, mem, d, Suspended(task), came) && task.phase.Reading?
    requires ok ==> HeaderBlock(cfg.geo, task.Index()) in d
    requires ok ==> Inspect(cfg, d[HeaderBlock(cfg.geo, task.Index())], task.Id()) != ErrorCode.Ok
    ensures Fits(|m.bitmap|, CallOf(task, ok, came))
    ensures Perform(cfg, m, disk, CallOf(task, ok, came)) == Effect(mem, d, task.header,
      if ok then Inspect(cfg, d[HeaderBlock(cfg.geo, task.Index())], task.Id()) else IoReadAtFailed, true)
  {
    hide Perform, HeaderBlock, Inspect, Roomy;
    DelStops(cfg, m, disk, task, ok);
  }

  lemma HeaderSinceEnds(cfg: Config, m: Memory, disk: Disk, mem: Memory, d: Disk, task: Task, came: Header)
    requires Roomy(cfg.geo) && Since(cfg, m, disk, mem, d, Suspended(task), came) && task.phase.HeaderWrite?
    ensures Fits(|m.bitmap|, CallOf(task, false, came))
    ensures Perform(cfg, m, disk, CallOf(task, false, came)) == Effect(mem, d, task.header, IoWriteAtFailed, true)
  {
    hide Perform, HeaderBlock, Admit, Indexed, HeaderEncode, Roomy, Written, Failure;
    AddLosesHeader(cfg, m, disk, mem, task, task.phase.index, task.phase.landed, came);
  }

  /** What the last step of a call with a bitmap write makes of memory. */
  function MemoryAfter(cfg: Config, mem: Memory, task: Task, ok: bool): Memory
    requires task.phase.BitmapWrite? && task.phase.index < |mem.bitmap|
  {
    if !ok then mem
    else if task.adds then Insert(cfg, mem, task.phase.index, task.Id())
    else Remove(cfg, mem, task.phase.index, task.Id())
  }

  lemma BitmapSinceEnds(cfg: Config, m: Memory, disk: Disk, mem: Memory, d: Disk, task: Task, ok: bool,
      came: Header)
    requires Roomy(cfg.geo) && Since(cfg, m, disk, mem, d, Suspended(task), came) && task.phase.BitmapWrite?
    requires (ok ==> task.phase.landed) && task.phase.index < |mem.bitmap|
    ensures Fits(|m.bitmap|, CallOf(task, ok, came))
    ensures Perform(cfg, m, disk, CallOf(task, ok, came)) ==
      Effect(MemoryAfter(cfg, mem, task, ok), d, task.header, if ok then Ok else IoWriteAtFailed, true)
  {
    AdmitKeepsBits(cfg, m, task.Id());
    hide Perform, HeaderBlock, BitmapBlock, BitmapIndex, CloneImage, Admit, Indexed, HeaderEncode, Roomy, Written,
      Ending, Inspect, Insert, Remove, BeforeBitmap;
    if task.adds {
      AddEnds(cfg, m, disk, mem, task, task.phase.index, ok, task.phase.landed, came);
    } else {
      BeforeDelete(cfg, disk, task, task.phase.index);
      DelEnds(cfg, m, disk, task, ok, task.phase.landed);
    }
  }

  lemma BeforeDelete(cfg: Config, disk: Disk, task: Task, i: nat)
    requires !task.adds
    ensures BeforeBitmap(cfg, disk, task, i) == disk
  {
  }

  // ---- the steps ----

  /** Of the tasks only `t`, which was not done, has changed. */
  ghost predicate Moved(s: State, t: nat, s': State) {
    && t < |s.tasks| == |s'.tasks| && !s.tasks[t].phase.Done? && s'.tasks == s.tasks[t := s'.tasks[t]]
    && !s'.tasks[t].phase.Waiting?
  }

  /** A step of task `t` has ended its call, and its effect is where things stand. */
  ghost predicate Ended(cfg: Config, m: Memory, disk: Disk, s: State, t: nat, s': State, call: Call, came: Header) {
    && Moved(s, t, s') && Orderly(cfg, s') && s'.lock.Free? && Fits(|m.bitmap|, call) && call.header == came
    && var e := Perform(cfg, m, disk, call);
      Since(cfg, e.mem, e.disk, s'.mem, s'.disk, HolderOf(s'), came) && Outcome(s'.tasks[t], call, e)
  }

  /** A step of task `t` leaves its call under way. */
  ghost predicate Continued(cfg: Config, m: Memory, disk: Disk, s: State, t: nat, s': State, came: Header) {
    && Moved(s, t, s') && Orderly(cfg, s') && s'.lock == Held(t) && !s'.tasks[t].phase.Done?
    && Since(cfg, m, disk, s'.mem, s'.disk, HolderOf(s'), came)
  }

  lemma StaysUnderWay(cfg: Config, m: Memory, disk: Disk, s: State, t: nat, s': State, task: Task, came: Header)
    requires Orderly(cfg, s) && t < |s.tasks| && !s.tasks[t].phase.Done? && (s.lock.Free? || s.lock == Held(t))
    requires s'.tasks == s.tasks[t := task] && task.header.Valid()
    requires s'.lock == Held(t) && task.phase.InFlight()
    requires Since(cfg, m, disk, s'.mem, s'.disk, Suspended(task), came)
    ensures Continued(cfg, m, disk, s, t, s', came)
  {
    hide ReadSince, HeaderSince, BitmapSince;
    TaskMoves(s, s', t, task);
  }

  lemma ComesToAnEnd(cfg: Config, m: Memory, disk: Disk, s: State, t: nat, s': State, call: Call, came: Header)
    requires Orderly(cfg, s) && t < |s.tasks| && !s.tasks[t].phase.Done? && (s.lock.Free? || s.lock == Held(t))
    requires s'.lock.Free? && Fits(|m.bitmap|, call) && |m.bitmap| == cfg.geo.count
    requires call.Add? == s.tasks[t].adds && call.header == came
    requires var e := Perform(cfg, m, disk, call);
      && s'.mem == e.mem && s'.disk == e.disk && e.header == s.tasks[t].header && e.defined
      && s'.tasks == s.tasks[t := s.tasks[t].(phase := Done(e.err))]
    ensures Ended(cfg, m, disk, s, t, s', call, came)
  {
    hide Perform;
    TaskMoves(s, s', t, s'.tasks[t]);
  }

  lemma AdmittedSerial(cfg: Config, m: Memory, disk: Disk, s: State, t: nat, s': State, m1: Memory, i: U32,
      came: Header)
    requires Orderly(cfg, s) && Since(cfg, m, disk, s.mem, s.disk, HolderOf(s), came) && s.lock.Free?
    requires t < |s.tasks| && s.tasks[t].phase.Waiting? && s.tasks[t].adds && came.Valid() && s.tasks[t].header == came
    requires Admit(cfg, m, s.tasks[t].Id()) == (m1, Admitted(i))
    requires var h := Indexed(s.tasks[t].header, i);
      && s'.tasks == s.tasks[t := Task(true, h, HeaderWrite(i, HeaderEncode(h), false))]
      && s'.mem == m1 && s'.disk == s.disk && s'.lock == Held(t)
    ensures Continued(cfg, m, disk, s, t, s', came)
  {
    hide Admit, Indexed, HeaderEncode, Since, Continued, Orderly;
    NobodySince(cfg, m, disk, s, came);
    AdmitKeepsBits(cfg, m, s.tasks[t].Id());
    AdmittedSince(cfg, m, disk, m1, s.tasks[t], i);
    StaysUnderWay(cfg, m, disk, s, t, s', s'.tasks[t], came);
  }

  lemma RefusedSerial(cfg: Config, m: Memory, disk: Disk, s: State, t: nat, s': State, came: Header)
    requires Orderly(cfg, s) && Since(cfg, m, disk, s.mem, s.disk, HolderOf(s), came) && s.lock.Free?
    requires t < |s.tasks| && s.tasks[t].phase.Waiting? && s.tasks[t].adds && came.Valid() && s.tasks[t].header == came
    requires var (m1, admission) := Admit(cfg, m, s.tasks[t].Id());
      && admission.Refused? && s'.tasks == s.tasks[t := s.tasks[t].(phase := Done(admission.err))]
      && s'.mem == m1 && s'.disk == s.disk && s'.lock == Free
    ensures Ended(cfg, m, disk, s, t, s', CallOf(s.tasks[t], false, came), came)
  {
    hide Admit, Perform, Since, Ended, Orderly;
    NobodySince(cfg, m, disk, s, came);
    AddRefused(cfg, m, disk, s.tasks[t].header);
    ComesToAnEnd(cfg, m, disk, s, t, s', CallOf(s.tasks[t], false, came), came);
  }

  lemma BeginAddSerial(cfg: Config, m: Memory, disk: Disk, s: State, t: nat, came: Header)
    requires Orderly(cfg, s) && Since(cfg, m, disk, s.mem, s.disk, HolderOf(s), came) && Enabled(cfg, s, Begin(t))
    requires s.tasks[t].adds && s.tasks[t].header == came
    ensures var s' := BeginTask(cfg, s, t);
      Ended(cfg, m, disk, s, t, s', CallOf(s.tasks[t], false, came), came) || Continued(cfg, m, disk, s, t, s', came)
  {
    hide Admit, Indexed, HeaderEncode, Since, Ended, Continued, Orderly, CallOf;
    NobodySince(cfg, m, disk, s, came);
    var (m1, admission) := Admit(cfg, m, s.tasks[t].Id());
    if admission.Admitted? {
      AdmittedSerial(cfg, m, disk, s, t, BeginTask(cfg, s, t), m1, admission.index, came);
    } else {
      RefusedSerial(cfg, m, disk, s, t, BeginTask(cfg, s, t), came);
    }
  }

  lemma UnknownSerial(cfg: Config, m: Memory, disk: Disk, s: State, t: nat, s': State, came: Header)
    requires Orderly(cfg, s) && Since(cfg, m, disk, s.mem, s.disk, HolderOf(s), came) && s.lock.Free?
    requires t < |s.tasks| && s.tasks[t].phase.Waiting? && !s.tasks[t].adds && came.Valid() && s.tasks[t].header == came
    requires cfg.fixes.stopOnMissing && s.tasks[t].Id() !in m.offsets && |m.bitmap| <= 0x1_0000_0000
    requires s'.mem == m && s'.disk == disk && s'.lock == Free
    requires s'.tasks == s.tasks[t := s.tasks[t].(phase := Done(ExtentNotExists))]
    ensures Ended(cfg, m, disk, s, t, s', CallOf(s.tasks[t], false, came), came)
  {
    hide Perform, Since, Ended, Orderly, HolderOf;
    NobodySince(cfg, m, disk, s, came);
    DelRefused(cfg, m, disk, came);
    ComesToAnEnd(cfg, m, disk, s, t, s', CallOf(s.tasks[t], false, came), came);
  }

  lemma ReadingSerial(cfg: Config, m: Memory, disk: Disk, s: State, t: nat, s': State, came: Header)
    requires Orderly(cfg, s) && Since(cfg, m, disk, s.mem, s.disk, HolderOf(s), came) && s.lock.Free?
    requires t < |s.tasks| && s.tasks[t].phase.Waiting? && !s.tasks[t].adds && came.Valid() && s.tasks[t].header == came
    requires Permitted(cfg, m, s.tasks[t]) && s'.mem == m && s'.disk == disk && s'.lock == Held(t)
    requires s'.tasks == s.tasks[t := s.tasks[t].(phase := Reading)]
    ensures Continued(cfg, m, disk, s, t, s', came)
  {
    hide Since, Continued, Orderly, HolderOf, Permitted;
    NobodySince(cfg, m, disk, s, came);
    StartsReading(cfg, m, disk, s.tasks[t]);
    StaysUnderWay(cfg, m, disk, s, t, s', s'.tasks[t], came);
  }

  lemma BeginDelSerial(cfg: Config, m: Memory, disk: Disk, s: State, t: nat, came: Header)
    requires Orderly(cfg, s) && Since(cfg, m, disk, s.mem, s.disk, HolderOf(s), came) && Enabled(cfg, s, Begin(t))
    requires !s.tasks[t].adds && s.tasks[t].header == came
    ensures var s' := BeginTask(cfg, s, t);
      Ended(cfg, m, disk, s, t, s', CallOf(s.tasks[t], false, came), came) || Continued(cfg, m, disk, s, t, s', came)
  {
    hide Admit, Since, Ended, Continued, Orderly, HolderOf, CallOf;
    NobodySince(cfg, m, disk, s, came);
    if cfg.fixes.stopOnMissing && s.tasks[t].Id() !in m.offsets {
      UnknownSerial(cfg, m, disk, s, t, BeginTask(cfg, s, t), came);
    } else {
      ReadingSerial(cfg, m, disk, s, t, BeginTask(cfg, s, t), came);
    }
  }

  lemma NobodySince(cfg: Config, m: Memory, disk: Disk, s: State, came: Header)
    requires Since(cfg, m, disk, s.mem, s.disk, HolderOf(s), came) && s.lock.Free?
    ensures s.mem == m && s.disk == disk && |m.bitmap| == cfg.geo.count
  {
  }

  lemma StartsReading(cfg: Config, m: Memory, disk: Disk, task: Task)
    requires |m.bitmap| == cfg.geo.count && !task.adds && task.header.Valid() && Permitted(cfg, m, task)
    ensures Since(cfg, m, disk, m, disk, Suspended(task.(phase := Reading)), task.header)
  {
  }

  lemma HoldsLock(cfg: Config, s: State, t: nat)
    requires Orderly(cfg, s) && t < |s.tasks| && s.tasks[t].phase.InFlight()
    ensures s.lock == Held(t) && HolderOf(s) == Suspended(s.tasks[t])
    ensures s.tasks[t].header.Valid()
  {
  }

  lemma SinceSize(cfg: Config, m: Memory, disk: Disk, mem: Memory, d: Disk, h: Holder, came: Header)
    requires Since(cfg, m, disk, mem, d, h, came)
    ensures |m.bitmap| == |mem.bitmap| == cfg.geo.count
    ensures h.Suspended? && h.task.phase.Reading? ==> !h.task.adds
    ensures h.Suspended? && h.task.phase.HeaderWrite? ==> h.task.adds
  {
  }

  lemma LandSerial(cfg: Config, m: Memory, disk: Disk, s: State, t: nat, came: Header)
    requires Orderly(cfg, s) && Since(cfg, m, disk, s.mem, s.disk, HolderOf(s), came) && Enabled(cfg, s, Land(t))
    ensures Continued(cfg, m, disk, s, t, LandTask(cfg, s, t), came)
  {
    var task, s' := s.tasks[t], LandTask(cfg, s, t);
    hide Since, Continued, HeaderBlock, BitmapBlock, BitmapIndex, Orderly;
    HoldsLock(cfg, s, t);
    LandedSince(cfg, m, disk, s.mem, s.disk, task, came);
    StaysUnderWay(cfg, m, disk, s, t, s', task.(phase := Landed(task.phase)), came);
  }

  lemma FinishReadSerial(cfg: Config, m: Memory, disk: Disk, s: State, t: nat, ok: bool, came: Header)
    requires Roomy(cfg.geo) && Orderly(cfg, s) && Since(cfg, m, disk, s.mem, s.disk, HolderOf(s), came)
    requires Enabled(cfg, s, Finish(t, ok)) && s.tasks[t].phase.Reading?
    ensures var s' := FinishTask(cfg, s, t, ok);
      Ended(cfg, m, disk, s, t, s', CallOf(s.tasks[t], ok, came), came) || Continued(cfg, m, disk, s, t, s', came)
  {
    var task, s' := s.tasks[t], FinishTask(cfg, s, t, ok);
    hide Since, Ended, Continued, HeaderBlock, Inspect, Perform, Roomy, BitmapWriteOf, Orderly;
    HoldsLock(cfg, s, t);
    SinceSize(cfg, m, disk, s.mem, s.disk, HolderOf(s), came);
    if ok && Inspect(cfg, s.disk[HeaderBlock(cfg.geo, task.Index())], task.Id()) == ErrorCode.Ok {
      ReadSinceGoesOn(cfg, m, disk, s.mem, s.disk, task, came);
      StaysUnderWay(cfg, m, disk, s, t, s', task.(phase := BitmapWriteOf(s.mem, task.Index(), false)), came);
    } else {
      ReadSinceEnds(cfg, m, disk, s.mem, s.disk, task, ok, came);
      ComesToAnEnd(cfg, m, disk, s, t, s', CallOf(task, ok, came), came);
    }
  }

  lemma HeaderGoesOn(cfg: Config, m: Memory, disk: Disk, s: State, t: nat, came: Header)
    requires Orderly(cfg, s) && Since(cfg, m, disk, s.mem, s.disk, HolderOf(s), came) && t < |s.tasks|
    requires s.tasks[t].phase.HeaderWrite? && s.tasks[t].phase.landed && Continues(s.mem, s.tasks[t].phase.index)
    ensures Continued(cfg, m, disk, s, t, SetPhase(s, t, BitmapWriteOf(s.mem, s.tasks[t].phase.index, true)), came)
  {
    var task, phase := s.tasks[t], BitmapWriteOf(s.mem, s.tasks[t].phase.index, true);
    hide Since, Continued, BitmapWriteOf, Orderly;
    HoldsLock(cfg, s, t);
    HeaderSinceGoesOn(cfg, m, disk, s.mem, s.disk, task, came);
    StaysUnderWay(cfg, m, disk, s, t, SetPhase(s, t, phase), task.(phase := phase), came);
  }

  lemma HeaderIsLost(cfg: Config, m: Memory, disk: Disk, s: State, t: nat, came: Header)
    requires Roomy(cfg.geo) && Orderly(cfg, s) && Since(cfg, m, disk, s.mem, s.disk, HolderOf(s), came)
    requires t < |s.tasks| && s.tasks[t].phase.HeaderWrite?
    ensures Ended(cfg, m, disk, s, t, Leave(s, t, IoWriteAtFailed), CallOf(s.tasks[t], false, came), came)
  {
    var task := s.tasks[t];
    hide Since, Ended, Perform, Roomy, Orderly, Fits, CallOf, HolderOf;
    HoldsLock(cfg, s, t);
    SinceSize(cfg, m, disk, s.mem, s.disk, HolderOf(s), came);
    CallIsTasks(task, false, came);
    HeaderSinceEnds(cfg, m, disk, s.mem, s.disk, task, came);
    ComesToAnEnd(cfg, m, disk, s, t, Leave(s, t, IoWriteAtFailed), CallOf(task, false, came), came);
  }

  lemma FinishHeaderSerial(cfg: Config, m: Memory, disk: Disk, s: State, t: nat, ok: bool, came: Header)
    requires Roomy(cfg.geo) && Orderly(cfg, s) && Since(cfg, m, disk, s.mem, s.disk, HolderOf(s), came)
    requires Enabled(cfg, s, Finish(t, ok)) && s.tasks[t].phase.HeaderWrite?
    ensures var s' := FinishTask(cfg, s, t, ok);
      Ended(cfg, m, disk, s, t, s', CallOf(s.tasks[t], ok, came), came) || Continued(cfg, m, disk, s, t, s', came)
  {
    hide Since, Ended, Continued, Roomy, BitmapWriteOf, Orderly, Leave, SetPhase, CallOf;
    if ok {
      HeaderGoesOn(cfg, m, disk, s, t, came);
    } else {
      HeaderIsLost(cfg, m, disk, s, t, came);
    }
  }

  lemma BitmapIsOver(cfg: Config, m: Memory, disk: Disk, s: State, t: nat, ok: bool, s': State, err: ErrorCode,
      came: Header)
    requires Roomy(cfg.geo) && Orderly(cfg, s) && Since(cfg, m, disk, s.mem, s.disk, HolderOf(s), came)
    requires t < |s.tasks| && s.tasks[t].phase.BitmapWrite? && s.tasks[t].phase.index < |s.mem.bitmap|
    requires (ok ==> s.tasks[t].phase.landed) && err == if ok then Ok else IoWriteAtFailed
    requires s'.mem == MemoryAfter(cfg, s.mem, s.tasks[t], ok) && s'.disk == s.disk && s'.lock.Free?
    requires s'.tasks == s.tasks[t := s.tasks[t].(phase := Done(err))]
    ensures Ended(cfg, m, disk, s, t, s', CallOf(s.tasks[t], ok, came), came)
  {
    var task, call := s.tasks[t], CallOf(s.tasks[t], ok, came);
    CallIsTasks(task, ok, came);
    hide Since, Ended, MemoryAfter, Perform, Roomy, Orderly, Fits, CallOf;
    HoldsLock(cfg, s, t);
    SinceSize(cfg, m, disk, s.mem, s.disk, HolderOf(s), came);
    BitmapSinceEnds(cfg, m, disk, s.mem, s.disk, task, ok, came);
    ComesToAnEnd(cfg, m, disk, s, t, s', call, came);
  }

  lemma CallIsTasks(task: Task, ok: bool, came: Header)
    requires task.phase.HeaderWrite? ==> task.adds
    ensures CallOf(task, ok, came).Add? == task.adds && CallOf(task, ok, came).header == came
  {
  }

  lemma FinishBitmapSerial(cfg: Config, m: Memory, disk: Disk, s: State, t: nat, ok: bool, came: Header)
    requires Roomy(cfg.geo) && Orderly(cfg, s) && Since(cfg, m, disk, s.mem, s.disk, HolderOf(s), came)
    requires Enabled(cfg, s, Finish(t, ok)) && s.tasks[t].phase.BitmapWrite?
    ensures Ended(cfg, m, disk, s, t, FinishTask(cfg, s, t, ok), CallOf(s.tasks[t], ok, came), came)
  {
    hide Since, Ended, Insert, Remove, Elsewhere, Roomy, Orderly, CallOf, Inspect, BitmapWriteOf, HeaderBlock;
    BitmapIsOver(cfg, m, disk, s, t, ok, FinishTask(cfg, s, t, ok), if ok then Ok else IoWriteAtFailed, came);
  }

  // ---- whole runs ----

  /** The headers with which the calls of a run arrive, in the order of their tasks. */
  function Arrivals(steps: seq<Step>): seq<Header> {
    if steps == [] then [] else ArrivedBy(steps[0]) + Arrivals(steps[1..])
  }

  function ArrivedBy(step: Step): seq<Header> {
    if step.Spawn? then [step.task.header] else []
  }

  /** The task that a step ends. */
  function EndedBy(step: Step, s': State): seq<nat> {
    if !step.Spawn? && step.t < |s'.tasks| && s'.tasks[step.t].phase.Done? then [step.t] else []
  }

  /** The tasks of a run in the order in which they end. */
  function EndOrder(cfg: Config, s: State, steps: seq<Step>): seq<nat>
    requires IsRun(cfg, s, steps)
    decreases |steps|
  {
    if steps == [] then []
    else
      var s' := Next(cfg, s, steps[0]);
      EndedBy(steps[0], s') + EndOrder(cfg, s', steps[1..])
  }

  /** The tasks that wait have the headers they came with. */
  ghost predicate Came(came: seq<Header>, tasks: seq<Task>) {
    |came| == |tasks| && forall t | 0 <= t < |tasks| && tasks[t].phase.Waiting? :: tasks[t].header == came[t]
  }

  /**
   `order[k]` is the task whose call ended as number `k`: each was called with the header it came with and got
   what its call gives when the calls are made in order.
   */
  ghost predicate Told(cfg: Config, m0: Memory, d0: Disk, calls: seq<Call>, order: seq<nat>, came: seq<Header>,
      tasks: seq<Task>)
  {
    && |order| == |calls| && |came| == |tasks|
    && (forall k | 0 <= k < |calls| :: Fits(|m0.bitmap|, calls[k]))
    && var effects := Effects(cfg, m0, d0, calls);
    && (forall k | 0 <= k < |order| ::
          order[k] < |tasks| && Outcome(tasks[order[k]], calls[k], effects[k]) && calls[k].header == came[order[k]])
    && (forall t | 0 <= t < |tasks| && tasks[t].phase.Done? :: t in order)
    && (forall j, k | 0 <= j < k < |order| :: order[j] != order[k])
  }

  /** The header that the holder of the lock came with. */
  function HolderCame(came: seq<Header>, lock: Lock): Header {
    if lock.Held? && lock.task < |came| then came[lock.task] else BlankHeader()
  }

  /** The ended calls, made one after the other, lead to where the lock was last free. */
  ghost predicate History(cfg: Config, m0: Memory, d0: Disk, calls: seq<Call>, order: seq<nat>, came: seq<Header>,
      s: State)
  {
    && Orderly(cfg, s) && Came(came, s.tasks) && Told(cfg, m0, d0, calls, order, came, s.tasks)
    && var (m, d) := Left(m0, d0, Effects(cfg, m0, d0, calls));
      Since(cfg, m, d, s.mem, s.disk, HolderOf(s), HolderCame(came, s.lock))
  }

  lemma EffectsGrow(cfg: Config, m0: Memory, d0: Disk, calls: seq<Call>, call: Call)
    requires forall k | 0 <= k < |calls| :: Fits(|m0.bitmap|, calls[k])
    requires Fits(|m0.bitmap|, call)
    ensures forall k | 0 <= k < |calls + [call]| :: Fits(|m0.bitmap|, (calls + [call])[k])
    ensures var (m, d) := Left(m0, d0, Effects(cfg, m0, d0, calls));
      && |m.bitmap| == |m0.bitmap|
      && Effects(cfg, m0, d0, calls + [call]) == Effects(cfg, m0, d0, calls) + [Perform(cfg, m, d, call)]
  {
    hide Perform, Fits;
    var all := calls + [call];
    assert all[..|all| - 1] == calls;
  }

  lemma ToldMore(cfg: Config, m0: Memory, d0: Disk, calls: seq<Call>, order: seq<nat>, came: seq<Header>, s: State,
      t: nat, s': State, call: Call)
    requires Told(cfg, m0, d0, calls, order, came, s.tasks) && Moved(s, t, s') && Fits(|m0.bitmap|, call)
    requires t < |came| && call.header == came[t]
    requires var (m, d) := Left(m0, d0, Effects(cfg, m0, d0, calls));
      |m.bitmap| == |m0.bitmap| && Outcome(s'.tasks[t], call, Perform(cfg, m, d, call))
    ensures Told(cfg, m0, d0, calls + [call], order + [t], came, s'.tasks)
  {
    hide Perform, Fits, Effects, Left;
    EffectsGrow(cfg, m0, d0, calls, call);
    var effects, effects' := Effects(cfg, m0, d0, calls), Effects(cfg, m0, d0, calls + [call]);
    var order', calls' := order + [t], calls + [call];
    forall k | 0 <= k < |order'|
      ensures order'[k] < |s'.tasks| && Outcome(s'.tasks[order'[k]], calls'[k], effects'[k])
      ensures calls'[k].header == came[order'[k]]
      ensures k < |order| ==> order'[k] != t
    {
      if k < |order| {
        assert Outcome(s.tasks[order[k]], calls[k], effects[k]);
      }
    }
    forall u | 0 <= u < |s'.tasks| && s'.tasks[u].phase.Done? ensures u in order' {
      assert order'[|order|] == t;
      if u != t {
        assert u in order;
      }
    }
  }

  lemma ToldSame(cfg: Config, m0: Memory, d0: Disk, calls: seq<Call>, order: seq<nat>, came: seq<Header>, s: State,
      t: nat, s': State)
    requires Told(cfg, m0, d0, calls, order, came, s.tasks) && Moved(s, t, s') && !s'.tasks[t].phase.Done?
    ensures Told(cfg, m0, d0, calls, order, came, s'.tasks)
  {
    hide Fits, Effects;
    var effects := Effects(cfg, m0, d0, calls);
    forall k | 0 <= k < |order| ensures order[k] < |s'.tasks| && Outcome(s'.tasks[order[k]], calls[k], effects[k]) {
      assert Outcome(s.tasks[order[k]], calls[k], effects[k]);
    }
  }

  lemma ToldSpawned(cfg: Config, m0: Memory, d0: Disk, calls: seq<Call>, order: seq<nat>, came: seq<Header>,
      tasks: seq<Task>, task: Task)
    requires Told(cfg, m0, d0, calls, order, came, tasks) && task.phase.Waiting?
    ensures Told(cfg, m0, d0, calls, order, came + [task.header], tasks + [task])
  {
    hide Fits, Effects;
    var effects := Effects(cfg, m0, d0, calls);
    forall k | 0 <= k < |order|
      ensures order[k] < |tasks + [task]| && Outcome((tasks + [task])[order[k]], calls[k], effects[k])
      ensures calls[k].header == (came + [task.header])[order[k]]
    {
      assert Outcome(tasks[order[k]], calls[k], effects[k]);
    }
  }

  lemma CameMoves(came: seq<Header>, s: State, t: nat, s': State)
    requires Came(came, s.tasks) && Moved(s, t, s')
    ensures Came(came, s'.tasks) && t < |came|
  {
  }

  /** With the lock free it does not matter what its last holder came with. */
  lemma SinceNobody(cfg: Config, m: Memory, disk: Disk, s: State, came: Header, other: Header)
    requires Since(cfg, m, disk, s.mem, s.disk, HolderOf(s), came) && s.lock.Free?
    ensures Since(cfg, m, disk, s.mem, s.disk, HolderOf(s), other)
  {
    hide ReadSince, HeaderSince, BitmapSince;
  }

  lemma OneMoreEnded(cfg: Config, m0: Memory, d0: Disk, calls: seq<Call>, order: seq<nat>, came: seq<Header>, s: State,
      t: nat, s': State, call: Call)
    requires History(cfg, m0, d0, calls, order, came, s) && t < |came|
    requires var (m, d) := Left(m0, d0, Effects(cfg, m0, d0, calls)); Ended(cfg, m, d, s, t, s', call, came[t])
    ensures History(cfg, m0, d0, calls + [call], order + [t], came, s')
  {
    hide Perform, Fits, Effects, Orderly, Since, Told, Moved, Outcome, Came, HolderCame;
    LeftSize(cfg, m0, d0, calls, order, came, s.tasks);
    CameMoves(came, s, t, s');
    ToldMore(cfg, m0, d0, calls, order, came, s, t, s', call);
    EffectsGrow(cfg, m0, d0, calls, call);
    var (m, d) := Left(m0, d0, Effects(cfg, m0, d0, calls));
    var e := Perform(cfg, m, d, call);
    SinceNobody(cfg, e.mem, e.disk, s', came[t], HolderCame(came, s'.lock));
  }

  lemma LeftSize(cfg: Config, m0: Memory, d0: Disk, calls: seq<Call>, order: seq<nat>, came: seq<Header>,
      tasks: seq<Task>)
    requires Told(cfg, m0, d0, calls, order, came, tasks)
    ensures forall k | 0 <= k < |calls| :: Fits(|m0.bitmap|, calls[k])
    ensures |Left(m0, d0, Effects(cfg, m0, d0, calls)).0.bitmap| == |m0.bitmap|
  {
    hide Fits;
  }

  /** Where the ended calls have left memory and device. */
  ghost predicate LeavesAt(cfg: Config, m0: Memory, d0: Disk, calls: seq<Call>, m: Memory, disk: Disk) {
    && (forall k | 0 <= k < |calls| :: Fits(|m0.bitmap|, calls[k]))
    && (m, disk) == Left(m0, d0, Effects(cfg, m0, d0, calls))
  }

  lemma HistoryParts(cfg: Config, m0: Memory, d0: Disk, calls: seq<Call>, order: seq<nat>, came: seq<Header>, s: State)
    returns (m: Memory, d: Disk)
    requires History(cfg, m0, d0, calls, order, came, s)
    ensures Orderly(cfg, s) && Came(came, s.tasks) && |came| == |s.tasks| && LeavesAt(cfg, m0, d0, calls, m, d)
    ensures Since(cfg, m, d, s.mem, s.disk, HolderOf(s), HolderCame(came, s.lock))
  {
    hide Left, Effects, Fits, Orderly, Since, HolderCame, Came, Outcome;
    var left := Left(m0, d0, Effects(cfg, m0, d0, calls));
    m, d := left.0, left.1;
  }

  /** One step of a task ends its call or goes on with it. */
  lemma StepEnds(cfg: Config, m: Memory, disk: Disk, s: State, step: Step, came: seq<Header>)
    requires Roomy(cfg.geo) && Orderly(cfg, s) && Came(came, s.tasks) && Enabled(cfg, s, step) && StepsAlone(s, step)
    requires Since(cfg, m, disk, s.mem, s.disk, HolderOf(s), HolderCame(came, s.lock))
    ensures var s', call := Next(cfg, s, step), CallOf(s.tasks[step.t], step.Finish? && step.ok, came[step.t]);
      || Ended(cfg, m, disk, s, step.t, s', call, came[step.t])
      || Continued(cfg, m, disk, s, step.t, s', came[step.t])
  {
    hide Roomy, Enabled, Next, Ended, Continued, Orderly, Since, HolderCame, CallOf;
    CameHolder(cfg, m, disk, s, step, came);
    TaskSerial(cfg, m, disk, s, step, CallOf(s.tasks[step.t], step.Finish? && step.ok, came[step.t]), came[step.t]);
  }

  lemma CallEnds(cfg: Config, m0: Memory, d0: Disk, calls: seq<Call>, order: seq<nat>, came: seq<Header>, s: State,
      step: Step, s': State, m: Memory, disk: Disk, call: Call)
    requires History(cfg, m0, d0, calls, order, came, s) && LeavesAt(cfg, m0, d0, calls, m, disk)
    requires !step.Spawn? && step.t < |came| && Ended(cfg, m, disk, s, step.t, s', call, came[step.t])
    ensures History(cfg, m0, d0, calls + [call], order + EndedBy(step, s'), came, s')
  {
    hide History, Left, Effects, Fits, Ended, EndedBy;
    OneMoreEnded(cfg, m0, d0, calls, order, came, s, step.t, s', call);
    EndedIsDone(cfg, m, disk, s, step, s', call, came[step.t]);
  }

  lemma CallGoesOn(cfg: Config, m0: Memory, d0: Disk, calls: seq<Call>, order: seq<nat>, came: seq<Header>, s: State,
      step: Step, s': State, m: Memory, disk: Disk)
    requires History(cfg, m0, d0, calls, order, came, s) && LeavesAt(cfg, m0, d0, calls, m, disk)
    requires !step.Spawn? && step.t < |came| && Continued(cfg, m, disk, s, step.t, s', came[step.t])
    ensures History(cfg, m0, d0, calls, order + EndedBy(step, s'), came, s')
  {
    hide History, Left, Effects, Fits, Continued, EndedBy;
    SameEnded(cfg, m0, d0, calls, order, came, s, step.t, s');
    ContinuedIsNot(cfg, m, disk, s, step, s', came[step.t]);
    assert order + [] == order;
  }

  /** Either one more call has ended, or the ended calls stay the same. */
  lemma HistoryTask(cfg: Config, m0: Memory, d0: Disk, calls: seq<Call>, order: seq<nat>, came: seq<Header>, s: State,
      step: Step)
    returns (calls': seq<Call>)
    requires Roomy(cfg.geo) && History(cfg, m0, d0, calls, order, came, s) && Enabled(cfg, s, step) && !step.Spawn?
    ensures var s' := Next(cfg, s, step); History(cfg, m0, d0, calls', order + EndedBy(step, s'), came, s')
  {
    var s' := Next(cfg, s, step);
    hide Roomy, Enabled, History, LeavesAt, Next, Ended, Continued, Orderly, Since, HolderCame, EndedBy, CallOf, Came,
      StepsAlone, HolderOf;
    var m, d := HistoryParts(cfg, m0, d0, calls, order, came, s);
    TaskSteps(cfg, s, step);
    StepEnds(cfg, m, d, s, step, came);
    var call := CallOf(s.tasks[step.t], step.Finish? && step.ok, came[step.t]);
    if Ended(cfg, m, d, s, step.t, s', call, came[step.t]) {
      CallEnds(cfg, m0, d0, calls, order, came, s, step, s', m, d, call);
      calls' := calls + [call];
    } else {
      CallGoesOn(cfg, m0, d0, calls, order, came, s, step, s', m, d);
      calls' := calls;
    }
  }

  lemma EndedIsDone(cfg: Config, m: Memory, disk: Disk, s: State, step: Step, s': State, call: Call, came: Header)
    requires !step.Spawn? && Ended(cfg, m, disk, s, step.t, s', call, came)
    ensures EndedBy(step, s') == [step.t]
  {
    hide Perform, Since, Orderly;
  }

  lemma ContinuedIsNot(cfg: Config, m: Memory, disk: Disk, s: State, step: Step, s': State, came: Header)
    requires !step.Spawn? && Continued(cfg, m, disk, s, step.t, s', came)
    ensures EndedBy(step, s') == []
  {
    hide Since, Orderly;
  }

  /** A step is one of the holder of the lock, or begins a task that waits. */
  lemma CameHolder(cfg: Config, m: Memory, d: Disk, s: State, step: Step, came: seq<Header>)
    requires Orderly(cfg, s) && Came(came, s.tasks) && StepsAlone(s, step)
    requires Since(cfg, m, d, s.mem, s.disk, HolderOf(s), HolderCame(came, s.lock))
    ensures step.t < |came| && Since(cfg, m, d, s.mem, s.disk, HolderOf(s), came[step.t])
    ensures step.Begin? ==> s.tasks[step.t].header == came[step.t]
  {
    hide ReadSince, HeaderSince, BitmapSince;
  }

  /** The step is a task's own, with the lock free for its begin and otherwise its own. */
  predicate StepsAlone(s: State, step: Step) {
    && !step.Spawn? && step.t < |s.tasks|
    && if step.Begin? then s.tasks[step.t].phase.Waiting? && s.lock.Free? else s.tasks[step.t].phase.InFlight()
  }

  lemma TaskSteps(cfg: Config, s: State, step: Step)
    requires Enabled(cfg, s, step) && !step.Spawn?
    ensures step.t < |s.tasks| && StepsAlone(s, step)
  {
    hide Continues, HeaderBlock, BitmapBlock, BitmapIndex, Inspect;
  }

  lemma TaskSerial(cfg: Config, m: Memory, disk: Disk, s: State, step: Step, call: Call, came: Header)
    requires Roomy(cfg.geo) && Orderly(cfg, s) && Since(cfg, m, disk, s.mem, s.disk, HolderOf(s), came)
    requires Enabled(cfg, s, step) && StepsAlone(s, step) && (step.Begin? ==> s.tasks[step.t].header == came)
    requires call == CallOf(s.tasks[step.t], step.Finish? && step.ok, came)
    ensures var s' := Next(cfg, s, step);
      Ended(cfg, m, disk, s, step.t, s', call, came) || Continued(cfg, m, disk, s, step.t, s', came)
  {
    hide Roomy, Orderly, Since, BeginTask, LandTask, FinishTask, Ended, Continued, CallOf, Admit, HeaderBlock,
      BitmapBlock;
    match step
    case Begin(t) =>
      if s.tasks[t].adds {
        BeginAddSerial(cfg, m, disk, s, t, came);
      } else {
        BeginDelSerial(cfg, m, disk, s, t, came);
      }
    case Land(t) => LandSerial(cfg, m, disk, s, t, came);
    case Finish(t, ok) =>
      if s.tasks[t].phase.Reading? {
        FinishReadSerial(cfg, m, disk, s, t, ok, came);
      } else if s.tasks[t].phase.HeaderWrite? {
        FinishHeaderSerial(cfg, m, disk, s, t, ok, came);
      } else {
        FinishBitmapSerial(cfg, m, disk, s, t, ok, came);
      }
  }

  lemma SameEnded(cfg: Config, m0: Memory, d0: Disk, calls: seq<Call>, order: seq<nat>, came: seq<Header>, s: State,
      t: nat, s': State)
    requires History(cfg, m0, d0, calls, order, came, s) && t < |came|
    requires var (m, d) := Left(m0, d0, Effects(cfg, m0, d0, calls)); Continued(cfg, m, d, s, t, s', came[t])
    ensures History(cfg, m0, d0, calls, order, came, s')
  {
    hide Fits, Effects, Orderly, Since, Told, Left, Came, Moved;
    CameMoves(came, s, t, s');
    ToldSame(cfg, m0, d0, calls, order, came, s, t, s');
    LeftSize(cfg, m0, d0, calls, order, came, s.tasks);
  }

  lemma SpawnHistory(cfg: Config, m0: Memory, d0: Disk, calls: seq<Call>, order: seq<nat>, came: seq<Header>, s: State,
      task: Task)
    requires History(cfg, m0, d0, calls, order, came, s) && Enabled(cfg, s, Spawn(task))
    ensures History(cfg, m0, d0, calls, order, came + [task.header], Next(cfg, s, Spawn(task)))
  {
    hide Fits, Effects, Since, Told, Left;
    ToldSpawned(cfg, m0, d0, calls, order, came, s.tasks, task);
    LeftSize(cfg, m0, d0, calls, order, came, s.tasks);
  }

  lemma HistoryStep(cfg: Config, m0: Memory, d0: Disk, calls: seq<Call>, order: seq<nat>, came: seq<Header>, s: State,
      step: Step)
    returns (calls': seq<Call>)
    requires Roomy(cfg.geo) && History(cfg, m0, d0, calls, order, came, s) && Enabled(cfg, s, step)
    ensures var s' := Next(cfg, s, step);
      History(cfg, m0, d0, calls', order + EndedBy(step, s'), came + ArrivedBy(step), s')
  {
    hide Roomy, History, Enabled, Next;
    if step.Spawn? {
      SpawnHistory(cfg, m0, d0, calls, order, came, s, step.task);
      assert order + [] == order;
      calls' := calls;
    } else {
      calls' := HistoryTask(cfg, m0, d0, calls, order, came, s, step);
      assert came + [] == came;
    }
  }

  lemma Associates<T>(a: seq<T>, b: seq<T>, c: seq<T>)
    ensures (a + b) + c == a + (b + c)
  {
  }

  lemma {:induction false} HistoryRun(cfg: Config, m0: Memory, d0: Disk, calls: seq<Call>, order: seq<nat>,
      came: seq<Header>, s: State, steps: seq<Step>)
    returns (calls': seq<Call>)
    requires Roomy(cfg.geo) && History(cfg, m0, d0, calls, order, came, s) && IsRun(cfg, s, steps)
    ensures History(cfg, m0, d0, calls', order + EndOrder(cfg, s, steps), came + Arrivals(steps), After(cfg, s, steps))
    decreases |steps|
  {
    hide Roomy, History, Enabled, Careful, Next, EndedBy, ArrivedBy;
    if steps == [] {
      assert order + [] == order && came + [] == came;
      calls' := calls;
    } else {
      var s' := Next(cfg, s, steps[0]);
      var ended, arrived := EndedBy(steps[0], s'), ArrivedBy(steps[0]);
      var calls1 := HistoryStep(cfg, m0, d0, calls, order, came, s, steps[0]);
      calls' := HistoryRun(cfg, m0, d0, calls1, order + ended, came + arrived, s', steps[1..]);
      Associates(order, ended, EndOrder(cfg, s', steps[1..]));
      Associates(came, arrived, Arrivals(steps[1..]));
    }
  }

  /**
   Any run of any tasks is a sequence of whole calls, one for each task that has ended, in the order in which
   they ended and each made with the header its task came with: every task has got the result and the header
   its call gives in that sequence, every call is defined where it is made, and whenever the lock is free
   memory and device are exactly what the sequence leaves.
   */
  lemma RunsAreSerial(cfg: Config, disk: Disk, steps: seq<Step>) returns (calls: seq<Call>)
    requires Roomy(cfg.geo) && IsRun(cfg, Initial(cfg, disk), steps)
    ensures var s0, m0 := Initial(cfg, disk), FreshMemory(cfg.geo.count);
      var s := After(cfg, s0, steps);
      && Told(cfg, m0, disk, calls, EndOrder(cfg, s0, steps), Arrivals(steps), s.tasks)
      && (s.lock.Free? ==> (s.mem, s.disk) == Left(m0, disk, Effects(cfg, m0, disk, calls)))
  {
    var s0, m0 := Initial(cfg, disk), FreshMemory(cfg.geo.count);
    var order, came := EndOrder(cfg, s0, steps), Arrivals(steps);
    hide Roomy, IsRun, After, Perform, EndOrder, Arrivals;
    assert Effects(cfg, m0, disk, []) == [];
    assert Since(cfg, m0, disk, s0.mem, s0.disk, HolderOf(s0), HolderCame([], s0.lock));
    assert History(cfg, m0, disk, [], [], [], s0);
    calls := HistoryRun(cfg, m0, disk, [], [], [], s0, steps);
    assert [] + order == order && [] + came == came;
    var s := After(cfg, s0, steps);
    if s.lock.Free? {
      var (m, d) := Left(m0, disk, Effects(cfg, m0, disk, calls));
      NobodySince(cfg, m, d, s, HolderCame(came, s.lock));
    }
  }
}
