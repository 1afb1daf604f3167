/** What becomes of the device when an id whose add has failed is tried again. */
module ExtentRetries {
  import opened Bytes
  import opened ErrorCodes
  import opened PayloadBlocks
  import opened ExtentHeaders
  import opened Devices
  import opened ExtentGeometry
  import opened BitmapImages
  import opened NextFit
  import opened ExtentProtocol
  import opened ExtentCalls
  import opened ExtentViews
  import opened ExtentInvariant
  import opened ExtentSteps
  import opened ExtentSafety
  import opened ExtentOwners
  import opened ExtentAccounting
  import opened ExtentExamples
  import opened ExtentExactness

  /** What the device shows after an add of `id` to slot `i`: a stray mark of that id elsewhere is one too many. */
  lemma RetryInView(cfg: Config, m: Memory, v: View, i: nat, id: U64, v': View)
    requires Roomy(cfg.geo) && |m.bitmap| == |v.bits| == |v.good| == |v.owner| == cfg.geo.count
    requires Owned(cfg.geo, m.bitmap, v, m.offsets) && StraysApart(m, v)
    requires i < cfg.geo.count && !m.bitmap[i] && id !in m.offsets
    requires v'.bits == Merge(v.bits, m.bitmap[i := true], BitmapIndex(i)) && v'.owner == v.owner[i := id]
    ensures DistinctMarks(v'.bits, v'.owner)
      <==> forall j: nat | Stray(m, v, j) && v.owner[j] == id :: BitmapIndex(j) == BitmapIndex(i)
  {
    hide ExtentOffset, Roomy, Owned, BitmapIndex;
    AddressesApart(cfg.geo);
    forall k: nat | k < |m.bitmap| && m.bitmap[k]
      ensures v.owner[k] in m.offsets && m.offsets[v.owner[k]] == ExtentOffset(cfg.geo, k)
    {
      OwnerIn(cfg.geo, m.bitmap, v, m.offsets, k);
    }
    assert v'.bits[i] && v'.owner[i] == id;
    forall k: nat | k < |v'.bits| && v'.bits[k] && k != i
      ensures m.bitmap[k] || (Stray(m, v, k) && BitmapIndex(k) != BitmapIndex(i))
    {
    }
    forall j: nat | Stray(m, v, j) && BitmapIndex(j) != BitmapIndex(i) ensures v'.bits[j] && v'.owner[j] == v.owner[j] {
    }
  }

  /** The view of the device after both writes of an add have landed. */
  lemma AddSeen(g: Geometry, disk: Disk, bits: seq<bool>, i: nat, h: Header)
    requires Roomy(g) && Readable(g, disk) && i < g.count == |bits| && h.Valid() && h.fields.bitmapIndex == i
    ensures var v, v' := ViewOf(g, disk), ViewOf(g, WithBits(g, WithHeader(g, disk, i, h), i, bits));
      && v'.bits == Merge(v.bits, bits, BitmapIndex(i))
      && v'.owner == v.owner[i := h.fields.extentId]
  {
    hide Roomy, Readable, ViewOf, HeaderBlock, BitmapBlock, BitmapIndex, LiveBlocks, Merge, BitmapImage, HeaderEncode;
    LiveIndex(g, i);
    HeaderLands(g, disk, i, h);
    BitmapLands(g, WithHeader(g, disk, i, h), BitmapIndex(i), bits);
  }

  lemma StraysOnDevice(cfg: Config, s: State, id: U64, b: nat)
    requires |s.mem.bitmap| == cfg.geo.count
    ensures (forall j: nat | Stray(s.mem, ViewOf(cfg.geo, s.disk), j) && ViewOf(cfg.geo, s.disk).owner[j] == id ::
        BitmapIndex(j) == b)
      <==> forall j: nat | OnlyOnDevice(cfg.geo, s, j) && OwnerAt(cfg.geo, s.disk, j) == id :: BitmapIndex(j) == b
  {
    hide DiskBit, OwnerAt, HeaderGood, BitmapIndex;
    var v := ViewOf(cfg.geo, s.disk);
    assert forall j: nat | j < cfg.geo.count :: v.bits[j] == DiskBit(cfg.geo, s.disk, j);
  }

  /**
   After a run in which no failed id is tried again, an add whose writes reach the device, whether the second
   is then reported as failed or not, leaves the owners on the device unique exactly when every mark that an
   earlier add of its id has left lies in the bitmap block the add writes.
   */
  lemma RetryExactly(cfg: Config, disk: Disk, steps: seq<Step>, s: State, header: Header, m1: Memory, i: U32,
      done: Completion)
    requires Sound(cfg.fixes) && Reaches(cfg, disk, steps, s) && IsFresh(cfg, Initial(cfg, disk), steps)
    requires s.lock.Free? && header.Valid() && (done.Complete? || done.landed == 1)
    requires Admit(cfg, s.mem, header.fields.extentId) == (m1, Admitted(i)) && OnDisk(cfg.geo, s.disk, i)
    ensures |s.mem.bitmap| == cfg.geo.count <= CLONE_LIMIT
    ensures var a := AddCall(cfg, s.mem, s.disk, header, Complete, done);
      && (a.err == Ok <==> done.Complete?)
      && (OwnersUnique(cfg.geo, a.disk) <==>
            forall j: nat | OnlyOnDevice(cfg.geo, s, j) && OwnerAt(cfg.geo, s.disk, j) == header.fields.extentId ::
              BitmapIndex(j) == BitmapIndex(i))
  {
    var v := ViewOf(cfg.geo, s.disk);
    var id, h := header.fields.extentId, Indexed(header, i);
    ReachesValid(cfg, disk, steps, s);
    AdmitPlaces(cfg, s.mem, id, m1, i);
    hide Roomy, Reaches, IsFresh, Inv, TracedState, OwnersUnique, DistinctMarks, StraysApart, ViewOf, Admit, Indexed,
      AddCall, Insert, WithBits, WithHeader, OnDisk, Cloned, BitmapIndex, Stray, OnlyOnDevice, OwnerAt, Merge;
    FreshTraced(cfg, disk, steps, s);
    FreshParts(cfg, s);
    IndexedKeeps(header, i);
    ClonedInFull(s.mem.bitmap);
    AddLands(cfg, s.mem, s.disk, header, m1, i, done);
    AddSeen(cfg.geo, s.disk, s.mem.bitmap[i := true], i, h);
    var after := WithBits(cfg.geo, WithHeader(cfg.geo, s.disk, i, h), i, s.mem.bitmap[i := true]);
    UniqueInView(cfg.geo, after);
    RetryInView(cfg, s.mem, v, i, id, ViewOf(cfg.geo, after));
    StraysOnDevice(cfg, s, id, BitmapIndex(i));
  }

  lemma ReachesValid(cfg: Config, disk: Disk, steps: seq<Step>, s: State)
    requires Reaches(cfg, disk, steps, s)
    ensures ValidConfig(cfg)
  {
  }

  lemma AdmitPlaces(cfg: Config, m: Memory, id: U64, m1: Memory, i: U32)
    requires Admit(cfg, m, id) == (m1, Admitted(i))
    ensures i < |m.bitmap| && !m.bitmap[i] && id !in m.offsets && m1.bitmap == m.bitmap
  {
    hide Scan;
  }

  lemma FreshParts(cfg: Config, s: State)
    requires Inv(cfg, s) && TracedState(cfg, s)
    ensures var v := ViewOf(cfg.geo, s.disk);
      && |s.mem.bitmap| == |v.bits| == |v.good| == |v.owner| == cfg.geo.count
      && Readable(cfg.geo, s.disk) && Owned(cfg.geo, s.mem.bitmap, v, s.mem.offsets) && StraysApart(s.mem, v)
  {
    hide Readable, Core, ViewOf, Traced, FlightOk, StraysApart, Owned, Locking, Called;
    CoreParts(cfg, s.mem, ViewOf(cfg.geo, s.disk), s.suspect, HolderOf(s));
    TracedIsApart(cfg, s.mem, ViewOf(cfg.geo, s.disk), HolderOf(s), FailedIds(s.tasks));
  }

  // ---- a retry that fails the condition ----

  /** Slots 4063 and 4064 have their marks in different blocks, and both can be cloned. */
  lemma EdgeOfBlock()
    ensures BitmapIndex(4063) != BitmapIndex(4064) && CloneDefined(4063) && CloneDefined(4064)
  {
  }

  lemma OwnerWritten(g: Geometry, disk: Disk, i: nat, h: Header)
    requires h.Valid() && OnDisk(g, disk, i) && disk[HeaderBlock(g, i)] == HeaderEncode(h)
    ensures OwnerAt(g, disk, i) == h.fields.extentId
  {
    HeaderRoundTrip(BlankHeader(), h);
    hide HeaderBlock, HeaderDecode, HeaderEncode, HeaderCovered, BitmapBlock, BitmapIndex;
  }

  /** A slot after an add whose mark has landed. */
  lemma MarkLeft(g: Geometry, disk: Disk, i: nat, h: Header, bits: seq<bool>)
    requires Roomy(g) && i < g.count == |bits| && bits[i] && h.Valid()
    ensures var d := WithBits(g, WithHeader(g, disk, i, h), i, bits);
      DiskBit(g, d, i) && OwnerAt(g, d, i) == h.fields.extentId
  {
    hide Roomy, WithBits, WithHeader, OnDisk, DiskBit, OwnerAt, HeaderEncode, HeaderBlock, BitmapIndex;
    DiskParts(g, disk, i, h, bits, bits);
    ReadsBack(g, WithHeader(g, disk, i, h), i, bits, i);
    OwnerWritten(g, WithBits(g, WithHeader(g, disk, i, h), i, bits), i, h);
  }

  lemma OneAfterOthers(tasks: seq<Task>, tasks': seq<Task>)
    requires FromTwo(tasks) && |tasks'| == |tasks| + 1 && tasks'[..|tasks|] == tasks && tasks'[|tasks|].Id() == 1
    ensures IdsOnce(tasks')
  {
    forall t | 0 <= t < |tasks| ensures tasks'[t].Id() == t + 2 {
      assert tasks'[..|tasks|][t] == tasks'[t];
    }
  }

  /** An add of extent 1 to slot 4063 that is reported failed after its mark has landed, the first of extent 1. */
  lemma FirstTry(cfg: Config) returns (steps: seq<Step>, s: State)
    requires ValidConfig(cfg) && 4064 < cfg.modulus && 0 < cfg.geo.count
    ensures Leads(cfg, Initial(cfg, BlankDisk(cfg.geo)), steps, s, true) && s.lock.Free? && IdsOnce(s.tasks)
    ensures s.mem == FreshMemory(cfg.geo.count).(cursor := 4064) && OnDisk(cfg.geo, s.disk, 4063)
    ensures OnDisk(cfg.geo, s.disk, 4064)
    ensures DiskBit(cfg.geo, s.disk, 4063) && OwnerAt(cfg.geo, s.disk, 4063) == 1
  {
    var g, m, disk := cfg.geo, FreshMemory(cfg.geo.count), BlankDisk(cfg.geo);
    var h := Indexed(HeaderOf(1), 4063);
    hide Roomy, Leads, BlankDisk, Initial, FreshMemory, Admit, AddCall, Insert, Indexed, WithBits, WithHeader, OnDisk,
      HeaderOf, HeaderEncode, HeaderBlock, BitmapIndex, CloneDefined, Cloned, ExtentOffset, WriteResult, FromTwo,
      IdsOnce, DiskBit, OwnerAt;
    EdgeOfBlock();
    BlankOnDisk(cfg, 4063);
    BlankOnDisk(cfg, 4064);
    AdmitNext(cfg, 4063, 1);
    IndexedKeeps(HeaderOf(1), 4063);
    var p1, s1 := FailedAdds(cfg, disk, 4063);
    AddLands(cfg, s1.mem, disk, HeaderOf(1), m.(cursor := 4064), 4063, Failed(1));
    MarkLeft(g, disk, 4063, h, Cloned(m.bitmap)[4063 := true]);
    StillThere(g, disk, 4063, h, Cloned(m.bitmap)[4063 := true], 4063);
    StillThere(g, disk, 4063, h, Cloned(m.bitmap)[4063 := true], 4064);
    var p2, s2 := AddCallRuns(cfg, s1, HeaderOf(1), Complete, Failed(1));
    RunsJoin(cfg, Initial(cfg, disk), p1, s1, p2, s2, true);
    OneAfterOthers(s1.tasks, s2.tasks);
    steps, s := p1 + p2, s2;
  }

  /** What is written for an extent of another bitmap block leaves a mark alone. */
  lemma MarkStays(g: Geometry, disk: Disk, i: nat, j: nat, h: Header, bits: seq<bool>)
    requires Roomy(g) && i < g.count && j < g.count && BitmapIndex(i) != BitmapIndex(j) && h.Valid()
    requires DiskBit(g, disk, i)
    ensures DiskBit(g, WithBits(g, WithHeader(g, disk, j, h), j, bits), i)
  {
    hide HeaderBlock, BitmapBlock, BitmapIndex, ImageBit, HeaderEncode, BitmapImage, Roomy, LiveBlocks, ExtentOffset;
    AddressesApart(g);
    LiveIndex(g, i);
    LiveIndex(g, j);
    assert BitmapBlock(g, BitmapIndex(i)) < HeaderBlock(g, j);
  }

  /** The mark and the header of a slot outlast an add to a slot of another bitmap block. */
  lemma OwnerStays(g: Geometry, disk: Disk, i: nat, j: nat, h: Header, bits: seq<bool>)
    requires Roomy(g) && i < g.count && j < g.count && BitmapIndex(i) != BitmapIndex(j) && h.Valid()
    requires DiskBit(g, disk, i) && OnDisk(g, disk, i)
    ensures var d := WithBits(g, WithHeader(g, disk, j, h), j, bits);
      DiskBit(g, d, i) && OwnerAt(g, d, i) == OwnerAt(g, disk, i)
  {
    hide Roomy, HeaderBlock, BitmapBlock, BitmapIndex, DiskBit, OwnerAt, HeaderGood, WithBits, WithHeader;
    MarkStays(g, disk, i, j, h, bits);
    HeaderStays(g, disk, i, j, h, bits);
    HeaderUnchanged(g, disk, WithBits(g, WithHeader(g, disk, j, h), j, bits), i);
  }

  /** Slots 4063 and 4064 marked, both for extent 1. */
  lemma SecondMark(g: Geometry, disk: Disk, h: Header, bits: seq<bool>)
    requires Roomy(g) && 4064 < g.count == |bits| && bits[4064] && h.Valid() && h.fields.extentId == 1
    requires OnDisk(g, disk, 4063) && DiskBit(g, disk, 4063) && OwnerAt(g, disk, 4063) == 1
    ensures !OwnersUnique(g, WithBits(g, WithHeader(g, disk, 4064, h), 4064, bits))
  {
    hide Roomy, WithBits, WithHeader, OnDisk, BitmapIndex, DiskBit, OwnerAt, CloneDefined;
    EdgeOfBlock();
    OwnerStays(g, disk, 4063, 4064, h, bits);
    MarkLeft(g, disk, 4064, h, bits);
  }

  /** Extent 1 tried again: the second try takes the first slot of the next bitmap block. */
  lemma SecondTry(cfg: Config, s: State) returns (steps: seq<Step>, s': State)
    requires ValidConfig(cfg) && 4064 < cfg.modulus && 0 < cfg.geo.count
    requires s.lock.Free? && s.mem == FreshMemory(cfg.geo.count).(cursor := 4064)
    requires OnDisk(cfg.geo, s.disk, 4063) && OnDisk(cfg.geo, s.disk, 4064)
    requires DiskBit(cfg.geo, s.disk, 4063) && OwnerAt(cfg.geo, s.disk, 4063) == 1
    ensures Leads(cfg, s, steps, s', true) && !OwnersUnique(cfg.geo, s'.disk)
  {
    var g, m, h := cfg.geo, FreshMemory(cfg.geo.count), Indexed(HeaderOf(1), 4064);
    hide Roomy, Leads, FreshMemory, Admit, AddCall, Insert, Indexed, WithBits, WithHeader, OnDisk, HeaderOf,
      BitmapIndex, CloneDefined, Cloned, WriteResult, DiskBit, OwnerAt, OwnersUnique;
    EdgeOfBlock();
    AdmitNext(cfg, 4064, 1);
    IndexedKeeps(HeaderOf(1), 4064);
    AddSucceeds(cfg, s.mem, s.disk, HeaderOf(1), m.(cursor := 4065), 4064);
    SecondMark(g, s.disk, h, Cloned(m.bitmap)[4064 := true]);
    steps, s' := AddCallRuns(cfg, s, HeaderOf(1), Complete, Complete);
  }

  /**
   Why no failed id may be tried again: after a fresh run the mark of a failed add of extent 1 stands in slot
   4063; the second try takes slot 4064, the first of the next bitmap block, and the device marks two slots
   with headers of extent 1.
   */
  lemma RetryDuplicates(cfg: Config) returns (first: seq<Step>, s1: State, retry: seq<Step>, s: State)
    requires ValidConfig(cfg) && 4064 < cfg.modulus && 0 < cfg.geo.count
    ensures Reaches(cfg, BlankDisk(cfg.geo), first, s1) && IsFresh(cfg, Initial(cfg, BlankDisk(cfg.geo)), first)
    ensures Reaches(cfg, BlankDisk(cfg.geo), first + retry, s) && !OwnersUnique(cfg.geo, s.disk)
  {
    var disk := BlankDisk(cfg.geo);
    var start := Initial(cfg, disk);
    hide Roomy, Reaches, RunsTo, Leads, BlankDisk, BlankDevice, Initial, FreshMemory, OnDisk, OwnersUnique, IsFresh,
      DiskBit, OwnerAt, IdsOnce;
    first, s1 := FirstTry(cfg);
    LeadsFresh(cfg, start, first, s1);
    retry, s := SecondTry(cfg, s1);
    RunsJoin(cfg, start, first, s1, retry, s, true);
    BlankDiskIsBlank(cfg);
    LeadsReaches(cfg, disk, first, s1, true);
    LeadsReaches(cfg, disk, first + retry, s, true);
  }

  lemma LeadsFresh(cfg: Config, s: State, steps: seq<Step>, s': State)
    requires Leads(cfg, s, steps, s', true) && IdsOnce(s'.tasks)
    ensures IsRun(cfg, s, steps) && IsFresh(cfg, s, steps)
  {
    hide IsFresh, IdsOnce, IsRun, After;
    OnceIsFresh(cfg, s, steps);
  }

  // ---- a single bitmap block ----

  /** What the device marks lies in the first bitmap block, and no stray mark has an owner that the map has. */
  ghost predicate OneBlock(m: Memory, v: View) {
    && (forall i | 0 <= i < |v.bits| && v.bits[i] :: i < DATA_SIZE)
    && (forall i: nat | Stray(m, v, i) :: v.owner[i] !in m.offsets)
  }

  lemma OneBlockBegins(m: Memory, m': Memory, v: View)
    requires OneBlock(m, v) && m' == m.(cursor := m'.cursor)
    ensures OneBlock(m', v)
  {
    assert forall i: nat :: Stray(m', v, i) == Stray(m, v, i);
  }

  lemma OneBlockHeader(m: Memory, v: View, i: nat, id: U64)
    requires OneBlock(m, v) && i < |v.good| == |v.owner| && id !in m.offsets
    ensures OneBlock(m, v.(good := v.good[i := true], owner := v.owner[i := id]))
  {
    var v' := v.(good := v.good[i := true], owner := v.owner[i := id]);
    assert forall j: nat :: Stray(m, v', j) == Stray(m, v, j);
  }

  lemma OneBlockBitmap(m: Memory, v: View, i: nat, used: bool)
    requires OneBlock(m, v) && i < |m.bitmap| == |v.bits| == |v.owner|
    requires forall j | 0 <= j < |m.bitmap| && m.bitmap[j] :: j < DATA_SIZE
    requires used ==> i < DATA_SIZE && v.owner[i] !in m.offsets
    ensures OneBlock(m, v.(bits := Merge(v.bits, m.bitmap[i := used], BitmapIndex(i))))
  {
    hide BitmapIndex;
    var v' := v.(bits := Merge(v.bits, m.bitmap[i := used], BitmapIndex(i)));
    assert forall j: nat | Stray(m, v', j) :: Stray(m, v, j) || (j == i && used);
  }

  lemma OneBlockDone(m: Memory, v: View, i: nat, used: bool, m': Memory)
    requires OneBlock(m, v) && i < |m.bitmap| == |v.bits|
    requires m'.bitmap == m.bitmap[i := used] && SameBlock(v.bits, m'.bitmap, BitmapIndex(i))
    requires used ==> i < DATA_SIZE
    requires !used ==> forall id | id in m'.offsets :: id in m.offsets
    ensures OneBlock(m', v)
  {
    forall j: nat | Stray(m', v, j) ensures Stray(m, v, j) && !used {
      assert j / DATA_SIZE == 0;
    }
  }

  ghost predicate OneBlockState(cfg: Config, s: State) {
    OneBlock(s.mem, ViewOf(cfg.geo, s.disk))
  }

  lemma BelowParts(cfg: Config, s: State, t: nat)
    requires BelowModulus(cfg, s) && cfg.modulus <= DATA_SIZE && t < |s.tasks|
    ensures forall i | 0 <= i < |s.mem.bitmap| && s.mem.bitmap[i] :: i < DATA_SIZE
    ensures s.tasks[t].adds && s.tasks[t].phase.BitmapWrite? ==> s.tasks[t].phase.index < DATA_SIZE
  {
  }

  lemma LandInOneBlock(cfg: Config, s: State, t: nat)
    requires ValidConfig(cfg) && cfg.modulus <= DATA_SIZE && Inv(cfg, s) && BelowModulus(cfg, s)
    requires OneBlockState(cfg, s) && Enabled(cfg, s, Land(t))
    ensures OneBlockState(cfg, LandTask(cfg, s, t))
  {
    var task, v := s.tasks[t], ViewOf(cfg.geo, s.disk);
    hide Inv, BelowModulus, LandTask, Roomy, ViewOf, Merge, BitmapIndex, CanLand, FlightOk, OneBlock;
    LandShape(cfg, s, t);
    InFlightParts(cfg, s, t);
    FlightSays(cfg, s.mem, v, task);
    BelowParts(cfg, s, t);
    if task.phase.HeaderWrite? {
      HeaderSeen(cfg, s, t);
      OneBlockHeader(s.mem, v, task.phase.index, task.Id());
    } else {
      BitmapSeen(cfg, s, t);
      OneBlockBitmap(s.mem, v, task.phase.index, task.adds);
    }
  }

  lemma InFlightParts(cfg: Config, s: State, t: nat)
    requires Inv(cfg, s) && t < |s.tasks| && s.tasks[t].phase.InFlight()
    ensures s.lock == Held(t) && FlightOk(cfg, s.mem, ViewOf(cfg.geo, s.disk), s.tasks[t])
    ensures |s.mem.bitmap| == cfg.geo.count
  {
    hide Readable, Core, ViewOf, FlightOk;
    HolderMoves(cfg, s, ViewOf(cfg.geo, s.disk), t);
  }

  lemma DoneInOneBlock(cfg: Config, s: State, t: nat, s': State)
    requires cfg.modulus <= DATA_SIZE && Inv(cfg, s) && BelowModulus(cfg, s) && OneBlockState(cfg, s)
    requires OnlyFinishes(cfg, s, t, true, s') && s.tasks[t].phase.BitmapWrite?
    ensures OneBlockState(cfg, s')
  {
    var task, v := s.tasks[t], ViewOf(cfg.geo, s.disk);
    hide Inv, BelowModulus, ViewOf, BitmapIndex, FlightOk, OneBlock, Insert, Remove;
    InFlightParts(cfg, s, t);
    BelowParts(cfg, s, t);
    WriteDone(cfg, s.mem, v, task, s'.mem);
    OneBlockDone(s.mem, v, task.phase.index, task.adds, s'.mem);
  }

  lemma FinishInOneBlock(cfg: Config, s: State, t: nat, ok: bool)
    requires cfg.modulus <= DATA_SIZE && Inv(cfg, s) && BelowModulus(cfg, s)
    requires OneBlockState(cfg, s) && Enabled(cfg, s, Finish(t, ok))
    ensures OneBlockState(cfg, FinishTask(cfg, s, t, ok))
  {
    var s' := FinishTask(cfg, s, t, ok);
    CanOnlyFly(cfg, s, t, ok);
    hide Inv, BelowModulus, FinishTask, CanFinish, ViewOf, OneBlock, OnlyFinishes;
    HoldsIt(cfg, s, t);
    FinishShape(cfg, s, t, ok);
    if ok && s.tasks[t].phase.BitmapWrite? {
      DoneInOneBlock(cfg, s, t, s');
    } else {
      OthersStay(cfg, s, t, ok, s');
    }
  }

  /** A completion that is not a successful bitmap write changes neither memory nor device. */
  lemma OthersStay(cfg: Config, s: State, t: nat, ok: bool, s': State)
    requires OnlyFinishes(cfg, s, t, ok, s') && !(ok && s.tasks[t].phase.BitmapWrite?)
    ensures s'.mem == s.mem && s'.disk == s.disk
  {
  }

  lemma BeginInOneBlock(cfg: Config, s: State, t: nat)
    requires OneBlockState(cfg, s) && Enabled(cfg, s, Begin(t))
    ensures OneBlockState(cfg, BeginTask(cfg, s, t))
  {
    hide ViewOf, BeginTask, OneBlock;
    if s.tasks[t].adds {
      BeginAdd(cfg, s, t);
    } else {
      BeginDelete(cfg, s, t);
    }
    OneBlockBegins(s.mem, BeginTask(cfg, s, t).mem, ViewOf(cfg.geo, s.disk));
  }

  lemma StepInOneBlock(cfg: Config, s: State, step: Step)
    requires ValidConfig(cfg) && cfg.modulus <= DATA_SIZE && Inv(cfg, s) && BelowModulus(cfg, s)
    requires OneBlockState(cfg, s) && Enabled(cfg, s, step)
    ensures OneBlockState(cfg, Next(cfg, s, step))
  {
    hide Inv, Enabled, BeginTask, LandTask, FinishTask, Roomy, BelowModulus, ViewOf, OneBlock;
    match step
    case Spawn(task) =>
    case Begin(t) => BeginInOneBlock(cfg, s, t);
    case Land(t) => LandInOneBlock(cfg, s, t);
    case Finish(t, ok) => FinishInOneBlock(cfg, s, t, ok);
  }

  lemma {:induction false} RunInOneBlock(cfg: Config, s: State, steps: seq<Step>)
    requires ValidConfig(cfg) && Sound(cfg.fixes) && cfg.modulus <= DATA_SIZE && Inv(cfg, s) && BelowModulus(cfg, s)
    requires OneBlockState(cfg, s) && IsRun(cfg, s, steps) && IsCareful(cfg, s, steps)
    ensures OneBlockState(cfg, After(cfg, s, steps))
    decreases |steps|
  {
    if steps != [] {
      hide Inv, Next, Enabled, Careful, ValidConfig, BelowModulus, OneBlockState;
      StepKeeps(cfg, s, steps[0]);
      BelowKept(cfg, s, steps[0]);
      StepInOneBlock(cfg, s, steps[0]);
      RunInOneBlock(cfg, Next(cfg, s, steps[0]), steps[1..]);
    }
  }

  /** Two stray marks in one block are one. */
  lemma OneBlockApart(m: Memory, v: View, suspect: set<nat>, flight: Phase)
    requires OneBlock(m, v) && Agree(m, v, suspect, flight)
    ensures StraysApart(m, v)
  {
    forall i: nat, j: nat | Stray(m, v, i) && Stray(m, v, j) ensures i == j {
      assert i / DATA_SIZE == j / DATA_SIZE;
    }
  }

  lemma OneBlockUnique(cfg: Config, s: State)
    requires Roomy(cfg.geo) && Inv(cfg, s) && OneBlockState(cfg, s)
    ensures OwnersUnique(cfg.geo, s.disk)
  {
    var v := ViewOf(cfg.geo, s.disk);
    hide Roomy, Readable, Core, ViewOf, FlightOk, OwnersUnique, DistinctMarks, StraysApart, Owned, Locking, Called,
      OneBlock, Agree;
    CoreParts(cfg, s.mem, v, s.suspect, HolderOf(s));
    OneBlockApart(s.mem, v, s.suspect, PhaseOf(HolderOf(s)));
    ApartIsDistinct(cfg, s.mem, v);
    UniqueInView(cfg.geo, s.disk);
  }

  lemma InitialInOneBlock(cfg: Config, disk: Disk)
    requires BlankDevice(cfg, disk)
    ensures OneBlockState(cfg, Initial(cfg, disk)) && BelowModulus(cfg, Initial(cfg, disk))
  {
    hide BlankDevice, ViewOf, Readable;
    BlankView(cfg, disk);
    assert forall i: nat :: !Stray(FreshMemory(cfg.geo.count), ViewOf(cfg.geo, disk), i);
  }

  lemma ReachedInOneBlock(cfg: Config, disk: Disk, steps: seq<Step>, s: State)
    requires Sound(cfg.fixes) && Reaches(cfg, disk, steps, s) && cfg.modulus <= DATA_SIZE
    ensures OwnersUnique(cfg.geo, s.disk)
  {
    hide Roomy, Inv, OneBlockState, BlankDevice, After, IsCareful, BelowModulus, OwnersUnique;
    InitialInv(cfg, disk);
    InitialInOneBlock(cfg, disk);
    RunKeeps(cfg, Initial(cfg, disk), steps);
    RunInOneBlock(cfg, Initial(cfg, disk), steps);
    OneBlockUnique(cfg, s);
  }

  /**
   With ids tried again at will, the owners on the device are unique in every reached state exactly when
   the search stays within the first bitmap block.
   */
  lemma UniqueExactly(cfg: Config)
    requires ValidConfig(cfg) && Sound(cfg.fixes) && 0 < cfg.geo.count
    ensures (forall disk, steps, s | Reaches(cfg, disk, steps, s) :: OwnersUnique(cfg.geo, s.disk))
      <==> cfg.modulus <= DATA_SIZE
  {
    hide Reaches, Roomy, OwnersUnique, BlankDisk, IsFresh;
    if cfg.modulus <= DATA_SIZE {
      forall disk, steps, s | Reaches(cfg, disk, steps, s) ensures OwnersUnique(cfg.geo, s.disk) {
        ReachedInOneBlock(cfg, disk, steps, s);
      }
    } else {
      var first, s1, retry, s := RetryDuplicates(cfg);
    }
  }
}
