/** Devices, calls that succeed and short runs, for the theorems that show a run. */
module ExtentExamples {
  import opened Bytes
  import opened ErrorCodes
  import opened SealedBlock
  import opened PayloadBlocks
  import opened ExtentHeaders
  import opened Devices
  import opened ExtentGeometry
  import opened BitmapImages
  import opened NextFit
  import opened ExtentProtocol
  import opened ExtentCalls
  import opened ExtentSafety

  function WithHeader(g: Geometry, disk: Disk, i: nat, h: Header): Disk
    requires h.Valid()
  {
    disk[HeaderBlock(g, i) := HeaderEncode(h)]
  }

  /** The bitmap block of entry `i` written from `bits`. */
  function WithBits(g: Geometry, disk: Disk, i: nat, bits: seq<bool>): Disk {
    disk[BitmapBlock(g, BitmapIndex(i)) := BitmapImage(bits, BitmapIndex(i))]
  }

  ghost predicate OnDisk(g: Geometry, disk: Disk, i: nat) {
    HeaderBlock(g, i) in disk && BitmapBlock(g, BitmapIndex(i)) in disk
  }

  /** An add whose writes land, the second perhaps with an error. The device gets what the clone loop sees. */
  lemma AddLands(cfg: Config, m: Memory, disk: Disk, header: Header, m1: Memory, i: U32, done: Completion)
    requires Roomy(cfg.geo) && |m.bitmap| == cfg.geo.count && header.Valid()
    requires Admit(cfg, m, header.fields.extentId) == (m1, Admitted(i)) && (done.Complete? || done.landed == 1)
    requires i < |m.bitmap| && m1.bitmap == m.bitmap && OnDisk(cfg.geo, disk, i)
    ensures var h := Indexed(header, i);
      AddCall(cfg, m, disk, header, Complete, done) ==
        AddResult(if done.Complete? then Insert(cfg, m1, i, header.fields.extentId) else m1,
          WithBits(cfg.geo, WithHeader(cfg.geo, disk, i, h), i, Cloned(m.bitmap)[i := true]), h,
          if done.Complete? then Ok else IoWriteAtFailed)
  {
    hide Roomy, Admit, Indexed, HeaderEncode, BitmapImage, BitmapIndex, WriteResult, ExtentOffset, BitmapOffset, Insert,
      Cloned;
    var h := Indexed(header, i);
    ExtentAddress(cfg.geo, i);
    LiveIndex(cfg.geo, i);
    BitmapAddress(cfg.geo, BitmapIndex(i));
    OneBlockWrite(disk, ExtentOffset(cfg.geo, i), HeaderEncode(h), Complete);
    OneBlockWrite(WithHeader(cfg.geo, disk, i, h), BitmapOffset(cfg.geo, BitmapIndex(i)),
      CloneImage(m.bitmap, i, true), done);
  }

  lemma AddSucceeds(cfg: Config, m: Memory, disk: Disk, header: Header, m1: Memory, i: U32)
    requires Roomy(cfg.geo) && |m.bitmap| == cfg.geo.count && header.Valid()
    requires Admit(cfg, m, header.fields.extentId) == (m1, Admitted(i))
    requires i < |m.bitmap| && m1.bitmap == m.bitmap && OnDisk(cfg.geo, disk, i)
    ensures var h := Indexed(header, i);
      AddCall(cfg, m, disk, header, Complete, Complete) == AddResult(Insert(cfg, m1, i, header.fields.extentId),
        WithBits(cfg.geo, WithHeader(cfg.geo, disk, i, h), i, Cloned(m.bitmap)[i := true]), h, Ok)
  {
    hide Roomy, Admit, Indexed, AddCall, Insert, WithBits, WithHeader, OnDisk, Cloned;
    AddLands(cfg, m, disk, header, m1, i, Complete);
  }

  /** A delete whose read finds a header that passes the checks. */
  lemma DelWorks(cfg: Config, m: Memory, disk: Disk, h: Header, i: U32)
    requires Roomy(cfg.geo) && |m.bitmap| == cfg.geo.count && h.Valid() && h.fields.bitmapIndex == i < |m.bitmap|
    requires OnDisk(cfg.geo, disk, i) && (cfg.fixes.stopOnMissing ==> h.fields.extentId in m.offsets)
    ensures DelRefusal(cfg, m, disk, h, true) == Inspect(cfg, disk[HeaderBlock(cfg.geo, i)], h.fields.extentId)
    ensures Inspect(cfg, disk[HeaderBlock(cfg.geo, i)], h.fields.extentId) == Ok ==>
      DelCall(cfg, m, disk, h, true, Complete) ==
        DelResult(Remove(cfg, m, i, h.fields.extentId), WithBits(cfg.geo, disk, i, Cloned(m.bitmap)[i := false]), Ok)
  {
    hide Roomy, BitmapImage, BitmapIndex, WriteResult, ReadResult, ExtentOffset, BitmapOffset, Remove, Inspect, Cloned;
    ExtentAddress(cfg.geo, i);
    LiveIndex(cfg.geo, i);
    BitmapAddress(cfg.geo, BitmapIndex(i));
    OneBlockRead(disk, ExtentOffset(cfg.geo, i), true);
    OneBlockWrite(disk, BitmapOffset(cfg.geo, BitmapIndex(i)), CloneImage(m.bitmap, i, false), Complete);
  }

  /**
   A delete that finds the header its extent was added with: as written it is turned away, repaired
   it frees the slot.
   */
  lemma DelSucceeds(cfg: Config, m: Memory, disk: Disk, h: Header, i: U32)
    requires Roomy(cfg.geo) && |m.bitmap| == cfg.geo.count && h.Valid() && h.fields.bitmapIndex == i < |m.bitmap|
    requires OnDisk(cfg.geo, disk, i) && disk[HeaderBlock(cfg.geo, i)] == HeaderEncode(h)
    requires cfg.fixes.stopOnMissing ==> h.fields.extentId in m.offsets
    ensures DelRefusal(cfg, m, disk, h, true) == if cfg.fixes.header.AsWritten? then BlockMagicIllegal else Ok
    ensures DelCall(cfg, m, disk, h, true, Complete) ==
      if cfg.fixes.header.AsWritten? then DelResult(m, disk, BlockMagicIllegal)
      else DelResult(Remove(cfg, m, i, h.fields.extentId), WithBits(cfg.geo, disk, i, Cloned(m.bitmap)[i := false]), Ok)
  {
    hide Roomy, HeaderEncode, DelRefusal, Inspect, WithBits, OnDisk, HeaderBlock, Remove, Cloned, CloneImage;
    InspectWritten(cfg, h);
    DelWorks(cfg, m, disk, h, i);
  }

  lemma InspectWritten(cfg: Config, h: Header)
    requires h.Valid()
    ensures Inspect(cfg, HeaderEncode(h), h.fields.extentId)
      == if cfg.fixes.header.AsWritten? then BlockMagicIllegal else Ok
  {
    hide HeaderDecode, HeaderEncode, HeaderStamped, BlankHeader;
    if cfg.fixes.header.AsWritten? {
      HeaderAsWrittenIsUnreadable(BlankHeader(), h);
    } else {
      HeaderRoundTrip(BlankHeader(), h);
      StampedFields(h);
    }
  }

  lemma StampedFields(h: Header)
    requires h.Valid()
    ensures HeaderStamped(h).fields == h.fields
  {
    hide HeaderCovered;
  }

  /** What the two writes leave where. */
  lemma DiskParts(g: Geometry, disk: Disk, i: nat, h: Header, bits: seq<bool>, bits': seq<bool>)
    requires Roomy(g) && i < g.count && h.Valid()
    ensures var d := WithBits(g, WithHeader(g, disk, i, h), i, bits);
      && OnDisk(g, d, i) && d[HeaderBlock(g, i)] == HeaderEncode(h)
      && WithBits(g, d, i, bits') == WithBits(g, WithHeader(g, disk, i, h), i, bits')
  {
    hide HeaderBlock, BitmapBlock, BitmapIndex, HeaderEncode, BitmapImage, Roomy;
    HeaderNotBitmap(g, i);
    WriteTwice(WithHeader(g, disk, i, h), BitmapBlock(g, BitmapIndex(i)), BitmapImage(bits, BitmapIndex(i)),
      BitmapImage(bits', BitmapIndex(i)));
  }

  lemma WriteTwice(disk: Disk, k: nat, x: seq<bv8>, y: seq<bv8>)
    ensures disk[k := x][k := y] == disk[k := y]
  {
  }

  /** What is written for another extent leaves a header alone. */
  lemma HeaderStays(g: Geometry, disk: Disk, i: nat, j: nat, h: Header, bits: seq<bool>)
    requires Roomy(g) && i < g.count && j < g.count && i != j && h.Valid() && OnDisk(g, disk, i)
    ensures var d := WithBits(g, WithHeader(g, disk, j, h), j, bits);
      OnDisk(g, d, i) && d[HeaderBlock(g, i)] == disk[HeaderBlock(g, i)]
  {
    hide HeaderBlock, BitmapBlock, BitmapIndex, HeaderEncode, BitmapImage, Roomy, LiveBlocks, ExtentOffset;
    AddressesApart(g);
    LiveIndex(g, j);
    assert if i < j then HeaderBlock(g, i) < HeaderBlock(g, j) else HeaderBlock(g, j) < HeaderBlock(g, i);
    assert BitmapBlock(g, BitmapIndex(j)) < HeaderBlock(g, i);
  }

  // ---- a device to start on ----

  /** A device of `n` blocks. */
  function Filled(n: nat, block: int -> seq<bv8>): (disk: Disk)
    ensures forall k | 0 <= k < n :: k in disk && disk[k] == block(k)
  {
    if n == 0 then map[] else Filled(n - 1, block)[n - 1 := block(n - 1)]
  }

  /** The image of a bitmap block without entries, the same for every block. */
  function BlankBlock(g: Geometry): seq<bv8> {
    BitmapImage(FreshMemory(g.count).bitmap, 0)
  }

  lemma BlankImages(bits: seq<bool>, b: nat)
    requires forall i | 0 <= i < |bits| :: !bits[i]
    ensures BitmapImage(bits, b) == BitmapImage(bits, 0)
  {
    assert BitmapBytes(bits, b) == BitmapBytes(bits, 0);
    hide BitmapBytes, Encode;
  }

  /** Up to the block where an extent after the last would start. */
  function BlankSize(g: Geometry): nat {
    Monotone(0, g.count, g.extentSize / BLOCK_SIZE);
    g.extentsOffset / BLOCK_SIZE + g.count * (g.extentSize / BLOCK_SIZE) + 1
  }

  function BlankDisk(g: Geometry): Disk {
    Filled(BlankSize(g), k => BlankBlock(g))
  }

  lemma BlankAt(g: Geometry, k: nat)
    requires k < BlankSize(g)
    ensures k in BlankDisk(g) && BlankDisk(g)[k] == BlankBlock(g)
  {
    hide BlankSize, BlankBlock;
  }

  lemma BlankHeaderFits(g: Geometry, i: nat)
    requires Roomy(g) && i < g.count
    ensures HeaderBlock(g, i) < BlankSize(g)
  {
    hide HeaderBlock, Roomy;
    ExtentAddress(g, i);
    Product(i, g.count, g.extentSize / BLOCK_SIZE);
  }

  lemma BlankBitmapFits(g: Geometry, b: nat)
    requires Roomy(g) && b < LiveBlocks(g)
    ensures BitmapBlock(g, b) < BlankSize(g)
  {
    hide BitmapBlock, Roomy, LiveBlocks;
    BitmapAddress(g, b);
    Monotone(0, g.count, g.extentSize / BLOCK_SIZE);
  }

  /** A device on which a configuration can start. */
  lemma BlankDiskIsBlank(cfg: Config)
    requires Roomy(cfg.geo)
    ensures BlankDevice(cfg, BlankDisk(cfg.geo))
    ensures forall i | 0 <= i < cfg.geo.count :: HeaderBlock(cfg.geo, i) in BlankDisk(cfg.geo)
  {
    var g := cfg.geo;
    hide HeaderBlock, BitmapBlock, LiveBlocks, Roomy, BitmapImage, BlankDisk, BlankSize, FreshMemory;
    forall b | 0 <= b < LiveBlocks(g)
      ensures BitmapBlock(g, b) in BlankDisk(g)
      ensures BlankDisk(g)[BitmapBlock(g, b)] == BitmapImage(FreshMemory(g.count).bitmap, b)
    {
      BlankBitmapFits(g, b);
      BlankAt(g, BitmapBlock(g, b));
      BlankEverywhere(g, b);
    }
    forall i | 0 <= i < g.count ensures HeaderBlock(g, i) in BlankDisk(g) {
      BlankHeaderFits(g, i);
      BlankAt(g, HeaderBlock(g, i));
    }
  }

  lemma BlankEverywhere(g: Geometry, b: nat)
    ensures BlankBlock(g) == BitmapImage(FreshMemory(g.count).bitmap, b)
  {
    hide BitmapImage;
    BlankImages(FreshMemory(g.count).bitmap, b);
  }

  lemma BlankOnDisk(cfg: Config, i: nat)
    requires Roomy(cfg.geo) && i < cfg.geo.count
    ensures OnDisk(cfg.geo, BlankDisk(cfg.geo), i)
  {
    hide BlankDisk, HeaderBlock, BitmapBlock, LiveBlocks, BitmapIndex, BitmapImage;
    BlankDiskIsBlank(cfg);
    LiveIndex(cfg.geo, i);
  }

  lemma LeadsReaches(cfg: Config, disk: Disk, steps: seq<Step>, s: State, careful: bool)
    requires BlankDevice(cfg, disk) && Leads(cfg, Initial(cfg, disk), steps, s, careful)
    ensures RunsTo(cfg, disk, steps, s)
    ensures ValidConfig(cfg) && careful ==> Reaches(cfg, disk, steps, s)
  {
    hide BlankDevice, Roomy, IsRun, After, IsCareful;
  }

  // ---- short runs ----

  function HeaderOf(id: U64): (h: Header)
    ensures h.Valid() && h.fields.extentId == id && h.fields.bitmapIndex == 0
  {
    BlankHeader().(fields := BlankHeader().fields.(extentId := id))
  }

  /** A free manager, extent 1 in the header of slot 0 on the device, and the caller's header for it. */
  ghost predicate Ready(cfg: Config, s: State, h: Header) {
    && s.lock.Free? && |s.mem.bitmap| == cfg.geo.count && 0 < cfg.geo.count
    && h.Valid() && h.fields.extentId == 1 && h.fields.bitmapIndex == 0
    && OnDisk(cfg.geo, s.disk, 0) && s.disk[HeaderBlock(cfg.geo, 0)] == HeaderEncode(h)
    && (1 in s.mem.offsets ==> s.mem.offsets[1] == ExtentOffset(cfg.geo, 0))
    && (1 < cfg.geo.count ==> OnDisk(cfg.geo, s.disk, 1))
  }

  lemma AdmitNext(cfg: Config, k: nat, id: U64)
    requires k < cfg.geo.count && k < cfg.modulus
    ensures var m := FreshMemory(cfg.geo.count);
      Admit(cfg, m.(cursor := k), id) == (m.(cursor := k + 1), Admitted(k))
  {
    var m := FreshMemory(cfg.geo.count);
    assert !m.bitmap[k] && id !in m.offsets && m.used == 0;
    hide FreshMemory, Scan;
    ScanHere(m.bitmap, k, cfg.modulus, cfg.geo.count);
  }

  lemma StillThere(g: Geometry, disk: Disk, i: nat, h: Header, bits: seq<bool>, j: nat)
    requires h.Valid() && OnDisk(g, disk, j)
    ensures OnDisk(g, WithBits(g, WithHeader(g, disk, i, h), i, bits), j) && OnDisk(g, WithBits(g, disk, i, bits), j)
  {
    hide HeaderBlock, BitmapBlock, BitmapIndex, HeaderEncode, BitmapImage;
  }

  /** Slot 0 can be cloned. */
  lemma FirstDefined()
    ensures CloneDefined(0)
  {
  }

  /** An empty manager takes its first extent. */
  lemma FirstAdd(cfg: Config) returns (steps: seq<Step>, s: State, h: Header)
    requires ValidConfig(cfg) && 0 < cfg.geo.count
    ensures Leads(cfg, Initial(cfg, BlankDisk(cfg.geo)), steps, s, true) && Ready(cfg, s, h)
    ensures s.mem == Insert(cfg, FreshMemory(cfg.geo.count).(cursor := 1), 0, 1)
  {
    hide Roomy, Leads, AddCall, Admit, Insert, Indexed, HeaderEncode, BlankDisk, HeaderBlock, BitmapBlock, WithBits,
      WithHeader, LiveBlocks, HeaderOf, BitmapIndex, ExtentOffset, CloneDefined, WriteResult, OnDisk, FreshMemory;
    var m, disk := FreshMemory(cfg.geo.count), BlankDisk(cfg.geo);
    var m1 := m.(cursor := 1);
    FreshCursor(cfg.geo.count);
    AdmitNext(cfg, 0, 1);
    BlankOnDisk(cfg, 0);
    FirstDefined();
    IndexedKeeps(HeaderOf(1), 0);
    h := Indexed(HeaderOf(1), 0);
    AddSucceeds(cfg, m, disk, HeaderOf(1), m1, 0);
    DiskParts(cfg.geo, disk, 0, h, Cloned(m.bitmap)[0 := true], m.bitmap);
    if 1 < cfg.geo.count {
      BlankOnDisk(cfg, 1);
      StillThere(cfg.geo, disk, 0, h, Cloned(m.bitmap)[0 := true], 1);
    }
    steps, s := AddCallRuns(cfg, Initial(cfg, disk), HeaderOf(1), Complete, Complete);
    InsertFirst(cfg, m1);
  }

  lemma FreshCursor(count: nat)
    ensures FreshMemory(count) == FreshMemory(count).(cursor := 0) && 1 !in FreshMemory(count).offsets
  {
  }

  lemma InsertFirst(cfg: Config, m: Memory)
    requires 0 < |m.bitmap|
    ensures Insert(cfg, m, 0, 1).offsets == m.offsets[1 := ExtentOffset(cfg.geo, 0)]
  {
  }

  /** With the header readable, a delete of extent 1 goes through, also when it is not the first. */
  lemma DeleteFirst(cfg: Config, s: State, h: Header) returns (steps: seq<Step>, s': State)
    requires Roomy(cfg.geo) && cfg.fixes.header.Repaired? && Ready(cfg, s, h)
    requires cfg.fixes.stopOnMissing ==> 1 in s.mem.offsets
    ensures Leads(cfg, s, steps, s', true) && Ready(cfg, s', h) && s'.mem == Remove(cfg, s.mem, 0, 1)
  {
    hide Roomy, Leads, DelCall, DelRefusal, HeaderEncode, HeaderBlock, BitmapBlock, BitmapIndex, ExtentOffset,
      BitmapImage, CloneDefined, OnDisk, Cloned;
    FirstDefined();
    DelSucceeds(cfg, s.mem, s.disk, h, 0);
    HeaderNotBitmap(cfg.geo, 0);
    StillThere(cfg.geo, s.disk, 0, h, Cloned(s.mem.bitmap)[0 := false], 0);
    if 1 < cfg.geo.count {
      StillThere(cfg.geo, s.disk, 0, h, Cloned(s.mem.bitmap)[0 := false], 1);
    }
    steps, s' := DelCallRuns(cfg, s, h, true, Complete);
    RemoveFirst(cfg, s.mem);
  }

  lemma RemoveFirst(cfg: Config, m: Memory)
    requires 0 < |m.bitmap|
    ensures 1 in Remove(cfg, m, 0, 1).offsets ==> 1 in m.offsets && Remove(cfg, m, 0, 1).offsets[1] == m.offsets[1]
  {
  }

  /** Tasks for extents 2, 3, 4 and so on. */
  ghost predicate FromTwo(tasks: seq<Task>) {
    forall t | 0 <= t < |tasks| :: tasks[t].Id() == t + 2
  }

  /** Adds of different extents whose header writes fail, one after the other: only the cursor moves. */
  lemma {:induction false} FailedAdds(cfg: Config, disk: Disk, k: nat) returns (steps: seq<Step>, s: State)
    requires Roomy(cfg.geo) && k <= cfg.geo.count && k <= cfg.modulus
    ensures Leads(cfg, Initial(cfg, disk), steps, s, true) && s.lock.Free? && s.disk == disk
    ensures s.mem == FreshMemory(cfg.geo.count).(cursor := k)
    ensures |s.tasks| == k && FromTwo(s.tasks)
    decreases k
  {
    var start := Initial(cfg, disk);
    steps, s := [], start;
    if k != 0 {
      hide Roomy, Leads, AddCall, Admit, Indexed, HeaderEncode, ExtentOffset, WriteResult, FreshMemory, HeaderOf,
        FromTwo;
      steps, s := FailedAdds(cfg, disk, k - 1);
      AdmitNext(cfg, k - 1, k + 1);
      HeaderFails(cfg, s.mem, disk, k - 1, k + 1);
      var more, s' := AddCallRuns(cfg, s, HeaderOf(k + 1), Failed(0), Complete);
      RunsJoin(cfg, start, steps, s, more, s', true);
      OneMore(s.tasks, s'.tasks);
      steps, s := steps + more, s';
    }
  }

  lemma OneMore(tasks: seq<Task>, tasks': seq<Task>)
    requires FromTwo(tasks) && |tasks'| == |tasks| + 1 && tasks'[..|tasks|] == tasks
    requires tasks'[|tasks|].Id() == |tasks| + 2
    ensures FromTwo(tasks')
  {
    forall t | 0 <= t < |tasks| ensures tasks'[t].Id() == t + 2 {
      assert tasks'[..|tasks|][t] == tasks'[t];
    }
  }

  /** An add whose header write fails without a trace. */
  lemma HeaderFails(cfg: Config, m: Memory, disk: Disk, i: nat, id: U64)
    requires Roomy(cfg.geo) && i < |m.bitmap| == cfg.geo.count
    requires Admit(cfg, m, id) == (m.(cursor := i + 1), Admitted(i))
    ensures AddDefined(cfg, m, disk, HeaderOf(id), Failed(0))
    ensures var a := AddCall(cfg, m, disk, HeaderOf(id), Failed(0), Complete);
      a.mem == m.(cursor := i + 1) && a.disk == disk && a.header.fields.extentId == id
  {
    hide Roomy, Admit, Indexed, HeaderEncode, ExtentOffset, BitmapOffset, WriteResult, HeaderOf, CloneImage, Insert,
      CloneDefined;
    ExtentAddress(cfg.geo, i);
    IndexedKeeps(HeaderOf(id), i);
    OneBlockWrite(disk, ExtentOffset(cfg.geo, i), HeaderEncode(Indexed(HeaderOf(id), i)), Failed(0));
  }
}
