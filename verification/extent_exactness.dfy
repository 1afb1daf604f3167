/** Which of the departures of the source cost which property: the exact conditions, with the runs that show it. */
module ExtentExactness {
  import opened Bytes
  import opened ErrorCodes
  import opened PayloadBlocks
  import opened ExtentHeaders
  import opened Devices
  import opened ExtentGeometry
  import opened BitmapImages
  import opened NextFit
  import opened ExtentProtocol
  import opened ExtentCalls
  import opened ExtentViews
  import opened ExtentInvariant
  import opened ExtentSafety
  import opened ExtentAccounting
  import opened ExtentExamples

  /**
   A delete whose checks pass keeps the map and the marked extents in step exactly when the index it
   came with is the one the map records; the checks alone do not see to it, since headers of freed
   extents stay on the device.
   */
  lemma MatchExactly(cfg: Config, bits: seq<bool>, v: View, offsets: map<U64, U64>, i: nat, id: U64)
    requires Roomy(cfg.geo) && |bits| == |v.good| == |v.owner| == cfg.geo.count
    requires Owned(cfg.geo, bits, v, offsets) && i < |bits| && v.owner[i] == id
    ensures Owned(cfg.geo, bits[i := false], v, offsets - {id})
      <==> (id in offsets ==> offsets[id] == ExtentOffset(cfg.geo, i))
  {
    hide Roomy, ExtentOffset, Owned;
    if id !in offsets {
      if bits[i] {
        OwnerIn(cfg.geo, bits, v, offsets, i);
        assert false;
      }
      assert bits[i := false] == bits && offsets - {id} == offsets;
    } else if offsets[id] == ExtentOffset(cfg.geo, i) {
      OwnedAt(cfg, bits, v, offsets, i, id);
      OwnedAfterDelete(cfg, bits, v, offsets, i, id);
    } else {
      var j := SlotOf(cfg, bits, v, offsets, id);
      if Owned(cfg.geo, bits[i := false], v, offsets - {id}) {
        OwnerIn(cfg.geo, bits[i := false], v, offsets - {id}, j);
      }
    }
  }

  // ---- the search of an add ----

  /** Adds in a row take the slots of `Picks`, one after the other. */
  lemma AddTakesNextPick(cfg: Config, m: Memory, disk: Disk, header: Header, m1: Memory, i: U32, n: nat)
    requires Roomy(cfg.geo) && |m.bitmap| == cfg.geo.count && header.Valid() && 0 < cfg.modulus
    requires Admit(cfg, m, header.fields.extentId) == (m1, Admitted(i)) && OnDisk(cfg.geo, disk, i)
    ensures var a := AddCall(cfg, m, disk, header, Complete, Complete);
      && a.err == Ok && a.header.fields.bitmapIndex == i
      && Picks(m.bitmap, m.cursor, cfg.modulus, n + 1) == [i] + Picks(a.mem.bitmap, a.mem.cursor, cfg.modulus, n)
  {
    AdmitScans(cfg, m, header.fields.extentId, m1, i);
    hide Roomy, Admit, AddCall, Scan, Indexed, WithHeader, WithBits, OnDisk, ExtentOffset, Cloned;
    IndexedKeeps(header, i);
    AddSucceeds(cfg, m, disk, header, m1, i);
  }

  lemma AdmitScans(cfg: Config, m: Memory, id: U64, m1: Memory, i: U32)
    requires Admit(cfg, m, id) == (m1, Admitted(i)) && 0 < cfg.modulus && |m.bitmap| == cfg.geo.count
    ensures i < |m.bitmap| && m1 == m.(cursor := m1.cursor)
    ensures Scan(m.bitmap, m.cursor, cfg.modulus, |m.bitmap|) == Found(i, m1.cursor)
  {
  }

  lemma {:induction false} BitmapKeepsSize(cfg: Config, s: State, steps: seq<Step>)
    requires IsRun(cfg, s, steps)
    ensures |After(cfg, s, steps).mem.bitmap| == |s.mem.bitmap|
    decreases |steps|
  {
    if steps != [] {
      StepKeepsSize(cfg, s, steps[0]);
      hide Enabled, Next;
      BitmapKeepsSize(cfg, Next(cfg, s, steps[0]), steps[1..]);
    }
  }

  lemma StepKeepsSize(cfg: Config, s: State, step: Step)
    requires Enabled(cfg, s, step)
    ensures |Next(cfg, s, step).mem.bitmap| == |s.mem.bitmap|
  {
    hide Admit, Indexed, HeaderEncode, BitmapWriteOf, Insert, Remove, Inspect, HeaderBlock, BitmapBlock, Elsewhere;
  }

  /** With the cursor past the last extent and the modulus larger still, or no modulus, the search is undefined. */
  lemma SearchLost(cfg: Config)
    requires 0 < cfg.geo.count
    ensures var m := FreshMemory(cfg.geo.count);
      && (cfg.geo.count < cfg.modulus ==> Admit(cfg, m.(cursor := cfg.geo.count), 1).1 == Undefined)
      && (cfg.modulus == 0 ==> Admit(cfg, m, 1).1 == Undefined)
  {
    hide Scan;
    if cfg.geo.count < cfg.modulus {
      ScanLeaves(FreshMemory(cfg.geo.count).bitmap, cfg.modulus);
    }
  }

  /** As many adds as there are extents, each with a header write that fails, and the next search leaves the bitmap. */
  lemma LosesSearch(cfg: Config) returns (steps: seq<Step>, s: State)
    requires Roomy(cfg.geo) && 0 < cfg.geo.count && !(0 < cfg.modulus <= cfg.geo.count)
    ensures RunsTo(cfg, BlankDisk(cfg.geo), steps, s) && Admit(cfg, s.mem, 1).1 == Undefined
  {
    hide Roomy, Leads, RunsTo, BlankDisk, BlankDevice, Initial, FreshMemory, Admit;
    SearchLost(cfg);
    BlankDiskIsBlank(cfg);
    steps, s := FailedAdds(cfg, BlankDisk(cfg.geo), if cfg.modulus == 0 then 0 else cfg.geo.count);
    FreshCursor(cfg.geo.count);
    LeadsReaches(cfg, BlankDisk(cfg.geo), steps, s, true);
  }

  /**
   The search of an add is defined in every state of every run exactly when the modulus is not 0 and
   not more than the number of extents, whatever else is repaired.
   */
  lemma SearchDefinedExactly(cfg: Config)
    requires Roomy(cfg.geo) && 0 < cfg.geo.count
    ensures (forall disk, steps, s, id: U64 | RunsTo(cfg, disk, steps, s) :: Admit(cfg, s.mem, id).1 != Undefined)
      <==> 0 < cfg.modulus <= cfg.geo.count
  {
    hide Roomy, Scan, IsRun, After, BlankDevice, BlankDisk;
    if 0 < cfg.modulus <= cfg.geo.count {
      forall disk, steps, s, id: U64 | RunsTo(cfg, disk, steps, s) ensures Admit(cfg, s.mem, id).1 != Undefined {
        BitmapKeepsSize(cfg, Initial(cfg, disk), steps);
        ScanComplete(s.mem.bitmap, s.mem.cursor, cfg.modulus);
      }
    } else {
      var steps, s := LosesSearch(cfg);
    }
  }

  /** Two bitmap blocks for one extent. */
  function TwoForOne(): Geometry {
    Geometry(0, 2, 1, 4096, 4096)
  }

  lemma TwoForOneIsAccepted()
    ensures InitCheck(TwoForOne()) == Ok && Roomy(TwoForOne())
    ensures AsWrittenConfig(TwoForOne()).modulus == 2 && TwoForOne().count == 1
  {
    assert LiveBlocks(TwoForOne()) == 1;
  }

  /** `Init` does not see to it: it accepts two bitmap blocks for one extent, and as written that is the modulus. */
  lemma InitAcceptsLostSearch() returns (steps: seq<Step>, s: State)
    ensures InitCheck(TwoForOne()) == Ok
    ensures var cfg := AsWrittenConfig(TwoForOne());
      RunsTo(cfg, BlankDisk(cfg.geo), steps, s) && Admit(cfg, s.mem, 1).1 == Undefined
  {
    hide TwoForOne, Roomy, InitCheck, RunsTo, BlankDisk, Admit;
    TwoForOneIsAccepted();
    steps, s := LosesSearch(AsWrittenConfig(TwoForOne()));
  }

  // ---- the clone beyond its range ----

  /** `Init` accepts 2^31 extents. */
  function TooMany(): Geometry {
    Geometry(0, 1000000, 0x8000_0000, 4096, 0x1_0000_0000)
  }

  lemma TooManyIsAccepted()
    ensures InitCheck(TooMany()) == Ok && Roomy(TooMany()) && TooMany().count == 0x8000_0000
  {
    assert LiveBlocks(TooMany()) == 528417;
  }

  lemma SecondSlot(cfg: Config)
    requires 1 < cfg.modulus && 1 < cfg.geo.count
    ensures var m1 := Insert(cfg, FreshMemory(cfg.geo.count).(cursor := 1), 0, 1);
      && |m1.bitmap| == cfg.geo.count && m1.bitmap[0]
      && (cfg.geo.count != 1 ==> Admit(cfg, m1, 2) == (m1.(cursor := 2), Admitted(1)))
  {
    hide ExtentOffset;
    assert 1 % cfg.modulus == 1;
  }

  lemma ReadsBack(g: Geometry, disk: Disk, i: nat, bits: seq<bool>, k: nat)
    requires |bits| == g.count && i < g.count && k < g.count && BitmapIndex(k) == BitmapIndex(i)
    ensures DiskBit(g, WithBits(g, disk, i, bits), k) == bits[k]
  {
    hide BitmapBlock, ImageBit, BitmapImage;
    ImageBits(bits, BitmapIndex(i), k % DATA_SIZE);
  }

  /**
   With 2^31 extents every clone is blank: the second extent of a bitmap block erases the mark of the
   first on the device, while memory has both and both adds report success.
   */
  lemma SecondAddErasesFirst(cfg: Config) returns (a1: AddResult, a2: AddResult)
    requires cfg.geo == TooMany() && 1 < cfg.modulus <= cfg.geo.count
    ensures InitCheck(cfg.geo) == Ok
    ensures a1 == AddCall(cfg, FreshMemory(cfg.geo.count), BlankDisk(cfg.geo), HeaderOf(1), Complete, Complete)
    ensures |a1.mem.bitmap| <= 0x1_0000_0000
    ensures a2 == AddCall(cfg, a1.mem, a1.disk, HeaderOf(2), Complete, Complete)
    ensures a1.err == a2.err == Ok && |a2.mem.bitmap| > 1 && a2.mem.bitmap[0] && a2.mem.bitmap[1]
    ensures DiskBit(cfg.geo, a1.disk, 0) && !DiskBit(cfg.geo, a2.disk, 0) && DiskBit(cfg.geo, a2.disk, 1)
  {
    var g, m, disk := cfg.geo, FreshMemory(cfg.geo.count), BlankDisk(cfg.geo);
    hide Roomy, InitCheck, AddCall, Admit, Insert, Indexed, BlankDisk, WithBits, WithHeader, OnDisk, HeaderOf, DiskBit,
      TooMany, ExtentOffset, Cloned, FreshMemory, BitmapIndex, BlankDevice, LiveBlocks, HeaderBlock;
    TooManyIsAccepted();
    SecondSlot(cfg);
    AdmitNext(cfg, 0, 1);
    BlankOnDisk(cfg, 0);
    BlankOnDisk(cfg, 1);
    FreshCursor(g.count);
    var m1 := Insert(cfg, m.(cursor := 1), 0, 1);
    ClonedBlank(m1.bitmap);
    OneMark(g, disk, Indexed(HeaderOf(1), 0), Indexed(HeaderOf(2), 1), Cloned(m.bitmap), Cloned(m1.bitmap));
    AddSucceeds(cfg, m, disk, HeaderOf(1), m.(cursor := 1), 0);
    a1 := AddCall(cfg, m, disk, HeaderOf(1), Complete, Complete);
    AddSucceeds(cfg, m1, a1.disk, HeaderOf(2), m1.(cursor := 2), 1);
    a2 := AddCall(cfg, m1, a1.disk, HeaderOf(2), Complete, Complete);
    MarkedBoth(cfg, m1.(cursor := 2));
  }

  /** The device after two blank clones with one entry marked in each. */
  lemma OneMark(g: Geometry, disk: Disk, h1: Header, h2: Header, bits: seq<bool>, blank: seq<bool>)
    requires Roomy(g) && 1 < g.count == |bits| == |blank| && !blank[0] && h1.Valid() && h2.Valid()
    requires OnDisk(g, disk, 0) && OnDisk(g, disk, 1)
    ensures var d1 := WithBits(g, WithHeader(g, disk, 0, h1), 0, bits[0 := true]);
      var d2 := WithBits(g, WithHeader(g, d1, 1, h2), 1, blank[1 := true]);
      OnDisk(g, d1, 1) && DiskBit(g, d1, 0) && !DiskBit(g, d2, 0) && DiskBit(g, d2, 1)
  {
    SameBitmapBlock();
    hide Roomy, WithBits, WithHeader, OnDisk, DiskBit, BitmapIndex, HeaderBlock;
    var d1 := WithBits(g, WithHeader(g, disk, 0, h1), 0, bits[0 := true]);
    StillThere(g, disk, 0, h1, bits[0 := true], 1);
    ReadsBack(g, WithHeader(g, disk, 0, h1), 0, bits[0 := true], 0);
    ReadsBack(g, WithHeader(g, d1, 1, h2), 1, blank[1 := true], 0);
    ReadsBack(g, WithHeader(g, d1, 1, h2), 1, blank[1 := true], 1);
  }

  lemma ClonedBlank(bits: seq<bool>)
    requires |bits| >= 0x8000_0000
    ensures !Cloned(bits)[0]
  {
  }

  lemma SameBitmapBlock()
    ensures BitmapIndex(0) == BitmapIndex(1) == 0
  {
  }

  lemma MarkedBoth(cfg: Config, m: Memory)
    requires 1 < |m.bitmap| && m.bitmap[0]
    ensures var m2 := Insert(cfg, m, 1, 2); m2.bitmap[0] && m2.bitmap[1]
  {
  }

  // ---- an add and its delete ----

  /** Removing what was just inserted undoes it exactly when the id goes too. */
  lemma RemoveInserted(cfg: Config, m: Memory, m1: Memory, i: nat, id: U64)
    requires i < |m.bitmap| && !m.bitmap[i] && id !in m.offsets && m1 == m.(cursor := m1.cursor)
    ensures var m2 := Insert(cfg, m1, i, id);
      && m2 != m.(cursor := m1.cursor)
      && (Remove(cfg, m2, i, id) == m.(cursor := m1.cursor) <==> cfg.fixes.eraseOnDelete)
      && Remove(cfg, m2, i, id).bitmap == m.bitmap == m2.bitmap[i := false]
      && m2.cursor == m1.cursor && id in m2.offsets
  {
    hide ExtentOffset;
    assert m.bitmap[i := true][i := false] == m.bitmap;
    assert m.offsets[id := ExtentOffset(cfg.geo, i)] - {id} == m.offsets;
    assert m.bitmap[i := true][i];
  }

  lemma ClonedInFull(bits: seq<bool>)
    requires |bits| <= CLONE_LIMIT
    ensures Cloned(bits) == bits
  {
  }

  /**
   An add and then the delete of what it added. With the header readable and the id removed from the
   map, all of memory but the cursor is as before; in every other form it is not, and as written the
   delete fails and changes nothing. A delete that works leaves the bitmap block of the bitmap before.
   */
  lemma AddThenDelete(cfg: Config, m: Memory, disk: Disk, header: Header, m1: Memory, i: U32)
    requires Roomy(cfg.geo) && |m.bitmap| == cfg.geo.count <= CLONE_LIMIT && header.Valid()
    requires Admit(cfg, m, header.fields.extentId) == (m1, Admitted(i))
    requires i < |m.bitmap| && OnDisk(cfg.geo, disk, i)
    ensures var a := AddCall(cfg, m, disk, header, Complete, Complete);
      && a.err == Ok && a.header.Valid() && a.header.fields.bitmapIndex == i < |a.mem.bitmap|
    ensures var a := AddCall(cfg, m, disk, header, Complete, Complete);
      var d := DelCall(cfg, a.mem, a.disk, a.header, true, Complete);
      && (cfg.fixes.header.AsWritten? ==> d == DelResult(a.mem, a.disk, BlockMagicIllegal))
      && (cfg.fixes.header.Repaired? ==>
            d.err == Ok && d.disk == WithBits(cfg.geo, WithHeader(cfg.geo, disk, i, a.header), i, m.bitmap))
      && (d.mem == m.(cursor := a.mem.cursor) <==> cfg.fixes.header.Repaired? && cfg.fixes.eraseOnDelete)
  {
    var id := header.fields.extentId;
    assert m1 == m.(cursor := m1.cursor) && id !in m.offsets && !m.bitmap[i];
    hide Roomy, Admit, Indexed, AddCall, DelCall, DelRefusal, WithBits, WithHeader, OnDisk, HeaderBlock, Cloned, Insert,
      Remove;
    IndexedKeeps(header, i);
    AddSucceeds(cfg, m, disk, header, m1, i);
    var a := AddCall(cfg, m, disk, header, Complete, Complete);
    RemoveInserted(cfg, m, m1, i, id);
    DiskParts(cfg.geo, disk, i, a.header, m.bitmap[i := true], m.bitmap);
    ClonedInFull(m.bitmap);
    ClonedInFull(a.mem.bitmap);
    DelSucceeds(cfg, a.mem, a.disk, a.header, i);
  }

  // ---- ids that stay ----

  /** Add extent 1 and delete it: its id stays in the map, and the slot is free for another. */
  lemma LosesOwner(cfg: Config) returns (steps: seq<Step>, s: State)
    requires ValidConfig(cfg) && 0 < cfg.geo.count && !Sound(cfg.fixes)
    ensures Reaches(cfg, BlankDisk(cfg.geo), steps, s) && !OneOwnerEach(cfg.geo, s.mem.bitmap, s.mem.offsets)
  {
    hide Reaches, RunsTo, Leads, Roomy, OneOwnerEach, ExtentOffset, BlankDisk, BlankDevice, Initial, OnDisk;
    var first, s1, h := FirstAdd(cfg);
    var more, s2 := DeleteFirst(cfg, s1, h);
    RunsJoin(cfg, Initial(cfg, BlankDisk(cfg.geo)), first, s1, more, s2, true);
    steps, s := first + more, s2;
    BlankDiskIsBlank(cfg);
    LeadsReaches(cfg, BlankDisk(cfg.geo), steps, s, true);
    LeftInMap(cfg, s1.mem);
  }

  /** Extents keep an owner each in every run exactly when ids leave the map, or nothing can be deleted at all. */
  lemma OwnersExactly(cfg: Config)
    requires ValidConfig(cfg) && 0 < cfg.geo.count
    ensures (forall disk, steps, s | Reaches(cfg, disk, steps, s) :: OneOwnerEach(cfg.geo, s.mem.bitmap, s.mem.offsets))
      <==> Sound(cfg.fixes)
  {
    hide Reaches, Roomy, OneOwnerEach, BlankDisk;
    if Sound(cfg.fixes) {
      forall disk, steps, s | Reaches(cfg, disk, steps, s)
        ensures OneOwnerEach(cfg.geo, s.mem.bitmap, s.mem.offsets)
      {
        NoSharedExtent(cfg, disk, steps, s);
      }
    } else {
      var steps, s := LosesOwner(cfg);
    }
  }

  lemma LeftInMap(cfg: Config, m: Memory)
    requires 0 < |m.bitmap| && !cfg.fixes.eraseOnDelete && 1 in m.offsets && m.offsets[1] == ExtentOffset(cfg.geo, 0)
    ensures var m' := Remove(cfg, m, 0, 1); !OneOwnerEach(cfg.geo, m'.bitmap, m'.offsets)
  {
    hide ExtentOffset;
    var m' := Remove(cfg, m, 0, 1);
    assert !m'.bitmap[0];
  }

  // ---- the counter ----

  lemma ForeignIsTaken(cfg: Config)
    requires cfg.fixes.header.AsWritten?
    ensures Inspect(cfg, ForeignBlock(1), 1) == Ok
  {
    hide HeaderDecode, ForeignBlock;
    ForeignAccepted(BlankHeader(), 1);
  }

  function ForeignDisk(g: Geometry): Disk {
    BlankDisk(g)[HeaderBlock(g, 0) := ForeignBlock(1)]
  }

  /** With the reader as written and deletes that go on: the counter wraps on the delete of an unknown id. */
  lemma MiscountsForeign(cfg: Config) returns (steps: seq<Step>, s: State)
    requires ValidConfig(cfg) && 0 < cfg.geo.count && cfg.fixes.header.AsWritten?
    requires cfg.fixes.countUsed && !cfg.fixes.stopOnMissing
    ensures Reaches(cfg, ForeignDisk(cfg.geo), steps, s) && AllocCount(s.mem) != |Marked(s.mem.bitmap)|
  {
    var g, disk, m := cfg.geo, ForeignDisk(cfg.geo), FreshMemory(cfg.geo.count);
    ForeignIsTaken(cfg);
    FreshCursor(g.count);
    ForeignIsBlank(cfg);
    FirstDefined();
    UnknownRemoved(cfg);
    hide Reaches, RunsTo, Leads, Roomy, DelCall, DelRefusal, Inspect, ForeignDisk, ForeignBlock, BlankDevice,
      CloneDefined, FreshMemory, HeaderOf, WithBits, Remove, AllocCount, Marked, HeaderBlock, BitmapBlock, BitmapIndex;
    DelWorks(cfg, m, disk, HeaderOf(1), 0);
    steps, s := DelCallRuns(cfg, Initial(cfg, disk), HeaderOf(1), true, Complete);
    LeadsReaches(cfg, disk, steps, s, true);
  }

  lemma ForeignIsBlank(cfg: Config)
    requires Roomy(cfg.geo) && 0 < cfg.geo.count
    ensures BlankDevice(cfg, ForeignDisk(cfg.geo)) && OnDisk(cfg.geo, ForeignDisk(cfg.geo), 0)
    ensures ForeignDisk(cfg.geo)[HeaderBlock(cfg.geo, 0)] == ForeignBlock(1)
  {
    hide BlankDisk, ForeignBlock, HeaderBlock, BitmapBlock, LiveBlocks, BitmapImage, Roomy, ExtentOffset, FreshMemory;
    BlankDiskIsBlank(cfg);
    BlankOnDisk(cfg, 0);
    AddressesApart(cfg.geo);
    HeaderNotBitmap(cfg.geo, 0);
    forall b | 0 <= b < LiveBlocks(cfg.geo) ensures BitmapBlock(cfg.geo, b) != HeaderBlock(cfg.geo, 0) {
      assert BitmapBlock(cfg.geo, b) < HeaderBlock(cfg.geo, 0);
    }
  }

  lemma UnknownRemoved(cfg: Config)
    requires 0 < cfg.geo.count && cfg.fixes.countUsed
    ensures var m := Remove(cfg, FreshMemory(cfg.geo.count), 0, 1); AllocCount(m) != |Marked(m.bitmap)|
  {
    var m := Remove(cfg, FreshMemory(cfg.geo.count), 0, 1);
    assert Marked(m.bitmap) == {};
  }

  /** Add extent 1, and if it counts, delete it twice: the second time wraps the counter. */
  lemma MiscountsTwice(cfg: Config) returns (steps: seq<Step>, s: State)
    requires ValidConfig(cfg) && 0 < cfg.geo.count && (cfg.fixes.countUsed ==> cfg.fixes.header.Repaired?)
    requires !(cfg.fixes.countUsed && cfg.fixes.stopOnMissing && cfg.fixes.eraseOnDelete)
    ensures Reaches(cfg, BlankDisk(cfg.geo), steps, s) && AllocCount(s.mem) != |Marked(s.mem.bitmap)|
  {
    hide Reaches, RunsTo, Leads, Roomy, OnDisk, AllocCount, Insert, Remove, BlankDisk, BlankDevice, Initial,
      ExtentOffset;
    var start := Initial(cfg, BlankDisk(cfg.geo));
    var first, s1, h := FirstAdd(cfg);
    FirstCount(cfg);
    steps, s := first, s1;
    if cfg.fixes.countUsed {
      var second, s2 := DeleteFirst(cfg, s1, h);
      var third, s3 := DeleteFirst(cfg, s2, h);
      RunsJoin(cfg, start, first, s1, second, s2, true);
      RunsJoin(cfg, start, first + second, s2, third, s3, true);
      steps, s := first + second + third, s3;
    }
    BlankDiskIsBlank(cfg);
    LeadsReaches(cfg, BlankDisk(cfg.geo), steps, s, true);
  }

  /** A run after which the counter is wrong, for every other combination of repairs. */
  lemma Miscounts(cfg: Config) returns (disk: Disk, steps: seq<Step>, s: State)
    requires ValidConfig(cfg) && 0 < cfg.geo.count
    requires !(cfg.fixes.countUsed && cfg.fixes.stopOnMissing && Sound(cfg.fixes))
    ensures Reaches(cfg, disk, steps, s) && AllocCount(s.mem) != |Marked(s.mem.bitmap)|
  {
    hide Reaches, Roomy, AllocCount, Marked, BlankDisk, ForeignDisk;
    if cfg.fixes.countUsed && cfg.fixes.header.AsWritten? {
      disk := ForeignDisk(cfg.geo);
      steps, s := MiscountsForeign(cfg);
    } else {
      disk := BlankDisk(cfg.geo);
      steps, s := MiscountsTwice(cfg);
    }
  }

  /**
   The counter is right in every run exactly when it is kept, a missing id ends the delete, and ids
   leave the map or nothing can be deleted at all.
   */
  lemma CountExactly(cfg: Config)
    requires ValidConfig(cfg) && 0 < cfg.geo.count
    ensures (forall disk, steps, s | Reaches(cfg, disk, steps, s) :: AllocCount(s.mem) == |Marked(s.mem.bitmap)|)
      <==> cfg.fixes.countUsed && cfg.fixes.stopOnMissing && Sound(cfg.fixes)
  {
    hide Reaches, Roomy, AllocCount, Marked;
    if cfg.fixes.countUsed && cfg.fixes.stopOnMissing && Sound(cfg.fixes) {
      forall disk, steps, s | Reaches(cfg, disk, steps, s) ensures AllocCount(s.mem) == |Marked(s.mem.bitmap)| {
        Conserved(cfg, disk, steps, s);
      }
    } else {
      var disk, steps, s := Miscounts(cfg);
    }
  }

  /** The counter after the first extent came, and after it went twice. */
  lemma FirstCount(cfg: Config)
    requires 0 < cfg.geo.count
    ensures var m := Insert(cfg, FreshMemory(cfg.geo.count).(cursor := 1), 0, 1);
      && |m.bitmap| == cfg.geo.count && 1 in m.offsets
      && (!cfg.fixes.countUsed ==> AllocCount(m) != |Marked(m.bitmap)|)
      && (!cfg.fixes.eraseOnDelete ==> 1 in Remove(cfg, m, 0, 1).offsets)
      && var m2 := Remove(cfg, Remove(cfg, m, 0, 1), 0, 1);
        cfg.fixes.countUsed ==> AllocCount(m2) != |Marked(m2.bitmap)|
  {
    hide ExtentOffset;
    var m := Insert(cfg, FreshMemory(cfg.geo.count).(cursor := 1), 0, 1);
    assert Marked(m.bitmap) == {0};
    var m2 := Remove(cfg, Remove(cfg, m, 0, 1), 0, 1);
    assert Marked(m2.bitmap) == {};
  }

  // ---- an index that does not match ----

  /** Slot 1 after extent 1 came to it and went from slot 0. */
  lemma SlotOneLeft(cfg: Config, m: Memory)
    requires 1 < |m.bitmap| && m.offsets == map[] && cfg.fixes.eraseOnDelete
    ensures var m1 := Insert(cfg, m, 1, 1);
      && 1 in m1.offsets
      && var m2 := Remove(cfg, m1, 0, 1); m2.bitmap[1] && m2.offsets == map[]
  {
    hide ExtentOffset;
    assert m.offsets[1 := ExtentOffset(cfg.geo, 1)] - {1} == map[];
  }

  lemma NoOwner(g: Geometry, bits: seq<bool>, offsets: map<U64, U64>)
    requires |bits| > 1 && bits[1] && offsets == map[]
    ensures !OneOwnerEach(g, bits, offsets)
  {
    hide ExtentOffset;
  }

  lemma BackToFresh(cfg: Config)
    requires 0 < cfg.geo.count && cfg.fixes.eraseOnDelete
    ensures var m := FreshMemory(cfg.geo.count).(cursor := 1); Remove(cfg, Insert(cfg, m, 0, 1), 0, 1) == m
    ensures 1 in Insert(cfg, FreshMemory(cfg.geo.count).(cursor := 1), 0, 1).offsets
    ensures FreshMemory(cfg.geo.count).offsets == map[]
  {
    RemoveInserted(cfg, FreshMemory(cfg.geo.count), FreshMemory(cfg.geo.count).(cursor := 1), 0, 1);
  }

  /** An add to slot 1 as part of a run. */
  lemma AddToSecond(cfg: Config, s: State, h0: Header) returns (steps: seq<Step>, s': State)
    requires ValidConfig(cfg) && 1 < cfg.geo.count && Ready(cfg, s, h0)
    requires Admit(cfg, s.mem, 1) == (s.mem.(cursor := 2), Admitted(1))
    ensures Leads(cfg, s, steps, s', false) && s'.lock.Free?
    ensures s'.mem == Insert(cfg, s.mem.(cursor := 2), 1, 1)
    ensures OnDisk(cfg.geo, s'.disk, 0) && s'.disk[HeaderBlock(cfg.geo, 0)] == HeaderEncode(h0)
  {
    hide Roomy, Leads, AddCall, Admit, Insert, Indexed, HeaderEncode, HeaderBlock, WithBits, WithHeader, HeaderOf,
      ExtentOffset, WriteResult, OnDisk, CloneDefined, Cloned;
    SecondDefined();
    AddSucceeds(cfg, s.mem, s.disk, HeaderOf(1), s.mem.(cursor := 2), 1);
    HeaderStays(cfg.geo, s.disk, 0, 1, Indexed(HeaderOf(1), 1), Cloned(s.mem.bitmap)[1 := true]);
    steps, s' := AddCallRuns(cfg, s, HeaderOf(1), Complete, Complete);
    Careless(cfg, s, steps, s', true);
  }

  lemma SecondDefined()
    ensures CloneDefined(1)
  {
  }

  /**
   Why the index must match, with everything repaired: extent 1 comes, goes, and comes again to slot 1;
   the header that was right for slot 0 still passes every check, and deleting with it leaves slot 1 in
   use without an owner.
   */
  lemma StaleHeaderDelete(cfg: Config) returns (steps: seq<Step>, s: State)
    requires ValidConfig(cfg) && 1 < cfg.modulus <= cfg.geo.count
    requires cfg.fixes.eraseOnDelete && cfg.fixes.header.Repaired?
    ensures RunsTo(cfg, BlankDisk(cfg.geo), steps, s) && !OneOwnerEach(cfg.geo, s.mem.bitmap, s.mem.offsets)
  {
    hide RunsTo, Leads, Roomy, OneOwnerEach, BlankDisk, BlankDevice, Initial, OnDisk, Admit, Insert, Remove,
      FreshMemory, HeaderEncode, HeaderBlock, ExtentOffset, CloneDefined, DelCall, DelRefusal, Cloned, WithBits;
    var start := Initial(cfg, BlankDisk(cfg.geo));
    BackToFresh(cfg);
    FirstDefined();
    var p1, s1, h0 := FirstAdd(cfg);
    var p2, s2 := DeleteFirst(cfg, s1, h0);
    AdmitNext(cfg, 1, 1);
    var p3, s3 := AddToSecond(cfg, s2, h0);
    SlotOneLeft(cfg, s2.mem.(cursor := 2));
    DelSucceeds(cfg, s3.mem, s3.disk, h0, 0);
    var p4, s4 := DelCallRuns(cfg, s3, h0, true, Complete);
    Careless(cfg, start, p1, s1, true);
    Careless(cfg, s1, p2, s2, true);
    Careless(cfg, s3, p4, s4, Matched(cfg, s3.mem, Task(false, h0, Waiting)));
    RunsJoin(cfg, start, p1, s1, p2, s2, false);
    RunsJoin(cfg, start, p1 + p2, s2, p3, s3, false);
    RunsJoin(cfg, start, p1 + p2 + p3, s3, p4, s4, false);
    steps, s := p1 + p2 + p3 + p4, s4;
    BlankDiskIsBlank(cfg);
    LeadsReaches(cfg, BlankDisk(cfg.geo), steps, s, false);
    NoOwner(cfg.geo, s.mem.bitmap, s.mem.offsets);
  }

  lemma Careless(cfg: Config, s: State, steps: seq<Step>, s': State, careful: bool)
    requires Leads(cfg, s, steps, s', careful)
    ensures Leads(cfg, s, steps, s', false)
  {
  }
}
