/** What each call leaves and returns, told by the bytes on the device and by the caller's header. */
module ExtentOutcomes {
  import opened Bytes
  import opened CrcRegister
  import opened ErrorCodes
  import opened SealedBlock
  import opened PayloadBlocks
  import opened ExtentHeaders
  import opened Devices
  import opened ExtentGeometry
  import opened BitmapImages
  import opened NextFit
  import opened ExtentProtocol
  import opened ExtentCalls

  // ---- what a delete is turned away for ----

  /** Where a reader looks for the device id: as written a byte early. */
  function BodyStart(form: Form): nat {
    if form.AsWritten? then 7 else 8
  }

  /** The double check of a delete on the block it reads, told by the bytes. */
  function DelVerdict(form: Form, block: seq<bv8>, id: U64): ErrorCode {
    var p := BodyStart(form);
    if HeaderResult(block, p) != Ok then HeaderResult(block, p)
    else if block[p + 8..p + 16] != Be64(id) then InternalError
    else Ok
  }

  /** Why a delete ends before it writes, or `Ok`. */
  function DelStopsWith(cfg: Config, m: Memory, disk: Disk, id: U64, offset: nat, ok: bool): ErrorCode {
    if cfg.fixes.stopOnMissing && id !in m.offsets then ExtentNotExists
    else if offset % 4096 != 0 then NotBlockAligned
    else if !ok || offset / 4096 !in disk then IoReadAtFailed
    else DelVerdict(cfg.fixes.header, disk[offset / 4096], id)
  }

  lemma InspectTold(cfg: Config, block: seq<bv8>, id: U64)
    ensures Inspect(cfg, block, id) == DelVerdict(cfg.fixes.header, block, id)
  {
    hide HeaderDecode, Be64, HeaderResult;
    HeaderReadAs(BlankHeader(), block, cfg.fixes.header);
    if HeaderResult(block, BodyStart(cfg.fixes.header)) == Ok {
      IdTold(HeaderDecode(BlankHeader(), block, cfg.fixes.header).0, block, BodyStart(cfg.fixes.header), id);
    }
  }

  lemma IdTold(h: Header, block: seq<bv8>, p: nat, id: U64)
    requires 7 <= p <= 8 && HeaderResult(block, p) == Ok
    requires |block| == 4096 && MagicsRight(block, p) ==> HeaderLies(block, p, h)
    ensures |block| == 4096 && (h.fields.extentId == id <==> block[p + 8..p + 16] == Be64(id))
  {
    hide Be32, Be64, CrcRight, FooterLies;
  }

  lemma RefusalTold(cfg: Config, m: Memory, disk: Disk, header: Header, ok: bool)
    ensures DelRefusal(cfg, m, disk, header, ok)
      == DelStopsWith(cfg, m, disk, header.fields.extentId, ExtentOffset(cfg.geo, header.fields.bitmapIndex), ok)
  {
    hide Inspect, DelVerdict, ExtentOffset;
    var offset := ExtentOffset(cfg.geo, header.fields.bitmapIndex);
    if IsBlockAlign(offset) {
      OneBlockRead(disk, offset, ok);
      if ok && offset / 4096 in disk {
        InspectTold(cfg, disk[offset / 4096], header.fields.extentId);
      }
    }
  }

  /**
   A delete that changes anything or reports success has read, from the extent its index names, a block with
   both magics and the CRC in order whose id is the caller's, each where the reader looks for it. Otherwise
   nothing changes, and the result says what was wrong.
   */
  lemma DeleteDecided(cfg: Config, m: Memory, disk: Disk, header: Header, ok: bool, done: Completion)
    requires header.Valid()
    ensures var r, id := DelCall(cfg, m, disk, header, ok, done), header.fields.extentId;
      var offset, p := ExtentOffset(cfg.geo, header.fields.bitmapIndex), BodyStart(cfg.fixes.header);
      var stops := DelStopsWith(cfg, m, disk, id, offset, ok);
      && (stops != Ok ==> r == DelResult(m, disk, stops))
      && (r.mem != m || r.disk != disk || r.err == Ok ==>
            && ok && offset % 4096 == 0 && offset / 4096 in disk
            && var block := disk[offset / 4096];
            && |block| == 4096 && block[..4] == MAGIC_BYTES && block[p + 4056..p + 4060] == MAGIC_BYTES
            && block[p + 4084..p + 4088] == CrcBytes(Crc(block[..p + 4084]))
            && block[p + 8..p + 16] == Be64(id))
  {
    RefusalTold(cfg, m, disk, header, ok);
    DeleteStops(cfg, m, disk, header, ok, done);
    hide DelCall, DelRefusal, ExtentOffset, Be64, Crc, CrcBytes;
  }

  lemma DeleteStops(cfg: Config, m: Memory, disk: Disk, header: Header, ok: bool, done: Completion)
    requires header.Valid()
    ensures var r, err := DelCall(cfg, m, disk, header, ok, done), DelRefusal(cfg, m, disk, header, ok);
      err != Ok ==> r == DelResult(m, disk, err)
  {
    hide DelRefusal;
  }

  // ---- what a call that is not turned away leaves ----

  /** Block `k` written: it arrives if it is on the device and the write gets that far. */
  function BlockWritten(disk: Disk, k: nat, bytes: seq<bv8>, done: Completion): (Disk, ErrorCode) {
    if k !in disk || (done.Failed? && done.landed != 1) then (disk, IoWriteAtFailed)
    else (disk[k := bytes], if done.Complete? then Ok else IoWriteAtFailed)
  }

  lemma OneBlockWritten(disk: Disk, offset: nat, buf: seq<bv8>, done: Completion)
    requires IsBlockAlign(offset) && |buf| == BLOCK_SIZE
    ensures WriteResult(disk, offset, buf, done) == BlockWritten(disk, offset / BLOCK_SIZE, buf, done)
  {
    hide WriteResult;
    OneBlockWrite(disk, offset, buf, done);
  }

  /** Memory without the extent in slot `i`. */
  function Freed(cfg: Config, m: Memory, i: nat, id: U64): Memory
    requires i < |m.bitmap|
  {
    Memory(m.bitmap[i := false], m.cursor,
      if cfg.fixes.countUsed then (m.used - 1) % 0x1_0000_0000 else m.used,
      if cfg.fixes.eraseOnDelete then m.offsets - {id} else m.offsets)
  }

  function BitmapPlace(g: Geometry, i: nat): nat {
    g.offset / 4096 + i / 4064
  }

  function HeaderPlace(g: Geometry, i: nat): nat {
    g.extentsOffset / 4096 + i * (g.extentSize / 4096)
  }

  lemma BitmapPlaceIs(g: Geometry, i: nat)
    requires Roomy(g) && i < g.count
    ensures BitmapPlace(g, i) == BitmapOffset(g, BitmapIndex(i)) / BLOCK_SIZE
    ensures IsBlockAlign(BitmapOffset(g, BitmapIndex(i))) && BitmapIndex(i) == i / 4064
  {
    LiveIndex(g, i);
    BitmapAddress(g, BitmapIndex(i));
  }

  lemma HeaderPlaceIs(g: Geometry, i: nat)
    requires Roomy(g) && i < g.count
    ensures HeaderPlace(g, i) == ExtentOffset(g, i) / BLOCK_SIZE && IsBlockAlign(ExtentOffset(g, i))
    ensures ExtentOffset(g, i) == g.extentsOffset + i * g.extentSize
  {
    ExtentAddress(g, i);
  }

  /** A delete whose checks pass: the bitmap block with the entry cleared, and memory if the write succeeds. */
  lemma DeleteGoesOn(cfg: Config, m: Memory, disk: Disk, header: Header, ok: bool, done: Completion, i: U32)
    requires Roomy(cfg.geo) && |m.bitmap| == cfg.geo.count <= CLONE_LIMIT && header.Valid()
    requires i == header.fields.bitmapIndex < cfg.geo.count
    requires DelStopsWith(cfg, m, disk, header.fields.extentId, ExtentOffset(cfg.geo, i), ok) == Ok
    ensures var r := DelCall(cfg, m, disk, header, ok, done);
      && (r.disk, r.err)
        == BlockWritten(disk, BitmapPlace(cfg.geo, i), BitmapImage(m.bitmap[i := false], i / 4064), done)
      && r.mem == if r.err == Ok then Freed(cfg, m, i, header.fields.extentId) else m
  {
    hide DelStopsWith, DelRefusal, Roomy, BitmapImage, BitmapIndex, BitmapOffset, ExtentOffset, WriteResult,
      BitmapPlace, BlockWritten, CloneImage;
    RefusalTold(cfg, m, disk, header, ok);
    BitmapWriteTold(cfg.geo, m.bitmap, disk, i, false, done);
  }

  // ---- the caller's header ----

  /** `h` is `came` with slot `i`, both magics and the CRC of its block, and every other field as it came. */
  ghost predicate SetFrom(came: Header, h: Header, i: U32) {
    && h == came.(start := came.start.(magic := 0x2025_0430), fields := came.fields.(bitmapIndex := i),
         footer := came.footer.(magic := 0x2025_0430, crc := h.footer.crc))
    && h.Valid() && h.footer.crc == Crc(HeaderEncode(h)[..4092])
  }

  lemma IndexedSets(came: Header, i: U32)
    requires came.Valid()
    ensures SetFrom(came, Indexed(came, i), i)
    ensures HeaderStamped(Indexed(came, i)) == Indexed(came, i)
  {
    var h0 := came.(fields := came.fields.(bitmapIndex := i));
    StampedAgain(h0);
    CoveredBytes(Indexed(came, i));
    hide HeaderEncode, HeaderCovered, Crc;
  }

  lemma IndexedReads(v0: Header, came: Header, i: U32)
    requires v0.Valid() && came.Valid()
    ensures HeaderDecode(v0, HeaderEncode(Indexed(came, i)), Repaired) == (Indexed(came, i), ErrorCode.Ok)
  {
    hide HeaderDecode, HeaderEncode, HeaderStamped, Indexed, SetFrom;
    IndexedSets(came, i);
    HeaderRoundTrip(v0, Indexed(came, i));
  }

  /** A header that has been stamped is not changed by it again. */
  lemma StampedAgain(h: Header)
    requires h.Valid()
    ensures HeaderStamped(HeaderStamped(h)) == HeaderStamped(h)
    ensures HeaderStamped(h).footer.crc == Crc(HeaderCovered(HeaderStamped(h)))
  {
    hide StartBytes, FieldBytes, FooterBytes, Crc;
    StampedParts(h);
  }

  // ---- an add ----

  /**
   An add of an id that the map has, or else one when the counter equals the count, ends there: nothing changes,
   the cursor included. One that finds no slot moves the cursor alone. No other add gets these codes.
   */
  lemma AddTurnedAway(cfg: Config, m: Memory, disk: Disk, header: Header, done1: Completion, done2: Completion)
    requires header.Valid() && |m.bitmap| == cfg.geo.count && (0 < cfg.geo.count ==> 0 < cfg.modulus <= cfg.geo.count)
    ensures var a, id := AddCall(cfg, m, disk, header, done1, done2), header.fields.extentId;
      if id in m.offsets then a == AddResult(m, disk, header, ExtentAlreadyExists)
      else if m.used == cfg.geo.count then a == AddResult(m, disk, header, FsFull)
      else if forall i | 0 <= i < cfg.modulus && i < cfg.geo.count :: m.bitmap[i] then
        a == AddResult(m.(cursor := a.mem.cursor), disk, header, CodeError)
      else a.err == Ok || a.err == IoWriteAtFailed || a.err == NotBlockAligned
  {
    var id := header.fields.extentId;
    AdmitCases(cfg, m, id);
    hide StoreCall, Admit;
    var (m1, admission) := Admit(cfg, m, id);
    if admission.Admitted? {
      StoreFails(cfg, m1, disk, header, admission.index, done1, done2);
    }
  }

  lemma AdmitCases(cfg: Config, m: Memory, id: U64)
    requires |m.bitmap| == cfg.geo.count && (0 < cfg.geo.count ==> 0 < cfg.modulus <= cfg.geo.count)
    ensures var (m1, admission) := Admit(cfg, m, id);
      if id in m.offsets then m1 == m && admission == Refused(ExtentAlreadyExists)
      else if m.used == cfg.geo.count then m1 == m && admission == Refused(FsFull)
      else if forall i | 0 <= i < cfg.modulus && i < cfg.geo.count :: m.bitmap[i] then
        m1 == m.(cursor := m1.cursor) && admission == Refused(CodeError)
      else admission.Admitted?
  {
    hide Scan;
    if cfg.geo.count != 0 {
      ScanComplete(m.bitmap, m.cursor, cfg.modulus);
    } else {
      ScanNothing(m.bitmap, m.cursor, cfg.modulus);
    }
  }

  lemma StoreFails(cfg: Config, m: Memory, disk: Disk, header: Header, i: U32, done1: Completion, done2: Completion)
    requires header.Valid() && i < |m.bitmap|
    ensures var err := StoreCall(cfg, m, disk, header, i, done1, done2).err;
      err == Ok || err == IoWriteAtFailed || err == NotBlockAligned
  {
    hide Indexed, HeaderEncode, CloneImage, ExtentOffset, BitmapOffset, Insert;
  }

  /** Memory with the extent `id` in slot `i`. */
  function Taken(cfg: Config, m: Memory, i: nat, id: U64): Memory
    requires i < |m.bitmap|
  {
    Memory(m.bitmap[i := true], m.cursor,
      if cfg.fixes.countUsed then (m.used + 1) % 0x1_0000_0000 else m.used,
      m.offsets[id := (cfg.geo.extentsOffset + i * cfg.geo.extentSize) % 0x1_0000_0000_0000_0000])
  }

  /** What an add leaves once slot `i` is found, with `h` the header it writes. */
  function Stored(cfg: Config, m: Memory, disk: Disk, h: Header, i: nat, done1: Completion, done2: Completion)
    : AddResult
    requires h.Valid() && i < |m.bitmap|
  {
    var (d1, err1) := BlockWritten(disk, HeaderPlace(cfg.geo, i), HeaderEncode(h), done1);
    if err1 != Ok then AddResult(m, d1, h, err1)
    else
      var (d2, err2) :=
        BlockWritten(d1, BitmapPlace(cfg.geo, i), BitmapImage(m.bitmap[i := true], i / 4064), done2);
      AddResult(if err2 == Ok then Taken(cfg, m, i, h.fields.extentId) else m, d2, h, err2)
  }

  lemma HeaderWriteTold(g: Geometry, disk: Disk, h: Header, i: nat, done: Completion)
    requires Roomy(g) && i < g.count && h.Valid()
    ensures WriteResult(disk, ExtentOffset(g, i), HeaderEncode(h), done)
      == BlockWritten(disk, HeaderPlace(g, i), HeaderEncode(h), done)
  {
    HeaderPlaceIs(g, i);
    hide Roomy, HeaderEncode, WriteResult, HeaderPlace, BlockWritten, ExtentOffset;
    OneBlockWritten(disk, ExtentOffset(g, i), HeaderEncode(h), done);
  }

  lemma BitmapWriteTold(g: Geometry, bits: seq<bool>, disk: Disk, i: nat, used: bool, done: Completion)
    requires Roomy(g) && i < g.count == |bits| <= CLONE_LIMIT
    ensures WriteResult(disk, BitmapOffset(g, BitmapIndex(i)), CloneImage(bits, i, used), done)
      == BlockWritten(disk, BitmapPlace(g, i), BitmapImage(bits[i := used], i / 4064), done)
  {
    BitmapPlaceIs(g, i);
    hide Roomy, WriteResult, BitmapPlace, BlockWritten, BitmapOffset, BitmapImage, BitmapIndex;
    OneBlockWritten(disk, BitmapOffset(g, BitmapIndex(i)), CloneImage(bits, i, used), done);
  }

  lemma StoreTold(cfg: Config, m: Memory, disk: Disk, header: Header, i: U32, done1: Completion, done2: Completion)
    requires Roomy(cfg.geo) && i < |m.bitmap| == cfg.geo.count <= CLONE_LIMIT && header.Valid()
    ensures StoreCall(cfg, m, disk, header, i, done1, done2)
      == Stored(cfg, m, disk, Indexed(header, i), i, done1, done2)
  {
    hide Roomy, Indexed, HeaderEncode, BitmapImage, BitmapIndex, BitmapOffset, WriteResult, BitmapPlace, HeaderPlace,
      BlockWritten, ExtentOffset, CloneImage, Insert, Taken;
    var h := Indexed(header, i);
    IndexedKeeps(header, i);
    HeaderWriteTold(cfg.geo, disk, h, i, done1);
    BitmapWriteTold(cfg.geo, m.bitmap, BlockWritten(disk, HeaderPlace(cfg.geo, i), HeaderEncode(h), done1).0, i, true,
      done2);
    TakenIs(cfg, m, i, header.fields.extentId);
  }

  lemma TakenIs(cfg: Config, m: Memory, i: nat, id: U64)
    requires i < |m.bitmap|
    ensures Insert(cfg, m, i, id) == Taken(cfg, m, i, id)
  {
  }

  /**
   An add that finds slot `i`: the header that comes back is the caller's with the index, both magics and the
   CRC set and nothing else changed; it is what the header block decodes to once it has landed; and memory,
   device and result are those of the two writes.
   */
  lemma AddDecided(cfg: Config, m: Memory, disk: Disk, header: Header, m1: Memory, i: U32, done1: Completion,
      done2: Completion)
    requires Roomy(cfg.geo) && |m.bitmap| == cfg.geo.count <= CLONE_LIMIT && header.Valid()
    requires Admit(cfg, m, header.fields.extentId) == (m1, Admitted(i)) && i < |m1.bitmap| == cfg.geo.count
    ensures var a := AddCall(cfg, m, disk, header, done1, done2);
      && SetFrom(header, a.header, i)
      && a == Stored(cfg, m1, disk, a.header, i, done1, done2)
      && forall v0: Header | v0.Valid() ::
           HeaderDecode(v0, HeaderEncode(a.header), Repaired) == (a.header, ErrorCode.Ok)
  {
    hide Roomy, Admit, Indexed, StoreCall, Stored, SetFrom, HeaderDecode, HeaderEncode;
    IndexedSets(header, i);
    forall v0: Header | v0.Valid()
      ensures HeaderDecode(v0, HeaderEncode(Indexed(header, i)), Repaired) == (Indexed(header, i), ErrorCode.Ok)
    {
      IndexedReads(v0, header, i);
    }
    StoreTold(cfg, m1, disk, header, i, done1, done2);
    StoredHeader(cfg, m1, disk, Indexed(header, i), i, done1, done2);
  }

  lemma StoredHeader(cfg: Config, m: Memory, disk: Disk, h: Header, i: nat, done1: Completion, done2: Completion)
    requires h.Valid() && i < |m.bitmap|
    ensures Stored(cfg, m, disk, h, i, done1, done2).header == h
  {
    hide BlockWritten, HeaderEncode, BitmapImage;
  }

  /**
   Whatever the geometry, an add that finds slot `i` returns the caller's header set for it, and that is what the
   header block decodes to once it has landed, unless the bitmap block lies in the same place.
   */
  lemma HeaderOnDevice(cfg: Config, m: Memory, disk: Disk, header: Header, m1: Memory, i: U32, done1: Completion,
      done2: Completion)
    requires |m.bitmap| <= 0x1_0000_0000 && header.Valid()
    requires Admit(cfg, m, header.fields.extentId) == (m1, Admitted(i)) && i < |m1.bitmap|
    ensures var a, k := AddCall(cfg, m, disk, header, done1, done2), ExtentOffset(cfg.geo, i) / 4096;
      && SetFrom(header, a.header, i)
      && (ExtentOffset(cfg.geo, i) % 4096 == 0 && k in disk && (done1.Complete? || done1.landed == 1)
          && BitmapOffset(cfg.geo, i / 4064) / 4096 != k ==>
            && k in a.disk
            && forall v0: Header | v0.Valid() :: HeaderDecode(v0, a.disk[k], Repaired) == (a.header, ErrorCode.Ok))
  {
    hide Admit, SetFrom, HeaderDecode, HeaderEncode, StoreCall, ExtentOffset, BitmapOffset, Indexed;
    IndexedSets(header, i);
    StoredOn(cfg, m1, disk, header, i, done1, done2);
    forall v0: Header | v0.Valid()
      ensures HeaderDecode(v0, HeaderEncode(Indexed(header, i)), Repaired) == (Indexed(header, i), ErrorCode.Ok)
    {
      IndexedReads(v0, header, i);
    }
  }

  lemma StoredOn(cfg: Config, m: Memory, disk: Disk, header: Header, i: U32, done1: Completion, done2: Completion)
    requires header.Valid() && i < |m.bitmap|
    ensures var a, k := StoreCall(cfg, m, disk, header, i, done1, done2), ExtentOffset(cfg.geo, i) / 4096;
      && a.header == Indexed(header, i)
      && (ExtentOffset(cfg.geo, i) % 4096 == 0 && k in disk && (done1.Complete? || done1.landed == 1)
          && BitmapOffset(cfg.geo, i / 4064) / 4096 != k ==>
            k in a.disk && a.disk[k] == HeaderEncode(Indexed(header, i)))
  {
    hide HeaderEncode, CloneImage, Insert, ExtentOffset, BitmapOffset, WriteResult, Indexed;
    var h, offset := Indexed(header, i), ExtentOffset(cfg.geo, i);
    if offset % 4096 == 0 && offset / 4096 in disk && BitmapOffset(cfg.geo, i / 4064) / 4096 != offset / 4096 {
      OneBlockWritten(disk, offset, HeaderEncode(h), done1);
      OtherBlocksStay(WriteResult(disk, offset, HeaderEncode(h), done1).0, BitmapOffset(cfg.geo, BitmapIndex(i)),
        CloneImage(m.bitmap, i, true), done2, offset / 4096);
    }
  }

  lemma OtherBlocksStay(disk: Disk, offset: nat, buf: seq<bv8>, done: Completion, k: nat)
    requires |buf| == BLOCK_SIZE && k in disk && offset / 4096 != k
    ensures var (after, _) := WriteResult(disk, offset, buf, done); k in after && after[k] == disk[k]
  {
    hide WriteResult;
    if offset % 4096 == 0 {
      OneBlockWritten(disk, offset, buf, done);
    } else {
      Misplaced(disk, offset, buf, done);
    }
  }

  lemma Misplaced(disk: Disk, offset: nat, buf: seq<bv8>, done: Completion)
    requires offset % 4096 != 0
    ensures WriteResult(disk, offset, buf, done) == (disk, NotBlockAligned)
  {
  }
}
