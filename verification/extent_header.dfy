/** `ExtentHeaderBlock`: who owns an extent, and which bit of the bitmap stands for it. */
module ExtentHeaders {
  import opened Bytes
  import opened CrcRegister
  import opened CrcTable
  import opened SealedBlock
  import opened ErrorCodes
  import opened PayloadBlocks

  const RESERVED: nat := 4020

  /** The first eight bytes. The union with the 16-bit replica count is its two shard counts. */
  datatype Start = Start(magic: U32, version: bv8, shardId: bv8, dataShards: bv8, codeShards: bv8)

  datatype Fields = Fields(
    deviceId: U64,
    extentId: U64,
    capacity: U32,
    physicalUsed: U32,
    logicalUsed: U32,
    redundantType: bv8,
    isSealed: bv8,
    isMigrating: bv8,
    corrupted: bv8,
    bitmapIndex: U32)

  /** The fields of the block in their order, in groups. */
  datatype Header = Header(start: Start, fields: Fields, reserved: seq<bv8>, footer: BlockFooter) {
    predicate Valid() {
      |reserved| == RESERVED && footer.Valid()
    }
  }

  function StartBytes(s: Start): (bytes: seq<bv8>)
    ensures |bytes| == 8
  {
    Be32(MAGIC) + [s.version, s.shardId, s.dataShards, s.codeShards]
  }

  function FieldBytes(f: Fields): (bytes: seq<bv8>)
    ensures |bytes| == 36
  {
    Be64(f.deviceId) + Be64(f.extentId) + Be32(f.capacity) + Be32(f.physicalUsed) + Be32(f.logicalUsed)
      + [f.redundantType, f.isSealed, f.isMigrating, f.corrupted] + Be32(f.bitmapIndex)
  }

  function HeaderCovered(v: Header): (covered: seq<bv8>)
    requires v.Valid()
    ensures |covered| == COVERED
  {
    StartBytes(v.start) + FieldBytes(v.fields) + v.reserved + FooterBytes(v.footer)
  }

  function HeaderEncode(v: Header): (block: seq<bv8>)
    requires v.Valid()
    ensures |block| == BLOCK_SIZE
  {
    Seal(HeaderCovered(v))
  }

  function HeaderStamped(v: Header): (s: Header)
    requires v.Valid()
    ensures s.Valid()
  {
    v.(start := v.start.(magic := MAGIC), footer := v.footer.(magic := MAGIC, crc := Crc(HeaderCovered(v))))
  }

  /** Where the device id is read: as written, the code shard count is not, and all that follows is a byte early. */
  function FieldsStart(form: Form): (p: nat)
    ensures p == 7 || p == 8
  {
    if form.AsWritten? then 7 else 8
  }

  function FieldsAt(data: seq<bv8>, p: nat): Fields
    requires p + 36 <= |data|
  {
    Fields(Get64(data[p..p + 8]), Get64(data[p + 8..p + 16]), Get32(data[p + 16..p + 20]),
      Get32(data[p + 20..p + 24]), Get32(data[p + 24..p + 28]), data[p + 28], data[p + 29], data[p + 30],
      data[p + 31], Get32(data[p + 32..p + 36]))
  }

  /** Everything but the footer. The code shard count keeps its old value `kept` when it is not read. */
  function BodyAt(data: seq<bv8>, form: Form, kept: bv8, footer: BlockFooter): (v: Header)
    requires |data| == BLOCK_SIZE && footer.Valid()
    ensures v.Valid() && v.footer == footer
  {
    var p := FieldsStart(form);
    Header(Start(Get32(data[..4]), data[4], data[5], data[6], if form.AsWritten? then kept else data[7]),
      FieldsAt(data, p), data[p + 36..p + 36 + RESERVED], footer)
  }

  function HeaderDecode(v0: Header, data: seq<bv8>, form: Form): (r: (Header, ErrorCode))
    requires v0.Valid()
    ensures r.0.Valid()
  {
    if |data| != BLOCK_SIZE then (v0, BlockSizeIllegal)
    else
      var magic := Get32(data[..4]);
      if magic != MAGIC then (v0.(start := v0.start.(magic := magic)), BlockMagicIllegal)
      else
        var p := FieldsStart(form);
        var footer := FooterAt(data, p + 4056);
        var kept := v0.start.codeShards;
        if footer.magic != MAGIC then
          (BodyAt(data, form, kept, v0.footer.(magic := footer.magic)), BlockMagicIllegal)
        else
          (BodyAt(data, form, kept, footer), if Crc(data[..p + 4084]) == footer.crc then Ok else BlockCrcMismatch)
  }

  // ---- slices ----

  lemma FieldSlices(f: Fields)
    ensures var b := FieldBytes(f);
      && b[0..8] == Be64(f.deviceId) && b[8..16] == Be64(f.extentId) && b[16..20] == Be32(f.capacity)
      && b[20..24] == Be32(f.physicalUsed) && b[24..28] == Be32(f.logicalUsed)
      && b[28] == f.redundantType && b[29] == f.isSealed && b[30] == f.isMigrating && b[31] == f.corrupted
      && b[32..36] == Be32(f.bitmapIndex)
  {
    hide Be32, Be64;
  }

  lemma FieldsDecode(f: Fields, data: seq<bv8>, p: nat)
    requires p + 36 <= |data| && data[p..p + 36] == FieldBytes(f)
    ensures FieldsAt(data, p) == f
  {
    hide Get32, Get64, Be32, Be64, FieldBytes;
    FieldSlices(f);
    SubSlice(data, p, 36, 0, 8);
    SubSlice(data, p, 36, 8, 16);
    SubSlice(data, p, 36, 16, 20);
    SubSlice(data, p, 36, 20, 24);
    SubSlice(data, p, 36, 24, 28);
    SubSlice(data, p, 36, 32, 36);
    var d := data[p..p + 36];
    assert data[p + 28] == d[28] && data[p + 29] == d[29] && data[p + 30] == d[30] && data[p + 31] == d[31];
  }

  lemma FieldsEncode(data: seq<bv8>, p: nat)
    requires p + 36 <= |data|
    ensures FieldBytes(FieldsAt(data, p)) == data[p..p + 36]
  {
    hide Get32, Get64, Be32, Be64;
    assert data[p..p + 36] == data[p..p + 8] + data[p + 8..p + 16] + data[p + 16..p + 20] + data[p + 20..p + 24]
      + data[p + 24..p + 28] + [data[p + 28], data[p + 29], data[p + 30], data[p + 31]] + data[p + 32..p + 36];
  }

  /** Where the parts of a header lie. */
  lemma HeaderSlices(data: seq<bv8>, start: seq<bv8>, fields: seq<bv8>, reserved: seq<bv8>, footer: seq<bv8>)
    requires |data| == BLOCK_SIZE && |start| == 8 && |fields| == 36 && |reserved| == RESERVED && |footer| == 28
    requires data[..COVERED] == start + fields + reserved + footer
    ensures data[..8] == start && data[8..44] == fields && data[44..DATA_SIZE] == reserved
    ensures data[DATA_SIZE..DATA_SIZE + 28] == footer
  {
    var covered := data[..COVERED];
    assert data[..8] == covered[..8] && data[8..44] == covered[8..44];
    assert data[44..DATA_SIZE] == covered[44..DATA_SIZE] && data[DATA_SIZE..COVERED] == covered[DATA_SIZE..];
  }

  lemma EncodedSlices(v: Header)
    requires v.Valid()
    ensures var data := HeaderEncode(v);
      && data[..8] == StartBytes(v.start)
      && data[8..44] == FieldBytes(v.fields)
      && data[44..DATA_SIZE] == v.reserved
      && data[DATA_SIZE..DATA_SIZE + 28] == FooterBytes(v.footer)
  {
    HeaderSlices(HeaderEncode(v), StartBytes(v.start), FieldBytes(v.fields), v.reserved, FooterBytes(v.footer));
  }

  // ---- what reading back gives ----

  /** With the missing byte read, reading back restores every field, whatever the block is read into. */
  lemma HeaderRoundTrip(v0: Header, v: Header)
    requires v0.Valid() && v.Valid()
    ensures HeaderDecode(v0, HeaderEncode(v), Repaired) == (HeaderStamped(v), Ok)
  {
    var data := HeaderEncode(v);
    hide FieldsAt, FooterAt, FieldBytes, FooterBytes, StartBytes, HeaderCovered, HeaderDecode, Get32, Be32, CrcBytes,
      ReadCrc, Crc;
    EncodedSlices(v);
    StartDecodes(v.start, data);
    FieldsDecode(v.fields, data, 8);
    FooterOfEncoded(v);
    DecodeParts(v0, v, data);
  }

  lemma FooterOfEncoded(v: Header)
    requires v.Valid()
    ensures FooterAt(HeaderEncode(v), DATA_SIZE) == HeaderStamped(v).footer
  {
    var data := HeaderEncode(v);
    hide FooterAt, FieldBytes, FooterBytes, StartBytes, HeaderCovered, HeaderEncode, CrcBytes, ReadCrc, Crc;
    hide HeaderStamped;
    EncodedFooter(v);
    StampedFooter(v);
    FooterDecodes(data, DATA_SIZE, v.footer);
    CrcRoundTrip(Crc(HeaderCovered(v)), data[DATA_SIZE + 28..DATA_SIZE + 32]);
  }

  lemma EncodedFooter(v: Header)
    requires v.Valid()
    ensures HeaderEncode(v)[DATA_SIZE..DATA_SIZE + 28] == FooterBytes(v.footer)
    ensures HeaderEncode(v)[DATA_SIZE + 28..DATA_SIZE + 32] == CrcBytes(Crc(HeaderCovered(v)))
  {
    hide FieldBytes, FooterBytes, StartBytes, HeaderCovered, HeaderEncode, CrcBytes, Crc;
    EncodedSlices(v);
    EncodedCrc(v);
    assert HeaderEncode(v)[COVERED..] == HeaderEncode(v)[DATA_SIZE + 28..DATA_SIZE + 32];
  }

  lemma StampedFooter(v: Header)
    requires v.Valid()
    ensures HeaderStamped(v).footer == v.footer.(magic := MAGIC, crc := Crc(HeaderCovered(v)))
  {
    hide HeaderCovered, Crc;
  }

  lemma EncodedCrc(v: Header)
    requires v.Valid()
    ensures HeaderEncode(v)[COVERED..] == CrcBytes(Crc(HeaderCovered(v)))
  {
    hide HeaderCovered, CrcBytes, Crc;
  }

  lemma DecodeParts(v0: Header, v: Header, data: seq<bv8>)
    requires v0.Valid() && v.Valid() && |data| == BLOCK_SIZE && data[..COVERED] == HeaderCovered(v)
    requires Get32(data[..4]) == MAGIC && data[4] == v.start.version && data[5] == v.start.shardId
    requires data[6] == v.start.dataShards && data[7] == v.start.codeShards
    requires FieldsAt(data, 8) == v.fields && data[44..DATA_SIZE] == v.reserved
    requires FooterAt(data, DATA_SIZE) == HeaderStamped(v).footer
    ensures HeaderDecode(v0, data, Repaired) == (HeaderStamped(v), Ok)
  {
    hide FieldsAt, FooterAt, HeaderCovered, Get32, Crc;
    assert 8 + 4084 == COVERED && 8 + 4056 == DATA_SIZE;
  }

  lemma StartDecodes(s: Start, data: seq<bv8>)
    requires |data| == BLOCK_SIZE && data[..8] == StartBytes(s)
    ensures data[..4] == Be32(MAGIC) && Get32(data[..4]) == MAGIC
    ensures data[4] == s.version && data[5] == s.shardId && data[6] == s.dataShards && data[7] == s.codeShards
  {
    var d := data[..8];
    assert data[..4] == d[..4] == Be32(MAGIC);
    assert data[4] == d[4] && data[5] == d[5] && data[6] == d[6] && data[7] == d[7];
  }

  /** What `Serialize` writes into its own fields does not change what it writes to the block. */
  lemma StampedEncodesSame(v: Header)
    requires v.Valid()
    ensures HeaderEncode(HeaderStamped(v)) == HeaderEncode(v)
  {
    hide Seal, StartBytes, FieldBytes, FooterBytes;
    StampedParts(v);
  }

  lemma StampedParts(v: Header)
    requires v.Valid()
    ensures StartBytes(HeaderStamped(v).start) == StartBytes(v.start)
    ensures FooterBytes(HeaderStamped(v).footer) == FooterBytes(v.footer)
  {
    hide Be16, Be32, Be64, HeaderCovered, Crc;
  }

  /** What comes out of a block that is read in full does not depend on what was in the object before. */
  lemma DecodeForgets(v0: Header, v1: Header, data: seq<bv8>, form: Form)
    requires v0.Valid() && v1.Valid()
    ensures HeaderDecode(v0, data, form).1 == HeaderDecode(v1, data, form).1
    ensures HeaderDecode(v0, data, form).1 == Ok ==>
      HeaderDecode(v0, data, form).0.fields == HeaderDecode(v1, data, form).0.fields
  {
    hide Crc, FooterAt, FieldsAt, Get32;
  }

  /** As written, no header that was ever serialized can be read back: the footer magic is looked for a byte early. */
  lemma HeaderAsWrittenIsUnreadable(v0: Header, v: Header)
    requires v0.Valid() && v.Valid()
    ensures HeaderDecode(v0, HeaderEncode(v), AsWritten).1 == BlockMagicIllegal
  {
    var data := HeaderEncode(v);
    FooterStarts(v);
    hide HeaderEncode, StartBytes, FieldBytes, FooterBytes, FooterAt, BodyAt, Crc;
    EncodedSlices(v);
    StartDecodes(v.start, data);
    hide Be32, Get32;
    EarlyMagic(data);
  }

  lemma FooterStarts(v: Header)
    requires v.Valid()
    ensures FooterBytes(v.footer)[0] == 0x20
  {
    MagicBytes();
    hide Be16, Be32, Be64;
  }

  /** A block with the footer in its place does not show the magic a byte before. */
  lemma EarlyMagic(data: seq<bv8>)
    requires |data| == BLOCK_SIZE && data[DATA_SIZE..DATA_SIZE + 28][0] == 0x20
    ensures Get32(data[DATA_SIZE - 1..DATA_SIZE + 3]) != MAGIC
  {
    MagicBytes();
    hide Be32, Get32;
    var found := data[DATA_SIZE - 1..DATA_SIZE + 3];
    assert found[1] == data[DATA_SIZE];
    assert Be32(Get32(found)) == found;
  }

  /** Data that `Serialize` never wrote and that the reader as written takes for a header of extent `id`. */
  function ForeignFront(id: U64): (front: seq<bv8>)
    ensures |front| == 4091
  {
    Be32(MAGIC) + Zeros(11) + Be64(id) + Zeros(4040) + Be32(MAGIC) + Zeros(24)
  }

  function ForeignBlock(id: U64): (block: seq<bv8>)
    ensures |block| == BLOCK_SIZE
  {
    ForeignFront(id) + CrcBytes(Crc(ForeignFront(id))) + [0]
  }

  lemma ForeignSlices(id: U64)
    ensures var block := ForeignBlock(id);
      && block[..4] == Be32(MAGIC) && block[15..23] == Be64(id) && block[4063..4067] == Be32(MAGIC)
      && block[..4091] == ForeignFront(id) && block[4091..4095] == CrcBytes(Crc(ForeignFront(id)))
  {
    hide Be32, Be64, Crc, CrcBytes;
    var front, block := ForeignFront(id), ForeignBlock(id);
    assert block[..4091] == front;
    assert front[..4] == Be32(MAGIC) && front[15..23] == Be64(id) && front[4063..4067] == Be32(MAGIC);
    assert block[..4] == front[..4] && block[15..23] == front[15..23] && block[4063..4067] == front[4063..4067];
  }

  lemma NumberFields(block: seq<bv8>, id: U64)
    requires |block| == BLOCK_SIZE && block[..4] == Be32(MAGIC) && block[15..23] == Be64(id)
    requires block[4063..4067] == Be32(MAGIC)
    ensures Get32(block[..4]) == MAGIC && Get64(block[15..23]) == id && Get32(block[4063..4067]) == MAGIC
  {
  }

  /** The reader as written is not merely broken: it accepts other data, and finds any extent id there. */
  lemma ForeignAccepted(v0: Header, id: U64)
    requires v0.Valid()
    ensures HeaderDecode(v0, ForeignBlock(id), AsWritten).1 == Ok
    ensures HeaderDecode(v0, ForeignBlock(id), AsWritten).0.fields.extentId == id
  {
    var block := ForeignBlock(id);
    ForeignSlices(id);
    CrcRoundTrip(Crc(block[..4091]), block[4091..4095]);
    hide ForeignBlock, ForeignFront, Crc, CrcBytes, ReadCrc, Get16, Get32, Get64;
    NumberFields(block, id);
    assert FieldsAt(block, 7).extentId == id;
    hide FieldsAt;
    assert 7 + 4056 == 4063 && 7 + 4084 == 4091;
  }

  // ---- where the fields lie ----

  /** Where the fields of the extent lie, from byte `p` of a block on. */
  ghost predicate FieldsLie(data: seq<bv8>, p: nat, f: Fields) {
    && p + 36 <= |data|
    && data[p..p + 8] == Be64(f.deviceId) && data[p + 8..p + 16] == Be64(f.extentId)
    && data[p + 16..p + 20] == Be32(f.capacity) && data[p + 20..p + 24] == Be32(f.physicalUsed)
    && data[p + 24..p + 28] == Be32(f.logicalUsed)
    && data[p + 28] == f.redundantType && data[p + 29] == f.isSealed
    && data[p + 30] == f.isMigrating && data[p + 31] == f.corrupted
    && data[p + 32..p + 36] == Be32(f.bitmapIndex)
  }

  lemma FieldsLaid(data: seq<bv8>, p: nat, f: Fields)
    requires p + 36 <= |data| && data[p..p + 36] == FieldBytes(f)
    ensures FieldsLie(data, p, f)
  {
    hide Be32, Be64, FieldBytes;
    FieldSlices(f);
    SubSlice(data, p, 36, 0, 8);
    SubSlice(data, p, 36, 8, 16);
    SubSlice(data, p, 36, 16, 20);
    SubSlice(data, p, 36, 20, 24);
    SubSlice(data, p, 36, 24, 28);
    SubSlice(data, p, 36, 32, 36);
    var d := data[p..p + 36];
    assert data[p + 28] == d[28] && data[p + 29] == d[29] && data[p + 30] == d[30] && data[p + 31] == d[31];
  }

  lemma FieldsFound(data: seq<bv8>, p: nat)
    requires p + 36 <= |data|
    ensures FieldsLie(data, p, FieldsAt(data, p))
  {
    hide Get32, Get64, Be32, Be64;
  }

  /** Where a header lies before its footer; the reader as written looks for all but the start a byte before 8. */
  ghost predicate BodyLies(data: seq<bv8>, p: nat, h: Header) {
    && |data| == 4096 && 7 <= p <= 8
    && data[..4] == Be32(h.start.magic)
    && data[4] == h.start.version && data[5] == h.start.shardId && data[6] == h.start.dataShards
    && FieldsLie(data, p, h.fields)
    && h.reserved == data[p + 36..p + 4056]
  }

  ghost predicate HeaderLies(data: seq<bv8>, p: nat, h: Header) {
    BodyLies(data, p, h) && FooterLies(data, p + 4056, h.footer)
  }

  /** What `Serialize` puts where. */
  lemma HeaderWrittenAs(v: Header)
    requires v.Valid()
    ensures var data := HeaderEncode(v);
      && |data| == 4096 && data[..4] == MAGIC_BYTES == data[4064..4068]
      && data[7] == v.start.codeShards
      && HeaderLies(data, 8, v.(start := v.start.(magic := 0x2025_0430),
           footer := v.footer.(magic := 0x2025_0430, crc := Crc(data[..4092]))))
  {
    MagicBytes();
    hide StartBytes, FieldBytes, FooterBytes, FieldsLie, FooterLies, HeaderEncode, CrcBytes, Crc, Be32;
    var data := HeaderEncode(v);
    EncodedSlices(v);
    StartDecodes(v.start, data);
    FieldsLaid(data, 8, v.fields);
    EncodedFooter(v);
    CoveredBytes(v);
    FooterLaid(data, 4064, v.footer, Crc(data[..4092]));
  }

  lemma CoveredBytes(v: Header)
    requires v.Valid()
    ensures HeaderEncode(v)[..4092] == HeaderCovered(v)
  {
    hide HeaderCovered, Crc, CrcBytes;
  }

  predicate HeaderAccepted(data: seq<bv8>) {
    Accepted(data) && data[..4] == Be32(MAGIC)
  }

  /** The accepted byte strings of the repaired reader, and that each is the encoding of what was read from it. */
  lemma HeaderCanonical(v0: Header, data: seq<bv8>)
    requires v0.Valid()
    ensures HeaderDecode(v0, data, Repaired).1 == Ok <==> HeaderAccepted(data)
    ensures HeaderDecode(v0, data, Repaired).1 == Ok ==> HeaderEncode(HeaderDecode(v0, data, Repaired).0) == data
  {
    hide HeaderDecode, HeaderEncode, HeaderAccepted;
    if |data| == BLOCK_SIZE {
      AcceptedExactly(v0, data);
      if HeaderAccepted(data) {
        EncodesAgain(v0, data);
      }
    } else {
      OtherSize(v0, data);
    }
  }

  lemma OtherSize(v0: Header, data: seq<bv8>)
    requires v0.Valid() && |data| != BLOCK_SIZE
    ensures !HeaderAccepted(data) && HeaderDecode(v0, data, Repaired).1 != Ok
  {
    SealedSize(data);
  }

  lemma AcceptedExactly(v0: Header, data: seq<bv8>)
    requires v0.Valid() && |data| == BLOCK_SIZE
    ensures HeaderDecode(v0, data, Repaired).1 == Ok <==> HeaderAccepted(data)
  {
    hide Get16, Get32, Get64, Be32, Crc, ReadCrc, FieldsAt, BodyAt;
    MagicField(data, 0);
    MagicField(data, DATA_SIZE);
    assert data[0..4] == data[..4] && data[DATA_SIZE + 28..DATA_SIZE + 32] == data[COVERED..];
  }

  lemma EncodesAgain(v0: Header, data: seq<bv8>)
    requires v0.Valid() && HeaderAccepted(data) && HeaderDecode(v0, data, Repaired).1 == Ok
    ensures HeaderEncode(HeaderDecode(v0, data, Repaired).0) == data
  {
    hide Get16, Get32, Get64, Be32, Crc, ReadCrc, FieldsAt, FooterAt, BodyAt, HeaderCovered, Seal;
    HeaderCoveredAgain(data, v0.start.codeShards);
    SealedIsSeal(data);
  }

  /** Of a block, the magic where each reader looks for it again, and the CRC over what comes before. */
  predicate MagicsRight(data: seq<bv8>, p: nat)
    requires |data| == 4096 && p <= 8
  {
    data[..4] == MAGIC_BYTES && data[p + 4056..p + 4060] == MAGIC_BYTES
  }

  predicate CrcRight(data: seq<bv8>, p: nat)
    requires |data| == 4096 && p <= 8
  {
    data[p + 4084..p + 4088] == CrcBytes(Crc(data[..p + 4084]))
  }

  /** The result of reading a header, told by the bytes; `p` is 8, and 7 for the reader as written. */
  function HeaderResult(data: seq<bv8>, p: nat): ErrorCode
    requires p <= 8
  {
    if |data| != 4096 then BlockSizeIllegal
    else if !MagicsRight(data, p) then BlockMagicIllegal
    else if !CrcRight(data, p) then BlockCrcMismatch
    else Ok
  }

  /**
   What `Deserialize` makes of any bytes, in both forms: each result, and what each field of the object then
   is. A wrong first magic ends the reading there; a wrong second one leaves the rest of the footer alone.
   */
  lemma HeaderReadAs(v0: Header, data: seq<bv8>, form: Form)
    requires v0.Valid()
    ensures var p, (v, err) := if form.AsWritten? then 7 else 8, HeaderDecode(v0, data, form);
      && err == HeaderResult(data, p)
      && (|data| != 4096 ==> v == v0)
      && (|data| == 4096 && data[..4] != MAGIC_BYTES ==>
            v == v0.(start := v0.start.(magic := v.start.magic)) && Be32(v.start.magic) == data[..4])
      && (|data| == 4096 && data[..4] == MAGIC_BYTES && data[p + 4056..p + 4060] != MAGIC_BYTES ==>
            && BodyLies(data, p, v)
            && v.footer == v0.footer.(magic := v.footer.magic) && Be32(v.footer.magic) == data[p + 4056..p + 4060])
      && (|data| == 4096 && MagicsRight(data, p) ==> HeaderLies(data, p, v))
      && (|data| == 4096 && data[..4] == MAGIC_BYTES ==>
            v.start.codeShards == if form.AsWritten? then v0.start.codeShards else data[7])
  {
    hide FieldsAt, FooterAt, FieldsLie, FooterLies, Be32, Get32, CrcBytes, ReadCrc, Crc;
    if |data| == 4096 {
      var p := FieldsStart(form);
      MagicField(data, 0);
      MagicBytes();
      assert data[0..4] == data[..4];
      FieldsFound(data, p);
      FooterFound(data, p + 4056);
      FooterMagic(data, p + 4056);
      CrcOfFooter(data, p + 4056);
    }
  }

  lemma CrcOfFooter(data: seq<bv8>, p: nat)
    requires p + 32 <= |data|
    ensures FooterAt(data, p).crc == Crc(data[..p + 28]) <==> data[p + 28..p + 32] == CrcBytes(Crc(data[..p + 28]))
  {
    hide Get16, Get32, Get64, CrcBytes, ReadCrc, Crc;
    CrcRoundTrip(Crc(data[..p + 28]), data[p + 28..p + 32]);
  }

  /** Changing four neighbouring bytes or fewer of an accepted header makes it rejected, with one exception. */
  lemma HeaderCorruptionRejected(v0: Header, v1: Header, data: seq<bv8>, other: seq<bv8>, k: nat)
    requires v0.Valid() && v1.Valid() && HeaderDecode(v0, data, Repaired).1 == Ok
    requires |other| == BLOCK_SIZE && other != data && k + 4 <= BLOCK_SIZE
    requires forall i | 0 <= i < BLOCK_SIZE && !(k <= i < k + 4) :: other[i] == data[i]
    ensures HeaderDecode(v1, other, Repaired).1 == Ok <==> other == Xor(data, Blind())
  {
    hide HeaderDecode, Accepted, Blind, Be32;
    HeaderCanonical(v0, data);
    HeaderCanonical(v1, other);
    AcceptedAfterChange(data, other, k);
    BlindSparesStart(data);
  }

  lemma StartEncodes(data: seq<bv8>, s: Start)
    requires |data| == BLOCK_SIZE && data[..4] == Be32(MAGIC)
    requires s.version == data[4] && s.shardId == data[5] && s.dataShards == data[6] && s.codeShards == data[7]
    ensures StartBytes(s) == data[..8]
  {
    assert data[..8] == data[..4] + [data[4], data[5], data[6], data[7]];
  }

  lemma HeaderCoveredAgain(data: seq<bv8>, kept: bv8)
    requires HeaderAccepted(data)
    ensures HeaderCovered(BodyAt(data, Repaired, kept, FooterAt(data, DATA_SIZE))) == data[..COVERED]
  {
    assert |data| == BLOCK_SIZE;
    assert Get32(data[DATA_SIZE..DATA_SIZE + 4]) == MAGIC;
    hide FieldsAt, FooterAt, FooterBytes, FieldBytes, StartBytes, Be32, Get32, Sealed;
    FieldsEncode(data, 8);
    FooterEncodes(data, DATA_SIZE);
    var v := BodyAt(data, Repaired, kept, FooterAt(data, DATA_SIZE));
    StartEncodes(data, v.start);
    JoinParts(data, v);
  }

  lemma JoinParts(data: seq<bv8>, v: Header)
    requires |data| == BLOCK_SIZE && v.Valid()
    requires StartBytes(v.start) == data[..8] && FieldBytes(v.fields) == data[8..44]
    requires v.reserved == data[44..DATA_SIZE] && FooterBytes(v.footer) == data[DATA_SIZE..DATA_SIZE + 28]
    ensures HeaderCovered(v) == data[..COVERED]
  {
    hide FooterBytes, FieldBytes, StartBytes;
    assert data[..COVERED] == data[..8] + data[8..44] + data[44..DATA_SIZE] + data[DATA_SIZE..DATA_SIZE + 28];
  }

  /** The embedded groups of fields are values, assigned one field at a time. */
  class ExtentHeaderBlock {
    var start: Start
    var fields: Fields
    var reserved: seq<bv8>
    var footer: BlockFooter

    ghost predicate Valid()
      reads this
    {
      |reserved| == RESERVED && footer.Valid()
    }

    function Value(): (v: Header)
      requires Valid()
      reads this
      ensures v.Valid()
    {
      Header(start, fields, reserved, footer)
    }

    constructor Zero()
      ensures Valid()
    {
      start := Start(0, 0, 0, 0, 0);
      fields := Fields(0, 0, 0, 0, 0, 0, 0, 0, 0, 0);
      reserved := Zeros(RESERVED);
      footer := BlockFooter(0, 0, 0, 0, 0, Zeros(12), 0);
    }

    method Serialize() returns (result: seq<bv8>)
      requires Valid()
      modifies this
      ensures Valid() && Value() == HeaderStamped(old(Value()))
      ensures result == HeaderEncode(old(Value()))
    {
      hide Be16, Be32, Be64, Crc;
      start := start.(magic := MAGIC);
      result := Be32(start.magic) + [start.version, start.shardId, start.dataShards, start.codeShards];
      result := result + (Be64(fields.deviceId) + Be64(fields.extentId) + Be32(fields.capacity)
        + Be32(fields.physicalUsed) + Be32(fields.logicalUsed)
        + [fields.redundantType, fields.isSealed, fields.isMigrating, fields.corrupted] + Be32(fields.bitmapIndex));
      result := result + reserved;
      footer := footer.(magic := MAGIC);
      result := result + (Be32(footer.magic) + [footer.version, footer.flag] + Be16(footer.length)
        + Be64(footer.extentId) + footer.reserved);
      var crc := Crc32(result);
      footer := footer.(crc := crc);
      result := result + CrcBytes(footer.crc);
    }

    /** The part of `Deserialize` from the device id to the bitmap index. */
    method ReadFields(data: seq<bv8>, from: nat)
      requires from + 36 <= |data|
      modifies this`fields
      ensures fields == FieldsAt(data, from)
    {
      hide Get32, Get64;
      var ptr := from;
      fields := fields.(deviceId := Get64(data[ptr..ptr + 8]));
      ptr := ptr + 8;
      fields := fields.(extentId := Get64(data[ptr..ptr + 8]));
      ptr := ptr + 8;
      fields := fields.(capacity := Get32(data[ptr..ptr + 4]));
      ptr := ptr + 4;
      fields := fields.(physicalUsed := Get32(data[ptr..ptr + 4]));
      ptr := ptr + 4;
      fields := fields.(logicalUsed := Get32(data[ptr..ptr + 4]));
      ptr := ptr + 4;
      fields := fields.(redundantType := data[ptr]);
      ptr := ptr + 1;
      fields := fields.(isSealed := data[ptr]);
      ptr := ptr + 1;
      fields := fields.(isMigrating := data[ptr]);
      ptr := ptr + 1;
      fields := fields.(corrupted := data[ptr]);
      ptr := ptr + 1;
      fields := fields.(bitmapIndex := Get32(data[ptr..ptr + 4]));
    }

    /** The part of `Deserialize` that reads the footer. */
    method ReadFooter(data: seq<bv8>, from: nat) returns (err: ErrorCode)
      requires from + 32 <= |data| && footer.Valid()
      modifies this`footer
      ensures footer.Valid()
      ensures FooterAt(data, from).magic == MAGIC ==> err == Ok && footer == FooterAt(data, from)
      ensures FooterAt(data, from).magic != MAGIC ==>
        err == BlockMagicIllegal && footer == old(footer).(magic := FooterAt(data, from).magic)
    {
      hide Get16, Get32, Get64, ReadCrc;
      var ptr := from;
      footer := footer.(magic := Get32(data[ptr..ptr + 4]));
      ptr := ptr + 4;
      if footer.magic != MAGIC {
        return BlockMagicIllegal;
      }
      footer := footer.(version := data[ptr]);
      ptr := ptr + 1;
      footer := footer.(flag := data[ptr]);
      ptr := ptr + 1;
      footer := footer.(length := Get16(data[ptr..ptr + 2]));
      ptr := ptr + 2;
      footer := footer.(extentId := Get64(data[ptr..ptr + 8]));
      ptr := ptr + 8;
      footer := footer.(reserved := data[ptr..ptr + 12]);
      ptr := ptr + 12;
      footer := footer.(crc := ReadCrc(data[ptr..ptr + 4]));
      return Ok;
    }

    /** The part of `Deserialize` up to the shard counts. */
    method ReadStart(data: seq<bv8>, form: Form) returns (err: ErrorCode, ptr: nat)
      requires |data| == BLOCK_SIZE
      modifies this`start
      ensures Get32(data[..4]) != MAGIC ==> err == BlockMagicIllegal && start == old(start).(magic := Get32(data[..4]))
      ensures Get32(data[..4]) == MAGIC ==>
        && err == Ok && ptr == FieldsStart(form)
        && start == Start(MAGIC, data[4], data[5], data[6], if form.AsWritten? then old(start).codeShards else data[7])
    {
      hide Get32;
      ptr := 0;
      start := start.(magic := Get32(data[..4]));
      ptr := ptr + 4;
      if start.magic != MAGIC {
        return BlockMagicIllegal, ptr;
      }
      start := start.(version := data[ptr]);
      ptr := ptr + 1;
      start := start.(shardId := data[ptr]);
      ptr := ptr + 1;
      start := start.(dataShards := data[ptr]);
      ptr := ptr + 1;
      if form.Repaired? {
        start := start.(codeShards := data[ptr]);
        ptr := ptr + 1;
      }
      return Ok, ptr;
    }

    method Deserialize(data: seq<bv8>, form: Form) returns (err: ErrorCode)
      requires Valid()
      modifies this
      ensures Valid() && (Value(), err) == HeaderDecode(old(Value()), data, form)
    {
      hide Get32, Crc, FieldsAt, FooterAt;
      if |data| != BLOCK_SIZE {
        return BlockSizeIllegal;
      }
      var ptr;
      err, ptr := ReadStart(data, form);
      if err != Ok {
        return;
      }
      ReadFields(data, ptr);
      ptr := ptr + 36;
      reserved := data[ptr..ptr + RESERVED];
      ptr := ptr + RESERVED;
      err := ReadFooter(data, ptr);
      ptr := ptr + 32;
      if err != Ok {
        return;
      }
      var calculated := Crc32(data[..ptr - 4]);
      if calculated != footer.crc {
        return BlockCrcMismatch;
      }
      return Ok;
    }
  }
}
