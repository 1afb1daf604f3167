/** `JournalBlock`: the old data of a block and a footer with a transaction. */
module JournalBlocks {
  import opened Bytes
  import opened CrcRegister
  import opened CrcTable
  import opened SealedBlock
  import opened ErrorCodes
  import opened PayloadBlocks

  datatype JournalFooter = JournalFooter(
    magic: U32,
    version: bv8,
    flag: bv8,
    length: U16,
    extentId: U64,
    transactionId: U64,
    committed: bv8,
    reserved: seq<bv8>,
    crc: bv32)

  datatype Journal = Journal(oldData: seq<bv8>, footer: JournalFooter) {
    predicate Valid() {
      |oldData| == DATA_SIZE && |footer.reserved| == 3
    }
  }

  function JournalFooterBytes(f: JournalFooter): (bytes: seq<bv8>)
    requires |f.reserved| == 3
    ensures |bytes| == 28
  {
    Be32(MAGIC) + [f.version, f.flag] + Be16(f.length) + Be64(f.extentId) + Be64(f.transactionId)
      + [f.committed] + f.reserved
  }

  /** Everything before the CRC. As written, the reserved bytes go in twice. */
  function JournalCovered(v: Journal, form: Form): (covered: seq<bv8>)
    requires v.Valid()
    ensures |covered| == if form.AsWritten? then COVERED + 3 else COVERED
  {
    v.oldData + JournalFooterBytes(v.footer) + (if form.AsWritten? then v.footer.reserved else [])
  }

  function JournalEncode(v: Journal, form: Form): (bytes: seq<bv8>)
    requires v.Valid()
  {
    JournalCovered(v, form) + CrcBytes(Crc(JournalCovered(v, form)))
  }

  function JournalStamped(v: Journal, form: Form): (s: Journal)
    requires v.Valid()
    ensures s.Valid()
  {
    v.(footer := v.footer.(magic := MAGIC, crc := Crc(JournalCovered(v, form))))
  }

  function JournalFooterAt(data: seq<bv8>, p: nat): (f: JournalFooter)
    requires p + 32 <= |data|
    ensures |f.reserved| == 3
  {
    JournalFooter(
      Get32(data[p..p + 4]), data[p + 4], data[p + 5], Get16(data[p + 6..p + 8]), Get64(data[p + 8..p + 16]),
      Get64(data[p + 16..p + 24]), data[p + 24], data[p + 25..p + 28], ReadCrc(data[p + 28..p + 32]))
  }

  function JournalDecode(v0: Journal, data: seq<bv8>): (r: (Journal, ErrorCode))
    requires v0.Valid()
    ensures r.0.Valid()
  {
    if |data| != BLOCK_SIZE then (v0, BlockSizeIllegal)
    else
      var oldData, footer := data[..DATA_SIZE], JournalFooterAt(data, DATA_SIZE);
      if footer.magic != MAGIC then
        (Journal(oldData, v0.footer.(magic := footer.magic)), BlockMagicIllegal)
      else
        (Journal(oldData, footer), if Sealed(data) then Ok else BlockCrcMismatch)
  }

  // ---- where the fields lie ----

  /** Where each field of a footer lies, from byte `p` of a block on, up to its CRC. */
  ghost predicate JournalFooterLies(data: seq<bv8>, p: nat, f: JournalFooter) {
    && p + 28 <= |data|
    && data[p..p + 4] == Be32(f.magic)
    && data[p + 4] == f.version && data[p + 5] == f.flag
    && data[p + 6..p + 8] == Be16(f.length)
    && data[p + 8..p + 16] == Be64(f.extentId)
    && data[p + 16..p + 24] == Be64(f.transactionId)
    && data[p + 24] == f.committed
    && data[p + 25..p + 28] == f.reserved
  }

  lemma JournalFooterLaid(data: seq<bv8>, p: nat, f: JournalFooter)
    requires |f.reserved| == 3 && p + 28 <= |data| && data[p..p + 28] == JournalFooterBytes(f)
    ensures JournalFooterLies(data, p, f.(magic := 0x2025_0430))
  {
    hide Be16, Be32, Be64;
    var b := JournalFooterBytes(f);
    assert b[0..4] == Be32(MAGIC) && b[4] == f.version && b[5] == f.flag && b[24] == f.committed;
    assert b[6..8] == Be16(f.length) && b[8..16] == Be64(f.extentId) && b[16..24] == Be64(f.transactionId);
    assert b[25..28] == f.reserved;
    SubSlice(data, p, 28, 0, 4);
    SubSlice(data, p, 28, 6, 8);
    SubSlice(data, p, 28, 8, 16);
    SubSlice(data, p, 28, 16, 24);
    SubSlice(data, p, 28, 25, 28);
    var d := data[p..p + 28];
    assert data[p + 4] == d[4] && data[p + 5] == d[5] && data[p + 24] == d[24];
  }

  lemma JournalFooterDecodes(data: seq<bv8>, p: nat, f: JournalFooter)
    requires |f.reserved| == 3 && p + 32 <= |data| && data[p..p + 28] == JournalFooterBytes(f)
    ensures JournalFooterAt(data, p) == f.(magic := MAGIC, crc := ReadCrc(data[p + 28..p + 32]))
  {
    hide Get16, Get32, Get64, Be16, Be32, Be64, ReadCrc, JournalFooterBytes;
    JournalFooterLaid(data, p, f);
  }

  lemma JournalFooterEncodes(data: seq<bv8>, p: nat)
    requires p + 32 <= |data| && Get32(data[p..p + 4]) == MAGIC
    ensures JournalFooterBytes(JournalFooterAt(data, p)) == data[p..p + 28]
  {
    hide Get16, Get32, Get64, Be16, Be32, Be64, ReadCrc;
    CutFooter(data[p..p + 28]);
    SubSlice(data, p, 28, 0, 4);
    SubSlice(data, p, 28, 6, 8);
    SubSlice(data, p, 28, 8, 16);
    SubSlice(data, p, 28, 16, 24);
    SubSlice(data, p, 28, 25, 28);
  }

  lemma CutFooter(b: seq<bv8>)
    requires |b| == 28
    ensures b == b[0..4] + [b[4], b[5]] + b[6..8] + b[8..16] + b[16..24] + [b[24]] + b[25..28]
  {
  }

  /**
   Writing and reading back succeeds exactly in the repaired form, and then restores every field. As
   written, the buffer is three bytes too long: the size assertion fails, and without assertions
   `Deserialize` refuses the size.
   */
  lemma JournalRoundTrip(v0: Journal, v: Journal, form: Form)
    requires v0.Valid() && v.Valid()
    ensures |JournalEncode(v, form)| == BLOCK_SIZE <==> form.Repaired?
    ensures JournalDecode(v0, JournalEncode(v, form)) ==
      if form.Repaired? then (JournalStamped(v, form), Ok) else (v0, BlockSizeIllegal)
  {
    if form.Repaired? {
      hide JournalFooterAt, JournalFooterBytes, CrcBytes, ReadCrc, Crc, Be32;
      var data := JournalEncode(v, form);
      assert data == Seal(JournalCovered(v, form));
      BlockParts(data, v.oldData, JournalFooterBytes(v.footer));
      JournalFooterDecodes(data, DATA_SIZE, v.footer);
      CrcRoundTrip(Crc(JournalCovered(v, form)), data[COVERED..]);
    }
  }

  lemma JournalAcceptedAgain(data: seq<bv8>)
    requires Accepted(data)
    ensures JournalEncode(Journal(data[..DATA_SIZE], JournalFooterAt(data, DATA_SIZE)), Repaired) == data
  {
    hide JournalFooterBytes, JournalFooterAt, CrcBytes, ReadCrc, Crc, Seal, Be32, Get32;
    MagicField(data, DATA_SIZE);
    JournalFooterEncodes(data, DATA_SIZE);
    SealedIsSeal(data);
    assert data[..COVERED] == data[..DATA_SIZE] + data[DATA_SIZE..DATA_SIZE + 28];
    assert JournalCovered(Journal(data[..DATA_SIZE], JournalFooterAt(data, DATA_SIZE)), Repaired) == data[..COVERED];
    assert data == Seal(data[..COVERED]);
  }

  /** The accepted byte strings, and that each is the repaired encoding of what was read from it. */
  lemma JournalCanonical(v0: Journal, data: seq<bv8>)
    requires v0.Valid()
    ensures JournalDecode(v0, data).1 == Ok <==> Accepted(data)
    ensures JournalDecode(v0, data).1 == Ok ==> JournalEncode(JournalDecode(v0, data).0, Repaired) == data
  {
    hide JournalEncode, Sealed, Be32, Get16, Get32, Get64, ReadCrc;
    if |data| == BLOCK_SIZE {
      MagicField(data, DATA_SIZE);
      if Accepted(data) {
        JournalAcceptedAgain(data);
      }
    } else {
      SealedSize(data);
    }
  }

  /** Changing four neighbouring bytes or fewer of an accepted block makes it rejected, with one exception. */
  lemma JournalCorruptionRejected(v0: Journal, v1: Journal, data: seq<bv8>, other: seq<bv8>, k: nat)
    requires v0.Valid() && v1.Valid() && JournalDecode(v0, data).1 == Ok
    requires |other| == BLOCK_SIZE && other != data && k + 4 <= BLOCK_SIZE
    requires forall i | 0 <= i < BLOCK_SIZE && !(k <= i < k + 4) :: other[i] == data[i]
    ensures JournalDecode(v1, other).1 == Ok <==> other == Xor(data, Blind())
  {
    hide JournalDecode, Accepted, Blind;
    JournalCanonical(v0, data);
    JournalCanonical(v1, other);
    AcceptedAfterChange(data, other, k);
  }

  // ---- what is written where, and what is read ----

  lemma JournalFooterFound(data: seq<bv8>, p: nat)
    requires p + 32 <= |data|
    ensures JournalFooterLies(data, p, JournalFooterAt(data, p))
    ensures JournalFooterAt(data, p).magic == MAGIC <==> data[p..p + 4] == MAGIC_BYTES
    ensures CrcBytes(JournalFooterAt(data, p).crc) == data[p + 28..p + 32]
  {
    MagicBytes();
    hide Get16, Get32, Get64, Be16, Be32, Be64, CrcBytes, ReadCrc;
    CrcRoundTrip(0, data[p + 28..p + 32]);
    MagicField(data, p);
  }

  /**
   What `Serialize` puts where and leaves in the object, in both forms: as written the three reserved bytes
   come again before the CRC.
   */
  lemma JournalWrittenAs(v: Journal, form: Form)
    requires v.Valid()
    ensures var data, end := JournalEncode(v, form), if form.AsWritten? then 4095 else 4092;
      && |data| == end + 4 && data[..4064] == v.oldData && data[4064..4068] == MAGIC_BYTES
      && JournalFooterLies(data, 4064, v.footer.(magic := 0x2025_0430))
      && (form.AsWritten? ==> data[4092..4095] == v.footer.reserved)
      && data[end..] == CrcBytes(Crc(data[..end]))
      && JournalStamped(v, form) == v.(footer := v.footer.(magic := 0x2025_0430, crc := Crc(data[..end])))
  {
    MagicBytes();
    hide JournalFooterBytes, JournalFooterLies, Be32, CrcBytes, Crc;
    var data, covered := JournalEncode(v, form), JournalCovered(v, form);
    assert data[..|covered|] == covered && data[|covered|..] == CrcBytes(Crc(covered));
    assert covered[..4064] == v.oldData && covered[4064..4092] == JournalFooterBytes(v.footer);
    assert data[..4064] == covered[..4064] && data[4064..4092] == covered[4064..4092];
    JournalFooterLaid(data, 4064, v.footer);
    JournalMagicLaid(data, v.footer);
    if form.AsWritten? {
      assert data[4092..4095] == covered[4092..4095] == v.footer.reserved;
    }
  }

  lemma JournalMagicLaid(data: seq<bv8>, f: JournalFooter)
    requires JournalFooterLies(data, 4064, f.(magic := 0x2025_0430))
    ensures data[4064..4068] == MAGIC_BYTES
  {
    MagicBytes();
    hide Be16, Be32, Be64;
  }

  /** What `Deserialize` makes of any bytes: each result, and what each field of the object then is. */
  lemma JournalReadAs(v0: Journal, data: seq<bv8>)
    requires v0.Valid()
    ensures |data| != 4096 ==> JournalDecode(v0, data) == (v0, BlockSizeIllegal)
    ensures |data| == 4096 && data[4064..4068] != MAGIC_BYTES ==>
      var (v, err) := JournalDecode(v0, data);
      && err == BlockMagicIllegal && v.oldData == data[..4064]
      && v.footer == v0.footer.(magic := v.footer.magic) && Be32(v.footer.magic) == data[4064..4068]
    ensures |data| == 4096 && data[4064..4068] == MAGIC_BYTES ==>
      var (v, err) := JournalDecode(v0, data);
      && err == (if data[4092..] == CrcBytes(Crc(data[..4092])) then Ok else BlockCrcMismatch)
      && v.oldData == data[..4064] && JournalFooterLies(data, 4064, v.footer) && CrcBytes(v.footer.crc) == data[4092..]
  {
    hide JournalFooterAt, JournalFooterLies, Be32, Get32, CrcBytes, ReadCrc, Crc;
    if |data| == 4096 {
      JournalFooterFound(data, 4064);
      JournalFooterMagic(data, 4064);
      assert data[4092..4096] == data[4092..];
      CrcRoundTrip(Crc(data[..4092]), data[4092..]);
    }
  }

  lemma JournalFooterMagic(data: seq<bv8>, p: nat)
    requires p + 32 <= |data|
    ensures Be32(JournalFooterAt(data, p).magic) == data[p..p + 4]
  {
    hide Get16, Get64, Be32;
  }

  class JournalBlock {
    const oldData: array<bv8>
    var footer: JournalFooter

    ghost predicate Valid()
      reads this
    {
      oldData.Length == DATA_SIZE && |footer.reserved| == 3
    }

    ghost function Value(): (v: Journal)
      requires Valid()
      reads this, oldData
      ensures v.Valid()
    {
      Journal(oldData[..], footer)
    }

    /** `asserted` says whether the size assertion at the end holds. */
    method Serialize(form: Form) returns (result: seq<bv8>, asserted: bool)
      requires Valid()
      modifies this
      ensures Valid() && Value() == JournalStamped(old(Value()), form)
      ensures result == JournalEncode(old(Value()), form)
      ensures asserted <==> form.Repaired?
    {
      result := oldData[..];
      footer := footer.(magic := MAGIC);
      result := result + (Be32(footer.magic) + [footer.version, footer.flag] + Be16(footer.length)
        + Be64(footer.extentId) + Be64(footer.transactionId) + [footer.committed] + footer.reserved);
      if form.AsWritten? {
        result := result + footer.reserved;
      }
      assert result == JournalCovered(old(Value()), form);
      var crc := Crc32(result);
      footer := footer.(crc := crc);
      result := result + CrcBytes(footer.crc);
      asserted := |result| == BLOCK_SIZE;
    }

    /** The part of `Deserialize` that reads the footer, from its magic on. */
    method ReadFooter(data: seq<bv8>, from: nat) returns (err: ErrorCode, ptr: nat)
      requires Valid() && |data| == BLOCK_SIZE && from == DATA_SIZE
      modifies this`footer
      ensures Valid()
      ensures var read := JournalFooterAt(data, DATA_SIZE);
        if read.magic != MAGIC then err == BlockMagicIllegal && footer == old(footer).(magic := read.magic)
        else err == Ok && footer == read && ptr == BLOCK_SIZE
    {
      hide Get16, Get32, Get64, Crc, ReadCrc;
      ptr := from;
      footer := footer.(magic := Get32(data[ptr..ptr + 4]));
      ptr := ptr + 4;
      if footer.magic != MAGIC {
        err := BlockMagicIllegal;
        return;
      }
      footer := footer.(version := data[ptr]);
      ptr := ptr + 1;
      footer := footer.(flag := data[ptr]);
      ptr := ptr + 1;
      footer := footer.(length := Get16(data[ptr..ptr + 2]));
      ptr := ptr + 2;
      footer := footer.(extentId := Get64(data[ptr..ptr + 8]));
      ptr := ptr + 8;
      footer := footer.(transactionId := Get64(data[ptr..ptr + 8]));
      ptr := ptr + 8;
      footer := footer.(committed := data[ptr]);
      ptr := ptr + 1;
      footer := footer.(reserved := data[ptr..ptr + 3]);
      ptr := ptr + 3;
      footer := footer.(crc := ReadCrc(data[ptr..ptr + 4]));
      ptr := ptr + 4;
      err := Ok;
    }

    method Deserialize(data: seq<bv8>) returns (err: ErrorCode)
      requires Valid()
      modifies this, oldData
      ensures Valid() && (Value(), err) == JournalDecode(old(Value()), data)
    {
      hide JournalFooterAt, Crc, ReadCrc;
      if |data| != BLOCK_SIZE {
        return BlockSizeIllegal;
      }
      var ptr := 0;
      forall i | 0 <= i < DATA_SIZE {
        oldData[i] := data[ptr + i];
      }
      assert oldData[..] == data[..DATA_SIZE];
      ptr := ptr + DATA_SIZE;
      err, ptr := ReadFooter(data, ptr);
      if err != Ok {
        return;
      }
      FooterCrc(data);
      var calculated := Crc32(data[..ptr - 4]);
      if calculated != footer.crc {
        return BlockCrcMismatch;
      }
      return Ok;
    }
  }

  lemma FooterCrc(data: seq<bv8>)
    requires |data| == BLOCK_SIZE
    ensures JournalFooterAt(data, DATA_SIZE).crc == ReadCrc(data[COVERED..])
  {
    hide ReadCrc;
    assert data[COVERED..] == data[DATA_SIZE + 28..DATA_SIZE + 32];
  }
}
