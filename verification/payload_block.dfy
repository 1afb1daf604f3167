/** `BitMapBlock` and `DataBlock`: 4064 bytes of payload and a footer. Their codecs are byte for byte the same. */
module PayloadBlocks {
  import opened Bytes
  import opened CrcRegister
  import opened CrcTable
  import opened SealedBlock
  import opened ErrorCodes

  const MAGIC: U32 := 0x2025_0430
  const DATA_SIZE: nat := 4064

  /** A footer is embedded in its block, so it is a value: filling it in place is assigning it. */
  datatype BlockFooter = BlockFooter(
    magic: U32,
    version: bv8,
    flag: bv8,
    length: U16,
    extentId: U64,
    reserved: seq<bv8>,
    crc: bv32)
  {
    predicate Valid() {
      |reserved| == 12
    }

    /** The length field has 16 bits: a longer length is cut off. Flag, reserved bytes and CRC stay. */
    function Fill(extentId: U64, length: U64): (f: BlockFooter)
      ensures Valid() ==> f.Valid()
      ensures f.magic == 0x2025_0430 && f.version == 1 && f.extentId == extentId
      ensures f.length < 0x1_0000 && (length - f.length) % 0x1_0000 == 0
      ensures f.flag == flag && f.reserved == reserved && f.crc == crc
    {
      this.(magic := MAGIC, version := 1, length := length % 0x1_0000, extentId := extentId)
    }

    function FillWithoutExtentId(length: U64): (f: BlockFooter)
      ensures Valid() ==> f.Valid()
      ensures f.magic == 0x2025_0430 && f.version == 1 && f.extentId == 0
      ensures length < 0x1_0000 ==> f.length == length
      ensures f.flag == flag && f.reserved == reserved && f.crc == crc
    {
      Fill(0, length)
    }
  }

  /** The bytes of a footer before its CRC. The magic is always the constant. */
  function FooterBytes(f: BlockFooter): (bytes: seq<bv8>)
    requires f.Valid()
    ensures |bytes| == 28
  {
    Be32(MAGIC) + [f.version, f.flag] + Be16(f.length) + Be64(f.extentId) + f.reserved
  }

  function FooterAt(data: seq<bv8>, p: nat): (f: BlockFooter)
    requires p + 32 <= |data|
    ensures f.Valid()
  {
    BlockFooter(
      Get32(data[p..p + 4]), data[p + 4], data[p + 5], Get16(data[p + 6..p + 8]), Get64(data[p + 8..p + 16]),
      data[p + 16..p + 28], ReadCrc(data[p + 28..p + 32]))
  }

  lemma MagicBytes()
    ensures Be32(MAGIC) == [0x20, 0x25, 0x04, 0x30]
  {
    var b1: seq<bv8>, b2: seq<bv8>, b3: seq<bv8>, b4: seq<bv8> :=
      [0x20], [0x20, 0x25], [0x20, 0x25, 0x04], [0x20, 0x25, 0x04, 0x30];
    assert b1[..0] == [] && b2[..1] == b1 && b3[..2] == b2 && b4[..3] == b3;
    assert FromBigEndian(b1) == 0x20;
    assert FromBigEndian(b2) == 0x2025;
    assert FromBigEndian(b3) == 0x20_2504;
    assert Get32(b4) == MAGIC;
  }

  lemma FooterSlices(data: seq<bv8>, p: nat)
    requires p + 28 <= |data|
    ensures data[p..p + 28] == data[p..p + 4] + [data[p + 4], data[p + 5]] + data[p + 6..p + 8] + data[p + 8..p + 16]
      + data[p + 16..p + 28]
  {
  }

  /** A footer read where its bytes lie. */
  lemma FooterDecodes(data: seq<bv8>, p: nat, f: BlockFooter)
    requires f.Valid() && p + 32 <= |data| && data[p..p + 28] == FooterBytes(f)
    ensures FooterAt(data, p) == f.(magic := MAGIC, crc := ReadCrc(data[p + 28..p + 32]))
  {
    FooterSlices(data, p);
    var bytes := FooterBytes(f);
    assert bytes[..4] == Be32(MAGIC) && bytes[4] == f.version && bytes[5] == f.flag;
    assert bytes[6..8] == Be16(f.length) && bytes[8..16] == Be64(f.extentId) && bytes[16..28] == f.reserved;
    assert data[p..p + 4] == bytes[..4] && data[p + 6..p + 8] == bytes[6..8];
    assert data[p + 8..p + 16] == bytes[8..16] && data[p + 16..p + 28] == bytes[16..28];
    assert data[p + 4] == bytes[4] && data[p + 5] == bytes[5];
  }

  /** The bytes of a footer with the right magic are those of the footer read from them. */
  lemma FooterEncodes(data: seq<bv8>, p: nat)
    requires p + 32 <= |data| && Get32(data[p..p + 4]) == MAGIC
    ensures FooterBytes(FooterAt(data, p)) == data[p..p + 28]
  {
    FooterSlices(data, p);
  }

  /** The magic as it lies in a block. */
  const MAGIC_BYTES: seq<bv8> := [0x20, 0x25, 0x04, 0x30]

  /** Where each field of a footer lies, from byte `p` of a block on: numbers big-endian, the CRC last. */
  ghost predicate FooterLies(data: seq<bv8>, p: nat, f: BlockFooter) {
    && p + 32 <= |data|
    && data[p..p + 4] == Be32(f.magic)
    && data[p + 4] == f.version && data[p + 5] == f.flag
    && data[p + 6..p + 8] == Be16(f.length)
    && data[p + 8..p + 16] == Be64(f.extentId)
    && data[p + 16..p + 28] == f.reserved
    && data[p + 28..p + 32] == CrcBytes(f.crc)
  }

  /** The bytes of a footer where the CRC follows. */
  lemma FooterLaid(data: seq<bv8>, p: nat, f: BlockFooter, crc: bv32)
    requires f.Valid() && p + 32 <= |data| && data[p..p + 28] == FooterBytes(f)
    requires data[p + 28..p + 32] == CrcBytes(crc)
    ensures FooterLies(data, p, f.(magic := 0x2025_0430, crc := crc))
    ensures data[p..p + 4] == MAGIC_BYTES
  {
    MagicBytes();
    hide Be16, Be32, Be64, CrcBytes;
    var b := FooterBytes(f);
    assert b[0..4] == Be32(MAGIC) && b[4] == f.version && b[5] == f.flag;
    assert b[6..8] == Be16(f.length) && b[8..16] == Be64(f.extentId) && b[16..28] == f.reserved;
    SubSlice(data, p, 28, 0, 4);
    SubSlice(data, p, 28, 6, 8);
    SubSlice(data, p, 28, 8, 16);
    SubSlice(data, p, 28, 16, 28);
    assert data[p..p + 28][4] == data[p + 4] && data[p..p + 28][5] == data[p + 5];
  }

  /** A footer that is read lies where it was read. */
  lemma FooterFound(data: seq<bv8>, p: nat)
    requires p + 32 <= |data|
    ensures FooterLies(data, p, FooterAt(data, p))
    ensures FooterAt(data, p).magic == MAGIC <==> data[p..p + 4] == MAGIC_BYTES
  {
    MagicBytes();
    hide Get16, Get32, Get64, Be16, Be32, Be64, CrcBytes, ReadCrc;
    CrcRoundTrip(0, data[p + 28..p + 32]);
    MagicField(data, p);
  }

  datatype Payload = Payload(bytes: seq<bv8>, footer: BlockFooter) {
    predicate Valid() {
      |bytes| == DATA_SIZE && footer.Valid()
    }
  }

  function Covered(v: Payload): (covered: seq<bv8>)
    requires v.Valid()
    ensures |covered| == COVERED
  {
    v.bytes + FooterBytes(v.footer)
  }

  /** What `Serialize` returns. */
  function Encode(v: Payload): (block: seq<bv8>)
    requires v.Valid()
    ensures |block| == BLOCK_SIZE
  {
    Seal(Covered(v))
  }

  /** What `Serialize` leaves behind: magic and CRC are set. */
  function Stamped(v: Payload): (s: Payload)
    requires v.Valid()
    ensures s.Valid()
  {
    v.(footer := v.footer.(magic := MAGIC, crc := Crc(Covered(v))))
  }

  /** `Deserialize` into an object that holds `v0`: what it holds then, and the result. */
  function Decode(v0: Payload, data: seq<bv8>): (r: (Payload, ErrorCode))
    requires v0.Valid()
    ensures r.0.Valid()
  {
    if |data| != BLOCK_SIZE then (v0, BlockSizeIllegal)
    else
      var bytes, footer := data[..DATA_SIZE], FooterAt(data, DATA_SIZE);
      if footer.magic != MAGIC then
        (Payload(bytes, v0.footer.(magic := footer.magic)), BlockMagicIllegal)
      else
        (Payload(bytes, footer), if Sealed(data) then Ok else BlockCrcMismatch)
  }

  predicate Accepted(data: seq<bv8>) {
    Sealed(data) && data[DATA_SIZE..DATA_SIZE + 4] == Be32(MAGIC)
  }

  /** Reading back what was written gives the object as it was stamped, whatever it is read into. */
  lemma RoundTrip(v0: Payload, v: Payload)
    requires v0.Valid() && v.Valid()
    ensures Decode(v0, Encode(v)) == (Stamped(v), Ok)
  {
    hide FooterAt, FooterBytes, CrcBytes, ReadCrc, Crc, Seal, Be32;
    var data := Encode(v);
    BlockParts(data, v.bytes, FooterBytes(v.footer));
    FooterDecodes(data, DATA_SIZE, v.footer);
    CrcRoundTrip(Crc(Covered(v)), data[COVERED..]);
    SealedIsSeal(data);
  }

  lemma MagicField(data: seq<bv8>, p: nat)
    requires p + 4 <= |data|
    ensures Get32(data[p..p + 4]) == MAGIC <==> data[p..p + 4] == Be32(MAGIC)
  {
    hide Be32, Get32;
  }

  lemma AcceptedAgain(data: seq<bv8>)
    requires Accepted(data)
    ensures Encode(Payload(data[..DATA_SIZE], FooterAt(data, DATA_SIZE))) == data
  {
    hide FooterBytes, FooterAt, CrcBytes, ReadCrc, Crc, Seal, Be32, Get32;
    MagicField(data, DATA_SIZE);
    FooterEncodes(data, DATA_SIZE);
    SealedIsSeal(data);
    assert data[..COVERED] == data[..DATA_SIZE] + data[DATA_SIZE..DATA_SIZE + 28];
  }

  /** Which byte strings are accepted, and that each is the encoding of what was read from it. */
  lemma Canonical(v0: Payload, data: seq<bv8>)
    requires v0.Valid()
    ensures Decode(v0, data).1 == Ok <==> Accepted(data)
    ensures Decode(v0, data).1 == Ok ==> Encode(Decode(v0, data).0) == data
  {
    hide Encode, Sealed, Be32, Get16, Get32, Get64, ReadCrc;
    if |data| == BLOCK_SIZE {
      MagicField(data, DATA_SIZE);
      if Accepted(data) {
        AcceptedAgain(data);
      }
    } else {
      SealedSize(data);
    }
  }

  /** What `Serialize` puts where. */
  lemma WrittenAs(v: Payload)
    requires v.Valid()
    ensures var data := Encode(v);
      && |data| == 4096 && data[..4064] == v.bytes && data[4064..4068] == MAGIC_BYTES
      && FooterLies(data, 4064, v.footer.(magic := 0x2025_0430, crc := Crc(data[..4092])))
  {
    hide FooterBytes, CrcBytes, Crc, FooterLies;
    var data := Encode(v);
    BlockParts(data, v.bytes, FooterBytes(v.footer));
    FooterLaid(data, 4064, v.footer, Crc(data[..4092]));
  }

  /** What `Deserialize` makes of any bytes: each result, and what each field of the object then is. */
  lemma ReadAs(v0: Payload, data: seq<bv8>)
    requires v0.Valid()
    ensures |data| != 4096 ==> Decode(v0, data) == (v0, BlockSizeIllegal)
    ensures |data| == 4096 && data[4064..4068] != MAGIC_BYTES ==>
      var (v, err) := Decode(v0, data);
      && err == BlockMagicIllegal && v.bytes == data[..4064]
      && v.footer == v0.footer.(magic := v.footer.magic) && Be32(v.footer.magic) == data[4064..4068]
    ensures |data| == 4096 && data[4064..4068] == MAGIC_BYTES ==>
      var (v, err) := Decode(v0, data);
      && err == (if data[4092..] == CrcBytes(Crc(data[..4092])) then Ok else BlockCrcMismatch)
      && v.bytes == data[..4064] && FooterLies(data, 4064, v.footer)
  {
    hide FooterAt, FooterLies, Be32, Get32, CrcBytes, ReadCrc, Crc;
    if |data| == 4096 {
      FooterFound(data, 4064);
      FooterMagic(data, 4064);
      CrcRoundTrip(Crc(data[..4092]), data[4092..]);
    }
  }

  lemma FooterMagic(data: seq<bv8>, p: nat)
    requires p + 32 <= |data|
    ensures Be32(FooterAt(data, p).magic) == data[p..p + 4]
  {
    hide Get16, Get64, Be32;
  }

  lemma SealedSize(data: seq<bv8>)
    ensures Sealed(data) ==> |data| == BLOCK_SIZE
  {
  }

  /** Among the blocks that differ from an accepted one in four neighbouring bytes at most, one other is accepted. */
  lemma AcceptedAfterChange(data: seq<bv8>, other: seq<bv8>, k: nat)
    requires Accepted(data) && |other| == BLOCK_SIZE && other != data && k + 4 <= BLOCK_SIZE
    requires forall i | 0 <= i < BLOCK_SIZE && !(k <= i < k + 4) :: other[i] == data[i]
    ensures Accepted(other) <==> other == Xor(data, Blind())
  {
    hide Sealed, Blind, Be32;
    SealedSize(data);
    FourByteCorruption(data, other, k);
    if other == Xor(data, Blind()) {
      BlindSparesFooterMagic(data);
    }
  }

  /** Changing four neighbouring bytes or fewer of an accepted block makes it rejected, with one exception. */
  lemma CorruptionRejected(v0: Payload, v1: Payload, data: seq<bv8>, other: seq<bv8>, k: nat)
    requires v0.Valid() && v1.Valid() && Decode(v0, data).1 == Ok
    requires |other| == BLOCK_SIZE && other != data && k + 4 <= BLOCK_SIZE
    requires forall i | 0 <= i < BLOCK_SIZE && !(k <= i < k + 4) :: other[i] == data[i]
    ensures Decode(v1, other).1 == Ok <==> other == Xor(data, Blind())
  {
    hide Decode, Accepted, Blind;
    Canonical(v0, data);
    Canonical(v1, other);
    AcceptedAfterChange(data, other, k);
  }

  lemma BlindSparesFooterMagic(data: seq<bv8>)
    requires |data| == BLOCK_SIZE
    ensures Xor(data, Blind())[..4090] == data[..4090]
    ensures Xor(data, Blind())[DATA_SIZE..DATA_SIZE + 4] == data[DATA_SIZE..DATA_SIZE + 4]
  {
    var other := Xor(data, Blind());
    forall i | 0 <= i < 4090 ensures other[i] == data[i] {
      assert Blind()[i] == 0;
      XorByteWithZero(data[i]);
    }
  }

  lemma BlindSparesStart(data: seq<bv8>)
    requires |data| == BLOCK_SIZE
    ensures Xor(data, Blind())[..4] == data[..4]
  {
    BlindSparesFooterMagic(data);
    hide Blind, Xor;
    assert data[..4090][..4] == data[..4];
    assert Xor(data, Blind())[..4090][..4] == Xor(data, Blind())[..4];
  }

  lemma XorByteWithZero(a: bv8)
    ensures PlusByte(a, 0) == a
  {
  }

  class PayloadBlock {
    const bytes: array<bv8>
    var footer: BlockFooter

    ghost predicate Valid()
      reads this
    {
      bytes.Length == DATA_SIZE && footer.Valid()
    }

    ghost function Value(): (v: Payload)
      requires Valid()
      reads this, bytes
      ensures v.Valid()
    {
      Payload(bytes[..], footer)
    }

    /** All zero, as `memset` leaves it. */
    constructor Zero()
      ensures Valid() && fresh(bytes)
      ensures Value() == Payload(Zeros(DATA_SIZE), BlockFooter(0, 0, 0, 0, 0, Zeros(12), 0))
    {
      bytes := new bv8[DATA_SIZE](i => 0);
      footer := BlockFooter(0, 0, 0, 0, 0, Zeros(12), 0);
    }

    method Serialize() returns (result: seq<bv8>)
      requires Valid()
      modifies this
      ensures Valid() && Value() == Stamped(old(Value()))
      ensures result == Encode(old(Value()))
    {
      result := bytes[..];
      footer := footer.(magic := MAGIC);
      result := result + (Be32(footer.magic) + [footer.version, footer.flag] + Be16(footer.length)
        + Be64(footer.extentId) + footer.reserved);
      var crc := Crc32(result);
      footer := footer.(crc := crc);
      result := result + CrcBytes(footer.crc);
    }

    method Deserialize(data: seq<bv8>) returns (err: ErrorCode)
      requires Valid()
      modifies this, bytes
      ensures Valid() && (Value(), err) == Decode(old(Value()), data)
    {
      if |data| != BLOCK_SIZE {
        return BlockSizeIllegal;
      }
      var ptr := 0;
      forall i | 0 <= i < DATA_SIZE {
        bytes[i] := data[ptr + i];
      }
      assert bytes[..] == data[..DATA_SIZE];
      ptr := ptr + DATA_SIZE;

      footer := footer.(magic := Get32(data[ptr..ptr + 4]));
      ptr := ptr + 4;
      if footer.magic != MAGIC {
        return BlockMagicIllegal;
      }
      footer := footer.(version := data[ptr]);
      ptr := ptr + 1;
      footer := footer.(flag := data[ptr]);
      ptr := ptr + 1;
      footer := footer.(length := Get16(data[ptr..ptr + 2]));
      ptr := ptr + 2;
      footer := footer.(extentId := Get64(data[ptr..ptr + 8]));
      ptr := ptr + 8;
      footer := footer.(reserved := data[ptr..ptr + 12]);
      ptr := ptr + 12;
      footer := footer.(crc := ReadCrc(data[ptr..ptr + 4]));
      ptr := ptr + 4;
      assert data[COVERED..] == data[COVERED..COVERED + 4];

      var calculated := Crc32(data[..ptr - 4]);
      if calculated != footer.crc {
        return BlockCrcMismatch;
      }
      return Ok;
    }
  }
}
