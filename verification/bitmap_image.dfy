/** The bitmap on the device: `sizeof(uint8_t)` is 1, so a block holds one byte, 0 or 1, for each of 4064 extents. */
module BitmapImages {
  import opened Bytes
  import opened CrcRegister
  import opened ErrorCodes
  import opened SealedBlock
  import opened PayloadBlocks

  /** The payload of bitmap block `b`. */
  function BitmapBytes(bits: seq<bool>, b: nat): (bytes: seq<bv8>)
    ensures |bytes| == DATA_SIZE
  {
    seq(DATA_SIZE, k requires 0 <= k => if b * DATA_SIZE + k < |bits| && bits[b * DATA_SIZE + k] then 1 else 0)
  }

  function BlankPayload(): (v: Payload)
    ensures v.Valid()
  {
    Payload(Zeros(DATA_SIZE), BlockFooter(0, 0, 0, 0, 0, Zeros(12), 0))
  }

  function BitmapPayload(bits: seq<bool>, b: nat): (v: Payload)
    ensures v.Valid()
  {
    Payload(BitmapBytes(bits, b), BlankPayload().footer.FillWithoutExtentId(DATA_SIZE))
  }

  /** The block that stands for entries `4064 * b` onwards. */
  function BitmapImage(bits: seq<bool>, b: nat): (block: seq<bv8>)
    ensures |block| == BLOCK_SIZE
  {
    Encode(BitmapPayload(bits, b))
  }

  /** Entry `k` of a block, as whoever reads the device sees it. */
  predicate ImageBit(block: seq<bv8>, k: nat)
    requires k < DATA_SIZE
  {
    var r := Decode(BlankPayload(), block);
    r.1 == Ok && r.0.bytes[k] != 0
  }

  lemma ImageDecodes(v0: Payload, bits: seq<bool>, b: nat)
    requires v0.Valid()
    ensures Decode(v0, BitmapImage(bits, b)).1 == Ok
    ensures Decode(v0, BitmapImage(bits, b)).0.bytes == BitmapBytes(bits, b)
  {
    RoundTrip(v0, BitmapPayload(bits, b));
  }

  /** The footer of every bitmap block on the device, byte for byte, and what it says: length 4064, extent id 0. */
  lemma ImageFooter(v0: Payload, bits: seq<bool>, b: nat)
    requires v0.Valid()
    ensures BitmapImage(bits, b)[4064..4092] == [0x20, 0x25, 0x04, 0x30, 1, 0, 0x0F, 0xE0] + Zeros(20)
    ensures var (v, err) := Decode(v0, BitmapImage(bits, b));
      && err == Ok
      && v.footer.version == 1 && v.footer.flag == 0 && v.footer.length == 4064 && v.footer.extentId == 0
      && v.footer.reserved == Zeros(12)
  {
    ImageValues(v0, bits, b);
    BlankFooter(bits, b);
    hide Decode, BitmapImage, BitmapPayload;
    ImageFooterBytes(bits, b);
  }

  lemma ImageFooterBytes(bits: seq<bool>, b: nat)
    ensures BitmapImage(bits, b)[4064..4092] == [0x20, 0x25, 0x04, 0x30, 1, 0, 0x0F, 0xE0] + Zeros(20)
  {
    hide Be16, Be32, Be64, CrcBytes, Encode, BitmapPayload, FooterLies;
    WrittenAs(BitmapPayload(bits, b));
    BlankFooter(bits, b);
    LiteralFooter(BitmapImage(bits, b), BitmapPayload(bits, b).footer.(magic := 0x2025_0430,
      crc := Crc(BitmapImage(bits, b)[..4092])));
  }

  lemma LiteralFooter(data: seq<bv8>, f: BlockFooter)
    requires |data| == 4096 && FooterLies(data, 4064, f) && data[4064..4068] == MAGIC_BYTES
    requires f.version == 1 && f.flag == 0 && f.length == 4064 && f.extentId == 0 && f.reserved == Zeros(12)
    ensures data[4064..4092] == [0x20, 0x25, 0x04, 0x30, 1, 0, 0x0F, 0xE0] + Zeros(20)
  {
    FooterNumbers();
    hide Be16, Be32, Be64, CrcBytes;
    assert data[4064..4092]
      == data[4064..4068] + [data[4068], data[4069]] + data[4070..4072] + data[4072..4080] + data[4080..4092];
  }

  lemma BlankFooter(bits: seq<bool>, b: nat)
    ensures var f := BitmapPayload(bits, b).footer;
      f.version == 1 && f.flag == 0 && f.length == 4064 && f.extentId == 0 && f.reserved == Zeros(12)
  {
  }

  lemma FooterNumbers()
    ensures Be16(4064) == [0x0F, 0xE0] && Be64(0) == Zeros(8)
  {
    var b1: seq<bv8>, b2: seq<bv8> := [0x0F], [0x0F, 0xE0];
    assert b1[..0] == [] && b2[..1] == b1;
    assert FromBigEndian(b1) == 0x0F;
    assert Get16(b2) == 4064;
    ZeroBytes(8);
    WidthBounds();
  }

  lemma {:induction false} ZeroBytes(width: nat)
    requires 0 < Pow256(width)
    ensures BigEndian(0, width) == Zeros(width)
    decreases width
  {
    if width != 0 {
      ZeroBytes(width - 1);
    }
  }

  lemma ImageValues(v0: Payload, bits: seq<bool>, b: nat)
    requires v0.Valid()
    ensures Decode(v0, BitmapImage(bits, b)) == (Stamped(BitmapPayload(bits, b)), ErrorCode.Ok)
  {
    RoundTrip(v0, BitmapPayload(bits, b));
  }

  /** A block reads back as the entries it was made from; entries past the last extent read as free. */
  lemma ImageBits(bits: seq<bool>, b: nat, k: nat)
    requires k < DATA_SIZE
    ensures ImageBit(BitmapImage(bits, b), k) <==> b * DATA_SIZE + k < |bits| && bits[b * DATA_SIZE + k]
  {
    ImageDecodes(BlankPayload(), bits, b);
    hide Decode, BitmapImage;
    ByteIsBit(bits, b, k);
  }

  lemma ByteIsBit(bits: seq<bool>, b: nat, k: nat)
    requires k < DATA_SIZE
    ensures BitmapBytes(bits, b)[k] != 0 <==> b * DATA_SIZE + k < |bits| && bits[b * DATA_SIZE + k]
  {
  }

  /** All bitmap blocks, decoded in order, give the bitmap back. */
  lemma BitmapRoundTrip(bits: seq<bool>, blocks: seq<seq<bv8>>)
    requires |bits| <= |blocks| * DATA_SIZE
    requires forall b | 0 <= b < |blocks| :: blocks[b] == BitmapImage(bits, b)
    ensures seq(|bits|, i requires 0 <= i < |bits| => ImageBit(blocks[i / DATA_SIZE], i % DATA_SIZE)) == bits
  {
    hide ImageBit, BitmapImage;
    forall i | 0 <= i < |bits| ensures ImageBit(blocks[i / DATA_SIZE], i % DATA_SIZE) == bits[i] {
      ImageBits(bits, i / DATA_SIZE, i % DATA_SIZE);
      assert i / DATA_SIZE * DATA_SIZE + i % DATA_SIZE == i;
    }
  }

  /** The two bitmaps agree on the entries of block `b`. */
  ghost predicate SameBlock(bits: seq<bool>, other: seq<bool>, b: nat)
    requires |bits| == |other|
  {
    forall i | 0 <= i < |bits| && i / DATA_SIZE == b :: bits[i] == other[i]
  }

  lemma SameBytes(bits: seq<bool>, other: seq<bool>, b: nat)
    requires |bits| == |other| && SameBlock(bits, other, b)
    ensures BitmapBytes(bits, b) == BitmapBytes(other, b)
  {
    forall k | 0 <= k < DATA_SIZE ensures BitmapBytes(bits, b)[k] == BitmapBytes(other, b)[k] {
      assert (b * DATA_SIZE + k) / DATA_SIZE == b;
    }
  }

  lemma SameImage(bits: seq<bool>, other: seq<bool>, b: nat)
    requires |bits| == |other| && SameBlock(bits, other, b)
    ensures BitmapImage(bits, b) == BitmapImage(other, b)
  {
    SameBytes(bits, other, b);
    hide BitmapBytes, Encode;
  }

  /** An image depends on the entries of its own block and on no others, and on all of those. */
  lemma ImageExactly(bits: seq<bool>, other: seq<bool>, b: nat)
    requires |bits| == |other|
    ensures BitmapImage(bits, b) == BitmapImage(other, b) <==> SameBlock(bits, other, b)
  {
    hide BitmapBytes, BitmapImage, ImageBit;
    if SameBlock(bits, other, b) {
      SameImage(bits, other, b);
    }
    if BitmapImage(bits, b) == BitmapImage(other, b) {
      forall i | 0 <= i < |bits| && i / DATA_SIZE == b ensures bits[i] == other[i] {
        ImageBits(bits, b, i % DATA_SIZE);
        ImageBits(other, b, i % DATA_SIZE);
      }
    }
  }

  /** What the clone loop sees: from 2^31 extents on their number is negative as an `int`, and it does not run. */
  function Cloned(bits: seq<bool>): (r: seq<bool>)
    ensures |r| == |bits|
  {
    if |bits| < 0x8000_0000 then bits else seq(|bits|, i => false)
  }

  /** Marking one entry of a clone is cloning the bitmap with that entry changed. */
  lemma MarkIsUpdate(bits: seq<bool>, i: nat, used: bool)
    requires i < |bits|
    ensures BitmapBytes(bits, i / DATA_SIZE)[i % DATA_SIZE := if used then 1 else 0]
      == BitmapBytes(bits[i := used], i / DATA_SIZE)
  {
  }
}
