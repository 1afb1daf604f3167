/** What the device says about extents, and how each of the two writes changes it. */
module ExtentViews {
  import opened Bytes
  import opened ErrorCodes
  import opened PayloadBlocks
  import opened ExtentHeaders
  import opened Devices
  import opened ExtentGeometry
  import opened BitmapImages
  import opened ExtentProtocol

  /** Extent `i` is marked in the bitmap on the device. */
  predicate DiskBit(g: Geometry, disk: Disk, i: nat) {
    BitmapBlock(g, BitmapIndex(i)) in disk && ImageBit(disk[BitmapBlock(g, BitmapIndex(i))], i % DATA_SIZE)
  }

  function HeaderOn(g: Geometry, disk: Disk, i: nat): (Header, ErrorCode) {
    if HeaderBlock(g, i) in disk then HeaderDecode(BlankHeader(), disk[HeaderBlock(g, i)], Repaired)
    else (BlankHeader(), IoReadAtFailed)
  }

  /** The header of extent `i` is intact, as the repaired reader sees it, and carries its own bitmap index. */
  predicate HeaderGood(g: Geometry, disk: Disk, i: nat) {
    HeaderOn(g, disk, i).1 == Ok && HeaderOn(g, disk, i).0.fields.bitmapIndex == i
  }

  function OwnerAt(g: Geometry, disk: Disk, i: nat): U64 {
    HeaderOn(g, disk, i).0.fields.extentId
  }

  datatype View = View(bits: seq<bool>, good: seq<bool>, owner: seq<U64>)

  function ViewOf(g: Geometry, disk: Disk): (v: View)
    ensures |v.bits| == |v.good| == |v.owner| == g.count
    ensures forall i | 0 <= i < g.count ::
      v.bits[i] == DiskBit(g, disk, i) && v.good[i] == HeaderGood(g, disk, i) && v.owner[i] == OwnerAt(g, disk, i)
  {
    View(seq(g.count, i requires 0 <= i => DiskBit(g, disk, i)),
      seq(g.count, i requires 0 <= i => HeaderGood(g, disk, i)),
      seq(g.count, i requires 0 <= i => OwnerAt(g, disk, i)))
  }

  /** The bitmap blocks exist and are images of what they say. Header blocks may be missing. */
  ghost predicate Readable(g: Geometry, disk: Disk) {
    forall b | 0 <= b < LiveBlocks(g) ::
      BitmapBlock(g, b) in disk && disk[BitmapBlock(g, b)] == BitmapImage(ViewOf(g, disk).bits, b)
  }

  /** `bits` with the entries of block `b` taken from `source`. */
  function Merge(bits: seq<bool>, source: seq<bool>, b: nat): (r: seq<bool>)
    requires |bits| == |source|
    ensures |r| == |bits|
  {
    seq(|bits|, i requires 0 <= i < |bits| => if BitmapIndex(i) == b then source[i] else bits[i])
  }

  /** The two devices hold the same block `k`, or neither has it. */
  ghost predicate SameAt(disk: Disk, after: Disk, k: nat) {
    (k in disk <==> k in after) && (k in disk ==> disk[k] == after[k])
  }

  lemma BitsUnchanged(g: Geometry, disk: Disk, after: Disk)
    requires forall b | 0 <= b < LiveBlocks(g) :: SameAt(disk, after, BitmapBlock(g, b))
    ensures ViewOf(g, after).bits == ViewOf(g, disk).bits
  {
    hide BitmapBlock, LiveBlocks, ImageBit;
    var v, w := ViewOf(g, disk).bits, ViewOf(g, after).bits;
    forall j | 0 <= j < g.count ensures v[j] == w[j] {
      LiveIndex(g, j);
      assert SameAt(disk, after, BitmapBlock(g, BitmapIndex(j)));
    }
  }

  lemma HeaderUnchanged(g: Geometry, disk: Disk, after: Disk, i: nat)
    requires SameAt(disk, after, HeaderBlock(g, i))
    ensures HeaderGood(g, after, i) == HeaderGood(g, disk, i) && OwnerAt(g, after, i) == OwnerAt(g, disk, i)
  {
    hide HeaderBlock, HeaderDecode;
  }

  lemma HeaderWritten(g: Geometry, after: Disk, i: nat, h: Header)
    requires h.Valid() && h.fields.bitmapIndex == i
    requires HeaderBlock(g, i) in after && after[HeaderBlock(g, i)] == HeaderEncode(h)
    ensures HeaderGood(g, after, i) && OwnerAt(g, after, i) == h.fields.extentId
  {
    HeaderRoundTrip(BlankHeader(), h);
    hide HeaderBlock, HeaderDecode, HeaderEncode;
  }

  /** A header that lands changes what is known of its own extent and of nothing else. */
  lemma HeaderLands(g: Geometry, disk: Disk, i: nat, h: Header)
    requires Roomy(g) && Readable(g, disk) && i < g.count && h.Valid() && h.fields.bitmapIndex == i
    ensures var after := disk[HeaderBlock(g, i) := HeaderEncode(h)];
      && Readable(g, after)
      && ViewOf(g, after).bits == ViewOf(g, disk).bits
      && ViewOf(g, after).good == ViewOf(g, disk).good[i := true]
      && ViewOf(g, after).owner == ViewOf(g, disk).owner[i := h.fields.extentId]
  {
    hide HeaderBlock, BitmapBlock, LiveBlocks, HeaderEncode, HeaderGood, OwnerAt, DiskBit, BitmapImage, Roomy,
      ExtentOffset;
    AddressesApart(g);
    var after := disk[HeaderBlock(g, i) := HeaderEncode(h)];
    forall b | 0 <= b < LiveBlocks(g) ensures SameAt(disk, after, BitmapBlock(g, b)) {
      assert BitmapBlock(g, b) < HeaderBlock(g, i);
    }
    BitsUnchanged(g, disk, after);
    var v, w := ViewOf(g, disk), ViewOf(g, after);
    HeaderWritten(g, after, i, h);
    forall j | 0 <= j < g.count && j != i ensures w.good[j] == v.good[j] && w.owner[j] == v.owner[j] {
      assert if i < j then HeaderBlock(g, i) < HeaderBlock(g, j) else HeaderBlock(g, j) < HeaderBlock(g, i);
      assert SameAt(disk, after, HeaderBlock(g, j));
      HeaderUnchanged(g, disk, after, j);
    }
    assert w.good == v.good[i := true];
    assert w.owner == v.owner[i := h.fields.extentId];
  }

  lemma BitMerged(g: Geometry, disk: Disk, after: Disk, b: nat, source: seq<bool>, j: nat)
    requires |source| == g.count && j < g.count
    requires BitmapBlock(g, b) in after && after[BitmapBlock(g, b)] == BitmapImage(source, b)
    requires BitmapIndex(j) != b ==> SameAt(disk, after, BitmapBlock(g, BitmapIndex(j)))
    ensures DiskBit(g, after, j) == if BitmapIndex(j) == b then source[j] else DiskBit(g, disk, j)
  {
    hide BitmapBlock, ImageBit, BitmapImage;
    if BitmapIndex(j) == b {
      ImageBits(source, b, j % DATA_SIZE);
    }
  }

  /** A bitmap block that lands sets the entries of its own block and changes nothing else. */
  lemma BitmapLands(g: Geometry, disk: Disk, b: nat, source: seq<bool>)
    requires Roomy(g) && Readable(g, disk) && b < LiveBlocks(g) && |source| == g.count
    ensures var after := disk[BitmapBlock(g, b) := BitmapImage(source, b)];
      && Readable(g, after)
      && ViewOf(g, after).bits == Merge(ViewOf(g, disk).bits, source, b)
      && ViewOf(g, after).good == ViewOf(g, disk).good
      && ViewOf(g, after).owner == ViewOf(g, disk).owner
  {
    hide HeaderBlock, BitmapBlock, LiveBlocks, HeaderGood, OwnerAt, DiskBit, BitmapImage, Roomy, ExtentOffset,
      BitmapIndex;
    AddressesApart(g);
    var after := disk[BitmapBlock(g, b) := BitmapImage(source, b)];
    var v, w := ViewOf(g, disk), ViewOf(g, after);
    var merged := Merge(v.bits, source, b);
    forall j | 0 <= j < g.count ensures w.good[j] == v.good[j] && w.owner[j] == v.owner[j] {
      assert BitmapBlock(g, b) < HeaderBlock(g, j);
      assert SameAt(disk, after, HeaderBlock(g, j));
      HeaderUnchanged(g, disk, after, j);
    }
    assert w.good == v.good && w.owner == v.owner;
    forall c | 0 <= c < LiveBlocks(g) && c != b ensures SameAt(disk, after, BitmapBlock(g, c)) {
    }
    forall j | 0 <= j < g.count ensures w.bits[j] == merged[j] {
      LiveIndex(g, j);
      BitMerged(g, disk, after, b, source, j);
    }
    assert w.bits == merged;
    ImagesMerged(g, disk, after, b, source);
  }

  lemma ImagesMerged(g: Geometry, disk: Disk, after: Disk, b: nat, source: seq<bool>)
    requires Readable(g, disk) && |source| == g.count
    requires BitmapBlock(g, b) in after && after[BitmapBlock(g, b)] == BitmapImage(source, b)
    requires forall c | 0 <= c < LiveBlocks(g) && c != b :: SameAt(disk, after, BitmapBlock(g, c))
    requires ViewOf(g, after).bits == Merge(ViewOf(g, disk).bits, source, b)
    ensures forall c | 0 <= c < LiveBlocks(g) ::
      BitmapBlock(g, c) in after && after[BitmapBlock(g, c)] == BitmapImage(ViewOf(g, after).bits, c)
  {
    hide BitmapBlock, LiveBlocks, BitmapImage, ViewOf;
    var bits, merged := ViewOf(g, disk).bits, ViewOf(g, after).bits;
    forall c | 0 <= c < LiveBlocks(g)
      ensures BitmapBlock(g, c) in after && after[BitmapBlock(g, c)] == BitmapImage(merged, c)
    {
      if c == b {
        SameImage(source, merged, b);
      } else {
        assert SameAt(disk, after, BitmapBlock(g, c));
        SameImage(bits, merged, c);
      }
    }
  }

  /** A blank device shows nothing marked. */
  lemma BlankView(cfg: Config, disk: Disk)
    requires BlankDevice(cfg, disk)
    ensures Readable(cfg.geo, disk)
    ensures ViewOf(cfg.geo, disk).bits == FreshMemory(cfg.geo.count).bitmap
  {
    var g := cfg.geo;
    var bits := FreshMemory(g.count).bitmap;
    hide HeaderBlock, BitmapBlock, LiveBlocks, HeaderDecode, ImageBit, BitmapImage;
    forall i | 0 <= i < g.count ensures DiskBit(g, disk, i) == bits[i] {
      LiveIndex(g, i);
      ImageBits(bits, BitmapIndex(i), i % DATA_SIZE);
    }
    assert ViewOf(g, disk).bits == bits;
  }

  /** What a delete finds when it reads the header of a live extent. */
  lemma InspectGood(cfg: Config, disk: Disk, i: nat, id: U64)
    requires HeaderGood(cfg.geo, disk, i)
    ensures HeaderBlock(cfg.geo, i) in disk
    ensures Inspect(cfg, disk[HeaderBlock(cfg.geo, i)], id) ==
      if cfg.fixes.header.AsWritten? then BlockMagicIllegal
      else if OwnerAt(cfg.geo, disk, i) != id then InternalError else Ok
  {
    hide HeaderDecode, HeaderEncode, HeaderBlock, HeaderAccepted;
    var block := disk[HeaderBlock(cfg.geo, i)];
    HeaderCanonical(BlankHeader(), block);
    var h := HeaderDecode(BlankHeader(), block, Repaired).0;
    HeaderAsWrittenIsUnreadable(BlankHeader(), h);
  }
}
