/** Where the extent manager reads and writes: the address arithmetic of `PancakeExtentManager`, widths included. */
module ExtentGeometry {
  import opened Bytes
  import opened ErrorCodes
  import opened SealedBlock
  import opened PayloadBlocks
  import opened Devices
  import opened Layouts

  /** The arguments of `Init`. */
  datatype Geometry = Geometry(
    offset: U64,
    bitmapBlocks: U32,
    count: U32,
    extentSize: U32,
    extentsOffset: U64)

  /** The guards of `Init`; the product has 32 bits. */
  function InitCheck(g: Geometry): ErrorCode {
    if g.count > (g.bitmapBlocks * DATA_SIZE) % 0x1_0000_0000 then FsInitFailed
    else if !IsBlockAlign(g.offset) then FsInitFailed
    else if !IsBlockAlign(g.extentsOffset) then FsInitFailed
    else Ok
  }

  function BitmapIndex(i: nat): (b: nat) {
    i / DATA_SIZE
  }

  /** The product has 32 bits, the sum 64. */
  function BitmapOffset(g: Geometry, b: nat): U64 {
    (g.offset + (b * BLOCK_SIZE) % 0x1_0000_0000) % 0x1_0000_0000_0000_0000
  }

  function ExtentOffset(g: Geometry, i: nat): U64 {
    (i * g.extentSize + g.extentsOffset) % 0x1_0000_0000_0000_0000
  }

  function BitmapBlock(g: Geometry, b: nat): nat {
    BitmapOffset(g, b) / BLOCK_SIZE
  }

  function HeaderBlock(g: Geometry, i: nat): nat {
    ExtentOffset(g, i) / BLOCK_SIZE
  }

  /** The bitmap blocks that hold the entry of some extent. */
  function LiveBlocks(g: Geometry): nat {
    Layouts.BitmapBlocks(g.count)
  }

  /** The clone loop of extent `i` computes in `int`: beyond this its bounds overflow, which C++ leaves undefined. */
  predicate CloneDefined(i: nat) {
    BitmapIndex(i) * DATA_SIZE + DATA_SIZE <= 0x7FFF_FFFF
  }

  /** The extents that the clone loop can serve. */
  const CLONE_LIMIT: nat := 2147482624

  /** The product in the guard may wrap, but then it is only smaller: what `Init` lets pass fits the bitmap. */
  lemma InitGuard(g: Geometry)
    ensures InitCheck(g) == Ok ==> forall i | 0 <= i < g.count :: BitmapIndex(i) < g.bitmapBlocks
    ensures g.bitmapBlocks <= 1056832 ==>
      (InitCheck(g) == Ok <==>
        g.count <= g.bitmapBlocks * DATA_SIZE && IsBlockAlign(g.offset) && IsBlockAlign(g.extentsOffset))
    ensures InitCheck(g) == Ok ==> g.offset % 4096 == 0 && g.extentsOffset % 4096 == 0
    ensures InitCheck(g) == Ok || InitCheck(g) == FsInitFailed
  {
    assert 1056832 * DATA_SIZE < 0x1_0000_0000;
    if InitCheck(g) == Ok {
      assert g.count <= g.bitmapBlocks * DATA_SIZE;
      forall i | 0 <= i < g.count ensures BitmapIndex(i) < g.bitmapBlocks {
      }
    }
  }

  /** The 32-bit product in a bitmap block's offset is exact for the extents below 4261412864, and for no others. */
  lemma BitmapProduct(g: Geometry, i: U32)
    ensures BitmapOffset(g, BitmapIndex(i)) == (g.offset + i / 4064 * 4096) % 0x1_0000_0000_0000_0000
      <==> i < 4261412864
  {
    var product := i / 4064 * 4096;
    assert i < 4261412864 <==> product < 0x1_0000_0000;
    if product >= 0x1_0000_0000 {
      WrapsApart(g.offset + product - 0x1_0000_0000, 0x1_0000_0000);
    }
  }

  /**
   The guard lets through exactly the counts that fit the bitmap, for every count there is, precisely
   when the 32-bit product does not wrap.
   */
  lemma GuardExactly(g: Geometry)
    requires IsBlockAlign(g.offset) && IsBlockAlign(g.extentsOffset)
    ensures (forall n: U32 :: InitCheck(g.(count := n)) == Ok <==> n <= g.bitmapBlocks * DATA_SIZE)
      <==> g.bitmapBlocks <= 1056832
  {
    var product := g.bitmapBlocks * DATA_SIZE;
    if g.bitmapBlocks > 1056832 {
      var n: U32 := 0xFFFF_FFFF;
      assert product >= 1056833 * DATA_SIZE > n;
      WrapsToMultiple(g.bitmapBlocks);
      assert !(InitCheck(g.(count := n)) == Ok <==> n <= product);
    }
  }

  /** A multiple of 4064 is one of 32, and so is what is left of it in 32 bits. */
  lemma WrapsToMultiple(blocks: nat)
    ensures (blocks * DATA_SIZE) % 0x1_0000_0000 < 0xFFFF_FFFF
  {
    var product := blocks * DATA_SIZE;
    var q := product / 0x1_0000_0000;
    assert product == 32 * (blocks * 127);
    assert product % 0x1_0000_0000 == 32 * (blocks * 127 - q * 0x800_0000);
    NotAllOnes(blocks * 127 - q * 0x800_0000);
  }

  lemma NotAllOnes(k: int)
    ensures 32 * k != 0xFFFF_FFFF
  {
  }

  /** As written, the cursor is never reduced modulo zero: `Init` accepts no bitmap blocks only for no extents. */
  lemma NoBlocksNoExtents(g: Geometry)
    requires InitCheck(g) == Ok && g.bitmapBlocks == 0
    ensures g.count == 0
  {
  }

  /** The `int` arithmetic of the clone loop stays in range for every extent exactly up to this count. */
  lemma CloneRange(count: U32)
    ensures (forall i | 0 <= i < count :: CloneDefined(i)) <==> count <= CLONE_LIMIT
  {
    if count > CLONE_LIMIT {
      assert !CloneDefined(CLONE_LIMIT);
    }
  }

  /** Nothing wraps, the bitmap lies before the extents, and every extent has room for its header. */
  ghost predicate Roomy(g: Geometry) {
    && IsBlockAlign(g.offset) && IsBlockAlign(g.extentsOffset) && IsBlockAlign(g.extentSize)
    && BLOCK_SIZE <= g.extentSize
    && LiveBlocks(g) * BLOCK_SIZE <= 0x1_0000_0000
    && g.offset + LiveBlocks(g) * BLOCK_SIZE <= g.extentsOffset
    && g.extentsOffset + g.count * g.extentSize <= 0x1_0000_0000_0000_0000
  }

  lemma LiveIndex(g: Geometry, i: nat)
    requires i < g.count
    ensures BitmapIndex(i) < LiveBlocks(g)
  {
  }

  /** A block number and an aligned start make an aligned offset. */
  lemma BlocksFrom(start: nat, b: nat)
    requires IsBlockAlign(start)
    ensures IsBlockAlign(start + b * BLOCK_SIZE) && (start + b * BLOCK_SIZE) / BLOCK_SIZE == start / BLOCK_SIZE + b
  {
  }

  lemma BitmapOffsetExact(g: Geometry, b: nat)
    requires g.offset + b * BLOCK_SIZE < 0x1_0000_0000_0000_0000 && b * BLOCK_SIZE < 0x1_0000_0000
    ensures BitmapOffset(g, b) == g.offset + b * BLOCK_SIZE
  {
  }

  lemma BitmapAddress(g: Geometry, b: nat)
    requires Roomy(g) && b < LiveBlocks(g)
    ensures BitmapOffset(g, b) == g.offset + b * BLOCK_SIZE
    ensures IsBlockAlign(BitmapOffset(g, b)) && BitmapBlock(g, b) == g.offset / BLOCK_SIZE + b
    ensures BitmapBlock(g, b) < g.extentsOffset / BLOCK_SIZE
  {
    hide LiveBlocks, BitmapOffset;
    assert b * BLOCK_SIZE + BLOCK_SIZE <= LiveBlocks(g) * BLOCK_SIZE;
    BitmapOffsetExact(g, b);
    BlocksFrom(g.offset, b);
  }

  lemma Monotone(i: nat, j: nat, size: nat)
    requires i <= j
    ensures i * size <= j * size
  {
    assert j * size == i * size + (j - i) * size;
  }

  lemma Product(i: nat, j: nat, size: nat)
    requires i < j
    ensures i * size + size <= j * size
  {
    assert j * size == (i + 1) * size + (j - i - 1) * size;
  }

  lemma AlignedMultiple(i: nat, size: nat)
    requires IsBlockAlign(size)
    ensures IsBlockAlign(i * size) && i * size / BLOCK_SIZE == i * (size / BLOCK_SIZE)
  {
    var n := size / BLOCK_SIZE;
    assert i * size == i * (n * BLOCK_SIZE) == (i * n) * BLOCK_SIZE;
    Quotient(i * n);
  }

  lemma Quotient(k: nat)
    ensures IsBlockAlign(k * BLOCK_SIZE) && k * BLOCK_SIZE / BLOCK_SIZE == k
  {
  }

  lemma ExtentAddress(g: Geometry, i: nat)
    requires Roomy(g) && i < g.count
    ensures ExtentOffset(g, i) == i * g.extentSize + g.extentsOffset
    ensures IsBlockAlign(ExtentOffset(g, i))
    ensures HeaderBlock(g, i) == g.extentsOffset / BLOCK_SIZE + i * (g.extentSize / BLOCK_SIZE)
  {
    Product(i, g.count, g.extentSize);
    AlignedMultiple(i, g.extentSize);
    BlocksFrom(g.extentsOffset, i * (g.extentSize / BLOCK_SIZE));
    var a := i * g.extentSize;
    assert a + g.extentsOffset < 0x1_0000_0000_0000_0000;
    assert a == i * (g.extentSize / BLOCK_SIZE) * BLOCK_SIZE;
  }

  /** Whatever the index, an extent's offset is aligned: the 64-bit wrap keeps alignment. */
  lemma ExtentAligned(g: Geometry, i: nat)
    requires IsBlockAlign(g.extentsOffset) && IsBlockAlign(g.extentSize)
    ensures IsBlockAlign(ExtentOffset(g, i))
  {
    AlignedMultiple(i, g.extentSize);
    AlignedSum(i * g.extentSize, g.extentsOffset);
    AlignedWrap(i * g.extentSize + g.extentsOffset);
  }

  lemma AlignedSum(a: nat, b: nat)
    requires IsBlockAlign(a) && IsBlockAlign(b)
    ensures IsBlockAlign(a + b)
  {
  }

  lemma AlignedWrap(sum: nat)
    requires IsBlockAlign(sum)
    ensures IsBlockAlign(sum % 0x1_0000_0000_0000_0000)
  {
    var q, n := sum / 0x1_0000_0000_0000_0000, sum / BLOCK_SIZE;
    assert sum == n * BLOCK_SIZE;
    assert sum % 0x1_0000_0000_0000_0000 == (n - q * 0x10_0000_0000_0000) * BLOCK_SIZE;
    Quotient(n - q * 0x10_0000_0000_0000);
  }

  lemma HeadersApart(g: Geometry, i: nat, j: nat)
    requires Roomy(g) && i < j < g.count
    ensures HeaderBlock(g, i) < HeaderBlock(g, i) + g.extentSize / BLOCK_SIZE <= HeaderBlock(g, j)
    ensures ExtentOffset(g, i) != ExtentOffset(g, j)
  {
    ExtentAddress(g, i);
    ExtentAddress(g, j);
    Product(i, j, g.extentSize / BLOCK_SIZE);
    Product(i, j, g.extentSize);
    hide HeaderBlock, ExtentOffset;
  }

  lemma BitmapBelowHeader(g: Geometry, b: nat, i: nat)
    requires Roomy(g) && b < LiveBlocks(g) && i < g.count
    ensures BitmapBlock(g, b) < HeaderBlock(g, i)
  {
    hide HeaderBlock, BitmapBlock, LiveBlocks, Roomy, ExtentOffset, BitmapOffset;
    BitmapAddress(g, b);
    ExtentAddress(g, i);
    Monotone(0, i, g.extentSize / BLOCK_SIZE);
  }

  lemma HeaderNotBitmap(g: Geometry, i: nat)
    requires Roomy(g) && i < g.count
    ensures HeaderBlock(g, i) != BitmapBlock(g, BitmapIndex(i))
  {
    hide HeaderBlock, BitmapBlock, BitmapIndex;
    LiveIndex(g, i);
    BitmapBelowHeader(g, BitmapIndex(i), i);
  }

  /**
   Headers lie at the starts of extents that do not overlap; bitmap blocks are apart from them and
   from each other.
   */
  lemma AddressesApart(g: Geometry)
    requires Roomy(g)
    ensures forall i, j | 0 <= i < j < g.count :: HeaderBlock(g, i) + g.extentSize / BLOCK_SIZE <= HeaderBlock(g, j)
    ensures forall i, j | 0 <= i < j < g.count :: HeaderBlock(g, i) < HeaderBlock(g, j)
    ensures forall i, j | 0 <= i < j < g.count :: ExtentOffset(g, i) != ExtentOffset(g, j)
    ensures forall b, c | 0 <= b < c < LiveBlocks(g) :: BitmapBlock(g, b) < BitmapBlock(g, c)
    ensures forall b, i | 0 <= b < LiveBlocks(g) && 0 <= i < g.count :: BitmapBlock(g, b) < HeaderBlock(g, i)
  {
    hide HeaderBlock, ExtentOffset, BitmapBlock, LiveBlocks, Roomy;
    forall i, j | 0 <= i < j < g.count
      ensures HeaderBlock(g, i) + g.extentSize / BLOCK_SIZE <= HeaderBlock(g, j)
      ensures HeaderBlock(g, i) < HeaderBlock(g, j)
      ensures ExtentOffset(g, i) != ExtentOffset(g, j)
    {
      HeadersApart(g, i, j);
    }
    forall b, c | 0 <= b < c < LiveBlocks(g) ensures BitmapBlock(g, b) < BitmapBlock(g, c) {
      BitmapAddress(g, b);
      BitmapAddress(g, c);
    }
    forall b, i | 0 <= b < LiveBlocks(g) && 0 <= i < g.count ensures BitmapBlock(g, b) < HeaderBlock(g, i) {
      BitmapBelowHeader(g, b, i);
    }
  }

  // ---- what `Init` does not look at ----

  lemma WrapsApart(a: nat, d: nat)
    requires 0 < d < 0x1_0000_0000_0000_0000
    ensures a % 0x1_0000_0000_0000_0000 != (a + d) % 0x1_0000_0000_0000_0000
  {
  }

  lemma ShortProduct(n: U32, size: U32)
    ensures 0 <= n * size < 0x1_0000_0000_0000_0000
  {
    Monotone(0, n, size);
    Monotone(n, 0xFFFF_FFFF, size);
  }

  lemma ExtentsApart(g: Geometry, i: nat, j: nat)
    requires i < j < g.count && 0 < g.extentSize
    ensures ExtentOffset(g, i) != ExtentOffset(g, j)
  {
    var n: U32, size: U32 := j - i, g.extentSize;
    ShortProduct(n, size);
    assert 0 < n * size;
    assert i * size + n * size == j * size;
    WrapsApart(i * size + g.extentsOffset, n * size);
  }

  lemma AlignedBlocks(a: nat, b: nat)
    requires IsBlockAlign(a) && IsBlockAlign(b) && a != b
    ensures a / BLOCK_SIZE != b / BLOCK_SIZE
  {
  }

  lemma SecondExtent(g: Geometry)
    requires IsBlockAlign(g.extentsOffset)
    ensures IsBlockAlign(ExtentOffset(g, 1)) <==> IsBlockAlign(g.extentSize)
    ensures g.extentSize == 0 ==> HeaderBlock(g, 1) == HeaderBlock(g, 0)
  {
    var sum := g.extentSize + g.extentsOffset;
    assert 0x1_0000_0000_0000_0000 == 0x10_0000_0000_0000 * BLOCK_SIZE;
    assert ExtentOffset(g, 1) == sum || ExtentOffset(g, 1) == sum - 0x1_0000_0000_0000_0000;
  }

  /**
   `Init` does not look at the extent size. Of what it accepts, the headers of all extents are aligned and
   in blocks of their own exactly when there is at most one extent or the size is a positive number of
   blocks: 64-bit addresses that wrap never meet.
   */
  lemma HeadersExactly(g: Geometry)
    requires InitCheck(g) == Ok
    ensures (forall i | 0 <= i < g.count :: IsBlockAlign(ExtentOffset(g, i)))
        && (forall i, j | 0 <= i < j < g.count :: HeaderBlock(g, i) != HeaderBlock(g, j))
      <==> g.count < 2 || (0 < g.extentSize && IsBlockAlign(g.extentSize))
  {
    hide ExtentOffset;
    if g.count < 2 {
      FirstExtent(g);
    } else if 0 < g.extentSize && IsBlockAlign(g.extentSize) {
      forall i | 0 <= i < g.count ensures IsBlockAlign(ExtentOffset(g, i)) {
        ExtentAligned(g, i);
      }
      forall i, j | 0 <= i < j < g.count ensures HeaderBlock(g, i) != HeaderBlock(g, j) {
        ExtentsApart(g, i, j);
        AlignedBlocks(ExtentOffset(g, i), ExtentOffset(g, j));
      }
    } else {
      SecondExtent(g);
      hide HeaderBlock;
      assert !(IsBlockAlign(ExtentOffset(g, 1)) && HeaderBlock(g, 0) != HeaderBlock(g, 1));
    }
  }

  lemma FirstExtent(g: Geometry)
    ensures ExtentOffset(g, 0) == g.extentsOffset
  {
  }

  /** The first extent that does not start before the bitmap. */
  function FirstBehind(g: Geometry): (i: nat)
    requires 0 < g.extentSize
  {
    if g.offset <= g.extentsOffset then 0 else (g.offset - g.extentsOffset + g.extentSize - 1) / g.extentSize
  }

  lemma RoundedUp(d: nat, size: nat, i: nat)
    requires 0 < size
    ensures i < (d + size - 1) / size <==> i * size < d
  {
    var n := (d + size - 1) / size;
    DividedBy(d + size - 1, size);
    if i < n {
      Product(i, n, size);
    } else {
      Monotone(n, i, size);
    }
  }

  lemma DividedBy(x: nat, size: nat)
    requires 0 < size
    ensures x / size * size <= x < x / size * size + size
  {
  }

  lemma FirstBehindIs(g: Geometry, i: nat)
    requires 0 < g.extentSize
    ensures i < FirstBehind(g) <==> i * g.extentSize + g.extentsOffset < g.offset
  {
    if g.extentsOffset < g.offset {
      RoundedUp(g.offset - g.extentsOffset, g.extentSize, i);
    } else {
      Monotone(0, i, g.extentSize);
    }
  }

  /**
   Nor does it look at where the regions lie. If nothing wraps, the bitmap blocks are apart from the headers
   exactly when the first extent that does not start before the bitmap starts behind it or does not exist.
   */
  lemma BitmapApartExactly(g: Geometry)
    requires InitCheck(g) == Ok && 0 < g.extentSize && IsBlockAlign(g.extentSize)
    requires LiveBlocks(g) * BLOCK_SIZE <= 0x1_0000_0000
    requires g.offset + LiveBlocks(g) * BLOCK_SIZE <= 0x1_0000_0000_0000_0000
    requires g.extentsOffset + g.count * g.extentSize <= 0x1_0000_0000_0000_0000
    ensures (forall b, i | 0 <= b < LiveBlocks(g) && 0 <= i < g.count :: BitmapBlock(g, b) != HeaderBlock(g, i))
      <==> (g.count <= FirstBehind(g)
        || g.offset + LiveBlocks(g) * BLOCK_SIZE <= FirstBehind(g) * g.extentSize + g.extentsOffset)
  {
    hide BitmapBlock, HeaderBlock, LiveBlocks, FirstBehind;
    var n := FirstBehind(g);
    FirstBehindIs(g, n);
    if n < g.count && n * g.extentSize + g.extentsOffset < g.offset + LiveBlocks(g) * BLOCK_SIZE {
      var b := Meets(g, n);
    } else {
      forall b, i | 0 <= b < LiveBlocks(g) && 0 <= i < g.count ensures BitmapBlock(g, b) != HeaderBlock(g, i) {
        FirstBehindIs(g, i);
        StartOf(g, i);
        BitmapBlockAt(g, b);
        if n <= i {
          Monotone(n, i, g.extentSize);
        }
      }
    }
  }

  /** Where extent `i` starts, counted in blocks. */
  lemma StartOf(g: Geometry, i: nat)
    requires InitCheck(g) == Ok && IsBlockAlign(g.extentSize) && i < g.count
    requires g.extentsOffset + g.count * g.extentSize <= 0x1_0000_0000_0000_0000
    requires 0 < g.extentSize
    ensures HeaderBlock(g, i) * BLOCK_SIZE == i * g.extentSize + g.extentsOffset
  {
    Product(i, g.count, g.extentSize);
    ExtentAligned(g, i);
  }

  lemma BitmapBlockAt(g: Geometry, b: nat)
    requires InitCheck(g) == Ok && b < LiveBlocks(g) && LiveBlocks(g) * BLOCK_SIZE <= 0x1_0000_0000
    requires g.offset + LiveBlocks(g) * BLOCK_SIZE <= 0x1_0000_0000_0000_0000
    ensures BitmapBlock(g, b) * BLOCK_SIZE == g.offset + b * BLOCK_SIZE
    ensures g.offset <= BitmapBlock(g, b) * BLOCK_SIZE < g.offset + LiveBlocks(g) * BLOCK_SIZE
  {
    hide LiveBlocks;
    assert b * BLOCK_SIZE + BLOCK_SIZE <= LiveBlocks(g) * BLOCK_SIZE;
    BitmapOffsetExact(g, b);
    BlocksFrom(g.offset, b);
  }

  /** An extent that starts inside the bitmap starts at one of its blocks. */
  lemma Meets(g: Geometry, i: nat) returns (b: nat)
    requires InitCheck(g) == Ok && 0 < g.extentSize && IsBlockAlign(g.extentSize) && i < g.count
    requires LiveBlocks(g) * BLOCK_SIZE <= 0x1_0000_0000
    requires g.offset + LiveBlocks(g) * BLOCK_SIZE <= 0x1_0000_0000_0000_0000
    requires g.extentsOffset + g.count * g.extentSize <= 0x1_0000_0000_0000_0000
    requires g.offset <= i * g.extentSize + g.extentsOffset < g.offset + LiveBlocks(g) * BLOCK_SIZE
    ensures b < LiveBlocks(g) && BitmapBlock(g, b) == HeaderBlock(g, i)
  {
    hide BitmapBlock, HeaderBlock, LiveBlocks;
    StartOf(g, i);
    b := HeaderBlock(g, i) - g.offset / BLOCK_SIZE;
    BitmapBlockAt(g, b);
  }

  // ---- from the layout ----

  /** How a layout parametrises the manager. */
  function GeometryOf(l: Layout): (g: Geometry)
    requires Tiled(l) && l.extents.blockCount <= MAX_EXTENTS
  {
    Geometry(l.bitmap.blockIndex * BLOCK_SIZE, l.bitmap.blockCount, l.extents.blockCount, EXTENT_SIZE,
      l.extents.blockIndex * BLOCK_SIZE)
  }

  /** A layout that tiles parametrises a manager without overflow, whichever divisor made it. */
  lemma LayoutRoomy(size: U64, form: Form)
    requires ExtentBlockCount(size, form) <= MAX_EXTENTS
    ensures var l := LayoutOf(size, form);
      && Tiled(l) && l.extents.blockCount <= MAX_EXTENTS
      && InitCheck(GeometryOf(l)) == Ok && Roomy(GeometryOf(l))
      && GeometryOf(l).bitmapBlocks == LiveBlocks(GeometryOf(l))
  {
    TilesExactly(size, form);
    var g := GeometryOf(LayoutOf(size, form));
    assert LiveBlocks(g) == g.bitmapBlocks <= 16378;
    assert g.count <= g.bitmapBlocks * DATA_SIZE;
  }

  /**
   The layout of every supported device passes `Init` and keeps the manager's writes apart: bitmap
   writes fall in the bitmap region, each header at the start of an extent of its own inside the
   device, and none on padding or a super block. Every address is aligned.
   */
  lemma LayoutSeparates(size: U64)
    requires MIN_DEVICE_SIZE <= size && size / EXTENT_SIZE - 1 <= MAX_EXTENTS
    ensures var l := LayoutOf(size, Repaired);
      && Tiled(l) && l.extents.blockCount <= MAX_EXTENTS
      && InitCheck(GeometryOf(l)) == Ok && Roomy(GeometryOf(l))
    ensures var l, g := LayoutOf(size, Repaired), GeometryOf(LayoutOf(size, Repaired));
      && (forall b | 0 <= b < LiveBlocks(g) :: l.bitmap.blockIndex <= BitmapBlock(g, b) < End(l.bitmap))
      && (forall i | 0 <= i < g.count ::
            && HeaderBlock(g, i) == l.extents.blockIndex + i * META_BLOCKS
            && (HeaderBlock(g, i) + META_BLOCKS) * BLOCK_SIZE <= size)
      && (forall b | 0 <= b < LiveBlocks(g) :: IsBlockAlign(BitmapOffset(g, b)))
      && (forall i | 0 <= i < g.count :: IsBlockAlign(ExtentOffset(g, i)))
  {
    RepairedLayout(size);
    var l := LayoutOf(size, Repaired);
    var g := GeometryOf(l);
    InitGuard(g);
    assert LiveBlocks(g) == l.bitmap.blockCount;
    forall b | 0 <= b < LiveBlocks(g)
      ensures l.bitmap.blockIndex <= BitmapBlock(g, b) < End(l.bitmap) && IsBlockAlign(BitmapOffset(g, b))
    {
      BitmapAddress(g, b);
    }
    forall i | 0 <= i < g.count
      ensures HeaderBlock(g, i) == l.extents.blockIndex + i * META_BLOCKS
      ensures (HeaderBlock(g, i) + META_BLOCKS) * BLOCK_SIZE <= size
      ensures IsBlockAlign(ExtentOffset(g, i))
    {
      ExtentAddress(g, i);
    }
  }

  /**
   As written, the cursor goes round the bitmap blocks, not the extents: a layout's first extent in
   4064 is all it visits.
   */
  lemma BitmapBlocksBelowExtents(g: Geometry)
    requires g.bitmapBlocks == LiveBlocks(g) && 0 < g.count
    ensures 0 < g.bitmapBlocks <= g.count
    ensures (g.bitmapBlocks - 1) * DATA_SIZE < g.count
  {
  }
}
