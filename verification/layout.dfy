/** `PancakeLayout`: where the regions of a device lie, in blocks of 4096 bytes. */
module Layouts {
  import opened Bytes
  import opened ErrorCodes
  import opened SealedBlock
  import opened PayloadBlocks

  const EXTENT_SIZE: nat := 0x400_0000
  const MIN_DEVICE_SIZE: nat := 0x800_0000
  const START_PADDING: nat := 4
  /** One extent's worth of blocks is set aside for everything but the extents. */
  const META_BLOCKS: nat := 16384
  /** The bitmap may have at most 16384 - 6 blocks of 4064 entries. */
  const MAX_EXTENTS: nat := 66560192

  datatype LayoutItem = LayoutItem(blockIndex: U64, blockCount: U64)

  datatype Layout = Layout(
    startPadding: LayoutItem,
    superBlock: LayoutItem,
    superBackup: LayoutItem,
    bitmap: LayoutItem,
    padding: LayoutItem,
    extents: LayoutItem)

  /** As written, the device is divided by the payload of a block instead of the size of an extent. */
  function Divisor(form: Form): (d: nat)
    ensures d > 0
  {
    if form.AsWritten? then DATA_SIZE else EXTENT_SIZE
  }

  /** 64-bit arithmetic, cut off to 32 bits on return. */
  function ExtentBlockCount(size: U64, form: Form): (n: U32)
    ensures (n + 1 - size / if form.AsWritten? then 4064 else 67108864) % 0x1_0000_0000 == 0
  {
    (size / Divisor(form) - 1) % 0x1_0000_0000
  }

  function BitmapBlocks(extents: nat): nat {
    if extents % DATA_SIZE != 0 then extents / DATA_SIZE + 1 else extents / DATA_SIZE
  }

  class PancakeLayout {
    var startPadding: LayoutItem
    var superBlock: LayoutItem
    var superBackup: LayoutItem
    var bitmap: LayoutItem
    var padding: LayoutItem
    var extents: LayoutItem

    function Value(): Layout
      reads this
    {
      Layout(startPadding, superBlock, superBackup, bitmap, padding, extents)
    }

    /**
     `BuildLayout`; unsigned subtraction wraps. Four blocks of padding, the super block alone in block 4, its
     backup alone in block 5, then the bitmap.
     */
    method BuildLayout(size: U64, form: Form)
      modifies this
      ensures Value() == LayoutOf(size, form)
      ensures startPadding.blockIndex == 0 && startPadding.blockCount == 4
      ensures superBlock.blockIndex == 4 && superBlock.blockCount == 1
      ensures superBackup.blockIndex == 5 && superBackup.blockCount == 1
      ensures bitmap.blockIndex == 6
      ensures extents.blockCount <= bitmap.blockCount * 4064 < extents.blockCount + 4064
    {
      hide ExtentBlockCount;
      var count := ExtentBlockCount(size, form);
      startPadding := LayoutItem(0, START_PADDING);
      superBlock := LayoutItem(startPadding.blockIndex + startPadding.blockCount, 1);
      superBackup := LayoutItem(superBlock.blockIndex + superBlock.blockCount, 1);
      var bitmapBlocks := count / DATA_SIZE;
      if count % DATA_SIZE != 0 {
        bitmapBlocks := bitmapBlocks + 1;
      }
      bitmap := LayoutItem(superBackup.blockIndex + superBackup.blockCount, bitmapBlocks);
      var from := bitmap.blockIndex + bitmap.blockCount;
      padding := LayoutItem(from, (META_BLOCKS - from) % 0x1_0000_0000_0000_0000);
      extents := LayoutItem((padding.blockIndex + padding.blockCount) % 0x1_0000_0000_0000_0000, count);
    }
  }

  /** The layout of a device, in closed form. */
  function LayoutOf(size: U64, form: Form): Layout {
    var count := ExtentBlockCount(size, form);
    var from := 6 + BitmapBlocks(count);
    Layout(LayoutItem(0, 4), LayoutItem(4, 1), LayoutItem(5, 1), LayoutItem(6, BitmapBlocks(count)),
      LayoutItem(from,
        if from <= META_BLOCKS then META_BLOCKS - from else META_BLOCKS - from + 0x1_0000_0000_0000_0000),
      LayoutItem(META_BLOCKS, count))
  }

  /** Where an item ends, counted without wrapping. */
  function End(item: LayoutItem): nat {
    item.blockIndex + item.blockCount
  }

  /** Each region begins where the one before it ends, and the metadata fills the first 64 MB. */
  ghost predicate Tiled(l: Layout) {
    && l.startPadding.blockIndex == 0
    && End(l.startPadding) == l.superBlock.blockIndex
    && End(l.superBlock) == l.superBackup.blockIndex
    && End(l.superBackup) == l.bitmap.blockIndex
    && End(l.bitmap) == l.padding.blockIndex
    && End(l.padding) == l.extents.blockIndex == META_BLOCKS
  }

  /** One byte per extent has room in the bitmap, and no bitmap block is without use. */
  ghost predicate BitmapFits(l: Layout) {
    l.extents.blockCount <= l.bitmap.blockCount * DATA_SIZE < l.extents.blockCount + DATA_SIZE
  }

  ghost predicate ExtentsFit(l: Layout, size: nat) {
    l.extents.blockIndex * BLOCK_SIZE + l.extents.blockCount * EXTENT_SIZE <= size
  }

  /** The regions tile exactly when there are at most 66560192 extents: beyond, the padding underflows. */
  lemma TilesExactly(size: U64, form: Form)
    ensures Tiled(LayoutOf(size, form)) <==> ExtentBlockCount(size, form) <= MAX_EXTENTS
    ensures BitmapFits(LayoutOf(size, form))
  {
    assert MAX_EXTENTS == (META_BLOCKS - 6) * DATA_SIZE;
  }

  /** With 64 MB as divisor, every device from 128 MB up to the bitmap's limit is laid out in full. */
  lemma RepairedLayout(size: U64)
    requires MIN_DEVICE_SIZE <= size && size / EXTENT_SIZE - 1 <= MAX_EXTENTS
    ensures var l := LayoutOf(size, Repaired);
      && Tiled(l) && BitmapFits(l) && ExtentsFit(l, size)
      && 1 <= l.extents.blockCount
      && size - (l.extents.blockIndex * BLOCK_SIZE + l.extents.blockCount * EXTENT_SIZE) < EXTENT_SIZE
  {
    TilesExactly(size, Repaired);
  }

  /** What 2^32 blocks' payloads come to: the count of extents as written starts again every so many bytes. */
  const TURN: nat := 17454747090944
  /** How much less than an extent the divisor as written is. */
  const SHORTFALL: nat := 67104800

  /**
   As written, the extents lie within the device only in the first part of each turn of the 32-bit count
   but the first: of the sizes from 4064 on, with `turn` whole turns behind, for exactly that many counts.
   */
  predicate FitsAsWritten(size: nat) {
    size >= DATA_SIZE &&
    var turn, count := (size / DATA_SIZE - 1) / 0x1_0000_0000, (size / DATA_SIZE - 1) % 0x1_0000_0000;
    count < (turn * TURN + size % DATA_SIZE) / SHORTFALL
  }

  lemma AsWrittenFitsExactly(size: U64)
    ensures ExtentsFit(LayoutOf(size, AsWritten), size) <==> FitsAsWritten(size)
  {
    if size >= DATA_SIZE {
      var q, rest := size / DATA_SIZE - 1, size % DATA_SIZE;
      var turn, count := q / 0x1_0000_0000, q % 0x1_0000_0000;
      assert ExtentBlockCount(size, AsWritten) == count;
      assert size == (q + 1) * DATA_SIZE + rest && q == turn * 0x1_0000_0000 + count;
      assert size == turn * TURN + count * DATA_SIZE + DATA_SIZE + rest;
      assert ExtentsFit(LayoutOf(size, AsWritten), size) <==> (count + 1) * EXTENT_SIZE <= size;
      assert (count + 1) * EXTENT_SIZE <= size <==> (count + 1) * SHORTFALL <= turn * TURN + rest;
      Quotients(turn * TURN + rest, count);
    }
  }

  lemma Quotients(total: nat, count: nat)
    ensures (count + 1) * SHORTFALL <= total <==> count < total / SHORTFALL
  {
  }

  /** As written, that is so for no device of less than one turn, some 16 TB, and for all of 2^58 bytes or more. */
  lemma AsWrittenNeverFits(size: U64)
    ensures size < TURN ==> !ExtentsFit(LayoutOf(size, AsWritten), size)
    ensures 0x400_0000_0000_0000 <= size ==> ExtentsFit(LayoutOf(size, AsWritten), size)
  {
    AsWrittenFitsExactly(size);
    if 0x400_0000_0000_0000 <= size {
      assert size / EXTENT_SIZE >= 0x1_0000_0000;
    }
  }

  /** As written, the smallest device the engine accepts is laid out with two terabytes of extents. */
  lemma AsWrittenSmallestDevice()
    ensures LayoutOf(MIN_DEVICE_SIZE, AsWritten).extents.blockCount == 33025
    ensures Tiled(LayoutOf(MIN_DEVICE_SIZE, AsWritten))
    ensures !ExtentsFit(LayoutOf(MIN_DEVICE_SIZE, AsWritten), MIN_DEVICE_SIZE)
  {
    TilesExactly(MIN_DEVICE_SIZE, AsWritten);
  }
}
