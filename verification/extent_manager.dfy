/** `PancakeExtentManager` itself: its fields, updated in place, against the functions the protocol is made of. */
module ExtentManagers {
  import opened Bytes
  import opened ErrorCodes
  import opened SealedBlock
  import opened PayloadBlocks
  import opened ExtentHeaders
  import opened Devices
  import opened ExtentGeometry
  import opened BitmapImages
  import opened NextFit
  import opened ExtentProtocol
  import opened ExtentCalls
  import opened ExtentViews
  import opened ExtentInvariant
  import opened ExtentSafety
  import opened ExtentAccounting

  /** `vector<bool>::resize(n, false)`. */
  function Resized(bits: seq<bool>, n: nat): (r: seq<bool>)
    ensures |r| == n
  {
    if n <= |bits| then bits[..n] else bits + seq(n - |bits|, i => false)
  }

  /** `static_cast<int>` of 32 unsigned bits. */
  function ToInt(n: U32): int {
    if n < 0x8000_0000 then n else n - 0x1_0000_0000
  }

  function SetLow(x: bv8): (r: bv8)
    ensures r & 1 == 1 && r & 0xFE == x & 0xFE
    ensures x == 0 || x == 1 ==> r == 1
  {
    x | 1
  }

  function ClearLow(x: bv8): (r: bv8)
    ensures r & 1 == 0 && r & 0xFE == x & 0xFE
    ensures x == 0 || x == 1 ==> r == 0
  {
    x & 0xFE
  }

  /** Of a byte that stands for an extent, the lowest bit is set. */
  method MarkExtentBlockUsed(block: PayloadBlock, i: U32)
    requires block.Valid()
    modifies block.bytes
    ensures block.Valid()
    ensures block.bytes[..] == old(block.bytes[..])[i % DATA_SIZE := SetLow(old(block.bytes[i % DATA_SIZE]))]
  {
    var k := i % DATA_SIZE;
    block.bytes[k] := SetLow(block.bytes[k]);
  }

  method MarkExtentBlockUnused(block: PayloadBlock, i: U32)
    requires block.Valid()
    modifies block.bytes
    ensures block.Valid()
    ensures block.bytes[..] == old(block.bytes[..])[i % DATA_SIZE := ClearLow(old(block.bytes[i % DATA_SIZE]))]
  {
    var k := i % DATA_SIZE;
    block.bytes[k] := ClearLow(block.bytes[k]);
  }

  class PancakeExtentManager {
    const fixes: Fixes
    const wrap: Form  // what the cursor is reduced by: as written the number of bitmap blocks
    const io: PancakeIO

    var offset: U64
    var bitmapBlockCount: U32
    var extentBlockCount: U32
    var extentBlockSize: U32
    var extentBlocksOffset: U64
    var bitmap: seq<bool>
    var cursor: U32
    var usedCnt: U32
    var extentOffsetMap: map<U64, U64>

    ghost predicate Valid()
      reads this
    {
      |bitmap| == extentBlockCount
    }

    function Geo(): Geometry
      reads this
    {
      Geometry(offset, bitmapBlockCount, extentBlockCount, extentBlockSize, extentBlocksOffset)
    }

    function Cfg(): Config
      reads this
    {
      Config(Geo(), if wrap.AsWritten? then bitmapBlockCount else extentBlockCount, fixes)
    }

    function Mem(): Memory
      reads this
    {
      Memory(bitmap, cursor, usedCnt, extentOffsetMap)
    }

    constructor (io: PancakeIO, fixes: Fixes, wrap: Form)
      ensures Valid() && this.io == io && this.fixes == fixes && this.wrap == wrap
      ensures Geo() == Geometry(0, 0, 0, 0, 0) && Mem() == Memory([], 0, 0, map[]) == FreshMemory(0)
    {
      this.io, this.fixes, this.wrap := io, fixes, wrap;
      offset, bitmapBlockCount, extentBlockCount, extentBlockSize, extentBlocksOffset := 0, 0, 0, 0, 0;
      bitmap, cursor, usedCnt, extentOffsetMap := [], 0, 0, map[];
    }

    /** The bits that fit are kept, and so are the cursor and the counter. */
    method Init(offset: U64, bitmapBlockCount: U32, extentBlockCount: U32, extentBlockSize: U32,
        extentBlocksOffset: U64)
      returns (err: ErrorCode)
      modifies this
      ensures err
        == InitCheck(Geometry(offset, bitmapBlockCount, extentBlockCount, extentBlockSize, extentBlocksOffset))
      ensures err != Ok ==> Geo() == old(Geo()) && Mem() == old(Mem())
      ensures err == Ok ==>
        && Valid()
        && Geo() == Geometry(offset, bitmapBlockCount, extentBlockCount, extentBlockSize, extentBlocksOffset)
        && Mem() == old(Mem()).(bitmap := Resized(old(bitmap), extentBlockCount), offsets := map[])
    {
      var maxBlocks := (bitmapBlockCount * DATA_SIZE) % 0x1_0000_0000;
      if extentBlockCount > maxBlocks {
        return FsInitFailed;
      }
      if !IsBlockAlign(offset) {
        return FsInitFailed;
      }
      if !IsBlockAlign(extentBlocksOffset) {
        return FsInitFailed;
      }
      this.offset := offset;
      this.bitmapBlockCount := bitmapBlockCount;
      this.extentBlockCount := extentBlockCount;
      this.extentBlockSize := extentBlockSize;
      this.extentBlocksOffset := extentBlocksOffset;
      bitmap := Resized(bitmap, extentBlockCount);
      extentOffsetMap := map[];
      return Ok;
    }

    /** One byte of a new block for each extent of the bitmap block of `i`. The bounds of the loop are `int`. */
    method CloneBitMapBlock(i: U32) returns (block: PayloadBlock)
      requires Valid() && CloneDefined(i)
      ensures fresh(block) && fresh(block.bytes) && block.Valid()
      ensures block.bytes[..] == BitmapBytes(Cloned(bitmap), BitmapIndex(i))
      ensures block.footer == BlankPayload().footer
    {
      block := new PayloadBlock.Zero();
      var b := BitmapIndex(i);
      var start: int := b * DATA_SIZE;
      var end: int := start + DATA_SIZE;
      if ToInt(extentBlockCount) < end {
        end := ToInt(extentBlockCount);
      }
      assert forall k | 0 <= k < DATA_SIZE :: block.bytes[..][k] == 0;
      var j := start;
      while j < end
        invariant start <= j && (j == start || j <= end) && block.Valid() && block.footer == BlankPayload().footer
        invariant forall k | 0 <= k < j - start :: block.bytes[k] == if bitmap[start + k] then 1 else 0
        invariant forall k | j - start <= k < DATA_SIZE :: block.bytes[k] == 0
      {
        var inner := j - start;
        if !bitmap[j] {
          block.bytes[inner] := ClearLow(block.bytes[inner]);
        } else {
          block.bytes[inner] := SetLow(block.bytes[inner]);
        }
        j := j + 1;
      }
      assert block.bytes[..] == BitmapBytes(Cloned(bitmap), b);
    }

    /** The image that the device gets when entry `i` changes. */
    method BitmapBlockWith(i: U32, used: bool) returns (data: seq<bv8>)
      requires Valid() && Continues(Mem(), i)
      ensures data == CloneImage(bitmap, i, used)
    {
      hide BitmapBytes, Encode, BitmapIndex, SetLow, ClearLow, Cloned, CloneDefined, BlankPayload, Stamped;
      var block := CloneBitMapBlock(i);
      ByteIsZeroOrOne(Cloned(bitmap), i);
      MarkIsUpdate(Cloned(bitmap), i, used);
      assert i / DATA_SIZE == BitmapIndex(i) by { IndexIsQuotient(i); }
      if used {
        MarkExtentBlockUsed(block, i);
      } else {
        MarkExtentBlockUnused(block, i);
      }
      block.footer := block.footer.FillWithoutExtentId(DATA_SIZE);
      data := block.Serialize();
    }

    /** The search of `AddExtent`; the largest number stands for no slot. */
    method FindSlot() returns (index: U32)
      requires Valid() && (Cfg().modulus == 0 ==> extentBlockCount == 0)
      requires !Scan(bitmap, cursor, Cfg().modulus, extentBlockCount).OutOfBounds?
      modifies this`cursor
      ensures match Scan(bitmap, old(cursor), if wrap.AsWritten? then bitmapBlockCount else extentBlockCount,
          extentBlockCount)
        case Found(i, next) => index == i && cursor == next
        case NotFound(next) => index == 0xFFFF_FFFF && cursor == next
        case OutOfBounds(_) => true
    {
      index := 0xFFFF_FFFF;
      var i := 0;
      while i < extentBlockCount
        invariant i <= extentBlockCount
        invariant Scan(bitmap, old(cursor), Cfg().modulus, extentBlockCount)
          == Scan(bitmap, cursor, Cfg().modulus, extentBlockCount - i)
      {
        cursor := cursor % if wrap.AsWritten? then bitmapBlockCount else extentBlockCount;
        if !bitmap[cursor] {
          index := cursor;
          cursor := cursor + 1;
          return;
        }
        cursor := cursor + 1;
        i := i + 1;
      }
    }

    method WriteHeader(extHeader: ExtentHeaderBlock, index: U32, done: Completion) returns (err: ErrorCode)
      requires extHeader.Valid()
      modifies io, extHeader
      ensures extHeader.Valid() && extHeader.Value() == Indexed(old(extHeader.Value()), index)
      ensures (io.disk, err)
        == WriteResult(old(io.disk), ExtentOffset(Geo(), index), HeaderEncode(extHeader.Value()), done)
    {
      hide HeaderEncode, WriteResult, HeaderStamped;
      extHeader.fields := extHeader.fields.(bitmapIndex := index);
      StampedEncodesSame(extHeader.Value());
      var data := extHeader.Serialize();
      err := io.WriteAt(ExtentOffset(Geo(), index), data, done);
    }

    /** Clone, mark and write the bitmap block of entry `i`. */
    method WriteBitmap(i: U32, used: bool, done: Completion) returns (err: ErrorCode)
      requires Valid() && Continues(Mem(), i)
      modifies io
      ensures (io.disk, err) == WriteResult(old(io.disk), BitmapOffset(Geo(), BitmapIndex(i)),
        CloneImage(bitmap, i, used), done)
    {
      hide CloneImage, WriteResult, BitmapOffset, BitmapIndex;
      var data := BitmapBlockWith(i, used);
      err := io.WriteAt(BitmapOffset(Geo(), BitmapIndex(i)), data, done);
    }

    /** `AddExtent` from the header write on. */
    method StoreExtent(extHeader: ExtentHeaderBlock, index: U32, done1: Completion, done2: Completion)
      returns (err: ErrorCode)
      requires Valid() && extHeader.Valid() && index < extentBlockCount
      requires var bytes := HeaderEncode(Indexed(extHeader.Value(), index));
        WriteResult(io.disk, ExtentOffset(Geo(), index), bytes, done1).1 == Ok ==> CloneDefined(index)
      modifies this, io, extHeader
      ensures Valid() && Geo() == old(Geo()) && extHeader.Valid()
      ensures AddResult(Mem(), io.disk, extHeader.Value(), err)
        == StoreCall(old(Cfg()), old(Mem()), old(io.disk), old(extHeader.Value()), index, done1, done2)
    {
      hide HeaderEncode, CloneImage, CloneDefined, WriteResult, Indexed, ExtentOffset, BitmapOffset, BitmapIndex;
      var id := extHeader.fields.extentId;
      err := WriteHeader(extHeader, index, done1);
      if err != Ok {
        return;
      }
      err := WriteBitmap(index, true, done2);
      if err != Ok {
        return;
      }
      bitmap := bitmap[index := true];
      extentOffsetMap := extentOffsetMap[id := ExtentOffset(Geo(), index)];
      if fixes.countUsed {
        usedCnt := (usedCnt + 1) % 0x1_0000_0000;
      }
    }

    method AddExtent(extHeader: ExtentHeaderBlock, done1: Completion, done2: Completion) returns (err: ErrorCode)
      requires Valid() && extHeader.Valid() && AddDefined(Cfg(), Mem(), io.disk, extHeader.Value(), done1)
      modifies this, io, extHeader
      ensures Valid() && Geo() == old(Geo()) && extHeader.Valid()
      ensures AddResult(Mem(), io.disk, extHeader.Value(), err)
        == AddCall(old(Cfg()), old(Mem()), old(io.disk), old(extHeader.Value()), done1, done2)
    {
      hide HeaderEncode, StoreCall, CloneDefined, WriteResult, Indexed, ExtentOffset, Scan;
      if extHeader.fields.extentId in extentOffsetMap {
        return ExtentAlreadyExists;
      }
      if usedCnt == extentBlockCount {
        return FsFull;
      }
      var index := FindSlot();
      if index == 0xFFFF_FFFF {
        return CodeError;
      }
      err := StoreExtent(extHeader, index, done1, done2);
    }

    /** The double check before a delete: the header on the device can be read and names the extent. */
    method CheckHeader(extHeader: ExtentHeaderBlock, ok: bool) returns (err: ErrorCode)
      requires extHeader.Valid()
      ensures var (block, readErr) :=
          ReadResult(io.disk, ExtentOffset(Geo(), extHeader.fields.bitmapIndex), BLOCK_SIZE, ok);
        err == if readErr != Ok then readErr else Inspect(Cfg(), block, extHeader.fields.extentId)
    {
      hide HeaderDecode, ReadResult, ExtentOffset;
      var found := new ExtentHeaderBlock.Zero();
      var data;
      data, err := io.ReadAt(ExtentOffset(Geo(), extHeader.fields.bitmapIndex), BLOCK_SIZE, [], ok);
      if err != Ok {
        return;
      }
      assert data == ReadResult(io.disk, ExtentOffset(Geo(), extHeader.fields.bitmapIndex), BLOCK_SIZE, ok).0;
      DecodeForgets(found.Value(), BlankHeader(), data, fixes.header);
      err := found.Deserialize(data, fixes.header);
      if err != Ok {
        return;
      }
      if found.Value().fields.extentId != extHeader.fields.extentId {
        return InternalError;
      }
    }

    method DelExtent(extHeader: ExtentHeaderBlock, ok: bool, done: Completion) returns (err: ErrorCode)
      requires Valid() && extHeader.Valid() && DelDefined(Cfg(), Mem(), io.disk, extHeader.Value(), ok)
      modifies this, io
      ensures Valid() && Geo() == old(Geo())
      ensures DelResult(Mem(), io.disk, err)
        == DelCall(old(Cfg()), old(Mem()), old(io.disk), old(extHeader.Value()), ok, done)
    {
      hide Inspect, CloneImage, CloneDefined, WriteResult, ReadResult, ExtentOffset, BitmapOffset, BitmapIndex;
      var id, index := extHeader.fields.extentId, extHeader.fields.bitmapIndex;
      if fixes.stopOnMissing && id !in extentOffsetMap {
        return ExtentNotExists;
      }
      err := CheckHeader(extHeader, ok);
      if err != Ok {
        return;
      }
      err := WriteBitmap(index, false, done);
      if err != Ok {
        return;
      }
      bitmap := bitmap[index := false];
      if fixes.eraseOnDelete {
        extentOffsetMap := extentOffsetMap - {id};
      }
      if fixes.countUsed {
        usedCnt := (usedCnt - 1) % 0x1_0000_0000;
      }
    }

    /**
     In every reached state: a counter that is kept and guarded is the number of extents in use, one that is
     kept is the balance of the calls that succeeded, and one that is not kept says that none is in use.
     */
    method CurrentAllocCount() returns (n: U32)
      requires Valid()
      ensures Reached(Cfg(), Mem()) && Sound(fixes) && fixes.countUsed && fixes.stopOnMissing ==>
        n == |Marked(bitmap)| == |extentOffsetMap|
      ensures forall disk, steps, s | RunsTo(Cfg(), disk, steps, s) && s.mem == Mem() ::
        n == if fixes.countUsed then Balance(s.tasks) else 0
    {
      hide RunsTo, Reached, Balance, Marked;
      n := usedCnt;
      if Reached(Cfg(), Mem()) && Sound(fixes) {
        CountsOfReached(Cfg(), Mem());
      }
      forall disk, steps, s | RunsTo(Cfg(), disk, steps, s) && s.mem == Mem()
        ensures n == if fixes.countUsed then Balance(s.tasks) else 0
      {
        CounterBalances(Cfg(), disk, steps, s);
      }
    }

    method CurrentFreeCount() returns (n: U32)
      requires Valid()
      ensures Reached(Cfg(), Mem()) && Sound(fixes) && fixes.countUsed && fixes.stopOnMissing ==>
        n + |Marked(bitmap)| == extentBlockCount
      ensures forall disk, steps, s | RunsTo(Cfg(), disk, steps, s) && s.mem == Mem() ::
        n == (extentBlockCount - if fixes.countUsed then Balance(s.tasks) else 0) % 0x1_0000_0000
    {
      hide RunsTo, Reached, Balance, Marked;
      n := (extentBlockCount - usedCnt) % 0x1_0000_0000;
      if Reached(Cfg(), Mem()) && Sound(fixes) {
        CountsOfReached(Cfg(), Mem());
      }
      forall disk, steps, s | RunsTo(Cfg(), disk, steps, s) && s.mem == Mem()
        ensures n == (extentBlockCount - if fixes.countUsed then Balance(s.tasks) else 0) % 0x1_0000_0000
      {
        CounterBalances(Cfg(), disk, steps, s);
      }
    }
  }

  lemma IndexIsQuotient(i: nat)
    ensures BitmapIndex(i) == i / DATA_SIZE
  {
  }

  lemma ByteIsZeroOrOne(bits: seq<bool>, i: nat)
    requires i < |bits|
    ensures BitmapBytes(bits, BitmapIndex(i))[i % DATA_SIZE] == if bits[i] then 1 else 0
  {
  }

  /** A second `Init` clears the map but keeps bits: the two still fit together exactly when no kept bit was set. */
  lemma InitAgain(g: Geometry, bits: seq<bool>, v: View)
    requires |v.good| == |v.owner| == g.count
    ensures Owned(g, Resized(bits, g.count), v, map[]) <==> forall i | 0 <= i < |bits| && i < g.count :: !bits[i]
  {
    hide ExtentOffset;
    var r := Resized(bits, g.count);
    assert forall i | 0 <= i < |bits| && i < g.count :: r[i] == bits[i];
    assert forall i | |bits| <= i < g.count :: !r[i];
  }
}
