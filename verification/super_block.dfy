/** `SuperBlock`: what a device says about itself, with two strings of any length before the numbers. */
module SuperBlocks {
  import opened Bytes
  import opened CrcRegister
  import opened CrcTable
  import opened SealedBlock
  import opened ErrorCodes
  import opened PayloadBlocks

  /** The numbers behind the strings: 100 bytes. */
  datatype Numbers = Numbers(
    createTime: I64,
    deviceCapacity: U64,
    blockSize: U64,
    journalBlockCount: U32,
    extentBlockSize: U64,
    extentBlockCount: U64,
    bitmapStart: U64,
    bitmapEnd: U64,
    trashBitmapStart: U64,
    trashBitmapEnd: U64,
    journalStart: U64,
    journalEnd: U64,
    extentBlocksStart: U64)

  datatype Super = Super(
    magic: U32,
    version: bv8,
    deviceId: U64,
    uuid: seq<bv8>,
    path: seq<bv8>,
    numbers: Numbers,
    crc: bv32)

  const NUMBERS: nat := 100
  /** 4096 less the 121 bytes that are always there. */
  const STRING_ROOM: nat := 3975

  function NumberBytes(n: Numbers): (bytes: seq<bv8>)
    ensures |bytes| == NUMBERS
  {
    Be64(Unsigned(n.createTime)) + Be64(n.deviceCapacity) + Be64(n.blockSize) + Be32(n.journalBlockCount)
      + Be64(n.extentBlockSize) + Be64(n.extentBlockCount) + Be64(n.bitmapStart) + Be64(n.bitmapEnd)
      + Be64(n.trashBitmapStart) + Be64(n.trashBitmapEnd) + Be64(n.journalStart) + Be64(n.journalEnd)
      + Be64(n.extentBlocksStart)
  }

  function NumbersAt(data: seq<bv8>, p: nat): Numbers
    requires p + NUMBERS <= |data|
  {
    Numbers(Signed(Get64(data[p..p + 8])), Get64(data[p + 8..p + 16]), Get64(data[p + 16..p + 24]),
      Get32(data[p + 24..p + 28]), Get64(data[p + 28..p + 36]), Get64(data[p + 36..p + 44]),
      Get64(data[p + 44..p + 52]), Get64(data[p + 52..p + 60]), Get64(data[p + 60..p + 68]),
      Get64(data[p + 68..p + 76]), Get64(data[p + 76..p + 84]), Get64(data[p + 84..p + 92]),
      Get64(data[p + 92..p + 100]))
  }

  /** A length field holds 16 bits of the length. */
  function LengthBytes(s: seq<bv8>): (bytes: seq<bv8>)
    ensures |bytes| == 2
  {
    Be16(|s| % 0x1_0000)
  }

  function SuperCovered(v: Super): (covered: seq<bv8>)
    ensures |covered| == 117 + |v.uuid| + |v.path|
  {
    (Be32(MAGIC) + [v.version] + Be64(v.deviceId)) + (LengthBytes(v.uuid) + v.uuid)
      + (LengthBytes(v.path) + v.path) + NumberBytes(v.numbers)
  }

  /** What `Serialize` has assembled when it comes to its assertion. */
  function SuperEncode(v: Super): (bytes: seq<bv8>)
  {
    var sealed' := SuperCovered(v) + CrcBytes(Crc(SuperCovered(v)));
    if |sealed'| < BLOCK_SIZE then sealed' + Zeros(BLOCK_SIZE - |sealed'|) else sealed'
  }

  function SuperStamped(v: Super): Super {
    v.(magic := MAGIC, crc := Crc(SuperCovered(v)))
  }

  /** Where the strings and the numbers lie, when the lengths leave room for them. */
  datatype Extents = TooLong | Extents(path: nat, numbers: nat)

  function Locate(data: seq<bv8>): (e: Extents)
    requires |data| == BLOCK_SIZE
    ensures e.Extents? ==> 15 <= e.path <= e.numbers - 2 && e.numbers + NUMBERS + 4 <= BLOCK_SIZE
  {
    var path := 15 + Get16(data[13..15]);
    if path + 2 > BLOCK_SIZE then TooLong
    else
      var numbers := path + 2 + Get16(data[path..path + 2]);
      if numbers + NUMBERS + 4 > BLOCK_SIZE then TooLong else Extents(path, numbers)
  }

  function StatusAt(data: seq<bv8>, end: nat): ErrorCode
    requires end + 4 <= |data|
  {
    if Crc(data[..end]) == ReadCrc(data[end..end + 4]) then Ok else BlockCrcMismatch
  }

  function SuperStatus(data: seq<bv8>): ErrorCode {
    if |data| != BLOCK_SIZE then BlockSizeIllegal
    else if Get32(data[..4]) != MAGIC then BlockMagicIllegal
    else
      match Locate(data)
      case TooLong => BlockDataIllegal
      case Extents(_, numbers) => StatusAt(data, numbers + NUMBERS)
  }

  /** The object after a successful read: a string of length zero is left as it was. */
  function ValueAt(v0: Super, data: seq<bv8>, path: nat, numbers: nat): Super
    requires 15 <= path <= numbers - 2 && numbers + NUMBERS + 4 <= |data|
  {
    Super(MAGIC, data[4], Get64(data[5..13]),
      if path == 15 then v0.uuid else data[15..path],
      if numbers == path + 2 then v0.path else data[path + 2..numbers],
      NumbersAt(data, numbers), ReadCrc(data[numbers + NUMBERS..numbers + NUMBERS + 4]))
  }

  function SuperValue(v0: Super, data: seq<bv8>): Super
    requires SuperStatus(data) == Ok
  {
    var Extents(path, numbers) := Locate(data);
    ValueAt(v0, data, path, numbers)
  }

  // ---- slices ----

  lemma NumbersDecode(n: Numbers, data: seq<bv8>, p: nat)
    requires p + NUMBERS <= |data| && data[p..p + NUMBERS] == NumberBytes(n)
    ensures NumbersAt(data, p) == n
  {
    hide Be32, Be64, Get32, Get64;
    var b := NumberBytes(n);
    FirstNumbers(n);
    LastNumbers(n);
    SubSlice(data, p, NUMBERS, 0, 8);
    SubSlice(data, p, NUMBERS, 8, 16);
    SubSlice(data, p, NUMBERS, 16, 24);
    SubSlice(data, p, NUMBERS, 24, 28);
    SubSlice(data, p, NUMBERS, 28, 36);
    SubSlice(data, p, NUMBERS, 36, 44);
    SubSlice(data, p, NUMBERS, 44, 52);
    SubSlice(data, p, NUMBERS, 52, 60);
    SubSlice(data, p, NUMBERS, 60, 68);
    SubSlice(data, p, NUMBERS, 68, 76);
    SubSlice(data, p, NUMBERS, 76, 84);
    SubSlice(data, p, NUMBERS, 84, 92);
    SubSlice(data, p, NUMBERS, 92, 100);
  }

  lemma FirstNumbers(n: Numbers)
    ensures var b := NumberBytes(n);
      && b[0..8] == Be64(Unsigned(n.createTime)) && b[8..16] == Be64(n.deviceCapacity)
      && b[16..24] == Be64(n.blockSize) && b[24..28] == Be32(n.journalBlockCount)
      && b[28..36] == Be64(n.extentBlockSize) && b[36..44] == Be64(n.extentBlockCount)
  {
    hide Be32, Be64;
  }

  lemma LastNumbers(n: Numbers)
    ensures var b := NumberBytes(n);
      && b[44..52] == Be64(n.bitmapStart) && b[52..60] == Be64(n.bitmapEnd)
      && b[60..68] == Be64(n.trashBitmapStart) && b[68..76] == Be64(n.trashBitmapEnd)
      && b[76..84] == Be64(n.journalStart) && b[84..92] == Be64(n.journalEnd)
      && b[92..100] == Be64(n.extentBlocksStart)
  {
    hide Be32, Be64;
  }

  lemma NumbersEncode(data: seq<bv8>, p: nat)
    requires p + NUMBERS <= |data|
    ensures NumberBytes(NumbersAt(data, p)) == data[p..p + NUMBERS]
  {
    hide Be32, Be64, Get32, Get64;
    assert data[p..p + 100] == data[p..p + 8] + data[p + 8..p + 16] + data[p + 16..p + 24] + data[p + 24..p + 28]
      + data[p + 28..p + 36] + data[p + 36..p + 44] + data[p + 44..p + 52] + data[p + 52..p + 60]
      + data[p + 60..p + 68] + data[p + 68..p + 76] + data[p + 76..p + 84] + data[p + 84..p + 92]
      + data[p + 92..p + 100];
  }

  /** The parts of `v` lie in `data` where `Serialize` puts them, the path length at `p` and the numbers at `q`. */
  ghost predicate Laid(v: Super, data: seq<bv8>, p: nat, q: nat) {
    && p == 15 + |v.uuid| && q == p + 2 + |v.path| && q + NUMBERS + 4 <= BLOCK_SIZE == |data|
    && data[..4] == Be32(MAGIC) && data[4] == v.version && data[5..13] == Be64(v.deviceId)
    && data[13..15] == Be16(p - 15) && data[15..p] == v.uuid
    && data[p..p + 2] == Be16(q - p - 2) && data[p + 2..q] == v.path
    && data[q..q + NUMBERS] == NumberBytes(v.numbers)
    && data[..q + NUMBERS] == SuperCovered(v)
    && data[q + NUMBERS..q + NUMBERS + 4] == CrcBytes(Crc(SuperCovered(v)))
  }

  lemma HeadSlices(v: Super)
    ensures var covered := SuperCovered(v);
      covered[..4] == Be32(MAGIC) && covered[4] == v.version && covered[5..13] == Be64(v.deviceId)
  {
    hide Be32, Be64, LengthBytes, NumberBytes;
    var head := Be32(MAGIC) + [v.version] + Be64(v.deviceId);
    assert head[..4] == Be32(MAGIC) && head[4] == v.version && head[5..13] == Be64(v.deviceId);
    var covered := SuperCovered(v);
    assert covered[..4] == head[..4] && covered[4] == head[4] && covered[5..13] == head[5..13];
  }

  lemma StringSlices(v: Super)
    ensures var p, q, covered := 15 + |v.uuid|, 17 + |v.uuid| + |v.path|, SuperCovered(v);
      && covered[13..15] == LengthBytes(v.uuid) && covered[15..p] == v.uuid
      && covered[p..p + 2] == LengthBytes(v.path) && covered[p + 2..q] == v.path
      && covered[q..q + NUMBERS] == NumberBytes(v.numbers)
  {
    hide Be32, Be64, LengthBytes, NumberBytes;
    var covered := SuperCovered(v);
    var p, q := 15 + |v.uuid|, 17 + |v.uuid| + |v.path|;
    assert covered[13..15] == LengthBytes(v.uuid) && covered[15..p] == v.uuid;
    assert covered[p..p + 2] == LengthBytes(v.path) && covered[p + 2..q] == v.path;
  }

  lemma SealSlices(v: Super)
    requires |v.uuid| + |v.path| <= STRING_ROOM
    ensures var end, data := 117 + |v.uuid| + |v.path|, SuperEncode(v);
      && |data| == BLOCK_SIZE && data[..end] == SuperCovered(v)
      && data[end..end + 4] == CrcBytes(Crc(SuperCovered(v)))
  {
    hide SuperCovered, Crc, CrcBytes;
  }

  lemma SuperSlices(v: Super, data: seq<bv8>)
    requires |v.uuid| + |v.path| <= STRING_ROOM && data == SuperEncode(v)
    ensures Laid(v, data, 15 + |v.uuid|, 17 + |v.uuid| + |v.path|)
  {
    hide Be16, Be32, Be64, LengthBytes, NumberBytes, CrcBytes, Crc, SuperCovered, SuperEncode, Laid;
    var p, q := 15 + |v.uuid|, 17 + |v.uuid| + |v.path|;
    var covered := SuperCovered(v);
    HeadSlices(v);
    StringSlices(v);
    ShortLength(v.uuid);
    ShortLength(v.path);
    SealSlices(v);
    CopySlices(data, covered, p, q);
    LaidFrom(v, data, covered, p, q);
  }

  lemma ShortLength(s: seq<bv8>)
    requires |s| < 0x1_0000
    ensures LengthBytes(s) == Be16(|s|)
  {
    hide Be16;
  }

  lemma CopySlices(data: seq<bv8>, covered: seq<bv8>, p: nat, q: nat)
    requires |covered| <= |data| && data[..|covered|] == covered && 15 <= p && p + 2 <= q && q + NUMBERS <= |covered|
    ensures data[..4] == covered[..4] && data[4] == covered[4] && data[5..13] == covered[5..13]
    ensures data[13..15] == covered[13..15] && data[15..p] == covered[15..p]
    ensures data[p..p + 2] == covered[p..p + 2] && data[p + 2..q] == covered[p + 2..q]
    ensures data[q..q + NUMBERS] == covered[q..q + NUMBERS]
  {
    Within(data, covered, 0, 4);
    Within(data, covered, 5, 13);
    Within(data, covered, 13, 15);
    Within(data, covered, 15, p);
    Within(data, covered, p, p + 2);
    Within(data, covered, p + 2, q);
    Within(data, covered, q, q + NUMBERS);
    assert data[4] == data[..|covered|][4];
  }

  lemma LaidFrom(v: Super, data: seq<bv8>, covered: seq<bv8>, p: nat, q: nat)
    requires p == 15 + |v.uuid| && q == p + 2 + |v.path| && q + NUMBERS + 4 <= BLOCK_SIZE == |data|
    requires covered == SuperCovered(v)
    requires data[..4] == Be32(MAGIC) && data[4] == v.version && data[5..13] == Be64(v.deviceId)
    requires data[13..15] == Be16(p - 15) && data[15..p] == v.uuid
    requires data[p..p + 2] == Be16(q - p - 2) && data[p + 2..q] == v.path
    requires data[q..q + NUMBERS] == NumberBytes(v.numbers)
    requires data[..q + NUMBERS] == covered && data[q + NUMBERS..q + NUMBERS + 4] == CrcBytes(Crc(covered))
    ensures Laid(v, data, p, q)
  {
    hide SuperCovered, NumberBytes, CrcBytes, Crc, Be16, Be32, Be64;
  }

  lemma Within(data: seq<bv8>, front: seq<bv8>, i: nat, j: nat)
    requires |front| <= |data| && data[..|front|] == front && i <= j <= |front|
    ensures data[i..j] == front[i..j]
  {
    SubSlice(data, 0, |front|, i, j);
  }

  lemma SameLength(bytes: seq<bv8>, n: U16)
    requires |bytes| == 2
    ensures Get16(bytes) == n <==> bytes == Be16(n)
  {
  }

  lemma LocateStrings(data: seq<bv8>, path: nat, numbers: nat)
    requires |data| == BLOCK_SIZE && 15 <= path <= numbers - 2 && numbers + NUMBERS + 4 <= BLOCK_SIZE
    requires Get16(data[13..15]) == path - 15 && Get16(data[path..path + 2]) == numbers - path - 2
    ensures Locate(data) == Extents(path, numbers)
  {
    hide Get16;
  }

  lemma LaidLocate(v: Super, data: seq<bv8>, p: nat, q: nat)
    requires Laid(v, data, p, q)
    ensures Locate(data) == Extents(p, q) && Get32(data[..4]) == MAGIC
  {
    SameLength(data[13..15], p - 15);
    SameLength(data[p..p + 2], q - p - 2);
    LocateStrings(data, p, q);
  }

  // ---- what reading back gives ----

  /** The block comes out at 4096 bytes exactly when the strings leave room for the rest. */
  lemma SizeLimit(v: Super)
    ensures |SuperEncode(v)| == BLOCK_SIZE <==> |v.uuid| + |v.path| <= STRING_ROOM
  {
  }

  /** Reading back succeeds and restores the numbers; an empty string leaves what was in the object before. */
  lemma SuperRoundTrip(v0: Super, v: Super)
    requires |v.uuid| + |v.path| <= STRING_ROOM
    ensures SuperStatus(SuperEncode(v)) == Ok
    ensures SuperValue(v0, SuperEncode(v)) == SuperStamped(v).(
      uuid := if v.uuid == [] then v0.uuid else v.uuid,
      path := if v.path == [] then v0.path else v.path)
    ensures SuperValue(v0, SuperEncode(v)) == SuperStamped(v)
      <==> (v.uuid == [] ==> v0.uuid == []) && (v.path == [] ==> v0.path == [])
  {
    var data := SuperEncode(v);
    var p, q := 15 + |v.uuid|, 17 + |v.uuid| + |v.path|;
    hide Laid, SuperEncode, SuperCovered, SuperStatus, SuperValue, Locate, ValueAt, StatusAt, Crc;
    SuperSlices(v, data);
    LaidLocate(v, data, p, q);
    LaidStatus(v, data, p, q);
    StatusCases(data);
    LaidValue(v0, v, data, p, q);
    ValueCases(v0, data);
  }

  lemma StatusCases(data: seq<bv8>)
    requires |data| == BLOCK_SIZE
    ensures Get32(data[..4]) != MAGIC ==> SuperStatus(data) == BlockMagicIllegal
    ensures Get32(data[..4]) == MAGIC && Locate(data) == TooLong ==> SuperStatus(data) == BlockDataIllegal
    ensures Get32(data[..4]) == MAGIC && Locate(data).Extents? ==>
      SuperStatus(data) == StatusAt(data, Locate(data).numbers + NUMBERS)
  {
    hide Get32, Locate, StatusAt;
  }

  lemma ValueCases(v0: Super, data: seq<bv8>)
    requires SuperStatus(data) == Ok
    ensures |data| == BLOCK_SIZE && Get32(data[..4]) == MAGIC
    ensures var e := Locate(data);
      && e.Extents? && StatusAt(data, e.numbers + NUMBERS) == Ok
      && SuperValue(v0, data) == ValueAt(v0, data, e.path, e.numbers)
  {
    hide Get32, Locate, StatusAt, ValueAt;
  }

  lemma LaidStatus(v: Super, data: seq<bv8>, p: nat, q: nat)
    requires Laid(v, data, p, q)
    ensures |data| == BLOCK_SIZE && StatusAt(data, q + NUMBERS) == Ok
  {
    CrcRoundTrip(Crc(SuperCovered(v)), data[q + NUMBERS..q + NUMBERS + 4]);
    hide ReadCrc, Crc, CrcBytes, SuperCovered;
  }

  lemma LaidValue(v0: Super, v: Super, data: seq<bv8>, p: nat, q: nat)
    requires Laid(v, data, p, q)
    ensures ValueAt(v0, data, p, q) == SuperStamped(v).(
      uuid := if v.uuid == [] then v0.uuid else v.uuid,
      path := if v.path == [] then v0.path else v.path)
  {
    NumbersDecode(v.numbers, data, q);
    CrcRoundTrip(Crc(SuperCovered(v)), data[q + NUMBERS..q + NUMBERS + 4]);
    assert Get64(data[5..13]) == v.deviceId;
    hide Laid;
    ValueIs(v0, v, data, p, q);
  }

  lemma ValueIs(v0: Super, v: Super, data: seq<bv8>, p: nat, q: nat)
    requires |data| == BLOCK_SIZE && 15 <= p <= q - 2 && q + NUMBERS + 4 <= BLOCK_SIZE
    requires p == 15 + |v.uuid| && q == p + 2 + |v.path|
    requires data[4] == v.version && Get64(data[5..13]) == v.deviceId
    requires data[15..p] == v.uuid && data[p + 2..q] == v.path && NumbersAt(data, q) == v.numbers
    requires ReadCrc(data[q + NUMBERS..q + NUMBERS + 4]) == Crc(SuperCovered(v))
    ensures ValueAt(v0, data, p, q) == SuperStamped(v).(
      uuid := if v.uuid == [] then v0.uuid else v.uuid,
      path := if v.path == [] then v0.path else v.path)
  {
    hide Get64, NumbersAt, ReadCrc, Crc, SuperCovered;
  }

  /**
   Of an accepted block, everything up to its CRC is what the fresh object read from it encodes; the
   padding behind is not looked at, so the whole block is the encoding exactly when the padding is zero.
   */
  lemma SuperCanonical(v0: Super, data: seq<bv8>)
    requires SuperStatus(data) == Ok && v0.uuid == [] && v0.path == []
    ensures var v := SuperValue(v0, data);
      var end := 121 + |v.uuid| + |v.path|;
      && end <= BLOCK_SIZE
      && data[..end] == SuperCovered(v) + CrcBytes(v.crc)
      && v.crc == Crc(SuperCovered(v))
      && (SuperEncode(v) == data <==> data[end..] == Zeros(BLOCK_SIZE - end))
  {
    hide SuperValue, SuperStatus, Locate, ValueAt, SuperCovered, SuperEncode, Crc, CrcBytes, StatusAt;
    ValueCases(v0, data);
    var Extents(path, numbers) := Locate(data);
    CoveredAgain(v0, data, path, numbers);
    SealAgain(v0, data, path, numbers);
    Padding(ValueAt(v0, data, path, numbers), data, numbers + NUMBERS + 4);
  }

  lemma SealAgain(v0: Super, data: seq<bv8>, path: nat, numbers: nat)
    requires 15 <= path <= numbers - 2 && numbers + NUMBERS + 4 <= |data|
    requires StatusAt(data, numbers + NUMBERS) == Ok
    ensures var v, end := ValueAt(v0, data, path, numbers), numbers + NUMBERS;
      v.crc == Crc(data[..end]) && data[end..end + 4] == CrcBytes(v.crc)
  {
    CrcRoundTrip(Crc(data[..numbers + NUMBERS]), data[numbers + NUMBERS..numbers + NUMBERS + 4]);
  }

  lemma Padding(v: Super, data: seq<bv8>, end: nat)
    requires |data| == BLOCK_SIZE && end <= BLOCK_SIZE
    requires end == 121 + |v.uuid| + |v.path| && end >= 4
    requires data[..end - 4] == SuperCovered(v) && data[end - 4..end] == CrcBytes(Crc(SuperCovered(v)))
    ensures data[..end] == SuperCovered(v) + CrcBytes(Crc(SuperCovered(v)))
    ensures SuperEncode(v) == data <==> data[end..] == Zeros(BLOCK_SIZE - end)
  {
    hide SuperCovered, Crc, CrcBytes;
    assert data[..end] == data[..end - 4] + data[end - 4..end];
    assert data == data[..end] + data[end..];
    assert SuperEncode(v)[end..] == Zeros(BLOCK_SIZE - end);
  }

  lemma CoveredAgain(v0: Super, data: seq<bv8>, path: nat, numbers: nat)
    requires |data| == BLOCK_SIZE && Locate(data) == Extents(path, numbers)
    requires Get32(data[..4]) == MAGIC && v0.uuid == [] && v0.path == []
    ensures var v := ValueAt(v0, data, path, numbers);
      && |v.uuid| == path - 15 && |v.path| == numbers - path - 2
      && SuperCovered(v) == data[..numbers + NUMBERS]
  {
    var v := ValueAt(v0, data, path, numbers);
    LocateMeans(data, path, numbers);
    StringsAt(v0, data, path, numbers);
    hide Locate, ValueAt, Be32, Be64, NumberBytes, NumbersAt, LengthBytes, Get16, Get32, Get64, SuperCovered;
    HeadAgain(data, v);
    StringAgain(data, 13, path, v.uuid);
    StringAgain(data, path, numbers, v.path);
    NumbersEncode(data, numbers);
    JoinedCovered(v, data, path, numbers);
  }

  lemma StringsAt(v0: Super, data: seq<bv8>, path: nat, numbers: nat)
    requires 15 <= path <= numbers - 2 && numbers + NUMBERS + 4 <= |data| && v0.uuid == [] && v0.path == []
    ensures var v := ValueAt(v0, data, path, numbers);
      && v.uuid == data[15..path] && v.path == data[path + 2..numbers] && v.numbers == NumbersAt(data, numbers)
      && v.version == data[4] && v.deviceId == Get64(data[5..13])
  {
    hide NumbersAt, Get64, ReadCrc;
  }

  lemma LocateMeans(data: seq<bv8>, path: nat, numbers: nat)
    requires |data| == BLOCK_SIZE && Locate(data) == Extents(path, numbers)
    ensures 15 <= path <= numbers - 2 && numbers + NUMBERS + 4 <= BLOCK_SIZE
    ensures Get16(data[13..15]) == path - 15 && Get16(data[path..path + 2]) == numbers - path - 2
  {
    hide Get16;
  }

  lemma HeadAgain(data: seq<bv8>, v: Super)
    requires |data| == BLOCK_SIZE && Get32(data[..4]) == MAGIC
    requires v.version == data[4] && v.deviceId == Get64(data[5..13])
    ensures Be32(MAGIC) + [v.version] + Be64(v.deviceId) == data[..13]
  {
    hide Be32, Be64, Get32, Get64;
    assert data[..13] == data[..4] + [data[4]] + data[5..13];
  }

  lemma StringAgain(data: seq<bv8>, from: nat, to: nat, s: seq<bv8>)
    requires from + 2 <= to <= |data| <= BLOCK_SIZE && Get16(data[from..from + 2]) == to - from - 2
    requires s == data[from + 2..to]
    ensures LengthBytes(s) + s == data[from..to]
  {
    hide Get16, Be16, LengthBytes;
    SameLength(data[from..from + 2], |s|);
    ShortLength(s);
    assert data[from..to] == data[from..from + 2] + data[from + 2..to];
  }

  lemma JoinedCovered(v: Super, data: seq<bv8>, path: nat, numbers: nat)
    requires |data| == BLOCK_SIZE && 15 <= path <= numbers - 2 && numbers + NUMBERS + 4 <= BLOCK_SIZE
    requires Be32(MAGIC) + [v.version] + Be64(v.deviceId) == data[..13]
    requires LengthBytes(v.uuid) + v.uuid == data[13..path] && LengthBytes(v.path) + v.path == data[path..numbers]
    requires NumberBytes(v.numbers) == data[numbers..numbers + NUMBERS]
    ensures SuperCovered(v) == data[..numbers + NUMBERS]
  {
    hide Be32, Be64, NumberBytes, LengthBytes;
    assert data[..numbers + NUMBERS]
      == data[..13] + data[13..path] + data[path..numbers] + data[numbers..numbers + NUMBERS];
  }

  /** What has been read when the CRC is next; the strings were `uuid0` and `path0`. */
  ghost predicate BodyRead(data: seq<bv8>, pathAt: nat, ptr: nat, uuid0: seq<bv8>, path0: seq<bv8>, version: bv8,
      deviceId: U64, uuid: seq<bv8>, path: seq<bv8>, numbers: Numbers)
  {
    && 15 <= pathAt <= ptr - 2 && ptr + NUMBERS + 4 <= |data|
    && version == data[4] && deviceId == Get64(data[5..13]) && numbers == NumbersAt(data, ptr)
    && uuid == (if pathAt == 15 then uuid0 else data[15..pathAt])
    && path == (if ptr == pathAt + 2 then path0 else data[pathAt + 2..ptr])
  }

  /** The numbers after reading from `p` on until the block ends: those that have room are new. */
  function NumbersUpTo(n: Numbers, data: seq<bv8>, p: nat): (r: Numbers)
    requires p <= |data|
    ensures p + NUMBERS <= |data| ==> r == NumbersAt(data, p)
    ensures |data| < p + 8 ==> r == n
  {
    var room := |data| - p;
    Numbers(
      if room < 8 then n.createTime else Signed(Get64(data[p..p + 8])),
      if room < 16 then n.deviceCapacity else Get64(data[p + 8..p + 16]),
      if room < 24 then n.blockSize else Get64(data[p + 16..p + 24]),
      if room < 28 then n.journalBlockCount else Get32(data[p + 24..p + 28]),
      if room < 36 then n.extentBlockSize else Get64(data[p + 28..p + 36]),
      if room < 44 then n.extentBlockCount else Get64(data[p + 36..p + 44]),
      if room < 52 then n.bitmapStart else Get64(data[p + 44..p + 52]),
      if room < 60 then n.bitmapEnd else Get64(data[p + 52..p + 60]),
      if room < 68 then n.trashBitmapStart else Get64(data[p + 60..p + 68]),
      if room < 76 then n.trashBitmapEnd else Get64(data[p + 68..p + 76]),
      if room < 84 then n.journalStart else Get64(data[p + 76..p + 84]),
      if room < 92 then n.journalEnd else Get64(data[p + 84..p + 92]),
      if room < 100 then n.extentBlocksStart else Get64(data[p + 92..p + 100]))
  }

  /** The string at `p` and where it ends, if the block has room for it. */
  datatype StringAt = NoString | StringAt(s: seq<bv8>, next: nat)

  /** What `ReadString` finds; a string of length zero is the one there was. */
  function FindString(data: seq<bv8>, p: nat, kept: seq<bv8>): (r: StringAt)
    requires p <= |data|
    ensures r.StringAt? ==> p + 2 <= r.next <= |data|
  {
    if p + 2 > |data| then NoString
    else
      var next := p + 2 + Get16(data[p..p + 2]);
      if next > |data| then NoString
      else StringAt(if next == p + 2 then kept else data[p + 2..next], next)
  }

  /** What is left in the object when the lengths leave no room for the rest: all that was read until then. */
  function LeftBehind(v0: Super, data: seq<bv8>): Super
    requires |data| == BLOCK_SIZE
  {
    var v := v0.(version := data[4], deviceId := Get64(data[5..13]));
    match FindString(data, 13, v0.uuid)
    case NoString => v
    case StringAt(uuid, pathAt) =>
      match FindString(data, pathAt, v0.path)
      case NoString => v.(uuid := uuid)
      case StringAt(path, ptr) => v.(uuid := uuid, path := path, numbers := NumbersUpTo(v0.numbers, data, ptr))
  }

  /** The object and the result after `Deserialize`. */
  ghost predicate SuperOutcome(v0: Super, data: seq<bv8>, v: Super, err: ErrorCode) {
    err == SuperStatus(data) &&
    match err
    case BlockSizeIllegal => v == v0
    case BlockMagicIllegal => |data| == BLOCK_SIZE && v == v0.(magic := Get32(data[..4]))
    case BlockDataIllegal =>
      |data| == BLOCK_SIZE && Locate(data) == TooLong && v == LeftBehind(v0.(magic := MAGIC), data)
    case Ok => v == SuperValue(v0, data)
    case BlockCrcMismatch =>
      |data| == BLOCK_SIZE && Locate(data).Extents? && v == ValueAt(v0, data, Locate(data).path, Locate(data).numbers)
    case _ => false
  }

  lemma NotRead(v0: Super, data: seq<bv8>, v: Super)
    requires |data| == BLOCK_SIZE ==> Get32(data[..4]) != MAGIC
    requires v == if |data| == BLOCK_SIZE then v0.(magic := Get32(data[..4])) else v0
    ensures SuperOutcome(v0, data, v, if |data| == BLOCK_SIZE then BlockMagicIllegal else BlockSizeIllegal)
  {
    hide Get32;
  }

  lemma NoRoom(v0: Super, data: seq<bv8>, v: Super)
    requires |data| == BLOCK_SIZE && Get32(data[..4]) == MAGIC && Locate(data) == TooLong
    requires v == LeftBehind(v0.(magic := MAGIC), data)
    ensures SuperOutcome(v0, data, v, BlockDataIllegal)
  {
    hide Get32, Locate, LeftBehind;
  }

  lemma ReadAll(v0: Super, data: seq<bv8>, pathAt: nat, ptr: nat, v: Super)
    requires |data| == BLOCK_SIZE && Get32(data[..4]) == MAGIC == v.magic && Locate(data) == Extents(pathAt, ptr)
    requires BodyRead(data, pathAt, ptr, v0.uuid, v0.path, v.version, v.deviceId, v.uuid, v.path, v.numbers)
    requires v.crc == ReadCrc(data[ptr + NUMBERS..ptr + NUMBERS + 4])
    ensures SuperOutcome(v0, data, v, StatusAt(data, ptr + NUMBERS))
  {
    hide NumbersAt, ReadCrc, Get32, Get64, Locate, Crc;
  }

  /** Whether a string is found, and where it ends. */
  lemma FindsAt(data: seq<bv8>, p: nat, kept: seq<bv8>)
    requires p + 2 <= |data|
    ensures var next := p + 2 + Get16(data[p..p + 2]);
      var r := FindString(data, p, kept);
      if next > |data| then r == NoString else r.StringAt? && r.next == next
  {
    hide Get16;
  }

  lemma FindsNothing(data: seq<bv8>, p: nat, kept: seq<bv8>)
    requires |data| < p + 2 && p <= |data|
    ensures FindString(data, p, kept) == NoString
  {
  }

  /** Where things lie follows from the two strings. */
  lemma LocateByStrings(data: seq<bv8>, uuid0: seq<bv8>, path0: seq<bv8>)
    requires |data| == BLOCK_SIZE
    ensures match FindString(data, 13, uuid0)
      case NoString => Locate(data) == TooLong
      case StringAt(_, pathAt) =>
        match FindString(data, pathAt, path0)
        case NoString => Locate(data) == TooLong
        case StringAt(_, ptr) =>
          Locate(data) == if ptr + NUMBERS + 4 <= BLOCK_SIZE then Extents(pathAt, ptr) else TooLong
  {
    hide FindString, Locate;
    var pathAt := 15 + Get16(data[13..15]);
    hide Get16;
    FindsAt(data, 13, uuid0);
    LocateCases(data, pathAt);
    if pathAt + 2 <= |data| {
      FindsAt(data, pathAt, path0);
    } else if pathAt <= |data| {
      FindsNothing(data, pathAt, path0);
    }
  }

  lemma LocateCases(data: seq<bv8>, path: nat)
    requires |data| == BLOCK_SIZE && path == 15 + Get16(data[13..15])
    ensures path + 2 > BLOCK_SIZE ==> Locate(data) == TooLong
    ensures path + 2 <= BLOCK_SIZE ==>
      var ptr := path + 2 + Get16(data[path..path + 2]);
      Locate(data) == if ptr + NUMBERS + 4 <= BLOCK_SIZE then Extents(path, ptr) else TooLong
  {
    hide Get16;
  }

  lemma BodyByStrings(data: seq<bv8>, pathAt: nat, ptr: nat, uuid0: seq<bv8>, path0: seq<bv8>, deviceId: U64,
      uuid: seq<bv8>, path: seq<bv8>, numbers: Numbers)
    requires |data| == BLOCK_SIZE && pathAt <= |data| && ptr + NUMBERS + 4 <= BLOCK_SIZE
    requires FindString(data, 13, uuid0) == StringAt(uuid, pathAt)
    requires FindString(data, pathAt, path0) == StringAt(path, ptr)
    requires deviceId == Get64(data[5..13]) && numbers == NumbersAt(data, ptr)
    ensures BodyRead(data, pathAt, ptr, uuid0, path0, data[4], deviceId, uuid, path, numbers)
  {
    hide Get16, Get64, NumbersAt;
  }

  // ---- where the fields lie ----

  /** The field at `p`, of 64 bits: `x` if the block has room for it, and otherwise `old` still. */
  ghost predicate Read64(data: seq<bv8>, p: nat, x: U64, kept: U64) {
    if p + 8 <= |data| then data[p..p + 8] == Be64(x) else x == kept
  }

  ghost predicate Read32(data: seq<bv8>, p: nat, x: U32, kept: U32) {
    if p + 4 <= |data| then data[p..p + 4] == Be32(x) else x == kept
  }

  /** A signed number as 64 bits. */
  function TwosComplement(n: I64): U64 {
    n % 0x1_0000_0000_0000_0000
  }

  /** The numbers read from byte `p` on, each as far as the block has room for it, into an object that held `n0`. */
  ghost predicate NumbersRead(data: seq<bv8>, p: nat, n: Numbers, n0: Numbers) {
    && Read64(data, p, TwosComplement(n.createTime), TwosComplement(n0.createTime))
    && Read64(data, p + 8, n.deviceCapacity, n0.deviceCapacity)
    && Read64(data, p + 16, n.blockSize, n0.blockSize)
    && Read32(data, p + 24, n.journalBlockCount, n0.journalBlockCount)
    && Read64(data, p + 28, n.extentBlockSize, n0.extentBlockSize)
    && Read64(data, p + 36, n.extentBlockCount, n0.extentBlockCount)
    && Read64(data, p + 44, n.bitmapStart, n0.bitmapStart)
    && Read64(data, p + 52, n.bitmapEnd, n0.bitmapEnd)
    && Read64(data, p + 60, n.trashBitmapStart, n0.trashBitmapStart)
    && Read64(data, p + 68, n.trashBitmapEnd, n0.trashBitmapEnd)
    && Read64(data, p + 76, n.journalStart, n0.journalStart)
    && Read64(data, p + 84, n.journalEnd, n0.journalEnd)
    && Read64(data, p + 92, n.extentBlocksStart, n0.extentBlocksStart)
  }

  lemma UnsignedIsComplement(n: I64)
    ensures Unsigned(n) == TwosComplement(n)
  {
  }

  /** Each number is read exactly when the block has room for it, and otherwise is as it was. */
  lemma NumbersByRoom(n: Numbers, data: seq<bv8>, p: nat)
    requires p <= |data|
    ensures NumbersRead(data, p, NumbersUpTo(n, data, p), n)
  {
    hide Get32, Get64, Be32, Be64, Signed, TwosComplement;
    UnsignedIsComplement(n.createTime);
    UnsignedIsComplement(NumbersUpTo(n, data, p).createTime);
  }

  /** The numbers where `Serialize` puts them. */
  lemma NumbersLaid(data: seq<bv8>, p: nat, n: Numbers)
    requires p + NUMBERS <= |data| && data[p..p + NUMBERS] == NumberBytes(n)
    ensures NumbersRead(data, p, n, n)
  {
    hide NumberBytes, NumbersAt, NumbersUpTo, NumbersRead;
    NumbersDecode(n, data, p);
    NumbersByRoom(n, data, p);
  }

  /** Where each field of a super block lies, whatever the strings: their lengths are in 16 bits. */
  ghost predicate SuperLies(v: Super, data: seq<bv8>) {
    var p, q := 15 + |v.uuid|, 17 + |v.uuid| + |v.path|;
    && |data| == (if q + 104 < 4096 then 4096 else q + 104)
    && data[..4] == MAGIC_BYTES && data[4] == v.version && data[5..13] == Be64(v.deviceId)
    && data[13..15] == Be16(|v.uuid| % 0x1_0000) && data[15..p] == v.uuid
    && data[p..p + 2] == Be16(|v.path| % 0x1_0000) && data[p + 2..q] == v.path
    && NumbersRead(data, q, v.numbers, v.numbers)
    && data[q + 100..q + 104] == CrcBytes(Crc(data[..q + 100]))
    && data[q + 104..] == Zeros(|data| - (q + 104))
  }

  /** What `Serialize` puts where and leaves in the object. */
  lemma SuperWrittenAs(v: Super)
    ensures SuperLies(v, SuperEncode(v)) && |SuperEncode(v)| >= 117 + |v.uuid| + |v.path|
    ensures SuperStamped(v)
      == v.(magic := 0x2025_0430, crc := Crc(SuperEncode(v)[..117 + |v.uuid| + |v.path|]))
  {
    hide Be16, Be32, Be64, NumberBytes, CrcBytes, Crc, SuperCovered, SuperEncode, NumbersRead;
    var data, p, q := SuperEncode(v), 15 + |v.uuid|, 17 + |v.uuid| + |v.path|;
    MagicBytes();
    EncodedEnd(v);
    HeadSlices(v);
    StringSlices(v);
    CopySlices(data, SuperCovered(v), p, q);
    NumbersLaid(data, q, v.numbers);
  }

  lemma EncodedEnd(v: Super)
    ensures var data, end := SuperEncode(v), 117 + |v.uuid| + |v.path|;
      && |data| == (if end + 4 < BLOCK_SIZE then BLOCK_SIZE else end + 4) && data[..end] == SuperCovered(v)
      && data[end..end + 4] == CrcBytes(Crc(SuperCovered(v))) && data[end + 4..] == Zeros(|data| - (end + 4))
  {
    hide SuperCovered, Crc, CrcBytes;
  }

  /** A length field of a block. */
  function LengthAt(data: seq<bv8>, p: nat): (n: nat)
    requires p + 2 <= |data|
  {
    FromBigEndian(data[p..p + 2])
  }

  /** The result of reading a super block, told by the bytes. */
  function SuperResult(data: seq<bv8>): ErrorCode {
    if |data| != 4096 then BlockSizeIllegal
    else if data[..4] != MAGIC_BYTES then BlockMagicIllegal
    else
      var p := 15 + LengthAt(data, 13);
      if p + 2 > 4096 then BlockDataIllegal
      else
        var q := p + 2 + LengthAt(data, p);
        if q + 104 > 4096 then BlockDataIllegal
        else if data[q + 100..q + 104] != CrcBytes(Crc(data[..q + 100])) then BlockCrcMismatch
        else Ok
  }

  /**
   What the object holds after reading a block with the right magic: everything up to where the lengths lead
   past the end of the block, and from there on what it held before; an empty string leaves the old one.
   */
  ghost predicate SuperHolds(v0: Super, data: seq<bv8>, v: Super)
    requires |data| == 4096
  {
    && v.magic == 0x2025_0430 && v.version == data[4] && data[5..13] == Be64(v.deviceId)
    && var p := 15 + LengthAt(data, 13);
    && v.uuid == (if p == 15 || p > 4096 then v0.uuid else data[15..p])
    && if p + 2 > 4096 then v.path == v0.path && v.numbers == v0.numbers && v.crc == v0.crc
       else
         var q := p + 2 + LengthAt(data, p);
         && v.path == (if q == p + 2 || q > 4096 then v0.path else data[p + 2..q])
         && (if q > 4096 then v.numbers == v0.numbers else NumbersRead(data, q, v.numbers, v0.numbers))
         && if q + 104 > 4096 then v.crc == v0.crc else data[q + 100..q + 104] == CrcBytes(v.crc)
  }

  lemma LengthIs(data: seq<bv8>, p: nat)
    requires p + 2 <= |data|
    ensures Get16(data[p..p + 2]) == LengthAt(data, p) < 0x1_0000
  {
  }

  lemma ResultIs(data: seq<bv8>)
    ensures SuperStatus(data) == SuperResult(data)
    ensures |data| == 4096 ==> (Get32(data[..4]) == MAGIC <==> data[..4] == MAGIC_BYTES)
  {
    hide Get16, Get32, Be32, CrcBytes, ReadCrc, Crc, LengthAt;
    if |data| == 4096 {
      MagicBytes();
      MagicField(data, 0);
      assert data[0..4] == data[..4];
      LengthIs(data, 13);
      var p := 15 + LengthAt(data, 13);
      if p + 2 <= 4096 {
        LengthIs(data, p);
        var q := p + 2 + LengthAt(data, p);
        if q + 104 <= 4096 {
          CrcRoundTrip(Crc(data[..q + 100]), data[q + 100..q + 104]);
        }
      }
    }
  }

  lemma FindsBy(data: seq<bv8>, p: nat, kept: seq<bv8>)
    requires p + 2 <= |data|
    ensures var next := p + 2 + LengthAt(data, p);
      FindString(data, p, kept)
        == if next > |data| then NoString else StringAt(if next == p + 2 then kept else data[p + 2..next], next)
  {
    LengthIs(data, p);
    hide Get16, LengthAt;
  }

  lemma LeftWithoutPath(v0: Super, data: seq<bv8>, p: nat)
    requires |data| == BLOCK_SIZE && v0.magic == MAGIC && p == 15 + LengthAt(data, 13) && p + 2 > 4096
    ensures SuperHolds(v0, data, LeftBehind(v0, data))
  {
    hide Get64, Be64, CrcBytes, LengthAt, NumbersUpTo, NumbersRead, FindString;
    FindsBy(data, 13, v0.uuid);
    if p <= |data| {
      FindsNothing(data, p, v0.path);
    }
  }

  lemma LeftWithPath(v0: Super, data: seq<bv8>, p: nat, q: nat)
    requires |data| == BLOCK_SIZE && v0.magic == MAGIC && p == 15 + LengthAt(data, 13) && p + 2 <= 4096
    requires q == p + 2 + LengthAt(data, p) && q + 104 > 4096
    ensures SuperHolds(v0, data, LeftBehind(v0, data))
  {
    hide Get64, Be64, CrcBytes, LengthAt, NumbersUpTo, NumbersRead, FindString, SuperHolds, LeftBehind;
    FindsBy(data, 13, v0.uuid);
    FindsBy(data, p, v0.path);
    if q <= |data| {
      LeftAtNumbers(v0, data, p, q);
    } else {
      LeftAtPath(v0, data, p, q);
    }
  }

  lemma LeftAtNumbers(v0: Super, data: seq<bv8>, p: nat, q: nat)
    requires |data| == BLOCK_SIZE && v0.magic == MAGIC && p == 15 + LengthAt(data, 13) && p + 2 <= 4096
    requires q == p + 2 + LengthAt(data, p) && q + 104 > 4096 && q <= 4096
    requires FindString(data, 13, v0.uuid) == StringAt(if p == 15 then v0.uuid else data[15..p], p)
    requires FindString(data, p, v0.path) == StringAt(if q == p + 2 then v0.path else data[p + 2..q], q)
    ensures SuperHolds(v0, data, LeftBehind(v0, data))
  {
    hide Get64, Be64, CrcBytes, LengthAt, NumbersUpTo, NumbersRead, FindString;
    NumbersByRoom(v0.numbers, data, q);
  }

  lemma LeftAtPath(v0: Super, data: seq<bv8>, p: nat, q: nat)
    requires |data| == BLOCK_SIZE && v0.magic == MAGIC && p == 15 + LengthAt(data, 13) && p + 2 <= 4096
    requires q == p + 2 + LengthAt(data, p) && q > 4096
    requires FindString(data, 13, v0.uuid) == StringAt(if p == 15 then v0.uuid else data[15..p], p)
    requires FindString(data, p, v0.path) == NoString
    ensures SuperHolds(v0, data, LeftBehind(v0, data))
  {
    hide Get64, Be64, CrcBytes, LengthAt, NumbersUpTo, NumbersRead, FindString;
  }

  lemma TooLongMeans(data: seq<bv8>)
    requires |data| == BLOCK_SIZE && Locate(data) == TooLong
    ensures var p := 15 + LengthAt(data, 13); p + 2 > 4096 || p + 2 + LengthAt(data, p) + 104 > 4096
  {
    hide Get16, LengthAt;
    LengthIs(data, 13);
    if 15 + LengthAt(data, 13) + 2 <= 4096 {
      LengthIs(data, 15 + LengthAt(data, 13));
    }
  }

  lemma HoldsLeft(v0: Super, data: seq<bv8>)
    requires |data| == BLOCK_SIZE && v0.magic == MAGIC && Locate(data) == TooLong
    ensures SuperHolds(v0, data, LeftBehind(v0, data))
  {
    hide LengthAt, Locate, SuperHolds, LeftBehind;
    TooLongMeans(data);
    var p := 15 + LengthAt(data, 13);
    if p + 2 > 4096 {
      LeftWithoutPath(v0, data, p);
    } else {
      LeftWithPath(v0, data, p, p + 2 + LengthAt(data, p));
    }
  }

  lemma HoldsBetween(v0: Super, data: seq<bv8>, p: nat, q: nat)
    requires |data| == BLOCK_SIZE && p == 15 + LengthAt(data, 13) && p + 2 <= q && q + 104 <= 4096
    requires q == p + 2 + LengthAt(data, p)
    ensures SuperHolds(v0, data, ValueAt(v0, data, p, q))
  {
    hide Get64, Be64, CrcBytes, ReadCrc, LengthAt, NumbersAt, NumbersUpTo, NumbersRead;
    NumbersByRoom(v0.numbers, data, q);
    CrcRoundTrip(0, data[q + 100..q + 104]);
  }

  lemma HoldsAll(v0: Super, data: seq<bv8>)
    requires |data| == BLOCK_SIZE && Locate(data).Extents?
    ensures SuperHolds(v0, data, ValueAt(v0, data, Locate(data).path, Locate(data).numbers))
  {
    hide Get16, LengthAt, Locate, ValueAt, SuperHolds;
    var Extents(p, q) := Locate(data);
    LocateMeans(data, p, q);
    LengthIs(data, 13);
    LengthIs(data, p);
    HoldsBetween(v0, data, p, q);
  }

  /** What `Deserialize` makes of any bytes: each result, and what each field of the object then is. */
  lemma SuperReadAs(v0: Super, data: seq<bv8>, v: Super, err: ErrorCode)
    requires SuperOutcome(v0, data, v, err)
    ensures err == SuperResult(data)
    ensures err == BlockSizeIllegal ==> v == v0
    ensures err == BlockMagicIllegal ==> v == v0.(magic := v.magic) && Be32(v.magic) == data[..4]
    ensures err != BlockSizeIllegal && err != BlockMagicIllegal ==> |data| == 4096 && SuperHolds(v0, data, v)
  {
    hide SuperHolds, Locate, LeftBehind, ValueAt, Get32, Be32, StatusAt, LengthAt;
    ResultIs(data);
    match err
    case BlockSizeIllegal =>
    case BlockMagicIllegal =>
    case BlockDataIllegal =>
      HoldsLeft(v0.(magic := MAGIC), data);
      HoldsSame(v0, data, v);
    case Ok =>
      StatusCases(data);
      HoldsAll(v0, data);
    case BlockCrcMismatch =>
      HoldsAll(v0, data);
    case _ =>
  }

  lemma HoldsSame(v0: Super, data: seq<bv8>, v: Super)
    requires |data| == 4096 && SuperHolds(v0.(magic := MAGIC), data, v)
    ensures SuperHolds(v0, data, v)
  {
    hide LengthAt, NumbersRead, CrcBytes, Be64;
  }

  class SuperBlock {
    var magic: U32
    var version: bv8
    var deviceId: U64
    var uuid: seq<bv8>
    var path: seq<bv8>
    var numbers: Numbers
    var crc: bv32

    function Value(): Super
      reads this
    {
      Super(magic, version, deviceId, uuid, path, numbers, crc)
    }

    /** `asserted` says whether the size assertion at the end holds. */
    method Serialize() returns (result: seq<bv8>, asserted: bool)
      modifies this
      ensures Value() == SuperStamped(old(Value()))
      ensures result == SuperEncode(old(Value()))
      ensures asserted <==> |old(uuid)| + |old(path)| <= STRING_ROOM
    {
      hide Be16, Be32, Be64, Crc, CrcBytes;
      magic := MAGIC;
      result := Be32(magic) + [version] + Be64(deviceId);
      result := result + (Be16(|uuid| % 0x1_0000) + uuid);
      result := result + (Be16(|path| % 0x1_0000) + path);
      result := result + NumberBytes(numbers);
      var calculated := Crc32(result);
      crc := calculated;
      result := result + CrcBytes(crc);
      if |result| < BLOCK_SIZE {
        result := result + Zeros(BLOCK_SIZE - |result|);
      }
      asserted := |result| == BLOCK_SIZE;
    }

    /** The reads from the creation time on; each may find the block at its end. */
    method ReadNumbers(data: seq<bv8>, from: nat) returns (ok: bool)
      requires from <= |data|
      modifies this`numbers
      ensures ok <==> from + NUMBERS <= |data|
      ensures numbers == NumbersUpTo(old(numbers), data, from)
    {
      hide Get32, Get64;
      var ptr := from;
      if |data| - ptr < 8 { return false; }
      numbers := numbers.(createTime := Signed(Get64(data[ptr..ptr + 8])));
      ptr := ptr + 8;
      if |data| - ptr < 8 { return false; }
      numbers := numbers.(deviceCapacity := Get64(data[ptr..ptr + 8]));
      ptr := ptr + 8;
      if |data| - ptr < 8 { return false; }
      numbers := numbers.(blockSize := Get64(data[ptr..ptr + 8]));
      ptr := ptr + 8;
      if |data| - ptr < 4 { return false; }
      numbers := numbers.(journalBlockCount := Get32(data[ptr..ptr + 4]));
      ptr := ptr + 4;
      if |data| - ptr < 8 { return false; }
      numbers := numbers.(extentBlockSize := Get64(data[ptr..ptr + 8]));
      ptr := ptr + 8;
      if |data| - ptr < 8 { return false; }
      numbers := numbers.(extentBlockCount := Get64(data[ptr..ptr + 8]));
      ptr := ptr + 8;
      if |data| - ptr < 8 { return false; }
      numbers := numbers.(bitmapStart := Get64(data[ptr..ptr + 8]));
      ptr := ptr + 8;
      if |data| - ptr < 8 { return false; }
      numbers := numbers.(bitmapEnd := Get64(data[ptr..ptr + 8]));
      ptr := ptr + 8;
      if |data| - ptr < 8 { return false; }
      numbers := numbers.(trashBitmapStart := Get64(data[ptr..ptr + 8]));
      ptr := ptr + 8;
      if |data| - ptr < 8 { return false; }
      numbers := numbers.(trashBitmapEnd := Get64(data[ptr..ptr + 8]));
      ptr := ptr + 8;
      if |data| - ptr < 8 { return false; }
      numbers := numbers.(journalStart := Get64(data[ptr..ptr + 8]));
      ptr := ptr + 8;
      if |data| - ptr < 8 { return false; }
      numbers := numbers.(journalEnd := Get64(data[ptr..ptr + 8]));
      ptr := ptr + 8;
      if |data| - ptr < 8 { return false; }
      numbers := numbers.(extentBlocksStart := Get64(data[ptr..ptr + 8]));
      return true;
    }

    /** A length and a string of that length; `kept` stands when the length is zero. */
    static method ReadString(data: seq<bv8>, from: nat, kept: seq<bv8>) returns (ok: bool, s: seq<bv8>, next: nat)
      requires from <= |data|
      ensures match FindString(data, from, kept)
        case NoString => !ok && s == kept
        case StringAt(found, end) => ok && s == found && next == end
    {
      hide Get16;
      next, s := from, kept;
      if |data| - next < 2 { return false, s, next; }
      var length := Get16(data[next..next + 2]);
      next := next + 2;
      if length > 0 {
        if |data| - next < length { return false, s, next; }
        s := data[next..next + length];
        next := next + length;
      }
      return true, s, next;
    }

    /** The CRC field at `end`, against everything before it. */
    method CheckCrc(data: seq<bv8>, end: nat) returns (err: ErrorCode)
      requires end + 4 <= |data|
      modifies this`crc
      ensures crc == ReadCrc(data[end..end + 4]) && err == StatusAt(data, end)
    {
      hide Crc, ReadCrc;
      crc := ReadCrc(data[end..end + 4]);
      var calculated := Crc32(data[..end]);
      err := if calculated != crc then BlockCrcMismatch else Ok;
    }

    /** Both strings; `pathAt` is where the length of the path lies and `next` is where the numbers begin. */
    method ReadStrings(data: seq<bv8>) returns (ok: bool, pathAt: nat, next: nat)
      requires |data| == BLOCK_SIZE
      modifies this`uuid, this`path
      ensures match FindString(data, 13, old(uuid))
        case NoString => !ok && uuid == old(uuid) && path == old(path)
        case StringAt(s, end) =>
          && uuid == s && pathAt == end
          && match FindString(data, pathAt, old(path))
             case NoString => !ok && path == old(path)
             case StringAt(s, end) => ok && path == s && next == end
    {
      hide FindString;
      ok, uuid, pathAt := ReadString(data, 13, uuid);
      next := pathAt;
      if ok {
        ok, path, next := ReadString(data, pathAt, path);
      }
    }

    /** Everything between the magic and the CRC. */
    method ReadBody(data: seq<bv8>) returns (ok: bool, pathAt: nat, ptr: nat)
      requires |data| == BLOCK_SIZE
      modifies this`version, this`deviceId, this`uuid, this`path, this`numbers
      ensures Locate(data) == if ok then Extents(pathAt, ptr) else TooLong
      ensures ok ==> ptr + NUMBERS + 4 <= BLOCK_SIZE
      ensures ok ==> BodyRead(data, pathAt, ptr, old(uuid), old(path), version, deviceId, uuid, path, numbers)
      ensures !ok ==> Value() == LeftBehind(old(Value()), data)
    {
      hide Get64, NumbersAt, NumbersUpTo, Locate, FindString, BodyRead;
      version := data[4];
      deviceId := Get64(data[5..13]);
      ok, pathAt, ptr := ReadStrings(data);
      LocateByStrings(data, old(uuid), old(path));
      if ok {
        ok := ReadNumbers(data, ptr);
        ok := ok && |data| - (ptr + NUMBERS) >= 4;
        if ok {
          BodyByStrings(data, pathAt, ptr, old(uuid), old(path), deviceId, uuid, path, numbers);
        }
      }
    }

    method Deserialize(data: seq<bv8>) returns (err: ErrorCode)
      modifies this
      ensures SuperOutcome(old(Value()), data, Value(), err)
    {
      hide Get32, ReadCrc, StatusAt, Locate, SuperOutcome, BodyRead, LeftBehind;
      if |data| != BLOCK_SIZE {
        NotRead(old(Value()), data, Value());
        return BlockSizeIllegal;
      }
      magic := Get32(data[..4]);
      if magic != MAGIC {
        NotRead(old(Value()), data, Value());
        return BlockMagicIllegal;
      }
      var ok, pathAt, ptr := ReadBody(data);
      if !ok {
        NoRoom(old(Value()), data, Value());
        return BlockDataIllegal;
      }
      err := CheckCrc(data, ptr + NUMBERS);
      ReadAll(old(Value()), data, pathAt, ptr, Value());
    }
  }
}
