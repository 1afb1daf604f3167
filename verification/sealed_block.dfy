/**
 A 4096-byte block whose last four bytes are the big-endian CRC of the 4092 before them: the shape
 shared by the bitmap, data, journal and extent header blocks.
 */
module SealedBlock {
  import opened Bytes
  import opened CrcRegister
  import opened CrcTable
  import opened CrcBursts

  const BLOCK_SIZE: nat := 4096
  const COVERED: nat := 4092

  function Byte1(c: bv32): bv8 {
    (c >> 24) as bv8
  }

  function Byte2(c: bv32): bv8 {
    ((c >> 16) & 0xFF) as bv8
  }

  function Byte3(c: bv32): bv8 {
    ((c >> 8) & 0xFF) as bv8
  }

  function Byte4(c: bv32): bv8 {
    (c & 0xFF) as bv8
  }

  /** The CRC as it lies on the device, most significant byte first. */
  function CrcBytes(c: bv32): (bytes: seq<bv8>)
    ensures |bytes| == 4
  {
    [Byte1(c), Byte2(c), Byte3(c), Byte4(c)]
  }

  function ReadCrc(bytes: seq<bv8>): (c: bv32)
    requires |bytes| == 4
  {
    ((bytes[0] as bv32) << 24) | ((bytes[1] as bv32) << 16) | ((bytes[2] as bv32) << 8) | (bytes[3] as bv32)
  }

  lemma Join(b0: bv8, b1: bv8, b2: bv8, b3: bv8)
    ensures CrcBytes(((b0 as bv32) << 24) | ((b1 as bv32) << 16) | ((b2 as bv32) << 8) | (b3 as bv32))
      == [b0, b1, b2, b3]
  {
  }

  lemma JoinedAgain(c: bv32)
    ensures ReadCrc(CrcBytes(c)) == c
  {
  }

  lemma CrcRoundTrip(c: bv32, bytes: seq<bv8>)
    requires |bytes| == 4
    ensures ReadCrc(CrcBytes(c)) == c
    ensures CrcBytes(ReadCrc(bytes)) == bytes
    ensures ReadCrc(bytes) == c <==> bytes == CrcBytes(c)
  {
    JoinedAgain(c);
    Join(bytes[0], bytes[1], bytes[2], bytes[3]);
    assert bytes == [bytes[0], bytes[1], bytes[2], bytes[3]];
    hide Byte1, Byte2, Byte3, Byte4;
  }

  function Seal(covered: seq<bv8>): (block: seq<bv8>)
    requires |covered| == COVERED
    ensures |block| == BLOCK_SIZE
    ensures block[..COVERED] == covered && block[COVERED..] == CrcBytes(Crc(covered))
  {
    covered + CrcBytes(Crc(covered))
  }

  predicate Sealed(block: seq<bv8>) {
    && |block| == BLOCK_SIZE
    && Crc(block[..COVERED]) == ReadCrc(block[COVERED..])
  }

  lemma SealedIsSeal(block: seq<bv8>)
    requires |block| == BLOCK_SIZE
    ensures Sealed(block) <==> block == Seal(block[..COVERED])
  {
    CrcRoundTrip(Crc(block[..COVERED]), block[COVERED..]);
    assert block == block[..COVERED] + block[COVERED..];
  }

  /** Payload, footer and CRC of a block: where they lie. */
  lemma BlockParts(block: seq<bv8>, front: seq<bv8>, footer: seq<bv8>)
    requires |block| == BLOCK_SIZE && |front| == 4064 && |footer| == 28 && block[..COVERED] == front + footer
    ensures block[..4064] == front && block[4064..4064 + 28] == footer
    ensures block[4064 + 28..4064 + 32] == block[COVERED..]
  {
    SubSlice(block, 0, COVERED, 0, 4064);
    SubSlice(block, 0, COVERED, 4064, COVERED);
    assert block[0..COVERED] == block[..COVERED];
  }

  // ---- corruption ----

  /** The difference `e` turns a sealed block into a sealed block. */
  predicate Unseen(e: seq<bv8>)
    requires |e| == BLOCK_SIZE
  {
    CrcBytes(Register(0, e[..COVERED])) == e[COVERED..]
  }

  lemma Byte1Linear(a: bv32, b: bv32)
    ensures Byte1(Plus(a, b)) == PlusByte(Byte1(a), Byte1(b))
  {
  }

  lemma Byte2Linear(a: bv32, b: bv32)
    ensures Byte2(Plus(a, b)) == PlusByte(Byte2(a), Byte2(b))
  {
  }

  lemma Byte3Linear(a: bv32, b: bv32)
    ensures Byte3(Plus(a, b)) == PlusByte(Byte3(a), Byte3(b))
  {
  }

  lemma Byte4Linear(a: bv32, b: bv32)
    ensures Byte4(Plus(a, b)) == PlusByte(Byte4(a), Byte4(b))
  {
  }

  lemma CrcBytesLinear(a: bv32, b: bv32)
    ensures CrcBytes(Plus(a, b)) == Xor(CrcBytes(a), CrcBytes(b))
  {
    Byte1Linear(a, b);
    Byte2Linear(a, b);
    Byte3Linear(a, b);
    Byte4Linear(a, b);
    XorOfFour(Byte1(a), Byte2(a), Byte3(a), Byte4(a), Byte1(b), Byte2(b), Byte3(b), Byte4(b));
  }

  lemma XorOfFour(a1: bv8, a2: bv8, a3: bv8, a4: bv8, b1: bv8, b2: bv8, b3: bv8, b4: bv8)
    ensures Xor([a1, a2, a3, a4], [b1, b2, b3, b4])
      == [PlusByte(a1, b1), PlusByte(a2, b2), PlusByte(a3, b3), PlusByte(a4, b4)]
  {
    hide PlusByte;
  }

  lemma {:induction false} XorAgain(a: seq<bv8>, b: seq<bv8>)
    requires |a| == |b|
    ensures Xor(a, Xor(a, b)) == b
  {
    forall i | 0 <= i < |a| ensures PlusByte(a[i], PlusByte(a[i], b[i])) == b[i] {
      XorByteAgain(a[i], b[i]);
    }
  }

  lemma XorByteAgain(a: bv8, b: bv8)
    ensures PlusByte(a, PlusByte(a, b)) == b
  {
  }

  /** The blocks that pass the CRC test form a coset: which differences pass does not depend on the block. */
  lemma UnseenDifference(block: seq<bv8>, e: seq<bv8>)
    requires Sealed(block) && |e| == BLOCK_SIZE
    ensures Sealed(Xor(block, e)) <==> Unseen(e)
  {
    var other := Xor(block, e);
    var a, b := block[..COVERED], e[..COVERED];
    assert other[..COVERED] == Xor(a, b);
    assert other[COVERED..] == Xor(block[COVERED..], e[COVERED..]);
    CrcDifference(a, Xor(a, b));
    XorAgain(a, b);
    PlusGroup(Crc(a), Crc(a), Crc(Xor(a, b)));
    PlusGroup(Crc(Xor(a, b)), 0, 0);
    assert Crc(Xor(a, b)) == Plus(Crc(a), Register(0, b));
    CrcBytesLinear(Crc(a), Register(0, b));
    CrcRoundTrip(Crc(a), block[COVERED..]);
    CrcRoundTrip(Crc(Xor(a, b)), other[COVERED..]);
    XorAgain(block[COVERED..], e[COVERED..]);
    XorAgain(block[COVERED..], CrcBytes(Register(0, b)));
  }

  /** The one difference of at most four neighbouring bytes that the CRC field does not reveal. */
  function Blind(): (e: seq<bv8>)
    ensures |e| == BLOCK_SIZE
  {
    Zeros(4090) + [0x61, 0xD8, 0xF4, 0xEE] + Zeros(2)
  }

  lemma CrcBytesOfZero(c: bv32)
    ensures CrcBytes(c) == Zeros(4) <==> c == 0
  {
    var bytes := CrcBytes(c);
    assert bytes == Zeros(4) <==> bytes[0] == 0 && bytes[1] == 0 && bytes[2] == 0 && bytes[3] == 0;
  }

  lemma WindowInCovered(e: seq<bv8>, k: nat)
    requires |e| == BLOCK_SIZE && CrcBursts.Within(e, k)
    requires k + 4 <= COVERED || k == COVERED
    ensures Unseen(e) <==> e == Zeros(BLOCK_SIZE)
  {
    hide Byte1, Byte2, Byte3, Byte4, Register;
    var covered := e[..COVERED];
    assert Within(covered, k);
    WindowRegister(covered, k);
    CrcBytesOfZero(Register(0, covered));
    assert e == covered + e[COVERED..];
    if k != COVERED {
      assert e[COVERED..] == Zeros(4);
    } else {
      assert covered == Zeros(COVERED);
    }
    assert Zeros(BLOCK_SIZE) == Zeros(COVERED) + Zeros(4);
    assert Zeros(BLOCK_SIZE)[..COVERED] == Zeros(COVERED) && Zeros(BLOCK_SIZE)[COVERED..] == Zeros(4);
  }

  /** The register after the last `n` covered bytes, the others being unchanged. */
  lemma LastBytes(e: seq<bv8>, n: nat)
    requires |e| == BLOCK_SIZE && 1 <= n <= 3 && Within(e, COVERED - n)
    ensures Register(0, e[..COVERED]) == Register(0, e[COVERED - n..COVERED])
  {
    var front := e[..COVERED - n];
    assert front == Zeros(COVERED - n);
    assert e[..COVERED] == front + e[COVERED - n..COVERED];
    RegisterAppend(0, front, e[COVERED - n..COVERED]);
    ZerosKeepDifference(0, COVERED - n);
  }

  lemma OneByte(d: bv8)
    ensures Register(0, [d]) == Spread(d as bv32)
  {
    assert [d][..0] == [];
    FeedByteIsSteps(0, d);
    hide Spread, Step8, Steps, FeedByte;
    PlusGroup(0, d as bv32, 0);
    Step8IsSteps(d as bv32);
    ByteFits(d);
    SpreadIsStep8(d as bv32);
  }

  lemma ByteFits(d: bv8)
    ensures d as bv32 < 0x100
    ensures d == 0 <==> d as bv32 == 0
    ensures d == 0x61 <==> d as bv32 == 0x61
  {
  }

  lemma SpreadStep(c: bv32, b: bv8)
    ensures FeedByte(c, b) == Plus(Spread(Index(c, b)), High(c))
  {
    TableStep(c, b);
    TableIsSpread(Index(c, b));
  }

  lemma TwoBytes(d: bv8, d': bv8, c: bv32)
    requires c == Register(0, [d])
    ensures Register(0, [d, d']) == FeedByte(c, d')
  {
    assert [d, d'][..1] == [d];
  }

  predicate TopClear(c: bv32) {
    c & 0xFF00_0000 == 0
  }

  predicate LowThreeClear(c: bv32) {
    c & 0x00FF_FFFF == 0
  }

  function Word3(w0: bv8, w1: bv8, w2: bv8): bv32 {
    Plus(Plus(Plus(0, Placed(w0, 0)), Placed(w1, 1)), Placed(w2, 2))
  }

  lemma WordOfThree(w: seq<bv8>)
    requires |w| == 3
    ensures Word(w) == Word3(w[0], w[1], w[2])
  {
    var w1, w2 := w[..1], w[..2];
    assert w1[..0] == [] && w2[..1] == w1;
    assert Word(w1) == Plus(0, Placed(w[0], 0));
    assert Word(w2) == Plus(Word(w1), Placed(w[1], 1));
  }

  lemma ThreeBytes(w: seq<bv8>)
    requires |w| == 3
    ensures LowThreeClear(Register(0, w)) <==> w == Zeros(3)
  {
    hide *;
    var n := 8 * |w|;
    WindowIsWord(w);
    WordOfThree(w);
    ZeroThree(w);
    Word3Fits(w[0], w[1], w[2]);
    ThreeByteKernel(Word(w), n);
  }

  lemma ZeroThree(w: seq<bv8>)
    requires |w| == 3
    ensures w == Zeros(3) <==> w[0] == 0 && w[1] == 0 && w[2] == 0
  {
  }

  lemma Word3Fits(w0: bv8, w1: bv8, w2: bv8)
    ensures TopClear(Word3(w0, w1, w2))
    ensures Word3(w0, w1, w2) == 0 <==> w0 == 0 && w1 == 0 && w2 == 0
  {
    assert Placed(w2, 2) == (w2 as bv32) << 16;
  }

  /** One step backwards. */
  function Back(c: bv32): bv32 {
    if c & 0x8000_0000 == 0 then c << 1 else ((c ^ POLY) << 1) | 1
  }

  function Back8(c: bv32): bv32 {
    Back(Back(Back(Back(Back(Back(Back(Back(c))))))))
  }

  lemma BackStep(c: bv32)
    ensures Back(Step(c)) == c
  {
  }

  lemma Back8Step8(c: bv32, n: nat)
    requires n == 8
    ensures Back8(Steps(c, n)) == c
  {
    var c1 := Step(c);
    var c2 := Step(c1);
    var c3 := Step(c2);
    var c4 := Step(c3);
    var c5 := Step(c4);
    var c6 := Step(c5);
    var c7 := Step(c6);
    BackStep(c);
    BackStep(c1);
    BackStep(c2);
    BackStep(c3);
    BackStep(c4);
    BackStep(c5);
    BackStep(c6);
    BackStep(c7);
    Step8IsSteps(c);
  }

  lemma TopByteBack(t: bv32)
    requires t & 0x00FF_FFFF == 0
    ensures Back8(Back8(Back8(t))) & 0xFF00_0000 == 0 ==> t == 0
  {
  }

  lemma ThreeByteKernel(word: bv32, n: nat)
    requires TopClear(word) && n == 24
    ensures LowThreeClear(Steps(word, n)) <==> word == 0
  {
    hide Steps, Back8;
    BackToWord(word, n);
    StepsOfNonzero(word, n);
    TopBytesBack(word, Steps(word, n));
  }

  lemma TopBytesBack(word: bv32, t: bv32)
    requires TopClear(word) && Back8(Back8(Back8(t))) == word && (t == 0 <==> word == 0)
    ensures LowThreeClear(t) <==> word == 0
  {
    hide Back8;
    if LowThreeClear(t) {
      TopByteBack(t);
    }
  }

  lemma BackToWord(word: bv32, n: nat)
    requires n == 24
    ensures Back8(Back8(Back8(Steps(word, n)))) == word
  {
    hide Steps, Back8;
    var m := n - 16;
    StepsCompose(word, m, m);
    StepsCompose(word, m + m, m);
    Back8Step8(word, m);
    Back8Step8(Steps(word, m), m);
    Back8Step8(Steps(word, m + m), m);
  }

  // ---- the four windows that end behind the covered bytes ----

  lemma Byte4Clear(c: bv32)
    ensures Byte4(c) == 0 <==> c & 0x0000_00FF == 0
  {
  }

  lemma Bytes34Clear(c: bv32)
    ensures Byte3(c) == 0 && Byte4(c) == 0 <==> LowHalfClear(c)
  {
  }

  lemma Bytes234Clear(c: bv32)
    ensures Byte2(c) == 0 && Byte3(c) == 0 && Byte4(c) == 0 <==> LowThreeClear(c)
  {
  }

  lemma ZeroRegister(e: seq<bv8>)
    requires |e| == BLOCK_SIZE && Register(0, e[..COVERED]) == 0
    ensures Unseen(e) <==> e[COVERED..] == Zeros(4)
  {
    CrcBytesOfZero(0);
  }

  lemma LastByteSeen(e: seq<bv8>, c: bv32)
    requires |e| == BLOCK_SIZE && Register(0, e[..COVERED]) == c && Byte4(c) != 0 && e[COVERED..][3] == 0
    ensures !Unseen(e)
  {
    hide Byte1, Byte2, Byte3, Byte4, Register;
    assert CrcBytes(c)[3] == Byte4(c);
  }

  lemma ZeroByteUnseen(e: seq<bv8>)
    requires |e| == BLOCK_SIZE && Within(e, 4091) && e[4091] == 0 && Register(0, e[..COVERED]) == 0
    ensures Unseen(e) <==> e == Zeros(BLOCK_SIZE)
  {
    hide Register, Unseen;
    ZeroRegister(e);
    SplitBlock(e, 1, e[4091..COVERED]);
    assert e[4091..COVERED] == Zeros(1);
  }

  /** One covered byte and three bytes of the CRC. */
  lemma WindowAt4091(e: seq<bv8>)
    requires |e| == BLOCK_SIZE && Within(e, 4091)
    ensures Unseen(e) <==> e == Zeros(BLOCK_SIZE)
  {
    hide Spread, Register, Unseen, Byte4;
    var d := e[4091];
    LastBytes(e, 1);
    assert e[4091..COVERED] == [d];
    OneByte(d);
    ByteFits(d);
    if d == 0 {
      SpreadValues();
      ZeroByteUnseen(e);
    } else {
      OneByteKernel(d as bv32);
      Byte4Clear(Spread(d as bv32));
      LastByteSeen(e, Spread(d as bv32));
      assert Zeros(BLOCK_SIZE)[4091] == 0;
    }
  }

  /** A block that is zero before its last covered bytes `w`, put together again. */
  lemma SplitBlock(e: seq<bv8>, n: nat, w: seq<bv8>)
    requires |e| == BLOCK_SIZE && n <= 3 && Within(e, COVERED - n) && w == e[COVERED - n..COVERED]
    ensures e == Zeros(COVERED - n) + w + e[COVERED..]
    ensures e == Zeros(BLOCK_SIZE) <==> w == Zeros(n) && e[COVERED..] == Zeros(4)
  {
    assert e[..COVERED - n] == Zeros(COVERED - n);
    assert e == e[..COVERED - n] + w + e[COVERED..];
    assert Zeros(BLOCK_SIZE) == Zeros(COVERED - n) + Zeros(n) + Zeros(4);
    assert Zeros(BLOCK_SIZE)[COVERED - n..COVERED] == Zeros(n) && Zeros(BLOCK_SIZE)[COVERED..] == Zeros(4);
  }

  /** Three covered bytes and one of the CRC. */
  lemma WindowAt4089(e: seq<bv8>)
    requires |e| == BLOCK_SIZE && Within(e, 4089)
    ensures Unseen(e) <==> e == Zeros(BLOCK_SIZE)
  {
    hide Register, Unseen, Byte2, Byte3, Byte4, LowThreeClear;
    var w := e[4089..COVERED];
    LastBytes(e, 3);
    ThreeBytes(w);
    SplitBlock(e, 3, w);
    if w == Zeros(3) {
      ZerosKeepDifference(0, 3);
      ZeroRegister(e);
    } else {
      LastThreeSeen(e, Register(0, w));
    }
  }

  lemma LastThreeSeen(e: seq<bv8>, c: bv32)
    requires |e| == BLOCK_SIZE && Within(e, 4089) && Register(0, e[..COVERED]) == c && !LowThreeClear(c)
    ensures !Unseen(e)
  {
    Bytes234Clear(c);
    hide Byte1, Byte2, Byte3, Byte4, Register;
    assert CrcBytes(c)[1] == Byte2(c) && CrcBytes(c)[2] == Byte3(c) && CrcBytes(c)[3] == Byte4(c);
    assert e[COVERED..][1] == 0 && e[COVERED..][2] == 0 && e[COVERED..][3] == 0;
  }

  lemma IndexOfZero(d: bv8)
    ensures Index(0, d) == d as bv32
  {
  }

  lemma IndexOfBlind(d: bv8)
    ensures Index(0x3AB5_51CE, d) == 0x16 <==> d == 0xD8
  {
  }

  lemma BlindCrcBytes()
    ensures CrcBytes(0xF4EE_0000) == [0xF4, 0xEE, 0, 0]
  {
  }

  predicate BlindPair(d: bv8, d': bv8) {
    d == 0x61 && d' == 0xD8
  }

  /** The register `c` that the covered bytes `d` and `d'` leave has its low half clear in two cases only. */
  predicate PairVerdict(d: bv8, d': bv8, c: bv32) {
    && (LowHalfClear(c) <==> (d == 0 && d' == 0) || BlindPair(d, d'))
    && (d == 0 && d' == 0 ==> c == 0)
    && (BlindPair(d, d') ==> c == 0xF4EE_0000)
  }

  lemma TwoByteRegister(d: bv8, d': bv8)
    ensures PairVerdict(d, d', Register(0, [d, d']))
  {
    var s := Register(0, [d]);
    OneByte(d);
    TwoBytes(d, d', s);
    SpreadStep(s, d');
    TwoByteCases(d, d', Index(s, d'));
  }

  lemma TwoByteCases(d: bv8, d': bv8, v: bv32)
    requires v == Index(Spread(d as bv32), d')
    ensures PairVerdict(d, d', Plus(Spread(v), High(Spread(d as bv32))))
  {
    hide Spread, Index, LowHalfClear, Plus, High;
    ByteFits(d);
    ByteFits(d');
    TwoByteKernel(v, d as bv32);
    SpreadValues();
    KernelValues();
    IndexOfZero(d');
    IndexOfBlind(d');
  }

  /** Two covered bytes and two of the CRC: here lies the blind spot. */
  lemma WindowAt4090(e: seq<bv8>)
    requires |e| == BLOCK_SIZE && Within(e, 4090)
    ensures Unseen(e) <==> e == Zeros(BLOCK_SIZE) || e == Blind()
  {
    hide Byte1, Byte2, Byte3, Byte4, LowHalfClear, Unseen, Blind, Register, PairVerdict;
    var d, d' := e[4090], e[4091];
    LastBytes(e, 2);
    assert e[4090..COVERED] == [d, d'];
    hide Within;
    TwoByteRegister(d, d');
    var c := Register(0, [d, d']);
    Bytes34Clear(c);
    PairAndTail(e, d, d', c);
  }

  /** A block that is zero up to the pair `d`, `d'` and after two bytes of the CRC. */
  ghost predicate PairBlock(e: seq<bv8>, d: bv8, d': bv8, c: bv32) {
    && |e| == BLOCK_SIZE && Within(e, 4090) && e[4090..COVERED] == [d, d'] && Register(0, e[..COVERED]) == c
    && e[COVERED..][2] == 0 && e[COVERED..][3] == 0
  }

  lemma PairAndTail(e: seq<bv8>, d: bv8, d': bv8, c: bv32)
    requires |e| == BLOCK_SIZE && Within(e, 4090) && e[4090..COVERED] == [d, d']
    requires Register(0, e[..COVERED]) == c && PairVerdict(d, d', c)
    requires Byte3(c) == 0 && Byte4(c) == 0 <==> LowHalfClear(c)
    ensures Unseen(e) <==> e == Zeros(BLOCK_SIZE) || e == Blind()
  {
    hide Byte1, Byte2, Byte3, Byte4, LowHalfClear, Blind, Unseen, Register;
    assert PairBlock(e, d, d', c);
    hide PairBlock, Within;
    SplitBlind();
    PairOfBlock(e, d, d', c);
    if d == 0 && d' == 0 {
      ZeroPairUnseen(e);
    } else if BlindPair(d, d') {
      BlindPairUnseen(e);
    } else {
      OtherPairSeen(e, d, d', c);
    }
  }

  lemma PairOfBlock(e: seq<bv8>, d: bv8, d': bv8, c: bv32)
    requires PairBlock(e, d, d', c)
    ensures e == Zeros(BLOCK_SIZE) ==> d == 0 && d' == 0
    ensures e == Blind() ==> BlindPair(d, d')
  {
    hide Register, Blind;
    SplitBlind();
    SplitBlock(e, 2, [d, d']);
    ZeroPair(d, d');
    if e == Blind() {
      assert e[4090..COVERED][0] == 0x61 && e[4090..COVERED][1] == 0xD8;
    }
  }

  lemma ZeroPairUnseen(e: seq<bv8>)
    requires PairBlock(e, 0, 0, 0)
    ensures Unseen(e) <==> e == Zeros(BLOCK_SIZE)
  {
    SplitBlock(e, 2, [0, 0]);
    hide Register;
    ZeroPair(0, 0);
    ZeroRegister(e);
  }

  lemma BlindPairUnseen(e: seq<bv8>)
    requires PairBlock(e, 0x61, 0xD8, 0xF4EE_0000)
    ensures Unseen(e) <==> e == Blind()
  {
    hide Byte1, Byte2, Byte3, Byte4, Blind, Register;
    SplitBlock(e, 2, [0x61, 0xD8]);
    SplitBlind();
    BlindCrcBytes();
    var tail := e[COVERED..];
    assert e == Zeros(4090) + [0x61, 0xD8] + tail;
    assert Blind()[COVERED..] == [0xF4, 0xEE, 0, 0];
  }

  lemma OtherPairSeen(e: seq<bv8>, d: bv8, d': bv8, c: bv32)
    requires PairBlock(e, d, d', c) && !(Byte3(c) == 0 && Byte4(c) == 0)
    ensures !Unseen(e)
  {
    hide Byte1, Byte2, Byte3, Byte4, Register;
    assert CrcBytes(c)[2] == Byte3(c) && CrcBytes(c)[3] == Byte4(c);
  }

  lemma ZeroPair(d: bv8, d': bv8)
    ensures [d, d'] == Zeros(2) <==> d == 0 && d' == 0
  {
    assert [d, d'] == Zeros(2) <==> [d, d'][0] == 0 && [d, d'][1] == 0;
  }

  lemma SplitBlind()
    ensures Blind() == Zeros(4090) + [0x61, 0xD8] + [0xF4, 0xEE, 0, 0]
    ensures Blind()[4090..COVERED] == [0x61, 0xD8]
  {
  }

  /** The differences of at most four neighbouring bytes that are not seen: none at all, and one. */
  lemma UnseenExactly(e: seq<bv8>, k: nat)
    requires |e| == BLOCK_SIZE && Within(e, k) && k + 4 <= BLOCK_SIZE
    ensures Unseen(e) <==> e == Zeros(BLOCK_SIZE) || e == Blind()
  {
    hide Unseen, Blind, Within;
    if k == 4090 {
      WindowAt4090(e);
    } else {
      BlindOutside(e, k);
      if k == 4089 {
        WindowAt4089(e);
      } else if k == 4091 {
        WindowAt4091(e);
      } else {
        WindowInCovered(e, k);
      }
    }
  }

  lemma DifferenceWithin(block: seq<bv8>, other: seq<bv8>, k: nat)
    requires |block| == |other|
    requires forall i | 0 <= i < |block| && !(k <= i < k + 4) :: other[i] == block[i]
    ensures Within(Xor(block, other), k)
  {
    hide PlusByte;
    forall i | 0 <= i < |block| && !(k <= i < k + 4) ensures Xor(block, other)[i] == 0 {
      SameByte(block[i], other[i]);
    }
  }

  /** Which changes to four neighbouring bytes of a sealed block leave it sealed: none, but for one. */
  lemma FourByteCorruption(block: seq<bv8>, other: seq<bv8>, k: nat)
    requires Sealed(block) && |other| == BLOCK_SIZE && other != block && k + 4 <= BLOCK_SIZE
    requires forall i | 0 <= i < BLOCK_SIZE && !(k <= i < k + 4) :: other[i] == block[i]
    ensures Sealed(other) <==> other == Xor(block, Blind())
  {
    assert |block| == BLOCK_SIZE;
    hide Sealed, Unseen, Blind, Within, Xor;
    var e := Xor(block, other);
    DifferenceWithin(block, other, k);
    UnseenExactly(e, k);
    UnseenDifference(block, e);
    XorAgain(block, other);
    XorIsZero(block, other);
    XorAgain(block, Blind());
  }

  lemma BlindOutside(e: seq<bv8>, k: nat)
    requires |e| == BLOCK_SIZE && Within(e, k) && k != 4090
    ensures e != Blind()
  {
    assert Blind()[4090] == 0x61 && Blind()[4093] == 0xEE;
  }
}
