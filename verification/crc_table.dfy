/** The table of `CRC::CRC32`, and the proof that it is eight steps of the polynomial at a time. */
module CrcTable {
  import opened CrcRegister

  /** One of sixteen neighbouring entries. */
  function Column(k: bv32, e0: bv32, e1: bv32, e2: bv32, e3: bv32, e4: bv32, e5: bv32, e6: bv32, e7: bv32,
    e8: bv32, e9: bv32, eA: bv32, eB: bv32, eC: bv32, eD: bv32, eE: bv32, eF: bv32): bv32
  {
    match k
    case 0 => e0
    case 1 => e1
    case 2 => e2
    case 3 => e3
    case 4 => e4
    case 5 => e5
    case 6 => e6
    case 7 => e7
    case 8 => e8
    case 9 => e9
    case 10 => eA
    case 11 => eB
    case 12 => eC
    case 13 => eD
    case 14 => eE
    case _ => eF
  }

  function FirstRow(k: bv32): bv32 {
    Column(k,
      0x00000000, 0x77073096, 0xEE0E612C, 0x990951BA, 0x076DC419, 0x706AF48F, 0xE963A535, 0x9E6495A3,
      0x0EDB8832, 0x79DCB8A4, 0xE0D5E91E, 0x97D2D988, 0x09B64C2B, 0x7EB17CBD, 0xE7B82D07, 0x90BF1D91)
  }

  /** The 256 constants, row by row. */
  function Table(i: bv32): bv32 {
    match i >> 4
    case 0 => FirstRow(i & 0x0F)
    case 1 => Column(i & 0x0F,
      0x1DB71064, 0x6AB020F2, 0xF3B97148, 0x84BE41DE, 0x1ADAD47D, 0x6DDDE4EB, 0xF4D4B551, 0x83D385C7,
      0x136C9856, 0x646BA8C0, 0xFD62F97A, 0x8A65C9EC, 0x14015C4F, 0x63066CD9, 0xFA0F3D63, 0x8D080DF5)
    case 2 => Column(i & 0x0F,
      0x3B6E20C8, 0x4C69105E, 0xD56041E4, 0xA2677172, 0x3C03E4D1, 0x4B04D447, 0xD20D85FD, 0xA50AB56B,
      0x35B5A8FA, 0x42B2986C, 0xDBBBC9D6, 0xACBCF940, 0x32D86CE3, 0x45DF5C75, 0xDCD60DCF, 0xABD13D59)
    case 3 => Column(i & 0x0F,
      0x26D930AC, 0x51DE003A, 0xC8D75180, 0xBFD06116, 0x21B4F4B5, 0x56B3C423, 0xCFBA9599, 0xB8BDA50F,
      0x2802B89E, 0x5F058808, 0xC60CD9B2, 0xB10BE924, 0x2F6F7C87, 0x58684C11, 0xC1611DAB, 0xB6662D3D)
    case 4 => Column(i & 0x0F,
      0x76DC4190, 0x01DB7106, 0x98D220BC, 0xEFD5102A, 0x71B18589, 0x06B6B51F, 0x9FBFE4A5, 0xE8B8D433,
      0x7807C9A2, 0x0F00F934, 0x9609A88E, 0xE10E9818, 0x7F6A0DBB, 0x086D3D2D, 0x91646C97, 0xE6635C01)
    case 5 => Column(i & 0x0F,
      0x6B6B51F4, 0x1C6C6162, 0x856530D8, 0xF262004E, 0x6C0695ED, 0x1B01A57B, 0x8208F4C1, 0xF50FC457,
      0x65B0D9C6, 0x12B7E950, 0x8BBEB8EA, 0xFCB9887C, 0x62DD1DDF, 0x15DA2D49, 0x8CD37CF3, 0xFBD44C65)
    case 6 => Column(i & 0x0F,
      0x4DB26158, 0x3AB551CE, 0xA3BC0074, 0xD4BB30E2, 0x4ADFA541, 0x3DD895D7, 0xA4D1C46D, 0xD3D6F4FB,
      0x4369E96A, 0x346ED9FC, 0xAD678846, 0xDA60B8D0, 0x44042D73, 0x33031DE5, 0xAA0A4C5F, 0xDD0D7CC9)
    case 7 => Column(i & 0x0F,
      0x5005713C, 0x270241AA, 0xBE0B1010, 0xC90C2086, 0x5768B525, 0x206F85B3, 0xB966D409, 0xCE61E49F,
      0x5EDEF90E, 0x29D9C998, 0xB0D09822, 0xC7D7A8B4, 0x59B33D17, 0x2EB40D81, 0xB7BD5C3B, 0xC0BA6CAD)
    case 8 => Column(i & 0x0F,
      0xEDB88320, 0x9ABFB3B6, 0x03B6E20C, 0x74B1D29A, 0xEAD54739, 0x9DD277AF, 0x04DB2615, 0x73DC1683,
      0xE3630B12, 0x94643B84, 0x0D6D6A3E, 0x7A6A5AA8, 0xE40ECF0B, 0x9309FF9D, 0x0A00AE27, 0x7D079EB1)
    case 9 => Column(i & 0x0F,
      0xF00F9344, 0x8708A3D2, 0x1E01F268, 0x6906C2FE, 0xF762575D, 0x806567CB, 0x196C3671, 0x6E6B06E7,
      0xFED41B76, 0x89D32BE0, 0x10DA7A5A, 0x67DD4ACC, 0xF9B9DF6F, 0x8EBEEFF9, 0x17B7BE43, 0x60B08ED5)
    case 10 => Column(i & 0x0F,
      0xD6D6A3E8, 0xA1D1937E, 0x38D8C2C4, 0x4FDFF252, 0xD1BB67F1, 0xA6BC5767, 0x3FB506DD, 0x48B2364B,
      0xD80D2BDA, 0xAF0A1B4C, 0x36034AF6, 0x41047A60, 0xDF60EFC3, 0xA867DF55, 0x316E8EEF, 0x4669BE79)
    case 11 => Column(i & 0x0F,
      0xCB61B38C, 0xBC66831A, 0x256FD2A0, 0x5268E236, 0xCC0C7795, 0xBB0B4703, 0x220216B9, 0x5505262F,
      0xC5BA3BBE, 0xB2BD0B28, 0x2BB45A92, 0x5CB36A04, 0xC2D7FFA7, 0xB5D0CF31, 0x2CD99E8B, 0x5BDEAE1D)
    case 12 => Column(i & 0x0F,
      0x9B64C2B0, 0xEC63F226, 0x756AA39C, 0x026D930A, 0x9C0906A9, 0xEB0E363F, 0x72076785, 0x05005713,
      0x95BF4A82, 0xE2B87A14, 0x7BB12BAE, 0x0CB61B38, 0x92D28E9B, 0xE5D5BE0D, 0x7CDCEFB7, 0x0BDBDF21)
    case 13 => Column(i & 0x0F,
      0x86D3D2D4, 0xF1D4E242, 0x68DDB3F8, 0x1FDA836E, 0x81BE16CD, 0xF6B9265B, 0x6FB077E1, 0x18B74777,
      0x88085AE6, 0xFF0F6A70, 0x66063BCA, 0x11010B5C, 0x8F659EFF, 0xF862AE69, 0x616BFFD3, 0x166CCF45)
    case 14 => Column(i & 0x0F,
      0xA00AE278, 0xD70DD2EE, 0x4E048354, 0x3903B3C2, 0xA7672661, 0xD06016F7, 0x4969474D, 0x3E6E77DB,
      0xAED16A4A, 0xD9D65ADC, 0x40DF0B66, 0x37D83BF0, 0xA9BCAE53, 0xDEBB9EC5, 0x47B2CF7F, 0x30B5FFE9)
    case _ => Column(i & 0x0F,
      0xBDBDF21C, 0xCABAC28A, 0x53B39330, 0x24B4A3A6, 0xBAD03605, 0xCDD70693, 0x54DE5729, 0x23D967BF,
      0xB3667A2E, 0xC4614AB8, 0x5D681B02, 0x2A6F2B94, 0xB40BBE37, 0xC30C8EA1, 0x5A05DF1B, 0x2D02EF8D)
  }

  function Step8(c: bv32): bv32 {
    Step(Step(Step(Step(Step(Step(Step(Step(c))))))))
  }

  // ---- what the entries have in common ----

  function Bit(bit: bv32, entry: bv32): bv32 {
    (0 - (bit & 1)) & entry
  }

  function SpreadLow(x: bv32): bv32 {
    Plus(Plus(Bit(x, 0x7707_3096), Bit(x >> 1, 0xEE0E_612C)), Plus(Bit(x >> 2, 0x076D_C419), Bit(x >> 3, 0x0EDB_8832)))
  }

  function SpreadHigh(x: bv32): bv32 {
    Plus(Plus(Bit(x >> 4, 0x1DB7_1064), Bit(x >> 5, 0x3B6E_20C8)),
      Plus(Bit(x >> 6, 0x76DC_4190), Bit(x >> 7, 0xEDB8_8320)))
  }

  /** An entry of the table as the sum of the entries of the bits of its index. */
  function Spread(x: bv32): bv32 {
    Plus(SpreadLow(x), SpreadHigh(x))
  }

  lemma FirstRowIsSpread(k: bv32)
    requires k < 16
    ensures FirstRow(k) == Spread(k)
  {
  }

  lemma Row0(i: bv32)
    requires i >> 4 == 0
    ensures Table(i) == Spread(i)
  {
    hide Column, FirstRow, Spread;
    assert i & 0x0F == i;
    FirstRowIsSpread(i);
  }

  lemma Rows1And2(i: bv32)
    requires i >> 4 == 1 || i >> 4 == 2
    ensures Table(i) == Spread(i)
  {
  }

  lemma Rows3And4(i: bv32)
    requires i >> 4 == 3 || i >> 4 == 4
    ensures Table(i) == Spread(i)
  {
  }

  lemma Rows5And6(i: bv32)
    requires i >> 4 == 5 || i >> 4 == 6
    ensures Table(i) == Spread(i)
  {
  }

  lemma Rows7And8(i: bv32)
    requires i >> 4 == 7 || i >> 4 == 8
    ensures Table(i) == Spread(i)
  {
  }

  lemma Rows9And10(i: bv32)
    requires i >> 4 == 9 || i >> 4 == 10
    ensures Table(i) == Spread(i)
  {
  }

  lemma Rows11And12(i: bv32)
    requires i >> 4 == 11 || i >> 4 == 12
    ensures Table(i) == Spread(i)
  {
  }

  lemma Rows13And14(i: bv32)
    requires i >> 4 == 13 || i >> 4 == 14
    ensures Table(i) == Spread(i)
  {
  }

  lemma Row15(i: bv32)
    requires i >> 4 == 15
    ensures Table(i) == Spread(i)
  {
  }

  lemma Step8IsSteps(c: bv32)
    ensures Step8(c) == Steps(c, 8)
  {
  }

  lemma TableIsSpread(i: bv32)
    requires i < 0x100
    ensures Table(i) == Spread(i)
  {
    hide Table, Spread;
    assert i >> 4 < 16;
    if i >> 4 == 0 {
      Row0(i);
    } else if i >> 4 <= 2 {
      Rows1And2(i);
    } else if i >> 4 <= 4 {
      Rows3And4(i);
    } else if i >> 4 <= 6 {
      Rows5And6(i);
    } else if i >> 4 <= 8 {
      Rows7And8(i);
    } else if i >> 4 <= 10 {
      Rows9And10(i);
    } else if i >> 4 <= 12 {
      Rows11And12(i);
    } else if i >> 4 <= 14 {
      Rows13And14(i);
    } else {
      Row15(i);
    }
  }

  lemma Step8Linear(a: bv32, b: bv32)
    ensures Step8(Plus(a, b)) == Plus(Step8(a), Step8(b))
  {
    hide Step, Plus, Step8;
    var n := |LowBits(0, 8)|;
    Step8IsSteps(a);
    Step8IsSteps(b);
    Step8IsSteps(Plus(a, b));
    StepsLinear(a, b, n);
  }

  lemma Step8OfFour(a: bv32, b: bv32, c: bv32, d: bv32)
    ensures Step8(Plus(Plus(a, b), Plus(c, d))) == Plus(Plus(Step8(a), Step8(b)), Plus(Step8(c), Step8(d)))
  {
    hide Plus, Step8;
    Step8Linear(a, b);
    Step8Linear(c, d);
    Step8Linear(Plus(a, b), Plus(c, d));
  }

  /** A bit of the index alone, moved back to its place. */
  lemma LowBitsAlone(x: bv32)
    ensures Step8(x & 0x01) == Bit(x, 0x7707_3096)
    ensures Step8(x & 0x02) == Bit(x >> 1, 0xEE0E_612C)
    ensures Step8(x & 0x04) == Bit(x >> 2, 0x076D_C419)
    ensures Step8(x & 0x08) == Bit(x >> 3, 0x0EDB_8832)
  {
  }

  lemma HighBitsAlone(x: bv32)
    ensures Step8(x & 0x10) == Bit(x >> 4, 0x1DB7_1064)
    ensures Step8(x & 0x20) == Bit(x >> 5, 0x3B6E_20C8)
    ensures Step8(x & 0x40) == Bit(x >> 6, 0x76DC_4190)
    ensures Step8(x & 0x80) == Bit(x >> 7, 0xEDB8_8320)
  {
  }

  lemma BitsTogether(x: bv32)
    requires x < 0x100
    ensures Plus(Plus(Plus(x & 0x01, x & 0x02), Plus(x & 0x04, x & 0x08)),
      Plus(Plus(x & 0x10, x & 0x20), Plus(x & 0x40, x & 0x80))) == x
  {
  }

  lemma SpreadIsStep8(x: bv32)
    requires x < 0x100
    ensures Spread(x) == Step8(x)
  {
    hide Plus, Step8, Bit;
    LowBitsAlone(x);
    HighBitsAlone(x);
    Step8OfFour(x & 0x01, x & 0x02, x & 0x04, x & 0x08);
    Step8OfFour(x & 0x10, x & 0x20, x & 0x40, x & 0x80);
    Step8Linear(Plus(Plus(x & 0x01, x & 0x02), Plus(x & 0x04, x & 0x08)),
      Plus(Plus(x & 0x10, x & 0x20), Plus(x & 0x40, x & 0x80)));
    BitsTogether(x);
  }

  /** Every entry of the table is eight one-bit steps of its index. */
  lemma TableIsEightSteps(i: bv32)
    requires i < 0x100
    ensures Table(i) == Steps(i, 8)
  {
    hide Table, Spread, Step8, Steps;
    TableIsSpread(i);
    SpreadIsStep8(i);
    Step8IsSteps(i);
  }

  /** `data[i]` is a `char`, which the C++ promotes with its sign. */
  function PromoteChar(b: bv8): bv32 {
    if b & 0x80 == 0 then b as bv32 else 0xFFFF_FF00 | (b as bv32)
  }

  /** The table index of the loop body. */
  function Index(crc: bv32, b: bv8): (i: bv32)
    ensures i < 0x100
  {
    (crc ^ PromoteChar(b)) & 0xFF
  }

  function High(crc: bv32): bv32 {
    crc >> 8
  }

  lemma IndexIsLowByte(crc: bv32, b: bv8)
    ensures Plus(crc, b as bv32) == Plus(Index(crc, b), (crc >> 8) << 8)
  {
  }

  /** With the low byte clear nothing is fed back: eight steps are a plain shift. */
  lemma ShiftOut(x: bv32)
    requires x & 0xFF00_0000 == 0
    ensures Step8(x << 8) == x
  {
  }

  lemma ShiftOutHigh(crc: bv32, n: nat)
    requires n == 8
    ensures Steps((crc >> 8) << 8, n) == crc >> 8
  {
    assert (crc >> 8) & 0xFF00_0000 == 0;
    ShiftOut(crc >> 8);
    Step8IsSteps((crc >> 8) << 8);
  }

  /** One turn of the table loop feeds one byte, sign promotion notwithstanding. */
  lemma TableStep(crc: bv32, b: bv8)
    ensures Plus(Table(Index(crc, b)), High(crc)) == FeedByte(crc, b)
  {
    var n := |LowBits(b, 8)|;
    FeedByteIsSteps(crc, b);
    IndexIsLowByte(crc, b);
    StepsLinear(Index(crc, b), (crc >> 8) << 8, n);
    TableIsEightSteps(Index(crc, b));
    ShiftOutHigh(crc, n);
  }

  /** One turn of the table loop. */
  function Turn(crc: bv32, b: bv8): bv32 {
    Plus(Table(Index(crc, b)), High(crc))
  }

  lemma Fed(before: seq<bv8>, b: bv8, data: seq<bv8>)
    requires data == before + [b]
    ensures Register(0xFFFF_FFFF, data) == Turn(Register(0xFFFF_FFFF, before), b)
  {
    hide Table, Index, Plus, High, FeedByte;
    TableStep(Register(0xFFFF_FFFF, before), b);
    assert data[..|before|] == before;
  }

  lemma DigitsTo3()
    ensures Turn(0xFFFF_FFFF, 0x31) == 0x7C23_1048
    ensures Turn(0x7C23_1048, 0x32) == 0xB0AC_BB32
    ensures Turn(0xB0AC_BB32, 0x33) == 0x77B7_9C2D
  {
  }

  lemma DigitsTo6()
    ensures Turn(0x77B7_9C2D, 0x34) == 0x641C_1F5C
    ensures Turn(0x641C_1F5C, 0x35) == 0x340A_C5E3
    ensures Turn(0x340A_C5E3, 0x36) == 0xF68D_2C9E
  {
  }

  lemma DigitsTo9()
    ensures Turn(0xF68D_2C9E, 0x37) == 0xAFFC_9660
    ensures Turn(0xAFFC_9660, 0x38) == 0x651F_2550
    ensures Turn(0x651F_2550, 0x39) == 0x340B_C6D9
  {
  }

  /** The check value of this CRC: the nine digits from 1 on. */
  lemma CheckValue()
    ensures Crc([0x31, 0x32, 0x33, 0x34, 0x35, 0x36, 0x37, 0x38, 0x39]) == 0xCBF4_3926
  {
    hide Turn, Register;
    DigitsTo3();
    DigitsTo6();
    DigitsTo9();
    FedNone();
    Fed([], 0x31, [0x31]);
    Fed([0x31], 0x32, [0x31, 0x32]);
    Fed([0x31, 0x32], 0x33, [0x31, 0x32, 0x33]);
    Fed([0x31, 0x32, 0x33], 0x34, [0x31, 0x32, 0x33, 0x34]);
    Fed([0x31, 0x32, 0x33, 0x34], 0x35, [0x31, 0x32, 0x33, 0x34, 0x35]);
    Fed([0x31, 0x32, 0x33, 0x34, 0x35], 0x36, [0x31, 0x32, 0x33, 0x34, 0x35, 0x36]);
    Fed([0x31, 0x32, 0x33, 0x34, 0x35, 0x36], 0x37, [0x31, 0x32, 0x33, 0x34, 0x35, 0x36, 0x37]);
    Fed([0x31, 0x32, 0x33, 0x34, 0x35, 0x36, 0x37], 0x38, [0x31, 0x32, 0x33, 0x34, 0x35, 0x36, 0x37, 0x38]);
    Fed([0x31, 0x32, 0x33, 0x34, 0x35, 0x36, 0x37, 0x38], 0x39, [0x31, 0x32, 0x33, 0x34, 0x35, 0x36, 0x37, 0x38, 0x39]);
  }

  lemma FedNone()
    ensures Register(0xFFFF_FFFF, []) == 0xFFFF_FFFF
  {
  }

  /** `CRC::CRC32`: the loop over the buffer computes the bit-by-bit definition. */
  method Crc32(data: seq<bv8>) returns (r: bv32)
    ensures r == Crc(data)
  {
    hide Table, Index, Plus, High;
    var crc: bv32 := 0xFFFF_FFFF;
    for i := 0 to |data|
      invariant crc == Register(0xFFFF_FFFF, data[..i])
    {
      TableStep(crc, data[i]);
      assert data[..i + 1][..i] == data[..i];
      crc := Plus(Table(Index(crc, data[i])), High(crc));
    }
    assert data[..|data|] == data;
    r := Plus(crc, 0xFFFF_FFFF);
  }
}
