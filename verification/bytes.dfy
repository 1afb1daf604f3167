/** Bytes and the big-endian integers that every on-disk field is written as. */
module Bytes {
  type U16 = n: nat | n < 0x1_0000
  type U32 = n: nat | n < 0x1_0000_0000
  type U64 = n: nat | n < 0x1_0000_0000_0000_0000
  type I64 = n: int | -0x8000_0000_0000_0000 <= n < 0x8000_0000_0000_0000

  function Pow256(width: nat): nat {
    if width == 0 then 1 else 256 * Pow256(width - 1)
  }

  /** The `width` bytes of `n`, most significant first. */
  function BigEndian(n: nat, width: nat): (bytes: seq<bv8>)
    requires n < Pow256(width)
    ensures |bytes| == width
  {
    if width == 0 then [] else BigEndian(n / 256, width - 1) + [(n % 256) as bv8]
  }

  function FromBigEndian(bytes: seq<bv8>): (n: nat)
    ensures n < Pow256(|bytes|)
  {
    if bytes == [] then 0
    else FromBigEndian(bytes[..|bytes| - 1]) * 256 + bytes[|bytes| - 1] as nat
  }

  lemma WidthBounds()
    ensures Pow256(2) == 0x1_0000
    ensures Pow256(4) == 0x1_0000_0000
    ensures Pow256(8) == 0x1_0000_0000_0000_0000
  {
    assert Pow256(1) == 256;
    assert Pow256(3) == 256 * Pow256(2);
    assert Pow256(5) == 256 * Pow256(4);
    assert Pow256(6) == 256 * Pow256(5);
    assert Pow256(7) == 256 * Pow256(6);
  }

  /** The byte that stands for `n`, found by counting. */
  ghost function CountTo(n: nat): (b: bv8)
    requires n < 256
    ensures b as nat == n
  {
    if n == 0 then 0 else CountTo(n - 1) + 1
  }

  lemma ByteOfNat(n: nat)
    requires n < 256
    ensures (n as bv8) as nat == n
  {
    var b := CountTo(n);
    hide CountTo;
    ThereAndBack(b);
    assert n == b as nat;
  }

  lemma ThereAndBack(b: bv8)
    ensures (b as nat) as bv8 == b
  {
  }

  lemma {:induction false} DecodeEncode(n: nat, width: nat)
    requires n < Pow256(width)
    ensures FromBigEndian(BigEndian(n, width)) == n
  {
    if width != 0 {
      DecodeEncode(n / 256, width - 1);
      ByteOfNat(n % 256);
      var bytes := BigEndian(n, width);
      assert bytes[..|bytes| - 1] == BigEndian(n / 256, width - 1);
    }
  }

  lemma {:induction false} EncodeDecode(bytes: seq<bv8>)
    ensures BigEndian(FromBigEndian(bytes), |bytes|) == bytes
  {
    if bytes != [] {
      var init, last := bytes[..|bytes| - 1], bytes[|bytes| - 1];
      EncodeDecode(init);
      var n := FromBigEndian(bytes);
      assert n / 256 == FromBigEndian(init) && n % 256 == last as nat;
      assert bytes == init + [last];
    }
  }

  /** Byte `k` from the end is the digit of weight `256^k`. */
  lemma {:induction false} BigEndianDigits(n: nat, width: nat, k: nat)
    requires n < Pow256(width) && k < width
    ensures Pow256(k) > 0 && BigEndian(n, width)[width - 1 - k] as nat == n / Pow256(k) % 256
    decreases width
  {
    Pow256Positive(k);
    if k == 0 {
      ByteOfNat(n % 256);
    } else {
      BigEndianDigits(n / 256, width - 1, k - 1);
      DivideTwice(n, Pow256(k - 1));
    }
  }

  lemma Pow256Positive(k: nat)
    ensures Pow256(k) > 0
  {
  }

  lemma DivideTwice(n: nat, d: nat)
    requires d > 0
    ensures n / (256 * d) == n / 256 / d
  {
    var q := n / 256 / d;
    var r := n / 256 - q * d;
    assert n / 256 == q * d + r && 0 <= r < d;
    assert n == 256 * (n / 256) + n % 256;
    assert n == q * (256 * d) + (256 * r + n % 256);
    UniqueQuotient(n, 256 * d, q, 256 * r + n % 256);
  }

  lemma UniqueQuotient(n: nat, d: nat, q: nat, r: nat)
    requires n == q * d + r && r < d
    ensures n / d == q
  {
    var q', r' := n / d, n % d;
    assert q' * d + r' == q * d + r;
    if q < q' {
      NextMultiple(q, q', d);
    } else if q' < q {
      NextMultiple(q', q, d);
    }
  }

  lemma NextMultiple(a: nat, b: nat, d: nat)
    requires a < b
    ensures a * d + d <= b * d
  {
    assert b * d == a * d + d + (b - a - 1) * d;
  }

  /** The three widths the block formats use. */
  function Be16(n: U16): (bytes: seq<bv8>)
    ensures |bytes| == 2 && FromBigEndian(bytes) == n
  {
    WidthBounds();
    DecodeEncode(n, 2);
    BigEndian(n, 2)
  }

  function Be32(n: U32): (bytes: seq<bv8>)
    ensures |bytes| == 4 && FromBigEndian(bytes) == n
  {
    WidthBounds();
    DecodeEncode(n, 4);
    BigEndian(n, 4)
  }

  function Be64(n: U64): (bytes: seq<bv8>)
    ensures |bytes| == 8 && FromBigEndian(bytes) == n
  {
    WidthBounds();
    DecodeEncode(n, 8);
    BigEndian(n, 8)
  }

  function Get16(bytes: seq<bv8>): (n: U16)
    requires |bytes| == 2
    ensures Be16(n) == bytes
  {
    WidthBounds();
    EncodeDecode(bytes);
    FromBigEndian(bytes)
  }

  function Get32(bytes: seq<bv8>): (n: U32)
    requires |bytes| == 4
    ensures Be32(n) == bytes
  {
    WidthBounds();
    EncodeDecode(bytes);
    FromBigEndian(bytes)
  }

  function Get64(bytes: seq<bv8>): (n: U64)
    requires |bytes| == 8
    ensures Be64(n) == bytes
  {
    WidthBounds();
    EncodeDecode(bytes);
    FromBigEndian(bytes)
  }

  /** Two's complement, as `hton` sees an `int64_t`. */
  function Unsigned(n: I64): U64 {
    if n < 0 then n + 0x1_0000_0000_0000_0000 else n
  }

  function Signed(n: U64): (i: I64)
    ensures Unsigned(i) == n
  {
    if n < 0x8000_0000_0000_0000 then n else n - 0x1_0000_0000_0000_0000
  }

  lemma SubSlice(data: seq<bv8>, p: nat, n: nat, i: nat, j: nat)
    requires p + n <= |data| && i <= j <= n
    ensures data[p..p + n][i..j] == data[p + i..p + j]
  {
    var slice := data[p..p + n];
    assert forall k | 0 <= k < j - i :: slice[i..j][k] == slice[i + k] == data[p + i + k];
  }

  function Zeros(n: nat): (bytes: seq<bv8>)
    ensures |bytes| == n
  {
    seq(n, i => 0)
  }

  /** Exclusive or, named so that proofs treat it as one symbol. */
  function PlusByte(a: bv8, b: bv8): bv8 {
    a ^ b
  }

  /** Byte-by-byte exclusive or: what a corruption does to a message. */
  function Xor(a: seq<bv8>, b: seq<bv8>): (x: seq<bv8>)
    requires |a| == |b|
    ensures |x| == |a|
  {
    seq(|a|, i requires 0 <= i < |a| => PlusByte(a[i], b[i]))
  }
}
