/** Machine integers, bytes and the big-endian fixed-width integer encoding. */
module Bytes {

  /** An octet, Rust's `u8`. */
  newtype byte = x: int | 0 <= x < 0x100

  newtype u16 = x: int | 0 <= x < 0x1_0000
  newtype u32 = x: int | 0 <= x < 0x1_0000_0000
  newtype u64 = x: int | 0 <= x < 0x1_0000_0000_0000_0000

  /** Size in bytes of one AES block, and of an AES-128 key. */
  const BlockSize: nat := 16

  /** Exactly sixteen bytes: an AES block, an AES-128 key or an IV. */
  type Block = s: seq<byte> | |s| == BlockSize
    witness [0, 0, 0, 0, 0, 0, 0, 0, 0, 0, 0, 0, 0, 0, 0, 0]

  /** 2 to the power k. */
  function Pow2(k: nat): (p: nat)
    ensures p >= 1
  {
    if k == 0 then 1 else 2 * Pow2(k - 1)
  }

  /** Bitwise exclusive or of the low k bits of a and b, bit by bit from the least significant. */
  function XorBits(a: nat, b: nat, k: nat): (r: nat)
    ensures r < Pow2(k)
  {
    if k == 0 then 0 else (a % 2 + b % 2) % 2 + 2 * XorBits(a / 2, b / 2, k - 1)
  }

  /** Exclusive or with the same mask twice restores the value. */
  lemma {:induction false} XorBitsCancel(a: nat, b: nat, k: nat)
    requires a < Pow2(k)
    ensures XorBits(XorBits(a, b, k), b, k) == a
  {
    if k > 0 {
      var lo := (a % 2 + b % 2) % 2;
      var hi := XorBits(a / 2, b / 2, k - 1);
      var c := XorBits(a, b, k);
      BitSplit(lo, hi);
      assert a / 2 < Pow2(k - 1);
      XorBitsCancel(a / 2, b / 2, k - 1);
      BitFlipTwice(a % 2, b % 2);
    }
  }

  lemma BitSplit(lo: nat, hi: nat)
    requires lo < 2
    ensures (lo + 2 * hi) % 2 == lo && (lo + 2 * hi) / 2 == hi
  {
  }

  lemma BitFlipTwice(x: nat, y: nat)
    requires x < 2 && y < 2
    ensures ((x + y) % 2 + y) % 2 == x
  {
  }

  /** Bitwise exclusive or of two bytes (Rust's `^` on `u8`). */
  function XorByte(a: byte, b: byte): byte {
    assert Pow2(8) == 0x100;
    XorBits(a as nat, b as nat, 8) as byte
  }

  lemma XorByteCancel(a: byte, b: byte)
    ensures XorByte(XorByte(a, b), b) == a
  {
    assert Pow2(8) == 0x100;
    XorBitsCancel(a as nat, b as nat, 8);
  }

  /** Byte-wise exclusive or of two blocks. */
  function XorBlock(a: Block, b: Block): (r: Block)
    ensures forall i :: 0 <= i < BlockSize ==> r[i] == XorByte(a[i], b[i])
  {
    seq(BlockSize, i requires 0 <= i < BlockSize => XorByte(a[i], b[i]))
  }

  /** Masking a block twice with the same block restores it. */
  lemma XorBlockCancel(a: Block, b: Block)
    ensures XorBlock(XorBlock(a, b), b) == a
  {
    forall i | 0 <= i < BlockSize
      ensures XorBlock(XorBlock(a, b), b)[i] == a[i]
    {
      XorByteCancel(a[i], b[i]);
    }
  }

  /** 256 to the power n: the number of values n bytes can hold. */
  function Pow256(n: nat): (p: nat)
    ensures p >= 1
  {
    if n == 0 then 1 else 256 * Pow256(n - 1)
  }

  /** The n-byte big-endian encoding of x (most significant byte first). */
  function ToBigEndian(x: nat, n: nat): (r: seq<byte>)
    requires x < Pow256(n)
    ensures |r| == n
  {
    if n == 0 then []
    else ToBigEndian(x / 256, n - 1) + [(x % 256) as byte]
  }

  /** The number whose big-endian encoding is s. */
  function FromBigEndian(s: seq<byte>): (x: nat)
    ensures x < Pow256(|s|)
  {
    if |s| == 0 then 0
    else
      var hi := FromBigEndian(s[..|s| - 1]);
      assert hi * 256 + 255 < 256 * Pow256(|s| - 1) by {
        assert hi <= Pow256(|s| - 1) - 1;
      }
      hi * 256 + s[|s| - 1] as nat
  }

  /** Decoding an encoding gives back the number. */
  lemma {:induction false} FromToBigEndian(x: nat, n: nat)
    requires x < Pow256(n)
    ensures FromBigEndian(ToBigEndian(x, n)) == x
  {
    if n > 0 {
      var hi := x / 256;
      var s := ToBigEndian(x, n);
      assert s == ToBigEndian(hi, n - 1) + [(x % 256) as byte];
      assert s[..n - 1] == ToBigEndian(hi, n - 1);
      FromToBigEndian(hi, n - 1);
      assert FromBigEndian(s[..n - 1]) == hi;
      assert FromBigEndian(s) == hi * 256 + x % 256;
    }
  }

  /** Encoding a decoded byte string gives back the bytes. */
  lemma {:induction false} ToFromBigEndian(s: seq<byte>)
    ensures ToBigEndian(FromBigEndian(s), |s|) == s
  {
    if |s| > 0 {
      var x := FromBigEndian(s);
      var hi := FromBigEndian(s[..|s| - 1]);
      assert x / 256 == hi && x % 256 == s[|s| - 1] as nat;
      ToFromBigEndian(s[..|s| - 1]);
      assert s == s[..|s| - 1] + [s[|s| - 1]];
    }
  }

  /** The big-endian encoding places byte i at weight 256^(n-1-i). */
  lemma {:induction false} BigEndianDigits(x: nat, n: nat, i: nat)
    requires x < Pow256(n)
    requires i < n
    ensures ToBigEndian(x, n)[i] as nat == (x / Pow256(n - 1 - i)) % 256
  {
    if i < n - 1 {
      BigEndianDigits(x / 256, n - 1, i);
      DivDiv(x, n - 2 - i);
    }
  }

  /** Dividing by 256 and then by 256^k is dividing by 256^(k+1). */
  lemma DivDiv(x: nat, k: nat)
    ensures x / 256 / Pow256(k) == x / Pow256(k + 1)
  {
    var p := Pow256(k);
    var q := x / 256 / p;
    var r1 := x % 256;
    var r2 := (x / 256) % p;
    assert x / 256 == q * p + r2;
    assert x == (q * p + r2) * 256 + r1;
    assert x == q * (256 * p) + (r2 * 256 + r1);
    assert 0 <= r2 * 256 + r1 < 256 * p;
    DivUnique(x, 256 * p, q, r2 * 256 + r1);
  }

  lemma DivUnique(x: nat, d: nat, q: nat, r: nat)
    requires d > 0 && x == q * d + r && r < d
    ensures x / d == q
  {
    var q', r' := x / d, x % d;
    assert x == q' * d + r';
    if q' < q {
      assert (q - q') * d == r' - r;
      MulAtLeast(q - q', d);
    } else if q' > q {
      assert (q' - q) * d == r - r';
      MulAtLeast(q' - q, d);
    }
  }

  lemma MulAtLeast(a: int, d: int)
    requires a >= 1 && d >= 0
    ensures a * d >= d
  {
  }
}
