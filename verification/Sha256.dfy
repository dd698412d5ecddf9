/** SHA-256: the loop over message blocks against the definition of FIPS 180-4. */
module Sha256 {
  import opened Basics
  import opened Sha256Words

  const K: seq<bv32> :=
    [0x428a2f98, 0x71374491, 0xb5c0fbcf, 0xe9b5dba5, 0x3956c25b, 0x59f111f1, 0x923f82a4, 0xab1c5ed5] +
    [0xd807aa98, 0x12835b01, 0x243185be, 0x550c7dc3, 0x72be5d74, 0x80deb1fe, 0x9bdc06a7, 0xc19bf174] +
    [0xe49b69c1, 0xefbe4786, 0x0fc19dc6, 0x240ca1cc, 0x2de92c6f, 0x4a7484aa, 0x5cb0a9dc, 0x76f988da] +
    [0x983e5152, 0xa831c66d, 0xb00327c8, 0xbf597fc7, 0xc6e00bf3, 0xd5a79147, 0x06ca6351, 0x14292967] +
    [0x27b70a85, 0x2e1b2138, 0x4d2c6dfc, 0x53380d13, 0x650a7354, 0x766a0abb, 0x81c2c92e, 0x92722c85] +
    [0xa2bfe8a1, 0xa81a664b, 0xc24b8b70, 0xc76c51a3, 0xd192e819, 0xd6990624, 0xf40e3585, 0x106aa070] +
    [0x19a4c116, 0x1e376c08, 0x2748774c, 0x34b0bcb5, 0x391c0cb3, 0x4ed8aa4a, 0x5b9cca4f, 0x682e6ff3] +
    [0x748f82ee, 0x78a5636f, 0x84c87814, 0x8cc70208, 0x90befffa, 0xa4506ceb, 0xbef9a3f7, 0xc67178f2]

  /** Four bytes, the first one high. */
  function WordOf(a: Byte, b: Byte, c: Byte, d: Byte): bv32 {
    ((a as bv32) << 24) | ((b as bv32) << 16) | ((c as bv32) << 8) | (d as bv32)
  }

  // ---------------------------------------------------------------- padding (section 5.1.1)

  /** The least number of zero bytes that brings l + 1 bytes to 56 modulo 64. */
  function ZeroCount(l: nat): (k: nat)
    ensures k < 64 && (l + 1 + k) % 64 == 56 && (l + 1 + k + 8) % 64 == 0
  {
    (119 - l % 64) % 64
  }

  function Zeros(k: nat): (z: seq<Byte>)
    ensures |z| == k && forall i :: 0 <= i < k ==> z[i] == 0
  {
    seq(k, _ => 0)
  }

  function Power(i: nat): (p: nat)
    ensures p > 0
  {
    if i == 0 then 1 else 256 * Power(i - 1)
  }

  /** Byte i of a 64-bit number, byte 0 being the low one. */
  function ByteOf(bits: nat, i: nat): Byte {
    bits / Power(i) % 256
  }

  function BigEndian(bits: nat, count: nat): (s: seq<Byte>)
    ensures |s| == count
  {
    seq(count, j requires 0 <= j < count => ByteOf(bits, count - 1 - j))
  }

  /** The length field holds the number of bits modulo 2^64. */
  function Pad(m: seq<Byte>): (p: seq<Byte>)
    ensures |p| == |m| + 1 + ZeroCount(|m|) + 8 && |p| % 64 == 0
  {
    m + [0x80] + Zeros(ZeroCount(|m|)) + BigEndian(8 * |m| % 0x1_0000_0000_0000_0000, 8)
  }

  // ---------------------------------------------------------------- compression (section 6.2.2)

  datatype Hash = Hash(a: bv32, b: bv32, c: bv32, d: bv32, e: bv32, f: bv32, g: bv32, h: bv32)

  const INITIAL: Hash := Hash(0x6a09e667, 0xbb67ae85, 0x3c6ef372, 0xa54ff53a, 0x510e527f, 0x9b05688c, 0x1f83d9ab,
    0x5be0cd19)

  /** Word t of the message schedule. */
  function W(block: seq<Byte>, t: nat): bv32
    requires |block| == 64
    decreases t
  {
    if t < 16 then WordOf(block[4 * t], block[4 * t + 1], block[4 * t + 2], block[4 * t + 3])
    else AddFour(SmallSigma1(W(block, t - 2)), W(block, t - 7), SmallSigma0(W(block, t - 15)), W(block, t - 16))
  }

  function Round(v: Hash, k: bv32, w: bv32): Hash {
    var t1 := Add(Add(Add(Add(v.h, BigSigma1(v.e)), Ch(v.e, v.f, v.g)), k), w);
    var t2 := Add(BigSigma0(v.a), Maj(v.a, v.b, v.c));
    Hash(Add(t1, t2), v.a, v.b, v.c, Add(v.d, t1), v.e, v.f, v.g)
  }

  function Rounds(v: Hash, block: seq<Byte>, t: nat): Hash
    requires |block| == 64 && t <= 64
  {
    if t == 0 then v else Round(Rounds(v, block, t - 1), K[t - 1], W(block, t - 1))
  }

  function Sum(x: Hash, y: Hash): Hash {
    Hash(Add(x.a, y.a), Add(x.b, y.b), Add(x.c, y.c), Add(x.d, y.d), Add(x.e, y.e), Add(x.f, y.f), Add(x.g, y.g),
      Add(x.h, y.h))
  }

  function Compress(v: Hash, block: seq<Byte>): Hash
    requires |block| == 64
  {
    Sum(v, Rounds(v, block, 64))
  }

  /** The hash after the first `count` blocks. */
  function Blocks(m: seq<Byte>, count: nat): Hash
    requires 64 * count <= |m|
  {
    if count == 0 then INITIAL else Compress(Blocks(m, count - 1), m[64 * (count - 1)..64 * count])
  }

  function Digest(data: seq<Byte>): Hash {
    Blocks(Pad(data), |Pad(data)| / 64)
  }

  // ---------------------------------------------------------------- text

  /** The digit of the low four bits. */
  function Digit(n: bv32): char {
    "0123456789abcdef"[(n & 0xF) as nat]
  }

  function Hex(w: bv32): (s: string)
    ensures |s| == 8
  {
    [Digit(w >> 28), Digit(w >> 24), Digit(w >> 20), Digit(w >> 16), Digit(w >> 12), Digit(w >> 8), Digit(w >> 4),
      Digit(w)]
  }

  function HexHash(v: Hash): (s: string)
    ensures |s| == 64
  {
    Hex(v.a) + Hex(v.b) + Hex(v.c) + Hex(v.d) + Hex(v.e) + Hex(v.f) + Hex(v.g) + Hex(v.h)
  }

  // ---------------------------------------------------------------- the program

  /** The hash of the data in lower-case hexadecimal digits. */
  method Sha256Hex(data: seq<Byte>) returns (text: string)
    ensures text == HexHash(Digest(data))
  {
    hide Round, Compress, WordOf, Add, HexHash, Pad, W;
    var m := PadMessage(data);
    var h := INITIAL;
    var off := 0;
    while off < |m|
      invariant off % 64 == 0 && off <= |m| && h == Blocks(m, off / 64)
    {
      var w := Expand(m, off);
      h := CompressBlock(h, m, off, w);
      assert 64 * (off / 64 + 1) == off + 64;
      off := off + 64;
    }
    text := HexHash(h);
  }

  method PadMessage(data: seq<Byte>) returns (m: seq<Byte>)
    ensures m == Pad(data)
  {
    var bits := 8 * |data| % 0x1_0000_0000_0000_0000;
    m := AppendZeros(data + [0x80]);
    m := AppendLength(m, bits);
  }

  method AppendZeros(start: seq<Byte>) returns (m: seq<Byte>)
    requires start != []
    ensures m == start + Zeros(ZeroCount(|start| - 1))
  {
    m := start;
    ghost var k := 0;
    while |m| % 64 != 56
      invariant k <= ZeroCount(|start| - 1) && m == start + Zeros(k)
      decreases ZeroCount(|start| - 1) - k
    {
      m := m + [0];
      k := k + 1;
    }
    assert k == ZeroCount(|start| - 1);
  }

  method AppendLength(start: seq<Byte>, bits: nat) returns (m: seq<Byte>)
    ensures m == start + BigEndian(bits, 8)
  {
    hide ByteOf;
    m := start;
    var i := 7;
    while i >= 0
      invariant -1 <= i <= 7 && m == start + BigEndian(bits, 8)[..7 - i]
      decreases i
    {
      m := m + [ByteOf(bits, i)];
      i := i - 1;
    }
    assert BigEndian(bits, 8)[..8] == BigEndian(bits, 8);
  }

  /** The 64 words of the message schedule of the block at `off`. */
  method Expand(m: seq<Byte>, off: nat) returns (w: array<bv32>)
    requires off + 64 <= |m|
    ensures w.Length == 64 && forall t :: 0 <= t < 64 ==> w[t] == W(m[off..off + 64], t)
  {
    hide WordOf, AddFour, SmallSigma0, SmallSigma1;
    ghost var block := m[off..off + 64];
    w := new bv32[64];
    var i := 0;
    while i < 16
      invariant 0 <= i <= 16 && forall t :: 0 <= t < i ==> w[t] == W(block, t)
    {
      assert block[4 * i] == m[off + 4 * i] && block[4 * i + 1] == m[off + 4 * i + 1];
      assert block[4 * i + 2] == m[off + 4 * i + 2] && block[4 * i + 3] == m[off + 4 * i + 3];
      w[i] := WordOf(m[off + 4 * i], m[off + 4 * i + 1], m[off + 4 * i + 2], m[off + 4 * i + 3]);
      i := i + 1;
    }
    while i < 64
      invariant 16 <= i <= 64 && forall t :: 0 <= t < i ==> w[t] == W(block, t)
    {
      var s0 := SmallSigma0(w[i - 15]);
      var s1 := SmallSigma1(w[i - 2]);
      AddFourBackwards(w[i - 16], s0, w[i - 7], s1);
      w[i] := AddFour(w[i - 16], s0, w[i - 7], s1);
      i := i + 1;
    }
  }

  method CompressBlock(h: Hash, ghost m: seq<Byte>, ghost off: nat, w: array<bv32>) returns (r: Hash)
    requires off + 64 <= |m| && w.Length == 64
    requires forall t :: 0 <= t < 64 ==> w[t] == W(m[off..off + 64], t)
    ensures r == Compress(h, m[off..off + 64])
  {
    hide WordOf, Add, BigSigma0, BigSigma1, Ch, Maj, W;
    ghost var block := m[off..off + 64];
    var a, b, c, d, e, f, g, hh := h.a, h.b, h.c, h.d, h.e, h.f, h.g, h.h;
    var i := 0;
    while i < 64
      invariant 0 <= i <= 64 && Hash(a, b, c, d, e, f, g, hh) == Rounds(h, block, i)
    {
      var t1 := Add(Add(Add(Add(hh, BigSigma1(e)), Ch(e, f, g)), K[i]), w[i]);
      var t2 := Add(BigSigma0(a), Maj(a, b, c));
      hh := g;
      g := f;
      f := e;
      e := Add(d, t1);
      d := c;
      c := b;
      b := a;
      a := Add(t1, t2);
      i := i + 1;
    }
    r := Hash(Add(h.a, a), Add(h.b, b), Add(h.c, c), Add(h.d, d), Add(h.e, e), Add(h.f, f), Add(h.g, g), Add(h.h, hh));
  }

  // ---------------------------------------------------------------- padding loses nothing

  lemma ByteAbove(x: nat, i: nat)
    ensures ByteOf(x, i + 1) == ByteOf(x / 256, i)
  {
    DivideTwice(x, 256, Power(i));
  }

  lemma DivideTwice(x: nat, a: nat, b: nat)
    requires a > 0 && b > 0
    ensures a * b > 0 && x / (a * b) == x / a / b
  {
    var q, r, t := x / a / b, x / a % b, x % a;
    SmallRemainder(a, b, r, t);
    TwoDivisions(x, a, b);
    QuotientIs(x, a * b, q, a * r + t);
  }

  lemma TwoDivisions(x: nat, a: nat, b: nat)
    requires a > 0 && b > 0
    ensures x == (a * b) * (x / a / b) + (a * (x / a % b) + x % a)
  {
    DivMod(x, a);
    DivMod(x / a, b);
    Distribute(a, b, x / a / b, x / a % b);
  }

  lemma DivMod(x: nat, d: nat)
    requires d > 0
    ensures x == d * (x / d) + x % d
  {
  }

  lemma Distribute(a: nat, b: nat, q: nat, r: nat)
    ensures a * (b * q + r) == (a * b) * q + a * r
  {
  }

  lemma SmallRemainder(a: nat, b: nat, r: nat, t: nat)
    requires r < b && t < a
    ensures 0 < a * b && 0 <= a * r + t < a * b
  {
    var d := b - 1 - r;
    assert a * b == a * r + a * d + a;
    assert a * d >= 0;
  }

  lemma QuotientIs(x: nat, d: nat, q: nat, r: nat)
    requires x == d * q + r && r < d
    ensures x / d == q
  {
    var p := x / d - q;
    assert d * p == r - x % d by { assert x == d * (x / d) + x % d; assert d * (x / d) == d * p + d * q; }
    assert p > 0 ==> d * p >= d;
    assert p < 0 ==> d * p + d <= 0;
  }

  lemma {:induction false} BytesDecide(x: nat, y: nat, n: nat)
    requires x < Power(n) && y < Power(n) && forall i :: 0 <= i < n ==> ByteOf(x, i) == ByteOf(y, i)
    ensures x == y
    decreases n
  {
    hide ByteOf;
    if n > 0 {
      forall i | 0 <= i < n - 1 ensures ByteOf(x / 256, i) == ByteOf(y / 256, i) {
        ByteAbove(x, i);
        ByteAbove(y, i);
        assert ByteOf(x, i + 1) == ByteOf(y, i + 1);
      }
      BytesDecide(x / 256, y / 256, n - 1);
      LowByteOf(x);
      LowByteOf(y);
      assert ByteOf(x, 0) == ByteOf(y, 0);
    }
  }

  lemma LowByteOf(x: nat)
    ensures ByteOf(x, 0) == x % 256
  {
  }

  lemma PowerEight()
    ensures Power(8) == 0x1_0000_0000_0000_0000
  {
    assert Power(4) == 0x1_0000_0000;
  }

  /** The last eight bytes of a padding are the number of bits. */
  lemma LengthField(m: seq<Byte>)
    requires |m| < 0x2000_0000_0000_0000
    ensures Pad(m)[|Pad(m)| - 8..] == BigEndian(8 * |m|, 8) && Pad(m)[..|m|] == m
  {
  }

  lemma FieldBytes(x: nat, y: nat, i: nat)
    requires i < 8 && BigEndian(x, 8) == BigEndian(y, 8)
    ensures ByteOf(x, i) == ByteOf(y, i)
  {
    hide ByteOf;
    assert BigEndian(x, 8)[7 - i] == BigEndian(y, 8)[7 - i];
  }

  /** Messages below 2^61 bytes with the same padding are the same. */
  lemma PadInjective(a: seq<Byte>, b: seq<Byte>)
    requires |a| < 0x2000_0000_0000_0000 && |b| < 0x2000_0000_0000_0000 && Pad(a) == Pad(b)
    ensures a == b
  {
    hide ByteOf, Power, Pad, BigEndian;
    LengthField(a);
    LengthField(b);
    forall i | 0 <= i < 8 ensures ByteOf(8 * |a|, i) == ByteOf(8 * |b|, i) {
      FieldBytes(8 * |a|, 8 * |b|, i);
    }
    PowerEight();
    BytesDecide(8 * |a|, 8 * |b|, 8);
  }
}
