// SHA-1 as FIPS 180-1 defines it: padding (section 4), the functions and
// constants (section 5 and 6), and the method with an 80-word schedule
// (section 7).

module Sha1Spec {
  type Byte = bv8
  type Word = bv32

  // A 64-byte block, and the five words of a digest.
  type Block = b: seq<Byte> | |b| == 64 witness seq(64, _ => 0)
  datatype Regs = Regs(a: Word, b: Word, c: Word, d: Word, e: Word)

  function Rot1(x: Word): Word { (x << 1) | (x >> 31) }
  function Rot5(x: Word): Word { (x << 5) | (x >> 27) }
  function Rot30(x: Word): Word { (x << 30) | (x >> 2) }

  function F(t: nat, b: Word, c: Word, d: Word): Word {
    if t < 20 then (b & c) | (!b & d)
    else if t < 40 then b ^ c ^ d
    else if t < 60 then (b & c) | (b & d) | (c & d)
    else b ^ c ^ d
  }

  function K(t: nat): Word {
    if t < 20 then 0x5A827999 else if t < 40 then 0x6ED9EBA1 else if t < 60 then 0x8F1BBCDC else 0xCA62C1D6
  }

  function BigEndian(b0: Byte, b1: Byte, b2: Byte, b3: Byte): Word {
    ((b0 as bv32) << 24) | ((b1 as bv32) << 16) | ((b2 as bv32) << 8) | (b3 as bv32)
  }

  function Xor4(p: Word, q: Word, r: Word, s: Word): Word { p ^ q ^ r ^ s }

  // The words W(0), W(1), ... of section 7.
  function Schedule(m: Block, t: nat): Word {
    if t < 16 then BigEndian(m[4 * t], m[4 * t + 1], m[4 * t + 2], m[4 * t + 3])
    else Rot1(Xor4(Schedule(m, t - 3), Schedule(m, t - 8), Schedule(m, t - 14), Schedule(m, t - 16)))
  }

  // TEMP of section 7
  function Temp(r: Regs, t: nat, w: Word): Word {
    Sum(Rot5(r.a), F(t, r.b, r.c, r.d), r.e, w, K(t))
  }

  function Sum(s: Word, f: Word, e: Word, w: Word, k: Word): Word { s + f + e + w + k }

  function Round(r: Regs, t: nat, w: Word): Regs {
    Regs(Temp(r, t, w), r.a, Rot30(r.b), r.c, r.d)
  }

  function Rounds(m: Block, r: Regs, t: nat): Regs {
    if t == 0 then r else Round(Rounds(m, r, t - 1), t - 1, Schedule(m, t - 1))
  }

  function Plus(x: Word, y: Word): Word { x + y }

  function Compress(h: Regs, m: Block): Regs {
    var r := Rounds(m, h, 80);
    Regs(Plus(h.a, r.a), Plus(h.b, r.b), Plus(h.c, r.c), Plus(h.d, r.d), Plus(h.e, r.e))
  }

  const INITIAL := Regs(0x67452301, 0xEFCDAB89, 0x98BADCFE, 0x10325476, 0xC3D2E1F0)

  // The digest after all whole blocks of bs.
  function Fold(bs: seq<Byte>): Regs
    requires |bs| % 64 == 0
  {
    if bs == [] then INITIAL else Compress(Fold(bs[..|bs| - 64]), bs[|bs| - 64..])
  }

  // Byte i of n, counted from the most significant of k bytes.
  function ByteOf(n: nat, k: nat, i: nat): Byte
    requires i < k
  {
    ByteFrom(Octet(n, k - 1 - i))
  }

  function ByteFrom(o: nat): Byte
    requires o < 256
  {
    o as bv8
  }

  // Digit j of n in base 256
  function Octet(n: nat, j: nat): (o: nat)
    ensures o < 256
  {
    n / Pow256(j) % 256
  }

  function Pow256(k: nat): (p: nat)
    ensures p > 0
  {
    if k == 0 then 1 else 256 * Pow256(k - 1)
  }

  // What a sequence of bytes is worth, the most significant one first
  function NatOf(s: seq<Byte>): nat {
    if s == [] then 0 else 256 * NatOf(s[..|s| - 1]) + s[|s| - 1] as nat
  }

  // The 64-bit length of the message in bits.
  function LengthField(n: nat): (f: seq<Byte>)
    ensures |f| == 8
  {
    seq(8, i requires 0 <= i < 8 => ByteOf(8 * n % Pow256(8), 8, i))
  }

  function Zeros(n: nat): nat {
    (119 - n % 64) % 64
  }

  // Section 4: a one bit, the fewest zeros that leave room for the length, and
  // the length.
  function Padded(m: seq<Byte>): (p: seq<Byte>)
    ensures |p| % 64 == 0
  {
    m + [0x80] + seq(Zeros(|m|), _ => 0) + LengthField(|m|)
  }

  // Zeros is the fewest that end the padding on a block boundary.
  lemma FewestZeros(n: nat, k: nat)
    ensures (n + 1 + Zeros(n) + 8) % 64 == 0
    ensures (n + 1 + k + 8) % 64 == 0 ==> k >= Zeros(n)
  {
  }

  function WordBytes(w: Word): (b: seq<Byte>)
    ensures |b| == 4
  {
    [((w >> 24) & 0xFF) as bv8, ((w >> 16) & 0xFF) as bv8, ((w >> 8) & 0xFF) as bv8, (w & 0xFF) as bv8]
  }

  function Digest(m: seq<Byte>): (d: seq<Byte>)
    ensures |d| == 20
  {
    var r := Fold(Padded(m));
    WordBytes(r.a) + WordBytes(r.b) + WordBytes(r.c) + WordBytes(r.d) + WordBytes(r.e)
  }
}
