// Threefish-256 and the chaining mode UBI, as the Skein submission defines
// them: 72 rounds of two MIX functions and a permutation, and a subkey before
// every fourth round and after the last.

module SkeinSpec {
  type Byte = bv8
  type Word = bv64

  datatype Four = Four(w0: Word, w1: Word, w2: Word, w3: Word)

  function Plus(x: Word, y: Word): Word { x + y }
  function Minus(x: Word, y: Word): Word { x - y }
  function Xor(x: Word, y: Word): Word { x ^ y }

  function Rotl(x: Word, r: nat): Word
    requires 0 < r < 64
  {
    (x << r) | (x >> (64 - r))
  }

  // The number n modulo 2 to the 64, as a word
  function Num(n: nat): Word {
    if n == 0 then 0 else Plus(Num(n - 1), 1)
  }

  // ---------- Threefish-256 ----------

  type Key = k: seq<Word> | |k| == 5 witness [0, 0, 0, 0, 0]
  type Tweak = t: seq<Word> | |t| == 3 witness [0, 0, 0]

  function KeyWords(c: Four): Key {
    [c.w0, c.w1, c.w2, c.w3, Xor(Xor(Xor(Xor(c.w0, c.w1), c.w2), c.w3), 0x5555555555555555)]
  }

  lemma XorCancels(x: Word, p: Word)
    ensures Xor(x, Xor(x, p)) == p
  {
  }

  // The words of the key are those of the chaining value, and a fifth that makes
  // their exclusive or the parity constant.
  lemma KeyParity(c: Four)
    ensures var k := KeyWords(c);
            && k[0] == c.w0 && k[1] == c.w1 && k[2] == c.w2 && k[3] == c.w3
            && Xor(Xor(Xor(Xor(k[0], k[1]), k[2]), k[3]), k[4]) == 0x5555555555555555
  {
    hide Xor;
    XorCancels(Xor(Xor(Xor(c.w0, c.w1), c.w2), c.w3), 0x5555555555555555);
  }

  function TweakWords(t0: Word, t1: Word): Tweak {
    [t0, t1, Xor(t0, t1)]
  }

  function Subkey(k: Key, t: Tweak, s: nat): Four {
    Four(k[s % 5], Plus(k[(s + 1) % 5], t[s % 3]), Plus(k[(s + 2) % 5], t[(s + 1) % 3]), Plus(k[(s + 3) % 5], Num(s)))
  }

  function Inject(v: Four, s: Four): Four {
    Four(Plus(v.w0, s.w0), Plus(v.w1, s.w1), Plus(v.w2, s.w2), Plus(v.w3, s.w3))
  }

  // The rotation constants of round d
  function Rotations(d: nat): (r: (nat, nat))
    ensures 0 < r.0 < 64 && 0 < r.1 < 64
  {
    match d % 8
    case 0 => (5, 56)
    case 1 => (36, 28)
    case 2 => (13, 46)
    case 3 => (58, 44)
    case 4 => (26, 20)
    case 5 => (53, 35)
    case 6 => (11, 42)
    case _ => (59, 50)
  }

  // Two MIX functions, and the permutation that exchanges words 1 and 3
  function MixPermute(v: Four, r0: nat, r1: nat): Four
    requires 0 < r0 < 64 && 0 < r1 < 64
  {
    var f0 := Plus(v.w0, v.w1);
    var f2 := Plus(v.w2, v.w3);
    Four(f0, Xor(Rotl(v.w3, r1), f2), f2, Xor(Rotl(v.w1, r0), f0))
  }

  // What round d starts from
  function Keyed(v: Four, k: Key, t: Tweak, d: nat): Four {
    if d % 4 == 0 then Inject(v, Subkey(k, t, d / 4)) else v
  }

  // After d rounds
  function Rounds(k: Key, t: Tweak, p: Four, d: nat): Four {
    if d == 0 then p
    else MixPermute(Keyed(Rounds(k, t, p, d - 1), k, t, d - 1), Rotations(d - 1).0, Rotations(d - 1).1)
  }

  function Encrypt(k: Key, t: Tweak, p: Four): Four {
    Keyed(Rounds(k, t, p, 72), k, t, 72)
  }

  // ---------- The inverse ----------

  function Uninject(v: Four, s: Four): Four {
    Four(Minus(v.w0, s.w0), Minus(v.w1, s.w1), Minus(v.w2, s.w2), Minus(v.w3, s.w3))
  }

  function UnmixPermute(v: Four, r0: nat, r1: nat): Four
    requires 0 < r0 < 64 && 0 < r1 < 64
  {
    var x1 := Rotl(Xor(v.w3, v.w0), 64 - r0);
    var x3 := Rotl(Xor(v.w1, v.w2), 64 - r1);
    Four(Minus(v.w0, x1), x1, Minus(v.w2, x3), x3)
  }

  function Unkeyed(v: Four, k: Key, t: Tweak, d: nat): Four {
    if d % 4 == 0 then Uninject(v, Subkey(k, t, d / 4)) else v
  }

  function Unrounds(k: Key, t: Tweak, v: Four, d: nat): Four
    decreases d
  {
    if d == 0 then v
    else Unrounds(k, t, Unround(k, t, v, d - 1), d - 1)
  }

  // Undoes round d.
  function Unround(k: Key, t: Tweak, v: Four, d: nat): Four {
    Unkeyed(UnmixPermute(v, Rotations(d).0, Rotations(d).1), k, t, d)
  }

  function Decrypt(k: Key, t: Tweak, v: Four): Four {
    Unrounds(k, t, Unkeyed(v, k, t, 72), 72)
  }

  lemma PlusIs(x: Word, y: Word)
    ensures Plus(x, y) == x + y && Minus(x, y) == x - y
  {
  }

  lemma PlusBack(x: Word, y: Word)
    ensures Minus(x + y, y) == x
    ensures Plus(x - y, y) == x
  {
  }

  lemma PlusMinus(x: Word, y: Word)
    ensures Minus(Plus(x, y), y) == x && Plus(Minus(x, y), y) == x
  {
    hide Plus, Minus;
    PlusIs(x, y);
    PlusBack(x, y);
  }

  lemma XorTwice(x: Word, y: Word)
    ensures Xor(Xor(x, y), y) == x
  {
  }

  // The rotations in use, and the ones that undo them.
  lemma FirstRotations(x: Word)
    ensures Rotl(x, 5) == (x << 5) | (x >> 59)
    ensures Rotl(x, 59) == (x << 59) | (x >> 5)
    ensures Rotl(x, 56) == (x << 56) | (x >> 8)
    ensures Rotl(x, 8) == (x << 8) | (x >> 56)
    ensures Rotl(x, 36) == (x << 36) | (x >> 28)
    ensures Rotl(x, 28) == (x << 28) | (x >> 36)
    ensures Rotl(x, 13) == (x << 13) | (x >> 51)
    ensures Rotl(x, 51) == (x << 51) | (x >> 13)
    ensures Rotl(x, 46) == (x << 46) | (x >> 18)
    ensures Rotl(x, 18) == (x << 18) | (x >> 46)
    ensures Rotl(x, 58) == (x << 58) | (x >> 6)
    ensures Rotl(x, 6) == (x << 6) | (x >> 58)
    ensures Rotl(x, 44) == (x << 44) | (x >> 20)
    ensures Rotl(x, 20) == (x << 20) | (x >> 44)
  {
  }

  lemma FirstUndone(x: Word)
    ensures Rotl((x << 5) | (x >> 59), 59) == x
    ensures Rotl((x << 59) | (x >> 5), 5) == x
    ensures Rotl((x << 56) | (x >> 8), 8) == x
    ensures Rotl((x << 8) | (x >> 56), 56) == x
    ensures Rotl((x << 36) | (x >> 28), 28) == x
    ensures Rotl((x << 28) | (x >> 36), 36) == x
    ensures Rotl((x << 13) | (x >> 51), 51) == x
    ensures Rotl((x << 51) | (x >> 13), 13) == x
    ensures Rotl((x << 46) | (x >> 18), 18) == x
    ensures Rotl((x << 18) | (x >> 46), 46) == x
    ensures Rotl((x << 58) | (x >> 6), 6) == x
    ensures Rotl((x << 6) | (x >> 58), 58) == x
    ensures Rotl((x << 44) | (x >> 20), 20) == x
    ensures Rotl((x << 20) | (x >> 44), 44) == x
  {
  }

  lemma SecondRotations(x: Word)
    ensures Rotl(x, 26) == (x << 26) | (x >> 38)
    ensures Rotl(x, 38) == (x << 38) | (x >> 26)
    ensures Rotl(x, 20) == (x << 20) | (x >> 44)
    ensures Rotl(x, 44) == (x << 44) | (x >> 20)
    ensures Rotl(x, 53) == (x << 53) | (x >> 11)
    ensures Rotl(x, 11) == (x << 11) | (x >> 53)
    ensures Rotl(x, 35) == (x << 35) | (x >> 29)
    ensures Rotl(x, 29) == (x << 29) | (x >> 35)
    ensures Rotl(x, 42) == (x << 42) | (x >> 22)
    ensures Rotl(x, 22) == (x << 22) | (x >> 42)
    ensures Rotl(x, 59) == (x << 59) | (x >> 5)
    ensures Rotl(x, 5) == (x << 5) | (x >> 59)
    ensures Rotl(x, 50) == (x << 50) | (x >> 14)
    ensures Rotl(x, 14) == (x << 14) | (x >> 50)
  {
  }

  lemma SecondUndone(x: Word)
    ensures Rotl((x << 26) | (x >> 38), 38) == x
    ensures Rotl((x << 38) | (x >> 26), 26) == x
    ensures Rotl((x << 20) | (x >> 44), 44) == x
    ensures Rotl((x << 44) | (x >> 20), 20) == x
    ensures Rotl((x << 53) | (x >> 11), 11) == x
    ensures Rotl((x << 11) | (x >> 53), 53) == x
    ensures Rotl((x << 35) | (x >> 29), 29) == x
    ensures Rotl((x << 29) | (x >> 35), 35) == x
    ensures Rotl((x << 42) | (x >> 22), 22) == x
    ensures Rotl((x << 22) | (x >> 42), 42) == x
    ensures Rotl((x << 59) | (x >> 5), 5) == x
    ensures Rotl((x << 5) | (x >> 59), 59) == x
    ensures Rotl((x << 50) | (x >> 14), 14) == x
    ensures Rotl((x << 14) | (x >> 50), 50) == x
  {
  }

  lemma FirstBack(x: Word, d: nat)
    requires d % 8 < 4
    ensures var (r0, r1) := Rotations(d);
            && Rotl(Rotl(x, r0), 64 - r0) == x && Rotl(Rotl(x, 64 - r0), r0) == x
            && Rotl(Rotl(x, r1), 64 - r1) == x && Rotl(Rotl(x, 64 - r1), r1) == x
  {
    hide Rotl;
    FirstRotations(x);
    FirstUndone(x);
  }

  lemma SecondBack(x: Word, d: nat)
    requires d % 8 >= 4
    ensures var (r0, r1) := Rotations(d);
            && Rotl(Rotl(x, r0), 64 - r0) == x && Rotl(Rotl(x, 64 - r0), r0) == x
            && Rotl(Rotl(x, r1), 64 - r1) == x && Rotl(Rotl(x, 64 - r1), r1) == x
  {
    hide Rotl;
    SecondRotations(x);
    SecondUndone(x);
  }

  lemma RotlBack(x: Word, d: nat)
    ensures var (r0, r1) := Rotations(d);
            && Rotl(Rotl(x, r0), 64 - r0) == x && Rotl(Rotl(x, 64 - r0), r0) == x
            && Rotl(Rotl(x, r1), 64 - r1) == x && Rotl(Rotl(x, 64 - r1), r1) == x
  {
    hide Rotl, Rotations;
    if d % 8 < 4 {
      FirstBack(x, d);
    } else {
      SecondBack(x, d);
    }
  }

  lemma InjectInverts(v: Four, s: Four)
    ensures Uninject(Inject(v, s), s) == v && Inject(Uninject(v, s), s) == v
  {
    hide Plus, Minus;
    PlusMinus(v.w0, s.w0);
    PlusMinus(v.w1, s.w1);
    PlusMinus(v.w2, s.w2);
    PlusMinus(v.w3, s.w3);
  }

  lemma KeyedInverts(v: Four, k: Key, t: Tweak, d: nat)
    ensures Unkeyed(Keyed(v, k, t, d), k, t, d) == v && Keyed(Unkeyed(v, k, t, d), k, t, d) == v
  {
    hide Inject, Uninject, Subkey;
    InjectInverts(v, Subkey(k, t, d / 4));
  }

  lemma UnmixUndoes(v: Four, d: nat)
    ensures var (r0, r1) := Rotations(d); UnmixPermute(MixPermute(v, r0, r1), r0, r1) == v
  {
    hide Plus, Minus, Xor, Rotl, Rotations;
    var (r0, r1) := Rotations(d);
    RotlBack(v.w1, d);
    RotlBack(v.w3, d);
    XorTwice(Rotl(v.w1, r0), Plus(v.w0, v.w1));
    XorTwice(Rotl(v.w3, r1), Plus(v.w2, v.w3));
    PlusMinus(v.w0, v.w1);
    PlusMinus(v.w2, v.w3);
  }

  lemma MixInverts(v: Four, d: nat)
    ensures var (r0, r1) := Rotations(d);
            UnmixPermute(MixPermute(v, r0, r1), r0, r1) == v && MixPermute(UnmixPermute(v, r0, r1), r0, r1) == v
  {
    hide Plus, Minus, Xor, Rotl, Rotations;
    UnmixUndoes(v, d);
    var (r0, r1) := Rotations(d);
    PlusMinus(v.w0, Rotl(Xor(v.w3, v.w0), 64 - r0));
    PlusMinus(v.w2, Rotl(Xor(v.w1, v.w2), 64 - r1));
    RotlBack(Xor(v.w3, v.w0), d);
    RotlBack(Xor(v.w1, v.w2), d);
    XorTwice(v.w3, v.w0);
    XorTwice(v.w1, v.w2);
  }

  lemma {:induction false} UnroundsInverts(k: Key, t: Tweak, p: Four, d: nat)
    ensures Unrounds(k, t, Rounds(k, t, p, d), d) == p
    ensures Rounds(k, t, Unrounds(k, t, p, d), d) == p
    decreases d
  {
    hide Keyed, Unkeyed, MixPermute, UnmixPermute, Rotations;
    if d == 0 {
    } else {
      var v := Keyed(Rounds(k, t, p, d - 1), k, t, d - 1);
      MixInverts(v, d - 1);
      KeyedInverts(Rounds(k, t, p, d - 1), k, t, d - 1);
      UnroundsInverts(k, t, p, d - 1);
      var u := UnmixPermute(p, Rotations(d - 1).0, Rotations(d - 1).1);
      MixInverts(p, d - 1);
      KeyedInverts(u, k, t, d - 1);
      UnroundsInverts(k, t, Unkeyed(u, k, t, d - 1), d - 1);
    }
  }

  // For every key and tweak, the 72 rounds are a bijection of the blocks.
  lemma ThreefishIsBijective(k: Key, t: Tweak, p: Four)
    ensures Decrypt(k, t, Encrypt(k, t, p)) == p
    ensures Encrypt(k, t, Decrypt(k, t, p)) == p
  {
    hide Keyed, Unkeyed, Rounds, Unrounds;
    KeyedInverts(Rounds(k, t, p, 72), k, t, 72);
    UnroundsInverts(k, t, p, 72);
    KeyedInverts(p, k, t, 72);
    UnroundsInverts(k, t, Unkeyed(p, k, t, 72), 72);
  }

  // ---------- The chaining mode UBI ----------

  // The block types of a configuration, a message and the output
  datatype BlockType = Cfg | Msg | Out

  function TypeField(ty: BlockType): Word {
    match ty
    case Cfg => 4 << 56
    case Msg => 48 << 56
    case Out => 63 << 56
  }

  const FIRST: Word := 1 << 62
  const FINAL: Word := 1 << 63

  // The second tweak word
  function Flags(ty: BlockType, first: bool, final: bool): Word {
    TypeField(ty) | (if first then FIRST else 0) | (if final then FINAL else 0)
  }

  function Word64(b: seq<Byte>): Word
    requires |b| == 8
  {
    (b[0] as bv64) | ((b[1] as bv64) << 8) | ((b[2] as bv64) << 16) | ((b[3] as bv64) << 24)
      | ((b[4] as bv64) << 32) | ((b[5] as bv64) << 40) | ((b[6] as bv64) << 48) | ((b[7] as bv64) << 56)
  }

  function Bytes64(w: Word): (b: seq<Byte>)
    ensures |b| == 8
  {
    [(w & 0xFF) as bv8, ((w >> 8) & 0xFF) as bv8, ((w >> 16) & 0xFF) as bv8, ((w >> 24) & 0xFF) as bv8,
     ((w >> 32) & 0xFF) as bv8, ((w >> 40) & 0xFF) as bv8, ((w >> 48) & 0xFF) as bv8, ((w >> 56) & 0xFF) as bv8]
  }

  type Block = b: seq<Byte> | |b| == 32 witness seq(32, _ => 0)

  function WordsOf(b: Block): Four {
    Four(Word64(b[..8]), Word64(b[8..16]), Word64(b[16..24]), Word64(b[24..]))
  }

  function BytesOf(f: Four): (b: seq<Byte>)
    ensures |b| == 32
  {
    Bytes64(f.w0) + Bytes64(f.w1) + Bytes64(f.w2) + Bytes64(f.w3)
  }

  function XorFour(x: Four, y: Four): Four {
    Four(Xor(x.w0, y.w0), Xor(x.w1, y.w1), Xor(x.w2, y.w2), Xor(x.w3, y.w3))
  }

  // One block: encryption under the chaining value, with the plaintext fed
  // forward.
  function Compress(g: Four, t0: Word, t1: Word, b: Block): Four {
    XorFour(Encrypt(KeyWords(g), TweakWords(t0, t1), WordsOf(b)), WordsOf(b))
  }

  // The chaining value after the first i blocks of m, none of them the last. The
  // tweak of a block is the number of bytes up to its end.
  function Chain(g: Four, ty: BlockType, m: seq<Byte>, i: nat): Four
    requires 32 * i <= |m|
  {
    if i == 0 then g
    else InnerBlock(Chain(g, ty, m, i - 1), ty, i, m[32 * i - 32..32 * i])
  }

  // Block number i, counted from one, which is not the last
  function InnerBlock(c: Four, ty: BlockType, i: nat, b: Block): Four {
    Compress(c, Num(32 * i), Flags(ty, i == 1, false), b)
  }

  // The blocks of a message of n bytes before the last one; the empty message
  // has one block too.
  function Before(n: nat): (h: nat)
    ensures n == 0 ==> h == 0
    ensures n > 0 ==> 32 * h < n <= 32 * h + 32
  {
    if n == 0 then 0 else (n - 1) / 32
  }

  function Pad(b: seq<Byte>): Block
    requires |b| <= 32
  {
    b + seq(32 - |b|, _ => 0)
  }

  function Ubi(g: Four, ty: BlockType, m: seq<Byte>): Four {
    var h := Before(|m|);
    Compress(Chain(g, ty, m, h), Num(|m|), Flags(ty, h == 0, true), Pad(m[32 * h..]))
  }

  // Block i of the output: the number i, hashed under the result of the message.
  function OutBlock(c: Four, i: nat): (b: seq<Byte>)
    ensures |b| == 32
  {
    BytesOf(Ubi(c, Out, Bytes64(Num(i))))
  }

  function Output(c: Four, n: nat): (b: seq<Byte>)
    ensures |b| == n
  {
    seq(n, j requires 0 <= j < n => OutBlock(c, j / 32)[j % 32])
  }

  // The hash of m in bits bits, from the initial chaining value iv.
  function Digest(iv: Four, m: seq<Byte>, bits: nat): (d: seq<Byte>)
    ensures |d| == (bits + 7) / 8
  {
    Output(Ubi(iv, Msg, m), (bits + 7) / 8)
  }
}
