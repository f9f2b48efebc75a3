// A known digest, the first example of appendix A of FIPS 180-1: the message abc.
// The rounds are written in the operators of the machine, with their rotations
// and constants, and then worked out.

module Sha1Known {
  import opened Sha1Spec
  import Sha1

  // ---------- The rounds in the operators of the machine ----------

  function Round0(a: Word, b: Word, c: Word, d: Word, e: Word, w: Word): Regs {
    Regs(((a << 5) | (a >> 27)) + ((b & c) | (!b & d)) + e + w + 0x5A827999, a, (b << 30) | (b >> 2), c, d)
  }

  function Round1(a: Word, b: Word, c: Word, d: Word, e: Word, w: Word): Regs {
    Regs(((a << 5) | (a >> 27)) + (b ^ c ^ d) + e + w + 0x6ED9EBA1, a, (b << 30) | (b >> 2), c, d)
  }

  function Round2(a: Word, b: Word, c: Word, d: Word, e: Word, w: Word): Regs {
    Regs(((a << 5) | (a >> 27)) + ((b & c) | (b & d) | (c & d)) + e + w + 0x8F1BBCDC, a, (b << 30) | (b >> 2), c, d)
  }

  function Round3(a: Word, b: Word, c: Word, d: Word, e: Word, w: Word): Regs {
    Regs(((a << 5) | (a >> 27)) + (b ^ c ^ d) + e + w + 0xCA62C1D6, a, (b << 30) | (b >> 2), c, d)
  }

  lemma Round0Raw(a: bv32, b: bv32, c: bv32, d: bv32, e: bv32, w: bv32)
    ensures Sum(((a << 5) | (a >> 27)), ((b & c) | (!b & d)), e, w, 0x5A827999)
         == ((a << 5) | (a >> 27)) + ((b & c) | (!b & d)) + e + w + 0x5A827999
    ensures Rot5(a) == (a << 5) | (a >> 27) && Rot30(b) == (b << 30) | (b >> 2)
  {
  }

  lemma F0Raw(t: nat, b: bv32, c: bv32, d: bv32)
    requires 0 <= t < 20
    ensures F(t, b, c, d) == ((b & c) | (!b & d)) && K(t) == 0x5A827999
  {
  }

  lemma Round0Is(t: nat, a: bv32, b: bv32, c: bv32, d: bv32, e: bv32, w: bv32)
    requires 0 <= t < 20
    ensures Round(Regs(a, b, c, d, e), t, w) == Round0(a, b, c, d, e, w)
  {
    hide Sum, Rot5, Rot30, F, K;
    F0Raw(t, b, c, d);
    Round0Raw(a, b, c, d, e, w);
  }

  lemma Round1Raw(a: bv32, b: bv32, c: bv32, d: bv32, e: bv32, w: bv32)
    ensures Sum(((a << 5) | (a >> 27)), (b ^ c ^ d), e, w, 0x6ED9EBA1)
         == ((a << 5) | (a >> 27)) + (b ^ c ^ d) + e + w + 0x6ED9EBA1
    ensures Rot5(a) == (a << 5) | (a >> 27) && Rot30(b) == (b << 30) | (b >> 2)
  {
  }

  lemma F1Raw(t: nat, b: bv32, c: bv32, d: bv32)
    requires 20 <= t < 40
    ensures F(t, b, c, d) == (b ^ c ^ d) && K(t) == 0x6ED9EBA1
  {
  }

  lemma Round1Is(t: nat, a: bv32, b: bv32, c: bv32, d: bv32, e: bv32, w: bv32)
    requires 20 <= t < 40
    ensures Round(Regs(a, b, c, d, e), t, w) == Round1(a, b, c, d, e, w)
  {
    hide Sum, Rot5, Rot30, F, K;
    F1Raw(t, b, c, d);
    Round1Raw(a, b, c, d, e, w);
  }

  lemma Round2Raw(a: bv32, b: bv32, c: bv32, d: bv32, e: bv32, w: bv32)
    ensures Sum(((a << 5) | (a >> 27)), ((b & c) | (b & d) | (c & d)), e, w, 0x8F1BBCDC)
         == ((a << 5) | (a >> 27)) + ((b & c) | (b & d) | (c & d)) + e + w + 0x8F1BBCDC
    ensures Rot5(a) == (a << 5) | (a >> 27) && Rot30(b) == (b << 30) | (b >> 2)
  {
  }

  lemma F2Raw(t: nat, b: bv32, c: bv32, d: bv32)
    requires 40 <= t < 60
    ensures F(t, b, c, d) == ((b & c) | (b & d) | (c & d)) && K(t) == 0x8F1BBCDC
  {
  }

  lemma Round2Is(t: nat, a: bv32, b: bv32, c: bv32, d: bv32, e: bv32, w: bv32)
    requires 40 <= t < 60
    ensures Round(Regs(a, b, c, d, e), t, w) == Round2(a, b, c, d, e, w)
  {
    hide Sum, Rot5, Rot30, F, K;
    F2Raw(t, b, c, d);
    Round2Raw(a, b, c, d, e, w);
  }

  lemma Round3Raw(a: bv32, b: bv32, c: bv32, d: bv32, e: bv32, w: bv32)
    ensures Sum(((a << 5) | (a >> 27)), (b ^ c ^ d), e, w, 0xCA62C1D6)
         == ((a << 5) | (a >> 27)) + (b ^ c ^ d) + e + w + 0xCA62C1D6
    ensures Rot5(a) == (a << 5) | (a >> 27) && Rot30(b) == (b << 30) | (b >> 2)
  {
  }

  lemma F3Raw(t: nat, b: bv32, c: bv32, d: bv32)
    requires 60 <= t < 80
    ensures F(t, b, c, d) == (b ^ c ^ d) && K(t) == 0xCA62C1D6
  {
  }

  lemma Round3Is(t: nat, a: bv32, b: bv32, c: bv32, d: bv32, e: bv32, w: bv32)
    requires 60 <= t < 80
    ensures Round(Regs(a, b, c, d, e), t, w) == Round3(a, b, c, d, e, w)
  {
    hide Sum, Rot5, Rot30, F, K;
    F3Raw(t, b, c, d);
    Round3Raw(a, b, c, d, e, w);
  }

  // ---------- Five rounds at a time ----------

  function Five0(r: Regs, v: Word, w: Word, x: Word, y: Word, z: Word): Regs {
    var r1 := Round0(r.a, r.b, r.c, r.d, r.e, v);
    var r2 := Round0(r1.a, r1.b, r1.c, r1.d, r1.e, w);
    var r3 := Round0(r2.a, r2.b, r2.c, r2.d, r2.e, x);
    var r4 := Round0(r3.a, r3.b, r3.c, r3.d, r3.e, y);
    Round0(r4.a, r4.b, r4.c, r4.d, r4.e, z)
  }

  function Five1(r: Regs, v: Word, w: Word, x: Word, y: Word, z: Word): Regs {
    var r1 := Round1(r.a, r.b, r.c, r.d, r.e, v);
    var r2 := Round1(r1.a, r1.b, r1.c, r1.d, r1.e, w);
    var r3 := Round1(r2.a, r2.b, r2.c, r2.d, r2.e, x);
    var r4 := Round1(r3.a, r3.b, r3.c, r3.d, r3.e, y);
    Round1(r4.a, r4.b, r4.c, r4.d, r4.e, z)
  }

  function Five2(r: Regs, v: Word, w: Word, x: Word, y: Word, z: Word): Regs {
    var r1 := Round2(r.a, r.b, r.c, r.d, r.e, v);
    var r2 := Round2(r1.a, r1.b, r1.c, r1.d, r1.e, w);
    var r3 := Round2(r2.a, r2.b, r2.c, r2.d, r2.e, x);
    var r4 := Round2(r3.a, r3.b, r3.c, r3.d, r3.e, y);
    Round2(r4.a, r4.b, r4.c, r4.d, r4.e, z)
  }

  function Five3(r: Regs, v: Word, w: Word, x: Word, y: Word, z: Word): Regs {
    var r1 := Round3(r.a, r.b, r.c, r.d, r.e, v);
    var r2 := Round3(r1.a, r1.b, r1.c, r1.d, r1.e, w);
    var r3 := Round3(r2.a, r2.b, r2.c, r2.d, r2.e, x);
    var r4 := Round3(r3.a, r3.b, r3.c, r3.d, r3.e, y);
    Round3(r4.a, r4.b, r4.c, r4.d, r4.e, z)
  }

  lemma Five0Is(m: Block, h: Regs, t: nat)
    requires 0 <= t && t + 5 <= 20
    ensures Rounds(m, h, t + 5)
         == Five0(Rounds(m, h, t), Schedule(m, t), Schedule(m, t + 1), Schedule(m, t + 2), Schedule(m, t + 3),
           Schedule(m, t + 4))
  {
    hide Schedule, Round, Round0;
    var r := Rounds(m, h, t);
    Round0Is(t, r.a, r.b, r.c, r.d, r.e, Schedule(m, t));
    var r1 := Rounds(m, h, t + 1);
    Round0Is(t + 1, r1.a, r1.b, r1.c, r1.d, r1.e, Schedule(m, t + 1));
    var r2 := Rounds(m, h, t + 2);
    Round0Is(t + 2, r2.a, r2.b, r2.c, r2.d, r2.e, Schedule(m, t + 2));
    var r3 := Rounds(m, h, t + 3);
    Round0Is(t + 3, r3.a, r3.b, r3.c, r3.d, r3.e, Schedule(m, t + 3));
    var r4 := Rounds(m, h, t + 4);
    Round0Is(t + 4, r4.a, r4.b, r4.c, r4.d, r4.e, Schedule(m, t + 4));
  }

  lemma Five1Is(m: Block, h: Regs, t: nat)
    requires 20 <= t && t + 5 <= 40
    ensures Rounds(m, h, t + 5)
         == Five1(Rounds(m, h, t), Schedule(m, t), Schedule(m, t + 1), Schedule(m, t + 2), Schedule(m, t + 3),
           Schedule(m, t + 4))
  {
    hide Schedule, Round, Round1;
    var r := Rounds(m, h, t);
    Round1Is(t, r.a, r.b, r.c, r.d, r.e, Schedule(m, t));
    var r1 := Rounds(m, h, t + 1);
    Round1Is(t + 1, r1.a, r1.b, r1.c, r1.d, r1.e, Schedule(m, t + 1));
    var r2 := Rounds(m, h, t + 2);
    Round1Is(t + 2, r2.a, r2.b, r2.c, r2.d, r2.e, Schedule(m, t + 2));
    var r3 := Rounds(m, h, t + 3);
    Round1Is(t + 3, r3.a, r3.b, r3.c, r3.d, r3.e, Schedule(m, t + 3));
    var r4 := Rounds(m, h, t + 4);
    Round1Is(t + 4, r4.a, r4.b, r4.c, r4.d, r4.e, Schedule(m, t + 4));
  }

  lemma Five2Is(m: Block, h: Regs, t: nat)
    requires 40 <= t && t + 5 <= 60
    ensures Rounds(m, h, t + 5)
         == Five2(Rounds(m, h, t), Schedule(m, t), Schedule(m, t + 1), Schedule(m, t + 2), Schedule(m, t + 3),
           Schedule(m, t + 4))
  {
    hide Schedule, Round, Round2;
    var r := Rounds(m, h, t);
    Round2Is(t, r.a, r.b, r.c, r.d, r.e, Schedule(m, t));
    var r1 := Rounds(m, h, t + 1);
    Round2Is(t + 1, r1.a, r1.b, r1.c, r1.d, r1.e, Schedule(m, t + 1));
    var r2 := Rounds(m, h, t + 2);
    Round2Is(t + 2, r2.a, r2.b, r2.c, r2.d, r2.e, Schedule(m, t + 2));
    var r3 := Rounds(m, h, t + 3);
    Round2Is(t + 3, r3.a, r3.b, r3.c, r3.d, r3.e, Schedule(m, t + 3));
    var r4 := Rounds(m, h, t + 4);
    Round2Is(t + 4, r4.a, r4.b, r4.c, r4.d, r4.e, Schedule(m, t + 4));
  }

  lemma Five3Is(m: Block, h: Regs, t: nat)
    requires 60 <= t && t + 5 <= 80
    ensures Rounds(m, h, t + 5)
         == Five3(Rounds(m, h, t), Schedule(m, t), Schedule(m, t + 1), Schedule(m, t + 2), Schedule(m, t + 3),
           Schedule(m, t + 4))
  {
    hide Schedule, Round, Round3;
    var r := Rounds(m, h, t);
    Round3Is(t, r.a, r.b, r.c, r.d, r.e, Schedule(m, t));
    var r1 := Rounds(m, h, t + 1);
    Round3Is(t + 1, r1.a, r1.b, r1.c, r1.d, r1.e, Schedule(m, t + 1));
    var r2 := Rounds(m, h, t + 2);
    Round3Is(t + 2, r2.a, r2.b, r2.c, r2.d, r2.e, Schedule(m, t + 2));
    var r3 := Rounds(m, h, t + 3);
    Round3Is(t + 3, r3.a, r3.b, r3.c, r3.d, r3.e, Schedule(m, t + 3));
    var r4 := Rounds(m, h, t + 4);
    Round3Is(t + 4, r4.a, r4.b, r4.c, r4.d, r4.e, Schedule(m, t + 4));
  }

  // ---------- Sixteen words of the schedule at a time ----------

  datatype Words = Words(w0: Word, w1: Word, w2: Word, w3: Word, w4: Word, w5: Word, w6: Word, w7: Word,
                         w8: Word, w9: Word, w10: Word, w11: Word, w12: Word, w13: Word, w14: Word, w15: Word)

  // Words t to t + 15
  function At(m: Block, t: nat): Words {
    Words(Schedule(m, t), Schedule(m, t + 1), Schedule(m, t + 2), Schedule(m, t + 3),
          Schedule(m, t + 4), Schedule(m, t + 5), Schedule(m, t + 6), Schedule(m, t + 7),
          Schedule(m, t + 8), Schedule(m, t + 9), Schedule(m, t + 10), Schedule(m, t + 11),
          Schedule(m, t + 12), Schedule(m, t + 13), Schedule(m, t + 14), Schedule(m, t + 15))
  }

  function Turned(p: Word, q: Word, r: Word, s: Word): Word {
    ((p ^ q ^ r ^ s) << 1) | ((p ^ q ^ r ^ s) >> 31)
  }

  lemma TurnedIs(p: bv32, q: bv32, r: bv32, s: bv32)
    ensures Rot1(Xor4(p, q, r, s)) == Turned(p, q, r, s)
  {
  }

  // The next sixteen
  function Following(w: Words): Words {
    var n0 := Turned(w.w13, w.w8, w.w2, w.w0);
    var n1 := Turned(w.w14, w.w9, w.w3, w.w1);
    var n2 := Turned(w.w15, w.w10, w.w4, w.w2);
    var n3 := Turned(n0, w.w11, w.w5, w.w3);
    var n4 := Turned(n1, w.w12, w.w6, w.w4);
    var n5 := Turned(n2, w.w13, w.w7, w.w5);
    var n6 := Turned(n3, w.w14, w.w8, w.w6);
    var n7 := Turned(n4, w.w15, w.w9, w.w7);
    var n8 := Turned(n5, n0, w.w10, w.w8);
    var n9 := Turned(n6, n1, w.w11, w.w9);
    var n10 := Turned(n7, n2, w.w12, w.w10);
    var n11 := Turned(n8, n3, w.w13, w.w11);
    var n12 := Turned(n9, n4, w.w14, w.w12);
    var n13 := Turned(n10, n5, w.w15, w.w13);
    var n14 := Turned(n11, n6, n0, w.w14);
    var n15 := Turned(n12, n7, n1, w.w15);
    Words(n0, n1, n2, n3, n4, n5, n6, n7, n8, n9, n10, n11, n12, n13, n14, n15)
  }

  lemma Next(m: Block, t: nat)
    requires t >= 16
    ensures Schedule(m, t) == Turned(Schedule(m, t - 3), Schedule(m, t - 8), Schedule(m, t - 14), Schedule(m, t - 16))
  {
    hide Rot1, Xor4, Turned;
    TurnedIs(Schedule(m, t - 3), Schedule(m, t - 8), Schedule(m, t - 14), Schedule(m, t - 16));
  }

  lemma FollowingIs(m: Block, t: nat)
    ensures Following(At(m, t)) == At(m, t + 16)
  {
    hide Turned, Schedule;
    Next(m, t + 16);
    Next(m, t + 17);
    Next(m, t + 18);
    Next(m, t + 19);
    Next(m, t + 20);
    Next(m, t + 21);
    Next(m, t + 22);
    Next(m, t + 23);
    Next(m, t + 24);
    Next(m, t + 25);
    Next(m, t + 26);
    Next(m, t + 27);
    Next(m, t + 28);
    Next(m, t + 29);
    Next(m, t + 30);
    Next(m, t + 31);
  }

  // Rounds 0 to 19
  function Twenty0(h: Regs, v: Words, w: Words): Regs {
    var r5 := Five0(h, v.w0, v.w1, v.w2, v.w3, v.w4);
    var r10 := Five0(r5, v.w5, v.w6, v.w7, v.w8, v.w9);
    var r15 := Five0(r10, v.w10, v.w11, v.w12, v.w13, v.w14);
    Five0(r15, v.w15, w.w0, w.w1, w.w2, w.w3)
  }

  lemma Twenty0Is(m: Block, h: Regs)
    ensures Rounds(m, h, 20) == Twenty0(Rounds(m, h, 0), At(m, 0), At(m, 16))
  {
    hide Schedule, Rounds, Five0;
    Five0Is(m, h, 0);
    Five0Is(m, h, 5);
    Five0Is(m, h, 10);
    Five0Is(m, h, 15);
  }

  // Rounds 20 to 39
  function Twenty1(h: Regs, v: Words, w: Words): Regs {
    var r5 := Five1(h, v.w4, v.w5, v.w6, v.w7, v.w8);
    var r10 := Five1(r5, v.w9, v.w10, v.w11, v.w12, v.w13);
    var r15 := Five1(r10, v.w14, v.w15, w.w0, w.w1, w.w2);
    Five1(r15, w.w3, w.w4, w.w5, w.w6, w.w7)
  }

  lemma Twenty1Is(m: Block, h: Regs)
    ensures Rounds(m, h, 40) == Twenty1(Rounds(m, h, 20), At(m, 16), At(m, 32))
  {
    hide Schedule, Rounds, Five1;
    Five1Is(m, h, 20);
    Five1Is(m, h, 25);
    Five1Is(m, h, 30);
    Five1Is(m, h, 35);
  }

  // Rounds 40 to 59
  function Twenty2(h: Regs, v: Words, w: Words): Regs {
    var r5 := Five2(h, v.w8, v.w9, v.w10, v.w11, v.w12);
    var r10 := Five2(r5, v.w13, v.w14, v.w15, w.w0, w.w1);
    var r15 := Five2(r10, w.w2, w.w3, w.w4, w.w5, w.w6);
    Five2(r15, w.w7, w.w8, w.w9, w.w10, w.w11)
  }

  lemma Twenty2Is(m: Block, h: Regs)
    ensures Rounds(m, h, 60) == Twenty2(Rounds(m, h, 40), At(m, 32), At(m, 48))
  {
    hide Schedule, Rounds, Five2;
    Five2Is(m, h, 40);
    Five2Is(m, h, 45);
    Five2Is(m, h, 50);
    Five2Is(m, h, 55);
  }

  // Rounds 60 to 79
  function Twenty3(h: Regs, v: Words, w: Words): Regs {
    var r5 := Five3(h, v.w12, v.w13, v.w14, v.w15, w.w0);
    var r10 := Five3(r5, w.w1, w.w2, w.w3, w.w4, w.w5);
    var r15 := Five3(r10, w.w6, w.w7, w.w8, w.w9, w.w10);
    Five3(r15, w.w11, w.w12, w.w13, w.w14, w.w15)
  }

  lemma Twenty3Is(m: Block, h: Regs)
    ensures Rounds(m, h, 80) == Twenty3(Rounds(m, h, 60), At(m, 48), At(m, 64))
  {
    hide Schedule, Rounds, Five3;
    Five3Is(m, h, 60);
    Five3Is(m, h, 65);
    Five3Is(m, h, 70);
    Five3Is(m, h, 75);
  }

  function Eighty(h: Regs, v: Words, w: Words, x: Words, y: Words, z: Words): Regs {
    Twenty3(Twenty2(Twenty1(Twenty0(h, v, w), w, x), x, y), y, z)
  }

  lemma EightyIs(m: Block, h: Regs)
    ensures Rounds(m, h, 80) == Eighty(h, At(m, 0), At(m, 16), At(m, 32), At(m, 48), At(m, 64))
  {
    hide At, Rounds, Twenty0, Twenty1, Twenty2, Twenty3;
    NoRounds(m, h);
    Twenty0Is(m, h);
    Twenty1Is(m, h);
    Twenty2Is(m, h);
    Twenty3Is(m, h);
  }

  lemma NoRounds(m: Block, h: Regs)
    ensures Rounds(m, h, 0) == h
  {
  }

  // ---------- The message abc ----------

  const ABC: seq<Byte> := [0x61, 0x62, 0x63]

  // The message with its padding
  const BLOCK: Block := ABC + [0x80] + seq(59, _ => 0) + [0x18]

  lemma BlockWords()
    ensures At(BLOCK, 0)
         == Words(BigEndian(0x61, 0x62, 0x63, 0x80), BigEndian(0, 0, 0, 0), BigEndian(0, 0, 0, 0),
           BigEndian(0, 0, 0, 0),
                  BigEndian(0, 0, 0, 0), BigEndian(0, 0, 0, 0), BigEndian(0, 0, 0, 0), BigEndian(0, 0, 0, 0),
                  BigEndian(0, 0, 0, 0), BigEndian(0, 0, 0, 0), BigEndian(0, 0, 0, 0), BigEndian(0, 0, 0, 0),
                  BigEndian(0, 0, 0, 0), BigEndian(0, 0, 0, 0), BigEndian(0, 0, 0, 0), BigEndian(0, 0, 0, 0x18))
  {
    hide BigEndian;
  }

  lemma BigEndians()
    ensures BigEndian(0x61, 0x62, 0x63, 0x80) == 0x61626380 && BigEndian(0, 0, 0, 0x18) == 0x18
    ensures BigEndian(0, 0, 0, 0) == 0
  {
  }

  const FIRST := Words(
    0x61626380, 0x00000000, 0x00000000, 0x00000000, 0x00000000, 0x00000000, 0x00000000, 0x00000000,
    0x00000000, 0x00000000, 0x00000000, 0x00000000, 0x00000000, 0x00000000, 0x00000000, 0x00000018)

  const SECOND := Words(
    0xC2C4C700, 0x00000000, 0x00000030, 0x85898E01, 0x00000000, 0x00000060, 0x0B131C03, 0x00000030,
    0x85898EC1, 0x16263806, 0x00000000, 0x00000180, 0x2C4C700C, 0x000000F0, 0x93AFB507, 0x5898E048)

  const THIRD := Words(
    0x8E9A9202, 0x00000600, 0xB131C0F0, 0x16263BC6, 0x4EBED41E, 0x626380A1, 0x16263806, 0x000018C0,
    0xD2E138C4, 0x00000F00, 0x3AFB5079, 0x898E04E5, 0xE2BA3C2B, 0x000060C0, 0x053A37CD, 0x74458547)

  const FOURTH := Words(
    0xDA9415ED, 0x26380A16, 0x626383A1, 0x4EBF54DE, 0x3835B44B, 0x0000F600, 0x1E84C7A3, 0x98E04D98,
    0x651D16A0, 0x62658CA1, 0x458544D6, 0x44584CB7, 0x7BA06619, 0x6380AEA2, 0x0AE55269, 0x627B49A1)

  const FIFTH := Words(
    0x7CD45C9D, 0x000F0000, 0xFB50753A, 0xEC6765E8, 0xBA3C2BE2, 0x0060C000, 0x3A37CD05, 0x458546F4,
    0xB8599DD6, 0x380A1A26, 0x01E02203, 0xE7CC3456, 0xE6E60B69, 0x00F60A00, 0x5795EF4F, 0x822E0879)

  lemma FirstIs()
    ensures At(BLOCK, 0) == FIRST
  {
    hide BigEndian, At;
    BigEndians();
    BlockWords();
  }

  lemma SecondIs()
    ensures Following(FIRST) == SECOND
  {
  }

  lemma ThirdIs()
    ensures Following(SECOND) == THIRD
  {
  }

  lemma FourthIs()
    ensures Following(THIRD) == FOURTH
  {
  }

  lemma FifthIs()
    ensures Following(FOURTH) == FIFTH
  {
  }

  lemma LastIs()
    ensures Eighty(Regs(0x67452301, 0xEFCDAB89, 0x98BADCFE, 0x10325476, 0xC3D2E1F0),
      FIRST, SECOND, THIRD, FOURTH, FIFTH)
         == Regs(0x42541B35, 0x5738D5E1, 0x21834873, 0x681E6DF6, 0xD8FDF6AD)
  {
  }

  lemma RoundsOfBlock()
    ensures Rounds(BLOCK, INITIAL, 80) == Regs(0x42541B35, 0x5738D5E1, 0x21834873, 0x681E6DF6, 0xD8FDF6AD)
  {
    hide Rounds, At, Following, Eighty;
    EightyIs(BLOCK, INITIAL);
    FirstIs();
    FollowingIs(BLOCK, 0);
    SecondIs();
    FollowingIs(BLOCK, 16);
    ThirdIs();
    FollowingIs(BLOCK, 32);
    FourthIs();
    FollowingIs(BLOCK, 48);
    FifthIs();
    LastIs();
  }

  lemma CompressIs()
    ensures Compress(INITIAL, BLOCK) == Regs(0xA9993E36, 0x4706816A, 0xBA3E2571, 0x7850C26C, 0x9CD0D89D)
  {
    hide Rounds;
    RoundsOfBlock();
  }

  // ---------- The digest ----------

  lemma PaddedAbc()
    ensures Padded(ABC) == BLOCK
  {
    hide ByteFrom, Octet;
    Bytes0And24();
    Sha1.Powers();
    forall i | 0 <= i < 8 ensures LengthField(3)[i] == if i == 7 then 0x18 else 0 {
      OctetOf24(7 - i);
    }
    assert LengthField(3) == [0, 0, 0, 0, 0, 0, 0, 0x18];
  }

  lemma Bytes0And24()
    ensures ByteFrom(0) == 0 && ByteFrom(24) == 0x18
  {
  }

  lemma OctetOf24(j: nat)
    ensures Octet(24, j) == if j == 0 then 24 else 0
  {
    hide Pow256;
    if j == 0 {
      PowerZero();
    } else {
      Large(j);
    }
  }

  lemma PowerZero()
    ensures Pow256(0) == 1
  {
  }

  lemma {:induction false} Large(j: nat)
    requires j > 0
    ensures Pow256(j) >= 256
  {
    if j == 1 {
    } else {
      Large(j - 1);
    }
  }

  lemma DigestOfAbc()
    ensures Digest(ABC) == [
      0xA9, 0x99, 0x3E, 0x36, 0x47, 0x06, 0x81, 0x6A, 0xBA, 0x3E,
      0x25, 0x71, 0x78, 0x50, 0xC2, 0x6C, 0x9C, 0xD0, 0xD8, 0x9D]
  {
    hide Compress, Padded, WordBytes;
    PaddedAbc();
    CompressIs();
    FoldOne();
    DigestBytes();
  }

  lemma FoldOne()
    ensures Fold(BLOCK) == Compress(INITIAL, BLOCK)
  {
    hide Compress;
    assert BLOCK[..0] == [] && BLOCK[0..] == BLOCK;
  }

  lemma DigestBytes()
    ensures WordBytes(0xA9993E36) == [0xA9, 0x99, 0x3E, 0x36]
    ensures WordBytes(0x4706816A) == [0x47, 0x06, 0x81, 0x6A]
    ensures WordBytes(0xBA3E2571) == [0xBA, 0x3E, 0x25, 0x71]
    ensures WordBytes(0x7850C26C) == [0x78, 0x50, 0xC2, 0x6C]
    ensures WordBytes(0x9CD0D89D) == [0x9C, 0xD0, 0xD8, 0x9D]
  {
  }

  // sha1 and lhi_hash_sha1 of abc, on a little-endian machine
  method Answers() returns (output: seq<Byte>, hash: Word)
    ensures output == Digest(ABC) && hash == 0x363E99A9
  {
    hide Digest, BigEndian;
    output := Sha1.Sum160(ABC, 3);
    assert ABC[..3] == ABC;
    hash := Sha1.HashSha1(ABC);
    DigestOfAbc();
    HostWordOfAbc();
  }

  lemma HostWordOfAbc()
    ensures BigEndian(0x36, 0x3E, 0x99, 0xA9) == 0x363E99A9
  {
  }
}
