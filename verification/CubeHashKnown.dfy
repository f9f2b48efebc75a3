// A known round of CubeHash, on the words 0 to 31, worked out word by word.

module CubeHashKnown {
  import opened Words
  import opened CubeHash

  // Words i of half a round, from words i and i ^ a, and from words i ^ c
  lemma LowWord(s: Cube, a: nat, r: nat, c: nat, i: nat, j: nat)
    requires (a == 8 || a == 4) && (c == 2 || c == 1) && 0 < r < 32 && i < 16 && j == Flip(i, a) < 16
    ensures HalfRound(s, a, r, c).lo[i] == Xor(Rot(s.lo[j], r), Add(s.hi[i], s.lo[i]))
  {
    hide Flip, Add, Xor, Rot;
    ExchangeAt(s.lo, a, i);
  }

  lemma HighWord(s: Cube, a: nat, r: nat, c: nat, i: nat, l: nat)
    requires (a == 8 || a == 4) && (c == 2 || c == 1) && 0 < r < 32 && i < 16 && l == Flip(i, c) < 16
    ensures HalfRound(s, a, r, c).hi[i] == Add(s.hi[l], s.lo[l])
  {
    hide Flip, Add, Xor, Rot;
    var t := AddHalves(s);
    ExchangeAt(XorHalves(t.(lo := RotateAll(Exchange(t.lo, a), r))).hi, c, i);
  }

  const STATE_0: Cube := Cube(
    [0x0, 0x1, 0x2, 0x3, 0x4, 0x5, 0x6, 0x7,
     0x8, 0x9, 0xA, 0xB, 0xC, 0xD, 0xE, 0xF],
    [0x10, 0x11, 0x12, 0x13, 0x14, 0x15, 0x16, 0x17,
     0x18, 0x19, 0x1A, 0x1B, 0x1C, 0x1D, 0x1E, 0x1F])

  const STATE_1: Cube := Cube(
    [0x410, 0x492, 0x514, 0x596, 0x618, 0x69A, 0x71C, 0x79E,
     0x20, 0xA2, 0x124, 0x1A6, 0x228, 0x2AA, 0x32C, 0x3AE],
    [0x14, 0x16, 0x10, 0x12, 0x1C, 0x1E, 0x18, 0x1A,
     0x24, 0x26, 0x20, 0x22, 0x2C, 0x2E, 0x28, 0x2A])

  const STATE_2: Cube := Cube(
    [0x30C424, 0x34D4A8, 0x38E524, 0x3CF5A8, 0x208634, 0x2496B8, 0x28A734, 0x2CB7B8,
     0x114044, 0x1550C8, 0x196144, 0x1D71C8, 0x10254, 0x512D8, 0x92354, 0xD33D8],
    [0x4A8, 0x424, 0x5A8, 0x524, 0x6B8, 0x634, 0x7B8, 0x734,
     0xC8, 0x44, 0x1C8, 0x144, 0x2D8, 0x254, 0x3D8, 0x354])

  lemma LowWords0()
    ensures Xor(Rot(0x8, 7), Add(0x10, 0x0)) == 0x410
    ensures Xor(Rot(0x9, 7), Add(0x11, 0x1)) == 0x492
    ensures Xor(Rot(0xA, 7), Add(0x12, 0x2)) == 0x514
    ensures Xor(Rot(0xB, 7), Add(0x13, 0x3)) == 0x596
    ensures Xor(Rot(0xC, 7), Add(0x14, 0x4)) == 0x618
    ensures Xor(Rot(0xD, 7), Add(0x15, 0x5)) == 0x69A
    ensures Xor(Rot(0xE, 7), Add(0x16, 0x6)) == 0x71C
    ensures Xor(Rot(0xF, 7), Add(0x17, 0x7)) == 0x79E
    ensures Xor(Rot(0x0, 7), Add(0x18, 0x8)) == 0x20
    ensures Xor(Rot(0x1, 7), Add(0x19, 0x9)) == 0xA2
    ensures Xor(Rot(0x2, 7), Add(0x1A, 0xA)) == 0x124
    ensures Xor(Rot(0x3, 7), Add(0x1B, 0xB)) == 0x1A6
    ensures Xor(Rot(0x4, 7), Add(0x1C, 0xC)) == 0x228
    ensures Xor(Rot(0x5, 7), Add(0x1D, 0xD)) == 0x2AA
    ensures Xor(Rot(0x6, 7), Add(0x1E, 0xE)) == 0x32C
    ensures Xor(Rot(0x7, 7), Add(0x1F, 0xF)) == 0x3AE
  {
  }

  lemma Low0()
    ensures HalfRound(STATE_0, 8, 7, 2).lo == STATE_1.lo
  {
    hide HalfRound, Xor, Rot, Add, Flip;
    LowWords0();
    Flips8();
    LowWord(STATE_0, 8, 7, 2, 0, 8);
    LowWord(STATE_0, 8, 7, 2, 1, 9);
    LowWord(STATE_0, 8, 7, 2, 2, 10);
    LowWord(STATE_0, 8, 7, 2, 3, 11);
    LowWord(STATE_0, 8, 7, 2, 4, 12);
    LowWord(STATE_0, 8, 7, 2, 5, 13);
    LowWord(STATE_0, 8, 7, 2, 6, 14);
    LowWord(STATE_0, 8, 7, 2, 7, 15);
    LowWord(STATE_0, 8, 7, 2, 8, 0);
    LowWord(STATE_0, 8, 7, 2, 9, 1);
    LowWord(STATE_0, 8, 7, 2, 10, 2);
    LowWord(STATE_0, 8, 7, 2, 11, 3);
    LowWord(STATE_0, 8, 7, 2, 12, 4);
    LowWord(STATE_0, 8, 7, 2, 13, 5);
    LowWord(STATE_0, 8, 7, 2, 14, 6);
    LowWord(STATE_0, 8, 7, 2, 15, 7);
  }

  lemma HighWords0()
    ensures Add(0x12, 0x2) == 0x14
    ensures Add(0x13, 0x3) == 0x16
    ensures Add(0x10, 0x0) == 0x10
    ensures Add(0x11, 0x1) == 0x12
    ensures Add(0x16, 0x6) == 0x1C
    ensures Add(0x17, 0x7) == 0x1E
    ensures Add(0x14, 0x4) == 0x18
    ensures Add(0x15, 0x5) == 0x1A
    ensures Add(0x1A, 0xA) == 0x24
    ensures Add(0x1B, 0xB) == 0x26
    ensures Add(0x18, 0x8) == 0x20
    ensures Add(0x19, 0x9) == 0x22
    ensures Add(0x1E, 0xE) == 0x2C
    ensures Add(0x1F, 0xF) == 0x2E
    ensures Add(0x1C, 0xC) == 0x28
    ensures Add(0x1D, 0xD) == 0x2A
  {
  }

  lemma High0()
    ensures HalfRound(STATE_0, 8, 7, 2).hi == STATE_1.hi
  {
    hide HalfRound, Xor, Rot, Add, Flip;
    HighWords0();
    Flips2();
    HighWord(STATE_0, 8, 7, 2, 0, 2);
    HighWord(STATE_0, 8, 7, 2, 1, 3);
    HighWord(STATE_0, 8, 7, 2, 2, 0);
    HighWord(STATE_0, 8, 7, 2, 3, 1);
    HighWord(STATE_0, 8, 7, 2, 4, 6);
    HighWord(STATE_0, 8, 7, 2, 5, 7);
    HighWord(STATE_0, 8, 7, 2, 6, 4);
    HighWord(STATE_0, 8, 7, 2, 7, 5);
    HighWord(STATE_0, 8, 7, 2, 8, 10);
    HighWord(STATE_0, 8, 7, 2, 9, 11);
    HighWord(STATE_0, 8, 7, 2, 10, 8);
    HighWord(STATE_0, 8, 7, 2, 11, 9);
    HighWord(STATE_0, 8, 7, 2, 12, 14);
    HighWord(STATE_0, 8, 7, 2, 13, 15);
    HighWord(STATE_0, 8, 7, 2, 14, 12);
    HighWord(STATE_0, 8, 7, 2, 15, 13);
  }

  lemma LowWords1()
    ensures Xor(Rot(0x618, 11), Add(0x14, 0x410)) == 0x30C424
    ensures Xor(Rot(0x69A, 11), Add(0x16, 0x492)) == 0x34D4A8
    ensures Xor(Rot(0x71C, 11), Add(0x10, 0x514)) == 0x38E524
    ensures Xor(Rot(0x79E, 11), Add(0x12, 0x596)) == 0x3CF5A8
    ensures Xor(Rot(0x410, 11), Add(0x1C, 0x618)) == 0x208634
    ensures Xor(Rot(0x492, 11), Add(0x1E, 0x69A)) == 0x2496B8
    ensures Xor(Rot(0x514, 11), Add(0x18, 0x71C)) == 0x28A734
    ensures Xor(Rot(0x596, 11), Add(0x1A, 0x79E)) == 0x2CB7B8
    ensures Xor(Rot(0x228, 11), Add(0x24, 0x20)) == 0x114044
    ensures Xor(Rot(0x2AA, 11), Add(0x26, 0xA2)) == 0x1550C8
    ensures Xor(Rot(0x32C, 11), Add(0x20, 0x124)) == 0x196144
    ensures Xor(Rot(0x3AE, 11), Add(0x22, 0x1A6)) == 0x1D71C8
    ensures Xor(Rot(0x20, 11), Add(0x2C, 0x228)) == 0x10254
    ensures Xor(Rot(0xA2, 11), Add(0x2E, 0x2AA)) == 0x512D8
    ensures Xor(Rot(0x124, 11), Add(0x28, 0x32C)) == 0x92354
    ensures Xor(Rot(0x1A6, 11), Add(0x2A, 0x3AE)) == 0xD33D8
  {
  }

  lemma Low1()
    ensures HalfRound(STATE_1, 4, 11, 1).lo == STATE_2.lo
  {
    hide HalfRound, Xor, Rot, Add, Flip;
    LowWords1();
    Flips4();
    LowWord(STATE_1, 4, 11, 1, 0, 4);
    LowWord(STATE_1, 4, 11, 1, 1, 5);
    LowWord(STATE_1, 4, 11, 1, 2, 6);
    LowWord(STATE_1, 4, 11, 1, 3, 7);
    LowWord(STATE_1, 4, 11, 1, 4, 0);
    LowWord(STATE_1, 4, 11, 1, 5, 1);
    LowWord(STATE_1, 4, 11, 1, 6, 2);
    LowWord(STATE_1, 4, 11, 1, 7, 3);
    LowWord(STATE_1, 4, 11, 1, 8, 12);
    LowWord(STATE_1, 4, 11, 1, 9, 13);
    LowWord(STATE_1, 4, 11, 1, 10, 14);
    LowWord(STATE_1, 4, 11, 1, 11, 15);
    LowWord(STATE_1, 4, 11, 1, 12, 8);
    LowWord(STATE_1, 4, 11, 1, 13, 9);
    LowWord(STATE_1, 4, 11, 1, 14, 10);
    LowWord(STATE_1, 4, 11, 1, 15, 11);
  }

  lemma HighWords1()
    ensures Add(0x16, 0x492) == 0x4A8
    ensures Add(0x14, 0x410) == 0x424
    ensures Add(0x12, 0x596) == 0x5A8
    ensures Add(0x10, 0x514) == 0x524
    ensures Add(0x1E, 0x69A) == 0x6B8
    ensures Add(0x1C, 0x618) == 0x634
    ensures Add(0x1A, 0x79E) == 0x7B8
    ensures Add(0x18, 0x71C) == 0x734
    ensures Add(0x26, 0xA2) == 0xC8
    ensures Add(0x24, 0x20) == 0x44
    ensures Add(0x22, 0x1A6) == 0x1C8
    ensures Add(0x20, 0x124) == 0x144
    ensures Add(0x2E, 0x2AA) == 0x2D8
    ensures Add(0x2C, 0x228) == 0x254
    ensures Add(0x2A, 0x3AE) == 0x3D8
    ensures Add(0x28, 0x32C) == 0x354
  {
  }

  lemma High1()
    ensures HalfRound(STATE_1, 4, 11, 1).hi == STATE_2.hi
  {
    hide HalfRound, Xor, Rot, Add, Flip;
    HighWords1();
    Flips1();
    HighWord(STATE_1, 4, 11, 1, 0, 1);
    HighWord(STATE_1, 4, 11, 1, 1, 0);
    HighWord(STATE_1, 4, 11, 1, 2, 3);
    HighWord(STATE_1, 4, 11, 1, 3, 2);
    HighWord(STATE_1, 4, 11, 1, 4, 5);
    HighWord(STATE_1, 4, 11, 1, 5, 4);
    HighWord(STATE_1, 4, 11, 1, 6, 7);
    HighWord(STATE_1, 4, 11, 1, 7, 6);
    HighWord(STATE_1, 4, 11, 1, 8, 9);
    HighWord(STATE_1, 4, 11, 1, 9, 8);
    HighWord(STATE_1, 4, 11, 1, 10, 11);
    HighWord(STATE_1, 4, 11, 1, 11, 10);
    HighWord(STATE_1, 4, 11, 1, 12, 13);
    HighWord(STATE_1, 4, 11, 1, 13, 12);
    HighWord(STATE_1, 4, 11, 1, 14, 15);
    HighWord(STATE_1, 4, 11, 1, 15, 14);
  }

  // i ^ 8
  lemma Flips8()
    ensures Flip(0, 8) == 8 && Flip(1, 8) == 9 && Flip(2, 8) == 10 && Flip(3, 8) == 11
    ensures Flip(4, 8) == 12 && Flip(5, 8) == 13 && Flip(6, 8) == 14 && Flip(7, 8) == 15
    ensures Flip(8, 8) == 0 && Flip(9, 8) == 1 && Flip(10, 8) == 2 && Flip(11, 8) == 3
    ensures Flip(12, 8) == 4 && Flip(13, 8) == 5 && Flip(14, 8) == 6 && Flip(15, 8) == 7
  {
  }

  // i ^ 2
  lemma Flips2()
    ensures Flip(0, 2) == 2 && Flip(1, 2) == 3 && Flip(2, 2) == 0 && Flip(3, 2) == 1
    ensures Flip(4, 2) == 6 && Flip(5, 2) == 7 && Flip(6, 2) == 4 && Flip(7, 2) == 5
    ensures Flip(8, 2) == 10 && Flip(9, 2) == 11 && Flip(10, 2) == 8 && Flip(11, 2) == 9
    ensures Flip(12, 2) == 14 && Flip(13, 2) == 15 && Flip(14, 2) == 12 && Flip(15, 2) == 13
  {
  }

  // i ^ 4
  lemma Flips4()
    ensures Flip(0, 4) == 4 && Flip(1, 4) == 5 && Flip(2, 4) == 6 && Flip(3, 4) == 7
    ensures Flip(4, 4) == 0 && Flip(5, 4) == 1 && Flip(6, 4) == 2 && Flip(7, 4) == 3
    ensures Flip(8, 4) == 12 && Flip(9, 4) == 13 && Flip(10, 4) == 14 && Flip(11, 4) == 15
    ensures Flip(12, 4) == 8 && Flip(13, 4) == 9 && Flip(14, 4) == 10 && Flip(15, 4) == 11
  {
  }

  // i ^ 1
  lemma Flips1()
    ensures Flip(0, 1) == 1 && Flip(1, 1) == 0 && Flip(2, 1) == 3 && Flip(3, 1) == 2
    ensures Flip(4, 1) == 5 && Flip(5, 1) == 4 && Flip(6, 1) == 7 && Flip(7, 1) == 6
    ensures Flip(8, 1) == 9 && Flip(9, 1) == 8 && Flip(10, 1) == 11 && Flip(11, 1) == 10
    ensures Flip(12, 1) == 13 && Flip(13, 1) == 12 && Flip(14, 1) == 15 && Flip(15, 1) == 14
  {
  }

  // One round on the words 0 to 31
  lemma KnownRound()
    ensures Rounds(STATE_0, 1) == STATE_2
  {
    hide HalfRound;
    Low0();
    High0();
    Low1();
    High1();
    assert Rounds(STATE_0, 0) == STATE_0;
  }
}
