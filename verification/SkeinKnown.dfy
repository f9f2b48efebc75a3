// A known hash, of the one byte 0xFF, and the initial chaining value as the hash
// of its configuration block. The rounds are written in the operators of the
// machine, with their rotation distances, and then worked out.

module SkeinKnown {
  import opened SkeinSpec
  import Skein256

  // ---------- The rounds in the operators of the machine ----------

  function Mix0(w0: Word, w1: Word, w2: Word, w3: Word): Four {
    Four(w0 + w1, ((w3 << 56) | (w3 >> 8)) ^ (w2 + w3), w2 + w3, ((w1 << 5) | (w1 >> 59)) ^ (w0 + w1))
  }

  function Mix1(w0: Word, w1: Word, w2: Word, w3: Word): Four {
    Four(w0 + w1, ((w3 << 28) | (w3 >> 36)) ^ (w2 + w3), w2 + w3, ((w1 << 36) | (w1 >> 28)) ^ (w0 + w1))
  }

  function Mix2(w0: Word, w1: Word, w2: Word, w3: Word): Four {
    Four(w0 + w1, ((w3 << 46) | (w3 >> 18)) ^ (w2 + w3), w2 + w3, ((w1 << 13) | (w1 >> 51)) ^ (w0 + w1))
  }

  function Mix3(w0: Word, w1: Word, w2: Word, w3: Word): Four {
    Four(w0 + w1, ((w3 << 44) | (w3 >> 20)) ^ (w2 + w3), w2 + w3, ((w1 << 58) | (w1 >> 6)) ^ (w0 + w1))
  }

  function Mix4(w0: Word, w1: Word, w2: Word, w3: Word): Four {
    Four(w0 + w1, ((w3 << 20) | (w3 >> 44)) ^ (w2 + w3), w2 + w3, ((w1 << 26) | (w1 >> 38)) ^ (w0 + w1))
  }

  function Mix5(w0: Word, w1: Word, w2: Word, w3: Word): Four {
    Four(w0 + w1, ((w3 << 35) | (w3 >> 29)) ^ (w2 + w3), w2 + w3, ((w1 << 53) | (w1 >> 11)) ^ (w0 + w1))
  }

  function Mix6(w0: Word, w1: Word, w2: Word, w3: Word): Four {
    Four(w0 + w1, ((w3 << 42) | (w3 >> 22)) ^ (w2 + w3), w2 + w3, ((w1 << 11) | (w1 >> 53)) ^ (w0 + w1))
  }

  function Mix7(w0: Word, w1: Word, w2: Word, w3: Word): Four {
    Four(w0 + w1, ((w3 << 50) | (w3 >> 14)) ^ (w2 + w3), w2 + w3, ((w1 << 59) | (w1 >> 5)) ^ (w0 + w1))
  }

  lemma Turns0(w1: bv64, w3: bv64)
    ensures Rotl(w1, 5) == (w1 << 5) | (w1 >> 59) && Rotl(w3, 56) == (w3 << 56) | (w3 >> 8)
  {
    hide Rotl;
    FirstRotations(w1);
    FirstRotations(w3);
  }

  lemma Mix0Raw(w0: bv64, w1: bv64, w2: bv64, w3: bv64)
    ensures Xor((w3 << 56) | (w3 >> 8), w2 + w3) == ((w3 << 56) | (w3 >> 8)) ^ (w2 + w3)
    ensures Xor((w1 << 5) | (w1 >> 59), w0 + w1) == ((w1 << 5) | (w1 >> 59)) ^ (w0 + w1)
    ensures Plus(w0, w1) == w0 + w1 && Plus(w2, w3) == w2 + w3
  {
  }

  lemma Mix0Is(w0: bv64, w1: bv64, w2: bv64, w3: bv64)
    ensures MixPermute(Four(w0, w1, w2, w3), 5, 56) == Mix0(w0, w1, w2, w3)
  {
    hide Rotl, Xor, Plus;
    Mix0Raw(w0, w1, w2, w3);
    Turns0(w1, w3);
  }

  lemma Turns1(w1: bv64, w3: bv64)
    ensures Rotl(w1, 36) == (w1 << 36) | (w1 >> 28) && Rotl(w3, 28) == (w3 << 28) | (w3 >> 36)
  {
    hide Rotl;
    FirstRotations(w1);
    FirstRotations(w3);
  }

  lemma Mix1Raw(w0: bv64, w1: bv64, w2: bv64, w3: bv64)
    ensures Xor((w3 << 28) | (w3 >> 36), w2 + w3) == ((w3 << 28) | (w3 >> 36)) ^ (w2 + w3)
    ensures Xor((w1 << 36) | (w1 >> 28), w0 + w1) == ((w1 << 36) | (w1 >> 28)) ^ (w0 + w1)
    ensures Plus(w0, w1) == w0 + w1 && Plus(w2, w3) == w2 + w3
  {
  }

  lemma Mix1Is(w0: bv64, w1: bv64, w2: bv64, w3: bv64)
    ensures MixPermute(Four(w0, w1, w2, w3), 36, 28) == Mix1(w0, w1, w2, w3)
  {
    hide Rotl, Xor, Plus;
    Mix1Raw(w0, w1, w2, w3);
    Turns1(w1, w3);
  }

  lemma Turns2(w1: bv64, w3: bv64)
    ensures Rotl(w1, 13) == (w1 << 13) | (w1 >> 51) && Rotl(w3, 46) == (w3 << 46) | (w3 >> 18)
  {
    hide Rotl;
    FirstRotations(w1);
    FirstRotations(w3);
  }

  lemma Mix2Raw(w0: bv64, w1: bv64, w2: bv64, w3: bv64)
    ensures Xor((w3 << 46) | (w3 >> 18), w2 + w3) == ((w3 << 46) | (w3 >> 18)) ^ (w2 + w3)
    ensures Xor((w1 << 13) | (w1 >> 51), w0 + w1) == ((w1 << 13) | (w1 >> 51)) ^ (w0 + w1)
    ensures Plus(w0, w1) == w0 + w1 && Plus(w2, w3) == w2 + w3
  {
  }

  lemma Mix2Is(w0: bv64, w1: bv64, w2: bv64, w3: bv64)
    ensures MixPermute(Four(w0, w1, w2, w3), 13, 46) == Mix2(w0, w1, w2, w3)
  {
    hide Rotl, Xor, Plus;
    Mix2Raw(w0, w1, w2, w3);
    Turns2(w1, w3);
  }

  lemma Turns3(w1: bv64, w3: bv64)
    ensures Rotl(w1, 58) == (w1 << 58) | (w1 >> 6) && Rotl(w3, 44) == (w3 << 44) | (w3 >> 20)
  {
    hide Rotl;
    FirstRotations(w1);
    FirstRotations(w3);
  }

  lemma Mix3Raw(w0: bv64, w1: bv64, w2: bv64, w3: bv64)
    ensures Xor((w3 << 44) | (w3 >> 20), w2 + w3) == ((w3 << 44) | (w3 >> 20)) ^ (w2 + w3)
    ensures Xor((w1 << 58) | (w1 >> 6), w0 + w1) == ((w1 << 58) | (w1 >> 6)) ^ (w0 + w1)
    ensures Plus(w0, w1) == w0 + w1 && Plus(w2, w3) == w2 + w3
  {
  }

  lemma Mix3Is(w0: bv64, w1: bv64, w2: bv64, w3: bv64)
    ensures MixPermute(Four(w0, w1, w2, w3), 58, 44) == Mix3(w0, w1, w2, w3)
  {
    hide Rotl, Xor, Plus;
    Mix3Raw(w0, w1, w2, w3);
    Turns3(w1, w3);
  }

  lemma Turns4(w1: bv64, w3: bv64)
    ensures Rotl(w1, 26) == (w1 << 26) | (w1 >> 38) && Rotl(w3, 20) == (w3 << 20) | (w3 >> 44)
  {
    hide Rotl;
    SecondRotations(w1);
    SecondRotations(w3);
  }

  lemma Mix4Raw(w0: bv64, w1: bv64, w2: bv64, w3: bv64)
    ensures Xor((w3 << 20) | (w3 >> 44), w2 + w3) == ((w3 << 20) | (w3 >> 44)) ^ (w2 + w3)
    ensures Xor((w1 << 26) | (w1 >> 38), w0 + w1) == ((w1 << 26) | (w1 >> 38)) ^ (w0 + w1)
    ensures Plus(w0, w1) == w0 + w1 && Plus(w2, w3) == w2 + w3
  {
  }

  lemma Mix4Is(w0: bv64, w1: bv64, w2: bv64, w3: bv64)
    ensures MixPermute(Four(w0, w1, w2, w3), 26, 20) == Mix4(w0, w1, w2, w3)
  {
    hide Rotl, Xor, Plus;
    Mix4Raw(w0, w1, w2, w3);
    Turns4(w1, w3);
  }

  lemma Turns5(w1: bv64, w3: bv64)
    ensures Rotl(w1, 53) == (w1 << 53) | (w1 >> 11) && Rotl(w3, 35) == (w3 << 35) | (w3 >> 29)
  {
    hide Rotl;
    SecondRotations(w1);
    SecondRotations(w3);
  }

  lemma Mix5Raw(w0: bv64, w1: bv64, w2: bv64, w3: bv64)
    ensures Xor((w3 << 35) | (w3 >> 29), w2 + w3) == ((w3 << 35) | (w3 >> 29)) ^ (w2 + w3)
    ensures Xor((w1 << 53) | (w1 >> 11), w0 + w1) == ((w1 << 53) | (w1 >> 11)) ^ (w0 + w1)
    ensures Plus(w0, w1) == w0 + w1 && Plus(w2, w3) == w2 + w3
  {
  }

  lemma Mix5Is(w0: bv64, w1: bv64, w2: bv64, w3: bv64)
    ensures MixPermute(Four(w0, w1, w2, w3), 53, 35) == Mix5(w0, w1, w2, w3)
  {
    hide Rotl, Xor, Plus;
    Mix5Raw(w0, w1, w2, w3);
    Turns5(w1, w3);
  }

  lemma Turns6(w1: bv64, w3: bv64)
    ensures Rotl(w1, 11) == (w1 << 11) | (w1 >> 53) && Rotl(w3, 42) == (w3 << 42) | (w3 >> 22)
  {
    hide Rotl;
    SecondRotations(w1);
    SecondRotations(w3);
  }

  lemma Mix6Raw(w0: bv64, w1: bv64, w2: bv64, w3: bv64)
    ensures Xor((w3 << 42) | (w3 >> 22), w2 + w3) == ((w3 << 42) | (w3 >> 22)) ^ (w2 + w3)
    ensures Xor((w1 << 11) | (w1 >> 53), w0 + w1) == ((w1 << 11) | (w1 >> 53)) ^ (w0 + w1)
    ensures Plus(w0, w1) == w0 + w1 && Plus(w2, w3) == w2 + w3
  {
  }

  lemma Mix6Is(w0: bv64, w1: bv64, w2: bv64, w3: bv64)
    ensures MixPermute(Four(w0, w1, w2, w3), 11, 42) == Mix6(w0, w1, w2, w3)
  {
    hide Rotl, Xor, Plus;
    Mix6Raw(w0, w1, w2, w3);
    Turns6(w1, w3);
  }

  lemma Turns7(w1: bv64, w3: bv64)
    ensures Rotl(w1, 59) == (w1 << 59) | (w1 >> 5) && Rotl(w3, 50) == (w3 << 50) | (w3 >> 14)
  {
    hide Rotl;
    SecondRotations(w1);
    SecondRotations(w3);
  }

  lemma Mix7Raw(w0: bv64, w1: bv64, w2: bv64, w3: bv64)
    ensures Xor((w3 << 50) | (w3 >> 14), w2 + w3) == ((w3 << 50) | (w3 >> 14)) ^ (w2 + w3)
    ensures Xor((w1 << 59) | (w1 >> 5), w0 + w1) == ((w1 << 59) | (w1 >> 5)) ^ (w0 + w1)
    ensures Plus(w0, w1) == w0 + w1 && Plus(w2, w3) == w2 + w3
  {
  }

  lemma Mix7Is(w0: bv64, w1: bv64, w2: bv64, w3: bv64)
    ensures MixPermute(Four(w0, w1, w2, w3), 59, 50) == Mix7(w0, w1, w2, w3)
  {
    hide Rotl, Xor, Plus;
    Mix7Raw(w0, w1, w2, w3);
    Turns7(w1, w3);
  }

  // The subkey of the words a, b, c, d of the key, s and t of the tweak, and the
  // number n, added to a state
  function Injected(w0: Word, w1: Word, w2: Word, w3: Word,
                    a: Word, b: Word, c: Word, d: Word, s: Word, t: Word, n: Word): Four {
    Four(w0 + a, w1 + (b + s), w2 + (c + t), w3 + (d + n))
  }

  lemma InjectedRaw(w0: bv64, w1: bv64, a: bv64, b: bv64, s: bv64)
    ensures Plus(w0, a) == w0 + a && Plus(b, s) == b + s && Plus(w1, b + s) == w1 + (b + s)
  {
  }

  lemma InjectedIs(w0: bv64, w1: bv64, w2: bv64, w3: bv64,
                   a: bv64, b: bv64, c: bv64, d: bv64, s: bv64, t: bv64, n: bv64)
    ensures Inject(Four(w0, w1, w2, w3), Four(a, Plus(b, s), Plus(c, t), Plus(d, n)))
         == Injected(w0, w1, w2, w3, a, b, c, d, s, t, n)
  {
    hide Plus;
    InjectedRaw(w0, w1, a, b, s);
    InjectedRaw(w0, w2, a, c, t);
    InjectedRaw(w0, w3, a, d, n);
  }

  // ---------- Four rounds and an injection ----------

  function Turn0(v: Four): Four {
    var v1 := Mix0(v.w0, v.w1, v.w2, v.w3);
    var v2 := Mix1(v1.w0, v1.w1, v1.w2, v1.w3);
    var v3 := Mix2(v2.w0, v2.w1, v2.w2, v2.w3);
    Mix3(v3.w0, v3.w1, v3.w2, v3.w3)
  }

  function Turn1(v: Four): Four {
    var v1 := Mix4(v.w0, v.w1, v.w2, v.w3);
    var v2 := Mix5(v1.w0, v1.w1, v1.w2, v1.w3);
    var v3 := Mix6(v2.w0, v2.w1, v2.w2, v2.w3);
    Mix7(v3.w0, v3.w1, v3.w2, v3.w3)
  }

  // Rounds 8 * r to 8 * r + 3
  lemma Turn0Is(k: Key, t: Tweak, p: Four, r: nat)
    ensures Rounds(k, t, p, 8 * r + 4) == Turn0(Keyed(Rounds(k, t, p, 8 * r), k, t, 8 * r))
  {
    hide MixPermute, Mix0, Mix1, Mix2, Mix3, Rounds, Keyed, Rotations;
    Skein256.RotationsAt(r);
    var v := Keyed(Rounds(k, t, p, 8 * r), k, t, 8 * r);
    Mix0Is(v.w0, v.w1, v.w2, v.w3);
    Skein256.Unfold(k, t, p, 8 * r);
    var v1 := Mix0(v.w0, v.w1, v.w2, v.w3);
    Mix1Is(v1.w0, v1.w1, v1.w2, v1.w3);
    Inner(k, t, p, 8 * r + 1, v1);
    var v2 := Mix1(v1.w0, v1.w1, v1.w2, v1.w3);
    Mix2Is(v2.w0, v2.w1, v2.w2, v2.w3);
    Inner(k, t, p, 8 * r + 2, v2);
    var v3 := Mix2(v2.w0, v2.w1, v2.w2, v2.w3);
    Mix3Is(v3.w0, v3.w1, v3.w2, v3.w3);
    Inner(k, t, p, 8 * r + 3, v3);
  }

  // Rounds 8 * r + 4 to 8 * r + 7
  lemma Turn1Is(k: Key, t: Tweak, p: Four, r: nat)
    ensures Rounds(k, t, p, 8 * r + 8) == Turn1(Keyed(Rounds(k, t, p, 8 * r + 4), k, t, 8 * r + 4))
  {
    hide MixPermute, Mix4, Mix5, Mix6, Mix7, Rounds, Keyed, Rotations;
    Skein256.RotationsAt(r);
    var v := Keyed(Rounds(k, t, p, 8 * r + 4), k, t, 8 * r + 4);
    Mix4Is(v.w0, v.w1, v.w2, v.w3);
    Skein256.Unfold(k, t, p, 8 * r + 4);
    var v1 := Mix4(v.w0, v.w1, v.w2, v.w3);
    Mix5Is(v1.w0, v1.w1, v1.w2, v1.w3);
    Inner(k, t, p, 8 * r + 5, v1);
    var v2 := Mix5(v1.w0, v1.w1, v1.w2, v1.w3);
    Mix6Is(v2.w0, v2.w1, v2.w2, v2.w3);
    Inner(k, t, p, 8 * r + 6, v2);
    var v3 := Mix6(v2.w0, v2.w1, v2.w2, v2.w3);
    Mix7Is(v3.w0, v3.w1, v3.w2, v3.w3);
    Inner(k, t, p, 8 * r + 7, v3);
  }

  lemma Inner(k: Key, t: Tweak, p: Four, d: nat, v: Four)
    requires d % 4 != 0 && Rounds(k, t, p, d) == v
    ensures Rounds(k, t, p, d + 1) == MixPermute(v, Rotations(d).0, Rotations(d).1)
  {
    hide MixPermute, Rotations, Rounds, Keyed;
    Skein256.Unfold(k, t, p, d);
  }

  // Words of the key and of the tweak, counted around
  function KeyAt(k: Key, i: nat): Word { k[i % 5] }
  function TweakAt(t: Tweak, i: nat): Word { t[i % 3] }

  // The injection before round 4 * j
  function Keying(v: Four, k: Key, t: Tweak, j: nat): Four {
    Injected(v.w0, v.w1, v.w2, v.w3, KeyAt(k, j), KeyAt(k, j + 1), KeyAt(k, j + 2), KeyAt(k, j + 3),
             TweakAt(t, j), TweakAt(t, j + 1), Num(j))
  }

  lemma KeyingIs(v: Four, k: Key, t: Tweak, j: nat)
    ensures Keyed(v, k, t, 4 * j) == Keying(v, k, t, j)
  {
    hide Plus, Num, Inject, Injected, Keyed;
    Skein256.KeyedAt(v, k, t, j);
    InjectedIs(v.w0, v.w1, v.w2, v.w3, k[j % 5], k[(j + 1) % 5], k[(j + 2) % 5], k[(j + 3) % 5],
               t[j % 3], t[(j + 1) % 3], Num(j));
  }

  lemma Numbers()
    ensures Num(0) == 0 && Num(1) == 1 && Num(2) == 2 && Num(3) == 3 && Num(4) == 4 && Num(5) == 5 && Num(6) == 6
    ensures Num(7) == 7 && Num(8) == 8 && Num(9) == 9 && Num(10) == 10 && Num(11) == 11 && Num(12) == 12
    ensures Num(13) == 13 && Num(14) == 14 && Num(15) == 15 && Num(16) == 16 && Num(17) == 17 && Num(18) == 18
    ensures Num(32) == 32
  {
    assert Num(20) == 20 && Num(22) == 22 && Num(24) == 24 && Num(26) == 26 && Num(28) == 28 && Num(30) == 30;
  }

  // ---------- The whole cipher ----------

  // Rounds 0 to 23, and the injection after them
  function Third0(v: Four, k: Key, t: Tweak): Four {
    var v1 := Keying(Turn0(v), k, t, 1);
    var v2 := Keying(Turn1(v1), k, t, 2);
    var v3 := Keying(Turn0(v2), k, t, 3);
    var v4 := Keying(Turn1(v3), k, t, 4);
    var v5 := Keying(Turn0(v4), k, t, 5);
    Keying(Turn1(v5), k, t, 6)
  }

  lemma Third0Is(k: Key, t: Tweak, p: Four)
    ensures Keyed(Rounds(k, t, p, 24), k, t, 24) == Third0(Keyed(Rounds(k, t, p, 0), k, t, 0), k, t)
  {
    hide Turn0, Turn1, Keying, Rounds, Keyed;
    Turn0Is(k, t, p, 0);
    KeyingIs(Rounds(k, t, p, 4), k, t, 1);
    Turn1Is(k, t, p, 0);
    KeyingIs(Rounds(k, t, p, 8), k, t, 2);
    Turn0Is(k, t, p, 1);
    KeyingIs(Rounds(k, t, p, 12), k, t, 3);
    Turn1Is(k, t, p, 1);
    KeyingIs(Rounds(k, t, p, 16), k, t, 4);
    Turn0Is(k, t, p, 2);
    KeyingIs(Rounds(k, t, p, 20), k, t, 5);
    Turn1Is(k, t, p, 2);
    KeyingIs(Rounds(k, t, p, 24), k, t, 6);
  }

  // Rounds 24 to 47, and the injection after them
  function Third1(v: Four, k: Key, t: Tweak): Four {
    var v7 := Keying(Turn0(v), k, t, 7);
    var v8 := Keying(Turn1(v7), k, t, 8);
    var v9 := Keying(Turn0(v8), k, t, 9);
    var v10 := Keying(Turn1(v9), k, t, 10);
    var v11 := Keying(Turn0(v10), k, t, 11);
    Keying(Turn1(v11), k, t, 12)
  }

  lemma Third1Is(k: Key, t: Tweak, p: Four)
    ensures Keyed(Rounds(k, t, p, 48), k, t, 48) == Third1(Keyed(Rounds(k, t, p, 24), k, t, 24), k, t)
  {
    hide Turn0, Turn1, Keying, Rounds, Keyed;
    Turn0Is(k, t, p, 3);
    KeyingIs(Rounds(k, t, p, 28), k, t, 7);
    Turn1Is(k, t, p, 3);
    KeyingIs(Rounds(k, t, p, 32), k, t, 8);
    Turn0Is(k, t, p, 4);
    KeyingIs(Rounds(k, t, p, 36), k, t, 9);
    Turn1Is(k, t, p, 4);
    KeyingIs(Rounds(k, t, p, 40), k, t, 10);
    Turn0Is(k, t, p, 5);
    KeyingIs(Rounds(k, t, p, 44), k, t, 11);
    Turn1Is(k, t, p, 5);
    KeyingIs(Rounds(k, t, p, 48), k, t, 12);
  }

  // Rounds 48 to 71, and the injection after them
  function Third2(v: Four, k: Key, t: Tweak): Four {
    var v13 := Keying(Turn0(v), k, t, 13);
    var v14 := Keying(Turn1(v13), k, t, 14);
    var v15 := Keying(Turn0(v14), k, t, 15);
    var v16 := Keying(Turn1(v15), k, t, 16);
    var v17 := Keying(Turn0(v16), k, t, 17);
    Keying(Turn1(v17), k, t, 18)
  }

  lemma Third2Is(k: Key, t: Tweak, p: Four)
    ensures Keyed(Rounds(k, t, p, 72), k, t, 72) == Third2(Keyed(Rounds(k, t, p, 48), k, t, 48), k, t)
  {
    hide Turn0, Turn1, Keying, Rounds, Keyed;
    Turn0Is(k, t, p, 6);
    KeyingIs(Rounds(k, t, p, 52), k, t, 13);
    Turn1Is(k, t, p, 6);
    KeyingIs(Rounds(k, t, p, 56), k, t, 14);
    Turn0Is(k, t, p, 7);
    KeyingIs(Rounds(k, t, p, 60), k, t, 15);
    Turn1Is(k, t, p, 7);
    KeyingIs(Rounds(k, t, p, 64), k, t, 16);
    Turn0Is(k, t, p, 8);
    KeyingIs(Rounds(k, t, p, 68), k, t, 17);
    Turn1Is(k, t, p, 8);
    KeyingIs(Rounds(k, t, p, 72), k, t, 18);
  }

  lemma CipherIs(k: Key, t: Tweak, p: Four)
    ensures Encrypt(k, t, p) == Third2(Third1(Third0(Keying(p, k, t, 0), k, t), k, t), k, t)
  {
    hide Third0, Third1, Third2, Keying, Rounds, Keyed;
    NoRounds(k, t, p);
    KeyingIs(p, k, t, 0);
    Third0Is(k, t, p);
    Third1Is(k, t, p);
    Third2Is(k, t, p);
  }

  lemma NoRounds(k: Key, t: Tweak, p: Four)
    ensures Rounds(k, t, p, 0) == p
  {
  }

  // The configuration block under the key zero
  const CONFIG_KEY: Key := [0x0, 0x0, 0x0, 0x0, 0x5555555555555555]
  const CONFIG_TWEAK: Tweak := [0x20, 0xC400000000000000, 0xC400000000000020]

  lemma ConfigWords()
    ensures KeyWords(Four(0, 0, 0, 0)) == CONFIG_KEY
    ensures TweakWords(0x20, 0xC400000000000000) == CONFIG_TWEAK
  {
  }

  lemma ConfigStart()
    ensures Keying(Four(0x133414853, 0x100, 0, 0), CONFIG_KEY, CONFIG_TWEAK, 0)
         == Four(0x133414853, 0x120, 0xC400000000000000, 0)
  {
    hide Num;
    Numbers();
  }

  lemma Config0()
    ensures Third0(Four(0x133414853, 0x120, 0xC400000000000000, 0), CONFIG_KEY, CONFIG_TWEAK)
         == Four(0xCFCF265D3F11B358, 0x26EE08B9A7A83692, 0xA1F06D13A83A868C, 0xE549DD50EEA62D3)
  {
    hide Num;
    Numbers();
  }

  lemma Config1()
    ensures Third1(Four(0xCFCF265D3F11B358, 0x26EE08B9A7A83692, 0xA1F06D13A83A868C, 0xE549DD50EEA62D3),
      CONFIG_KEY, CONFIG_TWEAK)
         == Four(0xF70A23645F8979AD, 0x45A350B8F976B528, 0x89D15C0CD2E22CF2, 0x175F485D2F21C6A0)
  {
    hide Num;
    Numbers();
  }

  lemma Config2()
    ensures Third2(Four(0xF70A23645F8979AD, 0x45A350B8F976B528, 0x89D15C0CD2E22CF2, 0x175F485D2F21C6A0),
      CONFIG_KEY, CONFIG_TWEAK)
         == Four(0x388512693D274815, 0x4B72D5DEC5A8FE01, 0x281A9298CA5EB3A5, 0x54CA5249F46070C4)
  {
    hide Num;
    Numbers();
  }

  lemma ConfigIs()
    ensures Encrypt(KeyWords(Four(0, 0, 0, 0)), TweakWords(0x20, 0xC400000000000000), Four(0x133414853, 0x100, 0, 0))
         == Four(0x388512693D274815, 0x4B72D5DEC5A8FE01, 0x281A9298CA5EB3A5, 0x54CA5249F46070C4)
  {
    hide KeyWords, TweakWords, Encrypt, Keying, Third0, Third1, Third2;
    ConfigWords();
    CipherIs(CONFIG_KEY, CONFIG_TWEAK, Four(0x133414853, 0x100, 0, 0));
    ConfigStart();
    Config0();
    Config1();
    Config2();
  }

  lemma ConfigFed()
    ensures XorFour(Four(0x388512693D274815, 0x4B72D5DEC5A8FE01, 0x281A9298CA5EB3A5, 0x54CA5249F46070C4),
      Four(0x133414853, 0x100, 0, 0))
         == Four(0x388512680E660046, 0x4B72D5DEC5A8FF01, 0x281A9298CA5EB3A5, 0x54CA5249F46070C4)
  {
  }

  // The message 0xFF under the initial chaining value
  const MESSAGE_KEY: Key :=
    [0x388512680E660046, 0x4B72D5DEC5A8FF01, 0x281A9298CA5EB3A5, 0x54CA5249F46070C4, 0x5A725232A0A56973]
  const MESSAGE_TWEAK: Tweak := [0x1, 0xF000000000000000, 0xF000000000000001]

  lemma MessageWords()
    ensures KeyWords(Four(0x388512680E660046, 0x4B72D5DEC5A8FF01, 0x281A9298CA5EB3A5, 0x54CA5249F46070C4))
      == MESSAGE_KEY
    ensures TweakWords(0x1, 0xF000000000000000) == MESSAGE_TWEAK
  {
  }

  lemma MessageStart()
    ensures Keying(Four(0xFF, 0, 0, 0), MESSAGE_KEY, MESSAGE_TWEAK, 0)
         == Four(0x388512680E660145, 0x4B72D5DEC5A8FF02, 0x181A9298CA5EB3A5, 0x54CA5249F46070C4)
  {
    hide Num;
    Numbers();
  }

  lemma Message0()
    ensures Third0(Four(0x388512680E660145, 0x4B72D5DEC5A8FF02, 0x181A9298CA5EB3A5, 0x54CA5249F46070C4),
      MESSAGE_KEY, MESSAGE_TWEAK)
         == Four(0xC3C6B1B0F2385F51, 0x2257CC32DC093352, 0xD723BEDA714D0BE3, 0x9489AFC7610395A4)
  {
    hide Num;
    Numbers();
  }

  lemma Message1()
    ensures Third1(Four(0xC3C6B1B0F2385F51, 0x2257CC32DC093352, 0xD723BEDA714D0BE3, 0x9489AFC7610395A4),
      MESSAGE_KEY, MESSAGE_TWEAK)
         == Four(0xC78D68A3F2B9DD8A, 0x548335A7B9FAFE79, 0xEC15BFB62978FEE, 0x3D6322D86B861687)
  {
    hide Num;
    Numbers();
  }

  lemma Message2()
    ensures Third2(Four(0xC78D68A3F2B9DD8A, 0x548335A7B9FAFE79, 0xEC15BFB62978FEE, 0x3D6322D86B861687),
      MESSAGE_KEY, MESSAGE_TWEAK)
         == Four(0xB9D8E6284D27B117, 0x617360F08FF578F4, 0xD2958D99E15BA5BB, 0x3762AC90787E1246)
  {
    hide Num;
    Numbers();
  }

  lemma MessageIs()
    ensures Encrypt(KeyWords(Four(0x388512680E660046, 0x4B72D5DEC5A8FF01, 0x281A9298CA5EB3A5, 0x54CA5249F46070C4)),
      TweakWords(0x1, 0xF000000000000000), Four(0xFF, 0, 0, 0))
         == Four(0xB9D8E6284D27B117, 0x617360F08FF578F4, 0xD2958D99E15BA5BB, 0x3762AC90787E1246)
  {
    hide KeyWords, TweakWords, Encrypt, Keying, Third0, Third1, Third2;
    MessageWords();
    CipherIs(MESSAGE_KEY, MESSAGE_TWEAK, Four(0xFF, 0, 0, 0));
    MessageStart();
    Message0();
    Message1();
    Message2();
  }

  lemma MessageFed()
    ensures XorFour(Four(0xB9D8E6284D27B117, 0x617360F08FF578F4, 0xD2958D99E15BA5BB, 0x3762AC90787E1246),
      Four(0xFF, 0, 0, 0))
         == Four(0xB9D8E6284D27B1E8, 0x617360F08FF578F4, 0xD2958D99E15BA5BB, 0x3762AC90787E1246)
  {
  }

  // The output block under the result of the message
  const OUTPUT_KEY: Key :=
    [0xB9D8E6284D27B1E8, 0x617360F08FF578F4, 0xD2958D99E15BA5BB, 0x3762AC90787E1246, 0x6809F2840EA22BB4]
  const OUTPUT_TWEAK: Tweak := [0x8, 0xFF00000000000000, 0xFF00000000000008]

  lemma OutputWords()
    ensures KeyWords(Four(0xB9D8E6284D27B1E8, 0x617360F08FF578F4, 0xD2958D99E15BA5BB, 0x3762AC90787E1246))
      == OUTPUT_KEY
    ensures TweakWords(0x8, 0xFF00000000000000) == OUTPUT_TWEAK
  {
  }

  lemma OutputStart()
    ensures Keying(Four(0, 0, 0, 0), OUTPUT_KEY, OUTPUT_TWEAK, 0)
         == Four(0xB9D8E6284D27B1E8, 0x617360F08FF578FC, 0xD1958D99E15BA5BB, 0x3762AC90787E1246)
  {
    hide Num;
    Numbers();
  }

  lemma Output0()
    ensures Third0(Four(0xB9D8E6284D27B1E8, 0x617360F08FF578FC, 0xD1958D99E15BA5BB, 0x3762AC90787E1246),
      OUTPUT_KEY, OUTPUT_TWEAK)
         == Four(0xA9E3EFA2519A9C2E, 0x239B71AF83473F7C, 0x2D65826B413F76FE, 0x872975A04D58D4D3)
  {
    hide Num;
    Numbers();
  }

  lemma Output1()
    ensures Third1(Four(0xA9E3EFA2519A9C2E, 0x239B71AF83473F7C, 0x2D65826B413F76FE, 0x872975A04D58D4D3),
      OUTPUT_KEY, OUTPUT_TWEAK)
         == Four(0xFDEB95D2AD190FD5, 0xE5B18BAB501F6D56, 0x48B7FCB4BF96A174, 0x89B1FC52BCEC64C7)
  {
    hide Num;
    Numbers();
  }

  lemma Output2()
    ensures Third2(Four(0xFDEB95D2AD190FD5, 0xE5B18BAB501F6D56, 0x48B7FCB4BF96A174, 0x89B1FC52BCEC64C7),
      OUTPUT_KEY, OUTPUT_TWEAK)
         == Four(0xAFA05B181AE77BA4, 0x5AD3A345E83C0B82, 0x366A0D6AF964EC80, 0x91A0D8243636F5E3)
  {
    hide Num;
    Numbers();
  }

  lemma OutputIs()
    ensures Encrypt(KeyWords(Four(0xB9D8E6284D27B1E8, 0x617360F08FF578F4, 0xD2958D99E15BA5BB, 0x3762AC90787E1246)),
      TweakWords(0x8, 0xFF00000000000000), Four(0, 0, 0, 0))
         == Four(0xAFA05B181AE77BA4, 0x5AD3A345E83C0B82, 0x366A0D6AF964EC80, 0x91A0D8243636F5E3)
  {
    hide KeyWords, TweakWords, Encrypt, Keying, Third0, Third1, Third2;
    OutputWords();
    CipherIs(OUTPUT_KEY, OUTPUT_TWEAK, Four(0, 0, 0, 0));
    OutputStart();
    Output0();
    Output1();
    Output2();
  }

  lemma OutputFed()
    ensures XorFour(Four(0xAFA05B181AE77BA4, 0x5AD3A345E83C0B82, 0x366A0D6AF964EC80, 0x91A0D8243636F5E3),
      Four(0, 0, 0, 0))
         == Four(0xAFA05B181AE77BA4, 0x5AD3A345E83C0B82, 0x366A0D6AF964EC80, 0x91A0D8243636F5E3)
  {
  }

  // ---------- The chaining values ----------

  lemma TypeFlags()
    ensures Flags(Cfg, true, true) == 0xC400000000000000 && Flags(Msg, true, true) == 0xF000000000000000
    ensures Flags(Out, true, true) == 0xFF00000000000000
  {
  }

  // UBI on a single block
  lemma UbiOne(g: Four, ty: BlockType, m: seq<Byte>, p: Four, c: Four, x: Four, n: Word, f: Word)
    requires |m| <= 32 && WordsOf(Pad(m)) == p && Num(|m|) == n && Flags(ty, true, true) == f
    requires Encrypt(KeyWords(g), TweakWords(n, f), p) == c && XorFour(c, p) == x
    ensures Ubi(g, ty, m) == x
  {
    hide Encrypt, KeyWords, TweakWords, XorFour, WordsOf, Pad, Num, Flags;
    assert m[0..] == m;
  }

  // SHA3, version 1, 256 bits of output, no tree
  const CONFIGURATION: seq<Byte> := [0x53, 0x48, 0x41, 0x33, 1, 0, 0, 0, 0, 1, 0, 0, 0, 0, 0, 0] + seq(16, _ => 0)

  lemma ConfigurationWords()
    ensures |CONFIGURATION| == 32 && WordsOf(Pad(CONFIGURATION)) == Four(0x133414853, 0x100, 0, 0)
  {
    hide Word64;
    Words64();
    var b := Pad(CONFIGURATION);
    assert b[..8] == [0x53, 0x48, 0x41, 0x33, 1, 0, 0, 0];
    assert b[8..16] == [0, 1, 0, 0, 0, 0, 0, 0];
    assert b[16..24] == [0, 0, 0, 0, 0, 0, 0, 0] && b[24..] == [0, 0, 0, 0, 0, 0, 0, 0];
  }

  lemma Words64()
    ensures Word64([0x53, 0x48, 0x41, 0x33, 1, 0, 0, 0]) == 0x133414853
    ensures Word64([0, 1, 0, 0, 0, 0, 0, 0]) == 0x100 && Word64([0, 0, 0, 0, 0, 0, 0, 0]) == 0
    ensures Word64([0xFF, 0, 0, 0, 0, 0, 0, 0]) == 0xFF
  {
  }

  // The stored start value is the result of its configuration block.
  lemma StartValue()
    ensures Ubi(Four(0, 0, 0, 0), Cfg, CONFIGURATION)
         == Four(0x388512680E660046, 0x4B72D5DEC5A8FF01, 0x281A9298CA5EB3A5, 0x54CA5249F46070C4)
    ensures Skein256.IV_256 == Four(0x388512680E660046, 0x4B72D5DEC5A8FF01, 0x281A9298CA5EB3A5, 0x54CA5249F46070C4)
  {
    hide Encrypt, KeyWords, TweakWords, XorFour, WordsOf, Pad, Num, Flags, Ubi;
    ConfigurationWords();
    Numbers();
    TypeFlags();
    ConfigIs();
    ConfigFed();
    UbiOne(Four(0, 0, 0, 0), Cfg, CONFIGURATION, Four(0x133414853, 0x100, 0, 0),
           Four(0x388512693D274815, 0x4B72D5DEC5A8FE01, 0x281A9298CA5EB3A5, 0x54CA5249F46070C4),
           Four(0x388512680E660046, 0x4B72D5DEC5A8FF01, 0x281A9298CA5EB3A5, 0x54CA5249F46070C4),
             0x20, 0xC400000000000000);
  }

  lemma MessageBlock()
    ensures Ubi(Four(0x388512680E660046, 0x4B72D5DEC5A8FF01, 0x281A9298CA5EB3A5, 0x54CA5249F46070C4), Msg, [0xFF])
         == Four(0xB9D8E6284D27B1E8, 0x617360F08FF578F4, 0xD2958D99E15BA5BB, 0x3762AC90787E1246)
  {
    hide Encrypt, KeyWords, TweakWords, XorFour, WordsOf, Pad, Num, Flags, Ubi;
    MessageBytes();
    Numbers();
    TypeFlags();
    MessageIs();
    MessageFed();
    UbiOne(Four(0x388512680E660046, 0x4B72D5DEC5A8FF01, 0x281A9298CA5EB3A5, 0x54CA5249F46070C4), Msg, [0xFF],
      Four(0xFF, 0, 0, 0),
           Four(0xB9D8E6284D27B117, 0x617360F08FF578F4, 0xD2958D99E15BA5BB, 0x3762AC90787E1246),
           Four(0xB9D8E6284D27B1E8, 0x617360F08FF578F4, 0xD2958D99E15BA5BB, 0x3762AC90787E1246),
             1, 0xF000000000000000);
  }

  lemma MessageBytes()
    ensures WordsOf(Pad([0xFF])) == Four(0xFF, 0, 0, 0)
  {
    hide Word64;
    Words64();
    var b := Pad([0xFF]);
    assert b[..8] == [0xFF, 0, 0, 0, 0, 0, 0, 0] && b[8..16] == [0, 0, 0, 0, 0, 0, 0, 0];
    assert b[16..24] == [0, 0, 0, 0, 0, 0, 0, 0] && b[24..] == [0, 0, 0, 0, 0, 0, 0, 0];
  }

  lemma OutputBlock()
    ensures Ubi(Four(0xB9D8E6284D27B1E8, 0x617360F08FF578F4, 0xD2958D99E15BA5BB, 0x3762AC90787E1246),
      Out, [0, 0, 0, 0, 0, 0, 0, 0])
         == Four(0xAFA05B181AE77BA4, 0x5AD3A345E83C0B82, 0x366A0D6AF964EC80, 0x91A0D8243636F5E3)
  {
    hide Encrypt, KeyWords, TweakWords, XorFour, WordsOf, Pad, Num, Flags, Ubi;
    OutputBytes();
    Numbers();
    TypeFlags();
    OutputIs();
    OutputFed();
    UbiOne(Four(0xB9D8E6284D27B1E8, 0x617360F08FF578F4, 0xD2958D99E15BA5BB, 0x3762AC90787E1246),
      Out, [0, 0, 0, 0, 0, 0, 0, 0], Four(0, 0, 0, 0),
           Four(0xAFA05B181AE77BA4, 0x5AD3A345E83C0B82, 0x366A0D6AF964EC80, 0x91A0D8243636F5E3),
           Four(0xAFA05B181AE77BA4, 0x5AD3A345E83C0B82, 0x366A0D6AF964EC80, 0x91A0D8243636F5E3),
             8, 0xFF00000000000000);
  }

  lemma OutputBytes()
    ensures WordsOf(Pad([0, 0, 0, 0, 0, 0, 0, 0])) == Four(0, 0, 0, 0)
  {
    hide Word64;
    Words64();
    var b := Pad([0, 0, 0, 0, 0, 0, 0, 0]);
    assert b[..8] == [0, 0, 0, 0, 0, 0, 0, 0] && b[8..16] == [0, 0, 0, 0, 0, 0, 0, 0];
    assert b[16..24] == [0, 0, 0, 0, 0, 0, 0, 0] && b[24..] == [0, 0, 0, 0, 0, 0, 0, 0];
  }

  // ---------- The hash ----------

  const HASH: seq<Byte> := [
    0xA4, 0x7B, 0xE7, 0x1A, 0x18, 0x5B, 0xA0, 0xAF, 0x82, 0xB, 0x3C, 0xE8, 0x45, 0xA3, 0xD3, 0x5A,
    0x80, 0xEC, 0x64, 0xF9, 0x6A, 0xD, 0x6A, 0x36, 0xE3, 0xF5, 0x36, 0x36, 0x24, 0xD8, 0xA0, 0x91]

  lemma HashBytes()
    ensures Bytes64(0) == [0, 0, 0, 0, 0, 0, 0, 0]
    ensures Bytes64(0xAFA05B181AE77BA4) == [0xA4, 0x7B, 0xE7, 0x1A, 0x18, 0x5B, 0xA0, 0xAF]
    ensures Bytes64(0x5AD3A345E83C0B82) == [0x82, 0xB, 0x3C, 0xE8, 0x45, 0xA3, 0xD3, 0x5A]
    ensures Bytes64(0x366A0D6AF964EC80) == [0x80, 0xEC, 0x64, 0xF9, 0x6A, 0xD, 0x6A, 0x36]
    ensures Bytes64(0x91A0D8243636F5E3) == [0xE3, 0xF5, 0x36, 0x36, 0x24, 0xD8, 0xA0, 0x91]
  {
  }

  lemma HashBlock()
    ensures OutBlock(Four(0xB9D8E6284D27B1E8, 0x617360F08FF578F4, 0xD2958D99E15BA5BB, 0x3762AC90787E1246), 0) == HASH
  {
    hide Ubi, Bytes64, Num;
    Numbers();
    HashBytes();
    OutputBlock();
  }

  lemma HashIs()
    ensures Digest(Skein256.IV_256, [0xFF], 256) == HASH
  {
    hide Ubi, OutBlock;
    MessageBlock();
    HashBlock();
  }

  // lhi_hash_skein256 of the byte 0xFF
  method Answers() returns (hash: seq<Byte>)
    ensures hash == [0xA4, 0x7B, 0xE7, 0x1A]
  {
    hide Digest;
    hash := Skein256.HashSkein([0xFF]);
    HashIs();
  }
}
