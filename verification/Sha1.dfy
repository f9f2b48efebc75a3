// lib/hash_func_sha1.c: SHA-1 with a circular schedule of 16 words, renamed
// registers and buffered input.

module Sha1 {
  import opened Counters
  import opened Sha1Spec
  import Words

  // unsigned long with 64 bits; only its low half means anything.
  type ULong = bv64

  function Low(x: ULong): Word { (x & 0xFFFFFFFF) as bv32 }

  // ---------- 64-bit operations and their low halves ----------

  // The macro S
  function S1(x: ULong): ULong { (x << 1) | ((x & 0xFFFFFFFF) >> 31) }
  function S5(x: ULong): ULong { (x << 5) | ((x & 0xFFFFFFFF) >> 27) }
  function S30(x: ULong): ULong { (x << 30) | ((x & 0xFFFFFFFF) >> 2) }

  // The macros F and K of the four stages
  function F64(t: nat, x: ULong, y: ULong, z: ULong): ULong {
    if t < 20 then z ^ (x & (y ^ z))
    else if t < 40 then x ^ y ^ z
    else if t < 60 then (x & y) | (z & (x | y))
    else x ^ y ^ z
  }

  function K64(t: nat): ULong {
    if t < 20 then 0x5A827999 else if t < 40 then 0x6ED9EBA1 else if t < 60 then 0x8F1BBCDC else 0xCA62C1D6
  }

  lemma LowRot1Raw(x: bv64)
    ensures (((x << 1) | ((x & 0xFFFFFFFF) >> 31)) & 0xFFFFFFFF) as bv32
         == (((x & 0xFFFFFFFF) as bv32) << 1) | (((x & 0xFFFFFFFF) as bv32) >> 31)
  {
  }

  lemma LowRot5Raw(x: bv64)
    ensures (((x << 5) | ((x & 0xFFFFFFFF) >> 27)) & 0xFFFFFFFF) as bv32
         == (((x & 0xFFFFFFFF) as bv32) << 5) | (((x & 0xFFFFFFFF) as bv32) >> 27)
  {
  }

  lemma LowRot30Raw(x: bv64)
    ensures (((x << 30) | ((x & 0xFFFFFFFF) >> 2)) & 0xFFFFFFFF) as bv32
         == (((x & 0xFFFFFFFF) as bv32) << 30) | (((x & 0xFFFFFFFF) as bv32) >> 2)
  {
  }

  lemma LowRot(x: ULong)
    ensures Low(S1(x)) == Rot1(Low(x)) && Low(S5(x)) == Rot5(Low(x)) && Low(S30(x)) == Rot30(Low(x))
  {
    LowRot1Raw(x);
    LowRot5Raw(x);
    LowRot30Raw(x);
  }

  lemma ChooseRaw(x: bv64, y: bv64, z: bv64)
    ensures ((z ^ (x & (y ^ z))) & 0xFFFFFFFF) as bv32
         == (((x & 0xFFFFFFFF) as bv32) & ((y & 0xFFFFFFFF) as bv32))
          | (!((x & 0xFFFFFFFF) as bv32) & ((z & 0xFFFFFFFF) as bv32))
  {
  }

  lemma ParityRaw(x: bv64, y: bv64, z: bv64)
    ensures ((x ^ y ^ z) & 0xFFFFFFFF) as bv32
         == ((x & 0xFFFFFFFF) as bv32) ^ ((y & 0xFFFFFFFF) as bv32) ^ ((z & 0xFFFFFFFF) as bv32)
  {
  }

  lemma MajorityRaw(x: bv64, y: bv64, z: bv64)
    ensures (((x & y) | (z & (x | y))) & 0xFFFFFFFF) as bv32
         == (((x & 0xFFFFFFFF) as bv32) & ((y & 0xFFFFFFFF) as bv32))
          | (((x & 0xFFFFFFFF) as bv32) & ((z & 0xFFFFFFFF) as bv32))
          | (((y & 0xFFFFFFFF) as bv32) & ((z & 0xFFFFFFFF) as bv32))
  {
  }

  lemma LowChoose(x: ULong, y: ULong, z: ULong)
    ensures Low(z ^ (x & (y ^ z))) == (Low(x) & Low(y)) | (!Low(x) & Low(z))
  {
    ChooseRaw(x, y, z);
  }

  lemma LowParity(x: ULong, y: ULong, z: ULong)
    ensures Low(x ^ y ^ z) == Low(x) ^ Low(y) ^ Low(z)
  {
    ParityRaw(x, y, z);
  }

  lemma LowMajority(x: ULong, y: ULong, z: ULong)
    ensures Low((x & y) | (z & (x | y))) == (Low(x) & Low(y)) | (Low(x) & Low(z)) | (Low(y) & Low(z))
  {
    MajorityRaw(x, y, z);
  }

  // The rewritten round functions agree with the standard's on the low half.
  lemma LowF(t: nat, x: ULong, y: ULong, z: ULong)
    ensures Low(F64(t, x, y, z)) == F(t, Low(x), Low(y), Low(z))
  {
    hide Low;
    LowChoose(x, y, z);
    LowParity(x, y, z);
    LowMajority(x, y, z);
  }

  // The exclusive or of the schedule.
  lemma LowXor4Raw(p: bv64, q: bv64, r: bv64, s: bv64)
    ensures ((p ^ q ^ r ^ s) & 0xFFFFFFFF) as bv32
         == ((p & 0xFFFFFFFF) as bv32) ^ ((q & 0xFFFFFFFF) as bv32)
          ^ ((r & 0xFFFFFFFF) as bv32) ^ ((s & 0xFFFFFFFF) as bv32)
  {
  }

  function Mix(p: ULong, q: ULong, r: ULong, s: ULong): ULong { p ^ q ^ r ^ s }

  lemma LowMix(p: ULong, q: ULong, r: ULong, s: ULong)
    ensures Low(Mix(p, q, r, s)) == Xor4(Low(p), Low(q), Low(r), Low(s))
  {
    LowXor4Raw(p, q, r, s);
  }

  // The macro GET_ULONG_BE
  function GetBE(b0: Byte, b1: Byte, b2: Byte, b3: Byte): ULong {
    ((b0 as bv64) << 24) | ((b1 as bv64) << 16) | ((b2 as bv64) << 8) | (b3 as bv64)
  }

  lemma LowGetRaw(b0: Byte, b1: Byte, b2: Byte, b3: Byte)
    ensures ((((b0 as bv64) << 24) | ((b1 as bv64) << 16) | ((b2 as bv64) << 8) | (b3 as bv64)) & 0xFFFFFFFF) as bv32
         == ((b0 as bv32) << 24) | ((b1 as bv32) << 16) | ((b2 as bv32) << 8) | (b3 as bv32)
  {
  }

  lemma LowGet(b0: Byte, b1: Byte, b2: Byte, b3: Byte)
    ensures Low(GetBE(b0, b1, b2, b3)) == BigEndian(b0, b1, b2, b3)
  {
    LowGetRaw(b0, b1, b2, b3);
  }

  // ---------- sha1_process ----------

  // The five registers in the roles a, b, c, d, e hold the state after t rounds.
  ghost predicate At(m: Block, h: Regs, t: nat, a: ULong, b: ULong, c: ULong, d: ULong, e: ULong) {
    Regs(Low(a), Low(b), Low(c), Low(d), Low(e)) == Rounds(m, h, t)
  }

  // The macro P: it updates the registers in the roles e and b, and the next
  // line names the five registers one role further on.
  method P(ghost m: Block, ghost h: Regs, t: nat, a: ULong, b: ULong, c: ULong, d: ULong, e: ULong, x: ULong)
    returns (e': ULong, b': ULong)
    requires At(m, h, t, a, b, c, d, e) && Low(x) == Schedule(m, t)
    ensures At(m, h, t + 1, e', a, b', c, d)
  {
    hide Low, Temp, NextE, Rot30, S30, Schedule;
    e' := NextE(t, a, b, c, d, e, x);
    b' := S30(b);
    LowRot(b);
    LowNext(t, a, b, c, d, e, x);
  }

  function NextE(t: nat, a: ULong, b: ULong, c: ULong, d: ULong, e: ULong, x: ULong): ULong {
    Sum64(e, S5(a), F64(t, b, c, d), K64(t), x)
  }

  function Sum64(e: ULong, s: ULong, f: ULong, k: ULong, w: ULong): ULong { e + (s + f + k + w) }

  lemma LowNext(t: nat, a: ULong, b: ULong, c: ULong, d: ULong, e: ULong, x: ULong)
    ensures Low(NextE(t, a, b, c, d, e, x)) == Temp(Regs(Low(a), Low(b), Low(c), Low(d), Low(e)), t, Low(x))
  {
    hide Low, Rot5, S5, K64, K, F64, F, Sum, Sum64;
    LowRot(a);
    LowF(t, b, c, d);
    LowK(t);
    LowSum(e, S5(a), F64(t, b, c, d), K64(t), x);
  }

  lemma LowIs(x: ULong)
    ensures Low(x) == (x & 0xFFFFFFFF) as bv32
  {
  }

  lemma LowSumRaw(e: bv64, s: bv64, f: bv64, k: bv64, w: bv64)
    ensures Low(e + (s + f + k + w))
         == Sum((s & 0xFFFFFFFF) as bv32, (f & 0xFFFFFFFF) as bv32, (e & 0xFFFFFFFF) as bv32,
                (w & 0xFFFFFFFF) as bv32, (k & 0xFFFFFFFF) as bv32)
  {
  }

  lemma LowSum(e: ULong, s: ULong, f: ULong, k: ULong, w: ULong)
    ensures Low(Sum64(e, s, f, k, w)) == Sum(Low(s), Low(f), Low(e), Low(w), Low(k))
  {
    hide Low, Sum;
    LowSumRaw(e, s, f, k, w);
    LowIs(e);
    LowIs(s);
    LowIs(f);
    LowIs(w);
    LowIs(k);
  }

  lemma LowK(t: nat)
    ensures Low(K64(t)) == K(t)
  {
  }

  // The sixteen words that precede word hi of the schedule, each at its own
  // place modulo 16.
  ghost predicate Window(m: Block, w: seq<ULong>, hi: nat) {
    |w| == 16 && hi >= 16 && forall k {:trigger Schedule(m, k)} :: hi - 16 <= k < hi ==> Low(w[k % 16]) == Schedule(m, k)
  }

  function Mixed(w: seq<ULong>, t: nat): ULong
    requires |w| == 16 && t >= 16
  {
    S1(Mix(w[(t - 3) % 16], w[(t - 8) % 16], w[(t - 14) % 16], w[t % 16]))
  }

  lemma SlideWord(m: Block, w: seq<ULong>, t: nat)
    requires Window(m, w, t)
    ensures Low(Mixed(w, t)) == Schedule(m, t)
  {
    hide Low, Rot1, S1, Mix, Xor4;
    var p, q, r, s := w[(t - 3) % 16], w[(t - 8) % 16], w[(t - 14) % 16], w[t % 16];
    assert t % 16 == (t - 16) % 16;
    LowMix(p, q, r, s);
    LowRot(Mix(p, q, r, s));
    assert Low(p) == Schedule(m, t - 3) && Low(q) == Schedule(m, t - 8);
    assert Low(r) == Schedule(m, t - 14) && Low(s) == Schedule(m, t - 16);
  }

  // The macro R replaces the oldest word by the next one.
  lemma Slide(m: Block, w: seq<ULong>, t: nat)
    requires Window(m, w, t)
    ensures Low(Mixed(w, t)) == Schedule(m, t)
    ensures Window(m, w[t % 16 := Mixed(w, t)], t + 1)
  {
    hide Low, Mixed, Schedule;
    SlideWord(m, w, t);
    var u := w[t % 16 := Mixed(w, t)];
    forall k {:trigger Schedule(m, k)} | t + 1 - 16 <= k < t + 1 ensures Low(u[k % 16]) == Schedule(m, k) {
      if k < t {
        OtherPlace(k, t);
      }
    }
  }

  lemma OtherPlace(k: nat, t: nat)
    requires k < t < k + 16
    ensures k % 16 != t % 16
  {
  }

  // The sixteen words of the block.
  lemma FirstWindow(m: Block, w: seq<ULong>)
    requires |w| == 16
    requires forall k :: 0 <= k < 16 ==> w[k] == GetBE(m[4 * k], m[4 * k + 1], m[4 * k + 2], m[4 * k + 3])
    ensures Window(m, w, 16)
  {
    hide Low, GetBE, BigEndian;
    forall k {:trigger Schedule(m, k)} | 0 <= k < 16 ensures Low(w[k % 16]) == Schedule(m, k) {
      LowGet(m[4 * k], m[4 * k + 1], m[4 * k + 2], m[4 * k + 3]);
    }
  }

  // The word that line t of the eighty P lines takes: W[t] as loaded, or R(t).
  method WordAt(ghost m: Block, w: array<ULong>, t: nat) returns (x: ULong)
    requires t < 80 && Window(m, w[..], if t < 16 then 16 else t)
    modifies w
    ensures Low(x) == Schedule(m, t)
    ensures Window(m, w[..], if t + 1 < 16 then 16 else t + 1)
  {
    hide Low, S1, Mix, Schedule, Mixed;
    if t < 16 {
      x := w[t];
      assert t % 16 == t;
    } else {
      ghost var was := w[..];
      Slide(m, was, t);
      var temp := Mix(w[(t - 3) % 16], w[(t - 8) % 16], w[(t - 14) % 16], w[t % 16]);
      x := S1(temp);
      assert x == Mixed(was, t) by { MixedIs(was, t); }
      w[t % 16] := x;
      assert w[..] == was[t % 16 := Mixed(was, t)];
    }
  }

  lemma MixedIs(w: seq<ULong>, t: nat)
    requires |w| == 16 && t >= 16
    ensures Mixed(w, t) == S1(Mix(w[(t - 3) % 16], w[(t - 8) % 16], w[(t - 14) % 16], w[t % 16]))
  {
    hide Mix, S1;
  }

  // Loading a state word into a register, and adding a register to it.
  function Wide(s: Word): ULong { s as bv64 }
  function AddInto(s: Word, x: ULong): Word { Low((s as bv64) + x) }

  lemma LowWide(s: Word)
    ensures Low(Wide(s)) == s
  {
  }

  lemma AddIntoRaw(s: Word, x: bv64)
    ensures Low((s as bv64) + x) == Plus(s, (x & 0xFFFFFFFF) as bv32)
  {
  }

  lemma LowAddInto(s: Word, x: ULong)
    ensures AddInto(s, x) == Plus(s, Low(x))
  {
    hide Low, Plus;
    AddIntoRaw(s, x);
    LowIs(x);
  }

  // The eighty P lines, five at a time.
  method Lines(ghost m: Block, ghost h: Regs, w: array<ULong>, a0: ULong, b0: ULong, c0: ULong, d0: ULong, e0: ULong)
    returns (a: ULong, b: ULong, c: ULong, d: ULong, e: ULong)
    requires Window(m, w[..], 16) && At(m, h, 0, a0, b0, c0, d0, e0)
    modifies w
    ensures At(m, h, 80, a, b, c, d, e)
  {
    hide *;
    a, b, c, d, e := a0, b0, c0, d0, e0;
    var t := 0;
    while t < 80
      invariant t <= 80 && t % 5 == 0
      invariant At(m, h, t, a, b, c, d, e)
      invariant Window(m, w[..], if t < 16 then 16 else t)
    {
      var x := WordAt(m, w, t);
      e, b := P(m, h, t, a, b, c, d, e, x);
      x := WordAt(m, w, t + 1);
      d, a := P(m, h, t + 1, e, a, b, c, d, x);
      x := WordAt(m, w, t + 2);
      c, e := P(m, h, t + 2, d, e, a, b, c, x);
      x := WordAt(m, w, t + 3);
      b, d := P(m, h, t + 3, c, d, e, a, b, x);
      x := WordAt(m, w, t + 4);
      a, c := P(m, h, t + 4, b, c, d, e, a, x);
      t := t + 5;
    }
  }

  // ---------- Buffered input ----------

  function Whole(n: nat): (q: nat)
    ensures q <= n < q + 64 && q % 64 == 0
  {
    64 * (n / 64)
  }

  lemma WholeIs(n: nat, q: nat)
    requires q <= n < q + 64 && q % 64 == 0
    ensures Whole(n) == q
  {
  }

  lemma FoldBlock(p: seq<Byte>, b: Block)
    requires |p| % 64 == 0
    ensures Fold(p + b) == Compress(Fold(p), b)
  {
    hide Compress;
    assert (p + b)[..|p + b| - 64] == p && (p + b)[|p + b| - 64..] == b;
  }

  // The two totals hold the length modulo 2 to the 64.
  ghost predicate Counts(total0: nat, total1: nat, n: nat) {
    total0 == n % WORD && total1 == n / WORD % WORD
  }

  lemma Carry(total0: nat, total1: nat, n: nat, k: nat)
    requires Counts(total0, total1, n) && k < WORD
    ensures var t := (total0 + k) % WORD;
            Counts(t, if t < k then (total1 + 1) % WORD else total1, n + k)
  {
    var q := n / WORD;
    assert n == q * WORD + total0;
    if total0 + k < WORD {
      assert (n + k) / WORD == q && (n + k) % WORD == total0 + k;
    } else {
      assert n + k == (q + 1) * WORD + (total0 + k - WORD);
      assert (n + k) / WORD == q + 1 && (n + k) % WORD == total0 + k - WORD;
      assert (total0 + k) % WORD == total0 + k - WORD;
    }
  }

  class Context {
    // total[0] and total[1], each of 32 bits
    var total0: nat
    var total1: nat
    const state: array<Word>
    const buffer: array<Byte>
    // The bytes given to sha1_update so far
    ghost var msg: seq<Byte>

    ghost predicate Shaped() {
      state.Length == 5 && buffer.Length == 64
    }

    ghost function Hash(): Regs
      requires Shaped()
      reads state
    {
      Regs(state[0], state[1], state[2], state[3], state[4])
    }

    method Process(data: Block)
      requires Shaped()
      modifies state
      ensures Hash() == Compress(old(Hash()), data)
    {
      hide Low, GetBE, Wide, AddInto, Plus, Schedule;
      var w := new ULong[16](i requires 0 <= i < 16 =>
        GetBE(data[4 * i], data[4 * i + 1], data[4 * i + 2], data[4 * i + 3]));
      FirstWindow(data, w[..]);
      ghost var h := Hash();
      var a, b, c, d, e := Wide(state[0]), Wide(state[1]), Wide(state[2]), Wide(state[3]), Wide(state[4]);
      LowWide(state[0]);
      LowWide(state[1]);
      LowWide(state[2]);
      LowWide(state[3]);
      LowWide(state[4]);
      a, b, c, d, e := Lines(data, h, w, a, b, c, d, e);
      LowAddInto(state[0], a);
      LowAddInto(state[1], b);
      LowAddInto(state[2], c);
      LowAddInto(state[3], d);
      LowAddInto(state[4], e);
      state[0] := AddInto(state[0], a);
      state[1] := AddInto(state[1], b);
      state[2] := AddInto(state[2], c);
      state[3] := AddInto(state[3], d);
      state[4] := AddInto(state[4], e);
    }

    ghost predicate Valid()
      reads this, state, buffer
    {
      && Shaped()
      && Counts(total0, total1, |msg|)
      && Absorbed(msg)
    }

    // sha1_starts
    constructor ()
      ensures Valid() && fresh(state) && fresh(buffer) && msg == []
    {
      state := new Word[5] [0x67452301, 0xEFCDAB89, 0x98BADCFE, 0x10325476, 0xC3D2E1F0];
      buffer := new Byte[64];
      total0, total1, msg := 0, 0, [];
    }

    // Of the first n bytes of m, h are in the state and the others in the buffer.
    ghost predicate Pending(m: seq<Byte>, h: nat, n: nat)
      requires Shaped()
      reads state, buffer
    {
      && h % 64 == 0 && h <= n < h + 64 && n <= |m|
      && Hash() == Fold(m[..h]) && buffer[..n - h] == m[h..n]
    }

    ghost predicate Absorbed(m: seq<Byte>)
      requires Shaped()
      reads state, buffer
    {
      Pending(m, Whole(|m|), |m|)
    }

    // Completes the block that was started, and processes it.
    method TopUp(input: seq<Byte>, left: nat, ghost was: seq<Byte>)
      requires Shaped() && 0 < left <= |was| && 64 - left <= |input|
      requires Pending(was, |was| - left, |was|)
      modifies state, buffer
      ensures Pending(was + input, |was| + 64 - left, |was| + 64 - left)
    {
      hide Fold, Compress;
      forall i | 0 <= i < 64 - left {
        buffer[left + i] := input[i];
      }
      Join(was, input, 64 - left, buffer[..]);
      FoldBlock(was[..|was| - left], buffer[..]);
      Process(buffer[..]);
    }

    // One whole block of the input.
    method OneBlock(input: seq<Byte>, at: nat, ghost was: seq<Byte>)
      requires Shaped() && at + 64 <= |input| && Pending(was + input, |was| + at, |was| + at)
      modifies state
      ensures Pending(was + input, |was| + at + 64, |was| + at + 64)
    {
      hide Fold, Compress;
      FoldBlock((was + input)[..|was| + at], input[at..at + 64]);
      assert (was + input)[..|was| + at] + input[at..at + 64] == (was + input)[..|was| + at + 64];
      Process(input[at..at + 64]);
    }

    // Keeps the bytes that do not fill a block.
    method Keep(input: seq<Byte>, at: nat, left: nat, ghost was: seq<Byte>)
      requires Shaped() && at <= |input| && left <= |was| + at && left + |input| - at < 64
      requires Pending(was + input, |was| + at - left, |was| + at)
      modifies buffer
      ensures Absorbed(was + input)
    {
      hide Fold, Hash;
      if at < |input| {
        forall i | 0 <= i < |input| - at {
          buffer[left + i] := input[at + i];
        }
      }
      Kept(was, input, at, left, buffer[..]);
    }

    // The body of sha1_update after the totals: left bytes are in the buffer.
    method Absorb(input: seq<Byte>, left0: nat, ghost was: seq<Byte>)
      requires Shaped() && left0 == |was| % 64 && Absorbed(was)
      modifies state, buffer
      ensures Absorbed(was + input)
    {
      hide *;
      var at, left := 0, left0;
      Opened(input, left, was);
      if left > 0 && |input| >= 64 - left {
        TopUp(input, left, was);
        at := 64 - left;
        left := 0;
      }
      while |input| - at >= 64
        invariant at <= |input| && left <= |was| + at && (left > 0 ==> left + |input| - at < 64)
        invariant Pending(was + input, |was| + at - left, |was| + at)
      {
        OneBlock(input, at, was);
        at := at + 64;
      }
      Keep(input, at, left, was);
    }

    lemma Opened(input: seq<Byte>, left: nat, was: seq<Byte>)
      requires Shaped() && left == |was| % 64 && Absorbed(was)
      ensures left <= |was| && Pending(was, |was| - left, |was|) && Pending(was + input, |was| - left, |was|)
    {
      assert (was + input)[..|was| - left] == was[..|was| - left];
    }

    // Adds to the totals, with a carry out of the first one.
    method AddLength(ilen: nat, ghost n: nat)
      requires Counts(total0, total1, n) && ilen < WORD
      modifies `total0, `total1
      ensures Counts(total0, total1, n + ilen)
    {
      hide Counts;
      Carry(total0, total1, n, ilen);
      total0 := (total0 + ilen) % WORD;
      if total0 < ilen {
        total1 := (total1 + 1) % WORD;
      }
    }

    // sha1_update: ilen is an int, and a count that is not positive adds nothing.
    method Update(input: seq<Byte>, ilen: int)
      requires Valid() && ilen <= |input| && ilen < 0x8000_0000
      modifies this, state, buffer
      ensures Valid() && msg == old(msg) + if ilen <= 0 then [] else input[..ilen]
    {
      hide Counts, Absorbed, Hash;
      if ilen <= 0 {
        return;
      }
      var left := total0 % 64;
      LeftIs(total0, total1, |msg|);
      AddLength(ilen, |msg|);
      Absorb(input[..ilen], left, msg);
      msg := msg + input[..ilen];
    }

    // The bytes of the length, and the number of padding bytes.
    method Ending(ghost n: nat) returns (msglen: seq<Byte>, padn: nat)
      requires Counts(total0, total1, n)
      ensures msglen == LengthField(n) && |msglen| == 8 && padn == Zeros(n) + 1 <= 64
      ensures NatOf(msglen) == 8 * n % 0x1_0000_0000_0000_0000
    {
      hide ByteOf, Counts, LengthField, PutNat;
      // (total[0] >> 29) | (total[1] << 3) and total[0] << 3: see LengthWords
      var high := total0 / 0x2000_0000 + 8 * total1 % WORD;
      var low := 8 * total0 % WORD;
      msglen := PutNat(high) + PutNat(low);
      LengthBytes(total0, total1, n);
      LengthWorth(n);
      var last := total0 % 64;
      LeftIs(total0, total1, n);
      padn := if last < 56 then 56 - last else 120 - last;
    }

    // sha1_finish
    method Finish() returns (output: seq<Byte>)
      requires Valid()
      modifies this, state, buffer
      ensures output == Digest(old(msg))
    {
      hide Fold, WordBytes, Counts, Padded, LengthField, Zeros;
      var msglen, padn := Ending(|msg|);
      ghost var m := msg;
      Update(PADDING, padn);
      Update(msglen, 8);
      PaddedIs(m, padn, msglen);
      assert msg[..Whole(|msg|)] == msg;
      output := WordBytes(state[0]) + WordBytes(state[1]) + WordBytes(state[2])
              + WordBytes(state[3]) + WordBytes(state[4]);
    }
  }

  const PADDING: seq<Byte> := [0x80] + seq(63, _ => 0)

  lemma PaddedIs(m: seq<Byte>, padn: nat, msglen: seq<Byte>)
    requires padn == Zeros(|m|) + 1 && msglen == LengthField(|m|)
    ensures m + PADDING[..padn] + msglen[..8] == Padded(m)
    ensures Whole(|Padded(m)|) == |Padded(m)|
  {
    hide ByteOf;
    assert PADDING[..padn] == [0x80] + seq(Zeros(|m|), _ => 0);
    assert msglen[..8] == msglen;
  }

  // The macro PUT_ULONG_BE on a length word
  function PutNat(n: nat): (b: seq<Byte>)
    ensures |b| == 4
  {
    [ByteOf(n, 4, 0), ByteOf(n, 4, 1), ByteOf(n, 4, 2), ByteOf(n, 4, 3)]
  }

  // ---------- What the bytes of a number are worth ----------

  lemma NextByte(b: bv8)
    requires b > 0
    ensures (b - 1) as nat + 1 == b as nat
  {
  }

  lemma BackToByte(b: bv8, o: nat)
    requires b as nat == o
    ensures o as bv8 == b
  {
  }

  lemma {:induction false} ByteWorth(o: nat)
    requires o < 256
    ensures ByteFrom(o) as nat == o
  {
    if o == 0 {
    } else {
      ByteWorth(o - 1);
      var b := ByteFrom(o - 1) + 1;
      NextByte(b);
      BackToByte(b, o);
    }
  }

  lemma OctetShift(n: nat, j: nat)
    ensures Octet(n, j + 1) == Octet(n / 256, j)
  {
    hide Pow256;
    assert n == n / 256 * 256 + n % 256;
    Split(1, j);
    Split(j, 1);
    Powers();
    HighDigits(n / 256, n % 256, 256, Pow256(j));
  }

  // The k lowest digits of n in base 256 are worth n modulo 256 to the k.
  lemma {:induction false} DigitsWorth(n: nat, k: nat, s: seq<Byte>)
    requires |s| == k && forall i :: 0 <= i < k ==> s[i] == ByteOf(n, k, i)
    ensures NatOf(s) == n % Pow256(k)
  {
    hide ByteFrom;
    if k == 0 {
    } else {
      var p := s[..k - 1];
      forall i | 0 <= i < k - 1 ensures p[i] == ByteOf(n / 256, k - 1, i) {
        OctetShift(n, k - 2 - i);
      }
      DigitsWorth(n / 256, k - 1, p);
      ByteWorth(Octet(n, 0));
      LowestDigit(n, Pow256(k - 1));
    }
  }

  lemma LowestDigit(n: nat, p: nat)
    requires p > 0
    ensures n % (256 * p) == 256 * (n / 256 % p) + n % 256
  {
    var q, r := n / 256 / p, n / 256 % p;
    assert n / 256 == q * p + r && n == 256 * (n / 256) + n % 256;
    assert n == q * (256 * p) + (256 * r + n % 256);
    DivUnique(n, 256 * p, q, 256 * r + n % 256);
  }

  // PUT_ULONG_BE stores the bytes of its word.
  lemma WordWorth(n: nat)
    requires n < 0x1_0000_0000
    ensures NatOf(PutNat(n)) == n
  {
    hide ByteOf;
    DigitsWorth(n, 4, PutNat(n));
    Powers();
  }

  lemma LengthWorth(n: nat)
    ensures NatOf(LengthField(n)) == 8 * n % 0x1_0000_0000_0000_0000
  {
    hide ByteOf;
    DigitsWorth(8 * n % Pow256(8), 8, LengthField(n));
    Powers();
  }

  // The bytes of a digest word are that word.
  lemma WordBytesWorth(w: Word)
    ensures var b := WordBytes(w); BigEndian(b[0], b[1], b[2], b[3]) == w
  {
  }

  // In 32-bit arithmetic the shifts are a division and two products, and the
  // parts that the bitwise or joins have no bit in common, so that it is a sum.
  lemma LengthWords(total0: bv32, total1: bv32)
    ensures (total0 >> 29) | (total1 << 3) == total0 / 0x20000000 + 8 * total1
    ensures total0 << 3 == 8 * total0
  {
  }

  // The two length words are the 64-bit length in bits.
  lemma LengthBytes(total0: nat, total1: nat, n: nat)
    requires Counts(total0, total1, n)
    ensures PutNat(total0 / 0x2000_0000 + 8 * total1 % WORD) + PutNat(8 * total0 % WORD) == LengthField(n)
  {
    hide Octet, Pow256, Counts, ByteFrom;
    var high, low := total0 / 0x2000_0000 + 8 * total1 % WORD, 8 * total0 % WORD;
    LengthSplit(total0, total1, n);
    forall i | 0 <= i < 8 ensures (PutNat(high) + PutNat(low))[i] == LengthField(n)[i] {
      OctetSplit(high, low, 7 - i);
    }
  }

  lemma LengthSplit(total0: nat, total1: nat, n: nat)
    requires Counts(total0, total1, n)
    ensures 8 * n % Pow256(8) == (total0 / 0x2000_0000 + 8 * total1 % WORD) * WORD + 8 * total0 % WORD
  {
    hide Pow256;
    var q := n / WORD;
    var p, g, h := q / WORD, 8 * total1 / WORD, total0 / 0x2000_0000;
    var low := 8 * total0 % WORD;
    Eighths(total0);
    HighFits(total0, total1);
    Powers();
    LengthSum(n, q, p, g, h, 8 * total1 % WORD, low, total0, total1);
    DivUnique(8 * n, WORD * WORD, 8 * p + g, (h + 8 * total1 % WORD) * WORD + low);
  }

  lemma Eighths(total0: nat)
    ensures 8 * total0 == (total0 / 0x2000_0000) * WORD + 8 * total0 % WORD
  {
  }

  lemma HighFits(total0: nat, total1: nat)
    requires total0 < WORD
    ensures total0 / 0x2000_0000 + 8 * total1 % WORD < WORD
  {
  }

  lemma LengthSum(n: nat, q: nat, p: nat, g: nat, h: nat, t: nat, low: nat, total0: nat, total1: nat)
    requires n == q * WORD + total0 && q == p * WORD + total1
    requires 8 * total1 == g * WORD + t && 8 * total0 == h * WORD + low
    ensures 8 * n == (8 * p + g) * (WORD * WORD) + ((h + t) * WORD + low)
  {
  }

  lemma Powers()
    ensures Pow256(1) == 256 && Pow256(4) == WORD && Pow256(8) == WORD * WORD
  {
    assert Pow256(5) == 256 * Pow256(4) && Pow256(6) == 256 * Pow256(5);
    assert Pow256(7) == 256 * Pow256(6) && Pow256(8) == 256 * Pow256(7);
  }

  lemma DivUnique(x: nat, m: nat, q: nat, r: nat)
    requires r < m && x == q * m + r
    ensures x / m == q && x % m == r
  {
    var d := x / m - q;
    assert d * m == r - x % m;
    Multiple(d, m);
  }

  lemma Multiple(d: int, m: int)
    requires m > 0
    ensures d >= 1 ==> d * m >= m
    ensures d <= -1 ==> d * m <= -m
  {
  }

  // The digits of high come above the four digits of low.
  lemma OctetSplit(high: nat, low: nat, j: nat)
    requires low < WORD
    ensures Octet(high * WORD + low, j) == if j < 4 then Octet(low, j) else Octet(high, j - 4)
  {
    hide Pow256;
    if j < 4 {
      Split(4 - j, j);
      Split(1, 3 - j);
      Powers();
      LowDigit(high, low, WORD, Pow256(j), Pow256(4 - j), Pow256(3 - j));
    } else {
      Split(j - 4, 4);
      Powers();
      HighDigits(high, low, WORD, Pow256(j - 4));
    }
  }

  lemma LowDigit(high: nat, low: nat, w: nat, m: nat, k: nat, k': nat)
    requires m > 0 && k * m == w && k == 256 * k'
    ensures (high * w + low) / m % 256 == low / m % 256
  {
    assert high * w == high * k * m;
    DivUnique(high * w + low, m, high * k + low / m, low % m);
    assert high * k == high * k' * 256;
    DivUnique(high * k + low / m, 256, high * k' + low / m / 256, low / m % 256);
  }

  lemma HighDigits(high: nat, low: nat, w: nat, k: nat)
    requires low < w && k > 0
    ensures k * w > 0 && (high * w + low) / (k * w) == high / k
  {
    var q, r := high / k, high % k;
    Scaled(high, q, k, r, w);
    Below(r, k, w, low);
    DivUnique(high * w + low, k * w, q, r * w + low);
  }

  lemma Scaled(x: nat, q: nat, k: nat, r: nat, w: nat)
    requires x == q * k + r
    ensures x * w == q * (k * w) + r * w
  {
    assert x * w == (q * k) * w + r * w;
    Regroup(q, k, w);
  }

  lemma Below(r: nat, k: nat, w: nat, low: nat)
    requires r < k && low < w
    ensures r * w + low < k * w
  {
    assert (r + 1) * w == r * w + w;
    Grows(r + 1, k, w);
  }

  lemma Grows(x: nat, y: nat, w: nat)
    requires x <= y
    ensures x * w <= y * w
  {
  }

  lemma {:induction false} Split(i: nat, j: nat)
    ensures Pow256(i) * Pow256(j) == Pow256(i + j)
  {
    if i == 0 {
    } else {
      Split(i - 1, j);
      assert Pow256(i + j) == 256 * Pow256(i - 1 + j);
      assert Pow256(i) * Pow256(j) == 256 * (Pow256(i - 1) * Pow256(j)) by {
        Regroup(256, Pow256(i - 1), Pow256(j));
      }
    }
  }

  lemma Regroup(x: nat, y: nat, z: nat)
    ensures (x * y) * z == x * (y * z)
  {
  }

  lemma SplitAt(m: seq<Byte>, p: nat, q: nat)
    requires p <= q <= |m|
    ensures m[p..] == m[p..q] + m[q..]
  {
  }

  lemma TailOf(was: seq<Byte>, input: seq<Byte>, at: nat)
    requires at <= |input|
    ensures (was + input)[|was| + at..] == input[at..]
  {
  }

  lemma Kept(was: seq<Byte>, input: seq<Byte>, at: nat, left: nat, b: seq<Byte>)
    requires at <= |input| && left <= |was| + at && left + |input| - at < 64 == |b|
    requires (|was| + at - left) % 64 == 0
    requires b[..left] == (was + input)[|was| + at - left..|was| + at] && b[left..left + |input| - at] == input[at..]
    ensures Whole(|was + input|) == |was| + at - left
    ensures b[..left + |input| - at] == (was + input)[|was| + at - left..]
  {
    hide Whole;
    WholeIs(|was + input|, |was| + at - left);
    TailOf(was, input, at);
    SplitAt(was + input, |was| + at - left, |was| + at);
    SplitAt(b[..left + |input| - at], 0, left);
  }

  lemma LeftIs(total0: nat, total1: nat, n: nat)
    requires Counts(total0, total1, n)
    ensures total0 % 64 == n % 64
  {
  }

  lemma Join(was: seq<Byte>, input: seq<Byte>, fill: nat, b: seq<Byte>)
    requires |b| == 64 && fill <= |input| && fill <= 64 <= |was| + fill
    requires b[..64 - fill] == was[|was| + fill - 64..] && b[64 - fill..] == input[..fill]
    ensures (was + input)[..|was| + fill] == was[..|was| + fill - 64] + b
  {
    assert b == b[..64 - fill] + b[64 - fill..];
  }

  // sha1
  method Sum160(input: seq<Byte>, ilen: int) returns (output: seq<Byte>)
    requires ilen <= |input| && ilen < 0x8000_0000
    ensures output == Digest(if ilen <= 0 then [] else input[..ilen])
  {
    hide Digest;
    var ctx := new Context();
    ctx.Update(input, ilen);
    assert ctx.msg == if ilen <= 0 then [] else input[..ilen];
    output := ctx.Finish();
  }

  // The C conversion of a 32-bit length to int.
  function ToInt(len: nat): int
    requires len < WORD
  {
    if len < 0x8000_0000 then len else len - WORD
  }

  // A host word as a little-endian machine reads it.
  function HostWord(b: seq<Byte>): Word
    requires |b| >= 4
  {
    BigEndian(b[3], b[2], b[1], b[0])
  }

  // lhi_hash_sha1: the cast of len makes every key of two gigabytes and more
  // hash like the empty one.
  method HashSha1(b: seq<Byte>) returns (hash: Word)
    requires |b| < WORD
    ensures hash == HostWord(Digest(if |b| < 0x8000_0000 then b else []))
  {
    var output := Sum160(b, ToInt(|b|));
    hash := HostWord(output);
    assert |b| < 0x8000_0000 ==> b[..|b|] == b;
  }

  // However a message is split into updates, the digest is that of the whole.
  method InParts(parts: seq<seq<Byte>>) returns (output: seq<Byte>)
    requires forall i :: 0 <= i < |parts| ==> |parts[i]| < 0x8000_0000
    ensures output == Digest(Words.Concat(parts))
  {
    hide Digest;
    var ctx := new Context();
    var i := 0;
    while i < |parts|
      invariant 0 <= i <= |parts| && ctx.Valid() && ctx.msg == Words.Concat(parts[..i])
      invariant fresh(ctx) && fresh(ctx.state) && fresh(ctx.buffer)
    {
      ctx.Update(parts[i], |parts[i]|);
      assert parts[..i + 1][..i] == parts[..i] && parts[i][..|parts[i]|] == parts[i];
      i := i + 1;
    }
    assert parts[..i] == parts;
    output := ctx.Finish();
  }
}
