// lib/hash_func_skein256.c: Skein with a state of 256 bits, as used for the
// hash of a key. A block is held back until more input or the end is seen.

module Skein256 {
  import opened SkeinSpec
  import Words

  // ---------- The block function ----------

  // The macro Round256: the registers keep their places, so the permutation of
  // a round is a renaming of the registers in the next one.
  method Round256(v0: Word, v1: Word, v2: Word, v3: Word, r0: nat, r1: nat)
    returns (x0: Word, x1: Word, x2: Word, x3: Word)
    requires 0 < r0 < 64 && 0 < r1 < 64
    ensures Four(x0, x3, x2, x1) == MixPermute(Four(v0, v1, v2, v3), r0, r1)
  {
    hide Plus, Xor, Rotl;
    x0, x1, x2, x3 := v0, v1, v2, v3;
    x0 := Plus(x0, x1);
    x1 := Rotl(x1, r0);
    x1 := Xor(x1, x0);
    x2 := Plus(x2, x3);
    x3 := Rotl(x3, r1);
    x3 := Xor(x3, x2);
  }

  // The macro I256
  method I256(k: Key, t: Tweak, r: nat, v0: Word, v1: Word, v2: Word, v3: Word)
    returns (x0: Word, x1: Word, x2: Word, x3: Word)
    ensures Four(x0, x1, x2, x3) == Inject(Four(v0, v1, v2, v3), Subkey(k, t, r + 1))
  {
    hide Plus;
    x0 := Plus(v0, k[(r + 1) % 5]);
    x1 := Plus(v1, Plus(k[(r + 2) % 5], t[(r + 1) % 3]));
    x2 := Plus(v2, Plus(k[(r + 3) % 5], t[(r + 2) % 3]));
    x3 := Plus(v3, Plus(Plus(k[(r + 4) % 5], Num(r)), 1));
    Assoc(k[(r + 4) % 5], Num(r), 1);
  }

  lemma AssocRaw(x: bv64, y: bv64, z: bv64)
    ensures Plus(x + y, z) == x + y + z && Plus(x, y + z) == x + y + z
  {
  }

  lemma Assoc(x: Word, y: Word, z: Word)
    ensures Plus(Plus(x, y), z) == Plus(x, Plus(y, z))
  {
    hide Plus;
    PlusIs(x, y);
    PlusIs(y, z);
    AssocRaw(x, y, z);
  }

  // Four rounds and the injection after them, with their rotation constants
  method FourRounds(k: Key, t: Tweak, ghost p: Four, r: nat, c: seq<(nat, nat)>, v0: Word, v1: Word, v2: Word, v3: Word)
    returns (x0: Word, x1: Word, x2: Word, x3: Word)
    requires |c| == 4 && forall i :: 0 <= i < 4 ==> c[i] == Rotations(4 * r + i)
    requires Four(v0, v1, v2, v3) == Keyed(Rounds(k, t, p, 4 * r), k, t, 4 * r)
    ensures Four(x0, x1, x2, x3) == Keyed(Rounds(k, t, p, 4 * r + 4), k, t, 4 * r + 4)
  {
    hide *;
    x0, x1, x2, x3 := Round256(v0, v1, v2, v3, c[0].0, c[0].1);
    Unfold(k, t, p, 4 * r);
    x0, x3, x2, x1 := Round256(x0, x3, x2, x1, c[1].0, c[1].1);
    Unfold(k, t, p, 4 * r + 1);
    x0, x1, x2, x3 := Round256(x0, x1, x2, x3, c[2].0, c[2].1);
    Unfold(k, t, p, 4 * r + 2);
    x0, x3, x2, x1 := Round256(x0, x3, x2, x1, c[3].0, c[3].1);
    Unfold(k, t, p, 4 * r + 3);
    x0, x1, x2, x3 := I256(k, t, r, x0, x1, x2, x3);
    KeyedAt(Rounds(k, t, p, 4 * r + 4), k, t, r + 1);
  }

  lemma KeyedAt(v: Four, k: Key, t: Tweak, r: nat)
    ensures Keyed(v, k, t, 4 * r) == Inject(v, Subkey(k, t, r))
  {
    hide Inject, Subkey;
  }

  lemma Unfold(k: Key, t: Tweak, p: Four, d: nat)
    ensures Rounds(k, t, p, d + 1) == MixPermute(Keyed(Rounds(k, t, p, d), k, t, d), Rotations(d).0, Rotations(d).1)
    ensures d % 4 != 0 ==> Keyed(Rounds(k, t, p, d), k, t, d) == Rounds(k, t, p, d)
  {
    hide MixPermute, Rotations, Inject, Subkey;
  }

  // The first full key injection, and the nine lines of eight rounds each
  method Cipher(k: Key, t: Tweak, w: Four) returns (x: Four)
    ensures x == Encrypt(k, t, w)
  {
    hide Plus, Rounds, Keyed, Rotations;
    var x0, x1, x2, x3 := Plus(w.w0, k[0]), Plus(Plus(w.w1, k[1]), t[0]), Plus(Plus(w.w2, k[2]), t[1]), Plus(w.w3, k[3]);
    FirstInjection(k, t, w);
    var r := 0;
    while r < 9
      invariant 0 <= r <= 9
      invariant Four(x0, x1, x2, x3) == Keyed(Rounds(k, t, w, 8 * r), k, t, 8 * r)
    {
      RotationsAt(r);
      x0, x1, x2, x3 := FourRounds(k, t, w, 2 * r, [(5, 56), (36, 28), (13, 46), (58, 44)], x0, x1, x2, x3);
      x0, x1, x2, x3 := FourRounds(k, t, w, 2 * r + 1, [(26, 20), (53, 35), (11, 42), (59, 50)], x0, x1, x2, x3);
      r := r + 1;
    }
    x := Four(x0, x1, x2, x3);
  }

  lemma RotationsAt(r: nat)
    ensures Rotations(8 * r) == (5, 56) && Rotations(8 * r + 1) == (36, 28)
    ensures Rotations(8 * r + 2) == (13, 46) && Rotations(8 * r + 3) == (58, 44)
    ensures Rotations(8 * r + 4) == (26, 20) && Rotations(8 * r + 5) == (53, 35)
    ensures Rotations(8 * r + 6) == (11, 42) && Rotations(8 * r + 7) == (59, 50)
  {
  }

  lemma PlusZero(x: Word)
    ensures Plus(x, Num(0)) == x
  {
  }

  lemma SubkeyZero(k: Key, t: Tweak)
    ensures Subkey(k, t, 0) == Four(k[0], Plus(k[1], t[0]), Plus(k[2], t[1]), Plus(k[3], Num(0)))
  {
    hide Plus, Num;
  }

  lemma FirstInjection(k: Key, t: Tweak, w: Four)
    ensures Four(Plus(w.w0, k[0]), Plus(Plus(w.w1, k[1]), t[0]), Plus(Plus(w.w2, k[2]), t[1]), Plus(w.w3, k[3]))
         == Keyed(Rounds(k, t, w, 0), k, t, 0)
  {
    hide Plus, Num, Keyed, Subkey;
    KeyedAt(w, k, t, 0);
    SubkeyZero(k, t);
    Assoc(w.w1, k[1], t[0]);
    Assoc(w.w2, k[2], t[1]);
    PlusZero(k[3]);
  }

  // ---------- Tweaks ----------

  lemma {:induction false} NumAdd(a: nat, b: nat)
    ensures Plus(Num(a), Num(b)) == Num(a + b)
  {
    hide Plus;
    if b == 0 {
      PlusZero(Num(a));
    } else {
      NumAdd(a, b - 1);
      Assoc(Num(a), Num(b - 1), 1);
    }
  }

  function ClearFirst(t: Word): Word { t & !FIRST }
  function SetFinal(t: Word): Word { t | FINAL }

  lemma FlagsChange(ty: BlockType, first: bool)
    ensures ClearFirst(Flags(ty, first, false)) == Flags(ty, false, false)
    ensures SetFinal(Flags(ty, first, false)) == Flags(ty, first, true)
  {
  }

  // ---------- The context ----------

  // The chaining value and the tweak
  datatype Reg = Reg(v: Four, t0: Word, t1: Word)

  function Step(r: Reg, b: Block, byteCntAdd: nat): Reg {
    var t0 := Plus(r.t0, Num(byteCntAdd));
    Reg(Compress(r.v, t0, r.t1, b), t0, ClearFirst(r.t1))
  }

  // After n blocks
  function Steps(r: Reg, blks: seq<Byte>, n: nat, byteCntAdd: nat): Reg
    requires 32 * n <= |blks|
  {
    if n == 0 then r else Step(Steps(r, blks, n - 1, byteCntAdd), blks[32 * n - 32..32 * n], byteCntAdd)
  }

  // What UBI has after i blocks of m that are not the last.
  function RegAt(iv: Four, m: seq<Byte>, i: nat): Reg
    requires 32 * i <= |m|
  {
    Reg(Chain(iv, Msg, m, i), Num(32 * i), Flags(Msg, i == 0, false))
  }

  lemma StepIs(iv: Four, m: seq<Byte>, i: nat)
    requires 32 * i + 32 <= |m|
    ensures Step(RegAt(iv, m, i), m[32 * i..32 * i + 32], 32) == RegAt(iv, m, i + 1)
  {
    hide Plus, Num, Flags, ClearFirst, Compress;
    NumAdd(32 * i, 32);
    FlagsChange(Msg, i == 0);
  }

  lemma {:induction false} StepsAre(iv: Four, m: seq<Byte>, i: nat, blks: seq<Byte>, n: nat)
    requires 32 * i + 32 * n <= |m| && 32 * n <= |blks|
    requires blks[..32 * n] == m[32 * i..32 * i + 32 * n]
    ensures Steps(RegAt(iv, m, i), blks, n, 32) == RegAt(iv, m, i + n)
  {
    hide Step, RegAt;
    if n == 0 {
    } else {
      assert blks[..32 * (n - 1)] == blks[..32 * n][..32 * (n - 1)];
      assert m[32 * i..32 * i + 32 * (n - 1)] == m[32 * i..32 * i + 32 * n][..32 * (n - 1)];
      StepsAre(iv, m, i, blks, n - 1);
      assert blks[32 * n - 32..32 * n] == blks[..32 * n][32 * n - 32..];
      assert m[32 * (i + n - 1)..32 * (i + n - 1) + 32] == m[32 * i..32 * i + 32 * n][32 * n - 32..];
      StepIs(iv, m, i + n - 1);
    }
  }

  // Blocks that are done do not see what follows them.
  lemma {:induction false} ChainPrefix(iv: Four, m: seq<Byte>, more: seq<Byte>, i: nat)
    requires 32 * i <= |m|
    ensures Chain(iv, Msg, m + more, i) == Chain(iv, Msg, m, i)
  {
    hide InnerBlock;
    if i == 0 {
    } else {
      ChainPrefix(iv, m, more, i - 1);
      assert (m + more)[32 * i - 32..32 * i] == m[32 * i - 32..32 * i];
    }
  }

  class Context {
    var hashBitLen: nat
    var bCnt: nat
    // T[0] and T[1]
    var t0: Word
    var t1: Word
    // X[0] to X[3]
    const x: array<Word>
    const b: array<Byte>
    // The initial chaining value, and the bytes given since
    ghost var iv: Four
    ghost var msg: seq<Byte>

    ghost predicate Shaped() {
      x.Length == 4 && b.Length == 32
    }

    function Value(): Four
      requires Shaped()
      reads x
    {
      Four(x[0], x[1], x[2], x[3])
    }

    method SetValue(f: Four)
      requires Shaped()
      modifies x
      ensures Value() == f
    {
      x[0] := f.w0;
      x[1] := f.w1;
      x[2] := f.w2;
      x[3] := f.w3;
    }

    ghost function Registers(): Reg
      requires Shaped()
      reads `t0, `t1, x
    {
      Reg(Value(), t0, t1)
    }

    // One turn of the loop of Skein_256_Process_Block
    method OneBlock(blk: Block, byteCntAdd: nat)
      requires Shaped()
      modifies `t0, `t1, x
      ensures Registers() == Step(old(Registers()), blk, byteCntAdd)
    {
      hide Plus, Num, Xor, Encrypt, KeyWords, TweakWords, WordsOf, ClearFirst;
      t0 := Plus(t0, Num(byteCntAdd));
      var w := WordsOf(blk);
      var c := Cipher(KeyWords(Value()), TweakWords(t0, t1), w);
      SetValue(XorFour(c, w));
      t1 := ClearFirst(t1);
    }

    method ProcessBlock(blks: seq<Byte>, blkCnt: nat, byteCntAdd: nat)
      requires Shaped() && blkCnt > 0 && 32 * blkCnt <= |blks|
      modifies `t0, `t1, x
      ensures Registers() == Steps(old(Registers()), blks, blkCnt, byteCntAdd)
    {
      hide Step;
      OneBlock(blks[..32], byteCntAdd);
      OneStep(old(Registers()), blks, byteCntAdd);
      var n := 1;
      while n < blkCnt
        invariant 1 <= n <= blkCnt
        invariant Registers() == Steps(old(Registers()), blks, n, byteCntAdd)
      {
        OneBlock(blks[32 * n..32 * n + 32], byteCntAdd);
        n := n + 1;
      }
    }

    lemma OneStep(r: Reg, blks: seq<Byte>, byteCntAdd: nat)
      requires |blks| >= 32
      ensures Steps(r, blks, 1, byteCntAdd) == Step(r, blks[..32], byteCntAdd)
    {
      hide Step;
      assert blks[0..32] == blks[..32];
    }

    // Of the first n bytes of m, h blocks are done and the others in the buffer.
    ghost predicate Pending(m: seq<Byte>, h: nat, n: nat)
      requires Shaped()
      reads `t0, `t1, `bCnt, `iv, x, b
    {
      && 32 * h <= n <= |m| && bCnt == n - 32 * h <= 32
      && Registers() == RegAt(iv, m, h)
      && b[..bCnt] == m[32 * h..n]
    }

    // The context depends on the bytes given so far and on nothing else.
    ghost predicate Valid()
      reads this, x, b
    {
      Shaped() && Pending(msg, Before(|msg|), |msg|)
    }

    // Skein_256_Init after the initial chaining value is in X
    constructor (hashBitLen: nat, initial: Four)
      ensures Valid() && fresh(x) && fresh(b)
      ensures iv == initial && msg == [] && this.hashBitLen == hashBitLen
    {
      hide Flags, Num;
      this.hashBitLen := hashBitLen;
      x := new Word[4] [initial.w0, initial.w1, initial.w2, initial.w3];
      b := new Byte[32];
      bCnt, iv, msg := 0, initial, [];
      t0, t1 := Num(0), Flags(Msg, true, false);
    }

    // Fills the buffer and processes it.
    method FillUp(input: seq<Byte>, ghost m: seq<Byte>, ghost h: nat, ghost k: nat)
      requires Shaped() && Pending(m, h, k) && bCnt + |input| >= 32 && m[k..] == input
      modifies this, x, b
      ensures bCnt == 0 && Pending(m, h + 1, 32 * h + 32)
      ensures msg == old(msg) && iv == old(iv) && hashBitLen == old(hashBitLen)
    {
      hide Step, Steps, RegAt, Registers;
      var n := 32 - bCnt;
      if n > 0 {
        forall i | 0 <= i < n {
          b[bCnt + i] := input[i];
        }
        bCnt := bCnt + n;
      }
      assert b[..] == m[32 * h..32 * h + 32] by {
        assert b[..] == m[32 * h..k] + input[..n];
        assert input[..n] == m[k..k + n];
      }
      ProcessBlock(b[..], 1, 32);
      StepsAre(iv, m, h, b[..], 1);
      bCnt := 0;
    }

    // Whole blocks straight from the input
    method ManyBlocks(input: seq<Byte>, n: nat, ghost m: seq<Byte>, ghost h: nat)
      requires Shaped() && n > 0 && 32 * n <= |input| && bCnt == 0 && Pending(m, h, 32 * h) && m[32 * h..] == input
      modifies `t0, `t1, x
      ensures Pending(m, h + n, 32 * h + 32 * n)
    {
      hide Step, RegAt;
      assert input[..32 * n] == m[32 * h..32 * h + 32 * n];
      StepsAre(iv, m, h, input, n);
      ProcessBlock(input, n, 32);
    }

    // Copies what is left to the buffer.
    method Keep(rest: seq<Byte>, ghost m: seq<Byte>, ghost h: nat, ghost k: nat)
      requires Shaped() && Pending(m, h, k) && bCnt + |rest| <= 32 && m[k..] == rest
      modifies `bCnt, b
      ensures Pending(m, h, |m|)
    {
      hide RegAt;
      if |rest| > 0 {
        forall i | 0 <= i < |rest| {
          b[bCnt + i] := rest[i];
        }
        assert b[..bCnt + |rest|] == m[32 * h..k] + rest;
        bCnt := bCnt + |rest|;
      }
      assert m[32 * h..k] + m[k..] == m[32 * h..];
    }

    lemma Extends(input: seq<Byte>)
      requires Valid()
      ensures Pending(msg + input, Before(|msg|), |msg|)
    {
      hide Chain, Num, Flags, Registers, Before;
      ChainPrefix(iv, msg, input, Before(|msg|));
      assert (msg + input)[32 * Before(|msg|)..|msg|] == msg[32 * Before(|msg|)..];
    }

    // The first part of an update: every block but the last is processed.
    method AllButLast(input: seq<Byte>, ghost m: seq<Byte>, ghost h0: nat, ghost k: nat) returns (at: nat, ghost h: nat)
      requires Shaped() && Pending(m, h0, k) && m[k..] == input && h0 == Before(k)
      modifies this, x, b
      ensures at <= |input| && bCnt + (|input| - at) <= 32 && Pending(m, h, k + at)
      ensures h == Before(|m|)
      ensures msg == old(msg) && iv == old(iv) && hashBitLen == old(hashBitLen)
    {
      hide RegAt, Steps, Registers, Before;
      at, h := 0, h0;
      if |input| + bCnt > 32 {
        if bCnt > 0 {
          at := 32 - bCnt;
          FillUp(input, m, h, k);
          h := h + 1;
        }
        if |input| - at > 32 {
          var n := (|input| - at - 1) / 32;
          assert m[32 * h..] == input[at..] by { Rest(m, k, input, at); }
          ManyBlocks(input[at..], n, m, h);
          at := at + 32 * n;
          h := h + n;
        }
      }
    }

    lemma Rest(m: seq<Byte>, k: nat, input: seq<Byte>, at: nat)
      requires k <= |m| && m[k..] == input && at <= |input|
      ensures m[k + at..] == input[at..]
    {
    }

    // Skein_256_Update
    method Update(input: seq<Byte>)
      requires Valid()
      modifies this, x, b
      ensures Valid() && msg == old(msg) + input && iv == old(iv) && hashBitLen == old(hashBitLen)
    {
      hide RegAt, Registers;
      ghost var m, k := msg + input, |msg|;
      Extends(input);
      assert m[k..] == input;
      var at;
      ghost var h;
      at, h := AllButLast(input, m, Before(|msg|), k);
      Rest(m, k, input, at);
      Keep(input[at..], m, h, k + at);
      msg := m;
    }

    lemma PadIs(block: seq<Byte>, kept: seq<Byte>)
      requires |block| == 32 && |kept| <= 32 && block[..|kept|] == kept
      requires forall i :: |kept| <= i < 32 ==> block[i] == 0
      ensures block == Pad(kept)
    {
    }

    method ZeroPad(ghost kept: seq<Byte>)
      requires Shaped() && |kept| == bCnt <= 32 && b[..bCnt] == kept
      modifies b
      ensures b[..] == Pad(kept)
    {
      hide Pad;
      if bCnt < 32 {
        forall i | bCnt <= i < 32 {
          b[i] := 0;
        }
      }
      assert b[..][..bCnt] == kept;
      PadIs(b[..], kept);
    }

    // Skein_256_Final up to the output: the last block, padded with zeros
    method LastBlock()
      requires Valid()
      modifies this, x, b
      ensures Value() == Ubi(old(iv), Msg, old(msg)) && hashBitLen == old(hashBitLen)
    {
      hide Plus, Num, Flags, Compress, SetFinal, ClearFirst, Chain, Pad;
      ghost var h := Before(|msg|);
      t1 := SetFinal(t1);
      FlagsChange(Msg, h == 0);
      ZeroPad(msg[32 * h..]);
      NumAdd(32 * h, bCnt);
      ghost var r := Registers();
      assert r == Reg(Chain(iv, Msg, msg, h), Num(32 * h), Flags(Msg, h == 0, true));
      OneStep(r, b[..], bCnt);
      assert b[..][..32] == b[..];
      ProcessBlock(b[..], 1, bCnt);
      assert Value() == Compress(r.v, Plus(r.t0, Num(bCnt)), r.t1, Pad(msg[32 * h..]));
    }

    // Skein_Start_New_Type(ctx, OUT_FINAL)
    method StartOutput()
      modifies `t0, `t1, `bCnt
      ensures t0 == Num(0) && t1 == Flags(Out, true, true) && bCnt == 0
    {
      hide Num;
      t0, t1, bCnt := Num(0), FIRST | TypeField(Out) | FINAL, 0;
    }

    // One block of the output: the counter is hashed under the result, which is
    // restored afterwards.
    method OutputBlock(i: nat, c: Four) returns (bytes: seq<Byte>)
      requires Shaped() && Value() == c && b[8..] == seq(24, _ => 0)
      modifies this, x, b
      ensures bytes == OutBlock(c, i)
      ensures Value() == c && b[8..] == seq(24, _ => 0) && hashBitLen == old(hashBitLen)
    {
      hide Plus, Num, Flags, Compress, Bytes64, ClearFirst, BytesOf;
      var counter := Bytes64(Num(i));
      forall k | 0 <= k < 8 {
        b[k] := counter[k];
      }
      assert b[..][..8] == counter;
      PadIs(b[..], counter);
      StartOutput();
      NumAdd(0, 8);
      OneStep(Registers(), b[..], 8);
      assert b[..][..32] == b[..];
      ProcessBlock(b[..], 1, 8);
      assert counter[0..] == counter;
      bytes := BytesOf(Value());
      SetValue(c);
    }

    // Skein_256_Final
    method Final() returns (hashVal: seq<Byte>)
      requires Valid()
      modifies this, x, b
      ensures hashVal == Digest(old(iv), old(msg), hashBitLen) && hashBitLen == old(hashBitLen)
    {
      hide Ubi, OutBlock, Pending, Registers;
      LastBlock();
      var byteCnt := (hashBitLen + 7) / 8;
      forall i | 0 <= i < 32 {
        b[i] := 0;
      }
      var c := Value();
      hashVal := [];
      var i := 0;
      while 32 * i < byteCnt
        invariant Value() == c && b[8..] == seq(24, _ => 0) && hashBitLen == old(hashBitLen)
        invariant |hashVal| == (if 32 * i < byteCnt then 32 * i else byteCnt)
        invariant forall j :: 0 <= j < |hashVal| ==> hashVal[j] == OutBlock(c, j / 32)[j % 32]
      {
        var block := OutputBlock(i, c);
        var n := byteCnt - 32 * i;
        if n >= 32 {
          n := 32;
        }
        hashVal := hashVal + block[..n];
        i := i + 1;
      }
    }
  }

  // The initial chaining value for a hash of 256 bits
  const IV_256 := Four(0x388512680E660046, 0x4B72D5DEC5A8FF01, 0x281A9298CA5EB3A5, 0x54CA5249F46070C4)

  // Init, Update and Final for a hash of 256 bits
  method Hash256(data: seq<Byte>) returns (hashVal: seq<Byte>)
    ensures hashVal == Digest(IV_256, data, 256)
  {
    hide Digest, Before;
    var ctx := new Context(256, IV_256);
    ctx.Update(data);
    assert ctx.msg == data;
    hashVal := ctx.Final();
  }

  // lhi_hash_skein256: the bit length 8 * len is computed in 32 bits, so only
  // len modulo 2 to the 29 bytes are hashed.
  method HashSkein(data: seq<Byte>) returns (hash: seq<Byte>)
    requires |data| < 0x1_0000_0000
    ensures hash == Digest(IV_256, data[..|data| % 0x2000_0000], 256)[..4]
    ensures |data| < 0x2000_0000 ==> hash == Digest(IV_256, data, 256)[..4]
  {
    hide Digest;
    var databitlen := 8 * |data| % 0x1_0000_0000;
    BitLength(|data|);
    assert |data| < 0x2000_0000 ==> data[..|data|] == data;
    var hashVal := Hash256(data[..databitlen / 8]);
    hash := hashVal[..4];
  }

  lemma BitLength(n: nat)
    ensures 8 * n % 0x1_0000_0000 / 8 == n % 0x2000_0000
  {
  }

  // However a message is split into updates, the hash is that of the whole.
  method InParts(iv: Four, bits: nat, parts: seq<seq<Byte>>) returns (hash: seq<Byte>)
    ensures hash == Digest(iv, Words.Concat(parts), bits)
  {
    hide Digest, Context.Valid;
    var ctx := new Context(bits, iv);
    var i := 0;
    while i < |parts|
      invariant 0 <= i <= |parts| && ctx.Valid() && ctx.msg == Words.Concat(parts[..i])
      invariant fresh(ctx) && fresh(ctx.x) && fresh(ctx.b) && ctx.iv == iv && ctx.hashBitLen == bits
    {
      ctx.Update(parts[i]);
      assert parts[..i + 1][..i] == parts[..i];
      i := i + 1;
    }
    assert parts[..i] == parts;
    hash := ctx.Final();
  }

  // Two contexts that were given the same bytes, in whatever parts, agree on the
  // chaining words, the tweak, the count and the bytes that the buffer holds.
  lemma SameMessage(c: Context, d: Context)
    requires c.Valid() && d.Valid() && c.iv == d.iv && c.msg == d.msg
    ensures c.Value() == d.Value() && c.t0 == d.t0 && c.t1 == d.t1
    ensures c.bCnt == d.bCnt && c.b[..c.bCnt] == d.b[..d.bCnt]
    ensures c.msg != [] ==> 0 < c.bCnt <= 32
  {
    hide RegAt;
    assert c.Registers() == d.Registers();
  }
}
