// lib/hash_func_cube.c: the transformation of CubeHash, in place on an array of
// 32 words.

module CubeHash {
  import opened Words

  // The two halves of the state, x[0..16] and x[16..32]
  type Half = h: seq<Word> | |h| == 16 witness seq(16, _ => 0)
  datatype Cube = Cube(lo: Half, hi: Half)

  // i ^ m, where m is a power of two
  function Flip(i: nat, m: nat): nat
    requires m > 0
  {
    if i / m % 2 == 0 then i + m else i - m
  }

  lemma FlipTwice(i: nat, m: nat)
    requires i < 16 && m in {1, 2, 4, 8}
    ensures Flip(i, m) < 16 && Flip(Flip(i, m), m) == i
  {
    if m == 1 {
    } else if m == 2 {
    } else if m == 4 {
    } else {
    }
  }

  lemma RotIs(x: Word)
    ensures Rot(x, 7) == (x << 7) | (x >> 25)
    ensures Rot((x << 7) | (x >> 25), 25) == x
    ensures Rot(x, 25) == (x << 25) | (x >> 7)
    ensures Rot((x << 25) | (x >> 7), 7) == x
    ensures Rot(x, 11) == (x << 11) | (x >> 21)
    ensures Rot((x << 11) | (x >> 21), 21) == x
    ensures Rot(x, 21) == (x << 21) | (x >> 11)
    ensures Rot((x << 21) | (x >> 11), 11) == x
  {
  }

  lemma RotBack(x: Word, r: nat)
    requires r == 7 || r == 11
    ensures Rot(Rot(x, r), 32 - r) == x && Rot(Rot(x, 32 - r), r) == x
  {
    hide Rot;
    RotIs(x);
  }

  // ---------- The steps of half a round and their inverses ----------

  function AddHalves(s: Cube): Cube {
    s.(hi := seq(16, i requires 0 <= i < 16 => Add(s.hi[i], s.lo[i])))
  }

  function SubHalves(s: Cube): Cube {
    s.(hi := seq(16, i requires 0 <= i < 16 => Sub(s.hi[i], s.lo[i])))
  }

  function XorHalves(s: Cube): Cube {
    s.(lo := seq(16, i requires 0 <= i < 16 => Xor(s.lo[i], s.hi[i])))
  }

  // Exchanges word i and word i ^ m.
  function Exchange(h: Half, m: nat): Half
    requires m in {1, 2, 4, 8}
  {
    seq(16, i requires 0 <= i < 16 => FlipTwice(i, m); h[Flip(i, m)])
  }

  function RotateAll(h: Half, r: nat): Half
    requires 0 < r < 32
  {
    seq(16, i requires 0 <= i < 16 => Rot(h[i], r))
  }

  function HalfRound(s: Cube, a: nat, r: nat, c: nat): Cube
    requires a in {1, 2, 4, 8} && c in {1, 2, 4, 8} && 0 < r < 32
  {
    var t := AddHalves(s);
    var u := XorHalves(t.(lo := RotateAll(Exchange(t.lo, a), r)));
    u.(hi := Exchange(u.hi, c))
  }

  function UnhalfRound(s: Cube, a: nat, r: nat, c: nat): Cube
    requires a in {1, 2, 4, 8} && c in {1, 2, 4, 8} && 0 < r < 32
  {
    var u := XorHalves(s.(hi := Exchange(s.hi, c)));
    SubHalves(u.(lo := Exchange(RotateAll(u.lo, 32 - r), a)))
  }

  function Rounds(s: Cube, n: nat): Cube {
    if n == 0 then s else HalfRound(HalfRound(Rounds(s, n - 1), 8, 7, 2), 4, 11, 1)
  }

  function Unrounds(s: Cube, n: nat): Cube
    decreases n
  {
    if n == 0 then s else Unrounds(UnhalfRound(UnhalfRound(s, 4, 11, 1), 8, 7, 2), n - 1)
  }

  lemma HalvesInvert(s: Cube)
    ensures SubHalves(AddHalves(s)) == s && AddHalves(SubHalves(s)) == s && XorHalves(XorHalves(s)) == s
  {
    hide Add, Sub, Xor;
    forall i | 0 <= i < 16
      ensures Sub(Add(s.hi[i], s.lo[i]), s.lo[i]) == s.hi[i] && Add(Sub(s.hi[i], s.lo[i]), s.lo[i]) == s.hi[i]
      ensures Xor(Xor(s.lo[i], s.hi[i]), s.hi[i]) == s.lo[i]
    {
      AddSub(s.hi[i], s.lo[i]);
      XorTwice(s.lo[i], s.hi[i]);
    }
    assert SubHalves(AddHalves(s)).hi == s.hi && AddHalves(SubHalves(s)).hi == s.hi && XorHalves(XorHalves(s)).lo == s.lo;
  }

  lemma ExchangeTwice(h: Half, m: nat)
    requires m in {1, 2, 4, 8}
    ensures Exchange(Exchange(h, m), m) == h
  {
    forall i | 0 <= i < 16 ensures Exchange(Exchange(h, m), m)[i] == h[i] {
      FlipTwice(i, m);
    }
  }

  lemma RotateBack(h: Half, r: nat)
    requires r == 7 || r == 11
    ensures RotateAll(RotateAll(h, r), 32 - r) == h && RotateAll(RotateAll(h, 32 - r), r) == h
  {
    hide Rot;
    forall i | 0 <= i < 16
      ensures Rot(Rot(h[i], r), 32 - r) == h[i] && Rot(Rot(h[i], 32 - r), r) == h[i]
    {
      RotBack(h[i], r);
    }
    assert RotateAll(RotateAll(h, r), 32 - r) == h && RotateAll(RotateAll(h, 32 - r), r) == h;
  }

  lemma HalfRoundInverts(s: Cube, a: nat, r: nat, c: nat)
    requires a in {1, 2, 4, 8} && c in {1, 2, 4, 8} && (r == 7 || r == 11)
    ensures UnhalfRound(HalfRound(s, a, r, c), a, r, c) == s && HalfRound(UnhalfRound(s, a, r, c), a, r, c) == s
  {
    hide AddHalves, SubHalves, XorHalves, Exchange, RotateAll;
    var t := AddHalves(s);
    var v := t.(lo := RotateAll(Exchange(t.lo, a), r));
    var u := XorHalves(v);
    HalvesInvert(s);
    HalvesInvert(v);
    ExchangeTwice(t.lo, a);
    RotateBack(Exchange(t.lo, a), r);
    ExchangeTwice(u.hi, c);
    var e := s.(hi := Exchange(s.hi, c));
    var f := XorHalves(e);
    var g := f.(lo := Exchange(RotateAll(f.lo, 32 - r), a));
    HalvesInvert(e);
    HalvesInvert(g);
    ExchangeTwice(s.hi, c);
    ExchangeTwice(RotateAll(f.lo, 32 - r), a);
    RotateBack(f.lo, r);
    XorKeepsHi(e);
    XorKeepsHi(v);
    AddKeepsLo(s);
    AddKeepsLo(g);
  }

  lemma XorKeepsHi(s: Cube)
    ensures XorHalves(s).hi == s.hi
  {
  }

  lemma AddKeepsLo(s: Cube)
    ensures AddHalves(s).lo == s.lo && SubHalves(s).lo == s.lo
  {
  }

  // The transformation, of any number of rounds, is a bijection.
  lemma {:induction false} TransformIsBijective(s: Cube, n: nat)
    ensures Unrounds(Rounds(s, n), n) == s && Rounds(Unrounds(s, n), n) == s
    decreases n
  {
    hide HalfRound, UnhalfRound;
    if n == 0 {
    } else {
      var t := Rounds(s, n - 1);
      HalfRoundInverts(t, 8, 7, 2);
      HalfRoundInverts(HalfRound(t, 8, 7, 2), 4, 11, 1);
      TransformIsBijective(s, n - 1);
      var u := UnhalfRound(s, 4, 11, 1);
      HalfRoundInverts(s, 4, 11, 1);
      HalfRoundInverts(u, 8, 7, 2);
      TransformIsBijective(UnhalfRound(u, 8, 7, 2), n - 1);
    }
  }

  // ---------- The loops of transform ----------

  function CubeOf(x: seq<Word>): Cube
    requires |x| == 32
  {
    Cube(x[..16], x[16..])
  }

  method AddLoop(x: array<Word>)
    requires x.Length == 32
    modifies x
    ensures CubeOf(x[..]) == AddHalves(old(CubeOf(x[..])))
  {
    hide Add;
    var i := 0;
    while i < 16
      invariant 0 <= i <= 16 && x[..16] == old(x[..16])
      invariant forall k :: 16 <= k < 16 + i ==> x[k] == Add(old(x[k]), old(x[k - 16]))
      invariant forall k :: 16 + i <= k < 32 ==> x[k] == old(x[k])
    {
      x[i + 16] := Add(x[i + 16], x[i]);
      i := i + 1;
    }
    assert CubeOf(x[..]).hi == AddHalves(old(CubeOf(x[..]))).hi;
  }

  method XorLoop(x: array<Word>)
    requires x.Length == 32
    modifies x
    ensures CubeOf(x[..]) == XorHalves(old(CubeOf(x[..])))
  {
    hide Xor;
    var i := 0;
    while i < 16
      invariant 0 <= i <= 16 && x[16..] == old(x[16..])
      invariant forall k :: 0 <= k < i ==> x[k] == Xor(old(x[k]), old(x[k + 16]))
      invariant forall k :: i <= k < 32 ==> x[k] == old(x[k])
    {
      x[i] := Xor(x[i], x[i + 16]);
      i := i + 1;
    }
    assert CubeOf(x[..]).lo == XorHalves(old(CubeOf(x[..]))).lo;
  }

  // y[i ^ m] = x[from + i]
  method SpreadLoop(x: array<Word>, from: nat, y: array<Word>, m: nat)
    requires x.Length == 32 && y.Length == 16 && x != y && (from == 0 || from == 16) && m in {1, 2, 4, 8}
    modifies y
    ensures y[..] == Exchange(x[from..from + 16], m)
  {
    hide Flip, Exchange;
    var i := 0;
    while i < 16
      invariant 0 <= i <= 16
      invariant forall k {:trigger Flip(k, m)} :: 0 <= k < i ==> Flip(k, m) < 16 && y[Flip(k, m)] == x[from + k]
    {
      FlipTwice(i, m);
      Apart(i, m);
      y[Flip(i, m)] := x[from + i];
      i := i + 1;
    }
    forall k | 0 <= k < 16 ensures y[k] == Exchange(x[from..from + 16], m)[k] {
      FlipTwice(k, m);
      ExchangeAt(x[from..from + 16], m, k);
    }
  }

  lemma ExchangeAt(h: Half, m: nat, k: nat)
    requires m in {1, 2, 4, 8} && k < 16
    ensures Flip(k, m) < 16 && Exchange(h, m)[k] == h[Flip(k, m)]
  {
    FlipTwice(k, m);
  }

  lemma Apart(i: nat, m: nat)
    requires i < 16 && m in {1, 2, 4, 8}
    ensures forall k :: 0 <= k < i ==> Flip(k, m) != Flip(i, m)
  {
    forall k | 0 <= k < i ensures Flip(k, m) != Flip(i, m) {
      FlipTwice(k, m);
      FlipTwice(i, m);
    }
  }

  method RotateLoop(x: array<Word>, y: array<Word>, r: nat)
    requires x.Length == 32 && y.Length == 16 && x != y && 0 < r < 32
    modifies x
    ensures x[..16] == RotateAll(y[..], r) && x[16..] == old(x[16..])
  {
    hide Rot;
    var i := 0;
    while i < 16
      invariant 0 <= i <= 16 && x[16..] == old(x[16..])
      invariant forall k :: 0 <= k < i ==> x[k] == Rot(y[k], r)
    {
      x[i] := Rot(y[i], r);
      i := i + 1;
    }
  }

  method CopyLoop(x: array<Word>, y: array<Word>)
    requires x.Length == 32 && y.Length == 16 && x != y
    modifies x
    ensures x[16..] == y[..] && x[..16] == old(x[..16])
  {
    var i := 0;
    while i < 16
      invariant 0 <= i <= 16 && x[..16] == old(x[..16])
      invariant forall k :: 0 <= k < i ==> x[16 + k] == y[k]
    {
      x[i + 16] := y[i];
      i := i + 1;
    }
  }

  // Six loops of transform; the other six differ in the three constants.
  method SixLoops(x: array<Word>, y: array<Word>, a: nat, r: nat, c: nat)
    requires x.Length == 32 && y.Length == 16 && x != y
    requires a in {1, 2, 4, 8} && c in {1, 2, 4, 8} && 0 < r < 32
    modifies x, y
    ensures CubeOf(x[..]) == HalfRound(old(CubeOf(x[..])), a, r, c)
  {
    hide AddHalves, XorHalves, Exchange, RotateAll;
    AddLoop(x);
    ghost var t := CubeOf(x[..]);
    assert x[0..0 + 16] == t.lo && x[16..] == t.hi;
    SpreadLoop(x, 0, y, a);
    RotateLoop(x, y, r);
    assert CubeOf(x[..]) == t.(lo := RotateAll(Exchange(t.lo, a), r));
    XorLoop(x);
    ghost var u := CubeOf(x[..]);
    assert x[16..16 + 16] == u.hi && x[..16] == u.lo;
    SpreadLoop(x, 16, y, c);
    CopyLoop(x, y);
    assert CubeOf(x[..]) == u.(hi := Exchange(u.hi, c));
  }

  const CUBEHASH_ROUNDS: nat := 8

  method Transform(x: array<Word>)
    requires x.Length == 32
    modifies x
    ensures CubeOf(x[..]) == Rounds(old(CubeOf(x[..])), 8)
    ensures Unrounds(CubeOf(x[..]), 8) == old(CubeOf(x[..]))
  {
    hide HalfRound, CubeOf, Unrounds;
    var y := new Word[16];
    var r := 0;
    while r < CUBEHASH_ROUNDS
      invariant 0 <= r <= CUBEHASH_ROUNDS
      invariant CubeOf(x[..]) == Rounds(old(CubeOf(x[..])), r)
    {
      SixLoops(x, y, 8, 7, 2);
      SixLoops(x, y, 4, 11, 1);
      r := r + 1;
    }
    TransformIsBijective(old(CubeOf(x[..])), CUBEHASH_ROUNDS);
  }
}
