// localhash/mt.c: the generator MT19937, which makes its words in batches of
// 624, in place.

module MersenneTwister {
  import opened Words

  const N: nat := 624
  const M: nat := 397

  // ---------- The recurrence ----------

  function Half(x: Word): Word { x >> 1 }
  function LowestBit(x: Word): Word { x & 1 }

  // Multiplication by the matrix A of the generator
  function TimesA(x: Word): Word {
    Xor(Half(x), if LowestBit(x) == 1 then 0x9908B0DF else 0)
  }

  // The highest bit of u and the other bits of v
  function UpperLower(u: Word, v: Word): Word {
    (u & 0x80000000) | (v & 0x7FFFFFFF)
  }

  // The seeding generator, term i
  function Seeded(seed: Word, i: nat): Word {
    if i == 0 then Odd(seed) else Times69069(Seeded(seed, i - 1))
  }

  function Odd(x: Word): Word { x | 1 }
  function Times69069(x: Word): Word { Times(69069, x) }
  function Times(k: Word, x: Word): Word { k * x }

  // The sequence of the generator: the seeded terms, and then each term from
  // three earlier ones.
  function X(seed: Word, i: nat): Word {
    if i < N then Seeded(seed, i)
    else Xor(X(seed, i - N + M), TimesA(UpperLower(X(seed, i - N), X(seed, i - N + 1))))
  }

  // ---------- The recurrence in the operators of the machine ----------

  // A term from the ones 227, 624 and 623 places before it
  function Following(x: Word, u: Word, v: Word): Word {
    x ^ (((u & 0x80000000) | (v & 0x7FFFFFFF)) >> 1) ^ (if v & 1 == 1 then 0x9908B0DF else 0)
  }

  lemma FollowingRaw(x: bv32, u: bv32, v: bv32)
    ensures Xor(x, TimesA(UpperLower(u, v)))
         == x ^ (((u & 0x80000000) | (v & 0x7FFFFFFF)) >> 1) ^ (if v & 1 == 1 then 0x9908B0DF else 0)
  {
  }

  lemma FollowingIs(x: bv32, u: bv32, v: bv32)
    ensures Xor(x, TimesA(UpperLower(u, v))) == Following(x, u, v)
  {
    hide Xor, TimesA, UpperLower;
    FollowingRaw(x, u, v);
  }

  lemma Recurrence(s: Word, i: nat)
    ensures X(s, i + 624) == Following(X(s, i + 397), X(s, i), X(s, i + 1))
  {
    hide Xor, TimesA, UpperLower, Following;
    FollowingIs(X(s, i + 397), X(s, i), X(s, i + 1));
  }

  lemma TimesRaw(a: bv32, b: bv32, x: bv32)
    ensures Times(a, b * x) == a * b * x && Times(a * b, x) == a * b * x
    ensures Times(b, x) == b * x && Times(a, b) == a * b
  {
  }

  lemma TimesAssoc(a: Word, b: Word, x: Word)
    ensures Times(a, Times(b, x)) == Times(Times(a, b), x)
  {
    hide Times;
    TimesRaw(a, b, x);
  }

  // 2783094533 is the inverse of 69069 modulo 2 to the 32.
  lemma Inverse69069(x: Word)
    ensures Times(2783094533, 69069) == 1 && Times(1, x) == x
  {
  }

  lemma OverTimes(x: Word)
    ensures Times(2783094533, Times69069(x)) == x
  {
    hide Times;
    TimesAssoc(2783094533, 69069, x);
    Inverse69069(x);
  }

  // The seeded terms: an odd start, and each term divided by 69069 is the one
  // before it.
  lemma SeededTerms(s: Word, i: nat)
    requires i < 624
    ensures i == 0 ==> X(s, i) == s | 1
    ensures i > 0 ==> Times(2783094533, X(s, i)) == X(s, i - 1)
  {
    hide Times69069, Times;
    if i == 0 {
    } else {
      OverTimes(X(s, i - 1));
    }
  }

  function Temper1(y: Word): Word { y ^ (y >> 11) }
  function Temper2(y: Word): Word { y ^ ((y << 7) & 0x9D2C5680) }
  function Temper3(y: Word): Word { y ^ ((y << 15) & 0xEFC60000) }
  function Temper4(y: Word): Word { y ^ (y >> 18) }

  function Temper(x: Word): Word {
    Temper4(Temper3(Temper2(Temper1(x))))
  }

  // Tempering loses nothing: each step has an inverse.
  function Untemper1(y: Word): Word { y ^ (y >> 11) ^ (y >> 22) }

  function Untemper2(z: Word): Word {
    z ^ ((z << 7) & 0x9D2C5680) ^ ((z << 14) & 0x94284000) ^ ((z << 21) & 0x14200000) ^ ((z << 28) & 0x10000000)
  }

  lemma Temper1Is(x: Word)
    ensures Temper1(x) == x ^ (x >> 11)
    ensures Untemper1(x ^ (x >> 11)) == x
  {
  }

  lemma Inverse1(x: Word)
    ensures Untemper1(Temper1(x)) == x
  {
    hide Temper1, Untemper1;
    Temper1Is(x);
  }

  lemma Inverse2(x: Word)
    ensures Untemper2(Temper2(x)) == x
  {
  }

  lemma Temper2Is(x: Word)
    ensures Temper2(x) == x ^ ((x << 7) & 0x9D2C5680)
  {
  }

  lemma Inverse3(x: Word)
    ensures Temper3(Temper3(x)) == x
  {
  }

  lemma Temper3Is(x: Word)
    ensures Temper3(x) == x ^ ((x << 15) & 0xEFC60000)
  {
  }

  lemma Temper4Is(x: Word)
    ensures Temper4(x) == x ^ (x >> 18)
    ensures Temper4(x ^ (x >> 18)) == x
  {
  }

  lemma Inverse4(x: Word)
    ensures Temper4(Temper4(x)) == x
  {
    hide Temper4;
    Temper4Is(x);
  }

  lemma TemperingInverts(x: Word)
    ensures Untemper1(Untemper2(Temper3(Temper4(Temper(x))))) == x
  {
    hide Temper1, Temper2, Temper3, Temper4, Untemper1, Untemper2;
    Inverse1(x);
    Inverse2(Temper1(x));
    Inverse3(Temper2(Temper1(x)));
    Inverse4(Temper3(Temper2(Temper1(x))));
  }

  // ---------- The code ----------

  function HiBit(u: Word): Word { u & 0x80000000 }
  function LoBit(u: Word): Word { u & 0x00000001 }
  function LoBits(u: Word): Word { u & 0x7FFFFFFF }
  function MixBits(u: Word, v: Word): Word { HiBit(u) | LoBits(v) }

  // What both loops of reload_mt store.
  function NewWord(m: Word, s0: Word, s1: Word): Word {
    Xor(Xor(m, Half(MixBits(s0, s1))), if LoBit(s1) != 0 then 0x9908B0DF else 0)
  }

  lemma MixIs(s0: Word, s1: Word)
    ensures MixBits(s0, s1) == UpperLower(s0, s1)
  {
  }

  lemma LowestRaw(s0: bv32, s1: bv32)
    ensures ((s0 & 0x80000000) | (s1 & 0x7FFFFFFF)) & 1 == s1 & 1
    ensures s1 & 1 == 1 <==> s1 & 1 != 0
  {
  }

  // The lowest bit of the mixed word is that of s1.
  lemma LowestOfMix(s0: Word, s1: Word)
    ensures LowestBit(UpperLower(s0, s1)) == 1 <==> LoBit(s1) != 0
  {
    LowestRaw(s0, s1);
  }

  lemma XorAssoc(x: Word, y: Word, z: Word)
    ensures Xor(Xor(x, y), z) == Xor(x, Xor(y, z))
  {
  }

  lemma NewWordIs(m: Word, s0: Word, s1: Word)
    ensures NewWord(m, s0, s1) == Xor(m, TimesA(UpperLower(s0, s1)))
  {
    hide Xor, Half, LowestBit, LoBit, MixBits, UpperLower;
    MixIs(s0, s1);
    LowestOfMix(s0, s1);
    XorAssoc(m, Half(MixBits(s0, s1)), if LoBit(s1) != 0 then 0x9908B0DF else 0);
  }

  // The word that replaces term n is term n + N.
  lemma NextTerm(seed: Word, n: nat)
    ensures NewWord(X(seed, n + M), X(seed, n), X(seed, n + 1)) == X(seed, n + N)
  {
    hide NewWord, Xor, TimesA, UpperLower;
    NewWordIs(X(seed, n + M), X(seed, n), X(seed, n + 1));
  }

  class Generator {
    const state: array<Word>
    // next - state
    var next: nat
    var left: int
    // The seed in use, if any, and the numbers drawn from it
    ghost var seed: Seeding
    ghost var drawn: nat

    ghost predicate Shaped() {
      state.Length == N + 1
    }

    // The first N words of the state are terms b, b + 1, ... of the sequence.
    ghost predicate Batch(s: Word, b: nat)
      requires Shaped()
      reads state
    {
      forall i {:trigger state[i]} :: 0 <= i < N ==> state[i] == X(s, b + i)
    }

    ghost predicate Valid()
      reads this, state
    {
      && Shaped()
      && match seed
         case Unseeded => left == -1 && drawn == 0
         case Seed(s) => 0 <= left < N && (left > 0 ==> next == N - left) && Batch(s, drawn + left)
    }

    constructor ()
      ensures Valid() && fresh(state) && seed == Unseeded
    {
      state := new Word[N + 1];
      next, left, seed, drawn := 0, -1, Unseeded, 0;
    }

    method SeedMt(value: Word)
      requires Shaped()
      modifies this, state
      ensures Valid() && seed == Seed(value) && drawn == 0 && left == 0
    {
      hide Odd, Times69069;
      var x := Odd(value);
      left := 0;
      state[0] := x;
      var i := 1;
      while i < N
        modifies state
        invariant 1 <= i <= N && x == Seeded(value, i - 1)
        invariant forall k {:trigger state[k]} :: 0 <= k < i ==> state[k] == Seeded(value, k)
      {
        x := Times69069(x);
        state[i] := x;
        i := i + 1;
      }
      seed, drawn := Seed(value), 0;
    }

    // The first i words are of the new batch, the others still of the old one.
    ghost predicate Partly(s: Word, b: nat, i: nat)
      requires Shaped()
      reads state
    {
      && (forall k {:trigger state[k]} :: 0 <= k < i && k < N ==> state[k] == X(s, b + N + k))
      && (forall k {:trigger state[k]} :: i <= k < N ==> state[k] == X(s, b + k))
    }

    // Replaces word i, which is term b + i, by term b + N + i.
    method Put(ghost s: Word, ghost b: nat, i: nat, m: Word, s0: Word, s1: Word)
      requires Shaped() && i < N && Partly(s, b, i)
      requires m == X(s, b + i + M) && s0 == X(s, b + i) && s1 == X(s, b + i + 1)
      modifies state
      ensures Partly(s, b, i + 1)
    {
      hide X, NewWord;
      NextTerm(s, b + i);
      state[i] := NewWord(m, s0, s1);
    }

    lemma OldWord(s: Word, b: nat, i: nat, k: nat)
      requires Shaped() && Partly(s, b, i) && i <= k < N
      ensures state[k] == X(s, b + k)
    {
    }

    lemma FreshWord(s: Word, b: nat, i: nat, k: nat)
      requires Shaped() && Partly(s, b, i) && k < i && k < N
      ensures state[k] == X(s, b + N + k)
    {
    }

    lemma Whole(s: Word, b: nat)
      requires Shaped()
      ensures Batch(s, b) <==> Partly(s, b, 0)
      ensures Batch(s, b + N) <==> Partly(s, b, N)
    {
      hide X;
      assert Batch(s, b + N) ==> Partly(s, b, N);
      if Partly(s, b, N) {
        forall i {:trigger state[i]} | 0 <= i < N ensures state[i] == X(s, b + N + i) {
        }
      }
    }

    // The part of reload_mt that fills the batch in place: three parts, of which
    // the second and the third read words of the new batch, and the last word of
    // the array is read but not used.
    method Refill(ghost s: Word, ghost b: nat)
      requires Shaped() && Batch(s, b)
      modifies state
      ensures Batch(s, b + N) && state[0] == X(s, b + N)
    {
      hide X, Batch, Partly;
      Whole(s, b);
      OldWord(s, b, 0, 0);
      OldWord(s, b, 0, 1);
      var s0, s1 := state[0], state[1];
      var i := 0;
      while i < N - M
        invariant 0 <= i <= N - M && Partly(s, b, i)
        invariant s0 == X(s, b + i) && s1 == X(s, b + i + 1)
      {
        OldWord(s, b, i, M + i);
        Put(s, b, i, state[M + i], s0, s1);
        OldWord(s, b, i + 1, i + 2);
        s0, s1 := s1, state[i + 2];
        i := i + 1;
      }
      while i < N - 1
        invariant N - M <= i <= N - 1 && Partly(s, b, i)
        invariant s0 == X(s, b + i) && (i < N - 1 ==> s1 == X(s, b + i + 1))
      {
        FreshWord(s, b, i, i - (N - M));
        Put(s, b, i, state[i - (N - M)], s0, s1);
        if i + 2 < N {
          OldWord(s, b, i + 1, i + 2);
        }
        s0, s1 := s1, state[i + 2];
        i := i + 1;
      }
      s1 := state[0];
      FreshWord(s, b, i, 0);
      FreshWord(s, b, i, M - 1);
      Put(s, b, i, state[M - 1], s0, s1);
      FreshWord(s, b, N, 0);
      Whole(s, b);
    }

    // The four lines that reload_mt and random_mt share
    method Tempered(x: Word) returns (r: Word)
      ensures r == Temper(x)
    {
      hide Temper1, Temper2, Temper3, Temper4, Untemper1;
      var y := x;
      Temper1Is(y);
      y := y ^ (y >> 11);
      Temper2Is(y);
      y := y ^ ((y << 7) & 0x9D2C5680);
      Temper3Is(y);
      y := y ^ ((y << 15) & 0xEFC60000);
      Temper4Is(y);
      r := y ^ (y >> 18);
    }

    method ReloadMt() returns (r: Word)
      requires Shaped() && left < 0 && (seed == Unseeded ==> left < -1)
      requires seed.Seed? ==> left == -1 && Batch(seed.value, drawn)
      modifies this, state
      ensures Shaped() && left == N - 1 && next == 1
      ensures seed.Seed? && Batch(seed.value, drawn + left)
      ensures seed == Seed(if old(seed) == Unseeded then 4357 else old(seed).value)
      ensures drawn == if old(seed) == Unseeded then 1 else old(drawn) + 1
      ensures r == Temper(X(seed.value, N + drawn - 1))
    {
      hide X, Temper;
      if left < -1 {
        SeedMt(4357);
      }
      assert Batch(seed.value, drawn);
      left, next := N - 1, 1;
      Refill(seed.value, drawn);
      r := Tempered(state[0]);
      drawn := drawn + 1;
    }

    // random_mt: number k that is drawn after seeding is the tempered term N + k
    // of the sequence.
    method RandomMt() returns (r: Word)
      requires Valid()
      modifies this, state
      ensures Valid()
      ensures seed == Seed(if old(seed) == Unseeded then 4357 else old(seed).value)
      ensures drawn == old(drawn) + 1
      ensures r == Temper(X(seed.value, N + old(drawn)))
    {
      hide X, Temper;
      left := left - 1;
      if left < 0 {
        r := ReloadMt();
      } else {
        r := Tempered(state[next]);
        next := next + 1;
        drawn := drawn + 1;
      }
    }
  }

  datatype Seeding = Unseeded | Seed(value: Word)

  // The first count numbers after seed_mt.
  method Draw(seed: Word, count: nat) returns (numbers: seq<Word>)
    ensures |numbers| == count
    ensures forall k :: 0 <= k < count ==> numbers[k] == Temper(X(seed, N + k))
  {
    hide X, Temper;
    var g := new Generator();
    g.SeedMt(seed);
    numbers := [];
    while |numbers| < count
      invariant |numbers| <= count
      invariant g.Valid() && fresh(g) && fresh(g.state) && g.seed == Seed(seed) && g.drawn == |numbers|
      invariant forall k :: 0 <= k < |numbers| ==> numbers[k] == Temper(X(seed, N + k))
    {
      var r := g.RandomMt();
      numbers := numbers + [r];
    }
  }

  // ---------- Known numbers ----------

  // n seeding steps from term i on multiply by k.
  ghost predicate Strides(k: Word, n: nat, s: Word, i: nat) {
    Seeded(s, i + n) == Times(k, Seeded(s, i))
  }

  lemma StridesTwice(k: Word, n: nat, k2: Word, n2: nat)
    requires k2 == Times(k, k) && n2 == n + n && forall s, i: nat :: Strides(k, n, s, i)
    ensures forall s, i: nat :: Strides(k2, n2, s, i)
  {
    hide Seeded, Times;
    forall s, i: nat ensures Strides(k2, n2, s, i) {
      assert Strides(k, n, s, i) && Strides(k, n, s, i + n);
      TimesAssoc(k, k, Seeded(s, i));
    }
  }

  lemma OneStep()
    ensures forall s, i: nat :: Strides(69069, 1, s, i)
  {
    hide Times69069, Times;
    forall s, i: nat ensures Strides(69069, 1, s, i) {
      TimesIs(Seeded(s, i));
    }
  }

  lemma TimesIs(x: Word)
    ensures Times69069(x) == Times(69069, x)
  {
    hide Times;
  }

  // The powers of 69069 with exponents that are powers of two
  lemma Powers()
    ensures Times(69069, 69069) == 475559465 && Times(475559465, 475559465) == 1790562961
    ensures Times(1790562961, 1790562961) == 381957665 && Times(381957665, 381957665) == 2583294017
    ensures Times(2583294017, 2583294017) == 4058771585 && Times(4058771585, 4058771585) == 1355292929
    ensures Times(1355292929, 1355292929) == 902906369 && Times(902906369, 902906369) == 1084654593
  {
  }

  // Term 397 after the start 4357: 397 is 256 + 128 + 8 + 4 + 1.
  lemma Term397()
    ensures Seeded(4357, 397) == 61989553
  {
    hide Seeded, Times, Strides;
    OneStep();
    Powers();
    StridesTwice(69069, 1, 475559465, 2);
    StridesTwice(475559465, 2, 1790562961, 4);
    StridesTwice(1790562961, 4, 381957665, 8);
    StridesTwice(381957665, 8, 2583294017, 16);
    StridesTwice(2583294017, 16, 4058771585, 32);
    StridesTwice(4058771585, 32, 1355292929, 64);
    StridesTwice(1355292929, 64, 902906369, 128);
    StridesTwice(902906369, 128, 1084654593, 256);
    Stride(1084654593, 256, 4357, 0);
    Stride(902906369, 128, 4357, 256);
    Stride(381957665, 8, 4357, 384);
    Stride(1790562961, 4, 4357, 392);
    Stride(69069, 1, 4357, 396);
    Products();
  }

  lemma Stride(k: Word, n: nat, s: Word, i: nat)
    requires Strides(k, n, s, i)
    ensures Seeded(s, i + n) == Times(k, Seeded(s, i))
  {
  }

  lemma Products()
    ensures Seeded(4357, 0) == 4357
    ensures Times(1084654593, 4357) == 1376036101 && Times(902906369, 1376036101) == 1185214213
    ensures Times(381957665, 1185214213) == 1401019813 && Times(1790562961, 1401019813) == 1386013813
    ensures Times(69069, 1386013813) == 61989553
  {
  }

  lemma FirstNumber()
    ensures Temper(X(4357, 624)) == 3510405877
  {
    hide Following, Temper;
    Recurrence(4357, 0);
    Term397();
    FirstTerms();
  }

  lemma FirstTerms()
    ensures Seeded(4357, 0) == 4357 && Seeded(4357, 1) == 300933633
    ensures Following(61989553, 4357, 300933633) == 0x924EA36E
    ensures Temper(0x924EA36E) == 3510405877
  {
  }

  // The first number after seeding with 4357, and of a generator that was never
  // seeded
  method FirstDraw() returns (number: Word, unseeded: Word)
    ensures number == 3510405877 && unseeded == 3510405877
  {
    hide X, Temper;
    var numbers := Draw(4357, 1);
    FirstNumber();
    number := numbers[0];
    var g := new Generator();
    unseeded := g.RandomMt();
  }
}
