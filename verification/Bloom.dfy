// lib/hi_bloom_filter.c: a bit map that each key sets at most k bits of.

module Bloom {
  import opened Counters
  import opened Keys

  type Byte = bv8
  type Bytes = seq<Byte>

  // The table of hash functions: function iter applied to a key
  type HashMap = (nat, Bytes) -> nat

  // The number of entries of lhi_hashmap
  const HASHES: nat := 7

  // ---------- Bits of a byte ----------

  // 1 << i, the bit mask
  function Mask(i: nat): Byte
    requires i < 8
  {
    if i == 0 then 0x01 else if i == 1 then 0x02 else if i == 2 then 0x04 else if i == 3 then 0x08
    else if i == 4 then 0x10 else if i == 5 then 0x20 else if i == 6 then 0x40 else 0x80
  }

  predicate Test(b: Byte, i: nat)
    requires i < 8
  {
    b & Mask(i) != 0
  }

  function SetBit(b: Byte, i: nat): Byte
    requires i < 8
  {
    b | Mask(i)
  }

  lemma TestSet(b: Byte, i: nat, j: nat)
    requires i < 8 && j < 8
    ensures Test(SetBit(b, i), j) <==> Test(b, j) || i == j
  {
  }

  function Digit(b: Byte, i: nat, worth: nat): nat
    requires i < 8
  {
    if Test(b, i) then worth else 0
  }

  // The bits of a byte are its binary digits.
  lemma Digits(b: Byte)
    ensures b as nat == Digit(b, 0, 1) + Digit(b, 1, 2) + Digit(b, 2, 4) + Digit(b, 3, 8)
                      + Digit(b, 4, 16) + Digit(b, 5, 32) + Digit(b, 6, 64) + Digit(b, 7, 128)
  {
  }

  lemma TestZero(i: nat)
    requires i < 8
    ensures !Test(0, i)
  {
  }

  // Bit number bit of the map
  predicate BitOf(bytes: seq<Byte>, bit: nat)
    requires bit / 8 < |bytes|
  {
    Test(bytes[bit / 8], bit % 8)
  }

  lemma BitIs(bytes: seq<Byte>, bit: nat)
    requires bit / 8 < |bytes|
    ensures BitOf(bytes, bit) <==> Test(bytes[bit / 8], bit % 8)
  {
  }

  lemma BitAfter(bytes: seq<Byte>, bit: nat, j: nat)
    requires bit / 8 < |bytes| && j / 8 < |bytes|
    ensures BitOf(bytes[bit / 8 := SetBit(bytes[bit / 8], bit % 8)], j) <==> BitOf(bytes, j) || j == bit
  {
    hide Test, SetBit;
    TestSet(bytes[bit / 8], bit % 8, j % 8);
  }

  // The first m bits of the map are those of the set.
  ghost predicate Maps(bytes: seq<Byte>, m: nat, bits: set<nat>)
    requires |bytes| == m / 8 && m % 8 == 0
  {
    && (forall j :: j in bits ==> j < m)
    && (forall j {:trigger j in bits} :: 0 <= j < m ==> (BitOf(bytes, j) <==> j in bits))
  }

  lemma MapsAfter(bytes: seq<Byte>, m: nat, bits: set<nat>, bit: nat)
    requires |bytes| == m / 8 && m % 8 == 0 && Maps(bytes, m, bits) && bit < m
    ensures Test(bytes[bit / 8], bit % 8) <==> bit in bits
    ensures Maps(bytes[bit / 8 := SetBit(bytes[bit / 8], bit % 8)], m, bits + {bit})
  {
    hide Test, SetBit, Mask, BitOf;
    BitIs(bytes, bit);
    forall j | 0 <= j < m ensures BitOf(bytes[bit / 8 := SetBit(bytes[bit / 8], bit % 8)], j) <==> BitOf(bytes, j) || j == bit {
      BitAfter(bytes, bit, j);
    }
  }

  // ---------- The filter ----------

  // The bits of a key
  function Positions(hash: HashMap, m: nat, k: nat, key: Bytes): set<nat>
    requires k > 0 ==> m > 0
  {
    set i | 0 <= i < k :: hash(i, key) % m
  }

  lemma NoPositions(hash: HashMap, m: nat, key: Bytes)
    ensures Positions(hash, m, 0, key) == {}
  {
  }

  lemma PositionsNext(hash: HashMap, m: nat, k: nat, key: Bytes)
    requires m > 0
    ensures Positions(hash, m, k + 1, key) == Positions(hash, m, k, key) + {hash(k, key) % m}
  {
    forall j | j in Positions(hash, m, k, key) + {hash(k, key) % m} ensures j in Positions(hash, m, k + 1, key) {
      if j == hash(k, key) % m {
      } else {
        var i :| 0 <= i < k && hash(i, key) % m == j;
      }
    }
  }

  class Filter {
    const filterMap: array<Byte>
    const m: nat
    const k: nat
    const hash: HashMap
    // Counters of 32 bits
    var bitCollision: nat
    var n: nat

    // The keys added, the number of calls that added them, the collisions seen
    // and the bits that are set
    ghost var keys: set<Bytes>
    ghost var adds: nat
    ghost var collisions: nat
    ghost var bits: set<nat>

    ghost predicate Counted()
      reads this
    {
      && n == adds % WORD && bitCollision == collisions % WORD
      && |bits| + collisions == k * adds
    }

    ghost predicate Mapped(bits: set<nat>)
      requires filterMap.Length == m / 8 && m % 8 == 0
      reads filterMap
    {
      Maps(filterMap[..], m, bits)
    }

    ghost predicate Valid()
      reads this, filterMap
    {
      && m % 8 == 0 && m < WORD && k <= HASHES && filterMap.Length == m / 8
      && Mapped(bits) && Counted()
      && ((k > 0 ==> m > 0) ==> forall key :: key in keys ==> Positions(hash, m, k, key) <= bits)
      && ((k > 0 ==> m > 0) ==> forall j :: j in bits ==> exists key :: key in keys && j in Positions(hash, m, k, key))
    }

    // hi_bloom_init_mk once its arguments have passed
    constructor (m: nat, k: nat, hash: HashMap)
      requires m % 8 == 0 && m < WORD && k <= HASHES
      ensures Valid() && fresh(filterMap) && keys == {} && bits == {} && adds == 0
      ensures this.m == m && this.k == k && this.hash == hash
    {
      filterMap := new Byte[m / 8](_ => 0);
      this.m, this.k, this.hash := m, k, hash;
      bitCollision, n, keys, adds, collisions, bits := 0, 0, {}, 0, 0, {};
      new;
      forall j | 0 <= j < m ensures !BitOf(filterMap[..], j) {
        TestZero(j % 8);
      }
    }

    // One turn of the loop of hi_bloom_filter_add
    method SetOne(bit: nat)
      requires bit < m && m % 8 == 0 && filterMap.Length == m / 8 && Mapped(bits)
      requires bitCollision == collisions % WORD
      modifies `bitCollision, `collisions, `bits, filterMap
      ensures Mapped(bits) && bits == old(bits) + {bit}
      ensures bitCollision == collisions % WORD
      ensures |bits| + collisions == old(|bits| + collisions) + 1
    {
      hide Test, SetBit, Mask, BitOf, Maps, Inc32;
      var offset := bit / 8;
      MapsAfter(filterMap[..], m, bits, bit);
      CountUp(collisions, collisions + 1);
      if Test(filterMap[offset], bit % 8) {
        bitCollision := Inc32(bitCollision);
        collisions := collisions + 1;
        assert bits + {bit} == bits;
      }
      ghost var was := filterMap[..];
      filterMap[offset] := SetBit(filterMap[offset], bit % 8);
      assert filterMap[..] == was[offset := SetBit(was[offset], bit % 8)];
      bits := bits + {bit};
    }

    // The loop of hi_bloom_filter_add
    method SetAll(key: Bytes)
      requires (k > 0 ==> m > 0) && m % 8 == 0 && filterMap.Length == m / 8 && Mapped(bits)
      requires bitCollision == collisions % WORD
      modifies `bitCollision, `collisions, `bits, filterMap
      ensures Mapped(bits) && bits == old(bits) + Positions(hash, m, k, key)
      ensures bitCollision == collisions % WORD && |bits| + collisions == old(|bits| + collisions) + k
    {
      hide Positions, Mapped;
      NoPositions(hash, m, key);
      var iter := 0;
      while iter < k
        invariant 0 <= iter <= k
        invariant Mapped(bits) && bits == old(bits) + Positions(hash, m, iter, key)
        invariant bitCollision == collisions % WORD
        invariant |bits| + collisions == old(|bits| + collisions) + iter
      {
        var hkey := hash(iter, key);
        PositionsNext(hash, m, iter, key);
        SetOne(hkey % m);
        iter := iter + 1;
      }
    }

    // hi_bloom_filter_add: exactly the bits of the key are set in addition.
    method Add(key: Bytes)
      requires Valid() && (k > 0 ==> m > 0)
      modifies this, filterMap
      ensures Valid() && keys == old(keys) + {key} && adds == old(adds) + 1
      ensures bits == old(bits) + Positions(hash, m, k, key)
    {
      hide Positions, Mapped;
      CountUp(adds, adds + 1);
      n := Inc32(n);
      SetAll(key);
      keys := keys + {key};
      adds := adds + 1;
      Distribute(k, adds - 1);
      ghost var p := Positions(hash, m, k, key);
      assert forall j :: j in p ==> key in keys && j in Positions(hash, m, k, key);
    }

    // hi_bloom_filter_check: the answer is yes exactly when every bit of the key
    // is set, and so for every key that was added.
    method Check(key: Bytes) returns (found: bool)
      requires Valid() && (k > 0 ==> m > 0)
      ensures found <==> Positions(hash, m, k, key) <= bits
      ensures key in keys ==> found
    {
      var iter := 0;
      while iter < k
        invariant 0 <= iter <= k && Positions(hash, m, iter, key) <= bits
      {
        var bit := hash(iter, key) % m;
        PositionsNext(hash, m, iter, key);
        assert bit in Positions(hash, m, k, key);
        if !Test(filterMap[bit / 8], bit % 8) {
          return false;
        }
        iter := iter + 1;
      }
      return true;
    }

    // The counters account for every bit that every call set: what was not new
    // is a collision.
    lemma Accounting()
      requires Valid()
      ensures (|bits| + bitCollision) % WORD == k * n % WORD
    {
      var q, r := adds / WORD, collisions / WORD;
      assert k * adds == k * n + k * q * WORD;
      assert |bits| + bitCollision + r * WORD == k * n + k * q * WORD;
      Congruent(|bits| + bitCollision, r, k * n, k * q);
    }
  }

  lemma Distribute(k: nat, a: nat)
    ensures k * (a + 1) == k * a + k
  {
  }

  lemma Congruent(x: nat, r: nat, y: nat, q: nat)
    requires x + r * WORD == y + q * WORD
    ensures x % WORD == y % WORD
  {
  }

  // hi_bloom_init_mk; the number of bits must fill whole bytes, and there are
  // seven hash functions.
  method Create(m: nat, k: nat, hash: HashMap) returns (code: Code, bh: Filter?)
    requires m < WORD && k < WORD
    ensures code == if m % 8 != 0 || k > 7 then ErrRange else Success
    ensures code == Success <==> bh != null
    ensures bh != null ==> fresh(bh) && fresh(bh.filterMap) && bh.Valid()
    ensures bh != null ==> bh.keys == {} && bh.bits == {} && bh.m == m && bh.k == k
  {
    if m % 8 != 0 && m > 0 {
      return ErrRange, null;
    }
    if HASHES < k {
      return ErrRange, null;
    }
    bh := new Filter(m, k, hash);
    code := Success;
  }
}
