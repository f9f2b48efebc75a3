// lib/hash_func_murmur.c: MurmurHash2 with a separate path for keys that do not
// start on a word boundary. Words are read as a little-endian machine does.

module Murmur {
  import opened Words

  // ---------- The hash of a key, wherever it lies ----------

  function Magic(k: Word): Word { k * 0x5bd1e995 }
  // The inverse of the multiplier modulo 2 to the 32
  function Unmagic(k: Word): Word { k * 0xe59b19bd }

  lemma MagicRaw(k: bv32)
    ensures Magic(k) == k * 0x5bd1e995 && Unmagic(k) == k * 0xe59b19bd
    ensures Unmagic(k * 0x5bd1e995) == k && Magic(k * 0xe59b19bd) == k
  {
  }

  lemma MagicInverts(k: Word)
    ensures Unmagic(Magic(k)) == k && Magic(Unmagic(k)) == k
  {
    hide Magic, Unmagic;
    MagicRaw(k);
  }

  function Fold24(k: Word): Word { k ^ (k >> 24) }

  // The macro MIX
  function Mix(h: Word, k: Word): Word {
    Xor(Magic(h), Magic(Fold24(Magic(k))))
  }

  function Tail(h: Word, s: seq<Byte>): Word {
    if s == [] then h else Magic(Xor(h, Pack(s, 0)))
  }

  // Whole words are mixed in, and what is left over is the tail.
  function Digest(h: Word, s: seq<Byte>): Word
    decreases |s|
  {
    if |s| < 4 then Tail(h, s) else Digest(Mix(h, Pack(s, 0)), s[4..])
  }

  function Fold13(h: Word): Word { h ^ (h >> 13) }
  function Fold15(h: Word): Word { h ^ (h >> 15) }

  // murmur_fini
  function Fini(h: Word): Word {
    Fold15(Magic(Fold13(h)))
  }

  // ---------- Bytes gathered one by one ----------

  function Or0(d: Word, b: Byte): Word { d | (b as bv32) }
  function Or8(d: Word, b: Byte): Word { d | ((b as bv32) << 8) }
  function Or16(d: Word, b: Byte): Word { d | ((b as bv32) << 16) }
  function Xor0(d: Word, b: Byte): Word { d ^ (b as bv32) }
  function Xor8(d: Word, b: Byte): Word { d ^ ((b as bv32) << 8) }
  function Xor16(d: Word, b: Byte): Word { d ^ ((b as bv32) << 16) }

  lemma GatherIs(b0: Byte, b1: Byte, b2: Byte)
    ensures Or0(Or8(Or16(0, b2), b1), b0) == Pack4(b0, b1, b2, 0)
    ensures Or0(Or8(0, b1), b0) == Pack4(b0, b1, 0, 0)
    ensures Or0(0, b0) == Pack4(b0, 0, 0, 0)
  {
  }

  lemma Xor3Raw(h: bv32, b0: bv8, b1: bv8, b2: bv8)
    ensures Xor0((h ^ ((b2 as bv32) << 16)) ^ ((b1 as bv32) << 8), b0)
         == Xor(h, ((b0 as bv32) | ((b1 as bv32) << 8) | ((b2 as bv32) << 16)))
  {
  }

  lemma Xor2Raw(h: bv32, b0: bv8, b1: bv8)
    ensures Xor0(h ^ ((b1 as bv32) << 8), b0) == Xor(h, ((b0 as bv32) | ((b1 as bv32) << 8)))
  {
  }

  lemma Xor1Raw(h: bv32, b0: bv8)
    ensures Xor0(h, b0) == Xor(h, (b0 as bv32))
  {
  }

  lemma Unfolded(h: Word, b: Byte)
    ensures Xor16(h, b) == h ^ ((b as bv32) << 16) && Xor8(h, b) == h ^ ((b as bv32) << 8)
  {
  }

  lemma Xor3(h: Word, b0: Byte, b1: Byte, b2: Byte)
    ensures Xor0(Xor8(Xor16(h, b2), b1), b0) == Xor(h, Pack4(b0, b1, b2, 0))
  {
    hide Xor0, Xor8, Xor16, Xor, Pack4;
    Xor3Raw(h, b0, b1, b2);
    Unfolded(h, b2);
    Unfolded(h ^ ((b2 as bv32) << 16), b1);
    Packed(b0, b1, b2, 0);
  }

  lemma Xor2(h: Word, b0: Byte, b1: Byte)
    ensures Xor0(Xor8(h, b1), b0) == Xor(h, Pack4(b0, b1, 0, 0))
  {
    hide Xor0, Xor8, Xor16, Xor, Pack4;
    Xor2Raw(h, b0, b1);
    Unfolded(h, b1);
    Packed(b0, b1, 0, 0);
  }

  lemma Xor1(h: Word, b0: Byte)
    ensures Xor0(h, b0) == Xor(h, Pack4(b0, 0, 0, 0))
  {
    hide Xor0, Xor, Pack4;
    Xor1Raw(h, b0);
    Packed(b0, 0, 0, 0);
  }

  // ---------- The shift pair ----------

  // t >> sr and d << sl, where sr is 8 * align and sl is 8 * (4 - align)
  function Right(t: Word, align: nat): Word
    requires 1 <= align <= 3
  {
    if align == 1 then t >> 8 else if align == 2 then t >> 16 else t >> 24
  }

  function Left(t: Word, align: nat): Word
    requires 1 <= align <= 3
  {
    if align == 1 then t << 8 else if align == 2 then t << 16 else t << 24
  }

  function Or(x: Word, y: Word): Word { x | y }

  function Spliced(t: Word, d: Word, align: nat): Word
    requires 1 <= align <= 3
  {
    Or(Right(t, align), Left(d, 4 - align))
  }

  lemma Splice1Raw(p0: bv8, p1: bv8, p2: bv8, q0: bv8, q1: bv8, q2: bv8, q3: bv8)
    ensures Or(((p0 as bv32) | ((p1 as bv32) << 8) | ((p2 as bv32) << 16)),
               Left(((q0 as bv32) | ((q1 as bv32) << 8) | ((q2 as bv32) << 16) | ((q3 as bv32) << 24)), 3))
         == Pack4(p0, p1, p2, q0)
  {
  }

  lemma Splice1(p0: Byte, p1: Byte, p2: Byte, q0: Byte, q1: Byte, q2: Byte, q3: Byte)
    ensures Or(Pack4(p0, p1, p2, 0), Left(Pack4(q0, q1, q2, q3), 3)) == Pack4(p0, p1, p2, q0)
  {
    hide Or, Left, Pack4;
    Splice1Raw(p0, p1, p2, q0, q1, q2, q3);
    Packed(p0, p1, p2, 0);
    Packed(q0, q1, q2, q3);
  }

  lemma Splice2Raw(p0: bv8, p1: bv8, q0: bv8, q1: bv8, q2: bv8, q3: bv8)
    ensures Or(((p0 as bv32) | ((p1 as bv32) << 8)),
               Left(((q0 as bv32) | ((q1 as bv32) << 8) | ((q2 as bv32) << 16) | ((q3 as bv32) << 24)), 2))
         == Pack4(p0, p1, q0, q1)
  {
  }

  lemma Splice2(p0: Byte, p1: Byte, q0: Byte, q1: Byte, q2: Byte, q3: Byte)
    ensures Or(Pack4(p0, p1, 0, 0), Left(Pack4(q0, q1, q2, q3), 2)) == Pack4(p0, p1, q0, q1)
  {
    hide Or, Left, Pack4;
    Splice2Raw(p0, p1, q0, q1, q2, q3);
    Packed(p0, p1, 0, 0);
    Packed(q0, q1, q2, q3);
  }

  lemma Splice3Raw(p0: bv8, q0: bv8, q1: bv8, q2: bv8, q3: bv8)
    ensures Or((p0 as bv32), Left(((q0 as bv32) | ((q1 as bv32) << 8) | ((q2 as bv32) << 16) | ((q3 as bv32) << 24)), 1))
         == Pack4(p0, q0, q1, q2)
  {
  }

  lemma Splice3(p0: Byte, q0: Byte, q1: Byte, q2: Byte, q3: Byte)
    ensures Or(Pack4(p0, 0, 0, 0), Left(Pack4(q0, q1, q2, q3), 1)) == Pack4(p0, q0, q1, q2)
  {
    hide Or, Left, Pack4;
    Splice3Raw(p0, q0, q1, q2, q3);
    Packed(p0, 0, 0, 0);
    Packed(q0, q1, q2, q3);
  }

  lemma RightIs(q0: Byte, q1: Byte, q2: Byte, q3: Byte)
    ensures Right(Pack4(q0, q1, q2, q3), 1) == Pack4(q1, q2, q3, 0)
    ensures Right(Pack4(q0, q1, q2, q3), 2) == Pack4(q2, q3, 0, 0)
    ensures Right(Pack4(q0, q1, q2, q3), 3) == Pack4(q3, 0, 0, 0)
  {
  }

  lemma Shifted1Raw(p0: bv8, p1: bv8, p2: bv8)
    ensures Right(((p0 as bv32) | ((p1 as bv32) << 8) | ((p2 as bv32) << 16)) << 8, 1) == Pack4(p0, p1, p2, 0)
    ensures Left(((p0 as bv32) | ((p1 as bv32) << 8) | ((p2 as bv32) << 16)), 1)
         == ((p0 as bv32) | ((p1 as bv32) << 8) | ((p2 as bv32) << 16)) << 8
  {
  }

  lemma Shifted1(p0: Byte, p1: Byte, p2: Byte)
    ensures Right(Left(Pack4(p0, p1, p2, 0), 1), 1) == Pack4(p0, p1, p2, 0)
  {
    hide Left, Right, Pack4;
    Shifted1Raw(p0, p1, p2);
    Packed(p0, p1, p2, 0);
  }

  lemma Shifted2Raw(p0: bv8, p1: bv8)
    ensures Right(((p0 as bv32) | ((p1 as bv32) << 8)) << 16, 2) == Pack4(p0, p1, 0, 0)
    ensures Left(((p0 as bv32) | ((p1 as bv32) << 8)), 2) == ((p0 as bv32) | ((p1 as bv32) << 8)) << 16
  {
  }

  lemma Shifted2(p0: Byte, p1: Byte)
    ensures Right(Left(Pack4(p0, p1, 0, 0), 2), 2) == Pack4(p0, p1, 0, 0)
  {
    hide Left, Right, Pack4;
    Shifted2Raw(p0, p1);
    Packed(p0, p1, 0, 0);
  }

  lemma Shifted3Raw(p0: bv8)
    ensures Right((p0 as bv32) << 24, 3) == Pack4(p0, 0, 0, 0)
    ensures Left((p0 as bv32), 3) == (p0 as bv32) << 24
  {
  }

  lemma Shifted3(p0: Byte)
    ensures Right(Left(Pack4(p0, 0, 0, 0), 3), 3) == Pack4(p0, 0, 0, 0)
  {
    hide Left, Right, Pack4;
    Shifted3Raw(p0);
    Packed(p0, 0, 0, 0);
  }

  // The carried word and the next aligned word give the bytes of both.
  lemma SpliceBytes(t: Word, align: nat, p: seq<Byte>, q: seq<Byte>)
    requires 1 <= align <= 3 && |p| == 4 - align && Right(t, align) == Pack(p, 0)
    ensures Spliced(t, Pack(q, 0), align) == Pack(p + q, 0)
  {
    hide Or, Left, Right, Pack4;
    var q0, q1, q2, q3 := ByteAt(q, 0), ByteAt(q, 1), ByteAt(q, 2), ByteAt(q, 3);
    if align == 1 {
      Splice1(p[0], p[1], p[2], q0, q1, q2, q3);
    } else if align == 2 {
      Splice2(p[0], p[1], q0, q1, q2, q3);
    } else {
      Splice3(p[0], q0, q1, q2, q3);
    }
  }

  // What an aligned word carries over.
  lemma Carries(q: seq<Byte>, align: nat)
    requires 1 <= align <= 3 && |q| == 4
    ensures Right(Pack(q, 0), align) == Pack(q[align..], 0)
  {
    hide Right, Pack4;
    RightIs(q[0], q[1], q[2], q[3]);
  }

  lemma CarriesFirst(p: seq<Byte>, align: nat)
    requires 1 <= align <= 3 && |p| == 4 - align
    ensures Right(Left(Pack(p, 0), align), align) == Pack(p, 0)
  {
    hide Left, Right, Pack4;
    if align == 1 {
      Shifted1(p[0], p[1], p[2]);
    } else if align == 2 {
      Shifted2(p[0], p[1]);
    } else {
      Shifted3(p[0]);
    }
  }

  // ---------- The code ----------

  // The switch that gathers up to three bytes, each case falling through
  method Gather(data: seq<Byte>) returns (d: Word)
    requires |data| <= 3
    ensures d == Pack(data, 0)
  {
    hide Or0, Or8, Or16, Pack4;
    d := 0;
    if |data| >= 3 {
      d := Or16(d, data[2]);
    }
    if |data| >= 2 {
      d := Or8(d, data[1]);
    }
    if |data| >= 1 {
      d := Or0(d, data[0]);
    }
    GatherIs(ByteAt(data, 0), ByteAt(data, 1), ByteAt(data, 2));
    Zero();
  }

  lemma Zero()
    ensures Pack4(0, 0, 0, 0) == 0
  {
  }

  // The switch over the tail bytes
  method TailBytes(h0: Word, data: seq<Byte>) returns (h: Word)
    requires |data| <= 3
    ensures h == Tail(h0, data)
  {
    hide Xor0, Xor8, Xor16, Xor, Magic, Pack4;
    h := h0;
    if |data| >= 3 {
      h := Xor16(h, data[2]);
    }
    if |data| >= 2 {
      h := Xor8(h, data[1]);
    }
    if |data| >= 1 {
      h := Xor0(h, data[0]);
      h := Magic(h);
    }
    Xor3(h0, ByteAt(data, 0), ByteAt(data, 1), ByteAt(data, 2));
    Xor2(h0, ByteAt(data, 0), ByteAt(data, 1));
    Xor1(h0, ByteAt(data, 0));
  }

  // murmur_hash_unaligned
  method HashUnaligned(data: seq<Byte>, align: nat, h0: Word) returns (h: Word)
    requires 1 <= align <= 3 && |data| >= 4
    ensures h == Fini(Digest(h0, data))
  {
    hide Or, Left, Right, Pack4, Mix, Xor, Magic, Fini, Pack;
    var at := 4 - align;
    var t := Gather(data[..at]);
    CarriesFirst(data[..at], align);
    t := Left(t, align);
    h := h0;
    assert data[at - (4 - align)..] == data;
    while |data| - at >= 4
      invariant 4 - align <= at <= |data|
      invariant Right(t, align) == Pack(data[at - (4 - align)..at], 0)
      invariant Digest(h0, data) == Digest(h, data[at - (4 - align)..])
    {
      var d := Pack(data[at..at + 4], 0);
      OneWord(data, at, align, t);
      h := Mix(h, Spliced(t, d, align));
      t := d;
      Carries(data[at..at + 4], align);
      at := at + 4;
    }
    if |data| - at >= align {
      var d := Gather(data[at..at + align]);
      LastWord(data, at, align, t);
      h := Mix(h, Spliced(t, d, align));
      at := at + align;
      h := TailBytes(h, data[at..]);
    } else {
      var d := Gather(data[at..]);
      LastBytes(data, at, align, t);
      h := Xor(h, Spliced(t, d, align));
      h := Magic(h);
    }
    h := Fini(h);
  }

  lemma OneWord(data: seq<Byte>, at: nat, align: nat, t: Word)
    requires 1 <= align <= 3 && 4 - align <= at && at + 4 <= |data|
    requires Right(t, align) == Pack(data[at - (4 - align)..at], 0)
    ensures var s := data[at - (4 - align)..];
            Spliced(t, Pack(data[at..at + 4], 0), align) == Pack(s, 0) && |s| >= 4 && s[4..] == data[at + align..]
    ensures data[at..at + 4][align..] == data[at + align..at + 4]
  {
    hide Or, Left, Right, Pack4, Spliced;
    SpliceBytes(t, align, data[at - (4 - align)..at], data[at..at + 4]);
  }

  lemma LastWord(data: seq<Byte>, at: nat, align: nat, t: Word)
    requires 1 <= align <= 3 && 4 - align <= at && at + align <= |data|
    requires Right(t, align) == Pack(data[at - (4 - align)..at], 0)
    ensures var s := data[at - (4 - align)..];
            Spliced(t, Pack(data[at..at + align], 0), align) == Pack(s, 0) && |s| >= 4 && s[4..] == data[at + align..]
  {
    hide Or, Left, Right, Pack4, Spliced;
    SpliceBytes(t, align, data[at - (4 - align)..at], data[at..at + align]);
  }

  lemma LastBytes(data: seq<Byte>, at: nat, align: nat, t: Word)
    requires 1 <= align <= 3 && 4 - align <= at <= |data| < at + align
    requires Right(t, align) == Pack(data[at - (4 - align)..at], 0)
    ensures Spliced(t, Pack(data[at..], 0), align) == Pack(data[at - (4 - align)..], 0)
  {
    hide Or, Left, Right, Pack4, Spliced;
    assert data[at - (4 - align)..] == data[at - (4 - align)..at] + data[at..];
    SpliceBytes(t, align, data[at - (4 - align)..at], data[at..]);
  }

  // murmur_hash2 for a key at an address that is align modulo 4: the address
  // makes no difference.
  method Hash2(data: seq<Byte>, align: nat, seed: Word) returns (h: Word)
    requires align < 4 && |data| < 0x1_0000_0000
    ensures h == Fini(Digest(Xor(seed, |data| as bv32), data))
  {
    hide Mix, Xor, Pack, Fini, Magic;
    var h0 := Xor(seed, |data| as bv32);
    h := h0;
    if align > 0 && |data| >= 4 {
      h := HashUnaligned(data, align, h);
      return;
    }
    var at := 0;
    assert data[0..] == data;
    while |data| - at >= 4
      invariant 0 <= at <= |data| && Digest(h0, data) == Digest(h, data[at..])
    {
      assert data[at..][4..] == data[at + 4..];
      PackPrefix(data[at..]);
      assert data[at..][..4] == data[at..at + 4];
      h := Mix(h, Pack(data[at..at + 4], 0));
      at := at + 4;
    }
    h := TailBytes(h, data[at..]);
    h := Fini(h);
  }

  lemma PackPrefix(s: seq<Byte>)
    requires |s| >= 4
    ensures Pack(s[..4], 0) == Pack(s, 0)
  {
    hide Pack4;
  }

  // ---------- Known answers ----------

  lemma AnswerOfOne()
    ensures Fini(Digest(Xor(0, 1), [0x61])) == 0x92685F5E
  {
  }

  lemma AnswerOfFour()
    ensures Fini(Digest(Xor(0, 4), [0x61, 0x62, 0x63, 0x64])) == 0x26873021
  {
  }

  lemma WordsOfSeven()
    ensures Xor(1, 7) == 6
    ensures Pack([0x61, 0x62, 0x63, 0x64, 0x65, 0x66, 0x67], 0) == 0x64636261
    ensures Mix(6, 0x64636261) == 0xCA1EC009
    ensures Tail(0xCA1EC009, [0x65, 0x66, 0x67]) == 0xD37228DC
    ensures Fini(0xD37228DC) == 0x0AFA6525
  {
  }

  lemma AnswerOfSeven()
    ensures Fini(Digest(Xor(1, 7), [0x61, 0x62, 0x63, 0x64, 0x65, 0x66, 0x67])) == 0x0AFA6525
  {
    hide Mix, Pack, Tail, Fini, Xor;
    WordsOfSeven();
    var s: seq<Byte> := [0x61, 0x62, 0x63, 0x64, 0x65, 0x66, 0x67];
    assert s[4..] == [0x65, 0x66, 0x67];
  }

  // The keys a and abcd with seed 0, and abcdefg with seed 1, at any address
  method Answers(align: nat) returns (one: Word, four: Word, seven: Word)
    requires align < 4
    ensures one == 0x92685F5E && four == 0x26873021 && seven == 0x0AFA6525
  {
    hide Fini, Digest, Xor;
    AnswerOfOne();
    AnswerOfFour();
    AnswerOfSeven();
    one := Hash2([0x61], align, 0);
    four := Hash2([0x61, 0x62, 0x63, 0x64], align, 0);
    seven := Hash2([0x61, 0x62, 0x63, 0x64, 0x65, 0x66, 0x67], align, 1);
  }
}
