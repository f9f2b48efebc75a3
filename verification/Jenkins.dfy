// lib/hash_func_jenkins3.c: Jenkins lookup3, with three ways to read the key.
// Words are read as a little-endian machine does.

module Jenkins {
  import opened Words

  // The internal state a, b, c
  datatype State = State(a: Word, b: Word, c: Word)

  // ---------- mix ----------

  // One line of mix, a -= c; a ^= rot(c, k); c += b, with the registers turned
  // so that the next line finds its own in the places a, b, c.
  function Line(s: State, k: nat): State
    requires 0 < k < 32
  {
    State(s.b, Add(s.c, s.b), Xor(Sub(s.a, s.c), Rot(s.c, k)))
  }

  function Unline(s: State, k: nat): State
    requires 0 < k < 32
  {
    var c := Sub(s.b, s.a);
    State(Add(Xor(s.c, Rot(c, k)), c), s.a, c)
  }

  lemma LineInverts(s: State, k: nat)
    requires 0 < k < 32
    ensures Unline(Line(s, k), k) == s && Line(Unline(s, k), k) == s
  {
    hide Add, Sub, Xor, Rot;
    AddSub(s.c, s.b);
    XorTwice(Sub(s.a, s.c), Rot(s.c, k));
    AddSub(s.a, s.c);
    var c := Sub(s.b, s.a);
    AddSub(s.b, s.a);
    AddSub(Xor(s.c, Rot(c, k)), c);
    XorTwice(s.c, Rot(c, k));
  }

  function Mix(s: State): State {
    Line(Line(Line(Line(Line(Line(s, 4), 6), 8), 16), 19), 4)
  }

  function Unmix(s: State): State {
    Unline(Unline(Unline(Unline(Unline(Unline(s, 4), 19), 16), 8), 6), 4)
  }

  // mix loses nothing and reaches every state, as its comment says.
  lemma MixIsReversible(s: State)
    ensures Unmix(Mix(s)) == s && Mix(Unmix(s)) == s
  {
    hide Line, Unline;
    LineInverts(s, 4);
    LineInverts(Line(s, 4), 6);
    LineInverts(Line(Line(s, 4), 6), 8);
    LineInverts(Line(Line(Line(s, 4), 6), 8), 16);
    LineInverts(Line(Line(Line(Line(s, 4), 6), 8), 16), 19);
    LineInverts(Line(Line(Line(Line(Line(s, 4), 6), 8), 16), 19), 4);
    LineInverts(Unline(s, 4), 19);
    LineInverts(Unline(Unline(s, 4), 19), 16);
    LineInverts(Unline(Unline(Unline(s, 4), 19), 16), 8);
    LineInverts(Unline(Unline(Unline(Unline(s, 4), 19), 16), 8), 6);
    LineInverts(Unline(Unline(Unline(Unline(Unline(s, 4), 19), 16), 8), 6), 4);
  }

  // The macro mix, assignment by assignment
  method Mixed(a0: Word, b0: Word, c0: Word) returns (a: Word, b: Word, c: Word)
    ensures State(a, b, c) == Mix(State(a0, b0, c0))
  {
    hide Add, Sub, Xor, Rot;
    a, b, c := a0, b0, c0;
    a := Sub(a, c);
    a := Xor(a, Rot(c, 4));
    c := Add(c, b);
    b := Sub(b, a);
    b := Xor(b, Rot(a, 6));
    a := Add(a, c);
    c := Sub(c, b);
    c := Xor(c, Rot(b, 8));
    b := Add(b, a);
    a := Sub(a, c);
    a := Xor(a, Rot(c, 16));
    c := Add(c, b);
    b := Sub(b, a);
    b := Xor(b, Rot(a, 19));
    a := Add(a, c);
    c := Sub(c, b);
    c := Xor(c, Rot(b, 4));
    b := Add(b, a);
  }

  // ---------- final ----------

  // One line of final, c ^= b; c -= rot(b, k), with the registers turned so that
  // the next line finds its own in the places b and c.
  function Stir(s: State, k: nat): State
    requires 0 < k < 32
  {
    State(s.b, Sub(Xor(s.c, s.b), Rot(s.b, k)), s.a)
  }

  function Unstir(s: State, k: nat): State
    requires 0 < k < 32
  {
    State(s.c, s.a, Xor(Add(s.b, Rot(s.a, k)), s.a))
  }

  lemma StirInverts(s: State, k: nat)
    requires 0 < k < 32
    ensures Unstir(Stir(s, k), k) == s && Stir(Unstir(s, k), k) == s
  {
    hide Add, Sub, Xor, Rot;
    AddSub(Xor(s.c, s.b), Rot(s.b, k));
    XorTwice(s.c, s.b);
    AddSub(s.b, Rot(s.a, k));
    XorTwice(Add(s.b, Rot(s.a, k)), s.a);
  }

  // After seven turns c is in the place b.
  function Final(s: State): State {
    Stir(Stir(Stir(Stir(Stir(Stir(Stir(s, 14), 11), 25), 16), 4), 14), 24)
  }

  function Unfinal(s: State): State {
    Unstir(Unstir(Unstir(Unstir(Unstir(Unstir(Unstir(s, 24), 14), 4), 16), 25), 11), 14)
  }

  // final loses nothing either.
  lemma FinalIsReversible(s: State)
    ensures Unfinal(Final(s)) == s && Final(Unfinal(s)) == s
  {
    hide Stir, Unstir;
    StirInverts(s, 14);
    StirInverts(Stir(s, 14), 11);
    StirInverts(Stir(Stir(s, 14), 11), 25);
    StirInverts(Stir(Stir(Stir(s, 14), 11), 25), 16);
    StirInverts(Stir(Stir(Stir(Stir(s, 14), 11), 25), 16), 4);
    StirInverts(Stir(Stir(Stir(Stir(Stir(s, 14), 11), 25), 16), 4), 14);
    StirInverts(Stir(Stir(Stir(Stir(Stir(Stir(s, 14), 11), 25), 16), 4), 14), 24);
    StirInverts(s, 24);
    StirInverts(Unstir(s, 24), 14);
    StirInverts(Unstir(Unstir(s, 24), 14), 4);
    StirInverts(Unstir(Unstir(Unstir(s, 24), 14), 4), 16);
    StirInverts(Unstir(Unstir(Unstir(Unstir(s, 24), 14), 4), 16), 25);
    StirInverts(Unstir(Unstir(Unstir(Unstir(Unstir(s, 24), 14), 4), 16), 25), 11);
    StirInverts(Unstir(Unstir(Unstir(Unstir(Unstir(Unstir(s, 24), 14), 4), 16), 25), 11), 14);
  }

  // The macro final, assignment by assignment
  method Finished(a0: Word, b0: Word, c0: Word) returns (a: Word, b: Word, c: Word)
    ensures State(b, c, a) == Final(State(a0, b0, c0))
  {
    hide Add, Sub, Xor, Rot;
    a, b, c := a0, b0, c0;
    c := Xor(c, b);
    c := Sub(c, Rot(b, 14));
    a := Xor(a, c);
    a := Sub(a, Rot(c, 11));
    b := Xor(b, a);
    b := Sub(b, Rot(a, 25));
    c := Xor(c, b);
    c := Sub(c, Rot(b, 16));
    a := Xor(a, c);
    a := Sub(a, Rot(c, 4));
    b := Xor(b, a);
    b := Sub(b, Rot(a, 14));
    c := Xor(c, b);
    c := Sub(c, Rot(b, 24));
  }

  // ---------- The hash of a key, however it is read ----------

  // Twelve bytes at most are added to the three registers.
  function Added(s: State, block: seq<Byte>): State {
    State(Add(s.a, Pack(block, 0)), Add(s.b, Pack(block, 4)), Add(s.c, Pack(block, 8)))
  }

  function Digest(s: State, data: seq<Byte>): Word
    decreases |data|
  {
    if |data| > 12 then Digest(Mix(Added(s, data[..12])), data[12..])
    else if data == [] then s.c
    else Final(Added(s, data)).b
  }

  // ---------- Adding a word in parts ----------

  function Term8(b: Byte): Word { (b as bv32) << 8 }
  function Term16(b: Byte): Word { (b as bv32) << 16 }
  function Term24(b: Byte): Word { (b as bv32) << 24 }
  function Term0(b: Byte): Word { b as bv32 }

  // A 16-bit chunk, and a 16-bit chunk shifted by 16
  function Half(b0: Byte, b1: Byte): Word { (b0 as bv32) | ((b1 as bv32) << 8) }
  function Half16(b2: Byte, b3: Byte): Word { ((b2 as bv32) | ((b3 as bv32) << 8)) << 16 }

  lemma Terms(b0: Byte, b1: Byte, b2: Byte, b3: Byte)
    ensures Term0(b0) == (b0 as bv32) && Term8(b1) == (b1 as bv32) << 8
    ensures Term16(b2) == (b2 as bv32) << 16 && Term24(b3) == (b3 as bv32) << 24
    ensures Half(b0, b1) == (b0 as bv32) | ((b1 as bv32) << 8)
    ensures Half16(b2, b3) == ((b2 as bv32) | ((b3 as bv32) << 8)) << 16
  {
  }

  lemma AssocRaw(x: bv32, y: bv32, z: bv32)
    ensures Add(x + y, z) == x + y + z && Add(x, y + z) == x + y + z
  {
  }

  lemma Assoc(x: Word, y: Word, z: Word)
    ensures Add(Add(x, y), z) == Add(x, Add(y, z))
  {
    hide Add;
    AddIs(x, y);
    AddIs(y, z);
    AssocRaw(x, y, z);
  }

  lemma Up4Raw(b0: bv8, b1: bv8, b2: bv8, b3: bv8)
    ensures Add((b0 as bv32), ((b1 as bv32) << 8)) == ((b0 as bv32) | ((b1 as bv32) << 8))
    ensures Add(((b0 as bv32) | ((b1 as bv32) << 8)), ((b2 as bv32) << 16))
         == ((b0 as bv32) | ((b1 as bv32) << 8) | ((b2 as bv32) << 16))
    ensures Add(((b0 as bv32) | ((b1 as bv32) << 8) | ((b2 as bv32) << 16)), ((b3 as bv32) << 24))
         == ((b0 as bv32) | ((b1 as bv32) << 8) | ((b2 as bv32) << 16) | ((b3 as bv32) << 24))
  {
  }

  lemma Up4(x: Word, b0: Byte, b1: Byte, b2: Byte, b3: Byte)
    ensures Add(Add(Add(Add(x, Term0(b0)), Term8(b1)), Term16(b2)), Term24(b3)) == Add(x, Pack4(b0, b1, b2, b3))
  {
    hide Add, Term0, Term8, Term16, Term24, Half, Half16, Pack4;
    Up4Raw(b0, b1, b2, b3);
    Terms(b0, b1, b2, b3);
    Packed(b0, b1, b2, b3);
    Assoc(x, Term0(b0), Term8(b1));
    Assoc(x, Add(Term0(b0), Term8(b1)), Term16(b2));
    Assoc(x, Add(Add(Term0(b0), Term8(b1)), Term16(b2)), Term24(b3));
  }

  lemma Down4Raw(b0: bv8, b1: bv8, b2: bv8, b3: bv8)
    ensures Add(((b3 as bv32) << 24), ((b2 as bv32) << 16)) == (((b2 as bv32) << 16) | ((b3 as bv32) << 24))
    ensures Add((((b2 as bv32) << 16) | ((b3 as bv32) << 24)), ((b1 as bv32) << 8))
         == (((b1 as bv32) << 8) | ((b2 as bv32) << 16) | ((b3 as bv32) << 24))
    ensures Add((((b1 as bv32) << 8) | ((b2 as bv32) << 16) | ((b3 as bv32) << 24)), (b0 as bv32))
         == ((b0 as bv32) | ((b1 as bv32) << 8) | ((b2 as bv32) << 16) | ((b3 as bv32) << 24))
  {
  }

  lemma Down4(x: Word, b0: Byte, b1: Byte, b2: Byte, b3: Byte)
    ensures Add(Add(Add(Add(x, Term24(b3)), Term16(b2)), Term8(b1)), Term0(b0)) == Add(x, Pack4(b0, b1, b2, b3))
  {
    hide Add, Term0, Term8, Term16, Term24, Half, Half16, Pack4;
    Down4Raw(b0, b1, b2, b3);
    Terms(b0, b1, b2, b3);
    Packed(b0, b1, b2, b3);
    Assoc(x, Term24(b3), Term16(b2));
    Assoc(x, Add(Term24(b3), Term16(b2)), Term8(b1));
    Assoc(x, Add(Add(Term24(b3), Term16(b2)), Term8(b1)), Term0(b0));
  }

  lemma Down3Raw(b0: bv8, b1: bv8, b2: bv8)
    ensures Add(((b2 as bv32) << 16), ((b1 as bv32) << 8)) == (((b1 as bv32) << 8) | ((b2 as bv32) << 16))
    ensures Add((((b1 as bv32) << 8) | ((b2 as bv32) << 16)), (b0 as bv32))
         == ((b0 as bv32) | ((b1 as bv32) << 8) | ((b2 as bv32) << 16))
  {
  }

  lemma Down3(x: Word, b0: Byte, b1: Byte, b2: Byte)
    ensures Add(Add(Add(x, Term16(b2)), Term8(b1)), Term0(b0)) == Add(x, Pack4(b0, b1, b2, 0))
  {
    hide Add, Term0, Term8, Term16, Term24, Half, Half16, Pack4;
    Down3Raw(b0, b1, b2);
    Terms(b0, b1, b2, 0);
    Packed(b0, b1, b2, 0);
    Assoc(x, Term16(b2), Term8(b1));
    Assoc(x, Add(Term16(b2), Term8(b1)), Term0(b0));
  }

  lemma Down2Raw(b0: bv8, b1: bv8)
    ensures Add(((b1 as bv32) << 8), (b0 as bv32)) == ((b0 as bv32) | ((b1 as bv32) << 8))
  {
  }

  lemma Down2(x: Word, b0: Byte, b1: Byte)
    ensures Add(Add(x, Term8(b1)), Term0(b0)) == Add(x, Pack4(b0, b1, 0, 0))
  {
    hide Add, Term0, Term8, Term16, Term24, Half, Half16, Pack4;
    Down2Raw(b0, b1);
    Terms(b0, b1, 0, 0);
    Packed(b0, b1, 0, 0);
    Assoc(x, Term8(b1), Term0(b0));
  }

  lemma Chunk3Raw(b0: bv8, b1: bv8, b2: bv8)
    ensures Add(((b2 as bv32) << 16), ((b0 as bv32) | ((b1 as bv32) << 8)))
         == ((b0 as bv32) | ((b1 as bv32) << 8) | ((b2 as bv32) << 16))
  {
  }

  lemma Chunk3(x: Word, b0: Byte, b1: Byte, b2: Byte)
    ensures Add(Add(x, Term16(b2)), Half(b0, b1)) == Add(x, Pack4(b0, b1, b2, 0))
  {
    hide Add, Term0, Term8, Term16, Term24, Half, Half16, Pack4;
    Chunk3Raw(b0, b1, b2);
    Terms(b0, b1, b2, 0);
    Packed(b0, b1, b2, 0);
    Assoc(x, Term16(b2), Half(b0, b1));
  }

  lemma ChunksRaw(b0: bv8, b1: bv8, b2: bv8, b3: bv8)
    ensures ((b0 as bv32) | ((b1 as bv32) << 8)) + (((b2 as bv32) | ((b3 as bv32) << 8)) << 16)
         == ((b0 as bv32) | ((b1 as bv32) << 8) | ((b2 as bv32) << 16) | ((b3 as bv32) << 24))
  {
  }

  lemma Chunks(b0: Byte, b1: Byte, b2: Byte, b3: Byte)
    ensures Add(Half(b0, b1), Half16(b2, b3)) == Pack4(b0, b1, b2, b3)
    ensures Half(b0, b1) == Pack4(b0, b1, 0, 0)
    ensures Term0(b0) == Pack4(b0, 0, 0, 0)
  {
    hide Add, Half, Half16, Pack4, Term0;
    ChunksRaw(b0, b1, b2, b3);
    Terms(b0, b1, b2, b3);
    Packed(b0, b1, b2, b3);
    AddIs(((b0 as bv32) | ((b1 as bv32) << 8)), (((b2 as bv32) | ((b3 as bv32) << 8)) << 16));
  }

  lemma AddZero(x: Word)
    ensures Add(x, Pack4(0, 0, 0, 0)) == x
  {
    hide Pack4;
    Packed(0, 0, 0, 0);
  }

  // ---------- hashlittle ----------

  // How a key is read: in 32-bit chunks, in 16-bit chunks or byte by byte
  datatype Width = Words | Halves | Bytes

  function WidthOf(address: nat): Width {
    if address % 4 == 0 then Words else if address % 2 == 0 then Halves else Bytes
  }

  // Adds four bytes of a block that is not the last.
  method AddFour(w: Width, x0: Word, s: seq<Byte>) returns (x: Word)
    requires |s| == 4
    ensures x == Add(x0, Pack(s, 0))
  {
    hide Add, Half, Half16, Pack4, Term0, Term8, Term16, Term24;
    x := x0;
    match w {
      case Words =>
        x := Add(x, Pack4(s[0], s[1], s[2], s[3]));
      case Halves =>
        x := Add(x, Add(Half(s[0], s[1]), Half16(s[2], s[3])));
        Chunks(s[0], s[1], s[2], s[3]);
      case Bytes =>
        x := Add(x, Term0(s[0]));
        x := Add(x, Term8(s[1]));
        x := Add(x, Term16(s[2]));
        x := Add(x, Term24(s[3]));
        Up4(x0, s[0], s[1], s[2], s[3]);
    }
  }

  // Adds up to four bytes of the last block: the cases of the switch for one
  // register, with what they fall through to.
  method AddLast(w: Width, x0: Word, s: seq<Byte>) returns (x: Word)
    requires |s| <= 4
    ensures x == Add(x0, Pack(s, 0))
  {
    x := x0;
    if w.Words? && |s| == 4 {
      x := Add(x, Pack4(s[0], s[1], s[2], s[3]));
    } else if w.Halves? {
      x := AddLastHalves(x, s);
    } else {
      x := AddLastBytes(x, s);
    }
  }

  method AddLastHalves(x0: Word, s: seq<Byte>) returns (x: Word)
    requires |s| <= 4
    ensures x == Add(x0, Pack(s, 0))
  {
    hide Add, Half, Half16, Pack4, Term0, Term8, Term16, Term24;
    x := x0;
    if |s| == 4 {
      x := Add(x, Add(Half(s[0], s[1]), Half16(s[2], s[3])));
      Chunks(s[0], s[1], s[2], s[3]);
    } else if |s| >= 2 {
      if |s| == 3 {
        x := Add(x, Term16(s[2]));
        Chunk3(x0, s[0], s[1], s[2]);
      }
      x := Add(x, Half(s[0], s[1]));
      Chunks(s[0], s[1], 0, 0);
    } else if |s| == 1 {
      x := Add(x, Term0(s[0]));
      Chunks(s[0], 0, 0, 0);
    }
    AddZero(x0);
  }

  method AddLastBytes(x0: Word, s: seq<Byte>) returns (x: Word)
    requires |s| <= 4
    ensures x == Add(x0, Pack(s, 0))
  {
    hide Add, Half, Half16, Pack4, Term0, Term8, Term16, Term24;
    x := x0;
    if |s| >= 4 {
      x := Add(x, Term24(s[3]));
    }
    if |s| >= 3 {
      x := Add(x, Term16(s[2]));
    }
    if |s| >= 2 {
      x := Add(x, Term8(s[1]));
    }
    if |s| >= 1 {
      x := Add(x, Term0(s[0]));
    }
    var b0, b1, b2, b3 := ByteAt(s, 0), ByteAt(s, 1), ByteAt(s, 2), ByteAt(s, 3);
    Down4(x0, b0, b1, b2, b3);
    Down3(x0, b0, b1, b2);
    Down2(x0, b0, b1);
    Chunks(b0, 0, 0, 0);
    AddZero(x0);
  }

  // The registers that hold no byte of s are left alone.
  lemma Parts(s: State, block: seq<Byte>)
    requires |block| <= 12
    ensures |block| >= 4 ==> Pack(block[..4], 0) == Pack(block, 0)
    ensures |block| >= 8 ==> Pack(block[4..8], 0) == Pack(block, 4)
    ensures |block| >= 8 ==> Pack(block[8..], 0) == Pack(block, 8)
    ensures 4 <= |block| < 8 ==> Pack(block[4..], 0) == Pack(block, 4)
    ensures |block| <= 4 ==> Add(s.b, Pack(block, 4)) == s.b
    ensures |block| <= 8 ==> Add(s.c, Pack(block, 8)) == s.c
  {
    hide Pack4, Add;
    AddZero(s.b);
    AddZero(s.c);
  }

  method LastBlock(w: Width, a0: Word, b0: Word, c0: Word, block: seq<Byte>) returns (a: Word, b: Word, c: Word)
    requires 0 < |block| <= 12
    ensures State(a, b, c) == Added(State(a0, b0, c0), block)
  {
    hide Add, Pack;
    a, b, c := a0, b0, c0;
    Parts(State(a0, b0, c0), block);
    if |block| > 8 {
      c := AddLast(w, c, block[8..]);
    }
    if |block| >= 8 {
      b := AddLast(w, b, block[4..8]);
    } else if |block| > 4 {
      b := AddLast(w, b, block[4..]);
    }
    if |block| >= 4 {
      a := AddLast(w, a, block[..4]);
    } else {
      a := AddLast(w, a, block);
    }
  }

  function Low32(n: nat): Word { (n % 0x1_0000_0000) as bv32 }

  // All three registers start with 0xdeadbeef + length + initval.
  function InitialState(length: nat, initval: Word): State {
    var x := Add(Add(0xdeadbeef, Low32(length)), initval);
    State(x, x, x)
  }

  // hashlittle for a key at the given address: the hash depends on the bytes of
  // the key alone.
  method HashLittle(address: nat, data: seq<Byte>, initval: Word) returns (hash: Word)
    ensures hash == Digest(InitialState(|data|, initval), data)
  {
    hide Add, Pack, Mix, Final, Low32;
    ghost var s := InitialState(|data|, initval);
    var w := WidthOf(address);
    var c := Add(Add(0xdeadbeef, Low32(|data|)), initval);
    var a, b := c, c;
    var at := 0;
    assert data[0..] == data;
    while |data| - at > 12
      invariant 0 <= at <= |data| && (at == |data| ==> data == [])
      invariant Digest(s, data) == Digest(State(a, b, c), data[at..])
    {
      NextBlock(State(a, b, c), data, at);
      a := AddFour(w, a, data[at..at + 4]);
      b := AddFour(w, b, data[at + 4..at + 8]);
      c := AddFour(w, c, data[at + 8..at + 12]);
      a, b, c := Mixed(a, b, c);
      at := at + 12;
    }
    if at == |data| {
      return c;
    }
    a, b, c := LastBlock(w, a, b, c, data[at..]);
    a, b, c := Finished(a, b, c);
    hash := c;
  }

  lemma NextBlock(s: State, data: seq<Byte>, at: nat)
    requires |data| - at > 12
    ensures Digest(s, data[at..]) ==
            Digest(Mix(State(Add(s.a, Pack(data[at..at + 4], 0)), Add(s.b, Pack(data[at + 4..at + 8], 0)),
                             Add(s.c, Pack(data[at + 8..at + 12], 0)))), data[at + 12..])
  {
    hide Add, Pack, Mix, Final;
    var block := data[at..][..12];
    Parts(s, block);
    assert block[..4] == data[at..at + 4] && block[4..8] == data[at + 4..at + 8] && block[8..] == data[at + 8..at + 12];
    assert data[at..][12..] == data[at + 12..];
  }
}
