// Words of 32 bits: their arithmetic, and how a little-endian machine reads
// them from bytes. The operations have names, because the solver does not
// replace equals by equals inside bit-vector operators.

module Words {
  type Byte = bv8
  type Word = bv32

  function Add(x: Word, y: Word): Word { x + y }
  function Sub(x: Word, y: Word): Word { x - y }
  function Xor(x: Word, y: Word): Word { x ^ y }

  // A rotation to the left
  function Rot(x: Word, r: nat): Word
    requires 0 < r < 32
  {
    (x << r) | (x >> (32 - r))
  }

  lemma AddIs(x: Word, y: Word)
    ensures Add(x, y) == x + y && Sub(x, y) == x - y
  {
  }

  lemma AddBack(x: Word, y: Word)
    ensures Sub(x + y, y) == x
    ensures Add(x - y, y) == x
  {
  }

  lemma AddSub(x: Word, y: Word)
    ensures Sub(Add(x, y), y) == x && Add(Sub(x, y), y) == x
  {
    hide Add, Sub;
    AddIs(x, y);
    AddBack(x, y);
  }

  lemma XorTwice(x: Word, y: Word)
    ensures Xor(Xor(x, y), y) == x
  {
  }

  function Pack4(b0: Byte, b1: Byte, b2: Byte, b3: Byte): Word {
    (b0 as bv32) | ((b1 as bv32) << 8) | ((b2 as bv32) << 16) | ((b3 as bv32) << 24)
  }

  function ByteAt(s: seq<Byte>, i: nat): Byte {
    if i < |s| then s[i] else 0
  }

  // Bytes i to i + 3 of s as a word, with zeros for the missing ones
  function Pack(s: seq<Byte>, i: nat): Word {
    Pack4(ByteAt(s, i), ByteAt(s, i + 1), ByteAt(s, i + 2), ByteAt(s, i + 3))
  }

  lemma Packed(b0: Byte, b1: Byte, b2: Byte, b3: Byte)
    ensures Pack4(b0, b1, b2, b3) == ((b0 as bv32) | ((b1 as bv32) << 8) | ((b2 as bv32) << 16) | ((b3 as bv32) << 24))
    ensures Pack4(b0, b1, b2, 0) == ((b0 as bv32) | ((b1 as bv32) << 8) | ((b2 as bv32) << 16))
    ensures Pack4(b0, b1, 0, 0) == ((b0 as bv32) | ((b1 as bv32) << 8))
    ensures Pack4(b0, 0, 0, 0) == (b0 as bv32)
    ensures Pack4(0, 0, 0, 0) == 0
  {
  }

  // A message that comes in parts
  ghost function Concat(parts: seq<seq<Byte>>): seq<Byte> {
    if parts == [] then [] else Concat(parts[..|parts| - 1]) + parts[|parts| - 1]
  }
}
