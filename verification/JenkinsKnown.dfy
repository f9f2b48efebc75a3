// Known answers of lookup3: the two of the driver that Bob Jenkins published
// with it, and those of the shortest keys, worked out line by line.

module JenkinsKnown {
  import opened Words
  import opened Jenkins

  // One byte, the letter a
  const LETTER: seq<Byte> := [0x61]

  // Four score and seven years ago
  const FOUR_SCORE: seq<Byte> := [
    0x46, 0x6F, 0x75, 0x72, 0x20, 0x73, 0x63, 0x6F, 0x72, 0x65,
    0x20, 0x61, 0x6E, 0x64, 0x20, 0x73, 0x65, 0x76, 0x65, 0x6E,
    0x20, 0x79, 0x65, 0x61, 0x72, 0x73, 0x20, 0x61, 0x67, 0x6F]

  // ---------- Lines worked out ----------

  lemma FirstMixZeroLines()
    ensures Line(State(0x51232E53, 0x4E11322D, 0x3FCE247F), 4) == State(0x4E11322D, 0x8DDF56AC, 0xEDB74E27)
    ensures Line(State(0x4E11322D, 0x8DDF56AC, 0xEDB74E27), 6) == State(0x8DDF56AC, 0x7B96A4D3, 0x0D8A6DFD)
    ensures Line(State(0x8DDF56AC, 0x7B96A4D3, 0x0D8A6DFD), 8) == State(0x7B96A4D3, 0x892112D0, 0x0A3915A2)
    ensures Line(State(0x7B96A4D3, 0x892112D0, 0x0A3915A2), 16) == State(0x892112D0, 0x935A2872, 0x64FF8508)
    ensures Line(State(0x892112D0, 0x935A2872, 0x64FF8508), 19) == State(0x935A2872, 0xF859AD7A, 0x0C62AA34)
    ensures Line(State(0x935A2872, 0xF859AD7A, 0x0C62AA34), 4) == State(0xF859AD7A, 0x04BC57AE, 0x40DDDD7E)
  {
  }

  lemma FirstMixZero()
    ensures Mix(State(0x51232E53, 0x4E11322D, 0x3FCE247F)) == State(0xF859AD7A, 0x04BC57AE, 0x40DDDD7E)
  {
    hide Line;
    FirstMixZeroLines();
  }

  lemma SecondMixZeroLines()
    ensures Line(State(0x6B7A11E8, 0x7321CE13, 0xA243569E), 4) == State(0x7321CE13, 0x156524B1, 0xED03D2A0)
    ensures Line(State(0x7321CE13, 0x156524B1, 0xED03D2A0), 6) == State(0x156524B1, 0x0268F751, 0xC6E95348)
    ensures Line(State(0x156524B1, 0x0268F751, 0xC6E95348), 8) == State(0x0268F751, 0xC9524A99, 0xA72899AF)
    ensures Line(State(0x0268F751, 0xC9524A99, 0xA72899AF), 16) == State(0xC9524A99, 0x707AE448, 0xC2EFFA8A)
    ensures Line(State(0xC9524A99, 0x707AE448, 0xC2EFFA8A), 19) == State(0x707AE448, 0x336ADED2, 0xD2344770)
    ensures Line(State(0x707AE448, 0x336ADED2, 0xD2344770), 4) == State(0x336ADED2, 0x059F2642, 0xBD02EBD5)
  {
  }

  lemma SecondMixZero()
    ensures Mix(State(0x6B7A11E8, 0x7321CE13, 0xA243569E)) == State(0x336ADED2, 0x059F2642, 0xBD02EBD5)
  {
    hide Line;
    SecondMixZeroLines();
  }

  lemma FinalZeroLines()
    ensures Stir(State(0x948B5244, 0x059F95A9, 0xBD02EBD5), 14) == State(0x059F95A9, 0xD3333D15, 0x948B5244)
    ensures Stir(State(0x059F95A9, 0xD3333D15, 0x948B5244), 11) == State(0xD3333D15, 0xADCFC0B8, 0x059F95A9)
    ensures Stir(State(0xD3333D15, 0xADCFC0B8, 0x059F95A9), 25) == State(0xADCFC0B8, 0x36F4B590, 0xD3333D15)
    ensures Stir(State(0xADCFC0B8, 0x36F4B590, 0xD3333D15), 16) == State(0x36F4B590, 0x30375191, 0xADCFC0B8)
    ensures Stir(State(0x36F4B590, 0x30375191, 0xADCFC0B8), 4) == State(0x30375191, 0x9A837816, 0x36F4B590)
    ensures Stir(State(0x30375191, 0x9A837816, 0x36F4B590), 14) == State(0x9A837816, 0xCE7226E6, 0x30375191)
    ensures Stir(State(0x9A837816, 0xCE7226E6, 0x30375191), 24) == State(0xCE7226E6, 0x17770551, 0x9A837816)
  {
  }

  lemma FinalZero()
    ensures Final(State(0x948B5244, 0x059F95A9, 0xBD02EBD5)) == State(0xCE7226E6, 0x17770551, 0x9A837816)
  {
    hide Stir;
    FinalZeroLines();
  }

  lemma FirstMixOneLines()
    ensures Line(State(0x51232E54, 0x4E11322E, 0x3FCE2480), 4) == State(0x4E11322E, 0x8DDF56AE, 0xEDB741D7)
    ensures Line(State(0x4E11322E, 0x8DDF56AE, 0xEDB741D7), 6) == State(0x8DDF56AE, 0x7B969885, 0x0D8985AC)
    ensures Line(State(0x8DDF56AE, 0x7B969885, 0x0D8985AC), 8) == State(0x7B969885, 0x89201E31, 0x09D07D0F)
    ensures Line(State(0x7B969885, 0x89201E31, 0x09D07D0F), 16) == State(0x89201E31, 0x92F09B40, 0x0CC912A6)
    ensures Line(State(0x89201E31, 0x92F09B40, 0x0CC912A6), 19) == State(0x92F09B40, 0x9FB9ADE6, 0xE9676DC3)
    ensures Line(State(0x92F09B40, 0x9FB9ADE6, 0xE9676DC3), 4) == State(0x9FB9ADE6, 0x89211BA9, 0x3FFFF143)
  {
  }

  lemma FirstMixOne()
    ensures Mix(State(0x51232E54, 0x4E11322E, 0x3FCE2480)) == State(0x9FB9ADE6, 0x89211BA9, 0x3FFFF143)
  {
    hide Line;
    FirstMixOneLines();
  }

  lemma SecondMixOneLines()
    ensures Line(State(0x12DA1254, 0xF786920E, 0xA1656A63), 4) == State(0xF786920E, 0x98EBFC71, 0x672201CB)
    ensures Line(State(0xF786920E, 0x98EBFC71, 0x672201CB), 6) == State(0x98EBFC71, 0x000DFE3C, 0x58E4E29A)
    ensures Line(State(0x98EBFC71, 0x000DFE3C, 0x58E4E29A), 8) == State(0x000DFE3C, 0x58F2E0D6, 0xA4E5838F)
    ensures Line(State(0x000DFE3C, 0x58F2E0D6, 0xA4E5838F), 16) == State(0x58F2E0D6, 0xFDD86465, 0xD8A7DE48)
    ensures Line(State(0x58F2E0D6, 0xFDD86465, 0xD8A7DE48), 19) == State(0xFDD86465, 0xD68042AD, 0x720DC7B0)
    ensures Line(State(0xFDD86465, 0xD68042AD, 0x720DC7B0), 4) == State(0xD68042AD, 0x488E0A5D, 0xAB16E7B2)
  {
  }

  lemma SecondMixOne()
    ensures Mix(State(0x12DA1254, 0xF786920E, 0xA1656A63)) == State(0xD68042AD, 0x488E0A5D, 0xAB16E7B2)
  {
    hide Line;
    SecondMixOneLines();
  }

  lemma FinalOneLines()
    ensures Stir(State(0x37A0B61F, 0x488E79C4, 0xAB16E7B2), 14) == State(0x488E79C4, 0x45278C53, 0x37A0B61F)
    ensures Stir(State(0x488E79C4, 0x45278C53, 0x37A0B61F), 11) == State(0x45278C53, 0x3624A023, 0x488E79C4)
    ensures Stir(State(0x45278C53, 0x3624A023, 0x488E79C4), 25) == State(0x3624A023, 0x383E90A7, 0x45278C53)
    ensures Stir(State(0x3624A023, 0x383E90A7, 0x45278C53), 16) == State(0x383E90A7, 0xEC71E4B6, 0x3624A023)
    ensures Stir(State(0x383E90A7, 0xEC71E4B6, 0x3624A023), 4) == State(0xEC71E4B6, 0x1336F927, 0x383E90A7)
    ensures Stir(State(0xEC71E4B6, 0x1336F927, 0x383E90A7), 14) == State(0x1336F927, 0x6CBEA4B3, 0xEC71E4B6)
    ensures Stir(State(0x1336F927, 0x6CBEA4B3, 0xEC71E4B6), 24) == State(0x6CBEA4B3, 0xCD628161, 0x1336F927)
  {
  }

  lemma FinalOne()
    ensures Final(State(0x37A0B61F, 0x488E79C4, 0xAB16E7B2)) == State(0x6CBEA4B3, 0xCD628161, 0x1336F927)
  {
    hide Stir;
    FinalOneLines();
  }

  lemma FinalLetterLines()
    ensures Stir(State(0xDEADBF51, 0xDEADBEF0, 0xDEADBEF0), 14) == State(0xDEADBEF0, 0x9043C855, 0xDEADBF51)
    ensures Stir(State(0xDEADBEF0, 0x9043C855, 0xDEADBF51), 11) == State(0x9043C855, 0x30ABCA82, 0xDEADBEF0)
    ensures Stir(State(0x9043C855, 0x30ABCA82, 0xDEADBEF0), 25) == State(0x30ABCA82, 0xE9A51CDD, 0x9043C855)
    ensures Stir(State(0x30ABCA82, 0xE9A51CDD, 0x9043C855), 16) == State(0xE9A51CDD, 0x5D08EAE3, 0x30ABCA82)
    ensures Stir(State(0xE9A51CDD, 0x5D08EAE3, 0x30ABCA82), 4) == State(0x5D08EAE3, 0x9D14722C, 0xE9A51CDD)
    ensures Stir(State(0x5D08EAE3, 0x9D14722C, 0xE9A51CDD), 14) == State(0x9D14722C, 0x582647AC, 0x5D08EAE3)
    ensures Stir(State(0x9D14722C, 0x582647AC, 0x5D08EAE3), 24) == State(0x582647AC, 0x58D68708, 0x9D14722C)
  {
  }

  lemma FinalLetter()
    ensures Final(State(0xDEADBF51, 0xDEADBEF0, 0xDEADBEF0)) == State(0x582647AC, 0x58D68708, 0x9D14722C)
  {
    hide Stir;
    FinalLetterLines();
  }

  // ---------- Blocks ----------

  lemma Block0()
    ensures Pack(FOUR_SCORE[..12], 0) == 0x72756F46 && Pack(FOUR_SCORE[..12], 4) == 0x6F637320
    ensures Pack(FOUR_SCORE[..12], 8) == 0x61206572
  {
    hide Pack4;
    Packs0();
    assert FOUR_SCORE[..12] == [0x46, 0x6F, 0x75, 0x72, 0x20, 0x73, 0x63, 0x6F, 0x72, 0x65, 0x20, 0x61];
  }

  lemma Packs0()
    ensures Pack4(0x46, 0x6F, 0x75, 0x72) == 0x72756F46
    ensures Pack4(0x20, 0x73, 0x63, 0x6F) == 0x6F637320
    ensures Pack4(0x72, 0x65, 0x20, 0x61) == 0x61206572
  {
  }

  lemma Block1()
    ensures Pack(FOUR_SCORE[12..][..12], 0) == 0x7320646E && Pack(FOUR_SCORE[12..][..12], 4) == 0x6E657665
    ensures Pack(FOUR_SCORE[12..][..12], 8) == 0x61657920
  {
    hide Pack4;
    Packs1();
    assert FOUR_SCORE[12..][..12] == [0x6E, 0x64, 0x20, 0x73, 0x65, 0x76, 0x65, 0x6E, 0x20, 0x79, 0x65, 0x61];
  }

  lemma Packs1()
    ensures Pack4(0x6E, 0x64, 0x20, 0x73) == 0x7320646E
    ensures Pack4(0x65, 0x76, 0x65, 0x6E) == 0x6E657665
    ensures Pack4(0x20, 0x79, 0x65, 0x61) == 0x61657920
  {
  }

  lemma Block2()
    ensures Pack(FOUR_SCORE[12..][12..], 0) == 0x61207372 && Pack(FOUR_SCORE[12..][12..], 4) == 0x00006F67
    ensures Pack(FOUR_SCORE[12..][12..], 8) == 0x00000000
  {
    hide Pack4;
    Packs2();
    assert FOUR_SCORE[12..][12..] == [0x72, 0x73, 0x20, 0x61, 0x67, 0x6F];
  }

  lemma Packs2()
    ensures Pack4(0x72, 0x73, 0x20, 0x61) == 0x61207372
    ensures Pack4(0x67, 0x6F, 0x00, 0x00) == 0x00006F67
    ensures Pack4(0x00, 0x00, 0x00, 0x00) == 0x00000000
  {
  }

  lemma LetterBlock()
    ensures Pack(LETTER, 0) == 0x61 && Pack(LETTER, 4) == 0 && Pack(LETTER, 8) == 0
  {
  }

  // The sums that the blocks make
  lemma Sums()
    ensures Add(0xDEADBF0D, 0x72756F46) == 0x51232E53
    ensures Add(0xDEADBF0D, 0x6F637320) == 0x4E11322D
    ensures Add(0xDEADBF0D, 0x61206572) == 0x3FCE247F
    ensures Add(0xF859AD7A, 0x7320646E) == 0x6B7A11E8
    ensures Add(0x04BC57AE, 0x6E657665) == 0x7321CE13
    ensures Add(0x40DDDD7E, 0x61657920) == 0xA243569E
    ensures Add(0x336ADED2, 0x61207372) == 0x948B5244
    ensures Add(0x059F2642, 0x00006F67) == 0x059F95A9
    ensures Add(0xBD02EBD5, 0x00000000) == 0xBD02EBD5
    ensures Add(0xDEADBF0E, 0x72756F46) == 0x51232E54
    ensures Add(0xDEADBF0E, 0x6F637320) == 0x4E11322E
    ensures Add(0xDEADBF0E, 0x61206572) == 0x3FCE2480
    ensures Add(0x9FB9ADE6, 0x7320646E) == 0x12DA1254
    ensures Add(0x89211BA9, 0x6E657665) == 0xF786920E
    ensures Add(0x3FFFF143, 0x61657920) == 0xA1656A63
    ensures Add(0xD68042AD, 0x61207372) == 0x37A0B61F
    ensures Add(0x488E0A5D, 0x00006F67) == 0x488E79C4
    ensures Add(0xAB16E7B2, 0x00000000) == 0xAB16E7B2
    ensures Add(0xDEADBEF0, 0x00000061) == 0xDEADBF51
    ensures Add(0xDEADBEF0, 0x00000000) == 0xDEADBEF0
    ensures Add(0xDEADBEF0, 0x00000000) == 0xDEADBEF0
    ensures Add(Add(0xDEADBEEF, 0), 0) == 0xDEADBEEF && Add(Add(0xDEADBEEF, 1), 0) == 0xDEADBEF0
    ensures Add(Add(0xDEADBEEF, 30), 0) == 0xDEADBF0D && Add(Add(0xDEADBEEF, 30), 1) == 0xDEADBF0E
  {
  }

  lemma Lengths()
    ensures Low32(0) == 0 && Low32(1) == 1 && Low32(30) == 30
  {
  }

  // ---------- The answers ----------

  lemma FourScoreZero()
    ensures Digest(State(0xDEADBF0D, 0xDEADBF0D, 0xDEADBF0D), FOUR_SCORE) == 0x17770551
  {
    hide Pack, Add, Mix, Final;
    Sums();
    Block0();
    Block1();
    Block2();
    FirstMixZero();
    SecondMixZero();
    FinalZero();
    assert Added(State(0xDEADBF0D, 0xDEADBF0D, 0xDEADBF0D), FOUR_SCORE[..12])
      == State(0x51232E53, 0x4E11322D, 0x3FCE247F);
    assert Added(State(0xF859AD7A, 0x04BC57AE, 0x40DDDD7E), FOUR_SCORE[12..][..12])
      == State(0x6B7A11E8, 0x7321CE13, 0xA243569E);
    assert Added(State(0x336ADED2, 0x059F2642, 0xBD02EBD5), FOUR_SCORE[12..][12..])
      == State(0x948B5244, 0x059F95A9, 0xBD02EBD5);
  }

  lemma FourScoreOne()
    ensures Digest(State(0xDEADBF0E, 0xDEADBF0E, 0xDEADBF0E), FOUR_SCORE) == 0xCD628161
  {
    hide Pack, Add, Mix, Final;
    Sums();
    Block0();
    Block1();
    Block2();
    FirstMixOne();
    SecondMixOne();
    FinalOne();
    assert Added(State(0xDEADBF0E, 0xDEADBF0E, 0xDEADBF0E), FOUR_SCORE[..12])
      == State(0x51232E54, 0x4E11322E, 0x3FCE2480);
    assert Added(State(0x9FB9ADE6, 0x89211BA9, 0x3FFFF143), FOUR_SCORE[12..][..12])
      == State(0x12DA1254, 0xF786920E, 0xA1656A63);
    assert Added(State(0xD68042AD, 0x488E0A5D, 0xAB16E7B2), FOUR_SCORE[12..][12..])
      == State(0x37A0B61F, 0x488E79C4, 0xAB16E7B2);
  }

  lemma Letter()
    ensures Digest(State(0xDEADBEF0, 0xDEADBEF0, 0xDEADBEF0), LETTER) == 0x58D68708
  {
    hide Pack, Add, Final;
    Sums();
    LetterBlock();
    FinalLetter();
    assert Added(State(0xDEADBEF0, 0xDEADBEF0, 0xDEADBEF0), LETTER) == State(0xDEADBF51, 0xDEADBEF0, 0xDEADBEF0);
  }

  lemma Nothing(x: Word)
    ensures Digest(State(x, x, x), []) == x
  {
  }

  // The answers of hashlittle, wherever the key lies
  method Answers(address: nat) returns (nothing: Word, one: Word, four: Word, four1: Word)
    ensures nothing == 0xDEADBEEF && one == 0x58D68708
    ensures four == 0x17770551 && four1 == 0xCD628161
  {
    hide Add, Low32, Digest;
    Lengths();
    Sums();
    nothing := HashLittle(address, [], 0);
    Nothing(0xDEADBEEF);
    one := HashLittle(address, LETTER, 0);
    Letter();
    four := HashLittle(address, FOUR_SCORE, 0);
    FourScoreZero();
    four1 := HashLittle(address, FOUR_SCORE, 1);
    FourScoreOne();
  }
}
