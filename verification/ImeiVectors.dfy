/** Worked examples of the IMEI cipher and of the IMEI blocks built with it (src/siemens/tests/crypto.cpp and
    docs/recalc-algorithm.md). */
module ImeiVectors {
  import opened Bytes
  import opened Imei
  import opened ImeiBlock

  /** One round, byte by byte. */
  lemma RoundBytes(b0: byte, b1: byte, b2: byte, b3: byte, b4: byte, b5: byte, b6: byte, b7: byte, b8: byte, b9: byte,
      key: byte)
    ensures var r := EncryptRound([b0, b1, b2, b3, b4, b5, b6, b7, b8, b9], key);
      && r[0] == Blend(Substitute(b0), key, b5, 0) && r[1] == Blend(Substitute(b1), key, b6, 0xFF)
      && r[2] == Blend(Substitute(b2), key, b7, 0) && r[3] == Blend(Substitute(b3), key, b8, 0xFF)
      && r[4] == Blend(Substitute(b4), key, b9, 0)
      && r[5] == b0 && r[6] == b1 && r[7] == b2 && r[8] == b3 && r[9] == b4
  {
    var d: Block10 := [b0, b1, b2, b3, b4, b5, b6, b7, b8, b9];
    assert Mask(0) == Mask(2) == Mask(4) == 0 && Mask(1) == Mask(3) == 0xFF;
    hide Substitute, Blend, EncryptRound, Mask;
    EncryptRoundAt(d, key, 0);
    EncryptRoundAt(d, key, 1);
    EncryptRoundAt(d, key, 2);
    EncryptRoundAt(d, key, 3);
    EncryptRoundAt(d, key, 4);
  }

  /** The four rounds of a variant with the keys it uses. */
  lemma FourRounds(d: Block10)
    ensures EncryptRounds(d, false, 4)
         == EncryptRound(EncryptRound(EncryptRound(EncryptRound(d, 0xB7), 0x13), 0xD2), 0x19)
    ensures EncryptRounds(d, true, 4)
         == EncryptRound(EncryptRound(EncryptRound(EncryptRound(d, 0xE3), 0x5C), 0xB0), 0xC4)
  {
    hide EncryptRound;
    assert EncryptRounds(d, false, 1) == EncryptRound(d, 0xB7);
    assert EncryptRounds(d, false, 2) == EncryptRound(EncryptRounds(d, false, 1), 0x13);
    assert EncryptRounds(d, false, 3) == EncryptRound(EncryptRounds(d, false, 2), 0xD2);
    assert EncryptRounds(d, true, 1) == EncryptRound(d, 0xE3);
    assert EncryptRounds(d, true, 2) == EncryptRound(EncryptRounds(d, true, 1), 0x5C);
    assert EncryptRounds(d, true, 3) == EncryptRound(EncryptRounds(d, true, 2), 0xB0);
  }

  lemma LiteBytesRound1()
    ensures EncryptRound([0x00, 0x01, 0x02, 0x03, 0x04, 0x05, 0x06, 0x07, 0x08, 0x09], 0xB7)
         == [0x88, 0x70, 0x81, 0x75, 0x8D, 0x00, 0x01, 0x02, 0x03, 0x04]
  {
    RoundBytes(0x00, 0x01, 0x02, 0x03, 0x04, 0x05, 0x06, 0x07, 0x08, 0x09, 0xB7);
    hide EncryptRound;
  }

  lemma LiteBytesRound2()
    ensures EncryptRound([0x88, 0x70, 0x81, 0x75, 0x8D, 0x00, 0x01, 0x02, 0x03, 0x04], 0x13)
         == [0xC8, 0x77, 0xCF, 0x79, 0xC2, 0x88, 0x70, 0x81, 0x75, 0x8D]
  {
    RoundBytes(0x88, 0x70, 0x81, 0x75, 0x8D, 0x00, 0x01, 0x02, 0x03, 0x04, 0x13);
    hide EncryptRound;
  }

  lemma LiteBytesRound3()
    ensures EncryptRound([0xC8, 0x77, 0xCF, 0x79, 0xC2, 0x88, 0x70, 0x81, 0x75, 0x8D], 0xD2)
         == [0xB1, 0xC2, 0xB1, 0xC2, 0xBE, 0xC8, 0x77, 0xCF, 0x79, 0xC2]
  {
    RoundBytes(0xC8, 0x77, 0xCF, 0x79, 0xC2, 0x88, 0x70, 0x81, 0x75, 0x8D, 0xD2);
    hide EncryptRound;
  }

  lemma LiteBytesRound4()
    ensures EncryptRound([0xB1, 0xC2, 0xB1, 0xC2, 0xBE, 0xC8, 0x77, 0xCF, 0x79, 0xC2], 0x19)
         == [0xDF, 0x70, 0xD8, 0x7E, 0xDF, 0xB1, 0xC2, 0xB1, 0xC2, 0xBE]
  {
    RoundBytes(0xB1, 0xC2, 0xB1, 0xC2, 0xBE, 0xC8, 0x77, 0xCF, 0x79, 0xC2, 0x19);
    hide EncryptRound;
  }

  /** The bytes 0 to 9 in the lite variant. */
  lemma LiteBytes()
    ensures EncryptRounds([0x00, 0x01, 0x02, 0x03, 0x04, 0x05, 0x06, 0x07, 0x08, 0x09], false, 4)
         == [0xDF, 0x70, 0xD8, 0x7E, 0xDF, 0xB1, 0xC2, 0xB1, 0xC2, 0xBE]
  {
    hide EncryptRound, EncryptRounds;
    FourRounds([0x00, 0x01, 0x02, 0x03, 0x04, 0x05, 0x06, 0x07, 0x08, 0x09]);
    LiteBytesRound1();
    LiteBytesRound2();
    LiteBytesRound3();
    LiteBytesRound4();
  }

  lemma FullBytesRound1()
    ensures EncryptRound([0x00, 0x01, 0x02, 0x03, 0x04, 0x05, 0x06, 0x07, 0x08, 0x09], 0xE3)
         == [0xDC, 0x24, 0xD5, 0x21, 0xD9, 0x00, 0x01, 0x02, 0x03, 0x04]
  {
    RoundBytes(0x00, 0x01, 0x02, 0x03, 0x04, 0x05, 0x06, 0x07, 0x08, 0x09, 0xE3);
    hide EncryptRound;
  }

  lemma FullBytesRound2()
    ensures EncryptRound([0xDC, 0x24, 0xD5, 0x21, 0xD9, 0x00, 0x01, 0x02, 0x03, 0x04], 0x5C)
         == [0x3A, 0xB1, 0x38, 0xBE, 0x32, 0xDC, 0x24, 0xD5, 0x21, 0xD9]
  {
    RoundBytes(0xDC, 0x24, 0xD5, 0x21, 0xD9, 0x00, 0x01, 0x02, 0x03, 0x04, 0x5C);
    hide EncryptRound;
  }

  lemma FullBytesRound3()
    ensures EncryptRound([0x3A, 0xB1, 0x38, 0xBE, 0x32, 0xDC, 0x24, 0xD5, 0x21, 0xD9], 0xB0)
         == [0xBF, 0x65, 0xBE, 0x6A, 0xB8, 0x3A, 0xB1, 0x38, 0xBE, 0x32]
  {
    RoundBytes(0x3A, 0xB1, 0x38, 0xBE, 0x32, 0xDC, 0x24, 0xD5, 0x21, 0xD9, 0xB0);
    hide EncryptRound;
  }

  lemma FullBytesRound4()
    ensures EncryptRound([0xBF, 0x65, 0xBE, 0x6A, 0xB8, 0x3A, 0xB1, 0x38, 0xBE, 0x32], 0xC4)
         == [0xFC, 0x5C, 0xF8, 0x56, 0xFD, 0xBF, 0x65, 0xBE, 0x6A, 0xB8]
  {
    RoundBytes(0xBF, 0x65, 0xBE, 0x6A, 0xB8, 0x3A, 0xB1, 0x38, 0xBE, 0x32, 0xC4);
    hide EncryptRound;
  }

  /** The bytes 0 to 9 in the full variant. */
  lemma FullBytes()
    ensures EncryptRounds([0x00, 0x01, 0x02, 0x03, 0x04, 0x05, 0x06, 0x07, 0x08, 0x09], true, 4)
         == [0xFC, 0x5C, 0xF8, 0x56, 0xFD, 0xBF, 0x65, 0xBE, 0x6A, 0xB8]
  {
    hide EncryptRound, EncryptRounds;
    FourRounds([0x00, 0x01, 0x02, 0x03, 0x04, 0x05, 0x06, 0x07, 0x08, 0x09]);
    FullBytesRound1();
    FullBytesRound2();
    FullBytesRound3();
    FullBytesRound4();
  }

  lemma LiteBlockRound1()
    ensures EncryptRound([0x94, 0x10, 0x45, 0x02, 0x23, 0x73, 0x15, 0x80, 0xE7, 0xF9], 0xB7)
         == [0xB7, 0xA7, 0x61, 0x9E, 0x5B, 0x94, 0x10, 0x45, 0x02, 0x23]
  {
    RoundBytes(0x94, 0x10, 0x45, 0x02, 0x23, 0x73, 0x15, 0x80, 0xE7, 0xF9, 0xB7);
    hide EncryptRound;
  }

  lemma LiteBlockRound2()
    ensures EncryptRound([0xB7, 0xA7, 0x61, 0x9E, 0x5B, 0x94, 0x10, 0x45, 0x02, 0x23], 0x13)
         == [0x88, 0x93, 0x88, 0x9A, 0x85, 0xB7, 0xA7, 0x61, 0x9E, 0x5B]
  {
    RoundBytes(0xB7, 0xA7, 0x61, 0x9E, 0x5B, 0x94, 0x10, 0x45, 0x02, 0x23, 0x13);
    hide EncryptRound;
  }

  lemma LiteBlockRound3()
    ensures EncryptRound([0x88, 0x93, 0x88, 0x9A, 0x85, 0xB7, 0xA7, 0x61, 0x9E, 0x5B], 0xD2)
         == [0xBE, 0xFF, 0x68, 0xC0, 0x5F, 0x88, 0x93, 0x88, 0x9A, 0x85]
  {
    RoundBytes(0x88, 0x93, 0x88, 0x9A, 0x85, 0xB7, 0xA7, 0x61, 0x9E, 0x5B, 0xD2);
    hide EncryptRound;
  }

  lemma LiteBlockRound4()
    ensures EncryptRound([0xBE, 0xFF, 0x68, 0xC0, 0x5F, 0x88, 0x93, 0x88, 0x9A, 0x85], 0x19)
         == [0x95, 0xF7, 0x4A, 0x96, 0x2E, 0xBE, 0xFF, 0x68, 0xC0, 0x5F]
  {
    RoundBytes(0xBE, 0xFF, 0x68, 0xC0, 0x5F, 0x88, 0x93, 0x88, 0x9A, 0x85, 0x19);
    hide EncryptRound;
  }

  /** The sealed block of IMEI 490154203237518 in the lite variant. */
  lemma LiteBlock()
    ensures EncryptRounds([0x94, 0x10, 0x45, 0x02, 0x23, 0x73, 0x15, 0x80, 0xE7, 0xF9], false, 4)
         == [0x95, 0xF7, 0x4A, 0x96, 0x2E, 0xBE, 0xFF, 0x68, 0xC0, 0x5F]
  {
    hide EncryptRound, EncryptRounds;
    FourRounds([0x94, 0x10, 0x45, 0x02, 0x23, 0x73, 0x15, 0x80, 0xE7, 0xF9]);
    LiteBlockRound1();
    LiteBlockRound2();
    LiteBlockRound3();
    LiteBlockRound4();
  }

  lemma FullBlockRound1()
    ensures EncryptRound([0x94, 0x10, 0x45, 0x02, 0x23, 0x73, 0x15, 0x80, 0xE1, 0xF9], 0xE3)
         == [0xE3, 0xF3, 0x35, 0xCC, 0x0F, 0x94, 0x10, 0x45, 0x02, 0x23]
  {
    RoundBytes(0x94, 0x10, 0x45, 0x02, 0x23, 0x73, 0x15, 0x80, 0xE1, 0xF9, 0xE3);
    hide EncryptRound;
  }

  lemma FullBlockRound2()
    ensures EncryptRound([0xE3, 0xF3, 0x35, 0xCC, 0x0F, 0x94, 0x10, 0x45, 0x02, 0x23], 0x5C)
         == [0x7D, 0x36, 0xCF, 0x47, 0x4D, 0xE3, 0xF3, 0x35, 0xCC, 0x0F]
  {
    RoundBytes(0xE3, 0xF3, 0x35, 0xCC, 0x0F, 0x94, 0x10, 0x45, 0x02, 0x23, 0x5C);
    hide EncryptRound;
  }

  lemma FullBlockRound3()
    ensures EncryptRound([0x7D, 0x36, 0xCF, 0x47, 0x4D, 0xE3, 0xF3, 0x35, 0xCC, 0x0F], 0xB0)
         == [0xC6, 0x6E, 0x67, 0xDC, 0xEA, 0x7D, 0x36, 0xCF, 0x47, 0x4D]
  {
    RoundBytes(0x7D, 0x36, 0xCF, 0x47, 0x4D, 0xE3, 0xF3, 0x35, 0xCC, 0x0F, 0xB0);
    hide EncryptRound;
  }

  lemma FullBlockRound4()
    ensures EncryptRound([0xC6, 0x6E, 0x67, 0xDC, 0xEA, 0x7D, 0x36, 0xCF, 0x47, 0x4D], 0xC4)
         == [0x5B, 0xD9, 0xD4, 0x1A, 0x3A, 0xC6, 0x6E, 0x67, 0xDC, 0xEA]
  {
    RoundBytes(0xC6, 0x6E, 0x67, 0xDC, 0xEA, 0x7D, 0x36, 0xCF, 0x47, 0x4D, 0xC4);
    hide EncryptRound;
  }

  /** The sealed block of IMEI 490154203237518 in the full variant. */
  lemma FullBlock()
    ensures EncryptRounds([0x94, 0x10, 0x45, 0x02, 0x23, 0x73, 0x15, 0x80, 0xE1, 0xF9], true, 4)
         == [0x5B, 0xD9, 0xD4, 0x1A, 0x3A, 0xC6, 0x6E, 0x67, 0xDC, 0xEA]
  {
    hide EncryptRound, EncryptRounds;
    FourRounds([0x94, 0x10, 0x45, 0x02, 0x23, 0x73, 0x15, 0x80, 0xE1, 0xF9]);
    FullBlockRound1();
    FullBlockRound2();
    FullBlockRound3();
    FullBlockRound4();
  }

  // ----- Blocks 76 and 5009 of IMEI 490154203237518 -----

  function SampleImei(): (imei: ImeiText)
    ensures |imei| == 15
  {
    [0x34, 0x39, 0x30, 0x31, 0x35, 0x34, 0x32, 0x30, 0x33, 0x32, 0x33, 0x37, 0x35, 0x31, 0x38]
  }

  lemma SampleDigits()
    ensures CheckDigit(SampleImei()) == 8
  {
    var imei := SampleImei();
    SampleTerms();
    LaterTerms();
    hide CheckTerm;
    assert CheckSum(imei, 1) == 4;
    assert CheckSum(imei, 2) == 13;
    assert CheckSum(imei, 3) == 13;
    assert CheckSum(imei, 4) == 15;
    assert CheckSum(imei, 5) == 20;
    assert CheckSum(imei, 6) == 28;
    assert CheckSum(imei, 7) == 30;
    assert CheckSum(imei, 8) == 30;
    assert CheckSum(imei, 9) == 33;
    assert CheckSum(imei, 10) == 37;
    assert CheckSum(imei, 11) == 40;
    assert CheckSum(imei, 12) == 45;
    assert CheckSum(imei, 13) == 50;
    assert CheckSum(imei, 14) == 52;
  }

  lemma SampleTerms()
    ensures CheckTerm(0x34, 0) == 4 && CheckTerm(0x39, 1) == 9 && CheckTerm(0x30, 2) == 0 && CheckTerm(0x31, 3) == 2
    ensures CheckTerm(0x35, 4) == 5 && CheckTerm(0x34, 5) == 8 && CheckTerm(0x32, 6) == 2 && CheckTerm(0x30, 7) == 0
  {
  }

  lemma LaterTerms()
    ensures CheckTerm(0x33, 8) == 3 && CheckTerm(0x32, 9) == 4 && CheckTerm(0x33, 10) == 3 && CheckTerm(0x37, 11) == 5
    ensures CheckTerm(0x35, 12) == 5 && CheckTerm(0x31, 13) == 2
  {
  }

  lemma SamplePlain()
    ensures Plain(SampleImei()) == [0x94, 0x10, 0x45, 0x02, 0x23, 0x73, 0x15, 0x80]
  {
    SampleDigits();
    var imei := SampleImei();
    CheckByteEight(imei);
    PlainBytes();
    hide DigitPair, HighNibble, Nibble, CheckByte, SampleImei;
    SampleCharacters();
    assert Plain(imei)[0] == DigitPair(Nibble(0x34), Nibble(0x39))
      && Plain(imei)[1] == DigitPair(Nibble(0x30), Nibble(0x31));
    assert Plain(imei)[2] == DigitPair(Nibble(0x35), Nibble(0x34))
      && Plain(imei)[3] == DigitPair(Nibble(0x32), Nibble(0x30));
    assert Plain(imei)[4] == DigitPair(Nibble(0x33), Nibble(0x32))
      && Plain(imei)[5] == DigitPair(Nibble(0x33), Nibble(0x37));
    assert Plain(imei)[6] == DigitPair(Nibble(0x35), Nibble(0x31)) && Plain(imei)[7] == HighNibble(8);
  }

  lemma CheckByteEight(imei: ImeiText)
    requires CheckDigit(imei) == 8
    ensures CheckByte(imei) == 8
  {
    hide CheckDigit;
  }

  lemma SampleCharacters()
    ensures var imei := SampleImei();
      && imei[0] == 0x34 && imei[1] == 0x39 && imei[2] == 0x30 && imei[3] == 0x31 && imei[4] == 0x35 && imei[5] == 0x34
      && imei[6] == 0x32 && imei[7] == 0x30 && imei[8] == 0x33 && imei[9] == 0x32 && imei[10] == 0x33
      && imei[11] == 0x37 && imei[12] == 0x35 && imei[13] == 0x31
  {
  }

  lemma PlainBytes()
    ensures DigitPair(Nibble(0x34), Nibble(0x39)) == 0x94 && DigitPair(Nibble(0x30), Nibble(0x31)) == 0x10
    ensures DigitPair(Nibble(0x35), Nibble(0x34)) == 0x45 && DigitPair(Nibble(0x32), Nibble(0x30)) == 0x02
    ensures DigitPair(Nibble(0x33), Nibble(0x32)) == 0x23 && DigitPair(Nibble(0x33), Nibble(0x37)) == 0x73
    ensures DigitPair(Nibble(0x35), Nibble(0x31)) == 0x15 && HighNibble(8) == 0x80
  {
  }

  lemma SampleSeals()
    ensures var p := [0x94, 0x10, 0x45, 0x02, 0x23, 0x73, 0x15, 0x80];
      Seal(p, false) == p + [0xE7, 0xF9] && Seal(p, true) == p + [0xE1, 0xF9]
  {
    var p: Block8 := [0x94, 0x10, 0x45, 0x02, 0x23, 0x73, 0x15, 0x80];
    assert XorOf(p, false, 2) == 0x94 && XorOf(p, false, 4) == 0xD1 && XorOf(p, false, 6) == 0xF2;
    assert XorOf(p, true, 2) == 0x10 && XorOf(p, true, 4) == 0x12 && XorOf(p, true, 6) == 0x61;
    assert XorOf(p, false, 8) == 0xE7 && XorOf(p, true, 8) == 0xE1;
  }

  /** Block 76, lite. */
  lemma SampleBlock76()
    ensures Build(SampleImei(), false) == [0x95, 0xF7, 0x4A, 0x96, 0x2E, 0xBE, 0xFF, 0x68, 0xC0, 0x5F]
  {
    hide EncryptRounds, Plain, Seal, SampleImei;
    SamplePlain();
    SampleSeals();
    assert Seal(Plain(SampleImei()), false) == [0x94, 0x10, 0x45, 0x02, 0x23, 0x73, 0x15, 0x80, 0xE7, 0xF9];
    LiteBlock();
  }

  /** Block 5009, full. */
  lemma SampleBlock5009()
    ensures Build(SampleImei(), true) == [0x5B, 0xD9, 0xD4, 0x1A, 0x3A, 0xC6, 0x6E, 0x67, 0xDC, 0xEA]
  {
    hide EncryptRounds, Plain, Seal, SampleImei;
    SamplePlain();
    SampleSeals();
    assert Seal(Plain(SampleImei()), true) == [0x94, 0x10, 0x45, 0x02, 0x23, 0x73, 0x15, 0x80, 0xE1, 0xF9];
    FullBlock();
  }
}
