/** A worked example of MD5: the BKEY and the HASH of the known ESN, step by step through both compressions
    (src/siemens/tests/crypto.cpp, and the constant in src/siemens/bruteforce.cpp). */
module Md5Vectors {
  import opened Registers
  import opened Padding
  import opened Md5
  import opened Keys
  import Recovery

  // ----- Four steps at a time, with the shifts of a round -----

  function Four(words: Words, i: nat, f: Fun, s: (nat, nat, nat, nat), r: Chain4): Chain4
    requires s.0 < 32 && s.1 < 32 && s.2 < 32 && s.3 < 32
  {
    var a := Value(f, RfcWord(i), s.0, T(i), words, r.a, r.b, r.c, r.d);
    var d := Value(f, RfcWord(i + 1), s.1, T(i + 1), words, r.d, a, r.b, r.c);
    var c := Value(f, RfcWord(i + 2), s.2, T(i + 2), words, r.c, d, a, r.b);
    var b := Value(f, RfcWord(i + 3), s.3, T(i + 3), words, r.b, c, d, a);
    Regs(a, b, c, d)
  }

  function Quarter(words: Words, i: nat, r: Chain4): Chain4 {
    if i < 16 then Four(words, i, F1, (7, 12, 17, 22), r)
    else if i < 32 then Four(words, i, F2, (5, 9, 14, 20), r)
    else if i < 48 then Four(words, i, F3, (4, 11, 16, 23), r)
    else Four(words, i, F4, (6, 10, 15, 21), r)
  }

  lemma QuarterIsFourSteps(words: Words, i: nat, r: Chain4)
    requires i < 64 && i % 4 == 0
    ensures Quarter(words, i, r) == FourSteps(RfcMix(words), i, r)
  {
    RoundOf(i);
    hide Value, RfcWord, T, RfcFun, RfcShift;
  }

  lemma RoundOf(i: nat)
    requires i < 64 && i % 4 == 0
    ensures var f := if i < 16 then F1 else if i < 32 then F2 else if i < 48 then F3 else F4;
      RfcFun(i) == f && RfcFun(i + 1) == f && RfcFun(i + 2) == f && RfcFun(i + 3) == f
    ensures var s := (RfcShift(i), RfcShift(i + 1), RfcShift(i + 2), RfcShift(i + 3));
      s == if i < 16 then (7, 12, 17, 22) else if i < 32 then (5, 9, 14, 20) else if i < 48 then (4, 11, 16, 23)
           else (6, 10, 15, 21)
  {
  }

  ghost predicate Reaches(words: Words, i: nat, r: Chain4) {
    RunInPlace(RfcMix(words), i, INITIAL_STATE) == r
  }

  lemma Next(words: Words, i: nat, r: Chain4, next: Chain4)
    requires i < 64 && i % 4 == 0 && Reaches(words, i, r) && Quarter(words, i, r) == next
    ensures Reaches(words, i + 4, next)
  {
    hide Quarter, RfcMix, RunInPlace, FourSteps;
    QuarterIsFourSteps(words, i, r);
    FourStepsRun(RfcMix(words), i, INITIAL_STATE);
  }

  lemma Start(words: Words)
    ensures Reaches(words, 0, Regs(0x67452301, 0xEFCDAB89, 0x98BADCFE, 0x10325476))
  {
    hide RfcMix;
  }

  lemma Finishes(words: Words, r: Chain4)
    requires Reaches(words, 64, r)
    ensures Compress(INITIAL_STATE, words) == AddRegs(Regs(0x67452301, 0xEFCDAB89, 0x98BADCFE, 0x10325476), r)
  {
    hide RfcMix, RunInPlace;
  }

  // ----- The constants and word orders, as numbers -----

  lemma Lines0()
    ensures T(0) == 0xD76AA478 && T(1) == 0xE8C7B756 && T(2) == 0x242070DB && T(3) == 0xC1BDCEEE
    ensures T(4) == 0xF57C0FAF && T(5) == 0x4787C62A && T(6) == 0xA8304613 && T(7) == 0xFD469501
    ensures forall i :: 0 <= i < 8 ==> RfcWord(i) == i
  {
  }

  lemma Lines8()
    ensures T(8) == 0x698098D8 && T(9) == 0x8B44F7AF && T(10) == 0xFFFF5BB1 && T(11) == 0x895CD7BE
    ensures T(12) == 0x6B901122 && T(13) == 0xFD987193 && T(14) == 0xA679438E && T(15) == 0x49B40821
    ensures forall i :: 8 <= i < 16 ==> RfcWord(i) == i
  {
  }

  lemma Lines16()
    ensures T(16) == 0xF61E2562 && T(17) == 0xC040B340 && T(18) == 0x265E5A51 && T(19) == 0xE9B6C7AA
    ensures T(20) == 0xD62F105D && T(21) == 0x02441453 && T(22) == 0xD8A1E681 && T(23) == 0xE7D3FBC8
    ensures RfcWord(16) == 1 && RfcWord(17) == 6 && RfcWord(18) == 11 && RfcWord(19) == 0
    ensures RfcWord(20) == 5 && RfcWord(21) == 10 && RfcWord(22) == 15 && RfcWord(23) == 4
  {
  }

  lemma Lines24()
    ensures T(24) == 0x21E1CDE6 && T(25) == 0xC33707D6 && T(26) == 0xF4D50D87 && T(27) == 0x455A14ED
    ensures T(28) == 0xA9E3E905 && T(29) == 0xFCEFA3F8 && T(30) == 0x676F02D9 && T(31) == 0x8D2A4C8A
    ensures RfcWord(24) == 9 && RfcWord(25) == 14 && RfcWord(26) == 3 && RfcWord(27) == 8
    ensures RfcWord(28) == 13 && RfcWord(29) == 2 && RfcWord(30) == 7 && RfcWord(31) == 12
  {
  }

  lemma Lines32()
    ensures T(32) == 0xFFFA3942 && T(33) == 0x8771F681 && T(34) == 0x6D9D6122 && T(35) == 0xFDE5380C
    ensures T(36) == 0xA4BEEA44 && T(37) == 0x4BDECFA9 && T(38) == 0xF6BB4B60 && T(39) == 0xBEBFBC70
    ensures RfcWord(32) == 5 && RfcWord(33) == 8 && RfcWord(34) == 11 && RfcWord(35) == 14
    ensures RfcWord(36) == 1 && RfcWord(37) == 4 && RfcWord(38) == 7 && RfcWord(39) == 10
  {
  }

  lemma Lines40()
    ensures T(40) == 0x289B7EC6 && T(41) == 0xEAA127FA && T(42) == 0xD4EF3085 && T(43) == 0x04881D05
    ensures T(44) == 0xD9D4D039 && T(45) == 0xE6DB99E5 && T(46) == 0x1FA27CF8 && T(47) == 0xC4AC5665
    ensures RfcWord(40) == 13 && RfcWord(41) == 0 && RfcWord(42) == 3 && RfcWord(43) == 6
    ensures RfcWord(44) == 9 && RfcWord(45) == 12 && RfcWord(46) == 15 && RfcWord(47) == 2
  {
  }

  lemma Lines48()
    ensures T(48) == 0xF4292244 && T(49) == 0x432AFF97 && T(50) == 0xAB9423A7 && T(51) == 0xFC93A039
    ensures T(52) == 0x655B59C3 && T(53) == 0x8F0CCC92 && T(54) == 0xFFEFF47D && T(55) == 0x85845DD1
    ensures RfcWord(48) == 0 && RfcWord(49) == 7 && RfcWord(50) == 14 && RfcWord(51) == 5
    ensures RfcWord(52) == 12 && RfcWord(53) == 3 && RfcWord(54) == 10 && RfcWord(55) == 1
  {
  }

  lemma Lines56()
    ensures T(56) == 0x6FA87E4F && T(57) == 0xFE2CE6E0 && T(58) == 0xA3014314 && T(59) == 0x4E0811A1
    ensures T(60) == 0xF7537E82 && T(61) == 0xBD3AF235 && T(62) == 0x2AD7D2BB && T(63) == 0xEB86D391
    ensures RfcWord(56) == 8 && RfcWord(57) == 15 && RfcWord(58) == 6 && RfcWord(59) == 13
    ensures RfcWord(60) == 4 && RfcWord(61) == 11 && RfcWord(62) == 2 && RfcWord(63) == 9
  {
  }

  // ----- ESN 0x12345678 with SKEY 12345678: the BKEY -----

  function BkeyMessage(): Words {
    [0x12345678, 0x00BC614E, 0xAE55186A, 0x55A40B4E, 0x00000080, 0x00000000, 0x00000000, 0x00000000,
     0x00000000, 0x00000000, 0x00000000, 0x00000000, 0x00000000, 0x00000000, 0x00000080, 0x00000000]
  }

  lemma BkeyWords()
    ensures BkeyMessage()[0] == 0x12345678 && BkeyMessage()[1] == 0x00BC614E && BkeyMessage()[2] == 0xAE55186A
      && BkeyMessage()[3] == 0x55A40B4E
    ensures BkeyMessage()[4] == 0x00000080 && BkeyMessage()[5] == 0x00000000 && BkeyMessage()[6] == 0x00000000
      && BkeyMessage()[7] == 0x00000000
    ensures BkeyMessage()[8] == 0x00000000 && BkeyMessage()[9] == 0x00000000 && BkeyMessage()[10] == 0x00000000
      && BkeyMessage()[11] == 0x00000000
    ensures BkeyMessage()[12] == 0x00000000 && BkeyMessage()[13] == 0x00000000 && BkeyMessage()[14] == 0x00000080
      && BkeyMessage()[15] == 0x00000000
  {
  }

  lemma BkeyRound1()
    ensures Reaches(BkeyMessage(), 16, Regs(0xEDEF6B6D, 0xAF716036, 0x60A26843, 0x63A1A1FC))
  {
    Start(BkeyMessage());
    BkeyWords();
    Lines0();
    Lines8();
    hide T, RfcWord, BkeyMessage, Reaches;
    var r0 := Regs(0x67452301, 0xEFCDAB89, 0x98BADCFE, 0x10325476);
    var r1 := Regs(0xBF4B237D, 0x298901BB, 0xD9CDB40C, 0xC6157E18);
    Next(BkeyMessage(), 0, r0, r1);
    var r2 := Regs(0x5BE1DBFD, 0xC59594CA, 0x1ABAF07E, 0x0281956F);
    Next(BkeyMessage(), 4, r1, r2);
    var r3 := Regs(0xBF18B72D, 0x043EA1AE, 0x56EB9904, 0x55303864);
    Next(BkeyMessage(), 8, r2, r3);
    var r4 := Regs(0xEDEF6B6D, 0xAF716036, 0x60A26843, 0x63A1A1FC);
    Next(BkeyMessage(), 12, r3, r4);
  }

  lemma BkeyRound2()
    ensures Reaches(BkeyMessage(), 32, Regs(0x0301EF0A, 0x38B07218, 0x384C62A3, 0x85FBA264))
  {
    BkeyRound1();
    BkeyWords();
    Lines16();
    Lines24();
    hide T, RfcWord, BkeyMessage, Reaches;
    var r0 := Regs(0xEDEF6B6D, 0xAF716036, 0x60A26843, 0x63A1A1FC);
    var r1 := Regs(0xAD1CAAB6, 0xB387B926, 0xA761B323, 0x1417905C);
    Next(BkeyMessage(), 16, r0, r1);
    var r2 := Regs(0x89F5806C, 0x93769547, 0xBF134DDA, 0x104F27BC);
    Next(BkeyMessage(), 20, r1, r2);
    var r3 := Regs(0xF92A0854, 0x2ED2A116, 0x93BBD85E, 0xD2BAD76D);
    Next(BkeyMessage(), 24, r2, r3);
    var r4 := Regs(0x0301EF0A, 0x38B07218, 0x384C62A3, 0x85FBA264);
    Next(BkeyMessage(), 28, r3, r4);
  }

  lemma BkeyRound3()
    ensures Reaches(BkeyMessage(), 48, Regs(0x8A468A6A, 0xC28C04E7, 0xF5358896, 0x65766548))
  {
    BkeyRound2();
    BkeyWords();
    Lines32();
    Lines40();
    hide T, RfcWord, BkeyMessage, Reaches;
    var r0 := Regs(0x0301EF0A, 0x38B07218, 0x384C62A3, 0x85FBA264);
    var r1 := Regs(0xB8EE24D0, 0xA9A94645, 0x775187EB, 0xB758AAFB);
    Next(BkeyMessage(), 32, r0, r1);
    var r2 := Regs(0x2A4701C1, 0x85D137C6, 0x9D73775A, 0xE423A180);
    Next(BkeyMessage(), 36, r1, r2);
    var r3 := Regs(0x7C1751FA, 0x1FF1CD17, 0x12EAF092, 0xEDA21427);
    Next(BkeyMessage(), 40, r2, r3);
    var r4 := Regs(0x8A468A6A, 0xC28C04E7, 0xF5358896, 0x65766548);
    Next(BkeyMessage(), 44, r3, r4);
  }

  lemma BkeyRound4()
    ensures Reaches(BkeyMessage(), 64, Regs(0xA7223F1F, 0x8FACA780, 0x918B9CE2, 0x584F7498))
  {
    BkeyRound3();
    BkeyWords();
    Lines48();
    Lines56();
    hide T, RfcWord, BkeyMessage, Reaches;
    var r0 := Regs(0x8A468A6A, 0xC28C04E7, 0xF5358896, 0x65766548);
    var r1 := Regs(0xD99266D7, 0x94860E5B, 0x5BD54873, 0xB8F245DE);
    Next(BkeyMessage(), 48, r0, r1);
    var r2 := Regs(0x66B3B70D, 0xD008D28B, 0xA8FAFC12, 0xEA12074C);
    Next(BkeyMessage(), 52, r1, r2);
    var r3 := Regs(0xACD7D3DF, 0x9B3D7BE6, 0x9B79BBCD, 0x2496543F);
    Next(BkeyMessage(), 56, r2, r3);
    var r4 := Regs(0xA7223F1F, 0x8FACA780, 0x918B9CE2, 0x584F7498);
    Next(BkeyMessage(), 60, r3, r4);
  }

  lemma BkeyCompressed()
    ensures Compress(INITIAL_STATE, BkeyMessage())
         == Regs(0x0E676220, 0x7F7A5309, 0x2A4679E0, 0x6881C90E)
  {
    BkeyRound4();
    hide Reaches, BkeyMessage;
    Finishes(BkeyMessage(), Regs(0xA7223F1F, 0x8FACA780, 0x918B9CE2, 0x584F7498));
  }

  // ----- That BKEY hashed again: the HASH -----

  function HashMessage(): Words {
    [0x0E676220, 0x7F7A5309, 0x2A4679E0, 0x6881C90E, 0x00000080, 0x00000000, 0x00000000, 0x00000000,
     0x00000000, 0x00000000, 0x00000000, 0x00000000, 0x00000000, 0x00000000, 0x00000080, 0x00000000]
  }

  lemma HashWords()
    ensures HashMessage()[0] == 0x0E676220 && HashMessage()[1] == 0x7F7A5309 && HashMessage()[2] == 0x2A4679E0
      && HashMessage()[3] == 0x6881C90E
    ensures HashMessage()[4] == 0x00000080 && HashMessage()[5] == 0x00000000 && HashMessage()[6] == 0x00000000
      && HashMessage()[7] == 0x00000000
    ensures HashMessage()[8] == 0x00000000 && HashMessage()[9] == 0x00000000 && HashMessage()[10] == 0x00000000
      && HashMessage()[11] == 0x00000000
    ensures HashMessage()[12] == 0x00000000 && HashMessage()[13] == 0x00000000 && HashMessage()[14] == 0x00000080
      && HashMessage()[15] == 0x00000000
  {
  }

  lemma HashRound1()
    ensures Reaches(HashMessage(), 16, Regs(0xBA96E07E, 0x45B43F92, 0x49140E7C, 0xE80D96F1))
  {
    Start(HashMessage());
    HashWords();
    Lines0();
    Lines8();
    hide T, RfcWord, HashMessage, Reaches;
    var r0 := Regs(0x67452301, 0xEFCDAB89, 0x98BADCFE, 0x10325476);
    var r1 := Regs(0xD8D0F77B, 0x9F55BFE1, 0xBF1CC784, 0xC9771B90);
    Next(HashMessage(), 0, r0, r1);
    var r2 := Regs(0x611D5D37, 0x8B73C2D8, 0x4444557D, 0xA9331838);
    Next(HashMessage(), 4, r1, r2);
    var r3 := Regs(0xFA9B06CD, 0x3C896D5F, 0xD8C782F7, 0xF0D902F9);
    Next(HashMessage(), 8, r2, r3);
    var r4 := Regs(0xBA96E07E, 0x45B43F92, 0x49140E7C, 0xE80D96F1);
    Next(HashMessage(), 12, r3, r4);
  }

  lemma HashRound2()
    ensures Reaches(HashMessage(), 32, Regs(0x5A867891, 0x25E50DAD, 0x1BC1392F, 0xBD8A1273))
  {
    HashRound1();
    HashWords();
    Lines16();
    Lines24();
    hide T, RfcWord, HashMessage, Reaches;
    var r0 := Regs(0xBA96E07E, 0x45B43F92, 0x49140E7C, 0xE80D96F1);
    var r1 := Regs(0x6E233040, 0xC7B51D91, 0xAB5E8ECA, 0x4B1B1829);
    Next(HashMessage(), 16, r0, r1);
    var r2 := Regs(0xBCB10995, 0x1AE3D6B9, 0x3B914456, 0xDD3D2409);
    Next(HashMessage(), 20, r1, r2);
    var r3 := Regs(0x416751FC, 0xF09559B5, 0x790045D2, 0xF1660B3F);
    Next(HashMessage(), 24, r2, r3);
    var r4 := Regs(0x5A867891, 0x25E50DAD, 0x1BC1392F, 0xBD8A1273);
    Next(HashMessage(), 28, r3, r4);
  }

  lemma HashRound3()
    ensures Reaches(HashMessage(), 48, Regs(0x81252572, 0x7517CA38, 0xB9F35E19, 0xD4DEACDE))
  {
    HashRound2();
    HashWords();
    Lines32();
    Lines40();
    hide T, RfcWord, HashMessage, Reaches;
    var r0 := Regs(0x5A867891, 0x25E50DAD, 0x1BC1392F, 0xBD8A1273);
    var r1 := Regs(0x08D299FA, 0x2391393C, 0xA2653AEA, 0x9E85FDD9);
    Next(HashMessage(), 32, r0, r1);
    var r2 := Regs(0xEB6E8EA0, 0xA6906BFB, 0x5370191D, 0xE64A5147);
    Next(HashMessage(), 36, r1, r2);
    var r3 := Regs(0x21D37C6D, 0x6DDC977C, 0x5972494C, 0x5122E209);
    Next(HashMessage(), 40, r2, r3);
    var r4 := Regs(0x81252572, 0x7517CA38, 0xB9F35E19, 0xD4DEACDE);
    Next(HashMessage(), 44, r3, r4);
  }

  lemma HashRound4()
    ensures Reaches(HashMessage(), 64, Regs(0x59C5D553, 0xC2C721A1, 0x0340F2F7, 0x83A29081))
  {
    HashRound3();
    HashWords();
    Lines48();
    Lines56();
    hide T, RfcWord, HashMessage, Reaches;
    var r0 := Regs(0x81252572, 0x7517CA38, 0xB9F35E19, 0xD4DEACDE);
    var r1 := Regs(0x13A387CA, 0x14762DF6, 0x764BAE20, 0x1C0CB4B5);
    Next(HashMessage(), 48, r0, r1);
    var r2 := Regs(0xC35F08F4, 0xEE26246C, 0x96C5DE21, 0x565884C0);
    Next(HashMessage(), 52, r1, r2);
    var r3 := Regs(0x08B04CD7, 0x211617ED, 0xE9A084E1, 0x8F859C47);
    Next(HashMessage(), 56, r2, r3);
    var r4 := Regs(0x59C5D553, 0xC2C721A1, 0x0340F2F7, 0x83A29081);
    Next(HashMessage(), 60, r3, r4);
  }

  lemma HashCompressed()
    ensures Compress(INITIAL_STATE, HashMessage())
         == Regs(0xC10AF854, 0xB294CD2A, 0x9BFBCFF5, 0x93D4E4F7)
  {
    HashRound4();
    hide Reaches, HashMessage;
    Finishes(HashMessage(), Regs(0x59C5D553, 0xC2C721A1, 0x0340F2F7, 0x83A29081));
  }

  // ----- As bytes -----

  lemma DerivedWords()
    ensures Recovery.BkeyWords(0x12345678, 0xBC614E) == BkeyMessage()
  {
    assert Word2(0x12345678, 0xBC614E) == 0xAE55186A;
    assert Word3(0xBC614E, 0xAE55186A) == 0x55A40B4E;
  }

  lemma HashWords16()
    ensures ShortWords([0x0E676220, 0x7F7A5309, 0x2A4679E0, 0x6881C90E]) == HashMessage()
  {
  }

  lemma BkeyBytes()
    ensures Digest(Regs(0x0E676220, 0x7F7A5309, 0x2A4679E0, 0x6881C90E))
         == [0x20, 0x62, 0x67, 0x0E, 0x09, 0x53, 0x7A, 0x7F,
             0xE0, 0x79, 0x46, 0x2A, 0x0E, 0xC9, 0x81, 0x68]
  {
  }

  lemma HashBytes()
    ensures Digest(Regs(0xC10AF854, 0xB294CD2A, 0x9BFBCFF5, 0x93D4E4F7))
         == [0x54, 0xF8, 0x0A, 0xC1, 0x2A, 0xCD, 0x94, 0xB2,
             0xF5, 0xCF, 0xFB, 0x9B, 0xF7, 0xE4, 0xD4, 0x93]
  {
  }

  /** The identity that recalculations use by default: its BKEY, and the HASH that recoverEsn recognises at once. */
  lemma KnownIdentity()
    ensures Bkey(0x12345678, 12345678)
         == [0x20, 0x62, 0x67, 0x0E, 0x09, 0x53, 0x7A, 0x7F,
             0xE0, 0x79, 0x46, 0x2A, 0x0E, 0xC9, 0x81, 0x68]
    ensures HashOf(0x12345678, 12345678)
         == [0x54, 0xF8, 0x0A, 0xC1, 0x2A, 0xCD, 0x94, 0xB2,
             0xF5, 0xCF, 0xFB, 0x9B, 0xF7, 0xE4, 0xD4, 0x93]
  {
    hide Compress, Recovery.BkeyWords, BkeyMessage, HashMessage, Digest, Bkey, Md5Of, ShortWords;
    DerivedWords();
    BkeyCompressed();
    HashWords16();
    HashCompressed();
    Recovery.BkeyDigest(0x12345678, 0xBC614E);
    Recovery.DigestAgain(Regs(0x0E676220, 0x7F7A5309, 0x2A4679E0, 0x6881C90E));
    BkeyBytes();
    HashBytes();
  }
}
