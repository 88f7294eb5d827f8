/** A worked example of MD4: the digest of 64 zero bytes, step by step through both compressions
    (src/siemens/tests/crypto.cpp). */
module Md4Vectors {
  import opened Bytes
  import opened Registers
  import opened Padding
  import opened Md4

  // ----- Four steps at a time, with the shifts of a round -----

  function Four(words: Words, i: nat, f: Fun, s: (nat, nat, nat, nat), r: Chain4): Chain4
    requires s.0 < 32 && s.1 < 32 && s.2 < 32 && s.3 < 32
  {
    var a := Value(f, RfcWord(i), s.0, words, r.a, r.b, r.c, r.d);
    var d := Value(f, RfcWord(i + 1), s.1, words, r.d, a, r.b, r.c);
    var c := Value(f, RfcWord(i + 2), s.2, words, r.c, d, a, r.b);
    var b := Value(f, RfcWord(i + 3), s.3, words, r.b, c, d, a);
    Regs(a, b, c, d)
  }

  function Quarter(words: Words, i: nat, r: Chain4): Chain4 {
    if i < 16 then Four(words, i, Choose, (3, 7, 11, 19), r)
    else if i < 32 then Four(words, i, Majority, (3, 5, 9, 13), r)
    else Four(words, i, Parity, (3, 9, 11, 15), r)
  }

  lemma RoundOf(i: nat)
    requires i < 48 && i % 4 == 0
    ensures var f := if i < 16 then Choose else if i < 32 then Majority else Parity;
      RfcFun(i) == f && RfcFun(i + 1) == f && RfcFun(i + 2) == f && RfcFun(i + 3) == f
    ensures var s := (RfcShift(i), RfcShift(i + 1), RfcShift(i + 2), RfcShift(i + 3));
      s == if i < 16 then (3, 7, 11, 19) else if i < 32 then (3, 5, 9, 13) else (3, 9, 11, 15)
  {
  }

  lemma QuarterIsFourSteps(words: Words, i: nat, r: Chain4)
    requires i < 48 && i % 4 == 0
    ensures Quarter(words, i, r) == FourSteps(RfcMix(words), i, r)
  {
    RoundOf(i);
    hide Value, RfcWord, RfcFun, RfcShift;
  }

  ghost predicate Reaches(words: Words, start: Chain4, i: nat, r: Chain4) {
    RunInPlace(RfcMix(words), i, start) == r
  }

  lemma Next(words: Words, start: Chain4, i: nat, r: Chain4, next: Chain4)
    requires i < 48 && i % 4 == 0 && Reaches(words, start, i, r) && Quarter(words, i, r) == next
    ensures Reaches(words, start, i + 4, next)
  {
    hide Quarter, RfcMix, RunInPlace, FourSteps;
    QuarterIsFourSteps(words, i, r);
    FourStepsRun(RfcMix(words), i, start);
  }

  lemma Begins(words: Words, start: Chain4)
    ensures Reaches(words, start, 0, start)
  {
    hide RfcMix;
  }

  lemma Finishes(words: Words, start: Chain4, r: Chain4)
    requires Reaches(words, start, 48, r)
    ensures Compress(start, words) == AddRegs(start, r)
  {
    hide RfcMix, RunInPlace;
  }

  lemma Order16()
    ensures RfcWord(16) == 0 && RfcWord(17) == 4 && RfcWord(18) == 8 && RfcWord(19) == 12
    ensures RfcWord(20) == 1 && RfcWord(21) == 5 && RfcWord(22) == 9 && RfcWord(23) == 13
    ensures RfcWord(24) == 2 && RfcWord(25) == 6 && RfcWord(26) == 10 && RfcWord(27) == 14
    ensures RfcWord(28) == 3 && RfcWord(29) == 7 && RfcWord(30) == 11 && RfcWord(31) == 15
  {
  }

  lemma Order32()
    ensures RfcWord(32) == 0 && RfcWord(33) == 8 && RfcWord(34) == 4 && RfcWord(35) == 12
    ensures RfcWord(36) == 2 && RfcWord(37) == 10 && RfcWord(38) == 6 && RfcWord(39) == 14
    ensures RfcWord(40) == 1 && RfcWord(41) == 9 && RfcWord(42) == 5 && RfcWord(43) == 13
    ensures RfcWord(44) == 3 && RfcWord(45) == 11 && RfcWord(46) == 7 && RfcWord(47) == 15
  {
  }

  lemma Order0()
    ensures forall i :: 0 <= i < 16 ==> RfcWord(i) == i
  {
  }

  // ----- The block of zeros -----

  function ZeroMessage(): Words {
    seq(16, _ => 0)
  }

  lemma ZeroWords()
    ensures forall k :: 0 <= k < 16 ==> ZeroMessage()[k] == 0
  {
  }

  lemma ZeroRound1()
    ensures Reaches(ZeroMessage(), Regs(0x67452301, 0xEFCDAB89, 0x98BADCFE, 0x10325476), 16,
      Regs(0x0FD3FAB8, 0x46968F94, 0x29951FF9, 0xB843F7AA))
  {
    Begins(ZeroMessage(), Regs(0x67452301, 0xEFCDAB89, 0x98BADCFE, 0x10325476));
    Order0();
    ZeroWords();
    hide RfcWord, ZeroMessage, Reaches;
    var start := Regs(0x67452301, 0xEFCDAB89, 0x98BADCFE, 0x10325476);
    var r0 := Regs(0x67452301, 0xEFCDAB89, 0x98BADCFE, 0x10325476);
    var r1 := Regs(0xFFFFFFFF, 0x5C477E6D, 0xD6E7ECC5, 0xFFFFFFFF);
    Next(ZeroMessage(), start, 0, r0, r1);
    var r2 := Regs(0xBFFF6EB7, 0x64A421F5, 0xFAD962B6, 0x23F7322E);
    Next(ZeroMessage(), start, 4, r1, r2);
    var r3 := Regs(0x1E950BA9, 0xA3AE912A, 0xF3353FFB, 0x61C9F284);
    Next(ZeroMessage(), start, 8, r2, r3);
    var r4 := Regs(0x0FD3FAB8, 0x46968F94, 0x29951FF9, 0xB843F7AA);
    Next(ZeroMessage(), start, 12, r3, r4);
  }

  lemma ZeroRound2()
    ensures Reaches(ZeroMessage(), Regs(0x67452301, 0xEFCDAB89, 0x98BADCFE, 0x10325476), 32,
      Regs(0xB6E2D66E, 0xD7936796, 0x50FAC202, 0x8A5E5D56))
  {
    ZeroRound1();
    Order16();
    ZeroWords();
    hide RfcWord, ZeroMessage, Reaches;
    var start := Regs(0x67452301, 0xEFCDAB89, 0x98BADCFE, 0x10325476);
    var r0 := Regs(0x0FD3FAB8, 0x46968F94, 0x29951FF9, 0xB843F7AA);
    var r1 := Regs(0x9770A04C, 0x355E9691, 0x107AAD97, 0x4B6023E3);
    Next(ZeroMessage(), start, 16, r0, r1);
    var r2 := Regs(0x1B6E0BC0, 0xD23F4DE8, 0xD7558150, 0xEC25A1B6);
    Next(ZeroMessage(), start, 20, r1, r2);
    var r3 := Regs(0x61303A4A, 0x4F396CBC, 0x182BA74A, 0x3BA492E3);
    Next(ZeroMessage(), start, 24, r2, r3);
    var r4 := Regs(0xB6E2D66E, 0xD7936796, 0x50FAC202, 0x8A5E5D56);
    Next(ZeroMessage(), start, 28, r3, r4);
  }

  lemma ZeroRound3()
    ensures Reaches(ZeroMessage(), Regs(0x67452301, 0xEFCDAB89, 0x98BADCFE, 0x10325476), 48,
      Regs(0x9A0C32EE, 0x3E91BC22, 0x9DC6EC8F, 0x6415569F))
  {
    ZeroRound2();
    Order32();
    ZeroWords();
    hide RfcWord, ZeroMessage, Reaches;
    var start := Regs(0x67452301, 0xEFCDAB89, 0x98BADCFE, 0x10325476);
    var r0 := Regs(0xB6E2D66E, 0xD7936796, 0x50FAC202, 0x8A5E5D56);
    var r1 := Regs(0x97A5D689, 0xF105E5AA, 0x1A357049, 0x09782814);
    Next(ZeroMessage(), start, 32, r0, r1);
    var r2 := Regs(0x4644010F, 0xAB541571, 0x0016C619, 0x8D51424B);
    Next(ZeroMessage(), start, 36, r1, r2);
    var r3 := Regs(0xD98BEE9E, 0xA58B0884, 0xC7876047, 0xE8D7C4DD);
    Next(ZeroMessage(), start, 40, r2, r3);
    var r4 := Regs(0x9A0C32EE, 0x3E91BC22, 0x9DC6EC8F, 0x6415569F);
    Next(ZeroMessage(), start, 44, r3, r4);
  }

  lemma ZeroCompressed()
    ensures Compress(Regs(0x67452301, 0xEFCDAB89, 0x98BADCFE, 0x10325476), ZeroMessage())
         == Regs(0x015155EF, 0x2E5F67AB, 0x3681C98D, 0x7447AB15)
  {
    ZeroRound3();
    hide Reaches, ZeroMessage;
    Finishes(ZeroMessage(), Regs(0x67452301, 0xEFCDAB89, 0x98BADCFE, 0x10325476),
      Regs(0x9A0C32EE, 0x3E91BC22, 0x9DC6EC8F, 0x6415569F));
  }

  // ----- The block of padding -----

  function TailMessage(): Words {
    seq(16, i requires 0 <= i < 16 => if i == 0 then 0x80 else if i == 14 then 512 else 0)
  }

  lemma TailWords()
    ensures TailMessage()[0] == 0x80 && TailMessage()[14] == 512 && TailMessage()[15] == 0
    ensures forall k :: 0 < k < 14 ==> TailMessage()[k] == 0
  {
  }

  lemma TailRound1()
    ensures Reaches(TailMessage(), Regs(0x015155EF, 0x2E5F67AB, 0x3681C98D, 0x7447AB15), 16,
      Regs(0xF280439E, 0x60312F6F, 0xB155824D, 0xCA3D9A52))
  {
    Begins(TailMessage(), Regs(0x015155EF, 0x2E5F67AB, 0x3681C98D, 0x7447AB15));
    Order0();
    TailWords();
    hide RfcWord, TailMessage, Reaches;
    var start := Regs(0x015155EF, 0x2E5F67AB, 0x3681C98D, 0x7447AB15);
    var r0 := Regs(0x015155EF, 0x2E5F67AB, 0x3681C98D, 0x7447AB15);
    var r1 := Regs(0xBA990063, 0x4F6338CD, 0xF67BC3AA, 0x30BA6251);
    Next(TailMessage(), start, 0, r0, r1);
    var r2 := Regs(0x8CA217D9, 0xC566D4AA, 0xEFD41E16, 0x9B199E57);
    Next(TailMessage(), start, 4, r1, r2);
    var r3 := Regs(0x5FF9B183, 0x63582834, 0x6676067A, 0x3F1E76C0);
    Next(TailMessage(), start, 8, r2, r3);
    var r4 := Regs(0xF280439E, 0x60312F6F, 0xB155824D, 0xCA3D9A52);
    Next(TailMessage(), start, 12, r3, r4);
  }

  lemma TailRound2()
    ensures Reaches(TailMessage(), Regs(0x015155EF, 0x2E5F67AB, 0x3681C98D, 0x7447AB15), 32,
      Regs(0x00E39DCD, 0x6B962AAB, 0x003A252E, 0x62D5A4E6))
  {
    TailRound1();
    Order16();
    TailWords();
    hide RfcWord, TailMessage, Reaches;
    var start := Regs(0x015155EF, 0x2E5F67AB, 0x3681C98D, 0x7447AB15);
    var r0 := Regs(0xF280439E, 0x60312F6F, 0xB155824D, 0xCA3D9A52);
    var r1 := Regs(0x69C24031, 0xBE633366, 0xF48E2ED7, 0xC222CB10);
    Next(TailMessage(), start, 16, r0, r1);
    var r2 := Regs(0xD3372905, 0xB3206E8D, 0x6FC6EC54, 0x598DFE02);
    Next(TailMessage(), start, 20, r1, r2);
    var r3 := Regs(0x49F48515, 0xF9E53D2A, 0xDB97E58B, 0xFEAC7603);
    Next(TailMessage(), start, 24, r2, r3);
    var r4 := Regs(0x00E39DCD, 0x6B962AAB, 0x003A252E, 0x62D5A4E6);
    Next(TailMessage(), start, 28, r3, r4);
  }

  lemma TailRound3()
    ensures Reaches(TailMessage(), Regs(0x015155EF, 0x2E5F67AB, 0x3681C98D, 0x7447AB15), 48,
      Regs(0x0F2A1940, 0x787D631A, 0x0B8DAE48, 0x3353DE77))
  {
    TailRound2();
    Order32();
    TailWords();
    hide RfcWord, TailMessage, Reaches;
    var start := Regs(0x015155EF, 0x2E5F67AB, 0x3681C98D, 0x7447AB15);
    var r0 := Regs(0x00E39DCD, 0x6B962AAB, 0x003A252E, 0x62D5A4E6);
    var r1 := Regs(0xC9B9AA8B, 0x2591303F, 0xC5DCB4BA, 0x8A6B2AE7);
    Next(TailMessage(), start, 32, r0, r1);
    var r2 := Regs(0x15D22475, 0x3153C67F, 0x242F916F, 0xC96EF1DD);
    Next(TailMessage(), start, 36, r1, r2);
    var r3 := Regs(0x05F5B71B, 0x1F669BDA, 0x37082927, 0xA57B1291);
    Next(TailMessage(), start, 40, r2, r3);
    var r4 := Regs(0x0F2A1940, 0x787D631A, 0x0B8DAE48, 0x3353DE77);
    Next(TailMessage(), start, 44, r3, r4);
  }

  lemma TailCompressed()
    ensures Compress(Regs(0x015155EF, 0x2E5F67AB, 0x3681C98D, 0x7447AB15), TailMessage())
         == Regs(0x107B6F2F, 0xA6DCCAC5, 0x420F77D5, 0xA79B898C)
  {
    TailRound3();
    hide Reaches, TailMessage;
    Finishes(TailMessage(), Regs(0x015155EF, 0x2E5F67AB, 0x3681C98D, 0x7447AB15),
      Regs(0x0F2A1940, 0x787D631A, 0x0B8DAE48, 0x3353DE77));
  }

  // ----- As bytes -----

  function PaddingBytes(): (d: seq<byte>)
    ensures |d| == 64
  {
    seq(64, i requires 0 <= i < 64 => if i == 0 then 0x80 else if i == 57 then 2 else 0)
  }

  lemma ZeroIsMessage(d: seq<byte>)
    requires |d| == 64 && forall i :: 0 <= i < 64 ==> d[i] == 0
    ensures BlockWords(d, 0) == ZeroMessage()
  {
    assert Join(0, 0, 0, 0) == 0;
    hide Join;
  }

  lemma PaddingIsMessage()
    ensures BlockWords(PaddingBytes(), 0) == TailMessage()
  {
    assert Join(0, 0, 0, 0) == 0 && Join(0x80, 0, 0, 0) == 0x80 && Join(0, 2, 0, 0) == 512;
    hide Join;
    forall i: nat | i < 16
      ensures BlockWords(PaddingBytes(), 0)[i] == TailMessage()[i]
    {
    }
  }

  lemma DigestBytes()
    ensures Digest(Regs(0x107B6F2F, 0xA6DCCAC5, 0x420F77D5, 0xA79B898C))
         == [0x2F, 0x6F, 0x7B, 0x10, 0xC5, 0xCA, 0xDC, 0xA6,
             0xD5, 0x77, 0x0F, 0x42, 0x8C, 0x89, 0x9B, 0xA7]
  {
  }

  /** The digest of 64 zero bytes. */
  lemma ZeroBlockDigest(d: seq<byte>)
    requires |d| == 64 && forall i :: 0 <= i < 64 ==> d[i] == 0
    ensures Md4Of(d)
         == [0x2F, 0x6F, 0x7B, 0x10, 0xC5, 0xCA, 0xDC, 0xA6,
             0xD5, 0x77, 0x0F, 0x42, 0x8C, 0x89, 0x9B, 0xA7]
  {
    hide Compress, BlockWords, Md4Of, Digest, ZeroMessage, TailMessage;
    TwoBlocks(d, PaddingBytes());
    ZeroIsMessage(d);
    PaddingIsMessage();
    ZeroCompressed();
    TailCompressed();
    DigestBytes();
  }
}
