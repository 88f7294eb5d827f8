/** What the security records hold, read back with the functions a phone uses: the declarative reading of the builders
    in
    src/siemens/recalc.cpp and of the keys in src/siemens/crypto.cpp. */
module RecordMeaning {
  import opened Bytes
  import opened Cipher
  import opened Md5
  import opened Imei
  import opened Keys
  import opened Records

  // ----- Checksums -----

  function Total(d: seq<byte>): nat {
    if d == [] then 0 else Num(d[0]) + Total(d[1..])
  }

  /** A sum is the sum of its parts, and so is an XOR. */
  lemma {:induction false} SumOfJoins(x: seq<byte>, y: seq<byte>)
    ensures SumOf(x + y) == Plus(SumOf(x), SumOf(y))
    ensures XorOf(x + y) == Xor(XorOf(x), XorOf(y))
  {
    if y == [] {
      assert x + y == x;
      Neutral(SumOf(x), XorOf(x));
    } else {
      var n := |y| - 1;
      SumOfJoins(x, y[..n]);
      assert (x + y)[..|x + y| - 1] == x + y[..n] && (x + y)[|x + y| - 1] == y[n];
      Associative(SumOf(x), SumOf(y[..n]), y[n]);
      Associative(XorOf(x), XorOf(y[..n]), y[n]);
      hide Plus, Xor;
    }
  }

  lemma Neutral(sum: byte, xorValue: byte)
    ensures Plus(sum, 0) == sum == Plus(0, sum) && Xor(xorValue, 0) == xorValue == Xor(0, xorValue)
  {
  }

  lemma Associative(a: byte, b: byte, c: byte)
    ensures Plus(Plus(a, b), c) == Plus(a, Plus(b, c)) && Xor(Xor(a, b), c) == Xor(a, Xor(b, c))
  {
  }

  lemma SumOfOne(b: byte)
    ensures SumOf([b]) == b && XorOf([b]) == b
  {
    Neutral(b, b);
    hide Plus, Xor;
  }

  /** The sum of a range is its total modulo 256. */
  lemma {:induction false} SumOfMeaning(d: seq<byte>)
    ensures Num(SumOf(d)) == Total(d) % 256
  {
    hide Num, Plus, XorOf;
    NumZero(0);
    if d != [] {
      hide SumOf;
      SumOfMeaning(d[1..]);
      assert d == [d[0]] + d[1..];
      SumOfJoins([d[0]], d[1..]);
      SumOfOne(d[0]);
      SumNum(d[0], SumOf(d[1..]));
      ModuloSum(Num(d[0]), Total(d[1..]));
    }
  }

  lemma ModuloSum(a: nat, b: nat)
    ensures (a + b % 256) % 256 == (a + b) % 256
  {
  }

  /** What stands twice cancels out of the XOR. */
  lemma XorOfTwice(x: seq<byte>)
    ensures XorOf(x + x) == 0
  {
    SumOfJoins(x, x);
    XorSelf(XorOf(x));
  }

  lemma XorSelf(b: byte)
    ensures Xor(b, b) == 0
  {
  }

  lemma FillJoins(value: byte, m: nat, n: nat)
    ensures Fill(value, m) + Fill(value, n) == Fill(value, m + n)
  {
  }

  lemma Doubled(n: nat)
    ensures SumOf(Fill(0xFF, n + n)) == Plus(SumOf(Fill(0xFF, n)), SumOf(Fill(0xFF, n)))
    ensures XorOf(Fill(0xFF, n + n)) == 0
  {
    hide Plus, Xor, Fill, SumOf, XorOf;
    FillJoins(0xFF, n, n);
    SumOfJoins(Fill(0xFF, n), Fill(0xFF, n));
    XorOfTwice(Fill(0xFF, n));
  }

  /** Runs of erased bytes. */
  lemma ErasedRuns()
    ensures SumOf(Fill(0xFF, 4)) == 0xFC && XorOf(Fill(0xFF, 4)) == 0
    ensures SumOf(Fill(0xFF, 8)) == 0xF8 && XorOf(Fill(0xFF, 8)) == 0
    ensures SumOf(Fill(0xFF, 0xB0)) == 0x50 && XorOf(Fill(0xFF, 0xB0)) == 0
    ensures SumOf(Fill(0xFF, 0xD4)) == 0x2C && XorOf(Fill(0xFF, 0xD4)) == 0
  {
    assert Fill(0xFF, 1) == [0xFF];
    SumOfOne(0xFF);
    Doubled(1);
    Doubled(2);
    Doubled(4);
    Doubled(8);
    Doubled(16);
    Doubled(32);
    Doubled(64);
    hide SumOf, XorOf, Fill;
    RunOf(128, 32);
    RunOf(160, 16);
    RunOf(176, 32);
    RunOf(208, 4);
  }

  lemma RunOf(m: nat, n: nat)
    ensures SumOf(Fill(0xFF, m + n)) == Plus(SumOf(Fill(0xFF, m)), SumOf(Fill(0xFF, n)))
    ensures XorOf(Fill(0xFF, m + n)) == Xor(XorOf(Fill(0xFF, m)), XorOf(Fill(0xFF, n)))
  {
    hide Fill, SumOf, XorOf;
    FillJoins(0xFF, m, n);
    SumOfJoins(Fill(0xFF, m), Fill(0xFF, n));
  }

  // ----- Blocks 5008 and 5077 -----

  function Header5008(): (d: seq<byte>)
    ensures |d| == 0x28
  {
    [0x50, 0x56, 0x60, 0x56, 0, 0, 0, 0, 0, 3, 0, 0, 0, 0, 0x67, 0, 0, 0, 0, 0] +
    [0xFF, 0xFF, 0xFF, 0xFF, 0xFF, 0xFF, 0xFF, 0xFF, 0, 0xFF, 0x62, 0x64, 0x70, 0x56, 0x80, 0x56, 0, 0, 0, 0]
  }

  lemma HeaderWords()
    ensures U32(0x56605650) == [0x50, 0x56, 0x60, 0x56] && U32(0x300) == [0, 3, 0, 0] && U32(0) == [0, 0, 0, 0]
    ensures U32(0x670000) == [0, 0, 0x67, 0] && U32(0xFFFFFFFF) == [0xFF, 0xFF, 0xFF, 0xFF]
    ensures U32(0x6462FF00) == [0, 0xFF, 0x62, 0x64] && U32(0x56805670) == [0x70, 0x56, 0x80, 0x56]
    ensures U32(0x50) == [0x50, 0, 0, 0]
  {
  }

  lemma HeaderBytes()
    ensures BytesOf(HEADER_5008) == Header5008()
  {
    hide BytesOf;
    var a, b, c := [0x56605650, 0, 0x300, 0x670000], [0, 0xFFFFFFFF, 0xFFFFFFFF, 0x6462FF00], [0x56805670, 0];
    assert HEADER_5008 == a + b + c;
    BytesOfJoins(a, b);
    BytesOfJoins(a + b, c);
    HeaderThirds();
  }

  lemma HeaderThirds()
    ensures BytesOf([0x56605650, 0, 0x300, 0x670000]) == [0x50, 0x56, 0x60, 0x56, 0, 0, 0, 0, 0, 3, 0, 0, 0, 0, 0x67, 0]
    ensures BytesOf([0, 0xFFFFFFFF, 0xFFFFFFFF, 0x6462FF00])
         == [0, 0, 0, 0, 0xFF, 0xFF, 0xFF, 0xFF, 0xFF, 0xFF, 0xFF, 0xFF, 0, 0xFF, 0x62, 0x64]
    ensures BytesOf([0x56805670, 0]) == [0x70, 0x56, 0x80, 0x56, 0, 0, 0, 0]
  {
    HeaderWords();
    hide U32, BytesOf;
    FourWords(0x56605650, 0, 0x300, 0x670000);
    FourWords(0, 0xFFFFFFFF, 0xFFFFFFFF, 0x6462FF00);
    TwoWords(0x56805670, 0);
  }

  lemma TwoWords(a: word, b: word)
    ensures BytesOf([a, b]) == U32(a) + U32(b)
  {
    hide U32;
    BytesOfSnoc([], a);
    BytesOfSnoc([a], b);
    assert [a, b] == [a] + [b] && [a] == [] + [a];
  }

  lemma {:induction false} BytesOfJoins(x: seq<word>, y: seq<word>)
    ensures BytesOf(x + y) == BytesOf(x) + BytesOf(y)
  {
    hide U32;
    if y == [] {
      assert x + y == x;
    } else {
      var n := |y| - 1;
      BytesOfJoins(x, y[..n]);
      BytesOfSnoc(x + y[..n], y[n]);
      BytesOfSnoc(y[..n], y[n]);
      assert x + y == x + y[..n] + [y[n]] && y == y[..n] + [y[n]];
    }
  }

  /** A stored word masked in place is the word masked. */
  lemma MaskedWord(d: seq<byte>, at: nat, w: word, mask: word)
    requires at + 4 <= |d| && d[at..at + 4] == U32(w)
    ensures MaskWord(d, at, mask)[at..at + 4] == U32(w ^ mask)
  {
    ReadSlice(d, at, U32(w));
    U32RoundTrip(w);
    hide U32, Join, Put;
  }

  lemma TwoMasks(d: seq<byte>, at: nat, w: word)
    requires at + 8 <= |d| && d[at..at + 4] == U32(w) && d[at + 4..at + 8] == U32(0)
    ensures var r := MaskWord(MaskWord(d, at, MASK_LOW), at + 4, MASK_HIGH);
      && r[at..at + 4] == U32(w ^ MASK_LOW) && r[at + 4..at + 8] == U32(0 ^ MASK_HIGH)
      && forall i :: 0 <= i < |d| && !(at <= i < at + 8) ==> r[i] == d[i]
  {
    hide U32, MASK_LOW, MASK_HIGH, MaskWord;
    MaskedWord(d, at, w, MASK_LOW);
    var low := MaskWord(d, at, MASK_LOW);
    assert low[at + 4..at + 8] == d[at + 4..at + 8];
    MaskedWord(low, at + 4, 0, MASK_HIGH);
    var r := MaskWord(low, at + 4, MASK_HIGH);
    assert r[at..at + 4] == low[at..at + 4];
  }

  lemma Raw5008Bytes()
    ensures Raw5008() == Header5008() + Fill(0xFF, 0xB0) + [0x50, 0, 0, 0, 0, 0, 0, 0]
  {
    HeaderBytes();
    HeaderWords();
    hide U32, BytesOf, HEADER_5008, Header5008;
    var d := Raw5008();
    assert d[..0x28] == Header5008();
    assert d[0x28..0xD8] == Fill(0xFF, 0xB0);
    assert d[0xD8..] == U32(0x50) + U32(0);
  }

  /** The first range: three bytes that are neither 0 nor 0xFF pairs. */
  lemma Range5008()
    ensures Header5008()[8..0x1E]
         == [0, 3] + Fill(0, 4) + [0x67] + Fill(0, 5) + Fill(0xFF, 8) + [0, 0xFF]
    ensures SumOf(Header5008()[8..0x1E]) == 0x61 && XorOf(Header5008()[8..0x1E]) == 0x9B
  {
    var a, b, c := [0 as byte, 3], Fill(0, 4), [0x67 as byte];
    var d, e, f := Fill(0, 5), Fill(0xFF, 8), [0 as byte, 0xFF];
    ShortSums();
    ErasedRuns();
    hide SumOf, XorOf;
    SumOfJoins(a, b);
    SumOfJoins(a + b, c);
    SumOfJoins(a + b + c, d);
    SumOfJoins(a + b + c + d, e);
    SumOfJoins(a + b + c + d + e, f);
    hide Fill;
    assert Header5008()[8..0x1E] == a + b + c + d + e + f by {
      assert Fill(0, 4) == [0, 0, 0, 0] && Fill(0, 5) == [0, 0, 0, 0, 0];
      assert Fill(0xFF, 8) == [0xFF, 0xFF, 0xFF, 0xFF, 0xFF, 0xFF, 0xFF, 0xFF];
    }
  }

  lemma ShortSums()
    ensures SumOf([0, 3]) == 3 && XorOf([0, 3]) == 3
    ensures SumOf([0x67]) == 0x67 && XorOf([0x67]) == 0x67
    ensures SumOf([0, 0xFF]) == 0xFF && XorOf([0, 0xFF]) == 0xFF
    ensures SumOf(Fill(0, 4)) == 0 && XorOf(Fill(0, 4)) == 0
    ensures SumOf(Fill(0, 5)) == 0 && XorOf(Fill(0, 5)) == 0
  {
    SumOfOne(0);
    SumOfOne(3);
    SumOfOne(0x67);
    SumOfOne(0xFF);
    hide SumOf, XorOf;
    SumOfJoins([0], [3]);
    SumOfJoins([0], [0xFF]);
    assert [0 as byte] + [3] == [0, 3] && [0 as byte] + [0xFF] == [0, 0xFF];
    SumOfJoins([0], [0]);
    var two: seq<byte> := [0, 0];
    SumOfJoins(two, two);
    SumOfJoins(two + two, [0]);
    assert Fill(0, 4) == two + two && Fill(0, 5) == two + two + [0] && two == [0 as byte] + [0];
  }

  /** The record after both checksums. */
  lemma Checked5008Bytes()
    ensures var d := Checked5008();
      && d[..0x1E] == Header5008()[..0x1E] && d[0x1E..0x20] == [0x61, 0x9B] && d[0x20..0x28] == Header5008()[0x20..]
      && d[0x28..0xD8] == Fill(0xFF, 0xB0) && d[0xD8..] == [0x50, 0, 0, 0, 0, 0, 0, 0]
  {
    Raw5008Bytes();
    Range5008();
    ErasedRuns();
    hide Raw5008, SumOf, XorOf, Header5008;
    var raw := Raw5008();
    assert raw[8..0x1E] == Header5008()[8..0x1E];
    var first := Put(raw, 0x1E, [0x61, 0x9B]);
    assert WithChecksum(raw, 8, 0x16) == first;
    assert first[0x28..0xD8] == Fill(0xFF, 0xB0);
  }

  /** The words of the header, as stored. */
  lemma HeaderWordsAt()
    ensures Header5008()[..4] == U32(0x56605650) && Header5008()[4..8] == U32(0)
    ensures Header5008()[0x20..0x24] == U32(0x56805670) && Header5008()[0x24..] == U32(0)
  {
    HeaderWords();
    hide U32;
    var h := Header5008();
    assert h[0x20] == 0x70 && h[0x21] == 0x56 && h[0x22] == 0x80 && h[0x23] == 0x56;
    assert h[0x24] == 0 && h[0x25] == 0 && h[0x26] == 0 && h[0x27] == 0;
  }

  lemma HeaderMiddle()
    ensures Header5008()[8..0x1E] == [0, 3, 0, 0, 0, 0, 0x67, 0, 0, 0, 0, 0, 0xFF, 0xFF, 0xFF, 0xFF, 0xFF, 0xFF, 0xFF,
      0xFF, 0, 0xFF]
  {
    var a := [0x50, 0x56, 0x60, 0x56, 0, 0, 0, 0, 0, 3, 0, 0, 0, 0, 0x67, 0, 0, 0, 0, 0];
    var b := [0xFF, 0xFF, 0xFF, 0xFF, 0xFF, 0xFF, 0xFF, 0xFF, 0, 0xFF, 0x62, 0x64, 0x70, 0x56, 0x80, 0x56, 0, 0, 0, 0];
    assert Header5008() == a + b;
    hide Header5008;
    Middle(a, b);
    assert a[8..] == [0, 3, 0, 0, 0, 0, 0x67, 0, 0, 0, 0, 0];
    assert b[..10] == [0xFF, 0xFF, 0xFF, 0xFF, 0xFF, 0xFF, 0xFF, 0xFF, 0, 0xFF];
  }

  lemma Middle<T>(a: seq<T>, b: seq<T>)
    requires |a| == |b| == 20
    ensures (a + b)[8..0x1E] == a[8..] + b[..10]
  {
  }

  /** Whatever the checked record is, the masks change four words of it. */
  lemma MaskedRecord(a: word, b: word)
    requires Checked5008()[..4] == U32(a) && Checked5008()[4..8] == U32(0)
    requires Checked5008()[0x20..0x24] == U32(b) && Checked5008()[0x24..0x28] == U32(0)
    ensures Plain5008()[..4] == U32(a ^ MASK_LOW) && Plain5008()[4..8] == U32(0 ^ MASK_HIGH)
    ensures Plain5008()[0x20..0x24] == U32(b ^ MASK_LOW) && Plain5008()[0x24..0x28] == U32(0 ^ MASK_HIGH)
    ensures forall i :: 8 <= i < 0x20 || 0x28 <= i < 0xE0 ==> Plain5008()[i] == Checked5008()[i]
  {
    hide Checked5008, U32, MASK_LOW, MASK_HIGH, MaskWord;
    var d := Checked5008();
    assert d[0..4] == d[..4];
    TwoMasks(d, 0, a);
    var head := MaskWord(MaskWord(d, 0, MASK_LOW), 4, MASK_HIGH);
    assert head[0x20..0x24] == d[0x20..0x24] && head[0x24..0x28] == d[0x24..0x28];
    TwoMasks(head, 0x20, b);
    assert Plain5008()[0..4] == head[0..4] && Plain5008()[4..8] == head[4..8];
  }

  /** The plain record 5008: masked header words, the first range and its checksum, erased bytes and theirs. */
  lemma Plain5008Meaning()
    ensures var d := Plain5008();
      && d[..4] == U32(0x56605650 ^ 0xBA1FE5D7) && d[4..8] == U32(0 ^ 0xD95D2DFD)
      && d[8..0x20] == [0, 3, 0, 0, 0, 0, 0x67, 0, 0, 0, 0, 0, 0xFF, 0xFF, 0xFF, 0xFF, 0xFF, 0xFF, 0xFF, 0xFF, 0, 0xFF,
        0x61, 0x9B]
      && d[0x20..0x24] == U32(0x56805670 ^ 0xBA1FE5D7) && d[0x24..0x28] == U32(0 ^ 0xD95D2DFD)
      && (forall i :: 0x28 <= i < 0xD8 ==> d[i] == 0xFF) && d[0xD8..] == [0x50, 0, 0, 0, 0, 0, 0, 0]
  {
    Checked5008Bytes();
    HeaderWordsAt();
    HeaderMiddle();
    hide Checked5008, Plain5008, U32, Header5008;
    var c := Checked5008();
    assert c[..4] == c[..0x1E][..4] && c[4..8] == c[..0x1E][4..8] && c[8..0x1E] == c[..0x1E][8..];
    assert c[0x20..0x24] == c[0x20..0x28][..4] && c[0x24..0x28] == c[0x20..0x28][4..];
    MaskedRecord(0x56605650, 0x56805670);
    var d := Plain5008();
    assert d[8..0x20] == c[8..0x1E] + c[0x1E..0x20];
    assert forall i :: 0x28 <= i < 0xD8 ==> d[i] == c[0x28..0xD8][i - 0x28];
    assert d[0xD8..] == c[0xD8..];
  }

  /** Two cipher streams: a masked header with the first range and its checksum, and erased bytes with theirs. */
  lemma Record5008Meaning(imei: ImeiText, esn: word)
    ensures var key := EepromKey(esn, imei);
      var head, body := Decrypt(Record5008(imei, esn)[..0x20], key), Decrypt(Record5008(imei, esn)[0x20..], key);
      && |head| == 0x20 && |body| == 0xC0
      && head[..4] == U32(0x56605650 ^ 0xBA1FE5D7) && head[4..8] == U32(0 ^ 0xD95D2DFD)
      && head[8..] == [0, 3, 0, 0, 0, 0, 0x67, 0, 0, 0, 0, 0, 0xFF, 0xFF, 0xFF, 0xFF, 0xFF, 0xFF, 0xFF, 0xFF, 0, 0xFF,
        0x61, 0x9B]
      && body[..4] == U32(0x56805670 ^ 0xBA1FE5D7) && body[4..8] == U32(0 ^ 0xD95D2DFD)
      && (forall i :: 8 <= i < 0xB8 ==> body[i] == 0xFF) && body[0xB8..] == [0x50, 0, 0, 0, 0, 0, 0, 0]
  {
    hide Plain5008, EepromKey, Encrypt, Decrypt, U32;
    var key := EepromKey(esn, imei);
    var d := Plain5008();
    Plain5008Meaning();
    DecryptUndoesEncrypt(d[..0x20], key);
    DecryptUndoesEncrypt(d[0x20..], key);
    assert Record5008(imei, esn)[..0x20] == Encrypt(d[..0x20], key);
    assert Record5008(imei, esn)[0x20..] == Encrypt(d[0x20..], key);
    assert d[..0x20][..4] == d[..4] && d[..0x20][4..8] == d[4..8] && d[..0x20][8..] == d[8..0x20];
    assert d[0x20..][..4] == d[0x20..0x24] && d[0x20..][4..8] == d[0x24..0x28] && d[0x20..][0xB8..] == d[0xD8..];
    assert forall i :: 8 <= i < 0xB8 ==> d[0x20..][i] == d[0x20 + i];
  }

  lemma Raw5077Bytes()
    ensures var d := Raw5077();
      && d[..4] == U32(0x56A05690) && d[4..8] == U32(0) && d[8..0xE0] == [0xFF, 0xFF, 0xFF, 0] + Fill(0xFF, 0xD4)
      && d[0xE0..] == [0x29, 0xFF, 0x3D, 0x06, 0x06, 0x0B, 0x80, 0xF3]
  {
    TailWords();
    hide U32;
    var d := Raw5077();
    assert d[0xE0..] == U32(0x063DFF29) + U32(0xF3800B06);
  }

  lemma Range5077()
    ensures SumOf([0xFF, 0xFF, 0xFF, 0] + Fill(0xFF, 0xD4)) == 0x29
    ensures XorOf([0xFF, 0xFF, 0xFF, 0] + Fill(0xFF, 0xD4)) == 0xFF
  {
    ErasedRuns();
    ShortSums();
    SumOfOne(0xFF);
    SumOfOne(0);
    hide SumOf, XorOf;
    var one: seq<byte> := [0xFF];
    SumOfJoins(one, one);
    SumOfJoins(one + one, one);
    SumOfJoins(one + one + one, [0]);
    assert one + one + one + [0] == [0xFF, 0xFF, 0xFF, 0];
    SumOfJoins([0xFF, 0xFF, 0xFF, 0], Fill(0xFF, 0xD4));
  }

  /** Its checksum is what the tail's first two bytes are anyway. */
  lemma Checked5077Bytes()
    ensures WithChecksum(Raw5077(), 8, 0xD8) == Raw5077()
  {
    Raw5077Bytes();
    Range5077();
    hide Raw5077, SumOf, XorOf, U32;
    var raw := Raw5077();
    assert raw[0xE0] == raw[0xE0..][0] && raw[0xE1] == raw[0xE0..][1];
  }

  lemma Plain5077Meaning()
    ensures var d := Plain5077();
      && d[..4] == U32(0x56A05690 ^ 0xBA1FE5D7) && d[4..8] == U32(0 ^ 0xD95D2DFD) && d[0xB] == 0
      && (forall i :: 8 <= i < 0xE0 && i != 0xB ==> d[i] == 0xFF)
      && d[0xE0..] == [0x29, 0xFF, 0x3D, 0x06, 0x06, 0x0B, 0x80, 0xF3]
  {
    Raw5077Bytes();
    Checked5077Bytes();
    hide Raw5077, WithChecksum, U32, MaskWord;
    var d := Raw5077();
    assert d[0..4] == d[..4];
    TwoMasks(d, 0, 0x56A05690);
    assert Plain5077()[0xE0..] == d[0xE0..];
    assert forall i :: 8 <= i < 0xE0 ==> d[i] == d[8..0xE0][i - 8];
  }

  /** One cipher stream: a masked header, erased bytes but one, the checksum and the tail. */
  lemma Record5077Meaning(imei: ImeiText, esn: word)
    ensures var d := Decrypt(Record5077(imei, esn), EepromKey(esn, imei));
      && |d| == 0xE8 && d[..4] == U32(0x56A05690 ^ 0xBA1FE5D7) && d[4..8] == U32(0 ^ 0xD95D2DFD) && d[0xB] == 0
      && (forall i :: 8 <= i < 0xE0 && i != 0xB ==> d[i] == 0xFF)
      && d[0xE0..] == [0x29, 0xFF, 0x3D, 0x06, 0x06, 0x0B, 0x80, 0xF3]
  {
    hide Plain5077, EepromKey, Encrypt, Decrypt, U32;
    Plain5077Meaning();
    DecryptUndoesEncrypt(Plain5077(), EepromKey(esn, imei));
  }

  // ----- Block 5121 -----

  /** The first eight bytes open under the first key of the SKEY to the fixed marker. */
  lemma SkeyMarkerOpens(keys: Keys)
    ensures Decrypt(Record5121(keys)[..8], CipherKey1(keys.skey, keys.esn, PackImei(keys.imei)))
         == [0x2D, 0x74, 0xC5, 0x77, 0xDA, 0x4A, 0x9A, 0xF4]
  {
    MarkerBytes(0);
    hide Encrypt, Decrypt, CipherKey1, PackImei, Marker, MasterEntries;
    var key := CipherKey1(keys.skey, keys.esn, PackImei(keys.imei));
    assert Record5121(keys)[..8] == Encrypt(Marker(0), key);
    DecryptUndoesEncrypt(Marker(0), key);
  }

  lemma MarkerBytes(index: nat)
    requires index < 6
    ensures Marker(IndexWord(index)) == [[0x2D, 0x2C, 0x2F, 0x2E, 0x29, 0x28][index], 0x74, 0xC5, 0x77, 0xDA, 0x4A,
      0x9A, 0xF4]
  {
  }

  lemma {:induction false} EntryAt(keys: Keys, n: nat, k: nat)
    requires k < n <= 6
    ensures MasterEntries(keys, n)[8 * k..8 * k + 8]
         == MasterEntry(keys.masterKeys[k], keys.esn, PackImei(keys.imei), k)
  {
    hide MasterEntry, PackImei;
    var before := MasterEntries(keys, n - 1);
    if k < n - 1 {
      EntryAt(keys, n - 1, k);
      assert MasterEntries(keys, n)[8 * k..8 * k + 8] == before[8 * k..8 * k + 8];
    } else {
      assert |before| == 8 * k;
    }
  }

  /** Each master code's entry opens under its first key and then its second to the marker with its number in it. */
  lemma MasterEntryOpens(keys: Keys, k: nat)
    requires k < 6
    ensures var entry, code := Record5121(keys)[8 + 8 * k..16 + 8 * k], keys.masterKeys[k];
      var imei := PackImei(keys.imei);
      Decrypt(Decrypt(entry, CipherKey1(code, keys.esn, imei)), CipherKey2(code, keys.esn, imei))
        == [[0x2D, 0x2C, 0x2F, 0x2E, 0x29, 0x28][k], 0x74, 0xC5, 0x77, 0xDA, 0x4A, 0x9A, 0xF4]
  {
    hide Encrypt, Decrypt, CipherKey1, CipherKey2, PackImei, Marker, MasterEntry, MasterEntries;
    MarkerBytes(k);
    EntryAt(keys, 6, k);
    EntrySlice(keys, k);
    EntryOpens(keys.masterKeys[k], keys.esn, PackImei(keys.imei), k);
  }

  lemma EntrySlice(keys: Keys, k: nat)
    requires k < 6
    ensures Record5121(keys)[8 + 8 * k..16 + 8 * k] == MasterEntries(keys, 6)[8 * k..8 * k + 8]
  {
    hide Encrypt, CipherKey1, PackImei, Marker, MasterEntries;
  }

  lemma EntryOpens(code: word, esn: word, imei: Packed, k: nat)
    requires k < 6
    ensures Decrypt(Decrypt(MasterEntry(code, esn, imei, k), CipherKey1(code, esn, imei)), CipherKey2(code, esn, imei))
         == Marker(IndexWord(k))
  {
    hide Encrypt, Decrypt, CipherKey1, CipherKey2, Marker, IndexWord;
    var plain, key1, key2 := Marker(IndexWord(k)), CipherKey1(code, esn, imei), CipherKey2(code, esn, imei);
    DecryptUndoesEncrypt(Encrypt(plain, key2), key1);
    DecryptUndoesEncrypt(plain, key2);
  }

  /** Both keys hold the masked code, the ESN and the IMEI, each at its own place. */
  lemma CodeKeysMeaning(code: word, esn: word, imei: Packed)
    ensures var key := CipherKey1(code, esn, imei);
      && key[..4] == U32(code ^ 0x7F0BF23B) && key[4..8] == U32(esn) && key[0x38..] == imei
      && key[8..0x38] == KeyMk1()[8..0x38]
    ensures var key := CipherKey2(code, esn, imei);
      && key[..8] == [8] + imei[..7] && key[0x38..0x3C] == U32(code ^ 0x7F0BF23B) && key[0x3C..] == U32(esn)
      && key[8..0x38] == KeyMk2()[8..0x38]
  {
    CipherKey2Head(code, esn, imei);
    hide KeyMk1, KeyMk2, U32, FirstWord;
  }

  /** The key of blocks 5008 and 5077 holds the ESN and the IMEI. */
  lemma EepromKeyMeaning(esn: word, imei: ImeiText)
    ensures var key := EepromKey(esn, imei);
      && key[..0x30] == KeyEep()[..0x30] && key[0x30..0x34] == U32(esn) && key[0x34..0x38] == KeyEep()[0x34..0x38]
      && key[0x38..] == PackImei(imei)
  {
    hide KeyEep, U32, PackImei;
  }

  /** The packed IMEI: a marker nibble, 14 digits with the low nibble first, and a zero. */
  lemma PackedDigits(imei: ImeiText, i: nat)
    requires i < 8 && AllDigits(imei[..14])
    ensures var digit := (k: int) requires 0 <= k < 14 => DigitValue(imei[k]);
      Num(PackImei(imei)[i])
        == (if i == 0 then 0x0A else digit(2 * i - 1)) + 16 * (if i < 7 then digit(2 * i) else 0)
  {
    var low := if i == 0 then 0x0A else Nibble(imei[2 * i - 1]);
    var high := if i < 7 then Nibble(imei[2 * i]) else 0;
    if i > 0 {
      assert IsDigit(imei[..14][2 * i - 1]);
      DigitIsNibble(imei[2 * i - 1]);
    }
    if i < 7 {
      assert IsDigit(imei[..14][2 * i]);
      DigitIsNibble(imei[2 * i]);
    }
    hide Nibble, DigitValue, Num, IsDigit;
    TwoNibbles(low, high);
  }

  lemma DigitIsNibble(c: byte)
    requires IsDigit(c)
    ensures Nibble(c) <= 9 && Num(Nibble(c)) == DigitValue(c)
  {
  }

  lemma TwoNibbles(low: byte, high: byte)
    requires low <= 0x0A && high <= 9
    ensures Num(low | (high << 4)) == Num(low) + 16 * Num(high)
    ensures Num(0) == 0 && Num(0x0A) == 10 && low | 0 == low
  {
  }

  // ----- The other records -----

  /** Block 52: BKEY, VerDown byte, 145 constant bytes, erased bytes. Block 5122: SKEY, 0x58, 0. */
  lemma Records52And5122(bkey: seq<byte>, verDown: byte, skey: word)
    requires |bkey| == 16
    ensures var d := Record52(bkey, verDown);
      && |d| == 0x122 && d[..16] == bkey && d[16] == verDown && d[17..0xA2] == Block52Tail()
      && forall i :: 0xA2 <= i < 0x122 ==> d[i] == 0xFF
    ensures Record5122(skey)[..4] == U32(skey) && Record5122(skey)[4..] == [0x58, 0]
  {
    hide Block52Tail, U32;
  }

  /** Block 5123: a word that tells the form, the SKEY marker of block 5121, and in the long form zeros. */
  lemma Record5123Meaning(block5121: seq<byte>, short: bool)
    requires |block5121| >= 8
    ensures var d := Record5123(block5121, short);
      && |d| == (if short then 12 else 32)
      && d[..4] == (if short then [0x3F, 0xFF, 0xFF, 0xFF] else [0x07, 0x1F, 0xFF, 0xFF])
      && d[4..12] == block5121[..8] && forall i :: 12 <= i < |d| ==> d[i] == 0
  {
    FormWords();
    hide U32;
  }

  lemma FormWords()
    ensures U32(0xFFFFFF3F) == [0x3F, 0xFF, 0xFF, 0xFF] && U32(0xFFFF1F07) == [0x07, 0x1F, 0xFF, 0xFF]
  {
  }

  /** Block 5468: BKEY, 0x58, the digest of the ESN, half those of the IMEI and of everything before. */
  lemma Record5468Meaning(keys: Keys, bkey: seq<byte>)
    requires |bkey| == 16
    ensures var d := Record5468(keys, bkey);
      && |d| == 0x31 && d[..16] == bkey && d[16] == 0x58 && d[17..33] == Md5Of(U32(keys.esn))
      && d[33..41] == Md5Of(keys.imei)[..8] && d[41..] == Md5Of(d[..41])[..8]
  {
    hide Md5Of, U32;
    assert Record5468(keys, bkey)[..41] == Head5468(keys, bkey);
  }

  /** BKEY is the digest of 16 bytes: ESN, SKEY, and eight that each XOR two earlier ones; HASH is that of BKEY. */
  lemma BkeyMeaning(esn: word, skey: word)
    ensures var d := DerivationBlock(esn, skey);
      && d[..4] == U32(esn) && d[4..8] == U32(skey)
      && (forall i :: 8 <= i < 16 ==> d[i] == d[i - 8] ^ d[i - 5])
      && Bkey(esn, skey) == Md5Of(d) && HashOf(esn, skey) == Md5Of(Md5Of(d))
  {
    DerivationHead(esn, skey);
    hide Md5Of, U32, DerivationByte;
    var d := DerivationBlock(esn, skey);
    forall i: nat | 8 <= i < 16
      ensures d[i] == d[i - 8] ^ d[i - 5]
    {
      DerivationTail(esn, skey, i);
    }
  }
}
