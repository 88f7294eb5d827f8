/** Key derivation: cipher key blocks, BKEY and HASH (src/siemens/crypto.cpp). */
module Keys {
  import opened Bytes
  import opened Cipher
  import opened Imei
  import opened Md5

  /** The identity an image is recalculated for; the source reads at least 14 characters of the IMEI. */
  datatype KeysData = KeysData(imei: seq<byte>, esn: word, skey: word, masterKeys: seq<word>, verDown: byte)

  type Keys = k: KeysData | |k.imei| >= 14 && |k.masterKeys| == 6
    witness KeysData(seq(14, _ => 0x30), 0, 0, seq(6, _ => 0), 1)

  // ----- Key templates -----

  function KeyEep(): (key: KeyBlock)
  {
    [0x14, 0x0a, 0xee, 0xe5, 0xd7, 0xfb, 0xff, 0xf8, 0x76, 0x4d, 0xc6, 0x03, 0xfd, 0xb2, 0xf9, 0xb2] +
    [0xb4, 0xcd, 0x66, 0xa2, 0x26, 0xf7, 0x10, 0xa4, 0x3e, 0x11, 0xc2, 0x43, 0xf4, 0x51, 0xf6, 0xaf] +
    [0xdc, 0x6d, 0x98, 0x8c, 0x08, 0x8f, 0x58, 0x8e, 0xdc, 0x4f, 0xb8, 0x8e, 0x08, 0xe2, 0x28, 0x41] +
    [0x00, 0x00, 0x00, 0x00, 0x55, 0x55, 0x55, 0x08, 0x00, 0x00, 0x00, 0x00, 0x00, 0x00, 0x00, 0x00]
  }

  function KeyMk1(): (key: KeyBlock)
  {
    [0x00, 0x00, 0x00, 0x00, 0xee, 0xee, 0xee, 0xee, 0x0a, 0xd0, 0xdc, 0x9c, 0xaf, 0xec, 0xaa, 0xb9] +
    [0x51, 0xa5, 0x7b, 0x85, 0xe0, 0x80, 0xe9, 0xb3, 0xf6, 0x7f, 0x01, 0xf8, 0x9d, 0x71, 0x8f, 0x42] +
    [0x4d, 0xf5, 0xa0, 0xe1, 0xd2, 0x1e, 0xd2, 0x4f, 0xdc, 0x6d, 0x98, 0x8c, 0x08, 0x8f, 0x58, 0x8e] +
    [0xdc, 0x4f, 0xb8, 0x8e, 0x08, 0xe2, 0x28, 0x08, 0x1a, 0x32, 0x54, 0x76, 0x98, 0x10, 0x32, 0x54]
  }

  function KeyMk2(): (key: KeyBlock)
  {
    [0x08, 0x1a, 0x32, 0x54, 0x76, 0x98, 0x10, 0x32, 0xd8, 0xc5, 0x72, 0x7c, 0x25, 0xf8, 0xc8, 0x59] +
    [0xdb, 0xee, 0x22, 0xca, 0xb5, 0x7d, 0xb4, 0xf3, 0xa5, 0x5e, 0x6e, 0xb1, 0x0d, 0xb1, 0xa5, 0x67] +
    [0xdc, 0x6d, 0x98, 0x8c, 0x08, 0x8f, 0x58, 0x8e, 0xdc, 0x4f, 0xb8, 0x8e, 0x08, 0xe2, 0x28, 0x41] +
    [0x16, 0xea, 0xfa, 0xf7, 0xd7, 0xc4, 0xd9, 0x2a, 0x3b, 0xf2, 0x0b, 0x7f, 0xee, 0xee, 0xee, 0xee]
  }

  function Unmask(code: word): word {
    code ^ 0x7F0BF23B
  }

  function EepromKey(esn: word, imei: ImeiText): KeyBlock {
    Put(Put(KeyEep(), 0x30, U32(esn)), 0x38, PackImei(imei))
  }

  type Packed = s: seq<byte> | |s| == 8 witness seq(8, _ => 0)

  function CipherKey1(code: word, esn: word, imei: Packed): KeyBlock {
    Put(Put(Put(KeyMk1(), 0, U32(Unmask(code))), 4, U32(esn)), 0x38, imei)
  }

  function FirstWord(a: byte, b: byte, c: byte): word {
    8 + (a as word << 8) + (b as word << 16) + (c as word << 24)
  }

  function CipherKey2(code: word, esn: word, imei: Packed): KeyBlock {
    var key := Put(KeyMk2(), 0, U32(FirstWord(imei[0], imei[1], imei[2])));
    Put(Put(Put(key, 4, imei[3..7]), 0x38, U32(Unmask(code))), 0x3C, U32(esn))
  }

  /** The sums of the second key's first word never carry: it is the byte 8 followed by three packed bytes. */
  lemma FirstWordBytes(a: byte, b: byte, c: byte)
    ensures U32(FirstWord(a, b, c)) == [8, a, b, c]
  {
    assert FirstWord(a, b, c) == Join(8, a, b, c) by {
      assert 8 + (a as word << 8) == 8 | (a as word << 8);
      assert (8 | (a as word << 8)) + (b as word << 16) == 8 | (a as word << 8) | (b as word << 16);
    }
    SplitWord(8, a, b, c);
  }

  /** So the second key starts with the byte 8 and the first seven packed bytes of the IMEI. */
  lemma CipherKey2Head(code: word, esn: word, imei: Packed)
    ensures CipherKey2(code, esn, imei)[..8] == [8] + imei[..7]
  {
    FirstWordBytes(imei[0], imei[1], imei[2]);
    hide KeyMk2, U32, Unmask, FirstWord;
  }

  // ----- Patching the ESN into a template -----

  lemma PutPut<T>(d: seq<byte>, at: nat, v: seq<byte>, w: seq<byte>, other: nat, u: seq<byte>)
    requires |v| == |w| && at + |v| <= |d| && other + |u| <= |d| && (at + |v| <= other || other + |u| <= at)
    ensures Put(Put(Put(d, at, v), other, u), at, w) == Put(Put(d, at, w), other, u)
  {
  }

  /** Patching a candidate over the ESN of a template gives the key built for that candidate. */
  lemma EepromTemplate(esn: word, candidate: word, imei: ImeiText)
    ensures Put(EepromKey(esn, imei), 0x30, U32(candidate)) == EepromKey(candidate, imei)
  {
    hide KeyEep, U32, PackImei;
    PutPut<byte>(KeyEep(), 0x30, U32(esn), U32(candidate), 0x38, PackImei(imei));
  }

  lemma MarkerTemplate(code: word, esn: word, candidate: word, imei: Packed)
    ensures Put(CipherKey1(code, esn, imei), 4, U32(candidate)) == CipherKey1(code, candidate, imei)
  {
    hide KeyMk1, U32, Unmask;
    PutPut<byte>(Put(KeyMk1(), 0, U32(Unmask(code))), 4, U32(esn), U32(candidate), 0x38, imei);
  }

  // ----- BKEY and HASH -----

  /** The 16 bytes hashed to BKEY: ESN, SKEY, then eight XORs of earlier bytes, the last three of which are themselves
      new. */
  function DerivationByte(esn: word, skey: word, i: nat): byte
    requires i < 16
  {
    if i < 4 then U32(esn)[i]
    else if i < 8 then U32(skey)[i - 4]
    else Xor(DerivationByte(esn, skey, i - 8), DerivationByte(esn, skey, i - 5))
  }

  function DerivationBlock(esn: word, skey: word): (block: seq<byte>)
    ensures |block| == 16
  {
    seq(16, i requires 0 <= i < 16 => DerivationByte(esn, skey, i))
  }

  function Bkey(esn: word, skey: word): (bkey: seq<byte>)
    ensures |bkey| == 16
  {
    Md5Of(DerivationBlock(esn, skey))
  }

  function HashOf(esn: word, skey: word): (hash: seq<byte>)
    ensures |hash| == 16
  {
    Md5Of(Bkey(esn, skey))
  }

  method CalculateBkeyAndHash(esn: word, skey: word) returns (bkey: seq<byte>, hash: seq<byte>)
    ensures bkey == Bkey(esn, skey) && hash == HashOf(esn, skey)
  {
    hide U32, Md5Of, DerivationByte, Xor;
    var block := new byte[16](i => 0);
    StoreU32(block, 0, esn);
    StoreU32(block, 4, skey);
    DerivationHead(esn, skey);
    for i := 0 to 8
      invariant forall k :: 0 <= k < 8 + i ==> block[k] == DerivationByte(esn, skey, k)
    {
      DerivationTail(esn, skey, 8 + i);
      block[8 + i] := Xor(block[i], block[i + 3]);
    }
    assert block[..] == DerivationBlock(esn, skey);
    bkey := Md5Digest(block[..]);
    hash := Md5Digest(bkey);
  }

  lemma DerivationHead(esn: word, skey: word)
    ensures forall k :: 0 <= k < 4 ==> DerivationByte(esn, skey, k) == U32(esn)[k]
    ensures forall k :: 4 <= k < 8 ==> DerivationByte(esn, skey, k) == U32(skey)[k - 4]
  {
    hide U32;
  }

  lemma DerivationTail(esn: word, skey: word, i: nat)
    requires 8 <= i < 16
    ensures DerivationByte(esn, skey, i) == Xor(DerivationByte(esn, skey, i - 8), DerivationByte(esn, skey, i - 5))
  {
    hide U32;
  }

  // ----- The word form used by the search -----

  /** The third and fourth word of the derivation block, computed without its bytes. */
  function Word2(esn: word, skey: word): word {
    ShiftXor(esn, skey)
  }

  function Word3(skey: word, word2: word): word {
    ShiftXor(skey, word2)
  }

  function ShiftXor(w: word, next: word): word {
    w ^ (w >> 24) ^ (next << 8)
  }

  lemma ShiftXorLow(w: word, next: word)
    ensures Byte0(ShiftXor(w, next)) == Xor(Byte0(w), Byte3(w))
    ensures Byte1(ShiftXor(w, next)) == Xor(Byte1(w), Byte0(next))
  {
  }

  lemma ShiftXorHigh(w: word, next: word)
    ensures Byte2(ShiftXor(w, next)) == Xor(Byte2(w), Byte1(next))
    ensures Byte3(ShiftXor(w, next)) == Xor(Byte3(w), Byte2(next))
  {
  }

  /** One shifted-XOR word as bytes: each byte of `w` XORed with the byte three places on, running into `next`. */
  lemma ShiftedXor(w: word, next: word)
    ensures U32(ShiftXor(w, next)) == XorBlock(U32(w), U32(next))
  {
    hide Byte0, Byte1, Byte2, Byte3, Xor, ShiftXor;
    ShiftXorLow(w, next);
    ShiftXorHigh(w, next);
  }

  function XorBlock(w: seq<byte>, next: seq<byte>): (d: seq<byte>)
    requires |w| == 4 && |next| == 4
    ensures |d| == 4
  {
    [Xor(w[0], w[3]), Xor(w[1], next[0]), Xor(w[2], next[1]), Xor(w[3], next[2])]
  }

  /** The two shifted-XOR words are exactly the last eight bytes of the derivation block. */
  lemma DerivationWords(esn: word, skey: word)
    ensures DerivationBlock(esn, skey) == BytesOf([esn, skey, Word2(esn, skey), Word3(skey, Word2(esn, skey))])
  {
    var w2 := Word2(esn, skey);
    ShiftedXor(esn, skey);
    ShiftedXor(skey, w2);
    hide U32, ShiftXor;
    DerivationBytes(esn, skey);
    FourWords(esn, skey, w2, Word3(skey, w2));
  }

  lemma DerivationBytes(esn: word, skey: word)
    ensures var e, s := U32(esn), U32(skey); var d := XorBlock(e, s);
      DerivationBlock(esn, skey) == e + s + d + XorBlock(s, d)
  {
    DerivationHead(esn, skey);
    hide U32, Xor, DerivationByte;
    var block := DerivationBlock(esn, skey);
    forall i: nat | 8 <= i < 16
      ensures block[i] == Xor(block[i - 8], block[i - 5])
    {
      DerivationTail(esn, skey, i);
    }
    var e, s := U32(esn), U32(skey);
    assert block[..4] == e && block[4..8] == s;
    Unrolled(block, Xor, e, s);
  }

  /** The recurrence unrolled, for any operation. */
  lemma Unrolled<T>(block: seq<T>, op: (T, T) -> T, e: seq<T>, s: seq<T>)
    requires |block| == 16 && block[..4] == e && block[4..8] == s
    requires forall i: nat :: 8 <= i < 16 ==> block[i] == op(block[i - 8], block[i - 5])
    ensures var d := [op(e[0], e[3]), op(e[1], s[0]), op(e[2], s[1]), op(e[3], s[2])];
      block == e + s + d + [op(s[0], s[3]), op(s[1], d[0]), op(s[2], d[1]), op(s[3], d[2])]
  {
    assert block[8] == op(block[0], block[3]) && block[9] == op(block[1], block[4]);
    assert block[10] == op(block[2], block[5]) && block[11] == op(block[3], block[6]);
    assert block[12] == op(block[4], block[7]) && block[13] == op(block[5], block[8]);
    assert block[14] == op(block[6], block[9]) && block[15] == op(block[7], block[10]);
  }

  lemma FourWords(w0: word, w1: word, w2: word, w3: word)
    ensures BytesOf([w0, w1, w2, w3]) == U32(w0) + U32(w1) + U32(w2) + U32(w3)
  {
    hide U32;
    BytesOfSnoc([], w0);
    BytesOfSnoc([w0], w1);
    BytesOfSnoc([w0, w1], w2);
    BytesOfSnoc([w0, w1, w2], w3);
    assert [w0, w1, w2, w3] == [w0, w1, w2] + [w3] && [w0, w1, w2] == [w0, w1] + [w2] && [w0, w1] == [w0] + [w1]
      && [w0] == [] + [w0];
    assert [] + U32(w0) == U32(w0);
  }

  lemma BytesOfSnoc(message: seq<word>, w: word)
    ensures BytesOf(message + [w]) == BytesOf(message) + U32(w)
  {
    hide U32;
    assert (message + [w])[..|message|] == message;
  }
}
