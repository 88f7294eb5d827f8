/** The security records a recalculation writes (the builders of src/siemens/recalc.cpp). */
module Records {
  import opened Bytes
  import opened Cipher
  import opened Imei
  import opened Keys
  import opened Md5

  // ----- Checksums -----

  function SumOf(d: seq<byte>): byte {
    if d == [] then 0 else Plus(SumOf(d[..|d| - 1]), d[|d| - 1])
  }

  function XorOf(d: seq<byte>): byte {
    if d == [] then 0 else Xor(XorOf(d[..|d| - 1]), d[|d| - 1])
  }

  /** The two bytes after `d[at..at + size]` are its byte sum and its byte XOR. */
  predicate ValidChecksum(d: seq<byte>, at: nat, size: nat)
    requires at + size + 2 <= |d|
  {
    d[at + size] == SumOf(d[at..at + size]) && d[at + size + 1] == XorOf(d[at..at + size])
  }

  function WithChecksum(d: seq<byte>, at: nat, size: nat): (r: seq<byte>)
    requires at + size + 2 <= |d|
    ensures |r| == |d|
  {
    Put(d, at + size, [SumOf(d[at..at + size]), XorOf(d[at..at + size])])
  }

  lemma SumsNext(d: seq<byte>, at: nat, n: nat)
    requires at + n < |d|
    ensures SumOf(d[at..at + n + 1]) == Plus(SumOf(d[at..at + n]), d[at + n])
    ensures XorOf(d[at..at + n + 1]) == Xor(XorOf(d[at..at + n]), d[at + n])
  {
    hide Plus, Xor;
    assert d[at..at + n + 1][..n] == d[at..at + n];
  }

  method SumBytes(data: array<byte>, at: nat, size: nat) returns (sum: byte, xorValue: byte)
    requires at + size <= data.Length
    ensures sum == SumOf(data[at..at + size]) && xorValue == XorOf(data[at..at + size])
  {
    hide Plus, Xor;
    sum, xorValue := 0, 0;
    for index := 0 to size
      invariant sum == SumOf(data[..][at..at + index]) && xorValue == XorOf(data[..][at..at + index])
    {
      SumsNext(data[..], at, index);
      sum := Plus(sum, data[at + index]);
      xorValue := Xor(xorValue, data[at + index]);
    }
    assert data[..][at..at + size] == data[at..at + size];
  }

  method WriteChecksum(data: array<byte>, offset: nat, size: nat)
    requires offset + size + 2 <= data.Length
    modifies data
    ensures data[..] == WithChecksum(old(data[..]), offset, size)
  {
    hide SumOf, XorOf;
    ghost var image := data[..];
    var sum, xorValue := SumBytes(data, offset, size);
    assert data[offset..offset + size] == image[offset..offset + size];
    data[offset + size] := sum;
    data[offset + size + 1] := xorValue;
  }

  method HasValidChecksum(data: array<byte>, at: nat, size: nat) returns (valid: bool)
    requires at + size + 2 <= data.Length
    ensures valid == ValidChecksum(data[..], at, size)
  {
    hide SumOf, XorOf;
    var sum, xorValue := SumBytes(data, at, size);
    assert data[..][at..at + size] == data[at..at + size];
    valid := data[at + size] == sum && data[at + size + 1] == xorValue;
  }

  /** A written checksum is valid, and stays valid in any buffer that keeps its range and its two bytes. */
  lemma ChecksumHolds(d: seq<byte>, at: nat, size: nat, kept: seq<byte>, shift: nat)
    requires at + size + 2 <= |d| && shift + size + 2 <= |kept|
    requires kept[shift..shift + size + 2] == WithChecksum(d, at, size)[at..at + size + 2]
    ensures ValidChecksum(kept, shift, size)
  {
    hide SumOf, XorOf;
    var w := WithChecksum(d, at, size);
    var range := kept[shift..shift + size + 2];
    assert w[at..at + size] == d[at..at + size];
    assert kept[shift..shift + size] == range[..size] == w[at..at + size + 2][..size] == w[at..at + size];
    assert kept[shift + size] == range[size] == w[at + size];
    assert kept[shift + size + 1] == range[size + 1] == w[at + size + 1];
  }

  // ----- Blocks 5008 and 5077 -----

  const HEADER_5008: seq<word> :=
    [0x56605650, 0, 0x300, 0x670000, 0, 0xFFFFFFFF, 0xFFFFFFFF, 0x6462FF00, 0x56805670, 0]

  function Fill(value: byte, size: nat): (d: seq<byte>)
    ensures |d| == size && forall i :: 0 <= i < size ==> d[i] == value
  {
    seq(size, _ => value)
  }

  function MaskWord(d: seq<byte>, at: nat, mask: word): (r: seq<byte>)
    requires at + 4 <= |d|
    ensures |r| == |d|
    ensures forall i :: 0 <= i < |d| && !(at <= i < at + 4) ==> r[i] == d[i]
  {
    Put(d, at, U32(ReadU32(d, at) ^ mask))
  }

  const MASK_LOW: word := 0xBA1FE5D7
  const MASK_HIGH: word := 0xD95D2DFD

  function Raw5008(): (d: seq<byte>)
    ensures |d| == 0xE0
  {
    var headed := Put(Fill(0, 0xE0), 0, BytesOf(HEADER_5008));
    Put(Put(Put(headed, 0x28, Fill(0xFF, 0xB8)), 0xD8, U32(0x50)), 0xDC, U32(0))
  }

  function Checked5008(): (d: seq<byte>)
    ensures |d| == 0xE0
  {
    WithChecksum(WithChecksum(Raw5008(), 8, 0x16), 0x28, 0xB0)
  }

  /** The plain record: header, two checksummed ranges, four masked header words. */
  function Plain5008(): (d: seq<byte>)
    ensures |d| == 0xE0
  {
    MaskWord(MaskWord(MaskWord(MaskWord(Checked5008(), 0, MASK_LOW), 4, MASK_HIGH), 0x20, MASK_LOW), 0x24, MASK_HIGH)
  }

  /** Two separate cipher streams, 0x20 and 0xC0 bytes long. */
  function Record5008(imei: ImeiText, esn: word): (d: seq<byte>)
    ensures |d| == 0xE0
  {
    var key := EepromKey(esn, imei);
    Encrypt(Plain5008()[..0x20], key) + Encrypt(Plain5008()[0x20..], key)
  }

  method BuildBlock5008(imei: ImeiText, esn: word) returns (result: seq<byte>)
    ensures result == Record5008(imei, esn)
  {
    hide Plain5008, EepromKey, Encrypt, Put;
    var block := PlainBlock5008();
    ghost var plain := block[..];
    var key := EepromKey(esn, imei);
    TwoStreams(plain, Encrypt(plain[..0x20], key), Encrypt(plain[0x20..], key));
    assert block[0..0x20] == plain[..0x20];
    CipherEncrypt(block, 0, 0x20, key);
    assert block[0x20..0xE0] == block[..][0x20..];
    CipherEncrypt(block, 0x20, 0xC0, key);
    result := block[..];
  }

  lemma TwoStreams(d: seq<byte>, a: seq<byte>, b: seq<byte>)
    requires |d| == 0xE0 && |a| == 0x20 && |b| == 0xC0
    ensures Put(d, 0, a)[0x20..] == d[0x20..]
    ensures Put(Put(d, 0, a), 0x20, b) == a + b
  {
  }

  /** The record before encryption. */
  method PlainBlock5008() returns (block: array<byte>)
    ensures fresh(block) && block[..] == Plain5008()
  {
    hide Raw5008, WithChecksum, MaskWord;
    block := RawBlock5008();
    WriteChecksum(block, 8, 0x16);
    WriteChecksum(block, 0x28, 0xB0);
    MaskWordAt(block, 0, MASK_LOW);
    MaskWordAt(block, 4, MASK_HIGH);
    MaskWordAt(block, 0x20, MASK_LOW);
    MaskWordAt(block, 0x24, MASK_HIGH);
  }

  method RawBlock5008() returns (block: array<byte>)
    ensures fresh(block) && block[..] == Raw5008()
  {
    hide BytesOf, U32, Put, HEADER_5008;
    block := new byte[0xE0](i => 0);
    assert block[..] == Fill(0, 0xE0);
    hide Fill;
    FillHeader(block);
    FillWith(block, 0x28, 0xB8, 0xFF);
    StoreU32(block, 0xD8, 0x50);
    StoreU32(block, 0xDC, 0);
  }

  /** The header loop. */
  method FillHeader(block: array<byte>)
    requires block.Length == 0xE0 && block[..] == Fill(0, 0xE0)
    modifies block
    ensures block[..] == Put(Fill(0, 0xE0), 0, BytesOf(HEADER_5008))
  {
    hide U32;
    for index := 0 to 10
      invariant block[..] == Put(Fill(0, 0xE0), 0, BytesOf(HEADER_5008[..index]))
    {
      assert HEADER_5008[..index + 1] == HEADER_5008[..index] + [HEADER_5008[index]];
      BytesOfSnoc(HEADER_5008[..index], HEADER_5008[index]);
      PutTwice(Fill(0, 0xE0), BytesOf(HEADER_5008[..index]), U32(HEADER_5008[index]));
      StoreU32(block, index * 4, HEADER_5008[index]);
    }
    assert HEADER_5008[..10] == HEADER_5008;
  }

  lemma PutTwice(d: seq<byte>, a: seq<byte>, b: seq<byte>)
    requires |a| + |b| <= |d|
    ensures Put(Put(d, 0, a), |a|, b) == Put(d, 0, a + b)
  {
  }

  /** memset. */
  method FillWith(block: array<byte>, at: nat, size: nat, value: byte)
    requires at + size <= block.Length
    modifies block
    ensures block[..] == Put(old(block[..]), at, Fill(value, size))
  {
    for i := at to at + size
      invariant forall k :: 0 <= k < block.Length ==> block[k] == if at <= k < i then value else old(block[k])
    {
      block[i] := value;
    }
  }

  method MaskWordAt(block: array<byte>, at: nat, mask: word)
    requires at + 4 <= block.Length
    modifies block
    ensures block[..] == MaskWord(old(block[..]), at, mask)
  {
    hide U32, ReadU32;
    var value := LoadU32(block, at);
    StoreU32(block, at, value ^ mask);
  }

  /** The checksums are written before the header words are masked; the masks miss both checked ranges. */
  lemma Plain5008Checks()
    ensures ValidChecksum(Plain5008()[..0x20], 8, 0x16)
    ensures ValidChecksum(Plain5008()[0x20..], 8, 0xB0)
  {
    hide U32, ReadU32, SumOf, XorOf, Raw5008;
    var raw, plain := Raw5008(), Plain5008();
    var first := WithChecksum(raw, 8, 0x16);
    assert forall i :: 8 <= i < 0x20 ==> plain[i] == first[i];
    assert plain[..0x20][8..0x20] == first[8..0x20];
    ChecksumHolds(raw, 8, 0x16, plain[..0x20], 8);
    var second := WithChecksum(first, 0x28, 0xB0);
    assert forall i :: 0x28 <= i < 0xDA ==> plain[i] == second[i];
    assert plain[0x20..][8..8 + 0xB2] == plain[0x28..0xDA] == second[0x28..0xDA];
    ChecksumHolds(first, 0x28, 0xB0, plain[0x20..], 8);
  }

  function Raw5077(): (d: seq<byte>)
    ensures |d| == 0xE8
  {
    var d := Put(Put(Put(Fill(0xFF, 0xE8), 0, U32(0x56A05690)), 4, U32(0)), 0xB, [0]);
    Put(Put(d, 0xE0, U32(0x063DFF29)), 0xE4, U32(0xF3800B06))
  }

  function Plain5077(): (d: seq<byte>)
    ensures |d| == 0xE8
  {
    MaskWord(MaskWord(WithChecksum(Raw5077(), 8, 0xD8), 0, MASK_LOW), 4, MASK_HIGH)
  }

  function Record5077(imei: ImeiText, esn: word): (d: seq<byte>)
    ensures |d| == 0xE8
  {
    Encrypt(Plain5077(), EepromKey(esn, imei))
  }

  const BLOCK5077_TAIL: seq<byte> := [0x3D, 0x06, 0x06, 0x0B, 0x80, 0xF3]

  method BuildBlock5077(imei: ImeiText, esn: word) returns (result: seq<byte>)
    ensures result == Record5077(imei, esn)
  {
    hide Plain5077, EepromKey, Encrypt, Put;
    var block := PlainBlock5077();
    assert block[0..0xE8] == block[..];
    CipherEncrypt(block, 0, 0xE8, EepromKey(esn, imei));
    PutWhole(Plain5077(), Record5077(imei, esn));
    result := block[..];
  }

  /** The record before encryption. */
  method PlainBlock5077() returns (block: array<byte>)
    ensures fresh(block) && block[..] == Plain5077()
  {
    hide Raw5077, WithChecksum, MaskWord;
    block := RawBlock5077();
    WriteChecksum(block, 8, 0xD8);
    MaskWordAt(block, 0, MASK_LOW);
    MaskWordAt(block, 4, MASK_HIGH);
  }

  method RawBlock5077() returns (block: array<byte>)
    ensures fresh(block) && block[..] == Raw5077()
  {
    hide U32, Put;
    block := new byte[0xE8](i => 0xFF);
    assert block[..] == Fill(0xFF, 0xE8);
    hide Fill;
    StoreU32(block, 0, 0x56A05690);
    StoreU32(block, 4, 0);
    PutOne(block[..], 0xB, 0);
    block[0xB] := 0;
    StoreU32(block, 0xE0, 0x063DFF29);
    StoreU32(block, 0xE4, 0xF3800B06);
  }

  lemma PutOne(d: seq<byte>, at: nat, v: byte)
    requires at < |d|
    ensures Put(d, at, [v]) == d[at := v]
  {
  }

  lemma PutWhole(d: seq<byte>, v: seq<byte>)
    requires |v| == |d|
    ensures Put(d, 0, v) == v
  {
  }

  /** The checksum overwrites the first two bytes of the last words; the six after it are the tail the
      search compares. */
  lemma Plain5077Checks()
    ensures ValidChecksum(Plain5077(), 8, 0xD8)
    ensures Plain5077()[0xE2..] == BLOCK5077_TAIL
  {
    TailWords();
    hide U32, ReadU32, SumOf, XorOf;
    var raw, plain := Raw5077(), Plain5077();
    var w := WithChecksum(raw, 8, 0xD8);
    assert forall i :: 8 <= i < 0xE8 ==> plain[i] == w[i];
    assert forall i :: 0xE2 <= i < 0xE8 ==> plain[i] == raw[i];
    hide Plain5077, Raw5077;
    assert plain[8..8 + 0xDA] == w[8..8 + 0xDA];
    ChecksumHolds(raw, 8, 0xD8, plain, 8);
    Tail5077(raw, plain);
  }

  lemma TailWords()
    ensures U32(0x063DFF29) == [0x29, 0xFF, 0x3D, 0x06] && U32(0xF3800B06) == [0x06, 0x0B, 0x80, 0xF3]
  {
  }

  lemma Tail5077(raw: seq<byte>, plain: seq<byte>)
    requires raw == Raw5077() && |plain| == 0xE8 && forall i :: 0xE2 <= i < 0xE8 ==> plain[i] == raw[i]
    ensures plain[0xE2..] == BLOCK5077_TAIL
  {
    TailWords();
    hide U32;
    assert raw[0xE2] == 0x3D && raw[0xE3] == 0x06;
    assert raw[0xE4] == 0x06 && raw[0xE5] == 0x0B && raw[0xE6] == 0x80 && raw[0xE7] == 0xF3;
  }

  // ----- Blocks 5121, 5122 and 5123 -----

  const MARKER_LOW: word := 0x77C5742D
  const MARKER_HIGH: word := 0xF49A4ADA

  /** Eight marker bytes; a master code's marker has its index XORed in. */
  function Marker(index: word): (d: seq<byte>)
    ensures |d| == 8
  {
    U32(index ^ MARKER_LOW) + U32(MARKER_HIGH)
  }

  /** The index of a master code as a 32-bit number. */
  function IndexWord(index: nat): word
    requires index < 6
  {
    match index
    case 0 => 0
    case 1 => 1
    case 2 => 2
    case 3 => 3
    case 4 => 4
    case _ => 5
  }

  /** The marker encrypted for one code: under the second key and then under the first. */
  function MasterEntry(code: word, esn: word, imei: Packed, index: nat): (d: seq<byte>)
    requires index < 6
    ensures |d| == 8
  {
    Encrypt(Encrypt(Marker(IndexWord(index)), CipherKey2(code, esn, imei)), CipherKey1(code, esn, imei))
  }

  function MasterEntries(keys: Keys, n: nat): (d: seq<byte>)
    requires n <= 6
    ensures |d| == 8 * n
  {
    if n == 0 then []
    else MasterEntries(keys, n - 1) + MasterEntry(keys.masterKeys[n - 1], keys.esn, PackImei(keys.imei), n - 1)
  }

  /** The SKEY marker, then six master codes. */
  function Record5121(keys: Keys): (d: seq<byte>)
    ensures |d| == 0x38
  {
    Encrypt(Marker(0), CipherKey1(keys.skey, keys.esn, PackImei(keys.imei))) + MasterEntries(keys, 6)
  }

  method BuildBlock5121(keys: Keys) returns (result: seq<byte>)
    ensures result == Record5121(keys)
  {
    hide Encrypt, CipherKey1, PackImei, Marker, MasterEntry;
    var packedImei := PackImei(keys.imei);
    var block := new byte[0x38](i => 0);
    BuildMarker(block, keys.skey, keys.esn, packedImei);
    ghost var head := Encrypt(Marker(0), CipherKey1(keys.skey, keys.esn, packedImei));
    for index := 0 to 6
      invariant block[..8 + 8 * index] == head + MasterEntries(keys, index)
    {
      ghost var before := block[..8 + 8 * index];
      BuildEntry(block, 8 + index * 8, keys.masterKeys[index], keys.esn, packedImei, index);
      SplitAt(block[..], 8 + 8 * index, 8 + 8 * index + 8);
      EntriesNext(keys, index, head, before, block[8 + 8 * index..8 + 8 * index + 8]);
    }
    result := block[..];
    assert result == block[..8 + 8 * 6];
  }

  lemma SplitAt<T>(d: seq<T>, a: nat, b: nat)
    requires a <= b <= |d|
    ensures d[..b] == d[..a] + d[a..b]
  {
  }

  lemma EntriesNext(keys: Keys, n: nat, head: seq<byte>, before: seq<byte>, entry: seq<byte>)
    requires n < 6 && before == head + MasterEntries(keys, n)
    requires entry == MasterEntry(keys.masterKeys[n], keys.esn, PackImei(keys.imei), n)
    ensures before + entry == head + MasterEntries(keys, n + 1)
  {
    hide MasterEntry;
  }

  /** The SKEY marker at the start of the block. */
  method BuildMarker(block: array<byte>, skey: word, esn: word, imei: Packed)
    requires block.Length == 0x38
    modifies block
    ensures block[..8] == Encrypt(Marker(0), CipherKey1(skey, esn, imei))
  {
    hide U32, Encrypt, CipherKey1;
    StoreU32(block, 0, MARKER_LOW);
    StoreU32(block, 4, MARKER_HIGH);
    MarkerZero();
    assert block[0..8] == Marker(0);
    CipherEncrypt(block, 0, 8, CipherKey1(skey, esn, imei));
  }

  lemma MarkerZero()
    ensures Marker(0) == U32(MARKER_LOW) + U32(MARKER_HIGH)
  {
    assert 0 ^ MARKER_LOW == MARKER_LOW;
    hide U32;
  }

  /** One master code entry, in place. */
  method BuildEntry(block: array<byte>, at: nat, code: word, esn: word, imei: Packed, index: nat)
    requires at + 8 <= block.Length && index < 6
    modifies block
    ensures block[..] == Put(old(block[..]), at, MasterEntry(code, esn, imei, index))
    ensures block[at..at + 8] == MasterEntry(code, esn, imei, index)
    ensures block[..at] == old(block[..at])
  {
    hide U32, Encrypt, CipherKey1, CipherKey2, IndexWord;
    StoreU32(block, at, IndexWord(index) ^ MARKER_LOW);
    StoreU32(block, at + 4, MARKER_HIGH);
    assert block[at..at + 8] == Marker(IndexWord(index));
    CipherEncrypt(block, at, 8, CipherKey2(code, esn, imei));
    assert block[at..at + 8] == Encrypt(Marker(IndexWord(index)), CipherKey2(code, esn, imei));
    CipherEncrypt(block, at, 8, CipherKey1(code, esn, imei));
  }

  function Record5122(skey: word): (d: seq<byte>)
    ensures |d| == 6
  {
    U32(skey) + [0x58, 0]
  }

  method BuildBlock5122(skey: word) returns (result: seq<byte>)
    ensures result == Record5122(skey)
  {
    hide U32;
    var block := new byte[6](i => 0);
    StoreU32(block, 0, skey);
    block[4] := 0x58;
    block[5] := 0;
    result := block[..];
    assert result == Record5122(skey);
  }

  function Record5123(block5121: seq<byte>, shortVariant: bool): (d: seq<byte>)
    requires |block5121| >= 8
    ensures |d| == if shortVariant then 0xC else 0x20
  {
    if shortVariant then U32(0xFFFFFF3F) + block5121[..8]
    else U32(0xFFFF1F07) + block5121[..8] + Fill(0, 0x14)
  }

  method BuildBlock5123(block5121: seq<byte>, shortVariant: bool) returns (result: seq<byte>)
    requires |block5121| >= 8
    ensures result == Record5123(block5121, shortVariant)
  {
    hide U32;
    var block := new byte[if shortVariant then 0xC else 0x20](i => 0);
    StoreU32(block, 0, if shortVariant then 0xFFFFFF3F else 0xFFFF1F07);
    CopyInto(block, 4, block5121[..8]);
    result := block[..];
    assert result == Record5123(block5121, shortVariant);
  }

  // ----- Blocks 52 and 5468 -----

  function Block52Tail(): (tail: seq<byte>)
    ensures |tail| == 145
  {
    [0xff, 0x01, 0x00, 0x00, 0x01, 0x03, 0x00, 0x01, 0x00, 0x01, 0x00, 0x54, 0x00, 0x55, 0x00, 0x80] +
    [0x00, 0xd9, 0xd9, 0xf3, 0xbb, 0x3f, 0x70, 0x85, 0x83, 0x86, 0x91, 0xd8, 0xa0, 0xda, 0xc3, 0x95] +
    [0xa5, 0xa3, 0x4d, 0xd0, 0x4f, 0xcf, 0xe3, 0x50, 0x4a, 0x54, 0xa6, 0x34, 0x52, 0x60, 0x34, 0xd2] +
    [0xfb, 0x76, 0x69, 0x5d, 0xef, 0x36, 0x96, 0x56, 0x0f, 0xc0, 0x6d, 0xef, 0x38, 0x12, 0xb7, 0xc7] +
    [0x2f, 0xbf, 0xd6, 0xa0, 0xd5, 0x15, 0xe7, 0x13, 0x24, 0x14, 0x45, 0x40, 0x40, 0xf9, 0x69, 0x49] +
    [0x08, 0xb1, 0x3b, 0xed, 0x97, 0x9a, 0xef, 0x9f, 0x20, 0x63, 0xda, 0x07, 0xf8, 0x40, 0x3c, 0xeb] +
    [0x30, 0x32, 0x68, 0x08, 0x49, 0x86, 0xa2, 0x3b, 0x3e, 0x61, 0x21, 0xfe, 0x7b, 0xce, 0xd2, 0xad] +
    [0x3b, 0x02, 0x00, 0x5c, 0x41, 0x30, 0xa3, 0x8d, 0x52, 0x79, 0xf0, 0x97, 0x28, 0x4e, 0xfc, 0x18] +
    [0x6a, 0xe9, 0x5e, 0x0a, 0xb2, 0xbe, 0x4b, 0xa7, 0xa8, 0x58, 0x44, 0x28, 0x91, 0xf4, 0xbe, 0xec] +
    [0xef]
  }

  /** BKEY, the VerDown byte, the constant tail, and erased bytes to the end. */
  function Record52(bkey: seq<byte>, verDown: byte): (d: seq<byte>)
    requires |bkey| == 16
    ensures |d| == 0x122
  {
    bkey + [verDown] + Block52Tail() + Fill(0xFF, 128)
  }

  method BuildBlock52(bkey: seq<byte>, verDown: byte) returns (result: seq<byte>)
    requires |bkey| == 16
    ensures result == Record52(bkey, verDown)
  {
    hide Block52Tail;
    var tail := Block52Tail();
    var block := new byte[0x122](i => 0xFF);
    CopyInto(block, 0, bkey);
    block[16] := verDown;
    CopyInto(block, 17, tail);
    result := block[..];
    assert result == Record52(bkey, verDown);
  }

  function Head5468(keys: Keys, bkey: seq<byte>): (d: seq<byte>)
    requires |bkey| == 16
    ensures |d| == 0x29
  {
    bkey + [0x58] + Md5Of(U32(keys.esn)) + Md5Of(keys.imei)[..8]
  }

  /** BKEY, 0x58, the ESN's digest, half the IMEI's, and half the digest of all before. */
  function Record5468(keys: Keys, bkey: seq<byte>): (d: seq<byte>)
    requires |bkey| == 16
    ensures |d| == 0x31
  {
    Head5468(keys, bkey) + Md5Of(Head5468(keys, bkey))[..8]
  }

  method BuildBlock5468(keys: Keys, bkey: seq<byte>) returns (result: seq<byte>)
    requires |bkey| == 16
    ensures result == Record5468(keys, bkey)
  {
    hide U32, Md5Of;
    var block := new byte[0x31](i => 0);
    CopyInto(block, 0, bkey);
    block[16] := 0x58;
    var esnHash := Md5Digest(U32(keys.esn));
    CopyInto(block, 0x11, esnHash);
    var imeiHash := Md5Digest(keys.imei);
    CopyInto(block, 0x21, imeiHash[..8]);
    assert block[..0x29] == Head5468(keys, bkey);
    var totalHash := Md5Digest(block[..0x29]);
    CopyInto(block, 0x29, totalHash[..8]);
    result := block[..];
    assert result == Record5468(keys, bkey);
  }

  /** memcpy into a block. */
  method CopyInto(block: array<byte>, at: nat, value: seq<byte>)
    requires at + |value| <= block.Length
    modifies block
    ensures block[..] == Put(old(block[..]), at, value)
  {
    for i := 0 to |value|
      invariant forall k :: 0 <= k < block.Length ==> block[k] == if at <= k < at + i then value[k - at]
        else old(block[k])
    {
      block[at + i] := value[i];
    }
  }
}
