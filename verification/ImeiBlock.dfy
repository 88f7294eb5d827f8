/** EEPROM blocks 76 and 5009: the IMEI block the recalculation writes and the reader that must accept it
    (buildImeiBlock in src/siemens/recalc.cpp, decodeImeiBlock in src/siemens/fullflash.cpp). */
module ImeiBlock {
  import opened Wrappers
  import opened Bytes
  import opened Imei

  type Block8 = s: seq<byte> | |s| == 8 witness seq(8, _ => 0)

  function CheckByte(imei: ImeiText): byte {
    CheckDigit(imei) as byte
  }

  function DigitPair(low: byte, high: byte): byte {
    low | (high << 4)
  }

  function HighNibble(b: byte): byte {
    b << 4
  }

  function Low(b: byte): byte {
    b & 0xF
  }

  function High(b: byte): byte {
    b >> 4
  }

  /** Two digits to a byte, the check digit alone in the high nibble of the eighth. */
  function Plain(imei: ImeiText): Block8 {
    seq(8, i requires 0 <= i < 8 =>
      if i < 7 then DigitPair(Nibble(imei[2 * i]), Nibble(imei[2 * i + 1])) else HighNibble(CheckByte(imei)))
  }

  /** XOR of the bytes of one parity among the first `n`. */
  function XorOf(p: seq<byte>, odd: bool, n: nat): byte
    requires n <= |p|
  {
    if n == 0 then 0
    else if ((n - 1) % 2 == 1) == odd then XorOf(p, odd, n - 1) ^ p[n - 1]
    else XorOf(p, odd, n - 1)
  }

  function Check0(p: Block8, full: bool): byte {
    XorOf(p, full, 8)
  }

  function Inverted(xorOdd: byte, xorEven: byte): byte {
    xorOdd ^ xorEven ^ 0xFF
  }

  function Check1(p: Block8): byte {
    Inverted(XorOf(p, true, 8), XorOf(p, false, 8))
  }

  function Seal(p: Block8, full: bool): Block10 {
    p + [Check0(p, full), Check1(p)]
  }

  function Build(imei: ImeiText, full: bool): Block10 {
    EncryptRounds(Seal(Plain(imei), full), full, 4)
  }

  predicate DecimalNibbles(p: Block8) {
    forall i :: 0 <= i < 7 ==> Low(p[i]) <= 9 && High(p[i]) <= 9
  }

  function Char(nibble: byte): byte {
    0x30 + nibble
  }

  /** The 14 digit characters of the first seven bytes, low nibble first. */
  function Text(p: Block8): (text: ImeiText)
    ensures |text| == 14
  {
    seq(14, k requires 0 <= k < 14 => Char(if k % 2 == 0 then Low(p[k / 2]) else High(p[k / 2])))
  }

  /** What a reader accepts: right check bytes, decimal digits, an empty low nibble and the right check digit. */
  predicate Acceptable(d: Block10, full: bool) {
    var p := d[..8];
    d == Seal(p, full) && DecimalNibbles(p) && Low(p[7]) == 0 && CheckByte(Text(p)) == High(p[7])
  }

  function Decode(data: seq<byte>, full: bool): Option<seq<byte>> {
    if |data| != 10 then None
    else
      var d := DecryptRounds(data, full, 4);
      if Acceptable(d, full) then Some(Text(d[..8]) + [Char(High(d[7]))]) else None
  }

  // ----- Writer and reader agree -----

  lemma PairNibbles(low: byte, high: byte)
    requires low <= 9 && high <= 9
    ensures Low(DigitPair(low, high)) == low && High(DigitPair(low, high)) == high
  {
  }

  lemma NibblesPair(b: byte)
    ensures DigitPair(Low(b), High(b)) == b
  {
  }

  lemma HighOnly(b: byte)
    requires b <= 9
    ensures Low(HighNibble(b)) == 0 && High(HighNibble(b)) == b
  {
  }

  lemma LowZero(b: byte)
    requires Low(b) == 0
    ensures HighNibble(High(b)) == b
  {
  }

  lemma CharNibble(n: byte)
    requires n <= 9
    ensures IsDigit(Char(n)) && Nibble(Char(n)) == n
  {
  }

  lemma NibbleChar(c: byte)
    requires IsDigit(c)
    ensures Nibble(c) <= 9 && Char(Nibble(c)) == c
  {
  }

  lemma CheckByteSmall(imei: ImeiText)
    ensures CheckByte(imei) <= 9
  {
    hide CheckSum;
    var d := CheckDigit(imei);
    ByteRoundTrip(d);
    assert (d as byte) as nat <= 9;
  }

  lemma PlainNibbles(imei: ImeiText, i: nat)
    requires i < 7 && IsDigit(imei[2 * i]) && IsDigit(imei[2 * i + 1])
    ensures Low(Plain(imei)[i]) == Nibble(imei[2 * i]) <= 9 && High(Plain(imei)[i]) == Nibble(imei[2 * i + 1]) <= 9
  {
    hide Low, High, Char, Nibble, DigitPair, IsDigit;
    NibbleChar(imei[2 * i]);
    NibbleChar(imei[2 * i + 1]);
    PairNibbles(Nibble(imei[2 * i]), Nibble(imei[2 * i + 1]));
    assert Plain(imei)[i] == DigitPair(Nibble(imei[2 * i]), Nibble(imei[2 * i + 1]));
  }

  lemma TextAt(p: Block8, k: nat)
    requires k < 14
    ensures Text(p)[k] == Char(if k % 2 == 0 then Low(p[k / 2]) else High(p[k / 2]))
  {
    hide Low, High, Char;
  }

  /** The text read back from a built plain block is the IMEI's 14 digits. */
  lemma TextOfPlain(imei: ImeiText)
    requires AllDigits(imei[..14])
    ensures Text(Plain(imei)) == imei[..14] && DecimalNibbles(Plain(imei))
  {
    hide Low, High, Char, Nibble, IsDigit, Plain, Text;
    var p := Plain(imei);
    forall k | 0 <= k < 14
      ensures IsDigit(imei[k])
    {
      assert IsDigit(imei[..14][k]);
    }
    forall i: nat | i < 7
      ensures Low(p[i]) == Nibble(imei[2 * i]) <= 9 && High(p[i]) == Nibble(imei[2 * i + 1]) <= 9
    {
      PlainNibbles(imei, i);
    }
    forall k: nat | k < 14
      ensures Text(p)[k] == imei[k]
    {
      TextAt(p, k);
      NibbleChar(imei[k]);
      if k % 2 == 0 {
        assert imei[2 * (k / 2)] == imei[k];
      } else {
        assert imei[2 * (k / 2) + 1] == imei[k];
      }
    }
  }

  lemma CheckBytePrefix(imei: ImeiText)
    ensures CheckByte(imei[..14]) == CheckByte(imei)
  {
    CheckSumPrefix(imei, imei[..14], 14);
  }

  /** Decoding a built block gives the first 14 digits and their check digit, in both variants. */
  lemma DecodeBuilt(imei: ImeiText, full: bool)
    requires AllDigits(imei[..14])
    ensures Decode(Build(imei, full), full) == Some(imei[..14] + [Char(CheckByte(imei))])
  {
    hide EncryptRounds, DecryptRounds, Check0, Check1, CheckByte, Low, High, HighNibble, Text, DecimalNibbles;
    var p := Plain(imei);
    RoundsUndo(Seal(p, full), full, 4);
    assert Seal(p, full)[..8] == p;
    TextOfPlain(imei);
    CheckByteSmall(imei);
    CheckBytePrefix(imei);
    HighOnly(CheckByte(imei));
    assert p[7] == HighNibble(CheckByte(imei));
    assert Seal(p, full)[7] == p[7];
  }

  /** Packing the text read from an acceptable block gives the block back. */
  lemma PlainOfText(p: Block8, imei: ImeiText)
    requires DecimalNibbles(p) && Low(p[7]) == 0 && CheckByte(Text(p)) == High(p[7]) && imei[..14] == Text(p)
    ensures Plain(imei) == p && AllDigits(imei[..14])
  {
    hide Low, High, HighNibble, Char, Nibble, DigitPair, IsDigit, CheckByte;
    CheckBytePrefix(imei);
    LowZero(p[7]);
    forall k | 0 <= k < 14
      ensures imei[k] == Text(p)[k] && IsDigit(imei[k])
      ensures Nibble(imei[k]) == if k % 2 == 0 then Low(p[k / 2]) else High(p[k / 2])
    {
      assert imei[k] == imei[..14][k];
      CharNibble(if k % 2 == 0 then Low(p[k / 2]) else High(p[k / 2]));
    }
    forall i | 0 <= i < 8
      ensures Plain(imei)[i] == p[i]
    {
      if i < 7 {
        NibblesPair(p[i]);
        assert Nibble(imei[2 * i]) == Low(p[i]) && Nibble(imei[2 * i + 1]) == High(p[i]);
      }
    }
  }

  /** Every accepted block is rebuilt byte for byte from what was decoded: the reader accepts only what the writer
      writes. */
  lemma BuildDecoded(data: seq<byte>, full: bool)
    requires Decode(data, full).Some?
    ensures var imei := Decode(data, full).value;
      |data| == 10 && |imei| == 15 && AllDigits(imei) && LuhnSum(Digits(imei)) % 10 == 0 && Build(imei, full) == data
  {
    hide EncryptRounds, DecryptRounds, Check0, Check1, CheckByte, Low, High, HighNibble, Text, DecimalNibbles, LuhnSum,
      Char, IsDigit;
    var d := DecryptRounds(data, full, 4);
    var p := d[..8];
    var imei := Decode(data, full).value;
    assert imei[..14] == Text(p);
    PlainOfText(p, imei);
    RoundsUndo(data, full, 4);
    CheckByteSmall(Text(p));
    CharNibble(High(p[7]));
    LastDigit(imei, p);
  }

  lemma LastDigit(imei: ImeiText, p: Block8)
    requires |imei| == 15 && AllDigits(imei[..14]) && imei[..14] == Text(p) && imei[14] == Char(CheckByte(Text(p)))
    ensures AllDigits(imei) && LuhnSum(Digits(imei)) % 10 == 0
  {
    var c := CheckByte(Text(p));
    CheckBytePrefix(imei);
    CheckByteSmall(imei);
    CharNibble(c);
    CharValue(c);
    ByteRoundTrip(CheckDigit(imei));
    hide CheckSum, IsDigit, DigitValue, LuhnSum, Text, Char;
    assert forall k :: 0 <= k < 14 ==> imei[k] == imei[..14][k];
    assert Digits(imei) == Digits(imei[..14]) + [c as nat];
    CheckDigitIsLuhn(imei, c as nat);
  }

  lemma CharValue(c: byte)
    requires c <= 9
    ensures DigitValue(Char(c)) == c as nat
  {
    assert (0x30 + c) as nat == 0x30 + c as nat;
  }

  // ----- The loops of the source -----

  method XorBytes(p: array<byte>) returns (xorEven: byte, xorOdd: byte)
    requires p.Length == 10
    ensures xorEven == XorOf(p[..8], false, 8) && xorOdd == XorOf(p[..8], true, 8)
  {
    xorEven, xorOdd := 0, 0;
    for index := 0 to 8
      invariant xorEven == XorOf(p[..8], false, index) && xorOdd == XorOf(p[..8], true, index)
    {
      if index % 2 != 0 {
        xorOdd := xorOdd ^ p[index];
      } else {
        xorEven := xorEven ^ p[index];
      }
    }
  }

  /** The digit loop: two digits to a byte. */
  method FillDigits(block: array<byte>, imei: ImeiText)
    requires block.Length == 10 && forall i :: 0 <= i < 10 ==> block[i] == 0
    modifies block
    ensures forall i :: 0 <= i < 7 ==> block[i] == Plain(imei)[i]
  {
    hide Nibble, CheckByte, DigitPair;
    for index := 0 to 14
      invariant forall i :: 0 <= i < 7 ==>
        block[i] == if 2 * i + 1 < index then DigitPair(Nibble(imei[2 * i]), Nibble(imei[2 * i + 1]))
                    else if 2 * i < index then Nibble(imei[2 * i]) else 0
    {
      var digit := Nibble(imei[index]);
      if index % 2 != 0 {
        block[index / 2] := DigitPair(block[index / 2], digit);
      } else {
        block[index / 2] := digit;
      }
    }
  }

  lemma PlainIs(imei: ImeiText, p: Block8)
    requires p[7] == HighNibble(CheckByte(imei)) && forall i :: 0 <= i < 7 ==> p[i] == Plain(imei)[i]
    ensures p == Plain(imei)
  {
    hide HighNibble, CheckByte, DigitPair, Nibble;
  }

  /** The two check bytes appended. */
  method SealBlock(block: array<byte>, fullBlock: bool)
    requires block.Length == 10
    modifies block
    ensures block[..] == Seal(old(block[..8]), fullBlock)
  {
    hide XorOf, Inverted;
    ghost var p := block[..8];
    var xorEven, xorOdd := XorBytes(block);
    block[8] := if fullBlock then xorOdd else xorEven;
    block[9] := Inverted(xorOdd, xorEven);
    assert block[..8] == p;
    assert block[8] == Check0(p, fullBlock) && block[9] == Check1(p);
    hide Check0, Check1;
    assert block[..] == block[..8] + [block[8], block[9]];
  }

  method BuildImeiBlock(imei: ImeiText, fullBlock: bool) returns (result: seq<byte>)
    ensures result == Build(imei, fullBlock)
  {
    hide Seal, EncryptRounds, CheckDigit, HighNibble, DigitPair, Nibble;
    var block := new byte[10](i => 0);
    FillDigits(block, imei);
    var checkDigit := CalculateImeiCheckDigit(imei);
    block[7] := HighNibble(checkDigit as byte);
    ghost var p := Plain(imei);
    PlainIs(imei, block[..8]);
    hide Plain;
    SealBlock(block, fullBlock);
    ImeiCipherEncrypt(block, fullBlock);
    result := block[..];
  }

  /** The two check bytes of a decrypted block. */
  method HasCheckBytes(block: array<byte>, fullBlock: bool) returns (ok: bool)
    requires block.Length == 10
    ensures ok == (block[..] == Seal(block[..8], fullBlock))
  {
    hide XorOf, Inverted;
    var xorEven, xorOdd := XorBytes(block);
    ghost var sealed := Seal(block[..8], fullBlock);
    assert sealed[8] == (if fullBlock then xorOdd else xorEven) && sealed[9] == Inverted(xorOdd, xorEven);
    assert forall i :: 0 <= i < 8 ==> sealed[i] == block[i];
    if block[8] != (if fullBlock then xorOdd else xorEven) {
      return false;
    }
    if block[9] != Inverted(xorOdd, xorEven) {
      return false;
    }
    return true;
  }

  /** The nibble loop: 14 digit characters, or nothing when a nibble is not decimal. */
  method ReadDigits(p: Block8) returns (value: Option<seq<byte>>)
    ensures value == if DecimalNibbles(p) then Some(Text(p)) else None
  {
    hide Low, High, Char;
    var text := [];
    for index := 0 to 7
      invariant text == Text(p)[..2 * index]
      invariant forall i :: 0 <= i < index ==> Low(p[i]) <= 9 && High(p[i]) <= 9
    {
      var low, high := Low(p[index]), High(p[index]);
      if low > 9 {
        return None;
      }
      if high > 9 {
        return None;
      }
      text := text + [Char(low)];
      text := text + [Char(high)];
    }
    assert text == Text(p);
    return Some(text);
  }

  method DecodeImeiBlock(data: seq<byte>, fullBlock: bool) returns (imei: Option<seq<byte>>)
    ensures imei == Decode(data, fullBlock)
  {
    hide CheckByte, DecryptRounds, Low, High, Char, Seal, Text, DecimalNibbles;
    if |data| != 10 {
      return None;
    }
    var block := new byte[10](i requires 0 <= i < 10 => data[i]);
    assert block[..] == data;
    ImeiCipherDecrypt(block, fullBlock);
    ghost var d := block[..];
    assert d[..8] == block[..8];
    var ok := HasCheckBytes(block, fullBlock);
    if !ok {
      return None;
    }
    var value := ReadDigits(block[..8]);
    if value.None? {
      return None;
    }
    var checkDigit := High(block[7]);
    if Low(block[7]) != 0 {
      return None;
    }
    if CheckByte(value.value) != checkDigit {
      return None;
    }
    return Some(value.value + [Char(checkDigit)]);
  }
}
