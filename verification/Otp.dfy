/** The one-time-programmable words an ESN and an IMEI become (src/siemens/otp.cpp, src/siemens/esn.cpp). */
module Otp {
  import opened Wrappers
  import opened Bytes

  function HexDigit(n: byte): char {
    match n
    case 0 => '0' case 1 => '1' case 2 => '2' case 3 => '3'
    case 4 => '4' case 5 => '5' case 6 => '6' case 7 => '7'
    case 8 => '8' case 9 => '9' case 10 => 'A' case 11 => 'B'
    case 12 => 'C' case 13 => 'D' case 14 => 'E' case _ => 'F'
  }

  /** A hexadecimal digit of either case. */
  function HexValue(c: char): Option<byte> {
    match c
    case '0' => Some(0) case '1' => Some(1) case '2' => Some(2) case '3' => Some(3)
    case '4' => Some(4) case '5' => Some(5) case '6' => Some(6) case '7' => Some(7)
    case '8' => Some(8) case '9' => Some(9)
    case 'A' => Some(10) case 'B' => Some(11) case 'C' => Some(12)
    case 'D' => Some(13) case 'E' => Some(14) case 'F' => Some(15)
    case 'a' => Some(10) case 'b' => Some(11) case 'c' => Some(12)
    case 'd' => Some(13) case 'e' => Some(14) case 'f' => Some(15)
    case _ => None
  }

  function High(b: byte): byte { b >> 4 }
  function Low(b: byte): byte { b & 0xF }
  function Pair(high: byte, low: byte): byte { (high << 4) | low }
  function Mask(b: byte, key: byte): byte { b ^ key }

  function HexByte(b: byte): (s: string)
    ensures |s| == 2
  {
    [HexDigit(High(b)), HexDigit(Low(b))]
  }

  predicate AllHex(s: string) {
    forall i :: 0 <= i < |s| ==> HexValue(s[i]).Some?
  }

  function ByteOfHex(s: string, at: nat): byte
    requires at + 2 <= |s| && AllHex(s)
  {
    Pair(HexValue(s[at]).value, HexValue(s[at + 1]).value)
  }

  lemma HexDigitValue(n: byte)
    requires n < 16
    ensures HexValue(HexDigit(n)) == Some(n)
  {
  }

  lemma Nibbles(b: byte)
    ensures High(b) < 16 && Low(b) < 16 && Pair(High(b), Low(b)) == b
  {
  }

  lemma MaskTwice(b: byte, key: byte)
    ensures Mask(Mask(b, key), key) == b
  {
  }

  /** Two hex digits read back as the byte they were written for. */
  lemma HexByteReads(b: byte)
    ensures AllHex(HexByte(b)) && ByteOfHex(HexByte(b), 0) == b
  {
    Nibbles(b);
    HexDigitValue(High(b));
    HexDigitValue(Low(b));
    hide HexDigit, HexValue, High, Low, Pair;
  }

  // ----- ESN -----

  function HexOf(esn: word): (s: string)
    ensures |s| == 8
  {
    HexByte(Byte3(esn)) + HexByte(Byte2(esn)) + HexByte(Byte1(esn)) + HexByte(Byte0(esn))
  }

  const ESN_KEY: seq<byte> := [0x32, 0xE5, 0xF7, 0x03]

  /** The bytes of an ESN in hex, lowest first, each masked with its key byte. */
  function OtpOf(esn: string): Option<string> {
    if |esn| != 8 || !AllHex(esn) then None
    else Some("0200" + HexByte(Mask(ByteOfHex(esn, 6), 0x32)) + HexByte(Mask(ByteOfHex(esn, 4), 0xE5))
                     + HexByte(Mask(ByteOfHex(esn, 2), 0xF7)) + HexByte(Mask(ByteOfHex(esn, 0), 0x03)) + "00000000")
  }

  /** The ESN an OTP word was made from. */
  function EsnOf(otp: string): Option<word> {
    if |otp| < 12 || !AllHex(otp) then None
    else Some(Join(Mask(ByteOfHex(otp, 4), 0x32), Mask(ByteOfHex(otp, 6), 0xE5),
                   Mask(ByteOfHex(otp, 8), 0xF7), Mask(ByteOfHex(otp, 10), 0x03)))
  }

  lemma HexAt(s: string, at: nat, b: byte)
    requires at + 2 <= |s| && AllHex(s) && s[at..at + 2] == HexByte(b)
    ensures ByteOfHex(s, at) == b
  {
    HexByteReads(b);
    hide HexDigit, HexValue, Pair, High, Low;
    assert s[at] == s[at..at + 2][0] && s[at + 1] == s[at..at + 2][1];
  }

  lemma HexOfReads(esn: word)
    ensures AllHex(HexOf(esn))
    ensures ByteOfHex(HexOf(esn), 0) == Byte3(esn) && ByteOfHex(HexOf(esn), 2) == Byte2(esn)
    ensures ByteOfHex(HexOf(esn), 4) == Byte1(esn) && ByteOfHex(HexOf(esn), 6) == Byte0(esn)
  {
    HexByteReads(Byte0(esn));
    HexByteReads(Byte1(esn));
    HexByteReads(Byte2(esn));
    HexByteReads(Byte3(esn));
    hide HexByte, HexValue, ByteOfHex, Byte0, Byte1, Byte2, Byte3;
    var s := HexOf(esn);
    assert s[0..2] == HexByte(Byte3(esn)) && s[2..4] == HexByte(Byte2(esn));
    assert s[4..6] == HexByte(Byte1(esn)) && s[6..8] == HexByte(Byte0(esn));
    HexAt(s, 0, Byte3(esn));
    HexAt(s, 2, Byte2(esn));
    HexAt(s, 4, Byte1(esn));
    HexAt(s, 6, Byte0(esn));
  }

  /** ESN to hex to OTP never fails and can be undone, so distinct ESNs have distinct OTP words. */
  lemma OtpRoundTrip(esn: word)
    ensures OtpOf(HexOf(esn)).Some? && EsnOf(OtpOf(HexOf(esn)).value) == Some(esn)
  {
    HexOfReads(esn);
    JoinBytes(esn);
    var m0, m1 := Mask(Byte0(esn), 0x32), Mask(Byte1(esn), 0xE5);
    var m2, m3 := Mask(Byte2(esn), 0xF7), Mask(Byte3(esn), 0x03);
    MaskTwice(Byte0(esn), 0x32);
    MaskTwice(Byte1(esn), 0xE5);
    MaskTwice(Byte2(esn), 0xF7);
    MaskTwice(Byte3(esn), 0x03);
    hide Join, Mask, Byte0, Byte1, Byte2, Byte3, HexOf, ByteOfHex, HexByte;
    OtpReads(m0, m1, m2, m3);
  }

  lemma OtpReads(m0: byte, m1: byte, m2: byte, m3: byte)
    ensures var s := "0200" + HexByte(m0) + HexByte(m1) + HexByte(m2) + HexByte(m3) + "00000000";
      && AllHex(s) && ByteOfHex(s, 4) == m0 && ByteOfHex(s, 6) == m1 && ByteOfHex(s, 8) == m2 && ByteOfHex(s, 10) == m3
  {
    assert AllHex("0200") && AllHex("00000000");
    HexByteReads(m0);
    HexByteReads(m1);
    HexByteReads(m2);
    HexByteReads(m3);
    hide HexByte, HexValue, ByteOfHex;
    var s := "0200" + HexByte(m0) + HexByte(m1) + HexByte(m2) + HexByte(m3) + "00000000";
    assert s[4..6] == HexByte(m0) && s[6..8] == HexByte(m1) && s[8..10] == HexByte(m2) && s[10..12] == HexByte(m3);
    HexAt(s, 4, m0);
    HexAt(s, 6, m1);
    HexAt(s, 8, m2);
    HexAt(s, 10, m3);
  }

  /** Only eight hex digits have an OTP word; it holds their bytes, last first, with four fixed masks. */
  lemma OtpMeaning(esn: string)
    ensures OtpOf(esn).Some? <==> |esn| == 8 && AllHex(esn)
    ensures |esn| == 8 && AllHex(esn) ==> (
      var otp := OtpOf(esn).value;
      && |otp| == 20 && otp[..4] == "0200" && otp[12..] == "00000000" && AllHex(otp)
      && ByteOfHex(otp, 4) == Mask(ByteOfHex(esn, 6), 0x32) && ByteOfHex(otp, 6) == Mask(ByteOfHex(esn, 4), 0xE5)
      && ByteOfHex(otp, 8) == Mask(ByteOfHex(esn, 2), 0xF7) && ByteOfHex(otp, 10) == Mask(ByteOfHex(esn, 0), 0x03))
  {
    hide HexByte, HexValue, ByteOfHex, Mask;
    if |esn| == 8 && AllHex(esn) {
      OtpReads(Mask(ByteOfHex(esn, 6), 0x32), Mask(ByteOfHex(esn, 4), 0xE5), Mask(ByteOfHex(esn, 2), 0xF7),
        Mask(ByteOfHex(esn, 0), 0x03));
    }
  }

  /** The OTP word of the known ESN. */
  lemma KnownOtp()
    ensures HexOf(0x12345678) == "12345678" && OtpOf("12345678") == Some("02004AB3C31100000000")
  {
    assert Byte3(0x12345678) == 0x12 && Byte2(0x12345678) == 0x34;
    assert Byte1(0x12345678) == 0x56 && Byte0(0x12345678) == 0x78;
    assert HexByte(0x12) == "12" && HexByte(0x34) == "34" && HexByte(0x56) == "56" && HexByte(0x78) == "78";
    assert ByteOfHex("12345678", 0) == 0x12 && ByteOfHex("12345678", 2) == 0x34;
    assert ByteOfHex("12345678", 4) == 0x56 && ByteOfHex("12345678", 6) == 0x78;
    assert HexByte(0x4A) == "4A" && HexByte(0xB3) == "B3" && HexByte(0xC3) == "C3" && HexByte(0x11) == "11";
    assert Mask(0x78, 0x32) == 0x4A && Mask(0x56, 0xE5) == 0xB3 && Mask(0x34, 0xF7) == 0xC3 && Mask(0x12, 0x03) == 0x11;
    assert AllHex("12345678");
    hide HexByte, ByteOfHex, Mask, HexValue, Byte0, Byte1, Byte2, Byte3;
    assert "12" + "34" + "56" + "78" == "12345678";
    assert "0200" + "4A" + "B3" + "C3" + "11" + "00000000" == "02004AB3C31100000000";
  }

  function Nibble(esn: word, shift: nat): byte
    requires shift <= 28
  {
    ((esn >> shift) & 0xF) as byte
  }

  /** The loop over the eight nibbles, highest first. */
  method EsnToHex(esn: word) returns (result: string)
    ensures result == HexOf(esn)
  {
    hide HexDigit, Nibble, HexOf;
    result := "";
    var shift := 28;
    while shift >= 0
      invariant -4 <= shift <= 28 && shift % 4 == 0
      invariant result == HexOf(esn)[..(28 - shift) / 4]
    {
      NibbleOf(esn, (28 - shift) / 4);
      result := result + [HexDigit(Nibble(esn, shift))];
      shift := shift - 4;
    }
  }

  lemma HighNibbles(esn: word)
    ensures Nibble(esn, 28) == High(Byte3(esn)) && Nibble(esn, 24) == Low(Byte3(esn))
    ensures Nibble(esn, 20) == High(Byte2(esn)) && Nibble(esn, 16) == Low(Byte2(esn))
  {
  }

  lemma LowNibbles(esn: word)
    ensures Nibble(esn, 12) == High(Byte1(esn)) && Nibble(esn, 8) == Low(Byte1(esn))
    ensures Nibble(esn, 4) == High(Byte0(esn)) && Nibble(esn, 0) == Low(Byte0(esn))
  {
  }

  lemma NibbleOf(esn: word, k: nat)
    requires k < 8
    ensures HexOf(esn)[k] == HexDigit(Nibble(esn, 28 - 4 * k))
  {
    HighNibbles(esn);
    LowNibbles(esn);
    hide HexDigit, Nibble, High, Low, Byte0, Byte1, Byte2, Byte3;
    var b := if k < 2 then Byte3(esn) else if k < 4 then Byte2(esn) else if k < 6 then Byte1(esn) else Byte0(esn);
    assert HexOf(esn)[k] == HexByte(b)[k % 2];
  }

  function MaskedByte(esn: string, index: nat): (s: string)
    requires |esn| == 8 && AllHex(esn) && index < 4
    ensures |s| == 2
  {
    HexByte(Mask(ByteOfHex(esn, (3 - index) * 2), ESN_KEY[index]))
  }

  function MaskedBytes(esn: string, n: nat): string
    requires |esn| == 8 && AllHex(esn) && n <= 4
  {
    if n == 0 then "" else MaskedBytes(esn, n - 1) + MaskedByte(esn, n - 1)
  }

  lemma FourMasked(esn: string)
    requires |esn| == 8 && AllHex(esn)
    ensures Some("0200" + MaskedBytes(esn, 4) + "00000000") == OtpOf(esn)
  {
    hide HexByte, HexValue, Mask, ByteOfHex;
    var b0, b1, b2, b3 := MaskedByte(esn, 0), MaskedByte(esn, 1), MaskedByte(esn, 2), MaskedByte(esn, 3);
    assert MaskedBytes(esn, 1) == b0;
    assert MaskedBytes(esn, 2) == b0 + b1;
    assert MaskedBytes(esn, 3) == b0 + b1 + b2;
    assert MaskedBytes(esn, 4) == b0 + b1 + b2 + b3;
    assert "0200" + (b0 + b1 + b2 + b3) + "00000000" == "0200" + b0 + b1 + b2 + b3 + "00000000";
  }

  method EsnToOtp(esn: string) returns (otp: Option<string>)
    ensures otp == OtpOf(esn)
  {
    hide HexDigit, HexValue, Mask, Pair, High, Low;
    if |esn| != 8 {
      return None;
    }
    if exists i :: 0 <= i < |esn| && HexValue(esn[i]).None? {
      return None;
    }
    var otpEsn := "";
    for index := 0 to 4
      invariant otpEsn == MaskedBytes(esn, index)
    {
      var value := ByteOfHex(esn, (3 - index) * 2);
      var result := Mask(value, ESN_KEY[index]);
      ghost var before := otpEsn;
      otpEsn := otpEsn + [HexDigit(High(result))];
      otpEsn := otpEsn + [HexDigit(Low(result))];
      assert otpEsn == before + HexByte(result);
    }
    FourMasked(esn);
    return Some("0200" + otpEsn + "00000000");
  }

  // ----- IMEI -----

  predicate IsImei(imei: string) {
    |imei| == 15 && forall i :: 0 <= i < 15 ==> '0' <= imei[i] <= '9'
  }

  /** The first 14 digits with the two of each pair swapped; the check digit is dropped. */
  method ImeiToOtp(imei: string) returns (otp: Option<string>)
    ensures otp.Some? <==> IsImei(imei)
    ensures otp.Some? ==>
      && |otp.value| == 20 && otp.value[..4] == "0000" && otp.value[18..] == "FF"
      && forall k :: 0 <= k < 14 ==> otp.value[4 + k] == imei[if k % 2 == 0 then k + 1 else k - 1]
  {
    if !IsImei(imei) {
      return None;
    }
    var otpImei := "";
    var index := 0;
    while index < |imei| - 1
      invariant index % 2 == 0 && index <= 14 && |otpImei| == index
      invariant forall k :: 0 <= k < index ==> otpImei[k] == imei[if k % 2 == 0 then k + 1 else k - 1]
    {
      otpImei := otpImei + [imei[index + 1]];
      otpImei := otpImei + [imei[index]];
      index := index + 2;
    }
    return Some("0000" + otpImei + "FF");
  }
}
