/** IMEI digits, the 10-byte Feistel cipher, and the IMEI block as built and as read back
    (src/siemens/crypto.cpp, src/siemens/recalc.cpp, src/siemens/fullflash.cpp). */
module Imei {
  import opened Bytes

  /** At least the 14 characters the source reads by index. */
  type ImeiText = s: seq<byte> | |s| >= 14 witness seq(14, _ => 0x30)

  predicate IsDigit(c: byte) {
    0x30 <= c <= 0x39
  }

  predicate AllDigits(s: seq<byte>) {
    forall i :: 0 <= i < |s| ==> IsDigit(s[i])
  }

  // ----- The check digit -----

  /** A char minus '0' as a 32-bit unsigned number; `char` is signed. */
  function DigitValue(c: byte): (d: nat)
    ensures d < 0x1_0000_0000
  {
    var value := if c >= 0x80 then c as int - 256 - 48 else c as int - 48;
    if value < 0 then value + 0x1_0000_0000 else value
  }

  /** `digit << (index & 1)` in 32 bits, then its decimal digits added. */
  function CheckTerm(c: byte, index: nat): nat {
    DecimalSum(DigitValue(c), index)
  }

  function DecimalSum(value: nat, index: nat): nat {
    var digit := if index % 2 == 1 then value * 2 % 0x1_0000_0000 else value;
    digit / 10 + digit % 10
  }

  function CheckSum(imei: seq<byte>, n: nat): nat
    requires n <= |imei|
  {
    if n == 0 then 0 else (CheckSum(imei, n - 1) + CheckTerm(imei[n - 1], n - 1)) % 0x1_0000_0000
  }

  function CheckDigit(imei: ImeiText): (d: nat)
    ensures d < 10
  {
    (10 - CheckSum(imei, 14) % 10) % 10
  }

  method CalculateImeiCheckDigit(imei: ImeiText) returns (digit: nat)
    ensures digit == CheckDigit(imei)
  {
    var sum := 0;
    for index := 0 to 14
      invariant sum == CheckSum(imei, index)
    {
      var d := DigitValue(imei[index]);
      if index % 2 == 1 {
        d := d * 2 % 0x1_0000_0000;
      }
      sum := (sum + (d / 10 + d % 10)) % 0x1_0000_0000;
    }
    digit := (10 - sum % 10) % 10;
  }

  /** The Luhn sum of a digit string: every second digit doubled, 9 taken off when that exceeds 9. */
  function LuhnSum(digits: seq<nat>): nat {
    if digits == [] then 0
    else
      var n := |digits| - 1;
      LuhnSum(digits[..n]) + LuhnTerm(digits[n], n)
  }

  function LuhnTerm(digit: nat, n: nat): nat {
    if n % 2 == 0 then digit else if 2 * digit > 9 then 2 * digit - 9 else 2 * digit
  }

  function Digits(s: seq<byte>): (d: seq<nat>)
    ensures |d| == |s|
  {
    seq(|s|, i requires 0 <= i < |s| => DigitValue(s[i]))
  }

  lemma SmallDigit(c: byte)
    requires IsDigit(c)
    ensures DigitValue(c) <= 9
  {
    assert c as nat <= 0x39;
    assert 0x30 <= c as nat;
  }

  /** Adding the decimal digits of a doubled digit is taking 9 off. */
  lemma TermIsLuhn(c: byte, n: nat)
    requires IsDigit(c)
    ensures CheckTerm(c, n) == LuhnTerm(DigitValue(c), n) <= 9
  {
    SmallDigit(c);
    DecimalSumIsLuhn(DigitValue(c), n);
    hide DigitValue, DecimalSum, LuhnTerm;
  }

  lemma DecimalSumIsLuhn(d: nat, n: nat)
    requires d <= 9
    ensures DecimalSum(d, n) == LuhnTerm(d, n) <= 9
  {
  }

  lemma LuhnSnoc(digits: seq<nat>, d: nat)
    ensures LuhnSum(digits + [d]) == LuhnSum(digits) + LuhnTerm(d, |digits|)
  {
    assert (digits + [d])[..|digits|] == digits;
  }

  lemma CheckSumSnoc(imei: seq<byte>, n: nat)
    requires n < |imei| && CheckSum(imei, n) + CheckTerm(imei[n], n) < 0x1_0000_0000
    ensures CheckSum(imei, n + 1) == CheckSum(imei, n) + CheckTerm(imei[n], n)
  {
    hide CheckTerm;
  }

  lemma DigitsSnoc(imei: seq<byte>, n: nat)
    requires n < |imei|
    ensures Digits(imei[..n + 1]) == Digits(imei[..n]) + [DigitValue(imei[n])]
  {
    hide DigitValue;
  }

  lemma {:induction false} CheckSumIsLuhn(imei: seq<byte>, n: nat)
    requires n <= |imei| && n <= 14 && forall i :: 0 <= i < n ==> IsDigit(imei[i])
    ensures CheckSum(imei, n) == LuhnSum(Digits(imei[..n])) <= 9 * n
  {
    if n == 0 {
      assert Digits(imei[..0]) == [];
    } else {
      CheckSumIsLuhn(imei, n - 1);
      TermIsLuhn(imei[n - 1], n - 1);
      DigitsSnoc(imei, n - 1);
      LuhnSnoc(Digits(imei[..n - 1]), DigitValue(imei[n - 1]));
      hide DigitValue, CheckTerm, LuhnTerm, IsDigit, LuhnSum, Digits, CheckSum;
      CheckSumSnoc(imei, n - 1);
    }
  }

  /** The check digit is the one digit that completes 14 digits to a Luhn-valid number. */
  lemma CheckDigitIsLuhn(imei: ImeiText, c: nat)
    requires AllDigits(imei[..14]) && c < 10
    ensures LuhnSum(Digits(imei[..14]) + [c]) % 10 == 0 <==> c == CheckDigit(imei)
  {
    hide DigitValue, CheckSum, Digits;
    assert forall i :: 0 <= i < 14 ==> imei[i] == imei[..14][i];
    CheckSumIsLuhn(imei, 14);
    var digits := Digits(imei[..14]);
    LuhnSnoc(digits, c);
    hide LuhnSum;
    Complement(CheckSum(imei, 14), c);
  }

  lemma Complement(sum: nat, c: nat)
    requires c < 10
    ensures (sum + c) % 10 == 0 <==> c == (10 - sum % 10) % 10
  {
  }

  lemma {:induction false} CheckSumPrefix(x: seq<byte>, y: seq<byte>, n: nat)
    requires n <= |x| && n <= |y| && x[..n] == y[..n]
    ensures CheckSum(x, n) == CheckSum(y, n)
  {
    if n > 0 {
      hide CheckTerm;
      assert x[..n - 1] == x[..n][..n - 1] && y[..n - 1] == y[..n][..n - 1];
      assert x[n - 1] == x[..n][n - 1] && y[n - 1] == y[..n][n - 1];
      CheckSumPrefix(x, y, n - 1);
    }
  }

  // ----- Packing -----

  function Nibble(c: byte): byte {
    c - 0x30
  }

  function PackedByte(imei: ImeiText, index: nat): byte
    requires index < 8
  {
    if index == 0 then 0x0A | (Nibble(imei[0]) << 4)
    else Nibble(imei[2 * index - 1]) | (if index < 7 then Nibble(imei[2 * index]) << 4 else 0)
  }

  function PackImei(imei: ImeiText): (packed: seq<byte>)
    ensures |packed| == 8
  {
    seq(8, i requires 0 <= i < 8 => PackedByte(imei, i))
  }

  /** The low and high nibbles of two packed digits. */
  lemma Nibbles(low: byte, high: byte)
    requires low <= 9 && high <= 9
    ensures (low | (high << 4)) & 0xF == low && (low | (high << 4)) >> 4 == high
  {
  }

  lemma FirstNibble(high: byte)
    requires high <= 9
    ensures (0x0A | (high << 4)) >> 4 == high
  {
  }

  lemma DigitNibble(c: byte)
    requires IsDigit(c)
    ensures Nibble(c) <= 9 && Nibble(c) + 0x30 == c
  {
  }

  /** Packing keeps all 14 digits: IMEIs with equal packings agree on them. */
  lemma PackImeiInjective(x: ImeiText, y: ImeiText, k: nat)
    requires AllDigits(x[..14]) && AllDigits(y[..14]) && PackImei(x) == PackImei(y) && k < 14
    ensures x[k] == y[k]
  {
    assert IsDigit(x[..14][k]) && IsDigit(y[..14][k]);
    var i := (k + 1) / 2;
    assert PackedByte(x, i) == PackImei(x)[i] == PackImei(y)[i] == PackedByte(y, i);
    DigitNibble(x[k]);
    DigitNibble(y[k]);
    if k == 0 {
      FirstNibble(Nibble(x[0]));
      FirstNibble(Nibble(y[0]));
    } else {
      assert IsDigit(x[..14][2 * i - 1]) && IsDigit(y[..14][2 * i - 1]);
      DigitNibble(x[2 * i - 1]);
      DigitNibble(y[2 * i - 1]);
      if i < 7 {
        assert IsDigit(x[..14][2 * i]) && IsDigit(y[..14][2 * i]);
        DigitNibble(x[2 * i]);
        DigitNibble(y[2 * i]);
        Nibbles(Nibble(x[2 * i - 1]), Nibble(x[2 * i]));
        Nibbles(Nibble(y[2 * i - 1]), Nibble(y[2 * i]));
      } else {
        Nibbles(Nibble(x[13]), 0);
        Nibbles(Nibble(y[13]), 0);
      }
    }
  }

  // ----- The Feistel cipher -----

  const IMEI_SBOX_HIGH: seq<byte> :=
    [0x03, 0x0F, 0x01, 0x0D, 0x05, 0x0B, 0x0D, 0x09, 0x0D, 0x07, 0x06, 0x00, 0x0E, 0x06, 0x0B, 0x08]
  const IMEI_SBOX_LOW: seq<byte> :=
    [0x0A, 0x0E, 0x01, 0x05, 0x03, 0x06, 0x02, 0x0F, 0x0B, 0x0A, 0x03, 0x05, 0x06, 0x05, 0x04, 0x02]
  const IMEI_ROUND_KEYS: seq<byte> := [0xE3, 0xB7, 0x5C, 0x13, 0xB0, 0xD2, 0xC4, 0x19]

  type Block10 = s: seq<byte> | |s| == 10 witness seq(10, _ => 0)

  function Substitute(value: byte): byte {
    (IMEI_SBOX_HIGH[(value >> 4) as nat] << 4) + IMEI_SBOX_LOW[(value & 0xF) as nat]
  }

  function Mask(i: nat): byte {
    if i % 2 == 0 then 0 else 0xFF
  }

  function Blend(substituted: byte, key: byte, other: byte, mask: byte): byte {
    substituted ^ key ^ other ^ mask
  }

  function EncryptRound(d: Block10, key: byte): Block10 {
    seq(10, i requires 0 <= i < 10 => if i < 5 then Blend(Substitute(d[i]), key, d[i + 5], Mask(i)) else d[i - 5])
  }

  function DecryptRound(d: Block10, key: byte): Block10 {
    seq(10, i requires 0 <= i < 10 => if i < 5 then d[i + 5] else Blend(Substitute(d[i]), key, d[i - 5], Mask(i - 5)))
  }

  lemma BlendUndoes(substituted: byte, key: byte, other: byte, mask: byte)
    ensures Blend(substituted, key, Blend(substituted, key, other, mask), mask) == other
  {
  }

  /** A round and its inverse, whatever the substitution. */
  lemma RoundUndoes(d: Block10, key: byte)
    ensures DecryptRound(EncryptRound(d, key), key) == d
    ensures EncryptRound(DecryptRound(d, key), key) == d
  {
    hide Substitute, Blend, Mask;
    forall j | 0 <= j < 10
      ensures DecryptRound(EncryptRound(d, key), key)[j] == d[j] && EncryptRound(DecryptRound(d, key), key)[j] == d[j]
    {
      if j < 5 {
        BlendUndoes(Substitute(d[j + 5]), key, d[j], Mask(j));
      } else {
        BlendUndoes(Substitute(d[j - 5]), key, d[j], Mask(j - 5));
      }
    }
  }

  /** The cipher's first `n` of four rounds; a full block uses the even round keys, a lite block the odd ones. */
  function RoundKey(full: bool, n: nat): byte
    requires n < 4
  {
    IMEI_ROUND_KEYS[if full then 2 * n else 2 * n + 1]
  }

  function EncryptRounds(d: Block10, full: bool, n: nat): Block10
    requires n <= 4
  {
    if n == 0 then d else EncryptRound(EncryptRounds(d, full, n - 1), RoundKey(full, n - 1))
  }

  /** Rounds `n - 1` down to 0 undone. */
  function DecryptRounds(d: Block10, full: bool, n: nat): Block10
    requires n <= 4
    decreases n
  {
    if n == 0 then d else DecryptRounds(DecryptRound(d, RoundKey(full, n - 1)), full, n - 1)
  }

  lemma {:induction false} RoundsUndo(d: Block10, full: bool, n: nat)
    requires n <= 4
    ensures DecryptRounds(EncryptRounds(d, full, n), full, n) == d
    ensures EncryptRounds(DecryptRounds(d, full, n), full, n) == d
    decreases n
  {
    if n > 0 {
      hide EncryptRound, DecryptRound, RoundKey;
      RoundUndoes(EncryptRounds(d, full, n - 1), RoundKey(full, n - 1));
      RoundsUndo(d, full, n - 1);
      RoundUndoes(d, RoundKey(full, n - 1));
      RoundsUndo(DecryptRound(d, RoundKey(full, n - 1)), full, n - 1);
    }
  }

  lemma EncryptRoundAt(d: Block10, key: byte, i: nat)
    requires i < 5
    ensures EncryptRound(d, key)[i] == Blend(Substitute(d[i]), key, d[i + 5], Mask(i))
      && EncryptRound(d, key)[i + 5] == d[i]
  {
  }

  lemma DecryptRoundAt(d: Block10, key: byte, i: nat)
    requires i < 5
    ensures DecryptRound(d, key)[i] == d[i + 5]
      && DecryptRound(d, key)[i + 5] == Blend(Substitute(d[i + 5]), key, d[i], Mask(i))
  {
  }

  lemma MaskFlips(i: nat)
    ensures Mask(i) ^ 0xFF == Mask(i + 1)
  {
  }

  /** The first `i` of the five pairs replaced. */
  function Partial<T>(image: seq<T>, goal: seq<T>, i: nat): (p: seq<T>)
    requires |image| == |goal| == 10
    ensures |p| == 10
  {
    seq(10, j requires 0 <= j < 10 => if j < i || 5 <= j < i + 5 then goal[j] else image[j])
  }

  lemma PartialStep<T>(image: seq<T>, goal: seq<T>, i: nat)
    requires |image| == |goal| == 10 && i < 5
    ensures |Partial(image, goal, i)| == 10
    ensures Partial(image, goal, i)[i] == image[i] && Partial(image, goal, i)[i + 5] == image[i + 5]
    ensures Partial(image, goal, i)[i := goal[i]][i + 5 := goal[i + 5]] == Partial(image, goal, i + 1)
    ensures Partial(image, goal, i)[i + 5 := goal[i + 5]][i := goal[i]] == Partial(image, goal, i + 1)
  {
  }

  lemma PartialEnds<T>(image: seq<T>, goal: seq<T>)
    requires |image| == |goal| == 10
    ensures Partial(image, goal, 0) == image && Partial(image, goal, 5) == goal
  {
  }

  method EncryptPair(data: array<byte>, i: nat, roundKey: byte, mask: byte)
    requires data.Length == 10 && i < 5
    modifies data
    ensures var now := old(data[..]);
      data[..] == now[i := Blend(Substitute(now[i]), roundKey, now[i + 5], mask)][i + 5 := now[i]]
  {
    hide Substitute, Blend;
    var oldValue := data[i];
    data[i] := Blend(Substitute(oldValue), roundKey, data[i + 5], mask);
    data[i + 5] := oldValue;
  }

  method DecryptPair(data: array<byte>, i: nat, roundKey: byte, mask: byte)
    requires data.Length == 10 && i < 5
    modifies data
    ensures var now := old(data[..]);
      data[..] == now[i + 5 := Blend(Substitute(now[i + 5]), roundKey, now[i], mask)][i := now[i + 5]]
  {
    hide Substitute, Blend;
    var oldValue := data[i + 5];
    data[i + 5] := Blend(Substitute(oldValue), roundKey, data[i], mask);
    data[i] := oldValue;
  }

  /** One loop turn in each direction moves the partial image one pair on. */
  lemma EncryptTurn(image: Block10, key: byte, i: nat)
    requires i < 5
    ensures var goal := EncryptRound(image, key); var now := Partial(image, goal, i);
      now[i := Blend(Substitute(now[i]), key, now[i + 5], Mask(i))][i + 5 := now[i]] == Partial(image, goal, i + 1)
  {
    hide Substitute, Blend, Mask, EncryptRound, Partial;
    EncryptRoundAt(image, key, i);
    PartialStep(image, EncryptRound(image, key), i);
  }

  lemma DecryptTurn(image: Block10, key: byte, i: nat)
    requires i < 5
    ensures var goal := DecryptRound(image, key); var now := Partial(image, goal, i);
      now[i + 5 := Blend(Substitute(now[i + 5]), key, now[i], Mask(i))][i := now[i + 5]] == Partial(image, goal, i + 1)
  {
    hide Substitute, Blend, Mask, DecryptRound, Partial;
    DecryptRoundAt(image, key, i);
    PartialStep(image, DecryptRound(image, key), i);
  }

  method EncryptAll(data: array<byte>, roundKey: byte)
    requires data.Length == 10
    modifies data
    ensures data[..] == EncryptRound(old(data[..]), roundKey)
  {
    hide Substitute, Blend, Mask, EncryptRound, Partial;
    ghost var image := data[..];
    ghost var goal := EncryptRound(image, roundKey);
    PartialEnds(image, goal);
    var mask: byte := Mask(0);
    for i := 0 to 5
      invariant mask == Mask(i)
      invariant data[..] == Partial(image, goal, i)
    {
      EncryptTurn(image, roundKey, i);
      EncryptPair(data, i, roundKey, mask);
      MaskFlips(i);
      mask := mask ^ 0xFF;
    }
  }

  method DecryptAll(data: array<byte>, roundKey: byte)
    requires data.Length == 10
    modifies data
    ensures data[..] == DecryptRound(old(data[..]), roundKey)
  {
    hide Substitute, Blend, Mask, DecryptRound, Partial;
    ghost var image := data[..];
    ghost var goal := DecryptRound(image, roundKey);
    PartialEnds(image, goal);
    var mask: byte := Mask(0);
    for i := 0 to 5
      invariant mask == Mask(i)
      invariant data[..] == Partial(image, goal, i)
    {
      DecryptTurn(image, roundKey, i);
      DecryptPair(data, i, roundKey, mask);
      MaskFlips(i);
      mask := mask ^ 0xFF;
    }
  }

  /** The source's loop, with its direction test taken out of it. */
  method TransformImeiRound(data: array<byte>, roundKey: byte, encrypt: bool)
    requires data.Length == 10
    modifies data
    ensures data[..] == if encrypt then EncryptRound(old(data[..]), roundKey) else DecryptRound(old(data[..]), roundKey)
  {
    hide EncryptRound, DecryptRound;
    if encrypt {
      EncryptAll(data, roundKey);
    } else {
      DecryptAll(data, roundKey);
    }
  }

  method ImeiCipherEncrypt(data: array<byte>, fullBlock: bool)
    requires data.Length == 10
    modifies data
    ensures data[..] == EncryptRounds(old(data[..]), fullBlock, 4)
  {
    hide EncryptRound, RoundKey;
    for n := 0 to 4
      invariant data[..] == EncryptRounds(old(data[..]), fullBlock, n)
    {
      TransformImeiRound(data, RoundKey(fullBlock, n), true);
    }
  }

  method ImeiCipherDecrypt(data: array<byte>, fullBlock: bool)
    requires data.Length == 10
    modifies data
    ensures data[..] == DecryptRounds(old(data[..]), fullBlock, 4)
  {
    hide DecryptRound, RoundKey;
    for n := 4 downto 0
      invariant DecryptRounds(data[..], fullBlock, n) == DecryptRounds(old(data[..]), fullBlock, 4)
    {
      TransformImeiRound(data, RoundKey(fullBlock, n), false);
    }
  }
}
