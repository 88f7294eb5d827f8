/** The message padding of MD4 and MD5 (RFC 1320 and RFC 1321, sections 3.1 and 3.2) and the block chain over it. */
module Padding {
  import opened Bytes
  import opened Registers

  type Chain4 = Regs<word>

  type Words = s: seq<word> | |s| == 16 witness seq(16, _ => 0)

  /** Wrapping 32-bit addition, named so that proofs can treat it as a symbol. */
  function Add(x: word, y: word): word {
    x + y
  }

  function Rotl(w: word, n: nat): word
    requires n < 32
  {
    w.RotateLeft(n)
  }

  /** `n` shifted right by `i` bytes. */
  function ShiftBytes(n: nat, i: nat): nat {
    if i == 0 then n else ShiftBytes(n, i - 1) / 256
  }

  function LowByte(n: nat): byte {
    (n % 256) as byte
  }

  /** The low 64 bits of `n`, least significant byte first. */
  function U64(n: nat): (d: seq<byte>)
    ensures |d| == 8
  {
    seq(8, i requires 0 <= i < 8 => LowByte(ShiftBytes(n, i)))
  }

  function ZeroCount(size: nat): (k: nat)
    ensures k < 64 && (size + 1 + k) % 64 == 56
  {
    (119 - size % 64) % 64
  }

  function Pad(data: seq<byte>): (message: seq<byte>) {
    data + [0x80] + seq(ZeroCount(|data|), _ => 0) + U64(|data| * 8)
  }

  /** Padding gives the least multiple of 64 that has room for the 0x80 byte and the 8 length bytes. */
  lemma PadLength(data: seq<byte>)
    ensures |Pad(data)| % 64 == 0
    ensures |data| + 9 <= |Pad(data)| < |data| + 9 + 64
  {
  }

  lemma LowByteInjective(n: nat, m: nat)
    requires LowByte(n) == LowByte(m)
    ensures n % 256 == m % 256
  {
    ByteRoundTrip(n % 256);
    ByteRoundTrip(m % 256);
  }

  lemma {:induction false} ShiftAgree(n: nat, m: nat, i: nat)
    requires i <= 8 && ShiftBytes(n, i) == ShiftBytes(m, i)
    requires forall k: nat :: k < i ==> LowByte(ShiftBytes(n, k)) == LowByte(ShiftBytes(m, k))
    ensures n == m
    decreases i
  {
    if i > 0 {
      LowByteInjective(ShiftBytes(n, i - 1), ShiftBytes(m, i - 1));
      ShiftAgree(n, m, i - 1);
    }
  }

  lemma ShiftOut(n: nat)
    requires n < 0x1_0000_0000_0000_0000
    ensures ShiftBytes(n, 8) == 0
  {
    var s1 := ShiftBytes(n, 1);
    assert s1 == ShiftBytes(n, 0) / 256 < 0x100_0000_0000_0000;
    var s2 := ShiftBytes(n, 2);
    assert s2 == s1 / 256 < 0x1_0000_0000_0000;
    var s3 := ShiftBytes(n, 3);
    assert s3 == s2 / 256 < 0x100_0000_0000;
    var s4 := ShiftBytes(n, 4);
    assert s4 == s3 / 256 < 0x1_0000_0000;
    var s5 := ShiftBytes(n, 5);
    assert s5 == s4 / 256 < 0x100_0000;
    var s6 := ShiftBytes(n, 6);
    assert s6 == s5 / 256 < 0x1_0000;
    var s7 := ShiftBytes(n, 7);
    assert s7 == s6 / 256 < 0x100;
  }

  /** Different messages shorter than 2^61 bytes pad differently. */
  lemma PadInjective(x: seq<byte>, y: seq<byte>)
    requires |x| < 0x2000_0000_0000_0000 && |y| < 0x2000_0000_0000_0000
    requires Pad(x) == Pad(y)
    ensures x == y
  {
    hide LowByte, ZeroCount, ShiftBytes;
    var n, m := |x| * 8, |y| * 8;
    forall k: nat | k < 8
      ensures LowByte(ShiftBytes(n, k)) == LowByte(ShiftBytes(m, k))
    {
      assert Pad(x)[|Pad(x)| - 8 + k] == U64(n)[k];
      assert Pad(y)[|Pad(y)| - 8 + k] == U64(m)[k];
    }
    ShiftOut(n);
    ShiftOut(m);
    ShiftAgree(n, m, 8);
    assert Pad(x)[..|x|] == x && Pad(y)[..|y|] == y;
  }

  // ----- The chain over 64-byte blocks -----

  function BlockWords(message: seq<byte>, at: nat): (words: Words)
    requires at + 64 <= |message|
  {
    seq(16, i requires 0 <= i < 16 => ReadU32(message, at + 4 * i))
  }

  const INITIAL_STATE: Chain4 := Regs(0x67452301, 0xEFCDAB89, 0x98BADCFE, 0x10325476)

  function Chain(compress: (Chain4, Words) -> Chain4, message: seq<byte>, blocks: nat): Chain4
    requires 64 * blocks <= |message|
  {
    if blocks == 0 then INITIAL_STATE
    else compress(Chain(compress, message, blocks - 1), BlockWords(message, 64 * (blocks - 1)))
  }

  function Digest(r: Chain4): (d: seq<byte>)
    ensures |d| == 16
  {
    U32(r.a) + U32(r.b) + U32(r.c) + U32(r.d)
  }

  function AddRegs(x: Chain4, y: Chain4): Chain4 {
    Regs(Add(x.a, y.a), Add(x.b, y.b), Add(x.c, y.c), Add(x.d, y.d))
  }

  /** A digest determines the four words, so comparing words is comparing digests. */
  lemma DigestInjective(x: Chain4, y: Chain4)
    ensures Digest(x) == Digest(y) <==> x == y
  {
    hide U32;
    FourParts(U32(x.a), U32(x.b), U32(x.c), U32(x.d), U32(y.a), U32(y.b), U32(y.c), U32(y.d));
    U32Injective(x.a, y.a);
    U32Injective(x.b, y.b);
    U32Injective(x.c, y.c);
    U32Injective(x.d, y.d);
  }

  lemma FourParts<T>(a: seq<T>, b: seq<T>, c: seq<T>, d: seq<T>, a': seq<T>, b': seq<T>, c': seq<T>, d': seq<T>)
    requires |a| == |b| == |c| == |d| == |a'| == |b'| == |c'| == |d'| == 4
    ensures a + b + c + d == a' + b' + c' + d' <==> a == a' && b == b' && c == c' && d == d'
  {
    var x, y := a + b + c + d, a' + b' + c' + d';
    assert x[0..4] == a && x[4..8] == b && x[8..12] == c && x[12..16] == d;
    assert y[0..4] == a' && y[4..8] == b' && y[8..12] == c' && y[12..16] == d';
  }

  lemma U32Injective(x: word, y: word)
    ensures U32(x) == U32(y) ==> x == y
  {
    hide U32, ReadU32;
    U32RoundTrip(x);
    U32RoundTrip(y);
  }
}
