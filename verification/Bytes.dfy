/** Bytes, 32-bit words and the little-endian bridge between them (src/utils/binary.h). */
module Bytes {

  type byte = bv8
  type word = bv32

  // ----- Reading and writing on values -----

  function ReadU16(d: seq<byte>, at: nat): (value: bv16)
    requires at + 2 <= |d|
  {
    d[at] as bv16 | (d[at + 1] as bv16 << 8)
  }

  function ReadU32(d: seq<byte>, at: nat): (value: word)
    requires at + 4 <= |d|
  {
    Join(d[at], d[at + 1], d[at + 2], d[at + 3])
  }

  function Join(b0: byte, b1: byte, b2: byte, b3: byte): word {
    b0 as word | (b1 as word << 8) | (b2 as word << 16) | (b3 as word << 24)
  }

  function U32(value: word): (d: seq<byte>)
    ensures |d| == 4
  {
    [Byte0(value), Byte1(value), Byte2(value), Byte3(value)]
  }

  function Byte0(value: word): byte { (value & 0xFF) as byte }
  function Byte1(value: word): byte { ((value >> 8) & 0xFF) as byte }
  function Byte2(value: word): byte { ((value >> 16) & 0xFF) as byte }
  function Byte3(value: word): byte { ((value >> 24) & 0xFF) as byte }

  /** A byte as a number, the way the source uses bytes as indexes. */
  function Num(b: byte): (n: nat)
    ensures n < 256
  {
    b as nat
  }

  /** Byte addition, which wraps around. */
  function Plus(a: byte, b: byte): byte {
    a + b
  }

  function Xor(a: byte, b: byte): byte {
    a ^ b
  }

  lemma U32RoundTrip(value: word)
    ensures ReadU32(U32(value), 0) == value
  {
    JoinBytes(value);
    hide Join, Byte0, Byte1, Byte2, Byte3;
  }

  lemma JoinBytes(value: word)
    ensures Join(Byte0(value), Byte1(value), Byte2(value), Byte3(value)) == value
  {
  }

  lemma ReadSlice(d: seq<byte>, at: nat, four: seq<byte>)
    requires at + 4 <= |d| && d[at..at + 4] == four
    ensures ReadU32(d, at) == ReadU32(four, 0)
  {
    hide Join;
    assert four[0] == d[at] && four[1] == d[at + 1] && four[2] == d[at + 2] && four[3] == d[at + 3];
  }

  /** Four bytes are exactly the bytes of the word they read as, so word equality is byte equality. */
  lemma ReadU32Bytes(d: seq<byte>, at: nat)
    requires at + 4 <= |d|
    ensures U32(ReadU32(d, at)) == d[at..at + 4]
  {
    var b0, b1, b2, b3 := d[at], d[at + 1], d[at + 2], d[at + 3];
    SplitWord(b0, b1, b2, b3);
    assert d[at..at + 4] == [b0, b1, b2, b3];
  }

  lemma SplitWord(b0: byte, b1: byte, b2: byte, b3: byte)
    ensures U32(Join(b0, b1, b2, b3)) == [b0, b1, b2, b3]
  {
    var w := Join(b0, b1, b2, b3);
    LowBytes(b0, b1, b2, b3);
    HighBytes(b0, b1, b2, b3);
    hide Join, Byte0, Byte1, Byte2, Byte3;
    assert U32(w) == [b0, b1, b2, b3];
  }

  lemma LowBytes(b0: byte, b1: byte, b2: byte, b3: byte)
    ensures Byte0(Join(b0, b1, b2, b3)) == b0
    ensures Byte1(Join(b0, b1, b2, b3)) == b1
  {
  }

  lemma HighBytes(b0: byte, b1: byte, b2: byte, b3: byte)
    ensures Byte2(Join(b0, b1, b2, b3)) == b2
    ensures Byte3(Join(b0, b1, b2, b3)) == b3
  {
  }

  /** `d` with the bytes of `v` stored from address `at` on. */
  function Put(d: seq<byte>, at: nat, v: seq<byte>): (r: seq<byte>)
    requires at + |v| <= |d|
    ensures |r| == |d|
    ensures forall i :: 0 <= i < |d| ==> r[i] == if at <= i < at + |v| then v[i - at] else d[i]
  {
    d[..at] + v + d[at + |v|..]
  }

  /** Small numbers survive the trip through a byte; by induction, because the solver is slow on the direct question. */
  lemma {:induction false} ByteRoundTrip(k: nat)
    requires k < 256
    ensures (k as byte) as nat == k
  {
    if k > 0 {
      ByteRoundTrip(k - 1);
      ByteSuccessor((k - 1) as byte);
    }
  }

  lemma ByteSuccessor(b: byte)
    requires b != 0xFF
    ensures (b + 1) as nat == b as nat + 1
  {
  }

  function Before(b: byte): byte {
    b - 1
  }

  lemma NextByteNum(b: byte)
    ensures Num(Plus(b, 1)) == (Num(b) + 1) % 256
  {
    if b != 0xFF {
      ByteSuccessor(b);
    }
  }

  lemma BeforeNum(b: byte)
    requires b != 0
    ensures Num(Before(b)) + 1 == Num(b)
  {
    ByteSuccessor(b - 1);
  }

  lemma Regroup(a: byte, b: byte)
    ensures Plus(a, b) == Plus(Plus(a, Before(b)), 1)
  {
  }

  lemma NumZero(b: byte)
    ensures Num(b) == 0 <==> b == 0
    ensures Plus(b, 0) == b
  {
  }

  lemma {:induction false} SumNumAt(a: byte, b: byte, k: nat)
    requires Num(b) == k
    ensures Num(Plus(a, b)) == (Num(a) + k) % 256
    decreases k
  {
    hide Num, Plus, Before;
    NumZero(b);
    NumZero(a);
    if k > 0 {
      BeforeNum(b);
      SumNumAt(a, Before(b), k - 1);
      Regroup(a, b);
      NextByteNum(Plus(a, Before(b)));
    }
  }

  /** Byte addition is addition modulo 256. */
  lemma SumNum(a: byte, b: byte)
    ensures Num(Plus(a, b)) == (Num(a) + Num(b)) % 256
  {
    SumNumAt(a, b, Num(b));
  }

  predicate IsErased(d: seq<byte>) {
    |d| != 0 && forall i :: 0 <= i < |d| ==> d[i] == 0xFF
  }

  // ----- The loops of the source -----

  method LoadU32(data: array<byte>, at: nat) returns (value: word)
    requires at + 4 <= data.Length
    ensures value == ReadU32(data[..], at)
  {
    value := 0;
    for index := 0 to 4
      invariant index == 0 ==> value == 0
      invariant index == 1 ==> value == data[at] as word
      invariant index == 2 ==> value == data[at] as word | (data[at + 1] as word << 8)
      invariant index == 3 ==> value == data[at] as word | (data[at + 1] as word << 8) | (data[at + 2] as word << 16)
      invariant index == 4 ==> value == ReadU32(data[..], at)
    {
      value := value | (data[at + index] as word << (index * 8));
    }
  }

  method StoreU32(data: array<byte>, at: nat, value: word)
    requires at + 4 <= data.Length
    modifies data
    ensures data[..] == Put(old(data[..]), at, U32(value))
  {
    for index := 0 to 4
      invariant forall k :: 0 <= k < index ==> data[at + k] == U32(value)[k]
      invariant forall i :: 0 <= i < data.Length && !(at <= i < at + index) ==> data[i] == old(data[i])
    {
      data[at + index] := ((value >> (index * 8)) & 0xFF) as byte;
    }
  }

  method IsErasedData(data: array<byte>, at: nat, size: nat) returns (erased: bool)
    requires at + size <= data.Length
    ensures erased == IsErased(data[at..at + size])
    ensures erased <==> size > 0 && forall i :: at <= i < at + size ==> data[i] == 0xFF
  {
    if size == 0 {
      return false;
    }
    for index := 0 to size
      invariant forall i :: at <= i < at + index ==> data[i] == 0xFF
    {
      if data[at + index] != 0xFF {
        assert data[at..at + size][index] != 0xFF;
        return false;
      }
    }
    return true;
  }
}
