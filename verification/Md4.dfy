/** MD4 of one 64-byte block (src/crypto/md4.cpp) against the schedule of RFC 1320, section 3.4. */
module Md4 {
  import opened Bytes
  import opened Registers
  import opened Padding

  // ----- RFC 1320, section 3.4 -----

  const RFC_WORDS_2: seq<nat> := [0, 4, 8, 12, 1, 5, 9, 13, 2, 6, 10, 14, 3, 7, 11, 15]
  const RFC_WORDS_3: seq<nat> := [0, 8, 4, 12, 2, 10, 6, 14, 1, 9, 5, 13, 3, 11, 7, 15]

  datatype Fun = Choose | Majority | Parity

  function Auxiliary(f: Fun, x: word, y: word, z: word): word {
    match f
    case Choose => (x & y) | (!x & z)
    case Majority => (x & y) | (x & z) | (y & z)
    case Parity => x ^ y ^ z
  }

  function Constant(f: Fun): word {
    match f
    case Majority => 0x5A827999
    case _ => 0x6ED9EBA1
  }

  function RfcFun(i: nat): Fun {
    if i < 16 then Choose else if i < 32 then Majority else Parity
  }

  function RfcWord(i: nat): (k: nat)
    ensures k < 16
  {
    if i < 16 then i
    else if i < 32 && RFC_WORDS_2[i - 16] < 16 then RFC_WORDS_2[i - 16]
    else if 32 <= i < 48 && RFC_WORDS_3[i - 32] < 16 then RFC_WORDS_3[i - 32]
    else 0
  }

  function RfcShift(i: nat): (s: nat)
    ensures s < 32
  {
    match i % 4
    case 0 => 3
    case 1 => if i < 16 then 7 else if i < 32 then 5 else 9
    case 2 => if i < 16 then 11 else if i < 32 then 9 else 11
    case _ => if i < 16 then 19 else if i < 32 then 13 else 15
  }

  /** [abcd k s] : a = (a + f(b,c,d) + X[k] + constant) <<< s. */
  function Value(f: Fun, k: nat, s: nat, words: Words, a: word, b: word, c: word, d: word): word
    requires k < 16 && s < 32
  {
    var sum := Add(Add(a, Auxiliary(f, b, c, d)), words[k]);
    Rotl(if f == Choose then sum else Add(sum, Constant(f)), s)
  }

  function RfcMix(words: Words): Mix<word> {
    (i: nat, a: word, b: word, c: word, d: word) => Value(RfcFun(i), RfcWord(i), RfcShift(i), words, a, b, c, d)
  }

  /** The compression of RFC 1320: 48 in-place steps, then the feed-forward. */
  function Compress(state: Chain4, words: Words): Chain4 {
    AddRegs(state, RunInPlace(RfcMix(words), 48, state))
  }

  /** MD4 of a message of any length. */
  function Md4Of(data: seq<byte>): (digest: seq<byte>)
    ensures |digest| == 16
  {
    Digest(Chain(Compress, Pad(data), |Pad(data)| / 64))
  }

  // ----- The code -----

  const FIRST_SHIFTS: seq<nat> := [3, 7, 11, 19]
  const SECOND_SHIFTS: seq<nat> := [3, 5, 9, 13]
  const THIRD_SHIFTS: seq<nat> := [3, 9, 11, 15]
  const THIRD_OFFSETS: seq<nat> := [0, 8, 4, 12, 2, 10, 6, 14, 1, 9, 5, 13, 3, 11, 7, 15]

  /** The code's word orders and shifts are those the RFC lists. */
  lemma FirstOrder(index: nat)
    requires index < 16
    ensures FIRST_SHIFTS[index % 4] == RfcShift(index) && index == RfcWord(index)
  {
  }

  lemma SecondOrder(index: nat)
    requires index < 16
    ensures SECOND_SHIFTS[index % 4] == RfcShift(16 + index) && (index % 4) * 4 + index / 4 == RfcWord(16 + index)
  {
  }

  lemma ThirdOrder(index: nat)
    requires index < 16
    ensures THIRD_SHIFTS[index % 4] == RfcShift(32 + index) && THIRD_OFFSETS[index] == RfcWord(32 + index)
  {
  }

  /** The values the three loop bodies compute. */
  function FirstValue(words: Words, index: nat, r: Chain4): word
    requires index < 16
  {
    Rotl(Add(Add(r.a, Auxiliary(Choose, r.b, r.c, r.d)), words[index]), FIRST_SHIFTS[index % 4])
  }

  function SecondValue(words: Words, index: nat, r: Chain4): word
    requires index < 16
  {
    var offset := (index % 4) * 4 + index / 4;
    Rotl(Add(Add(Add(r.a, Auxiliary(Majority, r.b, r.c, r.d)), words[offset]), 0x5A827999), SECOND_SHIFTS[index % 4])
  }

  function ThirdValue(words: Words, index: nat, r: Chain4): word
    requires index < 16
  {
    ThirdOrder(index);
    Rotl(Add(Add(Add(r.a, Auxiliary(Parity, r.b, r.c, r.d)), words[THIRD_OFFSETS[index]]), 0x6ED9EBA1),
      THIRD_SHIFTS[index % 4])
  }

  /** Each loop body is the RFC's operation of that number. */
  lemma FirstBody(words: Words, index: nat, r: Chain4)
    requires index < 16
    ensures FirstValue(words, index, r) == RfcMix(words)(index, r.a, r.b, r.c, r.d)
  {
    hide Rotl, Add, Auxiliary, RfcShift, RfcWord;
    FirstOrder(index);
    assert RfcFun(index) == Choose;
    hide RfcFun;
  }

  lemma SecondBody(words: Words, index: nat, r: Chain4)
    requires index < 16
    ensures SecondValue(words, index, r) == RfcMix(words)(16 + index, r.a, r.b, r.c, r.d)
  {
    hide Rotl, Add, Auxiliary, RfcShift, RfcWord;
    SecondOrder(index);
    assert RfcFun(16 + index) == Majority;
    hide RfcFun;
  }

  lemma ThirdBody(words: Words, index: nat, r: Chain4)
    requires index < 16
    ensures ThirdValue(words, index, r) == RfcMix(words)(32 + index, r.a, r.b, r.c, r.d)
  {
    hide Rotl, Add, Auxiliary, RfcShift, RfcWord;
    ThirdOrder(index);
    assert RfcFun(32 + index) == Parity;
    hide RfcFun;
  }

  method CompressBlock(state: array<word>, block: seq<byte>)
    requires state.Length == 4 && |block| == 64
    modifies state
    ensures Regs(state[0], state[1], state[2], state[3])
         == Compress(old(Regs(state[0], state[1], state[2], state[3])), BlockWords(block, 0))
  {
    hide Add, ReadU32, RfcMix, FirstValue, SecondValue, ThirdValue;
    var words: seq<word> := [];
    for index := 0 to 16
      invariant words == BlockWords(block, 0)[..index]
    {
      words := words + [ReadU32(block, index * 4)];
    }
    assert words == BlockWords(block, 0);

    var r := Regs(state[0], state[1], state[2], state[3]);
    ghost var start := r;
    for index := 0 to 16
      invariant r == RunRotating(RfcMix(words), index, start)
      modifies {}
    {
      FirstBody(words, index, r);
      r := Regs(r.d, FirstValue(words, index, r), r.b, r.c);
    }
    for index := 0 to 16
      invariant r == RunRotating(RfcMix(words), 16 + index, start)
      modifies {}
    {
      SecondBody(words, index, r);
      r := Regs(r.d, SecondValue(words, index, r), r.b, r.c);
    }
    for index := 0 to 16
      invariant r == RunRotating(RfcMix(words), 32 + index, start)
      modifies {}
    {
      ThirdBody(words, index, r);
      r := Regs(r.d, ThirdValue(words, index, r), r.b, r.c);
    }
    RotatingIsInPlace(RfcMix(words), 48, start);
    assert Compress(start, words) == AddRegs(start, r);
    state[0] := Add(state[0], r.a);
    state[1] := Add(state[1], r.b);
    state[2] := Add(state[2], r.c);
    state[3] := Add(state[3], r.d);
  }

  /** The hand-written second block is exactly what padding a 64-byte message appends. */
  lemma PaddingBlock(data: seq<byte>, padding: seq<byte>)
    requires |data| == 64 && |padding| == 64 && padding[0] == 0x80 && padding[57] == 2
    requires forall i :: 0 < i < 64 && i != 57 ==> padding[i] == 0
    ensures Pad(data) == data + padding
  {
    var n := 512;
    assert ShiftBytes(n, 1) == 2;
    assert ShiftBytes(n, 2) == 0;
    assert ShiftBytes(n, 3) == 0;
    assert ShiftBytes(n, 4) == 0;
    assert ShiftBytes(n, 5) == 0;
    assert ShiftBytes(n, 6) == 0;
    assert ShiftBytes(n, 7) == 0;
    assert U64(n) == [0, 2, 0, 0, 0, 0, 0, 0];
    assert ZeroCount(64) == 55;
  }

  /** The fixed two-block digest of the code is MD4 with normal padding. */
  method Md4Block(data: seq<byte>) returns (result: seq<byte>)
    requires |data| == 64
    ensures result == Md4Of(data)
  {
    hide Compress, BlockWords, U32, Md4Of;
    var state := new word[4][0x67452301, 0xEFCDAB89, 0x98BADCFE, 0x10325476];
    CompressBlock(state, data);
    var padding := PaddingOf64();
    CompressBlock(state, padding);
    TwoBlocks(data, padding);
    ghost var r := Regs(state[0], state[1], state[2], state[3]);
    result := U32(state[0]);
    for index := 1 to 4
      invariant result == Digest(r)[..4 * index]
    {
      result := result + U32(state[index]);
    }
    assert result == Digest(r);
  }

  method PaddingOf64() returns (block: seq<byte>)
    ensures |block| == 64 && block[0] == 0x80 && block[57] == 2 && forall i :: 0 < i < 64 && i != 57 ==> block[i] == 0
  {
    var padding := new byte[64](i => 0);
    padding[0] := 0x80;
    PaddingWord();
    hide U32;
    StoreU32(padding, 56, 512);
    block := padding[..];
  }

  lemma PaddingWord()
    ensures U32(512) == [0, 2, 0, 0]
  {
  }

  lemma TwoBlocks(data: seq<byte>, padding: seq<byte>)
    requires |data| == 64 && |padding| == 64 && padding[0] == 0x80 && padding[57] == 2
    requires forall i :: 0 < i < 64 && i != 57 ==> padding[i] == 0
    ensures Md4Of(data) == Digest(Compress(Compress(INITIAL_STATE, BlockWords(data, 0)), BlockWords(padding, 0)))
  {
    hide Compress, BlockWords, Digest, Pad;
    PaddingBlock(data, padding);
    assert (data + padding)[0..64] == data && (data + padding)[64..128] == padding;
    SameWords(data + padding, 0, data);
    SameWords(data + padding, 64, padding);
    assert Chain(Compress, data + padding, 1) == Compress(INITIAL_STATE, BlockWords(data, 0));
  }

  lemma SameWords(message: seq<byte>, at: nat, block: seq<byte>)
    requires at + 64 <= |message| && |block| == 64 && message[at..at + 64] == block
    ensures BlockWords(message, at) == BlockWords(block, 0)
  {
    forall i | 0 <= i < 16
      ensures ReadU32(message, at + 4 * i) == ReadU32(block, 4 * i)
    {
      assert message[at + (4 * i + 0)] == block[4 * i + 0] && message[at + (4 * i + 1)] == block[4 * i + 1];
      assert message[at + (4 * i + 2)] == block[4 * i + 2] && message[at + (4 * i + 3)] == block[4 * i + 3];
    }
  }
}
