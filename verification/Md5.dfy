/** MD5, scalar and eight lanes at a time (src/crypto/md5.cpp), against RFC 1321, section 3.4. */
module Md5 {
  import opened Bytes
  import opened Registers
  import opened Padding

  // ----- The unrolled macro list of the source, one line per step -----

  datatype Fun = F1 | F2 | F3 | F4

  datatype Target = A | B | C | D

  /** The macro step: the function, the register it overwrites, the message word, the constant and the shift. */
  datatype Line = Line(f: Fun, target: Target, word: nat, constant: word, shift: nat)

  const ROUND_1: seq<Line> := [
    Line(F1, A, 0, 0xD76AA478, 7), Line(F1, D, 1, 0xE8C7B756, 12),
    Line(F1, C, 2, 0x242070DB, 17), Line(F1, B, 3, 0xC1BDCEEE, 22),
    Line(F1, A, 4, 0xF57C0FAF, 7), Line(F1, D, 5, 0x4787C62A, 12),
    Line(F1, C, 6, 0xA8304613, 17), Line(F1, B, 7, 0xFD469501, 22),
    Line(F1, A, 8, 0x698098D8, 7), Line(F1, D, 9, 0x8B44F7AF, 12),
    Line(F1, C, 10, 0xFFFF5BB1, 17), Line(F1, B, 11, 0x895CD7BE, 22),
    Line(F1, A, 12, 0x6B901122, 7), Line(F1, D, 13, 0xFD987193, 12),
    Line(F1, C, 14, 0xA679438E, 17), Line(F1, B, 15, 0x49B40821, 22)
  ]

  const ROUND_2: seq<Line> := [
    Line(F2, A, 1, 0xF61E2562, 5), Line(F2, D, 6, 0xC040B340, 9),
    Line(F2, C, 11, 0x265E5A51, 14), Line(F2, B, 0, 0xE9B6C7AA, 20),
    Line(F2, A, 5, 0xD62F105D, 5), Line(F2, D, 10, 0x02441453, 9),
    Line(F2, C, 15, 0xD8A1E681, 14), Line(F2, B, 4, 0xE7D3FBC8, 20),
    Line(F2, A, 9, 0x21E1CDE6, 5), Line(F2, D, 14, 0xC33707D6, 9),
    Line(F2, C, 3, 0xF4D50D87, 14), Line(F2, B, 8, 0x455A14ED, 20),
    Line(F2, A, 13, 0xA9E3E905, 5), Line(F2, D, 2, 0xFCEFA3F8, 9),
    Line(F2, C, 7, 0x676F02D9, 14), Line(F2, B, 12, 0x8D2A4C8A, 20)
  ]

  const ROUND_3: seq<Line> := [
    Line(F3, A, 5, 0xFFFA3942, 4), Line(F3, D, 8, 0x8771F681, 11),
    Line(F3, C, 11, 0x6D9D6122, 16), Line(F3, B, 14, 0xFDE5380C, 23),
    Line(F3, A, 1, 0xA4BEEA44, 4), Line(F3, D, 4, 0x4BDECFA9, 11),
    Line(F3, C, 7, 0xF6BB4B60, 16), Line(F3, B, 10, 0xBEBFBC70, 23),
    Line(F3, A, 13, 0x289B7EC6, 4), Line(F3, D, 0, 0xEAA127FA, 11),
    Line(F3, C, 3, 0xD4EF3085, 16), Line(F3, B, 6, 0x04881D05, 23),
    Line(F3, A, 9, 0xD9D4D039, 4), Line(F3, D, 12, 0xE6DB99E5, 11),
    Line(F3, C, 15, 0x1FA27CF8, 16), Line(F3, B, 2, 0xC4AC5665, 23)
  ]

  const ROUND_4: seq<Line> := [
    Line(F4, A, 0, 0xF4292244, 6), Line(F4, D, 7, 0x432AFF97, 10),
    Line(F4, C, 14, 0xAB9423A7, 15), Line(F4, B, 5, 0xFC93A039, 21),
    Line(F4, A, 12, 0x655B59C3, 6), Line(F4, D, 3, 0x8F0CCC92, 10),
    Line(F4, C, 10, 0xFFEFF47D, 15), Line(F4, B, 1, 0x85845DD1, 21),
    Line(F4, A, 8, 0x6FA87E4F, 6), Line(F4, D, 15, 0xFE2CE6E0, 10),
    Line(F4, C, 6, 0xA3014314, 15), Line(F4, B, 13, 0x4E0811A1, 21),
    Line(F4, A, 4, 0xF7537E82, 6), Line(F4, D, 11, 0xBD3AF235, 10),
    Line(F4, C, 2, 0x2AD7D2BB, 15), Line(F4, B, 9, 0xEB86D391, 21)
  ]

  function LineAt(i: nat): Line
    requires i < 64
  {
    if i < 16 then ROUND_1[i]
    else if i < 32 then ROUND_2[i - 16]
    else if i < 48 then ROUND_3[i - 32]
    else ROUND_4[i - 48]
  }

  function CodeF1(x: word, y: word, z: word): word {
    z ^ (x & (y ^ z))
  }

  function CodeAuxiliary(f: Fun, x: word, y: word, z: word): word {
    match f
    case F1 => CodeF1(x, y, z)
    case F2 => CodeF1(z, x, y)
    case F3 => H(x, y, z)
    case F4 => I(x, y, z)
  }

  function CodeValue(line: Line, words: Words, a: word, b: word, c: word, d: word): word
    requires line.word < 16 && line.shift < 32
  {
    Add(Rotl(Add(a, Add(Add(CodeAuxiliary(line.f, b, c, d), words[line.word]), line.constant)), line.shift), b)
  }

  // ----- RFC 1321, section 3.4 -----

  /** The auxiliary functions F, G, H and I. */
  function Auxiliary(f: Fun, x: word, y: word, z: word): word {
    match f
    case F1 => F(x, y, z)
    case F2 => G(x, y, z)
    case F3 => H(x, y, z)
    case F4 => I(x, y, z)
  }

  function F(x: word, y: word, z: word): word { (x & y) | (!x & z) }
  function G(x: word, y: word, z: word): word { (x & z) | (y & !z) }
  function H(x: word, y: word, z: word): word { x ^ y ^ z }
  function I(x: word, y: word, z: word): word { y ^ (x | !z) }

  function RfcFun(i: nat): Fun {
    if i < 16 then F1 else if i < 32 then F2 else if i < 48 then F3 else F4
  }

  function RfcWord(i: nat): (k: nat)
    ensures k < 16
  {
    if i < 16 then i
    else if i < 32 then (1 + 5 * i) % 16
    else if i < 48 then (5 + 3 * i) % 16
    else (7 * i) % 16
  }

  function RfcShift(i: nat): (s: nat)
    ensures s < 32
  {
    match i % 4
    case 0 => if i < 16 then 7 else if i < 32 then 5 else if i < 48 then 4 else 6
    case 1 => if i < 16 then 12 else if i < 32 then 9 else if i < 48 then 11 else 10
    case 2 => if i < 16 then 17 else if i < 32 then 14 else if i < 48 then 16 else 15
    case _ => if i < 16 then 22 else if i < 32 then 20 else if i < 48 then 23 else 21
  }

  /** Whose turn it is: [ABCD], [DABC], [CDAB], [BCDA]. */
  function RfcTarget(i: nat): Target {
    match i % 4
    case 0 => A
    case 1 => D
    case 2 => C
    case _ => B
  }

  /** The sine constants, as the source lists them. */
  function T(i: nat): word {
    if i < 64 then LineAt(i).constant else 0
  }

  /** [abcd k s i] : a = b + ((a + f(b,c,d) + X[k] + T[i]) <<< s). */
  function Value(f: Fun, k: nat, s: nat, t: word, words: Words, a: word, b: word, c: word, d: word): word
    requires k < 16 && s < 32
  {
    Add(Rotl(Add(a, Add(Add(Auxiliary(f, b, c, d), words[k]), t)), s), b)
  }

  function RfcMix(words: Words): Mix<word> {
    (i: nat, a: word, b: word, c: word, d: word) => Value(RfcFun(i), RfcWord(i), RfcShift(i), T(i), words, a, b, c, d)
  }

  function Compress(state: Chain4, words: Words): Chain4 {
    AddRegs(state, RunInPlace(RfcMix(words), 64, state))
  }

  /** MD5 of a message of any length. */
  function Md5Of(data: seq<byte>): (digest: seq<byte>)
    ensures |digest| == 16
  {
    Digest(Chain(Compress, Pad(data), |Pad(data)| / 64))
  }

  // ----- The list is the schedule -----

  predicate FollowsRfc(line: Line, i: nat) {
    line.f == RfcFun(i) && line.target == RfcTarget(i) && line.word == RfcWord(i) && line.shift == RfcShift(i)
  }

  lemma Round1Follows(i: nat)
    requires i < 16
    ensures FollowsRfc(ROUND_1[i], i)
  {
  }

  lemma Round2Follows(i: nat)
    requires i < 16
    ensures FollowsRfc(ROUND_2[i], 16 + i)
  {
  }

  lemma Round3Follows(i: nat)
    requires i < 16
    ensures FollowsRfc(ROUND_3[i], 32 + i)
  {
  }

  lemma Round4Follows(i: nat)
    requires i < 16
    ensures FollowsRfc(ROUND_4[i], 48 + i)
  {
  }

  lemma LineFollows(i: nat)
    requires i < 64
    ensures FollowsRfc(LineAt(i), i)
  {
    hide FollowsRfc;
    if i < 16 {
      Round1Follows(i);
    } else if i < 32 {
      Round2Follows(i - 16);
    } else if i < 48 {
      Round3Follows(i - 32);
    } else {
      Round4Follows(i - 48);
    }
  }

  /** The shorter forms of F and G used by the code select the same bits. */
  lemma SelectBits(x: word, y: word, z: word)
    ensures CodeF1(x, y, z) == F(x, y, z)
  {
    assert z ^ (x & (y ^ z)) == (x & y) | (!x & z);
  }

  lemma SelectBitsSwapped(x: word, y: word, z: word)
    ensures CodeF1(z, x, y) == G(x, y, z)
  {
    assert y ^ (z & (x ^ y)) == (x & z) | (y & !z);
  }

  lemma SameAuxiliary(f: Fun, x: word, y: word, z: word)
    ensures CodeAuxiliary(f, x, y, z) == Auxiliary(f, x, y, z)
  {
    hide CodeF1, F, G, H, I;
    SelectBits(x, y, z);
    SelectBitsSwapped(x, y, z);
  }

  /** What one macro line does to the registers. */
  function RunLine(line: Line, words: Words, r: Chain4): Chain4
    requires line.word < 16 && line.shift < 32
  {
    match line.target
    case A => r.(a := CodeValue(line, words, r.a, r.b, r.c, r.d))
    case D => r.(d := CodeValue(line, words, r.d, r.a, r.b, r.c))
    case C => r.(c := CodeValue(line, words, r.c, r.d, r.a, r.b))
    case B => r.(b := CodeValue(line, words, r.b, r.c, r.d, r.a))
  }

  lemma LineValue(i: nat, words: Words, a: word, b: word, c: word, d: word)
    requires i < 64 && FollowsRfc(LineAt(i), i)
    ensures CodeValue(LineAt(i), words, a, b, c, d) == RfcMix(words)(i, a, b, c, d)
  {
    hide Add, Rotl, CodeAuxiliary, Auxiliary, LineAt, RfcFun, RfcWord, RfcShift;
    SameAuxiliary(LineAt(i).f, b, c, d);
  }

  lemma LineIsStep(i: nat, words: Words, r: Chain4)
    requires i < 64
    ensures FollowsRfc(LineAt(i), i)
    ensures RunLine(LineAt(i), words, r) == StepInPlace(RfcMix(words), i, r)
  {
    LineFollows(i);
    LineValue(i, words, r.a, r.b, r.c, r.d);
    LineValue(i, words, r.d, r.a, r.b, r.c);
    LineValue(i, words, r.c, r.d, r.a, r.b);
    LineValue(i, words, r.b, r.c, r.d, r.a);
    hide CodeValue, RfcMix, LineAt, RfcFun, RfcWord, RfcShift;
  }

  // ----- The code -----

  /** One scalar compression: the macro list run on four registers. */
  method CompressBlock(state: array<word>, message: Words)
    requires state.Length == 4
    modifies state
    ensures Regs(state[0], state[1], state[2], state[3])
         == Compress(old(Regs(state[0], state[1], state[2], state[3])), message)
  {
    hide Add, RfcMix, RunLine, LineAt, RfcWord, RfcShift;
    var r := Regs(state[0], state[1], state[2], state[3]);
    ghost var start := r;
    for i := 0 to 64
      invariant r == RunInPlace(RfcMix(message), i, start)
      modifies {}
    {
      LineIsStep(i, message, r);
      r := RunLine(LineAt(i), message, r);
    }
    state[0] := Add(state[0], r.a);
    state[1] := Add(state[1], r.b);
    state[2] := Add(state[2], r.c);
    state[3] := Add(state[3], r.d);
    assert Regs(state[0], state[1], state[2], state[3]) == AddRegs(start, r);
  }

  /** `hashes[word][lane]` and `blocks[word][lane]`, as the source's nested fixed arrays. */
  type DigestBatch = s: seq<seq<word>> | |s| == 4 && forall i :: 0 <= i < 4 ==> |s[i]| == 8
    witness seq(4, _ => seq(8, _ => 0))

  type BlockBatch = s: seq<seq<word>> | |s| == 16 && forall i :: 0 <= i < 16 ==> |s[i]| == 8
    witness seq(16, _ => seq(8, _ => 0))

  function LaneWords(blocks: BlockBatch, lane: nat): Words
    requires lane < 8
  {
    seq(16, i requires 0 <= i < 16 => blocks[i][lane])
  }

  function LaneRegs(state: DigestBatch, lane: nat): Chain4
    requires lane < 8
  {
    Regs(state[0][lane], state[1][lane], state[2][lane], state[3][lane])
  }

  /** The macro list with a loop over the lanes inside each line: every lane gets the scalar compression of its own
      words. */
  method CompressBlocks(state: DigestBatch, message: BlockBatch) returns (result: DigestBatch)
    ensures forall lane :: 0 <= lane < 8 ==>
      LaneRegs(result, lane) == Compress(LaneRegs(state, lane), LaneWords(message, lane))
  {
    hide Add, RfcMix, RunLine, LineAt, RfcWord, RfcShift, StepInPlace;
    var lanes := seq(8, lane requires 0 <= lane < 8 => LaneRegs(state, lane));
    for i := 0 to 64
      invariant |lanes| == 8
      invariant forall l :: 0 <= l < 8 ==> lanes[l] == RunInPlace(RfcMix(LaneWords(message, l)), i, LaneRegs(state, l))
    {
      for lane := 0 to 8
        invariant |lanes| == 8
        invariant forall l :: 0 <= l < lane ==>
          lanes[l] == RunInPlace(RfcMix(LaneWords(message, l)), i + 1, LaneRegs(state, l))
        invariant forall l :: lane <= l < 8 ==>
          lanes[l] == RunInPlace(RfcMix(LaneWords(message, l)), i, LaneRegs(state, l))
      {
        LineIsStep(i, LaneWords(message, lane), lanes[lane]);
        lanes := lanes[lane := RunLine(LineAt(i), LaneWords(message, lane), lanes[lane])];
      }
    }
    result := [
      seq(8, l requires 0 <= l < 8 => Add(state[0][l], lanes[l].a)),
      seq(8, l requires 0 <= l < 8 => Add(state[1][l], lanes[l].b)),
      seq(8, l requires 0 <= l < 8 => Add(state[2][l], lanes[l].c)),
      seq(8, l requires 0 <= l < 8 => Add(state[3][l], lanes[l].d))
    ];
    assert forall lane :: 0 <= lane < 8 ==> LaneRegs(result, lane) == AddRegs(LaneRegs(state, lane), lanes[lane]);
  }

  /** Eight one-block messages whose padding is already in place: each lane is the scalar compression. */
  method Md5Batch(blocks: BlockBatch) returns (hashes: DigestBatch)
    ensures forall lane :: 0 <= lane < 8 ==> LaneRegs(hashes, lane) == Compress(INITIAL_STATE, LaneWords(blocks, lane))
  {
    hide Compress;
    hashes := [seq(8, _ => INITIAL_STATE.a), seq(8, _ => INITIAL_STATE.b), seq(8, _ => INITIAL_STATE.c),
      seq(8, _ => INITIAL_STATE.d)];
    assert forall lane :: 0 <= lane < 8 ==> LaneRegs(hashes, lane) == INITIAL_STATE;
    hashes := CompressBlocks(hashes, blocks);
  }

  /** The padding loops of the source. */
  method PadMessage(data: seq<byte>) returns (message: seq<byte>)
    ensures message == Pad(data)
  {
    hide LowByte;
    message := data + [0x80];
    while |message| % 64 != 56
      invariant |data| + 1 <= |message| <= |data| + 1 + ZeroCount(|data|)
      invariant message == data + [0x80] + seq(|message| - |data| - 1, _ => 0)
      decreases |data| + 1 + ZeroCount(|data|) - |message|
    {
      message := message + [0];
    }
    FirstStop(|data|, |message| - |data| - 1);
    var bits := |data| * 8;
    ghost var body := message;
    for i := 0 to 8
      invariant message == body + U64(bits)[..i]
    {
      message := message + [LowByte(ShiftBytes(bits, i))];
    }
  }

  /** MD5 of any message: pad, then run the compression over the blocks. */
  method Md5Digest(data: seq<byte>) returns (result: seq<byte>)
    ensures result == Md5Of(data)
  {
    hide Compress, U32, BlockWords, Pad;
    var state := new word[4][0x67452301, 0xEFCDAB89, 0x98BADCFE, 0x10325476];
    var message := PadMessage(data);
    PadLength(data);
    for index := 0 to |message| / 64
      invariant Regs(state[0], state[1], state[2], state[3]) == Chain(Compress, message, index)
    {
      CompressBlock(state, BlockWords(message, 64 * index));
    }
    ghost var r := Regs(state[0], state[1], state[2], state[3]);
    result := U32(state[0]);
    for i := 1 to 4
      invariant result == Digest(r)[..4 * i]
      modifies {}
    {
      result := result + U32(state[i]);
    }
    assert result == Digest(r);
  }

  lemma FirstStop(size: nat, k: nat)
    requires k <= ZeroCount(size) && (size + 1 + k) % 64 == 56
    ensures k == ZeroCount(size)
  {
  }

  // ----- Hand-padded one-block messages -----

  /** The words the search builds for a message of one or four words: 0x80 after it and the bit length in word 14. */
  function ShortWords(message: seq<word>): Words
    requires |message| <= 13
  {
    message + [0x80] + seq(13 - |message|, _ => 0) + [if |message| == 1 then 32 else 128] + [0]
  }

  function BytesOf(message: seq<word>): (d: seq<byte>)
    ensures |d| == 4 * |message|
  {
    if message == [] then [] else BytesOf(message[..|message| - 1]) + U32(message[|message| - 1])
  }

  lemma {:induction false} BytesOfAt(message: seq<word>, i: nat)
    requires i < |message|
    ensures BytesOf(message)[4 * i..4 * i + 4] == U32(message[i])
  {
    hide U32;
    var n := |message| - 1;
    if i < n {
      BytesOfAt(message[..n], i);
      assert BytesOf(message)[4 * i..4 * i + 4] == BytesOf(message[..n])[4 * i..4 * i + 4];
    }
  }

  lemma SmallWords()
    ensures ReadU32([0x80, 0, 0, 0], 0) == 0x80 && ReadU32([0, 0, 0, 0], 0) == 0
    ensures ReadU32([32, 0, 0, 0], 0) == 32 && ReadU32([128, 0, 0, 0], 0) == 128
  {
    assert Join(0x80, 0, 0, 0) == 0x80 && Join(0, 0, 0, 0) == 0 && Join(32, 0, 0, 0) == 32 && Join(128, 0, 0, 0) == 128;
  }

  lemma SmallLengths(bits: nat)
    requires bits == 32 || bits == 128
    ensures U64(bits) == [if bits == 32 then 32 else 128, 0, 0, 0, 0, 0, 0, 0]
  {
    assert ShiftBytes(bits, 0) == bits;
    assert ShiftBytes(bits, 1) == 0;
    assert ShiftBytes(bits, 2) == 0;
    assert ShiftBytes(bits, 3) == 0;
    assert ShiftBytes(bits, 4) == 0;
    assert ShiftBytes(bits, 5) == 0;
    assert ShiftBytes(bits, 6) == 0;
    assert ShiftBytes(bits, 7) == 0;
  }

  lemma PaddedWord(message: seq<word>, i: nat)
    requires (|message| == 1 || |message| == 4) && i < |message|
    ensures ReadU32(Pad(BytesOf(message)), 4 * i) == message[i]
  {
    var data := BytesOf(message);
    hide Join, U32, U64, ReadU32;
    BytesOfAt(message, i);
    var d := U32(message[i]);
    assert Pad(data)[4 * i..4 * i + 4] == data[4 * i..4 * i + 4] == U32(message[i]);
    ReadSlice(Pad(data), 4 * i, U32(message[i]));
    U32RoundTrip(message[i]);
  }

  /** The three parts padding appends: marker, zeros, length. */
  lemma SliceOf<T>(data: seq<T>, marker: T, zeros: seq<T>, tail: seq<T>, zero: T, i: nat)
    requires (|data| == 4 || |data| == 16) && |zeros| == 55 - |data| && |tail| == 8
    requires (forall k :: 0 <= k < |zeros| ==> zeros[k] == zero) && forall k :: 1 <= k < 8 ==> tail[k] == zero
    requires |data| <= 4 * i < 64
    ensures (data + [marker] + zeros + tail)[4 * i..4 * i + 4]
         == [if 4 * i == |data| then marker else if i == 14 then tail[0] else zero, zero, zero, zero]
  {
  }

  /** The first byte of the four that padding puts at `4 * i`; the other three are zero. */
  function TailByte(size: nat, i: nat): byte {
    if 4 * i == size then 0x80 else if i == 14 then (if size == 4 then 32 else 128) else 0
  }

  lemma PaddingSlice(data: seq<byte>, i: nat)
    requires |data| == 4 || |data| == 16
    requires |data| <= 4 * i < 64
    ensures |Pad(data)| == 64 && Pad(data)[4 * i..4 * i + 4] == [TailByte(|data|, i), 0, 0, 0]
  {
    PadLength(data);
    SmallLengths(8 * |data|);
    hide U64;
    SliceOf(data, 0x80, seq(ZeroCount(|data|), _ => 0), U64(8 * |data|), 0, i);
  }

  /** The words padding appends to a message of 4 or 16 bytes. */
  lemma PaddingTail(data: seq<byte>, i: nat)
    requires |data| == 4 || |data| == 16
    requires |data| <= 4 * i < 64
    ensures |Pad(data)| == 64
    ensures ReadU32(Pad(data), 4 * i)
         == if 4 * i == |data| then 0x80 else if i == 14 then (if |data| == 4 then 32 else 128) else 0
  {
    PaddingSlice(data, i);
    SmallWords();
    hide ReadU32, Pad;
    ReadSlice(Pad(data), 4 * i, [TailByte(|data|, i), 0, 0, 0]);
  }

  lemma ShortBlock(message: seq<word>)
    requires |message| == 1 || |message| == 4
    ensures |Pad(BytesOf(message))| == 64 && BlockWords(Pad(BytesOf(message)), 0) == ShortWords(message)
  {
    var data := BytesOf(message);
    hide ReadU32, Pad, BytesOf;
    PaddingTail(data, 15);
    forall i: nat | i < 16
      ensures ReadU32(Pad(data), 4 * i) == ShortWords(message)[i]
    {
      if i < |message| {
        PaddedWord(message, i);
      } else {
        PaddingTail(data, i);
      }
    }
  }

  /** For 4- and 16-byte messages the hand-made words are the padded block, so the batch digest is MD5 of the bytes. */
  lemma ShortMessage(message: seq<word>)
    requires |message| == 1 || |message| == 4
    ensures Md5Of(BytesOf(message)) == Digest(Compress(INITIAL_STATE, ShortWords(message)))
  {
    hide Compress, Digest, Pad, BlockWords, BytesOf, ShortWords;
    ShortBlock(message);
    assert Chain(Compress, Pad(BytesOf(message)), 0) == INITIAL_STATE;
  }
}
