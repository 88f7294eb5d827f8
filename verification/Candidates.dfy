/** 32-bit candidates as numbers and as words, and a batch of eight of them (src/siemens/bruteforce.cpp). */
module Candidates {
  import opened Wrappers
  import opened Bytes
  import opened Search

  const LANES: nat := 8

  // ----- Numbers below 2^32 and words -----

  function AsByte(n: nat): byte
    requires n < 256
  {
    n as byte
  }

  function LowByte(n: nat): byte {
    AsByte(n % 256)
  }

  /** The word a 64-bit counter below 2^32 casts to: the same four bytes. */
  function WordOf(n: nat): word {
    WordFrom(LowByte(n), n)
  }

  /** The word with the given low byte and the other three bytes of `n`. */
  function WordFrom(low: byte, n: nat): word {
    Join(low, LowByte(n / 0x100), LowByte(n / 0x1_0000), LowByte(n / 0x100_0000))
  }

  function Weigh(b0: nat, b1: nat, b2: nat, b3: nat): nat {
    b0 + 0x100 * b1 + 0x1_0000 * b2 + 0x100_0000 * b3
  }

  function NatOf(w: word): nat {
    Weigh(Num(Byte0(w)), Num(Byte1(w)), Num(Byte2(w)), Num(Byte3(w)))
  }

  lemma NatOfBound(w: word)
    ensures NatOf(w) < ESN_COUNT
  {
    hide Num, Byte0, Byte1, Byte2, Byte3;
  }

  lemma LowByteNat(n: nat)
    ensures Num(LowByte(n)) == n % 256
  {
    ByteRoundTrip(n % 256);
  }

  lemma ByteOfNat(b: byte)
    ensures Num(b) as byte == b
  {
  }

  lemma Quotient(n: nat, m: nat, q: nat, r: nat)
    requires n == m * q + r && r < m
    ensures n / m == q
  {
    var d, e := n / m, n % m;
    assert m * (q - d) == e - r by {
      assert n == m * d + e;
      assert m * (q - d) == m * q - m * d;
    }
    MulSign(q - d, m);
  }

  lemma Positional(n: nat)
    requires n < ESN_COUNT
    ensures n == Weigh(n % 256, n / 0x100 % 256, n / 0x1_0000 % 256, n / 0x100_0000 % 256)
  {
    var a, r0 := n / 256, n % 256;
    var b, r1 := a / 256, a % 256;
    var c, r2 := b / 256, b % 256;
    Quotient(n, 0x1_0000, b, 256 * r1 + r0);
    Quotient(n, 0x100_0000, c, 0x1_0000 * r2 + 256 * r1 + r0);
  }

  lemma NatOfWordOf(n: nat)
    requires n < ESN_COUNT
    ensures NatOf(WordOf(n)) == n
  {
    LowBytes(LowByte(n), LowByte(n / 0x100), LowByte(n / 0x1_0000), LowByte(n / 0x100_0000));
    HighBytes(LowByte(n), LowByte(n / 0x100), LowByte(n / 0x1_0000), LowByte(n / 0x100_0000));
    LowByteNat(n);
    LowByteNat(n / 0x100);
    LowByteNat(n / 0x1_0000);
    LowByteNat(n / 0x100_0000);
    Positional(n);
    hide Join, Byte0, Byte1, Byte2, Byte3, LowByte, Num, Weigh;
  }

  lemma Digits256(b0: nat, b1: nat, b2: nat, b3: nat)
    requires b0 < 256 && b1 < 256 && b2 < 256 && b3 < 256
    ensures var n := Weigh(b0, b1, b2, b3);
      n % 256 == b0 && n / 0x100 % 256 == b1 && n / 0x1_0000 % 256 == b2 && n / 0x100_0000 % 256 == b3
  {
    var n := Weigh(b0, b1, b2, b3);
    assert n / 0x100 == b1 + 0x100 * b2 + 0x1_0000 * b3;
    assert n / 0x1_0000 == b2 + 0x100 * b3;
    assert n / 0x100_0000 == b3;
  }

  lemma WordOfNatOf(w: word)
    ensures WordOf(NatOf(w)) == w
  {
    var b0, b1, b2, b3 := Byte0(w), Byte1(w), Byte2(w), Byte3(w);
    Digits256(Num(b0), Num(b1), Num(b2), Num(b3));
    ByteOfNat(b0);
    ByteOfNat(b1);
    ByteOfNat(b2);
    ByteOfNat(b3);
    JoinBytes(w);
    hide Join, Byte0, Byte1, Byte2, Byte3, Num, Weigh;
  }

  // ----- The eight candidates of a batch -----

  function LaneWord(lane: nat): word
    requires lane < LANES
  {
    match lane
    case 0 => 0
    case 1 => 1
    case 2 => 2
    case 3 => 3
    case 4 => 4
    case 5 => 5
    case 6 => 6
    case _ => 7
  }

  /** firstCandidate + lane, in 32 bits. */
  function Candidate(first: word, lane: nat): word
    requires lane < LANES
  {
    PlusWord(first, LaneWord(lane))
  }

  function PlusWord(a: word, b: word): word {
    a + b
  }

  lemma JoinPlus(b0: byte, b1: byte, b2: byte, b3: byte, lane: nat)
    requires b0 <= 0xF8 && lane < LANES
    ensures Join(Sum(b0, AsByte(lane)), b1, b2, b3) == PlusWord(Join(b0, b1, b2, b3), LaneWord(lane))
  {
    LaneByte(lane);
    JoinPlusByte(b0, b1, b2, b3, AsByte(lane));
    hide Join, AsByte, LaneWord, PlusWord, Sum;
  }

  function Sum(a: byte, b: byte): byte {
    a + b
  }

  lemma JoinPlusByte(b0: byte, b1: byte, b2: byte, b3: byte, lane: byte)
    requires b0 <= 0xF8 && lane <= 7
    ensures Join(Sum(b0, lane), b1, b2, b3) == PlusWord(Join(b0, b1, b2, b3), lane as word)
  {
  }

  lemma WordFromPlus(low: byte, n: nat, lane: nat)
    requires low <= 0xF8 && lane < LANES
    ensures WordFrom(Sum(low, AsByte(lane)), n) == PlusWord(WordFrom(low, n), LaneWord(lane))
  {
    JoinPlus(low, LowByte(n / 0x100), LowByte(n / 0x1_0000), LowByte(n / 0x100_0000), lane);
    hide Join, LaneWord, AsByte, Sum, LowByte, PlusWord;
  }

  lemma WordFromSame(low: byte, n: nat, lane: nat)
    requires n % 256 + lane < 256
    ensures WordFrom(low, n + lane) == WordFrom(low, n)
  {
    HigherBytesSame(n, lane);
    hide Join, LowByte;
  }

  /** Adding a lane to a batch start below 2^32 never carries out of the low byte. */
  lemma CandidateIsNumber(first: nat, lane: nat)
    requires first % 8 == 0 && first < ESN_COUNT && lane < LANES
    ensures Candidate(WordOf(first), lane) == WordOf(first + lane)
  {
    hide WordFrom, LaneWord, AsByte, Sum, PlusWord;
    var k := first % 256;
    BatchStart(first, lane);
    LowByteSum(k, lane);
    SmallByte(k);
    WordFromPlus(LowByte(first), first, lane);
    WordFromSame(LowByte(first + lane), first, lane);
  }

  lemma BatchStart(first: nat, lane: nat)
    requires first % 8 == 0 && lane < LANES
    ensures first % 256 <= 248 && (first + lane) % 256 == first % 256 + lane
  {
    var q, m := first / 256, first / 8;
    assert first == 8 * m;
    assert first % 256 == 8 * (m - 32 * q);
    assert first + lane == 256 * q + (8 * (m - 32 * q) + lane);
  }

  lemma HigherBytesSame(first: nat, lane: nat)
    requires first % 256 + lane < 256
    ensures (first + lane) / 0x100 == first / 0x100
    ensures (first + lane) / 0x1_0000 == first / 0x1_0000
    ensures (first + lane) / 0x100_0000 == first / 0x100_0000
  {
    var a := first / 0x100;
    assert (first + lane) / 0x100 == a;
    assert first / 0x1_0000 == a / 0x100 && (first + lane) / 0x1_0000 == (first + lane) / 0x100 / 0x100;
    assert first / 0x100_0000 == a / 0x1_0000 && (first + lane) / 0x100_0000 == (first + lane) / 0x100 / 0x1_0000;
  }

  lemma ByteNext(k: nat)
    requires k + 1 < 256
    ensures AsByte(k + 1) == Sum(AsByte(k), 1)
  {
    var b := k as byte;
    ByteRoundTrip(k);
    ByteSuccessor(b);
    ByteOfNat(b + 1);
  }

  lemma {:induction false} LowByteSum(k: nat, lane: nat)
    requires k + lane < 256
    ensures AsByte(k + lane) == Sum(AsByte(k), AsByte(lane))
  {
    if lane == 0 {
      assert AsByte(0) == 0;
    } else {
      LowByteSum(k, lane - 1);
      ByteNext(k + lane - 1);
      ByteNext(lane - 1);
      Regroup(AsByte(k), AsByte(lane - 1));
      hide AsByte, Sum;
    }
  }

  lemma Regroup(a: byte, b: byte)
    ensures Sum(Sum(a, b), 1) == Sum(a, Sum(b, 1))
  {
  }

  lemma SmallByte(k: nat)
    requires k <= 248
    ensures AsByte(k) <= 0xF8
  {
    ByteRoundTrip(k);
  }

  lemma LaneByte(lane: nat)
    requires lane < LANES
    ensures AsByte(lane) <= 7 && LaneWord(lane) == AsByte(lane) as word
  {
  }

  // ----- A batch matcher and the sweep over it -----

  /** The first lane from `lane` on whose candidate is wanted. */
  function FirstMatch(wanted: word -> bool, first: word, lane: nat): Option<word>
    requires lane <= LANES
    decreases LANES - lane
  {
    if lane == LANES then None
    else if wanted(Candidate(first, lane)) then Some(Candidate(first, lane))
    else FirstMatch(wanted, first, lane + 1)
  }

  function BatchMatch(wanted: word -> bool): nat -> Option<nat> {
    (first: nat) =>
      match FirstMatch(wanted, WordOf(first), 0)
      case None => None
      case Some(w) => Some(NatOf(w))
  }

  function Numbered(wanted: word -> bool): nat -> bool {
    (n: nat) => n < ESN_COUNT && wanted(WordOf(n))
  }

  /** The sweep with batches of eight candidates. */
  function EightLanes(threads: nat, progress: bool, wanted: word -> bool): Config {
    Config(threads, LANES, progress, BatchMatch(wanted))
  }

  lemma {:induction false} FirstMatchIsLeast(wanted: word -> bool, first: nat, lane: nat)
    requires first % 8 == 0 && first < ESN_COUNT && lane <= LANES && first + LANES <= ESN_COUNT
    ensures match FirstMatch(wanted, WordOf(first), lane)
      case Some(w) =>
        var v := NatOf(w);
        first + lane <= v < first + LANES && Numbered(wanted)(v)
        && forall u: nat :: first + lane <= u < v ==> !Numbered(wanted)(u)
      case None => forall u: nat :: first + lane <= u < first + LANES ==> !Numbered(wanted)(u)
    decreases LANES - lane
  {
    hide WordOf, NatOf, Candidate;
    if lane < LANES {
      CandidateIsNumber(first, lane);
      NatOfWordOf(first + lane);
      FirstMatchIsLeast(wanted, first, lane + 1);
    }
  }

  /** One batch of eight words finds exactly what the sweep over numbers needs. */
  lemma EightLanesFind(wanted: word -> bool, first: nat)
    requires first % LANES == 0 && first < ESN_COUNT
    ensures match BatchMatch(wanted)(first)
      case Some(v) => first <= v < first + LANES && Numbered(wanted)(v)
        && forall u: nat :: first <= u < v ==> !Numbered(wanted)(u)
      case None => forall u: nat :: first <= u < first + LANES ==> !Numbered(wanted)(u)
  {
    hide WordOf, NatOf, FirstMatch, Numbered;
    BatchInside(LANES, first);
    FirstMatchIsLeast(wanted, first, 0);
  }

  /** A 32-bit search for a wanted word under any schedule: it finds one if there is one, and only wanted ones. */
  lemma SearchWords(threads: nat, progress: bool, wanted: word -> bool, run: seq<State>)
    requires threads >= 1 && Run(EightLanes(threads, progress, wanted), run) && AllDone(run[|run| - 1])
    ensures match Finish(run[|run| - 1])
      case Found(value) => value < ESN_COUNT && wanted(WordOf(value))
      case NotFound => forall w: word :: !wanted(w)
      case Rethrown => run[|run| - 1].thrown && progress
  {
    hide WordOf, NatOf, FirstMatch, BatchMatch;
    var c := EightLanes(threads, progress, wanted);
    assert BatchFinds(c, Numbered(wanted)) by {
      hide Numbered;
      forall first: nat | first % LANES == 0 && first < ESN_COUNT
        ensures match BatchMatch(wanted)(first)
          case Some(v) => first <= v < first + LANES && Numbered(wanted)(v)
            && forall u: nat :: first <= u < v ==> !Numbered(wanted)(u)
          case None => forall u: nat :: first <= u < first + LANES ==> !Numbered(wanted)(u)
      {
        EightLanesFind(wanted, first);
      }
    }
    SearchCorrect(c, run, Numbered(wanted));
    if Finish(run[|run| - 1]).NotFound? {
      forall w: word
        ensures !wanted(w)
      {
        NatOfBound(w);
        WordOfNatOf(w);
        assert !Numbered(wanted)(NatOf(w));
      }
    }
  }

  /** With a single wanted word, every schedule returns it. */
  lemma SearchUniqueWord(threads: nat, progress: bool, wanted: word -> bool, run: seq<State>, esn: word)
    requires threads >= 1 && Run(EightLanes(threads, progress, wanted), run)
    requires AllDone(run[|run| - 1]) && !run[|run| - 1].thrown
    requires wanted(esn) && forall w: word :: wanted(w) ==> w == esn
    ensures Finish(run[|run| - 1]) == Found(NatOf(esn))
  {
    hide WordOf, NatOf, EightLanes;
    SearchWords(threads, progress, wanted, run);
    var verdict := Finish(run[|run| - 1]);
    assert verdict.Found?;
    NatOfWordOf(verdict.value);
  }
}
