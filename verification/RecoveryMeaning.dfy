/** Which searches recoverEsn makes, in which order, and what it returns: the declarative reading of
    src/siemens/bruteforce.cpp, without the plan. */
module RecoveryMeaning {
  import opened Wrappers
  import opened Bytes
  import opened Cipher
  import opened Md5
  import opened Imei
  import opened Keys
  import opened Records
  import opened Recovery
  import opened EsnRecovery
  import opened Recalc
  import opened RecalcMeaning
  import Fullflash
  import Md5Vectors

  type Blocks = nat -> Option<seq<byte>>

  /** A stored value of `size` bytes that is not all 0xFF. */
  ghost predicate Written(block: Option<seq<byte>>, size: nat) {
    block.Some? && |block.value| == size && exists k :: 0 <= k < size && block.value[k] != 0xFF
  }

  /** Eight bytes from `from` on are stored and not all 0xFF. */
  ghost predicate Marked(block: Option<seq<byte>>, from: nat) {
    block.Some? && |block.value| >= from + 8 && exists k :: from <= k < from + 8 && block.value[k] != 0xFF
  }

  /** What search `i` is called in progress reports. */
  function HowOf(i: nat): EsnMethod
    requires i < 7
  {
    [Block5468, BkeyMethod, HashMethod, Block5008, Block5121, Block5123, Block5077][i]
  }

  /** Search `i` of seven is made: what it searches is there, and for the last four so is an IMEI. */
  ghost predicate Made(info: Fullflash.Info, read: Blocks, i: nat) {
    match i
    case 0 => read(5468).Some? && |read(5468).value| == 0x31 && read(5468).value[16] == 0x58
    case 1 => |info.skey| == 4 && |info.bkey| == 16
    case 2 => |info.skey| == 4 && |info.bkey| != 16 && |info.hash| == 16
    case 3 => |info.imei| == 15 && Written(read(5008), 0xE0)
    case 4 => |info.imei| == 15 && |info.skey| == 4 && Marked(read(5121), 0)
    case 5 => |info.imei| == 15 && |info.skey| == 4 && Marked(read(5123), 4)
    case 6 => |info.imei| == 15 && Written(read(5077), 0xE8)
    case _ => false
  }

  /** Search `i` is made and accepts the word. */
  ghost predicate Accepted(info: Fullflash.Info, read: Blocks, i: nat, w: word) {
    && Made(info, read, i)
    && match i
       case 0 => Md5Of(U32(w)) == read(5468).value[17..33]
       case 1 => Derives(info.bkey, false, ReadU32(info.skey, 0), w)
       case 2 => Derives(info.hash, true, ReadU32(info.skey, 0), w)
       case 3 => Opens5008(read(5008).value, read(5077), info.imei, w)
       case 4 => Unlocks(read(5121).value[0..8], info.imei, ReadU32(info.skey, 0), w)
       case 5 => Unlocks(read(5123).value[4..12], info.imei, ReadU32(info.skey, 0), w)
       case _ => Opens5077(read(5077).value, info.imei, w)
  }

  // ----- What a search accepts -----

  /** The two bytes behind a range are its sum and its XOR. */
  ghost predicate Summed(d: seq<byte>, from: nat, to: nat)
    requires from <= to && to + 2 <= |d|
  {
    d[to] == SumOf(d[from..to]) && d[to + 1] == XorOf(d[from..to])
  }

  /** The 16 bytes made of the word and the SKEY hash to the BKEY, or twice to the HASH. */
  ghost predicate Derives(digest: seq<byte>, twice: bool, skey: word, w: word) {
    var once := Md5Of(DerivationBlock(w, skey));
    digest == if twice then Md5Of(once) else once
  }

  /** Under the first key of the SKEY and the word the marker is the fixed one. */
  ghost predicate Unlocks(marker: seq<byte>, imei: ImeiText, skey: word, w: word) {
    Decrypt(marker, CipherKey1(skey, w, PackImei(imei))) == [0x2D, 0x74, 0xC5, 0x77, 0xDA, 0x4A, 0x9A, 0xF4]
  }

  /** Both streams of block 5008 are summed, and so is block 5077 when it is written. */
  ghost predicate Opens5008(b5008: Bytes5008, b5077: Option<seq<byte>>, imei: ImeiText, w: word) {
    var key := EepromKey(w, imei);
    && Summed(Decrypt(b5008[..0x20], key), 8, 0x1E) && Summed(Decrypt(b5008[0x20..], key), 8, 0xB8)
    && (Written(b5077, 0xE8) ==> Summed(Decrypt(b5077.value, key), 8, 0xE0))
  }

  /** Block 5077 is summed and ends with six fixed bytes. */
  ghost predicate Opens5077(b5077: Bytes5077, imei: ImeiText, w: word) {
    var d := Decrypt(b5077, EepromKey(w, imei));
    Summed(d, 8, 0xE0) && d[0xE2..] == [0x3D, 0x06, 0x06, 0x0B, 0x80, 0xF3]
  }

  lemma UnlocksMeans(marker: Packed, imei: ImeiText, skey: word, w: word)
    ensures MarkerMatches(marker, imei, skey, w) <==> Unlocks(marker, imei, skey, w)
  {
    hide Decrypt, CipherKey1, PackImei;
    MarkerBytes();
  }

  lemma MarkerBytes()
    ensures Marker(0) == [0x2D, 0x74, 0xC5, 0x77, 0xDA, 0x4A, 0x9A, 0xF4]
  {
    MarkerZero();
  }

  lemma Opens5008Means(b5008: Bytes5008, b5077: Option<seq<byte>>, imei: ImeiText, w: word)
    ensures Matches5008(b5008, if b5077.Some? then b5077.value else [], imei, w) <==> Opens5008(b5008, b5077, imei, w)
  {
    hide Decrypt, EepromKey, SumOf, XorOf;
  }

  lemma Opens5077Means(b5077: Bytes5077, imei: ImeiText, w: word)
    ensures Matches5077(b5077, imei, w) <==> Opens5077(b5077, imei, w)
  {
    hide Decrypt, EepromKey, SumOf, XorOf;
  }

  lemma DerivesMeans(bkey: bool, digest: seq<byte>, skey: word, w: word)
    ensures BkeyMatches(bkey, digest, skey, w) <==> Derives(digest, !bkey, skey, w)
  {
    hide Md5Of, DerivationBlock;
  }

  // ----- The plan lists these searches -----

  /** The attempt is search `i`. */
  ghost predicate IsSearch(info: Fullflash.Info, read: Blocks, attempt: Attempt, i: nat) {
    && i < 7 && Made(info, read, i) && attempt.how == HowOf(i)
    && forall w :: attempt.wanted(w) <==> Accepted(info, read, i, w)
  }

  /** The attempts are, in order, the searches made among those numbered `lo` to `hi - 1`. */
  ghost predicate Lists(info: Fullflash.Info, read: Blocks, plan: seq<Attempt>, numbers: seq<nat>, lo: nat, hi: nat) {
    && |plan| == |numbers|
    && (forall k :: 0 <= k < |plan| ==> lo <= numbers[k] < hi && IsSearch(info, read, plan[k], numbers[k]))
    && (forall j, k :: 0 <= j < k < |numbers| ==> numbers[j] < numbers[k])
    && (forall i :: lo <= i < hi && Made(info, read, i) ==> i in numbers)
  }

  lemma ListsInTwo(info: Fullflash.Info, read: Blocks, a: seq<Attempt>, m: seq<nat>, b: seq<Attempt>, n: seq<nat>,
      lo: nat, mid: nat, hi: nat)
    requires lo <= mid <= hi && Lists(info, read, a, m, lo, mid) && Lists(info, read, b, n, mid, hi)
    ensures Lists(info, read, a + b, m + n, lo, hi)
  {
    hide IsSearch, Made;
  }

  lemma Lists5468(info: Fullflash.Info, read: Blocks) returns (numbers: seq<nat>)
    ensures Lists(info, read, Attempt5468(read(5468)), numbers, 0, 1)
  {
    hide Md5Of, U32;
    numbers := if Made(info, read, 0) then [0] else [];
  }

  lemma ListsBkey(info: Fullflash.Info, read: Blocks) returns (numbers: seq<nat>)
    ensures Lists(info, read, AttemptBkey(info.skey, info.bkey, info.hash), numbers, 1, 3)
  {
    hide BkeyMatches, Derives, ReadU32;
    forall skey, w
      ensures BkeyMatches(true, info.bkey, skey, w) <==> Derives(info.bkey, false, skey, w)
      ensures BkeyMatches(false, info.hash, skey, w) <==> Derives(info.hash, true, skey, w)
    {
      DerivesMeans(true, info.bkey, skey, w);
      DerivesMeans(false, info.hash, skey, w);
    }
    numbers := if Made(info, read, 1) then [1] else if Made(info, read, 2) then [2] else [];
  }

  lemma Lists5008(info: Fullflash.Info, read: Blocks) returns (numbers: seq<nat>)
    requires |info.imei| == 15
    ensures Lists(info, read, Attempt5008(info.imei, read(5008), read(5077)), numbers, 3, 4)
  {
    hide Matches5008, Opens5008;
    forall w | Made(info, read, 3)
      ensures var b5077 := if read(5077).Some? then read(5077).value else [];
        Matches5008(read(5008).value, b5077, info.imei, w) <==> Opens5008(read(5008).value, read(5077), info.imei, w)
    {
      Opens5008Means(read(5008).value, read(5077), info.imei, w);
    }
    numbers := if Made(info, read, 3) then [3] else [];
  }

  lemma Lists5121(info: Fullflash.Info, read: Blocks) returns (numbers: seq<nat>)
    requires |info.imei| == 15
    ensures Lists(info, read, AttemptMarker(Block5121, info.imei, info.skey, read(5121), 0), numbers, 4, 5)
  {
    hide MarkerMatches, Unlocks, ReadU32;
    forall w | Made(info, read, 4)
      ensures MarkerMatches(read(5121).value[0..8], info.imei, ReadU32(info.skey, 0), w) <==>
        Unlocks(read(5121).value[0..8], info.imei, ReadU32(info.skey, 0), w)
    {
      UnlocksMeans(read(5121).value[0..8], info.imei, ReadU32(info.skey, 0), w);
    }
    numbers := if Made(info, read, 4) then [4] else [];
  }

  lemma Lists5123(info: Fullflash.Info, read: Blocks) returns (numbers: seq<nat>)
    requires |info.imei| == 15
    ensures Lists(info, read, AttemptMarker(Block5123, info.imei, info.skey, read(5123), 4), numbers, 5, 6)
  {
    hide MarkerMatches, Unlocks, ReadU32;
    forall w | Made(info, read, 5)
      ensures MarkerMatches(read(5123).value[4..12], info.imei, ReadU32(info.skey, 0), w) <==>
        Unlocks(read(5123).value[4..12], info.imei, ReadU32(info.skey, 0), w)
    {
      UnlocksMeans(read(5123).value[4..12], info.imei, ReadU32(info.skey, 0), w);
    }
    numbers := if Made(info, read, 5) then [5] else [];
  }

  lemma Lists5077(info: Fullflash.Info, read: Blocks) returns (numbers: seq<nat>)
    requires |info.imei| == 15
    ensures Lists(info, read, Attempt5077(info.imei, read(5077)), numbers, 6, 7)
  {
    hide Matches5077, Opens5077;
    forall w | Made(info, read, 6)
      ensures Matches5077(read(5077).value, info.imei, w) <==> Opens5077(read(5077).value, info.imei, w)
    {
      Opens5077Means(read(5077).value, info.imei, w);
    }
    numbers := if Made(info, read, 6) then [6] else [];
  }

  lemma ListsSlow(info: Fullflash.Info, read: Blocks) returns (numbers: seq<nat>)
    requires |info.imei| == 15
    ensures Lists(info, read, SlowPlan(info.imei, info.skey, read), numbers, 3, 7)
  {
    hide Lists, Attempt5008, AttemptMarker, Attempt5077;
    var a := Lists5008(info, read);
    var b := Lists5121(info, read);
    var c := Lists5123(info, read);
    var d := Lists5077(info, read);
    var second, third := AttemptMarker(Block5121, info.imei, info.skey, read(5121), 0),
      AttemptMarker(Block5123, info.imei, info.skey, read(5123), 4);
    var fourth := Attempt5077(info.imei, read(5077));
    ListsInTwo(info, read, third, c, fourth, d, 5, 6, 7);
    ListsInTwo(info, read, second, b, third + fourth, c + d, 4, 5, 7);
    ListsInTwo(info, read, Attempt5008(info.imei, read(5008), read(5077)), a, second + (third + fourth), b + (c + d),
      3, 4, 7);
    numbers := a + (b + (c + d));
  }

  lemma ListsNone(info: Fullflash.Info, read: Blocks)
    requires |info.imei| != 15
    ensures Lists(info, read, [], [], 3, 7)
  {
  }

  /** The plan is, in order, the searches made, each accepting what it should and reported by its name. */
  lemma PlanLists(info: Fullflash.Info, read: Blocks) returns (numbers: seq<nat>)
    ensures Lists(info, read, PlanOf(info, read), numbers, 0, 7)
  {
    hide Lists, Attempt5468, AttemptBkey, SlowPlan;
    var a := Lists5468(info, read);
    var b := ListsBkey(info, read);
    var slow := if |info.imei| == 15 then SlowPlan(info.imei, info.skey, read) else [];
    var c := [];
    if |info.imei| == 15 {
      c := ListsSlow(info, read);
    } else {
      ListsNone(info, read);
    }
    var fast := AttemptBkey(info.skey, info.bkey, info.hash);
    ListsInTwo(info, read, fast, b, slow, c, 1, 3, 7);
    ListsInTwo(info, read, Attempt5468(read(5468)), a, fast + slow, b + c, 0, 1, 7);
    numbers := a + (b + c);
  }

  // ----- What recoverEsn returns -----

  /** No search before number `end` accepts any word. */
  ghost predicate NothingBefore(info: Fullflash.Info, read: Blocks, end: nat) {
    forall i, w :: 0 <= i < end ==> !Accepted(info, read, i, w)
  }

  /** Search `i` is made, no earlier one accepts a word, and a word returned is one it accepts. */
  ghost predicate Decides(info: Fullflash.Info, read: Blocks, i: nat, r: Recovered)
    requires r != Success(None)
  {
    Made(info, read, i) && NothingBefore(info, read, i) && (r.Success? ==> Accepted(info, read, i, r.value.value))
  }

  lemma HitMeans(info: Fullflash.Info, read: Blocks, plan: seq<Attempt>, numbers: seq<nat>, r: Recovered)
    requires Lists(info, read, plan, numbers, 0, 7) && FirstHit(plan, r)
    ensures r == Success(None) ==> NothingBefore(info, read, 7)
    ensures r != Success(None) ==> exists i :: 0 <= i < 7 && Decides(info, read, i, r)
  {
    hide Made;
    if r == Success(None) {
      NoneAccepted(info, read, plan, numbers, |plan|, 7);
    } else {
      var k :| 0 <= k < |plan| && NoneWanted(plan[..k]) && (r.Success? ==> plan[k].wanted(r.value.value));
      assert IsSearch(info, read, plan[k], numbers[k]);
      NoneAccepted(info, read, plan, numbers, k, numbers[k]);
      assert Decides(info, read, numbers[k], r);
    }
  }

  lemma AcceptedIsMade(info: Fullflash.Info, read: Blocks, i: nat, w: word)
    ensures Accepted(info, read, i, w) ==> Made(info, read, i)
  {
    hide Made;
  }

  lemma NoneAccepted(info: Fullflash.Info, read: Blocks, plan: seq<Attempt>, numbers: seq<nat>, k: nat, end: nat)
    requires Lists(info, read, plan, numbers, 0, 7) && k <= |plan| && NoneWanted(plan[..k])
    requires end == if k < |plan| then numbers[k] else 7
    ensures NothingBefore(info, read, end)
  {
    hide Made, Accepted;
    forall i, w | 0 <= i < end
      ensures !Accepted(info, read, i, w)
    {
      AcceptedIsMade(info, read, i, w);
      if Made(info, read, i) {
        var j :| 0 <= j < |numbers| && numbers[j] == i;
        assert j < k && plan[..k][j] == plan[j];
        assert IsSearch(info, read, plan[j], i);
      }
    }
  }

  /**
   * The HASH that the known ESN 0x12345678 leaves answers at once. Otherwise the seven searches are gone through in
   * order, each when it can be made: none accepts a word when the answer is "not found", and a word found is accepted
   * by a search that no other with an acceptable word precedes.
   */
  lemma RecoversMeans(info: Fullflash.Info, read: Blocks, reportsThrow: bool, r: Recovered)
    requires Recovers(info, read, reportsThrow, r)
    ensures
      if info.hash == [0x54, 0xF8, 0x0A, 0xC1, 0x2A, 0xCD, 0x94, 0xB2, 0xF5, 0xCF, 0xFB, 0x9B, 0xF7, 0xE4, 0xD4, 0x93]
      then r == if reportsThrow then Failure(CallbackError) else Success(Some(0x12345678))
      else if r == Success(None) then NothingBefore(info, read, 7)
      else exists i :: 0 <= i < 7 && Decides(info, read, i, r)
  {
    hide PlanOf, FirstHit, Lists, Made, Accepted;
    if info.hash != RECALCULATED_HASH {
      var numbers := PlanLists(info, read);
      HitMeans(info, read, PlanOf(info, read), numbers, r);
    }
  }

  // ----- The keys used by default -----

  /**
   * ESN 0x12345678 and SKEY 12345678 derive the very HASH that is recognised at once, so an image cleanly recalculated
   * with them gives that ESN back without a search, whatever its blocks.
   */
  lemma DefaultKeysRecovered(d: seq<byte>, keys: Keys, reportsThrow: bool, r: Recovered)
    requires keys.esn == 0x12345678 && keys.skey == 12345678 && CleanlyRecalculated(d, keys)
    ensures var out, index := Recalculate(d, IdentityOf(keys)).0, IndexAfterFields(d, IdentityOf(keys));
      var info, read := Fullflash.InfoOf(out, Fullflash.Reader(out, index)), Fullflash.Reader(out, index);
      info.Some? && Recovers(info.value, read, reportsThrow, r) ==>
        r == if reportsThrow then Failure(CallbackError) else Success(Some(0x12345678))
  {
    hide Fullflash.Reader, Fullflash.InfoOf, Recalculate, IndexAfterFields, PlanOf, FirstHit, AllWant, HashOf, Bkey,
      Parses, Undisturbed, WritesAgree, Clean, Attempt5468, AttemptBkey, U32;
    FastPlanWants(d, keys);
    Md5Vectors.KnownIdentity();
  }
}
