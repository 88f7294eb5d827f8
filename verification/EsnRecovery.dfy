/** The order of the ESN searches, and why a recalculated image gives its ESN back (src/siemens/bruteforce.cpp). */
module EsnRecovery {
  import opened Wrappers
  import opened Bytes
  import opened Directory
  import opened BlockIndex
  import opened EepromStore
  import opened Imei
  import opened Keys
  import opened Md5
  import opened Records
  import opened Candidates
  import opened Fullflash
  import opened Recovery
  import opened Recalc
  import opened RecalcMeaning
  import Cipher
  import ImeiBlock
  import Search

  datatype EsnMethod = Block5468 | BkeyMethod | HashMethod | Block5008 | Block5121 | Block5123 | Block5077

  /** One search: how it is reported, and which candidates it accepts. */
  datatype Attempt = Attempt(how: EsnMethod, wanted: word -> bool)

  const RECALCULATED_HASH: seq<byte> :=
    [0x54, 0xF8, 0x0A, 0xC1, 0x2A, 0xCD, 0x94, 0xB2, 0xF5, 0xCF, 0xFB, 0x9B, 0xF7, 0xE4, 0xD4, 0x93]
  const RECALCULATED_ESN: word := 0x12345678

  // ----- Which searches are made -----

  function Attempt5468(block: Option<seq<byte>>): seq<Attempt> {
    if block.Some? && |block.value| == 0x31 && block.value[16] == 0x58
    then [Attempt(Block5468, WantHash(block.value[17..33]))] else []
  }

  /** BKEY is preferred to HASH; either needs the SKEY. */
  function AttemptBkey(skey: seq<byte>, bkey: seq<byte>, hash: seq<byte>): seq<Attempt> {
    if |skey| != 4 then []
    else if |bkey| == 16 then [Attempt(BkeyMethod, WantBkey(true, bkey, ReadU32(skey, 0)))]
    else if |hash| == 16 then [Attempt(HashMethod, WantBkey(false, hash, ReadU32(skey, 0)))]
    else []
  }

  function OrEmpty(block: Option<seq<byte>>): seq<byte> {
    if block.Some? then block.value else []
  }

  function Attempt5008(imei: ImeiText, block: Option<seq<byte>>, block5077: Option<seq<byte>>): seq<Attempt> {
    if block.Some? && |block.value| == 0xE0 && !IsErased(block.value)
    then [Attempt(Block5008, Want5008(block.value, OrEmpty(block5077), imei))] else []
  }

  /** The marker of block 5121 or 5123, at byte `from`. */
  function AttemptMarker(how: EsnMethod, imei: ImeiText, skey: seq<byte>, block: Option<seq<byte>>, from: nat)
      : seq<Attempt>
  {
    if |skey| == 4 && block.Some? && |block.value| >= from + 8 && !IsErased(block.value[from..from + 8])
    then [Attempt(how, WantMarker(block.value[from..from + 8], imei, ReadU32(skey, 0)))] else []
  }

  function Attempt5077(imei: ImeiText, block: Option<seq<byte>>): seq<Attempt> {
    if block.Some? && |block.value| == 0xE8 && !IsErased(block.value)
    then [Attempt(Block5077, Want5077(block.value, imei))] else []
  }

  function SlowPlan(imei: ImeiText, skey: seq<byte>, read: nat -> Option<seq<byte>>): seq<Attempt> {
    Attempt5008(imei, read(5008), read(5077)) + (AttemptMarker(Block5121, imei, skey, read(5121), 0)
      + (AttemptMarker(Block5123, imei, skey, read(5123), 4) + Attempt5077(imei, read(5077))))
  }

  /** Every search recoverEsn may make, in order. */
  function PlanOf(info: Info, read: nat -> Option<seq<byte>>): seq<Attempt> {
    Attempt5468(read(5468)) + (AttemptBkey(info.skey, info.bkey, info.hash)
      + if |info.imei| == 15 then SlowPlan(info.imei, info.skey, read) else [])
  }

  // ----- The outcome of a search, and of the whole -----

  /** What a progress callback threw. */
  datatype CallbackError = CallbackError

  type Recovered = Result<Option<word>, CallbackError>

  /** What every 32-bit search guarantees unless its callback throws: a wanted word if there is one. */
  ghost predicate Outcome(wanted: word -> bool, r: Recovered) {
    match r
    case Failure(_) => true
    case Success(found) => if found.Some? then wanted(found.value) else forall w: word :: !wanted(w)
  }

  function OutcomeOf(verdict: Search.Verdict): Recovered {
    match verdict
    case Rethrown => Failure(CallbackError)
    case NotFound => Success(None)
    case Found(value) => Success(Some(WordOf(value)))
  }

  /** Any schedule of the threads asked for is such a search, and only one with a callback fails. */
  lemma EveryRunIsAnOutcome(requested: nat, hardware: nat, progress: bool, wanted: word -> bool, run: seq<Search.State>)
    requires Search.Run(EightLanes(Search.ThreadCount(requested, hardware), progress, wanted), run)
    requires Search.AllDone(run[|run| - 1])
    ensures Outcome(wanted, OutcomeOf(Search.Finish(run[|run| - 1])))
    ensures OutcomeOf(Search.Finish(run[|run| - 1])).Failure? ==> progress
  {
    hide WordOf, EightLanes;
    SearchWords(Search.ThreadCount(requested, hardware), progress, wanted, run);
  }

  ghost predicate NoneWanted(plan: seq<Attempt>) {
    forall k, w: word :: 0 <= k < |plan| ==> !plan[k].wanted(w)
  }

  /** The first attempt that wants anything at all gives the result, or one before it threw. */
  ghost predicate FirstHit(plan: seq<Attempt>, r: Recovered) {
    if r == Success(None) then NoneWanted(plan)
    else exists k :: 0 <= k < |plan| && NoneWanted(plan[..k]) && (r.Success? ==> plan[k].wanted(r.value.value))
  }

  lemma FirstHitInTwo(a: seq<Attempt>, b: seq<Attempt>, first: Recovered, second: Recovered)
    requires FirstHit(a, first) && (first == Success(None) ==> FirstHit(b, second))
    ensures FirstHit(a + b, if first == Success(None) then second else first)
  {
    if first != Success(None) {
      var k :| 0 <= k < |a| && NoneWanted(a[..k]) && (first.Success? ==> a[k].wanted(first.value.value));
      assert (a + b)[..k] == a[..k] && (a + b)[k] == a[k];
    } else if second != Success(None) {
      var k :| 0 <= k < |b| && NoneWanted(b[..k]) && (second.Success? ==> b[k].wanted(second.value.value));
      assert (a + b)[..|a| + k] == a + b[..k] && (a + b)[|a| + k] == b[k];
    }
  }

  /** What recoverEsn may return; `reportsThrow` tells whether the callback throws on the two known-HASH reports. */
  ghost predicate Recovers(info: Info, read: nat -> Option<seq<byte>>, reportsThrow: bool, r: Recovered) {
    if info.hash == RECALCULATED_HASH then
      r == if reportsThrow then Failure(CallbackError) else Success(Some(RECALCULATED_ESN))
    else
      FirstHit(PlanOf(info, read), r)
  }

  /** One search, when there is one to make. */
  method Try(attempts: seq<Attempt>, search: Attempt -> Recovered) returns (r: Recovered)
    requires |attempts| <= 1 && forall attempt: Attempt :: Outcome(attempt.wanted, search(attempt))
    ensures FirstHit(attempts, r)
  {
    if attempts == [] {
      return Success(None);
    }
    r := search(attempts[0]);
    assert Outcome(attempts[0].wanted, r);
    assert attempts[..0] == [];
  }

  /** recoverEsn; `search` is any 32-bit search that keeps its guarantee. */
  method RecoverEsn(eeprom: Eeprom, info: Info, search: Attempt -> Recovered, reportsThrow: bool) returns (r: Recovered)
    requires eeprom.Valid() && forall attempt: Attempt :: Outcome(attempt.wanted, search(attempt))
    ensures AllFit(eeprom.blocks, eeprom.data.Length)
    ensures Recovers(info, Reader(eeprom.data[..], eeprom.blocks), reportsThrow, r)
  {
    hide Attempt5468, AttemptBkey, SlowPlan, Reader, FirstHit;
    ValidFits(eeprom);
    ghost var read := Reader(eeprom.data[..], eeprom.blocks);
    if info.hash == RECALCULATED_HASH {
      if reportsThrow {
        return Failure(CallbackError);
      }
      return Success(Some(RECALCULATED_ESN));
    }
    var block5468 := ReadOptional(eeprom, 5468);
    AtMostOne(block5468, info);
    var first := Try(Attempt5468(block5468), search);
    ghost var fast := AttemptBkey(info.skey, info.bkey, info.hash);
    ghost var slow := if |info.imei| == 15 then SlowPlan(info.imei, info.skey, read) else [];
    if first != Success(None) {
      FirstHitInTwo(Attempt5468(block5468), fast + slow, first, first);
      return first;
    }
    var second := Try(AttemptBkey(info.skey, info.bkey, info.hash), search);
    if second != Success(None) {
      FirstHitInTwo(fast, slow, second, second);
      FirstHitInTwo(Attempt5468(block5468), fast + slow, first, second);
      return second;
    }
    r := Success(None);
    if |info.imei| == 15 {
      r := RecoverSlowly(eeprom, info.imei, info.skey, search);
    } else {
      NothingPlanned();
    }
    FirstHitInTwo(fast, slow, second, r);
    FirstHitInTwo(Attempt5468(block5468), fast + slow, first, r);
  }

  lemma NothingPlanned()
    ensures FirstHit([], Success(None))
  {
  }

  lemma AtMostOne(block5468: Option<seq<byte>>, info: Info)
    ensures |Attempt5468(block5468)| <= 1 && |AttemptBkey(info.skey, info.bkey, info.hash)| <= 1
  {
    hide ReadU32;
  }

  /** The searches that need the IMEI. */
  method RecoverSlowly(eeprom: Eeprom, imei: ImeiText, skey: seq<byte>, search: Attempt -> Recovered)
      returns (r: Recovered)
    requires eeprom.Valid() && forall attempt: Attempt :: Outcome(attempt.wanted, search(attempt))
    ensures AllFit(eeprom.blocks, eeprom.data.Length)
    ensures FirstHit(SlowPlan(imei, skey, Reader(eeprom.data[..], eeprom.blocks)), r)
  {
    hide Reader, FirstHit, Attempt5008, AttemptMarker, Attempt5077;
    ValidFits(eeprom);
    ghost var read := Reader(eeprom.data[..], eeprom.blocks);
    ghost var b := AttemptMarker(Block5121, imei, skey, read(5121), 0);
    ghost var c, d := AttemptMarker(Block5123, imei, skey, read(5123), 4), Attempt5077(imei, read(5077));
    AtMostOneSlow(imei, skey, read(5008), read(5077), read(5121), read(5123));
    var block5077 := ReadOptional(eeprom, 5077);
    var block5008 := ReadOptional(eeprom, 5008);
    ghost var a := Attempt5008(imei, block5008, block5077);
    var first := Try(Attempt5008(imei, block5008, block5077), search);
    if first != Success(None) {
      FirstHitInTwo(a, b + (c + d), first, first);
      return first;
    }
    var block5121 := ReadOptional(eeprom, 5121);
    var second := Try(AttemptMarker(Block5121, imei, skey, block5121, 0), search);
    if second != Success(None) {
      FirstHitInTwo(b, c + d, second, second);
      FirstHitInTwo(a, b + (c + d), first, second);
      return second;
    }
    var block5123 := ReadOptional(eeprom, 5123);
    var third := Try(AttemptMarker(Block5123, imei, skey, block5123, 4), search);
    if third != Success(None) {
      FirstHitInTwo(c, d, third, third);
      FirstHitInTwo(b, c + d, second, third);
      FirstHitInTwo(a, b + (c + d), first, third);
      return third;
    }
    r := Try(Attempt5077(imei, block5077), search);
    FirstHitInTwo(c, d, third, r);
    FirstHitInTwo(b, c + d, second, r);
    FirstHitInTwo(a, b + (c + d), first, r);
  }

  lemma AtMostOneSlow(imei: ImeiText, skey: seq<byte>, b5008: Option<seq<byte>>, b5077: Option<seq<byte>>,
                      b5121: Option<seq<byte>>, b5123: Option<seq<byte>>)
    ensures |Attempt5008(imei, b5008, b5077)| <= 1 && |Attempt5077(imei, b5077)| <= 1
    ensures |AttemptMarker(Block5121, imei, skey, b5121, 0)| <= 1
      && |AttemptMarker(Block5123, imei, skey, b5123, 4)| <= 1
  {
    hide ReadU32, IsErased;
  }

  // ----- A recalculated image gives its ESN back -----

  ghost predicate AllWant(plan: seq<Attempt>, esn: word) {
    forall k :: 0 <= k < |plan| ==> plan[k].wanted(esn)
  }

  lemma AllWantInTwo(a: seq<Attempt>, b: seq<Attempt>, esn: word)
    requires AllWant(a, esn) && AllWant(b, esn)
    ensures AllWant(a + b, esn)
  {
  }

  /** The IMEI enters the cipher keys by its first 14 characters only. */
  lemma PackPrefix(x: ImeiText, y: ImeiText)
    requires x[..14] == y[..14]
    ensures PackImei(x) == PackImei(y)
  {
    hide Nibble;
    assert forall i :: 0 <= i < 14 ==> x[i] == x[..14][i] == y[..14][i] == y[i];
    assert forall i: nat :: i < 8 ==> PackedByte(x, i) == PackedByte(y, i);
  }

  lemma SamePacking(x: ImeiText, y: ImeiText, esn: word)
    requires PackImei(x) == PackImei(y)
    ensures Record5008(x, esn) == Record5008(y, esn) && Record5077(x, esn) == Record5077(y, esn)
  {
    hide PackImei, U32, KeyEep, Plain5008, Plain5077, Cipher.Encrypt;
  }

  /** The words the searches read back are the ones that were stored. */
  lemma SkeyRoundTrip(skey: word)
    ensures SkeyOf(Some(Record5122(skey))) == U32(skey) && ReadU32(U32(skey), 0) == skey
  {
    U32RoundTrip(skey);
    hide U32, ReadU32;
  }

  lemma Wants5468(keys: Keys, bkey: seq<byte>, block: Option<seq<byte>>)
    requires |bkey| == 16 && (block.Some? && |block.value| == 0x31 ==> block.value == Record5468(keys, bkey))
    ensures AllWant(Attempt5468(block), keys.esn)
  {
    hide Record5468, WantHash;
    Accepts5468(keys, bkey);
  }

  /** With its BKEY, or without one by its HASH. */
  lemma WantsBkey(esn: word, skey: word, bkey: seq<byte>)
    requires bkey == Bkey(esn, skey) || bkey == []
    ensures AllWant(AttemptBkey(U32(skey), bkey, HashOf(esn, skey)), esn)
    ensures |AttemptBkey(U32(skey), bkey, HashOf(esn, skey))| == 1
  {
    hide Bkey, U32, ReadU32;
    SkeyRoundTrip(skey);
  }

  lemma Wants5008(imei: ImeiText, esn: word, b5008: Option<seq<byte>>, b5077: Option<seq<byte>>)
    requires b5008 == Some(Record5008(imei, esn)) && b5077 == Some(Record5077(imei, esn))
    ensures AllWant(Attempt5008(imei, b5008, b5077), esn)
  {
    hide Record5008, Record5077, Want5008, IsErased;
    Accepts5008(imei, esn, OrEmpty(b5077));
  }

  lemma Wants5077(imei: ImeiText, esn: word, b5077: Option<seq<byte>>)
    requires b5077 == Some(Record5077(imei, esn))
    ensures AllWant(Attempt5077(imei, b5077), esn)
  {
    hide Record5077, Want5077, IsErased;
    Accepts5077(imei, esn);
  }

  lemma WantsMarker(how: EsnMethod, keys: Keys, imei: ImeiText, block: Option<seq<byte>>, from: nat)
    requires block.Some? && |block.value| >= from + 8 && block.value[from..from + 8] == Record5121(keys)[..8]
    requires PackImei(imei) == PackImei(keys.imei)
    ensures AllWant(AttemptMarker(how, imei, U32(keys.skey), block, from), keys.esn)
  {
    hide Record5121, U32, ReadU32, IsErased, PackImei, CipherKey1, Cipher.Decrypt, Marker;
    SkeyRoundTrip(keys.skey);
    Accepts5121(keys);
  }

  /** Every required block is there with its size, and every replaced block reads its record. */
  ghost predicate HoldsRecords(out: seq<byte>, index: Index, blocks: seq<GeneratedBlock>)
    requires AllFit(index, |out|)
  {
    AllStored(out, index, blocks, |blocks|) && CompleteTo(index, blocks, |blocks|)
  }

  lemma StoredReads(out: seq<byte>, index: Index, blocks: seq<GeneratedBlock>, k: nat)
    requires AllFit(index, |out|) && AllStored(out, index, blocks, |blocks|) && k < |blocks|
    ensures Replaces(index, blocks[k]) ==> Reader(out, index)(blocks[k].id) == Some(blocks[k].data)
    ensures CompleteTo(index, blocks, |blocks|) && blocks[k].required ==>
      Reader(out, index)(blocks[k].id) == Some(blocks[k].data)
    ensures var r := Reader(out, index)(blocks[k].id); r.Some? && |r.value| == |blocks[k].data| ==>
      r == Some(blocks[k].data)
  {
    hide Payload;
    var id := blocks[k].id;
    if id in index {
      assert |Payload(out, index[id])| == index[id].size;
    }
  }

  lemma SlowPlanWants(out: seq<byte>, index: Index, keys: Keys, short: bool, blocks: seq<GeneratedBlock>,
      imei: ImeiText)
    requires AllFit(index, |out|) && HoldsRecords(out, index, blocks) && blocks == Generated(keys, short)
    requires PackImei(imei) == PackImei(keys.imei)
    ensures AllWant(SlowPlan(imei, U32(keys.skey), Reader(out, index)), keys.esn)
  {
    hide Generated, AllStored, CompleteTo, Reader, Record5008, Record5077, Record5121, Record5123, PackImei, U32,
      Attempt5008, AttemptMarker, Attempt5077, AllWant, Bkey, Record52, Record5122, Record5468;
    var read := Reader(out, index);
    StoredReads(out, index, blocks, 3);
    StoredReads(out, index, blocks, 5);
    StoredReads(out, index, blocks, 6);
    StoredReads(out, index, blocks, 8);
    GeneratedRecord(keys, short, 3, blocks[3]);
    GeneratedRecord(keys, short, 5, blocks[5]);
    GeneratedRecord(keys, short, 6, blocks[6]);
    GeneratedRecord(keys, short, 8, blocks[8]);
    SamePacking(imei, keys.imei, keys.esn);
    Wants5008(imei, keys.esn, read(5008), read(5077));
    Wants5077(imei, keys.esn, read(5077));
    MarkerOf5123(Record5121(keys), short);
    assert Record5121(keys)[0..8] == Record5121(keys)[..8];
    WantsMarker(Block5121, keys, imei, read(5121), 0);
    WantsMarker(Block5123, keys, imei, read(5123), 4);
    var skey := U32(keys.skey);
    var b, c := AttemptMarker(Block5121, imei, skey, read(5121), 0),
      AttemptMarker(Block5123, imei, skey, read(5123), 4);
    var d := Attempt5077(imei, read(5077));
    AllWantInTwo(c, d, keys.esn);
    AllWantInTwo(b, c + d, keys.esn);
    AllWantInTwo(Attempt5008(imei, read(5008), read(5077)), b + (c + d), keys.esn);
  }

  /** What getFullflashInfo takes for the BKEY: that of the keys, or none when it reads as erased. */
  function FoundBkey(bkey: seq<byte>): seq<byte> {
    if IsErased(bkey) then [] else bkey
  }

  /** A block 320 that is short, or holds the erased BKEY itself, gives none. */
  lemma NoneIn320(block: Option<seq<byte>>, bkey: seq<byte>, hash: seq<byte>)
    requires IsErased(bkey) && |bkey| == 16
    requires block.Some? ==> |block.value| < 16 || block.value == bkey
    ensures BkeyOf(block, hash).None?
  {
    hide IsErased, Md5Of;
    assert bkey[..16] == bkey;
  }

  /** What it finds in an image with the HASH field and the blocks 52 and 5122 of the keys. */
  lemma InfoFound(out: seq<byte>, index: Index, keys: Keys)
    requires AllFit(index, |out|) && LayoutOf(out).Some? && FieldsMatch(out, LayoutOf(out).value, IdentityOf(keys))
    requires Reader(out, index)(52) == Some(Record52(Bkey(keys.esn, keys.skey), keys.verDown))
    requires Reader(out, index)(5122) == Some(Record5122(keys.skey))
    requires IsErased(Bkey(keys.esn, keys.skey)) ==>
      !IsErased(HashOf(keys.esn, keys.skey))
      && BkeyOf(Reader(out, index)(320), HashOf(keys.esn, keys.skey)).None?
    ensures var info := InfoOf(out, Reader(out, index));
      info.Some? ==> (
        && info.value.skey == U32(keys.skey) && info.value.hash == HashOf(keys.esn, keys.skey)
        && info.value.bkey == FoundBkey(Bkey(keys.esn, keys.skey)))
  {
    hide Reader, PackImei, U32, Record52, Record5122, LayoutOf, StringAt, ImeiBlock.Decode, Md5Of, IsErased, AllDigits,
      DerivationBlock, RecordsOf;
    SkeyRoundTrip(keys.skey);
    HeadOf52(Bkey(keys.esn, keys.skey), keys.verDown);
  }

  /** The IMEI it finds, in the field or else in block 76, agrees with that of the keys on the 14 digits that matter. */
  lemma ImeiFound(out: seq<byte>, index: Index, keys: Keys)
    requires AllFit(index, |out|) && LayoutOf(out).Some? && FieldsMatch(out, LayoutOf(out).value, IdentityOf(keys))
    requires Reader(out, index)(76) == Some(ImeiBlock.Build(keys.imei, false)) && AllDigits(keys.imei[..14])
    ensures var info := InfoOf(out, Reader(out, index));
      info.Some? ==> |info.value.imei| == 15 && info.value.imei[..14] == keys.imei[..14]
  {
    hide Reader, LayoutOf, StringAt, ImeiBlock.Decode, ImeiBlock.Build, Md5Of, IsErased, AllDigits, HashOf, RecordsOf,
      BkeyOf, SkeyOf, DeviceName, ImeiBlock.CheckByte, ImeiBlock.Char;
    ImeiBlock.DecodeBuilt(keys.imei, false);
    assert ImeiField(keys.imei)[..14] == keys.imei[..14];
  }

  lemma HeadOf52(bkey: seq<byte>, verDown: byte)
    requires |bkey| == 16
    ensures Record52(bkey, verDown)[..16] == bkey
  {
    hide Block52Tail;
  }

  /** An undisturbed recalculation without conflicting writes that replaced blocks 52 and 5122; and if the BKEY reads as
      erased, the HASH does not and no block 320 is longer than a BKEY. */
  ghost predicate CleanlyRecalculated(d: seq<byte>, keys: Keys) {
    Clean(d, IdentityOf(keys), Bkey(keys.esn, keys.skey))
  }

  ghost predicate Clean(d: seq<byte>, identity: Identity, bkey: seq<byte>) {
    && Parses(d, identity) && Undisturbed(d, identity) && WritesAgree(d, identity)
    && var index := IndexAfterFields(d, identity);
      && 52 in index && index[52].size == 0x122 && 5122 in index && index[5122].size == 6
      && (IsErased(bkey) ==> !IsErased(identity.hash) && (320 in index ==> index[320].size <= 16))
  }

  lemma ReaderSize(out: seq<byte>, index: Index, id: nat)
    requires AllFit(index, |out|)
    ensures var r := Reader(out, index)(id); r.Some? ==> id in index && |r.value| == index[id].size
  {
  }

  /** The fast searches, which need no IMEI: at least one is made, and all of them accept the ESN. */
  lemma FastPlanWants(d: seq<byte>, keys: Keys)
    requires CleanlyRecalculated(d, keys)
    ensures var out, index := Recalculate(d, IdentityOf(keys)).0, IndexAfterFields(d, IdentityOf(keys));
      var info, read := InfoOf(out, Reader(out, index)), Reader(out, index);
      && Parse(out).Success? && IndexOf(Parse(out).value) == index
      && (info.Some? ==>
            var fast := Attempt5468(read(5468)) + AttemptBkey(info.value.skey, info.value.bkey, info.value.hash);
            && info.value.hash == HashOf(keys.esn, keys.skey) && info.value.skey == U32(keys.skey)
            && AllWant(fast, keys.esn) && |fast| >= 1)
  {
    hide Generated, Reader, Record52, Record5122, Record5468, Parse, IndexOf, LayoutOf, InfoOf, AllStored, IsErased,
      HashOf,
      Bkey, U32, FieldsMatch, Recalculate, IndexAfterFields, Parses, Attempt5468, AttemptBkey, AllWant, Undisturbed,
      WritesAgree;
    var identity := IdentityOf(keys);
    var out, index := Recalculate(d, identity).0, IndexAfterFields(d, identity);
    var short := IsShort(index);
    var blocks := Generated(keys, short);
    RecalculatedReads(d, identity);
    GeneratedRecord(keys, short, 0, blocks[0]);
    GeneratedRecord(keys, short, 7, blocks[7]);
    StoredReads(out, index, blocks, 0);
    StoredReads(out, index, blocks, 7);
    StoredReads(out, index, blocks, 2);
    GeneratedRecord(keys, short, 2, blocks[2]);
    ReaderSize(out, index, 320);
    if IsErased(Bkey(keys.esn, keys.skey)) {
      NoneIn320(Reader(out, index)(320), Bkey(keys.esn, keys.skey), HashOf(keys.esn, keys.skey));
    }
    InfoFound(out, index, keys);
    var read := Reader(out, index);
    if InfoOf(out, read).Some? {
      var info := InfoOf(out, read).value;
      StoredReads(out, index, blocks, 9);
      GeneratedRecord(keys, short, 9, blocks[9]);
      Wants5468(keys, Bkey(keys.esn, keys.skey), read(5468));
      WantsBkey(keys.esn, keys.skey, info.bkey);
      AllWantInTwo(Attempt5468(read(5468)), AttemptBkey(info.skey, info.bkey, info.hash), keys.esn);
    }
  }

  /** When the recalculation is complete and the IMEI starts with 14 digits, all searches recoverEsn may make accept
      the ESN. */
  lemma RecalculatedImageRecovers(d: seq<byte>, keys: Keys)
    requires CleanlyRecalculated(d, keys) && AllDigits(keys.imei[..14])
    requires Recalculate(d, IdentityOf(keys)).1.Recalculated? && Recalculate(d, IdentityOf(keys)).1.complete
    ensures var out, index := Recalculate(d, IdentityOf(keys)).0, IndexAfterFields(d, IdentityOf(keys));
      var info := InfoOf(out, Reader(out, index));
      info.Some? ==> (
        && |info.value.imei| == 15 && info.value.imei[..14] == keys.imei[..14]
        && AllWant(PlanOf(info.value, Reader(out, index)), keys.esn))
  {
    hide Generated, Reader, Record52, Record5122, Record5468, Parse, IndexOf, LayoutOf, InfoOf, AllStored, IsErased,
      HashOf,
      Bkey, U32, FieldsMatch, IndexAfterFields, Parses, Attempt5468, AttemptBkey, SlowPlan, AllWant, Undisturbed,
      WritesAgree, Recalculate, CompleteTo, AllDigits, PackImei, ImeiBlock.Build, PlanOf;
    var identity := IdentityOf(keys);
    var out, index := Recalculate(d, identity).0, IndexAfterFields(d, identity);
    var short := IsShort(index);
    var blocks := Generated(keys, short);
    RecalculatedReads(d, identity);
    FastPlanWants(d, keys);
    CompleteOf(d, identity, blocks);
    assert HoldsRecords(out, index, blocks);
    StoredReads(out, index, blocks, 1);
    GeneratedRecord(keys, short, 1, blocks[1]);
    ImeiFound(out, index, keys);
    var read := Reader(out, index);
    if InfoOf(out, read).Some? {
      var info := InfoOf(out, read).value;
      PackPrefix(info.imei, keys.imei);
      SlowPlanWants(out, index, keys, short, blocks, info.imei);
      PlanWants(info, read, keys.esn);
    }
  }

  /** The IMEI blocks, which the reader falls back to, give the 14 digits and their check digit. */
  lemma RecalculatedImeiBlocks(d: seq<byte>, keys: Keys)
    requires Parses(d, IdentityOf(keys)) && Undisturbed(d, IdentityOf(keys)) && WritesAgree(d, IdentityOf(keys))
    requires Recalculate(d, IdentityOf(keys)).1.Recalculated? && Recalculate(d, IdentityOf(keys)).1.complete
    requires AllDigits(keys.imei[..14])
    ensures var out, index := Recalculate(d, IdentityOf(keys)).0, IndexAfterFields(d, IdentityOf(keys));
      var imei := keys.imei[..14] + [ImeiBlock.Char(ImeiBlock.CheckByte(keys.imei))];
      && AllFit(index, |out|)
      && ReadsImei(Reader(out, index)(76), false, imei) && ReadsImei(Reader(out, index)(5009), true, imei)
  {
    hide Generated, Reader, Parse, IndexOf, LayoutOf, AllStored, FieldsMatch, IndexAfterFields, Parses, Undisturbed,
      WritesAgree, Recalculate, CompleteTo, AllDigits, ImeiBlock.Build, ImeiBlock.Decode, ImeiBlock.Char, HashOf,
      ImeiBlock.CheckByte, Record52, Record5008, Record5077, Record5121, Record5122, Record5123, Record5468, Bkey;
    var identity := IdentityOf(keys);
    var out, index := Recalculate(d, identity).0, IndexAfterFields(d, identity);
    var short := IsShort(index);
    var blocks := Generated(keys, short);
    RecalculatedReads(d, identity);
    CompleteOf(d, identity, blocks);
    StoredReads(out, index, blocks, 1);
    StoredReads(out, index, blocks, 4);
    GeneratedRecord(keys, short, 1, blocks[1]);
    GeneratedRecord(keys, short, 4, blocks[4]);
    GeneratedImei(keys, short, blocks[1]);
    GeneratedImei(keys, short, blocks[4]);
  }

  ghost predicate ReadsImei(block: Option<seq<byte>>, full: bool, imei: seq<byte>) {
    block.Some? && ImeiBlock.Decode(block.value, full) == Some(imei)
  }

  /** The plan is the fast searches and then the slow ones. */
  lemma PlanWants(info: Info, read: nat -> Option<seq<byte>>, esn: word)
    requires AllWant(Attempt5468(read(5468)) + AttemptBkey(info.skey, info.bkey, info.hash), esn)
    requires |info.imei| == 15 && AllWant(SlowPlan(info.imei, info.skey, read), esn)
    ensures AllWant(PlanOf(info, read), esn)
  {
    hide Attempt5468, AttemptBkey, SlowPlan, AllWant;
    var first, fast := Attempt5468(read(5468)), AttemptBkey(info.skey, info.bkey, info.hash);
    var slow := SlowPlan(info.imei, info.skey, read);
    assert first + (fast + slow) == (first + fast) + slow;
    AllWantInTwo(first + fast, slow, esn);
  }

  lemma CompleteOf(d: seq<byte>, identity: Identity, blocks: seq<GeneratedBlock>)
    requires Parses(d, identity) && blocks == RecordsFor(IndexAfterFields(d, identity), identity)
    requires Recalculate(d, identity).1.Recalculated? && Recalculate(d, identity).1.complete
    ensures CompleteTo(IndexAfterFields(d, identity), blocks, |blocks|)
  {
    hide LayoutOf, Parse, IndexOf, Patched, WriteAll, SomeDiffers, CompleteTo, FieldsMatch;
  }

  /** When the first of a plan wants the ESN, it decides. */
  lemma FirstSearchDecides(plan: seq<Attempt>, esn: word, r: Recovered)
    requires |plan| >= 1 && plan[0].wanted(esn) && FirstHit(plan, r)
    ensures r.Success? ==> r.value.Some? && plan[0].wanted(r.value.value)
  {
    hide NoneWanted;
    forall k: nat | 0 < k <= |plan|
      ensures !NoneWanted(plan[..k])
    {
      FirstWantsAlready(plan, esn, k);
    }
    assert plan[..|plan|] == plan;
  }

  lemma FirstWantsAlready(plan: seq<Attempt>, esn: word, k: nat)
    requires 0 < k <= |plan| && plan[0].wanted(esn)
    ensures !NoneWanted(plan[..k])
  {
    assert plan[..k][0].wanted(esn);
  }

  /** The plan starts with the fast searches. */
  lemma PlanStarts(info: Info, read: nat -> Option<seq<byte>>, esn: word)
    requires AllWant(Attempt5468(read(5468)) + AttemptBkey(info.skey, info.bkey, info.hash), esn)
    requires |Attempt5468(read(5468)) + AttemptBkey(info.skey, info.bkey, info.hash)| >= 1
    ensures |PlanOf(info, read)| >= 1 && PlanOf(info, read)[0].wanted(esn)
  {
    hide Attempt5468, AttemptBkey, SlowPlan;
    var fast := Attempt5468(read(5468)) + AttemptBkey(info.skey, info.bkey, info.hash);
    assert PlanOf(info, read)[0] == fast[0];
  }

  /**
   * End to end, for every IMEI: after such a recalculation, whatever recoverEsn returns unless a callback throws is a
   * value. With the known HASH it is the known ESN; otherwise the first search made accepts it, and it is the ESN of
   * the keys when that search accepts nothing else.
   */
  lemma RecalculatedEsnRecovered(d: seq<byte>, keys: Keys, reportsThrow: bool, r: Recovered)
    requires CleanlyRecalculated(d, keys) && r.Success?
    ensures var out, index := Recalculate(d, IdentityOf(keys)).0, IndexAfterFields(d, IdentityOf(keys));
      var info, read := InfoOf(out, Reader(out, index)), Reader(out, index);
      && Parse(out).Success? && IndexOf(Parse(out).value) == index
      && (info.Some? && Recovers(info.value, read, reportsThrow, r) ==> (
            && r.value.Some?
            && (if HashOf(keys.esn, keys.skey) == RECALCULATED_HASH then r.value.value == RECALCULATED_ESN
                else
                  && |PlanOf(info.value, read)| >= 1 && PlanOf(info.value, read)[0].wanted(r.value.value)
                  && ((forall w: word :: PlanOf(info.value, read)[0].wanted(w) ==> w == keys.esn) ==>
                        r.value.value == keys.esn))))
  {
    hide Reader, Parse, IndexOf, LayoutOf, InfoOf, Recalculate, IndexAfterFields, PlanOf, FirstHit, AllWant, HashOf,
      Bkey, Parses, Undisturbed, WritesAgree, IsErased, Attempt5468, AttemptBkey, U32;
    FastPlanWants(d, keys);
    var out, index := Recalculate(d, IdentityOf(keys)).0, IndexAfterFields(d, IdentityOf(keys));
    var info, read := InfoOf(out, Reader(out, index)), Reader(out, index);
    if info.Some? && Recovers(info.value, read, reportsThrow, r) && info.value.hash != RECALCULATED_HASH {
      PlanStarts(info.value, read, keys.esn);
      FirstSearchDecides(PlanOf(info.value, read), keys.esn, r);
    }
  }
}
