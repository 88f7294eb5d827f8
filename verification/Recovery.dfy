/** What the search accepts as an ESN, record by record, and the batched matchers that decide it
    (src/siemens/bruteforce.cpp). */
module Recovery {
  import opened Wrappers
  import opened Bytes
  import opened Registers
  import opened Padding
  import opened Cipher
  import opened Md5
  import opened Imei
  import opened Keys
  import opened Records
  import opened Candidates
  import Search

  // ----- The byte-level meaning of a match -----

  predicate HashMatches(wanted: seq<byte>, c: word) {
    Md5Of(U32(c)) == wanted
  }

  predicate BkeyMatches(useBkey: bool, wanted: seq<byte>, skey: word, c: word) {
    (if useBkey then Bkey(c, skey) else HashOf(c, skey)) == wanted
  }

  predicate MarkerMatches(marker: Packed, imei: ImeiText, skey: word, c: word) {
    Decrypt(marker, CipherKey1(skey, c, PackImei(imei))) == Marker(0)
  }

  type Bytes5008 = s: seq<byte> | |s| == 0xE0 witness seq(0xE0, _ => 0)

  type Bytes5077 = s: seq<byte> | |s| == 0xE8 witness seq(0xE8, _ => 0)

  predicate Has5077(block5077: seq<byte>) {
    |block5077| == 0xE8 && !IsErased(block5077)
  }

  predicate Verifies5077(block5077: Bytes5077, key: KeyBlock) {
    ValidChecksum(Decrypt(block5077, key), 8, 0xD8)
  }

  /** Both streams of block 5008 must check out, and block 5077 too when there is one. */
  predicate Matches5008(encrypted: Bytes5008, block5077: seq<byte>, imei: ImeiText, c: word) {
    var key := EepromKey(c, imei);
    && ValidChecksum(Decrypt(encrypted[..0x20], key), 8, 0x16)
    && ValidChecksum(Decrypt(encrypted[0x20..], key), 8, 0xB0)
    && (Has5077(block5077) ==> Verifies5077(block5077, key))
  }

  predicate Matches5077(encrypted: Bytes5077, imei: ImeiText, c: word) {
    var key := EepromKey(c, imei);
    Verifies5077(encrypted, key) && Decrypt(encrypted, key)[0xE2..] == BLOCK5077_TAIL
  }

  function WantHash(wanted: seq<byte>): word -> bool {
    (c: word) => HashMatches(wanted, c)
  }

  function WantBkey(useBkey: bool, wanted: seq<byte>, skey: word): word -> bool {
    (c: word) => BkeyMatches(useBkey, wanted, skey, c)
  }

  function WantMarker(marker: Packed, imei: ImeiText, skey: word): word -> bool {
    (c: word) => MarkerMatches(marker, imei, skey, c)
  }

  function Want5008(encrypted: Bytes5008, block5077: seq<byte>, imei: ImeiText): word -> bool {
    (c: word) => Matches5008(encrypted, block5077, imei, c)
  }

  function Want5077(encrypted: Bytes5077, imei: ImeiText): word -> bool {
    (c: word) => Matches5077(encrypted, imei, c)
  }

  // ----- Records built for an ESN are accepted at that ESN -----

  lemma Accepts5468(keys: Keys, bkey: seq<byte>)
    requires |bkey| == 16
    ensures var block := Record5468(keys, bkey); block[16] == 0x58 && WantHash(block[17..33])(keys.esn)
  {
    hide Md5Of, U32;
    var block := Record5468(keys, bkey);
    assert block[17..33] == Md5Of(U32(keys.esn));
  }

  lemma Accepts5121(keys: Keys)
    ensures WantMarker(Record5121(keys)[..8], keys.imei, keys.skey)(keys.esn)
  {
    hide Encrypt, Decrypt, CipherKey1, PackImei, Marker, MasterEntries;
    var key := CipherKey1(keys.skey, keys.esn, PackImei(keys.imei));
    assert Record5121(keys)[..8] == Encrypt(Marker(0), key);
    DecryptUndoesEncrypt(Marker(0), key);
  }

  /** Both forms of block 5123 hold the marker of block 5121 from byte 4 on, so what accepts one accepts the other. */
  lemma MarkerOf5123(block5121: seq<byte>, shortVariant: bool)
    requires |block5121| >= 8
    ensures Record5123(block5121, shortVariant)[4..12] == block5121[..8]
  {
    hide U32;
  }

  lemma Accepts5077(imei: ImeiText, esn: word)
    ensures Want5077(Record5077(imei, esn), imei)(esn)
  {
    hide Encrypt, Decrypt, EepromKey, Plain5077, ValidChecksum;
    Plain5077Checks();
    DecryptUndoesEncrypt(Plain5077(), EepromKey(esn, imei));
  }

  /** Block 5008 is accepted on its own, and beside any block 5077 built for the same identity. */
  lemma Accepts5008(imei: ImeiText, esn: word, block5077: seq<byte>)
    requires Has5077(block5077) ==> block5077 == Record5077(imei, esn)
    ensures Want5008(Record5008(imei, esn), block5077, imei)(esn)
  {
    hide Encrypt, Decrypt, EepromKey, Plain5008, Plain5077, ValidChecksum, IsErased;
    var key := EepromKey(esn, imei);
    Plain5008Checks();
    Plain5077Checks();
    DecryptUndoesEncrypt(Plain5077(), key);
    var head, body := Encrypt(Plain5008()[..0x20], key), Encrypt(Plain5008()[0x20..], key);
    DecryptUndoesEncrypt(Plain5008()[..0x20], key);
    DecryptUndoesEncrypt(Plain5008()[0x20..], key);
    assert Record5008(imei, esn)[..0x20] == head && Record5008(imei, esn)[0x20..] == body;
  }

  // ----- The batched matchers -----

  /** The lane loop over eight digests. */
  method FindMd5Match(hashes: DigestBatch, target: seq<word>, first: word, ghost wanted: word -> bool)
      returns (r: Option<word>)
    requires |target| == 4
    requires forall lane: nat :: lane < 8 ==>
      (wanted(Candidate(first, lane)) <==> LaneRegs(hashes, lane) == Regs(target[0], target[1], target[2], target[3]))
    ensures r == FirstMatch(wanted, first, 0)
  {
    hide Candidate;
    for lane := 0 to 8
      invariant FirstMatch(wanted, first, 0) == FirstMatch(wanted, first, lane)
    {
      var matches := hashes[0][lane] == target[0] && hashes[1][lane] == target[1]
        && hashes[2][lane] == target[2] && hashes[3][lane] == target[3];
      assert matches <==> LaneRegs(hashes, lane) == Regs(target[0], target[1], target[2], target[3]);
      if matches {
        return Some(Candidate(first, lane));
      }
    }
    return None;
  }

  function Targets(wanted: seq<byte>): (target: seq<word>)
    requires |wanted| == 16
    ensures |target| == 4
  {
    [ReadU32(wanted, 0), ReadU32(wanted, 4), ReadU32(wanted, 8), ReadU32(wanted, 12)]
  }

  /** Comparing digest words with the target words is comparing digests. */
  lemma TargetDigest(wanted: seq<byte>, r: Chain4)
    requires |wanted| == 16
    ensures var t := Targets(wanted); r == Regs(t[0], t[1], t[2], t[3]) <==> Digest(r) == wanted
  {
    var t := Targets(wanted);
    var regs := Regs(t[0], t[1], t[2], t[3]);
    ReadU32Bytes(wanted, 0);
    ReadU32Bytes(wanted, 4);
    ReadU32Bytes(wanted, 8);
    ReadU32Bytes(wanted, 12);
    hide U32, ReadU32;
    assert wanted == wanted[0..4] + wanted[4..8] + wanted[8..12] + wanted[12..16];
    assert Digest(regs) == wanted;
    DigestInjective(r, regs);
    hide Digest, Targets;
  }

  function Row(value: word): (row: seq<word>)
    ensures |row| == 8
  {
    seq(8, _ => value)
  }

  function EmptyBlocks(): BlockBatch {
    seq(16, _ => Row(0))
  }

  /** The one-word messages of a batch with their padding. */
  method HashBlocks(first: word) returns (blocks: BlockBatch)
    ensures forall l: nat :: l < 8 ==> LaneWords(blocks, l) == ShortWords([Candidate(first, l)])
  {
    hide Candidate;
    var candidates := CandidateRow(first);
    blocks := EmptyBlocks()[0 := candidates][1 := Row(0x80)][14 := Row(32)];
    forall l: nat | l < 8
      ensures LaneWords(blocks, l) == ShortWords([Candidate(first, l)])
    {
      OneWordLane(blocks, l, Candidate(first, l));
    }
  }

  method CandidateRow(first: word) returns (row: seq<word>)
    ensures |row| == 8 && forall l: nat :: l < 8 ==> row[l] == Candidate(first, l)
  {
    hide Candidate;
    row := Row(0);
    for lane := 0 to 8
      invariant |row| == 8 && forall l: nat :: l < lane ==> row[l] == Candidate(first, l)
    {
      row := row[lane := Candidate(first, lane)];
    }
  }

  lemma OneWordLane(blocks: BlockBatch, l: nat, c: word)
    requires l < 8 && blocks[0][l] == c && blocks[1][l] == 0x80 && blocks[14][l] == 32
    requires forall i :: 2 <= i < 16 && i != 14 ==> blocks[i][l] == 0
    ensures LaneWords(blocks, l) == ShortWords([c])
  {
  }

  lemma FourWordLane(blocks: BlockBatch, l: nat, a: word, b: word, c: word, d: word)
    requires l < 8 && blocks[0][l] == a && blocks[1][l] == b && blocks[2][l] == c && blocks[3][l] == d
    requires blocks[4][l] == 0x80 && blocks[14][l] == 128
    requires forall i :: 5 <= i < 16 && i != 14 ==> blocks[i][l] == 0
    ensures LaneWords(blocks, l) == ShortWords([a, b, c, d])
  {
  }

  /** recoverEsnFromHash: one batch of the search for MD5(ESN). */
  method MatchHashBatch(wanted: seq<byte>, first: word) returns (r: Option<word>)
    requires |wanted| == 16
    ensures r == FirstMatch(WantHash(wanted), first, 0)
  {
    hide Candidate, Targets, Compress, Md5Of, ShortWords, Digest, FirstMatch;
    var blocks := HashBlocks(first);
    var hashes := Md5Batch(blocks);
    forall lane: nat | lane < 8
      ensures var t := Targets(wanted);
        WantHash(wanted)(Candidate(first, lane)) <==> LaneRegs(hashes, lane) == Regs(t[0], t[1], t[2], t[3])
    {
      var c := Candidate(first, lane);
      TargetDigest(wanted, LaneRegs(hashes, lane));
      OneWordDigest(c);
    }
    r := FindMd5Match(hashes, Targets(wanted), first, WantHash(wanted));
  }

  lemma OneWordDigest(c: word)
    ensures Md5Of(U32(c)) == Digest(Compress(INITIAL_STATE, ShortWords([c])))
  {
    hide Md5Of, Digest, Compress, ShortWords;
    ShortMessage([c]);
    OneWordBytes(c);
  }

  lemma OneWordBytes(c: word)
    ensures BytesOf([c]) == U32(c)
  {
    hide U32;
    BytesOfSnoc([], c);
    assert [] + [c] == [c] && [] + U32(c) == U32(c);
  }

  function BkeyWords(c: word, skey: word): Words {
    ShortWords([c, skey, Word2(c, skey), Word3(skey, Word2(c, skey))])
  }

  /** The derivation words of a batch with their padding. */
  method BkeyBlocks(first: word, skey: word) returns (blocks: BlockBatch)
    ensures forall l: nat :: l < 8 ==> LaneWords(blocks, l) == BkeyWords(Candidate(first, l), skey)
  {
    hide Candidate, Word2, Word3;
    var candidates := CandidateRow(first);
    var row2, row3 := Row(0), Row(0);
    for lane := 0 to 8
      invariant |row2| == 8 && |row3| == 8
      invariant forall l: nat :: l < lane ==> row2[l] == Word2(candidates[l], skey) && row3[l] == Word3(skey, row2[l])
    {
      row2 := row2[lane := Word2(candidates[lane], skey)];
      row3 := row3[lane := Word3(skey, row2[lane])];
    }
    blocks := EmptyBlocks()[0 := candidates][1 := Row(skey)][2 := row2][3 := row3][4 := Row(0x80)][14 := Row(128)];
    forall l: nat | l < 8
      ensures LaneWords(blocks, l) == BkeyWords(Candidate(first, l), skey)
    {
      FourWordLane(blocks, l, candidates[l], skey, row2[l], row3[l]);
    }
  }

  /** The words that hash to BKEY are those of the derivation block. */
  lemma BkeyDigest(esn: word, skey: word)
    ensures Bkey(esn, skey) == Digest(Compress(INITIAL_STATE, BkeyWords(esn, skey)))
  {
    hide Md5Of, Digest, Compress, ShortWords, Word2, Word3, DerivationBlock;
    DerivationWords(esn, skey);
    ShortMessage([esn, skey, Word2(esn, skey), Word3(skey, Word2(esn, skey))]);
  }

  /** Hashing a digest again starts from its four words. */
  lemma DigestAgain(r: Chain4)
    ensures Md5Of(Digest(r)) == Digest(Compress(INITIAL_STATE, ShortWords([r.a, r.b, r.c, r.d])))
  {
    hide Md5Of, Compress, ShortWords, U32;
    FourWords(r.a, r.b, r.c, r.d);
    ShortMessage([r.a, r.b, r.c, r.d]);
  }

  /** The digests of a batch as the messages of the next. */
  method HashAgain(calculated: DigestBatch) returns (hashes: DigestBatch)
    ensures forall l: nat :: l < 8 ==> var r := LaneRegs(calculated, l);
      LaneRegs(hashes, l) == Compress(INITIAL_STATE, ShortWords([r.a, r.b, r.c, r.d]))
  {
    hide Compress, ShortWords;
    var blocks: BlockBatch := EmptyBlocks()
      [0 := calculated[0]][1 := calculated[1]][2 := calculated[2]][3 := calculated[3]]
      [4 := Row(0x80)][14 := Row(128)];
    forall l: nat | l < 8
      ensures var r := LaneRegs(calculated, l); LaneWords(blocks, l) == ShortWords([r.a, r.b, r.c, r.d])
    {
      FourWordLane(blocks, l, calculated[0][l], calculated[1][l], calculated[2][l], calculated[3][l]);
    }
    hashes := Md5Batch(blocks);
  }

  /** The comparison the search makes for one candidate: words only, no bytes. */
  predicate BkeyWordsMatch(useBkey: bool, target: seq<word>, skey: word, c: word)
    requires |target| == 4
  {
    var r := Compress(INITIAL_STATE, BkeyWords(c, skey));
    (if useBkey then r else Compress(INITIAL_STATE, ShortWords([r.a, r.b, r.c, r.d])))
      == Regs(target[0], target[1], target[2], target[3])
  }

  /** The word-level test decides the byte-level definition of BKEY and HASH, for every candidate, SKEY and target. */
  lemma BkeyWordsDecide(useBkey: bool, wanted: seq<byte>, skey: word, c: word)
    requires |wanted| == 16
    ensures BkeyWordsMatch(useBkey, Targets(wanted), skey, c) <==> BkeyMatches(useBkey, wanted, skey, c)
  {
    hide Targets, Compress, Md5Of, ShortWords, Digest, Bkey, BkeyWords;
    var r := Compress(INITIAL_STATE, BkeyWords(c, skey));
    TargetDigest(wanted, if useBkey then r else Compress(INITIAL_STATE, ShortWords([r.a, r.b, r.c, r.d])));
    BkeyDigest(c, skey);
    DigestAgain(r);
  }

  /** So BKEY and HASH of an identity pass the word-level test at its ESN. */
  lemma AcceptsBkey(esn: word, skey: word)
    ensures BkeyWordsMatch(true, Targets(Bkey(esn, skey)), skey, esn)
    ensures BkeyWordsMatch(false, Targets(HashOf(esn, skey)), skey, esn)
  {
    hide Targets, Compress, Md5Of, ShortWords, Digest, Bkey, BkeyWords, BkeyWordsMatch;
    BkeyWordsDecide(true, Bkey(esn, skey), skey, esn);
    BkeyWordsDecide(false, HashOf(esn, skey), skey, esn);
  }

  /** recoverEsnFromBkeyOrHash: one batch, on words only, agrees with the byte-level key derivation. */
  method MatchBkeyBatch(useBkey: bool, wanted: seq<byte>, skey: word, first: word) returns (r: Option<word>)
    requires |wanted| == 16
    ensures r == FirstMatch(WantBkey(useBkey, wanted, skey), first, 0)
  {
    hide Candidate, Targets, Compress, Md5Of, ShortWords, Digest, FirstMatch, Bkey, BkeyWords, BkeyMatches;
    var blocks := BkeyBlocks(first, skey);
    var calculated := Md5Batch(blocks);
    if !useBkey {
      calculated := HashAgain(calculated);
    }
    forall lane: nat | lane < 8
      ensures var t := Targets(wanted);
        WantBkey(useBkey, wanted, skey)(Candidate(first, lane))
        <==> LaneRegs(calculated, lane) == Regs(t[0], t[1], t[2], t[3])
    {
      BkeyWordsDecide(useBkey, wanted, skey, Candidate(first, lane));
    }
    r := FindMd5Match(calculated, Targets(wanted), first, WantBkey(useBkey, wanted, skey));
  }

  // ----- Cipher batches -----

  /** buildCipherKeyBatch: the template with each candidate stored at the ESN offset. */
  method BuildCipherKeyBatch(key: KeyBlock, esnOffset: nat, first: word) returns (keys: seq<KeyBlock>)
    requires esnOffset + 4 <= 64
    ensures |keys| == 8 && forall l: nat :: l < 8 ==> keys[l] == Put(key, esnOffset, U32(Candidate(first, l)))
  {
    hide Candidate, U32, Put;
    keys := [];
    for lane := 0 to 8
      invariant |keys| == lane && forall l: nat :: l < lane ==> keys[l] == Put(key, esnOffset, U32(Candidate(first, l)))
    {
      keys := keys + [Put(key, esnOffset, U32(Candidate(first, lane)))];
    }
  }

  lemma LaneIndex(size: nat, lane: nat, o: nat)
    requires o < size
    ensures (size * lane + o) % size == o
  {
    var k := (size * lane + o) / size;
    var gap := lane - k;
    assert size * lane - k * size == gap * size;
    Search.MulSign(gap, size);
    assert gap == 0;
  }

  /** Eight copies of a record's first `size` bytes. */
  method CopyLanes(source: seq<byte>, size: nat) returns (data: array<byte>)
    requires 0 < size <= |source|
    ensures fresh(data) && data.Length == 8 * size
    ensures forall l: nat :: l < 8 ==> LaneSlice(data[..], size, l) == source[..size]
  {
    data := new byte[8 * size](i requires 0 <= i < 8 * size => source[i % size]);
    forall l: nat | l < 8
      ensures LaneSlice(data[..], size, l) == source[..size]
    {
      EightLane(size, l);
      forall o: nat | o < size
        ensures LaneSlice(data[..], size, l)[o] == source[o]
      {
        LaneIndex(size, l, o);
      }
    }
  }

  lemma MarkerWords(d: seq<byte>)
    requires |d| == 8
    ensures ReadU32(d, 0) == MARKER_LOW && ReadU32(d, 4) == MARKER_HIGH <==> d == Marker(0)
  {
    MarkerZero();
    ReadU32Bytes(d, 0);
    ReadU32Bytes(d, 4);
    U32RoundTrip(MARKER_LOW);
    U32RoundTrip(MARKER_HIGH);
    hide U32, ReadU32, Marker;
    var m := U32(MARKER_LOW) + U32(MARKER_HIGH);
    assert m[0..4] == U32(MARKER_LOW) && m[4..8] == U32(MARKER_HIGH);
    ReadSlice(m, 0, U32(MARKER_LOW));
    ReadSlice(m, 4, U32(MARKER_HIGH));
    assert d == d[0..4] + d[4..8];
  }

  /** recoverEsnFromSecurityMarker: one batch. */
  method MatchMarkerBatch(marker: Packed, imei: ImeiText, skey: word, first: word) returns (r: Option<word>)
    ensures r == FirstMatch(WantMarker(marker, imei, skey), first, 0)
  {
    hide Candidate, U32, ReadU32, CipherKey1, PackImei, Decrypt, Marker, Put, At, LaneSlice;
    var imei8 := PackImei(imei);
    var keys := BuildCipherKeyBatch(CipherKey1(skey, 0, imei8), 4, first);
    var data := CopyLanes(marker, 8);
    assert marker[..8] == marker;
    CipherDecryptBatch(data, 8, keys);
    var plain := data[..];
    for lane := 0 to 8
      invariant FirstMatch(WantMarker(marker, imei, skey), first, 0)
             == FirstMatch(WantMarker(marker, imei, skey), first, lane)
    {
      var slice := LaneSlice(plain, 8, lane);
      MarkerTemplate(skey, 0, Candidate(first, lane), imei8);
      MarkerWords(slice);
      if ReadU32(slice, 0) == MARKER_LOW && ReadU32(slice, 4) == MARKER_HIGH {
        return Some(Candidate(first, lane));
      }
    }
    return None;
  }

  method SliceChecks(d: seq<byte>, at: nat, size: nat) returns (valid: bool)
    requires at + size + 2 <= |d|
    ensures valid == ValidChecksum(d, at, size)
  {
    var buffer := new byte[|d|](i requires 0 <= i < |d| => d[i]);
    assert buffer[..] == d;
    valid := HasValidChecksum(buffer, at, size);
  }

  /** A record decrypted in a buffer of its own. */
  method DecryptCopy(record: seq<byte>, from: nat, key: KeyBlock) returns (plain: seq<byte>)
    requires from <= |record|
    ensures plain == Decrypt(record[from..], key)
  {
    hide Decrypt;
    var data := new byte[|record|](i requires 0 <= i < |record| => record[i]);
    assert data[from..|record|] == record[from..];
    CipherDecrypt(data, from, |record| - from, key);
    plain := data[from..];
    assert plain == Decrypt(record[from..], key);
  }

  /** recoverEsnFromBlock5008: one batch; the short stream of all lanes first, the rest only where that passes. */
  method Match5008Batch(encrypted: Bytes5008, block5077: seq<byte>, imei: ImeiText, first: word)
      returns (r: Option<word>)
    ensures r == FirstMatch(Want5008(encrypted, block5077, imei), first, 0)
  {
    hide Candidate, U32, EepromKey, Decrypt, Put, At, ValidChecksum, IsErased, LaneSlice;
    var keys := BuildCipherKeyBatch(EepromKey(0, imei), 0x30, first);
    var data := CopyLanes(encrypted, 0x20);
    CipherDecryptBatch(data, 0x20, keys);
    var plain := data[..];
    for lane := 0 to 8
      invariant FirstMatch(Want5008(encrypted, block5077, imei), first, 0)
             == FirstMatch(Want5008(encrypted, block5077, imei), first, lane)
    {
      EepromTemplate(0, Candidate(first, lane), imei);
      var headValid := SliceChecks(LaneSlice(plain, 0x20, lane), 8, 0x16);
      if !headValid {
        continue;
      }
      var body := DecryptCopy(encrypted, 0x20, keys[lane]);
      var bodyValid := SliceChecks(body, 8, 0xB0);
      if !bodyValid {
        continue;
      }
      if !Has5077(block5077) {
        return Some(Candidate(first, lane));
      }
      assert block5077[0..] == block5077;
      var verification := DecryptCopy(block5077, 0, keys[lane]);
      var verified := SliceChecks(verification, 8, 0xD8);
      if verified {
        return Some(Candidate(first, lane));
      }
    }
    return None;
  }

  /** recoverEsnFromBlock5077: one batch. */
  method Match5077Batch(encrypted: Bytes5077, imei: ImeiText, first: word) returns (r: Option<word>)
    ensures r == FirstMatch(Want5077(encrypted, imei), first, 0)
  {
    hide Candidate, U32, EepromKey, Decrypt, Put, At, ValidChecksum, LaneSlice;
    var keys := BuildCipherKeyBatch(EepromKey(0, imei), 0x30, first);
    var data := CopyLanes(encrypted, 0xE8);
    assert encrypted[..0xE8] == encrypted;
    CipherDecryptBatch(data, 0xE8, keys);
    var plain := data[..];
    for lane := 0 to 8
      invariant FirstMatch(Want5077(encrypted, imei), first, 0) == FirstMatch(Want5077(encrypted, imei), first, lane)
    {
      EepromTemplate(0, Candidate(first, lane), imei);
      var slice := LaneSlice(plain, 0xE8, lane);
      var valid := SliceChecks(slice, 8, 0xD8);
      if !valid {
        continue;
      }
      if slice[0xE2..] == BLOCK5077_TAIL {
        return Some(Candidate(first, lane));
      }
    }
    return None;
  }
}
