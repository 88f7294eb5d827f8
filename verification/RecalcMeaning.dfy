/** What a recalculation changes, when it changes nothing, and what repeating it does (src/siemens/recalc.h,
    recalc.cpp). */
module RecalcMeaning {
  import opened Wrappers
  import opened Bytes
  import opened AddressMap
  import opened Directory
  import opened BlockIndex
  import opened EepromStore
  import opened ParseFrame
  import opened Keys
  import opened Records
  import opened Fullflash
  import opened Recalc
  import opened Imei
  import ImeiBlock
  import Md5

  // ----- A list of writes, byte by byte -----

  /** The generated block replaces a stored one that has a byte at this address. */
  ghost predicate Covers(index: Index, g: GeneratedBlock, address: nat) {
    Replaces(index, g) && address in Footprint(index[g.id])
  }

  /** The generated block stores `v` at this address. */
  ghost predicate Stores(index: Index, g: GeneratedBlock, address: nat, v: byte) {
    Replaces(index, g) && exists k: nat :: k < |g.data| && ByteOffset(index[g.id], k) == address && g.data[k] == v
  }

  lemma CoversStores(index: Index, g: GeneratedBlock, address: nat)
    ensures Covers(index, g, address) <==> exists v :: Stores(index, g, address, v)
  {
    if Covers(index, g, address) {
      var k: nat :| k < |g.data| && ByteOffset(index[g.id], k) == address;
      assert Stores(index, g, address, g.data[k]);
    }
  }

  lemma WriteOneAt(d: seq<byte>, index: Index, g: GeneratedBlock, address: nat)
    requires AllFit(index, |d|) && address < |d|
    ensures forall v :: Stores(index, g, address, v) ==> WriteOne(d, index, g)[address] == v
    ensures !Covers(index, g, address) ==> WriteOne(d, index, g)[address] == d[address]
  {
    hide PatchBytes, ByteOffset;
    if Replaces(index, g) {
      PatchBytesAt(d, index[g.id], g.data, |g.data|, address);
      if !Covers(index, g, address) {
        PatchFrame(d, index[g.id], g.data, address);
      }
    }
  }

  ghost predicate CoveredBy(index: Index, blocks: seq<GeneratedBlock>, n: nat, address: nat)
    requires n <= |blocks|
  {
    exists k :: 0 <= k < n && Covers(index, blocks[k], address)
  }

  /** What ends up at an address is decided by the writes that cover it, whatever was there before. */
  lemma {:induction false} WriteAllAt(d: seq<byte>, e: seq<byte>, index: Index, blocks: seq<GeneratedBlock>, n: nat,
      address: nat)
    requires AllFit(index, |d|) && |e| == |d| && n <= |blocks| && address < |d|
    ensures CoveredBy(index, blocks, n, address) ==>
      WriteAll(d, index, blocks, n)[address] == WriteAll(e, index, blocks, n)[address]
    ensures !CoveredBy(index, blocks, n, address) ==> WriteAll(d, index, blocks, n)[address] == d[address]
  {
    hide Covers, Stores, WriteOne;
    if n > 0 {
      WriteAllAt(d, e, index, blocks, n - 1, address);
      WriteOneAt(WriteAll(d, index, blocks, n - 1), index, blocks[n - 1], address);
      WriteOneAt(WriteAll(e, index, blocks, n - 1), index, blocks[n - 1], address);
      CoversStores(index, blocks[n - 1], address);
      if Covers(index, blocks[n - 1], address) {
        var v :| Stores(index, blocks[n - 1], address, v);
      }
    }
  }

  /** Writing the same list again changes nothing, even where its blocks overlap. */
  lemma WriteAllTwice(d: seq<byte>, index: Index, blocks: seq<GeneratedBlock>, n: nat)
    requires AllFit(index, |d|) && n <= |blocks|
    ensures WriteAll(WriteAll(d, index, blocks, n), index, blocks, n) == WriteAll(d, index, blocks, n)
  {
    hide WriteAll, CoveredBy;
    var once := WriteAll(d, index, blocks, n);
    forall a: nat | a < |d|
      ensures WriteAll(once, index, blocks, n)[a] == once[a]
    {
      WriteAllAt(once, d, index, blocks, n, a);
    }
  }

  // ----- When the stored blocks already are the generated ones -----

  /** Every replaced block among the first `n` reads its generated value. */
  ghost predicate AllStored(d: seq<byte>, index: Index, blocks: seq<GeneratedBlock>, n: nat)
    requires AllFit(index, |d|) && n <= |blocks|
  {
    forall k :: 0 <= k < n && Replaces(index, blocks[k]) ==> Payload(d, index[blocks[k].id]) == blocks[k].data
  }

  /** No two of the writes disagree about a byte; blocks that share no address always agree. */
  ghost predicate Agreeing(index: Index, blocks: seq<GeneratedBlock>, n: nat)
    requires n <= |blocks|
  {
    forall i, j, a: nat, v, w ::
      0 <= i < n && 0 <= j < n && Stores(index, blocks[i], a, v) && Stores(index, blocks[j], a, w) ==> v == w
  }

  ghost predicate DisjointBlocks(index: Index, blocks: seq<GeneratedBlock>) {
    forall i, j :: 0 <= i < j < |blocks| && Replaces(index, blocks[i]) && Replaces(index, blocks[j]) ==>
      Footprint(index[blocks[i].id]) !! Footprint(index[blocks[j].id])
  }

  lemma StoredBytes(d: seq<byte>, index: Index, g: GeneratedBlock)
    requires AllFit(index, |d|) && Replaces(index, g)
    ensures Payload(d, index[g.id]) == g.data <==> forall a: nat, v :: a < |d| && Stores(index, g, a, v) ==> d[a] == v
  {
    hide ByteOffset;
    var block := index[g.id];
    if Payload(d, block) == g.data {
      forall a: nat, v | a < |d| && Stores(index, g, a, v)
        ensures d[a] == v
      {
        var k: nat :| k < |g.data| && ByteOffset(block, k) == a && g.data[k] == v;
        assert Payload(d, block)[k] == v;
      }
    }
    if forall a: nat, v :: a < |d| && Stores(index, g, a, v) ==> d[a] == v {
      forall k: nat | k < |g.data|
        ensures Payload(d, block)[k] == g.data[k]
      {
        assert Stores(index, g, ByteOffset(block, k), g.data[k]);
      }
    }
  }

  /** A block stores one value at each address. */
  lemma StoresOne(index: Index, g: GeneratedBlock, address: nat, v: byte, w: byte)
    requires Stores(index, g, address, v) && Stores(index, g, address, w)
    ensures v == w
  {
    var block := index[g.id];
    var k: nat :| k < |g.data| && ByteOffset(block, k) == address && g.data[k] == v;
    var j: nat :| j < |g.data| && ByteOffset(block, j) == address && g.data[j] == w;
    if k < j {
      ByteOffsetIncreases(block, k, j);
    } else if j < k {
      ByteOffsetIncreases(block, j, k);
    }
  }

  lemma DisjointAgree(index: Index, blocks: seq<GeneratedBlock>)
    requires DisjointBlocks(index, blocks)
    ensures Agreeing(index, blocks, |blocks|)
  {
    hide Stores, Footprint;
    forall i, j, a: nat, v, w | 0 <= i < |blocks| && 0 <= j < |blocks|
      && Stores(index, blocks[i], a, v) && Stores(index, blocks[j], a, w)
      ensures v == w
    {
      CoversStores(index, blocks[i], a);
      CoversStores(index, blocks[j], a);
      assert a in Footprint(index[blocks[i].id]) * Footprint(index[blocks[j].id]);
      StoresOne(index, blocks[i], a, v, w);
    }
  }

  lemma StoresInside(index: Index, g: GeneratedBlock, address: nat, v: byte, length: nat)
    requires AllFit(index, length) && Stores(index, g, address, v)
    ensures address < length
  {
    hide ByteOffset;
  }

  /** After the writes every replaced block reads its generated value exactly when no two writes disagree. */
  lemma StoredIffAgreeing(d: seq<byte>, index: Index, blocks: seq<GeneratedBlock>, n: nat)
    requires AllFit(index, |d|) && n <= |blocks|
    ensures AllStored(WriteAll(d, index, blocks, n), index, blocks, n) <==> Agreeing(index, blocks, n)
  {
    hide Stores, WriteAll, Payload;
    var out := WriteAll(d, index, blocks, n);
    if AllStored(out, index, blocks, n) {
      forall i, j, a: nat, v, w | 0 <= i < n && 0 <= j < n
        && Stores(index, blocks[i], a, v) && Stores(index, blocks[j], a, w)
        ensures v == w
      {
        CoversStores(index, blocks[i], a);
        CoversStores(index, blocks[j], a);
        StoredBytes(out, index, blocks[i]);
        StoredBytes(out, index, blocks[j]);
        StoresInside(index, blocks[i], a, v, |d|);
      }
    }
    if Agreeing(index, blocks, n) {
      forall i | 0 <= i < n && Replaces(index, blocks[i])
        ensures Payload(out, index[blocks[i].id]) == blocks[i].data
      {
        forall a: nat, v | a < |d| && Stores(index, blocks[i], a, v)
          ensures out[a] == v
        {
          AgreedByte(d, index, blocks, n, i, a, v);
        }
        StoredBytes(out, index, blocks[i]);
      }
    }
  }

  lemma {:induction false} AgreedByte(d: seq<byte>, index: Index, blocks: seq<GeneratedBlock>, n: nat, i: nat, a: nat,
      v: byte)
    requires AllFit(index, |d|) && i < n <= |blocks| && a < |d| && Agreeing(index, blocks, n)
      && Stores(index, blocks[i], a, v)
    ensures WriteAll(d, index, blocks, n)[a] == v
  {
    hide Stores, Covers, WriteOne;
    var before := WriteAll(d, index, blocks, n - 1);
    WriteOneAt(before, index, blocks[n - 1], a);
    CoversStores(index, blocks[n - 1], a);
    if Covers(index, blocks[n - 1], a) {
      var w :| Stores(index, blocks[n - 1], a, w);
      assert v == w;
    } else {
      assert i < n - 1;
      AgreedByte(d, index, blocks, n - 1, i, a, v);
    }
  }

  /** No write finds a difference exactly when every block is already stored; then the writes leave the image alone. */
  lemma {:induction false} NoDifference(d: seq<byte>, index: Index, blocks: seq<GeneratedBlock>, n: nat)
    requires AllFit(index, |d|) && n <= |blocks|
    ensures !SomeDiffers(d, index, blocks, n) <==> AllStored(d, index, blocks, n)
    ensures AllStored(d, index, blocks, n) ==> WriteAll(d, index, blocks, n) == d
  {
    hide Payload, PatchBytes;
    if n > 0 {
      NoDifference(d, index, blocks, n - 1);
      SomeDiffersNext(d, index, blocks, n - 1);
      var g := blocks[n - 1];
      if AllStored(d, index, blocks, n - 1) && Replaces(index, g) {
        PatchSame(d, index[g.id], |g.data|);
      }
    }
  }

  // ----- One recalculation -----

  ghost predicate InFields(layout: BootcoreLayout, address: nat) {
    layout.hashOffset <= address < layout.hashOffset + 16 || layout.imeiOffset <= address < layout.imeiOffset + 15
  }

  ghost predicate Parses(d: seq<byte>, identity: Identity) {
    Applies(d) && Parse(Patched(d, LayoutOf(d).value, identity)).Success?
  }

  /** The index a recalculation works with: that of the image with HASH and IMEI already replaced. */
  ghost function IndexAfterFields(d: seq<byte>, identity: Identity): (index: Index)
    requires Parses(d, identity)
    ensures AllFit(index, |d|)
  {
    var patched := Patched(d, LayoutOf(d).value, identity);
    ParsedFits(patched);
    IndexOf(Parse(patched).value)
  }

  ghost function RecordsFor(index: Index, identity: Identity): seq<GeneratedBlock> {
    identity.records(IsShort(index))
  }

  /** The recalculation replaces a byte of some stored block at this address. */
  ghost predicate BlockWritten(d: seq<byte>, identity: Identity, address: nat)
    requires Parses(d, identity)
  {
    var index := IndexAfterFields(d, identity);
    CoveredBy(index, RecordsFor(index, identity), |RecordsFor(index, identity)|, address)
  }

  lemma PatchedFrame(d: seq<byte>, identity: Identity, address: nat)
    requires LayoutOf(d).Some? && address < |d|
    ensures !InFields(LayoutOf(d).value, address) ==> Patched(d, LayoutOf(d).value, identity)[address] == d[address]
  {
    hide LayoutOf;
  }

  /** Every image: only the HASH and IMEI fields may change, and the bytes of replaced blocks when the
      parse succeeds. */
  lemma RecalculateFrame(d: seq<byte>, identity: Identity, address: nat)
    requires address < |d|
    ensures Recalculate(d, identity).0[address] != d[address] ==>
      Applies(d) && (
        || InFields(LayoutOf(d).value, address)
        || (Parses(d, identity) && BlockWritten(d, identity, address)))
    ensures Recalculate(d, identity).1.Recalculated? <==> Parses(d, identity)
  {
    hide LayoutOf, Parse, IndexOf, Patched, WriteAll, InFields, CompleteTo, SomeDiffers, FieldsMatch, CoveredBy;
    if Applies(d) {
      var patched := Patched(d, LayoutOf(d).value, identity);
      PatchedFrame(d, identity, address);
      if Parse(patched).Success? {
        var blocks := RecordsFor(IndexAfterFields(d, identity), identity);
        WriteAllAt(patched, patched, IndexAfterFields(d, identity), blocks, |blocks|, address);
      }
    }
  }

  const GENERATED_IDS: seq<nat> := [52, 76, 320, 5008, 5009, 5077, 5121, 5122, 5123, 5468]

  lemma GeneratedIds(keys: Keys, short: bool, k: nat)
    requires k < |Generated(keys, short)|
    ensures k < 10 && Generated(keys, short)[k].id == GENERATED_IDS[k]
  {
    hide Record52, Record5008, Record5077, Record5121, Record5122, Record5123, Record5468, Bkey, ImeiBlock.Build;
  }

  lemma CoveredIds(index: Index, keys: Keys, short: bool, blocks: seq<GeneratedBlock>, address: nat)
    requires blocks == Generated(keys, short) && CoveredBy(index, blocks, |blocks|, address)
    ensures exists id :: id in GENERATED_IDS && id in index && address in Footprint(index[id])
  {
    hide Generated, Footprint;
    var k :| 0 <= k < |blocks| && Covers(index, blocks[k], address);
    GeneratedIds(keys, short, k);
  }

  /** A byte that a recalculation changes lies in one of the two fields or in a stored block of one of the ten ids. */
  lemma ChangedBytes(d: seq<byte>, keys: Keys, address: nat)
    requires address < |d|
    ensures Recalculate(d, IdentityOf(keys)).0[address] != d[address] ==>
      LayoutOf(d).Some? && (
        || InFields(LayoutOf(d).value, address)
        || (Parses(d, IdentityOf(keys))
            && var index := IndexAfterFields(d, IdentityOf(keys));
              exists id :: id in GENERATED_IDS && id in index && address in Footprint(index[id])))
  {
    hide LayoutOf, Parse, IndexOf, Patched, Recalculate, InFields, CoveredBy, HashOf, Generated, Footprint;
    var identity := IdentityOf(keys);
    RecalculateFrame(d, identity, address);
    if Recalculate(d, identity).0[address] != d[address] && !InFields(LayoutOf(d).value, address) {
      var index := IndexAfterFields(d, identity);
      CoveredIds(index, keys, IsShort(index), Generated(keys, IsShort(index)), address);
    }
  }

  /** The image already contains the right keys: both fields, and every stored block that would be replaced. */
  ghost predicate AlreadyRight(d: seq<byte>, identity: Identity)
    requires Applies(d)
  {
    && FieldsMatch(d, LayoutOf(d).value, identity)
    && Parse(d).Success?
    && (ParsedFits(d);
        var index := IndexOf(Parse(d).value);
        AllStored(d, index, RecordsFor(index, identity), |RecordsFor(index, identity)|))
  }

  lemma PatchedSame(d: seq<byte>, identity: Identity)
    requires LayoutOf(d).Some?
    ensures FieldsMatch(d, LayoutOf(d).value, identity) <==> Patched(d, LayoutOf(d).value, identity) == d
  {
    HashBeforeImei(d);
    hide LayoutOf;
    PatchedFields(d, LayoutOf(d).value, identity);
  }

  lemma PatchedFields(d: seq<byte>, layout: BootcoreLayout, identity: Identity)
    requires layout.hashOffset + 16 <= layout.imeiOffset && layout.imeiOffset + 15 <= |d|
    ensures FieldsMatch(Patched(d, layout, identity), layout, identity)
    ensures Patched(d, layout, identity) == d <==> FieldsMatch(d, layout, identity)
  {
    var p := Patched(d, layout, identity);
    assert p[layout.hashOffset..layout.hashOffset + 16] == identity.hash;
    assert p[layout.imeiOffset..layout.imeiOffset + 15] == identity.imei;
    PutSame(d, layout.hashOffset, identity.hash);
    PutSame(d, layout.imeiOffset, identity.imei);
  }

  /** A result says "not changed" exactly when the image already contains the right keys, and then no byte differs. */
  lemma UnchangedIffAlreadyRight(d: seq<byte>, identity: Identity)
    requires Applies(d)
    ensures Recalculate(d, identity).1.Recalculated? ==>
      (!Recalculate(d, identity).1.changed <==> AlreadyRight(d, identity))
    ensures AlreadyRight(d, identity) ==> Recalculate(d, identity).1.Recalculated? && Recalculate(d, identity).0 == d
  {
    hide LayoutOf, Parse, IndexOf, Patched, WriteAll, CompleteTo, SomeDiffers, FieldsMatch, AllStored;
    PatchedSame(d, identity);
    if FieldsMatch(d, LayoutOf(d).value, identity) && Parse(d).Success? {
      ParsedFits(d);
      var index := IndexOf(Parse(d).value);
      NoDifference(d, index, RecordsFor(index, identity), |RecordsFor(index, identity)|);
    }
  }

  const REQUIRED_IDS: set<nat> := {52, 76, 5008, 5009, 5077, 5121, 5122, 5123}

  /** The sizes a required block must have; 5123 exists in a short and a long form. */
  predicate RequiredSize(id: nat, size: nat) {
    match id
    case 52 => size == 0x122
    case 76 => size == 10
    case 5008 => size == 0xE0
    case 5009 => size == 10
    case 5077 => size == 0xE8
    case 5121 => size == 0x38
    case 5122 => size == 6
    case 5123 => size == 0xC || size == 0x20
    case _ => false
  }

  lemma CompleteIndex(index: Index, keys: Keys)
    ensures CompleteTo(index, Generated(keys, IsShort(index)), |Generated(keys, IsShort(index))|)
      <==> forall id :: id in REQUIRED_IDS ==> id in index && RequiredSize(id, index[id].size)
  {
    hide Record52, Record5008, Record5077, Record5121, Record5122, Record5123, Record5468, Bkey, ImeiBlock.Build;
    var b := Generated(keys, IsShort(index));
    assert CompleteTo(index, b, 10) <==>
      Replaces(index, b[0]) && Replaces(index, b[1]) && Replaces(index, b[3]) && Replaces(index, b[4])
      && Replaces(index, b[5]) && Replaces(index, b[6]) && Replaces(index, b[7]) && Replaces(index, b[8]);
  }

  /** A result says "complete" exactly when every required block is stored with the size its record has. */
  lemma CompleteMeaning(d: seq<byte>, keys: Keys)
    requires Parses(d, IdentityOf(keys))
    ensures Recalculate(d, IdentityOf(keys)).1.Recalculated?
    ensures var index := IndexAfterFields(d, IdentityOf(keys));
      Recalculate(d, IdentityOf(keys)).1.complete <==>
        forall id :: id in REQUIRED_IDS ==> id in index && RequiredSize(id, index[id].size)
  {
    hide LayoutOf, Parse, IndexOf, Patched, WriteAll, SomeDiffers, CompleteTo, FieldsMatch, HashOf, Generated;
    CompleteIndex(IndexAfterFields(d, IdentityOf(keys)), keys);
  }

  /** Nothing happens exactly when there is no layout or the HASH field is erased, and an exception is the parser's. */
  lemma VerdictMeaning(d: seq<byte>, keys: Keys)
    ensures var (out, verdict) := Recalculate(d, IdentityOf(keys)); var layout := LayoutOf(d);
      if layout.None? || (forall k :: layout.value.hashOffset <= k < layout.value.hashOffset + 16 ==> d[k] == 0xFF) then
        verdict == NotNeeded && out == d
      else
        var parsed := Parse(Put(Put(d, layout.value.hashOffset, HashOf(keys.esn, keys.skey)), layout.value.imeiOffset,
          if |keys.imei| >= 15 then keys.imei[..15] else keys.imei + [0]));
        if parsed.Failure? then verdict == Thrown(parsed.error) else verdict.Recalculated?
  {
    hide LayoutOf, Parse, IndexOf, HashOf, Put, WriteAll, CompleteTo, SomeDiffers, FieldsMatch, RecordsOf;
    FieldOfImei(keys.imei);
    if LayoutOf(d).Some? {
      ErasedField(d, LayoutOf(d).value.hashOffset);
    }
    hide IsErased, ImeiField;
  }

  lemma FieldOfImei(imei: ImeiText)
    ensures ImeiField(imei) == if |imei| >= 15 then imei[..15] else imei + [0]
  {
  }

  lemma ErasedField(d: seq<byte>, at: nat)
    requires at + 16 <= |d|
    ensures IsErased(d[at..at + 16]) <==> forall k :: at <= k < at + 16 ==> d[k] == 0xFF
  {
    var field := d[at..at + 16];
    assert forall k :: 0 <= k < 16 ==> field[k] == d[at + k];
    assert forall k :: at <= k < at + 16 ==> d[k] == field[k - at];
  }

  /** The fields then hold the HASH and the IMEI, unless the blocks written reach into them. */
  lemma FieldsReplaced(d: seq<byte>, keys: Keys)
    requires var identity := IdentityOf(keys);
      Recalculate(d, identity).1.Thrown? || (Parses(d, identity) && Undisturbed(d, identity))
    ensures LayoutOf(d).Some? && var out := Recalculate(d, IdentityOf(keys)).0;
      var hashOffset, imeiOffset := LayoutOf(d).value.hashOffset, LayoutOf(d).value.imeiOffset;
      && out[hashOffset..hashOffset + 16] == HashOf(keys.esn, keys.skey)
      && out[imeiOffset..imeiOffset + 15] == if |keys.imei| >= 15 then keys.imei[..15] else keys.imei + [0]
  {
    hide LayoutOf, Parse, IndexOf, Patched, WriteAll, CompleteTo, SomeDiffers, HashOf, RecordsOf, Undisturbed,
      IsErased, ImeiField;
    FieldOfImei(keys.imei);
    var identity := IdentityOf(keys);
    HashBeforeImei(d);
    PatchedFields(d, LayoutOf(d).value, identity);
    if Parses(d, identity) {
      WritesKeep(d, identity);
    }
  }

  // ----- Recalculating again -----

  /** The writes leave every byte of the fields, and every byte that layout detection or parsing looks at, as it is, and
      wake no idle slot of a visited X85 partition up. */
  ghost predicate Undisturbed(d: seq<byte>, identity: Identity)
    requires Parses(d, identity)
  {
    var layout, patched := LayoutOf(d).value, Patched(d, LayoutOf(d).value, identity);
    var out := Recalculate(d, identity).0;
    && (forall a: nat :: a < |out| && InFields(layout, a) ==> out[a] == patched[a])
    && (forall a: nat :: a < |out| && LayoutExamined(patched, a) ==> out[a] == patched[a])
    && KeepsDirectory(patched, out)
  }

  /** The blocks that are replaced stay clear of all those bytes. */
  ghost predicate StaysClear(d: seq<byte>, identity: Identity)
    requires Parses(d, identity)
  {
    var layout, patched := LayoutOf(d).value, Patched(d, LayoutOf(d).value, identity);
    && (forall a: nat :: BlockWritten(d, identity, a) ==>
          !InFields(layout, a) && !LayoutExamined(patched, a) && !Examined(patched, Unknown, 0, a))
    && (forall home, slot :: LeavesIdle(patched, Unknown, 0, home, slot) ==>
          !WokenX85(Recalculate(d, identity).0, home, slot))
  }

  /** Staying clear is enough. */
  lemma ClearIsUndisturbed(d: seq<byte>, identity: Identity)
    requires Parses(d, identity) && StaysClear(d, identity)
    ensures Undisturbed(d, identity)
  {
    hide LayoutOf, Parse, IndexOf, Patched, WriteAll, CompleteTo, SomeDiffers, CoveredBy, Examined, LayoutExamined,
      IdleSlotX85, LeavesIdle, WokenX85, FieldsMatch;
    var patched := Patched(d, LayoutOf(d).value, identity);
    var index := IndexAfterFields(d, identity);
    var blocks := RecordsFor(index, identity);
    forall a: nat | a < |d|
      ensures !BlockWritten(d, identity, a) ==> Recalculate(d, identity).0[a] == patched[a]
    {
      WriteAllAt(patched, patched, index, blocks, |blocks|, a);
    }
  }

  lemma PatchedKeepsLayout(d: seq<byte>, identity: Identity)
    requires LayoutOf(d).Some?
    ensures LayoutOf(Patched(d, LayoutOf(d).value, identity)) == LayoutOf(d)
    ensures FieldsMatch(Patched(d, LayoutOf(d).value, identity), LayoutOf(d).value, identity)
  {
    var layout := LayoutOf(d).value;
    var patched := Patched(d, layout, identity);
    forall a: nat
      ensures LayoutExamined(d, a) ==> !InFields(layout, a)
    {
      FieldsApart(d, a);
    }
    HashBeforeImei(d);
    hide LayoutOf, LayoutExamined;
    forall i | 0 <= i < |d| && LayoutExamined(d, i)
      ensures d[i] == patched[i]
    {
      PatchedFrame(d, identity, i);
    }
    LayoutDependsOnExamined(d, patched);
    PatchedFields(d, layout, identity);
  }

  /** The writes of an undisturbed recalculation leave layout, fields and directory as they are. */
  lemma WritesKeep(d: seq<byte>, identity: Identity)
    requires Parses(d, identity) && Undisturbed(d, identity)
    ensures var patched, out := Patched(d, LayoutOf(d).value, identity), Recalculate(d, identity).0;
      && LayoutOf(out) == LayoutOf(d)
      && FieldsMatch(out, LayoutOf(d).value, identity)
      && Parse(out) == Parse(patched)
  {
    hide LayoutOf, Parse, IndexOf, Patched, Recalculate, LayoutExamined, KeepsDirectory, FieldsMatch;
    var layout, patched, out := LayoutOf(d).value, Patched(d, LayoutOf(d).value, identity), Recalculate(d, identity).0;
    PatchedKeepsLayout(d, identity);
    LayoutDependsOnExamined(patched, out);
    ParseDependsOnExamined(patched, out);
    FieldsAgree(patched, out, layout, identity);
  }

  lemma FieldsAgree(a: seq<byte>, b: seq<byte>, layout: BootcoreLayout, identity: Identity)
    requires |a| == |b| && layout.hashOffset + 16 <= |a| && layout.imeiOffset + 15 <= |a|
    requires forall i: nat :: i < |a| && InFields(layout, i) ==> a[i] == b[i]
    ensures FieldsMatch(b, layout, identity) == FieldsMatch(a, layout, identity)
  {
    assert a[layout.hashOffset..layout.hashOffset + 16] == b[layout.hashOffset..layout.hashOffset + 16] by {
      assert forall i :: layout.hashOffset <= i < layout.hashOffset + 16 ==> InFields(layout, i);
    }
    assert a[layout.imeiOffset..layout.imeiOffset + 15] == b[layout.imeiOffset..layout.imeiOffset + 15] by {
      assert forall i :: layout.imeiOffset <= i < layout.imeiOffset + 15 ==> InFields(layout, i);
    }
  }

  lemma AppliesAgain(out: seq<byte>, identity: Identity)
    requires LayoutOf(out).Some? && FieldsMatch(out, LayoutOf(out).value, identity)
    ensures Applies(out) <==> !IsErased(identity.hash)
  {
    hide LayoutOf, IsErased;
  }

  /** No two blocks a recalculation replaces disagree about a byte; blocks with disjoint footprints never do. */
  ghost predicate WritesAgree(d: seq<byte>, identity: Identity)
    requires Parses(d, identity)
  {
    var index := IndexAfterFields(d, identity);
    Agreeing(index, RecordsFor(index, identity), |RecordsFor(index, identity)|)
  }

  /**
   * A second recalculation with the same keys leaves every byte as it is and stops only on an erased HASH; otherwise
   * it reports the same "complete", and "not changed" exactly when no two of the writes disagree about a byte.
   */
  lemma RecalculateTwice(d: seq<byte>, identity: Identity)
    requires Parses(d, identity) && Undisturbed(d, identity)
    ensures var (out, verdict) := Recalculate(d, identity);
      verdict.Recalculated? && Recalculate(out, identity) ==
        (out, if IsErased(identity.hash) then NotNeeded else Recalculated(verdict.complete, !WritesAgree(d, identity)))
  {
    hide LayoutOf, Parse, IndexOf, Patched, WriteAll, CompleteTo, SomeDiffers, CoveredBy, FieldsMatch,
      AllStored, IsErased, Agreeing;
    var patched, out := Patched(d, LayoutOf(d).value, identity), Recalculate(d, identity).0;
    var index := IndexAfterFields(d, identity);
    var blocks := RecordsFor(index, identity);
    WritesKeep(d, identity);
    PatchedSame(out, identity);
    AppliesAgain(out, identity);
    WriteAllTwice(patched, index, blocks, |blocks|);
    StoredIffAgreeing(patched, index, blocks, |blocks|);
    NoDifference(out, index, blocks, |blocks|);
  }

  /** When the EEPROM parse throws, the fields stay replaced, and a second call throws the same exception over the same
      image. */
  lemma ThrowTwice(d: seq<byte>, identity: Identity)
    requires Recalculate(d, identity).1.Thrown?
    ensures var (out, verdict) := Recalculate(d, identity);
      out == Patched(d, LayoutOf(d).value, identity)
      && Recalculate(out, identity) == (out, if IsErased(identity.hash) then NotNeeded else verdict)
  {
    hide LayoutOf, Parse, IndexOf, Patched, WriteAll, CompleteTo, SomeDiffers, FieldsMatch, IsErased;
    var out := Recalculate(d, identity).0;
    PatchedKeepsLayout(d, identity);
    PatchedSame(out, identity);
    AppliesAgain(out, identity);
  }

  /** Disjoint blocks: the image then contains the right keys, and the second call reports that nothing changed. */
  lemma SecondRunUnchanged(d: seq<byte>, identity: Identity)
    requires Parses(d, identity) && Undisturbed(d, identity) && !IsErased(identity.hash)
    requires var index := IndexAfterFields(d, identity); DisjointBlocks(index, RecordsFor(index, identity))
    ensures var (out, verdict) := Recalculate(d, identity);
      verdict.Recalculated? && Recalculate(out, identity) == (out, Recalculated(verdict.complete, false))
  {
    hide LayoutOf, Parse, IndexOf, Patched, WriteAll, CompleteTo, SomeDiffers, FieldsMatch, Undisturbed, DisjointBlocks,
      Agreeing, IsErased;
    var index := IndexAfterFields(d, identity);
    DisjointAgree(index, RecordsFor(index, identity));
    RecalculateTwice(d, identity);
  }

  /** After an undisturbed recalculation whose writes agree, the image parses to the same index and every replaced
      block reads its record. */
  lemma RecalculatedReads(d: seq<byte>, identity: Identity)
    requires Parses(d, identity) && Undisturbed(d, identity) && WritesAgree(d, identity)
    ensures var out, index := Recalculate(d, identity).0, IndexAfterFields(d, identity);
      && LayoutOf(out) == LayoutOf(d) && LayoutOf(d).Some? && FieldsMatch(out, LayoutOf(d).value, identity)
      && Parse(out).Success? && IndexOf(Parse(out).value) == index
      && AllStored(out, index, RecordsFor(index, identity), |RecordsFor(index, identity)|)
  {
    hide LayoutOf, Parse, IndexOf, Patched, WriteAll, CompleteTo, SomeDiffers, FieldsMatch, AllStored, Agreeing,
      Undisturbed;
    var patched := Patched(d, LayoutOf(d).value, identity);
    var blocks := RecordsFor(IndexAfterFields(d, identity), identity);
    WritesKeep(d, identity);
    StoredIffAgreeing(patched, IndexAfterFields(d, identity), blocks, |blocks|);
  }

  // ----- The generated list -----

  lemma GeneratedRecord(keys: Keys, short: bool, k: nat, g: GeneratedBlock)
    requires k < |Generated(keys, short)| && Generated(keys, short)[k] == g
    ensures k == 0 ==> g == GeneratedBlock(52, Record52(Bkey(keys.esn, keys.skey), keys.verDown), true)
    ensures k == 1 ==> g == GeneratedBlock(76, ImeiBlock.Build(keys.imei, false), true)
    ensures k == 2 ==> g == GeneratedBlock(320, Bkey(keys.esn, keys.skey), false)
    ensures k == 3 ==> g == GeneratedBlock(5008, Record5008(keys.imei, keys.esn), true)
    ensures k == 4 ==> g == GeneratedBlock(5009, ImeiBlock.Build(keys.imei, true), true)
    ensures k == 5 ==> g == GeneratedBlock(5077, Record5077(keys.imei, keys.esn), true)
    ensures k == 6 ==> g == GeneratedBlock(5121, Record5121(keys), true)
    ensures k == 7 ==> g == GeneratedBlock(5122, Record5122(keys.skey), true)
    ensures k == 8 ==> g == GeneratedBlock(5123, Record5123(Record5121(keys), short), true)
    ensures k == 9 ==> g == GeneratedBlock(5468, Record5468(keys, Bkey(keys.esn, keys.skey)), false)
  {
    hide Record52, Record5008, Record5077, Record5121, Record5122, Record5123, Record5468, Bkey, ImeiBlock.Build;
  }

  /** Block 76 decodes in the lite variant and block 5009 in the full one, to 14 digits and their check digit. */
  lemma GeneratedImei(keys: Keys, short: bool, g: GeneratedBlock)
    requires g in Generated(keys, short) && AllDigits(keys.imei[..14])
    ensures g.id == 76 || g.id == 5009 ==>
      ImeiBlock.Decode(g.data, g.id == 5009) == Some(keys.imei[..14] + [ImeiBlock.Char(ImeiBlock.CheckByte(keys.imei))])
  {
    hide Generated, ImeiBlock.Build, ImeiBlock.Decode, ImeiBlock.Char, ImeiBlock.CheckByte, Record52, Record5008,
      Record5077, Record5121, Record5122, Record5123, Record5468, Bkey, AllDigits;
    var k :| 0 <= k < 10 && Generated(keys, short)[k] == g;
    GeneratedRecord(keys, short, k, g);
    ImeiBlock.DecodeBuilt(keys.imei, g.id == 5009);
  }

  /** Long block 5123 and block 5468 over the same bytes: byte 16 is zero in one and 0x58 in the other, whatever the
      keys. */
  lemma OverlapDisagrees(index: Index, keys: Keys, offset: nat, blocks: seq<GeneratedBlock>)
    requires blocks == Generated(keys, false)
    requires 5123 in index && index[5123] == Block(offset, 0x20, Linear)
    requires 5468 in index && index[5468] == Block(offset, 0x31, Linear)
    ensures !IsShort(index) && !Agreeing(index, blocks, |blocks|)
  {
    hide Generated, Record5121, Bkey, Md5.Md5Of;
    GeneratedRecord(keys, false, 8, blocks[8]);
    GeneratedRecord(keys, false, 9, blocks[9]);
    assert ByteOffset(index[5123], 16) == offset + 16 == ByteOffset(index[5468], 16);
    assert Stores(index, blocks[8], offset + 16, blocks[8].data[16]);
    assert Stores(index, blocks[9], offset + 16, blocks[9].data[16]);
    assert blocks[8].data[16] == 0 && blocks[9].data[16] == 0x58;
  }

  /** The image is undisturbed, and its index has long block 5123 and block 5468 from `offset` on. */
  ghost predicate SharesData(d: seq<byte>, identity: Identity, offset: nat) {
    && Parses(d, identity) && Undisturbed(d, identity)
    && var index := IndexAfterFields(d, identity);
      && 5123 in index && index[5123] == Block(offset, 0x20, Linear)
      && 5468 in index && index[5468] == Block(offset, 0x31, Linear)
  }

  /** On every undisturbed image whose index has those two blocks, a second recalculation reports a change it did not
      make. */
  lemma OverlapChangesAgain(d: seq<byte>, keys: Keys, offset: nat)
    requires SharesData(d, IdentityOf(keys), offset) && !IsErased(HashOf(keys.esn, keys.skey))
    ensures var (out, verdict) := Recalculate(d, IdentityOf(keys));
      verdict.Recalculated? && Recalculate(out, IdentityOf(keys)) == (out, Recalculated(verdict.complete, true))
  {
    hide Generated, Agreeing, Undisturbed, Recalculate, IsErased, HashOf, LayoutOf, Parse, IndexOf, Patched;
    var identity := IdentityOf(keys);
    var index := IndexAfterFields(d, identity);
    OverlapDisagrees(index, keys, offset, Generated(keys, false));
    RecalculateTwice(d, identity);
  }
}
