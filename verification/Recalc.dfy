/** The in-place recalculation of a fullflash (recalculateFullflash, src/siemens/recalc.cpp). */
module Recalc {
  import opened Wrappers
  import opened Bytes
  import opened Directory
  import opened BlockIndex
  import opened EepromStore
  import opened Imei
  import opened Keys
  import opened Records
  import opened Fullflash
  import ImeiBlock

  datatype GeneratedBlock = GeneratedBlock(id: nat, data: seq<byte>, required: bool)

  /** How a recalculation ends: not applicable, an exception of the EEPROM parser, or a result. */
  datatype Verdict = NotNeeded | Thrown(error: EepromError) | Recalculated(complete: bool, changed: bool)

  // ----- The generated blocks and their writes, on values -----

  function Generated(keys: Keys, shortVariant: bool): (blocks: seq<GeneratedBlock>)
    ensures |blocks| == 10
  {
    var bkey := Bkey(keys.esn, keys.skey);
    var block5121 := Record5121(keys);
    [
      GeneratedBlock(52, Record52(bkey, keys.verDown), true),
      GeneratedBlock(76, ImeiBlock.Build(keys.imei, false), true),
      GeneratedBlock(320, bkey, false),
      GeneratedBlock(5008, Record5008(keys.imei, keys.esn), true),
      GeneratedBlock(5009, ImeiBlock.Build(keys.imei, true), true),
      GeneratedBlock(5077, Record5077(keys.imei, keys.esn), true),
      GeneratedBlock(5121, block5121, true),
      GeneratedBlock(5122, Record5122(keys.skey), true),
      GeneratedBlock(5123, Record5123(block5121, shortVariant), true),
      GeneratedBlock(5468, Record5468(keys, bkey), false)
    ]
  }

  /** What a recalculation stores: HASH, the IMEI digits, and the records for the short or the long form of
      block 5123. */
  datatype IdentityData = IdentityData(hash: seq<byte>, imei: seq<byte>, records: bool -> seq<GeneratedBlock>)

  type Identity = i: IdentityData | |i.hash| == 16 && |i.imei| == 15
    witness IdentityData(seq(16, _ => 0), seq(15, _ => 0x30), _ => [])

  function RecordsOf(keys: Keys): bool -> seq<GeneratedBlock> {
    (short: bool) => Generated(keys, short)
  }

  /** The 15 bytes copied to the IMEI field; a 14-character IMEI contributes its terminating zero. */
  function ImeiField(imei: ImeiText): (field: seq<byte>)
    ensures |field| == 15
  {
    (imei + [0])[..15]
  }

  function IdentityOf(keys: Keys): Identity {
    IdentityData(HashOf(keys.esn, keys.skey), ImeiField(keys.imei), RecordsOf(keys))
  }

  /** Block 5123 takes its short form exactly when a block of that size is stored. */
  function IsShort(index: Index): bool {
    5123 in index && index[5123].size == 0xC
  }

  /** The generated block replaces a stored one: it is there and has the generated size. */
  predicate Replaces(index: Index, g: GeneratedBlock) {
    g.id in index && index[g.id].size == |g.data|
  }

  function WriteOne(d: seq<byte>, index: Index, g: GeneratedBlock): (r: seq<byte>)
    requires AllFit(index, |d|)
    ensures |r| == |d|
  {
    if Replaces(index, g) then Patch(d, index[g.id], g.data) else d
  }

  function WriteAll(d: seq<byte>, index: Index, blocks: seq<GeneratedBlock>, n: nat): (r: seq<byte>)
    requires AllFit(index, |d|) && n <= |blocks|
    ensures |r| == |d|
  {
    if n == 0 then d else WriteOne(WriteAll(d, index, blocks, n - 1), index, blocks[n - 1])
  }

  /** Some of the first `n` writes found a different value. */
  ghost predicate SomeDiffers(d: seq<byte>, index: Index, blocks: seq<GeneratedBlock>, n: nat)
    requires AllFit(index, |d|) && n <= |blocks|
  {
    exists k :: 0 <= k < n && Replaces(index, blocks[k])
      && Payload(WriteAll(d, index, blocks, k), index[blocks[k].id]) != blocks[k].data
  }

  /** Every required block among the first `n` is there with the generated size. */
  predicate CompleteTo(index: Index, blocks: seq<GeneratedBlock>, n: nat)
    requires n <= |blocks|
  {
    forall k :: 0 <= k < n && blocks[k].required ==> Replaces(index, blocks[k])
  }

  function Patched(d: seq<byte>, layout: BootcoreLayout, identity: Identity): (r: seq<byte>)
    requires layout.hashOffset + 16 <= |d| && layout.imeiOffset + 15 <= |d|
    ensures |r| == |d|
  {
    Put(Put(d, layout.hashOffset, identity.hash), layout.imeiOffset, identity.imei)
  }

  predicate FieldsMatch(d: seq<byte>, layout: BootcoreLayout, identity: Identity)
    requires layout.hashOffset + 16 <= |d| && layout.imeiOffset + 15 <= |d|
  {
    d[layout.hashOffset..layout.hashOffset + 16] == identity.hash
      && d[layout.imeiOffset..layout.imeiOffset + 15] == identity.imei
  }

  predicate Applies(d: seq<byte>) {
    LayoutOf(d).Some? && var at := LayoutOf(d).value.hashOffset; !IsErased(d[at..at + 16])
  }

  lemma ParsedFits(d: seq<byte>)
    requires Parse(d).Success?
    ensures AllFit(IndexOf(Parse(d).value), |d|)
  {
    var index := IndexOf(Parse(d).value);
    forall id | id in index
      ensures Fits(index[id], |d|)
    {
      IndexInvariant(d, id);
    }
  }

  /** The image and the verdict a recalculation leaves behind; an exception leaves HASH and IMEI replaced. */
  ghost function Recalculate(d: seq<byte>, identity: Identity): (r: (seq<byte>, Verdict))
    ensures |r.0| == |d|
  {
    if !Applies(d) then (d, NotNeeded)
    else
      var layout := LayoutOf(d).value;
      var patched := Patched(d, layout, identity);
      match Parse(patched)
      case Failure(error) => (patched, Thrown(error))
      case Success(listing) =>
        ParsedFits(patched);
        var index := IndexOf(listing);
        var blocks := identity.records(IsShort(index));
        (WriteAll(patched, index, blocks, |blocks|),
         Recalculated(CompleteTo(index, blocks, |blocks|),
                      !FieldsMatch(d, layout, identity) || SomeDiffers(patched, index, blocks, |blocks|)))
  }

  // ----- The code -----

  method GenerateBlocks(keys: Keys, block5123Size: nat, bkey: seq<byte>) returns (blocks: seq<GeneratedBlock>)
    requires bkey == Bkey(keys.esn, keys.skey)
    ensures blocks == Generated(keys, block5123Size == 0xC)
  {
    hide Record52, Record5008, Record5077, Record5121, Record5122, Record5123, Record5468, Bkey, ImeiBlock.Build;
    var block5121 := BuildBlock5121(keys);
    var block52 := BuildBlock52(bkey, keys.verDown);
    var block76 := ImeiBlock.BuildImeiBlock(keys.imei, false);
    var block5008 := BuildBlock5008(keys.imei, keys.esn);
    var block5009 := ImeiBlock.BuildImeiBlock(keys.imei, true);
    var block5077 := BuildBlock5077(keys.imei, keys.esn);
    var block5122 := BuildBlock5122(keys.skey);
    var block5123 := BuildBlock5123(block5121, block5123Size == 0xC);
    var block5468 := BuildBlock5468(keys, bkey);
    blocks := [
      GeneratedBlock(52, block52, true),
      GeneratedBlock(76, block76, true),
      GeneratedBlock(320, bkey, false),
      GeneratedBlock(5008, block5008, true),
      GeneratedBlock(5009, block5009, true),
      GeneratedBlock(5077, block5077, true),
      GeneratedBlock(5121, block5121, true),
      GeneratedBlock(5122, block5122, true),
      GeneratedBlock(5123, block5123, true),
      GeneratedBlock(5468, block5468, false)
    ];
  }

  /** memcmp and memcpy of one bootcore field. */
  method ReplaceField(fullflash: array<byte>, at: nat, value: seq<byte>) returns (changed: bool)
    requires at + |value| <= fullflash.Length
    modifies fullflash
    ensures fullflash[..] == Put(old(fullflash[..]), at, value)
    ensures changed == (old(fullflash[at..at + |value|]) != value)
  {
    changed := false;
    if fullflash[at..at + |value|] != value {
      CopyInto(fullflash, at, value);
      changed := true;
    } else {
      PutSame(fullflash[..], at, value);
      assert fullflash[..][at..at + |value|] == fullflash[at..at + |value|];
    }
  }

  lemma PutSame(d: seq<byte>, at: nat, value: seq<byte>)
    requires at + |value| <= |d|
    ensures d[at..at + |value|] == value ==> Put(d, at, value) == d
  {
    if d[at..at + |value|] == value {
      assert forall i :: at <= i < at + |value| ==> d[i] == d[at..at + |value|][i - at];
    }
  }

  /** Replacing HASH leaves the IMEI field alone. */
  lemma ImeiFieldKept(d: seq<byte>, layout: BootcoreLayout, hash: seq<byte>)
    requires LayoutOf(d) == Some(layout) && |hash| == 16
    ensures Put(d, layout.hashOffset, hash)[layout.imeiOffset..layout.imeiOffset + 15]
         == d[layout.imeiOffset..layout.imeiOffset + 15]
  {
    forall a: nat | layout.imeiOffset <= a < layout.imeiOffset + 15
      ensures Put(d, layout.hashOffset, hash)[a] == d[a]
    {
      FieldsApart(d, a);
    }
  }

  /** The two bootcore fields: each is compared and then replaced. */
  method ReplaceFields(fullflash: array<byte>, layout: BootcoreLayout, hash: seq<byte>, imei: seq<byte>,
      ghost identity: Identity)
    returns (changed: bool)
    requires LayoutOf(fullflash[..]) == Some(layout) && hash == identity.hash && imei == identity.imei
    modifies fullflash
    ensures fullflash[..] == Patched(old(fullflash[..]), layout, identity)
    ensures changed == !FieldsMatch(old(fullflash[..]), layout, identity)
  {
    hide LayoutOf, Put;
    ghost var image := fullflash[..];
    var hashOffset, imeiOffset := layout.hashOffset, layout.imeiOffset;
    assert fullflash[hashOffset..hashOffset + 16] == image[hashOffset..hashOffset + 16];
    ImeiFieldKept(image, layout, hash);
    var hashChanged := ReplaceField(fullflash, hashOffset, hash);
    assert fullflash[imeiOffset..imeiOffset + 15] == fullflash[..][imeiOffset..imeiOffset + 15];
    var imeiChanged := ReplaceField(fullflash, imeiOffset, imei);
    changed := hashChanged || imeiChanged;
  }

  method RecalculateFullflash(fullflash: array<byte>, keys: Keys) returns (verdict: Verdict)
    modifies fullflash
    ensures (fullflash[..], verdict) == Recalculate(old(fullflash[..]), IdentityOf(keys))
  {
    hide LayoutOf, Parse, IndexOf, Generated, HashOf, Bkey, IsErased, Put;
    ghost var image := fullflash[..];
    var layout := GetBootcoreLayout(fullflash);
    if layout.None? {
      return NotNeeded;
    }
    var bkey, hash := CalculateBkeyAndHash(keys.esn, keys.skey);
    var hashOffset := layout.value.hashOffset;
    var erased := IsErasedData(fullflash, hashOffset, 16);
    assert fullflash[hashOffset..hashOffset + 16] == image[hashOffset..hashOffset + 16];
    if erased {
      return NotNeeded;
    }
    var fieldsChanged := ReplaceFields(fullflash, layout.value, hash, ImeiField(keys.imei), IdentityOf(keys));
    ghost var patched := fullflash[..];
    var parsed := OpenEeprom(fullflash);
    if parsed.Failure? {
      return Thrown(parsed.error);
    }
    var eeprom := parsed.value;
    ParsedFits(patched);
    var has5123 := eeprom.HasBlock(5123);
    var block5123Size := 0;
    if has5123 {
      var size := eeprom.GetBlockSize(5123);
      block5123Size := size.value;
    }
    var blocks := GenerateBlocks(keys, block5123Size, bkey);
    var complete, written := WriteBlocks(eeprom, blocks);
    verdict := Recalculated(complete, fieldsChanged || written);
  }

  /** The loop over the generated blocks. */
  method WriteBlocks(eeprom: Eeprom, blocks: seq<GeneratedBlock>) returns (complete: bool, changed: bool)
    requires eeprom.Valid()
    modifies eeprom.data
    ensures AllFit(eeprom.blocks, eeprom.data.Length)
    ensures eeprom.data[..] == WriteAll(old(eeprom.data[..]), eeprom.blocks, blocks, |blocks|)
    ensures complete == CompleteTo(eeprom.blocks, blocks, |blocks|)
    ensures changed == SomeDiffers(old(eeprom.data[..]), eeprom.blocks, blocks, |blocks|)
  {
    ValidFits(eeprom);
    ghost var image := eeprom.data[..];
    complete, changed := true, false;
    for k := 0 to |blocks|
      invariant eeprom.data[..] == WriteAll(image, eeprom.blocks, blocks, k)
      invariant complete == CompleteTo(eeprom.blocks, blocks, k)
      invariant changed == SomeDiffers(image, eeprom.blocks, blocks, k)
    {
      hide Patch, Payload;
      SomeDiffersNext(image, eeprom.blocks, blocks, k);
      var g := blocks[k];
      var present := eeprom.HasBlock(g.id);
      if !present {
        if g.required {
          complete := false;
        }
        continue;
      }
      var blockSize := eeprom.GetBlockSize(g.id);
      if blockSize.value != |g.data| {
        if g.required {
          complete := false;
        }
        continue;
      }
      var written := eeprom.WriteBlock(g.id, g.data);
      if written.value {
        changed := true;
      }
    }
  }

  lemma SomeDiffersNext(d: seq<byte>, index: Index, blocks: seq<GeneratedBlock>, n: nat)
    requires AllFit(index, |d|) && n < |blocks|
    ensures SomeDiffers(d, index, blocks, n + 1) <==> (
      || SomeDiffers(d, index, blocks, n)
      || (Replaces(index, blocks[n]) && Payload(WriteAll(d, index, blocks, n), index[blocks[n].id]) != blocks[n].data))
  {
    hide Payload, WriteAll;
  }
}
