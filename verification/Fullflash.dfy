/** Bootcore layout and the identity stored in an image (src/siemens/fullflash.cpp). */
module Fullflash {
  import opened Wrappers
  import opened Bytes
  import opened BlockIndex
  import opened EepromStore
  import opened Imei
  import opened ImeiBlock
  import opened Md5

  const BOOTCORE_MAGIC_OFFSET: nat := 0x3C
  const MODEL_OFFSET: nat := 0x8FC70
  const VENDOR_OFFSET: nat := 0x8FC80
  const BOOTCORE_MAGIC: word := 0x544B4A43
  const INTERFACE_MAGIC: bv16 := 0x534C

  datatype BootcoreVersion = BootcoreVersion(major: byte, minor: byte)

  datatype BootcoreLayout = BootcoreLayout(version: BootcoreVersion, hashOffset: nat, imeiOffset: nat)

  // ----- Layout -----

  predicate HasInterface(d: seq<byte>, offset: nat) {
    offset + 4 <= |d| && ReadU16(d, offset + 2) == INTERFACE_MAGIC
  }

  /** The first of the two interface headers that is there. */
  function BootcoreVersionOf(d: seq<byte>): Option<BootcoreVersion> {
    if HasInterface(d, 0x200) then Some(BootcoreVersion(d[0x201], d[0x200]))
    else if HasInterface(d, 0x1200) then Some(BootcoreVersion(d[0x1201], d[0x1200]))
    else None
  }

  /** Where HASH and IMEI live for each supported interface version. */
  function LayoutFor(version: BootcoreVersion): Option<BootcoreLayout> {
    if version == BootcoreVersion(2, 0) then Some(BootcoreLayout(version, 0x238, 0x65C))
    else if version == BootcoreVersion(2, 2) then Some(BootcoreLayout(version, 0x23C, 0x660))
    else if version == BootcoreVersion(3, 0) then Some(BootcoreLayout(version, 0x3E400, 0x3E410))
    else None
  }

  function LayoutOf(d: seq<byte>): (r: Option<BootcoreLayout>)
    ensures r.Some? ==> r.value.hashOffset + 16 <= |d| && r.value.imeiOffset + 15 <= |d|
  {
    if |d| < BOOTCORE_MAGIC_OFFSET + 4 || ReadU32(d, BOOTCORE_MAGIC_OFFSET) != BOOTCORE_MAGIC then None
    else
      match BootcoreVersionOf(d)
      case None => None
      case Some(version) =>
        match LayoutFor(version)
        case None => None
        case Some(layout) =>
          if layout.hashOffset + 16 <= |d| && layout.imeiOffset + 15 <= |d| then Some(layout) else None
  }

  method ReadBootcoreVersion(fullflash: array<byte>) returns (r: Option<BootcoreVersion>)
    ensures r == BootcoreVersionOf(fullflash[..])
  {
    var offsets := [0x200, 0x1200];
    for k := 0 to 2
      invariant k >= 1 ==> !HasInterface(fullflash[..], 0x200)
      invariant k >= 2 ==> !HasInterface(fullflash[..], 0x1200)
    {
      var offset := offsets[k];
      if fullflash.Length < offset + 4 {
        continue;
      }
      if ReadU16(fullflash[..], offset + 2) != INTERFACE_MAGIC {
        continue;
      }
      return Some(BootcoreVersion(fullflash[offset + 1], fullflash[offset]));
    }
    return None;
  }

  method GetBootcoreLayout(fullflash: array<byte>) returns (r: Option<BootcoreLayout>)
    ensures r == LayoutOf(fullflash[..])
  {
    hide BootcoreVersionOf, ReadU32;
    if fullflash.Length < BOOTCORE_MAGIC_OFFSET + 4 {
      return None;
    }
    var magic := LoadU32(fullflash, BOOTCORE_MAGIC_OFFSET);
    if magic != BOOTCORE_MAGIC {
      return None;
    }
    var version := ReadBootcoreVersion(fullflash);
    if version.None? {
      return None;
    }
    var v := version.value;
    var layout;
    if v.major == 2 && v.minor == 0 {
      layout := BootcoreLayout(v, 0x238, 0x65C);
    } else if v.major == 2 && v.minor == 2 {
      layout := BootcoreLayout(v, 0x23C, 0x660);
    } else if v.major == 3 && v.minor == 0 {
      layout := BootcoreLayout(v, 0x3E400, 0x3E410);
    } else {
      return None;
    }
    var hashEnd, imeiEnd := layout.hashOffset + 16, layout.imeiOffset + 15;
    var requiredSize := if hashEnd > imeiEnd then hashEnd else imeiEnd;
    if fullflash.Length < requiredSize {
      return None;
    }
    return Some(layout);
  }

  // ----- What the layout depends on -----

  /** The bytes layout detection looks at: the magic, and the interface header that decides. */
  ghost predicate LayoutExamined(d: seq<byte>, address: nat) {
    || BOOTCORE_MAGIC_OFFSET <= address < BOOTCORE_MAGIC_OFFSET + 4
    || 0x202 <= address < 0x204
    || (if HasInterface(d, 0x200) then 0x200 <= address < 0x202 else 0x1200 <= address < 0x1204)
  }

  lemma LayoutDependsOnExamined(a: seq<byte>, b: seq<byte>)
    requires |a| == |b| && forall i :: 0 <= i < |a| && LayoutExamined(a, i) ==> a[i] == b[i]
    ensures LayoutOf(b) == LayoutOf(a)
  {
    hide Join, LayoutFor;
    if |a| >= BOOTCORE_MAGIC_OFFSET + 4 {
      assert a[0x3C] == b[0x3C] && a[0x3D] == b[0x3D] && a[0x3E] == b[0x3E] && a[0x3F] == b[0x3F];
    }
    if |a| >= 0x204 {
      assert a[0x202] == b[0x202] && a[0x203] == b[0x203];
      if HasInterface(a, 0x200) {
        assert a[0x200] == b[0x200] && a[0x201] == b[0x201];
      } else if |a| >= 0x1204 {
        assert a[0x1200] == b[0x1200] && a[0x1201] == b[0x1201] && a[0x1202] == b[0x1202] && a[0x1203] == b[0x1203];
      }
    }
  }

  /** HASH and IMEI lie apart from each other and from everything layout detection reads. */
  lemma FieldsApart(d: seq<byte>, address: nat)
    requires LayoutOf(d).Some?
    ensures var l := LayoutOf(d).value;
      && (LayoutExamined(d, address) ==> !(l.hashOffset <= address < l.hashOffset + 16))
      && (LayoutExamined(d, address) ==> !(l.imeiOffset <= address < l.imeiOffset + 15))
      && !(l.hashOffset <= address < l.hashOffset + 16 && l.imeiOffset <= address < l.imeiOffset + 15)
  {
    hide ReadU16, ReadU32;
  }

  /** HASH ends where IMEI begins, or before. */
  lemma HashBeforeImei(d: seq<byte>)
    requires LayoutOf(d).Some?
    ensures LayoutOf(d).value.hashOffset + 16 <= LayoutOf(d).value.imeiOffset
  {
    hide ReadU16, ReadU32;
  }

  // ----- Identity -----

  /** Empty sequences stand for fields that were not found. */
  datatype Info = Info(device: seq<byte>, vendor: seq<byte>, model: seq<byte>, imei: seq<byte>, bkey: seq<byte>,
                       skey: seq<byte>, hash: seq<byte>, version: BootcoreVersion)

  function FirstZero(d: seq<byte>, from: nat, to: nat): nat
    requires from <= to <= |d|
    decreases |d| - from
  {
    if from == to || d[from] == 0 then from else FirstZero(d, from + 1, to)
  }

  lemma FirstZeroBound(d: seq<byte>, from: nat, to: nat)
    requires from <= to <= |d|
    ensures from <= FirstZero(d, from, to) <= to
    decreases |d| - from
  {
  }

  /** A zero-terminated string of fewer than `length` characters. */
  function StringAt(d: seq<byte>, offset: nat, length: nat): Option<seq<byte>> {
    if offset + length > |d| then None
    else
      FirstZeroBound(d, offset, offset + length);
      var end := FirstZero(d, offset, offset + length);
      if end == offset + length then None else Some(d[offset..end])
  }

  method ReadString(data: array<byte>, offset: nat, length: nat) returns (r: Option<seq<byte>>)
    ensures r == StringAt(data[..], offset, length)
  {
    if offset > data.Length {
      return None;
    }
    if length > data.Length - offset {
      return None;
    }
    var value := [];
    for index := 0 to length
      invariant value == data[offset..offset + index]
      invariant FirstZero(data[..], offset, offset + length) == FirstZero(data[..], offset + index, offset + length)
    {
      var character := data[offset + index];
      if character == 0 {
        assert data[..][offset..offset + index] == data[offset..offset + index];
        return Some(value);
      }
      value := value + [character];
    }
    return None;
  }

  const SIEMENS: seq<byte> := [0x53, 0x49, 0x45, 0x4D, 0x45, 0x4E, 0x53]
  const BENQ_SIEMENS: seq<byte> := [0x42, 0x45, 0x4E, 0x51, 0x2D, 0x53, 0x49, 0x45, 0x4D, 0x45, 0x4E, 0x53]

  /** "siemens-" */
  const DEVICE_PREFIX: seq<byte> := [0x73, 0x69, 0x65, 0x6D, 0x65, 0x6E, 0x73, 0x2D]

  /** tolower in the C locale. */
  function Lower(c: byte): byte {
    if 0x41 <= c <= 0x5A then c + 0x20 else c
  }

  function Lowered(s: seq<byte>): (r: seq<byte>)
    ensures |r| == |s|
  {
    seq(|s|, i requires 0 <= i < |s| => Lower(s[i]))
  }

  function DeviceName(model: seq<byte>): seq<byte> {
    DEVICE_PREFIX + Lowered(model)
  }

  /** The prefix is lower case already, so lowering the whole name is lowering the model. */
  method BuildDeviceName(model: seq<byte>) returns (device: seq<byte>)
    ensures device == DeviceName(model)
  {
    var name := DEVICE_PREFIX + model;
    device := [];
    for index := 0 to |name|
      invariant device == Lowered(name[..index])
    {
      device := device + [Lower(name[index])];
    }
    assert name[..|name|] == name;
    assert Lowered(name) == DEVICE_PREFIX + Lowered(model) by {
      assert forall i :: 0 <= i < 8 ==> Lower(DEVICE_PREFIX[i]) == DEVICE_PREFIX[i];
    }
  }

  function BootcoreImei(d: seq<byte>, at: nat): seq<byte>
    requires at + 15 <= |d|
  {
    if AllDigits(d[at..at + 15]) then d[at..at + 15] else []
  }

  function BootcoreHash(d: seq<byte>, at: nat): seq<byte>
    requires at + 16 <= |d|
  {
    if IsErased(d[at..at + 16]) then [] else d[at..at + 16]
  }

  /** The IMEI of an EEPROM block, when it is still missing and the block decodes. */
  function OrDecoded(imei: seq<byte>, block: Option<seq<byte>>, full: bool): seq<byte> {
    if imei == [] && block.Some? && Decode(block.value, full).Some? then Decode(block.value, full).value else imei
  }

  function SkeyOf(block: Option<seq<byte>>): seq<byte> {
    if block.Some? && |block.value| >= 4 then block.value[..4] else []
  }

  /** A block's first 16 bytes are the BKEY if they are not erased and hash to the stored HASH, if any. */
  function BkeyOf(block: Option<seq<byte>>, hash: seq<byte>): Option<seq<byte>> {
    if block.None? || |block.value| < 16 || IsErased(block.value[..16]) then None
    else if hash != [] && Md5Of(block.value[..16]) != hash then None
    else Some(block.value[..16])
  }

  /** What getFullflashInfo finds, given how EEPROM blocks read. */
  function InfoOf(d: seq<byte>, read: nat -> Option<seq<byte>>): Option<Info> {
    match LayoutOf(d)
    case None => None
    case Some(layout) =>
      var vendor, model := StringAt(d, VENDOR_OFFSET, 16), StringAt(d, MODEL_OFFSET, 16);
      if vendor.None? || (vendor.value != SIEMENS && vendor.value != BENQ_SIEMENS) then None
      else if model.None? || model.value == [] then None
      else
        var imei := OrDecoded(OrDecoded(BootcoreImei(d, layout.imeiOffset), read(76), false), read(5009), true);
        var hash := BootcoreHash(d, layout.hashOffset);
        var bkey52 := BkeyOf(read(52), hash);
        var bkey := if bkey52.Some? then bkey52 else BkeyOf(read(320), hash);
        Some(Info(DeviceName(model.value), vendor.value, model.value, imei, if bkey.Some? then bkey.value else [],
                  SkeyOf(read(5122)), if hash == [] && bkey.Some? then Md5Of(bkey.value) else hash, layout.version))
  }

  ghost predicate AllFit(index: Index, length: nat) {
    forall id :: id in index ==> Fits(index[id], length)
  }

  /** How the blocks of an index read in an image. */
  ghost function Reader(d: seq<byte>, index: Index): nat -> Option<seq<byte>>
    requires AllFit(index, |d|)
  {
    (id: nat) => if id in index && Fits(index[id], |d|) then Some(Payload(d, index[id])) else None
  }

  lemma ValidFits(eeprom: Eeprom)
    requires eeprom.Valid()
    ensures AllFit(eeprom.blocks, eeprom.data.Length)
  {
    forall id | id in eeprom.blocks
      ensures Fits(eeprom.blocks[id], eeprom.data.Length)
    {
      RegisteredFits(id, eeprom.blocks[id], eeprom.layout, eeprom.data.Length);
    }
  }

  /** hasBlock and then readBlock. */
  method ReadOptional(eeprom: Eeprom, id: nat) returns (block: Option<seq<byte>>)
    requires eeprom.Valid()
    ensures AllFit(eeprom.blocks, eeprom.data.Length)
    ensures block == Reader(eeprom.data[..], eeprom.blocks)(id)
  {
    ValidFits(eeprom);
    var present := eeprom.HasBlock(id);
    if !present {
      return None;
    }
    var value := eeprom.ReadBlock(id);
    return Some(value.value);
  }

  method GetFullflashInfo(eeprom: Eeprom) returns (r: Option<Info>)
    requires eeprom.Valid()
    ensures AllFit(eeprom.blocks, eeprom.data.Length)
    ensures r == InfoOf(eeprom.data[..], Reader(eeprom.data[..], eeprom.blocks))
  {
    hide LayoutOf, StringAt, Decode, Md5Of, IsErased, AllDigits, Reader;
    var fullflash := eeprom.data;
    ValidFits(eeprom);
    var bootcore := GetBootcoreLayout(fullflash);
    if bootcore.None? {
      return None;
    }
    var vendor := ReadString(fullflash, VENDOR_OFFSET, 16);
    if vendor.None? || (vendor.value != SIEMENS && vendor.value != BENQ_SIEMENS) {
      return None;
    }
    var model := ReadString(fullflash, MODEL_OFFSET, 16);
    if model.None? || model.value == [] {
      return None;
    }
    var imei := BootcoreImei(fullflash[..], bootcore.value.imeiOffset);
    var hash := BootcoreHash(fullflash[..], bootcore.value.hashOffset);
    imei := DecodeWhenMissing(eeprom, imei, 76, false);
    imei := DecodeWhenMissing(eeprom, imei, 5009, true);
    var block5122 := ReadOptional(eeprom, 5122);
    var bkey, fullHash := FindBkey(eeprom, hash);
    var device := BuildDeviceName(model.value);
    return Some(Info(device, vendor.value, model.value, imei, bkey, SkeyOf(block5122), fullHash,
      bootcore.value.version));
  }

  /** The IMEI from an EEPROM block, only when it was not found before. */
  method DecodeWhenMissing(eeprom: Eeprom, imei: seq<byte>, id: nat, full: bool) returns (result: seq<byte>)
    requires eeprom.Valid()
    ensures AllFit(eeprom.blocks, eeprom.data.Length)
    ensures result == OrDecoded(imei, Reader(eeprom.data[..], eeprom.blocks)(id), full)
  {
    hide Decode, Reader;
    ValidFits(eeprom);
    result := imei;
    if imei == [] {
      var block := ReadOptional(eeprom, id);
      if block.Some? {
        var decoded := DecodeImeiBlock(block.value, full);
        if decoded.Some? {
          result := decoded.value;
        }
      }
    }
  }

  /** The loop over blocks 52 and 320. */
  method FindBkey(eeprom: Eeprom, hash: seq<byte>) returns (bkey: seq<byte>, fullHash: seq<byte>)
    requires eeprom.Valid()
    ensures AllFit(eeprom.blocks, eeprom.data.Length)
    ensures var read := Reader(eeprom.data[..], eeprom.blocks);
      var found := if BkeyOf(read(52), hash).Some? then BkeyOf(read(52), hash) else BkeyOf(read(320), hash);
      && bkey == (if found.Some? then found.value else [])
      && fullHash == if hash == [] && found.Some? then Md5Of(found.value) else hash
  {
    hide Md5Of, IsErased, Reader;
    ValidFits(eeprom);
    bkey, fullHash := [], hash;
    var ids := [52, 320];
    ghost var read := Reader(eeprom.data[..], eeprom.blocks);
    for k := 0 to 2
      invariant bkey == [] && fullHash == hash
      invariant k >= 1 ==> BkeyOf(read(52), hash).None?
      invariant k >= 2 ==> BkeyOf(read(320), hash).None?
    {
      var block := ReadOptional(eeprom, ids[k]);
      if block.None? || |block.value| < 16 {
        continue;
      }
      var candidate := block.value[..16];
      if IsErased(candidate) {
        continue;
      }
      var calculatedHash := Md5Digest(candidate);
      if hash != [] && calculatedHash != hash {
        continue;
      }
      bkey := candidate;
      if hash == [] {
        fullHash := calculatedHash;
      }
      break;
    }
  }
}
