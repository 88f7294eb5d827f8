/** Which images are recognised and what is found in them: the declarative reading of src/siemens/fullflash.cpp. */
module FullflashMeaning {
  import opened Wrappers
  import opened Bytes
  import opened Imei
  import opened ImeiBlock
  import opened Md5
  import opened Fullflash

  // ----- Layout -----

  /** An interface header: a version, minor number first, and "LS". */
  ghost predicate Header(d: seq<byte>, at: nat) {
    at + 4 <= |d| && d[at + 2] == 0x4C && d[at + 3] == 0x53
  }

  /** The bootcore magic "CJKT". */
  ghost predicate Magic(d: seq<byte>) {
    |d| >= 0x40 && d[0x3C] == 0x43 && d[0x3D] == 0x4A && d[0x3E] == 0x4B && d[0x3F] == 0x54
  }

  lemma MagicWord(b0: byte, b1: byte, b2: byte, b3: byte)
    ensures Join(b0, b1, b2, b3) == BOOTCORE_MAGIC <==> b0 == 0x43 && b1 == 0x4A && b2 == 0x4B && b3 == 0x54
  {
    SplitWord(b0, b1, b2, b3);
    assert Join(0x43, 0x4A, 0x4B, 0x54) == BOOTCORE_MAGIC;
    SplitWord(0x43, 0x4A, 0x4B, 0x54);
    hide Join, U32;
  }

  lemma HeaderWord(b0: byte, b1: byte)
    ensures b0 as bv16 | (b1 as bv16 << 8) == INTERFACE_MAGIC <==> b0 == 0x4C && b1 == 0x53
  {
  }

  /**
   * HASH and IMEI are found exactly in images with the magic, an interface header at 0x200 or else at 0x1200, one of
   * three versions in it, and room for both fields at the place that version has them.
   */
  lemma LayoutMeaning(d: seq<byte>)
    ensures var at := if Header(d, 0x200) then 0x200 else 0x1200;
      if !Magic(d) || !Header(d, at) then LayoutOf(d) == None
      else
        var major, minor := d[at + 1], d[at];
        LayoutOf(d)
          == if major == 2 && minor == 0 && |d| >= 0x66B then
               Some(BootcoreLayout(BootcoreVersion(2, 0), 0x238, 0x65C))
             else if major == 2 && minor == 2 && |d| >= 0x66F then
               Some(BootcoreLayout(BootcoreVersion(2, 2), 0x23C, 0x660))
             else if major == 3 && minor == 0 && |d| >= 0x3E41F then
               Some(BootcoreLayout(BootcoreVersion(3, 0), 0x3E400, 0x3E410))
             else None
  {
    MagicMeaning(d);
    HeaderMeaning(d, 0x200);
    HeaderMeaning(d, 0x1200);
    hide ReadU32, HasInterface, Magic;
  }

  lemma MagicMeaning(d: seq<byte>)
    ensures Magic(d) <==> |d| >= 0x40 && ReadU32(d, 0x3C) == BOOTCORE_MAGIC
  {
    if |d| >= 0x40 {
      MagicWord(d[0x3C], d[0x3D], d[0x3E], d[0x3F]);
    }
    hide Join;
  }

  lemma HeaderMeaning(d: seq<byte>, at: nat)
    ensures Header(d, at) <==> HasInterface(d, at)
  {
    if at + 4 <= |d| {
      HeaderWord(d[at + 2], d[at + 3]);
    }
  }

  // ----- Strings -----

  /** A string of fewer than 16 characters ends with a zero byte inside its field. */
  ghost predicate Spelled(d: seq<byte>, at: nat, s: seq<byte>) {
    at + 16 <= |d| && |s| < 16 && d[at..at + |s|] == s && d[at + |s|] == 0 && 0 !in s
  }

  lemma {:induction false} FirstZeroIs(d: seq<byte>, from: nat, to: nat, z: nat)
    requires from <= z < to <= |d| && d[z] == 0 && forall a :: from <= a < z ==> d[a] != 0
    ensures FirstZero(d, from, to) == z
    decreases z - from
  {
    if from < z {
      FirstZeroIs(d, from + 1, to, z);
    }
  }

  lemma {:induction false} FirstZeroStops(d: seq<byte>, from: nat, to: nat)
    requires from <= to <= |d|
    ensures from <= FirstZero(d, from, to) <= to && forall a :: from <= a < FirstZero(d, from, to) ==> d[a] != 0
    ensures FirstZero(d, from, to) < to ==> d[FirstZero(d, from, to)] == 0
    decreases |d| - from
  {
    if from < to && d[from] != 0 {
      FirstZeroStops(d, from + 1, to);
    }
  }

  lemma StringMeaning(d: seq<byte>, at: nat, s: seq<byte>)
    ensures StringAt(d, at, 16) == Some(s) <==> Spelled(d, at, s)
  {
    hide FirstZero;
    if at + 16 <= |d| {
      FirstZeroStops(d, at, at + 16);
      var end := FirstZero(d, at, at + 16);
      if Spelled(d, at, s) {
        assert forall k :: 0 <= k < |s| ==> d[at + k] == s[k];
        assert forall a :: at <= a < at + |s| ==> d[a] == s[a - at];
        FirstZeroIs(d, at, at + 16, at + |s|);
      }
    }
  }

  // ----- Identity -----

  /** "SIEMENS" and "BENQ-SIEMENS". */
  ghost predicate Vendor(s: seq<byte>) {
    || s == [0x53, 0x49, 0x45, 0x4D, 0x45, 0x4E, 0x53]
    || s == [0x42, 0x45, 0x4E, 0x51, 0x2D, 0x53, 0x49, 0x45, 0x4D, 0x45, 0x4E, 0x53]
  }

  /** An identity is found exactly when there is a layout, a known vendor and a model. */
  lemma InfoFoundMeaning(d: seq<byte>, read: nat -> Option<seq<byte>>)
    ensures InfoOf(d, read).Some? <==>
      && LayoutOf(d).Some?
      && (exists vendor :: Vendor(vendor) && Spelled(d, 0x8FC80, vendor))
      && exists model :: model != [] && Spelled(d, 0x8FC70, model)
    ensures InfoOf(d, read).Some? ==> (
      var info := InfoOf(d, read).value;
      && Vendor(info.vendor) && Spelled(d, 0x8FC80, info.vendor) && info.model != [] && Spelled(d, 0x8FC70, info.model)
      && info.version == LayoutOf(d).value.version)
  {
    hide LayoutOf, StringAt, Decode, Md5Of, IsErased, AllDigits, BkeyOf, SkeyOf, DeviceName, OrDecoded, BootcoreImei,
      BootcoreHash;
    var vendor, model := StringAt(d, 0x8FC80, 16), StringAt(d, 0x8FC70, 16);
    forall s
      ensures vendor == Some(s) <==> Spelled(d, 0x8FC80, s)
      ensures model == Some(s) <==> Spelled(d, 0x8FC70, s)
    {
      StringMeaning(d, 0x8FC80, s);
      StringMeaning(d, 0x8FC70, s);
    }
    hide Spelled;
    if vendor.Some? {
      assert Spelled(d, 0x8FC80, vendor.value);
    }
    if model.Some? {
      assert Spelled(d, 0x8FC70, model.value);
    }
  }

  /** The block reads as the IMEI in the variant. */
  ghost predicate Reads(block: Option<seq<byte>>, full: bool, imei: seq<byte>) {
    block.Some? && Decode(block.value, full) == Some(imei)
  }

  /** The IMEI: 15 digits in the field, or what block 76 reads as in the lite variant, or block 5009 in the full one. */
  lemma ImeiMeaning(d: seq<byte>, read: nat -> Option<seq<byte>>)
    requires InfoOf(d, read).Some?
    ensures var at, imei := LayoutOf(d).value.imeiOffset, InfoOf(d, read).value.imei;
      if forall k :: at <= k < at + 15 ==> 0x30 <= d[k] <= 0x39 then imei == d[at..at + 15]
      else if exists s :: Reads(read(76), false, s) then Reads(read(76), false, imei)
      else if exists s :: Reads(read(5009), true, s) then Reads(read(5009), true, imei)
      else imei == []
  {
    hide LayoutOf, StringAt, Decode, Md5Of, IsErased, BkeyOf, SkeyOf, DeviceName;
    var at := LayoutOf(d).value.imeiOffset;
    FieldDigits(d, at);
    hide AllDigits;
    forall id, full
      ensures (exists s :: Reads(read(id), full, s)) <==> read(id).Some? && Decode(read(id).value, full).Some?
    {
      if read(id).Some? && Decode(read(id).value, full).Some? {
        assert Reads(read(id), full, Decode(read(id).value, full).value);
      }
    }
    DecodedIsLong(read(76), false);
  }

  lemma FieldDigits(d: seq<byte>, at: nat)
    requires at + 15 <= |d|
    ensures AllDigits(d[at..at + 15]) <==> forall k :: at <= k < at + 15 ==> 0x30 <= d[k] <= 0x39
  {
    var field := d[at..at + 15];
    if AllDigits(field) {
      forall k | at <= k < at + 15
        ensures 0x30 <= d[k] <= 0x39
      {
        assert IsDigit(field[k - at]);
      }
    }
  }

  lemma FieldErased(d: seq<byte>, at: nat)
    requires at + 16 <= |d|
    ensures BootcoreHash(d, at) == if exists k :: at <= k < at + 16 && d[k] != 0xFF then d[at..at + 16] else []
  {
    var field := d[at..at + 16];
    assert forall k :: 0 <= k < 16 ==> field[k] == d[at + k];
    assert forall k :: at <= k < at + 16 ==> d[k] == field[k - at];
  }

  /** What a block reads as is not empty, so a later block does not replace it. */
  lemma DecodedIsLong(block: Option<seq<byte>>, full: bool)
    ensures block.Some? && Decode(block.value, full).Some? ==> |Decode(block.value, full).value| == 15
  {
    hide DecryptRounds, Acceptable;
  }

  /** The block starts with 16 bytes, not all 0xFF, that hash to the HASH when there is one. */
  ghost predicate HoldsBkey(block: Option<seq<byte>>, hash: seq<byte>, bkey: seq<byte>) {
    && block.Some? && |block.value| >= 16 && bkey == block.value[..16] && (exists k :: 0 <= k < 16 && bkey[k] != 0xFF)
    && (hash == [] || Md5Of(bkey) == hash)
  }

  /** HASH is its field unless that is erased; then it is the digest of the BKEY, which is in block 52 or else 320. */
  lemma BkeyAndHashMeaning(d: seq<byte>, read: nat -> Option<seq<byte>>)
    requires InfoOf(d, read).Some?
    ensures var at, info := LayoutOf(d).value.hashOffset, InfoOf(d, read).value;
      var stored := if exists k :: at <= k < at + 16 && d[k] != 0xFF then d[at..at + 16] else [];
      && (if exists s :: HoldsBkey(read(52), stored, s) then HoldsBkey(read(52), stored, info.bkey)
          else if exists s :: HoldsBkey(read(320), stored, s) then HoldsBkey(read(320), stored, info.bkey)
          else info.bkey == [])
      && info.hash == if stored == [] && info.bkey != [] then Md5Of(info.bkey) else stored
  {
    hide LayoutOf, StringAt, Decode, Md5Of, AllDigits, SkeyOf, DeviceName, OrDecoded, BootcoreImei;
    var at := LayoutOf(d).value.hashOffset;
    var stored := if exists k :: at <= k < at + 16 && d[k] != 0xFF then d[at..at + 16] else [];
    FieldErased(d, at);
    hide BootcoreHash;
    BkeyIs(read(52), stored);
    BkeyIs(read(320), stored);
    hide BkeyOf, HoldsBkey, IsErased;
  }

  lemma BkeyIs(block: Option<seq<byte>>, hash: seq<byte>)
    ensures BkeyOf(block, hash).Some? <==> exists s :: HoldsBkey(block, hash, s)
    ensures BkeyOf(block, hash).Some? ==>
      HoldsBkey(block, hash, BkeyOf(block, hash).value) && BkeyOf(block, hash).value != []
  {
    hide Md5Of;
    if block.Some? && |block.value| >= 16 && BkeyOf(block, hash).Some? {
      assert HoldsBkey(block, hash, block.value[..16]);
    }
  }

  /** SKEY is the first four bytes of block 5122; the device is "siemens-" and the model in lower case. */
  lemma SkeyAndDeviceMeaning(d: seq<byte>, read: nat -> Option<seq<byte>>)
    requires InfoOf(d, read).Some?
    ensures var info := InfoOf(d, read).value;
      && info.skey == (if read(5122).Some? && |read(5122).value| >= 4 then read(5122).value[..4] else [])
      && |info.device| == 8 + |info.model| && info.device[..8] == [0x73, 0x69, 0x65, 0x6D, 0x65, 0x6E, 0x73, 0x2D]
      && forall k :: 0 <= k < |info.model| ==>
        info.device[8 + k] == if 0x41 <= info.model[k] <= 0x5A then info.model[k] + 0x20 else info.model[k]
  {
    hide LayoutOf, StringAt, Decode, Md5Of, AllDigits, OrDecoded, BootcoreImei, BootcoreHash, BkeyOf;
  }
}
