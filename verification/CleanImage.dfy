/** An X65 image with every required block: it recalculates cleanly, so the recovery theorems speak of something. */
module CleanImage {
  import opened Wrappers
  import opened Bytes
  import opened AddressMap
  import opened Directory
  import opened BlockIndex
  import opened ParseFrame
  import opened Keys
  import opened Fullflash
  import FullflashMeaning
  import opened Recalc
  import opened RecalcMeaning
  import opened EsnRecovery
  import opened SampleTables

  const SIZE: nat := 0x90000
  const LITE: nat := 0x10000
  const FULL: nat := 0x30000
  const LITE_TABLE: nat := 0x2FFE0
  const FULL_TABLE: nat := 0x4FFA0

  /** A VALID entry whose numbers all fit two bytes. */
  function EntryBytes(id: (byte, byte), size: (byte, byte), start: (byte, byte)): (bytes: seq<byte>)
    ensures |bytes| == 16 && bytes[0] == 0x80
  {
    [0x80, 0xAA, 0xAA, 0xAA, id.0, id.1, 0, 0, size.0, size.1, 0, 0, start.0, start.1, 0, 0]
  }

  function Entry52(): (bytes: seq<byte>)
    ensures |bytes| == 16 && bytes[0] == 0x80
  {
    EntryBytes((0x34, 0), (0x23, 1), (0, 1))
  }

  function Entry76(): (bytes: seq<byte>)
    ensures |bytes| == 16 && bytes[0] == 0x80
  {
    EntryBytes((0x4C, 0), (0x0B, 0), (0, 3))
  }

  function Entry8(): (bytes: seq<byte>)
    ensures |bytes| == 16 && bytes[0] == 0x80
  {
    EntryBytes((0x08, 0), (0xE1, 0), (0, 1))
  }

  function Entry9(): (bytes: seq<byte>)
    ensures |bytes| == 16 && bytes[0] == 0x80
  {
    EntryBytes((0x09, 0), (0x0B, 0), (0, 2))
  }

  function Entry77(): (bytes: seq<byte>)
    ensures |bytes| == 16 && bytes[0] == 0x80
  {
    EntryBytes((0x4D, 0), (0xE9, 0), (0, 3))
  }

  function Entry121(): (bytes: seq<byte>)
    ensures |bytes| == 16 && bytes[0] == 0x80
  {
    EntryBytes((0x79, 0), (0x39, 0), (0, 4))
  }

  function Entry122(): (bytes: seq<byte>)
    ensures |bytes| == 16 && bytes[0] == 0x80
  {
    EntryBytes((0x7A, 0), (0x07, 0), (0, 5))
  }

  function Entry123(): (bytes: seq<byte>)
    ensures |bytes| == 16 && bytes[0] == 0x80
  {
    EntryBytes((0x7B, 0), (0x21, 0), (0, 6))
  }


  function LiteRows(): (rows: seq<Row>)
    ensures |rows| == 2 && forall k :: 0 <= k < 2 ==> rows[k].size >= 1
  {
    [Row(52, 0x123, 0x100), Row(76, 0x0B, 0x300)]
  }

  function FullRows(): (rows: seq<Row>)
    ensures |rows| == 6 && forall k :: 0 <= k < 6 ==> rows[k].size >= 1
  {
    [Row(8, 0xE1, 0x100), Row(9, 0x0B, 0x200), Row(77, 0xE9, 0x300),
     Row(121, 0x39, 0x400), Row(122, 0x07, 0x500), Row(123, 0x21, 0x600)]
  }

  lemma SpellsLite()
    ensures Spells(Entry52(), LiteRows()[0]) && Spells(Entry76(), LiteRows()[1])
  {
    assert Join(0x34, 0, 0, 0) == 52 && Join(0x23, 1, 0, 0) == 0x123 && Join(0, 1, 0, 0) == 0x100;
    assert Join(0x4C, 0, 0, 0) == 76 && Join(0x0B, 0, 0, 0) == 0x0B && Join(0, 3, 0, 0) == 0x300;
    assert Join(0x80, 0xAA, 0xAA, 0xAA) & ENTRY_STATE_MASK == STATE_VALID;
  }

  lemma SpellsFullLow()
    ensures Spells(Entry8(), FullRows()[0]) && Spells(Entry9(), FullRows()[1]) && Spells(Entry77(), FullRows()[2])
  {
    assert Join(0x08, 0, 0, 0) == 8 && Join(0xE1, 0, 0, 0) == 0xE1 && Join(0, 1, 0, 0) == 0x100;
    assert Join(0x09, 0, 0, 0) == 9 && Join(0x0B, 0, 0, 0) == 0x0B && Join(0, 2, 0, 0) == 0x200;
    assert Join(0x4D, 0, 0, 0) == 77 && Join(0xE9, 0, 0, 0) == 0xE9 && Join(0, 3, 0, 0) == 0x300;
    assert Join(0x80, 0xAA, 0xAA, 0xAA) & ENTRY_STATE_MASK == STATE_VALID;
  }

  lemma SpellsFullHigh()
    ensures Spells(Entry121(), FullRows()[3]) && Spells(Entry122(), FullRows()[4]) && Spells(Entry123(), FullRows()[5])
  {
    assert Join(0x79, 0, 0, 0) == 121 && Join(0x39, 0, 0, 0) == 0x39 && Join(0, 4, 0, 0) == 0x400;
    assert Join(0x7A, 0, 0, 0) == 122 && Join(0x07, 0, 0, 0) == 7 && Join(0, 5, 0, 0) == 0x500;
    assert Join(0x7B, 0, 0, 0) == 123 && Join(0x21, 0, 0, 0) == 0x21 && Join(0, 6, 0, 0) == 0x600;
    assert Join(0x80, 0xAA, 0xAA, 0xAA) & ENTRY_STATE_MASK == STATE_VALID;
  }

  // ----- The image -----

  const MODEL: seq<byte> := [0x53, 0x36, 0x35, 0]
  const VENDOR: seq<byte> := SIEMENS + [0]

  /** Stored at `at` in an image that is erased elsewhere. */
  datatype Part = Part(at: nat, bytes: seq<byte>)

  function Parts(): (parts: seq<Part>)
    ensures |parts| == 12
  {
    [Part(LITE, LITE_HEADER), Part(LITE_TABLE, Entry76()), Part(LITE_TABLE + 16, Entry52()),
     Part(FULL, FULL_HEADER), Part(FULL_TABLE, Entry123()), Part(FULL_TABLE + 16, Entry122()),
     Part(FULL_TABLE + 32, Entry121()), Part(FULL_TABLE + 48, Entry77()), Part(FULL_TABLE + 64, Entry9()),
     Part(FULL_TABLE + 80, Entry8()), Part(MODEL_OFFSET, MODEL), Part(VENDOR_OFFSET, VENDOR)]
  }

  function PartByte(parts: seq<Part>, a: nat): byte {
    if parts == [] then 0xFF
    else if parts[0].at <= a < parts[0].at + |parts[0].bytes| then parts[0].bytes[a - parts[0].at]
    else PartByte(parts[1..], a)
  }

  function ImageByte(a: nat): byte {
    if a < 0x1000 then BootcoreByte(a) else PartByte(Parts(), a)
  }

  function Image(): (d: seq<byte>)
    ensures |d| == SIZE
  {
    seq(SIZE, a requires 0 <= a < SIZE => ImageByte(a))
  }

  ghost predicate LikeImage(e: seq<byte>) {
    |e| == SIZE && forall a :: 0 <= a < SIZE && !InFields20(a) ==> e[a] == ImageByte(a)
  }

  /** The parts lie in order, apart from each other. */
  lemma PartsOrdered(i: nat, j: nat)
    requires i < j < 12
    ensures Parts()[i].at + |Parts()[i].bytes| <= Parts()[j].at && 0x1000 <= Parts()[i].at
    ensures Parts()[j].at + |Parts()[j].bytes| <= SIZE
  {
  }

  lemma {:induction false} PartByteIn(parts: seq<Part>, k: nat, a: nat)
    requires k < |parts| && parts[k].at <= a < parts[k].at + |parts[k].bytes|
    requires forall i :: 0 <= i < k ==> parts[i].at + |parts[i].bytes| <= a
    ensures PartByte(parts, a) == parts[k].bytes[a - parts[k].at]
  {
    if k > 0 {
      PartByteIn(parts[1..], k - 1, a);
    }
  }

  lemma {:induction false} PartByteOut(parts: seq<Part>, a: nat)
    requires forall i :: 0 <= i < |parts| ==> !(parts[i].at <= a < parts[i].at + |parts[i].bytes|)
    ensures PartByte(parts, a) == 0xFF
  {
    if parts != [] {
      PartByteOut(parts[1..], a);
    }
  }

  /** Each part is in the image. */
  lemma PartIs(e: seq<byte>, k: nat)
    requires LikeImage(e) && k < 12
    ensures var p := Parts()[k]; p.at + |p.bytes| <= |e| && e[p.at..p.at + |p.bytes|] == p.bytes
  {
    hide Parts, PartByte;
    var p := Parts()[k];
    if k < 11 {
      PartsOrdered(k, 11);
    } else {
      PartsOrdered(0, 11);
    }
    forall i: nat | i < k
      ensures Parts()[i].at + |Parts()[i].bytes| <= p.at && 0x1000 <= Parts()[i].at
    {
      PartsOrdered(i, k);
    }
    LastPart();
    forall a: nat | p.at <= a < p.at + |p.bytes|
      ensures e[a] == p.bytes[a - p.at]
    {
      assert e[a] == ImageByte(a);
      PartByteIn(Parts(), k, a);
    }
    SliceIs(e, p.at, p.bytes);
  }

  lemma SliceIs<T>(e: seq<T>, at: nat, bytes: seq<T>)
    requires at + |bytes| <= |e| && forall a :: at <= a < at + |bytes| ==> e[a] == bytes[a - at]
    ensures e[at..at + |bytes|] == bytes
  {
  }

  lemma LastPart()
    ensures 0x1000 <= Parts()[11].at
  {
  }

  /** Bootcore, headers, tables and strings. */
  predicate Used(a: nat) {
    || a < 0x1000 || LITE <= a < LITE + 16 || LITE_TABLE <= a < 0x30000 || FULL <= a < FULL + 16
    || FULL_TABLE <= a < 0x50000 || MODEL_OFFSET <= a < VENDOR_OFFSET + 8
  }

  lemma OffParts(a: nat, k: nat)
    requires !Used(a) && k < 12
    ensures !(Parts()[k].at <= a < Parts()[k].at + |Parts()[k].bytes|)
  {
    hide Entry52, Entry76, Entry8, Entry9, Entry77, Entry121, Entry122, Entry123;
  }

  /** Everything else is erased. */
  lemma ErasedAt(e: seq<byte>, a: nat)
    requires LikeImage(e) && a < SIZE && !Used(a)
    ensures e[a] == 0xFF
  {
    hide Parts, PartByte;
    forall k: nat | k < 12
      ensures !(Parts()[k].at <= a < Parts()[k].at + |Parts()[k].bytes|)
    {
      OffParts(a, k);
    }
    PartByteOut(Parts(), a);
    assert e[a] == ImageByte(a);
  }

  // ----- How it parses -----

  lemma LiteTable(e: seq<byte>)
    requires LikeImage(e)
    ensures TableAt(e, EeLite, LITE, LiteRows())
  {
    hide LikeImage, Spells, RowAt, StateAt, Entry52, Entry76, LiteRows, PartByte;
    SpellsLite();
    PartIs(e, 1);
    PartIs(e, 2);
    SizeOf(e);
    RowFromBytes(e, 0x2FFF0, Entry52(), LiteRows()[0]);
    RowFromBytes(e, 0x2FFE0, Entry76(), LiteRows()[1]);
    ErasedRange(e, 0x2FFD0);
    FreeFromBytes(e, 0x2FFD0);
    LiteFits();
  }

  lemma SizeOf(e: seq<byte>)
    requires LikeImage(e)
    ensures |e| == SIZE
  {
  }

  lemma LiteFits()
    ensures RowFits(EeLite, LiteRows()[0]) && RowFits(EeLite, LiteRows()[1])
  {
  }

  lemma FullFits()
    ensures forall k :: 0 <= k < 6 ==> RowFits(EeFull, FullRows()[k]) && FullRows()[k].start == 0x100 * (k + 1)
  {
  }

  lemma ErasedRange(e: seq<byte>, a: nat)
    requires LikeImage(e) && (a == 0x2FFD0 || a == 0x4FF90)
    ensures |e| == SIZE && e[a] == 0xFF && e[a + 1] == 0xFF && e[a + 2] == 0xFF && e[a + 3] == 0xFF
  {
    hide LikeImage, PartByte, Entry52, Entry76, Entry8, Entry9, Entry77, Entry121, Entry122, Entry123;
    SizeOf(e);
    ErasedAt(e, a);
    ErasedAt(e, a + 1);
    ErasedAt(e, a + 2);
    ErasedAt(e, a + 3);
  }

  lemma VersionErased(e: seq<byte>, k: nat)
    requires LikeImage(e) && k < 6
    ensures |e| == SIZE && e[FULL + 0x100 * (k + 1)] == 0xFF
  {
    hide LikeImage, PartByte, Entry52, Entry76, Entry8, Entry9, Entry77, Entry121, Entry122, Entry123;
    SizeOf(e);
    ErasedAt(e, FULL + 0x100 * (k + 1));
  }

  lemma RowSpelled(k: nat)
    requires k < 6
    ensures Parts()[9 - k].at == 0x4FFF0 - 16 * k && Spells(Parts()[9 - k].bytes, FullRows()[k])
  {
    hide Spells, Entry8, Entry9, Entry77, Entry121, Entry122, Entry123, Entry52, Entry76, FullRows;
    SpellsFullLow();
    SpellsFullHigh();
  }

  lemma FullRowAt(e: seq<byte>, k: nat)
    requires LikeImage(e) && k < 6
    ensures |e| == SIZE && RowAt(e, 0x4FFF0 - 16 * k, FullRows()[k])
  {
    hide LikeImage, Spells, RowAt, StateAt, FullRows, Parts;
    SizeOf(e);
    RowSpelled(k);
    PartIs(e, 9 - k);
    SpelledLength(Parts()[9 - k].bytes, FullRows()[k]);
    RowFromBytes(e, 0x4FFF0 - 16 * k, Parts()[9 - k].bytes, FullRows()[k]);
  }

  lemma SpelledLength(bytes: seq<byte>, row: Row)
    requires Spells(bytes, row)
    ensures |bytes| == 16
  {
  }

  lemma FullTable(e: seq<byte>)
    requires LikeImage(e)
    ensures TableAt(e, EeFull, FULL, FullRows())
  {
    hide LikeImage, RowAt, StateAt, FullRows, RowFits;
    SizeOf(e);
    FullFits();
    forall k: nat | k < 6
      ensures RowAt(e, EntryOffsetX65(FULL, k + 1), FullRows()[k]) && e[FULL + FullRows()[k].start] == 0xFF
    {
      FullRowAt(e, k);
      VersionErased(e, k);
    }
    ErasedRange(e, 0x4FF90);
    FreeFromBytes(e, 0x4FF90);
  }

  /** The first byte of every place where a header may be. */
  lemma FirstBytes(e: seq<byte>, m: nat)
    requires LikeImage(e) && m < 9
    ensures |e| == SIZE && e[0x10000 * m + 0xFFE0] != 0x45
    ensures m != 1 && m != 3 ==> e[0x10000 * m] != 0x45
  {
    hide LikeImage, PartByte, Entry52, Entry76, Entry8, Entry9, Entry77, Entry121, Entry122, Entry123;
    SizeOf(e);
    if m == 2 {
      PartIs(e, 1);
      assert e[0x2FFE0] == e[0x2FFE0..0x2FFF0][0] == Entry76()[0];
    } else if m == 4 {
      PartIs(e, 8);
      assert e[0x4FFE0] == e[0x4FFE0..0x4FFF0][0] == Entry9()[0];
    } else {
      ErasedAt(e, 0x10000 * m + 0xFFE0);
    }
    if m == 0 {
      ZeroErased(e);
    } else if m != 1 && m != 3 {
      ErasedAt(e, 0x10000 * m);
    }
  }

  lemma ZeroErased(e: seq<byte>)
    requires LikeImage(e)
    ensures |e| == SIZE && e[0] == 0xFF
  {
  }

  lemma Kinds(e: seq<byte>)
    requires LikeImage(e)
    ensures OnlyX65(e)
    ensures PartitionKind(e, X65, LITE) == Success(EeLite) && PartitionKind(e, X65, FULL) == Success(EeFull)
    ensures forall o: nat :: o % PARTITION_STEP == 0 && o != LITE && o != FULL ==>
      PartitionKind(e, X65, o) == Success(NoPartition)
  {
    hide PartitionKind, LikeImage, Entry52, Entry76, Entry8, Entry9, Entry77, Entry121, Entry122, Entry123, PartByte;
    SizeOf(e);
    PartIs(e, 0);
    PartIs(e, 3);
    LiteName(e, LITE);
    FullName(e, FULL);
    forall o: nat | o % PARTITION_STEP == 0
      ensures PartitionKind(e, X85, o) == Success(NoPartition)
      ensures o != LITE && o != FULL ==> PartitionKind(e, X65, o) == Success(NoPartition)
    {
      if o < SIZE {
        FirstBytes(e, o / PARTITION_STEP);
      }
      NoName(e, X85, o);
      if o != LITE && o != FULL {
        NoName(e, X65, o);
      }
    }
  }

  function Entries(): seq<Entry> {
    EntriesOf(EeLite, LITE, LiteRows(), 0) + EntriesOf(EeFull, FULL, FullRows(), 0)
  }

  lemma ImageParses(e: seq<byte>)
    requires LikeImage(e)
    ensures Parse(e) == Success(Listing(X65, Entries()))
  {
    hide PartitionKind, TableAt, Scan, EntriesOf, OnlyX65, LikeImage, LiteRows, FullRows;
    SizeOf(e);
    Kinds(e);
    LiteTable(e);
    FullTable(e);
    var lite, full := EntriesOf(EeLite, LITE, LiteRows(), 0), EntriesOf(EeFull, FULL, FullRows(), 0);
    QuietScan(e, 0x40000);
    TableStep(e, X65, FULL, EeFull, FullRows(), []);
    assert full + [] == full;
    QuietStep(e, X65, 0x20000);
    TableStep(e, Unknown, LITE, EeLite, LiteRows(), full);
    QuietStep(e, Unknown, 0);
  }

  // ----- The payload -----

  /** Entry `k` in scan order: ids, first payload byte and size. */
  function Listed(k: nat): Entry
    requires k < 8
  {
    if k == 0 then Entry(52, Block(0x10100, 0x122, Linear), EeLite, LITE)
    else if k == 1 then Entry(76, Block(0x10300, 10, Linear), EeLite, LITE)
    else if k == 2 then Entry(5008, Block(0x30101, 0xE0, Linear), EeFull, FULL)
    else if k == 3 then Entry(5009, Block(0x30201, 10, Linear), EeFull, FULL)
    else if k == 4 then Entry(5077, Block(0x30301, 0xE8, Linear), EeFull, FULL)
    else if k == 5 then Entry(5121, Block(0x30401, 0x38, Linear), EeFull, FULL)
    else if k == 6 then Entry(5122, Block(0x30501, 6, Linear), EeFull, FULL)
    else Entry(5123, Block(0x30601, 0x20, Linear), EeFull, FULL)
  }

  lemma EntriesAre()
    ensures |Entries()| == 8 && forall k :: 0 <= k < 8 ==> Entries()[k] == Listed(k)
  {
    hide EntriesOf;
    forall k | 0 <= k < 8
      ensures Entries()[k] == Listed(k)
    {
      if k < 2 {
        assert Entries()[k] == EntryOf(EeLite, LITE, LiteRows()[k]);
      } else {
        assert Entries()[k] == EntryOf(EeFull, FULL, FullRows()[k - 2]);
      }
    }
  }

  lemma ListedRange(k: nat, a: nat)
    requires k < 8
    ensures a in Footprint(Listed(k).block) <==>
      Listed(k).block.offset <= a < Listed(k).block.offset + Listed(k).block.size
  {
    hide Listed;
    ListedLinear(k);
    var block := Listed(k).block;
    if block.offset <= a < block.offset + block.size {
      assert ByteOffset(block, a - block.offset) == a;
    }
  }

  lemma ListedLinear(k: nat)
    requires k < 8
    ensures Listed(k).block.layout == Linear
  {
  }

  lemma ListedApart(i: nat, j: nat, a: nat)
    requires i < j < 8 && Listed(i).block.offset <= a < Listed(i).block.offset + Listed(i).block.size
    ensures Listed(i).id != Listed(j).id && a < Listed(j).block.offset
  {
  }

  lemma EntriesKeepApart()
    ensures EntriesApart(Entries())
  {
    hide Entries, Listed, Footprint;
    EntriesAre();
    forall i, j | 0 <= i < j < 8
      ensures Entries()[i].id != Entries()[j].id && Footprint(Entries()[i].block) !! Footprint(Entries()[j].block)
    {
      ListedNotEmpty(i);
      ListedApart(i, j, Listed(i).block.offset);
      forall a: nat
        ensures !(a in Footprint(Listed(i).block) && a in Footprint(Listed(j).block))
      {
        ListedRange(i, a);
        ListedRange(j, a);
        if a in Footprint(Listed(i).block) {
          ListedApart(i, j, a);
        }
      }
    }
  }

  lemma ListedNotEmpty(k: nat)
    requires k < 8
    ensures Listed(k).block.size > 0
  {
  }

  lemma ListedOffTables(k: nat, a: nat)
    requires k < 8 && Listed(k).block.offset <= a < Listed(k).block.offset + Listed(k).block.size
    ensures a >= 0x1300 && Inner(a) && a < MODEL_OFFSET
    ensures !TouchesTable(EeLite, LITE, LiteRows(), a) && !TouchesTable(EeFull, FULL, FullRows(), a)
  {
  }

  lemma ImageApart(e: seq<byte>, a: nat)
    requires LikeImage(e)
    requires !TouchesTable(EeLite, LITE, LiteRows(), a) && !TouchesTable(EeFull, FULL, FullRows(), a)
    ensures TablesApart(e, a)
  {
    hide PartitionKind, TableAt, TouchesTable, LikeImage, OnlyX65, LiteRows, FullRows;
    Kinds(e);
    LiteTable(e);
    FullTable(e);
    forall o: nat | o % PARTITION_STEP == 0
      ensures !PartitionExamined(e, X65, o, a)
    {
      if o == LITE {
        PartitionApart(e, EeLite, LITE, LiteRows(), a);
      } else if o == FULL {
        PartitionApart(e, EeFull, FULL, FullRows(), a);
      } else {
        hide SlotReachedX65, SlotExaminedX65;
      }
    }
  }

  lemma PayloadBlockApart(e: seq<byte>, k: nat)
    requires LikeImage(e) && k < 8
    ensures BlockApart(e, Listed(k).block)
  {
    hide LikeImage, Listed, TablesApart, Inner, TouchesTable, LiteRows, FullRows;
    forall a: nat | a in Footprint(Listed(k).block)
      ensures ByteApart(e, a)
    {
      ListedRange(k, a);
      ListedOffTables(k, a);
      ImageApart(e, a);
    }
  }

  lemma ImagePayloadApart(e: seq<byte>)
    requires LikeImage(e)
    ensures PayloadApart(e, Entries())
  {
    hide LikeImage, Entries, Listed, BlockApart;
    EntriesAre();
    forall k: nat | k < 8
      ensures BlockApart(e, Listed(k).block)
    {
      PayloadBlockApart(e, k);
    }
  }

  // ----- It recalculates cleanly -----

  lemma ImageLike(identity: Identity)
    ensures LikeImage(Image()) && Bootcore20(Image()) && Applies(Image())
    ensures LayoutOf(Image()) == Some(BootcoreLayout(BootcoreVersion(2, 0), 0x238, 0x65C))
    ensures var patched := Patched(Image(), LayoutOf(Image()).value, identity);
      LikeImage(patched) && Bootcore20(patched)
  {
    hide PartByte, LayoutOf;
    var d := Image();
    assert LikeImage(d);
    Layout20(d);
    assert d[0x238] == 0 && d[0x238..0x248][0] == 0;
    hide Image, ImageByte;
    LikeBootcore(d);
    LikeBootcore(Patched(d, LayoutOf(d).value, identity));
  }

  lemma LikeBootcore(e: seq<byte>)
    requires LikeImage(e)
    ensures Bootcore20(e)
  {
    hide PartByte;
  }

  lemma ImageHolds(keys: Keys)
    ensures var identity := IdentityOf(keys);
      Parses(Image(), identity) && Undisturbed(Image(), identity) && WritesAgree(Image(), identity)
      && IndexAfterFields(Image(), identity) == IndexOf(Listing(X65, Entries()))
  {
    hide LayoutOf, Parse, IndexOf, Patched, OnlyX65, PayloadApart, Entries, Image, LikeImage, Bootcore20, StaysClear,
      Undisturbed, HashOf, Generated, Agreeing, EntriesApart;
    var identity := IdentityOf(keys);
    ImageLike(identity);
    var patched := Patched(Image(), LayoutOf(Image()).value, identity);
    ImageParses(patched);
    ImagePayloadApart(patched);
    Kinds(patched);
    SampleClear(Image(), identity, Listing(X65, Entries()));
    EntriesKeepApart();
    var short := IsShort(IndexAfterFields(Image(), identity));
    ApartAgree(Listing(X65, Entries()), keys, short, Generated(keys, short));
  }

  lemma ImageIndex(k: nat)
    requires k < 8
    ensures var index := IndexOf(Listing(X65, Entries()));
      Listed(k).id in index && index[Listed(k).id] == Listed(k).block
  {
    hide IndexOf, Entries, Listed, EntriesApart;
    EntriesAre();
    EntriesKeepApart();
    IndexOfApart(Listing(X65, Entries()), k);
  }

  lemma ImageComplete()
    ensures var index := IndexOf(Listing(X65, Entries()));
      forall id :: id in REQUIRED_IDS ==> id in index && RequiredSize(id, index[id].size)
  {
    hide IndexOf, Entries;
    forall k: nat | k < 8
      ensures var index := IndexOf(Listing(X65, Entries()));
        Listed(k).id in index && index[Listed(k).id] == Listed(k).block
    {
      ImageIndex(k);
    }
    assert Listed(0).id == 52 && Listed(1).id == 76 && Listed(2).id == 5008 && Listed(3).id == 5009;
    assert Listed(4).id == 5077 && Listed(5).id == 5121 && Listed(6).id == 5122 && Listed(7).id == 5123;
  }

  lemma No320()
    ensures 320 !in IndexOf(Listing(X65, Entries()))
  {
    hide IndexOf, Entries;
    EntriesAre();
    IndexMeaning(Listing(X65, Entries()), 320);
  }

  // ----- Its strings -----

  lemma Strings(e: seq<byte>)
    requires |e| == SIZE && e[MODEL_OFFSET..MODEL_OFFSET + 4] == MODEL && e[VENDOR_OFFSET..VENDOR_OFFSET + 8] == VENDOR
    ensures StringAt(e, VENDOR_OFFSET, 16) == Some(SIEMENS)
    ensures StringAt(e, MODEL_OFFSET, 16).Some? && StringAt(e, MODEL_OFFSET, 16).value != []
  {
    hide FirstZero;
    assert forall k :: 0 <= k < 8 ==> e[VENDOR_OFFSET..VENDOR_OFFSET + 8][k] == VENDOR[k];
    assert forall a :: VENDOR_OFFSET <= a < VENDOR_OFFSET + 8 ==> e[a] == VENDOR[a - VENDOR_OFFSET];
    assert forall a :: MODEL_OFFSET <= a < MODEL_OFFSET + 4 ==> e[a] == MODEL[a - MODEL_OFFSET];
    FullflashMeaning.FirstZeroIs(e, VENDOR_OFFSET, VENDOR_OFFSET + 16, VENDOR_OFFSET + 7);
    FullflashMeaning.FirstZeroIs(e, MODEL_OFFSET, MODEL_OFFSET + 16, MODEL_OFFSET + 3);
    assert e[VENDOR_OFFSET..VENDOR_OFFSET + 7] == SIEMENS;
  }

  /** No block reaches the strings. */
  lemma OutKeepsHigh(keys: Keys, a: nat)
    requires MODEL_OFFSET <= a < SIZE
    ensures LayoutOf(Image()).Some?
    ensures Recalculate(Image(), IdentityOf(keys)).0[a]
      == Patched(Image(), LayoutOf(Image()).value, IdentityOf(keys))[a]
  {
    hide LayoutOf, Parse, IndexOf, Patched, Image, WriteAll, CompleteTo, SomeDiffers, FieldsMatch, CoveredBy,
      Undisturbed, HashOf, Entries, RecordsOf, WritesAgree, Listed, LikeImage, Bootcore20;
    var identity := IdentityOf(keys);
    ImageLike(identity);
    ImageHolds(keys);
    var index := IndexAfterFields(Image(), identity);
    var patched := Patched(Image(), LayoutOf(Image()).value, identity);
    var blocks := RecordsFor(index, identity);
    WriteAllAt(patched, patched, index, blocks, |blocks|, a);
    if CoveredBy(index, blocks, |blocks|, a) {
      var k := CoveredByEntry(Listing(X65, Entries()), blocks, a);
      EntriesAre();
      ListedRange(k, a);
      ListedOffTables(k, a);
    }
  }

  lemma OutStrings(keys: Keys, out: seq<byte>)
    requires out == Recalculate(Image(), IdentityOf(keys)).0
    ensures |out| == SIZE
    ensures out[MODEL_OFFSET..MODEL_OFFSET + 4] == MODEL && out[VENDOR_OFFSET..VENDOR_OFFSET + 8] == VENDOR
  {
    hide LayoutOf, Patched, Image, Recalculate, HashOf, RecordsOf, LikeImage, Bootcore20, Entry52, Entry76, Entry8,
      Entry9, Entry77, Entry121, Entry122, Entry123;
    var identity := IdentityOf(keys);
    ImageLike(identity);
    var patched := Patched(Image(), LayoutOf(Image()).value, identity);
    PartIs(patched, 10);
    PartIs(patched, 11);
    forall a: nat | MODEL_OFFSET <= a < SIZE
      ensures out[a] == patched[a]
    {
      OutKeepsHigh(keys, a);
    }
    assert out[MODEL_OFFSET..MODEL_OFFSET + 4] == patched[MODEL_OFFSET..MODEL_OFFSET + 4];
    assert out[VENDOR_OFFSET..VENDOR_OFFSET + 8] == patched[VENDOR_OFFSET..VENDOR_OFFSET + 8];
  }

  /**
   * For all keys whose BKEY and HASH do not both read as erased: the image recalculates cleanly and completely, and the
   * identity reader finds an identity in the result. So it meets every hypothesis of the recovery theorems.
   */
  lemma ImageRecalculates(keys: Keys)
    requires !IsErased(Bkey(keys.esn, keys.skey)) || !IsErased(HashOf(keys.esn, keys.skey))
    ensures CleanlyRecalculated(Image(), keys)
    ensures var (out, verdict) := Recalculate(Image(), IdentityOf(keys));
      && verdict.Recalculated? && verdict.complete
      && InfoOf(out, Reader(out, IndexAfterFields(Image(), IdentityOf(keys)))).Some?
  {
    hide LayoutOf, Parse, IndexOf, Patched, Image, Recalculate, IndexAfterFields, Parses, Undisturbed, WritesAgree,
      HashOf, RecordsOf, Entries, IsErased, Bkey, StringAt, Reader, BkeyOf, SkeyOf, DeviceName, FieldsMatch;
    var identity := IdentityOf(keys);
    ImageHolds(keys);
    ImageComplete();
    CompleteMeaning(Image(), keys);
    RecalculatedReads(Image(), identity);
    var out := Recalculate(Image(), identity).0;
    OutStrings(keys, out);
    Strings(out);
    assert 52 in REQUIRED_IDS && 5122 in REQUIRED_IDS;
    No320();
  }
}
