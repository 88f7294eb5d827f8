/** An X65 image with two overlapping blocks, for which a second recalculation always reports a change. */
module Overlap {
  import opened Bytes
  import opened AddressMap
  import opened Directory
  import opened BlockIndex
  import opened Keys
  import opened Fullflash
  import opened Recalc
  import opened RecalcMeaning
  import opened SampleTables
  import opened SmallImage

  const ENTRY_468: seq<byte> :=
    [0x80, 0xAA, 0xAA, 0xAA, 0xD4, 0x01, 0x00, 0x00, 0x32, 0x00, 0x00, 0x00, 0x00, 0x01, 0x00, 0x00]
  const ENTRY_123: seq<byte> :=
    [0x80, 0xAA, 0xAA, 0xAA, 0x7B, 0x00, 0x00, 0x00, 0x21, 0x00, 0x00, 0x00, 0x00, 0x01, 0x00, 0x00]

  const PAYLOAD: nat := 0x10101

  function OverlapTail(): Tail {
    ENTRY_468 + ENTRY_123
  }

  /** Both entries name the data at 0x100 of the partition. */
  function OverlapRows(): (rows: seq<Row>)
    ensures |rows| == 2 && rows[0].size >= 1 && rows[1].size >= 1
  {
    [Row(123, 0x21, 0x100), Row(468, 0x32, 0x100)]
  }

  function Image(): (d: seq<byte>)
    ensures |d| == SIZE
  {
    Small(OverlapTail())
  }

  lemma EntriesSpell()
    ensures Spells(ENTRY_123, Row(123, 0x21, 0x100)) && Spells(ENTRY_468, Row(468, 0x32, 0x100))
  {
    assert Join(0x7B, 0, 0, 0) == 123 && Join(0x21, 0, 0, 0) == 0x21;
    assert Join(0xD4, 1, 0, 0) == 468 && Join(0x32, 0, 0, 0) == 0x32 && Join(0, 1, 0, 0) == 0x100;
    assert Join(0x80, 0xAA, 0xAA, 0xAA) & ENTRY_STATE_MASK == STATE_VALID;
  }

  lemma TailParts()
    ensures OverlapTail()[0] == 0x80 && OverlapTail()[..16] == ENTRY_468 && OverlapTail()[16..] == ENTRY_123
  {
  }

  lemma OverlapTable(e: seq<byte>)
    requires LikeSmall(e, OverlapTail())
    ensures TableAt(e, EeFull, HOME, OverlapRows())
  {
    hide SmallByte, Spells, RowAt, StateAt, OverlapTail;
    EntriesSpell();
    TailBytes(e, OverlapTail());
    TailParts();
    ErasedByte(e, OverlapTail(), 0x10100);
    ErasedByte(e, OverlapTail(), 0x2FFD0);
    ErasedByte(e, OverlapTail(), 0x2FFD1);
    ErasedByte(e, OverlapTail(), 0x2FFD2);
    ErasedByte(e, OverlapTail(), 0x2FFD3);
    RowFromBytes(e, 0x2FFF0, ENTRY_123, Row(123, 0x21, 0x100));
    RowFromBytes(e, 0x2FFE0, ENTRY_468, Row(468, 0x32, 0x100));
    FreeFromBytes(e, 0x2FFD0);
  }

  function OverlapIndex(): Index {
    map[5123 := Block(PAYLOAD, 0x20, Linear), 5468 := Block(PAYLOAD, 0x31, Linear)]
  }

  lemma OverlapListing()
    ensures EntriesOf(EeFull, HOME, OverlapRows(), 0) == [
      Entry(5123, Block(PAYLOAD, 0x20, Linear), EeFull, HOME), Entry(5468, Block(PAYLOAD, 0x31, Linear), EeFull, HOME)]
    ensures IndexOf(Listing(X65, EntriesOf(EeFull, HOME, OverlapRows(), 0))) == OverlapIndex()
  {
    var entries := EntriesOf(EeFull, HOME, OverlapRows(), 0);
    assert entries == [EntryOf(EeFull, HOME, OverlapRows()[0]), EntryOf(EeFull, HOME, OverlapRows()[1])];
    hide EntriesOf, IndexOf;
    IndexOfTwo(entries[0], entries[1]);
  }

  lemma PayloadOffTable(a: nat)
    requires PAYLOAD <= a < PAYLOAD + 0x31
    ensures a >= 0x1300 && Inner(a) && !TouchesTable(EeFull, HOME, OverlapRows(), a)
  {
  }

  lemma OverlapApart(e: seq<byte>)
    requires IsSmall(e) && TableAt(e, EeFull, HOME, OverlapRows())
    ensures PayloadApart(e, EntriesOf(EeFull, HOME, OverlapRows(), 0))
  {
    hide EntriesOf, IsSmall, TableAt, TablesApart, Inner, TouchesTable, IndexOf, OverlapRows;
    OverlapListing();
    var entries := EntriesOf(EeFull, HOME, OverlapRows(), 0);
    forall k | 0 <= k < |entries|
      ensures BlockApart(e, entries[k].block)
    {
      forall a: nat | a in Footprint(entries[k].block)
        ensures ByteApart(e, a)
      {
        PayloadOffTable(a);
        SmallApart(e, OverlapRows(), a);
      }
    }
  }

  lemma ImageHolds(identity: Identity)
    ensures Parses(Image(), identity) && IndexAfterFields(Image(), identity) == OverlapIndex()
    ensures Undisturbed(Image(), identity)
  {
    hide LayoutOf, Parse, IndexOf, Patched, OnlyX65, PayloadApart, EntriesOf, TableAt, LikeSmall, Small, StaysClear,
      Undisturbed, OverlapIndex, OverlapRows, OverlapTail, Bootcore20;
    TailParts();
    SmallApplies(OverlapTail(), identity);
    var patched := Patched(Image(), LayoutOf(Image()).value, identity);
    OverlapTable(patched);
    SmallParses(patched, OverlapRows());
    OverlapListing();
    OverlapApart(patched);
    SmallKinds(patched);
    SampleClear(Image(), identity, Listing(X65, EntriesOf(EeFull, HOME, OverlapRows(), 0)));
  }

  /** The image meets every hypothesis, and a second recalculation reports a change although it changes no byte. */
  lemma ImageChangesAgain(keys: Keys)
    requires !IsErased(HashOf(keys.esn, keys.skey))
    ensures var identity := IdentityOf(keys);
      && Parses(Image(), identity) && Undisturbed(Image(), identity)
      && var (out, verdict) := Recalculate(Image(), identity);
        verdict.Recalculated? && Recalculate(out, identity) == (out, Recalculated(verdict.complete, true))
  {
    hide HashOf, IsErased, Image, Parses, Undisturbed, Recalculate, IndexAfterFields, RecordsOf;
    ImageHolds(IdentityOf(keys));
    OverlapChangesAgain(Image(), keys, PAYLOAD);
  }
}
