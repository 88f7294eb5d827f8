/** An X65 image whose only block overlaps the entry table: recalculating it makes the next call throw. */
module Overwrite {
  import opened Wrappers
  import opened Bytes
  import opened AddressMap
  import opened Directory
  import opened BlockIndex
  import opened EepromStore
  import opened Keys
  import opened Records
  import opened Fullflash
  import opened Recalc
  import opened RecalcMeaning
  import opened SampleTables
  import opened SmallImage

  const ENTRY: seq<byte> :=
    [0x80, 0xAA, 0xAA, 0xAA, 0x7B, 0x00, 0x00, 0x00, 0x21, 0x00, 0x00, 0x00, 0xCF, 0xFF, 0x01, 0x00]

  /** The second slot of the table, FREE at first. */
  const SLOT: nat := 0x2FFE0

  function EntryTail(): Tail {
    seq(16, _ => 0xFF) + ENTRY
  }

  /** Block 123 with its 33 bytes just below its own entry, over the second and third slots. */
  function EntryRow(): Row {
    Row(123, 0x21, 0x1FFCF)
  }

  function Image(): (d: seq<byte>)
    ensures |d| == SIZE
  {
    Small(EntryTail())
  }

  const STORED: Block := Block(0x2FFD0, 0x20, Linear)

  lemma EntrySpells()
    ensures Spells(ENTRY, EntryRow())
  {
    assert Join(0x7B, 0, 0, 0) == 123 && Join(0x21, 0, 0, 0) == 0x21 && Join(0xCF, 0xFF, 1, 0) == 0x1FFCF;
    assert Join(0x80, 0xAA, 0xAA, 0xAA) & ENTRY_STATE_MASK == STATE_VALID;
  }

  /** The first slot and the version byte of its data, which the write leaves alone. */
  ghost predicate FirstSlot(e: seq<byte>) {
    |e| == SIZE && e[0x2FFF0..0x30000] == ENTRY && e[0x2FFCF] == 0xFF
  }

  lemma FirstSlotRow(e: seq<byte>)
    requires FirstSlot(e)
    ensures RowAt(e, 0x2FFF0, EntryRow())
  {
    EntrySpells();
    RowFromBytes(e, 0x2FFF0, ENTRY, EntryRow());
  }

  lemma ImageFirstSlot(e: seq<byte>)
    requires LikeSmall(e, EntryTail())
    ensures FirstSlot(e) && TableAt(e, EeFull, HOME, [EntryRow()])
  {
    hide SmallByte, Spells, RowAt, StateAt, EntryTail;
    TailBytes(e, EntryTail());
    TailParts();
    ErasedByte(e, EntryTail(), 0x2FFCF);
    FirstSlotRow(e);
    assert e[SLOT] == e[SLOT..SLOT + 16][0] && e[SLOT + 1] == e[SLOT..SLOT + 16][1];
    assert e[SLOT + 2] == e[SLOT..SLOT + 16][2] && e[SLOT + 3] == e[SLOT..SLOT + 16][3];
    FreeFromBytes(e, SLOT);
  }

  lemma TailParts()
    ensures EntryTail()[0] == 0xFF && EntryTail()[16..] == ENTRY
    ensures forall k :: 0 <= k < 16 ==> EntryTail()[..16][k] == 0xFF
  {
  }

  lemma ImageIndex(identity: Identity)
    ensures Parses(Image(), identity) && IndexAfterFields(Image(), identity) == map[5123 := STORED]
  {
    hide LayoutOf, Parse, Patched, TableAt, LikeSmall, Small, IndexOf, Bootcore20;
    SmallApplies(EntryTail(), identity);
    var patched := Patched(Image(), LayoutOf(Image()).value, identity);
    ImageFirstSlot(patched);
    SmallParses(patched, [EntryRow()]);
    var entries := EntriesOf(EeFull, HOME, [EntryRow()], 0);
    assert entries == [Entry(5123, STORED, EeFull, HOME)];
    IndexOfOne(entries[0]);
  }

  /** After the write the second slot holds zeros of the record. */
  lemma SlotOverwritten(keys: Keys, out: seq<byte>)
    requires out == Recalculate(Image(), IdentityOf(keys)).0
    ensures Recalculate(Image(), IdentityOf(keys)).1.Recalculated? && |out| == SIZE
    ensures out[SLOT] == 0 && out[SLOT + 1] == 0 && out[SLOT + 2] == 0 && out[SLOT + 3] == 0
  {
    hide LayoutOf, Parse, IndexOf, Patched, Small, Generated, WriteAll, CompleteTo, SomeDiffers, FieldsMatch, HashOf,
      Record5121, Image, Agreeing, AllStored, U32, IsErased;
    var identity := IdentityOf(keys);
    ImageIndex(identity);
    var index := IndexAfterFields(Image(), identity);
    var blocks := Generated(keys, false);
    var patched := Patched(Image(), LayoutOf(Image()).value, identity);
    OneBlockAgrees(index, keys, blocks);
    StoredIffAgreeing(patched, index, blocks, |blocks|);
    GeneratedRecord(keys, false, 8, blocks[8]);
    StoredHere(out, index, blocks, keys);
  }

  lemma StoredHere(out: seq<byte>, index: Index, blocks: seq<GeneratedBlock>, keys: Keys)
    requires index == map[5123 := STORED] && AllFit(index, |out|) && AllStored(out, index, blocks, |blocks|)
    requires |blocks| > 8 && blocks[8] == GeneratedBlock(5123, Record5123(Record5121(keys), false), true)
    ensures |out| > SLOT + 3
    ensures out[SLOT] == 0 && out[SLOT + 1] == 0 && out[SLOT + 2] == 0 && out[SLOT + 3] == 0
  {
    hide Record5121, U32;
    assert Fits(STORED, |out|);
    assert ByteOffset(STORED, 16) == SLOT && ByteOffset(STORED, 19) == SLOT + 3;
    assert Payload(out, STORED) == blocks[8].data;
    var data := blocks[8].data;
    assert data[16] == 0 && data[17] == 0 && data[18] == 0 && data[19] == 0;
    assert Payload(out, STORED)[16] == out[SLOT] && Payload(out, STORED)[17] == out[SLOT + 1];
    assert Payload(out, STORED)[18] == out[SLOT + 2] && Payload(out, STORED)[19] == out[SLOT + 3];
  }

  lemma OneBlockAgrees(index: Index, keys: Keys, blocks: seq<GeneratedBlock>)
    requires index == map[5123 := STORED] && blocks == Generated(keys, false)
    ensures Agreeing(index, blocks, |blocks|)
  {
    hide Generated, Stores, Footprint;
    forall i, j | 0 <= i < j < |blocks| && Replaces(index, blocks[i]) && Replaces(index, blocks[j])
      ensures false
    {
      GeneratedIds(keys, false, i);
      GeneratedIds(keys, false, j);
    }
    DisjointAgree(index, blocks);
  }

  /** Only the record's bytes differ from the image with the fields replaced. */
  lemma OutKeeps(identity: Identity, a: nat)
    requires a < SIZE && !(0x2FFD0 <= a < 0x2FFF0)
    ensures LayoutOf(Image()).Some?
    ensures Recalculate(Image(), identity).0[a] == Patched(Image(), LayoutOf(Image()).value, identity)[a]
  {
    hide LayoutOf, Parse, IndexOf, Patched, Small, WriteAll, CompleteTo, SomeDiffers, FieldsMatch, Image, CoveredBy,
      Footprint;
    ImageIndex(identity);
    var index := IndexAfterFields(Image(), identity);
    var patched := Patched(Image(), LayoutOf(Image()).value, identity);
    var blocks := RecordsFor(index, identity);
    WriteAllAt(patched, patched, index, blocks, |blocks|, a);
    CoveredInside(index, blocks, a);
  }

  lemma CoveredInside(index: Index, blocks: seq<GeneratedBlock>, a: nat)
    requires index == map[5123 := STORED]
    ensures CoveredBy(index, blocks, |blocks|, a) ==> 0x2FFD0 <= a < 0x2FFF0
  {
  }

  /** The image left behind still has its headers and its first slot. */
  lemma OutIsSmall(keys: Keys, out: seq<byte>)
    requires out == Recalculate(Image(), IdentityOf(keys)).0
    ensures IsSmall(out) && FirstSlot(out) && LayoutOf(out) == LayoutOf(Image()) && LayoutOf(out).Some?
    ensures FieldsMatch(out, LayoutOf(out).value, IdentityOf(keys))
  {
    hide LayoutOf, Parse, IndexOf, Patched, Small, WriteAll, CompleteTo, SomeDiffers, FieldsMatch, HashOf, Generated,
      IndexAfterFields, Recalculate, RecordsOf, TableAt, SmallByte, InFields, EntryTail;
    var identity := IdentityOf(keys);
    TailParts();
    SmallApplies(EntryTail(), identity);
    var patched := Patched(Image(), LayoutOf(Image()).value, identity);
    forall a: nat | a < SIZE && !(0x2FFD0 <= a < 0x2FFF0)
      ensures out[a] == patched[a]
    {
      OutKeeps(identity, a);
    }
    SlotOverwritten(keys, out);
    ImageFirstSlot(patched);
    assert out[HOME..HOME + 16] == patched[HOME..HOME + 16];
    assert out[0x2FFF0..0x30000] == patched[0x2FFF0..0x30000];
    Layout20(out);
    PatchedKeepsLayout(Image(), identity);
    FieldsLow(LayoutOf(Image()).value);
    FieldsAgree(patched, out, LayoutOf(Image()).value, identity);
  }

  lemma FieldsLow(layout: BootcoreLayout)
    requires layout == BootcoreLayout(BootcoreVersion(2, 0), 0x238, 0x65C)
    ensures forall a: nat :: InFields(layout, a) ==> a < 0x1000
  {
  }

  lemma ZeroState(e: seq<byte>)
    requires |e| == SIZE && e[SLOT] == 0 && e[SLOT + 1] == 0 && e[SLOT + 2] == 0 && e[SLOT + 3] == 0
    ensures !IsEntryStateValid(StateAt(e, SLOT))
  {
    assert Join(0, 0, 0, 0) & ENTRY_STATE_MASK == 0;
  }

  lemma OutThrows(e: seq<byte>)
    requires IsSmall(e) && FirstSlot(e) && !IsEntryStateValid(StateAt(e, SLOT))
    ensures Parse(e) == Failure(UnknownEntryState(SLOT))
  {
    hide RowAt, StateAt, PartitionKind, Bootcore20, OnlyX65;
    FirstSlotRow(e);
    SlotFromRow(e, EeFull, HOME, 1, EntryRow());
    assert SlotX65(e, EeFull, HOME, 2) == Failure(UnknownEntryState(SLOT));
    SmallKinds(e);
    ListFails(e);
    QuietStep(e, Unknown, 0);
    ScanFails(e);
  }

  lemma ListFails(e: seq<byte>)
    requires |e| == SIZE && SlotX65(e, EeFull, HOME, 1).Success? && SlotX65(e, EeFull, HOME, 1).value.ValidSlot?
    requires SlotX65(e, EeFull, HOME, 2) == Failure(UnknownEntryState(SLOT))
    ensures PartitionX65(e, EeFull, HOME) == Failure(UnknownEntryState(SLOT))
  {
    hide SlotX65;
    assert ListX65(e, EeFull, HOME, 2) == Failure(UnknownEntryState(SLOT));
  }

  lemma ScanFails(e: seq<byte>)
    requires |e| == SIZE && PartitionKind(e, X65, HOME) == Success(EeFull)
    requires PartitionX65(e, EeFull, HOME) == Failure(UnknownEntryState(SLOT))
    ensures Scan(e, Unknown, HOME) == Failure(UnknownEntryState(SLOT))
  {
    hide PartitionKind, PartitionX65;
    assert Visit(e, Unknown, HOME) == Failure(UnknownEntryState(SLOT));
  }

  /** The first call succeeds and writes zeros over the slot that ended the table; the next call throws. */
  lemma NextCallThrows(keys: Keys)
    requires !IsErased(HashOf(keys.esn, keys.skey))
    ensures var identity := IdentityOf(keys);
      var (out, verdict) := Recalculate(Image(), identity);
      verdict.Recalculated? && Recalculate(out, identity) == (out, Thrown(UnknownEntryState(SLOT)))
  {
    var identity := IdentityOf(keys);
    var (out, verdict) := Recalculate(Image(), identity);
    hide LayoutOf, Parse, Patched, HashOf, IsErased, Image, FieldsMatch, RecordsOf, WriteAll, CompleteTo, SomeDiffers,
      IsSmall, FirstSlot, StateAt;
    SlotOverwritten(keys, out);
    OutIsSmall(keys, out);
    ZeroState(out);
    OutThrows(out);
    PatchedSame(out, identity);
    AppliesAgain(out, identity);
  }
}
