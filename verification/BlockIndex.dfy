/** From the list of parsed entries to the id-to-block index, and what the index guarantees (src/siemens/eeprom.cpp). */
module BlockIndex {
  import opened Bytes
  import opened AddressMap
  import opened Directory

  type Index = map<nat, Block>

  /** try_emplace: an id keeps its first block. */
  function AddFirst(index: Index, entries: seq<Entry>): Index
    decreases |entries|
  {
    if entries == [] then index
    else
      var e := entries[0];
      AddFirst(if e.id in index then index else index[e.id := e.block], entries[1..])
  }

  /** insert_or_assign: an id keeps its last block. */
  function AddLast(index: Index, entries: seq<Entry>): Index
    decreases |entries|
  {
    if entries == [] then index
    else AddLast(index[entries[0].id := entries[0].block], entries[1..])
  }

  function AddEntries(layout: Layout, index: Index, entries: seq<Entry>): Index {
    if layout == X85 then AddLast(index, entries) else AddFirst(index, entries)
  }

  function IndexOf(listing: Listing): Index {
    AddEntries(listing.layout, map[], listing.entries)
  }

  // ----- Which entry wins -----

  ghost predicate FirstAt(entries: seq<Entry>, id: nat, k: nat) {
    k < |entries| && entries[k].id == id && forall j :: 0 <= j < k ==> entries[j].id != id
  }

  ghost predicate LastAt(entries: seq<Entry>, id: nat, k: nat) {
    k < |entries| && entries[k].id == id && forall j :: k < j < |entries| ==> entries[j].id != id
  }

  lemma {:induction false} AddFirstMeaning(index: Index, entries: seq<Entry>, id: nat)
    ensures id in index ==> id in AddFirst(index, entries) && AddFirst(index, entries)[id] == index[id]
    ensures id !in index && id in AddFirst(index, entries) ==>
      exists k: nat :: FirstAt(entries, id, k) && AddFirst(index, entries)[id] == entries[k].block
    ensures id !in index && id !in AddFirst(index, entries) ==> forall j :: 0 <= j < |entries| ==> entries[j].id != id
    decreases |entries|
  {
    if entries != [] {
      var e := entries[0];
      var next := if e.id in index then index else index[e.id := e.block];
      AddFirstMeaning(next, entries[1..], id);
      if id !in index && id in AddFirst(index, entries) {
        if e.id == id {
          assert FirstAt(entries, id, 0);
        } else {
          var k: nat :| FirstAt(entries[1..], id, k) && AddFirst(next, entries[1..])[id] == entries[1..][k].block;
          assert forall j :: 0 < j < k + 1 ==> entries[j] == entries[1..][j - 1];
          assert FirstAt(entries, id, k + 1);
        }
      }
      if id !in index && id !in AddFirst(index, entries) {
        assert forall j :: 0 < j < |entries| ==> entries[j] == entries[1..][j - 1];
      }
    }
  }

  lemma {:induction false} AddLastMeaning(index: Index, entries: seq<Entry>, id: nat)
    ensures id in AddLast(index, entries) <==> id in index || exists j :: 0 <= j < |entries| && entries[j].id == id
    ensures id in AddLast(index, entries) ==>
      || (exists k: nat :: LastAt(entries, id, k) && AddLast(index, entries)[id] == entries[k].block)
      || (id in index && AddLast(index, entries)[id] == index[id]
          && forall j :: 0 <= j < |entries| ==> entries[j].id != id)
    decreases |entries|
  {
    if entries != [] {
      var next := index[entries[0].id := entries[0].block];
      AddLastMeaning(next, entries[1..], id);
      assert forall j :: 0 < j < |entries| ==> entries[j] == entries[1..][j - 1];
      if j :| 0 <= j < |entries[1..]| && entries[1..][j].id == id {
        assert entries[j + 1].id == id;
      }
      if k: nat :| LastAt(entries[1..], id, k) && AddLast(next, entries[1..])[id] == entries[1..][k].block {
        assert LastAt(entries, id, k + 1);
      } else if id in AddLast(index, entries) && entries[0].id == id {
        assert LastAt(entries, id, 0);
      }
    }
  }

  /** X65 keeps the first entry of each id in scan order, X85 the last; nothing else is registered. */
  lemma IndexMeaning(listing: Listing, id: nat)
    ensures id in IndexOf(listing) <==> exists j :: 0 <= j < |listing.entries| && listing.entries[j].id == id
    ensures id in IndexOf(listing) && listing.layout != X85 ==>
      exists k: nat :: FirstAt(listing.entries, id, k) && IndexOf(listing)[id] == listing.entries[k].block
    ensures id in IndexOf(listing) && listing.layout == X85 ==>
      exists k: nat :: LastAt(listing.entries, id, k) && IndexOf(listing)[id] == listing.entries[k].block
  {
    if listing.layout == X85 {
      AddLastMeaning(map[], listing.entries, id);
    } else {
      AddFirstMeaning(map[], listing.entries, id);
    }
  }

  lemma {:induction false} AddEntriesInTwo(layout: Layout, index: Index, a: seq<Entry>, b: seq<Entry>)
    ensures AddEntries(layout, index, a + b) == AddEntries(layout, AddEntries(layout, index, a), b)
    decreases |a|
  {
    if a == [] {
      assert a + b == b;
    } else {
      assert (a + b)[1..] == a[1..] + b;
      var e := a[0];
      var next :=
        if layout == X85 then index[e.id := e.block] else if e.id in index then index else index[e.id := e.block];
      AddEntriesInTwo(layout, next, a[1..], b);
    }
  }

  // ----- Where entries may point -----

  /** The block lies in the partition it came from, inside the image, and its id is in its partition's range. */
  ghost predicate WellPlaced(e: Entry, layout: Layout, length: nat) {
    && e.home + PartitionSize(layout) <= length
    && (forall k: nat :: k < e.block.size ==> e.home <= ByteOffset(e.block, k) < e.home + PartitionSize(layout))
    && (if e.kind == EeLite then e.id < EEFULL_ID_OFFSET else EEFULL_ID_OFFSET <= e.id < 0x1_0000_0000)
  }

  /** A block whose bytes are all addresses of an image of `length` bytes. */
  ghost predicate Fits(block: Block, length: nat) {
    forall k: nat :: k < block.size ==> ByteOffset(block, k) < length
  }

  lemma SlotX65WellPlaced(data: seq<byte>, kind: PartitionType, partitionOffset: nat, index: nat)
    requires partitionOffset + X65_PARTITION_SIZE <= |data| && 1 <= index <= X65_ENTRY_COUNT && kind != NoPartition
    requires SlotX65(data, kind, partitionOffset, index).Success?
      && SlotX65(data, kind, partitionOffset, index).value.ValidSlot?
    ensures WellPlaced(SlotX65(data, kind, partitionOffset, index).value.entry, X65, |data|)
  {
    hide NumberAt, StateAt;
  }

  /** The payload view of an EEFULL block is the stored view from its second byte on. */
  lemma PayloadShifts(stored: Block, size: nat, index: nat)
    ensures ByteOffset(Block(ByteOffset(stored, 1), size, stored.layout), index) == ByteOffset(stored, index + 1)
  {
    RebaseShifts(stored, index);
  }

  lemma SlotX85WellPlaced(data: seq<byte>, kind: PartitionType, partitionOffset: nat, index: nat)
    requires partitionOffset + X85_PARTITION_SIZE <= |data| && 1 <= index <= X85_ENTRY_COUNT && kind != NoPartition
    requires partitionOffset % 32 == 0
    requires SlotX85(data, kind, partitionOffset, index).Success?
      && SlotX85(data, kind, partitionOffset, index).value.ValidSlot?
    ensures WellPlaced(SlotX85(data, kind, partitionOffset, index).value.entry, X85, |data|)
  {
    hide NumberAt, ShortAt, StateAt, ByteOffset;
    var at := EntryOffsetX85(partitionOffset, index);
    var storedSize := if kind == EeLite then ShortAt(data, at + 8) else NumberAt(data, at + 8);
    var relativeOffset := NumberAt(data, at + 12);
    var stored := StoredBlockX85(kind, partitionOffset, storedSize, relativeOffset, at).value;
    var e := SlotX85(data, kind, partitionOffset, index).value.entry;
    forall k: nat | k < e.block.size
      ensures e.home <= ByteOffset(e.block, k) < e.home + PartitionSize(X85)
    {
      var shift := if kind == EeFull then 1 else 0;
      StoredBlockX85Inside(kind, partitionOffset, storedSize, relativeOffset, index, k + shift);
      if kind == EeFull {
        PayloadShifts(stored, e.block.size, k);
        assert ByteOffset(e.block, k) == ByteOffset(stored, k + 1);
      }
    }
  }

  lemma {:induction false} ListX65WellPlaced(data: seq<byte>, kind: PartitionType, partitionOffset: nat, index: nat)
    requires partitionOffset + X65_PARTITION_SIZE <= |data| && 1 <= index <= X65_ENTRY_COUNT + 1 && kind != NoPartition
    requires ListX65(data, kind, partitionOffset, index).Success?
    ensures forall e :: e in ListX65(data, kind, partitionOffset, index).value ==> WellPlaced(e, X65, |data|)
    decreases X65_ENTRY_COUNT + 1 - index
  {
    var slot := SlotX65(data, kind, partitionOffset, index).value;
    if !slot.FreeSlot? {
      ListX65WellPlaced(data, kind, partitionOffset, index + 1);
      if slot.ValidSlot? {
        SlotX65WellPlaced(data, kind, partitionOffset, index);
      }
    }
  }

  lemma {:induction false} ListX85WellPlaced(data: seq<byte>, kind: PartitionType, partitionOffset: nat, index: nat)
    requires partitionOffset + X85_PARTITION_SIZE <= |data| && 1 <= index <= X85_ENTRY_COUNT + 1 && kind != NoPartition
    requires partitionOffset % 32 == 0
    requires ListX85(data, kind, partitionOffset, index).Success?
    ensures forall e :: e in ListX85(data, kind, partitionOffset, index).value ==> WellPlaced(e, X85, |data|)
    decreases X85_ENTRY_COUNT + 1 - index
  {
    if index <= X85_ENTRY_COUNT {
      ListX85WellPlaced(data, kind, partitionOffset, index + 1);
      var slot := SlotX85(data, kind, partitionOffset, index).value;
      if slot.ValidSlot? {
        SlotX85WellPlaced(data, kind, partitionOffset, index);
      }
    }
  }

  lemma {:induction false} ScanWellPlaced(data: seq<byte>, layout: Layout, offset: nat)
    requires offset % PARTITION_STEP == 0 && Scan(data, layout, offset).Success?
    ensures var listing := Scan(data, layout, offset).value;
      forall e :: e in listing.entries ==> WellPlaced(e, listing.layout, |data|)
    decreases |data| - offset
  {
    hide Visit, WellPlaced;
    if offset < |data| {
      var head := Visit(data, layout, offset).value;
      VisitWellPlaced(data, layout, offset);
      ScanWellPlaced(data, head.layout, offset + PARTITION_STEP);
    }
  }

  lemma VisitWellPlaced(data: seq<byte>, layout: Layout, offset: nat)
    requires offset % PARTITION_STEP == 0 && Visit(data, layout, offset).Success?
    ensures var head := Visit(data, layout, offset).value;
      forall e :: e in head.entries ==> WellPlaced(e, head.layout, |data|)
  {
    hide PartitionKind, ListX65, ListX85, WellPlaced;
    var head := Visit(data, layout, offset).value;
    if head.entries != [] {
      if head.layout == X65 {
        ListX65WellPlaced(data, PartitionKind(data, X65, offset).value, offset, 1);
      } else {
        StepAligned(offset);
        var home := offset - (X85_PARTITION_SIZE - PARTITION_STEP);
        ListX85WellPlaced(data, PartitionKind(data, X85, offset).value, home, 1);
      }
    }
  }

  /** Index invariant: every registered block comes from a well-placed entry, so all its bytes are in its partition. */
  lemma IndexInvariant(data: seq<byte>, id: nat)
    requires Parse(data).Success? && id in IndexOf(Parse(data).value)
    ensures var listing := Parse(data).value; var block := IndexOf(listing)[id];
      && (exists e: Entry ::
            e in listing.entries && e.id == id && e.block == block && WellPlaced(e, listing.layout, |data|))
      && Fits(block, |data|)
  {
    var listing := Parse(data).value;
    ScanWellPlaced(data, Unknown, 0);
    IndexMeaning(listing, id);
    var k :| 0 <= k < |listing.entries| && listing.entries[k].id == id
      && listing.entries[k].block == IndexOf(listing)[id];
    assert listing.entries[k] in listing.entries;
  }
}
