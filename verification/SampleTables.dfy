/** X65 images given by the rows of their entry tables: how they parse, and which bytes the parse leaves unexamined. */
module SampleTables {
  import opened Wrappers
  import opened Bytes
  import opened AddressMap
  import opened Directory
  import opened BlockIndex
  import opened ParseFrame
  import opened Fullflash
  import opened Keys
  import opened Recalc
  import opened RecalcMeaning

  // ----- One table -----

  /** The fields of a VALID entry: id in the partition, stored size, and where the data starts in the partition. */
  datatype Row = Row(id: nat, size: nat, start: nat)

  predicate RowAt(e: seq<byte>, at: nat, row: Row)
    requires at + 16 <= |e|
  {
    && StateAt(e, at) == STATE_VALID
    && NumberAt(e, at + 4) == row.id && NumberAt(e, at + 8) == row.size && NumberAt(e, at + 12) == row.start
  }

  predicate RowFits(kind: PartitionType, row: Row) {
    row.id <= MaxId(kind) && 2 <= row.size && row.start + row.size <= X65_PARTITION_SIZE
  }

  /** The table of the partition at `home` holds these rows and then a FREE slot; full data starts with version 0xFF. */
  ghost predicate TableAt(e: seq<byte>, kind: PartitionType, home: nat, rows: seq<Row>) {
    && home + X65_PARTITION_SIZE <= |e| && |rows| < X65_ENTRY_COUNT
    && (forall k :: 0 <= k < |rows| ==>
          && RowFits(kind, rows[k]) && RowAt(e, EntryOffsetX65(home, k + 1), rows[k])
          && (kind == EeFull ==> e[home + rows[k].start] == 0xFF))
    && StateAt(e, EntryOffsetX65(home, |rows| + 1)) == STATE_FREE
  }

  function EntryOf(kind: PartitionType, home: nat, row: Row): Entry
    requires row.size >= 1
  {
    var front := if kind == EeFull then 1 else 0;
    Entry(GlobalId(kind, row.id), Block(home + row.start + front, row.size - 1, Linear), kind, home)
  }

  function EntriesOf(kind: PartitionType, home: nat, rows: seq<Row>, from: nat): (entries: seq<Entry>)
    requires from <= |rows| && forall k :: 0 <= k < |rows| ==> rows[k].size >= 1
    ensures |entries| == |rows| - from
    ensures forall k :: 0 <= k < |entries| ==> entries[k] == EntryOf(kind, home, rows[from + k])
    decreases |rows| - from
  {
    if from == |rows| then [] else [EntryOf(kind, home, rows[from])] + EntriesOf(kind, home, rows, from + 1)
  }

  lemma VersionFF(version: byte)
    requires version == 0xFF
    ensures MetadataBytes(version) == 1
  {
  }

  lemma SlotFromRow(e: seq<byte>, kind: PartitionType, home: nat, index: nat, row: Row)
    requires home + X65_PARTITION_SIZE <= |e| && 1 <= index <= X65_ENTRY_COUNT
    requires RowFits(kind, row) && RowAt(e, EntryOffsetX65(home, index), row)
    requires kind == EeFull ==> e[home + row.start] == 0xFF
    ensures SlotX65(e, kind, home, index) == Success(ValidSlot(EntryOf(kind, home, row)))
  {
    hide StateAt, NumberAt, MetadataBytes;
    if kind == EeFull {
      VersionFF(e[home + row.start]);
    }
  }

  lemma SlotOfRow(e: seq<byte>, kind: PartitionType, home: nat, rows: seq<Row>, k: nat)
    requires TableAt(e, kind, home, rows) && k < |rows|
    ensures SlotX65(e, kind, home, k + 1) == Success(ValidSlot(EntryOf(kind, home, rows[k])))
  {
    hide RowAt, SlotX65, EntryOf;
    SlotFromRow(e, kind, home, k + 1, rows[k]);
  }

  lemma SlotAfterRows(e: seq<byte>, kind: PartitionType, home: nat, rows: seq<Row>)
    requires TableAt(e, kind, home, rows)
    ensures SlotX65(e, kind, home, |rows| + 1) == Success(FreeSlot)
  {
    hide NumberAt;
  }

  lemma {:induction false} TableLists(e: seq<byte>, kind: PartitionType, home: nat, rows: seq<Row>, k: nat)
    requires TableAt(e, kind, home, rows) && k <= |rows|
    ensures ListX65(e, kind, home, k + 1) == Success(EntriesOf(kind, home, rows, k))
    decreases |rows| - k
  {
    hide SlotX65, RowAt, RowFits, EntryOf;
    if k == |rows| {
      SlotAfterRows(e, kind, home, rows);
    } else {
      SlotOfRow(e, kind, home, rows, k);
      TableLists(e, kind, home, rows, k + 1);
    }
  }

  /** The bytes of a table, its FREE slot included, and the version bytes of full data. */
  predicate TouchesTable(kind: PartitionType, home: nat, rows: seq<Row>, a: nat)
    requires |rows| < X65_ENTRY_COUNT
  {
    || EntryOffsetX65(home, |rows| + 1) <= a < home + X65_PARTITION_SIZE
    || (kind == EeFull && exists k :: 0 <= k < |rows| && a == home + rows[k].start)
  }

  lemma SlotApart(e: seq<byte>, kind: PartitionType, home: nat, rows: seq<Row>, a: nat, index: nat)
    requires TableAt(e, kind, home, rows) && !TouchesTable(kind, home, rows, a)
    requires 1 <= index <= X65_ENTRY_COUNT && SlotReachedX65(e, kind, home, index)
    ensures !SlotExaminedX65(e, kind, home, index, a)
  {
    hide SlotX65, StateAt, NumberAt;
    SlotAfterRows(e, kind, home, rows);
    assert index <= |rows| + 1;
    if index <= |rows| {
      assert RowAt(e, EntryOffsetX65(home, index), rows[index - 1]);
    }
  }

  // ----- Steps of the scan -----

  /** No partition name starts here. */
  lemma NoName(e: seq<byte>, layout: Layout, offset: nat)
    requires HeaderOffset(layout, offset) < |e| ==> e[HeaderOffset(layout, offset)] != 0x45
    ensures PartitionKind(e, layout, offset) == Success(NoPartition)
  {
    var at := HeaderOffset(layout, offset);
    if at + HeaderSize(layout) <= |e| {
      assert e[at..at + 8][0] == e[at];
    }
  }

  const FULL_HEADER: seq<byte> :=
    [0x45, 0x45, 0x46, 0x55, 0x4C, 0x4C, 0x00, 0x00, 0xFF, 0xFF, 0x00, 0x00, 0xF0, 0xFF, 0xFF, 0xFF]
  const LITE_HEADER: seq<byte> :=
    [0x45, 0x45, 0x4C, 0x49, 0x54, 0x45, 0x00, 0x00, 0xFF, 0xFF, 0x00, 0x00, 0xF0, 0xFF, 0xFF, 0xFF]

  lemma SliceHead<T>(e: seq<T>, offset: nat, h: seq<T>)
    requires offset + 16 <= |e| && e[offset..offset + 16] == h
    ensures e[offset..offset + 8] == h[..8]
  {
  }

  lemma FullName(e: seq<byte>, offset: nat)
    requires offset + 16 <= |e| && e[offset..offset + 16] == FULL_HEADER
    ensures PartitionKind(e, X65, offset) == Success(EeFull)
  {
    var h := e[offset..offset + 16];
    SliceHead(e, offset, h);
    assert h[..8] == EEFULL_NAME;
    assert e[offset + 10] == h[10] && e[offset + 11] == h[11] && e[offset + 12] == h[12];
    assert e[offset + 13] == h[13] && e[offset + 14] == h[14] && e[offset + 15] == h[15];
  }

  lemma LiteName(e: seq<byte>, offset: nat)
    requires offset + 16 <= |e| && e[offset..offset + 16] == LITE_HEADER
    ensures PartitionKind(e, X65, offset) == Success(EeLite)
  {
    var h := e[offset..offset + 16];
    SliceHead(e, offset, h);
    assert h[..8] == EELITE_NAME;
    assert e[offset + 10] == h[10] && e[offset + 11] == h[11] && e[offset + 12] == h[12];
    assert e[offset + 13] == h[13] && e[offset + 14] == h[14] && e[offset + 15] == h[15];
  }

  /** No step of the scan finds an X85 partition. */
  ghost predicate OnlyX65(e: seq<byte>) {
    forall offset: nat :: offset % PARTITION_STEP == 0 ==> PartitionKind(e, X85, offset) == Success(NoPartition)
  }

  lemma QuietStep(e: seq<byte>, layout: Layout, offset: nat)
    requires OnlyX65(e) && layout != X85 && offset % PARTITION_STEP == 0 && offset < |e|
    requires PartitionKind(e, X65, offset) == Success(NoPartition)
    ensures Scan(e, layout, offset) == Scan(e, layout, offset + PARTITION_STEP)
  {
    hide PartitionKind;
    var rest := Scan(e, layout, offset + PARTITION_STEP);
    if rest.Success? {
      assert [] + rest.value.entries == rest.value.entries;
    }
  }

  lemma TableStep(e: seq<byte>, layout: Layout, offset: nat, kind: PartitionType, rows: seq<Row>, rest: seq<Entry>)
    requires layout != X85 && offset % PARTITION_STEP == 0 && offset < |e| && kind != NoPartition
    requires PartitionKind(e, X65, offset) == Success(kind) && TableAt(e, kind, offset, rows)
    requires Scan(e, X65, offset + PARTITION_STEP) == Success(Listing(X65, rest))
    ensures Scan(e, layout, offset) == Success(Listing(X65, EntriesOf(kind, offset, rows, 0) + rest))
  {
    hide PartitionKind, Scan, ListX65, RowAt;
    TableLists(e, kind, offset, rows, 0);
    VisitOfTable(e, layout, offset, kind, EntriesOf(kind, offset, rows, 0));
    ScanOnce(e, layout, offset, Listing(X65, EntriesOf(kind, offset, rows, 0)), Listing(X65, rest));
  }

  lemma VisitOfTable(e: seq<byte>, layout: Layout, offset: nat, kind: PartitionType, entries: seq<Entry>)
    requires layout != X85 && offset % PARTITION_STEP == 0 && kind != NoPartition
    requires PartitionKind(e, X65, offset) == Success(kind) && PartitionX65(e, kind, offset) == Success(entries)
    ensures Visit(e, layout, offset) == Success(Listing(X65, entries))
  {
    hide PartitionKind, PartitionX65;
  }

  lemma ScanOnce(e: seq<byte>, layout: Layout, offset: nat, head: Listing, rest: Listing)
    requires offset % PARTITION_STEP == 0 && offset < |e| && Visit(e, layout, offset) == Success(head)
    requires Scan(e, head.layout, offset + PARTITION_STEP) == Success(rest)
    ensures Scan(e, layout, offset) == Success(Listing(rest.layout, head.entries + rest.entries))
  {
    hide Visit;
  }

  lemma {:induction false} QuietScan(e: seq<byte>, offset: nat)
    requires OnlyX65(e) && offset % PARTITION_STEP == 0
    requires forall o: nat :: offset <= o < |e| ==> o % PARTITION_STEP == 0 ==>
      PartitionKind(e, X65, o) == Success(NoPartition)
    ensures Scan(e, X65, offset) == Success(Listing(X65, []))
    decreases |e| - offset
  {
    hide PartitionKind;
    if offset < |e| {
      QuietStep(e, X65, offset);
      QuietScan(e, offset + PARTITION_STEP);
    }
  }

  // ----- Bytes the parse never looks at -----

  /** Away from the places where headers may be. */
  predicate Inner(a: nat) {
    0x20 <= a % PARTITION_STEP < 0xFFE0
  }

  lemma HeaderApart(e: seq<byte>, layout: Layout, offset: nat, a: nat)
    requires Inner(a) && offset % PARTITION_STEP == 0
    ensures !HeaderExamined(e, layout, offset, a)
  {
    hide PartitionKind;
    var m := offset / PARTITION_STEP;
    assert offset == PARTITION_STEP * m;
  }

  /** No table that the scan finds at or after `offset` is examined at `a`. */
  ghost predicate TablesApart(e: seq<byte>, a: nat) {
    forall o: nat :: o % PARTITION_STEP == 0 ==> !PartitionExamined(e, X65, o, a)
  }

  lemma PartitionApart(e: seq<byte>, kind: PartitionType, home: nat, rows: seq<Row>, a: nat)
    requires home % PARTITION_STEP == 0 && PartitionKind(e, X65, home) == Success(kind)
    requires TableAt(e, kind, home, rows) && !TouchesTable(kind, home, rows, a)
    ensures !PartitionExamined(e, X65, home, a)
  {
    hide PartitionKind, SlotReachedX65, SlotExaminedX65, TableAt, TouchesTable;
    if home + X65_PARTITION_SIZE <= |e| {
      forall index | 1 <= index <= X65_ENTRY_COUNT && SlotReachedX65(e, kind, home, index)
        ensures !SlotExaminedX65(e, kind, home, index, a)
      {
        SlotApart(e, kind, home, rows, a, index);
      }
    }
  }

  lemma NothingRecognised(e: seq<byte>, offset: nat, a: nat)
    requires offset % PARTITION_STEP == 0 && PartitionKind(e, X85, offset) == Success(NoPartition)
    ensures !PartitionExamined(e, X85, offset, a)
  {
    hide PartitionKind;
  }

  lemma {:induction false} NeverExamined(e: seq<byte>, layout: Layout, offset: nat, a: nat)
    requires OnlyX65(e) && layout != X85 && offset % PARTITION_STEP == 0 && Inner(a) && TablesApart(e, a)
    ensures !Examined(e, layout, offset, a)
    decreases |e| - offset
  {
    hide PartitionKind, HeaderExamined, PartitionExamined, PartitionX65, PartitionX85;
    HeaderApart(e, X65, offset, a);
    HeaderApart(e, X85, offset, a);
    NothingRecognised(e, offset, a);
    if offset < |e| && Visit(e, layout, offset).Success? {
      NeverExamined(e, Visit(e, layout, offset).value.layout, offset + PARTITION_STEP, a);
    }
  }

  lemma {:induction false} NeverIdle(e: seq<byte>, layout: Layout, offset: nat, home: nat, index: nat)
    requires OnlyX65(e) && layout != X85 && offset % PARTITION_STEP == 0
    ensures !LeavesIdle(e, layout, offset, home, index)
    decreases |e| - offset
  {
    hide PartitionKind, PartitionX65, PartitionX85, StateX85;
    if offset < |e| && Visit(e, layout, offset).Success? {
      NeverIdle(e, Visit(e, layout, offset).value.layout, offset + PARTITION_STEP, home, index);
    }
  }

  /** Every byte that a recalculation replaces belongs to the payload of some listed entry. */
  lemma CoveredByEntry(listing: Listing, blocks: seq<GeneratedBlock>, a: nat) returns (k: nat)
    requires CoveredBy(IndexOf(listing), blocks, |blocks|, a)
    ensures k < |listing.entries| && a in Footprint(listing.entries[k].block)
  {
    hide Footprint, IndexOf;
    var i :| 0 <= i < |blocks| && Covers(IndexOf(listing), blocks[i], a);
    IndexMeaning(listing, blocks[i].id);
    k :| 0 <= k < |listing.entries| && listing.entries[k].block == IndexOf(listing)[blocks[i].id];
  }

  // ----- Bytes to fields -----

  /** The bytes of an entry spell this row. */
  predicate Spells(bytes: seq<byte>, row: Row) {
    && |bytes| == 16
    && Join(bytes[0], bytes[1], bytes[2], bytes[3]) & ENTRY_STATE_MASK == STATE_VALID
    && Number(Join(bytes[4], bytes[5], bytes[6], bytes[7])) == row.id
    && Number(Join(bytes[8], bytes[9], bytes[10], bytes[11])) == row.size
    && Number(Join(bytes[12], bytes[13], bytes[14], bytes[15])) == row.start
  }

  lemma RowFromBytes(e: seq<byte>, at: nat, bytes: seq<byte>, row: Row)
    requires at + 16 <= |e| && e[at..at + 16] == bytes && Spells(bytes, row)
    ensures RowAt(e, at, row)
  {
    hide Join, Number;
    assert forall k :: 0 <= k < 16 ==> e[at + k] == bytes[k];
  }

  lemma FreeFromBytes(e: seq<byte>, at: nat)
    requires at + 4 <= |e| && e[at] == 0xFF && e[at + 1] == 0xFF && e[at + 2] == 0xFF && e[at + 3] == 0xFF
    ensures StateAt(e, at) == STATE_FREE
  {
    FreeState(e[at], e[at + 1], e[at + 2], e[at + 3]);
    hide Join;
  }

  lemma FreeState(b0: byte, b1: byte, b2: byte, b3: byte)
    requires b0 == 0xFF && b1 == 0xFF && b2 == 0xFF && b3 == 0xFF
    ensures Join(b0, b1, b2, b3) & ENTRY_STATE_MASK == STATE_FREE
  {
  }

  // ----- Bootcore 2.0 -----

  predicate Bootcore20(e: seq<byte>) {
    && |e| >= 0x1000
    && e[0x3C] == 0x43 && e[0x3D] == 0x4A && e[0x3E] == 0x4B && e[0x3F] == 0x54
    && e[0x200] == 0 && e[0x201] == 2 && e[0x202] == 0x4C && e[0x203] == 0x53
  }

  predicate InFields20(a: nat) {
    0x238 <= a < 0x248 || 0x65C <= a < 0x66B
  }

  lemma Layout20(e: seq<byte>)
    requires Bootcore20(e)
    ensures LayoutOf(e) == Some(BootcoreLayout(BootcoreVersion(2, 0), 0x238, 0x65C))
  {
  }

  /** The bootcore of a sample, erased elsewhere. */
  function BootcoreByte(a: nat): byte {
    if a == 0x3C then 0x43 else if a == 0x3D then 0x4A else if a == 0x3E then 0x4B else if a == 0x3F then 0x54
    else if a == 0x200 then 0 else if a == 0x201 then 2 else if a == 0x202 then 0x4C else if a == 0x203 then 0x53
    else if a == 0x238 then 0
    else 0xFF
  }

  lemma IndexOfOne(a: Entry)
    ensures IndexOf(Listing(X65, [a])) == map[a.id := a.block]
  {
    assert [a][1..] == [];
    assert AddFirst(map[a.id := a.block], []) == map[a.id := a.block];
  }

  lemma IndexOfTwo(a: Entry, b: Entry)
    requires a.id != b.id
    ensures IndexOf(Listing(X65, [a, b])) == map[a.id := a.block, b.id := b.block]
  {
    assert [a, b][1..] == [b] && [b][1..] == [];
    assert AddFirst(map[a.id := a.block], [b]) == map[a.id := a.block, b.id := b.block];
  }

  /** No two entries share an id or a byte. */
  ghost predicate EntriesApart(entries: seq<Entry>) {
    forall i, j :: 0 <= i < j < |entries| ==>
      entries[i].id != entries[j].id && Footprint(entries[i].block) !! Footprint(entries[j].block)
  }

  lemma IndexOfApart(listing: Listing, k: nat)
    requires EntriesApart(listing.entries) && k < |listing.entries|
    ensures var e := listing.entries[k]; e.id in IndexOf(listing) && IndexOf(listing)[e.id] == e.block
  {
    hide IndexOf, Footprint;
    IndexMeaning(listing, listing.entries[k].id);
    var j :| 0 <= j < |listing.entries| && listing.entries[j].id == listing.entries[k].id
      && IndexOf(listing)[listing.entries[k].id] == listing.entries[j].block;
  }

  lemma ApartBlocks(listing: Listing, x: nat, y: nat)
    requires EntriesApart(listing.entries) && x in IndexOf(listing) && y in IndexOf(listing) && x != y
    ensures Footprint(IndexOf(listing)[x]) !! Footprint(IndexOf(listing)[y])
  {
    hide IndexOf, Footprint;
    IndexMeaning(listing, x);
    IndexMeaning(listing, y);
    var i :| 0 <= i < |listing.entries| && listing.entries[i].id == x;
    var j :| 0 <= j < |listing.entries| && listing.entries[j].id == y;
    IndexOfApart(listing, i);
    IndexOfApart(listing, j);
    assert i < j || j < i;
  }

  /** Then the generated blocks never disagree. */
  lemma ApartAgree(listing: Listing, keys: Keys, short: bool, blocks: seq<GeneratedBlock>)
    requires EntriesApart(listing.entries) && blocks == Generated(keys, short)
    ensures Agreeing(IndexOf(listing), blocks, |blocks|)
  {
    hide Generated, IndexOf, Footprint, EntriesApart, Agreeing;
    var index := IndexOf(listing);
    forall i, j | 0 <= i < j < |blocks| && Replaces(index, blocks[i]) && Replaces(index, blocks[j])
      ensures Footprint(index[blocks[i].id]) !! Footprint(index[blocks[j].id])
    {
      GeneratedIds(keys, short, i);
      GeneratedIds(keys, short, j);
      ApartBlocks(listing, blocks[i].id, blocks[j].id);
    }
    DisjointAgree(index, blocks);
  }

  // ----- A recalculation that stays clear -----

  /** The payload of the listing avoids the bootcore, the headers and everything the tables make the parse look at. */
  ghost predicate PayloadApart(e: seq<byte>, entries: seq<Entry>) {
    forall k :: 0 <= k < |entries| ==> BlockApart(e, entries[k].block)
  }

  ghost predicate BlockApart(e: seq<byte>, block: Block) {
    forall a: nat :: a in Footprint(block) ==> ByteApart(e, a)
  }

  ghost predicate ByteApart(e: seq<byte>, a: nat) {
    a >= 0x1300 && Inner(a) && TablesApart(e, a)
  }

  lemma HighApart(e: seq<byte>, a: nat)
    requires a >= 0x1300
    ensures !LayoutExamined(e, a) && !InFields(BootcoreLayout(BootcoreVersion(2, 0), 0x238, 0x65C), a)
  {
    hide HasInterface;
  }

  lemma WrittenApart(d: seq<byte>, identity: Identity, listing: Listing, patched: seq<byte>, a: nat)
    requires Parses(d, identity) && patched == Patched(d, LayoutOf(d).value, identity)
    requires Parse(patched) == Success(listing) && OnlyX65(patched) && PayloadApart(patched, listing.entries)
    requires BlockWritten(d, identity, a)
    ensures a >= 0x1300 && !Examined(patched, Unknown, 0, a)
  {
    hide LayoutOf, Parse, IndexOf, Patched, CoveredBy, Examined, OnlyX65, TablesApart, Inner, Footprint;
    var k := CoveredByEntry(listing, RecordsFor(IndexAfterFields(d, identity), identity), a);
    NeverExamined(patched, Unknown, 0, a);
  }

  lemma SampleClear(d: seq<byte>, identity: Identity, listing: Listing)
    requires Bootcore20(d) && Parses(d, identity)
    requires var patched := Patched(d, LayoutOf(d).value, identity);
      OnlyX65(patched) && Bootcore20(patched) && Parse(patched) == Success(listing)
        && PayloadApart(patched, listing.entries)
    ensures StaysClear(d, identity) && Undisturbed(d, identity)
  {
    Layout20(d);
    var patched := Patched(d, LayoutOf(d).value, identity);
    hide LayoutOf, Parse, IndexOf, Patched, CoveredBy, Examined, LeavesIdle, Recalculate, OnlyX65, TablesApart, Inner,
      Footprint, Undisturbed, WokenX85, Bootcore20, BlockWritten, Parses, LayoutExamined, InFields, PayloadApart;
    forall a: nat | BlockWritten(d, identity, a)
      ensures !InFields(LayoutOf(d).value, a) && !LayoutExamined(patched, a) && !Examined(patched, Unknown, 0, a)
    {
      WrittenApart(d, identity, listing, patched, a);
      HighApart(patched, a);
    }
    forall home: nat, slot: nat
      ensures !LeavesIdle(patched, Unknown, 0, home, slot)
    {
      NeverIdle(patched, Unknown, 0, home, slot);
    }
    ClearIsUndisturbed(d, identity);
  }
}
