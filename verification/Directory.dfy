/** What the EEPROM parser reads from a flash image: headers, entries and the list of
    blocks (src/siemens/eeprom.cpp). */
module Directory {
  import opened Wrappers
  import opened Bytes
  import opened AddressMap

  const PARTITION_STEP: nat := 0x10000
  const X65_PARTITION_SIZE: nat := 0x20000
  const X85_PARTITION_SIZE: nat := 0x40000
  const X65_HEADER_SIZE: nat := 16
  const X85_HEADER_SIZE: nat := 32
  const X65_ENTRY_SIZE: nat := 16
  const X85_ENTRY_SIZE: nat := 32
  const X85_EELITE_MAX_LINEAR_SIZE: nat := 0x10
  const X85_EEFULL_MAX_LINEAR_SIZE: nat := 0x200
  const EEFULL_ID_OFFSET: nat := 5000
  const ENTRY_STATE_MASK: word := 0xAAAAAAAA
  const X65_ENTRY_COUNT: nat := (X65_PARTITION_SIZE - X65_HEADER_SIZE) / X65_ENTRY_SIZE
  const X85_ENTRY_COUNT: nat := (X85_PARTITION_SIZE - X85_HEADER_SIZE) / X85_ENTRY_SIZE

  const STATE_FREE: word := 0xAAAAAAAA
  const STATE_WRITING: word := 0xAAAAAAA8
  const STATE_VALID: word := 0xAAAAAA80
  const STATE_OBSOLETE: word := 0xAAAAAA00

  const EELITE_NAME: seq<byte> := [0x45, 0x45, 0x4C, 0x49, 0x54, 0x45, 0, 0]
  const EEFULL_NAME: seq<byte> := [0x45, 0x45, 0x46, 0x55, 0x4C, 0x4C, 0, 0]

  datatype Layout = Unknown | X65 | X85

  datatype PartitionType = NoPartition | EeLite | EeFull

  datatype EepromError =
    | InvalidPartitionHeader(at: nat)
    | PartitionExceedsFullflash(at: nat)
    | PartitionStartUnderflow(at: nat)
    | UnknownEntryState(at: nat)
    | BlockIdOutOfRange(at: nat)
    | ZeroBlockSize(at: nat)
    | DataOffsetOutOfRange(at: nat)
    | BlockDataOutOfRange(at: nat)
    | InlineDataOutOfRange(at: nat)
    | MetadataExceedsBlock(at: nat)
    | NoFreeEntry(at: nat)
    | BlockNotFound(id: nat)
    | SizeMismatch(id: nat, size: nat, expected: nat)

  /** One registered block: the id callers use, where its payload is, and the partition it came from. */
  datatype Entry = Entry(id: nat, block: Block, kind: PartitionType, home: nat)

  /** What one entry slot means: end of the table, nothing, or a block. */
  datatype Slot = FreeSlot | SkippedSlot | ValidSlot(entry: Entry)

  datatype Listing = Listing(layout: Layout, entries: seq<Entry>)

  // ----- Partition headers -----

  function HeaderSize(layout: Layout): nat {
    if layout == X65 then X65_HEADER_SIZE else X85_HEADER_SIZE
  }

  function HeaderOffset(layout: Layout, blockOffset: nat): nat {
    if layout == X65 then blockOffset else blockOffset + PARTITION_STEP - X85_HEADER_SIZE
  }

  function PartitionSize(layout: Layout): nat {
    if layout == X65 then X65_PARTITION_SIZE else X85_PARTITION_SIZE
  }

  /** A header is recognised by its 8-byte name; a recognised header with any other wrong byte is an error. */
  function PartitionKind(data: seq<byte>, layout: Layout, blockOffset: nat): (r: Result<PartitionType, EepromError>)
    ensures r.Success? && r.value != NoPartition ==> HeaderOffset(layout, blockOffset) + HeaderSize(layout) <= |data|
  {
    var size := HeaderSize(layout);
    var at := HeaderOffset(layout, blockOffset);
    if at + size > |data| then
      Success(NoPartition)
    else if data[at..at + 8] != EELITE_NAME && data[at..at + 8] != EEFULL_NAME then
      Success(NoPartition)
    else if data[at + 10] == 0 && data[at + 11] == 0 && data[at + 12] == 0xF0
            && (forall index :: at + 13 <= index < at + size ==> data[index] == 0xFF) then
      Success(if data[at..at + 8] == EELITE_NAME then EeLite else EeFull)
    else
      Failure(InvalidPartitionHeader(at))
  }

  // ----- Entries -----

  predicate IsEntryStateValid(state: word) {
    state == STATE_FREE || state == STATE_WRITING || state == STATE_VALID || state == STATE_OBSOLETE
  }

  function StateAt(data: seq<byte>, entryOffset: nat): word
    requires entryOffset + 4 <= |data|
  {
    ReadU32(data, entryOffset) & ENTRY_STATE_MASK
  }

  function NumberAt(data: seq<byte>, at: nat): (n: nat)
    requires at + 4 <= |data|
    ensures n < 0x1_0000_0000
  {
    Number(ReadU32(data, at))
  }

  function Number(w: word): (n: nat)
    ensures n < 0x1_0000_0000
  {
    w as nat
  }

  function ShortAt(data: seq<byte>, at: nat): (n: nat)
    requires at + 2 <= |data|
    ensures n < 0x1_0000
  {
    ShortNumber(ReadU16(data, at))
  }

  function ShortNumber(w: bv16): (n: nat)
    ensures n < 0x1_0000
  {
    w as nat
  }

  /** Both read little-endian numbers. */
  lemma NumberMeaning(data: seq<byte>, at: nat)
    requires at + 4 <= |data|
    ensures NumberAt(data, at)
         == Num(data[at]) + 0x100 * Num(data[at + 1]) + 0x1_0000 * Num(data[at + 2]) + 0x100_0000 * Num(data[at + 3])
    ensures ShortAt(data, at) == Num(data[at]) + 0x100 * Num(data[at + 1])
  {
    JoinNumber(data[at], data[at + 1], data[at + 2], data[at + 3]);
    PairNumber(data[at], data[at + 1]);
    hide Num, Number, ShortNumber, Join;
  }

  lemma JoinNumber(b0: byte, b1: byte, b2: byte, b3: byte)
    ensures Number(Join(b0, b1, b2, b3)) == Num(b0) + 0x100 * Num(b1) + 0x1_0000 * Num(b2) + 0x100_0000 * Num(b3)
  {
  }

  lemma PairNumber(b0: byte, b1: byte)
    ensures ShortNumber(b0 as bv16 | (b1 as bv16 << 8)) == Num(b0) + 0x100 * Num(b1)
  {
  }

  function MaxId(kind: PartitionType): nat {
    if kind == EeLite then EEFULL_ID_OFFSET - 1 else 0xFFFFFFFF - EEFULL_ID_OFFSET
  }

  function GlobalId(kind: PartitionType, id: nat): nat {
    if kind == EeFull then id + EEFULL_ID_OFFSET else id
  }

  /** The metadata bytes a version byte announces. */
  function MetadataBytes(version: byte): nat {
    if (version & 0x80) != 0 && version != 0xFF then 6 else 1
  }

  /** Metadata bytes of an EEFULL block, told by its first byte; an error when the block is shorter. */
  function EefullMetadataSize(data: seq<byte>, block: Block, entryOffset: nat): (r: Result<nat, EepromError>)
    requires ByteOffset(block, 0) < |data|
    ensures r.Success? ==> 1 <= r.value <= block.size
  {
    var metadataSize := MetadataBytes(data[ByteOffset(block, 0)]);
    if block.size < metadataSize then Failure(MetadataExceedsBlock(entryOffset)) else Success(metadataSize)
  }

  function LinearBlock(partitionOffset: nat, partitionSize: nat, relativeOffset: nat, storedSize: nat, entryOffset: nat)
    : (r: Result<Block, EepromError>)
    ensures r.Success? ==> r.value == Block(partitionOffset + relativeOffset, storedSize, Linear)
    ensures r.Success? <==> relativeOffset < partitionSize && relativeOffset + storedSize <= partitionSize
  {
    if relativeOffset >= partitionSize then Failure(DataOffsetOutOfRange(entryOffset))
    else if storedSize > partitionSize - relativeOffset then Failure(BlockDataOutOfRange(entryOffset))
    else Success(Block(partitionOffset + relativeOffset, storedSize, Linear))
  }

  /** The payload view: EEFULL loses its metadata, an X65 EELITE block its trailing byte. */
  function ExposedBlock(data: seq<byte>, layout: Layout, kind: PartitionType, stored: Block, entryOffset: nat)
    : (r: Result<Block, EepromError>)
    requires stored.size >= 1 && ByteOffset(stored, 0) < |data|
  {
    if kind == EeFull then
      var metadataSize :- EefullMetadataSize(data, stored, entryOffset);
      Success(Block(ByteOffset(stored, 1), stored.size - metadataSize, stored.layout))
    else if layout == X65 then
      Success(stored.(size := stored.size - 1))
    else
      Success(stored)
  }

  function EntryOffsetX65(partitionOffset: nat, index: nat): nat
    requires index <= X65_ENTRY_COUNT
  {
    partitionOffset + X65_PARTITION_SIZE - X65_ENTRY_SIZE * index
  }

  function SlotX65(data: seq<byte>, kind: PartitionType, partitionOffset: nat, index: nat)
      : (r: Result<Slot, EepromError>)
    requires partitionOffset + X65_PARTITION_SIZE <= |data| && 1 <= index <= X65_ENTRY_COUNT
  {
    var at := EntryOffsetX65(partitionOffset, index);
    var state := StateAt(data, at);
    if !IsEntryStateValid(state) then Failure(UnknownEntryState(at))
    else if state == STATE_FREE then Success(FreeSlot)
    else if state != STATE_VALID then Success(SkippedSlot)
    else
      var id, storedSize, relativeOffset := NumberAt(data, at + 4), NumberAt(data, at + 8), NumberAt(data, at + 12);
      if id > MaxId(kind) then Failure(BlockIdOutOfRange(at))
      else if storedSize == 0 then Failure(ZeroBlockSize(at))
      else
        var stored :- LinearBlock(partitionOffset, X65_PARTITION_SIZE, relativeOffset, storedSize, at);
        var block :- ExposedBlock(data, X65, kind, stored, at);
        Success(ValidSlot(Entry(GlobalId(kind, id), block, kind, partitionOffset)))
  }

  function EntryOffsetX85(partitionOffset: nat, index: nat): nat
    requires index <= X85_ENTRY_COUNT
  {
    partitionOffset + X85_PARTITION_SIZE - X85_HEADER_SIZE - X85_ENTRY_SIZE * index
  }

  function InlineMaxSize(kind: PartitionType): nat {
    if kind == EeFull then X85_EEFULL_MAX_LINEAR_SIZE else X85_EELITE_MAX_LINEAR_SIZE
  }

  /** The stored block of an X85 entry: inline below the entry when small, elsewhere in the partition otherwise. */
  function StoredBlockX85(kind: PartitionType, partitionOffset: nat, storedSize: nat, relativeOffset: nat,
      entryOffset: nat)
    : (r: Result<Block, EepromError>)
  {
    if storedSize <= InlineMaxSize(kind) then
      if entryOffset < partitionOffset + ReservedSize(storedSize) then Failure(InlineDataOutOfRange(entryOffset))
      else Success(InlineBlock(entryOffset, storedSize))
    else
      LinearBlock(partitionOffset, X85_PARTITION_SIZE, relativeOffset, storedSize, entryOffset)
  }

  function SlotX85(data: seq<byte>, kind: PartitionType, partitionOffset: nat, index: nat)
      : (r: Result<Slot, EepromError>)
    requires partitionOffset + X85_PARTITION_SIZE <= |data| && 1 <= index <= X85_ENTRY_COUNT
    requires partitionOffset % 32 == 0
  {
    var at := EntryOffsetX85(partitionOffset, index);
    if StateAt(data, at) != STATE_VALID then Success(SkippedSlot)
    else
      var storedSize := if kind == EeLite then ShortAt(data, at + 8) else NumberAt(data, at + 8);
      var id := if kind == EeLite then ShortAt(data, at + 4) else NumberAt(data, at + 4);
      if storedSize == 0 then Failure(ZeroBlockSize(at))
      else
        var stored :- StoredBlockX85(kind, partitionOffset, storedSize, NumberAt(data, at + 12), at);
        StoredBlockX85Inside(kind, partitionOffset, storedSize, NumberAt(data, at + 12), index, 0);
        if id > MaxId(kind) then Failure(BlockIdOutOfRange(at))
        else
          var block :- ExposedBlock(data, X85, kind, stored, at);
          Success(ValidSlot(Entry(GlobalId(kind, id), block, kind, partitionOffset)))
  }

  /** Every byte of a stored X85 block lies in its partition, inline or not. */
  lemma StoredBlockX85Inside(kind: PartitionType, partitionOffset: nat, storedSize: nat, relativeOffset: nat,
      index: nat, k: nat)
    requires 1 <= index <= X85_ENTRY_COUNT && partitionOffset % 32 == 0 && k < storedSize
    requires StoredBlockX85(kind, partitionOffset, storedSize, relativeOffset,
      EntryOffsetX85(partitionOffset, index)).Success?
    ensures var b := StoredBlockX85(kind, partitionOffset, storedSize, relativeOffset,
      EntryOffsetX85(partitionOffset, index)).value;
      b.size == storedSize && partitionOffset <= ByteOffset(b, k) < partitionOffset + X85_PARTITION_SIZE
      && (b.layout == Strided ==> !Bit4(b.offset))
  {
    var at := EntryOffsetX85(partitionOffset, index);
    if storedSize <= InlineMaxSize(kind) {
      var slot := partitionOffset / 32 + 8191 - index;
      assert at == 32 * slot;
      InlinePlacement(slot, storedSize);
      InlineBytes(slot, storedSize, k);
    }
  }

  // ----- Partitions -----

  /** The VALID entries of an X65 table from slot `index` to its first FREE slot. */
  function ListX65(data: seq<byte>, kind: PartitionType, partitionOffset: nat, index: nat)
      : (r: Result<seq<Entry>, EepromError>)
    requires partitionOffset + X65_PARTITION_SIZE <= |data| && 1 <= index <= X65_ENTRY_COUNT + 1
    decreases X65_ENTRY_COUNT + 1 - index
  {
    if index > X65_ENTRY_COUNT then
      Failure(NoFreeEntry(partitionOffset))
    else
      var slot :- SlotX65(data, kind, partitionOffset, index);
      if slot.FreeSlot? then Success([])
      else
        var rest :- ListX65(data, kind, partitionOffset, index + 1);
        Success(if slot.ValidSlot? then [slot.entry] + rest else rest)
  }

  /** The VALID entries of an X85 table, over every slot. */
  function ListX85(data: seq<byte>, kind: PartitionType, partitionOffset: nat, index: nat)
      : (r: Result<seq<Entry>, EepromError>)
    requires partitionOffset + X85_PARTITION_SIZE <= |data| && 1 <= index <= X85_ENTRY_COUNT + 1
    requires partitionOffset % 32 == 0
    decreases X85_ENTRY_COUNT + 1 - index
  {
    if index > X85_ENTRY_COUNT then
      Success([])
    else
      var slot :- SlotX85(data, kind, partitionOffset, index);
      var rest :- ListX85(data, kind, partitionOffset, index + 1);
      Success(if slot.ValidSlot? then [slot.entry] + rest else rest)
  }

  function PartitionX65(data: seq<byte>, kind: PartitionType, partitionOffset: nat)
      : (r: Result<seq<Entry>, EepromError>)
  {
    if partitionOffset + X65_PARTITION_SIZE > |data| then Failure(PartitionExceedsFullflash(partitionOffset))
    else ListX65(data, kind, partitionOffset, 1)
  }

  /** An X85 partition is found by the header at the end of its last 64 KiB block. */
  function PartitionX85(data: seq<byte>, kind: PartitionType, blockOffset: nat): (r: Result<seq<Entry>, EepromError>)
    requires blockOffset % PARTITION_STEP == 0 && blockOffset + PARTITION_STEP <= |data|
  {
    if blockOffset < X85_PARTITION_SIZE - PARTITION_STEP then Failure(PartitionStartUnderflow(blockOffset))
    else
      StepAligned(blockOffset);
      ListX85(data, kind, blockOffset - (X85_PARTITION_SIZE - PARTITION_STEP), 1)
  }

  lemma StepAligned(blockOffset: nat)
    requires blockOffset % PARTITION_STEP == 0 && blockOffset >= X85_PARTITION_SIZE - PARTITION_STEP
    ensures (blockOffset - (X85_PARTITION_SIZE - PARTITION_STEP)) % 32 == 0
  {
    var step := blockOffset / PARTITION_STEP;
    assert blockOffset == PARTITION_STEP * step;
    assert blockOffset - (X85_PARTITION_SIZE - PARTITION_STEP) == 32 * (2048 * step - 6144);
  }

  // ----- The whole image -----

  /** One 64 KiB step of the scan: try X65, then X85, as far as the layout found so far allows. */
  function Visit(data: seq<byte>, layout: Layout, offset: nat): (r: Result<Listing, EepromError>)
    requires offset % PARTITION_STEP == 0
    ensures r.Success? && layout != Unknown ==> r.value.layout == layout
    ensures r.Success? && r.value.layout == Unknown ==> r.value.entries == []
  {
    var x65 :- if layout != X85 then PartitionKind(data, X65, offset) else Success(NoPartition);
    if x65 != NoPartition then
      var entries :- PartitionX65(data, x65, offset);
      Success(Listing(X65, entries))
    else
      var x85 :- if layout != X65 then PartitionKind(data, X85, offset) else Success(NoPartition);
      if x85 != NoPartition then
        var entries :- PartitionX85(data, x85, offset);
        Success(Listing(X85, entries))
      else
        Success(Listing(layout, []))
  }

  function Scan(data: seq<byte>, layout: Layout, offset: nat): (r: Result<Listing, EepromError>)
    requires offset % PARTITION_STEP == 0
    ensures r.Success? && layout != Unknown ==> r.value.layout == layout
    ensures r.Success? && r.value.layout == Unknown ==> r.value.entries == []
    decreases |data| - offset
  {
    if offset >= |data| then
      Success(Listing(layout, []))
    else
      var head :- Visit(data, layout, offset);
      var rest :- Scan(data, head.layout, offset + PARTITION_STEP);
      Success(Listing(rest.layout, head.entries + rest.entries))
  }

  /** Everything the parser finds in an image, in scan order. */
  function Parse(data: seq<byte>): Result<Listing, EepromError> {
    Scan(data, Unknown, 0)
  }
}
