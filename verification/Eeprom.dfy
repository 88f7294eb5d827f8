/** The EEPROM block store over a flash image (src/siemens/eeprom.h, src/siemens/eeprom.cpp). */
module EepromStore {
  import opened Wrappers
  import opened Bytes
  import opened AddressMap
  import opened Directory
  import opened BlockIndex

  /** The bytes a block shows, in order. */
  function Payload(data: seq<byte>, block: Block): (value: seq<byte>)
    requires Fits(block, |data|)
    ensures |value| == block.size
  {
    seq(block.size, k requires 0 <= k < block.size => data[ByteOffset(block, k)])
  }

  /** The image after the first `n` bytes of `value` were stored in the block. */
  function PatchBytes(data: seq<byte>, block: Block, value: seq<byte>, n: nat): (r: seq<byte>)
    requires Fits(block, |data|) && |value| == block.size && n <= block.size
    ensures |r| == |data|
  {
    if n == 0 then data
    else PatchBytes(data, block, value, n - 1)[ByteOffset(block, n - 1) := value[n - 1]]
  }

  function Patch(data: seq<byte>, block: Block, value: seq<byte>): (r: seq<byte>)
    requires Fits(block, |data|) && |value| == block.size
    ensures |r| == |data|
  {
    PatchBytes(data, block, value, block.size)
  }

  lemma {:induction false} PatchBytesAt(data: seq<byte>, block: Block, value: seq<byte>, n: nat, address: nat)
    requires Fits(block, |data|) && |value| == block.size && n <= block.size && address < |data|
    ensures forall k: nat :: k < n && ByteOffset(block, k) == address ==>
      PatchBytes(data, block, value, n)[address] == value[k]
    ensures (forall k: nat :: k < n ==> ByteOffset(block, k) != address) ==>
      PatchBytes(data, block, value, n)[address] == data[address]
  {
    if n > 0 {
      PatchBytesAt(data, block, value, n - 1, address);
      forall k: nat | k < n - 1
        ensures ByteOffset(block, k) < ByteOffset(block, n - 1)
      {
        ByteOffsetIncreases(block, k, n - 1);
      }
      assert ByteOffset(block, n - 1) == ByteOffset(block, n - 1);
    }
  }

  /** A linear block is a plain slice of the image, for reading and for writing. */
  lemma LinearBlockMeaning(data: seq<byte>, block: Block, value: seq<byte>)
    requires block.layout == Linear && block.offset + block.size <= |data| && |value| == block.size
    ensures Fits(block, |data|)
    ensures Payload(data, block) == data[block.offset..block.offset + block.size]
    ensures Patch(data, block, value) == Put(data, block.offset, value)
  {
    forall a: nat | a < |data|
      ensures Patch(data, block, value)[a] == Put(data, block.offset, value)[a]
    {
      PatchBytesAt(data, block, value, block.size, a);
      if block.offset <= a < block.offset + block.size {
        assert ByteOffset(block, a - block.offset) == a;
      }
    }
  }

  /** A write in progress has not reached the byte it is about to store. */
  lemma NotYetWritten(data: seq<byte>, block: Block, value: seq<byte>, n: nat)
    requires Fits(block, |data|) && |value| == block.size && n < block.size
    ensures PatchBytes(data, block, value, n)[ByteOffset(block, n)] == Payload(data, block)[n]
  {
    forall k: nat | k < n
      ensures ByteOffset(block, k) != ByteOffset(block, n)
    {
      ByteOffsetIncreases(block, k, n);
    }
    PatchBytesAt(data, block, value, n, ByteOffset(block, n));
  }

  lemma PatchNext(data: seq<byte>, block: Block, value: seq<byte>, n: nat)
    requires Fits(block, |data|) && |value| == block.size && n < block.size
    ensures ByteOffset(block, n) < |data|
    ensures PatchBytes(data, block, value, n + 1) == PatchBytes(data, block, value, n)[ByteOffset(block, n) := value[n]]
  {
  }

  lemma PrefixNext(a: seq<byte>, b: seq<byte>, n: nat)
    requires n < |a| == |b|
    ensures a[..n + 1] == b[..n + 1] <==> a[..n] == b[..n] && a[n] == b[n]
  {
    assert a[..n + 1] == a[..n] + [a[n]] && b[..n + 1] == b[..n] + [b[n]];
  }

  /** Reading back a written block gives the written value. */
  lemma ReadAfterWrite(data: seq<byte>, block: Block, value: seq<byte>)
    requires Fits(block, |data|) && |value| == block.size
    ensures Payload(Patch(data, block, value), block) == value
  {
    forall k: nat | k < block.size
      ensures Patch(data, block, value)[ByteOffset(block, k)] == value[k]
    {
      PatchBytesAt(data, block, value, block.size, ByteOffset(block, k));
    }
  }

  /** A write changes no byte outside the block's footprint. */
  lemma PatchFrame(data: seq<byte>, block: Block, value: seq<byte>, address: nat)
    requires Fits(block, |data|) && |value| == block.size && address < |data| && address !in Footprint(block)
    ensures Patch(data, block, value)[address] == data[address]
  {
    PatchBytesAt(data, block, value, block.size, address);
  }

  /** A block with a disjoint footprint reads the same before and after a write. */
  lemma WriteElsewhere(data: seq<byte>, block: Block, value: seq<byte>, other: Block)
    requires Fits(block, |data|) && |value| == block.size && Fits(other, |data|)
    requires Footprint(block) !! Footprint(other)
    ensures Payload(Patch(data, block, value), other) == Payload(data, other)
  {
    forall k: nat | k < other.size
      ensures Patch(data, block, value)[ByteOffset(other, k)] == data[ByteOffset(other, k)]
    {
      assert ByteOffset(other, k) in Footprint(other);
      PatchFrame(data, block, value, ByteOffset(other, k));
    }
  }

  /** Writing what is already there leaves the image as it was. */
  lemma {:induction false} PatchSame(data: seq<byte>, block: Block, n: nat)
    requires Fits(block, |data|) && n <= block.size
    ensures PatchBytes(data, block, Payload(data, block), n) == data
  {
    if n > 0 {
      PatchSame(data, block, n - 1);
    }
  }

  class Eeprom {
    const data: array<byte>
    var layout: Layout
    var blocks: Index

    /** Every registered block is backed by a well-placed entry of some partition of this layout. */
    ghost predicate Valid()
      reads this
    {
      forall id :: id in blocks ==> Registered(id, blocks[id], layout, data.Length)
    }

    /** The object before `ParsePartitions`; the source's constructor is this followed by the parse. */
    constructor (fullflash: array<byte>)
      ensures data == fullflash && layout == Unknown && blocks == map[] && Valid()
    {
      data := fullflash;
      layout := Unknown;
      blocks := map[];
    }

    method ReadPartitionType(wanted: Layout, blockOffset: nat) returns (r: Result<PartitionType, EepromError>)
      ensures r == PartitionKind(data[..], wanted, blockOffset)
    {
      var headerSize := if wanted == X65 then X65_HEADER_SIZE else X85_HEADER_SIZE;
      var offset := if wanted == X65 then blockOffset else blockOffset + PARTITION_STEP - headerSize;
      if offset + headerSize > data.Length {
        return Success(NoPartition);
      }
      assert data[offset..offset + 8] == data[..][offset..offset + 8];
      var kind;
      if data[offset..offset + 8] == EELITE_NAME {
        kind := EeLite;
      } else if data[offset..offset + 8] == EEFULL_NAME {
        kind := EeFull;
      } else {
        return Success(NoPartition);
      }
      if data[offset + 10] != 0 || data[offset + 11] != 0 || data[offset + 12] != 0xF0 {
        return Failure(InvalidPartitionHeader(offset));
      }
      for index := 13 to headerSize
        invariant forall a :: offset + 13 <= a < offset + index ==> data[..][a] == 0xFF
      {
        if data[offset + index] != 0xFF {
          assert data[..][offset + index] != 0xFF;
          return Failure(InvalidPartitionHeader(offset));
        }
      }
      return Success(kind);
    }

    method GetEefullMetadataSize(block: Block, entryOffset: nat) returns (r: Result<nat, EepromError>)
      requires ByteOffset(block, 0) < data.Length
      ensures r == EefullMetadataSize(data[..], block, entryOffset)
    {
      var version := data[ByteOffset(block, 0)];
      var metadataSize := if (version & 0x80) != 0 && version != 0xFF then 6 else 1;
      if block.size < metadataSize {
        return Failure(MetadataExceedsBlock(entryOffset));
      }
      return Success(metadataSize);
    }

    /** One X65 entry slot, with the checks in the order of the source. */
    method ReadEntryX65(kind: PartitionType, partitionOffset: nat, index: nat) returns (r: Result<Slot, EepromError>)
      requires partitionOffset + X65_PARTITION_SIZE <= data.Length && 1 <= index <= X65_ENTRY_COUNT
      ensures r == SlotX65(data[..], kind, partitionOffset, index)
    {
      hide NumberAt, StateAt;
      var entryOffset := partitionOffset + X65_PARTITION_SIZE - X65_ENTRY_SIZE * index;
      var state := StateAt(data[..], entryOffset);
      if !IsEntryStateValid(state) {
        return Failure(UnknownEntryState(entryOffset));
      }
      if state == STATE_FREE {
        return Success(FreeSlot);
      }
      if state != STATE_VALID {
        return Success(SkippedSlot);
      }
      var id := NumberAt(data[..], entryOffset + 4);
      var maxId := if kind == EeLite then EEFULL_ID_OFFSET - 1 else 0xFFFFFFFF - EEFULL_ID_OFFSET;
      if id > maxId {
        return Failure(BlockIdOutOfRange(entryOffset));
      }
      var storedSize := NumberAt(data[..], entryOffset + 8);
      if storedSize == 0 {
        return Failure(ZeroBlockSize(entryOffset));
      }
      if kind == EeFull {
        id := id + EEFULL_ID_OFFSET;
      }
      var relativeOffset := NumberAt(data[..], entryOffset + 12);
      if relativeOffset >= X65_PARTITION_SIZE {
        return Failure(DataOffsetOutOfRange(entryOffset));
      }
      if storedSize > X65_PARTITION_SIZE - relativeOffset {
        return Failure(BlockDataOutOfRange(entryOffset));
      }
      var block := Block(partitionOffset + relativeOffset, storedSize, Linear);
      if kind == EeFull {
        var metadataSize := GetEefullMetadataSize(block, entryOffset);
        if metadataSize.Failure? {
          return Failure(metadataSize.error);
        }
        block := block.(offset := block.offset + 1);
        block := block.(size := block.size - metadataSize.value);
      } else {
        block := block.(size := block.size - 1);
      }
      return Success(ValidSlot(Entry(id, block, kind, partitionOffset)));
    }

    method ParsePartitionX65(kind: PartitionType, partitionOffset: nat) returns (outcome: Outcome<EepromError>)
      modifies this`blocks
      ensures var listed := PartitionX65(data[..], kind, partitionOffset);
        if listed.Success? then outcome.Pass? && blocks == AddFirst(old(blocks), listed.value)
        else outcome == Fail(listed.error)
    {
      hide SlotX65;
      if partitionOffset + X65_PARTITION_SIZE > data.Length {
        return Fail(PartitionExceedsFullflash(partitionOffset));
      }
      for index := 1 to X65_ENTRY_COUNT + 1
        invariant Absorb(X65, blocks, ListX65(data[..], kind, partitionOffset, index))
               == Absorb(X65, old(blocks), ListX65(data[..], kind, partitionOffset, 1))
      {
        var slot := ReadEntryX65(kind, partitionOffset, index);
        if slot.Failure? {
          return Fail(slot.error);
        }
        if slot.value.FreeSlot? {
          return Pass;
        }
        if slot.value.SkippedSlot? {
          continue;
        }
        var id, block := slot.value.entry.id, slot.value.entry.block;
        if id !in blocks {
          blocks := blocks[id := block];
        }
      }
      return Fail(NoFreeEntry(partitionOffset));
    }

    /** Where the data of an X85 entry is: inline below the entry, or anywhere in the partition. */
    method ReadStoredX85(kind: PartitionType, partitionOffset: nat, entryOffset: nat, storedSize: nat)
      returns (r: Result<Block, EepromError>)
      requires entryOffset + 16 <= data.Length
      ensures r == StoredBlockX85(kind, partitionOffset, storedSize, NumberAt(data[..], entryOffset + 12), entryOffset)
    {
      hide NumberAt, AlignDataOffset;
      var inlineMaxSize := if kind == EeFull then X85_EEFULL_MAX_LINEAR_SIZE else X85_EELITE_MAX_LINEAR_SIZE;
      if storedSize <= inlineMaxSize {
        var reservedSize := X85_DATA_CHUNK_SIZE + storedSize + storedSize / X85_DATA_CHUNK_SIZE * X85_DATA_CHUNK_SIZE;
        if entryOffset < partitionOffset + reservedSize {
          return Failure(InlineDataOutOfRange(entryOffset));
        }
        var storedOffset := entryOffset - reservedSize;
        return Success(Block(AlignDataOffset(storedOffset, X85_DATA_CHUNK_SIZE), storedSize, Strided));
      } else {
        var relativeOffset := NumberAt(data[..], entryOffset + 12);
        if relativeOffset >= X85_PARTITION_SIZE {
          return Failure(DataOffsetOutOfRange(entryOffset));
        }
        if storedSize > X85_PARTITION_SIZE - relativeOffset {
          return Failure(BlockDataOutOfRange(entryOffset));
        }
        return Success(Block(partitionOffset + relativeOffset, storedSize, Linear));
      }
    }

    /** One X85 entry slot, with the checks in the order of the source. */
    method ReadEntryX85(kind: PartitionType, partitionOffset: nat, index: nat) returns (r: Result<Slot, EepromError>)
      requires partitionOffset + X85_PARTITION_SIZE <= data.Length && 1 <= index <= X85_ENTRY_COUNT
      requires partitionOffset % 32 == 0
      ensures r == SlotX85(data[..], kind, partitionOffset, index)
    {
      hide NumberAt, StateAt, ShortAt;
      var entryOffset := partitionOffset + X85_PARTITION_SIZE - X85_HEADER_SIZE - X85_ENTRY_SIZE * index;
      var state := StateAt(data[..], entryOffset);
      if !IsEntryStateValid(state) {
        return Success(SkippedSlot);
      }
      if state != STATE_VALID {
        return Success(SkippedSlot);
      }
      var storedSize;
      if kind == EeLite {
        storedSize := ShortAt(data[..], entryOffset + 8);
      } else {
        storedSize := NumberAt(data[..], entryOffset + 8);
      }
      if storedSize == 0 {
        return Failure(ZeroBlockSize(entryOffset));
      }
      var stored := ReadStoredX85(kind, partitionOffset, entryOffset, storedSize);
      if stored.Failure? {
        return Failure(stored.error);
      }
      var block := stored.value;
      var id := if kind == EeLite then ShortAt(data[..], entryOffset + 4) else NumberAt(data[..], entryOffset + 4);
      var maxId := if kind == EeLite then EEFULL_ID_OFFSET - 1 else 0xFFFFFFFF - EEFULL_ID_OFFSET;
      if id > maxId {
        return Failure(BlockIdOutOfRange(entryOffset));
      }
      if kind == EeFull {
        id := id + EEFULL_ID_OFFSET;
      }
      if kind == EeFull {
        StoredBlockX85Inside(kind, partitionOffset, storedSize, NumberAt(data[..], entryOffset + 12), index, 0);
        var metadataSize := GetEefullMetadataSize(block, entryOffset);
        if metadataSize.Failure? {
          return Failure(metadataSize.error);
        }
        block := block.(offset := ByteOffset(block, 1), size := block.size - metadataSize.value);
      }
      return Success(ValidSlot(Entry(id, block, kind, partitionOffset)));
    }

    method ParsePartitionX85(kind: PartitionType, blockOffset: nat) returns (outcome: Outcome<EepromError>)
      requires blockOffset % PARTITION_STEP == 0 && blockOffset + PARTITION_STEP <= data.Length
      modifies this`blocks
      ensures var listed := PartitionX85(data[..], kind, blockOffset);
        if listed.Success? then outcome.Pass? && blocks == AddLast(old(blocks), listed.value)
        else outcome == Fail(listed.error)
    {
      hide SlotX85;
      if blockOffset < X85_PARTITION_SIZE - PARTITION_STEP {
        return Fail(PartitionStartUnderflow(blockOffset));
      }
      StepAligned(blockOffset);
      var partitionOffset := blockOffset - (X85_PARTITION_SIZE - PARTITION_STEP);
      for index := 1 to X85_ENTRY_COUNT + 1
        invariant Absorb(X85, blocks, ListX85(data[..], kind, partitionOffset, index))
               == Absorb(X85, old(blocks), ListX85(data[..], kind, partitionOffset, 1))
      {
        var slot := ReadEntryX85(kind, partitionOffset, index);
        if slot.Failure? {
          return Fail(slot.error);
        }
        if slot.value.ValidSlot? {
          blocks := blocks[slot.value.entry.id := slot.value.entry.block];
        }
      }
      return Pass;
    }

    /** The body of the scan loop: one 64 KiB step, first as X65 and then as X85. */
    method ParseStep(offset: nat) returns (outcome: Outcome<EepromError>)
      requires offset % PARTITION_STEP == 0
      modifies this
      ensures match Visit(data[..], old(layout), offset)
        case Success(head) =>
          outcome.Pass? && layout == head.layout && blocks == AddEntries(head.layout, old(blocks), head.entries)
        case Failure(error) => outcome == Fail(error)
    {
      hide PartitionKind, PartitionX65, PartitionX85;
      if layout == Unknown || layout == X65 {
        var kind := ReadPartitionType(X65, offset);
        if kind.Failure? {
          return Fail(kind.error);
        }
        if kind.value != NoPartition {
          var parsed := ParsePartitionX65(kind.value, offset);
          if parsed.Fail? {
            return Fail(parsed.error);
          }
          layout := X65;
        }
      }
      if layout == Unknown || layout == X85 {
        var kind := ReadPartitionType(X85, offset);
        if kind.Failure? {
          return Fail(kind.error);
        }
        if kind.value != NoPartition {
          var parsed := ParsePartitionX85(kind.value, offset);
          if parsed.Fail? {
            return Fail(parsed.error);
          }
          layout := X85;
        }
      }
      return Pass;
    }

    /** The scan: on success the layout and the index are those of the declarative listing, else its error is thrown. */
    method ParsePartitions() returns (outcome: Outcome<EepromError>)
      requires layout == Unknown && blocks == map[]
      modifies this
      ensures match Parse(data[..])
        case Success(listing) => outcome.Pass? && layout == listing.layout && blocks == IndexOf(listing) && Valid()
        case Failure(error) => outcome == Fail(error)
    {
      hide Visit;
      ghost var image := data[..];
      var offset := 0;
      while offset < data.Length
        invariant offset % PARTITION_STEP == 0
        invariant AbsorbScan(layout, blocks, Scan(image, layout, offset)) == AbsorbScan(Unknown, map[], Parse(image))
        decreases data.Length - offset
      {
        AbsorbVisit(image, layout, blocks, offset);
        var step := ParseStep(offset);
        if step.Fail? {
          return Fail(step.error);
        }
        offset := offset + PARTITION_STEP;
      }
      ghost var parsed := Parse(image);
      if parsed.Success? {
        forall id | id in blocks
          ensures Registered(id, blocks[id], layout, data.Length)
        {
          IndexInvariant(image, id);
        }
      }
      return Pass;
    }

    method HasBlock(id: nat) returns (present: bool)
      ensures present == (id in blocks)
    {
      return id in blocks;
    }

    method GetBlockSize(id: nat) returns (r: Result<nat, EepromError>)
      ensures r == if id in blocks then Success(blocks[id].size) else Failure(BlockNotFound(id))
    {
      if id !in blocks {
        return Failure(BlockNotFound(id));
      }
      return Success(blocks[id].size);
    }

    method ReadBlock(id: nat) returns (r: Result<seq<byte>, EepromError>)
      requires Valid()
      ensures if id in blocks then Fits(blocks[id], data.Length) && r == Success(Payload(data[..], blocks[id]))
              else r == Failure(BlockNotFound(id))
    {
      if id !in blocks {
        return Failure(BlockNotFound(id));
      }
      var block := blocks[id];
      RegisteredFits(id, block, layout, data.Length);
      var value := [];
      for index := 0 to block.size
        invariant value == Payload(data[..], block)[..index]
      {
        value := value + [data[ByteOffset(block, index)]];
      }
      assert value == Payload(data[..], block);
      return Success(value);
    }

    /** Stores a value of exactly the block's size; tells whether any byte differed from the previous read. */
    method WriteBlock(id: nat, value: seq<byte>) returns (r: Result<bool, EepromError>)
      requires Valid()
      modifies data
      ensures Valid()
      ensures id !in blocks ==> r == Failure(BlockNotFound(id)) && data[..] == old(data[..])
      ensures id in blocks ==> Fits(blocks[id], data.Length)
      ensures id in blocks && blocks[id].size != |value| ==>
        r == Failure(SizeMismatch(id, |value|, blocks[id].size)) && data[..] == old(data[..])
      ensures id in blocks && blocks[id].size == |value| ==>
        && data[..] == Patch(old(data[..]), blocks[id], value)
        && r == Success(Payload(old(data[..]), blocks[id]) != value)
    {
      if id !in blocks {
        return Failure(BlockNotFound(id));
      }
      var block := blocks[id];
      RegisteredFits(id, block, layout, data.Length);
      if block.size != |value| {
        return Failure(SizeMismatch(id, |value|, block.size));
      }
      ghost var image := data[..];
      var changed := false;
      for index := 0 to |value|
        invariant data[..] == PatchBytes(image, block, value, index)
        invariant changed == (Payload(image, block)[..index] != value[..index])
      {
        hide *;
        ghost var current := data[..];
        NotYetWritten(image, block, value, index);
        PatchNext(image, block, value, index);
        PrefixNext(Payload(image, block), value, index);
        var address := ByteOffset(block, index);
        assert address < data.Length && current[address] == data[address];
        if data[address] != value[index] {
          data[address] := value[index];
          changed := true;
          assert data[..] == current[address := value[index]];
        } else {
          assert current == current[address := value[index]];
        }
      }
      assert value[..|value|] == value && Payload(image, block)[..|value|] == Payload(image, block);
      return Success(changed);
    }
  }

  /** The constructor of the source: it parses, and throws what the parse throws. */
  method OpenEeprom(fullflash: array<byte>) returns (r: Result<Eeprom, EepromError>)
    ensures match Parse(fullflash[..])
      case Success(listing) =>
        r.Success? && fresh(r.value) && r.value.Valid() && r.value.data == fullflash
        && r.value.layout == listing.layout && r.value.blocks == IndexOf(listing)
      case Failure(error) => r == Failure(error)
  {
    hide Parse, IndexOf;
    var eeprom := new Eeprom(fullflash);
    var outcome := eeprom.ParsePartitions();
    if outcome.Fail? {
      return Failure(outcome.error);
    }
    return Success(eeprom);
  }

  ghost predicate Registered(id: nat, block: Block, layout: Layout, length: nat) {
    exists kind, home :: WellPlaced(Entry(id, block, kind, home), layout, length)
  }

  lemma RegisteredFits(id: nat, block: Block, layout: Layout, length: nat)
    requires Registered(id, block, layout, length)
    ensures Fits(block, length)
  {
    var kind, home :| WellPlaced(Entry(id, block, kind, home), layout, length);
  }

  // ----- Loop bookkeeping of the parser -----

  /** The index once the entries still to come have been registered. */
  function Absorb(layout: Layout, index: Index, rest: Result<seq<Entry>, EepromError>): Result<Index, EepromError> {
    if rest.Success? then Success(AddEntries(layout, index, rest.value)) else Failure(rest.error)
  }

  function AbsorbScan(layout: Layout, index: Index, rest: Result<Listing, EepromError>)
      : Result<(Layout, Index), EepromError>
  {
    if rest.Success? then Success((rest.value.layout, AddEntries(rest.value.layout, index, rest.value.entries)))
    else Failure(rest.error)
  }

  lemma AbsorbVisit(data: seq<byte>, layout: Layout, index: Index, offset: nat)
    requires offset % PARTITION_STEP == 0 && offset < |data|
    ensures match Visit(data, layout, offset)
      case Success(head) =>
        AbsorbScan(layout, index, Scan(data, layout, offset))
        == AbsorbScan(head.layout, AddEntries(head.layout, index, head.entries),
          Scan(data, head.layout, offset + PARTITION_STEP))
      case Failure(error) => Scan(data, layout, offset) == Failure(error)
  {
    var v := Visit(data, layout, offset);
    if v.Success? {
      var rest := Scan(data, v.value.layout, offset + PARTITION_STEP);
      if rest.Success? {
        AddEntriesInTwo(rest.value.layout, index, v.value.entries, rest.value.entries);
      }
    }
  }
}
