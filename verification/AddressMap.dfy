/** Where the bytes of an EEPROM block live in the flash image (src/siemens/eeprom.cpp). */
module AddressMap {

  const X85_DATA_CHUNK_SIZE: nat := 0x10

  datatype BlockLayout = Linear | Strided

  datatype Block = Block(offset: nat, size: nat, layout: BlockLayout)

  /** Address arithmetic of the source, with `offset & chunkSize` for a power of two written as a division. */
  function AlignDataOffset(offset: nat, chunkSize: nat): nat
    requires chunkSize > 0
  {
    if (offset / chunkSize) % 2 == 0 then offset
    else offset + chunkSize * 2 - offset % (chunkSize * 2)
  }

  function ByteOffset(block: Block, index: nat): nat {
    if block.layout == Linear then
      block.offset + index
    else
      var chunkOffset := block.offset % X85_DATA_CHUNK_SIZE;
      block.offset + index + (chunkOffset + index) / X85_DATA_CHUNK_SIZE * X85_DATA_CHUNK_SIZE
  }

  /** Address bit 4, the bit that inline data never sets. */
  predicate Bit4(address: nat) {
    (address / 16) % 2 == 1
  }

  ghost function Footprint(block: Block): set<nat> {
    set index: nat | index < block.size :: ByteOffset(block, index)
  }

  lemma ByteOffsetIncreases(block: Block, i: nat, j: nat)
    requires i < j
    ensures ByteOffset(block, i) < ByteOffset(block, j)
  {
  }

  /** Slot and position of a strided byte: with `offset = 32m + s`, byte `16k + j - s` is byte `j` of slot `m + k`. */
  lemma StridedSlot(block: Block, index: nat, m: nat, s: nat, k: nat, j: nat)
    requires block.layout == Strided && block.offset == 32 * m + s && s < 16
    requires s + index == 16 * k + j && j < 16
    ensures ByteOffset(block, index) == 32 * (m + k) + j && !Bit4(ByteOffset(block, index))
  {
    assert block.offset % 16 == s;
    assert (s + index) / 16 == k;
    ChunkBit4(m + k, j);
  }

  lemma ChunkBit4(slot: nat, j: nat)
    requires j < 16
    ensures !Bit4(32 * slot + j)
  {
    assert (32 * slot + j) / 16 == 2 * slot;
  }

  /** An address with bit 4 clear is one of the first 16 bytes of its 32-byte slot. */
  lemma Bit4Clear(address: nat)
    ensures !Bit4(address) <==> address % 32 < 16
  {
    var slot, j := address / 32, address % 32;
    assert address == 32 * slot + j;
    if j < 16 {
      ChunkBit4(slot, j);
    } else {
      assert address / 16 == 2 * slot + 1;
    }
  }

  /** From a start with bit 4 clear the strided map visits only, and all, later addresses with bit 4 clear. */
  lemma StridedEnumerates(block: Block, address: nat)
    requires block.layout == Strided && !Bit4(block.offset)
    ensures address >= block.offset && !Bit4(address) <==> exists index: nat :: ByteOffset(block, index) == address
  {
    Bit4Clear(block.offset);
    Bit4Clear(address);
    var m, s := block.offset / 32, block.offset % 32;
    if address >= block.offset && !Bit4(address) {
      var k, j := address / 32 - m, address % 32;
      var index := 16 * k + j - s;
      assert index >= 0;
      StridedSlot(block, index, m, s, k, j);
      assert ByteOffset(block, index) == address;
    }
    if index: nat :| ByteOffset(block, index) == address {
      StridedSlot(block, index, m, s, (s + index) / 16, (s + index) % 16);
    }
  }

  /** Moving the start to the second byte shifts the whole view by one: what metadata stripping relies on. */
  lemma RebaseShifts(block: Block, index: nat)
    ensures ByteOffset(block.(offset := ByteOffset(block, 1)), index) == ByteOffset(block, index + 1)
  {
    var chunk, start := block.offset % 16, block.offset / 16;
    if chunk < 15 {
      assert (block.offset + 1) % 16 == chunk + 1;
    } else {
      assert (block.offset + 17) % 16 == 0;
    }
  }

  /** The inline block of an X85 entry at `entryOffset`: reserve, then align (eeprom.cpp, inline branch). */
  function ReservedSize(storedSize: nat): nat {
    X85_DATA_CHUNK_SIZE + storedSize + storedSize / X85_DATA_CHUNK_SIZE * X85_DATA_CHUNK_SIZE
  }

  function InlineBlock(entryOffset: nat, storedSize: nat): Block
    requires ReservedSize(storedSize) <= entryOffset
  {
    Block(AlignDataOffset(entryOffset - ReservedSize(storedSize), X85_DATA_CHUNK_SIZE), storedSize, Strided)
  }

  /** Inline data starts in the slot that leaves exactly the room it needs below its entry. */
  lemma InlineStart(entrySlot: nat, storedSize: nat)
    requires storedSize >= 1 && ReservedSize(storedSize) <= 32 * entrySlot
    ensures var q, r := storedSize / 16, storedSize % 16;
      var b := InlineBlock(32 * entrySlot, storedSize);
      if r == 0 then q <= entrySlot && b.offset == 32 * (entrySlot - q)
      else q + 1 <= entrySlot && b.offset == 32 * (entrySlot - q - 1) + 16 - r
  {
    var q, r := storedSize / 16, storedSize % 16;
    var raw := 32 * entrySlot - ReservedSize(storedSize);
    assert raw == 32 * (entrySlot - q) - 16 - r;
    if r == 0 {
      assert raw / 16 == 2 * (entrySlot - q) - 1;
      assert raw % 32 == 16;
    } else {
      assert raw / 16 == 2 * (entrySlot - q - 1);
    }
  }

  /** Placement of inline data: right-aligned 17 bytes below its entry, in the fewest 32-byte slots, bit 4 clear. */
  lemma InlinePlacement(entrySlot: nat, storedSize: nat)
    requires storedSize >= 1 && ReservedSize(storedSize) <= 32 * entrySlot
    ensures var b := InlineBlock(32 * entrySlot, storedSize);
      && 32 * entrySlot - ReservedSize(storedSize) <= b.offset
      && !Bit4(b.offset)
      && ByteOffset(b, storedSize - 1) == 32 * entrySlot - 17
      && entrySlot - b.offset / 32 == (storedSize + 15) / 16
  {
    InlineStart(entrySlot, storedSize);
    var q, r := storedSize / 16, storedSize % 16;
    var b := InlineBlock(32 * entrySlot, storedSize);
    Bit4Clear(b.offset);
    if r == 0 {
      StridedSlot(b, storedSize - 1, entrySlot - q, 0, q - 1, 15);
    } else {
      StridedSlot(b, storedSize - 1, entrySlot - q - 1, 16 - r, q, 15);
    }
  }

  /** Every byte of an inline block lies between its start and 17 bytes below the entry, with bit 4 clear. */
  lemma InlineBytes(entrySlot: nat, storedSize: nat, index: nat)
    requires storedSize >= 1 && ReservedSize(storedSize) <= 32 * entrySlot && index < storedSize
    ensures var b := InlineBlock(32 * entrySlot, storedSize);
      && b.offset <= ByteOffset(b, index) <= 32 * entrySlot - 17
      && !Bit4(ByteOffset(b, index))
  {
    InlinePlacement(entrySlot, storedSize);
    var b := InlineBlock(32 * entrySlot, storedSize);
    if index < storedSize - 1 {
      ByteOffsetIncreases(b, index, storedSize - 1);
    }
    StridedEnumerates(b, ByteOffset(b, index));
  }
}
