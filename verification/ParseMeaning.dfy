/** What a successful parse means, without the scan: the declarative reading of src/siemens/eeprom.cpp. */
module ParseMeaning {
  import opened Wrappers
  import opened Bytes
  import opened AddressMap
  import opened Directory
  import opened BlockIndex

  /** The entries of the VALID slots, in table order. */
  function ValidOf(slots: seq<Slot>): seq<Entry> {
    if slots == [] then []
    else (if slots[0].ValidSlot? then [slots[0].entry] else []) + ValidOf(slots[1..])
  }

  // ----- One slot -----

  /** Everything one X65 entry can mean, guard after guard. */
  lemma SlotX65Meaning(data: seq<byte>, kind: PartitionType, home: nat, index: nat)
    requires home + 0x20000 <= |data| && 1 <= index <= 8191 && kind != NoPartition
    ensures var at := home + 0x20000 - 16 * index;
      var slot := SlotX65(data, kind, home, index);
      var w := ReadU32(data, at) & 0xAAAAAAAA;
      var id, size, start := NumberAt(data, at + 4), NumberAt(data, at + 8), NumberAt(data, at + 12);
      && (slot == Success(FreeSlot) <==> w == 0xAAAAAAAA)
      && (slot == Success(SkippedSlot) <==> w == 0xAAAAAA00 || w == 0xAAAAAAA8)
      && (slot == Failure(UnknownEntryState(at)) <==> w !in {0xAAAAAAAA, 0xAAAAAAA8, 0xAAAAAA80, 0xAAAAAA00})
      && (w == 0xAAAAAA80 ==>
            if id > (if kind == EeLite then 4999 else 4294962295) then slot == Failure(BlockIdOutOfRange(at))
            else if size == 0 then slot == Failure(ZeroBlockSize(at))
            else if start >= 0x20000 then slot == Failure(DataOffsetOutOfRange(at))
            else if start + size > 0x20000 then slot == Failure(BlockDataOutOfRange(at))
            else if kind == EeLite then
              slot == Success(ValidSlot(Entry(id, Block(home + start, size - 1, Linear), EeLite, home)))
            else
              var hidden := HiddenBytes(data[home + start]);
              if size < hidden then slot == Failure(MetadataExceedsBlock(at))
              else
                slot == Success(ValidSlot(
                  Entry(id + 5000, Block(home + start + 1, size - hidden, Linear), EeFull, home))))
  {
    hide NumberAt, MetadataBytes, HiddenBytes;
    if kind == EeFull {
      var start := NumberAt(data, home + 0x20000 - 16 * index + 12);
      if start < 0x20000 {
        VersionHides(data[home + start]);
      }
    }
  }

  /** Versions 0x80 to 0xFE announce six bytes of metadata, all others one. */
  function HiddenBytes(version: byte): nat {
    if 0x80 <= version < 0xFF then 6 else 1
  }

  lemma VersionHides(version: byte)
    ensures MetadataBytes(version) == HiddenBytes(version)
  {
  }

  /**
   * Everything one X85 entry can mean, guard after guard: small data lies inline in the slots below its entry, other
   * data anywhere in its partition.
   */
  lemma SlotX85Meaning(data: seq<byte>, kind: PartitionType, home: nat, index: nat)
    requires home + 0x40000 <= |data| && home % 32 == 0 && 1 <= index <= 8191 && kind != NoPartition
    ensures var at := home + 0x40000 - 32 - 32 * index;
      var slot := SlotX85(data, kind, home, index);
      var id := if kind == EeLite then ShortAt(data, at + 4) else NumberAt(data, at + 4);
      var size := if kind == EeLite then ShortAt(data, at + 8) else NumberAt(data, at + 8);
      var start := NumberAt(data, at + 12);
      var inline := size <= if kind == EeLite then 0x10 else 0x200;
      if ReadU32(data, at) & 0xAAAAAAAA != 0xAAAAAA80 then slot == Success(SkippedSlot)
      else if size == 0 then slot == Failure(ZeroBlockSize(at))
      else if inline && at - home < ReservedSize(size) then slot == Failure(InlineDataOutOfRange(at))
      else if !inline && start >= 0x40000 then slot == Failure(DataOffsetOutOfRange(at))
      else if !inline && start + size > 0x40000 then slot == Failure(BlockDataOutOfRange(at))
      else if id > (if kind == EeLite then 4999 else 4294962295) then slot == Failure(BlockIdOutOfRange(at))
      else
        var stored := if inline then InlineBlock(at, size) else Block(home + start, size, Linear);
        if kind == EeLite then slot == Success(ValidSlot(Entry(id, stored, EeLite, home)))
        else
          && ByteOffset(stored, 0) < |data|
          && var hidden := HiddenBytes(data[ByteOffset(stored, 0)]);
            if size < hidden then slot == Failure(MetadataExceedsBlock(at))
            else
              && slot.Success? && slot.value.ValidSlot?
              && var e := slot.value.entry;
                && e.id == id + 5000 && e.kind == EeFull && e.home == home && e.block.size == size - hidden
                && forall k: nat :: ByteOffset(e.block, k) == ByteOffset(stored, k + 1)
  {
    hide NumberAt, ShortAt, MetadataBytes, HiddenBytes, ByteOffset, InlineBlock;
    var at := EntryOffsetX85(home, index);
    var size := if kind == EeLite then ShortAt(data, at + 8) else NumberAt(data, at + 8);
    var stored := StoredBlockX85(kind, home, size, NumberAt(data, at + 12), at);
    if StateAt(data, at) == 0xAAAAAA80 && size > 0 && stored.Success? {
      StoredBlockX85Inside(kind, home, size, NumberAt(data, at + 12), index, 0);
      VersionHides(data[ByteOffset(stored.value, 0)]);
      forall k: nat, n: nat
        ensures ByteOffset(Block(ByteOffset(stored.value, 1), n, stored.value.layout), k)
             == ByteOffset(stored.value, k + 1)
      {
        PayloadShifts(stored.value, n, k);
      }
    }
  }

  // ----- One X65 table -----

  /** Every slot above slot `end` decodes, and none of them is FREE. */
  ghost predicate InUse(data: seq<byte>, kind: PartitionType, home: nat, end: nat)
    requires home + 0x20000 <= |data| && end <= 8192
  {
    forall k :: 1 <= k < end ==>
      SlotX65(data, kind, home, k).Success? && !SlotX65(data, kind, home, k).value.FreeSlot?
  }

  /** Slot `end` is the first that is FREE or does not decode. */
  ghost predicate EndsX65(data: seq<byte>, kind: PartitionType, home: nat, end: nat)
    requires home + 0x20000 <= |data|
  {
    && 1 <= end <= 8191 && InUse(data, kind, home, end)
    && (SlotX65(data, kind, home, end).Success? ==> SlotX65(data, kind, home, end).value.FreeSlot?)
  }

  function SlotsX65(data: seq<byte>, kind: PartitionType, home: nat, from: nat, to: nat): (slots: seq<Slot>)
    requires home + 0x20000 <= |data| && 1 <= from <= to <= 8192
    requires forall k :: from <= k < to ==> SlotX65(data, kind, home, k).Success?
    ensures |slots| == to - from
  {
    seq(to - from, i requires 0 <= i < to - from => SlotX65(data, kind, home, from + i).value)
  }

  /** What the table lists from slot `from` on when it ends at slot `end`. */
  ghost function TableX65(data: seq<byte>, kind: PartitionType, home: nat, from: nat, end: nat)
      : Result<seq<Entry>, EepromError>
    requires home + 0x20000 <= |data| && 1 <= from <= end && EndsX65(data, kind, home, end)
  {
    if SlotX65(data, kind, home, end).Failure? then Failure(SlotX65(data, kind, home, end).error)
    else Success(ValidOf(SlotsX65(data, kind, home, from, end)))
  }

  lemma {:induction false} ListX65Finds(data: seq<byte>, kind: PartitionType, home: nat, index: nat, end: nat)
    requires home + 0x20000 <= |data| && 1 <= index <= end && EndsX65(data, kind, home, end)
    ensures ListX65(data, kind, home, index) == TableX65(data, kind, home, index, end)
    decreases end - index
  {
    hide SlotX65;
    if index < end {
      ListX65Finds(data, kind, home, index + 1, end);
      var slots := SlotsX65(data, kind, home, index, end);
      assert slots[0] == SlotX65(data, kind, home, index).value;
      assert slots[1..] == SlotsX65(data, kind, home, index + 1, end);
      assert [] + ValidOf(slots[1..]) == ValidOf(slots[1..]);
    } else {
      assert SlotsX65(data, kind, home, index, end) == [];
    }
  }

  lemma {:induction false} ListX65Fills(data: seq<byte>, kind: PartitionType, home: nat, index: nat)
    requires home + 0x20000 <= |data| && 1 <= index <= 8192 && InUse(data, kind, home, 8192)
    ensures ListX65(data, kind, home, index) == Failure(NoFreeEntry(home))
    decreases 8192 - index
  {
    hide SlotX65;
    if index <= 8191 {
      ListX65Fills(data, kind, home, index + 1);
    }
  }

  lemma {:induction false} ListX65Stops(data: seq<byte>, kind: PartitionType, home: nat, index: nat)
    requires home + 0x20000 <= |data| && 1 <= index <= 8192 && InUse(data, kind, home, index)
    ensures InUse(data, kind, home, 8192) || exists end :: EndsX65(data, kind, home, end)
    decreases 8192 - index
  {
    hide SlotX65;
    if index <= 8191 {
      if SlotX65(data, kind, home, index).Success? && !SlotX65(data, kind, home, index).value.FreeSlot? {
        ListX65Stops(data, kind, home, index + 1);
      } else {
        assert EndsX65(data, kind, home, index);
      }
    }
  }

  /**
   * An X65 table of 8191 slots ends at the first that is FREE, and lists the VALID ones above it, or at the first that
   * does not decode, with its error. Without either it is an error, and so is an image too short for the partition.
   */
  lemma TableX65Meaning(data: seq<byte>, kind: PartitionType, home: nat)
    ensures var table := PartitionX65(data, kind, home);
      if home + 0x20000 > |data| then table == Failure(PartitionExceedsFullflash(home))
      else
        && (forall end :: EndsX65(data, kind, home, end) ==> table == TableX65(data, kind, home, 1, end))
        && (InUse(data, kind, home, 8192) ==> table == Failure(NoFreeEntry(home)))
        && (InUse(data, kind, home, 8192) || exists end :: EndsX65(data, kind, home, end))
  {
    hide ListX65, SlotX65;
    if home + 0x20000 <= |data| {
      ListX65Stops(data, kind, home, 1);
      if InUse(data, kind, home, 8192) {
        ListX65Fills(data, kind, home, 1);
      }
      forall end | EndsX65(data, kind, home, end)
        ensures PartitionX65(data, kind, home) == TableX65(data, kind, home, 1, end)
      {
        ListX65Finds(data, kind, home, 1, end);
      }
    }
  }

  // ----- One X85 table -----

  ghost predicate AllDecode(data: seq<byte>, kind: PartitionType, home: nat, from: nat, to: nat)
    requires home + 0x40000 <= |data| && home % 32 == 0 && 1 <= from && to <= 8192
  {
    forall k :: from <= k < to ==> SlotX85(data, kind, home, k).Success?
  }

  function SlotsX85(data: seq<byte>, kind: PartitionType, home: nat, from: nat): (slots: seq<Slot>)
    requires home + 0x40000 <= |data| && home % 32 == 0 && 1 <= from <= 8192 && AllDecode(data, kind, home, from, 8192)
    ensures |slots| == 8192 - from
  {
    seq(8192 - from, i requires 0 <= i < 8192 - from => SlotX85(data, kind, home, from + i).value)
  }

  /** Slot `bad` is the first from `from` on that does not decode. */
  ghost predicate BreaksX85(data: seq<byte>, kind: PartitionType, home: nat, from: nat, bad: nat)
    requires home + 0x40000 <= |data| && home % 32 == 0 && 1 <= from
  {
    && from <= bad <= 8191 && AllDecode(data, kind, home, from, bad) && SlotX85(data, kind, home, bad).Failure?
  }

  lemma {:induction false} ListX85Finds(data: seq<byte>, kind: PartitionType, home: nat, from: nat)
    requires home + 0x40000 <= |data| && home % 32 == 0 && 1 <= from <= 8192
    requires AllDecode(data, kind, home, from, 8192)
    ensures ListX85(data, kind, home, from) == Success(ValidOf(SlotsX85(data, kind, home, from)))
    decreases 8192 - from
  {
    hide SlotX85;
    if from <= 8191 {
      ListX85Finds(data, kind, home, from + 1);
      var slots := SlotsX85(data, kind, home, from);
      assert slots[0] == SlotX85(data, kind, home, from).value;
      assert slots[1..] == SlotsX85(data, kind, home, from + 1);
      assert [] + ValidOf(slots[1..]) == ValidOf(slots[1..]);
    } else {
      assert SlotsX85(data, kind, home, from) == [];
    }
  }

  lemma {:induction false} ListX85Breaks(data: seq<byte>, kind: PartitionType, home: nat, from: nat, bad: nat)
    requires home + 0x40000 <= |data| && home % 32 == 0 && 1 <= from && BreaksX85(data, kind, home, from, bad)
    ensures ListX85(data, kind, home, from) == Failure(SlotX85(data, kind, home, bad).error)
    decreases bad - from
  {
    hide SlotX85;
    if from < bad {
      ListX85Breaks(data, kind, home, from + 1, bad);
    }
  }

  lemma {:induction false} ListX85Stops(data: seq<byte>, kind: PartitionType, home: nat, at: nat)
    requires home + 0x40000 <= |data| && home % 32 == 0 && 1 <= at <= 8192 && AllDecode(data, kind, home, 1, at)
    ensures AllDecode(data, kind, home, 1, 8192) || exists bad :: BreaksX85(data, kind, home, 1, bad)
    decreases 8192 - at
  {
    hide SlotX85;
    if at <= 8191 {
      if SlotX85(data, kind, home, at).Success? {
        ListX85Stops(data, kind, home, at + 1);
      } else {
        assert BreaksX85(data, kind, home, 1, at);
      }
    }
  }

  /**
   * An X85 table lies in the 0x40000 bytes that end with its header's 64 KiB block. All its 8191 slots have to decode,
   * and it lists the VALID ones, past FREE slots too; otherwise the first that does not decode is its error.
   */
  lemma TableX85Meaning(data: seq<byte>, kind: PartitionType, offset: nat)
    requires offset % 0x10000 == 0 && offset + 0x10000 <= |data|
    ensures var table := PartitionX85(data, kind, offset);
      if offset < 0x30000 then table == Failure(PartitionStartUnderflow(offset))
      else
        var home := offset - 0x30000;
        && home % 32 == 0
        && (AllDecode(data, kind, home, 1, 8192) ==>
              table == Success(ValidOf(SlotsX85(data, kind, home, 1))))
        && (forall bad :: BreaksX85(data, kind, home, 1, bad) ==>
              table == Failure(SlotX85(data, kind, home, bad).error))
        && (AllDecode(data, kind, home, 1, 8192) || exists bad :: BreaksX85(data, kind, home, 1, bad))
  {
    hide ListX85, SlotX85;
    if offset >= 0x30000 {
      StepAligned(offset);
      var home := offset - 0x30000;
      ListX85Stops(data, kind, home, 1);
      if AllDecode(data, kind, home, 1, 8192) {
        ListX85Finds(data, kind, home, 1);
      }
      forall bad | BreaksX85(data, kind, home, 1, bad)
        ensures PartitionX85(data, kind, offset) == Failure(SlotX85(data, kind, home, bad).error)
      {
        ListX85Breaks(data, kind, home, 1, bad);
      }
    }
  }

  // ----- Partition headers -----

  /** The names "EELITE" and "EEFULL", zero-padded to eight bytes. */
  ghost predicate NamedLite(data: seq<byte>, at: nat)
    requires at + 8 <= |data|
  {
    data[at..at + 8] == [0x45, 0x45, 0x4C, 0x49, 0x54, 0x45, 0, 0]
  }

  ghost predicate NamedFull(data: seq<byte>, at: nat)
    requires at + 8 <= |data|
  {
    data[at..at + 8] == [0x45, 0x45, 0x46, 0x55, 0x4C, 0x4C, 0, 0]
  }

  /** Behind the name two bytes are free, three are 0, 0 and 0xF0, and the rest of the header is erased. */
  ghost predicate Intact(data: seq<byte>, at: nat, end: nat)
    requires at + 16 <= end <= |data|
  {
    data[at + 10] == 0 && data[at + 11] == 0 && data[at + 12] == 0xF0 && forall k :: at + 13 <= k < end ==>
      data[k] == 0xFF
  }

  /** A header is 16 bytes at the start of a 64 KiB block on X65 and the last 32 bytes of one on X85. */
  lemma HeaderMeaning(data: seq<byte>, layout: Layout, offset: nat)
    requires layout != Unknown
    ensures var header := PartitionKind(data, layout, offset);
      var at := if layout == X65 then offset else offset + 0xFFE0;
      var end := if layout == X65 then offset + 16 else offset + 0x10000;
      if end > |data| || (!NamedLite(data, at) && !NamedFull(data, at)) then header == Success(NoPartition)
      else if !Intact(data, at, end) then header == Failure(InvalidPartitionHeader(at))
      else header == Success(if NamedLite(data, at) then EeLite else EeFull)
  {
  }

  // ----- The whole image -----

  ghost predicate Recognised(data: seq<byte>, layout: Layout, offset: nat) {
    PartitionKind(data, layout, offset).Success? && PartitionKind(data, layout, offset).value != NoPartition
  }

  /** The entries of the partition of this layout at `offset`, none when there is no such partition. */
  ghost function PartitionAt(data: seq<byte>, layout: Layout, offset: nat): Result<seq<Entry>, EepromError>
    requires offset % 0x10000 == 0 && layout != Unknown
  {
    var kind :- PartitionKind(data, layout, offset);
    if kind == NoPartition then Success([])
    else if layout == X65 then PartitionX65(data, kind, offset)
    else PartitionX85(data, kind, offset)
  }

  /** The entries of all partitions of one layout, in address order, or the error of the first that has one. */
  ghost function EntriesFrom(data: seq<byte>, layout: Layout, offset: nat): Result<seq<Entry>, EepromError>
    requires offset % 0x10000 == 0 && layout != Unknown
    decreases |data| - offset
  {
    if offset >= |data| then Success([])
    else
      var here :- PartitionAt(data, layout, offset);
      var rest :- EntriesFrom(data, layout, offset + 0x10000);
      Success(here + rest)
  }

  /** No 64 KiB block below `end` has a header of either layout. */
  ghost predicate Quiet(data: seq<byte>, end: nat) {
    forall offset :: 0 <= offset < end && offset % 0x10000 == 0 ==>
      && PartitionKind(data, X65, offset) == Success(NoPartition)
      && PartitionKind(data, X85, offset) == Success(NoPartition)
  }

  /** The first block with a header has one of this layout; X65 is tried before X85. */
  ghost predicate FirstPartition(data: seq<byte>, layout: Layout, first: nat) {
    && layout != Unknown && first % 0x10000 == 0 && first < |data| && Quiet(data, first)
    && Recognised(data, layout, first)
    && (layout == X85 ==> PartitionKind(data, X65, first) == Success(NoPartition))
  }

  /** The first block with a header has a broken one. */
  ghost predicate FirstBroken(data: seq<byte>, first: nat, error: EepromError) {
    && first % 0x10000 == 0 && first < |data| && Quiet(data, first)
    && (PartitionKind(data, X65, first) == Failure(error)
        || (PartitionKind(data, X65, first) == Success(NoPartition)
            && PartitionKind(data, X85, first) == Failure(error)))
  }

  ghost function Listed(layout: Layout, entries: Result<seq<Entry>, EepromError>): Result<Listing, EepromError> {
    if entries.Success? then Success(Listing(layout, entries.value)) else Failure(entries.error)
  }

  lemma {:induction false} ScanKnownLayout(data: seq<byte>, layout: Layout, offset: nat)
    requires offset % 0x10000 == 0 && layout != Unknown
    ensures Scan(data, layout, offset) == Listed(layout, EntriesFrom(data, layout, offset))
    decreases |data| - offset
  {
    hide PartitionKind, PartitionX65, PartitionX85;
    if offset < |data| {
      var here := PartitionAt(data, layout, offset);
      if here.Success? {
        ScanKnownLayout(data, layout, offset + 0x10000);
      }
    }
  }

  /** The scan passes blocks without a header. */
  lemma {:induction false} ScanQuiet(data: seq<byte>, from: nat, to: nat)
    requires from % 0x10000 == 0 && to % 0x10000 == 0 && from <= to && Quiet(data, to)
    requires to < |data| + 0x10000
    ensures Scan(data, Unknown, from) == Scan(data, Unknown, to)
    decreases |data| + 0x10000 - from
  {
    hide PartitionKind, PartitionX65, PartitionX85;
    if from < to {
      NextStep(from, to);
      ScanQuiet(data, from + 0x10000, to);
      assert Visit(data, Unknown, from) == Success(Listing(Unknown, []));
      var rest := Scan(data, Unknown, from + 0x10000);
      assert rest.Success? ==> [] + rest.value.entries == rest.value.entries;
    }
  }

  lemma NextStep(from: nat, to: nat)
    requires from % 0x10000 == 0 && to % 0x10000 == 0 && from < to
    ensures from + 0x10000 <= to
  {
    assert from == 0x10000 * (from / 0x10000) && to == 0x10000 * (to / 0x10000);
  }

  /** Some block comes first, or none has a header. */
  lemma {:induction false} SomethingFirst(data: seq<byte>, offset: nat)
    requires offset % 0x10000 == 0 && Quiet(data, offset)
    ensures || Quiet(data, |data|) || (exists layout, first :: FirstPartition(data, layout, first))
            || exists first, error :: FirstBroken(data, first, error)
    decreases |data| - offset
  {
    hide PartitionKind;
    if offset < |data| {
      var x65, x85 := PartitionKind(data, X65, offset), PartitionKind(data, X85, offset);
      if x65 == Success(NoPartition) && x85 == Success(NoPartition) {
        StepGap(offset);
        SomethingFirst(data, offset + 0x10000);
      } else if Recognised(data, X65, offset) {
        assert FirstPartition(data, X65, offset);
      } else if x65.Failure? {
        assert FirstBroken(data, offset, x65.error);
      } else if x85.Failure? {
        assert FirstBroken(data, offset, x85.error);
      } else {
        assert FirstPartition(data, X85, offset);
      }
    }
  }

  lemma StepGap(offset: nat)
    requires offset % 0x10000 == 0
    ensures forall o :: offset < o < offset + 0x10000 ==> o % 0x10000 != 0
  {
    var q := offset / 0x10000;
    forall o | offset < o < offset + 0x10000
      ensures o % 0x10000 != 0
    {
      assert o / 0x10000 == q;
    }
  }

  lemma ScanFirst(data: seq<byte>, layout: Layout, first: nat)
    requires FirstPartition(data, layout, first)
    ensures Parse(data) == Listed(layout, EntriesFrom(data, layout, first))
  {
    hide PartitionKind, PartitionX65, PartitionX85;
    ScanQuiet(data, 0, first);
    if PartitionAt(data, layout, first).Success? {
      ScanKnownLayout(data, layout, first + 0x10000);
    }
  }

  lemma ScanBroken(data: seq<byte>, first: nat, error: EepromError)
    requires FirstBroken(data, first, error)
    ensures Parse(data) == Failure(error)
  {
    hide PartitionKind, PartitionX65, PartitionX85;
    ScanQuiet(data, 0, first);
  }

  lemma ScanNothing(data: seq<byte>)
    requires Quiet(data, |data|)
    ensures Parse(data) == Success(Listing(Unknown, []))
  {
    hide PartitionKind, PartitionX65, PartitionX85;
    var end := |data| / 0x10000 * 0x10000;
    if end < |data| {
      StepGap(end);
      ScanQuiet(data, 0, end);
    } else {
      ScanQuiet(data, 0, |data|);
    }
  }

  /**
   * The whole parse, for every image: the first block with a header decides. Its layout is the one of the image, whose
   * entries are those of all partitions of that layout, in order; or it is broken; or there is none.
   */
  lemma ParseMeans(data: seq<byte>)
    ensures forall layout, first :: FirstPartition(data, layout, first) ==>
      Parse(data) == Listed(layout, EntriesFrom(data, layout, first))
    ensures forall first, error :: FirstBroken(data, first, error) ==> Parse(data) == Failure(error)
    ensures Quiet(data, |data|) ==> Parse(data) == Success(Listing(Unknown, [])) && IndexOf(Parse(data).value) == map[]
    ensures || Quiet(data, |data|) || (exists layout, first :: FirstPartition(data, layout, first))
            || exists first, error :: FirstBroken(data, first, error)
  {
    hide Parse, EntriesFrom;
    SomethingFirst(data, 0);
    forall layout, first | FirstPartition(data, layout, first)
      ensures Parse(data) == Listed(layout, EntriesFrom(data, layout, first))
    {
      ScanFirst(data, layout, first);
    }
    forall first, error | FirstBroken(data, first, error)
      ensures Parse(data) == Failure(error)
    {
      ScanBroken(data, first, error);
    }
    if Quiet(data, |data|) {
      ScanNothing(data);
    }
  }
}
