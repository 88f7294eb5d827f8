/** Which bytes a parse depends on: images that agree on them have the same index. */
module ParseFrame {
  import opened Wrappers
  import opened Bytes
  import opened AddressMap
  import opened Directory
  import opened ParseMeaning

  // ----- The bytes that are looked at -----

  /** The name is always compared; the rest of a header only once its name matched. */
  ghost predicate HeaderExamined(data: seq<byte>, layout: Layout, offset: nat, address: nat) {
    var at := HeaderOffset(layout, offset);
    at <= address < at + 8
    || (PartitionKind(data, layout, offset) != Success(NoPartition) && at + 10 <= address < at + HeaderSize(layout))
  }

  /** The state of every slot down to the first FREE one; the fields and version byte of the VALID ones. */
  ghost predicate SlotExaminedX65(data: seq<byte>, kind: PartitionType, partitionOffset: nat, index: nat, address: nat)
    requires partitionOffset + X65_PARTITION_SIZE <= |data| && 1 <= index <= X65_ENTRY_COUNT
  {
    var at := EntryOffsetX65(partitionOffset, index);
    at <= address < at + 4
    || (StateAt(data, at) == STATE_VALID
        && (at <= address < at + 16 || (kind == EeFull && address == partitionOffset + NumberAt(data, at + 12))))
  }

  /** On X85 only VALID slots have fields; whether a slot is VALID at all is a condition of its own below. */
  ghost predicate SlotExaminedX85(data: seq<byte>, kind: PartitionType, partitionOffset: nat, index: nat, address: nat)
    requires partitionOffset + X85_PARTITION_SIZE <= |data| && 1 <= index <= X85_ENTRY_COUNT
      && partitionOffset % 32 == 0
  {
    var at := EntryOffsetX85(partitionOffset, index);
    StateAt(data, at) == STATE_VALID
    && (at <= address < at + 16 || (kind == EeFull && VersionAddressX85(data, kind, partitionOffset, index, address)))
  }

  ghost predicate VersionAddressX85(data: seq<byte>, kind: PartitionType, partitionOffset: nat, index: nat,
      address: nat)
    requires partitionOffset + X85_PARTITION_SIZE <= |data| && 1 <= index <= X85_ENTRY_COUNT
  {
    var at := EntryOffsetX85(partitionOffset, index);
    var stored := StoredBlockX85(kind, partitionOffset, NumberAt(data, at + 8), NumberAt(data, at + 12), at);
    stored.Success? && address == ByteOffset(stored.value, 0)
  }

  ghost predicate PartitionExamined(data: seq<byte>, layout: Layout, offset: nat, address: nat)
    requires offset % PARTITION_STEP == 0
  {
    Recognised(data, layout, offset)
    && var kind := PartitionKind(data, layout, offset).value;
      if layout == X65 then
        offset + X65_PARTITION_SIZE <= |data|
        && exists index :: 1 <= index <= X65_ENTRY_COUNT && SlotReachedX65(data, kind, offset, index)
             && SlotExaminedX65(data, kind, offset, index, address)
      else
        offset >= X85_PARTITION_SIZE - PARTITION_STEP
        && (StepAligned(offset);
            var partitionOffset := offset - (X85_PARTITION_SIZE - PARTITION_STEP);
            exists index :: 1 <= index <= X85_ENTRY_COUNT
              && SlotExaminedX85(data, kind, partitionOffset, index, address))
  }

  ghost predicate SlotReachedX65(data: seq<byte>, kind: PartitionType, partitionOffset: nat, index: nat)
    requires partitionOffset + X65_PARTITION_SIZE <= |data| && 1 <= index <= X65_ENTRY_COUNT
  {
    forall k :: 1 <= k < index ==> SlotX65(data, kind, partitionOffset, k) != Success(FreeSlot)
  }

  ghost predicate VisitExamined(data: seq<byte>, layout: Layout, offset: nat, address: nat)
    requires offset % PARTITION_STEP == 0
  {
    || (layout != X85 && (HeaderExamined(data, X65, offset, address) || PartitionExamined(data, X65, offset, address)))
    || (layout != X65 && (HeaderExamined(data, X85, offset, address) || PartitionExamined(data, X85, offset, address))
        && (layout == X85 || !Recognised(data, X65, offset)))
  }

  /** The parse looks at this byte. */
  ghost predicate Examined(data: seq<byte>, layout: Layout, offset: nat, address: nat)
    requires offset % PARTITION_STEP == 0
    decreases |data| - offset
  {
    offset < |data|
    && (|| VisitExamined(data, layout, offset, address)
        || (Visit(data, layout, offset).Success?
            && Examined(data, Visit(data, layout, offset).value.layout, offset + PARTITION_STEP, address)))
  }

  /** An entry slot of a recognised X85 partition that is not VALID: inline data may live there, so its bytes may
      change. */
  ghost predicate IdleSlotX85(data: seq<byte>, offset: nat, index: nat) {
    && offset % PARTITION_STEP == 0 && offset < |data| && Recognised(data, X85, offset)
    && offset >= X85_PARTITION_SIZE - PARTITION_STEP && 1 <= index <= X85_ENTRY_COUNT
    && StateX85(data, offset, index) != STATE_VALID
  }

  /** The state word of slot `index` of the X85 partition whose header is in the 64 KiB block at `offset`. */
  function StateX85(data: seq<byte>, offset: nat, index: nat): word
    requires X85_PARTITION_SIZE - PARTITION_STEP <= offset && offset + PARTITION_STEP <= |data|
      && 1 <= index <= X85_ENTRY_COUNT
  {
    StateAt(data, EntryOffsetX85(offset - (X85_PARTITION_SIZE - PARTITION_STEP), index))
  }

  /** The slot is there and VALID. */
  ghost predicate WokenX85(data: seq<byte>, offset: nat, index: nat) {
    && X85_PARTITION_SIZE - PARTITION_STEP <= offset && offset + PARTITION_STEP <= |data|
    && 1 <= index <= X85_ENTRY_COUNT
    && StateX85(data, offset, index) == STATE_VALID
  }

  /** The visit at `offset` scans for an X85 partition, and this is an idle slot of the one it finds. */
  ghost predicate VisitLeavesIdle(data: seq<byte>, layout: Layout, offset: nat, index: nat) {
    layout != X65 && (layout == X85 || !Recognised(data, X65, offset)) && IdleSlotX85(data, offset, index)
  }

  /** The scan from `offset` on visits the idle slot `index` of the X85 partition at `home`. */
  ghost predicate LeavesIdle(data: seq<byte>, layout: Layout, offset: nat, home: nat, index: nat): (idle: bool)
    requires offset % PARTITION_STEP == 0
    ensures idle ==> IdleSlotX85(data, home, index)
    decreases |data| - offset
  {
    offset < |data|
    && (|| (home == offset && VisitLeavesIdle(data, layout, offset, index))
        || (Visit(data, layout, offset).Success?
            && LeavesIdle(data, Visit(data, layout, offset).value.layout, offset + PARTITION_STEP, home, index)))
  }

  // ----- Agreement is enough -----

  ghost predicate SameOn(a: seq<byte>, b: seq<byte>, from: nat, to: nat) {
    |a| == |b| && forall i :: from <= i < to && i < |a| ==> a[i] == b[i]
  }

  lemma HeaderFrame(a: seq<byte>, b: seq<byte>, layout: Layout, offset: nat)
    requires |a| == |b|
    requires forall i :: 0 <= i < |a| && HeaderExamined(a, layout, offset, i) ==> a[i] == b[i]
    ensures PartitionKind(b, layout, offset) == PartitionKind(a, layout, offset)
  {
    var at := HeaderOffset(layout, offset);
    if at + HeaderSize(layout) <= |a| {
      assert a[at..at + 8] == b[at..at + 8];
      if PartitionKind(a, layout, offset) != Success(NoPartition) {
        assert SameOn(a, b, at + 10, at + HeaderSize(layout));
      }
    }
  }

  lemma FieldFrame(a: seq<byte>, b: seq<byte>, at: nat)
    requires |a| == |b| && at + 4 <= |a| && SameOn(a, b, at, at + 4)
    ensures ReadU32(a, at) == ReadU32(b, at) && ReadU16(a, at) == ReadU16(b, at)
    ensures NumberAt(a, at) == NumberAt(b, at) && StateAt(a, at) == StateAt(b, at) && ShortAt(a, at) == ShortAt(b, at)
  {
    hide Number, ShortNumber, Join;
    assert a[at] == b[at] && a[at + 1] == b[at + 1] && a[at + 2] == b[at + 2] && a[at + 3] == b[at + 3];
  }

  ghost predicate SameFields(a: seq<byte>, b: seq<byte>, at: nat)
    requires at + 16 <= |a| && at + 16 <= |b|
  {
    && StateAt(a, at) == StateAt(b, at)
    && NumberAt(a, at + 4) == NumberAt(b, at + 4) && ShortAt(a, at + 4) == ShortAt(b, at + 4)
    && NumberAt(a, at + 8) == NumberAt(b, at + 8) && ShortAt(a, at + 8) == ShortAt(b, at + 8)
    && NumberAt(a, at + 12) == NumberAt(b, at + 12)
  }

  lemma FieldsFrame(a: seq<byte>, b: seq<byte>, at: nat)
    requires |a| == |b| && at + 16 <= |a| && SameOn(a, b, at, at + 16)
    ensures SameFields(a, b, at)
  {
    hide NumberAt, StateAt, ShortAt, ReadU32, ReadU16;
    FieldFrame(a, b, at);
    FieldFrame(a, b, at + 4);
    FieldFrame(a, b, at + 8);
    FieldFrame(a, b, at + 12);
  }

  lemma SlotFrameX65(a: seq<byte>, b: seq<byte>, kind: PartitionType, partitionOffset: nat, index: nat)
    requires |a| == |b| && partitionOffset + X65_PARTITION_SIZE <= |a| && 1 <= index <= X65_ENTRY_COUNT
    requires forall i :: 0 <= i < |a| && SlotExaminedX65(a, kind, partitionOffset, index, i) ==> a[i] == b[i]
    ensures SlotX65(b, kind, partitionOffset, index) == SlotX65(a, kind, partitionOffset, index)
  {
    hide NumberAt, StateAt, ShortAt;
    var at := EntryOffsetX65(partitionOffset, index);
    assert SameOn(a, b, at, at + 4);
    FieldFrame(a, b, at);
    if StateAt(a, at) == STATE_VALID {
      assert SameOn(a, b, at, at + 16);
      FieldsFrame(a, b, at);
      var version := partitionOffset + NumberAt(a, at + 12);
      if kind == EeFull && version < |a| {
        assert SlotExaminedX65(a, kind, partitionOffset, index, version);
      }
      ValidSlotFrameX65(a, b, kind, partitionOffset, index);
    }
  }

  lemma ValidSlotFrameX65(a: seq<byte>, b: seq<byte>, kind: PartitionType, partitionOffset: nat, index: nat)
    requires |a| == |b| && partitionOffset + X65_PARTITION_SIZE <= |a| && 1 <= index <= X65_ENTRY_COUNT
    requires SameFields(a, b, EntryOffsetX65(partitionOffset, index))
    requires var version := partitionOffset + NumberAt(a, EntryOffsetX65(partitionOffset, index) + 12);
      kind == EeFull && version < |a| ==> a[version] == b[version]
    ensures SlotX65(b, kind, partitionOffset, index) == SlotX65(a, kind, partitionOffset, index)
  {
    hide NumberAt, StateAt, ShortAt;
  }

  lemma SlotFrameX85(a: seq<byte>, b: seq<byte>, kind: PartitionType, partitionOffset: nat, index: nat)
    requires |a| == |b| && partitionOffset + X85_PARTITION_SIZE <= |a| && 1 <= index <= X85_ENTRY_COUNT
    requires partitionOffset % 32 == 0 && kind != NoPartition
    requires forall i :: 0 <= i < |a| && SlotExaminedX85(a, kind, partitionOffset, index, i) ==> a[i] == b[i]
    requires var at := EntryOffsetX85(partitionOffset, index); StateAt(a, at) != STATE_VALID ==>
      StateAt(b, at) != STATE_VALID
    ensures SlotX85(b, kind, partitionOffset, index) == SlotX85(a, kind, partitionOffset, index)
  {
    hide NumberAt, StateAt, ShortAt, StoredBlockX85, ByteOffset;
    var at := EntryOffsetX85(partitionOffset, index);
    if StateAt(a, at) == STATE_VALID {
      assert SameOn(a, b, at, at + 16);
      FieldsFrame(a, b, at);
      forall version: nat | VersionAddressX85(a, kind, partitionOffset, index, version) && kind == EeFull
        && version < |a|
        ensures a[version] == b[version]
      {
        assert SlotExaminedX85(a, kind, partitionOffset, index, version);
      }
      ValidSlotFrameX85(a, b, kind, partitionOffset, index);
    }
  }

  lemma ValidSlotFrameX85(a: seq<byte>, b: seq<byte>, kind: PartitionType, partitionOffset: nat, index: nat)
    requires |a| == |b| && partitionOffset + X85_PARTITION_SIZE <= |a| && 1 <= index <= X85_ENTRY_COUNT
    requires partitionOffset % 32 == 0 && kind != NoPartition
    requires SameFields(a, b, EntryOffsetX85(partitionOffset, index))
    requires forall version: nat ::
      VersionAddressX85(a, kind, partitionOffset, index, version) && kind == EeFull && version < |a| ==>
        a[version] == b[version]
    ensures SlotX85(b, kind, partitionOffset, index) == SlotX85(a, kind, partitionOffset, index)
  {
    hide NumberAt, StateAt, ShortAt, StoredBlockX85, ByteOffset;
    var at := EntryOffsetX85(partitionOffset, index);
    var stored := StoredBlockX85(kind, partitionOffset, NumberAt(a, at + 8), NumberAt(a, at + 12), at);
    if kind == EeFull && stored.Success? && NumberAt(a, at + 8) > 0 {
      StoredBlockX85Inside(kind, partitionOffset, NumberAt(a, at + 8), NumberAt(a, at + 12), index, 0);
      assert VersionAddressX85(a, kind, partitionOffset, index, ByteOffset(stored.value, 0));
    }
  }

  lemma {:induction false} ListFrameX65(a: seq<byte>, b: seq<byte>, kind: PartitionType, partitionOffset: nat,
      index: nat)
    requires |a| == |b| && partitionOffset + X65_PARTITION_SIZE <= |a| && 1 <= index <= X65_ENTRY_COUNT + 1
    requires forall k :: 1 <= k < index ==> SlotX65(a, kind, partitionOffset, k) != Success(FreeSlot)
    requires forall k, i :: 1 <= k <= X65_ENTRY_COUNT && 0 <= i < |a| && SlotReachedX65(a, kind, partitionOffset, k)
               && SlotExaminedX65(a, kind, partitionOffset, k, i)
               ==> a[i] == b[i]
    ensures ListX65(b, kind, partitionOffset, index) == ListX65(a, kind, partitionOffset, index)
    decreases X65_ENTRY_COUNT + 1 - index
  {
    hide SlotX65, SlotExaminedX65;
    if index <= X65_ENTRY_COUNT {
      assert SlotReachedX65(a, kind, partitionOffset, index);
      SlotFrameX65(a, b, kind, partitionOffset, index);
      if SlotX65(a, kind, partitionOffset, index) != Success(FreeSlot) {
        ListFrameX65(a, b, kind, partitionOffset, index + 1);
      }
    }
  }

  lemma {:induction false} ListFrameX85(a: seq<byte>, b: seq<byte>, kind: PartitionType, partitionOffset: nat,
      index: nat)
    requires |a| == |b| && partitionOffset + X85_PARTITION_SIZE <= |a| && 1 <= index <= X85_ENTRY_COUNT + 1
    requires partitionOffset % 32 == 0 && kind != NoPartition
    requires forall k, i :: 1 <= k <= X85_ENTRY_COUNT && 0 <= i < |a|
               && SlotExaminedX85(a, kind, partitionOffset, k, i)
               ==> a[i] == b[i]
    requires forall k :: 1 <= k <= X85_ENTRY_COUNT && StateAt(a, EntryOffsetX85(partitionOffset, k)) != STATE_VALID ==>
      StateAt(b, EntryOffsetX85(partitionOffset, k)) != STATE_VALID
    ensures ListX85(b, kind, partitionOffset, index) == ListX85(a, kind, partitionOffset, index)
    decreases X85_ENTRY_COUNT + 1 - index
  {
    hide SlotX85, SlotExaminedX85, StateAt;
    if index <= X85_ENTRY_COUNT {
      SlotFrameX85(a, b, kind, partitionOffset, index);
      ListFrameX85(a, b, kind, partitionOffset, index + 1);
    }
  }

  /** `b` keeps every byte the parse of `a` looks at, and wakes no idle X85 slot up. */
  ghost predicate KeepsDirectory(a: seq<byte>, b: seq<byte>) {
    && |a| == |b|
    && (forall i :: 0 <= i < |a| && Examined(a, Unknown, 0, i) ==> a[i] == b[i])
    && (forall home, index :: LeavesIdle(a, Unknown, 0, home, index) ==> !WokenX85(b, home, index))
  }

  lemma PartitionFrame(a: seq<byte>, b: seq<byte>, layout: Layout, offset: nat)
    requires |a| == |b| && offset % PARTITION_STEP == 0 && offset < |a| && layout != Unknown
      && Recognised(a, layout, offset)
    requires forall i :: 0 <= i < |a| && PartitionExamined(a, layout, offset, i) ==> a[i] == b[i]
    requires layout == X85 ==>
      forall index :: IdleSlotX85(a, offset, index) ==> !WokenX85(b, offset, index)
    ensures var kind := PartitionKind(a, layout, offset).value;
      if layout == X65 then PartitionX65(b, kind, offset) == PartitionX65(a, kind, offset)
      else PartitionX85(b, kind, offset) == PartitionX85(a, kind, offset)
  {
    var kind := PartitionKind(a, layout, offset).value;
    hide SlotX65, SlotX85, SlotExaminedX65, SlotExaminedX85, StateAt, PartitionKind;
    if layout == X65 {
      if offset + X65_PARTITION_SIZE <= |a| {
        ListFrameX65(a, b, kind, offset, 1);
      }
    } else if offset >= X85_PARTITION_SIZE - PARTITION_STEP {
      StepAligned(offset);
      var partitionOffset := offset - (X85_PARTITION_SIZE - PARTITION_STEP);
      assert partitionOffset + X85_PARTITION_SIZE <= |a| by {
        RecognisedInside(a, layout, offset);
      }
      forall k | 1 <= k <= X85_ENTRY_COUNT && StateAt(a, EntryOffsetX85(partitionOffset, k)) != STATE_VALID
        ensures StateAt(b, EntryOffsetX85(partitionOffset, k)) != STATE_VALID
      {
        assert IdleSlotX85(a, offset, k);
        assert !WokenX85(b, offset, k);
      }
      ListFrameX85(a, b, kind, partitionOffset, 1);
    }
  }

  lemma RecognisedInside(data: seq<byte>, layout: Layout, offset: nat)
    requires Recognised(data, layout, offset) && layout != X65
    ensures offset + PARTITION_STEP <= |data|
  {
  }

  lemma VisitFrame(a: seq<byte>, b: seq<byte>, layout: Layout, offset: nat)
    requires |a| == |b| && offset % PARTITION_STEP == 0 && offset < |a|
    requires forall i :: 0 <= i < |a| && VisitExamined(a, layout, offset, i) ==> a[i] == b[i]
    requires forall index :: VisitLeavesIdle(a, layout, offset, index) ==> !WokenX85(b, offset, index)
    ensures Visit(b, layout, offset) == Visit(a, layout, offset)
  {
    hide PartitionKind, HeaderExamined, PartitionExamined, PartitionX65, PartitionX85, IdleSlotX85;
    if layout != X85 {
      HeaderFrame(a, b, X65, offset);
      if Recognised(a, X65, offset) {
        PartitionFrame(a, b, X65, offset);
      }
    }
    if layout == X85 || (layout == Unknown && !Recognised(a, X65, offset)) {
      HeaderFrame(a, b, X85, offset);
      if Recognised(a, X85, offset) {
        forall index | IdleSlotX85(a, offset, index)
          ensures !WokenX85(b, offset, index)
        {
          assert VisitLeavesIdle(a, layout, offset, index);
        }
        PartitionFrame(a, b, X85, offset);
      }
    }
  }

  lemma {:induction false} ScanFrame(a: seq<byte>, b: seq<byte>, layout: Layout, offset: nat)
    requires |a| == |b| && offset % PARTITION_STEP == 0
    requires forall i :: 0 <= i < |a| && Examined(a, layout, offset, i) ==> a[i] == b[i]
    requires forall home, index :: LeavesIdle(a, layout, offset, home, index) ==> !WokenX85(b, home, index)
    ensures Scan(b, layout, offset) == Scan(a, layout, offset)
    decreases |a| - offset
  {
    hide Visit, VisitExamined, IdleSlotX85, StateAt;
    if offset < |a| {
      forall index | VisitLeavesIdle(a, layout, offset, index)
        ensures !WokenX85(b, offset, index)
      {
        assert LeavesIdle(a, layout, offset, offset, index);
      }
      VisitFrame(a, b, layout, offset);
      if Visit(a, layout, offset).Success? {
        ScanFrame(a, b, Visit(a, layout, offset).value.layout, offset + PARTITION_STEP);
      }
    }
  }

  /** The parse depends on nothing else: same examined bytes, same index. */
  lemma ParseDependsOnExamined(a: seq<byte>, b: seq<byte>)
    requires KeepsDirectory(a, b)
    ensures Parse(b) == Parse(a)
  {
    ScanFrame(a, b, Unknown, 0);
  }
}
