/** Sample images of 192 KiB: bootcore 2.0 and one EEFULL partition of X65 layout, given by the end of its table. */
module SmallImage {
  import opened Wrappers
  import opened Bytes
  import opened Directory
  import opened ParseFrame
  import opened Fullflash
  import opened Recalc
  import opened SampleTables

  const SIZE: nat := 0x30000
  const HOME: nat := 0x10000
  const TABLE_END: nat := 0x2FFE0

  type Tail = t: seq<byte> | |t| == 32 witness seq(32, _ => 0xFF)

  function SmallByte(tail: Tail, a: nat): byte {
    if a < 0x1000 then BootcoreByte(a)
    else if HOME <= a < HOME + 16 then FULL_HEADER[a - HOME]
    else if TABLE_END <= a < SIZE then tail[a - TABLE_END]
    else 0xFF
  }

  function Small(tail: Tail): (d: seq<byte>)
    ensures |d| == SIZE
  {
    seq(SIZE, a requires 0 <= a < SIZE => SmallByte(tail, a))
  }

  /** It differs from the sample at most in the HASH and IMEI fields. */
  ghost predicate LikeSmall(e: seq<byte>, tail: Tail) {
    |e| == SIZE && forall a :: 0 <= a < SIZE && !InFields20(a) ==> e[a] == SmallByte(tail, a)
  }

  /** What the headers of the scan and the layout depend on. */
  ghost predicate IsSmall(e: seq<byte>) {
    && |e| == SIZE && Bootcore20(e) && e[HOME..HOME + 16] == FULL_HEADER
    && e[0] == 0xFF && e[0x20000] == 0xFF && e[0xFFE0] == 0xFF && e[0x1FFE0] == 0xFF && e[TABLE_END] != 0x45
  }

  lemma LikeIsSmall(e: seq<byte>, tail: Tail)
    requires LikeSmall(e, tail) && tail[0] != 0x45
    ensures IsSmall(e)
  {
    assert e[HOME..HOME + 16] == FULL_HEADER by {
      assert forall k :: 0 <= k < 16 ==> e[HOME + k] == FULL_HEADER[k];
    }
    assert e[TABLE_END] == tail[0];
  }

  lemma TailBytes(e: seq<byte>, tail: Tail)
    requires LikeSmall(e, tail)
    ensures e[TABLE_END..TABLE_END + 16] == tail[..16] && e[TABLE_END + 16..SIZE] == tail[16..]
  {
    assert forall a :: TABLE_END <= a < SIZE ==> e[a] == tail[a - TABLE_END];
  }

  lemma ErasedByte(e: seq<byte>, tail: Tail, a: nat)
    requires LikeSmall(e, tail) && HOME + 16 <= a < TABLE_END
    ensures e[a] == 0xFF
  {
  }

  lemma SmallKinds(e: seq<byte>)
    requires IsSmall(e)
    ensures OnlyX65(e) && PartitionKind(e, X65, 0) == Success(NoPartition)
    ensures PartitionKind(e, X65, HOME) == Success(EeFull) && PartitionKind(e, X65, 0x20000) == Success(NoPartition)
    ensures forall o: nat :: o % PARTITION_STEP == 0 && o != HOME ==> PartitionKind(e, X65, o) == Success(NoPartition)
  {
    hide PartitionKind, Bootcore20;
    FullName(e, HOME);
    forall o: nat | o % PARTITION_STEP == 0
      ensures PartitionKind(e, X85, o) == Success(NoPartition)
      ensures o != HOME ==> PartitionKind(e, X65, o) == Success(NoPartition)
    {
      assert o < SIZE ==> o == 0 || o == HOME || o == 0x20000;
      NoName(e, X85, o);
      if o != HOME {
        NoName(e, X65, o);
      }
    }
  }

  lemma SmallParses(e: seq<byte>, rows: seq<Row>)
    requires IsSmall(e) && TableAt(e, EeFull, HOME, rows)
    ensures Parse(e) == Success(Listing(X65, EntriesOf(EeFull, HOME, rows, 0)))
  {
    hide PartitionKind, RowAt, Scan, Bootcore20, EntriesOf, OnlyX65;
    SmallKinds(e);
    QuietStep(e, Unknown, 0);
    QuietScan(e, 0x20000);
    TableStep(e, Unknown, HOME, EeFull, rows, []);
    assert EntriesOf(EeFull, HOME, rows, 0) + [] == EntriesOf(EeFull, HOME, rows, 0);
  }

  lemma SmallApart(e: seq<byte>, rows: seq<Row>, a: nat)
    requires IsSmall(e) && TableAt(e, EeFull, HOME, rows) && !TouchesTable(EeFull, HOME, rows, a)
    ensures TablesApart(e, a)
  {
    hide PartitionKind, TableAt, TouchesTable, Bootcore20, OnlyX65;
    SmallKinds(e);
    forall o: nat | o % PARTITION_STEP == 0
      ensures !PartitionExamined(e, X65, o, a)
    {
      if o == HOME {
        PartitionApart(e, EeFull, HOME, rows, a);
      } else {
        hide SlotReachedX65, SlotExaminedX65;
      }
    }
  }

  lemma SmallApplies(tail: Tail, identity: Identity)
    requires tail[0] != 0x45
    ensures IsSmall(Small(tail)) && Applies(Small(tail))
    ensures LayoutOf(Small(tail)) == Some(BootcoreLayout(BootcoreVersion(2, 0), 0x238, 0x65C))
    ensures var patched := Patched(Small(tail), LayoutOf(Small(tail)).value, identity);
      LikeSmall(patched, tail) && IsSmall(patched)
  {
    var d := Small(tail);
    assert LikeSmall(d, tail);
    LikeIsSmall(d, tail);
    Layout20(d);
    assert d[0x238] == 0 && d[0x238..0x248][0] == 0;
    hide LayoutOf, Small, SmallByte;
    LikeIsSmall(Patched(d, LayoutOf(d).value, identity), tail);
  }
}
