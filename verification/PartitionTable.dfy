/** `partition_table` and `disk_bytes`: the partitions laid out one after another, the system
    partition sized from its tree. */
module PartitionTable {
  import opened Bytes
  import opened Inode
  import opened Layout
  import opened VolumeReads
  import opened MinimumSize
  import Mount

  const SECTOR: nat := Mount.SECTOR
  /** Sectors in a megabyte: what every partition starts on. */
  const MEGABYTE: nat := 2048

  datatype Row = Row(first: nat, last: int)

  function Aligned(sector: nat): (r: nat)
    ensures sector <= r < sector + MEGABYTE && r % MEGABYTE == 0
  {
    (sector + MEGABYTE - 1) / MEGABYTE * MEGABYTE
  }

  /** The sectors of the system partition: twice its tree's minimum, in whole megabytes. */
  function SystemSectors(minimum: nat): nat
  {
    Aligned((minimum * 2 + SECTOR - 1) / SECTOR)
  }

  function Sectors(row: Option<nat>, minimum: nat): nat
  {
    match row
    case Some(sectors) => sectors
    case None => SystemSectors(minimum)
  }

  /** The rows from `cursor` on; a row without a size of its own is the system partition's. */
  function Rows(layout: seq<Option<nat>>, cursor: nat, minimum: nat): (rows: seq<Row>)
    ensures |rows| == |layout|
    decreases |layout|
  {
    if layout == [] then []
    else
      var first, sectors := Aligned(cursor), Sectors(layout[0], minimum);
      [Row(first, first + sectors - 1)] + Rows(layout[1..], first + sectors, minimum)
  }

  /** Partitions lie apart, in order, each starting on a megabyte and as large as asked. */
  ghost predicate Disjoint(rows: seq<Row>)
  {
    forall i, j | 0 <= i < j < |rows| :: rows[i].last < rows[j].first
  }

  lemma {:induction false} RowsLaidOut(layout: seq<Option<nat>>, cursor: nat, minimum: nat)
    ensures var rows := Rows(layout, cursor, minimum);
            && Disjoint(rows)
            && (forall i | 0 <= i < |rows| :: rows[i].first % MEGABYTE == 0 && cursor <= rows[i].first <= rows[i].last + 1
                                              && rows[i].last - rows[i].first + 1 == Sectors(layout[i], minimum))
    decreases |layout|
  {
    hide SystemSectors;
    if layout != [] {
      var first, sectors := Aligned(cursor), Sectors(layout[0], minimum);
      RowsLaidOut(layout[1..], first + sectors, minimum);
      var rows, rest := Rows(layout, cursor, minimum), Rows(layout[1..], first + sectors, minimum);
      forall i, j | 0 <= i < j < |rows| ensures rows[i].last < rows[j].first {
        assert rows[j] == rest[j - 1];
        if i > 0 {
          assert rows[i] == rest[i - 1];
        }
      }
    }
  }

  /** Every partition starts on the first whole megabyte behind the one before it. */
  lemma {:induction false} RowsPacked(layout: seq<Option<nat>>, cursor: nat, minimum: nat, i: nat)
    requires i < |layout|
    ensures var rows := Rows(layout, cursor, minimum); var free := if i == 0 then cursor else rows[i - 1].last + 1;
            free <= rows[i].first < free + 2048 && rows[i].first % 2048 == 0
    decreases |layout|
  {
    hide Sectors;
    if i > 0 {
      RowsPacked(layout[1..], Aligned(cursor) + Sectors(layout[0], minimum), minimum, i - 1);
    }
  }

  /** The system partition is the fewest whole megabytes that hold its tree's minimum twice. */
  lemma SystemSectorsAre(minimum: nat)
    ensures var n: int := SystemSectors(minimum);
            n % 2048 == 0 && 512 * n >= 2 * minimum && (n == 0 || 512 * (n - 2048) < 2 * minimum)
  {
  }

  lemma RowsCons(row: Option<nat>, rest: seq<Option<nat>>, cursor: nat, minimum: nat)
    ensures var first, sectors := Aligned(cursor), Sectors(row, minimum);
            Rows([row] + rest, cursor, minimum) == [Row(first, first + sectors - 1)] + Rows(rest, first + sectors, minimum)
  {
    hide Sectors;
    assert ([row] + rest)[1..] == rest;
  }

  lemma RowsNone(cursor: nat, minimum: nat)
    ensures forall at: nat :: Rows([], at, minimum) == []
  {
  }

  lemma {:induction false} RowsAppend(a: seq<Option<nat>>, b: Option<nat>, cursor: nat, minimum: nat)
    ensures var rows := Rows(a, cursor, minimum);
            var at := if a == [] then cursor else rows[|a| - 1].last + 1;
            at >= 0 && Rows(a + [b], cursor, minimum) ==
            rows + [Row(Aligned(at), Aligned(at) + Sectors(b, minimum) - 1)]
    decreases |a|
  {
    hide Sectors, Rows, Aligned;
    if a == [] {
      assert a + [b] == [b] + [];
      RowsCons(b, [], cursor, minimum);
      RowsNone(cursor, minimum);
    } else {
      var first, sectors := Aligned(cursor), Sectors(a[0], minimum);
      assert a + [b] == [a[0]] + (a[1..] + [b]) && a == [a[0]] + a[1..];
      RowsCons(a[0], a[1..], cursor, minimum);
      RowsCons(a[0], a[1..] + [b], cursor, minimum);
      RowsAppend(a[1..], b, first + sectors, minimum);
    }
  }

  /** `partition_table`; nothing where sizing the system partition raises. */
  method LayPartitions(layout: seq<Option<nat>>, items: seq<Item>, title: seq<byte>) returns (r: Option<seq<Row>>)
    requires Legal(items)
    ensures None in layout && Minimum(items).None? ==> r.None?
    ensures None in layout && Minimum(items).Some? ==> r == Some(Rows(layout, MEGABYTE, Minimum(items).value * BLOCK))
    ensures None !in layout ==> r == Some(Rows(layout, MEGABYTE, 0))
  {
    hide Minimum, SystemSectors;
    ghost var minimum: nat := if None in layout && Minimum(items).Some? then Minimum(items).value * BLOCK else 0;
    var cursor: nat, rows: seq<Row> := MEGABYTE, [];
    for i := 0 to |layout|
      invariant rows == Rows(layout[..i], MEGABYTE, minimum)
      invariant None in layout[..i] ==> Minimum(items).Some?
      invariant cursor == if i == 0 then MEGABYTE else rows[i - 1].last + 1
    {
      assert layout[..i + 1] == layout[..i] + [layout[i]];
      RowsAppend(layout[..i], layout[i], MEGABYTE, minimum);
      var first := Aligned(cursor);
      var sectors: nat;
      if layout[i].None? {
        assert None in layout;
        var needed := MinimumBytes(items, title);
        if needed.None? {
          return None;
        }
        sectors := SystemSectors(needed.value);
      } else {
        sectors := layout[i].value;
      }
      rows := rows + [Row(first, first + sectors - 1)];
      cursor := first + sectors;
    }
    assert layout[..|layout|] == layout;
    return Some(rows);
  }

  function Last(rows: seq<Row>): (m: int)
    requires rows != []
    ensures forall i | 0 <= i < |rows| :: rows[i].last <= m
    ensures exists i | 0 <= i < |rows| :: rows[i].last == m
  {
    if |rows| == 1 then rows[0].last
    else
      var m := Last(rows[..|rows| - 1]);
      if rows[|rows| - 1].last > m then rows[|rows| - 1].last else m
  }

  /** `disk_bytes`: a megabyte past the last partition, in whole megabytes. */
  function DiskBytes(rows: seq<Row>): (b: nat)
    requires rows != [] && forall i | 0 <= i < |rows| :: rows[i].last >= -1
  {
    Aligned(Last(rows) + 1 + MEGABYTE) * SECTOR
  }

  /** The image is the fewest whole megabytes with one left behind the last partition. */
  lemma DiskBytesAre(rows: seq<Row>)
    requires rows != [] && forall i | 0 <= i < |rows| :: rows[i].last >= -1
    ensures var n: int := DiskBytes(rows);
            && n % 0x10_0000 == 0 && (forall i | 0 <= i < |rows| :: 512 * (rows[i].last + 1) + 0x10_0000 <= n)
            && exists i | 0 <= i < |rows| :: n < 512 * (rows[i].last + 1) + 2 * 0x10_0000
  {
    var end := Aligned(Last(rows) + 1 + MEGABYTE);
    WholeMegabytes(end);
    var i :| 0 <= i < |rows| && rows[i].last == Last(rows);
    assert DiskBytes(rows) < 512 * (rows[i].last + 1) + 2 * 0x10_0000;
  }

  /** Every partition lies inside the image, with room for the backup table behind it. */
  lemma RowsInImage(layout: seq<Option<nat>>, minimum: nat, i: nat)
    requires i < |layout|
    ensures var rows := Rows(layout, MEGABYTE, minimum);
            && (forall j | 0 <= j < |rows| :: rows[j].last >= -1)
            && MEGABYTE <= rows[i].first && (rows[i].last + 1 + MEGABYTE) * SECTOR <= DiskBytes(rows)
            && DiskBytes(rows) % (MEGABYTE * SECTOR) == 0
  {
    hide Rows;
    RowsLaidOut(layout, MEGABYTE, minimum);
    var rows := Rows(layout, MEGABYTE, minimum);
    var end := Aligned(Last(rows) + 1 + MEGABYTE);
    assert end % MEGABYTE == 0;
    WholeMegabytes(end);
  }

  lemma WholeMegabytes(n: nat)
    requires n % MEGABYTE == 0
    ensures n * SECTOR % (MEGABYTE * SECTOR) == 0
  {
    var k := n / MEGABYTE;
    assert n * SECTOR == k * (MEGABYTE * SECTOR);
  }

  /** The system partition, rounded up, holds its tree. */
  lemma {:induction false} SystemPartitionFits(layout: seq<Option<nat>>, items: seq<Item>, i: nat)
    requires Legal(items) && Minimum(items).Some? && i < |layout| && layout[i] == None
    ensures var row := Rows(layout, MEGABYTE, Minimum(items).value * BLOCK)[i];
            row.last - row.first + 1 >= 0 && Fitting(items, (row.last - row.first + 1) * SECTOR)
  {
    hide Minimum, Fitting, Legal, Rows, SystemSectors;
    var s := Minimum(items).value;
    SystemRow(layout, s * BLOCK, i);
    MinimumInRange(items);
    SystemBytes(s);
    MinimumHolds(items, SystemSectors(s * BLOCK) * SECTOR);
  }

  lemma SystemRow(layout: seq<Option<nat>>, minimum: nat, i: nat)
    requires i < |layout| && layout[i] == None
    ensures var row := Rows(layout, MEGABYTE, minimum)[i];
            row.last - row.first + 1 == SystemSectors(minimum)
  {
    hide Rows, SystemSectors;
    RowsLaidOut(layout, MEGABYTE, minimum);
  }

  lemma SystemBytes(s: nat)
    requires s < 0x800_0000_0000
    ensures SystemSectors(s * BLOCK) * SECTOR >= 2 * s * BLOCK && SystemSectors(s * BLOCK) * SECTOR / BLOCK < MAX_BLOCKS
  {
    hide SystemSectors;
    SystemSectorsAre(s * BLOCK);
  }
}
