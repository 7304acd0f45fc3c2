/** Block runs and inodes as bytes: `_run`, `_small_data`, `_inode`, and the fields the guest's
    `read_inode` and `small_file_name` take back out. */
module Inode {
  import opened Bytes
  import opened Keys
  import opened Geometry
  import opened NodeCodec

  const INODE_MAGIC: nat := 0x3BBE_0AD9
  const INODE_IN_USE: nat := 1
  const FILE_NAME_TYPE: nat := 0x4353_5452
  const FILE_NAME_NAME: byte := 0x13
  const DIRECT_RUNS: nat := 12

  /** `block >> shift`. */
  function GroupOf(block: nat, shift: nat): (g: nat)
    ensures g <= block
  {
    if shift == 0 then block else GroupOf(block / 2, shift - 1)
  }

  /** `block & ((1 << shift) - 1)`. */
  function StartOf(block: nat, shift: nat): (s: nat)
    ensures s < Pow2(shift)
  {
    if shift == 0 then 0 else block % 2 + 2 * StartOf(block / 2, shift - 1)
  }

  /** `_run`: the allocation group, the start within it, and the length. */
  function RunBytes(block: nat, length: nat, shift: nat): (s: seq<byte>)
    ensures |s| == 8
  {
    Le(4, GroupOf(block, shift)) + Le(2, StartOf(block, shift)) + Le(2, length)
  }

  function ZeroRun(): (s: seq<byte>)
    ensures |s| == 8
  {
    Zeros(8)
  }

  /** A run as the guest reads it. */
  datatype Run = Run(group: nat, start: nat, length: nat)

  function LeRun(buf: seq<byte>, at: nat): Run
    requires at + 8 <= |buf|
  {
    Run(Field(buf, at, 4), Field(buf, at + 4, 2), Field(buf, at + 6, 2))
  }

  function ToBlock(run: Run, shift: nat): nat
  {
    run.group * Pow2(shift) + run.start
  }

  predicate RunIsZero(run: Run)
  {
    run.group == 0 && run.start == 0 && run.length == 0
  }

  /** Blocks a signed 32-bit group number reaches with the smallest groups. */
  const MAX_BLOCKS: nat := 0x8000_0000 * 0x4000

  lemma GroupInRange(block: nat, shift: nat)
    requires block < MAX_BLOCKS && 14 <= shift <= 16
    ensures GroupOf(block, shift) < 0x8000_0000
  {
    hide GroupOf, StartOf, Pow2;
    GroupStart(block, shift);
    SmallPowers();
    assert GroupOf(block, shift) * 0x4000 <= GroupOf(block, shift) * Pow2(shift) <= block;
  }

  lemma RunFields(block: nat, length: nat, shift: nat, buf: seq<byte>, at: nat)
    requires block < MAX_BLOCKS && length < TWO16 && 14 <= shift <= 16
    requires at + 8 <= |buf| && buf[at..at + 8] == RunBytes(block, length, shift)
    ensures LeRun(buf, at) == Run(GroupOf(block, shift), StartOf(block, shift), length)
    ensures ToBlock(LeRun(buf, at), shift) == block
  {
    hide Le, GroupOf, StartOf, Pow2;
    var r := RunBytes(block, length, shift);
    var a, b, c := Le(4, GroupOf(block, shift)), Le(2, StartOf(block, shift)), Le(2, length);
    assert r == a + b + c;
    assert r[0..4] == a && r[4..6] == b && r[6..8] == c;
    SliceOfSlice(buf, at, at + 8, 0, 4);
    SliceOfSlice(buf, at, at + 8, 4, 6);
    SliceOfSlice(buf, at, at + 8, 6, 8);
    Powers();
    SmallPowers();
    GroupStart(block, shift);
    GroupInRange(block, shift);
    FieldIs(buf, at, 4, GroupOf(block, shift));
    FieldIs(buf, at + 4, 2, StartOf(block, shift));
    FieldIs(buf, at + 6, 2, length);
  }

  /** The two halves of a run's address make up the block again. */
  lemma {:induction false} GroupStart(block: nat, shift: nat)
    ensures GroupOf(block, shift) * Pow2(shift) + StartOf(block, shift) == block
  {
    if shift > 0 {
      GroupStart(block / 2, shift - 1);
      Double(GroupOf(block / 2, shift - 1), Pow2(shift - 1));
    }
  }

  lemma Double(g: nat, p: nat)
    ensures g * (2 * p) == 2 * (g * p)
  {
  }

  // ----- the inode

  /** What an inode records, as the builder is asked to write it. */
  datatype Inode = Inode(run: seq<byte>, mode: nat, parent: seq<byte>, size: nat, runs: seq<seq<byte>>,
                         covered: nat, name: Option<Key>, time: nat, typeCode: nat)

  ghost predicate ValidInode(n: Inode)
  {
    && |n.run| == 8 && |n.parent| == 8 && |n.runs| <= DIRECT_RUNS
    && (forall i | 0 <= i < |n.runs| :: |n.runs[i]| == 8)
    && n.mode < TWO32 && n.size < TWO64
    && (n.name.Some? ==> |n.name.value| <= MAX_NAME)
  }

  function SmallData(typeCode: nat, name: seq<byte>, data: seq<byte>): (s: seq<byte>)
    ensures |s| == 12 + |name| + |data|
  {
    Le(4, typeCode) + Le(2, |name|) + Le(2, |data|) + name + Zeros(3) + data + Zeros(1)
  }

  /** Offsets 0 to 72. */
  function InodeHead(n: Inode): (s: seq<byte>)
    requires |n.run| == 8 && |n.parent| == 8
    ensures |s| == 72
  {
    Le(4, INODE_MAGIC) + n.run + Zeros(8) + Le(4, n.mode) + Le(4, INODE_IN_USE) + Le(8, n.time) + Le(8, n.time) +
    n.parent + ZeroRun() + Le(4, n.typeCode) + Le(4, BLOCK) + Zeros(4)
  }

  function ConcatRuns(runs: seq<seq<byte>>): (s: seq<byte>)
    requires forall i | 0 <= i < |runs| :: |runs[i]| == 8
    ensures |s| == 8 * |runs|
  {
    if runs == [] then [] else ConcatRuns(runs[..|runs| - 1]) + runs[|runs| - 1]
  }

  /** The twelve direct runs, offsets 72 to 168. */
  function DirectRuns(runs: seq<seq<byte>>): (s: seq<byte>)
    requires |runs| <= DIRECT_RUNS && forall i | 0 <= i < |runs| :: |runs[i]| == 8
    ensures |s| == 96
  {
    ConcatRuns(runs) + Zeros(96 - 8 * |runs|)
  }

  /** Offsets 168 to 232: the ranges, no indirect runs, the size, the change time. */
  function InodeTail(n: Inode): (s: seq<byte>)
    ensures |s| == 64
  {
    Le(8, n.covered) + Zeros(32) + Le(8, n.size) + Le(8, n.time) + Zeros(8)
  }

  function NameData(n: Inode): seq<byte>
  {
    match n.name
    case None => []
    case Some(name) => SmallData(FILE_NAME_TYPE, [FILE_NAME_NAME], name)
  }

  ghost function InodeBytes(n: Inode): (s: seq<byte>)
    requires ValidInode(n)
    ensures |s| == BLOCK
  {
    var front := InodeHead(n) + DirectRuns(n.runs) + InodeTail(n) + NameData(n);
    front + Zeros(BLOCK - |front|)
  }

  // ----- the guest's view

  const DATA: nat := 72
  const SMALL_DATA: nat := 232

  predicate InodeInUse(block: seq<byte>)
    requires |block| == BLOCK
  {
    Field(block, 0, 4) == INODE_MAGIC && Field(block, 24, 4) % 2 == 1 && Field(block, 64, 4) == BLOCK
  }

  /** `small_file_name`, for an inode whose first small data entry is its name. */
  function FileName(block: seq<byte>): Option<Key>
    requires |block| == BLOCK
  {
    var nameSize, dataSize := Field(block, SMALL_DATA + 4, 2), Field(block, SMALL_DATA + 6, 2);
    if nameSize == 0 || SMALL_DATA + 12 + nameSize + dataSize > BLOCK then None
    else if nameSize == 1 && block[SMALL_DATA + 8] == FILE_NAME_NAME then
      Some(Trimmed(block[SMALL_DATA + 8 + nameSize + 3..SMALL_DATA + 8 + nameSize + 3 + dataSize]))
    else None
  }

  /** Trailing zero bytes are not part of a name. */
  function Trimmed(name: Key): Key
  {
    if name != [] && name[|name| - 1] == 0 then Trimmed(name[..|name| - 1]) else name
  }

  /** What is left of a name ends before the zero bytes at its end. */
  lemma {:induction false} TrimmedIs(name: Key)
    ensures Trimmed(name) <= name && forall i | |Trimmed(name)| <= i < |name| :: name[i] == 0
    ensures Trimmed(name) != [] ==> Trimmed(name)[|Trimmed(name)| - 1] != 0
  {
    if name != [] && name[|name| - 1] == 0 {
      TrimmedIs(name[..|name| - 1]);
    }
  }

  lemma InodeParts(n: Inode)
    requires ValidInode(n)
    ensures var b := InodeBytes(n);
            && b[0..72] == InodeHead(n) && b[72..168] == DirectRuns(n.runs) && b[168..232] == InodeTail(n)
            && 232 + |NameData(n)| <= BLOCK && b[232..232 + |NameData(n)|] == NameData(n)
            && b[232 + |NameData(n)|..] == Zeros(BLOCK - 232 - |NameData(n)|)
  {
    hide InodeHead, DirectRuns, InodeTail, SmallData;
    var h, d, t, s := InodeHead(n), DirectRuns(n.runs), InodeTail(n), NameData(n);
    assert |s| <= 12 + 1 + MAX_NAME;
    assert InodeBytes(n) == h + d + t + s + Zeros(BLOCK - 232 - |s|);
  }

  lemma HeadParts(n: Inode)
    requires |n.run| == 8 && |n.parent| == 8
    ensures var h := InodeHead(n);
            && h[0..4] == Le(4, INODE_MAGIC) && h[4..12] == n.run && h[20..24] == Le(4, n.mode)
            && h[24..28] == Le(4, INODE_IN_USE) && h[44..52] == n.parent && h[64..68] == Le(4, BLOCK)
            && h[12..16] == Zeros(4) && h[16..20] == Zeros(4) && h[28..36] == Le(8, n.time) && h[36..44] == Le(8, n.time)
            && h[52..60] == ZeroRun() && h[60..64] == Le(4, n.typeCode) && h[68..72] == Zeros(4)
  {
    hide Le, Zeros;
    var a, m, u, t, k, z := Le(4, INODE_MAGIC), Le(4, n.mode), Le(4, INODE_IN_USE), Le(8, n.time), Le(4, n.typeCode), Le(4, BLOCK);
    var h := a + n.run + Zeros(8) + m + u + t + t + n.parent + ZeroRun() + k + z + Zeros(4);
    assert InodeHead(n) == h;
    assert h[0..4] == a;
    assert h[4..12] == n.run;
    assert h[20..24] == m;
    assert h[24..28] == u;
    assert h[44..52] == n.parent;
    assert h[64..68] == z;
    assert h[12..20] == Zeros(8);
    ZerosParts(h);
    assert h[28..36] == t;
    assert h[36..44] == t;
    assert h[52..60] == ZeroRun();
    assert h[60..64] == k;
    assert h[68..72] == Zeros(4);
  }

  lemma ZerosParts(h: seq<byte>)
    requires |h| >= 20 && h[12..20] == Zeros(8)
    ensures h[12..16] == Zeros(4) && h[16..20] == Zeros(4)
  {
    forall i | 12 <= i < 20 ensures h[i] == 0 {
      assert h[i] == h[12..20][i - 12];
    }
  }

  lemma TailParts(n: Inode)
    ensures var t := InodeTail(n);
            && t[0..8] == Le(8, n.covered) && t[8..40] == Zeros(32) && t[40..48] == Le(8, n.size)
            && t[48..56] == Le(8, n.time)
  {
    hide Le, Zeros;
    var c, s, t := Le(8, n.covered), Le(8, n.size), Le(8, n.time);
    assert InodeTail(n) == c + Zeros(32) + s + t + Zeros(8);
  }

  lemma {:induction false} ConcatRunsAt(runs: seq<seq<byte>>, i: nat)
    requires (forall i | 0 <= i < |runs| :: |runs[i]| == 8) && i < |runs|
    ensures ConcatRuns(runs)[8 * i..8 * i + 8] == runs[i]
    decreases |runs|
  {
    var n := |runs| - 1;
    if i < n {
      ConcatRunsAt(runs[..n], i);
      assert ConcatRuns(runs)[8 * i..8 * i + 8] == ConcatRuns(runs[..n])[8 * i..8 * i + 8];
    }
  }

  /** Direct run `i` is the builder's, or zero past the last. */
  lemma DirectRunAt(runs: seq<seq<byte>>, i: nat)
    requires |runs| <= DIRECT_RUNS && (forall i | 0 <= i < |runs| :: |runs[i]| == 8) && i < DIRECT_RUNS
    ensures DirectRuns(runs)[8 * i..8 * i + 8] == if i < |runs| then runs[i] else ZeroRun()
  {
    if i < |runs| {
      ConcatRunsAt(runs, i);
      assert DirectRuns(runs)[8 * i..8 * i + 8] == ConcatRuns(runs)[8 * i..8 * i + 8];
    }
  }

  lemma {:induction false} ZeroField(n: nat)
    ensures UnLe(Zeros(n)) == 0
  {
    if n > 0 {
      assert Zeros(n)[1..] == Zeros(n - 1);
      ZeroField(n - 1);
    }
  }

  lemma ZeroRunReads(buf: seq<byte>, at: nat)
    requires at + 8 <= |buf| && buf[at..at + 8] == ZeroRun()
    ensures LeRun(buf, at) == Run(0, 0, 0)
  {
    SliceOfSlice(buf, at, at + 8, 0, 4);
    SliceOfSlice(buf, at, at + 8, 4, 6);
    SliceOfSlice(buf, at, at + 8, 6, 8);
    assert Zeros(8)[0..4] == Zeros(4) && Zeros(8)[4..6] == Zeros(2) && Zeros(8)[6..8] == Zeros(2);
    ZeroField(4);
    ZeroField(2);
  }

  /** The bytes of direct run `i`. */
  function RunSlot(inode: seq<byte>, i: nat): seq<byte>
    requires |inode| == BLOCK && i < DIRECT_RUNS
  {
    inode[DATA + 8 * i..DATA + 8 * i + 8]
  }

  /** The inode's fields read back as written. */
  lemma InodeFields(n: Inode)
    requires ValidInode(n)
    ensures var b := InodeBytes(n);
            && InodeInUse(b) && Field(b, 20, 4) == n.mode && Field(b, DATA + 136, 8) == n.size
            && b[4..12] == n.run && b[44..52] == n.parent
            && (forall i | 0 <= i < DIRECT_RUNS :: RunSlot(b, i) == if i < |n.runs| then n.runs[i] else ZeroRun())
            && LeRun(b, DATA + 104) == Run(0, 0, 0) && LeRun(b, DATA + 120) == Run(0, 0, 0)
  {
    hide Le, InodeBytes, InodeHead, InodeTail, DirectRuns, LeRun;
    var b := InodeBytes(n);
    InodeParts(n);
    HeadParts(n);
    TailParts(n);
    Powers();
    SliceOfSlice(b, 0, 72, 0, 4);
    FieldIs(b, 0, 4, INODE_MAGIC);
    SliceOfSlice(b, 0, 72, 4, 12);
    SliceOfSlice(b, 0, 72, 20, 24);
    FieldIs(b, 20, 4, n.mode);
    SliceOfSlice(b, 0, 72, 24, 28);
    FieldIs(b, 24, 4, INODE_IN_USE);
    SliceOfSlice(b, 0, 72, 44, 52);
    SliceOfSlice(b, 0, 72, 64, 68);
    FieldIs(b, 64, 4, BLOCK);
    SliceOfSlice(b, 168, 232, 40, 48);
    FieldIs(b, 208, 8, n.size);
    NoIndirectRuns(n);
    forall i | 0 <= i < DIRECT_RUNS
      ensures RunSlot(b, i) == if i < |n.runs| then n.runs[i] else ZeroRun()
    {
      DirectRunAt(n.runs, i);
      SliceOfSlice(b, 72, 168, 8 * i, 8 * i + 8);
    }
  }

  lemma NoIndirectRuns(n: Inode)
    requires ValidInode(n)
    ensures LeRun(InodeBytes(n), DATA + 104) == Run(0, 0, 0) && LeRun(InodeBytes(n), DATA + 120) == Run(0, 0, 0)
  {
    hide Le, InodeBytes, InodeHead, InodeTail, DirectRuns;
    var b := InodeBytes(n);
    InodeParts(n);
    TailParts(n);
    SliceOfSlice(b, 168, 232, 8, 40);
    SliceOfSlice(b, 176, 208, 0, 8);
    SliceOfSlice(b, 176, 208, 16, 24);
    ZeroRunReads(b, 176);
    ZeroRunReads(b, 192);
  }

  lemma NameParts(name: Key)
    requires |name| <= MAX_NAME
    ensures var s := SmallData(FILE_NAME_TYPE, [FILE_NAME_NAME], name);
            && s[4..6] == Le(2, 1) && s[6..8] == Le(2, |name|) && s[8] == FILE_NAME_NAME && s[12..12 + |name|] == name
  {
    hide Le, Zeros;
    NameLayout(Le(4, FILE_NAME_TYPE), Le(2, 1), Le(2, |name|), [FILE_NAME_NAME], Zeros(3), name, Zeros(1));
  }

  lemma NameLayout<T>(a: seq<T>, b: seq<T>, c: seq<T>, d: seq<T>, e: seq<T>, f: seq<T>, g: seq<T>)
    requires |a| == 4 && |b| == 2 && |c| == 2 && |d| == 1 && |e| == 3
    ensures var s := a + b + c + d + e + f + g;
            s[4..6] == b && s[6..8] == c && s[8] == d[0] && s[12..12 + |f|] == f
  {
    var s := a + b + c + d + e + f + g;
    assert s == a + (b + (c + (d + (e + (f + g)))));
  }

  /** The name comes back without its trailing zero bytes; an inode without one has none. */
  lemma NameRoundTrip(n: Inode)
    requires ValidInode(n)
    ensures FileName(InodeBytes(n)) == if n.name.None? then None else Some(Trimmed(n.name.value))
  {
    hide Le, InodeBytes, InodeHead, InodeTail, DirectRuns, SmallData;
    var b := InodeBytes(n);
    InodeParts(n);
    Powers();
    if n.name.None? {
      assert b[232..] == Zeros(BLOCK - 232);
      assert b[236..238] == b[232..][4..6] == Zeros(2);
      ZeroField(2);
    } else {
      var name := n.name.value;
      NameParts(name);
      var s := NameData(n);
      SliceOfSlice(b, 232, 232 + |s|, 4, 6);
      FieldIs(b, 236, 2, 1);
      SliceOfSlice(b, 232, 232 + |s|, 6, 8);
      FieldIs(b, 238, 2, |name|);
      assert b[232..232 + |s|][8] == b[240];
      SliceOfSlice(b, 232, 232 + |s|, 12, 12 + |name|);
    }
  }

  // ----- the builder

  /** The direct runs and the bytes they cover. */
  method PutRuns(buf: array<byte>, ghost pre: seq<byte>, runs: seq<seq<byte>>)
    requires |pre| == 72 && buf.Length == BLOCK && buf[..] == pre + Zeros(BLOCK - 72)
    requires |runs| <= DIRECT_RUNS && forall i | 0 <= i < |runs| :: |runs[i]| == 8
    modifies buf
    ensures buf[..] == pre + DirectRuns(runs) + Zeros(BLOCK - 168)
  {
    assert pre + ConcatRuns(runs[..0]) == pre;
    for index := 0 to |runs|
      invariant buf[..] == pre + ConcatRuns(runs[..index]) + Zeros(BLOCK - 72 - 8 * index)
    {
      assert runs[..index + 1][..index] == runs[..index];
      PutNext(buf, pre + ConcatRuns(runs[..index]), 72 + 8 * index, runs[index]);
      assert pre + ConcatRuns(runs[..index]) + runs[index] == pre + ConcatRuns(runs[..index + 1]);
    }
    assert runs[..|runs|] == runs;
  }

  /** `_inode`. */
  method BuildInode(run: seq<byte>, mode: nat, parent: seq<byte>, size: nat, runs: seq<seq<byte>>, name: Option<Key>,
                    time: nat, typeCode: nat) returns (inode: seq<byte>)
    requires ValidInode(Inode(run, mode, parent, size, runs, 0, name, time, typeCode))
    ensures inode == InodeBytes(Inode(run, mode, parent, size, runs, CoveredBytes(runs), name, time, typeCode))
  {
    hide Le, InodeHead, DirectRuns, InodeTail, SmallData;
    var covered := 0;
    for i := 0 to |runs|
      invariant covered == CoveredBytes(runs[..i])
    {
      assert runs[..i + 1][..i] == runs[..i];
      covered := covered + Field(runs[i], 6, 2) * BLOCK;
    }
    assert runs[..|runs|] == runs;
    var n := Inode(run, mode, parent, size, runs, covered, name, time, typeCode);
    var buf := new byte[BLOCK](_ => 0);
    assert buf[..] == [] + Zeros(BLOCK);
    PutNext(buf, [], 0, InodeHead(n));
    assert [] + InodeHead(n) == InodeHead(n);
    PutRuns(buf, InodeHead(n), runs);
    PutNext(buf, InodeHead(n) + DirectRuns(runs), 168, InodeTail(n));
    var data := NameData(n);
    PutNext(buf, InodeHead(n) + DirectRuns(runs) + InodeTail(n), 232, data);
    inode := buf[..];
  }

  /** `max_direct_range`: the bytes the runs' lengths cover. */
  function CoveredBytes(runs: seq<seq<byte>>): nat
    requires forall i | 0 <= i < |runs| :: |runs[i]| == 8
  {
    if runs == [] then 0 else CoveredBytes(runs[..|runs| - 1]) + Field(runs[|runs| - 1], 6, 2) * BLOCK
  }
}
