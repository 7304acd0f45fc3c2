/** The superblock, and the guest's side of it: opening a volume, reading an inode, its data
    stream, and walking a path from the root. */
module Mount {
  import opened Bytes
  import opened Geometry
  import opened NodeCodec
  import opened Inode

  const SECTOR: nat := 512
  const MAGIC1: nat := 0x4246_5331
  const MAGIC2: nat := 0xDD12_1031
  const MAGIC3: nat := 0x15B6_830E
  const BYTE_ORDER: nat := 0x4249_4745
  const CLEAN: nat := 0x434C_454E
  const BLOCK_SHIFT: nat := 11

  // ----- the superblock

  /** The first 31 bytes of the label, zero-filled to 32. */
  function LabelField(title: seq<byte>): (s: seq<byte>)
    ensures |s| == 32
  {
    var cut := if |title| < 31 then title else title[..31];
    cut + Zeros(32 - |cut|)
  }

  datatype Super = Super(numBlocks: nat, used: nat, geometry: Geometry, logStart: nat, logSize: nat, root: nat, indices: nat)

  /** Offsets 32 to 72. */
  function SuperFirst(s: Super): (r: seq<byte>)
    ensures |r| == 40
  {
    Le(4, MAGIC1) + Le(4, BYTE_ORDER) + Le(4, BLOCK) + Le(4, BLOCK_SHIFT) + Le(8, s.numBlocks) + Le(8, s.used) +
    Le(4, BLOCK) + Le(4, MAGIC2)
  }

  /** Offsets 72 to 132. */
  function SuperSecond(s: Super): (r: seq<byte>)
    ensures |r| == 60
  {
    var g := s.geometry;
    Le(4, g.perGroup) + Le(4, g.shift) + Le(4, g.groups) + Le(4, CLEAN) + RunBytes(s.logStart, s.logSize, g.shift) +
    Le(8, s.logStart) + Le(8, s.logStart) + Le(4, MAGIC3) + RunBytes(s.root, 1, g.shift) + RunBytes(s.indices, 1, g.shift)
  }

  function SuperBytes(title: seq<byte>, s: Super): (r: seq<byte>)
    ensures |r| == SECTOR
  {
    LabelField(title) + SuperFirst(s) + SuperSecond(s) + Zeros(SECTOR - 132)
  }

  // ----- opening

  datatype Mounted = Mounted(numBlocks: nat, used: nat, shift: nat, root: nat, indices: nat)

  /** `open`: the superblock's magics and geometry, refused when they do not agree. */
  function Open(vol: seq<byte>): Option<Mounted>
  {
    if |vol| < 2 * SECTOR then None
    else
      var sb := vol[SECTOR..2 * SECTOR];
      var blockSize, shift, groups, numBlocks := Field(sb, 40, 4), Field(sb, 76, 4), Field(sb, 80, 4), Field(sb, 48, 8);
      if Field(sb, 32, 4) != MAGIC1 || Field(sb, 68, 4) != MAGIC2 || Field(sb, 112, 4) != MAGIC3
         || Field(sb, 36, 4) != BYTE_ORDER then None
      else if blockSize != BLOCK || Field(sb, 64, 4) != blockSize || Field(sb, 44, 4) != BLOCK_SHIFT then None
      else if shift < 1 || shift > 30 || groups < 1 || Field(sb, 72, 4) < 1 || numBlocks < 10 then None
      else if groups != CeilDiv(numBlocks, Pow2(shift)) then None
      else Some(Mounted(numBlocks, Field(sb, 56, 8), shift, ToBlock(LeRun(sb, 116), shift), ToBlock(LeRun(sb, 124), shift)))
  }

  lemma FirstParts(s: Super)
    ensures var r := SuperFirst(s);
            && r[0..4] == Le(4, MAGIC1) && r[4..8] == Le(4, BYTE_ORDER) && r[8..12] == Le(4, BLOCK)
            && r[12..16] == Le(4, BLOCK_SHIFT) && r[16..24] == Le(8, s.numBlocks) && r[24..32] == Le(8, s.used)
            && r[32..36] == Le(4, BLOCK) && r[36..40] == Le(4, MAGIC2)
  {
    hide Le;
    var a, b, c, d := Le(4, MAGIC1), Le(4, BYTE_ORDER), Le(4, BLOCK), Le(4, BLOCK_SHIFT);
    var e, f, g, h := Le(8, s.numBlocks), Le(8, s.used), Le(4, BLOCK), Le(4, MAGIC2);
    var r := a + b + c + d + e + f + g + h;
    assert SuperFirst(s) == r;
    assert r[0..4] == a;
    assert r[4..8] == b;
    assert r[8..12] == c;
    assert r[12..16] == d;
    assert r[16..24] == e;
    assert r[24..32] == f;
    assert r[32..36] == g;
  }

  lemma SecondParts(s: Super)
    ensures var r, g := SuperSecond(s), s.geometry;
            && r[0..4] == Le(4, g.perGroup) && r[4..8] == Le(4, g.shift) && r[8..12] == Le(4, g.groups)
            && r[40..44] == Le(4, MAGIC3) && r[44..52] == RunBytes(s.root, 1, g.shift)
            && r[52..60] == RunBytes(s.indices, 1, g.shift)
            && r[12..16] == Le(4, CLEAN) && r[16..24] == RunBytes(s.logStart, s.logSize, g.shift)
            && r[24..32] == Le(8, s.logStart) && r[32..40] == Le(8, s.logStart)
  {
    hide Le, RunBytes;
    var g := s.geometry;
    var a, b, c, d, e := Le(4, g.perGroup), Le(4, g.shift), Le(4, g.groups), Le(4, CLEAN), RunBytes(s.logStart, s.logSize, g.shift);
    var f, m, x, y := Le(8, s.logStart), Le(4, MAGIC3), RunBytes(s.root, 1, g.shift), RunBytes(s.indices, 1, g.shift);
    var r := a + b + c + d + e + f + f + m + x + y;
    assert SuperSecond(s) == r;
    assert r[0..4] == a;
    assert r[4..8] == b;
    assert r[8..12] == c;
    assert r[40..44] == m;
    assert r[44..52] == x;
    assert r[52..60] == y;
    assert r[12..16] == d;
    assert r[16..24] == e;
    assert r[24..32] == f;
    assert r[32..40] == f;
  }

  lemma SuperParts(title: seq<byte>, s: Super)
    ensures var r := SuperBytes(title, s); r[0..32] == LabelField(title) && r[32..72] == SuperFirst(s) && r[72..132] == SuperSecond(s)
  {
    hide LabelField, SuperFirst, SuperSecond;
    var r := LabelField(title) + SuperFirst(s) + SuperSecond(s) + Zeros(SECTOR - 132);
    assert r[0..32] == LabelField(title);
    assert r[32..72] == SuperFirst(s);
    assert r[72..132] == SuperSecond(s);
  }

  /** A superblock a mount accepts. */
  ghost predicate SuperFits(s: Super)
  {
    && 10 <= s.numBlocks < MAX_BLOCKS && s.used < TWO64 && s.geometry == GeometryOf(s.numBlocks)
    && s.root < MAX_BLOCKS && s.indices < MAX_BLOCKS
  }

  lemma FirstFields(b: seq<byte>, s: Super)
    requires |b| == SECTOR && b[32..72] == SuperFirst(s) && s.numBlocks < TWO64 && s.used < TWO64
    ensures Field(b, 32, 4) == MAGIC1 && Field(b, 36, 4) == BYTE_ORDER && Field(b, 40, 4) == BLOCK
    ensures Field(b, 44, 4) == BLOCK_SHIFT && Field(b, 48, 8) == s.numBlocks && Field(b, 56, 8) == s.used
    ensures Field(b, 64, 4) == BLOCK && Field(b, 68, 4) == MAGIC2
  {
    hide Le, SuperFirst, Field;
    FirstParts(s);
    Powers();
    SliceOfSlice(b, 32, 72, 0, 4);
    FieldIs(b, 32, 4, MAGIC1);
    SliceOfSlice(b, 32, 72, 4, 8);
    FieldIs(b, 36, 4, BYTE_ORDER);
    SliceOfSlice(b, 32, 72, 8, 12);
    FieldIs(b, 40, 4, BLOCK);
    SliceOfSlice(b, 32, 72, 12, 16);
    FieldIs(b, 44, 4, BLOCK_SHIFT);
    SliceOfSlice(b, 32, 72, 16, 24);
    FieldIs(b, 48, 8, s.numBlocks);
    SliceOfSlice(b, 32, 72, 24, 32);
    FieldIs(b, 56, 8, s.used);
    SliceOfSlice(b, 32, 72, 32, 36);
    FieldIs(b, 64, 4, BLOCK);
    SliceOfSlice(b, 32, 72, 36, 40);
    FieldIs(b, 68, 4, MAGIC2);
  }

  lemma SecondFields(b: seq<byte>, s: Super)
    requires |b| == SECTOR && b[72..132] == SuperSecond(s) && SuperFits(s)
    ensures Field(b, 72, 4) == s.geometry.perGroup >= 1 && Field(b, 76, 4) == s.geometry.shift
    ensures Field(b, 80, 4) == s.geometry.groups && Field(b, 112, 4) == MAGIC3
    ensures ToBlock(LeRun(b, 116), s.geometry.shift) == s.root && ToBlock(LeRun(b, 124), s.geometry.shift) == s.indices
  {
    hide Le, SuperSecond, Field, RunBytes, ToBlock, Pow2, GrowGroups;
    SecondParts(s);
    Powers();
    GeometryCases(s.numBlocks);
    SliceOfSlice(b, 72, 132, 0, 4);
    FieldIs(b, 72, 4, s.geometry.perGroup);
    SliceOfSlice(b, 72, 132, 4, 8);
    FieldIs(b, 76, 4, s.geometry.shift);
    SliceOfSlice(b, 72, 132, 8, 12);
    FieldIs(b, 80, 4, s.geometry.groups);
    SliceOfSlice(b, 72, 132, 40, 44);
    FieldIs(b, 112, 4, MAGIC3);
    SliceOfSlice(b, 72, 132, 44, 52);
    RunFields(s.root, 1, s.geometry.shift, b, 116);
    SliceOfSlice(b, 72, 132, 52, 60);
    RunFields(s.indices, 1, s.geometry.shift, b, 124);
  }

  // ----- the rest of the superblock

  /** What `open` keeps beside the geometry: the name, the state, and the log with where it begins
      and ends. */
  datatype Details = Details(name: seq<byte>, state: nat, log: Run, logStart: nat, logEnd: nat)

  function DetailsOf(vol: seq<byte>): Details
    requires |vol| >= 2 * SECTOR
  {
    var sb := vol[SECTOR..2 * SECTOR];
    Details(sb[0..32], Field(sb, 84, 4), LeRun(sb, 88), Field(sb, 96, 8), Field(sb, 104, 8))
  }

  lemma LogFields(b: seq<byte>, s: Super)
    requires |b| == SECTOR && b[72..132] == SuperSecond(s)
    requires s.logStart < MAX_BLOCKS && s.logSize < TWO16 && 14 <= s.geometry.shift <= 16
    ensures Field(b, 84, 4) == 0x434C_454E && Field(b, 96, 8) == Field(b, 104, 8) == s.logStart
    ensures ToBlock(LeRun(b, 88), s.geometry.shift) == s.logStart && LeRun(b, 88).length == s.logSize
  {
    hide Le, SuperSecond, Field, RunBytes, ToBlock, Pow2;
    SecondParts(s);
    Powers();
    SliceOfSlice(b, 72, 132, 12, 16);
    FieldIs(b, 84, 4, CLEAN);
    SliceOfSlice(b, 72, 132, 16, 24);
    RunFields(s.logStart, s.logSize, s.geometry.shift, b, 88);
    SliceOfSlice(b, 72, 132, 24, 32);
    FieldIs(b, 96, 8, s.logStart);
    SliceOfSlice(b, 72, 132, 32, 40);
    FieldIs(b, 104, 8, s.logStart);
  }

  /** A written superblock is clean, its log is empty and where it was given, and its name is as
      much of the label as leaves room for a zero byte. */
  lemma DetailsRoundTrip(vol: seq<byte>, title: seq<byte>, s: Super)
    requires |vol| >= 2 * SECTOR && vol[SECTOR..2 * SECTOR] == SuperBytes(title, s)
    requires s.logStart < MAX_BLOCKS && s.logSize < TWO16 && 14 <= s.geometry.shift <= 16
    ensures var d := DetailsOf(vol);
            && d.state == 0x434C_454E && d.logStart == d.logEnd == s.logStart
            && ToBlock(d.log, s.geometry.shift) == s.logStart && d.log.length == s.logSize
            && |d.name| == 32
            && forall i | 0 <= i < 32 :: d.name[i] == if i < 31 && i < |title| then title[i] else 0
  {
    hide SuperBytes, Field, LeRun, ToBlock;
    var b := SuperBytes(title, s);
    SuperParts(title, s);
    LogFields(b, s);
  }

  /** A written superblock opens, with the geometry, the count and the two roots it was given. */
  lemma OpenRoundTrip(vol: seq<byte>, title: seq<byte>, s: Super)
    requires SuperFits(s) && |vol| >= 2 * SECTOR && vol[SECTOR..2 * SECTOR] == SuperBytes(title, s)
    ensures Open(vol) == Some(Mounted(s.numBlocks, s.used, s.geometry.shift, s.root, s.indices))
  {
    hide SuperBytes, Field, LeRun, ToBlock, GrowGroups, Pow2, CeilDiv;
    SuperParts(title, s);
    var b := SuperBytes(title, s);
    FirstFields(b, s);
    SecondFields(b, s);
    GeometryFits(s.numBlocks);
    AtLeastOneGroup(s.numBlocks);
  }

  /** The bytes by which a superblock is known: the magics, the byte order, and blocks and inodes of
      2048 bytes. */
  ghost predicate Identified(sb: seq<byte>)
    requires |sb| == SECTOR
  {
    && sb[32..36] == [0x31, 0x53, 0x46, 0x42] && sb[68..72] == [0x31, 0x10, 0x12, 0xDD]
    && sb[112..116] == [0x0E, 0x83, 0xB6, 0x15] && sb[36..40] == [0x45, 0x47, 0x49, 0x42]
    && sb[40..44] == sb[64..68] == [0, 8, 0, 0] && sb[44..48] == [11, 0, 0, 0]
  }

  /** Any bytes mount exactly when their superblock is known by these, there are ten blocks and a
      group shift from 1 to 30, and the groups are just as many as cover the blocks. */
  lemma OpensIff(vol: seq<byte>)
    ensures Open(vol).Some? <==>
            |vol| >= 1024 &&
            var sb := vol[512..1024]; var shift, groups, blocks := Field(sb, 76, 4), Field(sb, 80, 4), Field(sb, 48, 8);
            && Identified(sb) && 1 <= shift <= 30 && Field(sb, 72, 4) >= 1 && blocks >= 10
            && (groups - 1) * Pow2(shift) < blocks <= groups * Pow2(shift)
  {
    hide Field, Pow2, CeilDiv, ToBlock, LeRun, Identified;
    if |vol| >= 1024 {
      var sb := vol[512..1024];
      var shift, groups, blocks := Field(sb, 76, 4), Field(sb, 80, 4), Field(sb, 48, 8);
      IdentifiedIff(sb);
      if (groups - 1) * Pow2(shift) < blocks <= groups * Pow2(shift) {
        CeilUnique(blocks, Pow2(shift), groups);
      }
    }
  }

  lemma IdentifiedIff(sb: seq<byte>)
    requires |sb| == SECTOR
    ensures Identified(sb) <==>
            && Field(sb, 32, 4) == MAGIC1 && Field(sb, 68, 4) == MAGIC2 && Field(sb, 112, 4) == MAGIC3 && Field(sb, 36, 4) == BYTE_ORDER
            && Field(sb, 40, 4) == Field(sb, 64, 4) == BLOCK && Field(sb, 44, 4) == BLOCK_SHIFT
  {
    hide Field;
    Spells(sb, 32, [0x31, 0x53, 0x46, 0x42]);
    Spells(sb, 68, [0x31, 0x10, 0x12, 0xDD]);
    Spells(sb, 112, [0x0E, 0x83, 0xB6, 0x15]);
    Spells(sb, 36, [0x45, 0x47, 0x49, 0x42]);
    Spells(sb, 40, [0, 8, 0, 0]);
    Spells(sb, 64, [0, 8, 0, 0]);
    Spells(sb, 44, [11, 0, 0, 0]);
  }

  lemma Spells(sb: seq<byte>, at: nat, word: seq<byte>)
    requires |word| == 4 && at + 4 <= |sb|
    ensures var a: int, b: int, c: int, d: int := word[0], word[1], word[2], word[3];
            sb[at..at + 4] == word <==> Field(sb, at, 4) == a + 0x100 * b + 0x1_0000 * c + 0x100_0000 * d
  {
    hide Le;
    assert word[1..][1..] == word[2..] && word[2..][1..] == word[3..] && word[3..][1..] == [];
    assert UnLe(word[3..]) == word[3];
    assert UnLe(word[2..]) == word[2] + 256 * UnLe(word[3..]);
    assert UnLe(word[1..]) == word[1] + 256 * UnLe(word[2..]);
    assert UnLe(word) == word[0] + 256 * UnLe(word[1..]);
    UnLeRoundTrip(word);
    UnLeRoundTrip(sb[at..at + 4]);
  }

  lemma AtLeastOneGroup(numBlocks: nat)
    requires numBlocks >= 1
    ensures GeometryOf(numBlocks).groups >= 1
  {
    GeometryCases(numBlocks);
  }
}
