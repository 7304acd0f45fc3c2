/** What the guest learns of an inode: `read_inode`'s record, and the record of every inode that a
    built volume holds. */
module InodeRecord {
  import opened Bytes
  import opened Keys
  import opened Geometry
  import opened Image
  import opened NodeCodec
  import opened IndexReader
  import opened Inode
  import opened Layout
  import opened VolumePlan
  import opened Mount
  import opened VolumeReader
  import opened RoundTrip
  import opened BuiltVolume
  import opened VolumeReads
  import opened IndexAgreement
  import opened StoredIndices
  import opened VolumeIndices
  import opened VolumeListing

  // ----- read_inode

  datatype Record = Record(mode: nat, uid: nat, gid: nat, typeCode: nat, mtime: int, size: int, run: Run, parent: Run,
                           attributes: Run, name: Option<Key>)

  /** Eight bytes as a signed number. */
  function Signed64(v: nat): int { if v < 0x8000_0000_0000_0000 then v else v - TWO64 }

  /** The fields, where the format has them. */
  function RecordOf(block: seq<byte>): Record
    requires |block| == BLOCK
  {
    Record(Field(block, 20, 4), Field(block, 12, 4), Field(block, 16, 4), Field(block, 60, 4), Signed64(Field(block, 36, 8)),
           Signed64(Field(block, 208, 8)), LeRun(block, 4), LeRun(block, 44), LeRun(block, 52), FileName(block))
  }

  /** `read_inode`: a live inode in the volume, and its record. */
  function Recorded(vol: seq<byte>, m: Mounted, block: nat): Option<Record>
  {
    match ReadInode(vol, m, block)
    case None => None
    case Some(inode) => Some(RecordOf(inode))
  }

  lemma HeadReads(n: Inode)
    requires ValidInode(n) && n.time < TWO64 && n.typeCode < TWO32
    ensures var b := InodeBytes(n);
            && Field(b, 20, 4) == n.mode && Field(b, 12, 4) == 0 && Field(b, 16, 4) == 0 && Field(b, 60, 4) == n.typeCode
            && Field(b, 28, 8) == n.time && Field(b, 36, 8) == n.time && b[4..12] == n.run && b[44..52] == n.parent
            && b[52..60] == ZeroRun()
  {
    hide Le, InodeBytes, InodeHead, InodeTail, DirectRuns, Field;
    var b := InodeBytes(n);
    InodeParts(n);
    HeadParts(n);
    Powers();
    SliceOfSlice(b, 0, 72, 4, 12);
    SliceOfSlice(b, 0, 72, 12, 16);
    SliceOfSlice(b, 0, 72, 16, 20);
    ZeroAt(b, 12);
    ZeroAt(b, 16);
    SliceOfSlice(b, 0, 72, 20, 24);
    FieldIs(b, 20, 4, n.mode);
    SliceOfSlice(b, 0, 72, 28, 36);
    FieldIs(b, 28, 8, n.time);
    SliceOfSlice(b, 0, 72, 36, 44);
    FieldIs(b, 36, 8, n.time);
    SliceOfSlice(b, 0, 72, 44, 52);
    SliceOfSlice(b, 0, 72, 52, 60);
    SliceOfSlice(b, 0, 72, 60, 64);
    FieldIs(b, 60, 4, n.typeCode);
  }

  lemma ZeroAt(b: seq<byte>, at: nat)
    requires at + 4 <= |b| && b[at..at + 4] == Zeros(4)
    ensures Field(b, at, 4) == 0
  {
    ZeroField(4);
  }

  lemma TailReads(n: Inode)
    requires ValidInode(n) && n.time < TWO64 && n.covered < TWO64
    ensures var b := InodeBytes(n); Field(b, 168, 8) == n.covered && Field(b, 208, 8) == n.size && Field(b, 216, 8) == n.time
  {
    hide Le, InodeBytes, InodeHead, InodeTail, DirectRuns, Field;
    var b := InodeBytes(n);
    InodeParts(n);
    TailParts(n);
    Powers();
    SliceOfSlice(b, 168, 232, 0, 8);
    FieldIs(b, 168, 8, n.covered);
    SliceOfSlice(b, 168, 232, 40, 48);
    FieldIs(b, 208, 8, n.size);
    SliceOfSlice(b, 168, 232, 48, 56);
    FieldIs(b, 216, 8, n.time);
  }

  /** What was written, every field in its place: the owner and group are 0, there are no
      attributes, the three times are the one given, and the direct range is what the runs cover. */
  lemma RecordReads(n: Inode, block: nat, parent: nat, shift: nat)
    requires ValidInode(n) && n.time < 0x8000_0000_0000_0000 && n.typeCode < TWO32 && n.size < 0x8000_0000_0000_0000
    requires n.covered < TWO64 && n.run == RunBytes(block, 1, shift) && n.parent == RunBytes(parent, 1, shift)
    requires block < MAX_BLOCKS && parent < MAX_BLOCKS && 14 <= shift <= 16
    ensures var r := RecordOf(InodeBytes(n));
            && r.mode == n.mode && r.uid == 0 && r.gid == 0 && r.typeCode == n.typeCode && r.mtime == n.time && r.size == n.size
            && ToBlock(r.run, shift) == block && r.run.length == 1 && ToBlock(r.parent, shift) == parent && r.parent.length == 1
            && r.attributes == Run(0, 0, 0) && r.name == if n.name.None? then None else Some(Trimmed(n.name.value))
    ensures var b := InodeBytes(n);
            Field(b, 28, 8) == n.time && Field(b, 216, 8) == n.time && Field(b, 168, 8) == n.covered && Field(b, 208, 8) == n.size
  {
    hide InodeBytes, Field, RunBytes, LeRun, ToBlock, FileName;
    var b := InodeBytes(n);
    HeadReads(n);
    TailReads(n);
    RunFields(block, 1, shift, b, 4);
    RunFields(parent, 1, shift, b, 44);
    ZeroRunReads(b, 52);
    NameRoundTrip(n);
  }

  // ----- the inodes of entries

  /** The record of an entry: a plain file that its owner may write and all may read, or a
      directory of string keys that all may search, made and changed at the fixture's time by
      user 0, without attributes. */
  ghost predicate EntryRecord(r: Record, item: Item, block: nat, parent: nat, shift: nat)
  {
    && r.mode == (if item.File? then 0x81A4 else 0x100_41ED) && r.uid == 0 && r.gid == 0 && r.typeCode == 0
    && r.mtime == 1790329260 * 65536 && (item.File? ==> r.size == |item.content|)
    && ToBlock(r.run, shift) == block && r.run.length == 1 && ToBlock(r.parent, shift) == parent && r.parent.length == 1
    && r.attributes == Run(0, 0, 0)
  }

  /** The other times and the direct range, of which the record has nothing. */
  ghost predicate EntryBytes(b: seq<byte>, item: Item)
    requires |b| == BLOCK
  {
    && Field(b, 0, 4) == 0x3BBE_0AD9 && Field(b, 24, 4) % 2 == 1 && Field(b, 64, 4) == 2048
    && Field(b, 28, 8) == Field(b, 216, 8) == 1790329260 * 65536
    && (item.File? ==> Field(b, 168, 8) == (|item.content| + 2047) / 2048 * 2048)
    && (item.Dir? ==> Field(b, 168, 8) == Field(b, 208, 8))
  }

  lemma OneRunCovers(base: nat, count: nat, shift: nat)
    requires count < TWO16
    ensures CoveredBytes([RunBytes(base, count, shift)]) == count * BLOCK && CoveredBytes([]) == 0
  {
    hide Le;
    var runs: seq<seq<byte>> := [RunBytes(base, count, shift)];
    assert runs[..0] == [];
    RunLength(base, count, shift);
  }

  lemma RunLength(base: nat, count: nat, shift: nat)
    requires count < TWO16
    ensures Field(RunBytes(base, count, shift), 6, 2) == count
  {
    hide Le, GroupOf, StartOf;
    var r := RunBytes(base, count, shift);
    assert r[6..8] == Le(2, count);
    Powers();
    FieldIs(r, 6, 2, count);
  }

  lemma FileRecord(vol: seq<byte>, m: Mounted, l: Loc, item: Item, parent: nat, name: Option<Key>)
    requires Standing(vol, m, l, item, parent, name) && item.File?
    ensures ReadInode(vol, m, l.block).Some?
    ensures var b := ReadInode(vol, m, l.block).value;
            EntryRecord(RecordOf(b), item, l.block, parent, m.shift) && EntryBytes(b, item) && RecordOf(b).name == Some(Trimmed(l.name))
  {
    hide InodesOf, DataOf, AllHeld, InodeBytes, RunBytes, Describe, Stream, RecordOf, CoveredBytes, Field, ToBlock;
    FileIsRead(vol, m, l, parent, name);
    var n := FileInode(l, parent, m.shift);
    if l.content != [] {
      OneRunCovers(l.base, Blocks(|l.content|), m.shift);
    } else {
      OneRunCovers(0, 0, 0);
    }
    SizeFits(|l.content|);
    RecordReads(n, l.block, parent, m.shift);
  }

  lemma SizeFits(length: nat)
    requires Blocks(length) <= MAX_RUN
    ensures length <= MAX_RUN * BLOCK
  {
  }

  lemma DirRecord(vol: seq<byte>, m: Mounted, l: Loc, item: Item, parent: nat, name: Option<Key>)
    requires Standing(vol, m, l, item, parent, name) && item.Dir? && (name.Some? ==> |name.value| <= MAX_NAME)
    ensures ReadInode(vol, m, l.block).Some?
    ensures var b := ReadInode(vol, m, l.block).value;
            && EntryRecord(RecordOf(b), item, l.block, parent, m.shift) && EntryBytes(b, item)
            && RecordOf(b).name == (if name.None? then None else Some(Trimmed(name.value)))
            && Stream(vol, b, m.shift).Some? && RecordOf(b).size == |Stream(vol, b, m.shift).value|
  {
    hide InodesOf, DataOf, AllHeld, InodeBytes, RunBytes, Describe, Stream, RecordOf, CoveredBytes, Field, ToBlock, DirStream, Matches, Blocks;
    StandingShape(vol, m, l, item, parent, name);
    DirIsRead(vol, m, l, parent, name);
    var n, stream := DirInode(l, parent, name, m.shift), DirStream(l.children, l.block, parent);
    WholeStream(l.children, l.block, parent);
    OneRunCovers(l.base, Blocks(|stream|), m.shift);
    SizeFits(|stream|);
    RecordReads(n, l.block, parent, m.shift);
  }

  // ----- every entry of a volume

  /** The block of the directory that a way's last name is in. */
  function DirectoryOf(root: Loc, way: seq<Key>): Option<nat>
    requires root.DirLoc? && way != []
  {
    if |way| == 1 then Some(root.block) else BlockOf(LocAt(root.children, way[..|way| - 1]))
  }

  lemma {:induction false} WayStands(vol: seq<byte>, m: Mounted, l: Loc, item: Item, parent: nat, name: Option<Key>, way: seq<Key>)
    returns (parent': nat)
    requires Standing(vol, m, l, item, parent, name) && item.Dir? && l.DirLoc? && way != [] && ItemAt(item, way).Some?
    ensures LocAt(l.children, way).Some? && LocAt(l.children, way).value.name == way[|way| - 1]
    ensures Standing(vol, m, LocAt(l.children, way).value, ItemAt(item, way).value, parent', Some(way[|way| - 1]))
    ensures DirectoryOf(l, way) == Some(parent')
    decreases |way|
  {
    hide Standing, Matches;
    StandingShape(vol, m, l, item, parent, name);
    SameStep(l, item, way[0]);
    var i := ItemNamed(item.children, way[0]).value;
    var child, below := l.children[i], item.children[i];
    ChildStanding(vol, m, l, item, parent, name, i);
    StandingShape(vol, m, child, below, l.block, Some(child.name));
    FileShape(child, below);
    if |way| == 1 {
      parent' := l.block;
      assert ItemAt(below, way[1..]) == Some(below);
    } else {
      parent' := WayStands(vol, m, child, below, l.block, Some(child.name), way[1..]);
      DirectoryBelow(l, child, way);
    }
  }

  lemma DirectoryBelow(l: Loc, child: Loc, way: seq<Key>)
    requires l.DirLoc? && child.DirLoc? && |way| > 1 && ChildNamed(l.children, way[0]).Some?
    requires child == l.children[ChildNamed(l.children, way[0]).value]
    ensures DirectoryOf(l, way) == DirectoryOf(child, way[1..])
  {
    var front := way[..|way| - 1];
    assert front[1..] == way[1..][..|way| - 2];
  }

  /** The inode of every entry of a built volume: a path of names leads through the tree to it, and
      reading it gives the entry's kind and size, the fixture's time, owner 0, no attributes, its
      own block, its directory's, and its name without trailing zero bytes. */
  lemma EntryRecorded(vol: seq<byte>, size: nat, title: seq<byte>, v: Volume, items: seq<Item>, way: seq<Key>)
    requires BuiltFrom(vol, size, title, v, items) && v.root.DirLoc? && way != [] && ItemAt(Dir([], items), way).Some?
    ensures Open(vol).Some? && LocAt(v.root.children, way).Some? && DirectoryOf(v.root, way).Some?
    ensures var m, item, block := Open(vol).value, ItemAt(Dir([], items), way).value, LocAt(v.root.children, way).value.block;
            && ReadInode(vol, m, block).Some?
            && var b := ReadInode(vol, m, block).value;
               && EntryRecord(RecordOf(b), item, block, DirectoryOf(v.root, way).value, m.shift) && EntryBytes(b, item)
               && RecordOf(b).name == Some(Trimmed(way[|way| - 1]))
  {
    hide Placed, Regions, Streams, Matches, Open, Standing, ReadInode, RecordOf, EntryRecord, EntryBytes, ItemAt, LocAt, DirectoryOf;
    Mounts(vol, size, title, v);
    RootStanding(vol, size, title, v, items);
    var m, top := MountOf(v, size), Dir([], items);
    var parent := WayStands(vol, m, v.root, top, v.root.block, None, way);
    StandingRecorded(vol, m, LocAt(v.root.children, way).value, ItemAt(top, way).value, parent, way[|way| - 1]);
  }

  lemma StandingRecorded(vol: seq<byte>, m: Mounted, l: Loc, item: Item, parent: nat, name: Key)
    requires Standing(vol, m, l, item, parent, Some(name)) && l.name == name
    ensures ReadInode(vol, m, l.block).Some?
    ensures var b := ReadInode(vol, m, l.block).value;
            EntryRecord(RecordOf(b), item, l.block, parent, m.shift) && EntryBytes(b, item) && RecordOf(b).name == Some(Trimmed(name))
  {
    hide Standing, RecordOf, EntryRecord, EntryBytes, Stream;
    StandingShort(vol, m, l, item, parent, Some(name));
    if item.File? {
      FileRecord(vol, m, l, item, parent, Some(name));
    } else {
      DirRecord(vol, m, l, item, parent, Some(name));
    }
  }

  lemma StandingShort(vol: seq<byte>, m: Mounted, l: Loc, item: Item, parent: nat, name: Option<Key>)
    requires Standing(vol, m, l, item, parent, name)
    ensures |l.name| <= MAX_NAME
  {
    hide InodesOf, DataOf, AllHeld, Laid, Matches;
  }

  /** And the root's, which has no name and is its own directory. */
  lemma RootRecorded(vol: seq<byte>, size: nat, title: seq<byte>, v: Volume, items: seq<Item>)
    requires BuiltFrom(vol, size, title, v, items)
    ensures Open(vol).Some? && ReadInode(vol, Open(vol).value, Open(vol).value.root).Some?
    ensures var m := Open(vol).value; var b := ReadInode(vol, m, m.root).value;
            EntryRecord(RecordOf(b), Dir([], items), m.root, m.root, m.shift) && EntryBytes(b, Dir([], items)) && RecordOf(b).name == None
  {
    hide Placed, Regions, Streams, Matches, Open, Standing, ReadInode, RecordOf, EntryRecord, EntryBytes, Stream;
    Mounts(vol, size, title, v);
    RootStanding(vol, size, title, v, items);
    DirRecord(vol, MountOf(v, size), v.root, Dir([], items), v.root.block, None);
  }

  // ----- what the indices say of them

  lemma {:induction false} LocHasItem(l: Loc, item: Item, way: seq<Key>)
    requires Matches(l, item) && item.Dir? && l.DirLoc? && way != [] && LocAt(l.children, way).Some?
    ensures ItemAt(item, way).Some? && Matches(LocAt(l.children, way).value, ItemAt(item, way).value)
    decreases |way|
  {
    SameStep(l, item, way[0]);
    var i := ItemNamed(item.children, way[0]).value;
    assert Matches(l.children[i], item.children[i]);
    if |way| == 1 {
      assert ItemAt(item.children[i], way[1..]) == Some(item.children[i]);
    } else {
      LocHasItem(l.children[i], item.children[i], way[1..]);
    }
  }

  lemma WithinRecorded(vol: seq<byte>, size: nat, title: seq<byte>, v: Volume, items: seq<Item>, l: Loc)
    requires BuiltFrom(vol, size, title, v, items) && v.root.DirLoc? && Within(v.root.children, l)
    ensures Open(vol).Some? && ReadInode(vol, Open(vol).value, l.block).Some?
    ensures var r := RecordOf(ReadInode(vol, Open(vol).value, l.block).value);
            && r.mtime == FIXTURE_TIME && r.name == Some(Trimmed(l.name)) && (l.FileLoc? ==> r.size == |l.content|)
  {
    hide Placed, Regions, Streams, Matches, Open, Standing, ReadInode, RecordOf, EntryBytes, ItemAt, LocAt, DirectoryOf, Within, LegalTree,
         IndexIn, NAME, SIZE, LAST_MODIFIED;
    BuiltParts(vol, size, title, v, items);
    var way := WayTo(v.root.children, l);
    LocHasItem(v.root, Dir([], items), way);
    EntryRecorded(vol, size, title, v, items, way);
    MatchedFile(l, ItemAt(Dir([], items), way).value);
    FileShape(l, ItemAt(Dir([], items), way).value);
  }

  /** Every pair of the last_modified index has for its key the time read from the inode it names. */
  lemma TimeKeyIsTime(vol: seq<byte>, size: nat, title: seq<byte>, v: Volume, items: seq<Item>, e: Entry)
    requires BuiltFrom(vol, size, title, v, items)
    ensures Open(vol).Some? && IndexIn(vol, Open(vol).value, LAST_MODIFIED).Some?
    ensures var m := Open(vol).value;
            e in IndexPairs(IndexIn(vol, m, LAST_MODIFIED).value) ==>
              && ReadInode(vol, m, e.value).Some?
              && var r := RecordOf(ReadInode(vol, m, e.value).value);
                 r.mtime >= 0 && e.key == Int64(r.mtime)
  {
    hide Placed, Regions, Streams, Matches, Open, Standing, ReadInode, RecordOf, Within, LegalTree, IndexIn, IndexPairs, TimesOf, Int64,
         OnePerInode, NAME, SIZE, LAST_MODIFIED;
    BuiltParts(vol, size, title, v, items);
    GatheredPairs(v, size);
    TimesExact(v.root.children, e);
    if e in TimesOf(v.root.children) {
      var l :| Within(v.root.children, l) && l.FileLoc? && e == Entry(Int64(FIXTURE_TIME), l.block);
      WithinRecorded(vol, size, title, v, items, l);
    }
  }

  /** And of the size index, the size. */
  lemma SizeKeyIsSize(vol: seq<byte>, size: nat, title: seq<byte>, v: Volume, items: seq<Item>, e: Entry)
    requires BuiltFrom(vol, size, title, v, items)
    ensures Open(vol).Some? && IndexIn(vol, Open(vol).value, SIZE).Some?
    ensures var m := Open(vol).value;
            e in IndexPairs(IndexIn(vol, m, SIZE).value) ==>
              && ReadInode(vol, m, e.value).Some?
              && var r := RecordOf(ReadInode(vol, m, e.value).value);
                 r.size >= 0 && e.key == Int64(r.size)
  {
    hide Placed, Regions, Streams, Matches, Open, Standing, ReadInode, RecordOf, Within, LegalTree, IndexIn, IndexPairs, SizesOf, Int64,
         OnePerInode, NAME, SIZE, LAST_MODIFIED;
    BuiltParts(vol, size, title, v, items);
    GatheredPairs(v, size);
    SizesExact(v.root.children, e);
    if e in SizesOf(v.root.children) {
      var l :| Within(v.root.children, l) && l.FileLoc? && e == Entry(Int64(|l.content|), l.block);
      WithinRecorded(vol, size, title, v, items, l);
    }
  }

  /** And of the name index, the name, but for trailing zero bytes. */
  lemma NameKeyIsName(vol: seq<byte>, size: nat, title: seq<byte>, v: Volume, items: seq<Item>, e: Entry)
    requires BuiltFrom(vol, size, title, v, items)
    ensures Open(vol).Some? && IndexIn(vol, Open(vol).value, NAME).Some?
    ensures var m := Open(vol).value;
            e in IndexPairs(IndexIn(vol, m, NAME).value) ==>
              ReadInode(vol, m, e.value).Some? && RecordOf(ReadInode(vol, m, e.value).value).name == Some(Trimmed(e.key))
  {
    hide Placed, Regions, Streams, Matches, Open, Standing, ReadInode, RecordOf, Within, LegalTree, IndexIn, IndexPairs, NamesOf,
         OnePerInode, NAME, SIZE, LAST_MODIFIED;
    BuiltParts(vol, size, title, v, items);
    GatheredPairs(v, size);
    NamesExact(v.root.children, e);
    if e in NamesOf(v.root.children) {
      var l :| Within(v.root.children, l) && e == Entry(l.name, l.block);
      WithinRecorded(vol, size, title, v, items, l);
    }
  }

  // ----- the indices' own inodes

  /** The record of an index: a directory of the index kind, of the given keys and type, under the
      indices directory, without a name, a time or attributes. */
  ghost predicate IndexRecord(r: Record, mode: nat, typeCode: nat, block: nat, parent: nat, shift: nat)
  {
    && r.mode == mode && r.uid == 0 && r.gid == 0 && r.typeCode == typeCode && r.mtime == 0
    && ToBlock(r.run, shift) == block && r.run.length == 1 && ToBlock(r.parent, shift) == parent && r.parent.length == 1
    && r.attributes == Run(0, 0, 0) && r.name == None
  }

  lemma IndexRecorded(vol: seq<byte>, m: Mounted, l: IndexLoc, parent: nat, mode: nat, typeCode: nat)
    requires Mountable(vol, m) && mode < TWO32 && typeCode < TWO32 && parent < m.numBlocks
    requires StoredIndex(vol, m, l, parent, mode, typeCode)
    ensures ReadInode(vol, m, l.block).Some?
    ensures var r := RecordOf(ReadInode(vol, m, l.block).value);
            IndexRecord(r, mode, typeCode, l.block, parent, m.shift) && r.size == |l.stream|
  {
    hide InodeBytes, RunBytes, RecordOf, CoveredBytes, Holds, ToBlock, Field, ReadInode;
    var n := IndexInode(l, parent, mode, typeCode, m.shift);
    InodeIsRead(vol, m, l.block, n);
    OneRunCovers(l.base, Blocks(|l.stream|), m.shift);
    SizeFits(|l.stream|);
    RecordReads(n, l.block, parent, m.shift);
  }

  ghost predicate HasIndexRecord(vol: seq<byte>, m: Mounted, l: IndexLoc, mode: nat, typeCode: nat)
  {
    && ReadInode(vol, m, l.block).Some?
    && IndexRecord(RecordOf(ReadInode(vol, m, l.block).value), mode, typeCode, l.block, m.indices, m.shift)
  }

  /** The five inodes of a built volume's indices: string keys for the indices directory, name and
      BEOS:APP_SIG, 64-bit ones for last_modified and size, each with its type's code. */
  lemma IndicesRecorded(vol: seq<byte>, size: nat, title: seq<byte>, v: Volume, items: seq<Item>)
    requires BuiltFrom(vol, size, title, v, items)
    ensures Open(vol).Some?
    ensures var m := Open(vol).value;
            && HasIndexRecord(vol, m, v.indices, 0x2100_41C0, 0)
            && HasIndexRecord(vol, m, v.name, 0x2100_4000, 0x4353_5452) && HasIndexRecord(vol, m, v.appSig, 0x2100_4000, 0x4353_5452)
            && HasIndexRecord(vol, m, v.modified, 0x2020_4000, 0x4C4C_4E47) && HasIndexRecord(vol, m, v.size, 0x2020_4000, 0x4C4C_4E47)
  {
    hide Streams, StoredIndex, IndexInodes, IndexData, AllWrites, AllHeld, Fine, Laid, BitmapBlocks, Bitmap, SuperBytes, Matches, Open,
         ReadInode, RecordOf, IndexRecord;
    Mounts(vol, size, title, v);
    RootHeld(vol, v, ShiftFor(size));
    IndicesStored(vol, v, size);
    IndicesInside(v, size);
    var m, root := MountOf(v, size), v.indices.block;
    IndexRecorded(vol, m, v.indices, root, INDICES_MODE, 0);
    IndexRecorded(vol, m, v.name, root, INDEX_MODE + STR_INDEX, TYPE_CSTR);
    IndexRecorded(vol, m, v.appSig, root, INDEX_MODE + STR_INDEX, TYPE_CSTR);
    IndexRecorded(vol, m, v.modified, root, INDEX_MODE + LONG_LONG_INDEX, TYPE_LLNG);
    IndexRecorded(vol, m, v.size, root, INDEX_MODE + LONG_LONG_INDEX, TYPE_LLNG);
  }
}
