/** The indices of a built volume, as the guest reads them: `index_inode` finds each by name,
    and its stream holds the pairs the builder gathered. */
module StoredIndices {
  import opened Bytes
  import opened Keys
  import opened Geometry
  import opened NodePlan
  import opened NodeCodec
  import opened DirectoryTree
  import opened DirectoryStream
  import opened DirectoryReader
  import opened DirectoryLookup
  import opened IndexTree
  import opened SmallIndex
  import opened Inode
  import opened Layout
  import opened VolumePlan
  import opened Image
  import opened Mount
  import opened VolumeReader
  import opened RoundTrip
  import BuiltVolume
  import VolumeReads

  // ----- the guest's side

  function StreamOf(vol: seq<byte>, m: Mounted, block: nat): Option<seq<byte>>
  {
    match ReadInode(vol, m, block)
    case None => None
    case Some(inode) => Stream(vol, inode, m.shift)
  }

  /** `index_inode`: the block of the index named `name`. */
  function IndexInodeAt(vol: seq<byte>, m: Mounted, name: Key): Option<nat>
  {
    match StreamOf(vol, m, m.indices)
    case None => None
    case Some(stream) => Find(stream, name)
  }

  /** The stream of the index named `name`. */
  function IndexIn(vol: seq<byte>, m: Mounted, name: Key): Option<seq<byte>>
  {
    match IndexInodeAt(vol, m, name)
    case None => None
    case Some(block) => StreamOf(vol, m, block)
  }

  // ----- one stored index

  /** Every write of an index is in the volume, and inside it. */
  ghost predicate StoredIndex(vol: seq<byte>, m: Mounted, l: IndexLoc, parent: nat, mode: nat, typeCode: nat)
  {
    && mode < TWO32 && 0 < Blocks(|l.stream|) <= MAX_RUN && Blocks(|l.stream|) * BLOCK == |l.stream|
    && l.block < m.numBlocks && l.base < IndexEnd(l) <= m.numBlocks
    && Holds(vol, 0, Write(l.block, InodeBytes(IndexInode(l, parent, mode, typeCode, m.shift))))
    && AllHeld(vol, Pieces(l.base, l.stream))
  }

  lemma IndexIsRead(vol: seq<byte>, m: Mounted, l: IndexLoc, parent: nat, mode: nat, typeCode: nat)
    requires Mountable(vol, m) && StoredIndex(vol, m, l, parent, mode, typeCode)
    ensures StreamOf(vol, m, l.block) == Some(l.stream)
  {
    hide InodeBytes, Stream, RunBytes, Pieces, AllHeld, Holds;
    var n := IndexInode(l, parent, mode, typeCode, m.shift);
    InodeIsRead(vol, m, l.block, n);
    PiecesHeld(vol, l.base, l.stream);
    OneRunStream(vol, m, n, l.base, Blocks(|l.stream|));
  }

  lemma WholeIndex(dataType: nat, pairs: seq<Entry>)
    requires ShortKeys(pairs)
    ensures var n := |IndexStream(dataType, pairs)|; n >= NODE && Blocks(n) > 0 && Blocks(n) * BLOCK == n
  {
    hide IndexBytes;
    IndexIsBuildable(dataType, pairs);
    var k := 1 + |IndexNodes(IndexGroups(dataType, pairs))|;
    assert |IndexStream(dataType, pairs)| == NODE * k;
    WholeBlocks(k);
    assert Blocks(NODE * k) == 2 * k;
  }

  // ----- the five of a volume

  /** The streams are what `PlanVolume` gives them. */
  ghost predicate Streams(v: Volume)
  {
    && v.root.DirLoc? && ShortAll(v.root.children) && ShortKeys(NamesOf(v.root.children))
    && ShortKeys(SizesOf(v.root.children)) && ShortKeys(TimesOf(v.root.children))
    && v.name.stream == IndexStream(STRING_TYPE, NamesOf(v.root.children))
    && v.appSig.stream == IndexStream(STRING_TYPE, [])
    && v.modified.stream == IndexStream(INT64_TYPE, TimesOf(v.root.children))
    && v.size.stream == IndexStream(INT64_TYPE, SizesOf(v.root.children))
    && v.indices.stream == IndexStream(STRING_TYPE, IndexTable(v.name.block, v.appSig.block, v.modified.block, v.size.block))
  }

  lemma PlannedStreams(items: seq<Item>, start: nat)
    requires Legal(items)
    ensures Streams(PlanVolume(items, start))
  {
    hide IndexStream, DirStream, Blocks, Extent, NamesOf, SizesOf, TimesOf, ShortAll, ShortKeys;
    LocateShort(items, start, start + 1);
    NamesShort(RootOf(items, start).children);
  }

  lemma WholeStreams(v: Volume)
    requires Streams(v)
    ensures forall s | s in [v.name.stream, v.appSig.stream, v.modified.stream, v.size.stream, v.indices.stream] ::
              0 < Blocks(|s|) && Blocks(|s|) * BLOCK == |s|
  {
    hide IndexStream, Blocks, ShortAll;
    WholeIndex(STRING_TYPE, NamesOf(v.root.children));
    WholeIndex(STRING_TYPE, []);
    WholeIndex(INT64_TYPE, TimesOf(v.root.children));
    WholeIndex(INT64_TYPE, SizesOf(v.root.children));
    WholeIndex(STRING_TYPE, IndexTable(v.name.block, v.appSig.block, v.modified.block, v.size.block));
  }

  lemma IndexDataHeld(vol: seq<byte>, v: Volume)
    requires AllHeld(vol, IndexData(v))
    ensures AllHeld(vol, Pieces(v.name.base, v.name.stream)) && AllHeld(vol, Pieces(v.appSig.base, v.appSig.stream))
    ensures AllHeld(vol, Pieces(v.modified.base, v.modified.stream)) && AllHeld(vol, Pieces(v.size.base, v.size.stream))
    ensures AllHeld(vol, Pieces(v.indices.base, v.indices.stream))
  {
    hide AllHeld, Pieces;
    var a, b, c := Pieces(v.name.base, v.name.stream), Pieces(v.appSig.base, v.appSig.stream), Pieces(v.modified.base, v.modified.stream);
    var d, e := Pieces(v.size.base, v.size.stream), Pieces(v.indices.base, v.indices.stream);
    HeldParts(vol, a + b + c + d, e);
    HeldParts(vol, a + b + c, d);
    HeldParts(vol, a + b, c);
    HeldParts(vol, a, b);
  }

  const INDICES_MODE: nat := INDEX_MODE + STR_INDEX + 0x1C0

  /** The five indices' writes are in the volume. */
  ghost predicate IndexWritesHeld(vol: seq<byte>, v: Volume, shift: nat)
  {
    && VolumeFine(v)
    && AllHeld(vol, IndexInodes(v, shift)) && AllHeld(vol, IndexData(v))
  }

  lemma IndexInodesHeld(vol: seq<byte>, v: Volume, shift: nat)
    requires IndexWritesHeld(vol, v, shift)
    ensures var root := v.indices.block;
      && Holds(vol, 0, Write(root, InodeBytes(IndexInode(v.indices, root, INDICES_MODE, 0, shift))))
      && Holds(vol, 0, Write(v.name.block, InodeBytes(IndexInode(v.name, root, INDEX_MODE + STR_INDEX, TYPE_CSTR, shift))))
      && Holds(vol, 0, Write(v.appSig.block, InodeBytes(IndexInode(v.appSig, root, INDEX_MODE + STR_INDEX, TYPE_CSTR, shift))))
      && Holds(vol, 0, Write(v.modified.block, InodeBytes(IndexInode(v.modified, root, INDEX_MODE + LONG_LONG_INDEX, TYPE_LLNG, shift))))
      && Holds(vol, 0, Write(v.size.block, InodeBytes(IndexInode(v.size, root, INDEX_MODE + LONG_LONG_INDEX, TYPE_LLNG, shift))))
  {
    hide Holds, InodeBytes, IndexInode, Fine;
    var ws := IndexInodes(v, shift);
    assert Holds(vol, 0, ws[0]) && Holds(vol, 0, ws[1]) && Holds(vol, 0, ws[2]) && Holds(vol, 0, ws[3]) && Holds(vol, 0, ws[4]);
  }

  lemma IndexBounds(v: Volume, size: nat)
    requires BuiltVolume.Placed(v, size) && Streams(v)
    ensures forall l | l in [v.name, v.appSig, v.modified, v.size, v.indices] ::
              && l.block < l.base < IndexEnd(l) <= size / BLOCK
              && 0 < Blocks(|l.stream|) <= MAX_RUN && Blocks(|l.stream|) * BLOCK == |l.stream|
  {
    hide IndexStream, Blocks, Streams, Fine, Laid, Extent;
    WholeStreams(v);
    var ss := [v.name.stream, v.appSig.stream, v.modified.stream, v.size.stream, v.indices.stream];
    assert ss[0] in ss && ss[1] in ss && ss[2] in ss && ss[3] in ss && ss[4] in ss;
  }

  lemma IndicesStored(vol: seq<byte>, v: Volume, size: nat)
    requires BuiltVolume.Placed(v, size) && Streams(v) && IndexWritesHeld(vol, v, BuiltVolume.ShiftFor(size))
    ensures var m, root := VolumeReads.MountOf(v, size), v.indices.block;
      && StoredIndex(vol, m, v.indices, root, INDICES_MODE, 0)
      && StoredIndex(vol, m, v.name, root, INDEX_MODE + STR_INDEX, TYPE_CSTR)
      && StoredIndex(vol, m, v.appSig, root, INDEX_MODE + STR_INDEX, TYPE_CSTR)
      && StoredIndex(vol, m, v.modified, root, INDEX_MODE + LONG_LONG_INDEX, TYPE_LLNG)
      && StoredIndex(vol, m, v.size, root, INDEX_MODE + LONG_LONG_INDEX, TYPE_LLNG)
  {
    hide Blocks, Streams, Holds, InodeBytes, IndexInode, AllHeld, Pieces, BuiltVolume.Placed, Fine;
    IndexBounds(v, size);
    IndexInodesHeld(vol, v, BuiltVolume.ShiftFor(size));
    IndexDataHeld(vol, v);
    var ls := [v.name, v.appSig, v.modified, v.size, v.indices];
    assert ls[0] in ls && ls[1] in ls && ls[2] in ls && ls[3] in ls && ls[4] in ls;
  }

  /** Every index reads as its stream. */
  ghost predicate IndicesRead(vol: seq<byte>, m: Mounted, v: Volume)
  {
    && StreamOf(vol, m, v.indices.block) == Some(v.indices.stream)
    && StreamOf(vol, m, v.name.block) == Some(v.name.stream)
    && StreamOf(vol, m, v.appSig.block) == Some(v.appSig.stream)
    && StreamOf(vol, m, v.modified.block) == Some(v.modified.stream)
    && StreamOf(vol, m, v.size.block) == Some(v.size.stream)
  }

  lemma AllIndicesRead(vol: seq<byte>, size: nat, title: seq<byte>, v: Volume)
    requires BuiltVolume.Placed(v, size) && BuiltVolume.Regions(vol, size, title, v) && Streams(v)
    ensures IndicesRead(vol, VolumeReads.MountOf(v, size), v)
  {
    hide Streams, StoredIndex, StreamOf, IndexInodes, IndexData, AllWrites, AllHeld, Fine, Laid, BitmapBlocks,
         Bitmap, SuperBytes;
    var m, root := VolumeReads.MountOf(v, size), v.indices.block;
    VolumeReads.Mounts(vol, size, title, v);
    VolumeReads.RootHeld(vol, v, BuiltVolume.ShiftFor(size));
    IndicesStored(vol, v, size);
    IndexIsRead(vol, m, v.indices, root, INDICES_MODE, 0);
    IndexIsRead(vol, m, v.name, root, INDEX_MODE + STR_INDEX, TYPE_CSTR);
    IndexIsRead(vol, m, v.appSig, root, INDEX_MODE + STR_INDEX, TYPE_CSTR);
    IndexIsRead(vol, m, v.modified, root, INDEX_MODE + LONG_LONG_INDEX, TYPE_LLNG);
    IndexIsRead(vol, m, v.size, root, INDEX_MODE + LONG_LONG_INDEX, TYPE_LLNG);
  }

  // ----- found by name

  lemma FourNames(name: nat, appSig: nat, modified: nat, size: nat)
    ensures DistinctKeys(IndexTable(name, appSig, modified, size))
  {
    var t := IndexTable(name, appSig, modified, size);
    assert |APP_SIG| == 12 && |LAST_MODIFIED| == 13 && NAME[0] == 110 && SIZE[0] == 115;
  }

  lemma SmallSorted(table: seq<Entry>)
    requires 0 < |table| <= 15 && DistinctKeys(table)
    requires forall i | 0 <= i < |table| :: |table[i].key| <= MAX_NAME && table[i].value < TWO64
    ensures Buildable(Sort(STRING_TYPE, table)) && ValuesFit(Sort(STRING_TYPE, table))
    ensures |Plan(KeysOf(Sort(STRING_TYPE, table)))| == 1
  {
    hide Plan, Sort;
    var ordered := Sort(STRING_TYPE, table);
    InMultiset(ordered, table);
    forall i | 0 <= i < |ordered| ensures |ordered[i].key| <= MAX_NAME && ordered[i].value < TWO64 {
      assert ordered[i] in table;
    }
    FewKeysOneLeaf(KeysOf(ordered));
  }

  /** `dir_find` in an index of a few distinct names is lookup in its table. */
  lemma SmallIndexFound(table: seq<Entry>, name: Key)
    requires 0 < |table| <= 15 && DistinctKeys(table)
    requires forall i | 0 <= i < |table| :: |table[i].key| <= MAX_NAME && table[i].value < TWO64
    ensures IndexBuildable(IndexGroups(STRING_TYPE, table))
    ensures |IndexBytes(STRING_TYPE, table)| <= MAX_STREAM ==>
              Find(IndexBytes(STRING_TYPE, table), name) == Lookup(Sort(STRING_TYPE, table), name)
  {
    hide IndexBytes, TreeBytes, Find, Lookup, Plan, Sort, IndexGroups, Buildable, IndexBuildable;
    SmallSorted(table);
    SmallIndexIsTree(table);
    SortStrict(STRING_TYPE, table);
    if |IndexBytes(STRING_TYPE, table)| <= MAX_STREAM {
      FindIsLookup(Sort(STRING_TYPE, table), name);
    }
  }

  /** `dir_find` in the indices directory gives each index's block, and nothing for any other name. */
  lemma FindIndex(v: Volume, name: Key)
    requires Streams(v) && |v.indices.stream| <= MAX_STREAM
    requires v.name.block < TWO64 && v.appSig.block < TWO64 && v.modified.block < TWO64 && v.size.block < TWO64
    ensures Find(v.indices.stream, name) ==
            Lookup(Sort(STRING_TYPE, IndexTable(v.name.block, v.appSig.block, v.modified.block, v.size.block)), name)
  {
    hide IndexBytes, Find, Lookup, ShortAll, Sort, IndexGroups, IndexBuildable;
    FourNames(v.name.block, v.appSig.block, v.modified.block, v.size.block);
    SmallIndexFound(IndexTable(v.name.block, v.appSig.block, v.modified.block, v.size.block), name);
  }

  lemma LookupTable(name: nat, appSig: nat, modified: nat, size: nat)
    ensures var ordered := Sort(STRING_TYPE, IndexTable(name, appSig, modified, size));
            && Lookup(ordered, NAME) == Some(name) && Lookup(ordered, APP_SIG) == Some(appSig)
            && Lookup(ordered, LAST_MODIFIED) == Some(modified) && Lookup(ordered, SIZE) == Some(size)
  {
    hide Sort, Lookup, NAME, APP_SIG, LAST_MODIFIED, SIZE;
    var table := IndexTable(name, appSig, modified, size);
    FourNames(name, appSig, modified, size);
    DistinctAfterSort(STRING_TYPE, table);
    assert table[0] in table && table[1] in table && table[2] in table && table[3] in table;
    TableFound(table, table[0]);
    TableFound(table, table[1]);
    TableFound(table, table[2]);
    TableFound(table, table[3]);
  }

  lemma TableFound(table: seq<Entry>, e: Entry)
    requires DistinctKeys(table) && e in table
    ensures Lookup(Sort(STRING_TYPE, table), e.key) == Some(e.value)
  {
    hide Sort, Lookup;
    var ordered := Sort(STRING_TYPE, table);
    DistinctAfterSort(STRING_TYPE, table);
    InMultiset(ordered, table);
    var i :| 0 <= i < |ordered| && ordered[i] == e;
    LookupPresent(ordered, i);
  }

  /** `index_inode` finds the four indices, and each stream is the builder's. */
  lemma IndicesFound(vol: seq<byte>, size: nat, title: seq<byte>, v: Volume)
    requires BuiltVolume.Placed(v, size) && BuiltVolume.Regions(vol, size, title, v) && Streams(v)
    ensures var m := VolumeReads.MountOf(v, size);
            && IndexIn(vol, m, NAME) == Some(v.name.stream) && IndexIn(vol, m, APP_SIG) == Some(v.appSig.stream)
            && IndexIn(vol, m, LAST_MODIFIED) == Some(v.modified.stream) && IndexIn(vol, m, SIZE) == Some(v.size.stream)
  {
    hide Streams, StreamOf, IndexStream, BuiltVolume.Placed, BuiltVolume.Regions, Find, Lookup, NAME, APP_SIG,
         LAST_MODIFIED, SIZE, Sort;
    AllIndicesRead(vol, size, title, v);
    IndicesSmall(v, size);
    LookupTable(v.name.block, v.appSig.block, v.modified.block, v.size.block);
    FindIndex(v, NAME);
    FindIndex(v, APP_SIG);
    FindIndex(v, LAST_MODIFIED);
    FindIndex(v, SIZE);
  }

  lemma IndicesSmall(v: Volume, size: nat)
    requires BuiltVolume.Placed(v, size) && Streams(v)
    ensures |v.indices.stream| <= MAX_STREAM
    ensures v.name.block < TWO64 && v.appSig.block < TWO64 && v.modified.block < TWO64 && v.size.block < TWO64
  {
    hide Streams, VolumeFine, IndicesLaid, Laid;
    IndexBounds(v, size);
    VolumeReads.IndicesInside(v, size);
    var ls := [v.name, v.appSig, v.modified, v.size, v.indices];
    assert ls[4] in ls;
  }
}
