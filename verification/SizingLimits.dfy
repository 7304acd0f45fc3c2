/** Where the sizing loop's promises stop: a tree it does not size though it can be stored, and
    one it sizes above the smallest volume. */
module SizingLimits {
  import opened Bytes
  import opened Keys
  import opened Geometry
  import opened NodePlan
  import opened NodeCodec
  import opened DirectoryTree
  import opened DirectoryStream
  import opened IndexTree
  import opened SmallIndex
  import opened Layout
  import opened VolumePlan
  import opened VolumeReads
  import opened LayoutCost
  import opened LayoutBounds
  import opened MinimumSize
  import Sizing
  import IndexLookup
  import StoredIndices

  // ----- small streams, exactly

  /** A directory of a dozen entries is a header and one leaf. */
  lemma SmallDirStream(children: seq<Loc>, own: nat, parent: nat)
    requires ShortNames(children) && |children| <= 13
    ensures |DirStream(children, own, parent)| == 2 * NODE
  {
    hide Plan, TreeBytes, Leaves, TreeStream, Sort, NodeBytes;
    var entries := Entries(children, own, parent);
    assert NamesFit(KeysOf(entries));
    FewKeysOneLeaf(KeysOf(entries));
    OneLeafTree(entries);
  }

  lemma OneLeafIndex(ordered: seq<Entry>)
    requires |ordered| <= 15 && IndexBuildable(Singles(ordered))
    ensures |IndexNodes(Singles(ordered))| == 1
  {
    hide PlanFrom, Link, Images;
    var groups := Singles(ordered);
    assert GroupKeys(groups) == KeysOf(ordered);
    LinkSingles(ordered, NODE * (1 + |Plan(GroupKeys(groups))|));
    if ordered == [] {
      IndexLookup.EmptyPlan(GroupKeys(groups));
    } else {
      FewKeysOneLeaf(KeysOf(ordered));
    }
  }

  /** An index of a dozen distinct keys likewise. */
  lemma SmallIndexStream(dataType: nat, pairs: seq<Entry>)
    requires ShortKeys(pairs) && DistinctKeys(pairs) && |pairs| <= 15
    ensures |IndexStream(dataType, pairs)| == 2 * NODE
  {
    hide Sort, IndexNodes, Singles, TreeStream;
    var ordered := Sort(dataType, pairs);
    DistinctAfterSort(dataType, pairs);
    DistinctGroups(ordered);
    SortSingles(ordered);
    IndexIsBuildable(dataType, pairs);
    OneLeafIndex(ordered);
  }

  lemma FourBlocks()
    ensures Blocks(2 * NODE) == 4
  {
  }

  // ----- many empty directories

  ghost predicate EmptyDirs(items: seq<Item>)
  {
    forall i | 0 <= i < |items| :: items[i].Dir? && items[i].children == []
  }

  /** An empty directory takes five blocks: its inode, and a tree of four. */
  lemma EmptyDirLocated(item: Item, own: nat, next: nat)
    requires item.Dir? && item.children == [] && |item.name| <= MAX_NAME
    ensures LocateOne(item, own, next) == (DirLoc(item.name, next, next + 1, []), next + 5)
    ensures Fine(DirLoc(item.name, next, next + 1, []), own)
  {
    hide DirStream, Blocks;
    LocateDir(item, own, next);
    assert Locate([], next, next + 1) == Located([], next + 1);
    SmallDirStream([], next, own);
    FourBlocks();
  }

  lemma {:induction false} EmptyDirsLocated(items: seq<Item>, own: nat, next: nat)
    requires Legal(items) && EmptyDirs(items)
    ensures var r := Locate(items, own, next);
            && r.next == next + 5 * |items| && FineAll(r.locs, own)
            && |NamesOf(r.locs)| == |items| && SizesOf(r.locs) == [] && TimesOf(r.locs) == []
    decreases items
  {
    hide DirStream, Blocks, Fine, Legal;
    if items == [] {
      assert Locate(items, own, next) == Located([], next);
    } else {
      LocateNext(items, own, next);
      EmptyDirLocated(items[0], own, next);
      EmptyDirsLocated(items[1..], own, next + 5);
      var l, rest := DirLoc(items[0].name, next, next + 1, []), Locate(items[1..], own, next + 5).locs;
      assert ([l] + rest)[1..] == rest;
      assert NamesOf([]) == [] && SizesOf([]) == [] && TimesOf([]) == [];
    }
  }

  lemma {:induction false} EmptyDirsContent(items: seq<Item>)
    requires EmptyDirs(items)
    ensures ContentBlocks(items) == |items|
  {
    if items != [] {
      assert ContentBlocks(items[0].children) == 0;
      EmptyDirsContent(items[1..]);
    }
  }

  lemma EmptyDirsRoot(items: seq<Item>)
    requires Legal(items) && EmptyDirs(items) && |items| <= 8000
    ensures var root := RootOf(items, 0);
            && Fine(root, 0) && 5 * |items| < Extent(root, 0) <= 11 * |items| + 13
            && |NamesOf(root.children)| == |items| && SizesOf(root.children) == [] && TimesOf(root.children) == []
  {
    hide DirStream, Blocks, Locate, NamesOf, SizesOf, TimesOf;
    EmptyDirsLocated(items, 0, 1);
    var root := RootOf(items, 0);
    DirStreamUpper(root.children, 0, 0);
  }

  lemma EmptyDirsCost(items: seq<Item>)
    requires Legal(items) && EmptyDirs(items) && |items| <= 8000
    ensures Streamable(items) && 5 * |items| < Cost(items) <= 15 * |items| + 100
  {
    hide Cost, Streamable, NamesOf, SizesOf, TimesOf, Fine, RootOf, Extent, Legal;
    EmptyDirsRoot(items);
    CostUpper(items);
  }

  /** A tree of a few thousand empty directories can be stored, but the sizing loop does not
      size it: the first guess counts one block a directory, where five are needed, and its
      bitmap is too small for the layout. */
  lemma TooManyDirectories(items: seq<Item>)
    requires Legal(items) && EmptyDirs(items) && 3300 <= |items| <= 8000
    ensures Streamable(items) && Minimum(items) == None
    ensures Fitting(items, 0x10_0000 * BLOCK)
  {
    hide Legal, Cost, Streamable, VolumeFine, PlanVolume, BitmapBlocks, CeilDiv, Used;
    EmptyDirsCost(items);
    EmptyDirsContent(items);
    var n := FirstGuess(items);
    Sizing.BitmapIs(n);
    Sizing.CeilBounds(n);
    assert Sizing.Capacity(n) == 16384;
    FrontIs(0x10_0000);
    Sizing.BitmapIs(0x10_0000);
    Sizing.CeilBounds(0x10_0000);
    UsedIsCost(items, DataStart(0x10_0000 * BLOCK));
    assert 0x10_0000 * BLOCK / BLOCK == 0x10_0000;
  }

  /** Three small letters for a number. */
  function Letters(i: nat): Key
    requires i < 17576
  {
    [97 + i / 676, 97 + i / 26 % 26, 97 + i % 26]
  }

  lemma LettersDiffer(i: nat, j: nat)
    requires i < j < 17576
    ensures Letters(i) != Letters(j)
  {
    var a, b := Letters(i), Letters(j);
    if a[0] == b[0] && a[1] == b[1] {
      assert i / 26 == i / 676 * 26 + i / 26 % 26 && j / 26 == j / 676 * 26 + j / 26 % 26;
      assert a[2] != b[2];
    }
  }

  lemma LettersLegal(i: nat)
    requires i < 17576
    ensures LegalName(Letters(i))
  {
    assert |Letters(i)| == 3;
  }

  /** `n` empty directories. */
  function Folders(n: nat): (items: seq<Item>)
    requires n <= 8000
    ensures |items| == n && forall i | 0 <= i < n :: items[i] == Dir(Letters(i), [])
  {
    seq(n, i requires 0 <= i < n => Dir(Letters(i), []))
  }

  /** There are such trees. */
  lemma FoldersAreMany(n: nat)
    requires 3300 <= n <= 8000
    ensures Legal(Folders(n)) && EmptyDirs(Folders(n)) && Streamable(Folders(n)) && Minimum(Folders(n)) == None
  {
    hide Folders, Letters, LegalName, Minimum, Streamable, Fitting;
    var items := Folders(n);
    forall i, j | 0 <= i < j < n ensures items[i].name != items[j].name {
      LettersDiffer(i, j);
    }
    forall i | 0 <= i < n ensures LegalName(items[i].name) {
      LettersLegal(i);
    }
    assert Legal([]);
    TooManyDirectories(items);
  }

  // ----- one file

  lemma OneFileRoot(name: Key, content: seq<byte>)
    requires LegalName(name)
    ensures Legal([File(name, content)])
    ensures RootOf([File(name, content)], 0) ==
            DirLoc([], 0, 2 + Blocks(|content|), [FileLoc(name, content, 1, 2)])
  {
    hide DirStream, Blocks;
    var items := [File(name, content)];
    assert forall i | 0 <= i < |items| :: items[i] == File(name, content);
    assert Locate([], 0, 2 + Blocks(|content|)) == Located([], 2 + Blocks(|content|));
    assert items[1..] == [];
    LocateNext(items, 0, 1);
  }

  lemma OneFilePairs(name: Key, content: seq<byte>)
    ensures NamesOf([FileLoc(name, content, 1, 2)]) == [Entry(name, 1)]
    ensures SizesOf([FileLoc(name, content, 1, 2)]) == [Entry(Int64(|content|), 1)]
    ensures TimesOf([FileLoc(name, content, 1, 2)]) == [Entry(Int64(FIXTURE_TIME), 1)]
  {
    hide Int64;
    assert NamesOf([]) == [] && SizesOf([]) == [] && TimesOf([]) == [];
  }

  lemma OneFileExtent(name: Key, content: seq<byte>)
    requires LegalName(name) && Blocks(|content|) <= MAX_RUN
    ensures var l := DirLoc([], 0, 2 + Blocks(|content|), [FileLoc(name, content, 1, 2)]);
            Fine(l, 0) && Extent(l, 0) == 6 + Blocks(|content|)
  {
    hide DirStream;
    SmallDirStream([FileLoc(name, content, 1, 2)], 0, 0);
    FourBlocks();
  }

  lemma OnePairIndex(dataType: nat, e: Entry)
    requires |e.key| <= MAX_NAME
    ensures ShortKeys([e]) && Blocks(|IndexStream(dataType, [e])|) == 4
  {
    hide IndexStream;
    SmallIndexStream(dataType, [e]);
    FourBlocks();
  }

  lemma FixedIndices(a: nat, b: nat, c: nat, d: nat)
    ensures ShortKeys([]) && Blocks(|IndexStream(STRING_TYPE, [])|) == 4
    ensures ShortKeys(IndexTable(a, b, c, d)) && Blocks(|IndexStream(STRING_TYPE, IndexTable(a, b, c, d))|) == 4
  {
    hide IndexStream;
    SmallIndexStream(STRING_TYPE, []);
    StoredIndices.FourNames(a, b, c, d);
    SmallIndexStream(STRING_TYPE, IndexTable(a, b, c, d));
    FourBlocks();
  }

  /** One file costs its blocks and thirty-one more. */
  lemma OneFileCost(name: Key, content: seq<byte>)
    requires LegalName(name) && Blocks(|content|) <= MAX_RUN
    ensures Legal([File(name, content)])
    ensures Streamable([File(name, content)]) && Cost([File(name, content)]) == 31 + Blocks(|content|)
  {
    hide DirStream, Blocks, IndexStream, NamesOf, SizesOf, TimesOf, Fine, ShortAll, ShortKeys, Extent,
         IndexTable, RootOf, Legal, Locate, Int64;
    var items := [File(name, content)];
    OneFileRoot(name, content);
    OneFilePairs(name, content);
    OneFileExtent(name, content);
    StreamsShift(items, 0);
    OnePairIndex(STRING_TYPE, Entry(name, 1));
    OnePairIndex(INT64_TYPE, Entry(Int64(|content|), 1));
    OnePairIndex(INT64_TYPE, Entry(Int64(FIXTURE_TIME), 1));
    var v := PlanVolume(items, 0);
    FixedIndices(v.name.block, v.appSig.block, v.modified.block, v.size.block);
  }

  lemma OneFileContent(name: Key, content: seq<byte>)
    ensures ContentBlocks([File(name, content)]) == 1 + Blocks(|content|)
  {
    ContentOne(File(name, content));
  }

  lemma FrontAt(n: nat)
    requires n == 20000 || n == 20481 || n == 21536 || n == 21537 || n == 39038
    ensures Sizing.Front(n) == if n == 20000 then 515 else if n == 39038 then 2052 else 2051
    ensures Sizing.Capacity(n) >= n
  {
    hide BitmapBlocks, CeilDiv;
    Sizing.BitmapIs(n);
    Sizing.CeilBounds(n);
    Sizing.LogIs(n);
    Sizing.CapacityIs(n);
  }

  lemma RunOfLargeFile()
    ensures Sizing.Run(19485, 39038, PASSES) == Some(21536)
  {
    hide Sizing.Front, Sizing.Capacity;
    FrontAt(39038);
    FrontAt(21537);
    FrontAt(21536);
    var passes := PASSES;
    assert Sizing.Run(19485, 39038, passes) == Sizing.Run(19485, 21537, passes - 1);
    assert Sizing.Run(19485, 21537, passes - 1) == Sizing.Run(19485, 21536, passes - 2);
  }

  /** The returned size need not be the smallest: a file of 19454 blocks is sized at 21536
      blocks, though 20000 hold it, and the volumes that hold it are not all those above one
      that does. */
  lemma NotTheSmallest(name: Key, content: seq<byte>)
    requires LegalName(name) && Blocks(|content|) == 19454
    ensures Legal([File(name, content)])
    ensures Minimum([File(name, content)]) == Some(21536)
    ensures Fitting([File(name, content)], 20000 * BLOCK)
    ensures !Fitting([File(name, content)], 20481 * BLOCK)
  {
    hide Blocks, Legal, Cost, Streamable, VolumeFine, PlanVolume, DataStart, Used, Sizing.Run, Sizing.Front;
    var items := [File(name, content)];
    OneFileCost(name, content);
    OneFileContent(name, content);
    RunOfLargeFile();
    FrontAt(20000);
    FrontAt(20481);
    FrontIs(20000);
    FrontIs(20481);
    UsedIsCost(items, DataStart(20000 * BLOCK));
    UsedIsCost(items, DataStart(20481 * BLOCK));
    assert 20000 * BLOCK / BLOCK == 20000 && 20481 * BLOCK / BLOCK == 20481;
  }
}
