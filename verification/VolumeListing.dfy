/** The guest's listing and index calls over a built volume: `dir_entry` at a walked path, and
    `index_walk` through the index found by name. */
module VolumeListing {
  import opened Bytes
  import opened Keys
  import opened NodePlan
  import opened NodeCodec
  import DirectoryTree
  import opened DirectoryStream
  import opened DirectoryReader
  import opened DirectoryLookup
  import opened DirectoryListing
  import opened IndexTree
  import opened IndexReader
  import opened IndexWalking
  import opened IndexLimits
  import opened Inode
  import opened Layout
  import opened LayoutCost
  import opened VolumePlan
  import opened Mount
  import opened VolumeReader
  import opened RoundTrip
  import opened BuiltVolume
  import opened VolumeReads
  import opened IndexAgreement
  import opened StoredIndices
  import opened VolumeIndices

  // ----- listing a directory

  /** `dir_entry` on the directory at `block`. */
  function ListedAt(vol: seq<byte>, m: Mounted, block: nat, index: nat): Option<Entry>
  {
    match StreamOf(vol, m, block)
    case None => None
    case Some(stream) => EntryOf(stream, index)
  }

  /** A listing shows the names, in order. */
  ghost predicate ListsNames(vol: seq<byte>, m: Mounted, block: nat, keys: seq<Key>)
  {
    forall index | 0 <= index < |keys| ::
      ListedAt(vol, m, block, index).Some? && ListedAt(vol, m, block, index).value.key == keys[index]
  }

  /** What a directory's tree is planned from: its entries' names and the two of its own, sorted. */
  function NameTable(items: seq<Item>): (s: seq<Entry>)
    ensures |s| == |items| + 2
  {
    seq(|items|, i requires 0 <= i < |items| => Entry(items[i].name, 0)) + [Entry(DOT, 0), Entry(DOTDOT, 0)]
  }

  function SortedNames(items: seq<Item>): (keys: seq<Key>)
    ensures |keys| == |items| + 2
  {
    KeysOf(Sort(STRING_TYPE, NameTable(items)))
  }

  /** Every leaf planned for the names packs them within one block. */
  ghost predicate LeavesWithin(keys: seq<Key>)
  {
    forall i | 0 <= i < |Plan(keys)| :: FIXED + Plan(keys)[i].keyBytes <= BLOCK
  }

  /** The last name of a leaf that runs past the block is not listed. */
  ghost predicate LastsHidden(vol: seq<byte>, m: Mounted, block: nat, keys: seq<Key>)
  {
    forall i | 0 <= i < |Plan(keys)| && FIXED + Plan(keys)[i].keyBytes > BLOCK && Plan(keys)[i].count > 0 ::
      ListedAt(vol, m, block, End(Plan(keys)[i]) - 1) == None
  }

  lemma EntryNames(l: Loc, item: Item, parent: nat)
    requires Matches(l, item) && item.Dir? && ShortNames(l.children)
    ensures KeysOf(Entries(l.children, l.block, parent)) == SortedNames(item.children)
  {
    hide Sort, DirectoryTree.Buildable;
    var a, b := Table(l.children, l.block, parent), NameTable(item.children);
    forall i | 0 <= i < |item.children| ensures l.children[i].name == item.children[i].name {
      assert Matches(l.children[i], item.children[i]);
    }
    assert KeysOf(a) == KeysOf(b);
    SortKeys(STRING_TYPE, a, b);
  }

  /** A stored directory's stream, and what the reader needs of it. */
  lemma DirectoryStored(vol: seq<byte>, m: Mounted, l: Loc, item: Item, parent: nat, name: Option<Key>)
    requires Standing(vol, m, l, item, parent, name) && item.Dir?
    ensures l.DirLoc? && ShortNames(l.children) && Stored(Entries(l.children, l.block, parent))
    ensures StreamOf(vol, m, l.block) == Some(TreeBytes(Entries(l.children, l.block, parent)))
    ensures KeysOf(Entries(l.children, l.block, parent)) == SortedNames(item.children)
  {
    hide Laid, InodesOf, DataOf, AllHeld, TreeBytes, Stream, InodeBytes, DirInode, Matches, Entries, SortedNames;
    StandingShape(vol, m, l, item, parent, name);
    ProperChildren(l, item);
    forall i | 0 <= i < |l.children| ensures l.children[i].block < TWO64 {
      ChildWithin(l, parent, i);
    }
    EntriesStored(l, parent);
    DirIsRead(vol, m, l, parent, name);
    EntryNames(l, item, parent);
  }

  lemma SameLeaves(entries: seq<Entry>)
    ensures LeavesWithin(KeysOf(entries)) <==> LeavesEndWithinBlock(entries)
  {
    hide Plan;
    assert LeafPlan(entries) == Plan(KeysOf(entries));
  }

  /** The directory at a place in the tree lists in full exactly when its leaves pack their names
      within a block; past its entries nothing is listed. */
  lemma DirectoryLists(vol: seq<byte>, m: Mounted, l: Loc, item: Item, parent: nat, name: Option<Key>)
    requires Standing(vol, m, l, item, parent, name) && item.Dir?
    ensures ListsNames(vol, m, l.block, SortedNames(item.children)) <==> LeavesWithin(SortedNames(item.children))
    ensures forall index | index >= |item.children| + 2 :: ListedAt(vol, m, l.block, index) == None
    ensures LastsHidden(vol, m, l.block, SortedNames(item.children))
  {
    hide Standing, TreeBytes, EntryOf, Plan, Stored, Entries, StreamOf, SortedNames;
    DirectoryStored(vol, m, l, item, parent, name);
    var entries, keys := Entries(l.children, l.block, parent), SortedNames(item.children);
    ListsAllIff(entries);
    ListedKeys(entries);
    assert forall index :: ListedAt(vol, m, l.block, index) == EntryOf(TreeBytes(entries), index);
    SameLeaves(entries);
    forall index | index >= |entries| ensures EntryOf(TreeBytes(entries), index) == None {
      NoEntryPastTheEnd(entries, index);
    }
    LastsNotShown(entries);
  }

  lemma LastsNotShown(entries: seq<Entry>)
    requires Stored(entries)
    ensures var p := Plan(KeysOf(entries));
            forall i | 0 <= i < |p| && FIXED + p[i].keyBytes > BLOCK && p[i].count > 0 ::
              EntryOf(TreeBytes(entries), End(p[i]) - 1) == None
  {
    hide Plan, TreeBytes, EntryOf, DirectoryTree.Buildable, ValuesFit;
    var p := Plan(KeysOf(entries));
    assert LeafPlan(entries) == p;
    PlanOfStored(entries);
    forall i | 0 <= i < |p| && FIXED + p[i].keyBytes > BLOCK && p[i].count > 0
      ensures EntryOf(TreeBytes(entries), End(p[i]) - 1) == None
    {
      EntryShown(entries, i, p[i].count - 1);
    }
  }

  /** Listing the names is listing the entries. */
  lemma ListedKeys(entries: seq<Entry>)
    requires Stored(entries)
    ensures (forall index | 0 <= index < |entries| ::
               && EntryOf(TreeBytes(entries), index).Some?
               && EntryOf(TreeBytes(entries), index).value.key == KeysOf(entries)[index]) <==> ListsAll(entries)
  {
    hide Plan, TreeBytes, EntryOf, DirectoryTree.Buildable, ValuesFit, LeafPlan;
    ListsAllIff(entries);
    if !LeavesEndWithinBlock(entries) {
      var p := LeafPlan(entries);
      PlanOfStored(entries);
      var i :| 0 <= i < |p| && FIXED + p[i].keyBytes > BLOCK;
      EntryShown(entries, i, p[i].count - 1);
      assert EntryOf(TreeBytes(entries), End(p[i]) - 1) == None;
    }
  }

  // ----- at a walked path

  /** What a path of names leads to in the input tree. */
  function ItemAt(top: Item, path: seq<Key>): Option<Item>
    decreases |path|
  {
    if path == [] then Some(top)
    else if top.File? then None
    else
      match ItemNamed(top.children, path[0])
      case None => None
      case Some(i) => ItemAt(top.children[i], path[1..])
  }

  lemma {:induction false} StandsAt(vol: seq<byte>, m: Mounted, l: Loc, item: Item, parent: nat, name: Option<Key>,
                                    isOwner: bool, path: seq<Key>)
    returns (l': Loc, parent': nat, name': Option<Key>)
    requires Standing(vol, m, l, item, parent, name) && ProperPath(path) && ItemAt(item, path).Some?
    ensures Standing(vol, m, l', ItemAt(item, path).value, parent', name')
    ensures Reach(vol, m, l.block, isOwner, path) == Some(l'.block)
    decreases |path|
  {
    hide Standing, Matches, Reach;
    StandingShape(vol, m, l, item, parent, name);
    FileShape(l, item);
    if item.File? {
      ReachFile(vol, m, l, item, parent, name, isOwner, path);
      l', parent', name' := l, parent, name;
    } else {
      ReachDir(vol, m, l, item, parent, name, isOwner, path);
      if path == [] {
        l', parent', name' := l, parent, name;
      } else {
        assert ProperName(path[0]);
        SameStep(l, item, path[0]);
        var i := ItemNamed(item.children, path[0]).value;
        ChildStanding(vol, m, l, item, parent, name, i);
        var child := l.children[i];
        l', parent', name' := StandsAt(vol, m, child, item.children[i], l.block, Some(child.name), isOwner, path[1..]);
      }
    }
  }

  /** Every directory of a built volume, reached by its path: the guest lists all its names
      exactly when the leaves planned for them pack within a block. */
  lemma PathListsIff(vol: seq<byte>, size: nat, title: seq<byte>, v: Volume, items: seq<Item>, isOwner: bool, path: seq<Key>)
    requires BuiltFrom(vol, size, title, v, items) && ProperPath(path)
    requires ItemAt(Dir([], items), path).Some? && ItemAt(Dir([], items), path).value.Dir?
    ensures Open(vol).Some? && Reach(vol, Open(vol).value, Open(vol).value.root, isOwner, path).Some?
    ensures var m := Open(vol).value; var block := Reach(vol, m, m.root, isOwner, path).value;
            var keys := SortedNames(ItemAt(Dir([], items), path).value.children);
            && (ListsNames(vol, m, block, keys) <==> LeavesWithin(keys))
            && LastsHidden(vol, m, block, keys)
            && forall index | index >= |keys| :: ListedAt(vol, m, block, index) == None
  {
    hide Placed, Regions, Streams, Matches, Standing, Open, Reach, ListsNames, LeavesWithin, LastsHidden, SortedNames, ListedAt, ItemAt;
    Mounts(vol, size, title, v);
    RootStanding(vol, size, title, v, items);
    var m, top := MountOf(v, size), Dir([], items);
    var l, parent, name := StandsAt(vol, m, v.root, top, v.root.block, None, isOwner, path);
    DirectoryLists(vol, m, l, ItemAt(top, path).value, parent, name);
  }

  // ----- walking an index

  /** `index_walk` on the index named `name`. */
  function WalkIn(vol: seq<byte>, m: Mounted, name: Key, key: Key, position: nat): IndexReader.Step
  {
    match IndexIn(vol, m, name)
    case None => IndexReader.Step(None, position)
    case Some(stream) => Walk(stream, key, position)
  }

  lemma StreamBuilt(dataType: nat, pairs: seq<Entry>, start: nat, end: nat)
    requires ShortKeys(pairs) && Rising(pairs, start, end) && end <= TWO62 && ValidKeys(dataType, pairs)
    requires dataType == STRING_TYPE || dataType == INT64_TYPE
    requires |IndexStream(dataType, pairs)| <= MAX_STREAM
    ensures Built(dataType, pairs) && IndexStream(dataType, pairs) == IndexBytes(dataType, pairs)
  {
    hide IndexBytes, IndexBuildable, IndexGroups;
    IndexIsBuildable(dataType, pairs);
  }

  lemma IndexesBuilt(v: Volume, size: nat)
    requires Placed(v, size) && Streams(v)
    ensures Built(STRING_TYPE, NamesOf(v.root.children)) && Built(INT64_TYPE, TimesOf(v.root.children))
    ensures v.name.stream == IndexBytes(STRING_TYPE, NamesOf(v.root.children))
    ensures v.modified.stream == IndexBytes(INT64_TYPE, TimesOf(v.root.children))
  {
    hide Placed, Laid, LaidAll, Fine, Extent, NamesOf, SizesOf, TimesOf, ShortAll, ShortKeys, IndexBytes, IndexStream, Built, Rising;
    var ls, start, end := v.root.children, v.root.block + 1, v.root.base;
    GatheredBounds(v, size);
    DirParts(v.root, v.root.block);
    PairsRise(ls, v.root.block, start, end);
    KeysValid(ls);
    StreamBuilt(STRING_TYPE, NamesOf(ls), start, end);
    StreamBuilt(INT64_TYPE, TimesOf(ls), start, end);
  }

  /** The streams the guest finds under the two names. */
  lemma IndexesFound(vol: seq<byte>, size: nat, title: seq<byte>, v: Volume, items: seq<Item>)
    requires BuiltFrom(vol, size, title, v, items)
    ensures Open(vol) == Some(MountOf(v, size)) && v.root.DirLoc? && |v.root.children| == |items|
    ensures Built(STRING_TYPE, NamesOf(v.root.children)) && Built(INT64_TYPE, TimesOf(v.root.children))
    ensures IndexIn(vol, MountOf(v, size), NAME) == Some(IndexBytes(STRING_TYPE, NamesOf(v.root.children)))
    ensures IndexIn(vol, MountOf(v, size), LAST_MODIFIED) == Some(IndexBytes(INT64_TYPE, TimesOf(v.root.children)))
  {
    hide Placed, Regions, Streams, Matches, Open, IndexIn, NamesOf, TimesOf, NAME, LAST_MODIFIED, IndexBytes, Built, MountOf;
    Mounts(vol, size, title, v);
    IndicesFound(vol, size, title, v);
    IndexesBuilt(v, size);
    FileShape(v.root, Dir([], items));
  }

  /** The guest finds a name of a built volume through its name index exactly when the index's
      first leaf holds it; the names are the index's in order. */
  lemma NameWalkFindsIff(vol: seq<byte>, size: nat, title: seq<byte>, v: Volume, items: seq<Item>, i: nat)
    requires BuiltFrom(vol, size, title, v, items) && i < |IndexGroups(STRING_TYPE, NamesOf(v.root.children))|
    ensures Open(vol).Some?
    ensures WalkIn(vol, Open(vol).value, NAME, IndexGroups(STRING_TYPE, NamesOf(v.root.children))[i].key, 0).value.Some? <==>
            i < FirstLeafCount(STRING_TYPE, NamesOf(v.root.children))
  {
    hide BuiltFrom, Open, IndexIn, Walk, IndexGroups, FirstLeafCount, NamesOf, TimesOf, NAME, LAST_MODIFIED,
         IndexBytes, Built, MountOf;
    IndexesFound(vol, size, title, v, items);
    WalkFindsIff(STRING_TYPE, NamesOf(v.root.children), i);
  }

  /** The files of a tree. */
  function FileCount(items: seq<Item>): nat
    decreases items
  {
    if items == [] then 0
    else (match items[0] case File(_, _) => 1 case Dir(_, children) => FileCount(children)) + FileCount(items[1..])
  }

  lemma {:induction false} TimesCount(ls: seq<Loc>, items: seq<Item>)
    requires |ls| == |items| && forall i | 0 <= i < |items| :: Matches(ls[i], items[i])
    ensures |TimesOf(ls)| == FileCount(items)
    decreases items
  {
    hide Int64;
    if items != [] {
      TimesCount(ls[1..], items[1..]);
      assert Matches(ls[0], items[0]);
      if items[0].Dir? {
        TimesCount(ls[0].children, items[0].children);
      }
    }
  }

  lemma NoTimes(ls: seq<Loc>)
    requires Built(INT64_TYPE, TimesOf(ls)) && TimesOf(ls) == []
    ensures Stops(IndexBytes(INT64_TYPE, TimesOf(ls)), Int64(FIXTURE_TIME))
  {
    hide IndexBytes, Int64, Walk, TimesOf, IndexBuildable;
    var stream, key := IndexBytes(INT64_TYPE, TimesOf(ls)), Int64(FIXTURE_TIME);
    NothingGrouped();
    WalkFindsNoStranger(INT64_TYPE, TimesOf(ls), key, 0);
    assert Call(stream, key, 0) == None;
  }

  lemma NothingGrouped()
    ensures IndexGroups(INT64_TYPE, []) == []
  {
  }

  /** Listing a built volume's files by their time ends exactly when the tree has at most 125. */
  lemma TimeWalkStopsIff(vol: seq<byte>, size: nat, title: seq<byte>, v: Volume, items: seq<Item>)
    requires BuiltFrom(vol, size, title, v, items)
    ensures Open(vol).Some? && IndexIn(vol, Open(vol).value, LAST_MODIFIED).Some?
    ensures Stops(IndexIn(vol, Open(vol).value, LAST_MODIFIED).value, Int64(FIXTURE_TIME)) <==> FileCount(items) <= NUM_DUPLICATE_VALUES
  {
    hide Placed, Regions, Streams, Open, IndexIn, Stops, NamesOf, TimesOf, NAME, LAST_MODIFIED, IndexBytes, Int64,
         FileCount, Built, MountOf;
    IndexesFound(vol, size, title, v, items);
    TimesCount(v.root.children, items);
    if TimesOf(v.root.children) == [] {
      NoTimes(v.root.children);
    } else {
      TimesWalkStopsIff(v.root.children);
    }
  }
}
