/** Index and directory agreement over a whole built volume. */
module VolumeIndices {
  import opened Bytes
  import opened Keys
  import opened Geometry
  import opened DirectoryLookup
  import opened IndexTree
  import opened IndexReader
  import opened IndexLookup
  import opened Layout
  import opened VolumePlan
  import opened Mount
  import opened VolumeReader
  import opened RoundTrip
  import opened BuiltVolume
  import opened VolumeReads
  import opened IndexAgreement
  import opened PathReach
  import opened StoredIndices

  /** No inode is named by two pairs. */
  ghost predicate OnePerInode(pairs: seq<Entry>)
  {
    forall i, j | 0 <= i < j < |pairs| :: pairs[i].value != pairs[j].value
  }

  /** Reordering keeps it so. */
  lemma OnePerInodeKept(a: seq<Entry>, b: seq<Entry>)
    requires multiset(a) == multiset(b) && OnePerInode(b)
    ensures OnePerInode(a)
  {
    DistinctKept(a, b, (e: Entry) => e.value);
  }

  /** What the volume's index of `pairs` reads back as. */
  lemma PairsRead(dataType: nat, pairs: seq<Entry>, start: nat, end: nat)
    requires ShortKeys(pairs) && Rising(pairs, start, end) && end <= TWO62 && ValidKeys(dataType, pairs)
    requires dataType == STRING_TYPE || dataType == INT64_TYPE
    requires |IndexStream(dataType, pairs)| <= MAX_STREAM
    ensures multiset(IndexPairs(IndexStream(dataType, pairs))) == multiset(pairs)
    ensures OnePerInode(IndexPairs(IndexStream(dataType, pairs)))
    ensures forall e :: e in IndexPairs(IndexStream(dataType, pairs)) <==> e in pairs
  {
    hide IndexBytes, IndexPairs;
    IndexRoundTrip(dataType, pairs);
    OnePerInodeKept(IndexPairs(IndexStream(dataType, pairs)), pairs);
    InMultiset(IndexPairs(IndexStream(dataType, pairs)), pairs);
  }

  // ----- what a walk finds at a path

  function FoundLoc(l: Option<Loc>): Found
  {
    match l
    case None => NotFound
    case Some(FileLoc(_, content, _, _)) => FoundFile(content)
    case Some(DirLoc(_, _, _, _)) => FoundDir
  }

  lemma MatchedFile(l: Loc, item: Item)
    requires Matches(l, item)
    ensures item.File? ==> l.FileLoc? && l.content == item.content
    ensures item.Dir? ==> l.DirLoc?
  {
  }

  /** A proper path's walk ends on what the placed tree has there. */
  lemma {:induction false} WalkIsLoc(vol: seq<byte>, m: Mounted, l: Loc, item: Item, parent: nat, name: Option<Key>,
                                     isOwner: bool, path: seq<Key>)
    requires Standing(vol, m, l, item, parent, name) && item.Dir? && path != [] && ProperPath(path)
    ensures l.DirLoc?
    ensures WalkFrom(vol, m, l.block, isOwner, path) == FoundLoc(LocAt(l.children, path))
    decreases |path|
  {
    hide Standing, Matches, WalkFrom;
    StandingShape(vol, m, l, item, parent, name);
    WalkAtDir(vol, m, l, item, parent, name, isOwner, path);
    var i := ChildNamed(l.children, path[0]);
    assert ProperName(path[0]);
    if i.Some? {
      var child, childItem := l.children[i.value], item.children[i.value];
      ChildStanding(vol, m, l, item, parent, name, i.value);
      StandingShape(vol, m, child, childItem, l.block, Some(child.name));
      MatchedFile(child, childItem);
      if childItem.File? {
        WalkAtFile(vol, m, child, childItem, l.block, Some(child.name), isOwner, path[1..]);
      } else if |path| > 1 {
        WalkIsLoc(vol, m, child, childItem, l.block, Some(child.name), isOwner, path[1..]);
      } else {
        WalkAtDir(vol, m, child, childItem, l.block, Some(child.name), isOwner, path[1..]);
      }
    }
  }

  // ----- the theorems

  /** A built volume of an input tree. */
  ghost predicate BuiltFrom(vol: seq<byte>, size: nat, title: seq<byte>, v: Volume, items: seq<Item>)
  {
    Placed(v, size) && Regions(vol, size, title, v) && Streams(v) && Matches(v.root, Dir([], items))
  }

  lemma BuiltIsFrom(buf: seq<byte>, offset: nat, size: nat, title: seq<byte>, items: seq<Item>, vol: seq<byte>)
    requires Fitting(items, size) && IsVolume(vol, buf, offset, size, title, PlanVolume(items, DataStart(size)))
    ensures BuiltFrom(vol, size, title, PlanVolume(items, DataStart(size)), items)
  {
    hide Placed, Regions, Matches, Streams, IsVolume;
    VolumeRegions(vol, buf, offset, size, title, PlanVolume(items, DataStart(size)));
    PlannedStreams(items, DataStart(size));
    RootMatches(items, DataStart(size));
  }

  lemma BuiltParts(vol: seq<byte>, size: nat, title: seq<byte>, v: Volume, items: seq<Item>)
    requires BuiltFrom(vol, size, title, v, items)
    ensures Open(vol) == Some(MountOf(v, size))
    ensures Standing(vol, MountOf(v, size), v.root, Dir([], items), v.root.block, None)
    ensures v.root.DirLoc? && LegalTree(v.root.children)
    ensures IndexIn(vol, MountOf(v, size), NAME) == Some(v.name.stream)
    ensures IndexIn(vol, MountOf(v, size), LAST_MODIFIED) == Some(v.modified.stream)
    ensures IndexIn(vol, MountOf(v, size), SIZE) == Some(v.size.stream)
  {
    hide Placed, Regions, Streams, Matches, LegalTree, Open, IndexIn, MountOf, NAME, SIZE, LAST_MODIFIED;
    Mounts(vol, size, title, v);
    RootStanding(vol, size, title, v, items);
    IndicesFound(vol, size, title, v);
    MatchedFile(v.root, Dir([], items));
    MatchedLegal(v.root, Dir([], items));
  }

  lemma GatheredBounds(v: Volume, size: nat)
    requires Placed(v, size) && Streams(v)
    ensures v.root.DirLoc? && Laid(v.root) && Fine(v.root, v.root.block) && Extent(v.root, v.root.block) <= TWO62
    ensures |v.name.stream| <= MAX_STREAM && |v.size.stream| <= MAX_STREAM && |v.modified.stream| <= MAX_STREAM
  {
    hide Streams, Laid, Fine, BitmapBlocks, IndicesLaid, Extent;
    IndexBounds(v, size);
    IndicesInside(v, size);
    var all := [v.name, v.appSig, v.modified, v.size, v.indices];
    assert all[0] in all && all[2] in all && all[3] in all;
  }

  /** The pairs gathered from the tree, and the streams that hold them. */
  lemma GatheredPairs(v: Volume, size: nat)
    requires Placed(v, size) && Streams(v)
    ensures OnePerInode(IndexPairs(v.name.stream)) && OnePerInode(IndexPairs(v.size.stream))
    ensures OnePerInode(IndexPairs(v.modified.stream))
    ensures forall e :: e in IndexPairs(v.name.stream) <==> e in NamesOf(v.root.children)
    ensures forall e :: e in IndexPairs(v.size.stream) <==> e in SizesOf(v.root.children)
    ensures forall e :: e in IndexPairs(v.modified.stream) <==> e in TimesOf(v.root.children)
  {
    hide IndexStream, IndexPairs, Placed, Laid, LaidAll, Rising, OnePerInode, Fine, Extent, NamesOf, SizesOf,
         TimesOf, ShortAll, ShortKeys;
    var ls, start, end := v.root.children, v.root.block + 1, v.root.base;
    GatheredBounds(v, size);
    DirParts(v.root, v.root.block);
    PairsRise(ls, v.root.block, start, end);
    KeysValid(ls);
    PairsRead(STRING_TYPE, NamesOf(ls), start, end);
    PairsRead(INT64_TYPE, SizesOf(ls), start, end);
    PairsRead(INT64_TYPE, TimesOf(ls), start, end);
  }

  lemma {:induction false} KeysValid(ls: seq<Loc>)
    ensures ValidKeys(STRING_TYPE, NamesOf(ls)) && ValidKeys(INT64_TYPE, SizesOf(ls)) && ValidKeys(INT64_TYPE, TimesOf(ls))
    decreases ls
  {
    hide Int64;
    if ls != [] {
      KeysValid(ls[1..]);
      if ls[0].DirLoc? {
        KeysValid(ls[0].children);
      }
    }
  }

  /** A path's bytes lead by names to the inode block, and the last of them is `name`. */
  ghost predicate PathLeadsTo(vol: seq<byte>, m: Mounted, isOwner: bool, path: seq<byte>, name: Key, block: nat)
  {
    var cs := Components(path);
    cs != [] && ProperPath(cs) && cs[|cs| - 1] == name && Reach(vol, m, m.root, isOwner, cs) == Some(block)
  }

  /** No name on the way to the block's entry is empty or holds a slash. */
  ghost predicate WaySpells(ls: seq<Loc>, block: nat)
  {
    exists way :: way != [] && SpellableWay(way) && BlockOf(LocAt(ls, way)) == Some(block)
  }

  /** Something that is stored is reached by some path, however the path goes, exactly when no name
      on its way is empty or holds a slash. */
  lemma EntryReachedIff(vol: seq<byte>, size: nat, title: seq<byte>, v: Volume, items: seq<Item>, isOwner: bool, way: seq<Key>)
    requires BuiltFrom(vol, size, title, v, items) && v.root.DirLoc? && way != [] && LocAt(v.root.children, way).Some?
    ensures Open(vol).Some?
    ensures Reached(vol, Open(vol).value, isOwner, LocAt(v.root.children, way).value.block) <==> SpellableWay(way)
    ensures WaySpells(v.root.children, LocAt(v.root.children, way).value.block) <==> SpellableWay(way)
  {
    hide BuiltFrom, LegalTree, Open, IndexIn, Standing, Reached, LocAt, NAME, SIZE, LAST_MODIFIED, SpellableWay;
    BuiltParts(vol, size, title, v, items);
    ReachedIff(vol, MountOf(v, size), v.root, Dir([], items), isOwner, way);
    var block := LocAt(v.root.children, way).value.block;
    if WaySpells(v.root.children, block) {
      var other :| other != [] && SpellableWay(other) && BlockOf(LocAt(v.root.children, other)) == Some(block);
      StandingLaid(vol, MountOf(v, size), v.root, Dir([], items));
      DirParts(v.root, v.root.block);
      OneWay(v.root.children, v.root.block, v.root.block + 1, v.root.base, way, other);
    }
  }

  lemma LocsAtPaths(vol: seq<byte>, m: Mounted, v: Volume, items: seq<Item>, isOwner: bool, way: seq<Key>)
    requires Standing(vol, m, v.root, Dir([], items), v.root.block, None) && m.root == v.root.block && v.root.DirLoc?
    requires way != [] && SpellableWay(way) && LocAt(v.root.children, way).Some?
    ensures var l := LocAt(v.root.children, way).value;
            && Within(v.root.children, l)
            && PathLeadsTo(vol, m, isOwner, Spelled(way), l.name, l.block)
            && WalkFrom(vol, m, m.root, isOwner, Components(Spelled(way))) == FoundLoc(Some(l))
  {
    hide Standing, Within, Reach, WalkFrom, LocAt, Components, Spelled, SpellableWay, ProperPath;
    ReachedIff(vol, m, v.root, Dir([], items), isOwner, way);
    WalkIsLoc(vol, m, v.root, Dir([], items), v.root.block, None, isOwner, way);
    PathsAreWithin(v.root.children, way);
  }

  lemma PathsAtLocs(vol: seq<byte>, m: Mounted, v: Volume, items: seq<Item>, isOwner: bool, path: seq<byte>, name: Key, block: nat)
    returns (l: Loc)
    requires Standing(vol, m, v.root, Dir([], items), v.root.block, None) && m.root == v.root.block
    requires v.root.DirLoc? && PathLeadsTo(vol, m, isOwner, path, name, block)
    ensures Within(v.root.children, l) && l.name == name && l.block == block && WaySpells(v.root.children, block)
    ensures WalkFrom(vol, m, m.root, isOwner, Components(path)) == FoundLoc(Some(l))
  {
    hide Standing, Within, Reach, WalkFrom, Components, LocAt;
    var way := Components(path);
    ReachIsLoc(vol, m, v.root, Dir([], items), v.root.block, None, isOwner, way);
    WalkIsLoc(vol, m, v.root, Dir([], items), v.root.block, None, isOwner, way);
    PathsAreWithin(v.root.children, way);
    ComponentsSpell(path);
    l := LocAt(v.root.children, way).value;
  }

  lemma ComponentsSpell(path: seq<byte>)
    requires ProperPath(Components(path))
    ensures SpellableWay(Components(path))
  {
    var way := Components(path);
    assert forall i | 0 <= i < |way| :: ProperName(way[i]);
  }

  /** The stored entry at a block, by the names on its way. */
  lemma StoredWay(vol: seq<byte>, m: Mounted, v: Volume, items: seq<Item>, l: Loc) returns (way: seq<Key>)
    requires Standing(vol, m, v.root, Dir([], items), v.root.block, None) && v.root.DirLoc?
    requires LegalTree(v.root.children) && Within(v.root.children, l) && WaySpells(v.root.children, l.block)
    ensures way != [] && SpellableWay(way) && LocAt(v.root.children, way) == Some(l)
  {
    hide Standing, Within, LocAt, LegalTree, SpellableWay;
    var own := WayTo(v.root.children, l);
    way :| way != [] && SpellableWay(way) && BlockOf(LocAt(v.root.children, way)) == Some(l.block);
    StandingLaid(vol, m, v.root, Dir([], items));
    DirParts(v.root, v.root.block);
    OneWay(v.root.children, v.root.block, v.root.block + 1, v.root.base, own, way);
  }

  /** A pair is in the name index, and a path can spell its way, exactly when some path ends in its
      name and leads to its inode; no inode is named twice. */
  lemma NameIndexAgrees(vol: seq<byte>, size: nat, title: seq<byte>, v: Volume, items: seq<Item>, isOwner: bool, e: Entry)
    requires BuiltFrom(vol, size, title, v, items)
    ensures v.root.DirLoc? && Open(vol).Some? && IndexIn(vol, Open(vol).value, NAME).Some?
    ensures var m := Open(vol).value; var pairs := IndexPairs(IndexIn(vol, m, NAME).value);
            && OnePerInode(pairs)
            && (e in pairs && WaySpells(v.root.children, e.value) <==>
                exists path :: PathLeadsTo(vol, m, isOwner, path, e.key, e.value))
  {
    hide Placed, Regions, Streams, Matches, LegalTree, Open, IndexIn, Standing, PathLeadsTo,
         IndexPairs, Within, NamesOf, OnePerInode, WaySpells, LocAt, SpellableWay;
    BuiltParts(vol, size, title, v, items);
    GatheredPairs(v, size);
    var m, ls := MountOf(v, size), v.root.children;
    NamesExact(ls, e);
    if e in NamesOf(ls) && WaySpells(ls, e.value) {
      var l :| Within(ls, l) && e == Entry(l.name, l.block);
      var way := StoredWay(vol, m, v, items, l);
      LocsAtPaths(vol, m, v, items, isOwner, way);
    }
    forall path | PathLeadsTo(vol, m, isOwner, path, e.key, e.value) ensures e in NamesOf(ls) && WaySpells(ls, e.value) {
      var l := PathsAtLocs(vol, m, v, items, isOwner, path, e.key, e.value);
    }
  }

  /** A path to `block` that reads as a file of `content`. */
  ghost predicate FileAt(vol: seq<byte>, m: Mounted, isOwner: bool, path: seq<byte>, block: nat, content: seq<byte>)
  {
    var cs := Components(path);
    && cs != [] && PathLeadsTo(vol, m, isOwner, path, cs[|cs| - 1], block)
    && WalkFrom(vol, m, m.root, isOwner, cs) == FoundFile(content)
  }

  /** Some path leads to `block`, and reads as `content`. */
  ghost predicate IsFile(vol: seq<byte>, m: Mounted, isOwner: bool, block: nat, content: seq<byte>)
  {
    exists path :: FileAt(vol, m, isOwner, path, block, content)
  }

  ghost predicate FileWithin(ls: seq<Loc>, block: nat, content: seq<byte>)
  {
    exists l :: Within(ls, l) && l.FileLoc? && l.block == block && l.content == content
  }

  lemma FileLocs(vol: seq<byte>, m: Mounted, v: Volume, items: seq<Item>, isOwner: bool, block: nat, content: seq<byte>)
    requires Standing(vol, m, v.root, Dir([], items), v.root.block, None) && m.root == v.root.block
    requires v.root.DirLoc? && LegalTree(v.root.children)
    ensures IsFile(vol, m, isOwner, block, content) <==>
            FileWithin(v.root.children, block, content) && WaySpells(v.root.children, block)
  {
    hide Standing, LegalTree, Within, WalkFrom, WaySpells, LocAt, SpellableWay, Reach, Components, Spelled;
    if FileWithin(v.root.children, block, content) && WaySpells(v.root.children, block) {
      var l :| Within(v.root.children, l) && l.FileLoc? && l.block == block && l.content == content;
      var way := StoredWay(vol, m, v, items, l);
      LocsAtPaths(vol, m, v, items, isOwner, way);
      assert FileAt(vol, m, isOwner, Spelled(way), block, content);
    }
    if IsFile(vol, m, isOwner, block, content) {
      var path :| FileAt(vol, m, isOwner, path, block, content);
      var cs := Components(path);
      var l := PathsAtLocs(vol, m, v, items, isOwner, path, cs[|cs| - 1], block);
    }
  }

  /** The size index holds one pair per file, its length and its inode, and those a path can spell
      are exactly the files paths read. */
  lemma SizeIndexAgrees(vol: seq<byte>, size: nat, title: seq<byte>, v: Volume, items: seq<Item>, isOwner: bool, e: Entry)
    requires BuiltFrom(vol, size, title, v, items)
    ensures v.root.DirLoc? && Open(vol).Some? && IndexIn(vol, Open(vol).value, SIZE).Some?
    ensures var m := Open(vol).value; var pairs := IndexPairs(IndexIn(vol, m, SIZE).value);
            && OnePerInode(pairs)
            && (e in pairs && WaySpells(v.root.children, e.value) <==>
                exists content :: IsFile(vol, m, isOwner, e.value, content) && e.key == Int64(|content|))
  {
    hide Placed, Regions, Streams, Matches, LegalTree, Open, IndexIn, Standing, IsFile,
         IndexPairs, Within, SizesOf, OnePerInode, Int64, WaySpells;
    BuiltParts(vol, size, title, v, items);
    GatheredPairs(v, size);
    var m, ls := MountOf(v, size), v.root.children;
    SizesExact(ls, e);
    forall content ensures IsFile(vol, m, isOwner, e.value, content) <==> FileWithin(ls, e.value, content) && WaySpells(ls, e.value) {
      FileLocs(vol, m, v, items, isOwner, e.value, content);
    }
    if e in SizesOf(ls) {
      var l :| Within(ls, l) && l.FileLoc? && e == Entry(Int64(|l.content|), l.block);
      assert FileWithin(ls, e.value, l.content);
    }
  }

  /** The last_modified index holds one pair per file, the fixture's time and its inode, and those
      a path can spell are exactly the files paths read. */
  lemma TimeIndexAgrees(vol: seq<byte>, size: nat, title: seq<byte>, v: Volume, items: seq<Item>, isOwner: bool, e: Entry)
    requires BuiltFrom(vol, size, title, v, items)
    ensures v.root.DirLoc? && Open(vol).Some? && IndexIn(vol, Open(vol).value, LAST_MODIFIED).Some?
    ensures var m := Open(vol).value; var pairs := IndexPairs(IndexIn(vol, m, LAST_MODIFIED).value);
            && OnePerInode(pairs)
            && (e in pairs && WaySpells(v.root.children, e.value) <==>
                e.key == Int64(FIXTURE_TIME) && exists content :: IsFile(vol, m, isOwner, e.value, content))
  {
    hide Placed, Regions, Streams, Matches, LegalTree, Open, IndexIn, Standing, IsFile,
         IndexPairs, Within, TimesOf, OnePerInode, Int64, WaySpells;
    BuiltParts(vol, size, title, v, items);
    GatheredPairs(v, size);
    var m, ls := MountOf(v, size), v.root.children;
    TimesExact(ls, e);
    forall content ensures IsFile(vol, m, isOwner, e.value, content) <==> FileWithin(ls, e.value, content) && WaySpells(ls, e.value) {
      FileLocs(vol, m, v, items, isOwner, e.value, content);
    }
    if e in TimesOf(ls) {
      var l :| Within(ls, l) && l.FileLoc? && e == Entry(Int64(FIXTURE_TIME), l.block);
      assert FileWithin(ls, e.value, l.content);
    }
  }

  // ----- trees of plain names

  /** Every name is one a path can spell. */
  ghost predicate PlainItems(items: seq<Item>)
    decreases items
  {
    forall i | 0 <= i < |items| :: Spellable(items[i].name) && (items[i].Dir? ==> PlainItems(items[i].children))
  }

  lemma {:induction false} PlainWay(l: Loc, item: Item, way: seq<Key>)
    requires Matches(l, item) && item.Dir? && l.DirLoc? && PlainItems(item.children) && way != [] && LocAt(l.children, way).Some?
    ensures SpellableWay(way)
    decreases |way|
  {
    var i := ChildNamed(l.children, way[0]).value;
    assert Matches(l.children[i], item.children[i]);
    if |way| > 1 {
      PlainWay(l.children[i], item.children[i], way[1..]);
    }
  }

  /** In such a tree the name index is exactly what paths find. */
  lemma PlainIndexAgrees(vol: seq<byte>, size: nat, title: seq<byte>, v: Volume, items: seq<Item>, isOwner: bool, e: Entry)
    requires BuiltFrom(vol, size, title, v, items) && PlainItems(items)
    ensures Open(vol).Some? && IndexIn(vol, Open(vol).value, NAME).Some?
    ensures var m := Open(vol).value; var pairs := IndexPairs(IndexIn(vol, m, NAME).value);
            e in pairs <==> exists path :: PathLeadsTo(vol, m, isOwner, path, e.key, e.value)
  {
    hide Placed, Regions, Streams, Matches, LegalTree, Open, IndexIn, Standing, PathLeadsTo,
         IndexPairs, Within, NamesOf, OnePerInode, LocAt, SpellableWay, PlainItems;
    NameIndexAgrees(vol, size, title, v, items, isOwner, e);
    BuiltParts(vol, size, title, v, items);
    GatheredPairs(v, size);
    NamesExact(v.root.children, e);
    if e in NamesOf(v.root.children) {
      var l :| Within(v.root.children, l) && e == Entry(l.name, l.block);
      var way := WayTo(v.root.children, l);
      PlainWay(v.root, Dir([], items), way);
    }
  }
}
