/** How many blocks a tree takes does not depend on where its volume puts them: the layout for
    one start is the layout for another, shifted. */
module LayoutCost {
  import opened Bytes
  import opened Keys
  import opened NodePlan
  import opened NodeCodec
  import opened DirectoryTree
  import opened DirectoryStream
  import opened IndexTree
  import opened Layout
  import opened VolumePlan

  // ----- a stream's length comes from its keys

  lemma {:induction false} InsertKeys(dataType: nat, e: Entry, f: Entry, a: seq<Entry>, b: seq<Entry>)
    requires e.key == f.key && KeysOf(a) == KeysOf(b)
    ensures KeysOf(Insert(dataType, e, a)) == KeysOf(Insert(dataType, f, b))
  {
    hide Below;
    if a != [] {
      var n := |a| - 1;
      assert |b| == |a| && a[n].key == KeysOf(a)[n] == b[n].key;
      assert KeysOf(a[..n]) == KeysOf(a)[..n] && KeysOf(b[..n]) == KeysOf(b)[..n];
      InsertKeys(dataType, e, f, a[..n], b[..n]);
      KeysAppend(Insert(dataType, e, a[..n]), a[n]);
      KeysAppend(Insert(dataType, f, b[..n]), b[n]);
      KeysAppend(a, e);
      KeysAppend(b, f);
    } else {
      assert b == [] by { assert |b| == |KeysOf(b)|; }
    }
  }

  lemma KeysAppend(a: seq<Entry>, e: Entry)
    ensures KeysOf(a + [e]) == KeysOf(a) + [e.key]
  {
  }

  /** Sorting looks at keys only. */
  lemma {:induction false} SortKeys(dataType: nat, a: seq<Entry>, b: seq<Entry>)
    requires KeysOf(a) == KeysOf(b)
    ensures KeysOf(Sort(dataType, a)) == KeysOf(Sort(dataType, b))
  {
    assert |a| == |KeysOf(a)| == |b|;
    if a != [] {
      var n := |a| - 1;
      assert a[n].key == KeysOf(a)[n] == b[n].key;
      assert KeysOf(a[..n]) == KeysOf(a)[..n] && KeysOf(b[..n]) == KeysOf(b)[..n];
      SortKeys(dataType, a[..n], b[..n]);
      InsertKeys(dataType, a[n], b[n], Sort(dataType, a[..n]), Sort(dataType, b[..n]));
    }
  }

  lemma KeyAbove(level: seq<Tree>, plan: seq<Chunk>, base: nat, i: nat)
    requires Tiles(plan, |level|) && i < |plan|
    ensures LevelKeys(UpOf(level, plan, base))[i] == LevelKeys(level)[End(plan[i]) - 1]
  {
    hide MaxKey;
    BranchMax(UpOf(level, plan, base)[i]);
  }

  lemma SameAbove(a: seq<Tree>, b: seq<Tree>, base: nat, base': nat)
    requires a != [] && b != [] && LevelKeys(a) == LevelKeys(b)
    ensures |Up(a, base)| == |Up(b, base')| && LevelKeys(Up(a, base)) == LevelKeys(Up(b, base'))
  {
    hide PlanFrom, MaxKey;
    assert |a| == |LevelKeys(a)| == |b|;
    PlanTiles(LevelKeys(a));
    var plan := Plan(LevelKeys(a));
    forall i | 0 <= i < |plan| ensures LevelKeys(Up(a, base))[i] == LevelKeys(Up(b, base'))[i] {
      KeyAbove(a, plan, base, i);
      KeyAbove(b, plan, base', i);
    }
  }

  lemma {:induction false} SameLevels(a: seq<Tree>, b: seq<Tree>, base: nat, base': nat)
    requires a != [] && b != [] && NamesFitLevel(a) && NamesFitLevel(b) && LevelKeys(a) == LevelKeys(b)
    ensures |Nodes(Levels(a, base))| == |Nodes(Levels(b, base'))|
    decreases |a|
  {
    hide PlanFrom, Up;
    assert |a| == |LevelKeys(a)| == |b|;
    if |a| == 1 {
      ConcatOne(a);
      ConcatOne(b);
    } else {
      SameAbove(a, b, base + |a|, base' + |a|);
      LevelShrinks(a, base + |a|);
      LevelShrinks(b, base' + |a|);
      SameLevels(Up(a, base + |a|), Up(b, base' + |a|), base + |a|, base' + |a|);
      NodesCons(a, Levels(Up(a, base + |a|), base + |a|));
      NodesCons(b, Levels(Up(b, base' + |a|), base' + |a|));
    }
  }

  lemma SameLeaves(a: seq<Entry>, b: seq<Entry>)
    requires a != [] && b != [] && KeysOf(a) == KeysOf(b)
    ensures Leaves(a) != [] && Leaves(b) != [] && LevelKeys(Leaves(a)) == LevelKeys(Leaves(b))
  {
    hide PlanFrom;
    assert |a| == |KeysOf(a)| == |b|;
    PlanTiles(KeysOf(a));
    var plan := Plan(KeysOf(a));
    forall i | 0 <= i < |plan| ensures LevelKeys(Leaves(a))[i] == LevelKeys(Leaves(b))[i] {
      var last := End(plan[i]) - 1;
      assert MaxKey(Leaves(a)[i]) == a[last].key == KeysOf(a)[last];
      assert MaxKey(Leaves(b)[i]) == b[last].key == KeysOf(b)[last];
    }
  }

  /** A directory tree's length comes from its names. */
  lemma SameTree(a: seq<Entry>, b: seq<Entry>)
    requires Buildable(a) && Buildable(b) && KeysOf(a) == KeysOf(b)
    ensures |TreeBytes(a)| == |TreeBytes(b)|
  {
    hide PlanFrom, Leaves, Levels, TreeStream;
    LeavesNamesFit(a);
    LeavesNamesFit(b);
    SameLeaves(a, b);
    SameLevels(Leaves(a), Leaves(b), 0, 0);
  }

  // ----- the same for an index

  /** Groups of the same keys and as many values. */
  ghost predicate SameGroups(a: seq<Group>, b: seq<Group>)
  {
    |a| == |b| && forall i | 0 <= i < |a| :: a[i].key == b[i].key && |a[i].values| == |b[i].values|
  }

  lemma SameJoin(a: seq<Group>, b: seq<Group>, e: Entry, f: Entry)
    requires SameGroups(a, b) && e.key == f.key
    ensures SameGroups(Join(a, e), Join(b, f))
  {
  }

  lemma {:induction false} SameGrouping(a: seq<Entry>, b: seq<Entry>)
    requires KeysOf(a) == KeysOf(b)
    ensures SameGroups(Groups(a), Groups(b))
  {
    hide Join, SameGroups;
    assert |a| == |KeysOf(a)| == |b|;
    if a == [] {
      NoGroups();
    } else {
      var n := |a| - 1;
      assert a[n].key == KeysOf(a)[n] == b[n].key;
      assert KeysOf(a[..n]) == KeysOf(a)[..n] && KeysOf(b[..n]) == KeysOf(b)[..n];
      SameGrouping(a[..n], b[..n]);
      SameJoin(Groups(a[..n]), Groups(b[..n]), a[n], b[n]);
    }
  }

  lemma NoGroups()
    ensures SameGroups([], [])
  {
  }

  lemma {:induction false} SameChain(a: seq<nat>, b: seq<nat>, offset: nat, offset': nat)
    requires |a| == |b|
    ensures |ChainImages(a, offset)| == |ChainImages(b, offset')|
    decreases |a|
  {
    hide DuplicateBytes;
    if |a| > NUM_DUPLICATE_VALUES {
      SameChain(a[NUM_DUPLICATE_VALUES..], b[NUM_DUPLICATE_VALUES..], offset + NODE, offset' + NODE);
    }
  }

  lemma NoLinks(offset: nat)
    ensures Link([], offset).duplicates == []
  {
  }

  lemma LinkCount(a: seq<Group>, offset: nat)
    requires a != [] && forall i | 0 <= i < |a| :: a[i].values != []
    ensures var n := if |a[0].values| > 1 then |ChainImages(a[0].values, offset)| else 0;
            |Link(a, offset).duplicates| == n + |Link(a[1..], offset + NODE * n).duplicates|
  {
    hide ChainImages, MakeLink;
  }

  lemma {:induction false} SameLinks(a: seq<Group>, b: seq<Group>, offset: nat, offset': nat)
    requires SameGroups(a, b) && forall i | 0 <= i < |a| :: a[i].values != [] && b[i].values != []
    ensures |Link(a, offset).duplicates| == |Link(b, offset').duplicates|
    decreases |a|
  {
    hide ChainImages, MakeLink, Link;
    if a == [] {
      NoLinks(offset);
      NoLinks(offset');
    } else {
      SameChain(a[0].values, b[0].values, offset, offset');
      var n := if |a[0].values| > 1 then |ChainImages(a[0].values, offset)| else 0;
      SameLinks(a[1..], b[1..], offset + NODE * n, offset' + NODE * n);
      LinkCount(a, offset);
      LinkCount(b, offset');
    }
  }

  /** An index's length comes from its keys and how often each occurs. */
  lemma SameIndex(dataType: nat, a: seq<Entry>, b: seq<Entry>)
    requires ShortKeys(a) && ShortKeys(b) && KeysOf(a) == KeysOf(b)
    ensures |IndexStream(dataType, a)| == |IndexStream(dataType, b)|
  {
    hide PlanFrom, Link, Groups, Sort, TreeStream, Images;
    SortKeys(dataType, a, b);
    SameGrouping(Sort(dataType, a), Sort(dataType, b));
    IndexIsBuildable(dataType, a);
    IndexIsBuildable(dataType, b);
    var g, h := IndexGroups(dataType, a), IndexGroups(dataType, b);
    assert SameGroups(g, h);
    assert GroupKeys(g) == GroupKeys(h);
    var offset := NODE * (1 + |Plan(GroupKeys(g))|);
    SameLinks(g, h, offset, offset);
    assert |IndexNodes(g)| == |IndexNodes(h)|;
  }

  // ----- shifting

  function Shift(l: Loc, d: nat): (r: Loc)
    ensures r.name == l.name && r.block == l.block + d && r.base == l.base + d && r.FileLoc? == l.FileLoc?
    decreases l
  {
    match l
    case FileLoc(name, content, block, base) => FileLoc(name, content, block + d, base + d)
    case DirLoc(name, block, base, children) => DirLoc(name, block + d, base + d, ShiftAll(children, d))
  }

  function ShiftAll(ls: seq<Loc>, d: nat): (r: seq<Loc>)
    ensures |r| == |ls| && forall i | 0 <= i < |r| :: r[i] == Shift(ls[i], d)
    decreases ls
  {
    if ls == [] then [] else [Shift(ls[0], d)] + ShiftAll(ls[1..], d)
  }

  /** A directory's stream is as long wherever its blocks lie. */
  lemma SameDirStream(ls: seq<Loc>, d: nat, own: nat, parent: nat, own': nat, parent': nat)
    requires ShortNames(ls)
    ensures ShortNames(ShiftAll(ls, d))
    ensures |DirStream(ShiftAll(ls, d), own', parent')| == |DirStream(ls, own, parent)|
  {
    hide TreeBytes, Sort, Buildable;
    var a, b := Table(ls, own, parent), Table(ShiftAll(ls, d), own', parent');
    assert KeysOf(a) == KeysOf(b);
    SortKeys(STRING_TYPE, a, b);
    SameTree(Entries(ls, own, parent), Entries(ShiftAll(ls, d), own', parent'));
  }

  lemma SameExtent(l: Loc, parent: nat, parent': nat, d: nat)
    requires l.DirLoc? ==> ShortNames(l.children)
    ensures l.DirLoc? ==> ShortNames(Shift(l, d).children)
    ensures Extent(Shift(l, d), parent') == Extent(l, parent) + d
  {
    hide DirStream, Blocks;
    if l.DirLoc? {
      SameDirStream(l.children, d, l.block, parent, l.block + d, parent');
    }
  }

  lemma ShiftCons(l: Loc, ls: seq<Loc>, d: nat)
    ensures ShiftAll([l] + ls, d) == [Shift(l, d)] + ShiftAll(ls, d)
  {
    assert ([l] + ls)[1..] == ls;
  }

  lemma NothingShifts(own: nat, own': nat, next: nat, d: nat)
    ensures Locate([], own, next) == Located([], next) && Locate([], own', next + d) == Located([], next + d)
    ensures ShiftAll([], d) == []
  {
  }

  lemma FileShifts(item: Item, own: nat, own': nat, next: nat, d: nat)
    requires item.File?
    ensures LocateOne(item, own', next + d) == (Shift(LocateOne(item, own, next).0, d), LocateOne(item, own, next).1 + d)
  {
    hide Blocks;
  }

  /** The layout from a later block is the layout from an earlier one, shifted. */
  lemma {:induction false} LocateShift(items: seq<Item>, own: nat, own': nat, next: nat, d: nat)
    requires Legal(items)
    ensures Locate(items, own', next + d) ==
            Located(ShiftAll(Locate(items, own, next).locs, d), Locate(items, own, next).next + d)
    decreases items
  {
    hide Locate, LocateOne, Legal, Shift, ShiftAll;
    if items == [] {
      NothingShifts(own, own', next, d);
    } else {
      LocateNext(items, own, next);
      LocateNext(items, own', next + d);
      LocateOneShift(items[0], own, own', next, d);
      var first := LocateOne(items[0], own, next);
      LocateShift(items[1..], own, own', first.1, d);
      ShiftCons(first.0, Locate(items[1..], own, first.1).locs, d);
    }
  }

  lemma {:induction false} LocateOneShift(item: Item, own: nat, own': nat, next: nat, d: nat)
    requires item.Dir? ==> Legal(item.children)
    ensures LocateOne(item, own', next + d) == (Shift(LocateOne(item, own, next).0, d), LocateOne(item, own, next).1 + d)
    decreases item
  {
    hide Locate, LocateOne, Legal, ShiftAll, DirStream, Blocks;
    if item.File? {
      FileShifts(item, own, own', next, d);
    } else {
      LocateDir(item, own, next);
      LocateDir(item, own', next + d);
      LocateShift(item.children, next, next + d, next + 1, d);
      SameDirStream(Locate(item.children, next, next + 1).locs, d, next, own, next + d, own');
    }
  }

  lemma {:induction false} FineShift(l: Loc, parent: nat, parent': nat, d: nat)
    ensures Fine(Shift(l, d), parent') <==> Fine(l, parent)
    decreases l
  {
    hide DirStream, Blocks;
    if l.DirLoc? {
      var moved := Shift(l, d);
      assert ShortNames(moved.children) <==> ShortNames(l.children) by {
        assert forall i | 0 <= i < |l.children| :: moved.children[i].name == l.children[i].name;
      }
      if ShortNames(l.children) {
        SameDirStream(l.children, d, l.block, parent, moved.block, parent');
        forall i | 0 <= i < |l.children| ensures Fine(moved.children[i], moved.block) <==> Fine(l.children[i], l.block) {
          FineShift(l.children[i], l.block, moved.block, d);
        }
      }
    }
  }

  lemma {:induction false} NamesShift(ls: seq<Loc>, d: nat)
    ensures KeysOf(NamesOf(ShiftAll(ls, d))) == KeysOf(NamesOf(ls))
    decreases ls
  {
    hide Int64;
    if ls != [] {
      assert ShiftAll(ls, d)[1..] == ShiftAll(ls[1..], d);
      NamesShift(ls[1..], d);
      if ls[0].DirLoc? {
        NamesShift(ls[0].children, d);
      }
    }
  }

  lemma {:induction false} SizesShift(ls: seq<Loc>, d: nat)
    ensures KeysOf(SizesOf(ShiftAll(ls, d))) == KeysOf(SizesOf(ls))
    decreases ls
  {
    hide Int64;
    if ls != [] {
      assert ShiftAll(ls, d)[1..] == ShiftAll(ls[1..], d);
      SizesShift(ls[1..], d);
      if ls[0].DirLoc? {
        SizesShift(ls[0].children, d);
      }
    }
  }

  lemma {:induction false} TimesShift(ls: seq<Loc>, d: nat)
    ensures KeysOf(TimesOf(ShiftAll(ls, d))) == KeysOf(TimesOf(ls))
    decreases ls
  {
    hide Int64;
    if ls != [] {
      assert ShiftAll(ls, d)[1..] == ShiftAll(ls[1..], d);
      TimesShift(ls[1..], d);
      if ls[0].DirLoc? {
        TimesShift(ls[0].children, d);
      }
    }
  }

  // ----- the whole volume

  /** The blocks a tree's volume takes besides its fixed regions. */
  ghost function Cost(items: seq<Item>): nat
    requires Legal(items)
  {
    Used(PlanVolume(items, 0))
  }

  /** Every stream of the tree's volume fits one run. */
  ghost predicate Streamable(items: seq<Item>)
    requires Legal(items)
  {
    VolumeFine(PlanVolume(items, 0))
  }

  lemma RootShift(items: seq<Item>, start: nat)
    requires Legal(items)
    ensures RootOf(items, start) == Shift(RootOf(items, 0), start)
  {
    hide Locate, Legal;
    LocateShift(items, 0, start, 1, start);
  }

  /** An index shifted is an index of the same length. */
  ghost predicate Moved(a: IndexLoc, b: IndexLoc, d: nat)
  {
    b.block == a.block + d && b.base == a.base + d && |b.stream| == |a.stream|
  }

  lemma StreamsShift(items: seq<Item>, start: nat)
    requires Legal(items)
    ensures ShortKeys(NamesOf(RootOf(items, start).children)) && ShortKeys(SizesOf(RootOf(items, start).children))
    ensures ShortKeys(TimesOf(RootOf(items, start).children))
    ensures ShortKeys(NamesOf(RootOf(items, 0).children)) && ShortKeys(SizesOf(RootOf(items, 0).children))
    ensures ShortKeys(TimesOf(RootOf(items, 0).children))
    ensures var a, b := RootOf(items, 0).children, RootOf(items, start).children;
            && |IndexStream(STRING_TYPE, NamesOf(a))| == |IndexStream(STRING_TYPE, NamesOf(b))|
            && |IndexStream(INT64_TYPE, SizesOf(a))| == |IndexStream(INT64_TYPE, SizesOf(b))|
            && |IndexStream(INT64_TYPE, TimesOf(a))| == |IndexStream(INT64_TYPE, TimesOf(b))|
  {
    hide Locate, Legal, IndexStream, NamesOf, SizesOf, TimesOf, ShortAll, ShortKeys, ShiftAll;
    RootShift(items, start);
    LocateShort(items, 0, 1);
    LocateShort(items, start, start + 1);
    var a, b := RootOf(items, 0).children, RootOf(items, start).children;
    NamesShort(a);
    NamesShort(b);
    NamesShift(a, start);
    SizesShift(a, start);
    TimesShift(a, start);
    SameIndex(STRING_TYPE, NamesOf(a), NamesOf(b));
    SameIndex(INT64_TYPE, SizesOf(a), SizesOf(b));
    SameIndex(INT64_TYPE, TimesOf(a), TimesOf(b));
  }

  lemma TableShift(a: nat, b: nat, c: nat, e: nat, d: nat)
    ensures |IndexStream(STRING_TYPE, IndexTable(a, b, c, e))| ==
            |IndexStream(STRING_TYPE, IndexTable(a + d, b + d, c + d, e + d))|
  {
    hide IndexStream;
    assert KeysOf(IndexTable(a, b, c, e)) == KeysOf(IndexTable(a + d, b + d, c + d, e + d));
    SameIndex(STRING_TYPE, IndexTable(a, b, c, e), IndexTable(a + d, b + d, c + d, e + d));
  }

  lemma IndicesShift(items: seq<Item>, start: nat)
    requires Legal(items)
    ensures var v, w := PlanVolume(items, 0), PlanVolume(items, start);
            && Moved(v.name, w.name, start) && Moved(v.appSig, w.appSig, start) && Moved(v.modified, w.modified, start)
            && Moved(v.size, w.size, start) && Moved(v.indices, w.indices, start)
  {
    hide Locate, Legal, IndexStream, NamesOf, SizesOf, TimesOf, ShortAll, ShortKeys, RootOf, Extent, Blocks,
         IndexTable;
    StreamsShift(items, start);
    RootShift(items, start);
    SameExtent(RootOf(items, 0), 0, start, start);
    var v := PlanVolume(items, 0);
    TableShift(v.name.block, v.appSig.block, v.modified.block, v.size.block, start);
  }

  /** Blocks used are the fixed regions' and the tree's own, whatever the volume's size. */
  lemma UsedIsCost(items: seq<Item>, start: nat)
    requires Legal(items)
    ensures Used(PlanVolume(items, start)) == start + Cost(items)
    ensures VolumeFine(PlanVolume(items, start)) <==> Streamable(items)
  {
    hide Fine, PlanVolume, Legal, Locate;
    IndicesShift(items, start);
    RootShift(items, start);
    FineShift(RootOf(items, 0), 0, start, start);
  }
}
