/** How large a tree's streams and its whole layout can be. */
module LayoutBounds {
  import opened Bytes
  import opened Keys
  import opened NodePlan
  import opened NodeCodec
  import opened DirectoryTree
  import opened DirectoryStream
  import opened IndexTree
  import opened Layout
  import opened VolumePlan
  import opened LayoutCost
  import IndexLookup

  // ----- upper bounds

  lemma {:induction false} NodeCount(level: seq<Tree>, base: nat)
    requires level != [] && NamesFitLevel(level)
    ensures |Nodes(Levels(level, base))| <= 3 * |level| - 2
    decreases |level|
  {
    hide Up;
    if |level| == 1 {
      ConcatOne(level);
    } else {
      var base' := base + |level|;
      LevelShrinks(level, base');
      NodeCount(Up(level, base'), base');
      NodesCons(level, Levels(Up(level, base'), base'));
    }
  }

  lemma {:induction false} PlanCount(plan: seq<Chunk>, n: nat)
    requires Tiles(plan, n) && n > 0
    ensures |plan| <= n
  {
    forall i | 0 <= i < |plan| ensures plan[i].first >= i {
      FirstAtLeast(plan, n, i);
    }
  }

  lemma {:induction false} FirstAtLeast(plan: seq<Chunk>, n: nat, i: nat)
    requires Tiles(plan, n) && i < |plan|
    ensures plan[i].first >= i
  {
    if i > 0 {
      FirstAtLeast(plan, n, i - 1);
    }
  }

  /** A directory's stream takes at most three nodes an entry. */
  lemma TreeUpper(entries: seq<Entry>)
    requires Buildable(entries)
    ensures |TreeBytes(entries)| <= NODE * (3 * |entries|)
  {
    hide PlanFrom, Levels, TreeStream, Leaves;
    LeavesNamesFit(entries);
    LeafCount(entries);
    NodeCount(Leaves(entries), 0);
  }

  lemma LeafCount(entries: seq<Entry>)
    requires entries != []
    ensures 0 < |Leaves(entries)| <= |entries|
  {
    hide PlanFrom;
    PlanTiles(KeysOf(entries));
    PlanCount(Plan(KeysOf(entries)), |entries|);
  }

  lemma {:induction false} ChainUpper(values: seq<nat>, offset: nat)
    requires values != []
    ensures |ChainImages(values, offset)| <= |values|
    decreases |values|
  {
    hide DuplicateBytes;
    if |values| > NUM_DUPLICATE_VALUES {
      ChainUpper(values[NUM_DUPLICATE_VALUES..], offset + NODE);
    }
  }

  function ValueCount(groups: seq<Group>): nat
  {
    if groups == [] then 0 else |groups[0].values| + ValueCount(groups[1..])
  }

  lemma {:induction false} LinkUpper(groups: seq<Group>, offset: nat)
    requires forall i | 0 <= i < |groups| :: groups[i].values != []
    ensures |Link(groups, offset).duplicates| <= ValueCount(groups) && |groups| <= ValueCount(groups)
    decreases |groups|
  {
    hide ChainImages, MakeLink;
    if groups != [] {
      ChainUpper(groups[0].values, offset);
      var n := if |groups[0].values| > 1 then |ChainImages(groups[0].values, offset)| else 0;
      LinkUpper(groups[1..], offset + NODE * n);
    }
  }

  lemma {:induction false} ValuesExpand(groups: seq<Group>)
    ensures ValueCount(groups) == |Expand(groups)|
  {
    if groups != [] {
      ValuesExpand(groups[1..]);
    }
  }

  /** An index takes at most two nodes a pair, and two more. */
  lemma IndexUpper(dataType: nat, pairs: seq<Entry>)
    requires ShortKeys(pairs)
    ensures |IndexStream(dataType, pairs)| <= NODE * (2 + 2 * |pairs|)
  {
    hide PlanFrom, Link, IndexGroups, TreeStream, Images;
    IndexIsBuildable(dataType, pairs);
    var groups := IndexGroups(dataType, pairs);
    IndexConserves(dataType, pairs);
    assert |Expand(groups)| == |multiset(Expand(groups))| == |pairs|;
    ValuesExpand(groups);
    LinkUpper(groups, NODE * (1 + |Plan(GroupKeys(groups))|));
    if groups != [] {
      PlanTiles(GroupKeys(groups));
      PlanCount(Plan(GroupKeys(groups)), |groups|);
    } else {
      IndexLookup.EmptyPlan(GroupKeys(groups));
    }
  }

  lemma BlocksUpper(length: nat, nodes: nat)
    requires length <= NODE * nodes
    ensures Blocks(length) <= 2 * nodes
  {
  }

  lemma DirStreamUpper(children: seq<Loc>, own: nat, parent: nat)
    requires ShortNames(children)
    ensures Blocks(|DirStream(children, own, parent)|) <= 6 * (|children| + 2)
  {
    hide TreeBytes, Sort;
    TreeUpper(Entries(children, own, parent));
    BlocksUpper(|DirStream(children, own, parent)|, 3 * (|children| + 2));
  }

  lemma IndexBlocksUpper(dataType: nat, pairs: seq<Entry>)
    requires ShortKeys(pairs)
    ensures Blocks(|IndexStream(dataType, pairs)|) <= 4 + 4 * |pairs|
  {
    hide IndexStream;
    IndexUpper(dataType, pairs);
    BlocksUpper(|IndexStream(dataType, pairs)|, 2 + 2 * |pairs|);
  }

  lemma NoKeys()
    ensures ShortKeys([])
  {
  }

  lemma TableKeys(a: nat, b: nat, c: nat, d: nat)
    ensures ShortKeys(IndexTable(a, b, c, d)) && |IndexTable(a, b, c, d)| == 4
  {
  }

  /** A tree whose root fits and whose indices are of a few thousand pairs fits its runs; the
      indices cost at most four blocks a pair. */
  lemma CostUpper(items: seq<Item>)
    requires Legal(items) && Fine(RootOf(items, 0), 0)
    requires var ls := RootOf(items, 0).children;
             |NamesOf(ls)| <= 16000 && |SizesOf(ls)| <= 16000 && |TimesOf(ls)| <= 16000
    ensures var ls := RootOf(items, 0).children;
            && Streamable(items)
            && Extent(RootOf(items, 0), 0) < Cost(items)
            && Cost(items) <= Extent(RootOf(items, 0), 0) + 41 + 4 * (|NamesOf(ls)| + |SizesOf(ls)| + |TimesOf(ls)|)
  {
    hide DirStream, Blocks, IndexStream, NamesOf, SizesOf, TimesOf, Fine, ShortAll, ShortKeys, RootOf, Extent,
         IndexTable;
    StreamsShift(items, 0);
    var ls, v := RootOf(items, 0).children, PlanVolume(items, 0);
    IndexBlocksUpper(STRING_TYPE, NamesOf(ls));
    NoKeys();
    IndexBlocksUpper(STRING_TYPE, []);
    IndexBlocksUpper(INT64_TYPE, TimesOf(ls));
    IndexBlocksUpper(INT64_TYPE, SizesOf(ls));
    TableKeys(v.name.block, v.appSig.block, v.modified.block, v.size.block);
    IndexBlocksUpper(STRING_TYPE, IndexTable(v.name.block, v.appSig.block, v.modified.block, v.size.block));
  }

  // ----- lower bounds

  /** The most keys one node holds. */
  const NODE_KEYS: nat := 409

  lemma {:induction false} FirstAtMost(keys: seq<Key>, i: nat)
    requires keys != [] && NamesFit(keys) && i < |Plan(keys)| && Tiles(Plan(keys), |keys|)
    ensures End(Plan(keys)[i]) <= NODE_KEYS * (i + 1)
  {
    hide Plan, Tiles;
    PlanAllFit(keys);
    assert Fits(Plan(keys)[i].count, Plan(keys)[i].keyBytes);
    if i > 0 {
      FirstAtMost(keys, i - 1);
      TilesMeet(Plan(keys), |keys|, i);
    } else {
      TilesMeet(Plan(keys), |keys|, 0);
    }
  }

  lemma TilesMeet(plan: seq<Chunk>, n: nat, i: nat)
    requires Tiles(plan, n) && i < |plan|
    ensures plan[i].first == if i == 0 then 0 else End(plan[i - 1])
  {
  }

  lemma PlanLower(keys: seq<Key>)
    requires NamesFit(keys)
    ensures |keys| <= NODE_KEYS * |Plan(keys)|
  {
    hide Plan;
    if keys != [] {
      PlanTiles(keys);
      FirstAtMost(keys, |Plan(keys)| - 1);
    }
  }

  lemma {:induction false} ChainLower(values: seq<nat>, offset: nat)
    ensures |values| <= NODE_KEYS * |ChainImages(values, offset)|
    decreases |values|
  {
    hide DuplicateBytes;
    if |values| > NUM_DUPLICATE_VALUES {
      ChainLower(values[NUM_DUPLICATE_VALUES..], offset + NODE);
    }
  }

  lemma {:induction false} LinkLower(groups: seq<Group>, offset: nat)
    requires forall i | 0 <= i < |groups| :: groups[i].values != []
    ensures ValueCount(groups) <= |groups| + NODE_KEYS * |Link(groups, offset).duplicates|
    decreases |groups|
  {
    hide ChainImages, MakeLink;
    if groups != [] {
      ChainLower(groups[0].values, offset);
      var n := if |groups[0].values| > 1 then |ChainImages(groups[0].values, offset)| else 0;
      LinkLower(groups[1..], offset + NODE * n);
    }
  }

  /** So an index that fits one run has a bounded number of pairs. */
  lemma IndexLower(dataType: nat, pairs: seq<Entry>)
    requires ShortKeys(pairs)
    ensures NODE * |pairs| <= NODE_KEYS * |IndexStream(dataType, pairs)|
  {
    hide Plan, Link, IndexGroups, TreeStream, Images;
    IndexIsBuildable(dataType, pairs);
    var groups := IndexGroups(dataType, pairs);
    IndexConserves(dataType, pairs);
    assert |Expand(groups)| == |multiset(Expand(groups))| == |pairs|;
    ValuesExpand(groups);
    LinkLower(groups, NODE * (1 + |Plan(GroupKeys(groups))|));
    PlanLower(GroupKeys(groups));
  }

  // ----- a whole layout

  lemma {:induction false} LaidBound(ls: seq<Loc>, own: nat, start: nat, end: nat)
    requires LaidAll(ls, own, start, end) && FineAll(ls, own)
    ensures end <= start + (MAX_RUN + 1) * |NamesOf(ls)|
    decreases ls
  {
    hide DirStream, Blocks;
    if ls != [] {
      assert Fine(ls[0], own);
      LaidBound(ls[1..], own, Extent(ls[0], own), end);
      if ls[0].DirLoc? {
        LaidBound(ls[0].children, ls[0].block, ls[0].block + 1, ls[0].base);
      }
    }
  }

  lemma RunBound(length: nat)
    requires Blocks(length) <= MAX_RUN
    ensures length <= MAX_RUN * BLOCK
  {
  }

  /** A tree whose streams fit one run each takes fewer than 2^41 blocks: the name index, which
      must fit one too, bounds how many entries there are. */
  lemma StreamableIsSmall(items: seq<Item>)
    requires Legal(items) && Streamable(items)
    ensures Cost(items) < 0x200_0000_0000
  {
    hide Legal, Locate, LaidAll, DirStream, Blocks, IndexStream, NamesOf, SizesOf, TimesOf, ShortAll, ShortKeys, IndexTable;
    var v, ls := PlanVolume(items, 0), RootOf(items, 0).children;
    RootLaid(items, 0);
    LaidBound(ls, 0, 1, v.root.base);
    StreamsShift(items, 0);
    RunBound(|v.name.stream|);
    IndexLower(STRING_TYPE, NamesOf(ls));
  }
}
