/** The multi-level B+tree `_tree` builds bottom-up, as a tree of nodes with stream offsets:
    its shape, its links, and root-to-leaf search against a plain sorted map. */
module DirectoryTree {
  import opened Bytes
  import opened Keys
  import opened NodePlan
  import opened NodeCodec

  /** A node of the built tree: a leaf with its sibling links, or a node over children. */
  datatype Tree =
    | Leaf(offset: nat, left: nat, right: nat, entries: seq<Entry>)
    | Branch(offset: nat, children: seq<Tree>)

  /** The entries below a node, in order. */
  function Flat(t: Tree): seq<Entry>
    decreases t
  {
    match t
    case Leaf(_, _, _, entries) => entries
    case Branch(_, children) => FlatAll(children)
  }

  function FlatAll(ts: seq<Tree>): seq<Entry>
    decreases ts
  {
    if ts == [] then [] else Flat(ts[0]) + FlatAll(ts[1..])
  }

  /** A node's greatest key: its last child's, down to a leaf's last entry. */
  function MaxKey(t: Tree): Key
  {
    match t
    case Leaf(_, _, _, entries) => if entries == [] then [] else entries[|entries| - 1].key
    case Branch(_, children) => if children == [] then [] else MaxKey(children[|children| - 1])
  }

  /** Every leaf sits at depth `h`, and no node is empty. */
  ghost predicate Uniform(t: Tree, h: nat)
    decreases t
  {
    match t
    case Leaf(_, _, _, entries) => h == 1 && entries != []
    case Branch(_, children) => h > 1 && children != [] && forall i | 0 <= i < |children| :: Uniform(children[i], h - 1)
  }

  ghost predicate UniformLevel(level: seq<Tree>, h: nat)
  {
    level != [] && forall i | 0 <= i < |level| :: Uniform(level[i], h)
  }

  // ----- building

  /** One entry per node of a level: its greatest key and its offset. */
  function LevelEntries(level: seq<Tree>): (s: seq<Entry>)
    ensures |s| == |level| && forall i | 0 <= i < |s| :: s[i] == Entry(MaxKey(level[i]), level[i].offset)
  {
    seq(|level|, i requires 0 <= i < |level| => Entry(MaxKey(level[i]), level[i].offset))
  }

  function LevelKeys(level: seq<Tree>): seq<Key>
  {
    KeysOf(LevelEntries(level))
  }

  function Offset(index: nat): nat { NODE * (index + 1) }

  /** The leaf chunk `i` becomes, linked to its neighbours. */
  function LeafAt(entries: seq<Entry>, plan: seq<Chunk>, i: nat): (leaf: Tree)
    requires i < |plan| && plan[i].first + plan[i].count <= |entries|
    ensures leaf.offset == Offset(i) && Flat(leaf) == entries[plan[i].first..End(plan[i])]
  {
    Leaf(Offset(i), if i == 0 then NULL_LINK else Offset(i - 1),
         if i + 1 == |plan| then NULL_LINK else Offset(i + 1), entries[plan[i].first..End(plan[i])])
  }

  function LeavesOf(entries: seq<Entry>, plan: seq<Chunk>): (level: seq<Tree>)
    requires forall i | 0 <= i < |plan| :: plan[i].first + plan[i].count <= |entries|
    ensures |level| == |plan|
    ensures forall i | 0 <= i < |plan| :: level[i] == LeafAt(entries, plan, i)
  {
    seq(|plan|, i requires 0 <= i < |plan| => LeafAt(entries, plan, i))
  }

  /** The level a plan makes above `level`, its nodes after the `base` already written. */
  function UpOf(level: seq<Tree>, plan: seq<Chunk>, base: nat): (above: seq<Tree>)
    requires forall i | 0 <= i < |plan| :: plan[i].first + plan[i].count <= |level|
    ensures |above| == |plan|
    ensures forall i | 0 <= i < |plan| :: above[i] == Branch(Offset(base + i), level[plan[i].first..End(plan[i])])
  {
    seq(|plan|, i requires 0 <= i < |plan| => Branch(Offset(base + i), level[plan[i].first..End(plan[i])]))
  }

  function Leaves(entries: seq<Entry>): (level: seq<Tree>)
    requires entries != []
  {
    PlanTiles(KeysOf(entries));
    LeavesOf(entries, Plan(KeysOf(entries)))
  }

  function Up(level: seq<Tree>, base: nat): (above: seq<Tree>)
    requires level != []
  {
    PlanTiles(LevelKeys(level));
    UpOf(level, Plan(LevelKeys(level)), base)
  }

  ghost predicate NamesFitLevel(level: seq<Tree>)
  {
    forall i | 0 <= i < |level| :: |MaxKey(level[i])| <= MAX_NAME
  }

  lemma UpNamesFit(level: seq<Tree>, plan: seq<Chunk>, base: nat)
    requires NamesFitLevel(level) && Tiles(plan, |level|)
    ensures NamesFitLevel(UpOf(level, plan, base))
  {
    var up := UpOf(level, plan, base);
    forall i | 0 <= i < |up| ensures |MaxKey(up[i])| <= MAX_NAME {
      assert MaxKey(up[i]) == MaxKey(level[End(plan[i]) - 1]);
    }
  }

  /** All the levels from `level` up to the root, leaves first. The loop ends because the
      format's names keep every level smaller than the one below. */
  function Levels(level: seq<Tree>, base: nat): (levels: seq<seq<Tree>>)
    requires level != [] && NamesFitLevel(level)
    ensures levels != [] && levels[0] == level
    ensures |levels[|levels| - 1]| == 1
    decreases |level|
  {
    if |level| == 1 then [level]
    else
      LevelShrinks(level, base + |level|);
      [level] + Levels(Up(level, base + |level|), base + |level|)
  }

  lemma LevelShrinks(level: seq<Tree>, base: nat)
    requires |level| > 1 && NamesFitLevel(level)
    ensures 1 <= |Up(level, base)| <= (|level| + 1) / 2 && NamesFitLevel(Up(level, base))
  {
    PlanTiles(LevelKeys(level));
    PlanHalves(LevelKeys(level));
    UpNamesFit(level, Plan(LevelKeys(level)), base);
  }

  // ----- one level keeps the entries of the one below

  lemma {:induction false} FlatAllAppend(a: seq<Tree>, b: seq<Tree>)
    ensures FlatAll(a + b) == FlatAll(a) + FlatAll(b)
  {
    if a == [] {
      assert a + b == b;
    } else {
      assert (a + b)[1..] == a[1..] + b;
      FlatAllAppend(a[1..], b);
    }
  }

  function ChildrenOf(level: seq<Tree>): seq<Tree>
    requires forall t | t in level :: t.Branch?
  {
    if level == [] then [] else level[0].children + ChildrenOf(level[1..])
  }

  lemma {:induction false} FlatOfChildren(level: seq<Tree>)
    requires forall t | t in level :: t.Branch?
    ensures FlatAll(level) == FlatAll(ChildrenOf(level))
  {
    if level != [] {
      FlatOfChildren(level[1..]);
      FlatAllAppend(level[0].children, ChildrenOf(level[1..]));
    }
  }

  lemma {:induction false} ChildrenAreConcat(level: seq<Tree>, ss: seq<seq<Tree>>)
    requires |level| == |ss| && forall i | 0 <= i < |level| :: level[i].Branch? && level[i].children == ss[i]
    ensures (forall t | t in level :: t.Branch?) && ChildrenOf(level) == Concat(ss)
  {
    if level != [] {
      ChildrenAreConcat(level[1..], ss[1..]);
    }
  }

  lemma {:induction false} FlatIsConcat(level: seq<Tree>, ss: seq<seq<Entry>>)
    requires |level| == |ss| && forall i | 0 <= i < |level| :: Flat(level[i]) == ss[i]
    ensures FlatAll(level) == Concat(ss)
  {
    if level != [] {
      FlatIsConcat(level[1..], ss[1..]);
    }
  }

  /** The children of a level, in order, are exactly the level below. */
  lemma UpChildren(level: seq<Tree>, base: nat)
    requires level != []
    ensures forall t | t in Up(level, base) :: t.Branch?
    ensures ChildrenOf(Up(level, base)) == level
  {
    var plan := Plan(LevelKeys(level));
    PlanTiles(LevelKeys(level));
    SlicesConcat(level, plan);
    ChildrenAreConcat(UpOf(level, plan, base), Slices(level, plan));
  }

  lemma LeavesOfFlat(entries: seq<Entry>, plan: seq<Chunk>)
    requires Tiles(plan, |entries|)
    ensures FlatAll(LeavesOf(entries, plan)) == entries
    ensures UniformLevel(LeavesOf(entries, plan), 1)
  {
    SlicesConcat(entries, plan);
    FlatIsConcat(LeavesOf(entries, plan), Slices(entries, plan));
  }

  /** The leaves hold the entries, in order. */
  lemma LeavesFlat(entries: seq<Entry>)
    requires entries != []
    ensures FlatAll(Leaves(entries)) == entries
    ensures UniformLevel(Leaves(entries), 1)
  {
    PlanTiles(KeysOf(entries));
    LeavesOfFlat(entries, Plan(KeysOf(entries)));
  }

  lemma LeavesOfNamesFit(entries: seq<Entry>, plan: seq<Chunk>)
    requires Tiles(plan, |entries|) && NamesFit(KeysOf(entries))
    ensures NamesFitLevel(LeavesOf(entries, plan))
  {
    var ls := LeavesOf(entries, plan);
    forall i | 0 <= i < |ls| ensures |MaxKey(ls[i])| <= MAX_NAME {
      assert MaxKey(ls[i]) == KeysOf(entries)[End(plan[i]) - 1];
    }
  }

  lemma LeavesNamesFit(entries: seq<Entry>)
    requires entries != [] && NamesFit(KeysOf(entries))
    ensures NamesFitLevel(Leaves(entries))
  {
    PlanTiles(KeysOf(entries));
    LeavesOfNamesFit(entries, Plan(KeysOf(entries)));
  }

  // ----- the whole tree

  /** Entries `_tree` can be given: at least one, with names the format allows. */
  ghost predicate Buildable(entries: seq<Entry>)
  {
    entries != [] && NamesFit(KeysOf(entries))
  }

  function TreeLevels(entries: seq<Entry>): (levels: seq<seq<Tree>>)
    requires Buildable(entries)
    ensures levels != [] && levels[0] == Leaves(entries) && |levels[|levels| - 1]| == 1
  {
    LeavesNamesFit(entries);
    Levels(Leaves(entries), 0)
  }

  function Root(entries: seq<Entry>): Tree
    requires Buildable(entries)
  {
    var levels := TreeLevels(entries);
    levels[|levels| - 1][0]
  }

  function Depth(entries: seq<Entry>): nat
    requires Buildable(entries)
  {
    |TreeLevels(entries)|
  }

  ghost predicate Placed(level: seq<Tree>, base: nat)
  {
    forall i | 0 <= i < |level| :: level[i].offset == Offset(base + i)
  }

  /** `up` parents exactly the nodes of `level`, in order, and is at most half as wide. */
  ghost predicate Above(up: seq<Tree>, level: seq<Tree>)
  {
    && (forall i | 0 <= i < |up| :: up[i].Branch? && up[i].children != [])
    && ChildrenOf(up) == level
    && |level| > 1 && |up| <= (|level| + 1) / 2
  }

  /** Levels stacked from `levels[0]` to a single root, each placed after the one below. */
  ghost predicate Stack(levels: seq<seq<Tree>>, base: nat)
  {
    && levels != [] && levels[0] != [] && Placed(levels[0], base)
    && if |levels| == 1 then |levels[0]| == 1
       else Above(levels[1], levels[0]) && Stack(levels[1..], base + |levels[0]|)
  }

  lemma UpAbove(level: seq<Tree>, base: nat)
    requires |level| > 1 && NamesFitLevel(level)
    ensures Above(Up(level, base), level) && Placed(Up(level, base), base)
  {
    LevelShrinks(level, base);
    UpChildren(level, base);
    PlanTiles(LevelKeys(level));
    var plan := Plan(LevelKeys(level));
    forall i | 0 <= i < |plan| ensures UpOf(level, plan, base)[i].children != [] {
      assert |level[plan[i].first..End(plan[i])]| == plan[i].count;
    }
  }

  lemma {:induction false} LevelsStack(level: seq<Tree>, base: nat)
    requires level != [] && NamesFitLevel(level) && Placed(level, base)
    ensures Stack(Levels(level, base), base)
    decreases |level|
  {
    if |level| > 1 {
      var base' := base + |level|;
      LevelShrinks(level, base');
      var up := Up(level, base');
      UpAbove(level, base');
      LevelsStack(up, base');
      StackCons(level, Levels(up, base'), base);
    }
  }

  lemma StackCons(level: seq<Tree>, levels: seq<seq<Tree>>, base: nat)
    requires level != [] && Placed(level, base)
    requires Stack(levels, base + |level|) && Above(levels[0], level)
    ensures Stack([level] + levels, base)
  {
    assert ([level] + levels)[1..] == levels;
  }

  lemma TreeStack(entries: seq<Entry>)
    requires Buildable(entries)
    ensures Stack(TreeLevels(entries), 0)
  {
    LeavesNamesFit(entries);
    PlanTiles(KeysOf(entries));
    LeavesFlat(entries);
    LevelsStack(Leaves(entries), 0);
  }

  lemma {:induction false} InChildrenOf(level: seq<Tree>, i: nat, j: nat)
    requires (forall t | t in level :: t.Branch?) && i < |level| && j < |level[i].children|
    ensures level[i].children[j] in ChildrenOf(level)
  {
    if i == 0 {
      assert ChildrenOf(level)[j] == level[0].children[j];
    } else {
      InChildrenOf(level[1..], i - 1, j);
      var k :| 0 <= k < |ChildrenOf(level[1..])| && ChildrenOf(level[1..])[k] == level[i].children[j];
      assert ChildrenOf(level)[|level[0].children| + k] == level[i].children[j];
    }
  }

  lemma AboveUniform(up: seq<Tree>, level: seq<Tree>, h: nat)
    requires Above(up, level) && UniformLevel(level, h) && h >= 1
    ensures forall i | 0 <= i < |up| :: Uniform(up[i], h + 1)
  {
    forall i | 0 <= i < |up| ensures Uniform(up[i], h + 1) {
      forall j | 0 <= j < |up[i].children| ensures Uniform(up[i].children[j], h) {
        InChildrenOf(up, i, j);
      }
    }
  }

  lemma {:induction false} StackShape(levels: seq<seq<Tree>>, base: nat, h: nat)
    requires Stack(levels, base) && UniformLevel(levels[0], h) && h >= 1
    ensures |levels[|levels| - 1]| == 1
    ensures Uniform(levels[|levels| - 1][0], h + |levels| - 1)
    ensures Flat(levels[|levels| - 1][0]) == FlatAll(levels[0])
    decreases |levels|
  {
    if |levels| == 1 {
      assert FlatAll(levels[0]) == Flat(levels[0][0]) + FlatAll(levels[0][1..]);
    } else {
      AboveUniform(levels[1], levels[0], h);
      FlatOfChildren(levels[1]);
      StackShape(levels[1..], base + |levels[0]|, h + 1);
    }
  }

  /** The root's entries are the input, and every leaf sits at the header's depth. */
  lemma TreeShape(entries: seq<Entry>)
    requires Buildable(entries)
    ensures Flat(Root(entries)) == entries
    ensures Uniform(Root(entries), Depth(entries))
  {
    TreeStack(entries);
    LeavesFlat(entries);
    StackShape(TreeLevels(entries), 0, 1);
  }

  /** Twice as many leaves buy one more level at most. */
  lemma {:induction false} StackDepth(levels: seq<seq<Tree>>, base: nat, bits: nat)
    requires Stack(levels, base) && |levels[0]| <= Pow2(bits)
    ensures |levels| <= bits + 1
    decreases bits
  {
    if |levels| > 1 {
      assert bits > 0;
      StackDepth(levels[1..], base + |levels[0]|, bits - 1);
    }
  }

  // ----- offsets and links

  function Offsets(level: seq<Tree>): (s: seq<nat>)
    ensures |s| == |level| && forall i | 0 <= i < |s| :: s[i] == level[i].offset
  {
    seq(|level|, i requires 0 <= i < |level| => level[i].offset)
  }

  /** Every child link of every node, in node order. */
  function ChildLinks(nodes: seq<Tree>): seq<nat>
  {
    if nodes == [] then []
    else (if nodes[0].Branch? then Offsets(nodes[0].children) else []) + ChildLinks(nodes[1..])
  }

  lemma {:induction false} ChildLinksAppend(a: seq<Tree>, b: seq<Tree>)
    ensures ChildLinks(a + b) == ChildLinks(a) + ChildLinks(b)
  {
    if a == [] {
      assert a + b == b;
    } else {
      assert (a + b)[1..] == a[1..] + b;
      ChildLinksAppend(a[1..], b);
    }
  }

  lemma {:induction false} ChildLinksOfLevel(level: seq<Tree>)
    requires forall t | t in level :: t.Branch?
    ensures ChildLinks(level) == Offsets(ChildrenOf(level))
  {
    if level != [] {
      ChildLinksOfLevel(level[1..]);
      assert level[0] in level;
      assert Offsets(level[0].children + ChildrenOf(level[1..])) ==
             Offsets(level[0].children) + Offsets(ChildrenOf(level[1..]));
    }
  }

  lemma {:induction false} LeafLinksEmpty(level: seq<Tree>)
    requires forall t | t in level :: t.Leaf?
    ensures ChildLinks(level) == []
  {
    if level != [] {
      LeafLinksEmpty(level[1..]);
      assert level[0] in level;
    }
  }

  /** The nodes in stream order: node `i` is at offset NODE * (i + 1). */
  function Nodes(levels: seq<seq<Tree>>): seq<Tree>
  {
    Concat(levels)
  }

  function Range(base: nat, n: nat): (s: seq<nat>)
    ensures |s| == n && forall i | 0 <= i < n :: s[i] == Offset(base + i)
  {
    seq<nat>(n, i requires 0 <= i => Offset(base + i))
  }

  lemma RangeJoin(offsets: seq<nat>, base: nat, n: nat)
    requires offsets == Range(base, |offsets|)
    ensures offsets + Range(base + |offsets|, n) == Range(base, |offsets| + n)
  {
    var a, b := offsets + Range(base + |offsets|, n), Range(base, |offsets| + n);
    forall i | 0 <= i < |a| ensures a[i] == b[i] {
      if i >= |offsets| {
        assert a[i] == Range(base + |offsets|, n)[i - |offsets|];
      }
    }
  }

  lemma PlacedJoin(level: seq<Tree>, rest: seq<Tree>, base: nat)
    requires Placed(level, base) && Placed(rest, base + |level|)
    ensures Placed(level + rest, base)
  {
    forall i | 0 <= i < |level + rest| ensures (level + rest)[i].offset == Offset(base + i) {
      if i >= |level| {
        assert (level + rest)[i] == rest[i - |level|];
      }
    }
  }

  lemma JoinLevels(level: seq<Tree>, rest: seq<Tree>, base: nat)
    requires Placed(level, base) && rest != [] && Placed(rest, base + |level|)
    requires ChildLinks(rest) == Offsets(level) + Range(base + |level|, |rest| - 1)
    ensures Placed(level + rest, base)
    ensures ChildLinks(level + rest) == ChildLinks(level) + Range(base, |level| + |rest| - 1)
  {
    PlacedJoin(level, rest, base);
    ChildLinksAppend(level, rest);
    assert Offsets(level) == Range(base, |level|);
    RangeJoin(Offsets(level), base, |rest| - 1);
  }

  lemma {:induction false} StackLinks(levels: seq<seq<Tree>>, base: nat)
    requires Stack(levels, base)
    ensures var nodes := Nodes(levels);
            && nodes != [] && Placed(nodes, base)
            && ChildLinks(nodes) == ChildLinks(levels[0]) + Range(base, |nodes| - 1)
            && |levels[|levels| - 1]| == 1 && nodes[|nodes| - 1] == levels[|levels| - 1][0]
    decreases |levels|
  {
    hide ChildLinks;
    if |levels| == 1 {
      ConcatOne(levels[0]);
      assert levels == [levels[0]];
      assert ChildLinks(levels[0]) + Range(base, 0) == ChildLinks(levels[0]);
    } else {
      StackLinks(levels[1..], base + |levels[0]|);
      ChildLinksOfLevel(levels[1]);
      JoinLevels(levels[0], Nodes(levels[1..]), base);
    }
  }

  /** Every node but the root is the child of exactly one node, the links naming the nodes
      in stream order; so every link is node-aligned and in bounds. */
  lemma LinksExact(entries: seq<Entry>)
    requires Buildable(entries)
    ensures var nodes := Nodes(TreeLevels(entries));
            && nodes != [] && Placed(nodes, 0)
            && ChildLinks(nodes) == Range(0, |nodes| - 1)
            && nodes[|nodes| - 1] == Root(entries)
  {
    hide PlanFrom, Levels, ChildLinks, Stack, Concat;
    TreeStack(entries);
    PlanTiles(KeysOf(entries));
    LeafLinksEmpty(Leaves(entries));
    StackLinks(TreeLevels(entries), 0);
    assert [] + Range(0, |Nodes(TreeLevels(entries))| - 1) == Range(0, |Nodes(TreeLevels(entries))| - 1);
  }
}
