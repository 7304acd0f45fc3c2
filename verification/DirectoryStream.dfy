/** `_tree`'s byte stream: a header node, then every node of the tree in order. */
module DirectoryStream {
  import opened Bytes
  import opened Keys
  import opened NodePlan
  import opened NodeCodec
  import opened DirectoryTree

  const TREE_MAGIC: nat := 0x69F6_C2E8

  /** What `_node_bytes` is asked to write for a node of the tree: a node keeps every child
      but the last as an entry, and the last as its overflow child. */
  function TreeNode(t: Tree): Node
  {
    match t
    case Leaf(_, left, right, entries) => NodeOf(entries, left, right, NULL_LINK)
    case Branch(_, children) =>
      var n := |children|;
      if n == 0 then NodeOf([], NULL_LINK, NULL_LINK, NULL_LINK)
      else NodeOf(LevelEntries(children[..n - 1]), NULL_LINK, NULL_LINK, children[n - 1].offset)
  }

  ghost predicate NodeFits(t: Tree)
  {
    |TreeNode(t).keys| == |TreeNode(t).values| && Fits(|TreeNode(t).keys|, KeyBytes(TreeNode(t).keys))
  }

  ghost predicate AllFit(nodes: seq<Tree>)
  {
    forall i | 0 <= i < |nodes| :: NodeFits(nodes[i])
  }

  ghost function Images(nodes: seq<Tree>): (ss: seq<seq<byte>>)
    requires AllFit(nodes)
    ensures |ss| == |nodes| && forall i | 0 <= i < |ss| :: |ss[i]| == NODE && ss[i] == NodeBytes(TreeNode(nodes[i]))
  {
    seq(|nodes|, i requires 0 <= i < |nodes| => NodeBytes(TreeNode(nodes[i])))
  }

  ghost predicate WholeNodes(ss: seq<seq<byte>>)
  {
    forall i | 0 <= i < |ss| :: |ss[i]| == NODE
  }

  lemma {:induction false} NodesLength(ss: seq<seq<byte>>)
    requires WholeNodes(ss)
    ensures |Concat(ss)| == NODE * |ss|
  {
    if ss != [] {
      NodesLength(ss[1..]);
    }
  }

  lemma StreamTail(head: seq<byte>, rest: seq<byte>, i: nat)
    requires |head| == NODE && NODE * i + NODE <= |rest|
    ensures (head + rest)[NODE * (i + 1)..NODE * (i + 1) + NODE] == rest[NODE * i..NODE * i + NODE]
  {
  }

  /** Node `i` of a stream of whole nodes. */
  lemma {:induction false} StreamAt(ss: seq<seq<byte>>, i: nat)
    requires WholeNodes(ss) && i < |ss|
    ensures NODE * i + NODE <= |Concat(ss)|
    ensures Concat(ss)[NODE * i..NODE * i + NODE] == ss[i]
  {
    NodesLength(ss);
    if i > 0 {
      StreamAt(ss[1..], i - 1);
      StreamTail(ss[0], Concat(ss[1..]), i - 1);
    }
  }

  /** The 40 header fields' bytes. */
  function TreeHeader(dataType: nat, depth: nat, root: nat, total: nat): (s: seq<byte>)
    ensures |s| == 40
  {
    Le(4, TREE_MAGIC) + Le(4, NODE) + Le(4, depth) + Le(4, dataType) +
    Le(8, root) + Le(8, NULL_LINK) + Le(8, total)
  }

  function TreeStream(dataType: nat, depth: nat, root: nat, nodes: seq<byte>): (s: seq<byte>)
    ensures |s| == NODE + |nodes|
  {
    TreeHeader(dataType, depth, root, NODE + |nodes|) + Zeros(NODE - 40) + nodes
  }

  // ----- every planned node fits

  lemma LeavesOfFit(entries: seq<Entry>, plan: seq<Chunk>)
    requires Tiles(plan, |entries|)
    requires forall i | 0 <= i < |plan| :: InRange(KeysOf(entries), plan[i]) && Fits(plan[i].count, plan[i].keyBytes)
    ensures AllFit(LeavesOf(entries, plan))
  {
    var ls := LeavesOf(entries, plan);
    forall i | 0 <= i < |ls| ensures NodeFits(ls[i]) {
      var c := plan[i];
      assert KeysOf(entries[c.first..End(c)]) == KeysOf(entries)[c.first..End(c)];
      assert InRange(KeysOf(entries), c);
    }
  }

  lemma UpOfFit(level: seq<Tree>, plan: seq<Chunk>, base: nat)
    requires Tiles(plan, |level|)
    requires forall i | 0 <= i < |plan| :: InRange(LevelKeys(level), plan[i]) && Fits(plan[i].count, plan[i].keyBytes)
    ensures AllFit(UpOf(level, plan, base))
  {
    hide Fits, NodeFits;
    var up := UpOf(level, plan, base);
    forall i | 0 <= i < |up| ensures NodeFits(up[i]) {
      assert InRange(LevelKeys(level), plan[i]) && plan[i].count >= 1;
      UpNodeFits(level, plan[i], up[i].offset);
    }
  }

  lemma UpNodeFits(level: seq<Tree>, c: Chunk, offset: nat)
    requires c.count >= 1 && End(c) <= |level| && InRange(LevelKeys(level), c) && Fits(c.count, c.keyBytes)
    ensures NodeFits(Branch(offset, level[c.first..End(c)]))
  {
    hide Fits;
    var t, kept := Branch(offset, level[c.first..End(c)]), LevelKeys(level)[c.first..End(c) - 1];
    assert TreeNode(t).keys == kept;
    KeyBytesExtend(LevelKeys(level), c.first, End(c) - 1);
    FitsMonotone(c.count - 1, KeyBytes(kept), c.count, c.keyBytes);
  }

  lemma PlanAllFit(keys: seq<Key>)
    requires keys != [] && NamesFit(keys)
    ensures forall i | 0 <= i < |Plan(keys)| :: InRange(keys, Plan(keys)[i]) && Fits(Plan(keys)[i].count, Plan(keys)[i].keyBytes)
  {
    PlanGreedy(keys);
    forall i | 0 <= i < |Plan(keys)| ensures Fits(Plan(keys)[i].count, Plan(keys)[i].keyBytes) {
      PlanFits(keys, i);
    }
  }

  lemma LevelNames(level: seq<Tree>)
    requires NamesFitLevel(level)
    ensures NamesFit(LevelKeys(level))
  {
  }

  lemma UpFit(level: seq<Tree>, base: nat)
    requires level != [] && NamesFitLevel(level)
    ensures AllFit(Up(level, base))
  {
    LevelNames(level);
    PlanTiles(LevelKeys(level));
    PlanAllFit(LevelKeys(level));
    UpOfFit(level, Plan(LevelKeys(level)), base);
  }

  lemma NodesCons(level: seq<Tree>, levels: seq<seq<Tree>>)
    ensures Nodes([level] + levels) == level + Nodes(levels)
  {
    assert ([level] + levels)[1..] == levels;
  }

  lemma {:induction false} LevelsFit(level: seq<Tree>, base: nat)
    requires level != [] && NamesFitLevel(level) && AllFit(level)
    ensures AllFit(Nodes(Levels(level, base)))
    decreases |level|
  {
    if |level| == 1 {
      ConcatOne(level);
    } else {
      var base' := base + |level|;
      LevelShrinks(level, base');
      UpFit(level, base');
      LevelsFit(Up(level, base'), base');
      NodesCons(level, Levels(Up(level, base'), base'));
    }
  }

  lemma TreeFits(entries: seq<Entry>)
    requires Buildable(entries)
    ensures AllFit(Nodes(TreeLevels(entries)))
  {
    LeavesNamesFit(entries);
    PlanTiles(KeysOf(entries));
    PlanAllFit(KeysOf(entries));
    LeavesOfFit(entries, Plan(KeysOf(entries)));
    LevelsFit(Leaves(entries), 0);
  }

  /** The directory stream for `entries`, as `_tree(entries)` returns it. */
  ghost function TreeBytes(entries: seq<Entry>): (s: seq<byte>)
    requires Buildable(entries)
    ensures |s| == NODE * (1 + |Nodes(TreeLevels(entries))|)
  {
    TreeFits(entries);
    var images := Images(Nodes(TreeLevels(entries)));
    NodesLength(images);
    TreeStream(STRING_TYPE, Depth(entries), Root(entries).offset, Concat(images))
  }

  /** The directory tree over one leaf's worth of entries is its header and that leaf. */
  lemma OneLeafTree(entries: seq<Entry>)
    requires Buildable(entries) && |Plan(KeysOf(entries))| == 1
    ensures |Leaves(entries)| == 1 && AllFit(Leaves(entries))
    ensures |TreeBytes(entries)| == 2 * NODE
    ensures TreeBytes(entries) == TreeStream(STRING_TYPE, 1, NODE, Concat(Images(Leaves(entries))))
  {
    hide PlanFrom, TreeStream, NodeBytes, Fits;
    LeavesNamesFit(entries);
    var leaves := Leaves(entries);
    assert Levels(leaves, 0) == [leaves];
    ConcatOne(leaves);
    TreeFits(entries);
  }

  // ----- the builder's loop

  /** Image lists of consecutive levels join. */
  lemma ImagesAppend(a: seq<Tree>, b: seq<Tree>)
    requires AllFit(a) && AllFit(b)
    ensures AllFit(a + b) && Images(a + b) == Images(a) + Images(b)
  {
    assert forall i | 0 <= i < |b| :: (a + b)[|a| + i] == b[i];
  }

  method BuildLeaf(entries: seq<Entry>, plan: seq<Chunk>, number: nat) returns (node: seq<byte>)
    requires number < |plan| && InRange(KeysOf(entries), plan[number])
    requires Fits(plan[number].count, plan[number].keyBytes)
    ensures NodeFits(LeafAt(entries, plan, number))
    ensures node == NodeBytes(TreeNode(LeafAt(entries, plan, number)))
  {
    hide NodeBytes, Fits, KeyBytes;
    var c := plan[number];
    assert KeysOf(entries[c.first..c.first + c.count]) == KeysOf(entries)[c.first..End(c)];
    node := BuildNode(entries, c.first, c.count, c.keyBytes,
                      if number == 0 then NULL_LINK else Offset(number - 1),
                      if number + 1 == |plan| then NULL_LINK else Offset(number + 1), NULL_LINK);
  }

  /** The leaf nodes, in chain order. */
  method BuildLeaves(entries: seq<Entry>, plan: seq<Chunk>) returns (nodes: seq<seq<byte>>)
    requires Tiles(plan, |entries|)
    requires forall i | 0 <= i < |plan| :: InRange(KeysOf(entries), plan[i]) && Fits(plan[i].count, plan[i].keyBytes)
    ensures AllFit(LeavesOf(entries, plan)) && nodes == Images(LeavesOf(entries, plan))
  {
    hide NodeBytes, TreeNode, Fits, LeafAt;
    LeavesOfFit(entries, plan);
    ghost var ls := LeavesOf(entries, plan);
    nodes := [];
    for number := 0 to |plan|
      invariant |nodes| == number
      invariant forall i | 0 <= i < number :: nodes[i] == Images(ls)[i]
    {
      var node := BuildLeaf(entries, plan, number);
      nodes := nodes + [node];
    }
  }

  /** The key bytes of all but the last of a node's children. */
  method KeptBytes(children: seq<Entry>) returns (keyBytes: nat)
    requires children != []
    ensures keyBytes == KeyBytes(KeysOf(children[..|children| - 1]))
  {
    ghost var keys := KeysOf(children);
    keyBytes := 0;
    for k := 0 to |children| - 1
      invariant keyBytes == KeyBytes(keys[..k])
    {
      KeyBytesPrefix(keys, k);
      keyBytes := keyBytes + |children[k].key|;
    }
    assert KeysOf(children[..|children| - 1]) == keys[..|children| - 1];
  }

  lemma BranchNode(offset: nat, children: seq<Tree>)
    requires children != []
    ensures TreeNode(Branch(offset, children)) ==
            NodeOf(LevelEntries(children[..|children| - 1]), NULL_LINK, NULL_LINK, children[|children| - 1].offset)
  {
  }

  lemma BranchFits(offset: nat, children: seq<Tree>)
    requires children != [] && NodeFits(Branch(offset, children))
    ensures var keys := KeysOf(LevelEntries(children[..|children| - 1]));
            |keys| == |children| - 1 && Fits(|keys|, KeyBytes(keys))
  {
    hide Fits, MaxKey, KeyBytes;
  }

  method BuildBranch(ghost children: seq<Tree>, level: seq<Entry>, c: Chunk, ghost offset: nat) returns (node: seq<byte>)
    requires c.count >= 1 && End(c) <= |level| && level[c.first..End(c)] == LevelEntries(children)
    requires NodeFits(Branch(offset, children))
    ensures node == NodeBytes(TreeNode(Branch(offset, children)))
  {
    hide NodeBytes, TreeNode, NodeFits, Fits, MaxKey, KeyBytes;
    BranchNode(offset, children);
    BranchFits(offset, children);
    var entries := level[c.first..c.first + c.count];
    var keyBytes := KeptBytes(entries);
    assert entries[..c.count - 1] == LevelEntries(children[..c.count - 1]);
    assert level[c.first..c.first + (c.count - 1)] == entries[..c.count - 1];
    node := BuildNode(level, c.first, c.count - 1, keyBytes, NULL_LINK, NULL_LINK, entries[c.count - 1].value);
  }

  /** One level of internal nodes over `level`, its (greatest key, offset) entries. */
  method BuildLevel(ghost trees: seq<Tree>, level: seq<Entry>, plan: seq<Chunk>, ghost base: nat)
    returns (nodes: seq<seq<byte>>)
    requires level == LevelEntries(trees) && Tiles(plan, |trees|)
    requires AllFit(UpOf(trees, plan, base))
    ensures nodes == Images(UpOf(trees, plan, base))
  {
    hide NodeBytes, TreeNode, Fits, MaxKey;
    ghost var up := UpOf(trees, plan, base);
    nodes := [];
    for number := 0 to |plan|
      invariant |nodes| == number
      invariant forall i | 0 <= i < number :: nodes[i] == Images(up)[i]
    {
      var c := plan[number];
      assert level[c.first..End(c)] == LevelEntries(trees[c.first..End(c)]);
      assert NodeFits(up[number]);
      var node := BuildBranch(trees[c.first..End(c)], level, c, Offset(base + number));
      nodes := nodes + [node];
    }
  }

  lemma BranchMax(t: Tree)
    requires t.Branch? && t.children != []
    ensures MaxKey(t) == MaxKey(t.children[|t.children| - 1])
  {
  }

  /** The next level's entries: each node's greatest key and its offset. */
  method NextLevel(ghost trees: seq<Tree>, level: seq<Entry>, plan: seq<Chunk>, base: nat) returns (next: seq<Entry>)
    requires level == LevelEntries(trees) && Tiles(plan, |trees|)
    ensures next == LevelEntries(UpOf(trees, plan, base))
  {
    hide MaxKey;
    ghost var up := UpOf(trees, plan, base);
    next := [];
    for number := 0 to |plan|
      invariant |next| == number
      invariant forall i | 0 <= i < number :: next[i] == Entry(MaxKey(up[i]), up[i].offset)
    {
      var c := plan[number];
      BranchMax(up[number]);
      assert level[End(c) - 1] == LevelEntries(trees)[End(c) - 1];
      next := next + [Entry(level[c.first + c.count - 1].key, Offset(base + number))];
    }
  }

  lemma ConcatNone(nodes: seq<seq<byte>>)
    ensures Concat(nodes[..0]) == []
  {
  }

  /** The header, then each node in its place. */
  method Assemble(nodes: seq<seq<byte>>, dataType: nat, depth: nat, root: nat) returns (tree: seq<byte>)
    requires WholeNodes(nodes)
    ensures tree == TreeStream(dataType, depth, root, Concat(nodes))
  {
    hide Le, TreeHeader, Concat;
    var total := NODE * (1 + |nodes|);
    NodesLength(nodes);
    var header := TreeHeader(dataType, depth, root, total);
    var buf := new byte[total](_ => 0);
    Put(buf, 0, header);
    ghost var start := header + Zeros(NODE - 40);
    ConcatNone(nodes);
    for number := 0 to |nodes|
      invariant |Concat(nodes[..number])| == NODE * number
      invariant buf[..] == start + Concat(nodes[..number]) + Zeros(total - NODE - NODE * number)
    {
      assert nodes[..number + 1] == nodes[..number] + [nodes[number]];
      ConcatAppend(nodes[..number], [nodes[number]]);
      ConcatOne(nodes[number]);
      PutNext(buf, start + Concat(nodes[..number]), NODE * (number + 1), nodes[number]);
      assert start + Concat(nodes[..number]) + nodes[number] == start + Concat(nodes[..number + 1]);
    }
    assert nodes[..|nodes|] == nodes;
    tree := buf[..];
  }

  /** One entry per leaf: its greatest key and its offset. */
  method LeafEntries(entries: seq<Entry>, plan: seq<Chunk>) returns (level: seq<Entry>)
    requires Tiles(plan, |entries|)
    ensures level == LevelEntries(LeavesOf(entries, plan))
  {
    ghost var trees := LeavesOf(entries, plan);
    level := [];
    for number := 0 to |plan|
      invariant |level| == number
      invariant forall i | 0 <= i < number :: level[i] == Entry(MaxKey(trees[i]), trees[i].offset)
    {
      var c := plan[number];
      assert MaxKey(trees[number]) == entries[End(c) - 1].key;
      level := level + [Entry(entries[c.first + c.count - 1].key, Offset(number))];
    }
  }

  lemma NoLevels()
    ensures Nodes([]) == []
  {
  }

  /** One turn of the level loop: the nodes above `level`, and the entries for the next. */
  method GrowLevel(ghost trees: seq<Tree>, level: seq<Entry>, base: nat)
    returns (made: seq<seq<byte>>, next: seq<Entry>)
    requires |trees| > 1 && NamesFitLevel(trees) && level == LevelEntries(trees)
    ensures AllFit(Up(trees, base)) && made == Images(Up(trees, base))
    ensures next == LevelEntries(Up(trees, base))
    ensures 1 <= |Up(trees, base)| < |trees| && Up(trees, base)[0].offset == Offset(base)
  {
    hide NodeBytes, TreeNode, Fits, PlanFrom, MaxKey;
    var plan := MakePlan(KeysOf(level));
    LevelShrinks(trees, base);
    PlanTiles(LevelKeys(trees));
    UpFit(trees, base);
    made := BuildLevel(trees, level, plan, base);
    next := NextLevel(trees, level, plan, base);
  }

  method FirstLevel(entries: seq<Entry>) returns (nodes: seq<seq<byte>>, level: seq<Entry>)
    requires Buildable(entries)
    ensures AllFit(Leaves(entries)) && nodes == Images(Leaves(entries))
    ensures level == LevelEntries(Leaves(entries))
    ensures Leaves(entries) != [] && Leaves(entries)[0].offset == Offset(0)
  {
    hide NodeBytes, TreeNode, Fits, PlanFrom, MaxKey;
    var plan := MakePlan(KeysOf(entries));
    PlanTiles(KeysOf(entries));
    PlanAllFit(KeysOf(entries));
    nodes := BuildLeaves(entries, plan);
    level := LeafEntries(entries, plan);
  }

  /** `_tree(entries)`. */
  method BuildTree(entries: seq<Entry>) returns (tree: seq<byte>)
    requires Buildable(entries)
    ensures tree == TreeBytes(entries)
  {
    hide NodeBytes, Levels, Concat, Leaves, Up, AllFit, NamesFitLevel, LevelEntries, TreeStream;
    LeavesNamesFit(entries);
    var nodes, level := FirstLevel(entries);
    ghost var trees := Leaves(entries);
    ghost var lower: seq<seq<Tree>> := [];
    ghost var done := trees;
    NoLevels();
    var root, depth := Offset(0), 1;
    while |level| > 1
      invariant trees != [] && NamesFitLevel(trees) && level == LevelEntries(trees)
      invariant |nodes| == |done| && root == trees[0].offset && depth == |lower| + 1
      invariant |trees| <= |done| && TreeLevels(entries) == lower + Levels(trees, |done| - |trees|)
      invariant done == Nodes(lower) + trees && AllFit(done) && nodes == Images(done)
      decreases |level|
    {
      var made, next := GrowLevel(trees, level, |nodes|);
      ghost var up := Up(trees, |nodes|);
      ImagesAppend(done, up);
      LowerStep(lower, trees, up, |done| - |trees|);
      root := Offset(|nodes|);
      lower, done, trees := lower + [trees], done + up, up;
      nodes, level, depth := nodes + made, next, depth + 1;
    }
    TopStep(lower, trees, |done| - |trees|);
    tree := Assemble(nodes, STRING_TYPE, depth, root);
  }

  lemma LowerStep(lower: seq<seq<Tree>>, trees: seq<Tree>, up: seq<Tree>, below: nat)
    requires |trees| > 1 && NamesFitLevel(trees) && up == Up(trees, below + |trees|)
    ensures NamesFitLevel(up) && up != []
    ensures lower + Levels(trees, below) == lower + [trees] + Levels(up, below + |trees|)
    ensures Nodes(lower + [trees]) == Nodes(lower) + trees
  {
    hide Up, Concat, NamesFitLevel;
    LevelShrinks(trees, below + |trees|);
    LevelsCons(trees, below);
    assert lower + ([trees] + Levels(up, below + |trees|)) == lower + [trees] + Levels(up, below + |trees|);
    ConcatLast(lower, trees);
  }

  lemma LevelsCons(trees: seq<Tree>, below: nat)
    requires |trees| > 1 && NamesFitLevel(trees)
    ensures NamesFitLevel(Up(trees, below + |trees|)) && Up(trees, below + |trees|) != []
    ensures Levels(trees, below) == [trees] + Levels(Up(trees, below + |trees|), below + |trees|)
  {
    hide Up, NamesFitLevel;
    LevelShrinks(trees, below + |trees|);
  }

  lemma TopStep(lower: seq<seq<Tree>>, trees: seq<Tree>, below: nat)
    requires |trees| == 1 && NamesFitLevel(trees)
    ensures Levels(trees, below) == [trees]
    ensures Nodes(lower + [trees]) == Nodes(lower) + trees
  {
    ConcatLast(lower, trees);
  }
}
