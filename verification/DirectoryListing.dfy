/** `dir_entry` on a built directory: entry by entry along the leaf chain, and exactly which
    entries its key bound hides. */
module DirectoryListing {
  import opened Bytes
  import opened Keys
  import opened NodePlan
  import opened NodeCodec
  import opened DirectoryTree
  import opened DirectoryStream
  import opened DirectoryReader
  import opened DirectoryLookup

  // ----- down to the first leaf

  function FirstLeaf(t: Tree): Tree
  {
    match t
    case Leaf(_, _, _, _) => t
    case Branch(_, children) => if children == [] then t else FirstLeaf(children[0])
  }

  lemma {:induction false} StackFirst(levels: seq<seq<Tree>>, base: nat)
    requires Stack(levels, base)
    ensures |levels[|levels| - 1]| == 1
    ensures FirstLeaf(levels[|levels| - 1][0]) == FirstLeaf(levels[0][0])
    decreases |levels|
  {
    hide Placed;
    if |levels| > 1 {
      StackFirst(levels[1..], base + |levels[0]|);
      assert ChildrenOf(levels[1])[0] == levels[1][0].children[0];
    }
  }

  lemma FirstNodeStep(stream: seq<byte>, maximum: nat, offset: nat, n: Node, steps: nat)
    requires Held(stream, offset, n) && offset + NODE <= maximum && n.overflow != NULL_LINK
    ensures Leftmost(stream, maximum, offset, steps + 1) ==
            Leftmost(stream, maximum, if n.keys == [] then n.overflow else n.values[0], steps)
  {
    hide NodeBytes, Encodable, Readable, KeyAt, KeyLength, Cumulative, ValueAt;
    HeldShows(stream, offset, n);
    if n.keys != [] {
      assert EntryReads(Read(stream, offset, NODE), 0, n.keys[0], n.values[0]);
    }
  }

  lemma {:induction false} FindsFirstLeaf(stream: seq<byte>, nodes: seq<Tree>, t: Tree, h: nat, steps: nat)
    requires Sound(stream, nodes) && t in nodes && Uniform(t, h) && h <= steps
    ensures FirstLeaf(t) in nodes && Leftmost(stream, |stream|, t.offset, steps) == Some(FirstLeaf(t).offset)
    decreases h
  {
    hide Sound, Held, NodeBytes;
    SoundNode(stream, nodes, t);
    if t.Leaf? {
      LeftmostAtLeaf(stream, t.offset, TreeNode(t), steps);
    } else {
      var m := |t.children| - 1;
      SoundNode(stream, nodes, t.children[m]);
      FirstNodeStep(stream, |stream|, t.offset, TreeNode(t), steps - 1);
      FindsFirstLeaf(stream, nodes, t.children[0], h - 1, steps - 1);
    }
  }

  lemma LeftmostAtLeaf(stream: seq<byte>, offset: nat, n: Node, steps: nat)
    requires Held(stream, offset, n) && n.overflow == NULL_LINK && steps > 0
    ensures Leftmost(stream, |stream|, offset, steps) == Some(offset)
  {
    hide NodeBytes, Encodable, Readable, KeyAt, KeyLength, Cumulative, ValueAt;
    HeldShows(stream, offset, n);
  }

  // ----- along the chain

  /** What `dir_entry` shows of entry `r` of a leaf: the entry, if its key ends within a block. */
  function Shown(entries: seq<Entry>, r: nat): Option<Entry>
    requires r < |entries|
  {
    if FIXED + KeyBytes(KeysOf(entries)[..r + 1]) <= BLOCK then Some(entries[r]) else None
  }

  lemma EntryInLeaf(b: seq<byte>, n: Node, entries: seq<Entry>, r: nat)
    requires Shows(b, n) && n.keys == KeysOf(entries) && n.values == ValuesOf(entries) && r < |entries|
    ensures EntryAt(b, r) == Shown(entries, r)
  {
    hide Readable, Cumulative, BytesBelow;
    assert EntryReads(b, r, n.keys[r], n.values[r]);
    KeyBytesPrefix(n.keys, r);
    assert KeyAt(b, r) == FIXED + KeyBytes(n.keys[..r]);
  }

  lemma LeafEntryStep(stream: seq<byte>, offset: nat, n: Node, entries: seq<Entry>, walks: nat, r: nat)
    requires Held(stream, offset, n) && n.overflow == NULL_LINK && n.right != FREE_LINK
    requires n.keys == KeysOf(entries) && n.values == ValuesOf(entries)
    ensures EntryFrom(stream, |stream|, offset, walks + 1, r) ==
            if r < |entries| then Shown(entries, r)
            else if n.right == NULL_LINK then None
            else EntryFrom(stream, |stream|, n.right, walks, r - |entries|)
  {
    hide NodeBytes, Encodable, Readable, KeyAt, KeyLength, Cumulative, ValueAt, EntryAt, Shown;
    HeldShows(stream, offset, n);
    if r < |entries| {
      EntryInLeaf(Read(stream, offset, NODE), n, entries, r);
    }
  }

  /** Entry `index` of the directory, by the chunk that holds it. */
  function Listed(entries: seq<Entry>, plan: seq<Chunk>, i: nat, r: nat): Option<Entry>
    requires i < |plan| && plan[i].first + plan[i].count <= |entries| && r < plan[i].count
  {
    Shown(entries[plan[i].first..End(plan[i])], r)
  }

  lemma {:induction false} WalkFrom(stream: seq<byte>, nodes: seq<Tree>, entries: seq<Entry>, plan: seq<Chunk>,
                                    from: nat, walks: nat, index: nat, i: nat, r: nat)
    requires Tiles(plan, |entries|) && Grown(nodes, LeavesOf(entries, plan)) && Sound(stream, nodes)
    requires from <= i < |plan| && r < plan[i].count && walks > i - from
    requires plan[from].first + index == plan[i].first + r
    ensures EntryFrom(stream, |stream|, Offset(from), walks, index) == Listed(entries, plan, i, r)
    decreases i - from
  {
    hide Sound, Held, EntryFrom, Grown, Shown;
    var t := ChainLeaf(stream, nodes, entries, plan, from);
    FirstsAscend(plan, |entries|, from, i);
    LeafEntryStep(stream, t.offset, TreeNode(t), t.entries, walks - 1, index);
    if from < i {
      assert plan[from + 1].first == plan[from].first + plan[from].count;
      WalkFrom(stream, nodes, entries, plan, from + 1, walks - 1, index - plan[from].count, i, r);
    }
  }

  lemma {:induction false} FirstsAscend(plan: seq<Chunk>, n: nat, i: nat, j: nat)
    requires Tiles(plan, n) && i <= j < |plan|
    ensures plan[i].first <= plan[j].first
    ensures i < j ==> End(plan[i]) <= plan[j].first
    decreases j
  {
    if i < j {
      FirstsAscend(plan, n, i, j - 1);
      assert plan[j].first == plan[j - 1].first + plan[j - 1].count;
    }
  }

  lemma ChainLeaf(stream: seq<byte>, nodes: seq<Tree>, entries: seq<Entry>, plan: seq<Chunk>, i: nat) returns (t: Tree)
    requires Tiles(plan, |entries|) && Grown(nodes, LeavesOf(entries, plan)) && Sound(stream, nodes) && i < |plan|
    ensures t == LeafAt(entries, plan, i) && t in nodes && t.offset == Offset(i)
    ensures Held(stream, t.offset, TreeNode(t)) && TreeNode(t).right != FREE_LINK
  {
    hide Sound, Held, AllFit, LevelClosed, Placed;
    t := LeafAt(entries, plan, i);
    assert nodes[..|plan|][i] == LeavesOf(entries, plan)[i];
    assert nodes[i] == t;
    SoundNode(stream, nodes, t);
    if t.right != NULL_LINK {
      var u := NextLeaf(stream, nodes, t);
    }
  }

  lemma NoWalk(stream: seq<byte>, maximum: nat, offset: nat, r: nat)
    ensures EntryFrom(stream, maximum, offset, 0, r) == None
  {
  }

  /** Past the last leaf there is nothing. */
  lemma {:induction false} WalkPast(stream: seq<byte>, nodes: seq<Tree>, entries: seq<Entry>, plan: seq<Chunk>,
                                    from: nat, walks: nat, r: nat)
    requires Tiles(plan, |entries|) && Grown(nodes, LeavesOf(entries, plan)) && Sound(stream, nodes)
    requires from < |plan| && plan[from].first + r >= |entries|
    ensures EntryFrom(stream, |stream|, Offset(from), walks, r) == None
    decreases |plan| - from
  {
    hide Sound, Held, EntryFrom, Grown, Shown;
    if walks == 0 {
      NoWalk(stream, |stream|, Offset(from), r);
    } else {
      var t := ChainLeaf(stream, nodes, entries, plan, from);
      LeafEntryStep(stream, t.offset, TreeNode(t), t.entries, walks - 1, r);
      if from + 1 < |plan| {
        assert plan[from + 1].first == plan[from].first + plan[from].count;
        WalkPast(stream, nodes, entries, plan, from + 1, walks - 1, r - plan[from].count);
      }
    }
  }

  // ----- the whole listing

  lemma StartsAtFirstLeaf(entries: seq<Entry>, index: nat)
    requires Stored(entries)
    ensures var stream := TreeBytes(entries);
            EntryOf(stream, index) == EntryFrom(stream, |stream|, Offset(0), |stream| / NODE + 2, index)
  {
    hide PlanFrom, TreeBytes, Leftmost, EntryFrom, Grown, Sound, NodeHeader;
    var stream, nodes := TreeBytes(entries), Nodes(TreeLevels(entries));
    BuiltHeader(entries);
    TreeSound(entries);
    TreeGrown(entries);
    TreeShape(entries);
    DepthBound(entries);
    TreeStack(entries);
    StackFirst(TreeLevels(entries), 0);
    PlanTiles(KeysOf(entries));
    assert FirstLeaf(Root(entries)) == Leaves(entries)[0] && Leaves(entries)[0].offset == Offset(0);
    FindsFirstLeaf(stream, nodes, Root(entries), Depth(entries), MAX_LEVELS);
  }

  /** Entry `plan[i].first + r` is shown exactly when its key ends within a block of its leaf. */
  lemma EntryIsListed(entries: seq<Entry>, i: nat, r: nat)
    requires Stored(entries) && i < |Plan(KeysOf(entries))| && r < Plan(KeysOf(entries))[i].count
    ensures LeafPlan(entries)[i].first + LeafPlan(entries)[i].count <= |entries|
    ensures EntryOf(TreeBytes(entries), LeafPlan(entries)[i].first + r) == Listed(entries, LeafPlan(entries), i, r)
  {
    hide PlanFrom, TreeBytes, Grown, Sound, EntryFrom, Shown;
    var p, nodes := LeafPlan(entries), Nodes(TreeLevels(entries));
    PlanTiles(KeysOf(entries));
    TreeGrown(entries);
    TreeSound(entries);
    StartsAtFirstLeaf(entries, p[i].first + r);
    LeavesCount(entries);
    WalkFrom(TreeBytes(entries), nodes, entries, p, 0, |TreeBytes(entries)| / NODE + 2, p[i].first + r, i, r);
  }

  function LeafPlan(entries: seq<Entry>): seq<Chunk>
  {
    Plan(KeysOf(entries))
  }

  lemma LeavesCount(entries: seq<Entry>)
    requires Buildable(entries)
    ensures |LeafPlan(entries)| <= |TreeBytes(entries)| / NODE
  {
    hide PlanFrom, TreeBytes;
    TreeGrown(entries);
    PlanTiles(KeysOf(entries));
    assert |TreeBytes(entries)| == NODE * (1 + |Nodes(TreeLevels(entries))|);
  }

  lemma NoEntryPastTheEnd(entries: seq<Entry>, index: nat)
    requires Stored(entries) && index >= |entries|
    ensures EntryOf(TreeBytes(entries), index) == None
  {
    hide PlanFrom, TreeBytes, Grown, Sound, EntryFrom, Shown;
    PlanTiles(KeysOf(entries));
    TreeGrown(entries);
    TreeSound(entries);
    StartsAtFirstLeaf(entries, index);
    WalkPast(TreeBytes(entries), Nodes(TreeLevels(entries)), entries, LeafPlan(entries), 0,
             |TreeBytes(entries)| / NODE + 2, index);
  }

  /** A listing shows every entry. */
  ghost predicate ListsAll(entries: seq<Entry>)
    requires Stored(entries)
  {
    forall index | 0 <= index < |entries| :: EntryOf(TreeBytes(entries), index) == Some(entries[index])
  }

  /** Every leaf's packed keys end within one block. */
  ghost predicate LeavesEndWithinBlock(entries: seq<Entry>)
  {
    forall i | 0 <= i < |LeafPlan(entries)| :: FIXED + LeafPlan(entries)[i].keyBytes <= BLOCK
  }

  lemma {:induction false} ChunkOf(plan: seq<Chunk>, n: nat, index: nat, upto: nat) returns (i: nat)
    requires Tiles(plan, n) && upto < |plan| && index < End(plan[upto])
    ensures i < |plan| && plan[i].first <= index < End(plan[i])
    decreases upto
  {
    if plan[upto].first <= index {
      i := upto;
    } else {
      assert plan[upto].first == plan[upto - 1].first + plan[upto - 1].count;
      i := ChunkOf(plan, n, index, upto - 1);
    }
  }

  lemma ShownIff(entries: seq<Entry>, plan: seq<Chunk>, i: nat, r: nat)
    requires i < |plan| && InRange(KeysOf(entries), plan[i]) && r < plan[i].count
    ensures FIXED + plan[i].keyBytes <= BLOCK ==> Listed(entries, plan, i, r) == Some(entries[plan[i].first + r])
    ensures r == plan[i].count - 1 && FIXED + plan[i].keyBytes > BLOCK ==> Listed(entries, plan, i, r) == None
  {
    var chunk := entries[plan[i].first..End(plan[i])];
    var keys := KeysOf(chunk);
    assert keys == KeysOf(entries)[plan[i].first..End(plan[i])];
    KeyBytesPrefix(keys, r);
    assert keys[..plan[i].count] == keys;
  }

  lemma EntryShown(entries: seq<Entry>, i: nat, r: nat)
    requires Stored(entries) && i < |LeafPlan(entries)| && r < LeafPlan(entries)[i].count
    ensures var c := LeafPlan(entries)[i];
            && c.first + c.count <= |entries|
            && (FIXED + c.keyBytes <= BLOCK ==> EntryOf(TreeBytes(entries), c.first + r) == Some(entries[c.first + r]))
            && (r == c.count - 1 && FIXED + c.keyBytes > BLOCK ==> EntryOf(TreeBytes(entries), c.first + r) == None)
  {
    hide PlanFrom, TreeBytes, EntryOf, Listed;
    PlanAllFit(KeysOf(entries));
    EntryIsListed(entries, i, r);
    ShownIff(entries, LeafPlan(entries), i, r);
  }

  lemma PlanOfStored(entries: seq<Entry>)
    requires Stored(entries)
    ensures Tiles(LeafPlan(entries), |entries|)
  {
    PlanTiles(KeysOf(entries));
  }

  /** A directory lists in full exactly when no leaf's keys run past one block: the reader
      bounds a key by the block size although a node is two blocks long. */
  lemma ListsAllIff(entries: seq<Entry>)
    requires Stored(entries)
    ensures ListsAll(entries) <==> LeavesEndWithinBlock(entries)
  {
    hide Plan, TreeBytes, EntryOf, Buildable, ValuesFit, LeafPlan;
    var p := LeafPlan(entries);
    PlanOfStored(entries);
    if LeavesEndWithinBlock(entries) {
      forall index | 0 <= index < |entries| ensures EntryOf(TreeBytes(entries), index) == Some(entries[index]) {
        var i := ChunkOf(p, |entries|, index, |p| - 1);
        EntryShown(entries, i, index - p[i].first);
      }
    } else {
      var i :| 0 <= i < |p| && FIXED + p[i].keyBytes > BLOCK;
      EntryShown(entries, i, p[i].count - 1);
      assert EntryOf(TreeBytes(entries), End(p[i]) - 1) == None;
    }
  }
}
