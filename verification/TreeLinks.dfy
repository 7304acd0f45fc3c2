/** What a tree's bytes say beside what the guest's searches read: the header's depth, and the links
    of leaves to both their neighbours. */
module TreeLinks {
  import opened Bytes
  import opened Keys
  import opened NodePlan
  import opened NodeCodec
  import opened DirectoryTree
  import opened DirectoryStream
  import opened DirectoryReader
  import opened DirectoryLookup
  import opened IndexTree
  import opened IndexReader
  import opened IndexLookup
  import opened IndexWalking

  // ----- the header

  lemma StreamHeader(dataType: nat, depth: nat, root: nat, nodes: seq<byte>)
    requires dataType < TWO32 && depth < TWO32 && root < TWO64
    ensures var s := TreeStream(dataType, depth, root, nodes);
            && Field(s, 0, 4) == 0x69F6_C2E8 && Field(s, 4, 4) == 4096 && Field(s, 12, 4) == dataType
            && Field(s, 8, 4) == depth && Field(s, 16, 8) == root && Field(s, 24, 8) == 0xFFFF_FFFF_FFFF_FFFF
  {
    hide Le;
    var total := NODE + |nodes|;
    var s, h := TreeStream(dataType, depth, root, nodes), TreeHeader(dataType, depth, root, total);
    HeaderParts(dataType, depth, root, total);
    hide TreeHeader;
    assert s[0..4] == h[0..4] && s[4..8] == h[4..8] && s[12..16] == h[12..16];
    assert s[8..12] == h[8..12] && s[16..24] == h[16..24] && s[24..32] == h[24..32];
    Powers();
    FieldIs(s, 0, 4, TREE_MAGIC);
    FieldIs(s, 4, 4, NODE);
    FieldIs(s, 8, 4, depth);
    FieldIs(s, 12, 4, dataType);
    FieldIs(s, 16, 8, root);
    FieldIs(s, 24, 8, NULL_LINK);
  }

  /** A directory's header names a tree of string keys, the depth at which every one of its leaves
      sits, and the offset of its root. */
  lemma DirectoryHeader(entries: seq<Entry>)
    requires Stored(entries)
    ensures Uniform(Root(entries), Field(TreeBytes(entries), 8, 4)) && Flat(Root(entries)) == entries
    ensures Field(TreeBytes(entries), 0, 4) == 0x69F6_C2E8 && Field(TreeBytes(entries), 4, 4) == 4096 && Field(TreeBytes(entries), 12, 4) == 0
    ensures Field(TreeBytes(entries), 16, 8) == Root(entries).offset && Field(TreeBytes(entries), 24, 8) == 0xFFFF_FFFF_FFFF_FFFF
  {
    hide PlanFrom, Levels, TreeStream, Fits, NodeBytes;
    DepthBound(entries);
    TreeShape(entries);
    TreeGrown(entries);
    var k := GrownNode(Nodes(TreeLevels(entries)), Leaves(entries), Root(entries));
    RootSmall(entries, k);
    StreamHeader(STRING_TYPE, Depth(entries), Root(entries).offset, Concat(Images(Nodes(TreeLevels(entries)))));
  }

  lemma RootSmall(entries: seq<Entry>, k: nat)
    requires Stored(entries) && k < |Nodes(TreeLevels(entries))| && Root(entries).offset == Offset(k)
    ensures Root(entries).offset < TWO64
  {
    hide TreeBytes, TreeLevels, Root, NodeBytes;
    TreeBytesAt(entries, k);
  }

  // ----- the links

  /** The three links of the node at `at`. */
  ghost predicate Links(stream: seq<byte>, at: nat, left: nat, right: nat, overflow: nat)
  {
    at + NODE <= |stream| && Field(stream, at, 8) == left && Field(stream, at + 8, 8) == right && Field(stream, at + 16, 8) == overflow
  }

  lemma HeldLinks(stream: seq<byte>, at: nat, n: Node)
    requires Held(stream, at, n)
    ensures Links(stream, at, n.left, n.right, n.overflow)
  {
    hide NodeBytes, Encodable;
    NodeRoundTrip(n);
    SliceOfSlice(stream, at, at + NODE, 0, 8);
    SliceOfSlice(stream, at, at + NODE, 8, 16);
    SliceOfSlice(stream, at, at + NODE, 16, 24);
  }

  /** Leaf `i` of `count` is node `i`: its links name the leaves before and behind it, and none at
      the ends. So left links undo right ones along the chain. */
  ghost predicate LeafLinks(stream: seq<byte>, count: nat, i: nat)
  {
    Links(stream, NODE * (i + 1), if i == 0 then 0xFFFF_FFFF_FFFF_FFFF else NODE * i,
          if i + 1 == count then 0xFFFF_FFFF_FFFF_FFFF else NODE * (i + 2), 0xFFFF_FFFF_FFFF_FFFF)
  }

  lemma NodeLinks(entries: seq<Entry>, k: nat)
    requires Stored(entries) && k < |Nodes(TreeLevels(entries))|
    ensures var n := TreeNode(Nodes(TreeLevels(entries))[k]); Links(TreeBytes(entries), NODE * (k + 1), n.left, n.right, n.overflow)
  {
    hide PlanFrom, TreeBytes, NodeBytes, Encodable, Sound, Held, Levels, Links, Grown, TreeNode;
    var nodes := Nodes(TreeLevels(entries));
    var t := nodes[k];
    TreeGrown(entries);
    TreeSound(entries);
    assert t in nodes;
    SoundNode(TreeBytes(entries), nodes, t);
    OwnPlace(nodes, Leaves(entries), k);
    HeldLinks(TreeBytes(entries), t.offset, TreeNode(t));
  }

  lemma OwnPlace(nodes: seq<Tree>, leaves: seq<Tree>, k: nat)
    requires Grown(nodes, leaves) && k < |nodes|
    ensures nodes[k].offset == Offset(k) && ClosedIn(nodes[k], nodes)
    ensures k < |leaves| ==> nodes[k] == leaves[k]
    ensures k >= |leaves| ==> nodes[k].Branch?
  {
    hide AllFit;
    assert k < |leaves| ==> nodes[..|leaves|][k] == leaves[k];
  }

  /** The leaves of a directory's tree are linked both ways. */
  lemma DirectoryLeafLinks(entries: seq<Entry>, i: nat)
    requires Stored(entries) && i < |Plan(KeysOf(entries))|
    ensures LeafLinks(TreeBytes(entries), |Plan(KeysOf(entries))|, i)
  {
    hide PlanFrom, TreeBytes, NodeBytes, Levels, Links, Grown;
    TreeGrown(entries);
    PlanTiles(KeysOf(entries));
    GrownCount(Nodes(TreeLevels(entries)), Leaves(entries));
    OwnPlace(Nodes(TreeLevels(entries)), Leaves(entries), i);
    NodeLinks(entries, i);
  }

  lemma GrownCount(nodes: seq<Tree>, leaves: seq<Tree>)
    requires Grown(nodes, leaves)
    ensures |leaves| <= |nodes|
  {
  }

  /** Its inner nodes have no neighbours, and lead on to another node past their last key. */
  lemma DirectoryInnerLinks(entries: seq<Entry>, k: nat) returns (c: nat)
    requires Stored(entries) && |Plan(KeysOf(entries))| <= k < |Nodes(TreeLevels(entries))|
    ensures c < |Nodes(TreeLevels(entries))|
    ensures Links(TreeBytes(entries), NODE * (k + 1), 0xFFFF_FFFF_FFFF_FFFF, 0xFFFF_FFFF_FFFF_FFFF, NODE * (c + 1))
  {
    hide PlanFrom, TreeBytes, NodeBytes, Levels, Links, Grown, NodeFits;
    var nodes := Nodes(TreeLevels(entries));
    TreeGrown(entries);
    PlanTiles(KeysOf(entries));
    OwnPlace(nodes, Leaves(entries), k);
    var t := nodes[k];
    var last := t.children[|t.children| - 1];
    c := GrownNode(nodes, Leaves(entries), last);
    NodeLinks(entries, k);
  }

  // ----- indices

  /** An index's header gives its one level and its first leaf, and its leaves are linked both ways. */
  lemma IndexLinks(dataType: nat, pairs: seq<Entry>, i: nat)
    requires Built(dataType, pairs) && i < |Plan(GroupKeys(IndexGroups(dataType, pairs)))|
    ensures var s := IndexBytes(dataType, pairs);
            && Field(s, 0, 4) == 0x69F6_C2E8 && Field(s, 4, 4) == 4096 && Field(s, 12, 4) == dataType
            && Field(s, 8, 4) == 1 && Field(s, 16, 8) == NODE && Field(s, 24, 8) == 0xFFFF_FFFF_FFFF_FFFF
            && LeafLinks(s, |Plan(GroupKeys(IndexGroups(dataType, pairs)))|, i)
  {
    hide IndexGroups, Plan, NodeBytes, TreeStream, IndexHeld, Links, Held;
    var groups, s := IndexGroups(dataType, pairs), IndexBytes(dataType, pairs);
    StreamHeader(dataType, 1, NODE, Concat(IndexNodes(groups)));
    BuiltIsHeld(dataType, pairs);
    LeafHolds(s, dataType, groups, IndexLinked(groups).entries, Plan(GroupKeys(groups)), i);
  }

  lemma LeafHolds(stream: seq<byte>, dataType: nat, groups: seq<Group>, entries: seq<Entry>, plan: seq<Chunk>, i: nat)
    requires IndexHeld(stream, dataType, groups, entries, plan) && i < |plan|
    ensures LeafLinks(stream, |plan|, i)
  {
    hide Links, GroupHeld, NodeHeader, NodeBytes;
    assert Held(stream, Offset(i), TreeNode(LeafAt(entries, plan, i)));
    HeldLinks(stream, Offset(i), TreeNode(LeafAt(entries, plan, i)));
  }

  /** A node of duplicates has no left neighbour. */
  lemma DuplicateLeft(right: nat, values: seq<nat>)
    requires |values| <= NUM_DUPLICATE_VALUES
    ensures Field(DuplicateBytes(right, values), 0, 8) == 0xFFFF_FFFF_FFFF_FFFF
  {
    hide DuplicateBytes, Le;
    DuplicateParts(right, values);
    Powers();
    FieldIs(DuplicateBytes(right, values), 0, 8, NULL_LINK);
  }

  // ----- values in order

  ghost predicate Climbs(s: seq<nat>)
  {
    forall i, j | 0 <= i < j < |s| :: s[i] <= s[j]
  }

  lemma {:induction false} InsertBelow(v: nat, s: seq<nat>, m: nat)
    requires v <= m && forall i | 0 <= i < |s| :: s[i] <= m
    ensures forall i | 0 <= i < |InsertValue(v, s)| :: InsertValue(v, s)[i] <= m
  {
    if s != [] {
      InsertBelow(v, s[..|s| - 1], m);
    }
  }

  lemma {:induction false} InsertClimbs(v: nat, s: seq<nat>)
    requires Climbs(s)
    ensures Climbs(InsertValue(v, s))
  {
    if s != [] {
      var n := |s| - 1;
      InsertClimbs(v, s[..n]);
      if v < s[n] {
        InsertBelow(v, s[..n], s[n]);
      }
    }
  }

  lemma {:induction false} SortClimbs(s: seq<nat>)
    ensures Climbs(SortValues(s))
  {
    if s != [] {
      SortClimbs(s[..|s| - 1]);
      InsertClimbs(s[|s| - 1], SortValues(s[..|s| - 1]));
    }
  }

  /** Pair `e` comes before `f`: its key is below, or the same and its value not larger. */
  ghost predicate NotAfter(dataType: nat, e: Entry, f: Entry)
  {
    Below(dataType, e.key, f.key) || (e.key == f.key && e.value <= f.value)
  }

  ghost predicate InIndexOrder(dataType: nat, pairs: seq<Entry>)
  {
    forall i, j | 0 <= i < j < |pairs| :: NotAfter(dataType, pairs[i], pairs[j])
  }

  lemma {:induction false} ExpandInOrder(dataType: nat, groups: seq<Group>)
    requires KeysAscend(dataType, groups) && forall i | 0 <= i < |groups| :: Climbs(groups[i].values)
    ensures InIndexOrder(dataType, Expand(groups))
    ensures forall e | e in Expand(groups) :: exists i | 0 <= i < |groups| :: groups[i].key == e.key
  {
    hide Below;
    if groups != [] {
      var g, rest := groups[0], groups[1..];
      ExpandInOrder(dataType, rest);
      var a, b := Each(g), Expand(rest);
      forall i, j | 0 <= i < j < |a + b| ensures NotAfter(dataType, (a + b)[i], (a + b)[j]) {
        if i < |a| && j >= |a| {
          assert b[j - |a|] in b;
          var k :| 0 <= k < |rest| && rest[k].key == b[j - |a|].key;
          assert rest[k] == groups[k + 1];
        } else if i >= |a| {
          assert NotAfter(dataType, b[i - |a|], b[j - |a|]);
        }
      }
      forall e | e in a + b ensures exists i | 0 <= i < |groups| :: groups[i].key == e.key {
        if e in b {
          var k :| 0 <= k < |rest| && rest[k].key == e.key;
          assert groups[k + 1].key == e.key;
        } else {
          assert groups[0].key == e.key;
        }
      }
    }
  }

  /** A walk of a built index gives its pairs by key in the type's order, and by value under a key. */
  lemma PairsInOrder(dataType: nat, pairs: seq<Entry>)
    requires Built(dataType, pairs)
    ensures InIndexOrder(dataType, IndexPairs(IndexBytes(dataType, pairs)))
  {
    hide IndexBytes, IndexPairs, Expand, Sort, Groups, InIndexOrder;
    IndexRoundTrip(dataType, pairs);
    var groups := IndexGroups(dataType, pairs);
    forall i | 0 <= i < |groups| ensures Climbs(groups[i].values) {
      SortClimbs(Groups(Sort(dataType, pairs))[i].values);
    }
    ExpandInOrder(dataType, groups);
  }
}
