/** The guest reads back what the builder wrote: `dir_find` on a built stream is a plain map
    lookup, and `dir_entry` lists the entries in order as far as its key bound lets it. */
module DirectoryLookup {
  import opened Bytes
  import opened Keys
  import opened NodePlan
  import opened NodeCodec
  import opened DirectoryTree
  import opened DirectoryStream
  import opened DirectoryReader

  // ----- scanning one node

  /** The first key at or after `i` that `name` does not exceed. */
  function FirstNotBelow(keys: seq<Key>, i: nat, name: Key): (j: nat)
    requires i <= |keys|
    ensures i <= j <= |keys|
    ensures forall k | i <= k < j :: BytesBelow(keys[k], name)
    ensures j < |keys| ==> !BytesBelow(keys[j], name)
    decreases |keys| - i
  {
    if i == |keys| || !BytesBelow(keys[i], name) then i else FirstNotBelow(keys, i + 1, name)
  }

  /** A node in the stream, with keys the reader accepts. */
  ghost predicate Held(stream: seq<byte>, offset: nat, n: Node)
  {
    && offset + NODE <= |stream| && Encodable(n) && NamesFit(n.keys)
    && stream[offset..offset + NODE] == NodeBytes(n)
  }

  /** What reading a held node shows: its links, count, keys and values. */
  ghost predicate Shows(b: seq<byte>, n: Node)
  {
    && |b| == NODE && |n.keys| == |n.values| && Readable(b) && Count(b) == |n.keys| <= MAX_COUNT
    && Field(b, RIGHT_LINK, 8) == n.right && Field(b, OVERFLOW_LINK, 8) == n.overflow
    && (forall i | 0 <= i < |n.keys| :: EntryReads(b, i, n.keys[i], n.values[i]))
    && (forall i | 0 <= i < |n.keys| :: |n.keys[i]| <= MAX_NAME)
    && (forall i | 0 <= i <= |n.keys| :: KeyAt(b, i) == FIXED + KeyBytes(n.keys[..i]))
  }

  lemma HeldShows(stream: seq<byte>, offset: nat, n: Node)
    requires Held(stream, offset, n)
    ensures Shows(Read(stream, offset, NODE), n)
  {
    hide NodeBytes;
    NodeRoundTrip(n);
  }

  lemma {:induction false} ScanShows(b: seq<byte>, n: Node, i: nat, name: Key)
    requires Shows(b, n) && i <= |n.keys|
    ensures var j := FirstNotBelow(n.keys, i, name);
            ScanFrom(b, i, name) == At(j, j < |n.keys| && n.keys[j] == name)
    decreases |n.keys| - i
  {
    hide Readable, KeyAt, KeyLength, ValueAt, KeyBytes, BytesBelow, Count;
    if i < |n.keys| {
      assert EntryReads(b, i, n.keys[i], n.values[i]);
      ScanShows(b, n, i + 1, name);
    }
  }

  // ----- one step of the descent

  lemma StepBranch(stream: seq<byte>, maximum: nat, offset: nat, n: Node, steps: nat, name: Key)
    requires Held(stream, offset, n) && offset + NODE <= maximum && n.overflow != NULL_LINK
    ensures var j := FirstNotBelow(n.keys, 0, name);
            FindFrom(stream, maximum, offset, steps + 1, name) ==
            FindFrom(stream, maximum, if j < |n.keys| then n.values[j] else n.overflow, steps, name)
  {
    hide NodeBytes, Encodable, Readable, KeyAt, KeyLength, Cumulative, ValueAt;
    var b := Read(stream, offset, NODE);
    HeldShows(stream, offset, n);
    ScanShows(b, n, 0, name);
    var j := FirstNotBelow(n.keys, 0, name);
    if j < |n.keys| {
      assert EntryReads(b, j, n.keys[j], n.values[j]);
    }
  }

  lemma StepLeaf(stream: seq<byte>, maximum: nat, offset: nat, n: Node, steps: nat, name: Key)
    requires Held(stream, offset, n) && offset + NODE <= maximum && n.overflow == NULL_LINK && n.right != FREE_LINK
    ensures var j := FirstNotBelow(n.keys, 0, name);
            FindFrom(stream, maximum, offset, steps + 1, name) ==
            if j < |n.keys| && n.keys[j] == name then Some(n.values[j])
            else if n.right == NULL_LINK then None
            else FindFrom(stream, maximum, n.right, steps, name)
  {
    hide NodeBytes, Encodable, Readable, KeyAt, KeyLength, Cumulative, ValueAt;
    var b := Read(stream, offset, NODE);
    HeldShows(stream, offset, n);
    ScanShows(b, n, 0, name);
    var j := FirstNotBelow(n.keys, 0, name);
    if j < |n.keys| {
      assert EntryReads(b, j, n.keys[j], n.values[j]);
    }
  }

  // ----- lookup by order

  ghost predicate Absent(s: seq<Entry>, name: Key)
  {
    forall i | 0 <= i < |s| :: s[i].key != name
  }

  lemma {:induction false} LookupSkip(a: seq<Entry>, b: seq<Entry>, name: Key)
    requires Absent(a, name)
    ensures Lookup(a + b, name) == Lookup(b, name)
  {
    if a == [] {
      assert a + b == b;
    } else {
      assert (a + b)[1..] == a[1..] + b;
      LookupSkip(a[1..], b, name);
    }
  }

  lemma {:induction false} LookupPrefix(a: seq<Entry>, b: seq<Entry>, name: Key)
    requires Absent(b, name)
    ensures Lookup(a + b, name) == Lookup(a, name)
  {
    if a == [] {
      assert a + b == b;
    } else {
      assert (a + b)[1..] == a[1..] + b;
      LookupPrefix(a[1..], b, name);
    }
  }

  ghost predicate Ordered(s: seq<Entry>)
  {
    forall i, j | 0 <= i < j < |s| :: BytesBelow(s[i].key, s[j].key)
  }

  lemma StrictIsOrdered(s: seq<Entry>)
    requires StrictlyAscending(STRING_TYPE, s)
    ensures Ordered(s)
  {
    forall i, j | 0 <= i < j < |s| ensures BytesBelow(s[i].key, s[j].key) {
      assert Below(STRING_TYPE, s[i].key, s[j].key);
    }
  }

  lemma NotEqual(a: Key, b: Key)
    requires BytesBelow(a, b)
    ensures a != b
  {
    BytesIrreflexive(a);
  }

  /** Keys above a key the name does not exceed are not the name. */
  lemma AboveNotEqual(name: Key, a: Key, b: Key)
    requires !BytesBelow(a, name) && BytesBelow(a, b)
    ensures name != b
  {
  }

  lemma LeafLookup(entries: seq<Entry>, name: Key)
    requires Ordered(entries)
    ensures var j := FirstNotBelow(KeysOf(entries), 0, name);
            Lookup(entries, name) ==
            if j < |entries| && entries[j].key == name then Some(entries[j].value) else None
  {
    var keys := KeysOf(entries);
    var j := FirstNotBelow(keys, 0, name);
    if j < |entries| && entries[j].key == name {
      forall i, k | 0 <= i < k < |entries| ensures entries[i].key != entries[k].key {
        NotEqual(entries[i].key, entries[k].key);
      }
      LookupPresent(entries, j);
    } else {
      forall i | 0 <= i < |entries| ensures entries[i].key != name {
        if i < j {
          assert BytesBelow(keys[i], name);
          NotEqual(keys[i], name);
        } else if i > j {
          AboveNotEqual(name, keys[j], keys[i]);
        }
      }
    }
  }

  lemma {:induction false} MaxIsLast(t: Tree, h: nat)
    requires Uniform(t, h)
    ensures Flat(t) != [] && MaxKey(t) == Flat(t)[|Flat(t)| - 1].key
    decreases t
  {
    if t.Branch? {
      var n := |t.children|;
      assert t.children == t.children[..n - 1] + [t.children[n - 1]];
      FlatAllAppend(t.children[..n - 1], [t.children[n - 1]]);
      FlatOne(t.children[n - 1]);
      MaxIsLast(t.children[n - 1], h - 1);
    }
  }

  lemma FlatOne(t: Tree)
    ensures FlatAll([t]) == Flat(t)
  {
    assert FlatAll([t]) == Flat(t) + FlatAll([t][1..]);
  }

  lemma FlatThree(a: seq<Tree>, t: Tree, b: seq<Tree>)
    ensures FlatAll(a + [t] + b) == FlatAll(a) + Flat(t) + FlatAll(b)
  {
    hide FlatAll, Flat;
    FlatAllAppend(a + [t], b);
    FlatAllAppend(a, [t]);
    FlatOne(t);
  }

  lemma SplitAt<T>(s: seq<T>, j: nat)
    requires j < |s|
    ensures s == s[..j] + [s[j]] + s[j + 1..]
  {
  }

  /** The entries before, at and after child `j`. */
  lemma FlatAround(children: seq<Tree>, j: nat)
    requires j < |children|
    ensures FlatAll(children) == FlatAll(children[..j]) + Flat(children[j]) + FlatAll(children[j + 1..])
  {
    hide FlatAll, Flat;
    SplitAt(children, j);
    FlatThree(children[..j], children[j], children[j + 1..]);
  }

  lemma LastOfPrefix(children: seq<Tree>, h: nat, j: nat)
    requires 0 < j <= |children| && forall i | 0 <= i < |children| :: Uniform(children[i], h)
    ensures var a := FlatAll(children[..j]);
            a != [] && a[|a| - 1].key == MaxKey(children[j - 1])
  {
    assert children[..j] == children[..j - 1] + [children[j - 1]];
    FlatAllAppend(children[..j - 1], [children[j - 1]]);
    FlatOne(children[j - 1]);
    MaxIsLast(children[j - 1], h);
  }

  /** An ordered list whose last key is below the name does not hold it. */
  lemma AllBelowAbsent(a: seq<Entry>, name: Key)
    requires Ordered(a) && (a != [] ==> BytesBelow(a[|a| - 1].key, name))
    ensures Absent(a, name)
  {
    forall i | 0 <= i < |a| ensures a[i].key != name {
      var last := a[|a| - 1].key;
      if i < |a| - 1 {
        BytesTransitive(a[i].key, last, name);
      }
      NotEqual(a[i].key, name);
    }
  }

  /** An ordered list above a list whose last key the name does not exceed lacks it. */
  lemma AllAboveAbsent(b: seq<Entry>, c: seq<Entry>, name: Key)
    requires Ordered(b + c) && b != [] && !BytesBelow(b[|b| - 1].key, name)
    ensures Absent(c, name)
  {
    forall i | 0 <= i < |c| ensures c[i].key != name {
      assert b[|b| - 1] == (b + c)[|b| - 1] && c[i] == (b + c)[|b| + i];
      AboveNotEqual(name, b[|b| - 1].key, c[i].key);
    }
  }

  lemma LookupMiddle(a: seq<Entry>, b: seq<Entry>, c: seq<Entry>, name: Key)
    requires Absent(a, name) && Absent(c, name)
    ensures Lookup(a + b + c, name) == Lookup(b, name)
  {
    LookupPrefix(a + b, c, name);
    LookupSkip(a, b, name);
  }

  /** The child the reader follows holds the name if any child does. */
  lemma ChildLookup(children: seq<Tree>, h: nat, name: Key)
    requires children != [] && (forall i | 0 <= i < |children| :: Uniform(children[i], h))
    requires Ordered(FlatAll(children))
    ensures var j := FirstNotBelow(LevelKeys(children[..|children| - 1]), 0, name);
            && j < |children| && Ordered(Flat(children[j]))
            && Lookup(FlatAll(children), name) == Lookup(Flat(children[j]), name)
  {
    hide FlatAll, Flat, MaxKey, Lookup, BytesBelow, Uniform;
    var n := |children|;
    var keys := LevelKeys(children[..n - 1]);
    var j := FirstNotBelow(keys, 0, name);
    var a, b, c := FlatAll(children[..j]), Flat(children[j]), FlatAll(children[j + 1..]);
    FlatAround(children, j);
    OrderedParts(a, b, c);
    if j == 0 {
      FlatNone(children[..0]);
    } else {
      LastOfPrefix(children, h, j);
      assert BytesBelow(keys[j - 1], name);
    }
    AllBelowAbsent(a, name);
    if j < n - 1 {
      MaxIsLast(children[j], h);
      assert keys[j] == MaxKey(children[j]);
      assert a + b + c == a + (b + c);
      OrderedParts(a, b + c, []);
      AllAboveAbsent(b, c, name);
    } else {
      FlatNone(children[j + 1..]);
    }
    LookupMiddle(a, b, c, name);
  }

  lemma FlatNone(ts: seq<Tree>)
    requires |ts| == 0
    ensures FlatAll(ts) == []
  {
  }

  lemma OrderedParts(a: seq<Entry>, b: seq<Entry>, c: seq<Entry>)
    requires Ordered(a + b + c)
    ensures Ordered(a) && Ordered(b) && Ordered(c)
  {
    var es := a + b + c;
    assert forall i | 0 <= i < |a| :: a[i] == es[i];
    assert forall i | 0 <= i < |b| :: b[i] == es[|a| + i];
    assert forall i | 0 <= i < |c| :: c[i] == es[|a| + |b| + i];
  }

  // ----- a stream that holds a whole tree

  /** Every child of `t` is one of `nodes`. */
  ghost predicate ClosedIn(t: Tree, nodes: seq<Tree>)
  {
    t.Branch? ==> t.children != [] && forall j | 0 <= j < |t.children| :: t.children[j] in nodes
  }

  /** A leaf's right link ends the chain or names another leaf of `nodes`. */
  ghost predicate Chained(t: Tree, nodes: seq<Tree>)
  {
    t.Leaf? ==> t.right == NULL_LINK || exists u | u in nodes :: u.Leaf? && u.offset == t.right
  }

  /** The stream holds every node, and the nodes' links stay among them. */
  ghost predicate Sound(stream: seq<byte>, nodes: seq<Tree>)
  {
    && |stream| < FREE_LINK
    && forall t | t in nodes :: Held(stream, t.offset, TreeNode(t)) && ClosedIn(t, nodes) && Chained(t, nodes)
  }

  lemma SoundNode(stream: seq<byte>, nodes: seq<Tree>, t: Tree)
    requires Sound(stream, nodes) && t in nodes
    ensures Held(stream, t.offset, TreeNode(t)) && ClosedIn(t, nodes) && t.offset + NODE <= |stream| < FREE_LINK
  {
  }

  lemma NextLeaf(stream: seq<byte>, nodes: seq<Tree>, t: Tree) returns (u: Tree)
    requires Sound(stream, nodes) && t in nodes && t.Leaf? && t.right != NULL_LINK
    ensures u in nodes && u.Leaf? && u.offset == t.right && u.offset < FREE_LINK
  {
    hide Held;
    assert Chained(t, nodes);
    u :| u in nodes && u.Leaf? && u.offset == t.right;
    SoundNode(stream, nodes, u);
  }

  /** From an internal node the reader moves to the child the name belongs to. */
  lemma BranchStep(stream: seq<byte>, nodes: seq<Tree>, t: Tree, steps: nat, name: Key) returns (j: nat)
    requires Sound(stream, nodes) && t in nodes && t.Branch?
    ensures t.children != [] && j == FirstNotBelow(LevelKeys(t.children[..|t.children| - 1]), 0, name)
    ensures j < |t.children| && t.children[j] in nodes
    ensures FindFrom(stream, |stream|, t.offset, steps + 1, name) ==
            FindFrom(stream, |stream|, t.children[j].offset, steps, name)
  {
    hide FindFrom, Encodable, NodeBytes, Sound, MaxKey, BytesBelow;
    SoundNode(stream, nodes, t);
    var m := |t.children| - 1;
    j := FirstNotBelow(LevelKeys(t.children[..m]), 0, name);
    SoundNode(stream, nodes, t.children[m]);
    StepBranch(stream, |stream|, t.offset, TreeNode(t), steps, name);
  }

  /** At a leaf the reader finds the name there or moves to the next leaf. */
  lemma LeafStep(stream: seq<byte>, nodes: seq<Tree>, t: Tree, steps: nat, name: Key)
    requires Sound(stream, nodes) && t in nodes && t.Leaf?
    ensures var j := FirstNotBelow(KeysOf(t.entries), 0, name);
            FindFrom(stream, |stream|, t.offset, steps + 1, name) ==
            if j < |t.entries| && t.entries[j].key == name then Some(t.entries[j].value)
            else if t.right == NULL_LINK then None
            else FindFrom(stream, |stream|, t.right, steps, name)
  {
    hide FindFrom, Encodable, NodeBytes, Sound, BytesBelow;
    SoundNode(stream, nodes, t);
    if t.right != NULL_LINK {
      var u := NextLeaf(stream, nodes, t);
    }
    StepLeaf(stream, |stream|, t.offset, TreeNode(t), steps, name);
  }

  /** A name under a node is found within the node's height. */
  lemma {:induction false} FindPresent(stream: seq<byte>, nodes: seq<Tree>, t: Tree, h: nat, steps: nat, name: Key)
    requires Sound(stream, nodes) && t in nodes && Uniform(t, h) && h <= steps
    requires Ordered(Flat(t)) && Lookup(Flat(t), name).Some?
    ensures FindFrom(stream, |stream|, t.offset, steps, name) == Lookup(Flat(t), name)
    decreases h
  {
    hide FindFrom, Sound, Lookup, FlatAll, MaxKey, BytesBelow;
    if t.Leaf? {
      LeafLookup(t.entries, name);
      LeafStep(stream, nodes, t, steps - 1, name);
    } else {
      var j := BranchStep(stream, nodes, t, steps - 1, name);
      ChildLookup(t.children, h - 1, name);
      FindPresent(stream, nodes, t.children[j], h - 1, steps - 1, name);
    }
  }

  lemma FindNothing(stream: seq<byte>, maximum: nat, offset: nat, name: Key)
    ensures FindFrom(stream, maximum, offset, 0, name) == None
  {
  }

  /** A name no leaf holds is not found, however far the walk goes. */
  lemma {:induction false} FindAbsent(stream: seq<byte>, nodes: seq<Tree>, t: Tree, steps: nat, name: Key)
    requires Sound(stream, nodes) && t in nodes
    requires forall u | u in nodes && u.Leaf? :: Absent(u.entries, name)
    ensures FindFrom(stream, |stream|, t.offset, steps, name) == None
    decreases steps
  {
    hide FindFrom, Sound, MaxKey, BytesBelow;
    if steps == 0 {
      FindNothing(stream, |stream|, t.offset, name);
    } else {
      if t.Leaf? {
        LeafStep(stream, nodes, t, steps - 1, name);
        if t.right != NULL_LINK {
          var u := NextLeaf(stream, nodes, t);
          FindAbsent(stream, nodes, u, steps - 1, name);
        }
      } else {
        var j := BranchStep(stream, nodes, t, steps - 1, name);
        FindAbsent(stream, nodes, t.children[j], steps - 1, name);
      }
    }
  }

  // ----- the built stream is such a stream

  ghost predicate LevelClosed(level: seq<Tree>, pool: seq<Tree>)
  {
    forall i | 0 <= i < |level| :: ClosedIn(level[i], pool)
  }

  lemma AboveClosed(up: seq<Tree>, level: seq<Tree>, pool: seq<Tree>)
    requires Above(up, level) && forall t | t in level :: t in pool
    ensures LevelClosed(up, pool)
  {
    forall i | 0 <= i < |up| ensures ClosedIn(up[i], pool) {
      forall j | 0 <= j < |up[i].children| ensures up[i].children[j] in pool {
        InChildrenOf(up, i, j);
      }
    }
  }

  lemma {:induction false} StackClosed(levels: seq<seq<Tree>>, base: nat, pool: seq<Tree>)
    requires Stack(levels, base) && LevelClosed(levels[0], pool)
    requires forall t | t in Nodes(levels) :: t in pool
    ensures LevelClosed(Nodes(levels), pool)
    decreases |levels|
  {
    hide Above, Placed;
    var nodes := Nodes(levels);
    if |levels| == 1 {
      ConcatOne(levels[0]);
      assert levels == [levels[0]];
    } else {
      assert nodes == levels[0] + Nodes(levels[1..]);
      assert forall t | t in Nodes(levels[1..]) :: t in nodes;
      assert forall t | t in levels[0] :: t in nodes;
      AboveClosed(levels[1], levels[0], pool);
      StackClosed(levels[1..], base + |levels[0]|, pool);
    }
  }

  lemma {:induction false} StackUpper(levels: seq<seq<Tree>>, base: nat)
    requires Stack(levels, base)
    ensures var nodes := Nodes(levels);
            && |levels[0]| <= |nodes| && nodes[..|levels[0]|] == levels[0]
            && forall i | |levels[0]| <= i < |nodes| :: nodes[i].Branch?
    decreases |levels|
  {
    hide Placed;
    if |levels| == 1 {
      ConcatOne(levels[0]);
      assert levels == [levels[0]];
    } else {
      StackUpper(levels[1..], base + |levels[0]|);
      var rest := Nodes(levels[1..]);
      assert Nodes(levels) == levels[0] + rest;
      forall i | |levels[0]| <= i < |Nodes(levels)| ensures Nodes(levels)[i].Branch? {
        var k := i - |levels[0]|;
        assert Nodes(levels)[i] == rest[k];
        if k < |levels[1]| {
          assert rest[k] == levels[1][k];
        }
      }
    }
  }

  /** The node list of a tree over `leaves`: the leaves, then internal nodes, each in its
      place, each fitting, each over nodes of the list. */
  ghost predicate Grown(nodes: seq<Tree>, leaves: seq<Tree>)
  {
    && |leaves| <= |nodes| && nodes[..|leaves|] == leaves
    && (forall i | |leaves| <= i < |nodes| :: nodes[i].Branch?)
    && Placed(nodes, 0) && LevelClosed(nodes, nodes) && AllFit(nodes)
  }

  lemma TreeGrown(entries: seq<Entry>)
    requires Buildable(entries)
    ensures Grown(Nodes(TreeLevels(entries)), Leaves(entries))
    ensures Root(entries) in Nodes(TreeLevels(entries))
  {
    hide AllFit, Stack, PlanFrom;
    TreeFits(entries);
    TreeStack(entries);
    LinksExact(entries);
    PlanTiles(KeysOf(entries));
    StackUpper(TreeLevels(entries), 0);
    StackClosed(TreeLevels(entries), 0, Nodes(TreeLevels(entries)));
  }

  ghost predicate ValuesFit(entries: seq<Entry>)
  {
    forall i | 0 <= i < |entries| :: entries[i].value < TWO64
  }

  lemma LeafOf(nodes: seq<Tree>, entries: seq<Entry>, plan: seq<Chunk>, t: Tree) returns (i: nat)
    requires Tiles(plan, |entries|) && Grown(nodes, LeavesOf(entries, plan))
    requires t in nodes && t.Leaf?
    ensures i < |plan| && t == LeafAt(entries, plan, i) && t == nodes[i]
  {
    hide AllFit, LevelClosed, Placed;
    var k :| 0 <= k < |nodes| && nodes[k] == t;
    assert nodes[..|plan|][k] == LeavesOf(entries, plan)[k];
    i := k;
  }

  lemma {:induction false} MaxNames(nodes: seq<Tree>, entries: seq<Entry>, plan: seq<Chunk>, t: Tree)
    requires Tiles(plan, |entries|) && Grown(nodes, LeavesOf(entries, plan)) && NamesFit(KeysOf(entries))
    requires t in nodes
    ensures |MaxKey(t)| <= MAX_NAME
    decreases t
  {
    hide AllFit, Placed;
    if t.Leaf? {
      var i := LeafOf(nodes, entries, plan, t);
      assert MaxKey(t) == KeysOf(entries)[End(plan[i]) - 1];
    } else {
      assert LevelClosed(nodes, nodes);
      var k :| 0 <= k < |nodes| && nodes[k] == t;
      assert ClosedIn(nodes[k], nodes);
      MaxNames(nodes, entries, plan, t.children[|t.children| - 1]);
    }
  }

  lemma GrownNode(nodes: seq<Tree>, leaves: seq<Tree>, t: Tree) returns (k: nat)
    requires Grown(nodes, leaves) && t in nodes
    ensures k < |nodes| && nodes[k] == t && t.offset == Offset(k) && NodeFits(t) && ClosedIn(t, nodes)
  {
    k :| 0 <= k < |nodes| && nodes[k] == t;
    assert ClosedIn(nodes[k], nodes);
  }

  lemma LeafEncodable(nodes: seq<Tree>, entries: seq<Entry>, plan: seq<Chunk>, t: Tree)
    requires Tiles(plan, |entries|) && Grown(nodes, LeavesOf(entries, plan)) && NamesFit(KeysOf(entries))
    requires ValuesFit(entries) && NODE * (1 + |nodes|) < FREE_LINK && t in nodes && t.Leaf?
    ensures Encodable(TreeNode(t)) && NamesFit(TreeNode(t).keys) && Chained(t, nodes)
  {
    var i := LeafOf(nodes, entries, plan, t);
    var k := GrownNode(nodes, LeavesOf(entries, plan), t);
    hide Grown, Fits;
    assert forall j | 0 <= j < |t.entries| :: t.entries[j] == entries[plan[i].first + j];
    forall j | 0 <= j < |t.entries| ensures |t.entries[j].key| <= MAX_NAME {
      assert KeysOf(entries)[plan[i].first + j] == t.entries[j].key;
    }
    LeafChained(nodes, entries, plan, i);
  }

  lemma LeafChained(nodes: seq<Tree>, entries: seq<Entry>, plan: seq<Chunk>, i: nat)
    requires Tiles(plan, |entries|) && Grown(nodes, LeavesOf(entries, plan)) && i < |plan|
    requires NODE * (1 + |nodes|) < FREE_LINK
    ensures Chained(LeafAt(entries, plan, i), nodes)
    ensures LeafAt(entries, plan, i).left < TWO64 && LeafAt(entries, plan, i).right < TWO64
  {
    hide AllFit, LevelClosed, Placed;
    if i + 1 < |plan| {
      var u := LeafAt(entries, plan, i + 1);
      assert nodes[..|plan|][i + 1] == LeavesOf(entries, plan)[i + 1] == u;
      assert nodes[i + 1] == u && u in nodes;
    }
  }

  lemma BranchEncodable(nodes: seq<Tree>, entries: seq<Entry>, plan: seq<Chunk>, t: Tree)
    requires Tiles(plan, |entries|) && Grown(nodes, LeavesOf(entries, plan)) && NamesFit(KeysOf(entries))
    requires NODE * (1 + |nodes|) < FREE_LINK && t in nodes && t.Branch?
    ensures Encodable(TreeNode(t)) && NamesFit(TreeNode(t).keys)
  {
    var leaves := LeavesOf(entries, plan);
    var k := GrownNode(nodes, leaves, t);
    hide Grown, Fits;
    forall j | 0 <= j < |t.children|
      ensures t.children[j].offset < TWO64 && |MaxKey(t.children[j])| <= MAX_NAME
    {
      var c := GrownNode(nodes, leaves, t.children[j]);
      MaxNames(nodes, entries, plan, t.children[j]);
    }
  }

  /** The stream `_tree` returns holds its tree. */
  lemma TreeSound(entries: seq<Entry>)
    requires Buildable(entries) && ValuesFit(entries) && |TreeBytes(entries)| < FREE_LINK
    ensures Sound(TreeBytes(entries), Nodes(TreeLevels(entries)))
  {
    hide NodeBytes, Encodable, Grown, Tiles, PlanFrom, TreeBytes, TreeNode, ClosedIn, NodeFits, Levels;
    var nodes, plan := Nodes(TreeLevels(entries)), Plan(KeysOf(entries));
    var stream := TreeBytes(entries);
    TreeGrown(entries);
    PlanTiles(KeysOf(entries));
    forall t | t in nodes
      ensures Held(stream, t.offset, TreeNode(t)) && ClosedIn(t, nodes) && Chained(t, nodes)
    {
      var k := GrownNode(nodes, LeavesOf(entries, plan), t);
      if t.Leaf? {
        LeafEncodable(nodes, entries, plan, t);
      } else {
        BranchEncodable(nodes, entries, plan, t);
      }
      TreeBytesAt(entries, k);
    }
  }

  lemma TreeBytesAt(entries: seq<Entry>, k: nat)
    requires Buildable(entries) && k < |Nodes(TreeLevels(entries))|
    ensures NodeFits(Nodes(TreeLevels(entries))[k])
    ensures Offset(k) + NODE <= |TreeBytes(entries)|
    ensures TreeBytes(entries)[Offset(k)..Offset(k) + NODE] == NodeBytes(TreeNode(Nodes(TreeLevels(entries))[k]))
  {
    hide NodeBytes, TreeHeader, TreeLevels, Fits;
    TreeFits(entries);
    var images := Images(Nodes(TreeLevels(entries)));
    StreamAt(images, k);
    var body := Concat(images);
    NodesLength(images);
    assert TreeBytes(entries)[NODE..] == body;
    assert TreeBytes(entries)[Offset(k)..Offset(k) + NODE] == body[NODE * k..NODE * k + NODE];
  }

  // ----- the header, and the whole lookup

  lemma HeaderParts(dataType: nat, depth: nat, root: nat, total: nat)
    ensures var h := TreeHeader(dataType, depth, root, total);
            && h[0..4] == Le(4, TREE_MAGIC) && h[4..8] == Le(4, NODE) && h[12..16] == Le(4, dataType)
            && h[16..24] == Le(8, root) && h[32..40] == Le(8, total)
            && h[8..12] == Le(4, depth) && h[24..32] == Le(8, NULL_LINK)
  {
    hide Le;
    var a, b, c, d := Le(4, TREE_MAGIC), Le(4, NODE), Le(4, depth), Le(4, dataType);
    var e, f, g := Le(8, root), Le(8, NULL_LINK), Le(8, total);
    assert TreeHeader(dataType, depth, root, total) == a + b + c + d + e + f + g;
  }

  /** The reader recovers the root, the size and the key type from the header. */
  lemma HeaderRoundTrip(dataType: nat, depth: nat, root: nat, nodes: seq<byte>)
    requires dataType < TWO32 && root < TWO64 && NODE + |nodes| < TWO64
    ensures NodeHeader(TreeStream(dataType, depth, root, nodes)) == Some(Header(root, NODE + |nodes|, dataType))
  {
    var total := NODE + |nodes|;
    var stream := TreeStream(dataType, depth, root, nodes);
    var h := TreeHeader(dataType, depth, root, total);
    HeaderParts(dataType, depth, root, total);
    hide Le, TreeHeader;
    assert Read(stream, 0, 40) == h;
    Powers();
    FieldIs(h, 0, 4, TREE_MAGIC);
    FieldIs(h, 4, 4, NODE);
    FieldIs(h, 12, 4, dataType);
    FieldIs(h, 16, 8, root);
    FieldIs(h, 32, 8, total);
  }

  /** A stream one block run can address: 65535 blocks, the most `make_bfs` can store. */
  const MAX_STREAM: nat := 65535 * BLOCK

  lemma DepthBound(entries: seq<Entry>)
    requires Buildable(entries) && |TreeBytes(entries)| <= MAX_STREAM
    ensures Depth(entries) <= MAX_LEVELS
  {
    hide PlanFrom, TreeBytes;
    TreeStack(entries);
    TreeGrown(entries);
    assert |Leaves(entries)| <= |Nodes(TreeLevels(entries))| <= 32768;
    assert Pow2(15) == 32768 by { PowerOf15(); }
    StackDepth(TreeLevels(entries), 0, 15);
  }

  lemma PowerOf15()
    ensures Pow2(15) == 32768
  {
    assert Pow2(5) == 32;
    assert Pow2(10) == 32 * Pow2(5);
    assert Pow2(15) == 32 * Pow2(10);
  }

  ghost predicate Stored(entries: seq<Entry>)
  {
    Buildable(entries) && ValuesFit(entries) && |TreeBytes(entries)| <= MAX_STREAM
  }

  lemma BuiltHeader(entries: seq<Entry>)
    requires Stored(entries)
    ensures NodeHeader(TreeBytes(entries)) ==
            Some(Header(Root(entries).offset, |TreeBytes(entries)|, STRING_TYPE))
  {
    hide PlanFrom, TreeStream, NodeHeader, NodeBytes, Grown, AllFit, ValuesFit, TreeLevels, Root;
    TreeGrown(entries);
    TreeFits(entries);
    var nodes := Nodes(TreeLevels(entries));
    var k := GrownNode(nodes, Leaves(entries), Root(entries));
    NodesLength(Images(nodes));
    HeaderRoundTrip(STRING_TYPE, Depth(entries), Root(entries).offset, Concat(Images(nodes)));
  }

  lemma LeavesWithin(entries: seq<Entry>, t: Tree)
    requires Buildable(entries) && t in Nodes(TreeLevels(entries)) && t.Leaf?
    ensures forall e | e in t.entries :: e in entries
  {
    hide PlanFrom, Grown, Tiles;
    TreeGrown(entries);
    PlanTiles(KeysOf(entries));
    var i := LeafOf(Nodes(TreeLevels(entries)), entries, Plan(KeysOf(entries)), t);
  }

  /** `dir_find` on the stream built from sorted entries is lookup in the entry list: the
      value of every name that is there, nothing for every name that is not. */
  lemma FindIsLookup(entries: seq<Entry>, name: Key)
    requires Stored(entries) && StrictlyAscending(STRING_TYPE, entries)
    ensures Find(TreeBytes(entries), name) == Lookup(entries, name)
  {
    hide PlanFrom, TreeBytes, FindFrom, Grown, Sound, Buildable, Lookup;
    var stream, nodes := TreeBytes(entries), Nodes(TreeLevels(entries));
    StrictIsOrdered(entries);
    BuiltHeader(entries);
    TreeSound(entries);
    TreeGrown(entries);
    TreeShape(entries);
    DepthBound(entries);
    if Lookup(entries, name).Some? {
      FindPresent(stream, nodes, Root(entries), Depth(entries), MAX_LEVELS, name);
    } else {
      forall t | t in nodes && t.Leaf? ensures Absent(t.entries, name) {
        LeavesWithin(entries, t);
        forall i | 0 <= i < |t.entries| ensures t.entries[i].key != name {
          assert t.entries[i] in entries;
        }
      }
      FindAbsent(stream, nodes, Root(entries), MAX_LEVELS, name);
    }
  }
}
