/** What the guest sees of a built index: the full chain walk gives back every pair, and
    `index_walk` finds exactly the keys of the first leaf and finishes exactly when a key has
    no more values than one duplicate node holds. */
module IndexLookup {
  import opened Bytes
  import opened Keys
  import opened NodePlan
  import opened NodeCodec
  import opened DirectoryTree
  import opened DirectoryStream
  import opened DirectoryReader
  import opened DirectoryLookup
  import opened IndexTree
  import opened IndexReader

  // ----- one duplicate node

  ghost predicate ValuesBelow(values: seq<nat>, bound: nat)
  {
    forall i | 0 <= i < |values| :: values[i] < bound
  }

  lemma DuplicateParts(right: nat, values: seq<nat>)
    requires |values| <= NUM_DUPLICATE_VALUES
    ensures var b := DuplicateBytes(right, values);
            && b[0..8] == Le(8, NULL_LINK) && b[8..16] == Le(8, right) && b[16..24] == Le(8, |values|)
            && b[24..24 + 8 * |values|] == Values(values)
  {
    hide Le, Values;
    var x, y, z := Le(8, NULL_LINK), Le(8, right), Le(8, |values|);
    assert DuplicateBytes(right, values) == x + y + z + Values(values) + Zeros(NODE - 24 - 8 * |values|);
  }

  lemma DuplicateReads(right: nat, values: seq<nat>)
    requires |values| <= NUM_DUPLICATE_VALUES && right < TWO64 && ValuesBelow(values, TWO64)
    ensures var b := DuplicateBytes(right, values);
            && Field(b, RIGHT_LINK, 8) == right && DuplicateCount(b) == |values|
            && forall i | 0 <= i < |values| :: DuplicateValue(b, i) == values[i]
  {
    hide DuplicateBytes, Values, Le;
    var b := DuplicateBytes(right, values);
    DuplicateParts(right, values);
    Powers();
    FieldIs(b, 8, 8, right);
    FieldIs(b, 16, 8, |values|);
    forall i | 0 <= i < |values| ensures DuplicateValue(b, i) == values[i] {
      ValuesEntry(values, i);
      SliceOfSlice(b, 24, 24 + 8 * |values|, 8 * i, 8 * i + 8);
      FieldIs(b, 24 + 8 * i, 8, values[i]);
    }
  }

  lemma {:induction false} NodeValuesAre(b: seq<byte>, values: seq<nat>, i: nat)
    requires |b| == NODE && DuplicateCount(b) == |values| && i <= |values|
    requires forall i | 0 <= i < |values| :: DuplicateValue(b, i) == values[i]
    ensures NodeValues(b, i) == values[i..]
    decreases |values| - i
  {
    if i < |values| {
      NodeValuesAre(b, values, i + 1);
    }
  }

  // ----- a chain of them

  /** The stream holds the chain of a group's values at `offset`. */
  ghost predicate ChainHeld(stream: seq<byte>, offset: nat, values: seq<nat>)
    decreases |values|
  {
    && offset + NODE <= |stream|
    && if |values| <= NUM_DUPLICATE_VALUES then stream[offset..offset + NODE] == DuplicateBytes(NULL_LINK, values)
       else
         && stream[offset..offset + NODE] == DuplicateBytes(offset + NODE, values[..NUM_DUPLICATE_VALUES])
         && ChainHeld(stream, offset + NODE, values[NUM_DUPLICATE_VALUES..])
  }

  /** The head of a held chain: its values, and the link to the rest. */
  lemma ChainHead(stream: seq<byte>, offset: nat, values: seq<nat>) returns (here: seq<nat>, right: nat)
    requires ChainHeld(stream, offset, values) && ValuesBelow(values, TWO64) && |stream| < NULL_LINK
    ensures var b := Read(stream, offset, NODE);
            && Field(b, RIGHT_LINK, 8) == right && DuplicateCount(b) == |here|
            && forall i | 0 <= i < |here| :: DuplicateValue(b, i) == here[i]
    ensures offset + NODE <= |stream|
    ensures |values| <= NUM_DUPLICATE_VALUES ==> here == values && right == NULL_LINK
    ensures |values| > NUM_DUPLICATE_VALUES ==>
              && here == values[..NUM_DUPLICATE_VALUES] && right == offset + NODE != NULL_LINK
              && ChainHeld(stream, offset + NODE, values[NUM_DUPLICATE_VALUES..])
              && ValuesBelow(values[NUM_DUPLICATE_VALUES..], TWO64)
  {
    hide DuplicateBytes, Field, DuplicateCount, DuplicateValue;
    if |values| <= NUM_DUPLICATE_VALUES {
      here, right := values, NULL_LINK;
    } else {
      here, right := values[..NUM_DUPLICATE_VALUES], offset + NODE;
      assert ChainHeld(stream, offset + NODE, values[NUM_DUPLICATE_VALUES..]);
    }
    DuplicateReads(right, here);
  }

  lemma {:induction false} ChainReads(stream: seq<byte>, offset: nat, values: seq<nat>, steps: nat)
    requires ChainHeld(stream, offset, values) && ValuesBelow(values, TWO64) && |stream| < NULL_LINK
    requires steps > |stream| - offset
    ensures ChainValues(stream, offset, steps) == values
    decreases |values|
  {
    hide ChainHeld, NodeValues, Field, DuplicateCount, DuplicateValue;
    var here, right := ChainHead(stream, offset, values);
    NodeValuesAre(Read(stream, offset, NODE), here, 0);
    if |values| > NUM_DUPLICATE_VALUES {
      ChainReads(stream, right, values[NUM_DUPLICATE_VALUES..], steps - 1);
      assert values == here + values[NUM_DUPLICATE_VALUES..];
    }
  }

  /** The walk along a held chain: position `p` gives value `p`, but leaves the caller with
      `p`'s place within its own node, plus one. */
  lemma {:induction false} WalkHeld(stream: seq<byte>, offset: nat, values: seq<nat>, p: nat, steps: nat)
    requires ChainHeld(stream, offset, values) && ValuesBelow(values, TWO64) && |stream| < NULL_LINK
    requires p < |values| && steps > p / NUM_DUPLICATE_VALUES
    ensures WalkChain(stream, offset, p, steps) == Step(Some(values[p]), p % NUM_DUPLICATE_VALUES + 1)
    decreases |values|
  {
    hide ChainHeld, Field, DuplicateCount, DuplicateValue;
    var here, right := ChainHead(stream, offset, values);
    if p >= NUM_DUPLICATE_VALUES {
      assert |values| > NUM_DUPLICATE_VALUES;
      var q := p - NUM_DUPLICATE_VALUES;
      assert p / NUM_DUPLICATE_VALUES == q / NUM_DUPLICATE_VALUES + 1;
      assert p % NUM_DUPLICATE_VALUES == q % NUM_DUPLICATE_VALUES;
      WalkHeld(stream, right, values[NUM_DUPLICATE_VALUES..], q, steps - 1);
    }
  }

  /** At the end of a chain of one node the walk stops. */
  lemma WalkEnds(stream: seq<byte>, offset: nat, values: seq<nat>, steps: nat)
    requires ChainHeld(stream, offset, values) && ValuesBelow(values, TWO64) && |stream| < NULL_LINK
    requires |values| <= NUM_DUPLICATE_VALUES && steps > 0
    ensures WalkChain(stream, offset, |values|, steps).value == None
  {
    hide ChainHeld, Field, DuplicateCount, DuplicateValue;
    var here, right := ChainHead(stream, offset, values);
  }

  // ----- where the builder puts the chains

  /** The duplicate nodes of the groups before the `i`th. */
  function NodesBefore(groups: seq<Group>, i: nat): nat
    requires i <= |groups|
  {
    if i == 0 then 0
    else NodesBefore(groups, i - 1) +
         if |groups[i - 1].values| > 1 then |ChainImages(groups[i - 1].values, 0)| else 0
  }

  lemma {:induction false} ChainLength(values: seq<nat>, a: nat, b: nat)
    ensures |ChainImages(values, a)| == |ChainImages(values, b)|
    decreases |values|
  {
    if |values| > NUM_DUPLICATE_VALUES {
      ChainLength(values[NUM_DUPLICATE_VALUES..], a + NODE, b + NODE);
    }
  }

  lemma {:induction false} NodesBeforeTail(groups: seq<Group>, i: nat)
    requires 0 < i <= |groups|
    ensures NodesBefore(groups, i) == NodesBefore(groups, 1) + NodesBefore(groups[1..], i - 1)
  {
    hide ChainImages;
    if i > 1 {
      NodesBeforeTail(groups, i - 1);
      assert groups[1..][i - 2] == groups[i - 1];
    }
  }

  ghost predicate Grouped(groups: seq<Group>)
  {
    forall i | 0 <= i < |groups| :: groups[i].values != []
  }

  /** Entry `i` holds the group's one value, or links to its chain at node `at`. */
  ghost predicate PlacedAt(r: Linked, g: Group, i: nat, at: nat, offset: nat)
  {
    && i < |r.entries|
    && (|g.values| == 1 ==> r.entries[i].value == g.values[0])
    && (|g.values| > 1 ==>
          var chain := ChainImages(g.values, offset);
          && r.entries[i].value == MakeLink(DUPLICATE_NODE, offset)
          && at + |chain| <= |r.duplicates| && r.duplicates[at..at + |chain|] == chain)
  }

  lemma PlacedLater(head: seq<Entry>, chain: seq<seq<byte>>, rest: Linked, g: Group, i: nat, at: nat, offset: nat)
    requires PlacedAt(rest, g, i, at, offset)
    ensures PlacedAt(Linked(head + rest.entries, chain + rest.duplicates), g, |head| + i, |chain| + at, offset)
  {
    hide ChainImages, MakeLink;
    var r := Linked(head + rest.entries, chain + rest.duplicates);
    assert r.entries[|head| + i] == rest.entries[i];
    if |g.values| > 1 {
      assert r.duplicates[|chain|..] == rest.duplicates;
      SliceAfter(r.duplicates, |chain|, at, |ChainImages(g.values, offset)|);
    }
  }

  lemma LinkedFirst(groups: seq<Group>, offset: nat)
    requires Grouped(groups) && groups != []
    ensures PlacedAt(Link(groups, offset), groups[0], 0, 0, offset)
  {
    hide ChainImages, MakeLink, Link;
    LinkHead(groups, offset);
    var g, r := groups[0], Link(groups, offset);
    if |g.values| > 1 {
      var chain := ChainImages(g.values, offset);
      assert r.duplicates[..|chain|] == chain;
    }
  }

  /** What the first group takes, and what is left for the rest. */
  lemma LinkTail(groups: seq<Group>, offset: nat) returns (e: Entry, chain: seq<seq<byte>>)
    requires Grouped(groups) && groups != []
    ensures var rest := Link(groups[1..], offset + NODE * |chain|);
            Link(groups, offset) == Linked([e] + rest.entries, chain + rest.duplicates)
    ensures NodesBefore(groups, 1) == |chain|
  {
    hide ChainImages, MakeLink, Link;
    LinkHead(groups, offset);
    var g := groups[0];
    ChainLength(g.values, offset, 0);
    if |g.values| > 1 {
      e, chain := Entry(g.key, MakeLink(DUPLICATE_NODE, offset)), ChainImages(g.values, offset);
    } else {
      e, chain := Entry(g.key, g.values[0]), [];
      var rest := Link(groups[1..], offset);
      assert [] + rest.duplicates == rest.duplicates;
    }
  }

  lemma NoNodesBefore(groups: seq<Group>)
    ensures NodesBefore(groups, 0) == 0
  {
  }

  /** Group `i`'s leaf value, and its chain among the duplicate nodes. */
  lemma {:induction false} LinkedAt(groups: seq<Group>, offset: nat, i: nat)
    requires Grouped(groups) && i < |groups|
    ensures PlacedAt(Link(groups, offset), groups[i], i, NodesBefore(groups, i), offset + NODE * NodesBefore(groups, i))
    decreases i
  {
    hide ChainImages, MakeLink, Link, PlacedAt, NodesBefore;
    if i == 0 {
      NoNodesBefore(groups);
      LinkedFirst(groups, offset);
    } else {
      var e, chain := LinkTail(groups, offset);
      NodesBeforeTail(groups, i);
      var rest, start := Link(groups[1..], offset + NODE * |chain|), offset + NODE * |chain|;
      LinkedAt(groups[1..], start, i - 1);
      PlacedLater([e], chain, rest, groups[i], i - 1, NodesBefore(groups[1..], i - 1),
                  offset + NODE * NodesBefore(groups, i));
    }
  }

  // ----- the built stream

  /** The stream is a header node and then exactly these nodes. */
  ghost predicate NodesHeld(stream: seq<byte>, ss: seq<seq<byte>>)
  {
    && |stream| == NODE * (1 + |ss|)
    && forall k | 0 <= k < |ss| :: Offset(k) + NODE <= |stream| && stream[Offset(k)..Offset(k) + NODE] == ss[k]
  }

  lemma StreamNodesHeld(dataType: nat, depth: nat, root: nat, ss: seq<seq<byte>>)
    requires WholeNodes(ss)
    ensures NodesHeld(TreeStream(dataType, depth, root, Concat(ss)), ss)
  {
    hide TreeHeader, Concat;
    var body := Concat(ss);
    var stream := TreeStream(dataType, depth, root, body);
    NodesLength(ss);
    assert stream[NODE..] == body;
    forall k | 0 <= k < |ss|
      ensures Offset(k) + NODE <= |stream| && stream[Offset(k)..Offset(k) + NODE] == ss[k]
    {
      StreamAt(ss, k);
      assert stream[Offset(k)..Offset(k) + NODE] == stream[NODE..][NODE * k..NODE * k + NODE];
    }
  }

  lemma {:induction false} ChainIsHeld(stream: seq<byte>, ss: seq<seq<byte>>, k: nat, values: seq<nat>)
    requires NodesHeld(stream, ss)
    requires k + |ChainImages(values, Offset(k))| <= |ss|
    requires ss[k..k + |ChainImages(values, Offset(k))|] == ChainImages(values, Offset(k))
    ensures ChainHeld(stream, Offset(k), values)
    decreases |values|
  {
    hide DuplicateBytes;
    var chain := ChainImages(values, Offset(k));
    assert ss[k] == chain[0];
    if |values| > NUM_DUPLICATE_VALUES {
      var rest := ChainImages(values[NUM_DUPLICATE_VALUES..], Offset(k + 1));
      assert chain[1..] == rest;
      assert ss[k + 1..k + 1 + |rest|] == ss[k..k + |chain|][1..];
      ChainIsHeld(stream, ss, k + 1, values[NUM_DUPLICATE_VALUES..]);
    }
  }

  /** A leaf value that stands for the group: its one value, or a link to its chain. */
  ghost predicate GroupHeld(stream: seq<byte>, value: nat, g: Group)
  {
    && g.values != [] && ValuesBelow(g.values, TWO62)
    && if |g.values| == 1 then value == g.values[0]
       else TWO62 <= value < TWO64 && LinkType(value) == DUPLICATE_NODE && ChainHeld(stream, LinkOffset(value), g.values)
  }

  /** Groups whose values are plain block numbers. */
  ghost predicate PlainGroups(groups: seq<Group>)
  {
    forall i | 0 <= i < |groups| :: groups[i].values != [] && ValuesBelow(groups[i].values, TWO62)
  }

  lemma GroupIsHeld(stream: seq<byte>, groups: seq<Group>, i: nat)
    requires IndexBuildable(groups) && PlainGroups(groups) && i < |groups|
    requires NodesHeld(stream, IndexNodes(groups)) && |stream| <= MAX_STREAM
    ensures GroupHeld(stream, IndexLinked(groups).entries[i].value, groups[i])
  {
    hide NodesHeld, ChainImages, MakeLink, LinkType, LinkBits, ChainHeld, Images, Link, Plan;
    var leaves := |Plan(GroupKeys(groups))|;
    var at := NodesBefore(groups, i);
    LinkedAt(groups, Offset(leaves), i);
    assert IndexLinked(groups) == Link(groups, Offset(leaves));
    if |groups[i].values| > 1 {
      IndexLeavesFit(groups);
      var ss, r, k := IndexNodes(groups), IndexLinked(groups), leaves + at;
      var chain := ChainImages(groups[i].values, Offset(k));
      assert Offset(k) == Offset(leaves) + NODE * at;
      assert ss[leaves..] == r.duplicates;
      SliceAfter(ss, leaves, at, |chain|);
      ChainIsHeld(stream, ss, k, groups[i].values);
      OffsetAligned(stream, ss, k);
      LinkRoundTrip(Offset(k));
    }
  }

  lemma OffsetAligned(stream: seq<byte>, ss: seq<seq<byte>>, k: nat)
    requires NodesHeld(stream, ss) && k < |ss| && |stream| <= MAX_STREAM
    ensures Offset(k) < TWO62 && Offset(k) % 1024 == 0
  {
    assert k + 1 <= |ss|;
    OffsetWhole(k);
  }

  lemma OffsetWhole(k: nat)
    ensures Offset(k) % 1024 == 0
  {
    assert Offset(k) == 1024 * (4 * (k + 1));
  }

  /** Everything a reader meets in an index stream: the header, each leaf, each group. */
  ghost predicate IndexHeld(stream: seq<byte>, dataType: nat, groups: seq<Group>, entries: seq<Entry>, plan: seq<Chunk>)
  {
    && |stream| <= MAX_STREAM && NodeHeader(stream) == Some(Header(NODE, |stream|, dataType))
    && |entries| == |groups| && (forall i | 0 <= i < |groups| :: entries[i].key == groups[i].key)
    && (forall i | 0 <= i < |groups| :: GroupHeld(stream, entries[i].value, groups[i]))
    && plan != [] && (forall i | 0 <= i < |plan| :: plan[i].first + plan[i].count <= |entries|)
    && (groups == [] ==> plan == [Chunk(0, 0, 0)]) && (groups != [] ==> Tiles(plan, |groups|))
    && (forall i | 0 <= i < |plan| :: Held(stream, Offset(i), TreeNode(LeafAt(entries, plan, i))))
  }

  lemma LeafInNodes(groups: seq<Group>, i: nat)
    requires IndexBuildable(groups) && i < |Plan(GroupKeys(groups))|
    ensures Plan(GroupKeys(groups))[i].first + Plan(GroupKeys(groups))[i].count <= |groups|
    ensures var t := LeafAt(IndexLinked(groups).entries, Plan(GroupKeys(groups)), i);
            NodeFits(t) && i < |IndexNodes(groups)| && IndexNodes(groups)[i] == NodeBytes(TreeNode(t))
  {
    hide Plan, Link, NodeBytes, Fits, TreeNode;
    IndexPlanBounds(GroupKeys(groups));
    IndexLeavesFit(groups);
    assert IndexNodes(groups)[i] == Images(IndexLeaves(groups))[i];
  }

  lemma LeafHeldFrom(stream: seq<byte>, ss: seq<seq<byte>>, t: Tree, i: nat)
    requires NodesHeld(stream, ss) && |stream| <= MAX_STREAM && i < |ss| && t.Leaf? && NodeFits(t)
    requires ss[i] == NodeBytes(TreeNode(t)) && t.left < TWO64 && t.right < TWO64
    requires forall j | 0 <= j < |t.entries| :: t.entries[j].value < TWO64 && |t.entries[j].key| <= MAX_NAME
    ensures Held(stream, Offset(i), TreeNode(t))
  {
    hide NodeBytes, Fits;
  }

  lemma IndexLeafHeld(stream: seq<byte>, groups: seq<Group>, i: nat)
    requires IndexBuildable(groups) && PlainGroups(groups) && i < |Plan(GroupKeys(groups))|
    requires NodesHeld(stream, IndexNodes(groups)) && |stream| <= MAX_STREAM
    ensures Plan(GroupKeys(groups))[i].first + Plan(GroupKeys(groups))[i].count <= |groups|
    ensures Held(stream, Offset(i), TreeNode(LeafAt(IndexLinked(groups).entries, Plan(GroupKeys(groups)), i)))
  {
    hide Plan, Link, GroupHeld, NodeBytes, TreeNode, NodesHeld, NodeFits, Held, PlainGroups, IndexNodes;
    LeafInNodes(groups, i);
    var plan, entries := Plan(GroupKeys(groups)), IndexLinked(groups).entries;
    var t := LeafAt(entries, plan, i);
    forall j | 0 <= j < |t.entries| ensures t.entries[j].value < TWO64 && |t.entries[j].key| <= MAX_NAME {
      var k := plan[i].first + j;
      assert t.entries[j] == entries[k];
      GroupIsHeld(stream, groups, k);
      PlainValue(stream, entries[k].value, groups[k]);
      assert GroupKeys(groups)[k] == t.entries[j].key;
    }
    LeafLinksSmall(stream, groups, t, i);
    LeafHeldFrom(stream, IndexNodes(groups), t, i);
  }

  lemma LeafLinksSmall(stream: seq<byte>, groups: seq<Group>, t: Tree, i: nat)
    requires IndexBuildable(groups) && i < |Plan(GroupKeys(groups))|
    requires NodesHeld(stream, IndexNodes(groups)) && |stream| <= MAX_STREAM
    requires Plan(GroupKeys(groups))[i].first + Plan(GroupKeys(groups))[i].count <= |groups|
    requires t == LeafAt(IndexLinked(groups).entries, Plan(GroupKeys(groups)), i)
    ensures t.left < TWO64 && t.right < TWO64
  {
    hide Plan, Link, NodeBytes;
    IndexLeavesFit(groups);
    assert |Plan(GroupKeys(groups))| <= |IndexNodes(groups)|;
  }

  lemma PlainValue(stream: seq<byte>, value: nat, g: Group)
    requires GroupHeld(stream, value, g)
    ensures value < TWO64
  {
  }

  /** Pairs the builder can index: names the format allows, keys of the index's type, plain
      block numbers, in a stream one run addresses. */
  ghost predicate Indexable(dataType: nat, pairs: seq<Entry>)
  {
    && (dataType == STRING_TYPE || dataType == INT64_TYPE) && ValidKeys(dataType, pairs)
    && (forall i | 0 <= i < |pairs| :: |pairs[i].key| <= MAX_NAME && pairs[i].value < TWO62)
  }

  lemma GroupValuesPlain(dataType: nat, pairs: seq<Entry>)
    requires Indexable(dataType, pairs)
    ensures PlainGroups(IndexGroups(dataType, pairs))
  {
    var gs := IndexGroups(dataType, pairs);
    GroupsNonEmpty(Sort(dataType, pairs));
    IndexConserves(dataType, pairs);
    InMultiset(Expand(gs), pairs);
    forall i | 0 <= i < |gs| ensures gs[i].values != [] && ValuesBelow(gs[i].values, TWO62) {
      forall j | 0 <= j < |gs[i].values| ensures gs[i].values[j] < TWO62 {
        InExpand(gs, i, j);
        assert Entry(gs[i].key, gs[i].values[j]) in pairs;
      }
    }
  }

  lemma {:induction false} InExpand(groups: seq<Group>, i: nat, j: nat)
    requires i < |groups| && j < |groups[i].values|
    ensures Entry(groups[i].key, groups[i].values[j]) in Expand(groups)
    decreases i
  {
    if i == 0 {
      assert Each(groups[0])[j] in Each(groups[0]);
    } else {
      InExpand(groups[1..], i - 1, j);
    }
  }

  lemma IndexIsHeld(dataType: nat, pairs: seq<Entry>)
    requires Indexable(dataType, pairs)
    ensures IndexBuildable(IndexGroups(dataType, pairs))
    ensures var groups := IndexGroups(dataType, pairs);
            |IndexBytes(dataType, pairs)| <= MAX_STREAM ==>
              IndexHeld(IndexBytes(dataType, pairs), dataType, groups, IndexLinked(groups).entries, Plan(GroupKeys(groups)))
  {
    IndexIsBuildable(dataType, pairs);
    GroupValuesPlain(dataType, pairs);
    if |IndexBytes(dataType, pairs)| <= MAX_STREAM {
      IndexIsHeldIn(dataType, IndexGroups(dataType, pairs), IndexBytes(dataType, pairs));
    }
  }

  lemma IndexIsHeldIn(dataType: nat, groups: seq<Group>, stream: seq<byte>)
    requires IndexBuildable(groups) && PlainGroups(groups) && dataType < TWO32
    requires stream == TreeStream(dataType, 1, NODE, Concat(IndexNodes(groups))) && |stream| <= MAX_STREAM
    ensures IndexHeld(stream, dataType, groups, IndexLinked(groups).entries, Plan(GroupKeys(groups)))
  {
    hide Plan, Link, GroupHeld, NodesHeld, Held, TreeNode, TreeStream, NodeHeader, Concat, LeafAt, PlainGroups,
         NamesFit;
    var plan, ss := Plan(GroupKeys(groups)), IndexNodes(groups);
    StreamNodesHeld(dataType, 1, NODE, ss);
    NodesLength(ss);
    HeaderRoundTrip(dataType, 1, NODE, Concat(ss));
    IndexPlanBounds(GroupKeys(groups));
    if groups != [] {
      PlanTiles(GroupKeys(groups));
    } else {
      EmptyPlan(GroupKeys(groups));
    }
    forall i | 0 <= i < |groups| ensures GroupHeld(stream, IndexLinked(groups).entries[i].value, groups[i]) {
      GroupIsHeld(stream, groups, i);
    }
    forall i | 0 <= i < |plan| ensures Held(stream, Offset(i), TreeNode(LeafAt(IndexLinked(groups).entries, plan, i))) {
      IndexLeafHeld(stream, groups, i);
    }
  }

  lemma EmptyPlan(keys: seq<Key>)
    requires |keys| == 0
    ensures Plan(keys) == [Chunk(0, 0, 0)]
  {
  }

  // ----- the full walk gives back every pair

  lemma PlainType(value: nat)
    requires value < TWO64
    ensures LinkType(value) == 0 <==> value < TWO62
  {
  }

  lemma EntryValuesAre(stream: seq<byte>, value: nat, g: Group)
    requires GroupHeld(stream, value, g) && |stream| <= MAX_STREAM
    ensures EntryValues(stream, value) == g.values
  {
    hide LinkType, LinkBits, ChainHeld;
    PlainValue(stream, value, g);
    PlainType(value);
    if |g.values| > 1 {
      ChainReads(stream, LinkOffset(value), g.values, |stream| + 1);
    }
  }

  lemma {:induction false} LeafPairsAre(stream: seq<byte>, b: seq<byte>, n: Node, groups: seq<Group>, i: nat)
    requires Shows(b, n) && |n.keys| == |groups| && i <= |groups| && |stream| <= MAX_STREAM
    requires forall j | 0 <= j < |groups| :: n.keys[j] == groups[j].key && GroupHeld(stream, n.values[j], groups[j])
    ensures LeafPairs(stream, b, i) == Expand(groups[i..])
    decreases |groups| - i
  {
    hide Readable, KeyAt, KeyLength, ValueAt, GroupHeld, EntryValues, Each, KeyBytes;
    if i < |groups| {
      assert EntryReads(b, i, n.keys[i], n.values[i]);
      assert GroupHeld(stream, n.values[i], groups[i]);
      EntryValuesAre(stream, n.values[i], groups[i]);
      LeafPairsAre(stream, b, n, groups, i + 1);
      assert groups[i..][1..] == groups[i + 1..];
      assert Group(groups[i].key, groups[i].values) == groups[i];
    }
  }

  lemma SmallStream(stream: seq<byte>, dataType: nat, groups: seq<Group>, entries: seq<Entry>, plan: seq<Chunk>)
    requires IndexHeld(stream, dataType, groups, entries, plan)
    ensures |stream| <= MAX_STREAM && NodeHeader(stream) == Some(Header(NODE, |stream|, dataType))
    ensures |groups| == |entries|
    ensures forall i | 0 <= i < |groups| :: entries[i].key == groups[i].key && GroupHeld(stream, entries[i].value, groups[i])
  {
    hide GroupHeld, NodeHeader, Held;
  }

  lemma LeafIsHeld(stream: seq<byte>, dataType: nat, groups: seq<Group>, entries: seq<Entry>, plan: seq<Chunk>, i: nat)
    requires IndexHeld(stream, dataType, groups, entries, plan) && i < |plan|
    ensures plan[i].first + plan[i].count <= |entries| == |groups|
    ensures Held(stream, Offset(i), TreeNode(LeafAt(entries, plan, i)))
  {
    hide GroupHeld, NodeHeader, Held, Tiles, TreeNode;
  }

  /** The groups of one leaf, against its node. */
  lemma LeafGroups(stream: seq<byte>, dataType: nat, groups: seq<Group>, entries: seq<Entry>, plan: seq<Chunk>, i: nat)
    requires IndexHeld(stream, dataType, groups, entries, plan) && i < |plan|
    ensures plan[i].first + plan[i].count <= |entries| == |groups|
    ensures var n, gs := TreeNode(LeafAt(entries, plan, i)), groups[plan[i].first..End(plan[i])];
            && Held(stream, Offset(i), n) && |n.keys| == |n.values| == |gs|
            && n.overflow == NULL_LINK && n.right == (if i + 1 == |plan| then NULL_LINK else Offset(i + 1))
            && forall j | 0 <= j < |gs| :: n.keys[j] == gs[j].key && GroupHeld(stream, n.values[j], gs[j])
  {
    hide GroupHeld, Held, IndexHeld;
    SmallStream(stream, dataType, groups, entries, plan);
    LeafIsHeld(stream, dataType, groups, entries, plan, i);
    var t, c := LeafAt(entries, plan, i), plan[i];
    var gs := groups[c.first..End(c)];
    forall j | 0 <= j < |gs| ensures t.entries[j].key == gs[j].key && GroupHeld(stream, t.entries[j].value, gs[j]) {
      assert t.entries[j] == entries[c.first + j] && gs[j] == groups[c.first + j];
    }
  }

  /** What one leaf of a held index shows. */
  lemma IndexLeafShows(stream: seq<byte>, dataType: nat, groups: seq<Group>, entries: seq<Entry>, plan: seq<Chunk>, i: nat)
    requires IndexHeld(stream, dataType, groups, entries, plan) && i < |plan|
    ensures var b, n := Read(stream, Offset(i), NODE), TreeNode(LeafAt(entries, plan, i));
            && Shows(b, n) && Offset(i) + NODE <= |stream|
            && n.overflow == NULL_LINK && n.right == (if i + 1 == |plan| then NULL_LINK else Offset(i + 1))
            && LeafPairs(stream, b, 0) == Expand(groups[plan[i].first..End(plan[i])])
  {
    LeafGroups(stream, dataType, groups, entries, plan, i);
    hide Shows, GroupHeld, LeafPairs, Expand, Encodable, NodeBytes, TreeNode, IndexHeld;
    var n := TreeNode(LeafAt(entries, plan, i));
    HeldShows(stream, Offset(i), n);
    var gs := groups[plan[i].first..End(plan[i])];
    SmallStream(stream, dataType, groups, entries, plan);
    LeafPairsAre(stream, Read(stream, Offset(i), NODE), n, gs, 0);
    assert gs[0..] == gs;
  }

  lemma PairsStep(stream: seq<byte>, offset: nat, walks: nat)
    requires walks > 0 && Readable(Read(stream, offset, NODE))
    ensures var node := Read(stream, offset, NODE); var right := Field(node, RIGHT_LINK, 8);
            PairsFrom(stream, offset, walks) ==
            LeafPairs(stream, node, 0) + if right == NULL_LINK then [] else PairsFrom(stream, right, walks - 1)
  {
    hide LeafPairs, Readable;
  }

  lemma {:induction false} PairsFromAre(stream: seq<byte>, dataType: nat, groups: seq<Group>, entries: seq<Entry>,
                                        plan: seq<Chunk>, i: nat, walks: nat)
    requires IndexHeld(stream, dataType, groups, entries, plan) && i < |plan| && walks >= |plan| - i
    requires groups != []
    ensures PairsFrom(stream, Offset(i), walks) == Expand(groups[plan[i].first..])
    decreases |plan| - i
  {
    hide IndexHeld, LeafPairs, Expand, PairsFrom, TreeNode, Readable;
    IndexLeafShows(stream, dataType, groups, entries, plan, i);
    PairsStep(stream, Offset(i), walks);
    TiledPlan(stream, dataType, groups, entries, plan);
    if i + 1 < |plan| {
      PairsFromAre(stream, dataType, groups, entries, plan, i + 1, walks - 1);
      assert plan[i + 1].first == plan[i].first + plan[i].count;
      ExpandAppend(groups[plan[i].first..End(plan[i])], groups[End(plan[i])..]);
      assert groups[plan[i].first..] == groups[plan[i].first..End(plan[i])] + groups[End(plan[i])..];
    } else {
      assert groups[plan[i].first..] == groups[plan[i].first..End(plan[i])];
    }
  }

  lemma TiledPlan(stream: seq<byte>, dataType: nat, groups: seq<Group>, entries: seq<Entry>, plan: seq<Chunk>)
    requires IndexHeld(stream, dataType, groups, entries, plan)
    ensures groups != [] ==> Tiles(plan, |groups|)
    ensures plan != [] && |plan| <= |stream| && plan[0].first == 0
    ensures groups == [] ==> plan == [Chunk(0, 0, 0)]
  {
    hide GroupHeld, NodeHeader, NodeBytes, TreeNode;
    assert Held(stream, Offset(|plan| - 1), TreeNode(LeafAt(entries, plan, |plan| - 1)));
  }

  /** Walking the leaves and expanding the links gives the groups' pairs in order. */
  lemma PairsAreGroups(stream: seq<byte>, dataType: nat, groups: seq<Group>, entries: seq<Entry>, plan: seq<Chunk>)
    requires IndexHeld(stream, dataType, groups, entries, plan)
    ensures IndexPairs(stream) == Expand(groups)
  {
    hide PairsFrom, Expand, GroupHeld;
    TiledPlan(stream, dataType, groups, entries, plan);
    if groups != [] {
      PairsFromAre(stream, dataType, groups, entries, plan, 0, |stream|);
      assert groups[0..] == groups;
    } else {
      IndexLeafShows(stream, dataType, groups, entries, plan, 0);
      OneLeafPairs(stream, |stream|);
      assert groups[0..0] == groups;
    }
  }

  lemma OneLeafPairs(stream: seq<byte>, walks: nat)
    requires walks > 0 && |stream| >= 2 * NODE
    requires Readable(Read(stream, NODE, NODE)) && Field(Read(stream, NODE, NODE), RIGHT_LINK, 8) == NULL_LINK
    ensures PairsFrom(stream, NODE, walks) == LeafPairs(stream, Read(stream, NODE, NODE), 0)
  {
  }

  /** Index conservation: the chains of a built index hold exactly the pairs it was given,
      under distinct keys in their type's order. */
  lemma IndexRoundTrip(dataType: nat, pairs: seq<Entry>)
    requires Indexable(dataType, pairs)
    ensures IndexBuildable(IndexGroups(dataType, pairs))
    ensures |IndexBytes(dataType, pairs)| <= MAX_STREAM ==>
              && multiset(IndexPairs(IndexBytes(dataType, pairs))) == multiset(pairs)
              && IndexPairs(IndexBytes(dataType, pairs)) == Expand(IndexGroups(dataType, pairs))
              && KeysAscend(dataType, IndexGroups(dataType, pairs))
  {
    hide IndexBytes, IndexHeld, IndexBuildable, IndexPairs, Plan;
    IndexIsHeld(dataType, pairs);
    IndexConserves(dataType, pairs);
    IndexAscends(dataType, pairs);
    if |IndexBytes(dataType, pairs)| <= MAX_STREAM {
      GroupValuesPlain(dataType, pairs);
      var groups := IndexGroups(dataType, pairs);
      PairsAreGroups(IndexBytes(dataType, pairs), dataType, groups, IndexLinked(groups).entries, Plan(GroupKeys(groups)));
    }
  }
}
