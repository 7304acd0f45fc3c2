/** `_typed_tree`: an index as a chain of leaves, with the values of a repeated key in a chain
    of duplicate nodes behind a tagged link. */
module IndexTree {
  import opened Bytes
  import opened Keys
  import opened NodePlan
  import opened NodeCodec
  import opened DirectoryTree
  import opened DirectoryStream

  /** A duplicate node holds at most this many values. */
  const NUM_DUPLICATE_VALUES: nat := 125
  const TWO62: nat := 0x4000_0000_0000_0000
  const DUPLICATE_NODE: nat := 2

  // ----- tagged links

  /** `offset & 0x3FFFFFFFFFFFFC00`. */
  function LinkBits(offset: nat): nat { offset % TWO62 / 1024 * 1024 }

  function MakeLink(linkType: nat, offset: nat): nat
  {
    (linkType * TWO62 + LinkBits(offset)) % TWO64
  }

  function LinkType(link: nat): nat { link / TWO62 }

  function LinkOffset(link: nat): nat { LinkBits(link) }

  /** A link to a node reads back as one, and is never mistaken for a plain value. */
  lemma LinkRoundTrip(offset: nat)
    requires offset < TWO62 && offset % 1024 == 0
    ensures LinkType(MakeLink(DUPLICATE_NODE, offset)) == DUPLICATE_NODE
    ensures LinkOffset(MakeLink(DUPLICATE_NODE, offset)) == offset
    ensures TWO62 <= MakeLink(DUPLICATE_NODE, offset) < TWO64
  {
    assert offset / 1024 * 1024 == offset;
    var link := MakeLink(DUPLICATE_NODE, offset);
    assert link == 2 * TWO62 + offset;
    assert link / TWO62 == 2 && link % TWO62 == offset;
  }

  // ----- grouping

  datatype Group = Group(key: Key, values: seq<nat>)

  /** Adjacent entries with one key become one group. */
  function Groups(ordered: seq<Entry>): (groups: seq<Group>)
    ensures ordered != [] ==> groups != []
  {
    if ordered == [] then []
    else Join(Groups(ordered[..|ordered| - 1]), ordered[|ordered| - 1])
  }

  function Join(groups: seq<Group>, e: Entry): (r: seq<Group>)
    ensures r != []
  {
    var n := |groups|;
    if n > 0 && groups[n - 1].key == e.key then groups[..n - 1] + [Group(e.key, groups[n - 1].values + [e.value])]
    else groups + [Group(e.key, [e.value])]
  }

  method MakeGroups(ordered: seq<Entry>) returns (groups: seq<Group>)
    ensures groups == Groups(ordered)
  {
    groups := [];
    for i := 0 to |ordered|
      invariant groups == Groups(ordered[..i])
    {
      assert ordered[..i + 1][..i] == ordered[..i];
      var e, n := ordered[i], |groups|;
      if n > 0 && groups[n - 1].key == e.key {
        groups := groups[..n - 1] + [Group(e.key, groups[n - 1].values + [e.value])];
      } else {
        groups := groups + [Group(e.key, [e.value])];
      }
    }
    assert ordered[..|ordered|] == ordered;
  }

  /** `group.sort()`. */
  function InsertValue(v: nat, s: seq<nat>): (r: seq<nat>)
    ensures multiset(r) == multiset(s) + multiset{v} && |r| == |s| + 1
  {
    if s == [] then [v]
    else if v < s[|s| - 1] then
      assert s == s[..|s| - 1] + [s[|s| - 1]];
      InsertValue(v, s[..|s| - 1]) + [s[|s| - 1]]
    else s + [v]
  }

  function SortValues(s: seq<nat>): (r: seq<nat>)
    ensures multiset(r) == multiset(s) && |r| == |s|
  {
    if s == [] then []
    else
      assert s == s[..|s| - 1] + [s[|s| - 1]];
      InsertValue(s[|s| - 1], SortValues(s[..|s| - 1]))
  }

  function SortGroups(groups: seq<Group>): (r: seq<Group>)
    ensures |r| == |groups|
    ensures forall i | 0 <= i < |r| :: r[i] == Group(groups[i].key, SortValues(groups[i].values))
  {
    seq(|groups|, i requires 0 <= i < |groups| => Group(groups[i].key, SortValues(groups[i].values)))
  }

  /** The groups an index holds: keys in type order, each with its values in order. */
  function IndexGroups(dataType: nat, pairs: seq<Entry>): seq<Group>
  {
    SortGroups(Groups(Sort(dataType, pairs)))
  }

  // ----- duplicate nodes

  function DuplicateBytes(right: nat, values: seq<nat>): (s: seq<byte>)
    requires |values| <= NUM_DUPLICATE_VALUES
    ensures |s| == NODE
  {
    Le(8, NULL_LINK) + Le(8, right) + Le(8, |values|) + Values(values) + Zeros(NODE - 24 - 8 * |values|)
  }

  /** The chain of nodes a group's values fill from `offset` on. */
  function ChainImages(values: seq<nat>, offset: nat): (ss: seq<seq<byte>>)
    ensures ss != [] && forall i | 0 <= i < |ss| :: |ss[i]| == NODE
    decreases |values|
  {
    if |values| <= NUM_DUPLICATE_VALUES then [DuplicateBytes(NULL_LINK, values)]
    else
      [DuplicateBytes(offset + NODE, values[..NUM_DUPLICATE_VALUES])] +
      ChainImages(values[NUM_DUPLICATE_VALUES..], offset + NODE)
  }

  /** The leaf entries, and the duplicate nodes from `offset` on: a group of one keeps its
      value, a larger one is linked. */
  datatype Linked = Linked(entries: seq<Entry>, duplicates: seq<seq<byte>>)

  function Link(groups: seq<Group>, offset: nat): (r: Linked)
    requires forall i | 0 <= i < |groups| :: groups[i].values != []
    ensures |r.entries| == |groups| && forall i | 0 <= i < |groups| :: r.entries[i].key == groups[i].key
    ensures forall i | 0 <= i < |r.duplicates| :: |r.duplicates[i]| == NODE
    decreases |groups|
  {
    if groups == [] then Linked([], [])
    else
      var g := groups[0];
      if |g.values| > 1 then
        var chain := ChainImages(g.values, offset);
        var rest := Link(groups[1..], offset + NODE * |chain|);
        Linked([Entry(g.key, MakeLink(DUPLICATE_NODE, offset))] + rest.entries, chain + rest.duplicates)
      else
        var rest := Link(groups[1..], offset);
        Linked([Entry(g.key, g.values[0])] + rest.entries, rest.duplicates)
  }

  lemma {:induction false} GroupsNonEmpty(ordered: seq<Entry>)
    ensures forall i | 0 <= i < |Groups(ordered)| :: Groups(ordered)[i].values != []
  {
    if ordered != [] {
      GroupsNonEmpty(ordered[..|ordered| - 1]);
    }
  }

  function GroupKeys(groups: seq<Group>): (keys: seq<Key>)
    ensures |keys| == |groups| && forall i | 0 <= i < |keys| :: keys[i] == groups[i].key
  {
    seq(|groups|, i requires 0 <= i < |groups| => groups[i].key)
  }

  /** The leaf plan. An index with no keys is one empty leaf. */
  lemma IndexPlanBounds(keys: seq<Key>)
    ensures forall i | 0 <= i < |Plan(keys)| :: Plan(keys)[i].first + Plan(keys)[i].count <= |keys|
  {
    if keys != [] {
      PlanTiles(keys);
    }
  }

  function IndexLinked(groups: seq<Group>): (r: Linked)
    requires forall i | 0 <= i < |groups| :: groups[i].values != []
    ensures |r.entries| == |groups|
  {
    Link(groups, NODE * (1 + |Plan(GroupKeys(groups))|))
  }

  function IndexLeaves(groups: seq<Group>): (leaves: seq<Tree>)
    requires forall i | 0 <= i < |groups| :: groups[i].values != []
    ensures |leaves| == |Plan(GroupKeys(groups))|
  {
    IndexPlanBounds(GroupKeys(groups));
    LeavesOf(IndexLinked(groups).entries, Plan(GroupKeys(groups)))
  }

  ghost predicate IndexBuildable(groups: seq<Group>)
  {
    (forall i | 0 <= i < |groups| :: groups[i].values != []) && NamesFit(GroupKeys(groups))
  }

  lemma IndexLeavesFit(groups: seq<Group>)
    requires IndexBuildable(groups)
    ensures AllFit(IndexLeaves(groups))
    ensures forall i | 0 <= i < |Plan(GroupKeys(groups))| ::
              var c := Plan(GroupKeys(groups))[i];
              InRange(KeysOf(IndexLinked(groups).entries), c) && Fits(c.count, c.keyBytes)
  {
    var entries, keys := IndexLinked(groups).entries, GroupKeys(groups);
    assert KeysOf(entries) == keys;
    if groups != [] {
      PlanTiles(keys);
      PlanAllFit(keys);
      LeavesOfFit(entries, Plan(keys));
    } else {
      assert Plan(keys) == [Chunk(0, 0, 0)];
    }
  }

  ghost function IndexNodes(groups: seq<Group>): (ss: seq<seq<byte>>)
    requires IndexBuildable(groups)
    ensures WholeNodes(ss)
  {
    IndexLeavesFit(groups);
    Images(IndexLeaves(groups)) + IndexLinked(groups).duplicates
  }

  /** The stream `_typed_tree(data_type, pairs)` returns. */
  ghost function IndexBytes(dataType: nat, pairs: seq<Entry>): (s: seq<byte>)
    requires IndexBuildable(IndexGroups(dataType, pairs))
    ensures |s| == NODE * (1 + |IndexNodes(IndexGroups(dataType, pairs))|)
  {
    var nodes := IndexNodes(IndexGroups(dataType, pairs));
    NodesLength(nodes);
    TreeStream(dataType, 1, NODE, Concat(nodes))
  }

  // ----- nothing is lost

  function Each(g: Group): (s: seq<Entry>)
    ensures |s| == |g.values| && forall i | 0 <= i < |s| :: s[i] == Entry(g.key, g.values[i])
  {
    seq(|g.values|, i requires 0 <= i < |g.values| => Entry(g.key, g.values[i]))
  }

  /** Every pair the groups stand for. */
  function Expand(groups: seq<Group>): seq<Entry>
  {
    if groups == [] then [] else Each(groups[0]) + Expand(groups[1..])
  }

  lemma {:induction false} ExpandAppend(a: seq<Group>, b: seq<Group>)
    ensures Expand(a + b) == Expand(a) + Expand(b)
  {
    if a == [] {
      assert a + b == b;
    } else {
      assert (a + b)[1..] == a[1..] + b;
      ExpandAppend(a[1..], b);
    }
  }

  lemma ExpandNone()
    ensures Expand([]) == []
  {
  }

  lemma ExpandOne(g: Group)
    ensures Expand([g]) == Each(g)
  {
    assert Expand([g]) == Each(g) + Expand([g][1..]);
  }

  lemma ExpandJoin(groups: seq<Group>, e: Entry)
    ensures Expand(Join(groups, e)) == Expand(groups) + [e]
  {
    var n := |groups|;
    if n > 0 && groups[n - 1].key == e.key {
      var last, grown := groups[n - 1], Group(e.key, groups[n - 1].values + [e.value]);
      assert groups == groups[..n - 1] + [last];
      ExpandAppend(groups[..n - 1], [last]);
      ExpandAppend(groups[..n - 1], [grown]);
      ExpandOne(last);
      ExpandOne(grown);
      assert Each(grown) == Each(last) + [e];
    } else {
      ExpandAppend(groups, [Group(e.key, [e.value])]);
      ExpandOne(Group(e.key, [e.value]));
    }
  }

  /** Grouping only brackets the sorted pairs. */
  lemma {:induction false} ExpandGroups(ordered: seq<Entry>)
    ensures Expand(Groups(ordered)) == ordered
  {
    hide Join, Expand;
    if ordered == [] {
      ExpandNone();
    } else {
      var n := |ordered| - 1;
      ExpandGroups(ordered[..n]);
      ExpandJoin(Groups(ordered[..n]), ordered[n]);
    }
  }

  lemma {:induction false} EachSorted(key: Key, a: seq<nat>, b: seq<nat>)
    requires multiset(a) == multiset(b)
    ensures multiset(Each(Group(key, a))) == multiset(Each(Group(key, b)))
  {
    forall e ensures multiset(Each(Group(key, a)))[e] == multiset(Each(Group(key, b)))[e] {
      EachCount(key, a, e);
      EachCount(key, b, e);
    }
  }

  lemma {:induction false} EachCount(key: Key, a: seq<nat>, e: Entry)
    ensures multiset(Each(Group(key, a)))[e] == if e.key == key then multiset(a)[e.value] else 0
  {
    if a == [] {
      assert Each(Group(key, a)) == [];
    } else {
      var n := |a| - 1;
      EachCount(key, a[..n], e);
      assert a == a[..n] + [a[n]];
      assert Each(Group(key, a)) == Each(Group(key, a[..n])) + [Entry(key, a[n])];
    }
  }

  lemma {:induction false} ExpandSorted(groups: seq<Group>)
    ensures multiset(Expand(SortGroups(groups))) == multiset(Expand(groups))
  {
    if groups != [] {
      var g := groups[0];
      ExpandSorted(groups[1..]);
      assert SortGroups(groups)[1..] == SortGroups(groups[1..]);
      EachSorted(g.key, SortValues(g.values), g.values);
    }
  }

  /** An index stands for exactly the pairs it was given. */
  lemma IndexConserves(dataType: nat, pairs: seq<Entry>)
    ensures multiset(Expand(IndexGroups(dataType, pairs))) == multiset(pairs)
  {
    var ordered := Sort(dataType, pairs);
    ExpandGroups(ordered);
    ExpandSorted(Groups(ordered));
  }

  ghost predicate KeysAscend(dataType: nat, groups: seq<Group>)
  {
    forall i, j | 0 <= i < j < |groups| :: Below(dataType, groups[i].key, groups[j].key)
  }

  /** Groups in order, the last under the key of the last pair read. */
  ghost predicate InOrder(dataType: nat, groups: seq<Group>)
  {
    KeysAscend(dataType, groups) && forall i | 0 <= i < |groups| :: ValidKey(dataType, groups[i].key)
  }

  lemma JoinInOrder(dataType: nat, groups: seq<Group>, e: Entry)
    requires InOrder(dataType, groups) && ValidKey(dataType, e.key)
    requires groups != [] ==> !Below(dataType, e.key, groups[|groups| - 1].key)
    ensures InOrder(dataType, Join(groups, e))
    ensures Join(groups, e)[|Join(groups, e)| - 1].key == e.key
  {
    hide Below;
    var n := |groups|;
    if n > 0 && groups[n - 1].key != e.key {
      var last := groups[n - 1].key;
      Total(dataType, last, e.key);
      forall i | 0 <= i < n ensures Below(dataType, groups[i].key, e.key) {
        if i < n - 1 {
          Transitive(dataType, groups[i].key, last, e.key);
        }
      }
    }
  }

  lemma {:induction false} GroupsAscend(dataType: nat, ordered: seq<Entry>)
    requires ValidKeys(dataType, ordered) && Ascending(dataType, ordered)
    ensures InOrder(dataType, Groups(ordered))
    ensures ordered != [] ==> Groups(ordered)[|Groups(ordered)| - 1].key == ordered[|ordered| - 1].key
  {
    hide Below, Join, ValidKey;
    if ordered != [] {
      var n := |ordered| - 1;
      GroupsAscend(dataType, ordered[..n]);
      if n == 0 {
        assert Groups(ordered[..n]) == [];
      }
      JoinInOrder(dataType, Groups(ordered[..n]), ordered[n]);
    }
  }

  /** An index's keys are distinct and in their type's order: signed for int64. */
  lemma IndexAscends(dataType: nat, pairs: seq<Entry>)
    requires ValidKeys(dataType, pairs)
    ensures KeysAscend(dataType, IndexGroups(dataType, pairs))
    ensures forall i | 0 <= i < |IndexGroups(dataType, pairs)| ::
              ValidKey(dataType, IndexGroups(dataType, pairs)[i].key)
  {
    SortAscending(dataType, pairs);
    GroupsAscend(dataType, Sort(dataType, pairs));
  }

  lemma {:induction false} GroupKeysFrom(ordered: seq<Entry>, i: nat)
    requires i < |Groups(ordered)|
    ensures exists e | e in ordered :: e.key == Groups(ordered)[i].key
  {
    var n := |ordered| - 1;
    var gs := Groups(ordered[..n]);
    if i == |Groups(ordered)| - 1 {
      assert ordered[n] in ordered;
    } else {
      assert Groups(ordered)[i] == gs[i];
      GroupKeysFrom(ordered[..n], i);
    }
  }

  /** Any pairs with names the format allows can be indexed. */
  lemma IndexIsBuildable(dataType: nat, pairs: seq<Entry>)
    requires forall i | 0 <= i < |pairs| :: |pairs[i].key| <= MAX_NAME
    ensures IndexBuildable(IndexGroups(dataType, pairs))
  {
    var ordered := Sort(dataType, pairs);
    InMultiset(ordered, pairs);
    GroupsNonEmpty(ordered);
    var gs := Groups(ordered);
    forall i | 0 <= i < |gs| ensures |gs[i].key| <= MAX_NAME {
      GroupKeysFrom(ordered, i);
      var e :| e in ordered && e.key == gs[i].key;
      assert e in pairs;
    }
  }

  // ----- the builder

  /** One duplicate node. */
  method BuildDuplicate(right: nat, values: seq<nat>) returns (node: seq<byte>)
    requires |values| <= NUM_DUPLICATE_VALUES
    ensures node == DuplicateBytes(right, values)
  {
    hide Le, Values;
    var buf := new byte[NODE](_ => 0);
    var head := Le(8, NULL_LINK) + Le(8, right) + Le(8, |values|);
    assert buf[..] == [] + Zeros(NODE);
    PutNext(buf, [], 0, head);
    assert [] + head == head;
    PutValues(buf, head, 24, values);
    node := buf[..];
  }

  /** The nodes of one group, chained by their right links. */
  method BuildChain(group: seq<nat>, offset: nat) returns (nodes: seq<seq<byte>>)
    ensures nodes == ChainImages(group, offset)
  {
    hide DuplicateBytes;
    nodes := [];
    var at, here := 0, offset;
    while |group| - at > NUM_DUPLICATE_VALUES
      invariant 0 <= at <= |group| && here == offset + NODE * |nodes|
      invariant ChainImages(group, offset) == nodes + ChainImages(group[at..], here)
    {
      assert group[at..][..NUM_DUPLICATE_VALUES] == group[at..at + NUM_DUPLICATE_VALUES];
      assert group[at..][NUM_DUPLICATE_VALUES..] == group[at + NUM_DUPLICATE_VALUES..];
      var node := BuildDuplicate(here + NODE, group[at..at + NUM_DUPLICATE_VALUES]);
      nodes := nodes + [node];
      at := at + NUM_DUPLICATE_VALUES;
      here := here + NODE;
    }
    var node := BuildDuplicate(NULL_LINK, group[at..]);
    nodes := nodes + [node];
  }

  lemma LinkHead(groups: seq<Group>, offset: nat)
    requires groups != [] && forall i | 0 <= i < |groups| :: groups[i].values != []
    ensures var g := groups[0];
            && (|g.values| > 1 ==>
                  var chain := ChainImages(g.values, offset);
                  var rest := Link(groups[1..], offset + NODE * |chain|);
                  Link(groups, offset) ==
                  Linked([Entry(g.key, MakeLink(DUPLICATE_NODE, offset))] + rest.entries, chain + rest.duplicates))
            && (|g.values| == 1 ==>
                  var rest := Link(groups[1..], offset);
                  Link(groups, offset) == Linked([Entry(g.key, g.values[0])] + rest.entries, rest.duplicates))
  {
  }

  lemma Associative<T>(a: seq<T>, b: seq<T>, c: seq<T>)
    ensures a + (b + c) == a + b + c
  {
  }

  lemma LinkNone(groups: seq<Group>, offset: nat)
    requires |groups| == 0
    ensures Link(groups, offset) == Linked([], [])
  {
  }

  /** `entries` and `duplicates` are what `Link` makes of the first `i` groups. */
  ghost predicate LinkedSoFar(groups: seq<Group>, offset: nat, i: nat, here: nat, entries: seq<Entry>,
                              duplicates: seq<seq<byte>>)
    requires i <= |groups| && forall i | 0 <= i < |groups| :: groups[i].values != []
  {
    var rest := Link(groups[i..], here);
    Link(groups, offset) == Linked(entries + rest.entries, duplicates + rest.duplicates)
  }

  lemma LinkStep(groups: seq<Group>, offset: nat, i: nat, here: nat, entries: seq<Entry>, duplicates: seq<seq<byte>>,
                 e: Entry, chain: seq<seq<byte>>)
    requires i < |groups| && forall i | 0 <= i < |groups| :: groups[i].values != []
    requires LinkedSoFar(groups, offset, i, here, entries, duplicates)
    requires var g := groups[i];
             if |g.values| > 1 then e == Entry(g.key, MakeLink(DUPLICATE_NODE, here)) && chain == ChainImages(g.values, here)
             else e == Entry(g.key, g.values[0]) && chain == []
    ensures LinkedSoFar(groups, offset, i + 1, here + NODE * |chain|, entries + [e], duplicates + chain)
  {
    hide ChainImages, MakeLink, Link;
    assert groups[i..][1..] == groups[i + 1..];
    LinkHead(groups[i..], here);
    var rest := Link(groups[i + 1..], here + NODE * |chain|);
    Associative(entries, [e], rest.entries);
    Associative(duplicates, chain, rest.duplicates);
    assert [] + rest.duplicates == rest.duplicates;
  }

  lemma LinkStart(groups: seq<Group>, offset: nat)
    requires forall i | 0 <= i < |groups| :: groups[i].values != []
    ensures LinkedSoFar(groups, offset, 0, offset, [], [])
  {
    hide Link;
    var all := Link(groups, offset);
    assert groups[0..] == groups && [] + all.entries == all.entries && [] + all.duplicates == all.duplicates;
  }

  lemma LinkEnd(groups: seq<Group>, offset: nat, here: nat, entries: seq<Entry>, duplicates: seq<seq<byte>>)
    requires forall i | 0 <= i < |groups| :: groups[i].values != []
    requires LinkedSoFar(groups, offset, |groups|, here, entries, duplicates)
    ensures Linked(entries, duplicates) == Link(groups, offset)
  {
    hide Link;
    LinkNone(groups[|groups|..], here);
    assert entries + [] == entries && duplicates + [] == duplicates;
  }

  /** The leaf entries and the duplicate nodes, offsets running on from `offset`. */
  method BuildLinks(groups: seq<Group>, offset: nat) returns (entries: seq<Entry>, duplicates: seq<seq<byte>>)
    requires forall i | 0 <= i < |groups| :: groups[i].values != []
    ensures Linked(entries, duplicates) == Link(groups, offset)
  {
    hide LinkedSoFar, ChainImages, MakeLink, Link;
    entries, duplicates := [], [];
    var here := offset;
    LinkStart(groups, offset);
    for i := 0 to |groups|
      invariant offset <= here
      invariant LinkedSoFar(groups, offset, i, here, entries, duplicates)
    {
      var g := groups[i];
      if |g.values| > 1 {
        var chain := BuildChain(g.values, here);
        var link := Entry(g.key, MakeLink(DUPLICATE_NODE, here));
        LinkStep(groups, offset, i, here, entries, duplicates, link, chain);
        entries := entries + [link];
        duplicates := duplicates + chain;
        here := here + NODE * |chain|;
      } else {
        var single := Entry(g.key, g.values[0]);
        LinkStep(groups, offset, i, here, entries, duplicates, single, []);
        assert duplicates + [] == duplicates;
        entries := entries + [single];
      }
    }
    LinkEnd(groups, offset, here, entries, duplicates);
  }

  method BuildIndexLeaves(groups: seq<Group>, entries: seq<Entry>, plan: seq<Chunk>) returns (nodes: seq<seq<byte>>)
    requires IndexBuildable(groups) && entries == IndexLinked(groups).entries && plan == Plan(GroupKeys(groups))
    ensures AllFit(IndexLeaves(groups)) && nodes == Images(IndexLeaves(groups))
  {
    hide PlanFrom, NodeBytes, TreeNode, Fits, LeafAt, Link;
    IndexLeavesFit(groups);
    nodes := [];
    for number := 0 to |plan|
      invariant |nodes| == number
      invariant forall i | 0 <= i < number :: nodes[i] == Images(IndexLeaves(groups))[i]
    {
      var node := BuildLeaf(entries, plan, number);
      nodes := nodes + [node];
    }
  }

  /** `_typed_tree`. */
  method BuildIndex(dataType: nat, pairs: seq<Entry>) returns (tree: seq<byte>)
    requires IndexBuildable(IndexGroups(dataType, pairs))
    ensures tree == IndexBytes(dataType, pairs)
  {
    hide PlanFrom, NodeBytes, Link, TreeStream, Concat;
    var joined := MakeGroups(Sort(dataType, pairs));
    var groups := SortGroups(joined);
    var plan := MakeTypedPlan(GroupKeys(groups));
    var entries, duplicates := BuildLinks(groups, NODE * (1 + |plan|));
    var leaves := BuildIndexLeaves(groups, entries, plan);
    tree := Assemble(leaves + duplicates, dataType, 1, NODE);
  }
}
