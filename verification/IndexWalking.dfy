/** `index_walk` over a built index: which keys it finds, what it returns for one of them,
    and when a caller that walks until it stops does stop. */
module IndexWalking {
  import opened Bytes
  import opened Keys
  import opened NodePlan
  import opened NodeCodec
  import opened DirectoryTree
  import opened DirectoryStream
  import opened DirectoryReader
  import opened DirectoryLookup
  import opened IndexTree
  import opened IndexReader
  import opened IndexLookup

  // ----- the first leaf

  function TypedFirst(dataType: nat, keys: seq<Key>, i: nat, key: Key): (j: nat)
    requires i <= |keys|
    ensures i <= j <= |keys|
    ensures forall k | i <= k < j :: Below(dataType, keys[k], key)
    ensures j < |keys| ==> !Below(dataType, keys[j], key)
    decreases |keys| - i
  {
    if i == |keys| || !Below(dataType, keys[i], key) then i else TypedFirst(dataType, keys, i + 1, key)
  }

  lemma {:induction false} TypedScanShows(dataType: nat, b: seq<byte>, n: Node, i: nat, key: Key)
    requires Shows(b, n) && i <= |n.keys|
    ensures var j := TypedFirst(dataType, n.keys, i, key);
            TypedScan(dataType, b, i, key) == At(j, j < |n.keys| && !Below(dataType, key, n.keys[j]))
    decreases |n.keys| - i
  {
    hide Readable, KeyAt, KeyLength, ValueAt, KeyBytes, Below, Count;
    if i < |n.keys| {
      assert EntryReads(b, i, n.keys[i], n.values[i]);
      TypedScanShows(dataType, b, n, i + 1, key);
    }
  }

  lemma DescendLeaf(stream: seq<byte>, h: Header, offset: nat, n: Node, steps: nat, key: Key)
    requires Held(stream, offset, n) && offset + NODE <= h.maximum && n.overflow == NULL_LINK && steps > 0
    ensures var j := TypedFirst(h.dataType, n.keys, 0, key);
            Descend(stream, h, offset, steps, key) ==
            if j < |n.keys| && !Below(h.dataType, key, n.keys[j]) then Some(n.values[j]) else None
  {
    hide NodeBytes, Encodable, Readable, KeyAt, KeyLength, Cumulative, ValueAt, Below;
    var b := Read(stream, offset, NODE);
    HeldShows(stream, offset, n);
    TypedScanShows(h.dataType, b, n, 0, key);
    var j := TypedFirst(h.dataType, n.keys, 0, key);
    if j < |n.keys| {
      assert EntryReads(b, j, n.keys[j], n.values[j]);
    }
  }

  /** The scan stops at a key that is there, and matches nothing that is not. */
  lemma FirstIsTheKey(dataType: nat, keys: seq<Key>, m: nat, key: Key)
    requires forall i | 0 <= i < |keys| :: ValidKey(dataType, keys[i])
    requires forall i, j | 0 <= i < j < |keys| :: Below(dataType, keys[i], keys[j])
    requires m < |keys| && key == keys[m]
    ensures TypedFirst(dataType, keys, 0, key) == m && !Below(dataType, key, keys[m])
  {
    hide Below;
    Irreflexive(dataType, key);
    var j := TypedFirst(dataType, keys, 0, key);
  }

  lemma NoKeyMatches(dataType: nat, keys: seq<Key>, key: Key)
    requires ValidKey(dataType, key) && forall i | 0 <= i < |keys| :: ValidKey(dataType, keys[i]) && keys[i] != key
    ensures var j := TypedFirst(dataType, keys, 0, key);
            j < |keys| ==> Below(dataType, key, keys[j])
  {
    hide Below;
    var j := TypedFirst(dataType, keys, 0, key);
    if j < |keys| {
      Total(dataType, key, keys[j]);
    }
  }

  // ----- an index in a stream

  lemma LeafKeys(stream: seq<byte>, dataType: nat, groups: seq<Group>, entries: seq<Entry>, plan: seq<Chunk>)
    requires IndexHeld(stream, dataType, groups, entries, plan)
    ensures plan != [] && plan[0].first == 0 && plan[0].count <= |groups| == |entries|
    ensures var n := TreeNode(LeafAt(entries, plan, 0));
            && Held(stream, NODE, n) && n.overflow == NULL_LINK && NODE + NODE <= |stream|
            && n.keys == GroupKeys(groups)[..plan[0].count]
            && forall j | 0 <= j < plan[0].count :: n.values[j] == entries[j].value
  {
    hide IndexHeld, GroupHeld, Encodable, NodeBytes;
    TiledPlan(stream, dataType, groups, entries, plan);
    LeafGroups(stream, dataType, groups, entries, plan, 0);
    SmallStream(stream, dataType, groups, entries, plan);
  }

  /** The descent reads the first leaf and no other: it follows no right link. */
  lemma DescendHeld(stream: seq<byte>, dataType: nat, groups: seq<Group>, entries: seq<Entry>, plan: seq<Chunk>, key: Key)
    requires IndexHeld(stream, dataType, groups, entries, plan)
    ensures plan != [] && plan[0].count <= |groups| == |entries|
    ensures var j := TypedFirst(dataType, GroupKeys(groups)[..plan[0].count], 0, key);
            Descend(stream, Header(NODE, |stream|, dataType), NODE, MAX_LEVELS, key) ==
            if j < plan[0].count && !Below(dataType, key, groups[j].key) then Some(entries[j].value) else None
  {
    hide IndexHeld, Held, TreeNode, Below, Descend;
    LeafKeys(stream, dataType, groups, entries, plan);
    DescendLeaf(stream, Header(NODE, |stream|, dataType), NODE, TreeNode(LeafAt(entries, plan, 0)), MAX_LEVELS, key);
  }

  lemma DescendPresent(stream: seq<byte>, dataType: nat, groups: seq<Group>, entries: seq<Entry>, plan: seq<Chunk>, i: nat)
    requires IndexHeld(stream, dataType, groups, entries, plan) && InOrder(dataType, groups)
    requires plan != [] && i < plan[0].count && i < |groups| && i < |entries|
    ensures Descend(stream, Header(NODE, |stream|, dataType), NODE, MAX_LEVELS, groups[i].key) == Some(entries[i].value)
  {
    hide IndexHeld, Below, Descend, ValidKey;
    DescendHeld(stream, dataType, groups, entries, plan, groups[i].key);
    FirstIsTheKey(dataType, GroupKeys(groups)[..plan[0].count], i, groups[i].key);
  }

  lemma DescendAbsent(stream: seq<byte>, dataType: nat, groups: seq<Group>, entries: seq<Entry>, plan: seq<Chunk>, key: Key)
    requires IndexHeld(stream, dataType, groups, entries, plan) && InOrder(dataType, groups) && ValidKey(dataType, key)
    requires plan != [] && forall i | 0 <= i < plan[0].count && i < |groups| :: groups[i].key != key
    ensures Descend(stream, Header(NODE, |stream|, dataType), NODE, MAX_LEVELS, key) == None
  {
    hide IndexHeld, Below, Descend, ValidKey;
    DescendHeld(stream, dataType, groups, entries, plan, key);
    NoKeyMatches(dataType, GroupKeys(groups)[..plan[0].count], key);
  }

  /** What one call answers for a group of the first leaf. */
  lemma WalkGroup(stream: seq<byte>, dataType: nat, groups: seq<Group>, entries: seq<Entry>, plan: seq<Chunk>, i: nat, p: nat)
    requires IndexHeld(stream, dataType, groups, entries, plan) && InOrder(dataType, groups)
    requires plan != [] && i < plan[0].count && i < |groups|
    requires p <= NUM_DUPLICATE_VALUES
    ensures var values, step := groups[i].values, Walk(stream, groups[i].key, p);
            && (p < |values| ==> step == Step(Some(values[p]), p % NUM_DUPLICATE_VALUES + 1))
            && (p == |values| ==> step.value == None)
  {
    hide IndexHeld, InOrder, Descend, NodeHeader, LinkType, LinkBits, ChainHeld, WalkChain;
    SmallStream(stream, dataType, groups, entries, plan);
    DescendPresent(stream, dataType, groups, entries, plan, i);
    var g, value := groups[i], entries[i].value;
    assert GroupHeld(stream, value, g);
    PlainValue(stream, value, g);
    PlainType(value);
    if |g.values| > 1 {
      if p < |g.values| {
        WalkHeld(stream, LinkOffset(value), g.values, p, MAX_CHAIN);
      } else if p == |g.values| {
        WalkEnds(stream, LinkOffset(value), g.values, MAX_CHAIN);
      }
    }
  }

  lemma WalkNothing(stream: seq<byte>, dataType: nat, groups: seq<Group>, entries: seq<Entry>, plan: seq<Chunk>, key: Key, p: nat)
    requires IndexHeld(stream, dataType, groups, entries, plan) && InOrder(dataType, groups) && ValidKey(dataType, key)
    requires plan != [] && forall i | 0 <= i < plan[0].count && i < |groups| :: groups[i].key != key
    ensures Walk(stream, key, p) == Step(None, p)
  {
    hide IndexHeld, InOrder, Descend, NodeHeader;
    SmallStream(stream, dataType, groups, entries, plan);
    DescendAbsent(stream, dataType, groups, entries, plan, key);
  }

  // ----- walking until it stops

  /** Where `count` successful calls from the start leave the caller. */
  function PositionAfter(stream: seq<byte>, key: Key, count: nat): nat
  {
    if count == 0 then 0 else Walk(stream, key, PositionAfter(stream, key, count - 1)).position
  }

  /** The value call number `count` returns, if any. */
  function Call(stream: seq<byte>, key: Key, count: nat): Option<nat>
  {
    Walk(stream, key, PositionAfter(stream, key, count)).value
  }

  /** The walk lists exactly `values`, in order, and then stops. */
  ghost predicate Lists(stream: seq<byte>, key: Key, values: seq<nat>)
  {
    && (forall k | 0 <= k < |values| :: Call(stream, key, k) == Some(values[k]))
    && Call(stream, key, |values|) == None
  }

  /** Some call stops the walk. */
  ghost predicate Stops(stream: seq<byte>, key: Key)
  {
    exists k: nat :: Call(stream, key, k) == None
  }

  lemma {:induction false} PositionsCount(stream: seq<byte>, dataType: nat, groups: seq<Group>, entries: seq<Entry>,
                                          plan: seq<Chunk>, i: nat, k: nat)
    requires IndexHeld(stream, dataType, groups, entries, plan) && InOrder(dataType, groups)
    requires plan != [] && i < plan[0].count && i < |groups|
    requires k <= |groups[i].values| <= NUM_DUPLICATE_VALUES
    ensures PositionAfter(stream, groups[i].key, k) == k
  {
    hide IndexHeld, InOrder, Walk;
    if k > 0 {
      PositionsCount(stream, dataType, groups, entries, plan, i, k - 1);
      WalkGroup(stream, dataType, groups, entries, plan, i, k - 1);
    }
  }

  lemma {:induction false} PositionsStayLow(stream: seq<byte>, dataType: nat, groups: seq<Group>, entries: seq<Entry>,
                                            plan: seq<Chunk>, i: nat, k: nat)
    requires IndexHeld(stream, dataType, groups, entries, plan) && InOrder(dataType, groups)
    requires plan != [] && i < plan[0].count && i < |groups|
    requires |groups[i].values| > NUM_DUPLICATE_VALUES
    ensures PositionAfter(stream, groups[i].key, k) <= NUM_DUPLICATE_VALUES
    ensures Call(stream, groups[i].key, k).Some?
    ensures Call(stream, groups[i].key, k).value in groups[i].values[..NUM_DUPLICATE_VALUES + 1]
  {
    hide IndexHeld, InOrder, Walk;
    if k > 0 {
      PositionsStayLow(stream, dataType, groups, entries, plan, i, k - 1);
      WalkGroup(stream, dataType, groups, entries, plan, i, PositionAfter(stream, groups[i].key, k - 1));
    }
    var p := PositionAfter(stream, groups[i].key, k);
    WalkGroup(stream, dataType, groups, entries, plan, i, p);
    assert groups[i].values[..NUM_DUPLICATE_VALUES + 1][p] == groups[i].values[p];
  }

  lemma WalkListsGroup(stream: seq<byte>, dataType: nat, groups: seq<Group>, entries: seq<Entry>, plan: seq<Chunk>, i: nat)
    requires IndexHeld(stream, dataType, groups, entries, plan) && InOrder(dataType, groups)
    requires plan != [] && i < plan[0].count && i < |groups|
    requires |groups[i].values| <= NUM_DUPLICATE_VALUES
    ensures Lists(stream, groups[i].key, groups[i].values)
  {
    hide IndexHeld, InOrder, Walk, PositionAfter;
    var key, values := groups[i].key, groups[i].values;
    forall k | 0 <= k <= |values| ensures k < |values| ==> Call(stream, key, k) == Some(values[k])
      ensures k == |values| ==> Call(stream, key, k) == None
    {
      PositionsCount(stream, dataType, groups, entries, plan, i, k);
      WalkGroup(stream, dataType, groups, entries, plan, i, k);
    }
  }

  // ----- a built index

  /** A built index that one run addresses. */
  ghost predicate Built(dataType: nat, pairs: seq<Entry>)
  {
    && Indexable(dataType, pairs) && IndexBuildable(IndexGroups(dataType, pairs))
    && |IndexBytes(dataType, pairs)| <= MAX_STREAM
  }

  /** How many keys the first leaf holds. */
  function FirstLeafCount(dataType: nat, pairs: seq<Entry>): nat
  {
    Plan(GroupKeys(IndexGroups(dataType, pairs)))[0].count
  }

  /** What the lemmas above need of a built index. */
  lemma BuiltIsHeld(dataType: nat, pairs: seq<Entry>)
    requires Built(dataType, pairs)
    ensures var groups := IndexGroups(dataType, pairs);
            && IndexHeld(IndexBytes(dataType, pairs), dataType, groups, IndexLinked(groups).entries, Plan(GroupKeys(groups)))
            && InOrder(dataType, groups)
  {
    hide IndexBytes, IndexHeld, Plan, IndexLinked;
    IndexIsHeld(dataType, pairs);
    IndexAscends(dataType, pairs);
  }

  /** `index_walk` finds an indexed key exactly when the first leaf holds it: a key of a later
      leaf, which the chain reaches, is reported absent. */
  lemma WalkFindsIff(dataType: nat, pairs: seq<Entry>, i: nat)
    requires Built(dataType, pairs) && i < |IndexGroups(dataType, pairs)|
    ensures Walk(IndexBytes(dataType, pairs), IndexGroups(dataType, pairs)[i].key, 0).value.Some? <==>
            i < FirstLeafCount(dataType, pairs)
  {
    hide IndexBytes, IndexHeld, Plan, IndexLinked, Walk, Below;
    BuiltIsHeld(dataType, pairs);
    var stream, groups := IndexBytes(dataType, pairs), IndexGroups(dataType, pairs);
    var entries, plan := IndexLinked(groups).entries, Plan(GroupKeys(groups));
    if i < plan[0].count {
      WalkGroup(stream, dataType, groups, entries, plan, i, 0);
    } else {
      forall j | 0 <= j < plan[0].count && j < |groups| ensures groups[j].key != groups[i].key {
        assert Below(dataType, groups[j].key, groups[i].key);
        Irreflexive(dataType, groups[j].key);
      }
      WalkNothing(stream, dataType, groups, entries, plan, groups[i].key, 0);
    }
  }

  /** A key no pair carries is found by no call. */
  lemma WalkFindsNoStranger(dataType: nat, pairs: seq<Entry>, key: Key, p: nat)
    requires Built(dataType, pairs) && ValidKey(dataType, key)
    requires forall i | 0 <= i < |IndexGroups(dataType, pairs)| :: IndexGroups(dataType, pairs)[i].key != key
    ensures Walk(IndexBytes(dataType, pairs), key, p) == Step(None, p)
  {
    hide IndexBytes, IndexHeld, Plan, IndexLinked, Walk, Below;
    BuiltIsHeld(dataType, pairs);
    var groups := IndexGroups(dataType, pairs);
    WalkNothing(IndexBytes(dataType, pairs), dataType, groups, IndexLinked(groups).entries,
                Plan(GroupKeys(groups)), key, p);
  }

  /** Walking a key of the first leaf stops exactly when one duplicate node holds its values,
      and then it has listed them all; otherwise it repeats the first 126 for ever. */
  lemma WalkStopsIff(dataType: nat, pairs: seq<Entry>, i: nat)
    requires Built(dataType, pairs) && i < |IndexGroups(dataType, pairs)| && i < FirstLeafCount(dataType, pairs)
    ensures var stream, g := IndexBytes(dataType, pairs), IndexGroups(dataType, pairs)[i];
            && (Stops(stream, g.key) <==> |g.values| <= NUM_DUPLICATE_VALUES)
            && (|g.values| <= NUM_DUPLICATE_VALUES ==> Lists(stream, g.key, g.values))
            && (|g.values| > NUM_DUPLICATE_VALUES ==>
                  forall k: nat :: Call(stream, g.key, k).Some? && Call(stream, g.key, k).value in g.values[..126])
  {
    hide IndexBytes, IndexHeld, Plan, IndexLinked, InOrder, Walk, PositionAfter, Call;
    BuiltIsHeld(dataType, pairs);
    var stream, groups := IndexBytes(dataType, pairs), IndexGroups(dataType, pairs);
    var entries, plan, g := IndexLinked(groups).entries, Plan(GroupKeys(groups)), groups[i];
    if |g.values| <= NUM_DUPLICATE_VALUES {
      WalkListsGroup(stream, dataType, groups, entries, plan, i);
      assert Call(stream, g.key, |g.values|) == None;
    } else {
      forall k: nat ensures Call(stream, g.key, k).Some? && Call(stream, g.key, k).value in g.values[..126] {
        PositionsStayLow(stream, dataType, groups, entries, plan, i, k);
      }
    }
  }
}
