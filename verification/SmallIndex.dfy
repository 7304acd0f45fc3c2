/** An index of distinct keys that fit one leaf is, byte for byte, the directory tree of its
    sorted pairs: what lets `dir_find` read the indices directory. */
module SmallIndex {
  import opened Keys
  import opened NodePlan
  import opened NodeCodec
  import opened DirectoryTree
  import opened DirectoryStream
  import opened IndexTree

  function Singles(entries: seq<Entry>): (gs: seq<Group>)
    ensures |gs| == |entries| && forall i | 0 <= i < |gs| :: gs[i] == Group(entries[i].key, [entries[i].value])
  {
    seq(|entries|, i requires 0 <= i < |entries| => Group(entries[i].key, [entries[i].value]))
  }

  lemma {:induction false} DistinctGroups(ordered: seq<Entry>)
    requires DistinctKeys(ordered)
    ensures Groups(ordered) == Singles(ordered)
  {
    if ordered != [] {
      var n := |ordered| - 1;
      DistinctGroups(ordered[..n]);
      assert n > 0 ==> ordered[n - 1].key != ordered[n].key;
      assert Singles(ordered) == Singles(ordered[..n]) + [Group(ordered[n].key, [ordered[n].value])];
    }
  }

  lemma SortSingles(entries: seq<Entry>)
    ensures SortGroups(Singles(entries)) == Singles(entries)
  {
    forall v: nat ensures SortValues([v]) == [v] {
      assert SortValues([v]) == InsertValue(v, SortValues([v][..0]));
      assert SortValues([]) == [];
    }
  }

  lemma {:induction false} LinkSingles(entries: seq<Entry>, offset: nat)
    ensures Link(Singles(entries), offset) == Linked(entries, [])
  {
    if entries != [] {
      assert Singles(entries)[1..] == Singles(entries[1..]);
      LinkSingles(entries[1..], offset);
      assert entries == [entries[0]] + entries[1..];
    }
  }

  lemma {:induction false} KeyBytesBound(keys: seq<Key>)
    requires NamesFit(keys)
    ensures KeyBytes(keys) <= MAX_NAME * |keys|
  {
    if keys != [] {
      KeyBytesBound(keys[1..]);
    }
  }

  /** Fifteen of the longest keys fit one leaf. */
  lemma FewKeysOneLeaf(keys: seq<Key>)
    requires 0 < |keys| <= 15 && NamesFit(keys)
    ensures |Plan(keys)| == 1
  {
    hide PlanFrom;
    KeyBytesBound(keys);
    assert Align8(FIXED + KeyBytes(keys)) <= FIXED + MAX_NAME * 15 + 7;
    OneLeaf(keys);
  }

  lemma SinglesNodes(ordered: seq<Entry>)
    requires Buildable(ordered) && IndexBuildable(Singles(ordered)) && AllFit(Leaves(ordered))
    ensures IndexNodes(Singles(ordered)) == Images(Leaves(ordered))
  {
    hide Plan, NodeBytes, Fits, Link, NodeFits;
    var groups := Singles(ordered);
    assert GroupKeys(groups) == KeysOf(ordered);
    LinkSingles(ordered, NODE * (1 + |Plan(GroupKeys(groups))|));
    assert IndexLeaves(groups) == Leaves(ordered);
  }

  lemma SingleGroups(pairs: seq<Entry>)
    requires DistinctKeys(pairs)
    ensures IndexGroups(STRING_TYPE, pairs) == Singles(Sort(STRING_TYPE, pairs))
  {
    DistinctAfterSort(STRING_TYPE, pairs);
    DistinctGroups(Sort(STRING_TYPE, pairs));
    SortSingles(Sort(STRING_TYPE, pairs));
  }

  lemma SmallIndexIsTree(pairs: seq<Entry>)
    requires pairs != [] && DistinctKeys(pairs) && (forall i | 0 <= i < |pairs| :: |pairs[i].key| <= MAX_NAME)
    requires |Plan(KeysOf(Sort(STRING_TYPE, pairs)))| == 1
    ensures Buildable(Sort(STRING_TYPE, pairs)) && IndexBuildable(IndexGroups(STRING_TYPE, pairs))
    ensures IndexBytes(STRING_TYPE, pairs) == TreeBytes(Sort(STRING_TYPE, pairs))
  {
    hide Plan, TreeStream, NodeBytes, NodeFits, TreeBytes, Sort, IndexGroups, IndexNodes, Leaves;
    var ordered := Sort(STRING_TYPE, pairs);
    SingleGroups(pairs);
    IndexIsBuildable(STRING_TYPE, pairs);
    assert GroupKeys(Singles(ordered)) == KeysOf(ordered);
    OneLeafTree(ordered);
    SinglesNodes(ordered);
  }
}
