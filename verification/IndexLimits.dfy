/** Where the guest's `index_walk` falls short of the indices this builder writes: the
    last_modified index, which puts every file under one key, and long names. */
module IndexLimits {
  import opened Bytes
  import opened Keys
  import opened NodePlan
  import opened DirectoryStream
  import opened IndexTree
  import opened IndexReader
  import opened IndexLookup
  import opened IndexWalking
  import opened Layout

  lemma {:induction false} TimesShareKey(ls: seq<Loc>)
    ensures forall i | 0 <= i < |TimesOf(ls)| :: TimesOf(ls)[i].key == Int64(FIXTURE_TIME)
    decreases ls
  {
    hide Int64;
    if ls != [] {
      TimesShareKey(ls[1..]);
      if ls[0].DirLoc? {
        TimesShareKey(ls[0].children);
      }
    }
  }

  /** Pairs under one key make one group. */
  lemma OneKeyOneGroup(dataType: nat, pairs: seq<Entry>, key: Key)
    requires pairs != [] && ValidKeys(dataType, pairs) && forall i | 0 <= i < |pairs| :: pairs[i].key == key
    ensures var groups := IndexGroups(dataType, pairs);
            |groups| == 1 && groups[0].key == key && |groups[0].values| == |pairs|
  {
    hide IndexGroups, Below;
    var groups := IndexGroups(dataType, pairs);
    IndexConserves(dataType, pairs);
    IndexAscends(dataType, pairs);
    InMultiset(Expand(groups), pairs);
    assert |Expand(groups)| == |multiset(Expand(groups))| == |multiset(pairs)| == |pairs|;
    GroupsFilled(dataType, pairs);
    forall i | 0 <= i < |groups| ensures groups[i].key == key {
      InExpand(groups, i, 0);
      assert Entry(groups[i].key, groups[i].values[0]) in pairs;
    }
    ExpandNone();
    if |groups| > 1 {
      assert Below(dataType, groups[0].key, groups[1].key);
      Irreflexive(dataType, key);
    }
    assert groups == [groups[0]];
    ExpandOne(groups[0]);
  }

  lemma GroupsFilled(dataType: nat, pairs: seq<Entry>)
    ensures forall i | 0 <= i < |IndexGroups(dataType, pairs)| :: IndexGroups(dataType, pairs)[i].values != []
  {
    GroupsNonEmpty(Sort(dataType, pairs));
  }

  lemma OneGroupPlan(keys: seq<Key>)
    requires |keys| == 1
    ensures Plan(keys)[0].count == 1
  {
    PlanTiles(keys);
  }

  /** Listing a volume's files by their time ends exactly when it has at most 125 of them. */
  lemma TimesWalkStopsIff(ls: seq<Loc>)
    requires Built(INT64_TYPE, TimesOf(ls)) && TimesOf(ls) != []
    ensures Stops(IndexBytes(INT64_TYPE, TimesOf(ls)), Int64(FIXTURE_TIME)) <==> |TimesOf(ls)| <= NUM_DUPLICATE_VALUES
  {
    hide IndexBytes, IndexGroups, Int64, Stops, Lists, Call, Plan, TimesOf, IndexBuildable;
    var pairs := TimesOf(ls);
    TimesShareKey(ls);
    OneKeyOneGroup(INT64_TYPE, pairs, Int64(FIXTURE_TIME));
    OneGroupPlan(GroupKeys(IndexGroups(INT64_TYPE, pairs)));
    WalkStopsIff(INT64_TYPE, pairs, 0);
  }

  // ----- names of full length

  lemma {:induction false} LongKeyBytes(keys: seq<Key>)
    requires forall i | 0 <= i < |keys| :: |keys[i]| == MAX_NAME
    ensures KeyBytes(keys) == MAX_NAME * |keys|
  {
    if keys != [] {
      LongKeyBytes(keys[1..]);
    }
  }

  /** At most fifteen names of full length fit the first leaf. */
  lemma LongFirstLeaf(keys: seq<Key>)
    requires keys != [] && forall i | 0 <= i < |keys| :: |keys[i]| == MAX_NAME
    ensures Plan(keys)[0].count <= 15
  {
    hide PlanFrom;
    PlanTiles(keys);
    PlanAllFit(keys);
    var c := Plan(keys)[0];
    assert InRange(keys, c) && Fits(c.count, c.keyBytes);
    LongKeyBytes(keys[c.first..End(c)]);
  }

  /** So the sixteenth and later of such names are in the index, and `index_walk` does not
      find them. */
  lemma LongNamesMissed(pairs: seq<Entry>, i: nat)
    requires Built(STRING_TYPE, pairs) && DistinctKeys(pairs) && (forall i | 0 <= i < |pairs| :: |pairs[i].key| == MAX_NAME)
    requires 15 <= i < |IndexGroups(STRING_TYPE, pairs)|
    ensures var g := IndexGroups(STRING_TYPE, pairs)[i];
            && Walk(IndexBytes(STRING_TYPE, pairs), g.key, 0).value == None
            && exists e :: e in pairs && e.key == g.key && e in IndexPairs(IndexBytes(STRING_TYPE, pairs))
  {
    hide IndexBytes, IndexGroups, Plan, Walk, IndexPairs, IndexBuildable;
    var groups := IndexGroups(STRING_TYPE, pairs);
    IndexRoundTrip(STRING_TYPE, pairs);
    InMultiset(Expand(groups), pairs);
    GroupsFilled(STRING_TYPE, pairs);
    forall j | 0 <= j < |groups| ensures |groups[j].key| == MAX_NAME {
      InExpand(groups, j, 0);
      assert Entry(groups[j].key, groups[j].values[0]) in pairs;
    }
    LongFirstLeaf(GroupKeys(groups));
    WalkFindsIff(STRING_TYPE, pairs, i);
    InExpand(groups, i, 0);
    assert Entry(groups[i].key, groups[i].values[0]) in pairs;
  }
}
