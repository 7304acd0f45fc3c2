/** Which entries each node of one tree level holds: `_align8`, `_fits`, `_plan`, and the
    separate planner inside `_typed_tree`. */
module NodePlan {
  import opened Bytes
  import opened Keys

  /** The B+tree node size, its fixed part, and the entries that part leaves room for. */
  const NODE: nat := 4096
  const FIXED: nat := 28
  const MAX_ENTRIES: nat := (NODE - FIXED) / (2 + 8)

  function Align8(value: nat): (r: nat)
    ensures value <= r < value + 8
  {
    (value + 7) / 8 * 8
  }

  lemma Align8Monotone(a: nat, b: nat)
    requires a <= b
    ensures Align8(a) <= Align8(b)
  {
    assert (a + 7) / 8 <= (b + 7) / 8;
  }

  predicate Fits(count: nat, keyBytes: nat)
  {
    count <= MAX_ENTRIES && Align8(FIXED + keyBytes) + count * (2 + 8) <= NODE
  }

  /** What a node takes: 28 bytes, the keys filled up to a multiple of eight, and ten bytes an entry,
      in 4096. */
  lemma FitsIs(count: nat, keyBytes: nat, fill: nat)
    requires fill < 8 && (28 + keyBytes + fill) % 8 == 0
    ensures Fits(count, keyBytes) <==> 28 + keyBytes + fill + 10 * count <= 4096
  {
    assert Align8(FIXED + keyBytes) == 28 + keyBytes + fill;
  }

  datatype Chunk = Chunk(first: nat, count: nat, keyBytes: nat)

  /** The bytes a run of keys packs into. */
  function KeyBytes(keys: seq<Key>): nat
  {
    if keys == [] then 0 else |keys[0]| + KeyBytes(keys[1..])
  }

  lemma {:induction false} KeyBytesConcat(a: seq<Key>, b: seq<Key>)
    ensures KeyBytes(a + b) == KeyBytes(a) + KeyBytes(b)
  {
    if a == [] {
      assert a + b == b;
    } else {
      assert (a + b)[1..] == a[1..] + b;
      KeyBytesConcat(a[1..], b);
    }
  }

  lemma KeyBytesExtend(keys: seq<Key>, first: nat, last: nat)
    requires first <= last < |keys|
    ensures KeyBytes(keys[first..last + 1]) == KeyBytes(keys[first..last]) + |keys[last]|
  {
    assert keys[first..last + 1] == keys[first..last] + [keys[last]];
    KeyBytesConcat(keys[first..last], [keys[last]]);
    assert KeyBytes([keys[last]]) == |keys[last]|;
  }

  lemma KeyBytesPrefix(keys: seq<Key>, i: nat)
    requires i < |keys|
    ensures KeyBytes(keys[..i + 1]) == KeyBytes(keys[..i]) + |keys[i]| <= KeyBytes(keys)
  {
    assert keys[..i + 1] == keys[..i] + [keys[i]];
    KeyBytesConcat(keys[..i], [keys[i]]);
    assert KeyBytes([keys[i]]) == |keys[i]|;
    assert keys == keys[..i + 1] + keys[i + 1..];
    KeyBytesConcat(keys[..i + 1], keys[i + 1..]);
  }

  lemma KeyBytesSplit(keys: seq<Key>, first: nat, middle: nat, last: nat)
    requires first <= middle <= last <= |keys|
    ensures KeyBytes(keys[first..last]) == KeyBytes(keys[first..middle]) + KeyBytes(keys[middle..last])
  {
    assert keys[first..last] == keys[first..middle] + keys[middle..last];
    KeyBytesConcat(keys[first..middle], keys[middle..last]);
  }

  /** The greedy plan: fill one node, then begin the next. */
  function PlanFrom(keys: seq<Key>, first: nat, index: nat, keyBytes: nat): (plan: seq<Chunk>)
    requires first <= index <= |keys|
    ensures plan != []
    decreases |keys| - index
  {
    if index == |keys| then [Chunk(first, |keys| - first, keyBytes)]
    else if index > first && !Fits(index - first + 1, keyBytes + |keys[index]|) then
      [Chunk(first, index - first, keyBytes)] + PlanFrom(keys, index, index + 1, |keys[index]|)
    else
      PlanFrom(keys, first, index + 1, keyBytes + |keys[index]|)
  }

  function Plan(keys: seq<Key>): (plan: seq<Chunk>)
    ensures plan != []
  {
    PlanFrom(keys, 0, 0, 0)
  }

  /** `_plan`. */
  method MakePlan(keys: seq<Key>) returns (plan: seq<Chunk>)
    ensures plan == Plan(keys)
  {
    plan := [];
    var first, keyBytes: nat := 0, 0;
    for index := 0 to |keys|
      invariant first <= index
      invariant plan + PlanFrom(keys, first, index, keyBytes) == Plan(keys)
    {
      if index > first && !Fits(index - first + 1, keyBytes + |keys[index]|) {
        plan := plan + [Chunk(first, index - first, keyBytes)];
        first := index;
        keyBytes := 0;
      }
      keyBytes := keyBytes + |keys[index]|;
    }
    plan := plan + [Chunk(first, |keys| - first, keyBytes)];
  }

  /** `_typed_tree`'s own planner, whose test has no entry limit: it plans the same nodes. */
  method MakeTypedPlan(keys: seq<Key>) returns (plan: seq<Chunk>)
    ensures plan == Plan(keys)
  {
    plan := [];
    var first, keyBytes: nat := 0, 0;
    for index := 0 to |keys|
      invariant first <= index
      invariant plan + PlanFrom(keys, first, index, keyBytes) == Plan(keys)
    {
      if !(Align8(FIXED + keyBytes + |keys[index]|) + (index - first + 1) * (2 + 8) <= NODE) && index > first {
        plan := plan + [Chunk(first, index - first, keyBytes)];
        first := index;
        keyBytes := 0;
      }
      keyBytes := keyBytes + |keys[index]|;
    }
    plan := plan + [Chunk(first, |keys| - first, keyBytes)];
  }

  // ----- what a plan is

  /** Consecutive non-empty chunks from `first` to the end of the keys, each holding as many
      as fit (a chunk of one may not fit: its key is longer than a node). */
  ghost predicate Greedy(keys: seq<Key>, plan: seq<Chunk>, first: nat)
  {
    && plan != [] && plan[0].first == first
    && (forall i | 0 <= i < |plan| :: InRange(keys, plan[i]) && plan[i].count >= 1)
    && (forall i | 0 <= i < |plan| :: plan[i].count >= 2 ==> Fits(plan[i].count, plan[i].keyBytes))
    && (forall i | 0 <= i < |plan| - 1 :: Full(keys, plan[i]))
    && (forall i, j | 0 <= i < |plan| && j == i + 1 < |plan| :: plan[j].first == plan[i].first + plan[i].count)
    && End(plan[|plan| - 1]) == |keys|
  }

  function End(c: Chunk): nat { c.first + c.count }

  ghost predicate InRange(keys: seq<Key>, c: Chunk)
  {
    End(c) <= |keys| && c.keyBytes == KeyBytes(keys[c.first..End(c)])
  }

  /** The next key would not fit beside these. */
  ghost predicate Full(keys: seq<Key>, c: Chunk)
  {
    End(c) < |keys| && !Fits(c.count + 1, c.keyBytes + |keys[End(c)]|)
  }

  lemma GreedyCons(keys: seq<Key>, c: Chunk, rest: seq<Chunk>)
    requires c.count >= 1 && InRange(keys, c) && Full(keys, c)
    requires c.count >= 2 ==> Fits(c.count, c.keyBytes)
    requires Greedy(keys, rest, End(c))
    ensures Greedy(keys, [c] + rest, c.first)
  {
    var plan := [c] + rest;
    forall i | 0 <= i < |plan| ensures InRange(keys, plan[i]) && plan[i].count >= 1 {
      assert i > 0 ==> plan[i] == rest[i - 1];
    }
    forall i | 0 <= i < |plan| - 1 ensures Full(keys, plan[i]) {
      assert i > 0 ==> plan[i] == rest[i - 1];
    }
    forall i, j | 0 <= i < |plan| && j == i + 1 < |plan| ensures plan[j].first == plan[i].first + plan[i].count {
      assert plan[j] == rest[j - 1] && (i > 0 ==> plan[i] == rest[i - 1]);
    }
  }

  lemma GreedyLast(keys: seq<Key>, c: Chunk)
    requires c.count >= 1 && InRange(keys, c) && End(c) == |keys| && (c.count >= 2 ==> Fits(c.count, c.keyBytes))
    ensures Greedy(keys, [c], c.first)
  {
    hide Fits;
  }

  lemma OneKeyBytes(keys: seq<Key>, index: nat)
    requires index < |keys|
    ensures KeyBytes(keys[index..index + 1]) == |keys[index]|
  {
    assert keys[index..index] == [];
    KeyBytesExtend(keys, index, index);
  }

  lemma {:induction false} PlanFromGreedy(keys: seq<Key>, first: nat, index: nat, keyBytes: nat)
    requires first < index <= |keys| && keyBytes == KeyBytes(keys[first..index])
    requires index - first >= 2 ==> Fits(index - first, keyBytes)
    ensures Greedy(keys, PlanFrom(keys, first, index, keyBytes), first)
    decreases |keys| - index
  {
    hide Greedy, Fits, KeyBytes;
    if index == |keys| {
      GreedyLast(keys, Chunk(first, index - first, keyBytes));
    } else {
      KeyBytesExtend(keys, first, index);
      OneKeyBytes(keys, index);
      if !Fits(index - first + 1, keyBytes + |keys[index]|) {
        PlanFromGreedy(keys, index, index + 1, |keys[index]|);
        GreedyCons(keys, Chunk(first, index - first, keyBytes), PlanFrom(keys, index, index + 1, |keys[index]|));
      } else {
        PlanFromGreedy(keys, first, index + 1, keyBytes + |keys[index]|);
      }
    }
  }

  /** `_plan` partitions the keys in order into full, fitting nodes. */
  lemma PlanGreedy(keys: seq<Key>)
    requires keys != []
    ensures Greedy(keys, Plan(keys), 0)
  {
    assert keys[0..0] == [];
    KeyBytesExtend(keys, 0, 0);
    PlanFromGreedy(keys, 0, 1, |keys[0]|);
  }

  /** Consecutive non-empty chunks from the first of `n` items to the last. */
  ghost predicate Tiles(plan: seq<Chunk>, n: nat)
  {
    && plan != [] && plan[0].first == 0 && End(plan[|plan| - 1]) == n
    && (forall i | 0 <= i < |plan| :: plan[i].count >= 1 && plan[i].first + plan[i].count <= n)
    && (forall i, j | 0 <= i < |plan| && j == i + 1 < |plan| :: plan[j].first == plan[i].first + plan[i].count)
  }

  lemma PlanTiles(keys: seq<Key>)
    requires keys != []
    ensures Tiles(Plan(keys), |keys|)
  {
    PlanGreedy(keys);
    forall i | 0 <= i < |Plan(keys)| ensures End(Plan(keys)[i]) <= |keys| {
      assert InRange(keys, Plan(keys)[i]);
    }
  }

  /** The items each chunk holds. */
  ghost function Slices<T>(s: seq<T>, plan: seq<Chunk>): (ss: seq<seq<T>>)
    requires forall i | 0 <= i < |plan| :: plan[i].first + plan[i].count <= |s|
    ensures |ss| == |plan| && forall i | 0 <= i < |ss| :: ss[i] == s[plan[i].first..End(plan[i])]
  {
    seq(|plan|, i requires 0 <= i < |plan| => s[plan[i].first..End(plan[i])])
  }

  lemma {:induction false} SlicesFrom<T>(s: seq<T>, plan: seq<Chunk>, i: nat)
    requires Tiles(plan, |s|) && i < |plan|
    ensures Concat(Slices(s, plan)[i..]) == s[plan[i].first..]
    decreases |plan| - i
  {
    var ss := Slices(s, plan);
    assert ss[i..][1..] == ss[i + 1..];
    if i + 1 < |plan| {
      SlicesFrom(s, plan, i + 1);
      assert plan[i + 1].first == End(plan[i]);
    }
  }

  /** Chunks that tile a list hold exactly the list, in order. */
  lemma SlicesConcat<T>(s: seq<T>, plan: seq<Chunk>)
    requires Tiles(plan, |s|)
    ensures Concat(Slices(s, plan)) == s
  {
    SlicesFrom(s, plan, 0);
    assert Slices(s, plan)[0..] == Slices(s, plan) && s[0..] == s;
  }

  // ----- the fewest nodes

  /** An in-order partition of the keys, by its cut points, into nodes that fit. */
  ghost predicate FittingCuts(keys: seq<Key>, cuts: seq<nat>)
  {
    && |cuts| >= 1 && cuts[0] == 0 && cuts[|cuts| - 1] == |keys|
    && (forall i, j | 0 <= i <= j < |cuts| :: cuts[i] <= cuts[j] <= |keys|)
    && (forall i, j | 0 <= i < |cuts| && j == i + 1 < |cuts| ::
          Fits(cuts[j] - cuts[i], KeyBytes(keys[cuts[i]..cuts[j]])))
  }

  lemma FitsMonotone(count: nat, keyBytes: nat, count': nat, keyBytes': nat)
    requires count <= count' && keyBytes <= keyBytes' && Fits(count', keyBytes')
    ensures Fits(count, keyBytes)
  {
    Align8Monotone(FIXED + keyBytes, FIXED + keyBytes');
  }

  /** A range that holds a full chunk and the key after it does not fit. */
  lemma Overfull(keys: seq<Key>, c: Chunk, first: nat, last: nat)
    requires InRange(keys, c) && Full(keys, c) && first <= c.first && End(c) < last <= |keys|
    ensures !Fits(last - first, KeyBytes(keys[first..last]))
  {
    hide Fits, KeyBytes;
    KeyBytesExtend(keys, c.first, End(c));
    KeyBytesSplit(keys, first, c.first, last);
    KeyBytesSplit(keys, c.first, End(c) + 1, last);
    if Fits(last - first, KeyBytes(keys[first..last])) {
      FitsMonotone(c.count + 1, c.keyBytes + |keys[End(c)]|, last - first, KeyBytes(keys[first..last]));
    }
  }

  lemma {:induction false} GreedyStaysAhead(keys: seq<Key>, plan: seq<Chunk>, cuts: seq<nat>, i: nat)
    requires Greedy(keys, plan, 0) && FittingCuts(keys, cuts)
    requires i < |plan| && i < |cuts|
    ensures plan[i].first >= cuts[i]
  {
    if i > 0 {
      GreedyStaysAhead(keys, plan, cuts, i - 1);
      var c := plan[i - 1];
      assert InRange(keys, c) && Full(keys, c) && plan[i].first == End(c);
      if cuts[i] > End(c) {
        Overfull(keys, c, cuts[i - 1], cuts[i]);
      }
    }
  }

  /** No in-order partition into nodes that fit has fewer nodes than the plan. */
  lemma PlanIsMinimal(keys: seq<Key>, cuts: seq<nat>)
    requires keys != [] && FittingCuts(keys, cuts)
    ensures |Plan(keys)| <= |cuts| - 1
  {
    PlanGreedy(keys);
    var plan := Plan(keys);
    if |plan| > |cuts| - 1 {
      assert InRange(keys, plan[|cuts| - 1]);
      GreedyStaysAhead(keys, plan, cuts, |cuts| - 1);
    }
  }

  /** Keys that fit one node make a single leaf. */
  lemma OneLeaf(keys: seq<Key>)
    requires keys != [] && Fits(|keys|, KeyBytes(keys))
    ensures Plan(keys) == [Chunk(0, |keys|, KeyBytes(keys))]
  {
    hide PlanFrom;
    assert keys[0..|keys|] == keys;
    PlanIsMinimal(keys, [0, |keys|]);
    PlanGreedy(keys);
    assert InRange(keys, Plan(keys)[0]);
  }

  // ----- shrinking, which the level loop's termination rests on

  ghost predicate SomeAdjacentPairFits(keys: seq<Key>)
  {
    exists i :: 0 <= i < |keys| - 1 && Fits(2, |keys[i]| + |keys[i + 1]|)
  }

  lemma {:induction false} FirstsAdvance(keys: seq<Key>, plan: seq<Chunk>, i: nat)
    requires Greedy(keys, plan, 0) && i < |plan|
    ensures plan[i].first >= i
    ensures (forall j | 0 <= j < i :: plan[j].count == 1) ==> plan[i].first == i
    ensures (exists j | 0 <= j < i :: plan[j].count >= 2) ==> plan[i].first > i
  {
    if i > 0 {
      FirstsAdvance(keys, plan, i - 1);
      assert plan[i].first == End(plan[i - 1]) && plan[i - 1].count >= 1;
    }
  }

  lemma KeyBytesTwo(keys: seq<Key>, i: nat)
    requires i + 1 < |keys|
    ensures KeyBytes(keys[i..i + 2]) == |keys[i]| + |keys[i + 1]|
  {
    assert keys[i..i + 2] == [keys[i], keys[i + 1]];
    assert [keys[i], keys[i + 1]][1..] == [keys[i + 1]];
    assert KeyBytes([keys[i + 1]]) == |keys[i + 1]|;
  }

  lemma ChunkOfTwo(keys: seq<Key>, c: Chunk)
    requires InRange(keys, c) && c.count >= 2 && Fits(c.count, c.keyBytes)
    ensures SomeAdjacentPairFits(keys)
  {
    KeyBytesTwo(keys, c.first);
    KeyBytesSplit(keys, c.first, c.first + 2, End(c));
    FitsMonotone(2, |keys[c.first]| + |keys[c.first + 1]|, c.count, c.keyBytes);
  }

  lemma FullSingle(keys: seq<Key>, c: Chunk)
    requires InRange(keys, c) && c.count == 1 && Full(keys, c)
    ensures !Fits(2, |keys[c.first]| + |keys[c.first + 1]|)
  {
    assert keys[c.first..c.first + 1] == [keys[c.first]];
    assert KeyBytes([keys[c.first]]) == |keys[c.first]|;
  }

  /** A level shrinks exactly when some two neighbouring keys fit one node; otherwise the
      level loop makes the same number of nodes for ever. */
  lemma PlanShrinksIff(keys: seq<Key>)
    requires keys != []
    ensures |Plan(keys)| <= |keys|
    ensures |Plan(keys)| < |keys| <==> SomeAdjacentPairFits(keys)
  {
    hide PlanFrom, Fits, KeyBytes;
    PlanGreedy(keys);
    var plan := Plan(keys);
    var n := |plan|;
    FirstsAdvance(keys, plan, n - 1);
    assert InRange(keys, plan[n - 1]);
    if j :| 0 <= j < n && plan[j].count >= 2 {
      ChunkOfTwo(keys, plan[j]);
    } else {
      forall i | 0 <= i < |keys| - 1 ensures !Fits(2, |keys[i]| + |keys[i + 1]|) {
        FirstsAdvance(keys, plan, i);
        FullSingle(keys, plan[i]);
      }
    }
  }

  ghost predicate NamesFit(keys: seq<Key>)
  {
    forall i | 0 <= i < |keys| :: |keys[i]| <= MAX_NAME
  }

  lemma {:induction false} FirstsDouble(keys: seq<Key>, plan: seq<Chunk>, i: nat)
    requires Greedy(keys, plan, 0) && NamesFit(keys) && i < |plan|
    ensures plan[i].first >= 2 * i
  {
    if i > 0 {
      FirstsDouble(keys, plan, i - 1);
      var c := plan[i - 1];
      assert plan[i].first == End(c) && Full(keys, c) && InRange(keys, c);
      if c.count == 1 {
        FullSingle(keys, c);
      }
    }
  }

  /** With names the format allows, each level is at most half the one below, rounded up. */
  lemma PlanHalves(keys: seq<Key>)
    requires keys != [] && NamesFit(keys)
    ensures |Plan(keys)| <= (|keys| + 1) / 2
    ensures |keys| > 1 ==> |Plan(keys)| < |keys|
  {
    PlanGreedy(keys);
    var plan := Plan(keys);
    FirstsDouble(keys, plan, |plan| - 1);
    assert InRange(keys, plan[|plan| - 1]);
  }

  /** With names the format allows every chunk fits its node, a chunk of one included. */
  lemma PlanFits(keys: seq<Key>, i: nat)
    requires keys != [] && NamesFit(keys) && i < |Plan(keys)|
    ensures Fits(Plan(keys)[i].count, Plan(keys)[i].keyBytes)
  {
    PlanGreedy(keys);
    var c := Plan(keys)[i];
    assert InRange(keys, c);
    if c.count == 1 {
      assert keys[c.first..c.first + 1] == [keys[c.first]];
      assert KeyBytes([keys[c.first]]) == |keys[c.first]|;
    }
  }
}
