/** One B+tree node as bytes: `_node_bytes`, and the fields the guest reads back. */
module NodeCodec {
  import opened Bytes
  import opened Keys
  import opened NodePlan

  /** A node's three links, its keys and the value under each. */
  datatype Node = Node(left: nat, right: nat, overflow: nat, keys: seq<Key>, values: seq<nat>)

  /** A chunk the planner lets into one node, with 64-bit links and values. */
  ghost predicate Encodable(n: Node)
  {
    && n.left < TWO64 && n.right < TWO64 && n.overflow < TWO64
    && |n.keys| == |n.values| && Fits(|n.keys|, KeyBytes(n.keys))
    && forall i | 0 <= i < |n.values| :: n.values[i] < TWO64
  }

  // ----- the byte image

  /** The keys, packed in order. */
  function Packed(keys: seq<Key>): (s: seq<byte>)
    ensures |s| == KeyBytes(keys)
  {
    if keys == [] then []
    else
      var n := |keys| - 1;
      KeyBytesExtend(keys, 0, n);
      assert keys[0..n + 1] == keys && keys[0..n] == keys[..n];
      Packed(keys[..n]) + keys[n]
  }

  /** The cumulative key lengths. */
  function Lengths(keys: seq<Key>): (s: seq<byte>)
    ensures |s| == 2 * |keys|
  {
    if keys == [] then [] else Lengths(keys[..|keys| - 1]) + Le(2, KeyBytes(keys))
  }

  function Values(values: seq<nat>): (s: seq<byte>)
    ensures |s| == 8 * |values|
  {
    if values == [] then [] else Values(values[..|values| - 1]) + Le(8, values[|values| - 1])
  }

  /** Three links, the entry count and the key bytes. */
  function Header(n: Node): (s: seq<byte>)
    ensures |s| == FIXED
  {
    Le(8, n.left) + Le(8, n.right) + Le(8, n.overflow) + Le(2, |n.keys|) + Le(2, KeyBytes(n.keys))
  }

  /** Header and keys, zero-filled to the length array's boundary. */
  function Front(n: Node): (s: seq<byte>)
    ensures |s| == Align8(FIXED + KeyBytes(n.keys))
  {
    Header(n) + Packed(n.keys) + Zeros(Align8(FIXED + KeyBytes(n.keys)) - FIXED - KeyBytes(n.keys))
  }

  function NodeBytes(n: Node): (s: seq<byte>)
    requires |n.keys| == |n.values| && Fits(|n.keys|, KeyBytes(n.keys))
    ensures |s| == NODE
  {
    var body := Front(n) + Lengths(n.keys) + Values(n.values);
    body + Zeros(NODE - |body|)
  }

  // ----- what the guest reads

  const RIGHT_LINK: nat := 8
  const OVERFLOW_LINK: nat := 16
  const KEY_COUNT: nat := 24
  const ALL_KEY_LENGTH: nat := 26

  function Count(node: seq<byte>): nat
    requires |node| == NODE
  {
    Field(node, KEY_COUNT, 2)
  }

  function LengthsAt(node: seq<byte>): nat
    requires |node| == NODE
  {
    Align8(FIXED + Field(node, ALL_KEY_LENGTH, 2))
  }

  /** `node_info`: the arrays a node's counts describe lie inside it. */
  predicate Readable(node: seq<byte>)
    requires |node| == NODE
  {
    LengthsAt(node) + Count(node) * (2 + 8) <= NODE
  }

  /** Entry `i` of the cumulative array, and zero before the first. */
  function Cumulative(node: seq<byte>, i: int): nat
    requires |node| == NODE && Readable(node) && -1 <= i < Count(node)
  {
    if i < 0 then 0 else Field(node, LengthsAt(node) + 2 * i, 2)
  }

  /** A key's length: the step between its entry and the one before, in 16-bit arithmetic. */
  function KeyLength(node: seq<byte>, i: nat): nat
    requires |node| == NODE && Readable(node) && i < Count(node)
  {
    (Cumulative(node, i) - Cumulative(node, i - 1)) % TWO16
  }

  /** Where key `i` starts: past the fixed part and the lengths before it. */
  function KeyAt(node: seq<byte>, i: nat): nat
    requires |node| == NODE && Readable(node) && i <= Count(node)
  {
    if i == 0 then FIXED else KeyAt(node, i - 1) + KeyLength(node, i - 1)
  }

  function ValueAt(node: seq<byte>, i: nat): nat
    requires |node| == NODE && Readable(node) && i < Count(node)
  {
    Field(node, LengthsAt(node) + 2 * Count(node) + 8 * i, 8)
  }

  // ----- decoding undoes encoding

  lemma {:induction false} PackedAt(keys: seq<Key>, i: nat)
    requires i < |keys|
    ensures KeyBytes(keys[..i]) + |keys[i]| <= KeyBytes(keys)
    ensures Packed(keys)[KeyBytes(keys[..i])..KeyBytes(keys[..i]) + |keys[i]|] == keys[i]
    decreases |keys|
  {
    var n := |keys| - 1;
    KeyBytesExtend(keys, 0, n);
    assert keys[0..n + 1] == keys && keys[0..n] == keys[..n];
    if i < n {
      PackedAt(keys[..n], i);
      assert keys[..n][..i] == keys[..i];
    }
  }

  lemma {:induction false} LengthsEntry(keys: seq<Key>, i: nat)
    requires i < |keys|
    ensures Lengths(keys)[2 * i..2 * i + 2] == Le(2, KeyBytes(keys[..i + 1]))
    decreases |keys|
  {
    var n := |keys| - 1;
    if i < n {
      LengthsEntry(keys[..n], i);
      assert keys[..n][..i + 1] == keys[..i + 1];
      assert Lengths(keys)[2 * i..2 * i + 2] == Lengths(keys[..n])[2 * i..2 * i + 2];
    } else {
      assert keys[..i + 1] == keys;
    }
  }

  lemma {:induction false} ValuesEntry(values: seq<nat>, i: nat)
    requires i < |values|
    ensures Values(values)[8 * i..8 * i + 8] == Le(8, values[i])
    decreases |values|
  {
    var n := |values| - 1;
    if i < n {
      ValuesEntry(values[..n], i);
      assert Values(values)[8 * i..8 * i + 8] == Values(values[..n])[8 * i..8 * i + 8];
    }
  }

  /** `b` is laid out as the node `n`: what holds where. */
  ghost predicate Image(b: seq<byte>, n: Node)
  {
    var kb, c := KeyBytes(n.keys), |n.keys|;
    var at := Align8(FIXED + kb);
    && |b| == NODE && |n.values| == c && at + 10 * c <= NODE
    && b[0..FIXED] == Header(n)
    && b[FIXED..FIXED + kb] == Packed(n.keys)
    && b[at..at + 2 * c] == Lengths(n.keys)
    && b[at + 2 * c..at + 10 * c] == Values(n.values)
  }

  lemma NodeImage(n: Node)
    requires Encodable(n)
    ensures Image(NodeBytes(n), n)
  {
    var b, kb, c := NodeBytes(n), KeyBytes(n.keys), |n.keys|;
    var front := Front(n);
    assert b[..|front|] == front;
    assert front[..FIXED] == Header(n);
    assert front[FIXED..FIXED + kb] == Packed(n.keys);
    assert b[FIXED..FIXED + kb] == b[..|front|][FIXED..FIXED + kb];
    assert b[0..FIXED] == b[..|front|][..FIXED];
  }

  lemma SliceOfSlice<T>(s: seq<T>, a: nat, b: nat, c: nat, d: nat)
    requires a <= b <= |s| && c <= d <= b - a
    ensures s[a..b][c..d] == s[a + c..a + d]
  {
    var t, u := s[a..b][c..d], s[a + c..a + d];
    assert forall i | 0 <= i < d - c :: t[i] == u[i];
  }

  lemma HeaderSlices(n: Node)
    ensures var h := Header(n);
            && h[0..8] == Le(8, n.left) && h[8..16] == Le(8, n.right) && h[16..24] == Le(8, n.overflow)
            && h[24..26] == Le(2, |n.keys|) && h[26..28] == Le(2, KeyBytes(n.keys))
  {
    var a, b, c := Le(8, n.left), Le(8, n.right), Le(8, n.overflow);
    var d, e := Le(2, |n.keys|), Le(2, KeyBytes(n.keys));
    assert Header(n) == a + b + c + d + e;
  }

  lemma HeaderFields(b: seq<byte>, n: Node)
    requires Image(b, n) && Encodable(n)
    ensures Field(b, 0, 8) == n.left && Field(b, RIGHT_LINK, 8) == n.right
    ensures Field(b, OVERFLOW_LINK, 8) == n.overflow
    ensures Count(b) == |n.keys| && Field(b, ALL_KEY_LENGTH, 2) == KeyBytes(n.keys)
    ensures Readable(b)
  {
    hide Le, UnLe, Header, Packed, Lengths, Values, KeyBytes, Pow256;
    Powers();
    HeaderSlices(n);
    SliceOfSlice(b, 0, FIXED, 0, 8);
    FieldIs(b, 0, 8, n.left);
    SliceOfSlice(b, 0, FIXED, 8, 16);
    FieldIs(b, 8, 8, n.right);
    SliceOfSlice(b, 0, FIXED, 16, 24);
    FieldIs(b, 16, 8, n.overflow);
    SliceOfSlice(b, 0, FIXED, 24, 26);
    FieldIs(b, 24, 2, |n.keys|);
    SliceOfSlice(b, 0, FIXED, 26, 28);
    FieldIs(b, 26, 2, KeyBytes(n.keys));
  }

  /** The array positions a laid-out node's header describes. */
  ghost predicate Located(b: seq<byte>, n: Node)
  {
    Image(b, n) && Readable(b) && Count(b) == |n.keys| && LengthsAt(b) == Align8(FIXED + KeyBytes(n.keys))
  }

  lemma CumulativeField(b: seq<byte>, n: Node, i: nat)
    requires Located(b, n) && KeyBytes(n.keys) < TWO16 && i < |n.keys|
    ensures Cumulative(b, i) == KeyBytes(n.keys[..i + 1])
  {
    hide Le, UnLe, Lengths, Packed, Values, KeyBytes, Header;
    var at := LengthsAt(b);
    SliceOfSlice(b, at, at + 2 * |n.keys|, 2 * i, 2 * i + 2);
    LengthsEntry(n.keys, i);
    assert n.keys == n.keys[..i + 1] + n.keys[i + 1..];
    KeyBytesConcat(n.keys[..i + 1], n.keys[i + 1..]);
    Le16(KeyBytes(n.keys[..i + 1]));
  }

  lemma CumulativeBefore(b: seq<byte>, n: Node, i: nat)
    requires Located(b, n) && KeyBytes(n.keys) < TWO16 && i < |n.keys|
    ensures Cumulative(b, i - 1) == KeyBytes(n.keys[..i])
  {
    if i > 0 {
      CumulativeField(b, n, i - 1);
    }
  }

  lemma StepIs(end: nat, start: nat, length: nat)
    requires end == start + length < TWO16
    ensures (end - start) % TWO16 == length
  {
  }

  lemma KeyLengthField(b: seq<byte>, n: Node, i: nat)
    requires Located(b, n) && KeyBytes(n.keys) < TWO16 && i < |n.keys|
    ensures KeyLength(b, i) == |n.keys[i]|
  {
    CumulativeField(b, n, i);
    CumulativeBefore(b, n, i);
    KeyBytesPrefix(n.keys, i);
    StepIs(Cumulative(b, i), Cumulative(b, i - 1), |n.keys[i]|);
  }

  lemma {:induction false} KeyAtField(b: seq<byte>, n: Node, i: nat)
    requires Located(b, n) && KeyBytes(n.keys) < TWO16 && i <= |n.keys|
    ensures KeyAt(b, i) == FIXED + KeyBytes(n.keys[..i])
  {
    if i > 0 {
      KeyAtField(b, n, i - 1);
      KeyLengthField(b, n, i - 1);
      KeyBytesPrefix(n.keys, i - 1);
    }
  }

  lemma KeySlice(b: seq<byte>, n: Node, i: nat)
    requires Image(b, n) && i < |n.keys|
    ensures var at := FIXED + KeyBytes(n.keys[..i]);
            at + |n.keys[i]| <= NODE && b[at..at + |n.keys[i]|] == n.keys[i]
  {
    PackedAt(n.keys, i);
    SliceOfSlice(b, FIXED, FIXED + KeyBytes(n.keys), KeyBytes(n.keys[..i]), KeyBytes(n.keys[..i]) + |n.keys[i]|);
  }

  lemma ReadKey(b: seq<byte>, n: Node, i: nat)
    requires Located(b, n) && KeyBytes(n.keys) < TWO16 && i < |n.keys|
    ensures KeyLength(b, i) == |n.keys[i]| && KeyAt(b, i) + |n.keys[i]| <= NODE
    ensures b[KeyAt(b, i)..KeyAt(b, i) + |n.keys[i]|] == n.keys[i]
  {
    KeyLengthField(b, n, i);
    KeyAtField(b, n, i);
    KeySlice(b, n, i);
  }

  lemma ReadValue(b: seq<byte>, n: Node, i: nat)
    requires Located(b, n) && i < |n.keys| && n.values[i] < TWO64
    ensures ValueAt(b, i) == n.values[i]
  {
    hide Le, UnLe, Lengths, Packed, Values, KeyBytes, Header;
    var at := LengthsAt(b) + 2 * |n.keys|;
    SliceOfSlice(b, at, at + 8 * |n.keys|, 8 * i, 8 * i + 8);
    ValuesEntry(n.values, i);
    Le64(n.values[i]);
  }

  /** Reading an encoded node gives back its links, its count, and every key and value. */
  lemma NodeRoundTrip(n: Node)
    requires Encodable(n)
    ensures var b := NodeBytes(n);
            && Field(b, 0, 8) == n.left && Field(b, RIGHT_LINK, 8) == n.right
            && Field(b, OVERFLOW_LINK, 8) == n.overflow
            && Readable(b) && Count(b) == |n.keys|
    ensures forall i | 0 <= i < |n.keys| :: EntryReads(NodeBytes(n), i, n.keys[i], n.values[i])
    ensures forall i | 0 <= i <= |n.keys| :: KeyAt(NodeBytes(n), i) == FIXED + KeyBytes(n.keys[..i])
  {
    var b := NodeBytes(n);
    NodeImage(n);
    HeaderFields(b, n);
    forall i | 0 <= i < |n.keys| ensures EntryReads(b, i, n.keys[i], n.values[i]) {
      ReadKey(b, n, i);
      ReadValue(b, n, i);
    }
    forall i | 0 <= i <= |n.keys| ensures KeyAt(b, i) == FIXED + KeyBytes(n.keys[..i]) {
      KeyAtField(b, n, i);
    }
  }

  /** Entry `i` of the node reads as `key` and `value`. */
  ghost predicate EntryReads(b: seq<byte>, i: nat, key: Key, value: nat)
  {
    && |b| == NODE && Readable(b) && i < Count(b)
    && KeyLength(b, i) == |key| && KeyAt(b, i) + |key| <= NODE
    && b[KeyAt(b, i)..KeyAt(b, i) + |key|] == key
    && ValueAt(b, i) == value
  }

  // ----- the builder's in-place form

  lemma SpliceAppend(buf: seq<byte>, pre: seq<byte>, n: nat, data: seq<byte>)
    requires buf == pre + Zeros(n) && |data| <= n
    ensures Splice(buf, |pre|, data) == (pre + data) + Zeros(n - |data|)
  {
  }

  /** Append to the written prefix of a zeroed buffer. */
  method PutNext(buf: array<byte>, ghost pre: seq<byte>, at: nat, data: seq<byte>)
    requires |pre| == at && at + |data| <= buf.Length
    requires buf[..] == pre + Zeros(buf.Length - at)
    modifies buf
    ensures buf[..] == (pre + data) + Zeros(buf.Length - at - |data|)
  {
    SpliceAppend(buf[..], pre, buf.Length - at, data);
    Put(buf, at, data);
  }

  function KeysOf(entries: seq<Entry>): (s: seq<Key>)
    ensures |s| == |entries| && forall i | 0 <= i < |s| :: s[i] == entries[i].key
  {
    seq(|entries|, i requires 0 <= i < |entries| => entries[i].key)
  }

  function ValuesOf(entries: seq<Entry>): (s: seq<nat>)
    ensures |s| == |entries| && forall i | 0 <= i < |s| :: s[i] == entries[i].value
  {
    seq(|entries|, i requires 0 <= i < |entries| => entries[i].value)
  }

  /** The node a chunk of entries becomes. */
  function NodeOf(entries: seq<Entry>, left: nat, right: nat, overflow: nat): Node
  {
    Node(left, right, overflow, KeysOf(entries), ValuesOf(entries))
  }

  /** The links, the count and the key bytes. */
  method PutHeader(buf: array<byte>, ghost n: Node, count: nat, keyBytes: nat, left: nat, right: nat, overflow: nat)
    requires buf.Length == NODE && buf[..] == Zeros(NODE)
    requires n.left == left && n.right == right && n.overflow == overflow
    requires |n.keys| == count && KeyBytes(n.keys) == keyBytes
    modifies buf
    ensures buf[..] == Header(n) + Zeros(NODE - FIXED)
  {
    assert buf[..] == [] + Zeros(NODE);
    PutNext(buf, [], 0, Le(8, left));
    assert [] + Le(8, left) == Le(8, left);
    PutNext(buf, Le(8, left), 8, Le(8, right));
    PutNext(buf, Le(8, left) + Le(8, right), 16, Le(8, overflow));
    PutNext(buf, Le(8, left) + Le(8, right) + Le(8, overflow), 24, Le(2, count));
    PutNext(buf, Le(8, left) + Le(8, right) + Le(8, overflow) + Le(2, count), 26, Le(2, keyBytes));
  }

  lemma NoneTo(keys: seq<Key>)
    ensures Packed(keys[..0]) == [] && KeyBytes(keys[..0]) == 0
  {
  }

  lemma PackedNext(keys: seq<Key>, i: nat)
    requires i < |keys|
    ensures Packed(keys[..i + 1]) == Packed(keys[..i]) + keys[i]
  {
    assert keys[..i] == keys[..i + 1][..i];
  }

  /** The keys, packed from `at` on. */
  method PutKeys(buf: array<byte>, ghost pre: seq<byte>, start: nat, keys: seq<Key>)
    requires |pre| == start && start + KeyBytes(keys) <= buf.Length
    requires buf[..] == pre + Zeros(buf.Length - start)
    modifies buf
    ensures buf[..] == pre + Packed(keys) + Zeros(buf.Length - start - KeyBytes(keys))
  {
    hide KeyBytes, Packed;
    var at := start;
    NoneTo(keys);
    assert pre + Packed(keys[..0]) == pre;
    for i := 0 to |keys|
      invariant at == start + KeyBytes(keys[..i]) <= start + KeyBytes(keys)
      invariant buf[..] == pre + Packed(keys[..i]) + Zeros(buf.Length - at)
    {
      KeyBytesPrefix(keys, i);
      PackedNext(keys, i);
      PutNext(buf, pre + Packed(keys[..i]), at, keys[i]);
      assert pre + Packed(keys[..i]) + keys[i] == pre + Packed(keys[..i + 1]);
      at := at + |keys[i]|;
    }
    assert keys[..|keys|] == keys;
  }

  /** The cumulative lengths, from `at` on. */
  method PutLengths(buf: array<byte>, ghost pre: seq<byte>, start: nat, keys: seq<Key>)
    requires |pre| == start && start + 2 * |keys| <= buf.Length
    requires buf[..] == pre + Zeros(buf.Length - start)
    modifies buf
    ensures buf[..] == pre + Lengths(keys) + Zeros(buf.Length - start - 2 * |keys|)
  {
    var at, cumulative := start, 0;
    assert pre + Lengths(keys[..0]) == pre;
    for i := 0 to |keys|
      invariant at == start + 2 * i && cumulative == KeyBytes(keys[..i])
      invariant buf[..] == pre + Lengths(keys[..i]) + Zeros(buf.Length - at)
    {
      KeyBytesPrefix(keys, i);
      assert keys[..i] == keys[..i + 1][..i];
      cumulative := cumulative + |keys[i]|;
      PutNext(buf, pre + Lengths(keys[..i]), at, Le(2, cumulative));
      assert pre + Lengths(keys[..i]) + Le(2, cumulative) == pre + Lengths(keys[..i + 1]);
      at := at + 2;
    }
    assert keys[..|keys|] == keys;
  }

  /** The values, from `at` on. */
  method PutValues(buf: array<byte>, ghost pre: seq<byte>, start: nat, values: seq<nat>)
    requires |pre| == start && start + 8 * |values| <= buf.Length
    requires buf[..] == pre + Zeros(buf.Length - start)
    modifies buf
    ensures buf[..] == pre + Values(values) + Zeros(buf.Length - start - 8 * |values|)
  {
    var at := start;
    assert pre + Values(values[..0]) == pre;
    for i := 0 to |values|
      invariant at == start + 8 * i
      invariant buf[..] == pre + Values(values[..i]) + Zeros(buf.Length - at)
    {
      assert values[..i] == values[..i + 1][..i];
      PutNext(buf, pre + Values(values[..i]), at, Le(8, values[i]));
      assert pre + Values(values[..i]) + Le(8, values[i]) == pre + Values(values[..i + 1]);
      at := at + 8;
    }
    assert values[..|values|] == values;
  }

  /** `_node_bytes`: the node holding `entries[first : first + count]`. */
  method BuildNode(entries: seq<Entry>, first: nat, count: nat, keyBytes: nat,
                   left: nat, right: nat, overflow: nat) returns (node: seq<byte>)
    requires first + count <= |entries|
    requires keyBytes == KeyBytes(KeysOf(entries[first..first + count])) && Fits(count, keyBytes)
    ensures node == NodeBytes(NodeOf(entries[first..first + count], left, right, overflow))
  {
    var chunk := entries[first..first + count];
    ghost var n := NodeOf(chunk, left, right, overflow);
    var buf := new byte[NODE](_ => 0);
    PutHeader(buf, n, count, keyBytes, left, right, overflow);
    PutKeys(buf, Header(n), FIXED, KeysOf(chunk));
    assert buf[..] == Front(n) + Zeros(NODE - Align8(FIXED + keyBytes));
    var at := Align8(FIXED + keyBytes);
    PutLengths(buf, Front(n), at, KeysOf(chunk));
    PutValues(buf, Front(n) + Lengths(n.keys), at + 2 * count, ValuesOf(chunk));
    node := buf[..];
  }
}
