/** The guest's index reader, `index_walk`, and a full walk of an index's leaf chain with its
    duplicate chains expanded. */
module IndexReader {
  import opened Bytes
  import opened Keys
  import opened NodePlan
  import opened NodeCodec
  import opened DirectoryReader
  import opened IndexTree

  const MAX_CHAIN: nat := 4096

  // ----- the descent, keys compared by the index's type

  function TypedScan(dataType: nat, node: seq<byte>, i: nat, key: Key): (s: Scan)
    requires |node| == NODE && Readable(node) && i <= Count(node)
    ensures s.At? ==> s.child <= Count(node) && (s.equal ==> s.child < Count(node))
    decreases Count(node) - i
  {
    if i == Count(node) then At(i, false)
    else if KeyAt(node, i) + KeyLength(node, i) > NODE then Bad
    else
      var k := node[KeyAt(node, i)..KeyAt(node, i) + KeyLength(node, i)];
      if !Below(dataType, k, key) then At(i, !Below(dataType, key, k)) else TypedScan(dataType, node, i + 1, key)
  }

  function Descend(stream: seq<byte>, h: Header, offset: nat, steps: nat, key: Key): Option<nat>
    decreases steps
  {
    if steps == 0 || offset + NODE > h.maximum then None
    else
      var node := Read(stream, offset, NODE);
      if Count(node) > MAX_COUNT || !Readable(node) then None
      else
        match TypedScan(h.dataType, node, 0, key)
        case Bad => None
        case At(child, equal) =>
          var overflow := Field(node, OVERFLOW_LINK, 8);
          if overflow != NULL_LINK then
            Descend(stream, h, if child == Count(node) then overflow else ValueAt(node, child), steps - 1, key)
          else if equal then Some(ValueAt(node, child))
          else None
  }

  // ----- duplicate nodes

  function DuplicateCount(node: seq<byte>): (n: nat)
    requires |node| == NODE
    ensures n <= NUM_DUPLICATE_VALUES
  {
    var counted := Field(node, OVERFLOW_LINK, 8) % TWO32;
    if counted < NUM_DUPLICATE_VALUES then counted else NUM_DUPLICATE_VALUES
  }

  function DuplicateValue(node: seq<byte>, i: nat): nat
    requires |node| == NODE && i < NUM_DUPLICATE_VALUES
  {
    Field(node, OVERFLOW_LINK + 8 + 8 * i, 8)
  }

  /** One call's answer: the value, and where the caller's position is left. */
  datatype Step = Step(value: Option<nat>, position: nat)

  /** The walk along a duplicate chain. The position is counted down as nodes are passed, and
      it is the caller's own: it is not counted back up. */
  function WalkChain(stream: seq<byte>, chain: nat, position: nat, steps: nat): Step
    decreases steps
  {
    if steps == 0 then Step(None, position)
    else
      var node := Read(stream, chain, NODE);
      if position < DuplicateCount(node) then Step(Some(DuplicateValue(node, position)), position + 1)
      else
        var left := position - DuplicateCount(node);
        var right := Field(node, RIGHT_LINK, 8);
        if right == NULL_LINK then Step(None, left) else WalkChain(stream, right, left, steps - 1)
  }

  function Walk(stream: seq<byte>, key: Key, position: nat): Step
  {
    match NodeHeader(stream)
    case None => Step(None, position)
    case Some(h) =>
      match Descend(stream, h, h.root, MAX_LEVELS, key)
      case None => Step(None, position)
      case Some(value) =>
        if LinkType(value) == 0 then
          if position != 0 then Step(None, position) else Step(Some(value), 1)
        else if LinkType(value) != DUPLICATE_NODE then Step(None, position)
        else WalkChain(stream, LinkOffset(value), position, MAX_CHAIN)
  }

  method ScanTyped(dataType: nat, node: seq<byte>, key: Key) returns (s: Scan)
    requires |node| == NODE && Readable(node)
    ensures s == TypedScan(dataType, node, 0, key)
  {
    var at, i := FIXED, 0;
    while i < Count(node)
      invariant 0 <= i <= Count(node) && at == KeyAt(node, i)
      invariant TypedScan(dataType, node, 0, key) == TypedScan(dataType, node, i, key)
      decreases Count(node) - i
    {
      var length := KeyLength(node, i);
      if at + length > NODE {
        return Bad;
      }
      var k := node[at..at + length];
      if !Below(dataType, k, key) {
        return At(i, !Below(dataType, key, k));
      }
      at := at + length;
      i := i + 1;
    }
    return At(Count(node), false);
  }

  method DescendIndex(stream: seq<byte>, h: Header, root: nat, levels: nat, key: Key) returns (r: Option<nat>)
    ensures r == Descend(stream, h, root, levels, key)
  {
    var offset: nat := root;
    for depth := 0 to levels
      invariant Descend(stream, h, root, levels, key) == Descend(stream, h, offset, levels - depth, key)
    {
      if offset + NODE > h.maximum {
        return None;
      }
      var node := Read(stream, offset, NODE);
      var overflow, count := Field(node, OVERFLOW_LINK, 8), Count(node);
      if count > MAX_COUNT || !Readable(node) {
        return None;
      }
      var s := ScanTyped(h.dataType, node, key);
      if s.Bad? {
        return None;
      }
      if overflow == NULL_LINK {
        return if s.equal then Some(ValueAt(node, s.child)) else None;
      }
      offset := if s.child == count then overflow else ValueAt(node, s.child);
    }
    return None;
  }

  method WalkDuplicates(stream: seq<byte>, first: nat, start: nat, nodes: nat) returns (r: Step)
    ensures r == WalkChain(stream, first, start, nodes)
  {
    var chain: nat, position: nat := first, start;
    for depth := 0 to nodes
      invariant WalkChain(stream, first, start, nodes) == WalkChain(stream, chain, position, nodes - depth)
    {
      var node := Read(stream, chain, NODE);
      var count := DuplicateCount(node);
      if position < count {
        return Step(Some(DuplicateValue(node, position)), position + 1);
      }
      position := position - count;
      var right := Field(node, RIGHT_LINK, 8);
      if right == NULL_LINK {
        return Step(None, position);
      }
      chain := right;
    }
    return Step(None, position);
  }

  /** `index_walk`: the next value under `key`, and the position to resume from. */
  method IndexWalk(stream: seq<byte>, key: Key, position: nat) returns (r: Step)
    ensures r == Walk(stream, key, position)
  {
    var header := NodeHeader(stream);
    if header.None? {
      return Step(None, position);
    }
    var value := DescendIndex(stream, header.value, header.value.root, MAX_LEVELS, key);
    if value.None? {
      return Step(None, position);
    }
    if LinkType(value.value) == 0 {
      return if position != 0 then Step(None, position) else Step(Some(value.value), 1);
    }
    if LinkType(value.value) != DUPLICATE_NODE {
      return Step(None, position);
    }
    r := WalkDuplicates(stream, LinkOffset(value.value), position, MAX_CHAIN);
  }

  // ----- every pair, by the chains alone

  function NodeValues(node: seq<byte>, i: nat): seq<nat>
    requires |node| == NODE && i <= DuplicateCount(node)
    decreases DuplicateCount(node) - i
  {
    if i == DuplicateCount(node) then [] else [DuplicateValue(node, i)] + NodeValues(node, i + 1)
  }

  function ChainValues(stream: seq<byte>, chain: nat, steps: nat): seq<nat>
    decreases steps
  {
    if steps == 0 then []
    else
      var node := Read(stream, chain, NODE);
      var right := Field(node, RIGHT_LINK, 8);
      NodeValues(node, 0) + if right == NULL_LINK then [] else ChainValues(stream, right, steps - 1)
  }

  /** The values a leaf entry stands for. */
  function EntryValues(stream: seq<byte>, value: nat): seq<nat>
  {
    if LinkType(value) == 0 then [value] else ChainValues(stream, LinkOffset(value), |stream| + 1)
  }

  /** The pairs of one leaf, from entry `i` on. */
  function LeafPairs(stream: seq<byte>, node: seq<byte>, i: nat): seq<Entry>
    requires |node| == NODE && Readable(node) && i <= Count(node)
    decreases Count(node) - i
  {
    if i == Count(node) || KeyAt(node, i) + KeyLength(node, i) > NODE then []
    else
      Each(Group(node[KeyAt(node, i)..KeyAt(node, i) + KeyLength(node, i)], EntryValues(stream, ValueAt(node, i)))) +
      LeafPairs(stream, node, i + 1)
  }

  function PairsFrom(stream: seq<byte>, offset: nat, walks: nat): seq<Entry>
    decreases walks
  {
    if walks == 0 then []
    else
      var node := Read(stream, offset, NODE);
      var right := Field(node, RIGHT_LINK, 8);
      if !Readable(node) then []
      else LeafPairs(stream, node, 0) + if right == NULL_LINK then [] else PairsFrom(stream, right, walks - 1)
  }

  /** Every pair an index stream holds, in chain order. */
  function IndexPairs(stream: seq<byte>): seq<Entry>
  {
    match NodeHeader(stream)
    case None => []
    case Some(h) => PairsFrom(stream, h.root, |stream|)
  }
}
