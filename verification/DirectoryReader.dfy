/** The guest's directory reader over a tree stream: `node_header`, `dir_find` and `dir_entry`. */
module DirectoryReader {
  import opened Bytes
  import opened Keys
  import opened NodePlan
  import opened NodeCodec
  import opened DirectoryStream

  const MAX_BLOCK_SIZE: nat := 8192
  const FREE_LINK: nat := NULL_LINK - 1
  const MAX_COUNT: nat := 512
  const MAX_LEVELS: nat := 16

  /** `read_stream`: bytes past the stored runs read as zeros. */
  function Read(stream: seq<byte>, offset: nat, length: nat): (s: seq<byte>)
    ensures |s| == length
    ensures offset + length <= |stream| ==> s == stream[offset..offset + length]
  {
    seq(length, i requires 0 <= i < length => if offset + i < |stream| then stream[offset + i] else 0)
  }

  datatype Header = Header(root: nat, maximum: nat, dataType: nat)

  /** `node_header`, for trees of the builder's node size. */
  function NodeHeader(stream: seq<byte>): Option<Header>
  {
    var h := Read(stream, 0, 40);
    var nodeSize := Field(h, 4, 4);
    if Field(h, 0, 4) != TREE_MAGIC || nodeSize == 0 || nodeSize > MAX_BLOCK_SIZE || nodeSize != NODE then None
    else Some(Header(Field(h, 16, 8), Field(h, 32, 8), Field(h, 12, 4)))
  }

  // ----- dir_find

  /** Where a scan of one node ends: past a bad key, or at a child, with an equal key or not. */
  datatype Scan = Bad | At(child: nat, equal: bool)

  predicate KeyReadable(node: seq<byte>, i: nat)
    requires |node| == NODE && Readable(node) && i < Count(node)
  {
    KeyLength(node, i) <= MAX_NAME && KeyAt(node, i) + KeyLength(node, i) <= NODE
  }

  function KeyOf(node: seq<byte>, i: nat): Key
    requires |node| == NODE && Readable(node) && i < Count(node) && KeyReadable(node, i)
  {
    node[KeyAt(node, i)..KeyAt(node, i) + KeyLength(node, i)]
  }

  /** The first key the name is not greater than names the child to follow. */
  function ScanFrom(node: seq<byte>, i: nat, name: Key): (s: Scan)
    requires |node| == NODE && Readable(node) && i <= Count(node)
    ensures s.At? ==> s.child <= Count(node) && (s.equal ==> s.child < Count(node))
    decreases Count(node) - i
  {
    if i == Count(node) then At(i, false)
    else if !KeyReadable(node, i) then Bad
    else if !BytesBelow(KeyOf(node, i), name) then At(i, KeyOf(node, i) == name)
    else ScanFrom(node, i + 1, name)
  }

  method ScanNode(node: seq<byte>, name: Key) returns (s: Scan)
    requires |node| == NODE && Readable(node)
    ensures s == ScanFrom(node, 0, name)
  {
    var at := FIXED;
    var i := 0;
    while i < Count(node)
      invariant 0 <= i <= Count(node) && at == KeyAt(node, i)
      invariant ScanFrom(node, 0, name) == ScanFrom(node, i, name)
      decreases Count(node) - i
    {
      var length := KeyLength(node, i);
      if length > MAX_NAME || at + length > NODE {
        return Bad;
      }
      var order := KeyCompare(name, node[at..at + length]);
      BytesIrreflexive(name);
      if order <= 0 {
        return At(i, order == 0);
      }
      at := at + length;
      i := i + 1;
    }
    return At(Count(node), false);
  }

  /** The descent, and the walk along the leaves, of at most `steps` nodes. */
  function FindFrom(stream: seq<byte>, maximum: nat, offset: nat, steps: nat, name: Key): Option<nat>
    decreases steps
  {
    if steps == 0 || offset + NODE > maximum then None
    else
      var node := Read(stream, offset, NODE);
      if Count(node) > MAX_COUNT || !Readable(node) then None
      else
        match ScanFrom(node, 0, name)
        case Bad => None
        case At(child, equal) =>
          var overflow := Field(node, OVERFLOW_LINK, 8);
          var right := Field(node, RIGHT_LINK, 8);
          if overflow != NULL_LINK then
            FindFrom(stream, maximum, if child == Count(node) then overflow else ValueAt(node, child), steps - 1, name)
          else if equal then Some(ValueAt(node, child))
          else if right == NULL_LINK || right == FREE_LINK then None
          else FindFrom(stream, maximum, right, steps - 1, name)
  }

  function Find(stream: seq<byte>, name: Key): Option<nat>
  {
    match NodeHeader(stream)
    case None => None
    case Some(h) => FindFrom(stream, h.maximum, h.root, MAX_LEVELS, name)
  }

  /** `dir_find`. */
  method DirFind(stream: seq<byte>, name: Key) returns (r: Option<nat>)
    ensures r == Find(stream, name)
  {
    var header := NodeHeader(stream);
    if header.None? {
      return None;
    }
    var offset: nat, maximum: nat := header.value.root, header.value.maximum;
    var depth := 0;
    while depth < MAX_LEVELS
      invariant 0 <= depth <= MAX_LEVELS
      invariant Find(stream, name) == FindFrom(stream, maximum, offset, MAX_LEVELS - depth, name)
    {
      if offset + NODE > maximum {
        return None;
      }
      var node := Read(stream, offset, NODE);
      var overflow, count := Field(node, OVERFLOW_LINK, 8), Count(node);
      if count > MAX_COUNT || !Readable(node) {
        return None;
      }
      var s := ScanNode(node, name);
      if s.Bad? {
        return None;
      }
      depth := depth + 1;
      if overflow == NULL_LINK {
        if s.equal {
          return Some(ValueAt(node, s.child));
        }
        var right := Field(node, RIGHT_LINK, 8);
        if right == NULL_LINK || right == FREE_LINK {
          return None;
        }
        offset := right;
      } else {
        offset := if s.child == count then overflow else ValueAt(node, s.child);
      }
    }
    return None;
  }

  // ----- dir_entry

  /** The leftmost leaf: the first child of each internal node, at most `steps` down. */
  function Leftmost(stream: seq<byte>, maximum: nat, offset: nat, steps: nat): Option<nat>
    decreases steps
  {
    if steps == 0 then Some(offset)
    else if offset + NODE > maximum then None
    else
      var node := Read(stream, offset, NODE);
      var overflow := Field(node, OVERFLOW_LINK, 8);
      if overflow == NULL_LINK then Some(offset)
      else if !Readable(node) then None
      else Leftmost(stream, maximum, if Count(node) > 0 then ValueAt(node, 0) else overflow, steps - 1)
  }

  /** `node_key` with the value beside it. It refuses a key that ends past the volume's
      *block* size. */
  function EntryAt(node: seq<byte>, i: nat): Option<Entry>
    requires |node| == NODE && Readable(node) && i < Count(node)
  {
    if Count(node) > MAX_COUNT || KeyLength(node, i) > MAX_NAME || KeyAt(node, i) + KeyLength(node, i) > BLOCK then None
    else Some(Entry(node[KeyAt(node, i)..KeyAt(node, i) + KeyLength(node, i)], ValueAt(node, i)))
  }

  /** The walk along the right links, counting entries, over at most `walks` leaves. */
  function EntryFrom(stream: seq<byte>, maximum: nat, offset: nat, walks: nat, remaining: nat): Option<Entry>
    decreases walks
  {
    if walks == 0 || offset + NODE > maximum then None
    else
      var node := Read(stream, offset, NODE);
      if Field(node, OVERFLOW_LINK, 8) != NULL_LINK || !Readable(node) then None
      else if remaining < Count(node) then EntryAt(node, remaining)
      else
        var right := Field(node, RIGHT_LINK, 8);
        if right == NULL_LINK || right == FREE_LINK then None
        else EntryFrom(stream, maximum, right, walks - 1, remaining - Count(node))
  }

  function EntryOf(stream: seq<byte>, index: nat): Option<Entry>
  {
    match NodeHeader(stream)
    case None => None
    case Some(h) =>
      match Leftmost(stream, h.maximum, h.root, MAX_LEVELS)
      case None => None
      case Some(leaf) => EntryFrom(stream, h.maximum, leaf, h.maximum / NODE + 2, index)
  }

  /** `dir_entry`: down to the leftmost leaf, then along the chain. */
  method DirEntry(stream: seq<byte>, index: nat) returns (r: Option<Entry>)
    ensures r == EntryOf(stream, index)
  {
    var header := NodeHeader(stream);
    if header.None? {
      return None;
    }
    var leaf := FindLeftmost(stream, header.value.maximum, header.value.root, MAX_LEVELS);
    if leaf.None? {
      return None;
    }
    r := WalkLeaves(stream, header.value.maximum, leaf.value, index);
  }

  method FindLeftmost(stream: seq<byte>, maximum: nat, root: nat, levels: nat) returns (leaf: Option<nat>)
    ensures leaf == Leftmost(stream, maximum, root, levels)
  {
    var offset: nat := root;
    for depth := 0 to levels
      invariant Leftmost(stream, maximum, root, levels) == Leftmost(stream, maximum, offset, levels - depth)
    {
      if offset + NODE > maximum {
        return None;
      }
      var node := Read(stream, offset, NODE);
      var overflow := Field(node, OVERFLOW_LINK, 8);
      if overflow == NULL_LINK {
        return Some(offset);
      }
      if !Readable(node) {
        return None;
      }
      offset := if Count(node) > 0 then ValueAt(node, 0) else overflow;
    }
    return Some(offset);
  }

  method WalkLeaves(stream: seq<byte>, maximum: nat, leaf: nat, index: nat) returns (r: Option<Entry>)
    ensures r == EntryFrom(stream, maximum, leaf, maximum / NODE + 2, index)
  {
    var offset: nat, remaining: nat := leaf, index;
    var walks := maximum / NODE + 2;
    while walks > 0 && offset + NODE <= maximum
      invariant 0 <= walks
      invariant EntryFrom(stream, maximum, leaf, maximum / NODE + 2, index) ==
                EntryFrom(stream, maximum, offset, walks, remaining)
    {
      var node := Read(stream, offset, NODE);
      if Field(node, OVERFLOW_LINK, 8) != NULL_LINK || !Readable(node) {
        return None;
      }
      if remaining < Count(node) {
        return EntryAt(node, remaining);
      }
      remaining := remaining - Count(node);
      offset := Field(node, RIGHT_LINK, 8);
      if offset == NULL_LINK || offset == FREE_LINK {
        return None;
      }
      walks := walks - 1;
    }
    return None;
  }
}
