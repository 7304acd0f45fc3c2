/** `make_bfs`: the layout run to its end, and its writes into the caller's buffer. */
module MakeVolume {
  import opened Bytes
  import opened Keys
  import opened Geometry
  import opened IndexTree
  import opened Inode
  import opened Layout
  import opened VolumePlan
  import opened Image
  import opened Mount
  import opened BuiltVolume
  import opened Builder
  import opened StoredIndices

  // ----- the caller's bytearray

  function Min(a: nat, b: nat): nat { if a < b then a else b }

  /** Slice assignment: past the end of the buffer it extends it. */
  function Assigned(buf: seq<byte>, at: nat, data: seq<byte>): seq<byte>
  {
    buf[..Min(at, |buf|)] + data + buf[Min(at + |data|, |buf|)..]
  }

  /** What a slice assignment does: the data lands at `at`, or at the end of a buffer that is
      shorter; every byte before and behind it is kept; the buffer grows only as far as the data
      reaches. */
  ghost predicate Overwrites(before: seq<byte>, at: nat, data: seq<byte>, after: seq<byte>)
  {
    var from := Min(at, |before|);
    && |after| == (if |before| < from + |data| then from + |data| else |before|)
    && after[from..from + |data|] == data
    && (forall i | 0 <= i < from :: after[i] == before[i])
    && (forall i | from + |data| <= i < |after| :: after[i] == before[i])
  }

  /** That effect leaves no choice. */
  lemma OverwritesOneWay(before: seq<byte>, at: nat, data: seq<byte>, after: seq<byte>)
    ensures Overwrites(before, at, data, after) <==> after == Assigned(before, at, data)
  {
    var from, made := Min(at, |before|), Assigned(before, at, data);
    assert made[from..from + |data|] == data;
    if Overwrites(before, at, data, after) {
      forall i | 0 <= i < |after| ensures after[i] == made[i] {
        assert from <= i < from + |data| ==> after[i] == after[from..from + |data|][i - from];
      }
    }
  }

  lemma AssignedInside(buf: seq<byte>, at: nat, data: seq<byte>)
    requires at + |data| <= |buf|
    ensures Assigned(buf, at, data) == Splice(buf, at, data)
  {
  }

  function AssignedAll(buf: seq<byte>, offset: nat, ws: seq<Write>): seq<byte>
  {
    if ws == [] then buf
    else
      var n := |ws| - 1;
      Assigned(AssignedAll(buf, offset, ws[..n]), offset + ws[n].block * BLOCK, ws[n].bytes)
  }

  lemma {:induction false} AssignedAllInside(buf: seq<byte>, offset: nat, ws: seq<Write>)
    requires forall i | 0 <= i < |ws| :: InImage(ws[i], offset, |buf|)
    ensures AssignedAll(buf, offset, ws) == Apply(buf, offset, ws)
    decreases |ws|
  {
    hide Assigned, Splice;
    if ws != [] {
      var n := |ws| - 1;
      AssignedAllInside(buf, offset, ws[..n]);
      assert InImage(ws[n], offset, |buf|);
      AssignedInside(Apply(buf, offset, ws[..n]), offset + ws[n].block * BLOCK, ws[n].bytes);
    }
  }

  /** The last four writes: bitmap, superblock, and the two erased sectors. */
  function Finished(image: seq<byte>, offset: nat, bitmap: seq<byte>, super: seq<byte>): seq<byte>
  {
    Assigned(Assigned(Assigned(Assigned(image, offset + BLOCK, bitmap), offset + SECTOR, super), offset, Zeros(SECTOR)),
             offset + 2 * SECTOR, Zeros(SECTOR))
  }

  lemma FinishedInside(image: seq<byte>, offset: nat, bitmap: seq<byte>, super: seq<byte>)
    requires |super| == SECTOR && offset + BLOCK + |bitmap| <= |image|
    ensures Finished(image, offset, bitmap, super) == Finish(image, offset, bitmap, super)
  {
    hide Assigned, Splice;
    var marked := Splice(image, offset + BLOCK, bitmap);
    var named := Splice(marked, offset + SECTOR, super);
    var erased := Splice(named, offset, Zeros(SECTOR));
    AssignedInside(image, offset + BLOCK, bitmap);
    AssignedInside(marked, offset + SECTOR, super);
    AssignedInside(named, offset, Zeros(SECTOR));
    AssignedInside(erased, offset + 2 * SECTOR, Zeros(SECTOR));
  }

  class Buffer {
    var bytes: seq<byte>

    constructor (length: nat)
      ensures bytes == Zeros(length)
    {
      bytes := Zeros(length);
    }

    method Assign(at: nat, data: seq<byte>)
      modifies this
      ensures Overwrites(old(bytes), at, data, bytes)
    {
      OverwritesOneWay(bytes, at, data, Assigned(bytes, at, data));
      bytes := bytes[..Min(at, |bytes|)] + data + bytes[Min(at + |data|, |bytes|)..];
    }

    /** The same, as the value the layout's specification folds. */
    method Store(at: nat, data: seq<byte>)
      modifies this
      ensures bytes == Assigned(old(bytes), at, data)
    {
      ghost var before := bytes;
      Assign(at, data);
      OverwritesOneWay(before, at, data, bytes);
    }

    method AssignBlocks(offset: nat, ws: seq<Write>)
      modifies this
      ensures bytes == AssignedAll(old(bytes), offset, ws)
    {
      hide Assigned, Overwrites;
      for i := 0 to |ws|
        invariant bytes == AssignedAll(old(bytes), offset, ws[..i])
      {
        assert ws[..i + 1][..i] == ws[..i];
        Store(offset + ws[i].block * BLOCK, ws[i].bytes);
      }
      assert ws[..|ws|] == ws;
    }
  }

  // ----- the indices

  /** `piece.ljust(BLOCK, b"\x00")`. */
  function Padded(piece: seq<byte>): seq<byte>
  {
    if |piece| < BLOCK then piece + Zeros(BLOCK - |piece|) else piece
  }

  function PaddedPieces(base: nat, tree: seq<byte>): (ws: seq<Write>)
    ensures |ws| == Blocks(|tree|)
  {
    seq(Blocks(|tree|), i requires 0 <= i < Blocks(|tree|) => Write(base + i, Padded(Piece(tree, i))))
  }

  /** A tree of whole blocks leaves nothing to fill. */
  lemma WholePieces(base: nat, tree: seq<byte>)
    requires Blocks(|tree|) * BLOCK == |tree|
    ensures PaddedPieces(base, tree) == Pieces(base, tree)
  {
    var ws := Pieces(base, tree);
    forall i | 0 <= i < |ws| ensures PaddedPieces(base, tree)[i] == ws[i] {
      assert (i + 1) * BLOCK <= |ws| * BLOCK;
    }
  }

  /** `place_tree`: the blocks of a tree, the last filled with zeros; refused when one run does
      not address them. */
  method PlaceTree(b: Layouter, tree: seq<byte>) returns (ok: bool, base: nat)
    modifies b`next, b`data
    ensures base == old(b.next) && b.next == old(b.next) + Blocks(|tree|)
    ensures b.data == old(b.data) + PaddedPieces(base, tree)
    ensures ok == (Blocks(|tree|) <= MAX_RUN)
  {
    hide Padded, Piece;
    var blocks := Blocks(|tree|);
    base := b.Take(blocks);
    for i := 0 to blocks
      invariant b.next == old(b.next) + blocks && b.data == old(b.data) + PaddedPieces(base, tree)[..i]
    {
      b.data := b.data + [Write(base + i, Padded(Piece(tree, i)))];
    }
    assert PaddedPieces(base, tree)[..blocks] == PaddedPieces(base, tree);
    ok := blocks <= MAX_RUN;
  }

  /** An index: its inode block, then its tree. */
  method AddIndex(b: Layouter, dataType: nat, pairs: seq<Entry>) returns (ok: bool, l: IndexLoc)
    requires ShortKeys(pairs)
    modifies b`next, b`data
    ensures l == PlaceIndex(old(b.next), IndexStream(dataType, pairs)) && b.next == IndexEnd(l)
    ensures b.data == old(b.data) + Pieces(l.base, l.stream)
    ensures ok == (Blocks(|l.stream|) <= MAX_RUN)
  {
    hide IndexBytes, Blocks, Pieces, PaddedPieces;
    var block := b.Take(1);
    IndexIsBuildable(dataType, pairs);
    WholeIndex(dataType, pairs);
    var tree := BuildIndex(dataType, pairs);
    var base;
    ok, base := PlaceTree(b, tree);
    WholePieces(base, tree);
    l := IndexLoc(block, base, tree);
  }

  /** An index's inode. */
  method AddIndexInode(b: Layouter, l: IndexLoc, parent: nat, mode: nat, typeCode: nat)
    requires Blocks(|l.stream|) <= MAX_RUN && mode < TWO32
    modifies b`inodes
    ensures b.inodes == old(b.inodes) + [Write(l.block, InodeBytes(IndexInode(l, parent, mode, typeCode, b.shift)))]
  {
    hide InodeBytes, RunBytes, CoveredBytes;
    var inode := BuildInode(RunBytes(l.block, 1, b.shift), mode, RunBytes(parent, 1, b.shift), |l.stream|,
                            [RunBytes(l.base, Blocks(|l.stream|), b.shift)], None, 0, typeCode);
    b.inodes := b.inodes + [Write(l.block, inode)];
  }

  /** The five indices, laid out behind the tree. */
  datatype Indices = Indices(name: IndexLoc, appSig: IndexLoc, modified: IndexLoc, size: IndexLoc, indices: IndexLoc)

  /** The indices a volume whose tree ends at `next` has. */
  ghost function IndicesFrom(next: nat, names: seq<Entry>, sizes: seq<Entry>, times: seq<Entry>): Indices
    requires ShortKeys(names) && ShortKeys(sizes) && ShortKeys(times)
  {
    var name := PlaceIndex(next, IndexStream(STRING_TYPE, names));
    var appSig := PlaceIndex(IndexEnd(name), IndexStream(STRING_TYPE, []));
    var modified := PlaceIndex(IndexEnd(appSig), IndexStream(INT64_TYPE, times));
    var size := PlaceIndex(IndexEnd(modified), IndexStream(INT64_TYPE, sizes));
    var table := IndexTable(name.block, appSig.block, modified.block, size.block);
    Indices(name, appSig, modified, size, PlaceIndex(IndexEnd(size), IndexStream(STRING_TYPE, table)))
  }

  function WithIndices(root: Loc, x: Indices): Volume
  {
    Volume(root, x.name, x.appSig, x.modified, x.size, x.indices)
  }

  predicate IndicesFine(x: Indices)
  {
    && Blocks(|x.name.stream|) <= MAX_RUN && Blocks(|x.appSig.stream|) <= MAX_RUN
    && Blocks(|x.modified.stream|) <= MAX_RUN && Blocks(|x.size.stream|) <= MAX_RUN
    && Blocks(|x.indices.stream|) <= MAX_RUN
  }

  function IndicesData(x: Indices): seq<Write>
  {
    Pieces(x.name.base, x.name.stream) + Pieces(x.appSig.base, x.appSig.stream) +
    Pieces(x.modified.base, x.modified.stream) + Pieces(x.size.base, x.size.stream) +
    Pieces(x.indices.base, x.indices.stream)
  }

  method AddIndices(b: Layouter) returns (ok: bool, x: Indices)
    requires ShortKeys(b.names) && ShortKeys(b.sizes) && ShortKeys(b.times)
    modifies b`next, b`data
    ensures x == IndicesFrom(old(b.next), b.names, b.sizes, b.times) && ok == IndicesFine(x)
    ensures b.next == IndexEnd(x.indices) && b.data == old(b.data) + IndicesData(x)
  {
    hide IndexStream, Blocks, Pieces;
    var ok1, name := AddIndex(b, STRING_TYPE, b.names);
    var ok2, appSig := AddIndex(b, STRING_TYPE, []);
    var ok3, modified := AddIndex(b, INT64_TYPE, b.times);
    var ok4, size := AddIndex(b, INT64_TYPE, b.sizes);
    var ok5, indices := AddIndex(b, STRING_TYPE, IndexTable(name.block, appSig.block, modified.block, size.block));
    ok := ok1 && ok2 && ok3 && ok4 && ok5;
    x := Indices(name, appSig, modified, size, indices);
  }

  lemma PlanIs(items: seq<Item>, start: nat)
    requires Legal(items)
    ensures ShortKeys(NamesOf(RootOf(items, start).children)) && ShortKeys(SizesOf(RootOf(items, start).children))
    ensures ShortKeys(TimesOf(RootOf(items, start).children))
    ensures var root := RootOf(items, start); var ls := root.children;
            var x := IndicesFrom(Extent(root, start), NamesOf(ls), SizesOf(ls), TimesOf(ls));
            && PlanVolume(items, start) == WithIndices(root, x)
            && (VolumeFine(PlanVolume(items, start)) <==> Fine(root, start) && IndicesFine(x))
  {
    hide IndexStream, DirStream, Blocks, Extent, NamesOf, SizesOf, TimesOf, ShortAll, ShortKeys, Fine;
    LocateShort(items, start, start + 1);
    NamesShort(RootOf(items, start).children);
  }

  method AddIndexInodes(b: Layouter, x: Indices, ghost root: Loc)
    requires IndicesFine(x) && VolumeFine(WithIndices(root, x))
    modifies b`inodes
    ensures b.inodes == old(b.inodes) + IndexInodes(WithIndices(root, x), b.shift)
  {
    hide InodeBytes, IndexInode, VolumeFine;
    var parent := x.indices.block;
    AddIndexInode(b, x.indices, parent, INDEX_MODE + STR_INDEX + 0x1C0, 0);
    AddIndexInode(b, x.name, parent, INDEX_MODE + STR_INDEX, TYPE_CSTR);
    AddIndexInode(b, x.appSig, parent, INDEX_MODE + STR_INDEX, TYPE_CSTR);
    AddIndexInode(b, x.modified, parent, INDEX_MODE + LONG_LONG_INDEX, TYPE_LLNG);
    AddIndexInode(b, x.size, parent, INDEX_MODE + LONG_LONG_INDEX, TYPE_LLNG);
  }

  /** The root directory's layout, from nothing. */
  lemma AfterRoot(items: seq<Item>, start: nat, shift: nat)
    requires Legal(items)
    ensures PlacedDir(items, start, None, start + 1) == RootOf(items, start)
    ensures Fine(RootOf(items, start), start) ==>
              var root := RootOf(items, start);
              AfterDir(State(start + 1, [], [], [], [], []), root, start, None, shift) ==
              State(Extent(root, start), InodesOf(root, start, None, shift), DataOf(root, start),
                    NamesOf(root.children), SizesOf(root.children), TimesOf(root.children))
  {
    hide Fine, Legal, Locate, InodesOf, DataOf, NamesOf, SizesOf, TimesOf, Extent;
  }

  // ----- the whole layout

  datatype LaidOut = LaidOut(writes: seq<Write>, used: nat, root: nat, indices: nat)

  /** Whether every run can be packed, the group number being a signed 32-bit field: the allocator
      only moves up, so the last run packed, that of the indices' tree, has the largest. */
  predicate Addressed(v: Volume, shift: nat) { GroupOf(v.indices.base, shift) < GROUP_LIMIT }

  const GROUP_LIMIT: nat := 0x8000_0000

  lemma {:induction false} GroupMonotone(a: nat, b: nat, shift: nat)
    requires a <= b
    ensures GroupOf(a, shift) <= GroupOf(b, shift)
  {
    if shift > 0 {
      GroupMonotone(a / 2, b / 2, shift - 1);
    }
  }

  /** Then every block up to it has a group number that fits. */
  lemma AddressedBelow(v: Volume, shift: nat, block: nat)
    requires Addressed(v, shift) && block <= v.indices.base
    ensures GroupOf(block, shift) < GROUP_LIMIT
  {
    GroupMonotone(block, v.indices.base, shift);
  }

  /** The writes `make_bfs` gathers for a volume whose data starts at `start`; nothing when a
      stream is too long for one run or a block too far for a group number. */
  method LayOut(items: seq<Item>, start: nat, shift: nat) returns (r: Option<LaidOut>)
    requires Legal(items)
    ensures r.Some? <==> VolumeFine(PlanVolume(items, start)) && Addressed(PlanVolume(items, start), shift)
    ensures r.Some? ==> var v := PlanVolume(items, start);
              r.value == LaidOut(AllWrites(v, shift), Used(v), v.root.block, v.indices.block)
  {
    hide Fine, Legal, Locate, InodesOf, DataOf, NamesOf, SizesOf, TimesOf, ShortKeys, IndicesFrom, IndexInodes,
         VolumeFine, IndicesFine, Extent, PlanVolume, AfterDir, PlacedDir, RootOf;
    var b := new Layouter(start, shift);
    var rootBlock := b.Take(1);
    ghost var root := RootOf(items, start);
    PlanIs(items, start);
    AfterRoot(items, start, shift);
    var ok := b.BuildDir(items, rootBlock, rootBlock, None);
    if !ok {
      return None;
    }
    var x;
    ok, x := AddIndices(b);
    if !ok || GroupOf(x.indices.base, shift) >= GROUP_LIMIT {
      return None;
    }
    AddIndexInodes(b, x, root);
    r := Some(LaidOut(b.inodes + b.data, b.next, rootBlock, x.indices.block));
  }

  // ----- make_bfs

  /** Whether `make_bfs` returns: every stream fits one run, every run has a group number, and
      every used block has a bit in the bitmap. Anything else raises. */
  ghost predicate Returns(v: Volume, size: nat)
  {
    VolumeFine(v) && Addressed(v, ShiftFor(size)) && Used(v) <= BitmapBlocks(size / BLOCK) * BITS_PER_BLOCK
  }

  lemma PlacedReturns(v: Volume, size: nat)
    requires Placed(v, size)
    ensures Returns(v, size)
  {
    hide VolumeFine, Laid, IndicesLaid, GeometryOf, Pow2, CeilDiv, GroupOf;
    GeometryFits(size / BLOCK);
    GroupInRange(v.indices.base, ShiftFor(size));
  }

  /** What `make_bfs` leaves in a buffer of any length. */
  ghost function WrittenImage(buf: seq<byte>, offset: nat, size: nat, title: seq<byte>, v: Volume): seq<byte>
    requires VolumeFine(v)
  {
    Finished(AssignedAll(buf, offset, AllWrites(v, ShiftFor(size))), offset,
             Bitmap(Used(v), BitmapBlocks(size / BLOCK)), SuperBytes(title, SuperFor(v, size)))
  }

  /** With room for the volume, that is the built image. */
  lemma WrittenInside(buf: seq<byte>, offset: nat, size: nat, title: seq<byte>, v: Volume)
    requires Placed(v, size) && offset + size <= |buf|
    ensures VolumeFine(v) && WrittenImage(buf, offset, size, title, v) == BuiltImage(buf, offset, size, title, v)
  {
    hide VolumeFine, Placed, AllWrites, Bitmap, SuperBytes, SuperFor, BitmapBlocks, DataStart, Finish,
         Finished, AssignedAll, Apply;
    PlacedFine(v, size);
    RoomForAll(v, size, offset, |buf|);
    var ws := WritesFor(v, size);
    AssignedAllInside(buf, offset, ws);
    FinishedInside(Apply(buf, offset, ws), offset, Bitmap(Used(v), BitmapBlocks(size / BLOCK)),
                   SuperBytes(title, SuperFor(v, size)));
  }

  /** `make_bfs`: the count of used blocks, or nothing where it raises. A raise for a stream too
      long or a block too far leaves the buffer alone. */
  method MakeBfs(buf: Buffer, offset: nat, size: nat, title: seq<byte>, items: seq<Item>) returns (used: Option<nat>)
    requires Legal(items)
    modifies buf
    ensures var v := PlanVolume(items, DataStart(size));
            && used == (if Returns(v, size) then Some(Used(v)) else None)
            && (!VolumeFine(v) || !Addressed(v, ShiftFor(size)) ==> buf.bytes == old(buf.bytes))
            && (Returns(v, size) ==> buf.bytes == WrittenImage(old(buf.bytes), offset, size, title, v))
  {
    hide VolumeFine, AllWrites, Bitmap, SuperBytes, AssignedAll, PlanVolume, Legal, Assigned, GeometryOf, Addressed;
    var numBlocks := size / BLOCK;
    var g := FindGeometry(numBlocks);
    var bitmapBlocks := g.groups * g.perGroup;
    var logStart := bitmapBlocks + 1;
    var logSize := LogSize(size);
    var laid := LayOut(items, logStart + logSize, g.shift);
    if laid.None? {
      return None;
    }
    var r := laid.value;
    buf.AssignBlocks(offset, r.writes);
    var bitmap := BuildBitmap(r.used, bitmapBlocks);
    if bitmap.None? {
      return None;
    }
    buf.Store(offset + BLOCK, bitmap.value);
    buf.Store(offset + SECTOR, SuperBytes(title, Super(numBlocks, r.used, g, logStart, logSize, r.root, r.indices)));
    buf.Store(offset, Zeros(SECTOR));
    buf.Store(offset + 2 * SECTOR, Zeros(SECTOR));
    return Some(r.used);
  }
}
