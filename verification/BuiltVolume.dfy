/** The finished image, and what holds of it: every block written once, the bitmap and the
    superblock agreeing with the layout, and the guest's walk finding the input tree. */
module BuiltVolume {
  import opened Bytes
  import opened Keys
  import opened Geometry
  import opened NodeCodec
  import opened Inode
  import opened Layout
  import opened Ownership
  import opened VolumePlan
  import opened Image
  import opened Mount
  import opened RoundTrip

  // ----- every write is a block's worth or less

  ghost predicate Small(ws: seq<Write>)
  {
    forall i | 0 <= i < |ws| :: |ws[i].bytes| <= BLOCK
  }

  lemma SmallPieces(base: nat, stream: seq<byte>)
    ensures Small(Pieces(base, stream))
  {
  }

  lemma {:induction false} SmallWrites(l: Loc, parent: nat, name: Option<Key>, shift: nat)
    requires Fine(l, parent) && (name.Some? ==> |name.value| <= MAX_NAME)
    ensures Small(InodesOf(l, parent, name, shift)) && Small(DataOf(l, parent))
    decreases l
  {
    hide DirStream, Blocks, Pieces;
    match l
    case FileLoc(_, content, _, base) => SmallPieces(base, content);
    case DirLoc(_, block, base, children) =>
      SmallPieces(base, DirStream(children, block, parent));
      SmallAll(children, block, shift);
  }

  lemma {:induction false} SmallAll(ls: seq<Loc>, own: nat, shift: nat)
    requires FineAll(ls, own)
    ensures Small(InodesAll(ls, own, shift)) && Small(DataAll(ls, own))
    decreases ls
  {
    hide InodesOf, DataOf;
    if ls != [] {
      NameShort(ls[0], own);
      SmallWrites(ls[0], own, Some(ls[0].name), shift);
      SmallAll(ls[1..], own, shift);
    }
  }

  lemma SmallVolume(v: Volume, shift: nat)
    requires VolumeFine(v)
    ensures Small(AllWrites(v, shift))
  {
    hide InodesOf, DataOf, Pieces, InodeBytes, IndexInode, Blocks, Fine;
    SmallWrites(v.root, v.root.block, None, shift);
    SmallPieces(v.name.base, v.name.stream);
    SmallPieces(v.appSig.base, v.appSig.stream);
    SmallPieces(v.modified.base, v.modified.stream);
    SmallPieces(v.size.base, v.size.stream);
    SmallPieces(v.indices.base, v.indices.stream);
    assert Small(IndexData(v));
    assert Small(IndexInodes(v, shift));
  }

  // ----- a volume that fits

  /** A placed volume that starts where a partition of `size` bytes keeps its data, every
      stream of which one run addresses, and which the partition has room for. */
  ghost predicate Placed(v: Volume, size: nat)
  {
    && VolumeFine(v) && IndicesLaid(v) && Laid(v.root)
    && v.root.block == DataStart(size) && Used(v) <= size / BLOCK < MAX_BLOCKS
  }

  function ShiftFor(size: nat): nat { GeometryOf(size / BLOCK).shift }

  lemma PlacedFine(v: Volume, size: nat)
    requires Placed(v, size)
    ensures VolumeFine(v)
  {
  }

  /** `inodes + data_blocks`, for a volume that fits. */
  ghost function WritesFor(v: Volume, size: nat): seq<Write>
    requires Placed(v, size)
  {
    PlacedFine(v, size);
    AllWrites(v, ShiftFor(size))
  }

  lemma WritesSpan(v: Volume, size: nat)
    requires Placed(v, size)
    ensures DataStart(size) < Used(v) <= size / BLOCK
    ensures Owned(WritesFor(v, size)) == Span(DataStart(size), Used(v))
  {
    hide Owned, Span, AllWrites, VolumeFine, IndicesLaid, Laid, DataStart, Used;
    WritesOwnSpan(v, ShiftFor(size));
  }

  lemma {:induction false} InOwned(ws: seq<Write>, i: nat)
    requires i < |ws|
    ensures Owned(ws)[ws[i].block] >= 1
  {
    assert ws == ws[..i] + [ws[i]] + ws[i + 1..];
    OwnedAppend(ws[..i] + [ws[i]], ws[i + 1..]);
    OwnedAppend(ws[..i], [ws[i]]);
    OneOwned(ws[i]);
  }

  /** The writes go to distinct blocks of the data region, inside the image. */
  lemma WritesDistinct(ws: seq<Write>, start: nat, used: nat)
    requires Owned(ws) == Span(start, used)
    ensures forall i | 0 <= i < |ws| :: start <= ws[i].block < used
    ensures forall i, j | 0 <= i < j < |ws| :: ws[i].block != ws[j].block
  {
    hide Owned, Span;
    forall i | 0 <= i < |ws| ensures start <= ws[i].block < used {
      InOwned(ws, i);
      SpanCount(start, used, ws[i].block);
    }
    forall i, j | 0 <= i < j < |ws| ensures ws[i].block != ws[j].block {
      if ws[i].block == ws[j].block {
        OnlyWriter(ws, i, j);
        SpanCount(start, used, ws[i].block);
      }
    }
  }

  lemma WritesInImage(ws: seq<Write>, start: nat, used: nat, offset: nat, size: nat, length: nat)
    requires Small(ws) && (forall i | 0 <= i < |ws| :: start <= ws[i].block < used)
    requires used <= size / BLOCK && offset + size <= length
    ensures forall i | 0 <= i < |ws| :: InImage(ws[i], offset, length)
  {
    forall i | 0 <= i < |ws| ensures InImage(ws[i], offset, length) {
      assert (ws[i].block + 1) * BLOCK <= size / BLOCK * BLOCK <= size;
    }
  }

  // ----- the regions before the data

  /** The bitmap, the superblock, and the two sectors `mkfs` erases. */
  function Finish(image: seq<byte>, offset: nat, bitmap: seq<byte>, super: seq<byte>): (r: seq<byte>)
    requires |super| == SECTOR && offset + BLOCK + |bitmap| <= |image|
    ensures |r| == |image|
  {
    var marked := Splice(image, offset + BLOCK, bitmap);
    var named := Splice(marked, offset + SECTOR, super);
    Splice(Splice(named, offset, Zeros(SECTOR)), offset + 2 * SECTOR, Zeros(SECTOR))
  }

  lemma FinishKeeps(image: seq<byte>, offset: nat, bitmap: seq<byte>, super: seq<byte>, lo: nat, hi: nat)
    requires |super| == SECTOR && offset + BLOCK + |bitmap| <= |image| && lo <= hi <= |image|
    requires hi <= offset || offset + BLOCK + |bitmap| <= lo
    ensures Finish(image, offset, bitmap, super)[lo..hi] == image[lo..hi]
  {
    hide Splice;
    var marked := Splice(image, offset + BLOCK, bitmap);
    var named := Splice(marked, offset + SECTOR, super);
    var erased := Splice(named, offset, Zeros(SECTOR));
    SpliceElsewhere(image, offset + BLOCK, bitmap, lo, hi);
    SpliceElsewhere(marked, offset + SECTOR, super, lo, hi);
    SpliceElsewhere(named, offset, Zeros(SECTOR), lo, hi);
    SpliceElsewhere(erased, offset + 2 * SECTOR, Zeros(SECTOR), lo, hi);
  }

  lemma FinishWrites(image: seq<byte>, offset: nat, bitmap: seq<byte>, super: seq<byte>)
    requires |super| == SECTOR && offset + BLOCK + |bitmap| <= |image|
    ensures var r := Finish(image, offset, bitmap, super);
            && r[offset + SECTOR..offset + 2 * SECTOR] == super
            && r[offset + BLOCK..offset + BLOCK + |bitmap|] == bitmap
            && r[offset..offset + SECTOR] == Zeros(SECTOR)
            && r[offset + 2 * SECTOR..offset + 3 * SECTOR] == Zeros(SECTOR)
  {
    hide Splice;
    var marked := Splice(image, offset + BLOCK, bitmap);
    var named := Splice(marked, offset + SECTOR, super);
    var erased := Splice(named, offset, Zeros(SECTOR));
    SpliceHere(image, offset + BLOCK, bitmap);
    SpliceHere(marked, offset + SECTOR, super);
    var lo, hi := offset + BLOCK, offset + BLOCK + |bitmap|;
    SpliceElsewhere(marked, offset + SECTOR, super, lo, hi);
    SpliceElsewhere(named, offset, Zeros(SECTOR), lo, hi);
    SpliceElsewhere(erased, offset + 2 * SECTOR, Zeros(SECTOR), lo, hi);
    SpliceElsewhere(named, offset, Zeros(SECTOR), offset + SECTOR, offset + 2 * SECTOR);
    SpliceElsewhere(erased, offset + 2 * SECTOR, Zeros(SECTOR), offset + SECTOR, offset + 2 * SECTOR);
    SpliceHere(named, offset, Zeros(SECTOR));
    SpliceElsewhere(erased, offset + 2 * SECTOR, Zeros(SECTOR), offset, offset + SECTOR);
    SpliceHere(erased, offset + 2 * SECTOR, Zeros(SECTOR));
  }

  function SuperFor(v: Volume, size: nat): Super
  {
    var n := size / BLOCK;
    Super(n, Used(v), GeometryOf(n), BitmapBlocks(n) + 1, LogSize(size), v.root.block, v.indices.block)
  }

  lemma RoomForAll(v: Volume, size: nat, offset: nat, length: nat)
    requires Placed(v, size) && offset + size <= length
    ensures var ws := WritesFor(v, size);
            && (forall i | 0 <= i < |ws| :: InImage(ws[i], offset, length))
            && (forall i | 0 <= i < |ws| :: ws[i].block >= DataStart(size))
            && (forall i, j | 0 <= i < j < |ws| :: ws[i].block != ws[j].block)
    ensures offset + BLOCK + BitmapBlocks(size / BLOCK) * BLOCK <= offset + DataStart(size) * BLOCK <= offset + size
  {
    hide Owned, Span, AllWrites, VolumeFine, IndicesLaid, Laid, LogSize, BitmapBlocks, Used;
    WritesSpan(v, size);
    SmallVolume(v, ShiftFor(size));
    WritesDistinct(WritesFor(v, size), DataStart(size), Used(v));
    WritesInImage(WritesFor(v, size), DataStart(size), Used(v), offset, size, length);
  }

  /** The image `make_bfs` leaves in the buffer. */
  ghost function BuiltImage(buf: seq<byte>, offset: nat, size: nat, title: seq<byte>, v: Volume): (r: seq<byte>)
    requires Placed(v, size) && offset + size <= |buf|
    ensures |r| == |buf|
  {
    RoomForAll(v, size, offset, |buf|);
    Finish(Apply(buf, offset, WritesFor(v, size)), offset, Bitmap(Used(v), BitmapBlocks(size / BLOCK)),
           SuperBytes(title, SuperFor(v, size)))
  }

  /** Nothing outside the partition changes. */
  lemma OutsideUntouched(buf: seq<byte>, offset: nat, size: nat, title: seq<byte>, v: Volume)
    requires Placed(v, size) && offset + size <= |buf|
    ensures var r := BuiltImage(buf, offset, size, title, v);
            r[..offset] == buf[..offset] && r[offset + size..] == buf[offset + size..]
  {
    hide Apply, Finish, WritesFor, Placed, SuperFor, Bitmap, SuperBytes, BitmapBlocks, DataStart;
    RoomForAll(v, size, offset, |buf|);
    RoomForAll(v, size, offset, offset + size);
    var ws := WritesFor(v, size);
    var image := Apply(buf, offset, ws);
    var bitmap, super := Bitmap(Used(v), BitmapBlocks(size / BLOCK)), SuperBytes(title, SuperFor(v, size));
    FinishKeeps(image, offset, bitmap, super, 0, offset);
    FinishKeeps(image, offset, bitmap, super, offset + size, |buf|);
    ApplyBelow(buf, offset, ws, 0, 0, offset);
    ApplyPast(buf, offset, ws, size);
    assert image[0..offset] == image[..offset] && buf[0..offset] == buf[..offset];
    var r := Finish(image, offset, bitmap, super);
    assert r[0..offset] == r[..offset] && r[offset + size..|buf|] == r[offset + size..];
    assert image[offset + size..|buf|] == image[offset + size..];
  }

  lemma {:induction false} ApplyPast(buf: seq<byte>, offset: nat, ws: seq<Write>, size: nat)
    requires forall i | 0 <= i < |ws| :: InImage(ws[i], offset, offset + size)
    requires offset + size <= |buf|
    ensures forall i | 0 <= i < |ws| :: InImage(ws[i], offset, |buf|)
    ensures Apply(buf, offset, ws)[offset + size..] == buf[offset + size..]
    decreases |ws|
  {
    hide Splice;
    if ws != [] {
      var n := |ws| - 1;
      ApplyPast(buf, offset, ws[..n], size);
      assert InImage(ws[n], offset, offset + size);
      var before := Apply(buf, offset, ws[..n]);
      SpliceElsewhere(before, offset + ws[n].block * BLOCK, ws[n].bytes, offset + size, |buf|);
      assert before[offset + size..|buf|] == before[offset + size..];
      assert Apply(buf, offset, ws)[offset + size..|buf|] == Apply(buf, offset, ws)[offset + size..];
    }
  }

  // ----- what the guest finds in it

  /** `vol` is the partition of a built image, as the guest sees it. */
  ghost predicate IsVolume(vol: seq<byte>, buf: seq<byte>, offset: nat, size: nat, title: seq<byte>, v: Volume)
  {
    && Placed(v, size) && offset + size <= |buf| && |vol| == size
    && BuiltImage(buf, offset, size, title, v)[offset..offset + size] == vol
  }

  /** The volume's regions: the superblock between two erased sectors, the bitmap, and every write
      where it belongs. */
  ghost predicate Regions(vol: seq<byte>, size: nat, title: seq<byte>, v: Volume)
    requires Placed(v, size)
  {
    && |vol| == size && BLOCK + BitmapBlocks(size / BLOCK) * BLOCK <= size
    && vol[SECTOR..2 * SECTOR] == SuperBytes(title, SuperFor(v, size))
    && vol[0..SECTOR] == Zeros(SECTOR) && vol[2 * SECTOR..3 * SECTOR] == Zeros(SECTOR)
    && vol[BLOCK..BLOCK + BitmapBlocks(size / BLOCK) * BLOCK] == Bitmap(Used(v), BitmapBlocks(size / BLOCK))
    && AllHeld(vol, WritesFor(v, size))
  }

  lemma HeldInPartition(image: seq<byte>, offset: nat, size: nat, w: Write)
    requires Holds(image, offset, w) && offset + size <= |image| && w.block * BLOCK + |w.bytes| <= size
    ensures Holds(image[offset..offset + size], 0, w)
  {
    SliceOfSlice(image, offset, offset + size, w.block * BLOCK, w.block * BLOCK + |w.bytes|);
  }

  lemma AllWritesHeld(buf: seq<byte>, offset: nat, size: nat, title: seq<byte>, v: Volume)
    requires Placed(v, size) && offset + size <= |buf|
    ensures AllHeld(BuiltImage(buf, offset, size, title, v)[offset..offset + size], WritesFor(v, size))
  {
    hide Apply, Finish, WritesFor, Placed, SuperFor, Bitmap, SuperBytes, BitmapBlocks, DataStart;
    RoomForAll(v, size, offset, |buf|);
    RoomForAll(v, size, offset, offset + size);
    var ws := WritesFor(v, size);
    var image := Apply(buf, offset, ws);
    var bitmap, super := Bitmap(Used(v), BitmapBlocks(size / BLOCK)), SuperBytes(title, SuperFor(v, size));
    var r := Finish(image, offset, bitmap, super);
    forall i | 0 <= i < |ws| ensures Holds(r[offset..offset + size], 0, ws[i]) {
      ApplyHolds(buf, offset, ws, i);
      var lo := offset + ws[i].block * BLOCK;
      assert InImage(ws[i], offset, offset + size) && ws[i].block * BLOCK >= DataStart(size) * BLOCK;
      FinishKeeps(image, offset, bitmap, super, lo, lo + |ws[i].bytes|);
      HeldInPartition(r, offset, size, ws[i]);
    }
  }

  lemma VolumeRegions(vol: seq<byte>, buf: seq<byte>, offset: nat, size: nat, title: seq<byte>, v: Volume)
    requires IsVolume(vol, buf, offset, size, title, v)
    ensures Placed(v, size) && Regions(vol, size, title, v)
  {
    hide Apply, Finish, WritesFor, Placed, SuperFor, Bitmap, SuperBytes, BitmapBlocks, DataStart, AllHeld;
    RoomForAll(v, size, offset, |buf|);
    AllWritesHeld(buf, offset, size, title, v);
    var image, blocks := Apply(buf, offset, WritesFor(v, size)), BitmapBlocks(size / BLOCK);
    var bitmap, super := Bitmap(Used(v), blocks), SuperBytes(title, SuperFor(v, size));
    FinishWrites(image, offset, bitmap, super);
    var r := Finish(image, offset, bitmap, super);
    SliceOfSlice(r, offset, offset + size, SECTOR, 2 * SECTOR);
    SliceOfSlice(r, offset, offset + size, 0, SECTOR);
    SliceOfSlice(r, offset, offset + size, 2 * SECTOR, 3 * SECTOR);
    SliceOfSlice(r, offset, offset + size, BLOCK, BLOCK + blocks * BLOCK);
  }
}
