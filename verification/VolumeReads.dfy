/** What the guest finds in a built volume: it mounts, its bitmap and its count agree with the
    layout, and every path reads as in the input tree. */
module VolumeReads {
  import opened Bytes
  import opened Keys
  import opened Geometry
  import opened Inode
  import opened Layout
  import opened Ownership
  import opened VolumePlan
  import opened Image
  import opened Mount
  import opened VolumeReader
  import opened RoundTrip
  import opened BuiltVolume

  // ----- the layout of an input tree

  /** The input's names are legal, every stream fits one run, and the partition has room. */
  ghost predicate Fitting(items: seq<Item>, size: nat)
  {
    && Legal(items) && VolumeFine(PlanVolume(items, DataStart(size)))
    && Used(PlanVolume(items, DataStart(size))) <= size / BLOCK < MAX_BLOCKS
  }

  lemma FittingIsPlaced(items: seq<Item>, size: nat)
    requires Fitting(items, size)
    ensures Placed(PlanVolume(items, DataStart(size)), size)
  {
    hide VolumeFine, Laid, DataStart, IndexStream, Blocks, DirStream;
    RootLaid(items, DataStart(size));
  }

  // ----- the superblock

  function MountOf(v: Volume, size: nat): Mounted
  {
    Mounted(size / BLOCK, Used(v), ShiftFor(size), v.root.block, v.indices.block)
  }

  lemma IndicesFollow(v: Volume)
    requires IndicesLaid(v)
    ensures v.name.block == Extent(v.root, v.root.block)
    ensures v.name.block < v.appSig.block < v.modified.block < v.size.block < v.indices.block < Used(v)
  {
    hide Extent, Blocks, ShortNames;
  }

  lemma IndicesInside(v: Volume, size: nat)
    requires Placed(v, size)
    ensures v.root.block < v.name.block < v.appSig.block < v.modified.block < v.size.block < v.indices.block < Used(v)
    ensures Extent(v.root, v.root.block) == v.name.block
    ensures 513 <= DataStart(size)
  {
    hide IndicesLaid, Laid, BitmapBlocks, Blocks, Extent, Fine, DirStream, Used;
    IndicesFollow(v);
    RootInside(v.root);
  }

  lemma RootInside(l: Loc)
    requires Laid(l) && Fine(l, l.block)
    ensures l.block < Extent(l, l.block)
  {
    hide Owned, Span, Extent;
    OwnsExtent(l, l.block, None, 14);
  }

  /** The guest mounts the volume, with the builder's figures. */
  lemma Mounts(vol: seq<byte>, size: nat, title: seq<byte>, v: Volume)
    requires Placed(v, size) && Regions(vol, size, title, v)
    ensures Open(vol) == Some(MountOf(v, size))
    ensures Mountable(vol, MountOf(v, size))
  {
    hide Placed, Regions, BitmapBlocks, SuperBytes, Open, GeometryOf, Pow2, CeilDiv, Used, DataStart;
    IndicesInside(v, size);
    GeometryFits(size / BLOCK);
    SuperRegion(vol, size, title, v);
    OpenRoundTrip(vol, title, SuperFor(v, size));
  }

  lemma SuperRegion(vol: seq<byte>, size: nat, title: seq<byte>, v: Volume)
    requires Placed(v, size) && Regions(vol, size, title, v)
    ensures |vol| == size && vol[SECTOR..2 * SECTOR] == SuperBytes(title, SuperFor(v, size))
    ensures v.root.block == DataStart(size) && Used(v) <= size / BLOCK < MAX_BLOCKS
  {
    hide VolumeFine, Laid, BitmapBlocks, SuperBytes, Bitmap, AllHeld, IndicesLaid, Used, DataStart;
  }

  lemma ErasedRegions(vol: seq<byte>, size: nat, title: seq<byte>, v: Volume)
    requires Placed(v, size) && Regions(vol, size, title, v)
    ensures |vol| >= 3 * SECTOR && vol[0..SECTOR] == Zeros(SECTOR) && vol[2 * SECTOR..3 * SECTOR] == Zeros(SECTOR)
  {
    hide Placed, BitmapBlocks, SuperBytes, Bitmap, AllHeld;
  }

  /** A built volume is clean; its log is empty and fills the blocks between the bitmap and the
      data; its name is the first 31 bytes of the label; and the sectors before and behind the
      superblock are erased. */
  lemma BuiltDetails(vol: seq<byte>, size: nat, title: seq<byte>, v: Volume)
    requires Placed(v, size) && Regions(vol, size, title, v)
    ensures |vol| >= 3 * SECTOR && Open(vol).Some?
    ensures var m, d := Open(vol).value, DetailsOf(vol);
            && d.state == 0x434C_454E && d.logStart == d.logEnd == ToBlock(d.log, m.shift)
            && ToBlock(d.log, m.shift) == 1 + BitmapBlocks(size / BLOCK) && d.logStart + d.log.length == m.root
            && d.log.length == (if m.numBlocks <= 20480 then 512 else if size > 0x4000_0000 then 4096 else 2048)
            && |d.name| == 32 && forall i | 0 <= i < 32 :: d.name[i] == if i < 31 && i < |title| then title[i] else 0
    ensures forall i | 0 <= i < SECTOR || 2 * SECTOR <= i < 3 * SECTOR :: vol[i] == 0
  {
    hide Placed, Regions, BitmapBlocks, SuperBytes, Open, GeometryOf, Pow2, CeilDiv, Used, DetailsOf, LeRun, ToBlock;
    Mounts(vol, size, title, v);
    IndicesInside(v, size);
    GeometryFits(size / BLOCK);
    SuperRegion(vol, size, title, v);
    ErasedRegions(vol, size, title, v);
    DetailsRoundTrip(vol, title, SuperFor(v, size));
    forall i | 0 <= i < SECTOR || 2 * SECTOR <= i < 3 * SECTOR ensures vol[i] == 0 {
      assert i < SECTOR ==> vol[i] == vol[0..SECTOR][i];
      assert i >= SECTOR ==> vol[i] == vol[2 * SECTOR..3 * SECTOR][i - 2 * SECTOR];
    }
  }

  /** A block is marked in the volume's bitmap exactly when it lies below the count of used
      blocks the superblock gives. */
  lemma BitmapAgrees(vol: seq<byte>, size: nat, title: seq<byte>, v: Volume, b: nat)
    requires Placed(v, size) && Regions(vol, size, title, v) && b < size / BLOCK
    ensures Open(vol).Some? && BLOCK + BitmapBlocks(size / BLOCK) * BLOCK <= |vol|
    ensures b < BitmapBlocks(size / BLOCK) * BITS_PER_BLOCK
    ensures Marked(vol[BLOCK..BLOCK + BitmapBlocks(size / BLOCK) * BLOCK], b) <==> b < Open(vol).value.used
  {
    hide VolumeFine, Laid, SuperBytes, Bitmap, AllHeld, Open, GeometryOf, IndicesLaid, Used, Pow2, CeilDiv;
    Mounts(vol, size, title, v);
    GeometryFits(size / BLOCK);
    BitmapMarks(Used(v), BitmapBlocks(size / BLOCK), b);
  }

  // ----- every path

  lemma RootHeld(vol: seq<byte>, v: Volume, shift: nat)
    requires VolumeFine(v) && AllHeld(vol, AllWrites(v, shift))
    ensures StoredLoc(vol, v.root, v.root.block, None, shift)
    ensures AllHeld(vol, IndexInodes(v, shift)) && AllHeld(vol, IndexData(v))
  {
    hide AllHeld, Fine, InodesOf, DataOf, IndexInodes, IndexData;
    HeldParts(vol, AllInodes(v, shift), AllData(v));
    HeldParts(vol, InodesOf(v.root, v.root.block, None, shift), IndexInodes(v, shift));
    HeldParts(vol, DataOf(v.root, v.root.block), IndexData(v));
  }

  lemma RootMatches(items: seq<Item>, start: nat)
    requires Legal(items)
    ensures Matches(RootOf(items, start), Dir([], items))
  {
    hide DirStream, Blocks;
    forall i | 0 <= i < |items| ensures Matches(RootOf(items, start).children[i], items[i]) {
      LocateMatches(items, start, start + 1, i);
    }
  }

  lemma RootStanding(vol: seq<byte>, size: nat, title: seq<byte>, v: Volume, items: seq<Item>)
    requires Placed(v, size) && Regions(vol, size, title, v) && Matches(v.root, Dir([], items))
    ensures Standing(vol, MountOf(v, size), v.root, Dir([], items), v.root.block, None)
  {
    hide Laid, BitmapBlocks, SuperBytes, Bitmap, AllHeld, Open, GeometryOf, Matches, AllWrites, Extent, Fine;
    Mounts(vol, size, title, v);
    IndicesInside(v, size);
    RootHeld(vol, v, ShiftFor(size));
    RootInside(v.root);
  }

  /** The whole volume: mounted and walked, it is the input tree, every path and every byte. */
  lemma VolumeIsTree(vol: seq<byte>, size: nat, title: seq<byte>, v: Volume, items: seq<Item>, isOwner: bool, path: seq<Key>)
    requires Placed(v, size) && Regions(vol, size, title, v) && Matches(v.root, Dir([], items))
    ensures Open(vol).Some?
    ensures WalkFrom(vol, Open(vol).value, Open(vol).value.root, isOwner, path) == Seek([Dir([], items)], path)
  {
    hide Placed, Regions, Matches, Standing, Open, WalkFrom, Seek;
    Mounts(vol, size, title, v);
    RootStanding(vol, size, title, v, items);
    var m := MountOf(v, size);
    assert Trail(vol, m, [v.root], [Dir([], items)]) by {
      assert ParentOf([v.root], 0) == v.root.block && InodeName([v.root], 0) == None;
    }
    WalkIsSeek(vol, m, [v.root], [Dir([], items)], isOwner, path);
  }

  /** The same, from the builder's input and the image it leaves. */
  lemma BuiltVolumeReads(buf: seq<byte>, offset: nat, size: nat, title: seq<byte>, items: seq<Item>, vol: seq<byte>,
                         isOwner: bool, path: seq<Key>)
    requires Fitting(items, size)
    requires IsVolume(vol, buf, offset, size, title, PlanVolume(items, DataStart(size)))
    ensures Open(vol).Some?
    ensures WalkFrom(vol, Open(vol).value, Open(vol).value.root, isOwner, path) == Seek([Dir([], items)], path)
  {
    hide Placed, Regions, Matches, Open, WalkFrom, Seek, IsVolume;
    var v := PlanVolume(items, DataStart(size));
    VolumeRegions(vol, buf, offset, size, title, v);
    RootMatches(items, DataStart(size));
    VolumeIsTree(vol, size, title, v, items, isOwner, path);
  }
}
