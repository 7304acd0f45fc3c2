/** The whole volume's layout: the tree, then the four indices and the directory that names
    them. */
module VolumePlan {
  import opened Bytes
  import opened Keys
  import opened IndexTree
  import opened Inode
  import opened Layout
  import opened Ownership

  /** An index's inode block, its tree's first block and its tree. */
  datatype IndexLoc = IndexLoc(block: nat, base: nat, stream: seq<byte>)

  function IndexEnd(l: IndexLoc): nat { l.base + Blocks(|l.stream|) }

  function PlaceIndex(next: nat, stream: seq<byte>): IndexLoc
  {
    IndexLoc(next, next + 1, stream)
  }

  /** A placed volume: the root, then name, BEOS:APP_SIG, last_modified and size, then the
      indices directory. */
  datatype Volume = Volume(root: Loc, name: IndexLoc, appSig: IndexLoc, modified: IndexLoc, size: IndexLoc,
                           indices: IndexLoc)

  const APP_SIG: Key := [66, 69, 79, 83, 58, 65, 80, 80, 95, 83, 73, 71]
  const LAST_MODIFIED: Key := [108, 97, 115, 116, 95, 109, 111, 100, 105, 102, 105, 101, 100]
  const NAME: Key := [110, 97, 109, 101]
  const SIZE: Key := [115, 105, 122, 101]

  /** What the indices directory names. */
  function IndexTable(name: nat, appSig: nat, modified: nat, size: nat): (s: seq<Entry>)
    ensures forall i | 0 <= i < |s| :: |s[i].key| <= MAX_NAME
  {
    [Entry(APP_SIG, appSig), Entry(LAST_MODIFIED, modified), Entry(NAME, name), Entry(SIZE, size)]
  }

  /** `IndexBytes` for pairs with names the format allows. */
  ghost function IndexStream(dataType: nat, pairs: seq<Entry>): (s: seq<byte>)
    requires ShortKeys(pairs)
  {
    IndexIsBuildable(dataType, pairs);
    IndexBytes(dataType, pairs)
  }

  ghost predicate ShortKeys(pairs: seq<Entry>)
  {
    forall i | 0 <= i < |pairs| :: |pairs[i].key| <= MAX_NAME
  }

  lemma {:induction false} NamesShort(ls: seq<Loc>)
    requires ShortAll(ls)
    ensures ShortKeys(NamesOf(ls)) && ShortKeys(SizesOf(ls)) && ShortKeys(TimesOf(ls))
    decreases ls
  {
    if ls != [] {
      NamesShort(ls[1..]);
      if ls[0].DirLoc? {
        NamesShort(ls[0].children);
      }
    }
  }

  /** Short names all the way down. */
  ghost predicate ShortAll(ls: seq<Loc>)
    decreases ls
  {
    forall i | 0 <= i < |ls| :: |ls[i].name| <= MAX_NAME && (ls[i].DirLoc? ==> ShortAll(ls[i].children))
  }

  lemma {:induction false} LocateShort(items: seq<Item>, own: nat, next: nat)
    requires Legal(items)
    ensures ShortAll(Locate(items, own, next).locs)
    decreases items
  {
    hide DirStream, Blocks;
    if items != [] {
      var first := LocateOne(items[0], own, next);
      if items[0].Dir? {
        LocateShort(items[0].children, next, next + 1);
      }
      LocateShort(items[1..], own, first.1);
    }
  }

  /** The root directory: block `start`, its children behind it, its tree last. */
  ghost function RootOf(items: seq<Item>, start: nat): (root: Loc)
    requires Legal(items)
    ensures root.DirLoc? && ShortNames(root.children) && root.block == start
  {
    var kids := Locate(items, start, start + 1);
    LegalShort(items, kids.locs);
    DirLoc([], start, kids.next, kids.locs)
  }

  ghost function PlanVolume(items: seq<Item>, start: nat): (v: Volume)
    requires Legal(items)
    ensures v.root == RootOf(items, start)
  {
    var root := RootOf(items, start);
    LocateShort(items, start, start + 1);
    NamesShort(root.children);
    var name := PlaceIndex(Extent(root, start), IndexStream(STRING_TYPE, NamesOf(root.children)));
    var appSig := PlaceIndex(IndexEnd(name), IndexStream(STRING_TYPE, []));
    var modified := PlaceIndex(IndexEnd(appSig), IndexStream(INT64_TYPE, TimesOf(root.children)));
    var size := PlaceIndex(IndexEnd(modified), IndexStream(INT64_TYPE, SizesOf(root.children)));
    var table := IndexTable(name.block, appSig.block, modified.block, size.block);
    Volume(root, name, appSig, modified, size, PlaceIndex(IndexEnd(size), IndexStream(STRING_TYPE, table)))
  }

  function Used(v: Volume): nat { IndexEnd(v.indices) }

  /** Every stream fits one run; otherwise the builder refuses. */
  ghost predicate VolumeFine(v: Volume)
  {
    && v.root.DirLoc? && Fine(v.root, v.root.block)
    && Blocks(|v.name.stream|) <= MAX_RUN && Blocks(|v.appSig.stream|) <= MAX_RUN
    && Blocks(|v.modified.stream|) <= MAX_RUN && Blocks(|v.size.stream|) <= MAX_RUN
    && Blocks(|v.indices.stream|) <= MAX_RUN
  }

  // ----- its writes

  const INDEX_MODE: nat := 0x2000_0000 + 0x4000
  const STR_INDEX: nat := 0x0100_0000
  const LONG_LONG_INDEX: nat := 0x0020_0000
  const TYPE_CSTR: nat := 0x4353_5452
  const TYPE_LLNG: nat := 0x4C4C_4E47

  ghost function IndexInode(l: IndexLoc, parent: nat, mode: nat, typeCode: nat, shift: nat): (n: Inode)
    requires Blocks(|l.stream|) <= MAX_RUN && mode < TWO32
    ensures ValidInode(n)
  {
    var runs := [RunBytes(l.base, Blocks(|l.stream|), shift)];
    Inode(RunBytes(l.block, 1, shift), mode, RunBytes(parent, 1, shift), |l.stream|, runs, CoveredBytes(runs),
          None, 0, typeCode)
  }

  ghost function IndexInodes(v: Volume, shift: nat): (ws: seq<Write>)
    requires VolumeFine(v)
    ensures |ws| == 5
  {
    var root := v.indices.block;
    [Write(root, InodeBytes(IndexInode(v.indices, root, INDEX_MODE + STR_INDEX + 0x1C0, 0, shift))),
     Write(v.name.block, InodeBytes(IndexInode(v.name, root, INDEX_MODE + STR_INDEX, TYPE_CSTR, shift))),
     Write(v.appSig.block, InodeBytes(IndexInode(v.appSig, root, INDEX_MODE + STR_INDEX, TYPE_CSTR, shift))),
     Write(v.modified.block, InodeBytes(IndexInode(v.modified, root, INDEX_MODE + LONG_LONG_INDEX, TYPE_LLNG, shift))),
     Write(v.size.block, InodeBytes(IndexInode(v.size, root, INDEX_MODE + LONG_LONG_INDEX, TYPE_LLNG, shift)))]
  }

  function IndexData(v: Volume): seq<Write>
  {
    Pieces(v.name.base, v.name.stream) + Pieces(v.appSig.base, v.appSig.stream) +
    Pieces(v.modified.base, v.modified.stream) + Pieces(v.size.base, v.size.stream) +
    Pieces(v.indices.base, v.indices.stream)
  }

  ghost function AllInodes(v: Volume, shift: nat): seq<Write>
    requires VolumeFine(v)
  {
    InodesOf(v.root, v.root.block, None, shift) + IndexInodes(v, shift)
  }

  ghost function AllData(v: Volume): seq<Write>
    requires VolumeFine(v)
  {
    DataOf(v.root, v.root.block) + IndexData(v)
  }

  /** `inodes + data_blocks`. */
  ghost function AllWrites(v: Volume, shift: nat): seq<Write>
    requires VolumeFine(v)
  {
    AllInodes(v, shift) + AllData(v)
  }

  // ----- ownership

  lemma RootLaid(items: seq<Item>, start: nat)
    requires Legal(items)
    ensures Laid(RootOf(items, start))
  {
    hide DirStream, Blocks;
    LocateLaid(items, start, start + 1);
  }

  /** The indices follow one another. */
  ghost predicate IndicesLaid(v: Volume)
  {
    && v.root.DirLoc? && ShortNames(v.root.children)
    && v.name == PlaceIndex(Extent(v.root, v.root.block), v.name.stream)
    && v.appSig == PlaceIndex(IndexEnd(v.name), v.appSig.stream)
    && v.modified == PlaceIndex(IndexEnd(v.appSig), v.modified.stream)
    && v.size == PlaceIndex(IndexEnd(v.modified), v.size.stream)
    && v.indices == PlaceIndex(IndexEnd(v.size), v.indices.stream)
  }

  lemma IndexSpan(l: IndexLoc, next: nat)
    requires l == PlaceIndex(next, l.stream)
    ensures next < IndexEnd(l)
    ensures multiset{l.block} + Owned(Pieces(l.base, l.stream)) == Span(next, IndexEnd(l))
  {
    hide Owned, Span;
    ConsecutiveOwned(Pieces(l.base, l.stream), l.base);
    SpanOne(next);
    SpanJoin(next, next + 1, IndexEnd(l));
  }

  lemma IndexDataOwned(v: Volume)
    ensures Owned(IndexData(v)) ==
            Owned(Pieces(v.name.base, v.name.stream)) + Owned(Pieces(v.appSig.base, v.appSig.stream)) +
            Owned(Pieces(v.modified.base, v.modified.stream)) + Owned(Pieces(v.size.base, v.size.stream)) +
            Owned(Pieces(v.indices.base, v.indices.stream))
  {
    hide Owned, Pieces;
    var a, b, c := Pieces(v.name.base, v.name.stream), Pieces(v.appSig.base, v.appSig.stream), Pieces(v.modified.base, v.modified.stream);
    var d, e := Pieces(v.size.base, v.size.stream), Pieces(v.indices.base, v.indices.stream);
    OwnedAppend(a + b + c + d, e);
    OwnedAppend(a + b + c, d);
    OwnedAppend(a + b, c);
    OwnedAppend(a, b);
  }

  lemma IndexInodesOwned(v: Volume, shift: nat)
    requires VolumeFine(v)
    ensures Owned(IndexInodes(v, shift)) ==
            multiset{v.indices.block} + multiset{v.name.block} + multiset{v.appSig.block} +
            multiset{v.modified.block} + multiset{v.size.block}
  {
    hide InodeBytes, IndexInode, VolumeFine, Owned;
    var ws := IndexInodes(v, shift);
    FiveOwned(ws[0], ws[1], ws[2], ws[3], ws[4]);
    assert ws == [ws[0], ws[1], ws[2], ws[3], ws[4]];
  }

  lemma FiveOwned(a: Write, b: Write, c: Write, d: Write, e: Write)
    ensures Owned([a, b, c, d, e]) ==
            multiset{a.block} + multiset{b.block} + multiset{c.block} + multiset{d.block} + multiset{e.block}
  {
    hide Owned;
    assert [a, b, c, d, e] == [a] + [b] + [c] + [d] + [e];
    OwnedAppend([a] + [b] + [c] + [d], [e]);
    OwnedAppend([a] + [b] + [c], [d]);
    OwnedAppend([a] + [b], [c]);
    OwnedAppend([a], [b]);
    OneOwned(a);
    OneOwned(b);
    OneOwned(c);
    OneOwned(d);
    OneOwned(e);
  }

  /** Every block from the first data block to the last used one is written exactly once, and
      no other block is written at all. */
  lemma WritesOwnSpan(v: Volume, shift: nat)
    requires VolumeFine(v) && IndicesLaid(v) && Laid(v.root)
    ensures v.root.block < Used(v)
    ensures Owned(AllWrites(v, shift)) == Span(v.root.block, Used(v))
  {
    hide Owned, Span, InodesOf, DataOf, IndexInodes, IndexData, Pieces, Extent, Blocks, Laid, Fine;
    var start := v.root.block;
    OwnsExtent(v.root, start, None, shift);
    IndexSpan(v.name, Extent(v.root, start));
    IndexSpan(v.appSig, IndexEnd(v.name));
    IndexSpan(v.modified, IndexEnd(v.appSig));
    IndexSpan(v.size, IndexEnd(v.modified));
    IndexSpan(v.indices, IndexEnd(v.size));
    IndexDataOwned(v);
    IndexInodesOwned(v, shift);
    OwnedAppend(AllInodes(v, shift), AllData(v));
    OwnedAppend(InodesOf(v.root, start, None, shift), IndexInodes(v, shift));
    OwnedAppend(DataOf(v.root, start), IndexData(v));
    SpanJoin(start, Extent(v.root, start), IndexEnd(v.name));
    SpanJoin(start, IndexEnd(v.name), IndexEnd(v.appSig));
    SpanJoin(start, IndexEnd(v.appSig), IndexEnd(v.modified));
    SpanJoin(start, IndexEnd(v.modified), IndexEnd(v.size));
    SpanJoin(start, IndexEnd(v.size), IndexEnd(v.indices));
  }
}
