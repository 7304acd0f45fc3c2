/** Where `make_bfs` puts everything: the bump allocator's walk of the input tree, as a tree of
    placed files and directories, and the block writes that walk makes. */
module Layout {
  import opened Bytes
  import opened Keys
  import opened NodeCodec
  import opened DirectoryTree
  import opened DirectoryStream
  import opened Inode

  // ----- the input

  datatype Item =
    | File(name: Key, content: seq<byte>)
    | Dir(name: Key, children: seq<Item>)

  const DOT: Key := [46]
  const DOTDOT: Key := [46, 46]

  predicate LegalName(name: Key)
  {
    |name| <= MAX_NAME && name != DOT && name != DOTDOT
  }

  /** Entries the format allows: short names, distinct within their directory, and not the two
      every directory carries. */
  ghost predicate Legal(items: seq<Item>)
    decreases items
  {
    && (forall i | 0 <= i < |items| :: LegalName(items[i].name))
    && (forall i, j | 0 <= i < j < |items| :: items[i].name != items[j].name)
    && (forall i | 0 <= i < |items| :: items[i].Dir? ==> Legal(items[i].children))
  }

  // ----- placed files and directories

  /** A file's inode block and first data block; a directory's inode block, its tree's first
      block, and its children, which lie between the two. */
  datatype Loc =
    | FileLoc(name: Key, content: seq<byte>, block: nat, base: nat)
    | DirLoc(name: Key, block: nat, base: nat, children: seq<Loc>)

  const MAX_RUN: nat := 65535

  function Blocks(length: nat): nat
  {
    (length + BLOCK - 1) / BLOCK
  }

  /** One entry per child, then the directory itself and its parent. */
  function Table(children: seq<Loc>, own: nat, parent: nat): (s: seq<Entry>)
    ensures |s| == |children| + 2
  {
    seq(|children|, i requires 0 <= i < |children| => Entry(children[i].name, children[i].block)) +
    [Entry(DOT, own), Entry(DOTDOT, parent)]
  }

  ghost predicate ShortNames(children: seq<Loc>)
  {
    forall i | 0 <= i < |children| :: |children[i].name| <= MAX_NAME
  }

  lemma TableBuildable(children: seq<Loc>, own: nat, parent: nat)
    requires ShortNames(children)
    ensures Buildable(Sort(STRING_TYPE, Table(children, own, parent)))
  {
    var table := Table(children, own, parent);
    var sorted := Sort(STRING_TYPE, table);
    InMultiset(sorted, table);
    forall i | 0 <= i < |sorted| ensures |KeysOf(sorted)[i]| <= MAX_NAME {
      assert sorted[i] in table;
      var j :| 0 <= j < |table| && table[j] == sorted[i];
    }
  }

  /** The directory's sorted table, and the stream its inode's run holds. */
  ghost function Entries(children: seq<Loc>, own: nat, parent: nat): (s: seq<Entry>)
    requires ShortNames(children)
    ensures Buildable(s)
  {
    TableBuildable(children, own, parent);
    Sort(STRING_TYPE, Table(children, own, parent))
  }

  ghost function DirStream(children: seq<Loc>, own: nat, parent: nat): seq<byte>
    requires ShortNames(children)
  {
    TreeBytes(Entries(children, own, parent))
  }

  /** The block after the last one an entry occupies. */
  ghost function Extent(l: Loc, parent: nat): nat
    requires l.DirLoc? ==> ShortNames(l.children)
  {
    match l
    case FileLoc(_, content, _, base) => base + Blocks(|content|)
    case DirLoc(_, block, base, children) => base + Blocks(|DirStream(children, block, parent)|)
  }

  /** Names are short throughout, and every stream fits one run. */
  ghost predicate Fine(l: Loc, parent: nat)
    decreases l
  {
    && |l.name| <= MAX_NAME
    && match l
       case FileLoc(_, content, _, _) => Blocks(|content|) <= MAX_RUN
       case DirLoc(_, block, _, children) =>
         ShortNames(children) && Blocks(|DirStream(children, block, parent)|) <= MAX_RUN &&
         forall i | 0 <= i < |children| :: Fine(children[i], block)
  }

  lemma NameShort(l: Loc, parent: nat)
    requires Fine(l, parent)
    ensures |l.name| <= MAX_NAME
  {
  }

  ghost predicate FineAll(ls: seq<Loc>, own: nat)
  {
    forall i | 0 <= i < |ls| :: Fine(ls[i], own)
  }

  // ----- the bump allocator's walk

  datatype Located = Located(locs: seq<Loc>, next: nat)

  /** Each child takes its inode block, then its data or its subtree; a directory's own tree
      follows its children. */
  ghost function Locate(items: seq<Item>, own: nat, next: nat): (r: Located)
    requires Legal(items)
    ensures |r.locs| == |items| && forall i | 0 <= i < |items| :: r.locs[i].name == items[i].name
    decreases items
  {
    if items == [] then Located([], next)
    else
      var first := LocateOne(items[0], own, next);
      var rest := Locate(items[1..], own, first.1);
      Located([first.0] + rest.locs, rest.next)
  }

  ghost function LocateOne(item: Item, own: nat, next: nat): (r: (Loc, nat))
    requires item.Dir? ==> Legal(item.children)
    ensures r.0.name == item.name
    decreases item
  {
    match item
    case File(name, content) => (FileLoc(name, content, next, next + 1), next + 1 + Blocks(|content|))
    case Dir(name, children) =>
      var kids := Locate(children, next, next + 1);
      LegalShort(children, kids.locs);
      (DirLoc(name, next, kids.next, kids.locs),
       kids.next + Blocks(|DirStream(kids.locs, next, own)|))
  }

  lemma LegalShort(items: seq<Item>, locs: seq<Loc>)
    requires Legal(items) && |locs| == |items| && forall i | 0 <= i < |items| :: locs[i].name == items[i].name
    ensures ShortNames(locs)
  {
    assert forall i | 0 <= i < |items| :: LegalName(items[i].name);
  }

  lemma LocateNext(items: seq<Item>, own: nat, next: nat)
    requires Legal(items) && items != []
    ensures LegalName(items[0].name) && (items[0].Dir? ==> Legal(items[0].children)) && Legal(items[1..])
    ensures LocateOne(items[0], own, next).0.name == items[0].name && LocateOne(items[0], own, next).0.block == next
    ensures Locate(items, own, next) ==
            Located([LocateOne(items[0], own, next).0] + Locate(items[1..], own, LocateOne(items[0], own, next).1).locs,
                    Locate(items[1..], own, LocateOne(items[0], own, next).1).next)
  {
    hide DirStream, Blocks;
  }

  lemma LocateDir(item: Item, own: nat, next: nat)
    requires item.Dir? && Legal(item.children)
    ensures var kids := Locate(item.children, next, next + 1);
            && ShortNames(kids.locs)
            && LocateOne(item, own, next) ==
               (DirLoc(item.name, next, kids.next, kids.locs), kids.next + Blocks(|DirStream(kids.locs, next, own)|))
  {
    hide DirStream, Blocks;
    LegalShort(item.children, Locate(item.children, next, next + 1).locs);
  }

  // ----- the writes

  datatype Write = Write(block: nat, bytes: seq<byte>)

  const FIXTURE_TIME: nat := 1790329260 * 0x1_0000
  /** S_IFREG | 0o644 and S_IFDIR | S_STR_INDEX | 0o755. */
  const FILE_MODE: nat := 0x8000 + 0x1A4
  const DIR_MODE: nat := 0x0100_0000 + 0x4000 + 0x1ED

  /** A stream cut into blocks from `base` on; the last piece may be short. */
  function Pieces(base: nat, stream: seq<byte>): (ws: seq<Write>)
    ensures |ws| == Blocks(|stream|)
    ensures forall b | 0 <= b < |ws| :: ws[b].block == base + b
  {
    seq(Blocks(|stream|), b requires 0 <= b < Blocks(|stream|) => Write(base + b, Piece(stream, b)))
  }

  function Piece(stream: seq<byte>, b: nat): (s: seq<byte>)
    requires b < Blocks(|stream|)
    ensures |s| <= BLOCK
  {
    var end := (b + 1) * BLOCK;
    stream[b * BLOCK..if end < |stream| then end else |stream|]
  }

  ghost function FileInode(l: Loc, parent: nat, shift: nat): (n: Inode)
    requires l.FileLoc? && Fine(l, parent)
    ensures ValidInode(n)
  {
    var runs := if l.content == [] then [] else [RunBytes(l.base, Blocks(|l.content|), shift)];
    Inode(RunBytes(l.block, 1, shift), FILE_MODE, RunBytes(parent, 1, shift), |l.content|, runs, CoveredBytes(runs),
          Some(l.name), FIXTURE_TIME, 0)
  }

  /** `name` is none for the root only. */
  ghost function DirInode(l: Loc, parent: nat, name: Option<Key>, shift: nat): (n: Inode)
    requires l.DirLoc? && Fine(l, parent) && (name.Some? ==> |name.value| <= MAX_NAME)
    ensures ValidInode(n)
  {
    var stream := DirStream(l.children, l.block, parent);
    var runs := [RunBytes(l.base, Blocks(|stream|), shift)];
    Inode(RunBytes(l.block, 1, shift), DIR_MODE, RunBytes(parent, 1, shift), |stream|, runs, CoveredBytes(runs),
          name, FIXTURE_TIME, 0)
  }

  /** The inode writes of an entry: a directory's own comes after its children's. */
  ghost function InodesOf(l: Loc, parent: nat, name: Option<Key>, shift: nat): seq<Write>
    requires Fine(l, parent) && (name.Some? ==> |name.value| <= MAX_NAME)
    decreases l
  {
    match l
    case FileLoc(_, _, block, _) => [Write(block, InodeBytes(FileInode(l, parent, shift)))]
    case DirLoc(_, block, _, children) =>
      InodesAll(children, block, shift) + [Write(block, InodeBytes(DirInode(l, parent, name, shift)))]
  }

  ghost function InodesAll(ls: seq<Loc>, own: nat, shift: nat): seq<Write>
    requires FineAll(ls, own)
    decreases ls
  {
    if ls == [] then []
    else InodesOf(ls[0], own, Some(ls[0].name), shift) + InodesAll(ls[1..], own, shift)
  }

  /** The data writes of an entry: a directory's tree comes after its children's data. */
  ghost function DataOf(l: Loc, parent: nat): seq<Write>
    requires Fine(l, parent)
    decreases l
  {
    match l
    case FileLoc(_, content, _, base) => Pieces(base, content)
    case DirLoc(_, block, base, children) =>
      DataAll(children, block) + Pieces(base, DirStream(children, block, parent))
  }

  ghost function DataAll(ls: seq<Loc>, own: nat): seq<Write>
    requires FineAll(ls, own)
    decreases ls
  {
    if ls == [] then [] else DataOf(ls[0], own) + DataAll(ls[1..], own)
  }

  // ----- the index entries gathered on the way

  /** `struct.pack("<q", value)`. */
  function Int64(value: nat): (k: Key)
    ensures |k| == 8
  {
    Le(8, value)
  }

  /** The name index takes every entry, a directory before what is in it. */
  function NamesOf(ls: seq<Loc>): seq<Entry>
    decreases ls
  {
    if ls == [] then []
    else [Entry(ls[0].name, ls[0].block)] + (if ls[0].DirLoc? then NamesOf(ls[0].children) else []) + NamesOf(ls[1..])
  }

  /** The size index takes the files. */
  function SizesOf(ls: seq<Loc>): seq<Entry>
    decreases ls
  {
    if ls == [] then []
    else
      (match ls[0]
       case FileLoc(_, content, block, _) => [Entry(Int64(|content|), block)]
       case DirLoc(_, _, _, children) => SizesOf(children)) + SizesOf(ls[1..])
  }

  /** And so does the last_modified index, every one at the fixture's time. */
  function TimesOf(ls: seq<Loc>): seq<Entry>
    decreases ls
  {
    if ls == [] then []
    else
      (match ls[0]
       case FileLoc(_, _, block, _) => [Entry(Int64(FIXTURE_TIME), block)]
       case DirLoc(_, _, _, children) => TimesOf(children)) + TimesOf(ls[1..])
  }

  // ----- placement, as a property of the placed tree

  /** `l` starts at its own block and what it holds lies right behind. */
  ghost predicate Laid(l: Loc)
    decreases l
  {
    match l
    case FileLoc(_, _, block, base) => base == block + 1
    case DirLoc(_, block, base, children) => ShortNames(children) && LaidAll(children, block, block + 1, base)
  }

  /** The entries fill the blocks from `start` to `end`, one after another. */
  ghost predicate LaidAll(ls: seq<Loc>, own: nat, start: nat, end: nat)
    decreases ls
  {
    if ls == [] then start == end
    else
      && ls[0].block == start && (ls[0].DirLoc? ==> ShortNames(ls[0].children)) && Laid(ls[0])
      && LaidAll(ls[1..], own, Extent(ls[0], own), end)
  }

  lemma {:induction false} LocateLaid(items: seq<Item>, own: nat, next: nat)
    requires Legal(items)
    ensures LaidAll(Locate(items, own, next).locs, own, next, Locate(items, own, next).next)
    decreases items
  {
    hide DirStream, Blocks;
    if items != [] {
      LocateOneLaid(items[0], own, next);
      var first := LocateOne(items[0], own, next);
      LocateLaid(items[1..], own, first.1);
      assert ([first.0] + Locate(items[1..], own, first.1).locs)[1..] == Locate(items[1..], own, first.1).locs;
    }
  }

  lemma {:induction false} LocateOneLaid(item: Item, own: nat, next: nat)
    requires item.Dir? ==> Legal(item.children)
    ensures var r := LocateOne(item, own, next);
            && r.0.block == next && (r.0.DirLoc? ==> ShortNames(r.0.children))
            && Laid(r.0) && Extent(r.0, own) == r.1
    decreases item
  {
    hide DirStream, Blocks;
    if item.Dir? {
      LocateLaid(item.children, next, next + 1);
      LegalShort(item.children, Locate(item.children, next, next + 1).locs);
    }
  }
}
