/** Reading a built volume gives back the input tree: every path, every byte. */
module RoundTrip {
  import opened Bytes
  import opened Keys
  import opened NodePlan
  import opened DirectoryTree
  import opened DirectoryStream
  import opened DirectoryReader
  import opened DirectoryLookup
  import opened Inode
  import opened Layout
  import opened Ownership
  import opened Image
  import opened Mount
  import opened VolumeReader

  // ----- what a stored entry looks like to the reader

  ghost predicate AllHeld(vol: seq<byte>, ws: seq<Write>)
  {
    forall i | 0 <= i < |ws| :: Holds(vol, 0, ws[i])
  }

  /** An entry whose every write is in the volume. */
  ghost predicate StoredLoc(vol: seq<byte>, l: Loc, parent: nat, name: Option<Key>, shift: nat)
  {
    && Fine(l, parent) && (name.Some? ==> |name.value| <= MAX_NAME)
    && AllHeld(vol, InodesOf(l, parent, name, shift)) && AllHeld(vol, DataOf(l, parent))
  }

  ghost predicate StoredAll(vol: seq<byte>, ls: seq<Loc>, own: nat, shift: nat)
  {
    FineAll(ls, own) && AllHeld(vol, InodesAll(ls, own, shift)) && AllHeld(vol, DataAll(ls, own))
  }

  lemma HeldParts(vol: seq<byte>, a: seq<Write>, b: seq<Write>)
    requires AllHeld(vol, a + b)
    ensures AllHeld(vol, a) && AllHeld(vol, b)
  {
    hide Holds;
    assert forall i | 0 <= i < |a| :: a[i] == (a + b)[i];
    assert forall i | 0 <= i < |b| :: b[i] == (a + b)[|a| + i];
  }

  lemma {:induction false} EachStored(vol: seq<byte>, ls: seq<Loc>, own: nat, shift: nat, i: nat)
    requires StoredAll(vol, ls, own, shift) && i < |ls|
    ensures StoredLoc(vol, ls[i], own, Some(ls[i].name), shift)
    decreases ls
  {
    hide Holds, InodesOf, DataOf, AllHeld;
    HeldParts(vol, InodesOf(ls[0], own, Some(ls[0].name), shift), InodesAll(ls[1..], own, shift));
    HeldParts(vol, DataOf(ls[0], own), DataAll(ls[1..], own));
    assert Fine(ls[i], own);
    NameShort(ls[i], own);
    if i > 0 {
      EachStored(vol, ls[1..], own, shift, i - 1);
    }
  }

  /** A stored directory's children are stored, with it as their parent. */
  lemma ChildStored(vol: seq<byte>, l: Loc, parent: nat, name: Option<Key>, shift: nat, i: nat)
    requires StoredLoc(vol, l, parent, name, shift) && l.DirLoc? && i < |l.children|
    ensures StoredLoc(vol, l.children[i], l.block, Some(l.children[i].name), shift)
  {
    hide Holds, AllHeld, DirStream, InodeBytes, Blocks;
    HeldParts(vol, InodesAll(l.children, l.block, shift), [Write(l.block, InodeBytes(DirInode(l, parent, name, shift)))]);
    HeldParts(vol, DataAll(l.children, l.block), Pieces(l.base, DirStream(l.children, l.block, parent)));
    EachStored(vol, l.children, l.block, shift, i);
  }

  // ----- streams in blocks

  /** Held pieces are the stream. */
  lemma {:induction false} PiecesHeld(vol: seq<byte>, base: nat, stream: seq<byte>)
    requires AllHeld(vol, Pieces(base, stream))
    ensures stream != [] ==> base * BLOCK + |stream| <= |vol| && vol[base * BLOCK..base * BLOCK + |stream|] == stream
  {
    var ws := Pieces(base, stream);
    if stream != [] {
      var last := |ws| - 1;
      assert Holds(vol, 0, ws[last]);
      forall k | 0 <= k < |stream| ensures base * BLOCK + k < |vol| && vol[base * BLOCK + k] == stream[k] {
        var b := k / BLOCK;
        assert b < |ws| && Holds(vol, 0, ws[b]);
        var at := (base + b) * BLOCK;
        assert ws[b].bytes[k - b * BLOCK] == stream[k];
        assert vol[at..at + |ws[b].bytes|][k - b * BLOCK] == vol[base * BLOCK + k];
      }
      assert base * BLOCK + (|stream| - 1) < |vol|;
    }
  }

  /** The volume a mount is over: its blocks are all there, and few enough for a run. */
  ghost predicate Mountable(vol: seq<byte>, m: Mounted)
  {
    m.numBlocks * BLOCK <= |vol| && m.numBlocks <= MAX_BLOCKS && 14 <= m.shift <= 16
  }

  lemma InodeIsRead(vol: seq<byte>, m: Mounted, block: nat, n: Inode)
    requires Mountable(vol, m) && block < m.numBlocks && ValidInode(n)
    requires Holds(vol, 0, Write(block, InodeBytes(n)))
    ensures ReadInode(vol, m, block) == Some(InodeBytes(n))
  {
    hide InodeBytes, InodeInUse;
    InodeFields(n);
  }

  lemma OneDirect(vol: seq<byte>, b: seq<byte>, shift: nat)
    requires |b| == BLOCK && !RunIsZero(DirectRun(b, 0)) && RunInVolume(vol, DirectRun(b, 0), shift) && RunIsZero(DirectRun(b, 1))
    ensures Direct(vol, b, 0, shift) == Some(RunData(vol, DirectRun(b, 0), shift))
  {
    hide DirectRun, RunData, RunInVolume;
    DirectEnd(vol, b, 1, shift);
    var data := RunData(vol, DirectRun(b, 0), shift);
    assert data + [] == data;
  }

  /** An inode with one run reads as the blocks of that run. */
  lemma OneRunStream(vol: seq<byte>, m: Mounted, n: Inode, base: nat, count: nat)
    requires Mountable(vol, m) && ValidInode(n) && n.runs == [RunBytes(base, count, m.shift)]
    requires 0 < count < TWO16 && base < MAX_BLOCKS && base + count <= m.numBlocks
    ensures (base + count) * BLOCK <= |vol|
    ensures Stream(vol, InodeBytes(n), m.shift) == Some(vol[base * BLOCK..(base + count) * BLOCK])
  {
    hide InodeBytes, RunBytes, LeRun, ToBlock, Direct, Field;
    var b := InodeBytes(n);
    InodeFields(n);
    assert RunSlot(b, 0) == n.runs[0];
    RunFields(base, count, m.shift, b, DATA);
    assert RunSlot(b, 1) == ZeroRun();
    ZeroRunReads(b, DATA + 8);
    OneDirect(vol, b, m.shift);
  }

  lemma NoRunStream(vol: seq<byte>, m: Mounted, n: Inode)
    requires ValidInode(n) && n.runs == []
    ensures Stream(vol, InodeBytes(n), m.shift) == Some([])
  {
    hide InodeBytes, LeRun;
    var b := InodeBytes(n);
    InodeFields(n);
    assert RunSlot(b, 0) == ZeroRun();
    ZeroRunReads(b, DATA);
    DirectEnd(vol, b, 0, m.shift);
  }

  lemma FileModeIs()
    ensures !IsDirectory(FILE_MODE) && IsDirectory(DIR_MODE)
    ensures forall o :: !MaySearch(FILE_MODE, o) && MaySearch(DIR_MODE, o)
  {
  }

  /** A stored file reads as its content. */
  lemma FileIsRead(vol: seq<byte>, m: Mounted, l: Loc, parent: nat, name: Option<Key>)
    requires Mountable(vol, m) && StoredLoc(vol, l, parent, name, m.shift) && l.FileLoc?
    requires Laid(l) && Extent(l, parent) <= m.numBlocks
    ensures var n := FileInode(l, parent, m.shift);
            && ReadInode(vol, m, l.block) == Some(InodeBytes(n)) && Mode(InodeBytes(n)) == FILE_MODE
            && Describe(vol, m, InodeBytes(n)) == FoundFile(l.content)
  {
    hide InodeBytes, Stream, RunBytes, Pieces, CoveredBytes, Holds;
    var n := FileInode(l, parent, m.shift);
    var w := InodesOf(l, parent, name, m.shift);
    assert Holds(vol, 0, w[0]);
    InodeIsRead(vol, m, l.block, n);
    InodeFields(n);
    FileModeIs();
    if l.content == [] {
      NoRunStream(vol, m, n);
      assert Read([], 0, 0) == [];
    } else {
      var count := Blocks(|l.content|);
      OneRunStream(vol, m, n, l.base, count);
      PiecesHeld(vol, l.base, l.content);
      StreamHead(vol, l.base, count, l.content);
    }
  }

  /** The blocks of a run, cut to the content's length, are the content. */
  lemma StreamHead(vol: seq<byte>, base: nat, count: nat, content: seq<byte>)
    requires count == Blocks(|content|) && (base + count) * BLOCK <= |vol|
    requires base * BLOCK + |content| <= |vol| && vol[base * BLOCK..base * BLOCK + |content|] == content
    ensures Read(vol[base * BLOCK..(base + count) * BLOCK], 0, |content|) == content
  {
    var stream := vol[base * BLOCK..(base + count) * BLOCK];
    assert stream[0..|content|] == vol[base * BLOCK..base * BLOCK + |content|];
  }

  lemma WholeStream(children: seq<Loc>, own: nat, parent: nat)
    requires ShortNames(children)
    ensures var n := |DirStream(children, own, parent)|; n >= 2 * NODE && Blocks(n) * BLOCK == n
  {
    hide TreeBytes, TreeLevels, Blocks, Nodes, Sort, Table, Buildable;
    var entries := Entries(children, own, parent);
    LinksExact(entries);
    WholeBlocks(1 + |Nodes(TreeLevels(entries))|);
  }

  lemma WholeBlocks(k: nat)
    ensures Blocks(NODE * k) * BLOCK == NODE * k
  {
    assert (NODE * k + BLOCK - 1) / BLOCK == 2 * k;
  }

  /** A stored directory reads as its tree stream. */
  lemma DirIsRead(vol: seq<byte>, m: Mounted, l: Loc, parent: nat, name: Option<Key>)
    requires Mountable(vol, m) && StoredLoc(vol, l, parent, name, m.shift) && l.DirLoc?
    requires Extent(l, parent) <= m.numBlocks && l.block < m.numBlocks && parent < m.numBlocks
    ensures var n := DirInode(l, parent, name, m.shift);
            && ReadInode(vol, m, l.block) == Some(InodeBytes(n)) && Mode(InodeBytes(n)) == DIR_MODE
            && Stream(vol, InodeBytes(n), m.shift) == Some(DirStream(l.children, l.block, parent))
            && Parent(InodeBytes(n), m.shift) == parent
  {
    hide InodeBytes, Stream, RunBytes, Pieces, DirStream, Blocks, LeRun, ToBlock, InodesAll, DataAll;
    var n, stream := DirInode(l, parent, name, m.shift), DirStream(l.children, l.block, parent);
    var ws := InodesOf(l, parent, name, m.shift);
    assert ws[|ws| - 1] == Write(l.block, InodeBytes(n));
    assert Holds(vol, 0, ws[|ws| - 1]);
    InodeIsRead(vol, m, l.block, n);
    InodeFields(n);
    RunFields(parent, 1, m.shift, InodeBytes(n), 44);
    WholeStream(l.children, l.block, parent);
    HeldParts(vol, DataAll(l.children, l.block), Pieces(l.base, stream));
    PiecesHeld(vol, l.base, stream);
    OneRunStream(vol, m, n, l.base, Blocks(|stream|));
  }

  // ----- a directory's table as a map

  /** Children with names the format allows, none twice. */
  ghost predicate ProperNames(children: seq<Loc>)
  {
    && (forall i | 0 <= i < |children| :: LegalName(children[i].name))
    && (forall i, j | 0 <= i < j < |children| :: children[i].name != children[j].name)
  }

  lemma TableDistinct(children: seq<Loc>, own: nat, parent: nat)
    requires ProperNames(children)
    ensures DistinctKeys(Table(children, own, parent))
  {
  }

  lemma EntriesStrict(children: seq<Loc>, own: nat, parent: nat)
    requires ProperNames(children) && ShortNames(children)
    ensures StrictlyAscending(STRING_TYPE, Entries(children, own, parent))
    ensures DistinctKeys(Entries(children, own, parent))
    ensures multiset(Entries(children, own, parent)) == multiset(Table(children, own, parent))
  {
    hide Buildable;
    var table := Table(children, own, parent);
    TableDistinct(children, own, parent);
    SortStrict(STRING_TYPE, table);
    DistinctAfterSort(STRING_TYPE, table);
  }

  /** An entry of the table is what its name looks up to. */
  lemma EntryFound(children: seq<Loc>, own: nat, parent: nat, e: Entry)
    requires ProperNames(children) && ShortNames(children) && e in Table(children, own, parent)
    ensures Lookup(Entries(children, own, parent), e.key) == Some(e.value)
  {
    hide Buildable, Table, Lookup;
    EntriesStrict(children, own, parent);
    var entries := Entries(children, own, parent);
    InMultiset(entries, Table(children, own, parent));
    var i :| 0 <= i < |entries| && entries[i] == e;
    LookupPresent(entries, i);
  }

  lemma NothingFound(children: seq<Loc>, own: nat, parent: nat, name: Key)
    requires ProperNames(children) && ShortNames(children) && name != DOT && name != DOTDOT
    requires forall i | 0 <= i < |children| :: children[i].name != name
    ensures Lookup(Entries(children, own, parent), name) == None
  {
    hide Buildable;
    EntriesStrict(children, own, parent);
    var entries, table := Entries(children, own, parent), Table(children, own, parent);
    InMultiset(entries, table);
    forall i | 0 <= i < |entries| ensures entries[i].key != name {
      assert entries[i] in table;
      var j :| 0 <= j < |table| && table[j] == entries[i];
    }
  }

  lemma EntriesStored(l: Loc, parent: nat)
    requires l.DirLoc? && Fine(l, parent) && parent < TWO64 && l.block < TWO64
    requires forall i | 0 <= i < |l.children| :: l.children[i].block < TWO64
    ensures Stored(Entries(l.children, l.block, parent))
  {
    hide TreeBytes, Buildable, Blocks, Sort;
    var entries, table := Entries(l.children, l.block, parent), Table(l.children, l.block, parent);
    InMultiset(entries, table);
    forall i | 0 <= i < |entries| ensures entries[i].value < TWO64 {
      assert entries[i] in table;
      var j :| 0 <= j < |table| && table[j] == entries[i];
    }
    WholeStream(l.children, l.block, parent);
  }

  // ----- the input tree, and where it was put

  /** `l` is `item`, placed. */
  ghost predicate Matches(l: Loc, item: Item)
    decreases item
  {
    && l.name == item.name
    && match item
       case File(_, content) => l.FileLoc? && l.content == content
       case Dir(_, children) =>
         && l.DirLoc? && Legal(children) && |l.children| == |children|
         && forall i | 0 <= i < |children| :: Matches(l.children[i], children[i])
  }

  lemma {:induction false} LocateMatches(items: seq<Item>, own: nat, next: nat, i: nat)
    requires Legal(items) && i < |items|
    ensures Matches(Locate(items, own, next).locs[i], items[i])
    decreases items
  {
    hide Locate, LocateOne, Legal, Matches;
    LocateNext(items, own, next);
    if i > 0 {
      LocateMatches(items[1..], own, LocateOne(items[0], own, next).1, i - 1);
    } else {
      OneMatches(items[0], own, next);
    }
  }

  lemma {:induction false} OneMatches(item: Item, own: nat, next: nat)
    requires item.Dir? ==> Legal(item.children)
    ensures Matches(LocateOne(item, own, next).0, item)
    decreases item
  {
    if item.Dir? {
      hide Locate, Legal, DirStream, Blocks;
      LocateDir(item, own, next);
      var children := item.children;
      forall j | 0 <= j < |children| ensures Matches(Locate(children, next, next + 1).locs[j], children[j]) {
        LocateMatches(children, next, next + 1, j);
      }
    }
  }

  lemma {:induction false} LaidWithin(ls: seq<Loc>, own: nat, start: nat, end: nat, i: nat)
    requires LaidAll(ls, own, start, end) && FineAll(ls, own) && i < |ls|
    ensures Laid(ls[i]) && Fine(ls[i], own) && start <= ls[i].block < Extent(ls[i], own) <= end
    decreases ls
  {
    hide DirStream, Blocks, Laid, Owned, Span;
    OwnsExtent(ls[0], own, None, 14);
    OwnsAll(ls[1..], own, Extent(ls[0], own), end, 14);
    if i > 0 {
      LaidWithin(ls[1..], own, Extent(ls[0], own), end, i - 1);
    }
  }

  /** A child lies between its directory's inode and its directory's tree. */
  lemma ChildWithin(l: Loc, parent: nat, i: nat)
    requires l.DirLoc? && Laid(l) && Fine(l, parent) && i < |l.children|
    ensures Laid(l.children[i]) && Fine(l.children[i], l.block)
    ensures l.block < l.children[i].block < Extent(l.children[i], l.block) <= Extent(l, parent)
  {
    hide DirStream, Blocks;
    LaidWithin(l.children, l.block, l.block + 1, l.base, i);
  }

  /** Everything the walk needs of an entry it stands on. */
  ghost predicate Standing(vol: seq<byte>, m: Mounted, l: Loc, item: Item, parent: nat, name: Option<Key>)
  {
    && Mountable(vol, m) && Matches(l, item) && StoredLoc(vol, l, parent, name, m.shift) && Laid(l)
    && l.block < Extent(l, parent) <= m.numBlocks && parent < m.numBlocks
  }

  lemma ChildStanding(vol: seq<byte>, m: Mounted, l: Loc, item: Item, parent: nat, name: Option<Key>, i: nat)
    requires Standing(vol, m, l, item, parent, name) && item.Dir? && i < |item.children|
    ensures Standing(vol, m, l.children[i], item.children[i], l.block, Some(l.children[i].name))
  {
    hide Fine, Laid, InodesOf, DataOf, AllHeld, DirStream, Blocks;
    ChildWithin(l, parent, i);
    ChildStored(vol, l, parent, name, m.shift, i);
  }

  lemma ProperChildren(l: Loc, item: Item)
    requires Matches(l, item) && item.Dir?
    ensures ProperNames(l.children) && ShortNames(l.children)
  {
    var items := item.children;
    forall i | 0 <= i < |items| ensures l.children[i].name == items[i].name && LegalName(items[i].name) {
      assert Matches(l.children[i], items[i]);
    }
  }

  /** Looking a name up in a stored directory is looking it up in the directory's table. */
  lemma FindInDir(vol: seq<byte>, m: Mounted, l: Loc, item: Item, parent: nat, name: Option<Key>, component: Key)
    requires Standing(vol, m, l, item, parent, name) && item.Dir?
    ensures ProperNames(l.children) && ShortNames(l.children)
    ensures Find(DirStream(l.children, l.block, parent), component) ==
            Lookup(Entries(l.children, l.block, parent), component)
  {
    hide Laid, InodesOf, DataOf, AllHeld, Find, Lookup, TreeBytes;
    ProperChildren(l, item);
    forall i | 0 <= i < |l.children| ensures l.children[i].block < TWO64 {
      ChildWithin(l, parent, i);
    }
    EntriesStored(l, parent);
    EntriesStrict(l.children, l.block, parent);
    FindIsLookup(Entries(l.children, l.block, parent), component);
  }

  /** Where a component leads from a stored directory. */
  function StepTo(l: Loc, parent: nat, component: Key): Option<nat>
    requires l.DirLoc?
  {
    if component == [] || component == DOTDOT then Some(parent)
    else if component == DOT then Some(l.block)
    else
      match ChildNamed(l.children, component)
      case None => None
      case Some(i) => Some(l.children[i].block)
  }

  function ChildNamed(children: seq<Loc>, name: Key): (r: Option<nat>)
    ensures r.Some? ==> r.value < |children| && children[r.value].name == name
    ensures r.None? ==> forall i | 0 <= i < |children| :: children[i].name != name
  {
    if children == [] then None
    else if children[|children| - 1].name == name then Some(|children| - 1)
    else ChildNamed(children[..|children| - 1], name)
  }

  lemma TableHas(children: seq<Loc>, own: nat, parent: nat)
    ensures Entry(DOT, own) in Table(children, own, parent) && Entry(DOTDOT, parent) in Table(children, own, parent)
    ensures forall i | 0 <= i < |children| :: Entry(children[i].name, children[i].block) in Table(children, own, parent)
  {
    var table := Table(children, own, parent);
    assert table[|children|] == Entry(DOT, own) && table[|children| + 1] == Entry(DOTDOT, parent);
    forall i | 0 <= i < |children| ensures Entry(children[i].name, children[i].block) in table {
      assert table[i] == Entry(children[i].name, children[i].block);
    }
  }

  lemma LookupIsStep(l: Loc, parent: nat, component: Key)
    requires l.DirLoc? && ProperNames(l.children) && ShortNames(l.children) && component != []
    ensures Lookup(Entries(l.children, l.block, parent), component) == StepTo(l, parent, component)
  {
    hide Entries, Lookup, Table, ProperNames, ShortNames;
    var table := Table(l.children, l.block, parent);
    TableHas(l.children, l.block, parent);
    if component == DOTDOT {
      EntryFound(l.children, l.block, parent, Entry(DOTDOT, parent));
    } else if component == DOT {
      EntryFound(l.children, l.block, parent, Entry(DOT, l.block));
    } else {
      match ChildNamed(l.children, component)
      case None => NothingFound(l.children, l.block, parent, component);
      case Some(i) => EntryFound(l.children, l.block, parent, Entry(component, l.children[i].block));
    }
  }

  lemma StepInDir(vol: seq<byte>, m: Mounted, l: Loc, item: Item, parent: nat, name: Option<Key>, isOwner: bool, component: Key)
    requires Standing(vol, m, l, item, parent, name) && item.Dir?
    ensures var n := DirInode(l, parent, name, m.shift);
            && ReadInode(vol, m, l.block) == Some(InodeBytes(n))
            && Describe(vol, m, InodeBytes(n)) == FoundDir
            && VolumeReader.Step(vol, m, InodeBytes(n), isOwner, component) == StepTo(l, parent, component)
  {
    hide Laid, InodesOf, DataOf, AllHeld, Find, Lookup, DirStream, Entries, Stream, InodeBytes, MaySearch,
         IsDirectory, StepTo;
    FindInDir(vol, m, l, item, parent, name, component);
    DirIsRead(vol, m, l, parent, name);
    FileModeIs();
    if component == [] {
      StepUp(l, parent);
    } else {
      LookupIsStep(l, parent, component);
    }
  }

  lemma StepUp(l: Loc, parent: nat)
    requires l.DirLoc?
    ensures StepTo(l, parent, []) == Some(parent)
  {
  }

  // ----- every path

  function ItemNamed(items: seq<Item>, name: Key): (r: Option<nat>)
    ensures r.Some? ==> r.value < |items| && items[r.value].name == name
    ensures r.None? ==> forall i | 0 <= i < |items| :: items[i].name != name
  {
    if items == [] then None
    else if items[|items| - 1].name == name then Some(|items| - 1)
    else ItemNamed(items[..|items| - 1], name)
  }

  /** What a path names in the input tree, from the last of `stack` on: the entries before it
      are the directories it lies in. An empty component and ".." step up, and the root is its
      own parent. */
  function Seek(stack: seq<Item>, path: seq<Key>): Found
    requires stack != []
    decreases |path|
  {
    var top := stack[|stack| - 1];
    if path == [] then
      match top
      case File(_, content) => FoundFile(content)
      case Dir(_, _) => FoundDir
    else if top.File? then NotFound
    else if path[0] == [] || path[0] == DOTDOT then
      Seek(if |stack| > 1 then stack[..|stack| - 1] else stack, path[1..])
    else if path[0] == DOT then Seek(stack, path[1..])
    else
      match ItemNamed(top.children, path[0])
      case None => NotFound
      case Some(i) => Seek(stack + [top.children[i]], path[1..])
  }

  function ParentOf(locs: seq<Loc>, i: nat): nat
    requires i < |locs|
  {
    if i == 0 then locs[0].block else locs[i - 1].block
  }

  function InodeName(locs: seq<Loc>, i: nat): Option<Key>
    requires i < |locs|
  {
    if i == 0 then None else Some(locs[i].name)
  }

  /** The walk's way from the root, in the volume and in the input tree. */
  ghost predicate Trail(vol: seq<byte>, m: Mounted, locs: seq<Loc>, items: seq<Item>)
  {
    && |locs| == |items| && locs != []
    && forall i | 0 <= i < |locs| :: Standing(vol, m, locs[i], items[i], ParentOf(locs, i), InodeName(locs, i))
  }

  lemma TrailUp(vol: seq<byte>, m: Mounted, locs: seq<Loc>, items: seq<Item>)
    requires Trail(vol, m, locs, items) && |locs| > 1
    ensures Trail(vol, m, locs[..|locs| - 1], items[..|locs| - 1])
  {
    hide Standing;
    var n := |locs| - 1;
    forall i | 0 <= i < n
      ensures Standing(vol, m, locs[..n][i], items[..n][i], ParentOf(locs[..n], i), InodeName(locs[..n], i))
    {
      assert Standing(vol, m, locs[i], items[i], ParentOf(locs, i), InodeName(locs, i));
    }
  }

  lemma StandingShape(vol: seq<byte>, m: Mounted, l: Loc, item: Item, parent: nat, name: Option<Key>)
    requires Standing(vol, m, l, item, parent, name)
    ensures Matches(l, item)
    ensures item.Dir? ==> l.DirLoc? && |l.children| == |item.children|
  {
    hide StoredLoc, Laid, Fine, Extent;
  }

  /** The end of a trail. */
  lemma TrailTop(vol: seq<byte>, m: Mounted, locs: seq<Loc>, items: seq<Item>)
    requires Trail(vol, m, locs, items)
    ensures var n := |locs| - 1;
            && Standing(vol, m, locs[n], items[n], ParentOf(locs, n), InodeName(locs, n))
            && Matches(locs[n], items[n])
            && (items[n].Dir? ==> locs[n].DirLoc? && |locs[n].children| == |items[n].children|)
  {
    hide Standing, Matches;
    var n := |locs| - 1;
    assert Standing(vol, m, locs[n], items[n], ParentOf(locs, n), InodeName(locs, n));
    StandingShape(vol, m, locs[n], items[n], ParentOf(locs, n), InodeName(locs, n));
  }

  lemma TrailDown(vol: seq<byte>, m: Mounted, locs: seq<Loc>, items: seq<Item>, j: nat)
    requires Trail(vol, m, locs, items) && items[|items| - 1].Dir? && j < |items[|items| - 1].children|
    ensures locs[|locs| - 1].DirLoc? && j < |locs[|locs| - 1].children|
    ensures Trail(vol, m, locs + [locs[|locs| - 1].children[j]], items + [items[|items| - 1].children[j]])
  {
    hide Standing, Matches;
    TrailTop(vol, m, locs, items);
    var n := |locs|;
    var l, item := locs[n - 1], items[n - 1];
    ChildStanding(vol, m, l, item, ParentOf(locs, n - 1), InodeName(locs, n - 1), j);
    var locs', items' := locs + [l.children[j]], items + [item.children[j]];
    forall i | 0 <= i <= n
      ensures Standing(vol, m, locs'[i], items'[i], ParentOf(locs', i), InodeName(locs', i))
    {
      if i < n {
        assert Standing(vol, m, locs[i], items[i], ParentOf(locs, i), InodeName(locs, i));
      }
    }
  }

  lemma {:induction false} SameChild(children: seq<Loc>, items: seq<Item>, name: Key)
    requires |children| == |items| && forall i | 0 <= i < |items| :: children[i].name == items[i].name
    ensures ChildNamed(children, name) == ItemNamed(items, name)
  {
    if items != [] {
      SameChild(children[..|children| - 1], items[..|items| - 1], name);
    }
  }

  lemma SameStep(l: Loc, item: Item, name: Key)
    requires Matches(l, item) && item.Dir?
    ensures ChildNamed(l.children, name) == ItemNamed(item.children, name)
  {
    forall i | 0 <= i < |item.children| ensures l.children[i].name == item.children[i].name {
      assert Matches(l.children[i], item.children[i]);
    }
    SameChild(l.children, item.children, name);
  }

  /** Standing on a file: its bytes, and no way further. */
  lemma WalkAtFile(vol: seq<byte>, m: Mounted, l: Loc, item: Item, parent: nat, name: Option<Key>, isOwner: bool, path: seq<Key>)
    requires Standing(vol, m, l, item, parent, name) && item.File?
    ensures WalkFrom(vol, m, l.block, isOwner, path) == if path == [] then FoundFile(item.content) else NotFound
  {
    hide InodesOf, DataOf, AllHeld, Stream, InodeBytes, MaySearch, Describe;
    FileIsRead(vol, m, l, parent, name);
    FileModeIs();
  }

  /** Standing on a directory: the directory itself, or on to where the component leads. */
  lemma WalkAtDir(vol: seq<byte>, m: Mounted, l: Loc, item: Item, parent: nat, name: Option<Key>, isOwner: bool, path: seq<Key>)
    requires Standing(vol, m, l, item, parent, name) && item.Dir?
    ensures l.DirLoc?
    ensures WalkFrom(vol, m, l.block, isOwner, path) ==
            if path == [] then FoundDir
            else if StepTo(l, parent, path[0]).None? then NotFound
            else WalkFrom(vol, m, StepTo(l, parent, path[0]).value, isOwner, path[1..])
  {
    hide Standing, Matches, Stream, InodeBytes, MaySearch, Describe, StepTo, VolumeReader.Step, DirInode;
    StandingShape(vol, m, l, item, parent, name);
    StepInDir(vol, m, l, item, parent, name, isOwner, if path == [] then [] else path[0]);
  }

  /** The first component leads to the end of the new trail, or nowhere on either side. */
  ghost predicate SameWay(locs: seq<Loc>, items: seq<Item>, path: seq<Key>, locs': seq<Loc>, items': seq<Item>)
    requires |locs| == |items| > 0 && path != [] && locs[|locs| - 1].DirLoc? && |locs'| == |items'| > 0
  {
    match StepTo(locs[|locs| - 1], ParentOf(locs, |locs| - 1), path[0])
    case None => Seek(items, path) == NotFound
    case Some(block) => block == locs'[|locs'| - 1].block && Seek(items, path) == Seek(items', path[1..])
  }

  /** One component of the walk, on both sides. */
  lemma TrailStep(vol: seq<byte>, m: Mounted, locs: seq<Loc>, items: seq<Item>, path: seq<Key>)
    returns (locs': seq<Loc>, items': seq<Item>)
    requires |locs| == |items| > 0 && path != [] && items[|items| - 1].Dir? && locs[|locs| - 1].DirLoc?
    requires Trail(vol, m, locs, items)
    ensures |locs'| == |items'| > 0
    ensures Trail(vol, m, locs', items')
    ensures SameWay(locs, items, path, locs', items')
  {
    hide Standing, Matches, Trail;
    var n := |locs| - 1;
    var l, item := locs[n], items[n];
    locs', items' := locs, items;
    if path[0] == [] || path[0] == DOTDOT {
      if n > 0 {
        TrailUp(vol, m, locs, items);
        locs', items' := locs[..n], items[..n];
      }
    } else if path[0] != DOT {
      TrailTop(vol, m, locs, items);
      SameStep(l, item, path[0]);
      var j := ItemNamed(item.children, path[0]);
      if j.Some? {
        TrailDown(vol, m, locs, items, j.value);
        locs', items' := locs + [l.children[j.value]], items + [item.children[j.value]];
      }
    }
  }

  /** A walk through the volume is the same walk through the input tree. */
  lemma {:induction false} WalkIsSeek(vol: seq<byte>, m: Mounted, locs: seq<Loc>, items: seq<Item>, isOwner: bool, path: seq<Key>)
    requires |locs| == |items| > 0 && Trail(vol, m, locs, items)
    ensures WalkFrom(vol, m, locs[|locs| - 1].block, isOwner, path) == Seek(items, path)
    decreases |path|
  {
    hide WalkFrom, Standing, Matches, Trail, StepTo;
    var n := |locs| - 1;
    var l, item, parent, name := locs[n], items[n], ParentOf(locs, n), InodeName(locs, n);
    TrailTop(vol, m, locs, items);
    if item.File? {
      WalkAtFile(vol, m, l, item, parent, name, isOwner, path);
    } else {
      WalkAtDir(vol, m, l, item, parent, name, isOwner, path);
      if path != [] {
        var locs', items' := TrailStep(vol, m, locs, items, path);
        if StepTo(l, parent, path[0]).Some? {
          WalkIsSeek(vol, m, locs', items', isOwner, path[1..]);
        }
      }
    }
  }
}
