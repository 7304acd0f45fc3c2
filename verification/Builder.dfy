/** `make_bfs` as it runs: the bump allocator, the recursive layout, the index trees, and the
    writes into the caller's buffer. */
module Builder {
  import opened Bytes
  import opened Keys
  import opened DirectoryTree
  import opened DirectoryStream
  import opened Inode
  import opened Layout

  // ----- what the layout has gathered so far

  datatype State = State(next: nat, inodes: seq<Write>, data: seq<Write>,
                         names: seq<Entry>, sizes: seq<Entry>, times: seq<Entry>)

  /** The entries `ls` laid out from state `s`, the allocator left at `next`. */
  ghost function AfterAll(s: State, ls: seq<Loc>, own: nat, next: nat, shift: nat): State
    requires FineAll(ls, own)
  {
    State(next, s.inodes + InodesAll(ls, own, shift), s.data + DataAll(ls, own),
          s.names + NamesOf(ls), s.sizes + SizesOf(ls), s.times + TimesOf(ls))
  }

  /** A directory laid out: its children, then its tree and its own inode. */
  ghost function AfterDir(s: State, l: Loc, parent: nat, name: Option<Key>, shift: nat): State
    requires l.DirLoc? && Fine(l, parent) && (name.Some? ==> |name.value| <= MAX_NAME)
  {
    State(Extent(l, parent), s.inodes + InodesOf(l, parent, name, shift), s.data + DataOf(l, parent),
          s.names + NamesOf(l.children), s.sizes + SizesOf(l.children), s.times + TimesOf(l.children))
  }

  // ----- appending one entry

  lemma {:induction false} InodesAppend(a: seq<Loc>, b: seq<Loc>, own: nat, shift: nat)
    requires FineAll(a, own) && FineAll(b, own)
    ensures FineAll(a + b, own)
    ensures InodesAll(a + b, own, shift) == InodesAll(a, own, shift) + InodesAll(b, own, shift)
    ensures DataAll(a + b, own) == DataAll(a, own) + DataAll(b, own)
  {
    hide InodesOf, DataOf, Fine;
    if a == [] {
      assert a + b == b;
    } else {
      assert (a + b)[1..] == a[1..] + b;
      InodesAppend(a[1..], b, own, shift);
    }
  }

  lemma {:induction false} NamesAppend(a: seq<Loc>, b: seq<Loc>)
    ensures NamesOf(a + b) == NamesOf(a) + NamesOf(b)
  {
    if a == [] {
      assert a + b == b;
    } else {
      assert (a + b)[1..] == a[1..] + b;
      NamesAppend(a[1..], b);
    }
  }

  lemma {:induction false} SizesAppend(a: seq<Loc>, b: seq<Loc>)
    ensures SizesOf(a + b) == SizesOf(a) + SizesOf(b)
  {
    hide Int64;
    if a == [] {
      assert a + b == b;
    } else {
      assert (a + b)[1..] == a[1..] + b;
      SizesAppend(a[1..], b);
    }
  }

  lemma {:induction false} TimesAppend(a: seq<Loc>, b: seq<Loc>)
    ensures TimesOf(a + b) == TimesOf(a) + TimesOf(b)
  {
    hide Int64;
    if a == [] {
      assert a + b == b;
    } else {
      assert (a + b)[1..] == a[1..] + b;
      TimesAppend(a[1..], b);
    }
  }

  lemma AfterNext(s: State, ls: seq<Loc>, l: Loc, own: nat, middle: nat, next: nat, shift: nat)
    requires FineAll(ls, own) && FineAll([l], own)
    ensures FineAll(ls + [l], own)
    ensures AfterAll(AfterAll(s, ls, own, middle, shift), [l], own, next, shift) == AfterAll(s, ls + [l], own, next, shift)
  {
    hide InodesAll, DataAll, NamesOf, SizesOf, TimesOf, Fine;
    InodesAppend(ls, [l], own, shift);
    NamesAppend(ls, [l]);
    SizesAppend(ls, [l]);
    TimesAppend(ls, [l]);
  }

  lemma FineOne(l: Loc, own: nat)
    ensures FineAll([l], own) <==> Fine(l, own)
  {
    hide Fine;
    assert [l][0] == l;
  }

  lemma OneWrites(l: Loc, own: nat, shift: nat)
    requires FineAll([l], own) && Fine(l, own) && |l.name| <= MAX_NAME
    ensures InodesAll([l], own, shift) == InodesOf(l, own, Some(l.name), shift)
    ensures DataAll([l], own) == DataOf(l, own)
  {
    hide InodesOf, DataOf, Fine;
    assert InodesAll([], own, shift) == [] && DataAll([], own) == [];
  }

  lemma OnePairs(l: Loc)
    ensures NamesOf([l]) == [Entry(l.name, l.block)] + if l.DirLoc? then NamesOf(l.children) else []
    ensures SizesOf([l]) == if l.FileLoc? then [Entry(Int64(|l.content|), l.block)] else SizesOf(l.children)
    ensures TimesOf([l]) == if l.FileLoc? then [Entry(Int64(FIXTURE_TIME), l.block)] else TimesOf(l.children)
  {
    hide Int64;
    assert NamesOf([]) == [] && SizesOf([]) == [] && TimesOf([]) == [];
  }

  /** The state after one file. */
  lemma AfterFile(s: State, l: Loc, own: nat, next: nat, shift: nat)
    requires l.FileLoc? && Fine(l, own) && |l.name| <= MAX_NAME
    ensures FineAll([l], own)
    ensures AfterAll(s, [l], own, next, shift) ==
            State(next, s.inodes + [Write(l.block, InodeBytes(FileInode(l, own, shift)))], s.data + Pieces(l.base, l.content),
                  s.names + [Entry(l.name, l.block)], s.sizes + [Entry(Int64(|l.content|), l.block)],
                  s.times + [Entry(Int64(FIXTURE_TIME), l.block)])
  {
    hide InodesAll, DataAll, NamesOf, SizesOf, TimesOf, Pieces, InodeBytes, FileInode, Int64, Fine;
    FineOne(l, own);
    OneWrites(l, own, shift);
    OnePairs(l);
  }

  /** The state after one directory below another. */
  lemma AfterSubdir(s: State, l: Loc, own: nat, shift: nat)
    requires l.DirLoc? && Fine(l, own) && |l.name| <= MAX_NAME
    ensures FineAll([l], own) && ShortNames(l.children)
    ensures AfterAll(s, [l], own, Extent(l, own), shift) ==
            AfterDir(s.(next := l.block + 1, names := s.names + [Entry(l.name, l.block)]), l, own, Some(l.name), shift)
  {
    hide InodesAll, DataAll, NamesOf, SizesOf, TimesOf, InodesOf, DataOf;
    FineOne(l, own);
    OneWrites(l, own, shift);
    OnePairs(l);
  }

  lemma AllocatorAfter(s: State, l: Loc, own: nat, next: nat, shift: nat)
    requires FineAll([l], own)
    ensures AfterAll(s, [l], own, next, shift).next == next
  {
  }

  lemma AfterNone(s: State, own: nat, shift: nat)
    ensures AfterAll(s, [], own, s.next, shift) == s
  {
  }

  lemma NoPieces(base: nat)
    ensures Pieces(base, []) == []
  {
  }

  // ----- the layout

  class Layouter {
    const shift: nat
    var next: nat
    var inodes: seq<Write>
    var data: seq<Write>
    var names: seq<Entry>
    var sizes: seq<Entry>
    var times: seq<Entry>

    function Now(): State
      reads this
    {
      State(next, inodes, data, names, sizes, times)
    }

    constructor (start: nat, groupShift: nat)
      ensures Now() == State(start, [], [], [], [], []) && shift == groupShift
    {
      shift := groupShift;
      next := start;
      inodes, data, names, sizes, times := [], [], [], [], [];
    }

    /** `take`. */
    method Take(count: nat) returns (block: nat)
      modifies this`next
      ensures block == old(next) && next == old(next) + count
    {
      block := next;
      next := next + count;
    }

    /** The stream's blocks, taken and filled one after another. */
    method PutStream(stream: seq<byte>) returns (base: nat)
      modifies this`next, this`data
      ensures base == old(next) && next == old(next) + Blocks(|stream|)
      ensures data == old(data) + Pieces(base, stream)
    {
      var blocks := Blocks(|stream|);
      base := Take(blocks);
      for b := 0 to blocks
        invariant next == old(next) + blocks && data == old(data) + Pieces(base, stream)[..b]
      {
        data := data + [Write(base + b, Piece(stream, b))];
      }
      assert Pieces(base, stream)[..blocks] == Pieces(base, stream);
    }

    /** A file: its data follows its inode block. A file one run does not address is refused. */
    method BuildFile(name: Key, content: seq<byte>, own: nat) returns (ok: bool)
      requires |name| <= MAX_NAME
      modifies this
      ensures var l := FileLoc(name, content, old(next), old(next) + 1);
              && ok == Fine(l, own)
              && (ok ==> FineAll([l], own) && Now() == AfterAll(old(Now()), [l], own, l.base + Blocks(|content|), shift))
    {
      hide InodeBytes, Pieces, AfterAll, RunBytes, Int64, CoveredBytes;
      ghost var l := FileLoc(name, content, next, next + 1);
      ghost var before := Now();
      var block := Take(1);
      var blocks := Blocks(|content|);
      if blocks > MAX_RUN {
        return false;
      }
      AfterFile(before, l, own, l.base + blocks, shift);
      var runs: seq<seq<byte>> := [];
      if content != [] {
        var base := PutStream(content);
        runs := [RunBytes(base, blocks, shift)];
      } else {
        NoPieces(l.base);
      }
      var inode := BuildInode(RunBytes(block, 1, shift), FILE_MODE, RunBytes(own, 1, shift), |content|, runs,
                              Some(name), FIXTURE_TIME, 0);
      inodes := inodes + [Write(block, inode)];
      names := names + [Entry(name, block)];
      sizes := sizes + [Entry(Int64(|content|), block)];
      times := times + [Entry(Int64(FIXTURE_TIME), block)];
      return true;
    }

    /** One entry: its inode block is taken before anything of its own. */
    method BuildChild(item: Item, own: nat) returns (ok: bool, block: nat)
      requires |item.name| <= MAX_NAME && (item.Dir? ==> Legal(item.children))
      modifies this
      ensures block == old(next)
      ensures var l := LocateOne(item, own, old(next));
              && ok == Fine(l.0, own)
              && (ok ==> FineAll([l.0], own) && Now() == AfterAll(old(Now()), [l.0], own, l.1, shift))
      decreases item
    {
      hide Blocks, DirStream, AfterAll, AfterDir, Fine;
      if item.File? {
        block := next;
        ok := BuildFile(item.name, item.content, own);
      } else {
        ghost var before := Now();
        ghost var l := LocateOne(item, own, next).0;
        block := Take(1);
        names := names + [Entry(item.name, block)];
        ok := BuildDir(item.children, block, own, Some(item.name));
        if ok {
          AfterSubdir(before, l, own, shift);
        }
      }
    }

    /** The loop over a directory's entries: each is laid out, and named in the table. */
    method BuildChildren(items: seq<Item>, own: nat) returns (ok: bool, table: seq<Entry>)
      requires Legal(items)
      modifies this
      ensures var kids := Locate(items, own, old(next));
              && ok == FineAll(kids.locs, own)
              && (ok ==> Now() == AfterAll(old(Now()), kids.locs, own, kids.next, shift) && table == Named(kids.locs))
      decreases items, 0
    {
      hide Fine, AfterAll, Legal, Locate, LocateOne;
      table := [];
      ghost var start, before := next, Now();
      ghost var locs: seq<Loc> := [];
      LocateAll(items, own, start);
      AfterNone(before, own, shift);
      for i := 0 to |items|
        invariant |locs| == i && FineAll(locs, own) && table == Named(locs)
        invariant Legal(items[i..]) && Rest(items, own, start, locs, i, next)
        invariant Now() == AfterAll(before, locs, own, next, shift)
      {
        ghost var middle := next;
        LocateNext(items[i..], own, next);
        assert items[i..][1..] == items[i + 1..];
        ghost var l, after := LocateOne(items[i], own, next).0, LocateOne(items[i], own, next).1;
        var block;
        ok, block := BuildChild(items[i], own);
        RestNext(items, own, start, locs, i, middle);
        if !ok {
          assert Locate(items, own, start).locs[i] == l;
          return;
        }
        FineOne(l, own);
        AfterNext(before, locs, l, own, middle, after, shift);
        AllocatorAfter(AfterAll(before, locs, own, middle, shift), l, own, after, shift);
        table := table + [Entry(items[i].name, block)];
        locs := locs + [l];
      }
      RestDone(items, own, start, locs, next);
      ok := true;
    }

    /** `build`. */
    method BuildDir(items: seq<Item>, own: nat, parent: nat, name: Option<Key>) returns (ok: bool)
      requires Legal(items) && (name.Some? ==> |name.value| <= MAX_NAME)
      modifies this
      ensures var l := PlacedDir(items, own, name, old(next));
              && ok == Fine(l, parent)
              && (ok ==> Now() == AfterDir(old(Now()), l, parent, name, shift))
      decreases items, 1
    {
      hide AfterAll, AfterDir, Legal, Locate, TreeBytes, InodeBytes, RunBytes, CoveredBytes, Pieces, Blocks,
           FineAll, Fine, Sort, Table, Buildable, ShortNames, Extent, DirInode, DirStream, Entries;
      ghost var before := Now();
      ghost var l := PlacedDir(items, own, name, next);
      var table;
      ok, table := BuildChildren(items, own);
      FineDir(l, parent);
      if !ok {
        return;
      }
      TableIs(l.children, own, parent);
      DirStreamIs(l.children, own, parent);
      var tree := BuildTree(Sort(STRING_TYPE, table + [Entry(DOT, own), Entry(DOTDOT, parent)]));
      var blocks := Blocks(|tree|);
      if blocks > MAX_RUN {
        return false;
      }
      AfterDirParts(before, l, parent, name, shift);
      DirInodeIs(l, parent, name, shift, tree);
      var base := PutStream(tree);
      var inode := BuildInode(RunBytes(own, 1, shift), DIR_MODE, RunBytes(parent, 1, shift), |tree|,
                              [RunBytes(base, blocks, shift)], name, FIXTURE_TIME, 0);
      inodes := inodes + [Write(own, inode)];
    }
  }

  /** The children's own lines of a directory's table. */
  function Named(ls: seq<Loc>): (s: seq<Entry>)
    ensures |s| == |ls| && forall i | 0 <= i < |s| :: s[i] == Entry(ls[i].name, ls[i].block)
  {
    seq(|ls|, i requires 0 <= i < |ls| => Entry(ls[i].name, ls[i].block))
  }

  lemma TableIs(children: seq<Loc>, own: nat, parent: nat)
    ensures Named(children) + [Entry(DOT, own), Entry(DOTDOT, parent)] == Table(children, own, parent)
    ensures ShortNames(children) ==> Buildable(Sort(STRING_TYPE, Table(children, own, parent)))
  {
    hide Buildable, Sort;
    if ShortNames(children) {
      TableBuildable(children, own, parent);
    }
  }

  lemma DirStreamIs(children: seq<Loc>, own: nat, parent: nat)
    requires ShortNames(children)
    ensures Buildable(Sort(STRING_TYPE, Table(children, own, parent)))
    ensures DirStream(children, own, parent) == TreeBytes(Sort(STRING_TYPE, Table(children, own, parent)))
  {
    hide TreeBytes;
    TableBuildable(children, own, parent);
  }

  lemma DirInodeIs(l: Loc, parent: nat, name: Option<Key>, shift: nat, stream: seq<byte>)
    requires l.DirLoc? && Fine(l, parent) && (name.Some? ==> |name.value| <= MAX_NAME)
    requires ShortNames(l.children) && stream == DirStream(l.children, l.block, parent)
    ensures Extent(l, parent) == l.base + Blocks(|stream|)
    ensures var runs := [RunBytes(l.base, Blocks(|stream|), shift)];
            DirInode(l, parent, name, shift) ==
            Inode(RunBytes(l.block, 1, shift), DIR_MODE, RunBytes(parent, 1, shift), |stream|, runs, CoveredBytes(runs),
                  name, FIXTURE_TIME, 0)
  {
    hide DirStream, RunBytes, CoveredBytes;
  }

  lemma FineDir(l: Loc, parent: nat)
    requires l.DirLoc? && ShortNames(l.children) && |l.name| <= MAX_NAME
    ensures Fine(l, parent) <==> FineAll(l.children, l.block) && Blocks(|DirStream(l.children, l.block, parent)|) <= MAX_RUN
  {
    hide DirStream, Blocks;
  }

  /** A directory's state is its children's, its tree and its inode. */
  lemma AfterDirParts(s: State, l: Loc, parent: nat, name: Option<Key>, shift: nat)
    requires l.DirLoc? && Fine(l, parent) && (name.Some? ==> |name.value| <= MAX_NAME)
    ensures FineAll(l.children, l.block) && ShortNames(l.children)
    ensures AfterAll(s, l.children, l.block, l.base, shift).next == l.base
    ensures var kids := AfterAll(s, l.children, l.block, l.base, shift);
            AfterDir(s, l, parent, name, shift) ==
            kids.(next := Extent(l, parent),
                  inodes := kids.inodes + [Write(l.block, InodeBytes(DirInode(l, parent, name, shift)))],
                  data := kids.data + Pieces(l.base, DirStream(l.children, l.block, parent)))
  {
    hide InodeBytes, DirInode, Pieces, DirStream, Blocks, InodesAll, DataAll, NamesOf, SizesOf, TimesOf;
  }

  // ----- the loop's progress through the entries

  /** The entries from `i` on, laid out from `next`, complete the whole. */
  ghost predicate Rest(items: seq<Item>, own: nat, start: nat, locs: seq<Loc>, i: nat, next: nat)
    requires Legal(items) && i <= |items| && Legal(items[i..])
  {
    && Locate(items, own, start).locs == locs + Locate(items[i..], own, next).locs
    && Locate(items, own, start).next == Locate(items[i..], own, next).next
  }

  lemma LocateAll(items: seq<Item>, own: nat, start: nat)
    requires Legal(items)
    ensures Legal(items[0..]) && Rest(items, own, start, [], 0, start)
  {
    hide Legal, Locate;
    assert items[0..] == items;
  }

  lemma RestNext(items: seq<Item>, own: nat, start: nat, locs: seq<Loc>, i: nat, next: nat)
    requires Legal(items) && i < |items| && |locs| == i && Legal(items[i..]) && Rest(items, own, start, locs, i, next)
    ensures LegalName(items[i].name) && (items[i].Dir? ==> Legal(items[i].children)) && Legal(items[i + 1..])
    ensures var l := LocateOne(items[i], own, next);
            && Locate(items, own, start).locs[i] == l.0
            && Rest(items, own, start, locs + [l.0], i + 1, l.1)
  {
    hide Legal, Locate, LocateOne;
    LocateNext(items[i..], own, next);
    assert items[i..][1..] == items[i + 1..];
  }

  lemma RestDone(items: seq<Item>, own: nat, start: nat, locs: seq<Loc>, next: nat)
    requires Legal(items) && Legal(items[|items|..]) && Rest(items, own, start, locs, |items|, next)
    ensures Locate(items, own, start) == Located(locs, next)
  {
    hide Legal;
    assert items[|items|..] == [];
    assert locs + [] == locs;
  }

  /** Where a directory whose children start at `next` ends up. */
  ghost function PlacedDir(items: seq<Item>, own: nat, name: Option<Key>, next: nat): (l: Loc)
    requires Legal(items)
    ensures l.DirLoc? && ShortNames(l.children)
  {
    var kids := Locate(items, own, next);
    LegalShort(items, kids.locs);
    DirLoc(if name.Some? then name.value else [], own, kids.next, kids.locs)
  }
}
