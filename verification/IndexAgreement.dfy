/** The indices against the directories: the name index holds one pair per entry of the tree,
    the size and last_modified indices one per file, and each names the inode a walk reaches. */
module IndexAgreement {
  import opened Bytes
  import opened Keys
  import opened Inode
  import opened Layout
  import opened Mount
  import opened VolumeReader
  import opened Ownership
  import opened RoundTrip

  // ----- paths through the placed tree

  /** A component that is looked up, not one that steps up or stays. */
  predicate ProperName(name: Key) { name != [] && name != DOT && name != DOTDOT }

  ghost predicate ProperPath(path: seq<Key>)
  {
    forall i | 0 <= i < |path| :: ProperName(path[i])
  }

  /** The entry a path names among `children`. */
  function LocAt(children: seq<Loc>, path: seq<Key>): Option<Loc>
    requires path != []
    decreases |path|
  {
    match ChildNamed(children, path[0])
    case None => None
    case Some(i) =>
      if |path| == 1 then Some(children[i])
      else if children[i].FileLoc? then None
      else LocAt(children[i].children, path[1..])
  }

  // ----- the block a walk ends on

  /** `walk`'s own result: the inode block the path leads to. */
  function Reach(vol: seq<byte>, m: Mounted, block: nat, isOwner: bool, path: seq<Key>): Option<nat>
    decreases |path|
  {
    match ReadInode(vol, m, block)
    case None => None
    case Some(inode) =>
      if path == [] then Some(block)
      else
        match VolumeReader.Step(vol, m, inode, isOwner, path[0])
        case None => None
        case Some(next) => Reach(vol, m, next, isOwner, path[1..])
  }

  /** `Reach` is `WalkFrom` before the inode is looked at. */
  lemma {:induction false} WalkIsReach(vol: seq<byte>, m: Mounted, block: nat, isOwner: bool, path: seq<Key>)
    ensures match Reach(vol, m, block, isOwner, path)
            case None => WalkFrom(vol, m, block, isOwner, path) == NotFound
            case Some(b) => ReadInode(vol, m, b).Some? &&
                            WalkFrom(vol, m, block, isOwner, path) == Describe(vol, m, ReadInode(vol, m, b).value)
    decreases |path|
  {
    hide Describe, VolumeReader.Step;
    var inode := ReadInode(vol, m, block);
    if inode.Some? && path != [] {
      var next := VolumeReader.Step(vol, m, inode.value, isOwner, path[0]);
      if next.Some? {
        WalkIsReach(vol, m, next.value, isOwner, path[1..]);
      }
    }
  }

  lemma ReachFile(vol: seq<byte>, m: Mounted, l: Loc, item: Item, parent: nat, name: Option<Key>, isOwner: bool, path: seq<Key>)
    requires Standing(vol, m, l, item, parent, name) && item.File?
    ensures Reach(vol, m, l.block, isOwner, path) == if path == [] then Some(l.block) else None
  {
    hide InodesOf, DataOf, AllHeld, Stream, InodeBytes, MaySearch, Describe;
    FileIsRead(vol, m, l, parent, name);
    FileModeIs();
  }

  lemma ReachDir(vol: seq<byte>, m: Mounted, l: Loc, item: Item, parent: nat, name: Option<Key>, isOwner: bool, path: seq<Key>)
    requires Standing(vol, m, l, item, parent, name) && item.Dir?
    ensures l.DirLoc?
    ensures Reach(vol, m, l.block, isOwner, path) ==
            if path == [] then Some(l.block)
            else if StepTo(l, parent, path[0]).None? then None
            else Reach(vol, m, StepTo(l, parent, path[0]).value, isOwner, path[1..])
  {
    hide Standing, Matches, Stream, InodeBytes, MaySearch, Describe, StepTo, VolumeReader.Step, DirInode;
    StandingShape(vol, m, l, item, parent, name);
    StepInDir(vol, m, l, item, parent, name, isOwner, if path == [] then [] else path[0]);
  }

  function BlockOf(l: Option<Loc>): Option<nat>
  {
    match l
    case None => None
    case Some(loc) => Some(loc.block)
  }

  /** A proper path reaches the block the placed tree gives it. */
  lemma {:induction false} ReachIsLoc(vol: seq<byte>, m: Mounted, l: Loc, item: Item, parent: nat, name: Option<Key>,
                                      isOwner: bool, path: seq<Key>)
    requires Standing(vol, m, l, item, parent, name) && item.Dir? && path != [] && ProperPath(path)
    ensures l.DirLoc?
    ensures Reach(vol, m, l.block, isOwner, path) == BlockOf(LocAt(l.children, path))
    decreases |path|
  {
    hide Standing, Matches, Reach;
    StandingShape(vol, m, l, item, parent, name);
    ReachDir(vol, m, l, item, parent, name, isOwner, path);
    var i := ChildNamed(l.children, path[0]);
    assert ProperName(path[0]);
    if i.Some? {
      var child, childItem := l.children[i.value], item.children[i.value];
      ChildStanding(vol, m, l, item, parent, name, i.value);
      StandingShape(vol, m, child, childItem, l.block, Some(child.name));
      FileShape(child, childItem);
      if childItem.File? {
        ReachFile(vol, m, child, childItem, l.block, Some(child.name), isOwner, path[1..]);
      } else if |path| > 1 {
        ReachIsLoc(vol, m, child, childItem, l.block, Some(child.name), isOwner, path[1..]);
      } else {
        ReachDir(vol, m, child, childItem, l.block, Some(child.name), isOwner, path[1..]);
      }
    }
  }

  lemma FileShape(l: Loc, item: Item)
    requires Matches(l, item)
    ensures item.File? <==> l.FileLoc?
    ensures item.Dir? ==> |l.children| == |item.children|
  {
  }

  // ----- the gathered pairs against the placed tree

  /** Names the format allows, distinct in their directory, all the way down. */
  ghost predicate LegalTree(ls: seq<Loc>)
    decreases ls
  {
    ProperNames(ls) && forall i | 0 <= i < |ls| :: ls[i].DirLoc? ==> LegalTree(ls[i].children)
  }

  lemma {:induction false} MatchedLegal(l: Loc, item: Item)
    requires Matches(l, item) && item.Dir?
    ensures LegalTree(l.children)
    decreases item
  {
    ProperChildren(l, item);
    var ls, items := l.children, item.children;
    forall i | 0 <= i < |ls| ensures ls[i].DirLoc? ==> LegalTree(ls[i].children) {
      assert Matches(ls[i], items[i]);
      if ls[i].DirLoc? {
        MatchedLegal(ls[i], items[i]);
      }
    }
  }

  lemma {:induction false} ChildIs(children: seq<Loc>, i: nat)
    requires ProperNames(children) && i < |children|
    ensures ChildNamed(children, children[i].name) == Some(i)
  {
    var r := ChildNamed(children, children[i].name);
  }

  /** The names on the way to `l`, its own last. */
  ghost predicate FoundAt(ls: seq<Loc>, way: seq<Key>, l: Loc)
  {
    way != [] && way[|way| - 1] == l.name && LocAt(ls, way) == Some(l)
  }

  ghost predicate Within(ls: seq<Loc>, l: Loc)
    decreases ls
  {
    exists i | 0 <= i < |ls| :: ls[i] == l || (ls[i].DirLoc? && Within(ls[i].children, l))
  }

  /** Everything below a directory has such a way. */
  lemma {:induction false} WayTo(ls: seq<Loc>, l: Loc) returns (way: seq<Key>)
    requires LegalTree(ls) && Within(ls, l)
    ensures FoundAt(ls, way, l)
    decreases ls
  {
    var i :| 0 <= i < |ls| && (ls[i] == l || (ls[i].DirLoc? && Within(ls[i].children, l)));
    ChildIs(ls, i);
    if ls[i] == l {
      way := [l.name];
    } else {
      var rest := WayTo(ls[i].children, l);
      way := [ls[i].name] + rest;
      assert way[1..] == rest;
    }
  }

  /** And a path finds nothing else. */
  lemma {:induction false} PathsAreWithin(ls: seq<Loc>, path: seq<Key>)
    requires path != [] && LocAt(ls, path).Some?
    ensures Within(ls, LocAt(ls, path).value) && LocAt(ls, path).value.name == path[|path| - 1]
    decreases |path|
  {
    var i := ChildNamed(ls, path[0]).value;
    if |path| > 1 {
      PathsAreWithin(ls[i].children, path[1..]);
    }
  }

  lemma {:induction false} WithinRest(ls: seq<Loc>, l: Loc)
    requires ls != []
    ensures Within(ls, l) <==> ls[0] == l || (ls[0].DirLoc? && Within(ls[0].children, l)) || Within(ls[1..], l)
  {
    if Within(ls, l) {
      var i :| 0 <= i < |ls| && (ls[i] == l || (ls[i].DirLoc? && Within(ls[i].children, l)));
      if i > 0 {
        assert ls[1..][i - 1] == ls[i];
      }
    }
    if Within(ls[1..], l) {
      var i :| 0 <= i < |ls[1..]| && (ls[1..][i] == l || (ls[1..][i].DirLoc? && Within(ls[1..][i].children, l)));
      assert ls[i + 1] == ls[1..][i];
    }
  }

  /** The name index: a pair per entry, no more. */
  lemma {:induction false} NamesExact(ls: seq<Loc>, e: Entry)
    ensures e in NamesOf(ls) <==> exists l :: Within(ls, l) && e == Entry(l.name, l.block)
    decreases ls
  {
    if ls == [] {
      assert forall l :: !Within(ls, l);
    } else {
      NamesExact(ls[1..], e);
      if ls[0].DirLoc? {
        NamesExact(ls[0].children, e);
      }
      forall l ensures Within(ls, l) <==> ls[0] == l || (ls[0].DirLoc? && Within(ls[0].children, l)) || Within(ls[1..], l) {
        WithinRest(ls, l);
      }
    }
  }

  /** The size and last_modified indices: a pair per file. */
  lemma {:induction false} SizesExact(ls: seq<Loc>, e: Entry)
    ensures e in SizesOf(ls) <==> exists l :: Within(ls, l) && l.FileLoc? && e == Entry(Int64(|l.content|), l.block)
    decreases ls
  {
    hide Int64;
    if ls == [] {
      assert forall l :: !Within(ls, l);
    } else {
      SizesExact(ls[1..], e);
      if ls[0].DirLoc? {
        SizesExact(ls[0].children, e);
      }
      forall l ensures Within(ls, l) <==> ls[0] == l || (ls[0].DirLoc? && Within(ls[0].children, l)) || Within(ls[1..], l) {
        WithinRest(ls, l);
      }
    }
  }

  lemma {:induction false} TimesExact(ls: seq<Loc>, e: Entry)
    ensures e in TimesOf(ls) <==> exists l :: Within(ls, l) && l.FileLoc? && e == Entry(Int64(FIXTURE_TIME), l.block)
    decreases ls
  {
    hide Int64;
    if ls == [] {
      assert forall l :: !Within(ls, l);
    } else {
      TimesExact(ls[1..], e);
      if ls[0].DirLoc? {
        TimesExact(ls[0].children, e);
      }
      forall l ensures Within(ls, l) <==> ls[0] == l || (ls[0].DirLoc? && Within(ls[0].children, l)) || Within(ls[1..], l) {
        WithinRest(ls, l);
      }
    }
  }

  // ----- one pair per inode

  /** Blocks strictly increasing, all from `start` up to `end`. */
  ghost predicate Rising(es: seq<Entry>, start: nat, end: nat)
  {
    && (forall i | 0 <= i < |es| :: start <= es[i].value < end)
    && (forall i, j | 0 <= i < j < |es| :: es[i].value < es[j].value)
  }

  lemma RisingJoin(a: seq<Entry>, b: seq<Entry>, start: nat, middle: nat, end: nat)
    requires start <= middle <= end && Rising(a, start, middle) && Rising(b, middle, end)
    ensures Rising(a + b, start, end)
  {
  }

  lemma RisingOne(e: Entry)
    ensures Rising([e], e.value, e.value + 1)
  {
  }

  lemma RisingWiden(a: seq<Entry>, start: nat, end: nat, start': nat, end': nat)
    requires Rising(a, start, end) && start' <= start && end <= end'
    ensures Rising(a, start', end')
  {
  }

  /** The pairs are gathered in the order their inodes were allocated, so no inode is indexed
      twice. */
  lemma {:induction false} PairsRise(ls: seq<Loc>, own: nat, start: nat, end: nat)
    requires LaidAll(ls, own, start, end) && FineAll(ls, own)
    ensures Rising(NamesOf(ls), start, end) && Rising(SizesOf(ls), start, end) && Rising(TimesOf(ls), start, end)
    decreases ls
  {
    hide DirStream, Blocks, Rising, Owned, Span, Int64;
    if ls == [] {
      NoneRise(start, end);
    } else {
      var l, middle := ls[0], Extent(ls[0], own);
      assert Fine(l, own);
      OwnsExtent(l, own, None, 14);
      OwnsAll(ls[1..], own, middle, end, 14);
      PairsRise(ls[1..], own, middle, end);
      FirstRises(l, own);
      RisingJoin(NamesFirst(l), NamesOf(ls[1..]), start, middle, end);
      RisingJoin(SizesOf([l]), SizesOf(ls[1..]), start, middle, end);
      RisingJoin(TimesOf([l]), TimesOf(ls[1..]), start, middle, end);
      OneLoc(l);
    }
  }

  lemma NoneRise(start: nat, end: nat)
    ensures Rising([], start, end)
  {
  }

  function NamesFirst(l: Loc): seq<Entry>
  {
    [Entry(l.name, l.block)] + (if l.DirLoc? then NamesOf(l.children) else [])
  }

  lemma OneLoc(l: Loc)
    ensures SizesOf([l]) == if l.FileLoc? then [Entry(Int64(|l.content|), l.block)] else SizesOf(l.children)
    ensures TimesOf([l]) == if l.FileLoc? then [Entry(Int64(FIXTURE_TIME), l.block)] else TimesOf(l.children)
  {
    assert SizesOf([]) == [] && TimesOf([]) == [];
  }

  lemma FileRises(l: Loc, own: nat)
    requires l.FileLoc? && l.block < Extent(l, own)
    ensures Rising(NamesFirst(l), l.block, Extent(l, own))
    ensures Rising(SizesOf([l]), l.block, Extent(l, own)) && Rising(TimesOf([l]), l.block, Extent(l, own))
  {
    hide Blocks, Int64, SizesOf, TimesOf;
    OneLoc(l);
  }

  lemma DirParts(l: Loc, own: nat)
    requires l.DirLoc? && Laid(l) && Fine(l, own)
    ensures LaidAll(l.children, l.block, l.block + 1, l.base) && FineAll(l.children, l.block)
    ensures ShortNames(l.children) && l.block < l.base <= Extent(l, own)
  {
    hide DirStream, Blocks, Owned, Span;
    OwnsAll(l.children, l.block, l.block + 1, l.base, 14);
  }

  lemma {:induction false} FirstRises(l: Loc, own: nat)
    requires Laid(l) && Fine(l, own)
    ensures Rising(NamesFirst(l), l.block, Extent(l, own))
    ensures Rising(SizesOf([l]), l.block, Extent(l, own)) && Rising(TimesOf([l]), l.block, Extent(l, own))
    decreases l, 0
  {
    hide Extent, Laid, LaidAll, Fine, FineAll, Rising, Owned, Span, NamesOf, SizesOf, TimesOf;
    if l.FileLoc? {
      OwnsExtent(l, own, None, 14);
      FileRises(l, own);
    } else {
      OneLoc(l);
      DirParts(l, own);
      RisingOne(Entry(l.name, l.block));
      PairsRise(l.children, l.block, l.block + 1, l.base);
      RisingJoin([Entry(l.name, l.block)], NamesOf(l.children), l.block, l.block + 1, l.base);
      RisingWiden(NamesFirst(l), l.block, l.base, l.block, Extent(l, own));
      RisingWiden(SizesOf(l.children), l.block + 1, l.base, l.block, Extent(l, own));
      RisingWiden(TimesOf(l.children), l.block + 1, l.base, l.block, Extent(l, own));
    }
  }
}
