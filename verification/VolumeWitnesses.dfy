/** Trees the builder stores and the guest's listing and index calls fall short on: eight files
    whose names fill a leaf past a block, sixteen of which one is missed by the name index, and
    126 that a listing by time never comes to the end of. */
module VolumeWitnesses {
  import opened Bytes
  import opened Keys
  import opened Geometry
  import opened NodePlan
  import opened NodeCodec
  import opened IndexTree
  import opened IndexReader
  import opened IndexWalking
  import opened IndexLimits
  import opened SmallIndex
  import opened Layout
  import opened LayoutBounds
  import opened LayoutCost
  import opened VolumePlan
  import opened Mount
  import opened VolumeReader
  import opened RoundTrip
  import opened BuiltVolume
  import opened VolumeReads
  import opened IndexAgreement
  import opened PathReach
  import opened StoredIndices
  import opened VolumeIndices
  import opened VolumeListing
  import opened MinimumSize
  import Sizing
  import SizingLimits

  /** Forty megabytes, the largest volume with the small log. */
  const SIZE: nat := 20480 * BLOCK

  // ----- directories of small files

  ghost predicate SmallFiles(items: seq<Item>)
  {
    forall i | 0 <= i < |items| :: items[i].File? && |items[i].content| <= BLOCK
  }

  lemma {:induction false} FilesLocated(items: seq<Item>, own: nat, next: nat)
    requires Legal(items) && SmallFiles(items)
    ensures var r := Locate(items, own, next);
            && r.next <= next + 2 * |items| && FineAll(r.locs, own) && forall i | 0 <= i < |r.locs| :: r.locs[i].FileLoc?
    decreases items
  {
    hide DirStream, Legal;
    if items == [] {
      LocateNone(own, next);
    } else {
      LocateNext(items, own, next);
      var first := LocateOne(items[0], own, next);
      FilesLocated(items[1..], own, first.1);
    }
  }

  /** The index entries of a directory of files: one each, in order. */
  lemma {:induction false} FilePairs(ls: seq<Loc>)
    requires forall i | 0 <= i < |ls| :: ls[i].FileLoc?
    ensures |NamesOf(ls)| == |SizesOf(ls)| == |TimesOf(ls)| == |ls|
    ensures forall i | 0 <= i < |ls| :: NamesOf(ls)[i].key == ls[i].name
  {
    hide Int64;
    if ls != [] {
      FilePairs(ls[1..]);
      forall i | 0 <= i < |ls| ensures NamesOf(ls)[i].key == ls[i].name {
        if i > 0 {
          assert NamesOf(ls)[i] == NamesOf(ls[1..])[i - 1] && ls[i] == ls[1..][i - 1];
        }
      }
    }
  }

  lemma FilesRoot(items: seq<Item>)
    requires Legal(items) && SmallFiles(items) && |items| <= 500
    ensures var root := RootOf(items, 0);
            && Fine(root, 0) && Extent(root, 0) <= 8 * |items| + 13
            && |NamesOf(root.children)| == |SizesOf(root.children)| == |TimesOf(root.children)| == |items|
  {
    hide DirStream, Blocks, Locate, NamesOf, SizesOf, TimesOf;
    FilesLocated(items, 0, 1);
    var root := RootOf(items, 0);
    FilePairs(root.children);
    DirStreamUpper(root.children, 0, 0);
  }

  lemma FilesCost(items: seq<Item>)
    requires Legal(items) && SmallFiles(items) && |items| <= 500
    ensures Streamable(items) && Cost(items) <= 20 * |items| + 100
  {
    hide Cost, Streamable, NamesOf, SizesOf, TimesOf, Fine, RootOf, Extent, Legal;
    FilesRoot(items);
    CostUpper(items);
  }

  lemma FilesFit(items: seq<Item>)
    requires Legal(items) && SmallFiles(items) && |items| <= 500
    ensures Fitting(items, SIZE)
  {
    hide Legal, Cost, Streamable, Sizing.Front, Fitting, BitmapBlocks, CeilDiv;
    FilesCost(items);
    FittingIff(items, 20480);
    Sizing.LogIs(20480);
    Sizing.BitmapIs(20480);
    Sizing.CeilBounds(20480);
  }

  // ----- the volume built from one

  ghost function VolumeOf(title: seq<byte>, items: seq<Item>): (vol: seq<byte>)
    requires Fitting(items, SIZE)
    ensures |vol| == SIZE
  {
    FittingIsPlaced(items, SIZE);
    BuiltImage(Zeros(SIZE), 0, SIZE, title, PlanVolume(items, DataStart(SIZE)))
  }

  lemma VolumeIsBuilt(title: seq<byte>, items: seq<Item>)
    requires Fitting(items, SIZE)
    ensures BuiltFrom(VolumeOf(title, items), SIZE, title, PlanVolume(items, DataStart(SIZE)), items)
  {
    hide Fitting, Placed, PlanVolume, BuiltImage, BuiltFrom;
    FittingIsPlaced(items, SIZE);
    var vol := VolumeOf(title, items);
    assert vol[0..SIZE] == vol;
    BuiltIsFrom(Zeros(SIZE), 0, SIZE, title, items, vol);
  }

  ghost predicate Named(items: seq<Item>)
  {
    forall i | 0 <= i < |items| :: items[i].name != []
  }

  /** Every file of the volume's root reads by its name. */
  ghost predicate AllRead(vol: seq<byte>, m: Mounted, items: seq<Item>)
  {
    forall i | 0 <= i < |items| ::
      items[i].File? && WalkFrom(vol, m, m.root, true, [items[i].name]) == FoundFile(items[i].content)
  }

  lemma FileReads(vol: seq<byte>, size: nat, title: seq<byte>, v: Volume, items: seq<Item>, i: nat)
    requires BuiltFrom(vol, size, title, v, items) && Legal(items) && i < |items| && items[i].File? && items[i].name != []
    ensures Open(vol).Some?
    ensures WalkFrom(vol, Open(vol).value, Open(vol).value.root, true, [items[i].name]) == FoundFile(items[i].content)
  {
    hide Placed, WalkFrom, Open, Regions, Matches, Seek, Legal, Streams;
    VolumeIsTree(vol, size, title, v, items, true, [items[i].name]);
    SeekFile(items, i);
  }

  lemma FilesRead(vol: seq<byte>, size: nat, title: seq<byte>, v: Volume, items: seq<Item>)
    requires BuiltFrom(vol, size, title, v, items) && Legal(items) && SmallFiles(items) && Named(items)
    ensures Open(vol).Some? && AllRead(vol, Open(vol).value, items)
  {
    hide BuiltFrom, WalkFrom, Open, Legal;
    BuiltOpens(vol, size, title, v, items);
    var m := Open(vol).value;
    forall i | 0 <= i < |items| ensures WalkFrom(vol, m, m.root, true, [items[i].name]) == FoundFile(items[i].content) {
      FileReads(vol, size, title, v, items, i);
    }
  }

  lemma BuiltOpens(vol: seq<byte>, size: nat, title: seq<byte>, v: Volume, items: seq<Item>)
    requires BuiltFrom(vol, size, title, v, items)
    ensures Open(vol).Some?
  {
    hide Placed, Regions, Matches, Streams, Open;
    Mounts(vol, size, title, v);
  }

  lemma SeekFile(items: seq<Item>, i: nat)
    requires Legal(items) && i < |items| && items[i].File? && items[i].name != []
    ensures Seek([Dir([], items)], [items[i].name]) == FoundFile(items[i].content)
  {
    assert LegalName(items[i].name);
    var stack, path := [Dir([], items)], [items[i].name];
    assert path[1..] == [];
    assert ItemNamed(items, items[i].name) == Some(i);
    assert Seek(stack + [items[i]], []) == FoundFile(items[i].content);
  }

  // ----- names of full length

  function LongName(i: nat): (name: Key)
    requires i < 26
    ensures |name| == MAX_NAME && name[0] == 65 + i
  {
    [65 + i] + seq(254, _ => 97 as byte)
  }

  /** `n` files of one byte, named by a capital letter and 254 small ones. */
  function LongFiles(n: nat): (items: seq<Item>)
    requires n <= 26
    ensures |items| == n && forall i | 0 <= i < n :: items[i] == File(LongName(i), [i])
  {
    seq(n, i requires 0 <= i < n => File(LongName(i), [i]))
  }

  lemma LongFilesFit(n: nat)
    requires n <= 26
    ensures SmallFiles(LongFiles(n)) && Named(LongFiles(n)) && Legal(LongFiles(n)) && Fitting(LongFiles(n), SIZE)
  {
    hide LongName, LongFiles, Fitting;
    var items := LongFiles(n);
    forall i, j | 0 <= i < j < n ensures items[i].name != items[j].name {
      assert items[i].name[0] != items[j].name[0];
    }
    FilesFit(items);
  }

  // ----- the listing

  lemma {:induction false} InsertBytes(dataType: nat, e: Entry, s: seq<Entry>)
    ensures KeyBytes(KeysOf(Insert(dataType, e, s))) == |e.key| + KeyBytes(KeysOf(s))
  {
    hide Below, KeyBytes;
    LastBytes(s, e);
    if s != [] {
      var n := |s| - 1;
      InsertBytes(dataType, e, s[..n]);
      LastBytes(Insert(dataType, e, s[..n]), s[n]);
      LastBytes(s[..n], s[n]);
      assert s[..n] + [s[n]] == s;
    } else {
      assert s + [e] == [e];
    }
  }

  lemma LastBytes(s: seq<Entry>, e: Entry)
    ensures KeyBytes(KeysOf(s + [e])) == KeyBytes(KeysOf(s)) + |e.key|
  {
    KeysAppend(s, e);
    KeyBytesConcat(KeysOf(s), [e.key]);
    assert KeyBytes([]) == 0;
    assert KeyBytes([e.key]) == |e.key|;
  }

  /** Sorting keeps the key bytes. */
  lemma {:induction false} SortBytes(dataType: nat, s: seq<Entry>)
    ensures KeyBytes(KeysOf(Sort(dataType, s))) == KeyBytes(KeysOf(s))
  {
    hide KeyBytes, Insert;
    if s != [] {
      var n := |s| - 1;
      SortBytes(dataType, s[..n]);
      InsertBytes(dataType, s[n], Sort(dataType, s[..n]));
      LastBytes(s[..n], s[n]);
      assert s[..n] + [s[n]] == s;
    }
  }

  /** Eight names of full length, "." and "..": one leaf, and more than a block. */
  lemma LongNamesLeaf(n: nat)
    requires 8 <= n <= 13
    ensures Plan(SortedNames(LongFiles(n))) == [Chunk(0, n + 2, MAX_NAME * n + 3)]
  {
    hide PlanFrom, Sort, LongFiles, LongName;
    var items := LongFiles(n);
    var table, names := NameTable(items), seq(n, i requires 0 <= i < n => LongName(i));
    assert KeysOf(table) == names + [DOT] + [DOTDOT];
    LongKeyBytes(names);
    KeyBytesConcat(names, [DOT]);
    KeyBytesConcat(names + [DOT], [DOTDOT]);
    assert KeyBytes([DOT]) == 1 && KeyBytes([DOTDOT]) == 2;
    SortBytes(STRING_TYPE, table);
    OneLeaf(SortedNames(items));
  }

  /** Every file reads by its name, and the listing shows nothing at its last index. */
  ghost predicate LastUnlisted(vol: seq<byte>, items: seq<Item>)
  {
    && Open(vol).Some? && AllRead(vol, Open(vol).value, items)
    && ListedAt(vol, Open(vol).value, Open(vol).value.root, |SortedNames(items)| - 1) == None
  }

  lemma LongListing(vol: seq<byte>, size: nat, title: seq<byte>, v: Volume, n: nat)
    requires 8 <= n <= 13 && BuiltFrom(vol, size, title, v, LongFiles(n))
    ensures LastUnlisted(vol, LongFiles(n))
  {
    hide LongFiles, Fitting, Open, AllRead, BuiltFrom, Plan, SortedNames, ListedAt, Reach, ListsNames, LeavesWithin;
    var items := LongFiles(n);
    LongFilesFit(n);
    FilesRead(vol, size, title, v, items);
    assert ItemAt(Dir([], items), []) == Some(Dir([], items));
    PathListsIff(vol, size, title, v, items, true, []);
    RootReached(vol, Open(vol).value, true);
    LongNamesLeaf(n);
    assert Plan(SortedNames(items))[0] == Chunk(0, n + 2, MAX_NAME * n + 3);
  }

  /** A root of eight such files: its listing has ten entries and shows nothing at the last,
      though every file reads by its name. So do the next few. */
  lemma ListingFallsShort(title: seq<byte>, n: nat)
    requires 8 <= n <= 13
    ensures Fitting(LongFiles(n), SIZE) && LastUnlisted(VolumeOf(title, LongFiles(n)), LongFiles(n))
  {
    hide LongFiles, Fitting, VolumeOf, LastUnlisted, BuiltFrom, PlanVolume, DataStart;
    LongFilesFit(n);
    VolumeIsBuilt(title, LongFiles(n));
    LongListing(VolumeOf(title, LongFiles(n)), SIZE, title, PlanVolume(LongFiles(n), DataStart(SIZE)), n);
  }

  lemma RootReached(vol: seq<byte>, m: Mounted, isOwner: bool)
    requires Reach(vol, m, m.root, isOwner, []).Some?
    ensures Reach(vol, m, m.root, isOwner, []) == Some(m.root)
  {
  }

  // ----- the name index

  lemma {:induction false} SortedStays(dataType: nat, s: seq<Entry>)
    requires StrictlyAscending(dataType, s) && ValidKeys(dataType, s)
    ensures Sort(dataType, s) == s
  {
    hide Below;
    if s != [] {
      var n := |s| - 1;
      SortedStays(dataType, s[..n]);
      if n > 0 {
        Asymmetric(dataType, s[n - 1].key, s[n].key);
      }
    }
  }

  /** The index of names of full length: a group each, and at most fifteen in its first leaf. */
  lemma LongNamesIndex(pairs: seq<Entry>)
    requires 0 < |pairs| <= 26 && forall i | 0 <= i < |pairs| :: pairs[i].key == LongName(i)
    ensures var groups := IndexGroups(STRING_TYPE, pairs);
            |groups| == |pairs| && forall i | 0 <= i < |pairs| :: groups[i].key == LongName(i)
    ensures FirstLeafCount(STRING_TYPE, pairs) <= 15
  {
    hide LongName, Plan, IndexGroups;
    forall i, j | 0 <= i < j < |pairs| ensures Below(STRING_TYPE, pairs[i].key, pairs[j].key) && pairs[i].key != pairs[j].key {
      assert pairs[i].key[0] == 65 + i && pairs[j].key[0] == 65 + j;
    }
    SortedStays(STRING_TYPE, pairs);
    SingleGroups(pairs);
    LongFirstLeaf(GroupKeys(IndexGroups(STRING_TYPE, pairs)));
  }

  lemma LongFileNames(n: nat, ls: seq<Loc>)
    requires n <= 26 && |ls| == n && forall i | 0 <= i < n :: Matches(ls[i], LongFiles(n)[i])
    ensures |NamesOf(ls)| == n && forall i | 0 <= i < n :: NamesOf(ls)[i].key == LongName(i)
  {
    hide LongName, LongFiles, NamesOf;
    forall i | 0 <= i < n ensures ls[i].FileLoc? && ls[i].name == LongName(i) {
      assert Matches(ls[i], LongFiles(n)[i]);
    }
    FilePairs(ls);
  }

  /** Every file reads by its name, and the name index does not lead to this one. */
  ghost predicate Missed(vol: seq<byte>, items: seq<Item>, name: Key)
  {
    && Open(vol).Some? && AllRead(vol, Open(vol).value, items)
    && WalkIn(vol, Open(vol).value, NAME, name, 0).value == None
  }

  lemma LongIndex(vol: seq<byte>, size: nat, title: seq<byte>, v: Volume, n: nat, i: nat)
    requires 15 <= i < n <= 26 && BuiltFrom(vol, size, title, v, LongFiles(n))
    ensures Missed(vol, LongFiles(n), LongName(i))
  {
    hide LongName, LongFiles, Fitting, Open, AllRead, Placed, Regions, Streams, WalkIn, IndexGroups, FirstLeafCount, NAME, NamesOf;
    LongFilesFit(n);
    FilesRead(vol, size, title, v, LongFiles(n));
    LongFileNames(n, v.root.children);
    LongNamesIndex(NamesOf(v.root.children));
    NameWalkFindsIff(vol, size, title, v, LongFiles(n), i);
  }

  /** A root of sixteen such files or more: the sixteenth and later are not found through the
      name index, though they read by their names. */
  lemma NameMissed(title: seq<byte>, n: nat, i: nat)
    requires 15 <= i < n <= 26
    ensures Fitting(LongFiles(n), SIZE) && Missed(VolumeOf(title, LongFiles(n)), LongFiles(n), LongName(i))
  {
    hide LongFiles, Fitting, VolumeOf, Missed, BuiltFrom, PlanVolume, DataStart, LongName;
    LongFilesFit(n);
    VolumeIsBuilt(title, LongFiles(n));
    LongIndex(VolumeOf(title, LongFiles(n)), SIZE, title, PlanVolume(LongFiles(n), DataStart(SIZE)), n, i);
  }

  // ----- the time index

  /** `n` files of one byte, named by letters. */
  function ShortFiles(n: nat): (items: seq<Item>)
    requires n <= 200
    ensures |items| == n && forall i | 0 <= i < n :: items[i] == File(SizingLimits.Letters(i), [i])
  {
    seq(n, i requires 0 <= i < n => File(SizingLimits.Letters(i), [i]))
  }

  lemma {:induction false} CountFiles(items: seq<Item>)
    requires SmallFiles(items)
    ensures FileCount(items) == |items|
  {
    if items != [] {
      CountFiles(items[1..]);
    }
  }

  lemma ShortFilesFit(n: nat)
    requires n <= 200
    ensures SmallFiles(ShortFiles(n)) && Legal(ShortFiles(n)) && Fitting(ShortFiles(n), SIZE)
  {
    hide ShortFiles, SizingLimits.Letters, LegalName, Fitting;
    var items := ShortFiles(n);
    forall i, j | 0 <= i < j < n ensures items[i].name != items[j].name {
      SizingLimits.LettersDiffer(i, j);
    }
    forall i | 0 <= i < n ensures LegalName(items[i].name) {
      SizingLimits.LettersLegal(i);
    }
    FilesFit(items);
  }

  /** Listing the volume's files by their time does not end. */
  ghost predicate Endless(vol: seq<byte>)
  {
    && Open(vol).Some? && IndexIn(vol, Open(vol).value, LAST_MODIFIED).Some?
    && !Stops(IndexIn(vol, Open(vol).value, LAST_MODIFIED).value, Int64(FIXTURE_TIME))
  }

  lemma ManyTimes(vol: seq<byte>, size: nat, title: seq<byte>, v: Volume, n: nat)
    requires 125 < n <= 200 && BuiltFrom(vol, size, title, v, ShortFiles(n))
    ensures Endless(vol)
  {
    hide ShortFiles, SizingLimits.Letters, Fitting, Open, BuiltFrom, IndexIn, LAST_MODIFIED, Stops, Int64;
    ShortFilesFit(n);
    CountFiles(ShortFiles(n));
    TimeWalkStopsIff(vol, size, title, v, ShortFiles(n));
  }

  /** A root of 126 files or more is one such volume. */
  lemma TimesDoNotEnd(title: seq<byte>, n: nat)
    requires 125 < n <= 200
    ensures Fitting(ShortFiles(n), SIZE) && Endless(VolumeOf(title, ShortFiles(n)))
  {
    hide ShortFiles, SizingLimits.Letters, Fitting, VolumeOf, BuiltFrom, Endless, PlanVolume, DataStart;
    ShortFilesFit(n);
    VolumeIsBuilt(title, ShortFiles(n));
    ManyTimes(VolumeOf(title, ShortFiles(n)), SIZE, title, PlanVolume(ShortFiles(n), DataStart(SIZE)), n);
  }

  // ----- a name no path spells

  /** The name index has the name, and no path of any user leads to its inode. */
  ghost predicate Unreached(vol: seq<byte>, name: Key)
  {
    && Open(vol).Some? && IndexIn(vol, Open(vol).value, NAME).Some?
    && exists e :: e in IndexPairs(IndexIn(vol, Open(vol).value, NAME).value) && e.key == name &&
         forall isOwner :: !Reached(vol, Open(vol).value, isOwner, e.value)
  }

  lemma OneChild(l: Loc, name: Key, content: seq<byte>)
    requires Matches(l, Dir([], [File(name, content)]))
    ensures l.DirLoc? && |l.children| == 1 && l.children[0].FileLoc? && l.children[0].name == name
    ensures LocAt(l.children, [name]) == Some(l.children[0])
    ensures Entry(name, l.children[0].block) in NamesOf(l.children)
  {
    var items := [File(name, content)];
    assert Matches(l.children[0], items[0]);
    var r := ChildNamed(l.children, name);
    assert r == Some(0);
  }

  lemma UnspelledFile(vol: seq<byte>, size: nat, title: seq<byte>, v: Volume, name: Key, content: seq<byte>)
    requires BuiltFrom(vol, size, title, v, [File(name, content)]) && !Spellable(name)
    ensures Unreached(vol, name)
  {
    hide Placed, Regions, Streams, Matches, Standing, Open, IndexIn, NAME, IndexPairs, NamesOf, LocAt, Reached, LegalTree, OnePerInode, MountOf, WaySpells;
    var items := [File(name, content)];
    BuiltParts(vol, size, title, v, items);
    GatheredPairs(v, size);
    OneChild(v.root, name, content);
    forall isOwner ensures !Reached(vol, Open(vol).value, isOwner, v.root.children[0].block) {
      EntryReachedIff(vol, size, title, v, items, isOwner, [name]);
      assert [name][0] == name;
    }
    var e := Entry(name, v.root.children[0].block);
    assert e in IndexPairs(IndexIn(vol, Open(vol).value, NAME).value);
  }

  /** A root of one file whose name is empty or holds a slash. */
  lemma NameUnreached(title: seq<byte>, name: Key)
    requires LegalName(name) && !Spellable(name)
    ensures Fitting([File(name, [1])], SIZE) && Unreached(VolumeOf(title, [File(name, [1])]), name)
  {
    hide Fitting, VolumeOf, Unreached, BuiltFrom, PlanVolume, DataStart;
    var items := [File(name, [1])];
    assert forall i | 0 <= i < |items| :: items[i] == File(name, [1]);
    FilesFit(items);
    VolumeIsBuilt(title, items);
    UnspelledFile(VolumeOf(title, items), SIZE, title, PlanVolume(items, DataStart(SIZE)), name, [1]);
  }
}
