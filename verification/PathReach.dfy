/** Which entries of a stored tree a path's bytes can reach: a component ends at a slash and an
    empty one steps up, so an entry is reached exactly when no name on its way is empty or holds a
    slash. */
module PathReach {
  import opened Bytes
  import opened Keys
  import opened Layout
  import opened Mount
  import opened VolumeReader
  import opened RoundTrip
  import opened IndexAgreement

  /** Whether a path can spell the name. */
  predicate Spellable(name: Key) { name != [] && SLASH !in name }

  ghost predicate SpellableWay(way: seq<Key>)
  {
    forall i | 0 <= i < |way| :: Spellable(way[i])
  }

  /** Some path leads to the inode block. */
  ghost predicate Reached(vol: seq<byte>, m: Mounted, isOwner: bool, block: nat)
  {
    exists path: seq<byte> :: Reach(vol, m, m.root, isOwner, Components(path)) == Some(block)
  }

  // ----- a way through the placed tree

  /** Each is the child of the one before that the way names. */
  ghost predicate Along(locs: seq<Loc>, way: seq<Key>)
  {
    && |locs| == |way| + 1
    && forall i | 0 <= i < |way| ::
         && locs[i].DirLoc? && ChildNamed(locs[i].children, way[i]).Some?
         && locs[i + 1] == locs[i].children[ChildNamed(locs[i].children, way[i]).value]
  }

  lemma {:induction false} AlongIsAt(locs: seq<Loc>, way: seq<Key>)
    requires Along(locs, way) && way != []
    ensures locs[0].DirLoc? && LocAt(locs[0].children, way) == Some(locs[|way|])
    decreases |way|
  {
    hide ChildNamed;
    assert locs[1] == locs[0].children[ChildNamed(locs[0].children, way[0]).value];
    if |way| > 1 {
      var locs', way' := locs[1..], way[1..];
      forall i | 0 <= i < |way'|
        ensures locs'[i].DirLoc? && ChildNamed(locs'[i].children, way'[i]).Some? &&
                locs'[i + 1] == locs'[i].children[ChildNamed(locs'[i].children, way'[i]).value]
      {
        assert locs'[i] == locs[i + 1] && way'[i] == way[i + 1] && locs'[i + 1] == locs[i + 2];
      }
      AlongIsAt(locs', way');
    }
  }

  lemma AlongOn(locs: seq<Loc>, way: seq<Key>, c: Key)
    requires Along(locs, way) && locs[|way|].DirLoc? && ChildNamed(locs[|way|].children, c).Some?
    ensures Along(locs + [locs[|way|].children[ChildNamed(locs[|way|].children, c).value]], way + [c])
  {
    hide ChildNamed;
  }

  lemma AlongUp(locs: seq<Loc>, way: seq<Key>)
    requires Along(locs, way) && way != []
    ensures Along(locs[..|way|], way[..|way| - 1])
  {
    hide ChildNamed;
  }

  // ----- no walk leaves the spellable part

  /** The block at the end of a way from `top`. */
  function AtWay(top: Loc, way: seq<Key>): Option<nat>
    requires top.DirLoc?
  {
    if way == [] then Some(top.block) else BlockOf(LocAt(top.children, way))
  }

  /** However a walk goes up and down, it ends where a spellable way leads. */
  lemma {:induction false} WalkIsSpellable(vol: seq<byte>, m: Mounted, locs: seq<Loc>, items: seq<Item>, way: seq<Key>,
                                           isOwner: bool, path: seq<Key>, block: nat) returns (end: seq<Key>)
    requires |locs| == |items| && Trail(vol, m, locs, items) && Along(locs, way) && SpellableWay(way) && locs[0].DirLoc?
    requires forall i | 0 <= i < |path| :: SLASH !in path[i]
    requires Reach(vol, m, locs[|way|].block, isOwner, path) == Some(block)
    ensures SpellableWay(end) && AtWay(locs[0], end) == Some(block)
    decreases |path|
  {
    hide Standing, Matches, Trail, Along, Reach, LocAt, ChildNamed;
    var n := |locs| - 1;
    AlongLength(locs, way);
    TrailTop(vol, m, locs, items);
    var l, item, parent, name := locs[n], items[n], ParentOf(locs, n), InodeName(locs, n);
    end := way;
    if way != [] {
      AlongIsAt(locs, way);
    }
    if item.File? {
      ReachFile(vol, m, l, item, parent, name, isOwner, path);
    } else {
      ReachDir(vol, m, l, item, parent, name, isOwner, path);
      if path != [] {
        var c := path[0];
        if c == [] || c == DOTDOT {
          if n > 0 {
            TrailUp(vol, m, locs, items);
            AlongUp(locs, way);
            end := WalkIsSpellable(vol, m, locs[..n], items[..n], way[..n - 1], isOwner, path[1..], block);
          } else {
            end := WalkIsSpellable(vol, m, locs, items, way, isOwner, path[1..], block);
          }
        } else if c == DOT {
          end := WalkIsSpellable(vol, m, locs, items, way, isOwner, path[1..], block);
        } else {
          var j := ChildNamed(l.children, c).value;
          TrailDown(vol, m, locs, items, j);
          AlongOn(locs, way, c);
          end := WalkIsSpellable(vol, m, locs + [l.children[j]], items + [item.children[j]], way + [c], isOwner, path[1..], block);
        }
      }
    }
  }

  lemma AlongLength(locs: seq<Loc>, way: seq<Key>)
    requires Along(locs, way)
    ensures |locs| == |way| + 1
  {
  }

  // ----- one way to a block

  lemma LaidRest(ls: seq<Loc>, own: nat, start: nat, end: nat)
    requires LaidAll(ls, own, start, end) && FineAll(ls, own) && ls != []
    ensures ls[0].DirLoc? ==> ShortNames(ls[0].children)
    ensures LaidAll(ls[1..], own, Extent(ls[0], own), end) && FineAll(ls[1..], own)
  {
    hide Extent, Laid, Fine;
  }

  lemma {:induction false} LaidApart(ls: seq<Loc>, own: nat, start: nat, end: nat, i: nat, j: nat)
    requires LaidAll(ls, own, start, end) && FineAll(ls, own) && i < j < |ls|
    ensures ls[i].DirLoc? ==> ShortNames(ls[i].children)
    ensures Extent(ls[i], own) <= ls[j].block
    decreases ls
  {
    hide Extent, Laid, LaidAll, Fine, FineAll;
    LaidRest(ls, own, start, end);
    if i > 0 {
      LaidApart(ls[1..], own, Extent(ls[0], own), end, i - 1, j - 1);
    } else {
      LaidWithin(ls[1..], own, Extent(ls[0], own), end, j - 1);
    }
  }

  /** What a way leads to lies in the extent of its first entry, and past that entry's inode
      unless it is that entry. */
  lemma {:induction false} WayWithin(ls: seq<Loc>, own: nat, start: nat, end: nat, way: seq<Key>)
    requires LaidAll(ls, own, start, end) && FineAll(ls, own) && way != [] && LocAt(ls, way).Some?
    ensures var l := ls[ChildNamed(ls, way[0]).value];
            && (l.DirLoc? ==> ShortNames(l.children))
            && l.block <= LocAt(ls, way).value.block < Extent(l, own)
            && (LocAt(ls, way).value.block == l.block <==> |way| == 1)
    decreases |way|
  {
    hide DirStream, Blocks, Laid, LaidAll, Fine, Extent;
    var i := ChildNamed(ls, way[0]).value;
    LaidWithin(ls, own, start, end, i);
    var l := ls[i];
    if |way| > 1 {
      DirParts(l, own);
      WayWithin(l.children, l.block, l.block + 1, l.base, way[1..]);
      LaidWithin(l.children, l.block, l.block + 1, l.base, ChildNamed(l.children, way[1]).value);
    } else {
      FineShort(l, own);
    }
  }

  lemma FineShort(l: Loc, own: nat)
    requires Fine(l, own)
    ensures l.DirLoc? ==> ShortNames(l.children)
  {
  }

  /** No two ways lead to one block. */
  lemma {:induction false} OneWay(ls: seq<Loc>, own: nat, start: nat, end: nat, a: seq<Key>, b: seq<Key>)
    requires LaidAll(ls, own, start, end) && FineAll(ls, own) && a != [] && b != []
    requires LocAt(ls, a).Some? && LocAt(ls, b).Some? && LocAt(ls, a).value.block == LocAt(ls, b).value.block
    ensures a == b
    decreases |a|
  {
    hide DirStream, Blocks, Laid, LaidAll, Fine, Extent;
    var i, j := ChildNamed(ls, a[0]).value, ChildNamed(ls, b[0]).value;
    WayWithin(ls, own, start, end, a);
    WayWithin(ls, own, start, end, b);
    if i < j {
      LaidApart(ls, own, start, end, i, j);
    } else if j < i {
      LaidApart(ls, own, start, end, j, i);
    }
    assert a[0] == ls[i].name == b[0];
    if |a| > 1 {
      LaidWithin(ls, own, start, end, i);
      DirParts(ls[i], own);
      OneWay(ls[i].children, ls[i].block, ls[i].block + 1, ls[i].base, a[1..], b[1..]);
    }
    assert a == [a[0]] + a[1..] && b == [b[0]] + b[1..];
  }

  // ----- what is reached

  lemma {:induction false} LegalWay(ls: seq<Loc>, way: seq<Key>)
    requires LegalTree(ls) && way != [] && LocAt(ls, way).Some? && SpellableWay(way)
    ensures ProperPath(way)
    decreases |way|
  {
    var i := ChildNamed(ls, way[0]).value;
    assert LegalName(ls[i].name) && Spellable(way[0]);
    if |way| > 1 {
      LegalWay(ls[i].children, way[1..]);
    }
  }

  /** An entry is reached by some path exactly when no name on its way is empty or holds a slash;
      the way itself is then such a path. */
  lemma ReachedIff(vol: seq<byte>, m: Mounted, root: Loc, item: Item, isOwner: bool, way: seq<Key>)
    requires Standing(vol, m, root, item, root.block, None) && item.Dir? && root.DirLoc? && m.root == root.block
    requires way != [] && LocAt(root.children, way).Some?
    ensures Reached(vol, m, isOwner, LocAt(root.children, way).value.block) <==> SpellableWay(way)
    ensures SpellableWay(way) ==>
              && ProperPath(way) && Components(Spelled(way)) == way
              && Reach(vol, m, m.root, isOwner, way) == Some(LocAt(root.children, way).value.block)
  {
    hide Standing, Matches, Reach, LocAt, Components, Spelled, LegalTree;
    var block := LocAt(root.children, way).value.block;
    StandingShape(vol, m, root, item, root.block, None);
    MatchedLegal(root, item);
    if SpellableWay(way) {
      assert forall i | 0 <= i < |way| :: Spellable(way[i]);
      SpelledReads(way);
      LegalWay(root.children, way);
      ReachIsLoc(vol, m, root, item, root.block, None, isOwner, way);
      assert Reach(vol, m, m.root, isOwner, Components(Spelled(way))) == Some(block);
    }
    if Reached(vol, m, isOwner, block) {
      var path :| Reach(vol, m, m.root, isOwner, Components(path)) == Some(block);
      var end := WalkIsSpellable(vol, m, [root], [item], [], isOwner, Components(path), block);
      StandingLaid(vol, m, root, item);
      DirParts(root, root.block);
      AtRoot(root, way);
      OneWay(root.children, root.block, root.block + 1, root.base, way, end);
    }
  }

  lemma StandingLaid(vol: seq<byte>, m: Mounted, root: Loc, item: Item)
    requires Standing(vol, m, root, item, root.block, None)
    ensures Laid(root) && Fine(root, root.block)
  {
    hide Laid, Fine, InodesOf, DataOf, AllHeld, Matches;
  }

  /** No entry is the root. */
  lemma AtRoot(root: Loc, way: seq<Key>)
    requires root.DirLoc? && Laid(root) && Fine(root, root.block) && way != [] && LocAt(root.children, way).Some?
    ensures LocAt(root.children, way).value.block != root.block
  {
    hide LocAt, Laid, LaidAll, Fine, DirStream, Extent;
    DirParts(root, root.block);
    WayWithin(root.children, root.block, root.block + 1, root.base, way);
    FirstNamed(root.children, way);
    LaidWithin(root.children, root.block, root.block + 1, root.base, ChildNamed(root.children, way[0]).value);
  }

  lemma FirstNamed(ls: seq<Loc>, way: seq<Key>)
    requires way != [] && LocAt(ls, way).Some?
    ensures ChildNamed(ls, way[0]).Some?
  {
  }
}
