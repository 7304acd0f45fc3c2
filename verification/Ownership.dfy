/** Every block of the layout is written exactly once. */
module Ownership {
  import opened Bytes
  import opened Keys
  import opened Layout
  import opened Inode

  /** How often each block is written. */
  function Owned(ws: seq<Write>): multiset<nat>
  {
    if ws == [] then multiset{} else multiset{ws[0].block} + Owned(ws[1..])
  }

  lemma {:induction false} OwnedAppend(a: seq<Write>, b: seq<Write>)
    ensures Owned(a + b) == Owned(a) + Owned(b)
  {
    if a == [] {
      assert a + b == b;
    } else {
      assert (a + b)[1..] == a[1..] + b;
      OwnedAppend(a[1..], b);
    }
  }

  /** Each block from `start` up to `end`, once. */
  function Span(start: nat, end: nat): multiset<nat>
    decreases end - start
  {
    if start >= end then multiset{} else multiset{start} + Span(start + 1, end)
  }

  lemma {:induction false} SpanJoin(a: nat, b: nat, c: nat)
    requires a <= b <= c
    ensures Span(a, c) == Span(a, b) + Span(b, c)
    decreases b - a
  {
    if a < b {
      SpanJoin(a + 1, b, c);
    }
  }

  lemma {:induction false} SpanCount(start: nat, end: nat, b: nat)
    ensures Span(start, end)[b] == if start <= b < end then 1 else 0
    decreases end - start
  {
    if start < end {
      SpanCount(start + 1, end, b);
    }
  }

  lemma {:induction false} ConsecutiveOwned(ws: seq<Write>, base: nat)
    requires forall b | 0 <= b < |ws| :: ws[b].block == base + b
    ensures Owned(ws) == Span(base, base + |ws|)
  {
    if ws != [] {
      ConsecutiveOwned(ws[1..], base + 1);
    }
  }

  lemma OneOwned(w: Write)
    ensures Owned([w]) == multiset{w.block}
  {
    assert [w][1..] == [];
    assert Owned([]) == multiset{};
  }

  /** An entry's writes cover its extent, each block once. */
  lemma {:induction false} OwnsExtent(l: Loc, parent: nat, name: Option<Key>, shift: nat)
    requires Laid(l) && Fine(l, parent) && (name.Some? ==> |name.value| <= MAX_NAME)
    ensures l.block < Extent(l, parent)
    ensures Owned(InodesOf(l, parent, name, shift)) + Owned(DataOf(l, parent)) == Span(l.block, Extent(l, parent))
    decreases l
  {
    hide DirStream, Blocks, InodeBytes, FileInode, DirInode, Owned, Span;
    match l
    case FileLoc(_, content, block, base) =>
      OneOwned(Write(block, InodeBytes(FileInode(l, parent, shift))));
      ConsecutiveOwned(Pieces(base, content), base);
      SpanJoin(block, base, Extent(l, parent));
      SpanOne(block);
    case DirLoc(_, block, base, children) =>
      var inode := Write(block, InodeBytes(DirInode(l, parent, name, shift)));
      var tree := Pieces(base, DirStream(children, block, parent));
      OwnsAll(children, block, block + 1, base, shift);
      OneOwned(inode);
      ConsecutiveOwned(tree, base);
      OwnedAppend(InodesAll(children, block, shift), [inode]);
      OwnedAppend(DataAll(children, block), tree);
      SpanJoin(block, block + 1, Extent(l, parent));
      SpanJoin(block + 1, base, Extent(l, parent));
      SpanOne(block);
  }

  lemma SpanOne(b: nat)
    ensures Span(b, b + 1) == multiset{b}
  {
    assert Span(b + 1, b + 1) == multiset{};
  }

  lemma NoneOwned(b: nat)
    ensures Owned([]) == multiset{} && Span(b, b) == multiset{}
  {
  }

  lemma {:induction false} OwnsAll(ls: seq<Loc>, own: nat, start: nat, end: nat, shift: nat)
    requires LaidAll(ls, own, start, end) && FineAll(ls, own)
    ensures start <= end
    ensures Owned(InodesAll(ls, own, shift)) + Owned(DataAll(ls, own)) == Span(start, end)
    decreases ls
  {
    hide DirStream, Blocks, Owned, Span, InodesOf, DataOf, Fine, Laid, Extent;
    if ls == [] {
      NoneOwned(start);
    } else {
      var l := ls[0];
      NameShort(l, own);
      OwnsExtent(l, own, Some(l.name), shift);
      OwnsAll(ls[1..], own, Extent(l, own), end, shift);
      OwnedAppend(InodesOf(l, own, Some(l.name), shift), InodesAll(ls[1..], own, shift));
      OwnedAppend(DataOf(l, own), DataAll(ls[1..], own));
      SpanJoin(start, Extent(l, own), end);
    }
  }

  /** A write is the only one to its block. */
  lemma {:induction false} OnlyWriter(ws: seq<Write>, i: nat, j: nat)
    requires i < j < |ws| && ws[i].block == ws[j].block
    ensures Owned(ws)[ws[i].block] >= 2
  {
    assert ws == ws[..i] + [ws[i]] + ws[i + 1..j] + [ws[j]] + ws[j + 1..];
    OwnedAppend(ws[..i] + [ws[i]] + ws[i + 1..j] + [ws[j]], ws[j + 1..]);
    OwnedAppend(ws[..i] + [ws[i]] + ws[i + 1..j], [ws[j]]);
    OwnedAppend(ws[..i] + [ws[i]], ws[i + 1..j]);
    OwnedAppend(ws[..i], [ws[i]]);
    OneOwned(ws[i]);
    OneOwned(ws[j]);
  }
}
