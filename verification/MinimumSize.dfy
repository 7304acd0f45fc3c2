/** `bfs_minimum_bytes` over input trees: the loop around `make_bfs`, what it returns, and when. */
module MinimumSize {
  import opened Bytes
  import opened Geometry
  import opened Inode
  import opened Layout
  import opened VolumePlan
  import opened BuiltVolume
  import opened VolumeReads
  import opened LayoutCost
  import opened LayoutBounds
  import opened MakeVolume
  import Sizing

  // ----- the first guess

  function ContentBlocks(items: seq<Item>): nat
    decreases items
  {
    if items == [] then 0
    else
      1 + (match items[0]
           case File(_, content) => Blocks(|content|)
           case Dir(_, children) => ContentBlocks(children)) + ContentBlocks(items[1..])
  }

  lemma {:induction false} ContentAppend(a: seq<Item>, b: seq<Item>)
    ensures ContentBlocks(a + b) == ContentBlocks(a) + ContentBlocks(b)
    decreases a
  {
    if a == [] {
      assert a + b == b;
    } else {
      assert (a + b)[1..] == a[1..] + b;
      ContentAppend(a[1..], b);
    }
  }

  lemma ContentOne(item: Item)
    ensures ContentBlocks([item]) == 1 + match item
            case File(_, content) => Blocks(|content|)
            case Dir(_, children) => ContentBlocks(children)
  {
    assert ContentBlocks([]) == 0;
  }

  /** `content_blocks`: the inode of every entry and the data of every file. */
  method CountBlocks(items: seq<Item>) returns (total: nat)
    ensures total == ContentBlocks(items)
    decreases items
  {
    total := 0;
    for i := 0 to |items|
      invariant total == ContentBlocks(items[..i])
    {
      assert items[..i + 1] == items[..i] + [items[i]];
      ContentAppend(items[..i], [items[i]]);
      ContentOne(items[i]);
      total := total + 1;
      match items[i] {
        case File(_, content) => total := total + Blocks(|content|);
        case Dir(_, children) =>
          var below := CountBlocks(children);
          total := total + below;
      }
    }
    assert items[..|items|] == items;
  }

  function RoundUp(value: nat): nat { (value + BLOCK - 1) / BLOCK * BLOCK }

  function Max(a: nat, b: nat): nat { if a > b then a else b }

  /** The first guess, in blocks. */
  function FirstGuess(items: seq<Item>): nat { 2 * (ContentBlocks(items) + 64) }

  // ----- the loop

  const PASSES: nat := 64

  /** What the loop comes to: nothing where a pass raises or none settles. */
  ghost function Minimum(items: seq<Item>): Option<nat>
    requires Legal(items)
  {
    if Streamable(items) then Sizing.Run(Cost(items), FirstGuess(items), PASSES) else None
  }

  lemma PassReturns(items: seq<Item>, n: nat)
    requires Legal(items) && (Streamable(items) ==> Cost(items) + Sizing.Front(n) < MAX_BLOCKS)
    ensures var v := PlanVolume(items, DataStart(n * BLOCK));
            && (Returns(v, n * BLOCK) <==> Streamable(items) && Cost(items) + Sizing.Front(n) <= Sizing.Capacity(n))
            && Used(v) == Cost(items) + Sizing.Front(n)
  {
    hide PlanVolume, Legal, VolumeFine, Cost, Streamable, DataStart, BitmapBlocks, GroupOf, GeometryOf, Pow2;
    assert n * BLOCK / BLOCK == n;
    UsedIsCost(items, DataStart(n * BLOCK));
    GeometryFits(n);
    if Streamable(items) {
      GroupInRange(PlanVolume(items, DataStart(n * BLOCK)).indices.base, ShiftFor(n * BLOCK));
    }
  }

  lemma Needed(used: nat)
    requires used >= 64
    ensures Max(RoundUp(used * BLOCK), 64 * BLOCK) == used * BLOCK
  {
  }

  /** A dry layout at `n` blocks: the count it uses, or nothing where `make_bfs` raises. */
  method DryLayout(items: seq<Item>, title: seq<byte>, size: nat, ghost n: nat) returns (used: Option<nat>)
    requires Legal(items) && size == n * BLOCK
    requires Streamable(items) ==> Cost(items) + Sizing.Front(n) < MAX_BLOCKS
    ensures used == if Streamable(items) && Cost(items) + Sizing.Front(n) <= Sizing.Capacity(n)
                    then Some(Cost(items) + Sizing.Front(n)) else None
  {
    hide PlanVolume, Legal, VolumeFine, Cost, Streamable, DataStart, Returns, Sizing.Front, Sizing.Capacity,
         Used, WrittenImage;
    var scratch := new Buffer(size);
    used := MakeBfs(scratch, 0, size, title, items);
    PassReturns(items, n);
  }

  /** No guess for a tree whose streams fit gets near the largest group number. */
  const GUESS_LIMIT: nat := 0x800_0000_0000

  lemma NextGuess(items: seq<Item>, n: nat)
    requires Legal(items) && Streamable(items) && n < GUESS_LIMIT
    ensures Cost(items) + Sizing.Front(n) < GUESS_LIMIT
  {
    hide Legal, Streamable, Cost, Sizing.Front;
    StreamableIsSmall(items);
    Sizing.FrontGrows(0, n);
    FrontOfNothing();
  }

  /** `bfs_minimum_bytes`. */
  method MinimumBytes(items: seq<Item>, title: seq<byte>) returns (r: Option<nat>)
    requires Legal(items)
    ensures r == match Minimum(items) case None => None case Some(n) => Some(n * BLOCK)
  {
    hide Legal, Cost, Streamable, Sizing.Front, Sizing.Capacity, Sizing.Run, ContentBlocks, RoundUp, Max;
    var content := CountBlocks(items);
    ghost var n: nat := FirstGuess(items);
    Needed(n);
    if Streamable(items) {
      StreamableIsSmall(items);
      ContentBelowCost(items);
    }
    assert (content + 64) * BLOCK * 2 == n * BLOCK;
    var size := Max(RoundUp((content + 64) * BLOCK * 2), 64 * BLOCK);
    for pass := 0 to PASSES
      invariant size == n * BLOCK && (Streamable(items) ==> n < GUESS_LIMIT)
      invariant Streamable(items) ==> Minimum(items) == Sizing.Run(Cost(items), n, PASSES - pass)
    {
      if Streamable(items) {
        NextGuess(items, n);
      }
      var used := DryLayout(items, title, size, n);
      if used.None? {
        if Streamable(items) {
          RunRaises(Cost(items), n, PASSES - pass);
        }
        return None;
      }
      Sizing.RunStep(Cost(items), n, PASSES - pass);
      Sizing.FrontPositive(n);
      Needed(used.value);
      var need := Max(RoundUp(used.value * BLOCK), 64 * BLOCK);
      if need == size {
        return Some(size);
      }
      size := need;
      n := used.value;
    }
    RunRaises(Cost(items), n, 0);
    return None;
  }

  lemma RunRaises(c: nat, n: nat, passes: nat)
    requires passes == 0 || c + Sizing.Front(n) > Sizing.Capacity(n)
    ensures Sizing.Run(c, n, passes) == None
  {
  }

  // ----- what it returns

  lemma {:induction false} ContentBelow(items: seq<Item>, own: nat, next: nat)
    requires Legal(items)
    ensures next + ContentBlocks(items) <= Locate(items, own, next).next
    decreases items
  {
    hide DirStream, Blocks, Locate, LocateOne;
    if items == [] {
      LocateNone(own, next);
    } else {
      LocateNext(items, own, next);
      var first := LocateOne(items[0], own, next);
      ContentBelow(items[1..], own, first.1);
      match items[0] {
        case File(name, content) => LocateFile(items[0], own, next);
        case Dir(_, children) =>
          LocateDir(items[0], own, next);
          ContentBelow(children, next, next + 1);
      }
    }
  }

  lemma LocateNone(own: nat, next: nat)
    ensures Locate([], own, next) == Located([], next)
  {
  }

  lemma LocateFile(item: Item, own: nat, next: nat)
    requires item.File?
    ensures LocateOne(item, own, next).1 == next + 1 + Blocks(|item.content|)
  {
  }

  /** The first two guesses for a tree whose streams fit are within three passes' reach. */
  lemma GuessesInReach(items: seq<Item>)
    requires Legal(items) && Streamable(items)
    ensures Sizing.Distance(FirstGuess(items), Cost(items) + Sizing.Front(FirstGuess(items))) < Sizing.Reach(3)
    ensures Cost(items) + Sizing.Front(FirstGuess(items)) < MAX_BLOCKS
  {
    hide Legal, Streamable, Cost, Sizing.Front, ContentBlocks, Sizing.Reach;
    StreamableIsSmall(items);
    ContentBelowCost(items);
    Sizing.ReachThree();
    var n := FirstGuess(items);
    Sizing.FrontGrows(0, n);
    FrontOfNothing();
  }

  lemma FrontOfNothing()
    ensures Sizing.Front(0) <= 513
  {
    hide BitmapBlocks;
    Sizing.BitmapIs(0);
  }

  lemma ContentBelowCost(items: seq<Item>)
    requires Legal(items)
    ensures ContentBlocks(items) <= Cost(items)
  {
    hide DirStream, Blocks, Legal, Locate, ContentBlocks, NamesOf, SizesOf, TimesOf, IndexStream;
    ContentBelow(items, 0, 1);
  }

  /** The pass limit is never what stops the loop: it returns exactly when every stream fits
      one run and the first guess's bitmap has room for the tree. */
  lemma MinimumReturnsIff(items: seq<Item>)
    requires Legal(items)
    ensures Minimum(items).Some? <==> Streamable(items) && Sizing.Roomy(Cost(items), FirstGuess(items))
  {
    hide Legal, Streamable, Cost, Sizing.Front, Sizing.Run, Sizing.Roomy, Sizing.Reach;
    if Streamable(items) {
      GuessesInReach(items);
      Sizing.ReturnsIff(Cost(items), FirstGuess(items), 3, PASSES);
    }
  }

  lemma CapacityBound(n: nat)
    ensures Sizing.Capacity(n) < n + 4 * BITS_PER_BLOCK
  {
    hide BitmapBlocks, CeilDiv, Sizing.Rounded;
    Sizing.BitmapIs(n);
    Sizing.CeilBounds(n);
    Sizing.RoundedBounds(CeilDiv(n, BITS_PER_BLOCK));
  }

  /** A returned size is far below what group numbers can address. */
  lemma MinimumInRange(items: seq<Item>)
    requires Legal(items) && Minimum(items).Some?
    ensures Minimum(items).value < 0x800_0000_0000
  {
    hide Legal, Streamable, Cost, Sizing.Front, Sizing.Run, Sizing.Capacity, ContentBlocks;
    var c, n := Cost(items), FirstGuess(items);
    StreamableIsSmall(items);
    ContentBelowCost(items);
    CapacityBound(n);
    Sizing.RunIsFixed(c, n, PASSES);
    if c + Sizing.Front(n) <= n {
      Sizing.RunNotAbove(c, n, PASSES);
    }
  }

  /** A returned size is one the layout fills exactly, and every volume at least twice as large
      holds the tree as well. */
  lemma MinimumHolds(items: seq<Item>, size: nat)
    requires Legal(items) && Minimum(items).Some?
    requires size == Minimum(items).value * BLOCK || (size >= 2 * Minimum(items).value * BLOCK && size / BLOCK < MAX_BLOCKS)
    ensures Fitting(items, size)
    ensures size == Minimum(items).value * BLOCK ==> Used(PlanVolume(items, DataStart(size))) == size / BLOCK
  {
    hide Legal, VolumeFine, PlanVolume, Cost, DataStart, Used, Streamable, Sizing.Run;
    var c, s := Cost(items), Minimum(items).value;
    Sizing.RunIsFixed(c, FirstGuess(items), PASSES);
    UsedIsCost(items, DataStart(size));
    if size == s * BLOCK {
      MinimumInRange(items);
      assert size / BLOCK == s;
      FrontIs(s);
    } else {
      Sizing.TwiceHolds(c, s, size);
    }
  }

  lemma FrontIs(n: nat)
    ensures Sizing.Front(n) == DataStart(n * BLOCK)
  {
  }

  // ----- whether it is the smallest

  lemma FittingIff(items: seq<Item>, n: nat)
    requires Legal(items)
    ensures Fitting(items, n * BLOCK) <==> Streamable(items) && Sizing.Holds(Cost(items), n) && n < MAX_BLOCKS
  {
    hide Legal, VolumeFine, PlanVolume, Cost, DataStart, Used, Streamable;
    UsedIsCost(items, DataStart(n * BLOCK));
    FrontIs(n);
    assert n * BLOCK / BLOCK == n;
  }

  /** The returned size is the smallest volume that holds the tree exactly when it does not fit
      the three sizes below it where a smaller log or the next smaller bitmap ends. */
  lemma MinimumIsSmallestIff(items: seq<Item>)
    requires Legal(items) && Minimum(items).Some?
    ensures var s := Minimum(items).value;
            && s > 0 && Sizing.PrevCapacity(s) >= 0
            && ((forall n: nat | n < s :: !Fitting(items, n * BLOCK)) <==>
                forall b: nat | b == Sizing.SMALL_LOG_END || b == Sizing.MIDDLE_LOG_END || b == Sizing.PrevCapacity(s) ::
                  b < s ==> !Fitting(items, b * BLOCK))
  {
    hide Legal, Cost, Streamable, Fitting, Sizing.Run, Sizing.Front, Sizing.Holds, Sizing.PrevCapacity;
    var c, s := Cost(items), Minimum(items).value;
    Sizing.RunIsFixed(c, FirstGuess(items), PASSES);
    MinimumInRange(items);
    Sizing.SmallestIff(c, s);
    forall n: nat | n < s ensures Fitting(items, n * BLOCK) <==> Sizing.Holds(c, n) {
      FittingIff(items, n);
    }
  }
}
