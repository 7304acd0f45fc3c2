/** `bfs_minimum_bytes`: the sizing loop, in blocks. A volume of `n` blocks spends `Front(n)` of
    them before its data, the tree takes `c` more, and the loop looks for `c + Front(n) == n`. */
module Sizing {
  import opened Bytes
  import opened Geometry

  function Front(n: nat): (r: nat)
    ensures r == BitmapBlocks(n) + 1 + LogSize(n * BLOCK)
  {
    assert n * BLOCK / BLOCK == n;
    DataStart(n * BLOCK)
  }

  /** The blocks the bitmap of an `n`-block volume can mark. */
  function Capacity(n: nat): nat { BitmapBlocks(n) * BITS_PER_BLOCK }

  /** The loop from guess `n` on: `make_bfs` raises when the bitmap is too small, and a guess
      that it fills exactly is the answer. */
  function Run(c: nat, n: nat, passes: nat): Option<nat>
    decreases passes
  {
    if passes == 0 || c + Front(n) > Capacity(n) then None
    else if c + Front(n) == n then Some(n)
    else Run(c, c + Front(n), passes - 1)
  }

  /** Guess number `k`. */
  function Guess(c: nat, n: nat, k: nat): nat
  {
    if k == 0 then n else c + Front(Guess(c, n, k - 1))
  }

  // ----- the fixed regions as a function of the size

  /** Bitmap blocks rounded up to whole groups. */
  function Rounded(q: nat): nat
  {
    if q <= 56 then q else if q <= 112 then (q + 1) / 2 * 2 else (q + 3) / 4 * 4
  }

  lemma BitmapIs(n: nat)
    ensures var q := CeilDiv(n, BITS_PER_BLOCK);
            BitmapBlocks(n) == Rounded(q)
  {
    GeometryCases(n);
  }

  lemma FrontMonotone(a: nat, b: nat)
    requires a <= b
    ensures Front(a) <= Front(b) && Capacity(a) <= Capacity(b)
  {
    hide GeometryOf;
    DataStartMonotone(a * BLOCK, b * BLOCK);
    BitmapMonotone(a, b);
  }

  lemma LogIs(n: nat)
    ensures LogSize(n * BLOCK) == if n <= 20480 then 512 else if n <= 524288 then 2048 else 4096
  {
  }

  lemma CeilStep(a: nat, b: nat)
    requires a <= b
    ensures CeilDiv(a, BITS_PER_BLOCK) <= CeilDiv(b, BITS_PER_BLOCK) <= CeilDiv(a, BITS_PER_BLOCK) + (b - a) / BITS_PER_BLOCK + 1
  {
  }

  /** The fixed regions grow far slower than the volume. */
  lemma FrontGrows(a: nat, b: nat)
    requires a <= b
    ensures Front(b) - Front(a) <= (b - a) / BITS_PER_BLOCK + 3588
  {
    hide GeometryOf, CeilDiv, LogSize, BitmapBlocks;
    BitmapIs(a);
    BitmapIs(b);
    LogIs(a);
    LogIs(b);
    CeilStep(a, b);
  }

  lemma CapacityIs(n: nat)
    ensures n <= Capacity(n) && Capacity(Capacity(n)) == Capacity(n)
  {
    hide GeometryOf, LogSize, BitmapBlocks, CeilDiv, Rounded;
    BitmapIs(n);
    BitmapIs(Capacity(n));
    var q, b := CeilDiv(n, BITS_PER_BLOCK), BitmapBlocks(n);
    CeilUnique(b * BITS_PER_BLOCK, BITS_PER_BLOCK, b);
    RoundedTwice(q);
    CeilBounds(n);
  }

  lemma RoundedTwice(q: nat)
    ensures q <= Rounded(q) && Rounded(Rounded(q)) == Rounded(q)
  {
  }

  // ----- the guesses

  /** Successive guesses never change direction. */
  lemma {:induction false} GuessesKeepDirection(c: nat, n: nat, k: nat)
    ensures Guess(c, n, 1) <= n ==> Guess(c, n, k + 1) <= Guess(c, n, k)
    ensures n <= Guess(c, n, 1) ==> Guess(c, n, k) <= Guess(c, n, k + 1)
  {
    hide Front;
    if k > 0 {
      GuessesKeepDirection(c, n, k - 1);
      var a, b := Guess(c, n, k - 1), Guess(c, n, k);
      if a <= b { FrontMonotone(a, b); }
      if b <= a { FrontMonotone(b, a); }
    } else {
      assert Guess(c, n, 0) == n && Guess(c, n, 1) == c + Front(n);
    }
  }

  function Distance(a: nat, b: nat): nat { if a < b then b - a else a - b }

  lemma NextCloser(c: nat, a: nat, b: nat)
    ensures Distance(c + Front(a), c + Front(b)) <= Distance(a, b) / BITS_PER_BLOCK + 3588
  {
    hide Front;
    if a <= b {
      FrontGrows(a, b);
      FrontMonotone(a, b);
    } else {
      FrontGrows(b, a);
      FrontMonotone(b, a);
    }
  }

  lemma GuessStep(c: nat, n: nat, k: nat)
    ensures Guess(c, n, k + 1) == c + Front(Guess(c, n, k))
  {
  }

  lemma Shrinks(c: nat, n: nat, k: nat, bound: nat)
    requires Distance(Guess(c, n, k), Guess(c, n, k + 1)) < bound * BITS_PER_BLOCK
    ensures Distance(Guess(c, n, k + 1), Guess(c, n, k + 2)) < bound + 3588
  {
    hide Front, Guess;
    GuessStep(c, n, k);
    GuessStep(c, n, k + 1);
    NextCloser(c, Guess(c, n, k), Guess(c, n, k + 1));
    var d := Distance(Guess(c, n, k), Guess(c, n, k + 1));
    assert d / BITS_PER_BLOCK < bound;
  }

  /** How far apart the first two guesses may be for `j` more passes to bring them close. */
  function Reach(j: nat): (r: nat)
    ensures r >= 3606
  {
    if j == 0 then 3606 else (Reach(j - 1) - 3588) * BITS_PER_BLOCK
  }

  lemma {:induction false} SoonClose(c: nat, n: nat, k: nat, j: nat)
    requires Distance(Guess(c, n, k), Guess(c, n, k + 1)) < Reach(j)
    ensures Distance(Guess(c, n, k + j), Guess(c, n, k + j + 1)) < Reach(0)
    decreases j
  {
    hide Front, Guess, Distance;
    if j > 0 {
      Shrinks(c, n, k, Reach(j - 1) - 3588);
      SoonClose(c, n, k + 1, j - 1);
    }
  }

  lemma GuessStart(c: nat, n: nat)
    ensures Guess(c, n, 0) == n && Guess(c, n, 1) == c + Front(n)
  {
    GuessStep(c, n, 0);
  }

  /** And they stay within less than one bitmap block's reach of each other. */
  lemma {:induction false} StayClose(c: nat, n: nat, j: nat, k: nat)
    requires k >= j && Distance(Guess(c, n, j), Guess(c, n, j + 1)) < Reach(0)
    ensures Distance(Guess(c, n, j), Guess(c, n, k)) <= 7300
  {
    hide Front, Guess, Distance;
    if k > j {
      StayClose(c, n, j, k - 1);
      GuessStep(c, n, j);
      GuessStep(c, n, k - 1);
      NextCloser(c, Guess(c, n, j), Guess(c, n, k - 1));
      Triangle(Guess(c, n, j), Guess(c, n, j + 1), Guess(c, n, k));
    } else {
      Triangle(Guess(c, n, j), Guess(c, n, j), Guess(c, n, k));
    }
  }

  lemma Triangle(a: nat, b: nat, c: nat)
    ensures Distance(a, c) <= Distance(a, b) + Distance(b, c) && Distance(a, a) == 0
  {
  }

  lemma SameFront(a: nat, b: nat)
    requires CeilDiv(a, BITS_PER_BLOCK) == CeilDiv(b, BITS_PER_BLOCK) && LogSize(a * BLOCK) == LogSize(b * BLOCK)
    ensures Front(a) == Front(b)
  {
    BitmapIs(a);
    BitmapIs(b);
  }

  /** Within that reach the regions take at most three sizes. */
  lemma FewFronts(a: nat, b: nat, c: nat, d: nat)
    requires a <= b <= c <= d <= a + 7300
    ensures Front(a) == Front(b) || Front(b) == Front(c) || Front(c) == Front(d)
  {
    hide Front, CeilDiv, LogSize;
    LogIs(a);
    LogIs(b);
    LogIs(c);
    LogIs(d);
    CeilStep(a, d);
    CeilStep(a, b);
    CeilStep(b, c);
    CeilStep(c, d);
    if CeilDiv(a, BITS_PER_BLOCK) == CeilDiv(b, BITS_PER_BLOCK) && LogSize(a * BLOCK) == LogSize(b * BLOCK) {
      SameFront(a, b);
    } else if CeilDiv(b, BITS_PER_BLOCK) == CeilDiv(c, BITS_PER_BLOCK) && LogSize(b * BLOCK) == LogSize(c * BLOCK) {
      SameFront(b, c);
    } else {
      SameFront(c, d);
    }
  }

  /** First guesses within `Reach(j)` of each other settle within `j + 3` passes. */
  lemma Settles(c: nat, n: nat, j: nat) returns (k: nat)
    requires Distance(n, c + Front(n)) < Reach(j)
    ensures k <= j + 3 && Guess(c, n, k + 1) == Guess(c, n, k)
  {
    hide Front, Guess, Distance, Reach;
    GuessStart(c, n);
    SoonClose(c, n, 0, j);
    StayClose(c, n, j, j + 3);
    GuessesKeepDirection(c, n, j);
    GuessesKeepDirection(c, n, j + 1);
    GuessesKeepDirection(c, n, j + 2);
    GuessStep(c, n, j);
    GuessStep(c, n, j + 1);
    GuessStep(c, n, j + 2);
    GuessStep(c, n, j + 3);
    var p, q, r, s := Guess(c, n, j), Guess(c, n, j + 1), Guess(c, n, j + 2), Guess(c, n, j + 3);
    DistanceBounds(p, s);
    if n <= c + Front(n) {
      FewFronts(p, q, r, s);
    } else {
      FewFronts(s, r, q, p);
    }
    k := if Front(p) == Front(q) then j + 1 else if Front(q) == Front(r) then j + 2 else j + 3;
  }

  /** Two sizes below 2^46 blocks are within three passes' reach. */
  lemma ReachThree()
    ensures Reach(3) > 0x4000_0000_0000
  {
    assert Reach(1) == 294912;
    assert Reach(2) == 291324 * BITS_PER_BLOCK;
  }

  lemma DistanceBounds(a: nat, b: nat)
    ensures a <= b + Distance(a, b) && b <= a + Distance(a, b)
  {
  }

  // ----- when the loop returns

  /** The tree fits the largest volume the guess's bitmap can describe. */
  predicate Roomy(c: nat, n: nat)
  {
    c + Front(Capacity(n)) <= Capacity(n)
  }

  /** A size that holds the tree leaves it room up to its bitmap's end. */
  lemma HoldingIsRoomy(c: nat, n: nat)
    requires c + Front(n) <= n
    ensures Roomy(c, n)
  {
    hide GeometryOf, CeilDiv, LogSize, BitmapBlocks;
    CapacityIs(n);
    var b := Capacity(n);
    assert BitmapBlocks(b) == BitmapBlocks(n);
    BitmapIs(n);
    LogIs(n);
    LogIs(b);
    CeilBounds(n);
  }

  lemma CeilBounds(n: nat)
    ensures (CeilDiv(n, BITS_PER_BLOCK) - 1) * BITS_PER_BLOCK < n <= CeilDiv(n, BITS_PER_BLOCK) * BITS_PER_BLOCK
  {
  }

  /** A larger size within the same bitmap has that bitmap. */
  lemma SameCapacity(n: nat, m: nat)
    requires n <= m <= Capacity(n)
    ensures Capacity(m) == Capacity(n)
  {
    CapacityIs(n);
    FrontMonotone(n, m);
    FrontMonotone(m, Capacity(n));
  }

  lemma RoomyNext(c: nat, n: nat)
    requires Roomy(c, n)
    ensures c + Front(n) <= Capacity(n) && Roomy(c, c + Front(n))
  {
    hide Front, Capacity;
    CapacityIs(n);
    FrontMonotone(n, Capacity(n));
    var next := c + Front(n);
    if n <= next {
      SameCapacity(n, next);
    } else {
      FrontMonotone(next, n);
      HoldingIsRoomy(c, next);
    }
  }

  lemma {:induction false} GuessFromNext(c: nat, n: nat, k: nat)
    ensures Guess(c, c + Front(n), k) == Guess(c, n, k + 1)
  {
    hide Front;
    if k > 0 {
      GuessFromNext(c, n, k - 1);
    }
  }

  lemma RunStep(c: nat, n: nat, passes: nat)
    requires passes > 0 && c + Front(n) <= Capacity(n)
    ensures Run(c, n, passes) == if c + Front(n) == n then Some(n) else Run(c, c + Front(n), passes - 1)
  {
    hide Front, Capacity;
  }

  lemma {:induction false} RoomyReturns(c: nat, n: nat, passes: nat, k: nat)
    requires Roomy(c, n) && k < passes && Guess(c, n, k + 1) == Guess(c, n, k)
    ensures Run(c, n, passes).Some?
    decreases passes
  {
    hide Front, Capacity, Roomy, Guess, Run;
    RoomyNext(c, n);
    GuessStart(c, n);
    RunStep(c, n, passes);
    if c + Front(n) != n {
      GuessFromNext(c, n, k);
      GuessFromNext(c, n, k - 1);
      RoomyReturns(c, c + Front(n), passes - 1, k - 1);
    }
  }

  /** What the loop returns is a fixed point: a volume the layout fills exactly. Reached from
      below, it is within the first guess's bitmap. */
  lemma {:induction false} RunIsFixed(c: nat, n: nat, passes: nat)
    requires Run(c, n, passes).Some?
    ensures var s := Run(c, n, passes).value; c + Front(s) == s && (n <= c + Front(n) ==> n <= s <= Capacity(n))
    decreases passes
  {
    hide Front, Capacity;
    CapacityIs(n);
    var next := c + Front(n);
    if next != n {
      RunIsFixed(c, next, passes - 1);
      if n <= next {
        FrontMonotone(n, next);
        SameCapacity(n, next);
      }
    }
  }

  lemma {:induction false} RunNotAbove(c: nat, n: nat, passes: nat)
    requires Run(c, n, passes).Some? && c + Front(n) <= n
    ensures Run(c, n, passes).value <= n
    decreases passes
  {
    hide Front, Capacity;
    var next := c + Front(n);
    if next != n {
      FrontMonotone(next, n);
      RunNotAbove(c, next, passes - 1);
    }
  }

  /** The loop returns exactly when the first guess's bitmap has room for the tree, given the
      passes it takes to close the distance between the first two guesses. */
  lemma ReturnsIff(c: nat, n: nat, j: nat, passes: nat)
    requires Distance(n, c + Front(n)) < Reach(j) && passes >= j + 4
    ensures Run(c, n, passes).Some? <==> Roomy(c, n)
  {
    hide Front, Capacity, Roomy, Run, Guess, Reach, Distance;
    if Roomy(c, n) {
      var k := Settles(c, n, j);
      RoomyReturns(c, n, passes, k);
    }
    if Run(c, n, passes).Some? {
      RunIsFixed(c, n, passes);
      var s := Run(c, n, passes).value;
      if n <= c + Front(n) {
        HoldingIsRoomy(c, s);
        SameCapacity(n, s);
        SameRoom(c, n, s);
      } else {
        HoldingIsRoomy(c, n);
      }
    }
  }

  lemma SameRoom(c: nat, n: nat, s: nat)
    requires Capacity(n) == Capacity(s)
    ensures Roomy(c, n) <==> Roomy(c, s)
  {
  }

  // ----- which fixed point

  /** From above the loop returns the greatest fixed point at or below the guess, from below the
      least at or above it. */
  lemma {:induction false} RunIsExtremal(c: nat, n: nat, passes: nat, t: nat)
    requires Run(c, n, passes).Some? && c + Front(t) == t
    ensures var s := Run(c, n, passes).value; (t <= n ==> t <= s) && (n <= t ==> s <= t)
    decreases passes
  {
    hide Front, Capacity;
    var next := c + Front(n);
    if next != n {
      if t <= n {
        FrontMonotone(t, n);
      } else {
        FrontMonotone(n, t);
      }
      RunIsExtremal(c, next, passes - 1, t);
    }
  }

  function PrevRounded(m: nat): int
  {
    m - (if m <= 56 then 1 else if m <= 112 then 2 else 4)
  }

  lemma Halves(r: nat, k: nat)
    requires 2 * k - 2 < r <= 2 * k
    ensures (r + 1) / 2 * 2 == 2 * k
  {
  }

  lemma Quarters(r: nat, k: nat)
    requires 4 * k - 4 < r <= 4 * k
    ensures (r + 3) / 4 * 4 == 4 * k
  {
  }

  lemma RoundedGroup(q: nat, r: nat)
    requires q > 0
    ensures 0 <= PrevRounded(Rounded(q)) < q && Rounded(PrevRounded(Rounded(q))) == PrevRounded(Rounded(q))
    ensures PrevRounded(Rounded(q)) < r <= q ==> Rounded(r) == Rounded(q)
  {
    if q > 112 {
      var k := (q + 3) / 4;
      assert Rounded(q) == 4 * k;
      if 4 * k - 4 < r <= q { Quarters(r, k); }
      if k > 29 { Quarters(4 * k - 4, k - 1); }
    } else if q > 56 {
      var k := (q + 1) / 2;
      assert Rounded(q) == 2 * k;
      if 2 * k - 2 < r <= q { Halves(r, k); }
      if k > 29 { Halves(2 * k - 2, k - 1); }
    }
  }

  /** The largest size with a smaller bitmap. */
  function PrevCapacity(n: nat): (b: int) { PrevRounded(BitmapBlocks(n)) * BITS_PER_BLOCK }

  lemma PrevIs(n: nat)
    requires n > 0
    ensures 0 <= PrevCapacity(n) < n && Capacity(PrevCapacity(n)) == PrevCapacity(n)
  {
    hide GeometryOf, LogSize, BitmapBlocks, CeilDiv, PrevRounded;
    var q := CeilDiv(n, BITS_PER_BLOCK);
    BitmapIs(n);
    CeilBounds(n);
    RoundedGroup(q, q);
    var b: nat := PrevRounded(BitmapBlocks(n));
    assert b * BITS_PER_BLOCK <= (q - 1) * BITS_PER_BLOCK;
    BitmapIs(b * BITS_PER_BLOCK);
    CeilUnique(b * BITS_PER_BLOCK, BITS_PER_BLOCK, b);
  }

  lemma AbovePrev(t: nat, n: nat)
    requires n > 0 && PrevCapacity(n) < t <= n
    ensures BitmapBlocks(t) == BitmapBlocks(n)
  {
    hide GeometryOf, CeilDiv, BitmapBlocks, PrevRounded;
    var q, r, b := CeilDiv(n, BITS_PER_BLOCK), CeilDiv(t, BITS_PER_BLOCK), PrevRounded(BitmapBlocks(n));
    BitmapIs(t);
    BitmapIs(n);
    CeilBounds(t);
    CeilBounds(n);
    CeilStep(t, n);
    MulLess(b, r, BITS_PER_BLOCK);
    RoundedGroup(q, r);
  }

  /** Where each log size ends. */
  const SMALL_LOG_END: nat := 20480
  const MIDDLE_LOG_END: nat := 524288

  lemma RoundedBounds(q: nat)
    ensures q <= Rounded(q) <= q + 3 && (q <= 56 ==> Rounded(q) == q)
  {
  }

  lemma GrowthToCapacity(t: nat, b: nat)
    requires t <= b && Capacity(b) == b
    ensures BitmapBlocks(b) - BitmapBlocks(t) <= b - t
  {
    hide GeometryOf, CeilDiv, BitmapBlocks, Rounded;
    BitmapIs(t);
    CeilBounds(t);
    var q, m := CeilDiv(t, BITS_PER_BLOCK), BitmapBlocks(b);
    RoundedBounds(q);
    assert b - t >= (m - q) * BITS_PER_BLOCK;
    assert m >= q ==> (m - q) * BITS_PER_BLOCK >= m - q;
  }

  lemma GrowthToLogEnd(t: nat, b: nat)
    requires t <= b && (b == SMALL_LOG_END || b == MIDDLE_LOG_END)
    ensures BitmapBlocks(b) - BitmapBlocks(t) <= b - t
  {
    hide GeometryOf, CeilDiv, BitmapBlocks, Rounded;
    BitmapIs(t);
    BitmapIs(b);
    CeilBounds(b);
    CeilStep(t, b);
    RoundedBounds(CeilDiv(t, BITS_PER_BLOCK));
    RoundedBounds(CeilDiv(b, BITS_PER_BLOCK));
  }

  /** A size at the end of its bitmap or of its log holds whatever a smaller one with the same
      log holds. */
  lemma HeldAtEnd(c: nat, t: nat, b: nat)
    requires t <= b && LogSize(t * BLOCK) == LogSize(b * BLOCK) && c + Front(t) <= t
    requires Capacity(b) == b || b == SMALL_LOG_END || b == MIDDLE_LOG_END
    ensures c + Front(b) <= b
  {
    hide BitmapBlocks, LogSize;
    if Capacity(b) == b {
      GrowthToCapacity(t, b);
    } else {
      GrowthToLogEnd(t, b);
    }
  }

  ghost predicate Holds(c: nat, n: nat) { c + Front(n) <= n }

  /** The returned size is the smallest that holds the tree exactly when none of the sizes at
      which a smaller log or the next smaller bitmap ends holds it. */
  lemma SmallestIff(c: nat, s: nat)
    requires c + Front(s) == s
    ensures s > 0 && PrevCapacity(s) >= 0
    ensures (forall t: nat | t < s :: !Holds(c, t)) <==>
            forall b: nat | b == SMALL_LOG_END || b == MIDDLE_LOG_END || b == PrevCapacity(s) :: b < s ==> !Holds(c, b)
  {
    hide Front, BitmapBlocks, LogSize;
    FrontPositive(s);
    PrevIs(s);
    if forall b: nat | b == SMALL_LOG_END || b == MIDDLE_LOG_END || b == PrevCapacity(s) :: b < s ==> !Holds(c, b) {
      forall t: nat | t < s ensures !Holds(c, t) {
        if Holds(c, t) {
          var b := HoldingEnd(c, t, s);
        }
      }
    }
  }

  lemma FrontPositive(n: nat)
    ensures Front(n) >= 513
  {
  }

  lemma HoldingEnd(c: nat, t: nat, s: nat) returns (b: nat)
    requires t < s && c + Front(s) == s && Holds(c, t)
    ensures b < s && Holds(c, b) && (b == SMALL_LOG_END || b == MIDDLE_LOG_END || b == PrevCapacity(s))
  {
    hide GeometryOf, CeilDiv, BitmapBlocks;
    PrevIs(s);
    LogIs(t);
    LogIs(s);
    if LogSize(t * BLOCK) != LogSize(s * BLOCK) {
      b := if t <= SMALL_LOG_END then SMALL_LOG_END else MIDDLE_LOG_END;
      LogIs(b);
    } else {
      if t > PrevCapacity(s) {
        AbovePrev(t, s);
      }
      b := PrevCapacity(s);
      LogIs(b);
    }
    HeldAtEnd(c, t, b);
  }

  // ----- larger volumes

  /** Every volume of at least twice a fixed point's size holds the tree too. */
  lemma TwiceHolds(c: nat, s: nat, size: nat)
    requires c + Front(s) == s && size >= 2 * s * BLOCK
    ensures c + DataStart(size) <= size / BLOCK
  {
    hide GeometryOf, CeilDiv, BitmapBlocks, Rounded;
    var n := size / BLOCK;
    assert n >= 2 * s;
    BitmapIs(s);
    BitmapIs(n);
    RoundedBounds(CeilDiv(s, BITS_PER_BLOCK));
    RoundedBounds(CeilDiv(n, BITS_PER_BLOCK));
    LogIs(s);
    CeilStep(s, n);
    FrontPositive(s);
  }
}
