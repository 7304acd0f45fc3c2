/** The volume's fixed regions: `_geometry`, the log size and where data starts. */
module Geometry {
  import opened Bytes

  const BITS_PER_BLOCK: nat := BLOCK * 8

  lemma CeilWithin(a: nat, b: nat)
    requires b > 0
    ensures ((a + b - 1) / b - 1) * b < a <= (a + b - 1) / b * b
  {
    var n := a + b - 1;
    var q := n / b;
    assert n == b * q + n % b;
    assert (q - 1) * b == b * q - b;
  }

  function CeilDiv(a: nat, b: nat): (q: nat)
    requires b > 0
    ensures (q - 1) * b < a <= q * b
  {
    CeilWithin(a, b);
    (a + b - 1) / b
  }

  /** The group shift, the bitmap blocks per group, and the group count. */
  datatype Geometry = Geometry(shift: nat, perGroup: nat, groups: nat)

  /** Groups double while there are more than 56 of them. */
  function GrowGroups(bitmapBlocks: nat, shift: nat, perGroup: nat): Geometry
    requires perGroup > 0
    decreases 16 - shift
  {
    var groups := CeilDiv(bitmapBlocks, perGroup);
    if groups > 56 && shift < 16 then GrowGroups(bitmapBlocks, shift + 1, perGroup * 2)
    else Geometry(shift, perGroup, groups)
  }

  function GeometryOf(numBlocks: nat): Geometry
  {
    GrowGroups(CeilDiv(numBlocks, BITS_PER_BLOCK), 14, 1)
  }

  /** `_geometry`. */
  method FindGeometry(numBlocks: nat) returns (g: Geometry)
    ensures g == GeometryOf(numBlocks)
  {
    var bitmapBlocks := CeilDiv(numBlocks, BITS_PER_BLOCK);
    var shift, i := 13, 8192;
    while i < BITS_PER_BLOCK
      invariant (i == 8192 && shift == 13) || (i == BITS_PER_BLOCK && shift == 14)
    {
      shift := shift + 1;
      i := i * 2;
    }
    var perGroup: nat := 1;
    while true
      invariant 14 <= shift <= 16 && perGroup > 0
      invariant GeometryOf(numBlocks) == GrowGroups(bitmapBlocks, shift, perGroup)
      decreases 16 - shift
    {
      var groups := CeilDiv(bitmapBlocks, perGroup);
      if groups > 56 && shift < 16 {
        shift := shift + 1;
        perGroup := perGroup * 2;
      } else {
        return Geometry(shift, perGroup, groups);
      }
    }
  }

  lemma SmallPowers()
    ensures Pow2(14) == 16384 && Pow2(15) == 32768 && Pow2(16) == 65536
  {
    assert Pow2(4) == 16;
    assert Pow2(8) == 16 * Pow2(4);
    assert Pow2(12) == 16 * Pow2(8);
    assert Pow2(14) == 4 * Pow2(12);
    assert Pow2(16) == 4 * Pow2(14);
  }

  /** The three geometries: groups of one, two or four bitmap blocks. */
  lemma GeometryCases(numBlocks: nat)
    ensures var bm, g := CeilDiv(numBlocks, BITS_PER_BLOCK), GeometryOf(numBlocks);
            || (g == Geometry(14, 1, bm) && bm <= 56)
            || (g == Geometry(15, 2, CeilDiv(bm, 2)) && 56 < bm <= 112)
            || (g == Geometry(16, 4, CeilDiv(bm, 4)) && 112 < bm)
  {
    var bm := CeilDiv(numBlocks, BITS_PER_BLOCK);
    assert CeilDiv(bm, 1) == bm;
    assert GrowGroups(bm, 16, 4) == Geometry(16, 4, CeilDiv(bm, 4));
    assert GrowGroups(bm, 15, 2) ==
           if CeilDiv(bm, 2) > 56 then GrowGroups(bm, 16, 4) else Geometry(15, 2, CeilDiv(bm, 2));
  }

  lemma MulLess(x: int, y: int, b: nat)
    requires x * b < y * b
    ensures x < y
  {
  }

  lemma CeilUnique(a: nat, b: nat, q: nat)
    requires b > 0 && (q - 1) * b < a <= q * b
    ensures CeilDiv(a, b) == q
  {
    var r: int, k: int := CeilDiv(a, b), q;
    MulLess(r - 1, k, b);
    MulLess(k - 1, r, b);
  }

  /** The group count is the one a mount expects for the shift, and the bitmap covers every
      block of the volume. */
  lemma GeometryFits(numBlocks: nat)
    ensures var g := GeometryOf(numBlocks);
            && 14 <= g.shift <= 16 && g.perGroup * BITS_PER_BLOCK == Pow2(g.shift)
            && g.groups == CeilDiv(numBlocks, Pow2(g.shift))
            && numBlocks <= g.groups * g.perGroup * BITS_PER_BLOCK
  {
    SmallPowers();
    GeometryCases(numBlocks);
    var g := GeometryOf(numBlocks);
    CeilUnique(numBlocks, g.perGroup * BITS_PER_BLOCK, g.groups);
  }

  // ----- the regions before the data

  function BitmapBlocks(numBlocks: nat): nat
  {
    var g := GeometryOf(numBlocks);
    g.groups * g.perGroup
  }

  function LogSize(size: nat): nat
  {
    if size / BLOCK <= 20480 then 512 else if size > 0x4000_0000 then 4096 else 2048
  }

  /** Block 0, the bitmap and the log come first. */
  function DataStart(size: nat): nat
  {
    BitmapBlocks(size / BLOCK) + 1 + LogSize(size)
  }

  lemma BitmapMonotone(a: nat, b: nat)
    requires a <= b
    ensures BitmapBlocks(a) <= BitmapBlocks(b)
  {
    hide GeometryOf, CeilDiv;
    GeometryCases(a);
    GeometryCases(b);
    var p, q := CeilDiv(a, BITS_PER_BLOCK), CeilDiv(b, BITS_PER_BLOCK);
    CeilMonotone(a, b, BITS_PER_BLOCK);
    CeilMonotone(p, q, 2);
    CeilMonotone(p, q, 4);
  }

  lemma CeilMonotone(a: nat, b: nat, k: nat)
    requires a <= b && k > 0
    ensures CeilDiv(a, k) <= CeilDiv(b, k)
  {
    var x: int, y: int := CeilDiv(a, k), CeilDiv(b, k);
    MulLess(x - 1, y, k);
  }

  /** A larger volume's data never starts earlier. */
  lemma DataStartMonotone(a: nat, b: nat)
    requires a <= b
    ensures DataStart(a) <= DataStart(b)
  {
    assert a / BLOCK <= b / BLOCK;
    BitmapMonotone(a / BLOCK, b / BLOCK);
  }
}
