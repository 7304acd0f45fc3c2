/** The bitplanes of an ILBM body: the driver's `planes_of` and the decoder's planar loop. */
module PlanarImage {
  import opened Bytes
  import opened Image

  /** Rows of a plane are whole 16-bit words. */
  function RowBytes(width: nat): (r: nat)
    ensures width <= 8 * r
  {
    (width + 15) / 16 * 2
  }

  // ----- the bits of an index

  function IndexBit(n: nat, p: nat): bool
  {
    if p == 0 then n % 2 == 1 else IndexBit(n / 2, p - 1)
  }

  function Shifted(bit: bool, p: nat): nat { if bit then Pow2(p) else 0 }

  /** `value | bit << p`. */
  function OrBit(value: nat, bit: bool, p: nat): nat
  {
    if bit && !IndexBit(value, p) then value + Pow2(p) else value
  }

  lemma {:induction false} HighBitClear(n: nat, p: nat)
    requires n < Pow2(p)
    ensures !IndexBit(n, p)
  {
    if p > 0 {
      HighBitClear(n / 2, p - 1);
    }
  }

  /** The low `k` bits of `n`. */
  function Low(n: nat, k: nat): nat
  {
    if k == 0 then 0 else Low(n, k - 1) + Shifted(IndexBit(n, k - 1), k - 1)
  }

  lemma {:induction false} LowHalves(n: nat, k: nat)
    requires k > 0
    ensures Low(n, k) == n % 2 + 2 * Low(n / 2, k - 1)
  {
    if k > 1 {
      LowHalves(n, k - 1);
    } else {
      assert Low(n, 1) == Low(n, 0) + Shifted(IndexBit(n, 0), 0);
      assert Pow2(0) == 1;
    }
  }

  lemma {:induction false} LowIsAll(n: nat, k: nat)
    requires n < Pow2(k)
    ensures Low(n, k) == n
  {
    if k > 0 {
      LowHalves(n, k);
      LowIsAll(n / 2, k - 1);
    }
  }

  // ----- a plane of a row

  function BitsOf(row: seq<nat>, p: nat): (bits: seq<bool>)
    ensures |bits| == |row| && forall x | 0 <= x < |row| :: bits[x] == IndexBit(row[x], p)
  {
    seq(|row|, x requires 0 <= x < |row| => IndexBit(row[x], p))
  }

  function One(bits: seq<bool>, i: nat): nat { if i < |bits| && bits[i] then 1 else 0 }

  /** Byte `k` of a plane: eight pixels, the leftmost in the highest bit. */
  function PackedByte(bits: seq<bool>, k: nat): (b: byte)
  {
    128 * One(bits, 8 * k) + 64 * One(bits, 8 * k + 1) + 32 * One(bits, 8 * k + 2) + 16 * One(bits, 8 * k + 3) +
    8 * One(bits, 8 * k + 4) + 4 * One(bits, 8 * k + 5) + 2 * One(bits, 8 * k + 6) + One(bits, 8 * k + 7)
  }

  function PlaneRow(bits: seq<bool>): (s: seq<byte>)
    ensures |s| == RowBytes(|bits|)
  {
    seq(RowBytes(|bits|), k requires 0 <= k => PackedByte(bits, k))
  }

  lemma PackedBit(bits: seq<bool>, x: nat)
    requires x < |bits|
    ensures Bit(PackedByte(bits, x / 8), 7 - x % 8) == bits[x]
  {
    var k, j := x / 8, x % 8;
    assert x == 8 * k + j;
    BitOfSum(One(bits, 8 * k), One(bits, 8 * k + 1), One(bits, 8 * k + 2), One(bits, 8 * k + 3),
             One(bits, 8 * k + 4), One(bits, 8 * k + 5), One(bits, 8 * k + 6), One(bits, 8 * k + 7), j);
  }

  function Pick(a: nat, b: nat, c: nat, d: nat, e: nat, f: nat, g: nat, h: nat, j: nat): nat
    requires j < 8
  {
    match j case 0 => a case 1 => b case 2 => c case 3 => d case 4 => e case 5 => f case 6 => g case 7 => h
  }

  lemma Digits(m: nat, q: nat, lo: nat)
    requires lo < m
    ensures (m * q + lo) / m == q
  {
    DivUnique(m * q + lo, m, q, lo);
  }

  lemma Digit(m: nat, hi: nat, x: nat, lo: nat)
    requires lo < m && x <= 1
    ensures (2 * m * hi + m * x + lo) / m % 2 == x
  {
    assert 2 * m * hi + m * x + lo == m * (2 * hi + x) + lo;
    Digits(m, 2 * hi + x, lo);
  }

  lemma BitOfSum(a: nat, b: nat, c: nat, d: nat, e: nat, f: nat, g: nat, h: nat, j: nat)
    requires a <= 1 && b <= 1 && c <= 1 && d <= 1 && e <= 1 && f <= 1 && g <= 1 && h <= 1 && j < 8
    ensures Bit(128 * a + 64 * b + 32 * c + 16 * d + 8 * e + 4 * f + 2 * g + h, 7 - j) <==> Pick(a, b, c, d, e, f, g, h, j) == 1
  {
    match j
    case 0 => Digit(128, 0, a, 64 * b + 32 * c + 16 * d + 8 * e + 4 * f + 2 * g + h);
    case 1 => Digit(64, a, b, 32 * c + 16 * d + 8 * e + 4 * f + 2 * g + h);
    case 2 => Digit(32, 2 * a + b, c, 16 * d + 8 * e + 4 * f + 2 * g + h);
    case 3 => Digit(16, 4 * a + 2 * b + c, d, 8 * e + 4 * f + 2 * g + h);
    case 4 => Digit(8, 8 * a + 4 * b + 2 * c + d, e, 4 * f + 2 * g + h);
    case 5 => Digit(4, 16 * a + 8 * b + 4 * c + 2 * d + e, f, 2 * g + h);
    case 6 => Digit(2, 32 * a + 16 * b + 8 * c + 4 * d + 2 * e + f, g, h);
    case 7 => Digit(1, 64 * a + 32 * b + 16 * c + 8 * d + 4 * e + 2 * f + g, h, 0);
  }

  /** One more pixel sets its bit and leaves the others. */
  lemma NextPixel(bits: seq<bool>, x: nat, k: nat)
    requires x < |bits|
    ensures PackedByte(bits[..x + 1], k) ==
            if k == x / 8 && bits[x] then SetBit(PackedByte(bits[..x], k), 7 - x % 8) else PackedByte(bits[..x], k)
  {
    assert forall i | i != x :: One(bits[..x + 1], i) == One(bits[..x], i);
    assert One(bits[..x], x) == 0;
    if k == x / 8 {
      var j := x % 8;
      assert x == 8 * k + j;
      PackedClear(bits[..x], x);
    }
  }

  lemma PackedClear(bits: seq<bool>, x: nat)
    requires x >= |bits|
    ensures !Bit(PackedByte(bits, x / 8), 7 - x % 8)
  {
    var k, j := x / 8, x % 8;
    assert x == 8 * k + j;
    BitOfSum(One(bits, 8 * k), One(bits, 8 * k + 1), One(bits, 8 * k + 2), One(bits, 8 * k + 3),
             One(bits, 8 * k + 4), One(bits, 8 * k + 5), One(bits, 8 * k + 6), One(bits, 8 * k + 7), j);
  }

  /** The inner loop of `planes_of`: one plane of one row, set bit by bit in zeroed bytes. */
  method FillPlane(body: array<byte>, base: nat, row: seq<nat>, p: nat)
    requires base + RowBytes(|row|) <= body.Length && forall i | base <= i < base + RowBytes(|row|) :: body[i] == 0
    modifies body
    ensures forall i | 0 <= i < body.Length ::
              body[i] == if base <= i < base + RowBytes(|row|) then PackedByte(BitsOf(row, p), i - base) else old(body[i])
  {
    hide PackedByte, SetBit;
    var n := RowBytes(|row|);
    ghost var bits := BitsOf(row, p);
    NoPixels(bits);
    for x := 0 to |row|
      invariant forall i | 0 <= i < body.Length ::
          body[i] == if base <= i < base + n then PackedByte(bits[..x], i - base) else old(body[i])
    {
      var at := base + x / 8;
      assert x / 8 < n;
      forall k | 0 <= k < n ensures PackedByte(bits[..x + 1], k) ==
          if k == x / 8 && bits[x] then SetBit(PackedByte(bits[..x], k), 7 - x % 8) else PackedByte(bits[..x], k)
      {
        NextPixel(bits, x, k);
      }
      if IndexBit(row[x], p) {
        body[at] := SetBit(body[at], 7 - x % 8);
      }
    }
    assert bits[..|row|] == bits;
  }

  lemma NoPixels(bits: seq<bool>)
    ensures forall k: nat {:trigger PackedByte(bits[..0], k)} :: PackedByte(bits[..0], k) == 0
  {
  }
}
