/** A whole body of bitplanes, written by `planes_of` and read by the decoder. */
module PlanarCodec {
  import opened Bytes
  import opened Image
  import opened PlanarImage

  function RowAt(indices: seq<nat>, width: nat, y: nat): (row: seq<nat>)
    requires (y + 1) * width <= |indices|
    ensures |row| == width
  {
    assert y * width <= (y + 1) * width;
    indices[y * width..(y + 1) * width]
  }

  // ----- the writer

  /** The body up to plane `p` of row `y`. */
  function BodyTo(indices: seq<nat>, width: nat, planes: nat, y: nat, p: nat): (s: seq<byte>)
    requires p <= planes && (if p == 0 then y else y + 1) * width <= |indices|
    ensures |s| == (y * planes + p) * RowBytes(width)
    decreases y, p
  {
    if p > 0 then
      assert y * width <= (y + 1) * width;
      assert (y * planes + p) * RowBytes(width) == (y * planes + p - 1) * RowBytes(width) + RowBytes(width);
      BodyTo(indices, width, planes, y, p - 1) + PlaneRow(BitsOf(RowAt(indices, width, y), p - 1))
    else if y > 0 then
      assert (y - 1) * width <= y * width;
      assert (y - 1) * planes + planes == y * planes;
      BodyTo(indices, width, planes, y - 1, planes)
    else []
  }

  method PutPlane(body: array<byte>, ghost done: seq<byte>, base: nat, row: seq<nat>, p: nat)
    requires base == |done| && base + RowBytes(|row|) <= body.Length && body[..] == done + Zeros(body.Length - base)
    modifies body
    ensures body[..] == done + PlaneRow(BitsOf(row, p)) + Zeros(body.Length - base - RowBytes(|row|))
  {
    hide PackedByte;
    ghost var before := body[..];
    assert forall i | base <= i < body.Length :: before[i] == 0;
    FillPlane(body, base, row, p);
    ghost var after := done + PlaneRow(BitsOf(row, p)) + Zeros(body.Length - base - RowBytes(|row|));
    forall i | 0 <= i < body.Length ensures body[i] == after[i] {
      assert i < base ==> before[i] == done[i];
      assert i >= base ==> before[i] == 0;
    }
  }

  lemma MulMonotone(a: nat, b: nat, c: nat)
    requires a <= b
    ensures a * c <= b * c
  {
  }

  lemma Regroup(row: nat, planes: nat, height: nat)
    ensures row * planes * height == height * planes * row
  {
    assert row * planes * height == row * (planes * height);
  }

  lemma RoomForPlane(planes: nat, height: nat, y: nat, p: nat, row: nat)
    requires y < height && p < planes
    ensures (y * planes + p) * row + row <= row * planes * height
  {
    var k, n := y * planes + p, height * planes;
    MulMonotone(y + 1, height, planes);
    assert (y + 1) * planes == y * planes + planes;
    MulMonotone(k + 1, n, row);
    assert (k + 1) * row == k * row + row;
    Regroup(row, planes, height);
  }

  lemma RoomForRow(width: nat, height: nat, y: nat)
    requires y < height
    ensures y * width <= (y + 1) * width <= width * height
  {
    MulMonotone(y, y + 1, width);
    MulMonotone(y + 1, height, width);
  }

  /** The bytes of the planes so far, and zeros behind them. */
  ghost predicate Filled(body: seq<byte>, done: seq<byte>)
  {
    |done| <= |body| && body == done + Zeros(|body| - |done|)
  }

  lemma FilledNext(body: seq<byte>, done: seq<byte>, plane: seq<byte>)
    requires |done| + |plane| <= |body| && body == done + plane + Zeros(|body| - |done| - |plane|)
    ensures Filled(body, done + plane)
  {
  }

  /** The planes of one row. */
  method PutRow(body: array<byte>, width: nat, height: nat, planes: nat, indices: seq<nat>, y: nat)
    requires |indices| == width * height && y < height && y * width <= |indices|
    requires body.Length == RowBytes(width) * planes * height
    requires Filled(body[..], BodyTo(indices, width, planes, y, 0))
    modifies body
    ensures (y + 1) * width <= |indices| && Filled(body[..], BodyTo(indices, width, planes, y, planes))
  {
    hide BodyTo, PlaneRow, RowAt, RowBytes;
    var row := RowBytes(width);
    RoomForRow(width, height, y);
    for p := 0 to planes
      invariant Filled(body[..], BodyTo(indices, width, planes, y, p))
    {
      ghost var done, plane := BodyTo(indices, width, planes, y, p), PlaneRow(BitsOf(RowAt(indices, width, y), p));
      RoomForPlane(planes, height, y, p, row);
      PutPlane(body, done, (y * planes + p) * row, RowAt(indices, width, y), p);
      FilledNext(body[..], done, plane);
      NextPlane(indices, width, planes, y, p);
    }
  }

  /** `planes_of`. */
  method PlanesOf(width: nat, height: nat, planes: nat, indices: seq<nat>) returns (r: seq<byte>)
    requires |indices| == width * height
    ensures r == BodyTo(indices, width, planes, height, 0)
  {
    hide BodyTo, RowBytes, Filled;
    var row := RowBytes(width);
    var body := new byte[row * planes * height](_ => 0);
    StartBody(indices, width, planes);
    NothingFilled(body[..]);
    for y := 0 to height
      invariant y * width <= |indices| && Filled(body[..], BodyTo(indices, width, planes, y, 0))
    {
      PutRow(body, width, height, planes, indices, y);
      RoomForRow(width, height, y);
      NextRow(indices, width, planes, y);
    }
    r := body[..];
    Regroup(row, planes, height);
    AllFilled(r, BodyTo(indices, width, planes, height, 0));
  }

  lemma NothingFilled(body: seq<byte>)
    requires forall i | 0 <= i < |body| :: body[i] == 0
    ensures Filled(body, [])
  {
    assert body == [] + Zeros(|body|);
  }

  lemma AllFilled(body: seq<byte>, done: seq<byte>)
    requires Filled(body, done) && |done| == |body|
    ensures body == done
  {
  }

  lemma StartBody(indices: seq<nat>, width: nat, planes: nat)
    ensures BodyTo(indices, width, planes, 0, 0) == []
  {
  }

  lemma NextPlane(indices: seq<nat>, width: nat, planes: nat, y: nat, p: nat)
    requires p < planes && y * width <= (y + 1) * width <= |indices|
    ensures BodyTo(indices, width, planes, y, p + 1) ==
            BodyTo(indices, width, planes, y, p) + PlaneRow(BitsOf(RowAt(indices, width, y), p))
  {
    hide PlaneRow, RowAt;
  }

  lemma NextRow(indices: seq<nat>, width: nat, planes: nat, y: nat)
    requires y * width <= (y + 1) * width <= |indices|
    ensures BodyTo(indices, width, planes, y + 1, 0) == BodyTo(indices, width, planes, y, planes)
  {
  }

  // ----- the reader

  /** Whether the bytes of a plane's pixels are all there. */
  predicate PlaneThere(body: seq<byte>, at: nat, width: nat)
  {
    width == 0 || at + (width - 1) / 8 < |body|
  }

  function PlaneBit(body: seq<byte>, at: nat, x: nat): bool
    requires at + x / 8 < |body|
  {
    Bit(body[at + x / 8], 7 - x % 8)
  }

  /** Where plane `k` of the row at `at` begins. */
  function PlaneAt(at: nat, width: nat, k: nat): nat { at + k * RowBytes(width) }

  ghost predicate PlanesThere(body: seq<byte>, at: nat, width: nat, count: nat)
  {
    forall k | 0 <= k < count :: PlaneThere(body, PlaneAt(at, width, k), width)
  }

  lemma LastPlaneThere(body: seq<byte>, at: nat, width: nat, x: nat, n: nat)
    requires n > 0 && x < width && PlanesThere(body, at, width, n)
    ensures PlanesThere(body, at, width, n - 1) && PlaneAt(at, width, n - 1) + x / 8 < |body|
  {
    hide PlaneAt;
    var k := n - 1;
    assert PlaneThere(body, PlaneAt(at, width, k), width);
    assert x / 8 <= (width - 1) / 8;
  }

  /** A pixel's index, one plane after another. */
  function IndexAt(body: seq<byte>, at: nat, width: nat, x: nat, n: nat): nat
    requires x < width && PlanesThere(body, at, width, n)
  {
    if n == 0 then 0
    else
      hide PlaneAt;
      LastPlaneThere(body, at, width, x, n);
      OrBit(IndexAt(body, at, width, x, n - 1), PlaneBit(body, PlaneAt(at, width, n - 1), x), n - 1)
  }

  /** One plane of one row, into the indices or the mask. */
  method ReadPlane(body: seq<byte>, at: nat, width: nat, index: array<nat>, mask: array<bool>, plane: nat, isIndex: bool)
    returns (ok: bool)
    requires index.Length == mask.Length == width
    modifies index, mask
    ensures ok == PlaneThere(body, at, width)
    ensures ok ==> forall x | 0 <= x < width ::
              && index[x] == (if isIndex then OrBit(old(index[x]), PlaneBit(body, at, x), plane) else old(index[x]))
              && mask[x] == (if isIndex then old(mask[x]) else PlaneBit(body, at, x))
  {
    hide OrBit, Bit;
    for x := 0 to width
      invariant x > 0 ==> at + (x - 1) / 8 < |body|
      invariant forall i | 0 <= i < width ::
          index[i] == (if i < x && isIndex then OrBit(old(index[i]), PlaneBit(body, at, i), plane) else old(index[i]))
      invariant forall i | 0 <= i < width ::
          mask[i] == (if i < x && !isIndex then PlaneBit(body, at, i) else old(mask[i]))
    {
      if at + x / 8 >= |body| {
        return false;
      }
      var bit := PlaneBit(body, at, x);
      if isIndex {
        index[x] := OrBit(index[x], bit, plane);
      } else {
        mask[x] := bit;
      }
    }
    return true;
  }

  /** The planes of one row; a mask plane comes last. */
  method ReadRow(body: seq<byte>, at: nat, width: nat, planes: nat, hasMask: bool)
    returns (ok: bool, index: seq<nat>, mask: seq<bool>)
    ensures ok == PlanesThere(body, at, width, if hasMask then planes + 1 else planes)
    ensures ok ==> |index| == |mask| == width && forall x | 0 <= x < width ::
              && PlanesThere(body, at, width, planes) && index[x] == IndexAt(body, at, width, x, planes)
              && (hasMask ==> PlaneThere(body, PlaneAt(at, width, planes), width))
              && mask[x] == (hasMask ==> PlaneBit(body, PlaneAt(at, width, planes), x))
  {
    hide OrBit, Bit, PlaneAt;
    var indices := new nat[width](_ => 0);
    var masks := new bool[width](_ => true);
    for k := 0 to planes
      invariant PlanesThere(body, at, width, k)
      invariant forall x | 0 <= x < width :: indices[x] == IndexAt(body, at, width, x, k) && masks[x]
    {
      ok := ReadPlane(body, PlaneAt(at, width, k), width, indices, masks, k, true);
      if !ok {
        return false, [], [];
      }
    }
    if hasMask {
      ok := ReadPlane(body, PlaneAt(at, width, planes), width, indices, masks, planes, false);
      if !ok {
        return false, [], [];
      }
    }
    return true, indices[..], masks[..];
  }

  // ----- the whole picture

  function RowSize(width: nat, planes: nat, hasMask: bool): nat
  {
    (if hasMask then planes + 1 else planes) * RowBytes(width)
  }

  /** All planes of the first `height` rows are there. */
  ghost predicate RowsThere(body: seq<byte>, width: nat, planes: nat, hasMask: bool, height: nat)
  {
    forall y | 0 <= y < height ::
      PlanesThere(body, y * RowSize(width, planes, hasMask), width, if hasMask then planes + 1 else planes)
  }

  /** The indices of a row's pixels. */
  function RowIndices(body: seq<byte>, at: nat, width: nat, planes: nat): (r: seq<nat>)
    requires PlanesThere(body, at, width, planes)
    ensures |r| == width && forall x | 0 <= x < width :: r[x] == IndexAt(body, at, width, x, planes)
  {
    seq(width, x requires 0 <= x < width => IndexAt(body, at, width, x, planes))
  }

  lemma LastRowThere(body: seq<byte>, width: nat, planes: nat, hasMask: bool, y: nat)
    requires y > 0 && RowsThere(body, width, planes, hasMask, y)
    ensures RowsThere(body, width, planes, hasMask, y - 1)
    ensures PlanesThere(body, (y - 1) * RowSize(width, planes, hasMask), width, planes)
    ensures hasMask ==> PlaneThere(body, PlaneAt((y - 1) * RowSize(width, planes, hasMask), width, planes), width)
  {
    hide PlanesThere, RowSize, PlaneThere;
    var k := y - 1;
    assert PlanesThere(body, k * RowSize(width, planes, hasMask), width, if hasMask then planes + 1 else planes);
    FewerPlanes(body, k * RowSize(width, planes, hasMask), width, planes, hasMask);
  }

  function IndicesTo(body: seq<byte>, width: nat, planes: nat, hasMask: bool, y: nat): seq<nat>
    requires RowsThere(body, width, planes, hasMask, y)
  {
    if y == 0 then []
    else
      LastRowThere(body, width, planes, hasMask, y);
      IndicesTo(body, width, planes, hasMask, y - 1) +
      RowIndices(body, (y - 1) * RowSize(width, planes, hasMask), width, planes)
  }

  /** A row's mask: its mask plane, or all ones without one. */
  function RowMask(body: seq<byte>, at: nat, width: nat, planes: nat, hasMask: bool): (r: seq<bool>)
    requires hasMask ==> PlaneThere(body, PlaneAt(at, width, planes), width)
    ensures |r| == width
  {
    seq(width, x requires 0 <= x < width => hasMask ==> PlaneBit(body, PlaneAt(at, width, planes), x))
  }

  function MasksTo(body: seq<byte>, width: nat, planes: nat, hasMask: bool, y: nat): seq<bool>
    requires RowsThere(body, width, planes, hasMask, y)
  {
    if y == 0 then []
    else
      LastRowThere(body, width, planes, hasMask, y);
      MasksTo(body, width, planes, hasMask, y - 1) +
      RowMask(body, (y - 1) * RowSize(width, planes, hasMask), width, planes, hasMask)
  }

  lemma NextRowThere(body: seq<byte>, width: nat, planes: nat, hasMask: bool, y: nat)
    requires RowsThere(body, width, planes, hasMask, y)
    ensures RowsThere(body, width, planes, hasMask, y + 1) <==>
            PlanesThere(body, y * RowSize(width, planes, hasMask), width, if hasMask then planes + 1 else planes)
  {
    hide PlanesThere, RowSize;
  }

  /** The decoder's loop: the indices of all pixels, and its mask plane's bits. */
  method DecodePlanes(body: seq<byte>, width: nat, height: nat, planes: nat, hasMask: bool)
    returns (r: Option<seq<nat>>, masks: seq<bool>)
    ensures r.Some? <==> RowsThere(body, width, planes, hasMask, height)
    ensures r.Some? ==> r.value == IndicesTo(body, width, planes, hasMask, height)
    ensures r.Some? ==> masks == MasksTo(body, width, planes, hasMask, height)
  {
    hide PlanesThere, PlaneThere, PlaneAt, PlaneBit, RowBytes;
    var pixels: seq<nat>, at: nat := [], 0;
    masks := [];
    var step := RowSize(width, planes, hasMask);
    for y := 0 to height
      invariant at == y * step && RowsThere(body, width, planes, hasMask, y)
      invariant pixels == IndicesTo(body, width, planes, hasMask, y)
      invariant masks == MasksTo(body, width, planes, hasMask, y)
    {
      var ok, index, mask := ReadRow(body, at, width, planes, hasMask);
      NextRowThere(body, width, planes, hasMask, y);
      if !ok {
        MissingRow(body, width, planes, hasMask, y, height);
        return None, [];
      }
      FewerPlanes(body, at, width, planes, hasMask);
      assert index == RowIndices(body, at, width, planes);
      assert mask == RowMask(body, at, width, planes, hasMask);
      pixels := pixels + index;
      masks := masks + mask;
      at := at + step;
    }
    return Some(pixels), masks;
  }

  lemma FewerPlanes(body: seq<byte>, at: nat, width: nat, planes: nat, hasMask: bool)
    requires PlanesThere(body, at, width, if hasMask then planes + 1 else planes)
    ensures PlanesThere(body, at, width, planes)
    ensures hasMask ==> PlaneThere(body, PlaneAt(at, width, planes), width)
  {
    hide PlaneThere, PlaneAt;
  }

  lemma MissingRow(body: seq<byte>, width: nat, planes: nat, hasMask: bool, y: nat, height: nat)
    requires y < height && !PlanesThere(body, y * RowSize(width, planes, hasMask), width, if hasMask then planes + 1 else planes)
    ensures !RowsThere(body, width, planes, hasMask, height)
  {
    hide PlanesThere, RowSize;
  }

  // ----- the round trip

  lemma {:induction false} BodyGrows(indices: seq<nat>, width: nat, planes: nat, y: nat, p: nat, q: nat)
    requires p <= q <= planes && y * width <= (y + 1) * width <= |indices|
    ensures BodyTo(indices, width, planes, y, p) <= BodyTo(indices, width, planes, y, q)
    decreases q
  {
    hide PlaneRow, RowAt;
    if p < q {
      BodyGrows(indices, width, planes, y, p, q - 1);
      NextPlane(indices, width, planes, y, q - 1);
    }
  }

  /** What is written for the first rows stays where it is. */
  lemma {:induction false} BodyPrefix(indices: seq<nat>, width: nat, planes: nat, y: nat, p: nat, height: nat)
    requires y < height && p <= planes && y * width <= (y + 1) * width <= |indices| && height * width <= |indices|
    ensures BodyTo(indices, width, planes, y, p) <= BodyTo(indices, width, planes, height, 0)
    decreases height - y
  {
    hide PlaneRow, RowAt, BodyTo;
    BodyGrows(indices, width, planes, y, p, planes);
    NextRow(indices, width, planes, y);
    if y + 1 < height {
      MulMonotone(y + 2, height, width);
      MulMonotone(y + 1, y + 2, width);
      BodyPrefix(indices, width, planes, y + 1, 0, height);
    }
  }

  /** Bit `p` of the index of pixel `x` in row `y` is where the plane at `at` has it. */
  ghost predicate BitHeld(indices: seq<nat>, width: nat, y: nat, p: nat, x: nat, body: seq<byte>, at: nat)
  {
    && (y + 1) * width <= |indices| && x < width && at + x / 8 < |body|
    && PlaneBit(body, at, x) == IndexBit(RowAt(indices, width, y)[x], p)
  }

  lemma PlaneInBody(indices: seq<nat>, width: nat, planes: nat, height: nat, y: nat, p: nat, x: nat, body: seq<byte>)
    requires y < height && p < planes && x < width && |indices| == width * height
    requires body == BodyTo(indices, width, planes, height, 0)
    ensures BitHeld(indices, width, y, p, x, body, (y * planes + p) * RowBytes(width))
  {
    hide BodyTo, PackedByte, Bit, RowAt, IndexBit;
    RoomForRow(width, height, y);
    NextPlane(indices, width, planes, y, p);
    BodyPrefix(indices, width, planes, y, p + 1, height);
    var done, row := BodyTo(indices, width, planes, y, p), RowAt(indices, width, y);
    var bits := BitsOf(row, p);
    var plane := PlaneRow(bits);
    assert x / 8 < RowBytes(width);
    assert body[|done| + x / 8] == (done + plane)[|done| + x / 8] == plane[x / 8];
    PackedBit(bits, x);
  }

  /** Reading the planes of a pixel gives its index. */
  lemma {:induction false} IndexRead(indices: seq<nat>, width: nat, planes: nat, height: nat, y: nat, x: nat, n: nat, body: seq<byte>)
    requires y < height && n <= planes && x < width && |indices| == width * height
    requires body == BodyTo(indices, width, planes, height, 0)
    requires (y + 1) * width <= |indices|
    requires PlanesThere(body, y * planes * RowBytes(width), width, n)
    ensures IndexAt(body, y * planes * RowBytes(width), width, x, n) == Low(RowAt(indices, width, y)[x], n)
    decreases n
  {
    hide BodyTo, RowAt, RowBytes, IndexBit, Bit;
    if n > 0 {
      var at, row := y * planes * RowBytes(width), RowAt(indices, width, y);
      IndexRead(indices, width, planes, height, y, x, n - 1, body);
      PlaneInBody(indices, width, planes, height, y, n - 1, x, body);
      assert (y * planes + (n - 1)) * RowBytes(width) == at + (n - 1) * RowBytes(width);
      LowBelow(row[x], n - 1);
      HighBitClear(Low(row[x], n - 1), n - 1);
    }
  }

  lemma {:induction false} LowBelow(n: nat, k: nat)
    ensures Low(n, k) < Pow2(k)
  {
    hide IndexBit;
    if k > 0 {
      LowBelow(n, k - 1);
    }
  }

  lemma Spread(y: nat, planes: nat, k: nat, row: nat)
    ensures (y * planes + k) * row == y * (planes * row) + k * row
  {
    assert y * planes * row == y * (planes * row);
  }

  // ----- a mask plane behind the index planes

  function Total(planes: nat, hasMask: bool): nat { if hasMask then planes + 1 else planes }

  /** A pixel's bits as the planes hold them: its index, and its mask bit above. */
  function Value(index: nat, mask: bool, planes: nat, hasMask: bool): nat
  {
    if hasMask && mask then index + Pow2(planes) else index
  }

  function Values(indices: seq<nat>, masks: seq<bool>, planes: nat, hasMask: bool): (r: seq<nat>)
    requires |masks| == |indices|
    ensures |r| == |indices| && forall i | 0 <= i < |r| :: r[i] == Value(indices[i], masks[i], planes, hasMask)
  {
    seq(|indices|, i requires 0 <= i < |indices| => Value(indices[i], masks[i], planes, hasMask))
  }

  lemma {:induction false} HighBitSet(n: nat, k: nat)
    requires n < Pow2(k)
    ensures Low(n + Pow2(k), k) == n && IndexBit(n + Pow2(k), k)
  {
    if k > 0 {
      var m := n + Pow2(k);
      LowHalves(m, k);
      HighBitSet(n / 2, k - 1);
      assert m / 2 == n / 2 + Pow2(k - 1) && m % 2 == n % 2;
    } else {
      assert n == 0 && Pow2(0) == 1;
    }
  }

  lemma ValueBits(index: nat, mask: bool, planes: nat, hasMask: bool)
    requires index < Pow2(planes)
    ensures Low(Value(index, mask, planes, hasMask), planes) == index
    ensures hasMask ==> IndexBit(Value(index, mask, planes, hasMask), planes) == mask
  {
    hide Low, IndexBit, Pow2;
    HighBitSet(index, planes);
    HighBitClear(index, planes);
    LowIsAll(index, planes);
  }

  /** `body` is written from these indices and, where there is a mask plane, these mask bits. */
  ghost predicate Written(indices: seq<nat>, masks: seq<bool>, width: nat, planes: nat, hasMask: bool, height: nat, body: seq<byte>)
  {
    && |indices| == |masks| == width * height && (forall i | 0 <= i < |indices| :: indices[i] < Pow2(planes))
    && height * width == |indices|
    && body == BodyTo(Values(indices, masks, planes, hasMask), width, Total(planes, hasMask), height, 0)
  }

  /** The mask the reader is to find: all ones without a mask plane. */
  function Marks(masks: seq<bool>, hasMask: bool): (r: seq<bool>)
    ensures |r| == |masks| && forall i | 0 <= i < |r| :: r[i] == (hasMask ==> masks[i])
  {
    seq(|masks|, i requires 0 <= i < |masks| => hasMask ==> masks[i])
  }

  lemma BodyRowsThere(values: seq<nat>, width: nat, planes: nat, height: nat, body: seq<byte>, y: nat)
    requires |values| == width * height == height * width && body == BodyTo(values, width, planes, height, 0) && y < height
    ensures PlanesThere(body, y * (planes * RowBytes(width)), width, planes)
  {
    hide BodyTo, RowBytes, PlaneBit, RowAt;
    forall k | 0 <= k < planes ensures PlaneThere(body, PlaneAt(y * (planes * RowBytes(width)), width, k), width) {
      if width > 0 {
        PlaneInBody(values, width, planes, height, y, k, width - 1, body);
        Spread(y, planes, k, RowBytes(width));
      }
    }
  }

  lemma WrittenRowThere(indices: seq<nat>, masks: seq<bool>, width: nat, planes: nat, hasMask: bool, height: nat, body: seq<byte>, y: nat)
    requires Written(indices, masks, width, planes, hasMask, height, body) && y < height
    ensures PlanesThere(body, y * RowSize(width, planes, hasMask), width, Total(planes, hasMask))
    ensures PlanesThere(body, y * RowSize(width, planes, hasMask), width, planes)
    ensures hasMask ==> PlaneThere(body, PlaneAt(y * RowSize(width, planes, hasMask), width, planes), width)
  {
    hide BodyTo, RowBytes, PlanesThere, PlaneThere;
    BodyRowsThere(Values(indices, masks, planes, hasMask), width, Total(planes, hasMask), height, body, y);
    FewerPlanes(body, y * RowSize(width, planes, hasMask), width, planes, hasMask);
  }

  /** Where the planes of a written row begin. */
  lemma RowStart(width: nat, planes: nat, hasMask: bool, y: nat)
    ensures y * RowSize(width, planes, hasMask) == y * Total(planes, hasMask) * RowBytes(width)
    ensures PlaneAt(y * RowSize(width, planes, hasMask), width, planes) == (y * Total(planes, hasMask) + planes) * RowBytes(width)
  {
    hide RowBytes;
    Spread(y, Total(planes, hasMask), 0, RowBytes(width));
    Spread(y, Total(planes, hasMask), planes, RowBytes(width));
  }

  /** The bits a written row was made from. */
  lemma RowValue(indices: seq<nat>, masks: seq<bool>, width: nat, planes: nat, hasMask: bool, y: nat, x: nat)
    requires |masks| == |indices| && x < width && y * width + x < |indices| && (y + 1) * width <= |indices|
    requires indices[y * width + x] < Pow2(planes)
    ensures var bits := RowAt(Values(indices, masks, planes, hasMask), width, y)[x];
            Low(bits, planes) == indices[y * width + x] && (hasMask ==> IndexBit(bits, planes) == masks[y * width + x])
  {
    hide Low, IndexBit, Pow2, Value;
    ValueBits(indices[y * width + x], masks[y * width + x], planes, hasMask);
  }

  /** Reading a pixel of a written body gives its index and its mask bit. */
  lemma PixelRead(indices: seq<nat>, masks: seq<bool>, width: nat, planes: nat, hasMask: bool, height: nat, body: seq<byte>, y: nat, x: nat)
    requires Written(indices, masks, width, planes, hasMask, height, body) && y < height && x < width
    requires y * width + x < |indices| && (y + 1) * width <= |indices|
    requires PlanesThere(body, y * RowSize(width, planes, hasMask), width, planes)
    ensures IndexAt(body, y * RowSize(width, planes, hasMask), width, x, planes) == indices[y * width + x]
    ensures hasMask ==> BitHeld(Values(indices, masks, planes, hasMask), width, y, planes, x, body,
                                PlaneAt(y * RowSize(width, planes, hasMask), width, planes))
    ensures hasMask ==> IndexBit(RowAt(Values(indices, masks, planes, hasMask), width, y)[x], planes) == masks[y * width + x]
  {
    hide BodyTo, RowBytes, RowSize, PlaneAt, PlaneBit, PlanesThere, Low, IndexAt, IndexBit, BitHeld, Pow2, Values, RowAt;
    var values, total := Values(indices, masks, planes, hasMask), Total(planes, hasMask);
    RowStart(width, planes, hasMask, y);
    RowValue(indices, masks, width, planes, hasMask, y, x);
    IndexRead(values, width, total, height, y, x, planes, body);
    if hasMask {
      PlaneInBody(values, width, total, height, y, planes, x, body);
    }
  }

  lemma RowRead(indices: seq<nat>, masks: seq<bool>, width: nat, planes: nat, hasMask: bool, height: nat, body: seq<byte>, y: nat)
    requires Written(indices, masks, width, planes, hasMask, height, body) && y < height
    ensures y * width <= (y + 1) * width <= |indices|
    ensures PlanesThere(body, y * RowSize(width, planes, hasMask), width, planes)
    ensures hasMask ==> PlaneThere(body, PlaneAt(y * RowSize(width, planes, hasMask), width, planes), width)
    ensures RowIndices(body, y * RowSize(width, planes, hasMask), width, planes) == indices[y * width..(y + 1) * width]
    ensures RowMask(body, y * RowSize(width, planes, hasMask), width, planes, hasMask) ==
            Marks(masks, hasMask)[y * width..(y + 1) * width]
  {
    hide BodyTo, RowBytes, RowSize, PlanesThere, PlaneThere, PlaneAt, Low, IndexAt, IndexBit, Written, Values, RowAt, PlaneBit;
    WrittenLength(indices, masks, width, planes, hasMask, height, body);
    RoomForRow(width, height, y);
    WrittenRowThere(indices, masks, width, planes, hasMask, height, body, y);
    var at := y * RowSize(width, planes, hasMask);
    forall x | 0 <= x < width
      ensures RowIndices(body, at, width, planes)[x] == indices[y * width + x]
      ensures RowMask(body, at, width, planes, hasMask)[x] == Marks(masks, hasMask)[y * width + x]
    {
      PixelRead(indices, masks, width, planes, hasMask, height, body, y, x);
    }
  }

  lemma WrittenLength(indices: seq<nat>, masks: seq<bool>, width: nat, planes: nat, hasMask: bool, height: nat, body: seq<byte>)
    requires Written(indices, masks, width, planes, hasMask, height, body)
    ensures |indices| == |masks| == width * height == height * width
  {
  }

  lemma {:induction false} RowsRead(indices: seq<nat>, masks: seq<bool>, width: nat, planes: nat, hasMask: bool, height: nat, body: seq<byte>, y: nat)
    requires Written(indices, masks, width, planes, hasMask, height, body) && y <= height && y * width <= |indices| == |masks|
    ensures RowsThere(body, width, planes, hasMask, y)
    ensures IndicesTo(body, width, planes, hasMask, y) == indices[..y * width]
    ensures MasksTo(body, width, planes, hasMask, y) == Marks(masks, hasMask)[..y * width]
    decreases y
  {
    hide BodyTo, RowBytes, RowSize, PlaneBit, PlanesThere, RowIndices, RowMask, Written, PlaneThere, PlaneAt, Marks;
    if y > 0 {
      RowRead(indices, masks, width, planes, hasMask, height, body, y - 1);
      RowsRead(indices, masks, width, planes, hasMask, height, body, y - 1);
      WrittenRowThere(indices, masks, width, planes, hasMask, height, body, y - 1);
      NextRowThere(body, width, planes, hasMask, y - 1);
      SliceOn(indices, (y - 1) * width, y * width);
      SliceOn(Marks(masks, hasMask), (y - 1) * width, y * width);
    }
  }

  lemma SliceOn<T>(s: seq<T>, a: nat, b: nat)
    requires a <= b <= |s|
    ensures s[..b] == s[..a] + s[a..b]
  {
  }

  /** For every picture of indices below two to the number of planes, with any mask or none,
      decoding its planes gives the picture. */
  lemma PlanesRoundTrip(indices: seq<nat>, masks: seq<bool>, width: nat, planes: nat, hasMask: bool, height: nat)
    requires |indices| == |masks| == width * height && forall i | 0 <= i < |indices| :: indices[i] < Pow2(planes)
    ensures height * width <= |indices|
    ensures var body := BodyTo(Values(indices, masks, planes, hasMask), width, Total(planes, hasMask), height, 0);
            && RowsThere(body, width, planes, hasMask, height)
            && IndicesTo(body, width, planes, hasMask, height) == indices
            && MasksTo(body, width, planes, hasMask, height) == Marks(masks, hasMask)
  {
    hide BodyTo, RowsThere, IndicesTo, MasksTo, Values, Marks;
    assert height * width == |indices|;
    var body := BodyTo(Values(indices, masks, planes, hasMask), width, Total(planes, hasMask), height, 0);
    RowsRead(indices, masks, width, planes, hasMask, height, body, height);
    assert indices[..|indices|] == indices && Marks(masks, hasMask)[..|masks|] == Marks(masks, hasMask);
  }
}
