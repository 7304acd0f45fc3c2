/** The reconstruction rules of section 9.2 of the W3C PNG specification, byte by byte, and that the
    decoder's rows meet them. */
module PngRules {
  import opened Bytes
  import opened PngFilter

  function Distance(x: int, y: int): int { if x < y then y - x else x - y }

  /** `x` is what `f` stands for after a prediction `p`, modulo 256. */
  predicate Restores(x: int, f: int, p: int) { 0 <= x < 256 && (f + p - x) % 256 == 0 }

  /** The predictor of type 4: the nearest to the estimate, in the order left, above, above left. */
  predicate Nearest(p: int, a: int, b: int, c: int)
  {
    var e := a + b - c;
    if Distance(e, a) <= Distance(e, b) && Distance(e, a) <= Distance(e, c) then p == a
    else if Distance(e, b) <= Distance(e, c) then p == b
    else p == c
  }

  /** Byte `x` restored from `f`, with `a` to its left, `b` above and `c` above that. */
  ghost predicate Recon(kind: int, x: int, f: int, a: int, b: int, c: int)
  {
    if kind == 1 then Restores(x, f, a)
    else if kind == 2 then Restores(x, f, b)
    else if kind == 3 then exists h :: 2 * h <= a + b <= 2 * h + 1 && Restores(x, f, h)
    else if kind == 4 then exists p :: Nearest(p, a, b, c) && Restores(x, f, p)
    else x == f
  }

  lemma Wraps(f: byte, p: int)
    ensures Restores((f + p) % 256, f, p)
  {
    var k := (f + p) / 256;
    assert (f + p) % 256 == f + p - 256 * k;
  }

  lemma PredictMeets(kind: byte, f: byte, a: byte, b: byte, c: byte)
    ensures Recon(kind, (f + Predict(kind, a, b, c)) % 256, f, a, b, c)
  {
    hide Restores;
    var p := Predict(kind, a, b, c);
    Wraps(f, p);
    if kind == 3 {
      assert 2 * p <= a + b <= 2 * p + 1;
    } else if kind == 4 {
      assert Nearest(p, a, b, c);
    }
  }

  function At(row: seq<byte>, i: int): int { if 0 <= i < |row| then row[i] else 0 }

  /** Every byte of a restored row. */
  lemma RowMeets(kind: byte, coded: seq<byte>, above: seq<byte>, bpp: nat, i: nat)
    requires bpp > 0 && i < |coded| == |above|
    ensures var r := Restored(kind, coded, above, bpp, |coded|);
            Recon(kind, r[i], coded[i], At(r, i - bpp), above[i], At(above, i - bpp))
  {
    hide Predict, Recon;
    var r, before := Restored(kind, coded, above, bpp, |coded|), Restored(kind, coded, above, bpp, i);
    RestoredPrefix(kind, coded, above, bpp, i, |coded|);
    RestoredPrefix(kind, coded, above, bpp, i + 1, |coded|);
    assert r[i] == r[..i + 1][i];
    assert i >= bpp ==> before[i - bpp] == r[..i][i - bpp];
    PredictMeets(kind, coded[i], Left(before, i, bpp), above[i], Left(above, i, bpp));
  }

  /** Every byte of an image: a row is its type and its bytes, one row after another, and above the
      first there are zeros. */
  lemma {:induction false} ImageMeets(raw: seq<byte>, at: nat, above: seq<byte>, bpp: nat, count: nat, y: nat, i: nat)
    requires bpp > 0 && y < count && i < |above| && at + count * (1 + |above|) <= |raw|
    ensures var rows := RowsFrom(raw, at, above, bpp, count); var line := at + y * (1 + |above|);
            && rows.Some? && |rows.value| == count && (forall j | 0 <= j < count :: |rows.value[j]| == |above|)
            && 0 <= line && line + 1 + i < |raw|
            && var up := if y == 0 then above else rows.value[y - 1];
               Recon(raw[line], rows.value[y][i], raw[line + 1 + i], At(rows.value[y], i - bpp), up[i], At(up, i - bpp))
    decreases count
  {
    hide Restored, RowsFrom, Recon;
    var stride := |above|;
    EncodeDecoded(raw, at, above, bpp, count);
    assert count * (1 + stride) == (count - 1) * (1 + stride) + 1 + stride;
    DecodedFirst(raw, at, above, bpp, count);
    var kind, coded := raw[at], raw[at + 1..at + 1 + stride];
    var row := Restored(kind, coded, above, bpp, stride);
    if y == 0 {
      RowMeets(kind, coded, above, bpp, i);
      FirstLine(at, stride);
    } else {
      ImageMeets(raw, at + 1 + stride, row, bpp, count - 1, y - 1, i);
      LaterLine(at, stride, y);
    }
  }

  lemma FirstLine(at: nat, stride: nat)
    ensures at + 0 * (1 + stride) == at
  {
  }

  lemma LaterLine(at: nat, stride: nat, y: nat)
    requires y > 0
    ensures at + 1 + stride + (y - 1) * (1 + stride) == at + y * (1 + stride)
  {
  }
}
