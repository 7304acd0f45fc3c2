/** PNG scanline filters: the decoder's `_unfilter` in place, against the filters of section 9 of
    the W3C PNG specification. */
module PngFilter {
  import opened Bytes

  // ----- the predictors

  function Abs(x: int): nat { if x < 0 then -x else x }

  function Paeth(a: byte, b: byte, c: byte): (r: byte)
  {
    var p := a + b - c;
    var pa, pb, pc := Abs(p - a), Abs(p - b), Abs(p - c);
    if pa <= pb && pa <= pc then a else if pb <= pc then b else c
  }

  /** The Paeth predictor is the one of the three nearest `a + b - c`; ties go to the left, then
      to the one above. */
  lemma PaethIsNearest(a: byte, b: byte, c: byte)
    ensures var p, r := a + b - c, Paeth(a, b, c);
            && r in {a, b, c}
            && Abs(p - r) <= Abs(p - a) && Abs(p - r) <= Abs(p - b) && Abs(p - r) <= Abs(p - c)
            && (Abs(p - a) == Abs(p - r) ==> r == a) && (r != a && Abs(p - b) == Abs(p - r) ==> r == b)
  {
  }

  /** What a filter type predicts from the byte to the left, the one above, and the one above
      that to the left. A type past the five predicts nothing, as the first does. */
  function Predict(kind: byte, left: byte, up: byte, upLeft: byte): byte
  {
    if kind == 1 then left
    else if kind == 2 then up
    else if kind == 3 then (left + up) / 2
    else if kind == 4 then Paeth(left, up, upLeft)
    else 0
  }

  /** The byte one pixel to the left of `i`, zero before the first pixel. */
  function Left(row: seq<byte>, i: nat, bpp: nat): byte
    requires bpp > 0 && i <= |row|
  {
    if i >= bpp then row[i - bpp] else 0
  }

  // ----- one row

  /** The filter a PNG writer applies. */
  function Filtered(kind: byte, row: seq<byte>, above: seq<byte>, bpp: nat): (r: seq<byte>)
    requires bpp > 0 && |above| == |row|
    ensures |r| == |row|
  {
    seq(|row|, i requires 0 <= i < |row| =>
      (row[i] - Predict(kind, Left(row, i, bpp), above[i], Left(above, i, bpp))) % 256)
  }

  /** The first `n` bytes of a row, restored from left to right. */
  function Restored(kind: byte, coded: seq<byte>, above: seq<byte>, bpp: nat, n: nat): (r: seq<byte>)
    requires bpp > 0 && n <= |coded| == |above|
    ensures |r| == n
  {
    if n == 0 then []
    else
      var r := Restored(kind, coded, above, bpp, n - 1);
      r + [(coded[n - 1] + Predict(kind, Left(r, n - 1, bpp), above[n - 1], Left(above, n - 1, bpp))) % 256]
  }

  lemma {:induction false} RestoredPrefix(kind: byte, coded: seq<byte>, above: seq<byte>, bpp: nat, m: nat, n: nat)
    requires bpp > 0 && m <= n <= |coded| == |above|
    ensures Restored(kind, coded, above, bpp, n)[..m] == Restored(kind, coded, above, bpp, m)
  {
    if m < n {
      RestoredPrefix(kind, coded, above, bpp, m, n - 1);
    }
  }

  lemma Modulo(x: byte, p: int)
    ensures ((x - p) % 256 + p) % 256 == x && ((x + p) % 256 - p) % 256 == x
  {
    var k := (x - p) / 256;
    assert (x - p) % 256 == x - p - 256 * k;
    var j := (x + p) / 256;
    assert (x + p) % 256 == x + p - 256 * j;
  }

  /** Restoring a filtered row gives it back. */
  lemma {:induction false} RestoreFiltered(kind: byte, row: seq<byte>, above: seq<byte>, bpp: nat, n: nat)
    requires bpp > 0 && n <= |row| == |above|
    ensures Restored(kind, Filtered(kind, row, above, bpp), above, bpp, n) == row[..n]
  {
    hide Predict;
    if n > 0 {
      RestoreFiltered(kind, row, above, bpp, n - 1);
      var i := n - 1;
      assert Left(row[..i], i, bpp) == Left(row, i, bpp);
      Modulo(row[i], Predict(kind, Left(row, i, bpp), above[i], Left(above, i, bpp)));
    }
  }

  /** And filtering a restored row gives the coded one back. */
  lemma FilterRestored(kind: byte, coded: seq<byte>, above: seq<byte>, bpp: nat)
    requires bpp > 0 && |coded| == |above|
    ensures Filtered(kind, Restored(kind, coded, above, bpp, |coded|), above, bpp) == coded
  {
    hide Predict;
    var n := |coded|;
    var row := Restored(kind, coded, above, bpp, n);
    forall i | 0 <= i < n ensures Filtered(kind, row, above, bpp)[i] == coded[i] {
      RestoredPrefix(kind, coded, above, bpp, i, n);
      RestoredPrefix(kind, coded, above, bpp, i + 1, n);
      var before := Restored(kind, coded, above, bpp, i);
      assert row[i] == row[..i + 1][i];
      assert Left(before, i, bpp) == Left(row, i, bpp) by { assert i >= bpp ==> before[i - bpp] == row[..i][i - bpp]; }
      Modulo(coded[i], Predict(kind, Left(row, i, bpp), above[i], Left(above, i, bpp)));
    }
  }

  /** `(x + y) & 0xFF`. */
  function Plus(x: int, y: int): byte { (x + y) % 256 }

  function Half(x: int, y: int): int { (x + y) / 2 }

  /** Type 1: the first pixel is as coded. */
  method RestoreSub(line: array<byte>, above: seq<byte>, bpp: nat)
    requires bpp > 0 && line.Length == |above|
    modifies line
    ensures line[..] == Restored(1, old(line[..]), above, bpp, |above|)
  {
    hide Restored, Predict, Paeth;
    ghost var coded, kind: byte := line[..], 1;
    var first := if bpp < line.Length then bpp else line.Length;
    Unpredicted(kind, coded, above, bpp, first);
    SubPredicts();
    for i := first to line.Length
      invariant line[..i] == Restored(kind, coded, above, bpp, i) && line[i..] == coded[i..]
    {
      RestoreNext(line, i, kind, coded, above, bpp);
      line[i] := Plus(line[i], line[i - bpp]);
    }
    assert line[..line.Length] == line[..];
  }

  /** Type 2. */
  method RestoreUp(line: array<byte>, above: seq<byte>, bpp: nat)
    requires bpp > 0 && line.Length == |above|
    modifies line
    ensures line[..] == Restored(2, old(line[..]), above, bpp, |above|)
  {
    hide Restored, Predict, Paeth;
    ghost var coded, kind: byte := line[..], 2;
    Nothing(kind, coded, above, bpp);
    UpPredicts();
    for i := 0 to line.Length
      invariant line[..i] == Restored(kind, coded, above, bpp, i) && line[i..] == coded[i..]
    {
      RestoreNext(line, i, kind, coded, above, bpp);
      line[i] := Plus(line[i], above[i]);
    }
    assert line[..line.Length] == line[..];
  }

  /** Type 3. */
  method RestoreAverage(line: array<byte>, above: seq<byte>, bpp: nat)
    requires bpp > 0 && line.Length == |above|
    modifies line
    ensures line[..] == Restored(3, old(line[..]), above, bpp, |above|)
  {
    hide Restored, Predict, Paeth;
    ghost var coded, kind: byte := line[..], 3;
    Nothing(kind, coded, above, bpp);
    AveragePredicts();
    for i := 0 to line.Length
      invariant line[..i] == Restored(kind, coded, above, bpp, i) && line[i..] == coded[i..]
    {
      RestoreNext(line, i, kind, coded, above, bpp);
      var left := if i >= bpp then line[i - bpp] else 0;
      line[i] := Plus(line[i], Half(left, above[i]));
    }
    assert line[..line.Length] == line[..];
  }

  /** Type 4. */
  method RestorePaeth(line: array<byte>, above: seq<byte>, bpp: nat)
    requires bpp > 0 && line.Length == |above|
    modifies line
    ensures line[..] == Restored(4, old(line[..]), above, bpp, |above|)
  {
    hide Restored, Predict, Paeth;
    ghost var coded, kind: byte := line[..], 4;
    Nothing(kind, coded, above, bpp);
    PaethPredicts();
    for i := 0 to line.Length
      invariant line[..i] == Restored(kind, coded, above, bpp, i) && line[i..] == coded[i..]
    {
      RestoreNext(line, i, kind, coded, above, bpp);
      var left := if i >= bpp then line[i - bpp] else 0;
      var upLeft := if i >= bpp then above[i - bpp] else 0;
      line[i] := Plus(line[i], Paeth(left, above[i], upLeft));
    }
    assert line[..line.Length] == line[..];
  }

  /** One scanline, restored in place. */
  method RestoreRow(kind: byte, line: array<byte>, above: seq<byte>, bpp: nat)
    requires bpp > 0 && line.Length == |above|
    modifies line
    ensures line[..] == Restored(kind, old(line[..]), above, bpp, |above|)
  {
    hide Restored;
    if kind == 1 {
      RestoreSub(line, above, bpp);
    } else if kind == 2 {
      RestoreUp(line, above, bpp);
    } else if kind == 3 {
      RestoreAverage(line, above, bpp);
    } else if kind == 4 {
      RestorePaeth(line, above, bpp);
    } else {
      Unpredicted(kind, line[..], above, bpp, |above|);
      assert line[..] == line[..][..|above|];
    }
  }

  lemma Nothing(kind: byte, coded: seq<byte>, above: seq<byte>, bpp: nat)
    requires bpp > 0 && |coded| == |above|
    ensures Restored(kind, coded, above, bpp, 0) == []
  {
  }

  lemma SubPredicts()
    ensures forall a: byte, b: byte, c: byte {:trigger Predict(1, a, b, c)} :: Predict(1, a, b, c) == a
  {
  }

  lemma UpPredicts()
    ensures forall a: byte, b: byte, c: byte {:trigger Predict(2, a, b, c)} :: Predict(2, a, b, c) == b
  {
  }

  lemma AveragePredicts()
    ensures forall a: byte, b: byte, c: byte {:trigger Predict(3, a, b, c)} :: Predict(3, a, b, c) == (a + b) / 2
  {
  }

  lemma PaethPredicts()
    ensures forall a: byte, b: byte, c: byte {:trigger Predict(4, a, b, c)} :: Predict(4, a, b, c) == Paeth(a, b, c)
  {
  }

  lemma RestoreNext(line: array<byte>, i: nat, kind: byte, coded: seq<byte>, above: seq<byte>, bpp: nat)
    requires bpp > 0 && i < line.Length == |coded| == |above|
    requires line[..i] == Restored(kind, coded, above, bpp, i) && line[i..] == coded[i..]
    ensures line[i] == coded[i] && (i >= bpp ==> Left(line[..i], i, bpp) == line[i - bpp])
    ensures Restored(kind, coded, above, bpp, i + 1) ==
            line[..i] + [(line[i] + Predict(kind, Left(line[..i], i, bpp), above[i], Left(above, i, bpp))) % 256]
    ensures line[i + 1..] == coded[i + 1..]
  {
    assert line[i] == line[i..][0] == coded[i..][0];
    assert line[i + 1..] == line[i..][1..] && coded[i + 1..] == coded[i..][1..];
  }

  /** Bytes nothing is predicted for are as coded: all of them, or the first pixel's. */
  lemma {:induction false} Unpredicted(kind: byte, coded: seq<byte>, above: seq<byte>, bpp: nat, n: nat)
    requires bpp > 0 && n <= |coded| == |above|
    requires kind == 0 || kind > 4 || (kind == 1 && n <= bpp)
    ensures Restored(kind, coded, above, bpp, n) == coded[..n]
  {
    if n > 0 {
      Unpredicted(kind, coded, above, bpp, n - 1);
    }
  }

  // ----- the whole image

  /** What a PNG writer emits for rows of one length, each with a filter type of its choice. */
  function FilteredFrom(rows: seq<seq<byte>>, kinds: seq<byte>, above: seq<byte>, bpp: nat): (raw: seq<byte>)
    requires bpp > 0 && |kinds| == |rows| && forall i | 0 <= i < |rows| :: |rows[i]| == |above|
    ensures |raw| == |rows| * (1 + |above|)
    decreases |rows|
  {
    if rows == [] then []
    else
      [kinds[0]] + Filtered(kinds[0], rows[0], above, bpp) + FilteredFrom(rows[1..], kinds[1..], rows[0], bpp)
  }

  /** The rows a decoder reads from `raw` on. `None` is an index past the end of the data: a row
      that is not all there, except where its filter never looks at the missing bytes. */
  function RowsFrom(raw: seq<byte>, at: nat, above: seq<byte>, bpp: nat, count: nat): Option<seq<seq<byte>>>
    requires bpp > 0
    decreases count
  {
    var stride := |above|;
    if count == 0 then Some([])
    else if at >= |raw| then None
    else
      var kind := raw[at];
      if at + 1 + stride <= |raw| then
        var row := Restored(kind, raw[at + 1..at + 1 + stride], above, bpp, stride);
        match RowsFrom(raw, at + 1 + stride, row, bpp, count - 1)
        case None => None
        case Some(rest) => Some([row] + rest)
      else if 2 <= kind <= 4 || (kind == 1 && bpp < stride) || count > 1 then None
      else Some([raw[at + 1..]])
  }

  function Prepend(rows: seq<seq<byte>>, rest: Option<seq<seq<byte>>>): Option<seq<seq<byte>>>
  {
    match rest
    case None => None
    case Some(more) => Some(rows + more)
  }

  /** One whole row. */
  lemma NextRow(raw: seq<byte>, at: nat, above: seq<byte>, bpp: nat, count: nat, rows: seq<seq<byte>>)
    requires bpp > 0 && count > 0 && at + 1 + |above| <= |raw|
    ensures var row := Restored(raw[at], raw[at + 1..at + 1 + |above|], above, bpp, |above|);
            Prepend(rows, RowsFrom(raw, at, above, bpp, count)) ==
            Prepend(rows + [row], RowsFrom(raw, at + 1 + |above|, row, bpp, count - 1))
  {
    hide Restored;
    var row := Restored(raw[at], raw[at + 1..at + 1 + |above|], above, bpp, |above|);
    var rest := RowsFrom(raw, at + 1 + |above|, row, bpp, count - 1);
    if rest.Some? {
      assert rows + ([row] + rest.value) == rows + [row] + rest.value;
    }
  }

  /** A row that is not all there. */
  lemma ShortRow(raw: seq<byte>, at: nat, above: seq<byte>, bpp: nat, count: nat, rows: seq<seq<byte>>)
    requires bpp > 0 && count > 0 && at < |raw| < at + 1 + |above|
    ensures Prepend(rows, RowsFrom(raw, at, above, bpp, count)) ==
            if 2 <= raw[at] <= 4 || (raw[at] == 1 && bpp < |above|) || count > 1 then None else Some(rows + [raw[at + 1..]])
  {
  }

  /** `_unfilter`. */
  method Unfilter(raw: seq<byte>, width: nat, height: nat, bpp: nat) returns (r: Option<seq<byte>>)
    requires bpp > 0
    ensures var rows := RowsFrom(raw, 0, Zeros(width * bpp), bpp, height);
            r == match rows case None => None case Some(rs) => Some(Concat(rs))
  {
    hide Restored, RowsFrom, Concat;
    var stride := width * bpp;
    var out: seq<byte>, previous := [], Zeros(stride);
    ghost var all, rows: seq<seq<byte>> := RowsFrom(raw, 0, previous, bpp, height), [];
    NoRows(all);
    var at := 0;
    for row := 0 to height
      invariant |previous| == stride && out == Concat(rows)
      invariant all == Prepend(rows, RowsFrom(raw, at, previous, bpp, height - row))
    {
      if at >= |raw| {
        PastEnd(raw, at, previous, bpp, height - row);
        return None;
      }
      var kind := raw[at];
      at := at + 1;
      if at + stride > |raw| {
        ShortRow(raw, at - 1, previous, bpp, height - row, rows);
        ConcatLast(rows, raw[at..]);
        if 2 <= kind <= 4 || (kind == 1 && bpp < stride) || row + 1 < height {
          return None;
        }
        return Some(out + raw[at..]);
      }
      var line := new byte[stride](i requires 0 <= i < stride => raw[at + i]);
      assert line[..] == raw[at..at + stride];
      RestoreRow(kind, line, previous, bpp);
      NextRow(raw, at - 1, previous, bpp, height - row, rows);
      ConcatLast(rows, line[..]);
      at := at + stride;
      out := out + line[..];
      previous := line[..];
      rows := rows + [line[..]];
    }
    LastRow(raw, at, previous, bpp, rows);
    return Some(out);
  }

  lemma NoRows(all: Option<seq<seq<byte>>>)
    ensures Prepend([], all) == all && Concat<byte>([]) == []
  {
    if all.Some? {
      assert [] + all.value == all.value;
    }
  }

  lemma PastEnd(raw: seq<byte>, at: nat, above: seq<byte>, bpp: nat, count: nat)
    requires bpp > 0 && count > 0 && at >= |raw|
    ensures RowsFrom(raw, at, above, bpp, count) == None
  {
  }

  lemma LastRow(raw: seq<byte>, at: nat, above: seq<byte>, bpp: nat, rows: seq<seq<byte>>)
    requires bpp > 0
    ensures Prepend(rows, RowsFrom(raw, at, above, bpp, 0)) == Some(rows)
  {
    assert rows + [] == rows;
  }

  // ----- filtering is a bijection

  /** Decoding what a writer emitted, whatever follows it, gives the rows back. */
  lemma {:induction false} DecodeEncoded(rows: seq<seq<byte>>, kinds: seq<byte>, above: seq<byte>, bpp: nat, raw: seq<byte>, at: nat)
    requires bpp > 0 && |kinds| == |rows| && forall i | 0 <= i < |rows| :: |rows[i]| == |above|
    requires at <= |raw| && FilteredFrom(rows, kinds, above, bpp) <= raw[at..]
    ensures RowsFrom(raw, at, above, bpp, |rows|) == Some(rows)
    decreases |rows|
  {
    hide Restored, Filtered;
    if rows != [] {
      var stride := |above|;
      var coded, rest := Filtered(kinds[0], rows[0], above, bpp), FilteredFrom(rows[1..], kinds[1..], rows[0], bpp);
      EncodedFirst(raw, at, kinds[0], coded, rest);
      RestoreFiltered(kinds[0], rows[0], above, bpp, stride);
      assert rows[0][..stride] == rows[0];
      DecodeEncoded(rows[1..], kinds[1..], rows[0], bpp, raw, at + 1 + stride);
      assert rows == [rows[0]] + rows[1..];
    }
  }

  lemma EncodedFirst(raw: seq<byte>, at: nat, kind: byte, coded: seq<byte>, rest: seq<byte>)
    requires at <= |raw| && [kind] + coded + rest <= raw[at..]
    ensures at + 1 + |coded| + |rest| <= |raw| && raw[at] == kind && raw[at + 1..at + 1 + |coded|] == coded
    ensures rest <= raw[at + 1 + |coded|..]
  {
    var all := [kind] + coded + rest;
    assert forall i | 0 <= i < |all| :: raw[at + i] == raw[at..][i] == all[i];
    assert forall i | 0 <= i < |coded| :: raw[at + 1 + i] == all[1 + i] == coded[i];
    assert forall i | 0 <= i < |rest| :: raw[at + 1 + |coded| + i] == all[1 + |coded| + i] == rest[i];
  }

  function KindsFrom(raw: seq<byte>, at: nat, stride: nat, count: nat): (kinds: seq<byte>)
    requires at + count * (1 + stride) <= |raw|
    ensures |kinds| == count
    decreases count
  {
    if count == 0 then [] else [raw[at]] + KindsFrom(raw, at + 1 + stride, stride, count - 1)
  }

  lemma NothingDecoded(raw: seq<byte>, at: nat, above: seq<byte>, bpp: nat)
    requires bpp > 0
    ensures RowsFrom(raw, at, above, bpp, 0) == Some([]) && FilteredFrom([], [], above, bpp) == []
  {
  }

  lemma DecodedFirst(raw: seq<byte>, at: nat, above: seq<byte>, bpp: nat, count: nat)
    requires bpp > 0 && count > 0 && at + 1 + |above| <= |raw|
    ensures var row := Restored(raw[at], raw[at + 1..at + 1 + |above|], above, bpp, |above|);
            RowsFrom(raw, at, above, bpp, count) == Prepend([row], RowsFrom(raw, at + 1 + |above|, row, bpp, count - 1))
  {
    hide Restored;
  }

  lemma FilteredCons(row: seq<byte>, rest: seq<seq<byte>>, kind: byte, kinds: seq<byte>, above: seq<byte>, bpp: nat)
    requires bpp > 0 && |kinds| == |rest| && |row| == |above| && forall i | 0 <= i < |rest| :: |rest[i]| == |above|
    ensures FilteredFrom([row] + rest, [kind] + kinds, above, bpp) ==
            [kind] + Filtered(kind, row, above, bpp) + FilteredFrom(rest, kinds, row, bpp)
  {
    hide Filtered;
    assert ([row] + rest)[1..] == rest && ([kind] + kinds)[1..] == kinds;
  }

  /** Filtering the decoded rows again, with the types the data names, gives the data back. */
  lemma {:induction false} EncodeDecoded(raw: seq<byte>, at: nat, above: seq<byte>, bpp: nat, count: nat)
    requires bpp > 0 && at + count * (1 + |above|) <= |raw|
    ensures var r := RowsFrom(raw, at, above, bpp, count);
            && r.Some? && |r.value| == count && (forall i | 0 <= i < count :: |r.value[i]| == |above|)
            && FilteredFrom(r.value, KindsFrom(raw, at, |above|, count), above, bpp) == raw[at..at + count * (1 + |above|)]
    decreases count
  {
    hide Restored, Filtered, RowsFrom, FilteredFrom;
    if count == 0 {
      NothingDecoded(raw, at, above, bpp);
    } else {
      var stride := |above|;
      assert count * (1 + stride) == (count - 1) * (1 + stride) + 1 + stride;
      var kind, coded := raw[at], raw[at + 1..at + 1 + stride];
      var row := Restored(kind, coded, above, bpp, stride);
      EncodeDecoded(raw, at + 1 + stride, row, bpp, count - 1);
      FilterRestored(kind, coded, above, bpp);
      DecodedFirst(raw, at, above, bpp, count);
      var rest := RowsFrom(raw, at + 1 + stride, row, bpp, count - 1).value;
      FilteredCons(row, rest, kind, KindsFrom(raw, at + 1 + stride, stride, count - 1), above, bpp);
      var end := at + count * (1 + stride);
      assert raw[at..end] == [kind] + coded + raw[at + 1 + stride..end];
    }
  }
}
