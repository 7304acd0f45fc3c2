/** The bytes on disk: block writes into the image, the block bitmap and the superblock. */
module Image {
  import opened Bytes
  import opened Geometry
  import opened Layout

  // ----- block writes

  ghost predicate InImage(w: Write, offset: nat, length: nat)
  {
    |w.bytes| <= BLOCK && offset + w.block * BLOCK + |w.bytes| <= length
  }

  function Apply(buf: seq<byte>, offset: nat, ws: seq<Write>): (r: seq<byte>)
    requires forall i | 0 <= i < |ws| :: InImage(ws[i], offset, |buf|)
    ensures |r| == |buf|
  {
    if ws == [] then buf
    else
      var n := |ws| - 1;
      assert InImage(ws[n], offset, |buf|);
      Splice(Apply(buf, offset, ws[..n]), offset + ws[n].block * BLOCK, ws[n].bytes)
  }

  /** The image holds what a write put there. */
  ghost predicate Holds(buf: seq<byte>, offset: nat, w: Write)
  {
    && offset + w.block * BLOCK + |w.bytes| <= |buf|
    && buf[offset + w.block * BLOCK..offset + w.block * BLOCK + |w.bytes|] == w.bytes
  }

  lemma SpliceHere(buf: seq<byte>, at: nat, data: seq<byte>)
    requires at + |data| <= |buf|
    ensures Splice(buf, at, data)[at..at + |data|] == data
  {
  }

  /** A splice leaves every range it does not meet as it was. */
  lemma SpliceElsewhere(buf: seq<byte>, at: nat, data: seq<byte>, lo: nat, hi: nat)
    requires at + |data| <= |buf| && lo <= hi <= |buf| && (hi <= at || at + |data| <= lo)
    ensures Splice(buf, at, data)[lo..hi] == buf[lo..hi]
  {
    var r := Splice(buf, at, data);
    assert forall i | 0 <= i < hi - lo :: r[lo..hi][i] == buf[lo..hi][i];
  }

  lemma BlocksApart(a: nat, b: nat, offset: nat)
    requires a < b
    ensures offset + a * BLOCK + BLOCK <= offset + b * BLOCK
  {
  }

  lemma ApplyLast(buf: seq<byte>, offset: nat, ws: seq<Write>)
    requires ws != [] && forall i | 0 <= i < |ws| :: InImage(ws[i], offset, |buf|)
    ensures var n := |ws| - 1; var at := offset + ws[n].block * BLOCK;
            && at + |ws[n].bytes| <= |buf|
            && Apply(buf, offset, ws) == Splice(Apply(buf, offset, ws[..n]), at, ws[n].bytes)
  {
    hide Splice;
    assert InImage(ws[|ws| - 1], offset, |buf|);
  }

  /** Writes to distinct blocks all survive. */
  lemma {:induction false} ApplyHolds(buf: seq<byte>, offset: nat, ws: seq<Write>, i: nat)
    requires forall i | 0 <= i < |ws| :: InImage(ws[i], offset, |buf|)
    requires i < |ws| && forall i, j | 0 <= i < j < |ws| :: ws[i].block != ws[j].block
    ensures Holds(Apply(buf, offset, ws), offset, ws[i])
    decreases |ws|
  {
    hide Splice, Apply;
    var n := |ws| - 1;
    var before, w := Apply(buf, offset, ws[..n]), ws[n];
    assert InImage(w, offset, |buf|) && InImage(ws[i], offset, |buf|);
    ApplyLast(buf, offset, ws);
    if i == n {
      SpliceHere(before, offset + w.block * BLOCK, w.bytes);
    } else {
      ApplyHolds(buf, offset, ws[..n], i);
      assert ws[i].block != w.block;
      if ws[i].block < w.block {
        BlocksApart(ws[i].block, w.block, offset);
      } else {
        BlocksApart(w.block, ws[i].block, offset);
      }
      var lo := offset + ws[i].block * BLOCK;
      SpliceElsewhere(before, offset + w.block * BLOCK, w.bytes, lo, lo + |ws[i].bytes|);
    }
  }

  /** Ranges below every written block are untouched. */
  lemma {:induction false} ApplyBelow(buf: seq<byte>, offset: nat, ws: seq<Write>, first: nat, lo: nat, hi: nat)
    requires forall i | 0 <= i < |ws| :: InImage(ws[i], offset, |buf|) && ws[i].block >= first
    requires lo <= hi <= |buf| && hi <= offset + first * BLOCK
    ensures Apply(buf, offset, ws)[lo..hi] == buf[lo..hi]
    decreases |ws|
  {
    hide Splice;
    if ws != [] {
      var n := |ws| - 1;
      ApplyBelow(buf, offset, ws[..n], first, lo, hi);
      assert InImage(ws[n], offset, |buf|);
      SpliceElsewhere(Apply(buf, offset, ws[..n]), offset + ws[n].block * BLOCK, ws[n].bytes, lo, hi);
    }
  }

  // ----- the bitmap

  function Bit(value: int, k: nat): bool
    requires k < 8
  {
    match k
    case 0 => value % 2 == 1
    case 1 => value / 2 % 2 == 1
    case 2 => value / 4 % 2 == 1
    case 3 => value / 8 % 2 == 1
    case 4 => value / 16 % 2 == 1
    case 5 => value / 32 % 2 == 1
    case 6 => value / 64 % 2 == 1
    case 7 => value / 128 % 2 == 1
  }

  /** `1 << k`. */
  function BitValue(k: nat): (v: byte)
    requires k < 8
  {
    match k
    case 0 => 1 case 1 => 2 case 2 => 4 case 3 => 8
    case 4 => 16 case 5 => 32 case 6 => 64 case 7 => 128
  }

  /** `value | 1 << k`. */
  function SetBit(value: byte, k: nat): (r: byte)
    requires k < 8
    ensures Bit(value, k) ==> r == value
  {
    if Bit(value, k) then value else value + BitValue(k)
  }

  /** Block `b`'s bit in a bitmap of little-endian 32-bit chunks. */
  function Marked(bitmap: seq<byte>, b: nat): bool
    requires b < 8 * |bitmap|
  {
    Bit(bitmap[b / 32 * 4 + b % 32 / 8], b % 8)
  }

  function BitmapByte(used: nat, k: nat): byte
  {
    if 8 * k + 8 <= used then 255
    else if used <= 8 * k then 0
    else BitValue(used - 8 * k) - 1
  }

  function Bitmap(used: nat, blocks: nat): (s: seq<byte>)
    ensures |s| == blocks * BLOCK
  {
    seq(blocks * BLOCK, k requires 0 <= k => BitmapByte(used, k))
  }

  lemma BitmapByteBits(used: nat, k: nat, j: nat)
    requires j < 8
    ensures Bit(BitmapByte(used, k), j) <==> 8 * k + j < used
  {
  }

  /** A block is marked exactly when it is below the first free one. */
  lemma BitmapMarks(used: nat, blocks: nat, b: nat)
    requires b < blocks * BITS_PER_BLOCK
    ensures Marked(Bitmap(used, blocks), b) <==> b < used
  {
    assert b / 32 * 4 + b % 32 / 8 == b / 8;
    BitmapByteBits(used, b / 8, b % 8);
  }

  lemma NextBit(used: nat, k: nat)
    ensures BitmapByte(used + 1, k) == if k == used / 8 then SetBit(BitmapByte(used, k), used % 8) else BitmapByte(used, k)
  {
  }

  /** The bitmap, bit by bit; `None` is an index past its end. */
  method BuildBitmap(used: nat, blocks: nat) returns (bitmap: Option<seq<byte>>)
    ensures bitmap == if used <= blocks * BITS_PER_BLOCK then Some(Bitmap(used, blocks)) else None
  {
    var bits := new byte[blocks * BLOCK](_ => 0);
    for block := 0 to used
      invariant block <= blocks * BITS_PER_BLOCK
      invariant forall k | 0 <= k < bits.Length :: bits[k] == BitmapByte(block, k)
    {
      hide BitmapByte, SetBit;
      var at := block / 32 * 4 + block % 32 / 8;
      assert at == block / 8;
      if at >= bits.Length {
        return None;
      }
      forall k | 0 <= k < bits.Length ensures
          BitmapByte(block + 1, k) == if k == at then SetBit(bits[k], block % 8) else bits[k]
      {
        NextBit(block, k);
      }
      bits[at] := SetBit(bits[at], block % 8);
    }
    assert bits[..] == Bitmap(used, blocks);
    return Some(bits[..]);
  }
}
