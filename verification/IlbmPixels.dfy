/** What the ILBM decoder makes of any file, said of the file's bytes: sizes, indices, colours and
    visibility, pixel by pixel. */
module IlbmPixels {
  import opened Bytes
  import opened Image
  import opened IffChunks
  import opened PlanarImage
  import opened PlanarCodec
  import opened IlbmImage

  // ----- numbers, most significant byte first

  function Two(a: int, b: int): int { 256 * a + b }

  function Four(a: int, b: int, c: int, d: int): int { 0x100_0000 * a + 0x1_0000 * b + 0x100 * c + d }

  // ----- bits of the body

  function ByteAt(body: seq<byte>, i: nat): int { if i < |body| then body[i] else 0 }

  /** The bit of pixel `x` in the plane row at `at`: eight pixels a byte, the first the highest. */
  function PixelBit(body: seq<byte>, at: nat, x: nat): int { ByteAt(body, at + x / 8) / Pow2(7 - x % 8) % 2 }

  /** A row of a plane is whole sixteen-bit words. */
  function PlaneBytes(width: nat): nat { 2 * ((width + 15) / 16) }

  /** The number the first `n` planes of a row spell for pixel `x`, the first plane the lowest bit. */
  function IndexSum(body: seq<byte>, at: nat, width: nat, x: nat, n: nat): int
  {
    if n == 0 then 0
    else IndexSum(body, at, width, x, n - 1) + PixelBit(body, at + (n - 1) * PlaneBytes(width), x) * Pow2(n - 1)
  }

  lemma BitIs(b: int, k: nat)
    requires k < 8 && 0 <= b < 256
    ensures Bit(b, k) <==> b / Pow2(k) % 2 == 1
  {
    assert Pow2(0) == 1 && Pow2(1) == 2 && Pow2(2) == 4 && Pow2(3) == 8;
    assert Pow2(4) == 16 && Pow2(5) == 32 && Pow2(6) == 64 && Pow2(7) == 128;
  }

  lemma PlaneBitIs(body: seq<byte>, at: nat, x: nat)
    requires at + x / 8 < |body|
    ensures PlaneBit(body, at, x) <==> PixelBit(body, at, x) == 1
    ensures PixelBit(body, at, x) == 0 || PixelBit(body, at, x) == 1
  {
    hide Bit, Pow2;
    BitIs(body[at + x / 8], 7 - x % 8);
  }

  lemma WordRows(width: nat)
    ensures RowBytes(width) == PlaneBytes(width)
  {
  }

  lemma {:induction false} IndexIsSum(body: seq<byte>, at: nat, width: nat, x: nat, n: nat)
    requires x < width && PlanesThere(body, at, width, n)
    ensures IndexAt(body, at, width, x, n) == IndexSum(body, at, width, x, n) < Pow2(n)
  {
    hide PlanesThere, PlaneBit, PixelBit, RowBytes, IndexBit;
    if n > 0 {
      LastPlaneThere(body, at, width, x, n);
      IndexIsSum(body, at, width, x, n - 1);
      HighBitClear(IndexAt(body, at, width, x, n - 1), n - 1);
      WordRows(width);
      PlaneBitIs(body, PlaneAt(at, width, n - 1), x);
    }
  }

  /** Where row `y` begins. */
  function RowBegins(width: nat, planes: nat, hasMask: bool, y: nat): nat
  {
    y * ((planes + if hasMask then 1 else 0) * PlaneBytes(width))
  }

  lemma {:induction false} RowsAre(body: seq<byte>, width: nat, planes: nat, hasMask: bool, height: nat, y: nat, x: nat)
    requires RowsThere(body, width, planes, hasMask, height) && x < width && y < height
    ensures |IndicesTo(body, width, planes, hasMask, height)| == |MasksTo(body, width, planes, hasMask, height)| == height * width
    ensures y * width + x < height * width
    ensures IndicesTo(body, width, planes, hasMask, height)[y * width + x] ==
            IndexSum(body, RowBegins(width, planes, hasMask, y), width, x, planes)
    ensures MasksTo(body, width, planes, hasMask, height)[y * width + x] <==>
            (hasMask ==> PixelBit(body, RowBegins(width, planes, hasMask, y) + planes * PlaneBytes(width), x) == 1)
    decreases height
  {
    hide RowsThere, PlanesThere, PlaneThere, IndexAt, IndexSum, PixelBit, PlaneBit, RowBytes;
    LastRowThere(body, width, planes, hasMask, height);
    var last := height - 1;
    var at := last * RowSize(width, planes, hasMask);
    WordRows(width);
    assert last * width + width == height * width;
    if y < last {
      RowsAre(body, width, planes, hasMask, last, y, x);
      assert y * width + x < last * width;
    } else {
      RowsLength(body, width, planes, hasMask, last);
      assert at == RowBegins(width, planes, hasMask, y);
      IndexIsSum(body, at, width, x, planes);
      MaskRead(body, at, width, planes, hasMask, x);
    }
  }

  lemma MaskRead(body: seq<byte>, at: nat, width: nat, planes: nat, hasMask: bool, x: nat)
    requires x < width && (hasMask ==> PlaneThere(body, PlaneAt(at, width, planes), width))
    ensures RowMask(body, at, width, planes, hasMask)[x] <==> (hasMask ==> PixelBit(body, at + planes * PlaneBytes(width), x) == 1)
  {
    hide PixelBit, PlaneBit, RowBytes;
    WordRows(width);
    if hasMask {
      assert x / 8 <= (width - 1) / 8;
      PlaneBitIs(body, PlaneAt(at, width, planes), x);
    }
  }

  lemma {:induction false} RowsLength(body: seq<byte>, width: nat, planes: nat, hasMask: bool, height: nat)
    requires RowsThere(body, width, planes, hasMask, height)
    ensures |IndicesTo(body, width, planes, hasMask, height)| == |MasksTo(body, width, planes, hasMask, height)| == height * width
    decreases height
  {
    hide RowsThere, PlanesThere, PlaneThere, RowBytes, IndexAt;
    if height > 0 {
      LastRowThere(body, width, planes, hasMask, height);
      RowsLength(body, width, planes, hasMask, height - 1);
      assert (height - 1) * width + width == height * width;
    }
  }

  // ----- colours

  /** Colour `k` of a colour map: its three bytes, and black where it has none. */
  function ColorAt(cmap: seq<byte>, k: nat): Color
  {
    if 3 * k + 2 < |cmap| then Color(cmap[3 * k], cmap[3 * k + 1], cmap[3 * k + 2]) else Color(0, 0, 0)
  }

  lemma ShownIs(k: nat, mask: bool, cmap: seq<byte>, masking: byte, transparent: nat)
    requires Palette(cmap).Some?
    ensures var p := Shown(k, mask, Palette(cmap).value, masking, transparent);
            && p.color == ColorAt(cmap, k)
            && (p.visible <==> if masking % 2 == 1 then mask else masking == 2 ==> k != transparent)
  {
  }

  lemma PaletteIs(cmap: seq<byte>)
    ensures Palette(cmap).Some? <==> |cmap| % 3 == 0
    ensures Palette(cmap).Some? ==> var p := Palette(cmap).value;
              |p| == (if cmap == [] then 1 else |cmap| / 3) && forall k | 0 <= k < |p| :: p[k] == ColorAt(cmap, k)
  {
  }

  // ----- any file

  /** The last chunk of a kind: one of that kind with none behind it. */
  lemma {:induction false} LastOfIs(cs: seq<Chunk>, id: seq<byte>) returns (at: nat)
    ensures LastOf(cs, id).None? ==> forall i | 0 <= i < |cs| :: cs[i].id != id
    ensures LastOf(cs, id).Some? ==> at < |cs| && cs[at].id == id && cs[at].data == LastOf(cs, id).value
                                     && forall i | at < i < |cs| :: cs[i].id != id
  {
    if cs == [] {
      at := 0;
    } else if cs[|cs| - 1].id == id {
      at := |cs| - 1;
    } else {
      at := LastOfIs(cs[..|cs| - 1], id);
    }
  }

  /** The index that the planes of row `y` spell for pixel `x`, and its bit in the mask plane. */
  function IndexIn(body: seq<byte>, width: nat, planes: nat, hasMask: bool, y: nat, x: nat): int
  {
    IndexSum(body, RowBegins(width, planes, hasMask, y), width, x, planes)
  }

  predicate MaskIn(body: seq<byte>, width: nat, planes: nat, y: nat, x: nat)
  {
    PixelBit(body, RowBegins(width, planes, true, y) + planes * PlaneBytes(width), x) == 1
  }

  /** A pixel has the index `k`, the colour map's colour for it, and the visibility that masking
      gives it. */
  predicate Shows(p: Pixel, k: nat, cmap: seq<byte>, masking: byte, mask: bool, transparent: int)
  {
    p.color == ColorAt(cmap, k) && (p.visible <==> if masking % 2 == 1 then mask else masking == 2 ==> k != transparent)
  }

  /** A picture shows a header, a colour map and a body at pixel `x` of row `y`. */
  ghost predicate Depicts(pic: Picture, h: seq<byte>, cmap: seq<byte>, body: seq<byte>, y: nat, x: nat)
    requires |h| >= 14
  {
    var w := pic.width;
    && w == Two(h[0], h[1]) && pic.height == Two(h[2], h[3]) && |pic.indices| == |pic.pixels| == pic.height * w
    && y * w + x < |pic.pixels|
    && pic.indices[y * w + x] == IndexIn(body, w, h[8], h[9] % 2 == 1, y, x)
    && Shows(pic.pixels[y * w + x], pic.indices[y * w + x], cmap, h[9], MaskIn(body, w, h[8], y, x), Two(h[12], h[13]))
  }

  lemma DrawnMeans(h: seq<byte>, cmap: seq<byte>, body: seq<byte>, y: nat, x: nat)
    requires |h| >= 14 && Palette(cmap).Some? && Drawn(h, Palette(cmap).value, body).Some?
    requires var pic := Drawn(h, Palette(cmap).value, body).value; x < pic.width && y < pic.height
    ensures Depicts(Drawn(h, Palette(cmap).value, body).value, h, cmap, body, y, x)
  {
    hide IndicesTo, MasksTo, RowsThere, IndexSum, PixelBit, Palette, Shown;
    var pic, hasMask := Drawn(h, Palette(cmap).value, body).value, h[9] % 2 == 1;
    RowsAre(body, pic.width, h[8], hasMask, pic.height, y, x);
    var masks, i := MasksTo(body, pic.width, h[8], hasMask, pic.height), y * pic.width + x;
    ShownIs(pic.indices[i], masks[i], cmap, h[9], UnBe16(h, 12));
  }

  /** Whatever file decodes: the picture shows the last header, colour map and body among its
      chunks, the body expanded if the header says it is packed, at every pixel. */
  lemma DecodeMeans(data: seq<byte>) returns (h: seq<byte>, cmap: seq<byte>, packed: seq<byte>, body: seq<byte>)
    requires Pictured(data).Some?
    ensures var cs := ChunksFrom(data, 12);
            && LastOf(cs, BMHD) == Some(h) && LastOf(cs, BODY) == Some(packed)
            && LastOf(cs, CMAP) == (if cmap == [] && LastOf(cs, CMAP).None? then None else Some(cmap))
    ensures |h| >= 14 && h[10] <= 1 && Unpacked(packed, h[10]) == Some(body) && (h[10] == 0 ==> body == packed)
    ensures |cmap| % 3 == 0
    ensures forall y: nat, x: nat | y < Pictured(data).value.height && x < Pictured(data).value.width ::
              Depicts(Pictured(data).value, h, cmap, body, y, x)
  {
    hide ChunksFrom, LastOf, Drawn, Depicts;
    var cs := ChunksFrom(data, 12);
    h := LastOf(cs, BMHD).value;
    packed := LastOf(cs, BODY).value;
    cmap := if LastOf(cs, CMAP).Some? then LastOf(cs, CMAP).value else [];
    body := Unpacked(packed, h[10]).value;
    PaletteIs(cmap);
    forall y: nat, x: nat | y < Pictured(data).value.height && x < Pictured(data).value.width
      ensures Depicts(Pictured(data).value, h, cmap, body, y, x)
    {
      DrawnMeans(h, cmap, body, y, x);
    }
  }

  /** A picture that is written and decoded, pixel by pixel: its index, the palette bytes at three
      times the index, and whether mask or transparent colour leave it in. */
  lemma PixelsComeBack(width: nat, height: nat, planes: byte, masking: byte, compression: byte, transparent: nat,
                       palette: seq<byte>, indices: seq<nat>, masks: seq<bool>, i: nat)
    requires width < TWO16 && height < TWO16 && transparent < TWO16 && compression <= 1
    requires |indices| == |masks| == width * height == height * width && forall i | 0 <= i < |indices| :: indices[i] < Pow2(planes)
    requires |palette| < TWO32 && |Stored(Body(indices, masks, width, height, planes, masking), compression)| < TWO32
    requires |palette| % 3 == 0 && i < |indices|
    ensures var stored := Stored(Body(indices, masks, width, height, planes, masking), compression);
            var cs := ImageChunks(width, height, planes, masking, compression, transparent, palette, stored);
            && (forall i | 0 <= i < |cs| :: Writable(cs[i])) && Pictured(FormBytes(cs)).Some?
            && var pic := Pictured(FormBytes(cs)).value;
               && pic.width == width && pic.height == height && |pic.indices| == |pic.pixels| == |indices|
               && pic.indices[i] == indices[i]
               && pic.pixels[i].color == ColorAt(palette, indices[i])
               && (pic.pixels[i].visible <==>
                     if masking % 2 == 1 then masks[i] else masking == 2 ==> indices[i] != transparent)
               && |pic.palette| == (if palette == [] then 1 else |palette| / 3)
               && forall k | 0 <= k < |pic.palette| :: pic.palette[k] == ColorAt(palette, k)
  {
    hide Body, Stored, ImageChunks, FormBytes, Pictured, Palette, Shown, Pow2;
    ImageRoundTrip(width, height, planes, masking, compression, transparent, palette, indices, masks);
    PaletteIs(palette);
    ShownIs(indices[i], masks[i], palette, masking, transparent);
  }

  // ----- the bytes of a file

  /** A form begins with its name, its length, most significant byte first, and its kind. */
  lemma FormBegins(cs: seq<Chunk>)
    requires (forall i | 0 <= i < |cs| :: Writable(cs[i])) && |AllBytes(cs)| + 4 < TWO32
    ensures var f := FormBytes(cs); var n: int := |f| - 8;
            && |f| >= 12 && f[0..4] == [70, 79, 82, 77] && f[8..12] == [73, 76, 66, 77] && f[12..] == AllBytes(cs)
            && Four(f[4], f[5], f[6], f[7]) == n
  {
    hide AllBytes;
    var n := |AllBytes(cs)| + 4;
    var size := Be32(n);
    BeRoundTrip(n);
    var f := FormBytes(cs);
    assert f[4] == size[0] && f[5] == size[1] && f[6] == size[2] && f[7] == size[3];
  }

  /** A chunk is its name, its length likewise, its data, and a zero where the length is odd. */
  lemma ChunkBegins(c: Chunk)
    requires Writable(c)
    ensures var b := ChunkBytes(c); var n: int := |c.data|;
            && |b| == 8 + n + n % 2 && b[0..4] == c.id && b[8..8 + n] == c.data && (n % 2 == 1 ==> b[8 + n] == 0)
            && Four(b[4], b[5], b[6], b[7]) == n
  {
    var n := |c.data|;
    var size := Be32(n);
    BeRoundTrip(n);
    var b := ChunkBytes(c);
    assert b[4] == size[0] && b[5] == size[1] && b[6] == size[2] && b[7] == size[3];
  }
}
