/** A whole ILBM file, from the driver's writer to the decoder: header, compression, planes. */
module IlbmImage {
  import opened Bytes
  import opened ByteRun
  import opened IffChunks
  import opened PlanarCodec

  const BMHD: seq<byte> := [66, 77, 72, 68]
  const CMAP: seq<byte> := [67, 77, 65, 80]
  const BODY: seq<byte> := [66, 79, 68, 89]

  function Be16(v: nat): (s: seq<byte>)
    ensures |s| == 2
  {
    [v / 256 % 256, v % 256]
  }

  function UnBe16(s: seq<byte>, at: nat): nat
    requires at + 2 <= |s|
  {
    var hi: int, lo: int := s[at], s[at + 1];
    hi * 256 + lo
  }

  /** The driver's `bmhd`. */
  function Header(width: nat, height: nat, planes: byte, masking: byte, compression: byte, transparent: nat): (s: seq<byte>)
    ensures |s| == 20
  {
    Be16(width) + Be16(height) + Be16(0) + Be16(0) + [planes, masking, compression, 0] + Be16(transparent) + [1, 1] +
    Be16(width) + Be16(height)
  }

  // ----- colours

  datatype Color = Color(r: byte, g: byte, b: byte)

  const BLACK: Color := Color(0, 0, 0)

  /** The triples of a CMAP; a file without one, or with an empty one, has black alone. A triple
      cut short is an index past the end. */
  function Palette(cmap: seq<byte>): Option<seq<Color>>
  {
    if cmap == [] then Some([BLACK])
    else if |cmap| % 3 != 0 then None
    else Some(seq(|cmap| / 3, i requires 0 <= i < |cmap| / 3 => Color(cmap[3 * i], cmap[3 * i + 1], cmap[3 * i + 2])))
  }

  datatype Pixel = Pixel(color: Color, visible: bool)

  /** What a pixel shows: its palette colour, and whether the mask plane, or the transparent
      colour where masking is 2, leaves it in. */
  function Shown(index: nat, mask: bool, palette: seq<Color>, masking: byte, transparent: nat): Pixel
  {
    Pixel(if index < |palette| then palette[index] else BLACK,
          if masking % 2 == 1 then mask else if masking == 2 then index != transparent else true)
  }

  /** The pixels of an image, in row order. */
  function Pixels(indices: seq<nat>, masks: seq<bool>, palette: seq<Color>, masking: byte, transparent: nat): (r: seq<Pixel>)
    requires |indices| == |masks|
    ensures |r| == |indices|
  {
    seq(|indices|, i requires 0 <= i < |indices| => Shown(indices[i], masks[i], palette, masking, transparent))
  }

  method MakePalette(cmap: seq<byte>) returns (r: Option<seq<Color>>)
    ensures r == Palette(cmap)
  {
    if cmap == [] {
      return Some([BLACK]);
    }
    var palette: seq<Color>, i := [], 0;
    while i < |cmap|
      invariant 0 <= i == 3 * |palette| <= |cmap|
      invariant forall k | 0 <= k < |palette| :: palette[k] == Color(cmap[3 * k], cmap[3 * k + 1], cmap[3 * k + 2])
    {
      if i + 2 >= |cmap| {
        return None;
      }
      palette := palette + [Color(cmap[i], cmap[i + 1], cmap[i + 2])];
      i := i + 3;
    }
    assert palette == Palette(cmap).value;
    return Some(palette);
  }

  // ----- the decoder

  datatype Picture = Picture(width: nat, height: nat, indices: seq<nat>, pixels: seq<Pixel>, palette: seq<Color>)

  /** The last chunk of a kind. */
  function LastOf(cs: seq<Chunk>, id: seq<byte>): Option<seq<byte>>
  {
    if cs == [] then None
    else if cs[|cs| - 1].id == id then Some(cs[|cs| - 1].data)
    else LastOf(cs[..|cs| - 1], id)
  }

  function Unpacked(body: seq<byte>, compression: byte): Option<seq<byte>>
  {
    if compression == 1 then Expanded(body) else if compression == 0 then Some(body) else None
  }

  /** The picture of a header, a palette and a body. */
  ghost function Drawn(bmhd: seq<byte>, palette: seq<Color>, body: seq<byte>): Option<Picture>
    requires |bmhd| >= 14
  {
    var width, height, planes, hasMask := UnBe16(bmhd, 0), UnBe16(bmhd, 2), bmhd[8], bmhd[9] % 2 == 1;
    if !RowsThere(body, width, planes, hasMask, height) then None
    else
      RowLengths(body, width, planes, hasMask, height);
      var indices, masks := IndicesTo(body, width, planes, hasMask, height), MasksTo(body, width, planes, hasMask, height);
      Some(Picture(width, height, indices, Pixels(indices, masks, palette, bmhd[9], UnBe16(bmhd, 12)), palette))
  }

  /** The picture a file holds; nothing where `decode` raises: another form, a missing or short
      header, no body, an unknown or broken compression, a cut palette, missing planes. */
  ghost function Pictured(data: seq<byte>): Option<Picture>
  {
    if Clip(data, 0, 4) != FORM || Clip(data, 8, 12) != ILBM then None
    else
      var cs := ChunksFrom(data, 12);
      match (LastOf(cs, BMHD), LastOf(cs, BODY))
      case (Some(bmhd), Some(packed)) =>
        if |bmhd| < 14 then None
        else
          var cmap := if LastOf(cs, CMAP).Some? then LastOf(cs, CMAP).value else [];
          (match (Unpacked(packed, bmhd[10]), Palette(cmap))
           case (Some(body), Some(palette)) => Drawn(bmhd, palette, body)
           case _ => None)
      case _ => None
  }

  /** `decode`. */
  method Decode(data: seq<byte>) returns (r: Option<Picture>)
    ensures r == Pictured(data)
  {
    hide ChunksFrom, Clip, Expanded, RowsThere, IndicesTo, MasksTo, Palette;
    var chunks := Chunks(data);
    if chunks.None? {
      return None;
    }
    var cs := chunks.value;
    var bmhd: Option<seq<byte>>, cmap: Option<seq<byte>>, body: Option<seq<byte>> := None, None, None;
    for i := 0 to |cs|
      invariant bmhd == LastOf(cs[..i], BMHD) && cmap == LastOf(cs[..i], CMAP) && body == LastOf(cs[..i], BODY)
    {
      assert cs[..i + 1][..i] == cs[..i];
      if cs[i].id == BMHD {
        bmhd := Some(cs[i].data);
      } else if cs[i].id == CMAP {
        cmap := Some(cs[i].data);
      } else if cs[i].id == BODY {
        body := Some(cs[i].data);
      }
    }
    assert cs[..|cs|] == cs;
    if bmhd.None? || body.None? || |bmhd.value| < 14 {
      return None;
    }
    var h := bmhd.value;
    var plain: Option<seq<byte>>;
    if h[10] == 1 {
      plain := ByteRun1(body.value);
    } else if h[10] == 0 {
      plain := body;
    } else {
      plain := None;
    }
    if plain.None? {
      return None;
    }
    var palette := MakePalette(if cmap.Some? then cmap.value else []);
    if palette.None? {
      return None;
    }
    r := Draw(h, palette.value, plain.value);
  }

  method Draw(h: seq<byte>, palette: seq<Color>, body: seq<byte>) returns (r: Option<Picture>)
    requires |h| >= 14
    ensures r == Drawn(h, palette, body)
  {
    hide RowsThere, IndicesTo, MasksTo;
    var width, height, planes, hasMask := UnBe16(h, 0), UnBe16(h, 2), h[8], h[9] % 2 == 1;
    var indices, masks := DecodePlanes(body, width, height, planes, hasMask);
    if indices.None? {
      return None;
    }
    RowLengths(body, width, planes, hasMask, height);
    var pixels: seq<Pixel> := [];
    for i := 0 to |indices.value|
      invariant |pixels| == i
      invariant forall k | 0 <= k < i :: pixels[k] == Shown(indices.value[k], masks[k], palette, h[9], UnBe16(h, 12))
    {
      pixels := pixels + [Shown(indices.value[i], masks[i], palette, h[9], UnBe16(h, 12))];
    }
    assert pixels == Pixels(indices.value, masks, palette, h[9], UnBe16(h, 12));
    return Some(Picture(width, height, indices.value, pixels, palette));
  }

  lemma {:induction false} RowLengths(body: seq<byte>, width: nat, planes: nat, hasMask: bool, y: nat)
    requires RowsThere(body, width, planes, hasMask, y)
    ensures |IndicesTo(body, width, planes, hasMask, y)| == |MasksTo(body, width, planes, hasMask, y)|
  {
    if y > 0 {
      hide RowsThere;
      LastRowThere(body, width, planes, hasMask, y);
      RowLengths(body, width, planes, hasMask, y - 1);
    }
  }

  // ----- the writer

  /** The driver's `ilbm`: a header, a palette if there is one, and the body. */
  function ImageChunks(width: nat, height: nat, planes: byte, masking: byte, compression: byte, transparent: nat,
                       palette: seq<byte>, body: seq<byte>): seq<Chunk>
  {
    [Chunk(BMHD, Header(width, height, planes, masking, compression, transparent))] +
    (if palette == [] then [] else [Chunk(CMAP, palette)]) + [Chunk(BODY, body)]
  }

  /** The body as stored: packed in literal runs, or as it is. */
  function Stored(body: seq<byte>, compression: byte): seq<byte>
  {
    if compression == 1 then CodedAll(LiteralsOf(body)) else body
  }

  lemma HeaderFields(width: nat, height: nat, planes: byte, masking: byte, compression: byte, transparent: nat)
    requires width < TWO16 && height < TWO16 && transparent < TWO16
    ensures var h := Header(width, height, planes, masking, compression, transparent);
            && UnBe16(h, 0) == width && UnBe16(h, 2) == height && h[8] == planes && h[9] == masking && h[10] == compression
            && UnBe16(h, 12) == transparent
            && h[4..8] == [0, 0, 0, 0] && h[11] == 0 && h[14] == h[15] == 1 && UnBe16(h, 16) == width && UnBe16(h, 18) == height
  {
  }

  lemma FindsChunks(width: nat, height: nat, planes: byte, masking: byte, compression: byte, transparent: nat,
                    palette: seq<byte>, body: seq<byte>)
    ensures var cs := ImageChunks(width, height, planes, masking, compression, transparent, palette, body);
            && LastOf(cs, BODY) == Some(body)
            && LastOf(cs, BMHD) == Some(Header(width, height, planes, masking, compression, transparent))
            && LastOf(cs, CMAP) == if palette == [] then None else Some(palette)
  {
    hide Header, LastOf;
    var header := Chunk(BMHD, Header(width, height, planes, masking, compression, transparent));
    var cs := ImageChunks(width, height, planes, masking, compression, transparent, palette, body);
    assert BODY[0] == BMHD[0] && BODY[1] != BMHD[1] && BODY[0] != CMAP[0] && CMAP[0] != BMHD[0];
    var front := if palette == [] then [header] else [header, Chunk(CMAP, palette)];
    assert cs == front + [Chunk(BODY, body)];
    LastOfCons(front, Chunk(BODY, body), BODY);
    LastOfCons(front, Chunk(BODY, body), BMHD);
    LastOfCons(front, Chunk(BODY, body), CMAP);
    assert [] + [header] == [header];
    LastOfCons([], header, BMHD);
    LastOfCons([], header, CMAP);
    if palette != [] {
      assert front == [header] + [Chunk(CMAP, palette)];
      LastOfCons([header], Chunk(CMAP, palette), BMHD);
      LastOfCons([header], Chunk(CMAP, palette), CMAP);
    }
  }

  lemma LastOfCons(cs: seq<Chunk>, c: Chunk, id: seq<byte>)
    ensures LastOf(cs + [c], id) == if c.id == id then Some(c.data) else LastOf(cs, id)
    ensures LastOf([], id) == None
  {
    assert (cs + [c])[..|cs|] == cs;
  }

  /** The body of an image: its index planes and, where masking asks for it, its mask plane. */
  function Body(indices: seq<nat>, masks: seq<bool>, width: nat, height: nat, planes: byte, masking: byte): seq<byte>
    requires |masks| == |indices| == height * width
  {
    var hasMask := masking % 2 == 1;
    BodyTo(Values(indices, masks, planes, hasMask), width, Total(planes, hasMask), height, 0)
  }

  /** The picture an image of indices and mask bits makes. */
  function Expected(width: nat, height: nat, masking: byte, transparent: nat, palette: seq<Color>, indices: seq<nat>,
                    masks: seq<bool>): Picture
    requires |masks| == |indices|
  {
    Picture(width, height, indices, Pixels(indices, masks, palette, masking, transparent), palette)
  }

  lemma DrawsIndices(width: nat, height: nat, planes: byte, masking: byte, compression: byte, transparent: nat,
                     palette: seq<Color>, indices: seq<nat>, masks: seq<bool>)
    requires width < TWO16 && height < TWO16 && transparent < TWO16
    requires |indices| == |masks| == width * height == height * width && forall i | 0 <= i < |indices| :: indices[i] < Pow2(planes)
    ensures Drawn(Header(width, height, planes, masking, compression, transparent), palette,
                  Body(indices, masks, width, height, planes, masking)) ==
            Some(Expected(width, height, masking, transparent, palette, indices, masks))
  {
    hide Header, BodyTo, RowsThere, IndicesTo, MasksTo, Values;
    HeaderFields(width, height, planes, masking, compression, transparent);
    var hasMask := masking % 2 == 1;
    PlanesRoundTrip(indices, masks, width, planes, hasMask, height);
    assert Pixels(indices, Marks(masks, hasMask), palette, masking, transparent) ==
           Pixels(indices, masks, palette, masking, transparent);
  }

  /** Every picture written as a file, packed or not, with a mask plane or without, decodes to
      itself, pixel by pixel, exactly when its palette is whole triples; otherwise decoding
      raises. */
  lemma ImageRoundTrip(width: nat, height: nat, planes: byte, masking: byte, compression: byte, transparent: nat,
                       palette: seq<byte>, indices: seq<nat>, masks: seq<bool>)
    requires width < TWO16 && height < TWO16 && transparent < TWO16 && compression <= 1
    requires |indices| == |masks| == width * height == height * width && forall i | 0 <= i < |indices| :: indices[i] < Pow2(planes)
    requires |palette| < TWO32 && |Stored(Body(indices, masks, width, height, planes, masking), compression)| < TWO32
    ensures var stored := Stored(Body(indices, masks, width, height, planes, masking), compression);
            var cs := ImageChunks(width, height, planes, masking, compression, transparent, palette, stored);
            && (forall i | 0 <= i < |cs| :: Writable(cs[i]))
            && (Pictured(FormBytes(cs)).Some? <==> |palette| % 3 == 0)
            && (|palette| % 3 == 0 ==>
                  Pictured(FormBytes(cs)) ==
                  Some(Expected(width, height, masking, transparent, Palette(palette).value, indices, masks)))
  {
    hide Header, Body, Expanded, ChunksFrom, Clip, FormBytes, CodedAll, LiteralsOf, LastOf, Drawn, Expected;
    var body := Body(indices, masks, width, height, planes, masking);
    var stored := Stored(body, compression);
    var cs := ImageChunks(width, height, planes, masking, compression, transparent, palette, stored);
    HeaderFields(width, height, planes, masking, compression, transparent);
    FindsChunks(width, height, planes, masking, compression, transparent, palette, stored);
    FormRoundTrip(cs);
    PackRoundTrip(body);
    if |palette| % 3 == 0 {
      DrawsIndices(width, height, planes, masking, compression, transparent, Palette(palette).value, indices, masks);
    }
  }

  /** A one-byte palette: the driver writes the file, and decoding it raises. */
  lemma CutPalette()
    ensures Pictured(FormBytes(ImageChunks(0, 0, 1, 0, 0, 0, [7], []))) == None
  {
    hide FormBytes, Pictured;
    assert Stored(Body([], [], 0, 0, 1, 0), 0) == [];
    ImageRoundTrip(0, 0, 1, 0, 0, 0, [7], [], []);
  }
}
