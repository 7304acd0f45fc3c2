/** IFF chunks: the driver's writer and the decoder's reader. */
module IffChunks {
  import opened Bytes

  datatype Chunk = Chunk(id: seq<byte>, data: seq<byte>)

  predicate Writable(c: Chunk) { |c.id| == 4 && |c.data| < TWO32 }

  const FORM: seq<byte> := [70, 79, 82, 77]
  const ILBM: seq<byte> := [73, 76, 66, 77]

  /** A 32-bit number, most significant byte first. */
  function Be32(v: nat): (s: seq<byte>)
    ensures |s| == 4
  {
    [v / 0x100_0000 % 256, v / 0x1_0000 % 256, v / 0x100 % 256, v % 256]
  }

  function UnBe32(s: seq<byte>): nat
    requires |s| == 4
  {
    var a: int, b: int, c: int, d: int := s[0], s[1], s[2], s[3];
    ((a * 256 + b) * 256 + c) * 256 + d
  }

  lemma BeRoundTrip(v: nat)
    requires v < TWO32
    ensures UnBe32(Be32(v)) == v
  {
    var b, c, d := v / 0x100, v / 0x1_0000, v / 0x100_0000;
    assert b == v / 256 && c == b / 256 && d == c / 256;
    assert v == 256 * b + v % 256 && b == 256 * c + b % 256 && c == 256 * d + c % 256;
  }

  // ----- the writer

  function Padding(length: nat): seq<byte> { if length % 2 == 1 then [0] else [] }

  /** `put_chunk`. */
  function ChunkBytes(c: Chunk): seq<byte>
    requires Writable(c)
  {
    c.id + Be32(|c.data|) + c.data + Padding(|c.data|)
  }

  function AllBytes(cs: seq<Chunk>): seq<byte>
    requires forall i | 0 <= i < |cs| :: Writable(cs[i])
  {
    if cs == [] then [] else ChunkBytes(cs[0]) + AllBytes(cs[1..])
  }

  /** `make_form`. */
  function FormBytes(cs: seq<Chunk>): seq<byte>
    requires forall i | 0 <= i < |cs| :: Writable(cs[i])
  {
    FORM + Be32(|AllBytes(cs)| + 4) + ILBM + AllBytes(cs)
  }

  lemma {:induction false} AllBytesAppend(a: seq<Chunk>, c: Chunk)
    requires Writable(c) && forall i | 0 <= i < |a| :: Writable(a[i])
    ensures AllBytes(a + [c]) == AllBytes(a) + ChunkBytes(c)
  {
    if a == [] {
      assert a + [c] == [c] && [c][1..] == [];
    } else {
      assert (a + [c])[1..] == a[1..] + [c];
      AllBytesAppend(a[1..], c);
    }
  }

  method PutChunk(b: seq<byte>, c: Chunk) returns (r: seq<byte>)
    requires Writable(c)
    ensures r == b + ChunkBytes(c)
  {
    r := b + c.id;
    r := r + Be32(|c.data|);
    r := r + c.data;
    if |c.data| % 2 == 1 {
      r := r + [0];
    }
  }

  method MakeForm(cs: seq<Chunk>) returns (r: seq<byte>)
    requires forall i | 0 <= i < |cs| :: Writable(cs[i])
    ensures r == FormBytes(cs)
  {
    var chunks: seq<byte> := [];
    for i := 0 to |cs|
      invariant chunks == AllBytes(cs[..i])
    {
      assert cs[..i + 1] == cs[..i] + [cs[i]];
      AllBytesAppend(cs[..i], cs[i]);
      chunks := PutChunk(chunks, cs[i]);
    }
    assert cs[..|cs|] == cs;
    r := FORM + Be32(|chunks| + 4) + ILBM + chunks;
  }

  // ----- the reader

  function Clip(data: seq<byte>, from: nat, to: nat): seq<byte>
    requires from <= to
  {
    if |data| <= from then [] else if |data| <= to then data[from..] else data[from..to]
  }

  /** The chunks from `offset` on; the last one's data may be cut short. */
  function ChunksFrom(data: seq<byte>, offset: nat): seq<Chunk>
    decreases |data| - offset
  {
    if offset + 8 > |data| then []
    else
      var size := UnBe32(data[offset + 4..offset + 8]);
      [Chunk(data[offset..offset + 4], Clip(data, offset + 8, offset + 8 + size))] +
      ChunksFrom(data, offset + 8 + size + size % 2)
  }

  /** `_chunks`; `None` where it raises. */
  method Chunks(data: seq<byte>) returns (r: Option<seq<Chunk>>)
    ensures r == if Clip(data, 0, 4) != FORM || Clip(data, 8, 12) != ILBM then None else Some(ChunksFrom(data, 12))
  {
    hide ChunksFrom, Clip, UnBe32;
    if Clip(data, 0, 4) != FORM || Clip(data, 8, 12) != ILBM {
      return None;
    }
    var cs: seq<Chunk>, offset: nat := [], 12;
    while offset + 8 <= |data|
      invariant ChunksFrom(data, 12) == cs + ChunksFrom(data, offset)
      decreases |data| - offset
    {
      ChunkStep(data, offset);
      var id := data[offset..offset + 4];
      var size := UnBe32(data[offset + 4..offset + 8]);
      var body := Clip(data, offset + 8, offset + 8 + size);
      ghost var rest := ChunksFrom(data, offset + 8 + size + size % 2);
      assert cs + ([Chunk(id, body)] + rest) == cs + [Chunk(id, body)] + rest;
      offset := offset + 8 + size + size % 2;
      cs := cs + [Chunk(id, body)];
    }
    NoChunks(data, offset);
    assert cs + [] == cs;
    return Some(cs);
  }

  // ----- the round trip

  lemma FirstChunk(data: seq<byte>, offset: nat, c: Chunk, rest: seq<byte>)
    requires Writable(c) && offset <= |data| && data[offset..] == ChunkBytes(c) + rest
    ensures var next := offset + 8 + |c.data| + |c.data| % 2;
            && next <= |data| && data[next..] == rest
            && ChunksFrom(data, offset) == [c] + ChunksFrom(data, next)
  {
    hide Be32, UnBe32, ChunksFrom, Clip;
    BeRoundTrip(|c.data|);
    var n, next := |c.data|, offset + 8 + |c.data| + |c.data| % 2;
    var tail := data[offset..];
    assert tail == c.id + Be32(n) + c.data + Padding(n) + rest;
    FiveParts(tail, c.id, Be32(n), c.data, Padding(n), rest);
    SliceAfter(data, offset, 0, 4);
    SliceAfter(data, offset, 4, 4);
    SliceAfter(data, offset, 8, n);
    assert data[next..] == tail[8 + n + n % 2..];
    ClipInside(data, offset + 8, offset + 8 + n);
    ChunkStep(data, offset);
  }

  lemma FiveParts<T>(s: seq<T>, a: seq<T>, b: seq<T>, c: seq<T>, d: seq<T>, e: seq<T>)
    requires s == a + b + c + d + e && |a| == 4 && |b| == 4
    ensures s[0..4] == a && s[4..8] == b && s[8..8 + |c|] == c && s[8 + |c| + |d|..] == e
  {
    HeadSlice(a + b + c + d, e, 0, 4);
    HeadSlice(a + b + c, d, 0, 4);
    HeadSlice(a + b, c, 0, 4);
    HeadSlice(a, b, 0, 4);
    HeadSlice(a + b + c + d, e, 4, 8);
    HeadSlice(a + b + c, d, 4, 8);
    HeadSlice(a + b, c, 4, 8);
    TailSlice(a, b);
    HeadSlice(a + b + c + d, e, 8, 8 + |c|);
    HeadSlice(a + b + c, d, 8, 8 + |c|);
    TailSlice(a + b, c);
    TailSlice(a + b + c + d, e);
  }

  lemma ClipInside(data: seq<byte>, from: nat, to: nat)
    requires from <= to <= |data|
    ensures Clip(data, from, to) == data[from..to]
  {
  }

  lemma ChunkStep(data: seq<byte>, offset: nat)
    requires offset + 8 <= |data|
    ensures var size := UnBe32(data[offset + 4..offset + 8]);
            ChunksFrom(data, offset) ==
            [Chunk(data[offset..offset + 4], Clip(data, offset + 8, offset + 8 + size))] +
            ChunksFrom(data, offset + 8 + size + size % 2)
  {
    hide UnBe32, Clip;
  }

  /** Chunks written one after another read back as they were. */
  lemma {:induction false} ChunksRoundTrip(data: seq<byte>, offset: nat, cs: seq<Chunk>)
    requires (forall i | 0 <= i < |cs| :: Writable(cs[i])) && offset <= |data| && data[offset..] == AllBytes(cs)
    ensures ChunksFrom(data, offset) == cs
    decreases |cs|
  {
    hide ChunkBytes, ChunksFrom;
    if cs == [] {
      NoChunks(data, offset);
    } else {
      FirstChunk(data, offset, cs[0], AllBytes(cs[1..]));
      ChunksRoundTrip(data, offset + 8 + |cs[0].data| + |cs[0].data| % 2, cs[1..]);
      assert cs == [cs[0]] + cs[1..];
    }
  }

  /** A chunk whose data the file ends in is given with what there is of it. */
  lemma {:induction false} ChunkCut(data: seq<byte>, offset: nat, cs: seq<Chunk>, id: seq<byte>, size: nat, part: seq<byte>)
    requires (forall i | 0 <= i < |cs| :: Writable(cs[i])) && |id| == 4 && size < TWO32 && |part| <= size
    requires offset <= |data| && data[offset..] == AllBytes(cs) + (id + Be32(size) + part)
    ensures ChunksFrom(data, offset) == cs + [Chunk(id, part)]
    decreases |cs|
  {
    hide ChunkBytes, ChunksFrom, Be32, UnBe32, Clip;
    var last := id + Be32(size) + part;
    if cs == [] {
      assert data[offset..] == last;
      BeRoundTrip(size);
      ChunkStep(data, offset);
      assert data[offset..offset + 4] == last[0..4] == id;
      assert data[offset + 4..offset + 8] == last[4..8] == Be32(size);
      assert data[offset + 8..] == last[8..] == part;
      ClipEnd(data, offset + 8, offset + 8 + size);
      NoChunks(data, offset + 8 + size + size % 2);
      assert cs + [Chunk(id, part)] == [Chunk(id, part)] + [];
    } else {
      assert data[offset..] == ChunkBytes(cs[0]) + (AllBytes(cs[1..]) + last);
      FirstChunk(data, offset, cs[0], AllBytes(cs[1..]) + last);
      ChunkCut(data, offset + 8 + |cs[0].data| + |cs[0].data| % 2, cs[1..], id, size, part);
      assert cs + [Chunk(id, part)] == [cs[0]] + (cs[1..] + [Chunk(id, part)]);
    }
  }

  lemma ClipEnd(data: seq<byte>, from: nat, to: nat)
    requires from <= |data| <= to
    ensures Clip(data, from, to) == data[from..]
  {
  }

  lemma NoChunks(data: seq<byte>, offset: nat)
    requires offset + 8 > |data|
    ensures ChunksFrom(data, offset) == []
  {
  }

  /** A form's chunks come back from it, and none besides. */
  lemma FormRoundTrip(cs: seq<Chunk>)
    requires forall i | 0 <= i < |cs| :: Writable(cs[i])
    ensures var data := FormBytes(cs);
            Clip(data, 0, 4) == FORM && Clip(data, 8, 12) == ILBM && ChunksFrom(data, 12) == cs
  {
    hide AllBytes, ChunksFrom, Be32;
    var data := FormBytes(cs);
    assert data[0..4] == FORM && data[8..12] == ILBM && data[12..] == AllBytes(cs);
    ChunksRoundTrip(data, 12, cs);
  }
}
