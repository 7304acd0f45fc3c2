/** ByteRun1, the run-length coding of appendix C of the EA IFF 85 ILBM document: the decoder's
    loop, and the all-literal packer. */
module ByteRun {
  import opened Bytes

  const MAX_RUN: nat := 128

  // ----- the format

  /** A packet: up to 128 bytes as they are, a byte repeated 2 to 128 times, or nothing. */
  datatype Packet =
    | Literal(bytes: seq<byte>)
    | Repeat(value: byte, count: nat)
    | NoOp

  predicate WellFormed(p: Packet)
  {
    match p
    case Literal(bytes) => 1 <= |bytes| <= MAX_RUN
    case Repeat(_, count) => 2 <= count <= MAX_RUN
    case NoOp => true
  }

  function Coded(p: Packet): seq<byte>
    requires WellFormed(p)
  {
    match p
    case Literal(bytes) => [|bytes| - 1] + bytes
    case Repeat(value, count) => [257 - count, value]
    case NoOp => [128]
  }

  function Meaning(p: Packet): seq<byte>
  {
    match p
    case Literal(bytes) => bytes
    case Repeat(value, count) => seq(count, _ => value)
    case NoOp => []
  }

  function CodedAll(ps: seq<Packet>): seq<byte>
    requires forall i | 0 <= i < |ps| :: WellFormed(ps[i])
  {
    if ps == [] then [] else Coded(ps[0]) + CodedAll(ps[1..])
  }

  function MeaningAll(ps: seq<Packet>): seq<byte>
  {
    if ps == [] then [] else Meaning(ps[0]) + MeaningAll(ps[1..])
  }

  // ----- the decoder

  /** What the loop makes of `body`: a literal run the data ends in is cut short, and a repeat
      without its byte is an index past the end. */
  function Expanded(body: seq<byte>): Option<seq<byte>>
    decreases |body|
  {
    if body == [] then Some([])
    else
      var n := body[0];
      if n < 128 then
        var end := if n + 2 < |body| then n + 2 else |body|;
        After(body[1..end], Expanded(body[end..]))
      else if n > 128 then
        if |body| == 1 then None else After(seq(257 - n, _ => body[1]), Expanded(body[2..]))
      else Expanded(body[1..])
  }

  function After(front: seq<byte>, rest: Option<seq<byte>>): Option<seq<byte>>
  {
    match rest
    case None => None
    case Some(s) => Some(front + s)
  }

  lemma AfterTwice(a: seq<byte>, b: seq<byte>, rest: Option<seq<byte>>)
    ensures After(a, After(b, rest)) == After(a + b, rest)
  {
    if rest.Some? {
      assert a + (b + rest.value) == a + b + rest.value;
    }
  }

  /** `_byte_run1`. */
  method ByteRun1(body: seq<byte>) returns (r: Option<seq<byte>>)
    ensures r == Expanded(body)
  {
    hide Expanded;
    var out: seq<byte>, i := [], 0;
    assert body[0..] == body;
    NothingBefore(Expanded(body));
    while i < |body|
      invariant 0 <= i <= |body| && Expanded(body) == After(out, Expanded(body[i..]))
      decreases |body| - i
    {
      var n := body[i];
      ghost var rest := body[i..];
      Step(rest);
      i := i + 1;
      if n < 128 {
        var end := if i + n + 1 < |body| then i + n + 1 else |body|;
        assert rest[1..end - i + 1] == body[i..end] && rest[end - i + 1..] == body[end..];
        AfterTwice(out, body[i..end], Expanded(body[end..]));
        out := out + body[i..end];
        i := end;
      } else if n > 128 {
        if i >= |body| {
          return None;
        }
        assert rest[2..] == body[i + 1..] && rest[1] == body[i];
        ghost var run: seq<byte> := seq(257 - n, _ => rest[1]);
        AfterTwice(out, run, Expanded(body[i + 1..]));
        out := out + seq(257 - n, _ => body[i]);
        i := i + 1;
      } else {
        assert rest[1..] == body[i..];
      }
    }
    AtEnd(body[i..]);
    assert out + [] == out;
    return Some(out);
  }

  lemma NothingBefore(rest: Option<seq<byte>>)
    ensures After([], rest) == rest
  {
    if rest.Some? {
      assert [] + rest.value == rest.value;
    }
  }

  lemma AtEnd(body: seq<byte>)
    requires |body| == 0
    ensures Expanded(body) == Some([])
  {
  }

  lemma Step(body: seq<byte>)
    requires body != []
    ensures var n := body[0];
            && (n < 128 ==> var end := if n + 2 < |body| then n + 2 else |body|;
                            Expanded(body) == After(body[1..end], Expanded(body[end..])))
            && (n > 128 && |body| == 1 ==> Expanded(body) == None)
            && (n > 128 && |body| > 1 ==> Expanded(body) == After(seq(257 - n, _ => body[1]), Expanded(body[2..])))
            && (n == 128 ==> Expanded(body) == Expanded(body[1..]))
  {
  }

  // ----- what it computes

  lemma PacketFirst(p: Packet, rest: seq<byte>)
    requires WellFormed(p)
    ensures Expanded(Coded(p) + rest) == After(Meaning(p), Expanded(rest))
  {
    hide Expanded;
    var body := Coded(p) + rest;
    Step(body);
    match p
    case Literal(bytes) =>
      var end := |bytes| + 1;
      assert body[1..end] == bytes && body[end..] == rest;
    case Repeat(value, count) =>
      assert body[1] == value && body[2..] == rest;
      assert seq(257 - body[0], _ => body[1]) == Meaning(p);
    case NoOp =>
      assert body[1..] == rest;
      NothingBefore(Expanded(rest));
  }

  /** For every sequence of packets the loop's output is what they mean. */
  lemma {:induction false} ExpandsPackets(ps: seq<Packet>)
    requires forall i | 0 <= i < |ps| :: WellFormed(ps[i])
    ensures Expanded(CodedAll(ps)) == Some(MeaningAll(ps))
  {
    if ps != [] {
      ExpandsPackets(ps[1..]);
      PacketFirst(ps[0], CodedAll(ps[1..]));
    }
  }

  /** A literal run that the data ends in gives what there is of it. */
  lemma {:induction false} ExpandsCut(ps: seq<Packet>, n: byte, data: seq<byte>)
    requires (forall i | 0 <= i < |ps| :: WellFormed(ps[i])) && n < 128 && |data| <= n
    ensures Expanded(CodedAll(ps) + ([n] + data)) == Some(MeaningAll(ps) + data)
  {
    hide Expanded, Coded, Meaning;
    if ps == [] {
      var body := [n] + data;
      assert CodedAll(ps) + body == body && MeaningAll(ps) + data == data;
      Step(body);
      assert body[1..|body|] == data && body[|body|..] == [] && data + [] == data;
      assert Expanded([]) == Some([]) by { NothingExpanded(); }
    } else {
      ExpandsCut(ps[1..], n, data);
      var rest := CodedAll(ps[1..]) + ([n] + data);
      PacketFirst(ps[0], rest);
      assert CodedAll(ps) + ([n] + data) == Coded(ps[0]) + rest;
      assert Meaning(ps[0]) + (MeaningAll(ps[1..]) + data) == MeaningAll(ps) + data;
    }
  }

  lemma NothingExpanded()
    ensures Expanded([]) == Some([])
  {
  }

  /** A repeat whose byte is missing is an error. */
  lemma {:induction false} ExpandsNothing(ps: seq<Packet>, n: byte)
    requires (forall i | 0 <= i < |ps| :: WellFormed(ps[i])) && n > 128
    ensures Expanded(CodedAll(ps) + [n]) == None
  {
    if ps == [] {
      assert CodedAll(ps) + [n] == [n];
    } else {
      ExpandsNothing(ps[1..], n);
      PacketFirst(ps[0], CodedAll(ps[1..]) + [n]);
      assert CodedAll(ps) + [n] == Coded(ps[0]) + (CodedAll(ps[1..]) + [n]);
    }
  }

  /** And it is never more than 64 times the input. */
  lemma {:induction false} ExpandsBounded(body: seq<byte>)
    ensures Expanded(body).Some? ==> |Expanded(body).value| <= 64 * |body|
    decreases |body|
  {
    if body != [] {
      var n := body[0];
      if n < 128 {
        ExpandsBounded(body[if n + 2 < |body| then n + 2 else |body|..]);
      } else if n > 128 && |body| > 1 {
        ExpandsBounded(body[2..]);
      } else if n == 128 {
        ExpandsBounded(body[1..]);
      }
    }
  }

  // ----- the packer

  /** Literal packets of at most 128 bytes. */
  function LiteralsOf(src: seq<byte>): (ps: seq<Packet>)
    ensures forall i | 0 <= i < |ps| :: WellFormed(ps[i])
    decreases |src|
  {
    if src == [] then []
    else if |src| <= MAX_RUN then [Literal(src)]
    else [Literal(src[..MAX_RUN])] + LiteralsOf(src[MAX_RUN..])
  }

  lemma {:induction false} LiteralsMean(src: seq<byte>)
    ensures MeaningAll(LiteralsOf(src)) == src
    decreases |src|
  {
    if |src| > MAX_RUN {
      LiteralsMean(src[MAX_RUN..]);
      assert src == src[..MAX_RUN] + src[MAX_RUN..];
    } else if src != [] {
      assert LiteralsOf(src)[1..] == [];
    }
  }

  lemma CodedCons(p: Packet, ps: seq<Packet>)
    requires WellFormed(p) && forall i | 0 <= i < |ps| :: WellFormed(ps[i])
    ensures CodedAll([p] + ps) == Coded(p) + CodedAll(ps)
  {
    assert ([p] + ps)[1..] == ps;
  }

  lemma LiteralsStep(src: seq<byte>)
    requires src != []
    ensures var n := if |src| > MAX_RUN then MAX_RUN else |src|;
            LiteralsOf(src) == [Literal(src[..n])] + LiteralsOf(src[n..])
  {
    if |src| <= MAX_RUN {
      assert src[..|src|] == src && src[|src|..] == [];
      assert LiteralsOf([]) == [];
    }
  }

  lemma CodedLiterals(src: seq<byte>)
    requires src != []
    ensures var n := if |src| > MAX_RUN then MAX_RUN else |src|;
            CodedAll(LiteralsOf(src)) == [n - 1] + src[..n] + CodedAll(LiteralsOf(src[n..]))
  {
    hide CodedAll, LiteralsOf;
    var n := if |src| > MAX_RUN then MAX_RUN else |src|;
    LiteralsStep(src);
    CodedCons(Literal(src[..n]), LiteralsOf(src[n..]));
  }

  /** `pack_literal`. */
  method PackLiteral(src: seq<byte>) returns (out: seq<byte>)
    ensures out == CodedAll(LiteralsOf(src))
  {
    hide CodedAll, LiteralsOf;
    out := [];
    var i := 0;
    assert src[0..] == src && [] + CodedAll(LiteralsOf(src)) == CodedAll(LiteralsOf(src));
    while i < |src|
      invariant 0 <= i <= |src| && CodedAll(LiteralsOf(src)) == out + CodedAll(LiteralsOf(src[i..]))
    {
      var n := |src| - i;
      if n > 128 {
        n := 128;
      }
      CodedLiterals(src[i..]);
      assert src[i..][..n] == src[i..i + n] && src[i..][n..] == src[i + n..];
      assert out + ([n - 1] + src[i..i + n] + CodedAll(LiteralsOf(src[i + n..]))) ==
             out + [n - 1] + src[i..i + n] + CodedAll(LiteralsOf(src[i + n..]));
      out := out + [n - 1] + src[i..i + n];
      i := i + n;
    }
    NoLiterals(src[i..]);
    assert out + [] == out;
  }

  lemma NoLiterals(src: seq<byte>)
    requires |src| == 0
    ensures CodedAll(LiteralsOf(src)) == []
  {
  }

  /** What the packer writes expands to its input. */
  lemma PackRoundTrip(src: seq<byte>)
    ensures Expanded(CodedAll(LiteralsOf(src))) == Some(src)
  {
    hide Expanded;
    ExpandsPackets(LiteralsOf(src));
    LiteralsMean(src);
  }
}
