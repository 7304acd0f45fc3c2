/** The console reader: `split_console_lines` and the pump that feeds it chunk by chunk. */
module ConsoleLines {
  import opened Bytes

  const NEWLINE: byte := 10

  /** One newline, at the end. */
  ghost predicate IsLine(line: seq<byte>)
  {
    line != [] && line[|line| - 1] == NEWLINE && forall i | 0 <= i < |line| - 1 :: line[i] != NEWLINE
  }

  ghost predicate AllLines(lines: seq<seq<byte>>)
  {
    forall i | 0 <= i < |lines| :: IsLine(lines[i])
  }

  /** The complete lines of a byte string and what follows the last newline. */
  ghost predicate Splits(text: seq<byte>, lines: seq<seq<byte>>, rest: seq<byte>)
  {
    AllLines(lines) && NEWLINE !in rest && Concat(lines) + rest == text
  }

  lemma NotShorter(a: seq<byte>, b: seq<byte>, x: seq<byte>, y: seq<byte>)
    requires IsLine(a) && IsLine(b) && a + x == b + y
    ensures |a| >= |b|
  {
    var k := |a| - 1;
    assert (a + x)[k] == NEWLINE;
    assert (b + y)[k] == NEWLINE;
  }

  lemma SameLine(a: seq<byte>, b: seq<byte>, x: seq<byte>, y: seq<byte>)
    requires IsLine(a) && IsLine(b) && a + x == b + y
    ensures a == b && x == y
  {
    NotShorter(a, b, x, y);
    NotShorter(b, a, y, x);
    assert a == (a + x)[..|a|] == (b + y)[..|b|] == b;
    assert x == (a + x)[|a|..] == (b + y)[|b|..] == y;
  }

  lemma LinesHaveNewlines(lines: seq<seq<byte>>, rest: seq<byte>)
    requires AllLines(lines)
    ensures lines != [] ==> NEWLINE in Concat(lines) + rest
  {
    if lines != [] {
      var n := |lines| - 1; var line := lines[n];
      var before := Concat(lines[..n]);
      assert lines == lines[..n] + [line];
      ConcatLast(lines[..n], line);
      assert (before + line)[|before| + |line| - 1] == NEWLINE;
      assert (Concat(lines) + rest)[|before| + |line| - 1] == NEWLINE;
    }
  }

  /** There is only one way to split a byte string into its lines. */
  lemma {:induction false} SplitUnique(text: seq<byte>, a: seq<seq<byte>>, x: seq<byte>, b: seq<seq<byte>>, y: seq<byte>)
    requires Splits(text, a, x) && Splits(text, b, y)
    ensures a == b && x == y
    decreases |a|
  {
    LinesHaveNewlines(a, x);
    LinesHaveNewlines(b, y);
    assert a == [] ==> Concat(a) + x == x;
    assert b == [] ==> Concat(b) + y == y;
    if a != [] {
      var s, t := Concat(a[1..]) + x, Concat(b[1..]) + y;
      assert text == a[0] + s && text == b[0] + t;
      SameLine(a[0], b[0], s, t);
      SplitUnique(s, a[1..], x, b[1..], y);
    }
  }

  /** `bytes.find(b"\n")`. */
  method FindNewline(buffer: seq<byte>) returns (end: int)
    ensures end < 0 ==> NEWLINE !in buffer
    ensures end >= 0 ==> end < |buffer| && buffer[end] == NEWLINE && NEWLINE !in buffer[..end]
  {
    for i := 0 to |buffer|
      invariant NEWLINE !in buffer[..i]
    {
      if buffer[i] == NEWLINE {
        return i;
      }
    }
    assert buffer[..|buffer|] == buffer;
    return -1;
  }

  lemma NoLines(text: seq<byte>)
    ensures Concat([]) + text == text
  {
  }

  lemma FirstLine(rest: seq<byte>, end: nat)
    requires end < |rest| && rest[end] == NEWLINE && NEWLINE !in rest[..end]
    ensures IsLine(rest[..end + 1]) && rest == rest[..end + 1] + rest[end + 1..]
  {
    assert forall i | 0 <= i < end :: rest[..end + 1][i] == rest[..end][i];
  }

  /** `split_console_lines`. */
  method SplitLines(text: seq<byte>) returns (lines: seq<seq<byte>>, rest: seq<byte>)
    ensures Splits(text, lines, rest)
  {
    hide Concat, IsLine;
    lines, rest := [], text;
    NoLines(text);
    while true
      invariant AllLines(lines) && Concat(lines) + rest == text
      decreases |rest|
    {
      var end := FindNewline(rest);
      if end < 0 {
        return;
      }
      var line := rest[..end + 1];
      FirstLine(rest, end);
      ConcatLast(lines, line);
      assert Concat(lines) + line + rest[end + 1..] == Concat(lines) + rest;
      lines := lines + [line];
      rest := rest[end + 1..];
    }
  }

  /** What the pump hands on for a whole console: its lines, and then the unfinished one. */
  ghost predicate Pumped(text: seq<byte>, out: seq<seq<byte>>)
  {
    exists lines, rest :: Splits(text, lines, rest) && out == if rest == [] then lines else lines + [rest]
  }

  /** The chunks before the empty one that ends the console. */
  function UpToEnd(chunks: seq<seq<byte>>): (r: seq<seq<byte>>)
    ensures forall i | 0 <= i < |r| :: r[i] != []
  {
    if chunks == [] || chunks[0] == [] then [] else [chunks[0]] + UpToEnd(chunks[1..])
  }

  lemma {:induction false} UpToPrefix(chunks: seq<seq<byte>>, n: nat)
    requires n <= |chunks| && forall i | 0 <= i < n :: chunks[i] != []
    ensures n == |chunks| || chunks[n] == [] ==> UpToEnd(chunks) == chunks[..n]
  {
    if n > 0 {
      UpToPrefix(chunks[1..], n - 1);
      assert chunks[..n] == [chunks[0]] + chunks[1..][..n - 1];
    }
  }

  lemma SplitsNext(text: seq<byte>, lines: seq<seq<byte>>, rest: seq<byte>, chunk: seq<byte>,
                   more: seq<seq<byte>>, left: seq<byte>)
    requires Splits(text, lines, rest) && Splits(rest + chunk, more, left)
    ensures Splits(text + chunk, lines + more, left)
  {
    hide IsLine;
    ConcatAppend(lines, more);
    assert Concat(lines) + Concat(more) + left == Concat(lines) + (rest + chunk);
  }

  lemma NothingSplits()
    ensures Splits([], [], [])
  {
  }

  /** `pump`: each chunk joins what the last split left over, and the rest follows at the end. */
  method Pump(chunks: seq<seq<byte>>) returns (out: seq<seq<byte>>)
    ensures Pumped(Concat(UpToEnd(chunks)), out)
  {
    hide Splits;
    NothingSplits();
    out := [];
    var buffer: seq<byte>, n := [], 0;
    while n < |chunks| && chunks[n] != []
      invariant 0 <= n <= |chunks| && forall i | 0 <= i < n :: chunks[i] != []
      invariant Splits(Concat(chunks[..n]), out, buffer)
    {
      assert chunks[..n + 1] == chunks[..n] + [chunks[n]];
      ConcatLast(chunks[..n], chunks[n]);
      var complete, rest := SplitLines(buffer + chunks[n]);
      SplitsNext(Concat(chunks[..n]), out, buffer, chunks[n], complete, rest);
      out, buffer := out + complete, rest;
      n := n + 1;
    }
    UpToPrefix(chunks, n);
    ghost var lines := out;
    if buffer != [] {
      out := out + [buffer];
    }
    assert Splits(Concat(UpToEnd(chunks)), lines, buffer);
  }

  /** The pump hands on the same lines however the console arrives in chunks. */
  lemma PumpIgnoresChunks(text: seq<byte>, a: seq<seq<byte>>, b: seq<seq<byte>>)
    requires Pumped(text, a) && Pumped(text, b)
    ensures a == b
  {
    var l, x :| Splits(text, l, x) && a == if x == [] then l else l + [x];
    var m, y :| Splits(text, m, y) && b == if y == [] then m else m + [y];
    SplitUnique(text, l, x, m, y);
  }

  /** And loses no byte. */
  lemma PumpLosesNothing(text: seq<byte>, out: seq<seq<byte>>)
    requires Pumped(text, out)
    ensures Concat(out) == text
  {
    var l, x :| Splits(text, l, x) && out == if x == [] then l else l + [x];
    if x != [] {
      ConcatLast(l, x);
    } else {
      assert out == l && x == [];
      assert Concat(l) + [] == Concat(l);
    }
  }
}
