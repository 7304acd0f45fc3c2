/** Quoted strings of a .po file: `unescape` and `decode`, and the writer they undo. */
module CatalogueText {

  const QUOTE: char := '\"'
  const BACKSLASH: char := '\\'

  /** What the letter after a backslash stands for; any other stands for itself. */
  function Meaning(c: char): char
  {
    if c == 'n' then '\n' else if c == 't' then '\t' else if c == 'r' then '\r'
    else if c == 'a' then 7 as char else if c == 'b' then 8 as char else if c == 'f' then 12 as char
    else if c == 'v' then 11 as char else if c == '0' then '\0' else c
  }

  function Unescaped(inner: string): string
    decreases |inner|
  {
    if inner == [] then []
    else if inner[0] == BACKSLASH && |inner| > 1 then [Meaning(inner[1])] + Unescaped(inner[2..])
    else [inner[0]] + Unescaped(inner[1..])
  }

  /** `unescape`. */
  method Unescape(inner: string) returns (out: string)
    ensures out == Unescaped(inner)
  {
    hide Meaning;
    out := [];
    var i := 0;
    while i < |inner|
      invariant 0 <= i <= |inner| && Unescaped(inner) == out + Unescaped(inner[i..])
    {
      var c := inner[i];
      if c == BACKSLASH && i + 1 < |inner| {
        assert inner[i..][2..] == inner[i + 2..];
        out := out + [Meaning(inner[i + 1])];
        i := i + 2;
      } else {
        assert inner[i..][1..] == inner[i + 1..];
        out := out + [c];
        i := i + 1;
      }
    }
  }

  /** How a character is written between quotes. */
  function Escape(c: char): (s: string)
    ensures |s| == 1 || (|s| == 2 && s[0] == BACKSLASH)
  {
    if c == '\n' then "\\n" else if c == '\t' then "\\t" else if c == '\r' then "\\r"
    else if c == QUOTE then "\\\"" else if c == BACKSLASH then "\\\\"
    else if c == 7 as char then "\\a" else if c == 8 as char then "\\b" else if c == 12 as char then "\\f"
    else if c == 11 as char then "\\v" else if c == '\0' then "\\0"
    else [c]
  }

  function Escaped(s: string): string
  {
    if s == [] then [] else Escape(s[0]) + Escaped(s[1..])
  }

  lemma EscapeUndone(c: char, rest: string)
    ensures Unescaped(Escape(c) + rest) == [c] + Unescaped(rest)
  {
    var s := Escape(c) + rest;
    if |Escape(c)| == 2 {
      assert s[2..] == rest && Meaning(s[1]) == c;
    } else {
      assert s[1..] == rest;
    }
  }

  /** Unescaping undoes escaping, for every string. */
  lemma {:induction false} EscapeRoundTrip(s: string)
    ensures Unescaped(Escaped(s)) == s
  {
    hide Unescaped, Escape;
    if s == [] {
      NothingUnescaped();
    } else {
      EscapeRoundTrip(s[1..]);
      EscapeUndone(s[0], Escaped(s[1..]));
    }
  }

  lemma NothingUnescaped()
    ensures Unescaped([]) == []
  {
  }

  /** The escapes by their letters; any other character stands for itself, and so does a backslash
      at the end. */
  lemma EscapeLetters(c: char, rest: string)
    ensures Unescaped("\\" + [c] + rest) ==
            [match c case 'n' => '\U{A}' case 't' => '\U{9}' case 'r' => '\U{D}' case 'a' => '\U{7}' case 'b' => '\U{8}'
                     case 'f' => '\U{C}' case 'v' => '\U{B}' case '0' => '\U{0}' case _ => c] + Unescaped(rest)
    ensures Unescaped("\\") == "\\"
  {
    var s := "\\" + [c] + rest;
    assert s[2..] == rest && s[0] == BACKSLASH && s[1] == c;
    assert "\\"[1..] == "";
  }

  lemma PlainLetter(c: char, rest: string)
    requires c != BACKSLASH
    ensures Unescaped([c] + rest) == [c] + Unescaped(rest)
  {
    assert ([c] + rest)[1..] == rest;
  }

  // ----- white space

  /** `str.isspace`, which `strip` and the pattern's blanks go by. */
  predicate IsSpace(c: char)
  {
    || c == ' ' || '\t' <= c <= '\r' || '\U{1C}' <= c <= '\U{1F}' || c == '\U{85}' || c == '\U{A0}' || c == '\U{1680}'
    || '\U{2000}' <= c <= '\U{200A}' || c == '\U{2028}' || c == '\U{2029}' || c == '\U{202F}' || c == '\U{205F}'
    || c == '\U{3000}'
  }

  /** `str.strip`. */
  function Strip(s: string): string
    decreases |s|
  {
    if s == [] then s
    else if IsSpace(s[0]) then Strip(s[1..])
    else if IsSpace(s[|s| - 1]) then Strip(s[..|s| - 1])
    else s
  }

  predicate Trim(s: string) { s != [] && !IsSpace(s[0]) && !IsSpace(s[|s| - 1]) }

  // ----- a quoted value

  /** `decode`. */
  function Decode(rest: string): string
  {
    var s := Strip(rest);
    Unescaped(if |s| >= 2 && s[0] == QUOTE && s[|s| - 1] == QUOTE then s[1..|s| - 1] else s)
  }

  function Quoted(s: string): string { [QUOTE] + Escaped(s) + [QUOTE] }

  /** A quoted string decodes to itself. */
  lemma DecodeQuoted(s: string)
    ensures Trim(Quoted(s)) && Quoted(s)[0] == QUOTE && Decode(Quoted(s)) == s
  {
    hide Unescaped, Escaped;
    var q := Quoted(s);
    assert q[0] == QUOTE && q[|q| - 1] == QUOTE && q[1..|q| - 1] == Escaped(s);
    EscapeRoundTrip(s);
  }

  /** A value without quotes is taken as it stands, but for its escapes and the blanks around it. */
  lemma DecodeBare(s: string)
    requires Trim(s) && (s[0] != QUOTE || s[|s| - 1] != QUOTE || |s| == 1)
    ensures Decode(s) == Unescaped(s)
  {
  }

  // ----- lines

  /** The line breaks that are not written with an escape. */
  predicate RawBreak(c: char)
  {
    '\U{1C}' <= c <= '\U{1E}' || c == '\U{85}' || c == '\U{2028}' || c == '\U{2029}'
  }

  /** Where `str.splitlines` cuts. */
  predicate IsBreak(c: char) { '\n' <= c <= '\r' || RawBreak(c) }

  ghost predicate NoBreak(s: string) { forall i | 0 <= i < |s| :: !IsBreak(s[i]) }

  /** The length of the first line. */
  function LineEnd(text: string): (n: nat)
    ensures n <= |text| && (n < |text| ==> IsBreak(text[n])) && NoBreak(text[..n])
  {
    if text == [] || IsBreak(text[0]) then 0
    else
      var n := LineEnd(text[1..]);
      assert text[..n + 1] == [text[0]] + text[1..][..n];
      n + 1
  }

  /** `str.splitlines`: a carriage return and a newline are one break, and a break at the end
      begins no line. */
  function SplitText(text: string): (lines: seq<string>)
    ensures forall i | 0 <= i < |lines| :: NoBreak(lines[i])
    decreases |text|
  {
    if text == [] then []
    else
      var n := LineEnd(text);
      var next := if n + 1 < |text| && text[n] == '\r' && text[n + 1] == '\n' then n + 2 else n + 1;
      [text[..n]] + (if next < |text| then SplitText(text[next..]) else [])
  }

  /** Lines as a file has them, a newline behind each. */
  function Lined(lines: seq<string>): string
  {
    if lines == [] then [] else lines[0] + "\n" + Lined(lines[1..])
  }

  lemma {:induction false} LineEndIs(line: string, c: char, rest: string)
    requires NoBreak(line) && IsBreak(c)
    ensures LineEnd(line + [c] + rest) == |line|
  {
    var text := line + [c] + rest;
    if line != [] {
      assert text[1..] == line[1..] + [c] + rest;
      LineEndIs(line[1..], c, rest);
    }
  }

  /** A line before a break other than a carriage return is the first line. */
  lemma SplitOne(line: string, c: char, rest: string)
    requires NoBreak(line) && IsBreak(c) && c != '\r'
    ensures SplitText(line + [c] + rest) == [line] + SplitText(rest)
  {
    hide LineEnd;
    var text := line + [c] + rest;
    LineEndIs(line, c, rest);
    assert text[..|line|] == line && text[|line| + 1..] == rest;
  }

  /** Lines without a break of their own come back. */
  lemma {:induction false} LinesComeBack(lines: seq<string>)
    requires forall i | 0 <= i < |lines| :: NoBreak(lines[i])
    ensures SplitText(Lined(lines)) == lines
  {
    hide SplitText;
    if lines == [] {
      NoLines();
    } else {
      LinesComeBack(lines[1..]);
      SplitOne(lines[0], '\n', Lined(lines[1..]));
      assert lines == [lines[0]] + lines[1..];
    }
  }

  lemma NoLines()
    ensures SplitText([]) == []
  {
  }

  // ----- which strings are printed on one line

  /** No character of the string is a line break that is printed as itself. */
  ghost predicate Unbroken(s: string) { forall i | 0 <= i < |s| :: !RawBreak(s[i]) }

  /** An escaped string is on one line exactly when it holds none of those breaks. */
  lemma {:induction false} EscapedUnbroken(s: string)
    ensures NoBreak(Escaped(s)) <==> Unbroken(s)
  {
    hide Escape;
    if s != [] {
      var a, b := Escape(s[0]), Escaped(s[1..]);
      EscapedUnbroken(s[1..]);
      EscapeBreaks(s[0]);
      assert forall i | 0 <= i < |s| - 1 :: s[1..][i] == s[i + 1];
      assert forall i | 0 <= i < |a| :: (a + b)[i] == a[i];
      assert forall i | 0 <= i < |b| :: (a + b)[|a| + i] == b[i];
    }
  }

  lemma EscapeBreaks(c: char)
    ensures NoBreak(Escape(c)) <==> !RawBreak(c)
  {
    if RawBreak(c) {
      assert Escape(c)[0] == c;
    }
  }

  lemma QuotedUnbroken(s: string)
    ensures NoBreak(Quoted(s)) <==> Unbroken(s)
  {
    hide Escaped;
    EscapedUnbroken(s);
    var q, e := Quoted(s), Escaped(s);
    assert forall i | 0 <= i < |e| :: q[i + 1] == e[i];
  }

  // ----- no break gets into a value

  lemma {:induction false} StripUnbroken(s: string)
    requires Unbroken(s)
    ensures Unbroken(Strip(s))
    decreases |s|
  {
    hide IsSpace;
    if s != [] {
      if IsSpace(s[0]) {
        StripUnbroken(s[1..]);
      } else if IsSpace(s[|s| - 1]) {
        StripUnbroken(s[..|s| - 1]);
      }
    }
  }

  lemma {:induction false} UnescapedUnbroken(inner: string)
    requires Unbroken(inner)
    ensures Unbroken(Unescaped(inner))
    decreases |inner|
  {
    if inner != [] {
      if inner[0] == BACKSLASH && |inner| > 1 {
        UnescapedUnbroken(inner[2..]);
      } else {
        UnescapedUnbroken(inner[1..]);
      }
    }
  }

  lemma DecodeUnbroken(rest: string)
    requires Unbroken(rest)
    ensures Unbroken(Decode(rest))
  {
    hide Strip, Unescaped;
    StripUnbroken(rest);
    var s := Strip(rest);
    if |s| >= 2 && s[0] == QUOTE && s[|s| - 1] == QUOTE {
      UnescapedUnbroken(s[1..|s| - 1]);
    } else {
      UnescapedUnbroken(s);
    }
  }
}
