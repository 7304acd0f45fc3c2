/** What makes no difference in a .po file: comments, blanks around a line, blank lines beyond the
    one that ends an entry, and quoted lines that continue nothing. */
module CatalogueLoose {
  import opened Bytes
  import opened CatalogueText
  import opened CatalogueParser

  // ----- stripping

  /** What is left is the part between the blanks at both ends. */
  lemma {:induction false} StripIs(s: string) returns (from: nat, to: nat)
    ensures from <= to <= |s| && Strip(s) == s[from..to]
    ensures (forall i | 0 <= i < from :: IsSpace(s[i])) && (forall i | to <= i < |s| :: IsSpace(s[i]))
    ensures from < to ==> !IsSpace(s[from]) && !IsSpace(s[to - 1])
    decreases |s|
  {
    hide IsSpace;
    if s == [] {
      from, to := 0, 0;
    } else if IsSpace(s[0]) {
      var a, b := StripIs(s[1..]);
      from, to := a + 1, b + 1;
      assert s[1..][a..b] == s[from..to];
      assert forall i | 0 < i < from :: s[i] == s[1..][i - 1];
      assert forall i | to <= i < |s| :: s[i] == s[1..][i - 1];
      assert a < b ==> s[1..][a] == s[from] && s[1..][b - 1] == s[to - 1];
    } else if IsSpace(s[|s| - 1]) {
      var n := |s| - 1;
      from, to := StripIs(s[..n]);
      assert s[..n][from..to] == s[from..to];
      assert forall i | 0 <= i < n :: s[..n][i] == s[i];
    } else {
      from, to := 0, |s|;
    }
  }

  lemma StripTrimmed(s: string)
    ensures Strip(Strip(s)) == Strip(s)
  {
    hide IsSpace;
    var from, to := StripIs(s);
    var t := Strip(s);
    if t != [] {
      assert t[0] == s[from] && t[|t| - 1] == s[to - 1];
    }
  }

  // ----- the lines that matter

  predicate IsComment(line: string) { line != [] && line[0] == '#' }

  /** The lines without their comments and the blanks around them. */
  function Significant(lines: seq<string>): seq<string>
  {
    if lines == [] then []
    else (if IsComment(Strip(lines[0])) then [] else [Strip(lines[0])]) + Significant(lines[1..])
  }

  /** One blank line after an entry, none elsewhere, and no quoted line outside one. */
  function Collapsed(lines: seq<string>, inEntry: bool): seq<string>
  {
    if lines == [] then []
    else if lines[0] == "" then (if inEntry then [""] else []) + Collapsed(lines[1..], false)
    else if !inEntry && lines[0][0] == QUOTE then Collapsed(lines[1..], false)
    else [lines[0]] + Collapsed(lines[1..], true)
  }

  /** And none at the end. */
  function Normal(lines: seq<string>): seq<string>
  {
    var ls := Collapsed(Significant(lines), false);
    if ls != [] && ls[|ls| - 1] == "" then ls[..|ls| - 1] else ls
  }

  // ----- only they count

  lemma CommentSkipped(s: State, raw: string)
    requires IsComment(Strip(raw))
    ensures OnLine(s, raw) == Some(s)
  {
    hide Strip, Keyword, Decode;
  }

  lemma StripSkipped(s: State, raw: string)
    ensures OnLine(s, Strip(raw)) == OnLine(s, raw)
  {
    hide Strip, Keyword, Decode, CatalogueParser.Put, Extend;
    StripTrimmed(raw);
  }

  lemma {:induction false} SignificantParses(s: State, lines: seq<string>)
    ensures OnLines(s, Significant(lines)) == OnLines(s, lines)
    decreases |lines|
  {
    hide OnLine, Strip;
    if lines != [] {
      var raw, rest := lines[0], Significant(lines[1..]);
      if IsComment(Strip(raw)) {
        CommentSkipped(s, raw);
        SignificantParses(s, lines[1..]);
        assert [] + rest == rest;
      } else {
        StripSkipped(s, raw);
        assert ([Strip(raw)] + rest)[1..] == rest;
        if OnLine(s, raw).Some? {
          SignificantParses(OnLine(s, raw).value, lines[1..]);
        }
      }
    }
  }

  /** Outside an entry a blank line and a quoted one change nothing; inside, a blank line closes
      it. */
  lemma OutsideSkipped(s: State, line: string)
    requires s.entry.None? && s.last.None? && (line == "" || (line[0] == QUOTE && Strip(line) == line))
    ensures OnLine(s, line) == Some(s)
  {
    hide Decode, CatalogueParser.Put, Extend;
    if line != "" {
      NoKeyword(line);
    }
  }

  ghost predicate Stripped(lines: seq<string>)
  {
    forall i | 0 <= i < |lines| :: Strip(lines[i]) == lines[i]
  }

  lemma {:induction false} SignificantStripped(lines: seq<string>)
    ensures Stripped(Significant(lines))
  {
    hide Strip;
    if lines != [] {
      SignificantStripped(lines[1..]);
      StripTrimmed(lines[0]);
    }
  }

  lemma {:induction false} CollapsedParses(s: State, lines: seq<string>, inEntry: bool)
    requires Stripped(lines) && (!inEntry ==> s.entry.None? && s.last.None?)
    ensures OnLines(s, Collapsed(lines, inEntry)) == OnLines(s, lines)
    decreases |lines|
  {
    hide OnLine, Strip;
    if lines != [] {
      var line := lines[0];
      if line == "" {
        BlankLine(s);
        if inEntry {
          var rest := Collapsed(lines[1..], false);
          assert ([""] + rest)[1..] == rest;
          CollapsedParses(OnLine(s, "").value, lines[1..], false);
        } else {
          OutsideSkipped(s, "");
          CollapsedParses(s, lines[1..], false);
          assert [] + Collapsed(lines[1..], false) == Collapsed(lines[1..], false);
        }
      } else if !inEntry && line[0] == QUOTE {
        OutsideSkipped(s, line);
        CollapsedParses(s, lines[1..], false);
      } else {
        var rest := Collapsed(lines[1..], true);
        assert ([line] + rest)[1..] == rest;
        if OnLine(s, line).Some? {
          CollapsedParses(OnLine(s, line).value, lines[1..], true);
        }
      }
    }
  }

  lemma {:induction false} LinesLast(s: State, lines: seq<string>, line: string)
    ensures OnLines(s, lines + [line]) ==
            match OnLines(s, lines)
            case None => None
            case Some(t) => OnLine(t, line)
    decreases |lines|
  {
    hide OnLine;
    if lines == [] {
      assert lines + [line] == [line] && [line][1..] == [];
    } else {
      assert (lines + [line])[1..] == lines[1..] + [line];
      if OnLine(s, lines[0]).Some? {
        LinesLast(OnLine(s, lines[0]).value, lines[1..], line);
      }
    }
  }

  lemma LastBlank(lines: seq<string>)
    ensures ParsedLines(lines + [""]) == ParsedLines(lines)
  {
    hide OnLine, OnLines;
    LinesLast(START, lines, "");
    if OnLines(START, lines).Some? {
      BlankLine(OnLines(START, lines).value);
    }
  }

  /** Every text parses as the lines that matter in it. */
  lemma NormalParses(lines: seq<string>)
    ensures ParsedLines(Normal(lines)) == ParsedLines(lines)
  {
    hide OnLines, Significant, Collapsed;
    SignificantParses(START, lines);
    SignificantStripped(lines);
    CollapsedParses(START, Significant(lines), false);
    var ls := Collapsed(Significant(lines), false);
    if ls != [] && ls[|ls| - 1] == "" {
      LastBlank(ls[..|ls| - 1]);
      assert ls[..|ls| - 1] + [""] == ls;
    }
  }

  /** So texts that differ in comments, blanks around lines, blank lines and stray quotes alone
      parse alike, whatever they hold. */
  lemma LooselyEqual(a: string, b: string)
    requires Normal(SplitText(a)) == Normal(SplitText(b))
    ensures Parsed(a) == Parsed(b)
  {
    hide Normal, ParsedLines, SplitText;
    NormalParses(SplitText(a));
    NormalParses(SplitText(b));
  }

  /** A file written by hand around printed entries gives the entries. */
  lemma LooseRoundTrip(es: seq<seq<Field>>, text: string)
    requires Printed(es) && Normal(SplitText(text)) == Normal(CatalogueLines(es))
    ensures Parsed(text) == Some(EntriesOf(es))
  {
    hide Normal, ParsedLines, SplitText, CatalogueLines, EntriesOf;
    NormalParses(SplitText(text));
    NormalParses(CatalogueLines(es));
    LinesRoundTrip(es);
  }

  // ----- single changes

  /** A comment line may stand anywhere. */
  lemma {:induction false} CommentAnywhere(a: seq<string>, comment: string, b: seq<string>)
    requires IsComment(Strip(comment))
    ensures Normal(a + [comment] + b) == Normal(a + b)
  {
    hide Collapsed, Strip;
    SignificantJoin(a + [comment], b);
    SignificantJoin(a, [comment]);
    SignificantJoin(a, b);
    assert Significant([comment]) == [] by { assert [comment][1..] == []; }
    assert Significant(a) + [] == Significant(a);
  }

  lemma {:induction false} SignificantJoin(a: seq<string>, b: seq<string>)
    ensures Significant(a + b) == Significant(a) + Significant(b)
    decreases |a|
  {
    hide Strip;
    if a == [] {
      assert a + b == b;
    } else {
      assert (a + b)[1..] == a[1..] + b;
      SignificantJoin(a[1..], b);
    }
  }

  /** Blanks may stand around any line. */
  lemma BlanksAround(a: seq<string>, line: string, padded: string, b: seq<string>)
    requires Strip(padded) == Strip(line)
    ensures Normal(a + [padded] + b) == Normal(a + [line] + b)
  {
    hide Collapsed, Strip;
    SignificantJoin(a + [padded], b);
    SignificantJoin(a, [padded]);
    SignificantJoin(a + [line], b);
    SignificantJoin(a, [line]);
    assert [padded][1..] == [] && [line][1..] == [];
  }

  /** A second blank line may follow the first. */
  lemma BlankTwice(a: seq<string>, b: seq<string>)
    ensures Normal(a + [""] + [""] + b) == Normal(a + [""] + b)
  {
    hide Collapsed, Strip;
    OneBlank();
    SignificantJoin(a + [""] + [""], b);
    SignificantJoin(a + [""], [""]);
    SignificantJoin(a, [""]);
    SignificantJoin(a + [""], b);
    CollapsedTwice(Significant(a), Significant(b), false);
  }

  lemma OneBlank()
    ensures Significant([""]) == [""]
  {
    assert [""][1..] == [];
  }

  lemma {:induction false} CollapsedTwice(a: seq<string>, b: seq<string>, inEntry: bool)
    ensures Collapsed(a + [""] + [""] + b, inEntry) == Collapsed(a + [""] + b, inEntry)
    decreases |a|
  {
    if a == [] {
      assert a + [""] + [""] + b == [""] + ([""] + b);
      assert a + [""] + b == [""] + b;
      assert ([""] + ([""] + b))[1..] == [""] + b && ([""] + b)[1..] == b;
    } else {
      assert (a + [""] + [""] + b)[1..] == a[1..] + [""] + [""] + b;
      assert (a + [""] + b)[1..] == a[1..] + [""] + b;
      CollapsedTwice(a[1..], b, false);
      CollapsedTwice(a[1..], b, true);
    }
  }

  /** And blank lines before the first entry. */
  lemma BlankFirst(b: seq<string>)
    ensures Normal([""] + b) == Normal(b)
  {
    hide Strip;
    SignificantJoin([""], b);
    OneBlank();
    assert ([""] + Significant(b))[1..] == Significant(b);
  }

  // ----- keyword lines as they may be written

  ghost predicate Blanks(w: string) { forall i | 0 <= i < |w| :: IsSpace(w[i]) }

  lemma {:induction false} SkipsBlanks(w: string, rest: string)
    requires Blanks(w) && rest != [] && !IsSpace(rest[0])
    ensures SkipSpaces(w + rest) == rest
    decreases |w|
  {
    hide IsSpace;
    if w == [] {
      assert w + rest == rest;
    } else {
      assert (w + rest)[1..] == w[1..] + rest;
      SkipsBlanks(w[1..], rest);
    }
  }

  /** The keyword of a kind, and its number in brackets if it is a form. */
  function Word(kind: Kind): string
  {
    match kind
    case Context => "msgctxt"
    case Id => "msgid"
    case Plural => "msgid_plural"
    case Str => "msgstr"
    case Form(n) => "msgstr[" + Decimal(n) + "]"
  }

  /** Any blanks, or none, may stand between a keyword and its value. */
  lemma KeywordSpaced(kind: Kind, w: string, rest: string)
    requires Blanks(w) && rest != [] && rest[0] == QUOTE
    ensures Keyword(Word(kind) + w + rest) == Some(Match(kind, rest))
  {
    hide Indexed, Decimal, Keyword, IsSpace, Word, SkipSpaces, Blanks;
    var tail := w + rest;
    TailBegins(w, rest);
    assert Word(kind) + w + rest == Word(kind) + tail;
    if kind.Form? {
      FormWord(kind.index, tail, rest);
    } else {
      WordRead(kind, tail);
      PlainSpaced(kind, tail, rest);
    }
  }

  lemma TailBegins(w: string, rest: string)
    requires Blanks(w) && rest != [] && rest[0] == QUOTE
    ensures var tail := w + rest; tail[0] != '[' && tail[0] != '_' && SkipSpaces(tail) == rest
  {
    hide IsSpace, SkipSpaces;
    QuoteIsNoSpace(w);
    SkipsBlanks(w, rest);
  }

  lemma FormWord(n: nat, tail: string, rest: string)
    requires SkipSpaces(tail) == rest
    ensures Keyword(Word(Form(n)) + tail) == Some(Match(Form(n), rest))
  {
    hide Indexed, Decimal, Keyword, SkipSpaces;
    assert Word(Form(n)) + tail == "msgstr" + ("[" + Decimal(n) + "]" + tail);
    StrRead("[" + Decimal(n) + "]" + tail);
    FormSpaced(n, tail, rest);
  }

  lemma QuoteIsNoSpace(w: string)
    requires Blanks(w)
    ensures !IsSpace(QUOTE) && !IsSpace('[') && !IsSpace('_')
    ensures forall i | 0 <= i < |w| :: w[i] != '[' && w[i] != '_'
  {
  }

  lemma WordRead(kind: Kind, tail: string)
    requires !kind.Form? && tail != [] && tail[0] != '_'
    ensures Keyword(Word(kind) + tail) == Some(Indexed(kind, tail))
  {
    hide Indexed;
    var line := Word(kind) + tail;
    match kind
    case Context =>
      assert line[3] == 'c' && line[7..] == tail && line[..7] == "msgctxt";
    case Id =>
      assert line[3] == 'i' && line[5] == tail[0] && line[5..] == tail && line[..5] == "msgid";
    case Plural =>
      assert line[12..] == tail && line[..12] == "msgid_plural";
    case Str =>
      StrRead(tail);
  }

  lemma PlainSpaced(kind: Kind, tail: string, rest: string)
    requires tail != [] && tail[0] != '[' && SkipSpaces(tail) == rest
    ensures Indexed(kind, tail) == Match(kind, rest)
  {
    hide SkipSpaces, DigitsIn;
  }

  lemma FormSpaced(n: nat, tail: string, rest: string)
    requires SkipSpaces(tail) == rest
    ensures Indexed(Str, "[" + Decimal(n) + "]" + tail) == Match(Form(n), rest)
  {
    hide SkipSpaces, DigitsIn, Decimal;
    var digits := Decimal(n);
    var all := "[" + digits + "]" + tail;
    assert all[1..] == digits + "]" + tail;
    DigitsThenBracket(digits, tail);
    assert all[1..|digits| + 1] == digits && all[|digits| + 1] == ']' && all[|digits| + 2..] == tail;
    DecimalValue(n);
  }
}
