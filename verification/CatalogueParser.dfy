/** `parse_po` over the text of a .po file, and the entries it reads back from printed ones. */
module CatalogueParser {
  import opened Bytes
  import opened CatalogueText

  // ----- entries

  /** A field of an entry: its context, message, plural, translation, or one plural form. */
  datatype Kind = Context | Id | Plural | Str | Form(index: nat)

  datatype Entry = Entry(context: Option<string>, msgid: Option<string>, plural: Option<string>, msgstr: Option<string>,
                         forms: map<nat, string>)

  const EMPTY: Entry := Entry(None, None, None, None, map[])

  function Grow(held: Option<string>, value: string): Option<string>
  {
    Some((if held.Some? then held.value else []) + value)
  }

  /** A keyword line: a translation or a form is set, the other fields grow. */
  function Put(e: Entry, kind: Kind, value: string): Entry
  {
    match kind
    case Context => e.(context := Grow(e.context, value))
    case Id => e.(msgid := Grow(e.msgid, value))
    case Plural => e.(plural := Grow(e.plural, value))
    case Str => e.(msgstr := Some(value))
    case Form(n) => e.(forms := e.forms[n := value])
  }

  /** A continuation line: the field grows. */
  function Extend(e: Entry, kind: Kind, value: string): Entry
  {
    match kind
    case Str => e.(msgstr := Grow(e.msgstr, value))
    case Form(n) => e.(forms := e.forms[n := (if n in e.forms then e.forms[n] else []) + value])
    case _ => Put(e, kind, value)
  }

  // ----- keyword lines

  predicate Starts(s: string, prefix: string) { prefix <= s }

  function DigitsIn(s: string): (n: nat)
    ensures n <= |s| && forall i | 0 <= i < n :: '0' <= s[i] <= '9'
    ensures n < |s| ==> !('0' <= s[n] <= '9')
  {
    if s != [] && '0' <= s[0] <= '9' then 1 + DigitsIn(s[1..]) else 0
  }

  function Value(digits: string): nat
    requires forall i | 0 <= i < |digits| :: '0' <= digits[i] <= '9'
  {
    if digits == [] then 0 else 10 * Value(digits[..|digits| - 1]) + (digits[|digits| - 1] as nat - '0' as nat)
  }

  function SkipSpaces(s: string): string
  {
    if s != [] && IsSpace(s[0]) then SkipSpaces(s[1..]) else s
  }

  /** What the keyword pattern finds: the keyword's kind, its index if any, and the rest. */
  datatype Match = Match(kind: Kind, rest: string)

  /** The optional bracketed index after a keyword; only a translation's matters. */
  function Indexed(kind: Kind, tail: string): Match
  {
    var n := if tail != [] && tail[0] == '[' then DigitsIn(tail[1..]) else 0;
    if n > 0 && n + 1 < |tail| && tail[n + 1] == ']' then
      Match(if kind == Str then Form(Value(tail[1..n + 1])) else kind, SkipSpaces(tail[n + 2..]))
    else Match(kind, SkipSpaces(tail))
  }

  function Keyword(line: string): Option<Match>
  {
    if Starts(line, "msgid_plural") then Some(Indexed(Plural, line[12..]))
    else if Starts(line, "msgctxt") then Some(Indexed(Context, line[7..]))
    else if Starts(line, "msgid") then Some(Indexed(Id, line[5..]))
    else if Starts(line, "msgstr") then Some(Indexed(Str, line[6..]))
    else None
  }

  // ----- the parser

  datatype State = State(entries: seq<Entry>, entry: Option<Entry>, last: Option<Kind>)

  const START: State := State([], None, None)

  function Closed(s: State): seq<Entry>
  {
    if s.entry.Some? then s.entries + [s.entry.value] else s.entries
  }

  /** One line; `None` where the parser gives up on it. */
  function OnLine(s: State, raw: string): Option<State>
  {
    var line := Strip(raw);
    if line == [] then Some(State(Closed(s), None, None))
    else if line[0] == '#' then Some(s)
    else
      match Keyword(line)
      case Some(m) =>
        var entry := if s.entry.Some? then s.entry.value else EMPTY;
        Some(State(s.entries, Some(Put(entry, m.kind, Decode(m.rest))), Some(m.kind)))
      case None =>
        if line[0] != QUOTE then None
        else if s.entry.None? || s.last.None? then Some(s)
        else Some(s.(entry := Some(Extend(s.entry.value, s.last.value, Decode(line)))))
  }

  function OnLines(s: State, lines: seq<string>): Option<State>
    decreases |lines|
  {
    if lines == [] then Some(s)
    else
      match OnLine(s, lines[0])
      case None => None
      case Some(next) => OnLines(next, lines[1..])
  }

  function ParsedLines(lines: seq<string>): Option<seq<Entry>>
  {
    match OnLines(START, lines)
    case None => None
    case Some(s) => Some(Closed(s))
  }

  function Parsed(text: string): Option<seq<Entry>> { ParsedLines(SplitText(text)) }

  /** `parse_po`. */
  method ParsePo(text: string) returns (r: Option<seq<Entry>>)
    ensures r == Parsed(text)
  {
    hide Strip, Keyword, Decode, SplitText;
    var lines := SplitText(text);
    var entries: seq<Entry>, entry: Option<Entry>, last: Option<Kind> := [], None, None;
    assert lines[0..] == lines;
    for i := 0 to |lines|
      invariant OnLines(START, lines) == OnLines(State(entries, entry, last), lines[i..])
    {
      assert lines[i..][1..] == lines[i + 1..];
      var line := Strip(lines[i]);
      if line == [] {
        if entry.Some? {
          entries := entries + [entry.value];
          entry := None;
        }
        last := None;
      } else if line[0] != '#' {
        var found := Keyword(line);
        if found.Some? {
          if entry.None? {
            entry := Some(EMPTY);
          }
          entry := Some(Put(entry.value, found.value.kind, Decode(found.value.rest)));
          last := Some(found.value.kind);
        } else if line[0] == QUOTE {
          if entry.Some? && last.Some? {
            entry := Some(Extend(entry.value, last.value, Decode(line)));
          }
        } else {
          return None;
        }
      }
    }
    return Some(if entry.Some? then entries + [entry.value] else entries);
  }

  // ----- printing

  /** A field as printed: its value cut into one or more pieces. */
  datatype Field = Field(kind: Kind, pieces: seq<string>)

  predicate Printable(f: Field) { f.pieces != [] }

  function Decimal(n: nat): (s: string)
    ensures s != [] && forall i | 0 <= i < |s| :: '0' <= s[i] <= '9'
  {
    var digit := (n % 10 + '0' as nat) as char;
    if n < 10 then [digit] else Decimal(n / 10) + [digit]
  }

  function KeywordText(kind: Kind): string
  {
    match kind
    case Context => "msgctxt "
    case Id => "msgid "
    case Plural => "msgid_plural "
    case Str => "msgstr "
    case Form(n) => "msgstr[" + Decimal(n) + "] "
  }

  function Continued(pieces: seq<string>): (lines: seq<string>)
    ensures |lines| == |pieces|
  {
    if pieces == [] then [] else [Quoted(pieces[0])] + Continued(pieces[1..])
  }

  function FieldLines(f: Field): seq<string>
    requires Printable(f)
  {
    [KeywordText(f.kind) + Quoted(f.pieces[0])] + Continued(f.pieces[1..])
  }

  function Whole(pieces: seq<string>): string
  {
    if pieces == [] then [] else pieces[0] + Whole(pieces[1..])
  }

  /** An entry's fields, in any order, and the blank line after them. */
  function EntryLines(fields: seq<Field>): seq<string>
    requires forall i | 0 <= i < |fields| :: Printable(fields[i])
  {
    if fields == [] then [""] else FieldLines(fields[0]) + EntryLines(fields[1..])
  }

  function EntryFrom(e: Entry, fields: seq<Field>): Entry
    decreases |fields|
  {
    if fields == [] then e else EntryFrom(Put(e, fields[0].kind, Whole(fields[0].pieces)), fields[1..])
  }

  // ----- reading a keyword line

  lemma {:induction false} DecimalValue(n: nat)
    ensures Value(Decimal(n)) == n
  {
    if n >= 10 {
      DecimalValue(n / 10);
      var s := Decimal(n);
      assert s[..|s| - 1] == Decimal(n / 10);
    } else {
      assert Decimal(n)[..0] == [];
    }
  }

  lemma {:induction false} DigitsThenBracket(digits: string, rest: string)
    requires forall i | 0 <= i < |digits| :: '0' <= digits[i] <= '9'
    ensures DigitsIn(digits + "]" + rest) == |digits|
  {
    if digits != [] {
      assert (digits + "]" + rest)[1..] == digits[1..] + "]" + rest;
      DigitsThenBracket(digits[1..], rest);
    } else {
      assert digits + "]" + rest == "]" + rest;
    }
  }

  lemma OneSpace(rest: string)
    requires rest != [] && !IsSpace(rest[0])
    ensures SkipSpaces(" " + rest) == rest
  {
    assert (" " + rest)[1..] == rest;
  }

  lemma IndexedForm(n: nat, rest: string)
    requires rest != [] && !IsSpace(rest[0])
    ensures Indexed(Str, "[" + Decimal(n) + "] " + rest) == Match(Form(n), rest)
  {
    hide SkipSpaces, DigitsIn, Decimal;
    var digits := Decimal(n);
    var tail := "[" + digits + "] " + rest;
    assert tail[1..] == digits + "]" + (" " + rest);
    DigitsThenBracket(digits, " " + rest);
    assert tail[1..|digits| + 1] == digits && tail[|digits| + 1] == ']' && tail[|digits| + 2..] == " " + rest;
    DecimalValue(n);
    OneSpace(rest);
  }

  lemma IndexedPlain(kind: Kind, rest: string)
    requires rest != [] && !IsSpace(rest[0])
    ensures Indexed(kind, " " + rest) == Match(kind, rest)
  {
    hide SkipSpaces;
    OneSpace(rest);
  }

  lemma ContextRead(rest: string)
    ensures Keyword("msgctxt " + rest) == Some(Indexed(Context, " " + rest))
  {
    hide Indexed;
    var line := "msgctxt " + rest;
    assert line[3] == 'c' && line[7..] == " " + rest;
    assert line[..7] == "msgctxt";
  }

  lemma IdRead(rest: string)
    ensures Keyword("msgid " + rest) == Some(Indexed(Id, " " + rest))
  {
    hide Indexed;
    var line := "msgid " + rest;
    assert line[3] == 'i' && line[5] == ' ' && line[5..] == " " + rest;
    assert line[..5] == "msgid";
  }

  lemma PluralRead(rest: string)
    ensures Keyword("msgid_plural " + rest) == Some(Indexed(Plural, " " + rest))
  {
    hide Indexed;
    var line := "msgid_plural " + rest;
    assert line[12..] == " " + rest;
    assert line[..12] == "msgid_plural";
  }

  lemma StrRead(tail: string)
    ensures Keyword("msgstr" + tail) == Some(Indexed(Str, tail))
  {
    hide Indexed;
    var line := "msgstr" + tail;
    assert line[3] == 's' && line[6..] == tail;
    assert line[..6] == "msgstr";
  }

  /** A printed keyword line is read as its kind and its value. */
  lemma KeywordRead(kind: Kind, rest: string)
    requires rest != [] && !IsSpace(rest[0])
    ensures Keyword(KeywordText(kind) + rest) == Some(Match(kind, rest))
  {
    hide Indexed, Decimal, Keyword;
    match kind
    case Context =>
      ContextRead(rest);
      IndexedPlain(kind, rest);
    case Id =>
      IdRead(rest);
      IndexedPlain(kind, rest);
    case Plural =>
      PluralRead(rest);
      IndexedPlain(kind, rest);
    case Str =>
      assert KeywordText(kind) + rest == "msgstr" + (" " + rest);
      StrRead(" " + rest);
      IndexedPlain(kind, rest);
    case Form(n) =>
      assert KeywordText(kind) + rest == "msgstr" + ("[" + Decimal(n) + "] " + rest);
      StrRead("[" + Decimal(n) + "] " + rest);
      IndexedForm(n, rest);
  }

  lemma KeywordTrim(kind: Kind, s: string)
    ensures var line := KeywordText(kind) + Quoted(s); Trim(line) && line[0] == 'm'
  {
    hide Quoted, Decimal;
    DecodeQuoted(s);
    var q, line := Quoted(s), KeywordText(kind) + Quoted(s);
    assert line[|line| - 1] == q[|q| - 1] && line[0] == 'm';
  }

  lemma NoKeyword(line: string)
    requires line != [] && line[0] == QUOTE
    ensures Keyword(line) == None
  {
  }

  // ----- fields and entries

  lemma FirstLine(s: State, f: Field)
    requires Printable(f)
    ensures OnLine(s, FieldLines(f)[0]) ==
            Some(State(s.entries, Some(Put(if s.entry.Some? then s.entry.value else EMPTY, f.kind, f.pieces[0])), Some(f.kind)))
  {
    hide Quoted, Keyword, KeywordText, Decode, Put;
    KeywordTrim(f.kind, f.pieces[0]);
    DecodeQuoted(f.pieces[0]);
    KeywordRead(f.kind, Quoted(f.pieces[0]));
  }

  lemma NextLine(s: State, piece: string)
    requires s.entry.Some? && s.last.Some?
    ensures OnLine(s, Quoted(piece)) == Some(s.(entry := Some(Extend(s.entry.value, s.last.value, piece))))
  {
    hide Quoted, Keyword, Decode, Extend;
    DecodeQuoted(piece);
    NoKeyword(Quoted(piece));
  }

  lemma GrowTwice(held: Option<string>, a: string, b: string)
    ensures Grow(Grow(held, a), b) == Grow(held, a + b)
  {
    if held.Some? {
      assert held.value + a + b == held.value + (a + b);
    } else {
      assert [] + a + b == [] + (a + b);
    }
  }

  lemma PutThenExtend(e: Entry, kind: Kind, a: string, b: string)
    ensures Extend(Put(e, kind, a), kind, b) == Put(e, kind, a + b)
  {
    match kind
    case Context => GrowTwice(e.context, a, b);
    case Id => GrowTwice(e.msgid, a, b);
    case Plural => GrowTwice(e.plural, a, b);
    case Str =>
    case Form(n) =>
  }

  lemma LinesStep(s: State, line: string, more: seq<string>)
    requires OnLine(s, line).Some?
    ensures OnLines(s, [line] + more) == OnLines(OnLine(s, line).value, more)
  {
    hide OnLine;
    assert ([line] + more)[1..] == more;
  }

  /** Continuation lines grow the field the keyword line began. */
  lemma {:induction false} Continues(entries: seq<Entry>, e: Entry, kind: Kind, begun: string, pieces: seq<string>, more: seq<string>)
    ensures OnLines(State(entries, Some(Put(e, kind, begun)), Some(kind)), Continued(pieces) + more) ==
            OnLines(State(entries, Some(Put(e, kind, begun + Whole(pieces))), Some(kind)), more)
    decreases |pieces|
  {
    hide OnLine, OnLines, Quoted, Put, Extend;
    if pieces == [] {
      assert begun + Whole(pieces) == begun;
      assert Continued(pieces) + more == more;
    } else {
      var s := State(entries, Some(Put(e, kind, begun)), Some(kind));
      NextLine(s, pieces[0]);
      PutThenExtend(e, kind, begun, pieces[0]);
      Continues(entries, e, kind, begun + pieces[0], pieces[1..], more);
      assert Continued(pieces) + more == [Quoted(pieces[0])] + (Continued(pieces[1..]) + more);
      LinesStep(s, Quoted(pieces[0]), Continued(pieces[1..]) + more);
      assert begun + pieces[0] + Whole(pieces[1..]) == begun + Whole(pieces);
    }
  }

  lemma FieldRead(s: State, f: Field, more: seq<string>)
    requires Printable(f)
    ensures OnLines(s, FieldLines(f) + more) ==
            OnLines(State(s.entries, Some(Put(if s.entry.Some? then s.entry.value else EMPTY, f.kind, Whole(f.pieces))), Some(f.kind)), more)
  {
    hide OnLine, Put, Quoted, KeywordText;
    var e := if s.entry.Some? then s.entry.value else EMPTY;
    FirstLine(s, f);
    var lines := FieldLines(f) + more;
    assert lines[0] == FieldLines(f)[0] && lines[1..] == Continued(f.pieces[1..]) + more;
    Continues(s.entries, e, f.kind, f.pieces[0], f.pieces[1..], more);
  }

  lemma BlankLine(s: State)
    ensures OnLine(s, "") == Some(State(Closed(s), None, None))
  {
  }

  lemma {:induction false} EntryRead(entries: seq<Entry>, e: Entry, last: Option<Kind>, fields: seq<Field>, more: seq<string>)
    requires forall i | 0 <= i < |fields| :: Printable(fields[i])
    ensures OnLines(State(entries, Some(e), last), EntryLines(fields) + more) ==
            OnLines(State(entries + [EntryFrom(e, fields)], None, None), more)
    decreases |fields|
  {
    hide OnLine, Put, FieldLines;
    if fields == [] {
      BlankLine(State(entries, Some(e), last));
      assert ([""] + more)[1..] == more;
    } else {
      var f := fields[0];
      assert EntryLines(fields) + more == FieldLines(f) + (EntryLines(fields[1..]) + more);
      FieldRead(State(entries, Some(e), last), f, EntryLines(fields[1..]) + more);
      EntryRead(entries, Put(e, f.kind, Whole(f.pieces)), Some(f.kind), fields[1..], more);
    }
  }

  /** Entries as printed: each of some fields, each field of some pieces. */
  ghost predicate Printed(es: seq<seq<Field>>)
  {
    forall i | 0 <= i < |es| :: es[i] != [] && forall j | 0 <= j < |es[i]| :: Printable(es[i][j])
  }

  function CatalogueLines(es: seq<seq<Field>>): seq<string>
    requires Printed(es)
  {
    if es == [] then [] else EntryLines(es[0]) + CatalogueLines(es[1..])
  }

  function EntriesOf(es: seq<seq<Field>>): (r: seq<Entry>)
    ensures |r| == |es| && forall i | 0 <= i < |r| :: r[i] == EntryFrom(EMPTY, es[i])
  {
    seq(|es|, i requires 0 <= i < |es| => EntryFrom(EMPTY, es[i]))
  }

  lemma {:induction false} CatalogueReadFrom(entries: seq<Entry>, es: seq<seq<Field>>)
    requires Printed(es)
    ensures OnLines(State(entries, None, None), CatalogueLines(es)) == Some(State(entries + EntriesOf(es), None, None))
    decreases |es|
  {
    hide OnLine, Put, FieldLines, EntryFrom, EntryLines;
    if es == [] {
      assert entries + EntriesOf(es) == entries;
    } else {
      FirstEntry(entries, es[0], CatalogueLines(es[1..]));
      CatalogueReadFrom(entries + [EntryFrom(EMPTY, es[0])], es[1..]);
      assert entries + EntriesOf(es) == entries + [EntryFrom(EMPTY, es[0])] + EntriesOf(es[1..]);
    }
  }

  lemma FirstEntry(entries: seq<Entry>, fields: seq<Field>, more: seq<string>)
    requires fields != [] && forall i | 0 <= i < |fields| :: Printable(fields[i])
    ensures OnLines(State(entries, None, None), EntryLines(fields) + more) ==
            OnLines(State(entries + [EntryFrom(EMPTY, fields)], None, None), more)
  {
    hide OnLine, Put, FieldLines;
    var f := fields[0];
    assert EntryLines(fields) + more == FieldLines(f) + (EntryLines(fields[1..]) + more);
    FieldRead(State(entries, None, None), f, EntryLines(fields[1..]) + more);
    EntryRead(entries, Put(EMPTY, f.kind, Whole(f.pieces)), Some(f.kind), fields[1..], more);
  }

  /** The lines of printed entries, read one by one, are the entries. */
  lemma LinesRoundTrip(es: seq<seq<Field>>)
    requires Printed(es)
    ensures ParsedLines(CatalogueLines(es)) == Some(EntriesOf(es))
  {
    hide OnLines, CatalogueLines, EntriesOf;
    CatalogueReadFrom([], es);
    assert [] + EntriesOf(es) == EntriesOf(es);
  }

  // ----- every field is its own

  function Get(e: Entry, kind: Kind): Option<string>
  {
    match kind
    case Context => e.context
    case Id => e.msgid
    case Plural => e.plural
    case Str => e.msgstr
    case Form(n) => if n in e.forms then Some(e.forms[n]) else None
  }

  lemma GetPut(e: Entry, kind: Kind, value: string, k: Kind)
    ensures k != kind ==> Get(Put(e, kind, value), k) == Get(e, k)
    ensures Get(e, kind) == None ==> Get(Put(e, kind, value), kind) == Some(value)
  {
    assert [] + value == value;
  }

  /** An entry printed from fields of different kinds has each of them, and nothing else. */
  lemma {:induction false} FieldsComeBack(e: Entry, fields: seq<Field>, kind: Kind)
    requires forall i, j | 0 <= i < j < |fields| :: fields[i].kind != fields[j].kind
    requires forall i | 0 <= i < |fields| :: Get(e, fields[i].kind) == None
    ensures forall i | 0 <= i < |fields| && fields[i].kind == kind :: Get(EntryFrom(e, fields), kind) == Some(Whole(fields[i].pieces))
    ensures (forall i | 0 <= i < |fields| :: fields[i].kind != kind) ==> Get(EntryFrom(e, fields), kind) == Get(e, kind)
    decreases |fields|
  {
    hide Get, Put;
    if fields != [] {
      var f := fields[0];
      var put := Put(e, f.kind, Whole(f.pieces));
      forall i | 0 <= i < |fields[1..]| ensures Get(put, fields[1..][i].kind) == None {
        GetPut(e, f.kind, Whole(f.pieces), fields[1..][i].kind);
      }
      GetPut(e, f.kind, Whole(f.pieces), kind);
      FieldsComeBack(put, fields[1..], kind);
    }
  }

  // ----- the printed text

  /** The file: the lines with a newline behind each. */
  function PrintedText(es: seq<seq<Field>>): string
    requires Printed(es)
  {
    Lined(CatalogueLines(es))
  }

  ghost predicate UnbrokenField(f: Field)
  {
    forall k | 0 <= k < |f.pieces| :: Unbroken(f.pieces[k])
  }

  /** No printed value holds a line break that is printed as itself. */
  ghost predicate UnbrokenFields(es: seq<seq<Field>>)
  {
    forall i, j | 0 <= i < |es| && 0 <= j < |es[i]| :: UnbrokenField(es[i][j])
  }

  ghost predicate OneEach(lines: seq<string>)
  {
    forall i | 0 <= i < |lines| :: NoBreak(lines[i])
  }

  lemma {:induction false} ContinuedOneEach(pieces: seq<string>)
    requires forall k | 0 <= k < |pieces| :: Unbroken(pieces[k])
    ensures OneEach(Continued(pieces))
  {
    hide Quoted, Unbroken;
    if pieces != [] {
      QuotedUnbroken(pieces[0]);
      ContinuedOneEach(pieces[1..]);
    }
  }

  lemma KeywordOneLine(kind: Kind)
    ensures NoBreak(KeywordText(kind))
  {
    hide Decimal;
  }

  lemma FieldOneEach(f: Field)
    requires Printable(f) && UnbrokenField(f)
    ensures OneEach(FieldLines(f))
  {
    hide Quoted, KeywordText, Unbroken, Continued;
    QuotedUnbroken(f.pieces[0]);
    KeywordOneLine(f.kind);
    ContinuedOneEach(f.pieces[1..]);
  }

  lemma {:induction false} EntryOneEach(fields: seq<Field>)
    requires forall j | 0 <= j < |fields| :: Printable(fields[j]) && UnbrokenField(fields[j])
    ensures OneEach(EntryLines(fields))
  {
    hide FieldLines, UnbrokenField;
    if fields != [] {
      FieldOneEach(fields[0]);
      EntryOneEach(fields[1..]);
    }
  }

  lemma {:induction false} CatalogueOneEach(es: seq<seq<Field>>)
    requires Printed(es) && UnbrokenFields(es)
    ensures OneEach(CatalogueLines(es))
  {
    hide EntryLines, UnbrokenField;
    if es != [] {
      EntryOneEach(es[0]);
      CatalogueOneEach(es[1..]);
    }
  }

  // ----- what no parsed entry holds

  ghost predicate UnbrokenEntry(e: Entry)
  {
    forall kind :: Get(e, kind).Some? ==> Unbroken(Get(e, kind).value)
  }

  ghost predicate UnbrokenState(s: State)
  {
    && (forall i | 0 <= i < |s.entries| :: UnbrokenEntry(s.entries[i]))
    && (s.entry.Some? ==> UnbrokenEntry(s.entry.value))
  }

  /** What a line does to a field: it is set, or it grows. */
  lemma PutGets(e: Entry, kind: Kind, value: string)
    ensures Get(Put(e, kind, value), kind) == if Grows(kind) then Grow(Get(e, kind), value) else Some(value)
    ensures Get(Extend(e, kind, value), kind) == Grow(Get(e, kind), value)
    ensures forall k | k != kind :: Get(Put(e, kind, value), k) == Get(e, k) && Get(Extend(e, kind, value), k) == Get(e, k)
  {
  }

  /** The fields that a second keyword line adds to; the others it sets anew. */
  predicate Grows(kind: Kind) { kind == Context || kind == Id || kind == Plural }

  lemma GrowUnbroken(held: Option<string>, value: string)
    ensures Grow(held, value).Some?
    ensures Unbroken(Grow(held, value).value) <==> (held.Some? ==> Unbroken(held.value)) && Unbroken(value)
  {
    if held.Some? {
      var a, b := held.value, value;
      assert forall i | 0 <= i < |a| :: (a + b)[i] == a[i];
      assert forall i | 0 <= i < |b| :: (a + b)[|a| + i] == b[i];
    } else {
      assert [] + value == value;
    }
  }

  lemma PutUnbroken(e: Entry, kind: Kind, value: string)
    requires UnbrokenEntry(e) && Unbroken(value)
    ensures UnbrokenEntry(Put(e, kind, value)) && UnbrokenEntry(Extend(e, kind, value))
  {
    hide Get, Put, Extend, Grow, Unbroken;
    PutGets(e, kind, value);
    GrowUnbroken(Get(e, kind), value);
  }

  lemma {:induction false} SkipUnbroken(s: string)
    requires Unbroken(s)
    ensures Unbroken(SkipSpaces(s))
  {
    hide IsSpace;
    if s != [] && IsSpace(s[0]) {
      SkipUnbroken(s[1..]);
    }
  }

  lemma KeywordUnbroken(line: string)
    requires Unbroken(line) && Keyword(line).Some?
    ensures Unbroken(Keyword(line).value.rest)
  {
    hide SkipSpaces, DigitsIn, Value, RawBreak;
    forall i | 0 <= i <= |line| ensures Unbroken(SkipSpaces(line[i..])) {
      SkipUnbroken(line[i..]);
    }
    forall i: nat, n: nat | i + n <= |line| ensures Unbroken(SkipSpaces(line[i..][n..])) {
      assert line[i..][n..] == line[i + n..];
    }
  }

  lemma LineUnbroken(s: State, raw: string)
    requires UnbrokenState(s) && Unbroken(raw) && OnLine(s, raw).Some?
    ensures UnbrokenState(OnLine(s, raw).value)
  {
    hide Strip, Keyword, Decode, Put, Extend, Unbroken, UnbrokenEntry;
    StripUnbroken(raw);
    var line := Strip(raw);
    if line != [] && line[0] != '#' {
      var m := Keyword(line);
      if m.Some? {
        KeywordUnbroken(line);
        DecodeUnbroken(m.value.rest);
        NothingBroken();
        PutUnbroken(if s.entry.Some? then s.entry.value else EMPTY, m.value.kind, Decode(m.value.rest));
      } else if s.entry.Some? && s.last.Some? {
        DecodeUnbroken(line);
        PutUnbroken(s.entry.value, s.last.value, Decode(line));
      }
    }
  }

  lemma NothingBroken()
    ensures UnbrokenEntry(EMPTY)
  {
  }

  lemma {:induction false} LinesUnbroken(s: State, lines: seq<string>)
    requires UnbrokenState(s) && OneEach(lines) && OnLines(s, lines).Some?
    ensures UnbrokenState(OnLines(s, lines).value)
    decreases |lines|
  {
    hide OnLine, UnbrokenState;
    if lines != [] {
      assert NoBreak(lines[0]) && Unbroken(lines[0]);
      LineUnbroken(s, lines[0]);
      LinesUnbroken(OnLine(s, lines[0]).value, lines[1..]);
    }
  }

  /** No entry that is read from a text holds one of those breaks. */
  lemma ParsedUnbroken(text: string)
    requires Parsed(text).Some?
    ensures forall i | 0 <= i < |Parsed(text).value| :: UnbrokenEntry(Parsed(text).value[i])
  {
    hide OnLines, SplitText, UnbrokenEntry;
    LinesUnbroken(START, SplitText(text));
  }

  // ----- where a printed entry holds one

  /** No field that is set is printed twice in an entry. */
  ghost predicate Once(fields: seq<Field>)
  {
    forall i, j | 0 <= i < j < |fields| :: fields[i].kind == fields[j].kind ==> Grows(fields[i].kind)
  }

  lemma {:induction false} WholeUnbroken(pieces: seq<string>)
    ensures Unbroken(Whole(pieces)) <==> forall k | 0 <= k < |pieces| :: Unbroken(pieces[k])
  {
    hide Unbroken;
    if pieces != [] {
      WholeUnbroken(pieces[1..]);
      GrowUnbroken(Some(pieces[0]), Whole(pieces[1..]));
      assert forall k | 0 < k < |pieces| :: pieces[k] == pieces[1..][k - 1];
    } else {
      EmptyUnbroken();
    }
  }

  lemma EmptyUnbroken()
    ensures Unbroken([])
  {
  }

  ghost predicate BrokenAt(e: Entry, kind: Kind)
  {
    Get(e, kind).Some? && !Unbroken(Get(e, kind).value)
  }

  lemma {:induction false} BrokenStays(e: Entry, fields: seq<Field>, kind: Kind)
    requires BrokenAt(e, kind) && (Grows(kind) || forall i | 0 <= i < |fields| :: fields[i].kind != kind)
    ensures BrokenAt(EntryFrom(e, fields), kind)
    decreases |fields|
  {
    hide Get, Put, Grow, Unbroken, Whole;
    if fields != [] {
      var value := Whole(fields[0].pieces);
      PutGets(e, fields[0].kind, value);
      GrowUnbroken(Get(e, kind), value);
      BrokenStays(Put(e, fields[0].kind, value), fields[1..], kind);
    }
  }

  lemma {:induction false} BrokenField(e: Entry, fields: seq<Field>, j: nat)
    requires Once(fields) && j < |fields| && !UnbrokenField(fields[j])
    ensures BrokenAt(EntryFrom(e, fields), fields[j].kind)
    decreases |fields|
  {
    hide Get, Put, Grow, Unbroken, Whole;
    var f := fields[0];
    var value := Whole(f.pieces);
    if j == 0 {
      PutGets(e, f.kind, value);
      WholeUnbroken(f.pieces);
      GrowUnbroken(Get(e, f.kind), value);
      BrokenStays(Put(e, f.kind, value), fields[1..], f.kind);
    } else {
      BrokenField(Put(e, f.kind, value), fields[1..], j - 1);
    }
  }

  /** Printing entries, each value cut into any pieces, and parsing the text gives the entries
      back exactly when no value holds a line break that is printed as itself. */
  lemma ParseRoundTripIff(es: seq<seq<Field>>)
    requires Printed(es) && forall i | 0 <= i < |es| :: Once(es[i])
    ensures Parsed(PrintedText(es)) == Some(EntriesOf(es)) <==> UnbrokenFields(es)
  {
    hide CatalogueLines, EntriesOf, ParsedLines, SplitText, UnbrokenEntry, UnbrokenField, Once, EntryFrom;
    if UnbrokenFields(es) {
      ParseRoundTrip(es);
    } else {
      var i, j :| 0 <= i < |es| && 0 <= j < |es[i]| && !UnbrokenField(es[i][j]);
      BrokenField(EMPTY, es[i], j);
      BrokenEntry(EntriesOf(es)[i], es[i][j].kind);
      if Parsed(PrintedText(es)) == Some(EntriesOf(es)) {
        ParsedUnbroken(PrintedText(es));
      }
    }
  }

  lemma BrokenEntry(e: Entry, kind: Kind)
    requires BrokenAt(e, kind)
    ensures !UnbrokenEntry(e)
  {
  }

  /** Where no value does, fields may even be printed twice. */
  lemma ParseRoundTrip(es: seq<seq<Field>>)
    requires Printed(es) && UnbrokenFields(es)
    ensures Parsed(PrintedText(es)) == Some(EntriesOf(es))
  {
    hide CatalogueLines, EntriesOf, ParsedLines, SplitText, UnbrokenFields;
    LinesRoundTrip(es);
    CatalogueOneEach(es);
    LinesComeBack(CatalogueLines(es));
  }

  // ----- a message with a line separator

  const CUT: seq<seq<Field>> := [[Field(Id, ["a\U{2028}b"])]]

  /** Its line is cut in two, and the parser gives up on the second. */
  lemma LineCut()
    ensures Printed(CUT) && Parsed(PrintedText(CUT)) == None
  {
    hide SplitText, Strip;
    var first, second := "msgid \"a", "b\"";
    CutText();
    assert PrintedText(CUT) == first + ['\U{2028}'] + (second + ['\n'] + ("" + ['\n'] + ""));
    SplitOne(first, '\U{2028}', second + ['\n'] + ("" + ['\n'] + ""));
    SplitOne(second, '\n', "" + ['\n'] + "");
    SplitOne("", '\n', "");
    NoLines();
    var lines := SplitText(PrintedText(CUT));
    assert lines == [first, second, ""];
    CutParsed(first, second, [""]);
    assert lines == [first] + ([second] + [""]);
  }

  lemma CutText()
    ensures Printed(CUT) && PrintedText(CUT) == "msgid \"a\U{2028}b\"\n\n"
  {
  }

  lemma CutParsed(first: string, second: string, more: seq<string>)
    requires second == "b\""
    ensures ParsedLines([first] + ([second] + more)) == None
  {
    hide OnLine;
    var lines := [first] + ([second] + more);
    assert lines[1..] == [second] + more;
    var s := OnLine(START, first);
    assert lines[0] == first;
    if s.Some? {
      GivesUp(s.value);
      assert ([second] + more)[0] == second;
      assert OnLines(s.value, [second] + more) == None;
    }
    assert OnLines(START, lines) == None;
  }

  lemma GivesUp(s: State)
    ensures OnLine(s, "b\"") == None
  {
    hide Keyword, Decode;
    CutKeyword();
    assert Strip("b\"") == "b\"";
  }

  lemma CutKeyword()
    ensures Keyword("b\"") == None
  {
  }
}
