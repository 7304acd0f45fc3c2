/** `ntranslate`: the form the header's expression picks for a count, from the printed catalogue to
    the program that asks. */
module CataloguePlurals {
  import opened Bytes
  import opened Utf8
  import opened CatalogueForms
  import opened CatalogueImage
  import opened CatalogueLookup
  import opened CatalogueCompiler
  import opened PluralExpression
  import opened PluralMeaning
  import opened PluralHeader
  import Parser = CatalogueParser

  // ----- picking a form

  /** A count as a signed 64-bit number. */
  function Signed64(n: nat): int { if n < 0x8000_0000_0000_0000 then n else n - TWO64 }

  /** A value as a signed 32-bit number. */
  function Signed32(value: int): int
  {
    var low := value % TWO32;
    if low < 0x8000_0000 then low else low - TWO32
  }

  /** A number that no form has is replaced by English's. */
  function Chosen(count: nat, value: int, n: nat): nat
  {
    var index := Signed32(value);
    if 0 <= index < count then index else if n == 1 then 0 else 1
  }

  function Index(s: Settings, n: nat): nat
  {
    var count := Signed64(n);
    Chosen(s.count, if s.expression == [] then Truth(count != 1) else Conditional(s.expression, 0, count).value, n)
  }

  /** `evaluate_plural` and the check of its answer. */
  method PickForm(s: Settings, n: nat) returns (index: nat)
    ensures index == Index(s, n)
  {
    hide Conditional;
    var count := Signed64(n);
    var value;
    if s.expression == [] {
      value := if count == 1 then 0 else 1;
    } else {
      var eval := new Evaluator(s.expression, count);
      value := eval.RunConditional();
    }
    var picked := Signed32(value);
    if picked < 0 || picked >= s.count {
      picked := if n == 1 then 0 else 1;
    }
    return picked;
  }

  function SettingsOf(tables: map<Slot, seq<byte>>): Settings
  {
    if HeaderSlot in tables then OnHeader(DEFAULT, tables[HeaderSlot], 0) else DEFAULT
  }

  /** `ntranslate`. */
  function TranslateCount(tables: map<Slot, seq<byte>>, msgid: seq<byte>, plural: seq<byte>, n: nat): seq<byte>
  {
    TranslateForm(tables, msgid, plural, n, Index(SettingsOf(tables), n))
  }

  // ----- from the printed file to the answer

  /** The text is the expression, written with any blanks. */
  ghost predicate Writes(text: seq<byte>, e: Expr)
  {
    exists end: nat :: end <= |text| && Stands(text, 0, Tokens(e, 0), end) && Skip(text, end) == |text|
  }

  /** The header's lines: one for the plural forms, the others about something else. */
  ghost predicate Heads(lines: seq<seq<byte>>, h: nat, count: nat, text: seq<byte>)
  {
    && h < |lines| && lines[h] == FormsLine(count, text) && count > 0 && Trimmed(text) == text
    && (forall j | 0 <= j < |lines| && j != h :: Other(lines[j]))
    && (forall j | 0 <= j < |lines| :: NEWLINE !in lines[j])
  }

  lemma WritesSomething(text: seq<byte>, e: Expr)
    requires Writes(text, e)
    ensures text != []
  {
    hide Skip, Tokens;
    var end: nat :| end <= |text| && Stands(text, 0, Tokens(e, 0), end) && Skip(text, end) == |text|;
    FirstToken(e, 0);
    OperandBegins(text, 0, Tokens(e, 0), end);
  }

  /** The form picked is the one the expression's value names. */
  lemma IndexIs(count: nat, text: seq<byte>, e: Expr, n: nat)
    requires Writes(text, e)
    ensures Index(Settings(count, text), n) == Chosen(count, Meaning(e, Signed64(n)), n)
  {
    hide Skip, Tokens, Conditional, Meaning, Stands, Chosen;
    WritesSomething(text, e);
    var end: nat :| end <= |text| && Stands(text, 0, Tokens(e, 0), end) && Skip(text, end) == |text|;
    Evaluates(text, e, Signed64(n), end);
  }

  /** Without a header line, one takes the first form and every other count the second. */
  lemma DefaultPicks(n: nat)
    requires n < TWO64
    ensures Index(DEFAULT, n) == if n == 1 then 0 else 1
  {
    hide Skip, Tokens, Conditional;
    var text, e := DEFAULT.expression, Group(Bin(Ne, N, Num(1)));
    DefaultStands(text, e);
    assert Writes(text, e);
    IndexIs(2, text, e, n);
    DefaultMeans(e, Signed64(n));
  }

  lemma DefaultStands(text: seq<byte>, e: Expr)
    requires text == DEFAULT.expression && e == Group(Bin(Ne, N, Num(1)))
    ensures Stands(text, 0, Tokens(e, 0), 8) && Skip(text, 8) == |text| == 8
  {
    hide Skip, Stands, Tokens;
    DefaultTokens(e);
    DefaultSkips(text);
    assert Stands(text, 8, [], 8) by { StandsNone(text, 8); }
    var a, b := [[CLOSE]] + [], [[49]] + ([[CLOSE]] + []);
    var c := [[BANG, EQUALS]] + b;
    StandsOn(text, 7, [CLOSE], [], 8);
    StandsOn(text, 5, [49], a, 8);
    StandsOn(text, 2, [BANG, EQUALS], b, 8);
    StandsOn(text, 1, [LETTER_N], c, 8);
    StandsOn(text, 0, [OPEN], [[LETTER_N]] + c, 8);
    assert [[LETTER_N]] + c == [[LETTER_N], [BANG, EQUALS], [49], [CLOSE]];
  }

  lemma DefaultMeans(e: Expr, n: int)
    requires e == Group(Bin(Ne, N, Num(1)))
    ensures Meaning(e, n) == Truth(n != 1)
  {
    assert Meaning(N, n) == n && Meaning(Num(1), n) == 1;
  }

  lemma DefaultTokens(e: Expr)
    requires e == Group(Bin(Ne, N, Num(1)))
    ensures Tokens(e, 0) == [[OPEN]] + [[LETTER_N], [BANG, EQUALS], [49], [CLOSE]]
  {
    assert Decimal(1) == [49];
    assert Tokens(N, 3) == [[LETTER_N]] && Tokens(Num(1), 4) == [[49]];
    assert Bare(e.inner) == [[LETTER_N], [BANG, EQUALS], [49]];
  }

  lemma DefaultSkips(text: seq<byte>)
    requires text == DEFAULT.expression
    ensures |text| == 8 && Skip(text, 0) == 0 && Skip(text, 1) == 1 && Skip(text, 2) == 3 && Skip(text, 5) == 6
    ensures Skip(text, 7) == 7 && Skip(text, 8) == 8
  {
  }

  lemma StandsNone(text: seq<byte>, at: nat)
    requires at <= |text|
    ensures Stands(text, at, [], at)
  {
  }

  lemma StandsOn(text: seq<byte>, at: nat, t: seq<byte>, rest: seq<seq<byte>>, end: nat)
    requires at <= |text| && Has(text, Skip(text, at), t) && Stands(text, Skip(text, at) + |t|, rest, end)
    ensures Stands(text, at, [t] + rest, end)
  {
    assert ([t] + rest)[1..] == rest;
  }

  lemma HeaderServed(es: seq<seq<Parser.Field>>, tables: map<Slot, seq<byte>>, lines: seq<seq<byte>>, h: nat, count: nat, text: seq<byte>)
    requires Printed(es) && Compilable(Parser.EntriesOf(es)) && Loaded(Parser.PrintedText(es), tables)
    requires Heads(lines, h, count, text) && Encode(TranslatedOf(Parser.EntriesOf(es)[0])) == Lines(lines)
    ensures SettingsOf(tables) == Settings(count, text)
  {
    hide Parser.PrintedText, Parser.EntriesOf, Encodes, Compiled, CatalogueLookup.Parsed, Loaded, TranslatedOf, Encode,
         Lines, OnHeader, FormsLine, Other, Trimmed, ProperEntries;
    var e := Parser.EntriesOf(es)[0];
    EntryServed(es, tables, HeaderSlot);
    HeaderEntry(e);
    HeaderRead(lines, h, count, text);
  }

  lemma HeaderEntry(e: Entry)
    requires OriginalOf(e) == ""
    ensures SlotFor(RecordOf(e)) == HeaderSlot
  {
    hide TranslatedOf;
    assert e.context.None? && e.plural.None?;
  }

  /** What a plural entry answers for form `k`: that form if there is one and it is not empty, or
      else the message for one and its plural for others. */
  ghost function Answer(e: Entry, k: nat, n: nat): string
  {
    if k < |FormList(e)| && FormList(e)[k] != "" then FormList(e)[k] else if n == 1 then Text(e.msgid) else Text(e.plural)
  }

  /** A catalogue printed from entries, its header with a line for the plural forms written from any
      C expression, compiled, loaded and asked for a count: the answer is the form whose place among
      the entry's forms is the expression's value. */
  lemma PluralsEndToEnd(es: seq<seq<Parser.Field>>, tables: map<Slot, seq<byte>>, lines: seq<seq<byte>>, h: nat, count: nat,
                        text: seq<byte>, e: Expr, i: nat, n: nat)
    requires Printed(es) && Compilable(Parser.EntriesOf(es)) && Loaded(Parser.PrintedText(es), tables)
    requires Heads(lines, h, count, text) && Encode(TranslatedOf(Parser.EntriesOf(es)[0])) == Lines(lines) && Writes(text, e)
    requires i < |es| && Parser.EntriesOf(es)[i].context.None? && Parser.EntriesOf(es)[i].plural.Some?
    requires var forms := FormList(Parser.EntriesOf(es)[i]); forall j | 0 <= j < |forms| :: NUL_CHAR !in forms[j]
    ensures var entry := Parser.EntriesOf(es)[i];
            TranslateCount(tables, Encode(Text(entry.msgid)), Encode(Text(entry.plural)), n) ==
            Encode(Answer(entry, Chosen(count, Meaning(e, Signed64(n)), n), n))
  {
    hide Parser.PrintedText, Parser.EntriesOf, Encodes, Compiled, CatalogueLookup.Parsed, Compilable, Loaded, TranslatedOf, Encode,
         FieldFrom, Heads, Writes, Lines, Index, Chosen, Meaning, SettingsOf, FormList;
    var entry, k := Parser.EntriesOf(es)[i], Chosen(count, Meaning(e, Signed64(n)), n);
    HeaderServed(es, tables, lines, h, count, text);
    IndexIs(count, text, e, n);
    EntryServed(es, tables, SlotFor(RecordOf(entry)));
    FormsRead(entry, k);
    if k < |FormList(entry)| {
      SomethingEncoded(FormList(entry)[k]);
    }
  }

  /** For counts and values of ordinary size: the expression's value, as C has it, names the form,
      and where it is no form's number, one takes the first and other counts the second. */
  lemma PluralAnswers(es: seq<seq<Parser.Field>>, tables: map<Slot, seq<byte>>, lines: seq<seq<byte>>, h: nat, count: nat,
                      text: seq<byte>, e: Expr, i: nat, n: nat, v: int)
    requires Printed(es) && Compilable(Parser.EntriesOf(es)) && Loaded(Parser.PrintedText(es), tables)
    requires Heads(lines, h, count, text) && Encode(TranslatedOf(Parser.EntriesOf(es)[0])) == Lines(lines) && Writes(text, e)
    requires i < |es| && Parser.EntriesOf(es)[i].context.None? && Parser.EntriesOf(es)[i].plural.Some?
    requires var forms := FormList(Parser.EntriesOf(es)[i]); forall j | 0 <= j < |forms| :: NUL_CHAR !in forms[j]
    requires n < 0x8000_0000_0000_0000 && Means(e, n, v) && -0x8000_0000 <= v < 0x8000_0000
    ensures var entry := Parser.EntriesOf(es)[i];
            TranslateCount(tables, Encode(Text(entry.msgid)), Encode(Text(entry.plural)), n) ==
            Encode(Answer(entry, if 0 <= v < count then v else if n == 1 then 0 else 1, n))
  {
    hide Parser.PrintedText, Parser.EntriesOf, Compilable, Loaded, TranslatedOf, Encode, Heads, Writes, Lines, Meaning, Means,
         FormList, Answer, TranslateCount;
    PluralsEndToEnd(es, tables, lines, h, count, text, e, i, n);
    MeaningIs(e, n, v);
    ChosenIs(count, v, n);
  }

  lemma ChosenIs(count: nat, v: int, n: nat)
    requires -0x8000_0000 <= v < 0x8000_0000
    ensures Chosen(count, v, n) == if 0 <= v < count then v else if n == 1 then 0 else 1
  {
  }

  /** So a form that is like no other text of the entry is the answer to its own number exactly when
      no lower number is missing. */
  lemma FormAnsweredIff(entry: Entry, k: nat, n: nat)
    requires k in entry.forms && entry.forms[k] != "" && forall j | j in entry.forms && j != k :: entry.forms[j] != entry.forms[k]
    requires entry.forms[k] != Text(entry.msgid) && entry.forms[k] != Text(entry.plural)
    ensures Encode(Answer(entry, k, n)) == Encode(entry.forms[k]) <==> forall j | 0 <= j < k :: j in entry.forms
  {
    hide Encode, FormsTo, Rank;
    var limit := Limit(entry.forms.Keys);
    assert k in entry.forms.Keys;
    RankIsIndexIff(entry.forms, k);
    RankedForm(entry.forms, k, limit);
    if k < |FormList(entry)| {
      var j := FormsFrom(entry.forms, limit, k);
    }
    if Encode(Answer(entry, k, n)) == Encode(entry.forms[k]) {
      EncodeInjective(Answer(entry, k, n), entry.forms[k]);
    }
  }
}
