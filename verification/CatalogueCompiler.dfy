/** The catalogue compiler from the printed file to the reader: `original_of`, `translated_of` and
    `emit`, and what a program that loads the image is given for each entry. */
module CatalogueCompiler {
  import opened Bytes
  import opened Utf8
  import opened CatalogueForms
  import opened CatalogueImage
  import opened CatalogueLookup
  import Parser = CatalogueParser

  type Entry = Parser.Entry

  const NUL_CHAR: char := '\0'
  const EOT_CHAR: char := 4 as char

  // ----- original_of

  function Text(s: Option<string>): string { if s.Some? then s.value else "" }

  /** `original_of`. */
  function OriginalOf(e: Entry): string
  {
    if e.context.Some? then
      e.context.value + [EOT_CHAR] + Text(e.msgid) + (if e.plural.Some? then [NUL_CHAR] + e.plural.value else "")
    else if e.plural.Some? then Text(e.msgid) + [NUL_CHAR] + e.plural.value
    else Text(e.msgid)
  }

  // ----- translated_of

  function JoinedText(forms: seq<string>): string
  {
    if forms == [] then [] else if |forms| == 1 then forms[0] else forms[0] + [NUL_CHAR] + JoinedText(forms[1..])
  }

  /** A number above every index. */
  ghost function Limit(indices: set<nat>): (n: nat)
    ensures forall k | k in indices :: k < n
  {
    if indices == {} then 0
    else
      var k :| k in indices;
      var n := Limit(indices - {k});
      assert forall j | j in indices :: j == k || j in indices - {k};
      if n > k then n else k + 1
  }

  /** `translated_of`: the forms by index, or the translation, or nothing. */
  ghost function TranslatedOf(e: Entry): string
  {
    if e.forms != map[] then JoinedText(FormsTo(e.forms, Limit(e.forms.Keys))) else Text(e.msgstr)
  }

  lemma {:induction false} FormsStable<T>(forms: map<nat, T>, n: nat, m: nat)
    requires n <= m && forall k | k in forms :: k < n
    ensures FormsTo(forms, m) == FormsTo(forms, n)
    decreases m
  {
    if n < m {
      FormsStable(forms, n, m - 1);
    }
  }

  lemma AnyLimit<T>(forms: map<nat, T>, n: nat)
    requires forall k | k in forms :: k < n
    ensures FormsTo(forms, n) == FormsTo(forms, Limit(forms.Keys))
  {
    var limit := Limit(forms.Keys);
    assert forall k | k in forms :: k in forms.Keys;
    if n <= limit {
      FormsStable(forms, n, limit);
    } else {
      FormsStable(forms, limit, n);
    }
  }

  lemma JoinedTextLast(forms: seq<string>, form: string)
    requires forms != []
    ensures JoinedText(forms + [form]) == JoinedText(forms) + [NUL_CHAR] + form
    decreases |forms|
  {
    assert (forms + [form])[1..] == forms[1..] + [form];
    if |forms| > 1 {
      JoinedTextLast(forms[1..], form);
    } else {
      assert forms[1..] + [form] == [form];
    }
  }

  /** The forms in index order, joined. */
  method TranslateEntry(e: Entry) returns (text: string)
    ensures text == TranslatedOf(e)
  {
    if e.forms == map[] {
      return if e.msgstr.Some? then e.msgstr.value else "";
    }
    var rest, limit: nat := e.forms.Keys, 0;
    while rest != {}
      invariant rest <= e.forms.Keys && forall k | k in e.forms && k !in rest :: k < limit
      decreases rest
    {
      var k :| k in rest;
      rest := rest - {k};
      limit := if k < limit then limit else k + 1;
    }
    AnyLimit(e.forms, limit);
    text := "";
    var first := true;
    for i := 0 to limit
      invariant first <==> FormsTo(e.forms, i) == []
      invariant text == JoinedText(FormsTo(e.forms, i))
    {
      assert FormsTo(e.forms, i) + [] == FormsTo(e.forms, i);
      if i in e.forms {
        if first {
          assert FormsTo(e.forms, i + 1) == [e.forms[i]];
          text := e.forms[i];
          first := false;
        } else {
          JoinedTextLast(FormsTo(e.forms, i), e.forms[i]);
          text := text + [NUL_CHAR] + e.forms[i];
        }
      }
    }
  }

  // ----- the bytes of an entry

  function EncodeText(s: Option<string>): Option<seq<byte>>
  {
    if s.Some? then Some(Encode(s.value)) else None
  }

  ghost function RecordOf(e: Entry): Record
  {
    Record(EncodeText(e.context), Encode(Text(e.msgid)), EncodeText(e.plural), Encode(TranslatedOf(e)))
  }

  lemma Separators()
    ensures Encode([NUL_CHAR]) == [NUL] && Encode([EOT_CHAR]) == [EOT]
  {
    EncodeOne(NUL_CHAR);
    EncodeOne(EOT_CHAR);
  }

  /** Encoding an entry's original joins the encodings of its parts. */
  lemma OriginalEncodes(e: Entry)
    ensures Encode(OriginalOf(e)) == Original(RecordOf(e))
  {
    hide Encode;
    Separators();
    var msgid, tail := Text(e.msgid), if e.plural.Some? then [NUL_CHAR] + e.plural.value else "";
    NothingEncoded();
    if e.plural.Some? {
      EncodeAppend([NUL_CHAR], e.plural.value);
    }
    EncodeAppend(msgid, tail);
    if e.context.Some? {
      EncodeAppend(e.context.value, [EOT_CHAR]);
      EncodeAppend(e.context.value + [EOT_CHAR], msgid);
      EncodeAppend(e.context.value + [EOT_CHAR] + msgid, tail);
    } else {
      assert OriginalOf(e) == msgid + tail;
    }
  }

  lemma NothingEncoded()
    ensures Encode("") == []
  {
  }

  /** The pairs `emit` hands to `build_mo`. */
  ghost function PairsFrom(entries: seq<Entry>): (ps: seq<Pair>)
    ensures |ps| == |entries|
  {
    seq(|entries|, i requires 0 <= i < |entries| => Pair(Encode(OriginalOf(entries[i])), Encode(TranslatedOf(entries[i]))))
  }

  ghost function RecordsOf(entries: seq<Entry>): (es: seq<Record>)
    ensures |es| == |entries| && forall i | 0 <= i < |es| :: es[i] == RecordOf(entries[i])
  {
    seq(|entries|, i requires 0 <= i < |entries| => RecordOf(entries[i]))
  }

  lemma PairsAreRecords(entries: seq<Entry>)
    ensures PairsFrom(entries) == PairsOf(RecordsOf(entries))
  {
    hide OriginalOf, TranslatedOf, Original, RecordOf;
    forall i | 0 <= i < |entries| ensures PairsFrom(entries)[i] == PairsOf(RecordsOf(entries))[i] {
      OriginalEncodes(entries[i]);
      RecordText(entries[i]);
    }
  }

  lemma RecordText(e: Entry)
    ensures RecordOf(e).translated == Encode(TranslatedOf(e))
  {
    hide TranslatedOf;
  }

  // ----- emit

  /** The image for a file's text; nothing where the parser gives up, where no header entry comes
      first, or where a field is too large. */
  ghost function Compiled(text: string): Option<seq<byte>>
  {
    match Parser.Parsed(text)
    case None => None
    case Some(entries) =>
      if entries == [] || OriginalOf(entries[0]) != "" || !Encodes(Sorted(PairsFrom(entries))) then None
      else Some(ImageOf(Sorted(PairsFrom(entries))))
  }

  /** `emit`, up to the source file around the image. */
  method Compile(text: string) returns (image: Option<seq<byte>>)
    ensures image == Compiled(text)
  {
    hide Parser.Parsed, OriginalOf, TranslatedOf, Encodes, Sorted, ImageOf, Encode;
    var entries := Parser.ParsePo(text);
    if entries.None? {
      return None;
    }
    var es := entries.value;
    var pairs: seq<Pair> := [];
    for i := 0 to |es|
      invariant |pairs| == i && forall k | 0 <= k < i :: pairs[k] == PairsFrom(es)[k]
    {
      var translated := TranslateEntry(es[i]);
      pairs := pairs + [Pair(Encode(OriginalOf(es[i])), Encode(translated))];
    }
    if es == [] || OriginalOf(es[0]) != "" {
      return None;
    }
    assert pairs == PairsFrom(es);
    image := BuildMo(pairs);
  }

  // ----- what the reader serves

  ghost predicate FreeText(s: string) { NUL_CHAR !in s && EOT_CHAR !in s }

  /** No string of the entry's name holds a separator. */
  ghost predicate CleanEntry(e: Entry)
  {
    && FreeText(Text(e.msgid)) && (e.context.Some? ==> FreeText(e.context.value))
    && (e.plural.Some? ==> FreeText(e.plural.value))
  }

  /** Entries a catalogue may hold: clean, and no two with one context and message. */
  ghost predicate ProperEntries(entries: seq<Entry>)
  {
    && (forall i | 0 <= i < |entries| :: CleanEntry(entries[i]))
    && (forall i, j | 0 <= i < j < |entries| ::
          entries[i].context != entries[j].context || Text(entries[i].msgid) != Text(entries[j].msgid))
  }

  lemma FreeEncodes(s: string)
    requires FreeText(s)
    ensures Free(Encode(s))
  {
    hide Encode;
    AsciiIn(s, NUL);
    AsciiIn(s, EOT);
  }

  lemma CleanEncodes(e: Entry)
    requires CleanEntry(e)
    ensures Clean(RecordOf(e))
  {
    hide Encode, TranslatedOf, FreeText, Free;
    FreeEncodes(Text(e.msgid));
    if e.context.Some? {
      FreeEncodes(e.context.value);
    }
    if e.plural.Some? {
      FreeEncodes(e.plural.value);
    }
  }

  lemma RecordsApart(e: Entry, f: Entry)
    requires e.context != f.context || Text(e.msgid) != Text(f.msgid)
    ensures RecordOf(e).context != RecordOf(f).context || RecordOf(e).msgid != RecordOf(f).msgid
  {
    hide Encode, TranslatedOf;
    if Encode(Text(e.msgid)) == Encode(Text(f.msgid)) {
      EncodeInjective(Text(e.msgid), Text(f.msgid));
    }
    if e.context.Some? && f.context.Some? && Encode(e.context.value) == Encode(f.context.value) {
      EncodeInjective(e.context.value, f.context.value);
    }
  }

  lemma ProperRecords(entries: seq<Entry>)
    requires ProperEntries(entries)
    ensures Proper(RecordsOf(entries))
  {
    hide CleanEntry, Clean, RecordOf, SlotFor;
    var es := RecordsOf(entries);
    forall i | 0 <= i < |es| ensures Clean(es[i]) {
      CleanEncodes(entries[i]);
    }
    forall i, j | 0 <= i < j < |es| ensures SlotFor(es[i]) != SlotFor(es[j]) {
      RecordsApart(entries[i], entries[j]);
      FiledApart(es[i], es[j]);
    }
  }

  // ----- from the printed file to the reader

  /** Entries as printed, no value with a line break that is printed as itself: those that parsing
      gives back. */
  ghost predicate Printed(es: seq<seq<Parser.Field>>) { Parser.Printed(es) && Parser.UnbrokenFields(es) }

  /** A catalogue that compiles: a header first, names clean and apart, fields that fit. */
  ghost predicate Compilable(entries: seq<Entry>)
  {
    && entries != [] && OriginalOf(entries[0]) == "" && ProperEntries(entries)
    && Encodes(Sorted(PairsFrom(entries)))
  }

  lemma CompilesPrinted(es: seq<seq<Parser.Field>>)
    requires Printed(es) && Compilable(Parser.EntriesOf(es))
    ensures Compiled(Parser.PrintedText(es)) == Some(ImageOf(Sorted(PairsOf(RecordsOf(Parser.EntriesOf(es))))))
    ensures Encodes(Sorted(PairsOf(RecordsOf(Parser.EntriesOf(es)))))
  {
    hide Parser.Parsed, Parser.PrintedText, Parser.EntriesOf, OriginalOf, Encodes, Sorted, ImageOf, PairsFrom, RecordsOf;
    Parser.ParseRoundTrip(es);
    PairsAreRecords(Parser.EntriesOf(es));
  }

  /** The tables a program has after loading the compiled file. */
  ghost predicate Loaded(text: string, tables: map<Slot, seq<byte>>)
  {
    Compiled(text).Some? && CatalogueLookup.Parsed(Compiled(text).value) == Some(tables)
  }

  /** The compiled file loads. */
  lemma CatalogueLoads(es: seq<seq<Parser.Field>>) returns (tables: map<Slot, seq<byte>>)
    requires Printed(es) && Compilable(Parser.EntriesOf(es))
    ensures Loaded(Parser.PrintedText(es), tables)
  {
    hide Parser.PrintedText, Parser.EntriesOf, Encodes, Sorted, ImageOf, Compiled, CatalogueLookup.Parsed, ProperEntries;
    CompilesPrinted(es);
    ProperRecords(Parser.EntriesOf(es));
    CatalogueServes(RecordsOf(Parser.EntriesOf(es)), HeaderSlot);
    tables := CatalogueLookup.Parsed(Compiled(Parser.PrintedText(es)).value).value;
  }

  lemma EntryServed(es: seq<seq<Parser.Field>>, tables: map<Slot, seq<byte>>, slot: Slot)
    requires Printed(es) && Compilable(Parser.EntriesOf(es)) && Loaded(Parser.PrintedText(es), tables)
    ensures var entries := Parser.EntriesOf(es);
            && (slot in tables <==> exists i | 0 <= i < |entries| :: slot == SlotFor(RecordOf(entries[i])))
            && forall i | 0 <= i < |entries| && slot == SlotFor(RecordOf(entries[i])) ::
                 tables[slot] == Encode(TranslatedOf(entries[i]))
  {
    hide Parser.PrintedText, Parser.EntriesOf, Encodes, Sorted, ImageOf, Compiled, CatalogueLookup.Parsed, ProperEntries, SlotFor;
    var entries := Parser.EntriesOf(es);
    CompilesPrinted(es);
    ProperRecords(entries);
    var rs := RecordsOf(entries);
    CatalogueServes(rs, slot);
    forall i | 0 <= i < |entries| ensures rs[i] == RecordOf(entries[i]) && rs[i].translated == Encode(TranslatedOf(entries[i])) {
    }
  }

  /** A file printed from entries, each value cut into any pieces, compiled and loaded, gives every
      entry's own text: by its message, or by its context and message where it has no plural. */
  lemma CatalogueEndToEnd(es: seq<seq<Parser.Field>>, tables: map<Slot, seq<byte>>, i: nat)
    requires Printed(es) && Compilable(Parser.EntriesOf(es)) && Loaded(Parser.PrintedText(es), tables)
    requires i < |es| && Parser.EntriesOf(es)[i].plural.None?
    ensures var e := Parser.EntriesOf(es)[i]; var msgid, text := Encode(Text(e.msgid)), Encode(TranslatedOf(e));
            && (e.context.Some? ==> TranslateIn(tables, Encode(e.context.value), msgid) == text)
            && (e.context.None? && Text(e.msgid) != "" ==> Translate(tables, msgid) == text)
  {
    hide Parser.PrintedText, Parser.EntriesOf, Encodes, Compiled, CatalogueLookup.Parsed, Compilable, Loaded, TranslatedOf, Encode;
    var e := Parser.EntriesOf(es)[i];
    EntryServed(es, tables, SlotFor(RecordOf(e)));
    SomethingEncoded(Text(e.msgid));
  }

  lemma SomethingEncoded(s: string)
    ensures s != "" <==> Encode(s) != []
  {
  }

  // ----- plural forms

  lemma {:induction false} JoinedEncodes(texts: seq<string>, blobs: seq<seq<byte>>)
    requires |texts| == |blobs| && forall i | 0 <= i < |texts| :: blobs[i] == Encode(texts[i])
    ensures Encode(JoinedText(texts)) == Joined(blobs)
  {
    hide Encode;
    NothingEncoded();
    if |texts| > 1 {
      JoinedEncodes(texts[1..], blobs[1..]);
      Separators();
      EncodeAppend(texts[0], [NUL_CHAR]);
      EncodeAppend(texts[0] + [NUL_CHAR], JoinedText(texts[1..]));
    }
  }

  /** An entry's forms in the order of their numbers; a translation without forms is one. */
  ghost function FormList(e: Entry): (texts: seq<string>)
    ensures texts != []
  {
    if e.forms == map[] then [Text(e.msgstr)]
    else
      var k :| k in e.forms;
      assert k in e.forms.Keys;
      SomeForms(e.forms, Limit(e.forms.Keys), k);
      FormsTo(e.forms, Limit(e.forms.Keys))
  }

  lemma TranslatedForms(e: Entry, blobs: seq<seq<byte>>)
    requires |blobs| == |FormList(e)| && forall i | 0 <= i < |blobs| :: blobs[i] == Encode(FormList(e)[i])
    ensures Encode(TranslatedOf(e)) == Joined(blobs)
  {
    hide Encode, Joined;
    JoinedEncodes(FormList(e), blobs);
  }

  /** Taking the joined forms apart gives every form at its place, and nothing past the last. */
  lemma FormsRead(e: Entry, k: nat)
    requires forall i | 0 <= i < |FormList(e)| :: NUL_CHAR !in FormList(e)[i]
    ensures FieldFrom(Encode(TranslatedOf(e)), 0, k) == if k < |FormList(e)| then Encode(FormList(e)[k]) else []
  {
    hide Encode, TranslatedOf, FieldFrom, Joined, FormList;
    var texts := FormList(e);
    var blobs := seq(|texts|, i requires 0 <= i < |texts| => Encode(texts[i]));
    TranslatedForms(e, blobs);
    forall i | 0 <= i < |blobs| ensures NUL !in blobs[i] {
      AsciiIn(texts[i], NUL);
    }
    var blob := Encode(TranslatedOf(e));
    assert blob[0..] == blob;
    FieldsOfJoined(blob, 0, blobs, k);
  }
}
