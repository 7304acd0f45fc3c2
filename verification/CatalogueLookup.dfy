/** A catalogue in use: the toolkit's `Translation::parse` over a built image, and the binary
    search the sorted table is for. */
module CatalogueLookup {
  import opened Bytes
  import opened Keys
  import opened CatalogueImage
  import opened CatalogueForms

  const EOT: byte := 4

  // ----- the entries of a catalogue

  /** A message as the image keeps it: the bytes of its context, message and plural, and of its
      translation, the forms joined. */
  datatype Record = Record(context: Option<seq<byte>>, msgid: seq<byte>, plural: Option<seq<byte>>, translated: seq<byte>)

  /** `original_of`. */
  function Original(e: Record): seq<byte>
  {
    var tail := if e.plural.Some? then [NUL] + e.plural.value else [];
    if e.context.Some? then e.context.value + [EOT] + e.msgid + tail else e.msgid + tail
  }

  ghost predicate Free(s: seq<byte>) { NUL !in s && EOT !in s }

  /** No string of the entry holds either separator. */
  ghost predicate Clean(e: Record)
  {
    Free(e.msgid) && (e.context.Some? ==> Free(e.context.value)) && (e.plural.Some? ==> Free(e.plural.value))
  }

  function PairsOf(es: seq<Record>): (ps: seq<Pair>)
    ensures |ps| == |es| && forall i | 0 <= i < |ps| :: ps[i] == Pair(Original(es[i]), es[i].translated)
  {
    seq(|es|, i requires 0 <= i < |es| => Pair(Original(es[i]), es[i].translated))
  }

  // ----- where the reader files a message

  /** The reader's tables, told apart by the bytes of the original. */
  datatype Slot =
    | HeaderSlot
    | SingularSlot(msgid: seq<byte>)
    | PluralSlot(msgid: seq<byte>)
    | ContextSlot(context: seq<byte>, msgid: seq<byte>)

  function IndexOf(s: seq<byte>, c: byte): (i: nat)
    ensures i <= |s| && (i < |s| ==> s[i] == c) && c !in s[..i]
    ensures i == |s| <==> c !in s
  {
    if s == [] then 0
    else if s[0] == c then 0
    else
      var i := 1 + IndexOf(s[1..], c);
      assert s[..i] == [s[0]] + s[1..][..i - 1];
      i
  }

  function SlotOf(original: seq<byte>): Slot
  {
    var context, plural := IndexOf(original, EOT), IndexOf(original, NUL);
    if original == [] then HeaderSlot
    else if context < |original| then ContextSlot(original[..context], original[context + 1..])
    else if plural < |original| then PluralSlot(original[..plural])
    else SingularSlot(original)
  }

  /** A context's own message is filed under it, unless the entry has a plural: then the plural
      is part of the name, which no lookup spells. */
  function SlotFor(e: Record): Slot
  {
    match e.context
    case Some(context) =>
      ContextSlot(context, if e.plural.Some? then e.msgid + [NUL] + e.plural.value else e.msgid)
    case None =>
      if e.plural.Some? then PluralSlot(e.msgid) else if e.msgid == [] then HeaderSlot else SingularSlot(e.msgid)
  }

  lemma {:induction false} FirstIndex(a: seq<byte>, c: byte, b: seq<byte>)
    requires c !in a
    ensures IndexOf(a + [c] + b, c) == |a|
  {
    if a == [] {
      assert a + [c] + b == [c] + b;
    } else {
      assert (a + [c] + b)[1..] == a[1..] + [c] + b;
      FirstIndex(a[1..], c, b);
    }
  }

  /** An entry's original is filed where its parts say. */
  lemma Filing(e: Record)
    requires Clean(e)
    ensures SlotOf(Original(e)) == SlotFor(e)
  {
    hide IndexOf;
    var original := Original(e);
    var tail := if e.plural.Some? then [NUL] + e.plural.value else [];
    if e.context.Some? {
      var context := e.context.value;
      assert original == context + [EOT] + (e.msgid + tail);
      FirstIndex(context, EOT, e.msgid + tail);
      assert original[..|context|] == context && original[|context| + 1..] == e.msgid + tail;
      assert e.plural.Some? ==> e.msgid + tail == e.msgid + [NUL] + e.plural.value;
      assert e.plural.None? ==> e.msgid + tail == e.msgid;
    } else {
      assert EOT !in original;
      if e.plural.Some? {
        assert original == e.msgid + [NUL] + e.plural.value;
        FirstIndex(e.msgid, NUL, e.plural.value);
      } else {
        assert original == e.msgid;
      }
    }
  }

  /** Entries of separator-free strings have different originals, unless they agree in context,
      message and plural. */
  lemma OriginalInjective(e: Record, f: Record)
    requires Clean(e) && Clean(f) && Original(e) == Original(f)
    ensures e.context == f.context && e.msgid == f.msgid && e.plural == f.plural
  {
    hide SlotOf;
    Filing(e);
    Filing(f);
    assert SlotFor(e) == SlotFor(f);
    if e.plural.Some? && f.plural.Some? {
      SameTails(e, f);
    } else if e.plural.Some? || f.plural.Some? {
      PluralShows(e, f);
    }
  }

  lemma SameTails(e: Record, f: Record)
    requires Clean(e) && Clean(f) && e.plural.Some? && f.plural.Some? && Original(e) == Original(f) && SlotFor(e) == SlotFor(f)
    ensures e.context == f.context && e.msgid == f.msgid && e.plural == f.plural
  {
    if e.context.None? {
      assert Original(e) == e.msgid + [NUL] + e.plural.value && Original(f) == f.msgid + [NUL] + f.plural.value;
    }
    SameFronts(e.msgid, e.plural.value, f.msgid, f.plural.value);
  }

  lemma PluralShows(e: Record, f: Record)
    requires Clean(e) && Clean(f) && SlotFor(e) == SlotFor(f)
    ensures e.plural.Some? == f.plural.Some?
  {
    if e.plural.Some? {
      assert (e.msgid + [NUL] + e.plural.value)[|e.msgid|] == NUL;
    }
    if f.plural.Some? {
      assert (f.msgid + [NUL] + f.plural.value)[|f.msgid|] == NUL;
    }
  }

  // ----- the reader

  /** The first `n` messages of an image, filed; a later one replaces an earlier in its slot. */
  function FiledTo(image: seq<byte>, originals: nat, translations: nat, n: nat): Option<map<Slot, seq<byte>>>
  {
    if n == 0 then Some(map[])
    else
      match (FiledTo(image, originals, translations, n - 1), Descriptor(image, originals, n - 1), Descriptor(image, translations, n - 1))
      case (Some(tables), Some(original), Some(translated)) => Some(tables[SlotOf(original) := translated])
      case _ => None
  }

  function Parsed(image: seq<byte>): Option<map<Slot, seq<byte>>>
  {
    if |image| < HEADER || Field(image, 0, 4) != MO_MAGIC then None
    else
      var count, originals, translations := Field(image, 8, 4), Field(image, 12, 4), Field(image, 16, 4);
      if originals + 8 * count > |image| || translations + 8 * count > |image| then None
      else FiledTo(image, originals, translations, count)
  }

  lemma {:induction false} FiledStops(image: seq<byte>, originals: nat, translations: nat, n: nat, m: nat)
    requires n <= m && FiledTo(image, originals, translations, n).None?
    ensures FiledTo(image, originals, translations, m).None?
    decreases m
  {
    hide Descriptor, SlotOf;
    if n < m {
      FiledStops(image, originals, translations, n, m - 1);
    }
  }

  /** `Translation::parse`, for the byte order the builder writes. */
  method ParseMo(image: seq<byte>) returns (r: Option<map<Slot, seq<byte>>>)
    ensures r == Parsed(image)
  {
    hide Field, Descriptor, SlotOf;
    if |image| < HEADER || Field(image, 0, 4) != MO_MAGIC {
      return None;
    }
    var count, originals, translations := Field(image, 8, 4), Field(image, 12, 4), Field(image, 16, 4);
    if originals + 8 * count > |image| || translations + 8 * count > |image| {
      return None;
    }
    var tables: map<Slot, seq<byte>> := map[];
    for i := 0 to count
      invariant FiledTo(image, originals, translations, i) == Some(tables)
    {
      var original, translated := Descriptor(image, originals, i), Descriptor(image, translations, i);
      if original.None? || translated.None? {
        FiledStops(image, originals, translations, i + 1, count);
        return None;
      }
      tables := tables[SlotOf(original.value) := translated.value];
    }
    return Some(tables);
  }

  // ----- what it finds

  function FiledPairs(ps: seq<Pair>, n: nat): map<Slot, seq<byte>>
    requires n <= |ps|
  {
    if n == 0 then map[] else FiledPairs(ps, n - 1)[SlotOf(ps[n - 1].key) := ps[n - 1].value]
  }

  lemma {:induction false} FilesAll(ps: seq<Pair>, n: nat)
    requires Encodes(ps) && n <= |ps|
    ensures FiledTo(ImageOf(ps), HEADER, HEADER + 8 * |ps|, n) == Some(FiledPairs(ps, n))
  {
    hide ImageOf, Descriptor, SlotOf, Encodes;
    if n > 0 {
      FilesAll(ps, n - 1);
      KeyRead(ps, n - 1);
      ValueRead(ps, n - 1);
    }
  }

  lemma ParsesImage(ps: seq<Pair>)
    requires Encodes(ps)
    ensures Parsed(ImageOf(ps)) == Some(FiledPairs(ps, |ps|))
  {
    hide ImageOf, FiledTo, FiledPairs, Field, KeyBytesTo, ValueBytesTo;
    CatalogueImage.HeaderFields(ps);
    FilesAll(ps, |ps|);
  }

  /** With every message in a slot of its own, each slot holds its translation and no other
      slot is filled. */
  lemma {:induction false} FiledHas(ps: seq<Pair>, n: nat)
    requires n <= |ps| && forall i, j | 0 <= i < j < |ps| :: SlotOf(ps[i].key) != SlotOf(ps[j].key)
    ensures forall i | 0 <= i < n :: SlotOf(ps[i].key) in FiledPairs(ps, n) && FiledPairs(ps, n)[SlotOf(ps[i].key)] == ps[i].value
    ensures forall slot :: slot in FiledPairs(ps, n) ==> exists i | 0 <= i < n :: slot == SlotOf(ps[i].key)
  {
    hide SlotOf;
    if n > 0 {
      FiledHas(ps, n - 1);
      forall slot | slot in FiledPairs(ps, n) ensures exists i | 0 <= i < n :: slot == SlotOf(ps[i].key) {
        if slot != SlotOf(ps[n - 1].key) {
          var i :| 0 <= i < n - 1 && slot == SlotOf(ps[i].key);
        }
      }
    }
  }

  /** A catalogue's entries: clean strings, and no two in one slot. */
  ghost predicate Proper(es: seq<Record>)
  {
    && (forall i | 0 <= i < |es| :: Clean(es[i]))
    && (forall i, j | 0 <= i < j < |es| :: SlotFor(es[i]) != SlotFor(es[j]))
  }

  lemma SlotsApart(es: seq<Record>, ps: seq<Pair>)
    requires Proper(es) && multiset(ps) == multiset(PairsOf(es))
    ensures forall i, j | 0 <= i < j < |ps| :: SlotOf(ps[i].key) != SlotOf(ps[j].key)
  {
    hide SlotOf, Original, SlotFor, Clean;
    var qs := PairsOf(es);
    forall i | 0 <= i < |es| ensures SlotOf(qs[i].key) == SlotFor(es[i]) {
      Filing(es[i]);
    }
    DistinctKept(ps, qs, (p: Pair) => SlotOf(p.key));
  }

  /** The reader serves every entry of a built catalogue from its slot, and has nothing in any
      other. */
  lemma CatalogueServes(es: seq<Record>, slot: Slot)
    requires Proper(es) && Encodes(Sorted(PairsOf(es)))
    ensures Parsed(ImageOf(Sorted(PairsOf(es)))).Some?
    ensures var tables := Parsed(ImageOf(Sorted(PairsOf(es)))).value;
            && (slot in tables <==> exists i | 0 <= i < |es| :: slot == SlotFor(es[i]))
            && forall i | 0 <= i < |es| && slot == SlotFor(es[i]) :: tables[slot] == es[i].translated
  {
    hide ImageOf, Sorted, Parsed, FiledPairs, SlotOf, SlotFor, Original, Clean, Encodes;
    var qs, ps := PairsOf(es), Sorted(PairsOf(es));
    ParsesImage(ps);
    SlotsApart(es, ps);
    FiledHas(ps, |ps|);
    InMultiset(ps, qs);
    forall i | 0 <= i < |es|
      ensures SlotOf(qs[i].key) == SlotFor(es[i]) && SlotFor(es[i]) in FiledPairs(ps, |ps|)
              && FiledPairs(ps, |ps|)[SlotFor(es[i])] == es[i].translated
    {
      Filing(es[i]);
      assert qs[i] in ps;
      var k :| 0 <= k < |ps| && ps[k] == qs[i];
    }
    if slot in FiledPairs(ps, |ps|) {
      var k :| 0 <= k < |ps| && slot == SlotOf(ps[k].key);
      assert ps[k] in qs;
      var i :| 0 <= i < |qs| && qs[i] == ps[k];
    }
  }

  /** `translate` with a context finds an entry exactly when it has no plural: one with both is
      filed under a name with the plural in it. */
  lemma ContextFoundIff(es: seq<Record>, k: nat)
    requires Proper(es) && Encodes(Sorted(PairsOf(es))) && k < |es| && es[k].context.Some?
    requires forall i | 0 <= i < |es| && i != k :: es[i].context != es[k].context || es[i].msgid != es[k].msgid
    ensures Parsed(ImageOf(Sorted(PairsOf(es)))).Some?
    ensures ContextSlot(es[k].context.value, es[k].msgid) in Parsed(ImageOf(Sorted(PairsOf(es)))).value <==> es[k].plural.None?
  {
    hide ImageOf, Sorted, Parsed, Encodes;
    var e := es[k];
    CatalogueServes(es, ContextSlot(e.context.value, e.msgid));
    forall i | 0 <= i < |es| ensures SlotFor(es[i]) == ContextSlot(e.context.value, e.msgid) <==> i == k && e.plural.None? {
      assert Clean(es[i]) && Clean(e);
      if es[i].plural.Some? {
        var name := es[i].msgid + [NUL] + es[i].plural.value;
        assert name[|es[i].msgid|] == NUL;
      }
    }
  }

  // ----- the lookups

  /** `translate`: the message itself where there is no translation. */
  function Translate(tables: map<Slot, seq<byte>>, msgid: seq<byte>): seq<byte>
  {
    if SingularSlot(msgid) in tables then tables[SingularSlot(msgid)] else msgid
  }

  function TranslateIn(tables: map<Slot, seq<byte>>, context: seq<byte>, msgid: seq<byte>): seq<byte>
  {
    if ContextSlot(context, msgid) in tables then tables[ContextSlot(context, msgid)] else msgid
  }

  /** `ntranslate`, once the header's expression has picked the form's index. */
  function TranslateForm(tables: map<Slot, seq<byte>>, msgid: seq<byte>, plural: seq<byte>, n: nat, index: nat): seq<byte>
  {
    var form := if PluralSlot(msgid) in tables then FieldFrom(tables[PluralSlot(msgid)], 0, index) else [];
    if form != [] then form else if n == 1 then msgid else plural
  }

  /** Messages that differ in context or text are filed apart. */
  lemma FiledApart(a: Record, b: Record)
    requires Clean(a) && Clean(b) && (a.context != b.context || a.msgid != b.msgid)
    ensures SlotFor(a) != SlotFor(b)
  {
    if SlotFor(a) == SlotFor(b) {
      PluralShows(a, b);
      if a.plural.Some? {
        SameFronts(a.msgid, a.plural.value, b.msgid, b.plural.value);
      }
    }
  }

  lemma SameFronts(a: seq<byte>, x: seq<byte>, b: seq<byte>, y: seq<byte>)
    requires NUL !in a && NUL !in b
    ensures a + [NUL] + x == b + [NUL] + y ==> a == b && x == y
  {
    if a + [NUL] + x == b + [NUL] + y {
      FirstIndex(a, NUL, x);
      FirstIndex(b, NUL, y);
      var s := a + [NUL] + x;
      assert a == s[..|a|] && b == (b + [NUL] + y)[..|b|];
      assert x == s[|a| + 1..] && y == (b + [NUL] + y)[|b| + 1..];
    }
  }

  // ----- an entry no lookup finds

  /** One message with a context and a plural. */
  const LOST: Record := Record(Some([109]), [111], Some([111, 115]), [120])

  lemma LostImage()
    ensures Proper([LOST]) && Encodes(Sorted(PairsOf([LOST])))
  {
    var p := Pair(Original(LOST), LOST.translated);
    assert PairsOf([LOST]) == [p];
    assert Sorted([]) == [] && [p][..0] == [];
    assert Sorted([p]) == InsertPair(p, []);
    assert |Original(LOST)| == 6;
    assert KeyBytesTo([p], 0) == 0 && ValueBytesTo([p], 0) == 0 && KeyBytesTo([p], 1) == 6;
  }

  /** It is in the image, and asking for it by context and message gives the message back. */
  lemma LostInContext()
    ensures Proper([LOST]) && Encodes(Sorted(PairsOf([LOST])))
    ensures Parsed(ImageOf(Sorted(PairsOf([LOST])))).Some?
    ensures var tables := Parsed(ImageOf(Sorted(PairsOf([LOST])))).value;
            && LOST.translated in tables.Values
            && TranslateIn(tables, LOST.context.value, LOST.msgid) == LOST.msgid != LOST.translated
  {
    hide ImageOf, Sorted, Parsed, Encodes, Proper, SlotFor;
    LostImage();
    CatalogueServes([LOST], SlotFor([LOST][0]));
    ContextFoundIff([LOST], 0);
  }
}
