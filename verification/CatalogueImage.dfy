/** The GNU .mo image `build_mo` writes, in the layout of "The Format of GNU MO Files" in the GNU
    gettext manual, and a reader of it. */
module CatalogueImage {
  import opened Bytes
  import opened Keys
  import opened NodeCodec

  /** A message: its original and its translation, as bytes. */
  datatype Pair = Pair(key: seq<byte>, value: seq<byte>)

  const MO_MAGIC: nat := 0x9504_12DE
  const HEADER: nat := 28

  // ----- sorting by key bytes

  function InsertPair(p: Pair, s: seq<Pair>): (r: seq<Pair>)
    ensures multiset(r) == multiset(s) + multiset{p} && |r| == |s| + 1
  {
    if s == [] then [p]
    else if BytesBelow(p.key, s[|s| - 1].key) then
      assert s == s[..|s| - 1] + [s[|s| - 1]];
      InsertPair(p, s[..|s| - 1]) + [s[|s| - 1]]
    else s + [p]
  }

  function Sorted(s: seq<Pair>): (r: seq<Pair>)
    ensures multiset(r) == multiset(s) && |r| == |s|
  {
    if s == [] then []
    else
      assert s == s[..|s| - 1] + [s[|s| - 1]];
      InsertPair(s[|s| - 1], Sorted(s[..|s| - 1]))
  }

  ghost predicate InOrder(s: seq<Pair>)
  {
    forall i, j | 0 <= i < j < |s| :: !BytesBelow(s[j].key, s[i].key)
  }

  lemma NotBelowAny(s: seq<Pair>, p: Pair)
    requires InOrder(s) && s != [] && !BytesBelow(p.key, s[|s| - 1].key)
    ensures forall i | 0 <= i < |s| :: !BytesBelow(p.key, s[i].key)
  {
    var last := s[|s| - 1].key;
    forall i | 0 <= i < |s| ensures !BytesBelow(p.key, s[i].key) {
      if BytesBelow(p.key, s[i].key) && s[i].key != last {
        BytesTotal(s[i].key, last);
        BytesTransitive(p.key, s[i].key, last);
      }
    }
  }

  lemma {:induction false} InsertInOrder(p: Pair, s: seq<Pair>)
    requires InOrder(s)
    ensures InOrder(InsertPair(p, s))
  {
    if s != [] {
      var n := |s| - 1;
      if BytesBelow(p.key, s[n].key) {
        InsertInOrder(p, s[..n]);
        var r := InsertPair(p, s[..n]);
        InMultiset(r, s[..n] + [p]);
        forall i | 0 <= i < |r| ensures !BytesBelow(s[n].key, r[i].key) {
          assert r[i] in s[..n] + [p];
          BytesAsymmetric(p.key, s[n].key);
        }
      } else {
        NotBelowAny(s, p);
      }
    }
  }

  lemma {:induction false} BytesAsymmetric(a: Key, b: Key)
    requires BytesBelow(a, b)
    ensures !BytesBelow(b, a)
  {
    if BytesBelow(b, a) {
      BytesTransitive(a, b, a);
      BytesIrreflexive(a);
    }
  }

  lemma {:induction false} SortedInOrder(s: seq<Pair>)
    ensures InOrder(Sorted(s))
  {
    if s != [] {
      SortedInOrder(s[..|s| - 1]);
      InsertInOrder(s[|s| - 1], Sorted(s[..|s| - 1]));
    }
  }

  // ----- the image

  function KeyBytesTo(ps: seq<Pair>, n: nat): nat
    requires n <= |ps|
  {
    if n == 0 then 0 else KeyBytesTo(ps, n - 1) + |ps[n - 1].key|
  }

  function ValueBytesTo(ps: seq<Pair>, n: nat): nat
    requires n <= |ps|
  {
    if n == 0 then 0 else ValueBytesTo(ps, n - 1) + |ps[n - 1].value|
  }

  function OriginalsAt(ps: seq<Pair>): nat { HEADER + 16 * |ps| }

  function TranslationsAt(ps: seq<Pair>): nat { OriginalsAt(ps) + KeyBytesTo(ps, |ps|) }

  function MoHeader(count: nat): (s: seq<byte>)
    ensures |s| == HEADER
  {
    Le(4, MO_MAGIC) + Le(4, 0) + Le(4, count) + Le(4, HEADER) + Le(4, HEADER + 8 * count) + Le(4, 0) + Le(4, 0)
  }

  /** The first `n` descriptors of the originals: a length and an offset each. */
  function KeyTable(ps: seq<Pair>, n: nat): (s: seq<byte>)
    requires n <= |ps|
    ensures |s| == 8 * n
  {
    if n == 0 then []
    else KeyTable(ps, n - 1) + (Le(4, |ps[n - 1].key|) + Le(4, OriginalsAt(ps) + KeyBytesTo(ps, n - 1)))
  }

  function ValueTable(ps: seq<Pair>, n: nat): (s: seq<byte>)
    requires n <= |ps|
    ensures |s| == 8 * n
  {
    if n == 0 then []
    else ValueTable(ps, n - 1) + (Le(4, |ps[n - 1].value|) + Le(4, TranslationsAt(ps) + ValueBytesTo(ps, n - 1)))
  }

  function KeyStrings(ps: seq<Pair>, n: nat): (s: seq<byte>)
    requires n <= |ps|
    ensures |s| == KeyBytesTo(ps, n)
  {
    if n == 0 then [] else KeyStrings(ps, n - 1) + ps[n - 1].key
  }

  function ValueStrings(ps: seq<Pair>, n: nat): (s: seq<byte>)
    requires n <= |ps|
    ensures |s| == ValueBytesTo(ps, n)
  {
    if n == 0 then [] else ValueStrings(ps, n - 1) + ps[n - 1].value
  }

  /** The five regions, one behind the other. */
  function ImageOf(ps: seq<Pair>): (s: seq<byte>)
    ensures |s| == TranslationsAt(ps) + ValueBytesTo(ps, |ps|)
  {
    var n := |ps|;
    MoHeader(n) + KeyTable(ps, n) + ValueTable(ps, n) + KeyStrings(ps, n) + ValueStrings(ps, n)
  }

  /** A pair's two descriptors: lengths and offsets of 32 bits. */
  predicate KeyPacks(ps: seq<Pair>, i: nat)
    requires i < |ps|
  {
    |ps[i].key| < TWO32 && OriginalsAt(ps) + KeyBytesTo(ps, i) < TWO32
  }

  predicate ValuePacks(ps: seq<Pair>, i: nat)
    requires i < |ps|
  {
    |ps[i].value| < TWO32 && TranslationsAt(ps) + ValueBytesTo(ps, i) < TWO32
  }

  /** Every field fits its 32 bits; `struct.pack` refuses any that does not. */
  ghost predicate Encodes(ps: seq<Pair>)
  {
    HEADER + 8 * |ps| < TWO32 && forall i | 0 <= i < |ps| :: KeyPacks(ps, i) && ValuePacks(ps, i)
  }

  lemma NoKeyBytes(ps: seq<Pair>)
    ensures KeyBytesTo(ps, 0) == 0
  {
  }

  lemma NextKeyBytes(ps: seq<Pair>, i: nat)
    requires i < |ps|
    ensures KeyBytesTo(ps, i + 1) == KeyBytesTo(ps, i) + |ps[i].key|
  {
  }

  method KeyOffsets(ps: seq<Pair>, start: nat) returns (offsets: seq<nat>)
    ensures |offsets| == |ps| && forall i | 0 <= i < |ps| :: offsets[i] == start + KeyBytesTo(ps, i)
  {
    hide KeyBytesTo;
    NoKeyBytes(ps);
    offsets := [];
    var cursor := start;
    for i := 0 to |ps|
      invariant |offsets| == i && cursor == start + KeyBytesTo(ps, i)
      invariant forall k | 0 <= k < i :: offsets[k] == start + KeyBytesTo(ps, k)
    {
      NextKeyBytes(ps, i);
      offsets := offsets + [cursor];
      cursor := cursor + |ps[i].key|;
    }
  }

  lemma NoValueBytes(ps: seq<Pair>)
    ensures ValueBytesTo(ps, 0) == 0
  {
  }

  lemma NextValueBytes(ps: seq<Pair>, i: nat)
    requires i < |ps|
    ensures ValueBytesTo(ps, i + 1) == ValueBytesTo(ps, i) + |ps[i].value|
  {
  }

  method ValueOffsets(ps: seq<Pair>, start: nat) returns (offsets: seq<nat>)
    ensures |offsets| == |ps| && forall i | 0 <= i < |ps| :: offsets[i] == start + ValueBytesTo(ps, i)
  {
    hide ValueBytesTo;
    NoValueBytes(ps);
    offsets := [];
    var cursor := start;
    for i := 0 to |ps|
      invariant |offsets| == i && cursor == start + ValueBytesTo(ps, i)
      invariant forall k | 0 <= k < i :: offsets[k] == start + ValueBytesTo(ps, k)
    {
      NextValueBytes(ps, i);
      offsets := offsets + [cursor];
      cursor := cursor + |ps[i].value|;
    }
  }

  /** The two descriptor tables; `None` where a field is too large to pack. */
  method Tables(ps: seq<Pair>, keyAt: seq<nat>, valueAt: seq<nat>) returns (r: Option<seq<byte>>)
    requires |keyAt| == |valueAt| == |ps|
    requires forall i | 0 <= i < |ps| :: keyAt[i] == OriginalsAt(ps) + KeyBytesTo(ps, i)
    requires forall i | 0 <= i < |ps| :: valueAt[i] == TranslationsAt(ps) + ValueBytesTo(ps, i)
    ensures r.Some? <==> forall i | 0 <= i < |ps| :: KeyPacks(ps, i) && ValuePacks(ps, i)
    ensures r.Some? ==> r.value == KeyTable(ps, |ps|) + ValueTable(ps, |ps|)
  {
    hide Le, OriginalsAt, TranslationsAt, KeyBytesTo, ValueBytesTo;
    var tables: seq<byte> := [];
    for i := 0 to |ps|
      invariant tables == KeyTable(ps, i) && forall k | 0 <= k < i :: KeyPacks(ps, k)
    {
      if |ps[i].key| >= TWO32 || keyAt[i] >= TWO32 {
        assert !KeyPacks(ps, i);
        return None;
      }
      tables := tables + (Le(4, |ps[i].key|) + Le(4, keyAt[i]));
    }
    for i := 0 to |ps|
      invariant tables == KeyTable(ps, |ps|) + ValueTable(ps, i) && forall k | 0 <= k < i :: ValuePacks(ps, k)
    {
      if |ps[i].value| >= TWO32 || valueAt[i] >= TWO32 {
        assert !ValuePacks(ps, i);
        return None;
      }
      tables := tables + (Le(4, |ps[i].value|) + Le(4, valueAt[i]));
    }
    return Some(tables);
  }

  method Strings(ps: seq<Pair>) returns (strings: seq<byte>)
    ensures strings == KeyStrings(ps, |ps|) + ValueStrings(ps, |ps|)
  {
    hide KeyBytesTo, ValueBytesTo;
    strings := [];
    for i := 0 to |ps|
      invariant strings == KeyStrings(ps, i)
    {
      strings := strings + ps[i].key;
    }
    for i := 0 to |ps|
      invariant strings == KeyStrings(ps, |ps|) + ValueStrings(ps, i)
    {
      strings := strings + ps[i].value;
    }
  }

  /** `build_mo`: the image of the sorted pairs, or nothing where a field is too large. */
  method BuildMo(pairs: seq<Pair>) returns (image: Option<seq<byte>>)
    ensures image == if Encodes(Sorted(pairs)) then Some(ImageOf(Sorted(pairs))) else None
  {
    hide Le, Sorted, MoHeader, KeyTable, ValueTable, KeyStrings, ValueStrings, KeyBytesTo, ValueBytesTo, KeyPacks, ValuePacks;
    var ps := Sorted(pairs);
    var translationsAt := OriginalsAt(ps) + KeyBytesTo(ps, |ps|);
    if HEADER + 8 * |ps| >= TWO32 {
      return None;
    }
    var keyAt := KeyOffsets(ps, OriginalsAt(ps));
    var valueAt := ValueOffsets(ps, translationsAt);
    var tables := Tables(ps, keyAt, valueAt);
    if tables.None? {
      return None;
    }
    var strings := Strings(ps);
    var a, b, c, d, e := MoHeader(|ps|), KeyTable(ps, |ps|), ValueTable(ps, |ps|), KeyStrings(ps, |ps|), ValueStrings(ps, |ps|);
    assert a + (b + c) + (d + e) == a + b + c + d + e;
    return Some(MoHeader(|ps|) + tables.value + strings);
  }

  // ----- a reader

  function Descriptor(image: seq<byte>, table: nat, i: nat): Option<seq<byte>>
  {
    if table + 8 * i + 8 > |image| then None
    else
      var length, at := Field(image, table + 8 * i, 4), Field(image, table + 8 * i + 4, 4);
      if at + length > |image| then None else Some(image[at..at + length])
  }

  /** Message `i` of an image, by its header's two tables. */
  function Message(image: seq<byte>, i: nat): Option<Pair>
    requires |image| >= HEADER
  {
    match (Descriptor(image, Field(image, 12, 4), i), Descriptor(image, Field(image, 16, 4), i))
    case (Some(key), Some(value)) => Some(Pair(key, value))
    case _ => None
  }

  // ----- the round trip

  lemma HeaderFields(ps: seq<Pair>)
    requires Encodes(ps)
    ensures var image := ImageOf(ps);
            && Field(image, 0, 4) == MO_MAGIC && Field(image, 8, 4) == |ps| && Field(image, 12, 4) == HEADER
            && Field(image, 16, 4) == HEADER + 8 * |ps|
            && Field(image, 4, 4) == 0 && Field(image, 20, 4) == 0 && Field(image, 24, 4) == 0
  {
    hide Le, Field, KeyTable, ValueTable, KeyStrings, ValueStrings, KeyBytesTo, ValueBytesTo;
    var n, image := |ps|, ImageOf(ps);
    Powers();
    var h := Le(4, MO_MAGIC) + Le(4, 0) + Le(4, n) + Le(4, HEADER) + Le(4, HEADER + 8 * n) + Le(4, 0) + Le(4, 0);
    assert h == MoHeader(n) && h[0..4] == Le(4, MO_MAGIC) && h[8..12] == Le(4, n) && h[12..16] == Le(4, HEADER)
           && h[16..20] == Le(4, HEADER + 8 * n) && h[4..8] == Le(4, 0) && h[20..24] == Le(4, 0) && h[24..28] == Le(4, 0);
    assert image[0..HEADER] == h;
    SliceOfSlice(image, 0, HEADER, 0, 4);
    FieldIs(image, 0, 4, MO_MAGIC);
    SliceOfSlice(image, 0, HEADER, 8, 12);
    FieldIs(image, 8, 4, n);
    SliceOfSlice(image, 0, HEADER, 12, 16);
    FieldIs(image, 12, 4, HEADER);
    SliceOfSlice(image, 0, HEADER, 16, 20);
    FieldIs(image, 16, 4, HEADER + 8 * n);
    SliceOfSlice(image, 0, HEADER, 4, 8);
    FieldIs(image, 4, 4, 0);
    SliceOfSlice(image, 0, HEADER, 20, 24);
    FieldIs(image, 20, 4, 0);
    SliceOfSlice(image, 0, HEADER, 24, 28);
    FieldIs(image, 24, 4, 0);
  }

  lemma {:induction false} KeyTableAt(ps: seq<Pair>, n: nat, i: nat)
    requires i < n <= |ps|
    ensures KeyTable(ps, n)[8 * i..8 * i + 8] == Le(4, |ps[i].key|) + Le(4, OriginalsAt(ps) + KeyBytesTo(ps, i))
    decreases n
  {
    hide Le, OriginalsAt, KeyBytesTo;
    var before, last := KeyTable(ps, n - 1), Le(4, |ps[n - 1].key|) + Le(4, OriginalsAt(ps) + KeyBytesTo(ps, n - 1));
    if i < n - 1 {
      KeyTableAt(ps, n - 1, i);
      HeadSlice(before, last, 8 * i, 8 * i + 8);
    } else {
      TailSlice(before, last);
    }
  }

  lemma {:induction false} ValueTableAt(ps: seq<Pair>, n: nat, i: nat)
    requires i < n <= |ps|
    ensures ValueTable(ps, n)[8 * i..8 * i + 8] == Le(4, |ps[i].value|) + Le(4, TranslationsAt(ps) + ValueBytesTo(ps, i))
    decreases n
  {
    hide Le, TranslationsAt, ValueBytesTo;
    var before, last := ValueTable(ps, n - 1), Le(4, |ps[n - 1].value|) + Le(4, TranslationsAt(ps) + ValueBytesTo(ps, n - 1));
    if i < n - 1 {
      ValueTableAt(ps, n - 1, i);
      HeadSlice(before, last, 8 * i, 8 * i + 8);
    } else {
      TailSlice(before, last);
    }
  }

  lemma {:induction false} KeyStringAt(ps: seq<Pair>, n: nat, i: nat)
    requires i < n <= |ps|
    ensures KeyBytesTo(ps, i) + |ps[i].key| <= KeyBytesTo(ps, n)
    ensures KeyStrings(ps, n)[KeyBytesTo(ps, i)..KeyBytesTo(ps, i) + |ps[i].key|] == ps[i].key
    decreases n
  {
    var before, last := KeyStrings(ps, n - 1), ps[n - 1].key;
    if i == n - 1 {
      TailSlice(before, last);
    } else {
      KeyStringAt(ps, n - 1, i);
      var a, b := KeyBytesTo(ps, i), KeyBytesTo(ps, i) + |ps[i].key|;
      HeadSlice(before, last, a, b);
    }
  }

  lemma {:induction false} ValueStringAt(ps: seq<Pair>, n: nat, i: nat)
    requires i < n <= |ps|
    ensures ValueBytesTo(ps, i) + |ps[i].value| <= ValueBytesTo(ps, n)
    ensures ValueStrings(ps, n)[ValueBytesTo(ps, i)..ValueBytesTo(ps, i) + |ps[i].value|] == ps[i].value
    decreases n
  {
    var before, last := ValueStrings(ps, n - 1), ps[n - 1].value;
    if i == n - 1 {
      TailSlice(before, last);
    } else {
      ValueStringAt(ps, n - 1, i);
      var a, b := ValueBytesTo(ps, i), ValueBytesTo(ps, i) + |ps[i].value|;
      HeadSlice(before, last, a, b);
    }
  }

  /** Five parts one behind the other, with no gap and no overlap. */
  ghost predicate Tiled<T>(s: seq<T>, a: seq<T>, b: seq<T>, c: seq<T>, d: seq<T>, e: seq<T>, i: nat, j: nat, k: nat, l: nat)
  {
    && i <= j <= k <= l <= |s|
    && s[0..i] == a && s[i..j] == b && s[j..k] == c && s[k..l] == d && s[l..] == e
  }

  /** The regions tile the image, each where the header and the descriptors say. */
  lemma RegionsTile(ps: seq<Pair>)
    ensures var n := |ps|;
            Tiled(ImageOf(ps), MoHeader(n), KeyTable(ps, n), ValueTable(ps, n), KeyStrings(ps, n), ValueStrings(ps, n),
                  HEADER, HEADER + 8 * n, OriginalsAt(ps), TranslationsAt(ps))
  {
    hide Tiled, ImageOf, MoHeader, KeyTable, ValueTable, KeyStrings, ValueStrings, KeyBytesTo, ValueBytesTo,
         OriginalsAt, TranslationsAt;
    var n := |ps|;
    RegionEnds(ps);
    ImageParts(ps);
    FiveParts(ImageOf(ps), MoHeader(n), KeyTable(ps, n), ValueTable(ps, n), KeyStrings(ps, n), ValueStrings(ps, n),
              HEADER, HEADER + 8 * n, OriginalsAt(ps), TranslationsAt(ps));
  }

  lemma ImageParts(ps: seq<Pair>)
    ensures var n := |ps|;
            ImageOf(ps) == MoHeader(n) + KeyTable(ps, n) + ValueTable(ps, n) + KeyStrings(ps, n) + ValueStrings(ps, n)
  {
    hide MoHeader, KeyTable, ValueTable, KeyStrings, ValueStrings, KeyBytesTo, ValueBytesTo, OriginalsAt,
         TranslationsAt;
  }

  lemma RegionEnds(ps: seq<Pair>)
    ensures OriginalsAt(ps) == HEADER + 8 * |ps| + 8 * |ps| && TranslationsAt(ps) == OriginalsAt(ps) + KeyBytesTo(ps, |ps|)
    ensures OriginalsAt(ps) <= TranslationsAt(ps) <= |ImageOf(ps)|
  {
    hide ImageOf;
  }

  lemma FiveParts<T>(s: seq<T>, a: seq<T>, b: seq<T>, c: seq<T>, d: seq<T>, e: seq<T>, i: nat, j: nat, k: nat, l: nat)
    requires s == a + b + c + d + e && i == |a| && j == i + |b| && k == j + |c| && l == k + |d|
    ensures Tiled(s, a, b, c, d, e, i, j, k, l)
  {
    HeadSlice(a + b + c + d, e, 0, i);
    HeadSlice(a + b + c, d, 0, i);
    HeadSlice(a + b, c, 0, i);
    HeadSlice(a, b, 0, i);
    assert a[0..i] == a;
    HeadSlice(a + b + c + d, e, i, j);
    HeadSlice(a + b + c, d, i, j);
    HeadSlice(a + b, c, i, j);
    TailSlice(a, b);
    HeadSlice(a + b + c + d, e, j, k);
    HeadSlice(a + b + c, d, j, k);
    TailSlice(a + b, c);
    HeadSlice(a + b + c + d, e, k, l);
    TailSlice(a + b + c, d);
    TailSlice(a + b + c + d, e);
  }

  /** The eight bytes at `p` are a string's length and then its place, and the string is there. */
  ghost predicate Describes(image: seq<byte>, p: nat, data: seq<byte>)
  {
    && p + 8 <= |image| && Field(image, p, 4) == |data|
    && var at := Field(image, p + 4, 4);
       at + |data| <= |image| && image[at..at + |data|] == data
  }

  lemma DescriptorIs(image: seq<byte>, table: nat, i: nat, data: seq<byte>, at: nat)
    requires table + 8 * i + 8 <= |image| && at + |data| <= |image| && image[at..at + |data|] == data
    requires |data| < TWO32 && at < TWO32
    requires image[table + 8 * i..table + 8 * i + 8] == Le(4, |data|) + Le(4, at)
    ensures Descriptor(image, table, i) == Some(data) && Describes(image, table + 8 * i, data)
  {
    hide Le, Field;
    Powers();
    var p := table + 8 * i;
    SliceOfSlice(image, p, p + 8, 0, 4);
    SliceOfSlice(image, p, p + 8, 4, 8);
    FieldIs(image, p, 4, |data|);
    FieldIs(image, p + 4, 4, at);
  }

  lemma KeyRead(ps: seq<Pair>, i: nat)
    requires Encodes(ps) && i < |ps|
    ensures Descriptor(ImageOf(ps), HEADER, i) == Some(ps[i].key) && Describes(ImageOf(ps), HEADER + 8 * i, ps[i].key)
  {
    hide Le, Field, ImageOf, KeyTable, KeyStrings, ValueTable, ValueStrings, KeyBytesTo, ValueBytesTo, Descriptor;
    var n, image := |ps|, ImageOf(ps);
    assert KeyPacks(ps, i);
    RegionsTile(ps);
    KeyTableAt(ps, n, i);
    KeyStringAt(ps, n, i);
    SliceOfSlice(image, HEADER, HEADER + 8 * n, 8 * i, 8 * i + 8);
    var at := KeyBytesTo(ps, i);
    SliceOfSlice(image, OriginalsAt(ps), TranslationsAt(ps), at, at + |ps[i].key|);
    DescriptorIs(image, HEADER, i, ps[i].key, OriginalsAt(ps) + at);
  }

  lemma ValueRead(ps: seq<Pair>, i: nat)
    requires Encodes(ps) && i < |ps|
    ensures Descriptor(ImageOf(ps), HEADER + 8 * |ps|, i) == Some(ps[i].value)
    ensures Describes(ImageOf(ps), HEADER + 8 * |ps| + 8 * i, ps[i].value)
  {
    hide Le, Field, ImageOf, KeyTable, KeyStrings, ValueTable, ValueStrings, KeyBytesTo, ValueBytesTo, Descriptor;
    var n, image := |ps|, ImageOf(ps);
    assert ValuePacks(ps, i);
    RegionsTile(ps);
    ValueTableAt(ps, n, i);
    ValueStringAt(ps, n, i);
    SliceOfSlice(image, HEADER + 8 * n, OriginalsAt(ps), 8 * i, 8 * i + 8);
    var at := ValueBytesTo(ps, i);
    SliceOfSlice(image, TranslationsAt(ps), |image|, at, at + |ps[i].value|);
    DescriptorIs(image, HEADER + 8 * n, i, ps[i].value, TranslationsAt(ps) + at);
  }

  lemma MessageRead(ps: seq<Pair>, i: nat)
    requires Encodes(ps) && i < |ps|
    ensures Field(ImageOf(ps), 8, 4) == |ps| && Message(ImageOf(ps), i) == Some(ps[i])
  {
    hide Field, ImageOf, Descriptor, KeyBytesTo, ValueBytesTo;
    HeaderFields(ps);
    KeyRead(ps, i);
    ValueRead(ps, i);
  }

  /** Every message reads back, in the order of the originals' bytes. */
  lemma MessagesRead(pairs: seq<Pair>, i: nat)
    requires Encodes(Sorted(pairs)) && i < |pairs|
    ensures var ps := Sorted(pairs);
            && multiset(ps) == multiset(pairs) && InOrder(ps)
            && Field(ImageOf(ps), 8, 4) == |pairs| && Message(ImageOf(ps), i) == Some(ps[i])
  {
    hide Field, ImageOf, Message, Sorted, InOrder, TranslationsAt;
    SortedInOrder(pairs);
    MessageRead(Sorted(pairs), i);
  }

  /** The image by its bytes: the magic, revision 0, the count, the two tables right behind the
      header, no hash table, and in each table a length and a place for every string. */
  lemma MoFormat(ps: seq<Pair>, i: nat)
    requires Encodes(ps) && i < |ps|
    ensures var image := ImageOf(ps);
            && Field(image, 0, 4) == 0x9504_12DE && Field(image, 4, 4) == 0 && Field(image, 8, 4) == |ps|
            && Field(image, 12, 4) == 28 && Field(image, 16, 4) == 28 + 8 * |ps|
            && Field(image, 20, 4) == 0 && Field(image, 24, 4) == 0
            && Describes(image, 28 + 8 * i, ps[i].key) && Describes(image, 28 + 8 * |ps| + 8 * i, ps[i].value)
  {
    hide Field, ImageOf, Descriptor, KeyBytesTo, ValueBytesTo, Describes;
    HeaderFields(ps);
    KeyRead(ps, i);
    ValueRead(ps, i);
  }
}
