/** Tree keys, the two orders the builder sorts by, and sorting itself. */
module Keys {
  import opened Bytes

  type Key = seq<byte>

  datatype Entry = Entry(key: Key, value: nat)

  const STRING_TYPE: nat := 0
  const INT64_TYPE: nat := 3
  /** The format's longest name (kMaxName). */
  const MAX_NAME: nat := 255

  /** Bytewise order, a proper prefix first. */
  predicate BytesBelow(a: Key, b: Key)
  {
    b != [] && (a == [] || a[0] < b[0] || (a[0] == b[0] && BytesBelow(a[1..], b[1..])))
  }

  /** An 8-byte field as a two's-complement number. */
  function Signed(key: Key): (v: int)
  {
    var u := UnLe(key);
    if u < TWO64 / 2 then u else u - TWO64
  }

  /** The order of keys under a tree's data type. */
  predicate Below(dataType: nat, a: Key, b: Key)
  {
    if dataType == INT64_TYPE && |a| == 8 && |b| == 8 then Signed(a) < Signed(b) else BytesBelow(a, b)
  }

  /** `struct.unpack("<q", key)` takes exactly eight bytes. */
  predicate ValidKey(dataType: nat, key: Key)
  {
    dataType == INT64_TYPE ==> |key| == 8
  }

  ghost predicate ValidKeys(dataType: nat, s: seq<Entry>)
  {
    forall i | 0 <= i < |s| :: ValidKey(dataType, s[i].key)
  }

  /** One key is below another exactly when they agree up to some place where it has the smaller
      byte, or ends. */
  lemma {:induction false} BytesBelowIff(a: Key, b: Key)
    ensures BytesBelow(a, b) <==>
            exists k | 0 <= k <= |a| && k < |b| :: a[..k] == b[..k] && (k == |a| || a[k] < b[k])
    decreases |a|
  {
    if BytesBelow(a, b) {
      if a == [] || a[0] < b[0] {
        assert a[..0] == b[..0];
      } else {
        BytesBelowIff(a[1..], b[1..]);
        var k :| 0 <= k <= |a| - 1 && k < |b| - 1 && a[1..][..k] == b[1..][..k] && (k == |a| - 1 || a[1..][k] < b[1..][k]);
        assert a[..k + 1] == [a[0]] + a[1..][..k] && b[..k + 1] == [b[0]] + b[1..][..k];
      }
    }
    if k :| 0 <= k <= |a| && k < |b| && a[..k] == b[..k] && (k == |a| || a[k] < b[k]) {
      if k > 0 {
        assert a[0] == a[..k][0] == b[..k][0] == b[0];
        assert a[1..][..k - 1] == a[..k][1..] && b[1..][..k - 1] == b[..k][1..];
        BytesBelowIff(a[1..], b[1..]);
      }
    }
  }

  /** Eight bytes written for a number from -2^63 up to 2^63 - 1 are ordered as the numbers are. */
  lemma SignedIs(v: int)
    requires -0x8000_0000_0000_0000 <= v < 0x8000_0000_0000_0000
    ensures Signed(Le(8, if v < 0 then v + TWO64 else v)) == v
  {
    Powers();
    LeRoundTrip(8, if v < 0 then v + TWO64 else v);
  }

  lemma NumbersBelow(a: int, b: int)
    requires -0x8000_0000_0000_0000 <= a < 0x8000_0000_0000_0000 && -0x8000_0000_0000_0000 <= b < 0x8000_0000_0000_0000
    ensures Below(INT64_TYPE, Le(8, if a < 0 then a + TWO64 else a), Le(8, if b < 0 then b + TWO64 else b)) <==> a < b
  {
    hide Le;
    SignedIs(a);
    SignedIs(b);
  }

  lemma {:induction false} BytesIrreflexive(a: Key)
    ensures !BytesBelow(a, a)
  {
    if a != [] {
      BytesIrreflexive(a[1..]);
    }
  }

  lemma {:induction false} BytesTransitive(a: Key, b: Key, c: Key)
    requires BytesBelow(a, b) && BytesBelow(b, c)
    ensures BytesBelow(a, c)
  {
    if a != [] && a[0] == b[0] == c[0] {
      BytesTransitive(a[1..], b[1..], c[1..]);
    }
  }

  lemma {:induction false} BytesTotal(a: Key, b: Key)
    requires a != b
    ensures BytesBelow(a, b) || BytesBelow(b, a)
  {
    if a != [] && b != [] && a[0] == b[0] {
      assert a == [a[0]] + a[1..] && b == [b[0]] + b[1..];
      BytesTotal(a[1..], b[1..]);
    }
  }

  lemma SignedInjective(a: Key, b: Key)
    requires |a| == |b| == 8 && Signed(a) == Signed(b)
    ensures a == b
  {
    Powers();
    UnLeBound(a);
    UnLeBound(b);
    UnLeRoundTrip(a);
    UnLeRoundTrip(b);
  }

  lemma Irreflexive(dataType: nat, a: Key)
    ensures !Below(dataType, a, a)
  {
    BytesIrreflexive(a);
  }

  lemma Transitive(dataType: nat, a: Key, b: Key, c: Key)
    requires ValidKey(dataType, a) && ValidKey(dataType, b) && ValidKey(dataType, c)
    requires Below(dataType, a, b) && Below(dataType, b, c)
    ensures Below(dataType, a, c)
  {
    if dataType != INT64_TYPE {
      BytesTransitive(a, b, c);
    }
  }

  lemma Total(dataType: nat, a: Key, b: Key)
    requires ValidKey(dataType, a) && ValidKey(dataType, b)
    requires a != b
    ensures Below(dataType, a, b) || Below(dataType, b, a)
  {
    if dataType == INT64_TYPE {
      if Signed(a) == Signed(b) {
        SignedInjective(a, b);
      }
    } else {
      BytesTotal(a, b);
    }
  }

  lemma Asymmetric(dataType: nat, a: Key, b: Key)
    requires ValidKey(dataType, a) && ValidKey(dataType, b)
    requires Below(dataType, a, b)
    ensures !Below(dataType, b, a)
  {
    if Below(dataType, b, a) {
      Transitive(dataType, a, b, a);
      Irreflexive(dataType, a);
    }
  }

  /** `key_compare`: negative, zero or positive as `a` sorts before, at or after `b`. */
  method KeyCompare(a: Key, b: Key) returns (order: int)
    ensures order < 0 <==> BytesBelow(a, b)
    ensures order == 0 <==> a == b
    ensures order > 0 <==> BytesBelow(b, a)
  {
    var common := if |a| < |b| then |a| else |b|;
    var i := 0;
    while i < common
      invariant 0 <= i <= common
      invariant a[..i] == b[..i]
      invariant BytesBelow(a, b) <==> BytesBelow(a[i..], b[i..])
      invariant BytesBelow(b, a) <==> BytesBelow(b[i..], a[i..])
    {
      if a[i] != b[i] {
        return if a[i] < b[i] then -1 else 1;
      }
      assert a[i..][1..] == a[i + 1..] && b[i..][1..] == b[i + 1..];
      i := i + 1;
    }
    if |a| == |b| {
      BytesIrreflexive(a);
      assert a == a[..i] && b == b[..i];
      return 0;
    }
    return if |a| < |b| then -1 else 1;
  }

  // ----- order over entry lists

  /** Keys ascend strictly: the order a tree's entries are in. */
  ghost predicate StrictlyAscending(dataType: nat, s: seq<Entry>)
  {
    forall i, j | 0 <= i < j < |s| :: Below(dataType, s[i].key, s[j].key)
  }

  ghost predicate Ascending(dataType: nat, s: seq<Entry>)
  {
    forall i, j | 0 <= i < j < |s| :: !Below(dataType, s[j].key, s[i].key)
  }

  ghost predicate DistinctKeys(s: seq<Entry>)
  {
    forall i, j | 0 <= i < j < |s| :: s[i].key != s[j].key
  }

  lemma AscendingDistinctIsStrict(dataType: nat, s: seq<Entry>)
    requires ValidKeys(dataType, s) && Ascending(dataType, s) && DistinctKeys(s)
    ensures StrictlyAscending(dataType, s)
  {
    forall i, j | 0 <= i < j < |s|
      ensures Below(dataType, s[i].key, s[j].key)
    {
      Total(dataType, s[i].key, s[j].key);
    }
  }

  /** Insertion into an ascending list, after the entries with an equal key. */
  function Insert(dataType: nat, e: Entry, s: seq<Entry>): (r: seq<Entry>)
    ensures multiset(r) == multiset(s) + multiset{e}
    ensures |r| == |s| + 1
  {
    if s == [] then [e]
    else if Below(dataType, e.key, s[|s| - 1].key) then
      assert s == s[..|s| - 1] + [s[|s| - 1]];
      Insert(dataType, e, s[..|s| - 1]) + [s[|s| - 1]]
    else s + [e]
  }

  /** Python's stable `sorted(entries, key=...)`. */
  function Sort(dataType: nat, s: seq<Entry>): (r: seq<Entry>)
    ensures multiset(r) == multiset(s) && |r| == |s|
  {
    if s == [] then []
    else
      assert s == s[..|s| - 1] + [s[|s| - 1]];
      Insert(dataType, s[|s| - 1], Sort(dataType, s[..|s| - 1]))
  }

  lemma InMultiset<T>(s: seq<T>, r: seq<T>)
    requires multiset(s) == multiset(r)
    ensures forall e :: e in s <==> e in r
  {
    forall e ensures e in s <==> e in r {
      assert e in multiset(s) <==> e in multiset(r);
    }
  }

  lemma AppendAscending(dataType: nat, s: seq<Entry>, e: Entry)
    requires Ascending(dataType, s) && forall x | x in s :: !Below(dataType, e.key, x.key)
    ensures Ascending(dataType, s + [e])
  {
  }

  /** An entry not below the last is below none. */
  lemma NotBelowAny(dataType: nat, s: seq<Entry>, e: Entry)
    requires ValidKeys(dataType, s) && ValidKey(dataType, e.key) && Ascending(dataType, s)
    requires s != [] && !Below(dataType, e.key, s[|s| - 1].key)
    ensures forall x | x in s :: !Below(dataType, e.key, x.key)
  {
    var last := s[|s| - 1];
    forall i | 0 <= i < |s| ensures !Below(dataType, e.key, s[i].key) {
      if s[i].key != last.key && Below(dataType, e.key, s[i].key) {
        Total(dataType, s[i].key, last.key);
        Transitive(dataType, e.key, s[i].key, last.key);
      }
    }
  }

  lemma {:induction false} InsertAscending(dataType: nat, e: Entry, s: seq<Entry>)
    requires ValidKeys(dataType, s) && ValidKey(dataType, e.key) && Ascending(dataType, s)
    ensures Ascending(dataType, Insert(dataType, e, s))
  {
    if s != [] {
      var t, last := s[..|s| - 1], s[|s| - 1];
      if Below(dataType, e.key, last.key) {
        InsertAscending(dataType, e, t);
        Asymmetric(dataType, e.key, last.key);
        var r := Insert(dataType, e, t);
        InMultiset(r, t + [e]);
        AppendAscending(dataType, r, last);
      } else {
        NotBelowAny(dataType, s, e);
        AppendAscending(dataType, s, e);
      }
    }
  }

  lemma {:induction false} SortAscending(dataType: nat, s: seq<Entry>)
    requires ValidKeys(dataType, s)
    ensures Ascending(dataType, Sort(dataType, s)) && ValidKeys(dataType, Sort(dataType, s))
  {
    InMultiset(s, Sort(dataType, s));
    assert forall e | e in s :: ValidKey(dataType, e.key);
    if s != [] {
      var t := s[..|s| - 1];
      SortAscending(dataType, t);
      InMultiset(t, Sort(dataType, t));
      InsertAscending(dataType, s[|s| - 1], Sort(dataType, t));
    }
  }

  // ----- distinctness is a property of the multiset

  ghost predicate Distinct<T, U>(s: seq<T>, f: T -> U)
  {
    forall i, j | 0 <= i < j < |s| :: f(s[i]) != f(s[j])
  }

  lemma Twice<T>(s: seq<T>, i: nat, j: nat)
    requires i < j < |s| && s[i] == s[j]
    ensures multiset(s)[s[i]] >= 2
  {
    assert s == s[..i] + [s[i]] + s[i + 1..j] + [s[j]] + s[j + 1..];
  }

  lemma Once<T, U>(s: seq<T>, f: T -> U, p: nat)
    requires Distinct(s, f) && p < |s|
    ensures multiset(s)[s[p]] == 1
  {
    assert s == s[..p] + [s[p]] + s[p + 1..];
    assert s[p] !in s[..p] && s[p] !in s[p + 1..];
  }

  /** Reordering keeps what tells the elements apart. */
  lemma DistinctKept<T, U>(a: seq<T>, b: seq<T>, f: T -> U)
    requires multiset(a) == multiset(b) && Distinct(b, f)
    ensures Distinct(a, f)
  {
    InMultiset(a, b);
    forall i, j | 0 <= i < j < |a| ensures f(a[i]) != f(a[j]) {
      assert a[i] in b && a[j] in b;
      var p, q :| 0 <= p < |b| && 0 <= q < |b| && b[p] == a[i] && b[q] == a[j];
      if f(a[i]) == f(a[j]) {
        assert p == q;
        Once(b, f, p);
        Twice(a, i, j);
      }
    }
  }

  lemma DistinctAfterSort(dataType: nat, s: seq<Entry>)
    requires DistinctKeys(s)
    ensures DistinctKeys(Sort(dataType, s))
  {
    DistinctKept(Sort(dataType, s), s, (e: Entry) => e.key);
  }

  /** Sorting entries with distinct keys gives a strictly ascending list. */
  lemma SortStrict(dataType: nat, s: seq<Entry>)
    requires ValidKeys(dataType, s) && DistinctKeys(s)
    ensures StrictlyAscending(dataType, Sort(dataType, s))
  {
    SortAscending(dataType, s);
    DistinctAfterSort(dataType, s);
    AscendingDistinctIsStrict(dataType, Sort(dataType, s));
  }

  // ----- an entry list as a plain sorted map

  /** The value under `key`, by plain search of the list: the reference a tree refines. */
  function Lookup(s: seq<Entry>, key: Key): (r: Option<nat>)
    ensures r.Some? ==> Entry(key, r.value) in s
    ensures r.None? <==> forall i | 0 <= i < |s| :: s[i].key != key
  {
    if s == [] then None
    else if s[0].key == key then Some(s[0].value)
    else Lookup(s[1..], key)
  }

  /** With distinct keys the list is a function: `Lookup` finds the entry that is there. */
  lemma LookupPresent(s: seq<Entry>, i: nat)
    requires DistinctKeys(s) && i < |s|
    ensures Lookup(s, s[i].key) == Some(s[i].value)
  {
    var r := Lookup(s, s[i].key);
    assert Entry(s[i].key, r.value) in s;
  }
}
