/** Plural forms: how `translated_of` joins them, and how the toolkit's `nul_field` takes them
    apart. */
module CatalogueForms {
  import opened Bytes

  /** `"\\0".join(forms)`. */
  function Joined(forms: seq<seq<byte>>): seq<byte>
  {
    if forms == [] then [] else if |forms| == 1 then forms[0] else forms[0] + [NUL] + Joined(forms[1..])
  }

  /** The forms with an index below `n`, by index. */
  function FormsTo<T>(forms: map<nat, T>, n: nat): seq<T>
  {
    if n == 0 then [] else FormsTo(forms, n - 1) + if n - 1 in forms then [forms[n - 1]] else []
  }

  /** How many forms come before index `k`. */
  function Rank<T>(forms: map<nat, T>, k: nat): nat { |FormsTo(forms, k)| }

  lemma {:induction false} RankedForm<T>(forms: map<nat, T>, k: nat, n: nat)
    requires k in forms && k < n
    ensures Rank(forms, k) < |FormsTo(forms, n)| && FormsTo(forms, n)[Rank(forms, k)] == forms[k]
    decreases n
  {
    if k < n - 1 {
      RankedForm(forms, k, n - 1);
    }
  }

  /** A form's place is its index exactly when no index below it is missing. */
  lemma {:induction false} RankIsIndexIff<T>(forms: map<nat, T>, k: nat)
    ensures Rank(forms, k) <= k
    ensures Rank(forms, k) == k <==> forall j | 0 <= j < k :: j in forms
  {
    if k > 0 {
      RankIsIndexIff(forms, k - 1);
    }
  }

  function NulAt(blob: seq<byte>, start: nat): (i: nat)
    requires start <= |blob|
    ensures start <= i <= |blob| && (i < |blob| ==> blob[i] == NUL)
    ensures forall k | start <= k < i :: blob[k] != NUL
    decreases |blob| - start
  {
    if start == |blob| || blob[start] == NUL then start else NulAt(blob, start + 1)
  }

  /** The field `index` places behind the one that begins at `start`. */
  function FieldFrom(blob: seq<byte>, start: nat, index: nat): seq<byte>
    requires start <= |blob|
    decreases index
  {
    var stop := NulAt(blob, start);
    if index == 0 then blob[start..stop] else if stop == |blob| then [] else FieldFrom(blob, stop + 1, index - 1)
  }

  /** `nul_field`. */
  method NulField(blob: seq<byte>, index: nat) returns (field: seq<byte>)
    ensures field == FieldFrom(blob, 0, index)
  {
    var current, start := 0, 0;
    while true
      invariant 0 <= start <= |blob| && current <= index
      invariant FieldFrom(blob, 0, index) == FieldFrom(blob, start, index - current)
      decreases index - current
    {
      var stop := NulAt(blob, start);
      if current == index {
        return blob[start..stop];
      }
      if stop == |blob| {
        return [];
      }
      start := stop + 1;
      current := current + 1;
    }
  }

  ghost predicate NulFree(forms: seq<seq<byte>>)
  {
    forall i | 0 <= i < |forms| :: NUL !in forms[i]
  }

  lemma NulAfter(blob: seq<byte>, start: nat, form: seq<byte>)
    requires start + |form| <= |blob| && blob[start..start + |form|] == form && NUL !in form
    requires start + |form| == |blob| || blob[start + |form|] == NUL
    ensures NulAt(blob, start) == start + |form|
  {
    var i := NulAt(blob, start);
    forall k | start <= k < start + |form| ensures blob[k] != NUL {
      assert blob[k] == blob[start..start + |form|][k - start];
    }
  }

  lemma JoinedFirst(forms: seq<seq<byte>>, blob: seq<byte>, start: nat)
    requires forms != [] && start <= |blob| && blob[start..] == Joined(forms)
    ensures var stop := start + |forms[0]|;
            && stop <= |blob| && blob[start..stop] == forms[0]
            && (|forms| == 1 ==> stop == |blob|)
            && (|forms| > 1 ==> stop < |blob| && blob[stop] == NUL && blob[stop + 1..] == Joined(forms[1..]))
  {
    var form, tail := forms[0], blob[start..];
    if |forms| > 1 {
      var rest := Joined(forms[1..]);
      assert tail == form + [NUL] + rest;
      assert tail[|form| + 1..] == rest;
      assert blob[start + |form| + 1..] == tail[|form| + 1..];
    }
    assert blob[start..start + |form|] == tail[..|form|] == form;
  }

  lemma FieldStep(blob: seq<byte>, start: nat, stop: nat, k: nat)
    requires start <= stop <= |blob| && NulAt(blob, start) == stop
    ensures k == 0 ==> FieldFrom(blob, start, k) == blob[start..stop]
    ensures k > 0 && stop == |blob| ==> FieldFrom(blob, start, k) == []
    ensures k > 0 && stop < |blob| ==> FieldFrom(blob, start, k) == FieldFrom(blob, stop + 1, k - 1)
  {
  }

  /** Every form comes out of the joined ones by its place, and past the last there is nothing. */
  lemma {:induction false} FieldsOfJoined(blob: seq<byte>, start: nat, forms: seq<seq<byte>>, k: nat)
    requires start <= |blob| && blob[start..] == Joined(forms) && forms != [] && NulFree(forms)
    ensures FieldFrom(blob, start, k) == if k < |forms| then forms[k] else []
    decreases |forms|
  {
    hide Joined, FieldFrom, NulAt;
    var stop := start + |forms[0]|;
    JoinedFirst(forms, blob, start);
    NulAfter(blob, start, forms[0]);
    FieldStep(blob, start, stop, k);
    if |forms| > 1 && k > 0 {
      FieldsOfJoined(blob, stop + 1, forms[1..], k - 1);
    }
  }

  /** The reader finds a form at its place among those there are. */
  lemma FormAtRank(forms: map<nat, seq<byte>>, n: nat, k: nat)
    requires k in forms && k < n && forall i | i in forms :: NUL !in forms[i]
    ensures FieldFrom(Joined(FormsTo(forms, n)), 0, Rank(forms, k)) == forms[k]
  {
    hide Joined, FieldFrom;
    RankedForm(forms, k, n);
    FormsAreFree(forms, n);
    var blob := Joined(FormsTo(forms, n));
    assert blob[0..] == blob;
    FieldsOfJoined(blob, 0, FormsTo(forms, n), Rank(forms, k));
  }

  lemma {:induction false} FormsFrom<T>(forms: map<nat, T>, n: nat, r: nat) returns (k: nat)
    requires r < |FormsTo(forms, n)|
    ensures k in forms && k < n && Rank(forms, k) == r && FormsTo(forms, n)[r] == forms[k]
    decreases n
  {
    if r < |FormsTo(forms, n - 1)| {
      k := FormsFrom(forms, n - 1, r);
    } else {
      k := n - 1;
    }
  }

  /** Where the texts are different and none is empty, the reader's form `k` is the catalogue's
      form `k` exactly when no lower index is missing. */
  lemma FormsReadIff(forms: map<nat, seq<byte>>, n: nat, k: nat)
    requires k in forms && k < n && forall i | i in forms :: NUL !in forms[i]
    requires forms[k] != [] && forall i | i in forms && i != k :: forms[i] != forms[k]
    ensures FieldFrom(Joined(FormsTo(forms, n)), 0, k) == forms[k] <==> forall j | 0 <= j < k :: j in forms
  {
    hide Joined, FieldFrom, FormsTo, Rank;
    RankIsIndexIff(forms, k);
    FormAtRank(forms, n, k);
    FormsAreFree(forms, n);
    SomeForms(forms, n, k);
    var blob, all := Joined(FormsTo(forms, n)), FormsTo(forms, n);
    assert blob[0..] == blob;
    FieldsOfJoined(blob, 0, all, k);
    if k < |all| {
      var i := FormsFrom(forms, n, k);
    }
  }

  /** A catalogue that gives form 1 alone: the reader has it under 0. */
  lemma FormMoved()
    ensures var blob := Joined(FormsTo(map[1 := [120]], 2));
            FieldFrom(blob, 0, 0) == [120] && FieldFrom(blob, 0, 1) != [120]
  {
    hide Joined, FieldFrom;
    var forms: map<nat, seq<byte>> := map[1 := [120]];
    assert FormsTo(forms, 0) == [] && FormsTo(forms, 1) == [];
    assert Rank(forms, 1) == 0;
    FormAtRank(forms, 2, 1);
    FormsReadIff(forms, 2, 1);
    assert 0 !in forms;
  }

  lemma SomeForms<T>(forms: map<nat, T>, n: nat, k: nat)
    requires k in forms && k < n
    ensures FormsTo(forms, n) != []
  {
    RankedForm(forms, k, n);
  }

  lemma {:induction false} FormsAreFree(forms: map<nat, seq<byte>>, n: nat)
    requires forall i | i in forms :: NUL !in forms[i]
    ensures NulFree(FormsTo(forms, n))
  {
    if n > 0 {
      FormsAreFree(forms, n - 1);
    }
  }
}
