/** Unicode class tables: a flat array of code points overlaid range by range, the runs it
    collapses to, and the binary search the generated code does over them. */
module BidiTable {
  import opened Bytes

  // ----- the flat array

  /** One line of the data file: a span of code points and their class. */
  datatype Span = Span(start: nat, end: nat, cls: nat)

  predicate Covers(s: Span, cp: nat) { s.start <= cp <= s.end }

  /** The class of a code point: the last line that covers it, or the default. */
  function ClassOf(spans: seq<Span>, default: nat, cp: nat): nat
  {
    if spans == [] then default
    else if Covers(spans[|spans| - 1], cp) then spans[|spans| - 1].cls
    else ClassOf(spans[..|spans| - 1], default, cp)
  }

  /** The lines overwrite the array in file order; a span past its end is an index error. */
  method ClassTable(spans: seq<Span>, default: nat, size: nat) returns (r: Option<seq<nat>>)
    ensures r.Some? <==> forall i | 0 <= i < |spans| :: spans[i].start <= spans[i].end ==> spans[i].end < size
    ensures r.Some? ==> |r.value| == size && forall cp | 0 <= cp < size :: r.value[cp] == ClassOf(spans, default, cp)
  {
    var codes := new nat[size](_ => default);
    for i := 0 to |spans|
      invariant forall k | 0 <= k < i :: spans[k].start <= spans[k].end ==> spans[k].end < size
      invariant forall cp | 0 <= cp < size :: codes[cp] == ClassOf(spans[..i], default, cp)
    {
      var span := spans[i];
      assert spans[..i + 1][..i] == spans[..i];
      if span.start <= span.end && span.end >= size {
        return None;
      }
      for cp := span.start to (if span.start <= span.end then span.end + 1 else span.start)
        invariant forall k | 0 <= k < size ::
            codes[k] == if span.start <= k < cp then span.cls else ClassOf(spans[..i], default, k)
      {
        codes[cp] := span.cls;
      }
    }
    assert spans[..|spans|] == spans;
    return Some(codes[..]);
  }

  // ----- the runs

  datatype Range = Range(first: nat, last: nat, cls: nat)

  /** Ranges one after another over `codes[..n]`, each of one class, and neighbours of
      different ones. */
  ghost predicate Runs(ranges: seq<Range>, codes: seq<nat>, n: nat)
  {
    && n <= |codes|
    && (forall i | 0 <= i < |ranges| ::
          && ranges[i].first <= ranges[i].last < n
          && forall cp | ranges[i].first <= cp <= ranges[i].last :: codes[cp] == ranges[i].cls)
    && (if ranges == [] then n == 0 else ranges[0].first == 0 && ranges[|ranges| - 1].last + 1 == n)
    && (forall i, j | 0 <= i < |ranges| && j == i + 1 < |ranges| ::
          ranges[j].first == ranges[i].last + 1 && ranges[j].cls != ranges[i].cls)
  }

  lemma RunsNext(ranges: seq<Range>, codes: seq<nat>, start: nat, end: nat)
    requires start < end <= |codes| && Runs(ranges, codes, start)
    requires forall k | start <= k < end :: codes[k] == codes[start]
    requires ranges != [] ==> ranges[|ranges| - 1].cls != codes[start]
    ensures Runs(ranges + [Range(start, end - 1, codes[start])], codes, end)
  {
    var more := ranges + [Range(start, end - 1, codes[start])];
    forall i, j | 0 <= i < |more| && j == i + 1 < |more|
      ensures more[j].first == more[i].last + 1 && more[j].cls != more[i].cls
    {
      assert more[i] == ranges[i];
      assert j < |ranges| ==> more[j] == ranges[j];
    }
  }

  lemma NoRuns(codes: seq<nat>)
    ensures Runs([], codes, 0)
  {
  }

  /** `run_lengths`. */
  method RunLengths(codes: seq<nat>) returns (ranges: seq<Range>)
    ensures Runs(ranges, codes, |codes|)
  {
    ranges := [];
    NoRuns(codes);
    var start := 0;
    for cp := 1 to |codes| + 1
      invariant codes == [] || 0 <= start < cp
      invariant cp <= |codes| ==> start < |codes| && Runs(ranges, codes, start)
      invariant cp <= |codes| ==> forall k | start <= k < cp :: codes[k] == codes[start]
      invariant cp <= |codes| && ranges != [] ==> ranges[|ranges| - 1].cls != codes[start]
      invariant cp == |codes| + 1 ==> Runs(ranges, codes, |codes|)
    {
      hide Runs;
      if cp == |codes| || codes[cp] != codes[start] {
        RunsNext(ranges, codes, start, cp);
        ranges := ranges + [Range(start, cp - 1, codes[start])];
        start := cp;
      }
    }
  }

  lemma {:induction false} FirstsRise(ranges: seq<Range>, codes: seq<nat>, n: nat, i: nat, j: nat)
    requires Runs(ranges, codes, n) && i < j < |ranges|
    ensures ranges[i].last < ranges[j].first
    decreases j
  {
    var k := j - 1;
    assert ranges[j].first == ranges[k].last + 1;
    if i < k {
      FirstsRise(ranges, codes, n, i, k);
    }
  }

  lemma LastSame(a: seq<Range>, b: seq<Range>, codes: seq<nat>, n: nat)
    requires Runs(a, codes, n) && Runs(b, codes, n) && n > 0
    ensures a != [] && b != [] && a[|a| - 1] == b[|b| - 1]
  {
    assert codes[n - 1] == a[|a| - 1].cls == b[|b| - 1].cls;
    LastStarts(a, b, codes, n);
    LastStarts(b, a, codes, n);
  }

  /** The runs are the only such cover. */
  lemma {:induction false} RunsUnique(a: seq<Range>, b: seq<Range>, codes: seq<nat>, n: nat)
    requires Runs(a, codes, n) && Runs(b, codes, n)
    ensures a == b
    decreases |a|
  {
    if n > 0 {
      LastSame(a, b, codes, n);
      hide Runs;
      var x, y := a[|a| - 1], b[|b| - 1];
      AllButLast(a, codes, n);
      AllButLast(b, codes, n);
      RunsUnique(a[..|a| - 1], b[..|b| - 1], codes, x.first);
      assert a == a[..|a| - 1] + [x] && b == b[..|b| - 1] + [y];
    } else {
      assert a == [] && b == [];
    }
  }

  lemma AllButLast(a: seq<Range>, codes: seq<nat>, n: nat)
    requires Runs(a, codes, n) && a != []
    ensures Runs(a[..|a| - 1], codes, a[|a| - 1].first)
  {
    var m := |a| - 1;
    forall i | 0 <= i < m ensures a[i].last < a[m].first {
      FirstsRise(a, codes, n, i, m);
    }
    if m > 0 {
      var k := m - 1;
      assert a[m].first == a[k].last + 1;
    }
  }

  /** Neither last run can start before the other's: the code point before it differs. */
  lemma LastStarts(a: seq<Range>, b: seq<Range>, codes: seq<nat>, n: nat)
    requires Runs(a, codes, n) && Runs(b, codes, n) && n > 0
    ensures a[|a| - 1].first <= b[|b| - 1].first
  {
    var m := |a| - 1;
    if m > 0 {
      var k := m - 1;
      assert a[m].first == a[k].last + 1 && a[m].cls != a[k].cls;
      assert codes[a[k].last] == a[k].cls;
      assert codes[n - 1] == a[m].cls == b[|b| - 1].cls;
    }
  }

  // ----- the lookup

  /** The emitted `bidi_class_lookup`: the flat array at every code point, and the default past
      its end. */
  method Lookup(ranges: seq<Range>, default: nat, c: nat, ghost codes: seq<nat>) returns (cls: nat)
    requires Runs(ranges, codes, |codes|)
    ensures cls == if c < |codes| then codes[c] else default
  {
    var lo, hi := 0, |ranges|;
    while lo < hi
      invariant 0 <= lo <= hi <= |ranges|
      invariant forall i | 0 <= i < lo :: ranges[i].last < c
      invariant forall i | hi <= i < |ranges| :: c < ranges[i].first
      decreases hi - lo
    {
      var mid := (lo + hi) / 2;
      if c < ranges[mid].first {
        forall i | mid < i < |ranges| ensures c < ranges[i].first {
          FirstsRise(ranges, codes, |codes|, mid, i);
        }
        hi := mid;
      } else if c > ranges[mid].last {
        forall i | 0 <= i < mid ensures ranges[i].last < c {
          FirstsRise(ranges, codes, |codes|, i, mid);
        }
        lo := mid + 1;
      } else {
        return ranges[mid].cls;
      }
    }
    ghost var i := RunOf(ranges, codes, |codes|, c);
    return default;
  }

  /** Every code point of the array is in some run. */
  lemma {:induction false} RunOf(ranges: seq<Range>, codes: seq<nat>, n: nat, c: nat) returns (i: nat)
    requires Runs(ranges, codes, n)
    ensures c < n ==> i < |ranges| && ranges[i].first <= c <= ranges[i].last
    decreases |ranges|
  {
    i := 0;
    if c < n {
      i := |ranges| - 1;
      if c < ranges[i].first {
        AllButLast(ranges, codes, n);
        i := RunOf(ranges[..i], codes, ranges[i].first, c);
      }
    }
  }

  /** A table built from the data file's lines looks up the last line that covers a code point. */
  method TableLookup(spans: seq<Span>, default: nat, size: nat, c: nat) returns (r: Option<nat>)
    ensures r.Some? <==> forall i | 0 <= i < |spans| :: spans[i].start <= spans[i].end ==> spans[i].end < size
    ensures r.Some? ==> r.value == if c < size then ClassOf(spans, default, c) else default
  {
    var codes := ClassTable(spans, default, size);
    if codes.None? {
      return None;
    }
    var ranges := RunLengths(codes.value);
    var cls := Lookup(ranges, default, c, codes.value);
    return Some(cls);
  }
}
