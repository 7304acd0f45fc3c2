/** Bytes, little-endian integers and in-place buffer writes, as `struct.pack_into`,
    slice assignment and the guest's `le16`/`le32`/`le64` use them. */
module Bytes {

  type byte = x: int | 0 <= x < 256

  datatype Option<+T> = None | Some(value: T)

  /** The volume's block size. */
  const BLOCK: nat := 2048

  /** The all-ones 64-bit link: BPLUSTREE_NULL. */
  const NULL_LINK: nat := 0xFFFF_FFFF_FFFF_FFFF
  const NUL: byte := 0
  const TWO16: nat := 0x1_0000
  const TWO32: nat := 0x1_0000_0000
  const TWO64: nat := 0x1_0000_0000_0000_0000

  function Zeros(n: nat): (s: seq<byte>)
    ensures |s| == n && forall i | 0 <= i < n :: s[i] == 0
  {
    seq(n, _ => 0)
  }

  function Pow256(n: nat): (p: nat)
    ensures p > 0
  {
    if n == 0 then 1 else 256 * Pow256(n - 1)
  }

  /** The low `width` bytes of `value`, least significant first. */
  function Le(width: nat, value: nat): (s: seq<byte>)
    ensures |s| == width
  {
    if width == 0 then [] else [value % 256] + Le(width - 1, value / 256)
  }

  /** The number a little-endian field holds. */
  function UnLe(s: seq<byte>): (v: nat)
  {
    if s == [] then 0 else s[0] + 256 * UnLe(s[1..])
  }

  lemma {:induction false} LeRoundTrip(width: nat, value: nat)
    requires value < Pow256(width)
    ensures UnLe(Le(width, value)) == value
  {
    if width > 0 {
      assert Le(width, value)[1..] == Le(width - 1, value / 256);
      LeRoundTrip(width - 1, value / 256);
    }
  }

  /** Byte `i` of a number is its digit of weight 256 to the i. */
  lemma {:induction false} LeByte(width: nat, value: nat, i: nat)
    requires i < width
    ensures Le(width, value)[i] == value / Pow256(i) % 256
    decreases i
  {
    if i == 0 {
      assert Pow256(0) == 1;
    } else {
      LeByte(width - 1, value / 256, i - 1);
      DivTwice(value, Pow256(i - 1));
    }
  }

  lemma DivTwice(value: nat, p: nat)
    requires p > 0
    ensures value / 256 / p == value / (256 * p)
  {
    var q, r := value / (256 * p), value % (256 * p);
    assert value == 256 * p * q + r;
    var a := value / 256;
    assert r / 256 < p;
    assert a == p * q + r / 256 by {
      assert value == 256 * (p * q) + r;
    }
    DivUnique(a, p, q, r / 256);
  }

  lemma DivUnique(a: nat, p: nat, q: nat, r: nat)
    requires p > 0 && a == p * q + r && r < p
    ensures a / p == q
  {
    var k := a / p;
    FactorLess(p, k, q + 1);
    FactorLess(p, q, k + 1);
  }

  lemma FactorLess(p: nat, a: nat, b: nat)
    ensures p * a < p * b ==> a < b
  {
    if a >= b {
      assert p * (a - b) >= 0;
    }
  }

  lemma {:induction false} UnLeBound(s: seq<byte>)
    ensures UnLe(s) < Pow256(|s|)
  {
    if s != [] {
      UnLeBound(s[1..]);
    }
  }

  /** Decoding a field loses nothing: distinct fields hold distinct numbers. */
  lemma {:induction false} UnLeRoundTrip(s: seq<byte>)
    ensures Le(|s|, UnLe(s)) == s
  {
    if s != [] {
      UnLeRoundTrip(s[1..]);
      LowDigit(s[0], UnLe(s[1..]));
      assert s == [s[0]] + s[1..];
    }
  }

  lemma LowDigit(low: nat, high: nat)
    requires low < 256
    ensures (low + 256 * high) % 256 == low && (low + 256 * high) / 256 == high
  {
  }

  lemma Powers()
    ensures Pow256(2) == TWO16 && Pow256(4) == TWO32 && Pow256(8) == TWO64
  {
    assert Pow256(2) == 256 * Pow256(1) && Pow256(1) == 256;
    assert Pow256(4) == 256 * Pow256(3) && Pow256(3) == 256 * Pow256(2);
    assert Pow256(8) == 256 * Pow256(7) && Pow256(7) == 256 * Pow256(6);
    assert Pow256(6) == 256 * Pow256(5) && Pow256(5) == 256 * Pow256(4);
  }

  lemma Le16(value: nat)
    requires value < TWO16
    ensures UnLe(Le(2, value)) == value
  {
    Powers();
    LeRoundTrip(2, value);
  }

  lemma Le64(value: nat)
    requires value < TWO64
    ensures UnLe(Le(8, value)) == value
  {
    Powers();
    LeRoundTrip(8, value);
  }

  /** `buf[at : at + |data|] = data`, inside the buffer. */
  function Splice(buf: seq<byte>, at: nat, data: seq<byte>): (r: seq<byte>)
    requires at + |data| <= |buf|
    ensures |r| == |buf|
    ensures forall i | 0 <= i < |buf| :: r[i] == if at <= i < at + |data| then data[i - at] else buf[i]
  {
    buf[..at] + data + buf[at + |data|..]
  }

  /** The `width`-byte little-endian field at `at`. */
  function Field(buf: seq<byte>, at: nat, width: nat): (v: nat)
    requires at + width <= |buf|
  {
    UnLe(buf[at..at + width])
  }

  lemma FieldIs(buf: seq<byte>, at: nat, width: nat, value: nat)
    requires at + width <= |buf| && buf[at..at + width] == Le(width, value) && value < Pow256(width)
    ensures Field(buf, at, width) == value
  {
    LeRoundTrip(width, value);
  }

  /** Slice assignment into a fixed buffer. */
  method Put(buf: array<byte>, at: nat, data: seq<byte>)
    requires at + |data| <= buf.Length
    modifies buf
    ensures buf[..] == Splice(old(buf[..]), at, data)
  {
    for k := 0 to |data|
      invariant forall i | 0 <= i < buf.Length ::
          buf[i] == if at <= i < at + k then data[i - at] else old(buf[i])
    {
      buf[at + k] := data[k];
    }
  }

  lemma TailSlice<T>(s: seq<T>, t: seq<T>)
    ensures (s + t)[|s|..] == t && (s + t)[|s|..|s| + |t|] == t
  {
  }

  lemma SliceAfter<T>(s: seq<T>, a: nat, b: nat, n: nat)
    requires a <= |s| && b + n <= |s[a..]|
    ensures s[a + b..a + b + n] == s[a..][b..b + n]
  {
  }

  lemma HeadSlice<T>(s: seq<T>, t: seq<T>, a: nat, b: nat)
    requires a <= b <= |s|
    ensures (s + t)[a..b] == s[a..b]
  {
  }

  // ----- lists of parts

  function Concat<T>(ss: seq<seq<T>>): seq<T>
  {
    if ss == [] then [] else ss[0] + Concat(ss[1..])
  }

  lemma {:induction false} ConcatAppend<T>(a: seq<seq<T>>, b: seq<seq<T>>)
    ensures Concat(a + b) == Concat(a) + Concat(b)
  {
    if a == [] {
      assert a + b == b;
    } else {
      assert (a + b)[1..] == a[1..] + b;
      ConcatAppend(a[1..], b);
    }
  }

  lemma ConcatOne<T>(s: seq<T>)
    ensures Concat([s]) == s
  {
    assert [s][1..] == [];
    assert Concat<T>([]) == [];
  }

  lemma ConcatLast<T>(ss: seq<seq<T>>, s: seq<T>)
    ensures Concat(ss + [s]) == Concat(ss) + s
  {
    ConcatAppend(ss, [s]);
    ConcatOne(s);
  }

  function Pow2(n: nat): (p: nat)
    ensures p > 0
  {
    if n == 0 then 1 else 2 * Pow2(n - 1)
  }
}
