/** UTF-8, as `str.encode("utf-8")` writes it. */
module Utf8 {
  import opened Bytes

  /** One character: a byte below 128, or a lead byte and up to three more of 128 and above. */
  function EncodeChar(c: char): (s: seq<byte>)
    ensures 1 <= |s| <= 4
  {
    var n := c as int;
    if n < 0x80 then [n]
    else if n < 0x800 then [0xC0 + n / 64, 0x80 + n % 64]
    else if n < 0x1_0000 then [0xE0 + n / 4096, 0x80 + n / 64 % 64, 0x80 + n % 64]
    else [0xF0 + n / 262144, 0x80 + n / 4096 % 64, 0x80 + n / 64 % 64, 0x80 + n % 64]
  }

  function Encode(s: string): seq<byte>
  {
    if s == [] then [] else EncodeChar(s[0]) + Encode(s[1..])
  }

  lemma {:induction false} EncodeAppend(a: string, b: string)
    ensures Encode(a + b) == Encode(a) + Encode(b)
  {
    if a == [] {
      assert a + b == b;
    } else {
      assert (a + b)[1..] == a[1..] + b;
      EncodeAppend(a[1..], b);
    }
  }

  lemma EncodeOne(c: char)
    ensures Encode([c]) == EncodeChar(c)
  {
    assert Encode([]) == [];
  }

  /** A byte below 128 stands for itself and is part of no other character. */
  lemma AsciiByte(c: char, b: byte)
    requires b < 128
    ensures b in EncodeChar(c) <==> c == b as char
  {
  }

  lemma {:induction false} AsciiIn(s: string, b: byte)
    requires b < 128
    ensures b in Encode(s) <==> (b as char) in s
  {
    hide EncodeChar;
    if s != [] {
      AsciiByte(s[0], b);
      AsciiIn(s[1..], b);
      assert s == [s[0]] + s[1..];
    }
  }

  /** A character's first byte tells its length. */
  function Length(lead: byte): nat
  {
    if lead < 0x80 then 1 else if lead < 0xE0 then 2 else if lead < 0xF0 then 3 else 4
  }

  /** The number a character's bytes spell. */
  function Spelled(s: seq<byte>): int
    requires s != [] && Length(s[0]) == |s|
  {
    var a: int := s[0];
    if |s| == 1 then a
    else
      var b: int := s[1];
      if |s| == 2 then (a - 0xC0) * 64 + (b - 0x80)
      else
        var c: int := s[2];
        if |s| == 3 then ((a - 0xE0) * 64 + (b - 0x80)) * 64 + (c - 0x80)
        else
          var d: int := s[3];
          (((a - 0xF0) * 64 + (b - 0x80)) * 64 + (c - 0x80)) * 64 + (d - 0x80)
  }

  lemma CharRoundTrip(c: char)
    ensures var s := EncodeChar(c); Length(s[0]) == |s| && Spelled(s) == c as int
  {
    var n := c as int;
    var q := n / 64;
    assert n == 64 * q + n % 64;
    assert n / 4096 == q / 64 && n / 262144 == q / 64 / 64;
  }

  lemma FirstChar(a: char, x: seq<byte>, b: char, y: seq<byte>)
    requires EncodeChar(a) + x == EncodeChar(b) + y
    ensures a == b && x == y
  {
    hide EncodeChar, Spelled;
    CharRoundTrip(a);
    CharRoundTrip(b);
    var s, t := EncodeChar(a) + x, EncodeChar(b) + y;
    assert s[0] == EncodeChar(a)[0] && t[0] == EncodeChar(b)[0];
    assert EncodeChar(a) == s[..|EncodeChar(a)|] && EncodeChar(b) == t[..|EncodeChar(b)|];
    assert x == s[|EncodeChar(a)|..] && y == t[|EncodeChar(b)|..];
  }

  /** Different strings have different bytes. */
  lemma {:induction false} EncodeInjective(a: string, b: string)
    requires Encode(a) == Encode(b)
    ensures a == b
  {
    hide EncodeChar;
    if a != [] && b != [] {
      FirstChar(a[0], Encode(a[1..]), b[0], Encode(b[1..]));
      EncodeInjective(a[1..], b[1..]);
      assert a == [a[0]] + a[1..] && b == [b[0]] + b[1..];
    }
  }
}
