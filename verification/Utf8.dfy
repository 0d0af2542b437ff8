/** UTF-8 (RFC 3629), as TextEncoder writes it: one to four bytes a character, and no two texts alike. */
module Utf8 {
  import opened Wrappers
  import opened Bits

  /** The bytes of one character. */
  function EncodeChar(c: char): (r: seq<byte>)
    ensures 1 <= |r| <= 4
  {
    var n := c as int;
    if n < 0x80 then [n]
    else if n < 0x800 then [0xC0 + n / 64, 0x80 + n % 64]
    else if n < 0x10000 then [0xE0 + n / 4096, 0x80 + n / 64 % 64, 0x80 + n % 64]
    else [0xF0 + n / 262144, 0x80 + n / 4096 % 64, 0x80 + n / 64 % 64, 0x80 + n % 64]
  }

  function Encode(s: string): (r: seq<byte>)
    ensures |s| <= |r|
  {
    if s == "" then [] else EncodeChar(s[0]) + Encode(s[1..])
  }

  /** The first byte says how many bytes the character has. */
  function Width(b: byte): nat {
    if b < 0x80 then 1 else if b < 0xE0 then 2 else if b < 0xF0 then 3 else 4
  }

  /** The code point of the bytes of one character. */
  function Value(r: seq<int>): int
    requires 1 <= |r| <= 4
  {
    if |r| == 1 then r[0]
    else if |r| == 2 then (r[0] - 0xC0) * 64 + (r[1] - 0x80)
    else if |r| == 3 then (r[0] - 0xE0) * 4096 + (r[1] - 0x80) * 64 + (r[2] - 0x80)
    else (r[0] - 0xF0) * 262144 + (r[1] - 0x80) * 4096 + (r[2] - 0x80) * 64 + (r[3] - 0x80)
  }

  lemma CharValue(c: char)
    ensures |EncodeChar(c)| == Width(EncodeChar(c)[0]) && Value(EncodeChar(c)) == c as int
  {
    var n := c as int;
    assert n / 262144 <= 4 && n / 4096 / 64 == n / 262144 && n / 64 / 64 == n / 4096;
  }

  lemma FirstChar(a: char, x: seq<byte>, b: char, y: seq<byte>)
    requires EncodeChar(a) + x == EncodeChar(b) + y
    ensures a == b && x == y
  {
    CharValue(a);
    CharValue(b);
    var p, q := EncodeChar(a), EncodeChar(b);
    assert p[0] == (p + x)[0] && q[0] == (q + y)[0];
    assert p == (p + x)[..|p|] && q == (q + y)[..|q|];
    assert x == (p + x)[|p|..] && y == (q + y)[|q|..];
  }

  lemma {:induction false} EncodeInjective(a: string, b: string)
    requires Encode(a) == Encode(b)
    ensures a == b
  {
    if a != "" && b != "" {
      FirstChar(a[0], Encode(a[1..]), b[0], Encode(b[1..]));
      EncodeInjective(a[1..], b[1..]);
      assert a == [a[0]] + a[1..] && b == [b[0]] + b[1..];
    }
  }

  lemma {:induction false} EncodeConcat(a: string, b: string)
    ensures Encode(a + b) == Encode(a) + Encode(b)
  {
    if a == "" {
      assert a + b == b;
    } else {
      EncodeConcat(a[1..], b);
      FrontOfConcat(a, b);
      Regroup(EncodeChar(a[0]), Encode(a[1..]), Encode(b));
    }
  }

  lemma FrontOfConcat(a: string, b: string)
    requires a != ""
    ensures Encode(a + b) == EncodeChar(a[0]) + Encode(a[1..] + b)
  {
    assert (a + b)[0] == a[0] && (a + b)[1..] == a[1..] + b;
  }

  lemma Regroup(x: seq<byte>, y: seq<byte>, z: seq<byte>)
    ensures x + y + z == x + (y + z)
  {}

  predicate Ascii(s: string) {
    forall i | 0 <= i < |s| :: (s[i] as int) < 0x80
  }

  lemma {:induction false} EncodeAscii(s: string)
    requires Ascii(s)
    ensures |Encode(s)| == |s|
  {
    if s != "" {
      EncodeAscii(s[1..]);
    }
  }

  /** The text of well-formed bytes; None for anything that Encode does not produce. */
  function Decode(b: seq<byte>): Option<string> {
    if b == [] then Some("")
    else if |b| < Width(b[0]) then None
    else
      var n := Value(b[..Width(b[0])]);
      if !(0 <= n < 0xD800 || 0xE000 <= n < 0x110000) || EncodeChar(n as char) != b[..Width(b[0])] then None
      else
        var rest := Decode(b[Width(b[0])..]);
        if rest.None? then None else Some([n as char] + rest.value)
  }

  lemma {:induction false} DecodeEncode(s: string)
    ensures Decode(Encode(s)) == Some(s)
  {
    if s != "" {
      var p, rest := EncodeChar(s[0]), Encode(s[1..]);
      CharValue(s[0]);
      DecodeEncode(s[1..]);
      assert (p + rest)[0] == p[0] && (p + rest)[..|p|] == p && (p + rest)[|p|..] == rest;
      assert s == [s[0]] + s[1..];
    }
  }
}
