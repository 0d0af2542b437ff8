/** Base64 (section 4 of RFC 4648), and the lenient decoder of Buffer.from(text, "base64"). */
module Base64 {
  import opened Wrappers
  import opened Bits

  function Symbol(v: nat): (c: char)
    requires v < 64
    ensures (c as int) < 0x80
  {
    if v < 26 then ('A' as int + v) as char
    else if v < 52 then ('a' as int + v - 26) as char
    else if v < 62 then ('0' as int + v - 52) as char
    else if v == 62 then '+' else '/'
  }

  /** The value of a character; the two characters of the URL alphabet are taken as well. */
  function SymbolValue(c: char): (r: Option<nat>)
    ensures r.Some? ==> r.value < 64
  {
    if 'A' <= c <= 'Z' then Some(c as nat - 'A' as nat)
    else if 'a' <= c <= 'z' then Some(c as nat - 'a' as nat + 26)
    else if '0' <= c <= '9' then Some(c as nat - '0' as nat + 52)
    else if c == '+' || c == '-' then Some(62)
    else if c == '/' || c == '_' then Some(63)
    else None
  }

  lemma SymbolRoundTrip(v: nat)
    requires v < 64
    ensures SymbolValue(Symbol(v)) == Some(v) && Symbol(v) != '='
  {}

  function Encode(b: seq<byte>): string {
    if |b| == 0 then ""
    else if |b| == 1 then [Symbol(b[0] / 4), Symbol(b[0] % 4 * 16), '=', '=']
    else if |b| == 2 then [Symbol(b[0] / 4), Symbol(b[0] % 4 * 16 + b[1] / 16), Symbol(b[1] % 16 * 4), '=']
    else [Symbol(b[0] / 4), Symbol(b[0] % 4 * 16 + b[1] / 16), Symbol(b[1] % 16 * 4 + b[2] / 64), Symbol(b[2] % 64)]
         + Encode(b[3..])
  }

  /** The values of the alphabet characters before the first `=`; other characters are passed over. */
  function Values(s: string): (r: seq<nat>)
    ensures forall i | 0 <= i < |r| :: r[i] < 64
  {
    if s == "" || s[0] == '=' then []
    else if SymbolValue(s[0]).Some? then [SymbolValue(s[0]).value] + Values(s[1..])
    else Values(s[1..])
  }

  /** Four values make three bytes; two or three left over make one or two. */
  function Pack(v: seq<nat>): seq<byte>
    requires forall i | 0 <= i < |v| :: v[i] < 64
  {
    if |v| < 2 then []
    else if |v| == 2 then [First(v[0], v[1])]
    else if |v| == 3 then [First(v[0], v[1]), Second(v[1], v[2])]
    else [First(v[0], v[1]), Second(v[1], v[2]), Third(v[2], v[3])] + Pack(v[4..])
  }

  type sextet = n: nat | n < 64

  function First(x: sextet, y: sextet): byte {
    x * 4 + y / 16
  }

  function Second(y: sextet, z: sextet): byte {
    y % 16 * 16 + z / 4
  }

  function Third(z: sextet, w: sextet): byte {
    z % 4 * 64 + w
  }

  function Decode(s: string): seq<byte> {
    Pack(Values(s))
  }

  lemma StepValues(v: nat, s: string)
    requires v < 64
    ensures Values([Symbol(v)] + s) == [v] + Values(s)
  {
    SymbolRoundTrip(v);
    assert ([Symbol(v)] + s)[1..] == s;
  }

  lemma StepGroup(x: nat, y: nat, z: nat, w: nat, s: string)
    requires x < 64 && y < 64 && z < 64 && w < 64
    ensures Values([Symbol(x), Symbol(y), Symbol(z), Symbol(w)] + s) == [x, y, z, w] + Values(s)
  {
    StepValues(x, [Symbol(y)] + ([Symbol(z)] + ([Symbol(w)] + s)));
    StepValues(y, [Symbol(z)] + ([Symbol(w)] + s));
    StepValues(z, [Symbol(w)] + s);
    StepValues(w, s);
    assert [Symbol(x), Symbol(y), Symbol(z), Symbol(w)] + s
      == [Symbol(x)] + ([Symbol(y)] + ([Symbol(z)] + ([Symbol(w)] + s)));
  }

  lemma PackFour(u: seq<nat>, a: byte, b: byte, c: byte)
    requires |u| >= 4 && forall i | 0 <= i < |u| :: u[i] < 64
    requires First(u[0], u[1]) == a && Second(u[1], u[2]) == b && Third(u[2], u[3]) == c
    ensures Pack(u) == [a, b, c] + Pack(u[4..])
  {}

  lemma FrontFour(u: seq<nat>, x: nat, y: nat, z: nat, w: nat, v: seq<nat>)
    requires u == [x, y, z, w] + v
    ensures |u| >= 4 && u[0] == x && u[1] == y && u[2] == z && u[3] == w && u[4..] == v
  {}

  lemma Regroup(a: byte, b: byte)
    ensures First(a / 4, a % 4 * 16 + b / 16) == a
  {}

  lemma RegroupSecond(a: byte, b: byte, c: byte)
    ensures Second(a % 4 * 16 + b / 16, b % 16 * 4 + c / 64) == b
  {}

  lemma RegroupThird(b: byte, c: byte)
    ensures Third(b % 16 * 4 + c / 64, c % 64) == c
  {}

  lemma RoundTripTwo(a: byte, b: byte)
    ensures Decode(Encode([a, b])) == [a, b]
  {
    var y, z := a % 4 * 16 + b / 16, b % 16 * 4;
    StepValues(a / 4, [Symbol(y)] + ([Symbol(z)] + "="));
    StepValues(y, [Symbol(z)] + "=");
    StepValues(z, "=");
    assert Encode([a, b]) == [Symbol(a / 4)] + ([Symbol(y)] + ([Symbol(z)] + "="));
    assert Values(Encode([a, b])) == [a / 4, y, z];
    Regroup(a, b);
    RegroupSecond(a, b, 0);
  }

  lemma RoundTripOne(a: byte)
    ensures Decode(Encode([a])) == [a]
  {
    var y := a % 4 * 16;
    StepValues(a / 4, [Symbol(y)] + "==");
    StepValues(y, "==");
    assert Encode([a]) == [Symbol(a / 4)] + ([Symbol(y)] + "==");
    assert Values(Encode([a])) == [a / 4, y];
    Regroup(a, 0);
  }

  /** Three bytes cut into four values and packed again. */
  lemma StepRoundTrip(a: byte, b: byte, c: byte, rest: seq<byte>)
    requires Decode(Encode(rest)) == rest
    ensures Decode(Encode([a, b, c] + rest)) == [a, b, c] + rest
  {
    assert ([a, b, c] + rest)[3..] == rest;
    var u, v := Values(Encode([a, b, c] + rest)), Values(Encode(rest));
    StepGroup(a / 4, a % 4 * 16 + b / 16, b % 16 * 4 + c / 64, c % 64, Encode(rest));
    FrontFour(u, a / 4, a % 4 * 16 + b / 16, b % 16 * 4 + c / 64, c % 64, v);
    Regroup(a, b);
    RegroupSecond(a, b, c);
    RegroupThird(b, c);
    PackFour(u, a, b, c);
  }

  /** Decoding what was encoded. */
  lemma {:induction false} RoundTrip(b: seq<byte>)
    ensures Decode(Encode(b)) == b
  {
    if |b| == 1 {
      RoundTripOne(b[0]);
      assert b == [b[0]];
    } else if |b| == 2 {
      RoundTripTwo(b[0], b[1]);
      assert b == [b[0], b[1]];
    } else if |b| >= 3 {
      RoundTrip(b[3..]);
      StepRoundTrip(b[0], b[1], b[2], b[3..]);
      assert b == [b[0], b[1], b[2]] + b[3..];
    }
  }

  lemma {:induction false} EncodeLength(b: seq<byte>)
    ensures |Encode(b)| == 4 * ((|b| + 2) / 3)
  {
    if |b| >= 3 {
      EncodeLength(b[3..]);
      GroupLength(b);
      GroupCount(|b|);
    } else {
      LastGroupLength(b);
    }
  }

  lemma GroupLength(b: seq<byte>)
    requires |b| >= 3
    ensures |Encode(b)| == 4 + |Encode(b[3..])|
  {}

  lemma LastGroupLength(b: seq<byte>)
    requires |b| < 3
    ensures |Encode(b)| == if b == [] then 0 else 4
  {}

  lemma GroupCount(n: nat)
    requires n >= 3
    ensures (n + 2) / 3 == 1 + (n - 3 + 2) / 3
  {}

  /** Base64 text is made of characters that JSON and UTF-8 leave alone. */
  predicate Plain(s: string) {
    forall i | 0 <= i < |s| :: 0x20 <= s[i] as int < 0x7F && s[i] != '\"' && s[i] != '\\'
  }

  lemma {:induction false} EncodePlain(b: seq<byte>)
    ensures Plain(Encode(b))
  {
    if |b| >= 3 {
      EncodePlain(b[3..]);
    }
  }
}
