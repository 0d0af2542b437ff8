/**
 * Bitwise exclusive-or on natural numbers, and the bytes it keeps.  JavaScript computes bytes as numbers:
 * `b & 1` is `b % 2`, `b >> 1` is `b / 2` and, below 256, `b & 0x80` is set exactly when `b >= 128`.
 */
module Bits {

  type byte = b: int | 0 <= b < 256

  function Flip(x: nat, y: nat): (r: nat)
    ensures r < 2
  {
    if x == y then 0 else 1
  }

  function Xor(a: nat, b: nat): nat
    decreases a, b
  {
    if a == 0 then b else if b == 0 then a
    else if a % 2 == b % 2 then 2 * Xor(a / 2, b / 2) else 1 + 2 * Xor(a / 2, b / 2)
  }

  function Pow2(n: nat): nat {
    if n == 0 then 1 else 2 * Pow2(n - 1)
  }

  lemma {:induction false} XorUnit(a: nat)
    ensures Xor(a, 0) == a == Xor(0, a)
    decreases a
  {
    if a > 0 {
      XorUnit(a / 2);
    }
  }

  lemma {:induction false} XorSelf(a: nat)
    ensures Xor(a, a) == 0
    decreases a
  {
    if a > 0 {
      XorSelf(a / 2);
    }
  }

  lemma {:induction false} XorComm(a: nat, b: nat)
    ensures Xor(a, b) == Xor(b, a)
    decreases a + b
  {
    if a + b > 0 {
      XorComm(a / 2, b / 2);
    }
  }

  lemma XorHalf(a: nat, b: nat)
    ensures Xor(a, b) / 2 == Xor(a / 2, b / 2)
    ensures Xor(a, b) % 2 == Flip(a % 2, b % 2)
  {}

  /** The recursion step, by bits. */
  lemma XorStep(h: nat, k: nat, x: nat, y: nat)
    requires x < 2 && y < 2
    ensures Xor(2 * h + x, 2 * k + y) == 2 * Xor(h, k) + Flip(x, y)
  {
    var a, b := 2 * h + x, 2 * k + y;
    assert a / 2 == h && b / 2 == k;
    assert a % 2 == x && b % 2 == y;
  }

  lemma {:induction false} XorAssoc(a: nat, b: nat, c: nat)
    ensures Xor(Xor(a, b), c) == Xor(a, Xor(b, c))
    decreases a + b + c
  {
    if a + b + c > 0 {
      XorAssoc(a / 2, b / 2, c / 2);
      AssocAt(a, b, c, a / 2, b / 2, c / 2, a % 2, b % 2, c % 2);
    } else {
      XorZero();
    }
  }

  lemma XorZero()
    ensures Xor(0, 0) == 0
  {}

  lemma AssocAt(a: nat, b: nat, c: nat, h: nat, k: nat, l: nat, x: nat, y: nat, z: nat)
    requires a == 2 * h + x && b == 2 * k + y && c == 2 * l + z && x < 2 && y < 2 && z < 2
    requires Xor(Xor(h, k), l) == Xor(h, Xor(k, l))
    ensures Xor(Xor(a, b), c) == Xor(a, Xor(b, c))
  {
    AssocStep(h, k, l, x, y, z);
  }

  lemma AssocStep(h: nat, k: nat, l: nat, x: nat, y: nat, z: nat)
    requires x < 2 && y < 2 && z < 2
    requires Xor(Xor(h, k), l) == Xor(h, Xor(k, l))
    ensures Xor(Xor(2 * h + x, 2 * k + y), 2 * l + z) == Xor(2 * h + x, Xor(2 * k + y, 2 * l + z))
  {
    XorStep(h, k, x, y);
    XorStep(k, l, y, z);
    XorStep(Xor(h, k), l, Flip(x, y), z);
    XorStep(h, Xor(k, l), x, Flip(y, z));
  }

  function At(x: nat, n: nat): nat {
    if x == 0 then 0 else Pow2(n)
  }

  /** Exclusive-or acts separately on the low `n` bits and on the bit above them. */
  ghost predicate SplitsAt(a: nat, b: nat, x: nat, y: nat, n: nat)
    requires x < 2 && y < 2
  {
    && Xor(a, b) < Pow2(n)
    && Xor(a + At(x, n), b + At(y, n)) == Xor(a, b) + At(Flip(x, y), n)
  }

  lemma {:induction false} XorTop(a: nat, b: nat, x: nat, y: nat, n: nat)
    requires a < Pow2(n) && b < Pow2(n) && x < 2 && y < 2
    ensures SplitsAt(a, b, x, y, n)
  {
    if n == 0 {
      XorStep(0, 0, x, y);
    } else {
      XorTop(a / 2, b / 2, x, y, n - 1);
      SplitStep(a / 2, b / 2, a % 2, b % 2, x, y, n);
    }
  }

  lemma SplitStep(h: nat, k: nat, u: nat, v: nat, x: nat, y: nat, n: nat)
    requires n > 0 && u < 2 && v < 2 && x < 2 && y < 2
    requires SplitsAt(h, k, x, y, n - 1)
    ensures SplitsAt(2 * h + u, 2 * k + v, x, y, n)
  {
    XorStep(h, k, u, v);
    XorStep(h + At(x, n - 1), k + At(y, n - 1), u, v);
    assert 2 * (h + At(x, n - 1)) + u == 2 * h + u + At(x, n);
    assert 2 * (k + At(y, n - 1)) + v == 2 * k + v + At(y, n);
  }

  lemma XorByte(a: byte, b: byte)
    ensures 0 <= Xor(a, b) < 256
  {
    assert Pow2(8) == 256;
    XorTop(a, b, 0, 0, 8);
  }

  /** Four-term rearrangement. */
  lemma XorShuffle(a: nat, b: nat, c: nat, d: nat)
    ensures Xor(Xor(a, b), Xor(c, d)) == Xor(Xor(a, c), Xor(b, d))
  {
    XorAssoc(a, b, Xor(c, d));
    XorAssoc(b, c, d);
    XorComm(b, c);
    XorAssoc(c, b, d);
    XorAssoc(a, c, Xor(b, d));
  }
}
