/**
 * 3 generates the non-zero bytes.  The few products this needs are evaluated on bit-vectors, where the
 * verifier computes at once; `Num` carries them over to numbers.
 */
module Generator {
  import opened Bits
  import opened Gf256

  // ---------------------------------------------------------------- the field on bit-vectors

  function DoubleBv(a: bv8): bv8 {
    if a & 0x80 != 0 then (a << 1) ^ 0x1b else a << 1
  }

  function PickBv(b: bv8, a: bv8): bv8 {
    if b & 1 == 1 then a else 0
  }

  function MulBv(a: bv8, b: bv8, n: nat): bv8
    decreases n
  {
    if n == 0 then 0 else PickBv(b, a) ^ MulBv(DoubleBv(a), b >> 1, n - 1)
  }

  /** The number a bit-vector denotes. */
  function Num(a: bv8): nat
    decreases a
  {
    if a == 0 then 0 else if a & 1 == 1 then 1 + 2 * Num(a >> 1) else 2 * Num(a >> 1)
  }

  function Low(a: bv8): nat {
    if a & 1 == 1 then 1 else 0
  }

  lemma NumStep(a: bv8)
    ensures Num(a) == 2 * Num(a >> 1) + Low(a)
  {}

  lemma NumByte(a: bv8)
    ensures Num(a) < 256
    ensures a & 0x80 == 0 ==> Num(a) < 128
  {
    NumHigh(a, a >> 4);
    BvShifts(a);
    NumStep(a);
    NumStep(a >> 1);
    NumStep(a >> 2);
    NumStep(a >> 3);
  }

  lemma NumHigh(a: bv8, h: bv8)
    requires h == a >> 4
    ensures Num(h) < 16
    ensures a & 0x80 == 0 ==> Num(h) < 8
  {
    BvShifts(a);
    NumStep(a >> 4);
    NumStep(a >> 5);
    NumStep(a >> 6);
    NumStep(a >> 7);
  }

  lemma BvShifts(a: bv8)
    ensures (a >> 1) >> 1 == a >> 2 && (a >> 2) >> 1 == a >> 3 && (a >> 3) >> 1 == a >> 4 && (a >> 4) >> 1 == a >> 5
    ensures (a >> 5) >> 1 == a >> 6 && (a >> 6) >> 1 == a >> 7 && (a >> 7) >> 1 == 0
    ensures a & 0x80 == 0 ==> a >> 7 == 0
  {}

  lemma BvParts(a: bv8, b: bv8)
    ensures (a ^ b) >> 1 == (a >> 1) ^ (b >> 1)
    ensures a == 0 || a >> 1 < a
  {}

  lemma BvLow(a: bv8, b: bv8)
    ensures Low(a ^ b) == Flip(Low(a), Low(b)) && Low(a) < 2 && Low(b) < 2
  {}

  lemma {:induction false} NumXor(a: bv8, b: bv8, c: bv8)
    requires c == a ^ b
    ensures Num(c) == Xor(Num(a), Num(b))
    decreases a, b
  {
    if a == 0 {
      assert c == b;
      XorUnit(Num(b));
    } else if b == 0 {
      assert c == a;
      XorUnit(Num(a));
    } else {
      BvParts(a, b);
      BvParts(b, a);
      NumXor(a >> 1, b >> 1, c >> 1);
      BvLow(a, b);
      NumXorStep(a, b, c);
    }
  }

  lemma NumXorStep(a: bv8, b: bv8, c: bv8)
    requires Num(c >> 1) == Xor(Num(a >> 1), Num(b >> 1))
    requires Low(c) == Flip(Low(a), Low(b)) && Low(a) < 2 && Low(b) < 2
    ensures Num(c) == Xor(Num(a), Num(b))
  {
    NumStep(a);
    NumStep(b);
    NumStep(c);
    XorStep(Num(a >> 1), Num(b >> 1), Low(a), Low(b));
  }

  lemma NumShift(a: bv8, c: bv8)
    requires a & 0x80 == 0 && c == a << 1
    ensures Num(c) == 2 * Num(a)
  {
    assert c >> 1 == a && c & 1 == 0;
    NumStep(c);
  }

  lemma NumTop()
    ensures Num(0x80) == 128
  {
    assert Num(1) == 1;
    assert Num(2) == 2;
    assert Num(4) == 4;
    assert Num(8) == 8;
    assert Num(16) == 16;
    assert Num(32) == 32;
    assert Num(64) == 64;
  }

  lemma NumReducer()
    ensures Num(0x1b) == 27
  {
    assert Num(3) == 3;
    assert Num(6) == 6;
    assert Num(13) == 13;
  }

  lemma NumDouble(a: bv8)
    ensures Num(a) < 256 && Num(DoubleBv(a)) == Double(Num(a))
  {
    NumByte(a);
    if a & 0x80 == 0 {
      NumShift(a, a << 1);
    } else {
      NumWithTop(a, a ^ 0x80);
      NumXor(a << 1, 0x1b, DoubleBv(a));
      NumReducer();
    }
  }

  lemma NumWithTop(a: bv8, m: bv8)
    requires a & 0x80 != 0 && m == a ^ 0x80
    ensures Num(a) == Num(m) + 128 && Num(a << 1) == 2 * Num(m)
  {
    assert m & 0x80 == 0 && a == m ^ 0x80 && a << 1 == m << 1;
    NumByte(m);
    NumShift(m, m << 1);
    NumXor(m, 0x80, a);
    NumTop();
    AddTop(Num(m));
  }

  lemma AddTop(h: nat)
    requires h < 128
    ensures Xor(h, 128) == h + 128
  {
    assert Pow2(7) == 128;
    XorTop(h, 0, 0, 1, 7);
    XorUnit(h);
  }

  lemma {:induction false} NumMul(a: bv8, b: bv8, n: nat)
    requires Num(b) < Pow2(n)
    ensures Num(a) < 256 && Num(MulBv(a, b, n)) == Mul(Num(a), Num(b))
    decreases n
  {
    NumByte(a);
    if n > 0 {
      NumStep(b);
      NumMul(DoubleBv(a), b >> 1, n - 1);
      NumDouble(a);
      NumRow(a, b, MulBv(DoubleBv(a), b >> 1, n - 1), MulBv(a, b, n));
    }
  }

  lemma NumRow(a: bv8, b: bv8, rest: bv8, r: bv8)
    requires Num(a) < 256 && Num(rest) == Mul(Double(Num(a)), Num(b >> 1)) && r == PickBv(b, a) ^ rest
    ensures Num(r) == Mul(Num(a), Num(b))
  {
    NumXor(PickBv(b, a), rest, r);
    NumStep(b);
    MulStep(Num(a), Num(b));
  }

  // ---------------------------------------------------------------- powers of 3

  ghost predicate IsPower(g: byte, i: nat, p: bv8) {
    Num(p) == Power(g, i)
  }

  /** `p` is 3^i; then `q`, if it is the square of `p` (times 3 when `odd`), is 3^(2i) (or 3^(2i+1)). */
  lemma Next(g: byte, i: nat, p: bv8, odd: bool, q: bv8)
    requires g == Num(3) && IsPower(g, i, p)
    requires q == if odd then MulBv(MulBv(p, p, 8), 3, 8) else MulBv(p, p, 8)
    ensures IsPower(g, 2 * i + (if odd then 1 else 0), q)
  {
    assert Pow2(8) == 256;
    NumByte(p);
    NumByte(3);
    NumMul(p, p, 8);
    PowerSum(g, i, i);
    NumMul(MulBv(p, p, 8), 3, 8);
  }

  lemma First(g: byte)
    requires g == Num(3)
    ensures IsPower(g, 1, 3)
  {
    MulOne(g);
    assert Power(g, 0) == 1;
  }

  lemma Power15(g: byte)
    requires g == Num(3)
    ensures IsPower(g, 3, 0x0f) && IsPower(g, 15, 0x35)
  {
    First(g);
    Next(g, 1, 3, true, 0x0f);
    Next(g, 3, 0x0f, true, 0xff);
    Next(g, 7, 0xff, true, 0x35);
  }

  lemma Power51(g: byte)
    requires g == Num(3)
    ensures IsPower(g, 51, 0x0c)
  {
    Power15(g);
    Next(g, 3, 0x0f, false, 0x55);
    Next(g, 6, 0x55, false, 0xa1);
    Next(g, 12, 0xa1, true, 2);
    Next(g, 25, 2, true, 0x0c);
  }

  lemma Power85(g: byte)
    requires g == Num(3)
    ensures IsPower(g, 85, 0xbd)
  {
    First(g);
    Next(g, 1, 3, false, 5);
    Next(g, 2, 5, true, 0x33);
    Next(g, 5, 0x33, false, 0x72);
    Next(g, 10, 0x72, true, 0x73);
    Next(g, 21, 0x73, false, 0xd9);
    Next(g, 42, 0xd9, true, 0xbd);
  }

  lemma Power255(g: byte)
    requires g == Num(3)
    ensures IsPower(g, 255, 1)
  {
    Power15(g);
    Next(g, 15, 0x35, true, 0xaa);
    Next(g, 31, 0xaa, true, 0xcd);
    Next(g, 63, 0xcd, true, 0xa0);
    Next(g, 127, 0xa0, true, 1);
  }

  // ---------------------------------------------------------------- 3 has order 255

  lemma {:induction false} PowerTimes(g: byte, i: nat, q: nat)
    requires Power(g, i) == 1
    ensures Power(g, i * q) == 1
  {
    if q > 0 {
      PowerTimes(g, i, q - 1);
      PowerSum(g, i * (q - 1), i);
      assert i * (q - 1) + i == i * q;
      MulOne(1);
    } else {
      assert i * q == 0;
    }
  }

  /** Two exponents that give 1 have a common divisor that gives 1. */
  lemma {:induction false} CommonPeriod(g: byte, a: nat, b: nat) returns (d: nat, p: nat, q: nat)
    requires a > 0 && b > 0 && Power(g, a) == 1 && Power(g, b) == 1
    ensures a == d * p && b == d * q && Power(g, d) == 1
    decreases a + b, a
  {
    if a == b {
      d, p, q := a, 1, 1;
    } else if a < b {
      PowerSum(g, b - a, a);
      MulOne(Power(g, b - a));
      d, p, q := CommonPeriod(g, a, b - a);
      Distribute(d, p, q);
      q := p + q;
    } else {
      d, q, p := CommonPeriod(g, b, a);
    }
  }

  lemma Distribute(d: nat, p: nat, q: nat)
    ensures d * (p + q) == d * p + d * q
  {}

  /** Every proper divisor of 255 divides 85, 51 or 15. */
  lemma ProperDivisor(d: nat, q: nat) returns (m: nat)
    requires d * q == 255 && q > 1
    ensures d * m == 85 || d * m == 51 || d * m == 15
  {
    if q <= 15 {
      SmallDivisor(q, d);
    } else {
      if d >= 16 {
        Product16(d, q);
      }
      SmallDivisor(d, q);
    }
    m := if q == 3 || q == 15 || q == 51 || q == 255 then q / 3 else if q == 5 || q == 85 then q / 5 else q / 17;
  }

  lemma Product16(d: nat, q: nat)
    requires d >= 16 && q >= 16
    ensures d * q >= 256
  {
    assert (d - 16) * (q - 16) >= 0;
  }

  lemma SmallDivisor(d: nat, q: nat)
    requires d * q == 255 && 0 < d <= 15
    ensures (d == 1 && q == 255) || (d == 3 && q == 85) || (d == 5 && q == 51) || (d == 15 && q == 17)
  {
    if d == 2 || d == 4 || d == 6 || d == 8 || d == 10 || d == 12 || d == 14 {
    } else if d == 7 || d == 9 || d == 11 || d == 13 {
    }
  }

  lemma CofactorAboveOne(d: nat, p: nat, q: nat)
    requires d * q == 255 && 0 < d * p < 255
    ensures q > 1
  {
    if q == 1 {
      assert p >= 1;
      Distribute(d, 1, p - 1);
    }
  }

  /** No exponent strictly between 0 and 255 gives 1. */
  lemma NoShorterPeriod(g: byte, i: nat)
    requires g == Num(3) && 0 < i < 255
    ensures Power(g, i) != 1 == Power(g, 255)
  {
    NumOne();
    Power255(g);
    if Power(g, i) == 1 {
      var d, p, q := CommonPeriod(g, i, 255);
      CofactorAboveOne(d, p, q);
      NoProperDivisor(g, d, q);
    }
  }

  lemma NoProperDivisor(g: byte, d: nat, q: nat)
    requires g == Num(3) && d * q == 255 && q > 1
    ensures Power(g, d) != 1
  {
    if Power(g, d) == 1 {
      var m := ProperDivisor(d, q);
      PowerTimes(g, d, m);
      Power85(g);
      Power51(g);
      Power15(g);
      NumIsOne(0xbd);
      NumIsOne(0x0c);
      NumIsOne(0x35);
    }
  }

  lemma NumOne()
    ensures Num(1) == 1
  {
    assert Num(0) == 0;
  }

  lemma NumIsOne(a: bv8)
    ensures Num(a) == 1 ==> a == 1
  {
    NumStep(a);
    NumIsZero(a >> 1);
  }

  lemma NumIsZero(a: bv8)
    ensures Num(a) == 0 ==> a == 0
    decreases a
  {
    if a != 0 {
      BvParts(a, a);
      NumIsZero(a >> 1);
    }
  }
}
