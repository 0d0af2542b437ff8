/**
 * GF(256) with the reduction polynomial 0x11b (section 4.2 of FIPS 197), as used by the recovery shares.
 *
 * `Mul` is the shift-and-add product.  The repository multiplies through exponent and logarithm tables of
 * the generator 3; that code is in module Tables and is proved to compute this product.
 */
module Gf256 {
  import opened Bits

  function Add(a: byte, b: byte): byte {
    XorByte(a, b);
    Xor(a, b)
  }

  /** Multiplication by the polynomial x. */
  function Double(a: byte): byte {
    if a < 0x80 then 2 * a else Add(2 * a - 0x100, 0x1b)
  }

  /** `a` if the lowest bit of `b` is set. */
  function Pick(b: nat, a: byte): byte {
    if b % 2 == 1 then a else 0
  }

  /** The product, by shift and add. */
  function Mul(a: byte, b: nat): byte
    decreases b
  {
    if b == 0 then 0
    else if b % 2 == 1 then Add(a, Mul(Double(a), b / 2))
    else Mul(Double(a), b / 2)
  }

  method MulRaw(a0: byte, b0: byte) returns (p: byte)
    ensures p == Mul(a0, b0)
  {
    var a, b: nat := a0, b0;
    p := 0;
    XorUnit(Mul(a0, b0));
    assert Pow2(8) == 256;
    for i := 0 to 8
      invariant 0 <= a < 256 && b < Pow2(8 - i)
      invariant Add(p, Mul(a, b)) == Mul(a0, b0)
    {
      MulStep(a, b);
      ghost var rest := Mul(Double(a), b / 2);
      XorAssoc(p, Pick(b, a), rest);
      XorUnit(p);
      if b % 2 == 1 {
        p := Add(p, a);
      }
      assert Add(p, rest) == Mul(a0, b0);
      a := DoubleInPlace(a);
      b := b / 2;
    }
    XorUnit(p);
  }

  /** The defining equation with the conditional inside; it also holds at zero. */
  lemma MulStep(a: byte, b: nat)
    ensures Mul(a, b) == Add(Pick(b, a), Mul(Double(a), b / 2))
  {
    XorUnit(Mul(Double(a), b / 2));
  }

  /** The loop's shift: drop the top bit, then reduce if it was set. */
  method DoubleInPlace(a0: byte) returns (a: byte)
    ensures a == Double(a0)
  {
    var hi := a0 >= 0x80;
    a := (2 * a0) % 0x100;
    if hi {
      a := Add(a, 0x1b);
    }
  }

  // ---------------------------------------------------------------- the product is bilinear

  /** Doubling shifts the low seven bits and reduces by the top one. */
  lemma DoubleForm(h: nat, x: nat)
    requires h < 128 && x < 2
    ensures Double(h + 128 * x) == Add(2 * h, Pick(x, 0x1b))
  {
    XorUnit(2 * h);
  }

  lemma DoubleAdd(a: byte, b: byte)
    ensures Double(Add(a, b)) == Add(Double(a), Double(b))
  {
    DoubleAddForm(a % 128, b % 128, a / 128, b / 128);
  }

  lemma DoubleAddForm(h: nat, k: nat, x: nat, y: nat)
    requires h < 128 && k < 128 && x < 2 && y < 2
    ensures Double(Add(h + 128 * x, k + 128 * y)) == Add(Double(h + 128 * x), Double(k + 128 * y))
  {
    AddForm(h, k, x, y);
    DoubleForm(h, x);
    DoubleForm(k, y);
    DoubleForm(Xor(h, k), Flip(x, y));
    XorShuffle(2 * h, Pick(x, 0x1b), 2 * k, Pick(y, 0x1b));
    PickFlip(x, y, 0x1b);
  }

  lemma AddForm(h: nat, k: nat, x: nat, y: nat)
    requires h < 128 && k < 128 && x < 2 && y < 2
    ensures Xor(h, k) < 128 && Xor(2 * h, 2 * k) == 2 * Xor(h, k)
    ensures Xor(h + 128 * x, k + 128 * y) == Xor(h, k) + 128 * Flip(x, y)
  {
    assert Pow2(7) == 128;
    XorTop(h, k, x, y, 7);
    XorStep(h, k, 0, 0);
  }

  lemma PickFlip(x: nat, y: nat, a: byte)
    requires x < 2 && y < 2
    ensures Pick(Flip(x, y), a) == Add(Pick(x, a), Pick(y, a))
  {
    XorUnit(a);
    XorSelf(a);
  }

  lemma PickAdd(a: byte, c: byte, b: nat)
    ensures Pick(b, Add(a, c)) == Add(Pick(b, a), Pick(b, c))
    ensures Pick(b, Double(a)) == Double(Pick(b, a))
  {
    XorUnit(0);
  }

  lemma PickParity(a: byte, b: nat)
    ensures Pick(b % 2, a) == Pick(b, a)
  {}

  lemma PickXor(a: byte, b: nat, c: nat)
    ensures Pick(Xor(b, c), a) == Add(Pick(b, a), Pick(c, a))
  {
    XorHalf(b, c);
    ghost var d := Xor(b, c);
    PickParity(a, d);
    PickParity(a, b);
    PickParity(a, c);
    PickFlip(b % 2, c % 2, a);
  }

  lemma {:induction false} MulAddLeft(a: byte, c: byte, b: nat)
    ensures Mul(Add(a, c), b) == Add(Mul(a, b), Mul(c, b))
    decreases b
  {
    if b == 0 {
      XorUnit(0);
    } else {
      DoubleAdd(a, c);
      PickAdd(a, c, b);
      MulStep(a, b);
      MulStep(c, b);
      MulStep(Add(a, c), b);
      MulAddLeft(Double(a), Double(c), b / 2);
      XorShuffle(Pick(b, a), Pick(b, c), Mul(Double(a), b / 2), Mul(Double(c), b / 2));
    }
  }

  lemma {:induction false} MulAddRight(a: byte, b: nat, c: nat)
    ensures Mul(a, Xor(b, c)) == Add(Mul(a, b), Mul(a, c))
    decreases b + c
  {
    if b + c == 0 {
      XorUnit(0);
    } else {
      PickXor(a, b, c);
      XorHalf(b, c);
      MulAddRight(Double(a), b / 2, c / 2);
      XorShuffle(Pick(b, a), Pick(c, a), Mul(Double(a), b / 2), Mul(Double(a), c / 2));
      MulStep(a, b);
      MulStep(a, c);
      MulStep(a, Xor(b, c));
    }
  }

  lemma {:induction false} MulDouble(a: byte, b: nat)
    ensures Mul(Double(a), b) == Double(Mul(a, b))
    decreases b
  {
    if b > 0 {
      PickAdd(a, 0, b);
      MulStep(a, b);
      MulStep(Double(a), b);
      MulDouble(Double(a), b / 2);
      DoubleAdd(Pick(b, a), Mul(Double(a), b / 2));
    }
  }

  lemma {:induction false} MulZero(b: nat)
    ensures Mul(0, b) == 0
    decreases b
  {
    if b > 0 {
      MulZero(b / 2);
      XorUnit(0);
    }
  }

  // ---------------------------------------------------------------- commutative, associative, with unit 1

  /** Multiplying by two factors in turn does not depend on their order. */
  lemma {:induction false} MulSwap(u: byte, a: nat, b: nat)
    ensures Mul(Mul(u, a), b) == Mul(Mul(u, b), a)
    decreases a
  {
    MulZero(b);
    if a > 0 {
      var rest := Mul(Double(u), a / 2);
      MulStep(u, a);
      MulStep(Mul(u, b), a);
      MulAddLeft(Pick(a, u), rest, b);
      MulSwap(Double(u), a / 2, b);
      MulDouble(u, b);
    }
  }

  function Shift(a: nat, k: nat): nat {
    if k == 0 then a else 2 * Shift(a, k - 1)
  }

  lemma {:induction false} ShiftXor(a: nat, b: nat, k: nat)
    ensures Xor(Shift(a, k), Shift(b, k)) == Shift(Xor(a, b), k)
    ensures Shift(2 * a, k) == 2 * Shift(a, k) && Shift(0, k) == 0
    ensures a <= b ==> Shift(a, k) <= Shift(b, k)
  {
    if k > 0 {
      ShiftXor(a, b, k - 1);
      XorStep(Shift(a, k - 1), Shift(b, k - 1), 0, 0);
    }
  }

  lemma ShiftBits(h: nat, x: nat, k: nat)
    requires x < 2
    ensures Shift(2 * h + x, k) == Xor(Shift(x, k), Shift(h, k + 1))
    ensures Shift(h, k + 1) <= Shift(2 * h + x, k)
    ensures h > 0 ==> Shift(1, k + 1) <= Shift(h, k + 1)
  {
    ShiftSplits(h, x, k);
    ShiftXor(2 * h, 2 * h + x, k);
    ShiftXor(h, h, k);
    ShiftXor(1, h, k + 1);
  }

  lemma ShiftSplits(h: nat, x: nat, k: nat)
    requires x < 2
    ensures Shift(2 * h + x, k) == Xor(Shift(x, k), Shift(h, k + 1))
  {
    ShiftXor(x, 2 * h, k);
    ShiftXor(h, h, k);
    XorStep(0, h, x, 0);
    XorUnit(h);
  }

  lemma PickShift(x: nat, k: nat)
    requires x < 2 && Shift(1, k) < 256
    ensures Pick(x, Shift(1, k)) == Shift(x, k)
  {
    ShiftXor(0, 0, k);
  }

  /** The powers of x below x^8 are the powers of two. */
  lemma {:induction false} MulPower(k: nat, b: nat)
    requires Shift(1, k) < 256 && Shift(b, k) < 256
    ensures Mul(Shift(1, k), b) == Shift(b, k)
    decreases b
  {
    if b == 0 {
      ShiftXor(0, 0, k);
    } else {
      var h, x, p: byte := b / 2, b % 2, Shift(1, k);
      ShiftBits(h, x, k);
      PickShift(x, k);
      PickParity(p, b);
      if h > 0 {
        MulPower(k + 1, h);
        assert Double(p) == Shift(1, k + 1);
      } else {
        assert Mul(Double(p), h) == 0;
        XorUnit(p);
        ShiftXor(0, 0, k + 1);
      }
      MulStep(p, b);
    }
  }

  lemma MulOne(a: byte)
    ensures Mul(1, a) == a == Mul(a, 1)
  {
    MulPower(0, a);
    XorUnit(a);
    assert Mul(a, 1) == Add(a, 0);
  }

  lemma MulComm(a: byte, b: byte)
    ensures Mul(a, b) == Mul(b, a)
  {
    MulSwap(1, a, b);
    MulOne(a);
    MulOne(b);
  }

  lemma MulAssoc(a: byte, b: byte, c: byte)
    ensures Mul(Mul(a, b), c) == Mul(a, Mul(b, c))
  {
    MulComm(a, b);
    MulSwap(b, a, c);
    MulComm(Mul(b, c), a);
  }

  lemma MulAdd(a: byte, b: byte, c: byte)
    ensures Mul(a, Add(b, c)) == Add(Mul(a, b), Mul(a, c))
  {
    MulAddRight(a, b, c);
  }

  // ---------------------------------------------------------------- 3 generates every non-zero byte

  function Power(g: byte, i: nat): byte {
    if i == 0 then 1 else Mul(Power(g, i - 1), g)
  }

  lemma {:induction false} PowerSum(g: byte, i: nat, j: nat)
    ensures Power(g, i + j) == Mul(Power(g, i), Power(g, j))
    decreases j
  {
    if j == 0 {
      MulOne(Power(g, i));
    } else {
      PowerSum(g, i, j - 1);
      MulAssoc(Power(g, i), Power(g, j - 1), g);
    }
  }
}
