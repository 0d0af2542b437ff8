/**
 * Polynomials over a field of characteristic two: evaluation, division by a root, and Lagrange
 * interpolation.  A polynomial is the sequence of its coefficients, constant term first.
 */
module Polynomials {

  /** The laws are predicates of their arguments, so that a proof cites the instances it uses. */
  datatype Field<!E(!new)> = Field(zero: E, one: E, add: (E, E) -> E, mul: (E, E) -> E, inv: E -> E) {

    ghost predicate AddLaws(a: E, b: E, c: E) {
      && add(add(a, b), c) == add(a, add(b, c))
      && add(a, b) == add(b, a)
      && add(a, zero) == a
      && add(a, a) == zero
    }

    ghost predicate MulLaws(a: E, b: E, c: E) {
      && mul(mul(a, b), c) == mul(a, mul(b, c))
      && mul(a, b) == mul(b, a)
      && mul(a, one) == a
      && mul(a, zero) == zero
    }

    ghost predicate Distributes(a: E, b: E, c: E) {
      mul(a, add(b, c)) == add(mul(a, b), mul(a, c))
    }

    ghost predicate Inverts(a: E) {
      a != zero ==> mul(a, inv(a)) == one
    }

    ghost predicate Laws() {
      && one != zero
      && (forall a, b, c :: AddLaws(a, b, c))
      && (forall a, b, c :: MulLaws(a, b, c))
      && (forall a, b, c :: Distributes(a, b, c))
      && (forall a :: Inverts(a))
    }

    // ------------------------------------------------------------ consequences

    lemma Swap4(a: E, b: E, c: E, d: E)
      requires Laws()
      ensures add(add(a, b), add(c, d)) == add(add(a, c), add(b, d))
    {
      assert AddLaws(a, b, add(c, d));
      assert AddLaws(b, c, d);
      assert AddLaws(c, b, d);
      assert AddLaws(a, c, add(b, d));
    }

    lemma Cancel(a: E, b: E)
      requires Laws() && add(a, b) == zero
      ensures a == b
    {
      assert AddLaws(a, b, b);
      assert AddLaws(b, a, a);
      assert AddLaws(zero, b, b);
      assert AddLaws(b, zero, b);
    }

    lemma ZeroSum(b: E)
      requires Laws()
      ensures add(zero, b) == b && mul(zero, b) == zero && mul(one, b) == b
    {
      assert AddLaws(b, zero, b) && MulLaws(b, zero, b) && MulLaws(b, one, b);
      assert AddLaws(zero, b, b) && MulLaws(zero, b, b) && MulLaws(one, b, b);
    }

    lemma NoZeroDivisors(a: E, b: E)
      requires Laws() && mul(a, b) == zero && a != zero
      ensures b == zero
    {
      assert Inverts(a);
      assert MulLaws(inv(a), a, b) && MulLaws(a, inv(a), b) && MulLaws(inv(a), zero, b);
      ZeroSum(b);
    }

    // ------------------------------------------------------------ evaluation

    /** Horner's rule. */
    function Eval(cs: seq<E>, x: E): E {
      if cs == [] then zero else add(cs[0], mul(x, Eval(cs[1..], x)))
    }

    function Pow(x: E, k: nat): E {
      if k == 0 then one else mul(x, Pow(x, k - 1))
    }

    /** The sum of coefficient times power, from exponent `k` on. */
    function PowerSum(cs: seq<E>, x: E, k: nat): E {
      if cs == [] then zero else add(mul(cs[0], Pow(x, k)), PowerSum(cs[1..], x, k + 1))
    }

    lemma {:induction false} PowerSumShift(cs: seq<E>, x: E, k: nat)
      requires Laws()
      ensures PowerSum(cs, x, k) == mul(Pow(x, k), Eval(cs, x))
    {
      if cs == [] {
        assert MulLaws(Pow(x, k), zero, zero);
      } else {
        var p, e := Pow(x, k), Eval(cs[1..], x);
        PowerSumShift(cs[1..], x, k + 1);
        assert MulLaws(p, cs[0], e) && MulLaws(cs[0], p, e);
        assert Distributes(p, cs[0], mul(x, e));
        assert MulLaws(p, x, e) && MulLaws(x, p, e);
      }
    }

    /** Horner's rule computes the value of the polynomial. */
    lemma EvalIsPowerSum(cs: seq<E>, x: E)
      requires Laws()
      ensures Eval(cs, x) == PowerSum(cs, x, 0)
    {
      PowerSumShift(cs, x, 0);
      ZeroSum(Eval(cs, x));
    }

    ghost predicate AllZero(cs: seq<E>) {
      forall i | 0 <= i < |cs| :: cs[i] == zero
    }

    lemma {:induction false} EvalAllZero(cs: seq<E>, x: E)
      requires Laws() && AllZero(cs)
      ensures Eval(cs, x) == zero
    {
      if cs != [] {
        EvalAllZero(cs[1..], x);
        assert MulLaws(x, zero, zero) && AddLaws(zero, zero, zero);
      }
    }

    function Sum(p: seq<E>, q: seq<E>): (r: seq<E>)
      requires |p| == |q|
      ensures |r| == |p|
    {
      seq(|p|, i requires 0 <= i < |p| => add(p[i], q[i]))
    }

    lemma {:induction false} EvalSum(p: seq<E>, q: seq<E>, x: E)
      requires Laws() && |p| == |q|
      ensures Eval(Sum(p, q), x) == add(Eval(p, x), Eval(q, x))
    {
      if p == [] {
        assert AddLaws(zero, zero, zero);
      } else {
        assert Sum(p, q)[1..] == Sum(p[1..], q[1..]);
        EvalSum(p[1..], q[1..], x);
        var u, v := Eval(p[1..], x), Eval(q[1..], x);
        assert Distributes(x, u, v);
        Swap4(p[0], q[0], mul(x, u), mul(x, v));
      }
    }

    function Scale(c: E, p: seq<E>): (r: seq<E>)
      ensures |r| == |p|
    {
      seq(|p|, i requires 0 <= i < |p| => mul(c, p[i]))
    }

    lemma {:induction false} EvalScale(c: E, p: seq<E>, x: E)
      requires Laws()
      ensures Eval(Scale(c, p), x) == mul(c, Eval(p, x))
    {
      if p == [] {
        assert MulLaws(c, zero, zero);
      } else {
        assert Scale(c, p)[1..] == Scale(c, p[1..]);
        EvalScale(c, p[1..], x);
        var u := Eval(p[1..], x);
        assert Distributes(c, p[0], mul(x, u));
        assert MulLaws(c, x, u) && MulLaws(x, c, u);
      }
    }

    lemma {:induction false} EvalPad(p: seq<E>, zs: seq<E>, x: E)
      requires Laws() && AllZero(zs)
      ensures Eval(p + zs, x) == Eval(p, x)
    {
      if p == [] {
        assert p + zs == zs;
        EvalAllZero(zs, x);
      } else {
        assert (p + zs)[1..] == p[1..] + zs;
        EvalPad(p[1..], zs, x);
      }
    }

    // ------------------------------------------------------------ roots

    /** The quotient of `cs` by (x - r). */
    function Quotient(cs: seq<E>, r: E): (q: seq<E>)
      ensures |q| == if cs == [] then 0 else |cs| - 1
    {
      if |cs| <= 1 then [] else [Eval(cs[1..], r)] + Quotient(cs[1..], r)
    }

    lemma {:induction false} DivideByRoot(cs: seq<E>, r: E, x: E)
      requires Laws() && cs != []
      ensures Eval(cs, x) == add(Eval(cs, r), mul(add(x, r), Eval(Quotient(cs, r), x)))
    {
      var c, p := cs[0], cs[1..];
      if p == [] {
        assert MulLaws(x, zero, zero) && MulLaws(r, zero, zero) && MulLaws(add(x, r), zero, zero);
        assert AddLaws(add(c, zero), zero, zero);
      } else {
        DivideByRoot(p, r, x);
        var q := Quotient(p, r);
        assert Quotient(cs, r)[1..] == q;
        DivisionStep(c, Eval(p, r), Eval(q, x), r, x);
      }
    }

    /** c + x(v + (x+r)w) == (c + rv) + (x+r)(v + xw) */
    lemma DivisionStep(c: E, v: E, w: E, r: E, x: E)
      requires Laws()
      ensures add(c, mul(x, add(v, mul(add(x, r), w)))) == add(add(c, mul(r, v)), mul(add(x, r), add(v, mul(x, w))))
    {
      var s := add(x, r);
      var xv, rv, t := mul(x, v), mul(r, v), mul(x, mul(s, w));
      assert Distributes(x, v, mul(s, w));
      assert Distributes(s, v, mul(x, w));
      assert MulLaws(s, x, w) && MulLaws(x, s, w);
      assert MulLaws(s, v, w) && MulLaws(v, x, w) && MulLaws(v, r, w) && MulLaws(v, s, w);
      assert MulLaws(x, v, w) && MulLaws(r, v, w);
      assert Distributes(v, x, r);
      assert mul(s, add(v, mul(x, w))) == add(add(xv, rv), t);
      assert AddLaws(c, rv, add(add(xv, rv), t));
      assert AddLaws(rv, add(xv, rv), t);
      assert AddLaws(xv, rv, rv) && AddLaws(rv, xv, rv) && AddLaws(rv, rv, xv);
      assert AddLaws(xv, zero, t);
      assert add(rv, add(xv, rv)) == xv;
    }

    ghost predicate Distinct(xs: seq<E>) {
      forall i, j | 0 <= i < j < |xs| :: xs[i] != xs[j]
    }

    lemma {:induction false} QuotientZero(cs: seq<E>, r: E)
      requires Laws() && AllZero(Quotient(cs, r)) && Eval(cs, r) == zero
      ensures AllZero(cs)
    {
      if cs != [] {
        var p := cs[1..];
        assert MulLaws(r, zero, zero) && AddLaws(cs[0], zero, zero);
        if p != [] {
          var q := Quotient(cs, r);
          assert q[0] == zero && Quotient(p, r) == q[1..];
          QuotientZero(p, r);
          assert cs == [cs[0]] + p;
        }
      }
    }

    /** A polynomial with at least as many distinct roots as coefficients is zero. */
    lemma {:induction false} TooManyRoots(cs: seq<E>, rs: seq<E>)
      requires Laws() && Distinct(rs) && |cs| <= |rs|
      requires forall i | 0 <= i < |rs| :: Eval(cs, rs[i]) == zero
      ensures AllZero(cs)
      decreases |cs|
    {
      if cs != [] {
        var r, q := rs[0], Quotient(cs, rs[0]);
        forall i | 0 <= i < |rs[1..]| ensures Eval(q, rs[1..][i]) == zero {
          var s := rs[i + 1];
          assert rs[0] != rs[i + 1];
          DivideByRoot(cs, r, s);
          ZeroSum(mul(add(s, r), Eval(q, s)));
          if add(s, r) == zero {
            Cancel(s, r);
            assert false;
          }
          NoZeroDivisors(add(s, r), Eval(q, s));
        }
        TooManyRoots(q, rs[1..]);
        QuotientZero(cs, r);
      }
    }

    // ------------------------------------------------------------ Lagrange's basis

    /** The product of (x_k + x) over k < n other than i. */
    function BasisValue(xs: seq<E>, i: nat, x: E, n: nat): E
      requires n <= |xs|
    {
      if n == 0 then one
      else if n - 1 == i then BasisValue(xs, i, x, n - 1)
      else mul(BasisValue(xs, i, x, n - 1), add(xs[n - 1], x))
    }

    function TimesRoot(p: seq<E>, r: E): (q: seq<E>)
      ensures |q| == |p| + 1
    {
      Sum([zero] + p, Scale(r, p) + [zero])
    }

    lemma EvalTimesRoot(p: seq<E>, r: E, x: E)
      requires Laws()
      ensures Eval(TimesRoot(p, r), x) == mul(Eval(p, x), add(r, x))
    {
      var e := Eval(p, x);
      EvalSum([zero] + p, Scale(r, p) + [zero], x);
      assert ([zero] + p)[1..] == p;
      ZeroSum(mul(x, e));
      EvalPad(Scale(r, p), [zero], x);
      EvalScale(r, p, x);
      assert MulLaws(x, e, e) && MulLaws(r, e, e);
      assert Distributes(e, x, r);
      assert AddLaws(x, r, r);
    }

    function BasisPoly(xs: seq<E>, i: nat, n: nat): (p: seq<E>)
      requires n <= |xs|
      ensures |p| == if n <= i then n + 1 else n
    {
      if n == 0 then [one]
      else if n - 1 == i then BasisPoly(xs, i, n - 1)
      else TimesRoot(BasisPoly(xs, i, n - 1), xs[n - 1])
    }

    lemma EvalOne(x: E)
      requires Laws()
      ensures Eval([one], x) == one
    {
      assert MulLaws(x, zero, zero) && AddLaws(one, zero, zero);
      assert Eval([one], x) == add(one, mul(x, Eval([one][1..], x)));
    }

    lemma {:induction false} EvalBasisPoly(xs: seq<E>, i: nat, n: nat, x: E)
      requires Laws() && n <= |xs|
      ensures Eval(BasisPoly(xs, i, n), x) == BasisValue(xs, i, x, n)
    {
      if n == 0 {
        EvalOne(x);
      } else {
        EvalBasisPoly(xs, i, n - 1, x);
        if n - 1 != i {
          EvalTimesRoot(BasisPoly(xs, i, n - 1), xs[n - 1], x);
        }
      }
    }

    /** The i-th basis polynomial vanishes at every other node and not at its own. */
    lemma {:induction false} BasisAtNode(xs: seq<E>, i: nat, j: nat, n: nat)
      requires Laws() && Distinct(xs) && i < |xs| && j < |xs| && n <= |xs|
      ensures i == j ==> BasisValue(xs, i, xs[j], n) != zero
      ensures i != j && j < n ==> BasisValue(xs, i, xs[j], n) == zero
    {
      if n > 0 {
        BasisAtNode(xs, i, j, n - 1);
        var v, d := BasisValue(xs, i, xs[j], n - 1), add(xs[n - 1], xs[j]);
        if n - 1 == i {
        } else if n - 1 == j {
          assert AddLaws(xs[j], xs[j], xs[j]) && MulLaws(v, zero, v);
        } else if i == j {
          if mul(v, d) == zero {
            NoZeroDivisors(v, d);
            Cancel(xs[n - 1], xs[j]);
            assert false;
          }
        } else if j < n - 1 {
          ZeroSum(d);
        }
      }
    }

    /** Interpolation at `x`, the first `m` terms, as the code adds them up. */
    function Interpolate(xs: seq<E>, ys: seq<E>, x: E, m: nat): E
      requires |xs| == |ys| && m <= |xs|
    {
      if m == 0 then zero else add(Interpolate(xs, ys, x, m - 1), mul(ys[m - 1], Weight(xs, m - 1, x)))
    }

    function Weight(xs: seq<E>, i: nat, x: E): E
      requires i < |xs|
    {
      mul(BasisValue(xs, i, x, |xs|), inv(BasisValue(xs, i, xs[i], |xs|)))
    }

    function InterpolatingPoly(xs: seq<E>, ys: seq<E>, m: nat): (p: seq<E>)
      requires |xs| == |ys| && m <= |xs|
      ensures |p| == |xs|
    {
      if m == 0 then seq(|xs|, _ => zero)
      else
        var c := mul(ys[m - 1], inv(BasisValue(xs, m - 1, xs[m - 1], |xs|)));
        Sum(InterpolatingPoly(xs, ys, m - 1), Scale(c, BasisPoly(xs, m - 1, |xs|)))
    }

    lemma {:induction false} EvalInterpolatingPoly(xs: seq<E>, ys: seq<E>, m: nat, x: E)
      requires Laws() && |xs| == |ys| && m <= |xs|
      ensures Eval(InterpolatingPoly(xs, ys, m), x) == Interpolate(xs, ys, x, m)
    {
      if m == 0 {
        EvalAllZero(InterpolatingPoly(xs, ys, 0), x);
      } else {
        var i, n := m - 1, |xs|;
        var w := inv(BasisValue(xs, i, xs[i], n));
        var c, b := mul(ys[i], w), BasisPoly(xs, i, n);
        EvalInterpolatingPoly(xs, ys, i, x);
        EvalSum(InterpolatingPoly(xs, ys, i), Scale(c, b), x);
        EvalScale(c, b, x);
        EvalBasisPoly(xs, i, n, x);
        var v := BasisValue(xs, i, x, n);
        assert MulLaws(ys[i], w, v) && MulLaws(v, w, v);
      }
    }

    lemma {:induction false} InterpolateAtNode(xs: seq<E>, ys: seq<E>, j: nat, m: nat)
      requires Laws() && Distinct(xs) && |xs| == |ys| && m <= |xs| && j < |xs|
      ensures Interpolate(xs, ys, xs[j], m) == if j < m then ys[j] else zero
    {
      if m > 0 {
        InterpolateAtNode(xs, ys, j, m - 1);
        var i, n := m - 1, |xs|;
        var d := BasisValue(xs, i, xs[i], n);
        BasisAtNode(xs, i, j, n);
        BasisAtNode(xs, i, i, n);
        assert Inverts(d) && MulLaws(ys[i], zero, zero) && MulLaws(ys[i], one, one);
        if i == j {
          assert Weight(xs, i, xs[j]) == one;
          ZeroSum(ys[i]);
        } else {
          ZeroSum(inv(d));
          assert AddLaws(Interpolate(xs, ys, xs[j], i), zero, zero);
        }
      }
    }

    // ------------------------------------------------------------ the two theorems

    /** Two polynomials with at most as many coefficients as nodes, equal at the nodes, are equal everywhere. */
    lemma AgreeEverywhere(p: seq<E>, q: seq<E>, xs: seq<E>)
      requires Laws() && Distinct(xs) && |p| == |q| <= |xs|
      requires forall i | 0 <= i < |xs| :: Eval(p, xs[i]) == Eval(q, xs[i])
      ensures p == q
    {
      var d := Sum(p, q);
      forall i | 0 <= i < |xs| ensures Eval(d, xs[i]) == zero {
        EvalSum(p, q, xs[i]);
        assert AddLaws(Eval(p, xs[i]), zero, zero);
      }
      TooManyRoots(d, xs);
      forall k | 0 <= k < |p| ensures p[k] == q[k] {
        assert d[k] == zero;
        Cancel(p[k], q[k]);
      }
    }

    /** Interpolating a polynomial from at least as many nodes as it has coefficients gives its value everywhere. */
    lemma InterpolationExact(cs: seq<E>, xs: seq<E>, ys: seq<E>, x: E)
      requires Laws() && Distinct(xs) && |cs| <= |xs| == |ys|
      requires forall i | 0 <= i < |xs| :: ys[i] == Eval(cs, xs[i])
      ensures Interpolate(xs, ys, x, |xs|) == Eval(cs, x)
    {
      var zs := seq(|xs| - |cs|, _ => zero);
      var p, q := cs + zs, InterpolatingPoly(xs, ys, |xs|);
      forall i | 0 <= i < |xs| ensures Eval(p, xs[i]) == Eval(q, xs[i]) {
        EvalPad(cs, zs, xs[i]);
        EvalInterpolatingPoly(xs, ys, |xs|, xs[i]);
        InterpolateAtNode(xs, ys, i, |xs|);
      }
      AgreeEverywhere(p, q, xs);
      EvalPad(cs, zs, x);
      EvalInterpolatingPoly(xs, ys, |xs|, x);
    }

    /** Through any values at distinct nodes goes exactly one polynomial with as many coefficients as nodes. */
    lemma InterpolationUnique(xs: seq<E>, ys: seq<E>) returns (p: seq<E>)
      requires Laws() && Distinct(xs) && |xs| == |ys|
      ensures |p| == |xs| && forall i | 0 <= i < |xs| :: Eval(p, xs[i]) == ys[i]
      ensures forall q: seq<E> | |q| == |xs| && (forall i | 0 <= i < |xs| :: Eval(q, xs[i]) == ys[i]) :: q == p
    {
      p := InterpolatingPoly(xs, ys, |xs|);
      forall i | 0 <= i < |xs| ensures Eval(p, xs[i]) == ys[i] {
        EvalInterpolatingPoly(xs, ys, |xs|, xs[i]);
        InterpolateAtNode(xs, ys, i, |xs|);
      }
      forall q: seq<E> | |q| == |xs| && (forall i | 0 <= i < |xs| :: Eval(q, xs[i]) == ys[i]) ensures q == p {
        AgreeEverywhere(q, p, xs);
      }
    }
  }
}
