/**
 * Shamir's secret sharing of a byte string, one polynomial per byte.
 */
module Shamir {
  import opened Wrappers
  import opened Bits
  import opened Gf256
  import opened Tables

  const MIN_THRESHOLD := 2
  const MAX_TOTAL_SHARES := 16

  /** A share as a value. */
  datatype Share = Share(index: int, value: seq<byte>)

  /** A share as the code holds it: `value` is filled in place. */
  class ShamirShare {
    const index: int
    const value: array<byte>

    constructor (index: int, length: nat)
      ensures this.index == index && fresh(value) && value.Length == length
    {
      this.index := index;
      this.value := new byte[length](_ => 0);
    }

    function View(): Share
      reads value
    {
      Share(index, value[..])
    }
  }

  function Views(shares: seq<ShamirShare>): (vs: seq<Share>)
    reads set s | s in shares :: s.value
  {
    seq(|shares|, i requires 0 <= i < |shares| reads set s | s in shares :: s.value => shares[i].View())
  }

  // ---------------------------------------------------------------- what the shares are

  /** The coefficients for byte `j`: the secret byte, then its slice of the random buffer. */
  function Coeffs(secret: seq<byte>, threshold: nat, buf: seq<byte>, j: nat): (cs: seq<byte>)
    requires threshold >= 1 && j < |secret| && |buf| >= (threshold - 1) * |secret|
    ensures |cs| == threshold
  {
    [secret[j]] + Slice(buf, threshold - 1, |secret|, j)
  }

  /** The j-th of `n` consecutive slices of length `m`. */
  function Slice(buf: seq<byte>, m: nat, n: nat, j: nat): (c: seq<byte>)
    requires j < n && |buf| >= m * n
    ensures |c| == m
  {
    SliceBounds(m, j, n);
    buf[m * j..m * (j + 1)]
  }

  lemma SliceBounds(m: nat, j: nat, n: nat)
    requires j < n
    ensures 0 <= m * j <= m * (j + 1) == m * j + m <= m * n
  {
    Distributes(m, j, 1);
    Distributes(m, j + 1, n - j - 1);
  }

  lemma Distributes(m: nat, a: nat, b: nat)
    ensures m * (a + b) == m * a + m * b
  {}

  ghost function ShareValue(secret: seq<byte>, threshold: nat, buf: seq<byte>, x: byte): (v: seq<byte>)
    requires threshold >= 1 && |buf| >= (threshold - 1) * |secret|
    ensures |v| == |secret|
  {
    seq(|secret|, j requires 0 <= j < |secret| => Gf().Eval(Coeffs(secret, threshold, buf, j), x))
  }

  ghost predicate SplitAccepts(secret: seq<byte>, threshold: int, total: int, buf: seq<byte>) {
    && secret != []
    && MIN_THRESHOLD <= threshold <= total <= MAX_TOTAL_SHARES
    && |buf| >= (threshold - 1) * |secret|
  }

  /** Share number `i` is the vector of polynomial values at i + 1. */
  ghost function SplitShares(secret: seq<byte>, threshold: int, total: int, buf: seq<byte>): (shares: seq<Share>)
    requires SplitAccepts(secret, threshold, total, buf)
    ensures |shares| == total
  {
    seq(total, i requires 0 <= i < total => Share(i + 1, ShareValue(secret, threshold, buf, i + 1)))
  }

  // ---------------------------------------------------------------- what recovery returns

  ghost predicate Combinable(shares: seq<Share>) {
    && shares != [] && shares[0].value != []
    && (forall i | 0 <= i < |shares| :: 1 <= shares[i].index <= 255 && |shares[i].value| == |shares[0].value|)
    && (forall i, j | 0 <= i < j < |shares| :: shares[i].index != shares[j].index)
  }

  function Nodes(shares: seq<Share>): (xs: seq<byte>)
    requires forall i | 0 <= i < |shares| :: 1 <= shares[i].index <= 255
    ensures |xs| == |shares|
  {
    seq(|shares|, i requires 0 <= i < |shares| => shares[i].index)
  }

  function Column(shares: seq<Share>, j: nat): (ys: seq<byte>)
    requires forall i | 0 <= i < |shares| :: j < |shares[i].value|
    ensures |ys| == |shares|
  {
    seq(|shares|, i requires 0 <= i < |shares| => shares[i].value[j])
  }

  /** Byte by byte, the interpolation at zero through all the shares. */
  ghost function Recovered(shares: seq<Share>): (secret: seq<byte>)
    requires Combinable(shares)
    ensures |secret| == |shares[0].value|
  {
    seq(|shares[0].value|, j requires 0 <= j < |shares[0].value| =>
      Gf().Interpolate(Nodes(shares), Column(shares, j), 0, |shares|))
  }

  // ---------------------------------------------------------------- the code

  method PolyEval(exp: seq<byte>, log: seq<nat>, coeffs: seq<byte>, x: byte) returns (y: byte)
    requires TablesValid(exp, log)
    ensures y == Gf().Eval(coeffs, x)
  {
    y := 0;
    var k := |coeffs|;
    assert coeffs[k..] == [];
    while k > 0
      invariant 0 <= k <= |coeffs|
      invariant y == Gf().Eval(coeffs[k..], x)
    {
      k := k - 1;
      assert coeffs[k..][1..] == coeffs[k + 1..];
      var z := TableMul(exp, log, y, x);
      MulComm(y, x);
      XorComm(z, coeffs[k]);
      y := Add(z, coeffs[k]);
    }
    assert coeffs[0..] == coeffs;
  }

  /** One basis weight: both products, then the quotient. */
  method BasisWeight(exp: seq<byte>, log: seq<nat>, xs: seq<byte>, i: nat) returns (w: byte)
    requires TablesValid(exp, log) && i < |xs| && Gf().Distinct(xs)
    ensures w == Gf().Weight(xs, i, 0)
  {
    var num: byte, den: byte := 1, 1;
    for k := 0 to |xs|
      invariant num == Gf().BasisValue(xs, i, 0, k)
      invariant den == Gf().BasisValue(xs, i, xs[i], k)
    {
      if k != i {
        XorUnit(xs[k]);
        num := TableMul(exp, log, num, xs[k]);
        den := TableMul(exp, log, den, Add(xs[k], xs[i]));
      }
    }
    GfIsField();
    Gf().BasisAtNode(xs, i, i, |xs|);
    var inverse := TableInv(exp, log, den);
    w := TableMul(exp, log, num, inverse.value);
  }

  method LagrangeInterpolateAtZero(exp: seq<byte>, log: seq<nat>, xs: seq<byte>, ys: seq<byte>) returns (result: byte)
    requires TablesValid(exp, log) && |xs| == |ys| && Gf().Distinct(xs)
    ensures result == Gf().Interpolate(xs, ys, 0, |xs|)
  {
    result := 0;
    for i := 0 to |xs|
      invariant result == Gf().Interpolate(xs, ys, 0, i)
    {
      var basis := BasisWeight(exp, log, xs, i);
      var term := TableMul(exp, log, ys[i], basis);
      result := Add(result, term);
    }
  }

  /** Writes byte `j` of every share. */
  method FillByte(exp: seq<byte>, log: seq<nat>, shares: seq<ShamirShare>, coeffs: seq<byte>, j: nat)
    requires TablesValid(exp, log)
    requires forall i | 0 <= i < |shares| :: shares[i].index == i + 1 <= 255 && j < shares[i].value.Length
    requires forall i, k | 0 <= i < k < |shares| :: shares[i].value != shares[k].value
    modifies set s | s in shares :: s.value
    ensures forall i | 0 <= i < |shares| ::
      shares[i].value[..] == old(shares[i].value[..])[j := Gf().Eval(coeffs, i + 1)]
  {
    for k := 0 to |shares|
      invariant forall i | 0 <= i < k :: shares[i].value[..] == old(shares[i].value[..])[j := Gf().Eval(coeffs, i + 1)]
      invariant forall i | k <= i < |shares| :: shares[i].value[..] == old(shares[i].value[..])
    {
      var y := PolyEval(exp, log, coeffs, shares[k].index);
      shares[k].value[j] := y;
    }
  }

  method NewShares(total: nat, length: nat) returns (shares: seq<ShamirShare>)
    ensures |shares| == total
    ensures forall i | 0 <= i < total ::
      shares[i].index == i + 1 && shares[i].value.Length == length && fresh(shares[i].value)
    ensures forall i, k | 0 <= i < k < total :: shares[i].value != shares[k].value
  {
    shares := [];
    for i := 0 to total
      invariant |shares| == i
      invariant forall k | 0 <= k < i ::
        shares[k].index == k + 1 && shares[k].value.Length == length && fresh(shares[k].value)
      invariant forall k, l | 0 <= k < l < i :: shares[k].value != shares[l].value
    {
      var s := new ShamirShare(i + 1, length);
      shares := shares + [s];
    }
  }

  /** The coefficients of byte `j`, drawn from the buffer at `randIdx`. */
  method DrawCoeffs(coeffs: array<byte>, secret: seq<byte>, buf: seq<byte>, j: nat, randIdx: nat) returns (next: nat)
    requires coeffs.Length >= 1 && j < |secret| && |buf| >= (coeffs.Length - 1) * |secret|
    requires randIdx == (coeffs.Length - 1) * j
    modifies coeffs
    ensures coeffs[..] == Coeffs(secret, coeffs.Length, buf, j)
    ensures next == (coeffs.Length - 1) * (j + 1)
  {
    SliceBounds(coeffs.Length - 1, j, |secret|);
    next := randIdx;
    coeffs[0] := secret[j];
    for k := 1 to coeffs.Length
      invariant next == randIdx + k - 1
      invariant coeffs[0] == secret[j]
      invariant forall l | 1 <= l < k :: coeffs[l] == buf[randIdx + l - 1]
    {
      coeffs[k] := buf[next];
      next := next + 1;
    }
  }

  method FillShares(exp: seq<byte>, log: seq<nat>, secret: seq<byte>, threshold: nat, buf: seq<byte>,
      shares: seq<ShamirShare>)
    requires TablesValid(exp, log) && threshold >= 1 && |buf| >= (threshold - 1) * |secret|
    requires forall i | 0 <= i < |shares| :: shares[i].index == i + 1 <= 255 && shares[i].value.Length == |secret|
    requires forall i, k | 0 <= i < k < |shares| :: shares[i].value != shares[k].value
    modifies set s | s in shares :: s.value
    ensures forall i | 0 <= i < |shares| :: shares[i].value[..] == ShareValue(secret, threshold, buf, i + 1)
  {
    var coeffs := new byte[threshold](_ => 0);
    var randIdx := 0;
    for j := 0 to |secret|
      invariant randIdx == (threshold - 1) * j
      invariant forall i, b | 0 <= i < |shares| && 0 <= b < j ::
        shares[i].value[b] == ShareValue(secret, threshold, buf, i + 1)[b]
    {
      randIdx := DrawCoeffs(coeffs, secret, buf, j, randIdx);
      forall i | 0 <= i < |shares| ensures shares[i].index == i + 1 <= 255 && j < shares[i].value.Length {
        assert shares[i].index == i + 1;
      }
      FillByte(exp, log, shares, coeffs[..], j);
      forall i | 0 <= i < |shares| ensures shares[i].value[j] == ShareValue(secret, threshold, buf, i + 1)[j] {
        assert shares[i].index <= 255;
        assert shares[i].value[..][j] == Gf().Eval(Coeffs(secret, threshold, buf, j), i + 1);
      }
    }
  }

  method SplitSecret(exp: seq<byte>, log: seq<nat>, secret: seq<byte>, threshold: int, total: int, randomBuf: seq<byte>)
    returns (r: Result<seq<ShamirShare>>)
    requires TablesValid(exp, log)
    ensures r.Ok? <==> SplitAccepts(secret, threshold, total, randomBuf)
    ensures r.Ok? ==> Views(r.value) == SplitShares(secret, threshold, total, randomBuf)
  {
    if |secret| == 0 {
      return Err("split secret is empty");
    }
    if threshold < MIN_THRESHOLD {
      return Err("threshold below minimum");
    }
    if total < threshold {
      return Err("total_shares below threshold");
    }
    if total > MAX_TOTAL_SHARES {
      return Err("total_shares above maximum");
    }
    var shares := NewShares(total, |secret|);
    if |randomBuf| < (threshold - 1) * |secret| {
      return Err("random source returned too few bytes");
    }
    FillShares(exp, log, secret, threshold, randomBuf, shares);
    r := Ok(shares);
  }

  /** The checks of recovery; `xs` collects the indices. */
  method CheckShares(shares: seq<ShamirShare>) returns (error: Option<string>, xs: seq<byte>)
    ensures error.None? <==> Combinable(Views(shares))
    ensures error.None? ==> xs == Nodes(Views(shares))
  {
    ghost var views := Views(shares);
    xs := [];
    if |shares| == 0 {
      return Some("combine got no shares"), xs;
    }
    var secretLen := shares[0].value.Length;
    if secretLen == 0 {
      return Some("combine got empty share value"), xs;
    }
    var seen: set<byte> := {};
    for i := 0 to |shares|
      invariant |xs| == i
      invariant forall k | 0 <= k < i :: 1 <= views[k].index <= 255 && |views[k].value| == secretLen
      invariant forall k | 0 <= k < i :: xs[k] == views[k].index
      invariant forall k, l | 0 <= k < l < i :: views[k].index != views[l].index
      invariant forall x :: x in seen <==> x in xs
    {
      var s := shares[i];
      assert views[i] == s.View();
      if s.index == 0 {
        return Some("invalid index 0"), xs;
      }
      if s.index < 0 || s.index > 255 {
        return Some("index out of [1, 255]"), xs;
      }
      if s.index in seen {
        return Some("index appears more than once"), xs;
      }
      seen := seen + {s.index};
      if s.value.Length != secretLen {
        return Some("value length differs from share[0]"), xs;
      }
      xs := xs + [s.index];
    }
    error := None;
  }

  method CombineShares(exp: seq<byte>, log: seq<nat>, shares: seq<ShamirShare>) returns (r: Result<seq<byte>>)
    requires TablesValid(exp, log)
    ensures r.Ok? <==> Combinable(Views(shares))
    ensures r.Ok? ==> r.value == Recovered(Views(shares))
  {
    var error, xs := CheckShares(shares);
    if error.Some? {
      return Err(error.value);
    }
    ghost var views := Views(shares);
    assert views[0] == shares[0].View();
    var out := new byte[shares[0].value.Length](_ => 0);
    for j := 0 to out.Length
      invariant forall b | 0 <= b < j :: out[b] == Recovered(views)[b]
    {
      var ys := GatherColumn(shares, j);
      out[j] := LagrangeInterpolateAtZero(exp, log, xs, ys);
    }
    assert out[..] == Recovered(views);
    r := Ok(out[..]);
  }

  method GatherColumn(shares: seq<ShamirShare>, j: nat) returns (ys: seq<byte>)
    requires Combinable(Views(shares)) && j < |Views(shares)[0].value|
    ensures ys == Column(Views(shares), j)
  {
    ghost var views := Views(shares);
    var buf := new byte[|shares|](_ => 0);
    for i := 0 to |shares|
      invariant forall k | 0 <= k < i :: buf[k] == views[k].value[j]
    {
      assert views[i] == shares[i].View();
      buf[i] := shares[i].value[j];
    }
    ys := buf[..];
  }

  // ---------------------------------------------------------------- recovery is exact

  ghost predicate IsSelection(picks: seq<nat>, total: nat) {
    && (forall i | 0 <= i < |picks| :: picks[i] < total)
    && (forall i, j | 0 <= i < j < |picks| :: picks[i] != picks[j])
  }

  function Select(shares: seq<Share>, picks: seq<nat>): (vs: seq<Share>)
    requires forall i | 0 <= i < |picks| :: picks[i] < |shares|
    ensures |vs| == |picks|
  {
    seq(|picks|, i requires 0 <= i < |picks| => shares[picks[i]])
  }

  /** Any threshold-or-more distinct shares, in any order, give the secret back byte for byte. */
  lemma RecoveryExact(secret: seq<byte>, threshold: int, total: int, buf: seq<byte>, picks: seq<nat>)
    requires SplitAccepts(secret, threshold, total, buf)
    requires IsSelection(picks, total) && |picks| >= threshold
    ensures var vs := Select(SplitShares(secret, threshold, total, buf), picks);
      Combinable(vs) && Recovered(vs) == secret
  {
    var vs := Select(SplitShares(secret, threshold, total, buf), picks);
    var xs := Nodes(vs);
    GfIsField();
    forall j | 0 <= j < |secret| ensures Recovered(vs)[j] == secret[j] {
      var cs := Coeffs(secret, threshold, buf, j);
      Gf().InterpolationExact(cs, xs, Column(vs, j), 0);
      EvalAtZero(cs);
    }
    assert Recovered(vs) == secret;
  }

  lemma EvalAtZero(cs: seq<byte>)
    requires cs != []
    ensures Gf().Eval(cs, 0) == cs[0]
  {
    GfIsField();
    Gf().ZeroSum(Gf().Eval(cs[1..], 0));
    assert Gf().AddLaws(cs[0], 0, 0);
  }

  // ---------------------------------------------------------------- fewer shares say nothing

  /** Given one share too few, each value of the constant term fits exactly one choice of the other coefficients. */
  lemma RestOfPolynomial(constant: byte, xs: seq<byte>, ys: seq<byte>) returns (c: seq<byte>)
    requires |xs| == |ys| && Gf().Distinct(xs) && 0 !in xs
    ensures |c| == |xs| && Fits(constant, c, xs, ys)
    ensures forall d: seq<byte> | |d| == |xs| && Fits(constant, d, xs, ys) :: d == c
  {
    GfIsField();
    var nodes, values := [0] + xs, [constant] + ys;
    var p := Gf().InterpolationUnique(nodes, values);
    EvalAtZero(p);
    c := p[1..];
    assert p == [constant] + c;
    forall i | 0 <= i < |xs| ensures Gf().Eval([constant] + c, xs[i]) == ys[i] {
      assert nodes[i + 1] == xs[i];
    }
    forall d: seq<byte> | |d| == |xs| && Fits(constant, d, xs, ys) ensures d == c {
      var q := [constant] + d;
      EvalAtZero(q);
      forall i | 0 <= i < |nodes| ensures Gf().Eval(q, nodes[i]) == values[i] {
        if i > 0 {
          assert nodes[i] == xs[i - 1];
        }
      }
      assert q == p;
      assert d == q[1..];
    }
  }

  ghost predicate Fits(constant: byte, c: seq<byte>, xs: seq<byte>, ys: seq<byte>)
    requires |xs| == |ys|
  {
    forall i | 0 <= i < |xs| :: Gf().Eval([constant] + c, xs[i]) == ys[i]
  }

  /** A buffer with a given slice for each byte. */
  lemma {:induction false} BufferOfSlices(slices: seq<seq<byte>>, m: nat) returns (buf: seq<byte>)
    requires forall j | 0 <= j < |slices| :: |slices[j]| == m
    ensures |buf| == m * |slices|
    ensures forall j | 0 <= j < |slices| :: Slice(buf, m, |slices|, j) == slices[j]
  {
    if slices == [] {
      buf := [];
    } else {
      var k := |slices| - 1;
      var front := BufferOfSlices(slices[..k], m);
      buf := front + slices[k];
      SliceBounds(m, k, k + 1);
      forall j | 0 <= j < |slices| ensures Slice(buf, m, |slices|, j) == slices[j] {
        if j < k {
          SliceOfFront(buf, m, k, j);
          assert buf[..m * k] == front;
          assert Slice(front, m, k, j) == slices[..k][j];
        } else {
          assert buf[m * k..m * (k + 1)] == slices[k];
        }
      }
    }
  }

  lemma SliceOfFront(buf: seq<byte>, m: nat, k: nat, j: nat)
    requires j < k && |buf| == m * (k + 1)
    ensures m * k <= |buf| && Slice(buf, m, k + 1, j) == Slice(buf[..m * k], m, k, j)
  {
    SliceBounds(m, k, k + 1);
    SliceBounds(m, j, k);
    SliceBounds(m, j, k + 1);
  }

  /** Two buffers that agree slice by slice are equal. */
  lemma {:induction false} SlicesDetermine(a: seq<byte>, b: seq<byte>, m: nat, n: nat)
    requires |a| == |b| == m * n
    requires forall j | 0 <= j < n :: Slice(a, m, n, j) == Slice(b, m, n, j)
    ensures a == b
  {
    if n > 0 {
      var k := n - 1;
      SliceBounds(m, k, n);
      var l := m * k;
      forall j | 0 <= j < k ensures Slice(a[..l], m, k, j) == Slice(b[..l], m, k, j) {
        SliceOfFront(a, m, k, j);
        SliceOfFront(b, m, k, j);
      }
      SlicesDetermine(a[..l], b[..l], m, k);
      assert Slice(a, m, n, k) == a[l..] && Slice(b, m, n, k) == b[l..];
      assert a == a[..l] + a[l..] && b == b[..l] + b[l..];
    }
  }

  /** The shares picked from a split, as an equation about every byte. */
  lemma SameShares(s: seq<byte>, s': seq<byte>, t: int, total: int, buf: seq<byte>, buf': seq<byte>, picks: seq<nat>)
    requires SplitAccepts(s, t, total, buf) && SplitAccepts(s', t, total, buf') && |s| == |s'|
    requires IsSelection(picks, total)
    ensures Select(SplitShares(s, t, total, buf), picks) == Select(SplitShares(s', t, total, buf'), picks) <==>
      forall j | 0 <= j < |s| ::
        Fits(s'[j], Coeffs(s', t, buf', j)[1..], PickNodes(picks), PickColumn(s, t, buf, picks, j))
  {
    var a, b := Select(SplitShares(s, t, total, buf), picks), Select(SplitShares(s', t, total, buf'), picks);
    forall i, j | 0 <= i < |picks| && 0 <= j < |s|
      ensures a[i].value[j] == PickColumn(s, t, buf, picks, j)[i]
      ensures b[i].value[j] == Gf().Eval([s'[j]] + Coeffs(s', t, buf', j)[1..], PickNodes(picks)[i])
    {
      assert Coeffs(s', t, buf', j) == [s'[j]] + Coeffs(s', t, buf', j)[1..];
    }
    if forall j | 0 <= j < |s| ::
      Fits(s'[j], Coeffs(s', t, buf', j)[1..], PickNodes(picks), PickColumn(s, t, buf, picks, j)) {
      forall i | 0 <= i < |picks| ensures a[i] == b[i] {
        forall j | 0 <= j < |s| ensures a[i].value[j] == b[i].value[j] {
          assert Fits(s'[j], Coeffs(s', t, buf', j)[1..], PickNodes(picks), PickColumn(s, t, buf, picks, j));
        }
        assert a[i].value == b[i].value;
      }
      assert a == b;
    }
  }

  function PickNodes(picks: seq<nat>): (xs: seq<byte>)
    requires forall i | 0 <= i < |picks| :: picks[i] < 255
    ensures |xs| == |picks|
  {
    seq(|picks|, i requires 0 <= i < |picks| => picks[i] + 1)
  }

  ghost function PickColumn(secret: seq<byte>, t: nat, buf: seq<byte>, picks: seq<nat>, j: nat): (ys: seq<byte>)
    requires t >= 1 && |buf| >= (t - 1) * |secret| && j < |secret|
    requires forall i | 0 <= i < |picks| :: picks[i] < 255
    ensures |ys| == |picks|
  {
    seq(|picks|, i requires 0 <= i < |picks| => ShareValue(secret, t, buf, picks[i] + 1)[j])
  }

  /**
   * One share fewer than the threshold is consistent with every secret of the same length, and with each
   * through exactly one choice of the random bytes.
   */
  lemma BelowThreshold(secret: seq<byte>, threshold: int, total: int, buf: seq<byte>, picks: seq<nat>, other: seq<byte>)
    returns (buf': seq<byte>)
    requires SplitAccepts(secret, threshold, total, buf)
    requires IsSelection(picks, total) && |picks| == threshold - 1
    requires |other| == |secret|
    ensures |buf'| == (threshold - 1) * |secret|
    ensures Select(SplitShares(other, threshold, total, buf'), picks)
      == Select(SplitShares(secret, threshold, total, buf), picks)
    ensures forall b: seq<byte> | |b| == |buf'| &&
      Select(SplitShares(other, threshold, total, b), picks)
        == Select(SplitShares(secret, threshold, total, buf), picks) :: b == buf'
  {
    var m, n := threshold - 1, |secret|;
    var slices := SlicesFor(secret, threshold, buf, picks, other);
    assert forall j | 0 <= j < n :: OnlyFit(secret, threshold, buf, picks, other, j, slices[j]);
    buf' := BufferOfSlices(slices, m);
    SameShares(secret, other, threshold, total, buf, buf', picks);
    assert forall j | 0 <= j < n :: Coeffs(other, threshold, buf', j)[1..] == slices[j];
    forall b: seq<byte> | |b| == |buf'| &&
      Select(SplitShares(other, threshold, total, b), picks)
        == Select(SplitShares(secret, threshold, total, buf), picks)
      ensures b == buf'
    {
      SameShares(secret, other, threshold, total, buf, b, picks);
      forall j | 0 <= j < n ensures Slice(b, m, n, j) == Slice(buf', m, n, j) {
        assert Coeffs(other, threshold, b, j)[1..] == Slice(b, m, n, j);
        assert FitsByte(secret, threshold, buf, picks, other, j, Slice(b, m, n, j));
        assert OnlyFit(secret, threshold, buf, picks, other, j, slices[j]);
      }
      SlicesDetermine(b, buf', m, n);
    }
  }

  ghost predicate FitsByte(secret: seq<byte>, t: nat, buf: seq<byte>, picks: seq<nat>, other: seq<byte>, j: nat,
      c: seq<byte>)
    requires t >= 1 && |buf| >= (t - 1) * |secret| && j < |secret| == |other|
    requires forall i | 0 <= i < |picks| :: picks[i] < 255
  {
    Fits(other[j], c, PickNodes(picks), PickColumn(secret, t, buf, picks, j))
  }

  ghost predicate OnlyFit(secret: seq<byte>, t: nat, buf: seq<byte>, picks: seq<nat>, other: seq<byte>, j: nat,
      c: seq<byte>)
    requires t >= 1 && |buf| >= (t - 1) * |secret| && j < |secret| == |other|
    requires forall i | 0 <= i < |picks| :: picks[i] < 255
  {
    && |c| == t - 1 && FitsByte(secret, t, buf, picks, other, j, c)
    && forall d: seq<byte> | |d| == t - 1 && FitsByte(secret, t, buf, picks, other, j, d) :: d == c
  }

  lemma SliceFor(secret: seq<byte>, t: nat, buf: seq<byte>, picks: seq<nat>, other: seq<byte>,
      j: nat) returns (c: seq<byte>)
    requires t >= 1 && |buf| >= (t - 1) * |secret| && j < |secret| == |other|
    requires IsSelection(picks, MAX_TOTAL_SHARES) && |picks| == t - 1
    ensures OnlyFit(secret, t, buf, picks, other, j, c)
  {
    c := RestOfPolynomial(other[j], PickNodes(picks), PickColumn(secret, t, buf, picks, j));
  }

  lemma SlicesFor(secret: seq<byte>, t: nat, buf: seq<byte>, picks: seq<nat>,
      other: seq<byte>) returns (slices: seq<seq<byte>>)
    requires t >= 1 && |buf| >= (t - 1) * |secret| && |other| == |secret|
    requires IsSelection(picks, MAX_TOTAL_SHARES) && |picks| == t - 1
    ensures |slices| == |secret|
    ensures forall j | 0 <= j < |secret| :: OnlyFit(secret, t, buf, picks, other, j, slices[j])
  {
    slices := [];
    for j := 0 to |secret|
      invariant |slices| == j
      invariant forall k | 0 <= k < j :: OnlyFit(secret, t, buf, picks, other, k, slices[k])
    {
      var c := SliceFor(secret, t, buf, picks, other, j);
      slices := slices + [c];
    }
  }
}
