/**
 * The exponent and logarithm tables of the generator 3, and the field operations that go through them.
 */
module Tables {
  import opened Wrappers
  import opened Bits
  import opened Gf256
  import opened Counting
  import opened Generator
  import Polynomials

  /** The powers of the generator, 3. */
  ghost function Exp(i: nat): byte {
    NumByte(3);
    Power(Num(3), i)
  }

  lemma GeneratorNum()
    ensures Num(3) == 3
  {
    NumOne();
    NumStep(3);
    assert (3 as bv8) >> 1 == 1;
  }

  lemma ExpSum(i: nat, j: nat)
    ensures Exp(i + j) == Mul(Exp(i), Exp(j))
  {
    NumByte(3);
    PowerSum(Num(3), i, j);
  }

  lemma ExpOpposite(i: nat)
    requires i <= 255
    ensures Mul(Exp(i), Exp(255 - i)) == 1
  {
    NumByte(3);
    NoShorterPeriod(Num(3), 1);
    ExpSum(i, 255 - i);
  }

  lemma ExpPeriod(i: nat)
    ensures Exp(i + 255) == Exp(i)
  {
    ExpOpposite(0);
    ExpSum(i, 255);
    MulOne(Exp(255 - 0));
    MulOne(Exp(i));
  }

  lemma ExpNotOne(k: nat)
    requires 0 < k < 255
    ensures Exp(k) != 1
  {
    NumByte(3);
    NoShorterPeriod(Num(3), k);
  }

  lemma ExpDiffer(i: nat, j: nat)
    requires i < j < 255
    ensures Exp(i) != Exp(j)
  {
    var k := j - i;
    ExpSum(k, i);
    ExpOpposite(i);
    ExpNotOne(k);
    if Exp(i) == Exp(k + i) {
      CancelFactor(Exp(k), Exp(i), Exp(255 - i));
    }
  }

  lemma CancelFactor(d: byte, a: byte, c: byte)
    requires Mul(d, a) == a && Mul(a, c) == 1
    ensures d == 1
  {
    MulAssoc(d, a, c);
    MulOne(d);
  }

  lemma ExpNonZero(i: nat)
    requires i < 255
    ensures Exp(i) != 0
  {
    ExpOpposite(i);
    MulZero(Exp(255 - i));
  }

  // ---------------------------------------------------------------- every non-zero byte is a power

  lemma Logarithm(a: byte) returns (i: nat)
    requires a != 0
    ensures IsLog(a, i)
  {
    var xs: seq<nat> := seq(255, k requires 0 <= k < 255 => Exp(k));
    forall i, j | 0 <= i < j < |xs| ensures xs[i] != xs[j] {
      ExpDiffer(i, j);
    }
    forall i | 0 <= i < |xs| ensures 1 <= xs[i] <= |xs| {
      ExpNonZero(i);
    }
    FullRange(xs, a);
    i :| 0 <= i < |xs| && xs[i] == a;
  }

  ghost predicate IsLog(a: byte, i: nat) {
    i < 255 && Exp(i) == a
  }

  // ---------------------------------------------------------------- inverses

  ghost predicate IsInverse(a: byte, b: byte) {
    Mul(a, b) == 1
  }

  lemma InverseExists(a: byte)
    requires a != 0
    ensures exists b: byte :: IsInverse(a, b)
  {
    var i := Logarithm(a);
    ExpOpposite(i);
    assert IsInverse(a, Exp(255 - i));
  }

  lemma InverseUnique(a: byte, b: byte, c: byte)
    requires IsInverse(a, b) && IsInverse(a, c)
    ensures b == c
  {
    MulAssoc(b, a, c);
    MulComm(b, a);
    MulOne(b);
    MulOne(c);
  }

  ghost function Inverse(a: byte): (b: byte)
    ensures a != 0 ==> IsInverse(a, b)
  {
    if a == 0 then 0 else
      InverseExists(a);
      var b: byte :| IsInverse(a, b);
      b
  }

  /** The bytes with `Add` and `Mul`. */
  ghost function Gf(): Polynomials.Field<byte> {
    Polynomials.Field<byte>.Field(0, 1, Add, (a: byte, b: byte) => Mul(a, b), Inverse)
  }

  /** They are a field. */
  lemma GfIsField()
    ensures Gf().Laws()
  {
    var f := Gf();
    forall a: byte, b: byte, c: byte ensures f.AddLaws(a, b, c) {
      XorAssoc(a, b, c);
      XorComm(a, b);
      XorUnit(a);
      XorSelf(a);
    }
    forall a: byte, b: byte, c: byte ensures f.MulLaws(a, b, c) {
      MulAssoc(a, b, c);
      MulComm(a, b);
      MulOne(a);
    }
    forall a: byte, b: byte, c: byte ensures f.Distributes(a, b, c) {
      MulAdd(a, b, c);
    }
    forall a: byte ensures f.Inverts(a) {
      assert a != 0 ==> IsInverse(a, Inverse(a));
    }
  }

  // ---------------------------------------------------------------- the tables

  ghost predicate TablesValid(exp: seq<byte>, log: seq<nat>) {
    && |exp| == 256 && |log| == 256
    && (forall i | 0 <= i < 255 :: exp[i] == Exp(i))
    && exp[255] == 1
    && (forall a | 1 <= a < 256 :: IsLog(a, log[a]))
  }

  method BuildTables() returns (exp: array<byte>, log: array<nat>)
    ensures fresh(exp) && fresh(log) && TablesValid(exp[..], log[..])
  {
    exp := new byte[256](_ => 0);
    log := new nat[256](_ => 0);
    var x: byte := 1;
    for i := 0 to 255
      invariant x == Exp(i) && Filled(exp[..], log[..], i)
    {
      SetEntry(exp, log, x, i);
      x := NextPower(x, i);
    }
    exp[255] := 1;
    LogsComplete(log[..]);
  }

  /** The first `n` powers and their logarithms are in the tables. */
  ghost predicate Filled(exp: seq<byte>, log: seq<nat>, n: nat) {
    && |exp| == 256 && |log| == 256 && n <= 255
    && (forall j | 0 <= j < n :: exp[j] == Exp(j)) && forall j | 0 <= j < n :: log[Exp(j)] == j
  }

  /** One entry of each table. */
  method SetEntry(exp: array<byte>, log: array<nat>, x: byte, i: nat)
    requires exp.Length == 256 && log.Length == 256 && i < 255 && x == Exp(i) && Filled(exp[..], log[..], i)
    modifies exp, log
    ensures Filled(exp[..], log[..], i + 1)
  {
    NewPower(i);
    exp[i] := x;
    log[x] := i;
    assert forall j | 0 <= j < i :: log[..][Exp(j)] == old(log[..])[Exp(j)];
  }

  lemma NewPower(i: nat)
    requires i < 255
    ensures forall j | 0 <= j < i :: Exp(j) != Exp(i)
  {
    forall j | 0 <= j < i ensures Exp(j) != Exp(i) {
      ExpDiffer(j, i);
    }
  }

  /** Every non-zero element is a power, so every logarithm is filled in. */
  lemma LogsComplete(log: seq<nat>)
    requires |log| == 256 && forall j | 0 <= j < 255 :: log[Exp(j)] == j
    ensures forall a | 1 <= a < 256 :: IsLog(a, log[a])
  {
    forall a: byte | 1 <= a < 256 ensures IsLog(a, log[a]) {
      var i := Logarithm(a);
      assert log[Exp(i)] == i;
    }
  }

  method NextPower(x: byte, ghost i: nat) returns (y: byte)
    requires x == Exp(i)
    ensures y == Exp(i + 1)
  {
    GeneratorNum();
    y := MulRaw(x, 3);
  }

  lemma ExpMod(i: nat)
    requires i < 510
    ensures Exp(i) == Exp(i % 255)
  {
    if i >= 255 {
      OnceAround(i);
      ExpPeriod(i - 255);
    } else {
      assert i % 255 == i;
    }
  }

  lemma OnceAround(i: nat)
    requires 255 <= i < 510
    ensures i % 255 == i - 255
  {}

  method TableMul(exp: seq<byte>, log: seq<nat>, a: byte, b: byte) returns (r: byte)
    requires TablesValid(exp, log)
    ensures r == Mul(a, b)
  {
    if a == 0 || b == 0 {
      MulZero(b);
      MulComm(a, b);
      MulZero(a);
      return 0;
    }
    assert IsLog(a, log[a]) && IsLog(b, log[b]);
    ExpSum(log[a], log[b]);
    ExpMod(log[a] + log[b]);
    var idx := (log[a] + log[b]) % 255;
    r := exp[idx];
  }

  method TableInv(exp: seq<byte>, log: seq<nat>, a: byte) returns (r: Result<byte>)
    requires TablesValid(exp, log)
    ensures r.Ok? <==> a != 0
    ensures r.Ok? ==> r.value == Inverse(a)
  {
    if a == 0 {
      return Err("gf256Inv(0)");
    }
    assert IsLog(a, log[a]);
    ExpOpposite(log[a]);
    assert exp[255 - log[a]] == Exp(255 - log[a]) by {
      if log[a] == 0 {
        MulOne(Exp(255 - log[a]));
      }
    }
    InverseUnique(a, exp[255 - log[a]], Inverse(a));
    r := Ok(exp[255 - log[a]]);
  }
}
