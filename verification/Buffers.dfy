/** Byte buffers: two strings of bytes written into one array, and comparison over every byte. */
module Buffers {
  import opened Bits

  /** `concat`: both parts set into a new buffer. */
  method Concat(a: seq<byte>, b: seq<byte>) returns (r: seq<byte>)
    ensures r == a + b
  {
    var buf := new byte[|a| + |b|](_ => 0);
    forall i | 0 <= i < |a| {
      buf[i] := a[i];
    }
    forall i | 0 <= i < |b| {
      buf[|a| + i] := b[i];
    }
    assert forall i | 0 <= i < |b| :: buf[..][|a| + i] == b[i];
    assert buf[..] == a + b;
    r := buf[..];
  }

  function Or(a: nat, b: nat): nat
    decreases a, b
  {
    if a == 0 then b else if b == 0 then a
    else 2 * Or(a / 2, b / 2) + if a % 2 == 1 || b % 2 == 1 then 1 else 0
  }

  lemma {:induction false} OrZero(a: nat, b: nat)
    ensures Or(a, b) == 0 <==> a == 0 && b == 0
    decreases a
  {
    if a > 0 && b > 0 {
      OrZero(a / 2, b / 2);
    }
  }

  lemma {:induction false} XorZero(a: nat, b: nat)
    ensures Xor(a, b) == 0 <==> a == b
    decreases a
  {
    if a > 0 && b > 0 {
      XorZero(a / 2, b / 2);
    }
  }

  /** The differences of all bytes are gathered before the answer is given. */
  method ConstantTimeEqual(a: seq<byte>, b: seq<byte>) returns (equal: bool)
    ensures equal <==> a == b
  {
    if |a| != |b| {
      return false;
    }
    var diff: nat := 0;
    for i := 0 to |a|
      invariant diff == 0 <==> forall k | 0 <= k < i :: a[k] == b[k]
    {
      XorZero(a[i], b[i]);
      OrZero(diff, Xor(a[i], b[i]));
      diff := Or(diff, Xor(a[i], b[i]));
    }
    equal := diff == 0;
  }
}
