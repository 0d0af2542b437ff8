/** The pigeonhole principle on sequences of numbers. */
module Counting {

  lemma {:induction false} SetOfRange(n: nat) returns (s: set<nat>)
    ensures |s| == n && forall x: nat :: x in s <==> 1 <= x <= n
  {
    if n == 0 {
      s := {};
    } else {
      var r := SetOfRange(n - 1);
      s := r + {n};
    }
  }

  lemma {:induction false} SetOfDistinct(xs: seq<nat>) returns (s: set<nat>)
    requires forall i, j | 0 <= i < j < |xs| :: xs[i] != xs[j]
    ensures |s| == |xs| && forall x :: x in s <==> x in xs
  {
    if xs == [] {
      s := {};
    } else {
      var r := SetOfDistinct(xs[1..]);
      assert xs == [xs[0]] + xs[1..];
      s := r + {xs[0]};
    }
  }

  lemma {:induction false} SubsetSize(s: set<nat>, r: set<nat>)
    requires s <= r
    ensures |s| <= |r|
  {
    if x :| x in s {
      SubsetSize(s - {x}, r - {x});
    } else {
      assert s == {};
    }
  }

  /** As many distinct numbers as there are in a range fill the range. */
  lemma FullRange(xs: seq<nat>, a: nat)
    requires forall i, j | 0 <= i < j < |xs| :: xs[i] != xs[j]
    requires forall i | 0 <= i < |xs| :: 1 <= xs[i] <= |xs|
    requires 1 <= a <= |xs|
    ensures a in xs
  {
    var s := SetOfDistinct(xs);
    var r := SetOfRange(|xs|);
    if a !in s {
      forall x | x in s ensures x in r - {a} {
        assert x in xs;
      }
      SubsetSize(s, r - {a});
    }
  }
}
