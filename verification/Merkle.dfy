/**
 * Merkle trees as section 2.1 of RFC 6962 has them: inclusion and consistency proofs, and the loops over bits that
 * verify them against the tree that makes them.
 */
module Merkle {
  import opened Wrappers
  import opened Bits
  import opened Signing
  import Base64

  type Hash = h: Bytes | |h| == 32 witness seq(32, _ => 0)

  type Sha = Bytes -> Hash

  /** What is hashed for a leaf, and for an interior node. */
  function LeafInput(entry: Bytes): Bytes {
    [0] + entry
  }

  function InteriorInput(left: Hash, right: Hash): Bytes {
    [1] + left + right
  }

  function HashLeaf(sha: Sha, entry: Bytes): Hash {
    sha(LeafInput(entry))
  }

  function HashInterior(sha: Sha, left: Hash, right: Hash): Hash {
    sha(InteriorInput(left, right))
  }

  lemma InputParts(a: Hash, b: Hash, c: Hash, d: Hash)
    ensures InteriorInput(a, b) == InteriorInput(c, d) <==> a == c && b == d
  {
    var x, y := InteriorInput(a, b), InteriorInput(c, d);
    assert x[1..33] == a && x[33..] == b && y[1..33] == c && y[33..] == d;
  }

  lemma LeafInputParts(a: Bytes, b: Bytes)
    ensures LeafInput(a) == LeafInput(b) <==> a == b
  {
    assert LeafInput(a)[1..] == a && LeafInput(b)[1..] == b;
  }

  // ---------------------------------------------------------------- collisions

  /** No input of the one list and another one of the other list have the same hash. */
  ghost predicate NoCollision(sha: Sha, xs: seq<Bytes>, ys: seq<Bytes>) {
    forall x, y | x in xs && y in ys && sha(x) == sha(y) :: x == y
  }

  ghost predicate Among(xs: seq<Bytes>, all: seq<Bytes>) {
    forall x | x in xs :: x in all
  }

  lemma NoCollisionAmong(sha: Sha, xs: seq<Bytes>, ys: seq<Bytes>, part: seq<Bytes>, other: seq<Bytes>)
    requires NoCollision(sha, xs, ys) && Among(part, xs) && Among(other, ys)
    ensures NoCollision(sha, part, other)
  {}

  /** Equal hashes of two nodes, the one in the tree and the other on the path, are of equal parts. */
  lemma SameParts(sha: Sha, xs: seq<Bytes>, ys: seq<Bytes>, a: Hash, b: Hash, c: Hash, d: Hash)
    requires NoCollision(sha, xs, ys) && InteriorInput(a, b) in xs && InteriorInput(c, d) in ys
    requires HashInterior(sha, a, b) == HashInterior(sha, c, d)
    ensures a == c && b == d
  {
    InputParts(a, b, c, d);
  }

  // ---------------------------------------------------------------- the tree

  /** Doubling while the double is still below `n`. */
  function Doubled(k: nat, n: nat): nat
    requires k > 0
    decreases n - k
  {
    if k * 2 < n then Doubled(k * 2, n) else k
  }

  /** The largest power of two below `n`; 0 when there is none. */
  function Split(n: nat): (k: nat)
    ensures n >= 2 ==> 0 < k < n
  {
    if n <= 1 then 0
    else
      DoubledBelow(1, n);
      Doubled(1, n)
  }

  lemma {:induction false} DoubledBelow(k: nat, n: nat)
    requires 0 < k < n
    ensures 0 < Doubled(k, n) < n <= 2 * Doubled(k, n)
    decreases n - k
  {
    if k * 2 < n {
      DoubledBelow(k * 2, n);
    }
  }

  method LargestPowerOfTwoLessThan(n: nat) returns (k: nat)
    ensures k == Split(n)
  {
    if n <= 1 {
      return 0;
    }
    k := 1;
    while k * 2 < n
      invariant 0 < k && Doubled(k, n) == Doubled(1, n)
      decreases n - k
    {
      k := k * 2;
    }
  }

  lemma PowerPositive(j: nat)
    ensures Pow2(j) > 0
  {}

  lemma {:induction false} DoubledPower(j: nat, n: nat) returns (e: nat)
    ensures Pow2(j) > 0 && Doubled(Pow2(j), n) == Pow2(e)
    decreases n - Pow2(j)
  {
    PowerPositive(j);
    if Pow2(j) * 2 < n {
      e := DoubledPower(j + 1, n);
    } else {
      e := j;
    }
  }

  /** The exponent of the power of two at which a tree of `n` leaves splits. */
  lemma Exponent(n: nat) returns (e: nat)
    requires n >= 2
    ensures Split(n) == Pow2(e) && Pow2(e) < n <= 2 * Pow2(e)
  {
    assert Pow2(0) == 1;
    e := DoubledPower(0, n);
    DoubledBelow(1, n);
  }

  function SubtreeRoot(sha: Sha, leaves: seq<Hash>): Hash {
    if leaves == [] then seq(32, _ => 0)
    else if |leaves| == 1 then leaves[0]
    else
      var k := Split(|leaves|);
      HashInterior(sha, SubtreeRoot(sha, leaves[..k]), SubtreeRoot(sha, leaves[k..]))
  }

  /** Everything that is hashed for the root of these leaves. */
  function TreeInputs(sha: Sha, leaves: seq<Hash>): seq<Bytes> {
    if |leaves| <= 1 then []
    else
      var k := Split(|leaves|);
      TreeInputs(sha, leaves[..k]) + TreeInputs(sha, leaves[k..])
        + [InteriorInput(SubtreeRoot(sha, leaves[..k]), SubtreeRoot(sha, leaves[k..]))]
  }

  lemma TreeInputsSplit(sha: Sha, leaves: seq<Hash>, left: seq<Hash>, right: seq<Hash>)
    requires |leaves| >= 2 && left == leaves[..Split(|leaves|)] && right == leaves[Split(|leaves|)..]
    ensures TreeInputs(sha, leaves) == TreeInputs(sha, left) + TreeInputs(sha, right)
      + [InteriorInput(SubtreeRoot(sha, left), SubtreeRoot(sha, right))]
  {}

  lemma TreeParts(sha: Sha, leaves: seq<Hash>, left: seq<Hash>, right: seq<Hash>, all: seq<Bytes>)
    requires |leaves| >= 2 && left == leaves[..Split(|leaves|)] && right == leaves[Split(|leaves|)..]
    requires Among(TreeInputs(sha, leaves), all)
    ensures Among(TreeInputs(sha, left), all) && Among(TreeInputs(sha, right), all)
    ensures InteriorInput(SubtreeRoot(sha, left), SubtreeRoot(sha, right)) in all
  {
    TreeInputsSplit(sha, leaves, left, right);
    AmongParts(TreeInputs(sha, left), TreeInputs(sha, right),
               InteriorInput(SubtreeRoot(sha, left), SubtreeRoot(sha, right)), all);
  }

  lemma AmongParts(xs: seq<Bytes>, ys: seq<Bytes>, z: Bytes, all: seq<Bytes>)
    requires Among(xs + ys + [z], all)
    ensures Among(xs, all) && Among(ys, all) && z in all
  {
    var whole := xs + ys + [z];
    forall x | x in xs || x in ys || x == z ensures x in all {
      assert x in whole;
    }
  }

  function AuditPath(sha: Sha, m: nat, leaves: seq<Hash>): seq<Hash>
    requires m < |leaves|
    decreases |leaves|
  {
    if |leaves| <= 1 then []
    else
      var k := Split(|leaves|);
      if m < k then AuditPath(sha, m, leaves[..k]) + [SubtreeRoot(sha, leaves[k..])]
      else AuditPath(sha, m - k, leaves[k..]) + [SubtreeRoot(sha, leaves[..k])]
  }

  function Subproof(sha: Sha, m: nat, leaves: seq<Hash>, whole: bool): seq<Hash>
    requires 0 < m <= |leaves|
    decreases |leaves|
  {
    if m == |leaves| then if whole then [] else [SubtreeRoot(sha, leaves)]
    else
      var k := Split(|leaves|);
      if m <= k then Subproof(sha, m, leaves[..k], whole) + [SubtreeRoot(sha, leaves[k..])]
      else Subproof(sha, m - k, leaves[k..], false) + [SubtreeRoot(sha, leaves[..k])]
  }

  // ---------------------------------------------------------------- the loops

  /** `>>>= 1` on a number: the low 32 bits, halved. */
  function Half(x: nat): (r: nat)
    ensures r <= x && (x > 0 ==> r < x)
  {
    if x < 0x1_0000_0000 then x / 2 else x % 0x1_0000_0000 / 2
  }

  /** Both numbers halved while the first is even and not 0, and once more. */
  function Turned(fn: nat, sn: nat): (r: (nat, nat))
    ensures r.1 <= Half(sn)
    decreases fn
  {
    if fn != 0 && fn % 2 == 0 then Turned(Half(fn), Half(sn)) else (Half(fn), Half(sn))
  }

  /** Two hashes climbed together: the second over every sibling, the first over those on its left. */
  datatype Roots = Roots(first: Hash, second: Hash)

  /** A sibling on the left, and one on the right. */
  function Under(sha: Sha, r: Roots, left: Hash): Roots {
    Roots(HashInterior(sha, left, r.first), HashInterior(sha, left, r.second))
  }

  function Beside(sha: Sha, r: Roots, right: Hash): Roots {
    Roots(r.first, HashInterior(sha, r.second, right))
  }

  /** The main loop; None stands for a path that is too short or too long. */
  function Climb(sha: Sha, fn: nat, sn: nat, r: Roots, path: seq<Hash>): Option<Roots>
    decreases sn
  {
    if sn == 0 then if path == [] then Some(r) else None
    else if path == [] then None
    else if fn % 2 == 1 || fn == sn then
      var t := Turned(fn, sn);
      Climb(sha, t.0, t.1, Under(sha, r, path[0]), path[1..])
    else Climb(sha, Half(fn), Half(sn), Beside(sha, r, path[0]), path[1..])
  }

  function AddLeft(sha: Sha, r: Option<Roots>, left: Hash): Option<Roots> {
    if r.None? then None else Some(Under(sha, r.value, left))
  }

  function AddRight(sha: Sha, r: Option<Roots>, right: Hash): Option<Roots> {
    if r.None? then None else Some(Beside(sha, r.value, right))
  }

  /** The numbers that the bit operators take as they are. */
  predicate Small(x: int) {
    0 <= x < 0x1_0000_0000
  }

  lemma HalfSmall(x: nat)
    requires Small(x)
    ensures Half(x) == x / 2 && Small(Half(x))
  {}

  /** Halving the numbers below and from a power of two. */
  lemma HalfAround(fn: nat, sn: nat, j: nat)
    requires j > 0 && fn < Pow2(j) <= sn < 2 * Pow2(j) && Small(sn)
    ensures Half(fn) < Pow2(j - 1) <= Half(sn) < 2 * Pow2(j - 1) && Half(Pow2(j) - 1) == Pow2(j - 1) - 1
    ensures (Pow2(j) - 1) % 2 == 1
  {
    HalfSmall(fn);
    HalfSmall(sn);
    HalfSmall(Pow2(j) - 1);
    assert Pow2(j) == 2 * Pow2(j - 1);
  }

  lemma ClimbTurn(sha: Sha, fn: nat, sn: nat, r: Roots, path: seq<Hash>, x: nat, y: nat)
    requires sn > 0 && path != [] && (fn % 2 == 1 || fn == sn) && (x, y) == Turned(fn, sn)
    ensures Climb(sha, fn, sn, r, path) == Climb(sha, x, y, Under(sha, r, path[0]), path[1..])
  {}

  lemma ClimbOn(sha: Sha, fn: nat, sn: nat, r: Roots, path: seq<Hash>, x: nat, y: nat)
    requires sn > 0 && path != [] && fn % 2 == 0 && fn != sn && x == Half(fn) && y == Half(sn)
    ensures Climb(sha, fn, sn, r, path) == Climb(sha, x, y, Beside(sha, r, path[0]), path[1..])
  {}

  lemma ClimbShort(sha: Sha, fn: nat, sn: nat, r: Roots)
    requires sn > 0
    ensures Climb(sha, fn, sn, r, []).None?
  {}

  lemma Shifted(path: seq<Hash>, last: Hash)
    requires path != []
    ensures (path + [last])[0] == path[0] && (path + [last])[1..] == path[1..] + [last]
  {}

  // ---------------------------------------------------------------- one more subtree on the right

  /** In the tree with one more subtree on the right the last sibling is that subtree's root. */
  ghost predicate LeftTree(sha: Sha, fn: nat, sn: nat, r: Roots, path: seq<Hash>, last: Hash, j: nat) {
    0 < Pow2(j) && Climb(sha, fn, sn, r, path + [last]) == AddRight(sha, Climb(sha, fn, Pow2(j) - 1, r, path), last)
  }

  lemma {:induction false} ClimbLeft(sha: Sha, fn: nat, sn: nat, r: Roots, path: seq<Hash>, last: Hash, j: nat)
    requires fn < Pow2(j) <= sn < 2 * Pow2(j) && Small(sn)
    ensures LeftTree(sha, fn, sn, r, path, last, j)
    decreases j
  {
    if j == 0 {
      LeftBase(sha, sn, r, path, last);
    } else {
      HalfAround(fn, sn, j);
      if path == [] {
        LeftEmpty(sha, fn, sn, r, last, j);
      } else {
        var next := if fn % 2 == 1 then Under(sha, r, path[0]) else Beside(sha, r, path[0]);
        ClimbLeft(sha, Half(fn), Half(sn), next, path[1..], last, j - 1);
        LeftStep(sha, fn, sn, r, path, last, j, next);
      }
    }
  }

  lemma LeftBase(sha: Sha, sn: nat, r: Roots, path: seq<Hash>, last: Hash)
    requires sn == 1
    ensures LeftTree(sha, 0, sn, r, path, last, 0)
  {
    var whole := path + [last];
    ClimbOn(sha, 0, 1, r, whole, 0, 0);
    if path == [] {
      assert whole[1..] == [];
    }
  }

  lemma LeftEmpty(sha: Sha, fn: nat, sn: nat, r: Roots, last: Hash, j: nat)
    requires 0 < j && fn < Pow2(j) <= sn && 0 < Half(sn) && 1 < Pow2(j)
    requires fn % 2 == 1 ==> Turned(fn, sn) == (Half(fn), Half(sn))
    ensures LeftTree(sha, fn, sn, r, [], last, j)
  {
    assert [] + [last] == [last] && [last][1..] == [];
    ClimbShort(sha, fn, Pow2(j) - 1, r);
    if fn % 2 == 1 {
      ClimbTurn(sha, fn, sn, r, [last], Half(fn), Half(sn));
      ClimbShort(sha, Half(fn), Half(sn), Under(sha, r, last));
    } else {
      ClimbOn(sha, fn, sn, r, [last], Half(fn), Half(sn));
      ClimbShort(sha, Half(fn), Half(sn), Beside(sha, r, last));
    }
  }

  lemma LeftStep(sha: Sha, fn: nat, sn: nat, r: Roots, path: seq<Hash>, last: Hash, j: nat, next: Roots)
    requires 0 < j && fn < Pow2(j) <= sn && 1 < Pow2(j) && (Pow2(j) - 1) % 2 == 1 && path != []
    requires Half(Pow2(j) - 1) == Pow2(j - 1) - 1
    requires next == if fn % 2 == 1 then Under(sha, r, path[0]) else Beside(sha, r, path[0])
    requires LeftTree(sha, Half(fn), Half(sn), next, path[1..], last, j - 1)
    ensures LeftTree(sha, fn, sn, r, path, last, j)
  {
    Shifted(path, last);
    if fn % 2 == 1 {
      ClimbTurn(sha, fn, sn, r, path + [last], Half(fn), Half(sn));
      ClimbTurn(sha, fn, Pow2(j) - 1, r, path, Half(fn), Pow2(j - 1) - 1);
    } else {
      ClimbOn(sha, fn, sn, r, path + [last], Half(fn), Half(sn));
      ClimbOn(sha, fn, Pow2(j) - 1, r, path, Half(fn), Pow2(j - 1) - 1);
    }
  }

  // ---------------------------------------------------------------- one more full subtree on the left

  /** The same two numbers with one more bit on top. */
  ghost predicate Above(fn: nat, sn: nat, a: nat, b: nat, j: nat) {
    fn <= sn < Pow2(j) && a == fn + Pow2(j) && b == sn + Pow2(j) && Small(b)
  }

  /** In the tree with one more full subtree on the left the last sibling is that subtree's root. */
  ghost predicate RightTree(sha: Sha, fn: nat, sn: nat, a: nat, b: nat, r: Roots, path: seq<Hash>, last: Hash) {
    Climb(sha, a, b, r, path + [last]) == AddLeft(sha, Climb(sha, fn, sn, r, path), last)
  }

  lemma {:induction false} ClimbRight(sha: Sha, fn: nat, sn: nat, a: nat, b: nat, r: Roots, path: seq<Hash>, last: Hash,
      j: nat)
    requires Above(fn, sn, a, b, j)
    ensures RightTree(sha, fn, sn, a, b, r, path, last)
    decreases sn
  {
    if sn == 0 {
      TurnedPower(j);
      RightBase(sha, a, r, path, last);
    } else if fn % 2 == 1 || fn == sn {
      var i, x, y, c, d := TurnNumbers(fn, sn, a, b, j);
      if path == [] {
        RightTurnEmpty(sha, fn, sn, a, b, r, last, c, d);
      } else {
        ClimbRight(sha, x, y, c, d, Under(sha, r, path[0]), path[1..], last, i);
        RightTurn(sha, fn, sn, a, b, r, path, last, x, y, c, d);
      }
    } else {
      HalvesAbove(fn, sn, a, b, j);
      if path == [] {
        RightOnEmpty(sha, fn, sn, a, b, r, last);
      } else {
        ClimbRight(sha, Half(fn), Half(sn), Half(a), Half(b), Beside(sha, r, path[0]), path[1..], last, j - 1);
        RightOn(sha, fn, sn, a, b, r, path, last);
      }
    }
  }

  lemma RightBase(sha: Sha, a: nat, r: Roots, path: seq<Hash>, last: Hash)
    requires 0 < a && Turned(a, a) == (0, 0)
    ensures RightTree(sha, 0, 0, a, a, r, path, last)
  {
    ClimbTurn(sha, a, a, r, path + [last], 0, 0);
    if path == [] {
      assert (path + [last])[1..] == [];
    }
  }

  lemma RightTurnEmpty(sha: Sha, fn: nat, sn: nat, a: nat, b: nat, r: Roots, last: Hash, c: nat, d: nat)
    requires 0 < sn && 0 < b && (a % 2 == 1 || a == b) && (c, d) == Turned(a, b) && 0 < d
    ensures RightTree(sha, fn, sn, a, b, r, [], last)
  {
    assert [] + [last] == [last] && [last][1..] == [];
    ClimbTurn(sha, a, b, r, [last], c, d);
    ClimbShort(sha, c, d, Under(sha, r, last));
    ClimbShort(sha, fn, sn, r);
  }

  lemma RightTurn(sha: Sha, fn: nat, sn: nat, a: nat, b: nat, r: Roots, path: seq<Hash>, last: Hash,
      x: nat, y: nat, c: nat, d: nat)
    requires 0 < sn && 0 < b && path != [] && (fn % 2 == 1 || fn == sn) && (a % 2 == 1 || a == b)
    requires (x, y) == Turned(fn, sn) && (c, d) == Turned(a, b)
    requires RightTree(sha, x, y, c, d, Under(sha, r, path[0]), path[1..], last)
    ensures RightTree(sha, fn, sn, a, b, r, path, last)
  {
    Shifted(path, last);
    ClimbTurn(sha, a, b, r, path + [last], c, d);
    ClimbTurn(sha, fn, sn, r, path, x, y);
  }

  lemma RightOnEmpty(sha: Sha, fn: nat, sn: nat, a: nat, b: nat, r: Roots, last: Hash)
    requires 0 < sn && 0 < b && a % 2 == 0 && a != b && 0 < Half(b)
    ensures RightTree(sha, fn, sn, a, b, r, [], last)
  {
    assert [] + [last] == [last] && [last][1..] == [];
    ClimbOn(sha, a, b, r, [last], Half(a), Half(b));
    ClimbShort(sha, Half(a), Half(b), Beside(sha, r, last));
    ClimbShort(sha, fn, sn, r);
  }

  lemma RightOn(sha: Sha, fn: nat, sn: nat, a: nat, b: nat, r: Roots, path: seq<Hash>, last: Hash)
    requires 0 < sn && 0 < b && path != [] && fn % 2 == 0 && fn != sn && a % 2 == 0 && a != b
    requires RightTree(sha, Half(fn), Half(sn), Half(a), Half(b), Beside(sha, r, path[0]), path[1..], last)
    ensures RightTree(sha, fn, sn, a, b, r, path, last)
  {
    Shifted(path, last);
    ClimbOn(sha, a, b, r, path + [last], Half(a), Half(b));
    ClimbOn(sha, fn, sn, r, path, Half(fn), Half(sn));
  }

  // ---------------------------------------------------------------- the numbers

  /** A number and the same with an even bit on top, halved. */
  lemma HalfTop(v: nat, q: nat)
    requires v < 2 * q && Small(v + 2 * q)
    ensures Half(v) < q && Half(v + 2 * q) == Half(v) + q && (v + 2 * q) % 2 == v % 2 && Half(v) == v / 2
  {}

  /** Halving keeps the top bit on top, and the lowest bit tells as much of either number. */
  lemma HalvesAbove(fn: nat, sn: nat, a: nat, b: nat, j: nat)
    requires Above(fn, sn, a, b, j) && 0 < sn
    ensures 0 < j && Above(Half(fn), Half(sn), Half(a), Half(b), j - 1)
    ensures a % 2 == fn % 2 && (a == b <==> fn == sn) && 0 < a && 0 < b && 0 < Half(b)
    ensures fn % 2 == 1 && fn < sn ==> Half(fn) < Half(sn)
    ensures fn > 0 && fn % 2 == 0 ==> Half(fn) > 0
  {
    var q := if j > 0 then Pow2(j - 1) else 0;
    assert j > 0 && Pow2(j) == 2 * q;
    PowerPositive(j - 1);
    HalfTop(fn, q);
    HalfTop(sn, q);
  }

  lemma {:induction false} TurnedPower(j: nat)
    requires Small(Pow2(j))
    ensures Pow2(j) > 0 && Turned(Pow2(j), Pow2(j)) == (0, 0)
    decreases j
  {
    PowerPositive(j);
    if j > 0 {
      DoubleTurned(Pow2(j - 1));
      TurnedPower(j - 1);
    }
  }

  lemma DoubleTurned(q: nat)
    requires 0 < q && Small(2 * q)
    ensures Turned(2 * q, 2 * q) == Turned(q, q)
  {
    HalfTop(0, q);
    TurnedEven(2 * q);
  }

  lemma TurnedOdd(fn: nat, sn: nat)
    requires fn % 2 == 1
    ensures Turned(fn, sn) == (Half(fn), Half(sn))
  {}

  lemma TurnedEven(v: nat)
    requires v > 0 && v % 2 == 0
    ensures Turned(v, v) == Turned(Half(v), Half(v))
  {}

  /** The top bit moves along. */
  lemma {:induction false} TurnNumbers(fn: nat, sn: nat, a: nat, b: nat, j: nat)
    returns (i: nat, x: nat, y: nat, c: nat, d: nat)
    requires Above(fn, sn, a, b, j) && 0 < sn && (fn % 2 == 1 || fn == sn)
    ensures (x, y) == Turned(fn, sn) && (c, d) == Turned(a, b) && Above(x, y, c, d, i)
    ensures y < sn && 0 < d && 0 < b && (a % 2 == 1 || a == b)
    decreases fn
  {
    HalvesAbove(fn, sn, a, b, j);
    if fn % 2 == 1 {
      i, x, y, c, d := j - 1, Half(fn), Half(sn), Half(a), Half(b);
      TurnedOdd(fn, sn);
      TurnedOdd(a, b);
    } else {
      i, x, y, c, d := TurnNumbers(Half(fn), Half(sn), Half(a), Half(b), j - 1);
      TurnedEven(fn);
      TurnedEven(a);
    }
  }

  // ---------------------------------------------------------------- inclusion

  function SecondOf(r: Option<Roots>): Option<Hash> {
    if r.None? then None else Some(r.value.second)
  }

  /** The root that a path leads to from leaf `m` of `n`, taken from the root down. */
  function RootFrom(sha: Sha, m: nat, n: nat, leaf: Hash, path: seq<Hash>): Option<Hash>
    requires m < n
    decreases n
  {
    if n == 1 then if path == [] then Some(leaf) else None
    else if path == [] then None
    else
      var k, front, last := Split(n), path[..|path| - 1], path[|path| - 1];
      if m < k then JoinRight(sha, RootFrom(sha, m, k, leaf, front), last)
      else JoinLeft(sha, RootFrom(sha, m - k, n - k, leaf, front), last)
  }

  function JoinLeft(sha: Sha, r: Option<Hash>, left: Hash): Option<Hash> {
    if r.None? then None else Some(HashInterior(sha, left, r.value))
  }

  function JoinRight(sha: Sha, r: Option<Hash>, right: Hash): Option<Hash> {
    if r.None? then None else Some(HashInterior(sha, r.value, right))
  }

  lemma RootFromLeft(sha: Sha, m: nat, n: nat, leaf: Hash, front: seq<Hash>, last: Hash)
    requires n >= 2 && m < Split(n)
    ensures RootFrom(sha, m, n, leaf, front + [last]) == JoinRight(sha, RootFrom(sha, m, Split(n), leaf, front), last)
  {
    Unsnoc(front, last);
  }

  lemma RootFromRight(sha: Sha, m: nat, n: nat, x: nat, y: nat, leaf: Hash, front: seq<Hash>, last: Hash)
    requires n >= 2 && Split(n) <= m < n && x == m - Split(n) && y == n - Split(n)
    ensures RootFrom(sha, m, n, leaf, front + [last]) == JoinLeft(sha, RootFrom(sha, x, y, leaf, front), last)
  {
    Unsnoc(front, last);
  }

  /** The loop over bits leads to the root that the tree's shape leads to. */
  lemma {:induction false} ClimbIsRootFrom(sha: Sha, m: nat, n: nat, r: Roots, path: seq<Hash>)
    requires m < n <= 0x1_0000_0000
    ensures SecondOf(Climb(sha, m, n - 1, r, path)) == RootFrom(sha, m, n, r.second, path)
    decreases n, 1
  {
    if n > 1 && path == [] {
      ClimbShort(sha, m, n - 1, r);
    } else if n > 1 {
      var front, last := path[..|path| - 1], path[|path| - 1];
      assert path == front + [last];
      ClimbSnoc(sha, m, n, r, front, last);
    }
  }

  lemma {:induction false} ClimbSnoc(sha: Sha, m: nat, n: nat, r: Roots, front: seq<Hash>, last: Hash)
    requires 1 < n && m < n <= 0x1_0000_0000
    ensures SecondOf(Climb(sha, m, n - 1, r, front + [last])) == RootFrom(sha, m, n, r.second, front + [last])
    decreases n, 0
  {
    var e := Exponent(n);
    var k := Split(n);
    if m < k {
      ClimbIsRootFrom(sha, m, k, r, front);
      ClimbsLeft(sha, m, n, r, front, last, e);
    } else {
      ClimbIsRootFrom(sha, m - k, n - k, r, front);
      ClimbsRight(sha, m, n, m - k, n - k, r, front, last, e);
    }
  }

  lemma ClimbsLeft(sha: Sha, m: nat, n: nat, r: Roots, front: seq<Hash>, last: Hash, e: nat)
    requires 2 <= n <= 0x1_0000_0000 && Split(n) == Pow2(e) < n <= 2 * Pow2(e) && m < Split(n)
    requires SecondOf(Climb(sha, m, Split(n) - 1, r, front)) == RootFrom(sha, m, Split(n), r.second, front)
    ensures SecondOf(Climb(sha, m, n - 1, r, front + [last])) == RootFrom(sha, m, n, r.second, front + [last])
  {
    RootFromLeft(sha, m, n, r.second, front, last);
    SecondLeft(sha, m, n - 1, r, front, last, e);
  }

  lemma ClimbsRight(sha: Sha, m: nat, n: nat, x: nat, y: nat, r: Roots, front: seq<Hash>, last: Hash, e: nat)
    requires 2 <= n <= 0x1_0000_0000 && Split(n) == Pow2(e) < n <= 2 * Pow2(e)
    requires x < y && m == x + Pow2(e) && n == y + Pow2(e)
    requires SecondOf(Climb(sha, x, y - 1, r, front)) == RootFrom(sha, x, y, r.second, front)
    ensures SecondOf(Climb(sha, m, n - 1, r, front + [last])) == RootFrom(sha, m, n, r.second, front + [last])
  {
    RootFromRight(sha, m, n, x, y, r.second, front, last);
    SecondRight(sha, x, y - 1, m, n - 1, r, front, last, e);
  }

  lemma SecondLeft(sha: Sha, fn: nat, sn: nat, r: Roots, path: seq<Hash>, last: Hash, j: nat)
    requires fn < Pow2(j) <= sn < 2 * Pow2(j) && Small(sn)
    ensures SecondOf(Climb(sha, fn, sn, r, path + [last]))
      == JoinRight(sha, SecondOf(Climb(sha, fn, Pow2(j) - 1, r, path)), last)
  {
    ClimbLeft(sha, fn, sn, r, path, last, j);
  }

  lemma SecondRight(sha: Sha, fn: nat, sn: nat, a: nat, b: nat, r: Roots, path: seq<Hash>, last: Hash, j: nat)
    requires Above(fn, sn, a, b, j)
    ensures SecondOf(Climb(sha, a, b, r, path + [last])) == JoinLeft(sha, SecondOf(Climb(sha, fn, sn, r, path)), last)
  {
    ClimbRight(sha, fn, sn, a, b, r, path, last, j);
  }

  /** The path made for a leaf leads to the root. */
  lemma {:induction false} AuditPathLeads(sha: Sha, m: nat, leaves: seq<Hash>)
    requires m < |leaves|
    ensures LeafLeads(sha, m, leaves, leaves[m], AuditPath(sha, m, leaves))
    decreases |leaves|
  {
    if |leaves| > 1 {
      var k := Split(|leaves|);
      if m < k {
        AuditPathLeads(sha, m, leaves[..k]);
        LeafLeadsLeft(sha, m, leaves, k, leaves[..k], leaves[k..], leaves[m], AuditPath(sha, m, leaves[..k]));
      } else {
        AuditPathLeads(sha, m - k, leaves[k..]);
        LeafLeadsRight(sha, m, leaves, k, leaves[..k], leaves[k..], leaves[m], AuditPath(sha, m - k, leaves[k..]));
      }
    }
  }

  /** The path leads from the leaf hash to the root. */
  ghost predicate LeafLeads(sha: Sha, m: nat, leaves: seq<Hash>, leaf: Hash, path: seq<Hash>)
    requires m < |leaves|
  {
    RootFrom(sha, m, |leaves|, leaf, path) == Some(SubtreeRoot(sha, leaves))
  }

  lemma LeafLeadsLeft(sha: Sha, m: nat, leaves: seq<Hash>, k: nat, left: seq<Hash>, right: seq<Hash>, leaf: Hash,
      path: seq<Hash>)
    requires |leaves| >= 2 && m < k == Split(|leaves|) && left == leaves[..k] && right == leaves[k..]
    requires LeafLeads(sha, m, left, leaf, path)
    ensures LeafLeads(sha, m, leaves, leaf, path + [SubtreeRoot(sha, right)])
  {
    RootSplits(sha, leaves);
    RootFromLeft(sha, m, |leaves|, leaf, path, SubtreeRoot(sha, right));
  }

  lemma LeafLeadsRight(sha: Sha, m: nat, leaves: seq<Hash>, k: nat, left: seq<Hash>, right: seq<Hash>, leaf: Hash,
      path: seq<Hash>)
    requires |leaves| >= 2 && Split(|leaves|) == k <= m < |leaves| && left == leaves[..k] && right == leaves[k..]
    requires LeafLeads(sha, m - k, right, leaf, path)
    ensures LeafLeads(sha, m, leaves, leaf, path + [SubtreeRoot(sha, left)])
  {
    RootSplits(sha, leaves);
    RootFromRight(sha, m, |leaves|, m - k, |right|, leaf, path, SubtreeRoot(sha, left));
  }

  lemma Unsnoc(path: seq<Hash>, last: Hash)
    ensures var whole := path + [last]; whole != [] && whole[..|whole| - 1] == path && whole[|whole| - 1] == last
  {}

  /** Everything that is hashed on the way from a leaf hash along a path. */
  function PathInputs(sha: Sha, m: nat, n: nat, leaf: Hash, path: seq<Hash>): seq<Bytes>
    requires m < n
    decreases n
  {
    if n == 1 || path == [] then []
    else
      var k, front, last := Split(n), path[..|path| - 1], path[|path| - 1];
      if m < k then PathInputs(sha, m, k, leaf, front) + RightInput(RootFrom(sha, m, k, leaf, front), last)
      else PathInputs(sha, m - k, n - k, leaf, front) + LeftInput(RootFrom(sha, m - k, n - k, leaf, front), last)
  }

  function LeftInput(r: Option<Hash>, left: Hash): seq<Bytes> {
    if r.None? then [] else [InteriorInput(left, r.value)]
  }

  function RightInput(r: Option<Hash>, right: Hash): seq<Bytes> {
    if r.None? then [] else [InteriorInput(r.value, right)]
  }

  lemma PathInputsLeft(sha: Sha, m: nat, n: nat, leaf: Hash, front: seq<Hash>, last: Hash)
    requires n >= 2 && m < Split(n)
    ensures PathInputs(sha, m, n, leaf, front + [last])
      == PathInputs(sha, m, Split(n), leaf, front) + RightInput(RootFrom(sha, m, Split(n), leaf, front), last)
  {
    Unsnoc(front, last);
  }

  lemma PathInputsRight(sha: Sha, m: nat, n: nat, x: nat, y: nat, leaf: Hash, front: seq<Hash>, last: Hash)
    requires n >= 2 && Split(n) <= m < n && x == m - Split(n) && y == n - Split(n)
    ensures PathInputs(sha, m, n, leaf, front + [last])
      == PathInputs(sha, x, y, leaf, front) + LeftInput(RootFrom(sha, x, y, leaf, front), last)
  {
    Unsnoc(front, last);
  }

  /** And no other path, and no path from another leaf hash, unless it collides with the tree. */
  lemma {:induction false} OnlyAuditPath(sha: Sha, m: nat, leaves: seq<Hash>, leaf: Hash, path: seq<Hash>,
      all: seq<Bytes>)
    requires m < |leaves| && LeafLeads(sha, m, leaves, leaf, path) && Among(TreeInputs(sha, leaves), all)
    requires NoCollision(sha, all, PathInputs(sha, m, |leaves|, leaf, path))
    ensures leaf == leaves[m] && path == AuditPath(sha, m, leaves)
    decreases |leaves|
  {
    if |leaves| > 1 {
      var k, front, last := Split(|leaves|), path[..|path| - 1], path[|path| - 1];
      assert path == front + [last];
      var left, right := SubtreeRoot(sha, leaves[..k]), SubtreeRoot(sha, leaves[k..]);
      RootSplits(sha, leaves);
      TreeParts(sha, leaves, leaves[..k], leaves[k..], all);
      if m < k {
        PathLeft(sha, m, |leaves|, leaf, front, last, left, right, all);
        OnlyAuditPath(sha, m, leaves[..k], leaf, front, all);
      } else {
        PathRight(sha, m, |leaves|, m - k, |leaves[k..]|, leaf, front, last, left, right, all);
        OnlyAuditPath(sha, m - k, leaves[k..], leaf, front, all);
      }
    }
  }

  lemma PathLeft(sha: Sha, m: nat, n: nat, leaf: Hash, front: seq<Hash>, last: Hash, left: Hash, right: Hash,
      all: seq<Bytes>)
    requires n >= 2 && m < Split(n) && InteriorInput(left, right) in all
    requires NoCollision(sha, all, PathInputs(sha, m, n, leaf, front + [last]))
    requires RootFrom(sha, m, n, leaf, front + [last]) == Some(HashInterior(sha, left, right))
    ensures RootFrom(sha, m, Split(n), leaf, front) == Some(left) && last == right
    ensures NoCollision(sha, all, PathInputs(sha, m, Split(n), leaf, front))
  {
    RootFromLeft(sha, m, n, leaf, front, last);
    PathInputsLeft(sha, m, n, leaf, front, last);
    PartsRight(sha, all, PathInputs(sha, m, Split(n), leaf, front), RootFrom(sha, m, Split(n), leaf, front), last,
               left, right);
  }

  lemma PathRight(sha: Sha, m: nat, n: nat, x: nat, y: nat, leaf: Hash, front: seq<Hash>, last: Hash, left: Hash,
      right: Hash, all: seq<Bytes>)
    requires n >= 2 && Split(n) <= m < n && x == m - Split(n) && y == n - Split(n) && InteriorInput(left, right) in all
    requires NoCollision(sha, all, PathInputs(sha, m, n, leaf, front + [last]))
    requires RootFrom(sha, m, n, leaf, front + [last]) == Some(HashInterior(sha, left, right))
    ensures RootFrom(sha, x, y, leaf, front) == Some(right) && last == left
    ensures NoCollision(sha, all, PathInputs(sha, x, y, leaf, front))
  {
    RootFromRight(sha, m, n, x, y, leaf, front, last);
    PathInputsRight(sha, m, n, x, y, leaf, front, last);
    PartsLeft(sha, all, PathInputs(sha, x, y, leaf, front), RootFrom(sha, x, y, leaf, front), last, left, right);
  }

  lemma PartsRight(sha: Sha, all: seq<Bytes>, ys: seq<Bytes>, r: Option<Hash>, last: Hash, left: Hash, right: Hash)
    requires InteriorInput(left, right) in all && NoCollision(sha, all, ys + RightInput(r, last))
    requires JoinRight(sha, r, last) == Some(HashInterior(sha, left, right))
    ensures r == Some(left) && last == right && NoCollision(sha, all, ys)
  {
    SameParts(sha, all, ys + RightInput(r, last), left, right, r.value, last);
    NoCollisionAmong(sha, all, ys + RightInput(r, last), all, ys);
  }

  lemma PartsLeft(sha: Sha, all: seq<Bytes>, ys: seq<Bytes>, r: Option<Hash>, last: Hash, left: Hash, right: Hash)
    requires InteriorInput(left, right) in all && NoCollision(sha, all, ys + LeftInput(r, last))
    requires JoinLeft(sha, r, last) == Some(HashInterior(sha, left, right))
    ensures r == Some(right) && last == left && NoCollision(sha, all, ys)
  {
    SameParts(sha, all, ys + LeftInput(r, last), left, right, last, r.value);
    NoCollisionAmong(sha, all, ys + LeftInput(r, last), all, ys);
  }

  // ---------------------------------------------------------------- consistency

  /** The loop before the main one: up past the full subtrees that end at the older tree's last leaf. */
  function Begin(sha: Sha, fn: nat, sn: nat, first: Option<Hash>, path: seq<Hash>): Option<Roots>
    decreases fn
  {
    if fn % 2 == 1 then Begin(sha, Half(fn), Half(sn), first, path)
    else if fn == 0 && first.Some? then Climb(sha, fn, sn, Roots(first.value, first.value), path)
    else if path == [] then None
    else Climb(sha, fn, sn, Roots(path[0], path[0]), path[1..])
  }

  /** Both roots that a path leads to, taken from the root down; `first` stands for the older root while it is whole. */
  function RootsFrom(sha: Sha, m: nat, n: nat, first: Option<Hash>, path: seq<Hash>): Option<Roots>
    requires 0 < m <= n
    decreases n
  {
    if m == n then
      if first.Some? then if path == [] then Some(Roots(first.value, first.value)) else None
      else if |path| == 1 then Some(Roots(path[0], path[0])) else None
    else if path == [] then None
    else
      var k, front, last := Split(n), path[..|path| - 1], path[|path| - 1];
      if m <= k then AddRight(sha, RootsFrom(sha, m, k, first, front), last)
      else AddLeft(sha, RootsFrom(sha, m - k, n - k, None, front), last)
  }

  lemma RootsFromLeft(sha: Sha, m: nat, n: nat, first: Option<Hash>, front: seq<Hash>, last: Hash)
    requires n >= 2 && 0 < m <= Split(n)
    ensures RootsFrom(sha, m, n, first, front + [last])
      == AddRight(sha, RootsFrom(sha, m, Split(n), first, front), last)
  {
    Unsnoc(front, last);
  }

  lemma RootsFromRight(sha: Sha, m: nat, n: nat, x: nat, y: nat, first: Option<Hash>, front: seq<Hash>, last: Hash)
    requires n >= 2 && Split(n) < m < n && x == m - Split(n) && y == n - Split(n)
    ensures RootsFrom(sha, m, n, first, front + [last]) == AddLeft(sha, RootsFrom(sha, x, y, None, front), last)
  {
    Unsnoc(front, last);
  }

  lemma {:induction false} BeginLeft(sha: Sha, fn: nat, sn: nat, first: Option<Hash>, path: seq<Hash>, last: Hash,
      j: nat)
    requires fn < Pow2(j) <= sn < 2 * Pow2(j) && Small(sn)
    ensures Begin(sha, fn, sn, first, path + [last]) == AddRight(sha, Begin(sha, fn, Pow2(j) - 1, first, path), last)
    decreases fn
  {
    if fn % 2 == 1 {
      HalfAround(fn, sn, j);
      BeginLeft(sha, Half(fn), Half(sn), first, path, last, j - 1);
    } else if fn == 0 && first.Some? {
      ClimbLeft(sha, fn, sn, Roots(first.value, first.value), path, last, j);
    } else if path == [] {
      assert ([] + [last])[1..] == [];
      ClimbShort(sha, fn, sn, Roots(last, last));
    } else {
      Shifted(path, last);
      ClimbLeft(sha, fn, sn, Roots(path[0], path[0]), path[1..], last, j);
    }
  }

  lemma {:induction false} BeginRight(sha: Sha, fn: nat, sn: nat, a: nat, b: nat, first: Option<Hash>, path: seq<Hash>,
      last: Hash, j: nat)
    requires Above(fn, sn, a, b, j) && fn < sn
    ensures Begin(sha, a, b, first, path + [last]) == AddLeft(sha, Begin(sha, fn, sn, None, path), last)
    decreases fn
  {
    HalvesAbove(fn, sn, a, b, j);
    if fn % 2 == 1 {
      BeginRight(sha, Half(fn), Half(sn), Half(a), Half(b), first, path, last, j - 1);
    } else if path == [] {
      assert ([] + [last])[1..] == [];
      ClimbShort(sha, a, b, Roots(last, last));
    } else {
      Shifted(path, last);
      ClimbRight(sha, fn, sn, a, b, Roots(path[0], path[0]), path[1..], last, j);
    }
  }

  lemma {:induction false} BeginFull(sha: Sha, j: nat, first: Option<Hash>, path: seq<Hash>)
    requires 0 < Pow2(j) <= 0x1_0000_0000
    ensures Begin(sha, Pow2(j) - 1, Pow2(j) - 1, first, path) == RootsFrom(sha, Pow2(j), Pow2(j), first, path)
    decreases j
  {
    if j > 0 {
      PowerPositive(j - 1);
      HalfSmall(Pow2(j) - 1);
      BeginFull(sha, j - 1, first, path);
    }
  }

  /** Loops over bits and the tree's shape lead to the same two roots. */
  lemma {:induction false} BeginIsRootsFrom(sha: Sha, m: nat, n: nat, first: Option<Hash>, path: seq<Hash>)
    requires 0 < m < n <= 0x1_0000_0000
    ensures Begin(sha, m - 1, n - 1, first, path) == RootsFrom(sha, m, n, first, path)
    decreases n
  {
    if path == [] {
      BeginEmpty(sha, m - 1, n - 1, first);
    } else {
      var e := Exponent(n);
      var k, front, last := Split(n), path[..|path| - 1], path[|path| - 1];
      assert path == front + [last];
      if m < k {
        BeginIsRootsFrom(sha, m, k, first, front);
        BeginsLeft(sha, m, n, first, front, last, e);
      } else if m == k {
        BeginFull(sha, e, first, front);
        BeginsLeft(sha, m, n, first, front, last, e);
      } else {
        BeginIsRootsFrom(sha, m - k, n - k, None, front);
        BeginsRight(sha, m, n, m - k, n - k, first, front, last, e);
      }
    }
  }

  lemma BeginsLeft(sha: Sha, m: nat, n: nat, first: Option<Hash>, front: seq<Hash>, last: Hash, e: nat)
    requires 2 <= n <= 0x1_0000_0000 && Split(n) == Pow2(e) < n <= 2 * Pow2(e) && 0 < m <= Split(n)
    requires Begin(sha, m - 1, Split(n) - 1, first, front) == RootsFrom(sha, m, Split(n), first, front)
    ensures Begin(sha, m - 1, n - 1, first, front + [last]) == RootsFrom(sha, m, n, first, front + [last])
  {
    RootsFromLeft(sha, m, n, first, front, last);
    BeginLeft(sha, m - 1, n - 1, first, front, last, e);
  }

  lemma BeginsRight(sha: Sha, m: nat, n: nat, x: nat, y: nat, first: Option<Hash>, front: seq<Hash>, last: Hash, e: nat)
    requires 2 <= n <= 0x1_0000_0000 && Split(n) == Pow2(e) < n <= 2 * Pow2(e)
    requires 0 < x < y && m == x + Pow2(e) && n == y + Pow2(e)
    requires Begin(sha, x - 1, y - 1, None, front) == RootsFrom(sha, x, y, None, front)
    ensures Begin(sha, m - 1, n - 1, first, front + [last]) == RootsFrom(sha, m, n, first, front + [last])
  {
    RootsFromRight(sha, m, n, x, y, first, front, last);
    BeginRight(sha, x - 1, y - 1, m - 1, n - 1, first, front, last, e);
  }

  lemma {:induction false} BeginEmpty(sha: Sha, fn: nat, sn: nat, first: Option<Hash>)
    requires fn < sn && Small(sn)
    ensures Begin(sha, fn, sn, first, []).None?
    decreases fn
  {
    HalfSmall(fn);
    HalfSmall(sn);
    if fn % 2 == 1 {
      BeginEmpty(sha, Half(fn), Half(sn), first);
    }
  }

  lemma SplitBetween(m: nat, e: nat)
    requires Pow2(e) < m <= 2 * Pow2(e) && m >= 2
    ensures Split(m) == Pow2(e)
  {
    var i := Exponent(m);
    if i < e {
      PowersGrow(i + 1, e);
    } else if e < i {
      PowersGrow(e + 1, i);
    }
  }

  lemma {:induction false} PowersGrow(i: nat, j: nat)
    requires i <= j
    ensures Pow2(i) <= Pow2(j)
    decreases j
  {
    if i < j {
      PowersGrow(i, j - 1);
    }
  }

  /** A prefix that reaches beyond the split is split where the whole is. */
  lemma PrefixRoot(sha: Sha, m: nat, leaves: seq<Hash>)
    requires |leaves| >= 2 && Split(|leaves|) < m <= |leaves|
    ensures var k := Split(|leaves|);
      SubtreeRoot(sha, leaves[..m])
        == HashInterior(sha, SubtreeRoot(sha, leaves[..k]), SubtreeRoot(sha, leaves[k..][..m - k]))
  {
    var e := Exponent(|leaves|);
    SplitBetween(m, e);
    var k := Pow2(e);
    assert leaves[..m][..k] == leaves[..k] && leaves[..m][k..] == leaves[k..][..m - k];
  }

  function FirstFor(sha: Sha, m: nat, leaves: seq<Hash>, whole: bool): Option<Hash>
    requires m <= |leaves|
  {
    if whole then Some(SubtreeRoot(sha, leaves[..m])) else None
  }

  /** The proof made for a prefix leads to its root and to the root of the whole. */
  lemma {:induction false} SubproofLeads(sha: Sha, m: nat, leaves: seq<Hash>, whole: bool)
    requires 0 < m <= |leaves|
    ensures Leads(sha, m, leaves, FirstFor(sha, m, leaves, whole), Subproof(sha, m, leaves, whole))
    decreases |leaves|
  {
    var k := Split(|leaves|);
    if m == |leaves| {
      assert leaves[..m] == leaves;
    } else if m <= k {
      assert leaves[..k][..m] == leaves[..m];
      SubproofLeads(sha, m, leaves[..k], whole);
      LeadsLeft(sha, m, leaves, FirstFor(sha, m, leaves, whole), Subproof(sha, m, leaves[..k], whole));
    } else {
      SubproofLeads(sha, m - k, leaves[k..], false);
      LeadsRight(sha, m, leaves, FirstFor(sha, m, leaves, whole), Subproof(sha, m - k, leaves[k..], false));
    }
  }

  /** The path leads to the root of the first `m` leaves and to the root of all. */
  ghost predicate Leads(sha: Sha, m: nat, leaves: seq<Hash>, first: Option<Hash>, path: seq<Hash>)
    requires 0 < m <= |leaves|
  {
    RootsFrom(sha, m, |leaves|, first, path) == Some(Roots(SubtreeRoot(sha, leaves[..m]), SubtreeRoot(sha, leaves)))
  }

  lemma LeadsLeft(sha: Sha, m: nat, leaves: seq<Hash>, first: Option<Hash>, path: seq<Hash>)
    requires |leaves| >= 2 && 0 < m <= Split(|leaves|)
    requires Leads(sha, m, leaves[..Split(|leaves|)], first, path)
    ensures Leads(sha, m, leaves, first, path + [SubtreeRoot(sha, leaves[Split(|leaves|)..])])
  {
    var k := Split(|leaves|);
    assert leaves[..k][..m] == leaves[..m];
    RootsFromLeft(sha, m, |leaves|, first, path, SubtreeRoot(sha, leaves[k..]));
  }

  lemma LeadsRight(sha: Sha, m: nat, leaves: seq<Hash>, first: Option<Hash>, path: seq<Hash>)
    requires |leaves| >= 2 && Split(|leaves|) < m < |leaves|
    requires Leads(sha, m - Split(|leaves|), leaves[Split(|leaves|)..], None, path)
    ensures Leads(sha, m, leaves, first, path + [SubtreeRoot(sha, leaves[..Split(|leaves|)])])
  {
    var k := Split(|leaves|);
    PrefixRoot(sha, m, leaves);
    RootsFromRight(sha, m, |leaves|, m - k, |leaves| - k, first, path, SubtreeRoot(sha, leaves[..k]));
  }

  /** Everything that is hashed on the way to the newer root. */
  function SecondInputs(sha: Sha, m: nat, n: nat, first: Option<Hash>, path: seq<Hash>): seq<Bytes>
    requires 0 < m <= n
    decreases n
  {
    if m == n || path == [] then []
    else
      var k, front, last := Split(n), path[..|path| - 1], path[|path| - 1];
      if m <= k
      then SecondInputs(sha, m, k, first, front) + RightInput(SecondOf(RootsFrom(sha, m, k, first, front)), last)
      else SecondInputs(sha, m - k, n - k, None, front)
           + LeftInput(SecondOf(RootsFrom(sha, m - k, n - k, None, front)), last)
  }

  lemma SecondInputsLeft(sha: Sha, m: nat, n: nat, first: Option<Hash>, front: seq<Hash>, last: Hash)
    requires n >= 2 && 0 < m <= Split(n)
    ensures SecondInputs(sha, m, n, first, front + [last]) == SecondInputs(sha, m, Split(n), first, front)
      + RightInput(SecondOf(RootsFrom(sha, m, Split(n), first, front)), last)
  {
    Unsnoc(front, last);
  }

  lemma SecondInputsRight(sha: Sha, m: nat, n: nat, x: nat, y: nat, first: Option<Hash>, front: seq<Hash>, last: Hash)
    requires n >= 2 && Split(n) < m < n && x == m - Split(n) && y == n - Split(n)
    ensures SecondInputs(sha, m, n, first, front + [last])
      == SecondInputs(sha, x, y, None, front) + LeftInput(SecondOf(RootsFrom(sha, x, y, None, front)), last)
  {
    Unsnoc(front, last);
  }

  /** Whatever leads to the root of the whole without a collision is that proof, and leads to the prefix's root. */
  lemma {:induction false} OnlySubproof(sha: Sha, m: nat, leaves: seq<Hash>, first: Option<Hash>, path: seq<Hash>,
      all: seq<Bytes>)
    requires 0 < m <= |leaves| && LeadsToWhole(sha, m, leaves, first, path) && Among(TreeInputs(sha, leaves), all)
    requires NoCollision(sha, all, SecondInputs(sha, m, |leaves|, first, path))
    ensures Leads(sha, m, leaves, first, path) && path == Subproof(sha, m, leaves, first.Some?)
    decreases |leaves|, 1
  {
    if m == |leaves| {
      assert leaves[..m] == leaves;
    } else {
      var k, front, last := Split(|leaves|), path[..|path| - 1], path[|path| - 1];
      assert path == front + [last];
      if m <= k {
        OnlyLeft(sha, m, leaves, k, first, front, last, all);
      } else {
        OnlyRight(sha, m, leaves, k, first, front, last, all);
      }
    }
  }

  lemma {:induction false} OnlyLeft(sha: Sha, m: nat, leaves: seq<Hash>, k: nat, first: Option<Hash>,
      front: seq<Hash>, last: Hash, all: seq<Bytes>)
    requires |leaves| >= 2 && 0 < m <= k == Split(|leaves|) && Among(TreeInputs(sha, leaves), all)
    requires NoCollision(sha, all, SecondInputs(sha, m, |leaves|, first, front + [last]))
    requires SecondOf(RootsFrom(sha, m, |leaves|, first, front + [last])) == Some(SubtreeRoot(sha, leaves))
    ensures Leads(sha, m, leaves, first, front + [last])
    ensures front + [last] == Subproof(sha, m, leaves, first.Some?)
    decreases |leaves|, 0
  {
    var left, right := SubtreeRoot(sha, leaves[..k]), SubtreeRoot(sha, leaves[k..]);
    RootSplits(sha, leaves);
    TreeParts(sha, leaves, leaves[..k], leaves[k..], all);
    WholeLeft(sha, m, |leaves|, first, front, last, left, right, all);
    OnlySubproof(sha, m, leaves[..k], first, front, all);
    LeadsLeft(sha, m, leaves, first, front);
  }

  lemma {:induction false} OnlyRight(sha: Sha, m: nat, leaves: seq<Hash>, k: nat, first: Option<Hash>,
      front: seq<Hash>, last: Hash, all: seq<Bytes>)
    requires |leaves| >= 2 && k == Split(|leaves|) < m < |leaves| && Among(TreeInputs(sha, leaves), all)
    requires NoCollision(sha, all, SecondInputs(sha, m, |leaves|, first, front + [last]))
    requires SecondOf(RootsFrom(sha, m, |leaves|, first, front + [last])) == Some(SubtreeRoot(sha, leaves))
    ensures Leads(sha, m, leaves, first, front + [last])
    ensures front + [last] == Subproof(sha, m, leaves, first.Some?)
    decreases |leaves|, 0
  {
    var head, tail := leaves[..k], leaves[k..];
    RootSplits(sha, leaves);
    TreeParts(sha, leaves, leaves[..k], leaves[k..], all);
    WholeRight(sha, m, |leaves|, m - k, |tail|, first, front, last, SubtreeRoot(sha, head), SubtreeRoot(sha, tail),
               all);
    OnlySubproof(sha, m - k, tail, None, front, all);
    RightProof(sha, m, leaves, k, tail, first, front);
  }

  lemma RightProof(sha: Sha, m: nat, leaves: seq<Hash>, k: nat, tail: seq<Hash>, first: Option<Hash>, front: seq<Hash>)
    requires |leaves| >= 2 && k == Split(|leaves|) < m < |leaves| && tail == leaves[k..]
    requires Leads(sha, m - k, tail, None, front) && front == Subproof(sha, m - k, tail, false)
    ensures Leads(sha, m, leaves, first, front + [SubtreeRoot(sha, leaves[..k])])
    ensures front + [SubtreeRoot(sha, leaves[..k])] == Subproof(sha, m, leaves, first.Some?)
  {
    LeadsRight(sha, m, leaves, first, front);
  }

  ghost predicate LeadsToWhole(sha: Sha, m: nat, leaves: seq<Hash>, first: Option<Hash>, path: seq<Hash>)
    requires 0 < m <= |leaves|
  {
    SecondOf(RootsFrom(sha, m, |leaves|, first, path)) == Some(SubtreeRoot(sha, leaves))
  }

  lemma WholeLeft(sha: Sha, m: nat, n: nat, first: Option<Hash>, front: seq<Hash>, last: Hash, left: Hash, right: Hash,
      all: seq<Bytes>)
    requires n >= 2 && 0 < m <= Split(n) && InteriorInput(left, right) in all
    requires NoCollision(sha, all, SecondInputs(sha, m, n, first, front + [last]))
    requires SecondOf(RootsFrom(sha, m, n, first, front + [last])) == Some(HashInterior(sha, left, right))
    ensures SecondOf(RootsFrom(sha, m, Split(n), first, front)) == Some(left) && last == right
    ensures NoCollision(sha, all, SecondInputs(sha, m, Split(n), first, front))
  {
    var r := RootsFrom(sha, m, Split(n), first, front);
    RootsFromLeft(sha, m, n, first, front, last);
    SecondInputsLeft(sha, m, n, first, front, last);
    SecondOfAdd(sha, r, last);
    PartsRight(sha, all, SecondInputs(sha, m, Split(n), first, front), SecondOf(r), last, left, right);
  }

  lemma SecondOfAdd(sha: Sha, r: Option<Roots>, last: Hash)
    ensures SecondOf(AddRight(sha, r, last)) == JoinRight(sha, SecondOf(r), last)
    ensures SecondOf(AddLeft(sha, r, last)) == JoinLeft(sha, SecondOf(r), last)
  {}

  lemma WholeRight(sha: Sha, m: nat, n: nat, x: nat, y: nat, first: Option<Hash>, front: seq<Hash>, last: Hash,
      left: Hash, right: Hash, all: seq<Bytes>)
    requires n >= 2 && Split(n) < m < n && x == m - Split(n) && y == n - Split(n) && InteriorInput(left, right) in all
    requires NoCollision(sha, all, SecondInputs(sha, m, n, first, front + [last]))
    requires SecondOf(RootsFrom(sha, m, n, first, front + [last])) == Some(HashInterior(sha, left, right))
    ensures SecondOf(RootsFrom(sha, x, y, None, front)) == Some(right) && last == left
    ensures NoCollision(sha, all, SecondInputs(sha, x, y, None, front))
  {
    var r := RootsFrom(sha, x, y, None, front);
    RootsFromRight(sha, m, n, x, y, first, front, last);
    SecondInputsRight(sha, m, n, x, y, first, front, last);
    SecondOfAdd(sha, r, last);
    PartsLeft(sha, all, SecondInputs(sha, x, y, None, front), SecondOf(r), last, left, right);
  }

  lemma RootSplits(sha: Sha, leaves: seq<Hash>)
    requires |leaves| >= 2
    ensures var k := Split(|leaves|);
      SubtreeRoot(sha, leaves) == HashInterior(sha, SubtreeRoot(sha, leaves[..k]), SubtreeRoot(sha, leaves[k..]))
  {}

  // ---------------------------------------------------------------- proofs on the wire

  function EncodeHash(h: Hash): string {
    Base64.Encode(h)
  }

  /** None for a text that is not the base64 of 32 bytes. */
  function DecodeHash(s: string): Option<Hash> {
    if |Base64.Decode(s)| == 32 then Some(Base64.Decode(s)) else None
  }

  function DecodeHashes(items: seq<string>): Option<seq<Hash>> {
    if items == [] then Some([])
    else
      var front, last := DecodeHashes(items[..|items| - 1]), DecodeHash(items[|items| - 1]);
      if front.None? || last.None? then None else Some(front.value + [last.value])
  }

  function EncodeHashes(hs: seq<Hash>): (items: seq<string>)
    ensures |items| == |hs| && forall i | 0 <= i < |hs| :: items[i] == EncodeHash(hs[i])
  {
    seq(|hs|, i requires 0 <= i < |hs| => EncodeHash(hs[i]))
  }

  lemma DecodeEncoded(h: Hash)
    ensures DecodeHash(EncodeHash(h)) == Some(h)
  {
    Base64.RoundTrip(h);
  }

  lemma {:induction false} DecodesEncoded(hs: seq<Hash>)
    ensures DecodeHashes(EncodeHashes(hs)) == Some(hs)
  {
    if hs != [] {
      var front, last := hs[..|hs| - 1], hs[|hs| - 1];
      DecodesEncoded(front);
      DecodeEncoded(last);
      EncodesFront(hs);
      DecodesLast(EncodeHashes(front), EncodeHash(last), front, last);
      assert front + [last] == hs;
    }
  }

  lemma EncodesFront(hs: seq<Hash>)
    requires hs != []
    ensures EncodeHashes(hs) == EncodeHashes(hs[..|hs| - 1]) + [EncodeHash(hs[|hs| - 1])]
  {}

  lemma DecodesLast(front: seq<string>, last: string, hs: seq<Hash>, h: Hash)
    requires DecodeHashes(front) == Some(hs) && DecodeHash(last) == Some(h)
    ensures DecodeHashes(front + [last]) == Some(hs + [h])
  {
    assert (front + [last])[..|front + [last]| - 1] == front;
  }

  lemma {:induction false} DecodesFrontFails(items: seq<string>, n: nat)
    requires n <= |items| && DecodeHashes(items[..n]).None?
    ensures DecodeHashes(items).None?
    decreases |items|
  {
    if n == |items| {
      assert items[..n] == items;
    } else {
      assert items[..|items| - 1][..n] == items[..n];
      DecodesFrontFails(items[..|items| - 1], n);
    }
  }

  method DecodeAll(items: seq<string>) returns (out: Option<seq<Hash>>)
    ensures out == DecodeHashes(items)
  {
    var hs: seq<Hash> := [];
    for i := 0 to |items|
      invariant DecodeHashes(items[..i]) == Some(hs)
    {
      var h := DecodeHash(items[i]);
      assert items[..i + 1][..i] == items[..i];
      if h.None? {
        DecodesFrontFails(items, i + 1);
        return None;
      }
      hs := hs + [h.value];
    }
    assert items[..|items|] == items;
    out := Some(hs);
  }

  datatype InclusionProof = InclusionProof(logSize: int, leafHash: string, leafIndex: int, path: seq<string>)

  datatype ConsistencyProof = ConsistencyProof(fromSize: int, toSize: int, path: seq<string>)

  /** The root that the loop computes from a leaf hash and its siblings. */
  function ComputedRoot(sha: Sha, m: nat, n: nat, leaf: Hash, path: seq<Hash>): Option<Hash>
    requires n > 0
  {
    SecondOf(Climb(sha, m, n - 1, Roots(leaf, leaf), path))
  }

  predicate VerifyInclusion(sha: Sha, proof: InclusionProof, root: Hash) {
    && 0 < proof.logSize && 0 <= proof.leafIndex < proof.logSize
    && (var leaf, path := DecodeHash(proof.leafHash), DecodeHashes(proof.path);
        && leaf.Some? && path.Some?
        && ComputedRoot(sha, proof.leafIndex, proof.logSize, leaf.value, path.value) == Some(root))
  }

  predicate VerifyConsistency(sha: Sha, proof: ConsistencyProof, first: Hash, second: Hash) {
    && 0 <= proof.fromSize <= proof.toSize
    && if proof.fromSize == proof.toSize then proof.path == [] && first == second
       else if proof.fromSize == 0 then proof.path == []
       else
         var path := DecodeHashes(proof.path);
         && path.Some?
         && Begin(sha, proof.fromSize - 1, proof.toSize - 1, Some(first), path.value) == Some(Roots(first, second))
  }

  method ComputeRootFromInclusion(sha: Sha, leafIndex: nat, treeSize: nat, leaf: Hash, siblings: seq<Hash>)
    returns (r: Option<Hash>)
    requires treeSize > 0
    ensures r == ComputedRoot(sha, leafIndex, treeSize, leaf, siblings)
  {
    var fn: nat, sn: nat := leafIndex, treeSize - 1;
    var h, i := leaf, 0;
    ghost var both := Roots(leaf, leaf);
    assert siblings[0..] == siblings;
    while sn > 0
      invariant i <= |siblings| && both.second == h
      invariant SecondOf(Climb(sha, fn, sn, both, siblings[i..]))
        == ComputedRoot(sha, leafIndex, treeSize, leaf, siblings)
      decreases sn
    {
      if i >= |siblings| {
        return None;
      }
      var s := siblings[i];
      i := i + 1;
      assert siblings[i - 1..][0] == s && siblings[i - 1..][1..] == siblings[i..];
      if fn % 2 == 1 || fn == sn {
        h := HashInterior(sha, s, h);
        both := Under(sha, both, s);
        fn, sn := TurnedLoop(fn, sn);
      } else {
        h := HashInterior(sha, h, s);
        both := Beside(sha, both, s);
        fn, sn := Half(fn), Half(sn);
      }
    }
    r := if i == |siblings| then Some(h) else None;
  }

  /** The inner loop, and the halving after it. */
  method TurnedLoop(fn: nat, sn: nat) returns (x: nat, y: nat)
    ensures (x, y) == Turned(fn, sn)
  {
    x, y := fn, sn;
    while x != 0 && x % 2 == 0
      invariant Turned(x, y) == Turned(fn, sn)
      decreases x
    {
      x, y := Half(x), Half(y);
    }
    x, y := Half(x), Half(y);
  }

  method VerifyInclusionProof(sha: Sha, proof: InclusionProof, root: Hash) returns (ok: bool)
    ensures ok == VerifyInclusion(sha, proof, root)
  {
    if proof.logSize <= 0 || proof.leafIndex < 0 || proof.leafIndex >= proof.logSize {
      return false;
    }
    var leaf, siblings := DecodeHash(proof.leafHash), None;
    siblings := DecodeAll(proof.path);
    if leaf.None? || siblings.None? {
      return false;
    }
    var computed := ComputeRootFromInclusion(sha, proof.leafIndex, proof.logSize, leaf.value, siblings.value);
    ok := computed == Some(root);
  }

  method ComputeRootsFromConsistency(sha: Sha, firstSize: nat, secondSize: nat, firstRoot: Hash, path: seq<Hash>)
    returns (r: Option<Roots>)
    requires 0 < firstSize < secondSize
    ensures r == Begin(sha, firstSize - 1, secondSize - 1, Some(firstRoot), path)
  {
    var fn: nat, sn: nat := firstSize - 1, secondSize - 1;
    ghost var whole := Begin(sha, fn, sn, Some(firstRoot), path);
    while fn % 2 == 1
      invariant Begin(sha, fn, sn, Some(firstRoot), path) == whole
      decreases fn
    {
      fn, sn := Half(fn), Half(sn);
    }
    var fr, sr, i := firstRoot, firstRoot, 0;
    if fn != 0 {
      if path == [] {
        return None;
      }
      fr, sr, i := path[0], path[0], 1;
    }
    assert path[0..] == path;
    while sn > 0
      invariant i <= |path| && Climb(sha, fn, sn, Roots(fr, sr), path[i..]) == whole
      decreases sn
    {
      if i >= |path| {
        return None;
      }
      var c := path[i];
      i := i + 1;
      assert path[i - 1..][0] == c && path[i - 1..][1..] == path[i..];
      if fn % 2 == 1 || fn == sn {
        fr, sr := HashInterior(sha, c, fr), HashInterior(sha, c, sr);
        fn, sn := TurnedLoop(fn, sn);
      } else {
        sr := HashInterior(sha, sr, c);
        fn, sn := Half(fn), Half(sn);
      }
    }
    r := if i == |path| then Some(Roots(fr, sr)) else None;
  }

  method VerifyConsistencyProof(sha: Sha, proof: ConsistencyProof, firstRoot: Hash, secondRoot: Hash) returns (ok: bool)
    ensures ok == VerifyConsistency(sha, proof, firstRoot, secondRoot)
  {
    if proof.fromSize < 0 || proof.toSize < 0 || proof.fromSize > proof.toSize {
      return false;
    }
    if proof.fromSize == proof.toSize {
      return proof.path == [] && firstRoot == secondRoot;
    }
    if proof.fromSize == 0 {
      return proof.path == [];
    }
    var siblings := DecodeAll(proof.path);
    if siblings.None? {
      return false;
    }
    var r := ComputeRootsFromConsistency(sha, proof.fromSize, proof.toSize, firstRoot, siblings.value);
    ok := r == Some(Roots(firstRoot, secondRoot));
  }

  // ---------------------------------------------------------------- exactly the proofs that were made

  /** The sizes for which shifts of 32 bits do what halving does. */
  predicate SizeOk(n: int) {
    0 < n <= 0x1_0000_0000
  }

  /** The proof is the one made for its leaf. */
  ghost predicate IsInclusionProof(sha: Sha, proof: InclusionProof, leaves: seq<Hash>) {
    && proof.logSize == |leaves| && 0 <= proof.leafIndex < |leaves|
    && DecodeHash(proof.leafHash) == Some(leaves[proof.leafIndex])
    && DecodeHashes(proof.path) == Some(AuditPath(sha, proof.leafIndex, leaves))
  }

  lemma InclusionComplete(sha: Sha, proof: InclusionProof, leaves: seq<Hash>)
    requires SizeOk(|leaves|) && IsInclusionProof(sha, proof, leaves)
    ensures VerifyInclusion(sha, proof, SubtreeRoot(sha, leaves))
  {
    AuditPathComputes(sha, proof.leafIndex, leaves);
  }

  lemma AuditPathComputes(sha: Sha, m: nat, leaves: seq<Hash>)
    requires SizeOk(|leaves|) && m < |leaves|
    ensures ComputedRoot(sha, m, |leaves|, leaves[m], AuditPath(sha, m, leaves)) == Some(SubtreeRoot(sha, leaves))
  {
    AuditPathLeads(sha, m, leaves);
    ComputedIsRootFrom(sha, m, |leaves|, leaves[m], AuditPath(sha, m, leaves));
  }

  lemma ComputedIsRootFrom(sha: Sha, m: nat, n: nat, leaf: Hash, path: seq<Hash>)
    requires SizeOk(n) && m < n
    ensures ComputedRoot(sha, m, n, leaf, path) == RootFrom(sha, m, n, leaf, path)
  {
    ClimbIsRootFrom(sha, m, n, Roots(leaf, leaf), path);
  }

  /** Everything that verifying the proof hashes, when its texts are hashes. */
  function InclusionInputs(sha: Sha, proof: InclusionProof): seq<Bytes> {
    var leaf, path := DecodeHash(proof.leafHash), DecodeHashes(proof.path);
    if 0 <= proof.leafIndex < proof.logSize && leaf.Some? && path.Some?
    then PathInputs(sha, proof.leafIndex, proof.logSize, leaf.value, path.value) else []
  }

  /**
   * A proof for a tree of this size, whose inputs do not collide with the tree's, is accepted under its root exactly
   * when it is the one made for its leaf: no other leaf hash, index or path will do.
   */
  lemma InclusionExact(sha: Sha, proof: InclusionProof, leaves: seq<Hash>)
    requires SizeOk(|leaves|) && proof.logSize == |leaves|
    requires NoCollision(sha, TreeInputs(sha, leaves), InclusionInputs(sha, proof))
    ensures VerifyInclusion(sha, proof, SubtreeRoot(sha, leaves)) <==> IsInclusionProof(sha, proof, leaves)
  {
    if IsInclusionProof(sha, proof, leaves) {
      InclusionComplete(sha, proof, leaves);
    }
    if VerifyInclusion(sha, proof, SubtreeRoot(sha, leaves)) {
      ComputesOnly(sha, proof.leafIndex, leaves, DecodeHash(proof.leafHash).value, DecodeHashes(proof.path).value);
    }
  }

  lemma ComputesOnly(sha: Sha, m: nat, leaves: seq<Hash>, leaf: Hash, path: seq<Hash>)
    requires SizeOk(|leaves|) && m < |leaves|
    requires NoCollision(sha, TreeInputs(sha, leaves), PathInputs(sha, m, |leaves|, leaf, path))
    requires ComputedRoot(sha, m, |leaves|, leaf, path) == Some(SubtreeRoot(sha, leaves))
    ensures leaf == leaves[m] && path == AuditPath(sha, m, leaves)
  {
    ComputedIsRootFrom(sha, m, |leaves|, leaf, path);
    OnlyAuditPath(sha, m, leaves, leaf, path, TreeInputs(sha, leaves));
  }

  /** The proof is the one made for its older size. */
  ghost predicate IsConsistencyProof(sha: Sha, proof: ConsistencyProof, leaves: seq<Hash>) {
    && proof.toSize == |leaves| && 0 < proof.fromSize <= |leaves|
    && DecodeHashes(proof.path) == Some(Subproof(sha, proof.fromSize, leaves, true))
  }

  lemma ConsistencyComplete(sha: Sha, proof: ConsistencyProof, leaves: seq<Hash>)
    requires SizeOk(|leaves|) && IsConsistencyProof(sha, proof, leaves)
    ensures VerifyConsistency(sha, proof, SubtreeRoot(sha, leaves[..proof.fromSize]), SubtreeRoot(sha, leaves))
  {
    var m := proof.fromSize;
    if m == |leaves| {
      assert leaves[..m] == leaves;
    } else {
      SubproofComputes(sha, m, leaves);
    }
  }

  lemma SubproofComputes(sha: Sha, m: nat, leaves: seq<Hash>)
    requires SizeOk(|leaves|) && 0 < m < |leaves|
    ensures var first := SubtreeRoot(sha, leaves[..m]);
      Begin(sha, m - 1, |leaves| - 1, Some(first), Subproof(sha, m, leaves, true))
        == Some(Roots(first, SubtreeRoot(sha, leaves)))
  {
    SubproofLeads(sha, m, leaves, true);
    LeadingComputes(sha, m, leaves, SubtreeRoot(sha, leaves[..m]), Subproof(sha, m, leaves, true));
  }

  lemma LeadingComputes(sha: Sha, m: nat, leaves: seq<Hash>, first: Hash, path: seq<Hash>)
    requires SizeOk(|leaves|) && 0 < m < |leaves| && Leads(sha, m, leaves, Some(first), path)
    ensures Begin(sha, m - 1, |leaves| - 1, Some(first), path)
      == Some(Roots(SubtreeRoot(sha, leaves[..m]), SubtreeRoot(sha, leaves)))
  {
    BeginIsRootsFrom(sha, m, |leaves|, Some(first), path);
  }

  /** Everything that verifying the proof hashes on the way to the newer root, when its texts are hashes. */
  function ConsistencyInputs(sha: Sha, proof: ConsistencyProof, first: Hash): seq<Bytes> {
    var path := DecodeHashes(proof.path);
    if 0 < proof.fromSize < proof.toSize && path.Some?
    then SecondInputs(sha, proof.fromSize, proof.toSize, Some(first), path.value) else []
  }

  /**
   * A proof from an older size, whose inputs do not collide with the tree's, is accepted under the root of a tree
   * exactly when the older root is that of the tree's first leaves and the proof is the one made for it: the log has
   * only been appended to.  From size 0 an empty path is accepted whatever the older root is.
   */
  lemma ConsistencyExact(sha: Sha, proof: ConsistencyProof, leaves: seq<Hash>, first: Hash)
    requires SizeOk(|leaves|) && proof.toSize == |leaves|
    requires NoCollision(sha, TreeInputs(sha, leaves), ConsistencyInputs(sha, proof, first))
    ensures VerifyConsistency(sha, proof, first, SubtreeRoot(sha, leaves)) <==>
      if proof.fromSize == 0 then proof.path == []
      else IsConsistencyProof(sha, proof, leaves) && first == SubtreeRoot(sha, leaves[..proof.fromSize])
  {
    if IsConsistencyProof(sha, proof, leaves) {
      ConsistencyComplete(sha, proof, leaves);
    }
    if VerifyConsistency(sha, proof, first, SubtreeRoot(sha, leaves)) && proof.fromSize > 0 {
      ConsistencySound(sha, proof, leaves, first);
    }
  }

  lemma ConsistencySound(sha: Sha, proof: ConsistencyProof, leaves: seq<Hash>, first: Hash)
    requires SizeOk(|leaves|) && proof.toSize == |leaves| && proof.fromSize > 0
    requires NoCollision(sha, TreeInputs(sha, leaves), ConsistencyInputs(sha, proof, first))
    requires VerifyConsistency(sha, proof, first, SubtreeRoot(sha, leaves))
    ensures IsConsistencyProof(sha, proof, leaves) && first == SubtreeRoot(sha, leaves[..proof.fromSize])
  {
    var m := proof.fromSize;
    if m == |leaves| {
      assert leaves[..m] == leaves;
    } else {
      BeginsOnly(sha, m, leaves, first, DecodeHashes(proof.path).value);
    }
  }

  lemma BeginsOnly(sha: Sha, m: nat, leaves: seq<Hash>, first: Hash, path: seq<Hash>)
    requires SizeOk(|leaves|) && 0 < m < |leaves|
    requires NoCollision(sha, TreeInputs(sha, leaves), SecondInputs(sha, m, |leaves|, Some(first), path))
    requires Begin(sha, m - 1, |leaves| - 1, Some(first), path) == Some(Roots(first, SubtreeRoot(sha, leaves)))
    ensures first == SubtreeRoot(sha, leaves[..m]) && path == Subproof(sha, m, leaves, true)
  {
    BeginIsRootsFrom(sha, m, |leaves|, Some(first), path);
    OnlySubproof(sha, m, leaves, Some(first), path, TreeInputs(sha, leaves));
  }

  // ---------------------------------------------------------------- hashes without such a collision

  /** The first 32 bytes, for a hash that can be written down. */
  function Front(x: Bytes): Hash {
    seq(32, i => if 0 <= i < |x| then x[i] else 0)
  }

  function Bytes32(b: byte): Hash {
    seq(32, _ => b)
  }

  lemma FrontOfInterior(b: byte, c: byte, right: Hash)
    requires b != c
    ensures Front(InteriorInput(Bytes32(b), right)) != Front(InteriorInput(Bytes32(c), right))
  {
    assert Front(InteriorInput(Bytes32(b), right))[1] == b && Front(InteriorInput(Bytes32(c), right))[1] == c;
  }

  /**
   * A tree, and proofs that were not made for it: each hashes one input, it does not collide, and so it is refused.
   */
  lemma RefusedWithoutCollision(inclusion: InclusionProof, consistency: ConsistencyProof)
    requires inclusion == InclusionProof(2, EncodeHash(Bytes32(1)), 0, EncodeHashes([Bytes32(0)]))
    requires consistency == ConsistencyProof(1, 2, EncodeHashes([Bytes32(0)]))
    ensures var leaves := [Bytes32(0), Bytes32(0)];
      && TreeInputs(Front, leaves) == [InteriorInput(Bytes32(0), Bytes32(0))]
      && InclusionInputs(Front, inclusion) == [InteriorInput(Bytes32(1), Bytes32(0))]
      && ConsistencyInputs(Front, consistency, Bytes32(1)) == [InteriorInput(Bytes32(1), Bytes32(0))]
      && NoCollision(Front, TreeInputs(Front, leaves), [InteriorInput(Bytes32(1), Bytes32(0))])
      && !VerifyInclusion(Front, inclusion, SubtreeRoot(Front, leaves))
      && !VerifyConsistency(Front, consistency, Bytes32(1), SubtreeRoot(Front, leaves))
  {
    var zero, one := Bytes32(0), Bytes32(1);
    var leaves := [zero, zero];
    assert zero[0] != one[0] && Split(2) == 1 && leaves[..1] == [zero] && leaves[1..] == [zero];
    DecodeEncoded(one);
    DecodesEncoded([zero]);
    assert [zero][..0] == [];
    FrontOfInterior(0, 1, zero);
    InclusionExact(Front, inclusion, leaves);
    ConsistencyExact(Front, consistency, leaves, one);
    assert leaves[..1][0] == zero;
  }

  // ---------------------------------------------------------------- sizes beyond 32 bits

  /** From the first leaf the loop only ever goes right: this many times. */
  function Steps(sn: nat): nat {
    if sn == 0 then 0 else 1 + Steps(Half(sn))
  }

  function Fold(sha: Sha, h: Hash, path: seq<Hash>): Hash
    decreases path
  {
    if path == [] then h else Fold(sha, HashInterior(sha, h, path[0]), path[1..])
  }

  lemma {:induction false} ClimbFromFirst(sha: Sha, sn: nat, r: Roots, path: seq<Hash>)
    ensures Climb(sha, 0, sn, r, path)
      == if |path| == Steps(sn) then Some(Roots(r.first, Fold(sha, r.second, path))) else None
    decreases sn
  {
    if sn > 0 && path != [] {
      ClimbOn(sha, 0, sn, r, path, 0, Half(sn));
      ClimbFromFirst(sha, Half(sn), Beside(sha, r, path[0]), path[1..]);
    }
  }

  lemma {:induction false} StepsBelow(sn: nat, j: nat)
    requires sn < Pow2(j) && Small(sn)
    ensures Steps(sn) <= j
    decreases j
  {
    if sn > 0 {
      HalfSmall(sn);
      StepsBelow(Half(sn), j - 1);
    }
  }

  lemma PowersOfTwo()
    ensures Pow2(31) == 0x8000_0000 && Pow2(32) == 0x1_0000_0000
  {
    assert Pow2(8) == 0x100;
    assert Pow2(16) == 0x1_0000;
    assert Pow2(24) == 0x100_0000;
  }

  /** However large the number, the loop takes 32 steps at most. */
  lemma StepsBounded(sn: nat)
    ensures Steps(sn) <= 32
  {
    PowersOfTwo();
    if Small(sn) {
      StepsBelow(sn, 32);
    } else {
      StepsBelow(Half(sn), 31);
    }
  }

  /** The path made for the first leaf is longer than any exponent of a power of two below the number of leaves. */
  lemma {:induction false} FirstPathLength(sha: Sha, leaves: seq<Hash>, j: nat)
    requires |leaves| > Pow2(j)
    ensures |AuditPath(sha, 0, leaves)| > j
    decreases j
  {
    PowerPositive(j);
    var k := Split(|leaves|);
    DoubledBelow(1, |leaves|);
    if j > 0 {
      FirstPathLength(sha, leaves[..k], j - 1);
    }
  }

  lemma {:induction false} FoldSnoc(sha: Sha, h: Hash, path: seq<Hash>, last: Hash)
    ensures Fold(sha, h, path + [last]) == HashInterior(sha, Fold(sha, h, path), last)
    decreases path
  {
    if path == [] {
      assert [] + [last] == [last] && [last][1..] == [];
    } else {
      Shifted(path, last);
      FoldSnoc(sha, HashInterior(sha, h, path[0]), path[1..], last);
    }
  }

  lemma {:induction false} FoldConcat(sha: Sha, h: Hash, a: seq<Hash>, b: seq<Hash>)
    ensures Fold(sha, h, a + b) == Fold(sha, Fold(sha, h, a), b)
    decreases a
  {
    if a == [] {
      assert a + b == b;
    } else {
      assert (a + b)[0] == a[0] && (a + b)[1..] == a[1..] + b;
      FoldConcat(sha, HashInterior(sha, h, a[0]), a[1..], b);
    }
  }

  lemma {:induction false} FirstPathFolds(sha: Sha, leaves: seq<Hash>)
    requires leaves != []
    ensures Fold(sha, leaves[0], AuditPath(sha, 0, leaves)) == SubtreeRoot(sha, leaves)
    decreases |leaves|
  {
    if |leaves| > 1 {
      var k := Split(|leaves|);
      FirstPathFolds(sha, leaves[..k]);
      FoldSnoc(sha, leaves[0], AuditPath(sha, 0, leaves[..k]), SubtreeRoot(sha, leaves[k..]));
    }
  }

  /** The consistency proof from size 1 is the inclusion proof of the first leaf. */
  lemma {:induction false} FirstSubproof(sha: Sha, leaves: seq<Hash>)
    requires leaves != []
    ensures Subproof(sha, 1, leaves, true) == AuditPath(sha, 0, leaves)
    decreases |leaves|
  {
    if |leaves| > 1 {
      FirstSubproof(sha, leaves[..Split(|leaves|)]);
    }
  }

  lemma FirstPathTooLong(sha: Sha, leaves: seq<Hash>)
    requires |leaves| > 0x1_0000_0000
    ensures |AuditPath(sha, 0, leaves)| > Steps(|leaves| - 1)
  {
    PowersOfTwo();
    FirstPathLength(sha, leaves, 32);
    StepsBounded(|leaves| - 1);
  }

  /** With more than 2^32 leaves the proof made for the first one is refused. */
  lemma TooLarge(sha: Sha, proof: InclusionProof, leaves: seq<Hash>)
    requires |leaves| > 0x1_0000_0000 && proof.leafIndex == 0 && IsInclusionProof(sha, proof, leaves)
    ensures !VerifyInclusion(sha, proof, SubtreeRoot(sha, leaves))
  {
    FirstPathTooLong(sha, leaves);
    ClimbFromFirst(sha, |leaves| - 1, Roots(leaves[0], leaves[0]), AuditPath(sha, 0, leaves));
  }

  /** And so is the consistency proof made from size 1. */
  lemma TooLargeToCompare(sha: Sha, proof: ConsistencyProof, leaves: seq<Hash>)
    requires |leaves| > 0x1_0000_0000 && proof.fromSize == 1 && IsConsistencyProof(sha, proof, leaves)
    ensures !VerifyConsistency(sha, proof, SubtreeRoot(sha, leaves[..1]), SubtreeRoot(sha, leaves))
  {
    var first := SubtreeRoot(sha, leaves[..1]);
    FirstPathTooLong(sha, leaves);
    FirstSubproof(sha, leaves);
    ClimbFromFirst(sha, |leaves| - 1, Roots(first, first), AuditPath(sha, 0, leaves));
  }

  /** A proof for the hash of a whole subtree in the place of the first leaf, with the end of the path made for it. */
  function SubtreeProof(sha: Sha, leaves: seq<Hash>): InclusionProof
    requires leaves != [] && Steps(|leaves| - 1) <= |AuditPath(sha, 0, leaves)|
  {
    var path := AuditPath(sha, 0, leaves);
    var cut := |path| - Steps(|leaves| - 1);
    InclusionProof(|leaves|, EncodeHash(Fold(sha, leaves[0], path[..cut])), 0, EncodeHashes(path[cut..]))
  }

  /** With more than 2^32 leaves a proof is accepted that was not made for any leaf. */
  lemma WrongAccepted(sha: Sha, leaves: seq<Hash>)
    requires |leaves| > 0x1_0000_0000
    ensures |AuditPath(sha, 0, leaves)| > Steps(|leaves| - 1)
    ensures var proof := SubtreeProof(sha, leaves);
      VerifyInclusion(sha, proof, SubtreeRoot(sha, leaves)) && !IsInclusionProof(sha, proof, leaves)
  {
    FirstPathTooLong(sha, leaves);
    var path := AuditPath(sha, 0, leaves);
    var cut := |path| - Steps(|leaves| - 1);
    var h, rest := Fold(sha, leaves[0], path[..cut]), path[cut..];
    assert path == path[..cut] + rest;
    FirstPathFolds(sha, leaves);
    FoldConcat(sha, leaves[0], path[..cut], rest);
    DecodeEncoded(h);
    DecodesEncoded(rest);
    ClimbFromFirst(sha, |leaves| - 1, Roots(h, h), rest);
  }

  /** Every proof made for a leaf of the tree is accepted exactly when the tree has 2^32 leaves at most. */
  lemma InclusionSizes(sha: Sha, leaves: seq<Hash>)
    requires leaves != []
    ensures SizeOk(|leaves|) <==>
      forall proof | IsInclusionProof(sha, proof, leaves) :: VerifyInclusion(sha, proof, SubtreeRoot(sha, leaves))
  {
    if SizeOk(|leaves|) {
      forall proof | IsInclusionProof(sha, proof, leaves)
        ensures VerifyInclusion(sha, proof, SubtreeRoot(sha, leaves))
      {
        InclusionComplete(sha, proof, leaves);
      }
    } else {
      var proof := MadeForFirst(sha, leaves);
      TooLarge(sha, proof, leaves);
    }
  }

  lemma MadeForFirst(sha: Sha, leaves: seq<Hash>) returns (proof: InclusionProof)
    requires leaves != []
    ensures proof.leafIndex == 0 && IsInclusionProof(sha, proof, leaves)
  {
    var path := AuditPath(sha, 0, leaves);
    proof := InclusionProof(|leaves|, EncodeHash(leaves[0]), 0, EncodeHashes(path));
    DecodeEncoded(leaves[0]);
    DecodesEncoded(path);
  }

  /** The roots of a proof's two sizes. */
  predicate VerifiesPrefix(sha: Sha, proof: ConsistencyProof, leaves: seq<Hash>)
    requires 0 <= proof.fromSize <= |leaves|
  {
    VerifyConsistency(sha, proof, SubtreeRoot(sha, leaves[..proof.fromSize]), SubtreeRoot(sha, leaves))
  }

  /** Every consistency proof made for the tree is accepted exactly when the tree has 2^32 leaves at most. */
  lemma ConsistencySizes(sha: Sha, leaves: seq<Hash>)
    requires leaves != []
    ensures SizeOk(|leaves|) <==>
      forall proof | IsConsistencyProof(sha, proof, leaves) :: VerifiesPrefix(sha, proof, leaves)
  {
    if SizeOk(|leaves|) {
      forall proof | IsConsistencyProof(sha, proof, leaves) ensures VerifiesPrefix(sha, proof, leaves) {
        ConsistencyComplete(sha, proof, leaves);
      }
    } else {
      var proof := MadeFromOne(sha, leaves);
      TooLargeToCompare(sha, proof, leaves);
    }
  }

  lemma MadeFromOne(sha: Sha, leaves: seq<Hash>) returns (proof: ConsistencyProof)
    requires leaves != []
    ensures proof.fromSize == 1 && IsConsistencyProof(sha, proof, leaves)
  {
    var path := Subproof(sha, 1, leaves, true);
    proof := ConsistencyProof(1, |leaves|, EncodeHashes(path));
    DecodesEncoded(path);
  }

  // ---------------------------------------------------------------- what a root commits to

  function HashLeaves(sha: Sha, entries: seq<Bytes>): (hs: seq<Hash>)
    ensures |hs| == |entries| && forall i | 0 <= i < |hs| :: hs[i] == HashLeaf(sha, entries[i])
  {
    seq(|entries|, i requires 0 <= i < |entries| => HashLeaf(sha, entries[i]))
  }

  /** Everything that is hashed for the root of these entries, the entries included. */
  function LogInputs(sha: Sha, entries: seq<Bytes>): seq<Bytes> {
    if entries == [] then []
    else if |entries| == 1 then [LeafInput(entries[0])]
    else
      var k := Split(|entries|);
      LogInputs(sha, entries[..k]) + LogInputs(sha, entries[k..])
        + [InteriorInput(EntriesRoot(sha, entries[..k]), EntriesRoot(sha, entries[k..]))]
  }

  lemma LogParts(sha: Sha, entries: seq<Bytes>, k: nat)
    requires |entries| >= 2 && k == Split(|entries|)
    ensures var all := LogInputs(sha, entries);
      && Among(LogInputs(sha, entries[..k]), all) && Among(LogInputs(sha, entries[k..]), all)
      && InteriorInput(EntriesRoot(sha, entries[..k]), EntriesRoot(sha, entries[k..])) in all
  {
    var node := InteriorInput(EntriesRoot(sha, entries[..k]), EntriesRoot(sha, entries[k..]));
    assert LogInputs(sha, entries) == LogInputs(sha, entries[..k]) + LogInputs(sha, entries[k..]) + [node];
    assert node in LogInputs(sha, entries);
  }

  /** A root fixes the number of entries and every one of them, unless there is a collision. */
  lemma {:induction false} RootsBind(sha: Sha, a: seq<Bytes>, b: seq<Bytes>)
    requires a != [] && b != [] && NoCollision(sha, LogInputs(sha, a), LogInputs(sha, b))
    requires EntriesRoot(sha, a) == EntriesRoot(sha, b)
    ensures a == b
    decreases |a|
  {
    if |a| == 1 || |b| == 1 {
      OneEntry(sha, a, b);
    } else {
      var k, l := Split(|a|), Split(|b|);
      BothSplit(sha, a, b, k, l);
      RootsBind(sha, a[..k], b[..l]);
      RootsBind(sha, a[k..], b[l..]);
      assert a == a[..k] + a[k..] && b == b[..l] + b[l..];
    }
  }

  lemma BothSplit(sha: Sha, a: seq<Bytes>, b: seq<Bytes>, k: nat, l: nat)
    requires |a| >= 2 && |b| >= 2 && k == Split(|a|) && l == Split(|b|)
    requires NoCollision(sha, LogInputs(sha, a), LogInputs(sha, b)) && EntriesRoot(sha, a) == EntriesRoot(sha, b)
    ensures EntriesRoot(sha, a[..k]) == EntriesRoot(sha, b[..l]) && EntriesRoot(sha, a[k..]) == EntriesRoot(sha, b[l..])
    ensures NoCollision(sha, LogInputs(sha, a[..k]), LogInputs(sha, b[..l]))
    ensures NoCollision(sha, LogInputs(sha, a[k..]), LogInputs(sha, b[l..]))
  {
    var xs, ys := LogInputs(sha, a), LogInputs(sha, b);
    EntriesSplit(sha, a, k);
    EntriesSplit(sha, b, l);
    LogParts(sha, a, k);
    LogParts(sha, b, l);
    SameParts(sha, xs, ys, EntriesRoot(sha, a[..k]), EntriesRoot(sha, a[k..]), EntriesRoot(sha, b[..l]),
              EntriesRoot(sha, b[l..]));
    NoCollisionAmong(sha, xs, ys, LogInputs(sha, a[..k]), LogInputs(sha, b[..l]));
    NoCollisionAmong(sha, xs, ys, LogInputs(sha, a[k..]), LogInputs(sha, b[l..]));
  }

  function EntriesRoot(sha: Sha, entries: seq<Bytes>): Hash {
    SubtreeRoot(sha, HashLeaves(sha, entries))
  }

  lemma EntriesSplit(sha: Sha, entries: seq<Bytes>, k: nat)
    requires |entries| >= 2 && k == Split(|entries|)
    ensures EntriesRoot(sha, entries)
      == HashInterior(sha, EntriesRoot(sha, entries[..k]), EntriesRoot(sha, entries[k..]))
  {
    var hs := HashLeaves(sha, entries);
    RootSplits(sha, hs);
    assert hs[..k] == HashLeaves(sha, entries[..k]) && hs[k..] == HashLeaves(sha, entries[k..]);
  }

  lemma OneEntry(sha: Sha, a: seq<Bytes>, b: seq<Bytes>)
    requires a != [] && b != [] && (|a| == 1 || |b| == 1) && NoCollision(sha, LogInputs(sha, a), LogInputs(sha, b))
    requires EntriesRoot(sha, a) == EntriesRoot(sha, b)
    ensures a == b
  {
    var x := LastInput(sha, a);
    var y := LastInput(sha, b);
    assert x == y;
    assert (x[0] == 0 <==> |a| == 1) && (y[0] == 0 <==> |b| == 1);
    LeafInputParts(a[0], b[0]);
  }

  /** Two logs of one entry each, of which nothing collides under that hash. */
  lemma LogsWithoutCollision(b: byte, c: byte)
    requires b != c
    ensures NoCollision(Front, LogInputs(Front, [[b]]), LogInputs(Front, [[c]]))
    ensures EntriesRoot(Front, [[b]]) != EntriesRoot(Front, [[c]])
  {
    assert Front(LeafInput([b]))[1] == b && Front(LeafInput([c]))[1] == c;
    assert [[b]][0] == [b] && [[c]][0] == [c] && [b][0] != [c][0];
    if EntriesRoot(Front, [[b]]) == EntriesRoot(Front, [[c]]) {
      RootsBind(Front, [[b]], [[c]]);
      assert false;
    }
  }

  /** What is hashed last, for the root. */
  lemma LastInput(sha: Sha, entries: seq<Bytes>) returns (x: Bytes)
    requires entries != []
    ensures x in LogInputs(sha, entries) && sha(x) == EntriesRoot(sha, entries)
    ensures x == if |entries| == 1 then LeafInput(entries[0])
      else InteriorInput(EntriesRoot(sha, entries[..Split(|entries|)]), EntriesRoot(sha, entries[Split(|entries|)..]))
  {
    if |entries| == 1 {
      x := LeafInput(entries[0]);
    } else {
      var k := Split(|entries|);
      EntriesSplit(sha, entries, k);
      LogParts(sha, entries, k);
      x := InteriorInput(EntriesRoot(sha, entries[..k]), EntriesRoot(sha, entries[k..]));
    }
  }

  /** The nodes of the tree over the hashed entries are among what is hashed for the log, and so are the entries. */
  lemma {:induction false} TreeAmongLog(sha: Sha, entries: seq<Bytes>)
    requires entries != []
    ensures Among(TreeInputs(sha, HashLeaves(sha, entries)), LogInputs(sha, entries))
    ensures forall i | 0 <= i < |entries| :: LeafInput(entries[i]) in LogInputs(sha, entries)
    decreases |entries|
  {
    if |entries| > 1 {
      var k, hs := Split(|entries|), HashLeaves(sha, entries);
      assert hs[..k] == HashLeaves(sha, entries[..k]) && hs[k..] == HashLeaves(sha, entries[k..]);
      TreeAmongLog(sha, entries[..k]);
      TreeAmongLog(sha, entries[k..]);
      LogParts(sha, entries, k);
      forall i | 0 <= i < |entries| ensures LeafInput(entries[i]) in LogInputs(sha, entries) {
        assert entries[i] == if i < k then entries[..k][i] else entries[k..][i - k];
      }
    }
  }
}
