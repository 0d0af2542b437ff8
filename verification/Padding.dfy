/** Padding an envelope so that its printed size is exactly a bucket's. */
module Padding {
  import opened Wrappers
  import opened Bits
  import opened Signing
  import Base64

  const MIN_BUCKET := 4096
  const DEFAULT_MAX := 25 * 1024 * 1024
  const SIGNATURE_LENGTH := 88
  const MAC_LENGTH := 44
  const PADDING_KEY := "padding"

  // ---------------------------------------------------------------- buckets

  /** The k-th bucket of the default curve. */
  function Curve(k: nat): int {
    MIN_BUCKET * Pow2(k)
  }

  /** From a bucket on: doubled until it fits; the ceiling when the next would pass it. */
  function Grow(bucket: int, size: int, ceiling: int): int
    requires bucket > 0
    decreases size - bucket
  {
    if bucket >= size then bucket else if bucket * 2 > ceiling then ceiling else Grow(bucket * 2, size, ceiling)
  }

  function SelectBucket(size: int, ceiling: int): Result<int> {
    if size < 0 then Err("invalid size")
    else if ceiling <= 0 then Err("non-positive ceiling")
    else if size > ceiling then Err("exceeds max_envelope_size")
    else Ok(Grow(MIN_BUCKET, size, ceiling))
  }

  method SelectSizeBucket(size: int, ceiling: int) returns (r: Result<int>)
    ensures r == SelectBucket(size, ceiling)
  {
    if size < 0 {
      return Err("invalid size");
    }
    if ceiling <= 0 {
      return Err("non-positive ceiling");
    }
    if size > ceiling {
      return Err("exceeds max_envelope_size");
    }
    var bucket := MIN_BUCKET;
    while bucket < size
      invariant bucket > 0 && Grow(bucket, size, ceiling) == Grow(MIN_BUCKET, size, ceiling)
    {
      var next := bucket * 2;
      if next > ceiling {
        return Ok(ceiling);
      }
      bucket := next;
    }
    r := Ok(bucket);
  }

  /** The first of the sequence that fits. */
  function FirstFit(sequence: seq<int>, size: int, ceiling: int): int {
    if sequence == [] then ceiling else if sequence[0] >= size then sequence[0]
    else FirstFit(sequence[1..], size, ceiling)
  }

  predicate SequenceOk(sequence: seq<int>, ceiling: int) {
    && (sequence != [] ==> sequence[0] >= MIN_BUCKET && sequence[|sequence| - 1] <= ceiling)
    && forall i | 1 <= i < |sequence| :: sequence[i - 1] < sequence[i]
  }

  method ValidateBucketSequence(sequence: seq<int>, ceiling: int) returns (ok: bool)
    requires sequence != []
    ensures ok == SequenceOk(sequence, ceiling)
  {
    if sequence[0] < MIN_BUCKET {
      return false;
    }
    for i := 1 to |sequence|
      invariant forall j | 1 <= j < i :: sequence[j - 1] < sequence[j]
    {
      if sequence[i] <= sequence[i - 1] {
        return false;
      }
    }
    ok := sequence[|sequence| - 1] <= ceiling;
  }

  function PickBucket(size: int, ceiling: int, sequence: seq<int>): Result<int> {
    if sequence == [] then SelectBucket(size, ceiling) else Ok(FirstFit(sequence, size, ceiling))
  }

  /** A bucket on offer: of the sequence if there is one, else of the curve up to the ceiling. */
  ghost predicate Offered(b: int, ceiling: int, sequence: seq<int>) {
    if sequence == [] then b <= ceiling && exists k: nat :: b == Curve(k) else b in sequence
  }

  /** The smallest bucket on offer that fits; the ceiling when none does. */
  ghost predicate SmallestFit(b: int, size: int, ceiling: int, sequence: seq<int>) {
    && size <= b <= ceiling
    && (Offered(b, ceiling, sequence) || b == ceiling)
    && forall c | Offered(c, ceiling, sequence) && size <= c :: b <= c
  }

  lemma {:induction false} CurveGrows(i: nat, j: nat)
    requires i <= j
    ensures 0 < Curve(i) <= Curve(j)
    decreases j
  {
    if i < j {
      CurveGrows(i, j - 1);
    } else if i > 0 {
      CurveGrows(i - 1, j - 1);
    }
  }

  lemma {:induction false} GrowFits(k: nat, size: int, ceiling: int)
    requires Curve(k) <= ceiling && size <= ceiling && (k > 0 ==> Curve(k - 1) < size)
    ensures Curve(k) > 0 && SmallestFit(Grow(Curve(k), size, ceiling), size, ceiling, [])
    decreases size - Curve(k)
  {
    CurveGrows(k, k);
    if Curve(k) >= size {
      forall c | Offered(c, ceiling, []) && size <= c ensures Curve(k) <= c {
        var j: nat :| c == Curve(j);
        if j < k {
          CurveGrows(j, k - 1);
        } else {
          CurveGrows(k, j);
        }
      }
    } else if Curve(k) * 2 > ceiling {
      assert Curve(k + 1) == 2 * Curve(k);
      forall c | Offered(c, ceiling, []) ensures c < size {
        var j: nat :| c == Curve(j);
        if j <= k {
          CurveGrows(j, k);
        } else {
          CurveGrows(k + 1, j);
        }
      }
    } else {
      assert Curve(k + 1) == 2 * Curve(k);
      GrowFits(k + 1, size, ceiling);
    }
  }

  lemma {:induction false} FirstFitIs(sequence: seq<int>, size: int, ceiling: int)
    requires forall i | 0 <= i < |sequence| :: sequence[i] <= ceiling
    requires forall i, j | 0 <= i < j < |sequence| :: sequence[i] < sequence[j]
    requires size <= ceiling
    ensures var b := FirstFit(sequence, size, ceiling);
      size <= b <= ceiling && (b in sequence || b == ceiling) && forall c | c in sequence && size <= c :: b <= c
  {
    if sequence != [] {
      FirstFitIs(sequence[1..], size, ceiling);
      assert sequence == [sequence[0]] + sequence[1..];
    }
  }

  lemma {:induction false} StepsIncrease(sequence: seq<int>)
    requires forall i | 1 <= i < |sequence| :: sequence[i - 1] < sequence[i]
    ensures forall i, j | 0 <= i < j < |sequence| :: sequence[i] < sequence[j]
  {
    if sequence != [] {
      var front := sequence[..|sequence| - 1];
      assert forall i | 0 <= i < |front| :: front[i] == sequence[i];
      StepsIncrease(front);
      forall i | 0 <= i < |front| ensures sequence[i] < sequence[|sequence| - 1] {
        assert sequence[|sequence| - 2] < sequence[|sequence| - 1];
        assert i < |front| - 1 ==> front[i] < front[|front| - 1];
      }
    }
  }

  /**
   * On the default curve with a ceiling of 4096 or more, and on any valid sequence, the pick is the smallest that
   * fits.
   */
  lemma PickFits(size: int, ceiling: int, sequence: seq<int>)
    requires 0 <= size <= ceiling && SequenceOk(sequence, ceiling) && (sequence == [] ==> ceiling >= MIN_BUCKET)
    ensures PickBucket(size, ceiling, sequence).Ok?
    ensures SmallestFit(PickBucket(size, ceiling, sequence).value, size, ceiling, sequence)
  {
    if sequence == [] {
      assert Curve(0) == MIN_BUCKET;
      GrowFits(0, size, ceiling);
    } else {
      StepsIncrease(sequence);
      FirstFitIs(sequence, size, ceiling);
    }
  }

  /** With a lower ceiling the default curve passes it: the floor is given out whatever the ceiling. */
  lemma LowCeiling(size: int, ceiling: int)
    requires 0 <= size <= ceiling < MIN_BUCKET && ceiling > 0
    ensures SelectBucket(size, ceiling) == Ok(MIN_BUCKET) && !SmallestFit(MIN_BUCKET, size, ceiling, [])
  {}

  // ---------------------------------------------------------------- the filler

  /** The pool of filler characters: the base64 alphabet in its order. */
  function Filler(i: nat): (c: char)
    requires i < 64
    ensures 0x20 <= c as int < 0x7F && c != '\"' && c != '\\'
  {
    Base64.Symbol(i)
  }

  /** The last characters, seeded from random bytes; a missing byte counts as 0. */
  function Tail(seed: Bytes, n: nat): (s: string)
    ensures |s| == n && Base64.Plain(s)
  {
    if n == 0 then "" else Tail(seed, n - 1) + [Filler(if n - 1 < |seed| then seed[n - 1] % 64 else 0)]
  }

  /** The filler of the length asked for, if the random source gives what it is asked for. */
  function PaddingValue(target: nat, rand: nat -> Bytes): string {
    if target % 4 == 0 then Bulk(BaseOf(target), rand)
    else Bulk(BaseOf(target), rand) + Tail(rand(target % 4), target % 4)
  }

  /** The part of a length that whole groups of four make up. */
  function BaseOf(target: nat): (base: nat)
    ensures base % 4 == 0 && base + target % 4 == target
  {
    target - target % 4
  }

  method BuildTail(seed: Bytes, n: nat) returns (tail: string)
    ensures tail == Tail(seed, n)
  {
    tail := "";
    for i := 0 to n
      invariant tail == Tail(seed, i)
    {
      var byte := if i < |seed| then seed[i] else 0;
      tail := tail + [Filler(byte % 64)];
    }
  }

  method BuildPaddingValue(target: nat, rand: nat -> Bytes) returns (out: string)
    ensures out == PaddingValue(target, rand)
  {
    out := Bulk(BaseOf(target), rand);
    var fillerCount := target % 4;
    if fillerCount > 0 {
      var tail := BuildTail(rand(fillerCount), fillerCount);
      out := out + tail;
    }
  }

  /** The random source gave as many bytes as make the characters: those asked for, or one or two fewer. */
  predicate RandServes(target: nat, rand: nat -> Bytes) {
    BaseOf(target) == 0 || BaseOf(target) / 4 * 3 - 3 < |rand(BaseOf(target) / 4 * 3)| <= BaseOf(target) / 4 * 3
  }

  lemma BulkLength(q: nat, n: nat)
    ensures 4 * ((n + 2) / 3) == 4 * q <==> 3 * q - 3 < n <= 3 * q
  {}

  /** The part made by base64, before the last one to three characters. */
  function Bulk(base: nat, rand: nat -> Bytes): string {
    if base == 0 then "" else Base64.Encode(rand(base / 4 * 3))
  }

  lemma BulkShape(base: nat, rand: nat -> Bytes)
    requires base % 4 == 0
    ensures Base64.Plain(Bulk(base, rand))
    ensures |Bulk(base, rand)| == base <==> base == 0 || base / 4 * 3 - 3 < |rand(base / 4 * 3)| <= base / 4 * 3
  {
    var bytes := rand(base / 4 * 3);
    Base64.EncodeLength(bytes);
    Base64.EncodePlain(bytes);
    BulkLength(base / 4, |bytes|);
  }

  /** The filler is plain, and as long as asked for exactly when the random source serves. */
  lemma PaddingLength(target: nat, rand: nat -> Bytes)
    ensures Base64.Plain(PaddingValue(target, rand))
    ensures |PaddingValue(target, rand)| == target <==> RandServes(target, rand)
  {
    BulkShape(BaseOf(target), rand);
  }
}
