/** Filling in an envelope's padding: measured with placeholders for proofs that are still to come. */
module PadEnvelope {
  import opened Wrappers
  import opened Json
  import opened Signing
  import opened Sizes
  import opened Padding
  import opened Seal
  import opened Envelope
  import Base64

  datatype PadConfig = PadConfig(maxSize: Option<int>, sequence: seq<int>, rand: nat -> Bytes)

  function Ceiling(cfg: PadConfig): int {
    if cfg.maxSize.Some? then cfg.maxSize.value else DEFAULT_MAX
  }

  /** An envelope as the type has it: a seal with both proofs, as texts. */
  predicate Shaped(v: Json) {
    && v.JObj? && Get(v, SEAL_KEY).Some? && Get(v, SEAL_KEY).value.JObj?
    && Dig(v, SEAL_KEY, SIG_KEY).Some? && Dig(v, SEAL_KEY, SIG_KEY).value.JStr?
    && Dig(v, SEAL_KEY, MAC_KEY).Some? && Dig(v, SEAL_KEY, MAC_KEY).value.JStr?
  }

  function Letters(n: nat): (s: string)
    ensures |s| == n && Base64.Plain(s)
  {
    seq(n, _ => 'A')
  }

  /** A text in place of an empty one. */
  function FillIn(seal: Json, key: string, text: string): Json {
    if Get(seal, key) == Some(JStr("")) then seal.Put(key, JStr(text)) else seal
  }

  /** The envelope with these proofs where it has none. */
  function WithMissing(v: Json, sig: string, mac: string): Json
    requires Shaped(v)
  {
    v.Put(SEAL_KEY, FillIn(FillIn(Get(v, SEAL_KEY).value, SIG_KEY, sig), MAC_KEY, mac))
  }

  function Measured(v: Json): Json
    requires Shaped(v)
  {
    WithMissing(v, Letters(SIGNATURE_LENGTH), Letters(MAC_LENGTH))
  }

  function Padded(v: Json, p: string): Json {
    v.Put(PADDING_KEY, JStr(p))
  }

  function Baseline(v: Json): nat
    requires Shaped(v)
  {
    Size(Padded(Measured(v), ""))
  }

  /** The padding for a baseline, and the bucket it is for or the error. */
  function Choose(base: nat, cfg: PadConfig): (string, Result<int>) {
    match PickBucket(base, Ceiling(cfg), cfg.sequence)
    case Err(e) => ("", Err(e))
    case Ok(bucket) =>
      if bucket == base then ("", Ok(bucket))
      else if bucket < base then ("", Err("baseline exceeds bucket"))
      else (PaddingValue(bucket - base, cfg.rand), Ok(bucket))
  }

  method ChoosePadding(base: nat, cfg: PadConfig) returns (p: string, r: Result<int>)
    ensures (p, r) == Choose(base, cfg)
  {
    p := "";
    if cfg.sequence == [] {
      r := SelectSizeBucket(base, Ceiling(cfg));
    } else {
      r := Ok(FirstFit(cfg.sequence, base, Ceiling(cfg)));
    }
    if r.Ok? && r.value < base {
      return "", Err("baseline exceeds bucket");
    }
    if r.Ok? && r.value > base {
      p := BuildPaddingValue(r.value - base, cfg.rand);
    }
  }

  /** The last check: the printed size is the bucket's. */
  function Landed(size: nat, r: Result<int>): Result<int> {
    if r.Ok? && size != r.value then Err("did not land") else r
  }

  /** `fillPadding`: the envelope it leaves, and the bucket or the error. */
  function Fill(v: Json, cfg: PadConfig): (Json, Result<int>)
    requires Shaped(v)
  {
    if cfg.sequence != [] && !SequenceOk(cfg.sequence, Ceiling(cfg)) then (v, Err("bucket sequence"))
    else
      var (p, r) := Choose(Baseline(v), cfg);
      Finish(v, p, r)
  }

  function Finish(v: Json, p: string, r: Result<int>): (Json, Result<int>)
    requires Shaped(v)
  {
    (Padded(v, p), Landed(Size(Padded(Measured(v), p)), r))
  }

  // ---------------------------------------------------------------- assignments to different fields

  ghost predicate HasKey(fs: seq<Field>, key: string) {
    GetField(fs, key).Some?
  }

  lemma {:induction false} SetCommutes(fs: seq<Field>, k: string, a: Json, l: string, b: Json)
    requires HasKey(fs, k) && k != l
    ensures SetField(SetField(fs, k, a), l, b) == SetField(SetField(fs, l, b), k, a)
  {
    if fs[0].key == k {
      var x := SetField(fs, k, a);
      assert x == [Field(k, a)] + fs[1..];
      assert x[1..] == fs[1..];
    } else if fs[0].key == l {
      var y := SetField(fs, l, b);
      assert y[1..] == fs[1..];
      assert SetField(fs, k, a)[1..] == SetField(fs[1..], k, a);
    } else {
      SetCommutes(fs[1..], k, a, l, b);
      assert SetField(fs, k, a)[1..] == SetField(fs[1..], k, a);
      assert SetField(fs, l, b)[1..] == SetField(fs[1..], l, b);
    }
  }

  lemma PutCommutes(v: Json, k: string, a: Json, l: string, b: Json)
    requires Get(v, k).Some? && k != l
    ensures v.Put(k, a).Put(l, b) == v.Put(l, b).Put(k, a)
  {
    SetCommutes(v.fields, k, a, l, b);
  }

  /** Assigning to a field and back again leaves everything else as it came to be. */
  lemma PutRestores(v: Json, k: string, a: Json, l: string, b: Json)
    requires Get(v, k).Some? && k != l
    ensures v.Put(k, a).Put(l, b).Put(k, Get(v, k).value) == v.Put(l, b)
  {
    PutLaws();
    PutCommutes(v, k, a, l, b);
    var w := v.Put(l, b);
    assert Get(v.Put(l, b), k) == Get(v, k);
    SetTwice(w.fields, k, a, Get(v, k).value);
    SetSame(w.fields, k, Get(v, k).value);
  }

  // ---------------------------------------------------------------- sizes

  /** A text of the same length in place of another. */
  lemma FillInSize(seal: Json, key: string, a: string, b: string)
    requires seal.JObj? && Base64.Plain(a) && Base64.Plain(b) && |a| == |b|
    ensures Size(FillIn(seal, key, a)) == Size(FillIn(seal, key, b))
  {
    PlainSize(a);
    PlainSize(b);
    PutSize(seal, key, JStr(a), JStr(b));
  }

  lemma FillInTwice(seal: Json, a: string, b: string, m: string, n: string)
    requires seal.JObj? && Base64.Plain(a) && Base64.Plain(b) && |a| == |b| && Base64.Plain(m) && Base64.Plain(n)
    requires |m| == |n|
    ensures Size(FillIn(FillIn(seal, SIG_KEY, a), MAC_KEY, m)) == Size(FillIn(FillIn(seal, SIG_KEY, b), MAC_KEY, n))
  {
    PutLaws();
    assert |SIG_KEY| == 9 && |MAC_KEY| == 11;
    FillInSize(FillIn(seal, SIG_KEY, a), MAC_KEY, m, n);
    if Get(seal, MAC_KEY) == Some(JStr("")) {
      SwapFills(seal, a, n);
      SwapFills(seal, b, n);
      FillInSize(seal.Put(MAC_KEY, JStr(n)), SIG_KEY, a, b);
    } else {
      FillInSize(seal, SIG_KEY, a, b);
    }
  }

  lemma SwapFills(seal: Json, a: string, n: string)
    requires seal.JObj? && Get(seal, MAC_KEY) == Some(JStr(""))
    ensures FillIn(FillIn(seal, SIG_KEY, a), MAC_KEY, n) == FillIn(seal.Put(MAC_KEY, JStr(n)), SIG_KEY, a)
  {
    PutLaws();
    assert |SIG_KEY| == 9 && |MAC_KEY| == 11;
    if Get(seal, SIG_KEY) == Some(JStr("")) {
      PutCommutes(seal, SIG_KEY, JStr(a), MAC_KEY, JStr(n));
    }
  }

  /** Once padded, the envelope keeps its size whatever proofs of the right length are filled in. */
  lemma ProofsKeepSize(v: Json, p: string, sig: string, mac: string)
    requires Shaped(v) && Base64.Plain(sig) && |sig| == SIGNATURE_LENGTH && Base64.Plain(mac) && |mac| == MAC_LENGTH
    ensures Shaped(Padded(v, p)) && Size(WithMissing(Padded(v, p), sig, mac)) == Size(Padded(Measured(v), p))
  {
    PutLaws();
    assert |SEAL_KEY| == 4 && |PADDING_KEY| == 7;
    var seal := Get(v, SEAL_KEY).value;
    var a := FillIn(FillIn(seal, SIG_KEY, sig), MAC_KEY, mac);
    var b := FillIn(FillIn(seal, SIG_KEY, Letters(SIGNATURE_LENGTH)), MAC_KEY, Letters(MAC_LENGTH));
    FillInTwice(seal, sig, Letters(SIGNATURE_LENGTH), mac, Letters(MAC_LENGTH));
    PutSize(Padded(v, p), SEAL_KEY, a, b);
    PutCommutes(v, SEAL_KEY, b, PADDING_KEY, JStr(p));
  }

  /** The printed size grows with the padding, byte for byte. */
  lemma PaddedSize(v: Json, p: string)
    requires v.JObj? && Base64.Plain(p)
    ensures Size(Padded(v, p)) == Size(Padded(v, "")) + |p|
  {
    PutSize(v, PADDING_KEY, JStr(p), JStr(""));
    PlainSize(p);
    PlainSize("");
  }

  /**
   * With a ceiling of 4096 or more (or a valid sequence) and a baseline within it: there is a bucket, the smallest that
   * fits; padding succeeds exactly when the envelope already has its size or the random source serves; and then the
   * envelope has exactly that size once its proofs are in.
   */
  lemma FillLands(v: Json, cfg: PadConfig, sig: string, mac: string) returns (bucket: int)
    requires Shaped(v) && Baseline(v) <= Ceiling(cfg)
    requires SequenceOk(cfg.sequence, Ceiling(cfg)) && (cfg.sequence == [] ==> Ceiling(cfg) >= MIN_BUCKET)
    requires Base64.Plain(sig) && |sig| == SIGNATURE_LENGTH && Base64.Plain(mac) && |mac| == MAC_LENGTH
    ensures SmallestFit(bucket, Baseline(v), Ceiling(cfg), cfg.sequence)
    ensures Fill(v, cfg).1 == if Serves(bucket - Baseline(v), cfg.rand) then Ok(bucket) else Err("did not land")
    ensures Fill(v, cfg).1.Ok? ==> Shaped(Fill(v, cfg).0) && Size(WithMissing(Fill(v, cfg).0, sig, mac)) == bucket
  {
    PickFits(Baseline(v), Ceiling(cfg), cfg.sequence);
    bucket := PickBucket(Baseline(v), Ceiling(cfg), cfg.sequence).value;
    ChooseIs(Baseline(v), cfg, bucket);
    FillOutcome(v, cfg, bucket, bucket - Baseline(v), sig, mac);
  }

  lemma FillIs(v: Json, cfg: PadConfig, chosen: (string, Result<int>))
    requires Shaped(v) && (cfg.sequence == [] || SequenceOk(cfg.sequence, Ceiling(cfg)))
    requires Choose(Baseline(v), cfg) == chosen
    ensures Fill(v, cfg) == Finish(v, chosen.0, chosen.1)
  {}

  /** With what was chosen in hand: the outcome, and the size once the proofs are in. */
  lemma FillOutcome(v: Json, cfg: PadConfig, bucket: int, target: nat, sig: string, mac: string)
    requires Shaped(v) && (cfg.sequence == [] || SequenceOk(cfg.sequence, Ceiling(cfg)))
    requires Choose(Baseline(v), cfg) == (FillerFor(target, cfg.rand), Ok(bucket)) && Baseline(v) + target == bucket
    requires Base64.Plain(sig) && |sig| == SIGNATURE_LENGTH && Base64.Plain(mac) && |mac| == MAC_LENGTH
    ensures Fill(v, cfg).1 == if Serves(target, cfg.rand) then Ok(bucket) else Err("did not land")
    ensures Fill(v, cfg).1.Ok? ==> Shaped(Fill(v, cfg).0) && Size(WithMissing(Fill(v, cfg).0, sig, mac)) == bucket
  {
    var p := FillerFor(target, cfg.rand);
    FillIs(v, cfg, (p, Ok(bucket)));
    PaddingFits(target, cfg.rand);
    FinishLands(v, p, Ok(bucket), sig, mac);
  }

  lemma FinishLands(v: Json, p: string, r: Result<int>, sig: string, mac: string)
    requires Shaped(v) && Base64.Plain(p) && r.Ok?
    requires Base64.Plain(sig) && |sig| == SIGNATURE_LENGTH && Base64.Plain(mac) && |mac| == MAC_LENGTH
    ensures var (w, last) := Finish(v, p, r);
      && last == (if Baseline(v) + |p| == r.value then r else Err("did not land"))
      && (last.Ok? ==> Shaped(w) && Size(WithMissing(w, sig, mac)) == r.value)
  {
    ChosenSize(v, p, sig, mac);
  }

  lemma ChosenSize(v: Json, p: string, sig: string, mac: string)
    requires Shaped(v) && Base64.Plain(p)
    requires Base64.Plain(sig) && |sig| == SIGNATURE_LENGTH && Base64.Plain(mac) && |mac| == MAC_LENGTH
    ensures Size(Padded(Measured(v), p)) == Baseline(v) + |p|
    ensures Shaped(Padded(v, p)) && Size(WithMissing(Padded(v, p), sig, mac)) == Baseline(v) + |p|
  {
    ProofsKeepSize(v, p, sig, mac);
    PaddedSize(Measured(v), p);
  }

  /** What is chosen to make up the difference to the bucket. */
  function FillerFor(target: nat, rand: nat -> Bytes): string {
    if target == 0 then "" else PaddingValue(target, rand)
  }

  lemma ChooseIs(base: nat, cfg: PadConfig, bucket: int)
    requires PickBucket(base, Ceiling(cfg), cfg.sequence) == Ok(bucket) && base <= bucket
    ensures Choose(base, cfg) == (FillerFor(bucket - base, cfg.rand), Ok(bucket))
  {}

  /** It makes it up exactly when the random source serves. */
  lemma PaddingFits(target: nat, rand: nat -> Bytes)
    ensures Base64.Plain(FillerFor(target, rand)) && (|FillerFor(target, rand)| == target <==> Serves(target, rand))
  {
    PaddingLength(target, rand);
  }

  /** No padding is wanted, or the random source gives what is asked for. */
  predicate Serves(target: nat, rand: nat -> Bytes) {
    target == 0 || RandServes(target, rand)
  }

  /** Real proofs have the right length. */
  lemma ProofLengths(sig: Bytes, mac: Bytes)
    requires |sig| == 64 && |mac| == 32
    ensures |Base64.Encode(sig)| == SIGNATURE_LENGTH && Base64.Plain(Base64.Encode(sig))
    ensures |Base64.Encode(mac)| == MAC_LENGTH && Base64.Plain(Base64.Encode(mac))
  {
    Base64.EncodeLength(sig);
    Base64.EncodePlain(sig);
    Base64.EncodeLength(mac);
    Base64.EncodePlain(mac);
  }

  // ---------------------------------------------------------------- with real proofs

  /** No proof yet, or one of this length. */
  predicate ProofReady(x: Option<Json>, length: nat) {
    x.Some? && x.value.JStr? && (x.value.s == "" || (Base64.Plain(x.value.s) && |x.value.s| == length))
  }

  predicate ProofsReady(seal: Json) {
    seal.JObj? && ProofReady(Get(seal, SIG_KEY), SIGNATURE_LENGTH) && ProofReady(Get(seal, MAC_KEY), MAC_LENGTH)
  }

  lemma FillInAsPut(seal: Json, key: string, text: string)
    requires seal.JObj? && Base64.Plain(text) && ProofReady(Get(seal, key), |text|)
    ensures Size(FillIn(seal, key, text)) == Size(seal.Put(key, JStr(text)))
  {
    var had := Get(seal, key).value;
    if had != JStr("") {
      SetSame(seal.fields, key, had);
      PutSize(seal, key, had, JStr(text));
      PlainSize(had.s);
      PlainSize(text);
    }
  }

  /** Proofs assigned take the place that proofs filled in would take. */
  lemma FillBothAsPut(seal: Json, sig: string, mac: string)
    requires ProofsReady(seal)
    requires Base64.Plain(sig) && |sig| == SIGNATURE_LENGTH && Base64.Plain(mac) && |mac| == MAC_LENGTH
    ensures Size(FillIn(FillIn(seal, SIG_KEY, sig), MAC_KEY, mac))
      == Size(seal.Put(SIG_KEY, JStr(sig)).Put(MAC_KEY, JStr(mac)))
  {
    PutLaws();
    assert |SIG_KEY| == 9 && |MAC_KEY| == 11;
    var filled := FillIn(seal, SIG_KEY, sig);
    FillInAsPut(filled, MAC_KEY, mac);
    if Get(seal, SIG_KEY) != Some(JStr("")) {
      var added := seal.Put(MAC_KEY, JStr(mac));
      FillInAsPut(added, SIG_KEY, sig);
      PutCommutes(seal, SIG_KEY, JStr(sig), MAC_KEY, JStr(mac));
    }
  }

  lemma ProofsAsFilled(w: Json, sig: string, mac: string)
    requires Shaped(w) && ProofsReady(Get(w, SEAL_KEY).value)
    requires Base64.Plain(sig) && |sig| == SIGNATURE_LENGTH && Base64.Plain(mac) && |mac| == MAC_LENGTH
    ensures Size(WithProofs(w, sig, mac)) == Size(WithMissing(w, sig, mac))
  {
    var seal := Get(w, SEAL_KEY).value;
    FillBothAsPut(seal, sig, mac);
    PutSize(w, SEAL_KEY, FillIn(FillIn(seal, SIG_KEY, sig), MAC_KEY, mac), seal.Put(SIG_KEY, JStr(sig)).Put(MAC_KEY,
            JStr(mac)));
  }

  lemma FillKeepsSeal(v: Json, cfg: PadConfig)
    requires Shaped(v)
    ensures Fill(v, cfg).0.JObj? && Get(Fill(v, cfg).0, SEAL_KEY) == Get(v, SEAL_KEY)
  {
    PutLaws();
    assert |SEAL_KEY| == 4 && |PADDING_KEY| == 7;
  }

  /** The scheme's signatures have 64 bytes, and the MACs 32. */
  ghost predicate UsualLengths(c: Primitives, scheme: Scheme) {
    && (forall seed, m :: |scheme.sign(seed, m)| == 64)
    && (forall key, m :: |c.mac(key, m)| == 32)
  }

  /**
   * An envelope that was padded and is then signed and authenticated, for the first time or anew, has exactly the
   * size of the smallest bucket that fits.
   */
  lemma ProvedLands(c: Primitives, scheme: Scheme, seed: Bytes, macKey: Bytes, v: Json,
      cfg: PadConfig) returns (bucket: int)
    requires Shaped(v) && ProofsReady(Get(v, SEAL_KEY).value) && Baseline(v) <= Ceiling(cfg) && UsualLengths(c, scheme)
    requires SequenceOk(cfg.sequence, Ceiling(cfg)) && (cfg.sequence == [] ==> Ceiling(cfg) >= MIN_BUCKET)
    requires Fill(v, cfg).1.Ok?
    ensures SmallestFit(bucket, Baseline(v), Ceiling(cfg), cfg.sequence) && Fill(v, cfg).1 == Ok(bucket)
    ensures Size(Prove(c, scheme, seed, macKey, Fill(v, cfg).0)) == bucket
  {
    var w := Fill(v, cfg).0;
    var signature, tag := scheme.sign(seed, SealInput(w)), c.mac(macKey, CanonicalBytes(w));
    ProofLengths(signature, tag);
    var sig, mac := Base64.Encode(signature), Base64.Encode(tag);
    bucket := FillLands(v, cfg, sig, mac);
    FillKeepsSeal(v, cfg);
    ProofsAsFilled(w, sig, mac);
  }

  // ---------------------------------------------------------------- in place

  class WireEnvelope {
    var doc: Json

    constructor (doc: Json)
      ensures this.doc == doc
    {
      this.doc := doc;
    }

    /** Placeholders go in, the padding is set, and the placeholders come out again, also when it throws. */
    method FillPadding(cfg: PadConfig) returns (r: Result<int>)
      requires Shaped(doc)
      modifies this
      ensures (doc, r) == Fill(old(doc), cfg)
    {
      if cfg.sequence != [] {
        var ok := ValidateBucketSequence(cfg.sequence, Ceiling(cfg));
        if !ok {
          return Err("bucket sequence");
        }
      }
      var seal := Get(doc, SEAL_KEY).value;
      var noSig, noMac := Get(seal, SIG_KEY) == Some(JStr("")), Get(seal, MAC_KEY) == Some(JStr(""));
      doc := doc.Put(SEAL_KEY, FillIn(FillIn(seal, SIG_KEY, Letters(SIGNATURE_LENGTH)), MAC_KEY, Letters(MAC_LENGTH)));
      var p := "";
      doc := Padded(doc, p);
      p, r := ChoosePadding(Size(doc), cfg);
      doc := Padded(doc, p);
      r := Landed(Size(doc), r);
      PaddedTwice(Measured(old(doc)), "", p);
      doc := WithoutPlaceholders(doc, noSig, noMac);
      Restored(old(doc), p);
    }
  }

  /** The proofs that were empty are emptied again. */
  function WithoutPlaceholders(v: Json, noSig: bool, noMac: bool): Json {
    var seal := Get(v, SEAL_KEY);
    if seal.None? then v else v.Put(SEAL_KEY, Emptied(Emptied(seal.value, SIG_KEY, noSig), MAC_KEY, noMac))
  }

  lemma PaddedTwice(v: Json, p: string, q: string)
    requires v.JObj?
    ensures Padded(Padded(v, p), q) == Padded(v, q)
  {
    SetTwice(v.fields, PADDING_KEY, JStr(p), JStr(q));
  }

  lemma Restored(v: Json, p: string)
    requires Shaped(v)
    ensures var noSig := Dig(v, SEAL_KEY, SIG_KEY) == Some(JStr(""));
      var noMac := Dig(v, SEAL_KEY, MAC_KEY) == Some(JStr(""));
      WithoutPlaceholders(Padded(Measured(v), p), noSig, noMac) == Padded(v, p)
  {
    var seal := Get(v, SEAL_KEY).value;
    var filled := FillIn(FillIn(seal, SIG_KEY, Letters(SIGNATURE_LENGTH)), MAC_KEY, Letters(MAC_LENGTH));
    RestoredSeal(seal, Get(seal, SIG_KEY) == Some(JStr("")), Get(seal, MAC_KEY) == Some(JStr("")));
    PutLaws();
    assert |SEAL_KEY| == 4 && |PADDING_KEY| == 7;
    PutRestores(v, SEAL_KEY, filled, PADDING_KEY, JStr(p));
  }

  function Emptied(seal: Json, key: string, wasEmpty: bool): Json {
    if wasEmpty then seal.Put(key, JStr("")) else seal
  }

  lemma RestoredSeal(seal: Json, noSig: bool, noMac: bool)
    requires seal.JObj? && noSig == (Get(seal, SIG_KEY) == Some(JStr("")))
    requires noMac == (Get(seal, MAC_KEY) == Some(JStr("")))
    ensures var filled := FillIn(FillIn(seal, SIG_KEY, Letters(SIGNATURE_LENGTH)), MAC_KEY, Letters(MAC_LENGTH));
      Emptied(Emptied(filled, SIG_KEY, noSig), MAC_KEY, noMac) == seal
  {
    PutLaws();
    assert |SIG_KEY| == 9 && |MAC_KEY| == 11;
    var a, m := JStr(Letters(SIGNATURE_LENGTH)), JStr(Letters(MAC_LENGTH));
    if noSig && noMac {
      PutRestores(seal, SIG_KEY, a, MAC_KEY, m);
      SetTwice(seal.fields, MAC_KEY, m, JStr(""));
      SetSame(seal.fields, MAC_KEY, JStr(""));
    } else if noSig {
      SetTwice(seal.fields, SIG_KEY, a, JStr(""));
      SetSame(seal.fields, SIG_KEY, JStr(""));
    } else if noMac {
      SetTwice(seal.fields, MAC_KEY, m, JStr(""));
      SetSame(seal.fields, MAC_KEY, JStr(""));
    }
  }
}
