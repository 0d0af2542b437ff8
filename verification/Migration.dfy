/**
 * The migration record and its chain of signatures.  Every pass signs the record with the values of its own slot
 * and of all later slots blanked, so each signature commits to everything but those values.
 */
module Migration {
  import opened Wrappers
  import opened Json
  import opened Signing
  import Base64

  function Prefix(): string { "SEMP-MIGRATION-RECORD:" }

  /** The slots in signing order. */
  function SlotName(i: nat): string
    requires i < 4
  {
    match i
    case 0 => "old_identity_signature"
    case 1 => "new_identity_signature"
    case 2 => "new_domain_signature"
    case 3 => "old_domain_signature"
  }

  /** The place of a key in signing order; 4 for a key that is no slot. */
  function SlotIndex(k: string): (i: nat)
    ensures i < 4 ==> k == SlotName(i)
    ensures i <= 4 && (forall j | 0 <= j < 4 :: k == SlotName(j) ==> i == j)
  {
    SlotNamesDiffer();
    if k == SlotName(0) then 0 else if k == SlotName(1) then 1 else if k == SlotName(2) then 2
    else if k == SlotName(3) then 3 else 4
  }

  lemma SlotNamesDiffer()
    ensures forall i, j | 0 <= i < j < 4 :: SlotName(i) != SlotName(j)
  {
    assert SlotName(0)[0] == 'o' && SlotName(1)[0] == 'n' && SlotName(2)[0] == 'n' && SlotName(3)[0] == 'o';
    assert |SlotName(0)| == 22 && |SlotName(1)| == 22 && |SlotName(2)| == 20 && |SlotName(3)| == 20;
  }

  const VALUE := "value"

  /** A slot object with its value blanked; anything else is left alone. */
  function BlankedField(x: Option<Json>): Option<Json> {
    if x.Some? && x.value.JObj? then Some(x.value.Put(VALUE, Blank())) else x
  }

  function BlankSlot(v: Json, name: string): Json {
    var slot := Get(v, name);
    if slot.Some? && slot.value.JObj? then v.Put(name, slot.value.Put(VALUE, Blank())) else v
  }

  /** `blankFromIndex` on a copy. */
  function BlankFrom(v: Json, i: nat): Json
    decreases 4 - i
  {
    if i >= 4 then v else BlankFrom(BlankSlot(v, SlotName(i)), i + 1)
  }

  /** The loop itself. */
  method BlankFromIndex(v: Json, from: nat) returns (view: Json)
    ensures view == BlankFrom(v, from)
  {
    view := v;
    var i := from;
    while i < 4
      invariant BlankFrom(view, i) == BlankFrom(v, from)
    {
      var slot := Get(view, SlotName(i));
      if slot.Some? && slot.value.JObj? {
        view := view.Put(SlotName(i), slot.value.Put(VALUE, Blank()));
      }
      i := i + 1;
    }
  }

  // ---------------------------------------------------------------- what blanking leaves

  lemma BlankSlotField(v: Json, name: string, k: string)
    requires v.JObj? && WellFormed(v)
    ensures BlankSlot(v, name).JObj? && WellFormed(BlankSlot(v, name))
    ensures Get(BlankSlot(v, name), k) == if k == name then BlankedField(Get(v, k)) else Get(v, k)
  {
    PutLaws();
    FieldWellFormed(v, name);
  }

  /** Blanking from `i` on changes the values of slots `i` and later, and nothing else. */
  lemma {:induction false} BlankFromField(v: Json, i: nat, k: string)
    requires v.JObj? && WellFormed(v)
    ensures BlankFrom(v, i).JObj? && WellFormed(BlankFrom(v, i))
    ensures Get(BlankFrom(v, i), k) == if i <= SlotIndex(k) < 4 then BlankedField(Get(v, k)) else Get(v, k)
    decreases 4 - i
  {
    if i < 4 {
      BlankSlotField(v, SlotName(i), k);
      BlankFromField(BlankSlot(v, SlotName(i)), i + 1, k);
    }
  }

  /** The bytes pass `i` signs. */
  function PassInput(v: Json, i: nat): Bytes {
    Prefixed(Prefix(), BlankFrom(v, i))
  }

  /** Equal under every key but `value`; or no object, and equal. */
  ghost predicate AgreeButValue(x: Option<Json>, y: Option<Json>) {
    match (x, y)
    case (None, None) => true
    case (Some(a), Some(b)) =>
      if a.JObj? && b.JObj? then forall k | k != VALUE :: AgreeAt(a, b, k)
      else !a.JObj? && !b.JObj? && Canon(a) == Canon(b)
    case _ => false
  }

  /** The records agree on every field, except for the values of slots `i` and later. */
  ghost predicate AgreesExcept(v: Json, w: Json, i: nat) {
    forall k :: AgreesOn(v, w, i, k)
  }

  ghost predicate AgreesOn(v: Json, w: Json, i: nat, k: string) {
    if i <= SlotIndex(k) < 4 then AgreeButValue(Get(v, k), Get(w, k)) else AgreeAt(v, w, k)
  }

  lemma BlankedAgree(x: Option<Json>, y: Option<Json>)
    requires (x.Some? ==> WellFormed(x.value)) && (y.Some? ==> WellFormed(y.value))
    ensures AgreeButValue(x, y) <==> Alike(BlankedField(x), BlankedField(y))
  {
    if x.Some? && y.Some? && x.value.JObj? && y.value.JObj? {
      PutLaws();
      var a, b := x.value.Put(VALUE, Blank()), y.value.Put(VALUE, Blank());
      CanonByKeys(a, b);
      assert AgreeAt(a, b, VALUE);
      assert forall k | k != VALUE :: AgreeAt(a, b, k) <==> AgreeAt(x.value, y.value, k);
    } else if x.Some? && y.Some? && (x.value.JObj? || y.value.JObj?) {
      PutLaws();
    }
  }

  ghost predicate Alike(x: Option<Json>, y: Option<Json>) {
    match (x, y)
    case (Some(a), Some(b)) => Canon(a) == Canon(b)
    case (None, None) => true
    case _ => false
  }

  /** What a pass commits to: two records have the same signing input exactly when they agree but for later values. */
  lemma PassCommits(v: Json, w: Json, i: nat)
    requires WellFormed(v) && v.JObj? && WellFormed(w) && w.JObj?
    ensures PassInput(v, i) == PassInput(w, i) <==> AgreesExcept(v, w, i)
  {
    var a, b := BlankFrom(v, i), BlankFrom(w, i);
    BlankFromField(v, i, "");
    BlankFromField(w, i, "");
    PrefixedInjective(Prefix(), a, b);
    CanonByKeys(a, b);
    forall k ensures AgreesOn(v, w, i, k) <==> AgreeAt(a, b, k) {
      BlankFromField(v, i, k);
      BlankFromField(w, i, k);
      FieldWellFormed(v, k);
      FieldWellFormed(w, k);
      BlankedAgree(Get(v, k), Get(w, k));
    }
  }

  // ---------------------------------------------------------------- signing and verifying a slot

  /** The slot is an object whose value is not the empty string. */
  predicate Filled(v: Json, i: nat)
    requires i < 4
  {
    Get(v, SlotName(i)).Some? && Get(v, SlotName(i)).value.JObj? && Dig(v, SlotName(i), VALUE) != Some(JStr(""))
  }

  /** The passes before `i` have been made; the last pass is for cooperative records only. */
  predicate MaySign(v: Json, i: nat)
    requires i < 4
  {
    (forall m | 0 <= m < 3 && m < i :: Filled(v, m)) && (i == 3 ==> Get(v, "mode") == Some(JStr("cooperative")))
  }

  /** The record with the signature of pass `i` in its slot. */
  function PutValue(v: Json, i: nat, text: string): Json
    requires i < 4
  {
    var slot := Get(v, SlotName(i));
    if slot.Some? then v.Put(SlotName(i), slot.value.Put(VALUE, JStr(text))) else v
  }

  /** One signing pass: the order guards, then `signSlot`. */
  function SignPass(c: Scheme, v: Json, i: nat, seed: Bytes, keyId: string): Result<Json>
    requires i < 4
  {
    var slot := Get(v, SlotName(i));
    if !MaySign(v, i) then Err("pass order")
    else if slot.None? || !slot.value.JObj? then Err("slot")
    else if Get(slot.value, "algorithm") == Some(JStr("")) || Get(slot.value, "key_id") == Some(JStr(""))
    then Err("prepare")
    else if Get(slot.value, "key_id") != Some(JStr(keyId)) then Err("key_id")
    else Ok(PutValue(v, i, Base64.Encode(c.sign(seed, PassInput(v, i)))))
  }

  predicate VerifySlot(c: Scheme, v: Json, i: nat, pub: Bytes)
    requires i < 4
  {
    var value := Dig(v, SlotName(i), VALUE);
    && value.Some? && value.value.JStr? && value.value.s != ""
    && c.verify(pub, Base64.Decode(value.value.s), PassInput(v, i))
  }

  lemma PutValueFields(v: Json, i: nat, text: string, k: string)
    requires i < 4 && v.JObj? && WellFormed(v) && Get(v, SlotName(i)).Some? && Get(v, SlotName(i)).value.JObj?
    ensures var w := PutValue(v, i, text);
      && w.JObj? && WellFormed(w)
      && (k != SlotName(i) ==> Get(w, k) == Get(v, k))
      && Get(w, SlotName(i)) == Some(Get(v, SlotName(i)).value.Put(VALUE, JStr(text)))
      && Dig(w, SlotName(i), VALUE) == Some(JStr(text))
  {
    PutLaws();
    FieldWellFormed(v, SlotName(i));
  }

  /** Setting the value of a slot leaves the signing input of that pass and of every earlier one as it was. */
  lemma PutValueKeepsInputs(v: Json, i: nat, text: string, m: nat)
    requires m <= i < 4 && v.JObj? && WellFormed(v) && Get(v, SlotName(i)).Some? && Get(v, SlotName(i)).value.JObj?
    ensures PassInput(PutValue(v, i, text), m) == PassInput(v, m)
  {
    var w := PutValue(v, i, text);
    PutValueFields(v, i, text, "");
    PassCommits(w, v, m);
    forall k ensures AgreesOn(w, v, m, k) {
      PutValueFields(v, i, text, k);
      if k == SlotName(i) {
        var slot := Get(v, k).value;
        PutLaws();
        assert forall j | j != VALUE :: Get(slot.Put(VALUE, JStr(text)), j) == Get(slot, j);
      }
    }
  }

  /** A pass verifies under its key, and every earlier pass verifies exactly as it did. */
  lemma SignKeepsEarlier(c: Scheme, v: Json, i: nat, seed: Bytes, keyId: string)
    requires i < 4 && Sound(c) && v.JObj? && WellFormed(v) && SignPass(c, v, i, seed, keyId).Ok?
    ensures var w := SignPass(c, v, i, seed, keyId).value;
      && w.JObj? && WellFormed(w)
      && VerifySlot(c, w, i, c.pub(seed)) && Filled(w, i)
      && forall m, pub | 0 <= m < i :: VerifySlot(c, w, m, pub) == VerifySlot(c, v, m, pub)
  {
    var sig := c.sign(seed, PassInput(v, i));
    var w := PutValue(v, i, Base64.Encode(sig));
    PutValueFields(v, i, Base64.Encode(sig), "");
    SignatureText(sig);
    PutValueKeepsInputs(v, i, Base64.Encode(sig), i);
    forall m, pub | 0 <= m < i ensures VerifySlot(c, w, m, pub) == VerifySlot(c, v, m, pub) {
      SlotNamesDiffer();
      PutValueFields(v, i, Base64.Encode(sig), SlotName(m));
      PutValueKeepsInputs(v, i, Base64.Encode(sig), m);
    }
  }

  // ---------------------------------------------------------------- what a verified record commits its signers to

  /** One signing pass somewhere: by which key, over which record. */
  datatype Signed = Signed(pub: Bytes, record: Json, pass: nat)

  /** The log holds what the signing passes made: each saw the earlier slots filled and its own slot prepared. */
  ghost predicate LogOk(log: seq<Signed>) {
    forall k | 0 <= k < |log| :: EntryOk(log[k])
  }

  ghost predicate EntryOk(x: Signed) {
    && x.pass < 4 && WellFormed(x.record) && x.record.JObj? && MaySign(x.record, x.pass)
    && Get(x.record, SlotName(x.pass)).Some? && Get(x.record, SlotName(x.pass)).value.JObj?
  }

  /** Ideal signatures: if the key accepts what is in slot `i`, its holder signed exactly that input. */
  ghost predicate Genuine(c: Scheme, log: seq<Signed>, v: Json, i: nat, pub: Bytes)
    requires i < 4
  {
    var value := Dig(v, SlotName(i), VALUE);
    value.Some? && value.value.JStr? && c.verify(pub, Base64.Decode(value.value.s), PassInput(v, i)) ==>
      exists k :: 0 <= k < |log| && log[k].pub == pub && PassInput(log[k].record, log[k].pass) == PassInput(v, i)
  }

  /** The first passes verify, up to and including pass `i`. */
  predicate VerifiedTo(c: Scheme, v: Json, i: nat, pubs: seq<Bytes>)
    requires i < |pubs| <= 4
  {
    forall m | 0 <= m <= i :: VerifySlot(c, v, m, pubs[m])
  }

  /** Two records signed at different passes have different signing inputs. */
  lemma PassesDiffer(v: Json, i: nat, w: Json, j: nat)
    requires i < j < 4 && WellFormed(v) && v.JObj? && WellFormed(w) && w.JObj?
    requires Get(v, SlotName(i)).Some? && Get(v, SlotName(i)).value.JObj? && Filled(w, i)
    ensures PassInput(v, i) != PassInput(w, j)
  {
    var a, b, k := BlankFrom(v, i), BlankFrom(w, j), SlotName(i);
    BlankFromField(v, i, k);
    BlankFromField(w, j, k);
    PutLaws();
    assert Dig(a, k, VALUE) == Some(Blank());
    assert Dig(b, k, VALUE) == Dig(w, k, VALUE);
    PrefixedInjective(Prefix(), a, b);
    if Canon(a) == Canon(b) {
      CanonReadsAlike(a, b);
      assert false;
    }
  }

  /**
   * A signature accepted at pass `i` of a chain was made at pass `i`, over a record that agrees with this one on
   * every field except the values of slots `i` and later.
   */
  lemma Committed(c: Scheme, v: Json, i: nat, pubs: seq<Bytes>, log: seq<Signed>)
    requires i < |pubs| <= 4 && WellFormed(v) && v.JObj? && LogOk(log)
    requires VerifiedTo(c, v, i, pubs) && Genuine(c, log, v, i, pubs[i])
    ensures exists k :: 0 <= k < |log| && log[k].pub == pubs[i] && log[k].pass == i && AgreesExcept(v, log[k].record, i)
  {
    assert VerifySlot(c, v, i, pubs[i]);
    var k :| 0 <= k < |log| && log[k].pub == pubs[i] && PassInput(log[k].record, log[k].pass) == PassInput(v, i);
    assert EntryOk(log[k]);
    var w, j := log[k].record, log[k].pass;
    if j < i {
      VerifiedFilled(c, v, j, pubs[j]);
      PassesDiffer(w, j, v, i);
    } else if i < j {
      VerifiedFilled(c, v, i, pubs[i]);
      assert i < 3 && Filled(w, i);
      PassesDiffer(v, i, w, j);
    }
    PassCommits(v, w, i);
  }

  lemma VerifiedFilled(c: Scheme, v: Json, i: nat, pub: Bytes)
    requires i < 4 && VerifySlot(c, v, i, pub)
    ensures Filled(v, i)
  {
    assert Get(v, SlotName(i)).value.JObj?;
  }

  /**
   * Tampering shows: a record unlike all that the key signed at pass `i` fails, however its signatures were come by.
   */
  lemma TamperingShows(c: Scheme, v: Json, i: nat, pubs: seq<Bytes>, log: seq<Signed>)
    requires i < |pubs| <= 4 && WellFormed(v) && v.JObj? && LogOk(log)
    requires forall n | 0 <= n < |log| && log[n].pub == pubs[i] && log[n].pass == i ::
      !AgreesExcept(v, log[n].record, i)
    requires Genuine(c, log, v, i, pubs[i])
    ensures !VerifiedTo(c, v, i, pubs)
  {
    if VerifiedTo(c, v, i, pubs) {
      Committed(c, v, i, pubs, log);
      assert false;
    }
  }

  // ---------------------------------------------------------------- runs of signing calls

  /** A call of a signing pass, by whoever holds the seed, over whatever record. */
  datatype Call = Call(record: Json, pass: nat, seed: Bytes, keyId: string)

  ghost predicate CallOk(x: Call) {
    x.pass < 4 && WellFormed(x.record) && x.record.JObj?
  }

  ghost predicate CallsOk(calls: seq<Call>) {
    forall k | 0 <= k < |calls| :: CallOk(calls[k])
  }

  /** The call is one that signs: it does not throw. */
  predicate Made(c: Scheme, x: Call) {
    x.pass < 4 && SignPass(c, x.record, x.pass, x.seed, x.keyId).Ok?
  }

  /** What has been signed after these calls. */
  function LogOf(c: Scheme, calls: seq<Call>): seq<Signed> {
    if calls == [] then []
    else
      var x := calls[|calls| - 1];
      LogOf(c, calls[..|calls| - 1]) + if Made(c, x) then [Signed(c.pub(x.seed), x.record, x.pass)] else []
  }

  /** A pass that is made found the earlier slots filled and its own slot prepared. */
  lemma PassMakesEntry(c: Scheme, x: Call)
    requires CallOk(x) && Made(c, x)
    ensures EntryOk(Signed(c.pub(x.seed), x.record, x.pass))
  {}

  ghost predicate IsSigned(c: Scheme, x: Call, y: Signed) {
    Made(c, x) && y == Signed(c.pub(x.seed), x.record, x.pass)
  }

  /** The log holds nothing but what these calls signed. */
  ghost predicate SignedBy(c: Scheme, log: seq<Signed>, calls: seq<Call>) {
    forall n | 0 <= n < |log| :: exists k :: 0 <= k < |calls| && IsSigned(c, calls[k], log[n])
  }

  /** Every entry of the log is in order and stems from a call that signed. */
  lemma {:induction false} LogOfSays(c: Scheme, calls: seq<Call>)
    requires CallsOk(calls)
    ensures LogOk(LogOf(c, calls)) && SignedBy(c, LogOf(c, calls), calls)
  {
    if calls != [] {
      var front, x := calls[..|calls| - 1], calls[|calls| - 1];
      LogOfSays(c, front);
      assert CallOk(x);
      if Made(c, x) {
        PassMakesEntry(c, x);
      }
      LogGrows(c, LogOf(c, front), front, x);
      assert front + [x] == calls;
    }
  }

  lemma LogGrows(c: Scheme, log: seq<Signed>, calls: seq<Call>, x: Call)
    requires SignedBy(c, log, calls)
    ensures SignedBy(c, log, calls + [x])
    ensures Made(c, x) ==> SignedBy(c, log + [Signed(c.pub(x.seed), x.record, x.pass)], calls + [x])
  {
    forall n | 0 <= n < |log| ensures exists k :: 0 <= k < |calls + [x]| && IsSigned(c, (calls + [x])[k], log[n]) {
      var k :| 0 <= k < |calls| && IsSigned(c, calls[k], log[n]);
      assert IsSigned(c, (calls + [x])[k], log[n]);
    }
    if Made(c, x) {
      assert IsSigned(c, (calls + [x])[|calls|], Signed(c.pub(x.seed), x.record, x.pass));
    }
  }

  /** A call at this pass that signed, under this key, a record that agrees with this one but for later values. */
  ghost predicate CommittedBy(c: Scheme, v: Json, i: nat, pub: Bytes, x: Call) {
    Made(c, x) && c.pub(x.seed) == pub && x.pass == i && AgreesExcept(v, x.record, i)
  }

  lemma CommittedFromLog(c: Scheme, v: Json, i: nat, pubs: seq<Bytes>, log: seq<Signed>, calls: seq<Call>)
    requires i < |pubs| <= 4 && WellFormed(v) && v.JObj? && LogOk(log) && SignedBy(c, log, calls)
    requires VerifiedTo(c, v, i, pubs) && Genuine(c, log, v, i, pubs[i])
    ensures exists k :: 0 <= k < |calls| && CommittedBy(c, v, i, pubs[i], calls[k])
  {
    Committed(c, v, i, pubs, log);
    var n :| 0 <= n < |log| && log[n].pub == pubs[i] && log[n].pass == i && AgreesExcept(v, log[n].record, i);
    var k :| 0 <= k < |calls| && IsSigned(c, calls[k], log[n]);
    assert CommittedBy(c, v, i, pubs[i], calls[k]);
  }

  /** After any signing calls: what is accepted at pass `i` of a chain was signed by such a call. */
  lemma CommittedInRuns(c: Scheme, v: Json, i: nat, pubs: seq<Bytes>, calls: seq<Call>)
    requires i < |pubs| <= 4 && WellFormed(v) && v.JObj? && CallsOk(calls)
    requires VerifiedTo(c, v, i, pubs) && Genuine(c, LogOf(c, calls), v, i, pubs[i])
    ensures exists k :: 0 <= k < |calls| && CommittedBy(c, v, i, pubs[i], calls[k])
  {
    LogOfSays(c, calls);
    CommittedFromLog(c, v, i, pubs, LogOf(c, calls), calls);
  }

  /** After any signing calls: a record that none of the key's calls at pass `i` committed to fails. */
  lemma TamperingShowsInRuns(c: Scheme, v: Json, i: nat, pubs: seq<Bytes>, calls: seq<Call>)
    requires i < |pubs| <= 4 && WellFormed(v) && v.JObj? && CallsOk(calls)
    requires forall k | 0 <= k < |calls| :: !CommittedBy(c, v, i, pubs[i], calls[k])
    requires Genuine(c, LogOf(c, calls), v, i, pubs[i])
    ensures !VerifiedTo(c, v, i, pubs)
  {
    if VerifiedTo(c, v, i, pubs) {
      CommittedInRuns(c, v, i, pubs, calls);
      assert false;
    }
  }
}
