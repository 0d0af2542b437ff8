/** Composing, submitting and accepting a migration record: the chain of passes end to end. */
module MigrationFlow {
  import opened Wrappers
  import opened Json
  import opened Signing
  import opened Migration
  import opened Lockout
  import Base64

  /** Date.parse, and toISOString cut to whole seconds; None stands for NaN and for the RangeError. */
  datatype Clock = Clock(parse: string -> Option<int>, iso: int -> Option<string>)

  /** A printed time reads back as its whole second. */
  ghost predicate ClockOk(clock: Clock) {
    forall ms | clock.iso(ms).Some? ::
      clock.iso(ms).value != "" && clock.parse(clock.iso(ms).value) == Some(ms - ms % 1000)
  }

  const DAY := 24 * 60 * 60 * 1000
  const MIN_NOTICE := 30 * DAY
  const MAX_NOTICE := 730 * DAY

  function Cooperative(): string { "cooperative" }
  function Unilateral(): string { "unilateral" }

  // ---------------------------------------------------------------- the record

  datatype Body = Body(recordId: string, oldAddress: string, newAddress: string, oldKeyId: string, newKeyId: string,
                       newPublicKey: string, migratedAt: string, until: Option<string>, mode: string)

  function Block(algorithm: string, keyId: string): Json {
    JObj([Field("algorithm", JStr(algorithm)), Field("key_id", JStr(keyId)), Field(VALUE, JStr(""))])
  }

  lemma BlockShape(algorithm: string, keyId: string)
    ensures var v := Block(algorithm, keyId);
      && WellFormed(v) && v.JObj? && Get(v, "algorithm") == Some(JStr(algorithm))
      && Get(v, "key_id") == Some(JStr(keyId))
      && Get(v, VALUE) == Some(JStr(""))
  {
    var fs := Block(algorithm, keyId).fields;
    TagsDistinct(fs, [641389, 447588, 387941]);
    assert fs[0].key == "algorithm" && fs[1].key == "key_id" && fs[2].key == VALUE;
  }

  function UntilJson(until: Option<string>): Json {
    if until.Some? then JStr(until.value) else JNull
  }

  function NewRecord(b: Body): Json {
    JObj([Field("type", JStr("SEMP_MIGRATION")), Field("version", JStr("1.0.0")), Field("record_id", JStr(b.recordId)),
          Field("old_address", JStr(b.oldAddress)), Field("new_address", JStr(b.newAddress)),
          Field("old_identity_key_id", JStr(b.oldKeyId)), Field("new_identity_key_id", JStr(b.newKeyId)),
          Field("new_identity_public_key", JStr(b.newPublicKey)), Field("migrated_at", JStr(b.migratedAt)),
          Field("notice_window_until", UntilJson(b.until)), Field("mode", JStr(b.mode)),
          Field("old_identity_signature", Block("", "")), Field("new_identity_signature", Block("", "")),
          Field("new_domain_signature", Block("", "")), Field("old_domain_signature", JNull)])
  }

  function RecordTags(): seq<nat> {
    [320613, 517486, 645988, 778867, 778611, 1300580, 1300324, 1561465, 773748, 1300332, 315749, 1499493, 1499237,
     1368165, 1368421]
  }

  lemma RecordTagsDiffer()
    ensures AllDiffer(RecordTags())
  {}

  lemma RecordTagged(b: Body)
    ensures Tagged(NewRecord(b).fields, RecordTags())
  {
    RecordTagsDiffer();
  }

  lemma RecordValues(b: Body)
    ensures var fs := NewRecord(b).fields; forall i | 0 <= i < |fs| :: WellFormed(fs[i].value)
  {
    BlockShape("", "");
  }

  lemma RecordReads(b: Body)
    ensures WellFormed(NewRecord(b))
    ensures var fs := NewRecord(b).fields; forall i | 0 <= i < |fs| :: GetField(fs, fs[i].key) == Some(fs[i].value)
  {
    RecordTagged(b);
    RecordValues(b);
    TagsDistinct(NewRecord(b).fields, RecordTags());
  }

  /** The record says what it was built from. */
  ghost predicate Says(v: Json, b: Body) {
    WellFormed(v) && v.JObj? && SaysWho(v, b) && SaysWhen(v, b)
  }

  ghost predicate SaysWho(v: Json, b: Body) {
    && Get(v, "type") == Some(JStr("SEMP_MIGRATION")) && Get(v, "version") == Some(JStr("1.0.0"))
    && Get(v, "record_id") == Some(JStr(b.recordId)) && Get(v, "old_address") == Some(JStr(b.oldAddress))
    && Get(v, "new_address") == Some(JStr(b.newAddress)) && Get(v, "old_identity_key_id") == Some(JStr(b.oldKeyId))
  }

  ghost predicate SaysWhen(v: Json, b: Body) {
    && Get(v, "new_identity_key_id") == Some(JStr(b.newKeyId))
    && Get(v, "new_identity_public_key") == Some(JStr(b.newPublicKey))
    && Get(v, "migrated_at") == Some(JStr(b.migratedAt)) && Get(v, "notice_window_until") == Some(UntilJson(b.until))
    && Get(v, "mode") == Some(JStr(b.mode))
  }

  lemma RecordSays(b: Body)
    ensures Says(NewRecord(b), b)
  {
    RecordReads(b);
    RecordSaysWho(b);
    RecordSaysWhen(b);
  }

  lemma RecordSaysWho(b: Body)
    ensures SaysWho(NewRecord(b), b)
  {
    RecordReads(b);
    var fs := NewRecord(b).fields;
    assert fs[0].key == "type" && fs[1].key == "version" && fs[2].key == "record_id" && fs[3].key == "old_address";
    assert fs[4].key == "new_address" && fs[5].key == "old_identity_key_id";
  }

  lemma RecordSaysWhen(b: Body)
    ensures SaysWhen(NewRecord(b), b)
  {
    RecordReads(b);
    var fs := NewRecord(b).fields;
    assert fs[6].key == "new_identity_key_id" && fs[7].key == "new_identity_public_key" && fs[8].key == "migrated_at";
    assert fs[9].key == "notice_window_until" && fs[10].key == "mode";
  }

  // ---------------------------------------------------------------- validation

  predicate Text(x: Option<Json>) {
    x.Some? && x.value.JStr? && x.value.s != ""
  }

  function TextOf(x: Option<Json>): string {
    if x.Some? && x.value.JStr? then x.value.s else ""
  }

  predicate IsCooperative(v: Json) {
    Get(v, "mode") == Some(JStr(Cooperative()))
  }

  /** The notice window in milliseconds, when both ends can be read. */
  function Window(clock: Clock, v: Json): Option<int> {
    var from, to := clock.parse(TextOf(Get(v, "migrated_at"))), clock.parse(TextOf(Get(v, "notice_window_until")));
    if from.Some? && to.Some? then Some(to.value - from.value) else None
  }

  predicate WindowOk(clock: Clock, v: Json) {
    var w := Window(clock, v);
    Text(Get(v, "notice_window_until")) && w.Some? && MIN_NOTICE <= w.value <= MAX_NOTICE
  }

  predicate HeadOk(clock: Clock, v: Json) {
    && Get(v, "type") == Some(JStr("SEMP_MIGRATION"))
    && Text(Get(v, "version")) && Text(Get(v, "record_id")) && Text(Get(v, "old_address"))
    && Text(Get(v, "new_address"))
    && Text(Get(v, "old_identity_key_id")) && Text(Get(v, "new_identity_key_id"))
    && Text(Get(v, "new_identity_public_key")) && Text(Get(v, "migrated_at"))
    && clock.parse(TextOf(Get(v, "migrated_at"))).Some?
    && (IsCooperative(v) || Get(v, "mode") == Some(JStr(Unilateral())))
    && (IsCooperative(v) ==> WindowOk(clock, v))
  }

  predicate SlotOk(v: Json, i: nat)
    requires i < 4
  {
    && Text(Dig(v, SlotName(i), "algorithm")) && Text(Dig(v, SlotName(i), "key_id"))
    && Dig(v, SlotName(i), VALUE).Some? && Dig(v, SlotName(i), VALUE).value.JStr?
  }

  /** `validateMigrationRecord` does not throw. */
  predicate Valid(clock: Clock, v: Json) {
    && HeadOk(clock, v) && (forall i | 0 <= i < 3 :: SlotOk(v, i))
    && (if IsCooperative(v) then Dig(v, SlotName(3), VALUE).Some? && Dig(v, SlotName(3), VALUE).value.JStr?
        else Get(v, SlotName(3)) == Some(JNull))
  }

  // ---------------------------------------------------------------- preparing the slots

  function PrepareThree(v: Json, ids: seq<string>): Json
    requires |ids| == 3
  {
    v.Put(SlotName(0), Block("ed25519", ids[0])).Put(SlotName(1), Block("ed25519", ids[1]))
      .Put(SlotName(2), Block("ed25519", ids[2]))
  }

  function Prepare(v: Json, ids: seq<string>, oldDomainKeyId: Option<string>): Result<Json>
    requires |ids| == 3
  {
    var w := PrepareThree(v, ids);
    if IsCooperative(v) then
      if oldDomainKeyId.None? || oldDomainKeyId.value == "" then Err("oldDomainKeyId")
      else Ok(w.Put(SlotName(3), Block("ed25519", oldDomainKeyId.value)))
    else Ok(w.Put(SlotName(3), JNull))
  }

  /** Slot `i` is prepared for a key, or, the last one of a unilateral record, null. */
  ghost predicate Prepared(v: Json, i: nat, keyId: Option<string>)
    requires i < 4
  {
    if keyId.None? then Get(v, SlotName(i)) == Some(JNull)
    else
      && Get(v, SlotName(i)).Some? && Get(v, SlotName(i)).value.JObj?
      && Dig(v, SlotName(i), "algorithm") == Some(JStr("ed25519"))
      && Dig(v, SlotName(i), "key_id") == Some(JStr(keyId.value))
      && Dig(v, SlotName(i), VALUE).Some? && Dig(v, SlotName(i), VALUE).value.JStr?
  }

  lemma PrepareFields(v: Json, ids: seq<string>, last: Option<string>, k: string)
    requires |ids| == 3 && WellFormed(v) && v.JObj? && Prepare(v, ids, last).Ok?
    ensures var w := Prepare(v, ids, last).value;
      && WellFormed(w) && w.JObj?
      && (SlotIndex(k) == 4 ==> Get(w, k) == Get(v, k))
      && (SlotIndex(k) < 3 ==> Get(w, k) == Some(Block("ed25519", ids[SlotIndex(k)])))
      && (SlotIndex(k) == 3 ==> Get(w, k) == Some(if IsCooperative(v) then Block("ed25519", last.value) else JNull))
  {
    PutLaws();
    SlotNamesDiffer();
    BlockShape("ed25519", ids[0]);
    BlockShape("ed25519", ids[1]);
    BlockShape("ed25519", ids[2]);
    if IsCooperative(v) {
      BlockShape("ed25519", last.value);
    }
  }

  /** The record says `b` and its slots are prepared for these keys. */
  ghost predicate Ready(v: Json, b: Body, ids: seq<string>, last: Option<string>)
    requires |ids| == 3
  {
    && Says(v, b) && (forall i | 0 <= i < 3 :: Prepared(v, i, Some(ids[i]))) && Prepared(v, 3, last)
    && (last.Some? <==> b.mode == Cooperative())
  }

  lemma PrepareReady(v: Json, b: Body, ids: seq<string>, last: Option<string>)
    requires |ids| == 3 && Says(v, b)
    ensures Prepare(v, ids, last).Ok? <==> (b.mode == Cooperative() ==> last.Some? && last.value != "")
    ensures Prepare(v, ids, last).Ok? ==>
      Ready(Prepare(v, ids, last).value, b, ids, if b.mode == Cooperative() then last else None)
  {
    var r := Prepare(v, ids, last);
    if r.Ok? {
      PrepareSays(v, b, ids, last);
      forall i | 0 <= i < 3 ensures Prepared(r.value, i, Some(ids[i])) {
        PrepareFields(v, ids, last, SlotName(i));
        assert SlotIndex(SlotName(i)) == i;
        BlockShape("ed25519", ids[i]);
      }
      PrepareFields(v, ids, last, SlotName(3));
      assert SlotIndex(SlotName(3)) == 3;
      if last.Some? {
        BlockShape("ed25519", last.value);
      }
    }
  }

  /** Neither a slot's key, which has twenty characters or more and ends in an e, nor `extensions`. */
  predicate Plain(k: string) {
    (|k| < 20 || k[|k| - 1] != 'e') && (|k| != 10 || k[0] != 'e')
  }

  lemma PlainIsNoSlot(k: string)
    requires Plain(k)
    ensures SlotIndex(k) == 4
  {
    assert forall i | 0 <= i < 4 :: SlotName(i)[|SlotName(i)| - 1] == 'e' && |SlotName(i)| >= 20;
  }

  ghost predicate SameBody(v: Json, w: Json) {
    forall k | Plain(k) :: Get(v, k) == Get(w, k)
  }

  lemma SameBodySays(v: Json, w: Json, b: Body)
    requires Says(v, b) && SameBody(v, w) && WellFormed(w) && w.JObj?
    ensures Says(w, b)
  {}

  lemma PrepareSays(v: Json, b: Body, ids: seq<string>, last: Option<string>)
    requires |ids| == 3 && Says(v, b) && Prepare(v, ids, last).Ok?
    ensures Says(Prepare(v, ids, last).value, b)
  {
    PrepareFields(v, ids, last, "");
    forall k | Plain(k) ensures Get(v, k) == Get(Prepare(v, ids, last).value, k) {
      PlainIsNoSlot(k);
      PrepareFields(v, ids, last, k);
    }
    SameBodySays(v, Prepare(v, ids, last).value, b);
  }

  // ---------------------------------------------------------------- the chain

  /** The record is ready and its first `n` passes are made and verify under these keys. */
  ghost predicate Chained(c: Scheme, v: Json, b: Body, ids: seq<string>, last: Option<string>, n: nat, pubs: seq<Bytes>)
    requires |ids| == 3 && n <= |pubs| <= 4
  {
    Ready(v, b, ids, last) && forall m | 0 <= m < n :: VerifySlot(c, v, m, pubs[m])
  }

  function KeyIdOf(ids: seq<string>, last: Option<string>, i: nat): Option<string>
    requires |ids| == 3 && i < 4
  {
    if i < 3 then Some(ids[i]) else last
  }

  lemma PutValuePrepared(v: Json, i: nat, text: string, m: nat, keyId: Option<string>)
    requires i < 4 && m < 4 && WellFormed(v) && v.JObj? && Prepared(v, m, keyId)
    requires Get(v, SlotName(i)).Some? && Get(v, SlotName(i)).value.JObj?
    ensures Prepared(PutValue(v, i, text), m, keyId)
  {
    SlotNamesDiffer();
    PutValueFields(v, i, text, SlotName(m));
    PutLaws();
    assert |VALUE| == 5;
  }

  lemma PutValueSays(v: Json, b: Body, i: nat, text: string)
    requires i < 4 && Says(v, b) && Get(v, SlotName(i)).Some? && Get(v, SlotName(i)).value.JObj?
    ensures Says(PutValue(v, i, text), b)
  {
    PutValueFields(v, i, text, "");
    forall k | Plain(k) ensures Get(v, k) == Get(PutValue(v, i, text), k) {
      PlainIsNoSlot(k);
      PutValueFields(v, i, text, k);
    }
    SameBodySays(v, PutValue(v, i, text), b);
  }

  /** A value in a slot keeps the record ready. */
  lemma PutValueReady(v: Json, b: Body, ids: seq<string>, last: Option<string>, i: nat, text: string)
    requires |ids| == 3 && i < 4 && Ready(v, b, ids, last)
    requires Get(v, SlotName(i)).Some? && Get(v, SlotName(i)).value.JObj?
    ensures Ready(PutValue(v, i, text), b, ids, last)
  {
    PutValueSays(v, b, i, text);
    forall m | 0 <= m < 3 ensures Prepared(PutValue(v, i, text), m, Some(ids[m])) {
      PutValuePrepared(v, i, text, m, Some(ids[m]));
    }
    PutValuePrepared(v, i, text, 3, last);
  }

  lemma SignKeepsReady(c: Scheme, v: Json, b: Body, ids: seq<string>, last: Option<string>, i: nat, seed: Bytes,
      keyId: string)
    requires |ids| == 3 && i < 4 && Ready(v, b, ids, last) && SignPass(c, v, i, seed, keyId).Ok?
    ensures Ready(SignPass(c, v, i, seed, keyId).value, b, ids, last)
  {
    PutValueReady(v, b, ids, last, i, Base64.Encode(c.sign(seed, PassInput(v, i))));
  }

  /** When the next pass can be made: its key id is the one prepared and is not empty. */
  lemma NextPass(c: Scheme, v: Json, b: Body, ids: seq<string>, last: Option<string>, i: nat, pubs: seq<Bytes>,
      seed: Bytes, keyId: string)
    requires Sound(c) && |ids| == 3 && i < |pubs| <= 4 && pubs[i] == c.pub(seed) && Chained(c, v, b, ids, last, i, pubs)
    ensures SignPass(c, v, i, seed, keyId).Ok? <==> KeyIdOf(ids, last, i) == Some(keyId) && keyId != ""
    ensures SignPass(c, v, i, seed, keyId).Ok? ==>
      Chained(c, SignPass(c, v, i, seed, keyId).value, b, ids, last, i + 1, pubs)
  {
    PassWhen(c, v, b, ids, last, i, pubs, seed, keyId);
    if SignPass(c, v, i, seed, keyId).Ok? {
      SignKeepsEarlier(c, v, i, seed, keyId);
      SignKeepsReady(c, v, b, ids, last, i, seed, keyId);
    }
  }

  lemma PassWhen(c: Scheme, v: Json, b: Body, ids: seq<string>, last: Option<string>, i: nat, pubs: seq<Bytes>,
      seed: Bytes, keyId: string)
    requires |ids| == 3 && i < |pubs| <= 4 && Chained(c, v, b, ids, last, i, pubs)
    ensures SignPass(c, v, i, seed, keyId).Ok? <==> KeyIdOf(ids, last, i) == Some(keyId) && keyId != ""
  {
    forall m | 0 <= m < i ensures Filled(v, m) {
      VerifiedFilled(c, v, m, pubs[m]);
    }
    assert Prepared(v, i, KeyIdOf(ids, last, i));
  }

  // ---------------------------------------------------------------- verification

  /** `verifyMigrationRecord`; Err when validation throws. */
  function VerifyRecord(c: Scheme, clock: Clock, v: Json, pubs: seq<Bytes>, lastPub: Option<Bytes>): Result<bool>
    requires |pubs| == 3
  {
    if !Valid(clock, v) then Err("invalid")
    else if exists m | 0 <= m < 3 :: !VerifySlot(c, v, m, pubs[m]) then Ok(false)
    else if IsCooperative(v) then Ok(lastPub.Some? && lastPub.value != [] && VerifySlot(c, v, 3, lastPub.value))
    else Ok(true)
  }

  /** What a record must be built from to be valid. */
  predicate BodyOk(clock: Clock, b: Body) {
    && b.recordId != "" && b.oldAddress != "" && b.newAddress != "" && b.oldKeyId != "" && b.newKeyId != ""
    && b.newPublicKey != "" && b.migratedAt != "" && clock.parse(b.migratedAt).Some?
    && (b.mode == Cooperative() || b.mode == Unilateral())
    && (b.mode == Cooperative() ==>
          b.until.Some? && b.until.value != "" && clock.parse(b.until.value).Some?
          && MIN_NOTICE <= clock.parse(b.until.value).value - clock.parse(b.migratedAt).value <= MAX_NOTICE)
  }

  lemma HeadOkIff(clock: Clock, v: Json, b: Body)
    requires Says(v, b)
    ensures HeadOk(clock, v) <==> BodyOk(clock, b)
  {
    assert IsCooperative(v) <==> b.mode == Cooperative();
  }

  lemma ValidIff(clock: Clock, v: Json, b: Body, ids: seq<string>, last: Option<string>)
    requires |ids| == 3 && Ready(v, b, ids, last)
    ensures Valid(clock, v) <==> BodyOk(clock, b) && forall i | 0 <= i < 3 :: ids[i] != ""
  {
    HeadOkIff(clock, v, b);
    forall i | 0 <= i < 3 ensures SlotOk(v, i) <==> ids[i] != "" {
      assert Prepared(v, i, Some(ids[i]));
    }
  }

  // ---------------------------------------------------------------- composing

  /** What every new record starts from: the body, the three seeds and key ids, and the old domain's key id. */
  datatype Inputs = Inputs(body: Body, oldSeed: Bytes, newSeed: Bytes, domainSeed: Bytes, domainKeyId: string,
                           lastKeyId: Option<string>)
  {
    function Ids(): seq<string> { [body.oldKeyId, body.newKeyId, domainKeyId] }
  }

  function Pubs(c: Scheme, x: Inputs): (r: seq<Bytes>)
    ensures |r| == 3
  {
    [c.pub(x.oldSeed), c.pub(x.newSeed), c.pub(x.domainSeed)]
  }

  /** Prepares the slots and makes the first three passes. */
  function SignThree(c: Scheme, v: Json, x: Inputs): Result<Json> {
    var w :- Prepare(v, x.Ids(), x.lastKeyId);
    Passes(c, w, x)
  }

  function Passes(c: Scheme, w: Json, x: Inputs): Result<Json> {
    var w0 :- SignPass(c, w, 0, x.oldSeed, x.body.oldKeyId);
    var w1 :- SignPass(c, w0, 1, x.newSeed, x.body.newKeyId);
    SignPass(c, w1, 2, x.domainSeed, x.domainKeyId)
  }

  /** The key id of the last slot: none in a unilateral record. */
  function LastId(x: Inputs): Option<string> {
    if x.body.mode == Cooperative() then x.lastKeyId else None
  }

  predicate KeyIdsOk(x: Inputs) {
    && x.body.oldKeyId != "" && x.body.newKeyId != "" && x.domainKeyId != ""
    && (x.body.mode == Cooperative() ==> x.lastKeyId.Some? && x.lastKeyId.value != "")
  }

  /** The three passes can be made exactly when no key id is missing, and then all three verify. */
  lemma SignThreeChains(c: Scheme, v: Json, b: Body, x: Inputs, pubs: seq<Bytes>)
    requires Sound(c) && Says(v, b) && b.mode == x.body.mode && 3 <= |pubs| <= 4 && pubs[..3] == Pubs(c, x)
    ensures SignThree(c, v, x).Ok? <==> KeyIdsOk(x)
    ensures SignThree(c, v, x).Ok? ==> Chained(c, SignThree(c, v, x).value, b, x.Ids(), LastId(x), 3, pubs)
  {
    assert pubs[0] == pubs[..3][0] && pubs[1] == pubs[..3][1] && pubs[2] == pubs[..3][2];
    PrepareReady(v, b, x.Ids(), x.lastKeyId);
    if Prepare(v, x.Ids(), x.lastKeyId).Ok? {
      var w := Prepare(v, x.Ids(), x.lastKeyId).value;
      ThreePasses(c, w, b, x, pubs);
    }
  }

  lemma ThreePasses(c: Scheme, w: Json, b: Body, x: Inputs, pubs: seq<Bytes>)
    requires Sound(c) && 3 <= |pubs| <= 4 && pubs[0] == c.pub(x.oldSeed) && pubs[1] == c.pub(x.newSeed)
    requires pubs[2] == c.pub(x.domainSeed)
    requires Chained(c, w, b, x.Ids(), LastId(x), 0, pubs)
    ensures var r := Passes(c, w, x);
      && (r.Ok? <==> x.body.oldKeyId != "" && x.body.newKeyId != "" && x.domainKeyId != "")
      && (r.Ok? ==> Chained(c, r.value, b, x.Ids(), LastId(x), 3, pubs))
  {
    NextPass(c, w, b, x.Ids(), LastId(x), 0, pubs, x.oldSeed, x.body.oldKeyId);
    var r0 := SignPass(c, w, 0, x.oldSeed, x.body.oldKeyId);
    if r0.Ok? {
      NextPass(c, r0.value, b, x.Ids(), LastId(x), 1, pubs, x.newSeed, x.body.newKeyId);
      var r1 := SignPass(c, r0.value, 1, x.newSeed, x.body.newKeyId);
      if r1.Ok? {
        NextPass(c, r1.value, b, x.Ids(), LastId(x), 2, pubs, x.domainSeed, x.domainKeyId);
      }
    }
  }

  /** An empty notice end counts as none. */
  function Normal(b: Body): Body {
    if b.until == Some("") then b.(until := None) else b
  }

  function WithExtensions(v: Json, extensions: Option<Json>): Json {
    if extensions.Some? then v.Put("extensions", extensions.value) else v
  }

  /** `composeMigrationRecord`. */
  function Compose(c: Scheme, x: Inputs, lastSeed: Option<Bytes>, extensions: Option<Json>): Result<Json> {
    SignAll(c, WithExtensions(NewRecord(Normal(x.body)), extensions), x, lastSeed)
  }

  /** Three passes, and the fourth on a cooperative record. */
  function SignAll(c: Scheme, v: Json, x: Inputs, lastSeed: Option<Bytes>): Result<Json> {
    var w :- SignThree(c, v, x);
    if x.body.mode != Cooperative() then Ok(w)
    else if lastSeed.None? || x.lastKeyId.None? || x.lastKeyId.value == "" then Err("oldDomainSeed")
    else SignPass(c, w, 3, lastSeed.value, x.lastKeyId.value)
  }

  lemma ExtendedSays(b: Body, extensions: Option<Json>)
    requires extensions.Some? ==> WellFormed(extensions.value)
    ensures Says(WithExtensions(NewRecord(b), extensions), b)
  {
    RecordSays(b);
    if extensions.Some? {
      PutSays(NewRecord(b), b, "extensions", extensions.value);
    }
  }

  lemma PutSays(v: Json, b: Body, key: string, e: Json)
    requires Says(v, b) && WellFormed(e) && !Plain(key)
    ensures Says(v.Put(key, e), b)
  {
    PutLaws();
    SameBodySays(v, v.Put(key, e), b);
  }

  /** A chain that is complete verifies exactly when its body is in order. */
  lemma ChainVerifies(c: Scheme, clock: Clock, v: Json, b: Body, ids: seq<string>, last: Option<string>,
      pubs: seq<Bytes>, lastPub: Option<Bytes>)
    requires |ids| == 3 && |pubs| == 3 && ids[0] != "" && ids[1] != "" && ids[2] != ""
    requires Chained(c, v, b, ids, last, 3, pubs)
    requires b.mode == Cooperative() ==> lastPub.Some? && lastPub.value != [] && VerifySlot(c, v, 3, lastPub.value)
    ensures VerifyRecord(c, clock, v, pubs, lastPub) == if BodyOk(clock, b) then Ok(true) else Err("invalid")
  {
    ValidIff(clock, v, b, ids, last);
    assert IsCooperative(v) <==> b.mode == Cooperative();
  }

  /**
   * Composing succeeds exactly when no key is missing, and the record then verifies exactly when its body is in
   * order.
   */
  lemma ComposeVerifies(c: Scheme, clock: Clock, x: Inputs, lastSeed: Option<Bytes>, extensions: Option<Json>)
    requires Sound(c) && (extensions.Some? ==> WellFormed(extensions.value))
    ensures Compose(c, x, lastSeed, extensions).Ok? <==>
      && KeyIdsOk(x) && (x.body.mode == Cooperative() ==> lastSeed.Some?)
    ensures Compose(c, x, lastSeed, extensions).Ok? ==>
      VerifyRecord(c, clock, Compose(c, x, lastSeed, extensions).value, Pubs(c, x), PubOf(c, lastSeed))
        == if BodyOk(clock, Normal(x.body)) then Ok(true) else Err("invalid")
  {
    var b, v := Normal(x.body), WithExtensions(NewRecord(Normal(x.body)), extensions);
    ExtendedSays(b, extensions);
    SignAllVerifies(c, clock, v, b, x, lastSeed);
  }

  function PubOf(c: Scheme, seed: Option<Bytes>): Option<Bytes> {
    if seed.Some? then Some(c.pub(seed.value)) else None
  }

  lemma SignAllVerifies(c: Scheme, clock: Clock, v: Json, b: Body, x: Inputs, lastSeed: Option<Bytes>)
    requires Sound(c) && Says(v, b) && b.mode == x.body.mode
    ensures SignAll(c, v, x, lastSeed).Ok? <==> KeyIdsOk(x) && (x.body.mode == Cooperative() ==> lastSeed.Some?)
    ensures SignAll(c, v, x, lastSeed).Ok? ==>
      VerifyRecord(c, clock, SignAll(c, v, x, lastSeed).value, Pubs(c, x), PubOf(c, lastSeed))
        == if BodyOk(clock, b) then Ok(true) else Err("invalid")
  {
    SignThreeChains(c, v, b, x, Pubs(c, x));
    var r := SignThree(c, v, x);
    if r.Ok? {
      if x.body.mode != Cooperative() {
        ChainVerifies(c, clock, r.value, b, x.Ids(), LastId(x), Pubs(c, x), PubOf(c, lastSeed));
      } else if lastSeed.Some? {
        FourthPass(c, clock, r.value, b, x, lastSeed.value, x.lastKeyId.value);
      }
    }
  }

  /** The countersignature: made exactly under the prepared key id, and it completes the chain. */
  lemma FourthPass(c: Scheme, clock: Clock, v: Json, b: Body, x: Inputs, seed: Bytes, keyId: string)
    requires Sound(c) && KeyIdsOk(x) && b.mode == x.body.mode == Cooperative()
    requires Chained(c, v, b, x.Ids(), LastId(x), 3, Pubs(c, x))
    ensures SignPass(c, v, 3, seed, keyId).Ok? <==> x.lastKeyId == Some(keyId)
    ensures SignPass(c, v, 3, seed, keyId).Ok? ==>
      VerifyRecord(c, clock, SignPass(c, v, 3, seed, keyId).value, Pubs(c, x), Some(c.pub(seed)))
        == if BodyOk(clock, b) then Ok(true) else Err("invalid")
  {
    FourthSigns(c, v, b, x.Ids(), LastId(x), Pubs(c, x), seed, keyId);
    if SignPass(c, v, 3, seed, keyId).Ok? {
      ChainVerifies(c, clock, SignPass(c, v, 3, seed, keyId).value, b, x.Ids(), LastId(x), Pubs(c, x),
                    Some(c.pub(seed)));
    }
  }

  lemma FourthSigns(c: Scheme, v: Json, b: Body, ids: seq<string>, last: Option<string>, three: seq<Bytes>,
      seed: Bytes, keyId: string)
    requires Sound(c) && |ids| == 3 && |three| == 3 && Chained(c, v, b, ids, last, 3, three)
    ensures SignPass(c, v, 3, seed, keyId).Ok? <==> last == Some(keyId) && keyId != ""
    ensures SignPass(c, v, 3, seed, keyId).Ok? ==>
      && Chained(c, SignPass(c, v, 3, seed, keyId).value, b, ids, last, 3, three)
      && VerifySlot(c, SignPass(c, v, 3, seed, keyId).value, 3, c.pub(seed))
  {
    var pubs := three + [c.pub(seed)];
    ChainShorter(c, v, b, ids, last, three, pubs);
    NextPass(c, v, b, ids, last, 3, pubs, seed, keyId);
    if SignPass(c, v, 3, seed, keyId).Ok? {
      ChainShorter(c, SignPass(c, v, 3, seed, keyId).value, b, ids, last, pubs, three);
    }
  }

  lemma ChainShorter(c: Scheme, v: Json, b: Body, ids: seq<string>, last: Option<string>, from: seq<Bytes>,
      to: seq<Bytes>)
    requires |ids| == 3 && 3 <= |from| <= 4 && 3 <= |to| <= 4 && Ready(v, b, ids, last)
    requires to[0] == from[0] && to[1] == from[1] && to[2] == from[2]
    requires forall m | 0 <= m < 3 :: VerifySlot(c, v, m, from[m])
    ensures Chained(c, v, b, ids, last, 3, to)
  {}

  // ---------------------------------------------------------------- submitting

  /** The checks of `buildSubmission`, in order. */
  predicate MaySubmit(x: Inputs, windowMs: int) {
    && x.body.oldAddress != "" && x.body.newAddress != "" && x.body.oldKeyId != "" && x.body.newKeyId != ""
    && x.body.newPublicKey != "" && x.domainKeyId != "" && x.body.migratedAt != ""
    && (x.body.mode == Cooperative() || x.body.mode == Unilateral())
    && (x.body.mode == Cooperative() ==>
          MIN_NOTICE <= windowMs <= MAX_NOTICE && x.lastKeyId.Some? && x.lastKeyId.value != "")
  }

  /** The end of the notice window, cut to a whole second; none in a unilateral record. */
  function NoticeEnd(clock: Clock, x: Inputs, windowMs: int): Result<Option<string>> {
    if x.body.mode != Cooperative() then Ok(None)
    else
      var from := clock.parse(x.body.migratedAt);
      if from.None? then Err("migrated_at")
      else if clock.iso(from.value + windowMs).None? then Err("RangeError")
      else Ok(clock.iso(from.value + windowMs))
  }

  /** `buildSubmission`; the record id is the one given, or minted. */
  function Build(c: Scheme, clock: Clock, x: Inputs, windowMs: int): Result<Json> {
    if !MaySubmit(x, windowMs) then Err("input")
    else
      var until :- NoticeEnd(clock, x, windowMs);
      SignThree(c, NewRecord(x.body.(until := until)), x)
  }

  // ---------------------------------------------------------------- accepting

  /** What stands before the first `@`; the whole address when there is none. */
  function LocalPart(address: string): string {
    if address == "" || address[0] == '@' then "" else [address[0]] + LocalPart(address[1..])
  }

  datatype Policies = Policies(oldIdentityPub: Bytes, newDomainPub: Bytes, seed: Bytes, keyId: string, now: int,
                               created: Option<int>, skew: Option<int>, notice: Json -> bool, lower: string -> string)

  const DEFAULT_SKEW := 5 * 60 * 1000

  /** How far ahead of its own clock a provider lets another one be. */
  function Skew(p: Policies): int {
    if p.skew.Some? then p.skew.value else DEFAULT_SKEW
  }

  /** `checkMigratedAtBound`: not before the old key was created, not too far in the future. */
  predicate BoundOk(clock: Clock, v: Json, p: Policies) {
    var at := clock.parse(TextOf(Get(v, "migrated_at")));
    && at.Some? && (p.created.Some? ==> p.created.value <= at.value) && at.value <= p.now + Skew(p)
  }

  /** Everything `acceptSubmission` checks before it reserves the local part. */
  predicate Acceptable(c: Scheme, clock: Clock, v: Json, p: Policies) {
    && IsCooperative(v) && Valid(clock, v)
    && VerifySlot(c, v, 0, p.oldIdentityPub)
    && VerifySlot(c, v, 1, Base64.Decode(TextOf(Get(v, "new_identity_public_key"))))
    && VerifySlot(c, v, 2, p.newDomainPub)
    && BoundOk(clock, v, p) && p.notice(v)
  }

  /** The registry after the reservation, when the record has a notice window that can be read. */
  function ReserveFor(clock: Clock, reg: Registry, v: Json, p: Policies): Result<Registry> {
    var until := clock.parse(TextOf(Get(v, "notice_window_until")));
    if until.None? then Ok(reg)
    else Reserve(reg, p.lower, HeldFor(v, until.value))
  }

  /** The reservation that is made for a record. */
  function HeldFor(v: Json, until: int): Reservation {
    Reservation(LocalPart(TextOf(Get(v, "old_address"))), until, TextOf(Get(v, "record_id")))
  }

  /** `acceptSubmission` without a lockout registry. */
  function Countersign(c: Scheme, clock: Clock, v: Json, p: Policies): Result<Json> {
    if Acceptable(c, clock, v, p) then SignPass(c, v, 3, p.seed, p.keyId) else Err("refused")
  }

  /** `acceptSubmission`: the outcome and the lockout registry it leaves. */
  function Accept(c: Scheme, clock: Clock, reg: Registry, v: Json, p: Policies): (Result<Json>, Registry) {
    if !Acceptable(c, clock, v, p) then (Err("refused"), reg)
    else
      match ReserveFor(clock, reg, v, p)
      case Err(e) => (Err(e), reg)
      case Ok(reserved) => (SignPass(c, v, 3, p.seed, p.keyId), reserved)
  }

  /** The window that is left after the cut to whole seconds is not below the minimum. */
  predicate WindowKept(migratedMs: int, windowMs: int) {
    migratedMs % 1000 == 0 || windowMs - MIN_NOTICE + migratedMs % 1000 >= 1000
  }

  /** Cutting the end of the window keeps it within bounds exactly in these cases. */
  lemma CutWindow(m: int, w: int)
    requires MIN_NOTICE <= w <= MAX_NOTICE
    ensures MIN_NOTICE <= (m + w) - (m + w) % 1000 - m <= MAX_NOTICE <==> WindowKept(m, w)
  {
    var d := w - MIN_NOTICE;
    assert MIN_NOTICE % 1000 == 0;
    assert (m + w) % 1000 == (m % 1000 + d) % 1000;
  }

  /** The last slot is prepared for this key id. */
  predicate PreparedFor(v: Json, keyId: string) {
    && keyId != "" && Dig(v, SlotName(3), "key_id") == Some(JStr(keyId))
    && Dig(v, SlotName(3), "algorithm") != Some(JStr(""))
  }

  /**
   * When a refusal leaves its mark: on every record, exactly when all checks pass, the local part can be reserved and
   * the last slot is not prepared for the key id that countersigns.
   */
  lemma RefusalReserves(c: Scheme, clock: Clock, reg: Registry, v: Json, p: Policies)
    requires WellFormed(v) && v.JObj?
    ensures var (r, after) := Accept(c, clock, reg, v, p);
      r.Err? && after != reg <==>
        Acceptable(c, clock, v, p) && ReserveFor(clock, reg, v, p).Ok? && !PreparedFor(v, p.keyId)
  {
    if Acceptable(c, clock, v, p) && ReserveFor(clock, reg, v, p).Ok? {
      AcceptableFilled(c, clock, v, p);
      LastPass(c, v, p.seed, p.keyId);
      ReservedDiffers(clock, reg, v, p);
    }
  }

  lemma AcceptableFilled(c: Scheme, clock: Clock, v: Json, p: Policies)
    requires Acceptable(c, clock, v, p)
    ensures Filled(v, 0) && Filled(v, 1) && Filled(v, 2) && IsCooperative(v)
    ensures Dig(v, SlotName(3), VALUE).Some? && clock.parse(TextOf(Get(v, "notice_window_until"))).Some?
  {
    VerifiedFilled(c, v, 0, p.oldIdentityPub);
    VerifiedFilled(c, v, 1, Base64.Decode(TextOf(Get(v, "new_identity_public_key"))));
    VerifiedFilled(c, v, 2, p.newDomainPub);
  }

  lemma LastPass(c: Scheme, v: Json, seed: Bytes, keyId: string)
    requires Filled(v, 0) && Filled(v, 1) && Filled(v, 2) && IsCooperative(v) && Dig(v, SlotName(3), VALUE).Some?
    ensures SignPass(c, v, 3, seed, keyId).Ok? <==> PreparedFor(v, keyId)
  {}

  lemma ReservedDiffers(clock: Clock, reg: Registry, v: Json, p: Policies)
    requires ReserveFor(clock, reg, v, p).Ok? && clock.parse(TextOf(Get(v, "notice_window_until"))).Some?
    ensures ReserveFor(clock, reg, v, p).value != reg
  {
    assert p.lower(LocalPart(TextOf(Get(v, "old_address")))) !in reg;
  }

  lemma AcceptLeaves(c: Scheme, clock: Clock, reg: Registry, v: Json, p: Policies)
    ensures var after := Accept(c, clock, reg, v, p).1;
      after == reg || (Acceptable(c, clock, v, p) && ReserveFor(clock, reg, v, p) == Ok(after))
  {}

  lemma AcceptStops(c: Scheme, clock: Clock, reg: Registry, v: Json, p: Policies)
    requires ReserveFor(clock, reg, v, p).Err?
    ensures Accept(c, clock, reg, v, p).0.Err? && Accept(c, clock, reg, v, p).1 == reg
  {}

  /** A submission is taken exactly when all checks pass, the slot is prepared and the local part is free. */
  lemma AcceptedWhen(c: Scheme, clock: Clock, reg: Registry, v: Json, p: Policies)
    requires WellFormed(v) && v.JObj?
    ensures Accept(c, clock, reg, v, p).0.Ok? <==>
      && Acceptable(c, clock, v, p) && PreparedFor(v, p.keyId)
      && LocalPart(TextOf(Get(v, "old_address"))) != ""
      && p.lower(LocalPart(TextOf(Get(v, "old_address")))) !in reg
  {
    if Acceptable(c, clock, v, p) {
      AcceptableFilled(c, clock, v, p);
      LastPass(c, v, p.seed, p.keyId);
    }
  }

  /** This submission reserved its local part, whether it was then taken or refused. */
  predicate DidReserve(c: Scheme, clock: Clock, reg: Registry, v: Json, p: Policies) {
    Acceptable(c, clock, v, p) && ReserveFor(clock, reg, v, p).Ok?
  }

  lemma DidReserveHolds(c: Scheme, clock: Clock, reg: Registry, v: Json, p: Policies)
    requires DidReserve(c, clock, reg, v, p)
    ensures clock.parse(TextOf(Get(v, "notice_window_until"))).Some?
    ensures var held := HeldFor(v, clock.parse(TextOf(Get(v, "notice_window_until"))).value);
      held.localpart != "" && Holds(Accept(c, clock, reg, v, p).1, p.lower, held)
  {
    AcceptableFilled(c, clock, v, p);
  }

  /**
   * The same record again, after any run of registry calls, under any keys and at any time: exactly when all checks
   * pass, the last slot is prepared for the key id, and the local part is free again.  Where nobody else reserves it in
   * between, that is when some call has cleared the reservation; that its time has run out is not enough.
   */
  lemma TakenAgain(c: Scheme, clock: Clock, reg: Registry, v: Json, p: Policies, ops: seq<Op>, again: Policies)
    requires WellFormed(v) && v.JObj? && again.lower == p.lower && DidReserve(c, clock, reg, v, p)
    ensures clock.parse(TextOf(Get(v, "notice_window_until"))).Some?
    ensures var held := HeldFor(v, clock.parse(TextOf(Get(v, "notice_window_until"))).value);
      var later := Run(Accept(c, clock, reg, v, p).1, p.lower, ops);
      && (Accept(c, clock, later, v, again).0.Ok? <==>
            Acceptable(c, clock, v, again) && PreparedFor(v, again.keyId) && p.lower(held.localpart) !in later)
      && (!Reserved(p.lower, held.localpart, ops) ==>
            (p.lower(held.localpart) !in later <==> Cleared(p.lower, held, ops)))
  {
    DidReserveHolds(c, clock, reg, v, p);
    var after := Accept(c, clock, reg, v, p).1;
    var held := HeldFor(v, clock.parse(TextOf(Get(v, "notice_window_until"))).value);
    if !Reserved(p.lower, held.localpart, ops) {
      FreeIff(after, p.lower, ops, held);
    }
    AcceptedWhen(c, clock, Run(after, p.lower, ops), v, again);
  }

  /** Until such a call, whatever else is called, the same record is refused and changes nothing more. */
  lemma RefusedAgain(c: Scheme, clock: Clock, reg: Registry, v: Json, p: Policies, ops: seq<Op>, again: Policies)
    requires again.lower == p.lower && DidReserve(c, clock, reg, v, p)
    ensures clock.parse(TextOf(Get(v, "notice_window_until"))).Some?
    ensures var held := HeldFor(v, clock.parse(TextOf(Get(v, "notice_window_until"))).value);
      var later := Run(Accept(c, clock, reg, v, p).1, p.lower, ops);
      !Cleared(p.lower, held, ops) ==>
        Accept(c, clock, later, v, again).0.Err? && Accept(c, clock, later, v, again).1 == later
  {
    DidReserveHolds(c, clock, reg, v, p);
    var after := Accept(c, clock, reg, v, p).1;
    var held := HeldFor(v, clock.parse(TextOf(Get(v, "notice_window_until"))).value);
    StandsIff(after, p.lower, ops, held);
    if !Cleared(p.lower, held, ops) {
      AcceptStops(c, clock, Run(after, p.lower, ops), v, again);
    }
  }

  // ---------------------------------------------------------------- what is accepted is signed

  /** The keys under which an old provider verifies the three passes of a submission. */
  function PolicyPubs(v: Json, p: Policies): (r: seq<Bytes>)
    ensures |r| == 3
  {
    [p.oldIdentityPub, Base64.Decode(TextOf(Get(v, "new_identity_public_key"))), p.newDomainPub]
  }

  lemma AcceptableVerifies(c: Scheme, clock: Clock, v: Json, p: Policies)
    requires Acceptable(c, clock, v, p)
    ensures forall m | 0 <= m < 3 :: VerifySlot(c, v, m, PolicyPubs(v, p)[m])
  {}

  /** The records agree but for the last slot, which has a value. */
  ghost predicate SameButLast(v: Json, w: Json) {
    && (forall k | k != SlotName(3) :: Get(w, k) == Get(v, k))
    && Dig(w, SlotName(3), VALUE).Some? && Dig(w, SlotName(3), VALUE).value.JStr?
  }

  lemma LastPassShape(c: Scheme, v: Json, seed: Bytes, keyId: string)
    requires WellFormed(v) && v.JObj? && SignPass(c, v, 3, seed, keyId).Ok?
    ensures SameButLast(v, SignPass(c, v, 3, seed, keyId).value)
  {
    var text := Base64.Encode(c.sign(seed, PassInput(v, 3)));
    forall k | k != SlotName(3) ensures Get(PutValue(v, 3, text), k) == Get(v, k) {
      PutValueFields(v, 3, text, k);
    }
    PutValueFields(v, 3, text, "");
  }

  lemma SameHead(clock: Clock, v: Json, w: Json)
    requires HeadOk(clock, v) && SameHeadFields(v, w)
    ensures HeadOk(clock, w) && (IsCooperative(v) <==> IsCooperative(w))
  {}

  ghost predicate SameHeadFields(v: Json, w: Json) {
    && Get(w, "type") == Get(v, "type") && Get(w, "version") == Get(v, "version")
    && Get(w, "record_id") == Get(v, "record_id") && Get(w, "old_address") == Get(v, "old_address")
    && Get(w, "new_address") == Get(v, "new_address") && Get(w, "mode") == Get(v, "mode")
    && Get(w, "old_identity_key_id") == Get(v, "old_identity_key_id")
    && Get(w, "new_identity_key_id") == Get(v, "new_identity_key_id")
    && Get(w, "new_identity_public_key") == Get(v, "new_identity_public_key")
    && Get(w, "migrated_at") == Get(v, "migrated_at")
    && Get(w, "notice_window_until") == Get(v, "notice_window_until")
  }

  lemma SameFields(v: Json, w: Json)
    requires SameButLast(v, w)
    ensures SameHeadFields(v, w)
  {
    assert |SlotName(3)| == 20;
  }

  lemma SameSlot(v: Json, w: Json, i: nat)
    requires i < 3 && SlotOk(v, i) && SameButLast(v, w)
    ensures SlotOk(w, i)
  {
    SlotNamesDiffer();
    assert Get(w, SlotName(i)) == Get(v, SlotName(i));
  }

  /** Outside the last slot the record is the one submitted, and so it is as valid. */
  lemma SameOutsideLast(clock: Clock, v: Json, w: Json)
    requires Valid(clock, v) && IsCooperative(v) && SameButLast(v, w)
    ensures Valid(clock, w) && IsCooperative(w)
  {
    SameFields(v, w);
    SameHead(clock, v, w);
    forall i | 0 <= i < 3 ensures SlotOk(w, i) {
      SameSlot(v, w, i);
    }
  }

  lemma LastPassValid(c: Scheme, clock: Clock, v: Json, seed: Bytes, keyId: string, w: Json)
    requires WellFormed(v) && v.JObj? && Valid(clock, v) && IsCooperative(v) && SignPass(c, v, 3, seed, keyId) == Ok(w)
    ensures Valid(clock, w) && IsCooperative(w)
  {
    LastPassShape(c, v, seed, keyId);
    SameOutsideLast(clock, v, w);
  }

  lemma LastPassVerifies(c: Scheme, v: Json, pubs: seq<Bytes>, seed: Bytes, keyId: string, w: Json)
    requires Sound(c) && WellFormed(v) && v.JObj? && |pubs| == 3 && SignPass(c, v, 3, seed, keyId) == Ok(w)
    requires forall m | 0 <= m < 3 :: VerifySlot(c, v, m, pubs[m])
    ensures (forall m | 0 <= m < 3 :: VerifySlot(c, w, m, pubs[m])) && VerifySlot(c, w, 3, c.pub(seed))
  {
    SignKeepsEarlier(c, v, 3, seed, keyId);
  }

  lemma AllVerify(c: Scheme, clock: Clock, w: Json, pubs: seq<Bytes>, last: Bytes)
    requires Valid(clock, w) && IsCooperative(w) && |pubs| == 3 && last != []
    requires (forall m | 0 <= m < 3 :: VerifySlot(c, w, m, pubs[m])) && VerifySlot(c, w, 3, last)
    ensures VerifyRecord(c, clock, w, pubs, Some(last)) == Ok(true)
  {}

  lemma CountersignIsPass(c: Scheme, clock: Clock, v: Json, p: Policies)
    requires Countersign(c, clock, v, p).Ok?
    ensures Countersign(c, clock, v, p) == SignPass(c, v, 3, p.seed, p.keyId) && Valid(clock, v) && IsCooperative(v)
    ensures forall m | 0 <= m < 3 :: VerifySlot(c, v, m, PolicyPubs(v, p)[m])
  {
    AcceptableVerifies(c, clock, v, p);
  }

  lemma PassVerifies(c: Scheme, clock: Clock, v: Json, pubs: seq<Bytes>, seed: Bytes, keyId: string, w: Json)
    requires Sound(c) && WellFormed(v) && v.JObj? && |pubs| == 3 && SignPass(c, v, 3, seed, keyId) == Ok(w)
    requires Valid(clock, v) && IsCooperative(v) && forall m | 0 <= m < 3 :: VerifySlot(c, v, m, pubs[m])
    ensures VerifyRecord(c, clock, w, pubs, Some(c.pub(seed))) == Ok(true)
  {
    LastPassValid(c, clock, v, seed, keyId, w);
    LastPassVerifies(c, v, pubs, seed, keyId, w);
    AllVerify(c, clock, w, pubs, c.pub(seed));
  }

  /** A record that is countersigned verifies: all four signatures, under the keys that the provider knows. */
  lemma CountersignedVerifies(c: Scheme, clock: Clock, v: Json, p: Policies)
    requires Sound(c) && WellFormed(v) && v.JObj? && Countersign(c, clock, v, p).Ok?
    ensures var w := Countersign(c, clock, v, p).value;
      VerifyRecord(c, clock, w, PolicyPubs(v, p), Some(c.pub(p.seed))) == Ok(true)
  {
    CountersignIsPass(c, clock, v, p);
    PassVerifies(c, clock, v, PolicyPubs(v, p), p.seed, p.keyId, Countersign(c, clock, v, p).value);
  }

  /** And so does a submission that is accepted; its `migrated_at` is within the provider's bounds. */
  lemma AcceptedVerifies(c: Scheme, clock: Clock, reg: Registry, v: Json, p: Policies)
    requires Sound(c) && WellFormed(v) && v.JObj? && Accept(c, clock, reg, v, p).0.Ok?
    ensures Accept(c, clock, reg, v, p).0 == Countersign(c, clock, v, p)
    ensures var w := Accept(c, clock, reg, v, p).0.value;
      VerifyRecord(c, clock, w, PolicyPubs(v, p), Some(c.pub(p.seed))) == Ok(true)
  {
    AcceptIsCountersign(c, clock, reg, v, p);
    CountersignedVerifies(c, clock, v, p);
  }

  lemma AcceptIsCountersign(c: Scheme, clock: Clock, reg: Registry, v: Json, p: Policies)
    requires Accept(c, clock, reg, v, p).0.Ok?
    ensures Accept(c, clock, reg, v, p).0 == Countersign(c, clock, v, p)
  {}

  /** What any accepted record says, whoever built it: who moves where, under which keys, with how much notice. */
  lemma AcceptedSays(c: Scheme, clock: Clock, v: Json, p: Policies)
    requires Countersign(c, clock, v, p).Ok?
    ensures Get(v, "mode") == Some(JStr("cooperative"))
    ensures TextOf(Get(v, "record_id")) != "" && TextOf(Get(v, "old_address")) != ""
    ensures TextOf(Get(v, "new_address")) != "" && TextOf(Get(v, "new_identity_public_key")) != ""
    ensures var at := clock.parse(TextOf(Get(v, "migrated_at")));
      var end := clock.parse(TextOf(Get(v, "notice_window_until")));
      && at.Some? && end.Some?
      && 30 * 24 * 60 * 60 * 1000 <= end.value - at.value <= 730 * 24 * 60 * 60 * 1000
    ensures forall i | 0 <= i < 3 ::
      && TextOf(Dig(v, SlotName(i), "algorithm")) != "" && TextOf(Dig(v, SlotName(i), "key_id")) != ""
      && TextOf(Dig(v, SlotName(i), VALUE)) != ""
  {
    ValidSays(clock, v);
    forall i | 0 <= i < 3
      ensures TextOf(Dig(v, SlotName(i), "algorithm")) != "" && TextOf(Dig(v, SlotName(i), "key_id")) != ""
      ensures TextOf(Dig(v, SlotName(i), VALUE)) != ""
    {
      AcceptableVerifies(c, clock, v, p);
      assert SlotOk(v, i) && VerifySlot(c, v, i, PolicyPubs(v, p)[i]);
    }
  }

  lemma ValidSays(clock: Clock, v: Json)
    requires Valid(clock, v)
    ensures Text(Get(v, "record_id")) && Text(Get(v, "old_address")) && Text(Get(v, "new_address"))
    ensures Text(Get(v, "new_identity_public_key"))
    ensures IsCooperative(v) ==> WindowOk(clock, v)
    ensures forall i | 0 <= i < 3 :: SlotOk(v, i)
  {}

  /** What the bound on `migrated_at` shuts out: times before the old key was made, and times too far ahead. */
  lemma BoundRefuses(c: Scheme, clock: Clock, reg: Registry, v: Json, p: Policies, at: int)
    requires clock.parse(TextOf(Get(v, "migrated_at"))) == Some(at)
    requires (p.created.Some? && at < p.created.value)
      || at > p.now + (if p.skew.Some? then p.skew.value else 300000)
    ensures Accept(c, clock, reg, v, p) == (Err("refused"), reg) && Countersign(c, clock, v, p).Err?
  {}

  /**
   * Of a record that verifies, after any signing calls: each of the three keys, and of a cooperative record the fourth,
   * was used in such a call at its own pass, over a record that agrees but for the values of that slot and later ones.
   */
  lemma VerifiedCommitted(c: Scheme, clock: Clock, v: Json, pubs: seq<Bytes>, lastPub: Option<Bytes>, calls: seq<Call>)
    requires |pubs| == 3 && WellFormed(v) && v.JObj? && CallsOk(calls)
    requires VerifyRecord(c, clock, v, pubs, lastPub) == Ok(true)
    ensures forall i | 0 <= i < 3 && Genuine(c, LogOf(c, calls), v, i, pubs[i]) :: SomeCall(c, v, i, pubs[i], calls)
    ensures IsCooperative(v) ==> lastPub.Some?
    ensures IsCooperative(v) && Genuine(c, LogOf(c, calls), v, 3, lastPub.value) ==>
      SomeCall(c, v, 3, lastPub.value, calls)
  {
    VerifyRecordMeans(c, clock, v, pubs, lastPub);
    ThreeCommitted(c, v, pubs, calls);
    if IsCooperative(v) {
      LastCommitted(c, v, pubs + [lastPub.value], calls);
    }
  }

  lemma ThreeCommitted(c: Scheme, v: Json, pubs: seq<Bytes>, calls: seq<Call>)
    requires |pubs| == 3 && WellFormed(v) && v.JObj? && CallsOk(calls)
    requires forall m | 0 <= m < 3 :: VerifySlot(c, v, m, pubs[m])
    ensures forall i | 0 <= i < 3 && Genuine(c, LogOf(c, calls), v, i, pubs[i]) :: SomeCall(c, v, i, pubs[i], calls)
  {
    forall i | 0 <= i < 3 && Genuine(c, LogOf(c, calls), v, i, pubs[i]) ensures SomeCall(c, v, i, pubs[i], calls) {
      CommittedInRuns(c, v, i, pubs, calls);
    }
  }

  /** One of the calls committed to the record, at this pass and under this key. */
  ghost predicate SomeCall(c: Scheme, v: Json, i: nat, pub: Bytes, calls: seq<Call>) {
    exists k :: 0 <= k < |calls| && CommittedBy(c, v, i, pub, calls[k])
  }

  lemma LastCommitted(c: Scheme, v: Json, pubs: seq<Bytes>, calls: seq<Call>)
    requires |pubs| == 4 && WellFormed(v) && v.JObj? && CallsOk(calls) && VerifiedTo(c, v, 3, pubs)
    ensures Genuine(c, LogOf(c, calls), v, 3, pubs[3]) ==> SomeCall(c, v, 3, pubs[3], calls)
  {
    if Genuine(c, LogOf(c, calls), v, 3, pubs[3]) {
      CommittedInRuns(c, v, 3, pubs, calls);
    }
  }

  lemma VerifyRecordMeans(c: Scheme, clock: Clock, v: Json, pubs: seq<Bytes>, lastPub: Option<Bytes>)
    requires |pubs| == 3 && VerifyRecord(c, clock, v, pubs, lastPub) == Ok(true)
    ensures forall m | 0 <= m < 3 :: VerifySlot(c, v, m, pubs[m])
    ensures IsCooperative(v) ==> lastPub.Some? && VerifySlot(c, v, 3, lastPub.value)
  {}

  /**
   * What a provider accepts, after any signing calls: the old identity, the new identity and the new domain each signed
   * it at their own pass, over a record that agrees with the submitted one but for the values of later slots.
   */
  lemma AcceptedCommitted(c: Scheme, clock: Clock, reg: Registry, v: Json, p: Policies, calls: seq<Call>, i: nat)
    requires WellFormed(v) && v.JObj? && CallsOk(calls) && i < 3
    requires Accept(c, clock, reg, v, p).0.Ok? || Countersign(c, clock, v, p).Ok?
    requires Genuine(c, LogOf(c, calls), v, i, PolicyPubs(v, p)[i])
    ensures SomeCall(c, v, i, PolicyPubs(v, p)[i], calls)
  {
    AcceptableVerifies(c, clock, v, p);
    CommittedInRuns(c, v, i, PolicyPubs(v, p), calls);
  }

  // ---------------------------------------------------------------- publishing

  /** The publication store: copies of records by record id, and the latest by old address in lower case. */
  datatype Published = Published(byId: map<string, Json>, byAddress: map<string, Json>)

  function Publish(s: Published, lower: string -> string, v: Json): Result<Published> {
    var id, address := TextOf(Get(v, "record_id")), TextOf(Get(v, "old_address"));
    if id == "" then Err("empty record_id")
    else if address == "" then Err("empty old_address")
    else Ok(Published(s.byId[id := v], s.byAddress[lower(address) := v]))
  }

  lemma LastPassKeeps(c: Scheme, v: Json, seed: Bytes, keyId: string, k: string)
    requires SignPass(c, v, 3, seed, keyId).Ok? && k != SlotName(3)
    ensures Get(SignPass(c, v, 3, seed, keyId).value, k) == Get(v, k)
  {
    var text := Base64.Encode(c.sign(seed, PassInput(v, 3)));
    PutLaws();
    assert Get(PutValue(v, 3, text), k) == Get(v, k);
  }

  /** What is countersigned can always be published, and says who moved as it did before. */
  lemma AcceptedPublishes(c: Scheme, clock: Clock, v: Json, p: Policies, s: Published)
    requires Countersign(c, clock, v, p).Ok?
    ensures var r := Countersign(c, clock, v, p).value;
      && Get(r, "record_id") == Get(v, "record_id") && Get(r, "old_address") == Get(v, "old_address")
      && Publish(s, p.lower, r).Ok?
  {
    assert |SlotName(3)| == 20;
    LastPassKeeps(c, v, p.seed, p.keyId, "record_id");
    LastPassKeeps(c, v, p.seed, p.keyId, "old_address");
    PublishesIff(s, p.lower, SignPass(c, v, 3, p.seed, p.keyId).value);
  }

  lemma PublishesIff(s: Published, lower: string -> string, v: Json)
    ensures Publish(s, lower, v).Ok? <==> Text(Get(v, "record_id")) && Text(Get(v, "old_address"))
  {}

  /** The keys of an old provider that verifies with the right ones. */
  ghost predicate KnowsKeys(c: Scheme, x: Inputs, p: Policies) {
    && p.oldIdentityPub == c.pub(x.oldSeed) && p.newDomainPub == c.pub(x.domainSeed)
    && Base64.Decode(x.body.newPublicKey) == c.pub(x.newSeed)
  }

  /** And that countersigns under the key id that the last slot was prepared for. */
  ghost predicate Matching(c: Scheme, x: Inputs, p: Policies) {
    KnowsKeys(c, x, p) && x.lastKeyId == Some(p.keyId)
  }

  /** What the old provider checks beside signatures and window. */
  ghost predicate Welcome(clock: Clock, reg: Registry, v: Json, x: Inputs, p: Policies) {
    && x.body.recordId != "" && BoundOk(clock, v, p) && p.notice(v)
    && LocalPart(x.body.oldAddress) != "" && p.lower(LocalPart(x.body.oldAddress)) !in reg
  }

  lemma BuildChains(c: Scheme, clock: Clock, x: Inputs, windowMs: int)
    requires Sound(c)
    ensures Build(c, clock, x, windowMs).Ok? <==> MaySubmit(x, windowMs) && NoticeEnd(clock, x, windowMs).Ok?
    ensures Build(c, clock, x, windowMs).Ok? ==>
      Chained(c, Build(c, clock, x, windowMs).value, x.body.(until := NoticeEnd(clock, x, windowMs).value),
              x.Ids(), LastId(x), 3, Pubs(c, x))
  {
    if MaySubmit(x, windowMs) && NoticeEnd(clock, x, windowMs).Ok? {
      var b := x.body.(until := NoticeEnd(clock, x, windowMs).value);
      RecordSays(b);
      SignThreeChains(c, NewRecord(b), b, x, Pubs(c, x));
    }
  }

  /** The body of a submission is in order exactly when the record has an id and the cut leaves enough of the window. */
  lemma SubmittedBody(clock: Clock, x: Inputs, windowMs: int)
    requires ClockOk(clock) && x.body.mode == Cooperative() && MaySubmit(x, windowMs)
    requires NoticeEnd(clock, x, windowMs).Ok?
    requires x.body.recordId != ""
    ensures clock.parse(x.body.migratedAt).Some?
    ensures BodyOk(clock, x.body.(until := NoticeEnd(clock, x, windowMs).value))
      <==> WindowKept(clock.parse(x.body.migratedAt).value, windowMs)
  {
    var m := clock.parse(x.body.migratedAt).value;
    CutWindow(m, windowMs);
  }

  lemma ChainAcceptable(c: Scheme, clock: Clock, v: Json, b: Body, x: Inputs, p: Policies)
    requires Chained(c, v, b, x.Ids(), LastId(x), 3, Pubs(c, x)) && KeyIdsOk(x)
    requires b.mode == x.body.mode == Cooperative()
    requires b == x.body.(until := b.until) && KnowsKeys(c, x, p) && BoundOk(clock, v, p) && p.notice(v)
    ensures Acceptable(c, clock, v, p) <==> BodyOk(clock, b)
  {
    ValidIff(clock, v, b, x.Ids(), LastId(x));
    assert IsCooperative(v);
    assert VerifySlot(c, v, 0, Pubs(c, x)[0]) && VerifySlot(c, v, 1, Pubs(c, x)[1]);
    assert VerifySlot(c, v, 2, Pubs(c, x)[2]);
    assert TextOf(Get(v, "new_identity_public_key")) == b.newPublicKey;
  }

  /** The registry with the old local part locked out until the end of the notice window. */
  function LockedOut(clock: Clock, reg: Registry, b: Body, p: Policies): Registry
    requires b.until.Some? && clock.parse(b.until.value).Some?
  {
    var local := LocalPart(b.oldAddress);
    reg[p.lower(local) := Reservation(local, clock.parse(b.until.value).value, b.recordId)]
  }

  lemma ReserveLocks(clock: Clock, reg: Registry, v: Json, b: Body, p: Policies)
    requires Says(v, b) && b.until.Some? && clock.parse(b.until.value).Some?
    requires LocalPart(b.oldAddress) != "" && p.lower(LocalPart(b.oldAddress)) !in reg
    ensures ReserveFor(clock, reg, v, p) == Ok(LockedOut(clock, reg, b, p))
  {}

  /**
   * Building a submission and handing it to an old provider that knows the right keys: it is accepted exactly when
   * the window kept its minimum through the cut to whole seconds, and then the record verifies and the old local part
   * is locked out; when it is refused the registry is as it was.
   */
  lemma BuildThenAccept(c: Scheme, clock: Clock, reg: Registry, x: Inputs, windowMs: int, p: Policies)
    requires Sound(c) && ClockOk(clock) && x.body.mode == Cooperative() && Build(c, clock, x, windowMs).Ok?
    requires Matching(c, x, p) && Welcome(clock, reg, Build(c, clock, x, windowMs).value, x, p)
    ensures clock.parse(x.body.migratedAt).Some? && NoticeEnd(clock, x, windowMs).Ok?
    ensures var v, b := Build(c, clock, x, windowMs).value, x.body.(until := NoticeEnd(clock, x, windowMs).value);
      var (r, reserved) := Accept(c, clock, reg, v, p);
      && (r.Ok? <==> WindowKept(clock.parse(x.body.migratedAt).value, windowMs))
      && (r.Ok? ==> b.until.Some? && clock.parse(b.until.value).Some? && reserved == LockedOut(clock, reg, b, p)
                    && VerifyRecord(c, clock, r.value, Pubs(c, x), Some(c.pub(p.seed))) == Ok(true))
      && (r.Err? ==> reserved == reg)
  {
    BuildChains(c, clock, x, windowMs);
    SubmittedBody(clock, x, windowMs);
    var b := x.body.(until := NoticeEnd(clock, x, windowMs).value);
    AcceptChained(c, clock, reg, Build(c, clock, x, windowMs).value, b, x, p);
  }

  lemma AcceptChained(c: Scheme, clock: Clock, reg: Registry, v: Json, b: Body, x: Inputs, p: Policies)
    requires Sound(c) && Chained(c, v, b, x.Ids(), LastId(x), 3, Pubs(c, x)) && KeyIdsOk(x)
    requires b.mode == x.body.mode == Cooperative() && b == x.body.(until := b.until)
    requires Matching(c, x, p) && Welcome(clock, reg, v, x, p)
    ensures var (r, reserved) := Accept(c, clock, reg, v, p);
      && (r.Ok? <==> BodyOk(clock, b))
      && (r.Ok? ==> b.until.Some? && clock.parse(b.until.value).Some? && reserved == LockedOut(clock, reg, b, p)
                    && VerifyRecord(c, clock, r.value, Pubs(c, x), Some(c.pub(p.seed))) == Ok(true))
      && (r.Err? ==> reserved == reg)
  {
    ChainAcceptable(c, clock, v, b, x, p);
    if BodyOk(clock, b) {
      ReserveLocks(clock, reg, v, b, p);
      FourthPass(c, clock, v, b, x, p.seed, p.keyId);
    }
  }

  /**
   * An input that shows it: a submission as built, with its window kept, that meets a provider with the right keys and
   * another key id for the countersignature.  It is refused, and its local part is locked out.
   */
  lemma WrongKeyIdLocks(c: Scheme, clock: Clock, reg: Registry, x: Inputs, windowMs: int, p: Policies)
    requires Sound(c) && ClockOk(clock) && x.body.mode == Cooperative() && Build(c, clock, x, windowMs).Ok?
    requires KnowsKeys(c, x, p) && x.lastKeyId != Some(p.keyId)
    requires Welcome(clock, reg, Build(c, clock, x, windowMs).value, x, p)
    requires clock.parse(x.body.migratedAt).Some? ==> WindowKept(clock.parse(x.body.migratedAt).value, windowMs)
    ensures NoticeEnd(clock, x, windowMs).Ok?
    ensures var v, b := Build(c, clock, x, windowMs).value, x.body.(until := NoticeEnd(clock, x, windowMs).value);
      && b.until.Some? && clock.parse(b.until.value).Some?
      && Accept(c, clock, reg, v, p).0.Err? && Accept(c, clock, reg, v, p).1 == LockedOut(clock, reg, b, p) != reg
  {
    BuildChains(c, clock, x, windowMs);
    SubmittedBody(clock, x, windowMs);
    var v, b := Build(c, clock, x, windowMs).value, x.body.(until := NoticeEnd(clock, x, windowMs).value);
    ChainAcceptable(c, clock, v, b, x, p);
    ReserveLocks(clock, reg, v, b, p);
    FourthSigns(c, v, b, x.Ids(), LastId(x), Pubs(c, x), p.seed, p.keyId);
  }

  /** A time with milliseconds and the shortest window: the submission is built, and every provider refuses it. */
  lemma ShortestWindowRefused(c: Scheme, clock: Clock, reg: Registry, x: Inputs, p: Policies)
    requires Sound(c) && ClockOk(clock) && x.body.mode == Cooperative() && x.body.recordId != ""
    requires MaySubmit(x, MIN_NOTICE) && NoticeEnd(clock, x, MIN_NOTICE).Ok?
    requires clock.parse(x.body.migratedAt).Some? && clock.parse(x.body.migratedAt).value % 1000 != 0
    ensures Build(c, clock, x, MIN_NOTICE).Ok?
    ensures Accept(c, clock, reg, Build(c, clock, x, MIN_NOTICE).value, p) == (Err("refused"), reg)
  {
    BuildChains(c, clock, x, MIN_NOTICE);
    SubmittedBody(clock, x, MIN_NOTICE);
    var v, b := Build(c, clock, x, MIN_NOTICE).value, x.body.(until := NoticeEnd(clock, x, MIN_NOTICE).value);
    ValidIff(clock, v, b, x.Ids(), LastId(x));
  }
}
