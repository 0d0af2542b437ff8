/**
 * Device directories: the home server that signs a new revision at every change, and the consumer that never goes
 * back to an older one.
 */
module Directory {
  import opened Wrappers
  import opened Json
  import opened Signing
  import Base64

  datatype Entry = Entry(id: string, key: string, algorithm: string, role: string, certificate: Option<string>,
                         enrolledAt: string, name: string, kind: string)

  function Prefix(): string { "SEMP-DEVICE-DIRECTORY:" }

  const SIG_BLOCK := "signature"
  const VALUE := "value"

  // ---------------------------------------------------------------- the record

  function EntryJson(e: Entry): Json {
    JObj([Field("device_id", JStr(e.id)), Field("device_public_key", JStr(e.key)),
          Field("device_identity_pubkey_algorithm", JStr(e.algorithm)), Field("role", JStr(e.role)),
          Field("certificate_id", if e.certificate.Some? then JStr(e.certificate.value) else JNull),
          Field("enrolled_at", JStr(e.enrolledAt)), Field("device_name", JStr(e.name)),
          Field("device_type", JStr(e.kind))])
  }

  function EntryTags(): seq<nat> {
    [642404, 1165689, 2149485, 319077, 969828, 771700, 774501, 775269]
  }

  lemma EntryTagged(e: Entry)
    ensures Tagged(EntryJson(e).fields, EntryTags())
  {}

  lemma EntryShape(e: Entry)
    ensures WellFormed(EntryJson(e))
  {
    EntryTagged(e);
    TagsDistinct(EntryJson(e).fields, EntryTags());
  }

  function EntriesJson(es: seq<Entry>): (r: seq<Json>)
    ensures |r| == |es| && forall i | 0 <= i < |es| :: r[i] == EntryJson(es[i])
  {
    seq(|es|, i requires 0 <= i < |es| => EntryJson(es[i]))
  }

  function SignatureBlock(keyId: string): Json {
    JObj([Field("algorithm", JStr("ed25519")), Field("key_id", JStr(keyId)), Field(VALUE, Blank())])
  }

  function DirectoryJson(userId: string, revision: int, issuedAt: string, devices: Json, keyId: string): Json {
    JObj([Field("type", JStr("SEMP_DEVICE_DIRECTORY")), Field("version", JStr("1.0.0")), Field("user_id", JStr(userId)),
          Field("revision", JNum(revision)), Field("issued_at", JStr(issuedAt)), Field("devices", devices),
          Field(SIG_BLOCK, SignatureBlock(keyId))])
  }

  /** What the record says. */
  ghost predicate Reports(v: Json, userId: string, revision: int, devices: Json) {
    && WellFormed(v) && v.JObj? && Get(v, "user_id") == Some(JStr(userId)) && Get(v, "revision") == Some(JNum(revision))
    && Get(v, "devices") == Some(devices) && Get(v, SIG_BLOCK).Some? && Get(v, SIG_BLOCK).value.JObj?
  }

  lemma SignatureBlockShape(keyId: string)
    ensures WellFormed(SignatureBlock(keyId))
  {
    TagsDistinct(SignatureBlock(keyId).fields, [641389, 447588, 387941]);
  }

  function DirectoryTags(): seq<nat> {
    [320613, 517486, 515684, 581998, 641652, 510323, 648549]
  }

  lemma DirectoryTagged(userId: string, revision: int, issuedAt: string, devices: Json, keyId: string)
    ensures Tagged(DirectoryJson(userId, revision, issuedAt, devices, keyId).fields, DirectoryTags())
  {}

  lemma DirectoryReads(userId: string, revision: int, issuedAt: string, devices: Json, keyId: string)
    requires WellFormed(devices)
    ensures var fs := DirectoryJson(userId, revision, issuedAt, devices, keyId).fields;
      WellFormed(JObj(fs)) && forall i | 0 <= i < |fs| :: GetField(fs, fs[i].key) == Some(fs[i].value)
  {
    SignatureBlockShape(keyId);
    DirectoryTagged(userId, revision, issuedAt, devices, keyId);
    TagsDistinct(DirectoryJson(userId, revision, issuedAt, devices, keyId).fields, DirectoryTags());
  }

  lemma DirectoryShape(userId: string, revision: int, issuedAt: string, devices: Json, keyId: string)
    requires WellFormed(devices)
    ensures Reports(DirectoryJson(userId, revision, issuedAt, devices, keyId), userId, revision, devices)
  {
    DirectoryReads(userId, revision, issuedAt, devices, keyId);
    var fs := DirectoryJson(userId, revision, issuedAt, devices, keyId).fields;
    assert fs[2].key == "user_id" && fs[3].key == "revision" && fs[5].key == "devices" && fs[6].key == SIG_BLOCK;
  }

  /** Setting `signature.value`. */
  function WithValue(v: Json, text: string): Json {
    var block := Get(v, SIG_BLOCK);
    if block.Some? then v.Put(SIG_BLOCK, block.value.Put(VALUE, JStr(text))) else v
  }

  function SignedInput(v: Json): Bytes {
    Prefixed(Prefix(), WithValue(v, ""))
  }

  // ---------------------------------------------------------------- the producer

  datatype State = State(userId: string, seed: Bytes, keyId: string, devices: seq<Entry>, revision: nat,
                         current: Option<Json>)

  /** `sort` by device id; the ids are distinct. */
  function InsertEntry(e: Entry, es: seq<Entry>): seq<Entry> {
    if es == [] || KeyLess(e.id, es[0].id) then [e] + es else [es[0]] + InsertEntry(e, es[1..])
  }

  function SortEntries(es: seq<Entry>): seq<Entry> {
    if es == [] then [] else InsertEntry(es[0], SortEntries(es[1..]))
  }

  /** What signing demands of an entry. */
  predicate ValidEntry(e: Entry) {
    && e.id != "" && e.key != "" && e.algorithm != "" && e.enrolledAt != "" && e.name != "" && e.kind != ""
    && (e.role == "full_access" || e.role == "delegated")
    && (e.role == "full_access" ==> e.certificate.None?)
    && (e.role == "delegated" ==> e.certificate.Some? && e.certificate.value != "")
  }

  /** What `addDevice` demands of an entry: less than signing does. */
  predicate AddableEntry(e: Entry) {
    && e.id != "" && e.key != "" && (e.role == "full_access" ==> e.certificate.None?)
    && (e.role == "delegated" ==> e.certificate.Some? && e.certificate.value != "")
  }

  predicate Has(es: seq<Entry>, id: string) {
    exists i | 0 <= i < |es| :: es[i].id == id
  }

  function Without(es: seq<Entry>, id: string): seq<Entry> {
    if es == [] then [] else if es[0].id == id then Without(es[1..], id) else [es[0]] + Without(es[1..], id)
  }

  predicate AllValid(es: seq<Entry>) {
    forall i | 0 <= i < |es| :: ValidEntry(es[i])
  }

  predicate Signable(s: State) {
    s.keyId != "" && s.userId != "" && AllValid(s.devices)
  }

  function NextRecord(c: Scheme, s: State, issuedAt: string): Json {
    var v := DirectoryJson(s.userId, s.revision + 1, issuedAt, JArr(EntriesJson(SortEntries(s.devices))), s.keyId);
    WithValue(v, Base64.Encode(c.sign(s.seed, SignedInput(v))))
  }

  /** `emit`: a failed signature takes the revision back, and nothing is emitted. */
  function Emit(c: Scheme, s: State, issuedAt: string): (State, Option<Json>) {
    if !Signable(s) then (s, None)
    else
      var v := NextRecord(c, s, issuedAt);
      (s.(revision := s.revision + 1, current := Some(v)), Some(v))
  }

  datatype Op = Add(entry: Entry, issuedAt: string) | Revoke(id: string, issuedAt: string)

  /** The state after an operation, and the record it emitted. */
  function Next(c: Scheme, s: State, op: Op): (State, Option<Json>) {
    match op
    case Add(e, at) =>
      if !AddableEntry(e) || Has(s.devices, e.id) then (s, None) else Emit(c, s.(devices := s.devices + [e]), at)
    case Revoke(id, at) =>
      if id == "" || !Has(s.devices, id) then (s, None) else Emit(c, s.(devices := Without(s.devices, id)), at)
  }

  /** A lifetime: the state and everything emitted so far. */
  datatype Life = Life(state: State, emitted: seq<Json>)

  function Record(r: (State, Option<Json>), emitted: seq<Json>): Life {
    Life(r.0, if r.1.Some? then emitted + [r.1.value] else emitted)
  }

  /** The constructor on an initial list of devices: it emits when there are any. */
  function Begin(c: Scheme, userId: string, seed: Bytes, keyId: string, initial: seq<Entry>, issuedAt: string): Life {
    var s := State(userId, seed, keyId, initial, 0, None);
    if initial == [] then Life(s, []) else Record(Emit(c, s, issuedAt), [])
  }

  function RunLife(c: Scheme, start: Life, ops: seq<Op>): Life {
    if ops == [] then start
    else
      var l := RunLife(c, start, ops[..|ops| - 1]);
      Record(Next(c, l.state, ops[|ops| - 1]), l.emitted)
  }

  /** Every emitted record has the next revision, and the last of them is the current one. */
  ghost predicate LifeOk(l: Life) {
    && l.state.revision == |l.emitted|
    && l.state.current == (if l.emitted == [] then None else Some(l.emitted[|l.emitted| - 1]))
    && forall i | 0 <= i < |l.emitted| :: HasRevision(l.emitted[i], l.state.userId, i + 1)
  }

  ghost predicate HasRevision(v: Json, userId: string, n: int) {
    exists devices :: Reports(v, userId, n, devices)
  }

  lemma {:induction false} EntriesWellFormed(es: seq<Entry>)
    ensures WellFormed(JArr(EntriesJson(es)))
  {
    forall i | 0 <= i < |es| ensures WellFormed(EntriesJson(es)[i]) {
      EntryShape(es[i]);
    }
  }

  lemma WithValueReports(v: Json, userId: string, revision: int, devices: Json, text: string)
    requires Reports(v, userId, revision, devices)
    ensures Reports(WithValue(v, text), userId, revision, devices)
  {
    PutLaws();
    FieldWellFormed(v, SIG_BLOCK);
    assert |SIG_BLOCK| == 9;
  }

  lemma EmitOk(c: Scheme, s: State, emitted: seq<Json>, issuedAt: string)
    requires LifeOk(Life(s, emitted))
    ensures LifeOk(Record(Emit(c, s, issuedAt), emitted))
  {
    if Signable(s) {
      NextReports(c, s, issuedAt);
      LifeGrows(s, emitted, NextRecord(c, s, issuedAt));
    }
  }

  lemma LifeGrows(s: State, emitted: seq<Json>, v: Json)
    requires LifeOk(Life(s, emitted)) && HasRevision(v, s.userId, s.revision + 1)
    ensures LifeOk(Life(s.(revision := s.revision + 1, current := Some(v)), emitted + [v]))
  {}

  lemma NextReports(c: Scheme, s: State, issuedAt: string)
    ensures HasRevision(NextRecord(c, s, issuedAt), s.userId, s.revision + 1)
  {
    var devices := JArr(EntriesJson(SortEntries(s.devices)));
    EntriesWellFormed(SortEntries(s.devices));
    var v := DirectoryJson(s.userId, s.revision + 1, issuedAt, devices, s.keyId);
    DirectoryShape(s.userId, s.revision + 1, issuedAt, devices, s.keyId);
    WithValueReports(v, s.userId, s.revision + 1, devices, Base64.Encode(c.sign(s.seed, SignedInput(v))));
  }

  ghost predicate Keeps(l: Life, r: (State, Option<Json>)) {
    LifeOk(Record(r, l.emitted)) && r.0.userId == l.state.userId
  }

  lemma AddOk(c: Scheme, l: Life, e: Entry, at: string)
    requires LifeOk(l)
    ensures Keeps(l, Next(c, l.state, Add(e, at)))
  {
    EmitOk(c, l.state.(devices := l.state.devices + [e]), l.emitted, at);
  }

  lemma RevokeOk(c: Scheme, l: Life, id: string, at: string)
    requires LifeOk(l)
    ensures Keeps(l, Next(c, l.state, Revoke(id, at)))
  {
    EmitOk(c, l.state.(devices := Without(l.state.devices, id)), l.emitted, at);
  }

  lemma NextOk(c: Scheme, l: Life, op: Op)
    requires LifeOk(l)
    ensures Keeps(l, Next(c, l.state, op))
  {
    match op
    case Add(e, at) => AddOk(c, l, e, at);
    case Revoke(id, at) => RevokeOk(c, l, id, at);
  }

  /** Over one lifetime: one record for every revision from 1 on, none twice and none left out. */
  lemma {:induction false} LivesOk(c: Scheme, start: Life, ops: seq<Op>)
    requires LifeOk(start)
    ensures LifeOk(RunLife(c, start, ops)) && RunLife(c, start, ops).state.userId == start.state.userId
  {
    if ops != [] {
      LivesOk(c, start, ops[..|ops| - 1]);
      NextOk(c, RunLife(c, start, ops[..|ops| - 1]), ops[|ops| - 1]);
    }
  }

  /** Every device has an id, and no two have the same. */
  predicate IdsOk(es: seq<Entry>) {
    (forall i | 0 <= i < |es| :: es[i].id != "") && forall i, j | 0 <= i < j < |es| :: es[i].id != es[j].id
  }

  /** The constructor with its errors. */
  function Construct(c: Scheme, userId: string, seed: Bytes, keyId: string, initial: seq<Entry>,
      issuedAt: string): Result<Life> {
    if userId == "" || seed == [] || keyId == "" then Err("missing")
    else if !IdsOk(initial) then Err("device_id")
    else if initial != [] && !AllValid(initial) then Err("sign")
    else Ok(Begin(c, userId, seed, keyId, initial, issuedAt))
  }

  /** A lifetime starts with revision 1 when there are devices, and with none when there are none. */
  lemma BeginOk(c: Scheme, userId: string, seed: Bytes, keyId: string, initial: seq<Entry>, issuedAt: string)
    ensures LifeOk(Begin(c, userId, seed, keyId, initial, issuedAt))
    ensures var r := Construct(c, userId, seed, keyId, initial, issuedAt);
      r.Ok? ==>
        && LifeOk(r.value) && r.value.state.devices == initial
        && |r.value.emitted| == if initial == [] then 0 else 1
  {
    EmitOk(c, State(userId, seed, keyId, initial, 0, None), [], issuedAt);
  }

  /** The ids stay distinct and present whatever is added and revoked. */
  lemma {:induction false} IdsStay(c: Scheme, start: Life, ops: seq<Op>)
    requires IdsOk(start.state.devices)
    ensures IdsOk(RunLife(c, start, ops).state.devices)
  {
    if ops != [] {
      IdsStay(c, start, ops[..|ops| - 1]);
      var s, op := RunLife(c, start, ops[..|ops| - 1]).state, ops[|ops| - 1];
      if op.Revoke? {
        WithoutIds(s.devices, op.id);
      }
    }
  }

  lemma {:induction false} WithoutMembers(es: seq<Entry>, id: string)
    ensures forall d | d in Without(es, id) :: d in es && d.id != id
  {
    if es != [] {
      WithoutMembers(es[1..], id);
      assert es == [es[0]] + es[1..];
    }
  }

  lemma {:induction false} WithoutIds(es: seq<Entry>, id: string)
    requires IdsOk(es)
    ensures IdsOk(Without(es, id))
  {
    if es != [] {
      WithoutIds(es[1..], id);
      WithoutMembers(es[1..], id);
      if es[0].id != id {
        forall d | d in es[1..] ensures d.id != es[0].id {}
        IdsCons(es[0], Without(es[1..], id));
      }
    }
  }

  lemma IdsCons(e: Entry, es: seq<Entry>)
    requires IdsOk(es) && e.id != "" && forall d | d in es :: d.id != e.id
    ensures IdsOk([e] + es)
  {}

  /** Some device with this id cannot be signed. */
  ghost predicate Unsignable(es: seq<Entry>, id: string) {
    exists i :: 0 <= i < |es| && es[i].id == id && !ValidEntry(es[i])
  }

  lemma {:induction false} WithoutKeeps(es: seq<Entry>, id: string, bad: string)
    requires id != bad && Unsignable(es, bad)
    ensures Unsignable(Without(es, id), bad)
  {
    if es[0].id == bad && !ValidEntry(es[0]) {
      assert Without(es, id)[0] == es[0];
    } else {
      var i :| 0 <= i < |es| && es[i].id == bad && !ValidEntry(es[i]);
      assert es[1..][i - 1] == es[i];
      WithoutKeeps(es[1..], id, bad);
      var rest := Without(es[1..], id);
      var j :| 0 <= j < |rest| && rest[j].id == bad && !ValidEntry(rest[j]);
      var k := if es[0].id == id then j else j + 1;
      assert Without(es, id)[k] == rest[j];
    }
  }

  /** An add that fails in signing leaves its device behind, and nothing is emitted until that device is revoked. */
  lemma {:induction false} FailedAddBlocks(c: Scheme, start: Life, ops: seq<Op>, bad: string)
    requires Unsignable(start.state.devices, bad)
    requires forall k | 0 <= k < |ops| && ops[k].Revoke? :: ops[k].id != bad
    ensures var l := RunLife(c, start, ops); l.emitted == start.emitted && Unsignable(l.state.devices, bad)
  {
    if ops != [] {
      FailedAddBlocks(c, start, ops[..|ops| - 1], bad);
      var l, op := RunLife(c, start, ops[..|ops| - 1]), ops[|ops| - 1];
      var i :| 0 <= i < |l.state.devices| && l.state.devices[i].id == bad && !ValidEntry(l.state.devices[i]);
      if op.Add? {
        assert (l.state.devices + [op.entry])[i] == l.state.devices[i];
      } else {
        WithoutKeeps(l.state.devices, op.id, bad);
      }
    }
  }

  /** Every device but those with this id can be signed. */
  predicate OthersValid(es: seq<Entry>, id: string) {
    forall i | 0 <= i < |es| && es[i].id != id :: ValidEntry(es[i])
  }

  lemma {:induction false} WithoutValid(es: seq<Entry>, id: string)
    ensures AllValid(Without(es, id)) <==> OthersValid(es, id)
  {
    if es != [] {
      WithoutValid(es[1..], id);
      assert OthersValid(es, id) <==> (es[0].id == id || ValidEntry(es[0])) && OthersValid(es[1..], id) by {
        assert forall i | 0 < i < |es| :: es[i] == es[1..][i - 1];
      }
      AllValidCons(es[0], Without(es[1..], id));
    }
  }

  lemma AllValidCons(e: Entry, es: seq<Entry>)
    ensures AllValid([e] + es) <==> ValidEntry(e) && AllValid(es)
  {
    assert forall i | 0 <= i < |es| :: ([e] + es)[i + 1] == es[i];
    assert ([e] + es)[0] == e;
    assert forall i | 0 < i < |[e] + es| :: ([e] + es)[i] == es[i - 1];
  }

  lemma {:induction false} WithoutDrops(es: seq<Entry>, id: string)
    ensures |Without(es, id)| <= |es| && (Has(es, id) ==> |Without(es, id)| < |es|)
  {
    if es != [] {
      WithoutDrops(es[1..], id);
      if Has(es, id) && es[0].id != id {
        var i :| 0 <= i < |es| && es[i].id == id;
        assert es[1..][i - 1].id == id;
      }
    }
  }

  /** What signing demands beside the entries. */
  predicate Named(s: State) {
    s.keyId != "" && s.userId != ""
  }

  /**
   * An add changes the devices and emits nothing exactly when the entry is new and addable and it, or a device that is
   * there already, cannot be signed; the device then stays.
   */
  lemma FailedAddStays(c: Scheme, s: State, e: Entry, issuedAt: string)
    ensures var (t, r) := Next(c, s, Add(e, issuedAt));
      r.None? && t != s <==> AddableEntry(e) && !Has(s.devices, e.id)
                             && !(Named(s) && ValidEntry(e) && AllValid(s.devices))
    ensures var (t, r) := Next(c, s, Add(e, issuedAt)); r.None? ==> t == s || t == s.(devices := s.devices + [e])
  {
    var more := s.devices + [e];
    assert more[|s.devices|] == e && forall i | 0 <= i < |s.devices| :: more[i] == s.devices[i];
    assert |more| != |s.devices|;
  }

  /**
   * A revocation changes the devices and emits nothing exactly when the device is there and another one cannot be
   * signed; the published record is then still the one before.
   */
  lemma FailedRevokeStays(c: Scheme, s: State, id: string, issuedAt: string)
    ensures var (t, r) := Next(c, s, Revoke(id, issuedAt));
      r.None? && t != s <==> id != "" && Has(s.devices, id) && !(Named(s) && OthersValid(s.devices, id))
    ensures var (t, r) := Next(c, s, Revoke(id, issuedAt));
      r.None? ==> t == s || t == s.(devices := Without(s.devices, id))
  {
    WithoutValid(s.devices, id);
    WithoutDrops(s.devices, id);
  }

  /** A revocation emits exactly when the device is there and every other one can be signed. */
  lemma RevokeEmits(c: Scheme, s: State, id: string, issuedAt: string)
    ensures Next(c, s, Revoke(id, issuedAt)).1.Some? <==>
      id != "" && Has(s.devices, id) && Named(s) && OthersValid(s.devices, id)
  {
    WithoutValid(s.devices, id);
  }

  /** Revoking a device whose add failed for its own sake takes the add back, and emission resumes. */
  lemma RevokeUnblocks(c: Scheme, s: State, e: Entry, issuedAt: string, later: string)
    requires AddableEntry(e) && !Has(s.devices, e.id) && !ValidEntry(e) && Signable(s)
    ensures var (t, r) := Next(c, s, Add(e, issuedAt));
      && r.None? && Unsignable(t.devices, e.id)
      && Next(c, t, Revoke(e.id, later)) == Emit(c, s, later) && Next(c, t, Revoke(e.id, later)).1.Some?
  {
    assert (s.devices + [e])[|s.devices|] == e;
    WithoutAdded(s.devices, e);
  }

  lemma {:induction false} WithoutAdded(es: seq<Entry>, e: Entry)
    requires !Has(es, e.id)
    ensures Without(es + [e], e.id) == es
  {
    if es == [] {
      assert Without([e], e.id) == [];
    } else {
      assert (es + [e])[1..] == es[1..] + [e];
      assert forall i | 0 <= i < |es[1..]| :: es[1..][i] == es[i + 1];
      WithoutAdded(es[1..], e);
    }
  }

  /** An entry that can be added and not signed. */
  const BARE := Entry("a", "k", "", "", None, "", "", "")
  const PHONE := Entry("b", "k", "ed25519", "full_access", None, "t", "n", "phone")

  /**
   * Inputs that show it: beside a published device an entry that cannot be signed is added and stays; then a device
   * that could be signed stays the same way, and the published one, once revoked, is still in the current record.
   */
  lemma FailedInputs(c: Scheme, s: State, laptop: Entry, at: string)
    requires s.devices == [PHONE] && Named(s) && ValidEntry(laptop) && laptop.id != "a" && laptop.id != "b"
    ensures ValidEntry(PHONE) && Next(c, s, Add(BARE, at)) == (s.(devices := [PHONE, BARE]), None)
    ensures var t := s.(devices := [PHONE, BARE]);
      && Next(c, t, Add(laptop, at)) == (t.(devices := [PHONE, BARE, laptop]), None)
      && Next(c, t, Revoke("b", at)) == (t.(devices := [BARE]), None)
  {
    assert [PHONE] + [BARE] == [PHONE, BARE] && [PHONE, BARE] + [laptop] == [PHONE, BARE, laptop];
    assert [PHONE, BARE][1] == BARE && !ValidEntry(BARE) && [PHONE, BARE, laptop][1] == BARE;
    assert [PHONE, BARE][0].id == "b" && [PHONE, BARE][1..] == [BARE] && [BARE][1..] == [];
    assert Without([BARE], "b") == [BARE] && Without([PHONE, BARE], "b") == Without([BARE], "b");
    assert [BARE][0] == BARE;
  }

  // ---------------------------------------------------------------- the consumer

  type Highest = map<string, int>

  predicate TextAt(v: Json, k: string) {
    Get(v, k).Some? && Get(v, k).value.JStr? && Get(v, k).value.s != ""
  }

  predicate ValidEntryJson(d: Json) {
    && TextAt(d, "device_id") && TextAt(d, "device_public_key") && TextAt(d, "device_identity_pubkey_algorithm")
    && TextAt(d, "enrolled_at") && TextAt(d, "device_name") && TextAt(d, "device_type")
    && (Get(d, "role") == Some(JStr("full_access")) || Get(d, "role") == Some(JStr("delegated")))
    && (Get(d, "role") == Some(JStr("full_access")) ==> Get(d, "certificate_id") == Some(JNull))
    && (Get(d, "role") == Some(JStr("delegated")) ==>
          && Get(d, "certificate_id").Some? && Get(d, "certificate_id").value != JNull
          && Get(d, "certificate_id").value != JStr(""))
  }

  predicate ValidDevices(v: Json) {
    && Get(v, "devices").Some? && Get(v, "devices").value.JArr?
    && (var ds := Get(v, "devices").value.items;
        && (forall i | 0 <= i < |ds| :: ValidEntryJson(ds[i]))
        && (forall i, j | 0 <= i < j < |ds| :: Get(ds[i], "device_id") != Get(ds[j], "device_id")))
  }

  predicate ValidDirectory(parse: string -> Option<int>, v: Json) {
    && Get(v, "type") == Some(JStr("SEMP_DEVICE_DIRECTORY")) && TextAt(v, "version") && TextAt(v, "user_id")
    && TextAt(v, "issued_at")
    && Get(v, "revision").Some? && Get(v, "revision").value.JNum? && Get(v, "revision").value.n >= 0
    && parse(Get(v, "issued_at").value.s).Some? && ValidDevices(v)
    && Dig(v, SIG_BLOCK, VALUE).Some? && Dig(v, SIG_BLOCK, VALUE).value.JStr? && Dig(v, SIG_BLOCK, VALUE).value.s != ""
  }

  predicate Verifies(c: Scheme, v: Json, pub: Bytes) {
    && Dig(v, SIG_BLOCK, VALUE).Some? && Dig(v, SIG_BLOCK, VALUE).value.JStr?
    && c.verify(pub, Base64.Decode(Dig(v, SIG_BLOCK, VALUE).value.s), SignedInput(v))
  }

  /** The optional check of every delegated entry's certificate. */
  predicate CertificatesOk(v: Json, check: Json -> bool)
    requires ValidDevices(v)
  {
    var ds := Get(v, "devices").value.items;
    forall i | 0 <= i < |ds| && Get(ds[i], "role") == Some(JStr("delegated")) ::
      check(Get(ds[i], "certificate_id").value)
  }

  /** Everything `verifyAndCache` checks before it records the revision. */
  predicate Accepts(c: Scheme, parse: string -> Option<int>, highest: Highest, v: Json, pub: Bytes,
      check: Json -> bool) {
    && ValidDirectory(parse, v) && pub != [] && Verifies(c, v, pub)
    && (var user := Get(v, "user_id").value.s; user in highest ==> Get(v, "revision").value.n >= highest[user])
    && CertificatesOk(v, check)
  }

  function Cached(c: Scheme, parse: string -> Option<int>, highest: Highest, v: Json, pub: Bytes,
      check: Json -> bool): Highest {
    if Accepts(c, parse, highest, v, pub, check)
    then highest[Get(v, "user_id").value.s := Get(v, "revision").value.n] else highest
  }

  /** Ideal signatures: if the key accepts the one in the record, it was signed as one of the records emitted. */
  ghost predicate Genuine(c: Scheme, v: Json, pub: Bytes, emitted: seq<Json>) {
    var value := Dig(v, SIG_BLOCK, VALUE);
    value.Some? && value.value.JStr? && c.verify(pub, Base64.Decode(value.value.s), SignedInput(v)) ==>
      exists i :: 0 <= i < |emitted| && SignedInput(v) == SignedInput(emitted[i])
  }

  /** The record reports the same user, revision and devices as the emitted record of its revision. */
  ghost predicate FromHistory(v: Json, l: Life) {
    && Get(v, "revision").Some? && Get(v, "revision").value.JNum?
    && 1 <= Get(v, "revision").value.n <= |l.emitted| && Get(v, "user_id") == Some(JStr(l.state.userId))
    && AgreeAt(v, l.emitted[Get(v, "revision").value.n - 1], "devices")
  }

  lemma MatchIsFromHistory(v: Json, l: Life, i: nat)
    requires LifeOk(l) && WellFormed(v) && v.JObj? && i < |l.emitted| && SignedInput(v) == SignedInput(l.emitted[i])
    requires Get(v, SIG_BLOCK).Some? && Get(v, SIG_BLOCK).value.JObj?
    ensures FromHistory(v, l)
  {
    assert HasRevision(l.emitted[i], l.state.userId, i + 1);
    var devices :| Reports(l.emitted[i], l.state.userId, i + 1, devices);
    SameRecord(v, l.emitted[i]);
  }

  lemma AcceptedWasEmitted(c: Scheme, parse: string -> Option<int>, highest: Highest, v: Json, pub: Bytes,
      check: Json -> bool, l: Life)
    requires LifeOk(l) && WellFormed(v) && v.JObj? && Accepts(c, parse, highest, v, pub, check)
    requires Genuine(c, v, pub, l.emitted)
    ensures FromHistory(v, l)
  {
    AcceptedShape(c, parse, highest, v, pub, check);
    var i :| 0 <= i < |l.emitted| && SignedInput(v) == SignedInput(l.emitted[i]);
    MatchIsFromHistory(v, l, i);
  }

  lemma AcceptedShape(c: Scheme, parse: string -> Option<int>, highest: Highest, v: Json, pub: Bytes,
      check: Json -> bool)
    requires Accepts(c, parse, highest, v, pub, check)
    ensures Verifies(c, v, pub) && TextAt(v, "user_id") && Get(v, "revision").Some? && Get(v, "revision").value.JNum?
    ensures Get(v, SIG_BLOCK).Some? && Get(v, SIG_BLOCK).value.JObj?
    ensures Get(v, "user_id").value.s in highest ==> highest[Get(v, "user_id").value.s] <= Get(v, "revision").value.n
  {}

  lemma SameRecord(v: Json, w: Json)
    requires WellFormed(v) && v.JObj? && WellFormed(w) && w.JObj? && SignedInput(v) == SignedInput(w)
    requires Get(v, SIG_BLOCK).Some? && Get(v, SIG_BLOCK).value.JObj? && Get(w, SIG_BLOCK).Some?
    requires Get(w, SIG_BLOCK).value.JObj?
    ensures AgreeAt(v, w, "devices") && SameScalar(v, w, "user_id") && SameScalar(v, w, "revision")
  {
    PutLaws();
    FieldWellFormed(v, SIG_BLOCK);
    FieldWellFormed(w, SIG_BLOCK);
    var a, b := WithValue(v, ""), WithValue(w, "");
    PrefixedInjective(Prefix(), a, b);
    CanonByKeys(a, b);
    assert |SIG_BLOCK| == 9;
    forall k | k != SIG_BLOCK ensures AgreeAt(v, w, k) {
      assert AgreeAt(a, b, k);
    }
    AgreeScalar(v, w, "user_id");
    AgreeScalar(v, w, "revision");
  }

  ghost predicate SameScalar(v: Json, w: Json, k: string) {
    Scalar(Get(w, k)) ==> Get(v, k) == Get(w, k)
  }

  lemma AgreeScalar(v: Json, w: Json, k: string)
    requires AgreeAt(v, w, k)
    ensures SameScalar(v, w, k)
  {}

  /** Two records of the same revision from the history list the same devices. */
  lemma SameRevisionSameDevices(v: Json, w: Json, l: Life)
    requires FromHistory(v, l) && FromHistory(w, l) && Get(v, "revision") == Get(w, "revision")
    ensures AgreeAt(v, w, "devices")
  {}

  /** The cached revision of every user only grows, over any run of records from the network. */
  function CacheAll(c: Scheme, parse: string -> Option<int>, highest: Highest, vs: seq<Json>, pub: Bytes,
      check: Json -> bool): Highest {
    if vs == [] then highest
    else Cached(c, parse, CacheAll(c, parse, highest, vs[..|vs| - 1], pub, check), vs[|vs| - 1], pub, check)
  }

  lemma {:induction false} CacheGrows(c: Scheme, parse: string -> Option<int>, highest: Highest, vs: seq<Json>,
      pub: Bytes,
      check: Json -> bool, i: nat, user: string)
    requires i <= |vs| && user in CacheAll(c, parse, highest, vs[..i], pub, check)
    ensures var later := CacheAll(c, parse, highest, vs, pub, check);
      user in later && CacheAll(c, parse, highest, vs[..i], pub, check)[user] <= later[user]
    decreases |vs|
  {
    if i == |vs| {
      assert vs[..i] == vs;
    } else {
      assert vs[..|vs| - 1][..i] == vs[..i];
      CacheGrows(c, parse, highest, vs[..|vs| - 1], pub, check, i, user);
    }
  }

  /** The cache as it stands before record `i`. */
  function Before(c: Scheme, parse: string -> Option<int>, vs: seq<Json>, pub: Bytes, check: Json -> bool,
      i: nat): Highest
    requires i <= |vs|
  {
    CacheAll(c, parse, map[], vs[..i], pub, check)
  }

  ghost predicate AcceptedAt(c: Scheme, parse: string -> Option<int>, vs: seq<Json>, pub: Bytes, check: Json -> bool,
      i: nat) {
    i < |vs| && Accepts(c, parse, Before(c, parse, vs, pub, check, i), vs[i], pub, check)
  }

  lemma RevisionsGrow(c: Scheme, parse: string -> Option<int>, vs: seq<Json>, pub: Bytes, check: Json -> bool,
      i: nat, j: nat)
    requires i < j && AcceptedAt(c, parse, vs, pub, check, i) && AcceptedAt(c, parse, vs, pub, check, j)
    requires Get(vs[i], "user_id") == Get(vs[j], "user_id")
    ensures TextAt(vs[i], "user_id") && Get(vs[i], "revision").Some? && Get(vs[i], "revision").value.JNum?
    ensures Get(vs[j], "revision").Some? && Get(vs[j], "revision").value.JNum?
    ensures Get(vs[i], "revision").value.n <= Get(vs[j], "revision").value.n
  {
    AcceptedShape(c, parse, Before(c, parse, vs, pub, check, i), vs[i], pub, check);
    AcceptedShape(c, parse, Before(c, parse, vs, pub, check, j), vs[j], pub, check);
    assert vs[..i + 1][..i] == vs[..i] && vs[..j][..i + 1] == vs[..i + 1];
    CacheGrows(c, parse, map[], vs[..j], pub, check, i + 1, Get(vs[i], "user_id").value.s);
  }

  /**
   * A consumer fed by a network that may replay: records it accepts, one before the other, come from the emission
   * history in order, and equal revisions list equal devices.
   */
  lemma OnlyForward(c: Scheme, parse: string -> Option<int>, vs: seq<Json>, pub: Bytes, check: Json -> bool, l: Life,
      i: nat, j: nat)
    requires LifeOk(l) && i < j < |vs| && AcceptedAt(c, parse, vs, pub, check, i)
    requires AcceptedAt(c, parse, vs, pub, check, j)
    requires forall k | 0 <= k < |vs| :: WellFormed(vs[k]) && vs[k].JObj? && Genuine(c, vs[k], pub, l.emitted)
    ensures FromHistory(vs[i], l) && FromHistory(vs[j], l)
    ensures Get(vs[i], "revision").value.n <= Get(vs[j], "revision").value.n
    ensures Get(vs[i], "revision") == Get(vs[j], "revision") ==> AgreeAt(vs[i], vs[j], "devices")
  {
    AcceptedWasEmitted(c, parse, Before(c, parse, vs, pub, check, i), vs[i], pub, check, l);
    AcceptedWasEmitted(c, parse, Before(c, parse, vs, pub, check, j), vs[j], pub, check, l);
    RevisionsGrow(c, parse, vs, pub, check, i, j);
    if Get(vs[i], "revision") == Get(vs[j], "revision") {
      SameRevisionSameDevices(vs[i], vs[j], l);
    }
  }

  // ---------------------------------------------------------------- in place

  class DirectoryState {
    const c: Scheme
    const userId: string
    const seed: Bytes
    const keyId: string
    var devices: seq<Entry>
    var revisionCounter: nat
    var currentDir: Option<Json>

    function View(): State
      reads this
    {
      State(userId, seed, keyId, devices, revisionCounter, currentDir)
    }

    constructor (c: Scheme, userId: string, seed: Bytes, keyId: string)
      requires userId != "" && seed != [] && keyId != ""
      ensures this.c == c && View() == State(userId, seed, keyId, [], 0, None)
    {
      this.c, this.userId, this.seed, this.keyId := c, userId, seed, keyId;
      devices, revisionCounter, currentDir := [], 0, None;
    }

    method EmitRecord(issuedAt: string) returns (emitted: Option<Json>)
      modifies this
      ensures (View(), emitted) == Emit(c, old(View()), issuedAt)
    {
      revisionCounter := revisionCounter + 1;
      var entries := SortEntries(devices);
      var dir := DirectoryJson(userId, revisionCounter, issuedAt, JArr(EntriesJson(entries)), keyId);
      if !Signable(View()) {
        revisionCounter := revisionCounter - 1;
        return None;
      }
      dir := WithValue(dir, Base64.Encode(c.sign(seed, SignedInput(dir))));
      currentDir := Some(dir);
      emitted := Some(dir);
    }

    /** When signing throws, the device stays. */
    method AddDevice(e: Entry, issuedAt: string) returns (emitted: Option<Json>)
      modifies this
      ensures (View(), emitted) == Next(c, old(View()), Add(e, issuedAt))
    {
      if !AddableEntry(e) || Has(devices, e.id) {
        return None;
      }
      devices := devices + [e];
      emitted := EmitRecord(issuedAt);
    }

    method RevokeDevice(id: string, issuedAt: string) returns (emitted: Option<Json>)
      modifies this
      ensures (View(), emitted) == Next(c, old(View()), Revoke(id, issuedAt))
    {
      if id == "" || !Has(devices, id) {
        return None;
      }
      devices := Without(devices, id);
      emitted := EmitRecord(issuedAt);
    }
  }

  class DirectoryCache {
    const c: Scheme
    const parse: string -> Option<int>
    var highest: Highest

    constructor (c: Scheme, parse: string -> Option<int>)
      ensures this.c == c && this.parse == parse && highest == map[]
    {
      this.c, this.parse := c, parse;
      highest := map[];
    }

    method VerifyAndCache(v: Json, pub: Bytes, check: Json -> bool) returns (ok: bool)
      modifies this
      ensures ok == Accepts(c, parse, old(highest), v, pub, check)
      ensures highest == Cached(c, parse, old(highest), v, pub, check)
    {
      if !ValidDirectory(parse, v) || pub == [] || !Verifies(c, v, pub) {
        return false;
      }
      var user, revision := Get(v, "user_id").value.s, Get(v, "revision").value.n;
      if user in highest && revision < highest[user] {
        return false;
      }
      ok := CheckCertificates(v, check);
      if ok {
        highest := highest[user := revision];
      }
    }

    method CheckCertificates(v: Json, check: Json -> bool) returns (ok: bool)
      requires ValidDevices(v)
      ensures ok == CertificatesOk(v, check)
    {
      var ds := Get(v, "devices").value.items;
      for i := 0 to |ds|
        invariant forall k | 0 <= k < i && Get(ds[k], "role") == Some(JStr("delegated")) ::
          check(Get(ds[k], "certificate_id").value)
      {
        if Get(ds[i], "role") == Some(JStr("delegated")) && !check(Get(ds[i], "certificate_id").value) {
          return false;
        }
      }
      ok := true;
    }
  }
}
