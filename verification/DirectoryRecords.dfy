/** What an emitted directory record lists, and that a consumer with the right key takes it. */
module DirectoryRecords {
  import opened Wrappers
  import opened Json
  import opened Signing
  import opened Directory
  import Base64

  // ---------------------------------------------------------------- one entry

  function CertificateJson(e: Entry): Json {
    if e.certificate.Some? then JStr(e.certificate.value) else JNull
  }

  /** The entry as it is listed: every field under its name. */
  ghost predicate Describes(d: Json, e: Entry) {
    && Get(d, "device_id") == Some(JStr(e.id)) && Get(d, "device_public_key") == Some(JStr(e.key))
    && Get(d, "device_identity_pubkey_algorithm") == Some(JStr(e.algorithm)) && Get(d, "role") == Some(JStr(e.role))
    && Get(d, "certificate_id") == Some(CertificateJson(e)) && Get(d, "enrolled_at") == Some(JStr(e.enrolledAt))
    && Get(d, "device_name") == Some(JStr(e.name)) && Get(d, "device_type") == Some(JStr(e.kind))
  }

  lemma EntryAt(e: Entry, i: nat, key: string)
    requires i < |EntryJson(e).fields| && EntryJson(e).fields[i].key == key
    ensures Get(EntryJson(e), key) == Some(EntryJson(e).fields[i].value)
  {
    EntryTagged(e);
    TagsDistinct(EntryJson(e).fields, EntryTags());
  }

  lemma EntryDescribes(e: Entry)
    ensures Describes(EntryJson(e), e)
  {
    EntryAt(e, 0, "device_id");
    EntryAt(e, 1, "device_public_key");
    EntryAt(e, 2, "device_identity_pubkey_algorithm");
    EntryAt(e, 3, "role");
    EntryAt(e, 4, "certificate_id");
    EntryAt(e, 5, "enrolled_at");
    EntryAt(e, 6, "device_name");
    EntryAt(e, 7, "device_type");
  }

  lemma EntryValid(d: Json, e: Entry)
    requires Describes(d, e) && ValidEntry(e)
    ensures ValidEntryJson(d)
  {}

  // ---------------------------------------------------------------- the list

  function Ids(es: seq<Entry>): (ks: seq<string>) {
    seq(|es|, i requires 0 <= i < |es| => es[i].id)
  }

  lemma IdsOfCons(e: Entry, es: seq<Entry>)
    ensures Ids([e] + es) == [e.id] + Ids(es)
  {}

  lemma {:induction false} InsertEntryIds(e: Entry, es: seq<Entry>)
    ensures Ids(InsertEntry(e, es)) == Insert(e.id, Ids(es))
    ensures multiset(InsertEntry(e, es)) == multiset(es) + multiset{e}
  {
    if es != [] {
      assert es == [es[0]] + es[1..];
      IdsOfCons(es[0], es[1..]);
      IdsOfCons(e, es);
      if !KeyLess(e.id, es[0].id) {
        InsertEntryIds(e, es[1..]);
        IdsOfCons(es[0], InsertEntry(e, es[1..]));
        assert Ids(es)[1..] == Ids(es[1..]);
      }
    }
  }

  /** The sorted entries are the same entries, and their ids the sorted ids. */
  lemma {:induction false} SortEntriesIds(es: seq<Entry>)
    ensures Ids(SortEntries(es)) == SortKeys(Ids(es))
    ensures multiset(SortEntries(es)) == multiset(es)
  {
    if es != [] {
      assert es == [es[0]] + es[1..];
      IdsOfCons(es[0], es[1..]);
      SortEntriesIds(es[1..]);
      InsertEntryIds(es[0], SortEntries(es[1..]));
      assert Ids(es)[1..] == Ids(es[1..]);
    }
  }

  lemma IdsDistinct(es: seq<Entry>)
    requires IdsOk(es)
    ensures Distinct(Ids(es))
  {}

  /** The record lists exactly these devices, each with its own fields, in the order of their ids. */
  ghost predicate Lists(v: Json, es: seq<Entry>) {
    && Get(v, "devices").Some? && Get(v, "devices").value.JArr?
    && exists sorted :: ListsInOrder(Get(v, "devices").value.items, sorted) && multiset(sorted) == multiset(es)
  }

  ghost predicate ListsInOrder(items: seq<Json>, sorted: seq<Entry>) {
    && |items| == |sorted| && InUnitOrder(Ids(sorted))
    && forall i | 0 <= i < |items| :: Describes(items[i], sorted[i])
  }

  lemma EntriesListed(es: seq<Entry>)
    requires IdsOk(es)
    ensures ListsInOrder(EntriesJson(SortEntries(es)), SortEntries(es)) && multiset(SortEntries(es)) == multiset(es)
  {
    var sorted := SortEntries(es);
    SortEntriesIds(es);
    IdsDistinct(es);
    SortKeysSorts(Ids(es));
    forall i | 0 <= i < |sorted| ensures Describes(EntriesJson(sorted)[i], sorted[i]) {
      EntryDescribes(sorted[i]);
    }
  }

  // ---------------------------------------------------------------- the record

  /** The head of the record and its signature, which the key accepts. */
  ghost predicate Headed(c: Scheme, v: Json, userId: string, revision: int, pub: Bytes, issuedAt: string) {
    && Get(v, "type") == Some(JStr("SEMP_DEVICE_DIRECTORY")) && Get(v, "version") == Some(JStr("1.0.0"))
    && Get(v, "user_id") == Some(JStr(userId)) && Get(v, "revision") == Some(JNum(revision))
    && Get(v, "issued_at") == Some(JStr(issuedAt))
    && Dig(v, SIG_BLOCK, VALUE).Some? && Dig(v, SIG_BLOCK, VALUE).value.JStr? && Dig(v, SIG_BLOCK, VALUE).value.s != ""
    && c.verify(pub, Base64.Decode(Dig(v, SIG_BLOCK, VALUE).value.s), SignedInput(v))
  }

  lemma UnsignedAt(userId: string, revision: int, issuedAt: string, devices: Json, keyId: string, i: nat, key: string)
    requires WellFormed(devices)
    requires i < |DirectoryJson(userId, revision, issuedAt, devices, keyId).fields|
    requires DirectoryJson(userId, revision, issuedAt, devices, keyId).fields[i].key == key
    ensures Get(DirectoryJson(userId, revision, issuedAt, devices, keyId), key)
      == Some(DirectoryJson(userId, revision, issuedAt, devices, keyId).fields[i].value)
  {
    DirectoryReads(userId, revision, issuedAt, devices, keyId);
  }

  /** The record before it is signed: its head, and the rest. */
  ghost predicate UnsignedHead(v: Json, userId: string, revision: int) {
    && Get(v, "type") == Some(JStr("SEMP_DEVICE_DIRECTORY")) && Get(v, "version") == Some(JStr("1.0.0"))
    && Get(v, "user_id") == Some(JStr(userId)) && Get(v, "revision") == Some(JNum(revision))
  }

  ghost predicate UnsignedRest(v: Json, issuedAt: string, devices: Json) {
    && WellFormed(v) && v.JObj? && Get(v, "issued_at") == Some(JStr(issuedAt)) && Get(v, "devices") == Some(devices)
    && Get(v, SIG_BLOCK).Some? && Get(v, SIG_BLOCK).value.JObj?
  }

  lemma HeadReads(userId: string, revision: int, issuedAt: string, devices: Json, keyId: string)
    requires WellFormed(devices)
    ensures UnsignedHead(DirectoryJson(userId, revision, issuedAt, devices, keyId), userId, revision)
  {
    UnsignedAt(userId, revision, issuedAt, devices, keyId, 0, "type");
    UnsignedAt(userId, revision, issuedAt, devices, keyId, 1, "version");
    UnsignedAt(userId, revision, issuedAt, devices, keyId, 2, "user_id");
    UnsignedAt(userId, revision, issuedAt, devices, keyId, 3, "revision");
  }

  lemma RestReads(userId: string, revision: int, issuedAt: string, devices: Json, keyId: string)
    requires WellFormed(devices)
    ensures UnsignedRest(DirectoryJson(userId, revision, issuedAt, devices, keyId), issuedAt, devices)
  {
    DirectoryReads(userId, revision, issuedAt, devices, keyId);
    UnsignedAt(userId, revision, issuedAt, devices, keyId, 4, "issued_at");
    UnsignedAt(userId, revision, issuedAt, devices, keyId, 5, "devices");
    UnsignedAt(userId, revision, issuedAt, devices, keyId, 6, SIG_BLOCK);
  }

  /** Signing changes the value in the signature block, and nothing that is signed. */
  lemma SignedHeaded(c: Scheme, v: Json, userId: string, revision: int, seed: Bytes, issuedAt: string, devices: Json)
    requires Sound(c) && UnsignedHead(v, userId, revision) && UnsignedRest(v, issuedAt, devices)
    ensures var w := WithValue(v, Base64.Encode(c.sign(seed, SignedInput(v))));
      Headed(c, w, userId, revision, c.pub(seed), issuedAt) && Get(w, "devices") == Some(devices)
  {
    var sig := c.sign(seed, SignedInput(v));
    SignatureText(sig);
    ValueSet(v, Base64.Encode(sig));
    assert |SIG_BLOCK| == 9;
  }

  lemma ValueSet(v: Json, text: string)
    requires v.JObj? && Get(v, SIG_BLOCK).Some? && Get(v, SIG_BLOCK).value.JObj?
    ensures var w := WithValue(v, text);
      && (forall k | k != SIG_BLOCK :: Get(w, k) == Get(v, k))
      && Dig(w, SIG_BLOCK, VALUE) == Some(JStr(text)) && SignedInput(w) == SignedInput(v)
  {
    PutLaws();
    var block := Get(v, SIG_BLOCK).value;
    SetTwice(block.fields, VALUE, JStr(text), JStr(""));
    SetTwice(v.fields, SIG_BLOCK, block.Put(VALUE, JStr(text)), block.Put(VALUE, JStr("")));
  }

  /**
   * The next record lists exactly the devices of the state, in the order of their ids and each field under its name,
   * and is signed under the state's key.
   */
  lemma NextRecordLists(c: Scheme, s: State, issuedAt: string)
    requires Sound(c) && IdsOk(s.devices)
    ensures Headed(c, NextRecord(c, s, issuedAt), s.userId, s.revision + 1, c.pub(s.seed), issuedAt)
    ensures Lists(NextRecord(c, s, issuedAt), s.devices)
  {
    var devices := JArr(EntriesJson(SortEntries(s.devices)));
    EntriesWellFormed(SortEntries(s.devices));
    HeadReads(s.userId, s.revision + 1, issuedAt, devices, s.keyId);
    RestReads(s.userId, s.revision + 1, issuedAt, devices, s.keyId);
    var v := DirectoryJson(s.userId, s.revision + 1, issuedAt, devices, s.keyId);
    SignedHeaded(c, v, s.userId, s.revision + 1, s.seed, issuedAt, devices);
    EntriesListed(s.devices);
    assert ListsInOrder(devices.items, SortEntries(s.devices));
  }

  /** A record emitted in a state: signed under its next revision, listing its devices. */
  ghost predicate EmittedBy(c: Scheme, v: Json, s: State, devices: seq<Entry>, issuedAt: string) {
    Headed(c, v, s.userId, s.revision + 1, c.pub(s.seed), issuedAt) && Lists(v, devices)
  }

  lemma EmitLists(c: Scheme, s: State, issuedAt: string, t: State, v: Json)
    requires Sound(c) && IdsOk(s.devices) && Emit(c, s, issuedAt) == (t, Some(v))
    ensures EmittedBy(c, v, s, s.devices, issuedAt) && t.devices == s.devices
  {
    NextRecordLists(c, s, issuedAt);
  }

  /** Whatever an operation emits lists the devices that are there after it, under the next revision. */
  lemma EmittedLists(c: Scheme, s: State, op: Op, t: State, v: Json)
    requires Sound(c) && IdsOk(s.devices) && Next(c, s, op) == (t, Some(v))
    ensures IdsOk(t.devices) && EmittedBy(c, v, s, t.devices, op.issuedAt)
  {
    match op
    case Add(e, at) => AddLists(c, s, e, at, t, v);
    case Revoke(id, at) => RevokeLists(c, s, id, at, t, v);
  }

  lemma AddLists(c: Scheme, s: State, e: Entry, at: string, t: State, v: Json)
    requires Sound(c) && IdsOk(s.devices) && Next(c, s, Add(e, at)) == (t, Some(v))
    ensures IdsOk(t.devices) && EmittedBy(c, v, s, t.devices, at)
  {
    EmitLists(c, s.(devices := s.devices + [e]), at, t, v);
  }

  lemma RevokeLists(c: Scheme, s: State, id: string, at: string, t: State, v: Json)
    requires Sound(c) && IdsOk(s.devices) && Next(c, s, Revoke(id, at)) == (t, Some(v))
    ensures IdsOk(t.devices) && EmittedBy(c, v, s, t.devices, at)
  {
    WithoutIds(s.devices, id);
    EmitLists(c, s.(devices := Without(s.devices, id)), at, t, v);
  }

  // ---------------------------------------------------------------- the consumer takes it

  lemma ListedValid(v: Json, es: seq<Entry>)
    requires Lists(v, es) && AllValid(es) && IdsOk(es)
    ensures ValidDevices(v)
  {
    var items := Get(v, "devices").value.items;
    var sorted :| ListsInOrder(items, sorted) && multiset(sorted) == multiset(es);
    forall i | 0 <= i < |items| ensures ValidEntryJson(items[i]) {
      SameMembers(sorted, es, sorted[i]);
      EntryValid(items[i], sorted[i]);
    }
    SortedByUnits(Ids(sorted));
    SortedDistinct(Ids(sorted));
    forall i, j | 0 <= i < j < |items| ensures Get(items[i], "device_id") != Get(items[j], "device_id") {
      assert Ids(sorted)[i] != Ids(sorted)[j];
      assert Describes(items[i], sorted[i]) && Describes(items[j], sorted[j]);
    }
  }

  lemma SameMembers(sorted: seq<Entry>, es: seq<Entry>, e: Entry)
    requires multiset(sorted) == multiset(es) && e in sorted
    ensures e in es
  {
    assert e in multiset(sorted);
  }

  /** The certificate of every delegated device passes the consumer's check. */
  ghost predicate Certified(es: seq<Entry>, check: Json -> bool) {
    forall e | e in es && e.role == "delegated" :: check(CertificateJson(e))
  }

  lemma ListedCertified(v: Json, es: seq<Entry>, check: Json -> bool)
    requires Lists(v, es) && ValidDevices(v) && Certified(es, check)
    ensures CertificatesOk(v, check)
  {
    var items := Get(v, "devices").value.items;
    var sorted :| ListsInOrder(items, sorted) && multiset(sorted) == multiset(es);
    forall i | 0 <= i < |items| && Get(items[i], "role") == Some(JStr("delegated"))
      ensures check(Get(items[i], "certificate_id").value)
    {
      SameMembers(sorted, es, sorted[i]);
      assert Describes(items[i], sorted[i]);
    }
  }

  lemma HeadedValid(c: Scheme, parse: string -> Option<int>, v: Json, s: State, issuedAt: string)
    requires Headed(c, v, s.userId, s.revision + 1, c.pub(s.seed), issuedAt) && ValidDevices(v)
    requires s.userId != "" && issuedAt != "" && parse(issuedAt).Some?
    ensures ValidDirectory(parse, v) && Verifies(c, v, c.pub(s.seed))
  {}

  /** A consumer with the right key that has seen no later revision takes what is emitted, and keeps its revision. */
  lemma EmittedAccepted(c: Scheme, parse: string -> Option<int>, s: State, issuedAt: string, highest: Highest,
      check: Json -> bool)
    requires Sound(c) && IdsOk(s.devices) && Signable(s) && issuedAt != "" && parse(issuedAt).Some?
    requires s.userId in highest ==> highest[s.userId] <= s.revision + 1
    requires Certified(s.devices, check)
    ensures Emit(c, s, issuedAt).1.Some?
    ensures var v := Emit(c, s, issuedAt).1.value;
      && Accepts(c, parse, highest, v, c.pub(s.seed), check)
      && Cached(c, parse, highest, v, c.pub(s.seed), check) == highest[s.userId := s.revision + 1]
  {
    var v := NextRecord(c, s, issuedAt);
    NextRecordLists(c, s, issuedAt);
    ListedValid(v, s.devices);
    ListedCertified(v, s.devices, check);
    HeadedValid(c, parse, v, s, issuedAt);
  }

  /**
   * What a consumer takes, whoever made it: the key accepts the signature, the revision is not below the highest one
   * seen, no two devices have the same id, and every delegated device's certificate passed the check.
   */
  lemma AcceptedMeans(c: Scheme, parse: string -> Option<int>, highest: Highest, v: Json, pub: Bytes,
      check: Json -> bool, i: nat, j: nat)
    requires Accepts(c, parse, highest, v, pub, check)
    ensures Get(v, "user_id").Some? && Get(v, "user_id").value.JStr? && Get(v, "user_id").value.s != ""
    ensures Get(v, "revision").Some? && Get(v, "revision").value.JNum?
    ensures Get(v, "user_id").value.s in highest ==> Get(v, "revision").value.n >= highest[Get(v, "user_id").value.s]
    ensures Dig(v, SIG_BLOCK, VALUE).Some? && Dig(v, SIG_BLOCK, VALUE).value.JStr?
    ensures c.verify(pub, Base64.Decode(Dig(v, SIG_BLOCK, VALUE).value.s), SignedInput(v))
    ensures Get(v, "devices").Some? && Get(v, "devices").value.JArr?
    ensures var ds := Get(v, "devices").value.items;
      && (i < j < |ds| ==> Get(ds[i], "device_id") != Get(ds[j], "device_id"))
      && (i < |ds| ==>
            && TextAt(ds[i], "device_id") && TextAt(ds[i], "device_public_key")
            && (if Get(ds[i], "role") == Some(JStr("full_access")) then Get(ds[i], "certificate_id") == Some(JNull)
                else
                  && Get(ds[i], "role") == Some(JStr("delegated")) && Get(ds[i], "certificate_id").Some?
                  && Get(ds[i], "certificate_id").value != JNull && check(Get(ds[i], "certificate_id").value)))
  {
    AcceptedShape(c, parse, highest, v, pub, check);
    var ds := Get(v, "devices").value.items;
    assert i < |ds| ==> ValidEntryJson(ds[i]);
  }
}
