/** The migration record as the object that the signing passes mutate, and the registry that acceptance updates. */
module MigrationParties {
  import opened Wrappers
  import opened Json
  import opened Signing
  import opened Migration
  import opened MigrationFlow
  import opened Lockout
  import Base64

  class MigrationRecord {
    var doc: Json

    constructor (doc: Json)
      ensures this.doc == doc
    {
      this.doc := doc;
    }

    /** When it throws, the first three slots are already prepared. */
    method PrepareSignatures(ids: seq<string>, oldDomainKeyId: Option<string>) returns (thrown: Option<string>)
      requires |ids| == 3
      modifies this
      ensures var r := Prepare(old(doc), ids, oldDomainKeyId);
        if r.Ok? then thrown == None && doc == r.value
        else thrown == Some(r.error) && doc == PrepareThree(old(doc), ids)
    {
      var cooperative := IsCooperative(doc);
      doc := doc.Put(SlotName(0), Block("ed25519", ids[0]));
      doc := doc.Put(SlotName(1), Block("ed25519", ids[1]));
      doc := doc.Put(SlotName(2), Block("ed25519", ids[2]));
      if cooperative {
        if oldDomainKeyId.None? || oldDomainKeyId.value == "" {
          return Some("oldDomainKeyId");
        }
        doc := doc.Put(SlotName(3), Block("ed25519", oldDomainKeyId.value));
      } else {
        doc := doc.Put(SlotName(3), JNull);
      }
      thrown := None;
    }

    /** One signing pass; a record whose pass throws is as it was. */
    method Sign(c: Scheme, i: nat, seed: Bytes, keyId: string) returns (r: Result<string>)
      requires i < 4
      modifies this
      ensures var spec := SignPass(c, old(doc), i, seed, keyId);
        if spec.Ok? then doc == spec.value && r.Ok? && Dig(doc, SlotName(i), VALUE) == Some(JStr(r.value))
        else doc == old(doc) && r == Err(spec.error)
    {
      if !MaySign(doc, i) {
        return Err("pass order");
      }
      var slot := Get(doc, SlotName(i));
      if slot.None? || !slot.value.JObj? {
        return Err("slot");
      }
      if Get(slot.value, "algorithm") == Some(JStr("")) || Get(slot.value, "key_id") == Some(JStr("")) {
        return Err("prepare");
      }
      if Get(slot.value, "key_id") != Some(JStr(keyId)) {
        return Err("key_id");
      }
      var view := BlankFromIndex(doc, i);
      var sig := c.sign(seed, Prefixed(Prefix(), view));
      PutLaws();
      GetIsObject(doc, SlotName(i));
      doc := doc.Put(SlotName(i), slot.value.Put(VALUE, JStr(Base64.Encode(sig))));
      r := Ok(Base64.Encode(sig));
    }
  }

  lemma GetIsObject(v: Json, k: string)
    requires Get(v, k).Some?
    ensures v.JObj?
  {}

  class LockoutRegistry {
    const lower: string -> string
    var entries: Registry

    constructor (lower: string -> string)
      ensures entries == map[] && this.lower == lower
    {
      this.lower := lower;
      entries := map[];
    }

    method Reserve(localpart: string, until: int, recordId: string) returns (thrown: Option<string>)
      modifies this
      ensures var r := Lockout.Reserve(old(entries), lower, Reservation(localpart, until, recordId));
        if r.Ok? then thrown == None && entries == r.value else thrown == Some(r.error) && entries == old(entries)
    {
      if localpart == "" {
        return Some("empty localpart");
      }
      if lower(localpart) in entries {
        return Some("already locked out");
      }
      entries := entries[lower(localpart) := Reservation(localpart, until, recordId)];
      thrown := None;
    }

    /** A reservation found run out is dropped. */
    method IsLockedOut(localpart: string, now: int) returns (found: Option<Reservation>)
      modifies this
      ensures found == Lookup(old(entries), lower, localpart, now)
      ensures entries == Next(old(entries), lower, LookupOp(localpart, now))
    {
      var key := lower(localpart);
      if key !in entries {
        assert entries - {key} == entries;
        return None;
      }
      if RunOut(entries[key], now) {
        entries := entries - {key};
        return None;
      }
      found := Some(entries[key]);
    }

    method Release(localpart: string)
      modifies this
      ensures entries == Next(old(entries), lower, ReleaseOp(localpart))
    {
      entries := entries - {lower(localpart)};
    }

    method PruneExpired(now: int) returns (pruned: nat)
      modifies this
      ensures entries == Next(old(entries), lower, PruneOp(now)) && pruned == |old(entries)| - |entries|
    {
      pruned := 0;
      ghost var before := entries;
      var todo := entries.Keys;
      while todo != {}
        invariant todo <= before.Keys
        invariant forall key :: key in entries <==> key in before && (key in todo || !RunOut(before[key], now))
        invariant forall key | key in entries :: entries[key] == before[key]
        invariant pruned == |before| - |entries|
        decreases |todo|
      {
        var key :| key in todo;
        todo := todo - {key};
        if RunOut(entries[key], now) {
          assert entries.Keys == (entries - {key}).Keys + {key};
          entries := entries - {key};
          pruned := pruned + 1;
        }
      }
      assert entries == Next(before, lower, PruneOp(now));
    }
  }

  class PublicationStore {
    const lower: string -> string
    var byId: map<string, Json>
    var byAddress: map<string, Json>

    ghost function Contents(): Published
      reads this
    {
      Published(byId, byAddress)
    }

    constructor (lower: string -> string)
      ensures Contents() == Published(map[], map[]) && this.lower == lower
    {
      this.lower := lower;
      byId, byAddress := map[], map[];
    }

    method PutRecord(v: Json) returns (thrown: Option<string>)
      modifies this
      ensures var r := Publish(old(Contents()), lower, v);
        if r.Ok? then thrown == None && Contents() == r.value
        else thrown == Some(r.error) && Contents() == old(Contents())
    {
      var id, address := TextOf(Get(v, "record_id")), TextOf(Get(v, "old_address"));
      if id == "" {
        return Some("empty record_id");
      }
      if address == "" {
        return Some("empty old_address");
      }
      byId := byId[id := v];
      byAddress := byAddress[lower(address) := v];
      thrown := None;
    }
  }

  /** The record is the one that was made, or as it was when the call threw. */
  ghost predicate Outcome(before: Json, after: Json, r: Result<Json>, thrown: Option<string>) {
    if r.Ok? then thrown == None && after == r.value else thrown == Some(r.error) && after == before
  }

  /**
   * `acceptSubmission`, with or without a registry and a store.  The local part is reserved before the
   * countersignature, and stays reserved when that throws; what is countersigned is published.
   */
  method AcceptSubmission(c: Scheme, clock: Clock, record: MigrationRecord, registry: LockoutRegistry?,
      store: PublicationStore?, p: Policies) returns (thrown: Option<string>)
    requires (registry != null ==> p.lower == registry.lower) && (store != null ==> p.lower == store.lower)
    modifies record, registry, store
    ensures registry != null ==> var (r, reserved) := Accept(c, clock, old(registry.entries), old(record.doc), p);
      registry.entries == reserved && Outcome(old(record.doc), record.doc, r, thrown)
    ensures registry == null ==> Outcome(old(record.doc), record.doc, Countersign(c, clock, old(record.doc), p), thrown)
    ensures store != null ==>
      if thrown.None? then Publish(old(store.Contents()), p.lower, record.doc) == Ok(store.Contents())
      else store.Contents() == old(store.Contents())
  {
    ghost var before := record.doc;
    if !Acceptable(c, clock, record.doc, p) {
      return Some("refused");
    }
    if registry != null {
      var until := clock.parse(TextOf(Get(record.doc, "notice_window_until")));
      if until.Some? {
        var local := LocalPart(TextOf(Get(record.doc, "old_address")));
        thrown := registry.Reserve(local, until.value, TextOf(Get(record.doc, "record_id")));
        if thrown.Some? {
          return;
        }
      }
    }
    var r := record.Sign(c, 3, p.seed, p.keyId);
    if r.Err? {
      return Some(r.error);
    }
    thrown := None;
    if store != null {
      AcceptedPublishes(c, clock, before, p, store.Contents());
      thrown := store.PutRecord(record.doc);
    }
  }

  /** `composeMigrationRecord`: a new record, signed in place pass by pass. */
  method ComposeMigrationRecord(c: Scheme, x: Inputs, lastSeed: Option<Bytes>, extensions: Option<Json>)
    returns (record: MigrationRecord, thrown: Option<string>)
    ensures fresh(record)
    ensures var r := Compose(c, x, lastSeed, extensions);
      if r.Ok? then thrown == None && record.doc == r.value else thrown == Some(r.error)
  {
    record := new MigrationRecord(WithExtensions(NewRecord(Normal(x.body)), extensions));
    thrown := SignAllSlots(c, record, x, lastSeed);
  }

  method SignAllSlots(c: Scheme, record: MigrationRecord, x: Inputs,
      lastSeed: Option<Bytes>) returns (thrown: Option<string>)
    modifies record
    ensures var r := SignAll(c, old(record.doc), x, lastSeed);
      if r.Ok? then thrown == None && record.doc == r.value else thrown == Some(r.error)
  {
    thrown := record.PrepareSignatures(x.Ids(), x.lastKeyId);
    if thrown.Some? {
      return;
    }
    var r := record.Sign(c, 0, x.oldSeed, x.body.oldKeyId);
    if r.Err? {
      return Some(r.error);
    }
    r := record.Sign(c, 1, x.newSeed, x.body.newKeyId);
    if r.Err? {
      return Some(r.error);
    }
    r := record.Sign(c, 2, x.domainSeed, x.domainKeyId);
    if r.Err? {
      return Some(r.error);
    }
    if x.body.mode == Cooperative() {
      if lastSeed.None? || x.lastKeyId.None? || x.lastKeyId.value == "" {
        return Some("oldDomainSeed");
      }
      r := record.Sign(c, 3, lastSeed.value, x.lastKeyId.value);
      if r.Err? {
        return Some(r.error);
      }
    }
    thrown := None;
  }
}
