/** The sending-side scheduler over its in-memory store: a map of queue records updated in place. */
module Scheduler {
  import opened Wrappers
  import opened Queue
  import opened QueueRuns
  import Json

  type Store = map<string, Record>

  /** Every record is stored under its own key. */
  ghost predicate Keyed(records: Store) {
    forall k | k in records :: KeyOf(records[k].envelope, records[k].recipient) == k
  }

  function Look(records: Store, key: string): Option<Record> {
    if key in records then Some(records[key]) else None
  }

  function TickOf(s: Settings, q: Record, op: Op): (Record, Option<Event>)
    requires op.TickOp?
  {
    Ticked(s, q, op.now, op.deliver(q.envelope, q.recipient), op.draw(q.envelope, q.recipient))
  }

  /** The store after an operation. */
  function NextStore(s: Settings, records: Store, op: Op): Store {
    match op
    case EnqueueOp(e, r, expires, now) =>
      if e == "" || r == "" || KeyOf(e, r) in records then records
      else records[KeyOf(e, r) := NewRecord(s, e, r, expires, now)]
    case TickOp(now, deliver, draw) => map k | k in records :: TickOf(s, records[k], op).0
    case CancelOp(e, r, now) =>
      if KeyOf(e, r) in records then records[KeyOf(e, r) := Cancelled(s, records[KeyOf(e, r)], now).0] else records
    case CancelEnvelopeOp(e, now) =>
      if e == "" then records else map k | k in records :: EnvelopeCancelled(s, records[k], e, now).0
    case PruneOp(now, retention) => map k | k in records && !Stale(records[k], now, retention) :: records[k]
  }

  lemma AttemptedKeeps(s: Settings, q: Record, op: Op)
    requires op.TickOp?
    ensures TickOf(s, q, op).0.envelope == q.envelope && TickOf(s, q, op).0.recipient == q.recipient
  {}

  lemma NextStoreKeyed(s: Settings, records: Store, op: Op)
    requires Keyed(records)
    ensures Keyed(NextStore(s, records, op))
  {
    if op.TickOp? {
      forall k | k in records
        ensures TickOf(s, records[k], op).0.envelope == records[k].envelope
        ensures TickOf(s, records[k], op).0.recipient == records[k].recipient
      {
        AttemptedKeeps(s, records[k], op);
      }
    }
  }

  /** What the store holds under a key is the record of the key's own run. */
  lemma StoreIsOne(s: Settings, records: Store, one: One, key: string, op: Op)
    requires Look(records, key) == one.record
    ensures Look(NextStore(s, records, op), key) == NextOne(s, one, key, op).record
  {}

  function RunStore(s: Settings, ops: seq<Op>): Store {
    if ops == [] then map[] else NextStore(s, RunStore(s, ops[..|ops| - 1]), ops[|ops| - 1])
  }

  lemma {:induction false} StoreIsRuns(s: Settings, ops: seq<Op>, key: string)
    ensures Look(RunStore(s, ops), key) == RunOne(s, key, ops).record && Keyed(RunStore(s, ops))
  {
    if ops != [] {
      StoreIsRuns(s, ops[..|ops| - 1], key);
      StoreIsOne(s, RunStore(s, ops[..|ops| - 1]), RunOne(s, key, ops[..|ops| - 1]), key, ops[|ops| - 1]);
      NextStoreKeyed(s, RunStore(s, ops[..|ops| - 1]), ops[|ops| - 1]);
    }
  }

  // ---------------------------------------------------------------- order of due records

  function NextTime(q: Record): int {
    if q.next.Some? then q.next.value else 0
  }

  /** By next attempt, then by envelope id. */
  predicate Before(a: Record, b: Record) {
    NextTime(a) < NextTime(b) || (NextTime(a) == NextTime(b) && Json.KeyLess(a.envelope, b.envelope))
  }

  lemma NotBeforeTransitive(a: Record, b: Record, c: Record)
    requires !Before(b, a) && !Before(c, b)
    ensures !Before(c, a)
  {
    Json.KeyLessTotal(a.envelope, b.envelope);
    Json.KeyLessTotal(b.envelope, c.envelope);
    if Before(c, a) {
      assert NextTime(a) == NextTime(b) == NextTime(c);
      if a.envelope != b.envelope && b.envelope != c.envelope {
        Json.KeyLessTransitive(a.envelope, b.envelope, c.envelope);
        Json.KeyLessTotal(a.envelope, c.envelope);
      }
    }
  }

  /** The keys are in the order their records are to be taken. */
  ghost predicate InOrder(records: Store, keys: seq<string>) {
    && (forall k | k in keys :: k in records)
    && (forall i, j | 0 <= i < j < |keys| :: keys[i] != keys[j] && !Before(records[keys[j]], records[keys[i]]))
  }

  ghost predicate DueAt(records: Store, keys: seq<string>, now: int) {
    InOrder(records, keys) && forall k :: k in keys <==> k in records && Due(records[k], now)
  }

  function InsertDue(records: Store, k: string, keys: seq<string>): seq<string>
    requires k in records && forall j | j in keys :: j in records
  {
    if keys == [] then [k]
    else
      assert keys[0] in keys;
      if !Before(records[keys[0]], records[k]) then [k] + keys else [keys[0]] + InsertDue(records, k, keys[1..])
  }

  lemma {:induction false} InsertDueInOrder(records: Store, k: string, keys: seq<string>)
    requires k in records && InOrder(records, keys) && k !in keys
    ensures InOrder(records, InsertDue(records, k, keys))
    ensures forall j :: j in InsertDue(records, k, keys) <==> j == k || j in keys
  {
    if keys != [] {
      assert keys == [keys[0]] + keys[1..] && keys[0] in keys;
      if !Before(records[keys[0]], records[k]) {
        forall j | 0 <= j < |keys| ensures !Before(records[keys[j]], records[k]) && keys[j] != k {
          assert keys[j] in keys;
          if j > 0 {
            NotBeforeTransitive(records[k], records[keys[0]], records[keys[j]]);
          }
        }
      } else {
        InsertDueInOrder(records, k, keys[1..]);
        var r := InsertDue(records, k, keys[1..]);
        Json.KeyLessTotal(records[keys[0]].envelope, records[k].envelope);
        forall j | 0 <= j < |r| ensures !Before(records[r[j]], records[keys[0]]) && keys[0] != r[j] {
          assert r[j] in r;
          if r[j] != k {
            var i :| 0 <= i < |keys[1..]| && keys[1..][i] == r[j];
            assert keys[i + 1] == r[j];
          }
        }
      }
    }
  }

  // ---------------------------------------------------------------- the object

  /** The events of a tick, record by record. */
  function TickEvents(s: Settings, records: Store, keys: seq<string>, op: Op): seq<Event>
    requires op.TickOp? && forall k | k in keys :: k in records
  {
    if keys == [] then []
    else
      assert keys[|keys| - 1] in keys;
      TickEvents(s, records, keys[..|keys| - 1], op) + AsSeq(TickOf(s, records[keys[|keys| - 1]], op).1)
  }

  /** The events of a whole-envelope cancellation, record by record. */
  function CancelEvents(s: Settings, records: Store, keys: seq<string>, e: string, now: int): seq<Event>
    requires forall k | k in keys :: k in records
  {
    if keys == [] then []
    else
      var last := keys[|keys| - 1];
      assert last in keys;
      CancelEvents(s, records, keys[..|keys| - 1], e, now) + AsSeq(EnvelopeCancelled(s, records[last], e, now).1)
  }

  /** How many of the records were taken without their deliver call throwing. */
  function Done(records: Store, keys: seq<string>, op: Op): nat
    requires op.TickOp? && forall k | k in keys :: k in records
  {
    if keys == [] then 0
    else
      assert keys[|keys| - 1] in keys;
      Done(records, keys[..|keys| - 1], op) + if Threw(records[keys[|keys| - 1]], op) then 0 else 1
  }

  /** The error of the first deliver call that threw. */
  function FirstError(records: Store, keys: seq<string>, op: Op): Option<string>
    requires op.TickOp? && forall k | k in keys :: k in records
  {
    if keys == [] then None
    else
      assert keys[|keys| - 1] in keys;
      var q, earlier := records[keys[|keys| - 1]], FirstError(records, keys[..|keys| - 1], op);
      if earlier.None? && Threw(q, op) then Some(op.deliver(q.envelope, q.recipient).error) else earlier
  }

  /** The store after the records of these keys were taken, one after another. */
  function TakeKeys(s: Settings, records: Store, keys: seq<string>, op: Op): Store
    requires op.TickOp? && forall k | k in keys :: k in records
  {
    if keys == [] then records
    else
      assert keys[|keys| - 1] in keys;
      TakeKeys(s, records, keys[..|keys| - 1], op)[keys[|keys| - 1] := TickOf(s, records[keys[|keys| - 1]], op).0]
  }

  lemma {:induction false} TakeKeysIs(s: Settings, records: Store, keys: seq<string>, op: Op)
    requires op.TickOp? && forall k | k in keys :: k in records
    ensures TakeKeys(s, records, keys, op).Keys == records.Keys
    ensures forall k | k in records ::
      TakeKeys(s, records, keys, op)[k] == if k in keys then TickOf(s, records[k], op).0 else records[k]
  {
    if keys != [] {
      TakeKeysIs(s, records, keys[..|keys| - 1], op);
      assert keys == keys[..|keys| - 1] + [keys[|keys| - 1]];
    }
  }

  /** Each record is still as it was when its turn comes. */
  lemma TakeKeysAt(s: Settings, records: Store, keys: seq<string>, op: Op, i: nat)
    requires op.TickOp? && InOrder(records, keys) && i < |keys|
    ensures (forall k | k in keys[..i] :: k in records) && keys[i] in records
    ensures keys[i] in TakeKeys(s, records, keys[..i], op)
    ensures TakeKeys(s, records, keys[..i], op)[keys[i]] == records[keys[i]]
  {
    assert keys[i] in keys && keys[i] !in keys[..i];
    TakeKeysIs(s, records, keys[..i], op);
  }

  /** Taking the due records is taking all: a tick does nothing to the others. */
  lemma TakeKeysAll(s: Settings, records: Store, keys: seq<string>, op: Op)
    requires op.TickOp? && DueAt(records, keys, op.now)
    ensures TakeKeys(s, records, keys, op) == NextStore(s, records, op)
  {
    TakeKeysIs(s, records, keys, op);
    forall k | k in records && k !in keys ensures TickOf(s, records[k], op).0 == records[k] {
      assert !Due(records[k], op.now);
    }
  }

  /** The store after the records of these keys were cancelled where they are of the envelope. */
  function CancelKeys(s: Settings, records: Store, keys: seq<string>, e: string, now: int): Store
    requires forall k | k in keys :: k in records
  {
    if keys == [] then records
    else
      var last := keys[|keys| - 1];
      assert last in keys;
      CancelKeys(s, records, keys[..|keys| - 1], e, now)[last := EnvelopeCancelled(s, records[last], e, now).0]
  }

  lemma {:induction false} CancelKeysIs(s: Settings, records: Store, keys: seq<string>, e: string, now: int)
    requires forall k | k in keys :: k in records
    ensures CancelKeys(s, records, keys, e, now).Keys == records.Keys
    ensures forall k | k in records ::
      CancelKeys(s, records, keys, e, now)[k]
        == if k in keys then EnvelopeCancelled(s, records[k], e, now).0 else records[k]
  {
    if keys != [] {
      CancelKeysIs(s, records, keys[..|keys| - 1], e, now);
      assert keys == keys[..|keys| - 1] + [keys[|keys| - 1]];
    }
  }

  /** Each record is still as it was when its turn comes. */
  lemma CancelKeysAt(s: Settings, records: Store, keys: seq<string>, e: string, now: int, i: nat)
    requires InOrder(records, keys) && i < |keys|
    ensures (forall k | k in keys[..i] :: k in records) && keys[i] in records
    ensures keys[i] in CancelKeys(s, records, keys[..i], e, now)
    ensures CancelKeys(s, records, keys[..i], e, now)[keys[i]] == records[keys[i]]
  {
    assert keys[i] in keys && keys[i] !in keys[..i];
    CancelKeysIs(s, records, keys[..i], e, now);
  }

  lemma CancelStep(s: Settings, records: Store, keys: seq<string>, e: string, now: int, i: nat)
    requires InOrder(records, keys) && i < |keys|
    ensures (forall k | k in keys[..i] :: k in records) && (forall k | k in keys[..i + 1] :: k in records)
    ensures keys[i] in records
    ensures CancelKeys(s, records, keys[..i + 1], e, now)
      == CancelKeys(s, records, keys[..i], e, now)[keys[i] := EnvelopeCancelled(s, records[keys[i]], e, now).0]
    ensures CancelEvents(s, records, keys[..i + 1], e, now)
      == CancelEvents(s, records, keys[..i], e, now) + AsSeq(EnvelopeCancelled(s, records[keys[i]], e, now).1)
  {
    assert keys[i] in keys && keys[..i + 1][..i] == keys[..i];
  }

  /** Cancelling within reach is cancelling all that the operation cancels. */
  lemma CancelKeysAll(s: Settings, records: Store, keys: seq<string>, e: string, now: int)
    requires e != "" && DueAt(records, keys, now + 2 * s.horizon)
    ensures CancelKeys(s, records, keys, e, now) == NextStore(s, records, CancelEnvelopeOp(e, now))
  {
    CancelKeysIs(s, records, keys, e, now);
    forall k | k in records && k !in keys ensures EnvelopeCancelled(s, records[k], e, now).0 == records[k] {
      assert !InReach(s, records[k], now);
    }
  }

  /** The keys of the envelope's records. */
  function OfEnvelope(records: Store, keys: seq<string>, e: string): seq<string>
    requires forall k | k in keys :: k in records
  {
    if keys == [] then []
    else
      var last := keys[|keys| - 1];
      assert last in keys;
      OfEnvelope(records, keys[..|keys| - 1], e) + if records[last].envelope == e then [last] else []
  }

  lemma {:induction false} OfEnvelopeAre(records: Store, keys: seq<string>, e: string)
    requires forall k | k in keys :: k in records
    ensures forall k :: k in OfEnvelope(records, keys, e) <==> k in keys && records[k].envelope == e
  {
    if keys != [] {
      OfEnvelopeAre(records, keys[..|keys| - 1], e);
      assert keys == keys[..|keys| - 1] + [keys[|keys| - 1]];
    }
  }

  // ---------------------------------------------------------------- what the sink receives

  /** The events of an operation; `order` is the order that a tick or a whole-envelope cancellation takes records in. */
  function OpEvents(s: Settings, records: Store, op: Op, order: seq<string>): seq<Event>
    requires forall k | k in order :: k in records
  {
    match op
    case TickOp(now, deliver, draw) => TickEvents(s, records, order, op)
    case CancelOp(e, r, now) => if KeyOf(e, r) in records then AsSeq(Cancelled(s, records[KeyOf(e, r)], now).1) else []
    case CancelEnvelopeOp(e, now) => if e == "" then [] else CancelEvents(s, records, order, e, now)
    case _ => []
  }

  /** The order is that of the records found due. */
  ghost predicate OrderOk(s: Settings, records: Store, op: Op, order: seq<string>) {
    match op
    case TickOp(now, deliver, draw) => DueAt(records, order, now)
    case CancelEnvelopeOp(e, now) => DueAt(records, order, now + 2 * s.horizon)
    case _ => InOrder(records, order)
  }

  /** The event that an operation leads to for one key. */
  function EventFor(s: Settings, record: Option<Record>, key: string, op: Op): Option<Event> {
    if record.None? then None
    else
      match op
      case TickOp(now, deliver, draw) => TickOf(s, record.value, op).1
      case CancelOp(e, r, now) => if KeyOf(e, r) == key then Cancelled(s, record.value, now).1 else None
      case CancelEnvelopeOp(e, now) => if e == "" then None else EnvelopeCancelled(s, record.value, e, now).1
      case _ => None
  }

  function EventsOf(lives: seq<Life>): seq<Event> {
    if lives == [] then [] else EventsOf(lives[..|lives| - 1]) + lives[|lives| - 1].events
  }

  /** The events of all lives of a key, one after another. */
  function AllEvents(one: One): seq<Event> {
    EventsOf(one.past) + if one.record.Some? then one.life.events else []
  }

  lemma NextAddsEvent(s: Settings, one: One, key: string, op: Op)
    ensures AllEvents(NextOne(s, one, key, op)) == AllEvents(one) + AsSeq(EventFor(s, one.record, key, op))
  {
    var next := NextOne(s, one, key, op);
    if next.past != one.past {
      assert next.past[..|one.past|] == one.past;
    }
  }

  /** The events that the sink receives for a key. */
  function ForKey(log: seq<Event>, key: string): seq<Event> {
    if log == [] then []
    else
      var e := log[|log| - 1];
      ForKey(log[..|log| - 1], key) + if KeyOf(e.envelope, e.recipient) == key then [e] else []
  }

  lemma {:induction false} ForKeyConcat(a: seq<Event>, b: seq<Event>, key: string)
    ensures ForKey(a + b, key) == ForKey(a, key) + ForKey(b, key)
  {
    if b == [] {
      assert a + b == a;
    } else {
      assert (a + b)[..|a + b| - 1] == a + b[..|b| - 1];
      ForKeyConcat(a, b[..|b| - 1], key);
    }
  }

  lemma ForKeyOne(e: Option<Event>, q: Record, key: string)
    requires e.Some? ==> e.value.envelope == q.envelope && e.value.recipient == q.recipient
    ensures ForKey(AsSeq(e), key) == if KeyOf(q.envelope, q.recipient) == key then AsSeq(e) else []
  {
    if e.Some? {
      assert AsSeq(e)[..0] == [];
    }
  }

  lemma TickEventKey(s: Settings, q: Record, op: Op, key: string)
    requires op.TickOp?
    ensures var event := TickOf(s, q, op).1;
      ForKey(AsSeq(event), key) == if KeyOf(q.envelope, q.recipient) == key then AsSeq(event) else []
  {
    ForKeyOne(TickOf(s, q, op).1, q, key);
  }

  lemma {:induction false} TickEventsFor(s: Settings, records: Store, keys: seq<string>, op: Op, key: string)
    requires op.TickOp? && Keyed(records) && InOrder(records, keys)
    ensures ForKey(TickEvents(s, records, keys, op), key)
      == if key in keys then AsSeq(TickOf(s, records[key], op).1) else []
  {
    if keys != [] {
      var front, k := keys[..|keys| - 1], keys[|keys| - 1];
      FrontInOrder(records, keys);
      TickEventsFor(s, records, front, op, key);
      TickEventKey(s, records[k], op, key);
      ForKeyConcat(TickEvents(s, records, front, op), AsSeq(TickOf(s, records[k], op).1), key);
    }
  }

  lemma FrontInOrder(records: Store, keys: seq<string>)
    requires keys != [] && InOrder(records, keys)
    ensures var front, k := keys[..|keys| - 1], keys[|keys| - 1];
      keys == front + [k] && InOrder(records, front) && k in records && k !in front
  {
    var front, k := keys[..|keys| - 1], keys[|keys| - 1];
    assert keys == front + [k] && k in keys;
    assert forall j | j in front :: j in keys;
  }

  lemma CancelEventKey(s: Settings, q: Record, e: string, now: int, key: string)
    ensures var event := EnvelopeCancelled(s, q, e, now).1;
      ForKey(AsSeq(event), key) == if KeyOf(q.envelope, q.recipient) == key then AsSeq(event) else []
  {
    ForKeyOne(EnvelopeCancelled(s, q, e, now).1, q, key);
  }

  lemma {:induction false} CancelEventsFor(s: Settings, records: Store, keys: seq<string>, e: string, now: int,
      key: string)
    requires Keyed(records) && InOrder(records, keys)
    ensures ForKey(CancelEvents(s, records, keys, e, now), key)
      == if key in keys then AsSeq(EnvelopeCancelled(s, records[key], e, now).1) else []
  {
    if keys != [] {
      var front, k := keys[..|keys| - 1], keys[|keys| - 1];
      FrontInOrder(records, keys);
      CancelEventsFor(s, records, front, e, now, key);
      CancelEventKey(s, records[k], e, now, key);
      ForKeyConcat(CancelEvents(s, records, front, e, now), AsSeq(EnvelopeCancelled(s, records[k], e, now).1), key);
    }
  }

  /** Of an operation's events the sink receives for each key just the one that the operation leads to there, if any. */
  lemma OpEventsFor(s: Settings, records: Store, op: Op, order: seq<string>, key: string)
    requires Keyed(records) && OrderOk(s, records, op, order)
    ensures ForKey(OpEvents(s, records, op, order), key) == AsSeq(EventFor(s, Look(records, key), key, op))
  {
    match op
    case TickOp(now, deliver, draw) => TickOpEvents(s, records, op, order, key);
    case CancelOp(e, r, now) => CancelOpEvents(s, records, e, r, now, key);
    case CancelEnvelopeOp(e, now) => CancelEnvelopeOpEvents(s, records, e, now, order, key);
    case _ =>
  }

  lemma TickOpEvents(s: Settings, records: Store, op: Op, order: seq<string>, key: string)
    requires op.TickOp? && Keyed(records) && DueAt(records, order, op.now)
    ensures ForKey(TickEvents(s, records, order, op), key) == AsSeq(EventFor(s, Look(records, key), key, op))
  {
    TickEventsFor(s, records, order, op, key);
    if key in records && key !in order {
      assert !Due(records[key], op.now);
    }
  }

  lemma CancelOpEvents(s: Settings, records: Store, e: string, r: string, now: int, key: string)
    requires Keyed(records)
    ensures ForKey(OpEvents(s, records, CancelOp(e, r, now), []), key)
      == AsSeq(EventFor(s, Look(records, key), key, CancelOp(e, r, now)))
  {
    if KeyOf(e, r) in records {
      var q := records[KeyOf(e, r)];
      ForKeyOne(Cancelled(s, q, now).1, q, key);
    }
  }

  lemma CancelEnvelopeOpEvents(s: Settings, records: Store, e: string, now: int, order: seq<string>, key: string)
    requires Keyed(records) && DueAt(records, order, now + 2 * s.horizon)
    ensures ForKey(if e == "" then [] else CancelEvents(s, records, order, e, now), key)
      == AsSeq(EventFor(s, Look(records, key), key, CancelEnvelopeOp(e, now)))
  {
    CancelEventsFor(s, records, order, e, now, key);
    if key in records && key !in order {
      OutOfReach(s, records[key], e, now);
    }
  }

  lemma OutOfReach(s: Settings, q: Record, e: string, now: int)
    ensures !InReach(s, q, now) ==> EnvelopeCancelled(s, q, e, now) == (q, None)
  {}

  /** An operation, and the order in which it took the records. */
  datatype Step = Step(op: Op, order: seq<string>)

  function Ops(steps: seq<Step>): (ops: seq<Op>)
    ensures |ops| == |steps| && forall i | 0 <= i < |ops| :: ops[i] == steps[i].op
  {
    seq(|steps|, i requires 0 <= i < |steps| => steps[i].op)
  }

  ghost predicate StepsOk(s: Settings, steps: seq<Step>) {
    forall i | 0 <= i < |steps| :: OrderOk(s, RunStore(s, Ops(steps[..i])), steps[i].op, steps[i].order)
  }

  lemma FrontOk(s: Settings, steps: seq<Step>)
    requires steps != [] && StepsOk(s, steps)
    ensures var front, last := steps[..|steps| - 1], steps[|steps| - 1];
      && StepsOk(s, front) && OrderOk(s, RunStore(s, Ops(front)), last.op, last.order)
      && (forall k | k in last.order :: k in RunStore(s, Ops(front)))
  {
    var front, last := steps[..|steps| - 1], steps[|steps| - 1];
    forall i | 0 <= i < |front| ensures OrderOk(s, RunStore(s, Ops(front[..i])), front[i].op, front[i].order) {
      assert front[..i] == steps[..i];
    }
  }

  lemma OpsFront(steps: seq<Step>)
    requires steps != []
    ensures Ops(steps)[..|steps| - 1] == Ops(steps[..|steps| - 1]) && Ops(steps)[|steps| - 1] == steps[|steps| - 1].op
  {}

  /** What the sink has received after these steps. */
  function RunLog(s: Settings, steps: seq<Step>): seq<Event>
    requires StepsOk(s, steps)
  {
    if steps == [] then []
    else
      var front, last := steps[..|steps| - 1], steps[|steps| - 1];
      FrontOk(s, steps);
      RunLog(s, front) + OpEvents(s, RunStore(s, Ops(front)), last.op, last.order)
  }

  /** In every run the sink receives for each key just the events of the key's lives, in order. */
  lemma {:induction false} LogIsRuns(s: Settings, steps: seq<Step>, key: string)
    requires StepsOk(s, steps)
    ensures ForKey(RunLog(s, steps), key) == AllEvents(RunOne(s, key, Ops(steps)))
  {
    if steps != [] {
      var front, last := steps[..|steps| - 1], steps[|steps| - 1];
      FrontOk(s, steps);
      LogIsRuns(s, front, key);
      StoreIsRuns(s, Ops(front), key);
      LogStep(s, RunStore(s, Ops(front)), RunOne(s, key, Ops(front)), RunLog(s, front), last, key);
      OpsFront(steps);
    }
  }

  lemma LogStep(s: Settings, records: Store, one: One, log: seq<Event>, step: Step, key: string)
    requires Keyed(records) && Look(records, key) == one.record && ForKey(log, key) == AllEvents(one)
    requires OrderOk(s, records, step.op, step.order)
    ensures ForKey(log + OpEvents(s, records, step.op, step.order), key) == AllEvents(NextOne(s, one, key, step.op))
  {
    OpEventsFor(s, records, step.op, step.order, key);
    ForKeyConcat(log, OpEvents(s, records, step.op, step.order), key);
    NextAddsEvent(s, one, key, step.op);
  }

  lemma {:induction false} EventsOfCount(lives: seq<Life>)
    requires forall k | 0 <= k < |lives| :: |lives[k].events| == 1
    ensures |EventsOf(lives)| == |lives|
  {
    if lives != [] {
      EventsOfCount(lives[..|lives| - 1]);
    }
  }

  /**
   * With a sink: in every run it has received one event for each record of the key that turned terminal, and no more.
   */
  lemma OneEventEach(s: Settings, steps: seq<Step>, key: string)
    requires StepsOk(s, steps) && s.sink && forall k | 0 <= k < |steps| :: DrawsOk(steps[k].op)
    ensures var one := RunOne(s, key, Ops(steps));
      |ForKey(RunLog(s, steps), key)|
        == |one.past| + if one.record.Some? && one.record.value.state != Queued then 1 else 0
  {
    LogIsRuns(s, steps, key);
    RunsOk(s, key, Ops(steps));
    EventsOfCount(RunOne(s, key, Ops(steps)).past);
  }

  class SchedulerObject {
    const s: Settings
    var records: Store
    var tickInFlight: bool
    /** Every event handed to the sink, in order. */
    ghost var log: seq<Event>

    ghost predicate Valid()
      reads this
    {
      Keyed(records) && !tickInFlight
    }

    constructor (s: Settings)
      ensures Valid() && this.s == s && records == map[] && log == []
    {
      this.s, records, tickInFlight, log := s, map[], false, [];
    }

    method Enqueue(e: string, r: string, expires: Option<int>, now: int) returns (thrown: Option<string>)
      requires Valid()
      modifies this
      ensures Valid() && records == NextStore(s, old(records), EnqueueOp(e, r, expires, now)) && log == old(log)
      ensures thrown.None? <==> e != "" && r != "" && KeyOf(e, r) !in old(records)
    {
      if e == "" {
        return Some("empty envelope_id");
      }
      if r == "" {
        return Some("empty recipient");
      }
      if KeyOf(e, r) in records {
        return Some("already exists");
      }
      records := records[KeyOf(e, r) := NewRecord(s, e, r, expires, now)];
      thrown := None;
    }

    /** `dueRecords`: the keys of the due records, in order. */
    method DueRecords(now: int) returns (due: seq<string>)
      ensures DueAt(records, due, now)
    {
      due := [];
      var todo := records.Keys;
      while todo != {}
        invariant todo <= records.Keys && InOrder(records, due)
        invariant forall k :: k in due <==> k in records && k !in todo && Due(records[k], now)
        decreases |todo|
      {
        var k :| k in todo;
        todo := todo - {k};
        if Due(records[k], now) {
          InsertDueInOrder(records, k, due);
          due := InsertDue(records, k, due);
        }
      }
    }

    /** `deliver` and `draw` say what each call would give; the ghost result is the order the records were taken in. */
    method Tick(op: Op)
      returns (thrown: Option<string>, advanced: nat, firstError: Option<string>, ghost due: seq<string>)
      requires Keyed(records) && op.TickOp?
      modifies this
      ensures tickInFlight == old(tickInFlight) && Keyed(records)
      ensures old(tickInFlight) ==> thrown.Some? && records == old(records) && log == old(log)
      ensures !old(tickInFlight) ==> thrown.None? && OrderOk(s, old(records), op, due)
      ensures !old(tickInFlight) ==> records == NextStore(s, old(records), op)
      ensures !old(tickInFlight) ==> log == old(log) + OpEvents(s, old(records), op, due)
      ensures !old(tickInFlight) ==> advanced == Done(old(records), due, op)
      ensures !old(tickInFlight) ==> firstError == FirstError(old(records), due, op)
    {
      due, advanced, firstError := [], 0, None;
      if tickInFlight {
        return Some("tick already in progress"), 0, None, [];
      }
      thrown := None;
      tickInFlight := true;
      var keys := DueRecords(op.now);
      due := keys;
      ghost var before := records;
      advanced, firstError := TakeAll(keys, op);
      TakeKeysAll(s, before, keys, op);
      NextStoreKeyed(s, before, op);
      tickInFlight := false;
    }

    method TakeAll(keys: seq<string>, op: Op) returns (advanced: nat, firstError: Option<string>)
      requires op.TickOp? && InOrder(records, keys)
      modifies this
      ensures records == TakeKeys(s, old(records), keys, op) && tickInFlight == old(tickInFlight)
      ensures log == old(log) + TickEvents(s, old(records), keys, op) && advanced == Done(old(records), keys, op)
      ensures firstError == FirstError(old(records), keys, op)
    {
      advanced, firstError := 0, None;
      ghost var before := records;
      for i := 0 to |keys|
        invariant records == TakeKeys(s, before, keys[..i], op) && tickInFlight == old(tickInFlight)
        invariant log == old(log) + TickEvents(s, before, keys[..i], op) && advanced == Done(before, keys[..i], op)
        invariant firstError == FirstError(before, keys[..i], op)
      {
        TakeKeysAt(s, before, keys, op, i);
        assert keys[..i + 1][..i] == keys[..i];
        var error := Take(keys[i], op);
        if error.None? {
          advanced := advanced + 1;
        } else if firstError.None? {
          firstError := error;
        }
      }
      assert keys[..|keys|] == keys;
    }

    /** One due record; when deliver throws, the stored record stays as it is. */
    method Take(key: string, op: Op) returns (error: Option<string>)
      requires op.TickOp? && key in records
      modifies this
      ensures tickInFlight == old(tickInFlight)
      ensures records == old(records)[key := TickOf(s, old(records)[key], op).0]
      ensures log == old(log) + AsSeq(TickOf(s, old(records)[key], op).1)
      ensures var q := old(records)[key];
        error == if Threw(q, op) then Some(op.deliver(q.envelope, q.recipient).error) else None
    {
      var q := records[key];
      if Calls(q, op.now) {
        var o := op.deliver(q.envelope, q.recipient);
        if o.Throws? {
          assert records == records[key := q];
          return Some(o.error);
        }
        var (next, event) := Attempted(s, q, op.now, o, op.draw(q.envelope, q.recipient));
        records := records[key := next];
        log := log + AsSeq(event);
      } else if Due(q, op.now) {
        var (next, event) := End(s, q, Expired, op.now, None);
        records := records[key := next];
        log := log + AsSeq(event);
      } else {
        assert records == records[key := q];
      }
      error := None;
    }

    method Cancel(e: string, r: string, now: int) returns (state: Option<State>)
      requires Valid()
      modifies this
      ensures Valid() && records == NextStore(s, old(records), CancelOp(e, r, now))
      ensures state.None? <==> KeyOf(e, r) !in old(records)
      ensures state.Some? ==> state.value == records[KeyOf(e, r)].state
      ensures log == old(log) + OpEvents(s, old(records), CancelOp(e, r, now), [])
    {
      var key := KeyOf(e, r);
      if key !in records {
        return None;
      }
      var q := records[key];
      NextStoreKeyed(s, records, CancelOp(e, r, now));
      if q.state != Queued {
        assert records == records[key := q];
        return Some(q.state);
      }
      var (t, event) := End(s, q, Canceled, now, Some("client-initiated cancellation"));
      records := records[key := t];
      log := log + AsSeq(event);
      state := Some(Canceled);
    }

    /** Throws exactly on an empty envelope id; the ghost result is the order the records within reach were taken in. */
    method CancelEnvelope(e: string, now: int)
      returns (thrown: Option<string>, canceled: seq<string>, ghost order: seq<string>)
      requires Valid()
      modifies this
      ensures thrown == if e == "" then Some("empty envelope_id") else None
      ensures e == "" ==> records == old(records) && log == old(log)
      ensures Valid() && records == NextStore(s, old(records), CancelEnvelopeOp(e, now))
      ensures forall k :: k in canceled <==>
        e != "" && k in old(records) && old(records)[k].envelope == e && InReach(s, old(records)[k], now)
      ensures e != "" ==> OrderOk(s, old(records), CancelEnvelopeOp(e, now), order)
      ensures (forall k | k in order :: k in old(records)) && canceled == OfEnvelope(old(records), order, e)
      ensures log == old(log) + OpEvents(s, old(records), CancelEnvelopeOp(e, now), order)
    {
      thrown, canceled, order := None, [], [];
      if e == "" {
        return Some("empty envelope_id"), [], [];
      }
      ghost var before := records;
      var keys := DueRecords(now + 2 * s.horizon);
      order := keys;
      assert forall i | 0 <= i < |keys| :: keys[i] in keys;
      canceled := Matching(keys, e);
      CancelAll(keys, e, now);
      OfEnvelopeAre(before, keys, e);
      CancelKeysAll(s, before, keys, e, now);
      NextStoreKeyed(s, before, CancelEnvelopeOp(e, now));
    }

    method Matching(keys: seq<string>, e: string) returns (matching: seq<string>)
      requires forall k | k in keys :: k in records
      ensures matching == OfEnvelope(records, keys, e)
    {
      matching := [];
      for i := 0 to |keys|
        invariant matching == OfEnvelope(records, keys[..i], e)
      {
        assert keys[i] in keys && keys[..i + 1][..i] == keys[..i];
        if records[keys[i]].envelope == e {
          matching := matching + [keys[i]];
        }
      }
      assert keys[..|keys|] == keys;
    }

    method CancelAll(keys: seq<string>, e: string, now: int)
      requires InOrder(records, keys)
      requires forall i | 0 <= i < |keys| :: keys[i] in records && InReach(s, records[keys[i]], now)
      modifies this
      ensures records == CancelKeys(s, old(records), keys, e, now) && tickInFlight == old(tickInFlight)
      ensures log == old(log) + CancelEvents(s, old(records), keys, e, now)
    {
      ghost var before := records;
      for i := 0 to |keys|
        invariant records == CancelKeys(s, before, keys[..i], e, now) && tickInFlight == old(tickInFlight)
        invariant log == old(log) + CancelEvents(s, before, keys[..i], e, now)
      {
        CancelKeysAt(s, before, keys, e, now, i);
        CancelStep(s, before, keys, e, now, i);
        assert InReach(s, before[keys[i]], now);
        CancelOne(keys[i], e, now);
      }
      assert keys[..|keys|] == keys;
    }

    /** One record that the look-ahead found: cancelled if it is of the envelope. */
    method CancelOne(key: string, e: string, now: int)
      requires key in records && InReach(s, records[key], now)
      modifies this
      ensures tickInFlight == old(tickInFlight)
      ensures records == old(records)[key := EnvelopeCancelled(s, old(records)[key], e, now).0]
      ensures log == old(log) + AsSeq(EnvelopeCancelled(s, old(records)[key], e, now).1)
    {
      var q := records[key];
      if q.envelope == e {
        var (t, event) := End(s, q, Canceled, now, Some("client-initiated whole-envelope cancellation"));
        records := records[key := t];
        log := log + AsSeq(event);
      } else {
        assert records == records[key := q];
      }
    }

    method PruneTerminal(now: int, retention: int) returns (pruned: nat)
      requires Valid()
      modifies this
      ensures Valid() && records == NextStore(s, old(records), PruneOp(now, retention)) && log == old(log)
      ensures pruned == |old(records)| - |records|
    {
      pruned := 0;
      ghost var before := records;
      var todo := records.Keys;
      while todo != {}
        invariant todo <= before.Keys && !tickInFlight && log == old(log)
        invariant forall k :: k in records <==> k in before && (k in todo || !Stale(before[k], now, retention))
        invariant forall k | k in records :: records[k] == before[k]
        invariant pruned == |before| - |records|
        decreases |todo|
      {
        var k :| k in todo;
        todo := todo - {k};
        if Stale(records[k], now, retention) {
          assert records.Keys == (records - {k}).Keys + {k};
          records := records - {k};
          pruned := pruned + 1;
        }
      }
      assert records == NextStore(s, before, PruneOp(now, retention));
    }
  }
}
