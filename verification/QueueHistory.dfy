/**
 * How a record of the queue ends, from the history of its deliver calls alone: what each of them returned, in order,
 * and which call made the record terminal.
 */
module QueueHistory {
  import opened Wrappers
  import opened Retry
  import opened Queue
  import opened QueueRuns

  /** A reason code for which a rejected envelope is tried again. */
  predicate TriedAgain(code: string) {
    || code == "handshake_invalid" || code == "handshake_expired" || code == "no_session"
    || code == "server_unavailable" || code == "rate_limited" || code == "server_at_capacity"
  }

  predicate WasDelivered(o: Outcome) {
    o.Returns? && o.status == DeliveredStatus
  }

  predicate WasRejected(o: Outcome) {
    o.Returns? && o.status == RejectedStatus && (o.reasonCode.None? || !TriedAgain(o.reasonCode.value))
  }

  predicate Final(o: Outcome) {
    WasDelivered(o) || WasRejected(o)
  }

  /** What the last deliver call returned. */
  function LastResult(life: Life): Option<Outcome> {
    if life.results == [] then None else Some(life.results[|life.results| - 1])
  }

  predicate EndedDelivered(life: Life) {
    LastResult(life).Some? && WasDelivered(LastResult(life).value)
  }

  predicate EndedRejected(life: Life) {
    LastResult(life).Some? && WasRejected(LastResult(life).value)
  }

  /** The state says what the last result was; no result before it was final. */
  ghost predicate StateTrue(q: Record, life: Life) {
    && (forall k | 0 <= k < |life.results| :: life.results[k].Returns?)
    && (forall k | 0 <= k < |life.results| - 1 :: !Final(life.results[k]))
    && (q.state == Delivered <==> EndedDelivered(life))
    && (q.state == Rejected <==> EndedRejected(life))
    && (q.state == Canceled <==> life.end.Some? && !life.end.value.ByTick?)
    && (q.state == Queued <==> life.end.None?)
  }

  /** And the record's other fields say when it was made and what came of it. */
  ghost predicate FieldsTrue(q: Record, life: Life) {
    && q.attempts == |life.results|
    && (if life.results == [] then q.lastOutcome.None? && q.lastReason.None? && q.lastAttempt.None?
        else
          && LastResult(life).value.Returns? && q.lastOutcome == Some(LastResult(life).value.status)
          && q.lastReason == (if LastResult(life).value.reasonCode == Some("") then None
                              else LastResult(life).value.reasonCode)
          && q.lastAttempt == Some(life.lastCall - life.lastCall % 1000))
    && (life.end.Some? ==> q.terminalAt == Some(life.end.value.at - life.end.value.at % 1000))
  }

  /** The reason an event gives. */
  function ReasonOf(life: Life): Option<string>
    requires life.end.Some?
  {
    match life.end.value
    case ByCancel(_) => Some("client-initiated cancellation")
    case ByCancelEnvelope(_) => Some("client-initiated whole-envelope cancellation")
    case ByTick(_) =>
      if LastResult(life).Some? && Final(LastResult(life).value) && LastResult(life).value.reason != Some("")
      then LastResult(life).value.reason else None
  }

  /** The sink is told once, that it was delivered exactly when the last result says so. */
  ghost predicate EventTrue(s: Settings, life: Life) {
    if life.end.None? || !s.sink then life.events == []
    else
      && |life.events| == 1 && (life.events[0].delivered <==> EndedDelivered(life))
      && life.events[0].reason == ReasonOf(life) && life.events[0].at == life.end.value.at - life.end.value.at % 1000
  }

  /** The next attempt: at once, and then the interval of that attempt after the last call. */
  ghost predicate NextIs(s: Settings, q: Record, life: Life, interval: int) {
    && q.next.Some?
    && (if life.results == [] then q.next.value == life.enqueued - life.enqueued % 1000
        else
          var e := Sanitize(s.retry);
          && Within(BaseInterval(e, |life.results| - 1), e.jitter, interval)
          && q.next.value == (life.lastCall + interval) - (life.lastCall + interval) % 1000)
  }

  /** A record expires at its deadline, or when the next attempt would come after it. */
  ghost predicate ExpiredBy(s: Settings, q: Record, life: Life, interval: int) {
    && life.end.Some?
    && (life.end.value.at >= q.deadline
        || (var e := Sanitize(s.retry);
            && life.results != [] && life.lastCall == life.end.value.at && life.lastCall + interval > q.deadline
            && Within(BaseInterval(e, |life.results| - 1), e.jitter, interval)))
  }

  ghost predicate TimesTrue(s: Settings, q: Record, life: Life) {
    && (q.state == Queued ==> exists interval :: NextIs(s, q, life, interval))
    && (q.state == Expired ==> exists interval :: ExpiredBy(s, q, life, interval))
  }

  ghost predicate HistoryOk(s: Settings, q: Record, life: Life) {
    StateTrue(q, life) && FieldsTrue(q, life) && EventTrue(s, life) && TimesTrue(s, q, life)
  }

  ghost predicate OneTrue(s: Settings, key: string, one: One) {
    && (one.record.Some? ==>
          && HistoryOk(s, one.record.value, one.life)
          && KeyOf(one.record.value.envelope, one.record.value.recipient) == key)
    && (forall k | 0 <= k < |one.past| :: one.past[k].end.Some? && EventTrue(s, one.past[k]))
  }

  // ---------------------------------------------------------------- each call keeps it

  lemma SameCodes(code: string)
    ensures Recoverable(code) <==> TriedAgain(code)
    ensures !TriedAgain("")
  {}

  lemma EnqueueTrue(s: Settings, e: string, r: string, expires: Option<int>, now: int)
    ensures HistoryOk(s, NewRecord(s, e, r, expires, now), NewLife(now, expires))
  {
    assert NextIs(s, NewRecord(s, e, r, expires, now), NewLife(now, expires), 0);
  }

  ghost predicate StepTrue(s: Settings, q: Record, life: Life, step: (Record, Option<Event>), end: Ending) {
    HistoryOk(s, step.0, After(life, q, step, end))
  }

  lemma StaysTrue(s: Settings, q: Record, life: Life, end: Ending)
    requires HistoryOk(s, q, life)
    ensures StepTrue(s, q, life, (q, None), end)
  {
    assert life.events + [] == life.events;
    assert After(life, q, (q, None), end) == life;
  }

  /** A record that a cancellation ends says so. */
  lemma CanceledTrue(s: Settings, q: Record, life: Life, now: int, reason: string, end: Ending)
    requires HistoryOk(s, q, life) && q.state == Queued && reason != ""
    requires !end.ByTick? && end.at == now && ReasonOf(life.(end := Some(end))) == Some(reason)
    ensures StepTrue(s, q, life, End(s, q, Canceled, now, Some(reason)), end)
  {
    SameResults(life, After(life, q, End(s, q, Canceled, now, Some(reason)), end));
  }

  lemma CancelTrue(s: Settings, q: Record, life: Life, now: int)
    requires HistoryOk(s, q, life)
    ensures StepTrue(s, q, life, Cancelled(s, q, now), ByCancel(now))
  {
    if q.state == Queued {
      CanceledTrue(s, q, life, now, "client-initiated cancellation", ByCancel(now));
    } else {
      StaysTrue(s, q, life, ByCancel(now));
    }
  }

  lemma CancelEnvelopeTrue(s: Settings, q: Record, life: Life, e: string, now: int)
    requires HistoryOk(s, q, life)
    ensures StepTrue(s, q, life, EnvelopeCancelled(s, q, e, now), ByCancelEnvelope(now))
  {
    if q.envelope == e && InReach(s, q, now) {
      CanceledTrue(s, q, life, now, "client-initiated whole-envelope cancellation", ByCancelEnvelope(now));
    } else {
      StaysTrue(s, q, life, ByCancelEnvelope(now));
    }
  }

  lemma SameResults(life: Life, after: Life)
    requires after.results == life.results
    ensures LastResult(after) == LastResult(life)
  {}

  /** A tick that calls nothing: the record is as it was, or its deadline has come. */
  lemma QuietTickTrue(s: Settings, q: Record, life: Life, now: int, o: Outcome, draw: real)
    requires HistoryOk(s, q, life) && !(Calls(q, now) && o.Returns?)
    ensures StepTrue(s, q, life, Ticked(s, q, now, o, draw), ByTick(now))
  {
    assert life.events + [] == life.events;
    var step := Ticked(s, q, now, o, draw);
    var after := After(life, q, step, ByTick(now));
    SameResults(life, after);
    if step.0 != q {
      assert ExpiredBy(s, step.0, after, 0);
    }
  }

  lemma CallTrue(s: Settings, q: Record, life: Life, now: int, o: Outcome, draw: real)
    requires HistoryOk(s, q, life) && Calls(q, now) && o.Returns? && 0.0 <= draw < 1.0
    ensures var step := Ticked(s, q, now, o, draw);
      HistoryOk(s, step.0, Called(After(life, q, step, ByTick(now)), q, now, o))
  {
    var step := Ticked(s, q, now, o, draw);
    var after := Called(After(life, q, step, ByTick(now)), q, now, o);
    CallStates(s, q, life, now, o, draw, step, after);
    CallTimes(s, q, life, now, o, draw, step, after);
  }

  lemma CallStates(s: Settings, q: Record, life: Life, now: int, o: Outcome, draw: real,
      step: (Record, Option<Event>), after: Life)
    requires HistoryOk(s, q, life) && Calls(q, now) && o.Returns?
    requires step == Attempted(s, q, now, o, draw) && after == Called(After(life, q, step, ByTick(now)), q, now, o)
    ensures StateTrue(step.0, after) && FieldsTrue(step.0, after) && EventTrue(s, after)
  {
    SameCodes(OrEmpty(o.reasonCode));
    AttemptEnds(s, q, now, o, draw);
    StatesAfter(s, q, life, now, o, step, after);
  }

  /** What an attempt makes of a record, by its result. */
  ghost predicate AttemptSays(s: Settings, q: Record, now: int, o: Outcome, step: (Record, Option<Event>)) {
    && o.Returns? && (step.0.state == Delivered <==> WasDelivered(o)) && (step.0.state == Rejected <==> WasRejected(o))
    && step.0.state != Canceled && step.0.attempts == q.attempts + 1 && step.0.lastOutcome == Some(o.status)
    && step.0.lastReason == NonEmpty(o.reasonCode) && step.0.lastAttempt == Some(WholeSecond(now))
    && (step.0.state != Queued ==> step.0.terminalAt == Some(WholeSecond(now)))
    && (if step.0.state == Queued || !s.sink then step.1.None?
        else
          && step.1.Some? && (step.1.value.delivered <==> WasDelivered(o)) && step.1.value.at == WholeSecond(now)
          && step.1.value.reason == if Final(o) then NonEmpty(o.reason) else None)
  }

  lemma AttemptEnds(s: Settings, q: Record, now: int, o: Outcome, draw: real)
    requires q.state == Queued && o.Returns?
    ensures AttemptSays(s, q, now, o, Attempted(s, q, now, o, draw))
  {
    SameCodes(OrEmpty(o.reasonCode));
  }

  lemma StatesAfter(s: Settings, q: Record, life: Life, now: int, o: Outcome, step: (Record, Option<Event>),
      after: Life)
    requires StateTrue(q, life) && FieldsTrue(q, life) && EventTrue(s, life) && Calls(q, now)
    requires AttemptSays(s, q, now, o, step) && after == Called(After(life, q, step, ByTick(now)), q, now, o)
    ensures StateTrue(step.0, after) && FieldsTrue(step.0, after) && EventTrue(s, after)
  {
    assert LastResult(after) == Some(o);
    assert life.results != [] ==> !Final(life.results[|life.results| - 1]);
  }

  lemma CallTimes(s: Settings, q: Record, life: Life, now: int, o: Outcome, draw: real,
      step: (Record, Option<Event>), after: Life)
    requires HistoryOk(s, q, life) && Calls(q, now) && o.Returns? && 0.0 <= draw < 1.0
    requires step == Attempted(s, q, now, o, draw) && after == Called(After(life, q, step, ByTick(now)), q, now, o)
    ensures TimesTrue(s, step.0, after)
  {
    var e := Sanitize(s.retry);
    var base := BaseInterval(e, q.attempts);
    GrownGrows(e, q.attempts, q.attempts);
    JitterWithin(e, base, draw);
    var interval := Jitter(e, base, draw).value;
    assert |after.results| - 1 == q.attempts && after.lastCall == now;
    assert NextAttempt(e, now, q.attempts, draw) == Some(now + interval);
    if step.0.state == Queued {
      assert NextIs(s, step.0, after, interval);
    }
    if step.0.state == Expired {
      assert ExpiredBy(s, step.0, after, interval);
    }
  }

  lemma PruneTrue(s: Settings, q: Record, life: Life, now: int, retention: int)
    requires HistoryOk(s, q, life) && Stale(q, now, retention)
    ensures life.end.Some? && EventTrue(s, life)
  {}

  lemma TickTrue(s: Settings, q: Record, life: Life, now: int, o: Outcome, draw: real)
    requires HistoryOk(s, q, life) && 0.0 <= draw < 1.0
    ensures var step := Ticked(s, q, now, o, draw);
      HistoryOk(s, step.0, Called(After(life, q, step, ByTick(now)), q, now, o))
  {
    if Calls(q, now) && o.Returns? {
      CallTrue(s, q, life, now, o, draw);
    } else {
      QuietTickTrue(s, q, life, now, o, draw);
    }
  }

  /** No step makes another record of it. */
  lemma SameRecord(s: Settings, q: Record, now: int, o: Outcome, draw: real, e: string)
    ensures SameKey(q, Ticked(s, q, now, o, draw).0) && SameKey(q, Cancelled(s, q, now).0)
    ensures SameKey(q, EnvelopeCancelled(s, q, e, now).0)
  {}

  predicate SameKey(q: Record, t: Record) {
    t.envelope == q.envelope && t.recipient == q.recipient
  }

  lemma TickRecordTrue(s: Settings, one: One, key: string, op: Op)
    requires OneTrue(s, key, one) && one.record.Some? && op.TickOp? && DrawsOk(op)
    ensures RecordKept(s, one, NextOne(s, one, key, op))
  {
    var q := one.record.value;
    var o, draw := op.deliver(q.envelope, q.recipient), op.draw(q.envelope, q.recipient);
    TickTrue(s, q, one.life, op.now, o, draw);
    SameRecord(s, q, op.now, o, draw, "");
  }

  lemma CancelRecordTrue(s: Settings, one: One, key: string, op: Op)
    requires OneTrue(s, key, one) && one.record.Some? && (op.CancelOp? || op.CancelEnvelopeOp?)
    ensures RecordKept(s, one, NextOne(s, one, key, op))
  {
    var q := one.record.value;
    if op.CancelOp? {
      CancelTrue(s, q, one.life, op.now);
    } else {
      CancelEnvelopeTrue(s, q, one.life, op.envelope, op.now);
    }
    SameRecord(s, q, op.now, Throws(""), 0.0, op.envelope);
  }

  /** The record, if it is still there, is the same one, with its history true. */
  ghost predicate RecordKept(s: Settings, one: One, next: One)
    requires one.record.Some?
  {
    next.record.Some? ==> HistoryOk(s, next.record.value, next.life) && SameKey(one.record.value, next.record.value)
  }

  lemma RecordTrue(s: Settings, one: One, key: string, op: Op)
    requires OneTrue(s, key, one) && one.record.Some? && DrawsOk(op)
    ensures RecordKept(s, one, NextOne(s, one, key, op))
  {
    if op.TickOp? {
      TickRecordTrue(s, one, key, op);
    } else if op.CancelOp? || op.CancelEnvelopeOp? {
      CancelRecordTrue(s, one, key, op);
    }
  }

  lemma PastTrue(s: Settings, one: One, key: string, op: Op)
    requires OneTrue(s, key, one)
    ensures var past := NextOne(s, one, key, op).past;
      forall k | 0 <= k < |past| :: past[k].end.Some? && EventTrue(s, past[k])
  {
    if one.record.Some? && op.PruneOp? && Stale(one.record.value, op.now, op.retention) {
      PruneTrue(s, one.record.value, one.life, op.now, op.retention);
    }
  }

  lemma NextTrue(s: Settings, one: One, key: string, op: Op)
    requires OneTrue(s, key, one) && DrawsOk(op)
    ensures OneTrue(s, key, NextOne(s, one, key, op))
  {
    PastTrue(s, one, key, op);
    if one.record.Some? {
      RecordTrue(s, one, key, op);
    } else if op.EnqueueOp? {
      EnqueueTrue(s, op.envelope, op.recipient, op.expires, op.now);
    }
  }

  /**
   * In every run: a record is delivered exactly when its last deliver call returned that it was, rejected exactly when
   * that call returned a rejection that is not tried again, canceled exactly when a cancellation ended it, and expired
   * only at its deadline or when the next attempt would be after it.  Its fields are those of the last call, its next
   * attempt is that call's interval away, and the sink is told of the outcome once.
   */
  lemma {:induction false} HistoryTrue(s: Settings, key: string, ops: seq<Op>)
    requires forall k | 0 <= k < |ops| :: DrawsOk(ops[k])
    ensures OneTrue(s, key, RunOne(s, key, ops))
  {
    if ops != [] {
      HistoryTrue(s, key, ops[..|ops| - 1]);
      NextTrue(s, RunOne(s, key, ops[..|ops| - 1]), key, ops[|ops| - 1]);
    }
  }

  /**
   * What a tick does to a queued record: nothing before its time; at its deadline it expires; between the two it is
   * handed to deliver, and what comes back is the next result, unless the call throws.
   */
  lemma TickTouches(s: Settings, key: string, ops: seq<Op>, tick: Op)
    requires tick.TickOp? && DrawsOk(tick) && forall k | 0 <= k < |ops| :: DrawsOk(ops[k])
    requires RunOne(s, key, ops).record.Some? && RunOne(s, key, ops).record.value.state == Queued
    ensures RunOne(s, key, ops).record.value.next.Some?
    ensures var one, next := RunOne(s, key, ops), NextOne(s, RunOne(s, key, ops), key, tick);
      var q, o := one.record.value, tick.deliver(one.record.value.envelope, one.record.value.recipient);
      && next.record.Some?
      && (q.next.value > tick.now ==> next == one)
      && (q.next.value <= tick.now && tick.now >= q.deadline ==>
            next.record.value.state == Expired && next.life.results == one.life.results)
      && (q.next.value <= tick.now < q.deadline ==>
            if o.Throws? then next == one
            else next.life.results == one.life.results + [o] && next.life.lastCall == tick.now)
  {
    HistoryTrue(s, key, ops);
    var one := RunOne(s, key, ops);
    assert one.life.events + [] == one.life.events;
  }
}
