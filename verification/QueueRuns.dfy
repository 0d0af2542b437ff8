/** Runs of the scheduler as one (envelope, recipient) key sees them: its records one after another. */
module QueueRuns {
  import opened Wrappers
  import opened Retry
  import opened Queue

  datatype Op =
    | EnqueueOp(envelope: string, recipient: string, expires: Option<int>, now: int)
    | TickOp(now: int, deliver: (string, string) -> Outcome, draw: (string, string) -> real)
    | CancelOp(envelope: string, recipient: string, now: int)
    | CancelEnvelopeOp(envelope: string, now: int)
    | PruneOp(now: int, retention: int)

  /** The store's key; the separator is the NUL character. */
  function KeyOf(envelope: string, recipient: string): string {
    envelope + [0 as char] + recipient
  }

  /** The call that made a record terminal. */
  datatype Ending = ByTick(at: int) | ByCancel(at: int) | ByCancelEnvelope(at: int)

  /**
   * One record's life: when it was enqueued and the expiry it came with, its events, what its deliver calls returned
   * and when the last of them was, and how it ended.
   */
  datatype Life = Life(enqueued: int, expires: Option<int>, events: seq<Event>, results: seq<Outcome>, lastCall: int,
                       end: Option<Ending>)

  function NewLife(now: int, expires: Option<int>): Life {
    Life(now, expires, [], [], 0, None)
  }

  datatype One = One(record: Option<Record>, life: Life, past: seq<Life>)

  function AsSeq(e: Option<Event>): seq<Event> {
    if e.Some? then [e.value] else []
  }

  /** The life after a step of its record by such a call. */
  function After(life: Life, q: Record, step: (Record, Option<Event>), end: Ending): Life {
    life.(events := life.events + AsSeq(step.1),
          end := if q.state == Queued && step.0.state != Queued then Some(end) else life.end)
  }

  function Update(one: One, step: (Record, Option<Event>), end: Ending): One
    requires one.record.Some?
  {
    one.(record := Some(step.0), life := After(one.life, one.record.value, step, end))
  }

  /** The life after a deliver call, when there was one that returned. */
  function Called(life: Life, q: Record, now: int, o: Outcome): Life {
    if Calls(q, now) && o.Returns? then life.(results := life.results + [o], lastCall := now) else life
  }

  function NextOne(s: Settings, one: One, key: string, op: Op): One {
    match op
    case EnqueueOp(e, r, expires, now) =>
      if e == "" || r == "" || KeyOf(e, r) != key || one.record.Some? then one
      else One(Some(NewRecord(s, e, r, expires, now)), NewLife(now, expires), one.past)
    case TickOp(now, deliver, draw) =>
      if one.record.None? then one
      else
        var q := one.record.value;
        var o := deliver(q.envelope, q.recipient);
        var next := Update(one, Ticked(s, q, now, o, draw(q.envelope, q.recipient)), ByTick(now));
        next.(life := Called(next.life, q, now, o))
    case CancelOp(e, r, now) =>
      if KeyOf(e, r) != key || one.record.None? then one
      else Update(one, Cancelled(s, one.record.value, now), ByCancel(now))
    case CancelEnvelopeOp(e, now) =>
      if e == "" || one.record.None? then one
      else Update(one, EnvelopeCancelled(s, one.record.value, e, now), ByCancelEnvelope(now))
    case PruneOp(now, retention) =>
      if one.record.Some? && Stale(one.record.value, now, retention) then One(None, one.life, one.past + [one.life])
      else one
  }

  const FRESH := One(None, NewLife(0, None), [])

  function RunOne(s: Settings, key: string, ops: seq<Op>): One {
    if ops == [] then FRESH else NextOne(s, RunOne(s, key, ops[..|ops| - 1]), key, ops[|ops| - 1])
  }

  /** Every draw is in [0, 1). */
  ghost predicate DrawsOk(op: Op) {
    op.TickOp? ==> forall e, r :: 0.0 <= op.draw(e, r) < 1.0
  }

  // ---------------------------------------------------------------- what every run keeps

  /** The least time between deliver calls: the jitter floor, less what is lost to whole seconds. */
  const GAP := 29001

  ghost predicate TimesOk(s: Settings, q: Record, life: Life) {
    && q.deadline <= life.enqueued + Horizon(s.horizon) && (life.expires.Some? ==> q.deadline <= life.expires.value)
    && (q.next.Some? ==> q.next.value <= life.enqueued || q.next.value <= q.deadline)
    && (q.next.Some? ==> q.next.value >= life.enqueued - 999 + GAP * q.attempts)
    && (q.attempts > 0 ==> life.enqueued - 999 + GAP * (q.attempts - 1) <= life.lastCall < q.deadline)
  }

  /** What an event says of its record; never a reason code. */
  ghost predicate Tells(e: Event, q: Record) {
    && e.envelope == q.envelope && e.recipient == q.recipient && (e.delivered <==> q.state == Delivered)
    && Some(e.at) == q.terminalAt && e.reasonCode.None?
  }

  ghost predicate LifeOk(s: Settings, q: Record, life: Life) {
    && q.attempts == |life.results|
    && (q.state == Queued <==> q.next.Some?) && (q.state == Queued <==> q.terminalAt.None?)
    && |life.events| == (if q.state != Queued && s.sink then 1 else 0)
    && forall k | 0 <= k < |life.events| :: Tells(life.events[k], q)
  }

  ghost predicate OneOk(s: Settings, one: One) {
    && (one.record.Some? ==> TimesOk(s, one.record.value, one.life) && LifeOk(s, one.record.value, one.life))
    && (forall k | 0 <= k < |one.past| :: |one.past[k].events| == if s.sink then 1 else 0)
  }

  /** A deliver call keeps the times in bounds: the next one is a gap away, and not past the deadline. */
  lemma AttemptTimes(s: Settings, q: Record, life: Life, now: int, o: Outcome, draw: real)
    requires TimesOk(s, q, life) && Calls(q, now) && o.Returns? && 0.0 <= draw < 1.0
    ensures TimesOk(s, Attempted(s, q, now, o, draw).0, life.(lastCall := now))
  {
    NextAttemptLater(s.retry, now, q.attempts, draw);
    assert GAP * (q.attempts + 1) == GAP * q.attempts + GAP;
  }

  lemma TickKeeps(s: Settings, q: Record, life: Life, now: int, o: Outcome, draw: real)
    requires TimesOk(s, q, life) && LifeOk(s, q, life) && 0.0 <= draw < 1.0
    ensures var (t, e) := Ticked(s, q, now, o, draw);
      var after := Called(After(life, q, (t, e), ByTick(now)), q, now, o);
      TimesOk(s, t, after) && LifeOk(s, t, after)
  {
    if Calls(q, now) && o.Returns? {
      AttemptTimes(s, q, life, now, o, draw);
      AttemptLife(s, q, life, now, o, draw);
    } else if Ticked(s, q, now, o, draw).0 != q {
      EndKeeps(s, q, life, Expired, now, None, ByTick(now));
    }
  }

  lemma AttemptLife(s: Settings, q: Record, life: Life, now: int, o: Outcome, draw: real)
    requires LifeOk(s, q, life) && Calls(q, now) && o.Returns?
    ensures var step := Attempted(s, q, now, o, draw);
      LifeOk(s, step.0, Called(After(life, q, step, ByTick(now)), q, now, o))
  {}

  lemma NextOneOk(s: Settings, one: One, key: string, op: Op)
    requires OneOk(s, one) && DrawsOk(op)
    ensures OneOk(s, NextOne(s, one, key, op))
  {
    if one.record.Some? {
      var q, life := one.record.value, one.life;
      match op
      case TickOp(now, deliver, draw) =>
        TickKeeps(s, q, life, now, deliver(q.envelope, q.recipient), draw(q.envelope, q.recipient));
      case CancelOp(e, r, now) => CancelKeeps(s, q, life, now);
      case CancelEnvelopeOp(e, now) => CancelEnvelopeKeeps(s, q, life, e, now);
      case _ =>
    } else if op.EnqueueOp? {
      EnqueueKeeps(s, op.envelope, op.recipient, op.expires, op.now);
    }
  }

  lemma EnqueueKeeps(s: Settings, e: string, r: string, expires: Option<int>, now: int)
    ensures var q, life := NewRecord(s, e, r, expires, now), NewLife(now, expires);
      TimesOk(s, q, life) && LifeOk(s, q, life)
  {}

  ghost predicate StepKeeps(s: Settings, q: Record, life: Life, step: (Record, Option<Event>), end: Ending) {
    var after := After(life, q, step, end);
    TimesOk(s, step.0, after) && LifeOk(s, step.0, after)
  }

  lemma EndKeeps(s: Settings, q: Record, life: Life, state: State, now: int, reason: Option<string>, end: Ending)
    requires TimesOk(s, q, life) && LifeOk(s, q, life) && q.state == Queued && state != Queued
    ensures StepKeeps(s, q, life, End(s, q, state, now, reason), end)
  {}

  lemma CancelKeeps(s: Settings, q: Record, life: Life, now: int)
    requires TimesOk(s, q, life) && LifeOk(s, q, life)
    ensures StepKeeps(s, q, life, Cancelled(s, q, now), ByCancel(now))
  {
    if q.state == Queued {
      EndKeeps(s, q, life, Canceled, now, Some("client-initiated cancellation"), ByCancel(now));
    }
  }

  lemma CancelEnvelopeKeeps(s: Settings, q: Record, life: Life, e: string, now: int)
    requires TimesOk(s, q, life) && LifeOk(s, q, life)
    ensures StepKeeps(s, q, life, EnvelopeCancelled(s, q, e, now), ByCancelEnvelope(now))
  {
    if q.envelope == e && InReach(s, q, now) {
      EndKeeps(s, q, life, Canceled, now, Some("client-initiated whole-envelope cancellation"),
               ByCancelEnvelope(now));
    }
  }

  /**
   * In every run: a record's attempts are its deliver calls, it has a next attempt exactly while it is queued, and it
   * has emitted no event while queued and exactly one, telling its outcome, when terminal.
   */
  lemma {:induction false} RunsOk(s: Settings, key: string, ops: seq<Op>)
    requires forall k | 0 <= k < |ops| :: DrawsOk(ops[k])
    ensures OneOk(s, RunOne(s, key, ops))
  {
    if ops != [] {
      RunsOk(s, key, ops[..|ops| - 1]);
      NextOneOk(s, RunOne(s, key, ops[..|ops| - 1]), key, ops[|ops| - 1]);
    }
  }

  /** An event is true to its record's reason code exactly when there is none: in every run the code is lost. */
  lemma CodesLost(s: Settings, key: string, ops: seq<Op>)
    requires forall k | 0 <= k < |ops| :: DrawsOk(ops[k])
    requires var one := RunOne(s, key, ops); s.sink && one.record.Some? && one.record.value.state != Queued
    ensures var one := RunOne(s, key, ops);
      && |one.life.events| == 1
      && (one.life.events[0].reasonCode == one.record.value.lastReason <==> one.record.value.lastReason.None?)
  {
    RunsOk(s, key, ops);
    var one := RunOne(s, key, ops);
    assert Tells(one.life.events[0], one.record.value);
  }

  /** A run that loses one: the recipient's server rejects the envelope as blocked. */
  lemma BlockedCodeLost(s: Settings, tick: Op)
    requires s.sink && s.horizon > 1000 && tick.TickOp? && tick.now == 0 && DrawsOk(tick)
    requires tick.deliver("e", "r") == Returns(RejectedStatus, Some("blocked"), None)
    ensures var one := RunOne(s, KeyOf("e", "r"), [EnqueueOp("e", "r", None, 0), tick]);
      && one.record.Some? && one.record.value.state == Rejected && one.record.value.lastReason == Some("blocked")
      && one.life.events == [Event("e", "r", false, None, None, 0)]
  {
    var key, ops := KeyOf("e", "r"), [EnqueueOp("e", "r", None, 0), tick];
    assert ops[..1] == [ops[0]] && [ops[0]][..0] == [];
    assert RunOne(s, key, [ops[0]]) == NextOne(s, FRESH, key, ops[0]);
  }

  /** A terminal record is not changed by anything, until it is pruned. */
  lemma TerminalAbsorbs(s: Settings, one: One, key: string, op: Op)
    requires one.record.Some? && one.record.value.state != Queued
    ensures NextOne(s, one, key, op) == if op.PruneOp? && Stale(one.record.value, op.now, op.retention)
      then One(None, one.life, one.past + [one.life]) else one
  {
    assert one.life.events + [] == one.life.events;
  }

  /** For every retry configuration and every draw, the deliver calls on one record are bounded by the horizon. */
  lemma AttemptsBounded(s: Settings, key: string, ops: seq<Op>)
    requires forall k | 0 <= k < |ops| :: DrawsOk(ops[k])
    ensures var one := RunOne(s, key, ops);
      one.record.Some? ==> 29000 * (one.record.value.attempts - 1) < Horizon(s.horizon) + 1000
  {
    RunsOk(s, key, ops);
  }

  /** The fallback after a failed computation of the next attempt is never taken. */
  lemma NoFallback(s: Settings, q: Record, now: int, o: Outcome, draw: real)
    requires q.state == Queued && o.Returns? && 0.0 <= draw < 1.0
    ensures Attempted(s, q, now, o, draw).0.next.Some? ==>
      NextAttempt(Sanitize(s.retry), now, q.attempts, draw).Some?
      && Attempted(s, q, now, o, draw).0.next
         == Some(WholeSecond(NextAttempt(Sanitize(s.retry), now, q.attempts, draw).value))
  {
    NextAttemptLater(s.retry, now, q.attempts, draw);
  }

  // ---------------------------------------------------------------- with a clock that does not go back

  function TimeOf(op: Op): int {
    op.now
  }

  ghost predicate Forward(ops: seq<Op>) {
    forall i, j | 0 <= i < j < |ops| :: TimeOf(ops[i]) <= TimeOf(ops[j])
  }

  lemma {:induction false} EnqueuedBefore(s: Settings, key: string, ops: seq<Op>, now: int)
    requires Forward(ops) && (ops != [] ==> TimeOf(ops[|ops| - 1]) <= now)
    ensures RunOne(s, key, ops).record.Some? ==> RunOne(s, key, ops).life.enqueued <= now
  {
    if ops != [] {
      var front := ops[..|ops| - 1];
      assert forall i | 0 <= i < |front| :: front[i] == ops[i];
      EnqueuedBefore(s, key, front, TimeOf(ops[|ops| - 1]));
    }
  }

  /** A queued record that is due, or past its deadline. */
  predicate Overdue(q: Record, now: int) {
    q.state == Queued && (Due(q, now) || now >= q.deadline)
  }

  lemma TickedOverdue(s: Settings, q: Record, life: Life, now: int, o: Outcome, draw: real)
    requires TimesOk(s, q, life) && LifeOk(s, q, life) && life.enqueued <= now && 0.0 <= draw < 1.0
    ensures Overdue(Ticked(s, q, now, o, draw).0, now) ==> Calls(q, now) && o.Throws?
  {
    NextAttemptLater(s.retry, now, q.attempts, draw);
  }

  /** A tick leaves no record that is due or past its deadline, except, as it was, one whose deliver call threw. */
  lemma TickClears(s: Settings, key: string, ops: seq<Op>, tick: Op)
    requires Forward(ops) && tick.TickOp? && DrawsOk(tick) && (forall k | 0 <= k < |ops| :: DrawsOk(ops[k]))
    requires ops != [] ==> TimeOf(ops[|ops| - 1]) <= tick.now
    ensures var one := RunOne(s, key, ops);
      var after := NextOne(s, one, key, tick);
      && (one.record.Some? <==> after.record.Some?)
      && (after.record.Some? && Overdue(after.record.value, tick.now) ==> after == one && Threw(one.record.value, tick))
  {
    RunsOk(s, key, ops);
    EnqueuedBefore(s, key, ops, tick.now);
    var one := RunOne(s, key, ops);
    if one.record.Some? {
      var q := one.record.value;
      TickedOverdue(s, q, one.life, tick.now, tick.deliver(q.envelope, q.recipient), tick.draw(q.envelope,
                    q.recipient));
      assert one.life.events + [] == one.life.events;
    }
  }

  /** The tick called deliver for the record, and it threw. */
  predicate Threw(q: Record, tick: Op)
    requires tick.TickOp?
  {
    Calls(q, tick.now) && tick.deliver(q.envelope, q.recipient).Throws?
  }

  /** An immediate second tick changes nothing, unless the first one's deliver call threw. */
  lemma SecondTick(s: Settings, key: string, ops: seq<Op>, tick: Op, again: Op)
    requires Forward(ops) && tick.TickOp? && DrawsOk(tick) && (forall k | 0 <= k < |ops| :: DrawsOk(ops[k]))
    requires ops != [] ==> TimeOf(ops[|ops| - 1]) <= tick.now
    requires again.TickOp? && again.now == tick.now
    requires var one := RunOne(s, key, ops);
      one.record.Some? ==> tick.deliver(one.record.value.envelope, one.record.value.recipient).Returns?
    ensures var after := NextOne(s, RunOne(s, key, ops), key, tick); NextOne(s, after, key, again) == after
  {
    TickClears(s, key, ops, tick);
    var after := NextOne(s, RunOne(s, key, ops), key, tick);
    assert after.record.Some? ==> !Due(after.record.value, tick.now);
    assert after.life.events + [] == after.life.events;
  }

  /**
   * After `cancelEnvelope` a record of the envelope is queued exactly when its next attempt is beyond the look-ahead.
   */
  lemma CancelReaches(s: Settings, one: One, key: string, envelope: string, now: int)
    requires OneOk(s, one) && one.record.Some? && one.record.value.envelope == envelope && envelope != ""
    ensures var after := NextOne(s, one, key, CancelEnvelopeOp(envelope, now));
      after.record.Some? && (after.record.value.state == Queued <==>
        one.record.value.state == Queued && one.record.value.next.value > now + 2 * s.horizon)
  {}

  /** With a positive horizon nothing is beyond it: no record of the envelope stays queued. */
  lemma CancelLeavesNone(s: Settings, key: string, ops: seq<Op>, envelope: string, now: int)
    requires Forward(ops) && (forall k | 0 <= k < |ops| :: DrawsOk(ops[k])) && s.horizon > 0 && envelope != ""
    requires ops != [] ==> TimeOf(ops[|ops| - 1]) <= now
    ensures var after := NextOne(s, RunOne(s, key, ops), key, CancelEnvelopeOp(envelope, now));
      after.record.Some? && after.record.value.envelope == envelope ==> after.record.value.state != Queued
  {
    RunsOk(s, key, ops);
    EnqueuedBefore(s, key, ops, now);
    var one := RunOne(s, key, ops);
    if one.record.Some? && one.record.value.envelope == envelope {
      CancelReaches(s, one, key, envelope, now);
    }
  }

  /**
   * With a horizon that is not positive a record waiting for its retry escapes: here one enqueued and attempted at 0.
   */
  lemma CancelCanMiss(s: Settings, tick: Op)
    requires s.horizon == 0 && tick.TickOp? && tick.now == 0 && DrawsOk(tick)
    requires tick.deliver("e", "r") == Returns(SilentStatus, None, None)
    requires s.retry == Config(None, None, None, None)
    ensures var ops := [EnqueueOp("e", "r", None, 0), tick, CancelEnvelopeOp("e", 0)];
      var one := RunOne(s, KeyOf("e", "r"), ops);
      one.record.Some? && one.record.value.envelope == "e" && one.record.value.state == Queued
  {
    var key := KeyOf("e", "r");
    var ops := [EnqueueOp("e", "r", None, 0), tick, CancelEnvelopeOp("e", 0)];
    assert ops[..2] == [ops[0], ops[1]] && ops[..2][..1] == [ops[0]] && [ops[0]][..0] == [];
    var one := NextOne(s, FRESH, key, ops[0]);
    assert RunOne(s, key, [ops[0]]) == one;
    NextAttemptLater(s.retry, 0, 0, tick.draw("e", "r"));
    FirstJitter(s.retry, tick.draw("e", "r"));
    assert RunOne(s, key, ops[..2]) == NextOne(s, one, key, tick);
  }

  lemma FirstJitter(cfg: Config, draw: real)
    requires cfg == Config(None, None, None, None) && 0.0 <= draw < 1.0
    ensures NextAttempt(Sanitize(cfg), 0, 0, draw).Some? && NextAttempt(Sanitize(cfg), 0, 0, draw).value <= 66000
  {
    NextAttemptLater(cfg, 0, 0, draw);
  }
}
