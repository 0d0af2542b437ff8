/**
 * One queue record under the scheduler's operations.  Times are in milliseconds; a stored time is cut to its whole
 * second.  Each operation is atomic, and the event sink returns.
 */
module Queue {
  import opened Wrappers
  import opened Retry

  datatype State = Queued | Delivered | Rejected | Expired | Canceled

  datatype Record = Record(envelope: string, recipient: string, state: State, attempts: nat, lastAttempt: Option<int>,
                           lastOutcome: Option<Status>, lastReason: Option<string>, next: Option<int>, deadline: int,
                           terminalAt: Option<int>)

  datatype Status = DeliveredStatus | RejectedStatus | SilentStatus

  /** What the deliver call comes to. */
  datatype Outcome = Returns(status: Status, reasonCode: Option<string>, reason: Option<string>) | Throws(error: string)

  datatype Event = Event(envelope: string, recipient: string, delivered: bool, reasonCode: Option<string>,
                         reason: Option<string>, at: int)

  /** The options of an event, under the names that are written and read. */
  datatype EventOptions = EventOptions(reasonCode: Option<string>, reason_code: Option<string>,
                                       reason: Option<string>, at: int)

  datatype Settings = Settings(retry: Config, horizon: int, sink: bool)

  function WholeSecond(ms: int): (r: int)
    ensures ms - 999 <= r <= ms
  {
    ms - ms % 1000
  }

  function NonEmpty(s: Option<string>): Option<string> {
    if s.Some? && s.value != "" then s else None
  }

  function OrEmpty(s: Option<string>): string {
    if s.Some? then s.value else ""
  }

  function NewRecord(s: Settings, envelope: string, recipient: string, expires: Option<int>, now: int): Record {
    Record(envelope, recipient, Queued, 0, None, None, None, Some(WholeSecond(now)),
           WholeSecond(EffectiveDeadline(expires, now, s.horizon)), None)
  }

  /** `setTerminal`: a terminal record is left alone. */
  function SetTerminal(q: Record, state: State, now: int): Record {
    if state == Queued || q.state != Queued then q
    else q.(state := state, next := None, terminalAt := Some(WholeSecond(now)))
  }

  /** `newSubmissionEvent`: of the two names for the reason code it reads the second. */
  function NewEvent(envelope: string, recipient: string, delivered: bool, opts: EventOptions): Event {
    Event(envelope, recipient, delivered, opts.reason_code, opts.reason, opts.at)
  }

  /** `emit` writes the reason code under the first name. */
  function Emit(s: Settings, q: Record, reason: Option<string>): Option<Event>
    requires q.terminalAt.Some?
  {
    var opts := EventOptions(q.lastReason, None, NonEmpty(reason), q.terminalAt.value);
    if s.sink then Some(NewEvent(q.envelope, q.recipient, q.state == Delivered, opts)) else None
  }

  /** A record that turns terminal, and its event. */
  function End(s: Settings, q: Record, state: State, now: int, reason: Option<string>): (Record, Option<Event>)
    requires q.state == Queued && state != Queued
  {
    var t := SetTerminal(q, state, now);
    (t, Emit(s, t, reason))
  }

  /** `runAttempt` after the deliver call returned. */
  function Attempted(s: Settings, q: Record, now: int, o: Outcome, draw: real): (Record, Option<Event>)
    requires q.state == Queued && o.Returns?
  {
    var q1 := q.(attempts := q.attempts + 1, lastAttempt := Some(WholeSecond(now)), lastOutcome := Some(o.status),
                 lastReason := NonEmpty(o.reasonCode));
    if o.status == DeliveredStatus then End(s, q1, Delivered, now, o.reason)
    else if o.status == RejectedStatus && !Recoverable(OrEmpty(o.reasonCode)) then End(s, q1, Rejected, now, o.reason)
    else
      var n := NextAttempt(Sanitize(s.retry), now, q1.attempts - 1, draw);
      var next := if n.Some? then n.value else now + 1000;
      if next > q1.deadline then End(s, q1, Expired, now, None)
      else (q1.(next := Some(WholeSecond(next))), None)
  }

  predicate Due(q: Record, now: int) {
    q.state == Queued && q.next.Some? && q.next.value <= now
  }

  /** A tick on one record; a deliver call that throws leaves the stored record as it was. */
  function Ticked(s: Settings, q: Record, now: int, o: Outcome, draw: real): (Record, Option<Event>) {
    if !Due(q, now) then (q, None)
    else if now >= q.deadline then End(s, q, Expired, now, None)
    else if o.Throws? then (q, None)
    else Attempted(s, q, now, o, draw)
  }

  /** Whether the tick calls deliver for the record. */
  predicate Calls(q: Record, now: int) {
    Due(q, now) && now < q.deadline
  }

  function Cancelled(s: Settings, q: Record, now: int): (Record, Option<Event>) {
    if q.state != Queued then (q, None) else End(s, q, Canceled, now, Some("client-initiated cancellation"))
  }

  /** The look-ahead that finds the records of an envelope. */
  predicate InReach(s: Settings, q: Record, now: int) {
    Due(q, now + 2 * s.horizon)
  }

  function EnvelopeCancelled(s: Settings, q: Record, envelope: string, now: int): (Record, Option<Event>) {
    if q.envelope == envelope && InReach(s, q, now)
    then End(s, q, Canceled, now, Some("client-initiated whole-envelope cancellation")) else (q, None)
  }

  predicate Stale(q: Record, now: int, retention: int) {
    q.state != Queued && q.terminalAt.Some? && q.terminalAt.value <= now - retention
  }
}
