/** The staged runner itself: a map of held envelopes updated in place, and the calls it makes. */
module StagedRunner {
  import opened Wrappers
  import opened Staged
  import opened StagedRuns
  import Json

  /** A call back for one envelope. */
  datatype Call = Call(id: string, event: Event)

  type HeldMap = map<string, Held>

  function Look(held: HeldMap, id: string): Option<Held> {
    if id in held then Some(held[id]) else None
  }

  // ---------------------------------------------------------------- the calls, on the whole map

  function TickedMap(held: HeldMap, now: int, timeout: int): HeldMap {
    map id | id in held && Ticked(held[id], now, timeout).0.Some? :: Ticked(held[id], now, timeout).0.value
  }

  function NextMap(held: HeldMap, op: Op, timeout: int): HeldMap {
    match op
    case HoldOp(id, stages, now, delivered) =>
      var r := NewHeld(stages, now, timeout);
      if id != "" && id !in held && r.Ok? && delivered then held[id := r.value] else held
    case IngestOp(id, submitter, d) =>
      if id in held && Ingested(held[id], submitter, d).Ok? then held[id := Ingested(held[id], submitter, d).value]
      else held
    case TickOp(now) => TickedMap(held, now, timeout)
    case ReevaluateOp(id, stages) =>
      if id != "" && id in held then held[id := Reevaluated(held[id], stages)] else held
  }

  /** The call that an operation leads to for one id, if any. */
  function CallFor(held: HeldMap, op: Op, timeout: int, id: string): Option<Event> {
    match op
    case HoldOp(i, stages, now, delivered) =>
      var r := NewHeld(stages, now, timeout);
      if i == id && id != "" && id !in held && r.Ok? then Some(DeliverFirst(r.value)) else None
    case TickOp(now) => if id in held then Ticked(held[id], now, timeout).1 else None
    case _ => None
  }

  function RunMap(ops: seq<Op>, timeout: int): HeldMap {
    if ops == [] then map[] else NextMap(RunMap(ops[..|ops| - 1], timeout), ops[|ops| - 1], timeout)
  }

  function EventsOf(lives: seq<Life>): seq<Event> {
    if lives == [] then [] else EventsOf(lives[..|lives| - 1]) + lives[|lives| - 1].events
  }

  /** Every call ever made for the id: the events of its lives, one after another. */
  function AllEvents(one: One): seq<Event> {
    EventsOf(one.past) + if one.held.Some? then one.life.events else []
  }

  function AsSeq(e: Option<Event>): seq<Event> {
    if e.Some? then [e.value] else []
  }

  lemma NextMapIsNextOne(held: HeldMap, one: One, id: string, op: Op, timeout: int)
    requires Look(held, id) == one.held
    ensures Look(NextMap(held, op, timeout), id) == NextOne(one, id, op, timeout).held
    ensures AllEvents(NextOne(one, id, op, timeout)) == AllEvents(one) + AsSeq(CallFor(held, op, timeout, id))
  {
    var next := NextOne(one, id, op, timeout);
    if next.past != one.past {
      assert next.past[..|one.past|] == one.past;
    }
  }

  /** What the map holds for an id is the record of the id's own run: envelopes do not affect each other. */
  lemma {:induction false} MapIsLives(ops: seq<Op>, timeout: int, id: string)
    ensures Look(RunMap(ops, timeout), id) == RunOne(id, ops, timeout).held
  {
    if ops != [] {
      MapIsLives(ops[..|ops| - 1], timeout, id);
      NextMapIsNextOne(RunMap(ops[..|ops| - 1], timeout), RunOne(id, ops[..|ops| - 1], timeout), id, ops[|ops| - 1],
                       timeout);
    }
  }

  // ---------------------------------------------------------------- call order

  ghost predicate Ordered(calls: seq<Call>) {
    forall i, j | 0 <= i < j < |calls| :: Json.KeyLess(calls[i].id, calls[j].id)
  }

  function InsertCall(c: Call, calls: seq<Call>): seq<Call> {
    if calls == [] || Json.KeyLess(c.id, calls[0].id) then [c] + calls else [calls[0]] + InsertCall(c, calls[1..])
  }

  /** Sorted by envelope id, so that the order of calls does not depend on the map's. */
  function SortCalls(calls: seq<Call>): seq<Call> {
    if calls == [] then [] else InsertCall(calls[0], SortCalls(calls[1..]))
  }

  ghost predicate OtherIds(c: Call, calls: seq<Call>) {
    forall d | d in calls :: d.id != c.id
  }

  lemma {:induction false} InsertCallSorts(c: Call, calls: seq<Call>)
    requires Ordered(calls) && OtherIds(c, calls)
    ensures Ordered(InsertCall(c, calls)) && |InsertCall(c, calls)| == |calls| + 1
    ensures forall d :: d in InsertCall(c, calls) <==> d == c || d in calls
  {
    if calls == [] {
    } else if Json.KeyLess(c.id, calls[0].id) {
      forall j | 1 <= j < |calls| ensures Json.KeyLess(c.id, calls[j].id) {
        Json.KeyLessTransitive(c.id, calls[0].id, calls[j].id);
      }
    } else {
      assert calls == [calls[0]] + calls[1..];
      assert calls[0] in calls;
      Json.KeyLessTotal(c.id, calls[0].id);
      InsertCallSorts(c, calls[1..]);
      var r := InsertCall(c, calls[1..]);
      forall j | 0 <= j < |r| ensures Json.KeyLess(calls[0].id, r[j].id) {
        assert r[j] in r;
        if r[j] != c {
          var k :| 0 <= k < |calls[1..]| && calls[1..][k] == r[j];
          assert calls[k + 1] == r[j];
        }
      }
    }
  }

  ghost predicate DistinctIds(calls: seq<Call>) {
    forall i, j | 0 <= i < j < |calls| :: calls[i].id != calls[j].id
  }

  lemma {:induction false} SortCallsSorts(calls: seq<Call>)
    requires DistinctIds(calls)
    ensures Ordered(SortCalls(calls)) && |SortCalls(calls)| == |calls|
    ensures forall d :: d in SortCalls(calls) <==> d in calls
  {
    if calls != [] {
      SortCallsSorts(calls[1..]);
      assert calls == [calls[0]] + calls[1..];
      InsertCallSorts(calls[0], SortCalls(calls[1..]));
    }
  }

  // ---------------------------------------------------------------- what is called over a run

  /** These are the calls of the operation: the one it leads to for each id, in order of the ids. */
  ghost predicate CallsOf(held: HeldMap, op: Op, timeout: int, calls: seq<Call>) {
    Ordered(calls) && forall id, e :: Call(id, e) in calls <==> CallFor(held, op, timeout, id) == Some(e)
  }

  /** The calls made for one id. */
  function ForId(log: seq<Call>, id: string): seq<Event> {
    if log == [] then []
    else ForId(log[..|log| - 1], id) + if log[|log| - 1].id == id then [log[|log| - 1].event] else []
  }

  lemma {:induction false} ForIdConcat(a: seq<Call>, b: seq<Call>, id: string)
    ensures ForId(a + b, id) == ForId(a, id) + ForId(b, id)
  {
    if b == [] {
      assert a + b == a;
    } else {
      assert (a + b)[..|a + b| - 1] == a + b[..|b| - 1];
      ForIdConcat(a, b[..|b| - 1], id);
    }
  }

  lemma {:induction false} ForIdOrdered(calls: seq<Call>, id: string, e: Option<Event>)
    requires Ordered(calls) && forall x :: Call(id, x) in calls <==> e == Some(x)
    ensures ForId(calls, id) == AsSeq(e)
  {
    if calls == [] {
      forall x ensures e != Some(x) {
        assert Call(id, x) !in calls;
      }
    } else {
      var front, last := calls[..|calls| - 1], calls[|calls| - 1];
      assert calls == front + [last] && last in calls && last == Call(last.id, last.event);
      assert last.id == id ==> forall x :: Call(id, x) !in front by {
        forall k | 0 <= k < |front| ensures front[k].id != last.id {
          Json.KeyLessTotal(front[k].id, last.id);
        }
      }
      ForIdOrdered(front, id, if last.id == id then None else e);
    }
  }

  lemma CallsOfFor(held: HeldMap, op: Op, timeout: int, calls: seq<Call>, id: string)
    requires CallsOf(held, op, timeout, calls)
    ensures ForId(calls, id) == AsSeq(CallFor(held, op, timeout, id))
  {
    ForIdOrdered(calls, id, CallFor(held, op, timeout, id));
  }

  /** An operation and the calls it made. */
  datatype Step = Step(op: Op, calls: seq<Call>)

  function Ops(steps: seq<Step>): (ops: seq<Op>)
    ensures |ops| == |steps| && forall i | 0 <= i < |ops| :: ops[i] == steps[i].op
  {
    seq(|steps|, i requires 0 <= i < |steps| => steps[i].op)
  }

  ghost predicate StepsOk(steps: seq<Step>, timeout: int) {
    forall i | 0 <= i < |steps| :: CallsOf(RunMap(Ops(steps[..i]), timeout), steps[i].op, timeout, steps[i].calls)
  }

  lemma FrontOk(steps: seq<Step>, timeout: int)
    requires steps != [] && StepsOk(steps, timeout)
    ensures var front, last := steps[..|steps| - 1], steps[|steps| - 1];
      StepsOk(front, timeout) && CallsOf(RunMap(Ops(front), timeout), last.op, timeout, last.calls)
  {
    var front := steps[..|steps| - 1];
    forall i | 0 <= i < |front|
      ensures CallsOf(RunMap(Ops(front[..i]), timeout), front[i].op, timeout, front[i].calls)
    {
      assert front[..i] == steps[..i];
    }
  }

  lemma OpsFront(steps: seq<Step>)
    requires steps != []
    ensures Ops(steps)[..|steps| - 1] == Ops(steps[..|steps| - 1]) && Ops(steps)[|steps| - 1] == steps[|steps| - 1].op
  {}

  /** Every call that was made. */
  function RunLog(steps: seq<Step>): seq<Call> {
    if steps == [] then [] else RunLog(steps[..|steps| - 1]) + steps[|steps| - 1].calls
  }

  lemma LogStep(held: HeldMap, one: One, log: seq<Call>, step: Step, timeout: int, id: string)
    requires Look(held, id) == one.held && ForId(log, id) == AllEvents(one)
    requires CallsOf(held, step.op, timeout, step.calls)
    ensures ForId(log + step.calls, id) == AllEvents(NextOne(one, id, step.op, timeout))
  {
    CallsOfFor(held, step.op, timeout, step.calls, id);
    ForIdConcat(log, step.calls, id);
    NextMapIsNextOne(held, one, id, step.op, timeout);
  }

  /** In every run the calls made for an id are the events of the id's lives, in order. */
  lemma {:induction false} LogIsLives(steps: seq<Step>, timeout: int, id: string)
    requires StepsOk(steps, timeout)
    ensures ForId(RunLog(steps), id) == AllEvents(RunOne(id, Ops(steps), timeout))
  {
    if steps != [] {
      var front, last := steps[..|steps| - 1], steps[|steps| - 1];
      FrontOk(steps, timeout);
      LogIsLives(front, timeout, id);
      MapIsLives(Ops(front), timeout, id);
      LogStep(RunMap(Ops(front), timeout), RunOne(id, Ops(front), timeout), RunLog(front), last, timeout, id);
      OpsFront(steps);
    }
  }

  /** The error of the first call that throws. */
  function FirstError(calls: seq<Call>, throws: Call -> Option<string>): Option<string> {
    if calls == [] then None
    else
      var earlier := FirstError(calls[..|calls| - 1], throws);
      if earlier.Some? then earlier else throws(calls[|calls| - 1])
  }

  // ---------------------------------------------------------------- the object

  class Runner {
    const timeout: int
    var heldMap: HeldMap
    /** Every call made, in order. */
    ghost var log: seq<Call>

    constructor (stageTimeout: Option<int>)
      ensures timeout == Timeout(stageTimeout) && heldMap == map[] && log == []
    {
      timeout, heldMap, log := Timeout(stageTimeout), map[], [];
    }

    /** The calls made since the log stood as given. */
    ghost predicate Called(before: seq<Call>, held: HeldMap, op: Op)
      reads this
    {
      |before| <= |log| && log[..|before|] == before && CallsOf(held, op, timeout, log[|before|..])
    }

    /** `delivered` says whether the deliver call returns or throws; when it throws the record is dropped. */
    method Hold(id: string, stages: seq<Stage>, now: int, delivered: bool) returns (thrown: Option<string>)
      modifies this
      ensures heldMap == NextMap(old(heldMap), HoldOp(id, stages, now, delivered), timeout)
      ensures Called(old(log), old(heldMap), HoldOp(id, stages, now, delivered))
      ensures thrown.None? <==>
        && CallFor(old(heldMap), HoldOp(id, stages, now, delivered), timeout, id).Some? && delivered
    {
      if id == "" {
        return Some("empty envelope_id");
      }
      var r := NewHeld(stages, now, timeout);
      if r.Err? {
        return Some(r.error);
      }
      if id in heldMap {
        return Some("already held");
      }
      ghost var before := heldMap;
      heldMap := heldMap[id := r.value];
      log := log + [Call(id, DeliverFirst(r.value))];
      assert log[|old(log)|..] == [Call(id, DeliverFirst(r.value))];
      if !delivered {
        heldMap := heldMap - {id};
        assert heldMap == before;
        return Some("deliver");
      }
      thrown := None;
    }

    method IngestDisposition(id: string, submitter: string, d: Disposition) returns (thrown: Option<string>)
      modifies this
      ensures heldMap == NextMap(old(heldMap), IngestOp(id, submitter, d), timeout) && log == old(log)
      ensures Called(old(log), old(heldMap), IngestOp(id, submitter, d))
      ensures thrown.None? <==> id in old(heldMap) && Ingested(old(heldMap)[id], submitter, d).Ok?
    {
      if !ValidDisposition(d) || submitter == "" || submitter != d.device {
        return Some("disposition");
      }
      if id !in heldMap {
        return Some("not held");
      }
      var r := Ingested(heldMap[id], submitter, d);
      if r.Err? {
        return Some(r.error);
      }
      heldMap := heldMap[id := r.value];
      thrown := None;
    }

    /**
     * Advances what is complete, then makes the calls in order of envelope id; a call that throws stops none of them,
     * and the first error is given back.
     */
    method Tick(now: int, throws: Call -> Option<string>) returns (advanced: nat, firstError: Option<string>)
      modifies this
      ensures heldMap == NextMap(old(heldMap), TickOp(now), timeout)
      ensures Called(old(log), old(heldMap), TickOp(now)) && |log| == |old(log)| + advanced
      ensures firstError == FirstError(log[|old(log)|..], throws)
    {
      ghost var held := heldMap;
      var toRun := AdvanceAll(now);
      assert forall id :: id in heldMap <==> Look(heldMap, id).Some?;
      assert heldMap == TickedMap(held, now, timeout);
      firstError := RunCalls(toRun, throws);
      assert forall id, e :: Call(id, e) in toRun <==> CallFor(held, TickOp(now), timeout, id) == Some(e);
      advanced := |toRun|;
    }

    /** Advances every record that is complete; the result is the calls to make. */
    method AdvanceAll(now: int) returns (toRun: seq<Call>)
      modifies this`heldMap
      ensures forall id ::
        Look(heldMap, id) == if id in old(heldMap) then Ticked(old(heldMap)[id], now, timeout).0 else None
      ensures DistinctIds(toRun)
      ensures forall c :: c in toRun <==>
        && c.id in old(heldMap) && Ticked(old(heldMap)[c.id], now, timeout).1 == Some(c.event)
    {
      ghost var held := heldMap;
      var todo := heldMap.Keys;
      toRun := [];
      while todo != {}
        invariant todo <= held.Keys
        invariant forall id ::
          Look(heldMap, id) == if id in held && id !in todo then Ticked(held[id], now, timeout).0 else Look(held, id)
        invariant DistinctIds(toRun)
        invariant forall c :: c in toRun <==>
          && c.id in held && c.id !in todo && Ticked(held[c.id], now, timeout).1 == Some(c.event)
        decreases |todo|
      {
        var id :| id in todo;
        assert Look(heldMap, id) == Look(held, id);
        todo := todo - {id};
        var event := Advance(id, now);
        if event.Some? {
          assert forall c | c in toRun :: c.id != id;
          toRun := toRun + [Call(id, event.value)];
        }
      }
    }

    /** One record's tick. */
    method Advance(id: string, now: int) returns (event: Option<Event>)
      requires id in heldMap
      modifies this`heldMap
      ensures event == Ticked(old(heldMap)[id], now, timeout).1
      ensures forall k | k != id :: Look(heldMap, k) == Look(old(heldMap), k)
      ensures Look(heldMap, id) == Ticked(old(heldMap)[id], now, timeout).0
    {
      var rest, e := TickOne(heldMap[id], now, timeout);
      event := e;
      if rest.Some? {
        heldMap := heldMap[id := rest.value];
      } else {
        heldMap := heldMap - {id};
      }
    }

    /** The calls, in order of envelope id. */
    method RunCalls(toRun: seq<Call>, throws: Call -> Option<string>) returns (firstError: Option<string>)
      requires DistinctIds(toRun)
      modifies this`log
      ensures |log| == |old(log)| + |toRun| && log[..|old(log)|] == old(log) && Ordered(log[|old(log)|..])
      ensures forall c :: c in log[|old(log)|..] <==> c in toRun
      ensures firstError == FirstError(log[|old(log)|..], throws)
    {
      SortCallsSorts(toRun);
      var calls := SortCalls(toRun);
      firstError := None;
      for i := 0 to |calls|
        invariant log == old(log) + calls[..i] && firstError == FirstError(calls[..i], throws)
      {
        assert calls[..i + 1][..i] == calls[..i];
        log := log + [calls[i]];
        if firstError.None? {
          firstError := throws(calls[i]);
        }
      }
      assert calls[..|calls|] == calls && log[|old(log)|..] == calls;
    }

    method Reevaluate(id: string, stages: seq<Stage>) returns (thrown: Option<string>)
      modifies this
      ensures heldMap == NextMap(old(heldMap), ReevaluateOp(id, stages), timeout) && log == old(log)
      ensures Called(old(log), old(heldMap), ReevaluateOp(id, stages))
      ensures thrown.None? <==> id != "" && id in old(heldMap)
    {
      if id == "" {
        return Some("empty envelope_id");
      }
      if id !in heldMap {
        return Some("not held");
      }
      heldMap := heldMap[id := Reevaluated(heldMap[id], stages)];
      thrown := None;
    }
  }
}
