/** Runs of the staged runner as one envelope id sees them: its lives one after another, and the calls of each. */
module StagedRuns {
  import opened Wrappers
  import opened Staged

  datatype Op =
    | HoldOp(id: string, stages: seq<Stage>, now: int, delivered: bool)
    | IngestOp(id: string, submitter: string, d: Disposition)
    | TickOp(now: int)
    | ReevaluateOp(id: string, stages: seq<Stage>)

  /** A stage that was left behind, by advancing or by suppression: with its votes, when entered, and when left. */
  datatype Passage = Passage(stage: Stage, entered: int, now: int)

  datatype End = Running | Undelivered | Suppressed | Completed

  /** One hold of an envelope: the stages it began with, what it passed, what was called, and how it ended. */
  datatype Life = Life(stages: seq<Stage>, entered: int, passed: seq<Passage>, events: seq<Event>, end: End)

  /** What one id has: the record held now, with its life, and the lives before. */
  datatype One = One(held: Option<Held>, life: Life, past: seq<Life>)

  const NO_LIFE := Life([], 0, [], [], Completed)

  function Began(h: Held, now: int, delivered: bool): Life
    requires h.stages != []
  {
    Life(h.stages, now, [], [DeliverFirst(h)], if delivered then Running else Undelivered)
  }

  /** The life after a tick, by the event it led to. */
  function After(life: Life, h: Held, now: int, e: Event): Life
    requires h.stages != []
  {
    life.(entered := now, passed := life.passed + [Passage(h.stages[0], life.entered, now)],
          events := life.events + [e],
          end := if e.Suppress? then Suppressed else if e.Complete? then Completed else Running)
  }

  function NextOne(one: One, id: string, op: Op, timeout: int): One {
    match op
    case HoldOp(i, stages, now, delivered) =>
      if i != id || id == "" || one.held.Some? then one
      else
        var r := NewHeld(stages, now, timeout);
        if r.Err? then one
        else if delivered then one.(held := Some(r.value), life := Began(r.value, now, true))
        else one.(past := one.past + [Began(r.value, now, false)])
    case IngestOp(i, submitter, d) =>
      if i != id || one.held.None? then one
      else
        var r := Ingested(one.held.value, submitter, d);
        if r.Err? then one else one.(held := Some(r.value))
    case TickOp(now) =>
      if one.held.None? then one
      else
        var (rest, e) := Ticked(one.held.value, now, timeout);
        if e.None? then one
        else
          var life := After(one.life, one.held.value, now, e.value);
          if rest.Some? then one.(held := rest, life := life) else One(None, life, one.past + [life])
    case ReevaluateOp(i, stages) =>
      if i != id || id == "" || one.held.None? then one
      else one.(held := Some(Reevaluated(one.held.value, stages)))
  }

  function RunOne(id: string, ops: seq<Op>, timeout: int): One {
    if ops == [] then One(None, NO_LIFE, [])
    else NextOne(RunOne(id, ops[..|ops| - 1], timeout), id, ops[|ops| - 1], timeout)
  }

  // ---------------------------------------------------------------- without re-evaluation

  function Deliveries(stages: seq<Stage>, n: nat): (r: seq<Event>)
    requires n <= |stages|
    ensures |r| == n && forall i | 0 <= i < n :: r[i] == Deliver(stages[i].stage, stages[i].pending)
  {
    seq(n, i requires 0 <= i < n => Deliver(stages[i].stage, stages[i].pending))
  }

  /** One vote a device, and only from devices that are waited for. */
  ghost predicate VotesOk(s: Stage) {
    && (forall i | 0 <= i < |s.votes| :: s.votes[i].device in s.pending)
    && (forall i, j | 0 <= i < j < |s.votes| :: s.votes[i].device != s.votes[j].device)
  }

  /** The stage as it began, whatever votes it has now. */
  ghost predicate SameStage(s: Stage, t: Stage) {
    s.stage == t.stage && s.pending == t.pending && VotesOk(s)
  }

  /** How many stages were delivered. */
  function Delivered(life: Life): nat {
    if life.end == Running || life.end == Undelivered then |life.passed| + 1 else |life.passed|
  }

  /** The stage was entered when the one before was left, and left because all had voted or its time was up. */
  ghost predicate PassageOk(life: Life, i: nat, start: int, timeout: int) {
    && i < |life.passed| && i < |life.stages|
    && SameStage(life.passed[i].stage, life.stages[i])
    && life.passed[i].entered == (if i == 0 then start else life.passed[i - 1].now)
    && (AllVoted(life.passed[i].stage) || life.passed[i].now >= WholeSecond(life.passed[i].entered + timeout))
    && (AnySuppress(life.passed[i].stage.votes) <==> life.end == Suppressed && i == |life.passed| - 1)
  }

  function Ending(life: Life): seq<Event>
    requires Delivered(life) <= |life.stages|
  {
    match life.end
    case Suppressed => if Delivered(life) == 0 then [] else [Suppress(life.stages[Delivered(life) - 1].stage)]
    case Completed => [Complete]
    case _ => []
  }

  ghost predicate LifeOk(life: Life, start: int, timeout: int) {
    && Increasing(life.stages) && (forall i | 0 <= i < |life.stages| :: life.stages[i].pending != [])
    && 1 <= Delivered(life) <= |life.stages|
    && life.events == Deliveries(life.stages, Delivered(life)) + Ending(life)
    && (life.end == Completed ==> Delivered(life) == |life.stages|)
    && (life.end == Undelivered ==> life.passed == [])
    && (forall i | 0 <= i < |life.passed| :: PassageOk(life, i, start, timeout))
  }

  /** The record of a running life: the stages not yet passed, the first of them with its votes. */
  ghost predicate HeldOk(h: Held, life: Life, start: int, timeout: int) {
    && life.end == Running && LifeOk(life, start, timeout)
    && |h.stages| + |life.passed| == |life.stages| && h.stages != []
    && SameStage(h.stages[0], life.stages[|life.passed|])
    && h.stages[1..] == life.stages[|life.passed| + 1..]
    && (forall i | 0 <= i < |life.stages| :: life.stages[i].votes == [])
    && life.entered == (if life.passed == [] then start else life.passed[|life.passed| - 1].now)
    && h.deadline == WholeSecond(life.entered + timeout)
  }

  ghost predicate OneOk(one: One, timeout: int) {
    && (one.held.Some? ==> exists start :: HeldOk(one.held.value, one.life, start, timeout))
    && (forall k | 0 <= k < |one.past| :: Ended(one.past[k], timeout))
  }

  ghost predicate Ended(life: Life, timeout: int) {
    life.end != Running && exists start :: LifeOk(life, start, timeout)
  }

  lemma BeganOk(stages: seq<Stage>, now: int, timeout: int, delivered: bool)
    requires NewHeld(stages, now, timeout).Ok?
    ensures var h := NewHeld(stages, now, timeout).value;
      var life := Began(h, now, delivered);
      LifeOk(life, now, timeout) && (delivered ==> HeldOk(h, life, now, timeout))
  {
    var h := NewHeld(stages, now, timeout).value;
    StepsUpIncreasing(h.stages);
    assert Began(h, now, delivered).events == Deliveries(h.stages, 1) + [];
  }

  lemma IngestOk(h: Held, life: Life, start: int, timeout: int, submitter: string, d: Disposition)
    requires HeldOk(h, life, start, timeout) && Ingested(h, submitter, d).Ok?
    ensures HeldOk(Ingested(h, submitter, d).value, life, start, timeout)
  {}

  lemma TickPassages(h: Held, life: Life, start: int, timeout: int, now: int, i: nat)
    requires HeldOk(h, life, start, timeout) && Ticked(h, now, timeout).1.Some? && i <= |life.passed|
    ensures PassageOk(After(life, h, now, Ticked(h, now, timeout).1.value), i, start, timeout)
  {
    if i < |life.passed| {
      assert PassageOk(life, i, start, timeout);
    }
  }

  lemma TickEvents(h: Held, life: Life, start: int, timeout: int, now: int)
    requires HeldOk(h, life, start, timeout) && Ticked(h, now, timeout).1.Some?
    ensures var next := After(life, h, now, Ticked(h, now, timeout).1.value);
      1 <= Delivered(next) <= |next.stages| && next.events == Deliveries(next.stages, Delivered(next)) + Ending(next)
  {
    var n := |life.passed|;
    if |h.stages| > 1 {
      assert h.stages[1] == h.stages[1..][0] == life.stages[n + 1..][0] == life.stages[n + 1];
      assert Deliveries(life.stages, n + 2)
        == Deliveries(life.stages, n + 1) + [Deliver(h.stages[1].stage, h.stages[1].pending)];
    }
  }

  /** A tick that leads to a call: the life goes on one stage, or ends. */
  lemma TickOk(h: Held, life: Life, start: int, timeout: int, now: int)
    requires HeldOk(h, life, start, timeout) && Ticked(h, now, timeout).1.Some?
    ensures var (rest, e) := Ticked(h, now, timeout);
      var next := After(life, h, now, e.value);
      && LifeOk(next, start, timeout)
      && (if rest.Some? then HeldOk(rest.value, next, start, timeout) else next.end != Running)
  {
    var (rest, e) := Ticked(h, now, timeout);
    var next := After(life, h, now, e.value);
    forall i | 0 <= i < |next.passed| ensures PassageOk(next, i, start, timeout) {
      TickPassages(h, life, start, timeout, now, i);
    }
    TickEvents(h, life, start, timeout, now);
    if rest.Some? {
      assert h.stages[1] == h.stages[1..][0] == life.stages[|life.passed| + 1..][0];
    }
  }

  lemma NextOneOk(one: One, id: string, op: Op, timeout: int)
    requires OneOk(one, timeout) && !op.ReevaluateOp?
    ensures OneOk(NextOne(one, id, op, timeout), timeout)
  {
    if one.held.Some? {
      var start :| HeldOk(one.held.value, one.life, start, timeout);
      match op
      case IngestOp(i, submitter, d) =>
        if i == id && Ingested(one.held.value, submitter, d).Ok? {
          IngestOk(one.held.value, one.life, start, timeout, submitter, d);
        }
      case TickOp(now) =>
        if Ticked(one.held.value, now, timeout).1.Some? {
          TickOk(one.held.value, one.life, start, timeout, now);
        }
      case _ =>
    } else if op.HoldOp? && NewHeld(op.stages, op.now, timeout).Ok? {
      BeganOk(op.stages, op.now, timeout, op.delivered);
      assert LifeOk(Began(NewHeld(op.stages, op.now, timeout).value, op.now, op.delivered), op.now, timeout);
    }
  }

  /**
   * Every life of a held envelope, without re-evaluation: deliveries on a prefix of its stages, in strictly increasing
   * order, then at most one suppression or completion and nothing after; a stage is left only when all its devices
   * voted or its time was up, and never with a suppress vote except to suppress.
   */
  lemma {:induction false} LivesOk(id: string, ops: seq<Op>, timeout: int)
    requires forall k | 0 <= k < |ops| :: !ops[k].ReevaluateOp?
    ensures OneOk(RunOne(id, ops, timeout), timeout)
  {
    if ops != [] {
      LivesOk(id, ops[..|ops| - 1], timeout);
      NextOneOk(RunOne(id, ops[..|ops| - 1], timeout), id, ops[|ops| - 1], timeout);
    }
  }

  /** The tick comes at or after the deadline that the id is held under. */
  predicate LateTick(one: One, op: Op) {
    one.held.Some? && op.TickOp? && op.now >= one.held.value.deadline
  }

  /** How many late ticks there were since the id was last held. */
  function LateTicks(id: string, ops: seq<Op>, timeout: int): nat {
    if ops == [] then 0
    else
      var front, op := ops[..|ops| - 1], ops[|ops| - 1];
      var one := RunOne(id, front, timeout);
      if one.held.None? then 0 else LateTicks(id, front, timeout) + if LateTick(one, op) then 1 else 0
  }

  /** A late tick passes a stage, whatever the votes. */
  lemma LateTickPasses(one: One, id: string, op: Op, timeout: int)
    requires OneOk(one, timeout) && LateTick(one, op)
    ensures |NextOne(one, id, op, timeout).life.passed| == |one.life.passed| + 1
  {}

  /** No operation on a held envelope takes a passage back. */
  lemma PassedGrows(one: One, id: string, op: Op, timeout: int)
    requires one.held.Some?
    ensures |NextOne(one, id, op, timeout).life.passed| >= |one.life.passed|
  {}

  lemma {:induction false} LateTicksPassed(id: string, ops: seq<Op>, timeout: int)
    requires forall k | 0 <= k < |ops| :: !ops[k].ReevaluateOp?
    ensures var one := RunOne(id, ops, timeout); one.held.Some? ==> LateTicks(id, ops, timeout) <= |one.life.passed|
  {
    if ops != [] {
      var front, op := ops[..|ops| - 1], ops[|ops| - 1];
      var one := RunOne(id, front, timeout);
      LateTicksPassed(id, front, timeout);
      LivesOk(id, front, timeout);
      if one.held.Some? {
        PassedGrows(one, id, op, timeout);
        if LateTick(one, op) {
          LateTickPasses(one, id, op, timeout);
        }
      }
    }
  }

  /** While an envelope with k stages is held, fewer than k ticks came at or after the deadline of their time. */
  lemma LateTicksBounded(id: string, ops: seq<Op>, timeout: int)
    requires forall k | 0 <= k < |ops| :: !ops[k].ReevaluateOp?
    ensures var one := RunOne(id, ops, timeout); one.held.Some? ==> LateTicks(id, ops, timeout) < |one.life.stages|
  {
    LateTicksPassed(id, ops, timeout);
    LivesOk(id, ops, timeout);
  }

  // ---------------------------------------------------------------- with re-evaluation

  ghost predicate DistinctStages(stages: seq<Stage>) {
    forall i, j | 0 <= i < j < |stages| :: stages[i].stage != stages[j].stage
  }

  ghost predicate NumberIn(stages: seq<Stage>, n: int) {
    exists i :: 0 <= i < |stages| && stages[i].stage == n
  }

  lemma NumberInCons(s: Stage, rest: seq<Stage>)
    ensures forall n :: NumberIn([s] + rest, n) <==> n == s.stage || NumberIn(rest, n)
  {
    var r := [s] + rest;
    assert r[0] == s && forall i | 0 <= i < |rest| :: r[i + 1] == rest[i];
    forall n ensures NumberIn(r, n) <==> n == s.stage || NumberIn(rest, n) {
      if NumberIn(rest, n) {
        var i :| 0 <= i < |rest| && rest[i].stage == n;
        assert r[i + 1].stage == n;
      }
      if NumberIn(r, n) && n != s.stage {
        var i :| 0 <= i < |r| && r[i].stage == n;
        assert rest[i - 1].stage == n;
      }
    }
  }

  lemma FirstRest(stages: seq<Stage>)
    requires stages != []
    ensures stages == [stages[0]] + stages[1..]
  {}

  /** The first number is below all others, so the list is increasing when the rest is. */
  lemma IncreasingCons(s: Stage, rest: seq<Stage>)
    requires Increasing(rest) && forall n | NumberIn(rest, n) :: s.stage < n
    ensures Increasing([s] + rest)
  {
    forall i | 0 <= i < |rest| ensures s.stage < rest[i].stage {
      assert NumberIn(rest, rest[i].stage);
    }
  }

  lemma {:induction false} FromStageNumbers(stages: seq<Stage>, least: int)
    ensures forall n | NumberIn(FromStage(stages, least), n) :: NumberIn(stages, n) && n >= least
  {
    if stages != [] {
      FromStageNumbers(stages[1..], least);
      FirstRest(stages);
      NumberInCons(stages[0], stages[1..]);
      NumberInCons(stages[0], FromStage(stages[1..], least));
    }
  }

  lemma {:induction false} FromStageDistinct(stages: seq<Stage>, least: int)
    requires DistinctStages(stages)
    ensures DistinctStages(FromStage(stages, least))
  {
    if stages != [] {
      FromStageDistinct(stages[1..], least);
      FromStageNumbers(stages[1..], least);
    }
  }

  lemma {:induction false} InsertStageSorts(s: Stage, sorted: seq<Stage>)
    requires Increasing(sorted) && !NumberIn(sorted, s.stage)
    ensures Increasing(InsertStage(s, sorted))
    ensures forall n :: NumberIn(InsertStage(s, sorted), n) <==> n == s.stage || NumberIn(sorted, n)
  {
    if sorted == [] {
      NumberInCons(s, []);
    } else {
      FirstRest(sorted);
      NumberInCons(sorted[0], sorted[1..]);
      assert NumberIn(sorted, sorted[0].stage);
      if s.stage <= sorted[0].stage {
        NumberInCons(s, sorted);
        IncreasingCons(s, sorted);
      } else {
        InsertStageSorts(s, sorted[1..]);
        NumberInCons(sorted[0], InsertStage(s, sorted[1..]));
        IncreasingCons(sorted[0], InsertStage(s, sorted[1..]));
      }
    }
  }

  lemma {:induction false} SortStagesSorts(stages: seq<Stage>)
    requires DistinctStages(stages)
    ensures Increasing(SortStages(stages))
    ensures forall n :: NumberIn(SortStages(stages), n) <==> NumberIn(stages, n)
  {
    if stages != [] {
      SortStagesSorts(stages[1..]);
      FirstRest(stages);
      NumberInCons(stages[0], stages[1..]);
      InsertStageSorts(stages[0], SortStages(stages[1..]));
    }
  }

  lemma {:induction false} RebuiltIncreasing(stages: seq<Stage>, current: Stage)
    requires Increasing(stages)
    ensures Increasing(Rebuilt(stages, current))
    ensures forall n | NumberIn(Rebuilt(stages, current), n) :: NumberIn(stages, n)
  {
    if stages != [] {
      RebuiltIncreasing(stages[1..], current);
      FirstRest(stages);
      NumberInCons(stages[0], stages[1..]);
      if stages[0].pending != [] {
        var s := stages[0].(votes := if stages[0].stage == current.stage then current.votes else []);
        NumberInCons(s, Rebuilt(stages[1..], current));
        IncreasingCons(s, Rebuilt(stages[1..], current));
      }
    }
  }

  /** Re-evaluation on distinct stage numbers: increasing stages, none below the current one. */
  lemma ReevaluatedRises(h: Held, stages: seq<Stage>)
    requires h.stages != [] && DistinctStages(stages)
    ensures Increasing(Reevaluated(h, stages).stages)
    ensures forall i | 0 <= i < |Reevaluated(h, stages).stages| ::
      Reevaluated(h, stages).stages[i].stage >= h.stages[0].stage
  {
    var least := h.stages[0].stage;
    var from := FromStage(stages, least);
    FromStageDistinct(stages, least);
    SortStagesSorts(from);
    RebuiltIncreasing(SortStages(from), h.stages[0]);
    var r := Reevaluated(h, stages).stages;
    forall i | 0 <= i < |r| ensures r[i].stage >= least {
      assert NumberIn(r, r[i].stage);
      FromStageNumbers(stages, least);
    }
  }

  /** Deliveries with strictly increasing stage numbers; anything else comes last. */
  ghost predicate Rising(events: seq<Event>) {
    && (forall i | 0 <= i < |events| - 1 :: events[i].Deliver?)
    && (forall i, j | 0 <= i < j < |events| && events[j].Deliver? ::
          events[i].Deliver? && events[i].stage < events[j].stage)
  }

  ghost predicate Rises(one: One) {
    && (one.held.Some? ==>
          var h, events := one.held.value, one.life.events;
          && Increasing(h.stages) && Rising(events) && events != [] && events[|events| - 1].Deliver?
          && (h.stages != [] ==> events[|events| - 1].stage <= h.stages[0].stage))
    && (forall k | 0 <= k < |one.past| :: Rising(one.past[k].events))
  }

  lemma NextRises(one: One, id: string, op: Op, timeout: int)
    requires Rises(one) && (op.ReevaluateOp? ==> DistinctStages(op.stages))
    ensures Rises(NextOne(one, id, op, timeout))
  {
    if one.held.Some? && op.ReevaluateOp? && one.held.value.stages != [] {
      ReevaluatedRises(one.held.value, op.stages);
    }
    if op.HoldOp? && NewHeld(op.stages, op.now, timeout).Ok? {
      StepsUpIncreasing(NewHeld(op.stages, op.now, timeout).value.stages);
    }
  }

  /**
   * With re-evaluation on distinct stage numbers, the delivered stage numbers of every life still strictly increase.
   */
  lemma {:induction false} DeliveriesRise(id: string, ops: seq<Op>, timeout: int)
    requires forall k | 0 <= k < |ops| && ops[k].ReevaluateOp? :: DistinctStages(ops[k].stages)
    ensures Rises(RunOne(id, ops, timeout))
  {
    if ops != [] {
      DeliveriesRise(id, ops[..|ops| - 1], timeout);
      NextRises(RunOne(id, ops[..|ops| - 1], timeout), id, ops[|ops| - 1], timeout);
    }
  }

  // What re-evaluation leaves: the stages given, from the current one on, that have devices.

  lemma {:induction false} FromStageMembers(stages: seq<Stage>, least: int, x: Stage)
    ensures x in FromStage(stages, least) <==> x in stages && x.stage >= least
  {
    if stages != [] {
      FromStageMembers(stages[1..], least, x);
      assert stages == [stages[0]] + stages[1..];
    }
  }

  lemma {:induction false} InsertMembers(s: Stage, sorted: seq<Stage>, x: Stage)
    ensures x in InsertStage(s, sorted) <==> x == s || x in sorted
  {
    if sorted != [] {
      assert sorted == [sorted[0]] + sorted[1..];
      InsertMembers(s, sorted[1..], x);
    }
  }

  lemma {:induction false} SortMembers(stages: seq<Stage>, x: Stage)
    ensures x in SortStages(stages) <==> x in stages
  {
    if stages != [] {
      SortMembers(stages[1..], x);
      InsertMembers(stages[0], SortStages(stages[1..]), x);
      assert stages == [stages[0]] + stages[1..];
    }
  }

  /** `x` is a stage given that has devices, with the votes of the current stage when it is that one. */
  predicate Carries(x: Stage, s: Stage, current: Stage) {
    && x.stage == s.stage && x.pending == s.pending && s.pending != []
    && x.votes == (if s.stage == current.stage then current.votes else [])
  }

  ghost predicate CarriedFrom(x: Stage, stages: seq<Stage>, current: Stage) {
    exists s :: s in stages && Carries(x, s, current)
  }

  lemma CarriedCons(x: Stage, stages: seq<Stage>, current: Stage)
    requires stages != []
    ensures CarriedFrom(x, stages, current) <==> Carries(x, stages[0], current) || CarriedFrom(x, stages[1..], current)
  {
    assert stages == [stages[0]] + stages[1..];
    assert stages[0] in stages && forall s | s in stages[1..] :: s in stages;
    if CarriedFrom(x, stages, current) {
      var s :| s in stages && Carries(x, s, current);
      assert s == stages[0] || s in stages[1..];
    }
  }

  lemma {:induction false} RebuiltMembers(stages: seq<Stage>, current: Stage, x: Stage)
    ensures x in Rebuilt(stages, current) <==> CarriedFrom(x, stages, current)
  {
    if stages != [] {
      RebuiltMembers(stages[1..], current, x);
      CarriedCons(x, stages, current);
    }
  }

  /**
   * Re-evaluation takes the stages given that are not below the current one and have devices, and no others; the
   * current one keeps its votes, the others have none, and the deadline stays.
   */
  lemma ReevaluatedStages(h: Held, stages: seq<Stage>, x: Stage)
    requires h.stages != []
    ensures var r := Reevaluated(h, stages);
      && r.deadline == h.deadline
      && (x in r.stages <==>
            exists s :: s in stages && s.stage >= h.stages[0].stage && Carries(x, s, h.stages[0]))
  {
    var from := FromStage(stages, h.stages[0].stage);
    RebuiltMembers(SortStages(from), h.stages[0], x);
    forall s ensures s in SortStages(from) <==> s in stages && s.stage >= h.stages[0].stage {
      SortMembers(from, s);
      FromStageMembers(stages, h.stages[0].stage, s);
    }
  }

  /** Re-evaluating to nothing: exactly when no stage from the current one on has devices. */
  lemma EmptiedWhen(h: Held, stages: seq<Stage>)
    requires h.stages != []
    ensures Reevaluated(h, stages).stages == [] <==>
      forall i | 0 <= i < |stages| :: stages[i].stage < h.stages[0].stage || stages[i].pending == []
  {
    var from := FromStage(stages, h.stages[0].stage);
    FromStageKeeps(stages, h.stages[0].stage);
    SortKeepsAll(from);
    RebuiltEmpty(SortStages(from), h.stages[0]);
  }

  ghost predicate NoDevices(stages: seq<Stage>) {
    forall s | s in stages :: s.pending == []
  }

  lemma {:induction false} FromStageKeeps(stages: seq<Stage>, least: int)
    ensures NoDevices(FromStage(stages, least)) <==>
      forall i | 0 <= i < |stages| :: stages[i].stage < least || stages[i].pending == []
  {
    if stages != [] {
      FromStageKeeps(stages[1..], least);
      assert stages == [stages[0]] + stages[1..];
      assert forall i | 0 <= i < |stages[1..]| :: stages[1..][i] == stages[i + 1];
    }
  }

  lemma {:induction false} InsertKeepsAll(s: Stage, sorted: seq<Stage>)
    ensures NoDevices(InsertStage(s, sorted)) <==> s.pending == [] && NoDevices(sorted)
  {
    if sorted != [] {
      assert sorted == [sorted[0]] + sorted[1..];
      if s.stage > sorted[0].stage {
        InsertKeepsAll(s, sorted[1..]);
      }
    }
  }

  lemma {:induction false} SortKeepsAll(stages: seq<Stage>)
    ensures NoDevices(SortStages(stages)) <==> NoDevices(stages)
  {
    if stages != [] {
      SortKeepsAll(stages[1..]);
      InsertKeepsAll(stages[0], SortStages(stages[1..]));
      assert stages == [stages[0]] + stages[1..];
    }
  }

  lemma {:induction false} RebuiltEmpty(stages: seq<Stage>, current: Stage)
    ensures Rebuilt(stages, current) == [] <==> NoDevices(stages)
  {
    if stages != [] {
      RebuiltEmpty(stages[1..], current);
      assert stages == [stages[0]] + stages[1..];
    }
  }

  /** A record emptied by re-evaluation stays held for ever: no later call of any kind changes or completes it. */
  lemma {:induction false} StuckForever(one: One, id: string, ops: seq<Op>, timeout: int)
    requires one.held.Some? && one.held.value.stages == []
    ensures RunFrom(one, id, ops, timeout) == one
  {
    if ops != [] {
      StuckForever(one, id, ops[..|ops| - 1], timeout);
    }
  }

  function RunFrom(one: One, id: string, ops: seq<Op>, timeout: int): One {
    if ops == [] then one
    else NextOne(RunFrom(one, id, ops[..|ops| - 1], timeout), id, ops[|ops| - 1], timeout)
  }

  lemma {:induction false} RunOneFrom(id: string, ops: seq<Op>, later: seq<Op>, timeout: int)
    ensures RunOne(id, ops + later, timeout) == RunFrom(RunOne(id, ops, timeout), id, later, timeout)
  {
    if later == [] {
      assert ops + later == ops;
    } else {
      RunOneFrom(id, ops, later[..|later| - 1], timeout);
      assert (ops + later)[..|ops + later| - 1] == ops + later[..|later| - 1];
    }
  }

  /** A run that empties a record: held for one device, re-evaluated to nothing, and then whatever may come. */
  lemma EmptiedRun(id: string, now: int, later: seq<Op>, timeout: int)
    requires id != ""
    ensures var stages := [Stage(1, ["d"], [])];
      RunOne(id, [HoldOp(id, stages, now, true), ReevaluateOp(id, [])] + later, timeout).held
        == Some(Held([], WholeSecond(now + timeout)))
  {
    var stages := [Stage(1, ["d"], [])];
    var ops := [HoldOp(id, stages, now, true), ReevaluateOp(id, [])];
    assert stages[1..] == [] && Cleaned(stages) == stages && StepsUp(stages);
    assert ops[..1] == [ops[0]] && [ops[0]][..0] == [];
    var one := RunOne(id, [], timeout);
    assert RunOne(id, [ops[0]], timeout) == NextOne(one, id, ops[0], timeout);
    assert RunOne(id, ops, timeout).held == Some(Held([], WholeSecond(now + timeout)));
    StuckForever(RunOne(id, ops, timeout), id, later, timeout);
    RunOneFrom(id, ops, later, timeout);
  }
}
