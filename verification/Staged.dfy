/**
 * Staged delivery of held envelopes: an envelope is delivered stage by stage, each stage waiting for its devices'
 * votes or for its deadline.  Every call is atomic; times are in milliseconds and a deadline is cut to its second.
 */
module Staged {
  import opened Wrappers

  datatype Disposition = Disposition(kind: string, source: string, decision: string, device: string)

  /** Stages as they are held: the devices waited for, and the votes so far. */
  datatype Stage = Stage(stage: int, pending: seq<string>, votes: seq<Disposition>)

  /** One held envelope: the current stage first, and the time it runs out. */
  datatype Held = Held(stages: seq<Stage>, deadline: int)

  /** What the runner calls back. */
  datatype Event =
    | Deliver(stage: int, devices: seq<string>)
    | Suppress(stage: int)
    | Complete

  const DEFAULT_TIMEOUT := 30000

  function Timeout(configured: Option<int>): (t: int)
    ensures t > 0
  {
    if configured.Some? && configured.value > 0 then configured.value else DEFAULT_TIMEOUT
  }

  /** A time printed without its milliseconds and read back. */
  function WholeSecond(ms: int): (r: int)
    ensures ms - 1000 < r <= ms
  {
    ms - ms % 1000
  }

  // ---------------------------------------------------------------- votes

  predicate ValidDisposition(d: Disposition) {
    && d.kind == "delivery-disposition" && d.source != "" && d.device != ""
    && (d.decision == "advance" || d.decision == "suppress")
  }

  predicate Voted(votes: seq<Disposition>, device: string) {
    exists i | 0 <= i < |votes| :: votes[i].device == device
  }

  predicate AllVoted(s: Stage) {
    forall i | 0 <= i < |s.pending| :: Voted(s.votes, s.pending[i])
  }

  predicate AnySuppress(votes: seq<Disposition>) {
    exists i | 0 <= i < |votes| :: votes[i].decision == "suppress"
  }

  /** `isStageComplete`. */
  predicate StageComplete(s: Stage, now: int, deadline: int) {
    s.pending == [] || now >= deadline || AllVoted(s)
  }

  /** The scan for a suppress vote. */
  method AggregateDispositions(votes: seq<Disposition>) returns (suppress: bool)
    ensures suppress == AnySuppress(votes)
  {
    for i := 0 to |votes|
      invariant !AnySuppress(votes[..i])
    {
      if votes[i].decision == "suppress" {
        return true;
      }
      assert votes[..i + 1] == votes[..i] + [votes[i]];
    }
    assert votes[..|votes|] == votes;
    suppress := false;
  }

  /** The set of voters, then the scan of the pending devices. */
  method IsStageComplete(s: Stage, now: int, deadline: int) returns (complete: bool)
    ensures complete == StageComplete(s, now, deadline)
  {
    if s.pending == [] || now >= deadline {
      return true;
    }
    var seen: set<string> := {};
    for i := 0 to |s.votes|
      invariant forall d :: d in seen <==> Voted(s.votes[..i], d)
    {
      seen := seen + {s.votes[i].device};
      forall d ensures Voted(s.votes[..i + 1], d) <==> Voted(s.votes[..i], d) || d == s.votes[i].device {
        assert s.votes[..i + 1] == s.votes[..i] + [s.votes[i]];
        assert s.votes[..i + 1][i] == s.votes[i];
        assert forall k | 0 <= k < i :: s.votes[..i + 1][k] == s.votes[..i][k];
      }
    }
    assert s.votes[..|s.votes|] == s.votes;
    for i := 0 to |s.pending|
      invariant forall k | 0 <= k < i :: Voted(s.votes, s.pending[k])
    {
      if s.pending[i] !in seen {
        return false;
      }
    }
    complete := true;
  }

  // ---------------------------------------------------------------- the calls, on one envelope

  ghost predicate Increasing(stages: seq<Stage>) {
    forall i, j | 0 <= i < j < |stages| :: stages[i].stage < stages[j].stage
  }

  predicate StepsUp(stages: seq<Stage>) {
    forall i | 1 <= i < |stages| :: stages[i - 1].stage < stages[i].stage
  }

  lemma {:induction false} StepsUpIncreasing(stages: seq<Stage>)
    ensures StepsUp(stages) <==> Increasing(stages)
  {
    if |stages| > 1 && StepsUp(stages) {
      var front := stages[..|stages| - 1];
      assert forall i | 0 <= i < |front| :: front[i] == stages[i];
      StepsUpIncreasing(front);
      forall i, j | 0 <= i < j < |stages| ensures stages[i].stage < stages[j].stage {
        assert j < |front| ==> front[i].stage < front[j].stage;
        assert i < |front| - 1 ==> front[i].stage < front[|front| - 1].stage;
      }
    }
  }

  /** The stages that have devices, with no votes yet. */
  function Cleaned(stages: seq<Stage>): (r: seq<Stage>)
    ensures forall i | 0 <= i < |r| :: r[i].pending != [] && r[i].votes == []
  {
    if stages == [] then []
    else if stages[0].pending == [] then Cleaned(stages[1..])
    else [stages[0].(votes := [])] + Cleaned(stages[1..])
  }

  /** What `hold` puts on record, when the id is not held already. */
  function NewHeld(stages: seq<Stage>, now: int, timeout: int): Result<Held> {
    var cleaned := Cleaned(stages);
    if cleaned == [] then Err("no pending devices")
    else if !StepsUp(cleaned) then Err("not increasing")
    else Ok(Held(cleaned, WholeSecond(now + timeout)))
  }

  function DeliverFirst(h: Held): Event
    requires h.stages != []
  {
    Deliver(h.stages[0].stage, h.stages[0].pending)
  }

  /** `ingestDisposition` on the record of a held envelope. */
  function Ingested(h: Held, submitter: string, d: Disposition): Result<Held> {
    if !ValidDisposition(d) || submitter == "" || submitter != d.device then Err("disposition")
    else if h.stages == [] then Err("no remaining stages")
    else if d.device !in h.stages[0].pending then Err("not in the current stage")
    else if Voted(h.stages[0].votes, d.device) then Ok(h)
    else Ok(h.(stages := [h.stages[0].(votes := h.stages[0].votes + [d])] + h.stages[1..]))
  }

  /** `tick` on one record: what remains of it, and the call it leads to. */
  function Ticked(h: Held, now: int, timeout: int): (Option<Held>, Option<Event>) {
    if h.stages == [] || !StageComplete(h.stages[0], now, h.deadline) then (Some(h), None)
    else if AnySuppress(h.stages[0].votes) then (None, Some(Suppress(h.stages[0].stage)))
    else if |h.stages| == 1 then (None, Some(Complete))
    else
      var next := Held(h.stages[1..], WholeSecond(now + timeout));
      (Some(next), Some(DeliverFirst(next)))
  }

  /** The tick of one record, stage check and vote scan in order. */
  method TickOne(h: Held, now: int, timeout: int) returns (rest: Option<Held>, event: Option<Event>)
    ensures (rest, event) == Ticked(h, now, timeout)
  {
    rest, event := Some(h), None;
    if h.stages == [] {
      return;
    }
    var complete := IsStageComplete(h.stages[0], now, h.deadline);
    if !complete {
      return;
    }
    var suppress := AggregateDispositions(h.stages[0].votes);
    if suppress {
      return None, Some(Suppress(h.stages[0].stage));
    }
    var stages := h.stages[1..];
    if stages == [] {
      return None, Some(Complete);
    }
    rest := Some(Held(stages, WholeSecond(now + timeout)));
    event := Some(Deliver(stages[0].stage, stages[0].pending));
  }

  function FromStage(stages: seq<Stage>, least: int): (r: seq<Stage>)
    ensures forall i | 0 <= i < |r| :: r[i].stage >= least && r[i] in stages
  {
    if stages == [] then []
    else if stages[0].stage >= least then [stages[0]] + FromStage(stages[1..], least)
    else FromStage(stages[1..], least)
  }

  /** Stable insertion by stage number. */
  function InsertStage(s: Stage, sorted: seq<Stage>): seq<Stage> {
    if sorted == [] || s.stage <= sorted[0].stage then [s] + sorted else [sorted[0]] + InsertStage(s, sorted[1..])
  }

  function SortStages(stages: seq<Stage>): seq<Stage> {
    if stages == [] then [] else InsertStage(stages[0], SortStages(stages[1..]))
  }

  /** The stages with devices; the current one keeps its votes. */
  function Rebuilt(stages: seq<Stage>, current: Stage): (r: seq<Stage>)
    ensures forall i | 0 <= i < |r| :: r[i].pending != [] && (r[i].votes != [] ==> r[i].stage == current.stage)
  {
    if stages == [] then []
    else if stages[0].pending == [] then Rebuilt(stages[1..], current)
    else
      [stages[0].(votes := if stages[0].stage == current.stage then current.votes else [])]
      + Rebuilt(stages[1..], current)
  }

  /** `reevaluate` on the record of a held envelope. */
  function Reevaluated(h: Held, stages: seq<Stage>): Held {
    if h.stages == [] then h
    else h.(stages := Rebuilt(SortStages(FromStage(stages, h.stages[0].stage)), h.stages[0]))
  }
}
