/**
 * What the votes of a stage are, from the calls alone: the first valid vote of each device the stage waits for, as it
 * was handed in, and what that makes of the stage.
 */
module StagedVotes {
  import opened Wrappers
  import opened Staged
  import opened StagedRuns

  /** A call of `ingestDisposition`. */
  datatype Handed = Handed(submitter: string, d: Disposition)

  /** The calls for this id since its current stage was entered: by a hold, or by leaving the one before. */
  function HandedIn(id: string, ops: seq<Op>, timeout: int): seq<Handed> {
    if ops == [] then []
    else
      var front, op := ops[..|ops| - 1], ops[|ops| - 1];
      var one, next := RunOne(id, front, timeout), RunOne(id, ops, timeout);
      var before := HandedIn(id, front, timeout);
      if op.IngestOp? && op.id == id then before + [Handed(op.submitter, op.d)]
      else if one.held.None? || |next.life.passed| != |one.life.passed| then []
      else before
  }

  /** A vote in order, cast by a device that is waited for, and handed in by that device itself. */
  predicate Casts(devices: seq<string>, h: Handed) {
    && h.submitter == h.d.device && h.d.device in devices && h.d.device != ""
    && h.d.kind == "delivery-disposition" && h.d.source != ""
    && (h.d.decision == "advance" || h.d.decision == "suppress")
  }

  ghost predicate HasCast(devices: seq<string>, calls: seq<Handed>, device: string) {
    exists k :: 0 <= k < |calls| && Casts(devices, calls[k]) && calls[k].d.device == device
  }

  /** Call `k` is a vote, and the first one of its device. */
  ghost predicate First(devices: seq<string>, calls: seq<Handed>, k: nat) {
    k < |calls| && Casts(devices, calls[k]) && !HasCast(devices, calls[..k], calls[k].d.device)
  }

  /** The first votes, in the order they were handed in. */
  ghost function FirstVotes(devices: seq<string>, calls: seq<Handed>): seq<Disposition> {
    if calls == [] then []
    else
      var n := |calls| - 1;
      FirstVotes(devices, calls[..n]) + if First(devices, calls, n) then [calls[n].d] else []
  }

  /** A first vote says to suppress. */
  ghost predicate SaysSuppress(devices: seq<string>, calls: seq<Handed>) {
    exists k: nat :: First(devices, calls, k) && calls[k].d.decision == "suppress"
  }

  lemma HasCastLast(devices: seq<string>, calls: seq<Handed>, device: string)
    requires calls != []
    ensures var n := |calls| - 1;
      HasCast(devices, calls, device) <==>
        HasCast(devices, calls[..n], device) || (Casts(devices, calls[n]) && calls[n].d.device == device)
  {
    var n := |calls| - 1;
    if HasCast(devices, calls[..n], device) {
      var k :| 0 <= k < n && Casts(devices, calls[..n][k]) && calls[..n][k].d.device == device;
      assert calls[k] == calls[..n][k];
    }
    if HasCast(devices, calls, device) {
      var k :| 0 <= k < |calls| && Casts(devices, calls[k]) && calls[k].d.device == device;
      assert k < n ==> calls[..n][k] == calls[k];
    }
  }

  lemma VotedLast(votes: seq<Disposition>, d: Disposition, device: string)
    ensures Voted(votes + [d], device) <==> Voted(votes, device) || d.device == device
    ensures AnySuppress(votes + [d]) <==> AnySuppress(votes) || d.decision == "suppress"
  {
    var all := votes + [d];
    assert all[|votes|] == d && forall i | 0 <= i < |votes| :: all[i] == votes[i];
  }

  /** A device is among the first votes exactly when it has cast one. */
  lemma {:induction false} FirstVotesVoted(devices: seq<string>, calls: seq<Handed>, device: string)
    ensures Voted(FirstVotes(devices, calls), device) <==> HasCast(devices, calls, device)
  {
    if calls != [] {
      var n := |calls| - 1;
      FirstVotesVoted(devices, calls[..n], device);
      HasCastLast(devices, calls, device);
      if First(devices, calls, n) {
        VotedLast(FirstVotes(devices, calls[..n]), calls[n].d, device);
      } else {
        assert FirstVotes(devices, calls) == FirstVotes(devices, calls[..n]);
      }
    }
  }

  lemma FirstLater(devices: seq<string>, calls: seq<Handed>, k: nat)
    requires k < |calls| - 1
    ensures First(devices, calls, k) <==> First(devices, calls[..|calls| - 1], k)
  {
    assert calls[..|calls| - 1][..k] == calls[..k];
  }

  lemma SaysSuppressLast(devices: seq<string>, calls: seq<Handed>)
    requires calls != []
    ensures var n := |calls| - 1;
      SaysSuppress(devices, calls) <==>
        SaysSuppress(devices, calls[..n]) || (First(devices, calls, n) && calls[n].d.decision == "suppress")
  {
    var n := |calls| - 1;
    if SaysSuppress(devices, calls) {
      var k: nat :| First(devices, calls, k) && calls[k].d.decision == "suppress";
      if k < n {
        FirstLater(devices, calls, k);
        assert calls[..n][k] == calls[k];
      }
    }
    if SaysSuppress(devices, calls[..n]) {
      var k: nat :| First(devices, calls[..n], k) && calls[..n][k].d.decision == "suppress";
      FirstLater(devices, calls, k);
      assert calls[k] == calls[..n][k];
    }
  }

  lemma {:induction false} FirstVotesSuppress(devices: seq<string>, calls: seq<Handed>)
    ensures AnySuppress(FirstVotes(devices, calls)) <==> SaysSuppress(devices, calls)
  {
    if calls != [] {
      var n := |calls| - 1;
      FirstVotesSuppress(devices, calls[..n]);
      SaysSuppressLast(devices, calls);
      if First(devices, calls, n) {
        VotedLast(FirstVotes(devices, calls[..n]), calls[n].d, "");
      } else {
        assert FirstVotes(devices, calls) == FirstVotes(devices, calls[..n]);
      }
    }
  }

  // ---------------------------------------------------------------- in every run

  /** The votes of the current stage are the first votes handed in for it. */
  ghost predicate VotesAre(one: One, calls: seq<Handed>) {
    one.held.Some? && one.held.value.stages != [] ==>
      one.held.value.stages[0].votes == FirstVotes(one.held.value.stages[0].pending, calls)
  }

  /** What a call of `ingestDisposition` makes of the votes. */
  lemma IngestedVotes(h: Held, submitter: string, d: Disposition, calls: seq<Handed>)
    requires h.stages != [] && h.stages[0].votes == FirstVotes(h.stages[0].pending, calls)
    ensures var r, devices := Ingested(h, submitter, d), h.stages[0].pending;
      var votes := FirstVotes(devices, calls + [Handed(submitter, d)]);
      if r.Ok? then
        r.value.stages == [h.stages[0].(votes := votes)] + h.stages[1..] && r.value.deadline == h.deadline
      else votes == h.stages[0].votes
  {
    var devices, all := h.stages[0].pending, calls + [Handed(submitter, d)];
    assert all[..|calls|] == calls && all[|calls|] == Handed(submitter, d);
    FirstVotesVoted(devices, calls, d.device);
    assert FirstVotes(devices, all)
        == h.stages[0].votes + if First(devices, all, |calls|) then [d] else [];
    assert h.stages == [h.stages[0]] + h.stages[1..];
  }

  lemma IngestKeepsVotes(one: One, id: string, op: Op, timeout: int, calls: seq<Handed>)
    requires VotesAre(one, calls) && op.IngestOp? && op.id == id
    ensures VotesAre(NextOne(one, id, op, timeout), calls + [Handed(op.submitter, op.d)])
  {
    if one.held.Some? && one.held.value.stages != [] {
      IngestedVotes(one.held.value, op.submitter, op.d, calls);
    }
  }

  /** Every stage that has not been entered yet has no votes. */
  ghost predicate LaterEmpty(one: One) {
    one.held.Some? ==> forall i | 1 <= i < |one.held.value.stages| :: one.held.value.stages[i].votes == []
  }

  lemma IngestKeepsLater(one: One, id: string, op: Op, timeout: int)
    requires LaterEmpty(one) && op.IngestOp?
    ensures LaterEmpty(NextOne(one, id, op, timeout))
  {}

  lemma OtherKeepsVotes(one: One, id: string, op: Op, timeout: int, calls: seq<Handed>)
    requires VotesAre(one, calls) && LaterEmpty(one) && !op.ReevaluateOp? && !(op.IngestOp? && op.id == id)
    ensures var next := NextOne(one, id, op, timeout);
      && LaterEmpty(next)
      && VotesAre(next, if one.held.None? || |next.life.passed| != |one.life.passed| then [] else calls)
  {}

  /**
   * In every run without re-evaluation, the votes of the current stage are, in order, the first valid vote that each
   * device it waits for has handed in itself since the stage was entered.
   */
  lemma {:induction false} VotesAsCast(id: string, ops: seq<Op>, timeout: int)
    requires forall k | 0 <= k < |ops| :: !ops[k].ReevaluateOp?
    ensures VotesAre(RunOne(id, ops, timeout), HandedIn(id, ops, timeout)) && LaterEmpty(RunOne(id, ops, timeout))
  {
    if ops != [] {
      var front, op := ops[..|ops| - 1], ops[|ops| - 1];
      VotesAsCast(id, front, timeout);
      var one := RunOne(id, front, timeout);
      if op.IngestOp? && op.id == id {
        IngestKeepsVotes(one, id, op, timeout, HandedIn(id, front, timeout));
        IngestKeepsLater(one, id, op, timeout);
      } else {
        OtherKeepsVotes(one, id, op, timeout, HandedIn(id, front, timeout));
      }
    }
  }

  /** The tick leaves the stage that is current. */
  predicate Leaves(one: One, id: string, now: int, timeout: int) {
    |NextOne(one, id, TickOp(now), timeout).life.passed| == |one.life.passed| + 1
  }

  /**
   * What a tick does after any such run, from the votes handed in: it leaves the stage exactly when its time is up or
   * every device has cast its vote, and then it suppresses exactly when one of the first votes says so.
   */
  lemma TickAsCast(id: string, ops: seq<Op>, timeout: int, now: int)
    requires forall k | 0 <= k < |ops| :: !ops[k].ReevaluateOp?
    requires RunOne(id, ops, timeout).held.Some?
    ensures RunOne(id, ops, timeout).held.value.stages != []
    ensures var one, calls := RunOne(id, ops, timeout), HandedIn(id, ops, timeout);
      var next, stage := NextOne(one, id, TickOp(now), timeout), one.held.value.stages[0];
      && (Leaves(one, id, now, timeout) <==>
            now >= one.held.value.deadline || forall i | 0 <= i < |stage.pending| ::
              HasCast(stage.pending, calls, stage.pending[i]))
      && (!Leaves(one, id, now, timeout) ==> next == one)
      && (Leaves(one, id, now, timeout) ==>
            && (next.life.end == Suppressed <==> SaysSuppress(stage.pending, calls))
            && (next.life.end == Completed <==> !SaysSuppress(stage.pending, calls) && |one.held.value.stages| == 1))
  {
    LivesOk(id, ops, timeout);
    VotesAsCast(id, ops, timeout);
    var one, calls := RunOne(id, ops, timeout), HandedIn(id, ops, timeout);
    var start :| HeldOk(one.held.value, one.life, start, timeout);
    var stage := one.held.value.stages[0];
    TickFromVotes(one, id, timeout, now, calls);
  }

  lemma TickFromVotes(one: One, id: string, timeout: int, now: int, calls: seq<Handed>)
    requires one.held.Some? && one.held.value.stages != [] && one.life.end == Running && VotesAre(one, calls)
    requires one.held.value.stages[0].pending != []
    ensures var next, stage := NextOne(one, id, TickOp(now), timeout), one.held.value.stages[0];
      && (Leaves(one, id, now, timeout) <==>
            now >= one.held.value.deadline || forall i | 0 <= i < |stage.pending| ::
              HasCast(stage.pending, calls, stage.pending[i]))
      && (!Leaves(one, id, now, timeout) ==> next == one)
      && (Leaves(one, id, now, timeout) ==>
            && (next.life.end == Suppressed <==> SaysSuppress(stage.pending, calls))
            && (next.life.end == Completed <==> !SaysSuppress(stage.pending, calls) && |one.held.value.stages| == 1))
  {
    var stage := one.held.value.stages[0];
    FirstVotesSuppress(stage.pending, calls);
    forall i | 0 <= i < |stage.pending|
      ensures Voted(stage.votes, stage.pending[i]) <==> HasCast(stage.pending, calls, stage.pending[i])
    {
      FirstVotesVoted(stage.pending, calls, stage.pending[i]);
    }
  }
}
