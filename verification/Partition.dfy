/** Which of an account's devices receive an envelope, and at which stage. */
module Partition {
  import opened Wrappers
  import opened Staged
  import opened StagedRuns
  import Json

  /** `fullAccess` is false for a delegated device. */
  datatype Device = Device(id: string, key: string, fullAccess: bool)

  /** The receive scope of a certificate; `allowsSender` is what its matcher says of this sender. */
  datatype Receive = Receive(mode: string, deliveryStage: Option<int>, allowsSender: bool)

  datatype Input = Input(devices: seq<Device>, certificate: string -> Option<Receive>, recipients: set<string>)

  datatype Placed = Placed(id: string, stage: int)

  // ---------------------------------------------------------------- what the partition is to be

  function Declared(r: Receive): int {
    if r.deliveryStage.Some? then r.deliveryStage.value else 0
  }

  /** A delegate whose mode is not none: it counts for the full-access stage, eligible or not. */
  predicate Tallied(x: Input, d: Device) {
    !d.fullAccess && x.certificate(d.id).Some? && x.certificate(d.id).value.mode != "none"
  }

  predicate Eligible(x: Input, d: Device) {
    d.key in x.recipients && (d.fullAccess || (Tallied(x, d) && x.certificate(d.id).value.allowsSender))
  }

  /** The highest declared stage of the tallied delegates, at least 0. */
  function MaxDeclared(x: Input, devices: seq<Device>): (m: int)
    ensures m >= 0
  {
    if devices == [] then 0
    else
      var m, last := MaxDeclared(x, devices[..|devices| - 1]), devices[|devices| - 1];
      if Tallied(x, last) && Declared(x.certificate(last.id).value) > m then Declared(x.certificate(last.id).value)
      else m
  }

  function FullAccessStage(x: Input): int {
    if MaxDeclared(x, x.devices) > 0 then MaxDeclared(x, x.devices) + 1 else 1
  }

  function StageOf(x: Input, d: Device): int
    requires Eligible(x, d)
  {
    if d.fullAccess then FullAccessStage(x)
    else if Declared(x.certificate(d.id).value) < 1 then 1 else Declared(x.certificate(d.id).value)
  }

  /** The eligible delegates in directory order. */
  function Delegates(x: Input, devices: seq<Device>): seq<Placed> {
    if devices == [] then []
    else
      var last := devices[|devices| - 1];
      Delegates(x, devices[..|devices| - 1]) +
        if !last.fullAccess && Eligible(x, last) then [Placed(last.id, StageOf(x, last))] else []
  }

  function FullAccess(x: Input, devices: seq<Device>): seq<string> {
    if devices == [] then []
    else
      var last := devices[|devices| - 1];
      FullAccess(x, devices[..|devices| - 1]) + if last.fullAccess && Eligible(x, last) then [last.id] else []
  }

  function PlaceAll(ids: seq<string>, stage: int): seq<Placed> {
    if ids == [] then [] else PlaceAll(ids[..|ids| - 1], stage) + [Placed(ids[|ids| - 1], stage)]
  }

  /** All placements: the delegates, then the full-access devices. */
  function Placements(x: Input): seq<Placed> {
    Delegates(x, x.devices) + PlaceAll(FullAccess(x, x.devices), FullAccessStage(x))
  }

  /** The devices placed at a stage. */
  function At(placed: seq<Placed>, stage: int): seq<string> {
    if placed == [] then []
    else
      var last := placed[|placed| - 1];
      At(placed[..|placed| - 1], stage) + if last.stage == stage then [last.id] else []
  }

  /** Stages in increasing order, none empty, each with the sorted ids placed there, and every placement in one. */
  ghost predicate Groups(out: seq<Stage>, placed: seq<Placed>) {
    && Increasing(out)
    && (forall i | 0 <= i < |out| ::
          out[i].pending != [] && out[i].votes == [] && out[i].pending == Json.SortKeys(At(placed, out[i].stage)))
    && (forall k | 0 <= k < |placed| :: NumberIn(out, placed[k].stage))
  }

  // ---------------------------------------------------------------- computing it

  method PartitionStages(x: Input) returns (out: seq<Stage>)
    ensures Groups(out, Placements(x))
  {
    var eligible: seq<Placed> := [];
    var fullAccessIds: seq<string> := [];
    var maxDelegateMode := 0;
    for i := 0 to |x.devices|
      invariant eligible == Delegates(x, x.devices[..i])
      invariant fullAccessIds == FullAccess(x, x.devices[..i])
      invariant maxDelegateMode == MaxDeclared(x, x.devices[..i])
    {
      var dev := x.devices[i];
      assert x.devices[..i + 1][..i] == x.devices[..i];
      var wanted := dev.key in x.recipients;
      if dev.fullAccess {
        if wanted {
          fullAccessIds := fullAccessIds + [dev.id];
        }
        continue;
      }
      var cert := x.certificate(dev.id);
      if cert.None? {
        continue;
      }
      if cert.value.mode != "none" && Declared(cert.value) > maxDelegateMode {
        maxDelegateMode := Declared(cert.value);
      }
      if !wanted || cert.value.mode == "none" || !cert.value.allowsSender {
        continue;
      }
      var stage := Declared(cert.value);
      if stage < 1 {
        stage := 1;
      }
      eligible := eligible + [Placed(dev.id, stage)];
    }
    assert x.devices[..|x.devices|] == x.devices;
    var fullAccessStage := if maxDelegateMode > 0 then maxDelegateMode + 1 else 1;
    ghost var delegates := eligible;
    for i := 0 to |fullAccessIds|
      invariant eligible == delegates + PlaceAll(fullAccessIds[..i], fullAccessStage)
    {
      assert fullAccessIds[..i + 1][..i] == fullAccessIds[..i];
      eligible := eligible + [Placed(fullAccessIds[i], fullAccessStage)];
    }
    assert fullAccessIds[..|fullAccessIds|] == fullAccessIds;
    out := GroupByStage(eligible);
  }

  /** A map from stage number to ids, with its keys in order of insertion. */
  datatype Grouping = Grouping(keys: seq<int>, ids: map<int, seq<string>>)

  ghost predicate Collected(g: Grouping, placed: seq<Placed>) {
    && (forall i, j | 0 <= i < j < |g.keys| :: g.keys[i] != g.keys[j])
    && (forall n :: n in g.ids <==> At(placed, n) != [])
    && (forall n | n in g.ids :: g.ids[n] == At(placed, n))
    && (forall n :: n in g.keys <==> n in g.ids)
  }

  /** Collects the ids of each stage, then lists the stages in order. */
  method GroupByStage(eligible: seq<Placed>) returns (out: seq<Stage>)
    ensures Groups(out, eligible)
  {
    var byStage := CollectByStage(eligible);
    var stages := ListStages(byStage, eligible);
    SortStagesSorts(stages);
    SortStagesMembers(stages);
    out := SortStages(stages);
    forall i | 0 <= i < |out|
      ensures out[i].pending != [] && out[i].votes == [] && out[i].pending == Json.SortKeys(At(eligible, out[i].stage))
    {
      assert out[i] in out;
      Json.SortKeysSorts(byStage.ids[out[i].stage]);
    }
    forall k | 0 <= k < |eligible| ensures NumberIn(out, eligible[k].stage) {
      AtHas(eligible, k);
    }
  }

  /** One more placement: a new key at the end, or one more id under an old one. */
  function AddTo(g: Grouping, e: Placed): Grouping {
    if e.stage !in g.ids then Grouping(g.keys + [e.stage], g.ids[e.stage := [e.id]])
    else g.(ids := g.ids[e.stage := g.ids[e.stage] + [e.id]])
  }

  lemma AtAppend(placed: seq<Placed>, e: Placed, n: int)
    ensures At(placed + [e], n) == At(placed, n) + if e.stage == n then [e.id] else []
  {
    assert (placed + [e])[..|placed|] == placed;
  }

  lemma CollectedNext(g: Grouping, placed: seq<Placed>, e: Placed)
    requires Collected(g, placed)
    ensures Collected(AddTo(g, e), placed + [e])
  {
    var h := AddTo(g, e);
    forall n ensures (n in h.ids <==> At(placed + [e], n) != []) && (n in h.ids ==> h.ids[n] == At(placed + [e], n)) {
      AtAppend(placed, e, n);
    }
  }

  method CollectByStage(eligible: seq<Placed>) returns (g: Grouping)
    ensures Collected(g, eligible)
  {
    g := Grouping([], map[]);
    for i := 0 to |eligible|
      invariant Collected(g, eligible[..i])
    {
      assert eligible[..i + 1] == eligible[..i] + [eligible[i]];
      CollectedNext(g, eligible[..i], eligible[i]);
      g := AddTo(g, eligible[i]);
    }
    assert eligible[..|eligible|] == eligible;
  }

  ghost predicate FromGroup(s: Stage, g: Grouping) {
    s.stage in g.ids && s == Stage(s.stage, Json.SortKeys(g.ids[s.stage]), [])
  }

  /** One stage for each key, in order of insertion. */
  method ListStages(g: Grouping, ghost placed: seq<Placed>) returns (stages: seq<Stage>)
    requires Collected(g, placed)
    ensures DistinctStages(stages)
    ensures forall n :: NumberIn(stages, n) <==> n in g.ids
    ensures forall s | s in stages :: FromGroup(s, g)
  {
    stages := [];
    for i := 0 to |g.keys|
      invariant |stages| == i && forall k | 0 <= k < i :: stages[k].stage == g.keys[k] && FromGroup(stages[k], g)
    {
      assert g.keys[i] in g.keys;
      stages := stages + [Stage(g.keys[i], Json.SortKeys(g.ids[g.keys[i]]), [])];
    }
    forall n ensures NumberIn(stages, n) <==> n in g.keys {
      if n in g.keys {
        var k :| 0 <= k < |g.keys| && g.keys[k] == n;
        assert stages[k].stage == n;
      }
    }
  }

  lemma {:induction false} AtHas(placed: seq<Placed>, k: nat)
    requires k < |placed|
    ensures placed[k].id in At(placed, placed[k].stage)
  {
    if k < |placed| - 1 {
      AtHas(placed[..|placed| - 1], k);
    }
  }

  lemma {:induction false} InsertStageMembers(s: Stage, sorted: seq<Stage>)
    ensures forall t :: t in InsertStage(s, sorted) <==> t == s || t in sorted
  {
    if sorted != [] && s.stage > sorted[0].stage {
      InsertStageMembers(s, sorted[1..]);
      FirstRest(sorted);
    }
  }

  lemma {:induction false} SortStagesMembers(stages: seq<Stage>)
    ensures forall t :: t in SortStages(stages) <==> t in stages
  {
    if stages != [] {
      SortStagesMembers(stages[1..]);
      InsertStageMembers(stages[0], SortStages(stages[1..]));
      FirstRest(stages);
    }
  }

  // ---------------------------------------------------------------- what it means

  ghost predicate DistinctIds(devices: seq<Device>) {
    forall i, j | 0 <= i < j < |devices| :: devices[i].id != devices[j].id
  }

  lemma {:induction false} AtMembers(placed: seq<Placed>, stage: int, id: string)
    ensures id in At(placed, stage) <==> Placed(id, stage) in placed
  {
    if placed != [] {
      AtMembers(placed[..|placed| - 1], stage, id);
      assert placed == placed[..|placed| - 1] + [placed[|placed| - 1]];
    }
  }

  lemma {:induction false} PlaceAllMembers(ids: seq<string>, stage: int, p: Placed)
    ensures p in PlaceAll(ids, stage) <==> p.stage == stage && p.id in ids
  {
    if ids != [] {
      PlaceAllMembers(ids[..|ids| - 1], stage, p);
      assert ids == ids[..|ids| - 1] + [ids[|ids| - 1]];
    }
  }

  lemma {:induction false} DelegateMembers(x: Input, devices: seq<Device>, p: Placed)
    ensures p in Delegates(x, devices) <==>
      exists d :: d in devices && !d.fullAccess && Eligible(x, d) && p == Placed(d.id, StageOf(x, d))
  {
    if devices != [] {
      DelegateMembers(x, devices[..|devices| - 1], p);
      assert devices == devices[..|devices| - 1] + [devices[|devices| - 1]];
    }
  }

  lemma {:induction false} FullAccessMembers(x: Input, devices: seq<Device>, id: string)
    ensures id in FullAccess(x, devices) <==> exists d :: d in devices && d.fullAccess && Eligible(x, d) && id == d.id
  {
    if devices != [] {
      FullAccessMembers(x, devices[..|devices| - 1], id);
      assert devices == devices[..|devices| - 1] + [devices[|devices| - 1]];
    }
  }

  /** Placed are exactly the eligible devices, each at its own stage. */
  lemma PlacementsAre(x: Input, p: Placed)
    ensures p in Placements(x) <==> exists d :: d in x.devices && Eligible(x, d) && p == Placed(d.id, StageOf(x, d))
  {
    DelegateMembers(x, x.devices, p);
    PlaceAllMembers(FullAccess(x, x.devices), FullAccessStage(x), p);
    FullAccessMembers(x, x.devices, p.id);
  }

  lemma {:induction false} AtDistinct(placed: seq<Placed>, stage: int)
    requires forall i, j | 0 <= i < j < |placed| :: placed[i].id != placed[j].id
    ensures Json.Distinct(At(placed, stage))
  {
    if placed != [] {
      var front, last := placed[..|placed| - 1], placed[|placed| - 1];
      assert forall k | 0 <= k < |front| :: front[k] == placed[k];
      AtDistinct(front, stage);
      AtMembers(front, stage, last.id);
    }
  }

  lemma {:induction false} PlacementsDistinct(x: Input)
    requires DistinctIds(x.devices)
    ensures forall i, j | 0 <= i < j < |Placements(x)| :: Placements(x)[i].id != Placements(x)[j].id
  {
    DelegatesDistinct(x, x.devices);
    FullAccessDistinct(x, x.devices);
    var ds, fs := Delegates(x, x.devices), FullAccess(x, x.devices);
    PlaceAllIds(fs, FullAccessStage(x));
    var ps := PlaceAll(fs, FullAccessStage(x));
    forall i, j | 0 <= i < |ds| && 0 <= j < |ps| ensures ds[i].id != ps[j].id {
      DelegateMembers(x, x.devices, ds[i]);
      FullAccessMembers(x, x.devices, ps[j].id);
      assert ps[j].id in fs;
    }
  }

  lemma {:induction false} PlaceAllIds(ids: seq<string>, stage: int)
    ensures |PlaceAll(ids, stage)| == |ids| && forall i | 0 <= i < |ids| :: PlaceAll(ids, stage)[i].id == ids[i]
  {
    if ids != [] {
      PlaceAllIds(ids[..|ids| - 1], stage);
    }
  }

  lemma {:induction false} DelegatesDistinct(x: Input, devices: seq<Device>)
    requires DistinctIds(devices)
    ensures forall i, j | 0 <= i < j < |Delegates(x, devices)| ::
      Delegates(x, devices)[i].id != Delegates(x, devices)[j].id
  {
    if devices != [] {
      var front := devices[..|devices| - 1];
      assert forall k | 0 <= k < |front| :: front[k] == devices[k];
      DelegatesDistinct(x, front);
      forall i | 0 <= i < |Delegates(x, front)| ensures Delegates(x, front)[i].id != devices[|devices| - 1].id {
        DelegateMembers(x, front, Delegates(x, front)[i]);
      }
    }
  }

  lemma {:induction false} FullAccessDistinct(x: Input, devices: seq<Device>)
    requires DistinctIds(devices)
    ensures Json.Distinct(FullAccess(x, devices))
  {
    if devices != [] {
      var front := devices[..|devices| - 1];
      assert forall k | 0 <= k < |front| :: front[k] == devices[k];
      FullAccessDistinct(x, front);
      forall i | 0 <= i < |FullAccess(x, front)| ensures FullAccess(x, front)[i] != devices[|devices| - 1].id {
        FullAccessMembers(x, front, FullAccess(x, front)[i]);
      }
    }
  }

  /** An eligible device is waited for at its stage and nowhere else; an id is waited for only if it is eligible. */
  lemma InOneStage(x: Input, out: seq<Stage>, i: nat, id: string)
    requires DistinctIds(x.devices) && Groups(out, Placements(x)) && i < |out|
    ensures id in out[i].pending <==>
      exists d :: d in x.devices && d.id == id && Eligible(x, d) && StageOf(x, d) == out[i].stage
    ensures Json.Distinct(out[i].pending)
  {
    var ids := At(Placements(x), out[i].stage);
    Json.SortKeysSorts(ids);
    AtMembers(Placements(x), out[i].stage, id);
    PlacementsAre(x, Placed(id, out[i].stage));
    PlacementsDistinct(x);
    AtDistinct(Placements(x), out[i].stage);
    Json.SortedDistinct(Json.SortKeys(ids));
  }

  /** Every eligible device has a stage, and only one place in it. */
  lemma PlacedOnce(x: Input, out: seq<Stage>, d: Device)
    requires DistinctIds(x.devices) && Groups(out, Placements(x)) && d in x.devices && Eligible(x, d)
    ensures exists i :: 0 <= i < |out| && out[i].stage == StageOf(x, d) && d.id in out[i].pending
    ensures forall i, j | 0 <= i < |out| && 0 <= j < |out| && d.id in out[i].pending && d.id in out[j].pending :: i == j
  {
    PlacementsAre(x, Placed(d.id, StageOf(x, d)));
    var k :| 0 <= k < |Placements(x)| && Placements(x)[k] == Placed(d.id, StageOf(x, d));
    assert NumberIn(out, Placements(x)[k].stage);
    var i :| 0 <= i < |out| && out[i].stage == StageOf(x, d);
    InOneStage(x, out, i, d.id);
    forall i, j | 0 <= i < |out| && 0 <= j < |out| && d.id in out[i].pending && d.id in out[j].pending ensures i == j {
      InOneStage(x, out, i, d.id);
      InOneStage(x, out, j, d.id);
      assert forall e, f | e in x.devices && f in x.devices && e.id == f.id :: e == f;
    }
  }

  /** The stage number that a delegate's certificate declares: a positive one, or the first stage. */
  predicate WaitsAt(x: Input, d: Device, n: int) {
    x.certificate(d.id).Some? &&
    match x.certificate(d.id).value.deliveryStage
    case None => n == 1
    case Some(declared) => if declared >= 1 then n == declared else n == 1
  }

  /** The stage at which a device is waited for is its own, whichever it is. */
  lemma WaitsInStage(x: Input, out: seq<Stage>, d: Device, i: nat)
    requires DistinctIds(x.devices) && Groups(out, Placements(x)) && d in x.devices && Eligible(x, d)
    requires i < |out| && d.id in out[i].pending
    ensures out[i].stage == StageOf(x, d)
  {
    InOneStage(x, out, i, d.id);
    assert forall e | e in x.devices && e.id == d.id :: e == d;
  }

  /**
   * Two delegates that are served wait at the stages their certificates declare, and so in the order of those stages:
   * earlier exactly when the number is smaller, and together exactly when it is the same.
   */
  lemma DeclaredOrder(x: Input, out: seq<Stage>, d: Device, e: Device, i: nat, j: nat, n: int, m: int)
    requires DistinctIds(x.devices) && Groups(out, Placements(x))
    requires d in x.devices && Eligible(x, d) && !d.fullAccess && e in x.devices && Eligible(x, e) && !e.fullAccess
    requires i < |out| && d.id in out[i].pending && j < |out| && e.id in out[j].pending
    requires WaitsAt(x, d, n) && WaitsAt(x, e, m)
    ensures out[i].stage == n && out[j].stage == m
    ensures (i < j <==> n < m) && (i == j <==> n == m)
  {
    WaitsInStage(x, out, d, i);
    WaitsInStage(x, out, e, j);
  }

  /**
   * Full-access devices that are served wait one stage after the highest that a delegate with a mode declares, or at
   * the first stage when none declares a positive one.
   */
  lemma FullAccessAfterHighest(x: Input, out: seq<Stage>, d: Device, i: nat)
    requires DistinctIds(x.devices) && Groups(out, Placements(x)) && d in x.devices && Eligible(x, d) && d.fullAccess
    requires i < |out| && d.id in out[i].pending
    ensures SomeStageDeclared(x) ==>
      forall e, n | e in x.devices && Tallied(x, e) && WaitsAt(x, e, n) :: n < out[i].stage
    ensures SomeStageDeclared(x) ==>
      exists e :: e in x.devices && Tallied(x, e) && WaitsAt(x, e, out[i].stage - 1)
    ensures !SomeStageDeclared(x) ==> out[i].stage == 1
  {
    WaitsInStage(x, out, d, i);
    MaxDeclaredIs(x, x.devices);
    if SomeStageDeclared(x) {
      var e :| e in x.devices && Tallied(x, e) && Declared(x.certificate(e.id).value) == MaxDeclared(x, x.devices);
      assert WaitsAt(x, e, out[i].stage - 1);
    }
  }

  /** `hold` takes any partition that is not empty, and takes it as it is. */
  lemma HoldAccepts(x: Input, out: seq<Stage>, now: int, timeout: int)
    requires Groups(out, Placements(x)) && out != []
    ensures NewHeld(out, now, timeout) == Ok(Held(out, WholeSecond(now + timeout)))
  {
    CleanedSame(out);
    StepsUpIncreasing(out);
  }

  lemma {:induction false} CleanedSame(stages: seq<Stage>)
    requires forall i | 0 <= i < |stages| :: stages[i].pending != [] && stages[i].votes == []
    ensures Cleaned(stages) == stages
  {
    if stages != [] {
      CleanedSame(stages[1..]);
      FirstRest(stages);
    }
  }

  lemma {:induction false} MaxDeclaredIs(x: Input, devices: seq<Device>)
    ensures forall d | d in devices && Tallied(x, d) :: Declared(x.certificate(d.id).value) <= MaxDeclared(x, devices)
    ensures MaxDeclared(x, devices) > 0 ==>
      exists d :: d in devices && Tallied(x, d) && Declared(x.certificate(d.id).value) == MaxDeclared(x, devices)
  {
    if devices != [] {
      MaxDeclaredIs(x, devices[..|devices| - 1]);
      assert devices == devices[..|devices| - 1] + [devices[|devices| - 1]];
    }
  }

  /** Some delegate whose mode is not none declares a stage of 1 or more. */
  ghost predicate SomeStageDeclared(x: Input) {
    exists d :: d in x.devices && Tallied(x, d) && Declared(x.certificate(d.id).value) >= 1
  }

  /**
   * Full-access devices come strictly after every delegate exactly when a stage is declared, or no delegate is
   * served.
   */
  lemma FullAccessLast(x: Input)
    ensures (forall d | d in x.devices && Eligible(x, d) && !d.fullAccess :: StageOf(x, d) < FullAccessStage(x)) <==>
      SomeStageDeclared(x) || !exists d :: d in x.devices && Eligible(x, d) && !d.fullAccess
  {
    MaxDeclaredIs(x, x.devices);
  }

  /** A delegate served without a stage, and a full-access device. */
  function Undeclared(): Input {
    Input([Device("a", "ka", false), Device("b", "kb", true)], id => Some(Receive("all", None, true)), {"ka", "kb"})
  }

  /** An input that shows it: the full-access device waits beside the delegate, in the same stage. */
  lemma UndeclaredTogether(out: seq<Stage>)
    requires Groups(out, Placements(Undeclared()))
    ensures exists i :: 0 <= i < |out| && "a" in out[i].pending && "b" in out[i].pending
  {
    var x := Undeclared();
    var delegate, full := x.devices[0], x.devices[1];
    MaxDeclaredIs(x, x.devices);
    assert Eligible(x, delegate) && Eligible(x, full) && StageOf(x, delegate) == 1 && StageOf(x, full) == 1;
    PlacementsAre(x, Placed("a", 1));
    var k :| 0 <= k < |Placements(x)| && Placements(x)[k] == Placed("a", 1);
    assert NumberIn(out, Placements(x)[k].stage);
    var i :| 0 <= i < |out| && out[i].stage == 1;
    InOneStage(x, out, i, "a");
    InOneStage(x, out, i, "b");
  }
}
