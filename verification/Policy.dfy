/** A user's policy state: signed messages applied whole or not at all, and never twice. */
module Policy {
  import opened Wrappers
  import opened Json

  datatype Operation = Operation(op: string, kind: string, entryId: Option<string>, entry: Option<Json>)

  datatype Message = Message(typ: string, step: string, userId: string, deviceId: string, version: int,
                             timestamp: string, operations: seq<Operation>, signature: string)

  /** Why a message was refused; an operation is named by its index. */
  datatype Refusal = Structural | OpInvalid(index: nat) | WrongUser | Stale | KindUnsupported(index: nat)

  type Bucket = map<string, Option<Json>>

  datatype State = State(userId: string, kinds: set<string>, version: int, lastTimestamp: string,
                         lists: map<string, Bucket>, singletons: map<string, Option<Json>>)

  type Parse = string -> Option<int>

  const FIRST_CONTACT := "semp.dev/first_contact"

  function DefaultKinds(): set<string> {
    {"semp.dev/block", "semp.dev/accepted_sender", FIRST_CONTACT}
  }

  function NewState(userId: string, kinds: set<string>): State {
    State(userId, kinds, 0, "", map[], map[])
  }

  // ---------------------------------------------------------------- validation

  predicate Missing(entry: Option<Json>) {
    entry.None? || entry.value == JNull
  }

  predicate NoId(id: Option<string>) {
    id.None? || id.value == ""
  }

  predicate ValidOp(op: Operation) {
    && (op.op == "add" || op.op == "remove" || op.op == "modify") && op.kind != ""
    && (op.kind == FIRST_CONTACT ==> op.op == "modify" && NoId(op.entryId) && !Missing(op.entry))
    && (op.op == "remove" ==> !NoId(op.entryId)) && (op.op == "add" ==> !Missing(op.entry))
  }

  predicate ValidHead(parse: Parse, m: Message) {
    && m.typ == "SEMP_USER_POLICY" && m.step == "update" && m.userId != "" && m.deviceId != "" && m.version >= 1
    && m.timestamp != "" && parse(m.timestamp).Some? && m.operations != []
  }

  /** The first index at which the test fails. */
  function FirstBad(ops: seq<Operation>, ok: Operation -> bool): (i: Option<nat>)
    ensures i.Some? ==> i.value < |ops| && !ok(ops[i.value]) && forall j | 0 <= j < i.value :: ok(ops[j])
    ensures i.None? ==> forall j | 0 <= j < |ops| :: ok(ops[j])
  {
    if ops == [] then None
    else if !ok(ops[0]) then Some(0)
    else
      var r := FirstBad(ops[1..], ok);
      if r.None? then None else Some(r.value + 1)
  }

  function Time(parse: Parse, timestamp: string): int {
    if parse(timestamp).Some? then parse(timestamp).value else 0
  }

  /** Later in (version, time) than the last message applied; before any message, every time is later. */
  predicate Newer(parse: Parse, s: State, m: Message) {
    m.version > s.version
    || (m.version == s.version && (s.lastTimestamp == "" || Time(parse, m.timestamp) > Time(parse, s.lastTimestamp)))
  }

  /** Why the message is refused, if it is. */
  function Check(parse: Parse, s: State, m: Message): Option<Refusal> {
    if !ValidHead(parse, m) then Some(Structural)
    else
      var bad := FirstBad(m.operations, ValidOp);
      if bad.Some? then Some(OpInvalid(bad.value))
      else if m.signature == "" then Some(Structural)
      else if m.userId != s.userId then Some(WrongUser)
      else if !Newer(parse, s, m) then Some(Stale)
      else
        var unsupported := FirstBad(m.operations, (op: Operation) => op.kind in s.kinds);
        if unsupported.Some? then Some(KindUnsupported(unsupported.value)) else None
  }

  // ---------------------------------------------------------------- applying

  function EntryIdFor(op: Operation): string {
    if !NoId(op.entryId) then op.entryId.value
    else if op.entry.Some? && Get(op.entry.value, "id").Some? && Get(op.entry.value, "id").value.JStr?
    then Get(op.entry.value, "id").value.s else ""
  }

  function BucketOf(s: State, kind: string): Bucket {
    if kind in s.lists then s.lists[kind] else map[]
  }

  function ApplyOp(s: State, op: Operation): State {
    if op.kind == FIRST_CONTACT then s.(singletons := s.singletons[op.kind := op.entry])
    else
      var bucket := BucketOf(s, op.kind);
      var changed := if op.op == "add" || op.op == "modify" then
                       if EntryIdFor(op) == "" then bucket else bucket[EntryIdFor(op) := op.entry]
                     else if op.op == "remove" && !NoId(op.entryId) then bucket - {op.entryId.value} else bucket;
      s.(lists := s.lists[op.kind := changed])
  }

  function ApplyOps(s: State, ops: seq<Operation>): State {
    if ops == [] then s else ApplyOp(ApplyOps(s, ops[..|ops| - 1]), ops[|ops| - 1])
  }

  function Applied(parse: Parse, s: State, m: Message): State {
    if Check(parse, s, m).Some? then s
    else ApplyOps(s, m.operations).(version := m.version, lastTimestamp := m.timestamp)
  }

  class PolicyState {
    const parse: Parse
    var userId: string
    var kinds: set<string>
    var version: int
    var lastTimestamp: string
    var lists: map<string, Bucket>
    var singletons: map<string, Option<Json>>

    function View(): State
      reads this
    {
      State(userId, kinds, version, lastTimestamp, lists, singletons)
    }

    constructor (parse: Parse, userId: string, kinds: set<string>)
      requires userId != "" && "" !in kinds
      ensures this.parse == parse && View() == NewState(userId, if kinds == {} then DefaultKinds() else kinds)
    {
      this.parse, this.userId := parse, userId;
      this.kinds := if kinds == {} then DefaultKinds() else kinds;
      version, lastTimestamp, lists, singletons := 0, "", map[], map[];
    }

    /** Everything is checked before anything is changed. */
    method Apply(m: Message) returns (refused: Option<Refusal>)
      modifies this
      ensures refused == Check(parse, old(View()), m) && View() == Applied(parse, old(View()), m)
    {
      refused := Check(parse, View(), m);
      if refused.Some? {
        return;
      }
      ghost var before := View();
      for i := 0 to |m.operations|
        invariant View() == ApplyOps(before, m.operations[..i])
      {
        assert m.operations[..i + 1][..i] == m.operations[..i];
        ApplyOperation(m.operations[i]);
      }
      assert m.operations[..|m.operations|] == m.operations;
      version := m.version;
      lastTimestamp := m.timestamp;
    }

    method ApplyOperation(op: Operation)
      modifies this
      ensures View() == ApplyOp(old(View()), op)
    {
      if op.kind == FIRST_CONTACT {
        singletons := singletons[op.kind := op.entry];
        return;
      }
      var bucket: Bucket := map[];
      if op.kind in lists {
        bucket := lists[op.kind];
      }
      if op.op == "add" || op.op == "modify" {
        var id := EntryIdFor(op);
        if id != "" {
          bucket := bucket[id := op.entry];
        }
      } else if op.op == "remove" {
        if !NoId(op.entryId) {
          bucket := bucket - {op.entryId.value};
        }
      }
      lists := lists[op.kind := bucket];
    }
  }

  // ---------------------------------------------------------------- runs

  /** The state after a run of messages, and those that were accepted. */
  datatype Run = Run(state: State, accepted: seq<Message>)

  function NextRun(parse: Parse, r: Run, m: Message): Run {
    Run(Applied(parse, r.state, m), if Check(parse, r.state, m).Some? then r.accepted else r.accepted + [m])
  }

  function RunAll(parse: Parse, s: State, ms: seq<Message>): Run {
    if ms == [] then Run(s, []) else NextRun(parse, RunAll(parse, s, ms[..|ms| - 1]), ms[|ms| - 1])
  }

  /** Strictly later, by version and then by time. */
  predicate Later(parse: Parse, m: Message, n: Message) {
    m.version < n.version || (m.version == n.version && Time(parse, m.timestamp) < Time(parse, n.timestamp))
  }

  function AllOps(ms: seq<Message>): seq<Operation> {
    if ms == [] then [] else AllOps(ms[..|ms| - 1]) + ms[|ms| - 1].operations
  }

  lemma {:induction false} ApplyOpsConcat(s: State, a: seq<Operation>, b: seq<Operation>)
    ensures ApplyOps(s, a + b) == ApplyOps(ApplyOps(s, a), b)
    decreases |b|
  {
    if b == [] {
      assert a + b == a;
    } else {
      ApplyOpsConcat(s, a, b[..|b| - 1]);
      assert (a + b)[..|a + b| - 1] == a + b[..|b| - 1];
    }
  }

  /** Operations do not depend on version and time, and leave them alone. */
  lemma {:induction false} ApplyOpsFrame(s: State, ops: seq<Operation>, version: int, timestamp: string)
    ensures ApplyOps(s.(version := version, lastTimestamp := timestamp), ops)
      == ApplyOps(s, ops).(version := version, lastTimestamp := timestamp)
    ensures ApplyOps(s, ops).userId == s.userId && ApplyOps(s, ops).kinds == s.kinds
  {
    if ops != [] {
      ApplyOpsFrame(s, ops[..|ops| - 1], version, timestamp);
    }
  }

  ghost predicate RunOk(parse: Parse, s: State, r: Run) {
    && r.state.userId == s.userId && r.state.kinds == s.kinds
    && (forall i, j | 0 <= i < j < |r.accepted| :: Later(parse, r.accepted[i], r.accepted[j]))
    && (forall i | 0 <= i < |r.accepted| :: r.accepted[i].timestamp != "")
    && (if r.accepted == [] then r.state == s
        else
          var last := r.accepted[|r.accepted| - 1];
          r.state == ApplyOps(s, AllOps(r.accepted)).(version := last.version, lastTimestamp := last.timestamp))
  }

  lemma NextRunOk(parse: Parse, s: State, r: Run, m: Message)
    requires RunOk(parse, s, r) && s.version == 0 && s.lastTimestamp == ""
    ensures RunOk(parse, s, NextRun(parse, r, m))
  {
    if Check(parse, r.state, m).None? {
      ApplyOpsFrame(r.state, m.operations, 0, "");
      ApplyOpsConcat(s, AllOps(r.accepted), m.operations);
      var next := r.accepted + [m];
      assert next[..|next| - 1] == r.accepted;
      if r.accepted != [] {
        var last := r.accepted[|r.accepted| - 1];
        ApplyOpsFrame(ApplyOps(s, AllOps(r.accepted)), m.operations, last.version, last.timestamp);
        forall i | 0 <= i < |r.accepted| ensures Later(parse, r.accepted[i], m) {
          assert Later(parse, last, m);
          assert i < |r.accepted| - 1 ==> Later(parse, r.accepted[i], last);
        }
      } else {
        assert AllOps([]) + m.operations == m.operations;
      }
    }
  }

  /**
   * Over every run: the accepted messages strictly increase in (version, time), and the state is the fold of their
   * operations in order, at the last one's version and time.
   */
  lemma {:induction false} RunsOk(parse: Parse, s: State, ms: seq<Message>)
    requires s.version == 0 && s.lastTimestamp == ""
    ensures RunOk(parse, s, RunAll(parse, s, ms))
  {
    if ms != [] {
      RunsOk(parse, s, ms[..|ms| - 1]);
      NextRunOk(parse, s, RunAll(parse, s, ms[..|ms| - 1]), ms[|ms| - 1]);
    }
  }

  // ---------------------------------------------------------------- which messages are accepted

  /** An operation as the protocol wants it: what must come with it, and what must not. */
  predicate ProperOp(op: Operation) {
    var named := op.entryId.Some? && op.entryId.value != "";
    var given := op.entry.Some? && op.entry.value != JNull;
    && op.kind != ""
    && (op.op == "modify" || (op.op == "add" && given) || (op.op == "remove" && named))
    && (op.kind == "semp.dev/first_contact" ==> op.op == "modify" && !named && given)
  }

  /** A message in order, with a signature, for this user and of kinds that the state keeps. */
  predicate Proper(parse: Parse, s: State, m: Message) {
    && m.typ == "SEMP_USER_POLICY" && m.step == "update" && m.userId == s.userId && m.userId != "" && m.deviceId != ""
    && m.version > 0 && m.timestamp != "" && parse(m.timestamp).Some? && m.signature != "" && m.operations != []
    && forall i | 0 <= i < |m.operations| :: ProperOp(m.operations[i]) && m.operations[i].kind in s.kinds
  }

  lemma ProperOps(ops: seq<Operation>)
    ensures FirstBad(ops, ValidOp).None? <==> forall i | 0 <= i < |ops| :: ProperOp(ops[i])
  {
    forall i | 0 <= i < |ops| ensures ValidOp(ops[i]) <==> ProperOp(ops[i]) {}
  }

  /**
   * In every run a message is accepted exactly when it is in order and later, by version and then by time, than the
   * last one that was accepted.
   */
  lemma AcceptedIff(parse: Parse, s: State, ms: seq<Message>, m: Message)
    requires s.version == 0 && s.lastTimestamp == ""
    ensures var accepted := RunAll(parse, s, ms).accepted;
      Check(parse, RunAll(parse, s, ms).state, m).None? <==>
        Proper(parse, s, m) && (accepted != [] ==> Later(parse, accepted[|accepted| - 1], m))
  {
    RunsOk(parse, s, ms);
    CheckedIff(parse, s, RunAll(parse, s, ms).state, m);
    if m.version > 0 {
      LatestOf(parse, s, RunAll(parse, s, ms), m);
    }
  }

  lemma CheckedIff(parse: Parse, s: State, t: State, m: Message)
    requires t.userId == s.userId && t.kinds == s.kinds
    ensures Check(parse, t, m).None? <==> Proper(parse, s, m) && Newer(parse, t, m)
  {
    ProperOps(m.operations);
  }

  /** The state's version and time are those of the last message accepted. */
  lemma LatestOf(parse: Parse, s: State, r: Run, m: Message)
    requires RunOk(parse, s, r) && s.version == 0 && s.lastTimestamp == "" && m.version > 0
    ensures Newer(parse, r.state, m) <==> (r.accepted != [] ==> Later(parse, r.accepted[|r.accepted| - 1], m))
  {
    if r.accepted != [] {
      var last := r.accepted[|r.accepted| - 1];
      ApplyOpsFrame(s, AllOps(r.accepted), last.version, last.timestamp);
    }
  }

  /** A refused message changes nothing, and a message once accepted is refused for ever after. */
  lemma Replay(parse: Parse, s: State, ms: seq<Message>, m: Message)
    requires s.version == 0 && s.lastTimestamp == ""
    ensures var r := RunAll(parse, s, ms);
      && (Check(parse, r.state, m).Some? ==> Applied(parse, r.state, m) == r.state)
      && (m in r.accepted ==> Check(parse, r.state, m).Some?)
  {
    RunsOk(parse, s, ms);
    var r := RunAll(parse, s, ms);
    if m in r.accepted {
      var i :| 0 <= i < |r.accepted| && r.accepted[i] == m;
      var last := r.accepted[|r.accepted| - 1];
      ApplyOpsFrame(s, AllOps(r.accepted), last.version, last.timestamp);
      assert i < |r.accepted| - 1 ==> Later(parse, m, last);
      assert !Newer(parse, r.state, m);
    }
  }

  // ---------------------------------------------------------------- what the fold holds

  /** The list entry an operation writes or removes. */
  function Target(op: Operation): Option<(string, string)> {
    if op.kind == FIRST_CONTACT then None
    else if op.op == "add" || op.op == "modify" then
      if EntryIdFor(op) == "" then None else Some((op.kind, EntryIdFor(op)))
    else if op.op == "remove" && !NoId(op.entryId) then Some((op.kind, op.entryId.value)) else None
  }

  function Lookup(s: State, kind: string, id: string): Option<Option<Json>> {
    var b := BucketOf(s, kind);
    if id in b then Some(b[id]) else None
  }

  lemma OneWrite(s: State, op: Operation, kind: string, id: string)
    ensures Lookup(ApplyOp(s, op), kind, id) ==
      if Target(op) != Some((kind, id)) then Lookup(s, kind, id) else if op.op == "remove" then None else Some(op.entry)
  {}

  lemma {:induction false} NoWriteKeeps(s: State, ops: seq<Operation>, kind: string, id: string)
    requires forall i | 0 <= i < |ops| :: Target(ops[i]) != Some((kind, id))
    ensures Lookup(ApplyOps(s, ops), kind, id) == Lookup(s, kind, id)
  {
    if ops != [] {
      var front := ops[..|ops| - 1];
      NoWriteKeeps(s, front, kind, id);
      OneWrite(ApplyOps(s, front), ops[|ops| - 1], kind, id);
    }
  }

  /** An entry is what the last operation on it made of it. */
  lemma {:induction false} LastWriteHolds(s: State, ops: seq<Operation>, i: nat, kind: string, id: string)
    requires LastOn(ops, i, kind, id)
    ensures Lookup(ApplyOps(s, ops), kind, id) == if ops[i].op == "remove" then None else Some(ops[i].entry)
    decreases |ops|
  {
    var front, last := ops[..|ops| - 1], ops[|ops| - 1];
    OneWrite(ApplyOps(s, front), last, kind, id);
    if i < |front| {
      LastWriteHolds(s, front, i, kind, id);
    }
  }

  ghost predicate LastOn(ops: seq<Operation>, i: nat, kind: string, id: string) {
    i < |ops| && Target(ops[i]) == Some((kind, id)) && forall j | i < j < |ops| :: Target(ops[j]) != Some((kind, id))
  }
}
