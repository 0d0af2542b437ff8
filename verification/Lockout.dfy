/** The registry of local parts that are locked out: what its calls do to it, and what stands after any run of them. */
module Lockout {
  import opened Wrappers

  datatype Reservation = Reservation(localpart: string, until: int, recordId: string)

  type Registry = map<string, Reservation>

  /** A call; the lookup and the pruning come with the time they are made at. */
  datatype Op =
    | ReserveOp(reservation: Reservation)
    | LookupOp(localpart: string, now: int)
    | ReleaseOp(localpart: string)
    | PruneOp(now: int)

  /** `reserve`: `lower` is String.toLowerCase.  It has no clock, and an entry that has run out refuses all the same. */
  function Reserve(reg: Registry, lower: string -> string, r: Reservation): Result<Registry> {
    if r.localpart == "" then Err("empty localpart")
    else if lower(r.localpart) in reg then Err("already locked out")
    else Ok(reg[lower(r.localpart) := r])
  }

  predicate RunOut(r: Reservation, now: int) {
    r.until <= now
  }

  /** `isLockedOut`: the answer. */
  function Lookup(reg: Registry, lower: string -> string, localpart: string, now: int): Option<Reservation> {
    var key := lower(localpart);
    if key in reg && !RunOut(reg[key], now) then Some(reg[key]) else None
  }

  /** The registry after a call; a lookup drops the entry it finds run out. */
  function Next(reg: Registry, lower: string -> string, op: Op): Registry {
    match op
    case ReserveOp(r) => (match Reserve(reg, lower, r) case Ok(after) => after case Err(_) => reg)
    case LookupOp(localpart, now) => if Lookup(reg, lower, localpart, now).Some? then reg else reg - {lower(localpart)}
    case ReleaseOp(localpart) => reg - {lower(localpart)}
    case PruneOp(now) => map key | key in reg && !RunOut(reg[key], now) :: reg[key]
  }

  function Run(reg: Registry, lower: string -> string, ops: seq<Op>): Registry {
    if ops == [] then reg else Next(Run(reg, lower, ops[..|ops| - 1]), lower, ops[|ops| - 1])
  }

  /** The calls that take the entry `r` away: a release, and a lookup or a pruning at a time it has run out. */
  predicate Clears(lower: string -> string, r: Reservation, op: Op) {
    match op
    case ReserveOp(_) => false
    case LookupOp(localpart, now) => lower(localpart) == lower(r.localpart) && r.until <= now
    case ReleaseOp(localpart) => lower(localpart) == lower(r.localpart)
    case PruneOp(now) => r.until <= now
  }

  predicate Cleared(lower: string -> string, r: Reservation, ops: seq<Op>) {
    exists op | op in ops :: Clears(lower, r, op)
  }

  predicate Holds(reg: Registry, lower: string -> string, r: Reservation) {
    lower(r.localpart) in reg && reg[lower(r.localpart)] == r
  }

  /** Every entry stands under the lower-case form of its own local part, which is not empty. */
  predicate Keyed(reg: Registry, lower: string -> string) {
    forall key | key in reg :: key == lower(reg[key].localpart) && reg[key].localpart != ""
  }

  lemma {:induction false} RunKeyed(reg: Registry, lower: string -> string, ops: seq<Op>)
    requires Keyed(reg, lower)
    ensures Keyed(Run(reg, lower, ops), lower)
  {
    if ops != [] {
      RunKeyed(reg, lower, ops[..|ops| - 1]);
    }
  }

  /** One call: what stands afterwards stood before and was not cleared, or is the reservation just made. */
  lemma NextHolds(reg: Registry, lower: string -> string, op: Op, r: Reservation)
    ensures Holds(Next(reg, lower, op), lower, r) <==>
      (Holds(reg, lower, r) && !Clears(lower, r, op)) ||
      (op == ReserveOp(r) && r.localpart != "" && lower(r.localpart) !in reg)
  {}

  /** Call `i` made this reservation, and no later call cleared it. */
  predicate MadeAt(lower: string -> string, ops: seq<Op>, r: Reservation, i: int)
    requires 0 <= i < |ops|
  {
    ops[i] == ReserveOp(r) && !Cleared(lower, r, ops[i + 1..])
  }

  predicate FreeAt(reg: Registry, lower: string -> string, ops: seq<Op>, r: Reservation, i: int)
    requires 0 <= i < |ops|
  {
    r.localpart != "" && lower(r.localpart) !in Run(reg, lower, ops[..i])
  }

  lemma ClearedLast(lower: string -> string, ops: seq<Op>, r: Reservation)
    requires ops != []
    ensures var n := |ops| - 1;
      Cleared(lower, r, ops) <==> Cleared(lower, r, ops[..n]) || Clears(lower, r, ops[n])
  {
    var n := |ops| - 1;
    assert ops == ops[..n] + [ops[n]];
  }

  /**
   * What stands after any run of calls: exactly an entry that stood at the start and that no call cleared, or one that
   * some call made where the local part was free and that no later call cleared.
   */
  lemma {:induction false} StandsIff(reg: Registry, lower: string -> string, ops: seq<Op>, r: Reservation)
    ensures Holds(Run(reg, lower, ops), lower, r) <==>
      (Holds(reg, lower, r) && !Cleared(lower, r, ops)) ||
      (exists i | 0 <= i < |ops| :: FreeAt(reg, lower, ops, r, i) && MadeAt(lower, ops, r, i))
  {
    if ops != [] {
      var n := |ops| - 1;
      StandsIff(reg, lower, ops[..n], r);
      NextHolds(Run(reg, lower, ops[..n]), lower, ops[n], r);
      ClearedLast(lower, ops, r);
      MadeLast(reg, lower, ops, r);
    }
  }

  lemma MadeLast(reg: Registry, lower: string -> string, ops: seq<Op>, r: Reservation)
    requires ops != []
    ensures var n := |ops| - 1;
      (exists i | 0 <= i < |ops| :: FreeAt(reg, lower, ops, r, i) && MadeAt(lower, ops, r, i)) <==>
      ((exists i | 0 <= i < n :: FreeAt(reg, lower, ops[..n], r, i) && MadeAt(lower, ops[..n], r, i)) &&
       !Clears(lower, r, ops[n])) ||
      (ops[n] == ReserveOp(r) && r.localpart != "" && lower(r.localpart) !in Run(reg, lower, ops[..n]))
  {
    var n := |ops| - 1;
    forall i | 0 <= i < n
      ensures FreeAt(reg, lower, ops, r, i) <==> FreeAt(reg, lower, ops[..n], r, i)
      ensures MadeAt(lower, ops, r, i) <==> MadeAt(lower, ops[..n], r, i) && !Clears(lower, r, ops[n])
    {
      assert ops[..n][..i] == ops[..i];
      assert ops[i + 1..][..n - i - 1] == ops[..n][i + 1..];
      ClearedLast(lower, ops[i + 1..], r);
    }
    assert MadeAt(lower, ops, r, n) <==> ops[n] == ReserveOp(r);
  }

  /** The call reserves, or tries to reserve, this local part. */
  predicate Reserves(lower: string -> string, localpart: string, op: Op) {
    op.ReserveOp? && lower(op.reservation.localpart) == lower(localpart)
  }

  predicate Reserved(lower: string -> string, localpart: string, ops: seq<Op>) {
    exists op | op in ops :: Reserves(lower, localpart, op)
  }

  /** While nobody else reserves it, a local part is free again exactly when some call cleared its entry. */
  lemma {:induction false} FreeIff(reg: Registry, lower: string -> string, ops: seq<Op>, r: Reservation)
    requires Holds(reg, lower, r) && !Reserved(lower, r.localpart, ops)
    ensures lower(r.localpart) in Run(reg, lower, ops) <==> !Cleared(lower, r, ops)
    ensures lower(r.localpart) in Run(reg, lower, ops) ==> Holds(Run(reg, lower, ops), lower, r)
  {
    if ops != [] {
      var n := |ops| - 1;
      assert ops[n] in ops && forall op | op in ops[..n] :: op in ops;
      FreeIff(reg, lower, ops[..n], r);
      ClearedLast(lower, ops, r);
    }
  }

  /** A local part can be reserved right after a lookup exactly when that lookup says it is not locked out. */
  lemma LookupThenReserve(reg: Registry, lower: string -> string, now: int, r: Reservation)
    requires r.localpart != ""
    ensures Reserve(Next(reg, lower, LookupOp(r.localpart, now)), lower, r).Ok? <==>
      Lookup(reg, lower, r.localpart, now).None?
  {}
}
