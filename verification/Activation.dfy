/** The durable activation queue: due work, fenced leases, idempotent settlement.
    Every operation takes the caller's instant; instants may go backwards. */
module Activation {
  import opened Text
  import opened StringOrder

  const U64_MAX := 0xFFFF_FFFF_FFFF_FFFF
  const I64_MAX := 0x7FFF_FFFF_FFFF_FFFF
  const MAX_LEASE_MS := 24 * 60 * 60 * 1000
  const MAX_CLAIM_BATCH := 256

  type u64 = n: nat | n <= U64_MAX
  newtype byte = b: int | 0 <= b < 256

  datatype Lease = Lease(worker: string, token: nat, expires: nat)

  /** One stored work item. */
  datatype Row = Row(
    due: Option<nat>, payload: seq<byte>, attempt: nat, fencing: nat, lease: Option<Lease>,
    settledAt: Option<nat>, settledToken: Option<nat>)

  type Store = map<string, Row>

  datatype Wake = Wake(id: string, due: u64, payload: seq<byte>)

  datatype RequestFields = RequestFields(worker: string, now: nat, leaseMs: nat, limit: nat)

  /** What the validating constructor of a claim request admits. */
  type Request = r: RequestFields |
    1 <= r.leaseMs <= MAX_LEASE_MS && 1 <= r.limit <= MAX_CLAIM_BATCH && r.now + r.leaseMs <= U64_MAX
    witness RequestFields("w", 0, 1, 1)

  datatype Handle = Handle(id: string, worker: string, token: nat)

  datatype Disposition = Complete | Yield(due: u64)

  datatype Grant = Grant(
    id: string, worker: string, token: nat, due: nat, expires: nat, attempt: nat, payload: seq<byte>)

  datatype WakeOutcome = Registered | Rescheduled | Unchanged | WakeHeld
  datatype Claim = Granted(grant: Grant) | Held(worker: string, expires: nat) | NotDue(due: nat) | ItemSettled | Unknown
  datatype Renewal = Renewed(expires: nat) | RenewFenced
  datatype Settlement = Settled | AlreadySettled | ReleaseFenced

  datatype Error = NotStorable | BadLease | ExpiryOverflow | NoDueTime

  /** `as_i64`: SQLite stores signed integers. */
  function Storable(n: nat): (r: Result<nat, Error>)
    ensures r.Ok? <==> n <= I64_MAX
    ensures r.Ok? ==> r.value == n
  {
    if n <= I64_MAX then Ok(n) else Err(NotStorable)
  }

  // ----- One row -----

  function HeldBy(row: Row, now: nat): Option<Lease> {
    if row.lease.Some? && row.lease.value.expires > now then row.lease else None
  }

  predicate Holds(row: Row, h: Handle, now: nat) {
    var held := HeldBy(row, now);
    held.Some? && held.value.worker == h.worker && held.value.token == h.token
  }

  predicate Claimable(row: Row, now: nat) {
    row.due.Some? && row.due.value <= now && (row.lease.Some? ==> row.lease.value.expires <= now)
  }

  /** The row a grant stores and the grant handed out. */
  function GrantRow(id: string, row: Row, req: Request): Result<(Row, Grant), Error> {
    var token, attempt, expires := row.fencing + 1, row.attempt + 1, req.now + req.leaseMs;
    if row.due.None? then Err(NoDueTime) else
      var _ :- Storable(attempt);
      var _ :- Storable(token);
      var _ :- Storable(expires);
      Ok((row.(attempt := attempt, fencing := token, lease := Some(Lease(req.worker, token, expires)), settledAt := None),
          Grant(id, req.worker, token, row.due.value, expires, attempt, row.payload)))
  }

  // ----- Operations, on a stored table -----

  function DoWake(s: Store, w: Wake, now: u64): Result<(Store, WakeOutcome), Error> {
    if w.id !in s then
      var due :- Storable(w.due);
      Ok((s[w.id := Row(Some(due), w.payload, 0, 0, None, None, None)], Registered))
    else
      var row := s[w.id];
      if HeldBy(row, now).Some? then Ok((s, WakeHeld))
      else if row.due == Some(w.due) && row.payload == w.payload then Ok((s, Unchanged))
      else
        var due :- Storable(w.due);
        Ok((s[w.id := row.(due := Some(due), payload := w.payload, settledAt := None)], Rescheduled))
  }

  function DoClaimItem(s: Store, id: string, req: Request): Result<(Store, Claim), Error> {
    if id !in s then Ok((s, Unknown)) else
      var row := s[id];
      var held := HeldBy(row, req.now);
      if held.Some? then Ok((s, Held(held.value.worker, held.value.expires)))
      else if row.due.None? then Ok((s, ItemSettled))
      else if row.due.value > req.now then Ok((s, NotDue(row.due.value)))
      else
        var (next, grant) :- GrantRow(id, row, req);
        Ok((s[id := next], Granted(grant)))
  }

  function DoRenew(s: Store, h: Handle, leaseMs: u64, now: u64): Result<(Store, Renewal), Error> {
    if leaseMs == 0 || leaseMs > MAX_LEASE_MS then Err(BadLease)
    else if now + leaseMs > U64_MAX then Err(ExpiryOverflow)
    else if h.id in s && Holds(s[h.id], h, now) then
      var expires :- Storable(now + leaseMs);
      var row := s[h.id];
      Ok((s[h.id := row.(lease := Some(row.lease.value.(expires := expires)))], Renewed(expires)))
    else Ok((s, RenewFenced))
  }

  function DoRelease(s: Store, h: Handle, d: Disposition, now: u64): Result<(Store, Settlement), Error> {
    if h.id !in s then Ok((s, ReleaseFenced)) else
      var row := s[h.id];
      if row.settledToken == Some(h.token) then Ok((s, AlreadySettled))
      else if !Holds(row, h, now) then Ok((s, ReleaseFenced))
      else
        var _ :- Storable(match d case Complete => now case Yield(due) => due);
        var _ :- Storable(h.token);
        var (due, settledAt) := match d
          case Complete => (None, Some(now))
          case Yield(due) => (Some(due), None);
        Ok((s[h.id := row.(due := due, settledAt := settledAt, settledToken := Some(h.token), lease := None)], Settled))
  }

  predicate Purgeable(row: Row, before: nat) {
    row.settledAt.Some? && row.settledAt.value <= before && row.due.None? && row.lease.None?
  }

  function DoPurge(s: Store, before: u64): Result<(Store, nat), Error> {
    var _ :- Storable(before);
    var gone := set id | id in s && Purgeable(s[id], before);
    Ok((s - gone, |gone|))
  }

  // ----- Claiming what is due -----

  /** The rows a claim sweep selects, before ordering. */
  function ClaimableIds(s: Store, ids: seq<string>, now: nat): (r: seq<string>)
    requires forall i :: 0 <= i < |ids| ==> ids[i] in s
    ensures forall id :: id in r <==> id in ids && Claimable(s[id], now)
    ensures StrictlySorted(ids) ==> StrictlySorted(r)
  {
    if ids == [] then [] else
      assert StrictlySorted(ids) ==> StrictlySorted(ids[1..]);
      assert forall id :: id in ids <==> id == ids[0] || id in ids[1..];
      assert StrictlySorted(ids) ==> forall id :: id in ids[1..] ==> Less(ids[0], id);
      var rest := ClaimableIds(s, ids[1..], now);
      if Claimable(s[ids[0]], now) then [ids[0]] + rest else rest
  }

  /** `ORDER BY due_at_ms, item_id` */
  predicate Earlier(s: Store, a: string, b: string)
    requires a in s && b in s
  {
    && s[a].due.Some? && s[b].due.Some?
    && (s[a].due.value < s[b].due.value || (s[a].due.value == s[b].due.value && Less(a, b)))
  }

  ghost predicate Queued(s: Store, q: seq<string>) {
    && (forall i :: 0 <= i < |q| ==> q[i] in s && s[q[i]].due.Some?)
    && (forall i, j :: 0 <= i < j < |q| ==> Earlier(s, q[i], q[j]))
  }

  /** Puts an id in front of the first one due no earlier. */
  function InsertDue(s: Store, id: string, q: seq<string>): (r: seq<string>)
    requires id in s && s[id].due.Some? && Queued(s, q)
    requires forall k :: k in q ==> Less(id, k)
    ensures Queued(s, r) && |r| == |q| + 1 && forall k :: k in r <==> k == id || k in q
  {
    if q == [] || s[id].due.value <= s[q[0]].due.value then
      var r := [id] + q;
      assert Queued(s, r) by { InsertFront(s, id, q); }
      r
    else
      assert Queued(s, q[1..]);
      var rest := InsertDue(s, id, q[1..]);
      assert Queued(s, [q[0]] + rest) by { InsertBehind(s, id, q, rest); }
      assert q == [q[0]] + q[1..];
      [q[0]] + rest
  }

  lemma InsertFront(s: Store, id: string, q: seq<string>)
    requires id in s && s[id].due.Some? && Queued(s, q)
    requires forall k :: k in q ==> Less(id, k)
    requires q == [] || s[id].due.value <= s[q[0]].due.value
    ensures Queued(s, [id] + q)
  {
    var r := [id] + q;
    forall i, j | 0 <= i < j < |r| ensures Earlier(s, r[i], r[j]) {
      if i > 0 {
        assert Earlier(s, q[i - 1], q[j - 1]);
      } else {
        assert r[j] == q[j - 1] && Less(id, q[j - 1]);
        assert j > 1 ==> Earlier(s, q[0], q[j - 1]);
      }
    }
  }

  lemma InsertBehind(s: Store, id: string, q: seq<string>, rest: seq<string>)
    requires id in s && s[id].due.Some? && Queued(s, q) && q != [] && Queued(s, rest)
    requires s[q[0]].due.value < s[id].due.value
    requires forall k :: k in rest <==> k == id || k in q[1..]
    ensures Queued(s, [q[0]] + rest)
  {
    forall j | 0 <= j < |rest| ensures Earlier(s, q[0], rest[j]) {
      if rest[j] != id {
        assert rest[j] in q[1..];
        var i :| 0 <= i < |q[1..]| && q[1..][i] == rest[j];
        assert Earlier(s, q[0], q[i + 1]);
      }
    }
  }

  function DueOrder(s: Store, ids: seq<string>): (q: seq<string>)
    requires StrictlySorted(ids) && forall i :: 0 <= i < |ids| ==> ids[i] in s && s[ids[i]].due.Some?
    ensures Queued(s, q) && |q| == |ids| && forall k :: k in q <==> k in ids
  {
    if ids == [] then [] else
      assert StrictlySorted(ids[1..]);
      assert ids == [ids[0]] + ids[1..];
      InsertDue(s, ids[0], DueOrder(s, ids[1..]))
  }

  /** Every claimable id, soonest first. */
  function DueQueue(s: Store, now: nat): (q: seq<string>)
    ensures Queued(s, q) && forall id :: id in q <==> id in s && Claimable(s[id], now)
  {
    var keys := SortedKeys(s.Keys);
    assert forall i :: 0 <= i < |keys| ==> keys[i] in keys;
    var ids := ClaimableIds(s, keys, now);
    assert forall i :: 0 <= i < |ids| ==> ids[i] in ids;
    DueOrder(s, ids)
  }

  function Candidates(s: Store, req: Request): (q: seq<string>)
    ensures forall i :: 0 <= i < |q| ==> q[i] in s
  {
    var q := DueQueue(s, req.now);
    assert forall i :: 0 <= i < |q| ==> q[i] in q;
    if |q| <= req.limit then q else q[..req.limit]
  }

  /** Grants the selected rows one after the other; one refusal refuses them all. */
  function GrantAll(s: Store, ids: seq<string>, req: Request): Result<(Store, seq<Grant>), Error>
    requires forall i :: 0 <= i < |ids| ==> ids[i] in s
  {
    if ids == [] then Ok((s, [])) else
      var (next, grant) :- GrantRow(ids[0], s[ids[0]], req);
      var (after, grants) :- GrantAll(s[ids[0] := next], ids[1..], req);
      Ok((after, [grant] + grants))
  }

  function DoClaimDue(s: Store, req: Request): Result<(Store, seq<Grant>), Error> {
    var _ :- Storable(req.now);
    GrantAll(s, Candidates(s, req), req)
  }

  function Prepend(grants: seq<Grant>, r: Result<(Store, seq<Grant>), Error>): Result<(Store, seq<Grant>), Error> {
    match r
    case Ok((s, more)) => Ok((s, grants + more))
    case Err(e) => Err(e)
  }

  lemma GrantAllStep(s: Store, ids: seq<string>, req: Request)
    requires ids != [] && forall i :: 0 <= i < |ids| ==> ids[i] in s
    ensures match GrantRow(ids[0], s[ids[0]], req)
      case Err(e) => GrantAll(s, ids, req) == Err(e)
      case Ok((next, grant)) => GrantAll(s, ids, req) == Prepend([grant], GrantAll(s[ids[0] := next], ids[1..], req))
  {
  }

  lemma PrependTwice(a: seq<Grant>, b: seq<Grant>, r: Result<(Store, seq<Grant>), Error>)
    ensures Prepend(a, Prepend(b, r)) == Prepend(a + b, r)
  {
    if r.Ok? {
      assert a + (b + r.value.1) == (a + b) + r.value.1;
    }
  }

  method GrantCandidates(s: Store, ids: seq<string>, req: Request) returns (r: Result<(Store, seq<Grant>), Error>)
    requires forall i :: 0 <= i < |ids| ==> ids[i] in s
    ensures r == GrantAll(s, ids, req)
  {
    hide GrantRow, GrantAll, Prepend;
    var table, grants := s, [];
    PrependNone(GrantAll(s, ids, req));
    assert ids[0..] == ids;
    for i := 0 to |ids|
      invariant forall k :: 0 <= k < |ids| ==> ids[k] in table
      invariant GrantAll(s, ids, req) == Prepend(grants, GrantAll(table, ids[i..], req))
    {
      var rest := ids[i..];
      assert rest[0] == ids[i] && rest[1..] == ids[i + 1..];
      GrantAllStep(table, rest, req);
      var one := GrantRow(ids[i], table[ids[i]], req);
      if one.Err? {
        PrependError(grants, one.error);
        return Err(one.error);
      }
      var (next, grant) := one.value;
      table := table[ids[i] := next];
      PrependTwice(grants, [grant], GrantAll(table, ids[i + 1..], req));
      grants := grants + [grant];
    }
    assert ids[|ids|..] == [];
    PrependEnd(grants, table, req);
    return Ok((table, grants));
  }

  lemma PrependNone(r: Result<(Store, seq<Grant>), Error>)
    ensures Prepend([], r) == r
  {
    if r.Ok? {
      assert [] + r.value.1 == r.value.1;
    }
  }

  lemma PrependError(grants: seq<Grant>, e: Error)
    ensures Prepend(grants, Err(e)) == Err(e)
  {
  }

  lemma PrependEnd(grants: seq<Grant>, s: Store, req: Request)
    ensures Prepend(grants, GrantAll(s, [], req)) == Ok((s, grants))
  {
    assert grants + [] == grants;
  }

  // ----- The local coordinator -----

  /** The table behind its lock. A failed operation drops its transaction, so the
      table is what it was. */
  class LocalActivationCoordinator {
    var rows: Store

    constructor ()
      ensures rows == map[]
    {
      rows := map[];
    }

    method Wake(w: Wake, now: u64) returns (r: Result<WakeOutcome, Error>)
      modifies this
      ensures match DoWake(old(rows), w, now)
              case Ok((next, outcome)) => rows == next && r == Ok(outcome)
              case Err(e) => rows == old(rows) && r == Err(e)
    {
      if w.id !in rows {
        var due :- Storable(w.due);
        rows := rows[w.id := Row(Some(due), w.payload, 0, 0, None, None, None)];
        return Ok(Registered);
      }
      var row := rows[w.id];
      if HeldBy(row, now).Some? {
        return Ok(WakeHeld);
      }
      if row.due == Some(w.due) && row.payload == w.payload {
        return Ok(Unchanged);
      }
      var due :- Storable(w.due);
      rows := rows[w.id := row.(due := Some(due), payload := w.payload, settledAt := None)];
      return Ok(Rescheduled);
    }

    method ClaimDue(req: Request) returns (r: Result<seq<Grant>, Error>)
      modifies this
      ensures match DoClaimDue(old(rows), req)
              case Ok((next, grants)) => rows == next && r == Ok(grants)
              case Err(e) => rows == old(rows) && r == Err(e)
    {
      var _ :- Storable(req.now);
      var granted :- GrantCandidates(rows, Candidates(rows, req), req);
      rows := granted.0;
      return Ok(granted.1);
    }

    method ClaimItem(id: string, req: Request) returns (r: Result<Claim, Error>)
      modifies this
      ensures match DoClaimItem(old(rows), id, req)
              case Ok((next, claim)) => rows == next && r == Ok(claim)
              case Err(e) => rows == old(rows) && r == Err(e)
    {
      if id !in rows {
        return Ok(Unknown);
      }
      var row := rows[id];
      var held := HeldBy(row, req.now);
      if held.Some? {
        return Ok(Held(held.value.worker, held.value.expires));
      }
      match row.due {
        case None => return Ok(ItemSettled);
        case Some(due) =>
          if due > req.now {
            return Ok(NotDue(due));
          }
          var one :- GrantRow(id, row, req);
          rows := rows[id := one.0];
          return Ok(Granted(one.1));
      }
    }

    method Renew(h: Handle, leaseMs: u64, now: u64) returns (r: Result<Renewal, Error>)
      modifies this
      ensures match DoRenew(old(rows), h, leaseMs, now)
              case Ok((next, renewal)) => rows == next && r == Ok(renewal)
              case Err(e) => rows == old(rows) && r == Err(e)
    {
      if leaseMs == 0 || leaseMs > MAX_LEASE_MS {
        return Err(BadLease);
      }
      if now + leaseMs > U64_MAX {
        return Err(ExpiryOverflow);
      }
      if h.id in rows && Holds(rows[h.id], h, now) {
        var expires :- Storable(now + leaseMs);
        var row := rows[h.id];
        rows := rows[h.id := row.(lease := Some(row.lease.value.(expires := expires)))];
        return Ok(Renewed(expires));
      }
      return Ok(RenewFenced);
    }

    method Release(h: Handle, d: Disposition, now: u64) returns (r: Result<Settlement, Error>)
      modifies this
      ensures match DoRelease(old(rows), h, d, now)
              case Ok((next, settlement)) => rows == next && r == Ok(settlement)
              case Err(e) => rows == old(rows) && r == Err(e)
    {
      if h.id !in rows {
        return Ok(ReleaseFenced);
      }
      var row := rows[h.id];
      if row.settledToken == Some(h.token) {
        return Ok(AlreadySettled);
      }
      if !Holds(row, h, now) {
        return Ok(ReleaseFenced);
      }
      var due, settledAt := None, None;
      match d {
        case Complete =>
          var _ :- Storable(now);
          settledAt := Some(now);
        case Yield(at) =>
          var _ :- Storable(at);
          due := Some(at);
      }
      var _ :- Storable(h.token);
      rows := rows[h.id := row.(due := due, settledAt := settledAt, settledToken := Some(h.token), lease := None)];
      return Ok(Settled);
    }

    method PurgeSettled(before: u64) returns (r: Result<nat, Error>)
      modifies this
      ensures match DoPurge(old(rows), before)
              case Ok((next, n)) => rows == next && r == Ok(n)
              case Err(e) => rows == old(rows) && r == Err(e)
    {
      var _ :- Storable(before);
      var gone := set id | id in rows && Purgeable(rows[id], before);
      rows := rows - gone;
      return Ok(|gone|);
    }
  }
}
