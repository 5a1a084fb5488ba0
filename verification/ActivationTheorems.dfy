/** Fencing safety of the activation queue over every run, at arbitrary instants. */
module ActivationTheorems {
  import opened Text
  import opened StringOrder
  import opened Activation

  // ----- Runs -----

  datatype Op =
    | OpWake(wake: Wake, wakeAt: u64)
    | OpClaimDue(dueReq: Request)
    | OpClaimItem(item: string, itemReq: Request)
    | OpRenew(renewing: Handle, leaseMs: u64, renewAt: u64)
    | OpRelease(releasing: Handle, disposition: Disposition, releaseAt: u64)
    | OpPurge(before: u64)

  /** The table an operation leaves; a refused one leaves the table alone. */
  function After<T>(s: Store, r: Result<(Store, T), Error>): Store {
    match r
    case Ok((next, _)) => next
    case Err(_) => s
  }

  function Next(s: Store, op: Op): Store {
    match op
    case OpWake(w, now) => After(s, DoWake(s, w, now))
    case OpClaimDue(req) => After(s, DoClaimDue(s, req))
    case OpClaimItem(id, req) => After(s, DoClaimItem(s, id, req))
    case OpRenew(h, ms, now) => After(s, DoRenew(s, h, ms, now))
    case OpRelease(h, d, now) => After(s, DoRelease(s, h, d, now))
    case OpPurge(before) => After(s, DoPurge(s, before))
  }

  /** The grants an operation hands out. */
  function Grants(s: Store, op: Op): seq<Grant> {
    match op
    case OpClaimDue(req) =>
      (match DoClaimDue(s, req) case Ok((_, grants)) => grants case Err(_) => [])
    case OpClaimItem(id, req) =>
      (match DoClaimItem(s, id, req) case Ok((_, Granted(g))) => [g] case _ => [])
    case _ => []
  }

  function GrantFor(grants: seq<Grant>, id: string): Option<Grant> {
    if grants == [] then None
    else if grants[0].id == id then Some(grants[0])
    else GrantFor(grants[1..], id)
  }

  /** The operation records an outcome for `id` under `token`. */
  predicate Settles(s: Store, op: Op, id: string, token: nat) {
    && op.OpRelease? && op.releasing.id == id && op.releasing.token == token
    && match DoRelease(s, op.releasing, op.disposition, op.releaseAt)
       case Ok((_, Settled)) => true
       case _ => false
  }

  // ----- What every table keeps -----

  predicate Stores(n: Option<nat>) {
    n.Some? ==> n.value <= I64_MAX
  }

  /** Every number is one the table can hold; the lease, when there is one, is under the
      highest token minted, which has not settled; a leased item is due; attempts count
      the tokens. */
  predicate ValidRow(r: Row) {
    && Stores(r.due) && r.fencing <= I64_MAX && Stores(r.settledAt)
    && (r.lease.Some? ==> r.lease.value.expires <= I64_MAX)
    && r.attempt == r.fencing
    && (r.lease.Some? ==> r.lease.value.token == r.fencing && r.due.Some? && r.fencing > 0)
    && (r.settledToken.Some? ==> r.settledToken.value <= r.fencing)
    && (r.lease.Some? && r.settledToken.Some? ==> r.settledToken.value < r.fencing)
    && !(r.due.Some? && r.settledAt.Some?)
  }

  predicate ValidStore(s: Store) {
    forall id :: id in s ==> ValidRow(s[id])
  }

  /** How one operation may change one row that stays in the table: the whole new row. */
  predicate WokenBy(r: Row, t: Row, w: Wake) {
    && t.due == Some(w.due) && t.payload == w.payload && t.settledAt == None
    && t.attempt == r.attempt && t.fencing == r.fencing && t.lease == r.lease && t.settledToken == r.settledToken
  }

  predicate GrantedBy(r: Row, t: Row, g: Grant) {
    && g.token == r.fencing + 1 == t.fencing && r.due == Some(g.due) && g.payload == r.payload
    && g.attempt == r.attempt + 1 == t.attempt
    && t.lease == Some(Lease(g.worker, g.token, g.expires)) && t.settledToken == r.settledToken
    && t.settledAt == None && t.due == r.due && t.payload == r.payload
  }

  predicate RenewedBy(r: Row, t: Row, h: Handle, expires: nat) {
    && t.due == r.due && t.payload == r.payload && t.attempt == r.attempt && t.fencing == r.fencing
    && t.settledToken == r.settledToken && t.settledAt == r.settledAt
    && r.lease.Some? && r.lease.value.worker == h.worker && r.lease.value.token == h.token
    && t.lease == Some(Lease(h.worker, h.token, expires))
  }

  predicate SettledBy(r: Row, t: Row, h: Handle, d: Disposition, now: nat) {
    && t.due == (if d.Yield? then Some(d.due) else None) && t.settledAt == (if d.Complete? then Some(now) else None)
    && t.payload == r.payload && t.attempt == r.attempt && t.fencing == r.fencing
    && t.lease == None && t.settledToken == Some(h.token)
    && r.lease.Some? && r.lease.value.worker == h.worker && r.lease.value.token == h.token
  }

  ghost predicate RowStep(s: Store, op: Op, id: string)
    requires id in s && id in Next(s, op)
  {
    var r, t := s[id], Next(s, op)[id];
    match GrantFor(Grants(s, op), id)
    case Some(g) => GrantedBy(r, t, g)
    case None =>
      || t == r
      || (op.OpWake? && op.wake.id == id && HeldBy(r, op.wakeAt).None? && WokenBy(r, t, op.wake))
      || (op.OpRenew? && op.renewing.id == id && RenewedBy(r, t, op.renewing, op.renewAt + op.leaseMs))
      || (op.OpRelease? && op.releasing.id == id && SettledBy(r, t, op.releasing, op.disposition, op.releaseAt)
          && Settles(s, op, id, op.releasing.token))
  }

  // ----- A claim sweep -----

  predicate Distinct(ids: seq<string>) {
    forall i, j :: 0 <= i < j < |ids| ==> ids[i] != ids[j]
  }

  /** A sweep grants its rows in order and leaves the others alone. */
  lemma {:induction false} GrantAllMeans(s: Store, ids: seq<string>, req: Request)
    requires forall i :: 0 <= i < |ids| ==> ids[i] in s
    requires Distinct(ids) && GrantAll(s, ids, req).Ok?
    ensures var (t, grants) := GrantAll(s, ids, req).value;
      && t.Keys == s.Keys && |grants| == |ids|
      && (forall i :: 0 <= i < |ids| ==>
            GrantRow(ids[i], s[ids[i]], req) == Ok((t[ids[i]], grants[i])))
      && (forall id :: id in s && id !in ids ==> t[id] == s[id])
  {
    if ids != [] {
      var (next, grant) := GrantRow(ids[0], s[ids[0]], req).value;
      var rest := ids[1..];
      var mid := s[ids[0] := next];
      assert forall i :: 0 <= i < |rest| ==> rest[i] == ids[i + 1];
      assert ids[0] !in rest;
      GrantAllMeans(mid, rest, req);
      assert mid.Keys == s.Keys;
      var (t, grants) := GrantAll(s, ids, req).value;
      forall i | 0 <= i < |ids| ensures GrantRow(ids[i], s[ids[i]], req) == Ok((t[ids[i]], grants[i])) {
        if i > 0 {
          assert ids[i] == rest[i - 1] && mid[ids[i]] == s[ids[i]];
        }
      }
      forall id | id in s && id !in ids ensures t[id] == s[id] {
        assert id !in rest;
      }
    }
  }

  lemma QueuedDistinct(s: Store, q: seq<string>)
    requires Queued(s, q)
    ensures Distinct(q)
  {
    forall i, j | 0 <= i < j < |q| ensures q[i] != q[j] {
      assert Earlier(s, q[i], q[j]);
      LessIrreflexive(q[i]);
    }
  }

  lemma CandidatesMean(s: Store, req: Request)
    ensures Queued(s, Candidates(s, req)) && Distinct(Candidates(s, req))
    ensures forall id :: id in Candidates(s, req) ==> id in s && Claimable(s[id], req.now)
  {
    var q := DueQueue(s, req.now);
    assert Queued(s, Candidates(s, req));
    assert forall id :: id in Candidates(s, req) ==> id in q;
    QueuedDistinct(s, Candidates(s, req));
  }

  ghost predicate Claimables(s: Store, now: nat, ids: set<string>) {
    forall id :: id in ids <==> id in s && Claimable(s[id], now)
  }

  /** `ids` are the first `limit` claimable items in due order, ties by id. */
  ghost predicate FirstDue(s: Store, claimable: set<string>, limit: nat, ids: seq<string>) {
    && Queued(s, ids)
    && |ids| == (if |claimable| <= limit then |claimable| else limit)
    && (forall id :: id in ids ==> id in claimable)
    && (forall id :: id in claimable && id !in ids ==> ComesAfter(s, ids, id))
  }

  ghost predicate ComesAfter(s: Store, ids: seq<string>, id: string) {
    id in s && forall i :: 0 <= i < |ids| ==> ids[i] in s && Earlier(s, ids[i], id)
  }

  lemma CandidatesAreFirst(s: Store, req: Request, claimable: set<string>)
    requires Claimables(s, req.now, claimable)
    ensures FirstDue(s, claimable, req.limit, Candidates(s, req))
  {
    var q, c := DueQueue(s, req.now), Candidates(s, req);
    CandidatesMean(s, req);
    QueuedDistinct(s, q);
    assert (set id | id in q) == claimable;
    DistinctSize(q);
    hide DueQueue, Claimable, Earlier, Distinct;
    assert |c| <= |q| && c == q[..|c|];
    forall id | id in claimable && id !in c ensures ComesAfter(s, c, id) {
      LeftOut(s, q, |c|, id);
    }
  }

  lemma LeftOut(s: Store, q: seq<string>, n: nat, id: string)
    requires Queued(s, q) && n <= |q| && id in q && id !in q[..n]
    ensures ComesAfter(s, q[..n], id)
  {
    hide Earlier;
    var k :| 0 <= k < |q| && q[k] == id;
    forall m | 0 <= m < n ensures q[m] in q[..n] {
      assert q[..n][m] == q[m];
    }
  }

  function GrantIds(grants: seq<Grant>): (ids: seq<string>)
    ensures |ids| == |grants|
  {
    seq(|grants|, i requires 0 <= i < |grants| => grants[i].id)
  }

  /** Every selected row can store its next token, and the new expiry fits too. */
  ghost predicate CanStore(s: Store, ids: seq<string>, req: Request) {
    forall i :: 0 <= i < |ids| ==> ids[i] in s && s[ids[i]].fencing < I64_MAX && req.now + req.leaseMs <= I64_MAX
  }

  lemma GrantRowStores(id: string, row: Row, req: Request)
    requires ValidRow(row) && row.due.Some?
    ensures GrantRow(id, row, req).Ok? <==> row.fencing < I64_MAX && req.now + req.leaseMs <= I64_MAX
  {
  }

  lemma {:induction false} GrantAllStores(s: Store, ids: seq<string>, req: Request)
    requires ValidStore(s) && Distinct(ids) && forall i :: 0 <= i < |ids| ==> ids[i] in s && s[ids[i]].due.Some?
    ensures GrantAll(s, ids, req).Ok? <==> CanStore(s, ids, req)
  {
    if ids != [] {
      GrantAllStep(s, ids, req);
      assert ValidRow(s[ids[0]]);
      GrantRowStores(ids[0], s[ids[0]], req);
      if GrantRow(ids[0], s[ids[0]], req).Ok? {
        var mid, rest := s[ids[0] := GrantRow(ids[0], s[ids[0]], req).value.0], ids[1..];
        GrantRowValid(ids[0], s[ids[0]], req);
        hide ValidRow, GrantRow, GrantAll;
        assert forall i :: 0 <= i < |rest| ==> rest[i] == ids[i + 1] && mid[rest[i]] == s[rest[i]];
        GrantAllStores(mid, rest, req);
        assert CanStore(mid, rest, req) <==> CanStore(s, ids, req) by {
          assert forall i :: 0 < i < |ids| ==> ids[i] == rest[i - 1];
        }
      }
    }
  }

  /** A sweep grants exactly the first `limit` claimable items; it fails, and then
      grants nothing, exactly when one of them has no next token or expiry that the
      table can hold. */
  lemma ClaimDueTakesTheFirst(s: Store, req: Request, claimable: set<string>)
    requires ValidStore(s) && Claimables(s, req.now, claimable)
    ensures FirstDue(s, claimable, req.limit, Candidates(s, req))
    ensures DoClaimDue(s, req).Ok? <==> req.now <= I64_MAX && CanStore(s, Candidates(s, req), req)
    ensures DoClaimDue(s, req).Ok? ==> GrantIds(DoClaimDue(s, req).value.1) == Candidates(s, req)
  {
    var ids := Candidates(s, req);
    CandidatesMean(s, req);
    CandidatesAreFirst(s, req, claimable);
    forall i | 0 <= i < |ids| ensures ids[i] in s && s[ids[i]].due.Some? {
      assert ids[i] in ids;
    }
    hide Candidates, FirstDue, Claimables, GrantAll, ValidStore, Queued, Claimable, CanStore;
    GrantAllStores(s, ids, req);
    if GrantAll(s, ids, req).Ok? {
      GrantAllIds(s, ids, req);
    }
  }

  lemma {:induction false} GrantAllIds(s: Store, ids: seq<string>, req: Request)
    requires (forall i :: 0 <= i < |ids| ==> ids[i] in s) && GrantAll(s, ids, req).Ok?
    ensures GrantIds(GrantAll(s, ids, req).value.1) == ids
  {
    if ids != [] {
      var (next, grant) := GrantRow(ids[0], s[ids[0]], req).value;
      var mid := s[ids[0] := next];
      GrantAllIds(mid, ids[1..], req);
      var more := GrantAll(mid, ids[1..], req).value.1;
      assert GrantIds([grant] + more) == [grant.id] + GrantIds(more);
    }
  }

  lemma {:induction false} DistinctSize(ids: seq<string>)
    requires Distinct(ids)
    ensures |set id | id in ids| == |ids|
  {
    if ids != [] {
      var rest := ids[1..];
      DistinctSize(rest);
      assert ids[0] !in rest;
      assert (set id | id in ids) == {ids[0]} + (set id | id in rest);
    }
  }

  // ----- One step -----

  lemma {:induction false} GrantForAt(grants: seq<Grant>, id: string)
    ensures GrantFor(grants, id).None? <==> id !in GrantIds(grants)
    ensures forall i :: 0 <= i < |grants| && grants[i].id == id && Distinct(GrantIds(grants)) ==> GrantFor(grants, id) == Some(grants[i])
  {
    if grants != [] {
      var rest := grants[1..];
      GrantForAt(rest, id);
      assert GrantIds(grants) == [grants[0].id] + GrantIds(rest);
      if Distinct(GrantIds(grants)) {
        assert forall i :: 0 <= i < |rest| ==> GrantIds(rest)[i] == GrantIds(grants)[i + 1];
        forall i | 0 < i < |grants| ensures grants[i].id != grants[0].id {
          assert GrantIds(grants)[i] == grants[i].id && GrantIds(grants)[0] == grants[0].id;
        }
        assert forall i :: 0 < i < |grants| ==> grants[i] == rest[i - 1];
      }
    }
  }

  lemma ClaimDueStep(s: Store, req: Request, id: string)
    requires id in s && id in Next(s, OpClaimDue(req))
    ensures RowStep(s, OpClaimDue(req), id)
  {
    if DoClaimDue(s, req).Ok? {
      hide DueQueue, Claimable, GrantAll, GrantRow, Earlier;
      var c := Candidates(s, req);
      CandidatesMean(s, req);
      hide Candidates, Queued;
      GrantAllMeans(s, c, req);
      GrantAllIds(s, c, req);
      var (t, grants) := DoClaimDue(s, req).value;
      GrantForAt(grants, id);
      if id in c {
        var i :| 0 <= i < |c| && c[i] == id;
        assert GrantIds(grants)[i] == c[i];
        GrantRowMeans(id, s[id], req, t[id], grants[i]);
      }
    }
  }

  lemma GrantRowMeans(id: string, r: Row, req: Request, t: Row, g: Grant)
    requires GrantRow(id, r, req) == Ok((t, g))
    ensures GrantedBy(r, t, g) && g.id == id
  {
  }

  lemma OneGrant(g: Grant, id: string)
    ensures GrantFor([g], id) == if g.id == id then Some(g) else None
  {
    assert [g][1..] == [];
  }

  lemma ClaimItemStep(s: Store, item: string, req: Request, id: string)
    requires id in s && id in Next(s, OpClaimItem(item, req))
    ensures RowStep(s, OpClaimItem(item, req), id)
  {
    if item in s {
      var one := GrantRow(item, s[item], req);
      if one.Ok? {
        GrantRowMeans(item, s[item], req, one.value.0, one.value.1);
        OneGrant(one.value.1, id);
      }
    }
  }

  /** Every operation changes a row it keeps in one of four ways, and which one is
      visible in what it answers. */
  lemma EveryStep(s: Store, op: Op, id: string)
    requires id in s && id in Next(s, op)
    ensures RowStep(s, op, id)
  {
    if op.OpClaimDue? {
      ClaimDueStep(s, op.dueReq, id);
    } else if op.OpClaimItem? {
      ClaimItemStep(s, op.item, op.itemReq, id);
    } else {
      hide DoClaimDue, DoClaimItem;
    }
  }

  predicate FreshRow(r: Row) {
    r.fencing == 0 && r.lease == None && r.settledToken == None && r.settledAt == None
  }

  /** A row enters the table only through a wake, unleased and without tokens, and
      leaves it only through a purge of a settled item. */
  lemma RowsComeAndGo(s: Store, op: Op, id: string)
    ensures id !in s && id in Next(s, op) ==>
      (op.OpWake? && op.wake.id == id && FreshRow(Next(s, op)[id]))
    ensures id in s && id !in Next(s, op) ==> op.OpPurge? && Purgeable(s[id], op.before)
  {
    if op.OpClaimDue? {
      hide DueQueue, Claimable;
      if DoClaimDue(s, op.dueReq).Ok? {
        CandidatesMean(s, op.dueReq);
        GrantAllMeans(s, Candidates(s, op.dueReq), op.dueReq);
      }
    } else {
      hide DoClaimDue;
    }
  }

  lemma GrantRowValid(id: string, r: Row, req: Request)
    requires ValidRow(r) && GrantRow(id, r, req).Ok?
    ensures ValidRow(GrantRow(id, r, req).value.0)
  {
  }

  lemma ClaimDueValid(s: Store, req: Request)
    requires ValidStore(s) && DoClaimDue(s, req).Ok?
    ensures ValidStore(DoClaimDue(s, req).value.0)
  {
    hide ValidRow, GrantRow, DueQueue, Claimable, GrantAll;
    var c := Candidates(s, req);
    CandidatesMean(s, req);
    hide Candidates;
    GrantAllMeans(s, c, req);
    var (t, grants) := DoClaimDue(s, req).value;
    forall id | id in t ensures ValidRow(t[id]) {
      if id in c {
        var i :| 0 <= i < |c| && c[i] == id;
        assert GrantRow(c[i], s[c[i]], req) == Ok((t[c[i]], grants[i]));
        GrantRowValid(c[i], s[c[i]], req);
      }
    }
  }

  /** No operation stores a row its own validation would refuse to load. */
  lemma StepsKeepValid(s: Store, op: Op)
    requires ValidStore(s)
    ensures ValidStore(Next(s, op))
  {
    if op.OpClaimDue? {
      if DoClaimDue(s, op.dueReq).Ok? {
        ClaimDueValid(s, op.dueReq);
      }
    } else {
      hide DoClaimDue;
    }
  }

  // ----- Runs -----

  function RunTo(s: Store, ops: seq<Op>): Store
    decreases |ops|
  {
    if ops == [] then s else RunTo(Next(s, ops[0]), ops[1..])
  }

  /** The item is in the table all along: no purge of the run drops it. */
  predicate Stays(s: Store, ops: seq<Op>, id: string)
    decreases |ops|
  {
    id in s && (ops == [] || Stays(Next(s, ops[0]), ops[1..], id))
  }

  /** The tokens minted for the item, in order. */
  function Minted(s: Store, ops: seq<Op>, id: string): seq<nat>
    decreases |ops|
  {
    if ops == [] then [] else
      var rest := Minted(Next(s, ops[0]), ops[1..], id);
      match GrantFor(Grants(s, ops[0]), id)
      case Some(g) => [g.token] + rest
      case None => rest
  }

  lemma {:induction false} RunsStayValid(s: Store, ops: seq<Op>)
    requires ValidStore(s)
    ensures ValidStore(RunTo(s, ops))
    decreases |ops|
  {
    if ops != [] {
      StepsKeepValid(s, ops[0]);
      hide ValidStore, Next;
      RunsStayValid(Next(s, ops[0]), ops[1..]);
    }
  }

  /** Whatever workers do at whatever instants, the tokens minted for an item that
      is not purged are the consecutive numbers above its first one: they strictly
      rise and none is ever reused. */
  lemma {:induction false} TokensAreConsecutive(s: Store, ops: seq<Op>, id: string)
    requires Stays(s, ops, id)
    ensures id in RunTo(s, ops) && RunTo(s, ops)[id].fencing == s[id].fencing + |Minted(s, ops, id)|
    ensures forall i :: 0 <= i < |Minted(s, ops, id)| ==> Minted(s, ops, id)[i] == s[id].fencing + 1 + i
    decreases |ops|
  {
    hide Next, Grants;
    if ops != [] {
      EveryStep(s, ops[0], id);
      TokensAreConsecutive(Next(s, ops[0]), ops[1..], id);
    }
  }

  /** A named claim is granted exactly when the published predicate says the item is
      claimable at that instant and the new token and expiry can be stored. */
  lemma ClaimableMeansGranted(s: Store, id: string, req: Request)
    requires ValidStore(s) && id in s
    ensures Grants(s, OpClaimItem(id, req)) != [] <==>
      Claimable(s[id], req.now) && s[id].fencing < I64_MAX && req.now + req.leaseMs <= I64_MAX
  {
    assert ValidRow(s[id]);
    var row := s[id];
    assert HeldBy(row, req.now).Some? <==> row.lease.Some? && row.lease.value.expires > req.now;
  }

  // ----- Only the current token acts -----

  /** The handle is the item's lease and the lease has not expired. */
  predicate Holding(s: Store, h: Handle, now: nat) {
    h.id in s && Holds(s[h.id], h, now)
  }

  /** A renewal takes effect exactly for the holder of the lease at that instant, within
      the lease limits; everyone else, a holder whose own lease ran out included, changes
      nothing and hears `Fenced`. */
  lemma OnlyTheHolderRenews(s: Store, h: Handle, leaseMs: u64, now: u64)
    ensures Next(s, OpRenew(h, leaseMs, now)) != s <==>
      && Holding(s, h, now) && 1 <= leaseMs <= MAX_LEASE_MS && now + leaseMs <= I64_MAX
      && s[h.id].lease.value.expires != now + leaseMs
    ensures DoRenew(s, h, leaseMs, now) == Ok((Next(s, OpRenew(h, leaseMs, now)), Renewed(now + leaseMs))) <==>
      Holding(s, h, now) && 1 <= leaseMs <= MAX_LEASE_MS && now + leaseMs <= I64_MAX
    ensures !Holding(s, h, now) && 1 <= leaseMs <= MAX_LEASE_MS && now + leaseMs <= U64_MAX ==>
      DoRenew(s, h, leaseMs, now) == Ok((s, RenewFenced))
  {
    if Holding(s, h, now) {
      var row := s[h.id];
      var renewed := row.(lease := Some(row.lease.value.(expires := now + leaseMs)));
      assert s[h.id := renewed][h.id] == renewed;
      if renewed == row {
        assert s[h.id := renewed] == s;
      }
    }
  }

  /** A release takes effect exactly for the holder of the lease at that instant; anyone
      else changes nothing and hears `AlreadySettled`, exactly under the token that
      settled last, or `Fenced`. */
  lemma StaleHandlesAreFenced(s: Store, h: Handle, d: Disposition, now: u64)
    requires ValidStore(s)
    ensures Next(s, OpRelease(h, d, now)) != s <==>
      Holding(s, h, now) && (if d.Complete? then now else d.due) <= I64_MAX
    ensures Next(s, OpRelease(h, d, now)) != s <==> Settles(s, OpRelease(h, d, now), h.id, h.token)
    ensures !Holding(s, h, now) ==>
      DoRelease(s, h, d, now) ==
        Ok((s, if h.id in s && s[h.id].settledToken == Some(h.token) then AlreadySettled else ReleaseFenced))
  {
    if h.id in s {
      var row := s[h.id];
      assert ValidRow(row);
      if Settles(s, OpRelease(h, d, now), h.id, h.token) {
        assert Next(s, OpRelease(h, d, now))[h.id].lease == None;
      }
    }
  }

  // ----- No token settles twice -----

  /** The token can no longer be the one a lease is under. */
  predicate Spent(r: Row, token: nat) {
    token < r.fencing || (token == r.fencing && r.lease.None?)
  }

  lemma SpentStep(s: Store, op: Op, id: string, token: nat)
    requires ValidStore(s) && id in s && id in Next(s, op) && Spent(s[id], token)
    ensures Spent(Next(s, op)[id], token) && !Settles(s, op, id, token)
  {
    assert ValidRow(s[id]);
    EveryStep(s, op, id);
    if op.OpRelease? {
      hide Next;
    }
    hide Grants, Next;
  }

  lemma SettleSpends(s: Store, op: Op, id: string, token: nat)
    requires ValidStore(s) && id in s && Settles(s, op, id, token)
    ensures id in Next(s, op) && Spent(Next(s, op)[id], token) && Next(s, op)[id].settledToken == Some(token)
  {
    assert ValidRow(s[id]);
  }

  /** How often a run records an outcome under the token. */
  function Settlements(s: Store, ops: seq<Op>, id: string, token: nat): nat
    decreases |ops|
  {
    if ops == [] then 0 else
      (if Settles(s, ops[0], id, token) then 1 else 0) + Settlements(Next(s, ops[0]), ops[1..], id, token)
  }

  lemma {:induction false} SpentNeverSettles(s: Store, ops: seq<Op>, id: string, token: nat)
    requires ValidStore(s) && Stays(s, ops, id) && Spent(s[id], token)
    ensures Settlements(s, ops, id, token) == 0
    decreases |ops|
  {
    if ops != [] {
      SpentStep(s, ops[0], id, token);
      StepsKeepValid(s, ops[0]);
      hide Next, Settles, ValidStore, Spent;
      SpentNeverSettles(Next(s, ops[0]), ops[1..], id, token);
    }
  }

  /** However often a worker retries, its token settles the item at most once. */
  lemma {:induction false} TokenSettlesOnce(s: Store, ops: seq<Op>, id: string, token: nat)
    requires ValidStore(s) && Stays(s, ops, id)
    ensures Settlements(s, ops, id, token) <= 1
    decreases |ops|
  {
    if ops != [] {
      StepsKeepValid(s, ops[0]);
      if Settles(s, ops[0], id, token) {
        SettleSpends(s, ops[0], id, token);
        hide Next, Settles, ValidStore, Spent;
        SpentNeverSettles(Next(s, ops[0]), ops[1..], id, token);
      } else {
        hide Next, Settles, ValidStore, Spent;
        TokenSettlesOnce(Next(s, ops[0]), ops[1..], id, token);
      }
    }
  }

  // ----- Idempotent settlement -----

  /** No outcome is recorded for the item under any token. */
  ghost predicate Unsettled(s: Store, ops: seq<Op>, id: string)
    decreases |ops|
  {
    ops == [] || ((forall token :: !Settles(s, ops[0], id, token)) && Unsettled(Next(s, ops[0]), ops[1..], id))
  }

  lemma {:induction false} SettledTokenLasts(s: Store, ops: seq<Op>, id: string)
    requires Stays(s, ops, id) && Unsettled(s, ops, id)
    ensures id in RunTo(s, ops) && RunTo(s, ops)[id].settledToken == s[id].settledToken
    decreases |ops|
  {
    hide Next, Grants, Settles;
    if ops != [] {
      EveryStep(s, ops[0], id);
      SettledTokenLasts(Next(s, ops[0]), ops[1..], id);
    }
  }

  /** A retried release is answered `AlreadySettled`, and changes nothing, for as long
      as the item is neither settled again nor purged - also after others claimed it. */
  lemma RetriedReleaseIsAnswered(s: Store, settle: Op, ops: seq<Op>, id: string, token: nat,
                                 h: Handle, d: Disposition, now: u64)
    requires ValidStore(s) && id in s && Settles(s, settle, id, token)
    requires Stays(Next(s, settle), ops, id) && Unsettled(Next(s, settle), ops, id)
    requires h.id == id && h.token == token
    ensures var t := RunTo(Next(s, settle), ops); DoRelease(t, h, d, now) == Ok((t, AlreadySettled))
  {
    SettleSpends(s, settle, id, token);
    hide Next, Settles;
    SettledTokenLasts(Next(s, settle), ops, id);
  }

  // ----- A live lease excludes everyone else -----

  /** The instant an operation declares; a purge declares none. */
  function Instant(op: Op): nat {
    match op
    case OpWake(_, now) => now
    case OpClaimDue(req) => req.now
    case OpClaimItem(_, req) => req.now
    case OpRenew(_, _, now) => now
    case OpRelease(_, _, now) => now
    case OpPurge(_) => 0
  }

  /** Every operation declares an instant before `expires`, and the holder neither
      renews nor releases. */
  predicate Within(ops: seq<Op>, expires: nat, holder: Handle) {
    forall i :: 0 <= i < |ops| ==>
      Instant(ops[i]) < expires && !(ops[i].OpRenew? && ops[i].renewing == holder)
      && !(ops[i].OpRelease? && ops[i].releasing == holder)
  }

  lemma GrantNeedsFreeLease(s: Store, op: Op, id: string)
    requires id in s && GrantFor(Grants(s, op), id).Some?
    ensures s[id].lease.Some? ==> s[id].lease.value.expires <= Instant(op)
  {
    if op.OpClaimDue? {
      hide DueQueue, GrantAll, GrantRow, Earlier, Claimable;
      CandidatesMean(s, op.dueReq);
      GrantAllIds(s, Candidates(s, op.dueReq), op.dueReq);
      GrantForAt(Grants(s, op), id);
      hide Candidates;
      ClaimableIsFree(s[id], op.dueReq.now);
    } else if op.OpClaimItem? {
      hide GrantRow, DoClaimDue;
    }
  }

  lemma ClaimableIsFree(r: Row, now: nat)
    ensures Claimable(r, now) && r.lease.Some? ==> r.lease.value.expires <= now
  {
  }

  /** While the instants stay before a lease's expiry and its holder is silent, nobody
      is granted the item and the lease stands unchanged. */
  lemma {:induction false} LeaseExcludes(s: Store, ops: seq<Op>, id: string)
    requires id in s && s[id].lease.Some? && Stays(s, ops, id)
    requires Within(ops, s[id].lease.value.expires, Handle(id, s[id].lease.value.worker, s[id].lease.value.token))
    ensures Minted(s, ops, id) == []
    ensures id in RunTo(s, ops) && RunTo(s, ops)[id].lease == s[id].lease
    decreases |ops|
  {
    hide Next, Grants, Settles;
    if ops != [] {
      var holder := Handle(id, s[id].lease.value.worker, s[id].lease.value.token);
      EveryStep(s, ops[0], id);
      if GrantFor(Grants(s, ops[0]), id).Some? {
        GrantNeedsFreeLease(s, ops[0], id);
      }
      assert Within(ops[1..], s[id].lease.value.expires, holder);
      LeaseExcludes(Next(s, ops[0]), ops[1..], id);
    }
  }

  // ----- What a purge forgets -----

  function Fence(s: Store, id: string): nat {
    if id in s then s[id].fencing else 0
  }

  /** Some grant of the item comes after a purge that removed it; `purged` says whether
      one already has. */
  predicate RegrantedAfterPurge(s: Store, ops: seq<Op>, id: string, purged: bool)
    decreases |ops|
  {
    ops != [] &&
    (|| (purged && GrantFor(Grants(s, ops[0]), id).Some?)
     || RegrantedAfterPurge(Next(s, ops[0]), ops[1..], id, purged || (id in s && id !in Next(s, ops[0]))))
  }

  predicate AllDifferent(tokens: seq<nat>) {
    forall i, j :: 0 <= i < j < |tokens| ==> tokens[i] != tokens[j]
  }

  /** A settled item has been granted. */
  predicate SettledWasGranted(s: Store, id: string) {
    id in s && s[id].settledAt.Some? ==> s[id].fencing > 0
  }

  lemma GrantsAreOfRows(s: Store, op: Op, id: string)
    ensures GrantFor(Grants(s, op), id).Some? ==> id in s && id in Next(s, op)
  {
    if op.OpClaimDue? {
      if DoClaimDue(s, op.dueReq).Ok? {
        hide DueQueue, GrantAll, GrantRow, Earlier, Claimable;
        CandidatesMean(s, op.dueReq);
        GrantAllMeans(s, Candidates(s, op.dueReq), op.dueReq);
        GrantAllIds(s, Candidates(s, op.dueReq), op.dueReq);
        GrantForAt(Grants(s, op), id);
      }
    } else if op.OpClaimItem? {
      hide DoClaimDue;
      if op.item in s {
        var one := GrantRow(op.item, s[op.item], op.itemReq);
        if one.Ok? {
          GrantRowMeans(op.item, s[op.item], op.itemReq, one.value.0, one.value.1);
          OneGrant(one.value.1, id);
        }
      }
    } else {
      hide DoClaimDue, DoClaimItem;
    }
  }

  /** One step, seen from one item's tokens: a grant mints the next one, a purge starts
      over, and nothing else moves the count. */
  lemma FenceStep(s: Store, op: Op, id: string)
    requires ValidStore(s) && SettledWasGranted(s, id)
    ensures ValidStore(Next(s, op)) && SettledWasGranted(Next(s, op), id)
    ensures match GrantFor(Grants(s, op), id)
      case Some(g) => id in s && id in Next(s, op) && g.token == Fence(s, id) + 1 == Fence(Next(s, op), id)
      case None =>
        if id in s && id !in Next(s, op) then Fence(s, id) > 0 && Fence(Next(s, op), id) == 0
        else Fence(Next(s, op), id) == Fence(s, id)
  {
    StepsKeepValid(s, op);
    GrantsAreOfRows(s, op, id);
    RowsComeAndGo(s, op, id);
    if id in s && id in Next(s, op) {
      EveryStep(s, op, id);
      assert ValidRow(s[id]);
    }
    hide Next, Grants, Settles;
  }

  lemma MintedStep(s: Store, ops: seq<Op>, id: string)
    requires ops != []
    ensures var rest := Minted(Next(s, ops[0]), ops[1..], id);
      var g := GrantFor(Grants(s, ops[0]), id);
      Minted(s, ops, id) == if g.Some? then [g.value.token] + rest else rest
  {
    hide Next, Grants;
  }

  lemma {:induction false} NothingAfterPurge(s: Store, ops: seq<Op>, id: string)
    requires !RegrantedAfterPurge(s, ops, id, true)
    ensures Minted(s, ops, id) == []
    decreases |ops|
  {
    hide Next, Grants;
    if ops != [] {
      NothingAfterPurge(Next(s, ops[0]), ops[1..], id);
    }
  }

  lemma RegrantStep(s: Store, ops: seq<Op>, id: string, purged: bool)
    ensures RegrantedAfterPurge(s, ops, id, purged) <==>
      && ops != []
      && (|| (purged && GrantFor(Grants(s, ops[0]), id).Some?)
          || RegrantedAfterPurge(Next(s, ops[0]), ops[1..], id, purged || (id in s && id !in Next(s, ops[0]))))
  {
    hide Next, Grants;
  }

  /** The tokens minted so far are different, and none is above `highest`. */
  predicate MintedUpTo(minted: seq<nat>, highest: nat) {
    AllDifferent(minted) && forall i :: 0 <= i < |minted| ==> minted[i] <= highest
  }

  lemma NextToken(minted: seq<nat>, highest: nat, rest: seq<nat>)
    ensures MintedUpTo(minted, highest) ==> MintedUpTo(minted + [highest + 1], highest + 1)
    ensures minted + ([highest + 1] + rest) == (minted + [highest + 1]) + rest
  {
  }

  lemma UpToDiffers(minted: seq<nat>, highest: nat)
    ensures MintedUpTo(minted, highest) ==> AllDifferent(minted)
  {
  }

  lemma NoOpsNoTokens(s: Store, id: string)
    ensures Minted(s, [], id) == []
  {
  }

  /** Without a grant behind a purge, the tokens still to come exceed those minted. */
  lemma {:induction false} FreshTokens(s: Store, ops: seq<Op>, id: string, minted: seq<nat>)
    requires ValidStore(s) && SettledWasGranted(s, id) && !RegrantedAfterPurge(s, ops, id, false)
    requires MintedUpTo(minted, Fence(s, id))
    ensures AllDifferent(minted + Minted(s, ops, id))
    decreases |ops|
  {
    hide *;
    UpToDiffers(minted, Fence(s, id));
    NoOpsNoTokens(s, id);
    if ops == [] {
      assert minted + [] == minted;
    } else {
      var t, n := Next(s, ops[0]), Fence(s, id);
      FenceStep(s, ops[0], id);
      MintedStep(s, ops, id);
      RegrantStep(s, ops, id, false);
      if id in s && id !in t {
        NothingAfterPurge(t, ops[1..], id);
        assert minted + [] == minted;
      } else if GrantFor(Grants(s, ops[0]), id).Some? {
        NextToken(minted, n, Minted(t, ops[1..], id));
        FreshTokens(t, ops[1..], id, minted + [n + 1]);
      } else {
        FreshTokens(t, ops[1..], id, minted);
      }
    }
  }

  lemma TwiceOne(minted: seq<nat>, rest: seq<nat>)
    requires 1 in minted
    ensures !AllDifferent(minted + ([1] + rest))
  {
    var i :| 0 <= i < |minted| && minted[i] == 1;
    var all := minted + ([1] + rest);
    assert all[i] == all[|minted|];
  }

  /** Every life of an item starts with token 1, so the first grant behind a purge
      repeats it. */
  lemma {:induction false} RepeatedToken(s: Store, ops: seq<Op>, id: string, purged: bool, minted: seq<nat>)
    requires ValidStore(s) && SettledWasGranted(s, id) && RegrantedAfterPurge(s, ops, id, purged)
    requires Fence(s, id) > 0 || purged ==> 1 in minted
    requires purged ==> Fence(s, id) == 0
    ensures !AllDifferent(minted + Minted(s, ops, id))
    decreases |ops|
  {
    hide *;
    RegrantStep(s, ops, id, purged);
    var t, n := Next(s, ops[0]), Fence(s, id);
    FenceStep(s, ops[0], id);
    MintedStep(s, ops, id);
    var rest := Minted(t, ops[1..], id);
    if GrantFor(Grants(s, ops[0]), id).Some? {
      if purged {
        TwiceOne(minted, rest);
      } else {
        NextToken(minted, n, rest);
        assert n == 0 ==> 1 in minted + [n + 1] by { assert (minted + [n + 1])[|minted|] == n + 1; }
        RepeatedToken(t, ops[1..], id, false, minted + [n + 1]);
      }
    } else {
      RepeatedToken(t, ops[1..], id, purged || (id in s && id !in t), minted);
    }
  }

  /** Exactly when a token is minted twice for an item, over every run of the store:
      when the item is granted again after a purge that removed it. */
  lemma TokensRepeatIff(ops: seq<Op>, id: string)
    ensures AllDifferent(Minted(map[], ops, id)) <==> !RegrantedAfterPurge(map[], ops, id, false)
  {
    var tokens := Minted(map[], ops, id);
    assert [] + tokens == tokens;
    if RegrantedAfterPurge(map[], ops, id, false) {
      RepeatedToken(map[], ops, id, false, []);
    } else {
      FreshTokens(map[], ops, id, []);
    }
  }

  /** The item after one wake, one claim, one completion and one purge. */
  function FirstLife(w: Wake, h: Handle, req: Request): Store {
    Next(Next(Next(Next(map[], OpWake(w, 0)), OpClaimItem(w.id, req)), OpRelease(h, Complete, 11)), OpPurge(12))
  }

  function SecondLife(w: Wake, h: Handle, req: Request): Store {
    Next(FirstLife(w, h, req), OpWake(w, 0))
  }

  /** An input for `TokensRepeatIff`, and what follows from it: the next life of the item
      is granted the very same token, and the handle of the first life settles the second. */
  lemma PurgeReusesTokens(w: Wake, worker: string, d: Disposition)
    requires w.due == 0 && (d.Yield? ==> d.due <= I64_MAX)
    ensures var h := Handle(w.id, worker, 1);
      var req: Request := RequestFields(worker, 10, 5, 1);
      var first, second := Next(map[], OpWake(w, 0)), SecondLife(w, h, req);
      && Grants(first, OpClaimItem(w.id, req)) == Grants(second, OpClaimItem(w.id, req))
         == [Grant(w.id, worker, 1, 0, 15, 1, w.payload)]
      && Settles(Next(first, OpClaimItem(w.id, req)), OpRelease(h, Complete, 11), w.id, 1)
      && Settles(Next(second, OpClaimItem(w.id, req)), OpRelease(h, d, 11), w.id, 1)
  {
    var h, req: Request := Handle(w.id, worker, 1), RequestFields(worker, 10, 5, 1);
    var s1: Store := map[w.id := Row(Some(0), w.payload, 0, 0, None, None, None)];
    var s2: Store := map[w.id := Row(Some(0), w.payload, 1, 1, Some(Lease(worker, 1, 15)), None, None)];
    var s3: Store := map[w.id := Row(None, w.payload, 1, 1, None, Some(11), Some(1))];
    assert Next(map[], OpWake(w, 0)) == s1;
    assert Next(s1, OpClaimItem(w.id, req)) == s2;
    assert Next(s2, OpRelease(h, Complete, 11)) == s3;
    assert Next(s3, OpPurge(12)) == map[];
  }
}
