/** When an item can be claimed: after a wake, a yield, a completion and a grant, seen
    through the claims of later states in which nobody touched the row since. */
module ActivationSchedule {
  import opened Text
  import opened Activation
  import opened ActivationTheorems

  /** The new token and expiry of a claim can be stored. */
  predicate Fits(row: Row, req: Request) {
    row.fencing < I64_MAX && req.now + req.leaseMs <= I64_MAX
  }

  /** The row is as `s` left it. */
  predicate SameRow(s: Store, u: Store, id: string) {
    id in s && id in u && u[id] == s[id]
  }

  // ----- After a grant or a renewal -----

  /** A grant goes to the worker that asked, for the time it asked, on the item's own due
      time and payload, and its token is the attempt it starts. */
  lemma GrantsAsAsked(s: Store, id: string, req: Request, g: Grant)
    requires ValidStore(s) && GrantFor(Grants(s, OpClaimItem(id, req)), id) == Some(g)
    ensures id in s && g.id == id && g.worker == req.worker && g.expires == req.now + req.leaseMs
    ensures g.token == g.attempt == s[id].attempt + 1 && s[id].due == Some(g.due) && g.payload == s[id].payload
  {
    assert id in s ==> ValidRow(s[id]);
    if id in s {
      var one := GrantRow(id, s[id], req);
      if one.Ok? {
        OneGrant(one.value.1, id);
      }
    }
  }

  /** So does a sweep. */
  lemma SweepGrantsAsAsked(s: Store, id: string, req: Request, g: Grant)
    requires GrantFor(Grants(s, OpClaimDue(req)), id) == Some(g)
    ensures id in s && g.id == id && g.worker == req.worker && g.expires == req.now + req.leaseMs
    ensures g.attempt == s[id].attempt + 1 && s[id].due == Some(g.due) && g.payload == s[id].payload
  {
    if DoClaimDue(s, req).Ok? {
      var c := Candidates(s, req);
      CandidatesMean(s, req);
      hide Candidates, DueQueue, Claimable, GrantAll, GrantRow, Earlier, Queued;
      GrantAllMeans(s, c, req);
      GrantAllIds(s, c, req);
      var (t, grants) := DoClaimDue(s, req).value;
      GrantForAt(grants, id);
      var i :| 0 <= i < |c| && c[i] == id;
      assert GrantIds(grants)[i] == c[i];
      assert GrantRow(c[i], s[c[i]], req) == Ok((t[c[i]], grants[i]));
      RowGrantAsAsked(id, s[id], req, t[id], grants[i]);
    }
  }

  lemma RowGrantAsAsked(id: string, r: Row, req: Request, t: Row, g: Grant)
    requires GrantRow(id, r, req) == Ok((t, g))
    ensures g.id == id && g.worker == req.worker && g.expires == req.now + req.leaseMs
    ensures g.attempt == r.attempt + 1 && r.due == Some(g.due) && g.payload == r.payload
  {
  }

  /** The worker holds what it was granted, up to and not at the expiry. */
  lemma GrantedHolds(s: Store, id: string, req: Request, g: Grant, u: Store, at: nat)
    requires GrantFor(Grants(s, OpClaimItem(id, req)), id) == Some(g)
    requires SameRow(Next(s, OpClaimItem(id, req)), u, id)
    ensures Holding(u, Handle(id, req.worker, g.token), at) <==> at < req.now + req.leaseMs
  {
    if id in s {
      var one := GrantRow(id, s[id], req);
      if one.Ok? {
        OneGrant(one.value.1, id);
      }
    }
  }

  /** And for the new time after a renewal. */
  lemma RenewedHolds(s: Store, h: Handle, leaseMs: u64, now: u64, t: Store, expires: nat, u: Store, at: nat)
    requires DoRenew(s, h, leaseMs, now) == Ok((t, Renewed(expires))) && SameRow(t, u, h.id)
    ensures expires == now + leaseMs && (Holding(u, h, at) <==> at < now + leaseMs)
  {
  }

  // ----- After a yield -----

  /** An item yielded to an instant is claimable from that instant on, and not before; the
      claim is then granted with the payload it had. */
  lemma YieldedIsDueAgain(s: Store, h: Handle, d: u64, now: u64, t: Store, u: Store, req: Request)
    requires ValidStore(s) && DoRelease(s, h, Yield(d), now) == Ok((t, Settled))
    requires SameRow(t, u, h.id)
    ensures forall at: nat :: Claimable(u[h.id], at) <==> at >= d
    ensures req.now < d ==> DoClaimItem(u, h.id, req) == Ok((u, NotDue(d)))
    ensures req.now >= d && Fits(u[h.id], req) ==>
      exists g: Grant :: GrantFor(Grants(u, OpClaimItem(h.id, req)), h.id) == Some(g) && g.due == d && g.payload == s[h.id].payload
  {
    assert ValidRow(s[h.id]);
    if req.now >= d && Fits(u[h.id], req) {
      var g := GrantRow(h.id, u[h.id], req).value.1;
      OneGrant(g, h.id);
      assert GrantFor(Grants(u, OpClaimItem(h.id, req)), h.id) == Some(g);
    }
  }

  // ----- After a completion -----

  /** Nothing is due and nobody holds it. */
  predicate Idle(r: Row) {
    r.due == None && r.lease == None
  }

  /** A completed item is claimable at no instant, and says so. */
  lemma CompletedIsNeverDue(s: Store, h: Handle, now: u64, t: Store, u: Store, req: Request, at: nat)
    requires DoRelease(s, h, Complete, now) == Ok((t, Settled)) && SameRow(t, u, h.id)
    ensures Idle(u[h.id]) && u[h.id].settledAt == Some(now) && !Claimable(u[h.id], at)
    ensures DoClaimItem(u, h.id, req) == Ok((u, ItemSettled))
  {
  }

  predicate NoWake(ops: seq<Op>, id: string) {
    forall i :: 0 <= i < |ops| ==> !(ops[i].OpWake? && ops[i].wake.id == id)
  }

  /** Absent or idle, an item is granted to nobody and stays so without a wake. */
  predicate Dormant(s: Store, id: string) {
    id in s ==> Idle(s[id])
  }

  lemma DormantStep(s: Store, op: Op, id: string)
    requires Dormant(s, id) && !(op.OpWake? && op.wake.id == id)
    ensures Dormant(Next(s, op), id) && GrantFor(Grants(s, op), id) == None
  {
    GrantsAreOfRows(s, op, id);
    RowsComeAndGo(s, op, id);
    if id in s && id in Next(s, op) {
      EveryStep(s, op, id);
    }
    hide Next, Grants, Settles;
  }

  lemma {:induction false} DormantMintsNothing(s: Store, ops: seq<Op>, id: string)
    requires Dormant(s, id) && NoWake(ops, id)
    ensures Minted(s, ops, id) == [] && Dormant(RunTo(s, ops), id)
    decreases |ops|
  {
    hide Next, Grants, Dormant;
    if ops != [] {
      DormantStep(s, ops[0], id);
      DormantMintsNothing(Next(s, ops[0]), ops[1..], id);
    }
  }

  /** Whatever else happens after a completion, purges included, the item is granted to
      nobody until it is woken. */
  lemma CompletedUntilWoken(s: Store, h: Handle, now: u64, t: Store, ops: seq<Op>)
    requires DoRelease(s, h, Complete, now) == Ok((t, Settled)) && NoWake(ops, h.id)
    ensures Minted(t, ops, h.id) == []
  {
    assert Dormant(t, h.id);
    DormantMintsNothing(t, ops, h.id);
  }

  // ----- After a wake -----

  /** A wake that registers or reschedules makes the item claimable from its instant on,
      once no lease is in force, and the next grant carries its payload. */
  lemma WokenIsDue(s: Store, w: Wake, now: u64, t: Store, o: WakeOutcome, u: Store, req: Request)
    requires DoWake(s, w, now) == Ok((t, o)) && (o.Registered? || o.Rescheduled?) && SameRow(t, u, w.id)
    ensures forall at: nat :: Claimable(u[w.id], at) <==> at >= w.due && HeldBy(u[w.id], at).None?
    ensures HeldBy(u[w.id], req.now).None? && req.now < w.due ==> DoClaimItem(u, w.id, req) == Ok((u, NotDue(w.due)))
    ensures HeldBy(u[w.id], req.now).None? && req.now >= w.due && Fits(u[w.id], req) && u[w.id].attempt < I64_MAX ==>
      exists g: Grant :: GrantFor(Grants(u, OpClaimItem(w.id, req)), w.id) == Some(g) && g.due == w.due && g.payload == w.payload
  {
    var row := u[w.id];
    assert row.due == Some(w.due) && row.payload == w.payload;
    if HeldBy(row, req.now).None? && req.now >= w.due && Fits(row, req) && row.attempt < I64_MAX {
      var g := GrantRow(w.id, row, req).value.1;
      OneGrant(g, w.id);
      assert GrantFor(Grants(u, OpClaimItem(w.id, req)), w.id) == Some(g);
    }
  }

  /** Which answer a wake gets: registered exactly when the item is new; held exactly while
      a lease is in force; unchanged exactly when it asks for what is there. */
  lemma WakeAnswers(s: Store, w: Wake, now: u64, t: Store, o: WakeOutcome)
    requires DoWake(s, w, now) == Ok((t, o))
    ensures o.Registered? <==> w.id !in s
    ensures o.WakeHeld? <==> w.id in s && HeldBy(s[w.id], now).Some?
    ensures o.Unchanged? <==>
      w.id in s && HeldBy(s[w.id], now).None? && s[w.id].due == Some(w.due) && s[w.id].payload == w.payload
    ensures o.WakeHeld? || o.Unchanged? ==> t == s
    ensures forall id :: id != w.id ==> (id in t <==> id in s) && (id in s ==> t[id] == s[id])
  {
  }

  // ----- After a purge -----

  /** A purge removes exactly the idle items that settled at or before the cutoff, leaves
      every other row as it was, and answers how many it removed. */
  lemma PurgeExactly(s: Store, before: u64, t: Store, n: nat)
    requires DoPurge(s, before) == Ok((t, n))
    ensures forall id ::
      id in t <==> id in s && !(Idle(s[id]) && s[id].settledAt.Some? && s[id].settledAt.value <= before)
    ensures forall id :: id in t ==> t[id] == s[id]
    ensures n + |t| == |s|
  {
    var gone := set id | id in s && Purgeable(s[id], before);
    assert t == s - gone;
    assert t.Keys == s.Keys - gone && gone <= s.Keys;
    assert |s.Keys| == |s| && |t.Keys| == |t|;
  }

  /** A completed item goes with the first purge whose cutoff reaches its completion. */
  lemma CompletedIsPurged(s: Store, h: Handle, now: u64, t: Store, u: Store, before: u64)
    requires DoRelease(s, h, Complete, now) == Ok((t, Settled)) && SameRow(t, u, h.id) && before <= I64_MAX
    ensures h.id in Next(u, OpPurge(before)) <==> before < now
  {
  }
}
