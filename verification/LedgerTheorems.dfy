/** What the ledger promises: isolation and budgets over every run, and rollback
    as the exact inverse of apply, with a frame. */
module LedgerTheorems {
  import opened Text
  import opened Harness
  import opened Ledger

  // ----- A record of edits, independent of how it was produced -----

  /** The map after replaying the recorded edits. */
  ghost function Replay(m: Entries, applied: seq<AppliedEdit>): Entries {
    if applied == [] then m else
      var last := |applied| - 1;
      Put(Replay(m, applied[..last]), applied[last].entryId, applied[last].after)
  }

  /** Every record's `before` is what its entry was when the edit ran. */
  ghost predicate Recorded(m: Entries, applied: seq<AppliedEdit>) {
    applied == [] ||
    var last := |applied| - 1;
    && Recorded(m, applied[..last])
    && applied[last].before == Lookup(Replay(m, applied[..last]), applied[last].entryId)
    && (applied[last].before.Some? || applied[last].after.Some?)
  }

  ghost function Touched(applied: seq<AppliedEdit>): set<string> {
    set i | 0 <= i < |applied| :: applied[i].entryId
  }

  ghost predicate Agree(u: Entries, t: Entries, ids: set<string>) {
    forall id :: id in ids ==> Lookup(u, id) == Lookup(t, id)
  }

  /** `u` with the given entries set back to what they are in `s`. */
  ghost function Restore(u: Entries, s: Entries, ids: set<string>): Entries {
    map id | id in u.Keys + s.Keys && id in (if id in ids then s else u) :: if id in ids then s[id] else u[id]
  }

  lemma RestoreAt(u: Entries, s: Entries, ids: set<string>, id: string)
    ensures Lookup(Restore(u, s, ids), id) == if id in ids then Lookup(s, id) else Lookup(u, id)
  {
  }

  lemma SameLookups(a: Entries, b: Entries)
    requires forall id :: Lookup(a, id) == Lookup(b, id)
    ensures a == b
  {
    assert forall id :: id in a <==> Lookup(a, id).Some?;
    assert forall id :: id in b <==> Lookup(b, id).Some?;
    assert forall id :: id in a ==> a[id] == Lookup(a, id).value == Lookup(b, id).value;
  }

  lemma TouchedSplit(applied: seq<AppliedEdit>)
    requires applied != []
    ensures Touched(applied) == Touched(applied[..|applied| - 1]) + {applied[|applied| - 1].entryId}
  {
  }

  lemma {:induction false} ReplayFrame(m: Entries, applied: seq<AppliedEdit>, id: string)
    requires id !in Touched(applied)
    ensures Lookup(Replay(m, applied), id) == Lookup(m, id)
  {
    if applied != [] {
      TouchedSplit(applied);
      ReplayFrame(m, applied[..|applied| - 1], id);
    }
  }

  // ----- Rollback is the inverse, with a frame -----

  /** The reverse walk succeeds exactly on the maps that agree with the recorded
      result on the touched entries; it then restores those entries and nothing
      else. Several edits of one entry need no special treatment. */
  lemma {:induction false} UnwindInverts(m: Entries, applied: seq<AppliedEdit>, u: Entries)
    requires Recorded(m, applied)
    ensures Unwind(u, applied).Ok? <==> Agree(u, Replay(m, applied), Touched(applied))
    ensures Unwind(u, applied).Ok? ==> Unwind(u, applied).value == Restore(u, m, Touched(applied))
    ensures Unwind(u, applied).Err? ==> Unwind(u, applied).error.ChangedSince?
    decreases |applied|
  {
    if applied == [] {
      forall id { RestoreAt(u, m, {}, id); }
      SameLookups(u, Restore(u, m, {}));
      assert Touched(applied) == {};
    } else {
      var last := |applied| - 1;
      var prefix, edit := applied[..last], applied[last];
      var mid, t := Replay(m, prefix), Replay(m, applied);
      TouchedSplit(applied);
      assert Lookup(t, edit.entryId) == edit.after;
      assert UndoEdit(u, edit).Ok? <==> Lookup(u, edit.entryId) == edit.after;
      if UndoEdit(u, edit).Ok? {
        var v := Put(u, edit.entryId, edit.before);
        UnwindInverts(m, prefix, v);
        AgreeBack(mid, t, u, v, edit, Touched(prefix));
        if Agree(v, mid, Touched(prefix)) {
          RestoreBack(m, u, v, prefix, edit);
        }
      }
    }
  }

  lemma AgreeBack(mid: Entries, t: Entries, u: Entries, v: Entries, edit: AppliedEdit, ids: set<string>)
    requires t == Put(mid, edit.entryId, edit.after) && v == Put(u, edit.entryId, edit.before)
    requires edit.before == Lookup(mid, edit.entryId) && Lookup(u, edit.entryId) == edit.after
    ensures Agree(v, mid, ids) <==> Agree(u, t, ids + {edit.entryId})
  {
    forall id
      ensures id != edit.entryId ==> Lookup(v, id) == Lookup(u, id) && Lookup(t, id) == Lookup(mid, id)
    {
    }
    assert Lookup(v, edit.entryId) == Lookup(mid, edit.entryId);
    assert Lookup(u, edit.entryId) == Lookup(t, edit.entryId);
  }

  lemma RestoreBack(m: Entries, u: Entries, v: Entries, prefix: seq<AppliedEdit>, edit: AppliedEdit)
    requires v == Put(u, edit.entryId, edit.before)
    requires edit.before == Lookup(Replay(m, prefix), edit.entryId)
    ensures Restore(v, m, Touched(prefix)) == Restore(u, m, Touched(prefix) + {edit.entryId})
  {
    var a, b := Restore(v, m, Touched(prefix)), Restore(u, m, Touched(prefix) + {edit.entryId});
    forall id ensures Lookup(a, id) == Lookup(b, id) {
      RestoreAt(v, m, Touched(prefix), id);
      RestoreAt(u, m, Touched(prefix) + {edit.entryId}, id);
      if id == edit.entryId && id !in Touched(prefix) {
        ReplayFrame(m, prefix, id);
      }
    }
    SameLookups(a, b);
  }

  // ----- The edit loop -----

  ghost predicate Sound(m: Entries) {
    FitsBudgets(m) && EntriesFiled(m)
  }

  /** The record of an accepted edit: what it found and what it left, in a form
      the event accepts. */
  ghost predicate Faithful(m: Entries, action: Action, index: nat, r: Result<Outcome, Error>) {
    r.Ok? ==>
      && r.value.before == Lookup(m, r.value.id)
      && (r.value.before.Some? || r.value.after.Some?)
      && ValidateApplied(AppliedEdit(index, r.value.id, action, r.value.before, r.value.after)).Ok?
  }

  lemma FaithfulRecord(m: Entries, index: nat, a: AppliedEdit)
    requires IsEntryId(a.entryId) && a.before == Lookup(m, a.entryId) && EntriesFiled(m)
    requires a.after.Some? ==> ValidateEntry(a.after.value).Ok? && a.after.value.id == a.entryId
    requires a.before.Some? == !a.action.Create? && a.after.Some? == !a.action.Delete?
    ensures ValidateApplied(a).Ok?
  {
    assert a.before.Some? ==> EntryFiled(m, a.entryId);
  }

  lemma ValidEntryHasId(e: Entry)
    requires ValidateEntry(e).Ok?
    ensures IsEntryId(e.id)
  {
  }

  lemma CreateIsSound(m: Entries, id: string, entry: Entry, index: nat)
    requires Sound(m) && entry.id == id
    ensures Sound(AfterEdit(m, CreateResult(m, id, entry)))
    ensures Faithful(m, Create, index, CreateResult(m, id, entry))
  {
    if CreateResult(m, id, entry).Ok? {
      PutIsSound(m, id, Some(entry));
      ValidEntryHasId(entry);
      FaithfulRecord(m, index, AppliedEdit(index, id, Create, None, Some(entry)));
    }
  }

  lemma ReplaceIsSound(m: Entries, id: string, updated: Entry, index: nat)
    requires Sound(m) && id in m && updated.id == id
    ensures Sound(AfterEdit(m, ReplaceResult(m, id, updated)))
    ensures Faithful(m, Update, index, ReplaceResult(m, id, updated))
  {
    if ReplaceResult(m, id, updated).Ok? {
      PutIsSound(m, id, Some(updated));
      ValidEntryHasId(updated);
      FaithfulRecord(m, index, AppliedEdit(index, id, Update, Some(m[id]), Some(updated)));
    }
  }

  lemma UpdateIsSound(m: Entries, id: string, e: Edit, source: string, now: u64, index: nat)
    requires Sound(m)
    ensures Sound(AfterEdit(m, UpdateResult(m, id, e, source, now)))
    ensures Faithful(m, Update, index, UpdateResult(m, id, e, source, now))
  {
    if id in m && m[id].version < U64_MAX {
      assert EntryFiled(m, id);
      ReplaceIsSound(m, id, Updated(m[id], e, source, now), index);
    }
  }

  lemma DeleteIsSound(m: Entries, id: string, e: Edit, index: nat)
    requires Sound(m)
    ensures Sound(AfterEdit(m, DeleteResult(m, id, e)))
    ensures Faithful(m, Delete, index, DeleteResult(m, id, e))
  {
    if DeleteResult(m, id, e).Ok? {
      assert EntryFiled(m, id);
      ValidEntryHasId(m[id]);
      PutIsSound(m, id, None);
      FaithfulRecord(m, index, AppliedEdit(index, id, Delete, Some(m[id]), None));
    }
  }

  /** An edit, accepted or refused, keeps the ledger sound; an accepted one is faithfully recorded. */
  lemma EditIsSound(m: Entries, e: Edit, source: string, now: u64, index: nat)
    requires Sound(m)
    ensures Sound(AfterEdit(m, EditResult(m, e, source, now)))
    ensures Faithful(m, e.action, index, EditResult(m, e, source, now))
  {
    if ValidateEdit(e).Ok? && EntryIdOf(e).Ok? {
      var id := EntryIdOf(e).value;
      match e.action {
        case Create => CreateIsSound(m, id, Created(id, e, source, now), index);
        case Update => UpdateIsSound(m, id, e, source, now, index);
        case Delete => DeleteIsSound(m, id, e, index);
      }
    }
  }

  lemma PutIsSound(m: Entries, id: string, e: Option<Entry>)
    requires Sound(m)
    requires e.Some? ==> ValidateEntry(e.value).Ok? && e.value.id == id && FitsBudgets(m[id := e.value])
    ensures Sound(Put(m, id, e))
  {
    if e.None? {
      RemoveKeepsBudgets(m, id);
    }
    forall k | k in Put(m, id, e)
      ensures EntryFiled(Put(m, id, e), k)
    {
      assert k != id ==> EntryFiled(m, k);
    }
  }

  ghost predicate Ascending(s: seq<nat>) {
    forall i, j :: 0 <= i < j < |s| ==> s[i] < s[j]
  }

  ghost function AppliedIndexes(a: seq<AppliedEdit>): seq<nat> {
    seq(|a|, i requires 0 <= i < |a| => a[i].index)
  }

  ghost function RejectedIndexes(a: seq<RejectedEdit>): seq<nat> {
    seq(|a|, i requires 0 <= i < |a| => a[i].index)
  }

  /** Applied and rejected edits split the proposal's positions between them, each in order. */
  ghost predicate Partition(n: nat, a: seq<nat>, b: seq<nat>) {
    && Ascending(a) && Ascending(b) && |a| + |b| == n
    && (forall i :: 0 <= i < |a| ==> a[i] < n) && (forall i :: 0 <= i < |b| ==> b[i] < n)
    && (forall i :: i in a ==> i !in b)
    && (forall i :: 0 <= i < n ==> i in a || i in b)
  }

  lemma PartitionGrows(n: nat, a: seq<nat>, b: seq<nat>)
    requires Partition(n, a, b)
    ensures Partition(n + 1, a + [n], b) && Partition(n + 1, a, b + [n])
  {
    assert forall i :: i in a + [n] <==> i in a || i == n;
    assert forall i :: i in b + [n] <==> i in b || i == n;
  }

  ghost predicate LoopSound(m: Entries, n: nat, g: Progress) {
    && Sound(g.entries)
    && g.entries == Replay(m, g.applied)
    && Recorded(m, g.applied)
    && AllAccepted(g.applied)
    && Partition(n, AppliedIndexes(g.applied), RejectedIndexes(g.rejected))
  }

  lemma AllAcceptedGrows(applied: seq<AppliedEdit>, a: AppliedEdit)
    requires AllAccepted(applied) && ValidateApplied(a).Ok?
    ensures AllAccepted(applied + [a])
  {
    forall b | b in applied + [a] ensures ValidateApplied(b).Ok? {
      assert b in applied || b == a;
    }
  }

  lemma RecordExtends(m: Entries, applied: seq<AppliedEdit>, a: AppliedEdit)
    requires Recorded(m, applied)
    requires a.before == Lookup(Replay(m, applied), a.entryId) && (a.before.Some? || a.after.Some?)
    ensures Recorded(m, applied + [a])
    ensures Replay(m, applied + [a]) == Put(Replay(m, applied), a.entryId, a.after)
  {
    assert (applied + [a])[..|applied|] == applied;
  }

  lemma AcceptedIsSound(m: Entries, n: nat, p: Progress, action: Action, o: Outcome)
    requires LoopSound(m, n, p)
    requires Sound(AfterEdit(p.entries, Ok(o))) && Faithful(p.entries, action, n, Ok(o))
    ensures var a := AppliedEdit(n, o.id, action, o.before, o.after);
            LoopSound(m, n + 1, Progress(AfterEdit(p.entries, Ok(o)), p.applied + [a], p.rejected))
  {
    var a := AppliedEdit(n, o.id, action, o.before, o.after);
    AppendIsSound(m, n, p, a, AfterEdit(p.entries, Ok(o)));
  }

  lemma AppendIsSound(m: Entries, n: nat, p: Progress, a: AppliedEdit, after: Entries)
    requires LoopSound(m, n, p)
    requires Sound(after) && after == Put(p.entries, a.entryId, a.after) && a.index == n
    requires a.before == Lookup(p.entries, a.entryId) && (a.before.Some? || a.after.Some?)
    requires ValidateApplied(a).Ok?
    ensures LoopSound(m, n + 1, Progress(after, p.applied + [a], p.rejected))
  {
    RecordExtends(m, p.applied, a);
    AllAcceptedGrows(p.applied, a);
    PartitionGrows(n, AppliedIndexes(p.applied), RejectedIndexes(p.rejected));
    assert AppliedIndexes(p.applied + [a]) == AppliedIndexes(p.applied) + [n];
  }

  lemma RefusedIsSound(m: Entries, n: nat, p: Progress, r: RejectedEdit)
    requires LoopSound(m, n, p) && r.index == n
    ensures LoopSound(m, n + 1, Progress(p.entries, p.applied, p.rejected + [r]))
  {
    PartitionGrows(n, AppliedIndexes(p.applied), RejectedIndexes(p.rejected));
    assert RejectedIndexes(p.rejected + [r]) == RejectedIndexes(p.rejected) + [n];
  }

  lemma RecordIsSound(env: Env, m: Entries, n: nat, p: Progress, e: Edit, r: Result<Outcome, Error>)
    requires LoopSound(m, n, p)
    requires Sound(AfterEdit(p.entries, r)) && Faithful(p.entries, e.action, n, r)
    ensures LoopSound(m, n + 1, Record(env, p, n, e, r))
  {
    match r {
      case Ok(o) => AcceptedIsSound(m, n, p, e.action, o);
      case Err(error) => RefusedIsSound(m, n, p, RejectedEdit(n, e.id, env.display(error)));
    }
  }

  /** The whole loop: the ledger stays sound, the record is faithful and acceptable
      to the event, and applied and rejected positions partition the proposal in order. */
  lemma {:induction false} EditLoopIsSound(env: Env, m: Entries, edits: seq<Edit>, source: string, now: u64)
    requires Sound(m)
    ensures LoopSound(m, |edits|, RunEdits(env, m, edits, source, now))
    decreases |edits|
  {
    if edits != [] {
      var last := |edits| - 1;
      EditLoopIsSound(env, m, edits[..last], source, now);
      var p := RunEdits(env, m, edits[..last], source, now);
      EditIsSound(p.entries, edits[last], source, now, last);
      RecordIsSound(env, m, last, p, edits[last], EditResult(p.entries, edits[last], source, now));
    }
  }

  // ----- Isolation -----

  ghost function Fold(m: Entries, edits: seq<Edit>, step: (Entries, Edit) -> Entries): Entries {
    if edits == [] then m else step(Fold(m, edits[..|edits| - 1], step), edits[|edits| - 1])
  }

  ghost function EditStep(source: string, now: u64): (Entries, Edit) -> Entries {
    (m: Entries, e: Edit) => AfterEdit(m, EditResult(m, e, source, now))
  }

  lemma {:induction false} LoopIsFold(env: Env, m: Entries, edits: seq<Edit>, source: string, now: u64)
    ensures RunEdits(env, m, edits, source, now).entries == Fold(m, edits, EditStep(source, now))
    decreases |edits|
  {
    if edits != [] {
      LoopIsFold(env, m, edits[..|edits| - 1], source, now);
    }
  }

  lemma {:induction false} FoldSkips(m: Entries, xs: seq<Edit>, e: Edit, ys: seq<Edit>, step: (Entries, Edit) -> Entries)
    requires step(Fold(m, xs, step), e) == Fold(m, xs, step)
    ensures Fold(m, xs + [e] + ys, step) == Fold(m, xs + ys, step)
    decreases |ys|
  {
    var with, without := xs + [e] + ys, xs + ys;
    if ys == [] {
      assert with[..|with| - 1] == xs && without == xs;
    } else {
      var init := ys[..|ys| - 1];
      FoldSkips(m, xs, e, init, step);
      assert with[..|with| - 1] == xs + [e] + init && without[..|without| - 1] == xs + init;
    }
  }

  /** A refused edit leaves no trace in the map: leaving it out of the proposal
      changes nothing that the other edits do. */
  lemma RejectionIsIsolated(env: Env, m: Entries, xs: seq<Edit>, e: Edit, ys: seq<Edit>, source: string, now: u64)
    requires EditResult(RunEdits(env, m, xs, source, now).entries, e, source, now).Err?
    ensures RunEdits(env, m, xs + [e] + ys, source, now).entries == RunEdits(env, m, xs + ys, source, now).entries
  {
    LoopIsFold(env, m, xs, source, now);
    FoldSkips(m, xs, e, ys, EditStep(source, now));
    LoopIsFold(env, m, xs + [e] + ys, source, now);
    LoopIsFold(env, m, xs + ys, source, now);
  }

  // ----- Apply, exactly -----

  lemma PartitionDistinct(n: nat, applied: seq<AppliedEdit>, rejected: seq<RejectedEdit>)
    requires Partition(n, AppliedIndexes(applied), RejectedIndexes(rejected))
    ensures Distinct(Indexes(applied, rejected))
  {
    var a, b := AppliedIndexes(applied), RejectedIndexes(rejected);
    var all := Indexes(applied, rejected);
    assert all == a + b;
    forall i, j | 0 <= i < j < |all|
      ensures all[i] != all[j]
    {
      if i < |a| <= j {
        assert all[i] in a && all[j] == b[j - |a|] && b[j - |a|] in b;
      }
    }
  }

  lemma EventEditsValid(n: nat, applied: seq<AppliedEdit>, rejected: seq<RejectedEdit>)
    requires Partition(n, AppliedIndexes(applied), RejectedIndexes(rejected)) && 1 <= n <= MAX_REFINEMENT_EDITS
    requires AllAccepted(applied)
    ensures GoodEdits(applied, rejected) <==> RefusalsFit(rejected)
  {
    hide AllAccepted, RefusalsFit, Distinct, Indexes;
    PartitionDistinct(n, applied, rejected);
    assert |applied| + |rejected| == n;
  }

  lemma ProposalTexts(p: Proposal)
    requires ValidateProposal(p).Ok?
    ensures GoodText(p.summary, MAX_REFINEMENT_TEXT_BYTES, true)
    ensures GoodText(p.rationale, MAX_REFINEMENT_TEXT_BYTES, true)
    ensures GoodText(p.expectedOutcome, MAX_REFINEMENT_TEXT_BYTES, true)
    ensures 1 <= |p.edits| <= MAX_REFINEMENT_EDITS
  {
    hide GoodText, ValidateEdit;
  }

  /** What a committed application is. */
  ghost predicate Commits(env: Env, s: State, p: Proposal, g: Progress, evidence: seq<EvidenceRef>, now: u64,
                          t: State, e: Event)
  {
    && t == s.(revision := t.revision, entries := g.entries) && t.revision == s.revision + 1 && ValidState(t)
    && e.body == ApplyDraft(s, p, g, evidence, now).(resulting := t.revision)
    && e.id == env.digest(e.body) && GoodBody(e.body)
  }

  lemma FinishApplyExactly(env: Env, s: State, p: Proposal, g: Progress, evidence: seq<EvidenceRef>, now: u64,
                           r: Result<(State, Event), Error>)
    requires ValidState(s) && ValidateProposal(p).Ok? && Sound(g.entries)
    requires GoodEdits(g.applied, g.rejected) <==> RefusalsFit(g.rejected)
    requires r == FinishApply(env, s, p, g, evidence, now)
    ensures r.Ok? <==> s.revision < U64_MAX && |evidence| <= MAX_EVIDENCE_REFS && RefusalsFit(g.rejected)
    ensures r.Ok? ==> Commits(env, s, p, g, evidence, now, r.value.0, r.value.1)
  {
    hide ValidateProposal, ValidateScope, ValidateState, GoodEdits, RefusalsFit, FitsBudgets, EntriesFiled, BuildEvent,
         GoodText;
    ProposalTexts(p);
  }

  /** From a valid ledger, `apply` succeeds exactly when its inputs validate, the
      revision can advance, and every refusal text fits its bound; the closing
      validation can never be the reason it fails. */
  lemma ApplyExactly(env: Env, s: State, p: Proposal, source: string, evidence: seq<EvidenceRef>, now: u64,
                     g: Progress, r: Result<(State, Event), Error>)
    requires ValidState(s)
    requires g == RunEdits(env, s.entries, p.edits, source, now) && r == Apply(env, s, p, source, evidence, now)
    ensures r.Ok? <==>
              && ValidateProposal(p).Ok? && GoodText(source, MAX_ENTRY_SOURCE_BYTES, true)
              && s.revision < U64_MAX && |evidence| <= MAX_EVIDENCE_REFS && RefusalsFit(g.rejected)
    ensures r.Ok? ==> Commits(env, s, p, g, evidence, now, r.value.0, r.value.1)
    ensures LoopSound(s.entries, |p.edits|, g)
  {
    hide ValidateProposal, FinishApply, RunEdits, GoodText, GoodEdits, RefusalsFit, AllAccepted, ValidState, Sound,
         Partition, Recorded, Replay, Commits;
    ValidParts(s);
    EditLoopIsSound(env, s.entries, p.edits, source, now);
    if ValidateProposal(p).Ok? {
      ProposalTexts(p);
      EventEditsValid(|p.edits|, g.applied, g.rejected);
      if GoodText(source, MAX_ENTRY_SOURCE_BYTES, true) {
        FinishApplyExactly(env, s, p, g, evidence, now, r);
      }
    }
  }

  lemma ValidParts(s: State)
    ensures ValidState(s) <==> s.schema == STATE_SCHEMA_VERSION && ValidateScope(s.scope).Ok? && Sound(s.entries)
    ensures Sound(s.entries) <==> FitsBudgets(s.entries) && EntriesFiled(s.entries)
  {
    hide FitsBudgets, EntriesFiled, ValidateScope;
  }

  // ----- Rollback of an applied event, exactly -----

  lemma PlainText(s: string)
    requires s != "" && !IsWhitespace(s[0]) && '<' !in s && |s| <= 100
    ensures GoodText(s, MAX_REFINEMENT_TEXT_BYTES, true)
    ensures GoodText(s, MAX_EVIDENCE_IDENTITY_BYTES, false)
  {
    Utf8LenBound(s);
    MissingChar(s, BEGIN, 0);
    MissingChar(s, END, 0);
  }

  lemma ShaHasNoBracket(id: string)
    requires IsSha256Id(id)
    ensures '<' !in id && id[0] == 's'
  {
    forall i | 0 <= i < 71 ensures id[i] != '<' {
      if i < 7 { assert id[i] == id[..7][i]; }
    }
    assert id[0] == id[..7][0];
  }

  lemma OutcomeText()
    ensures GoodText(ROLLBACK_OUTCOME, MAX_REFINEMENT_TEXT_BYTES, true)
  {
    hide Contains, Utf8Len;
    var a, b := "restore the exact ", "pre-refinement harness entries";
    assert a[0] == 'r' && '<' !in a && |a| == 18;
    assert '<' !in b && |b| == 30;
    PlainText(a + b);
  }

  lemma RollbackTexts(id: string)
    requires IsSha256Id(id)
    ensures GoodText("rollback of refinement " + id[..15], MAX_REFINEMENT_TEXT_BYTES, true)
    ensures GoodText(ROLLBACK_OUTCOME, MAX_REFINEMENT_TEXT_BYTES, true)
    ensures !Blank(id) && Utf8Len(id) <= MAX_EVIDENCE_IDENTITY_BYTES
  {
    hide Contains, Utf8Len;
    ShaHasNoBracket(id);
    PlainText(id);
    var prefix := "rollback of refinement ";
    assert prefix[0] == 'r' && '<' !in prefix && |prefix| == 23;
    assert |id| == 71;
    PlainText(prefix + id[..15]);
    OutcomeText();
  }

  lemma FlipValid(a: AppliedEdit)
    requires ValidateApplied(a).Ok?
    ensures ValidateApplied(Flip(a)).Ok?
  {
    hide ValidateEntryId, ValidateSnapshot;
  }

  lemma InvertAccepted(applied: seq<AppliedEdit>)
    requires AllAccepted(applied)
    ensures AllAccepted(Invert(applied))
  {
    hide ValidateApplied, Invert;
    var inv := Invert(applied);
    forall a | a in inv ensures ValidateApplied(a).Ok? {
      var i :| 0 <= i < |inv| && inv[i] == a;
      FlipValid(applied[|applied| - 1 - i]);
    }
  }

  lemma InvertDistinct(applied: seq<AppliedEdit>)
    requires Distinct(AppliedIndexes(applied))
    ensures Distinct(Indexes(Invert(applied), []))
  {
    hide Invert, Distinct;
    ReversedDistinct(AppliedIndexes(applied), Indexes(Invert(applied), []));
  }

  lemma InvertValid(applied: seq<AppliedEdit>)
    requires AllAccepted(applied) && |applied| <= MAX_REFINEMENT_EDITS && Distinct(AppliedIndexes(applied))
    ensures GoodEdits(Invert(applied), []) <==> applied != []
  {
    hide AllAccepted, Invert, Distinct, Indexes;
    InvertAccepted(applied);
    InvertDistinct(applied);
  }

  lemma ReversedDistinct(a: seq<nat>, b: seq<nat>)
    requires Distinct(a) && |a| == |b| && forall i :: 0 <= i < |b| ==> b[i] == a[|a| - 1 - i]
    ensures Distinct(b)
  {
  }

  lemma RollbackHeaderValid(s: State, e: Event, reason: string, inverted: seq<AppliedEdit>, evidence: EvidenceRef, now: u64)
    requires ValidateScope(s.scope).Ok? && IsSha256Id(e.id) && s.revision < U64_MAX
    requires GoodText(reason, MAX_REFINEMENT_TEXT_BYTES, true)
    ensures GoodHeader(RollbackDraft(s, e, reason, inverted, evidence, now).(resulting := s.revision + 1))
  {
    hide GoodText, ValidateScope;
    RollbackTexts(e.id);
    assert |e.id| == 71;
  }

  /** What a committed rollback is: the given entries, one revision on. */
  ghost predicate RollsBackTo(r: Result<(State, Event), Error>, u: State, entries: Entries) {
    r.Ok? && r.value.0 == u.(revision := r.value.0.revision, entries := entries)
    && r.value.0.revision == u.revision + 1 && ValidState(r.value.0)
  }

  lemma FinishRollbackExactly(env: Env, s: State, e: Event, reason: string, entries: Entries,
                              inverted: seq<AppliedEdit>, now: u64, r: Result<(State, Event), Error>)
    requires s.schema == STATE_SCHEMA_VERSION && ValidateScope(s.scope).Ok? && IsSha256Id(e.id)
    requires GoodText(reason, MAX_REFINEMENT_TEXT_BYTES, true)
    requires r == FinishRollback(env, s, e, reason, entries, inverted, now)
    ensures r.Ok? <==> s.revision < U64_MAX && GoodEdits(inverted, []) && Sound(entries)
    ensures r.Ok? ==> RollsBackTo(r, s, entries)
  {
    hide GoodHeader, GoodEdits, ValidateScope, FitsBudgets, EntriesFiled, BuildEvent, ValidateState, GoodText, Blank,
         Utf8Len, IsSha256Id;
    RollbackTexts(e.id);
    if s.revision < U64_MAX {
      RollbackHeaderValid(s, e, reason, inverted, EvidenceRef(Refinement, e.id, None), now);
    }
  }

  lemma RestoreFiled(u: Entries, s: Entries, ids: set<string>)
    requires EntriesFiled(u) && EntriesFiled(s)
    ensures EntriesFiled(Restore(u, s, ids))
  {
    hide ValidateEntry;
    var r := Restore(u, s, ids);
    forall k | k in r ensures EntryFiled(r, k) {
      if k in ids { assert EntryFiled(s, k); } else { assert EntryFiled(u, k); }
    }
  }

  /** Rolling `e` back on `u`, where `s` and `t` are the entries before and after `e`. */
  ghost predicate ExactRollback(r: Result<(State, Event), Error>, s: Entries, t: Entries, e: Event, u: State, asked: bool) {
    var ids := Touched(e.body.applied);
    var restored := Restore(u.entries, s, ids);
    var agrees := Agree(u.entries, t, ids);
    && (r.Ok? <==> asked && agrees && e.body.applied != [] && u.revision < U64_MAX && FitsBudgets(restored))
    && (r.Ok? ==> RollsBackTo(r, u, restored))
    && (asked && !agrees ==> r.Err? && r.error.ChangedSince?)
  }

  ghost predicate Asked(u: State, e: Event, reason: string) {
    GoodText(reason, MAX_REFINEMENT_TEXT_BYTES, true) && u.scope == e.body.scope
  }

  lemma EventParts(e: Event)
    requires GoodBody(e.body)
    ensures AllAccepted(e.body.applied) && |e.body.applied| <= MAX_REFINEMENT_EDITS && ValidateScope(e.body.scope).Ok?
  {
    hide GoodText, AllAccepted, ValidateScope, RefusalsFit, Distinct, Indexes, IsSha256Id;
  }

  /** Rollback of any event that is well formed and faithfully recorded from `s`. */
  lemma RollbackOfRecord(env: Env, s: Entries, e: Event, u: State, reason: string, now: u64)
    requires EntriesFiled(s) && Recorded(s, e.body.applied) && Distinct(AppliedIndexes(e.body.applied))
    requires GoodBody(e.body) && e.id == env.digest(e.body) && IsSha256Id(e.id) && e.body.kind == Applied
    requires ValidState(u)
    ensures ExactRollback(RollbackEvent(env, u, e, reason, now), s, Replay(s, e.body.applied), e, u, Asked(u, e, reason))
  {
    hide GoodText, ValidateScope, FitsBudgets, EntriesFiled, Recorded, Restore, Replay, Touched, Agree, ValidateEvent,
         FinishRollback, Unwind, Invert, Distinct, CheckRollback, ValidState, GoodBody, AppliedIndexes, Sound, GoodEdits,
         RollsBackTo, IsSha256Id, AllAccepted;
    var applied := e.body.applied;
    var restored := Restore(u.entries, s, Touched(applied));
    ValidParts(u);
    ValidParts(u.(entries := restored));
    EventParts(e);
    UnwindInverts(s, applied, u.entries);
    RestoreFiled(u.entries, s, Touched(applied));
    InvertValid(applied);
    if CheckRollback(env, u, e, reason).Ok? && Unwind(u.entries, applied).Ok? {
      FinishRollbackExactly(env, u, e, reason, restored, Invert(applied), now, RollbackEvent(env, u, e, reason, now));
    }
  }

  /** Rollback inverts apply, with a frame. Take any valid ledger `u`, however it
      came about: rolling the event back succeeds exactly when `u` still agrees
      with the applied result on the entries the event touched (and the restored
      map fits the budgets); it then sets exactly those entries back to what they
      were before the event. Any other `u` is refused as a conflict. */
  lemma RollbackInvertsApply(env: Env, s: State, p: Proposal, source: string, evidence: seq<EvidenceRef>,
                             now: u64, t: State, e: Event, u: State, reason: string, later: u64)
    requires ValidState(s) && ValidState(u)
    requires Apply(env, s, p, source, evidence, now) == Ok((t, e)) && IsSha256Id(e.id)
    ensures ExactRollback(RollbackEvent(env, u, e, reason, later), s.entries, t.entries, e, u, Asked(u, e, reason))
  {
    hide ValidState, RollbackEvent, RunEdits, Apply, IsSha256Id, AllAccepted, RefusalsFit, ValidateProposal, GoodBody,
         Sound, AppliedIndexes, RejectedIndexes, Partition, GoodText, ExactRollback, Asked, Recorded, Replay;
    var g := RunEdits(env, s.entries, p.edits, source, now);
    ApplyExactly(env, s, p, source, evidence, now, g, Ok((t, e)));
    ValidParts(s);
    PartitionParts(|p.edits|, AppliedIndexes(g.applied), RejectedIndexes(g.rejected));
    RollbackOfRecord(env, s.entries, e, u, reason, later);
  }

  lemma PartitionParts(n: nat, a: seq<nat>, b: seq<nat>)
    requires Partition(n, a, b)
    ensures Distinct(a)
  {
  }

  lemma RestoreAgrees(u: Entries, s: Entries, applied: seq<AppliedEdit>)
    ensures var t, ids := Replay(s, applied), Touched(applied);
            var v := Restore(u, s, ids);
            && (Agree(v, t, ids) <==> s == t)
            && Restore(v, s, ids) == v
            && Restore(t, s, ids) == s
  {
    var t, ids := Replay(s, applied), Touched(applied);
    var v := Restore(u, s, ids);
    forall id ensures Lookup(v, id) == Lookup(Restore(v, s, ids), id) {
      RestoreAt(v, s, ids, id);
      RestoreAt(u, s, ids, id);
    }
    SameLookups(Restore(v, s, ids), v);
    forall id ensures Lookup(Restore(t, s, ids), id) == Lookup(s, id) {
      RestoreAt(t, s, ids, id);
      if id !in ids { ReplayFrame(s, applied, id); }
    }
    SameLookups(Restore(t, s, ids), s);
    if Agree(v, t, ids) {
      forall id ensures Lookup(s, id) == Lookup(t, id) {
        RestoreAt(u, s, ids, id);
        if id !in ids { ReplayFrame(s, applied, id); }
      }
      SameLookups(s, t);
    }
    forall id | id in ids ensures Lookup(v, id) == Lookup(s, id) {
      RestoreAt(u, s, ids, id);
    }
  }

  lemma AppliedIsReplay(env: Env, s: State, p: Proposal, source: string, evidence: seq<EvidenceRef>, now: u64,
                        t: State, e: Event)
    requires ValidState(s) && Apply(env, s, p, source, evidence, now) == Ok((t, e))
    ensures t.entries == Replay(s.entries, e.body.applied) && t.scope == s.scope == e.body.scope
    ensures ValidState(t) && t.revision == s.revision + 1
    ensures e.body.basedOn == s.revision && e.body.resulting == t.revision && e.id == env.digest(e.body) && GoodBody(e.body)
  {
    hide ValidState, RunEdits, Apply, AllAccepted, RefusalsFit, ValidateProposal, GoodBody, Sound, Partition, GoodText,
         Recorded, Replay;
    ApplyExactly(env, s, p, source, evidence, now, RunEdits(env, s.entries, p.edits, source, now), Ok((t, e)));
  }

  /** Rolling the same event back a second time succeeds exactly when the event
      had no net effect (it created and then deleted an entry, say); then it
      changes no entry. */
  lemma SecondRollback(env: Env, s: State, p: Proposal, source: string, evidence: seq<EvidenceRef>,
                       now: u64, t: State, e: Event, u: State, reason: string, later: u64, v: State, f: Event,
                       again: string, last: u64)
    requires ValidState(s) && ValidState(u)
    requires Apply(env, s, p, source, evidence, now) == Ok((t, e)) && IsSha256Id(e.id)
    requires RollbackEvent(env, u, e, reason, later) == Ok((v, f))
    ensures var r := RollbackEvent(env, v, e, again, last);
            && (r.Ok? <==> s.entries == t.entries && Asked(v, e, again) && v.revision < U64_MAX)
            && (r.Ok? ==> RollsBackTo(r, v, v.entries))
  {
    hide ValidState, RollbackEvent, Apply, IsSha256Id, Asked, Replay, Restore, FitsBudgets, Agree, Touched, EntriesFiled,
         GoodBody;
    AppliedIsReplay(env, s, p, source, evidence, now, t, e);
    RollbackInvertsApply(env, s, p, source, evidence, now, t, e, u, reason, later);
    RollbackInvertsApply(env, s, p, source, evidence, now, t, e, v, again, last);
    RestoreAgrees(u.entries, s.entries, e.body.applied);
    ValidParts(v);
  }

  // ----- Runs -----

  datatype Op =
    | Refine(proposal: Proposal, source: string, evidence: seq<EvidenceRef>, now: u64)
    | Undo(event: Event, reason: string, now: u64)

  ghost function Perform(env: Env, s: State, op: Op): Result<(State, Event), Error> {
    match op
    case Refine(p, source, evidence, now) => Apply(env, s, p, source, evidence, now)
    case Undo(event, reason, now) => RollbackEvent(env, s, event, reason, now)
  }

  /** A ledger and the events committed so far; refused operations commit nothing. */
  datatype History = History(state: State, events: seq<Event>)

  ghost function Run(env: Env, scope: Scope, ops: seq<Op>): History {
    if ops == [] then History(State(STATE_SCHEMA_VERSION, scope, 0, map[]), []) else
      var h := Run(env, scope, ops[..|ops| - 1]);
      match Perform(env, h.state, ops[|ops| - 1])
      case Ok((t, e)) => History(t, h.events + [e])
      case Err(_) => h
  }

  /** One committed operation: a valid ledger one revision on, and a valid event that says so. */
  ghost predicate Advances(env: Env, s: State, t: State, e: Event) {
    && ValidState(t) && t.scope == s.scope && t.revision == s.revision + 1
    && e.body.basedOn == s.revision && e.body.resulting == t.revision && e.id == env.digest(e.body) && GoodBody(e.body)
  }

  lemma FinishAdvances(env: Env, s: State, e: Event, reason: string, entries: Entries,
                       inverted: seq<AppliedEdit>, now: u64, t: State, f: Event)
    requires FinishRollback(env, s, e, reason, entries, inverted, now) == Ok((t, f))
    ensures Advances(env, s, t, f)
  {
    hide ValidState, GoodBody, Blank, Utf8Len, ValidateState, BuildEvent;
  }

  lemma RollbackAdvances(env: Env, s: State, e: Event, reason: string, now: u64, t: State, f: Event)
    requires RollbackEvent(env, s, e, reason, now) == Ok((t, f))
    ensures Advances(env, s, t, f)
  {
    hide Unwind, Invert, CheckRollback, FinishRollback, Advances, GoodText, GoodBody;
    FinishAdvances(env, s, e, reason, Unwind(s.entries, e.body.applied).value, Invert(e.body.applied), now, t, f);
  }

  lemma PerformAdvances(env: Env, s: State, op: Op, t: State, e: Event)
    requires ValidState(s) && Perform(env, s, op) == Ok((t, e))
    ensures Advances(env, s, t, e)
  {
    hide ValidState, RollbackEvent, Apply, GoodBody, Replay;
    match op {
      case Refine(p, source, evidence, now) => AppliedIsReplay(env, s, p, source, evidence, now, t, e);
      case Undo(event, reason, now) => RollbackAdvances(env, s, event, reason, now, t, e);
    }
  }

  ghost predicate Linear(env: Env, events: seq<Event>) {
    forall i :: 0 <= i < |events| ==>
      events[i].body.basedOn == i && events[i].body.resulting == i + 1
      && events[i].id == env.digest(events[i].body) && GoodBody(events[i].body)
  }

  lemma EmptyIsValid(scope: Scope)
    requires ValidateScope(scope).Ok?
    ensures ValidState(State(STATE_SCHEMA_VERSION, scope, 0, map[]))
  {
    hide ValidateScope;
    assert TotalText(map[]) == 0;
  }

  /** Every run of applies and rollbacks from an empty ledger, with any proposals
      and any events, keeps the budgets, every entry valid and filed under its own
      ID, and one revision per committed event. */
  lemma {:induction false} RunsStayValid(env: Env, scope: Scope, ops: seq<Op>)
    requires ValidateScope(scope).Ok?
    ensures var h := Run(env, scope, ops);
            ValidState(h.state) && h.state.scope == scope && h.state.revision == |h.events| && Linear(env, h.events)
    decreases |ops|
  {
    hide ValidateScope, Perform, ValidState, GoodBody;
    EmptyIsValid(scope);
    if ops != [] {
      RunsStayValid(env, scope, ops[..|ops| - 1]);
      var h := Run(env, scope, ops[..|ops| - 1]);
      var r := Perform(env, h.state, ops[|ops| - 1]);
      if r.Ok? {
        PerformAdvances(env, h.state, ops[|ops| - 1], r.value.0, r.value.1);
      }
    }
  }

  /** `events` come from committing the proposals `ops` one after another, from `s` to `t`. */
  ghost predicate Commit(env: Env, s: State, ops: seq<Op>, t: State, events: seq<Event>)
    decreases |ops|
  {
    if ops == [] then t == s && events == [] else
      var last := |ops| - 1;
      && |events| == |ops| && ops[last].Refine?
      && exists m: State :: Commit(env, s, ops[..last], m, events[..last])
                            && Perform(env, m, ops[last]) == Ok((t, events[last]))
  }

  /** Rolls back a sequence of events, last first. */
  ghost function UndoAll(env: Env, s: State, events: seq<Event>, reason: string, now: u64): Result<State, Error>
    decreases |events|
  {
    if events == [] then Ok(s) else
      var next :- RollbackEvent(env, s, events[|events| - 1], reason, now);
      UndoAll(env, next.0, events[..|events| - 1], reason, now)
  }

  lemma UndoNewest(env: Env, s: State, op: Op, t: State, e: Event, u: State, reason: string, now: u64)
    requires ValidState(s) && ValidState(u) && op.Refine? && Perform(env, s, op) == Ok((t, e))
    requires u.scope == s.scope && u.entries == t.entries && e.body.applied != [] && IsSha256Id(e.id)
    requires GoodText(reason, MAX_REFINEMENT_TEXT_BYTES, true) && u.revision < U64_MAX
    ensures RollsBackTo(RollbackEvent(env, u, e, reason, now), u, s.entries)
  {
    hide GoodText, FitsBudgets, EntriesFiled, Restore, Replay, Touched, RollbackEvent, Apply, IsSha256Id, ValidState,
         GoodBody, RollsBackTo, Sound;
    ValidParts(s);
    AppliedIsReplay(env, s, op.proposal, op.source, op.evidence, op.now, t, e);
    RollbackInvertsApply(env, s, op.proposal, op.source, op.evidence, op.now, t, e, u, reason, now);
    RestoreAgrees(u.entries, s.entries, e.body.applied);
  }

  lemma {:induction false} CommitValid(env: Env, s: State, ops: seq<Op>, t: State, events: seq<Event>)
    requires ValidState(s) && Commit(env, s, ops, t, events)
    ensures ValidState(t) && t.scope == s.scope
    decreases |ops|
  {
    hide Perform, ValidState, GoodBody;
    if ops != [] {
      var last := |ops| - 1;
      var m: State :| Commit(env, s, ops[..last], m, events[..last]) && Perform(env, m, ops[last]) == Ok((t, events[last]));
      CommitValid(env, s, ops[..last], m, events[..last]);
      PerformAdvances(env, m, ops[last], t, events[last]);
    }
  }

  /** Any number of refinements unwind in reverse order to the entries they started from. */
  lemma {:induction false} HistoryUnwinds(env: Env, s: State, ops: seq<Op>, t: State, events: seq<Event>,
                                          u: State, reason: string, now: u64)
    requires ValidState(s) && ValidState(u) && Commit(env, s, ops, t, events)
    requires u.scope == s.scope && u.entries == t.entries && u.revision + |events| <= U64_MAX
    requires forall e :: e in events ==> e.body.applied != [] && IsSha256Id(e.id)
    requires GoodText(reason, MAX_REFINEMENT_TEXT_BYTES, true)
    ensures var r := UndoAll(env, u, events, reason, now);
            r.Ok? && r.value.entries == s.entries
    decreases |ops|
  {
    hide GoodText, ValidState, RollbackEvent, Perform, IsSha256Id;
    if ops != [] {
      var last := |ops| - 1;
      var m: State :| Commit(env, s, ops[..last], m, events[..last]) && Perform(env, m, ops[last]) == Ok((t, events[last]));
      CommitValid(env, s, ops[..last], m, events[..last]);
      UndoNewest(env, m, ops[last], t, events[last], u, reason, now);
      HistoryUnwinds(env, s, ops[..last], m, events[..last],
                     RollbackEvent(env, u, events[last], reason, now).value.0, reason, now);
    }
  }
}
