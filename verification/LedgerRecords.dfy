/** What the ledger writes: the entry an accepted edit stores, the event an
    application or a rollback records, and what validation accepts, field by field. */
module LedgerRecords {
  import opened Text
  import opened Harness
  import opened Ledger
  import opened LedgerTheorems

  // ----- What validation accepts -----

  predicate GoodSkill(s: SkillContract) {
    && GoodText(s.invocation, MAX_SKILL_INVOCATION_BYTES, true) && |s.arguments| <= MAX_SKILL_ARGUMENTS
    && forall a :: a in s.arguments ==> IsArgumentName(a.0) && GoodText(a.1, MAX_SKILL_ARGUMENT_DOC_BYTES, true)
  }

  /** Every text within its bound and free of markers; a skill contract exactly on skill
      entries; a version of at least one; times in order. */
  predicate GoodEntry(e: Entry) {
    && IsEntryId(e.id) && GoodText(e.title, MAX_ENTRY_TITLE_BYTES, true)
    && GoodText(e.content, MAX_ENTRY_CONTENT_BYTES, true) && GoodText(e.source, MAX_ENTRY_SOURCE_BYTES, true)
    && (e.skill.Some? <==> e.kind.Skill?) && (e.skill.Some? ==> GoodSkill(e.skill.value))
    && e.version >= 1 && e.createdAt <= e.updatedAt
  }

  /** All of an entry's text, run together. */
  function AllText(e: Entry): string {
    e.title + e.content + (if e.skill.Some? then e.skill.value.invocation + ArgumentText(e.skill.value.arguments) else "")
  }

  function ArgumentText(a: seq<(string, string)>): string {
    if a == [] then "" else a[0].0 + a[0].1 + ArgumentText(a[1..])
  }

  lemma {:induction false} ArgumentTextBytes(a: seq<(string, string)>)
    ensures ArgumentBytes(a) == Utf8Len(ArgumentText(a))
  {
    if a != [] {
      hide Utf8Len;
      ArgumentTextBytes(a[1..]);
      Utf8LenConcat(a[0].0, a[0].1);
      Utf8LenConcat(a[0].0 + a[0].1, ArgumentText(a[1..]));
    }
  }

  /** What counts against the text budget is the byte length of all of it. */
  lemma TextBytesAreBytes(e: Entry)
    ensures TextBytes(e) == Utf8Len(AllText(e))
  {
    hide ArgumentText, ArgumentBytes;
    Utf8LenConcat(e.title, e.content);
    if e.skill.Some? {
      var s := e.skill.value;
      ArgumentTextBytes(s.arguments);
      Utf8LenConcat(s.invocation, ArgumentText(s.arguments));
      Utf8LenConcat(e.title + e.content, s.invocation + ArgumentText(s.arguments));
    } else {
      Utf8LenConcat(e.title + e.content, "");
    }
  }

  lemma ScopeIff(s: Scope)
    ensures ValidateScope(s).Ok? <==> (s.Session? ==> GoodText(s.id, MAX_SESSION_SCOPE_ID_BYTES, true))
  {
  }

  /** A record of an applied edit: a snapshot before unless it created, one after unless it
      deleted, both valid and of the entry it names. */
  lemma AppliedIff(a: AppliedEdit)
    ensures ValidateApplied(a).Ok? <==>
      && IsEntryId(a.entryId) && (a.before.None? <==> a.action.Create?) && (a.after.None? <==> a.action.Delete?)
      && (a.before.Some? ==> GoodEntry(a.before.value) && a.before.value.id == a.entryId)
      && (a.after.Some? ==> GoodEntry(a.after.value) && a.after.value.id == a.entryId)
  {
    if a.before.Some? {
      EntryIff(a.before.value);
    }
    if a.after.Some? {
      EntryIff(a.after.value);
    }
    hide ValidateEntry, GoodEntry, IsEntryId;
  }

  lemma SkillIff(s: SkillContract)
    ensures ValidateSkill(s).Ok? <==> GoodSkill(s)
  {
    hide GoodText, IsArgumentName;
    forall a: (string, string)
      ensures ValidateArgument(a).Ok? <==> IsArgumentName(a.0) && GoodText(a.1, MAX_SKILL_ARGUMENT_DOC_BYTES, true)
    {
    }
    hide ValidateArgument;
  }

  lemma EntryIff(e: Entry)
    ensures ValidateEntry(e).Ok? <==> GoodEntry(e)
  {
    hide GoodText, IsEntryId, ValidateSkill, GoodSkill;
    if e.skill.Some? {
      SkillIff(e.skill.value);
    }
  }

  /** A create names its title and content, an update its entry and at least one change, a
      delete its entry and nothing else. */
  predicate GoodEdit(e: Edit) {
    && GoodText(e.reason, MAX_REFINEMENT_TEXT_BYTES, true) && (e.id.Some? ==> IsEntryId(e.id.value))
    && (e.action.Create? ==> e.title.Some? && e.content.Some?)
    && (e.action.Update? ==> e.id.Some? && (e.title.Some? || e.content.Some? || e.skill.Some?))
    && (e.action.Delete? ==> e.id.Some? && e.title.None? && e.content.None? && e.skill.None?)
  }

  lemma EditIff(e: Edit)
    ensures ValidateEdit(e).Ok? <==> GoodEdit(e)
  {
    hide GoodText, IsEntryId;
  }

  lemma ProposalIff(p: Proposal)
    ensures ValidateProposal(p).Ok? <==>
      && GoodText(p.summary, MAX_REFINEMENT_TEXT_BYTES, true) && GoodText(p.rationale, MAX_REFINEMENT_TEXT_BYTES, true)
      && GoodText(p.expectedOutcome, MAX_REFINEMENT_TEXT_BYTES, true)
      && 1 <= |p.edits| <= MAX_REFINEMENT_EDITS && forall e :: e in p.edits ==> GoodEdit(e)
  {
    hide GoodText, ValidateEdit, GoodEdit;
    forall e: Edit ensures ValidateEdit(e).Ok? <==> GoodEdit(e) {
      EditIff(e);
    }
  }

  // ----- What an accepted edit stores -----

  /** The entry a create edit asks for. */
  predicate Asks(e: Edit, id: string, entry: Entry, source: string, now: u64) {
    && entry.id == id && entry.kind == e.kind && e.title == Some(entry.title) && e.content == Some(entry.content)
    && entry.skill == e.skill && entry.source == source && entry.version == 1
    && entry.createdAt == now && entry.updatedAt == now
  }

  /** The entry an update makes of an old one: what the edit gives, and the rest as it was. */
  predicate Revises(e: Edit, old_: Entry, entry: Entry, source: string, now: u64) {
    && entry.id == old_.id && entry.kind == old_.kind && entry.createdAt == old_.createdAt
    && (if e.title.Some? then e.title == Some(entry.title) else entry.title == old_.title)
    && (if e.content.Some? then e.content == Some(entry.content) else entry.content == old_.content)
    && (if e.skill.Some? then entry.skill == e.skill else entry.skill == old_.skill)
    && entry.source == source && entry.version == old_.version + 1 && entry.updatedAt == now
  }

  /** The edit's kind is the entry's, and so is the version it was planned against. */
  predicate Matches(e: Edit, entry: Entry) {
    entry.kind == e.kind && (e.expectedVersion.Some? ==> e.expectedVersion.value == entry.version)
  }

  /** The id an edit is about: the one it names, or the one its title yields. */
  predicate About(e: Edit, id: string) {
    if e.id.Some? then id == e.id.value else e.title.Some? && DeriveEntryId(e.title.value) == Ok(id)
  }

  lemma AboutIff(e: Edit, id: string)
    ensures EntryIdOf(e) == Ok(id) <==> About(e, id)
  {
    hide DeriveEntryId;
  }

  /** A create is accepted exactly when it is well formed, its id is free, and the entry it
      asks for is valid and within the budgets; that entry is what it stores. */
  lemma CreateExactly(m: Entries, e: Edit, source: string, now: u64, o: Outcome)
    requires e.action.Create?
    ensures EditResult(m, e, source, now) == Ok(o) <==>
      && GoodEdit(e) && About(e, o.id) && o.id !in m && o.before == None && o.after.Some?
      && Asks(e, o.id, o.after.value, source, now) && GoodEntry(o.after.value) && FitsBudgets(m[o.id := o.after.value])
  {
    EditIff(e);
    AboutIff(e, o.id);
    if GoodEdit(e) && About(e, o.id) {
      var entry := Created(o.id, e, source, now);
      EntryIff(entry);
      assert o.after.Some? && Asks(e, o.id, o.after.value, source, now) ==> o.after.value == entry;
    }
    hide ValidateEdit, EntryIdOf, ValidateEntry, GoodEntry, FitsBudgets, About;
  }

  /** An update is accepted exactly when it is well formed, its entry exists, is of its
      kind and at the version it was planned against, and the revised entry is valid and
      within the budgets; that entry is what it stores. */
  lemma UpdateExactly(m: Entries, e: Edit, source: string, now: u64, o: Outcome)
    requires e.action.Update?
    ensures EditResult(m, e, source, now) == Ok(o) <==>
      && GoodEdit(e) && About(e, o.id) && o.id in m && o.before == Some(m[o.id]) && Matches(e, m[o.id])
      && m[o.id].version < U64_MAX && o.after.Some? && Revises(e, m[o.id], o.after.value, source, now)
      && GoodEntry(o.after.value) && FitsBudgets(m[o.id := o.after.value])
  {
    EditIff(e);
    AboutIff(e, o.id);
    if GoodEdit(e) && About(e, o.id) && o.id in m && m[o.id].version < U64_MAX {
      var entry := Updated(m[o.id], e, source, now);
      EntryIff(entry);
      assert o.after.Some? && Revises(e, m[o.id], o.after.value, source, now) ==> o.after.value == entry;
    }
    hide ValidateEdit, EntryIdOf, ValidateEntry, GoodEntry, FitsBudgets, About;
  }

  /** A delete is accepted exactly when it is well formed and its entry exists, is of its
      kind and at the version it was planned against; it leaves nothing. */
  lemma DeleteExactly(m: Entries, e: Edit, source: string, now: u64, o: Outcome)
    requires e.action.Delete?
    ensures EditResult(m, e, source, now) == Ok(o) <==>
      && GoodEdit(e) && About(e, o.id) && o.id in m && o.before == Some(m[o.id]) && Matches(e, m[o.id]) && o.after == None
  {
    EditIff(e);
    AboutIff(e, o.id);
    hide ValidateEdit, EntryIdOf, About;
  }

  /** Why a well-formed edit is refused: an unknown or taken id, another kind, another
      version, the last version, or a budget. */
  lemma RefusedBecause(m: Entries, e: Edit, source: string, now: u64, id: string)
    requires GoodEdit(e) && About(e, id)
    ensures var r := EditResult(m, e, source, now);
      && (e.action.Create? && id in m ==> r == Err(Invalid(AlreadyExists(id))))
      && (!e.action.Create? && id !in m ==> r == Err(Invalid(DoesNotExist(id))))
      && (!e.action.Create? && id in m && m[id].kind != e.kind ==>
            r == Err(Invalid(WrongKind(m[id].id, m[id].kind, e.kind))))
      && (!e.action.Create? && id in m && m[id].kind == e.kind && !Matches(e, m[id]) ==>
            r == Err(Invalid(VersionMoved(m[id].id, e.expectedVersion.value, m[id].version))))
      && (e.action.Update? && id in m && Matches(e, m[id]) && m[id].version == U64_MAX ==> r == Err(RevisionOverflow))
  {
    EditIff(e);
    AboutIff(e, id);
    hide ValidateEdit, EntryIdOf, ValidateEntry, FitsBudgets, About, GoodEdit;
  }

  /** A valid entry is refused only over a budget: the number of entries first, then their
      text. */
  lemma RefusedOverBudget(m: Entries, id: string, entry: Entry)
    requires id !in m && GoodEntry(entry)
    ensures |m[id := entry]| > MAX_ENTRIES_PER_SCOPE ==> CreateResult(m, id, entry) == Err(Invalid(ScopeHasTooManyEntries))
    ensures |m[id := entry]| <= MAX_ENTRIES_PER_SCOPE && TotalText(m[id := entry]) > MAX_SCOPE_CONTENT_BYTES ==>
      CreateResult(m, id, entry) == Err(Invalid(ScopeHasTooMuchText))
  {
    EntryIff(entry);
    hide ValidateEntry, TotalText, GoodEntry;
  }

  // ----- What an application records -----

  /** Every edit leaves its trace: an accepted one what it did, a refused one why. */
  lemma {:induction false} EditIsRecorded(env: Env, m: Entries, edits: seq<Edit>, i: nat, source: string, now: u64)
    requires i < |edits|
    ensures var r := EditResult(RunEdits(env, m, edits[..i], source, now).entries, edits[i], source, now);
      var g := RunEdits(env, m, edits, source, now);
      if r.Ok? then AppliedEdit(i, r.value.id, edits[i].action, r.value.before, r.value.after) in g.applied
      else RejectedEdit(i, edits[i].id, env.display(r.error)) in g.rejected
    decreases |edits|
  {
    hide EditResult, AfterEdit;
    var last := |edits| - 1;
    if i < last {
      assert edits[..last][..i] == edits[..i] && edits[..last][i] == edits[i];
      EditIsRecorded(env, m, edits[..last], i, source, now);
    }
  }

  /** The event says it is an application of this proposal to this ledger, now, and its
      record accounts for every edit; replaying what was applied gives the new entries. */
  lemma ApplyWrites(env: Env, s: State, p: Proposal, source: string, evidence: seq<EvidenceRef>, now: u64, t: State, e: Event)
    requires ValidState(s) && Apply(env, s, p, source, evidence, now) == Ok((t, e))
    ensures e.body.schema == EVENT_SCHEMA_VERSION && e.body.kind == EventKind.Applied && e.id == env.digest(e.body)
    ensures e.body.scope == s.scope == t.scope && e.body.basedOn == s.revision && e.body.resulting == t.revision == s.revision + 1
    ensures e.body.summary == p.summary && e.body.rationale == p.rationale && e.body.expectedOutcome == p.expectedOutcome
    ensures e.body.evidence == evidence && e.body.createdAt == now
    ensures Recorded(s.entries, e.body.applied) && Replay(s.entries, e.body.applied) == t.entries
    ensures |e.body.applied| + |e.body.rejected| == |p.edits|
    ensures forall i :: 0 <= i < |p.edits| ==> Accounted(env, s.entries, p.edits, i, source, now, e.body)
  {
    var g := RunEdits(env, s.entries, p.edits, source, now);
    ApplyExactly(env, s, p, source, evidence, now, g, Ok((t, e)));
    forall i | 0 <= i < |p.edits| ensures Accounted(env, s.entries, p.edits, i, source, now, e.body) {
      EditIsRecorded(env, s.entries, p.edits, i, source, now);
      hide EditResult, RunEdits, Commits, LoopSound, Apply, ValidState;
    }
    hide Apply, RunEdits, ValidState, Sound, Recorded, Replay, AllAccepted, Partition, GoodBody, Accounted;
    PartitionSize(|p.edits|, g);
  }

  lemma PartitionSize(n: nat, g: Progress)
    requires Partition(n, AppliedIndexes(g.applied), RejectedIndexes(g.rejected))
    ensures |g.applied| + |g.rejected| == n
  {
  }

  /** The event's record holds the i-th edit's outcome on the map the edits before it left. */
  ghost predicate Accounted(env: Env, m: Entries, edits: seq<Edit>, i: nat, source: string, now: u64, b: EventBody)
    requires i < |edits|
  {
    var r := EditResult(RunEdits(env, m, edits[..i], source, now).entries, edits[i], source, now);
    if r.Ok? then AppliedEdit(i, r.value.id, edits[i].action, r.value.before, r.value.after) in b.applied
    else RejectedEdit(i, edits[i].id, env.display(r.error)) in b.rejected
  }

  // ----- What a rollback records -----

  /** `g` undoes the records of `f`, last first. */
  predicate Undoes(g: seq<AppliedEdit>, f: seq<AppliedEdit>) {
    && |g| == |f|
    && forall i :: 0 <= i < |g| ==>
         var done := f[|f| - 1 - i];
         g[i].index == done.index && g[i].entryId == done.entryId && g[i].before == done.after && g[i].after == done.before
  }

  lemma RecordCons(m: Entries, x: AppliedEdit, xs: seq<AppliedEdit>)
    ensures Recorded(m, [x] + xs) <==>
      x.before == Lookup(m, x.entryId) && (x.before.Some? || x.after.Some?) && Recorded(Put(m, x.entryId, x.after), xs)
    ensures Replay(m, [x] + xs) == Replay(Put(m, x.entryId, x.after), xs)
    decreases |xs|
  {
    var all := [x] + xs;
    if xs == [] {
      assert all[..0] == [] && all == [x];
    } else {
      var front := xs[..|xs| - 1];
      RecordCons(m, x, front);
      assert all[..|all| - 1] == [x] + front && all[|all| - 1] == xs[|xs| - 1];
    }
  }

  /** The inverted records are a faithful record of the reverse walk. */
  lemma {:induction false} UnwindIsRecorded(m: Entries, applied: seq<AppliedEdit>)
    requires Unwind(m, applied).Ok?
    ensures Recorded(m, Invert(applied)) && Replay(m, Invert(applied)) == Unwind(m, applied).value
    decreases |applied|
  {
    if applied != [] {
      var last := |applied| - 1;
      var a := applied[last];
      var next := UndoEdit(m, a).value;
      UnwindIsRecorded(next, applied[..last]);
      assert Lookup(m, a.entryId) == a.after && next == Put(m, a.entryId, a.before);
      RecordCons(m, Flip(a), Invert(applied[..last]));
      assert Invert(applied) == [Flip(a)] + Invert(applied[..last]);
    }
  }

  lemma InvertUndoes(applied: seq<AppliedEdit>)
    ensures Undoes(Invert(applied), applied)
  {
    hide Invert;
  }

  /** The event says it is the rollback of `e`, for the given reason, on the given ledger,
      cites `e` and nothing else, and its record is the change that was really made. */
  lemma RollbackWrites(env: Env, u: State, e: Event, reason: string, now: u64, v: State, f: Event)
    requires RollbackEvent(env, u, e, reason, now) == Ok((v, f))
    ensures f.body.schema == EVENT_SCHEMA_VERSION && f.body.kind == Rollback(e.id) && f.id == env.digest(f.body)
    ensures f.body.scope == u.scope == v.scope && f.body.basedOn == u.revision && f.body.resulting == v.revision == u.revision + 1
    ensures f.body.rationale == reason && f.body.createdAt == now
    ensures f.body.summary == "rollback of refinement " + (if |e.id| < 15 then e.id else e.id[..15])
    ensures f.body.expectedOutcome == "restore the exact pre-refinement harness entries"
    ensures f.body.evidence == [EvidenceRef(Refinement, e.id, None)] && f.body.rejected == []
    ensures Undoes(f.body.applied, e.body.applied)
    ensures Recorded(u.entries, f.body.applied) && Replay(u.entries, f.body.applied) == v.entries
  {
    OutcomeReads();
    hide Unwind, Invert, CheckRollback, ValidateState, GoodBody, Undoes, Recorded, Replay, Blank, Utf8Len, ROLLBACK_OUTCOME;
    assert e.id[..|e.id|] == e.id;
    UnwindIsRecorded(u.entries, e.body.applied);
    InvertUndoes(e.body.applied);
  }

  lemma OutcomeReads()
    ensures ROLLBACK_OUTCOME == "restore the exact pre-refinement harness entries"
  {
  }

  /** A rollback is not rolled back: on any ledger of its scope it is refused as not an
      application. */
  lemma RollbackIsFinal(env: Env, u: State, e: Event, reason: string, now: u64, v: State, f: Event,
                        w: State, again: string, later: u64)
    requires RollbackEvent(env, u, e, reason, now) == Ok((v, f))
    requires w.scope == f.body.scope && GoodText(again, MAX_REFINEMENT_TEXT_BYTES, true)
    ensures RollbackEvent(env, w, f, again, later) == Err(NotAnApplication)
  {
    RollbackWrites(env, u, e, reason, now, v, f);
    RollbackAdvances(env, u, e, reason, now, v, f);
    hide Unwind, Invert, GoodBody, Undoes, Recorded, Replay, Blank, Utf8Len, GoodText, FinishRollback;
    assert ValidateEvent(env, f).Ok?;
  }

  /** And an application is not accepted for anything else: rolling it back on a ledger of
      another scope is refused as a mismatch. */
  lemma ScopesAreKeptApart(env: Env, w: State, e: Event, reason: string, now: u64)
    requires GoodBody(e.body) && e.id == env.digest(e.body) && GoodText(reason, MAX_REFINEMENT_TEXT_BYTES, true)
    requires w.scope != e.body.scope
    ensures RollbackEvent(env, w, e, reason, now) == Err(ScopeMismatch(w.scope, e.body.scope))
  {
    hide GoodBody, GoodText, Unwind;
  }
}
