/** The evolution ledger: proposals with per-edit isolation, and all-or-nothing
    rollback of one applied event. */
module Ledger {
  import opened Text
  import opened Decimals
  import opened Harness

  // ----- Derived identities -----

  function Lower(c: char): char {
    if IsAsciiUpper(c) then c + ('a' - 'A') else c
  }

  /** The slug after one more character of the title, given whether a separator is pending. */
  function SlugStep(slug: string, pending: bool, c: char): string {
    if !IsAsciiAlphanumeric(c) then slug
    else (if pending && slug != "" then slug + "-" else slug) + [Lower(c)]
  }

  function Slug(title: string, slug: string, pending: bool): string {
    if title == "" then slug else
      var next := SlugStep(slug, pending, title[0]);
      if Utf8Len(next) >= MAX_ENTRY_ID_BYTES then next
      else Slug(title[1..], next, !IsAsciiAlphanumeric(title[0]))
  }

  function DeriveEntryId(title: string): Result<string, Error> {
    var slug := Slug(title, "", false);
    if IsEntryId(slug) then Ok(slug)
    else Err(Invalid(Underivable(title)))
  }

  method SlugOf(title: string) returns (slug: string)
    ensures slug == Slug(title, "", false)
  {
    slug := "";
    var pending := false;
    var i := 0;
    while i < |title|
      invariant 0 <= i <= |title|
      invariant Slug(title, "", false) == Slug(title[i..], slug, pending)
    {
      var c := title[i];
      if IsAsciiAlphanumeric(c) {
        if pending && slug != "" {
          slug := slug + "-";
        }
        pending := false;
        slug := slug + [Lower(c)];
      } else {
        pending := true;
      }
      i := i + 1;
      if Utf8Len(slug) >= MAX_ENTRY_ID_BYTES {
        break;
      }
    }
  }

  // ----- Refusal texts -----

  function KindText(k: EntryKind): string {
    match k case Prompt => "prompt" case Memory => "memory" case Skill => "skill" case Subagent => "subagent"
  }

  function FieldText(f: Field): string {
    match f
    case SkillInvocation => "skill invocation"
    case ArgumentDoc => "skill argument documentation"
    case EntryTitle => "entry title"
    case EntryContent => "entry content"
    case EntrySource => "entry source"
    case _ => "edit reason"
  }

  /** Reasons that read the same for every edit. Only those one edit can meet are spelled
      out: no other reason ever reaches a refused edit. */
  function FixedText(r: Reason): (text: string)
    ensures |text| <= 60
  {
    match r
    case MissingSkill => "a skill entry requires a skill contract"
    case ZeroVersion => "entry versions start at 1"
    case UpdatedBeforeCreated => "entry update time precedes its creation time"
    case CreateIncomplete => "a create edit requires a title and content"
    case NoEntryId(a) => if a.Update? then "an update edit requires an entry ID" else "a delete edit requires an entry ID"
    case NothingToUpdate => "an update edit must change at least one field"
    case DeleteCarriesContent => "a delete edit must not carry replacement content"
    case NamesNoEntry => "an edit names no entry"
    case ScopeHasTooManyEntries => "the scope would exceed 256 entries"
    case ScopeHasTooMuchText => "the scope's entry text would exceed 196608 bytes"
    case _ => ""
  }

  /** What a reason reads as. */
  function ReasonText(r: Reason): string {
    match r
    case TextBounds(f, n) => FieldText(f) + " must contain 1..=" + Decimal(n) + " bytes"
    case HasMarkers(f) => FieldText(f) + " must not contain harness supplement markers"
    case BadArgumentName(name) => "invalid skill argument name '" + name + "'"
    case ArgumentCount(n) => "skill contract declares " + Decimal(n) + " arguments; maximum is 32"
    case BadEntryId(id) =>
      "entry ID '" + id + "' must be 1..=128 bytes of lowercase letters, digits, "
      + "'-', '_' or '.' and start with a letter or digit"
    case StraySkill(k) => "a " + KindText(k) + " entry must not carry a skill contract"
    case Underivable(title) => "cannot derive an entry ID from title '" + title + "'"
    case AlreadyExists(id) => "entry '" + id + "' already exists"
    case DoesNotExist(id) => "entry '" + id + "' does not exist"
    case WrongKind(id, actual, expected) =>
      "entry '" + id + "' is a " + KindText(actual) + " entry, not a " + KindText(expected) + " entry"
    case VersionMoved(id, expected, actual) =>
      "entry '" + id + "' changed during refinement planning: expected version " + Decimal(expected)
      + ", actual " + Decimal(actual)
    case _ => FixedText(r)
  }

  /** The durable evidence a refused edit leaves: the `display` of the deployed ledger. */
  function Display(e: Error): string {
    match e
    case Invalid(reason) => "invalid harness evolution contract: " + ReasonText(reason)
    case _ => "evolution revision overflow"
  }

  // ----- One edit -----

  function Lookup(m: Entries, id: string): Option<Entry> {
    if id in m then Some(m[id]) else None
  }

  function Put(m: Entries, id: string, e: Option<Entry>): Entries {
    match e case None => m - {id} case Some(entry) => m[id := entry]
  }

  datatype Outcome = Outcome(id: string, before: Option<Entry>, after: Option<Entry>)

  function EntryIdOf(e: Edit): Result<string, Error> {
    match (e.id, e.title)
    case (Some(id), _) => Ok(id)
    case (None, Some(title)) => DeriveEntryId(title)
    case (None, None) => Err(Invalid(NamesNoEntry))
  }

  function CheckPreconditions(e: Edit, existing: Entry): Checked {
    var _ :- Require(existing.kind == e.kind, WrongKind(existing.id, existing.kind, e.kind));
    Require(e.expectedVersion.GetOr(existing.version) == existing.version,
            VersionMoved(existing.id, e.expectedVersion.GetOr(existing.version), existing.version))
  }

  function Created(id: string, e: Edit, source: string, now: u64): Entry {
    Entry(id, e.kind, e.title.GetOr(""), e.content.GetOr(""), e.skill, source, 1, now, now)
  }

  function Updated(existing: Entry, e: Edit, source: string, now: u64): Entry
    requires existing.version < U64_MAX
  {
    existing.(title := e.title.GetOr(existing.title), content := e.content.GetOr(existing.content),
              skill := if e.skill.Some? then e.skill else existing.skill,
              source := source, version := existing.version + 1, updatedAt := now)
  }

  function CreateResult(m: Entries, id: string, entry: Entry): Result<Outcome, Error> {
    if id in m then Err(Invalid(AlreadyExists(id))) else
      var _ :- ValidateEntry(entry);
      var _ :- CheckBudgets(m[id := entry]);
      Ok(Outcome(id, None, Some(entry)))
  }

  function UpdateResult(m: Entries, id: string, e: Edit, source: string, now: u64): Result<Outcome, Error> {
    if id !in m then Err(Invalid(DoesNotExist(id))) else
      var _ :- CheckPreconditions(e, m[id]);
      if m[id].version == U64_MAX then Err(RevisionOverflow) else
        ReplaceResult(m, id, Updated(m[id], e, source, now))
  }

  function ReplaceResult(m: Entries, id: string, updated: Entry): Result<Outcome, Error>
    requires id in m
  {
    var _ :- ValidateEntry(updated);
    var _ :- CheckBudgets(m[id := updated]);
    Ok(Outcome(id, Some(m[id]), Some(updated)))
  }

  function DeleteResult(m: Entries, id: string, e: Edit): Result<Outcome, Error> {
    if id !in m then Err(Invalid(DoesNotExist(id))) else
      var _ :- CheckPreconditions(e, m[id]);
      Ok(Outcome(id, Some(m[id]), None))
  }

  /** What one edit does to the map, or why it is refused. */
  function EditResult(m: Entries, e: Edit, source: string, now: u64): Result<Outcome, Error> {
    var _ :- ValidateEdit(e);
    var id :- EntryIdOf(e);
    match e.action
    case Create => CreateResult(m, id, Created(id, e, source, now))
    case Update => UpdateResult(m, id, e, source, now)
    case Delete => DeleteResult(m, id, e)
  }

  /** A refused edit leaves the map untouched. */
  function AfterEdit(m: Entries, r: Result<Outcome, Error>): Entries {
    match r case Ok(o) => Put(m, o.id, o.after) case Err(_) => m
  }

  lemma InsertUndone(m: Entries, id: string, entry: Entry)
    requires id !in m
    ensures m[id := entry] - {id} == m
  {
  }

  lemma ReplaceUndone(m: Entries, id: string, entry: Entry)
    requires id in m
    ensures m[id := entry][id := m[id]] == m
  {
  }

  /** The mutable map `apply` threads through its edits: `apply_edit` inserts
      first, checks the budgets, and undoes the insertion when they fail. */
  class EntryTable {
    var entries: Entries

    constructor (entries: Entries)
      ensures this.entries == entries
    {
      this.entries := entries;
    }

    method Create(id: string, entry: Entry) returns (r: Result<Outcome, Error>)
      modifies this
      ensures r == CreateResult(old(entries), id, entry)
      ensures entries == AfterEdit(old(entries), r)
    {
      if id in entries { return Err(Invalid(AlreadyExists(id))); }
      var sound := ValidateEntry(entry);
      if sound.Err? { return Err(sound.error); }
      entries := entries[id := entry];
      var budget := CheckBudgets(entries);
      if budget.Err? {
        InsertUndone(old(entries), id, entry);
        entries := entries - {id};
        return Err(budget.error);
      }
      return Ok(Outcome(id, None, Some(entry)));
    }

    method Update(id: string, e: Edit, source: string, now: u64) returns (r: Result<Outcome, Error>)
      modifies this
      ensures r == UpdateResult(old(entries), id, e, source, now)
      ensures entries == AfterEdit(old(entries), r)
    {
      if id !in entries { return Err(Invalid(DoesNotExist(id))); }
      var existing := entries[id];
      var allowed := CheckPreconditions(e, existing);
      if allowed.Err? { return Err(allowed.error); }
      if existing.version == U64_MAX { return Err(RevisionOverflow); }
      r := Replace(id, Updated(existing, e, source, now));
    }

    method Replace(id: string, updated: Entry) returns (r: Result<Outcome, Error>)
      requires id in entries
      modifies this
      ensures r == ReplaceResult(old(entries), id, updated)
      ensures entries == AfterEdit(old(entries), r)
    {
      var existing := entries[id];
      var sound := ValidateEntry(updated);
      if sound.Err? { return Err(sound.error); }
      entries := entries[id := updated];
      var budget := CheckBudgets(entries);
      if budget.Err? {
        ReplaceUndone(old(entries), id, updated);
        entries := entries[id := existing];
        return Err(budget.error);
      }
      return Ok(Outcome(id, Some(existing), Some(updated)));
    }

    method Delete(id: string, e: Edit) returns (r: Result<Outcome, Error>)
      modifies this
      ensures r == DeleteResult(old(entries), id, e)
      ensures entries == AfterEdit(old(entries), r)
    {
      if id !in entries { return Err(Invalid(DoesNotExist(id))); }
      var existing := entries[id];
      var allowed := CheckPreconditions(e, existing);
      if allowed.Err? { return Err(allowed.error); }
      entries := entries - {id};
      return Ok(Outcome(id, Some(existing), None));
    }

    method ApplyEdit(e: Edit, source: string, now: u64) returns (r: Result<Outcome, Error>)
      modifies this
      ensures r == EditResult(old(entries), e, source, now)
      ensures entries == AfterEdit(old(entries), r)
    {
      var valid := ValidateEdit(e);
      if valid.Err? { return Err(valid.error); }
      var named := EntryIdOf(e);
      if named.Err? { return Err(named.error); }
      match e.action {
        case Create => r := Create(named.value, Created(named.value, e, source, now));
        case Update => r := Update(named.value, e, source, now);
        case Delete => r := Delete(named.value, e);
      }
    }
  }

  // ----- One proposal -----

  datatype Progress = Progress(entries: Entries, applied: seq<AppliedEdit>, rejected: seq<RejectedEdit>)

  /** One round of the edit loop: record what was applied, or the evidence of what was refused. */
  function Record(env: Env, p: Progress, index: nat, e: Edit, r: Result<Outcome, Error>): Progress {
    match r
    case Ok(o) =>
      Progress(AfterEdit(p.entries, r), p.applied + [AppliedEdit(index, o.id, e.action, o.before, o.after)], p.rejected)
    case Err(error) =>
      Progress(p.entries, p.applied, p.rejected + [RejectedEdit(index, e.id, env.display(error))])
  }

  /** What the edit loop has done after `edits`. */
  function RunEdits(env: Env, m: Entries, edits: seq<Edit>, source: string, now: u64): Progress {
    if edits == [] then Progress(m, [], []) else
      var last := |edits| - 1;
      var p := RunEdits(env, m, edits[..last], source, now);
      Record(env, p, last, edits[last], EditResult(p.entries, edits[last], source, now))
  }

  method EditLoop(env: Env, m: Entries, edits: seq<Edit>, source: string, now: u64) returns (g: Progress)
    ensures g == RunEdits(env, m, edits, source, now)
  {
    hide EditResult, Put;
    var table := new EntryTable(m);
    var applied, rejected := [], [];
    for index := 0 to |edits|
      invariant Progress(table.entries, applied, rejected) == RunEdits(env, m, edits[..index], source, now)
    {
      var edit := edits[index];
      ghost var p := Progress(table.entries, applied, rejected);
      var r := table.ApplyEdit(edit, source, now);
      match r {
        case Ok(o) => applied := applied + [AppliedEdit(index, o.id, edit.action, o.before, o.after)];
        case Err(error) => rejected := rejected + [RejectedEdit(index, edit.id, env.display(error))];
      }
      assert Progress(table.entries, applied, rejected) == Record(env, p, index, edit, r);
      assert edits[..index + 1][..index] == edits[..index];
    }
    assert edits[..|edits|] == edits;
    g := Progress(table.entries, applied, rejected);
  }

  function ApplyDraft(s: State, p: Proposal, g: Progress, evidence: seq<EvidenceRef>, now: u64): EventBody {
    EventBody(EVENT_SCHEMA_VERSION, s.scope, Applied, s.revision, 0, p.summary, p.rationale, p.expectedOutcome,
              g.applied, g.rejected, evidence, now)
  }

  function FinishApply(env: Env, s: State, p: Proposal, g: Progress, evidence: seq<EvidenceRef>, now: u64)
    : Result<(State, Event), Error>
  {
    var event :- BuildEvent(env, ApplyDraft(s, p, g, evidence, now));
    var t := State(s.schema, s.scope, event.body.resulting, g.entries);
    var _ :- ValidateState(t);
    Ok((t, event))
  }

  function Apply(env: Env, s: State, p: Proposal, source: string, evidence: seq<EvidenceRef>, now: u64)
    : Result<(State, Event), Error>
  {
    var _ :- ValidateProposal(p);
    var _ :- ValidateText(source, MAX_ENTRY_SOURCE_BYTES, RefinementSource, true);
    FinishApply(env, s, p, RunEdits(env, s.entries, p.edits, source, now), evidence, now)
  }

  method ApplyProposal(env: Env, s: State, p: Proposal, source: string, evidence: seq<EvidenceRef>,
                       now: u64)
    returns (r: Result<(State, Event), Error>)
    ensures r == Apply(env, s, p, source, evidence, now)
  {
    var valid := ValidateProposal(p);
    if valid.Err? { return Err(valid.error); }
    var sound := ValidateText(source, MAX_ENTRY_SOURCE_BYTES, RefinementSource, true);
    if sound.Err? { return Err(sound.error); }
    var g := EditLoop(env, s.entries, p.edits, source, now);
    r := FinishApply(env, s, p, g, evidence, now);
  }

  // ----- Rollback -----

  /** One step of the reverse walk. */
  function UndoEdit(m: Entries, a: AppliedEdit): Result<Entries, Error> {
    match (a.before, a.after)
    case (None, None) => Err(NoSnapshots)
    case (_, Some(after)) => if Lookup(m, a.entryId) != Some(after) then Err(ChangedSince(a.entryId)) else Ok(Put(m, a.entryId, a.before))
    case (Some(_), None) => if a.entryId in m then Err(ChangedSince(a.entryId)) else Ok(Put(m, a.entryId, a.before))
  }

  function Unwind(m: Entries, applied: seq<AppliedEdit>): Result<Entries, Error>
    decreases |applied|
  {
    if applied == [] then Ok(m) else
      var last := |applied| - 1;
      var next :- UndoEdit(m, applied[last]);
      Unwind(next, applied[..last])
  }

  function Flip(a: AppliedEdit): AppliedEdit {
    a.(action := match a.action case Create => Delete case Update => Update case Delete => Create,
       before := a.after, after := a.before)
  }

  function Invert(applied: seq<AppliedEdit>): (r: seq<AppliedEdit>)
    ensures |r| == |applied|
    ensures forall i :: 0 <= i < |r| ==> r[i] == Flip(applied[|applied| - 1 - i])
  {
    if applied == [] then [] else [Flip(applied[|applied| - 1])] + Invert(applied[..|applied| - 1])
  }

  const ROLLBACK_OUTCOME := "restore the exact " + "pre-refinement harness entries"

  function RollbackDraft(s: State, e: Event, reason: string, inverted: seq<AppliedEdit>, evidence: EvidenceRef,
                         now: u64): EventBody
  {
    EventBody(EVENT_SCHEMA_VERSION, s.scope, Rollback(e.id), s.revision, 0,
              "rollback of refinement " + e.id[..if |e.id| < 15 then |e.id| else 15], reason,
              ROLLBACK_OUTCOME, inverted, [], [evidence], now)
  }

  function CheckRollback(env: Env, s: State, e: Event, reason: string): (r: Checked)
    ensures r.Ok? <==>
              && ValidateEvent(env, e).Ok? && GoodText(reason, MAX_REFINEMENT_TEXT_BYTES, true)
              && e.body.scope == s.scope && e.body.kind.Applied?
  {
    var _ :- ValidateEvent(env, e);
    var _ :- ValidateText(reason, MAX_REFINEMENT_TEXT_BYTES, RollbackReason, true);
    if e.body.scope != s.scope then Err(ScopeMismatch(s.scope, e.body.scope))
    else if !e.body.kind.Applied? then Err(NotAnApplication)
    else Ok(())
  }

  function FinishRollback(env: Env, s: State, e: Event, reason: string, entries: Entries,
                          inverted: seq<AppliedEdit>, now: u64): Result<(State, Event), Error>
  {
    if Blank(e.id) || Utf8Len(e.id) > MAX_EVIDENCE_IDENTITY_BYTES then
      Err(HarnessError)
    else
      var evidence := EvidenceRef(Refinement, e.id, None);
      var event :- BuildEvent(env, RollbackDraft(s, e, reason, inverted, evidence, now));
      var t := State(s.schema, s.scope, event.body.resulting, entries);
      var _ :- ValidateState(t);
      Ok((t, event))
  }

  function RollbackEvent(env: Env, s: State, e: Event, reason: string, now: u64)
    : Result<(State, Event), Error>
  {
    var _ :- CheckRollback(env, s, e, reason);
    var entries :- Unwind(s.entries, e.body.applied);
    FinishRollback(env, s, e, reason, entries, Invert(e.body.applied), now)
  }

  /** The reverse walk: undoes and inverts the edits, last first. */
  method UnwindLoop(m: Entries, applied: seq<AppliedEdit>) returns (r: Result<Entries, Error>, inverted: seq<AppliedEdit>)
    ensures r == Unwind(m, applied)
    ensures r.Ok? ==> inverted == Invert(applied)
  {
    var entries := m;
    inverted := [];
    var i := |applied|;
    assert applied[..i] == applied;
    while i > 0
      invariant 0 <= i <= |applied|
      invariant Unwind(m, applied) == Unwind(entries, applied[..i])
      invariant Invert(applied) == inverted + Invert(applied[..i])
    {
      i := i - 1;
      assert applied[..i + 1][..i] == applied[..i];
      var undone := UndoEdit(entries, applied[i]);
      if undone.Err? { return Err(undone.error), inverted; }
      entries := undone.value;
      inverted := inverted + [Flip(applied[i])];
    }
    r := Ok(entries);
  }

  method RollbackApplied(env: Env, s: State, e: Event, reason: string, now: u64)
    returns (r: Result<(State, Event), Error>)
    ensures r == RollbackEvent(env, s, e, reason, now)
  {
    var allowed := CheckRollback(env, s, e, reason);
    if allowed.Err? { return Err(allowed.error); }
    var undone, inverted := UnwindLoop(s.entries, e.body.applied);
    if undone.Err? { return Err(undone.error); }
    r := FinishRollback(env, s, e, reason, undone.value, inverted, now);
  }
}
