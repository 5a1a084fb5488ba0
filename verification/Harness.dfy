/** The values of the continual-harness ledger and their validation:
    entries, edits, proposals, refinement events and ledger states. */
module Harness {
  import opened Text
  import opened Decimals
  import opened StringOrder

  const MAX_ENTRIES_PER_SCOPE := 256
  const MAX_SCOPE_CONTENT_BYTES := 192 * 1024
  const MAX_ENTRY_ID_BYTES := 128
  const MAX_ENTRY_TITLE_BYTES := 256
  const MAX_ENTRY_CONTENT_BYTES := 64 * 1024
  const MAX_SKILL_ARGUMENTS := 32
  const MAX_REFINEMENT_EDITS := 32
  const MAX_REFINEMENT_TEXT_BYTES := 4 * 1024
  const MAX_EVIDENCE_REFS := 64
  const MAX_EVIDENCE_IDENTITY_BYTES := 512
  const MAX_ENTRY_SOURCE_BYTES := 128
  const MAX_SKILL_INVOCATION_BYTES := 1024
  const MAX_SKILL_ARGUMENT_NAME_BYTES := 64
  const MAX_SKILL_ARGUMENT_DOC_BYTES := 1024
  const MAX_SESSION_SCOPE_ID_BYTES := 512
  const STATE_SCHEMA_VERSION := 1
  const EVENT_SCHEMA_VERSION := 1
  const U64_MAX := 0xFFFF_FFFF_FFFF_FFFF

  const BEGIN := "<continual_harness>"
  const END := "</continual_harness>"

  type u64 = n: nat | n <= U64_MAX

  /** Texts the contract bounds. */
  datatype Field =
    | SessionScopeId | SkillInvocation | ArgumentDoc | EntryTitle | EntryContent | EntrySource | EditReason
    | Summary | Rationale | ExpectedOutcome | RejectionError | RollbackReason | RefinementSource

  datatype Reason =
    | TextBounds(field: Field, maximum: nat)
    | HasMarkers(field: Field)
    | BadArgumentName(name: string)
    | ArgumentCount(count: nat)
    | BadEntryId(id: string)
    | StraySkill(kind: EntryKind)
    | MissingSkill
    | ZeroVersion
    | UpdatedBeforeCreated
    | CreateIncomplete
    | NoEntryId(action: Action)
    | NothingToUpdate
    | DeleteCarriesContent
    | EditCount
    | Underivable(title: string)
    | NamesNoEntry
    | AlreadyExists(id: string)
    | DoesNotExist(id: string)
    | WrongKind(id: string, actual: EntryKind, expected: EntryKind)
    | VersionMoved(id: string, planned: u64, found: u64)
    | ScopeHasTooManyEntries
    | ScopeHasTooMuchText
    | SnapshotShape(action: Action)
    | ForeignSnapshot
    | EventSchema(schema: nat)
    | RevisionStep
    | BadSha256Id
    | NoEdits
    | TooManyEdits
    | DuplicateIndex
    | TooMuchEvidence
    | IdentityMismatch
    | StateSchema(schema: nat)
    | ForeignEntry

  datatype Error =
    | Invalid(reason: Reason)
    | ScopeMismatch(ledger: Scope, event: Scope)
    | RevisionOverflow
    | ChangedSince(id: string)
    | NotAnApplication
    | NoSnapshots
    | MalformedSupplement
    | HarnessError

  type Checked = Result<(), Error>

  function Require(condition: bool, reason: Reason): (r: Checked)
    ensures r.Ok? <==> condition
  {
    if condition then Ok(()) else Err(Invalid(reason))
  }

  predicate MarkerFree(s: string) {
    !Contains(s, BEGIN) && !Contains(s, END)
  }

  predicate GoodText(value: string, maximum: nat, forbidMarkers: bool) {
    !Blank(value) && Utf8Len(value) <= maximum && (forbidMarkers ==> MarkerFree(value))
  }

  function ValidateText(value: string, maximum: nat, field: Field, forbidMarkers: bool): (r: Checked)
    ensures r.Ok? <==> GoodText(value, maximum, forbidMarkers)
  {
    var _ :- Require(!Blank(value) && Utf8Len(value) <= maximum, TextBounds(field, maximum));
    Require(forbidMarkers ==> MarkerFree(value), HasMarkers(field))
  }

  // ----- Scopes -----

  datatype Scope = Global | Session(id: string)

  function ValidateScope(s: Scope): Checked {
    match s
    case Global => Ok(())
    case Session(id) => ValidateText(id, MAX_SESSION_SCOPE_ID_BYTES, SessionScopeId, true)
  }

  // ----- Entries -----

  datatype EntryKind = Prompt | Memory | Skill | Subagent

  /** A `BTreeMap<String, String>` in iteration order; its length is a machine word. */
  type Arguments = a: seq<(string, string)> | StrictlySorted(ArgumentNames(a)) && |a| <= U64_MAX witness []

  function ArgumentNames(a: seq<(string, string)>): seq<string> {
    seq(|a|, i requires 0 <= i < |a| => a[i].0)
  }

  datatype SkillContract = SkillContract(invocation: string, arguments: Arguments)

  predicate IsAsciiLower(c: char) { 'a' <= c <= 'z' }
  predicate IsAsciiUpper(c: char) { 'A' <= c <= 'Z' }
  predicate IsAsciiAlphanumeric(c: char) { IsAsciiLower(c) || IsAsciiUpper(c) || IsDigit(c) }

  predicate IsArgumentName(name: string) {
    && name != "" && Utf8Len(name) <= MAX_SKILL_ARGUMENT_NAME_BYTES
    && forall c :: c in name ==> IsAsciiAlphanumeric(c) || c == '_' || c == '-'
  }

  function ValidateArgument(argument: (string, string)): Checked {
    var _ :- Require(IsArgumentName(argument.0), BadArgumentName(argument.0));
    ValidateText(argument.1, MAX_SKILL_ARGUMENT_DOC_BYTES, ArgumentDoc, true)
  }

  function ValidateSkill(s: SkillContract): Checked {
    var _ :- ValidateText(s.invocation, MAX_SKILL_INVOCATION_BYTES, SkillInvocation, true);
    var _ :- Require(|s.arguments| <= MAX_SKILL_ARGUMENTS,
                     ArgumentCount(|s.arguments|));
    CheckAll(s.arguments, ValidateArgument)
  }

  datatype Entry = Entry(
    id: string, kind: EntryKind, title: string, content: string, skill: Option<SkillContract>,
    source: string, version: u64, createdAt: u64, updatedAt: u64)

  function ArgumentBytes(a: seq<(string, string)>): nat {
    if a == [] then 0 else Utf8Len(a[0].0) + Utf8Len(a[0].1) + ArgumentBytes(a[1..])
  }

  function TextBytes(e: Entry): nat {
    Utf8Len(e.title) + Utf8Len(e.content) +
    match e.skill
    case None => 0
    case Some(s) => Utf8Len(s.invocation) + ArgumentBytes(s.arguments)
  }

  predicate IsEntryId(id: string) {
    && id != "" && Utf8Len(id) <= MAX_ENTRY_ID_BYTES && IsAsciiAlphanumeric(id[0])
    && forall c :: c in id ==> IsAsciiLower(c) || IsDigit(c) || c == '-' || c == '_' || c == '.'
  }

  function ValidateEntryId(id: string): (r: Checked)
    ensures r.Ok? <==> IsEntryId(id)
  {
    Require(IsEntryId(id), BadEntryId(id))
  }

  function ValidateEntrySkill(e: Entry): Checked {
    match (e.skill, e.kind)
    case (Some(contract), Skill) => ValidateSkill(contract)
    case (Some(_), kind) => Err(Invalid(StraySkill(kind)))
    case (None, Skill) => Err(Invalid(MissingSkill))
    case (None, _) => Ok(())
  }

  function ValidateEntry(e: Entry): Checked {
    var _ :- ValidateEntryId(e.id);
    var _ :- ValidateText(e.title, MAX_ENTRY_TITLE_BYTES, EntryTitle, true);
    var _ :- ValidateText(e.content, MAX_ENTRY_CONTENT_BYTES, EntryContent, true);
    var _ :- ValidateText(e.source, MAX_ENTRY_SOURCE_BYTES, EntrySource, true);
    var _ :- ValidateEntrySkill(e);
    var _ :- Require(e.version != 0, ZeroVersion);
    Require(e.createdAt <= e.updatedAt, UpdatedBeforeCreated)
  }

  // ----- Edits and proposals -----

  datatype Action = Create | Update | Delete

  datatype Edit = Edit(
    action: Action, kind: EntryKind, id: Option<string>, title: Option<string>, content: Option<string>,
    skill: Option<SkillContract>, expectedVersion: Option<u64>, reason: string)

  function ValidateEdit(e: Edit): Checked {
    var _ :- ValidateText(e.reason, MAX_REFINEMENT_TEXT_BYTES, EditReason, true);
    var _ :- if e.id.Some? then ValidateEntryId(e.id.value) else Ok(());
    match e.action
    case Create =>
      Require(e.title.Some? && e.content.Some?, CreateIncomplete)
    case Update =>
      var _ :- Require(e.id.Some?, NoEntryId(Update));
      Require(e.title.Some? || e.content.Some? || e.skill.Some?, NothingToUpdate)
    case Delete =>
      var _ :- Require(e.id.Some?, NoEntryId(Delete));
      Require(e.title.None? && e.content.None? && e.skill.None?,
              DeleteCarriesContent)
  }

  datatype Proposal = Proposal(summary: string, rationale: string, expectedOutcome: string, edits: seq<Edit>)

  function ValidateProposal(p: Proposal): Checked {
    var _ :- ValidateText(p.summary, MAX_REFINEMENT_TEXT_BYTES, Summary, true);
    var _ :- ValidateText(p.rationale, MAX_REFINEMENT_TEXT_BYTES, Rationale, true);
    var _ :- ValidateText(p.expectedOutcome, MAX_REFINEMENT_TEXT_BYTES, ExpectedOutcome, true);
    var _ :- Require(1 <= |p.edits| <= MAX_REFINEMENT_EDITS, EditCount);
    CheckAll(p.edits, ValidateEdit)
  }

  // ----- Events -----

  datatype AppliedEdit = AppliedEdit(
    index: nat, entryId: string, action: Action, before: Option<Entry>, after: Option<Entry>)

  function ValidateSnapshot(id: string, e: Option<Entry>): Checked {
    match e
    case None => Ok(())
    case Some(entry) =>
      var _ :- ValidateEntry(entry);
      Require(entry.id == id, ForeignSnapshot)
  }

  function ValidateApplied(a: AppliedEdit): Checked {
    var _ :- ValidateEntryId(a.entryId);
    var _ :- Require(a.before.Some? == !a.action.Create? && a.after.Some? == !a.action.Delete?,
                     SnapshotShape(a.action));
    var _ :- ValidateSnapshot(a.entryId, a.before);
    ValidateSnapshot(a.entryId, a.after)
  }

  datatype RejectedEdit = RejectedEdit(index: nat, entryId: Option<string>, error: string)

  function ValidateRejected(r: RejectedEdit): (c: Checked)
    ensures c.Ok? <==> GoodText(r.error, MAX_REFINEMENT_TEXT_BYTES, false)
  {
    ValidateText(r.error, MAX_REFINEMENT_TEXT_BYTES, RejectionError, false)
  }

  datatype EventKind = Applied | Rollback(ofEventId: string)

  datatype EvidenceKind = TurnBinding | Artifact | Evaluation | Refinement
  datatype EvidenceRef = EvidenceRef(kind: EvidenceKind, identity: string, digest: Option<string>)

  /** Everything an event's content address covers. */
  datatype EventBody = EventBody(
    schema: nat, scope: Scope, kind: EventKind, basedOn: u64, resulting: nat, summary: string,
    rationale: string, expectedOutcome: string, applied: seq<AppliedEdit>, rejected: seq<RejectedEdit>,
    evidence: seq<EvidenceRef>, createdAt: u64)

  datatype Event = Event(id: string, body: EventBody)

  /** What the ledger leaves to its surroundings: the content address of an event
      (SHA-256 of its canonical JSON) and the text a refusal is displayed as. */
  datatype Env = Env(digest: EventBody -> string, display: Error -> string)

  predicate IsSha256Id(id: string) {
    |id| == 71 && id[..7] == "sha256:" && forall i :: 7 <= i < 71 ==> IsDigit(id[i]) || 'a' <= id[i] <= 'f' || 'A' <= id[i] <= 'F'
  }

  function Indexes(applied: seq<AppliedEdit>, rejected: seq<RejectedEdit>): seq<nat> {
    seq(|applied|, i requires 0 <= i < |applied| => applied[i].index)
    + seq(|rejected|, i requires 0 <= i < |rejected| => rejected[i].index)
  }

  predicate Distinct<T(==)>(s: seq<T>) {
    forall i, j :: 0 <= i < j < |s| ==> s[i] != s[j]
  }

  predicate GoodHeader(b: EventBody) {
    && b.schema == EVENT_SCHEMA_VERSION && ValidateScope(b.scope).Ok?
    && b.basedOn < U64_MAX && b.basedOn + 1 == b.resulting
    && GoodText(b.summary, MAX_REFINEMENT_TEXT_BYTES, true)
    && GoodText(b.rationale, MAX_REFINEMENT_TEXT_BYTES, true)
    && GoodText(b.expectedOutcome, MAX_REFINEMENT_TEXT_BYTES, true)
    && (b.kind.Rollback? ==> IsSha256Id(b.kind.ofEventId))
  }

  function ValidateEventHeader(b: EventBody): (r: Checked)
    ensures r.Ok? <==> GoodHeader(b)
  {
    var _ :- Require(b.schema == EVENT_SCHEMA_VERSION, EventSchema(b.schema));
    var _ :- ValidateScope(b.scope);
    var _ :- Require(b.basedOn < U64_MAX && b.basedOn + 1 == b.resulting,
                     RevisionStep);
    var _ :- ValidateText(b.summary, MAX_REFINEMENT_TEXT_BYTES, Summary, true);
    var _ :- ValidateText(b.rationale, MAX_REFINEMENT_TEXT_BYTES, Rationale, true);
    var _ :- ValidateText(b.expectedOutcome, MAX_REFINEMENT_TEXT_BYTES, ExpectedOutcome, true);
    Require(b.kind.Rollback? ==> IsSha256Id(b.kind.ofEventId),
            BadSha256Id)
  }

  predicate AllAccepted(applied: seq<AppliedEdit>) {
    forall a :: a in applied ==> ValidateApplied(a).Ok?
  }

  predicate RefusalsFit(rejected: seq<RejectedEdit>) {
    forall r :: r in rejected ==> GoodText(r.error, MAX_REFINEMENT_TEXT_BYTES, false)
  }

  predicate GoodEdits(applied: seq<AppliedEdit>, rejected: seq<RejectedEdit>) {
    && (applied != [] || rejected != []) && |applied| + |rejected| <= MAX_REFINEMENT_EDITS
    && Distinct(Indexes(applied, rejected)) && AllAccepted(applied) && RefusalsFit(rejected)
  }

  function ValidateEventEdits(applied: seq<AppliedEdit>, rejected: seq<RejectedEdit>): (r: Checked)
    ensures r.Ok? <==> GoodEdits(applied, rejected)
  {
    var _ :- Require(applied != [] || rejected != [], NoEdits);
    var _ :- Require(|applied| + |rejected| <= MAX_REFINEMENT_EDITS,
                     TooManyEdits);
    var _ :- Require(Distinct(Indexes(applied, rejected)), DuplicateIndex);
    var _ :- CheckAll(applied, ValidateApplied);
    CheckAll(rejected, ValidateRejected)
  }

  predicate GoodBody(b: EventBody) {
    GoodHeader(b) && GoodEdits(b.applied, b.rejected) && |b.evidence| <= MAX_EVIDENCE_REFS
  }

  function ValidateBody(b: EventBody): (r: Checked)
    ensures r.Ok? <==> GoodBody(b)
  {
    var _ :- ValidateEventHeader(b);
    var _ :- ValidateEventEdits(b.applied, b.rejected);
    Require(|b.evidence| <= MAX_EVIDENCE_REFS, TooMuchEvidence)
  }

  function ValidateEvent(env: Env, e: Event): (r: Checked)
    ensures r.Ok? <==> GoodBody(e.body) && e.id == env.digest(e.body)
  {
    var _ :- ValidateBody(e.body);
    Require(e.id == env.digest(e.body), IdentityMismatch)
  }

  /** `RefinementEvent::build`, given every field but the revision it results in. */
  function BuildEvent(env: Env, draft: EventBody): (r: Result<Event, Error>)
    ensures r.Ok? <==> draft.basedOn < U64_MAX && GoodBody(draft.(resulting := draft.basedOn + 1))
    ensures r.Ok? ==> r.value.body == draft.(resulting := draft.basedOn + 1) && r.value.id == env.digest(r.value.body)
  {
    if draft.basedOn == U64_MAX then Err(RevisionOverflow) else
      var body := draft.(resulting := draft.basedOn + 1);
      var event := Event(env.digest(body), body);
      var _ :- ValidateEvent(env, event);
      Ok(event)
  }

  // ----- Ledger states -----

  type Entries = map<string, Entry>

  datatype State = State(schema: nat, scope: Scope, revision: u64, entries: Entries)

  /** Sum over the map in iteration order. */
  function TotalText(m: Entries): nat
    decreases |m|
  {
    if m == map[] then 0 else
      var k := MinKey(m.Keys);
      RemoveShrinks(m, k);
      TextBytes(m[k]) + TotalText(m - {k})
  }

  lemma RemoveShrinks<T>(m: map<string, T>, k: string)
    requires k in m
    ensures |m - {k}| == |m| - 1
  {
    assert (m - {k}).Keys == m.Keys - {k};
  }

  predicate FitsBudgets(m: Entries) {
    |m| <= MAX_ENTRIES_PER_SCOPE && TotalText(m) <= MAX_SCOPE_CONTENT_BYTES
  }

  function CheckBudgets(m: Entries): (r: Checked)
    ensures r.Ok? <==> FitsBudgets(m)
  {
    var _ :- Require(|m| <= MAX_ENTRIES_PER_SCOPE, ScopeHasTooManyEntries);
    Require(TotalText(m) <= MAX_SCOPE_CONTENT_BYTES, ScopeHasTooMuchText)
  }

  predicate EntryFiled(m: Entries, k: string)
    requires k in m
  {
    ValidateEntry(m[k]).Ok? && m[k].id == k
  }

  predicate EntriesFiled(m: Entries) {
    forall k :: k in m ==> EntryFiled(m, k)
  }

  function ValidateFiled(m: Entries, keys: seq<string>): (r: Checked)
    requires forall k :: k in keys ==> k in m
    ensures r.Ok? <==> forall k :: k in keys ==> EntryFiled(m, k)
  {
    if keys == [] then Ok(()) else
      assert EntryFiled(m, keys[0]) <==> ValidateEntry(m[keys[0]]).Ok? && m[keys[0]].id == keys[0];
      var _ :- ValidateEntry(m[keys[0]]);
      var _ :- Require(keys[0] == m[keys[0]].id, ForeignEntry);
      assert forall k :: k in keys <==> k == keys[0] || k in keys[1..];
      ValidateFiled(m, keys[1..])
  }

  /** The properties every stored ledger has. */
  predicate ValidState(s: State) {
    s.schema == STATE_SCHEMA_VERSION && ValidateScope(s.scope).Ok? && FitsBudgets(s.entries) && EntriesFiled(s.entries)
  }

  function ValidateState(s: State): (r: Checked)
    ensures r.Ok? <==> ValidState(s)
  {
    var _ :- Require(s.schema == STATE_SCHEMA_VERSION, StateSchema(s.schema));
    var _ :- ValidateScope(s.scope);
    var _ :- Require(|s.entries| <= MAX_ENTRIES_PER_SCOPE,
                     ScopeHasTooManyEntries);
    var _ :- Require(TotalText(s.entries) <= MAX_SCOPE_CONTENT_BYTES,
                     ScopeHasTooMuchText);
    ValidateFiled(s.entries, SortedKeys(s.entries.Keys))
  }

  // ----- Budgets -----

  /** The total does not depend on which entry is taken out first. */
  lemma {:induction false} TotalTextWithout(m: Entries, k: string)
    requires k in m
    ensures TotalText(m) == TextBytes(m[k]) + TotalText(m - {k})
    decreases |m|
  {
    var min := MinKey(m.Keys);
    if k != min {
      RemoveShrinks(m, min);
      RemoveShrinks(m, k);
      TotalTextWithout(m - {min}, k);
      assert IsMin(min, (m - {k}).Keys);
      MinUnique((m - {k}).Keys, min, MinKey((m - {k}).Keys));
      assert m - {min} - {k} == m - {k} - {min};
    }
  }

  lemma RemoveKeepsBudgets(m: Entries, k: string)
    requires FitsBudgets(m)
    ensures FitsBudgets(m - {k})
  {
    if k in m {
      TotalTextWithout(m, k);
      RemoveShrinks(m, k);
    } else {
      assert m - {k} == m;
    }
  }
}
