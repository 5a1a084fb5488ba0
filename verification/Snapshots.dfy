/** Immutable, content-addressed harness snapshots and the typed patches that
    derive one from another. */
module Snapshots {
  import opened Text
  import opened Harness

  const MAX_HARNESS_FIELD_BYTES := 1024 * 1024
  const MAX_HARNESS_EVIDENCE_REFS := 64
  const SNAPSHOT_SCHEMA_VERSION := 1

  datatype Content = Content(systemPrompt: Option<string>, rules: Option<string>)

  datatype Snapshot = Snapshot(schema: nat, digest: string, content: Content)

  datatype Change = SetSystemPrompt(value: string) | SetRules(value: string) | ClearRules

  datatype Target = SystemPromptTarget | RulesTarget

  datatype Patch = Patch(baseDigest: string, changes: seq<Change>, evidence: seq<EvidenceRef>)

  datatype Refusal =
    | BadField(target: Target)
    | NoSystemPrompt
    | SnapshotSchema(schema: nat)
    | DigestMismatch
    | NoChanges
    | RepeatedTarget(target: Target)
    | TooManyEvidenceRefs
    | BadEvidence
    | RepeatedEvidence
    | StaleBase

  /** SHA-256 over the two optional fields, left uninterpreted. */
  type Address = Content -> string

  function Ensure(condition: bool, refusal: Refusal): (r: Result<(), Refusal>)
    ensures r.Ok? <==> condition
  {
    if condition then Ok(()) else Err(refusal)
  }

  predicate GoodField(value: string) {
    !Blank(value) && Utf8Len(value) <= MAX_HARNESS_FIELD_BYTES
  }

  predicate GoodContent(c: Content) {
    c.systemPrompt.Some? && GoodField(c.systemPrompt.value) && (c.rules.Some? ==> GoodField(c.rules.value))
  }

  function ValidateContent(c: Content): (r: Result<(), Refusal>)
    ensures r.Ok? <==> GoodContent(c)
  {
    var _ :- Ensure(c.systemPrompt.Some? ==> GoodField(c.systemPrompt.value), BadField(SystemPromptTarget));
    var _ :- Ensure(c.systemPrompt.Some?, NoSystemPrompt);
    Ensure(c.rules.Some? ==> GoodField(c.rules.value), BadField(RulesTarget))
  }

  predicate ValidSnapshot(address: Address, s: Snapshot) {
    s.schema == SNAPSHOT_SCHEMA_VERSION && GoodContent(s.content) && s.digest == address(s.content)
  }

  function ValidateSnapshot(address: Address, s: Snapshot): (r: Result<(), Refusal>)
    ensures r.Ok? <==> ValidSnapshot(address, s)
  {
    var _ :- Ensure(s.schema == SNAPSHOT_SCHEMA_VERSION, SnapshotSchema(s.schema));
    var _ :- ValidateContent(s.content);
    Ensure(s.digest == address(s.content), DigestMismatch)
  }

  function NewSnapshot(address: Address, c: Content): (r: Result<Snapshot, Refusal>)
    ensures r.Ok? <==> GoodContent(c)
    ensures r.Ok? ==> ValidSnapshot(address, r.value) && r.value.content == c
  {
    // The closing re-validation cannot fail: that is the second ensures.
    var _ :- ValidateContent(c);
    Ok(Snapshot(SNAPSHOT_SCHEMA_VERSION, address(c), c))
  }

  // ----- Patches -----

  function TargetOf(c: Change): Target {
    if c.SetSystemPrompt? then SystemPromptTarget else RulesTarget
  }

  predicate GoodChange(c: Change) {
    c.ClearRules? || GoodField(c.value)
  }

  predicate GoodEvidence(e: EvidenceRef) {
    && GoodText(e.identity, MAX_EVIDENCE_IDENTITY_BYTES, false)
    && (e.digest.Some? ==> IsSha256Id(e.digest.value))
  }

  /** No change repeats the target of an earlier one. */
  function ValidateChanges(changes: seq<Change>, seen: set<Target>): (r: Result<(), Refusal>)
    ensures r.Ok? <==> && (forall c :: c in changes ==> GoodChange(c) && TargetOf(c) !in seen)
                       && (forall i, j :: 0 <= i < j < |changes| ==> TargetOf(changes[i]) != TargetOf(changes[j]))
  {
    if changes == [] then Ok(()) else
      var c := changes[0];
      var _ :- Ensure(GoodChange(c), BadField(TargetOf(c)));
      var _ :- Ensure(TargetOf(c) !in seen, RepeatedTarget(TargetOf(c)));
      ValidateChanges(changes[1..], seen + {TargetOf(c)})
  }

  function Cited(e: EvidenceRef): (EvidenceKind, string) {
    (e.kind, e.identity)
  }

  function ValidateEvidence(evidence: seq<EvidenceRef>, cited: set<(EvidenceKind, string)>): (r: Result<(), Refusal>)
    ensures r.Ok? <==> && (forall e :: e in evidence ==> GoodEvidence(e) && Cited(e) !in cited)
                       && (forall i, j :: 0 <= i < j < |evidence| ==> Cited(evidence[i]) != Cited(evidence[j]))
  {
    if evidence == [] then Ok(()) else
      var e := evidence[0];
      var _ :- Ensure(GoodEvidence(e), BadEvidence);
      var _ :- Ensure(Cited(e) !in cited, RepeatedEvidence);
      ValidateEvidence(evidence[1..], cited + {Cited(e)})
  }

  /** Each reference is built by a validating constructor. */
  function CheckCitations(evidence: seq<EvidenceRef>): (r: Result<(), Refusal>)
    ensures r.Ok? <==> forall e :: e in evidence ==> GoodEvidence(e)
  {
    CheckAll(evidence, (e: EvidenceRef) => Ensure(GoodEvidence(e), BadEvidence))
  }

  function ValidatePatch(p: Patch): Result<(), Refusal> {
    var _ :- Ensure(p.changes != [], NoChanges);
    var _ :- ValidateChanges(p.changes, {});
    var _ :- Ensure(|p.evidence| <= MAX_HARNESS_EVIDENCE_REFS, TooManyEvidenceRefs);
    ValidateEvidence(p.evidence, {})
  }

  function Change1(c: Content, change: Change): Content {
    match change
    case SetSystemPrompt(value) => c.(systemPrompt := Some(value))
    case SetRules(value) => c.(rules := Some(value))
    case ClearRules => c.(rules := None)
  }

  function Changed(c: Content, changes: seq<Change>): Content
    decreases |changes|
  {
    if changes == [] then c else Changed(Change1(c, changes[0]), changes[1..])
  }

  function Apply(address: Address, p: Patch, base: Snapshot): Result<Snapshot, Refusal> {
    var _ :- ValidatePatch(p);
    var _ :- ValidateSnapshot(address, base);
    var _ :- Ensure(p.baseDigest == base.digest, StaleBase);
    NewSnapshot(address, Changed(base.content, p.changes))
  }

  predicate DistinctTargets(changes: seq<Change>) {
    forall i, j :: 0 <= i < j < |changes| ==> TargetOf(changes[i]) != TargetOf(changes[j])
  }

  /** What the changes make of one optional field. */
  ghost predicate FieldAfter(changes: seq<Change>, target: Target, before: Option<string>, after: Option<string>) {
    && (forall c :: c in changes && TargetOf(c) == target ==> after == (if c.ClearRules? then None else Some(c.value)))
    && ((forall c :: c in changes ==> TargetOf(c) != target) ==> after == before)
  }

  lemma {:induction false} ChangedMeans(c: Content, changes: seq<Change>)
    requires DistinctTargets(changes)
    ensures FieldAfter(changes, SystemPromptTarget, c.systemPrompt, Changed(c, changes).systemPrompt)
    ensures FieldAfter(changes, RulesTarget, c.rules, Changed(c, changes).rules)
    decreases |changes|
  {
    if changes != [] {
      var first, rest := changes[0], changes[1..];
      assert forall x :: x in changes <==> x == first || x in rest;
      assert forall i :: 0 <= i < |rest| ==> TargetOf(rest[i]) != TargetOf(first);
      ChangedMeans(Change1(c, first), rest);
    }
  }

  lemma {:induction false} ChangedIsGood(c: Content, changes: seq<Change>)
    requires GoodContent(c) && forall x :: x in changes ==> GoodChange(x)
    ensures GoodContent(Changed(c, changes))
    decreases |changes|
  {
    if changes != [] {
      hide GoodField;
      assert changes[0] in changes;
      ChangedIsGood(Change1(c, changes[0]), changes[1..]);
    }
  }

  /** A patch is valid: at least one change, each good and on its own field, and bounded,
      good, different evidence. */
  ghost predicate GoodPatch(p: Patch) {
    && p.changes != [] && (forall c :: c in p.changes ==> GoodChange(c)) && DistinctTargets(p.changes)
    && |p.evidence| <= MAX_HARNESS_EVIDENCE_REFS && (forall e :: e in p.evidence ==> GoodEvidence(e))
    && forall i, j :: 0 <= i < j < |p.evidence| ==> Cited(p.evidence[i]) != Cited(p.evidence[j])
  }

  /** A patch applies exactly when it is valid and made for this valid snapshot; the new
      snapshot has each changed field as changed and every other field as it was, under its
      own address. */
  lemma PatchedExactly(address: Address, p: Patch, base: Snapshot)
    ensures Apply(address, p, base).Ok? <==> GoodPatch(p) && ValidSnapshot(address, base) && p.baseDigest == base.digest
    ensures Apply(address, p, base).Ok? ==>
      var next := Apply(address, p, base).value;
      && ValidSnapshot(address, next)
      && FieldAfter(p.changes, SystemPromptTarget, base.content.systemPrompt, next.content.systemPrompt)
      && FieldAfter(p.changes, RulesTarget, base.content.rules, next.content.rules)
  {
    hide GoodField, GoodEvidence, FieldAfter, Changed;
    if GoodPatch(p) && ValidSnapshot(address, base) {
      ChangedIsGood(base.content, p.changes);
      ChangedMeans(base.content, p.changes);
    }
  }

  method ApplyPatch(address: Address, p: Patch, base: Snapshot) returns (r: Result<Snapshot, Refusal>)
    ensures r == Apply(address, p, base)
  {
    var _ :- ValidatePatch(p);
    var _ :- ValidateSnapshot(address, base);
    var _ :- Ensure(p.baseDigest == base.digest, StaleBase);
    var content := base.content;
    for i := 0 to |p.changes|
      invariant Changed(base.content, p.changes) == Changed(content, p.changes[i..])
    {
      match p.changes[i] {
        case SetSystemPrompt(value) => content := content.(systemPrompt := Some(value));
        case SetRules(value) => content := content.(rules := Some(value));
        case ClearRules => content := content.(rules := None);
      }
    }
    return NewSnapshot(address, content);
  }
}
