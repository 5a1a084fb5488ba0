# Verification of the continual-harness SDK

A Dafny model of the parts of the repository whose correctness rests on reasoning
across several functions or over whole runs, with proofs of what they promise. One
module per component; a `...Theorems` module states the results about the component
beside it, and a `...Records`, `...View`, `...Contents` or `...Schedule` module what it
writes, shows, keeps or plans, value by value. `dafny verify dfyconfig.toml` checks everything. Nothing was executed.

What is modelled, component by component:

- **Ledger** (`Harness`, `Ledger`, `LedgerTheorems`, `LedgerRecords`, `LedgerLimits`): a
  scoped map of versioned entries takes proposals edit by edit, records snapshots, and
  rolls an event back all-or-nothing. Rollback is proved to be the exact inverse with a
  frame.
- **Supplement** (`Snapshots`, `Supplement`, `SupplementTheorems`, `SupplementView`,
  `SupplementLimits`): the ledger rendered into a marked prompt section, stripped and
  rendered again.
- **Conversation compaction** (`Conversation`, `HistoryRepair`, `BudgetFit`,
  `SummaryFormat`, `CompactedHistory`, `CompactedContents`): pairing of tool calls and results through repair,
  budget fitting and rebuilding, and the clean-up of summaries.
- **Protocols** (`Activation`, `ActivationTheorems`, `ActivationSchedule`, `Wakeup`,
  `Evidence`): the fenced activation queue, the feeder/resizer/waiter generation protocol,
  and the compare-and-swap evidence store.
- **Encodings** (`CanonicalJson`, `FieldEncoding`, `FieldLayout`, `Tokens`): what content
  addresses are computed over.
- **Framing and admission** (`LineReader`, `Workflow`, `Capability`).
- **Shared** (`Text`, `Decimals`, `StringOrder`): strings as Rust sees them. Characters
  are Unicode scalar values and `Utf8Len` is the byte length.

Source functions that update something in place, or loop, are methods (of a class where
the source has an object) proved against a specification function; the properties are
lemmas about that function. Environment inputs are parameters: SHA-256 is an arbitrary
function, the clock is an argument, the token estimator is an arbitrary cost, the query
extraction of user texts an arbitrary function, the terminal grid an arbitrary type. A
state machine's interleavings are all finite sequences of its steps.

Where the code and its comments disagree, the model follows the code:

- `repair_history` is documented as idempotent. It is not when a message declares one
  call id twice and leaves it unanswered: `RepairIdempotentIff` gives the exact
  condition, `RepairNotIdempotent` the input.
- `consecutive_failures` is documented as counting iterations whose every operation
  failed. It also counts one with an operation still in flight: `StreakVersusPublished`
  is the exact condition, `StreakCountsInFlight` an input.
- Fencing tokens are documented as never reused for an item. A purge forgets them:
  `TokensRepeatIff` says exactly when a run mints a token twice, `PurgeReusesTokens` is
  such a run; while the item stays, `TokensAreConsecutive` holds.
- `apply` is documented as isolating each edit. A refusal text over 4 KiB fails the whole
  proposal: `IsolationIff` says exactly when, `RoomyProposalIsIsolated` what a caller can
  check on the proposal alone, and `LongTitleFailsAll` and `LongNameIsReached` the inputs.
- The text budget is documented as keeping every evolved prompt under the field limit.
  The base prompt counts too: `EvolvesIff` is the exact condition, `RoomyPromptEvolves`
  the room that is always enough, `FullPromptCannotEvolve` and `BarePromptCannotEmpty`
  the inputs.
- `WorkflowCeilings::validate` is documented as refusing a zero anywhere. It refuses an
  all-zero budget only, and a single zero is read as no limit: `ZeroIsAdmitted`,
  `ZeroIsNoLimit`.
- `WaitDiagnostics::ended` is documented as "the condition could never have been met". A
  resize after the feeder's exit changes the grid without a bump: `EndedIsRightIff` is
  the exact condition, `SilentResizeMisleads` builds the interleaving.
- An `ArtifactHandle` is documented as never existing with a disagreeing id and digest,
  but its derived deserializer does not check. Receipts cover the id only:
  `ReceiptUnique` says exactly what they cover, `ArtifactDigestIsOpen` gives two receipts
  that differ in the digest alone.

## Model

| member | source | states |
|---|---|---|
| `LedgerTheorems.RollbackInvertsApply` | crates/sophon-sdk/src/evolution.rs:1306-1395 | For any valid ledger u, however reached: rolling back an applied event succeeds iff u agrees with the event's result on the ids it touched (and the restored map fits the budgets, the event applied something, the revision can advance); it then sets exactly those ids back to their values before the event and nothing else; any u that differs there is refused as a conflict. |
| `LedgerTheorems.UnwindInverts` | crates/sophon-sdk/src/evolution.rs:1327-1353 | The reverse walk over a faithful record is the inverse with a frame, also when one event edits one id several times. |
| `LedgerTheorems.RollbackOfRecord` | crates/sophon-sdk/src/evolution.rs:1306-1395 | The same exact success condition and effect for every well-formed, faithfully recorded event. |
| `LedgerTheorems.SecondRollback` | crates/sophon-sdk/src/evolution.rs:1306-1395 | Rolling one event back twice succeeds iff the event had no net effect, and then changes no entry. |
| `LedgerTheorems.HistoryUnwinds` | crates/sophon-sdk/src/evolution.rs:1306-1395 | Any number of committed proposals, each of which applied something, unwind, last first, to the entries they started from, as long as the revision has room. |
| `LedgerTheorems.ApplyExactly` | crates/sophon-sdk/src/evolution.rs:1251-1301 | `apply` succeeds iff its inputs validate, the revision can advance and every refusal text fits its bound; the closing validation can never be why it fails. |
| `LedgerTheorems.EditLoopIsSound` | crates/sophon-sdk/src/evolution.rs:1264-1285 | The edit loop keeps budgets, key = id and entry validity; the record is faithful; applied and rejected positions partition 0..n, each in order. |
| `LedgerTheorems.EditIsSound` | crates/sophon-sdk/src/evolution.rs:1492-1574 | One edit, accepted or refused, keeps the ledger sound, and an accepted one records exactly what it found and left. |
| `LedgerTheorems.RejectionIsIsolated` | crates/sophon-sdk/src/evolution.rs:1264-1285 | Leaving a refused edit out of the proposal changes nothing the other edits do. |
| `LedgerTheorems.RunsStayValid` | crates/sophon-sdk/src/evolution.rs:1401-1427 | Every run of applies and rollbacks from an empty ledger keeps the budgets and entry validity; the revision is the number of events, which form one linear chain. |
| `LedgerRecords.CreateExactly` | crates/sophon-sdk/src/evolution.rs:1505-1533 | A create is accepted iff it is well formed, its id is free and the entry it asks for is valid and within budget; what it stores is that entry, field by field. |
| `LedgerRecords.UpdateExactly` | crates/sophon-sdk/src/evolution.rs:1534-1561 | An update is accepted iff its entry exists, is of its kind and at the version it was planned against, and the revised entry is valid and within budget; it stores the edit's title, content and skill where given and the old ones elsewhere, one version on. |
| `LedgerRecords.DeleteExactly` | crates/sophon-sdk/src/evolution.rs:1562-1574 | A delete is accepted iff its entry exists, is of its kind and at the planned version; it leaves nothing. |
| `LedgerRecords.ApplyWrites` | crates/sophon-sdk/src/evolution.rs:1264-1301 | The event of an application: its kind, scope, revisions, texts, evidence and time, an account of every edit, and a record whose replay gives the new entries. |
| `LedgerRecords.RollbackWrites` | crates/sophon-sdk/src/evolution.rs:1327-1392 | The event of a rollback: its kind names the event undone, the given reason, that event as the only evidence, and the inverted record is a faithful record of the change that was made. |
| `LedgerRecords.RollbackIsFinal` | crates/sophon-sdk/src/evolution.rs:1320-1324 | A rollback can never be rolled back itself: it is refused as not an application. |
| `LedgerRecords.ScopesAreKeptApart` | crates/sophon-sdk/src/evolution.rs:1314-1319 | An event is rolled back on ledgers of its own scope only. |
| `LedgerRecords.RefusedBecause` | crates/sophon-sdk/src/evolution.rs:1505-1574 | Which reason a well-formed edit is refused for: a taken or unknown id, another kind, another version, the last version. |
| `LedgerRecords.RefusedOverBudget` | crates/sophon-sdk/src/evolution.rs:1597-1611 | A valid entry is refused over the number of entries first, then over their text. |
| `LedgerRecords.TextBytesAreBytes` | crates/sophon-sdk/src/evolution.rs:340-350 | What counts against the text budget is the byte length of all of an entry's text. |
| `LedgerRecords.AppliedIff` | crates/sophon-sdk/src/evolution.rs:792-840 | A record validates iff its snapshots fit its action, are valid and are of the entry it names. |
| `LedgerRecords.ScopeIff` | crates/sophon-sdk/src/evolution.rs:134-144 | A scope validates iff a session's id is a bounded text without markers. |
| `LedgerRecords.EntryIff` | crates/sophon-sdk/src/evolution.rs:352-386 | An entry validates iff every text is bounded and free of markers, a skill contract stands exactly on skill entries, and version and times are in order. |
| `LedgerRecords.EditIff` | crates/sophon-sdk/src/evolution.rs:566-595 | An edit validates iff it carries exactly what its action needs. |
| `LedgerRecords.ProposalIff` | crates/sophon-sdk/src/evolution.rs:691-720 | A proposal validates iff its texts are bounded and it has 1 to 32 valid edits. |
| `LedgerLimits.LongRefusalFailsAll` | crates/sophon-sdk/src/evolution.rs:865-872 | The limit of per-edit isolation: one refusal text over the event's bound fails the whole proposal. |
| `LedgerLimits.IsolationIff` | crates/sophon-sdk/src/evolution.rs:1251-1301 | With the deployed error texts: a valid proposal on a valid ledger is applied, whatever becomes of its edits, iff no edit overruns - no create edit has an underivable title over 4021 bytes, and no edit is stopped, on the map it meets, at a skill argument name over 4030 bytes. Every other refusal text is proved to fit. |
| `LedgerLimits.RoomyProposalIsIsolated` | crates/sophon-sdk/src/evolution.rs:1251-1301 | Checkable on the proposal alone: when every title that yields no id and every argument name keeps to that room, no ledger makes a refusal fail the proposal. |
| `LedgerLimits.EditStops` | crates/sophon-sdk/src/evolution.rs:1492-1574 | A refusal repeats the title, or an argument name, in exactly two cases; every other one repeats only entry ids and numbers. |
| `LedgerLimits.LongTitleFailsAll` | crates/sophon-sdk/src/evolution.rs:412-432 | A create edit whose title yields no id - no letter or digit, or a slug one byte too long - and has over 4021 bytes fails the whole proposal, at any position and on any ledger. |
| `LedgerLimits.LongNameFailsAll` | crates/sophon-sdk/src/evolution.rs:254-288 | So does any edit refused over an argument name of over 4030 bytes. |
| `LedgerLimits.LongNameIsReached` | crates/sophon-sdk/src/evolution.rs:1505-1533 | A first edit that creates an otherwise sound skill entry with such a name is one. |
| `LedgerLimits.DerivedIdIff` | crates/sophon-sdk/src/evolution.rs:412-432 | A title yields an id iff it has an ASCII letter or digit and its slug is not the one byte too long the loop can make it. |
| `LedgerLimits.TitleIsDashed` | crates/sophon-sdk/src/evolution.rs:412-432 | The id of a title is its words in lower case joined by single dashes, whatever stands around and between them, below 128 characters. |
| `LedgerLimits.SlugShape` | crates/sophon-sdk/src/evolution.rs:412-428 | A slug holds id characters only, starts with a letter or digit, and has at most 129 bytes. |
| `Ledger.SlugOf` | crates/sophon-sdk/src/evolution.rs:412-428 | The character loop computes the slug function. |
| `Ledger.EntryTable.ApplyEdit` | crates/sophon-sdk/src/evolution.rs:1492-1574 | In place: the map afterwards is the map with the accepted outcome put in, or the map as it was when the edit is refused. |
| `Ledger.EntryTable.Create` | crates/sophon-sdk/src/evolution.rs:1505-1533 | Insert, check the budgets, undo on failure: the map is changed only by an accepted create. |
| `Ledger.EntryTable.Replace` | crates/sophon-sdk/src/evolution.rs:1534-1561 | Replace, check the budgets, put the old entry back on failure. |
| `Ledger.ApplyProposal` | crates/sophon-sdk/src/evolution.rs:1251-1301 | The imperative application computes the specified one. |
| `Ledger.UnwindLoop` | crates/sophon-sdk/src/evolution.rs:1327-1353 | The reverse loop computes the unwound map and the inverted edits. |
| `Ledger.RollbackApplied` | crates/sophon-sdk/src/evolution.rs:1306-1395 | The imperative rollback computes the specified one. |
| `Text.TrimEmpty` | crates/sophon-sdk/src/evolution.rs:90-107 | The blank test behind every bounded text is exactly an empty trim. |
| `Harness.BuildEvent` | crates/sophon-sdk/src/evolution.rs:905-938 | An event is built iff its body is valid one revision on, and is addressed by its body. |
| `Harness.ValidateEventEdits` | crates/sophon-sdk/src/evolution.rs:1037-1111 | Accepts exactly non-empty, bounded lists with distinct indices, valid snapshots and bounded refusals. |
| `Harness.ValidateState` | crates/sophon-sdk/src/evolution.rs:1401-1427 | Accepts exactly the states whose entries are valid, filed under their id and within budget. |
| `Harness.TotalTextWithout` | crates/sophon-sdk/src/evolution.rs:1397-1399 | The text budget is additive: it does not depend on which entry is taken out first. |
| `SupplementTheorems.EvolutionIsFixpoint` | crates/sophon-sdk/src/evolution.rs:1711-1745 | After applying the returned patch, the same call returns nothing to do iff a supplement is injected or no end marker stood in front of the old section; otherwise it refuses the prompt the first call produced. |
| `SupplementTheorems.EvolvedPatchApplies` | crates/sophon-sdk/src/harness.rs:1282-1302 | The patch is always accepted by the snapshot it was derived from, changes the system prompt to the computed one and leaves the rules alone. |
| `SupplementTheorems.NextReplaces` | crates/sophon-sdk/src/evolution.rs:1711-1733 | Rewriting twice is rewriting once with the later supplement (same proviso). |
| `SupplementTheorems.SectionIsMarkedOnce` | crates/sophon-sdk/src/evolution.rs:1617-1704 | For all valid entries and events the section opens with the only begin marker and closes with the only end marker. |
| `SupplementTheorems.StripAppended` | crates/sophon-sdk/src/evolution.rs:1751-1775 | Stripping undoes appending a section to a trimmed text without a begin marker. |
| `SupplementTheorems.StrippedMarkers` | crates/sophon-sdk/src/evolution.rs:1751-1775 | What a strip leaves has no begin marker, and an end marker iff one stood before the removed section. |
| `SupplementTheorems.StrayEndMarkerWedges` | crates/sophon-sdk/src/evolution.rs:1751-1775 | A concrete prompt on which emptying the ledger leaves a prompt no later call accepts. |
| `SupplementLimits.SectionFits` | crates/sophon-sdk/src/evolution.rs:41-44 | However full two valid ledgers and their history are, their section stays below 731 KB, which leaves a base prompt more than 300 KB of the field. |
| `SupplementLimits.EvolvesIff` | crates/sophon-sdk/src/evolution.rs:1711-1745 | Evolving succeeds iff the snapshot and the ledgers are valid, the prompt strips, and either nothing changes or the base text leaves room for the section (without a section: is not empty) and the cited events have usable, different ids. |
| `SupplementLimits.RoomyPromptEvolves` | crates/sophon-sdk/src/evolution.rs:41-44 | So with the room two full ledgers can need, every evolved prompt is within the field limit. |
| `SupplementLimits.FullPromptCannotEvolve` | crates/sophon-sdk/src/evolution.rs:1711-1745 | A base prompt within 40 bytes of the limit can take no section at all. |
| `SupplementLimits.BarePromptCannotEmpty` | crates/sophon-sdk/src/evolution.rs:1711-1745 | A prompt that is only a section cannot be evolved once the ledgers are empty. |
| `SupplementView.ViewShows` | crates/sophon-sdk/src/evolution.rs:1641-1646 | The view holds exactly the ids of the two ledgers, each once and in order; under each stands the session's entry, or the global one where the session has none. |
| `SupplementView.RenderedIff` | crates/sophon-sdk/src/evolution.rs:1621-1649 | Rendering succeeds iff each given ledger is valid and of its scope, and shows nothing iff both are empty. |
| `SupplementView.SectionLayout` | crates/sophon-sdk/src/evolution.rs:1650-1704 | The exact layout: under the heading of its kind every entry with title, origin, id, version, content and contract, in order, then the history. |
| `SupplementView.EntryIsShown` | crates/sophon-sdk/src/evolution.rs:1667-1688 | Every shown entry's text, with its title and content, occurs in the part of its kind. |
| `SupplementView.RecentLists` | crates/sophon-sdk/src/evolution.rs:1689-1691 | The history lists the at most five newest events in descending order; ties keep their order, and nothing left out is newer. |
| `SupplementView.PatchCites` | crates/sophon-sdk/src/evolution.rs:1733-1745 | The patch changes the prompt only, on the deriving snapshot, and cites the first 64 events in order. |
| `Supplement.RenderHarnessSupplement` | crates/sophon-sdk/src/evolution.rs:1617-1704 | The appending loops produce the specified section. |
| `Snapshots.ApplyPatch` | crates/sophon-sdk/src/harness.rs:1282-1302 | The in-place change loop computes the patched, re-addressed snapshot or the first refusal. |
| `Snapshots.PatchedExactly` | crates/sophon-sdk/src/harness.rs:1282-1302 | A patch applies iff it is valid and made for this valid snapshot; each changed field is as changed and every other as it was. |
| `Snapshots.ValidateChanges` | crates/sophon-sdk/src/harness.rs:1247-1262 | Accepts exactly lists of valid changes with pairwise different targets. |
| `Snapshots.ValidateEvidence` | crates/sophon-sdk/src/harness.rs:1263-1279 | Accepts exactly lists of valid references with pairwise different identities. |
| `HistoryRepairTheorems.RepairIdempotentIff` | crates/codegen/xai-chat-state/src/compaction_utils.rs:1118-1141 | Repairing twice equals repairing once iff no message declares one call id twice without answering it. The source comment claims this for every history. |
| `HistoryRepairTheorems.RepairNotIdempotent` | crates/codegen/xai-chat-state/src/compaction_utils.rs:1118-1141 | The shortest history on which a second repair undoes part of the first. |
| `HistoryRepairTheorems.RepairFixesOnlyBroken` | crates/codegen/xai-chat-state/src/compaction_utils.rs:1126-1141 | Repair changes nothing exactly on the histories providers accept: each result right after its message, one per call. |
| `HistoryRepairTheorems.RepairReachesWellFormed` | crates/codegen/xai-chat-state/src/compaction_utils.rs:1126-1141 | The repaired history is such a history iff no message repeats an unanswered call id. |
| `HistoryRepairTheorems.RepairedIsPaired` | crates/codegen/xai-chat-state/src/compaction_utils.rs:1126-1141 | A repaired history obeys the adjacency rule whatever it came from, and both filters leave it untouched. |
| `HistoryRepairTheorems.RepairKeepsOthers` | crates/codegen/xai-chat-state/src/compaction_utils.rs:1126-1141 | Every item that is not a tool result survives repair, in order. |
| `HistoryRepairTheorems.StripPairs` | crates/codegen/xai-chat-state/src/compaction_utils.rs:1152-1178 | The filter yields a paired history, reports nothing iff the history was paired, and then changes nothing. |
| `HistoryRepairTheorems.StripSubsumesSanitize` | crates/codegen/xai-chat-state/src/compaction_utils.rs:1152-1178 | The adjacency filter removes everything sanitizing removes, absorbs it in either order, and its output is clean for it. |
| `HistoryRepairTheorems.SanitizedValidates` | crates/codegen/xai-chat-state/src/compaction_utils.rs:1039-1100 | Sanitized output validates clean; nothing is reported iff nothing is removed; items and reports add up. |
| `HistoryRepairTheorems.FixedRunAnswers` | crates/codegen/xai-grok-sampling-types/src/conversation.rs:2090-2150 | What the passes make of one run answers every call, and each once unless an unanswered id was repeated. |
| `HistoryRepairContents.StripNext` | crates/codegen/xai-chat-state/src/compaction_utils.rs:1152-1178 | A result is kept iff the last item before it that is no result is the assistant message that declared its id. |
| `HistoryRepairContents.SanitizeNext` | crates/codegen/xai-chat-state/src/compaction_utils.rs:1073-1100 | A result is kept iff some earlier assistant message declared its id. |
| `HistoryRepairContents.NewestResultWins` | crates/codegen/xai-grok-sampling-types/src/conversation.rs:2217-2272 | Within a run the newest result of an id takes the place of the older ones. |
| `HistoryRepairContents.SyntheticNext` | crates/codegen/xai-grok-sampling-types/src/conversation.rs:2100-2140 | Every unanswered call gets one result, in call order, under its id and naming its tool. |
| `HistoryRepair.SanitizeCompactedHistory` | crates/codegen/xai-chat-state/src/compaction_utils.rs:1073-1100 | The filter loop strips exactly the ids the read-only check reports, in order. |
| `HistoryRepair.ValidateCompactedHistory` | crates/codegen/xai-chat-state/src/compaction_utils.rs:1039-1057 | The scan reports exactly those ids. |
| `HistoryRepair.History.StripDisplacedToolResults` | crates/codegen/xai-chat-state/src/compaction_utils.rs:1152-1178 | In place: the history becomes its filtered form and the removed ids are returned in order. |
| `HistoryRepair.History.DedupDuplicateToolResults` | crates/codegen/xai-grok-sampling-types/src/conversation.rs:2217-2272 | In place: each run keeps the last result of every id; the count is the items removed. |
| `HistoryRepair.History.RepairDanglingToolCalls` | crates/codegen/xai-grok-sampling-types/src/conversation.rs:2090-2150 | In place: a synthetic result per unanswered call, behind its run and in call order; the count is the items inserted. |
| `HistoryRepair.SpliceAll` | crates/codegen/xai-grok-sampling-types/src/conversation.rs:2143-2148 | Splicing recorded repairs from the back inserts each at the position it was recorded for. |
| `HistoryRepair.RemoveMarked` | crates/codegen/xai-grok-sampling-types/src/conversation.rs:2252-2262 | Removing marked positions from the back leaves the last result of every id. |
| `HistoryRepair.History.RepairHistory` | crates/codegen/xai-chat-state/src/compaction_utils.rs:1126-1141 | The three passes in order; lengths and reports balance. |
| `Conversation.PairedIsRunPaired` | crates/codegen/xai-chat-state/src/compaction_utils.rs:1141-1151 | The left-to-right scan decides the contiguous-run rule stated on positions. |
| `BudgetFitTheorems.KeptStartIsLongest` | crates/codegen/xai-chat-state/src/compaction_utils.rs:170-188 | The kept part is the longest suffix within the budget with its leading results dropped: every longer suffix costs more. |
| `BudgetFitTheorems.FittedCosts` | crates/codegen/xai-chat-state/src/compaction_utils.rs:162-195 | The suffix form costs at most `max_tokens` whenever the head alone fits. |
| `BudgetFitTheorems.FittedPaired` | crates/codegen/xai-chat-state/src/compaction_utils.rs:162-229 | Run-paired input gives run-paired output, in the suffix and in the truncated form. |
| `BudgetFitTheorems.FittedKeepsLast` | crates/codegen/xai-chat-state/src/compaction_utils.rs:162-229 | However small the budget, the newest item survives with at most its text cut. |
| `BudgetFitTheorems.TruncatedTextFits` | crates/codegen/xai-chat-state/src/compaction_utils.rs:260-275 | The cut is the longest whole-character prefix within the reserve; the result is within the limit iff the dropped count's digits beyond eight fit the unused bytes, so always below 10^8 dropped bytes. |
| `BudgetFitContents.FittedIs` | crates/codegen/xai-chat-state/src/compaction_utils.rs:162-195 | What fits is left alone; otherwise the opening system item stays in front of the longest suffix that fits what it leaves of the budget, or of the last turn. |
| `BudgetFitContents.ShortItemIsCut` | crates/codegen/xai-chat-state/src/compaction_utils.rs:231-258 | Every text of a truncated item is the original when it fits, or its longest fitting prefix with the marker; nothing else of the item changes. |
| `BudgetFitContents.UnitIsLastTurn` | crates/codegen/xai-chat-state/src/compaction_utils.rs:197-229 | The last turn keeps the calling message as it is and cuts every result to an equal share of what that message leaves; without results the last item is cut to the whole budget. |
| `BudgetFit.TruncateTextToBytes` | crates/codegen/xai-chat-state/src/compaction_utils.rs:260-275 | Walking back to a character boundary computes that cut. |
| `BudgetFit.RecoverTruncatedTailUnit` | crates/codegen/xai-chat-state/src/compaction_utils.rs:197-229 | Popping the tail computes the truncated unit: trailing results, their owner, equal shares. |
| `BudgetFit.FitConversationToBudget` | crates/codegen/xai-chat-state/src/compaction_utils.rs:162-195 | The loops compute the fitted history; it is the input itself when the total fits. |
| `SummaryFormatTheorems.FormattedIsClean` | crates/codegen/xai-chat-state/src/compaction_utils.rs:751-824 | Every output is free of the six control tokens and of triple newlines, and is trimmed. |
| `SummaryFormatTheorems.FormattedIsIdempotent` | crates/codegen/xai-chat-state/src/compaction_utils.rs:751-824 | Cleaning twice is cleaning once. |
| `SummaryFormatTheorems.UntaggedIsOnlyTrimmed` | crates/codegen/xai-chat-state/src/compaction_utils.rs:751-824 | A text without control tokens and triple newlines is only trimmed. |
| `SummaryFormatTheorems.ReplaceClears` | crates/codegen/xai-chat-state/src/compaction_utils.rs:817-824 | Defusing one token removes it and introduces no other. |
| `SummaryFormatTheorems.NumberedIsPreserved` | crates/codegen/xai-chat-state/src/compaction_utils.rs:741-785 | A summary block that opens with a numbered section comes out of the cleaner with all of its text and all of the text around it, whatever tags it quotes: those are only defused, blank lines collapsed and the ends trimmed; without any of these it is verbatim. |
| `SummaryFormatTheorems.ScratchpadIsDropped` | crates/codegen/xai-chat-state/src/compaction_utils.rs:800-812 | Any other block loses everything up to its last closing analysis token. |
| `SummaryFormatTheorems.DraftIsDropped` | crates/codegen/xai-chat-state/src/compaction_utils.rs:752-774 | A draft that opens the output is dropped up to its closing tag, and the rest is cleaned as if it had never been there. |
| `SummaryFormatTheorems.ScratchpadLeaves` | crates/codegen/xai-chat-state/src/compaction_utils.rs:800-815 | What is left of a block without numbered opening: the text behind its last closing analysis tag, or all of it without one. |
| `SummaryFormatTheorems.CollapsedIsSquashed` | crates/codegen/xai-chat-state/src/compaction_utils.rs:781-783 | Repeated replacing leaves exactly two newlines of every longer run and nothing else out. |
| `SummaryFormat.FormatCompactSummary` | crates/codegen/xai-chat-state/src/compaction_utils.rs:751-785 | The loops terminate with every slice in bounds and compute the specified text. |
| `SummaryFormat.DropOne` | crates/codegen/xai-chat-state/src/compaction_utils.rs:752-774 | One leading analysis block is removed; the text shrinks whenever another round follows. |
| `SummaryFormat.TagsApart` | crates/codegen/xai-chat-state/src/compaction_utils.rs:754-779 | Occurrences of tags never overlap, which is why every slice is in bounds. |
| `CompactedHistory.CompactedIsPaired` | crates/codegen/xai-chat-state/src/compaction_utils.rs:954-1021 | From any run-paired conversation, with or without the working tail, the built history has no orphaned or displaced result. |
| `CompactedHistory.CompactedVoices` | crates/codegen/xai-chat-state/src/compaction_utils.rs:515-576 | It carries the latest agent message exactly once and the latest human query exactly once, no other input, in their original order. |
| `CompactedHistory.ForCompactionIsContext` | crates/codegen/xai-chat-state/src/compaction_utils.rs:688-740 | Both theorems apply to the captured context and to its compaction view. |
| `CompactedHistory.RecentVoices` | crates/codegen/xai-chat-state/src/compaction_utils.rs:533-576 | The tail speaks only when the last anchor is an agent message, and then says just that message. |
| `CompactedHistory.TailPaired` | crates/codegen/xai-chat-state/src/compaction_utils.rs:550-576 | Dropping other items from a tail only widens the set of calls a result may answer. |
| `CompactedContents.QueryIsCarried` | crates/codegen/xai-chat-state/src/compaction_utils.rs:903-906 | The one human item of the compacted history is the text of the latest human query between its tags, and there is none without a query. |
| `CompactedContents.FrameIsCarried` | crates/codegen/xai-chat-state/src/compaction_utils.rs:954-1021 | It opens with the system item, the prefix and the project instructions of its place, and closes with the cleaned summary followed by its hint, and the reminder. |
| `CompactedContents.RecentIsWorking` | crates/codegen/xai-chat-state/src/compaction_utils.rs:533-576 | The tail holds every assistant and agent message as it was and every result by id, without its content, from the latest agent message or behind the latest human turn. |
| `CompactedHistory.BuildCompactedHistory` | crates/codegen/xai-chat-state/src/compaction_utils.rs:954-1021 | The pushes assemble the specified history. |
| `ActivationTheorems.TokensAreConsecutive` | crates/sophon-sdk/src/activation.rs:131-136 | In every run of wake, claim, renew, release and purge at any instants, the tokens minted for an item that is not purged are consecutive: they strictly rise and none is reused. |
| `ActivationTheorems.TokenSettlesOnce` | crates/sophon-sdk/src/activation.rs:401-413 | No token settles an item twice, however often a release is retried. |
| `ActivationTheorems.RetriedReleaseIsAnswered` | crates/sophon-sdk/src/activation/local.rs:464-468 | The settling token is answered AlreadySettled, without effect, until the item is settled again or purged. |
| `ActivationTheorems.StaleHandlesAreFenced` | crates/sophon-sdk/src/activation/local.rs:453-495 | A release changes the table iff its handle is the lease, unexpired at that instant, and its values can be stored; every other handle, an expired holder included, changes nothing and is answered AlreadySettled exactly under the token that settled last, else Fenced. |
| `ActivationTheorems.OnlyTheHolderRenews` | crates/sophon-sdk/src/activation/local.rs:415-451 | A renewal is granted iff its handle is the unexpired lease and the lease time is within its limits; every other handle changes nothing and is fenced. |
| `ActivationTheorems.LeaseExcludes` | crates/sophon-sdk/src/activation.rs:488-505 | While instants stay before a lease's expiry and its holder is silent, nobody else is granted the item. |
| `ActivationTheorems.ClaimDueTakesTheFirst` | crates/sophon-sdk/src/activation/local.rs:351-385 | A sweep selects exactly the first `limit` claimable items in (due, id) order and grants them all, iff the instant can be stored and each of them has a next token and expiry the table can hold; otherwise it fails. |
| `ActivationTheorems.ClaimableMeansGranted` | crates/sophon-sdk/src/activation.rs:457-466 | A named claim is granted iff the item is claimable at that instant and the new values can be stored. |
| `ActivationTheorems.EveryStep` | crates/sophon-sdk/src/activation/local.rs:299-516 | Every operation changes a row it keeps in one of four ways, visible in its answer. |
| `ActivationTheorems.StepsKeepValid` | crates/sophon-sdk/src/activation/local.rs:184-237 | No operation stores counters, instants, a lease or a settlement its own validation would refuse; every number is one a signed column holds. |
| `ActivationTheorems.RowsComeAndGo` | crates/sophon-sdk/src/activation/local.rs:505-516 | Rows enter only by a wake, without tokens, and leave only by a purge of a settled item. |
| `ActivationTheorems.TokensRepeatIff` | crates/sophon-sdk/src/activation/local.rs:505-516 | In every run from the empty store: the tokens minted for an item are pairwise different iff the item is never granted again after a purge that removed it. |
| `ActivationTheorems.PurgeReusesTokens` | crates/sophon-sdk/src/activation/local.rs:505-516 | An input, with its consequence: after wake, claim, completion and purge the next life of the item mints token 1 again, and a handle of the first life settles it. |
| `ActivationSchedule.YieldedIsDueAgain` | crates/sophon-sdk/src/activation.rs:412-418 | A yielded item is claimable from the instant it was yielded to and not before, and the claim carries its payload. |
| `ActivationSchedule.CompletedIsNeverDue` | crates/sophon-sdk/src/activation/local.rs:477-495 | A completed item is claimable at no instant and says it is settled. |
| `ActivationSchedule.CompletedUntilWoken` | crates/sophon-sdk/src/activation/local.rs:477-495 | Whatever else runs after a completion, purges included, the item is granted to nobody until it is woken. |
| `ActivationSchedule.WokenIsDue` | crates/sophon-sdk/src/activation/local.rs:299-349 | A wake that registers or reschedules makes the item claimable from its instant on, once no lease is in force, with its payload. |
| `ActivationSchedule.WakeAnswers` | crates/sophon-sdk/src/activation/local.rs:299-349 | Which answer a wake gets, and what it leaves alone. |
| `ActivationSchedule.GrantsAsAsked` | crates/sophon-sdk/src/activation/local.rs:262-297 | A grant goes to the worker that asked, for the time it asked, on the item's due time and payload. |
| `ActivationSchedule.SweepGrantsAsAsked` | crates/sophon-sdk/src/activation/local.rs:351-385 | Every grant of a sweep goes to the worker that asked, for the time it asked. |
| `ActivationSchedule.GrantedHolds` | crates/sophon-sdk/src/activation/local.rs:262-297 | The lease is held up to its expiry and not at it. |
| `ActivationSchedule.RenewedHolds` | crates/sophon-sdk/src/activation/local.rs:415-451 | After a renewal the lease is held up to the new expiry and not at it. |
| `ActivationSchedule.PurgeExactly` | crates/sophon-sdk/src/activation/local.rs:505-516 | A purge removes exactly the idle items settled at or before the cutoff and counts them. |
| `ActivationSchedule.CompletedIsPurged` | crates/sophon-sdk/src/activation/local.rs:505-516 | A completed item goes with the first purge whose cutoff reaches its completion. |
| `Activation.LocalActivationCoordinator.Wake` | crates/sophon-sdk/src/activation/local.rs:299-349 | Registers, reschedules, or leaves a held or identical item alone; an error changes nothing. |
| `Activation.LocalActivationCoordinator.ClaimDue` | crates/sophon-sdk/src/activation/local.rs:351-385 | Grants the selected rows together or, on any error, none. |
| `Activation.LocalActivationCoordinator.ClaimItem` | crates/sophon-sdk/src/activation/local.rs:387-413 | Answers why a named claim is refused, or stores the grant. |
| `Activation.LocalActivationCoordinator.Renew` | crates/sophon-sdk/src/activation/local.rs:415-451 | Moves the expiry of exactly the presented lease. |
| `Activation.LocalActivationCoordinator.Release` | crates/sophon-sdk/src/activation/local.rs:453-495 | Checks the settled token before the lease; records the outcome and clears the lease. |
| `Activation.LocalActivationCoordinator.PurgeSettled` | crates/sophon-sdk/src/activation/local.rs:505-516 | Removes exactly the purgeable rows and counts them. |
| `Activation.DueQueue` | crates/sophon-sdk/src/activation/local.rs:362-367 | The selection holds exactly the claimable ids, strictly ordered by due time and id. |
| `Wakeup.NoLostWakeup` | crates/codegen/ptyctl/src/wait.rs:97-128 | In every interleaving a parked waiter has checked the current grid, or sees a newer generation, or a bump is on its way, or the sender is gone. |
| `Wakeup.RestingWaiterIsRight` | crates/codegen/ptyctl/src/wait.rs:97-128 | When everything else has come to rest, a waiter still waiting is right: the condition is false on the grid. |
| `Wakeup.EndedIsFinal` | crates/codegen/ptyctl/src/wait.rs:119-123 | `ended` rests on a check that found the condition false on a grid holding all output: the final grid differs from it by resizes alone. |
| `Wakeup.EndedIsRightIff` | crates/codegen/ptyctl/src/wait.rs:119-123 | `ended` implies a false condition on the grid as it stands, in every interleaving from every start, iff no resize turns a grid without the condition into one with it. |
| `Wakeup.EndingSawEveryBump` | crates/codegen/ptyctl/src/wait.rs:97-128 | A waiter ends only when nobody can bump any more and every bump was seen: an unseen version is reported before the closure. |
| `Wakeup.SilentResizeMisleads` | crates/codegen/ptyctl/src/session.rs:272-284 | For any grid without the condition and any resize of it that meets the condition there is an interleaving that ends with `ended` reported on a grid that meets it. |
| `Wakeup.EveryInterleavingKeepsInvariant` | crates/codegen/ptyctl/src/session.rs:158-174 | Lock ownership, pending bumps and what the waiter evaluated, kept by every step of feeder, resizes and waiter. |
| `Wakeup.OutputIsFed` | crates/codegen/ptyctl/src/session.rs:158-174 | In every interleaving output is fed once, whole and in the order it was read; without resizes the grid is the first grid fed with just that. |
| `Wakeup.RawTail.Push` | crates/codegen/ptyctl/src/wait.rs:202-213 | However output is cut into pushes, the bounded tail is the last bytes of everything ever pushed. |
| `CanonicalJson.MeaningIsFaithful` | crates/sophon-sdk/src/provenance.rs:46-63 | Two values canonicalize alike iff they are equal up to object key order. |
| `CanonicalJson.CanonKeepsMeaning` | crates/sophon-sdk/src/provenance.rs:46-63 | The value is unchanged as nested maps. |
| `CanonicalJson.CanonIsCanonical` | crates/sophon-sdk/src/provenance.rs:46-63 | Every object at every depth is sorted. |
| `CanonicalJson.CanonicalIsUnique` | crates/sophon-sdk/src/provenance.rs:46-63 | There is one canonical form per meaning. |
| `CanonicalJson.CanonIsIdempotent` | crates/sophon-sdk/src/provenance.rs:46-63 | Idempotent, and the identity on canonical values. |
| `CanonicalJson.CanonicalizeJson` | crates/sophon-sdk/src/provenance.rs:46-63 | Rewriting children first and then sorting entries computes the canonical form. |
| `FieldEncoding.EncodeInjective` | crates/sophon-sdk/src/program.rs:137-152 | Equal encodings come from equal field lists, whatever the fields contain. |
| `FieldEncoding.EncodeFields` | crates/sophon-sdk/src/program.rs:143-152 | The loop builds the encoding. |
| `FieldEncoding.EnvironmentUnique` | crates/sophon-sdk/src/program.rs:635-653 | Equal environment pre-images come from equal environments. |
| `FieldEncoding.CaptureUnique` | crates/sophon-sdk/src/program.rs:820-830 | Two captures have the same field iff they agree on everything but the artifact's separate digest, also when an id contains bars. |
| `FieldEncoding.ReceiptUnique` | crates/sophon-sdk/src/program.rs:880-907 | Two receipts have equal pre-images iff they describe the same execution: what is not covered is exactly the root behind its lossy text and the artifacts' separate digests. |
| `FieldEncoding.ArtifactDigestIsOpen` | crates/sophon-sdk/src/program.rs:820-830 | Exchanging the digest beside a captured output's id gives a different receipt with the same pre-image. |
| `FieldEncoding.SpecUnique` | crates/sophon-sdk/src/kernel.rs:669-688 | Two specs have equal pre-images iff they are the same image, up to the lossy root and the reserved names. |
| `FieldEncoding.CheckpointUnique` | crates/sophon-sdk/src/kernel.rs:1102-1119 | Equal checkpoint pre-images are equal declarations. |
| `FieldEncoding.KernelReceiptUnique` | crates/sophon-sdk/src/kernel.rs:1211-1242 | Two kernel receipts have equal pre-images iff they describe the same execution, down to the cited checkpoint as far as the addresses do not collide. |
| `FieldLayout.ReceiptReads` | crates/sophon-sdk/src/program.rs:880-907 | Every field of a receipt can be read back from its place in the pre-image, by the parsers of its tokens and numbers. |
| `FieldLayout.KernelReceiptReads` | crates/sophon-sdk/src/kernel.rs:1211-1242 | Every field of a kernel receipt can be read back from its place. |
| `FieldLayout.CheckpointReads` | crates/sophon-sdk/src/kernel.rs:1102-1119 | Every field of a checkpoint declaration can be read back from its place. |
| `FieldLayout.SpecReads` | crates/sophon-sdk/src/kernel.rs:669-688 | Every field of a kernel spec can be read back from its place, the environment in order of names. |
| `FieldLayout.EnvironmentReads` | crates/sophon-sdk/src/program.rs:635-653 | Every binding of a launch can be read back from its place. |
| `FieldLayout.CaptureReads` | crates/sophon-sdk/src/program.rs:820-830 | The exact text of a capture field. |
| `FieldEncoding.CountedUnique` | crates/sophon-sdk/src/kernel.rs:669-688 | A list behind its count ends where the count says. |
| `Tokens.ExitRoundTrip` | crates/sophon-sdk/src/program.rs:747-778 | parse(as_token(d)) = d for every exit, negative codes included. |
| `Tokens.ExitReverse` | crates/sophon-sdk/src/program.rs:758-778 | as_token(parse(s)) = s iff the number in s is canonical (`exited:+5` is not). |
| `Tokens.ExecutionRoundTrip` | crates/sophon-sdk/src/kernel.rs:857-882 | Round trip for kernel execution dispositions, also with colons in the class. |
| `Tokens.ExecutionReverse` | crates/sophon-sdk/src/kernel.rs:868-882 | Here the reverse holds without exception. |
| `Tokens.EndingRoundTrip` | crates/sophon-sdk/src/kernel.rs:905-935 | Round trip for session dispositions. |
| `Tokens.RestorableInjective` | crates/sophon-sdk/src/kernel.rs:960-966 | Different restorable facts have different tokens, also with colons in kinds. |
| `Tokens.NonRestorableInjective` | crates/sophon-sdk/src/kernel.rs:1018-1030 | Different non-restorable facts have different tokens. |
| `Tokens.ParseSigned` | crates/sophon-sdk/src/program.rs:747-761 | Every 32-bit code is read back from its decimal text. |
| `LineReaderTheorems.ServedIsTheStream` | crates/codegen/xai-acp-lib/src/line_reader.rs:95-133 | For every chunking, schedule and read sizes, what is served is a prefix of what the stream carries, and all of it once the end or a failure is answered. |
| `LineReaderTheorems.RunsConserve` | crates/codegen/xai-acp-lib/src/line_reader.rs:95-133 | Served, stashed, queued and unsent bytes always add up to the stream, in order. |
| `LineReaderTheorems.TooLongIff` | crates/codegen/xai-acp-lib/src/line_reader.rs:140-177 | The size error is reported iff some line is longer than the cap. |
| `LineReaderTheorems.CarriedUpToLongLine` | crates/codegen/xai-acp-lib/src/line_reader.rs:140-177 | Up to the first over-long line every byte is carried, and none behind it. |
| `LineReaderTheorems.ItemsCarryTheStream` | crates/codegen/xai-acp-lib/src/line_reader.rs:66-88 | Without an over-long line or a failing source the whole stream is carried. |
| `LineReaderTheorems.ItemsAreFramed` | crates/codegen/xai-acp-lib/src/line_reader.rs:66-88 | Each item but the last ends in its only newline; a failure comes last. |
| `LineReaderTheorems.PendingOnlyBetweenLines` | crates/codegen/xai-acp-lib/src/line_reader.rs:101-132 | In every run, a read answers Pending only while the sender lives and nothing sent is held back: the consumer then has every forwarded byte - up to and including a newline while items are still to come - and the read changed nothing. |
| `LineReaderTheorems.ReadsReachTheEnd` | crates/codegen/xai-acp-lib/src/line_reader.rs:95-133 | Once everything is forwarded, as many reads of any positive sizes as bytes and items are left serve all of it; each further read answers the end once the sender is dropped, and Pending before that. |
| `LineReaderTheorems.RunReader` | crates/codegen/xai-acp-lib/src/line_reader.rs:66-133 | The reader object, driven by any schedule of sends, reads and the dropping of the sender, serves what the run serves. |
| `LineReader.ReadLineCapped` | crates/codegen/xai-acp-lib/src/line_reader.rs:140-177 | The fill loop returns the first line of the whole remaining stream, or its failure, independent of the fills. |
| `LineReader.ForwardLines` | crates/codegen/xai-acp-lib/src/line_reader.rs:66-88 | The forwarding loop sends exactly the stream's items. |
| `LineReader.LineBufferedRead.PollRead` | crates/codegen/xai-acp-lib/src/line_reader.rs:95-133 | In place: stash, channel and answer after one poll. |
| `Evidence.HistoryIsLinear` | crates/sophon-sdk/src/evidence.rs:261-334 | Under any interleaving the documents written under a key have consecutive revisions and the digests of their own bytes; the store holds the last. |
| `Evidence.OneWriterPerVersion` | crates/sophon-sdk/src/evidence.rs:261-334 | At most one swap with a given expected version ever writes, also when earlier bytes return. |
| `Evidence.RetryConflicts` | crates/sophon-sdk/src/evidence.rs:325-333 | A retry of a swap that landed, whatever it was told, answers Conflict at any later time and changes nothing. |
| `Evidence.SwapSteps` | crates/sophon-sdk/src/evidence.rs:261-334 | A swap writes the next revision of its key or changes nothing; Committed only if it wrote. |
| `Evidence.ConflictIff` | crates/sophon-sdk/src/evidence.rs:309-311 | Conflict iff the key is not at the expected version. |
| `Evidence.SwapAnswersExactly` | crates/sophon-sdk/src/evidence.rs:261-334 | Which answer a swap on a sound store gets: conflict, size, storable revision, in this order, or what became of the transaction. |
| `Evidence.RetryAfterLoss` | crates/sophon-sdk/src/evidence.rs:330-333 | A swap that did not land can be retried with the first outcome. |
| `Evidence.LocalSessionEvidenceStore.CompareAndSwap` | crates/sophon-sdk/src/evidence.rs:261-334 | In place: the table and answer of one swap. |
| `Evidence.LocalSessionEvidenceStore.Load` | crates/sophon-sdk/src/evidence.rs:211-260 | A caller gets a document only when it is the stored one, fits and carries its own digest; nothing iff the key is absent; an error iff the stored row is damaged. |
| `Evidence.LoadFindsLastWrite` | crates/sophon-sdk/src/evidence.rs:211-260 | After any run a load finds the last document written under the key, or what was there before, and never an error. |
| `Workflow.ConsecutiveFailures` | crates/sophon-sdk/src/workflow.rs:308-347 | The loop counts exactly the settled iterations without progress that are newer than every iteration with progress. |
| `Workflow.StreakIgnoresOrder` | crates/sophon-sdk/src/workflow.rs:308-347 | The streak does not depend on the map's order. |
| `Workflow.StreakVersusPublished` | crates/sophon-sdk/src/workflow.rs:303-347 | The comment's reading (every operation failed) agrees with the code iff no counted iteration has an operation in flight; otherwise the code counts more. |
| `Workflow.StreakCountsInFlight` | crates/sophon-sdk/src/workflow.rs:303-347 | An input on which they differ: one failed and one prepared operation. |
| `Workflow.AdmitExactly` | crates/sophon-sdk/src/workflow.rs:241-257 | Which answer an admission gets: the step, wall, budget and failure ceilings in order, the wall clock from the run's creation, the first spent dimension, or the index of the step. |
| `Workflow.WorkflowIsBounded` | crates/sophon-sdk/src/workflow.rs:241-257 | A workflow whose admitted steps advance its counter admits at most `max_steps` steps. |
| `Workflow.StopsAreFinal` | crates/sophon-sdk/src/workflow.rs:241-257 | Step, wall and budget stops stay stops as count, clock and usage grow. |
| `Workflow.FailureStopCanLift` | crates/sophon-sdk/src/workflow.rs:241-257 | A failure stop can be lifted by reconciliation. |
| `Workflow.Exceeded` | crates/sophon-sdk/src/workflow.rs:262-301 | None iff every dimension with a non-zero limit is below it. |
| `Workflow.ZeroIsNoLimit` | crates/sophon-sdk/src/workflow.rs:262-301 | A dimension can stop a workflow iff its ceiling is not zero. |
| `Workflow.ZeroIsAdmitted` | crates/sophon-sdk/src/workflow.rs:93-116 | And validated ceilings can have a zero in any one dimension. |
| `Workflow.AdmitStep` | crates/sophon-sdk/src/workflow.rs:241-257 | The checks in order compute the admission. |
| `Capability.ResolutionMasks` | crates/sophon-sdk/src/capability.rs:424-549 | Per kind a session sees the union of both layers, each name once, with origin Session exactly for names the session contributes. |
| `Capability.MaskedIsIntersection` | crates/sophon-sdk/src/capability.rs:424-549 | Masked is exactly what both layers contribute, strictly sorted by kind and name; remote and in-process endpoints share one namespace. |
| `Capability.ValuesFollowBindings` | crates/sophon-sdk/src/capability.rs:424-549 | Skill roots stand in binding order and every agent service routes to its own layer's model. |
| `Capability.EndpointsFollowBindings` | crates/sophon-sdk/src/capability.rs:424-549 | In the shared MCP namespace the bound remote names stand in the order of the configurations, and the remaining bound names are exactly the in-process endpoints, in order. |
| `Capability.EmptySessionKeepsGeneral` | crates/sophon-sdk/src/capability.rs:424-549 | An empty session layer restores the general layer unchanged. |
| `Capability.RejectDuplicates` | crates/sophon-sdk/src/capability.rs:344-358 | Reports a duplicate iff some name occurs twice. |
| `Capability.ResolveCapabilities` | crates/sophon-sdk/src/capability.rs:424-549 | The loops compute the resolution. |

## Left out

- SHA-256, SQLite, serde, JSON text, tokio and the file system: an arbitrary digest function, atomic transactions, datatypes and explicit steps stand in for them, so schema checks, corrupt rows from foreign writers and crash recovery are not modelled.
- FieldEncoding.KernelReceiptUnique: assumes that the addresses of the two cited checkpoints do not collide; nothing is assumed about the digest elsewhere.
- LedgerTheorems.RollbackInvertsApply: takes the event id to be a well-formed SHA-256 identifier, which the digest of the source always yields and an arbitrary digest does not.
- SupplementTheorems.EvolutionIsFixpoint: takes the events' summaries to be valid, which construction and deserialization of an event guarantee.
- BudgetFitTheorems.FittedCosts: no cost bound is stated for the truncated form, since a truncated text is bounded in bytes and the estimator is arbitrary; sums of estimates are not wrapped at 64 bits.
- SupplementLimits.EvolvesIff: takes the events to be valid, which their construction and deserialization guarantee.
- LineReaderTheorems.ServedIsTheStream: the channel's capacity of 64 and a dropped receiver are not modelled; they only delay or end sending.
- Wakeup.NoLostWakeup: one waiter is modelled, since waiters share nothing but the lock; `wait_stable`, deadlines as times and the regex engine are not part of it.
- Activation.LocalActivationCoordinator.Wake: `inspect` only reads a row and is not modelled; validation of identities belongs to constructors.
- Capability.ResolutionMasks: name syntax, entry limits, absolute roots and model presence are checks on single entries and are left out; duplicates are the part of validation the resolution needs.
- CompactedHistory.CompactedVoices: the alternate carrier is not compiled into the source and not modelled; subagent, task, todo and server summaries travel beside the history.
- CanonicalJson.CanonicalizeJson: works on a value instead of a mutable tree, so in-place update is not captured; number text is opaque.
- Metadata of a refusal: the errors of snapshots and patches are merged into one ledger error, and the byte count inside the over-long-line error, which depends on chunking, is dropped.
- The refinement planner, prompt wording, key parsing, terminal rendering, the ACP channel and gateway, command-line programs, and the Run reducer with its orchestration: I/O, presentation, or code that would only add easy members.
