/** How large an evolved prompt can get, and when a prompt can be evolved at all. */
module SupplementLimits {
  import opened Text
  import opened Decimals
  import opened StringOrder
  import opened Harness
  import Snapshots
  import opened Supplement
  import opened SupplementTheorems

  /** What an entry takes in the section beside its own text. */
  const ENTRY_OVERHEAD := 600
  const HISTORY_BYTES := 30_000

  /** Room for the section of two full ledgers and their history. */
  const SECTION_BYTES := 2 * MAX_SCOPE_CONTENT_BYTES + 2 * MAX_ENTRIES_PER_SCOPE * ENTRY_OVERHEAD + HISTORY_BYTES

  // ----- Bytes of pieces -----

  function Bytes(p: seq<string>): nat {
    if p == [] then 0 else Utf8Len(p[0]) + Bytes(p[1..])
  }

  lemma {:induction false} FlatBytes(p: seq<string>)
    ensures Utf8Len(Flat(p)) == Bytes(p)
  {
    if p != [] {
      FlatBytes(p[1..]);
      Utf8LenConcat(p[0], Flat(p[1..]));
    }
  }

  lemma {:induction false} BytesConcat(a: seq<string>, b: seq<string>)
    ensures Bytes(a + b) == Bytes(a) + Bytes(b)
  {
    if a == [] {
      assert a + b == b;
    } else {
      assert (a + b)[0] == a[0] && (a + b)[1..] == a[1..] + b;
      BytesConcat(a[1..], b);
    }
  }

  lemma ThreeBytes(a: string, b: string, c: string)
    ensures Bytes([a, b, c]) == Utf8Len(a) + Utf8Len(b) + Utf8Len(c)
  {
    assert [a, b, c][1..] == [b, c] && [b, c][1..] == [c] && [c][1..] == [];
    assert Bytes([c]) == Utf8Len(c) + Bytes([]);
    assert Bytes([b, c]) == Utf8Len(b) + Bytes([c]);
  }

  /** A value between two short literals. */
  lemma FramedBytes(a: string, b: string, c: string)
    ensures Bytes([a, b, c]) <= 4 * |a| + Utf8Len(b) + 4 * |c|
  {
    hide Bytes, Utf8Len;
    ThreeBytes(a, b, c);
    Utf8LenBound(a);
    Utf8LenBound(c);
  }

  // ----- One entry -----

  lemma ArgumentLineBytes(a: (string, string))
    ensures Bytes(ArgumentLine(a)) == Utf8Len(a.0) + Utf8Len(a.1) + 7
  {
    hide Bytes, Utf8Len;
    AsciiLen("- `");
    AsciiLen("`");
    AsciiLen(": ");
    AsciiLen("\n");
    ThreeBytes("- `", a.0, "`");
    ThreeBytes(": ", a.1, "\n");
    BytesConcat(["- `", a.0, "`"], [": ", a.1, "\n"]);
  }

  lemma {:induction false} ArgumentPiecesBytes(arguments: seq<(string, string)>)
    ensures Bytes(ArgumentPieces(arguments)) == ArgumentBytes(arguments) + 7 * |arguments|
  {
    if arguments != [] {
      hide Utf8Len, ArgumentLine;
      ArgumentLineBytes(arguments[0]);
      ArgumentPiecesBytes(arguments[1..]);
      BytesConcat(ArgumentLine(arguments[0]), ArgumentPieces(arguments[1..]));
    }
  }

  function SkillText(skill: Option<SkillContract>): nat {
    match skill case None => 0 case Some(s) => Utf8Len(s.invocation) + ArgumentBytes(s.arguments)
  }

  lemma SkillPiecesBytes(skill: Option<SkillContract>)
    requires skill.Some? ==> |skill.value.arguments| <= MAX_SKILL_ARGUMENTS
    ensures Bytes(SkillPieces(skill)) <= SkillText(skill) + 284
  {
    hide Utf8Len;
    if skill.Some? {
      var s := skill.value;
      FramedBytes("Invocation: `", s.invocation, "`\n");
      ArgumentPiecesBytes(s.arguments);
      hide Bytes, ArgumentPieces, ArgumentBytes;
      BytesConcat(["Invocation: `", s.invocation, "`\n"], ArgumentPieces(s.arguments));
    }
  }

  lemma VersionBytes(version: u64)
    ensures Utf8Len("v" + Decimal(version)) <= 84
  {
    hide Utf8Len, Decimal;
    WordDigits(version);
    Utf8LenBound("v" + Decimal(version));
  }

  lemma OriginBytes(origin: string)
    requires origin == "global" || origin == "session"
    ensures Utf8Len(origin) <= 28
  {
    hide Utf8Len;
    Utf8LenBound(origin);
  }

  lemma FiveConcat(a: seq<string>, b: seq<string>, c: seq<string>, d: seq<string>, e: seq<string>)
    ensures Bytes(a + b + c + d + e) == Bytes(a) + Bytes(b) + Bytes(c) + Bytes(d) + Bytes(e)
  {
    hide Bytes;
    BytesConcat(a, b);
    BytesConcat(a + b, c);
    BytesConcat(a + b + c, d);
    BytesConcat(a + b + c + d, e);
  }

  lemma EntryLinesBytes(f: Filed)
    requires f.origin == "global" || f.origin == "session"
    requires Utf8Len(f.entry.id) <= MAX_ENTRY_ID_BYTES
    ensures Bytes(EntryLines(f)) <= Utf8Len(f.entry.title) + Utf8Len(f.entry.content) + 304
  {
    hide Bytes, Utf8Len, Decimal;
    var e := f.entry;
    VersionBytes(e.version);
    OriginBytes(f.origin);
    FramedBytes("\n### ", e.title, " ");
    FramedBytes("(", f.origin, " ");
    FramedBytes("\U{B7} ", e.id, " ");
    FramedBytes("\U{B7} ", "v" + Decimal(e.version), ")");
    FramedBytes("\n", e.content, "\n");
    FiveConcat(["\n### ", e.title, " "], ["(", f.origin, " "], ["\U{B7} ", e.id, " "],
               ["\U{B7} ", "v" + Decimal(e.version), ")"], ["\n", e.content, "\n"]);
  }

  lemma ValidEntryParts(e: Entry)
    requires ValidateEntry(e).Ok?
    ensures Utf8Len(e.id) <= MAX_ENTRY_ID_BYTES && (e.skill.Some? ==> |e.skill.value.arguments| <= MAX_SKILL_ARGUMENTS)
  {
    hide GoodText;
  }

  lemma EntryBytes(f: Filed)
    requires ValidateEntry(f.entry).Ok? && (f.origin == "global" || f.origin == "session")
    ensures Bytes(EntryPieces(f)) <= TextBytes(f.entry) + ENTRY_OVERHEAD
  {
    hide Bytes, Utf8Len, ValidateEntry, EntryLines, SkillPieces;
    ValidEntryParts(f.entry);
    EntryLinesBytes(f);
    SkillPiecesBytes(f.entry.skill);
    BytesConcat(EntryLines(f), SkillPieces(f.entry.skill));
  }

  // ----- All entries -----

  function Cost(section: seq<Filed>): nat {
    if section == [] then 0 else TextBytes(section[0].entry) + ENTRY_OVERHEAD + Cost(section[1..])
  }

  lemma {:induction false} EntriesBytes(section: seq<Filed>)
    requires GoodView(section)
    ensures Bytes(AllEntryPieces(section)) <= Cost(section)
  {
    if section != [] {
      hide Utf8Len, ValidateEntry, TextBytes, EntryPieces;
      EntryBytes(section[0]);
      EntriesBytes(section[1..]);
      BytesConcat(EntryPieces(section[0]), AllEntryPieces(section[1..]));
    }
  }

  lemma HeadingBytes(text: string)
    requires |text| <= 18
    ensures Bytes(SectionHeading(text)) <= 100
  {
    hide Utf8Len;
    FramedBytes("\n## ", text, "\n");
    Utf8LenBound(text);
  }

  lemma KindBytes(view: seq<Filed>, kind: EntryKind)
    requires GoodView(view)
    ensures Bytes(KindPieces(view, kind)) <= Cost(OfKind(view, kind)) + 100
  {
    hide Utf8Len, ValidateEntry, SectionHeading, AllEntryPieces, Cost;
    var section := OfKind(view, kind);
    EntriesBytes(section);
    assert |KindHeading(kind)| <= 18;
    HeadingBytes(KindHeading(kind));
    BytesConcat(SectionHeading(KindHeading(kind)), AllEntryPieces(section));
  }

  /** Every entry stands under exactly one kind. */
  lemma {:induction false} KindsShare(view: seq<Filed>)
    ensures Cost(OfKind(view, Prompt)) + Cost(OfKind(view, Memory)) + Cost(OfKind(view, Skill))
            + Cost(OfKind(view, Subagent)) == Cost(view)
  {
    if view != [] {
      hide TextBytes;
      KindsShare(view[1..]);
      OneMore(view, Prompt);
      OneMore(view, Memory);
      OneMore(view, Skill);
      OneMore(view, Subagent);
    }
  }

  lemma OneMore(view: seq<Filed>, kind: EntryKind)
    requires view != []
    ensures Cost(OfKind(view, kind)) == Cost(OfKind(view[1..], kind))
      + if view[0].entry.kind == kind then TextBytes(view[0].entry) + ENTRY_OVERHEAD else 0
  {
    hide TextBytes;
    var rest := OfKind(view[1..], kind);
    assert ([view[0]] + rest)[1..] == rest && [] + rest == rest;
  }

  lemma KindsBytes(view: seq<Filed>)
    requires GoodView(view)
    ensures Bytes(KindsPieces(view, KINDS)) <= Cost(view) + 400
  {
    hide Utf8Len, ValidateEntry, Cost, KindPieces, OfKind, Bytes;
    KindBytes(view, Prompt);
    KindBytes(view, Memory);
    KindBytes(view, Skill);
    KindBytes(view, Subagent);
    KindsShare(view);
    KindsUnfold(view);
    var a, b, c, d := KindPieces(view, Prompt), KindPieces(view, Memory), KindPieces(view, Skill), KindPieces(view, Subagent);
    BytesConcat(a, b + (c + (d + [])));
    BytesConcat(b, c + (d + []));
    BytesConcat(c, d + []);
    assert d + [] == d;
  }

  lemma KindsUnfold(view: seq<Filed>)
    ensures KindsPieces(view, KINDS) ==
      KindPieces(view, Prompt) + (KindPieces(view, Memory) + (KindPieces(view, Skill) + (KindPieces(view, Subagent) + [])))
  {
    hide KindPieces;
    assert KINDS[1..] == [Memory, Skill, Subagent] && [Memory, Skill, Subagent][1..] == [Skill, Subagent];
    assert [Skill, Subagent][1..] == [Subagent] && [Subagent][1..] == [];
    assert KindsPieces(view, [Subagent]) == KindPieces(view, Subagent) + KindsPieces(view, []);
    assert KindsPieces(view, [Skill, Subagent]) == KindPieces(view, Skill) + KindsPieces(view, [Subagent]);
    assert KindsPieces(view, [Memory, Skill, Subagent]) == KindPieces(view, Memory) + KindsPieces(view, [Skill, Subagent]);
  }

  // ----- What two ledgers can show -----

  /** Each key shows the entry of one of the two maps. */
  ghost predicate Shown(m: map<string, Filed>, keys: seq<string>, g: Entries, s: Entries) {
    forall k :: k in keys ==> k in m && ((k in s && m[k].entry == s[k]) || (k in g && m[k].entry == g[k]))
  }

  lemma CostStep(m: map<string, Filed>, keys: seq<string>)
    requires keys != [] && forall k :: k in keys ==> k in m
    ensures (forall k :: k in keys[1..] ==> k in m) && keys[0] in m
    ensures Cost(ViewOf(m, keys)) == TextBytes(m[keys[0]].entry) + ENTRY_OVERHEAD + Cost(ViewOf(m, keys[1..]))
  {
    hide TextBytes;
    assert forall k :: k in keys[1..] ==> k in keys;
    assert keys[0] in keys;
    assert ViewOf(m, keys)[1..] == ViewOf(m, keys[1..]);
  }

  lemma ShownRest(m: map<string, Filed>, keys: seq<string>, g: Entries, s: Entries)
    requires keys != [] && keys[0] !in keys[1..] && Shown(m, keys, g, s)
    ensures Shown(m, keys[1..], g, s - {keys[0]}) && Shown(m, keys[1..], g - {keys[0]}, s)
  {
    assert forall k :: k in keys[1..] ==> k in keys && k != keys[0];
  }

  lemma {:induction false} ShownCost(m: map<string, Filed>, keys: seq<string>, g: Entries, s: Entries)
    requires StrictlySorted(keys) && Shown(m, keys, g, s)
    ensures Cost(ViewOf(m, keys)) <= TotalText(g) + TotalText(s) + (|g| + |s|) * ENTRY_OVERHEAD
  {
    hide TextBytes, TotalText, Less, StrictlySorted, Cost, ViewOf;
    if keys == [] {
      NoCost(m, keys);
    } else {
      var k, rest := keys[0], keys[1..];
      FirstIsOnce(keys);
      CostStep(m, keys);
      ShownRest(m, keys, g, s);
      assert k in keys;
      if k in s && m[k].entry == s[k] {
        TotalTextWithout(s, k);
        RemoveShrinks(s, k);
        hide Shown;
        ShownCost(m, rest, g, s - {k});
      } else {
        TotalTextWithout(g, k);
        RemoveShrinks(g, k);
        hide Shown;
        ShownCost(m, rest, g - {k}, s);
      }
    }
  }

  lemma NoCost(m: map<string, Filed>, keys: seq<string>)
    requires keys == []
    ensures Cost(ViewOf(m, keys)) == 0
  {
  }

  lemma FirstIsOnce(keys: seq<string>)
    requires StrictlySorted(keys) && keys != []
    ensures keys[0] !in keys[1..] && StrictlySorted(keys[1..])
  {
    LessIrreflexive(keys[0]);
    forall i | 0 <= i < |keys[1..]| ensures keys[1..][i] != keys[0] {
      assert Less(keys[0], keys[i + 1]);
    }
  }

  function EntriesOf(state: Option<State>): Entries {
    match state case None => map[] case Some(s) => s.entries
  }

  lemma ScopeFits(state: Option<State>, wantGlobal: bool)
    requires CheckScope(state, wantGlobal).Ok?
    ensures FitsBudgets(EntriesOf(state))
  {
    hide EntriesFiled, ValidateScope;
    var none: Entries := map[];
    assert |none| == 0 && TotalText(none) == 0;
  }

  lemma MergedShown(global: Option<State>, session: Option<State>)
    ensures Shown(Merged(global, session), SortedKeys(Merged(global, session).Keys), EntriesOf(global), EntriesOf(session))
  {
    hide SortedKeys;
    var m := Merged(global, session);
    forall k | k in SortedKeys(m.Keys)
      ensures k in m && ((k in EntriesOf(session) && m[k].entry == EntriesOf(session)[k])
                         || (k in EntriesOf(global) && m[k].entry == EntriesOf(global)[k]))
    {
      assert k in m.Keys;
    }
  }

  lemma ViewCost(global: Option<State>, session: Option<State>)
    requires CheckScope(global, true).Ok? && CheckScope(session, false).Ok?
    ensures Cost(View(global, session))
      <= 2 * MAX_SCOPE_CONTENT_BYTES + 2 * MAX_ENTRIES_PER_SCOPE * ENTRY_OVERHEAD
  {
    ScopeFits(global, true);
    ScopeFits(session, false);
    hide CheckScope, TotalText, Less, Merged, EntriesOf, ViewOf, Cost, Shown, StrictlySorted;
    var m := Merged(global, session);
    MergedShown(global, session);
    ShownCost(m, SortedKeys(m.Keys), EntriesOf(global), EntriesOf(session));
  }

  // ----- The history -----

  /** Events are validated when they are built and when they are loaded. */
  ghost predicate ValidEvents(events: seq<Event>) {
    forall e :: e in events ==> GoodBody(e.body)
  }

  lemma EventParts(b: EventBody)
    requires GoodBody(b)
    ensures b.resulting <= U64_MAX && |b.applied| <= U64_MAX && |b.rejected| <= U64_MAX
    ensures GoodText(b.summary, MAX_REFINEMENT_TEXT_BYTES, true) && Utf8Len(b.summary) <= MAX_REFINEMENT_TEXT_BYTES
  {
    hide Blank, Utf8Len, MarkerFree, Distinct, Indexes, AllAccepted, RefusalsFit;
  }

  lemma CountBytes(word: string, n: nat)
    requires n <= U64_MAX && |word| <= 12
    ensures Utf8Len(word + Decimal(n)) <= 128
  {
    hide Utf8Len, Decimal;
    WordDigits(n);
    Utf8LenBound(word + Decimal(n));
  }

  lemma EventBytes(b: EventBody)
    requires GoodBody(b)
    ensures Bytes(EventLine(b)) <= MAX_REFINEMENT_TEXT_BYTES + 500
  {
    hide Bytes, Utf8Len, Decimal, GoodBody;
    EventParts(b);
    var scope := ScopeLabel(b.scope) + " rev ";
    CountBytes(scope, b.resulting);
    CountBytes("applied ", |b.applied|);
    CountBytes("rejected ", |b.rejected|);
    var p, q, r, t := ["- [", scope + Decimal(b.resulting), "]"], [" ", b.summary, " "],
                      ["(", "applied " + Decimal(|b.applied|), ","], [" ", "rejected " + Decimal(|b.rejected|), ")\n"];
    FramedBytes("- [", scope + Decimal(b.resulting), "]");
    FramedBytes(" ", b.summary, " ");
    FramedBytes("(", "applied " + Decimal(|b.applied|), ",");
    FramedBytes(" ", "rejected " + Decimal(|b.rejected|), ")\n");
    BytesConcat(p, q);
    BytesConcat(p + q, r);
    BytesConcat(p + q + r, t);
  }

  lemma EventsStep(events: seq<Event>)
    requires events != [] && GoodBody(events[0].body)
    ensures Bytes(AllEventPieces(events)) <= MAX_REFINEMENT_TEXT_BYTES + 500 + Bytes(AllEventPieces(events[1..]))
  {
    hide GoodBody, EventLine, Bytes;
    EventBytes(events[0].body);
    BytesConcat(EventLine(events[0].body), AllEventPieces(events[1..]));
  }

  lemma ValidRest(events: seq<Event>)
    requires ValidEvents(events) && events != []
    ensures GoodBody(events[0].body) && ValidEvents(events[1..])
  {
    hide GoodBody;
    assert events[0] in events && forall e :: e in events[1..] ==> e in events;
  }

  lemma NoEvents()
    ensures Bytes(AllEventPieces([])) == 0
  {
  }

  lemma {:induction false} EventsBytes(events: seq<Event>)
    requires ValidEvents(events)
    ensures Bytes(AllEventPieces(events)) <= |events| * (MAX_REFINEMENT_TEXT_BYTES + 500)
  {
    hide *;
    if events == [] {
      NoEvents();
    } else {
      ValidRest(events);
      EventsStep(events);
      EventsBytes(events[1..]);
    }
  }

  lemma HistoryBytes(events: seq<Event>)
    requires ValidEvents(events)
    ensures Bytes(HistoryPieces(Recent(events))) <= 5 * (MAX_REFINEMENT_TEXT_BYTES + 500) + 100
  {
    hide GoodBody, AllEventPieces, SectionHeading;
    var recent := Recent(events);
    assert |recent| <= 5;
    EventsBytes(recent);
    assert |"Recent Refinements"| == 18;
    HeadingBytes("Recent Refinements");
    BytesConcat(SectionHeading("Recent Refinements"), AllEventPieces(recent));
  }

  // ----- The section -----

  lemma TitleIsShort()
    ensures |HEADING_TITLE| <= 100
  {
  }

  lemma OriginIsShort()
    ensures |HEADING_ORIGIN| <= 100
  {
  }

  lemma NotesAreShort()
    ensures |HEADING_NOTES| <= 100
  {
  }

  lemma UseIsShort()
    ensures |HEADING_USE| <= 100
  {
  }

  lemma PreambleBytes()
    ensures Bytes(Preamble()) <= 1608
  {
    hide HEADING_TITLE, HEADING_ORIGIN, HEADING_NOTES, HEADING_USE, Bytes, Utf8Len;
    TitleIsShort();
    OriginIsShort();
    NotesAreShort();
    UseIsShort();
    Utf8LenBound(HEADING);
    FramedBytes("\n", HEADING, "\n");
  }

  lemma InnerBytes(view: seq<Filed>, events: seq<Event>)
    requires GoodView(view) && ValidEvents(events)
    ensures Utf8Len(Flat(InnerPieces(view, events))) <= Cost(view) + HISTORY_BYTES - 200
  {
    hide GoodBody, ValidateEntry, KindsPieces, HistoryPieces, Preamble, Bytes, Utf8Len, Cost, Recent;
    PreambleBytes();
    KindsBytes(view);
    HistoryBytes(events);
    FlatBytes(InnerPieces(view, events));
    BytesConcat(Preamble(), KindsPieces(view, KINDS));
    BytesConcat(Preamble() + KindsPieces(view, KINDS), HistoryPieces(Recent(events)));
  }

  /** However full two valid ledgers are, their section leaves room for a base prompt of
      more than 300 KB. */
  lemma SectionFits(global: Option<State>, session: Option<State>, events: seq<Event>)
    requires CheckScope(global, true).Ok? && CheckScope(session, false).Ok? && ValidEvents(events)
    ensures Utf8Len(Section(View(global, session), events)) <= SECTION_BYTES < Snapshots.MAX_HARNESS_FIELD_BYTES - 300_000
  {
    hide GoodBody, CheckScope, View, InnerPieces, Utf8Len, Cost, GoodView;
    var view := View(global, session);
    ViewIsGood(global, session);
    ViewCost(global, session);
    InnerBytes(view, events);
    MarkerShapes();
    hide BEGIN, END;
    Utf8LenBound(BEGIN);
    Utf8LenBound(END);
    Utf8LenConcat(BEGIN, Flat(InnerPieces(view, events)));
    Utf8LenConcat(BEGIN + Flat(InnerPieces(view, events)), END);
  }

  // ----- When a prompt can be evolved -----

  /** The cited events have usable, different ids. */
  ghost predicate GoodCitations(events: seq<Event>) {
    var cited := Citations(events);
    && (forall c :: c in cited ==> Snapshots.GoodEvidence(c))
    && (forall i, j :: 0 <= i < j < |cited| ==> Snapshots.Cited(cited[i]) != Snapshots.Cited(cited[j]))
  }

  lemma PatchIff(base: Snapshots.Snapshot, prompt: string, events: seq<Event>)
    ensures MakePatch(base, prompt, events).Ok? <==> Snapshots.GoodField(prompt) && GoodCitations(events)
  {
    hide Snapshots.GoodField, Snapshots.GoodEvidence, Citations;
    var change := Snapshots.SetSystemPrompt(prompt);
    assert change in [change];
    assert forall c :: c in [change] ==> c == change;
  }

  lemma SuffixBytes(s: string, t: string)
    requires |t| <= |s| && t == s[|s| - |t|..]
    ensures Utf8Len(t) <= Utf8Len(s)
  {
    assert s == s[..|s| - |t|] + t;
    Utf8LenConcat(s[..|s| - |t|], t);
  }

  lemma TrimmedBytes(s: string)
    ensures Utf8Len(TrimEnd(s)) <= Utf8Len(s) && Utf8Len(TrimStart(s)) <= Utf8Len(s)
  {
    hide Utf8Len, TrimEnd, TrimStart;
    Utf8LenPrefix(TrimEnd(s), s);
    SuffixBytes(s, TrimStart(s));
  }

  lemma JoinedBytes(head: string, tail: string)
    ensures Utf8Len(Joined(head, tail)) <= Utf8Len(head) + 2 + Utf8Len(tail)
  {
    hide Utf8Len;
    AsciiLen("\n\n");
    Utf8LenConcat(head, "\n\n");
    Utf8LenConcat(head + "\n\n", tail);
  }

  /** The base text never has more bytes than the prompt. */
  lemma BaseShrinks(prompt: string)
    requires Strip(prompt).Ok?
    ensures Utf8Len(Base(prompt)) <= Utf8Len(prompt)
  {
    hide Utf8Len, TrimEnd, TrimStart, Strip, Contains, MarkerFree, Find;
    TrimmedBytes(Strip(prompt).value);
    var found := Find(prompt, BEGIN);
    if found.None? {
      StripPlain(prompt);
    } else {
      var begin := found.value;
      MarkerShapes();
      hide BEGIN, END;
      var end := SectionParts(prompt, begin);
      CutBytes(prompt, begin, end);
      TrimmedBytes(prompt[..begin]);
      TrimmedBytes(prompt[end..]);
      JoinedBytes(TrimEnd(prompt[..begin]), TrimStart(prompt[end..]));
    }
  }

  lemma CutBytes(s: string, i: nat, j: nat)
    requires i + 2 <= j <= |s|
    ensures Utf8Len(s[..i]) + 2 + Utf8Len(s[j..]) <= Utf8Len(s)
  {
    hide *;
    ThreeParts(s, i, j);
    CutParts(s[..i], s[i..j], s[j..]);
  }

  lemma ThreeParts<T>(s: seq<T>, i: nat, j: nat)
    requires i <= j <= |s|
    ensures s == s[..i] + (s[i..j] + s[j..])
  {
  }

  lemma CutParts(a: string, b: string, c: string)
    requires |b| >= 2
    ensures Utf8Len(a) + 2 + Utf8Len(c) <= Utf8Len(a + (b + c))
  {
    hide Utf8Len;
    Utf8LenConcat(a, b + c);
    Utf8LenConcat(b, c);
  }

  /** The base text leaves room for the section; without one there has to be a base text. */
  predicate PromptRoom(base: string, supplement: Option<string>) {
    match supplement
    case Some(section) => base == "" || Utf8Len(base) + 2 + Utf8Len(section) <= Snapshots.MAX_HARNESS_FIELD_BYTES
    case None => base != ""
  }

  lemma NotBlankEnd(s: string)
    requires s != "" && !IsWhitespace(s[|s| - 1])
    ensures !Blank(s)
  {
  }

  lemma SectionIsGood(base: string, section: string)
    requires section != "" && !IsWhitespace(section[|section| - 1])
    requires Utf8Len(section) <= Snapshots.MAX_HARNESS_FIELD_BYTES
    ensures var next := if base == "" then section else base + "\n\n" + section;
      Snapshots.GoodField(next) <==> PromptRoom(base, Some(section))
  {
    hide Utf8Len, Blank;
    NotBlankEnd(section);
    if base != "" {
      NotBlankEnd(base + "\n\n" + section);
      AsciiLen("\n\n");
      Utf8LenConcat(base, "\n\n");
      Utf8LenConcat(base + "\n\n", section);
    }
  }

  lemma BareIsGood(base: string)
    requires EndTrimmed(base) && Utf8Len(base) <= Snapshots.MAX_HARNESS_FIELD_BYTES
    ensures Snapshots.GoodField(base) <==> PromptRoom(base, None)
  {
    hide Utf8Len, Blank;
    if base == "" {
      NothingIsBlank();
    } else {
      NotBlankEnd(base);
    }
  }

  lemma NextUnfolds(prompt: string, supplement: Option<string>)
    requires Strip(prompt).Ok?
    ensures NextPrompt(prompt, supplement) == Ok(
      match supplement
      case Some(section) => if Base(prompt) == "" then section else Base(prompt) + "\n\n" + section
      case None => Base(prompt))
  {
    hide Strip, TrimEnd;
  }

  lemma NextIsGood(prompt: string, supplement: Option<string>)
    requires Strip(prompt).Ok? && Utf8Len(prompt) <= Snapshots.MAX_HARNESS_FIELD_BYTES
    requires supplement.Some? ==>
      && supplement.value != "" && !IsWhitespace(supplement.value[|supplement.value| - 1])
      && Utf8Len(supplement.value) <= Snapshots.MAX_HARNESS_FIELD_BYTES
    ensures NextPrompt(prompt, supplement).Ok?
    ensures Snapshots.GoodField(NextPrompt(prompt, supplement).value) <==> PromptRoom(Base(prompt), supplement)
  {
    TrimEndTrimmed(Strip(prompt).value);
    assert EndTrimmed(Base(prompt));
    hide *;
    BaseShrinks(prompt);
    NextUnfolds(prompt, supplement);
    if supplement.Some? {
      SectionIsGood(Base(prompt), supplement.value);
    } else {
      BareIsGood(Base(prompt));
    }
  }

  lemma NothingIsBlank()
    ensures Blank("")
  {
  }

  lemma SectionEnds(view: seq<Filed>, events: seq<Event>)
    ensures var s := Section(view, events); |s| >= 39 && !IsWhitespace(s[|s| - 1])
  {
    hide InnerPieces;
    MarkerShapes();
    MarkersEndSolid();
  }

  /** Exactly when a prompt can be evolved: the snapshot and both ledgers are valid, the
      prompt strips, and either nothing changes or the base text leaves room and the
      cited events have usable, different ids. */
  lemma EvolvesIff(address: Snapshots.Address, base: Snapshots.Snapshot, global: Option<State>,
                   session: Option<State>, events: seq<Event>)
    requires ValidEvents(events)
    ensures EvolvedRefinement(address, base, global, session, events).Ok? <==>
      && Snapshots.ValidSnapshot(address, base) && Rendered(global, session, events).Ok?
      && Strip(base.content.systemPrompt.value).Ok?
      && (|| NextPrompt(base.content.systemPrompt.value, Rendered(global, session, events).value)
             == Ok(base.content.systemPrompt.value)
          || (GoodCitations(events)
              && PromptRoom(Base(base.content.systemPrompt.value), Rendered(global, session, events).value)))
  {
    hide Strip, Section, GoodBody, CheckScope, View, MakePatch, GoodCitations, PromptRoom, Base, Utf8Len, Blank;
    if Snapshots.ValidSnapshot(address, base) && Rendered(global, session, events).Ok?
       && Strip(base.content.systemPrompt.value).Ok? {
      var prompt, supplement := base.content.systemPrompt.value, Rendered(global, session, events).value;
      SectionFits(global, session, events);
      SectionEnds(View(global, session), events);
      NextIsGood(prompt, supplement);
      PatchIff(base, NextPrompt(prompt, supplement).value, events);
    }
  }

  /** The promise that every evolved prompt stays within the field limit holds as long as
      the base text leaves the room two full ledgers can need. */
  lemma RoomyPromptEvolves(address: Snapshots.Address, base: Snapshots.Snapshot, global: Option<State>,
                           session: Option<State>, events: seq<Event>)
    requires ValidEvents(events) && GoodCitations(events)
    requires Snapshots.ValidSnapshot(address, base) && Rendered(global, session, events).Ok?
    requires Strip(base.content.systemPrompt.value).Ok? && Base(base.content.systemPrompt.value) != ""
    requires Utf8Len(Base(base.content.systemPrompt.value)) + 2 + SECTION_BYTES <= Snapshots.MAX_HARNESS_FIELD_BYTES
    ensures EvolvedRefinement(address, base, global, session, events).Ok?
  {
    hide Strip, Section, GoodBody, CheckScope, View, GoodCitations, Base, Utf8Len, EvolvedRefinement, NextPrompt,
         Snapshots.ValidSnapshot;
    EvolvesIff(address, base, global, session, events);
    SectionFits(global, session, events);
  }

  lemma FullNext(prompt: string, section: string)
    requires MarkerFree(prompt) && EndTrimmed(prompt) && |section| >= 39
    requires Utf8Len(prompt) > Snapshots.MAX_HARNESS_FIELD_BYTES - 41
    ensures Strip(prompt).Ok? && !PromptRoom(Base(prompt), Some(section)) && NextPrompt(prompt, Some(section)) != Ok(prompt)
  {
    StripWithout(prompt);
    TrimEndFixed(prompt);
    hide Strip, TrimEnd, Contains;
    assert prompt != "";
    assert Base(prompt) == prompt;
    assert |prompt + "\n\n" + section| > |prompt|;
    hide Utf8Len;
    AsciiLen("\n\n");
    Utf8LenConcat(prompt, "\n\n");
    Utf8LenConcat(prompt + "\n\n", section);
  }

  lemma RenderedSection(global: Option<State>, session: Option<State>, events: seq<Event>)
    requires CheckScope(global, true).Ok? && CheckScope(session, false).Ok? && View(global, session) != []
    ensures Rendered(global, session, events) == Ok(Some(Section(View(global, session), events)))
  {
    hide CheckScope, View, Section;
  }

  /** And it fails for every base prompt that fills the field, whatever the ledgers hold. */
  lemma FullPromptCannotEvolve(address: Snapshots.Address, base: Snapshots.Snapshot, global: Option<State>,
                               session: Option<State>, events: seq<Event>)
    requires ValidEvents(events) && Snapshots.ValidSnapshot(address, base)
    requires var prompt := base.content.systemPrompt.value;
      && MarkerFree(prompt) && EndTrimmed(prompt) && Utf8Len(prompt) > Snapshots.MAX_HARNESS_FIELD_BYTES - 41
    requires CheckScope(global, true).Ok? && CheckScope(session, false).Ok? && View(global, session) != []
    ensures EvolvedRefinement(address, base, global, session, events).Err?
  {
    var prompt, section := base.content.systemPrompt.value, Section(View(global, session), events);
    hide *;
    EvolvesIff(address, base, global, session, events);
    SectionEnds(View(global, session), events);
    RenderedSection(global, session, events);
    FullNext(prompt, section);
  }

  /** A prompt that is nothing but a section cannot be evolved once the ledgers are empty:
      no prompt would be left. */
  lemma BarePromptCannotEmpty(address: Snapshots.Address, base: Snapshots.Snapshot, events: seq<Event>, inner: string)
    requires ValidEvents(events) && Snapshots.ValidSnapshot(address, base)
    requires Inner(inner) && base.content.systemPrompt.value == BEGIN + (inner + END)
    ensures EvolvedRefinement(address, base, None, None, events).Err?
  {
    var prompt := base.content.systemPrompt.value;
    EmptyHasNoMarkers();
    StripAppended("", inner);
    TrimEndNone();
    assert "" + prompt == prompt;
    NothingShown(events);
    hide Strip, GoodBody, CheckScope, View, GoodCitations, EvolvedRefinement, MarkerFree, Snapshots.ValidSnapshot, Inner,
         TrimEnd, BEGIN, END, Rendered, Utf8Len;
    EvolvesIff(address, base, None, None, events);
    assert Base(prompt) == "";
    assert prompt != "";
  }

  lemma NothingShown(events: seq<Event>)
    ensures Rendered(None, None, events) == Ok(None)
  {
    assert View(None, None) == [] by {
      assert Merged(None, None) == map[];
    }
  }
}
