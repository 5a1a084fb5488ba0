/** What the supplement shows: which entry of which ledger, where in the section, which
    events, and what the derived patch cites. */
module SupplementView {
  import opened Text
  import opened Decimals
  import opened StringOrder
  import opened Harness
  import Snapshots
  import opened Supplement
  import opened SupplementTheorems

  // ----- Which entries -----

  function Held(state: Option<State>): Entries {
    match state case None => map[] case Some(s) => s.entries
  }

  /** What a session sees under an id: its own entry, or else the global one. */
  function Seen(global: Option<State>, session: Option<State>, id: string): Option<Filed> {
    if id in Held(session) then Some(Filed(Held(session)[id], "session"))
    else if id in Held(global) then Some(Filed(Held(global)[id], "global"))
    else None
  }

  lemma MergedSeen(global: Option<State>, session: Option<State>, id: string)
    ensures Seen(global, session, id) ==
      if id in Merged(global, session) then Some(Merged(global, session)[id]) else None
  {
  }

  lemma FiledUnderId(state: Option<State>, wantGlobal: bool, id: string)
    requires CheckScope(state, wantGlobal).Ok? && id in Held(state)
    ensures Held(state)[id].id == id
  {
    hide ValidateEntry, FitsBudgets, ValidateScope;
    assert EntryFiled(state.value.entries, id);
  }

  /** The rank of an entry in the view. */
  ghost predicate ShownAt(view: seq<Filed>, i: int, id: string) {
    0 <= i < |view| && view[i].entry.id == id
  }

  /** The view holds exactly the ids of the two ledgers, each once and in order; under
      each stands the session's entry, or the global one where the session has none. */
  lemma ViewShows(global: Option<State>, session: Option<State>)
    requires CheckScope(global, true).Ok? && CheckScope(session, false).Ok?
    ensures var view := View(global, session);
      && (forall i, j :: 0 <= i < j < |view| ==> Less(view[i].entry.id, view[j].entry.id))
      && (forall i :: 0 <= i < |view| ==> Seen(global, session, view[i].entry.id) == Some(view[i]))
      && (forall id :: Seen(global, session, id).Some? ==> exists i :: ShownAt(view, i, id))
  {
    hide CheckScope, Less;
    var m := Merged(global, session);
    var keys := SortedKeys(m.Keys);
    var view := View(global, session);
    forall i | 0 <= i < |view|
      ensures view[i].entry.id == keys[i] && Seen(global, session, keys[i]) == Some(view[i])
    {
      assert keys[i] in keys;
      MergedSeen(global, session, keys[i]);
      if keys[i] in Held(session) {
        FiledUnderId(session, false, keys[i]);
      } else {
        FiledUnderId(global, true, keys[i]);
      }
    }
    forall id | Seen(global, session, id).Some? ensures exists i :: ShownAt(view, i, id) {
      MergedSeen(global, session, id);
      assert id in m.Keys;
      assert id in keys;
      var i :| 0 <= i < |keys| && keys[i] == id;
      assert ShownAt(view, i, id);
    }
  }

  /** Rendering succeeds exactly when each given ledger is valid and of its scope, and
      shows nothing exactly when both are empty. */
  lemma RenderedIff(global: Option<State>, session: Option<State>, events: seq<Event>)
    ensures Rendered(global, session, events).Ok? <==>
      && (global.Some? ==> ValidState(global.value) && global.value.scope.Global?)
      && (session.Some? ==> ValidState(session.value) && session.value.scope.Session?)
    ensures Rendered(global, session, events).Ok? ==>
      (Rendered(global, session, events).value == None <==> Held(global) == map[] && Held(session) == map[])
  {
    hide ValidState, Section;
    var m := Merged(global, session);
    if Rendered(global, session, events).Ok? {
      forall id ensures id in m <==> id in Held(global) || id in Held(session) {
        MergedSeen(global, session, id);
      }
      assert View(global, session) == [] <==> m.Keys == {} by {
        assert forall k :: k in SortedKeys(m.Keys) <==> k in m.Keys;
      }
    }
  }

  // ----- Where they stand -----

  function ArgumentText(a: (string, string)): string {
    "- `" + a.0 + "`: " + a.1 + "\n"
  }

  function ArgumentsText(arguments: seq<(string, string)>): string {
    if arguments == [] then "" else ArgumentText(arguments[0]) + ArgumentsText(arguments[1..])
  }

  function SkillText(skill: Option<SkillContract>): string {
    match skill
    case None => ""
    case Some(s) => "Invocation: `" + s.invocation + "`\n" + ArgumentsText(s.arguments)
  }

  /** One entry, as it reads. */
  function EntryText(f: Filed): string {
    "\n### " + f.entry.title + " (" + f.origin + " \U{B7} " + f.entry.id + " \U{B7} v" + Decimal(f.entry.version) + ")\n"
    + f.entry.content + "\n" + SkillText(f.entry.skill)
  }

  /** The entries of one kind, in the order of the view. */
  function EntriesText(view: seq<Filed>, kind: EntryKind): string {
    if view == [] then ""
    else (if view[0].entry.kind == kind then EntryText(view[0]) else "") + EntriesText(view[1..], kind)
  }

  ghost predicate HasKind(view: seq<Filed>, kind: EntryKind) {
    exists i :: 0 <= i < |view| && view[i].entry.kind == kind
  }

  ghost function KindText(view: seq<Filed>, kind: EntryKind, heading: string): string {
    if HasKind(view, kind) then "\n## " + heading + "\n" + EntriesText(view, kind) else ""
  }

  function EventText(e: Event): string {
    "- [" + (if e.body.scope.Global? then "global" else "session") + " rev " + Decimal(e.body.resulting) + "] "
    + e.body.summary + " (applied " + Decimal(|e.body.applied|) + ", rejected " + Decimal(|e.body.rejected|) + ")\n"
  }

  function EventsText(events: seq<Event>): string {
    if events == [] then "" else EventText(events[0]) + EventsText(events[1..])
  }

  function HistoryText(events: seq<Event>): string {
    if events == [] then "" else "\n## Recent Refinements\n" + EventsText(events)
  }

  lemma FlatThree(a: string, b: string, c: string)
    ensures Flat([a, b, c]) == a + b + c
  {
    assert [a, b, c][1..] == [b, c] && [b, c][1..] == [c] && [c][1..] == [];
    assert Flat([c]) == c + Flat([]);
    assert c + "" == c;
    assert Flat([b, c]) == b + Flat([c]);
    assert a + (b + c) == a + b + c;
  }

  lemma ArgumentReads(a: (string, string))
    ensures Flat(ArgumentLine(a)) == ArgumentText(a)
  {
    hide Flat;
    FlatThree("- `", a.0, "`");
    FlatThree(": ", a.1, "\n");
    FlatConcat(["- `", a.0, "`"], [": ", a.1, "\n"]);
    assert "`" + ": " == "`: ";
    assert ("- `" + a.0 + "`") + (": " + a.1 + "\n") == "- `" + a.0 + ("`" + ": ") + a.1 + "\n";
  }

  lemma {:induction false} ArgumentsRead(arguments: seq<(string, string)>)
    ensures Flat(ArgumentPieces(arguments)) == ArgumentsText(arguments)
  {
    if arguments != [] {
      hide ArgumentLine, ArgumentText;
      ArgumentReads(arguments[0]);
      ArgumentsRead(arguments[1..]);
      FlatConcat(ArgumentLine(arguments[0]), ArgumentPieces(arguments[1..]));
    }
  }

  lemma NothingFlat()
    ensures Flat([]) == ""
  {
  }

  lemma SkillReads(skill: Option<SkillContract>)
    ensures Flat(SkillPieces(skill)) == SkillText(skill)
  {
    hide Flat, ArgumentsText, ArgumentPieces;
    NothingFlat();
    if skill.Some? {
      var s := skill.value;
      FlatThree("Invocation: `", s.invocation, "`\n");
      ArgumentsRead(s.arguments);
      FlatConcat(["Invocation: `", s.invocation, "`\n"], ArgumentPieces(s.arguments));
    }
  }

  /** Five framed values run together. */
  lemma FiveFlat(a: seq<string>, b: seq<string>, c: seq<string>, d: seq<string>, e: seq<string>)
    ensures Flat(a + b + c + d + e) == Flat(a) + Flat(b) + Flat(c) + Flat(d) + Flat(e)
  {
    hide Flat;
    FlatConcat(a, b);
    FlatConcat(a + b, c);
    FlatConcat(a + b + c, d);
    FlatConcat(a + b + c + d, e);
  }

  lemma LinesRead(f: Filed)
    ensures Flat(EntryLines(f)) ==
      "\n### " + f.entry.title + " (" + f.origin + " \U{B7} " + f.entry.id + " \U{B7} v" + Decimal(f.entry.version) + ")\n"
      + f.entry.content + "\n"
  {
    hide Flat, Decimal;
    var e, v := f.entry, Decimal(f.entry.version);
    FlatThree("\n### ", e.title, " ");
    FlatThree("(", f.origin, " ");
    FlatThree("\U{B7} ", e.id, " ");
    FlatThree("\U{B7} ", "v" + v, ")");
    FlatThree("\n", e.content, "\n");
    FiveFlat(["\n### ", e.title, " "], ["(", f.origin, " "], ["\U{B7} ", e.id, " "], ["\U{B7} ", "v" + v, ")"],
             ["\n", e.content, "\n"]);
    Seams(e.title, f.origin, e.id, v, e.content);
  }

  lemma Seams(title: string, origin: string, id: string, v: string, content: string)
    ensures ("\n### " + title + " ") + ("(" + origin + " ") + ("\U{B7} " + id + " ") + ("\U{B7} " + ("v" + v) + ")")
            + ("\n" + content + "\n")
         == "\n### " + title + " (" + origin + " \U{B7} " + id + " \U{B7} v" + v + ")\n" + content + "\n"
  {
    assert " " + "(" == " (" && " " + "\U{B7} " == " \U{B7} " && "\U{B7} " + "v" == "\U{B7} v" && ")" + "\n" == ")\n";
    assert " " + ("\U{B7} " + "v") == " \U{B7} v";
  }

  lemma EntryReads(f: Filed)
    ensures Flat(EntryPieces(f)) == EntryText(f)
  {
    hide Flat, EntryLines, SkillPieces, SkillText, Decimal;
    LinesRead(f);
    SkillReads(f.entry.skill);
    FlatConcat(EntryLines(f), SkillPieces(f.entry.skill));
  }

  lemma SectionStep(view: seq<Filed>, kind: EntryKind)
    requires view != []
    ensures Flat(AllEntryPieces(OfKind(view, kind))) ==
      (if view[0].entry.kind == kind then Flat(EntryPieces(view[0])) else "") + Flat(AllEntryPieces(OfKind(view[1..], kind)))
  {
    hide EntryPieces, Flat;
    var rest := OfKind(view[1..], kind);
    FlatConcat(EntryPieces(view[0]), AllEntryPieces(rest));
    assert ([view[0]] + rest)[1..] == rest && [] + rest == rest;
    assert "" + Flat(AllEntryPieces(rest)) == Flat(AllEntryPieces(rest));
  }

  lemma {:induction false} SectionReads(view: seq<Filed>, kind: EntryKind)
    ensures Flat(AllEntryPieces(OfKind(view, kind))) == EntriesText(view, kind)
  {
    if view != [] {
      hide EntryPieces, EntryText, Flat, AllEntryPieces, OfKind;
      SectionStep(view, kind);
      SectionReads(view[1..], kind);
      EntryReads(view[0]);
    }
  }

  lemma KindReads(view: seq<Filed>, kind: EntryKind)
    ensures Flat(KindPieces(view, kind)) == KindText(view, kind, KindHeading(kind))
  {
    hide Flat, AllEntryPieces, EntriesText, KindHeading;
    var section := OfKind(view, kind);
    NothingFlat();
    assert section != [] <==> HasKind(view, kind) by {
      if section != [] {
        assert section[0] in section;
      }
      if i :| 0 <= i < |view| && view[i].entry.kind == kind {
        assert view[i] in section;
      }
    }
    SectionReads(view, kind);
    FlatThree("\n## ", KindHeading(kind), "\n");
    FlatConcat(SectionHeading(KindHeading(kind)), AllEntryPieces(section));
  }

  lemma EventReads(e: Event)
    ensures Flat(EventLine(e.body)) == EventText(e)
  {
    hide Flat, Decimal;
    var scope := if e.body.scope.Global? then "global" else "session";
    var r, a, b := Decimal(e.body.resulting), Decimal(|e.body.applied|), Decimal(|e.body.rejected|);
    var p, q, x, y := ["- [", scope + " rev " + r, "]"], [" ", e.body.summary, " "],
                      ["(", "applied " + a, ","], [" ", "rejected " + b, ")\n"];
    FlatThree("- [", scope + " rev " + r, "]");
    FlatThree(" ", e.body.summary, " ");
    FlatThree("(", "applied " + a, ",");
    FlatThree(" ", "rejected " + b, ")\n");
    FlatConcat(p, q);
    FlatConcat(p + q, x);
    FlatConcat(p + q + x, y);
    EventSeams(scope, r, e.body.summary, a, b);
  }

  lemma EventSeams(scope: string, r: string, summary: string, a: string, b: string)
    ensures ("- [" + (scope + " rev " + r) + "]") + (" " + summary + " ") + ("(" + ("applied " + a) + ",")
            + (" " + ("rejected " + b) + ")\n")
         == "- [" + scope + " rev " + r + "] " + summary + " (applied " + a + ", rejected " + b + ")\n"
  {
    assert "]" + " " == "] " && " " + "(" + "applied " == " (applied " && "," + " " + "rejected " == ", rejected ";
  }

  lemma {:induction false} EventsRead(events: seq<Event>)
    ensures Flat(AllEventPieces(events)) == EventsText(events)
  {
    if events != [] {
      hide EventLine, EventText;
      EventReads(events[0]);
      EventsRead(events[1..]);
      FlatConcat(EventLine(events[0].body), AllEventPieces(events[1..]));
    }
  }

  lemma HistoryReads(events: seq<Event>)
    ensures Flat(HistoryPieces(events)) == HistoryText(events)
  {
    hide Flat, AllEventPieces, EventsText;
    NothingFlat();
    EventsRead(events);
    FlatThree("\n## ", "Recent Refinements", "\n");
    FlatConcat(SectionHeading("Recent Refinements"), AllEventPieces(events));
    assert "\n## " + "Recent Refinements" + "\n" == "\n## Recent Refinements\n";
  }

  lemma KindsRead(view: seq<Filed>)
    ensures Flat(KindsPieces(view, KINDS)) ==
      Flat(KindPieces(view, Prompt)) + Flat(KindPieces(view, Memory)) + Flat(KindPieces(view, Skill))
      + Flat(KindPieces(view, Subagent))
  {
    hide KindPieces, Flat;
    assert KINDS[1..] == [Memory, Skill, Subagent] && [Memory, Skill, Subagent][1..] == [Skill, Subagent];
    assert [Skill, Subagent][1..] == [Subagent] && [Subagent][1..] == [];
    var d := KindPieces(view, Subagent);
    var c, b := KindPieces(view, Skill), KindPieces(view, Memory);
    assert KindsPieces(view, [Subagent]) == d + KindsPieces(view, []);
    assert d + [] == d;
    assert KindsPieces(view, [Skill, Subagent]) == c + d;
    assert KindsPieces(view, [Memory, Skill, Subagent]) == b + (c + d);
    FlatConcat(c, d);
    FlatConcat(b, c + d);
    FlatConcat(KindPieces(view, Prompt), b + (c + d));
  }

  /** The layout of the section: under the heading of its kind stands every entry of the
      view with its title, origin, id, version, content and skill contract, in order; the
      recent events follow. */
  lemma SectionLayout(view: seq<Filed>, events: seq<Event>)
    ensures Section(view, events) ==
      "<continual_harness>" + "\n" + HEADING + "\n"
      + KindText(view, Prompt, "Prompt Notes") + KindText(view, Memory, "Memories") + KindText(view, Skill, "Skills")
      + KindText(view, Subagent, "Subagents") + HistoryText(Recent(events)) + "</continual_harness>"
  {
    hide Flat, KindPieces, KindText, HistoryPieces, HistoryText, Recent, HEADING, KindsPieces;
    KindsRead(view);
    KindReads(view, Prompt);
    KindReads(view, Memory);
    KindReads(view, Skill);
    KindReads(view, Subagent);
    HistoryReads(Recent(events));
    FlatThree("\n", HEADING, "\n");
    FlatConcat(Preamble(), KindsPieces(view, KINDS));
    FlatConcat(Preamble() + KindsPieces(view, KINDS), HistoryPieces(Recent(events)));
    Layered("\n" + HEADING + "\n", KindText(view, Prompt, "Prompt Notes"), KindText(view, Memory, "Memories"),
            KindText(view, Skill, "Skills"), KindText(view, Subagent, "Subagents"), HistoryText(Recent(events)));
    assert BEGIN + ("\n" + HEADING + "\n") == "<continual_harness>" + "\n" + HEADING + "\n";
  }

  lemma Layered(h: string, a: string, b: string, c: string, d: string, e: string)
    ensures BEGIN + (h + (a + b + c + d) + e) + END == (BEGIN + h) + a + b + c + d + e + END
  {
    hide BEGIN, END;
  }

  /** Text `t` occurs in `s`. */
  ghost predicate Within(t: string, s: string) {
    exists i, j :: 0 <= i <= j <= |s| && s[i..j] == t
  }

  lemma WithinParts(a: string, t: string, b: string)
    ensures Within(t, a + t + b)
  {
    assert (a + t + b)[|a|..|a| + |t|] == t;
  }

  lemma WithinWithin(t: string, s: string, a: string, b: string)
    requires Within(t, s)
    ensures Within(t, a + s + b)
  {
    var i, j :| 0 <= i <= j <= |s| && s[i..j] == t;
    assert (a + s + b)[|a| + i..|a| + j] == t;
  }

  lemma {:induction false} EntryWithin(view: seq<Filed>, i: nat)
    requires i < |view|
    ensures Within(EntryText(view[i]), EntriesText(view, view[i].entry.kind))
  {
    hide EntryText, Within;
    var kind := view[i].entry.kind;
    var first := if view[0].entry.kind == kind then EntryText(view[0]) else "";
    var rest := EntriesText(view[1..], kind);
    if i == 0 {
      WithinParts("", EntryText(view[0]), rest);
      assert "" + EntryText(view[0]) + rest == first + rest;
    } else {
      EntryWithin(view[1..], i - 1);
      WithinWithin(EntryText(view[i]), rest, first, "");
      assert first + rest + "" == first + rest;
    }
  }

  /** Every shown entry's text stands in the part of its kind. */
  lemma EntryIsShown(view: seq<Filed>, i: nat, heading: string)
    requires i < |view|
    ensures Within(EntryText(view[i]), KindText(view, view[i].entry.kind, heading))
    ensures Within(view[i].entry.title, EntryText(view[i])) && Within(view[i].entry.content, EntryText(view[i]))
  {
    hide Within, EntriesText, SkillText, Decimal;
    var f := view[i];
    EntryWithin(view, i);
    assert HasKind(view, f.entry.kind);
    WithinWithin(EntryText(f), EntriesText(view, f.entry.kind), "\n## " + heading + "\n", "");
    var all := "\n## " + heading + "\n" + EntriesText(view, f.entry.kind);
    assert all + "" == all;
    var head := "\n### " + f.entry.title + " (" + f.origin + " \U{B7} " + f.entry.id + " \U{B7} v"
                + Decimal(f.entry.version) + ")\n";
    var after := " (" + f.origin + " \U{B7} " + f.entry.id + " \U{B7} v" + Decimal(f.entry.version) + ")\n"
                 + f.entry.content + "\n" + SkillText(f.entry.skill);
    WithinParts("\n### ", f.entry.title, after);
    assert EntryText(f) == "\n### " + f.entry.title + after;
    WithinParts(head, f.entry.content, "\n" + SkillText(f.entry.skill));
    assert EntryText(f) == head + f.entry.content + ("\n" + SkillText(f.entry.skill));
  }

  // ----- Which events -----

  /** The events of one revision, in order. */
  function OfRevision(events: seq<Event>, revision: nat): seq<Event> {
    if events == [] then []
    else (if events[0].body.resulting == revision then [events[0]] else []) + OfRevision(events[1..], revision)
  }

  predicate Descending(events: seq<Event>) {
    forall i, j :: 0 <= i < j < |events| ==> events[i].body.resulting >= events[j].body.resulting
  }

  lemma {:induction false} InsertKeepsOrder(e: Event, sorted: seq<Event>)
    requires Descending(sorted)
    ensures Descending(Insert(e, sorted)) && |Insert(e, sorted)| == |sorted| + 1
  {
    if sorted != [] && sorted[0].body.resulting > e.body.resulting {
      var rest := Insert(e, sorted[1..]);
      InsertKeepsOrder(e, sorted[1..]);
      forall j | 0 <= j < |rest| ensures sorted[0].body.resulting >= rest[j].body.resulting {
        assert rest[j] in rest;
      }
    }
  }

  lemma RevisionCons(e: Event, events: seq<Event>, revision: nat)
    ensures OfRevision([e] + events, revision) == OfRevision([e], revision) + OfRevision(events, revision)
    ensures e.body.resulting != revision ==> OfRevision([e], revision) == []
  {
    assert ([e] + events)[1..] == events && [e][1..] == [];
    assert OfRevision([e], revision) == (if e.body.resulting == revision then [e] else []) + [];
  }

  lemma {:induction false} InsertKeepsRevisions(e: Event, sorted: seq<Event>, revision: nat)
    ensures OfRevision(Insert(e, sorted), revision) == OfRevision([e], revision) + OfRevision(sorted, revision)
  {
    if sorted == [] || sorted[0].body.resulting <= e.body.resulting {
      RevisionCons(e, sorted, revision);
    } else {
      InsertKeepsRevisions(e, sorted[1..], revision);
      RevisionCons(sorted[0], Insert(e, sorted[1..]), revision);
      RevisionCons(sorted[0], sorted[1..], revision);
      RevisionCons(e, [], revision);
      assert sorted == [sorted[0]] + sorted[1..];
      hide OfRevision;
      TwoRevisions(OfRevision([sorted[0]], revision), OfRevision([e], revision), OfRevision(sorted[1..], revision));
    }
  }

  lemma TwoRevisions<T>(a: seq<T>, b: seq<T>, c: seq<T>)
    requires a == [] || b == []
    ensures a + (b + c) == b + (a + c)
  {
  }

  /** Sorting puts higher revisions first and keeps the order within one revision. */
  lemma {:induction false} NewestFirstSorts(events: seq<Event>, revision: nat)
    ensures Descending(NewestFirst(events)) && |NewestFirst(events)| == |events|
    ensures OfRevision(NewestFirst(events), revision) == OfRevision(events, revision)
  {
    if events != [] {
      hide Descending, Insert;
      NewestFirstSorts(events[1..], revision);
      InsertKeepsOrder(events[0], NewestFirst(events[1..]));
      InsertKeepsRevisions(events[0], NewestFirst(events[1..]), revision);
      RevisionCons(events[0], events[1..], revision);
      assert events == [events[0]] + events[1..];
    } else {
      assert Descending([]);
    }
  }

  /** The rest of the events, behind those listed. */
  ghost predicate Lists(listed: seq<Event>, rest: seq<Event>, events: seq<Event>) {
    && Descending(listed + rest)
    && forall revision :: OfRevision(listed + rest, revision) == OfRevision(events, revision)
  }

  /** The history lists the newest events, at most five, in descending order of revision;
      ties keep the order they came in, and every event that is left out is no newer. */
  lemma RecentLists(events: seq<Event>) returns (rest: seq<Event>)
    ensures |Recent(events)| == (if |events| <= 5 then |events| else 5)
    ensures Lists(Recent(events), rest, events)
  {
    var sorted := NewestFirst(events);
    NewestFirstSorts(events, 0);
    rest := sorted[|Recent(events)|..];
    assert Recent(events) + rest == sorted;
    forall revision ensures OfRevision(sorted, revision) == OfRevision(events, revision) {
      NewestFirstSorts(events, revision);
    }
  }

  // ----- What the patch cites -----

  /** The patch changes the system prompt only, on the snapshot it was derived from, and
      cites the given events as refinement evidence, in order, up to the bound. */
  lemma PatchCites(address: Snapshots.Address, base: Snapshots.Snapshot, global: Option<State>, session: Option<State>,
                   events: seq<Event>, patch: Snapshots.Patch)
    requires EvolvedRefinement(address, base, global, session, events) == Ok(Some(patch))
    ensures patch.baseDigest == base.digest && |patch.changes| == 1 && patch.changes[0].SetSystemPrompt?
    ensures |patch.evidence| == (if |events| <= 64 then |events| else 64)
    ensures forall i :: 0 <= i < |patch.evidence| ==> patch.evidence[i] == EvidenceRef(Refinement, events[i].id, None)
  {
    hide Rendered, NextPrompt, Snapshots.ValidSnapshot, Snapshots.ValidatePatch, Snapshots.CheckCitations;
  }
}
