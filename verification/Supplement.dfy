/** The rendered prompt section of the ledger, and how it is stripped from and
    put back into a prompt. */
module Supplement {
  import opened Text
  import opened Decimals
  import opened StringOrder
  import opened Harness
  import Snapshots

  const MAX_RENDERED_REFINEMENT_HISTORY := 5

  // ----- The merged view -----

  datatype Filed = Filed(entry: Entry, origin: string)

  function Overlay(state: Option<State>, origin: string): map<string, Filed> {
    match state
    case None => map[]
    case Some(s) => map k | k in s.entries :: Filed(s.entries[k], origin)
  }

  /** Session entries shadow global entries of the same id. Entries are keyed by
      id, which in a valid ledger is also the key they are stored under. */
  function Merged(global: Option<State>, session: Option<State>): map<string, Filed> {
    Overlay(global, "global") + Overlay(session, "session")
  }

  function ViewOf(m: map<string, Filed>, keys: seq<string>): (v: seq<Filed>)
    requires forall k :: k in keys ==> k in m
    ensures |v| == |keys| && forall i :: 0 <= i < |v| ==> v[i] == m[keys[i]]
  {
    seq(|keys|, i requires 0 <= i < |keys| => assert keys[i] in keys; m[keys[i]])
  }

  function View(global: Option<State>, session: Option<State>): seq<Filed> {
    var m := Merged(global, session);
    ViewOf(m, SortedKeys(m.Keys))
  }

  // ----- Text -----

  function Flat(pieces: seq<string>): string {
    if pieces == [] then "" else pieces[0] + Flat(pieces[1..])
  }

  lemma {:induction false} FlatConcat(a: seq<string>, b: seq<string>)
    ensures Flat(a + b) == Flat(a) + Flat(b)
  {
    if a == [] {
      assert a + b == b;
    } else {
      assert (a + b)[0] == a[0] && (a + b)[1..] == a[1..] + b;
      FlatConcat(a[1..], b);
    }
  }

  const HEADING_TITLE := "# Continual Harness State\n"
  const HEADING_ORIGIN := "This supplement was produced " + "by validated refinements of " + "earlier work. "
  const HEADING_NOTES := "Follow the prompt notes, " + "treat memories as established " + "facts, and use skills "
  const HEADING_USE := "and subagents through " + "their stated contracts."
  const HEADING := HEADING_TITLE + (HEADING_ORIGIN + (HEADING_NOTES + HEADING_USE))

  function KindHeading(k: EntryKind): string {
    match k
    case Prompt => "Prompt Notes"
    case Memory => "Memories"
    case Skill => "Skills"
    case Subagent => "Subagents"
  }

  function ScopeLabel(s: Scope): string {
    if s.Global? then "global" else "session"
  }

  // A line of the section is the list of pieces its format template glues
  // together: literal text around each inserted value.

  function ArgumentLine(argument: (string, string)): seq<string> {
    ["- `", argument.0, "`"] + [": ", argument.1, "\n"]
  }

  function ArgumentPieces(arguments: seq<(string, string)>): seq<string> {
    if arguments == [] then [] else ArgumentLine(arguments[0]) + ArgumentPieces(arguments[1..])
  }

  function SkillPieces(skill: Option<SkillContract>): seq<string> {
    match skill
    case None => []
    case Some(s) => ["Invocation: `", s.invocation, "`\n"] + ArgumentPieces(s.arguments)
  }

  function EntryLines(f: Filed): seq<string> {
    ["\n### ", f.entry.title, " "] + ["(", f.origin, " "] + ["\U{B7} ", f.entry.id, " "]
    + ["\U{B7} ", "v" + Decimal(f.entry.version), ")"] + ["\n", f.entry.content, "\n"]
  }

  function EntryPieces(f: Filed): seq<string> {
    EntryLines(f) + SkillPieces(f.entry.skill)
  }

  function AllEntryPieces(section: seq<Filed>): seq<string> {
    if section == [] then [] else EntryPieces(section[0]) + AllEntryPieces(section[1..])
  }

  function OfKind(view: seq<Filed>, kind: EntryKind): (section: seq<Filed>)
    ensures forall f :: f in section <==> f in view && f.entry.kind == kind
  {
    if view == [] then [] else
      (if view[0].entry.kind == kind then [view[0]] else []) + OfKind(view[1..], kind)
  }

  function SectionHeading(text: string): seq<string> {
    ["\n## ", text, "\n"]
  }

  function KindPieces(view: seq<Filed>, kind: EntryKind): seq<string> {
    var section := OfKind(view, kind);
    if section == [] then [] else SectionHeading(KindHeading(kind)) + AllEntryPieces(section)
  }

  /** Stable insertion: `e` stands before the events that followed it. */
  function Insert(e: Event, sorted: seq<Event>): (r: seq<Event>)
    ensures forall x :: x in r <==> x == e || x in sorted
  {
    if sorted == [] || sorted[0].body.resulting <= e.body.resulting then [e] + sorted
    else [sorted[0]] + Insert(e, sorted[1..])
  }

  /** `sort_by_key(Reverse(resulting_revision))`. */
  function NewestFirst(events: seq<Event>): (r: seq<Event>)
    ensures forall x :: x in r <==> x in events
  {
    if events == [] then [] else Insert(events[0], NewestFirst(events[1..]))
  }

  function Recent(events: seq<Event>): (r: seq<Event>)
    ensures forall x :: x in r ==> x in events
  {
    var s := NewestFirst(events);
    if |s| <= MAX_RENDERED_REFINEMENT_HISTORY then s else s[..MAX_RENDERED_REFINEMENT_HISTORY]
  }

  function EventLine(b: EventBody): seq<string> {
    ["- [", ScopeLabel(b.scope) + " rev " + Decimal(b.resulting), "]"] + [" ", b.summary, " "]
    + ["(", "applied " + Decimal(|b.applied|), ","] + [" ", "rejected " + Decimal(|b.rejected|), ")\n"]
  }

  function AllEventPieces(events: seq<Event>): seq<string> {
    if events == [] then [] else EventLine(events[0].body) + AllEventPieces(events[1..])
  }

  function HistoryPieces(events: seq<Event>): seq<string> {
    if events == [] then [] else SectionHeading("Recent Refinements") + AllEventPieces(events)
  }

  const KINDS: seq<EntryKind> := [Prompt, Memory, Skill, Subagent]

  function KindsPieces(view: seq<Filed>, kinds: seq<EntryKind>): seq<string> {
    if kinds == [] then [] else KindPieces(view, kinds[0]) + KindsPieces(view, kinds[1..])
  }

  function Preamble(): seq<string> {
    ["\n", HEADING, "\n"]
  }

  function InnerPieces(view: seq<Filed>, events: seq<Event>): seq<string> {
    Preamble() + KindsPieces(view, KINDS) + HistoryPieces(Recent(events))
  }

  function Section(view: seq<Filed>, events: seq<Event>): string {
    BEGIN + Flat(InnerPieces(view, events)) + END
  }

  function CheckScope(state: Option<State>, wantGlobal: bool): Checked {
    match state
    case None => Ok(())
    case Some(s) =>
      var _ :- ValidateState(s);
      if s.scope.Global? == wantGlobal then Ok(())
      else Err(ScopeMismatch(if wantGlobal then Global else Session(""), s.scope))
  }

  function Rendered(global: Option<State>, session: Option<State>, events: seq<Event>): Result<Option<string>, Error> {
    var _ :- CheckScope(global, true);
    var _ :- CheckScope(session, false);
    var view := View(global, session);
    Ok(if view == [] then None else Some(Section(view, events)))
  }

  // ----- Rendering, as the source appends it -----

  lemma Push(body: string, next: seq<string>, rest: seq<string>)
    ensures body + Flat(next + rest) == (body + Flat(next)) + Flat(rest)
  {
    FlatConcat(next, rest);
  }

  method AppendSkill(body: string, skill: Option<SkillContract>) returns (r: string)
    ensures r == body + Flat(SkillPieces(skill))
  {
    r := body;
    if skill.Some? {
      var arguments := skill.value.arguments;
      var head := ["Invocation: `", skill.value.invocation, "`\n"];
      Push(body, head, ArgumentPieces(arguments));
      r := r + Flat(head);
      var i := 0;
      while i < |arguments|
        invariant 0 <= i <= |arguments|
        invariant body + Flat(SkillPieces(skill)) == r + Flat(ArgumentPieces(arguments[i..]))
      {
        Push(r, ArgumentLine(arguments[i]), ArgumentPieces(arguments[i + 1..]));
        r := r + Flat(ArgumentLine(arguments[i]));
        i := i + 1;
      }
    }
  }

  method AppendEntry(body: string, f: Filed) returns (r: string)
    ensures r == body + Flat(EntryPieces(f))
  {
    Push(body, EntryLines(f), SkillPieces(f.entry.skill));
    r := AppendSkill(body + Flat(EntryLines(f)), f.entry.skill);
  }

  method AppendKind(body: string, view: seq<Filed>, kind: EntryKind) returns (r: string)
    ensures r == body + Flat(KindPieces(view, kind))
  {
    hide EntryPieces, SectionHeading;
    r := body;
    var section := OfKind(view, kind);
    if section != [] {
      Push(body, SectionHeading(KindHeading(kind)), AllEntryPieces(section));
      r := r + Flat(SectionHeading(KindHeading(kind)));
      var i := 0;
      while i < |section|
        invariant 0 <= i <= |section|
        invariant body + Flat(KindPieces(view, kind)) == r + Flat(AllEntryPieces(section[i..]))
      {
        Push(r, EntryPieces(section[i]), AllEntryPieces(section[i + 1..]));
        r := AppendEntry(r, section[i]);
        i := i + 1;
      }
    }
  }

  method AppendHistory(body: string, history: seq<Event>) returns (r: string)
    ensures r == body + Flat(HistoryPieces(history))
  {
    hide EventLine, SectionHeading;
    r := body;
    if history != [] {
      Push(body, SectionHeading("Recent Refinements"), AllEventPieces(history));
      r := r + Flat(SectionHeading("Recent Refinements"));
      var i := 0;
      while i < |history|
        invariant 0 <= i <= |history|
        invariant body + Flat(HistoryPieces(history)) == r + Flat(AllEventPieces(history[i..]))
      {
        Push(r, EventLine(history[i].body), AllEventPieces(history[i + 1..]));
        r := r + Flat(EventLine(history[i].body));
        i := i + 1;
      }
    }
  }

  method RenderHarnessSupplement(global: Option<State>, session: Option<State>, events: seq<Event>)
    returns (r: Result<Option<string>, Error>)
    ensures r == Rendered(global, session, events)
  {
    var _ :- CheckScope(global, true);
    var _ :- CheckScope(session, false);
    var view := View(global, session);
    if view == [] {
      return Ok(None);
    }
    var body := AppendInner(BEGIN, view, events);
    return Ok(Some(body + END));
  }

  method AppendInner(start: string, view: seq<Filed>, events: seq<Event>) returns (body: string)
    ensures body == start + Flat(InnerPieces(view, events))
  {
    hide KindPieces, HistoryPieces, Recent, HEADING;
    body := start + Flat(Preamble());
    Push(start, Preamble() + KindsPieces(view, KINDS), HistoryPieces(Recent(events)));
    Push(start, Preamble(), KindsPieces(view, KINDS));
    var i := 0;
    while i < |KINDS|
      invariant 0 <= i <= |KINDS|
      invariant start + Flat(InnerPieces(view, events))
             == body + Flat(KindsPieces(view, KINDS[i..])) + Flat(HistoryPieces(Recent(events)))
    {
      Push(body, KindPieces(view, KINDS[i]), KindsPieces(view, KINDS[i + 1..]));
      body := AppendKind(body, view, KINDS[i]);
      i := i + 1;
    }
    body := AppendHistory(body, Recent(events));
  }

  // ----- Stripping and evolving -----

  /** Removes one marked section; half a section is an error. */
  function Strip(prompt: string): Result<string, Error> {
    match Find(prompt, BEGIN)
    case None => if Contains(prompt, END) then Err(MalformedSupplement) else Ok(prompt)
    case Some(begin) =>
      var rest := prompt[begin + |BEGIN|..];
      match Find(rest, END)
      case None => Err(MalformedSupplement)
      case Some(end) =>
        var remainder := rest[end + |END|..];
        if !MarkerFree(remainder) then Err(MalformedSupplement) else
          var head := TrimEnd(prompt[..begin]);
          var tail := TrimStart(remainder);
          Ok(if tail == "" then head else if head == "" then tail else head + "\n\n" + tail)
  }

  /** The prompt that carries `supplement` instead of whatever section `prompt` carries. */
  function NextPrompt(prompt: string, supplement: Option<string>): Result<string, Error> {
    var stripped :- Strip(prompt);
    var base := TrimEnd(stripped);
    Ok(match supplement
       case Some(section) => if base == "" then section else base + "\n\n" + section
       case None => base)
  }

  /** `HarnessEvidenceRef::new(Refinement, event_id)` for each cited event. */
  function Citations(events: seq<Event>): (r: seq<EvidenceRef>)
    ensures |r| <= Snapshots.MAX_HARNESS_EVIDENCE_REFS
  {
    var n := if |events| <= Snapshots.MAX_HARNESS_EVIDENCE_REFS then |events| else Snapshots.MAX_HARNESS_EVIDENCE_REFS;
    seq(n, i requires 0 <= i < n => EvidenceRef(Refinement, events[i].id, None))
  }

  function Native<T>(r: Result<T, Snapshots.Refusal>): (o: Result<T, Error>)
    ensures o.Ok? == r.Ok? && (r.Ok? ==> o.value == r.value)
  {
    match r
    case Ok(v) => Ok(v)
    case Err(_) => Err(HarnessError)
  }

  function MakePatch(base: Snapshots.Snapshot, prompt: string, events: seq<Event>): Result<Snapshots.Patch, Error> {
    var bare := Snapshots.Patch(base.digest, [Snapshots.SetSystemPrompt(prompt)], []);
    var _ :- Native(Snapshots.CheckCitations(Citations(events)));
    var _ :- Native(Snapshots.ValidatePatch(bare));
    var patch := bare.(evidence := Citations(events));
    var _ :- Native(Snapshots.ValidatePatch(patch));
    Ok(patch)
  }

  function EvolvedRefinement(address: Snapshots.Address, base: Snapshots.Snapshot,
                             global: Option<State>, session: Option<State>, events: seq<Event>):
    Result<Option<Snapshots.Patch>, Error>
  {
    var _ :- Native(Snapshots.ValidateSnapshot(address, base));
    var supplement :- Rendered(global, session, events);
    var prompt := base.content.systemPrompt.value;
    var next :- NextPrompt(prompt, supplement);
    if next == prompt then Ok(None) else
      var patch :- MakePatch(base, next, events);
      Ok(Some(patch))
  }
}
