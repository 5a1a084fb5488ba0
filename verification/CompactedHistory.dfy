/** The history that replaces a conversation once it has been summarized. */
module CompactedHistory {
  import opened Text
  import opened Conversation
  import opened SummaryFormat

  /** Extracts the query from the text of a user item; nothing is assumed about it. */
  type Extract = string -> string

  const AUTO_CONTINUE_SENTINEL := "__auto_continue__"
  const AUTO_CONTINUE_PROMPT :=
    "Continue the conversation from " + "where it left off without " + "asking the user any further "
    + "questions. Resume directly - " + "do not acknowledge the " + "summary, do not recap what "
    + "was happening, do not preface " + "with \"I'll continue\" or " + "similar.\nPick up the last "
    + "task as if the break never " + "happened."

  // ----- Anchors -----

  function TextContent(parts: seq<Part>): string {
    if parts == [] then ""
    else if parts[0].ImagePart? then TextContent(parts[1..])
    else if exists i :: 0 < i < |parts| && parts[i].TextPart? then parts[0].text + "\n" + TextContent(parts[1..])
    else parts[0].text
  }

  predicate IsSyntheticQuery(text: string) {
    text == "" || text == AUTO_CONTINUE_SENTINEL || text == AUTO_CONTINUE_PROMPT
  }

  function QueryOf(extract: Extract, u: UserItem): string {
    extract(TextContent(u.parts))
  }

  predicate IsRealUserTurn(extract: Extract, item: Item) {
    && item.User? && item.user.synthetic.None?
    && ((exists i :: 0 <= i < |item.user.parts| && item.user.parts[i].ImagePart?)
        || !IsSyntheticQuery(QueryOf(extract, item.user)))
  }

  predicate IsAgentMessage(item: Item) {
    item.User? && item.user.synthetic == Some(AgentMessage)
  }

  /** `rposition` */
  function LastWhere(items: Items, p: Item -> bool): (r: Option<nat>)
    ensures r.Some? ==> r.value < |items| && p(items[r.value]) && forall i :: r.value < i < |items| ==> !p(items[i])
    ensures r.None? ==> forall i :: 0 <= i < |items| ==> !p(items[i])
  {
    if items == [] then None
    else if p(items[|items| - 1]) then Some(|items| - 1)
    else LastWhere(items[..|items| - 1], p)
  }

  function LastAgent(items: Items): Option<nat> {
    LastWhere(items, (item: Item) => IsAgentMessage(item))
  }

  function LastHuman(extract: Extract, items: Items): Option<nat> {
    LastWhere(items, (item: Item) => IsRealUserTurn(extract, item))
  }

  function LastAnchor(extract: Extract, items: Items): Option<nat> {
    LastWhere(items, (item: Item) => IsRealUserTurn(extract, item) || IsAgentMessage(item))
  }

  // ----- The state captured before compaction -----

  datatype Position = Only | BeforeHuman | AfterHuman

  datatype AgentAnchor = AgentAnchor(item: Item, position: Position)

  function LatestAgentMessage(extract: Extract, items: Items): Option<AgentAnchor> {
    match LastAgent(items)
    case None => None
    case Some(a) =>
      var position := match LastHuman(extract, items)
        case None => Only
        case Some(h) => if a < h then BeforeHuman else AfterHuman;
      Some(AgentAnchor(items[a], position))
  }

  const OMITTED := "Tool call omitted..."

  /** Keeps agent messages, assistant messages and results, the latter without content. */
  function Tail(items: Items): Items {
    if items == [] then [] else
      var rest := Tail(items[1..]);
      if IsAgentMessage(items[0]) || items[0].Assistant? then [items[0]] + rest
      else if items[0].ToolResult? then [ToolResult(ResultItem(items[0].result.callId, OMITTED, []))] + rest
      else rest
  }

  function TailStart(extract: Extract, items: Items): (start: nat)
    ensures start <= |items|
  {
    match LastAnchor(extract, items)
    case None => 0
    case Some(i) => if IsAgentMessage(items[i]) then i else i + 1
  }

  function RecentMessages(extract: Extract, items: Items): Items {
    Tail(items[TailStart(extract, items)..])
  }

  function LastQuery(extract: Extract, items: Items): Option<string> {
    match LastHuman(extract, items)
    case None => None
    case Some(h) => Some(QueryOf(extract, items[h].user))
  }

  /** The conversation part of the captured state. */
  datatype Context = Context(
    cwdGeneration: nat, destinationInstructions: Option<string>,
    anchor: Option<AgentAnchor>, recent: Items, lastQuery: Option<string>)

  function BuildContext(extract: Extract, items: Items, cwdGeneration: nat, instructions: Option<string>): Context {
    Context(cwdGeneration, instructions, LatestAgentMessage(extract, items), RecentMessages(extract, items),
            LastQuery(extract, items))
  }

  /** The view without the working tail. */
  function ForCompaction(extract: Extract, c: Context): Context {
    var anchor := if c.anchor.Some? then c.anchor else LatestAgentMessage(extract, c.recent);
    c.(anchor := anchor, recent := [])
  }

  // ----- The compacted history -----

  datatype Input = Input(
    system: Item, userPrefix: string, agentsReminder: Option<string>, context: Context,
    summary: string, systemReminder: Option<string>, transcriptHint: Option<string>)

  function UserText(text: string, synthetic: Option<SyntheticReason>): Item {
    User(UserItem([TextPart(text)], synthetic, None, None, None))
  }

  const PREAMBLE :=
    "This session is being continued " + "from a previous conversation " + "that ran out of context. "
    + "The summary below covers the " + "earlier portion of the " + "conversation.\n\n"

  function SummaryItem(input: Input): Item {
    UserText(PREAMBLE + Formatted(input.summary) + input.transcriptHint.GetOr(""), Some(CompactionMeta))
  }

  function Wrapped(query: string): Item {
    UserText("<user_query>\n" + query + "\n</user_query>", None)
  }

  function Instructions(input: Input): Option<string> {
    if input.context.cwdGeneration == 0 then input.agentsReminder else input.context.destinationInstructions
  }

  predicate HasAgent(items: Items) {
    exists i :: 0 <= i < |items| && IsAgentMessage(items[i])
  }

  /** The anchor, unless the tail already carries an agent message. */
  function Anchor(c: Context): Option<AgentAnchor> {
    if HasAgent(c.recent) then None else c.anchor
  }

  function AnchorAt(c: Context, before: bool): Items {
    match Anchor(c)
    case None => []
    case Some(a) => if a.position.BeforeHuman? == before then [a.item] else []
  }

  function Opening(input: Input): Items {
    [input.system, UserText(input.userPrefix, Some(CompactionMeta))]
    + match Instructions(input)
      case None => []
      case Some(text) => [UserText(text, Some(ProjectInstructions))]
  }

  function QueryItems(c: Context): Items {
    match c.lastQuery
    case None => []
    case Some(query) => [Wrapped(query)]
  }

  function Closing(input: Input): Items {
    [SummaryItem(input)]
    + match input.systemReminder
      case None => []
      case Some(text) => [UserText(text, Some(SystemReminder))]
  }

  function Compacted(input: Input): Items {
    Opening(input) + AnchorAt(input.context, true) + QueryItems(input.context) + AnchorAt(input.context, false)
    + input.context.recent + Closing(input)
  }

  method BuildCompactedHistory(input: Input) returns (compacted: Items)
    ensures compacted == Compacted(input)
  {
    hide SummaryItem, Wrapped;
    var summaryItem := SummaryItem(input);
    compacted := [input.system, UserText(input.userPrefix, Some(CompactionMeta))];
    var instructions := Instructions(input);
    if instructions.Some? {
      compacted := compacted + [UserText(instructions.value, Some(ProjectInstructions))];
    }
    assert compacted == Opening(input);
    var anchor := Anchor(input.context);
    if anchor.Some? && anchor.value.position.BeforeHuman? {
      compacted := compacted + [anchor.value.item];
    }
    assert compacted == Opening(input) + AnchorAt(input.context, true);
    if input.context.lastQuery.Some? {
      compacted := compacted + [Wrapped(input.context.lastQuery.value)];
    }
    if anchor.Some? && !anchor.value.position.BeforeHuman? {
      compacted := compacted + [anchor.value.item];
    }
    ghost var head := compacted;
    assert head == Opening(input) + AnchorAt(input.context, true) + QueryItems(input.context) + AnchorAt(input.context, false);
    var recent := input.context.recent;
    for i := 0 to |recent|
      invariant compacted == head + recent[..i]
    {
      compacted := compacted + [recent[i]];
    }
    assert compacted == head + recent;
    compacted := compacted + [summaryItem];
    if input.systemReminder.Some? {
      compacted := compacted + [UserText(input.systemReminder.value, Some(SystemReminder))];
    }
    assert compacted == head + recent + Closing(input);
  }

  // ----- Pairing -----

  /** Dropping items other than results and assistant messages only widens the set of
      calls a result may answer. */
  lemma {:induction false} TailPaired(items: Items, run: set<string>, wider: set<string>)
    requires PairedFrom(items, run) && run <= wider
    ensures PairedFrom(Tail(items), wider)
  {
    if items != [] {
      var item, rest := items[0], Tail(items[1..]);
      if IsAgentMessage(item) || item.Assistant? {
        TailPaired(items[1..], OpenAfter(run, item), OpenAfter(wider, item));
        assert ([item] + rest)[1..] == rest;
      } else if item.ToolResult? {
        TailPaired(items[1..], run, wider);
        assert Tail(items)[1..] == rest;
      } else {
        TailPaired(items[1..], {}, wider);
      }
    }
  }

  lemma SuffixScans(items: Items, i: nat)
    requires i < |items| && !items[i].ToolResult? && PairedFrom(items, {})
    ensures PairedFrom(items[i..], {})
  {
    assert items == items[..i] + items[i..];
    PairedConcat(items[..i], items[i..], {});
  }

  lemma AfterUserScans(items: Items, i: nat)
    requires i < |items| && items[i].User? && PairedFrom(items, {})
    ensures PairedFrom(items[i + 1..], {})
  {
    SuffixScans(items, i);
    assert items[i..][1..] == items[i + 1..];
  }

  lemma RecentPaired(extract: Extract, items: Items)
    requires PairedFrom(items, {})
    ensures PairedFrom(RecentMessages(extract, items), {})
  {
    hide IsRealUserTurn;
    var anchor := LastAnchor(extract, items);
    var start := TailStart(extract, items);
    if anchor.Some? {
      AnchorIsUser(extract, items, anchor.value);
      SuffixScans(items, anchor.value);
      AfterUserScans(items, anchor.value);
    } else {
      assert items[0..] == items;
    }
    TailPaired(items[start..], {}, {});
  }

  lemma AnchorIsUser(extract: Extract, items: Items, i: nat)
    requires LastAnchor(extract, items) == Some(i)
    ensures i < |items| && items[i].User?
  {
  }

  /** Items that open no call and answer none. */
  predicate Inert(items: Items) {
    forall i :: 0 <= i < |items| ==> items[i].User? || items[i].System?
  }

  lemma {:induction false} InertScans(items: Items, run: set<string>)
    requires Inert(items)
    ensures PairedFrom(items, run)
    ensures OpenAfterAll(items, run) == if items == [] then run else {}
  {
    if items != [] {
      InertScans(items[1..], OpenAfter(run, items[0]));
    }
  }

  lemma InertAround(head: Items, mid: Items, tail: Items)
    requires Inert(head) && Inert(tail) && PairedFrom(mid, {})
    ensures PairedFrom(head + mid + tail, {})
  {
    InertScans(head, {});
    InertScans(tail, OpenAfterAll(head + mid, {}));
    PairedConcat(head, mid, {});
    PairedConcat(head + mid, tail, {});
  }

  /** The contexts compaction uses: the captured one, with or without its tail. */
  ghost predicate ContextOf(extract: Extract, items: Items, c: Context) {
    && (c.recent == [] || c.recent == RecentMessages(extract, items))
    && c.anchor == LatestAgentMessage(extract, items)
    && c.lastQuery == LastQuery(extract, items)
  }

  /** A compacted history has no orphaned and no displaced result. */
  lemma CompactedIsPaired(extract: Extract, items: Items, input: Input)
    requires input.system.System? && ContextOf(extract, items, input.context) && RunPaired(items)
    ensures RunPaired(Compacted(input))
  {
    hide RecentMessages, IsRealUserTurn, SummaryItem, Wrapped, UserText, RunPaired, LastQuery;
    var c := input.context;
    PairedIsRunPaired(items);
    RecentPaired(extract, items);
    var head := Opening(input) + AnchorAt(c, true) + QueryItems(c) + AnchorAt(c, false);
    InertParts(extract, items, input);
    NoneScans();
    InertAround(head, c.recent, Closing(input));
    PairedIsRunPaired(Compacted(input));
  }

  lemma NoneScans()
    ensures PairedFrom([], {})
  {
  }

  lemma InertParts(extract: Extract, items: Items, input: Input)
    requires input.system.System? && input.context.anchor == LatestAgentMessage(extract, items)
    ensures Inert(Opening(input) + AnchorAt(input.context, true) + QueryItems(input.context) + AnchorAt(input.context, false))
    ensures Inert(Closing(input))
  {
    hide IsRealUserTurn, Formatted, PREAMBLE, LatestAgentMessage;
    var c := input.context;
    AnchorInert(extract, items);
    InertConcat(Opening(input), AnchorAt(c, true));
    InertConcat(Opening(input) + AnchorAt(c, true), QueryItems(c));
    InertConcat(Opening(input) + AnchorAt(c, true) + QueryItems(c), AnchorAt(c, false));
  }

  lemma AnchorInert(extract: Extract, items: Items)
    ensures LatestAgentMessage(extract, items).Some? ==> IsAgentMessage(LatestAgentMessage(extract, items).value.item)
  {
    hide IsRealUserTurn;
  }

  lemma InertConcat(a: Items, b: Items)
    requires Inert(a) && Inert(b)
    ensures Inert(a + b)
  {
  }

  // ----- Who spoke last -----

  /** User items that stand for input: typed by a human or sent by another agent. */
  predicate Speaks(item: Item) {
    item.User? && (item.user.synthetic.None? || item.user.synthetic == Some(AgentMessage))
  }

  function Voices(items: Items): Items {
    if items == [] then []
    else if Speaks(items[0]) then [items[0]] + Voices(items[1..])
    else Voices(items[1..])
  }

  lemma {:induction false} VoicesConcat(a: Items, b: Items)
    ensures Voices(a + b) == Voices(a) + Voices(b)
  {
    if a == [] {
      assert a + b == b;
    } else {
      assert (a + b)[1..] == a[1..] + b;
      VoicesConcat(a[1..], b);
    }
  }

  lemma {:induction false} SilentTail(items: Items)
    requires forall i :: 0 <= i < |items| ==> !IsAgentMessage(items[i])
    ensures Voices(Tail(items)) == [] && !HasAgent(Tail(items))
  {
    if items != [] {
      var item, rest := items[0], Tail(items[1..]);
      SilentTail(items[1..]);
      if item.Assistant? || item.ToolResult? {
        assert Tail(items)[1..] == rest;
        assert forall i :: 0 < i < |Tail(items)| ==> Tail(items)[i] == rest[i - 1];
      }
    }
  }

  lemma VoiceOfOne(item: Item)
    ensures Voices([item]) == if Speaks(item) then [item] else []
  {
    assert [item][1..] == [];
  }

  /** The input the compacted history must carry: the latest agent message and the
      latest human query, in their original order. */
  function ExpectedVoices(extract: Extract, items: Items): Items {
    match (LastAgent(items), LastHuman(extract, items))
    case (None, None) => []
    case (Some(a), None) => [items[a]]
    case (None, Some(h)) => [Wrapped(QueryOf(extract, items[h].user))]
    case (Some(a), Some(h)) =>
      var query := Wrapped(QueryOf(extract, items[h].user));
      if a < h then [items[a], query] else [query, items[a]]
  }

  /** The tail speaks only when the last anchor is an agent message, and then says
      just that message. */
  lemma RecentVoices(extract: Extract, items: Items)
    ensures var recent := RecentMessages(extract, items);
      match LastAgent(items)
      case None => Voices(recent) == [] && !HasAgent(recent)
      case Some(a) =>
        if LastHuman(extract, items).Some? && a < LastHuman(extract, items).value
        then Voices(recent) == [] && !HasAgent(recent)
        else Voices(recent) == [items[a]] && HasAgent(recent)
  {
    hide IsRealUserTurn;
    var start := TailStart(extract, items);
    var rest := items[start..];
    AnchorPlace(extract, items);
    var agent, human := LastAgent(items), LastHuman(extract, items);
    if agent.Some? && (human.None? || human.value < agent.value) {
      var a := agent.value;
      assert start == a && rest[0] == items[a] && rest[1..] == items[a + 1..];
      SilentTail(items[a + 1..]);
      assert Tail(rest) == [items[a]] + Tail(items[a + 1..]);
      VoicesConcat([items[a]], Tail(items[a + 1..]));
      VoiceOfOne(items[a]);
      assert IsAgentMessage(Tail(rest)[0]);
    } else {
      SilentTail(rest);
    }
  }

  /** The last anchor is the later of the last agent message and the last human turn. */
  lemma AnchorPlace(extract: Extract, items: Items)
    ensures var agent, human := LastAgent(items), LastHuman(extract, items);
      && (agent.Some? && human.Some? ==> agent.value != human.value)
      && TailStart(extract, items) ==
         if agent.Some? && (human.None? || human.value < agent.value) then agent.value
         else if human.Some? then human.value + 1 else 0
  {
    var agent, human := LastAgent(items), LastHuman(extract, items);
    var anchor := LastAnchor(extract, items);
    RealIsNotAgent(extract, items);
    hide IsRealUserTurn;
  }

  lemma RealIsNotAgent(extract: Extract, items: Items)
    ensures forall i :: 0 <= i < |items| ==> !(IsRealUserTurn(extract, items[i]) && IsAgentMessage(items[i]))
  {
  }

  lemma {:induction false} SilentVoices(items: Items)
    requires forall i :: 0 <= i < |items| ==> !Speaks(items[i])
    ensures Voices(items) == []
  {
    if items != [] {
      SilentVoices(items[1..]);
    }
  }

  lemma FrameIsSilent(input: Input)
    requires input.system.System?
    ensures Voices(Opening(input)) == [] && Voices(Closing(input)) == []
  {
    hide Formatted, PREAMBLE;
    SilentVoices(Opening(input));
    SilentVoices(Closing(input));
  }

  /** A compacted history carries the latest agent message exactly once and the
      latest human query exactly once, nothing else that looks like input, and
      orders the two as the conversation did. */
  lemma CompactedVoices(extract: Extract, items: Items, input: Input)
    requires input.system.System? && ContextOf(extract, items, input.context)
    ensures Voices(Compacted(input)) == ExpectedVoices(extract, items)
  {
    hide RecentMessages, IsRealUserTurn, SummaryItem, Opening, Closing, Tail;
    var c := input.context;
    var a, b, d := AnchorAt(c, true), QueryItems(c), AnchorAt(c, false);
    VoicesConcat(Opening(input), a);
    VoicesConcat(Opening(input) + a, b);
    VoicesConcat(Opening(input) + a + b, d);
    VoicesConcat(Opening(input) + a + b + d, c.recent);
    VoicesConcat(Opening(input) + a + b + d + c.recent, Closing(input));
    FrameIsSilent(input);
    RecentVoices(extract, items);
    PartVoices(c);
    AnchorInert(extract, items);
    NothingSpeaks();
  }

  lemma NothingSpeaks()
    ensures Voices([]) == [] && !HasAgent([])
  {
  }

  lemma PartVoices(c: Context)
    ensures Voices(QueryItems(c)) == QueryItems(c)
    ensures c.anchor.Some? && IsAgentMessage(c.anchor.value.item) ==>
      Voices(AnchorAt(c, true)) == AnchorAt(c, true) && Voices(AnchorAt(c, false)) == AnchorAt(c, false)
    ensures c.anchor.None? ==> AnchorAt(c, true) == [] && AnchorAt(c, false) == []
  {
    NothingSpeaks();
    if c.lastQuery.Some? {
      VoiceOfOne(Wrapped(c.lastQuery.value));
    }
    if c.anchor.Some? {
      VoiceOfOne(c.anchor.value.item);
    }
  }

  /** Dropping the tail keeps the captured agent message and query. */
  lemma ForCompactionIsContext(extract: Extract, items: Items, cwdGeneration: nat, instructions: Option<string>)
    ensures var c := BuildContext(extract, items, cwdGeneration, instructions);
      && ContextOf(extract, items, c) && ContextOf(extract, items, ForCompaction(extract, c))
      && c.recent == RecentMessages(extract, items) && ForCompaction(extract, c).recent == []
      && c.cwdGeneration == ForCompaction(extract, c).cwdGeneration == cwdGeneration
      && c.destinationInstructions == ForCompaction(extract, c).destinationInstructions == instructions
  {
    hide IsRealUserTurn;
    var c := BuildContext(extract, items, cwdGeneration, instructions);
    if c.anchor.None? {
      RecentVoices(extract, items);
      NoAgentNoAnchor(extract, c.recent);
    }
  }

  lemma NoAgentNoAnchor(extract: Extract, items: Items)
    requires !HasAgent(items)
    ensures LatestAgentMessage(extract, items) == None
  {
  }
}
