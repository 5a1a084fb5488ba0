/** What the items of a compacted history say. */
module CompactedContents {
  import opened Text
  import opened Conversation
  import opened SummaryFormat
  import opened CompactedHistory

  /** A user item with exactly this text, marked as synthetic for this reason. */
  predicate Says(item: Item, text: string, synthetic: Option<SyntheticReason>) {
    && item.User? && item.user.parts == [TextPart(text)] && item.user.synthetic == synthetic
    && item.user.cwdGeneration == None && item.user.interrupt == None && item.user.promptIndex == None
  }

  // ----- Text of an item -----

  function TextsOf(parts: seq<Part>): seq<string> {
    if parts == [] then []
    else (if parts[0].TextPart? then [parts[0].text] else []) + TextsOf(parts[1..])
  }

  function JoinLines(texts: seq<string>): string {
    if texts == [] then "" else if |texts| == 1 then texts[0] else texts[0] + "\n" + JoinLines(texts[1..])
  }

  lemma {:induction false} SomeText(parts: seq<Part>)
    ensures TextsOf(parts) == [] <==> forall i :: 0 <= i < |parts| ==> parts[i].ImagePart?
  {
    if parts != [] {
      SomeText(parts[1..]);
      assert forall i :: 0 < i < |parts| ==> parts[i] == parts[1..][i - 1];
    }
  }

  /** A user item's text is its text parts, one per line. */
  lemma {:induction false} TextIsJoined(parts: seq<Part>)
    ensures TextContent(parts) == JoinLines(TextsOf(parts))
  {
    if parts != [] {
      var rest := TextsOf(parts[1..]);
      TextIsJoined(parts[1..]);
      SomeText(parts[1..]);
      assert forall i :: 0 < i < |parts| ==> parts[i] == parts[1..][i - 1];
      if parts[0].TextPart? {
        assert ([parts[0].text] + rest)[1..] == rest;
        if rest != [] {
          var k :| 0 <= k < |parts[1..]| && !parts[1..][k].ImagePart?;
          assert parts[k + 1].TextPart?;
        }
      } else {
        assert [] + rest == rest;
      }
    }
  }

  // ----- What the human said -----

  /** Items that read as typed by a human. */
  function Humans(items: Items): Items {
    if items == [] then []
    else (if items[0].User? && items[0].user.synthetic.None? then [items[0]] else []) + Humans(items[1..])
  }

  lemma {:induction false} HumansOfVoices(items: Items)
    ensures Humans(items) == Humans(Voices(items))
  {
    if items != [] {
      var rest := Voices(items[1..]);
      HumansOfVoices(items[1..]);
      assert ([items[0]] + rest)[1..] == rest;
      assert [] + Humans(rest) == Humans(rest);
    }
  }

  lemma OneHuman(item: Item)
    ensures Humans([item]) == if item.User? && item.user.synthetic.None? then [item] else []
  {
    assert [item][1..] == [] && Humans([]) == [];
  }

  lemma TwoHumans(a: Item, b: Item)
    ensures Humans([a, b]) == Humans([a]) + Humans([b])
  {
    assert [a, b][1..] == [b];
    OneHuman(a);
  }

  lemma WrappedSays(query: string)
    ensures Says(Wrapped(query), "<user_query>\n" + query + "\n</user_query>", None)
  {
  }

  /** The compacted history holds one human item when the conversation had a human query,
      which is the text of that query between its tags and nothing else, and none
      otherwise. */
  lemma QueryIsCarried(extract: Extract, items: Items, input: Input)
    requires input.system.System? && ContextOf(extract, items, input.context)
    ensures LastHuman(extract, items).None? ==> Humans(Compacted(input)) == []
    ensures LastHuman(extract, items).Some? ==>
      var query := extract(JoinLines(TextsOf(items[LastHuman(extract, items).value].user.parts)));
      && |Humans(Compacted(input))| == 1
      && Says(Humans(Compacted(input))[0], "<user_query>\n" + query + "\n</user_query>", None)
  {
    hide IsRealUserTurn, Compacted, Wrapped, ContextOf, JoinLines, TextsOf, TextContent;
    var human, agent := LastHuman(extract, items), LastAgent(items);
    CompactedVoices(extract, items, input);
    HumansOfVoices(Compacted(input));
    if human.Some? {
      HumanIsUser(extract, items, human.value);
      var u := items[human.value].user;
      TextIsJoined(u.parts);
      WrappedSays(QueryOf(extract, u));
      OneHuman(Wrapped(QueryOf(extract, u)));
      if agent.Some? {
        OneHuman(items[agent.value]);
        TwoHumans(items[agent.value], Wrapped(QueryOf(extract, u)));
        TwoHumans(Wrapped(QueryOf(extract, u)), items[agent.value]);
        assert [] + [Wrapped(QueryOf(extract, u))] == [Wrapped(QueryOf(extract, u))];
      }
    } else if agent.Some? {
      OneHuman(items[agent.value]);
    }
  }

  lemma HumanIsUser(extract: Extract, items: Items, i: nat)
    requires LastHuman(extract, items) == Some(i)
    ensures i < |items| && items[i].User?
  {
  }

  // ----- The frame -----

  /** Where the summary stands. */
  function SummaryPlace(input: Input): int {
    |Compacted(input)| - (if input.systemReminder.Some? then 2 else 1)
  }

  /** The project instructions of the place the conversation runs in. */
  function InstructionText(input: Input): Option<string> {
    if input.context.cwdGeneration == 0 then input.agentsReminder else input.context.destinationInstructions
  }

  /** The history opens with the system item, the prefix and the project instructions, and
      closes with the cleaned summary, followed by its hint, and the reminder. */
  lemma FrameIsCarried(input: Input)
    ensures var c := Compacted(input);
      && |c| >= 3 && c[0] == input.system && Says(c[1], input.userPrefix, Some(CompactionMeta))
      && (InstructionText(input).Some? ==>
            |c| >= 4 && Says(c[2], InstructionText(input).value, Some(ProjectInstructions)))
      && 2 <= SummaryPlace(input) < |c|
      && Says(c[SummaryPlace(input)],
              PREAMBLE + Formatted(input.summary) + (if input.transcriptHint.Some? then input.transcriptHint.value else ""),
              Some(CompactionMeta))
      && (input.systemReminder.Some? ==> Says(c[|c| - 1], input.systemReminder.value, Some(SystemReminder)))
  {
    hide Formatted, PREAMBLE, AnchorAt, QueryItems;
    var mid := AnchorAt(input.context, true) + QueryItems(input.context) + AnchorAt(input.context, false) + input.context.recent;
    assert Compacted(input) == Opening(input) + mid + Closing(input);
  }

  // ----- The working tail -----

  /** The items a tail is made of, without what it may not carry. */
  function Working(items: Items): Items {
    if items == [] then []
    else
      (if items[0].Assistant? || (items[0].User? && items[0].user.synthetic == Some(AgentMessage)) then [items[0]]
       else if items[0].ToolResult? then [ToolResult(ResultItem(items[0].result.callId, "Tool call omitted...", []))]
       else []) + Working(items[1..])
  }

  /** A tail keeps every assistant and agent message as it is and every tool result with its
      id, in order, and nothing else; the contents of results are left out. */
  lemma {:induction false} TailIsWorking(items: Items)
    ensures Tail(items) == Working(items)
  {
    if items != [] {
      TailIsWorking(items[1..]);
      assert [] + Working(items[1..]) == Working(items[1..]);
    }
  }

  /** The tail starts with the latest agent message, or right behind the latest human turn
      when that is newer; without either it is the whole conversation. */
  lemma RecentIsWorking(extract: Extract, items: Items)
    ensures var agent, human := LastAgent(items), LastHuman(extract, items);
      RecentMessages(extract, items) == Working(
        if agent.Some? && (human.None? || human.value < agent.value) then items[agent.value..]
        else if human.Some? then items[human.value + 1..] else items)
  {
    hide IsRealUserTurn, Tail, Working;
    AnchorPlace(extract, items);
    TailIsWorking(items[TailStart(extract, items)..]);
    assert items[0..] == items;
  }
}
