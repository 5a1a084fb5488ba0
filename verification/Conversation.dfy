/** Conversation items, and the pairing rule model providers enforce: a tool
    result sits in the run of results right after the assistant message that
    declared its call. */
module Conversation {
  import opened Text

  datatype Part = TextPart(text: string) | ImagePart(url: string)

  datatype SyntheticReason =
    | CompactionMeta | SystemReminder | ProjectInstructions | AgentMessage
    | OtherReason(name: string)

  datatype UserItem = UserItem(
    parts: seq<Part>, synthetic: Option<SyntheticReason>, cwdGeneration: Option<nat>,
    interrupt: Option<string>, promptIndex: Option<nat>)

  datatype ToolCall = ToolCall(id: string, name: string, arguments: string)

  datatype AssistantItem = AssistantItem(
    content: string, calls: seq<ToolCall>, model: Option<string>, fingerprint: Option<string>, effort: Option<string>)

  datatype ResultItem = ResultItem(callId: string, content: string, images: seq<Part>)

  datatype Item =
    | System(content: string)
    | User(user: UserItem)
    | Assistant(assistant: AssistantItem)
    | ToolResult(result: ResultItem)
    | BackendToolCall(payload: string)
    | Reasoning(payload: string)

  type Items = seq<Item>

  function CallIds(calls: seq<ToolCall>): (ids: set<string>)
    ensures forall i :: 0 <= i < |calls| ==> calls[i].id in ids
  {
    set c | c in calls :: c.id
  }

  predicate Declares(item: Item, id: string) {
    item.Assistant? && id in CallIds(item.assistant.calls)
  }

  predicate AllResults(items: Items) {
    forall i :: 0 <= i < |items| ==> items[i].ToolResult?
  }

  /** The result at `j` answers a call of the assistant message at `i`. */
  predicate Answers(items: Items, i: int, j: int)
    requires 0 <= j < |items| && items[j].ToolResult?
  {
    0 <= i < j && Declares(items[i], items[j].result.callId) && AllResults(items[i + 1..j])
  }

  /** Every tool result is in the run of results after its own assistant message. */
  ghost predicate RunPaired(items: Items) {
    forall j :: 0 <= j < |items| && items[j].ToolResult? ==> exists i :: Answers(items, i, j)
  }

  /** The call ids the item after `item` may answer, given those `item` itself could. */
  function OpenAfter(run: set<string>, item: Item): set<string> {
    match item
    case Assistant(a) => CallIds(a.calls)
    case ToolResult(_) => run
    case _ => {}
  }

  /** `RunPaired`, as a left-to-right scan carrying the open call ids. */
  predicate PairedFrom(items: Items, run: set<string>) {
    items == [] || ((items[0].ToolResult? ==> items[0].result.callId in run)
                    && PairedFrom(items[1..], OpenAfter(run, items[0])))
  }

  function OpenAfterAll(items: Items, run: set<string>): set<string> {
    if items == [] then run else OpenAfterAll(items[1..], OpenAfter(run, items[0]))
  }

  lemma {:induction false} PairedConcat(a: Items, b: Items, run: set<string>)
    ensures PairedFrom(a + b, run) <==> PairedFrom(a, run) && PairedFrom(b, OpenAfterAll(a, run))
  {
    if a == [] {
      assert a + b == b;
    } else {
      assert (a + b)[1..] == a[1..] + b;
      PairedConcat(a[1..], b, OpenAfter(run, a[0]));
    }
  }

  lemma ResultsUpTo(items: Items, i: nat, n: nat)
    requires i <= n < |items|
    ensures i < n && AllResults(items[i + 1..]) ==> items[n].ToolResult?
  {
    if i < n {
      assert items[i + 1..][n - i - 1] == items[n];
    }
  }

  /** The message at `i` declares the id and only results follow it. */
  predicate OpensLast(items: Items, i: int, id: string) {
    0 <= i < |items| && Declares(items[i], id) && AllResults(items[i + 1..])
  }

  lemma OpensLastSnoc(front: Items, last: Item, i: nat, id: string)
    ensures i < |front| ==> (OpensLast(front + [last], i, id) <==> last.ToolResult? && OpensLast(front, i, id))
    ensures OpensLast(front + [last], |front|, id) <==> Declares(last, id)
  {
    var items := front + [last];
    assert items[|front| + 1..] == [];
    if i < |front| {
      assert items[i + 1..] == front[i + 1..] + [last];
      assert front[i + 1..] == items[i + 1..][..|front| - i - 1];
      ResultsUpTo(items, i, |front|);
    }
  }

  /** What is open after a history: the calls of its last non-result item. */
  lemma {:induction false} OpenMeans(items: Items, id: string)
    ensures id in OpenAfterAll(items, {}) <==> exists i :: OpensLast(items, i, id)
  {
    if items != [] {
      hide OpensLast, AllResults;
      var n := |items| - 1;
      var front, last := items[..n], items[n];
      assert items == front + [last];
      OpenSnoc(front, last, {});
      OpenMeans(front, id);
      OpensLastSnoc(front, last, n, id);
      OpensInRange(items, id);
      OpensInRange(front, id);
      forall i | 0 <= i < n ensures OpensLast(items, i, id) <==> last.ToolResult? && OpensLast(front, i, id) {
        OpensLastSnoc(front, last, i, id);
      }
    }
  }

  lemma OpensInRange(items: Items, id: string)
    ensures forall i :: OpensLast(items, i, id) ==> 0 <= i < |items|
  {
  }

  lemma {:induction false} OpenSnoc(items: Items, last: Item, run: set<string>)
    ensures OpenAfterAll(items + [last], run) == OpenAfter(OpenAfterAll(items, run), last)
  {
    if items == [] {
      assert items + [last] == [last];
      assert OpenAfterAll([last], run) == OpenAfterAll([], OpenAfter(run, last));
    } else {
      assert (items + [last])[1..] == items[1..] + [last];
      OpenSnoc(items[1..], last, OpenAfter(run, items[0]));
    }
  }

  /** The scan decides the rule. */
  lemma {:induction false} PairedIsRunPaired(items: Items)
    ensures PairedFrom(items, {}) <==> RunPaired(items)
  {
    if items != [] {
      var n := |items| - 1;
      var front, last := items[..n], items[n];
      assert items == front + [last];
      PairedIsRunPaired(front);
      PairedConcat(front, [last], {});
      assert PairedFrom([last], OpenAfterAll(front, {})) <==>
             (last.ToolResult? ==> last.result.callId in OpenAfterAll(front, {})) by {
        assert [last][1..] == [];
      }
      forall i, j | 0 <= i < j < n && items[j].ToolResult? ensures Answers(items, i, j) <==> Answers(front, i, j) {
        assert items[i + 1..j] == front[i + 1..j];
      }
      FrontPaired(items, n);
      if last.ToolResult? {
        OpenMeans(front, last.result.callId);
        forall i ensures Answers(items, i, n) <==> OpensLast(front, i, last.result.callId) {
          if 0 <= i < n {
            assert items[i + 1..n] == front[i + 1..];
          }
        }
      }
    }
  }

  lemma FrontPaired(items: Items, n: nat)
    requires n + 1 == |items|
    requires forall i, j :: 0 <= i < j < n && items[j].ToolResult? ==> (Answers(items, i, j) <==> Answers(items[..n], i, j))
    ensures RunPaired(items)
      <==> RunPaired(items[..n]) && (items[n].ToolResult? ==> exists i :: Answers(items, i, n))
  {
    var front := items[..n];
    if RunPaired(items) {
      forall j | 0 <= j < n && front[j].ToolResult? ensures exists i :: Answers(front, i, j) {
        var i :| Answers(items, i, j);
        assert Answers(front, i, j);
      }
    }
    if RunPaired(front) && (items[n].ToolResult? ==> exists i :: Answers(items, i, n)) {
      forall j | 0 <= j <= n && items[j].ToolResult? ensures exists i :: Answers(items, i, j) {
        if j < n {
          assert front[j].ToolResult?;
          var i :| Answers(front, i, j);
          assert Answers(items, i, j);
        }
      }
    }
  }
}
