/** What repairing and sanitizing a history guarantee. */
module HistoryRepairTheorems {
  import opened Text
  import opened Conversation
  import opened HistoryRepair

  // ----- The displaced-result filter -----

  /** The filter yields a paired history and leaves a paired one alone, so it is
      idempotent. */
  lemma {:induction false} StripPairs(items: Items, run: set<string>)
    ensures PairedFrom(Strip(items, run), run)
    ensures PairedFrom(items, run) ==> Strip(items, run) == items && StrippedIds(items, run) == []
    ensures StrippedIds(items, run) == [] ==> PairedFrom(items, run)
  {
    if items != [] {
      var rest := Strip(items[1..], OpenAfter(run, items[0]));
      StripPairs(items[1..], OpenAfter(run, items[0]));
      assert items == [items[0]] + items[1..];
      if Kept(items[0], run) {
        assert ([items[0]] + rest)[1..] == rest;
      }
    }
  }

  /** `items` without its tool results. */
  function Others(items: Items): Items {
    if items == [] then []
    else if items[0].ToolResult? then Others(items[1..])
    else [items[0]] + Others(items[1..])
  }

  lemma {:induction false} OthersConcat(a: Items, b: Items)
    ensures Others(a + b) == Others(a) + Others(b)
  {
    if a == [] {
      assert a + b == b;
    } else {
      assert (a + b)[1..] == a[1..] + b;
      OthersConcat(a[1..], b);
    }
  }

  lemma {:induction false} ResultsAreNotOthers(run: Results)
    ensures Others(run) == []
  {
    if run != [] {
      ResultsAreNotOthers(run[1..]);
    }
  }

  lemma {:induction false} StripKeepsOthers(items: Items, run: set<string>)
    ensures Others(Strip(items, run)) == Others(items)
  {
    if items != [] {
      var rest := Strip(items[1..], OpenAfter(run, items[0]));
      StripKeepsOthers(items[1..], OpenAfter(run, items[0]));
      if Kept(items[0], run) {
        assert ([items[0]] + rest)[1..] == rest;
      }
    }
  }

  // ----- Sanitizing -----

  /** Sanitizing reports nothing exactly on the histories it leaves unchanged, and
      its output passes the read-only check. */
  lemma {:induction false} SanitizedValidates(items: Items, seen: set<string>)
    ensures Violations(Sanitize(items, seen), seen) == []
    ensures Violations(items, seen) == [] <==> Sanitize(items, seen) == items
    ensures |Sanitize(items, seen)| + |Violations(items, seen)| == |items|
  {
    if items != [] {
      var next := SeenAfter(seen, items[0]);
      var rest := Sanitize(items[1..], next);
      SanitizedValidates(items[1..], next);
      assert items == [items[0]] + items[1..];
      if Kept(items[0], seen) {
        assert ([items[0]] + rest)[1..] == rest;
      }
    }
  }

  /** The adjacency rule is the stricter one: the displaced-result filter removes
      everything sanitizing removes, in either order of application, and its
      output is clean for sanitizing. */
  lemma {:induction false} StripSubsumesSanitize(items: Items, run: set<string>, seen: set<string>)
    requires run <= seen
    ensures Strip(Sanitize(items, seen), run) == Strip(items, run)
    ensures Sanitize(Strip(items, run), seen) == Strip(items, run)
    ensures Violations(Strip(items, run), seen) == []
    ensures multiset(Violations(items, seen)) <= multiset(StrippedIds(items, run))
  {
    StripOfSanitize(items, run, seen);
    SanitizeOfStrip(items, run, seen);
    SanitizedValidates(Strip(items, run), seen);
    StripReportsMore(items, run, seen);
  }

  lemma {:induction false} SanitizeOfStrip(items: Items, run: set<string>, seen: set<string>)
    requires run <= seen
    ensures Sanitize(Strip(items, run), seen) == Strip(items, run)
  {
    if items != [] {
      var item := items[0];
      var rest := Strip(items[1..], OpenAfter(run, item));
      SanitizeOfStrip(items[1..], OpenAfter(run, item), SeenAfter(seen, item));
      if Kept(item, run) {
        assert ([item] + rest)[1..] == rest;
      }
    }
  }

  lemma {:induction false} StripReportsMore(items: Items, run: set<string>, seen: set<string>)
    requires run <= seen
    ensures multiset(Violations(items, seen)) <= multiset(StrippedIds(items, run))
  {
    if items != [] {
      StripReportsMore(items[1..], OpenAfter(run, items[0]), SeenAfter(seen, items[0]));
    }
  }

  lemma {:induction false} StripOfSanitize(items: Items, run: set<string>, seen: set<string>)
    requires run <= seen
    ensures Strip(Sanitize(items, seen), run) == Strip(items, run)
  {
    if items != [] {
      var item := items[0];
      var rest := Sanitize(items[1..], SeenAfter(seen, item));
      StripOfSanitize(items[1..], OpenAfter(run, item), SeenAfter(seen, item));
      if Kept(item, seen) {
        assert ([item] + rest)[1..] == rest;
      }
    }
  }

  // ----- Repair, one run at a time -----

  predicate StartsFree(rest: Items) {
    rest == [] || !rest[0].ToolResult?
  }

  function Declared(run: Results, open: set<string>): (r: Results)
  {
    if run == [] then []
    else if run[0].result.callId in open then [run[0]] + Declared(run[1..], open)
    else Declared(run[1..], open)
  }

  /** What the three passes leave of the run after one assistant message. */
  function FixedRun(calls: seq<ToolCall>, run: Results): Results {
    var kept := Declared(KeepLast(run), CallIds(calls));
    kept + Synthetic(calls, ResultIds(kept))
  }

  lemma {:induction false} StripRun(run: Results, rest: Items, open: set<string>)
    requires StartsFree(rest)
    ensures Strip(run + rest, open) == Declared(run, open) + Strip(rest, {})
  {
    if run == [] {
      assert run + rest == rest;
    } else {
      assert (run + rest)[1..] == run[1..] + rest;
      StripRun(run[1..], rest, open);
    }
  }

  lemma DedupRun(head: Item, run: Results, rest: Items)
    requires Calls(head) && StartsFree(rest)
    ensures Dedup([head] + run + rest) == [head] + KeepLast(run) + Dedup(rest) && StartsFree(Dedup(rest))
  {
    var items := [head] + run + rest;
    assert items[1..] == run + rest;
    RunLenOf(run, rest);
    assert items[1..][..|run|] == run && items[1..][|run|..] == rest;
  }

  lemma StripBlock(head: Item, run: Results, rest: Items)
    requires Calls(head) && StartsFree(rest)
    ensures Strip([head] + run + rest, {}) == [head] + Declared(run, CallIds(head.assistant.calls)) + Strip(rest, {})
    ensures StartsFree(Strip(rest, {}))
  {
    var items := [head] + run + rest;
    assert items[1..] == run + rest;
    StripRun(run, rest, CallIds(head.assistant.calls));
    assert Strip(items, {}) == [head] + Strip(run + rest, CallIds(head.assistant.calls));
  }

  lemma AnswerRun(head: Item, run: Results, rest: Items)
    requires Calls(head) && StartsFree(rest)
    ensures Answer([head] + run + rest)
         == [head] + (run + Synthetic(head.assistant.calls, ResultIds(run))) + Answer(rest)
  {
    var items := [head] + run + rest;
    assert items[1..] == run + rest;
    RunLenOf(run, rest);
    assert items[1..][..|run|] == run && items[1..][|run|..] == rest;
  }

  lemma RepairedBlock(head: Item, run: Results, rest: Items)
    requires Calls(head) && StartsFree(rest)
    ensures Repaired([head] + run + rest) == [head] + FixedRun(head.assistant.calls, run) + Repaired(rest)
    ensures StartsFree(Repaired(rest))
  {
    hide Dedup, Strip, Answer;
    DedupRun(head, run, rest);
    StripBlock(head, KeepLast(run), Dedup(rest));
    AnswerRun(head, Declared(KeepLast(run), CallIds(head.assistant.calls)), Strip(Dedup(rest), {}));
    RepairedStartsFree(rest);
  }

  lemma RepairedStartsFree(rest: Items)
    requires StartsFree(rest)
    ensures StartsFree(Repaired(rest))
  {
    DedupStartsFree(rest);
    StripStartsFree(Dedup(rest));
    AnswerStartsFree(Strip(Dedup(rest), {}));
  }

  lemma DedupStartsFree(rest: Items)
    requires StartsFree(rest)
    ensures StartsFree(Dedup(rest))
  {
  }

  lemma StripStartsFree(rest: Items)
    requires StartsFree(rest)
    ensures StartsFree(Strip(rest, {}))
  {
  }

  lemma AnswerStartsFree(rest: Items)
    requires StartsFree(rest)
    ensures StartsFree(Answer(rest))
  {
  }

  /** Outside a run a result is removed and anything else is kept. */
  lemma RepairedPlain(item: Item, rest: Items)
    requires !Calls(item)
    ensures Repaired([item] + rest) == if item.ToolResult? then Repaired(rest) else [item] + Repaired(rest)
  {
    assert ([item] + rest)[1..] == rest;
    var d := Dedup(rest);
    assert Dedup([item] + rest) == [item] + d;
    assert ([item] + d)[1..] == d;
    NoCallsOpen(item);
    assert Strip([item] + d, {}) == if item.ToolResult? then Strip(d, {}) else [item] + Strip(d, {});
    assert ([item] + Strip(d, {}))[1..] == Strip(d, {});
  }

  lemma NoCallsOpen(item: Item)
    requires !Calls(item)
    ensures OpenAfter({}, item) == {}
  {
  }

  // ----- Well-formed histories -----

  function Prefix(items: Items): (run: Results) {
    items[..RunLen(items)]
  }

  ghost predicate DistinctIds(ids: seq<string>) {
    forall i, j :: 0 <= i < j < |ids| ==> ids[i] != ids[j]
  }

  /** Every result answers a declared call, and every call has exactly one. */
  ghost predicate AnsweredExactly(calls: seq<ToolCall>, run: Results) {
    && DistinctIds(ResultIds(run))
    && (forall id :: id in ResultIds(run) <==> id in CallIds(calls))
  }

  /** What providers accept: results stand only right after the message whose calls
      they answer, one for each call. */
  ghost predicate WellFormed(items: Items)
    decreases |items|
  {
    items == [] ||
    if Calls(items[0]) then
      && AnsweredExactly(items[0].assistant.calls, Prefix(items[1..]))
      && WellFormed(items[1..][RunLen(items[1..])..])
    else !items[0].ToolResult? && WellFormed(items[1..])
  }

  predicate RepeatAt(calls: seq<ToolCall>, answered: seq<string>, i: int, j: int) {
    0 <= i < j < |calls| && calls[i].id == calls[j].id && calls[i].id !in answered
  }

  /** The message declares some call id twice and its run does not answer that id. */
  ghost predicate RepeatsUnanswered(calls: seq<ToolCall>, answered: seq<string>) {
    exists i, j :: RepeatAt(calls, answered, i, j)
  }

  ghost predicate NoRepeatedDangling(items: Items)
    decreases |items|
  {
    items == [] ||
    if Calls(items[0]) then
      && !RepeatsUnanswered(items[0].assistant.calls, ResultIds(Prefix(items[1..])))
      && NoRepeatedDangling(items[1..][RunLen(items[1..])..])
    else NoRepeatedDangling(items[1..])
  }

  // ----- One run -----

  lemma {:induction false} KeepLastDistinct(run: Results)
    ensures DistinctIds(ResultIds(KeepLast(run)))
  {
    if run != [] {
      hide DistinctIds, ResultIds;
      var rest: Results := run[1..];
      KeepLastDistinct(rest);
      KeepLastIds(rest);
      IdsCons(run[0], KeepLast(rest));
      ConsDistinct(run[0].result.callId, ResultIds(KeepLast(rest)));
    }
  }

  lemma IdsCons(item: Item, run: Results)
    requires item.ToolResult?
    ensures ResultIds([item] + run) == [item.result.callId] + ResultIds(run)
  {
  }

  /** A run whose ids are distinct has no duplicates to drop. */
  lemma {:induction false} KeepLastFixed(run: Results)
    ensures KeepLast(run) == run <==> DistinctIds(ResultIds(run))
  {
    KeepLastDistinct(run);
    if run != [] {
      hide DistinctIds, ResultIds;
      var rest: Results := run[1..];
      assert run == [run[0]] + rest;
      KeepLastFixed(rest);
      KeepLastShrinks(rest);
      IdsCons(run[0], rest);
      ConsDistinct(run[0].result.callId, ResultIds(rest));
    }
  }

  lemma {:induction false} DeclaredIds(run: Results, open: set<string>)
    ensures forall id :: id in ResultIds(Declared(run, open)) <==> id in ResultIds(run) && id in open
  {
    if run != [] {
      var rest: Results := run[1..];
      DeclaredIds(rest, open);
      assert ResultIds(run) == [run[0].result.callId] + ResultIds(rest);
      assert ResultIds([run[0]] + Declared(rest, open)) == [run[0].result.callId] + ResultIds(Declared(rest, open));
    }
  }

  lemma {:induction false} DeclaredFixed(run: Results, open: set<string>)
    ensures |Declared(run, open)| <= |run|
    ensures Declared(run, open) == run <==> forall id :: id in ResultIds(run) ==> id in open
  {
    if run != [] {
      var rest: Results := run[1..];
      DeclaredFixed(rest, open);
      assert run == [run[0]] + rest;
      assert ResultIds(run) == [run[0].result.callId] + ResultIds(rest);
    }
  }

  lemma {:induction false} DeclaredDistinct(run: Results, open: set<string>)
    requires DistinctIds(ResultIds(run))
    ensures DistinctIds(ResultIds(Declared(run, open)))
  {
    if run != [] {
      var rest: Results := run[1..];
      assert ResultIds(run) == [run[0].result.callId] + ResultIds(rest);
      assert forall j :: 0 <= j < |rest| ==> ResultIds(rest)[j] == ResultIds(run)[j + 1];
      DeclaredDistinct(rest, open);
      DeclaredIds(rest, open);
      assert run[0].result.callId !in ResultIds(rest);
      assert ResultIds([run[0]] + Declared(rest, open)) == [run[0].result.callId] + ResultIds(Declared(rest, open));
    }
  }

  lemma CallIdsStep(calls: seq<ToolCall>)
    requires calls != []
    ensures CallIds(calls) == {calls[0].id} + CallIds(calls[1..])
  {
    assert calls == [calls[0]] + calls[1..];
  }

  lemma {:induction false} SyntheticIds(calls: seq<ToolCall>, answered: seq<string>)
    ensures forall id :: id in ResultIds(Synthetic(calls, answered)) <==> (id in CallIds(calls) && id !in answered)
  {
    if calls != [] {
      hide Synthetic, ResultIds, CallIds;
      SyntheticIds(calls[1..], answered);
      CallIdsStep(calls);
      SyntheticStep(calls, answered);
    }
  }

  lemma ConsDistinct(id: string, ids: seq<string>)
    ensures DistinctIds([id] + ids) <==> id !in ids && DistinctIds(ids)
  {
    var all := [id] + ids;
    if DistinctIds(all) {
      forall j | 0 <= j < |ids| ensures ids[j] != id {
        assert all[j + 1] == ids[j] && all[0] == id;
      }
      forall i, j | 0 <= i < j < |ids| ensures ids[i] != ids[j] {
        assert all[i + 1] != all[j + 1];
      }
    }
    if id !in ids && DistinctIds(ids) {
      forall i, j | 0 <= i < j < |all| ensures all[i] != all[j] {
        assert all[j] == ids[j - 1];
        assert i > 0 ==> all[i] == ids[i - 1];
      }
    }
  }

  lemma RepeatsStep(calls: seq<ToolCall>, answered: seq<string>)
    requires calls != []
    ensures RepeatsUnanswered(calls, answered)
      <==> (calls[0].id !in answered && calls[0].id in CallIds(calls[1..])) || RepeatsUnanswered(calls[1..], answered)
  {
    var tail := calls[1..];
    forall i, j | 1 <= i < j ensures RepeatAt(calls, answered, i, j) <==> RepeatAt(tail, answered, i - 1, j - 1) {
      if j < |calls| {
        assert calls[i] == tail[i - 1] && calls[j] == tail[j - 1];
      }
    }
    if RepeatsUnanswered(calls, answered) {
      var i, j :| RepeatAt(calls, answered, i, j);
      assert calls[j] == tail[j - 1] && tail[j - 1].id in CallIds(tail);
      if i > 0 {
        assert RepeatAt(tail, answered, i - 1, j - 1);
      }
    }
    if RepeatsUnanswered(tail, answered) {
      var i, j :| RepeatAt(tail, answered, i, j);
      assert RepeatAt(calls, answered, i + 1, j + 1);
    }
    if calls[0].id !in answered && calls[0].id in CallIds(tail) {
      var c :| c in tail && c.id == calls[0].id;
      var j :| 0 <= j < |tail| && tail[j] == c;
      assert RepeatAt(calls, answered, 0, j + 1);
    }
  }

  lemma SyntheticStep(calls: seq<ToolCall>, answered: seq<string>)
    requires calls != []
    ensures ResultIds(Synthetic(calls, answered)) ==
      if calls[0].id in answered then ResultIds(Synthetic(calls[1..], answered))
      else [calls[0].id] + ResultIds(Synthetic(calls[1..], answered))
  {
    hide ResultIds;
    IdsCons(SyntheticResult(calls[0]), Synthetic(calls[1..], answered));
  }

  /** Two synthetic results share an id exactly when an unanswered call is repeated. */
  lemma {:induction false} SyntheticDistinct(calls: seq<ToolCall>, answered: seq<string>)
    ensures DistinctIds(ResultIds(Synthetic(calls, answered))) <==> !RepeatsUnanswered(calls, answered)
  {
    if calls != [] {
      hide RepeatsUnanswered, DistinctIds, Synthetic, ResultIds, CallIds;
      SyntheticDistinct(calls[1..], answered);
      SyntheticIds(calls[1..], answered);
      SyntheticStep(calls, answered);
      RepeatsStep(calls, answered);
      ConsDistinct(calls[0].id, ResultIds(Synthetic(calls[1..], answered)));
    }
  }

  lemma ResultIdsConcat(a: Results, b: Results)
    ensures ResultIds(a + b) == ResultIds(a) + ResultIds(b)
  {
  }

  lemma {:induction false} DistinctConcat(a: seq<string>, b: seq<string>)
    requires DistinctIds(a) && forall id :: id in a ==> id !in b
    ensures DistinctIds(a + b) <==> DistinctIds(b)
  {
    if a == [] {
      assert a + b == b;
    } else {
      var rest := a[1..];
      assert a == [a[0]] + rest;
      ConsDistinct(a[0], rest);
      DistinctConcat(rest, b);
      ConsDistinct(a[0], rest + b);
      assert a + b == [a[0]] + (rest + b);
    }
  }

  // ----- What one run becomes -----

  lemma KeptIds(calls: seq<ToolCall>, run: Results)
    ensures var kept := ResultIds(Declared(KeepLast(run), CallIds(calls)));
      DistinctIds(kept) && forall id :: id in kept <==> id in ResultIds(run) && id in CallIds(calls)
  {
    KeepLastDistinct(run);
    KeepLastIds(run);
    DeclaredIds(KeepLast(run), CallIds(calls));
    DeclaredDistinct(KeepLast(run), CallIds(calls));
  }

  /** The passes answer every call, and answer each exactly once unless an
      unanswered call id was repeated. */
  lemma FixedRunAnswers(calls: seq<ToolCall>, run: Results)
    ensures AnsweredExactly(calls, FixedRun(calls, run)) <==> !RepeatsUnanswered(calls, ResultIds(run))
    ensures forall id :: id in ResultIds(FixedRun(calls, run)) <==> id in CallIds(calls)
  {
    hide KeepLast, Declared, Synthetic, DistinctIds;
    var kept := Declared(KeepLast(run), CallIds(calls));
    var synthetic := Synthetic(calls, ResultIds(kept));
    KeptIds(calls, run);
    SyntheticIds(calls, ResultIds(kept));
    SyntheticDistinct(calls, ResultIds(kept));
    RepeatsSame(calls, ResultIds(kept), ResultIds(run));
    ResultIdsConcat(kept, synthetic);
    DistinctConcat(ResultIds(kept), ResultIds(synthetic));
  }

  lemma RepeatsSame(calls: seq<ToolCall>, a: seq<string>, b: seq<string>)
    requires forall id :: id in CallIds(calls) ==> (id in a <==> id in b)
    ensures RepeatsUnanswered(calls, a) <==> RepeatsUnanswered(calls, b)
  {
    forall i, j ensures RepeatAt(calls, a, i, j) <==> RepeatAt(calls, b, i, j) {
    }
  }

  /** A run is left alone exactly when it already answers every call once. */
  lemma FixedRunFixed(calls: seq<ToolCall>, run: Results)
    ensures FixedRun(calls, run) == run <==> AnsweredExactly(calls, run)
  {
    hide KeepLast, Declared, Synthetic, FixedRun, ResultIds;
    if AnsweredExactly(calls, run) {
      ExactRunFixed(calls, run);
    }
    if FixedRun(calls, run) == run {
      FixedRunExact(calls, run);
    }
  }

  lemma SomeId(run: Results)
    ensures run == [] || exists id :: id in ResultIds(run)
  {
    if run != [] {
      assert ResultIds(run)[0] in ResultIds(run);
    }
  }

  lemma ExactRunFixed(calls: seq<ToolCall>, run: Results)
    requires AnsweredExactly(calls, run)
    ensures FixedRun(calls, run) == run
  {
    KeepLastFixed(run);
    DeclaredFixed(run, CallIds(calls));
    SyntheticIds(calls, ResultIds(run));
    var synthetic := Synthetic(calls, ResultIds(run));
    SomeId(synthetic);
  }

  lemma FixedRunExact(calls: seq<ToolCall>, run: Results)
    requires FixedRun(calls, run) == run
    ensures AnsweredExactly(calls, run)
  {
    FixedRunAnswers(calls, run);
    SyntheticIds(calls, ResultIds(Declared(KeepLast(run), CallIds(calls))));
    var kept := Declared(KeepLast(run), CallIds(calls));
    KeptIds(calls, run);
    var synthetic := Synthetic(calls, ResultIds(kept));
    assert run == kept + synthetic;
    ResultIdsConcat(kept, synthetic);
    SomeId(synthetic);
  }

  // ----- Whole histories -----

  lemma Decompose(items: Items) returns (run: Results, rest: Items)
    requires items != [] && Calls(items[0])
    ensures items == [items[0]] + run + rest && StartsFree(rest) && |rest| < |items|
    ensures run == Prefix(items[1..]) && rest == items[1..][RunLen(items[1..])..]
  {
    var n := RunLen(items[1..]);
    run, rest := items[1..][..n], items[1..][n..];
    assert items == [items[0]] + items[1..];
    assert items[1..] == run + rest;
  }

  lemma BlockParts(head: Item, run: Results, rest: Items)
    requires StartsFree(rest)
    ensures var items := [head] + run + rest;
      Prefix(items[1..]) == run && items[1..][RunLen(items[1..])..] == rest
  {
    var items := [head] + run + rest;
    assert items[1..] == run + rest;
    RunLenOf(run, rest);
    assert (run + rest)[..|run|] == run && (run + rest)[|run|..] == rest;
  }

  lemma SameSplit(a: Results, b: Items, c: Results, d: Items)
    requires StartsFree(b) && StartsFree(d)
    ensures a + b == c + d <==> a == c && b == d
  {
    if a + b == c + d {
      RunLenOf(a, b);
      RunLenOf(c, d);
      assert a == (a + b)[..|a|] && b == (a + b)[|a|..] && c == (c + d)[..|c|] && d == (c + d)[|c|..];
    }
  }

  /** No repaired history opens with a tool result. */
  lemma {:induction false} RepairedOpensFree(items: Items)
    ensures StartsFree(Repaired(items))
  {
    if items != [] {
      if Calls(items[0]) {
        RepairedStartsFree(items);
      } else {
        assert items == [items[0]] + items[1..];
        RepairedPlain(items[0], items[1..]);
        RepairedOpensFree(items[1..]);
      }
    }
  }

  lemma WellFormedBlock(head: Item, run: Results, rest: Items)
    requires Calls(head) && StartsFree(rest)
    ensures WellFormed([head] + run + rest) <==> AnsweredExactly(head.assistant.calls, run) && WellFormed(rest)
    ensures NoRepeatedDangling([head] + run + rest)
      <==> !RepeatsUnanswered(head.assistant.calls, ResultIds(run)) && NoRepeatedDangling(rest)
  {
    BlockParts(head, run, rest);
  }

  lemma PlainBlock(item: Item, rest: Items)
    requires !Calls(item)
    ensures WellFormed([item] + rest) <==> !item.ToolResult? && WellFormed(rest)
    ensures NoRepeatedDangling([item] + rest) <==> NoRepeatedDangling(rest)
  {
    assert ([item] + rest)[1..] == rest;
  }

  /** `repair_history` changes nothing exactly on the histories providers accept. */
  lemma {:induction false} RepairFixesOnlyBroken(items: Items)
    ensures Repaired(items) == items <==> WellFormed(items)
    decreases |items|
  {
    hide Repaired, FixedRun, WellFormed;
    if items == [] {
      EmptyHistory();
    } else if Calls(items[0]) {
      var run, rest := Decompose(items);
      RepairedBlock(items[0], run, rest);
      WellFormedBlock(items[0], run, rest);
      RepairFixesOnlyBroken(rest);
      FixedRunFixed(items[0].assistant.calls, run);
      HeadSplit(items[0], FixedRun(items[0].assistant.calls, run), Repaired(rest), run, rest);
    } else {
      var rest := items[1..];
      assert items == [items[0]] + rest;
      RepairedPlain(items[0], rest);
      PlainBlock(items[0], rest);
      RepairFixesOnlyBroken(rest);
      RepairedOpensFree(rest);
      ConsSplit(items[0], Repaired(rest), rest);
    }
  }

  lemma EmptyHistory()
    ensures Repaired([]) == [] && WellFormed([]) && NoRepeatedDangling([])
  {
  }

  lemma ConsSplit(item: Item, a: Items, b: Items)
    ensures [item] + a == [item] + b <==> a == b
    ensures StartsFree(a) && item.ToolResult? ==> a != [item] + b
  {
    assert ([item] + a)[1..] == a && ([item] + b)[1..] == b;
  }

  lemma HeadSplit(head: Item, a: Results, b: Items, c: Results, d: Items)
    requires StartsFree(b) && StartsFree(d)
    ensures [head] + a + b == [head] + c + d <==> a == c && b == d
  {
    SameSplit(a, b, c, d);
    assert ([head] + a + b)[1..] == a + b && ([head] + c + d)[1..] == c + d;
  }

  /** What repair produces is accepted exactly when no message repeated a call id
      it left unanswered. */
  lemma {:induction false} RepairReachesWellFormed(items: Items)
    ensures WellFormed(Repaired(items)) <==> NoRepeatedDangling(items)
    decreases |items|
  {
    hide Repaired, FixedRun, WellFormed, NoRepeatedDangling, AnsweredExactly, RepeatsUnanswered;
    if items == [] {
      EmptyHistory();
    } else if Calls(items[0]) {
      var run, rest := Decompose(items);
      var calls := items[0].assistant.calls;
      RepairedBlock(items[0], run, rest);
      WellFormedBlock(items[0], run, rest);
      WellFormedBlock(items[0], FixedRun(calls, run), Repaired(rest));
      FixedRunAnswers(calls, run);
      RepairReachesWellFormed(rest);
    } else {
      var rest := items[1..];
      assert items == [items[0]] + rest;
      RepairedPlain(items[0], rest);
      PlainBlock(items[0], rest);
      PlainBlock(items[0], Repaired(rest));
      RepairReachesWellFormed(rest);
    }
  }

  /** Repairing twice equals repairing once exactly when no assistant message
      declares one call id twice without answering it. */
  lemma RepairIdempotentIff(items: Items)
    ensures Repaired(Repaired(items)) == Repaired(items) <==> NoRepeatedDangling(items)
  {
    RepairReachesWellFormed(items);
    RepairFixesOnlyBroken(Repaired(items));
  }

  /** The shortest history on which the second repair undoes part of the first. */
  lemma RepairNotIdempotent()
    ensures var call := ToolCall("id1", "shell", "{}");
      var items := [Assistant(AssistantItem("", [call, call], None, None, None))];
      Repaired(Repaired(items)) != Repaired(items)
  {
    var call := ToolCall("id1", "shell", "{}");
    var items := [Assistant(AssistantItem("", [call, call], None, None, None))];
    assert items[1..] == [];
    assert RepeatAt([call, call], [], 0, 1);
    RepairIdempotentIff(items);
  }

  /** Repair touches tool results only: every other item survives, in order. */
  lemma {:induction false} RepairKeepsOthers(items: Items)
    ensures Others(Repaired(items)) == Others(items)
    decreases |items|
  {
    hide Repaired, FixedRun, Others;
    if items == [] {
      EmptyHistory();
    } else if Calls(items[0]) {
      var run, rest := Decompose(items);
      RepairedBlock(items[0], run, rest);
      OthersOfBlock(items[0], run, rest);
      OthersOfBlock(items[0], FixedRun(items[0].assistant.calls, run), Repaired(rest));
      RepairKeepsOthers(rest);
    } else {
      var rest := items[1..];
      assert items == [items[0]] + rest;
      RepairedPlain(items[0], rest);
      OthersOfCons(items[0], rest);
      OthersOfCons(items[0], Repaired(rest));
      RepairKeepsOthers(rest);
    }
  }

  lemma OthersOfCons(item: Item, rest: Items)
    ensures Others([item] + rest) == if item.ToolResult? then Others(rest) else [item] + Others(rest)
  {
    assert ([item] + rest)[1..] == rest;
  }

  lemma OthersOfBlock(head: Item, run: Results, rest: Items)
    requires !head.ToolResult?
    ensures Others([head] + run + rest) == [head] + Others(rest)
  {
    assert [head] + run + rest == [head] + (run + rest);
    OthersOfCons(head, run + rest);
    OthersConcat(run, rest);
    ResultsAreNotOthers(run);
  }

  /** A repaired history obeys the adjacency rule, whatever it was repaired from,
      and passes both compaction filters untouched. */
  lemma RepairedIsPaired(items: Items)
    ensures RunPaired(Repaired(items))
    ensures Sanitize(Repaired(items), {}) == Repaired(items) && StrippedIds(Repaired(items), {}) == []
  {
    hide Repaired;
    RepairedScans(items);
    PairedIsRunPaired(Repaired(items));
    StripPairs(Repaired(items), {});
    StripSubsumesSanitize(Repaired(items), {}, {});
  }

  lemma {:induction false} RunScans(run: Results, rest: Items, open: set<string>)
    requires StartsFree(rest) && forall id :: id in ResultIds(run) ==> id in open
    ensures PairedFrom(run + rest, open) <==> PairedFrom(rest, {})
  {
    if run == [] {
      assert run + rest == rest;
    } else {
      assert ResultIds(run)[0] in ResultIds(run);
      assert ResultIds(run) == [run[0].result.callId] + ResultIds(run[1..]);
      assert (run + rest)[1..] == run[1..] + rest;
      RunScans(run[1..], rest, open);
    }
  }

  lemma {:induction false} RepairedScans(items: Items)
    ensures PairedFrom(Repaired(items), {})
    decreases |items|
  {
    hide Repaired, FixedRun;
    if items == [] {
      EmptyHistory();
    } else if Calls(items[0]) {
      var run, rest := Decompose(items);
      var fixed := FixedRun(items[0].assistant.calls, run);
      RepairedBlock(items[0], run, rest);
      FixedRunAnswers(items[0].assistant.calls, run);
      RepairedScans(rest);
      RunScans(fixed, Repaired(rest), CallIds(items[0].assistant.calls));
      assert ([items[0]] + fixed + Repaired(rest))[1..] == fixed + Repaired(rest);
    } else {
      var rest := items[1..];
      assert items == [items[0]] + rest;
      RepairedPlain(items[0], rest);
      NoCallsOpen(items[0]);
      RepairedScans(rest);
      assert ([items[0]] + Repaired(rest))[1..] == Repaired(rest);
    }
  }
}
