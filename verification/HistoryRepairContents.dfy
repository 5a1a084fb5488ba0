/** Which tool results the repair passes and the filters keep, told result by result. */
module HistoryRepairContents {
  import opened Conversation
  import opened HistoryRepair

  // ----- The adjacency filter -----

  lemma {:induction false} StripConcat(a: Items, b: Items, run: set<string>)
    ensures Strip(a + b, run) == Strip(a, run) + Strip(b, OpenAfterAll(a, run))
    ensures StrippedIds(a + b, run) == StrippedIds(a, run) + StrippedIds(b, OpenAfterAll(a, run))
  {
    if a == [] {
      assert a + b == b;
    } else {
      hide Kept, OpenAfter;
      assert (a + b)[1..] == a[1..] + b;
      StripConcat(a[1..], b, OpenAfter(run, a[0]));
    }
  }

  /** A result behind a history is kept exactly when the last item of it that is no result
      is the assistant message that declared its id; any other item is kept. */
  lemma StripNext(items: Items, x: Item)
    ensures var displaced := x.ToolResult? && forall i :: !OpensLast(items, i, x.result.callId);
      && Strip(items + [x], {}) == Strip(items, {}) + (if displaced then [] else [x])
      && StrippedIds(items + [x], {}) == StrippedIds(items, {}) + (if displaced then [x.result.callId] else [])
  {
    hide OpensLast;
    StripConcat(items, [x], {});
    assert [x][1..] == [];
    if x.ToolResult? {
      OpenMeans(items, x.result.callId);
    }
  }

  // ----- The orphan filter -----

  function SeenAll(items: Items, seen: set<string>): set<string> {
    if items == [] then seen else SeenAll(items[1..], SeenAfter(seen, items[0]))
  }

  lemma {:induction false} SanitizeConcat(a: Items, b: Items, seen: set<string>)
    ensures Sanitize(a + b, seen) == Sanitize(a, seen) + Sanitize(b, SeenAll(a, seen))
    ensures Violations(a + b, seen) == Violations(a, seen) + Violations(b, SeenAll(a, seen))
  {
    if a == [] {
      assert a + b == b;
    } else {
      hide Kept, SeenAfter;
      assert (a + b)[1..] == a[1..] + b;
      SanitizeConcat(a[1..], b, SeenAfter(seen, a[0]));
    }
  }

  lemma {:induction false} SeenMeans(items: Items, seen: set<string>, id: string)
    ensures id in SeenAll(items, seen) <==> id in seen || exists i :: 0 <= i < |items| && Declares(items[i], id)
  {
    if items != [] {
      hide CallIds;
      SeenMeans(items[1..], SeenAfter(seen, items[0]), id);
      assert forall i :: 0 < i < |items| ==> items[i] == items[1..][i - 1];
      if i :| 0 <= i < |items[1..]| && Declares(items[1..][i], id) {
        assert Declares(items[i + 1], id);
      }
      if i :| 0 <= i < |items| && Declares(items[i], id) {
        if i > 0 {
          assert Declares(items[1..][i - 1], id);
        }
      }
    }
  }

  /** A result behind a history is kept exactly when some assistant message of it declared
      its id; any other item is kept. */
  lemma SanitizeNext(items: Items, x: Item)
    ensures var orphan := x.ToolResult? && forall i :: 0 <= i < |items| ==> !Declares(items[i], x.result.callId);
      && Sanitize(items + [x], {}) == Sanitize(items, {}) + (if orphan then [] else [x])
      && Violations(items + [x], {}) == Violations(items, {}) + (if orphan then [x.result.callId] else [])
  {
    hide *;
    SanitizeConcat(items, [x], {});
    SanitizeOne(x, SeenAll(items, {}));
    if x.ToolResult? {
      SeenMeans(items, {}, x.result.callId);
    }
  }

  lemma SanitizeOne(x: Item, seen: set<string>)
    ensures var orphan := x.ToolResult? && x.result.callId !in seen;
      && Sanitize([x], seen) == (if orphan then [] else [x])
      && Violations([x], seen) == (if orphan then [x.result.callId] else [])
  {
    hide SeenAfter;
    assert [x][1..] == [];
  }

  // ----- Duplicates -----

  /** The run without its results for one id. */
  function Without(run: Results, id: string): (r: Results)
    ensures forall x :: x in r ==> x in run
  {
    if run == [] then [] else
      var rest := Without(run[1..], id);
      if run[0].result.callId == id then rest else [run[0]] + rest
  }

  lemma IdsSnoc(run: Results, x: Item)
    requires x.ToolResult?
    ensures AllResults(run + [x]) && ResultIds(run + [x]) == ResultIds(run) + [x.result.callId]
  {
  }

  lemma KeepLastCons(run: Results)
    requires run != []
    ensures KeepLast(run) ==
      (if run[0].result.callId in ResultIds(run[1..]) then [] else [run[0]]) + KeepLast(run[1..])
  {
    assert [] + KeepLast(run[1..]) == KeepLast(run[1..]);
  }

  /** The newest result of an id is kept and takes the place of the older ones. */
  lemma {:induction false} NewestResultWins(run: Results, x: Item)
    requires x.ToolResult?
    ensures AllResults(run + [x]) && KeepLast(run + [x]) == Without(KeepLast(run), x.result.callId) + [x]
  {
    IdsSnoc(run, x);
    var all: Results := run + [x];
    if run == [] {
      assert all == [x] && [x][1..] == [];
    } else {
      var rest: Results := run[1..];
      assert all[0] == run[0] && all[1..] == rest + [x];
      IdsSnoc(rest, x);
      NewestResultWins(rest, x);
      KeepLastCons(all);
      KeepLastCons(run);
      hide KeepLast;
      WithoutCons(run[0], KeepLast(rest), x.result.callId);
    }
  }

  lemma WithoutCons(head: Item, run: Results, id: string)
    requires head.ToolResult?
    ensures AllResults([head] + run)
    ensures Without([head] + run, id) == (if head.result.callId == id then [] else [head]) + Without(run, id)
  {
    assert ([head] + run)[1..] == run;
    assert [] + Without(run, id) == Without(run, id);
  }

  // ----- Synthetic results -----

  /** Every unanswered call gets one result, in call order: under its id, without images,
      and saying which tool was not executed. */
  lemma {:induction false} SyntheticNext(calls: seq<ToolCall>, c: ToolCall, answered: seq<string>)
    ensures Synthetic(calls + [c], answered) == Synthetic(calls, answered) +
      (if c.id in answered then [] else
         [ToolResult(ResultItem(c.id, "Tool execution was halted by the harness (history_repair); the tool `" + c.name
                                      + "` was not executed.", []))])
  {
    if calls == [] {
      assert calls + [c] == [c] && [c][1..] == [];
    } else {
      assert (calls + [c])[1..] == calls[1..] + [c];
      SyntheticNext(calls[1..], c, answered);
    }
  }
}
