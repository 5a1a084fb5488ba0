/** The three passes that repair the tool pairing of a stored conversation, and
    the two filters over a compacted one. */
module HistoryRepair {
  import opened Conversation

  // ----- Runs -----

  /** How many tool results the history opens with. */
  function RunLen(items: Items): (n: nat)
    ensures n <= |items| && AllResults(items[..n]) && (n < |items| ==> !items[n].ToolResult?)
  {
    if items != [] && items[0].ToolResult? then
      assert items[..1 + RunLen(items[1..])] == [items[0]] + items[1..][..RunLen(items[1..])];
      1 + RunLen(items[1..])
    else 0
  }

  predicate Calls(item: Item) {
    item.Assistant? && item.assistant.calls != []
  }

  type Results = r: Items | AllResults(r) witness []

  function ResultIds(run: Results): (ids: seq<string>)
    ensures |ids| == |run| && forall i :: 0 <= i < |run| ==> ids[i] == run[i].result.callId
  {
    seq(|run|, i requires 0 <= i < |run| => run[i].result.callId)
  }

  // ----- Duplicate results -----

  /** The last result of every id, in order. */
  function KeepLast(run: Results): (r: Results)
    ensures forall x :: x in r ==> x in run
  {
    if run == [] then [] else
      var rest := KeepLast(run[1..]);
      if run[0].result.callId in ResultIds(run[1..]) then rest else [run[0]] + rest
  }

  function Dedup(items: Items): Items {
    if items == [] then []
    else if Calls(items[0]) then
      var n := RunLen(items[1..]);
      [items[0]] + KeepLast(items[1..][..n]) + Dedup(items[1..][n..])
    else [items[0]] + Dedup(items[1..])
  }

  // ----- Displaced results -----

  predicate Kept(item: Item, run: set<string>) {
    item.ToolResult? ==> item.result.callId in run
  }

  function Strip(items: Items, run: set<string>): Items {
    if items == [] then [] else
      var rest := Strip(items[1..], OpenAfter(run, items[0]));
      if Kept(items[0], run) then [items[0]] + rest else rest
  }

  function StrippedIds(items: Items, run: set<string>): seq<string> {
    if items == [] then [] else
      var rest := StrippedIds(items[1..], OpenAfter(run, items[0]));
      if Kept(items[0], run) then rest else [items[0].result.callId] + rest
  }

  // ----- Unanswered calls -----

  function SyntheticText(name: string): string {
    "Tool execution was halted by the harness (history_repair); the tool `" + name + "` was not executed."
  }

  function SyntheticResult(c: ToolCall): Item {
    ToolResult(ResultItem(c.id, SyntheticText(c.name), []))
  }

  /** One synthetic result per unanswered call, in call order. */
  function Synthetic(calls: seq<ToolCall>, answered: seq<string>): (r: Results) {
    if calls == [] then [] else
      var rest := Synthetic(calls[1..], answered);
      if calls[0].id in answered then rest else [SyntheticResult(calls[0])] + rest
  }

  function Answer(items: Items): Items {
    if items == [] then []
    else if Calls(items[0]) then
      var n := RunLen(items[1..]);
      var run := items[1..][..n];
      [items[0]] + (run + Synthetic(items[0].assistant.calls, ResultIds(run))) + Answer(items[1..][n..])
    else [items[0]] + Answer(items[1..])
  }

  function Repaired(items: Items): Items {
    Answer(Strip(Dedup(items), {}))
  }

  // ----- Sanitizing a compacted history -----

  function SeenAfter(seen: set<string>, item: Item): set<string> {
    if item.Assistant? then seen + CallIds(item.assistant.calls) else seen
  }

  function Sanitize(items: Items, seen: set<string>): Items {
    if items == [] then [] else
      var rest := Sanitize(items[1..], SeenAfter(seen, items[0]));
      if Kept(items[0], seen) then [items[0]] + rest else rest
  }

  function Violations(items: Items, seen: set<string>): seq<string> {
    if items == [] then [] else
      var rest := Violations(items[1..], SeenAfter(seen, items[0]));
      if Kept(items[0], seen) then rest else [items[0].result.callId] + rest
  }

  lemma ViolationsStep(items: Items, seen: set<string>)
    requires items != []
    ensures Violations(items, seen) ==
      (if Kept(items[0], seen) then [] else [items[0].result.callId]) + Violations(items[1..], SeenAfter(seen, items[0]))
  {
    hide Kept, SeenAfter;
    var rest := Violations(items[1..], SeenAfter(seen, items[0]));
    assert [] + rest == rest;
  }

  lemma NoViolations(items: Items, seen: set<string>)
    requires items == []
    ensures Violations(items, seen) == []
  {
  }

  method ValidateCompactedHistory(items: Items) returns (invalid: seq<string>)
    ensures invalid == Violations(items, {})
  {
    hide Violations, CallIds;
    var seen := {};
    invalid := [];
    assert items[0..] == items;
    for i := 0 to |items|
      invariant Violations(items, {}) == invalid + Violations(items[i..], seen)
    {
      ViolationsStep(items[i..], seen);
      assert items[i..][0] == items[i] && items[i..][1..] == items[i + 1..];
      match items[i] {
        case Assistant(a) => seen := seen + CallIds(a.calls);
        case ToolResult(t) =>
          if t.callId !in seen {
            invalid := invalid + [t.callId];
          }
        case _ =>
      }
    }
    NoViolations(items[|items|..], seen);
  }

  method SanitizeCompactedHistory(items: Items) returns (sanitized: Items, stripped: seq<string>)
    ensures sanitized == Sanitize(items, {})
    ensures stripped == Violations(items, {})
  {
    var seen := {};
    sanitized, stripped := [], [];
    for i := 0 to |items|
      invariant Violations(items, {}) == stripped + Violations(items[i..], seen)
      invariant Sanitize(items, {}) == sanitized + Sanitize(items[i..], seen)
    {
      var keep := true;
      match items[i] {
        case Assistant(a) => seen := seen + CallIds(a.calls);
        case ToolResult(t) =>
          if t.callId !in seen {
            stripped := stripped + [t.callId];
            keep := false;
          }
        case _ =>
      }
      if keep {
        sanitized := sanitized + [items[i]];
      }
    }
  }

  /** The closure `retain` runs over the items. */
  method RetainPaired(items: Items) returns (kept: Items, stripped: seq<string>)
    ensures kept == Strip(items, {}) && stripped == StrippedIds(items, {})
  {
    var run := {};
    kept, stripped := [], [];
    for i := 0 to |items|
      invariant StrippedIds(items, {}) == stripped + StrippedIds(items[i..], run)
      invariant Strip(items, {}) == kept + Strip(items[i..], run)
    {
      var keep := true;
      match items[i] {
        case Assistant(a) => run := CallIds(a.calls);
        case ToolResult(t) =>
          if t.callId !in run {
            stripped := stripped + [t.callId];
            keep := false;
          }
        case _ => run := {};
      }
      if keep {
        kept := kept + [items[i]];
      }
    }
  }

  // ----- Removing duplicates -----

  /** A later result in the run has the same id. */
  predicate Superseded(run: Results, k: nat)
    requires k < |run|
  {
    run[k].result.callId in ResultIds(run[k + 1..])
  }

  /** Marks the earlier of two equal ids. */
  method MarkEarlier(run: Results) returns (toRemove: set<nat>)
    ensures forall k :: 0 <= k < |run| ==> (k in toRemove <==> Superseded(run, k))
  {
    var seen: map<string, nat> := map[];
    toRemove := {};
    for idx := 0 to |run|
      invariant forall id :: id in seen ==> seen[id] < idx && run[seen[id]].result.callId == id
                                            && forall k :: seen[id] < k < idx ==> run[k].result.callId != id
      invariant forall k :: 0 <= k < idx ==> run[k].result.callId in seen
      invariant forall k :: k in toRemove <==> 0 <= k < idx && seen[run[k].result.callId] != k
    {
      var id := run[idx].result.callId;
      if id in seen {
        toRemove := toRemove + {seen[id]};
      }
      seen := seen[id := idx];
    }
    forall k | 0 <= k < |run| ensures k in toRemove <==> Superseded(run, k) {
      LaterId(run, k, seen);
    }
  }

  /** Removes the marked results from the back, so that earlier positions stay valid. */
  method RemoveMarked(run: Results, toRemove: set<nat>) returns (kept: Results)
    requires forall k :: 0 <= k < |run| ==> (k in toRemove <==> Superseded(run, k))
    ensures kept == KeepLast(run)
  {
    hide KeepLast, Superseded;
    kept := run;
    assert run[|run|..] == [] && run[..|run|] == run;
    NothingKept();
    for k := |run| downto 0
      invariant kept == run[..k] + KeepLast(run[k..])
    {
      KeepLastStep(run, k);
      assert kept[..k] == run[..k] && kept[k + 1..] == KeepLast(run[k + 1..]);
      if k in toRemove {
        kept := kept[..k] + kept[k + 1..];
      } else {
        assert kept == run[..k] + ([run[k]] + KeepLast(run[k + 1..]));
      }
    }
  }

  lemma NothingKept()
    ensures KeepLast([]) == []
  {
  }

  lemma KeepLastStep(run: Results, k: nat)
    requires k < |run|
    ensures KeepLast(run[k..]) == (if Superseded(run, k) then [] else [run[k]]) + KeepLast(run[k + 1..])
  {
    assert run[k..][1..] == run[k + 1..];
  }

  lemma LaterId(run: Results, k: nat, seen: map<string, nat>)
    requires k < |run| && run[k].result.callId in seen
    requires var id := run[k].result.callId;
      k <= seen[id] < |run| && run[seen[id]].result.callId == id && forall j :: seen[id] < j < |run| ==> run[j].result.callId != id
    ensures run[k].result.callId in ResultIds(run[k + 1..]) <==> seen[run[k].result.callId] != k
  {
    var id, rest := run[k].result.callId, run[k + 1..];
    if seen[id] != k {
      assert ResultIds(rest)[seen[id] - k - 1] == id;
    }
  }

  lemma {:induction false} KeepLastIds(run: Results)
    ensures forall id :: id in ResultIds(KeepLast(run)) <==> id in ResultIds(run)
  {
    if run != [] {
      var rest: Results := run[1..];
      KeepLastIds(rest);
      var id := run[0].result.callId;
      assert ResultIds(run) == [id] + ResultIds(rest);
      assert ResultIds([run[0]] + KeepLast(rest)) == [id] + ResultIds(KeepLast(rest));
    }
  }

  lemma {:induction false} KeepLastShrinks(run: Results)
    ensures |KeepLast(run)| <= |run| && (|KeepLast(run)| == |run| ==> KeepLast(run) == run)
  {
    if run != [] {
      KeepLastShrinks(run[1..]);
      assert run == [run[0]] + run[1..];
    }
  }

  lemma {:induction false} KeepLastIdempotent(run: Results)
    ensures KeepLast(KeepLast(run)) == KeepLast(run)
  {
    if run != [] {
      var rest: Results := run[1..];
      KeepLastIdempotent(rest);
      KeepLastIds(rest);
      assert ([run[0]] + KeepLast(rest))[1..] == KeepLast(rest);
    }
  }

  lemma DedupBlock(items: Items, i: nat, end: nat)
    requires i < end <= |items| && Calls(items[i]) && end == i + 1 + RunLen(items[i + 1..])
    requires AllResults(items[i + 1..end])
    ensures Dedup(items[i..]) == [items[i]] + KeepLast(items[i + 1..end]) + Dedup(items[end..])
  {
    var rest, n := items[i..], RunLen(items[i + 1..]);
    assert rest[1..] == items[i + 1..];
    assert items[i + 1..][..n] == items[i + 1..end] && items[i + 1..][n..] == items[end..];
  }

  lemma DedupPlain(items: Items, i: nat)
    requires i < |items| && !Calls(items[i])
    ensures Dedup(items[i..]) == [items[i]] + Dedup(items[i + 1..])
  {
    assert items[i..][1..] == items[i + 1..];
  }

  lemma DedupNone()
    ensures Dedup([]) == []
  {
  }

  lemma {:induction false} RunLenOf(run: Results, rest: Items)
    requires rest == [] || !rest[0].ToolResult?
    ensures RunLen(run + rest) == |run|
  {
    if run == [] {
      assert run + rest == rest;
    } else {
      assert (run + rest)[1..] == run[1..] + rest;
      RunLenOf(run[1..], rest);
    }
  }

  /** Scanning the shortened run again finds nothing new. */
  lemma DedupRescan(items: Items, i: nat, end: nat)
    requires i < end <= |items| && Calls(items[i]) && end == i + 1 + RunLen(items[i + 1..])
    requires AllResults(items[i + 1..end])
    ensures var kept := KeepLast(items[i + 1..end]);
      Dedup((items[..i + 1] + kept + items[end..])[i..]) == Dedup(items[i..])
  {
    var run: Results := items[i + 1..end];
    var kept, tail := KeepLast(run), items[end..];
    var next := items[..i + 1] + kept + tail;
    assert next[i] == items[i] && next[i + 1..] == kept + tail;
    assert end < |items| ==> items[end] == items[i + 1..][RunLen(items[i + 1..])];
    RunLenOf(kept, tail);
    KeepLastIdempotent(run);
    DedupBlock(items, i, end);
    assert next[i + 1..i + 1 + |kept|] == kept && next[i + 1 + |kept|..] == tail;
    DedupBlock(next, i, i + 1 + |kept|);
  }

  lemma {:induction false} AnswerGrows(items: Items)
    ensures |Answer(items)| >= |items|
    decreases |items|
  {
    if items != [] {
      if Calls(items[0]) {
        AnswerGrows(items[1..][RunLen(items[1..])..]);
      } else {
        AnswerGrows(items[1..]);
      }
    }
  }

  /** Every item is kept or its id is reported. */
  lemma {:induction false} StripConserves(items: Items, run: set<string>)
    ensures |Strip(items, run)| + |StrippedIds(items, run)| == |items|
  {
    if items != [] {
      StripConserves(items[1..], OpenAfter(run, items[0]));
    }
  }

  // ----- Splicing in synthetic results -----

  type Repairs = seq<(nat, Items)>

  predicate Sites(repairs: Repairs, n: nat) {
    forall i, j :: 0 <= i <= j < |repairs| ==> repairs[i].0 <= repairs[j].0 <= n
  }

  /** All repairs inserted at the positions they were recorded for. */
  function Spliced(items: Items, repairs: Repairs): Items
    requires Sites(repairs, |items|)
    decreases |repairs|
  {
    if repairs == [] then items else
      var (at, synthetic) := repairs[|repairs| - 1];
      Spliced(items[..at], repairs[..|repairs| - 1]) + synthetic + items[at..]
  }

  lemma SplicedExtend(items: Items, i: nat, j: nat, repairs: Repairs)
    requires i <= j <= |items| && Sites(repairs, i)
    ensures Spliced(items[..j], repairs) == Spliced(items[..i], repairs) + items[i..j]
  {
    if repairs == [] {
      assert items[..j] == items[..i] + items[i..j];
    } else {
      var (at, synthetic) := repairs[|repairs| - 1];
      assert items[..j][..at] == items[..at] == items[..i][..at];
      assert items[..j][at..] == items[..i][at..] + items[i..j];
    }
  }

  lemma SplicedSnoc(items: Items, repairs: Repairs, synthetic: Items)
    requires Sites(repairs, |items|)
    ensures Spliced(items, repairs + [(|items|, synthetic)]) == Spliced(items, repairs) + synthetic
  {
    var more := repairs + [(|items|, synthetic)];
    assert more[..|more| - 1] == repairs && items[..|items|] == items && items[|items|..] == [];
  }

  function SyntheticAt(items: Items, i: nat, end: nat): Results
    requires i < end <= |items| && Calls(items[i]) && AllResults(items[i + 1..end])
  {
    Synthetic(items[i].assistant.calls, ResultIds(items[i + 1..end]))
  }

  lemma AnswerBlock(items: Items, i: nat, end: nat)
    requires i < end <= |items| && Calls(items[i]) && end == i + 1 + RunLen(items[i + 1..])
    requires AllResults(items[i + 1..end])
    ensures Answer(items[i..]) == items[i..end] + SyntheticAt(items, i, end) + Answer(items[end..])
  {
    hide Answer, RunLen, Calls;
    var rest, n := items[i..], RunLen(items[i + 1..]);
    assert rest[1..] == items[i + 1..];
    assert items[i + 1..][..n] == items[i + 1..end] && items[i + 1..][n..] == items[end..];
    assert items[i..end] == [items[i]] + items[i + 1..end];
    AnswerUnfold(rest, items[i + 1..end], items[end..]);
    Regroup([items[i]], items[i + 1..end], SyntheticAt(items, i, end));
  }

  lemma AnswerUnfold(items: Items, run: Results, rest: Items)
    requires items != [] && Calls(items[0])
    requires run == items[1..][..RunLen(items[1..])] && rest == items[1..][RunLen(items[1..])..]
    ensures Answer(items) == [items[0]] + (run + Synthetic(items[0].assistant.calls, ResultIds(run))) + Answer(rest)
  {
  }

  lemma AnswerPlain(items: Items, i: nat)
    requires i < |items| && !Calls(items[i])
    ensures Answer(items[i..]) == items[i..i + 1] + Answer(items[i + 1..])
  {
    assert items[i..][1..] == items[i + 1..];
  }

  lemma Regroup<T>(a: seq<T>, b: seq<T>, c: seq<T>)
    ensures a + (b + c) == (a + b) + c
  {
  }

  /** Records where each message's missing results go. */
  method FindDangling(items: Items) returns (repairs: Repairs)
    ensures Sites(repairs, |items|) && Spliced(items, repairs) == Answer(items)
  {
    hide Spliced, Answer, RunLen, Synthetic, Calls;
    repairs := [];
    var i := 0;
    assert items[0..] == items;
    SplicedNone(items[..0]);
    while i < |items|
      invariant 0 <= i <= |items| && Sites(repairs, i)
      invariant Answer(items) == Spliced(items[..i], repairs) + Answer(items[i..])
    {
      if Calls(items[i]) {
        var j := RunEnd(items, i + 1);
        var synthetic := SyntheticAt(items, i, j);
        AnswerBlock(items, i, j);
        SplicedExtend(items, i, j, repairs);
        Regroup(Spliced(items[..i], repairs), items[i..j] + synthetic, Answer(items[j..]));
        Regroup(Spliced(items[..i], repairs), items[i..j], synthetic);
        if synthetic != [] {
          SplicedSnoc(items[..j], repairs, synthetic);
          repairs := repairs + [(j, synthetic)];
        }
        i := j;
      } else {
        AnswerPlain(items, i);
        SplicedExtend(items, i, i + 1, repairs);
        Regroup(Spliced(items[..i], repairs), items[i..i + 1], Answer(items[i + 1..]));
        i := i + 1;
      }
    }
    assert items[..i] == items && items[i..] == [];
    AnswerNone();
  }

  lemma AnswerNone()
    ensures Answer([]) == []
  {
  }

  lemma SplicedNone(items: Items)
    ensures Spliced(items, []) == items
  {
  }

  method RunEnd(items: Items, start: nat) returns (end: nat)
    requires start <= |items|
    ensures end == start + RunLen(items[start..]) <= |items| && AllResults(items[start..end])
  {
    end := start;
    while end < |items| && items[end].ToolResult?
      invariant start <= end <= |items|
      invariant RunLen(items[start..]) == end - start + RunLen(items[end..])
    {
      assert items[end..][1..] == items[end + 1..];
      end := end + 1;
    }
    assert items[start..end] == items[start..][..end - start];
  }

  lemma SpliceStep(items: Items, bound: nat, repairs: Repairs, k: nat, tail: Items)
    requires bound <= |items| && k < |repairs| && Sites(repairs[..k + 1], bound)
    ensures var (at, synthetic) := repairs[k];
      && at <= bound && Sites(repairs[..k], at)
      && (items[..bound] + tail)[..at] == items[..at]
      && (items[..bound] + tail)[at..] == items[at..bound] + tail
      && Spliced(items[..bound], repairs[..k + 1]) == Spliced(items[..at], repairs[..k]) + synthetic + items[at..bound]
  {
    var some := repairs[..k + 1];
    var (at, synthetic) := some[k];
    assert some[..k] == repairs[..k];
    assert items[..bound][..at] == items[..at] && items[..bound][at..] == items[at..bound];
  }

  /** Inserts from the back, so that earlier positions stay valid. */
  method SpliceAll(items: Items, repairs: Repairs) returns (spliced: Items)
    requires Sites(repairs, |items|)
    ensures spliced == Spliced(items, repairs)
  {
    hide Spliced;
    spliced := items;
    ghost var bound, tail := |items|, [];
    assert items[..bound] == items && repairs[..|repairs|] == repairs;
    for k := |repairs| downto 0
      invariant bound <= |items| && Sites(repairs[..k], bound)
      invariant spliced == items[..bound] + tail
      invariant Spliced(items, repairs) == Spliced(items[..bound], repairs[..k]) + tail
    {
      var (at, synthetic) := repairs[k];
      SpliceStep(items, bound, repairs, k, tail);
      var front, back := spliced[..at], spliced[at..];
      spliced := front + synthetic + back;
      ghost var mid := items[at..bound];
      Regroup(front + synthetic, mid, tail);
      Regroup(front, synthetic + mid, tail);
      Regroup(Spliced(items[..at], repairs[..k]), synthetic + mid, tail);
      tail := synthetic + mid + tail;
      bound := at;
    }
    SplicedNone(items[..bound]);
  }

  // ----- The passes, on a history updated in place -----

  class History {
    var items: Items

    constructor (items: Items)
      ensures this.items == items
    {
      this.items := items;
    }

    method StripDisplacedToolResults() returns (stripped: seq<string>)
      modifies this
      ensures items == Strip(old(items), {})
      ensures stripped == StrippedIds(old(items), {})
    {
      items, stripped := RetainPaired(items);
    }

    method DedupDuplicateToolResults() returns (removed: nat)
      modifies this
      ensures items == Dedup(old(items))
      ensures removed == |old(items)| - |items|
    {
      hide Dedup, KeepLast, RunLen, Calls;
      removed := 0;
      var i := 0;
      assert items[0..] == items;
      while i < |items|
        invariant 0 <= i <= |items|
        invariant Dedup(old(items)) == items[..i] + Dedup(items[i..])
        invariant removed == |old(items)| - |items|
        decreases |items| - i
      {
        if Calls(items[i]) {
          var end := RunEnd(items, i + 1);
          var run: Results := items[i + 1..end];
          var marked := MarkEarlier(run);
          var kept := RemoveMarked(run, marked);
          KeepLastShrinks(run);
          if kept != run {
            removed := removed + (|run| - |kept|);
            DedupRescan(items, i, end);
            var next := items[..i + 1] + kept + items[end..];
            assert next[..i] == items[..i];
            items := next;
          } else {
            DedupBlock(items, i, end);
            assert items[..end] == items[..i] + ([items[i]] + run);
            Regroup(items[..i], [items[i]] + run, Dedup(items[end..]));
            i := end;
          }
        } else {
          DedupPlain(items, i);
          assert items[..i + 1] == items[..i] + [items[i]];
          Regroup(items[..i], [items[i]], Dedup(items[i + 1..]));
          i := i + 1;
        }
      }
      assert items[..i] == items && items[i..] == [];
      DedupNone();
    }

    method RepairDanglingToolCalls() returns (inserted: nat)
      modifies this
      ensures items == Answer(old(items))
      ensures inserted == |items| - |old(items)|
    {
      var before := |items|;
      var repairs := FindDangling(items);
      items := SpliceAll(items, repairs);
      AnswerGrows(old(items));
      inserted := |items| - before;
    }

    method RepairHistory() returns (removed: nat, stripped: seq<string>, inserted: nat)
      modifies this
      ensures items == Repaired(old(items))
      ensures stripped == StrippedIds(Dedup(old(items)), {})
      ensures |items| == |old(items)| - removed - |stripped| + inserted
    {
      removed := DedupDuplicateToolResults();
      StripConserves(items, {});
      stripped := StripDisplacedToolResults();
      inserted := RepairDanglingToolCalls();
    }
  }
}
