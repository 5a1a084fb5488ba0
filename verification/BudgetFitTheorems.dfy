/** What fitting a conversation to a budget guarantees. */
module BudgetFitTheorems {
  import opened Text
  import opened Decimals
  import opened Conversation
  import opened BudgetFit

  // ----- The kept suffix -----

  lemma {:induction false} TotalConcat(cost: Cost, a: Items, b: Items)
    ensures Total(cost, a + b) == Total(cost, a) + Total(cost, b)
  {
    if a == [] {
      assert a + b == b;
    } else {
      assert (a + b)[1..] == a[1..] + b;
      TotalConcat(cost, a[1..], b);
    }
  }

  lemma SliceTotal(cost: Cost, items: Items, i: nat, j: nat)
    requires i <= j <= |items|
    ensures Total(cost, items[i..]) == Total(cost, items[i..j]) + Total(cost, items[j..])
  {
    assert items[i..] == items[i..j] + items[j..];
    TotalConcat(cost, items[i..j], items[j..]);
  }

  lemma {:induction false} FitStartFits(cost: Cost, body: Items, end: nat, remaining: nat)
    requires end <= |body|
    ensures Total(cost, body[FitStart(cost, body, end, remaining)..end]) <= remaining
  {
    if end == 0 || cost(body[end - 1]) > remaining {
      assert body[end..end] == [];
    } else {
      FitStartFits(cost, body, end - 1, remaining - cost(body[end - 1]));
      LastCosts(cost, body, FitStart(cost, body, end, remaining), end);
    }
  }

  /** The backwards walk finds the longest suffix that fits, not only a suffix that
      fits: every longer one costs more than the budget. */
  lemma {:induction false} FitStartIsLongest(cost: Cost, body: Items, end: nat, remaining: nat, i: nat)
    requires end <= |body| && i < FitStart(cost, body, end, remaining)
    ensures Total(cost, body[i..end]) > remaining
  {
    LastCosts(cost, body, i, end);
    if cost(body[end - 1]) <= remaining {
      FitStartIsLongest(cost, body, end - 1, remaining - cost(body[end - 1]), i);
    }
  }

  lemma LastCosts(cost: Cost, body: Items, i: nat, end: nat)
    requires i < end <= |body|
    ensures Total(cost, body[i..end]) == Total(cost, body[i..end - 1]) + cost(body[end - 1])
  {
    assert body[i..end] == body[i..end - 1] + [body[end - 1]];
    TotalConcat(cost, body[i..end - 1], [body[end - 1]]);
    assert [body[end - 1]][1..] == [];
  }

  lemma TotalGrows(cost: Cost, items: Items, i: nat, j: nat)
    requires i <= j <= |items|
    ensures Total(cost, items[j..]) <= Total(cost, items[i..])
  {
    SliceTotal(cost, items, i, j);
  }

  /** The history `Fitted` keeps when it drops whole turns: from the first item past
      `fit` that is not a tool result, where `fit` opens the longest suffix within
      the budget. */
  ghost predicate LongestSuffix(cost: Cost, body: Items, budget: nat, fit: nat, start: nat) {
    && fit <= start <= |body|
    && Total(cost, body[fit..]) <= budget
    && (forall i :: 0 <= i < fit ==> Total(cost, body[i..]) > budget)
    && AllResults(body[fit..start])
    && (start < |body| ==> !body[start].ToolResult?)
  }

  lemma KeptStartIsLongest(cost: Cost, body: Items, budget: nat) returns (fit: nat)
    ensures LongestSuffix(cost, body, budget, fit, KeptStart(cost, body, budget))
  {
    hide Total, AllResults;
    fit := FitStart(cost, body, |body|, budget);
    FitStartFits(cost, body, |body|, budget);
    forall i | 0 <= i < fit ensures Total(cost, body[i..|body|]) > budget {
      FitStartIsLongest(cost, body, |body|, budget, i);
    }
    assert forall i :: 0 <= i <= |body| ==> body[i..|body|] == body[i..];
    var lead := LeadLen(body[fit..]);
    assert body[fit..fit + lead] == body[fit..][..lead];
  }

  /** The result fits the budget whenever it keeps a whole suffix and the leading
      system item alone fits. */
  lemma FittedCosts(cost: Cost, items: Items, maxTokens: nat)
    requires Total(cost, items[..HeadLen(items)]) <= maxTokens
    requires Total(cost, items) > maxTokens
    requires var body := items[HeadLen(items)..];
      KeptStart(cost, body, BodyBudget(cost, items, maxTokens)) < |body|
    ensures Total(cost, Fitted(cost, items, maxTokens)) <= maxTokens
  {
    var head, body := items[..HeadLen(items)], items[HeadLen(items)..];
    var budget := BodyBudget(cost, items, maxTokens);
    var fit := KeptStartIsLongest(cost, body, budget);
    var start := KeptStart(cost, body, budget);
    TotalGrows(cost, body, fit, start);
    TotalConcat(cost, head, body[start..]);
  }

  /** Same item, with its texts possibly cut. */
  predicate SameUpToText(a: Item, b: Item) {
    match (a, b)
    case (ToolResult(t), ToolResult(u)) => t.callId == u.callId && t.images == u.images
    case (Assistant(x), Assistant(y)) => x.(content := "") == y.(content := "")
    case (User(u), User(v)) => u.(parts := []) == v.(parts := []) && |u.parts| == |v.parts|
    case _ => a == b
  }

  lemma ShortKeepsStructure(item: Item, maxTokens: nat)
    ensures SameUpToText(ShortItem(item, maxTokens), item)
  {
  }

  // ----- Pairing -----

  lemma SuffixPaired(items: Items, run: set<string>, start: nat)
    requires start < |items| && !items[start].ToolResult? && PairedFrom(items, run)
    ensures PairedFrom(items[start..], {})
  {
    assert items == items[..start] + items[start..];
    PairedConcat(items[..start], items[start..], run);
  }

  lemma HeadPaired(items: Items, rest: Items)
    requires PairedFrom(items, {})
    ensures PairedFrom(items[..HeadLen(items)] + rest, {}) <==> PairedFrom(rest, {})
  {
    var head := items[..HeadLen(items)];
    PairedConcat(head, rest, {});
    if head != [] {
      assert head[1..] == [];
    }
  }

  lemma BodyPaired(items: Items)
    requires PairedFrom(items, {})
    ensures PairedFrom(items[HeadLen(items)..], {})
  {
    assert items == items[..HeadLen(items)] + items[HeadLen(items)..];
    HeadPaired(items, items[HeadLen(items)..]);
  }

  lemma {:induction false} ShortPaired(items: Items, maxTokens: nat, run: set<string>)
    requires AllResults(items) && PairedFrom(items, run)
    ensures PairedFrom(ShortItems(items, maxTokens), run)
  {
    if items != [] {
      var short := ShortItems(items, maxTokens);
      assert short[1..] == ShortItems(items[1..], maxTokens);
      ShortPaired(items[1..], maxTokens, run);
    }
  }

  lemma {:induction false} ResultsLeaveOpen(items: Items, run: set<string>)
    requires AllResults(items)
    ensures OpenAfterAll(items, run) == run
  {
    if items != [] {
      ResultsLeaveOpen(items[1..], run);
    }
  }

  /** What is open after a history that does not end in a result. */
  lemma OpenLast(front: Items)
    requires front != [] ==> !front[|front| - 1].ToolResult?
    ensures OpenAfterAll(front, {}) == if front == [] then {} else OpenAfter({}, front[|front| - 1])
  {
    if front != [] {
      var last := front[|front| - 1];
      assert front == front[..|front| - 1] + [last];
      OpenSnoc(front[..|front| - 1], last, {});
    }
  }

  /** Trailing results of a paired history have their owner right before them. */
  lemma TrailOwner(front: Items, results: Items)
    requires PairedFrom(front + results, {}) && results != [] && AllResults(results)
    requires front != [] ==> !front[|front| - 1].ToolResult?
    ensures front != [] && OwnsCalls(front[|front| - 1])
      && PairedFrom(results, CallIds(front[|front| - 1].assistant.calls))
  {
    PairedConcat(front, results, {});
    OpenLast(front);
    assert results[0].ToolResult? && results[0].result.callId in OpenAfterAll(front, {});
  }

  lemma ConsPaired(item: Item, rest: Items)
    requires !item.ToolResult?
    ensures PairedFrom([item] + rest, {}) <==> PairedFrom(rest, OpenAfter({}, item))
  {
    assert ([item] + rest)[1..] == rest;
  }

  lemma TailUnitPaired(cost: Cost, body: Items, budget: nat)
    requires PairedFrom(body, {})
    ensures PairedFrom(TailUnit(cost, body, budget), {})
  {
    hide TrailFront, TrailResults, PairedFrom, Unit, AllResults;
    TrailSplit(body);
    UnitPaired(cost, TrailFront(body), TrailResults(body), budget);
  }

  lemma UnitPaired(cost: Cost, front: Items, results: Items, budget: nat)
    requires PairedFrom(front + results, {}) && AllResults(results)
    requires front != [] ==> !front[|front| - 1].ToolResult?
    ensures PairedFrom(Unit(cost, front, results, budget), {})
  {
    hide ShortItem, PairedFrom, AllResults, Share;
    NothingPaired();
    if results != [] {
      TrailOwner(front, results);
      var owner, per := front[|front| - 1], Share(cost, front, |results|, budget);
      ShortPaired(results, per, CallIds(owner.assistant.calls));
      ConsPaired(owner, ShortItems(results, per));
    } else if front != [] {
      var short := ShortItem(front[|front| - 1], budget);
      ShortKeepsStructure(front[|front| - 1], budget);
      ConsPaired(short, []);
      assert Unit(cost, front, results, budget) == [short] + [];
    }
  }

  lemma NothingPaired()
    ensures forall run :: PairedFrom([], run)
  {
  }

  /** Fitting never separates a tool result from the message that called for it. */
  lemma FittedPaired(cost: Cost, items: Items, maxTokens: nat)
    requires RunPaired(items)
    ensures RunPaired(Fitted(cost, items, maxTokens))
  {
    PairedIsRunPaired(items);
    PairedIsRunPaired(Fitted(cost, items, maxTokens));
    if Total(cost, items) > maxTokens {
      var body := items[HeadLen(items)..];
      var budget := BodyBudget(cost, items, maxTokens);
      var fit := KeptStartIsLongest(cost, body, budget);
      var start := KeptStart(cost, body, budget);
      BodyPaired(items);
      if start < |body| {
        SuffixPaired(body, {}, start);
        HeadPaired(items, body[start..]);
      } else {
        TailUnitPaired(cost, body, budget);
        HeadPaired(items, TailUnit(cost, body, budget));
      }
    }
  }

  // ----- The newest item always survives -----

  /** However small the budget, a history that is more than a system item keeps its
      last item, with at most its text cut. */
  lemma FittedKeepsLast(cost: Cost, items: Items, maxTokens: nat)
    requires HeadLen(items) < |items|
    ensures var r := Fitted(cost, items, maxTokens);
      r != [] && SameUpToText(r[|r| - 1], items[|items| - 1])
  {
    hide TailUnit, KeptStart, SameUpToText, Total;
    SameAsItself(items[|items| - 1]);
    if Total(cost, items) > maxTokens {
      var body := items[HeadLen(items)..];
      TailUnitKeepsLast(cost, body, BodyBudget(cost, items, maxTokens));
    }
  }

  lemma SameAsItself(item: Item)
    ensures SameUpToText(item, item)
  {
  }

  lemma TailUnitKeepsLast(cost: Cost, body: Items, budget: nat)
    requires body != []
    ensures var unit := TailUnit(cost, body, budget); unit != [] && SameUpToText(unit[|unit| - 1], body[|body| - 1])
  {
    hide TrailFront, TrailResults, SameUpToText, Unit, AllResults;
    TrailSplit(body);
    UnitKeepsLast(cost, TrailFront(body), TrailResults(body), budget);
  }

  lemma UnitKeepsLast(cost: Cost, front: Items, results: Items, budget: nat)
    requires front + results != []
    ensures var unit, all := Unit(cost, front, results, budget), front + results;
      unit != [] && SameUpToText(unit[|unit| - 1], all[|all| - 1])
  {
    hide ShortItem, SameUpToText, Share, Owner;
    if results != [] {
      var per := Share(cost, front, |results|, budget);
      ShortKeepsStructure(results[|results| - 1], per);
    } else {
      ShortKeepsStructure(front[|front| - 1], budget);
    }
  }

  // ----- Truncated texts -----

  lemma MarkerLen(dropped: nat)
    ensures Utf8Len(Marker(dropped)) == 56 + |Decimal(dropped)|
  {
    var lead, mid, tail := "\n[... truncated ", " bytes to fit the compaction", " window ...]";
    AsciiLen(lead);
    AsciiLen(Decimal(dropped));
    AsciiLen(mid);
    AsciiLen(tail);
    Utf8LenConcat(lead, Decimal(dropped));
    Utf8LenConcat(lead + Decimal(dropped), mid);
    Utf8LenConcat(lead + Decimal(dropped) + mid, tail);
  }

  function Max(a: nat, b: nat): nat {
    if a < b then b else a
  }

  /** A cut text is the longest whole-character prefix within the reserve, followed
      by the marker. It stays within the limit (or the 64 bytes of the reserve, when
      the limit is smaller) exactly when the digits of the dropped count beyond
      eight fit the bytes the cut left unused. */
  lemma TruncatedTextFits(s: string, maxBytes: nat)
    requires Utf8Len(s) > maxBytes
    ensures var keep := Minus(maxBytes, MARKER_RESERVE);
      var k := Longest(s, keep);
      var dropped := Dropped(s, k);
      var r := s[..k] + Marker(dropped);
      && LongestPrefix(s, k, keep) && TruncatedText(s, maxBytes) == Some(r)
      && (Utf8Len(r) <= Max(maxBytes, MARKER_RESERVE) <==> |Decimal(dropped)| <= 8 + (keep - Utf8Len(s[..k])))
      && (dropped < 100_000_000 ==> Utf8Len(r) <= Max(maxBytes, MARKER_RESERVE))
  {
    var keep := Minus(maxBytes, MARKER_RESERVE);
    var k := Longest(s, keep);
    var dropped := Dropped(s, k);
    Utf8LenConcat(s[..k], Marker(dropped));
    MarkerLen(dropped);
    DigitCount(dropped, 8);
    assert Pow10(8) == 100_000_000 by {
      assert Pow10(2) == 100 && Pow10(4) == 10_000 && Pow10(6) == 1_000_000;
    }
  }
}
