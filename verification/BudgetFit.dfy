/** Shrinking a conversation to a token budget before it is summarized. */
module BudgetFit {
  import opened Text
  import opened Decimals
  import opened Conversation

  const USIZE_MAX := 0xFFFF_FFFF_FFFF_FFFF
  const MARKER_RESERVE := 64

  /** The token estimate of one item; nothing is assumed about it. */
  type Cost = Item -> nat

  function Total(cost: Cost, items: Items): nat {
    if items == [] then 0 else cost(items[0]) + Total(cost, items[1..])
  }

  function Minus(a: nat, b: nat): nat {
    if a < b then 0 else a - b
  }

  function TimesFour(n: nat): nat {
    if n * 4 <= USIZE_MAX then n * 4 else USIZE_MAX
  }

  // ----- Truncating one text -----

  /** The number of characters before byte offset `b`, if a character starts or the
      text ends there. */
  function Boundary(s: string, b: nat): (r: Option<nat>)
    ensures r.Some? ==> r.value <= |s| && Utf8Len(s[..r.value]) == b
    ensures r.None? ==> forall k :: 0 <= k <= |s| ==> Utf8Len(s[..k]) != b
  {
    if Utf8Len(s) == b then
      assert s[..|s|] == s;
      Some(|s|)
    else if s == "" then None
    else
      var front := s[..|s| - 1];
      var r := Boundary(front, b);
      assert forall k :: 0 <= k <= |front| ==> front[..k] == s[..k];
      assert s[..|s|] == s;
      r
  }

  function Marker(dropped: nat): string {
    "\n[... truncated " + Decimal(dropped) + " bytes to fit the compaction" + " window ...]"
  }

  /** `k` characters are the most that fit `keep` bytes. */
  ghost predicate LongestPrefix(s: string, k: nat, keep: nat) {
    && k <= |s| && Utf8Len(s[..k]) <= keep
    && forall j :: k < j <= |s| ==> keep < Utf8Len(s[..j])
  }

  /** Bytes behind the first `k` characters. */
  function Dropped(s: string, k: nat): nat
    requires k <= |s|
  {
    Utf8LenPrefix(s[..k], s);
    Utf8Len(s) - Utf8Len(s[..k])
  }

  /** What a text cut after `k` characters reads. */
  function Cut(s: string, k: nat): string
    requires k <= |s|
  {
    s[..k] + Marker(Dropped(s, k))
  }

  /** Longer prefixes take more bytes. */
  lemma PrefixesGrow(s: string)
    ensures forall i, j :: 0 <= i < j <= |s| ==> Utf8Len(s[..i]) < Utf8Len(s[..j])
    ensures forall j :: 0 <= j <= |s| ==> Utf8Len(s[..j]) <= Utf8Len(s)
  {
    forall i, j | 0 <= i < j <= |s| ensures Utf8Len(s[..i]) < Utf8Len(s[..j]) {
      Utf8LenPrefix(s[..i], s[..j]);
    }
    forall j | 0 <= j <= |s| ensures Utf8Len(s[..j]) <= Utf8Len(s) {
      Utf8LenPrefix(s[..j], s);
    }
  }

  function Longest(s: string, keep: nat): (k: nat)
    ensures LongestPrefix(s, k, keep)
  {
    assert s[..|s|] == s;
    if Utf8Len(s) <= keep then |s| else
      assert s != "";
      var front := s[..|s| - 1];
      var k := Longest(front, keep);
      assert forall j :: 0 <= j <= |front| ==> front[..j] == s[..j];
      k
  }

  /** `None` when the text already fits. */
  function TruncatedText(s: string, maxBytes: nat): Option<string> {
    if Utf8Len(s) <= maxBytes then None else Some(Cut(s, Longest(s, Minus(maxBytes, MARKER_RESERVE))))
  }

  /** Walks a byte offset back to a character boundary. */
  method TruncateTextToBytes(s: string, maxBytes: nat) returns (r: Option<string>)
    ensures r == TruncatedText(s, maxBytes)
  {
    if Utf8Len(s) <= maxBytes {
      return None;
    }
    var keep := Minus(maxBytes, MARKER_RESERVE);
    var end := if keep <= Utf8Len(s) then keep else Utf8Len(s);
    PrefixesGrow(s);
    assert s[..0] == "" && s[..|s|] == s;
    while end > 0 && Boundary(s, end).None?
      invariant forall j :: 0 <= j <= |s| ==> Utf8Len(s[..j]) <= end || keep < Utf8Len(s[..j])
      invariant end <= keep
    {
      end := end - 1;
    }
    var k := Boundary(s, end).GetOr(0);
    assert Utf8Len(s[..k]) == end;
    assert LongestPrefix(s, k, keep);
    r := Some(Cut(s, k));
  }

  // ----- Truncating one item -----

  function ShortText(s: string, maxBytes: nat): string {
    TruncatedText(s, maxBytes).GetOr(s)
  }

  function ShortParts(parts: seq<Part>, maxBytes: nat): (r: seq<Part>)
    ensures |r| == |parts|
    ensures forall i :: 0 <= i < |r| ==>
      r[i] == if parts[i].TextPart? then TextPart(ShortText(parts[i].text, maxBytes)) else parts[i]
  {
    seq(|parts|, i requires 0 <= i < |parts| =>
      if parts[i].TextPart? then TextPart(ShortText(parts[i].text, maxBytes)) else parts[i])
  }

  function ShortItem(item: Item, maxTokens: nat): Item {
    var maxBytes := TimesFour(maxTokens);
    match item
    case ToolResult(t) => ToolResult(t.(content := ShortText(t.content, maxBytes)))
    case Assistant(a) => Assistant(a.(content := ShortText(a.content, maxBytes)))
    case User(u) => User(u.(parts := ShortParts(u.parts, maxBytes)))
    case _ => item
  }

  method TruncateItemToTokens(item: Item, maxTokens: nat) returns (r: Item)
    ensures r == ShortItem(item, maxTokens)
  {
    var maxBytes := TimesFour(maxTokens);
    match item {
      case ToolResult(t) =>
        var s := TruncateTextToBytes(t.content, maxBytes);
        r := ToolResult(t.(content := s.GetOr(t.content)));
      case Assistant(a) =>
        var s := TruncateTextToBytes(a.content, maxBytes);
        r := Assistant(a.(content := s.GetOr(a.content)));
      case User(u) =>
        var parts := u.parts;
        for i := 0 to |parts|
          invariant |parts| == |u.parts|
          invariant parts[..i] == ShortParts(u.parts, maxBytes)[..i] && parts[i..] == u.parts[i..]
        {
          if parts[i].TextPart? {
            assert parts[i] == u.parts[i] by { assert parts[i..][0] == u.parts[i..][0]; }
            var s := TruncateTextToBytes(parts[i].text, maxBytes);
            parts := parts[i := TextPart(s.GetOr(parts[i].text))];
          }
        }
        assert parts[..|parts|] == parts;
        r := User(u.(parts := parts));
      case _ => r := item;
    }
  }

  // ----- Recovering the last turn -----

  function TrailLen(items: Items): (n: nat)
    ensures n <= |items|
  {
    if items != [] && items[|items| - 1].ToolResult? then TrailLen(items[..|items| - 1]) + 1 else 0
  }

  function ShortItems(items: Items, maxTokens: nat): (r: Items)
    ensures |r| == |items| && forall i :: 0 <= i < |r| ==> r[i] == ShortItem(items[i], maxTokens)
  {
    seq(|items|, i requires 0 <= i < |items| => ShortItem(items[i], maxTokens))
  }

  predicate OwnsCalls(item: Item) {
    item.Assistant? && item.assistant.calls != []
  }

  /** What each of `n` trailing results may cost after their owner is paid for. */
  function Share(cost: Cost, front: Items, n: nat, budget: nat): nat
    requires n > 0
  {
    var ownerCost := if front != [] && OwnsCalls(front[|front| - 1]) then cost(front[|front| - 1]) else 0;
    var share := Minus(budget, ownerCost) / n;
    if share < 1 then 1 else share
  }

  /** The history without its trailing results, and those results. */
  function TrailFront(items: Items): Items {
    items[..|items| - TrailLen(items)]
  }

  function TrailResults(items: Items): Items {
    items[|items| - TrailLen(items)..]
  }

  lemma {:induction false} TrailSplit(items: Items)
    ensures items == TrailFront(items) + TrailResults(items) && AllResults(TrailResults(items))
    ensures TrailFront(items) != [] ==> !TrailFront(items)[|TrailFront(items)| - 1].ToolResult?
  {
    if items != [] && items[|items| - 1].ToolResult? {
      hide AllResults;
      var front, last := items[..|items| - 1], items[|items| - 1];
      TrailSplit(front);
      assert TrailFront(items) == TrailFront(front);
      assert TrailResults(items) == TrailResults(front) + [last];
      ResultsSnoc(TrailResults(front), last);
    } else {
      assert TrailFront(items) == items && TrailResults(items) == [];
    }
  }

  lemma ResultsSnoc(results: Items, last: Item)
    requires AllResults(results) && last.ToolResult?
    ensures AllResults(results + [last])
  {
  }

  function Owner(front: Items): Items {
    if front != [] && OwnsCalls(front[|front| - 1]) then [front[|front| - 1]] else []
  }

  /** The results with the message that called for them, each result cut to an equal
      share of what the message leaves of the budget; without results, the last item. */
  function Unit(cost: Cost, front: Items, results: Items, budget: nat): Items {
    if results != [] then Owner(front) + ShortItems(results, Share(cost, front, |results|, budget))
    else if front == [] then []
    else [ShortItem(front[|front| - 1], budget)]
  }

  function TailUnit(cost: Cost, body: Items, budget: nat): Items {
    Unit(cost, TrailFront(body), TrailResults(body), budget)
  }

  /** Pops the trailing results off the history. */
  method PopResults(items: Items) returns (body: Items, results: Items)
    ensures body == TrailFront(items) && results == TrailResults(items)
  {
    hide AllResults;
    body, results := items, [];
    while body != [] && body[|body| - 1].ToolResult?
      invariant items == body + results
      invariant TrailLen(items) == TrailLen(body) + |results|
    {
      var last := body[|body| - 1];
      TrailStep(body);
      body := body[..|body| - 1];
      assert items == body + ([last] + results);
      results := [last] + results;
    }
    TrailNone(body);
    assert items[|body|..] == results && items[..|body|] == body;
  }

  lemma TrailStep(items: Items)
    requires items != [] && items[|items| - 1].ToolResult?
    ensures TrailLen(items) == TrailLen(items[..|items| - 1]) + 1
    ensures items == items[..|items| - 1] + [items[|items| - 1]]
  {
    hide AllResults;
  }

  lemma TrailNone(items: Items)
    requires items == [] || !items[|items| - 1].ToolResult?
    ensures TrailLen(items) == 0
  {
  }

  method RecoverTruncatedTailUnit(cost: Cost, items: Items, budget: nat) returns (unit: Items)
    ensures unit == TailUnit(cost, items, budget)
  {
    hide ShortItem, TrailFront, TrailResults;
    var body, results := PopResults(items);
    unit := UnitOf(cost, body, results, budget);
  }

  method UnitOf(cost: Cost, body: Items, results: Items, budget: nat) returns (unit: Items)
    ensures unit == Unit(cost, body, results, budget)
  {
    hide ShortItem;
    if results == [] {
      if body == [] {
        return [];
      }
      var last := TruncateItemToTokens(body[|body| - 1], budget);
      return [last];
    }
    unit := [];
    var ownerCost := 0;
    if body != [] && OwnsCalls(body[|body| - 1]) {
      unit := [body[|body| - 1]];
      ownerCost := cost(body[|body| - 1]);
    }
    var share := Minus(budget, ownerCost) / |results|;
    var per := if share < 1 then 1 else share;
    ghost var owner := unit;
    for i := 0 to |results|
      invariant unit == owner + ShortItems(results, per)[..i]
    {
      var short := TruncateItemToTokens(results[i], per);
      unit := unit + [short];
    }
    assert ShortItems(results, per)[..|results|] == ShortItems(results, per);
  }

  // ----- Fitting -----

  /** Where the longest suffix costing at most `budget` starts, walking back from the
      end and stopping at the first item that does not fit. */
  function FitStart(cost: Cost, body: Items, end: nat, remaining: nat): (start: nat)
    requires end <= |body|
    ensures start <= end
  {
    if end == 0 || cost(body[end - 1]) > remaining then end
    else FitStart(cost, body, end - 1, remaining - cost(body[end - 1]))
  }

  function LeadLen(items: Items): (n: nat)
    ensures n <= |items| && AllResults(items[..n]) && (n < |items| ==> !items[n].ToolResult?)
  {
    if items != [] && items[0].ToolResult? then
      assert items[..1 + LeadLen(items[1..])] == [items[0]] + items[1..][..LeadLen(items[1..])];
      1 + LeadLen(items[1..])
    else 0
  }

  function HeadLen(items: Items): nat {
    if items != [] && items[0].System? then 1 else 0
  }

  function BodyBudget(cost: Cost, items: Items, maxTokens: nat): nat {
    Minus(maxTokens, Total(cost, items[..HeadLen(items)]))
  }

  function KeptStart(cost: Cost, body: Items, budget: nat): (start: nat)
    ensures start <= |body|
  {
    var start := FitStart(cost, body, |body|, budget);
    start + LeadLen(body[start..])
  }

  function Fitted(cost: Cost, items: Items, maxTokens: nat): Items {
    if Total(cost, items) <= maxTokens then items else
      var head, body := items[..HeadLen(items)], items[HeadLen(items)..];
      var budget := BodyBudget(cost, items, maxTokens);
      var start := KeptStart(cost, body, budget);
      head + if start < |body| then body[start..] else TailUnit(cost, body, budget)
  }

  method FindFit(cost: Cost, body: Items, budget: nat) returns (start: nat)
    ensures start == FitStart(cost, body, |body|, budget)
  {
    var remaining := budget;
    start := |body|;
    var i := |body|;
    while i > 0
      invariant 0 <= i == start <= |body| && 0 <= remaining
      invariant FitStart(cost, body, |body|, budget) == FitStart(cost, body, i, remaining)
    {
      i := i - 1;
      var price := cost(body[i]);
      if price > remaining {
        break;
      }
      remaining := remaining - price;
      start := i;
    }
  }

  method SkipResults(body: Items, fit: nat) returns (start: nat)
    requires fit <= |body|
    ensures start == fit + LeadLen(body[fit..])
  {
    start := fit;
    while start < |body| && body[start].ToolResult?
      invariant fit <= start <= |body|
      invariant fit + LeadLen(body[fit..]) == start + LeadLen(body[start..])
    {
      assert body[start..][1..] == body[start + 1..];
      start := start + 1;
    }
  }

  method FitConversationToBudget(cost: Cost, items: Items, maxTokens: nat) returns (r: Items)
    ensures r == Fitted(cost, items, maxTokens)
  {
    hide TailUnit, FitStart, LeadLen, Total, AllResults;
    if Total(cost, items) <= maxTokens {
      return items;
    }
    var head, body := [], items;
    if body != [] && body[0].System? {
      head, body := [body[0]], body[1..];
    }
    assert head == items[..HeadLen(items)] && body == items[HeadLen(items)..];
    var budget := Minus(maxTokens, Total(cost, head));
    var start := FindFit(cost, body, budget);
    start := SkipResults(body, start);
    if start < |body| {
      r := head + body[start..];
    } else {
      var unit := RecoverTruncatedTailUnit(cost, body, budget);
      r := head + unit;
    }
  }
}
