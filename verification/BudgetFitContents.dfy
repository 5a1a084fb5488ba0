/** What fitting a conversation to a budget keeps, item by item. */
module BudgetFitContents {
  import opened Text
  import opened Decimals
  import opened Conversation
  import opened BudgetFit
  import opened BudgetFitTheorems

  // ----- One item -----

  /** The text itself when it fits; otherwise its longest whole-character prefix in the limit
      less the reserve, and a marker that counts the dropped bytes. */
  ghost predicate CutTo(r: string, s: string, limit: nat) {
    if Utf8Len(s) <= limit then r == s
    else exists k: nat :: PrefixOf(r, s, k, Reserved(limit))
  }

  function Reserved(limit: nat): nat {
    if limit < 64 then 0 else limit - 64
  }

  ghost predicate PrefixOf(r: string, s: string, k: nat, keep: nat) {
    && LongestPrefix(s, k, keep)
    && r == s[..k] + "\n[... truncated " + Decimal(Utf8Len(s[k..])) + " bytes to fit the compaction window ...]"
  }

  lemma DroppedBytes(s: string, k: nat)
    requires k <= |s|
    ensures Dropped(s, k) == Utf8Len(s[k..])
  {
    hide Utf8Len;
    assert s == s[..k] + s[k..];
    Utf8LenConcat(s[..k], s[k..]);
  }

  lemma ShortTextIsCut(s: string, limit: nat)
    ensures CutTo(ShortText(s, limit), s, limit)
  {
    hide Utf8Len, Decimal;
    if Utf8Len(s) > limit {
      var k := Longest(s, Minus(limit, MARKER_RESERVE));
      DroppedBytes(s, k);
      MarkerReads(s[..k], Decimal(Utf8Len(s[k..])));
      assert PrefixOf(ShortText(s, limit), s, k, Reserved(limit));
    }
  }

  lemma MarkerReads(front: string, n: string)
    ensures front + ("\n[... truncated " + n + " bytes to fit the compaction" + " window ...]")
         == front + "\n[... truncated " + n + " bytes to fit the compaction window ...]"
  {
    assert " bytes to fit the compaction" + " window ...]" == " bytes to fit the compaction window ...]";
  }

  /** Four bytes a token, up to the largest machine word. */
  function Limit(maxTokens: nat): nat {
    if 4 * maxTokens <= 0xFFFF_FFFF_FFFF_FFFF then 4 * maxTokens else 0xFFFF_FFFF_FFFF_FFFF
  }

  /** `r` is `item` with every text cut to the limit and everything else as it was. */
  ghost predicate CutItem(r: Item, item: Item, maxTokens: nat) {
    match item
    case ToolResult(t) =>
      r.ToolResult? && r.result == t.(content := r.result.content) && CutTo(r.result.content, t.content, Limit(maxTokens))
    case Assistant(a) =>
      r.Assistant? && r.assistant == a.(content := r.assistant.content) && CutTo(r.assistant.content, a.content, Limit(maxTokens))
    case User(u) =>
      r.User? && r.user == u.(parts := r.user.parts) && |r.user.parts| == |u.parts|
      && forall i :: 0 <= i < |u.parts| ==> CutPart(r.user.parts[i], u.parts[i], maxTokens)
    case _ => r == item
  }

  ghost predicate CutPart(r: Part, part: Part, maxTokens: nat) {
    if part.TextPart? then r.TextPart? && CutTo(r.text, part.text, Limit(maxTokens)) else r == part
  }

  lemma ShortItemIsCut(item: Item, maxTokens: nat)
    ensures CutItem(ShortItem(item, maxTokens), item, maxTokens)
  {
    hide ShortText, CutTo;
    match item {
      case ToolResult(t) => ShortTextIsCut(t.content, Limit(maxTokens));
      case Assistant(a) => ShortTextIsCut(a.content, Limit(maxTokens));
      case User(u) =>
        forall i | 0 <= i < |u.parts| ensures CutPart(ShortItem(item, maxTokens).user.parts[i], u.parts[i], maxTokens) {
          if u.parts[i].TextPart? {
            ShortTextIsCut(u.parts[i].text, Limit(maxTokens));
          }
        }
      case _ =>
    }
  }

  // ----- The last turn -----

  /** Tokens for each of `n` results: an equal share of the budget, less the cost of the
      message that called for them, and at least one. */
  function EqualShare(budget: nat, ownerCost: nat, n: nat): nat
    requires n > 0
  {
    var share := if budget < ownerCost then 0 else (budget - ownerCost) / n;
    if share == 0 then 1 else share
  }

  /** The turn at the end of `body`, where `front` is all but its trailing results: the
      calling message as it is, and every result cut to its share; without results the last
      item alone, cut to the whole budget. */
  ghost predicate LastTurn(unit: Items, cost: Cost, front: Items, results: Items, budget: nat) {
    var called := front != [] && front[|front| - 1].Assistant? && front[|front| - 1].assistant.calls != [];
    if results == [] then
      if front == [] then unit == [] else |unit| == 1 && CutItem(unit[0], front[|front| - 1], budget)
    else
      var lead := if called then 1 else 0;
      var share := EqualShare(budget, if called then cost(front[|front| - 1]) else 0, |results|);
      && |unit| == lead + |results| && (called ==> unit[0] == front[|front| - 1])
      && forall i :: 0 <= i < |results| ==> CutItem(unit[lead + i], results[i], share)
  }

  lemma ShareIsEqual(cost: Cost, front: Items, n: nat, budget: nat)
    requires n > 0
    ensures Share(cost, front, n, budget)
         == EqualShare(budget, if front != [] && OwnsCalls(front[|front| - 1]) then cost(front[|front| - 1]) else 0, n)
  {
  }

  lemma ResultsAreCut(results: Items, share: nat, lead: Items)
    ensures forall i :: 0 <= i < |results| ==> CutItem((lead + ShortItems(results, share))[|lead| + i], results[i], share)
  {
    hide ShortItem, CutItem;
    forall i | 0 <= i < |results|
      ensures CutItem((lead + ShortItems(results, share))[|lead| + i], results[i], share)
    {
      ShortItemIsCut(results[i], share);
      assert (lead + ShortItems(results, share))[|lead| + i] == ShortItems(results, share)[i];
    }
  }

  lemma UnitIsLastTurn(cost: Cost, front: Items, results: Items, budget: nat)
    ensures LastTurn(Unit(cost, front, results, budget), cost, front, results, budget)
  {
    hide ShortItem, CutItem, Share, EqualShare;
    if results == [] {
      if front != [] {
        ShortItemIsCut(front[|front| - 1], budget);
      }
    } else {
      ShareIsEqual(cost, front, |results|, budget);
      ResultsAreCut(results, Share(cost, front, |results|, budget), Owner(front));
    }
  }

  // ----- The whole result -----

  /** What stands behind the leading system item: the longest suffix that fits, less leading
      results, or the last turn when nothing else is left. */
  ghost predicate Kept(rest: Items, cost: Cost, body: Items, budget: nat) {
    exists fit: nat, start: nat ::
      && LongestSuffix(cost, body, budget, fit, start)
      && (if start < |body| then rest == body[start..] else TurnAtEnd(rest, cost, body, budget))
  }

  ghost predicate TurnAtEnd(rest: Items, cost: Cost, body: Items, budget: nat) {
    exists n: nat ::
      && n <= |body| && AllResults(body[n..]) && (n > 0 ==> !body[n - 1].ToolResult?)
      && LastTurn(rest, cost, body[..n], body[n..], budget)
  }

  /** A conversation that fits is left alone; otherwise the system item it opens with stays
      in front, and the budget for the rest is what that item leaves. */
  lemma FittedIs(cost: Cost, items: Items, maxTokens: nat)
    ensures Total(cost, items) <= maxTokens ==> Fitted(cost, items, maxTokens) == items
    ensures Total(cost, items) > maxTokens && items != [] && items[0].System? ==>
      var r := Fitted(cost, items, maxTokens);
      r != [] && r[0] == items[0] && Kept(r[1..], cost, items[1..], Left(maxTokens, cost(items[0])))
    ensures Total(cost, items) > maxTokens && !(items != [] && items[0].System?) ==>
      Kept(Fitted(cost, items, maxTokens), cost, items, maxTokens)
  {
    if Total(cost, items) > maxTokens {
      hide Total, KeptStart, TailUnit, Kept;
      FittedRest(cost, items, maxTokens);
      if items != [] && items[0].System? {
        RestIsKept(cost, items[1..], Left(maxTokens, cost(items[0])));
        assert ([items[0]] + Rest(cost, items[1..], Left(maxTokens, cost(items[0]))))[1..]
            == Rest(cost, items[1..], Left(maxTokens, cost(items[0])));
      } else {
        RestIsKept(cost, items, maxTokens);
      }
    }
  }

  function Left(budget: nat, spent: nat): nat {
    if budget < spent then 0 else budget - spent
  }

  lemma FittedRest(cost: Cost, items: Items, maxTokens: nat)
    requires Total(cost, items) > maxTokens
    ensures Fitted(cost, items, maxTokens) ==
      if items != [] && items[0].System? then [items[0]] + Rest(cost, items[1..], Left(maxTokens, cost(items[0])))
      else Rest(cost, items, maxTokens)
  {
    HeadCosts(cost, items);
    hide Total, KeptStart, TailUnit;
    if items != [] && items[0].System? {
      assert items[..1] == [items[0]];
    } else {
      assert items[..0] == [] && items[0..] == items;
      assert [] + Rest(cost, items, maxTokens) == Rest(cost, items, maxTokens);
    }
  }

  lemma HeadCosts(cost: Cost, items: Items)
    ensures Total(cost, items[..HeadLen(items)]) == if items != [] && items[0].System? then cost(items[0]) else 0
  {
    if items != [] && items[0].System? {
      assert items[..1] == [items[0]] && [items[0]][1..] == [];
    } else {
      assert items[..0] == [];
    }
  }

  function Rest(cost: Cost, body: Items, budget: nat): Items {
    var start := KeptStart(cost, body, budget);
    if start < |body| then body[start..] else TailUnit(cost, body, budget)
  }

  lemma RestIsKept(cost: Cost, body: Items, budget: nat)
    ensures Kept(Rest(cost, body, budget), cost, body, budget)
  {
    hide KeptStart, TailUnit, LongestSuffix, TurnAtEnd;
    var fit := KeptStartIsLongest(cost, body, budget);
    EndIsTurn(cost, body, budget);
  }

  lemma EndIsTurn(cost: Cost, body: Items, budget: nat)
    ensures TurnAtEnd(TailUnit(cost, body, budget), cost, body, budget)
  {
    hide LastTurn, Unit, AllResults;
    TrailSplit(body);
    UnitIsLastTurn(cost, TrailFront(body), TrailResults(body), budget);
    var n := |body| - TrailLen(body);
    assert n > 0 ==> TrailFront(body)[n - 1] == body[n - 1];
  }
}
