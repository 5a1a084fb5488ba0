/** Cleaning the compaction model's raw output into the summary that seeds the
    next turn. */
module SummaryFormat {
  import opened Text
  import opened Decimals

  const ANALYSIS := "<analysis>"
  const ANALYSIS_END := "</analysis>"
  const SUMMARY := "<summary>"
  const SUMMARY_END := "</summary>"
  const REQUEST := "<summary_request>"
  const REQUEST_END := "</summary_request>"
  const ZERO_WIDTH_SPACE := '\U{200B}'
  const THREE_LINES := "\n\n\n"
  const TWO_LINES := "\n\n"

  // ----- Tags -----

  /** The only `<` of a tag is its first character, so two tags never overlap. */
  predicate Tag(t: string) {
    |t| >= 2 && t[0] == '<' && forall i :: 0 < i < |t| ==> t[i] != '<' && t[i] != ZERO_WIDTH_SPACE && t[i] != '\n'
  }

  lemma SummaryTags()
    ensures Tag(SUMMARY) && Tag(SUMMARY_END)
  {
  }

  lemma AnalysisTags()
    ensures Tag(ANALYSIS) && Tag(ANALYSIS_END)
  {
  }

  lemma RequestTag()
    ensures Tag(REQUEST)
  {
  }

  lemma RequestEndTag()
    ensures Tag(REQUEST_END)
  {
  }

  /** A tag that starts later starts behind the end of an earlier one. */
  lemma TagsApart(s: string, t: string, i: nat, u: string, j: nat)
    requires Tag(t) && Tag(u) && OccursAt(s, t, i) && OccursAt(s, u, j) && i < j
    ensures i + |t| <= j
  {
    assert s[j..j + |u|][0] == s[j];
    forall k | i < k < i + |t| ensures s[k] != '<' {
      assert s[i..i + |t|][k - i] == t[k - i];
    }
  }

  // ----- Replacing -----

  /** `str::replace`: left to right, without overlap. */
  function Replace(s: string, p: string, q: string): string
    requires p != ""
  {
    if s == "" then ""
    else if p <= s then q + Replace(s[|p|..], p, q)
    else [s[0]] + Replace(s[1..], p, q)
  }

  /** A zero-width space behind the `<` keeps the tag from being read as one. */
  function Defused(t: string): string
    requires |t| >= 1
  {
    [t[0], ZERO_WIDTH_SPACE] + t[1..]
  }

  const TAGS: seq<string> := [SUMMARY_END, SUMMARY, ANALYSIS_END, ANALYSIS, REQUEST_END, REQUEST]

  function Neutralize(s: string, tags: seq<string>): string
    requires forall i :: 0 <= i < |tags| ==> tags[i] != ""
    decreases |tags|
  {
    if tags == [] then s else Neutralize(Replace(s, tags[0], Defused(tags[0])), tags[1..])
  }

  // ----- The drafting scratchpad -----

  predicate LeadChar(c: char) {
    c == '#' || c == '*' || c == '-' || c == '>' || c == ' ' || c == '\t'
  }

  function TrimLead(s: string): (r: string)
    ensures |r| <= |s| && r == s[|s| - |r|..]
    ensures forall i :: 0 <= i < |s| - |r| ==> LeadChar(s[i])
    ensures r != "" ==> !LeadChar(r[0])
  {
    if s != "" && LeadChar(s[0]) then TrimLead(s[1..]) else s
  }

  /** Opens with a numbered section, possibly decorated as `## 1.` or `**1.**`. */
  predicate Numbered(s: string) {
    var lead := TrimLead(s);
    lead != "" && IsDigit(lead[0])
  }

  function AfterScratchpad(s: string): string {
    if Numbered(s) then s else
      match RFind(s, ANALYSIS_END)
      case None => s
      case Some(pos) => TrimStart(s[pos + |ANALYSIS_END|..])
  }

  function StripLeadingScratchpad(inner: string): string {
    var s := AfterScratchpad(Trim(inner));
    if SUMMARY <= s then TrimStart(s[|SUMMARY|..]) else s
  }

  // ----- The formatter -----

  /** The analysis block at `start` opens the text or the summary. */
  predicate Leading(s: string, start: nat)
    requires OccursAt(s, ANALYSIS, start)
  {
    match Find(s, SUMMARY)
    case None => Blank(s[..start])
    case Some(sp) =>
      if start < sp then true else
        SummaryTags();
        AnalysisTags();
        assert start != sp by { OccurrenceChars(s, ANALYSIS, start, 1); OccurrenceChars(s, SUMMARY, sp, 1); }
        TagsApart(s, SUMMARY, sp, ANALYSIS, start);
        Blank(s[sp + |SUMMARY|..start])
  }

  datatype Step = Done(text: string) | Again(text: string)

  /** Removes one leading analysis block; an unclosed one ends at the summary. */
  function DropOne(s: string): (r: Step)
    ensures r.Again? ==> |r.text| < |s|
  {
    match Find(s, ANALYSIS)
    case None => Done(s)
    case Some(start) =>
      if !Leading(s, start) then Done(s) else
        match Find(s[start..], ANALYSIS_END)
        case Some(rel) => Again(s[..start] + s[start + rel + |ANALYSIS_END|..])
        case None =>
          var dropTo := start + Find(s[start..], SUMMARY).GetOr(|s| - start);
          Done(s[..start] + s[dropTo..])
  }

  function DropAnalysis(s: string): string
    decreases |s|
  {
    var step := DropOne(s);
    if step.Done? then step.text else DropAnalysis(step.text)
  }

  /** Unwraps the summary block. */
  function Unwrap(s: string): string {
    match (Find(s, SUMMARY), RFind(s, SUMMARY_END))
    case (Some(start), Some(end)) =>
      if end <= start then s else
        SummaryTags();
        TagsApart(s, SUMMARY, start, SUMMARY_END, end);
        s[..start] + "Summary:\n" + StripLeadingScratchpad(Trim(s[start + |SUMMARY|..end])) + s[end + |SUMMARY_END|..]
    case _ => s
  }

  lemma {:induction false} CollapseShrinks(s: string)
    ensures |Replace(s, THREE_LINES, TWO_LINES)| <= |s|
    ensures Contains(s, THREE_LINES) ==> |Replace(s, THREE_LINES, TWO_LINES)| < |s|
  {
    if s != "" {
      if THREE_LINES <= s {
        CollapseShrinks(s[3..]);
      } else {
        CollapseShrinks(s[1..]);
        if Contains(s, THREE_LINES) {
          var i :| 0 <= i <= |s| && OccursAt(s, THREE_LINES, i);
          assert i > 0 by { assert s[0..3] == s[..3]; }
          assert s[1..][i - 1..i + 2] == s[i..i + 3];
          assert OccursAt(s[1..], THREE_LINES, i - 1);
        }
      }
    }
  }

  /** No more than one blank line in a row. */
  function CollapseLines(s: string): string
    decreases |s|
  {
    if !Contains(s, THREE_LINES) then s else
      CollapseShrinks(s);
      CollapseLines(Replace(s, THREE_LINES, TWO_LINES))
  }

  lemma TagsNonEmpty()
    ensures forall i :: 0 <= i < |TAGS| ==> TAGS[i] != ""
  {
  }

  function Formatted(summary: string): string {
    TagsNonEmpty();
    Trim(CollapseLines(Neutralize(Unwrap(DropAnalysis(summary)), TAGS)))
  }

  method FormatCompactSummary(summary: string) returns (result: string)
    ensures result == Formatted(summary)
  {
    result := DropLeadingAnalysis(summary);
    result := Unwrap(result);
    TagsNonEmpty();
    result := Neutralize(result, TAGS);
    ghost var neutral := result;
    while Contains(result, THREE_LINES)
      invariant CollapseLines(neutral) == CollapseLines(result)
      decreases |result|
    {
      CollapseShrinks(result);
      result := Replace(result, THREE_LINES, TWO_LINES);
    }
    result := Trim(result);
  }

  lemma DropUnfolds(s: string)
    ensures DropAnalysis(s) == if DropOne(s).Done? then DropOne(s).text else DropAnalysis(DropOne(s).text)
  {
    hide DropOne;
  }

  method DropOneBlock(s: string) returns (step: Step)
    ensures step == DropOne(s)
  {
    hide Leading, Contains, ANALYSIS, ANALYSIS_END, SUMMARY;
    var found := Find(s, ANALYSIS);
    if found.None? {
      return Done(s);
    }
    var start := found.value;
    if !Leading(s, start) {
      return Done(s);
    }
    var close := Find(s[start..], ANALYSIS_END);
    if close.Some? {
      return Again(s[..start] + s[start + close.value + |ANALYSIS_END|..]);
    }
    var dropTo := start + Find(s[start..], SUMMARY).GetOr(|s| - start);
    return Done(s[..start] + s[dropTo..]);
  }

  method DropLeadingAnalysis(summary: string) returns (result: string)
    ensures result == DropAnalysis(summary)
  {
    hide DropOne, DropAnalysis;
    result := summary;
    var more := true;
    while more
      invariant DropAnalysis(summary) == if more then DropAnalysis(result) else result
      decreases more, |result|
    {
      DropUnfolds(result);
      var step := DropOneBlock(result);
      more := step.Again?;
      result := step.text;
    }
  }
}
