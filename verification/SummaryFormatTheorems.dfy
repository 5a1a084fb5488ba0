/** The cleaned summary holds no control tag and no run of blank lines, and
    cleaning it again changes nothing. */
module SummaryFormatTheorems {
  import opened Text
  import opened Decimals
  import opened SummaryFormat

  // ----- Occurrences, one character at a time -----

  lemma OccursAtZero(s: string, t: string)
    ensures OccursAt(s, t, 0) <==> t <= s
  {
    if t <= s {
      assert s[0..|t|] == t;
    }
  }

  lemma OccursLater(s: string, t: string, n: nat, i: int)
    requires n <= i && n <= |s|
    ensures OccursAt(s, t, i) <==> OccursAt(s[n..], t, i - n)
  {
    if i + |t| <= |s| {
      assert s[i..i + |t|] == s[n..][i - n..i - n + |t|];
    }
  }

  /** An occurrence is at the front or in the tail. */
  lemma ContainsTail(s: string, t: string)
    requires s != ""
    ensures Contains(s, t) <==> t <= s || Contains(s[1..], t)
  {
    OccursAtZero(s, t);
    if Contains(s, t) {
      var i :| 0 <= i <= |s| && OccursAt(s, t, i);
      if i > 0 {
        OccursLater(s, t, 1, i);
      }
    }
    if Contains(s[1..], t) {
      var i :| 0 <= i <= |s| - 1 && OccursAt(s[1..], t, i);
      OccursLater(s, t, 1, i + 1);
    }
  }

  lemma ContainsSuffix(s: string, t: string, n: nat)
    requires n <= |s|
    ensures Contains(s[n..], t) ==> Contains(s, t)
  {
    assert s[n..] == s[n..|s|];
    SliceContains(s, n, |s|, t);
  }

  // ----- Replacing a tag -----

  /** Replacing by defused text never puts a tag prefix where there was none: every
      text without a zero-width space that opens the result opened the source. */
  lemma {:induction false} ReplacePrefix(s: string, p: string, u: string)
    requires Tag(p) && u <= Replace(s, p, Defused(p)) && ZERO_WIDTH_SPACE !in u
    ensures u <= s && (|u| >= 2 ==> !(p <= s))
  {
    var r := Replace(s, p, Defused(p));
    if u != "" {
      assert forall i :: 0 <= i < |u| ==> u[i] == r[i];
      if p <= s {
        assert r[1] == ZERO_WIDTH_SPACE;
      } else {
        var rest := Replace(s[1..], p, Defused(p));
        assert r[1..] == rest;
        assert u[1..] <= rest;
        ReplacePrefix(s[1..], p, u[1..]);
        assert s == [s[0]] + s[1..] && u == [u[0]] + u[1..];
      }
    }
  }

  lemma TagHasNoSpace(t: string)
    requires Tag(t)
    ensures ZERO_WIDTH_SPACE !in t
  {
  }

  /** Where a tag occurs in replaced text: not inside the defused copy. */
  lemma PastDefused(p: string, rest: string, t: string)
    requires Tag(p) && Tag(t) && Contains(Defused(p) + rest, t)
    ensures Contains(rest, t)
  {
    var q := Defused(p);
    var r := q + rest;
    var i :| 0 <= i <= |r| && OccursAt(r, t, i);
    assert r[i..i + |t|][0] == r[i] && r[i..i + |t|][1] == r[i + 1];
    assert forall k :: 0 <= k < |q| ==> r[k] == q[k];
    OccursLater(r, t, |q|, i);
    assert r[|q|..] == rest;
  }

  /** Replacing one tag removes it and introduces no other. */
  lemma {:induction false} ReplaceClears(s: string, p: string, t: string)
    requires Tag(p) && Tag(t)
    ensures Contains(Replace(s, p, Defused(p)), t) ==> t != p && Contains(s, t)
    decreases |s|
  {
    var r := Replace(s, p, Defused(p));
    if Contains(r, t) {
      TagHasNoSpace(t);
      if s == "" {
        MissingChar("", t, 0);
      } else if p <= s {
        PastDefused(p, Replace(s[|p|..], p, Defused(p)), t);
        ReplaceClears(s[|p|..], p, t);
        ContainsSuffix(s, t, |p|);
      } else {
        ContainsTail(r, t);
        ContainsTail(s, t);
        assert r[1..] == Replace(s[1..], p, Defused(p));
        ReplaceClears(s[1..], p, t);
        if t <= r {
          ReplacePrefix(s, p, t);
        }
      }
    }
  }

  /** Nothing to replace. */
  lemma {:induction false} ReplaceNothing(s: string, p: string, q: string)
    requires p != "" && !Contains(s, p)
    ensures Replace(s, p, q) == s
  {
    if s != "" {
      ContainsTail(s, p);
      ReplaceNothing(s[1..], p, q);
      assert s == [s[0]] + s[1..];
    }
  }

  ghost predicate FreeOf(s: string, tags: seq<string>) {
    forall i :: 0 <= i < |tags| ==> !Contains(s, tags[i])
  }

  ghost predicate AllTags(tags: seq<string>) {
    forall i :: 0 <= i < |tags| ==> Tag(tags[i])
  }

  lemma {:induction false} NeutralizeKeepsFree(s: string, tags: seq<string>, t: string)
    requires AllTags(tags) && Tag(t) && !Contains(s, t)
    ensures !Contains(Neutralize(s, tags), t)
    decreases |tags|
  {
    if tags != [] {
      ReplaceClears(s, tags[0], t);
      NeutralizeKeepsFree(Replace(s, tags[0], Defused(tags[0])), tags[1..], t);
    }
  }

  lemma {:induction false} NeutralizeClears(s: string, tags: seq<string>)
    requires AllTags(tags)
    ensures FreeOf(Neutralize(s, tags), tags)
    ensures FreeOf(s, tags) ==> Neutralize(s, tags) == s
    decreases |tags|
  {
    if tags != [] {
      var next := Replace(s, tags[0], Defused(tags[0]));
      ReplaceClears(s, tags[0], tags[0]);
      NeutralizeClears(next, tags[1..]);
      NeutralizeKeepsFree(next, tags[1..], tags[0]);
      assert forall i :: 0 < i < |tags| ==> tags[i] == tags[1..][i - 1];
      if FreeOf(s, tags) {
        ReplaceNothing(s, tags[0], Defused(tags[0]));
        assert forall i :: 0 <= i < |tags[1..]| ==> tags[1..][i] == tags[i + 1];
      }
    }
  }

  // ----- Collapsing lines -----

  lemma {:induction false} CollapsePrefix(s: string, u: string)
    requires u <= Replace(s, THREE_LINES, TWO_LINES) && '\n' !in u
    ensures u <= s
  {
    var r := Replace(s, THREE_LINES, TWO_LINES);
    if u != "" {
      assert u[0] == r[0];
      if !(THREE_LINES <= s) {
        assert r[1..] == Replace(s[1..], THREE_LINES, TWO_LINES);
        CollapsePrefix(s[1..], u[1..]);
        assert s == [s[0]] + s[1..] && u == [u[0]] + u[1..];
      }
    }
  }

  lemma NotInLines(rest: string, t: string)
    requires t != "" && '\n' !in t
    ensures Contains(TWO_LINES + rest, t) <==> Contains(rest, t)
  {
    JoinContains(TWO_LINES, rest, t);
    MissingChar(TWO_LINES, t, 0);
  }

  lemma {:induction false} CollapseOnce(s: string, t: string)
    requires t != "" && '\n' !in t
    ensures Contains(Replace(s, THREE_LINES, TWO_LINES), t) ==> Contains(s, t)
    decreases |s|
  {
    if s != "" {
      if THREE_LINES <= s {
        NotInLines(Replace(s[3..], THREE_LINES, TWO_LINES), t);
        CollapseOnce(s[3..], t);
        ContainsSuffix(s, t, 3);
      } else {
        var r := Replace(s, THREE_LINES, TWO_LINES);
        ContainsTail(r, t);
        ContainsTail(s, t);
        assert r[1..] == Replace(s[1..], THREE_LINES, TWO_LINES);
        CollapseOnce(s[1..], t);
        if t <= r {
          CollapsePrefix(s, t);
        }
      }
    }
  }

  lemma {:induction false} CollapseClears(s: string)
    ensures !Contains(CollapseLines(s), THREE_LINES)
    decreases |s|
  {
    if Contains(s, THREE_LINES) {
      CollapseShrinks(s);
      CollapseClears(Replace(s, THREE_LINES, TWO_LINES));
    }
  }

  lemma {:induction false} CollapseKeepsFree(s: string, t: string)
    requires t != "" && '\n' !in t && !Contains(s, t)
    ensures !Contains(CollapseLines(s), t)
    decreases |s|
  {
    if Contains(s, THREE_LINES) {
      CollapseShrinks(s);
      CollapseOnce(s, t);
      CollapseKeepsFree(Replace(s, THREE_LINES, TWO_LINES), t);
    }
  }

  // ----- The formatter -----

  lemma TagsAreTags()
    ensures AllTags(TAGS)
  {
    SummaryTags();
    AnalysisTags();
    RequestTag();
    RequestEndTag();
  }

  /** Ready to seed a turn: none of the six control tags, no three newlines in a row,
      no surrounding white space. */
  ghost predicate Clean(s: string) {
    FreeOf(s, TAGS) && !Contains(s, THREE_LINES) && Trimmed(s)
  }

  lemma TrimFree(s: string, t: string)
    ensures Contains(Trim(s), t) ==> Contains(s, t)
  {
    var i := TrimIsSlice(s);
    SliceContains(s, i, i + |Trim(s)|, t);
  }

  /** Every output is clean, whatever the model wrote. */
  lemma FormattedIsClean(summary: string)
    ensures Clean(Formatted(summary))
  {
    hide Trim, CollapseLines, Neutralize, Unwrap, DropAnalysis, Contains, Trimmed, TAGS, Formatted;
    TagsAreTags();
    FormattedParts(Unwrap(DropAnalysis(summary)));
    FormattedUnfolds(summary);
  }

  lemma FormattedUnfolds(summary: string)
    ensures AllTags(TAGS)
    ensures Formatted(summary) == Trim(CollapseLines(Neutralize(Unwrap(DropAnalysis(summary)), TAGS)))
  {
    hide Unwrap, DropAnalysis;
    TagsAreTags();
  }

  lemma FormattedParts(text: string)
    requires AllTags(TAGS)
    ensures Clean(Trim(CollapseLines(Neutralize(text, TAGS))))
  {
    hide Trim, CollapseLines, Neutralize, Contains, Trimmed, TAGS;
    var neutral := Neutralize(text, TAGS);
    NeutralizeClears(text, TAGS);
    CollapseClears(neutral);
    TrimFree(CollapseLines(neutral), THREE_LINES);
    TrimIsTrimmed(CollapseLines(neutral));
    forall i | 0 <= i < |TAGS| ensures !Contains(Trim(CollapseLines(neutral)), TAGS[i]) {
      CollapseKeepsFree(neutral, TAGS[i]);
      TrimFree(CollapseLines(neutral), TAGS[i]);
    }
  }

  lemma TagMembers(s: string)
    requires FreeOf(s, TAGS)
    ensures !Contains(s, ANALYSIS) && !Contains(s, SUMMARY)
  {
    assert TAGS[3] == ANALYSIS && TAGS[1] == SUMMARY;
  }

  lemma NothingToDrop(s: string)
    requires !Contains(s, ANALYSIS) && !Contains(s, SUMMARY)
    ensures DropAnalysis(s) == s && Unwrap(s) == s
  {
  }

  /** A text free of tags and of triple newlines is only trimmed. */
  lemma UntaggedIsOnlyTrimmed(s: string)
    requires FreeOf(s, TAGS) && !Contains(s, THREE_LINES)
    ensures Formatted(s) == Trim(s)
  {
    hide Trim, Neutralize, Unwrap, DropAnalysis, Contains, TAGS, Formatted;
    TagMembers(s);
    NothingToDrop(s);
    FormattedUnfolds(s);
    NeutralizeClears(s, TAGS);
  }

  /** Cleaning is idempotent. */
  lemma FormattedIsIdempotent(summary: string)
    ensures Formatted(Formatted(summary)) == Formatted(summary)
  {
    hide Formatted, Contains, TAGS, Trim;
    FormattedIsClean(summary);
    UntaggedIsOnlyTrimmed(Formatted(summary));
    TrimIsTrimmed(Formatted(summary));
  }

  // ----- The scratchpad inside a summary -----

  lemma TagIsNoNumber(s: string)
    ensures SUMMARY <= s ==> !Numbered(s)
  {
    if SUMMARY <= s {
      assert s[0] == '<';
    }
  }

  /** A summary block as the model is asked to write it. */
  function Block(inner: string): string {
    SUMMARY + inner + SUMMARY_END
  }

  /** A block with text around it that quotes no tag which could be taken for the block's. */
  ghost predicate Surrounds(before: string, after: string) {
    !Contains(before, SUMMARY) && !Contains(before, ANALYSIS) && !Contains(after, SUMMARY_END)
  }

  function Output(before: string, inner: string, after: string): string {
    before + Block(inner) + after
  }

  lemma TagLengths()
    ensures |SUMMARY| == 9 && |SUMMARY_END| == 10 && |ANALYSIS| == 10 && |ANALYSIS_END| == 11
    ensures ANALYSIS[0] == '<' && ANALYSIS[1] == 'a' && ANALYSIS_END[1] == '/' && SUMMARY[0] == '<' && SUMMARY[1] == 's'
    ensures !IsWhitespace('<')
  {
  }

  lemma SliceAt(a: string, p: string, b: string)
    ensures OccursAt(a + p + b, p, |a|) && (a + p + b)[..|a|] == a && (a + p + b)[|a| + |p|..] == b
  {
    assert (a + p + b)[|a|..|a| + |p|] == p;
  }

  lemma BlockPlaces(before: string, inner: string, after: string)
    ensures var s, n := Output(before, inner, after), |before|;
      && |s| == n + 9 + |inner| + 10 + |after| && s[..n] == before && s[n + 9..n + 9 + |inner|] == inner
      && s[n + 9 + |inner| + 10..] == after && OccursAt(s, SUMMARY, n) && OccursAt(s, SUMMARY_END, n + 9 + |inner|)
  {
    TagLengths();
    hide SUMMARY, SUMMARY_END;
    var s := Output(before, inner, after);
    assert s == before + SUMMARY + (inner + SUMMARY_END + after);
    SliceAt(before, SUMMARY, inner + SUMMARY_END + after);
    assert s == (before + SUMMARY) + inner + (SUMMARY_END + after);
    SliceAt(before + SUMMARY, inner, SUMMARY_END + after);
    assert s == (before + SUMMARY + inner) + SUMMARY_END + after;
    SliceAt(before + SUMMARY + inner, SUMMARY_END, after);
  }

  /** An occurrence that ends within a prefix is one of the prefix. */
  lemma OccursInFront(s: string, p: string, i: nat, n: nat)
    requires n <= |s| && OccursAt(s, p, i) && i + |p| <= n
    ensures Contains(s[..n], p)
  {
    assert s[..n][i..i + |p|] == s[i..i + |p|];
    assert OccursAt(s[..n], p, i);
  }

  lemma OccursBehind(s: string, p: string, i: nat, n: nat)
    requires n <= i && OccursAt(s, p, i)
    ensures Contains(s[n..], p)
  {
    OccursLater(s, p, n, i);
    assert OccursAt(s[n..], p, i - n);
  }

  lemma FirstIs(s: string, p: string, at: nat)
    requires OccursAt(s, p, at) && forall i: nat :: i < at ==> !OccursAt(s, p, i)
    ensures Find(s, p) == Some(at)
  {
    assert at <= |s|;
  }

  lemma LastIs(s: string, p: string, at: nat)
    requires OccursAt(s, p, at) && forall i: nat :: i > at ==> !OccursAt(s, p, i)
    ensures RFind(s, p) == Some(at)
  {
    assert at <= |s|;
  }

  /** The block's own tags are the first opening and the last closing one. */
  lemma BlockTags(before: string, inner: string, after: string)
    requires Surrounds(before, after)
    ensures var s := Output(before, inner, after);
      Find(s, SUMMARY) == Some(|before|) && RFind(s, SUMMARY_END) == Some(|before| + 9 + |inner|)
  {
    BlockPlaces(before, inner, after);
    TagLengths();
    SummaryTags();
    hide SUMMARY, SUMMARY_END, ANALYSIS, ANALYSIS_END, Output, Contains, Tag;
    var s, n := Output(before, inner, after), |before|;
    var end := n + 9 + |inner|;
    forall i: nat | i < n ensures !OccursAt(s, SUMMARY, i) {
      if OccursAt(s, SUMMARY, i) {
        TagsApart(s, SUMMARY, i, SUMMARY, n);
        OccursInFront(s, SUMMARY, i, n);
      }
    }
    FirstIs(s, SUMMARY, n);
    forall i: nat | i > end ensures !OccursAt(s, SUMMARY_END, i) {
      if OccursAt(s, SUMMARY_END, i) {
        TagsApart(s, SUMMARY_END, end, SUMMARY_END, i);
        OccursBehind(s, SUMMARY_END, i, end + 10);
      }
    }
    LastIs(s, SUMMARY_END, end);
  }

  /** The first character of a numbered text is no white space and no tag. */
  lemma NumberedStart(inner: string) returns (at: nat)
    requires Numbered(Trim(inner))
    ensures at < |inner| && inner[at] != '<' && !IsWhitespace(inner[at])
    ensures forall k :: 0 <= k < at ==> IsWhitespace(inner[k])
  {
    var t := TrimStart(inner);
    at := |inner| - |t|;
    var r := Trim(inner);
    assert r != "" && r[0] == t[0] == inner[at];
    assert !IsWhitespace(r[0]);
    LeadOrDigit(r);
    LeadingSpace(inner);
  }

  lemma LeadOrDigit(s: string)
    requires Numbered(s)
    ensures s != "" && (LeadChar(s[0]) || IsDigit(s[0]))
  {
  }

  lemma {:induction false} LeadingSpace(s: string)
    ensures forall k :: 0 <= k < |s| - |TrimStart(s)| ==> IsWhitespace(s[k])
  {
    if s != "" && IsWhitespace(s[0]) {
      LeadingSpace(s[1..]);
      assert forall k :: 0 < k < |s| ==> s[k] == s[1..][k - 1];
    }
  }

  lemma InnerChar(before: string, inner: string, after: string, k: nat)
    requires k < |inner|
    ensures var s := Output(before, inner, after); |before| + 9 + k < |s| && s[|before| + 9 + k] == inner[k]
  {
    BlockPlaces(before, inner, after);
    hide Output;
    var s, n := Output(before, inner, after), |before| + 9;
    assert s[n..n + |inner|][k] == s[n + k];
  }

  /** An analysis tag can only stand behind the block's opening tag. */
  lemma QuotedBehindTag(before: string, inner: string, after: string, start: nat)
    requires Surrounds(before, after) && OccursAt(Output(before, inner, after), ANALYSIS, start)
    ensures |before| + 9 <= start < |Output(before, inner, after)| && Output(before, inner, after)[start] == '<'
  {
    BlockPlaces(before, inner, after);
    TagLengths();
    SummaryTags();
    AnalysisTags();
    hide SUMMARY, SUMMARY_END, ANALYSIS, ANALYSIS_END, Output, Contains, Tag;
    var s, n := Output(before, inner, after), |before|;
    OccurrenceChars(s, ANALYSIS, start, 0);
    OccurrenceChars(s, ANALYSIS, start, 1);
    OccurrenceChars(s, SUMMARY, n, 1);
    if start < n {
      TagsApart(s, ANALYSIS, start, SUMMARY, n);
      OccursInFront(s, ANALYSIS, start, n);
    } else if n < start {
      TagsApart(s, SUMMARY, n, ANALYSIS, start);
    }
  }

  lemma BehindIsNotLeading(s: string, sp: nat, start: nat, w: nat)
    requires OccursAt(s, ANALYSIS, start) && Find(s, SUMMARY) == Some(sp)
    requires sp + 9 <= w < start && !IsWhitespace(s[w])
    ensures !Leading(s, start)
  {
    TagLengths();
    hide SUMMARY, ANALYSIS, ANALYSIS_END, SUMMARY_END, Contains;
    assert s[sp + 9..start][w - sp - 9] == s[w];
  }

  /** An analysis block quoted behind the first numbered section opens nothing. */
  lemma QuotedIsNotLeading(before: string, inner: string, after: string, start: nat)
    requires Surrounds(before, after) && Numbered(Trim(inner)) && OccursAt(Output(before, inner, after), ANALYSIS, start)
    ensures !Leading(Output(before, inner, after), start)
  {
    hide *;
    var at := NumberedStart(inner);
    var n := |before| + 9;
    TagLengths();
    BlockTags(before, inner, after);
    QuotedBehindTag(before, inner, after, start);
    InnerChar(before, inner, after, at);
    if start < n + at {
      InnerChar(before, inner, after, start - n);
    }
    BehindIsNotLeading(Output(before, inner, after), |before|, start, n + at);
  }

  lemma NothingLeads(s: string)
    requires Find(s, ANALYSIS).Some? ==> !Leading(s, Find(s, ANALYSIS).value)
    ensures DropAnalysis(s) == s
  {
    hide Leading, Contains, ANALYSIS, SUMMARY, ANALYSIS_END;
  }

  lemma UnwrapAt(s: string, start: nat, end: nat)
    requires Find(s, SUMMARY) == Some(start) && RFind(s, SUMMARY_END) == Some(end) && start + 9 <= end && end + 10 <= |s|
    ensures Unwrap(s) == s[..start] + "Summary:\n" + StripLeadingScratchpad(Trim(s[start + 9..end])) + s[end + 10..]
  {
    TagLengths();
    hide SUMMARY, SUMMARY_END, ANALYSIS, ANALYSIS_END, Contains, Trim, StripLeadingScratchpad;
  }

  /** Nothing is dropped from the block or around it, and the block is unwrapped to its
      trimmed text. */
  lemma BlockUnwraps(before: string, inner: string, after: string)
    requires Surrounds(before, after) && Numbered(Trim(inner))
    ensures Unwrap(DropAnalysis(Output(before, inner, after))) == before + "Summary:\n" + Trim(inner) + after
  {
    hide *;
    var s := Output(before, inner, after);
    BlockTags(before, inner, after);
    BlockPlaces(before, inner, after);
    var found := Find(s, ANALYSIS);
    if found.Some? {
      QuotedIsNotLeading(before, inner, after, found.value);
    }
    NothingLeads(s);
    NumberedStays(inner);
    UnwrapAt(s, |before|, |before| + 9 + |inner|);
  }

  lemma NumberedStays(inner: string)
    requires Numbered(Trim(inner))
    ensures StripLeadingScratchpad(Trim(inner)) == Trim(inner)
  {
    hide *;
    var t := Trim(inner);
    TrimIsTrimmed(inner);
    TrimIsTrimmed(t);
    TagIsNoNumber(t);
    StripUnfolds(t);
    NumberedUnfolds(t);
  }

  lemma NumberedUnfolds(s: string)
    ensures Numbered(s) ==> AfterScratchpad(s) == s
    ensures !(SUMMARY <= s) ==> Peeled(s) == s
  {
    hide Numbered, SUMMARY;
  }

  // ----- What defusing and collapsing keep -----

  /** The text without line ends and the sentinels put into quoted tags. */
  function Essence(s: string): string {
    if s == "" then ""
    else if s[0] == '\n' || s[0] == ZERO_WIDTH_SPACE then Essence(s[1..])
    else [s[0]] + Essence(s[1..])
  }

  lemma {:induction false} EssenceConcat(a: string, b: string)
    ensures Essence(a + b) == Essence(a) + Essence(b)
  {
    if a == "" {
      assert a + b == b;
    } else {
      assert (a + b)[1..] == a[1..] + b;
      EssenceConcat(a[1..], b);
    }
  }

  lemma {:induction false} ReplaceKeepsEssence(s: string, p: string, q: string)
    requires p != "" && Essence(p) == Essence(q)
    ensures Essence(Replace(s, p, q)) == Essence(s)
    decreases |s|
  {
    if s != "" {
      if p <= s {
        ReplaceKeepsEssence(s[|p|..], p, q);
        EssenceConcat(q, Replace(s[|p|..], p, q));
        EssenceConcat(p, s[|p|..]);
        assert s == p + s[|p|..];
      } else {
        ReplaceKeepsEssence(s[1..], p, q);
        var rest := Replace(s[1..], p, q);
        assert ([s[0]] + rest)[1..] == rest;
      }
    }
  }

  lemma DefusedEssence(t: string)
    requires Tag(t)
    ensures Essence(Defused(t)) == Essence(t)
  {
    var d := Defused(t);
    assert d[1..] == [ZERO_WIDTH_SPACE] + t[1..] && d[1..][1..] == t[1..];
  }

  lemma LinesEssence()
    ensures Essence(THREE_LINES) == Essence(TWO_LINES) == ""
  {
    assert THREE_LINES[1..] == TWO_LINES && TWO_LINES[1..] == "\n" && "\n"[1..] == "";
    assert Essence("\n") == Essence("");
  }

  /** Replacing by a text with the same first and last character keeps both ends. */
  lemma {:induction false} ReplaceKeepsEnds(s: string, p: string, q: string)
    requires p != "" && q != "" && p[0] == q[0] && p[|p| - 1] == q[|q| - 1] && s != ""
    ensures var r := Replace(s, p, q); r != "" && r[0] == s[0] && r[|r| - 1] == s[|s| - 1]
    decreases |s|
  {
    var n := if p <= s then |p| else 1;
    var rest := Replace(s[n..], p, q);
    if s[n..] == "" {
      assert rest == "";
    } else {
      ReplaceKeepsEnds(s[n..], p, q);
    }
  }

  /** Same essence, same ends. */
  ghost predicate Preserves(s: string, r: string) {
    Essence(r) == Essence(s) && (s != "" ==> r != "" && r[0] == s[0] && r[|r| - 1] == s[|s| - 1])
  }

  lemma {:induction false} NeutralizePreserves(s: string, tags: seq<string>)
    requires AllTags(tags)
    ensures Preserves(s, Neutralize(s, tags))
    decreases |tags|
  {
    if tags != [] {
      var next := Replace(s, tags[0], Defused(tags[0]));
      DefusedEssence(tags[0]);
      ReplaceKeepsEssence(s, tags[0], Defused(tags[0]));
      if s != "" {
        ReplaceKeepsEnds(s, tags[0], Defused(tags[0]));
      }
      assert forall i :: 0 <= i < |tags[1..]| ==> tags[1..][i] == tags[i + 1];
      NeutralizePreserves(next, tags[1..]);
    }
  }

  lemma {:induction false} CollapsePreserves(s: string)
    ensures Preserves(s, CollapseLines(s))
    decreases |s|
  {
    if Contains(s, THREE_LINES) {
      CollapseShrinks(s);
      LinesEssence();
      ReplaceKeepsEssence(s, THREE_LINES, TWO_LINES);
      if s != "" {
        ReplaceKeepsEnds(s, THREE_LINES, TWO_LINES);
      }
      CollapsePreserves(Replace(s, THREE_LINES, TWO_LINES));
    }
  }

  lemma PreservesTrimmed(s: string, r: string, t: string)
    requires Preserves(s, r) && Preserves(r, t) && s != "" && Trimmed(s)
    ensures Essence(t) == Essence(s) && Trim(t) == t
  {
    hide Essence, Trim;
    TrimIsTrimmed(t);
  }

  lemma TextIsKept(text: string)
    requires Trimmed(text) && text != ""
    ensures var r := CollapseLines(Neutralize(text, TAGS));
      && Trim(r) == r && Essence(r) == Essence(text)
      && (FreeOf(text, TAGS) && !Contains(text, THREE_LINES) ==> r == text)
  {
    TagsAreTags();
    hide Trim, CollapseLines, Neutralize, TAGS, Contains, Essence, Preserves, Trimmed;
    NeutralizePreserves(text, TAGS);
    CollapsePreserves(Neutralize(text, TAGS));
    PreservesTrimmed(text, Neutralize(text, TAGS), CollapseLines(Neutralize(text, TAGS)));
    NeutralizeClears(text, TAGS);
    CollapseNothing(text);
  }

  /** The text with the six control tags defused. */
  function Defuse(text: string): string {
    TagsNonEmpty();
    Neutralize(text, TAGS)
  }

  /** A text that is only defused and collapsed keeps everything but line ends. */
  lemma TextIsCleaned(text: string)
    ensures Trim(CollapseLines(Defuse(text))) == Trim(Squash(Defuse(text), 0))
    ensures Trimmed(text) && text != "" ==> Essence(Trim(CollapseLines(Defuse(text)))) == Essence(text)
    ensures Trimmed(text) && text != "" && FreeOf(text, TAGS) && !Contains(text, THREE_LINES) ==>
      Trim(CollapseLines(Defuse(text))) == text
  {
    hide Trim, CollapseLines, Neutralize, Squash, Essence, Contains, TAGS, FreeOf, Trimmed;
    CollapsedIsSquashed(Defuse(text), 0);
    if Trimmed(text) && text != "" {
      TextIsKept(text);
    }
  }

  lemma FormattedIs(summary: string, text: string)
    requires Unwrap(DropAnalysis(summary)) == text
    ensures Formatted(summary) == Trim(CollapseLines(Defuse(text)))
  {
    hide Unwrap, DropAnalysis, Trim, CollapseLines, Neutralize;
  }

  /** A summary block that opens with a numbered section is kept whole, whatever tags it
      quotes, and so is the text around it: cleaning only defuses the tags, collapses
      blank lines and trims. Without any of these the text is verbatim. */
  lemma NumberedIsPreserved(before: string, inner: string, after: string)
    requires Surrounds(before, after) && Numbered(Trim(inner))
    ensures var text := before + "Summary:\n" + Trim(inner) + after;
      var cleaned := Formatted(before + SUMMARY + inner + SUMMARY_END + after);
      && cleaned == Trim(Squash(Defuse(text), 0))
      && (Trimmed(text) ==> Essence(cleaned) == Essence(text))
      && (Trimmed(text) && FreeOf(text, TAGS) && !Contains(text, THREE_LINES) ==> cleaned == text)
  {
    hide *;
    var text := before + "Summary:\n" + Trim(inner) + after;
    BlockUnwraps(before, inner, after);
    OutputIs(before, inner, after);
    FormattedIs(Output(before, inner, after), text);
    assert |text| >= 9;
    TextIsCleaned(text);
  }

  lemma OutputIs(before: string, inner: string, after: string)
    ensures Output(before, inner, after) == before + SUMMARY + inner + SUMMARY_END + after
  {
    hide SUMMARY, SUMMARY_END;
    assert before + (SUMMARY + inner + SUMMARY_END) + after == before + SUMMARY + inner + SUMMARY_END + after;
  }

  // ----- Blank lines -----

  /** The text without the newlines that follow two others, `n` of which stand in front. */
  function Squash(s: string, n: nat): string {
    if s == "" then ""
    else if s[0] != '\n' then [s[0]] + Squash(s[1..], 0)
    else if n >= 2 then Squash(s[1..], 2)
    else ['\n'] + Squash(s[1..], n + 1)
  }

  lemma ThreeSquash(rest: string, n: nat)
    requires n <= 2
    ensures Squash(THREE_LINES + rest, n) == Squash(TWO_LINES + rest, n)
  {
    var m := if n >= 2 then 2 else n + 1;
    assert THREE_LINES + rest == "\n" + (TWO_LINES + rest) && TWO_LINES + rest == "\n" + ("\n" + rest);
    hide Squash;
    SquashLine(TWO_LINES + rest, n);
    SquashLine("\n" + rest, n);
    SquashLine("\n" + rest, m);
    SquashLine(rest, m);
    SquashLine(rest, 2);
  }

  lemma SquashLine(rest: string, n: nat)
    ensures Squash("\n" + rest, n) == if n >= 2 then Squash(rest, 2) else "\n" + Squash(rest, n + 1)
  {
    assert ("\n" + rest)[1..] == rest;
  }

  lemma TwoSquash(a: string, b: string, n: nat)
    requires n <= 2 && Squash(a, 2) == Squash(b, 2)
    ensures Squash(TWO_LINES + a, n) == Squash(TWO_LINES + b, n)
  {
    assert (TWO_LINES + a)[1..] == "\n" + a && ("\n" + a)[1..] == a;
    assert (TWO_LINES + b)[1..] == "\n" + b && ("\n" + b)[1..] == b;
  }

  lemma {:induction false} ReplaceSquashes(s: string, n: nat)
    requires n <= 2
    ensures Squash(Replace(s, THREE_LINES, TWO_LINES), n) == Squash(s, n)
    decreases |s|
  {
    if s != "" {
      if THREE_LINES <= s {
        var rest := s[3..];
        ReplaceSquashes(rest, 2);
        TwoSquash(Replace(rest, THREE_LINES, TWO_LINES), rest, n);
        ThreeSquash(rest, n);
        assert s == THREE_LINES + rest;
      } else {
        var r := Replace(s[1..], THREE_LINES, TWO_LINES);
        ReplaceSquashes(s[1..], if s[0] != '\n' then 0 else if n >= 2 then 2 else n + 1);
        assert ([s[0]] + r)[1..] == r;
      }
    }
  }

  /** Without three newlines in a row there is nothing to leave out. */
  lemma {:induction false} SquashNothing(s: string, n: nat)
    requires n <= 2 && !Contains(LineFront(n) + s, THREE_LINES)
    ensures Squash(s, n) == s
    decreases |s|
  {
    if s != "" {
      var all := LineFront(n) + s;
      if s[0] == '\n' {
        if n == 2 {
          RunOfThree(s);
        } else {
          assert LineFront(n + 1) + s[1..] == all;
          SquashNothing(s[1..], n + 1);
        }
      } else {
        ContainsSuffix(all, THREE_LINES, n + 1);
        assert all[n + 1..] == s[1..] == LineFront(0) + s[1..];
        SquashNothing(s[1..], 0);
      }
      assert s == [s[0]] + s[1..];
    }
  }

  lemma RunOfThree(s: string)
    requires s != "" && s[0] == '\n'
    ensures Contains(LineFront(2) + s, THREE_LINES)
  {
    var all := LineFront(2) + s;
    assert all[0..3] == THREE_LINES;
    assert OccursAt(all, THREE_LINES, 0);
  }

  function LineFront(n: nat): string {
    if n == 0 then "" else if n == 1 then "\n" else "\n\n"
  }

  /** Collapsing leaves exactly two newlines of every longer run and nothing else out. */
  lemma {:induction false} CollapsedIsSquashed(s: string, n: nat)
    requires n == 0
    ensures CollapseLines(s) == Squash(s, n)
    decreases |s|
  {
    if Contains(s, THREE_LINES) {
      CollapseShrinks(s);
      ReplaceSquashes(s, 0);
      CollapsedIsSquashed(Replace(s, THREE_LINES, TWO_LINES), 0);
    } else {
      assert LineFront(0) + s == s;
      SquashNothing(s, 0);
    }
  }

  // ----- A draft in front -----

  /** Different tags do not start at one place. */
  lemma TagsDiffer(s: string, i: nat)
    ensures OccursAt(s, ANALYSIS, i) ==> !OccursAt(s, ANALYSIS_END, i) && !OccursAt(s, SUMMARY, i)
  {
    TagLengths();
    hide ANALYSIS, ANALYSIS_END, SUMMARY, SUMMARY_END;
    SecondChar(s, ANALYSIS, i);
    SecondChar(s, ANALYSIS_END, i);
    SecondChar(s, SUMMARY, i);
  }

  lemma SecondChar(s: string, tag: string, i: nat)
    requires |tag| >= 2
    ensures OccursAt(s, tag, i) ==> i + 1 < |s| && s[i + 1] == tag[1]
  {
    if OccursAt(s, tag, i) {
      OccurrenceChars(s, tag, i, 1);
    }
  }

  lemma DraftPlaces(lead: string, draft: string, rest: string)
    ensures var s := lead + ANALYSIS + draft + ANALYSIS_END + rest;
      && s[..|lead|] == lead && OccursAt(s, ANALYSIS, |lead|)
      && s[|lead|..] == ANALYSIS + draft + ANALYSIS_END + rest
      && OccursAt(s[|lead|..], ANALYSIS, 0) && OccursAt(s[|lead|..], ANALYSIS_END, 10 + |draft|)
      && s[|lead| + 10 + |draft| + 11..] == rest && s[|lead|..][10..10 + |draft|] == draft
  {
    hide *;
    TagLengths();
    var t := ANALYSIS + draft + ANALYSIS_END + rest;
    var s := lead + ANALYSIS + draft + ANALYSIS_END + rest;
    DraftInFront(draft, rest);
    FourParts(lead, ANALYSIS, draft, ANALYSIS_END, rest);
    SliceAt(lead, ANALYSIS, draft + ANALYSIS_END + rest);
    Shifted(lead, t, 10 + |draft| + 11);
  }

  lemma DraftInFront(draft: string, rest: string)
    ensures var t := ANALYSIS + draft + ANALYSIS_END + rest;
      && OccursAt(t, ANALYSIS, 0) && OccursAt(t, ANALYSIS_END, 10 + |draft|)
      && 10 + |draft| + 11 <= |t| && t[10 + |draft| + 11..] == rest && t[10..10 + |draft|] == draft
  {
    TagLengths();
    hide ANALYSIS, ANALYSIS_END, SUMMARY, SUMMARY_END;
    var t := ANALYSIS + draft + ANALYSIS_END + rest;
    SliceAt(ANALYSIS + draft, ANALYSIS_END, rest);
    assert t == "" + ANALYSIS + (draft + ANALYSIS_END + rest);
    SliceAt("", ANALYSIS, draft + ANALYSIS_END + rest);
    assert t == ANALYSIS + draft + (ANALYSIS_END + rest);
  }

  lemma FourParts(a: string, b: string, c: string, d: string, e: string)
    ensures a + b + c + d + e == a + b + (c + d + e) && a + b + c + d + e == a + (b + c + d + e)
  {
  }

  lemma Shifted(a: string, t: string, n: nat)
    requires n <= |t|
    ensures (a + t)[|a|..] == t && (a + t)[|a| + n..] == t[n..]
  {
  }

  /** The first closing tag behind the draft's opening one is the draft's. */
  lemma DraftCloses(t: string, draft: string)
    requires OccursAt(t, ANALYSIS, 0) && OccursAt(t, ANALYSIS_END, 10 + |draft|) && t[10..10 + |draft|] == draft
    requires !Contains(draft, ANALYSIS_END)
    ensures Find(t, ANALYSIS_END) == Some(10 + |draft|)
  {
    TagLengths();
    AnalysisTags();
    hide ANALYSIS, ANALYSIS_END, Contains, Tag;
    var end := 10 + |draft|;
    TagsDiffer(t, 0);
    forall i: nat | i < end ensures !OccursAt(t, ANALYSIS_END, i) {
      if OccursAt(t, ANALYSIS_END, i) {
        TagsApart(t, ANALYSIS_END, i, ANALYSIS_END, end);
        if i > 0 {
          TagsApart(t, ANALYSIS, 0, ANALYSIS_END, i);
          InsideDraft(t, i, end, draft);
        }
      }
    }
    FirstIs(t, ANALYSIS_END, end);
  }

  lemma InsideDraft(t: string, i: nat, end: nat, draft: string)
    requires 10 <= i && end <= |t| && OccursAt(t, ANALYSIS_END, i) && i + |ANALYSIS_END| <= end && t[10..end] == draft
    ensures Contains(draft, ANALYSIS_END)
  {
    hide ANALYSIS_END;
    assert draft[i - 10..i - 10 + |ANALYSIS_END|] == t[i..i + |ANALYSIS_END|];
    assert OccursAt(draft, ANALYSIS_END, i - 10);
  }

  /** No tag starts in white space. */
  lemma BlankHasNoTag(s: string, tag: string, n: nat, i: nat)
    requires Tag(tag) && n <= |s| && Blank(s[..n]) && OccursAt(s, tag, i)
    ensures n <= i
  {
    OccurrenceChars(s, tag, i, 0);
    assert !IsWhitespace('<');
    BlankChars(s, n);
  }

  lemma BlankChars(s: string, n: nat)
    requires n <= |s| && Blank(s[..n])
    ensures forall i :: 0 <= i < n ==> IsWhitespace(s[i])
  {
    assert forall i :: 0 <= i < n ==> s[..n][i] == s[i];
  }

  lemma DraftLeads(s: string, n: nat)
    requires n <= |s| && Blank(s[..n]) && OccursAt(s, ANALYSIS, n)
    ensures Find(s, ANALYSIS) == Some(n) && Leading(s, n)
  {
    AnalysisTags();
    SummaryTags();
    TagLengths();
    hide ANALYSIS, SUMMARY, ANALYSIS_END, SUMMARY_END, Contains, Tag, Blank;
    forall i: nat | i < n ensures !OccursAt(s, ANALYSIS, i) {
      if OccursAt(s, ANALYSIS, i) {
        BlankHasNoTag(s, ANALYSIS, n, i);
      }
    }
    FirstIs(s, ANALYSIS, n);
    var sp := Find(s, SUMMARY);
    if sp.Some? {
      BlankHasNoTag(s, SUMMARY, n, sp.value);
      TagsDiffer(s, n);
    }
  }

  lemma DropOneIs(s: string, n: nat, rel: nat)
    requires OccursAt(s, ANALYSIS, n) && Find(s, ANALYSIS) == Some(n) && Leading(s, n)
    requires n <= |s| && Find(s[n..], ANALYSIS_END) == Some(rel)
    ensures n + rel + 11 <= |s| && DropOne(s) == Again(s[..n] + s[n + rel + 11..])
  {
    TagLengths();
    hide ANALYSIS, SUMMARY, ANALYSIS_END, SUMMARY_END, Contains, Leading;
  }

  lemma DropOneAt(s: string, n: nat, rel: nat)
    requires OccursAt(s, ANALYSIS, n) && Find(s, ANALYSIS) == Some(n) && Leading(s, n)
    requires n <= |s| && Find(s[n..], ANALYSIS_END) == Some(rel)
    ensures n + rel + 11 <= |s| && DropAnalysis(s) == DropAnalysis(s[..n] + s[n + rel + 11..])
  {
    hide *;
    DropOneIs(s, n, rel);
    DropUnfolds(s);
  }

  /** A draft that opens the output, behind white space at most, is dropped whole up to its
      closing tag; the rest is cleaned as if it had never been there. */
  lemma DraftIsDropped(lead: string, draft: string, rest: string)
    requires Blank(lead) && !Contains(draft, ANALYSIS_END)
    ensures Formatted(lead + ANALYSIS + draft + ANALYSIS_END + rest) == Formatted(lead + rest)
  {
    hide *;
    var s := lead + ANALYSIS + draft + ANALYSIS_END + rest;
    DraftPlaces(lead, draft, rest);
    DraftLeads(s, |lead|);
    DraftCloses(s[|lead|..], draft);
    DropOneAt(s, |lead|, 10 + |draft|);
    FormattedUnfolds(s);
    FormattedUnfolds(lead + rest);
  }

  lemma CollapseNothing(s: string)
    ensures !Contains(s, THREE_LINES) ==> CollapseLines(s) == s
  {
  }

  lemma TextIsTrimmed(inner: string)
    requires Numbered(Trim(inner))
    ensures Trimmed("Summary:\n" + Trim(inner))
  {
    TrimIsTrimmed(inner);
    LeadOrDigit(Trim(inner));
    var text := "Summary:\n" + Trim(inner);
    assert text[0] == 'S' && text[|text| - 1] == Trim(inner)[|Trim(inner)| - 1];
  }

  /** Any other block loses everything up to its last `</analysis>`. */
  lemma ScratchpadIsDropped(inner: string)
    requires !Numbered(Trim(inner))
    ensures !Contains(StripLeadingScratchpad(inner), ANALYSIS_END)
  {
    var s := Trim(inner);
    AfterLast(s);
    var t := AfterScratchpad(s);
    if SUMMARY <= t {
      ContainsSuffix(t, ANALYSIS_END, |SUMMARY|);
      TrimStartFree(t[|SUMMARY|..], ANALYSIS_END);
    }
  }

  /** What is left of such a block is the text behind its last `</analysis>`, or the whole
      block without one, and a wrapper that opens it is peeled off. */
  lemma ScratchpadLeaves(inner: string, draft: string, rest: string)
    requires !Numbered(Trim(inner))
    ensures !Contains(Trim(inner), ANALYSIS_END) ==> StripLeadingScratchpad(inner) == Peeled(Trim(inner))
    ensures Trim(inner) == draft + ANALYSIS_END + rest && !Contains(rest, ANALYSIS_END) ==>
      StripLeadingScratchpad(inner) == Peeled(TrimStart(rest))
  {
    hide *;
    var t := Trim(inner);
    StripUnfolds(inner);
    AfterUnfolds(t);
    if t == draft + ANALYSIS_END + rest && !Contains(rest, ANALYSIS_END) {
      LastClosing(draft, rest);
    }
  }

  lemma StripUnfolds(inner: string)
    ensures StripLeadingScratchpad(inner) == Peeled(AfterScratchpad(Trim(inner)))
  {
    TagLengths();
    hide SUMMARY, AfterScratchpad, Trim, TrimStart;
  }

  lemma AfterUnfolds(t: string)
    requires !Numbered(t)
    ensures RFind(t, ANALYSIS_END).None? <==> !Contains(t, ANALYSIS_END)
    ensures RFind(t, ANALYSIS_END).None? ==> AfterScratchpad(t) == t
    ensures RFind(t, ANALYSIS_END).Some? ==>
      var pos := RFind(t, ANALYSIS_END).value; pos + 11 <= |t| && AfterScratchpad(t) == TrimStart(t[pos + 11..])
  {
    TagLengths();
    hide ANALYSIS_END, Contains, TrimStart, Numbered;
  }

  /** The text without the wrapper that opens it. */
  function Peeled(s: string): string {
    if SUMMARY <= s then TrimStart(s[9..]) else s
  }

  lemma LastClosing(draft: string, rest: string)
    requires !Contains(rest, ANALYSIS_END)
    ensures var t := draft + ANALYSIS_END + rest;
      RFind(t, ANALYSIS_END) == Some(|draft|) && t[|draft| + 11..] == rest
  {
    TagLengths();
    AnalysisTags();
    hide ANALYSIS_END, ANALYSIS, SUMMARY, SUMMARY_END, Contains, Tag;
    var t := draft + ANALYSIS_END + rest;
    SliceAt(draft, ANALYSIS_END, rest);
    forall i: nat | i > |draft| ensures !OccursAt(t, ANALYSIS_END, i) {
      if OccursAt(t, ANALYSIS_END, i) {
        TagsApart(t, ANALYSIS_END, |draft|, ANALYSIS_END, i);
        OccursBehind(t, ANALYSIS_END, i, |draft| + 11);
      }
    }
    LastIs(t, ANALYSIS_END, |draft|);
  }

  lemma TrimStartFree(s: string, t: string)
    ensures Contains(TrimStart(s), t) ==> Contains(s, t)
  {
    ContainsSuffix(s, t, |s| - |TrimStart(s)|);
  }

  lemma AfterLast(s: string)
    requires !Numbered(s)
    ensures !Contains(AfterScratchpad(s), ANALYSIS_END)
  {
    assert |ANALYSIS_END| == 11;
    hide ANALYSIS_END, Numbered;
    var found := RFind(s, ANALYSIS_END);
    if found.Some? {
      var n := found.value + |ANALYSIS_END|;
      TrimStartFree(s[n..], ANALYSIS_END);
      forall i | 0 <= i <= |s| - n ensures !OccursAt(s[n..], ANALYSIS_END, i) {
        OccursLater(s, ANALYSIS_END, n, n + i);
      }
    }
  }
}
