/** Where isolation of a proposal's edits ends: a refusal whose text is too long for
    the event fails the whole proposal; and when a title yields an entry id. */
module LedgerLimits {
  import opened Text
  import opened Decimals
  import opened Harness
  import opened Ledger
  import opened LedgerTheorems
  import opened LedgerRecords

  // ----- Derived ids -----

  predicate NoLetters(title: string) {
    forall i :: 0 <= i < |title| ==> !IsAsciiAlphanumeric(title[i])
  }

  predicate SlugChar(c: char) {
    IsAsciiLower(c) || IsDigit(c) || c == '-'
  }

  predicate SlugSoFar(slug: string) {
    (forall i :: 0 <= i < |slug| ==> SlugChar(slug[i])) && (slug != "" ==> IsAsciiAlphanumeric(slug[0]))
  }

  lemma LowerIsSlugChar(c: char)
    requires IsAsciiAlphanumeric(c)
    ensures SlugChar(Lower(c)) && IsAsciiAlphanumeric(Lower(c))
  {
  }

  lemma StepShape(slug: string, pending: bool, c: char)
    requires SlugSoFar(slug)
    ensures var next := SlugStep(slug, pending, c);
      && SlugSoFar(next) && |slug| <= |next| <= |slug| + 2
      && (next == "" <==> slug == "" && !IsAsciiAlphanumeric(c))
  {
    if IsAsciiAlphanumeric(c) {
      LowerIsSlugChar(c);
    }
  }

  lemma SlugIsAscii(slug: string)
    requires SlugSoFar(slug)
    ensures Utf8Len(slug) == |slug|
  {
    AsciiLen(slug);
  }

  lemma NoLettersStep(title: string)
    requires title != ""
    ensures NoLetters(title) <==> !IsAsciiAlphanumeric(title[0]) && NoLetters(title[1..])
  {
    hide IsAsciiAlphanumeric;
    assert forall i :: 0 < i < |title| ==> title[i] == title[1..][i - 1];
  }

  /** A slug holds id characters only and starts with a letter or digit. The loop stops
      once it has 128 bytes, but a separator and a character pushed together can make
      it 129. */
  lemma {:induction false} SlugShape(title: string, slug: string, pending: bool)
    requires SlugSoFar(slug) && |slug| < MAX_ENTRY_ID_BYTES
    ensures var r := Slug(title, slug, pending);
      && SlugSoFar(r) && |r| <= MAX_ENTRY_ID_BYTES + 1
      && (r == "" <==> slug == "" && NoLetters(title))
  {
    if title != "" {
      var next := SlugStep(slug, pending, title[0]);
      StepShape(slug, pending, title[0]);
      SlugIsAscii(next);
      NoLettersStep(title);
      hide NoLetters, SlugStep, SlugSoFar, IsAsciiAlphanumeric, Utf8Len;
      if Utf8Len(next) < MAX_ENTRY_ID_BYTES {
        SlugShape(title[1..], next, !IsAsciiAlphanumeric(title[0]));
      }
    }
  }

  // ----- The id of a title made of words -----

  predicate IsWord(w: string) {
    w != "" && AllLetters(w)
  }

  predicate AllLetters(w: string) {
    forall i :: 0 <= i < |w| ==> IsAsciiAlphanumeric(w[i])
  }

  predicate IsGap(g: string) {
    g != "" && NoLetters(g)
  }

  /** The word in lower case, character by character. */
  predicate Lowered(w: string, l: string) {
    |l| == |w| && forall i :: 0 <= i < |w| ==>
      if 'A' <= w[i] <= 'Z' then l[i] as int == w[i] as int + 32 else l[i] == w[i]
  }

  lemma LowerIsLowered(c: char)
    ensures if 'A' <= c <= 'Z' then Lower(c) as int == c as int + 32 else Lower(c) == c
  {
  }

  lemma SlugUnfolds(c: char, rest: string, slug: string, pending: bool)
    ensures var next := SlugStep(slug, pending, c);
      Slug([c] + rest, slug, pending) ==
        if Utf8Len(next) >= MAX_ENTRY_ID_BYTES then next else Slug(rest, next, !IsAsciiAlphanumeric(c))
  {
    hide SlugStep, Utf8Len, IsAsciiAlphanumeric;
    assert ([c] + rest)[0] == c && ([c] + rest)[1..] == rest;
  }

  lemma LetterStepIs(c: char, low: char, slug: string, pending: bool)
    requires IsAsciiAlphanumeric(c) && Lowered([c], [low])
    ensures SlugStep(slug, pending, c) == (if pending && slug != "" then slug + "-" else slug) + [low]
  {
    LowerIsLowered(c);
    assert [c][0] == c && [low][0] == low;
  }

  /** What one letter does to the slug. */
  lemma LetterStep(c: char, low: char, rest: string, slug: string, pending: bool)
    requires IsAsciiAlphanumeric(c) && Lowered([c], [low]) && SlugSoFar(slug)
    requires |slug| + 2 < MAX_ENTRY_ID_BYTES || (!pending && |slug| + 1 < MAX_ENTRY_ID_BYTES)
    ensures var next := (if pending && slug != "" then slug + "-" else slug) + [low];
      Slug([c] + rest, slug, pending) == Slug(rest, next, false) && SlugSoFar(next)
  {
    hide *;
    LetterStepIs(c, low, slug, pending);
    StepShape(slug, pending, c);
    SlugIsAscii(SlugStep(slug, pending, c));
    SlugUnfolds(c, rest, slug, pending);
  }

  lemma LoweredCons(w: string, l: string)
    requires Lowered(w, l) && w != ""
    ensures l != "" && Lowered([w[0]], [l[0]]) && Lowered(w[1..], l[1..]) && l == [l[0]] + l[1..] && w == [w[0]] + w[1..]
  {
  }

  lemma LettersCons(w: string)
    requires w != "" && AllLetters(w)
    ensures IsAsciiAlphanumeric(w[0]) && AllLetters(w[1..])
  {
  }

  /** The characters of a word are appended one by one. */
  lemma {:induction false} WordAppends(w: string, l: string, rest: string, slug: string)
    requires AllLetters(w) && Lowered(w, l) && SlugSoFar(slug) && |slug| + |w| < MAX_ENTRY_ID_BYTES
    ensures Slug(w + rest, slug, false) == Slug(rest, slug + l, false) && SlugSoFar(slug + l)
    decreases |w|
  {
    hide *;
    if w == "" {
      LoweredLength(w, l);
      assert w + rest == rest && slug + l == slug;
    } else {
      LoweredCons(w, l);
      LettersCons(w);
      ConsRest(w, rest);
      LetterStep(w[0], l[0], w[1..] + rest, slug, false);
      WordAppends(w[1..], l[1..], rest, slug + [l[0]]);
      ConsRest(l, "");
      assert (slug + [l[0]]) + l[1..] == slug + l;
    }
  }

  lemma ConsRest(w: string, rest: string)
    requires w != ""
    ensures w + rest == [w[0]] + (w[1..] + rest)
  {
  }

  lemma {:induction false} GapWaits(g: string, rest: string, slug: string, pending: bool)
    requires NoLetters(g) && SlugSoFar(slug) && |slug| < MAX_ENTRY_ID_BYTES
    ensures Slug(g + rest, slug, pending) == Slug(rest, slug, pending || g != "")
    decreases |g|
  {
    if g == "" {
      assert g + rest == rest;
    } else {
      SlugIsAscii(slug);
      assert (g + rest)[0] == g[0] && (g + rest)[1..] == g[1..] + rest;
      NoLettersStep(g);
      GapWaits(g[1..], rest, slug, true);
    }
  }

  /** A gap and a word append one separator and the word in lower case. */
  lemma NextWord(g: string, w: string, l: string, rest: string, slug: string)
    requires IsGap(g) && IsWord(w) && Lowered(w, l) && SlugSoFar(slug) && slug != ""
    requires |slug| + 1 + |w| < MAX_ENTRY_ID_BYTES
    ensures Slug(g + w + rest, slug, false) == Slug(rest, slug + "-" + l, false) && SlugSoFar(slug + "-" + l)
  {
    hide *;
    GapParts(g, w);
    GapWaits(g, w + rest, slug, false);
    LoweredCons(w, l);
    LettersCons(w);
    LetterStep(w[0], l[0], w[1..] + rest, slug, true);
    ConsRest(w, rest);
    WordAppends(w[1..], l[1..], rest, slug + "-" + [l[0]]);
    WordSeams(g, w, rest, slug, l);
  }

  lemma WordSeams(g: string, w: string, rest: string, slug: string, l: string)
    requires l != ""
    ensures g + w + rest == g + (w + rest) && (slug + "-" + [l[0]]) + l[1..] == slug + "-" + l
  {
  }

  lemma GapParts(g: string, w: string)
    requires IsGap(g) && IsWord(w)
    ensures g != "" && NoLetters(g) && w != "" && AllLetters(w)
  {
  }

  /** Words between gaps, and the same words in lower case between single dashes. */
  function Spaced(words: seq<string>, gaps: seq<string>): string
    requires |words| == |gaps|
  {
    if words == [] then "" else gaps[0] + words[0] + Spaced(words[1..], gaps[1..])
  }

  function Dashed(words: seq<string>): string {
    if words == [] then "" else "-" + words[0] + Dashed(words[1..])
  }

  lemma LoweredLength(w: string, l: string)
    requires Lowered(w, l)
    ensures |l| == |w|
  {
  }

  /** The id of a title is its words in lower case, joined by single dashes, whatever stands
      around and between them, as long as that has fewer than 128 characters. */
  lemma TitleIsDashed(lead: string, word: string, low: string, words: seq<string>, lowered: seq<string>,
                      gaps: seq<string>, tail: string)
    requires NoLetters(lead) && NoLetters(tail) && IsWord(word) && Lowered(word, low)
    requires WordsAndGaps(words, lowered, gaps) && |gaps| == |words|
    requires |low| + |Dashed(lowered)| < MAX_ENTRY_ID_BYTES
    ensures DeriveEntryId(lead + (word + Spaced(words, gaps)) + tail) == Ok(low + Dashed(lowered))
  {
    hide Slug, SlugSoFar, Lowered, IsAsciiAlphanumeric, AllLetters, IsGap, DeriveEntryId;
    var title := lead + (word + Spaced(words, gaps)) + tail;
    var rest := Spaced(words, gaps) + tail;
    assert title == lead + (word + rest);
    NothingSoFar();
    GapWaits(lead, word + rest, "", false);
    LoweredLength(word, low);
    FirstWord(word, low, rest, lead != "");
    WordsThenTail(words, lowered, gaps, low, tail);
    assert "" + "" == "";
    LetterInside(lead, word, Spaced(words, gaps), tail);
    DerivedIs(title);
  }

  lemma LetterInside(lead: string, word: string, rest: string, tail: string)
    requires IsWord(word)
    ensures !NoLetters(lead + (word + rest) + tail)
  {
    hide IsAsciiAlphanumeric;
    assert (lead + (word + rest) + tail)[|lead|] == word[0];
  }

  lemma DerivedIs(title: string)
    requires !NoLetters(title) && |Slug(title, "", false)| <= MAX_ENTRY_ID_BYTES
    ensures DeriveEntryId(title) == Ok(Slug(title, "", false))
  {
    hide Slug, NoLetters;
    DerivedIdIff(title);
  }

  lemma FirstWord(word: string, low: string, rest: string, pending: bool)
    requires IsWord(word) && Lowered(word, low) && |word| < MAX_ENTRY_ID_BYTES
    ensures Slug(word + rest, "", pending) == Slug(rest, low, false) && SlugSoFar(low) && low != ""
  {
    hide Slug, Lowered, IsAsciiAlphanumeric, AllLetters;
    NothingSoFar();
    hide SlugSoFar;
    LoweredCons(word, low);
    LettersCons(word);
    LetterStep(word[0], low[0], word[1..] + rest, "", pending);
    assert "" + [low[0]] == [low[0]];
    assert word + rest == [word[0]] + (word[1..] + rest);
    WordAppends(word[1..], low[1..], rest, [low[0]]);
  }

  lemma NothingSoFar()
    ensures SlugSoFar("")
  {
  }

  /** Words, their lower case, and the gap in front of each. */
  ghost predicate WordsAndGaps(words: seq<string>, lowered: seq<string>, gaps: seq<string>) {
    && |words| == |gaps| == |lowered|
    && forall i :: 0 <= i < |words| ==> IsWord(words[i]) && IsGap(gaps[i]) && Lowered(words[i], lowered[i])
  }

  lemma WordsStep(words: seq<string>, lowered: seq<string>, gaps: seq<string>, tail: string)
    requires WordsAndGaps(words, lowered, gaps) && words != []
    ensures |gaps| == |words| && |lowered| == |words| && WordsAndGaps(words[1..], lowered[1..], gaps[1..])
    ensures IsWord(words[0]) && IsGap(gaps[0]) && Lowered(words[0], lowered[0]) && |words[0]| == |lowered[0]|
    ensures Spaced(words, gaps) + tail == gaps[0] + words[0] + (Spaced(words[1..], gaps[1..]) + tail)
    ensures Dashed(lowered) == "-" + lowered[0] + Dashed(lowered[1..])
  {
    WordsParts(words, lowered, gaps);
    hide IsWord, IsGap, Lowered, WordsAndGaps;
    LoweredLength(words[0], lowered[0]);
    TailLast(gaps[0], words[0], Spaced(words[1..], gaps[1..]), tail);
  }

  lemma WordsParts(words: seq<string>, lowered: seq<string>, gaps: seq<string>)
    requires WordsAndGaps(words, lowered, gaps) && words != []
    ensures |gaps| == |words| && |lowered| == |words| && WordsAndGaps(words[1..], lowered[1..], gaps[1..])
    ensures IsWord(words[0]) && IsGap(gaps[0]) && Lowered(words[0], lowered[0])
  {
    hide IsWord, IsGap, Lowered;
  }

  lemma TailLast(a: string, b: string, c: string, d: string)
    ensures (a + b + c) + d == a + b + (c + d)
  {
  }

  lemma NoWords(words: seq<string>, lowered: seq<string>, gaps: seq<string>, tail: string)
    requires WordsAndGaps(words, lowered, gaps) && words == []
    ensures |gaps| == 0 && Spaced(words, gaps) + tail == tail && Dashed(lowered) == ""
  {
    assert "" + tail == tail;
  }

  lemma TailAdds(tail: string, slug: string)
    requires NoLetters(tail) && SlugSoFar(slug) && |slug| < MAX_ENTRY_ID_BYTES
    ensures Slug(tail, slug, false) == slug
  {
    assert tail + "" == tail;
    GapWaits(tail, "", slug, false);
  }

  lemma {:induction false} WordsThenTail(words: seq<string>, lowered: seq<string>, gaps: seq<string>, slug: string, tail: string)
    requires WordsAndGaps(words, lowered, gaps) && |gaps| == |words| && SlugSoFar(slug) && slug != "" && NoLetters(tail)
    requires |slug| + |Dashed(lowered)| < MAX_ENTRY_ID_BYTES
    ensures Slug(Spaced(words, gaps) + tail, slug, false) == slug + Dashed(lowered)
    decreases |words|
  {
    hide *;
    if words == [] {
      NoWords(words, lowered, gaps, tail);
      TailAdds(tail, slug);
      assert slug + "" == slug;
    } else {
      WordsStep(words, lowered, gaps, tail);
      var rest := Spaced(words[1..], gaps[1..]) + tail;
      NextWord(gaps[0], words[0], lowered[0], rest, slug);
      WordsThenTail(words[1..], lowered[1..], gaps[1..], slug + "-" + lowered[0], tail);
      assert (slug + "-" + lowered[0]) + Dashed(lowered[1..]) == slug + ("-" + lowered[0] + Dashed(lowered[1..]));
    }
  }

  /** A title yields an id exactly when it has an ASCII letter or digit and its slug did
      not overrun by the one byte it can. */
  lemma DerivedIdIff(title: string)
    ensures DeriveEntryId(title).Ok? <==> !NoLetters(title) && |Slug(title, "", false)| <= MAX_ENTRY_ID_BYTES
  {
    hide Slug;
    var slug := Slug(title, "", false);
    SlugShape(title, "", false);
    AsciiLen(slug);
    assert forall c :: c in slug ==> SlugChar(c);
  }

  // ----- Long refusals -----

  /** One refusal whose text exceeds the event's bound fails the whole proposal: then
      no edit of it is applied. */
  lemma LongRefusalFailsAll(env: Env, s: State, p: Proposal, i: nat, source: string, evidence: seq<EvidenceRef>, now: u64)
    requires ValidState(s) && i < |p.edits|
    requires var r := EditResult(RunEdits(env, s.entries, p.edits[..i], source, now).entries, p.edits[i], source, now);
      r.Err? && Utf8Len(env.display(r.error)) > MAX_REFINEMENT_TEXT_BYTES
    ensures Apply(env, s, p, source, evidence, now).Err?
  {
    hide EditResult, RunEdits, Apply, ValidState, ValidateProposal, Commits, LoopSound, Blank;
    var g := RunEdits(env, s.entries, p.edits, source, now);
    EditIsRecorded(env, s.entries, p.edits, i, source, now);
    ApplyExactly(env, s, p, source, evidence, now, g, Apply(env, s, p, source, evidence, now));
  }

  // ----- What a refused edit's text can repeat -----

  /** Bytes a title or an argument name may have before the text around it overruns. */
  const TITLE_ROOM := 4021
  const NAME_ROOM := 4030

  /** The title of a create edit that names no entry and cannot be given an id. */
  function UnnamedTitle(e: Edit): Option<string> {
    if e.action.Create? && e.id.None? && e.title.Some? && DeriveEntryId(e.title.value).Err? then e.title else None
  }

  /** The name at which checking a skill's arguments stops. */
  function StoppingName(arguments: seq<(string, string)>): Option<string> {
    if arguments == [] then None
    else if !IsArgumentName(arguments[0].0) then Some(arguments[0].0)
    else if !GoodText(arguments[0].1, MAX_SKILL_ARGUMENT_DOC_BYTES, true) then None
    else StoppingName(arguments[1..])
  }

  /** The argument name an entry is refused for: everything checked earlier is sound. */
  function RefusedName(e: Entry): Option<string> {
    if && GoodText(e.title, MAX_ENTRY_TITLE_BYTES, true) && GoodText(e.content, MAX_ENTRY_CONTENT_BYTES, true)
       && GoodText(e.source, MAX_ENTRY_SOURCE_BYTES, true) && e.kind.Skill? && e.skill.Some?
       && GoodText(e.skill.value.invocation, MAX_SKILL_INVOCATION_BYTES, true)
       && |e.skill.value.arguments| <= MAX_SKILL_ARGUMENTS
    then StoppingName(e.skill.value.arguments) else None
  }

  /** The entry an edit goes on to validate, once its target is settled. */
  function Written(m: Entries, e: Edit, source: string, now: u64): Option<Entry> {
    var id := EntryIdOf(e);
    if id.Err? || e.action.Delete? then None
    else if e.action.Create? then
      if id.value in m then None else Some(Created(id.value, e, source, now))
    else if id.value in m && CheckPreconditions(e, m[id.value]).Ok? && m[id.value].version < U64_MAX then
      Some(Updated(m[id.value], e, source, now))
    else None
  }

  function WrittenName(m: Entries, e: Edit, source: string, now: u64): Option<string> {
    var w := Written(m, e, source, now);
    if w.Some? then RefusedName(w.value) else None
  }

  /** The edit is refused over a title or an argument name that does not fit the event. */
  predicate Overruns(m: Entries, e: Edit, source: string, now: u64) {
    || (UnnamedTitle(e).Some? && Utf8Len(UnnamedTitle(e).value) > TITLE_ROOM)
    || (WrittenName(m, e, source, now).Some? && Utf8Len(WrittenName(m, e, source, now).value) > NAME_ROOM)
  }

  // ----- Every other refusal is short -----

  /** The error repeats nothing but entry ids and numbers. */
  predicate Plain(e: Error) {
    e.Invalid? ==>
      match e.reason
      case TextBounds(_, maximum) => maximum <= U64_MAX
      case ArgumentCount(count) => count <= U64_MAX
      case BadEntryId(id) => |id| <= MAX_ENTRY_ID_BYTES
      case AlreadyExists(id) => |id| <= MAX_ENTRY_ID_BYTES
      case DoesNotExist(id) => |id| <= MAX_ENTRY_ID_BYTES
      case WrongKind(id, _, _) => |id| <= MAX_ENTRY_ID_BYTES
      case VersionMoved(id, _, _) => |id| <= MAX_ENTRY_ID_BYTES
      case Underivable(_) => false
      case BadArgumentName(_) => false
      case _ => true
  }

  lemma NamesAreShort(k: EntryKind, f: Field)
    ensures |KindText(k)| <= 8 && |FieldText(f)| <= 28
  {
  }

  lemma BadIdReason(r: Reason)
    requires r.BadEntryId? && |r.id| <= MAX_ENTRY_ID_BYTES
    ensures |ReasonText(r)| <= 400
  {
  }

  lemma ExistsReason(r: Reason)
    requires r.AlreadyExists? && |r.id| <= MAX_ENTRY_ID_BYTES
    ensures |ReasonText(r)| <= 400
  {
  }

  lemma MissingReason(r: Reason)
    requires r.DoesNotExist? && |r.id| <= MAX_ENTRY_ID_BYTES
    ensures |ReasonText(r)| <= 400
  {
  }

  lemma KindReason(r: Reason)
    requires r.WrongKind? && |r.id| <= MAX_ENTRY_ID_BYTES
    ensures |ReasonText(r)| <= 400
  {
    hide KindText;
    NamesAreShort(r.actual, EntryTitle);
    NamesAreShort(r.expected, EntryTitle);
  }

  lemma VersionReason(r: Reason)
    requires r.VersionMoved? && |r.id| <= MAX_ENTRY_ID_BYTES
    ensures |ReasonText(r)| <= 400
  {
    hide Decimal;
    WordDigits(r.planned);
    WordDigits(r.found);
  }

  lemma FieldReason(r: Reason)
    requires r.TextBounds? || r.HasMarkers?
    requires r.TextBounds? ==> r.maximum <= U64_MAX
    ensures |ReasonText(r)| <= 400
  {
    hide Decimal, FieldText;
    NamesAreShort(Prompt, r.field);
    if r.TextBounds? {
      WordDigits(r.maximum);
    }
  }

  lemma SkillReason(r: Reason)
    requires r.ArgumentCount? || r.StraySkill?
    requires r.ArgumentCount? ==> r.count <= U64_MAX
    ensures |ReasonText(r)| <= 400
  {
    hide Decimal, KindText;
    if r.ArgumentCount? {
      WordDigits(r.count);
    } else {
      NamesAreShort(r.kind, EntryTitle);
    }
  }

  lemma PlainReason(r: Reason)
    requires Plain(Invalid(r))
    ensures |ReasonText(r)| <= 400
  {
    if r.AlreadyExists? {
      ExistsReason(r);
    } else if r.DoesNotExist? {
      MissingReason(r);
    } else if r.BadEntryId? {
      BadIdReason(r);
    } else if r.WrongKind? {
      KindReason(r);
    } else if r.VersionMoved? {
      VersionReason(r);
    } else if r.TextBounds? || r.HasMarkers? {
      FieldReason(r);
    } else if r.ArgumentCount? || r.StraySkill? {
      SkillReason(r);
    } else {
      hide Plain;
      assert ReasonText(r) == FixedText(r);
    }
  }

  lemma NotBlank(s: string)
    requires s != "" && !IsWhitespace(s[0])
    ensures !Blank(s)
  {
  }

  lemma PlainFits(e: Error)
    requires Plain(e)
    ensures GoodText(Display(e), MAX_REFINEMENT_TEXT_BYTES, false)
  {
    if e.Invalid? {
      PlainReason(e.reason);
    }
    hide ReasonText;
    NotBlank(Display(e));
    Utf8LenBound(Display(e));
  }

  /** A text between two ASCII ones takes its own bytes and theirs. */
  lemma FramedBytes(a: string, b: string, c: string)
    requires (forall i :: 0 <= i < |a| ==> a[i] < '\U{80}') && (forall i :: 0 <= i < |c| ==> c[i] < '\U{80}')
    ensures Utf8Len(a + b + c) == |a| + Utf8Len(b) + |c|
  {
    AsciiLen(a);
    AsciiLen(c);
    Utf8LenConcat(a + b, c);
    Utf8LenConcat(a, b);
  }

  lemma TitleText(title: string)
    ensures !Blank(Display(Invalid(Underivable(title))))
    ensures Utf8Len(Display(Invalid(Underivable(title)))) == Utf8Len(title) + (MAX_REFINEMENT_TEXT_BYTES - TITLE_ROOM)
  {
    hide Utf8Len;
    var a, c := "invalid harness evolution contract: " + "cannot derive an entry ID from title '", "'";
    assert Display(Invalid(Underivable(title))) == a + title + c;
    FramedBytes(a, title, c);
    NotBlank(a + title + c);
  }

  lemma NameText(name: string)
    ensures !Blank(Display(Invalid(BadArgumentName(name))))
    ensures Utf8Len(Display(Invalid(BadArgumentName(name)))) == Utf8Len(name) + (MAX_REFINEMENT_TEXT_BYTES - NAME_ROOM)
  {
    hide Utf8Len;
    var a, c := "invalid harness evolution contract: " + "invalid skill argument name '", "'";
    assert Display(Invalid(BadArgumentName(name))) == a + name + c;
    FramedBytes(a, name, c);
    NotBlank(a + name + c);
  }

  // ----- Which refusal an edit meets -----

  lemma {:induction false} ArgumentsStop(arguments: seq<(string, string)>)
    ensures var r, name := CheckAll(arguments, ValidateArgument), StoppingName(arguments);
      && (name.Some? ==> r == Err(Invalid(BadArgumentName(name.value))))
      && (name.None? && r.Err? ==> Plain(r.error))
  {
    hide GoodText, IsArgumentName;
    if arguments != [] {
      ArgumentsStop(arguments[1..]);
    }
  }

  lemma SkillStops(s: SkillContract)
    ensures var r := ValidateSkill(s);
      if GoodText(s.invocation, MAX_SKILL_INVOCATION_BYTES, true) && |s.arguments| <= MAX_SKILL_ARGUMENTS
         && StoppingName(s.arguments).Some?
      then r == Err(Invalid(BadArgumentName(StoppingName(s.arguments).value)))
      else r.Err? ==> Plain(r.error)
  {
    hide GoodText, StoppingName;
    ArgumentsStop(s.arguments);
  }

  lemma EntryStops(e: Entry)
    requires IsEntryId(e.id)
    ensures var r, name := ValidateEntry(e), RefusedName(e);
      if name.Some? then r == Err(Invalid(BadArgumentName(name.value))) else r.Err? ==> Plain(r.error)
  {
    hide GoodText, StoppingName, ValidateSkill, IsEntryId;
    if e.skill.Some? {
      SkillStops(e.skill.value);
    }
  }

  lemma DerivedIsId(e: Edit)
    requires ValidateEdit(e).Ok?
    ensures EntryIdOf(e).Ok? ==> IsEntryId(EntryIdOf(e).value) && |EntryIdOf(e).value| <= MAX_ENTRY_ID_BYTES
    ensures EntryIdOf(e).Err? ==>
      UnnamedTitle(e).Some? && EntryIdOf(e) == Err(Invalid(Underivable(UnnamedTitle(e).value)))
    ensures UnnamedTitle(e).Some? ==> EntryIdOf(e).Err?
  {
    hide Slug, GoodText;
  }

  lemma CreateStops(m: Entries, id: string, entry: Entry)
    requires IsEntryId(id) && entry.id == id
    ensures var r := CreateResult(m, id, entry);
      if id !in m && RefusedName(entry).Some? then r == Err(Invalid(BadArgumentName(RefusedName(entry).value)))
      else r.Err? ==> Plain(r.error)
  {
    hide ValidateEntry, RefusedName, FitsBudgets;
    EntryStops(entry);
  }

  lemma ReplaceStops(m: Entries, id: string, updated: Entry)
    requires id in m && IsEntryId(updated.id)
    ensures var r := ReplaceResult(m, id, updated);
      if RefusedName(updated).Some? then r == Err(Invalid(BadArgumentName(RefusedName(updated).value)))
      else r.Err? ==> Plain(r.error)
  {
    hide ValidateEntry, RefusedName, FitsBudgets;
    EntryStops(updated);
  }

  lemma UpdateStops(m: Entries, id: string, e: Edit, source: string, now: u64)
    requires EntriesFiled(m) && |id| <= MAX_ENTRY_ID_BYTES
    ensures var r := UpdateResult(m, id, e, source, now);
      if id in m && CheckPreconditions(e, m[id]).Ok? && m[id].version < U64_MAX
         && RefusedName(Updated(m[id], e, source, now)).Some?
      then r == Err(Invalid(BadArgumentName(RefusedName(Updated(m[id], e, source, now)).value)))
      else r.Err? ==> Plain(r.error)
  {
    hide RefusedName, ReplaceResult, EntriesFiled, IsEntryId;
    if id in m {
      FiledId(m, id);
      if m[id].version < U64_MAX {
        ReplaceStops(m, id, Updated(m[id], e, source, now));
      }
    }
  }

  lemma DeleteStops(m: Entries, id: string, e: Edit)
    requires EntriesFiled(m) && |id| <= MAX_ENTRY_ID_BYTES
    ensures DeleteResult(m, id, e).Err? ==> Plain(DeleteResult(m, id, e).error)
  {
    hide EntriesFiled, IsEntryId;
    if id in m {
      FiledId(m, id);
    }
  }

  lemma FiledId(m: Entries, id: string)
    requires EntriesFiled(m) && id in m
    ensures m[id].id == id && IsEntryId(m[id].id) && |m[id].id| <= MAX_ENTRY_ID_BYTES
  {
    assert EntryFiled(m, id);
    ValidEntryHasId(m[id]);
  }

  /** An edit is refused with its title, or with an argument name, exactly in these two
      cases; every other refusal is plain. */
  lemma EditStops(m: Entries, e: Edit, source: string, now: u64)
    requires EntriesFiled(m) && ValidateEdit(e).Ok?
    ensures var r := EditResult(m, e, source, now);
      if UnnamedTitle(e).Some? then
        r == Err(Invalid(Underivable(UnnamedTitle(e).value))) && WrittenName(m, e, source, now).None?
      else if WrittenName(m, e, source, now).Some? then
        r == Err(Invalid(BadArgumentName(WrittenName(m, e, source, now).value)))
      else r.Err? ==> Plain(r.error)
  {
    DerivedIsId(e);
    hide ValidateEdit, UnnamedTitle, RefusedName, CreateResult, UpdateResult, DeleteResult, EntriesFiled, IsEntryId,
         CheckPreconditions, EntryIdOf, Updated, Plain;
    if EntryIdOf(e).Ok? {
      var id := EntryIdOf(e).value;
      match e.action {
        case Create => CreateStops(m, id, Created(id, e, source, now));
        case Update => UpdateStops(m, id, e, source, now);
        case Delete => DeleteStops(m, id, e);
      }
    }
  }

  /** A refusal is too long for the event exactly when the edit overruns. */
  lemma OverrunIff(m: Entries, e: Edit, source: string, now: u64)
    requires EntriesFiled(m) && ValidateEdit(e).Ok?
    ensures var r := EditResult(m, e, source, now);
      Overruns(m, e, source, now) <==> r.Err? && !GoodText(Display(r.error), MAX_REFINEMENT_TEXT_BYTES, false)
  {
    EditStops(m, e, source, now);
    var r := EditResult(m, e, source, now);
    if r.Err? && Plain(r.error) {
      PlainFits(r.error);
    }
    if UnnamedTitle(e).Some? {
      TitleText(UnnamedTitle(e).value);
    } else if WrittenName(m, e, source, now).Some? {
      NameText(WrittenName(m, e, source, now).value);
    }
    hide UnnamedTitle, WrittenName, EditResult, Display, GoodText;
  }

  // ----- Isolation, exactly -----

  /** No edit overruns on the map it meets. */
  ghost predicate NoneOverruns(env: Env, m: Entries, edits: seq<Edit>, source: string, now: u64) {
    forall i :: 0 <= i < |edits| ==> !Overruns(RunEdits(env, m, edits[..i], source, now).entries, edits[i], source, now)
  }

  lemma NoneOverrunsStep(env: Env, m: Entries, edits: seq<Edit>, source: string, now: u64)
    requires edits != []
    ensures var last := |edits| - 1;
      NoneOverruns(env, m, edits, source, now) <==>
        && NoneOverruns(env, m, edits[..last], source, now)
        && !Overruns(RunEdits(env, m, edits[..last], source, now).entries, edits[last], source, now)
  {
    hide RunEdits, Overruns;
    var last := |edits| - 1;
    assert forall i :: 0 <= i < last ==> edits[..last][..i] == edits[..i] && edits[..last][i] == edits[i];
  }

  lemma FitMore(rejected: seq<RejectedEdit>, r: RejectedEdit)
    ensures RefusalsFit(rejected + [r]) <==> RefusalsFit(rejected) && GoodText(r.error, MAX_REFINEMENT_TEXT_BYTES, false)
  {
    hide GoodText;
    assert forall x :: x in rejected + [r] <==> x in rejected || x == r;
  }

  lemma {:induction false} RefusalsFitIff(env: Env, m: Entries, edits: seq<Edit>, source: string, now: u64)
    requires Sound(m) && env.display == Display && forall e :: e in edits ==> ValidateEdit(e).Ok?
    ensures RefusalsFit(RunEdits(env, m, edits, source, now).rejected) <==> NoneOverruns(env, m, edits, source, now)
    decreases |edits|
  {
    if edits != [] {
      var last := |edits| - 1;
      var p := RunEdits(env, m, edits[..last], source, now);
      var r := EditResult(p.entries, edits[last], source, now);
      EditLoopIsSound(env, m, edits[..last], source, now);
      RefusalsFitIff(env, m, edits[..last], source, now);
      OverrunIff(p.entries, edits[last], source, now);
      NoneOverrunsStep(env, m, edits, source, now);
      hide EditResult, Overruns, NoneOverruns, RefusalsFit, GoodText, AfterEdit, ValidateEdit, Display;
      if r.Err? {
        FitMore(p.rejected, RejectedEdit(last, edits[last].id, env.display(r.error)));
      }
    }
  }

  lemma ProposalEdits(p: Proposal)
    requires ValidateProposal(p).Ok?
    ensures forall e :: e in p.edits ==> ValidateEdit(e).Ok?
  {
    hide GoodText, ValidateEdit;
  }

  /** When the deployed ledger isolates refusals: on a valid ledger a valid proposal is
      applied, whatever becomes of its edits, exactly when none of them overruns. */
  lemma IsolationIff(env: Env, s: State, p: Proposal, source: string, evidence: seq<EvidenceRef>, now: u64)
    requires ValidState(s) && env.display == Display
    ensures Apply(env, s, p, source, evidence, now).Ok? <==>
      && ValidateProposal(p).Ok? && GoodText(source, MAX_ENTRY_SOURCE_BYTES, true)
      && s.revision < U64_MAX && |evidence| <= MAX_EVIDENCE_REFS
      && NoneOverruns(env, s.entries, p.edits, source, now)
  {
    ValidParts(s);
    hide RunEdits, Apply, ValidState, ValidateProposal, Commits, LoopSound, GoodText, NoneOverruns, RefusalsFit,
         ValidateEdit, Sound;
    var g := RunEdits(env, s.entries, p.edits, source, now);
    ApplyExactly(env, s, p, source, evidence, now, g, Apply(env, s, p, source, evidence, now));
    if ValidateProposal(p).Ok? {
      ProposalEdits(p);
      RefusalsFitIff(env, s.entries, p.edits, source, now);
    }
  }

  /** What a caller can check on the proposal alone: every title that has to yield an id
      does, or has room in the refusal, and so has every argument name. */
  predicate Roomy(e: Edit) {
    && (UnnamedTitle(e).Some? ==> Utf8Len(UnnamedTitle(e).value) <= TITLE_ROOM)
    && (e.skill.Some? ==> forall a :: a in e.skill.value.arguments ==> Utf8Len(a.0) <= NAME_ROOM)
  }

  lemma {:induction false} StoppingIsArgument(arguments: seq<(string, string)>)
    ensures StoppingName(arguments).Some? ==> exists a :: a in arguments && StoppingName(arguments) == Some(a.0)
  {
    if arguments != [] {
      StoppingIsArgument(arguments[1..]);
    }
  }

  lemma SoundEntryStops(e: Entry)
    requires ValidateEntry(e).Ok? && e.skill.Some? && e.kind.Skill?
    ensures StoppingName(e.skill.value.arguments).None?
  {
    hide GoodText, StoppingName;
    ArgumentsStop(e.skill.value.arguments);
  }

  lemma RoomyFits(m: Entries, e: Edit, source: string, now: u64)
    requires EntriesFiled(m) && ValidateEdit(e).Ok? && Roomy(e)
    ensures !Overruns(m, e, source, now)
  {
    hide GoodText, EntryIdOf, IsArgumentName, UnnamedTitle, ValidateEdit, CheckPreconditions;
    if e.skill.Some? {
      StoppingIsArgument(e.skill.value.arguments);
    } else if Written(m, e, source, now).Some? && e.action.Update? {
      var id := EntryIdOf(e).value;
      assert EntryFiled(m, id);
      if m[id].skill.Some? && m[id].kind.Skill? {
        SoundEntryStops(m[id]);
      }
    }
    hide StoppingName;
  }

  /** Such a proposal is isolated on every ledger. */
  lemma RoomyProposalIsIsolated(env: Env, s: State, p: Proposal, source: string, evidence: seq<EvidenceRef>, now: u64)
    requires ValidState(s) && env.display == Display
    requires ValidateProposal(p).Ok? && GoodText(source, MAX_ENTRY_SOURCE_BYTES, true)
    requires s.revision < U64_MAX && |evidence| <= MAX_EVIDENCE_REFS
    requires forall e :: e in p.edits ==> Roomy(e)
    ensures Apply(env, s, p, source, evidence, now).Ok?
  {
    ValidParts(s);
    hide Apply, ValidState, ValidateProposal, GoodText, RefusalsFit, ValidateEdit, Roomy, Overruns, RunEdits;
    ProposalEdits(p);
    IsolationIff(env, s, p, source, evidence, now);
    forall i | 0 <= i < |p.edits|
      ensures !Overruns(RunEdits(env, s.entries, p.edits[..i], source, now).entries, p.edits[i], source, now)
    {
      EditLoopIsSound(env, s.entries, p.edits[..i], source, now);
      RoomyFits(RunEdits(env, s.entries, p.edits[..i], source, now).entries, p.edits[i], source, now);
    }
  }

  /** One create edit whose title yields no id and is longer than the room for it makes
      the deployed ledger refuse every other edit that travels with it, on any ledger. */
  lemma LongTitleFailsAll(env: Env, s: State, p: Proposal, i: nat, source: string, evidence: seq<EvidenceRef>, now: u64)
    requires ValidState(s) && i < |p.edits| && env.display == Display
    requires UnnamedTitle(p.edits[i]).Some? && Utf8Len(UnnamedTitle(p.edits[i]).value) > TITLE_ROOM
    ensures Apply(env, s, p, source, evidence, now).Err?
  {
    hide Apply, ValidState, ValidateProposal, GoodText, RunEdits;
    IsolationIff(env, s, p, source, evidence, now);
    assert Overruns(RunEdits(env, s.entries, p.edits[..i], source, now).entries, p.edits[i], source, now);
  }

  /** So does one edit that is refused over an argument name longer than its room. */
  lemma LongNameFailsAll(env: Env, s: State, p: Proposal, i: nat, name: string, source: string,
                         evidence: seq<EvidenceRef>, now: u64)
    requires ValidState(s) && i < |p.edits| && env.display == Display
    requires EditResult(RunEdits(env, s.entries, p.edits[..i], source, now).entries, p.edits[i], source, now)
      == Err(Invalid(BadArgumentName(name)))
    requires Utf8Len(name) > NAME_ROOM
    ensures Apply(env, s, p, source, evidence, now).Err?
  {
    hide EditResult, RunEdits, Apply, ValidState, Display;
    NameText(name);
    LongRefusalFailsAll(env, s, p, i, source, evidence, now);
  }

  /** Such a name is reached at once by a first edit that creates a sound skill entry
      under a fresh id. */
  lemma LongNameIsReached(env: Env, s: State, p: Proposal, id: string, title: string, content: string,
                          invocation: string, name: string, doc: string, source: string,
                          evidence: seq<EvidenceRef>, now: u64)
    requires ValidState(s) && p.edits != [] && env.display == Display
    requires var e := p.edits[0];
      && e.action.Create? && e.kind.Skill? && e.id == Some(id) && id !in s.entries
      && e.title == Some(title) && GoodText(title, MAX_ENTRY_TITLE_BYTES, true)
      && e.content == Some(content) && GoodText(content, MAX_ENTRY_CONTENT_BYTES, true)
      && e.skill == Some(OneArgument(invocation, name, doc)) && GoodText(invocation, MAX_SKILL_INVOCATION_BYTES, true)
    requires Utf8Len(name) > NAME_ROOM
    ensures Apply(env, s, p, source, evidence, now).Err?
  {
    hide Apply, ValidState, ValidateProposal, GoodText;
    IsolationIff(env, s, p, source, evidence, now);
    assert p.edits[..0] == [];
    assert RunEdits(env, s.entries, [], source, now).entries == s.entries;
    if GoodText(source, MAX_ENTRY_SOURCE_BYTES, true) {
      assert WrittenName(s.entries, p.edits[0], source, now) == Some(name);
      assert Overruns(RunEdits(env, s.entries, p.edits[..0], source, now).entries, p.edits[0], source, now);
    }
  }

  function OneArgument(invocation: string, name: string, doc: string): SkillContract {
    SkillContract(invocation, [(name, doc)])
  }
}
