/** The rendered section carries exactly one pair of markers, so stripping undoes
    appending, and evolving a prompt reaches a fixpoint after one step. */
module SupplementTheorems {
  import opened Text
  import opened Decimals
  import opened StringOrder
  import opened Harness
  import opened Supplement
  import Snapshots

  // ----- Texts that keep markers apart -----

  /** Covers every character of the two markers. */
  predicate MarkerChar(c: char) {
    c == '<' || c == '/' || c == '>' || c == '_' || IsAsciiLower(c)
  }

  lemma MarkerAlphabet(c: char)
    ensures c in BEGIN || c in END ==> MarkerChar(c)
  {
  }

  predicate Seam(a: string, b: string)
    requires a != "" && b != ""
  {
    !MarkerChar(a[|a| - 1]) || !MarkerChar(b[0])
  }

  predicate Piece(s: string) {
    s != "" && MarkerFree(s)
  }

  /** Literal text of a template: marker-free, and neither end can be part of a marker. */
  predicate Hard(s: string) {
    s != "" && !MarkerChar(s[0]) && !MarkerChar(s[|s| - 1]) && '<' !in s
  }

  lemma NoBracket(s: string)
    requires '<' !in s
    ensures MarkerFree(s)
  {
    MissingChar(s, BEGIN, 0);
    MissingChar(s, END, 0);
  }

  lemma Glue(a: string, b: string)
    requires a != "" && b != "" && Seam(a, b)
    ensures Contains(a + b, BEGIN) <==> Contains(a, BEGIN) || Contains(b, BEGIN)
    ensures Contains(a + b, END) <==> Contains(a, END) || Contains(b, END)
  {
    MarkerAlphabet(a[|a| - 1]);
    MarkerAlphabet(b[0]);
    JoinContains(a, b, BEGIN);
    JoinContains(a, b, END);
  }

  ghost predicate Pieces(p: seq<string>) {
    forall i :: 0 <= i < |p| ==> Piece(p[i])
  }

  ghost predicate Seams(p: seq<string>)
    requires Pieces(p)
  {
    forall i :: 0 < i < |p| ==> Seam(p[i - 1], p[i])
  }

  /** Marker-free pieces that stay marker-free when glued to each other and to
      other blocks. */
  ghost predicate Block(p: seq<string>) {
    && Pieces(p) && Seams(p)
    && (p != [] ==> !MarkerChar(p[0][0]) && !MarkerChar(p[|p| - 1][|p[|p| - 1]| - 1]))
  }

  lemma BlockConcat(a: seq<string>, b: seq<string>)
    requires Block(a) && Block(b)
    ensures Block(a + b)
  {
    var p := a + b;
    assert Pieces(p);
    forall i | 0 < i < |p| ensures Seam(p[i - 1], p[i]) {
      if i < |a| {
        assert Seam(a[i - 1], a[i]);
      } else if i > |a| {
        assert Seam(b[i - |a| - 1], b[i - |a|]);
      }
    }
  }

  /** One value between two literals. */
  lemma Slot(open: string, value: string, close: string)
    requires Hard(open) && Hard(close) && Piece(value)
    ensures Block([open, value, close])
  {
    NoBracket(open);
    NoBracket(close);
    var p := [open, value, close];
    assert Pieces(p);
  }

  lemma {:induction false} FlatBlock(p: seq<string>)
    requires Block(p) && p != []
    ensures var t := Flat(p); Piece(t) && t[0] == p[0][0] && t[|t| - 1] == p[|p| - 1][|p[|p| - 1]| - 1]
  {
    FlatPieces(p);
  }

  lemma {:induction false} FlatPieces(p: seq<string>)
    requires Pieces(p) && Seams(p) && p != []
    ensures var t := Flat(p); Piece(t) && t[0] == p[0][0] && t[|t| - 1] == p[|p| - 1][|p[|p| - 1]| - 1]
  {
    assert Piece(p[0]);
    if |p| == 1 {
      assert Flat(p) == p[0];
    } else {
      var rest := p[1..];
      assert Seams(rest) by {
        forall i | 0 < i < |rest| ensures Seam(rest[i - 1], rest[i]) { assert Seam(p[i], p[i + 1]); }
      }
      FlatPieces(rest);
      assert Seam(p[0], p[1]);
      Glue(p[0], Flat(rest));
    }
  }

  // ----- Every line of the section is a block -----

  lemma NonBlank(s: string)
    requires !Blank(s)
    ensures s != ""
  {
  }

  lemma DecimalPiece(word: string, n: nat)
    requires word != "" && '<' !in word
    ensures Piece(word + Decimal(n))
  {
    NoBracket(word + Decimal(n));
  }

  lemma ArgumentBlock(a: (string, string))
    requires ValidateArgument(a).Ok?
    ensures Block(ArgumentLine(a))
  {
    hide Blank, Utf8Len, MarkerFree;
    NonBlank(a.1);
    assert '<' !in a.0 by { assert !IsAsciiAlphanumeric('<'); }
    NoBracket(a.0);
    Slot("- `", a.0, "`");
    Slot(": ", a.1, "\n");
    BlockConcat(["- `", a.0, "`"], [": ", a.1, "\n"]);
  }

  lemma {:induction false} ArgumentsBlock(arguments: seq<(string, string)>)
    requires forall a :: a in arguments ==> ValidateArgument(a).Ok?
    ensures Block(ArgumentPieces(arguments))
  {
    hide ValidateArgument, ArgumentLine;
    if arguments != [] {
      ArgumentBlock(arguments[0]);
      ArgumentsBlock(arguments[1..]);
      BlockConcat(ArgumentLine(arguments[0]), ArgumentPieces(arguments[1..]));
    }
  }

  lemma SkillBlock(e: Entry)
    requires ValidateEntrySkill(e).Ok?
    ensures Block(SkillPieces(e.skill))
  {
    hide ValidateArgument, Blank, Utf8Len, MarkerFree;
    if e.skill.Some? {
      var s := e.skill.value;
      NonBlank(s.invocation);
      Slot("Invocation: `", s.invocation, "`\n");
      ArgumentsBlock(s.arguments);
      BlockConcat(["Invocation: `", s.invocation, "`\n"], ArgumentPieces(s.arguments));
    }
  }

  lemma EntryBlock(f: Filed)
    requires ValidateEntry(f.entry).Ok? && (f.origin == "global" || f.origin == "session")
    ensures Block(EntryPieces(f))
  {
    hide Blank, Utf8Len, MarkerFree, ValidateEntrySkill, SkillPieces, Decimal, Block;
    var e := f.entry;
    NonBlank(e.title);
    NonBlank(e.content);
    assert '<' !in e.id by { assert !IsAsciiLower('<') && !IsDigit('<'); }
    NoBracket(e.id);
    NoBracket(f.origin);
    DecimalPiece("v", e.version);
    var a, b, c, d, t := ["\n### ", e.title, " "], ["(", f.origin, " "], ["\U{B7} ", e.id, " "],
                         ["\U{B7} ", "v" + Decimal(e.version), ")"], ["\n", e.content, "\n"];
    Slot("\n### ", e.title, " ");
    Slot("(", f.origin, " ");
    Slot("\U{B7} ", e.id, " ");
    Slot("\U{B7} ", "v" + Decimal(e.version), ")");
    Slot("\n", e.content, "\n");
    BlockConcat(a, b);
    BlockConcat(a + b, c);
    BlockConcat(a + b + c, d);
    BlockConcat(a + b + c + d, t);
    SkillBlock(e);
    BlockConcat(EntryLines(f), SkillPieces(e.skill));
  }

  ghost predicate GoodView(view: seq<Filed>) {
    forall f :: f in view ==> ValidateEntry(f.entry).Ok? && (f.origin == "global" || f.origin == "session")
  }

  lemma {:induction false} EntriesBlock(section: seq<Filed>)
    requires GoodView(section)
    ensures Block(AllEntryPieces(section))
  {
    hide ValidateEntry, EntryPieces, Block;
    if section == [] {
      EmptyBlock();
    } else {
      EntryBlock(section[0]);
      EntriesBlock(section[1..]);
      BlockConcat(EntryPieces(section[0]), AllEntryPieces(section[1..]));
    }
  }

  lemma EmptyBlock()
    ensures Block([])
  {
  }

  lemma HeadingBlock(text: string)
    requires text != "" && '<' !in text
    ensures Block(SectionHeading(text))
  {
    NoBracket(text);
    Slot("\n## ", text, "\n");
  }

  lemma {:induction false} KindsBlock(view: seq<Filed>, kinds: seq<EntryKind>)
    requires GoodView(view)
    ensures Block(KindsPieces(view, kinds))
  {
    hide ValidateEntry, AllEntryPieces, Block, SectionHeading;
    if kinds == [] {
      EmptyBlock();
    } else {
      var section := OfKind(view, kinds[0]);
      HeadingBlock(KindHeading(kinds[0]));
      EntriesBlock(section);
      BlockConcat(SectionHeading(KindHeading(kinds[0])), AllEntryPieces(section));
      EmptyBlock();
      KindsBlock(view, kinds[1..]);
      BlockConcat(KindPieces(view, kinds[0]), KindsPieces(view, kinds[1..]));
    }
  }

  lemma EventBlock(b: EventBody)
    requires GoodText(b.summary, MAX_REFINEMENT_TEXT_BYTES, true)
    ensures Block(EventLine(b))
  {
    hide Blank, Utf8Len, MarkerFree, Decimal, Block;
    NonBlank(b.summary);
    var p, q, r, t := ["- [", ScopeLabel(b.scope) + " rev " + Decimal(b.resulting), "]"], [" ", b.summary, " "],
                      ["(", "applied " + Decimal(|b.applied|), ","], [" ", "rejected " + Decimal(|b.rejected|), ")\n"];
    DecimalPiece(ScopeLabel(b.scope) + " rev ", b.resulting);
    DecimalPiece("applied ", |b.applied|);
    DecimalPiece("rejected ", |b.rejected|);
    Slot("- [", ScopeLabel(b.scope) + " rev " + Decimal(b.resulting), "]");
    Slot(" ", b.summary, " ");
    Slot("(", "applied " + Decimal(|b.applied|), ",");
    Slot(" ", "rejected " + Decimal(|b.rejected|), ")\n");
    BlockConcat(p, q);
    BlockConcat(p + q, r);
    BlockConcat(p + q + r, t);
  }

  ghost predicate GoodEvents(events: seq<Event>) {
    forall e :: e in events ==> GoodText(e.body.summary, MAX_REFINEMENT_TEXT_BYTES, true)
  }

  lemma {:induction false} EventsBlock(events: seq<Event>)
    requires GoodEvents(events)
    ensures Block(AllEventPieces(events))
  {
    hide GoodText, EventLine, Block;
    if events == [] {
      EmptyBlock();
    } else {
      EventBlock(events[0].body);
      EventsBlock(events[1..]);
      BlockConcat(EventLine(events[0].body), AllEventPieces(events[1..]));
    }
  }

  lemma HistoryBlock(events: seq<Event>)
    requires GoodEvents(events)
    ensures Block(HistoryPieces(events))
  {
    hide GoodText, AllEventPieces, Block, SectionHeading;
    EmptyBlock();
    HeadingBlock("Recent Refinements");
    EventsBlock(events);
    BlockConcat(SectionHeading("Recent Refinements"), AllEventPieces(events));
  }

  lemma TitleHasNoBracket()
    ensures '<' !in HEADING_TITLE && HEADING_TITLE != ""
  {
  }

  lemma OriginHasNoBracket()
    ensures '<' !in HEADING_ORIGIN
  {
  }

  lemma NotesHaveNoBracket()
    ensures '<' !in HEADING_NOTES
  {
  }

  lemma UseHasNoBracket()
    ensures '<' !in HEADING_USE
  {
  }

  lemma NotIn(a: string, b: string)
    requires '<' !in a && '<' !in b
    ensures '<' !in a + b
  {
  }

  lemma HeadingPiece()
    ensures Piece(HEADING)
  {
    hide HEADING_TITLE, HEADING_ORIGIN, HEADING_NOTES, HEADING_USE;
    TitleHasNoBracket();
    OriginHasNoBracket();
    NotesHaveNoBracket();
    UseHasNoBracket();
    NotIn(HEADING_NOTES, HEADING_USE);
    NotIn(HEADING_ORIGIN, HEADING_NOTES + HEADING_USE);
    NotIn(HEADING_TITLE, HEADING_ORIGIN + (HEADING_NOTES + HEADING_USE));
    NoBracket(HEADING);
  }

  lemma PreambleBlock()
    ensures Block(Preamble())
  {
    hide HEADING;
    HeadingPiece();
    Slot("\n", HEADING, "\n");
  }

  /** Text that can stand between the two markers. */
  ghost predicate Inner(inner: string) {
    Piece(inner) && !MarkerChar(inner[0]) && !MarkerChar(inner[|inner| - 1])
  }

  lemma SectionInner(view: seq<Filed>, events: seq<Event>)
    requires GoodView(view) && GoodEvents(events)
    ensures Inner(Flat(InnerPieces(view, events)))
  {
    hide KindsPieces, HistoryPieces, ValidateEntry, GoodText;
    PreambleBlock();
    KindsBlock(view, KINDS);
    HistoryBlock(Recent(events));
    BlockConcat(Preamble(), KindsPieces(view, KINDS));
    BlockConcat(Preamble() + KindsPieces(view, KINDS), HistoryPieces(Recent(events)));
    FlatBlock(InnerPieces(view, events));
  }

  // ----- One pair of markers, at the two ends -----

  ghost predicate OnlyAt(s: string, p: string, at: nat) {
    OccursAt(s, p, at) && forall i :: OccursAt(s, p, i) ==> i == at
  }

  lemma MarkerShapes()
    ensures |BEGIN| == 19 && |END| == 20
    ensures OnlyAt(BEGIN, BEGIN, 0) && OnlyAt(END, END, 0)
    ensures !Contains(BEGIN, END) && !Contains(END, BEGIN)
  {
    assert BEGIN[0..19] == BEGIN && END[0..20] == END;
    assert END[1] == '/' && BEGIN[1] == 'c' && END[0] == '<' && BEGIN[0] == '<';
    assert END[0..19][1] == END[1] && END[1..20][0] == END[1];
  }

  lemma ContainsNot(s: string, p: string, i: int)
    requires !Contains(s, p)
    ensures !OccursAt(s, p, i)
  {
  }

  lemma OccursInRight(a: string, b: string, p: string, i: int)
    requires |a| <= i
    ensures OccursAt(a + b, p, i) <==> OccursAt(b, p, i - |a|)
  {
    if i + |p| <= |a + b| {
      assert (a + b)[i..i + |p|] == b[i - |a|..i - |a| + |p|];
    }
  }

  lemma OccursInLeft(a: string, b: string, p: string, i: int)
    requires i + |p| <= |a|
    ensures OccursAt(a + b, p, i) <==> OccursAt(a, p, i)
  {
    if 0 <= i {
      assert (a + b)[i..i + |p|] == a[i..i + |p|];
    }
  }

  lemma BeginOnlyFirst(inner: string)
    requires Inner(inner)
    ensures OnlyAt(BEGIN + (inner + END), BEGIN, 0)
  {
    MarkerShapes();
    var tail := inner + END;
    assert tail[0] == inner[0];
    MarkerAlphabet(inner[0]);
    MarkerAlphabet(inner[|inner| - 1]);
    JoinContains(inner, END, BEGIN);
    OccursInLeft(BEGIN, tail, BEGIN, 0);
    forall i | OccursAt(BEGIN + tail, BEGIN, i) ensures i == 0 {
      if i >= |BEGIN| {
        OccursInRight(BEGIN, tail, BEGIN, i);
        ContainsNot(tail, BEGIN, i - |BEGIN|);
      } else if i > 0 {
        SeamInPattern(BEGIN, tail, BEGIN, i);
      }
    }
  }

  lemma EndOnlyLast(inner: string)
    requires Inner(inner)
    ensures OnlyAt(inner + END, END, |inner|)
  {
    MarkerShapes();
    MarkerAlphabet(inner[|inner| - 1]);
    OccursInRight(inner, END, END, |inner|);
    forall i | OccursAt(inner + END, END, i) ensures i == |inner| {
      if i >= |inner| {
        OccursInRight(inner, END, END, i);
      } else if i + |END| <= |inner| {
        OccursInLeft(inner, END, END, i);
        ContainsNot(inner, END, i);
      } else {
        SeamInPattern(inner, END, END, i);
      }
    }
  }

  lemma EndOnlyInTail(inner: string)
    requires Inner(inner)
    ensures OnlyAt(BEGIN + (inner + END), END, |BEGIN| + |inner|)
  {
    MarkerShapes();
    EndOnlyLast(inner);
    var tail := inner + END;
    assert tail[0] == inner[0];
    MarkerAlphabet(inner[0]);
    OccursInRight(BEGIN, tail, END, |BEGIN| + |inner|);
    forall i | OccursAt(BEGIN + tail, END, i) ensures i == |BEGIN| + |inner| {
      if i >= |BEGIN| {
        OccursInRight(BEGIN, tail, END, i);
      } else {
        SeamInPattern(BEGIN, tail, END, i);
      }
    }
  }

  lemma SectionShape(view: seq<Filed>, events: seq<Event>) returns (inner: string)
    requires GoodView(view) && GoodEvents(events)
    ensures Inner(inner) && Section(view, events) == BEGIN + (inner + END)
  {
    hide InnerPieces, ValidateEntry, GoodText;
    inner := Flat(InnerPieces(view, events));
    SectionInner(view, events);
    assert BEGIN + inner + END == BEGIN + (inner + END);
  }

  /** Whatever the ledger holds, its section opens with the only begin marker and
      closes with the only end marker. */
  lemma SectionIsMarkedOnce(view: seq<Filed>, events: seq<Event>)
    requires GoodView(view) && GoodEvents(events)
    ensures var s := Section(view, events);
      |s| >= |END| && OnlyAt(s, BEGIN, 0) && OnlyAt(s, END, |s| - |END|)
  {
    hide Section, ValidateEntry, GoodText;
    var inner := SectionShape(view, events);
    BeginOnlyFirst(inner);
    EndOnlyInTail(inner);
  }

  lemma EmptyHasNoMarkers()
    ensures MarkerFree("")
  {
    NoBracket("");
  }

  // ----- Stripping undoes appending -----

  predicate EndTrimmed(s: string) {
    s == "" || !IsWhitespace(s[|s| - 1])
  }

  lemma TrimEndFixed(s: string)
    requires EndTrimmed(s)
    ensures TrimEnd(s) == s && TrimEnd(s + "\n\n") == s
  {
    assert (s + "\n\n")[..|s| + 1] == s + "\n" && (s + "\n")[..|s|] == s;
    assert TrimEnd(s + "\n\n") == TrimEnd(s + "\n");
  }

  lemma TrimEndTrimmed(s: string)
    ensures EndTrimmed(TrimEnd(s))
  {
  }

  function Lead(base: string): string {
    if base == "" then "" else base + "\n\n"
  }

  lemma LeadHasNoBegin(base: string, section: string, i: int)
    requires !Contains(base, BEGIN) && i < |Lead(base)|
    ensures !OccursAt(Lead(base) + section, BEGIN, i)
  {
    if base != "" && OccursAt(Lead(base) + section, BEGIN, i) {
      MarkerShapes();
      assert '\n' !in BEGIN && "\n\n"[0] == '\n';
      MissingChar("\n\n", BEGIN, 0);
      JoinContains(base, "\n\n", BEGIN);
      if i + |BEGIN| <= |Lead(base)| {
        OccursInLeft(Lead(base), section, BEGIN, i);
        ContainsNot(Lead(base), BEGIN, i);
      } else {
        SeamInPattern(Lead(base), section, BEGIN, i);
      }
    }
  }

  lemma FoundAt(s: string, p: string, at: nat)
    requires at <= |s| && OccursAt(s, p, at)
    requires forall i :: 0 <= i < at ==> !OccursAt(s, p, i)
    ensures Find(s, p) == Some(at)
  {
  }

  lemma FindBegin(base: string, inner: string)
    requires !Contains(base, BEGIN) && Inner(inner)
    ensures Find(Lead(base) + (BEGIN + (inner + END)), BEGIN) == Some(|Lead(base)|)
  {
    hide Contains, Lead;
    var section := BEGIN + (inner + END);
    BeginOnlyFirst(inner);
    OccursInRight(Lead(base), section, BEGIN, |Lead(base)|);
    forall i | 0 <= i < |Lead(base)| ensures !OccursAt(Lead(base) + section, BEGIN, i) {
      LeadHasNoBegin(base, section, i);
    }
    FoundAt(Lead(base) + section, BEGIN, |Lead(base)|);
  }

  /** The text a strip keeps on either side of the section. */
  function Joined(head: string, tail: string): string {
    if tail == "" then head else if head == "" then tail else head + "\n\n" + tail
  }

  lemma StripFound(prompt: string, begin: nat, at: nat)
    requires Find(prompt, BEGIN) == Some(begin)
    requires Find(prompt[begin + |BEGIN|..], END) == Some(at)
    requires MarkerFree(prompt[begin + |BEGIN|..][at + |END|..])
    ensures Strip(prompt)
         == Ok(Joined(TrimEnd(prompt[..begin]), TrimStart(prompt[begin + |BEGIN|..][at + |END|..])))
  {
    hide Contains, TrimEnd, TrimStart, MarkerFree, BEGIN, END;
  }

  /** A prompt that ends in a section strips back to the text before it. */
  lemma StripAppended(base: string, inner: string)
    requires EndTrimmed(base) && !Contains(base, BEGIN) && Inner(inner)
    ensures Strip(Lead(base) + (BEGIN + (inner + END))) == Ok(base)
  {
    hide Contains, BEGIN, END, Inner, Find, TrimEnd, Strip, MarkerFree, EndTrimmed;
    var section := BEGIN + (inner + END);
    var prompt := Lead(base) + section;
    FindBegin(base, inner);
    var rest := prompt[|Lead(base)| + |BEGIN|..];
    assert rest == inner + END;
    EndOnlyLast(inner);
    FoundAt(rest, END, |inner|);
    assert rest[|inner| + |END|..] == "";
    EmptyHasNoMarkers();
    StripFound(prompt, |Lead(base)|, |inner|);
    assert prompt[..|Lead(base)|] == Lead(base);
    TrimEndFixed(base);
    TrimEndNone();
  }

  lemma TrimEndNone()
    ensures TrimEnd("") == "" && TrimStart("") == ""
  {
  }

  // ----- What stripping leaves behind -----

  lemma {:induction false} TrimEndContains(s: string, p: string)
    requires p != "" && !IsWhitespace(p[|p| - 1])
    ensures Contains(TrimEnd(s), p) <==> Contains(s, p)
  {
    if s != "" && IsWhitespace(s[|s| - 1]) {
      var front, last := s[..|s| - 1], [s[|s| - 1]];
      assert s == front + last;
      TrimEndContains(front, p);
      LastNotIn(last, p);
      LastSeam(front, last, p);
    }
  }

  lemma LastNotIn(last: string, p: string)
    requires |last| == 1 && IsWhitespace(last[0]) && p != "" && !IsWhitespace(p[|p| - 1])
    ensures !Contains(last, p)
  {
    MissingChar(last, p, |p| - 1);
  }

  /** A pattern that does not end in white space cannot end at one. */
  lemma LastSeam(front: string, last: string, p: string)
    requires |last| == 1 && IsWhitespace(last[0]) && p != "" && !IsWhitespace(p[|p| - 1])
    ensures Contains(front + last, p) <==> Contains(front, p)
  {
    var s := front + last;
    assert front == s[0..|front|];
    SliceContains(s, 0, |front|, p);
    if Contains(s, p) {
      var i :| 0 <= i <= |s| && OccursAt(s, p, i);
      OccurrenceChars(s, p, i, |p| - 1);
      assert i + |p| <= |front|;
      OccursInLeft(front, last, p, i);
    }
  }

  lemma TrimStartContains(s: string, p: string)
    ensures Contains(TrimStart(s), p) ==> Contains(s, p)
  {
    assert TrimStart(s) == s[|s| - |TrimStart(s)|..|s|];
    SliceContains(s, |s| - |TrimStart(s)|, |s|, p);
  }

  lemma MarkersEndSolid()
    ensures !IsWhitespace(BEGIN[|BEGIN| - 1]) && !IsWhitespace(END[|END| - 1]) && '\n' !in BEGIN && '\n' !in END
  {
    assert BEGIN[18] == '>' && END[19] == '>';
  }

  /** The text a strip keeps in front of the section it removes; the begin marker
      is the first one, but nothing checks this text for an end marker. */
  function BeforeSection(prompt: string): string {
    match Find(prompt, BEGIN)
    case None => ""
    case Some(begin) => prompt[..begin]
  }

  predicate Stray(prompt: string) {
    Contains(BeforeSection(prompt), END)
  }

  lemma BeforeHasNoBegin(prompt: string, begin: nat)
    requires Find(prompt, BEGIN) == Some(begin)
    ensures !Contains(prompt[..begin], BEGIN)
  {
    MarkerShapes();
    forall i | 0 <= i <= begin ensures !OccursAt(prompt[..begin], BEGIN, i) {
      assert prompt == prompt[..begin] + prompt[begin..];
      if i + |BEGIN| <= begin {
        OccursInLeft(prompt[..begin], prompt[begin..], BEGIN, i);
      }
    }
  }

  lemma JoinedMarkers(head: string, tail: string)
    requires MarkerFree(tail) && head != ""
    ensures Contains(head + "\n\n" + tail, BEGIN) <==> Contains(head, BEGIN)
    ensures Contains(head + "\n\n" + tail, END) <==> Contains(head, END)
  {
    MarkersEndSolid();
    NoBracket("\n\n");
    JoinContains(head, "\n\n", BEGIN);
    JoinContains(head, "\n\n", END);
    JoinContains(head + "\n\n", tail, BEGIN);
    JoinContains(head + "\n\n", tail, END);
  }

  /** What is left after a strip holds no begin marker, and holds an end marker
      exactly when one stood in front of the section. */
  lemma StrippedMarkers(prompt: string)
    requires Strip(prompt).Ok?
    ensures !Contains(Strip(prompt).value, BEGIN)
    ensures Contains(Strip(prompt).value, END) <==> Stray(prompt)
  {
    hide Strip, Contains, TrimEnd, TrimStart, BEGIN, END;
    match Find(prompt, BEGIN) {
      case None =>
        StripPlain(prompt);
      case Some(begin) =>
        var end := SectionParts(prompt, begin);
        SectionMarkers(prompt[..begin], prompt[end..], begin, prompt);
    }
  }

  lemma StripPlain(prompt: string)
    requires Find(prompt, BEGIN) == None && Strip(prompt).Ok?
    ensures Strip(prompt) == Ok(prompt) && !Contains(prompt, BEGIN) && !Contains(prompt, END) && !Stray(prompt)
  {
    EmptyHasNoMarkers();
  }

  lemma SectionParts(prompt: string, begin: nat) returns (end: nat)
    requires Find(prompt, BEGIN) == Some(begin) && Strip(prompt).Ok?
    ensures begin + |BEGIN| + |END| <= end <= |prompt| && MarkerFree(prompt[end..])
    ensures Strip(prompt) == Ok(Joined(TrimEnd(prompt[..begin]), TrimStart(prompt[end..])))
    ensures Stray(prompt) <==> Contains(prompt[..begin], END)
  {
    hide Contains, TrimEnd, TrimStart, MarkerFree, BEGIN, END;
    var rest := prompt[begin + |BEGIN|..];
    var at := Find(rest, END).value;
    end := begin + |BEGIN| + at + |END|;
    assert rest[at + |END|..] == prompt[end..];
  }

  lemma SectionMarkers(before: string, after: string, begin: nat, prompt: string)
    requires Find(prompt, BEGIN) == Some(begin) && before == prompt[..begin] && MarkerFree(after)
    ensures var kept := Joined(TrimEnd(before), TrimStart(after));
      !Contains(kept, BEGIN) && (Contains(kept, END) <==> Contains(before, END))
  {
    BeforeHasNoBegin(prompt, begin);
    MarkersEndSolid();
    hide Contains, TrimEnd, TrimStart;
    TrimEndContains(before, BEGIN);
    TrimEndContains(before, END);
    TrimStartContains(after, BEGIN);
    TrimStartContains(after, END);
    EmptyHasNoMarkers();
    if TrimEnd(before) != "" {
      JoinedMarkers(TrimEnd(before), TrimStart(after));
    }
  }

  // ----- Evolving a prompt -----

  ghost predicate GoodSupplement(s: Option<string>) {
    s.Some? ==> exists inner :: Inner(inner) && s.value == BEGIN + (inner + END)
  }

  function Base(prompt: string): string
    requires Strip(prompt).Ok?
  {
    TrimEnd(Strip(prompt).value)
  }

  lemma BaseMarkers(prompt: string)
    requires Strip(prompt).Ok?
    ensures EndTrimmed(Base(prompt)) && !Contains(Base(prompt), BEGIN)
    ensures Contains(Base(prompt), END) <==> Stray(prompt)
  {
    hide Strip, Contains, BeforeSection;
    StrippedMarkers(prompt);
    MarkersEndSolid();
    TrimEndContains(Strip(prompt).value, BEGIN);
    TrimEndContains(Strip(prompt).value, END);
    TrimEndTrimmed(Strip(prompt).value);
  }

  lemma StripWithout(base: string)
    requires EndTrimmed(base) && !Contains(base, BEGIN)
    ensures Strip(base) == if Contains(base, END) then Err(MalformedSupplement) else Ok(base)
  {
  }

  /** The rewritten prompt strips back to the same base text, unless nothing is
      injected and the base text holds a stray end marker. */
  lemma NextStrips(prompt: string, supplement: Option<string>)
    requires Strip(prompt).Ok? && GoodSupplement(supplement)
    ensures var next := NextPrompt(prompt, supplement).value;
      Strip(next) == if supplement.None? && Stray(prompt) then Err(MalformedSupplement) else Ok(Base(prompt))
  {
    hide Strip, Contains, TrimEnd, BeforeSection;
    var base := Base(prompt);
    BaseMarkers(prompt);
    if supplement.Some? {
      var inner :| Inner(inner) && supplement.value == BEGIN + (inner + END);
      StripAppended(base, inner);
      assert "" + supplement.value == supplement.value;
    } else {
      StripWithout(base);
    }
  }

  /** Rewriting is a function of the base text: rewriting twice is rewriting once
      with the later supplement. */
  lemma NextReplaces(prompt: string, first: Option<string>, second: Option<string>)
    requires Strip(prompt).Ok? && GoodSupplement(first)
    ensures NextPrompt(NextPrompt(prompt, first).value, second)
         == if first.None? && Stray(prompt) then Err(MalformedSupplement) else NextPrompt(prompt, second)
  {
    hide Strip, Contains, TrimEnd, BeforeSection;
    NextStrips(prompt, first);
    BaseMarkers(prompt);
    TrimEndFixed(Base(prompt));
  }

  lemma ViewIsGood(global: Option<State>, session: Option<State>)
    requires CheckScope(global, true).Ok? && CheckScope(session, false).Ok?
    ensures GoodView(View(global, session))
  {
    hide ValidateEntry, FitsBudgets, ValidateScope;
    var m := Merged(global, session);
    var view := View(global, session);
    forall f | f in view ensures ValidateEntry(f.entry).Ok? && (f.origin == "global" || f.origin == "session") {
      var i :| 0 <= i < |view| && view[i] == f;
      var k := SortedKeys(m.Keys)[i];
      assert k in m.Keys && m[k] == f;
      if k in Overlay(session, "session") {
        assert EntryFiled(session.value.entries, k);
      } else {
        assert EntryFiled(global.value.entries, k);
      }
    }
  }

  lemma RenderedIsGood(global: Option<State>, session: Option<State>, events: seq<Event>)
    requires Rendered(global, session, events).Ok? && GoodEvents(events)
    ensures GoodSupplement(Rendered(global, session, events).value)
  {
    hide CheckScope, Section, GoodText, GoodView, View;
    ViewIsGood(global, session);
    if View(global, session) != [] {
      var inner := SectionShape(View(global, session), events);
    }
  }

  /** The patch is accepted by the snapshot it was derived from. */
  lemma EvolvedPatchApplies(address: Snapshots.Address, base: Snapshots.Snapshot, global: Option<State>,
                            session: Option<State>, events: seq<Event>, patch: Snapshots.Patch)
    requires EvolvedRefinement(address, base, global, session, events) == Ok(Some(patch))
    ensures var applied := Snapshots.Apply(address, patch, base);
      && applied.Ok? && Snapshots.ValidSnapshot(address, applied.value)
      && applied.value.content.rules == base.content.rules
      && Rendered(global, session, events).Ok?
      && Strip(base.content.systemPrompt.value).Ok?
      && applied.value.content.systemPrompt
         == Some(NextPrompt(base.content.systemPrompt.value, Rendered(global, session, events).value).value)
  {
    hide Rendered, Strip, Citations, Snapshots.GoodField, Snapshots.ValidateEvidence;
    var next := NextPrompt(base.content.systemPrompt.value, Rendered(global, session, events).value).value;
    assert patch.changes == [Snapshots.SetSystemPrompt(next)];
    PatchedContent(base.content, next);
    assert Snapshots.GoodChange(patch.changes[0]);
  }

  lemma PatchedContent(c: Snapshots.Content, next: string)
    ensures Snapshots.Changed(c, [Snapshots.SetSystemPrompt(next)]) == c.(systemPrompt := Some(next))
  {
    assert Snapshots.Changed(c.(systemPrompt := Some(next)), []) == c.(systemPrompt := Some(next));
  }

  /** Evolving a snapshot once and applying the patch reaches a snapshot the same
      ledgers have nothing to add to, exactly when they inject a section or the
      text in front of the old section held no end marker. Otherwise the second
      call refuses the prompt the first one produced. */
  lemma EvolutionIsFixpoint(address: Snapshots.Address, base: Snapshots.Snapshot, global: Option<State>,
                            session: Option<State>, events: seq<Event>, patch: Snapshots.Patch,
                            next: Snapshots.Snapshot)
    requires GoodEvents(events)
    requires EvolvedRefinement(address, base, global, session, events) == Ok(Some(patch))
    requires Snapshots.Apply(address, patch, base) == Ok(next)
    ensures EvolvedRefinement(address, next, global, session, events)
         == if View(global, session) != [] || !Stray(base.content.systemPrompt.value) then Ok(None)
            else Err(MalformedSupplement)
  {
    EvolvedPatchApplies(address, base, global, session, events, patch);
    RenderedIsGood(global, session, events);
    NextReplaces(base.content.systemPrompt.value, Rendered(global, session, events).value,
                 Rendered(global, session, events).value);
    hide Strip, NextPrompt, CheckScope, View, Section, Stray, Snapshots.GoodContent, Snapshots.Apply, GoodSupplement, GoodEvents;
  }

  /** Emptying the ledger of a prompt whose base text holds a stray end marker
      produces a prompt that can never be evolved again. */
  lemma StrayEndMarkerWedges()
    ensures var prompt := END + "\n\n" + (BEGIN + ("\n" + END));
      NextPrompt(prompt, None) == Ok(END) && Strip(END) == Err(MalformedSupplement)
  {
    MarkerShapes();
    MarkersEndSolid();
    NoBracket("\n");
    StripAppended(END, "\n");
    TrimEndFixed(END);
    assert Contains(END, END) by { assert OccursAt(END, END, 0); }
  }
}
