/** Line framing does not depend on how the source was chunked or how the lines are
    read, and no byte is lost or repeated. */
module LineReaderTheorems {
  import opened Text
  import opened LineReader

  // ----- The forwarded items -----

  /** The bytes the items carry. */
  function Carried(items: seq<Item>): Bytes {
    if items == [] then [] else
      (match items[0] case Line(bytes) => bytes case Fail(_) => []) + Carried(items[1..])
  }

  lemma {:induction false} CarriedConcat(a: seq<Item>, b: seq<Item>)
    ensures Carried(a + b) == Carried(a) + Carried(b)
  {
    if a == [] {
      assert a + b == b;
    } else {
      assert (a + b)[1..] == a[1..] + b;
      CarriedConcat(a[1..], b);
    }
  }

  lemma OneCarried(item: Item)
    ensures Carried([item]) == match item case Line(bytes) => bytes case Fail(_) => []
  {
    assert [item][1..] == [];
  }

  /** A line starts at `i`. */
  predicate LineStart(s: Bytes, i: nat) {
    i == 0 || (i <= |s| && s[i - 1] == NEWLINE)
  }

  /** The line that starts at `i`, newline included, is longer than the cap. */
  predicate LongAt(s: Bytes, i: nat) {
    i + MAX_LINE_SIZE < |s| && LineStart(s, i) && NEWLINE !in s[i..i + MAX_LINE_SIZE]
  }

  ghost predicate HasLongLine(s: Bytes) {
    exists i: nat :: LongAt(s, i)
  }

  lemma LongFirst(s: Bytes)
    ensures LineLen(s) > MAX_LINE_SIZE <==> LongAt(s, 0)
  {
    if LongAt(s, 0) {
      assert s[..MAX_LINE_SIZE] == s[0..MAX_LINE_SIZE];
      NoneBefore(s, MAX_LINE_SIZE);
    }
    if LineLen(s) > MAX_LINE_SIZE {
      NoneBefore(s, LineEnd(s));
      assert s[0..MAX_LINE_SIZE] == s[..LineEnd(s)][..MAX_LINE_SIZE];
    }
  }

  /** Behind a first line within the cap, over-long lines are those of the rest. */
  lemma LongShift(s: Bytes, n: nat, i: nat)
    requires n == LineLen(s) && 0 < n <= MAX_LINE_SIZE
    ensures i < n ==> !LongAt(s, i)
    ensures LongAt(s, n + i) <==> LongAt(s[n..], i)
  {
    var rest := s[n..];
    NoneBefore(s, LineEnd(s));
    LongFirst(s);
    if i + MAX_LINE_SIZE < |rest| {
      assert s[n + i..n + i + MAX_LINE_SIZE] == rest[i..i + MAX_LINE_SIZE];
      assert i > 0 ==> s[n + i - 1] == rest[i - 1];
    }
  }

  lemma LongLater(s: Bytes, n: nat)
    requires n == LineLen(s) && 0 < n <= MAX_LINE_SIZE
    ensures HasLongLine(s) <==> HasLongLine(s[n..])
  {
    if i: nat :| LongAt(s, i) {
      LongShift(s, n, i);
      LongShift(s, n, if i < n then 0 else i - n);
      assert i >= n && LongAt(s[n..], i - n);
    }
    if i: nat :| LongAt(s[n..], i) {
      LongShift(s, n, i);
      assert LongAt(s, n + i);
    }
  }

  lemma LineEndNewline(s: Bytes)
    ensures LineEnd(s) == |s| <==> NEWLINE !in s
  {
    assert s[..|s|] == s;
    if LineEnd(s) < |s| {
      assert s[LineEnd(s)] in s;
    }
  }

  /** The size error is reported exactly when some line is longer than the cap,
      however the source was chunked. */
  lemma {:induction false} TooLongIff(s: Bytes, fails: bool)
    ensures Fail(TooLong) in Items(s, fails) <==> HasLongLine(s)
    decreases |s|
  {
    hide Items, LineEnd;
    ItemsStep(s, fails);
    LongFirst(s);
    LineEndNewline(s);
    var n := LineLen(s);
    if n > MAX_LINE_SIZE {
      assert LongAt(s, 0);
    } else if LineEnd(s) == |s| {
      OneLineIsShort(s);
      ItemsEmpty(fails);
      assert s[|s|..] == [];
    } else {
      LongLater(s, n);
      TooLongIff(s[n..], fails);
    }
  }

  lemma ItemsEmpty(fails: bool)
    ensures Items([], fails) == if fails then [Fail(SourceFailed)] else []
  {
  }

  lemma OneLineIsShort(s: Bytes)
    requires NEWLINE !in s && |s| <= MAX_LINE_SIZE
    ensures !HasLongLine(s)
  {
  }

  /** Without an over-long line or a failing source the items carry the whole stream;
      otherwise they carry a prefix of it. */
  lemma {:induction false} ItemsCarryTheStream(s: Bytes, fails: bool)
    ensures Carried(Items(s, fails)) <= s
    ensures !HasLongLine(s) && !fails ==> Carried(Items(s, fails)) == s
    decreases |s|
  {
    hide Items, LineEnd;
    ItemsStep(s, fails);
    LongFirst(s);
    LineEndNewline(s);
    var n := LineLen(s);
    if n > 0 && FirstLine(s, fails).Ok? {
      ItemsCarryTheStream(s[n..], fails);
      CarriedCons(s[..n], Items(s[n..], fails));
      assert s == s[..n] + s[n..];
      if LineEnd(s) < |s| {
        LongLater(s, n);
      } else {
        assert s[n..] == [];
        OneLineIsShort([]);
      }
    }
  }

  /** `i` is where the first over-long line starts. */
  ghost predicate FirstLong(s: Bytes, i: nat) {
    LongAt(s, i) && forall j: nat :: j < i ==> !LongAt(s, j)
  }

  /** Up to the first over-long line every byte is carried, and none behind it. */
  lemma {:induction false} CarriedUpToLongLine(s: Bytes, fails: bool, i: nat)
    requires FirstLong(s, i)
    ensures Carried(Items(s, fails)) == s[..i]
    decreases |s|
  {
    hide Items, LineEnd, LongAt;
    ItemsStep(s, fails);
    LongFirst(s);
    LineEndNewline(s);
    var n := LineLen(s);
    if n > MAX_LINE_SIZE {
      assert i == 0;
      OneCarried(Fail(TooLong));
    } else {
      LongIsSpacious(s, i);
      LongShift(s, n, i);
      LongShift(s, n, i - n);
      assert LongAt(s[n..], i - n);
      forall j: nat | j < i - n ensures !LongAt(s[n..], j) { LongShift(s, n, j); }
      LongIsSpacious(s[n..], i - n);
      CarriedUpToLongLine(s[n..], fails, i - n);
      CarriedCons(s[..n], Items(s[n..], fails));
      assert s[..i] == s[..n] + s[n..][..i - n];
    }
  }

  lemma LongIsSpacious(s: Bytes, i: nat)
    requires LongAt(s, i)
    ensures i < |s|
  {
  }

  lemma CarriedCons(line: Bytes, items: seq<Item>)
    ensures Carried([Line(line)] + items) == line + Carried(items)
  {
    assert ([Line(line)] + items)[1..] == items;
  }

  /** The item is a failure, or a line whose only newline is its last byte, or the
      unterminated rest of the stream. */
  predicate FramedAt(items: seq<Item>, i: nat)
    requires i < |items|
  {
    match items[i]
    case Fail(_) => i == |items| - 1
    case Line(line) =>
      && line != [] && |line| <= MAX_LINE_SIZE && NEWLINE !in line[..|line| - 1]
      && (i < |items| - 1 ==> line[|line| - 1] == NEWLINE)
  }

  ghost predicate Framed(items: seq<Item>) {
    forall i: nat :: i < |items| ==> FramedAt(items, i)
  }

  lemma FirstLineFramed(s: Bytes, fails: bool)
    requires s != [] && FirstLine(s, fails).Ok?
    ensures var line := FirstLine(s, fails).value;
      && line != [] && |line| <= MAX_LINE_SIZE && NEWLINE !in line[..|line| - 1]
      && (line[|line| - 1] == NEWLINE || (|line| == |s| && !fails))
  {
    var n := LineLen(s);
    LineEndNewline(s);
    NoneBefore(s, LineEnd(s));
    assert s[..n][..n - 1] == s[..n - 1];
    assert forall i :: 0 <= i < n - 1 ==> s[..n - 1][i] == s[i];
  }

  /** Every forwarded item but the last ends in its only newline, and a failure can
      only come last. */
  lemma {:induction false} ItemsAreFramed(s: Bytes, fails: bool)
    ensures Framed(Items(s, fails))
    decreases |s|
  {
    hide Items, LineEnd;
    ItemsStep(s, fails);
    ItemsEmpty(fails);
    if s != [] && FirstLine(s, fails).Ok? {
      var line := FirstLine(s, fails).value;
      var rest := Items(s[|line|..], fails);
      FirstLineFramed(s, fails);
      ItemsAreFramed(s[|line|..], fails);
      var items := [Line(line)] + rest;
      assert |line| == |s| ==> s[|line|..] == [];
      forall i: nat | i < |items| ensures FramedAt(items, i) {
        if i > 0 {
          assert FramedAt(rest, i - 1) && items[i] == rest[i - 1];
        }
      }
    }
  }

  // ----- Runs -----

  /** The reader side and what has been served so far; `closed` once the reader task has
      dropped its sender. */
  datatype State = State(unsent: seq<Item>, rx: seq<Item>, stash: Bytes, served: Bytes, closed: bool)

  /** The end of the source is a step of its own: a peer may keep the stream open long
      after its last line. */
  datatype Step = Forward | Close | Read(size: nat)

  /** A run's start, nothing sent. */
  function Start(items: seq<Item>): State {
    State(items, [], [], [], false)
  }

  function Taken(p: Poll): Bytes {
    match p case Ready(bytes) => bytes case _ => []
  }

  /** The reader task sends its next item, or finds nothing more and drops the sender, or
      the consumer polls once. */
  function Next(s: State, step: Step): State {
    match step
    case Forward => if s.unsent == [] then s else s.(unsent := s.unsent[1..], rx := s.rx + [s.unsent[0]])
    case Close => if s.unsent == [] then s.(closed := true) else s
    case Read(size) =>
      var (stash, rx, poll) := Serve(s.stash, s.rx, s.closed, size);
      s.(stash := stash, rx := rx, served := s.served + Taken(poll))
  }

  function RunTo(s: State, steps: seq<Step>): State
    decreases |steps|
  {
    if steps == [] then s else RunTo(Next(s, steps[0]), steps[1..])
  }

  function Balance(s: State): Bytes {
    s.served + s.stash + Carried(s.rx) + Carried(s.unsent)
  }

  lemma StepConserves(s: State, step: Step)
    ensures Balance(Next(s, step)) == Balance(s)
  {
    match step {
      case Forward =>
        if s.unsent != [] {
          var head, tail := [s.unsent[0]], s.unsent[1..];
          assert s.unsent == head + tail;
          CarriedConcat(s.rx, head);
          CarriedConcat(head, tail);
        }
      case Close =>
      case Read(size) => ReadConserves(s, size);
    }
  }

  lemma ReadConserves(s: State, size: nat)
    ensures Balance(Next(s, Read(size))) == Balance(s)
  {
    var (stash, rx, poll) := Serve(s.stash, s.rx, s.closed, size);
    hide Balance;
    if s.stash == [] && s.rx != [] {
      assert s.rx == [s.rx[0]] + rx;
      CarriedConcat([s.rx[0]], rx);
      OneCarried(s.rx[0]);
    }
    assert Taken(poll) + stash + Carried(rx) == s.stash + Carried(s.rx);
    BalanceOf(s, Next(s, Read(size)), Taken(poll));
  }

  lemma BalanceOf(s: State, t: State, taken: Bytes)
    requires t.unsent == s.unsent && t.served == s.served + taken
    requires taken + t.stash + Carried(t.rx) == s.stash + Carried(s.rx)
    ensures Balance(t) == Balance(s)
  {
    assert Balance(t) == s.served + (taken + t.stash + Carried(t.rx)) + Carried(t.unsent);
    assert Balance(s) == s.served + (s.stash + Carried(s.rx)) + Carried(s.unsent);
  }

  /** However sending and reading interleave, served, stashed, queued and unsent bytes
      add up to the bytes the stream carries, in order. */
  lemma {:induction false} RunsConserve(s: State, steps: seq<Step>)
    ensures Balance(RunTo(s, steps)) == Balance(s)
    decreases |steps|
  {
    if steps != [] {
      StepConserves(s, steps[0]);
      hide Balance, Next;
      RunsConserve(Next(s, steps[0]), steps[1..]);
    }
  }

  /** No empty line, and a failure only at the end. */
  predicate WellQueued(items: seq<Item>) {
    forall i :: 0 <= i < |items| ==> if items[i].Fail? then i == |items| - 1 else items[i].bytes != []
  }

  lemma ItemsWellQueued(s: Bytes, fails: bool)
    ensures WellQueued(Items(s, fails))
  {
    hide Items;
    ItemsAreFramed(s, fails);
    var items := Items(s, fails);
    forall i | 0 <= i < |items| ensures if items[i].Fail? then i == |items| - 1 else items[i].bytes != [] {
      assert FramedAt(items, i);
    }
  }

  /** The sender is dropped only behind the last item. */
  predicate Orderly(s: State) {
    WellQueued(s.rx + s.unsent) && (s.closed ==> s.unsent == [])
  }

  lemma StepKeepsQueue(s: State, step: Step)
    requires Orderly(s)
    ensures Orderly(Next(s, step))
  {
    var q := s.rx + s.unsent;
    match step {
      case Forward =>
        if s.unsent != [] {
          assert (s.rx + [s.unsent[0]]) + s.unsent[1..] == q;
        }
      case Close =>
      case Read(size) =>
        if s.stash == [] && s.rx != [] {
          assert s.rx[1..] + s.unsent == q[1..];
          assert forall i :: 0 <= i < |q| - 1 ==> q[1..][i] == q[i + 1];
        }
    }
  }

  lemma {:induction false} RunsKeepQueue(s: State, steps: seq<Step>)
    requires Orderly(s)
    ensures Orderly(RunTo(s, steps))
    decreases |steps|
  {
    if steps != [] {
      StepKeepsQueue(s, steps[0]);
      hide Orderly, Next;
      RunsKeepQueue(Next(s, steps[0]), steps[1..]);
    }
  }

  /** An answer of the end, or of a failure, comes when nothing is left. */
  lemma LastAnswer(t: State, size: nat)
    requires size > 0 && Orderly(t)
    ensures var poll := Serve(t.stash, t.rx, t.closed, size).2;
      poll == Ready([]) || poll.Failed? ==> Balance(t) == t.served
  {
    if t.stash == [] && t.rx != [] {
      assert (t.rx + t.unsent)[0] == t.rx[0];
      if t.rx[0].Fail? {
        assert t.rx == [t.rx[0]] && t.unsent == [];
        OneCarried(t.rx[0]);
      }
    }
  }

  /** What a consumer has read is always a prefix of what the stream carries, the same
      for every chunking and every schedule; once a read of positive size answers the
      end or a failure, it is all of it. */
  lemma ServedIsTheStream(s: Bytes, fails: bool, steps: seq<Step>, size: nat)
    requires size > 0
    ensures var t := RunTo(Start(Items(s, fails)), steps);
      var poll := Serve(t.stash, t.rx, t.closed, size).2;
      && t.served <= Carried(Items(s, fails)) <= s
      && (poll == Ready([]) || poll.Failed? ==> t.served == Carried(Items(s, fails)))
  {
    hide Items, Serve;
    var start := Start(Items(s, fails));
    RunsConserve(start, steps);
    ItemsCarryTheStream(s, fails);
    ItemsWellQueued(s, fails);
    assert start.rx + start.unsent == Items(s, fails);
    RunsKeepQueue(start, steps);
    assert Balance(start) == Carried(Items(s, fails));
    LastAnswer(RunTo(start, steps), size);
  }

  // ----- Waiting and ending -----

  lemma {:induction false} UnsentIsSuffix(s: State, steps: seq<Step>) returns (k: nat)
    ensures k <= |s.unsent| && RunTo(s, steps).unsent == s.unsent[k..]
    decreases |steps|
  {
    if steps == [] {
      k := 0;
    } else {
      var t := Next(s, steps[0]);
      k := UnsentIsSuffix(t, steps[1..]);
      if steps[0].Forward? && s.unsent != [] {
        assert s.unsent[1..][k..] == s.unsent[k + 1..];
        k := k + 1;
      }
    }
  }

  lemma LastLineEnds(items: seq<Item>, k: nat)
    requires Framed(items) && 0 < k < |items|
    ensures Carried(items[..k]) != [] && Carried(items[..k])[|Carried(items[..k])| - 1] == NEWLINE
  {
    assert FramedAt(items, k - 1);
    assert items[..k] == items[..k - 1] + [items[k - 1]];
    CarriedConcat(items[..k - 1], [items[k - 1]]);
    OneCarried(items[k - 1]);
  }

  lemma IdleBalance(s: State)
    requires s.stash == [] && s.rx == []
    ensures Balance(s) == s.served + Carried(s.unsent)
  {
    assert s.served + [] + [] == s.served;
  }

  lemma CarriedSplit(items: seq<Item>, k: nat)
    requires k <= |items|
    ensures Carried(items) == Carried(items[..k]) + Carried(items[k..])
  {
    assert items == items[..k] + items[k..];
    CarriedConcat(items[..k], items[k..]);
  }

  lemma SameFront(a: Bytes, b: Bytes, tail: Bytes)
    requires a + tail == b + tail
    ensures a == b
  {
    assert |a| == |b| && a == (a + tail)[..|a|] && b == (b + tail)[..|b|];
  }

  /** The bytes carried by the items a run has forwarded when nothing is held back. */
  lemma NothingHeld(items: seq<Item>, steps: seq<Step>, k: nat)
    requires k <= |items| && RunTo(Start(items), steps).unsent == items[k..]
    requires RunTo(Start(items), steps).rx == [] && RunTo(Start(items), steps).stash == []
    ensures RunTo(Start(items), steps).served == Carried(items[..k])
    ensures Carried(items) == Carried(items[..k]) + Carried(items[k..])
  {
    var start := Start(items);
    RunsConserve(start, steps);
    var t := RunTo(start, steps);
    hide RunTo, Carried, Balance;
    IdleBalance(start);
    IdleBalance(t);
    CarriedSplit(items, k);
    assert [] + Carried(items) == Carried(items);
    SameFront(t.served, Carried(items[..k]), Carried(items[k..]));
  }

  lemma PendingMeans(t: State, size: nat)
    requires Serve(t.stash, t.rx, t.closed, size).2 == Pending
    ensures !t.closed && t.stash == [] && t.rx == [] && Next(t, Read(size)) == t
  {
    assert t.served + [] == t.served;
  }

  lemma CarriedEnds(items: seq<Item>, k: nat)
    requires Framed(items) && k < |items|
    ensures Carried(items[..k]) == [] || Carried(items[..k])[|Carried(items[..k])| - 1] == NEWLINE
  {
    if k > 0 {
      LastLineEnds(items, k);
    } else {
      assert items[..0] == [];
    }
  }

  /** A read answers `Pending` only while the sender lives and nothing sent is held
      back: the consumer then has every forwarded byte - up to and including a newline
      unless it has the whole stream - and the read changed nothing, so a dropped read
      loses nothing. */
  lemma PendingOnlyBetweenLines(s: Bytes, fails: bool, steps: seq<Step>, size: nat)
    ensures var t := RunTo(Start(Items(s, fails)), steps);
      Serve(t.stash, t.rx, t.closed, size).2 == Pending ==>
        && !t.closed && t.stash == [] && t.rx == [] && t.served + Carried(t.unsent) == Carried(Items(s, fails))
        && (t.unsent != [] ==> t.served == [] || t.served[|t.served| - 1] == NEWLINE)
        && Next(t, Read(size)) == t
  {
    var items := Items(s, fails);
    var start := Start(items);
    var t := RunTo(start, steps);
    if Serve(t.stash, t.rx, t.closed, size).2 == Pending {
      PendingMeans(t, size);
      hide *;
      var k := UnsentIsSuffix(start, steps);
      NothingHeld(items, steps, k);
      ItemsAreFramed(s, fails);
      if k < |items| {
        CarriedEnds(items, k);
      }
    }
  }

  /** What is left to read: every read of positive size takes some of it away. */
  function Work(s: State): nat {
    |s.stash| + |Carried(s.rx)| + |s.rx|
  }

  predicate PositivePolls(steps: seq<Step>) {
    forall i :: 0 <= i < |steps| ==> steps[i].Read? && steps[i].size > 0
  }

  lemma ReadWorks(s: State, size: nat)
    requires size > 0
    ensures Work(Next(s, Read(size))) < Work(s) || Work(Next(s, Read(size))) == 0
  {
    if s.stash == [] && s.rx != [] {
      assert s.rx == [s.rx[0]] + s.rx[1..];
      CarriedConcat([s.rx[0]], s.rx[1..]);
      OneCarried(s.rx[0]);
    }
  }

  lemma {:induction false} ReadsFinish(s: State, polls: seq<Step>)
    requires PositivePolls(polls) && |polls| >= Work(s)
    ensures Work(RunTo(s, polls)) == 0 && RunTo(s, polls).unsent == s.unsent && RunTo(s, polls).closed == s.closed
    decreases |polls|
  {
    if polls != [] {
      var t := Next(s, polls[0]);
      ReadWorks(s, polls[0].size);
      assert t.unsent == s.unsent && t.closed == s.closed;
      hide Next, Work;
      ReadsFinish(t, polls[1..]);
    }
  }

  lemma {:induction false} RunsCompose(s: State, a: seq<Step>, b: seq<Step>)
    ensures RunTo(s, a + b) == RunTo(RunTo(s, a), b)
    decreases |a|
  {
    if a == [] {
      assert a + b == b;
    } else {
      assert (a + b)[1..] == a[1..] + b;
      RunsCompose(Next(s, a[0]), a[1..], b);
    }
  }

  /** Once everything is forwarded, as many reads of any positive sizes as there are
      bytes and items left give the consumer everything the stream carries; each further
      read then answers the end, or waits as long as the sender lives. */
  lemma ReadsReachTheEnd(s: Bytes, fails: bool, steps: seq<Step>, polls: seq<Step>, size: nat)
    requires PositivePolls(polls)
    requires var t := RunTo(Start(Items(s, fails)), steps); t.unsent == [] && |polls| >= Work(t)
    ensures var u := RunTo(RunTo(Start(Items(s, fails)), steps), polls);
      u.served == Carried(Items(s, fails)) && Serve(u.stash, u.rx, u.closed, size) == ([], [], if u.closed then Ready([]) else Pending)
  {
    var items := Items(s, fails);
    hide Items, Next;
    var start := Start(items);
    ReadsFinish(RunTo(start, steps), polls);
    RunsCompose(start, steps, polls);
    assert items[|items|..] == [] && items[..|items|] == items;
    NothingHeld(items, steps + polls, |items|);
  }

  // ----- The class runs the steps -----

  /** One schedule of the forwarding task and the consumer, on the reader itself. */
  method RunReader(items: seq<Item>, steps: seq<Step>) returns (served: Bytes)
    ensures served == RunTo(Start(items), steps).served
  {
    hide Serve, RunTo;
    var reader := new LineBufferedRead();
    var unsent := items;
    served := [];
    assert steps[0..] == steps;
    for i := 0 to |steps|
      invariant reader.Valid() && (reader.closed ==> unsent == [])
      invariant RunTo(State(unsent, reader.rx, reader.Stash(), served, reader.closed), steps[i..]) == RunTo(Start(items), steps)
    {
      RunStep(State(unsent, reader.rx, reader.Stash(), served, reader.closed), steps[i..]);
      assert steps[i..][1..] == steps[i + 1..];
      match steps[i] {
        case Forward =>
          if unsent != [] {
            reader.Send(unsent[0]);
            unsent := unsent[1..];
          }
        case Close =>
          if unsent == [] {
            reader.Close();
          }
        case Read(size) =>
          var poll := reader.PollRead(size);
          served := served + Taken(poll);
      }
    }
    assert steps[|steps|..] == [];
    RunEnds(State(unsent, reader.rx, reader.Stash(), served, reader.closed));
  }

  lemma RunStep(s: State, steps: seq<Step>)
    requires steps != []
    ensures RunTo(s, steps) == RunTo(Next(s, steps[0]), steps[1..])
  {
  }

  lemma RunEnds(s: State)
    ensures RunTo(s, []) == s
  {
  }
}
