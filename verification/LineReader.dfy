/** Re-framing a chunked byte stream into lines, and serving the lines through reads
    of arbitrary size. */
module LineReader {
  import opened Text

  const MAX_LINE_SIZE := 64 * 1024 * 1024

  newtype byte = b: int | 0 <= b < 256

  const NEWLINE: byte := 10

  type Bytes = seq<byte>

  datatype Failure = TooLong | SourceFailed

  // ----- What one read of a line means, on the whole stream -----

  /** Position of the first newline, or the length. */
  function LineEnd(s: Bytes): (n: nat)
    ensures n <= |s| && NEWLINE !in s[..n] && (n < |s| ==> s[n] == NEWLINE)
  {
    if s == [] || s[0] == NEWLINE then 0 else
      var n := LineEnd(s[1..]);
      assert s[..n + 1] == [s[0]] + s[1..][..n];
      n + 1
  }

  /** Length of the first line with its newline. */
  function LineLen(s: Bytes): (n: nat)
    ensures n <= |s| && (n == 0 ==> s == [])
  {
    var end := LineEnd(s);
    if end < |s| then end + 1 else end
  }

  /** The first line of a stream that ends, or fails, behind `s`. An empty line means
      the end of the stream. */
  function FirstLine(s: Bytes, fails: bool): (r: Result<Bytes, Failure>)
    ensures r.Ok? ==> |r.value| <= |s|
  {
    if LineLen(s) > MAX_LINE_SIZE then Err(TooLong)
    else if NEWLINE !in s && fails then Err(SourceFailed)
    else Ok(s[..LineLen(s)])
  }

  datatype Item = Line(bytes: Bytes) | Fail(failure: Failure)

  /** Everything the reader task forwards. */
  function Items(s: Bytes, fails: bool): seq<Item>
    decreases |s|
  {
    var first := FirstLine(s, fails);
    if first.Err? then [Fail(first.error)]
    else if first.value == [] then []
    else [Line(first.value)] + Items(s[|first.value|..], fails)
  }

  // ----- The buffered source -----

  function Flatten(chunks: seq<Bytes>): Bytes {
    if chunks == [] then [] else chunks[0] + Flatten(chunks[1..])
  }

  predicate NonEmpty(chunks: seq<Bytes>) {
    forall i :: 0 <= i < |chunks| ==> chunks[i] != []
  }

  /** A reader that fills its buffer with arbitrary non-empty chunks. */
  class Source {
    var chunks: seq<Bytes>
    const fails: bool

    ghost predicate Valid()
      reads this
    {
      NonEmpty(chunks)
    }

    ghost function Rest(): Bytes
      reads this
    {
      Flatten(chunks)
    }

    constructor (chunks: seq<Bytes>, fails: bool)
      requires NonEmpty(chunks)
      ensures Valid() && this.chunks == chunks && this.fails == fails
    {
      this.chunks := chunks;
      this.fails := fails;
    }

    /** The buffered bytes; empty only at the end. */
    function FillBuf(): (r: Result<Bytes, Failure>)
      requires Valid()
      reads this
      ensures r.Ok? ==> r.value <= Rest() && (r.value == [] <==> chunks == [])
      ensures r.Err? <==> chunks == [] && fails
    {
      if chunks != [] then Ok(chunks[0]) else if fails then Err(SourceFailed) else Ok([])
    }

    method Consume(n: nat)
      requires Valid() && chunks != [] && n <= |chunks[0]|
      modifies this
      ensures Valid() && Rest() == old(Rest())[n..]
      ensures n > 0 ==> |Rest()| < |old(Rest())|
    {
      assert chunks[0] + Flatten(chunks[1..]) == chunks[0][..n] + (chunks[0][n..] + Flatten(chunks[1..]));
      if n == |chunks[0]| {
        chunks := chunks[1..];
      } else {
        assert ([chunks[0][n..]] + chunks[1..])[1..] == chunks[1..];
        chunks := [chunks[0][n..]] + chunks[1..];
      }
    }
  }

  lemma NothingFlat(chunks: seq<Bytes>)
    requires NonEmpty(chunks)
    ensures Flatten(chunks) == [] <==> chunks == []
  {
  }

  lemma NoneBefore(s: Bytes, n: nat)
    requires n <= |s| && NEWLINE !in s[..n]
    ensures forall i :: 0 <= i < n ==> s[i] != NEWLINE
  {
    assert forall i :: 0 <= i < n ==> s[..n][i] == s[i];
  }

  lemma LineEndAt(s: Bytes, n: nat)
    requires n <= |s| && NEWLINE !in s[..n] && (n < |s| ==> s[n] == NEWLINE)
    ensures LineEnd(s) == n
  {
    NoneBefore(s, n);
    NoneBefore(s, LineEnd(s));
  }

  lemma LastLine(s: Bytes)
    requires NEWLINE !in s
    ensures LineLen(s) == |s|
  {
    assert s[..|s|] == s;
    LineEndAt(s, |s|);
  }

  /** Accumulates fills until a newline or the end; the cap is checked after each fill. */
  method ReadLineCapped(reader: Source) returns (r: Result<Bytes, Failure>)
    requires reader.Valid()
    modifies reader
    ensures reader.Valid()
    ensures r == FirstLine(old(reader.Rest()), reader.fails)
    ensures r.Ok? ==> reader.Rest() == old(reader.Rest())[|r.value|..]
  {
    hide LineEnd, Flatten, NonEmpty, LineLen;
    ghost var all := reader.Rest();
    var buf: Bytes := [];
    while true
      invariant reader.Valid()
      invariant all == buf + reader.Rest() && NEWLINE !in buf && |buf| <= MAX_LINE_SIZE
      decreases |reader.Rest()|
    {
      NothingFlat(reader.chunks);
      var fill := reader.FillBuf();
      if fill.Err? {
        LastLine(all);
        return Err(fill.error);
      }
      var available := fill.value;
      if available == [] {
        LastLine(all);
        return Ok(buf);
      }
      var pos := LineEnd(available);
      var done := pos < |available|;
      var consumed := if done then pos + 1 else |available|;
      ghost var before := buf;
      buf := buf + available[..consumed];
      assert available[..consumed] == reader.Rest()[..consumed];
      reader.Consume(consumed);
      assert all == buf + reader.Rest();
      LineSoFar(all, before, available, consumed);
      if |buf| > MAX_LINE_SIZE {
        return Err(TooLong);
      }
      if done {
        return Ok(buf);
      }
    }
  }

  lemma LineSoFar(all: Bytes, before: Bytes, available: Bytes, consumed: nat)
    requires before + available <= all && NEWLINE !in before && available != []
    requires consumed == if LineEnd(available) < |available| then LineEnd(available) + 1 else |available|
    ensures LineEnd(available) < |available| ==> LineLen(all) == |before| + consumed && NEWLINE in all
    ensures LineEnd(available) == |available| ==>
      NEWLINE !in before + available[..consumed] && LineLen(all) >= |before| + consumed
  {
    hide LineEnd, LineLen;
    var pos := LineEnd(available);
    if pos < |available| {
      NewlineFound(all, before, available, pos);
    } else {
      assert available[..pos] == available;
      NewlineAhead(all, before + available);
    }
  }

  lemma NewlineFound(all: Bytes, before: Bytes, available: Bytes, pos: nat)
    requires before + available <= all && NEWLINE !in before
    requires pos < |available| && NEWLINE !in available[..pos] && available[pos] == NEWLINE
    ensures LineLen(all) == |before| + pos + 1 && NEWLINE in all
  {
    hide LineEnd;
    var n := |before| + pos;
    var front := before + available;
    assert all[..|front|] == front;
    assert all[..n] == front[..n] == before + available[..pos];
    assert all[n] == front[n] == available[pos];
    LineEndAt(all, n);
  }

  lemma NewlineAhead(all: Bytes, front: Bytes)
    requires front <= all && NEWLINE !in front
    ensures LineLen(all) >= |front|
  {
    hide LineEnd;
    assert all[..|front|] == front;
    NoneBefore(all, |front|);
  }

  lemma Regroup<T>(a: seq<T>, b: seq<T>, c: seq<T>)
    ensures a + (b + c) == (a + b) + c
  {
  }

  /** The reader task, run to its end. */
  method ForwardLines(reader: Source) returns (sent: seq<Item>)
    requires reader.Valid()
    modifies reader
    ensures sent == Items(old(reader.Rest()), reader.fails)
  {
    hide Items, FirstLine;
    sent := [];
    ghost var all := reader.Rest();
    while true
      invariant reader.Valid()
      invariant Items(all, reader.fails) == sent + Items(reader.Rest(), reader.fails)
      decreases |reader.Rest()|
    {
      ghost var rest := reader.Rest();
      var line := ReadLineCapped(reader);
      ItemsStep(rest, reader.fails);
      if line.Err? {
        sent := sent + [Fail(line.error)];
        return;
      }
      if line.value == [] {
        assert sent + [] == sent;
        return;
      }
      Regroup(sent, [Line(line.value)], Items(reader.Rest(), reader.fails));
      sent := sent + [Line(line.value)];
    }
  }

  lemma ItemsStep(s: Bytes, fails: bool)
    ensures var first := FirstLine(s, fails);
      Items(s, fails) ==
        if first.Err? then [Fail(first.error)]
        else if first.value == [] then []
        else [Line(first.value)] + Items(s[|first.value|..], fails)
  {
  }

  // ----- Serving -----

  /** What `poll_read` answers; `Ready([])` for a positive size is the end. */
  datatype Poll = Ready(bytes: Bytes) | Failed(failure: Failure) | Pending

  function Least(a: nat, b: nat): nat {
    if a <= b then a else b
  }

  class LineBufferedRead {
    var buf: Bytes
    var pos: nat
    var rx: seq<Item>
    var closed: bool

    ghost predicate Valid()
      reads this
    {
      pos <= |buf|
    }

    /** Bytes of the current line not served yet. */
    ghost function Stash(): Bytes
      requires Valid()
      reads this
    {
      buf[pos..]
    }

    constructor ()
      ensures Valid() && Stash() == [] && rx == [] && !closed
    {
      buf, pos, rx, closed := [], 0, [], false;
    }

    /** The reader task sends an item. */
    method Send(item: Item)
      requires Valid() && !closed
      modifies this`rx
      ensures Valid() && Stash() == old(Stash()) && rx == old(rx) + [item]
    {
      rx := rx + [item];
    }

    /** The reader task ends and drops its sender. */
    method Close()
      requires Valid()
      modifies this`closed
      ensures Valid() && closed
    {
      closed := true;
    }

    method PollRead(size: nat) returns (poll: Poll)
      requires Valid()
      modifies this`buf, this`pos, this`rx
      ensures Valid()
      ensures (Stash(), rx, poll) == Serve(old(Stash()), old(rx), closed, size)
    {
      if pos < |buf| {
        var n := Least(|buf| - pos, size);
        assert buf[pos..][..n] == buf[pos..pos + n] && buf[pos..][n..] == buf[pos + n..];
        poll := Ready(buf[pos..pos + n]);
        pos := pos + n;
        if pos >= |buf| {
          buf, pos := [], 0;
        }
        return;
      }
      if rx == [] {
        return if closed then Ready([]) else Pending;
      }
      var item := rx[0];
      rx := rx[1..];
      match item {
        case Fail(e) => return Failed(e);
        case Line(full) =>
          var n := Least(|full|, size);
          poll := Ready(full[..n]);
          if n < |full| {
            buf, pos := full, n;
          } else {
            assert full[n..] == [];
          }
      }
    }
  }

  /** The stash, the channel and the answer after one read of at most `size` bytes. */
  function Serve(stash: Bytes, rx: seq<Item>, closed: bool, size: nat): (Bytes, seq<Item>, Poll) {
    if stash != [] then
      var n := Least(|stash|, size);
      (stash[n..], rx, Ready(stash[..n]))
    else if rx == [] then (stash, rx, if closed then Ready([]) else Pending)
    else
      match rx[0]
      case Fail(e) => (stash, rx[1..], Failed(e))
      case Line(bytes) =>
        var n := Least(|bytes|, size);
        (bytes[n..], rx[1..], Ready(bytes[..n]))
  }
}
