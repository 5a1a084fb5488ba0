/** Every digested field can be read back from its place in the pre-image. */
module FieldLayout {
  import opened Text
  import opened Decimals
  import opened StringOrder
  import opened Tokens
  import opened FieldEncoding

  /** The field is a decimal number, and this one. */
  predicate ReadsAs(field: string, n: nat) {
    field != "" && AllDigits(field) && Value(field) == n
  }

  lemma DecimalReads(n: nat)
    ensures ReadsAs(Decimal(n), n)
  {
    hide Decimal, Value;
    ValueOfDecimal(n);
  }

  /** How a capture reads: which stream, the artifact id, three counts and whether it was cut. */
  function CaptureText(c: Option<Capture>): string {
    match c
    case None => "absent"
    case Some(x) =>
      (if x.stream.Stdout? then "stdout|" else "stderr|") + x.artifact.id + "|" + Decimal(x.captured) + "|"
      + Decimal(x.produced) + "|" + Decimal(x.bound) + (if x.truncated then "|true" else "|false")
  }

  lemma CaptureReads(c: Option<Capture>)
    ensures OptionalCapture(c) == CaptureText(c)
  {
    hide Decimal;
    if c.Some? {
      var x := c.value;
      CapturePieces(StreamName(x.stream), x.artifact.id, Decimal(x.captured), Decimal(x.produced), Decimal(x.bound),
                    BoolName(x.truncated));
      assert (if x.stream.Stdout? then "stdout|" else "stderr|") == StreamName(x.stream) + "|";
      assert (if x.truncated then "|true" else "|false") == "|" + BoolName(x.truncated);
    }
  }

  lemma CapturePieces(s: string, id: string, a: string, b: string, c: string, t: string)
    ensures s + "|" + (id + "|" + a + "|" + b + "|" + c + "|" + t) == (s + "|") + id + "|" + a + "|" + b + "|" + c + ("|" + t)
  {
  }

  lemma Place(head: seq<string>, list: seq<string>, tail: seq<string>)
    ensures var f := head + (Counted(list) + tail);
      && |f| == |head| + 1 + |list| + |tail| && ReadsAs(f[|head|], |list|)
      && (forall i :: 0 <= i < |head| ==> f[i] == head[i])
      && (forall i :: 0 <= i < |list| ==> f[|head| + 1 + i] == list[i])
      && (forall i :: 0 <= i < |tail| ==> f[|head| + 1 + |list| + i] == tail[i])
      && f[|head| + 1 + |list|..] == tail
  {
    hide Decimal, ReadsAs;
    DecimalReads(|list|);
  }

  /** An execution receipt, field by field. */
  lemma ReceiptReads<Path>(lossy: Path -> string, r: Receipt<Path>)
    ensures var f, n := ReceiptFields(lossy, r), |r.credentials|;
      && |f| == n + 14 && f[0] == r.execution && f[1] == r.program && f[2] == r.argumentsDigest
      && f[3] == r.environmentDigest && f[4] == lossy(r.root)
      && ReadsAs(f[5], n) && (forall i :: 0 <= i < n ==> f[6 + i] == r.credentials[i])
      && ReadsAs(f[6 + n], r.bounds.deadline) && ReadsAs(f[7 + n], r.bounds.stdoutBytes)
      && ReadsAs(f[8 + n], r.bounds.stderrBytes) && ParseExit(f[9 + n]) == Some(r.disposition)
      && ReadsAs(f[10 + n], r.startedAt) && ReadsAs(f[11 + n], r.settledAt)
      && f[12 + n] == CaptureText(r.stdout) && f[13 + n] == CaptureText(r.stderr)
  {
    hide Decimal, ReadsAs, ExitToken, ParseExit, OptionalCapture, CaptureText, Counted;
    var head := [r.execution, r.program, r.argumentsDigest, r.environmentDigest, lossy(r.root)];
    Place(head, r.credentials, ReceiptTail(r));
    DecimalReads(r.bounds.deadline);
    DecimalReads(r.bounds.stdoutBytes);
    DecimalReads(r.bounds.stderrBytes);
    ExitRoundTrip(r.disposition);
    DecimalReads(r.startedAt);
    DecimalReads(r.settledAt);
    CaptureReads(r.stdout);
    CaptureReads(r.stderr);
    TailPlaces(ReceiptFields(lossy, r), ReceiptTail(r), 6 + |r.credentials|);
  }

  /** The eight fields of a tail stand at eight consecutive places. */
  lemma TailPlaces(f: seq<string>, tail: seq<string>, at: nat)
    requires |tail| == 8 && |f| == at + 8 && forall i :: 0 <= i < 8 ==> f[at + i] == tail[i]
    ensures f[at] == tail[0] && f[at + 1] == tail[1] && f[at + 2] == tail[2] && f[at + 3] == tail[3]
    ensures f[at + 4] == tail[4] && f[at + 5] == tail[5] && f[at + 6] == tail[6] && f[at + 7] == tail[7]
  {
    assert f[at + 0] == tail[0];
  }

  /** A kernel receipt, field by field. */
  lemma KernelReceiptReads(hash: Hash, r: KernelReceipt)
    requires ValidExecution(r.disposition)
    ensures var f := KernelHead(r) + KernelTail(hash, r);
      && |f| == 16 && f[0] == "kernel-execution" && f[1] == r.session && ReadsAs(f[2], r.generation)
      && f[3] == r.execution && ReadsAs(f[4], r.sequence) && f[5] == r.sourceDigest && f[6] == r.specDigest
      && ReadsAs(f[7], r.bounds.deadline) && ReadsAs(f[8], r.bounds.stdoutBytes) && ReadsAs(f[9], r.bounds.stderrBytes)
      && ParseExecution(f[10]) == Some(r.disposition) && ReadsAs(f[11], r.startedAt) && ReadsAs(f[12], r.settledAt)
      && f[13] == CaptureText(r.stdout) && f[14] == CaptureText(r.stderr)
      && f[15] == (if r.checkpoint.Some? then hash(Encode(CheckpointFields(r.checkpoint.value))) else "absent")
  {
    hide Decimal, ReadsAs, ExecutionToken, ParseExecution, OptionalCapture, CaptureText, ValidExecution, Encode, CheckpointFields;
    DecimalReads(r.generation);
    DecimalReads(r.sequence);
    DecimalReads(r.bounds.deadline);
    DecimalReads(r.bounds.stdoutBytes);
    DecimalReads(r.bounds.stderrBytes);
    ExecutionRoundTrip(r.disposition);
    DecimalReads(r.startedAt);
    DecimalReads(r.settledAt);
    CaptureReads(r.stdout);
    CaptureReads(r.stderr);
  }

  /** Two counted lists behind a head. */
  lemma TwoPlaces(head: seq<string>, a: seq<string>, b: seq<string>)
    ensures var f := head + (Counted(a) + (Counted(b) + []));
      && |f| == |head| + 2 + |a| + |b| && ReadsAs(f[|head|], |a|) && ReadsAs(f[|head| + 1 + |a|], |b|)
      && (forall i :: 0 <= i < |head| ==> f[i] == head[i])
      && (forall i :: 0 <= i < |a| ==> f[|head| + 1 + i] == a[i])
      && (forall i :: 0 <= i < |b| ==> f[|head| + 2 + |a| + i] == b[i])
  {
    hide Decimal, ReadsAs;
    DecimalReads(|a|);
    DecimalReads(|b|);
  }

  lemma HeadPlaces(f: seq<string>, head: seq<string>)
    requires |head| == 8 <= |f| && forall i :: 0 <= i < 8 ==> f[i] == head[i]
    ensures f[0] == head[0] && f[1] == head[1] && f[2] == head[2] && f[3] == head[3]
    ensures f[4] == head[4] && f[5] == head[5] && f[6] == head[6] && f[7] == head[7]
  {
  }

  /** A checkpoint declaration, field by field. */
  lemma CheckpointReads(c: Checkpoint)
    ensures var f, n, m := CheckpointFields(c), |c.restorable|, |c.nonRestorable|;
      && |f| == 10 + n + m && f[0] == "kernel-checkpoint" && f[1] == c.artifact.id && f[2] == c.artifact.digest
      && f[3] == c.session && ReadsAs(f[4], c.generation) && ReadsAs(f[5], c.afterSequence) && f[6] == c.specDigest
      && ReadsAs(f[7], c.takenAt) && ReadsAs(f[8], n) && ReadsAs(f[9 + n], m)
      && (forall i :: 0 <= i < n ==> f[9 + i] == RestorableToken(c.restorable[i]))
      && (forall i :: 0 <= i < m ==> f[10 + n + i] == NonRestorableToken(c.nonRestorable[i]))
  {
    hide Decimal, ReadsAs, RestorableToken, NonRestorableToken, Counted;
    var head := ["kernel-checkpoint", c.artifact.id, c.artifact.digest, c.session, Decimal(c.generation),
                 Decimal(c.afterSequence), c.specDigest, Decimal(c.takenAt)];
    DecimalReads(c.generation);
    DecimalReads(c.afterSequence);
    DecimalReads(c.takenAt);
    TwoPlaces(head, Texts(c.restorable, RestorableToken), Texts(c.nonRestorable, NonRestorableToken));
    HeadPlaces(CheckpointFields(c), head);
  }

  /** Name and value of each binding, names in order. */
  lemma {:induction false} PairsRead(m: map<string, string>, names: seq<string>, i: nat)
    requires (forall k :: 0 <= k < |names| ==> names[k] in m) && i < |names|
    ensures PairFields(m, names)[2 * i] == names[i] && PairFields(m, names)[2 * i + 1] == m[names[i]]
  {
    if i > 0 {
      PairsRead(m, names[1..], i - 1);
      assert PairFields(m, names)[2 * i] == PairFields(m, names[1..])[2 * (i - 1)];
      assert PairFields(m, names)[2 * i + 1] == PairFields(m, names[1..])[2 * (i - 1) + 1];
    }
  }

  /** The i-th pair behind `at` is this name and value. */
  predicate PairAt(f: seq<string>, at: nat, i: nat, name: string, value: string) {
    at + 2 * i + 1 < |f| && f[at + 2 * i] == name && f[at + 2 * i + 1] == value
  }

  /** A count, the pairs it counts twice over, and three bounds. */
  lemma PairsThenBounds(count: string, pairs: seq<string>, a: string, b: string, c: string)
    ensures var t := [count] + (pairs + [a, b, c]);
      && |t| == |pairs| + 4 && t[0] == count && (forall i :: 0 <= i < |pairs| ==> t[1 + i] == pairs[i])
      && t[1 + |pairs|] == a && t[2 + |pairs|] == b && t[3 + |pairs|] == c
  {
  }

  /** The tail of a spec: its environment in order of names, and its bounds. */
  lemma SpecTailReads(m: map<string, string>, names: seq<string>, bounds: SessionBounds)
    requires forall k :: 0 <= k < |names| ==> names[k] in m
    ensures var t, e := SpecTail(m, names, bounds), |names|;
      && |t| == 2 * e + 4 && ReadsAs(t[0], e)
      && (forall i :: 0 <= i < e ==> PairAt(t, 1, i, names[i], m[names[i]]))
      && ReadsAs(t[1 + 2 * e], bounds.idleDeadline) && ReadsAs(t[2 + 2 * e], bounds.executions)
      && ReadsAs(t[3 + 2 * e], bounds.capturedBytes)
  {
    hide Decimal, ReadsAs, PairFields;
    DecimalReads(|names|);
    DecimalReads(bounds.idleDeadline);
    DecimalReads(bounds.executions);
    DecimalReads(bounds.capturedBytes);
    PairsThenBounds(Decimal(|names|), PairFields(m, names), Decimal(bounds.idleDeadline), Decimal(bounds.executions),
                    Decimal(bounds.capturedBytes));
    forall i | 0 <= i < |names| ensures PairAt(SpecTail(m, names, bounds), 1, i, names[i], m[names[i]]) {
      PairsRead(m, names, i);
      var pairs := PairFields(m, names);
      assert SpecTail(m, names, bounds)[1 + 2 * i] == pairs[2 * i] && SpecTail(m, names, bounds)[1 + (2 * i + 1)] == pairs[2 * i + 1];
    }
  }

  function SpecTail(m: map<string, string>, names: seq<string>, bounds: SessionBounds): seq<string>
    requires forall k :: 0 <= k < |names| ==> names[k] in m
  {
    [Decimal(|names|)] + (PairFields(m, names)
      + [Decimal(bounds.idleDeadline), Decimal(bounds.executions), Decimal(bounds.capturedBytes)])
  }

  /** A kernel spec, field by field; the environment in order of its names. */
  lemma SpecReads<Path>(lossy: Path -> string, k: KernelSpec<Path>)
    ensures StrictlySorted(Names(k.environment)) && (forall name :: name in Names(k.environment) <==> name in k.environment)
    ensures var f, names := SpecFields(lossy, k), Names(k.environment);
      var a, e := |k.arguments|, |names|;
      && |f| == 9 + a + 2 * e && f[0] == "kernel-spec" && f[1] == k.protocol && f[2] == k.program && f[3] == lossy(k.root)
      && ReadsAs(f[4], a) && (forall i :: 0 <= i < a ==> f[5 + i] == k.arguments[i]) && ReadsAs(f[5 + a], e)
      && (forall i :: 0 <= i < e ==> names[i] in k.environment && PairAt(f, 6 + a, i, names[i], k.environment[names[i]]))
      && ReadsAs(f[6 + a + 2 * e], k.bounds.idleDeadline) && ReadsAs(f[7 + a + 2 * e], k.bounds.executions)
      && ReadsAs(f[8 + a + 2 * e], k.bounds.capturedBytes)
  {
    hide *;
    var names := Names(k.environment);
    var tail := SpecTail(k.environment, names, k.bounds);
    NamesSorted(k.environment);
    SpecSplits(lossy, k);
    FourPlaces("kernel-spec", k.protocol, k.program, lossy(k.root), k.arguments, tail);
    SpecTailReads(k.environment, names, k.bounds);
    TailShifted(SpecFields(lossy, k), tail, 5 + |k.arguments|, |names|);
  }

  lemma FourPlaces(a: string, b: string, c: string, d: string, list: seq<string>, tail: seq<string>)
    ensures var f := [a, b, c, d] + (Counted(list) + tail);
      && |f| == 5 + |list| + |tail| && f[0] == a && f[1] == b && f[2] == c && f[3] == d && ReadsAs(f[4], |list|)
      && (forall i :: 0 <= i < |list| ==> f[5 + i] == list[i]) && f[5 + |list|..] == tail
  {
    hide Decimal, ReadsAs;
    DecimalReads(|list|);
  }

  lemma NamesSorted(m: map<string, string>)
    ensures StrictlySorted(Names(m))
  {
    hide StrictlySorted;
  }

  lemma SpecSplits<Path>(lossy: Path -> string, k: KernelSpec<Path>)
    ensures SpecFields(lossy, k) ==
      ["kernel-spec", k.protocol, k.program, lossy(k.root)]
      + (Counted(k.arguments) + SpecTail(k.environment, Names(k.environment), k.bounds))
  {
    hide Decimal, PairFields, Names, Counted;
  }

  lemma TailShifted(f: seq<string>, tail: seq<string>, at: nat, e: nat)
    requires at <= |f| && f[at..] == tail && |tail| == 2 * e + 4
    ensures f[at] == tail[0] && f[at + 1 + 2 * e] == tail[1 + 2 * e] && f[at + 2 + 2 * e] == tail[2 + 2 * e]
    ensures f[at + 3 + 2 * e] == tail[3 + 2 * e]
    ensures forall i: nat, name, value :: PairAt(tail, 1, i, name, value) ==> PairAt(f, at + 1, i, name, value)
  {
    forall i: nat, name, value | PairAt(tail, 1, i, name, value) ensures PairAt(f, at + 1, i, name, value) {
      assert f[at..][1 + 2 * i] == f[at + (1 + 2 * i)] && f[at..][1 + 2 * i + 1] == f[at + (1 + 2 * i + 1)];
    }
  }

  /** The bindings of a launch, in order of their names: the kind, the name and the value. */
  lemma {:induction false} EnvironmentReads(m: map<string, Binding>, names: seq<string>, i: nat)
    requires (forall k :: 0 <= k < |names| ==> names[k] in m) && i < |names|
    ensures var f, b := EnvironmentFields(m, names), m[names[i]];
      && |f| == 3 * |names| && f[3 * i + 1] == names[i]
      && (if b.Literal? then f[3 * i] == "literal" && f[3 * i + 2] == b.value
          else f[3 * i] == "credential" && f[3 * i + 2] == b.handle)
  {
    var rest := EnvironmentFields(m, names[1..]);
    if i > 0 {
      EnvironmentReads(m, names[1..], i - 1);
      var f := EnvironmentFields(m, names);
      assert f[3 * i] == rest[3 * (i - 1)] && f[3 * i + 1] == rest[3 * (i - 1) + 1] && f[3 * i + 2] == rest[3 * (i - 1) + 2];
    } else {
      EnvironmentSize(m, names[1..]);
    }
  }

  lemma {:induction false} EnvironmentSize(m: map<string, Binding>, names: seq<string>)
    requires forall k :: 0 <= k < |names| ==> names[k] in m
    ensures |EnvironmentFields(m, names)| == 3 * |names|
  {
    if names != [] {
      EnvironmentSize(m, names[1..]);
    }
  }
}
