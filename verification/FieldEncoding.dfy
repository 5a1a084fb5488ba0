/** The length-prefixed field encoding behind every digest, and the records whose
    identity it carries. SHA-256 stays outside: all statements are about pre-images. */
module FieldEncoding {
  import opened Text
  import opened Decimals
  import opened StringOrder
  import opened Tokens

  // ----- The encoding -----

  function Encode(fields: seq<string>): string {
    if fields == [] then "" else
      Decimal(Utf8Len(fields[0])) + ":" + fields[0] + "\n" + Encode(fields[1..])
  }

  /** Builds the text `digest_of_fields` hashes. */
  method EncodeFields(fields: seq<string>) returns (encoded: string)
    ensures encoded == Encode(fields)
  {
    encoded := "";
    for i := 0 to |fields|
      invariant Encode(fields) == encoded + Encode(fields[i..])
    {
      EncodeStep(fields[i..]);
      assert fields[i..][1..] == fields[i + 1..];
      var chunk := Decimal(Utf8Len(fields[i])) + ":" + fields[i] + "\n";
      assert encoded + (chunk + Encode(fields[i + 1..])) == (encoded + chunk) + Encode(fields[i + 1..]);
      encoded := encoded + chunk;
    }
  }

  lemma EncodeStep(fields: seq<string>)
    requires fields != []
    ensures Encode(fields) == (Decimal(Utf8Len(fields[0])) + ":" + fields[0] + "\n") + Encode(fields[1..])
  {
  }

  /** The first field of an encoding is determined by it: the length is what stands
      before the first colon, and says how many bytes follow. */
  lemma FirstField(f: string, s: string, g: string, t: string)
    requires (Decimal(Utf8Len(f)) + ":" + f + "\n") + s == (Decimal(Utf8Len(g)) + ":" + g + "\n") + t
    ensures f == g && s == t
  {
    var m, n := Utf8Len(f), Utf8Len(g);
    DigitsHaveNo(m, ':');
    DigitsHaveNo(n, ':');
    hide Decimal, Utf8Len;
    assert (Decimal(m) + ":" + f + "\n") + s == Decimal(m) + [':'] + (f + ("\n" + s));
    assert (Decimal(n) + ":" + g + "\n") + t == Decimal(n) + [':'] + (g + ("\n" + t));
    SplitUnique(Decimal(m), Decimal(n), ':', f + ("\n" + s), g + ("\n" + t));
    DecimalInjective(m, n);
    Utf8PrefixUnique(f, g, "\n" + s, "\n" + t);
    assert ("\n" + s)[1..] == s && ("\n" + t)[1..] == t;
  }

  /** No two field lists encode alike, whatever the fields contain. */
  lemma {:induction false} EncodeInjective(a: seq<string>, b: seq<string>)
    requires Encode(a) == Encode(b)
    ensures a == b
  {
    if a == [] || b == [] {
      EncodeEmpty(a);
      EncodeEmpty(b);
    } else {
      EncodeStep(a);
      EncodeStep(b);
      FirstField(a[0], Encode(a[1..]), b[0], Encode(b[1..]));
      EncodeInjective(a[1..], b[1..]);
      assert a == [a[0]] + a[1..] && b == [b[0]] + b[1..];
    }
  }

  lemma EncodeEmpty(fields: seq<string>)
    ensures Encode(fields) == "" <==> fields == []
  {
  }

  // ----- Counted lists inside a field list -----

  function Counted(list: seq<string>): seq<string> {
    [Decimal(|list|)] + list
  }

  lemma ConsHead<T>(head: T, list: seq<T>, rest: seq<T>)
    ensures ([head] + list + rest)[0] == head && ([head] + list + rest)[1..] == list + rest
  {
  }

  lemma CountedHead(list: seq<string>, rest: seq<string>)
    ensures Counted(list) + rest != []
    ensures (Counted(list) + rest)[0] == Decimal(|list|)
    ensures (Counted(list) + rest)[1..] == list + rest
  {
    hide Decimal;
    ConsHead(Decimal(|list|), list, rest);
  }

  /** A list preceded by its count ends where the count says. */
  lemma CountedUnique(a: seq<string>, s: seq<string>, b: seq<string>, t: seq<string>)
    requires Counted(a) + s == Counted(b) + t
    ensures a == b && s == t
  {
    hide Decimal, Counted;
    CountedHead(a, s);
    CountedHead(b, t);
    DecimalInjective(|a|, |b|);
    FixedUnique(a, s, b, t);
  }

  lemma FixedUnique(a: seq<string>, s: seq<string>, b: seq<string>, t: seq<string>)
    requires a + s == b + t && |a| == |b|
    ensures a == b && s == t
  {
    assert a == (a + s)[..|a|] && b == (b + t)[..|b|] && s == (a + s)[|a|..] && t == (b + t)[|b|..];
  }

  function Texts<T>(items: seq<T>, text: T -> string): (r: seq<string>)
    ensures |r| == |items| && forall i :: 0 <= i < |r| ==> r[i] == text(items[i])
  {
    seq(|items|, i requires 0 <= i < |items| => text(items[i]))
  }

  // ----- Environments -----

  datatype Binding = Literal(value: string) | Credential(handle: string)

  function BindingFields(name: string, b: Binding): seq<string> {
    match b
    case Literal(value) => ["literal", name, value]
    case Credential(handle) => ["credential", name, handle]
  }

  function EnvironmentFields(m: map<string, Binding>, names: seq<string>): seq<string>
    requires forall i :: 0 <= i < |names| ==> names[i] in m
  {
    if names == [] then [] else BindingFields(names[0], m[names[0]]) + EnvironmentFields(m, names[1..])
  }

  /** The keys of an ordered map in iteration order. */
  function Names<V>(m: map<string, V>): (names: seq<string>)
    ensures forall i :: 0 <= i < |names| ==> names[i] in m
    ensures forall k :: k in names <==> k in m
  {
    var names := SortedKeys(m.Keys);
    assert forall i :: 0 <= i < |names| ==> names[i] in names;
    names
  }

  /** The pre-image of the environment digest: bindings in name order. */
  function Environment(m: map<string, Binding>): string {
    Encode(EnvironmentFields(m, Names(m)))
  }

  lemma BindingUnique(x: string, b: Binding, s: seq<string>, y: string, c: Binding, t: seq<string>)
    requires BindingFields(x, b) + s == BindingFields(y, c) + t
    ensures x == y && b == c && s == t
  {
    FixedUnique(BindingFields(x, b), s, BindingFields(y, c), t);
    assert BindingFields(x, b)[0] == BindingFields(y, c)[0];
    assert BindingFields(x, b)[1] == BindingFields(y, c)[1] && BindingFields(x, b)[2] == BindingFields(y, c)[2];
    assert "literal"[0] != "credential"[0];
  }

  lemma {:induction false} EnvironmentFieldsUnique(m: map<string, Binding>, xs: seq<string>,
                                                   n: map<string, Binding>, ys: seq<string>)
    requires (forall i :: 0 <= i < |xs| ==> xs[i] in m) && (forall i :: 0 <= i < |ys| ==> ys[i] in n)
    requires EnvironmentFields(m, xs) == EnvironmentFields(n, ys)
    ensures xs == ys && forall i :: 0 <= i < |xs| ==> m[xs[i]] == n[xs[i]]
  {
    if xs != [] && ys != [] {
      BindingUnique(xs[0], m[xs[0]], EnvironmentFields(m, xs[1..]), ys[0], n[ys[0]], EnvironmentFields(n, ys[1..]));
      EnvironmentFieldsUnique(m, xs[1..], n, ys[1..]);
      assert xs == [xs[0]] + xs[1..] && ys == [ys[0]] + ys[1..];
    }
  }

  /** Launches with equal environment pre-images bind the same names the same way. */
  lemma EnvironmentUnique(m: map<string, Binding>, n: map<string, Binding>)
    requires Environment(m) == Environment(n)
    ensures m == n
  {
    hide Names, EnvironmentFields, Encode;
    EncodeInjective(EnvironmentFields(m, Names(m)), EnvironmentFields(n, Names(n)));
    EnvironmentFieldsUnique(m, Names(m), n, Names(n));
    forall k | k in m ensures k in n && m[k] == n[k] {
      assert k in Names(m);
      var i :| 0 <= i < |Names(m)| && Names(m)[i] == k;
    }
    forall k | k in n ensures k in m {
      assert k in Names(n);
    }
  }

  // ----- Captures -----

  datatype Stream = Stdout | Stderr

  datatype Artifact = Artifact(id: string, digest: string)

  datatype Capture = Capture(
    stream: Stream, artifact: Artifact, captured: nat, produced: nat, bound: nat, truncated: bool)

  function StreamName(s: Stream): string {
    if s.Stdout? then "stdout" else "stderr"
  }

  function BoolName(b: bool): string {
    if b then "true" else "false"
  }

  function CaptureField(c: Capture): string {
    StreamName(c.stream) + "|"
    + (c.artifact.id + "|" + Decimal(c.captured) + "|" + Decimal(c.produced) + "|" + Decimal(c.bound) + "|"
       + BoolName(c.truncated))
  }

  /** A capture field determines everything but the artifact's separate digest - also
      when the artifact id contains bars, since the fields behind it do not. */
  lemma CaptureUnique(c: Capture, d: Capture)
    ensures CaptureField(c) == CaptureField(d) <==> c == d.(artifact := c.artifact) && c.artifact.id == d.artifact.id
  {
    if CaptureField(c) == CaptureField(d) {
      CaptureParts(c, d);
    }
  }

  lemma CaptureParts(c: Capture, d: Capture)
    requires CaptureField(c) == CaptureField(d)
    ensures c == d.(artifact := c.artifact) && c.artifact.id == d.artifact.id
  {
    DigitsHaveNo(c.captured, '|');
    DigitsHaveNo(d.captured, '|');
    DigitsHaveNo(c.produced, '|');
    DigitsHaveNo(d.produced, '|');
    DigitsHaveNo(c.bound, '|');
    DigitsHaveNo(d.bound, '|');
    NamesHaveNoBar(c);
    NamesHaveNoBar(d);
    hide Decimal, BoolName, StreamName;
    var x3, y3 := c.artifact.id + "|" + Decimal(c.captured), d.artifact.id + "|" + Decimal(d.captured);
    var x2, y2 := x3 + "|" + Decimal(c.produced), y3 + "|" + Decimal(d.produced);
    var x1, y1 := x2 + "|" + Decimal(c.bound), y2 + "|" + Decimal(d.bound);
    SplitUnique(StreamName(c.stream), StreamName(d.stream), '|',
                x1 + "|" + BoolName(c.truncated), y1 + "|" + BoolName(d.truncated));
    SplitLast(x1, y1, '|', BoolName(c.truncated), BoolName(d.truncated));
    SplitLast(x2, y2, '|', Decimal(c.bound), Decimal(d.bound));
    SplitLast(x3, y3, '|', Decimal(c.produced), Decimal(d.produced));
    SplitLast(c.artifact.id, d.artifact.id, '|', Decimal(c.captured), Decimal(d.captured));
    DecimalInjective(c.captured, d.captured);
    DecimalInjective(c.produced, d.produced);
    DecimalInjective(c.bound, d.bound);
    NamesDistinguish(c, d);
  }

  lemma NamesHaveNoBar(c: Capture)
    ensures '|' !in StreamName(c.stream) && '|' !in BoolName(c.truncated)
  {
  }

  lemma NamesDistinguish(c: Capture, d: Capture)
    requires StreamName(c.stream) == StreamName(d.stream) && BoolName(c.truncated) == BoolName(d.truncated)
    ensures c.stream == d.stream && c.truncated == d.truncated
  {
    assert StreamName(c.stream)[3] == StreamName(d.stream)[3] && BoolName(c.truncated)[0] == BoolName(d.truncated)[0];
  }

  function OptionalCapture(c: Option<Capture>): string {
    match c case Some(capture) => CaptureField(capture) case None => "absent"
  }

  predicate SameCapture(c: Option<Capture>, d: Option<Capture>) {
    match (c, d)
    case (None, None) => true
    case (Some(x), Some(y)) => x == y.(artifact := x.artifact) && x.artifact.id == y.artifact.id
    case _ => false
  }

  lemma CapturePresent(c: Capture)
    ensures CaptureField(c) != "absent"
  {
    assert CaptureField(c)[6] == '|';
  }

  lemma OptionalCaptureUnique(c: Option<Capture>, d: Option<Capture>)
    ensures OptionalCapture(c) == OptionalCapture(d) <==> SameCapture(c, d)
  {
    hide CaptureField;
    match (c, d) {
      case (Some(x), Some(y)) => CaptureUnique(x, y);
      case (Some(x), None) => CapturePresent(x);
      case (None, Some(y)) => CapturePresent(y);
      case _ =>
    }
  }

  // ----- Execution receipts -----

  datatype Bounds = Bounds(deadline: nat, stdoutBytes: nat, stderrBytes: nat)

  /** `Path` is opaque; receipts record its lossy text. */
  datatype Receipt<Path> = Receipt(
    execution: string, program: string, argumentsDigest: string, environmentDigest: string, root: Path,
    credentials: seq<string>, bounds: Bounds, disposition: Exit, startedAt: nat, settledAt: nat,
    stdout: Option<Capture>, stderr: Option<Capture>)

  function ReceiptTail<Path>(r: Receipt<Path>): seq<string> {
    [Decimal(r.bounds.deadline), Decimal(r.bounds.stdoutBytes), Decimal(r.bounds.stderrBytes),
     ExitToken(r.disposition), Decimal(r.startedAt), Decimal(r.settledAt),
     OptionalCapture(r.stdout), OptionalCapture(r.stderr)]
  }

  function ReceiptFields<Path>(lossy: Path -> string, r: Receipt<Path>): seq<string> {
    [r.execution, r.program, r.argumentsDigest, r.environmentDigest, lossy(r.root)]
    + (Counted(r.credentials) + ReceiptTail(r))
  }

  /** Equal up to what the digest does not cover: the exact root behind its lossy text,
      and the digest an artifact handle carries beside its id. */
  ghost predicate SameReceipt<Path>(lossy: Path -> string, a: Receipt<Path>, b: Receipt<Path>) {
    && a == b.(root := a.root, stdout := a.stdout, stderr := a.stderr)
    && lossy(a.root) == lossy(b.root) && SameCapture(a.stdout, b.stdout) && SameCapture(a.stderr, b.stderr)
  }

  lemma ExitTokenUnique(d: Exit, e: Exit)
    requires ExitToken(d) == ExitToken(e)
    ensures d == e
  {
    ExitRoundTrip(d);
    ExitRoundTrip(e);
  }

  lemma ReceiptTailUnique<Path>(a: Receipt<Path>, b: Receipt<Path>)
    requires ReceiptTail(a) == ReceiptTail(b)
    ensures a.bounds == b.bounds && a.disposition == b.disposition
      && a.startedAt == b.startedAt && a.settledAt == b.settledAt
      && SameCapture(a.stdout, b.stdout) && SameCapture(a.stderr, b.stderr)
  {
    hide Decimal, ExitToken, OptionalCapture, SameCapture;
    var s, t := ReceiptTail(a), ReceiptTail(b);
    assert s[0] == t[0] && s[1] == t[1] && s[2] == t[2] && s[3] == t[3];
    assert s[4] == t[4] && s[5] == t[5] && s[6] == t[6] && s[7] == t[7];
    DecimalInjective(a.bounds.deadline, b.bounds.deadline);
    DecimalInjective(a.bounds.stdoutBytes, b.bounds.stdoutBytes);
    DecimalInjective(a.bounds.stderrBytes, b.bounds.stderrBytes);
    ExitTokenUnique(a.disposition, b.disposition);
    DecimalInjective(a.startedAt, b.startedAt);
    DecimalInjective(a.settledAt, b.settledAt);
    OptionalCaptureUnique(a.stdout, b.stdout);
    OptionalCaptureUnique(a.stderr, b.stderr);
  }

  /** Receipts have equal pre-images exactly when they describe the same execution. */
  lemma ReceiptUnique<Path>(lossy: Path -> string, a: Receipt<Path>, b: Receipt<Path>)
    ensures Encode(ReceiptFields(lossy, a)) == Encode(ReceiptFields(lossy, b)) <==> SameReceipt(lossy, a, b)
  {
    hide Encode, ReceiptFields, SameReceipt;
    if Encode(ReceiptFields(lossy, a)) == Encode(ReceiptFields(lossy, b)) {
      EncodeInjective(ReceiptFields(lossy, a), ReceiptFields(lossy, b));
      FieldsSameReceipt(lossy, a, b);
    }
    if SameReceipt(lossy, a, b) {
      SameReceiptFields(lossy, a, b);
    }
  }

  lemma FieldsSameReceipt<Path>(lossy: Path -> string, a: Receipt<Path>, b: Receipt<Path>)
    requires ReceiptFields(lossy, a) == ReceiptFields(lossy, b)
    ensures SameReceipt(lossy, a, b)
  {
    hide Decimal, ReceiptTail, SameCapture;
    var s := [a.execution, a.program, a.argumentsDigest, a.environmentDigest, lossy(a.root)];
    var t := [b.execution, b.program, b.argumentsDigest, b.environmentDigest, lossy(b.root)];
    FixedUnique(s, Counted(a.credentials) + ReceiptTail(a),
                t, Counted(b.credentials) + ReceiptTail(b));
    CountedUnique(a.credentials, ReceiptTail(a), b.credentials, ReceiptTail(b));
    ReceiptTailUnique(a, b);
    assert s[0] == t[0] && s[1] == t[1] && s[2] == t[2] && s[3] == t[3] && s[4] == t[4];
  }

  lemma SameReceiptFields<Path>(lossy: Path -> string, a: Receipt<Path>, b: Receipt<Path>)
    requires SameReceipt(lossy, a, b)
    ensures ReceiptFields(lossy, a) == ReceiptFields(lossy, b)
  {
    hide Decimal, OptionalCapture, SameCapture, ExitToken;
    OptionalCaptureUnique(a.stdout, b.stdout);
    OptionalCaptureUnique(a.stderr, b.stderr);
    assert ReceiptTail(a) == ReceiptTail(b);
  }

  /** The receipt with the digest beside its captured output's id exchanged. */
  function WithOutputDigest<Path>(r: Receipt<Path>, c: Capture, digest: string): Receipt<Path> {
    r.(stdout := Some(c.(artifact := c.artifact.(digest := digest))))
  }

  /** What the digest does not cover: a handle whose digest disagrees with its id goes
      unnoticed in any receipt with captured output. */
  lemma ArtifactDigestIsOpen<Path>(lossy: Path -> string, r: Receipt<Path>, c: Capture, digest: string)
    requires r.stdout == Some(c) && digest != c.artifact.digest
    ensures var forged := WithOutputDigest(r, c, digest);
      forged != r && Encode(ReceiptFields(lossy, forged)) == Encode(ReceiptFields(lossy, r))
  {
    hide Encode, ReceiptFields;
    var forged := WithOutputDigest(r, c, digest);
    ReceiptUnique(lossy, forged, r);
  }

  // ----- Kernel specs -----

  datatype SessionBounds = SessionBounds(idleDeadline: nat, executions: nat, capturedBytes: nat)

  datatype KernelSpec<Path> = KernelSpec(
    program: string, protocol: string, arguments: seq<string>, environment: map<string, string>,
    reserved: set<string>, root: Path, bounds: SessionBounds)

  function PairFields(m: map<string, string>, names: seq<string>): (r: seq<string>)
    requires forall i :: 0 <= i < |names| ==> names[i] in m
    ensures |r| == 2 * |names|
  {
    if names == [] then [] else [names[0], m[names[0]]] + PairFields(m, names[1..])
  }

  function SpecFields<Path>(lossy: Path -> string, k: KernelSpec<Path>): seq<string> {
    ["kernel-spec", k.protocol, k.program, lossy(k.root)]
    + (Counted(k.arguments)
       + ([Decimal(|Names(k.environment)|)] + (PairFields(k.environment, Names(k.environment))
          + [Decimal(k.bounds.idleDeadline), Decimal(k.bounds.executions), Decimal(k.bounds.capturedBytes)])))
  }

  lemma {:induction false} PairFieldsUnique(m: map<string, string>, xs: seq<string>, n: map<string, string>, ys: seq<string>)
    requires (forall i :: 0 <= i < |xs| ==> xs[i] in m) && (forall i :: 0 <= i < |ys| ==> ys[i] in n)
    requires PairFields(m, xs) == PairFields(n, ys)
    ensures xs == ys && forall i :: 0 <= i < |xs| ==> m[xs[i]] == n[xs[i]]
  {
    if xs != [] && ys != [] {
      var s, t := [xs[0], m[xs[0]]], [ys[0], n[ys[0]]];
      FixedUnique(s, PairFields(m, xs[1..]), t, PairFields(n, ys[1..]));
      assert s[0] == t[0] && s[1] == t[1];
      PairFieldsUnique(m, xs[1..], n, ys[1..]);
      assert xs == [xs[0]] + xs[1..] && ys == [ys[0]] + ys[1..];
    }
  }

  lemma PairsUnique(m: map<string, string>, n: map<string, string>)
    requires PairFields(m, Names(m)) == PairFields(n, Names(n))
    ensures m == n
  {
    hide PairFields, Names;
    PairFieldsUnique(m, Names(m), n, Names(n));
    forall k | k in m ensures k in n && m[k] == n[k] {
      assert k in Names(m);
      var i :| 0 <= i < |Names(m)| && Names(m)[i] == k;
    }
    forall k | k in n ensures k in m {
      assert k in Names(n);
    }
  }

  /** Equal up to the lossy root and the reserved names, which the digest leaves out. */
  ghost predicate SameSpec<Path>(lossy: Path -> string, k: KernelSpec<Path>, l: KernelSpec<Path>) {
    k == l.(root := k.root, reserved := k.reserved) && lossy(k.root) == lossy(l.root)
  }

  /** Kernel specs have equal pre-images exactly when they are the same image. */
  lemma SpecUnique<Path>(lossy: Path -> string, k: KernelSpec<Path>, l: KernelSpec<Path>)
    ensures Encode(SpecFields(lossy, k)) == Encode(SpecFields(lossy, l)) <==> SameSpec(lossy, k, l)
  {
    hide Encode, PairFields, Names, Decimal;
    if Encode(SpecFields(lossy, k)) == Encode(SpecFields(lossy, l)) {
      EncodeInjective(SpecFields(lossy, k), SpecFields(lossy, l));
      FieldsSameSpec(lossy, k, l);
    }
  }

  lemma FieldsSameSpec<Path>(lossy: Path -> string, k: KernelSpec<Path>, l: KernelSpec<Path>)
    requires SpecFields(lossy, k) == SpecFields(lossy, l)
    ensures SameSpec(lossy, k, l)
  {
    hide Decimal, PairFields, Names;
    var s, t := ["kernel-spec", k.protocol, k.program, lossy(k.root)], ["kernel-spec", l.protocol, l.program, lossy(l.root)];
    var sb := [Decimal(k.bounds.idleDeadline), Decimal(k.bounds.executions), Decimal(k.bounds.capturedBytes)];
    var tb := [Decimal(l.bounds.idleDeadline), Decimal(l.bounds.executions), Decimal(l.bounds.capturedBytes)];
    var se, te := PairFields(k.environment, Names(k.environment)), PairFields(l.environment, Names(l.environment));
    var sn, tn := [Decimal(|Names(k.environment)|)], [Decimal(|Names(l.environment)|)];
    FixedUnique(s, Counted(k.arguments) + (sn + (se + sb)),
                t, Counted(l.arguments) + (tn + (te + tb)));
    CountedUnique(k.arguments, sn + (se + sb), l.arguments, tn + (te + tb));
    FixedUnique(sn, se + sb, tn, te + tb);
    assert sn[0] == tn[0];
    DecimalInjective(|Names(k.environment)|, |Names(l.environment)|);
    FixedUnique(se, sb, te, tb);
    PairsUnique(k.environment, l.environment);
    assert s[1] == t[1] && s[2] == t[2] && s[3] == t[3] && sb[0] == tb[0] && sb[1] == tb[1] && sb[2] == tb[2];
    DecimalInjective(k.bounds.idleDeadline, l.bounds.idleDeadline);
    DecimalInjective(k.bounds.executions, l.bounds.executions);
    DecimalInjective(k.bounds.capturedBytes, l.bounds.capturedBytes);
  }

  // ----- Kernel checkpoints -----

  datatype Checkpoint = Checkpoint(
    artifact: Artifact, session: string, generation: nat, afterSequence: nat, specDigest: string, takenAt: nat,
    restorable: seq<Restorable>, nonRestorable: seq<NonRestorable>)

  function CheckpointFields(c: Checkpoint): seq<string> {
    var kept := Texts(c.restorable, RestorableToken);
    var lost := Texts(c.nonRestorable, NonRestorableToken);
    ["kernel-checkpoint", c.artifact.id, c.artifact.digest, c.session, Decimal(c.generation),
     Decimal(c.afterSequence), c.specDigest, Decimal(c.takenAt)]
    + (Counted(kept) + (Counted(lost) + []))
  }

  lemma RestorablesUnique(a: seq<Restorable>, b: seq<Restorable>)
    requires Texts(a, RestorableToken) == Texts(b, RestorableToken)
    ensures a == b
  {
    var s, t := Texts(a, RestorableToken), Texts(b, RestorableToken);
    forall i | 0 <= i < |a| ensures a[i] == b[i] {
      assert s[i] == t[i];
      RestorableInjective(a[i], b[i]);
    }
  }

  lemma NonRestorablesUnique(a: seq<NonRestorable>, b: seq<NonRestorable>)
    requires Texts(a, NonRestorableToken) == Texts(b, NonRestorableToken)
    ensures a == b
  {
    hide NonRestorableToken;
    var s, t := Texts(a, NonRestorableToken), Texts(b, NonRestorableToken);
    forall i | 0 <= i < |a| ensures a[i] == b[i] {
      assert s[i] == t[i];
      NonRestorableInjective(a[i], b[i]);
    }
  }

  /** Checkpoint declarations with equal pre-images are equal, down to every fact they
      claim to keep or declare lost. */
  lemma CheckpointUnique(c: Checkpoint, d: Checkpoint)
    requires Encode(CheckpointFields(c)) == Encode(CheckpointFields(d))
    ensures c == d
  {
    hide Decimal, Encode, RestorableToken, NonRestorableToken;
    EncodeInjective(CheckpointFields(c), CheckpointFields(d));
    var s := ["kernel-checkpoint", c.artifact.id, c.artifact.digest, c.session, Decimal(c.generation),
              Decimal(c.afterSequence), c.specDigest, Decimal(c.takenAt)];
    var t := ["kernel-checkpoint", d.artifact.id, d.artifact.digest, d.session, Decimal(d.generation),
              Decimal(d.afterSequence), d.specDigest, Decimal(d.takenAt)];
    var ck, cl := Texts(c.restorable, RestorableToken), Texts(c.nonRestorable, NonRestorableToken);
    var dk, dl := Texts(d.restorable, RestorableToken), Texts(d.nonRestorable, NonRestorableToken);
    FixedUnique(s, Counted(ck) + (Counted(cl) + []), t, Counted(dk) + (Counted(dl) + []));
    CountedUnique(ck, Counted(cl) + [], dk, Counted(dl) + []);
    CountedUnique(cl, [], dl, []);
    RestorablesUnique(c.restorable, d.restorable);
    NonRestorablesUnique(c.nonRestorable, d.nonRestorable);
    assert s[1] == t[1] && s[2] == t[2] && s[3] == t[3] && s[4] == t[4];
    assert s[5] == t[5] && s[6] == t[6] && s[7] == t[7];
    DecimalInjective(c.generation, d.generation);
    DecimalInjective(c.afterSequence, d.afterSequence);
    DecimalInjective(c.takenAt, d.takenAt);
  }

  // ----- Kernel execution receipts -----

  datatype KernelReceipt = KernelReceipt(
    session: string, generation: nat, execution: string, sequence: nat, sourceDigest: string, specDigest: string,
    bounds: Bounds, disposition: Execution, startedAt: nat, settledAt: nat,
    stdout: Option<Capture>, stderr: Option<Capture>, checkpoint: Option<Checkpoint>)

  /** The content address of a text: 64 hexadecimal digits. */
  type Hash = string -> string

  function CheckpointText(hash: Hash, c: Option<Checkpoint>): string {
    match c case Some(checkpoint) => hash(Encode(CheckpointFields(checkpoint))) case None => "absent"
  }

  function KernelHead(r: KernelReceipt): seq<string> {
    ["kernel-execution", r.session, Decimal(r.generation), r.execution, Decimal(r.sequence), r.sourceDigest, r.specDigest]
  }

  function KernelTail(hash: Hash, r: KernelReceipt): seq<string> {
    [Decimal(r.bounds.deadline), Decimal(r.bounds.stdoutBytes), Decimal(r.bounds.stderrBytes),
     ExecutionToken(r.disposition), Decimal(r.startedAt), Decimal(r.settledAt),
     OptionalCapture(r.stdout), OptionalCapture(r.stderr), CheckpointText(hash, r.checkpoint)]
  }

  lemma ExecutionTokenUnique(d: Execution, e: Execution)
    requires ValidExecution(d) && ValidExecution(e) && ExecutionToken(d) == ExecutionToken(e)
    ensures d == e
  {
    ExecutionRoundTrip(d);
    ExecutionRoundTrip(e);
  }

  /** The addresses of the two cited checkpoints are addresses, and do not collide. */
  predicate Addresses(hash: Hash, c: Option<Checkpoint>, d: Option<Checkpoint>) {
    && (c.Some? ==> |CheckpointText(hash, c)| == 64) && (d.Some? ==> |CheckpointText(hash, d)| == 64)
    && (c.Some? && d.Some? && CheckpointText(hash, c) == CheckpointText(hash, d) ==>
          Encode(CheckpointFields(c.value)) == Encode(CheckpointFields(d.value)))
  }

  lemma CheckpointTextUnique(hash: Hash, c: Option<Checkpoint>, d: Option<Checkpoint>)
    requires Addresses(hash, c, d)
    requires CheckpointText(hash, c) == CheckpointText(hash, d)
    ensures c == d
  {
    hide CheckpointFields, Encode;
    assert |"absent"| == 6;
    if c.Some? && d.Some? {
      CheckpointUnique(c.value, d.value);
    }
  }

  /** Equal up to the digests their artifact handles carry beside the ids. */
  ghost predicate SameKernelReceipt(a: KernelReceipt, b: KernelReceipt) {
    && a == b.(stdout := a.stdout, stderr := a.stderr)
    && SameCapture(a.stdout, b.stdout) && SameCapture(a.stderr, b.stderr)
  }

  /** Kernel receipts have equal pre-images exactly when they describe the same
      execution, down to the checkpoint they cite, as far as the content address does
      not collide. */
  lemma KernelReceiptUnique(hash: Hash, a: KernelReceipt, b: KernelReceipt)
    requires Addresses(hash, a.checkpoint, b.checkpoint)
    requires ValidExecution(a.disposition) && ValidExecution(b.disposition)
    ensures Encode(KernelHead(a) + KernelTail(hash, a)) == Encode(KernelHead(b) + KernelTail(hash, b))
      <==> SameKernelReceipt(a, b)
  {
    hide Decimal, ExecutionToken, OptionalCapture, SameCapture, CheckpointText, Encode, ValidExecution, Addresses;
    if Encode(KernelHead(a) + KernelTail(hash, a)) == Encode(KernelHead(b) + KernelTail(hash, b)) {
      EncodeInjective(KernelHead(a) + KernelTail(hash, a), KernelHead(b) + KernelTail(hash, b));
      FixedUnique(KernelHead(a), KernelTail(hash, a), KernelHead(b), KernelTail(hash, b));
      KernelHeadUnique(a, b);
      KernelTailUnique(hash, a, b);
    }
    if SameKernelReceipt(a, b) {
      OptionalCaptureUnique(a.stdout, b.stdout);
      OptionalCaptureUnique(a.stderr, b.stderr);
      assert KernelTail(hash, a) == KernelTail(hash, b);
    }
  }

  lemma KernelHeadUnique(a: KernelReceipt, b: KernelReceipt)
    requires KernelHead(a) == KernelHead(b)
    ensures a.session == b.session && a.generation == b.generation && a.execution == b.execution
      && a.sequence == b.sequence && a.sourceDigest == b.sourceDigest && a.specDigest == b.specDigest
  {
    hide Decimal;
    var s, t := KernelHead(a), KernelHead(b);
    assert s[1] == t[1] && s[2] == t[2] && s[3] == t[3] && s[4] == t[4] && s[5] == t[5] && s[6] == t[6];
    DecimalInjective(a.generation, b.generation);
    DecimalInjective(a.sequence, b.sequence);
  }

  lemma KernelTailUnique(hash: Hash, a: KernelReceipt, b: KernelReceipt)
    requires Addresses(hash, a.checkpoint, b.checkpoint)
    requires ValidExecution(a.disposition) && ValidExecution(b.disposition)
    requires KernelTail(hash, a) == KernelTail(hash, b)
    ensures a.bounds == b.bounds && a.disposition == b.disposition
      && a.startedAt == b.startedAt && a.settledAt == b.settledAt && a.checkpoint == b.checkpoint
      && SameCapture(a.stdout, b.stdout) && SameCapture(a.stderr, b.stderr)
  {
    hide Decimal, ExecutionToken, OptionalCapture, SameCapture, CheckpointText, ValidExecution, Addresses;
    var s, t := KernelTail(hash, a), KernelTail(hash, b);
    assert s[0] == t[0] && s[1] == t[1] && s[2] == t[2] && s[3] == t[3];
    assert s[4] == t[4] && s[5] == t[5] && s[6] == t[6] && s[7] == t[7] && s[8] == t[8];
    DecimalInjective(a.bounds.deadline, b.bounds.deadline);
    DecimalInjective(a.bounds.stdoutBytes, b.bounds.stdoutBytes);
    DecimalInjective(a.bounds.stderrBytes, b.bounds.stderrBytes);
    ExecutionTokenUnique(a.disposition, b.disposition);
    DecimalInjective(a.startedAt, b.startedAt);
    DecimalInjective(a.settledAt, b.settledAt);
    OptionalCaptureUnique(a.stdout, b.stdout);
    OptionalCaptureUnique(a.stderr, b.stderr);
    CheckpointTextUnique(hash, a.checkpoint, b.checkpoint);
  }
}
