/** The stable tokens stored for dispositions and checkpoint facts. */
module Tokens {
  import opened Text
  import opened Decimals

  const I32_MIN := -0x8000_0000
  const I32_MAX := 0x7FFF_FFFF
  const MAX_KERNEL_LABEL_BYTES := 256

  type i32 = n: int | I32_MIN <= n <= I32_MAX

  // ----- Signed numbers -----

  function Magnitude(n: int): nat {
    if n < 0 then -n else n
  }

  function Signed(n: int): (s: string)
    ensures s != ""
  {
    if n < 0 then "-" + Decimal(Magnitude(n)) else Decimal(n)
  }

  /** `str::parse::<i32>`: an optional sign, then at least one digit, in range. */
  function ParseI32(s: string): Option<i32> {
    if s == "" then None else
      var negative := s[0] == '-';
      var digits := if s[0] == '-' || s[0] == '+' then s[1..] else s;
      if digits == "" || !AllDigits(digits) then None else
        var v: int := Value(digits);
        var n := if negative then -v else v;
        if I32_MIN <= n <= I32_MAX then Some(n) else None
  }

  lemma ParseSigned(n: i32)
    ensures ParseI32(Signed(n)) == Some(n)
  {
    var m := Magnitude(n);
    ValueOfDecimal(m);
    assert IsDigit(Decimal(m)[0]);
    assert n < 0 ==> Signed(n)[1..] == Decimal(m);
  }

  /** No plus sign, no leading zero, no minus zero. */
  predicate CanonicalNumber(s: string) {
    s == "0" || (s != "" && '1' <= s[0] <= '9') || (|s| > 1 && s[0] == '-' && '1' <= s[1] <= '9')
  }

  lemma {:induction false} DecimalOfValue(s: string)
    requires AllDigits(s) && s != "" && s[0] != '0'
    ensures Value(s) >= 1 && Decimal(Value(s)) == s
  {
    var front, last := s[..|s| - 1], s[|s| - 1];
    assert s == front + [last];
    var d := last as int - '0' as int;
    if front == "" {
      assert Value(s) == 10 * Value("") + d;
    } else {
      DecimalOfValue(front);
      assert Value(s) == 10 * Value(front) + d && Value(s) / 10 == Value(front) && Value(s) % 10 == d;
    }
  }

  lemma DecimalHasNoZero(n: nat)
    ensures n > 0 ==> Decimal(n)[0] != '0'
  {
    if n >= 10 {
      DecimalHasNoZero(n / 10);
    }
  }

  /** A number text is the one its value is written as exactly when it is canonical. */
  lemma SignedOfParsed(s: string)
    requires ParseI32(s).Some?
    ensures Signed(ParseI32(s).value) == s <==> CanonicalNumber(s)
  {
    hide Decimal, Value;
    var n := ParseI32(s).value;
    var m := Magnitude(n);
    ZeroText();
    if CanonicalNumber(s) {
      if s != "0" {
        DecimalOfValue(if s[0] == '-' then s[1..] else s);
      }
      if s[0] == '-' {
        assert s == "-" + s[1..];
      }
    }
    if Signed(n) == s {
      DecimalHasNoZero(m);
      assert IsDigit(Decimal(m)[0]);
      assert n < 0 ==> s[1] == Decimal(m)[0];
    }
  }

  lemma ZeroText()
    ensures Decimal(0) == "0" && Value("0") == 0
  {
    assert "0"[..0] == "" && Value("") == 0;
  }

  // ----- Labels -----

  predicate IsControl(c: char) {
    c <= '\U{1F}' || '\U{7F}' <= c <= '\U{9F}'
  }

  predicate IsLabel(s: string) {
    s != "" && Utf8Len(s) <= MAX_KERNEL_LABEL_BYTES && (forall c :: c in s ==> !IsControl(c)) && Trim(s) == s
  }

  /** `KernelLabel::new` */
  function ParseLabel(s: string): Option<string> {
    if IsLabel(s) then Some(s) else None
  }

  function StripPrefix(s: string, p: string): Option<string> {
    if p <= s then Some(s[|p|..]) else None
  }

  // ----- How a program stopped -----

  datatype Exit = Exited(code: i32) | Signalled(signal: i32) | Cancelled | TimedOut | Interrupted | FailedToStart

  function ExitToken(d: Exit): string {
    match d
    case Exited(code) => "exited:" + Signed(code)
    case Signalled(signal) => "signalled:" + Signed(signal)
    case Cancelled => "cancelled"
    case TimedOut => "timed_out"
    case Interrupted => "interrupted"
    case FailedToStart => "failed_to_start"
  }

  function ParseExit(s: string): Option<Exit> {
    var code := StripPrefix(s, "exited:");
    var signal := StripPrefix(s, "signalled:");
    if code.Some? then
      match ParseI32(code.value) case Some(n) => Some(Exited(n)) case None => None
    else if signal.Some? then
      match ParseI32(signal.value) case Some(n) => Some(Signalled(n)) case None => None
    else if s == "cancelled" then Some(Cancelled)
    else if s == "timed_out" then Some(TimedOut)
    else if s == "interrupted" then Some(Interrupted)
    else if s == "failed_to_start" then Some(FailedToStart)
    else None
  }

  /** Every disposition is read back as it was written. */
  lemma ExitRoundTrip(d: Exit)
    ensures ParseExit(ExitToken(d)) == Some(d)
  {
    hide Signed, ParseI32;
    match d {
      case Exited(code) =>
        ParseSigned(code);
        assert ExitToken(d)[|"exited:"|..] == Signed(code);
      case Signalled(signal) =>
        ParseSigned(signal);
        assert ExitToken(d)[|"signalled:"|..] == Signed(signal);
        assert ExitToken(d)[0] == 's';
      case _ =>
        assert ExitToken(d)[1] != 'x' && ExitToken(d)[0] != 's';
    }
  }

  /** The reverse holds exactly for canonical numbers: `exited:+5` is read as code 5
      and written back as `exited:5`. */
  lemma ExitReverse(s: string)
    requires ParseExit(s).Some?
    ensures var d := ParseExit(s).value;
      ExitToken(d) == s <==>
      match d
      case Exited(_) => CanonicalNumber(s[|"exited:"|..])
      case Signalled(_) => CanonicalNumber(s[|"signalled:"|..])
      case _ => true
  {
    hide Signed, ParseI32, CanonicalNumber;
    var d := ParseExit(s).value;
    match d {
      case Exited(code) =>
        var text := s[|"exited:"|..];
        assert s == "exited:" + text;
        SignedOfParsed(text);
        SamePrefix("exited:", Signed(code), text);
      case Signalled(signal) =>
        var text := s[|"signalled:"|..];
        assert s == "signalled:" + text;
        SignedOfParsed(text);
        SamePrefix("signalled:", Signed(signal), text);
      case _ =>
    }
  }

  lemma SamePrefix(p: string, a: string, b: string)
    ensures p + a == p + b <==> a == b
  {
    assert (p + a)[|p|..] == a && (p + b)[|p|..] == b;
  }

  // ----- How a kernel execution stopped -----

  datatype Execution =
    | Completed
    | Raised(errorClass: string)
    | ExecutionCancelled
    | ExecutionTimedOut
    | KernelDied
    | ExecutionInterrupted

  predicate ValidExecution(d: Execution) {
    d.Raised? ==> IsLabel(d.errorClass)
  }

  function ExecutionToken(d: Execution): string {
    match d
    case Completed => "completed"
    case Raised(errorClass) => "raised:" + errorClass
    case ExecutionCancelled => "cancelled"
    case ExecutionTimedOut => "timed_out"
    case KernelDied => "kernel_died"
    case ExecutionInterrupted => "interrupted"
  }

  function ParseExecution(s: string): Option<Execution> {
    var errorClass := StripPrefix(s, "raised:");
    if errorClass.Some? then
      match ParseLabel(errorClass.value) case Some(l) => Some(Raised(l)) case None => None
    else if s == "completed" then Some(Completed)
    else if s == "cancelled" then Some(ExecutionCancelled)
    else if s == "timed_out" then Some(ExecutionTimedOut)
    else if s == "kernel_died" then Some(KernelDied)
    else if s == "interrupted" then Some(ExecutionInterrupted)
    else None
  }

  /** Also for error classes that themselves contain colons. */
  lemma ExecutionRoundTrip(d: Execution)
    requires ValidExecution(d)
    ensures ParseExecution(ExecutionToken(d)) == Some(d)
  {
    hide IsLabel;
    if d.Raised? {
      assert ExecutionToken(d)[|"raised:"|..] == d.errorClass;
    } else {
      assert ExecutionToken(d)[0] != 'r';
    }
  }

  /** Here the reverse holds without exception. */
  lemma ExecutionReverse(s: string)
    requires ParseExecution(s).Some?
    ensures ExecutionToken(ParseExecution(s).value) == s && ValidExecution(ParseExecution(s).value)
  {
    hide IsLabel;
    var d := ParseExecution(s).value;
    if d.Raised? {
      assert s == "raised:" + s[|"raised:"|..];
    }
  }

  // ----- How a session incarnation ended -----

  datatype Ending =
    | Closed
    | EndingExited(code: i32)
    | IdleExpired
    | CeilingReached(ceiling: string)
    | EndingInterrupted
    | EndingFailedToStart

  predicate ValidEnding(d: Ending) {
    d.CeilingReached? ==> IsLabel(d.ceiling)
  }

  function EndingToken(d: Ending): string {
    match d
    case Closed => "closed"
    case EndingExited(code) => "exited:" + Signed(code)
    case IdleExpired => "idle_expired"
    case CeilingReached(ceiling) => "ceiling_reached:" + ceiling
    case EndingInterrupted => "interrupted"
    case EndingFailedToStart => "failed_to_start"
  }

  function ParseEnding(s: string): Option<Ending> {
    var code := StripPrefix(s, "exited:");
    var ceiling := StripPrefix(s, "ceiling_reached:");
    if code.Some? then
      match ParseI32(code.value) case Some(n) => Some(EndingExited(n)) case None => None
    else if ceiling.Some? then
      match ParseLabel(ceiling.value) case Some(l) => Some(CeilingReached(l)) case None => None
    else if s == "closed" then Some(Closed)
    else if s == "idle_expired" then Some(IdleExpired)
    else if s == "interrupted" then Some(EndingInterrupted)
    else if s == "failed_to_start" then Some(EndingFailedToStart)
    else None
  }

  lemma EndingRoundTrip(d: Ending)
    requires ValidEnding(d)
    ensures ParseEnding(EndingToken(d)) == Some(d)
  {
    hide Signed, ParseI32, IsLabel;
    match d {
      case EndingExited(code) =>
        ParseSigned(code);
        assert EndingToken(d)[|"exited:"|..] == Signed(code);
      case CeilingReached(ceiling) =>
        assert EndingToken(d)[|"ceiling_reached:"|..] == ceiling;
        assert EndingToken(d)[0] == 'c';
      case _ =>
        assert EndingToken(d)[0] != 'e' && EndingToken(d)[1] != 'e';
    }
  }

  // ----- Checkpoint facts -----

  datatype Restorable = Bindings(count: nat) | Modules(count: nat) | Declared(kind: string, count: nat)

  datatype NonRestorable =
    | OpenFile(count: nat)
    | NetworkConnection(count: nat)
    | ChildProcess(count: nat)
    | ConcurrentTask(count: nat)
    | ForeignHandle(kind: string, count: nat)
    | UnserialisableValue(kind: string, count: nat)
    | ExternalMutation(kind: string)

  function RestorableToken(f: Restorable): string {
    match f
    case Bindings(count) => "bindings" + ":" + Decimal(count)
    case Modules(count) => "modules" + ":" + Decimal(count)
    case Declared(kind, count) => "declared" + ":" + (kind + ":" + Decimal(count))
  }

  function NonRestorableToken(f: NonRestorable): string {
    match f
    case OpenFile(count) => "open_file" + ":" + Decimal(count)
    case NetworkConnection(count) => "network_connection" + ":" + Decimal(count)
    case ChildProcess(count) => "child_process" + ":" + Decimal(count)
    case ConcurrentTask(count) => "concurrent_task" + ":" + Decimal(count)
    case ForeignHandle(kind, count) => "foreign_handle" + ":" + (kind + ":" + Decimal(count))
    case UnserialisableValue(kind, count) => "unserialisable_value" + ":" + (kind + ":" + Decimal(count))
    case ExternalMutation(kind) => "external_mutation" + ":" + kind
  }

  lemma DigitsHaveNo(n: nat, sep: char)
    requires !IsDigit(sep)
    ensures sep !in Decimal(n)
  {
  }

  /** The text after the last separator is determined by the whole. */
  lemma SplitLast(a: string, b: string, sep: char, s: string, t: string)
    requires a + [sep] + s == b + [sep] + t && sep !in s && sep !in t
    ensures a == b && s == t
  {
    var u, v := a + [sep] + s, b + [sep] + t;
    assert u[|a|] == sep && v[|b|] == sep;
    assert forall i :: |a| < i < |u| ==> u[i] == s[i - |a| - 1];
    assert forall i :: |b| < i < |v| ==> v[i] == t[i - |b| - 1];
    assert |a| == |b|;
    assert a == u[..|a|] && b == v[..|b|] && s == u[|a| + 1..] && t == v[|b| + 1..];
  }

  lemma KindedUnique(a: string, m: nat, b: string, n: nat)
    requires a + ":" + Decimal(m) == b + ":" + Decimal(n)
    ensures a == b && m == n
  {
    DigitsHaveNo(m, ':');
    DigitsHaveNo(n, ':');
    SplitLast(a, b, ':', Decimal(m), Decimal(n));
    DecimalInjective(m, n);
  }

  function RestorableWord(f: Restorable): string {
    match f
    case Bindings(_) => "bindings"
    case Modules(_) => "modules"
    case Declared(_, _) => "declared"
  }

  function RestorableRest(f: Restorable): string {
    match f
    case Declared(kind, count) => kind + ":" + Decimal(count)
    case _ => Decimal(f.count)
  }

  /** Also when a kind contains colons. */
  lemma RestorableInjective(f: Restorable, g: Restorable)
    requires RestorableToken(f) == RestorableToken(g)
    ensures f == g
  {
    hide Decimal;
    SplitUnique(RestorableWord(f), RestorableWord(g), ':', RestorableRest(f), RestorableRest(g));
    assert RestorableWord(f)[0] == RestorableWord(g)[0];
    match f {
      case Declared(kind, count) => KindedUnique(kind, count, g.kind, g.count);
      case _ => DecimalInjective(f.count, g.count);
    }
  }

  function NonRestorableWord(f: NonRestorable): string {
    match f
    case OpenFile(_) => "open_file"
    case NetworkConnection(_) => "network_connection"
    case ChildProcess(_) => "child_process"
    case ConcurrentTask(_) => "concurrent_task"
    case ForeignHandle(_, _) => "foreign_handle"
    case UnserialisableValue(_, _) => "unserialisable_value"
    case ExternalMutation(_) => "external_mutation"
  }

  function NonRestorableRest(f: NonRestorable): string {
    match f
    case ForeignHandle(kind, count) => kind + ":" + Decimal(count)
    case UnserialisableValue(kind, count) => kind + ":" + Decimal(count)
    case ExternalMutation(kind) => kind
    case _ => Decimal(f.count)
  }

  lemma NonRestorableWords(f: NonRestorable, g: NonRestorable)
    requires NonRestorableWord(f) == NonRestorableWord(g)
    ensures ':' !in NonRestorableWord(f)
    ensures (f.OpenFile? <==> g.OpenFile?) && (f.NetworkConnection? <==> g.NetworkConnection?)
      && (f.ChildProcess? <==> g.ChildProcess?) && (f.ConcurrentTask? <==> g.ConcurrentTask?)
      && (f.ForeignHandle? <==> g.ForeignHandle?) && (f.UnserialisableValue? <==> g.UnserialisableValue?)
  {
    var w := NonRestorableWord(f);
    assert w[0] == NonRestorableWord(g)[0] && w[1] == NonRestorableWord(g)[1];
  }

  lemma NonRestorableInjective(f: NonRestorable, g: NonRestorable)
    requires NonRestorableToken(f) == NonRestorableToken(g)
    ensures f == g
  {
    hide Decimal;
    NonRestorableWords(f, f);
    NonRestorableWords(g, g);
    SplitToken(f);
    SplitToken(g);
    SplitUnique(NonRestorableWord(f), NonRestorableWord(g), ':', NonRestorableRest(f), NonRestorableRest(g));
    NonRestorableWords(f, g);
    hide NonRestorableWord, NonRestorableToken;
    match f {
      case ForeignHandle(kind, count) => KindedUnique(kind, count, g.kind, g.count);
      case UnserialisableValue(kind, count) => KindedUnique(kind, count, g.kind, g.count);
      case ExternalMutation(kind) =>
      case _ => DecimalInjective(f.count, g.count);
    }
  }

  lemma SplitToken(f: NonRestorable)
    ensures NonRestorableToken(f) == NonRestorableWord(f) + [':'] + NonRestorableRest(f)
  {
  }
}
