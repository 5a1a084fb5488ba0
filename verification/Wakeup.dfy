/** Waiting on a terminal grid: the feeder, any number of resizes and one waiter,
    interleaved step by step. */
module Wakeup {
  import opened Text

  const RAW_TAIL_CAP := 2048

  type u16 = n: nat | n <= 0xFFFF

  /** What the protocol does not look into: how output and resizes change a grid, and
      whether the awaited condition holds on one. */
  datatype Screen<!G, !B> = Screen(feed: (G, B) -> G, resize: (G, u16, u16) -> G, met: G -> bool)

  /** The feeder task. It drops the generation sender when it exits. */
  datatype Feeder<B> =
    | Receiving
    | Locking(bytes: B)
    | Feeding(bytes: B)
    | Bumping
    | Exited

  /** `resize`, which holds the terminal lock from its first step to its last. */
  datatype Resizer =
    | NotResizing
    | Resizing(cols: u16, rows: u16)
    | Resized
    | Upgraded
    | Returning

  datatype Waiter =
    | Unmarked
    | Marked
    | Checking
    | Parked
    | Matched
    | TimedOut
    | Ended

  datatype Owner = FeederOwns | ResizerOwns | WaiterOwns

  /** `seen` is the generation the waiter marked, `evaluated` the grid its last check
      saw. */
  datatype State<G, B> = State(
    grid: G, generation: nat, lock: Option<Owner>,
    queue: seq<B>, closed: bool, feeder: Feeder<B>,
    resizer: Resizer,
    waiter: Waiter, seen: nat, evaluated: Option<G>)

  datatype Step<B> =
    | ReadOutput(output: B)
    | CloseOutput
    | Receive
    | FeederLock
    | Feed
    | FeederBump
    | FeederExit
    | ResizeLock(cols: u16, rows: u16)
    | ResizePtyFails
    | ResizeGrid
    | Upgrade
    | ResizeBump
    | ResizeReturn
    | Mark
    | WaiterLock
    | Evaluate
    | WakeUp
    | SenderGone
    | Deadline

  /** Some strong reference to the generation sender is left. */
  predicate SenderAlive<G, B>(s: State<G, B>) {
    !s.feeder.Exited? || s.resizer.Upgraded?
  }

  predicate Enabled<G, B>(s: State<G, B>, step: Step<B>) {
    match step
    case ReadOutput(_) => !s.closed
    case CloseOutput => !s.closed
    case Receive => s.feeder.Receiving? && s.queue != []
    case FeederLock => s.feeder.Locking? && s.lock.None?
    case Feed => s.feeder.Feeding?
    case FeederBump => s.feeder.Bumping?
    case FeederExit => s.feeder.Receiving? && s.queue == [] && s.closed
    case ResizeLock(_, _) => s.resizer.NotResizing? && s.lock.None?
    case ResizePtyFails => s.resizer.Resizing?
    case ResizeGrid => s.resizer.Resizing?
    case Upgrade => s.resizer.Resized?
    case ResizeBump => s.resizer.Upgraded?
    case ResizeReturn => s.resizer.Returning?
    case Mark => s.waiter.Unmarked?
    case WaiterLock => s.waiter.Marked? && s.lock.None?
    case Evaluate => s.waiter.Checking?
    case WakeUp => s.waiter.Parked? && s.generation != s.seen
    case SenderGone => s.waiter.Parked? && s.generation == s.seen && !SenderAlive(s)
    case Deadline => s.waiter.Parked?
  }

  function Do<G, B>(screen: Screen<G, B>, s: State<G, B>, step: Step<B>): State<G, B>
    requires Enabled(s, step)
  {
    match step
    case ReadOutput(output) => s.(queue := s.queue + [output])
    case CloseOutput => s.(closed := true)
    case Receive => s.(feeder := Locking(s.queue[0]), queue := s.queue[1..])
    case FeederLock => s.(feeder := Feeding(s.feeder.bytes), lock := Some(FeederOwns))
    case Feed => s.(grid := screen.feed(s.grid, s.feeder.bytes), feeder := Bumping, lock := None)
    case FeederBump => s.(generation := s.generation + 1, feeder := Receiving)
    case FeederExit => s.(feeder := Exited)
    case ResizeLock(cols, rows) => s.(resizer := Resizing(cols, rows), lock := Some(ResizerOwns))
    case ResizePtyFails => s.(resizer := Returning)
    case ResizeGrid => s.(grid := screen.resize(s.grid, s.resizer.cols, s.resizer.rows), resizer := Resized)
    case Upgrade => if SenderAlive(s) then s.(resizer := Upgraded) else s.(resizer := Returning)
    case ResizeBump => s.(generation := s.generation + 1, resizer := Returning)
    case ResizeReturn => s.(resizer := NotResizing, lock := None)
    case Mark => s.(waiter := Marked, seen := s.generation)
    case WaiterLock => s.(waiter := Checking, lock := Some(WaiterOwns))
    case Evaluate =>
      s.(waiter := if screen.met(s.grid) then Matched else Parked, evaluated := Some(s.grid), lock := None)
    case WakeUp => s.(waiter := Unmarked, seen := s.generation)
    case SenderGone => s.(waiter := Ended)
    case Deadline => s.(waiter := TimedOut)
  }

  predicate Initial<G(==), B(==)>(s: State<G, B>) {
    && s.generation == 0 && s.lock == None && s.queue == [] && !s.closed && s.feeder == Receiving
    && s.resizer == NotResizing && s.waiter == Unmarked && s.evaluated == None && s.seen == 0
  }

  /** `path` is an interleaving that can happen from `s`. */
  predicate Possible<G, B>(screen: Screen<G, B>, s: State<G, B>, path: seq<Step<B>>)
    decreases |path|
  {
    path == [] || (Enabled(s, path[0]) && Possible(screen, Do(screen, s, path[0]), path[1..]))
  }

  function Reached<G, B>(screen: Screen<G, B>, s: State<G, B>, path: seq<Step<B>>): State<G, B>
    requires Possible(screen, s, path)
    decreases |path|
  {
    if path == [] then s else Reached(screen, Do(screen, s, path[0]), path[1..])
  }

  // ----- What every interleaving keeps -----

  /** The lock is held by exactly the party inside it. */
  predicate LockOwned<G, B>(s: State<G, B>) {
    && (s.feeder.Feeding? <==> s.lock == Some(FeederOwns))
    && (!s.resizer.NotResizing? <==> s.lock == Some(ResizerOwns))
    && (s.waiter.Checking? <==> s.lock == Some(WaiterOwns))
  }

  /** A grid change whose bump is still to come. */
  predicate BumpPending<G, B>(s: State<G, B>) {
    s.feeder.Bumping? || s.resizer.Resized? || s.resizer.Upgraded?
  }

  /** A waiter that checked is not behind the grid, unless something will wake it. */
  predicate NothingLost<G(==), B>(s: State<G, B>) {
    s.evaluated == Some(s.grid) || s.generation != s.seen || BumpPending(s) || !SenderAlive(s)
  }

  function Resizes<G, B>(screen: Screen<G, B>, g: G, sizes: seq<(u16, u16)>): G {
    if sizes == [] then g else
      var (cols, rows) := sizes[|sizes| - 1];
      screen.resize(Resizes(screen, g, sizes[..|sizes| - 1]), cols, rows)
  }

  /** No output lies between the two grids. */
  ghost predicate OnlyResized<G, B>(screen: Screen<G, B>, g: G, h: G) {
    exists sizes :: h == Resizes(screen, g, sizes)
  }

  lemma NotResized<G, B>(screen: Screen<G, B>, g: G)
    ensures OnlyResized(screen, g, g)
  {
    assert Resizes(screen, g, []) == g;
  }

  lemma ResizedOnce<G, B>(screen: Screen<G, B>, g: G, h: G, cols: u16, rows: u16)
    requires OnlyResized(screen, g, h)
    ensures OnlyResized(screen, g, screen.resize(h, cols, rows))
  {
    var sizes :| h == Resizes(screen, g, sizes);
    assert (sizes + [(cols, rows)])[..|sizes|] == sizes;
    assert Resizes(screen, g, sizes + [(cols, rows)]) == screen.resize(h, cols, rows);
  }

  /** The waiter's verdict rests on a check that saw all the output there was. */
  ghost predicate SawOutput<G, B>(screen: Screen<G, B>, s: State<G, B>) {
    s.evaluated.Some? && !screen.met(s.evaluated.value) && OnlyResized(screen, s.evaluated.value, s.grid)
  }

  ghost predicate Invariant<G, B>(screen: Screen<G, B>, s: State<G, B>) {
    && LockOwned(s) && s.seen <= s.generation
    && (s.feeder.Exited? ==> s.closed && s.queue == [])
    && (s.waiter.Parked? ==> s.evaluated.Some? && !screen.met(s.evaluated.value) && NothingLost(s))
    && (s.waiter.Parked? && !s.feeder.Exited? && s.generation == s.seen && !BumpPending(s) ==> s.evaluated == Some(s.grid))
    && (s.waiter.Parked? && s.generation == s.seen && !s.feeder.Bumping? ==> SawOutput(screen, s))
    && (s.waiter.Matched? ==> s.evaluated.Some? && screen.met(s.evaluated.value))
    && (s.waiter.Ended? ==> s.feeder.Exited? && SawOutput(screen, s))
  }

  lemma StepKeepsInvariant<G, B>(screen: Screen<G, B>, s: State<G, B>, step: Step<B>)
    requires Invariant(screen, s) && Enabled(s, step)
    ensures Invariant(screen, Do(screen, s, step))
  {
    if step.ResizeGrid? && s.evaluated.Some? && OnlyResized(screen, s.evaluated.value, s.grid) {
      ResizedOnce(screen, s.evaluated.value, s.grid, s.resizer.cols, s.resizer.rows);
    } else if step.Evaluate? {
      NotResized(screen, s.grid);
    }
    hide OnlyResized;
  }

  lemma {:induction false} EveryInterleavingKeepsInvariant<G, B>(screen: Screen<G, B>, s: State<G, B>, path: seq<Step<B>>)
    requires Invariant(screen, s) && Possible(screen, s, path)
    ensures Invariant(screen, Reached(screen, s, path))
    decreases |path|
  {
    if path != [] {
      StepKeepsInvariant(screen, s, path[0]);
      hide Invariant, Enabled, Do;
      EveryInterleavingKeepsInvariant(screen, Do(screen, s, path[0]), path[1..]);
    }
  }

  /** No lost wakeup: in every interleaving, a parked waiter has checked the current
      grid, or sees a newer generation, or a bump is on its way, or the sender is gone. */
  lemma NoLostWakeup<G, B>(screen: Screen<G, B>, s: State<G, B>, path: seq<Step<B>>)
    requires Initial(s) && Possible(screen, s, path)
    ensures var t := Reached(screen, s, path); t.waiter.Parked? ==> NothingLost(t)
  {
    EveryInterleavingKeepsInvariant(screen, s, path);
  }

  /** Everything else has come to rest: the waiter could move only at its deadline. */
  predicate Quiet<G, B>(s: State<G, B>) {
    && (s.feeder.Exited? || (s.feeder.Receiving? && s.queue == []))
    && s.resizer.NotResizing?
    && s.waiter.Parked? && !Enabled(s, WakeUp) && !Enabled(s, SenderGone)
  }

  /** A waiter left waiting when everything has come to rest is right to wait: the
      condition does not hold on the grid as it stands. */
  lemma RestingWaiterIsRight<G, B>(screen: Screen<G, B>, s: State<G, B>, path: seq<Step<B>>)
    requires Initial(s) && Possible(screen, s, path)
    ensures var t := Reached(screen, s, path); Quiet(t) ==> !screen.met(t.grid)
  {
    EveryInterleavingKeepsInvariant(screen, s, path);
  }

  /** An `ended` outcome rests on a check that found the condition false on a grid that
      already held all output: only resizes can have changed the grid since. */
  lemma EndedIsFinal<G, B>(screen: Screen<G, B>, s: State<G, B>, path: seq<Step<B>>)
    requires Initial(s) && Possible(screen, s, path)
    ensures var t := Reached(screen, s, path);
      t.waiter.Ended? ==> t.feeder.Exited? && t.queue == [] && SawOutput(screen, t)
  {
    EveryInterleavingKeepsInvariant(screen, s, path);
  }

  /** A waiter ends only when nobody can bump any more and it has seen every bump there
      was: an unseen one wakes it first. */
  lemma EndingSawEveryBump<G, B>(screen: Screen<G, B>, s: State<G, B>, path: seq<Step<B>>, step: Step<B>)
    requires Initial(s) && Possible(screen, s, path)
    requires var t := Reached(screen, s, path); Enabled(t, step) && !t.waiter.Ended? && Do(screen, t, step).waiter.Ended?
    ensures var t := Reached(screen, s, path);
      t.feeder.Exited? && !t.resizer.Upgraded? && t.generation == t.seen && t.queue == [] && SawOutput(screen, t)
  {
    EveryInterleavingKeepsInvariant(screen, s, path);
    hide OnlyResized, Possible, Reached;
  }

  lemma Prepended<G, B>(screen: Screen<G, B>, s: State<G, B>, step: Step<B>, path: seq<Step<B>>)
    requires Enabled(s, step) && Possible(screen, Do(screen, s, step), path)
    ensures Possible(screen, s, [step] + path)
    ensures Reached(screen, s, [step] + path) == Reached(screen, Do(screen, s, step), path)
  {
    assert ([step] + path)[1..] == path;
  }

  lemma NoSteps<G, B>(screen: Screen<G, B>, s: State<G, B>)
    ensures Possible(screen, s, []) && Reached(screen, s, []) == s
  {
  }

  /** A parked waiter, the feeder idle, nobody resizing. */
  predicate Calm<G, B>(s: State<G, B>) {
    && s.waiter.Parked? && s.generation == s.seen && s.feeder == Receiving && s.queue == [] && !s.closed
    && s.resizer == NotResizing && s.lock == None
  }

  lemma ResizeAfterExit<G, B>(screen: Screen<G, B>, s: State<G, B>, cols: u16, rows: u16) returns (path: seq<Step<B>>)
    requires Calm(s)
    ensures Possible(screen, s, path)
    ensures Reached(screen, s, path).waiter.Ended? && Reached(screen, s, path).grid == screen.resize(s.grid, cols, rows)
  {
    hide Possible, Reached;
    var s2 := s.(closed := true, feeder := Exited);
    var s3 := s2.(resizer := Resizing(cols, rows), lock := Some(ResizerOwns));
    var s4 := s3.(grid := screen.resize(s.grid, cols, rows), resizer := Resized);
    var s5 := s4.(resizer := Returning);
    NoSteps(screen, s5.(waiter := Ended));
    path := [];
    Prepended(screen, s5, SenderGone, path);
    path := [SenderGone] + path;
    Prepended(screen, s4, Upgrade, path);
    path := [Upgrade] + path;
    Prepended(screen, s3, ResizeGrid, path);
    path := [ResizeGrid] + path;
    Prepended(screen, s2, ResizeLock(cols, rows), path);
    path := [ResizeLock(cols, rows)] + path;
    Prepended(screen, s.(closed := true), FeederExit, path);
    path := [FeederExit] + path;
    Prepended(screen, s, CloseOutput, path);
    path := [CloseOutput] + path;
  }

  /** Whenever the condition fails on the first grid and would hold on a resized one,
      that resize, run after the feeder's exit, makes the waiter report `ended` on a
      grid that meets the condition. */
  lemma SilentResizeMisleads<G, B>(screen: Screen<G, B>, s: State<G, B>, cols: u16, rows: u16)
    returns (path: seq<Step<B>>)
    requires Initial(s) && !screen.met(s.grid) && screen.met(screen.resize(s.grid, cols, rows))
    ensures Possible(screen, s, path)
    ensures Reached(screen, s, path).waiter.Ended? && screen.met(Reached(screen, s, path).grid)
  {
    hide Possible, Reached;
    var s1 := s.(waiter := Marked, seen := 0);
    var s2 := s1.(waiter := Checking, lock := Some(WaiterOwns));
    var s3 := s1.(waiter := Parked, evaluated := Some(s.grid), lock := None);
    path := ResizeAfterExit(screen, s3, cols, rows);
    Prepended(screen, s2, Evaluate, path);
    path := [Evaluate] + path;
    Prepended(screen, s1, WaiterLock, path);
    path := [WaiterLock] + path;
    Prepended(screen, s, Mark, path);
    path := [Mark] + path;
  }

  /** No resize turns a grid without the condition into one with it. */
  ghost predicate ResizesKeepUnmet<G(!new), B>(screen: Screen<G, B>) {
    forall g, cols: u16, rows: u16 :: !screen.met(g) ==> !screen.met(screen.resize(g, cols, rows))
  }

  lemma {:induction false} UnmetStays<G(!new), B>(screen: Screen<G, B>, g: G, sizes: seq<(u16, u16)>)
    requires ResizesKeepUnmet(screen) && !screen.met(g)
    ensures !screen.met(Resizes(screen, g, sizes))
  {
    if sizes == [] {
      assert Resizes(screen, g, sizes) == g;
    } else {
      var (cols, rows) := sizes[|sizes| - 1];
      var before := Resizes(screen, g, sizes[..|sizes| - 1]);
      UnmetStays(screen, g, sizes[..|sizes| - 1]);
      assert Resizes(screen, g, sizes) == screen.resize(before, cols, rows);
    }
  }

  /** `ended` was right: the condition does not hold on the grid as it stands. */
  predicate EndedIsRight<G, B>(screen: Screen<G, B>, t: State<G, B>) {
    t.waiter.Ended? ==> !screen.met(t.grid)
  }

  ghost predicate AlwaysRight<G(!new), B(!new)>(screen: Screen<G, B>) {
    forall s: State<G, B>, path: seq<Step<B>> ::
      Initial(s) && Possible(screen, s, path) ==> EndedIsRight(screen, Reached(screen, s, path))
  }

  /** Exactly when `ended` can be trusted in every interleaving: when no resize can bring
      the condition about. */
  lemma EndedIsRightIff<G(!new), B(!new)>(screen: Screen<G, B>)
    ensures AlwaysRight(screen) <==> ResizesKeepUnmet(screen)
  {
    if ResizesKeepUnmet(screen) {
      forall s: State<G, B>, path: seq<Step<B>> | Initial(s) && Possible(screen, s, path)
        ensures EndedIsRight(screen, Reached(screen, s, path))
      {
        var t := Reached(screen, s, path);
        EndedIsFinal(screen, s, path);
        if t.waiter.Ended? {
          var sizes :| t.grid == Resizes(screen, t.evaluated.value, sizes);
          UnmetStays(screen, t.evaluated.value, sizes);
        }
      }
    } else {
      var g, cols: u16, rows: u16 :| !screen.met(g) && screen.met(screen.resize(g, cols, rows));
      var s: State<G, B> := State(g, 0, None, [], false, Receiving, NotResizing, Unmarked, 0, None);
      var path := SilentResizeMisleads(screen, s, cols, rows);
      assert !EndedIsRight(screen, Reached(screen, s, path));
    }
  }

  // ----- Nothing read is lost -----

  function Outputs<B>(path: seq<Step<B>>): seq<B> {
    if path == [] then []
    else (if path[0].ReadOutput? then [path[0].output] else []) + Outputs(path[1..])
  }

  /** Output the feeder has taken off its channel and not fed yet. */
  function InHand<B>(f: Feeder<B>): seq<B> {
    match f case Locking(bytes) => [bytes] case Feeding(bytes) => [bytes] case _ => []
  }

  function FedBy<G, B>(screen: Screen<G, B>, g: G, outputs: seq<B>): G {
    if outputs == [] then g else screen.feed(FedBy(screen, g, outputs[..|outputs| - 1]), outputs[|outputs| - 1])
  }

  predicate NoResizes<B>(path: seq<Step<B>>) {
    forall i :: 0 <= i < |path| ==> !path[i].ResizeGrid?
  }

  lemma {:induction false} FedConcat<G, B>(screen: Screen<G, B>, g: G, a: seq<B>, b: seq<B>)
    ensures FedBy(screen, g, a + b) == FedBy(screen, FedBy(screen, g, a), b)
    decreases |b|
  {
    if b == [] {
      assert a + b == a;
    } else {
      assert (a + b)[..|a + b| - 1] == a + b[..|b| - 1];
      FedConcat(screen, g, a, b[..|b| - 1]);
    }
  }

  /** What one step feeds. */
  function FedIn<G, B>(s: State<G, B>, step: Step<B>): seq<B> {
    if step.Feed? && s.feeder.Feeding? then [s.feeder.bytes] else []
  }

  lemma StepConserves<G, B>(screen: Screen<G, B>, s: State<G, B>, step: Step<B>)
    requires Enabled(s, step)
    ensures var t := Do(screen, s, step);
      && InHand(s.feeder) + s.queue + (if step.ReadOutput? then [step.output] else [])
         == FedIn(s, step) + InHand(t.feeder) + t.queue
      && (!step.ResizeGrid? ==> t.grid == FedBy(screen, s.grid, FedIn(s, step)))
  {
    if step.Feed? {
      assert [s.feeder.bytes][..0] == [];
      assert FedBy(screen, s.grid, []) == s.grid;
    }
  }

  /** Output is fed once, whole and in the order it was read: in every interleaving what
      was read is what was fed, what the feeder holds and what is queued, and without
      resizes the grid is the first grid fed with just that. */
  lemma {:induction false} OutputIsFed<G, B>(screen: Screen<G, B>, s: State<G, B>, path: seq<Step<B>>) returns (fed: seq<B>)
    requires Possible(screen, s, path)
    ensures var t := Reached(screen, s, path);
      && InHand(s.feeder) + s.queue + Outputs(path) == fed + InHand(t.feeder) + t.queue
      && (NoResizes(path) ==> t.grid == FedBy(screen, s.grid, fed))
    decreases |path|
  {
    if path == [] {
      fed := [];
      assert InHand(s.feeder) + s.queue + [] == [] + InHand(s.feeder) + s.queue;
    } else {
      var next := Do(screen, s, path[0]);
      StepConserves(screen, s, path[0]);
      var first := FedIn(s, path[0]);
      assert NoResizes(path) ==> NoResizes(path[1..]);
      hide Do, Enabled, FedIn, InHand;
      var rest := OutputIsFed(screen, next, path[1..]);
      fed := first + rest;
      FedConcat(screen, s.grid, first, rest);
      var t := Reached(screen, s, path);
      var read := if path[0].ReadOutput? then [path[0].output] else [];
      Regrouped(InHand(s.feeder), s.queue, read, Outputs(path[1..]), first, InHand(next.feeder), next.queue, rest,
                InHand(t.feeder), t.queue);
    }
  }

  lemma Regrouped<B>(a: seq<B>, b: seq<B>, read: seq<B>, more: seq<B>, first: seq<B>, c: seq<B>, d: seq<B>, rest: seq<B>,
                     e: seq<B>, f: seq<B>)
    requires a + b + read == first + c + d && c + d + more == rest + e + f
    ensures a + b + (read + more) == first + rest + e + f
  {
    assert a + b + (read + more) == (a + b + read) + more == first + (c + d + more);
    assert first + (rest + e + f) == first + rest + e + f;
  }

  // ----- The raw output kept for diagnostics -----

  function LastItems<T>(s: seq<T>, n: nat): seq<T> {
    if |s| <= n then s else s[|s| - n..]
  }

  /** The raw bytes kept beside everything ever pushed. */
  class RawTail<T> {
    var tail: seq<T>
    ghost var pushed: seq<T>

    ghost predicate Valid()
      reads this
    {
      tail == LastItems(pushed, RAW_TAIL_CAP)
    }

    constructor ()
      ensures Valid() && pushed == []
    {
      tail, pushed := [], [];
    }

    /** However the output was cut into pushes, the tail is the last bytes of all of it. */
    method Push(bytes: seq<T>)
      requires Valid()
      modifies this
      ensures Valid() && pushed == old(pushed) + bytes
      ensures tail == LastItems(old(tail) + bytes, RAW_TAIL_CAP)
    {
      LastOfLast(pushed, bytes, RAW_TAIL_CAP);
      pushed := pushed + bytes;
      if |bytes| >= RAW_TAIL_CAP {
        tail := bytes[|bytes| - RAW_TAIL_CAP..];
        return;
      }
      while |tail| + |bytes| > RAW_TAIL_CAP
        invariant tail == old(tail)[|old(tail)| - |tail|..] && |tail| <= |old(tail)|
        invariant |tail| < |old(tail)| ==> |tail| + |bytes| >= RAW_TAIL_CAP
        invariant pushed == old(pushed) + bytes
      {
        tail := tail[1..];
      }
      tail := tail + bytes;
    }
  }

  /** Keeping only the last bytes after every push loses nothing that keeping them at
      the end would have kept. */
  lemma LastOfLast<T>(a: seq<T>, b: seq<T>, n: nat)
    ensures LastItems(LastItems(a, n) + b, n) == LastItems(a + b, n)
  {
  }
}
