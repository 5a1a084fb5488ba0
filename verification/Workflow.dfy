/** Admission of workflow steps against declared ceilings. */
module Workflow {
  import opened Text

  const MAX_WORKFLOW_STEPS := 10_000
  const MAX_WORKFLOW_WALL_MS := 24 * 60 * 60 * 1000

  datatype OperationState =
    | Prepared | Dispatching | Acknowledged | Reconciled | Abandoned | FailedRetryable | Uncertain

  datatype Operation = Operation(iteration: nat, state: OperationState)

  datatype Dimension =
    | Iterations | AgentCalls | AgentConcurrency | ActiveMs | WallMs | Tokens | CostMicros | ArtifactBytes

  datatype Resources = Resources(
    iterations: nat, agentCalls: nat, agentConcurrency: nat, activeMs: nat, wallMs: nat,
    tokens: nat, costMicros: nat, artifactBytes: nat)
  {
    function Of(d: Dimension): nat {
      match d
      case Iterations => iterations
      case AgentCalls => agentCalls
      case AgentConcurrency => agentConcurrency
      case ActiveMs => activeMs
      case WallMs => wallMs
      case Tokens => tokens
      case CostMicros => costMicros
      case ArtifactBytes => artifactBytes
    }
  }

  /** The values of the operation map, in its iteration order. */
  datatype Run = Run(nextIteration: nat, createdAt: nat, usage: Resources, operations: seq<Operation>)

  datatype CeilingFields = CeilingFields(maxSteps: nat, maxWallMs: nat, maxFailures: nat, budget: Resources)

  /** What the validating constructor admits. */
  type Ceilings = c: CeilingFields |
    && 1 <= c.maxSteps <= MAX_WORKFLOW_STEPS && 1 <= c.maxWallMs <= MAX_WORKFLOW_WALL_MS && c.maxFailures > 0
    && exists d: Dimension :: c.budget.Of(d) > 0
    ghost witness
      var c := CeilingFields(1, 1, 1, Resources(1, 0, 0, 0, 0, 0, 0, 0));
      assert c.budget.Of(Iterations) > 0;
      c

  datatype Stop = StepCeiling | WallCeiling | BudgetCeiling(dimension: Dimension) | FailureCeiling

  datatype Admission = Step(index: nat) | Stopped(stop: Stop)

  // ----- Spending -----

  const DIMENSIONS: seq<Dimension> :=
    [Iterations, AgentCalls, AgentConcurrency, ActiveMs, WallMs, Tokens, CostMicros, ArtifactBytes]

  /** A zero limit is no limit. */
  predicate Spent(usage: Resources, budget: Resources, d: Dimension) {
    usage.Of(d) >= budget.Of(d) > 0
  }

  function FirstSpent(usage: Resources, budget: Resources, dimensions: seq<Dimension>): (r: Option<Dimension>)
    ensures r.None? <==> forall d :: d in dimensions ==> !Spent(usage, budget, d)
    ensures r.Some? ==> Spent(usage, budget, r.value)
  {
    if dimensions == [] then None
    else if Spent(usage, budget, dimensions[0]) then Some(dimensions[0])
    else FirstSpent(usage, budget, dimensions[1..])
  }

  function Exceeded(usage: Resources, budget: Resources): (r: Option<Dimension>)
    ensures r.None? <==> forall d: Dimension :: !Spent(usage, budget, d)
    ensures r.Some? ==> Spent(usage, budget, r.value)
  {
    EveryDimension();
    FirstSpent(usage, budget, DIMENSIONS)
  }

  lemma EveryDimension()
    ensures forall d: Dimension :: d in DIMENSIONS
  {
    forall d: Dimension ensures d in DIMENSIONS {
      match d {
        case Iterations => assert DIMENSIONS[0] == d;
        case AgentCalls => assert DIMENSIONS[1] == d;
        case AgentConcurrency => assert DIMENSIONS[2] == d;
        case ActiveMs => assert DIMENSIONS[3] == d;
        case WallMs => assert DIMENSIONS[4] == d;
        case Tokens => assert DIMENSIONS[5] == d;
        case CostMicros => assert DIMENSIONS[6] == d;
        case ArtifactBytes => assert DIMENSIONS[7] == d;
      }
    }
  }

  /** Usage of one dimension alone. */
  function UsageOf(d: Dimension, n: nat): Resources {
    Resources(
      if d.Iterations? then n else 0, if d.AgentCalls? then n else 0, if d.AgentConcurrency? then n else 0,
      if d.ActiveMs? then n else 0, if d.WallMs? then n else 0, if d.Tokens? then n else 0,
      if d.CostMicros? then n else 0, if d.ArtifactBytes? then n else 0)
  }

  /** Zero is read as no limit: a dimension can stop a workflow exactly when its ceiling
      is not zero. */
  lemma ZeroIsNoLimit(c: Ceilings, d: Dimension)
    ensures (forall usage :: Exceeded(usage, c.budget) != Some(d)) <==> c.budget.Of(d) == 0
  {
    var usage := UsageOf(d, c.budget.Of(d));
    assert forall e: Dimension :: e != d ==> usage.Of(e) == 0;
    if c.budget.Of(d) > 0 {
      assert Spent(usage, c.budget, d);
      assert Exceeded(usage, c.budget) == Some(d);
    }
  }

  /** And validated ceilings can have a zero in any one dimension. */
  lemma ZeroIsAdmitted(d: Dimension) returns (c: Ceilings)
    ensures c.budget.Of(d) == 0
  {
    var tokens, steps := Resources(0, 0, 0, 0, 0, 1, 0, 0), Resources(1, 0, 0, 0, 0, 0, 0, 0);
    assert tokens.Of(Tokens) > 0 && steps.Of(Iterations) > 0;
    c := CeilingFields(1, 1, 1, if d.Tokens? then steps else tokens);
  }

  // ----- The failure streak -----

  predicate Progress(o: Operation) {
    o.state.Acknowledged? || o.state.Reconciled?
  }

  predicate InFlight(o: Operation) {
    o.state.Prepared? || o.state.Dispatching?
  }

  /** Some operation of the iteration has ended. */
  predicate Settled(ops: seq<Operation>, i: nat) {
    exists o :: o in ops && o.iteration == i && !InFlight(o)
  }

  predicate Progressed(ops: seq<Operation>, i: nat) {
    exists o :: o in ops && o.iteration == i && Progress(o)
  }

  /** Settled without progress, and newer than every iteration with progress. */
  predicate FailedSince(ops: seq<Operation>, i: nat) {
    Settled(ops, i) && forall o :: o in ops && Progress(o) ==> o.iteration < i
  }

  function IterationSet(ops: seq<Operation>): set<nat> {
    set o | o in ops :: o.iteration
  }

  function FailedSet(ops: seq<Operation>): set<nat> {
    set i | i in IterationSet(ops) && FailedSince(ops, i)
  }

  /** `sort_unstable` and `dedup`, one id at a time. */
  function InsertId(i: nat, ids: seq<nat>): (r: seq<nat>)
    requires Ascending(ids)
    ensures Ascending(r) && forall x :: x in r <==> x == i || x in ids
  {
    if ids == [] || i < ids[0] then
      var r := [i] + ids;
      assert forall j, k :: 0 <= j < k < |r| ==> r[j] < r[k];
      r
    else if i == ids[0] then ids
    else
      assert ids == [ids[0]] + ids[1..];
      assert Ascending(ids[1..]);
      var rest := InsertId(i, ids[1..]);
      assert forall k :: 0 <= k < |rest| ==> rest[k] in rest;
      [ids[0]] + rest
  }

  predicate Ascending(ids: seq<nat>) {
    forall i, j :: 0 <= i < j < |ids| ==> ids[i] < ids[j]
  }

  function IterationIds(ops: seq<Operation>): (ids: seq<nat>)
    ensures Ascending(ids) && forall i :: i in ids <==> i in IterationSet(ops)
  {
    if ops == [] then [] else
      assert ops == [ops[0]] + ops[1..];
      assert IterationSet(ops) == {ops[0].iteration} + IterationSet(ops[1..]);
      InsertId(ops[0].iteration, IterationIds(ops[1..]))
  }

  /** `counted` are the settled iterations of `tail`, none of which made progress. */
  ghost predicate StreakOf(ops: seq<Operation>, tail: seq<nat>, counted: set<nat>) {
    && (forall i :: i in counted <==> i in tail && Settled(ops, i))
    && (forall i :: i in tail ==> !Progressed(ops, i))
  }

  lemma StreakGrows(ops: seq<Operation>, ids: seq<nat>, k: nat, counted: set<nat>)
    requires 0 < k <= |ids| && Ascending(ids) && StreakOf(ops, ids[k..], counted)
    ensures ids[k - 1] !in counted
    ensures !Progressed(ops, ids[k - 1]) ==>
      StreakOf(ops, ids[k - 1..], if Settled(ops, ids[k - 1]) then counted + {ids[k - 1]} else counted)
  {
    hide Settled, Progressed;
    assert ids[k - 1..] == [ids[k - 1]] + ids[k..];
    assert forall j :: 0 <= j < |ids[k..]| ==> ids[k..][j] == ids[k + j];
  }

  /** Walks the iterations from the newest, until one made progress. */
  method ConsecutiveFailures(ops: seq<Operation>) returns (streak: nat)
    ensures streak == |FailedSet(ops)|
  {
    hide StreakOf, Settled, Progressed, FailedSet, IterationIds, IterationSet;
    var ids := IterationIds(ops);
    streak := 0;
    ghost var counted: set<nat> := {};
    var k := |ids|;
    NoStreak(ops, ids[k..]);
    while k > 0
      invariant 0 <= k <= |ids| && streak == |counted|
      invariant StreakOf(ops, ids[k..], counted)
    {
      var iteration := ids[k - 1];
      var settled, progressed := Inspect(ops, iteration);
      StreakGrows(ops, ids, k, counted);
      if progressed {
        ProgressSettles(ops, iteration);
        StreakEnds(ops, ids, k, counted);
      }
      if settled {
        if progressed {
          break;
        }
        streak := streak + 1;
        counted := counted + {iteration};
      }
      k := k - 1;
    }
    if k == 0 {
      assert ids[0..] == ids;
      NoProgress(ops, ids, counted);
    }
  }

  lemma NoStreak(ops: seq<Operation>, tail: seq<nat>)
    requires tail == []
    ensures StreakOf(ops, tail, {})
  {
  }

  lemma ProgressSettles(ops: seq<Operation>, i: nat)
    requires Progressed(ops, i)
    ensures Settled(ops, i)
  {
  }

  method Inspect(ops: seq<Operation>, iteration: nat) returns (settled: bool, progressed: bool)
    ensures settled == Settled(ops, iteration) && progressed == Progressed(ops, iteration)
  {
    settled, progressed := false, false;
    for n := 0 to |ops|
      invariant settled == Settled(ops[..n], iteration) && progressed == Progressed(ops[..n], iteration)
    {
      var o := ops[n];
      assert ops[..n + 1] == ops[..n] + [o];
      assert o in ops[..n + 1] && forall p :: p in ops[..n + 1] <==> p in ops[..n] || p == o;
      if o.iteration == iteration {
        match o.state {
          case Acknowledged => settled, progressed := true, true;
          case Reconciled => settled, progressed := true, true;
          case FailedRetryable => settled := true;
          case Uncertain => settled := true;
          case Abandoned => settled := true;
          case Prepared =>
          case Dispatching =>
        }
      }
    }
    assert ops[..|ops|] == ops;
  }

  lemma CountedFailed(ops: seq<Operation>, ids: seq<nat>, k: nat, counted: set<nat>)
    requires 0 < k <= |ids| && ids == IterationIds(ops) && StreakOf(ops, ids[k..], counted)
    ensures forall i :: i in counted ==> i in FailedSet(ops)
  {
    forall i | i in counted ensures i in FailedSet(ops) {
      var j :| 0 <= j < |ids[k..]| && ids[k..][j] == i;
      assert i == ids[k + j] && i in ids;
      forall o | o in ops && Progress(o) ensures o.iteration < i {
        NotNewer(ops, ids, k, o);
      }
    }
  }

  lemma FailedCounted(ops: seq<Operation>, ids: seq<nat>, k: nat, counted: set<nat>, i: nat)
    requires 0 < k <= |ids| && ids == IterationIds(ops) && Progressed(ops, ids[k - 1])
    requires StreakOf(ops, ids[k..], counted) && i in FailedSet(ops)
    ensures i in counted
  {
    hide Settled;
    assert ids[k - 1] < i by {
      var o :| o in ops && o.iteration == ids[k - 1] && Progress(o);
    }
    hide Progressed, Progress;
    assert i in ids;
    var j :| 0 <= j < |ids| && ids[j] == i;
    assert j >= k;
    assert ids[k..][j - k] == i;
  }

  lemma StreakEnds(ops: seq<Operation>, ids: seq<nat>, k: nat, counted: set<nat>)
    requires 0 < k <= |ids| && ids == IterationIds(ops) && Progressed(ops, ids[k - 1])
    requires StreakOf(ops, ids[k..], counted)
    ensures counted == FailedSet(ops)
  {
    hide *;
    CountedFailed(ops, ids, k, counted);
    forall i | i in FailedSet(ops) ensures i in counted {
      FailedCounted(ops, ids, k, counted, i);
    }
  }

  lemma NotNewer(ops: seq<Operation>, ids: seq<nat>, k: nat, o: Operation)
    requires 0 < k <= |ids| && ids == IterationIds(ops)
    requires forall i :: i in ids[k..] ==> !Progressed(ops, i)
    requires o in ops && Progress(o)
    ensures forall j :: k <= j < |ids| ==> o.iteration < ids[j]
  {
    assert o.iteration in ids;
    var m :| 0 <= m < |ids| && ids[m] == o.iteration;
    assert Progressed(ops, o.iteration);
    forall j | k <= j < |ids| ensures ids[j] in ids[k..] {
      assert ids[k..][j - k] == ids[j];
    }
  }

  lemma NoProgress(ops: seq<Operation>, ids: seq<nat>, counted: set<nat>)
    requires ids == IterationIds(ops) && StreakOf(ops, ids, counted)
    ensures counted == FailedSet(ops)
  {
    forall o | o in ops ensures !Progress(o) {
      assert o.iteration in ids;
    }
  }

  function Failures(ops: seq<Operation>): nat {
    |FailedSet(ops)|
  }

  // ----- Admission -----

  function Elapsed(run: Run, now: nat): nat {
    if now < run.createdAt then 0 else now - run.createdAt
  }

  function Taken(run: Run): nat {
    if run.nextIteration == 0 then 0 else run.nextIteration - 1
  }

  function Admit(c: Ceilings, run: Run, now: nat): Admission {
    if Taken(run) >= c.maxSteps then Stopped(StepCeiling)
    else if Elapsed(run, now) >= c.maxWallMs then Stopped(WallCeiling)
    else match Exceeded(run.usage, c.budget)
      case Some(d) => Stopped(BudgetCeiling(d))
      case None =>
        if Failures(run.operations) >= c.maxFailures then Stopped(FailureCeiling)
        else Step(Taken(run))
  }

  method AdmitStep(c: Ceilings, run: Run, now: nat) returns (r: Admission)
    ensures r == Admit(c, run, now)
  {
    if Taken(run) >= c.maxSteps {
      return Stopped(StepCeiling);
    }
    if Elapsed(run, now) >= c.maxWallMs {
      return Stopped(WallCeiling);
    }
    var spent := Exceeded(run.usage, c.budget);
    if spent.Some? {
      return Stopped(BudgetCeiling(spent.value));
    }
    var streak := ConsecutiveFailures(run.operations);
    if streak >= c.maxFailures {
      return Stopped(FailureCeiling);
    }
    return Step(Taken(run));
  }

  /** The first spent dimension in declaration order. */
  ghost predicate FirstIs(usage: Resources, budget: Resources, d: Dimension) {
    exists k: nat :: k < |DIMENSIONS| && DIMENSIONS[k] == d && Spent(usage, budget, d)
      && forall j :: 0 <= j < k ==> !Spent(usage, budget, DIMENSIONS[j])
  }

  lemma {:induction false} FirstSpentAt(usage: Resources, budget: Resources, dimensions: seq<Dimension>) returns (k: nat)
    requires FirstSpent(usage, budget, dimensions).Some?
    ensures k < |dimensions| && FirstSpent(usage, budget, dimensions) == Some(dimensions[k])
    ensures forall j :: 0 <= j < k ==> !Spent(usage, budget, dimensions[j])
  {
    if Spent(usage, budget, dimensions[0]) {
      k := 0;
    } else {
      var n := FirstSpentAt(usage, budget, dimensions[1..]);
      k := n + 1;
      assert forall j :: 0 < j < k ==> dimensions[j] == dimensions[1..][j - 1];
    }
  }

  lemma DimensionsDiffer()
    ensures |DIMENSIONS| == 8 && forall i, j :: 0 <= i < j < 8 ==> DIMENSIONS[i] != DIMENSIONS[j]
  {
  }

  lemma ExceededIsFirst(usage: Resources, budget: Resources, d: Dimension)
    ensures Exceeded(usage, budget) == Some(d) <==> FirstIs(usage, budget, d)
  {
    if Exceeded(usage, budget).Some? {
      var k := FirstSpentAt(usage, budget, DIMENSIONS);
      DimensionsDiffer();
      hide DIMENSIONS, FirstSpent;
      assert FirstIs(usage, budget, DIMENSIONS[k]);
    }
  }

  /** Which answer an admission gets: the ceilings in this order, each exactly when those
      before it leave room; the wall clock from the run's creation, the first spent
      dimension, and otherwise the index of the step. */
  lemma AdmitExactly(c: Ceilings, run: Run, now: nat)
    ensures var steps := run.nextIteration > c.maxSteps;
      var wall := now >= run.createdAt + c.maxWallMs;
      var failed := Failures(run.operations) >= c.maxFailures;
      var within := !steps && !wall && forall d: Dimension :: !Spent(run.usage, c.budget, d);
      && (Admit(c, run, now) == Stopped(StepCeiling) <==> steps)
      && (Admit(c, run, now) == Stopped(WallCeiling) <==> !steps && wall)
      && (forall d :: Admit(c, run, now) == Stopped(BudgetCeiling(d)) <==> !steps && !wall && FirstIs(run.usage, c.budget, d))
      && (Admit(c, run, now) == Stopped(FailureCeiling) <==> within && failed)
      && (forall i :: Admit(c, run, now) == Step(i) <==>
            within && !failed && i == if run.nextIteration == 0 then 0 else run.nextIteration - 1)
  {
    hide Failures, Exceeded, FirstIs, Spent;
    forall d ensures Exceeded(run.usage, c.budget) == Some(d) <==> FirstIs(run.usage, c.budget, d) {
      ExceededIsFirst(run.usage, c.budget, d);
    }
  }

  // ----- What admission guarantees -----

  /** The streak depends on which operations there are, not on the map's order. */
  lemma StreakIgnoresOrder(a: seq<Operation>, b: seq<Operation>)
    requires forall o :: o in a <==> o in b
    ensures Failures(a) == Failures(b)
  {
    assert IterationSet(a) == IterationSet(b);
    forall i: nat ensures FailedSince(a, i) <==> FailedSince(b, i) {
      assert Settled(a, i) <==> Settled(b, i);
    }
    assert FailedSet(a) == FailedSet(b);
  }

  /** The published reading: every operation of the iteration ended unsuccessfully. */
  predicate EveryOperationFailed(ops: seq<Operation>, i: nat) {
    && Settled(ops, i)
    && forall o :: o in ops && o.iteration == i ==> !InFlight(o) && !Progress(o)
  }

  function PublishedSet(ops: seq<Operation>): set<nat> {
    set i | i in FailedSet(ops) && EveryOperationFailed(ops, i)
  }

  /** The streak is the published one exactly when no counted iteration still has an
      operation in flight; otherwise it is longer. */
  lemma StreakVersusPublished(ops: seq<Operation>)
    ensures |PublishedSet(ops)| <= Failures(ops)
    ensures |PublishedSet(ops)| == Failures(ops)
      <==> forall o :: o in ops && o.iteration in FailedSet(ops) ==> !InFlight(o)
  {
    var published, counted := PublishedSet(ops), FailedSet(ops);
    assert counted == published + (counted - published);
    if forall o :: o in ops && o.iteration in counted ==> !InFlight(o) {
      forall i | i in counted ensures i in published {
        forall o | o in ops && o.iteration == i ensures !InFlight(o) && !Progress(o) {
          assert o.iteration in counted;
        }
      }
      assert published == counted;
    } else {
      var o :| o in ops && o.iteration in counted && InFlight(o);
      assert o.iteration in counted - published;
    }
  }

  /** An input on which they differ: one operation of the iteration failed, another is
      still prepared. */
  lemma StreakCountsInFlight(i: nat)
    ensures var ops := [Operation(i, FailedRetryable), Operation(i, Prepared)];
      Failures(ops) == 1 && PublishedSet(ops) == {}
  {
    var ops := [Operation(i, FailedRetryable), Operation(i, Prepared)];
    assert ops[0] in ops && ops[1] in ops;
    assert FailedSet(ops) == {i};
  }

  predicate AtLeast(later: Resources, earlier: Resources) {
    forall d: Dimension :: later.Of(d) >= earlier.Of(d)
  }

  /** Step, wall and budget stops are final: however the run's count, clock and usage
      grow, and whatever its operations become, no step is ever admitted again. */
  lemma StopsAreFinal(c: Ceilings, run: Run, now: nat, later: Run, then_: nat)
    requires Admit(c, run, now).Stopped? && !Admit(c, run, now).stop.FailureCeiling?
    requires later.nextIteration >= run.nextIteration && later.createdAt == run.createdAt && then_ >= now
    requires AtLeast(later.usage, run.usage)
    ensures Admit(c, later, then_).Stopped? && !Admit(c, later, then_).stop.FailureCeiling?
  {
    var spent := Exceeded(run.usage, c.budget);
    if spent.Some? {
      assert Spent(later.usage, c.budget, spent.value);
    }
  }

  /** A failure stop is not final: it is lifted when an operation it counted turns out
      to have taken effect. */
  lemma FailureStopCanLift(c: Ceilings, run: Run, now: nat)
    requires c.maxFailures == 1 && run.operations == [Operation(1, Uncertain)]
    requires Admit(c, run, now) == Stopped(FailureCeiling)
    ensures Admit(c, run.(operations := [Operation(1, Reconciled)]), now) == Step(Taken(run))
  {
    var reconciled := [Operation(1, Reconciled)];
    assert reconciled[0] in reconciled && Progress(reconciled[0]);
    assert FailedSet(reconciled) == {};
  }

  /** One look of the driver at a run. */
  datatype Look = Look(run: Run, now: nat)

  /** Every admitted step advances the iteration counter before the next look, and the
      counter never goes back. */
  predicate Advances(c: Ceilings, looks: seq<Look>) {
    forall i :: 0 < i < |looks| ==>
      looks[i].run.nextIteration >=
        looks[i - 1].run.nextIteration + if Admit(c, looks[i - 1].run, looks[i - 1].now).Step? then 1 else 0
  }

  function Admitted(c: Ceilings, looks: seq<Look>): nat {
    if looks == [] then 0 else
      Admitted(c, looks[..|looks| - 1])
      + if Admit(c, looks[|looks| - 1].run, looks[|looks| - 1].now).Step? then 1 else 0
  }

  lemma {:induction false} AdmittedCount(c: Ceilings, looks: seq<Look>)
    requires Advances(c, looks) && looks != [] && looks[0].run.nextIteration >= 1
    ensures var last := looks[|looks| - 1];
      Admitted(c, looks) <=
        Taken(last.run) - Taken(looks[0].run) + if Admit(c, last.run, last.now).Step? then 1 else 0
    ensures looks[|looks| - 1].run.nextIteration >= looks[0].run.nextIteration
  {
    hide Admit;
    var front := looks[..|looks| - 1];
    if front == [] {
      assert Admitted(c, front) == 0;
    } else {
      assert forall i :: 0 <= i < |front| ==> front[i] == looks[i];
      AdmittedCount(c, front);
    }
  }

  lemma StepNeedsRoom(c: Ceilings, run: Run, now: nat)
    ensures Admit(c, run, now).Step? ==> Taken(run) < c.maxSteps && Admit(c, run, now).index == Taken(run)
  {
  }

  lemma {:induction false} AdmittedAtMostRoom(c: Ceilings, looks: seq<Look>)
    requires Advances(c, looks) && looks != [] && looks[0].run.nextIteration >= 1
    ensures Admitted(c, looks) == 0 || Admitted(c, looks) <= c.maxSteps - Taken(looks[0].run)
  {
    var last := looks[|looks| - 1];
    var front := looks[..|looks| - 1];
    if Admit(c, last.run, last.now).Step? {
      StepNeedsRoom(c, last.run, last.now);
      AdmittedCount(c, looks);
    } else if front != [] {
      hide Admit;
      assert forall i :: 0 <= i < |front| ==> front[i] == looks[i];
      AdmittedAtMostRoom(c, front);
    }
  }

  /** A workflow whose admitted steps advance its counter admits at most `maxSteps`
      steps, however often the driver looks, restarts or is replaced. */
  lemma WorkflowIsBounded(c: Ceilings, looks: seq<Look>)
    requires Advances(c, looks) && looks != [] && looks[0].run.nextIteration >= 1
    ensures Admitted(c, looks) <= c.maxSteps
  {
    AdmittedAtMostRoom(c, looks);
  }
}
