/**
 * The performance gate told without its own vocabulary: which numbers it
 * compares, what its verdict needs, and what blocks it.
 */
module GateTheorems {
  import opened Wrappers
  import opened Seqs
  import opened Sorting
  import opened StabilityGate

  // ---- the numbers compared ----

  function ThroughputOf(m: Metrics): Option<real> {
    m.throughput
  }

  function P95Of(m: Metrics): Option<real> {
    m.p95
  }

  function P99Of(m: Metrics): Option<real> {
    m.p99
  }

  /** One field of the runs of one scenario, as they come. */
  function Picked(runs: seq<RawRun>, scenario: Scenario, field: Metrics -> Option<real>): seq<real> {
    if runs == [] then []
    else
      var r := runs[0];
      (if r.scenario == scenario && r.metrics.Some? && field(r.metrics.value).Some? then [field(r.metrics.value).value] else [])
      + Picked(runs[1..], scenario, field)
  }

  /** What a field says of every run. */
  ghost predicate Reads(runs: seq<RawRun>, metric: Metric, field: Metrics -> Option<real>) {
    forall i | 0 <= i < |runs| :: runs[i].metrics.Some? && field(runs[i].metrics.value) == Some(Value(runs[i], metric))
  }

  lemma GroupHead(runs: seq<RawRun>, scenario: Scenario)
    requires runs != []
    ensures Group(runs, scenario) == (if runs[0].scenario == scenario then [runs[0]] else []) + Group(runs[1..], scenario)
  {
  }

  lemma ValuesOfHead(r: RawRun, group: seq<RawRun>, metric: Metric)
    ensures ValuesOf([r] + group, metric) == [Value(r, metric)] + ValuesOf(group, metric)
  {
  }

  lemma {:induction false} PickedIsMapped(runs: seq<RawRun>, scenario: Scenario, metric: Metric, field: Metrics -> Option<real>)
    requires Reads(runs, metric, field)
    ensures Picked(runs, scenario, field) == ValuesOf(Group(runs, scenario), metric)
  {
    if runs != [] {
      PickedIsMapped(runs[1..], scenario, metric, field);
      GroupHead(runs, scenario);
      ValuesOfHead(runs[0], Group(runs[1..], scenario), metric);
    }
  }

  lemma ValuesArePicked(runs: seq<RawRun>, scenario: Scenario, metric: Metric, field: Metrics -> Option<real>)
    requires Reads(runs, metric, field)
    ensures multiset(Values(runs, scenario, metric)) == multiset(Picked(runs, scenario, field))
  {
    PickedIsMapped(runs, scenario, metric, field);
    MapPermutation((r: RawRun) => Value(r, metric), Sort(RunIdLe, Group(runs, scenario)), Group(runs, scenario));
  }

  lemma FieldsRead(runs: seq<RawRun>, commit: string)
    requires AllValid(runs, commit)
    ensures Reads(runs, Throughput, ThroughputOf) && Reads(runs, P95, P95Of) && Reads(runs, P99, P99Of)
  {
    assert forall i | 0 <= i < |runs| :: runs[i] in runs;
  }

  /** The three compared metrics are the throughput and the two upper latency percentiles of the runs. */
  lemma ComparedValues(runs: seq<RawRun>, commit: string, scenario: Scenario)
    requires AllValid(runs, commit)
    ensures multiset(Values(runs, scenario, Throughput)) == multiset(Picked(runs, scenario, ThroughputOf))
    ensures multiset(Values(runs, scenario, P95)) == multiset(Picked(runs, scenario, P95Of))
    ensures multiset(Values(runs, scenario, P99)) == multiset(Picked(runs, scenario, P99Of))
  {
    FieldsRead(runs, commit);
    ValuesArePicked(runs, scenario, Throughput, ThroughputOf);
    ValuesArePicked(runs, scenario, P95, P95Of);
    ValuesArePicked(runs, scenario, P99, P99Of);
  }

  // ---- the value of the variance ----

  /** For values that are not negative, the comparison fails exactly on a zero throughput or a latency of mixed zeros. */
  lemma VarianceErrors(values: seq<real>, metric: Metric)
    requires forall v | v in values :: v >= 0.0
    ensures Variance(values, metric).None? <==>
              values == [] || (0.0 in values && (metric == Throughput || exists v | v in values :: v != 0.0))
  {
    if values != [] {
      MedianSign(values);
      assert values[0] in values;
    }
  }

  /** Latencies that are all zero vary by nothing. */
  lemma ZerosVaryByNothing(values: seq<real>, metric: Metric)
    requires values != [] && AllZero(values) && metric != Throughput
    ensures Variance(values, metric) == Some(0.0)
  {
    MedianSign(values);
  }

  /** A scenario that contributes to the maximum: five runs and three comparisons that succeed. */
  ghost predicate Contributes(runs: seq<RawRun>, i: nat)
    requires i < 3
  {
    var f := VarianceTable(runs);
    |Group(runs, Scenarios()[i])| == 5 && f(i, 0).Some? && f(i, 1).Some? && f(i, 2).Some?
  }

  ghost predicate FirstContribute(runs: seq<RawRun>, n: nat)
    requires n <= 3
  {
    forall i | 0 <= i < n :: Contributes(runs, i)
  }

  lemma GlobalStep(runs: seq<RawRun>, i: nat)
    requires i < 3
    ensures GlobalVariance(runs, i + 1).Some? <==> GlobalVariance(runs, i).Some? && Contributes(runs, i)
  {
    ScenarioErrors(runs, i);
  }

  lemma FirstStep(runs: seq<RawRun>, i: nat)
    requires i < 3
    ensures FirstContribute(runs, i + 1) <==> FirstContribute(runs, i) && Contributes(runs, i)
  {
  }

  /** The recomputed maximum exists exactly when every scenario has its five runs and all its comparisons succeed. */
  lemma {:induction false} GlobalErrors(runs: seq<RawRun>, n: nat)
    requires n <= 3
    ensures GlobalVariance(runs, n).Some? <==> FirstContribute(runs, n)
  {
    if n > 0 {
      GlobalErrors(runs, n - 1);
      GlobalStep(runs, n - 1);
      FirstStep(runs, n - 1);
    }
  }

  lemma ScenarioErrors(runs: seq<RawRun>, i: nat)
    requires i < 3
    ensures var f := VarianceTable(runs);
            ScenarioVariance(runs, Scenarios()[i], 3).Some? <==> f(i, 0).Some? && f(i, 1).Some? && f(i, 2).Some?
  {
    ScenarioMax(runs, i);
  }

  /** For positive values it is the largest distance from the median, in percent of it. */
  lemma VarianceValue(values: seq<real>, metric: Metric, m: real)
    requires values != [] && (forall v | v in values :: v > 0.0) && IsMedian(values, m)
    ensures m > 0.0 && Variance(values, metric).Some? && IsLargest(values, m, Variance(values, metric).value)
  {
    MedianExact(values, m);
    MedianSign(values);
    PositiveValuesExact(values, metric, m);
    LargestMeans(values, m, MaxDeviation(values, m));
  }

  /** The distances from m are at most x percent of m, and one of them is exactly that. */
  ghost predicate IsLargest(values: seq<real>, m: real, x: real) {
    && (forall v | v in values :: Abs(v - m) * 100.0 <= x * m)
    && exists v | v in values :: Abs(v - m) * 100.0 == x * m
  }

  lemma LargestMeans(values: seq<real>, m: real, x: real)
    requires values != [] && m > 0.0 && x == MaxDeviation(values, m)
    ensures IsLargest(values, m, x)
  {
    MaxDeviationIsMax(values, m);
    forall v | v in values
      ensures Abs(v - m) * 100.0 <= x * m
    {
      DeviationScaled(v, m, x);
    }
    LargestIsReached(values, m, x);
    var v :| v in values && Deviation(v, m) == x;
    DeviationScaled(v, m, x);
  }

  lemma DeviationScaled(v: real, m: real, x: real)
    requires m > 0.0
    ensures Deviation(v, m) <= x ==> Abs(v - m) * 100.0 <= x * m
    ensures Deviation(v, m) == x ==> Abs(v - m) * 100.0 == x * m
  {
    var q := Abs(v - m) / m;
    assert q * m == Abs(v - m);
    assert Abs(v - m) * 100.0 == q * 100.0 * m;
    if Deviation(v, m) <= x {
      assert (x - q * 100.0) * m >= 0.0;
      assert (x - q * 100.0) * m == x * m - q * 100.0 * m;
    }
  }

  /** A largest deviation of zero is that of every value. */
  lemma LargestIsReached(values: seq<real>, m: real, x: real)
    requires values != [] && m > 0.0 && x == MaxDeviation(values, m)
    ensures exists v | v in values :: Deviation(v, m) == x
  {
    MaxDeviationIsMax(values, m);
    if x == 0.0 {
      assert values[0] in values;
      DeviationNonNegative(values[0], m);
    }
  }

  // ---- the verdict ----

  /** One metric of one scenario's runs is steady. */
  ghost predicate SteadyIn(runs: seq<RawRun>, scenario: Scenario, metric: Metric) {
    Steady(Values(runs, scenario, metric), metric)
  }

  ghost predicate ScenarioSteady(runs: seq<RawRun>, scenario: Scenario) {
    SteadyIn(runs, scenario, Throughput) && SteadyIn(runs, scenario, P95) && SteadyIn(runs, scenario, P99)
  }

  lemma FiveMeans(runs: seq<RawRun>)
    ensures FiveEach(runs) <==>
              |Group(runs, Health)| == 5 && |Group(runs, IntentCompile)| == 5 && |Group(runs, SqliteContention)| == 5
  {
    var s := Scenarios();
    assert s[0] == Health && s[1] == IntentCompile && s[2] == SqliteContention;
  }

  lemma NineMean(g: (nat, nat) -> bool)
    ensures (forall i, j | 0 <= i < 3 && 0 <= j < 3 :: g(i, j)) <==>
              && g(0, 0) && g(0, 1) && g(0, 2) && g(1, 0) && g(1, 1) && g(1, 2) && g(2, 0) && g(2, 1) && g(2, 2)
  {
  }

  ghost function SteadyGrid(runs: seq<RawRun>): (nat, nat) -> bool
    requires FiveEach(runs)
  {
    (i: nat, j: nat) => i < 3 && j < 3 && SteadyAt(runs, i, j)
  }

  lemma GridMeans(runs: seq<RawRun>)
    requires FiveEach(runs)
    ensures AllSteady(runs) <==> forall i, j | 0 <= i < 3 && 0 <= j < 3 :: SteadyGrid(runs)(i, j)
  {
    forall i, j | 0 <= i < 3 && 0 <= j < 3
      ensures SteadyGrid(runs)(i, j) == SteadyAt(runs, i, j)
    {
    }
  }

  lemma GridAt(runs: seq<RawRun>, i: nat)
    requires FiveEach(runs) && i < 3
    ensures SteadyGrid(runs)(i, 0) == SteadyIn(runs, Scenarios()[i], Throughput)
    ensures SteadyGrid(runs)(i, 1) == SteadyIn(runs, Scenarios()[i], P95)
    ensures SteadyGrid(runs)(i, 2) == SteadyIn(runs, Scenarios()[i], P99)
  {
  }

  lemma SteadyMeans(runs: seq<RawRun>)
    requires FiveEach(runs)
    ensures AllSteady(runs) <==>
              ScenarioSteady(runs, Health) && ScenarioSteady(runs, IntentCompile) && ScenarioSteady(runs, SqliteContention)
  {
    GridMeans(runs);
    NineMean(SteadyGrid(runs));
    GridAt(runs, 0);
    GridAt(runs, 1);
    GridAt(runs, 2);
  }

  /** The raw runs the verdict needs, with its constants. */
  ghost predicate GoodRuns(runs: seq<RawRun>, commit: string) {
    && (forall r | r in runs :: ValidRun(r, commit))
    && (forall i, j | 0 <= i < j < |runs| :: runs[i].runId != runs[j].runId)
    && |Group(runs, Health)| == 5 && |Group(runs, IntentCompile)| == 5 && |Group(runs, SqliteContention)| == 5
    && ScenarioSteady(runs, Health) && ScenarioSteady(runs, IntentCompile) && ScenarioSteady(runs, SqliteContention)
  }

  lemma RunsMean(runs: seq<RawRun>, commit: string)
    ensures AllValid(runs, commit) && Distinct(RunIds(runs)) && FiveEach(runs) && AllSteady(runs) <==> GoodRuns(runs, commit)
  {
    FiveMeans(runs);
    IdsApart(runs);
    if FiveEach(runs) {
      SteadyMeans(runs);
    }
  }

  /** The verdict in full. */
  lemma AuthoritativeMeans(e: Evidence, commit: string)
    ensures Authoritative(e, commit) <==>
              && Canonical(e.header, commit) && e.medianMethod && e.runsPerScenario == 5
              && e.declared.Some? && 0.0 <= e.declared.value < 10.0
              && GoodRuns(e.runs, commit) && DeclaresWorst(e.runs, e.declared.value)
  {
    RunsMean(e.runs, commit);
    if e.declared.Some? {
      ToleranceMeans(e.runs, e.declared.value);
    }
  }

  /** The declared maximum is the worst of the nine, to nine decimal places. */
  ghost predicate DeclaresWorst(runs: seq<RawRun>, declared: real) {
    exists worst :: IsWorst(runs, worst) && -0.000000001 <= declared - worst <= 0.000000001
  }

  lemma IdsApart(runs: seq<RawRun>)
    ensures Distinct(RunIds(runs)) <==> forall i, j | 0 <= i < j < |runs| :: runs[i].runId != runs[j].runId
  {
    var ids := RunIds(runs);
    assert forall i | 0 <= i < |runs| :: ids[i] == runs[i].runId;
  }

  lemma ToleranceMeans(runs: seq<RawRun>, declared: real)
    ensures (exists worst :: IsWorst(runs, worst) && Abs(declared - worst) <= STABILITY_TOLERANCE) <==>
            DeclaresWorst(runs, declared)
  {
  }

  // ---- what blocks it ----

  /** A header from another kind, version, commit, date format, runner or baseline. */
  predicate BadHeader(h: Header, commit: string) {
    || h.kind != CanonicalPerf || h.formatVersion != Some(1) || !h.authoritative
    || h.commit != Some(commit) || h.lastValidatedCommit != Some(commit)
    || !h.validatedAt || !h.runner || !h.baseline
  }

  /** A run without an id, of another commit or scenario, without proof, or with metrics that cannot be. */
  predicate BadRun(r: RawRun, commit: string) {
    || r.runId.None? || r.commit != commit || r.scenario.Other? || !r.capturedAt || !r.artifact || !r.notSample
    || r.metrics.None?
    || BadMetrics(r.metrics.value)
  }

  predicate BadMetrics(m: Metrics) {
    || m.throughput.None? || m.throughput.value <= 0.0
    || m.p50.None? || m.p95.None? || m.p99.None? || m.errorRate.None?
    || m.p50.value < 0.0 || m.p95.value < m.p50.value || m.p99.value < m.p95.value
    || m.errorRate.value < 0.0 || m.errorRate.value > 1.0
  }

  /** One bad run or a bad header blocks the verdict, whatever the rest says. */
  lemma DefectsBlock(e: Evidence, commit: string)
    ensures BadHeader(e.header, commit) ==> !Authoritative(e, commit)
    ensures (exists r | r in e.runs :: BadRun(r, commit)) ==> !Authoritative(e, commit)
    ensures forall r :: ValidRun(r, commit) <==> !BadRun(r, commit)
    ensures Canonical(e.header, commit) <==> !BadHeader(e.header, commit)
  {
    forall r: RawRun
      ensures ValidRun(r, commit) <==> !BadRun(r, commit)
    {
      assert r.scenario in Scenarios() <==> !r.scenario.Other?;
    }
  }
}
