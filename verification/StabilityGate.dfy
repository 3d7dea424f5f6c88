/**
 * The performance stability gate: evidence is authoritative only if the
 * median-relative variance recomputed from its raw runs stays within a bound.
 * Numbers are reals; what JSON type checks reject is carried as None.
 */
module StabilityGate {
  import opened Wrappers
  import opened Seqs
  import opened Sorting
  import opened Text

  /** A scenario name: one of the three required ones, or any other. */
  datatype Scenario = Health | IntentCompile | SqliteContention | Other(name: string)

  datatype Metric = Throughput | P95 | P99

  /** Finite numbers only; a value of any other JSON type or not finite is None. */
  datatype Metrics = Metrics(throughput: Option<real>, p50: Option<real>, p95: Option<real>,
                             p99: Option<real>, errorRate: Option<real>)

  /**
   * One raw run. A run id that is not a non-empty string and metrics that are
   * not an object with exactly the required keys are None.
   */
  datatype RawRun = RawRun(runId: Option<string>, commit: string, scenario: Scenario, capturedAt: bool,
                           artifact: bool, notSample: bool, metrics: Option<Metrics>)

  datatype Kind = CanonicalPerf | LegacyPerf | OtherKind

  /**
   * The header fields. The last three say whether the date is strict RFC 3339 in
   * UTC, the runner a controlled one, and the baseline a path without a sample component.
   */
  datatype Header = Header(kind: Kind, formatVersion: Option<int>, authoritative: bool, commit: Option<string>,
                           lastValidatedCommit: Option<string>, validatedAt: bool, runner: bool, baseline: bool)

  predicate Canonical(h: Header, commit: string) {
    && h.kind == CanonicalPerf && h.formatVersion == Some(1) && h.authoritative
    && h.commit == Some(commit) && h.lastValidatedCommit == Some(commit)
    && h.validatedAt && h.runner && h.baseline
  }

  /** The evidence: its header, what it declares, and its raw runs. */
  datatype Evidence = Evidence(header: Header, medianMethod: bool, runsPerScenario: int,
                               declared: Option<real>, runs: seq<RawRun>)

  const REQUIRED_RUNS := 5
  const MAX_VARIANCE_PERCENT: real := 10.0
  const STABILITY_TOLERANCE: real := 0.000000001

  /** The required scenarios, in the order the stability computation visits them. */
  function Scenarios(): seq<Scenario> {
    [Health, IntentCompile, SqliteContention]
  }

  function CriticalMetrics(): seq<Metric> {
    [Throughput, P95, P99]
  }

  function Abs(x: real): real {
    if x < 0.0 then -x else x
  }

  // ---- validity of one run ----

  predicate ValidMetrics(m: Metrics) {
    && m.throughput.Some? && m.throughput.value > 0.0
    && m.p50.Some? && m.p95.Some? && m.p99.Some?
    && 0.0 <= m.p50.value <= m.p95.value <= m.p99.value
    && m.errorRate.Some? && 0.0 <= m.errorRate.value <= 1.0
  }

  predicate ValidRun(run: RawRun, commit: string) {
    && run.runId.Some? && run.commit == commit && run.scenario in Scenarios()
    && run.capturedAt && run.artifact && run.notSample
    && run.metrics.Some? && ValidMetrics(run.metrics.value)
  }

  function Value(run: RawRun, metric: Metric): real {
    if run.metrics.None? then 0.0
    else match metric
      case Throughput => run.metrics.value.throughput.GetOr(0.0)
      case P95 => run.metrics.value.p95.GetOr(0.0)
      case P99 => run.metrics.value.p99.GetOr(0.0)
  }

  // ---- the median ----

  function Median(values: seq<real>): real
    requires values != []
  {
    var s := Sort(RealLe, values);
    var n := |s|;
    if n % 2 == 1 then s[n / 2] else (s[n / 2 - 1] + s[n / 2]) / 2.0
  }

  function AtMost(x: real): real -> bool {
    v => v <= x
  }

  function AtLeast(x: real): real -> bool {
    v => v >= x
  }

  /** How many values pass a test. */
  function Count(p: real -> bool, values: seq<real>): nat {
    |Filter(p, values)|
  }

  /** The lower of the two middle values: half of the values are at most it, more than half at least it. */
  ghost predicate IsLower(values: seq<real>, a: real) {
    a in values && 2 * Count(AtMost(a), values) >= |values| && 2 * Count(AtLeast(a), values) > |values|
  }

  /** The upper of the two middle values. */
  ghost predicate IsUpper(values: seq<real>, b: real) {
    b in values && 2 * Count(AtLeast(b), values) >= |values| && 2 * Count(AtMost(b), values) > |values|
  }

  /** Halfway between the two middle values, told by counting. */
  ghost predicate IsMedian(values: seq<real>, m: real) {
    exists a, b | IsLower(values, a) && IsUpper(values, b) :: m == (a + b) / 2.0
  }

  lemma CountFront(p: real -> bool, s: seq<real>, n: nat)
    requires n <= |s| && forall i | 0 <= i < n :: p(s[i])
    ensures Count(p, s) >= n
  {
    assert s == s[..n] + s[n..];
    FilterConcat(p, s[..n], s[n..]);
    FilterAll(p, s[..n]);
  }

  lemma CountBack(p: real -> bool, s: seq<real>, n: nat)
    requires n <= |s| && forall i | n <= i < |s| :: p(s[i])
    ensures Count(p, s) >= |s| - n
  {
    assert s == s[..n] + s[n..];
    FilterConcat(p, s[..n], s[n..]);
    FilterAll(p, s[n..]);
  }

  lemma CountPermutes(p: real -> bool, a: seq<real>, b: seq<real>)
    requires multiset(a) == multiset(b)
    ensures Count(p, a) == Count(p, b)
  {
    FilterPermutation(p, a, b);
    assert |multiset(Filter(p, a))| == |Filter(p, a)| && |multiset(Filter(p, b))| == |Filter(p, b)|;
  }

  /** In a sorted list, as many values are at most the i-th as stand up to it, and as many at least it as from it on. */
  lemma SortedCounts(values: seq<real>, s: seq<real>, i: nat)
    requires s == Sort(RealLe, values) && i < |s|
    ensures s[i] in values
    ensures Count(AtMost(s[i]), values) >= i + 1 && Count(AtLeast(s[i]), values) >= |s| - i
  {
    RealOrder();
    SortSorted(RealLe, values);
    forall j | 0 <= j < i + 1
      ensures AtMost(s[i])(s[j])
    {
      SortedAt(RealLe, s, j, i);
    }
    forall j | i <= j < |s|
      ensures AtLeast(s[i])(s[j])
    {
      SortedAt(RealLe, s, i, j);
    }
    CountFront(AtMost(s[i]), s, i + 1);
    CountBack(AtLeast(s[i]), s, i);
    CountPermutes(AtMost(s[i]), values, s);
    CountPermutes(AtLeast(s[i]), values, s);
    assert s[i] in multiset(s);
    var k := IndexOf(values, s[i]);
  }

  lemma {:induction false} CountsApart(values: seq<real>, a: real, b: real)
    requires a < b
    ensures Count(AtMost(a), values) + Count(AtLeast(b), values) <= |values|
  {
    if values != [] {
      CountsApart(values[1..], a, b);
    }
  }

  lemma MiddleUnique(values: seq<real>, a: real, b: real)
    ensures IsLower(values, a) && IsLower(values, b) ==> a == b
    ensures IsUpper(values, a) && IsUpper(values, b) ==> a == b
  {
    if a < b {
      CountsApart(values, a, b);
    } else if b < a {
      CountsApart(values, b, a);
    }
  }

  lemma MiddlesOf(values: seq<real>, s: seq<real>)
    requires values != [] && s == Sort(RealLe, values)
    ensures IsLower(values, s[(|s| - 1) / 2]) && IsUpper(values, s[|s| / 2])
  {
    SortedCounts(values, s, (|s| - 1) / 2);
    SortedCounts(values, s, |s| / 2);
  }

  lemma MedianOfMiddles(values: seq<real>, s: seq<real>)
    requires values != [] && s == Sort(RealLe, values)
    ensures Median(values) == (s[(|s| - 1) / 2] + s[|s| / 2]) / 2.0
  {
    assert |s| % 2 == 1 ==> (|s| - 1) / 2 == |s| / 2;
    assert |s| % 2 == 0 ==> (|s| - 1) / 2 == |s| / 2 - 1;
  }

  /** The computed median is the median, and no other number is. */
  lemma MedianExact(values: seq<real>, m: real)
    requires values != []
    ensures IsMedian(values, m) <==> m == Median(values)
  {
    var s := Sort(RealLe, values);
    var a, b := s[(|s| - 1) / 2], s[|s| / 2];
    MiddlesOf(values, s);
    MedianOfMiddles(values, s);
    if IsMedian(values, m) {
      var c, d :| IsLower(values, c) && IsUpper(values, d) && m == (c + d) / 2.0;
      MiddleUnique(values, a, c);
      MiddleUnique(values, b, d);
    }
  }

  lemma MedianOrderFree(a: seq<real>, b: seq<real>)
    requires a != [] && multiset(a) == multiset(b)
    ensures b != [] && Median(a) == Median(b)
  {
    assert |multiset(a)| == |a| && |multiset(b)| == |b|;
    RealOrder();
    SortPermutation(RealLe, a, b);
  }

  /** The median lies between the extremes. */
  lemma MedianBetween(values: seq<real>, lo: real, hi: real)
    requires values != [] && forall v | v in values :: lo <= v <= hi
    ensures lo <= Median(values) <= hi
  {
    var s := Sort(RealLe, values);
    forall i | 0 <= i < |s|
      ensures lo <= s[i] <= hi
    {
      assert s[i] in multiset(s);
      var k := IndexOf(values, s[i]);
      assert values[k] in values;
    }
  }

  // ---- variance of one metric ----

  /** Deviation from the median in percent of it. */
  function Deviation(v: real, median: real): real
    requires median != 0.0
  {
    Abs(v - median) / median * 100.0
  }

  function MaxDeviation(values: seq<real>, median: real): real
    requires median != 0.0
  {
    if values == [] then 0.0
    else
      var n := |values| - 1;
      var before, dev := MaxDeviation(values[..n], median), Deviation(values[n], median);
      if dev > before then dev else before
  }

  predicate AllZero(values: seq<real>) {
    forall v | v in values :: v == 0.0
  }

  /** None is an error: no values, a zero among others, or a throughput that is not positive. */
  function Variance(values: seq<real>, metric: Metric): Option<real> {
    if values == [] then None else VarianceAround(values, metric, Median(values))
  }

  function VarianceAround(values: seq<real>, metric: Metric, median: real): Option<real> {
    if metric.Throughput? && (median <= 0.0 || exists v | v in values :: v <= 0.0) then None
    else if !metric.Throughput? && !AllZero(values) && (0.0 in values || median == 0.0) then None
    else if median == 0.0 then Some(0.0)
    else Some(MaxDeviation(values, median))
  }

  method CountValues(values: seq<real>) returns (zeroCount: nat, anyNotPositive: bool)
    ensures zeroCount == |values| <==> AllZero(values)
    ensures zeroCount > 0 <==> 0.0 in values
    ensures anyNotPositive <==> exists v | v in values :: v <= 0.0
  {
    zeroCount, anyNotPositive := 0, false;
    for i := 0 to |values|
      invariant 0 <= zeroCount <= i
      invariant zeroCount == i <==> forall k | 0 <= k < i :: values[k] == 0.0
      invariant zeroCount > 0 <==> exists k | 0 <= k < i :: values[k] == 0.0
      invariant anyNotPositive <==> exists k | 0 <= k < i :: values[k] <= 0.0
    {
      if values[i] == 0.0 {
        zeroCount := zeroCount + 1;
      }
      if values[i] <= 0.0 {
        anyNotPositive := true;
      }
    }
    assert forall k | 0 <= k < |values| :: values[k] in values;
  }

  method LargestDeviation(values: seq<real>, median: real) returns (maxDev: real)
    requires median != 0.0
    ensures maxDev == MaxDeviation(values, median)
  {
    maxDev := 0.0;
    for i := 0 to |values|
      invariant maxDev == MaxDeviation(values[..i], median)
    {
      assert values[..i + 1][..i] == values[..i];
      var dev := Deviation(values[i], median);
      if dev > maxDev {
        maxDev := dev;
      }
    }
    assert values[..|values|] == values;
  }

  /** The checks in the order the code makes them, then the running maximum. */
  method MedianRelativeVariance(values: seq<real>, metric: Metric) returns (r: Option<real>)
    ensures r == Variance(values, metric)
  {
    if values == [] {
      return None;
    }
    var median := Median(values);
    var zeroCount, anyNotPositive := CountValues(values);
    var allZero := zeroCount == |values|;
    if metric.Throughput? {
      if median <= 0.0 || anyNotPositive {
        return None;
      }
    } else if !allZero && zeroCount > 0 {
      return None;
    } else if median == 0.0 && !allZero {
      return None;
    }
    if median == 0.0 {
      return Some(0.0);
    }
    var maxDev := LargestDeviation(values, median);
    return Some(maxDev);
  }

  lemma {:induction false} MaxDeviationIsMax(values: seq<real>, median: real)
    requires median > 0.0
    ensures forall v | v in values :: Deviation(v, median) <= MaxDeviation(values, median)
    ensures MaxDeviation(values, median) == 0.0 || exists v | v in values :: Deviation(v, median) == MaxDeviation(values, median)
    ensures MaxDeviation(values, median) >= 0.0
  {
    if values != [] {
      var n := |values| - 1;
      MaxDeviationIsMax(values[..n], median);
      assert values == values[..n] + [values[n]];
      assert values[n] in values;
      assert forall v | v in values[..n] :: v in values;
      DeviationNonNegative(values[n], median);
    }
  }

  lemma DeviationNonNegative(v: real, median: real)
    requires median > 0.0
    ensures Deviation(v, median) >= 0.0
  {
    assert Abs(v - median) / median >= 0.0;
  }

  lemma DeviationWithin(v: real, median: real, bound: real)
    requires median > 0.0
    ensures Deviation(v, median) < bound <==> Abs(v - median) * 100.0 < bound * median
  {
    var q := Abs(v - median) / median;
    assert q * median == Abs(v - median);
    if q * 100.0 < bound {
      assert q * 100.0 * median < bound * median;
    } else {
      assert q * 100.0 * median >= bound * median;
    }
  }

  /** Steady values: an all-zero latency, or positive values strictly within 10% of their median. */
  ghost predicate Steady(values: seq<real>, metric: Metric) {
    || (!metric.Throughput? && AllZero(values))
    || exists m | IsMedian(values, m) :: WithinTenPercent(values, m)
  }

  predicate WithinTenPercent(values: seq<real>, m: real) {
    forall v | v in values :: 0.0 < v && 0.9 * m < v < 1.1 * m
  }

  lemma PositiveValuesExact(values: seq<real>, metric: Metric, median: real)
    requires median > 0.0 && forall v | v in values :: v > 0.0
    ensures VarianceAround(values, metric, median) == Some(MaxDeviation(values, median))
    ensures MaxDeviation(values, median) < MAX_VARIANCE_PERCENT <==> WithinTenPercent(values, median)
  {
    MaxDeviationIsMax(values, median);
    forall v | v in values
      ensures Deviation(v, median) < MAX_VARIANCE_PERCENT <==> Abs(v - median) * 100.0 < MAX_VARIANCE_PERCENT * median
    {
      DeviationWithin(v, median, MAX_VARIANCE_PERCENT);
    }
  }

  lemma MedianSign(values: seq<real>)
    requires values != [] && forall v | v in values :: v >= 0.0
    ensures AllZero(values) ==> Median(values) == 0.0
    ensures (forall v | v in values :: v > 0.0) ==> Median(values) > 0.0
  {
    MedianBetween(values, Least(values), Greatest(values));
  }

  /** The computed variance is below the bound exactly for steady values. */
  lemma VarianceExact(values: seq<real>, metric: Metric)
    requires values != [] && forall v | v in values :: v >= 0.0
    ensures (Variance(values, metric).Some? && Variance(values, metric).value < MAX_VARIANCE_PERCENT) <==> Steady(values, metric)
  {
    var median := Median(values);
    MedianSign(values);
    SteadyAround(values, metric);
    assert values[0] in values;
    if forall v | v in values :: v > 0.0 {
      PositiveValuesExact(values, metric, median);
    } else if !AllZero(values) {
      assert 0.0 in values;
    }
  }

  lemma SteadyAround(values: seq<real>, metric: Metric)
    requires values != []
    ensures Steady(values, metric) <==> (!metric.Throughput? && AllZero(values)) || WithinTenPercent(values, Median(values))
  {
    MedianExact(values, Median(values));
    if exists m | IsMedian(values, m) :: WithinTenPercent(values, m) {
      var m :| IsMedian(values, m) && WithinTenPercent(values, m);
      MedianExact(values, m);
    }
  }

  ghost function Least(values: seq<real>): (r: real)
    requires values != []
    ensures r in values && forall v | v in values :: r <= v
  {
    if |values| == 1 then values[0]
    else
      var r := Least(values[1..]);
      assert forall v | v in values :: v == values[0] || v in values[1..];
      if values[0] < r then values[0] else r
  }

  ghost function Greatest(values: seq<real>): (r: real)
    requires values != []
    ensures r in values && forall v | v in values :: v <= r
  {
    if |values| == 1 then values[0]
    else
      var r := Greatest(values[1..]);
      assert forall v | v in values :: v == values[0] || v in values[1..];
      if values[0] > r then values[0] else r
  }

  // ---- all scenarios ----

  function Group(runs: seq<RawRun>, scenario: Scenario): seq<RawRun> {
    Filter((r: RawRun) => r.scenario == scenario, runs)
  }

  predicate RunIdLe(a: RawRun, b: RawRun) {
    StringLe(a.runId.GetOr(""), b.runId.GetOr(""))
  }

  /** One metric of one scenario's runs, in run-id order. */
  function Values(runs: seq<RawRun>, scenario: Scenario, metric: Metric): seq<real> {
    ValuesOf(Sort(RunIdLe, Group(runs, scenario)), metric)
  }

  function ValuesOf(group: seq<RawRun>, metric: Metric): seq<real> {
    Map((r: RawRun) => Value(r, metric), group)
  }

  /** Running maximum over the metrics of a scenario. */
  function ScenarioVariance(runs: seq<RawRun>, scenario: Scenario, metrics: nat): Option<real>
    requires metrics <= |CriticalMetrics()|
  {
    if metrics == 0 then Some(0.0)
    else
      var before := ScenarioVariance(runs, scenario, metrics - 1);
      var m := CriticalMetrics()[metrics - 1];
      var v := Variance(Values(runs, scenario, m), m);
      Larger(before, v)
  }

  function Larger(a: Option<real>, b: Option<real>): Option<real> {
    if a.None? || b.None? then None else if b.value > a.value then b else a
  }

  function GlobalVariance(runs: seq<RawRun>, scenarios: nat): Option<real>
    requires scenarios <= |Scenarios()|
  {
    if scenarios == 0 then Some(0.0)
    else
      var s := Scenarios()[scenarios - 1];
      var here := if |Group(runs, s)| != REQUIRED_RUNS then None else ScenarioVariance(runs, s, 3);
      Larger(GlobalVariance(runs, scenarios - 1), here)
  }

  /** The loop over the critical metrics of one scenario's runs; None is the first error met. */
  method ComputeScenario(runs: seq<RawRun>, scenario: Scenario, group: seq<RawRun>) returns (r: Option<real>)
    requires group == Sort(RunIdLe, Group(runs, scenario))
    ensures r == ScenarioVariance(runs, scenario, 3)
  {
    var scenarioMax := 0.0;
    for j := 0 to 3
      invariant ScenarioVariance(runs, scenario, j) == Some(scenarioMax)
    {
      var metric := CriticalMetrics()[j];
      var dev := MedianRelativeVariance(ValuesOf(group, metric), metric);
      ScenarioNext(runs, scenario, j);
      if dev.None? {
        ScenarioStops(runs, scenario, j + 1);
        return None;
      }
      scenarioMax := if dev.value > scenarioMax then dev.value else scenarioMax;
    }
    return Some(scenarioMax);
  }

  lemma ScenarioNext(runs: seq<RawRun>, scenario: Scenario, j: nat)
    requires j < 3
    ensures ScenarioVariance(runs, scenario, j + 1)
         == Larger(ScenarioVariance(runs, scenario, j),
                   Variance(Values(runs, scenario, CriticalMetrics()[j]), CriticalMetrics()[j]))
  {
  }

  /** The loop over the scenarios. */
  method ComputeGlobalStability(runs: seq<RawRun>) returns (r: Option<real>)
    ensures r == GlobalVariance(runs, 3)
  {
    var globalMax := 0.0;
    for i := 0 to 3
      invariant GlobalVariance(runs, i) == Some(globalMax)
    {
      var scenario := Scenarios()[i];
      var group := Sort(RunIdLe, Group(runs, scenario));
      var scenarioMax := None;
      if |group| == REQUIRED_RUNS {
        scenarioMax := ComputeScenario(runs, scenario, group);
      }
      assert GlobalVariance(runs, i + 1) == Larger(Some(globalMax), scenarioMax);
      if scenarioMax.None? {
        GlobalStops(runs, i + 1);
        return None;
      }
      globalMax := if scenarioMax.value > globalMax then scenarioMax.value else globalMax;
    }
    return Some(globalMax);
  }

  lemma {:induction false} GlobalStops(runs: seq<RawRun>, i: nat)
    requires i <= 3 && GlobalVariance(runs, i).None?
    ensures GlobalVariance(runs, 3).None?
    decreases 3 - i
  {
    if i < 3 {
      GlobalStops(runs, i + 1);
    }
  }

  lemma {:induction false} ScenarioStops(runs: seq<RawRun>, scenario: Scenario, j: nat)
    requires j <= 3 && ScenarioVariance(runs, scenario, j).None?
    ensures ScenarioVariance(runs, scenario, 3).None?
    decreases 3 - j
  {
    if j < 3 {
      var m := CriticalMetrics()[j];
      var v := Variance(Values(runs, scenario, m), m);
      assert ScenarioVariance(runs, scenario, j + 1) == Larger(None, v);
      ScenarioStops(runs, scenario, j + 1);
    }
  }

  // ---- what the recomputed maximum is ----

  /** Bounds every metric of every scenario from above, and is reached unless it is zero. */
  ghost predicate IsWorst(runs: seq<RawRun>, worst: real) {
    WorstOfNine(VarianceTable(runs), worst)
  }

  function VarianceTable(runs: seq<RawRun>): (nat, nat) -> Option<real> {
    (i: nat, j: nat) => if i < 3 && j < 3 then VarianceOf(runs, i, j) else None
  }

  function VarianceOf(runs: seq<RawRun>, i: nat, j: nat): Option<real>
    requires i < 3 && j < 3
  {
    Variance(Values(runs, Scenarios()[i], CriticalMetrics()[j]), CriticalMetrics()[j])
  }

  /** The recomputed maximum is the one value that is worst. */
  lemma GlobalIsWorst(runs: seq<RawRun>, worst: real)
    requires forall i | 0 <= i < 3 :: |Group(runs, Scenarios()[i])| == REQUIRED_RUNS
    ensures GlobalVariance(runs, 3) == Some(worst) <==> IsWorst(runs, worst)
  {
    var a, b := ScenarioVariance(runs, Scenarios()[0], 3), ScenarioVariance(runs, Scenarios()[1], 3);
    var c := ScenarioVariance(runs, Scenarios()[2], 3);
    GlobalMax(runs, a, b, c);
    ScenarioMax(runs, 0);
    ScenarioMax(runs, 1);
    ScenarioMax(runs, 2);
    NineMax(VarianceTable(runs), a, b, c, worst);
  }

  ghost predicate WorstOfNine(f: (nat, nat) -> Option<real>, worst: real) {
    && worst >= 0.0
    && (forall i, j | 0 <= i < 3 && 0 <= j < 3 :: f(i, j).Some? && f(i, j).value <= worst)
    && (worst == 0.0 || exists i, j | 0 <= i < 3 && 0 <= j < 3 :: f(i, j) == Some(worst))
  }

  lemma NineMax(f: (nat, nat) -> Option<real>, a: Option<real>, b: Option<real>, c: Option<real>, worst: real)
    requires a == Max3(f(0, 0), f(0, 1), f(0, 2)) && b == Max3(f(1, 0), f(1, 1), f(1, 2)) && c == Max3(f(2, 0), f(2, 1), f(2, 2))
    ensures Max3(a, b, c) == Some(worst) <==> WorstOfNine(f, worst)
  {
    if Max3(a, b, c) == Some(worst) {
      MaxExact(a, b, c, worst);
      MaxExact(f(0, 0), f(0, 1), f(0, 2), a.value);
      MaxExact(f(1, 0), f(1, 1), f(1, 2), b.value);
      MaxExact(f(2, 0), f(2, 1), f(2, 2), c.value);
    } else if WorstOfNine(f, worst) {
      RowMax(f, 0, worst, a);
      RowMax(f, 1, worst, b);
      RowMax(f, 2, worst, c);
      MaxExact(a, b, c, worst);
    }
  }

  lemma MaxExact(a: Option<real>, b: Option<real>, c: Option<real>, w: real)
    ensures Max3(a, b, c) == Some(w) <==>
              && a.Some? && b.Some? && c.Some? && 0.0 <= w && a.value <= w && b.value <= w && c.value <= w
              && (w == 0.0 || a == Some(w) || b == Some(w) || c == Some(w))
  {
  }

  lemma RowMax(f: (nat, nat) -> Option<real>, i: nat, worst: real, a: Option<real>)
    requires i < 3 && WorstOfNine(f, worst) && a == Max3(f(i, 0), f(i, 1), f(i, 2))
    ensures a.Some? && 0.0 <= a.value <= worst && forall j | 0 <= j < 3 :: f(i, j) == Some(worst) ==> a == Some(worst)
  {
    assert f(i, 0).Some? && f(i, 1).Some? && f(i, 2).Some?;
  }

  function Max3(a: Option<real>, b: Option<real>, c: Option<real>): Option<real> {
    Larger(Larger(Larger(Some(0.0), a), b), c)
  }

  lemma ScenarioMax(runs: seq<RawRun>, i: nat)
    requires i < 3
    ensures ScenarioVariance(runs, Scenarios()[i], 3)
            == Max3(VarianceOf(runs, i, 0), VarianceOf(runs, i, 1), VarianceOf(runs, i, 2))
  {
    var s := Scenarios()[i];
    assert ScenarioVariance(runs, s, 1) == Larger(Some(0.0), VarianceOf(runs, i, 0));
    assert ScenarioVariance(runs, s, 2) == Larger(ScenarioVariance(runs, s, 1), VarianceOf(runs, i, 1));
    assert ScenarioVariance(runs, s, 3) == Larger(ScenarioVariance(runs, s, 2), VarianceOf(runs, i, 2));
  }

  lemma GlobalMax(runs: seq<RawRun>, a: Option<real>, b: Option<real>, c: Option<real>)
    requires forall i | 0 <= i < 3 :: |Group(runs, Scenarios()[i])| == REQUIRED_RUNS
    requires a == ScenarioVariance(runs, Scenarios()[0], 3) && b == ScenarioVariance(runs, Scenarios()[1], 3)
    requires c == ScenarioVariance(runs, Scenarios()[2], 3)
    ensures GlobalVariance(runs, 3) == Max3(a, b, c)
  {
    assert GlobalVariance(runs, 1) == Larger(Some(0.0), a);
    assert GlobalVariance(runs, 2) == Larger(GlobalVariance(runs, 1), b);
    assert GlobalVariance(runs, 3) == Larger(GlobalVariance(runs, 2), c);
  }

  // ---- the verdict ----

  function RunIds(runs: seq<RawRun>): seq<Option<string>> {
    Map((r: RawRun) => r.runId, runs)
  }

  ghost predicate AllValid(runs: seq<RawRun>, commit: string) {
    forall r | r in runs :: ValidRun(r, commit)
  }

  ghost predicate FiveEach(runs: seq<RawRun>) {
    forall i | 0 <= i < 3 :: |Group(runs, Scenarios()[i])| == REQUIRED_RUNS
  }

  ghost predicate AllSteady(runs: seq<RawRun>)
    requires FiveEach(runs)
  {
    forall i, j | 0 <= i < 3 && 0 <= j < 3 :: SteadyAt(runs, i, j)
  }

  ghost predicate SteadyAt(runs: seq<RawRun>, i: nat, j: nat)
    requires FiveEach(runs) && i < 3 && j < 3
  {
    var values := Values(runs, Scenarios()[i], CriticalMetrics()[j]);
    assert |values| == |Group(runs, Scenarios()[i])|;
    Steady(values, CriticalMetrics()[j])
  }

  /** Evidence that deserves the verdict, told without the order of the checks. */
  ghost predicate Authoritative(e: Evidence, commit: string) {
    && Canonical(e.header, commit) && e.medianMethod && e.runsPerScenario == REQUIRED_RUNS
    && e.declared.Some? && 0.0 <= e.declared.value < MAX_VARIANCE_PERCENT
    && AllValid(e.runs, commit) && Distinct(RunIds(e.runs))
    && FiveEach(e.runs) && AllSteady(e.runs)
    && exists worst :: IsWorst(e.runs, worst) && Abs(e.declared.value - worst) <= STABILITY_TOLERANCE
  }

  /** Every run of a required scenario is in exactly one group. */
  lemma {:induction false} GroupsPartition(runs: seq<RawRun>)
    requires forall r | r in runs :: r.scenario in Scenarios()
    ensures |runs| == |Group(runs, Scenarios()[0])| + |Group(runs, Scenarios()[1])| + |Group(runs, Scenarios()[2])|
  {
    if runs != [] {
      assert runs[0] in runs;
      GroupsPartition(runs[1..]);
    }
  }

  lemma ValidValues(runs: seq<RawRun>, commit: string, scenario: Scenario, metric: Metric)
    requires AllValid(runs, commit)
    ensures forall v | v in Values(runs, scenario, metric) :: v >= 0.0
    ensures |Values(runs, scenario, metric)| == |Group(runs, scenario)|
  {
    var group := Sort(RunIdLe, Group(runs, scenario));
    var values := Values(runs, scenario, metric);
    forall k | 0 <= k < |values|
      ensures values[k] >= 0.0
    {
      assert group[k] in multiset(group);
      var i := IndexOf(Group(runs, scenario), group[k]);
      assert group[k] in Group(runs, scenario);
      assert ValidRun(group[k], commit);
    }
  }

  lemma SteadyAtExact(runs: seq<RawRun>, commit: string, i: nat, j: nat)
    requires AllValid(runs, commit) && FiveEach(runs) && i < 3 && j < 3
    ensures SteadyAt(runs, i, j) <==> Below(VarianceTable(runs)(i, j))
  {
    ValidValues(runs, commit, Scenarios()[i], CriticalMetrics()[j]);
    VarianceExact(Values(runs, Scenarios()[i], CriticalMetrics()[j]), CriticalMetrics()[j]);
  }

  predicate Below(v: Option<real>) {
    v.Some? && v.value < MAX_VARIANCE_PERCENT
  }

  lemma WorstBelow(f: (nat, nat) -> Option<real>, worst: real)
    requires WorstOfNine(f, worst)
    ensures worst < MAX_VARIANCE_PERCENT <==> forall i, j | 0 <= i < 3 && 0 <= j < 3 :: Below(f(i, j))
  {
  }

  /** The recomputed maximum is below the bound exactly when every metric of every scenario is steady. */
  lemma GlobalExact(runs: seq<RawRun>, commit: string, worst: real)
    requires AllValid(runs, commit) && FiveEach(runs)
    ensures GlobalVariance(runs, 3) == Some(worst) && worst < MAX_VARIANCE_PERCENT <==> IsWorst(runs, worst) && AllSteady(runs)
  {
    GlobalIsWorst(runs, worst);
    var f := VarianceTable(runs);
    forall i, j | 0 <= i < 3 && 0 <= j < 3
      ensures SteadyAt(runs, i, j) <==> Below(f(i, j))
    {
      SteadyAtExact(runs, commit, i, j);
    }
    if IsWorst(runs, worst) {
      WorstBelow(f, worst);
    }
  }

  /** The checks up to the raw runs. */
  predicate HeaderAccepted(e: Evidence, commit: string) {
    && Canonical(e.header, commit) && e.runsPerScenario == REQUIRED_RUNS && e.medianMethod
    && e.declared.Some? && 0.0 <= e.declared.value < MAX_VARIANCE_PERCENT
  }

  /** Runs counted by scenario. */
  ghost predicate Counted(counts: map<Scenario, nat>, runs: seq<RawRun>) {
    forall s | s in Scenarios() :: s in counts && counts[s] == |Group(runs, s)|
  }

  lemma NothingCounted()
    ensures Counted(map[Scenarios()[0] := 0, Scenarios()[1] := 0, Scenarios()[2] := 0], [])
  {
  }

  lemma OneMoreCounted(counts: map<Scenario, nat>, runs: seq<RawRun>, run: RawRun)
    requires Counted(counts, runs) && run.scenario in Scenarios()
    ensures Counted(counts[run.scenario := counts[run.scenario] + 1], runs + [run])
  {
    CountOneMore(runs, run);
  }

  /** The ids met so far. */
  ghost predicate Seen(seen: set<Option<string>>, runs: seq<RawRun>) {
    forall id :: id in seen <==> id in RunIds(runs)
  }

  lemma OneMoreChecked(front: seq<RawRun>, run: RawRun, commit: string, seen: set<Option<string>>)
    requires AllValid(front, commit) && Distinct(RunIds(front)) && Seen(seen, front)
    ensures AllValid(front + [run], commit) <==> ValidRun(run, commit)
    ensures Distinct(RunIds(front + [run])) <==> run.runId !in seen
    ensures Seen(seen + {run.runId}, front + [run])
  {
    var ids := RunIds(front + [run]);
    assert ids == RunIds(front) + [run.runId];
    assert run in front + [run];
    if run.runId in seen {
      var k :| 0 <= k < |front| && RunIds(front)[k] == run.runId;
      assert ids[k] == ids[|front|];
    }
  }

  /** A fault among the first runs is a fault of all. */
  lemma FrontFails(front: seq<RawRun>, runs: seq<RawRun>, commit: string)
    requires front <= runs && !(AllValid(front, commit) && Distinct(RunIds(front)))
    ensures !(AllValid(runs, commit) && Distinct(RunIds(runs)))
  {
    assert RunIds(front) <= RunIds(runs);
    if !AllValid(front, commit) {
      var r :| r in front && !ValidRun(r, commit);
      assert r in runs;
    } else {
      var j, k :| 0 <= j < k < |front| && RunIds(front)[j] == RunIds(front)[k];
      assert RunIds(runs)[j] == RunIds(runs)[k];
    }
  }

  /** The loop over raw runs: each valid, no id twice, counted by scenario. */
  method CheckRuns(runs: seq<RawRun>, commit: string) returns (ok: bool, counts: map<Scenario, nat>)
    ensures ok <==> AllValid(runs, commit) && Distinct(RunIds(runs))
    ensures ok ==> Counted(counts, runs)
  {
    counts := map[Scenarios()[0] := 0, Scenarios()[1] := 0, Scenarios()[2] := 0];
    NothingCounted();
    var seen: set<Option<string>> := {};
    for i := 0 to |runs|
      invariant AllValid(runs[..i], commit) && Distinct(RunIds(runs[..i])) && Seen(seen, runs[..i])
      invariant Counted(counts, runs[..i])
    {
      var run := runs[i];
      OneMoreChecked(runs[..i], run, commit, seen);
      assert runs[..i + 1] == runs[..i] + [run];
      if !ValidRun(run, commit) || run.runId in seen {
        FrontFails(runs[..i + 1], runs, commit);
        return false, counts;
      }
      seen := seen + {run.runId};
      OneMoreCounted(counts, runs[..i], run);
      counts := counts[run.scenario := counts[run.scenario] + 1];
    }
    assert runs[..|runs|] == runs;
    ok := true;
  }

  lemma CountOneMore(runs: seq<RawRun>, run: RawRun)
    ensures forall s :: |Group(runs + [run], s)| == |Group(runs, s)| + (if run.scenario == s then 1 else 0)
  {
    forall s
      ensures |Group(runs + [run], s)| == |Group(runs, s)| + (if run.scenario == s then 1 else 0)
    {
      FilterConcat((r: RawRun) => r.scenario == s, runs, [run]);
      assert [run][1..] == [];
    }
  }

  /**
   * The verdict is "authoritative" exactly for authoritative evidence: five
   * runs of distinct ids in each scenario and fifteen in all, every critical
   * metric steady, and a declared maximum that matches the recomputed one.
   */
  method EvaluatePerf(e: Evidence, commit: string) returns (authoritative: bool)
    ensures authoritative <==> Authoritative(e, commit)
    ensures authoritative ==> |e.runs| == 15
  {
    if !HeaderAccepted(e, commit) {
      return false;
    }
    if |e.runs| < REQUIRED_RUNS * |Scenarios()| {
      TooFewRuns(e.runs, commit);
      return false;
    }
    var ok, counts := CheckRuns(e.runs, commit);
    if !ok {
      return false;
    }
    for i := 0 to 3
      invariant forall k | 0 <= k < i :: |Group(e.runs, Scenarios()[k])| == REQUIRED_RUNS
    {
      assert Scenarios()[i] in Scenarios();
      if counts[Scenarios()[i]] != REQUIRED_RUNS {
        return false;
      }
    }
    GroupsPartition(e.runs);
    var computed := ComputeGlobalStability(e.runs);
    VerdictExact(e, commit, computed);
    authoritative := computed.Some? && computed.value < MAX_VARIANCE_PERCENT
                     && Abs(e.declared.value - computed.value) <= STABILITY_TOLERANCE;
  }

  lemma TooFewRuns(runs: seq<RawRun>, commit: string)
    requires |runs| < 15
    ensures !(AllValid(runs, commit) && FiveEach(runs))
  {
    if AllValid(runs, commit) && FiveEach(runs) {
      GroupsPartition(runs);
    }
  }

  lemma VerdictExact(e: Evidence, commit: string, computed: Option<real>)
    requires HeaderAccepted(e, commit) && AllValid(e.runs, commit) && Distinct(RunIds(e.runs)) && FiveEach(e.runs)
    requires computed == GlobalVariance(e.runs, 3)
    ensures Authoritative(e, commit) <==>
              computed.Some? && computed.value < MAX_VARIANCE_PERCENT
              && Abs(e.declared.value - computed.value) <= STABILITY_TOLERANCE
  {
    if computed.Some? {
      GlobalExact(e.runs, commit, computed.value);
    }
    if Authoritative(e, commit) {
      var worst :| IsWorst(e.runs, worst) && Abs(e.declared.value - worst) <= STABILITY_TOLERANCE;
      GlobalExact(e.runs, commit, worst);
    }
  }

  // ---- the verdict does not depend on the order of the runs ----

  lemma ValuesOrderFree(a: seq<RawRun>, b: seq<RawRun>, scenario: Scenario, metric: Metric)
    requires multiset(a) == multiset(b)
    ensures |Group(a, scenario)| == |Group(b, scenario)|
    ensures multiset(Values(a, scenario, metric)) == multiset(Values(b, scenario, metric))
  {
    var ga, gb := Group(a, scenario), Group(b, scenario);
    FilterPermutation((r: RawRun) => r.scenario == scenario, a, b);
    assert |multiset(ga)| == |ga| && |multiset(gb)| == |gb|;
    MapPermutation((r: RawRun) => Value(r, metric), Sort(RunIdLe, ga), Sort(RunIdLe, gb));
  }

  /** Around one median only the values that occur matter. */
  lemma VarianceOfMembers(a: seq<real>, b: seq<real>, metric: Metric, median: real)
    requires median >= 0.0 && forall v :: v in a <==> v in b
    ensures VarianceAround(a, metric, median) == VarianceAround(b, metric, median)
  {
    if median > 0.0 {
      MaxDeviationIsMax(a, median);
      MaxDeviationIsMax(b, median);
    }
  }

  lemma VarianceOrderFree(a: seq<real>, b: seq<real>, metric: Metric)
    requires a != [] && multiset(a) == multiset(b) && forall v | v in a :: v >= 0.0
    ensures b != [] && Variance(a, metric) == Variance(b, metric)
  {
    assert forall v :: v in a <==> v in multiset(a);
    assert forall v :: v in b <==> v in multiset(b);
    MedianOrderFree(a, b);
    MedianBetween(a, 0.0, Greatest(a));
    VarianceOfMembers(a, b, metric, Median(a));
  }

  lemma TableOrderFree(a: seq<RawRun>, b: seq<RawRun>, commit: string, i: nat, j: nat)
    requires multiset(a) == multiset(b) && AllValid(a, commit) && FiveEach(a) && i < 3 && j < 3
    ensures VarianceTable(a)(i, j) == VarianceTable(b)(i, j)
  {
    var s, m := Scenarios()[i], CriticalMetrics()[j];
    ValuesOrderFree(a, b, s, m);
    ValidValues(a, commit, s, m);
    VarianceOrderFree(Values(a, s, m), Values(b, s, m), m);
  }

  lemma FiveEachOrderFree(a: seq<RawRun>, b: seq<RawRun>)
    requires multiset(a) == multiset(b) && FiveEach(a)
    ensures FiveEach(b)
  {
    forall i | 0 <= i < 3
      ensures |Group(b, Scenarios()[i])| == REQUIRED_RUNS
    {
      ValuesOrderFree(a, b, Scenarios()[i], Throughput);
    }
  }

  lemma ValidityOrderFree(a: seq<RawRun>, b: seq<RawRun>, commit: string)
    requires multiset(a) == multiset(b) && AllValid(a, commit) && Distinct(RunIds(a))
    ensures AllValid(b, commit) && Distinct(RunIds(b))
  {
    assert forall r :: r in b <==> r in multiset(b);
    assert forall r :: r in a <==> r in multiset(a);
    MapPermutation((r: RawRun) => r.runId, a, b);
    DistinctPermutes(RunIds(a), RunIds(b));
  }

  lemma AuthoritativeCarries(e: Evidence, commit: string, runs: seq<RawRun>)
    requires multiset(e.runs) == multiset(runs) && Authoritative(e, commit)
    ensures Authoritative(e.(runs := runs), commit)
  {
    ValidityOrderFree(e.runs, runs, commit);
    FiveEachOrderFree(e.runs, runs);
    SteadinessOrderFree(e.runs, runs, commit);
    var worst :| IsWorst(e.runs, worst) && Abs(e.declared.value - worst) <= STABILITY_TOLERANCE;
    WorstOrderFree(e.runs, runs, commit, worst);
  }

  lemma SteadinessOrderFree(a: seq<RawRun>, b: seq<RawRun>, commit: string)
    requires multiset(a) == multiset(b) && AllValid(a, commit) && AllValid(b, commit)
    requires FiveEach(a) && FiveEach(b) && AllSteady(a)
    ensures AllSteady(b)
  {
    forall i, j | 0 <= i < 3 && 0 <= j < 3
      ensures SteadyAt(b, i, j)
    {
      assert SteadyAt(a, i, j);
      TableOrderFree(a, b, commit, i, j);
      SteadyAtExact(a, commit, i, j);
      SteadyAtExact(b, commit, i, j);
    }
  }

  lemma WorstOrderFree(a: seq<RawRun>, b: seq<RawRun>, commit: string, worst: real)
    requires multiset(a) == multiset(b) && AllValid(a, commit) && FiveEach(a) && IsWorst(a, worst)
    ensures IsWorst(b, worst)
  {
    var f, g := VarianceTable(a), VarianceTable(b);
    forall i, j | 0 <= i < 3 && 0 <= j < 3
      ensures f(i, j) == g(i, j)
    {
      TableOrderFree(a, b, commit, i, j);
    }
    SameWorst(f, g, worst);
  }

  lemma SameWorst(f: (nat, nat) -> Option<real>, g: (nat, nat) -> Option<real>, worst: real)
    requires WorstOfNine(f, worst) && forall i, j | 0 <= i < 3 && 0 <= j < 3 :: f(i, j) == g(i, j)
    ensures WorstOfNine(g, worst)
  {
    if worst != 0.0 {
      var i, j :| 0 <= i < 3 && 0 <= j < 3 && f(i, j) == Some(worst);
      assert g(i, j) == Some(worst);
    }
  }

  /** Reordering the raw runs never changes the verdict. */
  lemma VerdictOrderFree(e: Evidence, commit: string, runs: seq<RawRun>)
    requires multiset(e.runs) == multiset(runs)
    ensures Authoritative(e, commit) <==> Authoritative(e.(runs := runs), commit)
  {
    if Authoritative(e, commit) {
      AuthoritativeCarries(e, commit, runs);
    }
    if Authoritative(e.(runs := runs), commit) {
      AuthoritativeCarries(e.(runs := runs), commit, e.runs);
    }
  }
}
