/**
 * The statistics collector of the stress tool: workers record into shared
 * vectors, each vector under its own lock, and a report is made at the end.
 * Durations are whole nanoseconds.
 */
module StressStats {
  import opened Arithmetic
  import opened Wrappers
  import opened Seqs
  import opened Sorting

  // ---- recording ----

  /** The shared vectors, and the workers that hold a latency recorded but not yet its status code. */
  datatype Shared = Shared(latencies: seq<nat>, codes: seq<nat>, errors: nat, midway: set<nat>)

  /** A record is two critical sections, and other workers may run between them. */
  datatype Action =
    | PushLatency(worker: nat, latency: nat)
    | PushCode(worker: nat, code: nat)
    | CountError(worker: nat)

  predicate Enabled(s: Shared, a: Action) {
    match a
    case PushLatency(w, _) => w !in s.midway
    case PushCode(w, _) => w in s.midway
    case CountError(w) => w !in s.midway
  }

  function Act(s: Shared, a: Action): Shared {
    match a
    case PushLatency(w, d) => s.(latencies := s.latencies + [d], midway := s.midway + {w})
    case PushCode(w, c) => s.(codes := s.codes + [c], midway := s.midway - {w})
    case CountError(_) => s.(errors := s.errors + 1)
  }

  ghost predicate IsRun(states: seq<Shared>, actions: seq<Action>) {
    && |states| == |actions| + 1 && states[0] == Shared([], [], 0, {})
    && forall i | 0 <= i < |actions| :: Enabled(states[i], actions[i]) && states[i + 1] == Act(states[i], actions[i])
  }

  /** Requests recorded so far, in any interleaving, outnumber status codes by the workers in between. */
  lemma {:induction false} LatenciesOutnumberCodes(states: seq<Shared>, actions: seq<Action>, n: nat)
    requires IsRun(states, actions) && n <= |actions|
    ensures |states[n].latencies| == |states[n].codes| + |states[n].midway|
  {
    if n > 0 {
      LatenciesOutnumberCodes(states, actions, n - 1);
      assert Enabled(states[n - 1], actions[n - 1]) && states[n] == Act(states[n - 1], actions[n - 1]);
    }
  }

  /** What a sequence of actions records: latencies and codes in order, and the number of errors. */
  function Recorded(actions: seq<Action>): (seq<nat>, seq<nat>, nat) {
    if actions == [] then ([], [], 0)
    else
      var n := |actions| - 1;
      var r, a := Recorded(actions[..n]), actions[n];
      (if a.PushLatency? then r.0 + [a.latency] else r.0,
       if a.PushCode? then r.1 + [a.code] else r.1,
       if a.CountError? then r.2 + 1 else r.2)
  }

  /** In every interleaving the vectors hold exactly what was pushed, in the order of the pushes. */
  lemma {:induction false} NothingIsLost(states: seq<Shared>, actions: seq<Action>, n: nat)
    requires IsRun(states, actions) && n <= |actions|
    ensures Recorded(actions[..n]) == (states[n].latencies, states[n].codes, states[n].errors)
  {
    if n > 0 {
      NothingIsLost(states, actions, n - 1);
      assert actions[..n][..n - 1] == actions[..n - 1];
      assert states[n] == Act(states[n - 1], actions[n - 1]);
    }
  }

  // ---- the report ----

  datatype Report = Report(min: nat, max: nat, mean: nat, p50: nat, p90: nat, p95: nat, p99: nat,
                           total: nat, errors: nat, histogram: map<nat, nat>)

  /** Half away from zero, on a rank that is not negative. */
  function Round(x: real): int {
    (x + 0.5).Floor
  }

  function Smaller(a: int, b: int): int {
    if a <= b then a else b
  }

  /** The nearest rank, kept below the length. */
  function NearestRank(n: nat, p: real): (i: nat)
    requires n > 0 && 0.0 <= p <= 100.0
    ensures i < n && i as real - 0.5 <= (n as real - 1.0) * (p / 100.0) < i as real + 0.5
  {
    RankMonotone(n, p, p);
    Smaller(Round((n as real - 1.0) * (p / 100.0)), n - 1)
  }

  lemma NearestRankMonotone(n: nat, p: real, q: real)
    requires n > 0 && 0.0 <= p <= q <= 100.0
    ensures NearestRank(n, p) <= NearestRank(n, q)
  {
    RankMonotone(n, p, q);
  }

  /** The sample of a sorted list nearest to a percentile's rank, the later of two equally near. */
  ghost predicate AtNearestRank(s: seq<nat>, p: real, x: nat) {
    exists i | 0 <= i < |s| :: x == s[i] && IsNearest(|s|, p, i)
  }

  ghost predicate IsNearest(n: nat, p: real, i: int) {
    i as real - 0.5 <= (n as real - 1.0) * (p / 100.0) < i as real + 0.5
  }

  lemma PercentileNearest(s: seq<nat>, p: real)
    requires s != [] && 0.0 <= p <= 100.0
    ensures AtNearestRank(s, p, PercentileOf(s, p))
  {
    assert IsNearest(|s|, p, NearestRank(|s|, p));
  }

  function PercentileOf(s: seq<nat>, p: real): nat
    requires s != [] && 0.0 <= p <= 100.0
  {
    s[NearestRank(|s|, p)]
  }

  lemma PercentileOfMonotone(s: seq<nat>, p: real, q: real)
    requires s != [] && Sorted(NatLe, s) && 0.0 <= p <= q <= 100.0
    ensures s[0] <= PercentileOf(s, p) <= PercentileOf(s, q) <= s[|s| - 1]
  {
    NearestRankMonotone(|s|, p, q);
    NatOrder();
    SortedAt(NatLe, s, NearestRank(|s|, p), NearestRank(|s|, q));
    SortedAt(NatLe, s, 0, NearestRank(|s|, p));
    SortedAt(NatLe, s, NearestRank(|s|, q), |s| - 1);
  }

  function Sum(s: seq<nat>): nat {
    if s == [] then 0 else s[0] + Sum(s[1..])
  }

  lemma {:induction false} SumConcat(a: seq<nat>, b: seq<nat>)
    ensures Sum(a + b) == Sum(a) + Sum(b)
  {
    if a == [] {
      assert a + b == b;
    } else {
      assert (a + b)[1..] == a[1..] + b;
      SumConcat(a[1..], b);
    }
  }

  /** Rearranging samples does not change their sum. */
  lemma {:induction false} SumPermutation(a: seq<nat>, b: seq<nat>)
    requires multiset(a) == multiset(b)
    ensures Sum(a) == Sum(b)
    decreases |a|
  {
    if a == [] {
      assert |multiset(b)| == 0;
      assert b == [];
    } else {
      SplitHead(a);
      var k := IndexOf(b, a[0]);
      RemoveAt(b, k);
      CancelOne(multiset(a[1..]), multiset(b[..k] + b[k + 1..]), a[0]);
      SumPermutation(a[1..], b[..k] + b[k + 1..]);
      SumAround(b, k);
    }
  }

  lemma SumAround(b: seq<nat>, k: nat)
    requires k < |b|
    ensures Sum(b) == b[k] + Sum(b[..k] + b[k + 1..])
  {
    SplitAt(b, k);
    SumConcat(b[..k], [b[k]] + b[k + 1..]);
    SumConcat([b[k]], b[k + 1..]);
    SumConcat(b[..k], b[k + 1..]);
    assert [b[k]][1..] == [];
  }

  lemma {:induction false} SumBounds(s: seq<nat>, lo: nat, hi: nat)
    requires forall x | x in s :: lo <= x <= hi
    ensures lo * |s| <= Sum(s) <= hi * |s|
  {
    if s != [] {
      assert s[0] in s;
      assert forall x | x in s[1..] :: x in s;
      SumBounds(s[1..], lo, hi);
      NextMultiple(lo, |s[1..]|, |s|);
      NextMultiple(hi, |s[1..]|, |s|);
    }
  }

  /** The mean is rounded down to a whole nanosecond, and still lies within the list. */
  lemma MeanWithin(s: seq<nat>)
    requires s != [] && Sorted(NatLe, s)
    ensures s[0] <= Sum(s) / |s| <= s[|s| - 1]
  {
    NatOrder();
    forall x | x in s
      ensures s[0] <= x <= s[|s| - 1]
    {
      var k :| 0 <= k < |s| && s[k] == x;
      SortedAt(NatLe, s, 0, k);
      SortedAt(NatLe, s, k, |s| - 1);
    }
    SumBounds(s, s[0], s[|s| - 1]);
    QuotientWithin(Sum(s), |s|, s[0], s[|s| - 1]);
  }

  // ---- the histogram ----

  /** The sum of all counts. */
  ghost function Total(h: map<nat, nat>): nat
    decreases |h|
  {
    if h == map[] then 0
    else
      var k :| k in h;
      h[k] + Total(h - {k})
  }

  lemma {:induction false} TotalWithout(h: map<nat, nat>, k: nat)
    requires k in h
    ensures Total(h) == h[k] + Total(h - {k})
    decreases |h|
  {
    var j :| j in h && Total(h) == h[j] + Total(h - {j});
    if j != k {
      TotalWithout(h - {j}, k);
      TotalWithout(h - {k}, j);
      assert h - {j} - {k} == h - {k} - {j};
    }
  }

  lemma TotalOneMore(h: map<nat, nat>, c: nat)
    ensures Total(h[c := (if c in h then h[c] else 0) + 1]) == Total(h) + 1
  {
    var next := h[c := (if c in h then h[c] else 0) + 1];
    TotalWithout(next, c);
    assert next - {c} == h - {c};
    if c in h {
      TotalWithout(h, c);
    } else {
      assert h - {c} == h;
    }
  }

  /** One count per status code that occurs, and all of them together as many as there are codes. */
  method CountCodes(codes: seq<nat>) returns (histogram: map<nat, nat>)
    ensures forall c :: c in histogram <==> c in codes
    ensures forall c | c in histogram :: histogram[c] == multiset(codes)[c]
    ensures Total(histogram) == |codes|
  {
    histogram := map[];
    for i := 0 to |codes|
      invariant forall c :: c in histogram <==> c in codes[..i]
      invariant forall c | c in histogram :: histogram[c] == multiset(codes[..i])[c]
      invariant Total(histogram) == i
    {
      var c := codes[i];
      assert codes[..i + 1] == codes[..i] + [c];
      TotalOneMore(histogram, c);
      assert c !in histogram ==> multiset(codes[..i])[c] == 0 by {
        assert c in multiset(codes[..i]) <==> c in codes[..i];
      }
      histogram := histogram[c := (if c in histogram then histogram[c] else 0) + 1];
    }
    assert codes[..|codes|] == codes;
  }

  /** The sample count as the mean divides by it: cut to 32 bits. */
  function Divisor(total: nat): (d: nat)
    ensures 0 < total < 0x1_0000_0000 ==> d == total
  {
    total % 0x1_0000_0000
  }

  /** Whole nanoseconds, rounded down. */
  function Mean(sum: nat, samples: nat): nat
    requires Divisor(samples) != 0
  {
    sum / Divisor(samples)
  }

  /**
   * The report of a collector: the order of its percentiles, the mean within
   * the extremes below 2^32 samples, and a histogram of exactly the recorded
   * codes. None is the division by zero at a multiple of 2^32 samples.
   */
  method MakeReport(latencies: seq<nat>, codes: seq<nat>, errors: nat) returns (report: Option<Report>)
    ensures report.None? <==> latencies != [] && |latencies| % 0x1_0000_0000 == 0
    ensures latencies == [] ==> report == Some(Report(0, 0, 0, 0, 0, 0, 0, 0, errors, map[]))
    ensures report.Some? ==>
              var r := report.value;
              && r.total == |latencies| && r.errors == errors
              && r.min <= r.p50 <= r.p90 <= r.p95 <= r.p99 <= r.max
              && (|latencies| < 0x1_0000_0000 ==> r.min <= r.mean <= r.max)
    ensures report.Some? && latencies != [] ==>
              var r := report.value;
              && r.min in latencies && r.max in latencies && r.p50 in latencies && r.p90 in latencies
              && r.p95 in latencies && r.p99 in latencies
              && (forall x | x in latencies :: r.min <= x <= r.max)
              && AtNearestRank(Sort(NatLe, latencies), 50.0, r.p50) && AtNearestRank(Sort(NatLe, latencies), 90.0, r.p90)
              && AtNearestRank(Sort(NatLe, latencies), 95.0, r.p95) && AtNearestRank(Sort(NatLe, latencies), 99.0, r.p99)
              && r.mean == Sum(latencies) / (|latencies| % 0x1_0000_0000)
              && (forall c | c in r.histogram :: c in codes)
              && Total(r.histogram) == |codes|
              && forall c | c in codes :: c in r.histogram && r.histogram[c] == multiset(codes)[c]
  {
    if latencies == [] {
      return Some(Report(0, 0, 0, 0, 0, 0, 0, 0, errors, map[]));
    }
    var sorted := Sort(NatLe, latencies);
    if Divisor(|latencies|) == 0 {
      return None;
    }
    SummaryFacts(latencies, sorted);
    SumPermutation(latencies, sorted);
    PercentileNearest(sorted, 50.0);
    PercentileNearest(sorted, 90.0);
    PercentileNearest(sorted, 95.0);
    PercentileNearest(sorted, 99.0);
    var histogram := CountCodes(codes);
    report := Some(Report(sorted[0], sorted[|sorted| - 1], Mean(Sum(sorted), |latencies|),
                          PercentileOf(sorted, 50.0), PercentileOf(sorted, 90.0), PercentileOf(sorted, 95.0),
                          PercentileOf(sorted, 99.0), |latencies|, errors, histogram));
  }

  lemma SummaryFacts(latencies: seq<nat>, s: seq<nat>)
    requires latencies != [] && s == Sort(NatLe, latencies)
    ensures s[0] <= PercentileOf(s, 50.0) <= PercentileOf(s, 90.0) <= PercentileOf(s, 95.0) <= PercentileOf(s, 99.0) <= s[|s| - 1]
    ensures |s| < 0x1_0000_0000 ==> s[0] <= Mean(Sum(s), |s|) <= s[|s| - 1]
    ensures forall x | x in latencies :: s[0] <= x <= s[|s| - 1]
    ensures forall i | 0 <= i < |s| :: s[i] in latencies
    ensures forall p | 0.0 <= p <= 100.0 :: PercentileOf(s, p) in latencies
  {
    NatOrder();
    SortSorted(NatLe, latencies);
    MeanWithin(s);
    PercentileOfMonotone(s, 50.0, 90.0);
    PercentileOfMonotone(s, 90.0, 95.0);
    PercentileOfMonotone(s, 95.0, 99.0);
    SortedBounds(latencies, s);
  }

  lemma SortedBounds(latencies: seq<nat>, sorted: seq<nat>)
    requires latencies != [] && sorted == Sort(NatLe, latencies) && Sorted(NatLe, sorted)
    ensures forall x | x in latencies :: sorted[0] <= x <= sorted[|sorted| - 1]
    ensures forall i | 0 <= i < |sorted| :: sorted[i] in latencies
  {
    NatOrder();
    forall x | x in latencies
      ensures sorted[0] <= x <= sorted[|sorted| - 1]
    {
      assert x in multiset(latencies);
      var k := IndexOf(sorted, x);
      SortedAt(NatLe, sorted, 0, k);
      SortedAt(NatLe, sorted, k, |sorted| - 1);
    }
    forall i | 0 <= i < |sorted|
      ensures sorted[i] in latencies
    {
      assert sorted[i] in multiset(sorted);
      var k := IndexOf(latencies, sorted[i]);
    }
  }

  /** Once every worker has finished, in whatever order they ran, the histogram totals the requests reported. */
  method ReportFinishedRun(ghost states: seq<Shared>, ghost actions: seq<Action>, last: Shared) returns (report: Option<Report>)
    requires IsRun(states, actions) && states[|actions|] == last && last.midway == {}
    ensures report.Some? ==> Total(report.value.histogram) == report.value.total == |last.codes|
  {
    LatenciesOutnumberCodes(states, actions, |actions|);
    report := MakeReport(last.latencies, last.codes, last.errors);
  }

  /** The collector: each critical section is one action of the run it has gone through. */
  class Stats {
    var latencies: seq<nat>
    var codes: seq<nat>
    var errors: nat
    ghost var states: seq<Shared>
    ghost var actions: seq<Action>

    ghost predicate Valid()
      reads this
    {
      IsRun(states, actions) && Now() == Shared(latencies, codes, errors, Now().midway)
    }

    ghost function Now(): Shared
      requires states != []
      reads this
    {
      states[|states| - 1]
    }

    constructor ()
      ensures Valid() && actions == []
    {
      latencies, codes, errors := [], [], 0;
      states, actions := [Shared([], [], 0, {})], [];
    }

    /** The first critical section of a record. */
    method AddLatency(ghost worker: nat, latency: nat)
      requires Valid() && worker !in Now().midway
      modifies this
      ensures Valid() && actions == old(actions) + [PushLatency(worker, latency)]
      ensures Now() == Act(old(Now()), PushLatency(worker, latency))
    {
      latencies := latencies + [latency];
      states := states + [Act(Now(), PushLatency(worker, latency))];
      actions := actions + [PushLatency(worker, latency)];
    }

    /** The second; other workers may have run since the first. */
    method AddCode(ghost worker: nat, code: nat)
      requires Valid() && worker in Now().midway
      modifies this
      ensures Valid() && actions == old(actions) + [PushCode(worker, code)]
      ensures Now() == Act(old(Now()), PushCode(worker, code))
    {
      codes := codes + [code];
      states := states + [Act(Now(), PushCode(worker, code))];
      actions := actions + [PushCode(worker, code)];
    }

    /** A record with nobody in between leaves no worker midway that was not. */
    method Record(ghost worker: nat, latency: nat, code: nat)
      requires Valid() && worker !in Now().midway
      modifies this
      ensures Valid() && actions == old(actions) + [PushLatency(worker, latency), PushCode(worker, code)]
      ensures latencies == old(latencies) + [latency] && codes == old(codes) + [code] && errors == old(errors)
      ensures Now().midway == old(Now().midway)
    {
      AddLatency(worker, latency);
      AddCode(worker, code);
    }

    method RecordError(ghost worker: nat)
      requires Valid() && worker !in Now().midway
      modifies this
      ensures Valid() && actions == old(actions) + [CountError(worker)] && errors == old(errors) + 1
      ensures Now() == Act(old(Now()), CountError(worker))
    {
      errors := errors + 1;
      states := states + [Act(Now(), CountError(worker))];
      actions := actions + [CountError(worker)];
    }

    /** The histogram falls short of the requests by the workers caught between their two sections. */
    method Summarise() returns (report: Option<Report>)
      requires Valid()
      ensures report.None? <==> latencies != [] && |latencies| % 0x1_0000_0000 == 0
      ensures report.Some? && latencies != [] ==>
                Total(report.value.histogram) + |Now().midway| == report.value.total == |latencies|
    {
      LatenciesOutnumberCodes(states, actions, |actions|);
      report := MakeReport(latencies, codes, errors);
    }
  }
}
