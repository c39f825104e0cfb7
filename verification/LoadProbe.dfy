/**
 The statistics of tools/v2/run_load_probe.py: a nearest-rank percentile and the counts
 of outcomes, over results that arrive in whatever order the requests completed.
 */
module LoadProbe {
  import opened Sorting

  datatype RequestResult = RequestResult(latency: real, outcome: string)

  datatype Report = Report(
    passed: bool, requestCount: nat, successCount: nat, failureCount: int, outcomes: map<string, nat>,
    p50: real, p95: real, p99: real, max: real)

  // ----- counting -----

  function Count<T>(s: seq<T>, counted: T -> bool): nat {
    if s == [] then 0 else Count(s[..|s| - 1], counted) + if counted(s[|s| - 1]) then 1 else 0
  }

  lemma {:induction false} CountConcat<T>(a: seq<T>, b: seq<T>, counted: T -> bool)
    ensures Count(a + b, counted) == Count(a, counted) + Count(b, counted)
    decreases |b|
  {
    if b == [] {
      assert a + b == a;
    } else {
      assert (a + b)[..|a + b| - 1] == a + b[..|b| - 1];
      CountConcat(a, b[..|b| - 1], counted);
    }
  }

  lemma CountAppend<T>(s: seq<T>, x: T, counted: T -> bool)
    ensures Count(s + [x], counted) == Count(s, counted) + if counted(x) then 1 else 0
  {
    assert (s + [x])[..|s|] == s;
  }

  lemma CountSplit<T>(s: seq<T>, i: nat, counted: T -> bool)
    requires i <= |s|
    ensures Count(s, counted) == Count(s[..i], counted) + Count(s[i..], counted)
  {
    var front, back := s[..i], s[i..];
    assert s == front + back;
    CountConcat(front, back, counted);
  }

  function Without<T>(s: seq<T>, i: nat): seq<T>
    requires i < |s|
  {
    s[..i] + s[i + 1..]
  }

  lemma WithoutMultiset<T>(s: seq<T>, i: nat)
    requires i < |s|
    ensures multiset(Without(s, i)) == multiset(s) - multiset{s[i]}
  {
    assert s == s[..i] + [s[i]] + s[i + 1..];
  }

  lemma CountWithout<T>(s: seq<T>, i: nat, counted: T -> bool)
    requires i < |s|
    ensures Count(s, counted) == Count(Without(s, i), counted) + if counted(s[i]) then 1 else 0
  {
    CountSplit(s, i + 1, counted);
    CountAppend(s[..i], s[i], counted);
    assert s[..i + 1] == s[..i] + [s[i]];
    CountConcat(s[..i], s[i + 1..], counted);
  }

  /** A count does not depend on the order. */
  lemma {:induction false} CountPermuted<T>(s: seq<T>, t: seq<T>, counted: T -> bool)
    requires multiset(s) == multiset(t)
    ensures Count(s, counted) == Count(t, counted)
    decreases |s|
  {
    MembersKept(s, t);
    if s != [] {
      assert s[0] in s;
      var i :| 0 <= i < |t| && t[i] == s[0];
      WithoutMultiset(s, 0);
      WithoutMultiset(t, i);
      CountPermuted(Without(s, 0), Without(t, i), counted);
      CountWithout(s, 0, counted);
      CountWithout(t, i, counted);
    }
  }

  lemma {:induction false} CountIncluded<T>(s: seq<T>, some: T -> bool, more: T -> bool)
    requires forall i | 0 <= i < |s| && some(s[i]) :: more(s[i])
    ensures Count(s, some) <= Count(s, more)
    decreases |s|
  {
    if s != [] { CountIncluded(s[..|s| - 1], some, more); }
  }

  /** Everything is counted exactly when the count is the length. */
  lemma {:induction false} CountAll<T>(s: seq<T>, counted: T -> bool)
    ensures Count(s, counted) <= |s|
    ensures Count(s, counted) == |s| <==> forall i | 0 <= i < |s| :: counted(s[i])
    decreases |s|
  {
    if s != [] {
      var n := |s| - 1;
      CountAll(s[..n], counted);
      if Count(s, counted) == |s| {
        forall i | 0 <= i < |s|
          ensures counted(s[i])
        {
          if i < n { assert s[..n][i] == s[i]; }
        }
      }
    }
  }

  lemma {:induction false} CountNone<T>(s: seq<T>, counted: T -> bool)
    ensures Count(s, counted) == 0 <==> forall i | 0 <= i < |s| :: !counted(s[i])
    decreases |s|
  {
    if s != [] {
      var n := |s| - 1;
      CountNone(s[..n], counted);
      assert forall i | 0 <= i < n :: s[..n][i] == s[i];
    }
  }

  // ----- percentiles -----

  function Below(): (real, real) -> bool {
    (a: real, b: real) => a < b
  }

  /** math.ceil */
  function Ceil(x: real): (n: int)
    ensures x <= n as real < x + 1.0
  {
    -(-x).Floor
  }

  function Rank(p: real, n: nat): (rank: int)
    requires n > 0 && p <= 1.0
    ensures 1 <= rank <= n
  {
    RankInRange(p, n);
    var wanted := Ceil(p * n as real);
    if wanted < 1 then 1 else wanted
  }

  lemma RankInRange(p: real, n: nat)
    requires p <= 1.0
    ensures Ceil(p * n as real) <= n
  {
    ScaleMonotone(p, 1.0, n);
  }

  lemma ScaleMonotone(p: real, q: real, n: nat)
    requires p <= q
    ensures p * n as real <= q * n as real
  {
    assert (q - p) * n as real >= 0.0;
  }

  function RankedIn(ordered: seq<real>, p: real): real
    requires ordered != [] && p <= 1.0
  {
    ordered[Rank(p, |ordered|) - 1]
  }

  /** _percentile; an empty list has the percentile 0.0. */
  function Percentile(values: seq<real>, p: real): real
    requires p <= 1.0
  {
    if values == [] then 0.0
    else
      MembersKept(values, SortBy(Below(), values));
      RankedIn(SortBy(Below(), values), p)
  }

  function AtMost(x: real): real -> bool {
    v => v <= x
  }

  function LessThan(x: real): real -> bool {
    v => v < x
  }

  lemma BelowIsTotal()
    ensures TotalOrder(Below())
  {
  }

  /** In an ordered list at least r values are at most the r-th. */
  lemma OrderedAtMost(ordered: seq<real>, r: nat, x: real)
    requires Ordered(Below(), ordered) && 1 <= r <= |ordered| && x == ordered[r - 1]
    ensures Count(ordered, AtMost(x)) >= r
  {
    var front := ordered[..r];
    forall i | 0 <= i < r
      ensures AtMost(x)(front[i])
    {
      assert i == r - 1 || !Below()(ordered[r - 1], ordered[i]);
    }
    CountAll(front, AtMost(x));
    CountSplit(ordered, r, AtMost(x));
  }

  /** And fewer than r are less than it. */
  lemma OrderedLess(ordered: seq<real>, r: nat, x: real)
    requires Ordered(Below(), ordered) && 1 <= r <= |ordered| && x == ordered[r - 1]
    ensures Count(ordered, LessThan(x)) < r
  {
    var back := ordered[r - 1..];
    forall i | 0 <= i < |back|
      ensures !LessThan(x)(back[i])
    {
      assert i == 0 || !Below()(ordered[r - 1 + i], ordered[r - 1]);
    }
    CountNone(back, LessThan(x));
    CountAll(ordered[..r - 1], LessThan(x));
    CountSplit(ordered, r - 1, LessThan(x));
  }

  /** A sample with at least r samples at or below it, and fewer than r strictly below. */
  predicate NearestRank(values: seq<real>, r: int, x: real) {
    x in values && Count(values, AtMost(x)) >= r && Count(values, LessThan(x)) < r
  }

  lemma NearestRankUnique(values: seq<real>, r: int, x: real, y: real)
    requires NearestRank(values, r, x) && NearestRank(values, r, y)
    ensures x == y
  {
    if x < y { CountIncluded(values, AtMost(x), LessThan(y)); }
    if y < x { CountIncluded(values, AtMost(y), LessThan(x)); }
  }

  /** The percentile is the one sample of its rank: the ceiling of p * n for 0 < p, the least sample below that. */
  lemma PercentileIsNearestRank(values: seq<real>, p: real, x: real)
    requires values != [] && p <= 1.0
    ensures NearestRank(values, Rank(p, |values|), x) <==> x == Percentile(values, p)
    ensures p > 0.0 ==> Rank(p, |values|) == Ceil(p * |values| as real)
  {
    var ordered, r := SortBy(Below(), values), Rank(p, |values|);
    MembersKept(values, ordered);
    BelowIsTotal();
    SortOrdered(Below(), values);
    var found := ordered[r - 1];
    OrderedAtMost(ordered, r, found);
    OrderedLess(ordered, r, found);
    assert found in ordered;
    CountPermuted(values, ordered, AtMost(found));
    CountPermuted(values, ordered, LessThan(found));
    if NearestRank(values, r, x) { NearestRankUnique(values, r, x, found); }
    if p > 0.0 { assert p * |values| as real > 0.0; }
  }

  lemma RankMonotone(p: real, q: real, n: nat)
    requires p <= q <= 1.0 && n > 0
    ensures Rank(p, n) <= Rank(q, n)
  {
    ScaleMonotone(p, q, n);
    CeilMonotone(p * n as real, q * n as real);
  }

  lemma CeilMonotone(x: real, y: real)
    requires x <= y
    ensures Ceil(x) <= Ceil(y)
  {
  }

  /** A higher percentile is not a lower value, and none is above the maximum. */
  lemma PercentileMonotone(values: seq<real>, p: real, q: real)
    requires p <= q <= 1.0
    ensures Percentile(values, p) <= Percentile(values, q) <= Maximum(values)
  {
    if values != [] {
      var ordered := SortBy(Below(), values);
      MembersKept(values, ordered);
      BelowIsTotal();
      SortOrdered(Below(), values);
      RankMonotone(p, q, |values|);
      var i, j := Rank(p, |values|) - 1, Rank(q, |values|) - 1;
      assert i == j || !Below()(ordered[j], ordered[i]);
      assert ordered[j] in ordered;
      MaximumIs(values);
    }
  }

  /** max(latencies, default=0.0) */
  function Maximum(values: seq<real>): real {
    if values == [] then 0.0
    else if |values| == 1 then values[0]
    else
      var front := Maximum(values[..|values| - 1]);
      if values[|values| - 1] > front then values[|values| - 1] else front
  }

  lemma {:induction false} MaximumIs(values: seq<real>)
    requires values != []
    ensures Maximum(values) in values && forall v | v in values :: v <= Maximum(values)
    decreases |values|
  {
    if |values| > 1 {
      var n := |values| - 1;
      MaximumIs(values[..n]);
      assert values == values[..n] + [values[n]];
    }
  }

  // ----- outcomes -----

  function LatenciesOf(results: seq<RequestResult>): seq<real> {
    seq(|results|, i requires 0 <= i < |results| => results[i].latency)
  }

  function HasOutcome(o: string): RequestResult -> bool {
    (r: RequestResult) => r.outcome == o
  }

  function HasLatency(x: real): RequestResult -> bool {
    (r: RequestResult) => r.latency == x
  }

  /** outcomes[o] = outcomes.get(o, 0) + 1 */
  function Counted(counts: map<string, nat>, o: string): map<string, nat> {
    counts[o := (if o in counts then counts[o] else 0) + 1]
  }

  function OutcomeCounts(results: seq<RequestResult>): map<string, nat> {
    if results == [] then map[]
    else Counted(OutcomeCounts(results[..|results| - 1]), results[|results| - 1].outcome)
  }

  /** Each outcome that occurs has as its count the number of results that have it. */
  lemma {:induction false} OutcomeCountIs(results: seq<RequestResult>, o: string)
    ensures o in OutcomeCounts(results) <==> Count(results, HasOutcome(o)) > 0
    ensures o in OutcomeCounts(results) ==> OutcomeCounts(results)[o] == Count(results, HasOutcome(o))
    decreases |results|
  {
    if results != [] { OutcomeCountIs(results[..|results| - 1], o); }
  }

  method CountOutcomes(results: seq<RequestResult>) returns (outcomes: map<string, nat>)
    ensures outcomes == OutcomeCounts(results)
  {
    outcomes := map[];
    for i := 0 to |results|
      invariant outcomes == OutcomeCounts(results[..i])
    {
      assert results[..i + 1][..i] == results[..i];
      outcomes := Counted(outcomes, results[i].outcome);
    }
    assert results[..|results|] == results;
  }

  ghost function Total(counts: map<string, nat>): nat
    decreases |counts|
  {
    if counts == map[] then 0
    else
      var o :| o in counts;
      counts[o] + Total(counts - {o})
  }

  lemma {:induction false} TotalWithout(counts: map<string, nat>, o: string)
    requires o in counts
    ensures Total(counts) == counts[o] + Total(counts - {o})
    decreases |counts|
  {
    var first :| first in counts && Total(counts) == counts[first] + Total(counts - {first});
    if first != o {
      TotalWithout(counts - {first}, o);
      TotalWithout(counts - {o}, first);
      assert counts - {first} - {o} == counts - {o} - {first};
    }
  }

  lemma TotalCounted(counts: map<string, nat>, o: string)
    ensures Total(Counted(counts, o)) == Total(counts) + 1
  {
    var next := Counted(counts, o);
    TotalWithout(next, o);
    assert next - {o} == counts - {o};
    if o in counts { TotalWithout(counts, o); } else { assert counts - {o} == counts; }
  }

  /** The counts of the outcomes add up to the number of results. */
  lemma {:induction false} OutcomesAddUp(results: seq<RequestResult>)
    ensures Total(OutcomeCounts(results)) == |results|
    decreases |results|
  {
    if results != [] {
      var n := |results| - 1;
      OutcomesAddUp(results[..n]);
      TotalCounted(OutcomeCounts(results[..n]), results[n].outcome);
    }
  }

  // ----- the report -----

  const SUCCEEDED := "succeeded"

  function ReportOf(results: seq<RequestResult>): Report {
    var latencies, outcomes := LatenciesOf(results), OutcomeCounts(results);
    var succeeded := if SUCCEEDED in outcomes then outcomes[SUCCEEDED] else 0;
    Report(
      |results| - succeeded == 0, |results|, succeeded, |results| - succeeded, outcomes,
      Percentile(latencies, 0.50), Percentile(latencies, 0.95), Percentile(latencies, 0.99), Maximum(latencies))
  }

  lemma SucceededCount(results: seq<RequestResult>)
    ensures ReportOf(results).successCount == Count(results, HasOutcome(SUCCEEDED))
  {
    OutcomeCountIs(results, SUCCEEDED);
  }

  predicate AllSucceeded(results: seq<RequestResult>) {
    forall i | 0 <= i < |results| :: results[i].outcome == SUCCEEDED
  }

  lemma PassedMeansAllSucceeded(results: seq<RequestResult>)
    ensures ReportOf(results).passed <==> AllSucceeded(results)
    ensures ReportOf(results).failureCount >= 0
  {
    SucceededCount(results);
    CountAll(results, HasOutcome(SUCCEEDED));
  }

  /** Each outcome that occurs, with the number of results that have it. */
  ghost predicate CountsOutcomes(outcomes: map<string, nat>, results: seq<RequestResult>) {
    && (forall o :: o in outcomes <==> exists i | 0 <= i < |results| :: results[i].outcome == o)
    && (forall o | o in outcomes :: outcomes[o] == Count(results, HasOutcome(o)))
  }

  /** The percentiles by nearest rank and the largest of the samples; all are zero where there is none. */
  ghost predicate Summarizes(report: Report, latencies: seq<real>) {
    if latencies == [] then report.p50 == report.p95 == report.p99 == report.max == 0.0
    else
      && NearestRank(latencies, Ceil(0.50 * |latencies| as real), report.p50)
      && NearestRank(latencies, Ceil(0.95 * |latencies| as real), report.p95)
      && NearestRank(latencies, Ceil(0.99 * |latencies| as real), report.p99)
      && report.max in latencies && (forall x | x in latencies :: x <= report.max)
  }

  /** What a report says, over the results alone. */
  ghost predicate Describes(report: Report, results: seq<RequestResult>) {
    && report.requestCount == |results|
    && report.successCount == Count(results, HasOutcome(SUCCEEDED))
    && report.failureCount == report.requestCount - report.successCount
    && (report.passed <==> AllSucceeded(results))
    && CountsOutcomes(report.outcomes, results)
    && Summarizes(report, LatenciesOf(results))
  }

  lemma CountsOutcomesUniquely(outcomes: map<string, nat>, results: seq<RequestResult>)
    ensures CountsOutcomes(outcomes, results) <==> outcomes == OutcomeCounts(results)
  {
    var counts := OutcomeCounts(results);
    forall o
      ensures o in counts <==> exists i | 0 <= i < |results| :: results[i].outcome == o
      ensures o in counts ==> counts[o] == Count(results, HasOutcome(o))
    {
      OutcomeCountIs(results, o);
      CountNone(results, HasOutcome(o));
      assert forall i | 0 <= i < |results| :: HasOutcome(o)(results[i]) <==> results[i].outcome == o;
    }
    if CountsOutcomes(outcomes, results) { assert outcomes == counts; }
  }

  lemma SummarizesUniquely(report: Report, latencies: seq<real>)
    ensures Summarizes(report, latencies)
       <==> && report.p50 == Percentile(latencies, 0.50) && report.p95 == Percentile(latencies, 0.95)
            && report.p99 == Percentile(latencies, 0.99) && report.max == Maximum(latencies)
  {
    if latencies != [] {
      PercentileIsNearestRank(latencies, 0.50, report.p50);
      PercentileIsNearestRank(latencies, 0.95, report.p95);
      PercentileIsNearestRank(latencies, 0.99, report.p99);
      MaximumIs(latencies);
    }
  }

  /** The report is the one that describes its results. */
  lemma OneReport(report: Report, results: seq<RequestResult>)
    ensures Describes(report, results) <==> report == ReportOf(results)
  {
    SucceededCount(results);
    PassedMeansAllSucceeded(results);
    CountsOutcomesUniquely(report.outcomes, results);
    SummarizesUniquely(report, LatenciesOf(results));
  }

  /** run_probe, given the results in the order in which the requests completed. */
  method RunProbe(completed: seq<RequestResult>) returns (report: Report)
    ensures Describes(report, completed)
    ensures report == ReportOf(completed)
  {
    var latencies := LatenciesOf(completed);
    var outcomes := CountOutcomes(completed);
    var succeeded := if SUCCEEDED in outcomes then outcomes[SUCCEEDED] else 0;
    var failed := |completed| - succeeded;
    var max := 0.0;
    for i := 0 to |latencies|
      invariant max == Maximum(latencies[..i])
    {
      assert latencies[..i + 1][..i] == latencies[..i];
      if i == 0 || latencies[i] > max { max := latencies[i]; }
    }
    assert latencies[..|latencies|] == latencies;
    report := Report(
      failed == 0, |completed|, succeeded, failed, outcomes,
      Percentile(latencies, 0.50), Percentile(latencies, 0.95), Percentile(latencies, 0.99), max);
    OneReport(report, completed);
  }

  /**
   A report passes exactly when every request succeeded; its counts add up to the requests,
   no failure count is negative, and its percentiles ascend to the maximum.
   */
  lemma ReportIsConsistent(results: seq<RequestResult>)
    ensures var report := ReportOf(results);
      && (report.passed <==> AllSucceeded(results))
      && Total(report.outcomes) == report.requestCount == report.successCount + report.failureCount
      && report.failureCount >= 0
      && report.p50 <= report.p95 <= report.p99 <= report.max
  {
    OutcomesAddUp(results);
    PassedMeansAllSucceeded(results);
    PercentileMonotone(LatenciesOf(results), 0.50, 0.95);
    PercentileMonotone(LatenciesOf(results), 0.95, 0.99);
  }

  lemma {:induction false} LatencyCount(results: seq<RequestResult>, x: real)
    ensures multiset(LatenciesOf(results))[x] == Count(results, HasLatency(x))
    decreases |results|
  {
    if results != [] {
      var n := |results| - 1;
      LatencyCount(results[..n], x);
      assert LatenciesOf(results) == LatenciesOf(results[..n]) + [results[n].latency];
    }
  }

  lemma LatenciesPermuted(s: seq<RequestResult>, t: seq<RequestResult>)
    requires multiset(s) == multiset(t)
    ensures multiset(LatenciesOf(s)) == multiset(LatenciesOf(t))
  {
    forall x
      ensures multiset(LatenciesOf(s))[x] == multiset(LatenciesOf(t))[x]
    {
      LatencyCount(s, x);
      LatencyCount(t, x);
      CountPermuted(s, t, HasLatency(x));
    }
  }

  lemma OutcomesPermuted(s: seq<RequestResult>, t: seq<RequestResult>)
    requires multiset(s) == multiset(t)
    ensures OutcomeCounts(s) == OutcomeCounts(t)
  {
    forall o
      ensures o in OutcomeCounts(s) <==> o in OutcomeCounts(t)
      ensures o in OutcomeCounts(s) ==> OutcomeCounts(s)[o] == OutcomeCounts(t)[o]
    {
      OutcomeCountIs(s, o);
      OutcomeCountIs(t, o);
      CountPermuted(s, t, HasOutcome(o));
    }
  }

  lemma PercentilePermuted(s: seq<real>, t: seq<real>, p: real)
    requires multiset(s) == multiset(t) && p <= 1.0
    ensures Percentile(s, p) == Percentile(t, p)
  {
    MembersKept(s, t);
    BelowIsTotal();
    SortCanonical(Below(), s, t);
  }

  lemma MaximumPermuted(s: seq<real>, t: seq<real>)
    requires multiset(s) == multiset(t)
    ensures Maximum(s) == Maximum(t)
  {
    MembersKept(s, t);
    if s != [] {
      MaximumIs(s);
      MaximumIs(t);
      assert Maximum(s) in t && Maximum(t) in s;
    }
  }

  /** The report does not depend on the order in which the requests completed. */
  lemma ReportIgnoresOrder(results: seq<RequestResult>, other: seq<RequestResult>)
    requires multiset(results) == multiset(other)
    ensures ReportOf(results) == ReportOf(other)
  {
    MembersKept(results, other);
    OutcomesPermuted(results, other);
    LatenciesPermuted(results, other);
    var s, t := LatenciesOf(results), LatenciesOf(other);
    PercentilePermuted(s, t, 0.50);
    PercentilePermuted(s, t, 0.95);
    PercentilePermuted(s, t, 0.99);
    MaximumPermuted(s, t);
  }
}
