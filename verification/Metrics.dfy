/** Round-trip statistics of the load client: samples, interval snapshots, final totals. */
module Metrics {

  function Sum(s: seq<real>): real {
    if s == [] then 0.0 else s[0] + Sum(s[1..])
  }

  function InsertSorted(x: real, s: seq<real>): seq<real> {
    if s == [] || x <= s[0] then [x] + s else [s[0]] + InsertSorted(x, s[1..])
  }

  function Sorted(s: seq<real>): seq<real> {
    if s == [] then [] else InsertSorted(s[0], Sorted(s[1..]))
  }

  ghost predicate Ascending(s: seq<real>) {
    forall i, j | 0 <= i < j < |s| :: s[i] <= s[j]
  }

  lemma {:induction false} InsertPermutes(x: real, s: seq<real>)
    ensures multiset(InsertSorted(x, s)) == multiset{x} + multiset(s)
  {
    if s != [] && x > s[0] {
      InsertPermutes(x, s[1..]);
      assert s == [s[0]] + s[1..];
    }
  }

  lemma {:induction false} InsertFacts(x: real, s: seq<real>)
    requires Ascending(s)
    ensures var r := InsertSorted(x, s); Ascending(r) && Sum(r) == x + Sum(s) && |r| == |s| + 1
    ensures InsertSorted(x, s)[0] == if s == [] || x <= s[0] then x else s[0]
  {
    if s == [] || x <= s[0] {
      assert ([x] + s)[1..] == s;
    } else {
      InsertFacts(x, s[1..]);
      var t := InsertSorted(x, s[1..]);
      assert ([s[0]] + t)[1..] == t;
      assert s[0] <= t[0];
    }
  }

  /** Sorting keeps the number of the samples and their sum. */
  lemma {:induction false} SortedFacts(s: seq<real>)
    ensures Ascending(Sorted(s)) && |Sorted(s)| == |s| && Sum(Sorted(s)) == Sum(s)
  {
    if s != [] {
      SortedFacts(s[1..]);
      InsertFacts(s[0], Sorted(s[1..]));
    }
  }

  /** Sorting keeps the samples themselves. */
  lemma {:induction false} SortedPermutes(s: seq<real>)
    ensures multiset(Sorted(s)) == multiset(s)
  {
    if s != [] {
      SortedPermutes(s[1..]);
      InsertPermutes(s[0], Sorted(s[1..]));
      assert s == [s[0]] + s[1..];
    }
  }

  lemma SortedMembers(s: seq<real>, x: real)
    ensures x in Sorted(s) <==> x in s
  {
    SortedPermutes(s);
    assert x in Sorted(s) <==> x in multiset(Sorted(s));
    assert x in s <==> x in multiset(s);
  }

  lemma {:induction false} SumConcat(a: seq<real>, b: seq<real>)
    ensures Sum(a + b) == Sum(a) + Sum(b)
  {
    if a == [] {
      assert a + b == b;
    } else {
      assert (a + b)[1..] == a[1..] + b;
      SumConcat(a[1..], b);
    }
  }

  /** The sample at position floor(p * (n - 1)) of the ascending samples. */
  function Percentile(sorted: seq<real>, p: real): real
    requires 0.0 <= p <= 1.0
  {
    if sorted == [] then 0.0
    else
      IndexInRange(|sorted|, p);
      sorted[PercentileIndex(|sorted|, p)]
  }

  function PercentileIndex(n: nat, p: real): int
    requires n > 0
  {
    (p * (n - 1) as real).Floor
  }

  lemma IndexInRange(n: nat, p: real)
    requires 0.0 <= p <= 1.0 && n > 0
    ensures 0 <= PercentileIndex(n, p) < n
  {
    Scale(p, (n - 1) as real);
    FloorWithin(p * (n - 1) as real, n - 1);
  }

  /** The index is the whole part of p * (n - 1). */
  lemma IndexIsFloor(n: nat, p: real)
    requires n > 0
    ensures PercentileIndex(n, p) as real <= p * (n - 1) as real < (PercentileIndex(n, p) + 1) as real
  {
  }

  lemma FloorWithin(x: real, m: int)
    requires 0.0 <= x <= m as real
    ensures 0 <= x.Floor <= m
  {
  }

  lemma Scale(p: real, x: real)
    requires 0.0 <= p <= 1.0 && x >= 0.0
    ensures 0.0 <= p * x <= x
  {
  }

  lemma ScaleMonotone(p: real, q: real, x: real)
    requires p <= q && x >= 0.0
    ensures p * x <= q * x
  {
  }

  /** Percentiles split the samples: everything up to the index is no larger, everything from it on no smaller. */
  lemma PercentileSplits(s: seq<real>, p: real)
    requires s != [] && 0.0 <= p <= 1.0
    ensures |Sorted(s)| == |s|
    ensures var v, idx := Percentile(Sorted(s), p), PercentileIndex(|s|, p);
            && 0 <= idx < |s| && v in s
            && idx as real <= p * (|s| - 1) as real < (idx + 1) as real
            && (forall i | 0 <= i <= idx :: Sorted(s)[i] <= v)
            && (forall i | idx <= i < |s| :: v <= Sorted(s)[i])
  {
    SortedFacts(s);
    IndexInRange(|s|, p);
    IndexIsFloor(|s|, p);
    SortedMembers(s, Percentile(Sorted(s), p));
  }

  lemma FloorMonotone(x: real, y: real)
    requires x <= y
    ensures x.Floor <= y.Floor
  {
  }

  lemma IndexMonotone(n: nat, p: real, q: real)
    requires n > 0 && 0.0 <= p <= q <= 1.0
    ensures PercentileIndex(n, p) <= PercentileIndex(n, q)
  {
    ScaleMonotone(p, q, (n - 1) as real);
    FloorMonotone(p * (n - 1) as real, q * (n - 1) as real);
  }

  lemma PercentilesOrdered(s: seq<real>, p: real, q: real)
    requires Ascending(s) && 0.0 <= p <= q <= 1.0
    ensures Percentile(s, p) <= Percentile(s, q)
  {
    if s != [] {
      IndexInRange(|s|, p);
      IndexInRange(|s|, q);
      IndexMonotone(|s|, p, q);
    }
  }

  lemma PercentilesBetween(s: seq<real>)
    requires s != [] && Ascending(s)
    ensures s[0] <= Percentile(s, 0.50) <= Percentile(s, 0.95) <= Percentile(s, 0.99) <= s[|s| - 1]
  {
    IndexInRange(|s|, 0.50);
    IndexInRange(|s|, 0.99);
    PercentilesOrdered(s, 0.50, 0.95);
    PercentilesOrdered(s, 0.95, 0.99);
  }

  datatype Snapshot = Snapshot(
    successCount: nat, timeoutCount: nat, stuckCount: nat, sampleCount: nat,
    minMs: real, maxMs: real, avgMs: real, p50Ms: real, p95Ms: real, p99Ms: real)

  /** The aggregator between two snapshots. */
  datatype Interval = Interval(samples: seq<real>, success: nat, timeouts: nat, stuck: nat)

  const QUIET := Interval([], 0, 0, 0)

  function Mean(s: seq<real>): real {
    if s == [] then 0.0 else Sum(s) / |s| as real
  }

  /** x taken n times; WeighIsProduct shows it is the product. */
  function Weigh(x: real, n: nat): real {
    if n == 0 then 0.0 else Weigh(x, n - 1) + x
  }

  lemma {:induction false} WeighIsProduct(x: real, n: nat)
    ensures Weigh(x, n) == x * n as real
  {
    if n > 0 {
      WeighIsProduct(x, n - 1);
      assert x * (n - 1) as real + x == x * n as real;
    }
  }

  lemma MeanWeighs(s: seq<real>)
    ensures Weigh(Mean(s), |s|) == Sum(s)
  {
    WeighIsProduct(Mean(s), |s|);
    if s != [] {
      Divide(Sum(s), |s| as real);
    }
  }

  function Summarize(m: Interval): Snapshot {
    var s := Sorted(m.samples);
    if s == [] then Snapshot(m.success, m.timeouts, m.stuck, 0, 0.0, 0.0, 0.0, 0.0, 0.0, 0.0)
    else Snapshot(m.success, m.timeouts, m.stuck, |s|, s[0], s[|s| - 1], Mean(s),
                  Percentile(s, 0.50), Percentile(s, 0.95), Percentile(s, 0.99))
  }

  /** A snapshot's mean is weighted right: times the sample count it is the sum of the samples. */
  lemma SnapshotMean(m: Interval)
    ensures var r := Summarize(m);
            && r.sampleCount == |m.samples| && Weigh(r.avgMs, r.sampleCount) == Sum(m.samples)
            && (r.successCount, r.timeoutCount, r.stuckCount) == (m.success, m.timeouts, m.stuck)
  {
    SortedFacts(m.samples);
    MeanWeighs(Sorted(m.samples));
  }

  lemma BetweenEnds(r: seq<real>, x: real)
    requires Ascending(r) && x in r
    ensures r[0] <= x <= r[|r| - 1]
  {
    var i :| 0 <= i < |r| && r[i] == x;
  }

  lemma EndsAreSamples(s: seq<real>)
    requires s != []
    ensures |Sorted(s)| == |s| && Sorted(s)[0] in s && Sorted(s)[|s| - 1] in s
  {
    SortedFacts(s);
    var r := Sorted(s);
    SortedMembers(s, r[0]);
    SortedMembers(s, r[|r| - 1]);
  }

  lemma SampleBetweenEnds(s: seq<real>, x: real)
    requires x in s
    ensures |Sorted(s)| == |s| && Sorted(s)[0] <= x <= Sorted(s)[|s| - 1]
  {
    SortedFacts(s);
    SortedMembers(s, x);
    BetweenEnds(Sorted(s), x);
  }

  /** Its extremes are the least and the greatest sample, its percentiles lie in order between them. */
  lemma SnapshotOrder(m: Interval)
    ensures var r := Summarize(m);
            && (m.samples != [] ==> r.minMs in m.samples && r.maxMs in m.samples)
            && (forall x | x in m.samples :: r.minMs <= x <= r.maxMs)
            && r.minMs <= r.p50Ms <= r.p95Ms <= r.p99Ms <= r.maxMs
            && (m.samples == [] ==> r.avgMs == r.minMs == r.maxMs == 0.0)
  {
    SortedFacts(m.samples);
    if m.samples != [] {
      EndsAreSamples(m.samples);
      forall x | x in m.samples ensures Sorted(m.samples)[0] <= x <= Sorted(m.samples)[|m.samples| - 1] {
        SampleBetweenEnds(m.samples, x);
      }
      PercentilesBetween(Sorted(m.samples));
    }
  }

  /** i is the position of the num-th of den parts of n samples in order. */
  predicate At(i: int, n: nat, num: nat, den: nat) {
    0 <= i < n && i * den <= num * (n - 1) < (i + 1) * den
  }

  lemma IndexAt(n: nat, num: nat, den: nat, p: real)
    requires n > 0 && 0 < den && num <= den && p == num as real / den as real
    ensures At(PercentileIndex(n, p), n, num, den)
  {
    var i := PercentileIndex(n, p);
    Ratio(num as real, den as real);
    IndexInRange(n, p);
    IndexIsFloor(n, p);
    Times(i as real, p * (n - 1) as real, den as real);
    StrictlyTimes(p * (n - 1) as real, (i + 1) as real, den as real);
    Rescale(p, (n - 1) as real, den as real, num as real);
    ProductsOfInts(i, den, num, n - 1);
  }

  lemma Ratio(a: real, b: real)
    requires 0.0 <= a <= b && b > 0.0
    ensures 0.0 <= a / b <= 1.0 && a / b * b == a
  {
  }

  lemma Times(x: real, y: real, d: real)
    requires x <= y && d > 0.0
    ensures x * d <= y * d
  {
  }

  lemma StrictlyTimes(x: real, y: real, d: real)
    requires x < y && d > 0.0
    ensures x * d < y * d
  {
  }

  lemma Rescale(p: real, x: real, d: real, n: real)
    requires p * d == n
    ensures (p * x) * d == n * x
  {
    assert (p * x) * d == (p * d) * x;
  }

  lemma ProductsOfInts(i: int, den: int, num: int, m: int)
    ensures i as real * den as real == (i * den) as real
    ensures (i + 1) as real * den as real == ((i + 1) * den) as real
    ensures num as real * m as real == (num * m) as real
  {
  }

  /** The three percentiles are the samples at the half, at 95 and at 99 hundredths of the sorted samples. */
  lemma SnapshotPercentiles(m: Interval)
    requires m.samples != []
    ensures |Sorted(m.samples)| == |m.samples|
    ensures var r, s, n := Summarize(m), Sorted(m.samples), |m.samples|;
            exists i, j, k | At(i, n, 50, 100) && At(j, n, 95, 100) && At(k, n, 99, 100) ::
              (r.p50Ms, r.p95Ms, r.p99Ms) == (s[i], s[j], s[k])
  {
    SortedFacts(m.samples);
    var n := |m.samples|;
    IndexAt(n, 50, 100, 0.50);
    IndexAt(n, 95, 100, 0.95);
    IndexAt(n, 99, 100, 0.99);
  }

  lemma Divide(a: real, n: real)
    requires n > 0.0
    ensures a / n * n == a
  {
  }

  class MetricsAggregator {
    var rttSamplesMs: seq<real>
    var successCount: nat
    var timeoutCount: nat
    var stuckCount: nat

    constructor ()
      ensures View() == QUIET
    {
      rttSamplesMs, successCount, timeoutCount, stuckCount := [], 0, 0, 0;
    }

    ghost function View(): Interval
      reads this
    {
      Interval(rttSamplesMs, successCount, timeoutCount, stuckCount)
    }

    method RecordRtt(ms: real)
      modifies this
      ensures View() == Record(old(View()), Rtt(ms))
    {
      rttSamplesMs := rttSamplesMs + [ms];
      successCount := successCount + 1;
    }

    method RecordTimeout()
      modifies this
      ensures View() == Record(old(View()), Timeout)
    {
      timeoutCount := timeoutCount + 1;
    }

    method RecordStuck()
      modifies this
      ensures View() == Record(old(View()), Stuck)
    {
      stuckCount := stuckCount + 1;
    }

    /** Takes the interval over and starts a new one; the sorting is std::sort. */
    method GetSnapshotAndReset() returns (snapshot: Snapshot)
      modifies this
      ensures snapshot == Summarize(old(View())) && View() == QUIET
    {
      var samples := rttSamplesMs;
      var success, timeouts, stuck := successCount, timeoutCount, stuckCount;
      rttSamplesMs, successCount, timeoutCount, stuckCount := [], 0, 0, 0;
      var s := Sorted(samples);
      if s == [] {
        return Snapshot(success, timeouts, stuck, 0, 0.0, 0.0, 0.0, 0.0, 0.0, 0.0);
      }
      var total := Accumulate(s);
      snapshot := Snapshot(success, timeouts, stuck, |s|, s[0], s[|s| - 1], total / |s| as real,
                           Percentile(s, 0.50), Percentile(s, 0.95), Percentile(s, 0.99));
    }
  }

  method Accumulate(s: seq<real>) returns (total: real)
    ensures total == Sum(s)
  {
    total := 0.0;
    for i := 0 to |s|
      invariant total + Sum(s[i..]) == Sum(s)
    {
      total := total + s[i];
    }
  }

  // ----- interval reports and final totals ------------------------------------------------

  datatype Event = Rtt(ms: real) | Timeout | Stuck | Report

  function Record(m: Interval, e: Event): Interval {
    match e
    case Rtt(ms) => m.(samples := m.samples + [ms], success := m.success + 1)
    case Timeout => m.(timeouts := m.timeouts + 1)
    case Stuck => m.(stuck := m.stuck + 1)
    case Report => QUIET
  }

  datatype Totals = Totals(success: nat, timeouts: nat, stuck: nat, weighted: real, samples: nat)

  function Add(t: Totals, s: Snapshot): Totals {
    Totals(t.success + s.successCount, t.timeouts + s.timeoutCount, t.stuck + s.stuckCount,
           t.weighted + Weigh(s.avgMs, s.sampleCount), t.samples + s.sampleCount)
  }

  function TotalsOf(history: seq<Snapshot>): Totals {
    if history == [] then Totals(0, 0, 0, 0.0, 0) else Add(TotalsOf(history[..|history| - 1]), history[|history| - 1])
  }

  function Average(t: Totals): real {
    if t.samples > 0 then t.weighted / t.samples as real else 0.0
  }

  class ReportManager {
    var history: seq<Snapshot>

    constructor ()
      ensures history == []
    {
      history := [];
    }

    method ReportInterval(metrics: MetricsAggregator)
      modifies this, metrics
      ensures history == old(history) + [Summarize(old(metrics.View()))] && metrics.View() == QUIET
    {
      var snap := metrics.GetSnapshotAndReset();
      history := history + [snap];
    }

    /** The figures of the report's last line. */
    method WriteFinalReport(metrics: MetricsAggregator) returns (t: Totals, average: real)
      modifies this, metrics
      ensures history == old(history) + [Summarize(old(metrics.View()))]
      ensures t == TotalsOf(history) && average == Average(t)
    {
      ReportInterval(metrics);
      t := SumUp(history);
      average := if t.samples > 0 then t.weighted / t.samples as real else 0.0;
    }
  }

  /** The loop over the history. */
  method SumUp(history: seq<Snapshot>) returns (t: Totals)
    ensures t == TotalsOf(history)
  {
    t := Totals(0, 0, 0, 0.0, 0);
    for i := 0 to |history|
      invariant t == TotalsOf(history[..i])
    {
      assert history[..i + 1][..i] == history[..i];
      var s := history[i];
      WeighIsProduct(s.avgMs, s.sampleCount);
      t := Totals(t.success + s.successCount, t.timeouts + s.timeoutCount, t.stuck + s.stuckCount,
                  t.weighted + s.avgMs * s.sampleCount as real, t.samples + s.sampleCount);
    }
    assert history[..|history|] == history;
  }

  /** The aggregator and the history after a sequence of events, reports among them. */
  function Play(events: seq<Event>): (Interval, seq<Snapshot>) {
    if events == [] then (QUIET, [])
    else
      var (m, h) := Play(events[..|events| - 1]);
      var e := events[|events| - 1];
      (Record(m, e), if e.Report? then h + [Summarize(m)] else h)
  }

  /** All round trips of the run, taken once. */
  function Rtts(events: seq<Event>): seq<real> {
    if events == [] then []
    else
      var e := events[|events| - 1];
      Rtts(events[..|events| - 1]) + (if e.Rtt? then [e.ms] else [])
  }

  function CountOf(events: seq<Event>, which: Event): nat {
    if events == [] then 0
    else CountOf(events[..|events| - 1], which) + (if events[|events| - 1] == which then 1 else 0)
  }

  lemma TotalsSnoc(h: seq<Snapshot>, s: Snapshot)
    ensures TotalsOf(h + [s]) == Add(TotalsOf(h), s)
  {
    assert (h + [s])[..|h|] == h;
  }

  /** What has been reported and what has not add up to what has happened. */
  ghost predicate Ledger(events: seq<Event>, m: Interval, t: Totals) {
    && t.success + m.success == |Rtts(events)|
    && m.success == |m.samples|
    && t.samples + |m.samples| == |Rtts(events)|
    && t.timeouts + m.timeouts == CountOf(events, Timeout)
    && t.stuck + m.stuck == CountOf(events, Stuck)
    && t.weighted + Sum(m.samples) == Sum(Rtts(events))
  }

  lemma LedgerReport(events: seq<Event>, m: Interval, h: seq<Snapshot>)
    requires Ledger(events, m, TotalsOf(h))
    ensures Ledger(events, QUIET, TotalsOf(h + [Summarize(m)]))
  {
    TotalsSnoc(h, Summarize(m));
    SnapshotMean(m);
  }

  lemma LedgerRecord(before: seq<Event>, e: Event, m: Interval, t: Totals)
    requires Ledger(before, m, t) && !e.Report?
    ensures Ledger(before + [e], Record(m, e), t)
  {
    assert (before + [e])[..|before|] == before;
    if e.Rtt? {
      SumConcat(m.samples, [e.ms]);
      SumConcat(Rtts(before), [e.ms]);
    } else {
      assert Rtts(before + [e]) == Rtts(before);
    }
  }

  lemma LedgerAfterReport(before: seq<Event>, m: Interval, t: Totals)
    requires Ledger(before, m, t)
    ensures Ledger(before + [Report], m, t)
  {
    assert (before + [Report])[..|before|] == before;
    assert Rtts(before + [Report]) == Rtts(before);
  }

  lemma {:induction false} ReportsLoseNothing(events: seq<Event>)
    ensures Ledger(events, Play(events).0, TotalsOf(Play(events).1))
  {
    if events != [] {
      var before, e := events[..|events| - 1], events[|events| - 1];
      ReportsLoseNothing(before);
      var (m, h) := Play(before);
      assert events == before + [e];
      if e.Report? {
        LedgerReport(before, m, h);
        LedgerAfterReport(before, QUIET, TotalsOf(h + [Summarize(m)]));
      } else {
        LedgerRecord(before, e, m, TotalsOf(h));
      }
    }
  }

  lemma ReportIsNoSample(events: seq<Event>)
    ensures var all := events + [Report];
            && Rtts(all) == Rtts(events) && Play(all).0 == QUIET
            && CountOf(all, Timeout) == CountOf(events, Timeout) && CountOf(all, Stuck) == CountOf(events, Stuck)
  {
    assert (events + [Report])[..|events|] == events;
    assert Rtts(events) + [] == Rtts(events);
  }

  lemma LedgerClosed(events: seq<Event>, t: Totals)
    requires Ledger(events, QUIET, t)
    ensures t.success == t.samples == |Rtts(events)| && t.weighted == Sum(Rtts(events))
    ensures t.timeouts == CountOf(events, Timeout) && t.stuck == CountOf(events, Stuck)
  {
  }

  /** However the run was cut into report intervals, the final report counts every event exactly once. */
  lemma FinalCountsExact(events: seq<Event>)
    ensures var t := TotalsOf(Play(events + [Report]).1);
            && t.success == t.samples == |Rtts(events)|
            && t.timeouts == CountOf(events, Timeout)
            && t.stuck == CountOf(events, Stuck)
            && t.weighted == Sum(Rtts(events))
  {
    ReportIsNoSample(events);
    ReportsLoseNothing(events + [Report]);
    LedgerClosed(events + [Report], TotalsOf(Play(events + [Report]).1));
  }

  lemma AverageIsMean(t: Totals, rtts: seq<real>)
    requires t.samples == |rtts| && t.weighted == Sum(rtts)
    ensures Average(t) == Mean(rtts)
  {
  }

  /** And the average it shows is the mean of all round trips. */
  lemma FinalAverageExact(events: seq<Event>)
    ensures Average(TotalsOf(Play(events + [Report]).1)) == Mean(Rtts(events))
    ensures Rtts(events) == [] ==> Average(TotalsOf(Play(events + [Report]).1)) == 0.0
  {
    FinalCountsExact(events);
    AverageIsMean(TotalsOf(Play(events + [Report]).1), Rtts(events));
  }
}
