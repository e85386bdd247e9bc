/**
The telemetry collector: per-tool counters kept up to date call by call. Its main
property is that the incremental state always equals a recomputation from the full
history of observations, for every tool and every interleaving.
*/
module Telemetry {
  import opened Regex
  import opened Int64
  import opened Sorting

  const WINDOW: nat := 2000

  /** One call to `Observe`; the duration is in nanoseconds. */
  datatype Observation =
    Observation(tool: string, duration: int, success: bool, confidence: Option<real>, at: string)

  // ----- What the history says -----

  function OfTool(tool: string, history: seq<Observation>): seq<Observation> {
    if history == [] then []
    else OfTool(tool, history[..|history| - 1]) +
         (if history[|history| - 1].tool == tool then [history[|history| - 1]] else [])
  }

  function Latencies(obs: seq<Observation>): (r: seq<int>)
    ensures |r| == |obs| && forall i :: 0 <= i < |obs| ==> r[i] == Milliseconds(obs[i].duration)
  {
    if obs == [] then [] else Latencies(obs[..|obs| - 1]) + [Milliseconds(obs[|obs| - 1].duration)]
  }

  function Sum(s: seq<int>): int {
    if s == [] then 0 else Sum(s[..|s| - 1]) + s[|s| - 1]
  }

  function Failures(obs: seq<Observation>): nat {
    if obs == [] then 0
    else Failures(obs[..|obs| - 1]) + (if obs[|obs| - 1].success then 0 else 1)
  }

  function Confidences(obs: seq<Observation>): seq<real> {
    if obs == [] then []
    else Confidences(obs[..|obs| - 1]) +
         (if obs[|obs| - 1].confidence.Some? then [obs[|obs| - 1].confidence.value] else [])
  }

  function SumReal(s: seq<real>): real {
    if s == [] then 0.0 else SumReal(s[..|s| - 1]) + s[|s| - 1]
  }

  /** The last 2000 latencies, or all of them if there are fewer. */
  function Window(s: seq<int>): seq<int> {
    if |s| > WINDOW then s[|s| - WINDOW..] else s
  }

  function Rank95(n: nat): nat
    requires n > 0
  {
    95 * (n - 1) / 100
  }

  /** What a snapshot shows of a tool. */
  datatype Stats = Stats(
    calls: nat, errors: nat, p95LatencyMs: int, averageLatencyMs: int,
    confidenceSamples: nat, averageConfidence: real, lastObservedAt: string)

  function P95(window: seq<int>): int {
    if window == [] then 0 else SortInts(window)[Rank95(|window|)]
  }

  function MeanLatency(latencies: seq<int>): int {
    if latencies == [] then 0 else TruncDiv(Wrap(Sum(latencies)), |latencies|)
  }

  function Average(total: real, n: nat): real
    requires n > 0
  {
    total / n as real
  }

  function MeanConfidence(samples: seq<real>): real {
    if samples == [] then 0.0 else Average(SumReal(samples), |samples|)
  }

  function LastAt(obs: seq<Observation>): string {
    if obs == [] then "" else obs[|obs| - 1].at
  }

  /** The statistics of a tool, recomputed from all its observations. */
  function StatsOf(obs: seq<Observation>): Stats {
    Stats(|obs|, Failures(obs), P95(Window(Latencies(obs))), MeanLatency(Latencies(obs)),
          |Confidences(obs)|, MeanConfidence(Confidences(obs)), LastAt(obs))
  }

  /** These are the tools of the history. */
  ghost predicate Observed(tools: set<string>, history: seq<Observation>) {
    forall tool :: tool in tools <==> OfTool(tool, history) != []
  }

  // ----- The mutable state -----

  class ToolMetric {
    var calls: nat
    var errors: nat
    var p95LatencyMs: int
    var averageLatencyMs: int
    var confidenceSamples: nat
    var averageConfidence: real
    var lastObservedAt: string
    var latencies: seq<int>
    var totalLatency: int
    var confidenceAggregate: real

    constructor ()
      ensures Represents([])
    {
      calls, errors, p95LatencyMs, averageLatencyMs, confidenceSamples := 0, 0, 0, 0, 0;
      averageConfidence, confidenceAggregate := 0.0, 0.0;
      lastObservedAt, latencies, totalLatency := "", [], 0;
    }

    function Exported(): Stats
      reads this
    {
      Stats(calls, errors, p95LatencyMs, averageLatencyMs, confidenceSamples, averageConfidence, lastObservedAt)
    }

    /** The fields are what `obs` determines. */
    ghost predicate Represents(obs: seq<Observation>)
      reads this
    {
      && latencies == Window(Latencies(obs))
      && totalLatency == Wrap(Sum(Latencies(obs)))
      && confidenceAggregate == SumReal(Confidences(obs))
      && Exported() == StatsOf(obs)
    }

    /** The part of the update that concerns the confidence, when there is one. */
    method AddSample(confidence: Option<real>)
      modifies this`confidenceSamples, this`confidenceAggregate, this`averageConfidence
      ensures confidence.None? ==>
                && confidenceSamples == old(confidenceSamples) && confidenceAggregate == old(confidenceAggregate)
                && averageConfidence == old(averageConfidence)
      ensures confidence.Some? ==>
                && confidenceSamples == old(confidenceSamples) + 1
                && confidenceAggregate == old(confidenceAggregate) + confidence.value
                && averageConfidence == Average(confidenceAggregate, confidenceSamples)
    {
      if confidence.Some? {
        confidenceSamples := confidenceSamples + 1;
        confidenceAggregate := confidenceAggregate + confidence.value;
        averageConfidence := Average(confidenceAggregate, confidenceSamples);
      }
    }

    /** The update of one metric inside `Observe`. */
    method Record(ghost obs: seq<Observation>, o: Observation)
      requires Represents(obs)
      modifies this
      ensures Represents(obs + [o])
    {
      hide StatsOf, Milliseconds, Rank95, Window, P95, Wrap, TruncDiv, Latencies, Confidences, Sum, SumReal, HasRank, IsP95, Average;
      ghost var before := Exported();
      var latencyMs := Milliseconds(o.duration);
      calls := calls + 1;
      if !o.success {
        errors := errors + 1;
      }
      totalLatency := Wrap(totalLatency + latencyMs);
      latencies := latencies + [latencyMs];
      if |latencies| > WINDOW {
        latencies := latencies[|latencies| - WINDOW..];
      }
      assert latencies == Trimmed(old(latencies) + [latencyMs]);
      AddSample(o.confidence);
      lastObservedAt := o.at;
      averageLatencyMs := TruncDiv(totalLatency, calls);
      p95LatencyMs := Percentile95(latencies);
      assert Exported() == Updated(before, o, p95LatencyMs, totalLatency, confidenceAggregate);
      hide Exported, Updated, Trimmed;
      NextFields(obs, o);
    }
  }

  /** `p` is 0 for no values, and otherwise the value that 95 percent of the way from the
      first to the last of the sorted values stands at, rounded down. */
  ghost predicate IsP95(values: seq<int>, p: int) {
    if values == [] then p == 0
    else p in values && exists r: nat :: HasRank(values, r, p) && 100 * r <= 95 * (|values| - 1) < 100 * (r + 1)
  }

  method Percentile95(values: seq<int>) returns (p: int)
    ensures p == P95(values)
    ensures IsP95(values, p)
  {
    if |values| == 0 { return 0; }
    var copyValues := SortInts(values);
    var idx: int := Rank95(|copyValues|);
    if idx < 0 { idx := 0; }
    if idx >= |copyValues| { idx := |copyValues| - 1; }
    P95InValues(values);
    p := copyValues[idx];
  }

  class Collector {
    var byTool: map<string, ToolMetric>
    ghost var history: seq<Observation>

    ghost predicate Valid()
      reads this, byTool.Values
    {
      && Observed(byTool.Keys, history)
      && (forall a, b :: a in byTool && b in byTool && a != b ==> byTool[a] != byTool[b])
      && (forall tool :: tool in byTool ==> byTool[tool].Represents(OfTool(tool, history)))
    }

    constructor ()
      ensures Valid() && history == [] && byTool == map[]
    {
      byTool := map[];
      history := [];
    }

    /** The metric of a tool, a new one on its first observation. */
    method MetricFor(tool: string) returns (metric: ToolMetric)
      requires Valid()
      modifies this`byTool
      ensures byTool == old(byTool)[tool := metric]
      ensures if tool in old(byTool) then metric == old(byTool)[tool] else fresh(metric)
      ensures forall t :: t in old(byTool) && t != tool ==> old(byTool)[t] != metric
      ensures metric.Represents(OfTool(tool, history))
    {
      hide OfTool, StatsOf, ToolMetric.Represents;
      if tool in byTool {
        metric := byTool[tool];
      } else {
        metric := new ToolMetric();
        byTool := byTool[tool := metric];
      }
    }

    method Observe(tool: string, duration: int, success: bool, confidence: Option<real>, now: string)
      requires Valid()
      modifies this, byTool.Values
      ensures Valid()
      ensures history == old(history) + [Observation(tool, duration, success, confidence, now)]
      ensures byTool.Keys == old(byTool.Keys) + {tool}
      ensures forall t :: t in old(byTool) ==> byTool[t] == old(byTool[t])
      ensures forall t :: t in old(byTool) && t != tool ==> unchanged(byTool[t])
      ensures tool !in old(byTool) ==> fresh(byTool[tool])
    {
      ghost var before := OfTool(tool, history);
      hide OfTool, StatsOf, Observed, ToolMetric.Represents;
      var o := Observation(tool, duration, success, confidence, now);
      var metric := MetricFor(tool);
      metric.Record(before, o);
      history := history + [o];
      ObservedAppended(old(byTool).Keys, old(history), o);
      assert byTool.Keys == old(byTool).Keys + {tool};
      forall t | t in byTool ensures byTool[t].Represents(OfTool(t, history)) {
        OfToolAppended(t, old(history), o);
      }
    }

    /** A copy of every tool's public fields. */
    method Snapshot() returns (tools: map<string, Stats>)
      requires Valid()
      ensures forall tool :: tool in tools <==> OfTool(tool, history) != []
      ensures forall tool :: tool in tools ==> tools[tool] == StatsOf(OfTool(tool, history))
    {
      hide OfTool, StatsOf, Window, P95, Wrap, TruncDiv, Latencies, Confidences, Sum, SumReal;
      tools := map[];
      var names := byTool.Keys;
      while names != {}
        invariant names <= byTool.Keys && tools.Keys == byTool.Keys - names
        invariant forall tool :: tool in tools ==> tools[tool] == StatsOf(OfTool(tool, history))
      {
        var name :| name in names;
        tools := tools[name := byTool[name].Exported()];
        names := names - {name};
      }
    }
  }

  /** What the trimming of the window leaves. */
  function Trimmed(w: seq<int>): seq<int> {
    if |w| > WINDOW then w[|w| - WINDOW..] else w
  }

  /** Trimming after every append keeps exactly the last elements of everything appended. */
  lemma WindowAppend(s: seq<int>, x: int)
    ensures Window(s + [x]) == Trimmed(Window(s) + [x])
  {
  }

  /** The shown statistics after one more observation, from the earlier ones, the new
      percentile and the new running totals. */
  function Updated(s: Stats, o: Observation, p95: int, total: int, aggregate: real): Stats {
    var samples := s.confidenceSamples + (if o.confidence.Some? then 1 else 0);
    Stats(s.calls + 1, s.errors + (if o.success then 0 else 1), p95, TruncDiv(total, s.calls + 1), samples,
          if o.confidence.Some? then Average(aggregate, samples) else s.averageConfidence, o.at)
  }

  lemma MeansAppended(obs: seq<Observation>, o: Observation)
    ensures var l := Latencies(obs + [o]); MeanLatency(l) == TruncDiv(Wrap(Sum(l)), |obs| + 1)
    ensures var c := Confidences(obs + [o]); c != [] ==> MeanConfidence(c) == Average(SumReal(c), |c|)
    ensures LastAt(obs + [o]) == o.at
  {
  }

  /** The fields of a metric after one more observation. */
  lemma NextFields(obs: seq<Observation>, o: Observation)
    ensures var x, l, c := Milliseconds(o.duration), Latencies(obs + [o]), Confidences(obs + [o]);
            && Window(l) == Trimmed(Window(Latencies(obs)) + [x])
            && Wrap(Sum(l)) == Wrap(Wrap(Sum(Latencies(obs))) + x)
            && SumReal(c) == SumReal(Confidences(obs)) + (if o.confidence.Some? then o.confidence.value else 0.0)
            && StatsOf(obs + [o]) == Updated(StatsOf(obs), o, P95(Window(l)), Wrap(Sum(l)), SumReal(c))
  {
    hide P95, Window, Trimmed, Wrap, TruncDiv, Latencies, Confidences, Sum, SumReal, Failures, LastAt;
    hide MeanLatency, MeanConfidence, Milliseconds, Average;
    Appended(obs, o);
    WindowAppend(Latencies(obs), Milliseconds(o.duration));
    WrapAdd(Sum(Latencies(obs)), Milliseconds(o.duration));
    MeansAppended(obs, o);
  }

  lemma OfToolAppended(tool: string, history: seq<Observation>, o: Observation)
    ensures OfTool(tool, history + [o]) == if o.tool == tool then OfTool(tool, history) + [o] else OfTool(tool, history)
  {
    assert (history + [o])[..|history|] == history;
  }

  lemma ObservedAppended(tools: set<string>, history: seq<Observation>, o: Observation)
    requires Observed(tools, history)
    ensures Observed(tools + {o.tool}, history + [o])
  {
    hide OfTool;
    forall t ensures t in tools + {o.tool} <==> OfTool(t, history + [o]) != [] {
      OfToolAppended(t, history, o);
    }
  }

  /** How one more observation extends what the history determines. */
  lemma Appended(obs: seq<Observation>, o: Observation)
    ensures Latencies(obs + [o]) == Latencies(obs) + [Milliseconds(o.duration)]
    ensures Failures(obs + [o]) == Failures(obs) + (if o.success then 0 else 1)
    ensures Confidences(obs + [o]) ==
            if o.confidence.Some? then Confidences(obs) + [o.confidence.value] else Confidences(obs)
    ensures Sum(Latencies(obs + [o])) == Sum(Latencies(obs)) + Milliseconds(o.duration)
    ensures SumReal(Confidences(obs + [o])) ==
            SumReal(Confidences(obs)) + (if o.confidence.Some? then o.confidence.value else 0.0)
  {
    var l, x := Latencies(obs), Milliseconds(o.duration);
    assert (obs + [o])[..|obs|] == obs;
    assert (l + [x])[..|l|] == l;
    var c := Confidences(obs);
    if o.confidence.Some? {
      assert (c + [o.confidence.value])[..|c|] == c;
    } else {
      assert c + [] == c;
    }
  }

  // ----- What the recomputed statistics mean -----

  /** A million calls of any representable duration never wrap the running total. */
  const NO_WRAP_CALLS: nat := 1_000_000

  lemma {:induction false} SumBounds(s: seq<int>, low: int, high: int)
    requires forall i :: 0 <= i < |s| ==> low <= s[i] <= high
    ensures |s| * low <= Sum(s) <= |s| * high
  {
    if s != [] {
      SumBounds(s[..|s| - 1], low, high);
      assert |s| * low == (|s| - 1) * low + low && |s| * high == (|s| - 1) * high + high;
    }
  }

  lemma MillisecondsBounds(duration: int)
    requires Fits(duration)
    ensures -9_223_372_036_854 <= Milliseconds(duration) <= 9_223_372_036_854
  {
  }

  /** Within a million calls the average shown is the exact truncated mean. */
  lemma AverageIsExact(obs: seq<Observation>)
    requires 0 < |obs| <= NO_WRAP_CALLS && forall i :: 0 <= i < |obs| ==> Fits(obs[i].duration)
    ensures StatsOf(obs).averageLatencyMs == TruncDiv(Sum(Latencies(obs)), |obs|)
  {
    hide *;
    LatenciesBounded(obs);
    SumBounds(Latencies(obs), -9_223_372_036_854, 9_223_372_036_854);
    ExactMean(obs);
  }

  lemma LatenciesBounded(obs: seq<Observation>)
    requires forall i :: 0 <= i < |obs| ==> Fits(obs[i].duration)
    ensures |Latencies(obs)| == |obs|
    ensures forall i :: 0 <= i < |obs| ==> -9_223_372_036_854 <= Latencies(obs)[i] <= 9_223_372_036_854
  {
    hide Milliseconds, Fits, Latencies;
    forall i | 0 <= i < |obs| ensures -9_223_372_036_854 <= Latencies(obs)[i] <= 9_223_372_036_854 {
      MillisecondsBounds(obs[i].duration);
    }
  }

  lemma ExactMean(obs: seq<Observation>)
    requires 0 < |obs| <= NO_WRAP_CALLS
    requires |obs| * -9_223_372_036_854 <= Sum(Latencies(obs)) <= |obs| * 9_223_372_036_854
    ensures StatsOf(obs).averageLatencyMs == TruncDiv(Sum(Latencies(obs)), |obs|)
  {
    hide Latencies, Sum, TruncDiv, Confidences, SumReal, P95, Window, Failures, SortInts;
    MulMonotone(|obs|, NO_WRAP_CALLS, 9_223_372_036_854);
    assert Fits(Sum(Latencies(obs)));
  }

  /** For any number of calls: the average is the truncated mean exactly when the total fits int64. */
  lemma AverageExactIff(obs: seq<Observation>)
    requires 0 < |obs| <= MAX
    ensures StatsOf(obs).averageLatencyMs == TruncDiv(Sum(Latencies(obs)), |obs|) <==> Fits(Sum(Latencies(obs)))
  {
    hide Latencies, Sum, TruncDiv, Wrap, Confidences, SumReal, P95, Window, Failures, SortInts, Fits;
    WrappedQuotient(Sum(Latencies(obs)), |obs|);
  }

  /** The average lies between the fastest and the slowest call. */
  lemma AverageWithinRange(obs: seq<Observation>, low: int, high: int)
    requires 0 < |obs| <= NO_WRAP_CALLS && forall i :: 0 <= i < |obs| ==> Fits(obs[i].duration)
    requires forall i :: 0 <= i < |obs| ==> low <= Milliseconds(obs[i].duration) <= high
    ensures low <= StatsOf(obs).averageLatencyMs <= high
  {
    AverageIsExact(obs);
    SumBounds(Latencies(obs), low, high);
    TruncDivBounds(Sum(Latencies(obs)), |obs|, low, high);
  }

  /** The shown percentile is that of the last 2000 latencies, or of all if there are fewer. */
  lemma P95IsRanked(obs: seq<Observation>, w: seq<int>)
    requires |w| == (if |obs| < 2000 then |obs| else 2000)
    requires forall i :: 0 <= i < |w| ==> w[i] == Milliseconds(obs[|obs| - |w| + i].duration)
    ensures IsP95(w, StatsOf(obs).p95LatencyMs)
  {
    var l := Latencies(obs);
    hide Latencies, Window, P95, IsP95, MeanLatency, Confidences, MeanConfidence, Failures, LastAt, Milliseconds;
    WindowElements(l);
    assert w == Window(l);
    if w != [] { P95InValues(w); } else { NoP95(); }
  }

  lemma NoP95()
    ensures P95([]) == 0 && IsP95([], 0)
  {
  }

  lemma WindowElements(s: seq<int>)
    ensures var w := Window(s);
            && |w| == (if |s| < WINDOW then |s| else WINDOW)
            && forall i :: 0 <= i < |w| ==> w[i] == s[|s| - |w| + i]
  {
  }

  lemma P95InValues(w: seq<int>)
    requires w != []
    ensures IsP95(w, P95(w))
  {
    hide HasRank, SortInts;
    var r := Rank95(|w|);
    SortedIndexHasRank(w, r);
    assert SortInts(w)[r] in multiset(SortInts(w));
    assert HasRank(w, r, P95(w)) && 100 * r <= 95 * (|w| - 1) < 100 * (r + 1);
  }

  predicate Erred(o: Observation) { !o.success }

  predicate Sampled(o: Observation) { o.confidence.Some? }

  lemma {:induction false} FailuresAreCounted(obs: seq<Observation>)
    ensures Failures(obs) == Count(Erred, obs)
    ensures |Confidences(obs)| == Count(Sampled, obs)
  {
    if obs != [] {
      var n := |obs| - 1;
      FailuresAreCounted(obs[..n]);
      CountSnoc(Erred, obs[..n], obs[n]);
      CountSnoc(Sampled, obs[..n], obs[n]);
      assert obs == obs[..n] + [obs[n]];
    }
  }

  /** What the counters count: calls, failed calls, calls with a confidence, and the last time. */
  lemma CountersCount(obs: seq<Observation>)
    ensures var s := StatsOf(obs);
            && s.calls == |obs|
            && s.errors == |set i | 0 <= i < |obs| && !obs[i].success|
            && s.confidenceSamples == |set i | 0 <= i < |obs| && obs[i].confidence.Some?|
            && (obs != [] ==> s.lastObservedAt == obs[|obs| - 1].at)
  {
    hide P95, Window, Latencies, MeanLatency, MeanConfidence, Confidences, Failures, Count;
    FailuresAreCounted(obs);
    var failed := CountIs(Erred, obs);
    var sampled := CountIs(Sampled, obs);
    assert failed == set i | 0 <= i < |obs| && !obs[i].success;
    assert sampled == set i | 0 <= i < |obs| && obs[i].confidence.Some?;
  }

  lemma {:induction false} SumRealBounds(s: seq<real>)
    requires forall i :: 0 <= i < |s| ==> 0.0 <= s[i] <= 1.0
    ensures 0.0 <= SumReal(s) <= |s| as real
  {
    if s != [] { SumRealBounds(s[..|s| - 1]); }
  }

  /** Averages of confidences are confidences. */
  lemma AverageConfidenceInUnit(obs: seq<Observation>)
    requires forall i :: 0 <= i < |obs| && obs[i].confidence.Some? ==> 0.0 <= obs[i].confidence.value <= 1.0
    ensures 0.0 <= StatsOf(obs).averageConfidence <= 1.0
  {
    var c := Confidences(obs);
    ConfidencesInUnit(obs);
    SumRealBounds(c);
    if c != [] { QuotientInUnit(SumReal(c), |c| as real); }
  }

  /** The average confidence lies between the least and the greatest sampled one. */
  lemma ConfidenceWithin(obs: seq<Observation>, low: real, high: real)
    requires exists i :: 0 <= i < |obs| && obs[i].confidence.Some?
    requires forall i :: 0 <= i < |obs| && obs[i].confidence.Some? ==> low <= obs[i].confidence.value <= high
    ensures low <= StatsOf(obs).averageConfidence <= high
  {
    hide P95, Window, Latencies, MeanLatency, Confidences, SumReal, Failures, LastAt;
    var c := Confidences(obs);
    ConfidencesWithin(obs, low, high);
    SumRealWithin(c, low, high);
    AverageBetween(SumReal(c), |c|, low, high);
  }

  lemma {:induction false} ConfidencesWithin(obs: seq<Observation>, low: real, high: real)
    requires forall i :: 0 <= i < |obs| && obs[i].confidence.Some? ==> low <= obs[i].confidence.value <= high
    ensures forall k :: 0 <= k < |Confidences(obs)| ==> low <= Confidences(obs)[k] <= high
    ensures (exists i :: 0 <= i < |obs| && obs[i].confidence.Some?) ==> Confidences(obs) != []
  {
    if obs != [] { ConfidencesWithin(obs[..|obs| - 1], low, high); }
  }

  lemma {:induction false} SumRealWithin(s: seq<real>, low: real, high: real)
    requires forall i :: 0 <= i < |s| ==> low <= s[i] <= high
    ensures low * |s| as real <= SumReal(s) <= high * |s| as real
  {
    if s != [] {
      SumRealWithin(s[..|s| - 1], low, high);
      assert low * |s| as real == low * (|s| - 1) as real + low;
      assert high * |s| as real == high * (|s| - 1) as real + high;
    }
  }

  lemma AverageBetween(total: real, n: nat, low: real, high: real)
    requires n > 0 && low * n as real <= total <= high * n as real
    ensures low <= Average(total, n) <= high
  {
    hide Average;
    var q := Average(total, n);
    AverageTimes(total, n);
    if q < low { TimesMonotone(q, low, n as real); }
    if high < q { TimesMonotone(high, q, n as real); }
  }

  lemma AverageTimes(total: real, n: nat)
    requires n > 0
    ensures Average(total, n) * n as real == total
  {
  }

  lemma TimesMonotone(x: real, y: real, n: real)
    requires x < y && 0.0 < n
    ensures x * n < y * n
  {
  }

  lemma {:induction false} ConfidencesInUnit(obs: seq<Observation>)
    requires forall i :: 0 <= i < |obs| && obs[i].confidence.Some? ==> 0.0 <= obs[i].confidence.value <= 1.0
    ensures forall i :: 0 <= i < |Confidences(obs)| ==> 0.0 <= Confidences(obs)[i] <= 1.0
  {
    if obs != [] { ConfidencesInUnit(obs[..|obs| - 1]); }
  }

  lemma QuotientInUnit(x: real, n: real)
    requires 0.0 <= x <= n && 0.0 < n
    ensures 0.0 <= x / n <= 1.0
  {
  }

  /** Every observation is counted for exactly one tool. */
  function CallsOf(tools: seq<string>, history: seq<Observation>): nat {
    if tools == [] then 0 else |OfTool(tools[0], history)| + CallsOf(tools[1..], history)
  }

  predicate Distinct(tools: seq<string>) {
    forall i, j :: 0 <= i < j < |tools| ==> tools[i] != tools[j]
  }

  lemma {:induction false} CallsOfAppended(tools: seq<string>, history: seq<Observation>, o: Observation)
    requires Distinct(tools)
    ensures CallsOf(tools, history + [o]) == CallsOf(tools, history) + (if o.tool in tools then 1 else 0)
  {
    if tools != [] {
      CallsOfAppended(tools[1..], history, o);
      OfToolAppended(tools[0], history, o);
      assert tools == [tools[0]] + tools[1..];
    }
  }

  /** The calls shown for all tools add up to the number of observations. */
  lemma {:induction false} CallsAddUp(tools: seq<string>, history: seq<Observation>)
    requires Distinct(tools) && forall i :: 0 <= i < |history| ==> history[i].tool in tools
    ensures CallsOf(tools, history) == |history|
  {
    if history == [] {
      NoCalls(tools);
    } else {
      var n := |history| - 1;
      CallsAddUp(tools, history[..n]);
      CallsOfAppended(tools, history[..n], history[n]);
      assert history == history[..n] + [history[n]];
    }
  }

  lemma NoCalls(tools: seq<string>)
    ensures CallsOf(tools, []) == 0
  {
  }
}
