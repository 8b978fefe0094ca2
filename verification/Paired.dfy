/** Paired comparison of two runs over the same items, with a bootstrap interval for the difference. */
module Paired {
  import opened Wrappers
  import opened Arith
  import opened Sorting
  import opened Bootstrap
  import S = Statistics

  datatype Pair = Pair(baseline: real, candidate: real, weight: real)

  datatype Decision = InsufficientSample | Improved | Regressed | Inconclusive

  datatype Comparison = Comparison(baseline: real, candidate: real, delta: real, relative: Option<real>, samples: nat,
                                   interval: Option<Interval>, decision: Decision)

  function Baselines(pairs: seq<Pair>): seq<S.Observation> {
    seq(|pairs|, i requires 0 <= i < |pairs| => S.Observation(pairs[i].baseline, pairs[i].weight))
  }

  function Candidates(pairs: seq<Pair>): seq<S.Observation> {
    seq(|pairs|, i requires 0 <= i < |pairs| => S.Observation(pairs[i].candidate, pairs[i].weight))
  }

  function Differences(pairs: seq<Pair>): seq<S.Observation> {
    seq(|pairs|, i requires 0 <= i < |pairs| => S.Observation(pairs[i].candidate - pairs[i].baseline, pairs[i].weight))
  }

  /** Difference of the two weighted means. */
  function Delta(pairs: seq<Pair>): real { S.Value(Candidates(pairs)) - S.Value(Baselines(pairs)) }

  function DeltaOf(pairs: seq<Pair>, draws: Draws): nat -> real
    requires ValidDraws(draws, |pairs|)
  {
    (i: nat) => Delta(Resample(pairs, draws, i))
  }

  function PairedInterval(pairs: seq<Pair>, draws: Draws): Interval
    requires ValidDraws(draws, |pairs|)
  {
    BootstrapInterval(SAMPLES, DeltaOf(pairs, draws))
  }

  function Decide(ci: Interval): Decision {
    if ci.low >= 0.0 then Improved else if ci.high < 0.0 then Regressed else Inconclusive
  }

  function Compare(pairs: seq<Pair>, draws: Draws): Comparison
    requires |pairs| >= 2 ==> ValidDraws(draws, |pairs|)
  {
    var baseline, candidate := S.Value(Baselines(pairs)), S.Value(Candidates(pairs));
    var delta := candidate - baseline;
    var relative := if baseline == 0.0 then None else Some(delta / (if baseline < 0.0 then -baseline else baseline));
    if |pairs| < 2 then Comparison(baseline, candidate, delta, relative, |pairs|, None, InsufficientSample)
    else
      var ci := PairedInterval(pairs, draws);
      Comparison(baseline, candidate, delta, relative, |pairs|, Some(ci), Decide(ci))
  }

  // ---------- the delta is a mean of differences ----------

  lemma {:induction false} SumsOfDifferences(pairs: seq<Pair>)
    ensures S.TotalWeight(Candidates(pairs)) == S.TotalWeight(Baselines(pairs)) == S.TotalWeight(Differences(pairs))
    ensures S.WeightedSum(Candidates(pairs)) - S.WeightedSum(Baselines(pairs)) == S.WeightedSum(Differences(pairs))
  {
    if pairs != [] {
      var n := |pairs| - 1;
      var front, last := pairs[..n], pairs[n];
      SumsOfDifferences(front);
      assert Candidates(pairs)[..n] == Candidates(front);
      assert Baselines(pairs)[..n] == Baselines(front);
      assert Differences(pairs)[..n] == Differences(front);
      Distribute(S.Weight(S.Observation(0.0, last.weight)), last.candidate, last.baseline);
    }
  }

  /** The difference of the two means is the weighted mean of the per-pair differences. */
  lemma DeltaIsMeanDifference(pairs: seq<Pair>)
    ensures Delta(pairs) == S.Value(Differences(pairs))
  {
    SumsOfDifferences(pairs);
    var t := S.TotalWeight(Differences(pairs));
    if t > 0.0 {
      S.QuotientSubtract(S.WeightedSum(Candidates(pairs)), S.WeightedSum(Baselines(pairs)), t);
    }
  }

  lemma DeltaBetween(pairs: seq<Pair>, lo: real, hi: real)
    requires pairs != [] && forall i | 0 <= i < |pairs| :: lo <= pairs[i].candidate - pairs[i].baseline <= hi
    ensures lo <= Delta(pairs) <= hi
  {
    DeltaIsMeanDifference(pairs);
    S.ValueBetween(Differences(pairs), lo, hi);
  }

  /** For every random stream the interval is ordered and lies between any bounds on the per-pair differences. */
  lemma IntervalBetween(pairs: seq<Pair>, draws: Draws, lo: real, hi: real)
    requires pairs != [] && ValidDraws(draws, |pairs|)
    requires forall i | 0 <= i < |pairs| :: lo <= pairs[i].candidate - pairs[i].baseline <= hi
    ensures var ci := PairedInterval(pairs, draws); lo <= ci.low <= ci.high <= hi
  {
    var statistic := DeltaOf(pairs, draws);
    forall i: nat ensures lo <= statistic(i) <= hi {
      DeltaBetween(Resample(pairs, draws, i), lo, hi);
    }
    BootstrapBetween(SAMPLES, statistic, lo, hi);
  }

  /** The least and the greatest per-pair difference. */
  lemma Extremes(pairs: seq<Pair>) returns (lo: real, hi: real)
    requires pairs != []
    ensures forall i | 0 <= i < |pairs| :: lo <= pairs[i].candidate - pairs[i].baseline <= hi
    ensures exists i :: 0 <= i < |pairs| && hi == pairs[i].candidate - pairs[i].baseline
  {
    lo, hi := pairs[0].candidate - pairs[0].baseline, pairs[0].candidate - pairs[0].baseline;
    for k := 1 to |pairs|
      invariant forall i | 0 <= i < k :: lo <= pairs[i].candidate - pairs[i].baseline <= hi
      invariant exists i :: 0 <= i < k && hi == pairs[i].candidate - pairs[i].baseline
    {
      var d := pairs[k].candidate - pairs[k].baseline;
      if d < lo { lo := d; }
      if d > hi { hi := d; }
    }
  }

  /** A candidate that is nowhere worse is always reported as improved; this includes an identical one. */
  lemma NowhereWorseImproves(pairs: seq<Pair>, draws: Draws)
    requires |pairs| >= 2 && ValidDraws(draws, |pairs|)
    requires forall i | 0 <= i < |pairs| :: pairs[i].candidate >= pairs[i].baseline
    ensures Compare(pairs, draws).decision == Improved
  {
    var lo, hi := Extremes(pairs);
    IntervalBetween(pairs, draws, 0.0, hi);
  }

  /** A candidate that is everywhere worse is always reported as regressed. */
  lemma EverywhereWorseRegresses(pairs: seq<Pair>, draws: Draws)
    requires |pairs| >= 2 && ValidDraws(draws, |pairs|)
    requires forall i | 0 <= i < |pairs| :: pairs[i].candidate < pairs[i].baseline
    ensures Compare(pairs, draws).decision == Regressed
  {
    var lo, hi := Extremes(pairs);
    IntervalBetween(pairs, draws, lo, hi);
  }

  /** A constant shift leaves nothing to chance. */
  lemma ConstantShift(pairs: seq<Pair>, draws: Draws, c: real)
    requires |pairs| >= 2 && ValidDraws(draws, |pairs|)
    requires forall i | 0 <= i < |pairs| :: pairs[i].candidate - pairs[i].baseline == c
    ensures Compare(pairs, draws).delta == c
    ensures Compare(pairs, draws).interval == Some(Interval(c, c))
    ensures Compare(pairs, draws).decision == if c >= 0.0 then Improved else Regressed
  {
    DeltaBetween(pairs, c, c);
    IntervalBetween(pairs, draws, c, c);
  }

  // ---------- the decision counts resamples ----------

  /** The resamples in which the candidate does worse. */
  function WorseResamples(pairs: seq<Pair>, draws: Draws): set<nat>
    requires ValidDraws(draws, |pairs|)
  {
    set i: nat | i < 2000 && S.Value(Candidates(Resample(pairs, draws, i))) < S.Value(Baselines(Resample(pairs, draws, i)))
  }

  lemma IntervalSigns(pairs: seq<Pair>, draws: Draws)
    requires ValidDraws(draws, |pairs|)
    ensures PairedInterval(pairs, draws).low >= 0.0 <==> |WorseResamples(pairs, draws)| < 50
    ensures PairedInterval(pairs, draws).high < 0.0 <==> |WorseResamples(pairs, draws)| > 1950
  {
    hide BootstrapInterval;
    var statistic := DeltaOf(pairs, draws);
    BoundsByCounting(statistic, 0.0);
    assert WorseResamples(pairs, draws) == set i: nat | i < 2000 && statistic(i) < 0.0;
  }

  /** The decision counts: fewer than 50 of the 2000 resamples in which the candidate does worse make an improvement,
      more than 1950 a regression, and one pair is never enough. */
  lemma DecisionExactlyWhen(pairs: seq<Pair>, draws: Draws)
    requires |pairs| >= 2 ==> ValidDraws(draws, |pairs|)
    ensures var decision := Compare(pairs, draws).decision;
            && (decision == InsufficientSample <==> |pairs| < 2)
            && (|pairs| >= 2 ==>
                  var worse := |WorseResamples(pairs, draws)|;
                  && (decision == Improved <==> worse < 50)
                  && (decision == Regressed <==> worse > 1950)
                  && (decision == Inconclusive <==> 50 <= worse <= 1950))
  {
    hide PairedInterval, WorseResamples;
    if |pairs| >= 2 { IntervalSigns(pairs, draws); }
  }

  // ---------- exchanging the runs ----------

  function Swapped(pairs: seq<Pair>): seq<Pair> {
    seq(|pairs|, i requires 0 <= i < |pairs| => Pair(pairs[i].candidate, pairs[i].baseline, pairs[i].weight))
  }

  /** Negated and in reverse order. */
  function NegRev(s: seq<real>): seq<real> {
    seq(|s|, i requires 0 <= i < |s| => -s[|s| - 1 - i])
  }

  lemma {:induction false} NegRevMultiplicity(s: seq<real>, x: real)
    ensures multiset(NegRev(s))[x] == multiset(s)[-x]
  {
    if s != [] {
      var front, last := s[..|s| - 1], s[|s| - 1];
      NegRevMultiplicity(front, x);
      assert s == front + [last];
      assert NegRev(s) == [-last] + NegRev(front);
      assert multiset(NegRev(s)) == multiset{-last} + multiset(NegRev(front));
    }
  }

  function Negated(s: seq<real>): seq<real> { seq(|s|, i requires 0 <= i < |s| => -s[i]) }

  lemma {:induction false} NegatedMultiplicity(s: seq<real>, x: real)
    ensures multiset(Negated(s))[x] == multiset(s)[-x]
  {
    if s != [] {
      var front, last := s[..|s| - 1], s[|s| - 1];
      NegatedMultiplicity(front, x);
      assert s == front + [last];
      assert Negated(s) == Negated(front) + [-last];
    }
  }

  /** Sorting negated values is reversing the sorted ones. */
  lemma SortNegated(s: seq<real>)
    ensures Sort(Negated(s), RealLe) == NegRev(Sort(s, RealLe))
  {
    var sorted := Sort(s, RealLe);
    var a, b := Sort(Negated(s), RealLe), NegRev(sorted);
    SortSorts(s, RealLe);
    SortSorts(Negated(s), RealLe);
    forall x ensures multiset(a)[x] == multiset(b)[x] {
      NegatedMultiplicity(s, x);
      NegRevMultiplicity(sorted, x);
    }
    assert multiset(a) == multiset(b);
    forall i, j | 0 <= i < j < |b| ensures RealLe(b[i], b[j]) {
      assert RealLe(sorted[|b| - 1 - j], sorted[|b| - 1 - i]);
    }
    SortedUnique(a, b, RealLe);
  }

  lemma DeltaSwapped(pairs: seq<Pair>)
    ensures Delta(Swapped(pairs)) == -Delta(pairs)
  {
    assert Baselines(Swapped(pairs)) == Candidates(pairs) && Candidates(Swapped(pairs)) == Baselines(pairs);
  }

  /** With the same random stream, exchanging baseline and candidate mirrors the interval about zero; a strictly
      positive interval becomes a regression. */
  lemma ExchangeMirrors(pairs: seq<Pair>, draws: Draws)
    requires |pairs| >= 2 && ValidDraws(draws, |pairs|)
    ensures var ci, mirrored := PairedInterval(pairs, draws), PairedInterval(Swapped(pairs), draws);
            && mirrored == Interval(-ci.high, -ci.low)
            && (Decide(mirrored) == Regressed <==> ci.low > 0.0)
            && (Decide(ci) == Regressed ==> Decide(mirrored) == Improved)
  {
    hide Sort, DeltaOf, LowIndex, HighIndex;
    var stats := Statistics(SAMPLES, DeltaOf(pairs, draws));
    SwappedStatistics(pairs, draws, SAMPLES);
    SortNegated(stats);
    SampleIndices();
    SortSorts(stats, RealLe);
    var sorted := Sort(stats, RealLe);
    assert RealLe(sorted[49], sorted[1950]);
  }

  lemma SwappedStatistics(pairs: seq<Pair>, draws: Draws, n: nat)
    requires ValidDraws(draws, |pairs|)
    ensures Statistics(n, DeltaOf(Swapped(pairs), draws)) == Negated(Statistics(n, DeltaOf(pairs, draws)))
  {
    forall i: nat ensures DeltaOf(Swapped(pairs), draws)(i) == -DeltaOf(pairs, draws)(i) {
      var r := Resample(pairs, draws, i);
      assert Resample(Swapped(pairs), draws, i) == Swapped(r);
      DeltaSwapped(r);
    }
  }

  // ---------- the program ----------

  lemma PairSums(pairs: seq<Pair>, i: nat)
    requires i < |pairs|
    ensures Baselines(pairs[..i + 1]) == Baselines(pairs[..i]) + [S.Observation(pairs[i].baseline, pairs[i].weight)]
    ensures Candidates(pairs[..i + 1]) == Candidates(pairs[..i]) + [S.Observation(pairs[i].candidate, pairs[i].weight)]
  {
  }

  lemma SumAppend(obs: seq<S.Observation>, o: S.Observation)
    ensures S.WeightedSum(obs + [o]) == S.WeightedSum(obs) + o.value * S.Weight(o)
    ensures S.TotalWeight(obs + [o]) == S.TotalWeight(obs) + S.Weight(o)
  {
    assert (obs + [o])[..|obs|] == obs;
  }

  lemma NoSums()
    ensures S.WeightedSum([]) == 0.0 && S.TotalWeight([]) == 0.0
  {
  }

  /** The two weighted means of some pairs; nonpositive weights count as 1. */
  method Means(pairs: seq<Pair>) returns (baseline: real, candidate: real)
    ensures baseline == S.Value(Baselines(pairs)) && candidate == S.Value(Candidates(pairs))
  {
    hide S.WeightedAverage, S.WeightedSum, S.TotalWeight;
    NoSums();
    assert Baselines(pairs[..0]) == [] && Candidates(pairs[..0]) == [];
    var baselineSum, candidateSum, totalWeight := 0.0, 0.0, 0.0;
    for i := 0 to |pairs|
      invariant baselineSum == S.WeightedSum(Baselines(pairs[..i]))
      invariant candidateSum == S.WeightedSum(Candidates(pairs[..i]))
      invariant totalWeight == S.TotalWeight(Baselines(pairs[..i]))
    {
      var pair := pairs[i];
      var weight := pair.weight;
      if weight <= 0.0 {
        weight := 1.0;
      }
      PairSums(pairs, i);
      SumAppend(Baselines(pairs[..i]), S.Observation(pair.baseline, pair.weight));
      SumAppend(Candidates(pairs[..i]), S.Observation(pair.candidate, pair.weight));
      baselineSum := baselineSum + pair.baseline * weight;
      candidateSum := candidateSum + pair.candidate * weight;
      totalWeight := totalWeight + weight;
    }
    assert pairs[..|pairs|] == pairs;
    SumsOfDifferences(pairs);
    baseline := S.WeightedAverage(baselineSum, totalWeight);
    candidate := S.WeightedAverage(candidateSum, totalWeight);
  }

  method BootstrapPairedDelta(pairs: seq<Pair>, draws: Draws) returns (ci: Interval)
    requires pairs != [] && ValidDraws(draws, |pairs|)
    ensures ci == PairedInterval(pairs, draws)
  {
    var deltas: seq<real> := [];
    for iteration := 0 to SAMPLES
      invariant deltas == Statistics(iteration, DeltaOf(pairs, draws))
    {
      var sample: seq<Pair> := [];
      for k := 0 to |pairs|
        invariant sample == Resample(pairs, draws, iteration)[..k]
      {
        sample := sample + [pairs[draws(iteration, k)]];
      }
      assert sample == Resample(pairs, draws, iteration);
      var baseline, candidate := Means(sample);
      assert DeltaOf(pairs, draws)(iteration) == candidate - baseline;
      deltas := deltas + [candidate - baseline];
    }
    IndicesInRange(SAMPLES);
    var sorted := Sort(deltas, RealLe);
    ci := Interval(sorted[LowIndex(|deltas|)], sorted[HighIndex(|deltas|)]);
  }

  method SummarizePairedMetric(pairs: seq<Pair>, draws: Draws) returns (c: Comparison)
    requires |pairs| >= 2 ==> ValidDraws(draws, |pairs|)
    ensures c == Compare(pairs, draws)
    ensures c.samples == |pairs| && c.delta == c.candidate - c.baseline
    ensures c.relative == None <==> c.baseline == 0.0
    ensures c.relative.Some? ==> c.relative.value == c.delta / if c.baseline > 0.0 then c.baseline else -c.baseline
  {
    var baseline, candidate := Means(pairs);
    var delta := candidate - baseline;
    var relative: Option<real> := None;
    if baseline != 0.0 {
      relative := Some(delta / (if baseline < 0.0 then -baseline else baseline));
    }
    if |pairs| < 2 {
      return Comparison(baseline, candidate, delta, relative, |pairs|, None, InsufficientSample);
    }
    var ci := BootstrapPairedDelta(pairs, draws);
    var decision := Inconclusive;
    if ci.low >= 0.0 {
      decision := Improved;
    } else if ci.high < 0.0 {
      decision := Regressed;
    }
    c := Comparison(baseline, candidate, delta, relative, |pairs|, Some(ci), decision);
  }
}
