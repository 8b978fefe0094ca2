/** Percentile bootstrap: sort the statistic of many resamples and read two of them off. */
module Bootstrap {
  import opened Sorting

  datatype Interval = Interval(low: real, high: real)

  const SAMPLES := 2000

  /** `draws(i, k)` is the index the random stream yields for position `k` of resample `i`. */
  type Draws = (nat, nat) -> nat

  ghost predicate ValidDraws(draws: Draws, n: nat) {
    forall i, k :: draws(i, k) < n
  }

  function Resample<T>(s: seq<T>, draws: Draws, i: nat): seq<T>
    requires ValidDraws(draws, |s|)
  {
    seq(|s|, k requires 0 <= k < |s| => s[draws(i, k)])
  }

  predicate RealLe(a: real, b: real) { a <= b }

  function LowIndex(n: nat): int { ((n - 1) as real * 0.025).Floor }

  function HighIndex(n: nat): int { -(-((n - 1) as real * 0.975)).Floor }

  lemma IndicesInRange(n: nat)
    requires n > 0
    ensures 0 <= LowIndex(n) <= HighIndex(n) < n
  {
  }

  function Statistics(n: nat, statistic: nat -> real): seq<real> {
    seq(n, i requires 0 <= i < n => statistic(i))
  }

  /** The interval of `n` resamples. */
  function BootstrapInterval(n: nat, statistic: nat -> real): Interval
    requires n > 0
  {
    IndicesInRange(n);
    var sorted := Sort(Statistics(n, statistic), RealLe);
    Interval(sorted[LowIndex(n)], sorted[HighIndex(n)])
  }

  /** The interval is ordered and stays between any bounds on the resampled statistic. */
  lemma BootstrapBetween(n: nat, statistic: nat -> real, lo: real, hi: real)
    requires n > 0 && forall i: nat :: lo <= statistic(i) <= hi
    ensures var ci := BootstrapInterval(n, statistic); lo <= ci.low <= ci.high <= hi
  {
    var stats := Statistics(n, statistic);
    var sorted := Sort(stats, RealLe);
    SortSorts(stats, RealLe);
    IndicesInRange(n);
    forall i | 0 <= i < n ensures lo <= sorted[i] <= hi {
      assert sorted[i] in multiset(stats);
    }
    var l, h := LowIndex(n), HighIndex(n);
    if l < h { assert RealLe(sorted[l], sorted[h]); }
  }

  function Below(c: real): real -> bool { (x: real) => x < c }

  /** In sorted order the values below a bound come first. */
  lemma SortedBelow(s: seq<real>, j: nat, c: real)
    requires Sorted(s, RealLe) && j < |s|
    ensures s[j] < c <==> j < CountIf(s, Below(c))
  {
    hide CountIf;
    var k := if s[j] < c then j + 1 else j;
    var front, back := s[..k], s[k..];
    assert s == front + back;
    CountIfConcat(front, back, Below(c));
    if s[j] < c {
      forall i | 0 <= i < |front| ensures front[i] < c { assert i < j ==> RealLe(s[i], s[j]); }
      CountIfAll(front, Below(c), true);
    } else {
      forall i | 0 <= i < |back| ensures back[i] >= c { assert i > 0 ==> RealLe(s[j], s[j + i]); }
      CountIfAll(back, Below(c), false);
      CountIfMono(front, Below(c), Below(c));
    }
  }

  lemma SampleIndices()
    ensures LowIndex(SAMPLES) == 49 && HighIndex(SAMPLES) == 1950
  {
  }

  /** Of the 2000 resamples the low bound is the 50th smallest and the high bound the 1951st: each lies below a given
      number exactly when so many of the resampled statistics do. */
  lemma BoundsByCounting(statistic: nat -> real, c: real)
    ensures var ci, below := BootstrapInterval(SAMPLES, statistic), |set i: nat | i < 2000 && statistic(i) < c|;
            (ci.low < c <==> below >= 50) && (ci.high < c <==> below >= 1951)
  {
    hide Sort, LowIndex, HighIndex, CountIf;
    var stats := Statistics(SAMPLES, statistic);
    var sorted := Sort(stats, RealLe);
    SampleIndices();
    SortSorts(stats, RealLe);
    CountIfPermutation(sorted, stats, Below(c));
    CountIfSize(stats, Below(c));
    assert Positions(stats, Below(c)) == set i: nat | i < 2000 && statistic(i) < c;
    SortedBelow(sorted, 49, c);
    SortedBelow(sorted, 1950, c);
  }
}
