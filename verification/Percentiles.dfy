/** Nearest-rank percentiles of latencies, plain and weighted. */
module Percentiles {
  import opened Arith
  import opened Reals
  import opened Sorting

  function Ceil(x: real): int { -((-x).Floor) }

  function CountAtMost(values: seq<int>, v: int): nat { CountIf(values, x => x <= v) }

  predicate IntLe(a: int, b: int) { a <= b }

  /** `v` is the least value of which at least the share `p` of all values is no greater. */
  ghost predicate IsPercentile(values: seq<int>, p: real, v: int) {
    && v in values
    && CountAtMost(values, v) as real >= p * |values| as real
    && forall u | u in values && u < v :: (CountAtMost(values, u) as real) < p * |values| as real
  }

  /** A higher percentile is never smaller: a report's p95 is at least its p50. */
  lemma PercentilesIncrease(values: seq<int>, p: real, q: real, v: int, w: int)
    requires IsPercentile(values, p, v) && IsPercentile(values, q, w) && p <= q
    ensures v <= w
  {
    MonoOf(p, q, |values| as real, p * |values| as real, q * |values| as real);
  }

  lemma SortedCount(sorted: seq<int>, k: nat)
    requires Sorted(sorted, IntLe) && k < |sorted|
    ensures CountAtMost(sorted, sorted[k]) >= k + 1
    ensures forall u | u < sorted[k] :: CountAtMost(sorted, u) <= k
  {
    var p, front := x => x <= sorted[k], sorted[..k + 1];
    assert sorted == front + sorted[k + 1..];
    CountIfConcat(front, sorted[k + 1..], p);
    forall i | 0 <= i < |front| ensures p(front[i]) {
      if i < k { assert IntLe(sorted[i], sorted[k]); }
    }
    CountIfAll(front, p, true);
    forall u | u < sorted[k] { SortedCountBelow(sorted, k, u); }
  }

  lemma SortedCountBelow(sorted: seq<int>, k: nat, u: int)
    requires Sorted(sorted, IntLe) && k < |sorted| && u < sorted[k]
    ensures CountAtMost(sorted, u) <= k
  {
    var p := x => x <= u;
    assert sorted == sorted[..k] + sorted[k..];
    CountIfConcat(sorted[..k], sorted[k..], p);
    forall i | 0 <= i < |sorted| - k ensures !p(sorted[k..][i]) {
      if i > 0 { assert IntLe(sorted[k], sorted[k + i]); }
    }
    CountIfAll(sorted[k..], p, false);
    CountIfMono(sorted[..k], p, p);
  }

  lemma CountAtMostPermutation(a: seq<int>, b: seq<int>)
    requires multiset(a) == multiset(b)
    ensures forall u :: CountAtMost(a, u) == CountAtMost(b, u)
  {
    forall u ensures CountAtMost(a, u) == CountAtMost(b, u) { CountIfPermutation(a, b, x => x <= u); }
  }

  lemma PercentileAt(values: seq<int>, sorted: seq<int>, p: real, pn: real)
    requires p <= 1.0 && values != [] && multiset(sorted) == multiset(values) && Sorted(sorted, IntLe)
    requires |sorted| == |values| && pn == p * |values| as real
    ensures Index(p, |values|) < |sorted| && IsPercentile(values, p, sorted[Index(p, |values|)])
  {
    var k := Index(p, |values|);
    IndexFacts(p, |values|, pn);
    SortedCount(sorted, k);
    CountAtMostPermutation(sorted, values);
    var v := sorted[k];
    assert v in multiset(sorted) && v in multiset(values);
    if k == 0 {
      forall u | u in values ensures u >= sorted[0] {
        assert u in multiset(sorted);
        var i :| 0 <= i < |sorted| && sorted[i] == u;
        assert i > 0 ==> IntLe(sorted[0], sorted[i]);
      }
    }
  }

  /** The index the program takes: ceil(p * n) - 1, never below 0. */
  function Index(p: real, n: nat): int {
    var i := Ceil(p * n as real) - 1;
    if i < 0 then 0 else i
  }

  lemma IndexFacts(p: real, n: nat, pn: real)
    requires p <= 1.0 && n > 0 && pn == p * n as real
    ensures Index(p, n) < n
    ensures pn <= (Index(p, n) + 1) as real
    ensures Index(p, n) > 0 ==> Index(p, n) as real < pn
  {
    MonoOf(p, 1.0, n as real, pn, n as real);
  }

  method PercentileMilliseconds(values: seq<int>, percentile: real) returns (v: int)
    requires percentile <= 1.0
    ensures values == [] ==> v == 0
    ensures values != [] ==> IsPercentile(values, percentile, v)
  {
    if values == [] {
      return 0;
    }
    var sorted := Sort(values, IntLe);
    SortSorts(values, IntLe);
    PercentileAt(values, sorted, percentile, percentile * |values| as real);
    v := sorted[Index(percentile, |values|)];
  }

  // ---------- weighted ----------

  datatype WeightedLatency = WeightedLatency(value: int, weight: real)

  predicate ByValue(a: WeightedLatency, b: WeightedLatency) { a.value <= b.value }

  function Part(x: WeightedLatency, p: WeightedLatency -> bool): real {
    if p(x) && x.weight > 0.0 then x.weight else 0.0
  }

  function PartOf(p: WeightedLatency -> bool): WeightedLatency -> real { (x: WeightedLatency) => Part(x, p) }

  /** Total of the positive weights of the entries that satisfy `p`; other weights count nothing. */
  function WeightIf(s: seq<WeightedLatency>, p: WeightedLatency -> bool): real {
    SumBy(s, PartOf(p))
  }

  function Total(s: seq<WeightedLatency>): real { WeightIf(s, x => true) }

  function AtMost(v: int): WeightedLatency -> bool { (x: WeightedLatency) => x.value <= v }

  function WeightAtMost(s: seq<WeightedLatency>, v: int): real { WeightIf(s, AtMost(v)) }

  /** `v` is the least observed value whose cumulative weight reaches 95% of the total. */
  ghost predicate IsWeightedP95(values: seq<WeightedLatency>, v: int) {
    && (exists e :: e in values && e.value == v && e.weight > 0.0)
    && WeightAtMost(values, v) >= 0.95 * Total(values)
    && forall u | u < v :: WeightAtMost(values, u) < 0.95 * Total(values)
  }

  lemma WeightIfConcat(a: seq<WeightedLatency>, b: seq<WeightedLatency>, p: WeightedLatency -> bool)
    ensures WeightIf(a + b, p) == WeightIf(a, p) + WeightIf(b, p)
  {
    SumByConcat(a, b, PartOf(p));
  }

  lemma WeightIfPermutation(a: seq<WeightedLatency>, b: seq<WeightedLatency>, p: WeightedLatency -> bool)
    requires multiset(a) == multiset(b)
    ensures WeightIf(a, p) == WeightIf(b, p)
  {
    SumByPermutation(a, b, PartOf(p));
  }

  lemma {:induction false} WeightIfMono(s: seq<WeightedLatency>, p: WeightedLatency -> bool, q: WeightedLatency -> bool)
    requires forall i | 0 <= i < |s| :: p(s[i]) && s[i].weight > 0.0 ==> q(s[i])
    ensures 0.0 <= WeightIf(s, p) <= WeightIf(s, q)
  {
    if s != [] { WeightIfMono(s[..|s| - 1], p, q); }
  }

  /** Where the scan stops: before it less than 95% had been seen, with it at least that. */
  lemma ScanStop(cp: seq<WeightedLatency>, k: nat)
    requires Sorted(cp, ByValue) && k < |cp| && cp[k].weight > 0.0
    requires Total(cp[..k]) < 0.95 * Total(cp) <= Total(cp[..k + 1])
    ensures IsWeightedP95(cp, cp[k].value)
  {
    var v := cp[k].value;
    assert cp[k] in cp;
    var le, front := AtMost(v), cp[..k + 1];
    assert cp == front + cp[k + 1..];
    WeightIfConcat(front, cp[k + 1..], le);
    WeightIfMono(cp[k + 1..], le, le);
    forall i | 0 <= i < |front| ensures le(front[i]) {
      if i < k { assert ByValue(cp[i], cp[k]); }
    }
    WeightIfMono(front, x => true, le);
    forall u | u < v { ScanBefore(cp, k, u); }
  }

  lemma ScanBefore(cp: seq<WeightedLatency>, k: nat, u: int)
    requires Sorted(cp, ByValue) && k < |cp| && u < cp[k].value
    ensures WeightAtMost(cp, u) <= Total(cp[..k])
  {
    var le := AtMost(u);
    assert cp == cp[..k] + cp[k..];
    WeightIfConcat(cp[..k], cp[k..], le);
    WeightIfMono(cp[..k], le, x => true);
    forall i | 0 <= i < |cp| - k ensures !le(cp[k..][i]) {
      if i > 0 { assert ByValue(cp[k], cp[k + i]); }
    }
    WeightIfMono(cp[k..], le, x => false);
    WeightIfNone(cp[k..]);
  }

  lemma {:induction false} WeightIfNone(s: seq<WeightedLatency>)
    ensures WeightIf(s, x => false) == 0.0
  {
    if s != [] { WeightIfNone(s[..|s| - 1]); }
  }

  lemma P95Permutation(a: seq<WeightedLatency>, b: seq<WeightedLatency>, v: int)
    requires multiset(a) == multiset(b) && IsWeightedP95(a, v)
    ensures IsWeightedP95(b, v)
  {
    var e :| e in a && e.value == v && e.weight > 0.0;
    assert e in multiset(a) && e in multiset(b);
    WeightIfPermutation(a, b, x => true);
    forall u ensures WeightAtMost(a, u) == WeightAtMost(b, u) { WeightIfPermutation(a, b, AtMost(u)); }
  }

  method TotalWeight(cp: seq<WeightedLatency>) returns (total: real)
    ensures total == Total(cp)
  {
    total := 0.0;
    for i := 0 to |cp|
      invariant total == Total(cp[..i])
    {
      assert cp[..i + 1][..i] == cp[..i];
      if cp[i].weight > 0.0 {
        total := total + cp[i].weight;
      }
    }
    assert cp[..|cp|] == cp;
  }

  method ScanSorted(cp: seq<WeightedLatency>, total: real) returns (v: int)
    requires Sorted(cp, ByValue) && total == Total(cp) > 0.0
    ensures IsWeightedP95(cp, v)
  {
    var threshold := total * 0.95;
    var seen := 0.0;
    assert cp[..|cp|] == cp && cp[..0] == [];
    for i := 0 to |cp|
      invariant seen == Total(cp[..i]) < threshold
    {
      assert cp[..i + 1][..i] == cp[..i];
      if cp[i].weight > 0.0 {
        seen := seen + cp[i].weight;
        if seen >= threshold {
          ScanStop(cp, i);
          return cp[i].value;
        }
      }
    }
    // The threshold is below the total, so the scan has returned: the fallback to the last value is dead code.
    assert false;
  }

  /** Only positive weights count, each in full. */
  lemma {:induction false} TotalIsPositiveWeight(values: seq<WeightedLatency>)
    ensures Total(values) >= 0.0
    ensures Total(values) > 0.0 <==> exists i | 0 <= i < |values| :: values[i].weight > 0.0
    ensures Total(values) == SumBy(values, (x: WeightedLatency) => if x.weight > 0.0 then x.weight else 0.0)
  {
    if values != [] {
      var front, last := values[..|values| - 1], values[|values| - 1];
      TotalIsPositiveWeight(front);
      if i :| 0 <= i < |front| && front[i].weight > 0.0 { assert values[i] == front[i]; }
      assert forall i | 0 <= i < |front| :: values[i] == front[i];
    }
  }

  method WeightedP95(values: seq<WeightedLatency>) returns (v: int)
    ensures (forall i | 0 <= i < |values| :: values[i].weight <= 0.0) ==> v == 0
    ensures (exists i | 0 <= i < |values| :: values[i].weight > 0.0) ==> IsWeightedP95(values, v)
  {
    TotalIsPositiveWeight(values);
    if values == [] {
      return 0;
    }
    var cp := Sort(values, ByValue);
    SortSorts(values, ByValue);
    WeightIfPermutation(values, cp, x => true);
    var total := TotalWeight(cp);
    if total <= 0.0 {
      return 0;
    }
    v := ScanSorted(cp, total);
    P95Permutation(cp, values, v);
  }
}
