/** Cohen's kappa: agreement between two raters beyond what their label frequencies explain. */
module Kappa {
  import opened Arith
  import opened Collections
  import opened Sorting

  function Count(labels: seq<string>, l: string): nat {
    if labels == [] then 0
    else Count(labels[..|labels| - 1], l) + if labels[|labels| - 1] == l then 1 else 0
  }

  function Agreements(human: seq<string>, judge: seq<string>): nat
    requires |human| == |judge|
  {
    if human == [] then 0
    else
      var last := |human| - 1;
      Agreements(human[..last], judge[..last]) + if human[last] == judge[last] then 1 else 0
  }

  /** How many pairs (one human label, one judge label) are equal. */
  function EqualPairs(human: seq<string>, judge: seq<string>): nat {
    if human == [] then 0
    else EqualPairs(human[..|human| - 1], judge) + Count(judge, human[|human| - 1])
  }

  function Observed(human: seq<string>, judge: seq<string>): real
    requires |human| == |judge| > 0
  {
    Agreements(human, judge) as real / |human| as real
  }

  /** The chance that a random human label equals a random judge label. */
  function Expected(human: seq<string>, judge: seq<string>): real
    requires |human| == |judge| > 0
  {
    EqualPairs(human, judge) as real / Squared(|human|)
  }

  function Squared(n: nat): (r: real)
    requires n > 0
    ensures r > 0.0
  {
    Positive(n as real, n as real, n as real * n as real);
    n as real * n as real
  }

  function Kappa(human: seq<string>, judge: seq<string>): real {
    if |human| != |judge| || human == [] then 0.0
    else
      var o, e := Observed(human, judge), Expected(human, judge);
      if e == 1.0 then (if o == 1.0 then 1.0 else 0.0) else (o - e) / (1.0 - e)
  }

  // ---------- sums over labels ----------

  function CountSum(labels: seq<string>, s: seq<string>): nat {
    if labels == [] then 0 else CountSum(labels[..|labels| - 1], s) + Count(s, labels[|labels| - 1])
  }

  function ProductSum(labels: seq<string>, human: seq<string>, judge: seq<string>): nat {
    if labels == [] then 0
    else
      var l := labels[|labels| - 1];
      ProductSum(labels[..|labels| - 1], human, judge) + Count(human, l) * Count(judge, l)
  }

  /** Positions where both raters chose `l`. */
  function Both(human: seq<string>, judge: seq<string>, l: string): nat
    requires |human| == |judge|
  {
    if human == [] then 0
    else
      var last := |human| - 1;
      Both(human[..last], judge[..last], l) + if human[last] == judge[last] == l then 1 else 0
  }

  function BothSum(labels: seq<string>, human: seq<string>, judge: seq<string>): nat
    requires |human| == |judge|
  {
    if labels == [] then 0
    else BothSum(labels[..|labels| - 1], human, judge) + Both(human, judge, labels[|labels| - 1])
  }

  lemma {:induction false} CountSumExtend(labels: seq<string>, s: seq<string>, e: string)
    requires Distinct(labels)
    ensures CountSum(labels, s + [e]) == CountSum(labels, s) + if e in labels then 1 else 0
  {
    assert (s + [e])[..|s|] == s;
    if labels != [] {
      CountSumExtend(labels[..|labels| - 1], s, e);
      assert labels == labels[..|labels| - 1] + [labels[|labels| - 1]];
    }
  }

  lemma {:induction false} CountSumAtMost(labels: seq<string>, s: seq<string>)
    requires Distinct(labels)
    ensures CountSum(labels, s) <= |s|
  {
    if s == [] {
      CountSumEmpty(labels);
    } else {
      CountSumAtMost(labels, s[..|s| - 1]);
      CountSumExtend(labels, s[..|s| - 1], s[|s| - 1]);
      assert s == s[..|s| - 1] + [s[|s| - 1]];
    }
  }

  lemma {:induction false} CountSumEmpty(labels: seq<string>)
    ensures CountSum(labels, []) == 0
  {
    if labels != [] { CountSumEmpty(labels[..|labels| - 1]); }
  }

  lemma {:induction false} BothSumExtend(labels: seq<string>, human: seq<string>, judge: seq<string>, h: string, j: string)
    requires Distinct(labels) && |human| == |judge|
    ensures BothSum(labels, human + [h], judge + [j]) ==
            BothSum(labels, human, judge) + if h == j && h in labels then 1 else 0
  {
    assert (human + [h])[..|human|] == human && (judge + [j])[..|judge|] == judge;
    if labels != [] {
      BothSumExtend(labels[..|labels| - 1], human, judge, h, j);
      assert labels == labels[..|labels| - 1] + [labels[|labels| - 1]];
    }
  }

  lemma {:induction false} BothSumAtMost(labels: seq<string>, human: seq<string>, judge: seq<string>)
    requires Distinct(labels) && |human| == |judge|
    ensures BothSum(labels, human, judge) <= Agreements(human, judge)
  {
    if human == [] {
      BothSumEmpty(labels);
    } else {
      var last := |human| - 1;
      BothSumAtMost(labels, human[..last], judge[..last]);
      BothSumExtend(labels, human[..last], judge[..last], human[last], judge[last]);
      assert human == human[..last] + [human[last]] && judge == judge[..last] + [judge[last]];
    }
  }

  lemma {:induction false} BothSumEmpty(labels: seq<string>)
    ensures BothSum(labels, [], []) == 0
  {
    if labels != [] { BothSumEmpty(labels[..|labels| - 1]); }
  }

  /** Inclusion and exclusion for one label. */
  lemma {:induction false} LabelCounts(human: seq<string>, judge: seq<string>, l: string)
    requires |human| == |judge|
    ensures Both(human, judge, l) <= Count(human, l) <= |human|
    ensures Both(human, judge, l) <= Count(judge, l) <= |human|
    ensures Count(human, l) + Count(judge, l) <= |human| + Both(human, judge, l)
  {
    if human != [] {
      LabelCounts(human[..|human| - 1], judge[..|judge| - 1], l);
    }
  }

  lemma LabelBound(h: int, j: int, m: int, n: int)
    requires 0 <= m <= h <= n && m <= j <= n && h + j <= n + m
    ensures 4 * (h * j) <= n * (h + j) + 2 * (n * m)
  {
    var s := h + j;
    IntSquare(h - j);
    assert (h - j) * (h - j) == s * s - 4 * (h * j) by {
      IntDistribute(s, h, j);
      IntDistribute(h - j, h, -j);
    }
    IntMono(s, n + m, s);
    IntDistribute(s, n, m);
    IntMono(s, 2 * n, m);
  }

  lemma {:induction false} ProductSumBound(labels: seq<string>, human: seq<string>, judge: seq<string>)
    requires |human| == |judge|
    ensures 4 * ProductSum(labels, human, judge) <=
            |human| * (CountSum(labels, human) + CountSum(labels, judge)) + 2 * (|human| * BothSum(labels, human, judge))
  {
    if labels != [] {
      var front, l, n := labels[..|labels| - 1], labels[|labels| - 1], |human|;
      ProductSumBound(front, human, judge);
      LabelCounts(human, judge, l);
      LabelBound(Count(human, l), Count(judge, l), Both(human, judge, l), n);
      var hs, js, bs := CountSum(front, human), CountSum(front, judge), BothSum(front, human, judge);
      var hc, jc, bc := Count(human, l), Count(judge, l), Both(human, judge, l);
      IntDistribute(n, hs + js, hc + jc);
      IntDistribute(n, bs, bc);
    }
  }

  /** Summing over labels and summing over pairs count the same thing. */
  lemma {:induction false} ProductSumIsEqualPairs(labels: seq<string>, human: seq<string>, judge: seq<string>)
    requires Distinct(labels) && forall i | 0 <= i < |human| :: human[i] in labels
    ensures ProductSum(labels, human, judge) == EqualPairs(human, judge)
  {
    if human == [] {
      ProductSumEmpty(labels, judge);
    } else {
      var last := |human| - 1;
      ProductSumIsEqualPairs(labels, human[..last], judge);
      ProductSumExtend(labels, human[..last], human[last], judge);
      assert human == human[..last] + [human[last]];
    }
  }

  lemma {:induction false} ProductSumEmpty(labels: seq<string>, judge: seq<string>)
    ensures ProductSum(labels, [], judge) == 0
  {
    if labels != [] { ProductSumEmpty(labels[..|labels| - 1], judge); }
  }

  lemma {:induction false} ProductSumExtend(labels: seq<string>, human: seq<string>, h: string, judge: seq<string>)
    requires Distinct(labels)
    ensures ProductSum(labels, human + [h], judge) ==
            ProductSum(labels, human, judge) + if h in labels then Count(judge, h) else 0
  {
    assert (human + [h])[..|human|] == human;
    if labels != [] {
      var front, l := labels[..|labels| - 1], labels[|labels| - 1];
      ProductSumExtend(front, human, h, judge);
      assert labels == front + [l];
      if l == h {
        assert (Count(human, l) + 1) * Count(judge, l) == Count(human, l) * Count(judge, l) + Count(judge, l);
      }
    }
  }

  function Labels(s: seq<string>): seq<string> {
    if s == [] then []
    else
      var rest := Labels(s[..|s| - 1]);
      if s[|s| - 1] in rest then rest else rest + [s[|s| - 1]]
  }

  lemma {:induction false} LabelsCover(s: seq<string>)
    ensures Distinct(Labels(s)) && forall i | 0 <= i < |s| :: s[i] in Labels(s)
  {
    if s != [] {
      LabelsCover(s[..|s| - 1]);
      forall i | 0 <= i < |s| ensures s[i] in Labels(s) {
        if i < |s| - 1 { assert s[..|s| - 1][i] == s[i]; }
      }
    }
  }

  // ---------- properties of kappa ----------

  /** The heart of the lower bound: twice the expected agreement is at most one plus the observed. */
  lemma ChanceAtMostHalf(human: seq<string>, judge: seq<string>)
    requires |human| == |judge|
    ensures 2 * EqualPairs(human, judge) <= |human| * |human| + |human| * Agreements(human, judge)
  {
    var labels, n := Labels(human), |human|;
    LabelsCover(human);
    ProductSumIsEqualPairs(labels, human, judge);
    ProductSumBound(labels, human, judge);
    CountSumAtMost(labels, human);
    CountSumAtMost(labels, judge);
    BothSumAtMost(labels, human, judge);
    Combine(n, EqualPairs(human, judge), CountSum(labels, human) + CountSum(labels, judge),
            BothSum(labels, human, judge), Agreements(human, judge));
  }

  lemma Combine(n: nat, pairs: nat, counts: nat, both: nat, agreements: nat)
    requires 4 * pairs <= n * counts + 2 * (n * both) && counts <= 2 * n && both <= agreements
    ensures 2 * pairs <= n * n + n * agreements
  {
    IntMono(counts, 2 * n, n);
    IntMono(both, agreements, n);
  }

  lemma {:induction false} AgreementsAtMost(human: seq<string>, judge: seq<string>)
    requires |human| == |judge|
    ensures Agreements(human, judge) <= |human|
    ensures Agreements(human, judge) == |human| <==> human == judge
  {
    if human != [] {
      var last := |human| - 1;
      AgreementsAtMost(human[..last], judge[..last]);
      assert human == human[..last] + [human[last]] && judge == judge[..last] + [judge[last]];
    }
  }

  lemma RatioBounds(human: seq<string>, judge: seq<string>)
    requires |human| == |judge| > 0
    ensures 0.0 <= Observed(human, judge) <= 1.0
    ensures Observed(human, judge) == 1.0 <==> human == judge
    ensures 2.0 * Expected(human, judge) <= 1.0 + Observed(human, judge)
  {
    AgreementsAtMost(human, judge);
    ChanceAtMostHalf(human, judge);
    Ratios(|human|, Agreements(human, judge), EqualPairs(human, judge));
  }

  lemma Ratios(n: nat, a: nat, c: nat)
    requires n > 0 && a <= n && 2 * c <= n * n + n * a
    ensures 0.0 <= a as real / n as real <= 1.0
    ensures a as real / n as real == 1.0 <==> a == n
    ensures 2.0 * (c as real / Squared(n)) <= 1.0 + a as real / n as real
  {
    CastProduct(n, n);
    CastProduct(n, a);
    RealRatios(n as real, a as real, c as real, Squared(n), n as real * a as real);
  }

  lemma RealRatios(n: real, a: real, c: real, nn: real, na: real)
    requires n > 0.0 && 0.0 <= a <= n && nn > 0.0 && nn == n * n && na == n * a && 2.0 * c <= nn + na
    ensures 0.0 <= a / n <= 1.0
    ensures a / n == 1.0 <==> a == n
    ensures 2.0 * (c / nn) <= 1.0 + a / n
  {
    var o := a / n;
    QuotientTimes(a, n);
    QuotientLe(a, n, 1.0);
    QuotientGe(a, n, 0.0);
    Associate(o, n, n);
    assert o * nn == na;
    Distribute(nn, 1.0, o);
    QuotientLe(2.0 * c, nn, 1.0 + o);
    QuotientAdd(c, c, nn);
  }

  /** When chance agreement is certain, so is the observed one: the fallback value 0 is never returned. */
  lemma CertainChanceMeansAgreement(human: seq<string>, judge: seq<string>)
    requires |human| == |judge| > 0 && Expected(human, judge) == 1.0
    ensures Observed(human, judge) == 1.0
  {
    RatioBounds(human, judge);
  }

  lemma KappaBounds(human: seq<string>, judge: seq<string>)
    ensures -1.0 <= Kappa(human, judge) <= 1.0
  {
    if |human| == |judge| > 0 {
      RatioBounds(human, judge);
      var o, e := Observed(human, judge), Expected(human, judge);
      if e != 1.0 {
        Quotient(o - e, 1.0 - e);
      }
    }
  }

  lemma Quotient(x: real, y: real)
    requires y > 0.0 && -y <= x <= y
    ensures -1.0 <= x / y <= 1.0
    ensures x / y == 1.0 <==> x == y
  {
    assert (x / y) * y == x;
  }

  /** Kappa is 1 exactly when the raters agree on every item. */
  lemma KappaOneMeansAgreement(human: seq<string>, judge: seq<string>)
    requires |human| == |judge| > 0
    ensures Kappa(human, judge) == 1.0 <==> human == judge
  {
    RatioBounds(human, judge);
    var o, e := Observed(human, judge), Expected(human, judge);
    if e != 1.0 {
      Quotient(o - e, 1.0 - e);
    }
  }

  lemma {:induction false} EqualPairsExtendRight(human: seq<string>, judge: seq<string>, j: string)
    ensures EqualPairs(human, judge + [j]) == EqualPairs(human, judge) + Count(human, j)
  {
    assert (judge + [j])[..|judge|] == judge;
    if human != [] {
      EqualPairsExtendRight(human[..|human| - 1], judge, j);
    }
  }

  lemma {:induction false} EqualPairsSymmetric(human: seq<string>, judge: seq<string>)
    ensures EqualPairs(human, judge) == EqualPairs(judge, human)
  {
    if judge == [] {
      EqualPairsNone(human);
    } else {
      var front, last := judge[..|judge| - 1], judge[|judge| - 1];
      EqualPairsSymmetric(human, front);
      EqualPairsExtendRight(human, front, last);
      assert judge == front + [last];
    }
  }

  lemma {:induction false} EqualPairsNone(human: seq<string>)
    ensures EqualPairs(human, []) == 0
  {
    if human != [] { EqualPairsNone(human[..|human| - 1]); }
  }

  lemma {:induction false} AgreementsSymmetric(human: seq<string>, judge: seq<string>)
    requires |human| == |judge|
    ensures Agreements(human, judge) == Agreements(judge, human)
  {
    if human != [] { AgreementsSymmetric(human[..|human| - 1], judge[..|judge| - 1]); }
  }

  lemma KappaSymmetric(human: seq<string>, judge: seq<string>)
    ensures Kappa(human, judge) == Kappa(judge, human)
  {
    if |human| == |judge| {
      EqualPairsSymmetric(human, judge);
      AgreementsSymmetric(human, judge);
    }
  }

  // ---------- the program ----------

  ghost predicate Counts(m: map<string, nat>, s: seq<string>) {
    && (forall l :: l in m <==> l in s)
    && forall l :: Count(s, l) == if l in m then m[l] else 0
  }

  lemma CountsStep(m: map<string, nat>, s: seq<string>, i: nat)
    requires i < |s| && Counts(m, s[..i])
    ensures Counts(m[s[i] := Get(m, s[i]) + 1], s[..i + 1])
  {
    assert s[..i + 1] == s[..i] + [s[i]];
    assert s[..i + 1][..i] == s[..i];
  }

  /** The running sum of the loop over labels. */
  ghost function Shares(labels: seq<string>, human: seq<string>, judge: seq<string>, total: real): real
    requires total > 0.0
  {
    if labels == [] then 0.0
    else
      var l := labels[|labels| - 1];
      Shares(labels[..|labels| - 1], human, judge, total) + Term(Count(human, l), Count(judge, l), total)
  }

  function Term(h: nat, j: nat, total: real): real
    requires total > 0.0
  {
    (h as real / total) * (j as real / total)
  }

  lemma {:induction false} SharesAreProducts(labels: seq<string>, human: seq<string>, judge: seq<string>, total: real, total2: real)
    requires total > 0.0 && total2 > 0.0 && total2 == total * total
    ensures Shares(labels, human, judge, total) == ProductSum(labels, human, judge) as real / total2
  {
    if labels != [] {
      var front, l := labels[..|labels| - 1], labels[|labels| - 1];
      SharesAreProducts(front, human, judge, total, total2);
      TermOverTotal(ProductSum(front, human, judge), Count(human, l), Count(judge, l),
                    ProductSum(labels, human, judge), total, total2);
    }
  }

  lemma TermOverTotal(acc: nat, h: nat, j: nat, next: nat, total: real, total2: real)
    requires total > 0.0 && total2 == total * total && next == acc + h * j
    ensures total2 > 0.0
    ensures acc as real / total2 + (h as real / total) * (j as real / total) == next as real / total2
  {
    ProductOfQuotients(h as real, total, j as real, total, total2);
    CastProduct(h, j);
    QuotientAdd(acc as real, (h * j) as real, total2);
  }

  method CountLabels(s: seq<string>) returns (counts: map<string, nat>)
    ensures Counts(counts, s)
  {
    counts := map[];
    for i := 0 to |s|
      invariant Counts(counts, s[..i])
    {
      CountsStep(counts, s, i);
      counts := counts[s[i] := Get(counts, s[i]) + 1];
    }
    assert s[..|s|] == s;
  }

  /** The map of human labels is visited in an arbitrary order. */
  method SumOverLabels(humanCounts: map<string, nat>, judgeCounts: map<string, nat>,
                       ghost human: seq<string>, ghost judge: seq<string>, total: real)
    returns (expected: real, ghost labels: seq<string>)
    requires Counts(humanCounts, human) && Counts(judgeCounts, judge) && total > 0.0
    ensures Distinct(labels) && forall l :: l in labels <==> l in human
    ensures expected == Shares(labels, human, judge, total)
  {
    hide Term;
    expected, labels := 0.0, [];
    var todo := humanCounts.Keys;
    while todo != {}
      invariant todo <= humanCounts.Keys && Distinct(labels)
      invariant forall l :: l in labels <==> l in humanCounts && l !in todo
      invariant expected == Shares(labels, human, judge, total)
      decreases |todo|
    {
      var current :| current in todo;
      assert (labels + [current])[..|labels|] == labels;
      expected := expected + Term(humanCounts[current], Get(judgeCounts, current), total);
      labels := labels + [current];
      todo := todo - {current};
    }
  }

  method CohenKappa(human: seq<string>, judge: seq<string>) returns (k: real)
    ensures k == Kappa(human, judge)
    ensures |human| != |judge| || human == [] ==> k == 0.0
  {
    if |human| != |judge| || human == [] {
      return 0.0;
    }
    var humanCounts := CountLabels(human);
    var judgeCounts := CountLabels(judge);
    var agreements := 0;
    for i := 0 to |human|
      invariant agreements == Agreements(human[..i], judge[..i])
    {
      assert human[..i + 1][..i] == human[..i] && judge[..i + 1][..i] == judge[..i];
      if human[i] == judge[i] {
        agreements := agreements + 1;
      }
    }
    assert human[..|human|] == human && judge[..|judge|] == judge;
    var total := |human| as real;
    var observed := agreements as real / total;
    var expected, labels := SumOverLabels(humanCounts, judgeCounts, human, judge, total);
    SharesAreProducts(labels, human, judge, total, Squared(|human|));
    ProductSumIsEqualPairs(labels, human, judge);
    if expected == 1.0 {
      k := if observed == 1.0 then 1.0 else 0.0;
    } else {
      k := (observed - expected) / (1.0 - expected);
    }
  }
}
