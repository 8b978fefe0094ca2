/** Cohen's kappa in terms of the items agreed on and the equal pairs of labels. */
module KappaLaws {
  import opened Arith
  import opened Sorting
  import opened K = Kappa

  /** The items both raters give the same label. */
  function AgreedItems(human: seq<string>, judge: seq<string>): set<int>
    requires |human| == |judge|
  {
    set i | 0 <= i < |human| && human[i] == judge[i]
  }

  /** The pairs of a human label and a judge label, of any two items, that are equal. */
  function MatchingPairs(human: seq<string>, judge: seq<string>): set<(int, int)> {
    set i, j | 0 <= i < |human| && 0 <= j < |judge| && human[i] == judge[j] :: (i, j)
  }

  function Row(i: int, l: string, judge: seq<string>): set<(int, int)> {
    set j | 0 <= j < |judge| && l == judge[j] :: (i, j)
  }

  lemma {:induction false} AgreementsAreItems(human: seq<string>, judge: seq<string>)
    requires |human| == |judge|
    ensures Agreements(human, judge) == |AgreedItems(human, judge)|
  {
    if human == [] {
      assert AgreedItems(human, judge) == {};
    } else {
      var n := |human| - 1;
      AgreementsAreItems(human[..n], judge[..n]);
      var before := AgreedItems(human[..n], judge[..n]);
      assert AgreedItems(human, judge) == before + if human[n] == judge[n] then {n} else {};
    }
  }

  lemma {:induction false} CountIsRow(i: int, l: string, judge: seq<string>)
    ensures Count(judge, l) == |Row(i, l, judge)|
  {
    if judge == [] {
      assert Row(i, l, judge) == {};
    } else {
      var n := |judge| - 1;
      CountIsRow(i, l, judge[..n]);
      assert Row(i, l, judge) == Row(i, l, judge[..n]) + if judge[n] == l then {(i, n)} else {};
    }
  }

  lemma {:induction false} EqualPairsArePairs(human: seq<string>, judge: seq<string>)
    ensures EqualPairs(human, judge) == |MatchingPairs(human, judge)|
  {
    if human == [] {
      assert MatchingPairs(human, judge) == {};
    } else {
      var n := |human| - 1;
      var before, row := MatchingPairs(human[..n], judge), Row(n, human[n], judge);
      EqualPairsArePairs(human[..n], judge);
      CountIsRow(n, human[n], judge);
      assert MatchingPairs(human, judge) == before + row;
      assert before !! row;
    }
  }

  lemma {:induction false} EqualPairsAtMost(human: seq<string>, judge: seq<string>)
    ensures EqualPairs(human, judge) <= |human| * |judge|
  {
    if human != [] {
      var n := |human| - 1;
      hide Count;
      EqualPairsAtMost(human[..n], judge);
      CountAtMost(judge, human[n]);
      IntDistribute(|judge|, n, 1);
      assert |human| * |judge| == n * |judge| + |judge|;
    }
  }

  lemma {:induction false} CountAtMost(s: seq<string>, l: string)
    ensures Count(s, l) <= |s|
    ensures Count(s, l) == |s| <==> forall i | 0 <= i < |s| :: s[i] == l
    ensures Count(s, l) == 0 <==> l !in s
  {
    if s != [] {
      var n := |s| - 1;
      CountAtMost(s[..n], l);
      assert s == s[..n] + [s[n]];
    }
  }

  // ---------- the value ----------

  /** The definition with denominators cleared: agreement beyond chance is kappa's share of what chance leaves. */
  lemma KappaBalance(human: seq<string>, judge: seq<string>)
    requires |human| == |judge| > 0
    ensures var n, a, c := |human|, |AgreedItems(human, judge)|, |MatchingPairs(human, judge)|;
            && c <= n * n
            && Kappa(human, judge) * (n * n - c) as real == (n * a - c) as real
            && (c == n * n ==> Kappa(human, judge) == 1.0)
  {
    hide Agreements, EqualPairs, AgreedItems, MatchingPairs;
    AgreementsAreItems(human, judge);
    EqualPairsArePairs(human, judge);
    EqualPairsAtMost(human, judge);
    var n, a, c := |human|, Agreements(human, judge), EqualPairs(human, judge);
    CastProduct(n, n);
    CastProduct(n, a);
    var o, e := Observed(human, judge), Expected(human, judge);
    Balance(n as real, a as real, c as real, Squared(n), o, e);
    if e == 1.0 {
      CertainChanceMeansAgreement(human, judge);
    } else {
      ClearDenominators(o - e, 1.0 - e, Squared(n));
    }
  }

  lemma Balance(n: real, a: real, c: real, nn: real, o: real, e: real)
    requires n > 0.0 && nn == n * n && nn > 0.0 && o == a / n && e == c / nn
    ensures (o - e) * nn == n * a - c && (1.0 - e) * nn == nn - c
    ensures e == 1.0 <==> c == nn
    ensures o == 1.0 ==> n * a == nn
  {
    QuotientTimes(a, n);
    QuotientTimes(c, nn);
    Associate(o, n, n);
    Distribute(nn, o, e);
    Distribute(nn, 1.0, e);
    if c == nn { QuotientIs(1.0, c, nn); }
  }

  lemma ClearDenominators(x: real, y: real, z: real)
    requires y != 0.0
    ensures (x / y) * (y * z) == x * z
  {
    QuotientTimes(x, y);
    Associate(x / y, y, z);
  }

  /** Where kappa vanishes and where it is positive. */
  lemma KappaSign(human: seq<string>, judge: seq<string>)
    requires |human| == |judge| > 0
    ensures var n, a, c := |human|, |AgreedItems(human, judge)|, |MatchingPairs(human, judge)|;
            c < n * n ==>
              && (Kappa(human, judge) == 0.0 <==> n * a == c)
              && (Kappa(human, judge) > 0.0 <==> n * a > c)
  {
    hide Kappa, AgreedItems, MatchingPairs;
    KappaBalance(human, judge);
    var n, a, c := |human|, |AgreedItems(human, judge)|, |MatchingPairs(human, judge)|;
    if c < n * n {
      SignOf(Kappa(human, judge), (n * n - c) as real, (n * a - c) as real);
    }
  }

  lemma SignOf(k: real, d: real, p: real)
    requires d > 0.0 && p == k * d
    ensures k == 0.0 <==> p == 0.0
    ensures k > 0.0 <==> p > 0.0
  {
    if k > 0.0 {
      Positive(k, d, p);
    } else if k < 0.0 {
      Positive(-k, d, -p);
    }
  }

  // ---------- the lower extreme ----------

  lemma SumSquareBound(h: int, j: int)
    ensures 4 * (h * j) <= (h + j) * (h + j)
  {
    IntSquare(h - j);
    assert (h + j) * (h + j) == (h - j) * (h - j) + 4 * (h * j);
  }

  lemma LabelBoundStrict(h: int, j: int, m: int, n: int)
    requires 0 < m <= h && m <= j && h + j <= n + m && h + j < 2 * n
    ensures 4 * (h * j) < n * (h + j) + 2 * (n * m)
  {
    var s := h + j;
    SumSquareBound(h, j);
    IntMono(s, n + m, s);
    IntDistribute(s, n, m);
    SumBelowDouble(s, m, n);
  }

  lemma SumBelowDouble(s: int, m: int, n: int)
    requires s < 2 * n && m > 0
    ensures s * m < 2 * (n * m)
  {
    IntMono(s + 1, 2 * n, m);
  }

  lemma {:induction false} ProductSumStrict(labels: seq<string>, human: seq<string>, judge: seq<string>, l: string)
    requires |human| == |judge| && l in labels
    requires Both(human, judge, l) > 0 && Count(human, l) + Count(judge, l) < 2 * |human|
    ensures 4 * ProductSum(labels, human, judge) <
            |human| * (CountSum(labels, human) + CountSum(labels, judge)) + 2 * (|human| * BothSum(labels, human, judge))
  {
    var front, last, n := labels[..|labels| - 1], labels[|labels| - 1], |human|;
    assert labels == front + [last];
    LabelCounts(human, judge, last);
    var hs, js, bs := CountSum(front, human), CountSum(front, judge), BothSum(front, human, judge);
    var hc, jc, bc := Count(human, last), Count(judge, last), Both(human, judge, last);
    if last == l {
      ProductSumBound(front, human, judge);
      LabelBoundStrict(hc, jc, bc, n);
    } else {
      ProductSumStrict(front, human, judge, l);
      LabelBound(hc, jc, bc, n);
    }
    IntDistribute(n, hs + js, hc + jc);
    IntDistribute(n, bs, bc);
  }

  lemma {:induction false} SomeAgreement(human: seq<string>, judge: seq<string>) returns (l: string)
    requires |human| == |judge| && Agreements(human, judge) > 0
    ensures Both(human, judge, l) > 0 && l in human
  {
    var n := |human| - 1;
    if human[n] == judge[n] {
      l := human[n];
    } else {
      l := SomeAgreement(human[..n], judge[..n]);
    }
  }

  lemma {:induction false} OneLabelPairs(human: seq<string>, judge: seq<string>, l: string)
    requires forall i | 0 <= i < |human| :: human[i] == l
    ensures EqualPairs(human, judge) == |human| * Count(judge, l)
  {
    if human != [] {
      var n := |human| - 1;
      OneLabelPairs(human[..n], judge, l);
      IntDistribute(Count(judge, l), n, 1);
    }
  }

  /** One agreement keeps the chance agreement strictly below the bound of `ChanceAtMostHalf`, unless chance agreement
      is certain. */
  lemma AgreementBeatsHalf(human: seq<string>, judge: seq<string>)
    requires |human| == |judge| && Agreements(human, judge) > 0 && EqualPairs(human, judge) < |human| * |human|
    ensures 2 * EqualPairs(human, judge) < |human| * |human| + |human| * Agreements(human, judge)
  {
    hide Agreements, Count, EqualPairs, Both, Labels, ProductSum, BothSum, CountSum;
    var labels, n := Labels(human), |human|;
    var l := SomeAgreement(human, judge);
    LabelsCover(human);
    assert l in labels;
    NotOneLabel(human, judge, l);
    ProductSumIsEqualPairs(labels, human, judge);
    ProductSumStrict(labels, human, judge, l);
    CountSumAtMost(labels, human);
    CountSumAtMost(labels, judge);
    BothSumAtMost(labels, human, judge);
    CombineStrict(n, EqualPairs(human, judge), CountSum(labels, human) + CountSum(labels, judge),
                  BothSum(labels, human, judge), Agreements(human, judge));
  }

  lemma CombineStrict(n: nat, pairs: nat, counts: nat, both: nat, agreements: nat)
    requires 4 * pairs < n * counts + 2 * (n * both) && counts <= 2 * n && both <= agreements
    ensures 2 * pairs < n * n + n * agreements
  {
    IntMono(counts, 2 * n, n);
    IntMono(both, agreements, n);
  }

  lemma NotOneLabel(human: seq<string>, judge: seq<string>, l: string)
    requires |human| == |judge| && EqualPairs(human, judge) < |human| * |human|
    ensures Count(human, l) + Count(judge, l) < 2 * |human|
  {
    hide EqualPairs, Count;
    CountAtMost(human, l);
    CountAtMost(judge, l);
    if Count(human, l) == |human| { OneLabelPairs(human, judge, l); }
  }

  /** Kappa is -1 exactly for raters who never agree although half of all pairs of their labels are equal. */
  lemma KappaMinusOneExactlyWhen(human: seq<string>, judge: seq<string>)
    requires |human| == |judge| > 0
    ensures Kappa(human, judge) == -1.0 <==>
            AgreedItems(human, judge) == {} && 2 * |MatchingPairs(human, judge)| == |human| * |human|
  {
    hide Kappa, Agreements, EqualPairs;
    AgreementsAreItems(human, judge);
    EqualPairsArePairs(human, judge);
    KappaBalance(human, judge);
    var n, a, c := |human|, Agreements(human, judge), EqualPairs(human, judge);
    if c < n * n {
      if a > 0 { AgreementBeatsHalf(human, judge); }
      MinusOne(Kappa(human, judge), n * n, n * a, c);
      if n * a == 0 { NoFactor(n, a); }
    } else {
      AgreementsNeeded(n, a, c);
    }
  }

  lemma AgreementsNeeded(n: int, a: int, c: int)
    requires n > 0 && c == n * n
    ensures 2 * c != n * n
  {
    IntMono(1, n, n);
  }

  lemma NoFactor(n: int, a: int)
    requires n > 0 && n * a == 0
    ensures a == 0
  {
  }

  lemma MinusOne(k: real, nn: int, na: int, c: int)
    requires c < nn && k * (nn - c) as real == (na - c) as real
    ensures k == -1.0 <==> 2 * c == nn + na
  {
    var d := (nn - c) as real;
    if (k + 1.0) * d == 0.0 { NoRealFactor(k + 1.0, d); }
    assert (k + 1.0) * d == k * d + d;
  }

  lemma NoRealFactor(x: real, d: real)
    requires d > 0.0 && x * d == 0.0
    ensures x == 0.0
  {
    SignOf(x, d, x * d);
  }
}
