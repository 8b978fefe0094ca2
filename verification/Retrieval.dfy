/** Ranked retrieval metrics of one result list against a set of relevant documents. */
module Retrieval {
  import opened Arith
  import opened Collections
  import opened Discounts

  datatype Metrics = Metrics(ndcg: real, recall: real, mrr: real, map_: real, coverage: real, failureRate: real)

  // ---------- specification ----------

  /** The document at position `i` is relevant and stands there for the first time. */
  predicate FirstHit(docs: seq<string>, relevant: set<string>, i: nat)
    requires i < |docs|
  {
    docs[i] in relevant && docs[i] !in docs[..i]
  }

  /** Ranks, counted from 1, at which a relevant document is met for the first time. */
  function HitRanks(docs: seq<string>, relevant: set<string>): seq<nat> {
    if docs == [] then []
    else
      var last := |docs| - 1;
      HitRanks(docs[..last], relevant) + if FirstHit(docs, relevant, last) then [|docs|] else []
  }

  function Discounted(ranks: seq<nat>, d: nat -> real): real {
    if ranks == [] then 0.0 else Discounted(ranks[..|ranks| - 1], d) + d(ranks[|ranks| - 1])
  }

  function PrecisionAt(hits: nat, rank: nat): real {
    if rank == 0 then 0.0 else hits as real / rank as real
  }

  /** Sum of the precision at each hit. */
  function PrecisionSum(ranks: seq<nat>): real {
    if ranks == [] then 0.0 else PrecisionSum(ranks[..|ranks| - 1]) + PrecisionAt(|ranks|, ranks[|ranks| - 1])
  }

  function FirstRanks(n: nat): seq<nat> { seq(n, i requires 0 <= i < n => (i + 1) as nat) }

  function Limit(count: nat, k: int): nat { if k <= 0 || k > count then count else k }

  function IdealDCG(relevantCount: nat, k: int, d: nat -> real): real {
    var ideal := Discounted(FirstRanks(Limit(relevantCount, k)), d);
    if ideal == 0.0 then 1.0 else ideal
  }

  const NO_LABELS := Metrics(0.0, 0.0, 0.0, 0.0, 0.0, 0.0)
  const NO_HIT := Metrics(0.0, 0.0, 0.0, 0.0, 0.0, 1.0)

  function MetricsOf(relevant: set<string>, docs: seq<string>, k: int, d: nat -> real): Metrics {
    var limit := Limit(|docs|, k);
    var hits := HitRanks(docs[..limit], relevant);
    if relevant == {} then NO_LABELS
    else if hits == [] then NO_HIT
    else
      var n := |relevant| as real;
      Metrics(Discounted(hits, d) / IdealDCG(|relevant|, limit, d), |hits| as real / n,
              if hits[0] == 0 then 0.0 else 1.0 / hits[0] as real, PrecisionSum(hits) / n, 1.0, 0.0)
  }

  // ---------- hits ----------

  ghost predicate Increasing(ranks: seq<nat>) {
    (forall j | 0 <= j < |ranks| :: ranks[j] >= j + 1) && forall i, j | 0 <= i < j < |ranks| :: ranks[i] < ranks[j]
  }

  function Seen(docs: seq<string>, relevant: set<string>): set<string> {
    set doc | doc in docs && doc in relevant
  }

  lemma {:induction false} HitRanksFacts(docs: seq<string>, relevant: set<string>)
    ensures Increasing(HitRanks(docs, relevant))
    ensures |HitRanks(docs, relevant)| == |Seen(docs, relevant)| <= |docs|
    ensures forall j | 0 <= j < |HitRanks(docs, relevant)| :: HitRanks(docs, relevant)[j] <= |docs|
  {
    if docs != [] {
      var front, last := docs[..|docs| - 1], docs[|docs| - 1];
      HitRanksFacts(front, relevant);
      assert docs == front + [last];
      if FirstHit(docs, relevant, |docs| - 1) {
        assert Seen(docs, relevant) == Seen(front, relevant) + {last};
      } else {
        assert Seen(docs, relevant) == Seen(front, relevant);
      }
    }
  }

  lemma HitsAtMost(docs: seq<string>, relevant: set<string>, k: int)
    ensures var hits := HitRanks(docs[..Limit(|docs|, k)], relevant);
            |hits| <= |relevant| && |hits| <= Limit(|docs|, k) && Increasing(hits)
  {
    HitRanksFacts(docs[..Limit(|docs|, k)], relevant);
    SubsetSize(Seen(docs[..Limit(|docs|, k)], relevant), relevant);
  }

  // ---------- bounds ----------

  lemma FirstRanksStep(n: nat)
    requires n > 0
    ensures FirstRanks(n)[..n - 1] == FirstRanks(n - 1) && FirstRanks(n)[n - 1] == n
    ensures FirstRanks(n) == FirstRanks(n - 1) + [n]
  {
  }

  /** A decreasing discount over distinct ranks is at most the discount over the same number of first ranks. */
  lemma {:induction false} DiscountedAtMostFirst(ranks: seq<nat>, d: nat -> real)
    requires IsDiscount(d) && Increasing(ranks)
    ensures Discounted(ranks, d) <= Discounted(FirstRanks(|ranks|), d)
  {
    if ranks != [] {
      hide FirstRanks;
      DiscountedAtMostFirst(ranks[..|ranks| - 1], d);
      FirstRanksStep(|ranks|);
      assert d(ranks[|ranks| - 1]) <= d(|ranks|);
    }
  }

  /** ... and strictly less unless the ranks are the first ones. */
  lemma {:induction false} DiscountedBelowFirst(ranks: seq<nat>, d: nat -> real)
    requires IsDiscount(d) && Increasing(ranks) && ranks != FirstRanks(|ranks|)
    ensures Discounted(ranks, d) < Discounted(FirstRanks(|ranks|), d)
  {
    var n := |ranks|;
    var front, last := ranks[..n - 1], ranks[n - 1];
    FirstRanksStep(n);
    DiscountedAtMostFirst(front, d);
    assert d(last) <= d(n);
    if last == n {
      assert ranks == front + [n];
      DiscountedBelowFirst(front, d);
    } else {
      assert d(last) < d(n);
    }
  }

  lemma {:induction false} MoreRanksMoreGain(m: nat, n: nat, d: nat -> real)
    requires IsDiscount(d) && m <= n
    ensures 0.0 <= Discounted(FirstRanks(m), d) <= Discounted(FirstRanks(n), d)
    ensures m < n ==> Discounted(FirstRanks(m), d) < Discounted(FirstRanks(n), d)
    decreases n
  {
    if n > 0 {
      assert FirstRanks(n)[..n - 1] == FirstRanks(n - 1);
      MoreRanksMoreGain(if m < n then m else m - 1, n - 1, d);
    }
  }

  lemma {:induction false} PrecisionSumBounds(ranks: seq<nat>)
    requires Increasing(ranks)
    ensures 0.0 <= PrecisionSum(ranks) <= |ranks| as real
  {
    if ranks != [] {
      var last := ranks[|ranks| - 1];
      PrecisionSumBounds(ranks[..|ranks| - 1]);
      QuotientGe(|ranks| as real, last as real, 0.0);
      QuotientLe(|ranks| as real, last as real, 1.0);
    }
  }

  /** The guard against a zero ideal never fires for a run with hits. */
  lemma IdealIsPositive(relevantCount: nat, limit: nat, h: nat, d: nat -> real)
    requires IsDiscount(d) && 0 < h <= relevantCount && h <= limit
    ensures IdealDCG(relevantCount, limit, d) == Discounted(FirstRanks(Limit(relevantCount, limit)), d) > 0.0
    ensures IdealDCG(relevantCount, limit, d) >= Discounted(FirstRanks(h), d)
    ensures h < Limit(relevantCount, limit) ==> IdealDCG(relevantCount, limit, d) > Discounted(FirstRanks(h), d)
  {
    MoreRanksMoreGain(0, h, d);
    MoreRanksMoreGain(h, Limit(relevantCount, limit), d);
  }

  lemma HitQuotients(hits: seq<nat>, n: nat)
    requires Increasing(hits) && 0 < |hits| <= n
    ensures 0.0 < |hits| as real / n as real <= 1.0
    ensures 0.0 <= PrecisionSum(hits) / n as real <= |hits| as real / n as real
    ensures 0.0 < 1.0 / hits[0] as real <= 1.0
  {
    PrecisionSumBounds(hits);
    Proportion(|hits| as real, n as real);
    Proportion(1.0, hits[0] as real);
    QuotientGe(PrecisionSum(hits), n as real, 0.0);
    QuotientMono(PrecisionSum(hits), |hits| as real, n as real);
  }

  /** Every metric is a proportion, whatever repeats in the results and whatever the cutoff; average precision
      never exceeds recall. */
  lemma MetricsAreProportions(relevant: set<string>, docs: seq<string>, k: int, d: nat -> real)
    requires IsDiscount(d)
    ensures var m := MetricsOf(relevant, docs, k, d);
            && 0.0 <= m.ndcg <= 1.0 && 0.0 <= m.recall <= 1.0 && 0.0 <= m.mrr <= 1.0
            && 0.0 <= m.map_ <= m.recall
  {
    var limit := Limit(|docs|, k);
    var hits := HitRanks(docs[..limit], relevant);
    if relevant != {} && hits != [] {
      HitsAtMost(docs, relevant, k);
      HitQuotients(hits, |relevant|);
      NdcgBounds(hits, |relevant|, limit, d);
    }
  }

  lemma NdcgBounds(hits: seq<nat>, relevantCount: nat, limit: nat, d: nat -> real)
    requires IsDiscount(d) && Increasing(hits) && 0 < |hits| <= relevantCount && |hits| <= limit
    ensures var ideal := IdealDCG(relevantCount, limit, d);
            && 0.0 <= Discounted(hits, d) / ideal <= 1.0
            && (Discounted(hits, d) / ideal == 1.0 <==> hits == FirstRanks(Limit(relevantCount, limit)))
  {
    var h, m := |hits|, Limit(relevantCount, limit);
    var ideal, dcg := IdealDCG(relevantCount, limit, d), Discounted(hits, d);
    DiscountedAtMostFirst(hits, d);
    DiscountedIsNonNegative(hits, d);
    IdealIsPositive(relevantCount, limit, h, d);
    Proportion(dcg, ideal);
    if hits != FirstRanks(h) {
      DiscountedBelowFirst(hits, d);
    } else if h < m {
      assert hits != FirstRanks(m);
    }
  }

  lemma {:induction false} DiscountedIsNonNegative(ranks: seq<nat>, d: nat -> real)
    requires IsDiscount(d)
    ensures Discounted(ranks, d) >= 0.0
  {
    if ranks != [] { DiscountedIsNonNegative(ranks[..|ranks| - 1], d); }
  }

  /** nDCG is 1 exactly when the first ranks are all hits, as many as there are relevant documents or places. */
  lemma NdcgOneMeansPerfect(relevant: set<string>, docs: seq<string>, k: int, d: nat -> real)
    requires IsDiscount(d) && relevant != {} && docs != []
    ensures var limit := Limit(|docs|, k);
            MetricsOf(relevant, docs, k, d).ndcg == 1.0 <==>
            HitRanks(docs[..limit], relevant) == FirstRanks(Limit(|relevant|, limit))
  {
    var limit := Limit(|docs|, k);
    var hits := HitRanks(docs[..limit], relevant);
    if hits != [] {
      HitsAtMost(docs, relevant, k);
      NdcgBounds(hits, |relevant|, limit, d);
    }
  }

  // ---------- the textbook definitions ----------

  /** Precision at each place where a relevant document is first met, summed over the results. */
  function PrecisionAtHits(docs: seq<string>, relevant: set<string>): real {
    if docs == [] then 0.0
    else
      var n := |docs|;
      PrecisionAtHits(docs[..n - 1], relevant) +
      if docs[n - 1] in relevant && docs[n - 1] !in docs[..n - 1] then
        |set doc | doc in docs && doc in relevant| as real / n as real
      else 0.0
  }

  lemma AtHitsStep(docs: seq<string>, relevant: set<string>)
    requires docs != []
    ensures PrecisionAtHits(docs, relevant) == PrecisionAtHits(docs[..|docs| - 1], relevant) +
            if FirstHit(docs, relevant, |docs| - 1) then |Seen(docs, relevant)| as real / |docs| as real else 0.0
  {
    assert Seen(docs, relevant) == set doc | doc in docs && doc in relevant;
  }

  lemma {:induction false} PrecisionSumIsAtHits(docs: seq<string>, relevant: set<string>)
    ensures PrecisionSum(HitRanks(docs, relevant)) == PrecisionAtHits(docs, relevant)
  {
    if docs != [] {
      hide PrecisionSum, PrecisionAtHits, Seen, FirstHit, Increasing;
      var n := |docs|;
      PrecisionSumIsAtHits(docs[..n - 1], relevant);
      AtHitsStep(docs, relevant);
      HitRanksFacts(docs, relevant);
      var before := HitRanks(docs[..n - 1], relevant);
      if FirstHit(docs, relevant, n - 1) {
        PrecisionSumNext(before, n);
      } else {
        assert before + [] == before;
      }
    }
  }

  lemma PrecisionSumNext(before: seq<nat>, rank: nat)
    requires rank > 0
    ensures PrecisionSum(before + [rank]) == PrecisionSum(before) + (|before| + 1) as real / rank as real
  {
    assert (before + [rank])[..|before|] == before;
  }

  lemma {:induction false} FirstHitRank(docs: seq<string>, relevant: set<string>, i: nat)
    requires i < |docs| && docs[i] in relevant && forall j | 0 <= j < i :: docs[j] !in relevant
    ensures HitRanks(docs, relevant) != [] && HitRanks(docs, relevant)[0] == i + 1
  {
    var front := docs[..|docs| - 1];
    if i < |front| {
      FirstHitRank(front, relevant, i);
    } else {
      NoHit(front, relevant);
      assert docs[i] !in front;
    }
  }

  lemma {:induction false} NoHit(docs: seq<string>, relevant: set<string>)
    ensures HitRanks(docs, relevant) == [] <==> forall j | 0 <= j < |docs| :: docs[j] !in relevant
  {
    if docs != [] {
      var n := |docs| - 1;
      NoHit(docs[..n], relevant);
      if docs[n] in docs[..n] {
        var j :| 0 <= j < n && docs[j] == docs[n];
      }
    }
  }

  /** Recall, reciprocal rank and average precision as they are defined for ranked retrieval, over the results up to
      the cutoff: repeats count once, and a result list without a hit is a failure. */
  lemma MetricsByDefinition(relevant: set<string>, docs: seq<string>, k: int, d: nat -> real, first: nat)
    requires relevant != {}
    ensures var top := if 0 < k <= |docs| then docs[..k] else docs;
            var met := set doc | doc in top && doc in relevant;
            var m, n := MetricsOf(relevant, docs, k, d), |relevant| as real;
            && m.recall == |met| as real / n
            && m.map_ == PrecisionAtHits(top, relevant) / n
            && (m.failureRate, m.coverage) == (if met == {} then (1.0, 0.0) else (0.0, 1.0))
            && (met == {} ==> m.mrr == 0.0)
            && (first < |top| && top[first] in relevant && (forall j | 0 <= j < first :: top[j] !in relevant) ==>
                  m.mrr == 1.0 / (first + 1) as real)
  {
    hide HitRanks, PrecisionSum, PrecisionAtHits, Discounted, IdealDCG;
    var top := docs[..Limit(|docs|, k)];
    assert docs[..|docs|] == docs;
    var hits := HitRanks(top, relevant);
    HitRanksFacts(top, relevant);
    NoHit(top, relevant);
    PrecisionSumIsAtHits(top, relevant);
    assert Seen(top, relevant) == set doc | doc in top && doc in relevant;
    if hits == [] { NothingSummed(); }
    if first < |top| && top[first] in relevant && forall j | 0 <= j < first :: top[j] !in relevant {
      FirstHitRank(top, relevant, first);
    }
  }

  lemma NothingSummed()
    ensures PrecisionSum([]) == 0.0
  {
  }

  /** Only the first ranks sum to their number. */
  lemma {:induction false} PrecisionSumFull(ranks: seq<nat>)
    requires Increasing(ranks)
    ensures PrecisionSum(ranks) == |ranks| as real <==> ranks == FirstRanks(|ranks|)
  {
    var n := |ranks|;
    if n > 0 {
      var front, last := ranks[..n - 1], ranks[n - 1];
      PrecisionSumFull(front);
      PrecisionSumBounds(front);
      FirstRanksStep(n);
      Proportion(n as real, last as real);
      assert ranks == front + [last];
    }
  }

  /** Average precision is 1 exactly when every relevant document is met in the first places. */
  lemma MapOneMeansPerfect(relevant: set<string>, docs: seq<string>, k: int, d: nat -> real)
    requires relevant != {}
    ensures MetricsOf(relevant, docs, k, d).map_ == 1.0 <==>
            HitRanks(docs[..Limit(|docs|, k)], relevant) == FirstRanks(|relevant|)
  {
    var hits, n := HitRanks(docs[..Limit(|docs|, k)], relevant), |relevant|;
    HitsAtMost(docs, relevant, k);
    PrecisionSumBounds(hits);
    PrecisionSumFull(hits);
    FirstRanksLength(n);
    hide HitRanks, PrecisionSum, Increasing, FirstRanks, Discounted, IdealDCG;
    if hits != [] { Proportion(PrecisionSum(hits), n as real); }
  }

  lemma FirstRanksLength(n: nat)
    ensures |FirstRanks(n)| == n
  {
  }

  // ---------- promotion ----------

  /** `better` has at least as many hits, each at least as early. */
  ghost predicate Dominates(better: seq<nat>, worse: seq<nat>) {
    |better| >= |worse| && forall j | 0 <= j < |worse| :: better[j] <= worse[j]
  }

  lemma {:induction false} DominanceRaisesSums(better: seq<nat>, worse: seq<nat>, d: nat -> real)
    requires IsDiscount(d) && Increasing(better) && Increasing(worse) && Dominates(better, worse)
    ensures Discounted(better, d) >= Discounted(worse, d)
    ensures PrecisionSum(better) >= PrecisionSum(worse)
    decreases |better|
  {
    hide PrecisionAt;
    if better == [] {
      assert worse == [];
    } else {
      var n := |better|;
      if n > |worse| {
        DominanceRaisesSums(better[..n - 1], worse, d);
        LastTermDominates(n, better[n - 1], better[n - 1], d);
      } else {
        DominanceRaisesSums(better[..n - 1], worse[..n - 1], d);
        LastTermDominates(n, better[n - 1], worse[n - 1], d);
      }
    }
  }

  lemma LastTermDominates(n: nat, b: nat, w: nat, d: nat -> real)
    requires IsDiscount(d) && 0 < b <= w
    ensures d(b) >= d(w) >= 0.0
    ensures PrecisionAt(n, b) >= PrecisionAt(n, w) >= 0.0
  {
    SmallerDivisor(n as real, b as real, w as real);
    QuotientGe(n as real, w as real, 0.0);
  }

  lemma SmallerDivisor(n: real, b: real, w: real)
    requires n >= 0.0 && 0.0 < b <= w
    ensures n / b >= n / w
  {
    QuotientGe(n, w, 0.0);
    QuotientTimes(n, w);
    MonoOf(b, w, n / w, b * (n / w), n);
    QuotientGe(n, b, n / w);
  }

  /** `docs` with the documents at `i` and `i + 1` exchanged. */
  function Swap(docs: seq<string>, i: nat): seq<string>
    requires i + 1 < |docs|
  {
    docs[..i] + [docs[i + 1], docs[i]] + docs[i + 2..]
  }

  /** The swap moves one first hit a rank up and leaves every later first hit in place. */
  lemma {:induction false} SwapHits(docs: seq<string>, relevant: set<string>, i: nat, m: nat)
    requires i + 1 < |docs| && i + 2 <= m <= |docs|
    requires docs[i] !in relevant && FirstHit(docs, relevant, i + 1)
    ensures var before, after := HitRanks(docs[..m], relevant), HitRanks(Swap(docs, i)[..m], relevant);
            && |before| == |after| && Dominates(after, before)
    decreases m
  {
    var swapped := Swap(docs, i);
    if m == i + 2 {
      SwapHitsHere(docs, relevant, i);
    } else {
      SwapHits(docs, relevant, i, m - 1);
      var a, b := docs[..m], swapped[..m];
      assert a[..m - 1] == docs[..m - 1] && b[..m - 1] == swapped[..m - 1];
      assert a[m - 1] == b[m - 1];
      SwapKeepsMembers(docs, i, m - 1);
      assert FirstHit(a, relevant, m - 1) == FirstHit(b, relevant, m - 1);
    }
  }

  lemma SwapKeepsMembers(docs: seq<string>, i: nat, m: nat)
    requires i + 1 < |docs| && i + 2 <= m <= |docs|
    ensures forall x :: x in docs[..m] <==> x in Swap(docs, i)[..m]
  {
    var a, b := docs[..m], Swap(docs, i)[..m];
    forall x ensures x in a <==> x in b {
      if x in a {
        var j :| 0 <= j < m && a[j] == x;
        assert b[if j == i then i + 1 else if j == i + 1 then i else j] == x;
      }
      if x in b {
        var j :| 0 <= j < m && b[j] == x;
        assert a[if j == i then i + 1 else if j == i + 1 then i else j] == x;
      }
    }
  }

  lemma SwapHitsHere(docs: seq<string>, relevant: set<string>, i: nat)
    requires i + 1 < |docs| && docs[i] !in relevant && FirstHit(docs, relevant, i + 1)
    ensures HitRanks(docs[..i + 1], relevant) == HitRanks(docs[..i], relevant)
    ensures HitRanks(docs[..i + 2], relevant) == HitRanks(docs[..i], relevant) + [i + 2]
    ensures HitRanks(Swap(docs, i)[..i + 1], relevant) == HitRanks(docs[..i], relevant) + [i + 1]
    ensures HitRanks(Swap(docs, i)[..i + 2], relevant) == HitRanks(docs[..i], relevant) + [i + 1]
  {
    var s := Swap(docs, i);
    var d0, d1, d2, s1, s2 := docs[..i], docs[..i + 1], docs[..i + 2], s[..i + 1], s[..i + 2];
    assert d1[..i] == d0 && d2[..i + 1] == d1 && s1[..i] == d0 && s2[..i + 1] == s1;
    assert s1[i] == docs[i + 1] && s2[i + 1] == docs[i];
    assert docs[i + 1] !in d0 by { assert forall x | x in d0 :: x in d1; }
    assert d2[i + 1] == docs[i + 1] && d2[..i + 1] == docs[..i + 1];
  }

  lemma SwapDominates(docs: seq<string>, relevant: set<string>, i: nat, limit: nat)
    requires i + 1 < |docs| && docs[i] !in relevant && FirstHit(docs, relevant, i + 1) && limit <= |docs|
    ensures Dominates(HitRanks(Swap(docs, i)[..limit], relevant), HitRanks(docs[..limit], relevant))
  {
    if limit <= i {
      assert Swap(docs, i)[..limit] == docs[..limit];
    } else if limit == i + 1 {
      SwapHitsHere(docs, relevant, i);
    } else {
      SwapHits(docs, relevant, i, limit);
    }
  }

  /** Moving a relevant document, not yet met, one place above an irrelevant one lowers no metric. */
  lemma PromotionNeverHurts(relevant: set<string>, docs: seq<string>, i: nat, k: int, d: nat -> real)
    requires IsDiscount(d) && i + 1 < |docs| && docs[i] !in relevant && FirstHit(docs, relevant, i + 1)
    ensures var m, p := MetricsOf(relevant, docs, k, d), MetricsOf(relevant, Swap(docs, i), k, d);
            && p.ndcg >= m.ndcg && p.recall >= m.recall && p.mrr >= m.mrr && p.map_ >= m.map_
            && p.coverage >= m.coverage && p.failureRate <= m.failureRate
  {
    hide HitRanks, Discounted, PrecisionSum, IdealDCG, Increasing, FirstHit;
    var limit, swapped := Limit(|docs|, k), Swap(docs, i);
    var hits, better := HitRanks(docs[..limit], relevant), HitRanks(swapped[..limit], relevant);
    SwapDominates(docs, relevant, i, limit);
    HitsAtMost(docs, relevant, k);
    HitsAtMost(swapped, relevant, k);
    if hits != [] {
      DominanceRaisesMetrics(better, hits, |relevant|, limit, d);
    } else {
      MetricsAreProportions(relevant, swapped, k, d);
    }
  }

  lemma DominanceRaisesMetrics(better: seq<nat>, hits: seq<nat>, n: nat, limit: nat, d: nat -> real)
    requires IsDiscount(d) && Increasing(better) && Increasing(hits) && Dominates(better, hits)
    requires 0 < |hits| && |better| <= n && |better| <= limit
    ensures Discounted(better, d) / IdealDCG(n, limit, d) >= Discounted(hits, d) / IdealDCG(n, limit, d)
    ensures |better| as real / n as real >= |hits| as real / n as real
    ensures PrecisionSum(better) / n as real >= PrecisionSum(hits) / n as real
    ensures 1.0 / better[0] as real >= 1.0 / hits[0] as real
  {
    DominanceRaisesSums(better, hits, d);
    IdealIsPositive(n, limit, |hits|, d);
    QuotientMono(Discounted(hits, d), Discounted(better, d), IdealDCG(n, limit, d));
    QuotientMono(|hits| as real, |better| as real, n as real);
    QuotientMono(PrecisionSum(hits), PrecisionSum(better), n as real);
    SmallerDivisor(1.0, better[0] as real, hits[0] as real);
  }

  // ---------- the program ----------

  method IdealRetrievalDCG(relevantCount: nat, k: int, d: nat -> real) returns (ideal: real)
    ensures ideal == IdealDCG(relevantCount, k, d)
  {
    var limit := Limit(relevantCount, k);
    ideal := 0.0;
    for i := 0 to limit
      invariant ideal == Discounted(FirstRanks(i), d)
    {
      assert FirstRanks(i + 1)[..i] == FirstRanks(i);
      ideal := ideal + d(i + 1);
    }
    if ideal == 0.0 {
      ideal := 1.0;
    }
  }

  function StringSet(values: seq<string>): set<string> { set x | x in values }

  lemma HitStep(docs: seq<string>, relevant: set<string>, i: nat)
    requires i < |docs|
    ensures var isHit := docs[i] in relevant && docs[i] !in Seen(docs[..i], relevant);
            && HitRanks(docs[..i + 1], relevant) ==
                 (if isHit then HitRanks(docs[..i], relevant) + [i + 1] else HitRanks(docs[..i], relevant))
            && Seen(docs[..i + 1], relevant) ==
                 (if isHit then Seen(docs[..i], relevant) + {docs[i]} else Seen(docs[..i], relevant))
  {
    var next := docs[..i + 1];
    assert next[..i] == docs[..i] && next == docs[..i] + [docs[i]];
  }

  /** The accumulators of the loop after some hits. */
  ghost predicate Accumulated(hits: seq<nat>, dcg: real, precisionSum: real, mrr: real, d: nat -> real) {
    && dcg == Discounted(hits, d) && precisionSum == PrecisionSum(hits)
    && (hits == [] ==> mrr == 0.0)
    && (hits != [] ==> hits[0] > 0 && mrr == 1.0 / hits[0] as real && mrr > 0.0)
  }

  lemma AccumulateHit(hits: seq<nat>, rank: nat, dcg: real, precisionSum: real, mrr: real, d: nat -> real)
    requires Accumulated(hits, dcg, precisionSum, mrr, d) && rank > 0
    ensures Accumulated(hits + [rank], dcg + d(rank), precisionSum + (|hits| + 1) as real / rank as real,
                        if mrr == 0.0 then 1.0 / rank as real else mrr, d)
  {
    assert (hits + [rank])[..|hits|] == hits;
    QuotientTimes(1.0, rank as real);
    QuotientGe(1.0, rank as real, 0.0);
  }

  method ScanResults(relevant: set<string>, docs: seq<string>, d: nat -> real)
    returns (count: nat, dcg: real, precisionSum: real, mrr: real)
    ensures count == |HitRanks(docs, relevant)|
    ensures Accumulated(HitRanks(docs, relevant), dcg, precisionSum, mrr, d)
  {
    hide Accumulated, HitRanks, Seen;
    var seen: set<string> := {};
    dcg, precisionSum, mrr := 0.0, 0.0, 0.0;
    NothingSeen(relevant, d);
    for i := 0 to |docs|
      invariant seen == Seen(docs[..i], relevant)
      invariant Accumulated(HitRanks(docs[..i], relevant), dcg, precisionSum, mrr, d)
    {
      HitStep(docs, relevant, i);
      if docs[i] in relevant && docs[i] !in seen {
        ghost var hits, was := HitRanks(docs[..i], relevant), (dcg, precisionSum, mrr);
        var rank := i + 1;
        HitRanksFacts(docs[..i], relevant);
        seen := seen + {docs[i]};
        var count := |seen|;
        assert count == |hits| + 1;
        dcg := dcg + d(rank);
        precisionSum := precisionSum + count as real / rank as real;
        if mrr == 0.0 {
          mrr := 1.0 / rank as real;
        }
        AccumulateHit(hits, rank, was.0, was.1, was.2, d);
      }
    }
    assert docs[..|docs|] == docs;
    HitRanksFacts(docs, relevant);
    count := |seen|;
  }

  lemma NothingSeen(relevant: set<string>, d: nat -> real)
    ensures Seen([], relevant) == {} && Accumulated(HitRanks([], relevant), 0.0, 0.0, 0.0, d)
  {
  }

  method RetrievalMetrics(relevantDocIDs: seq<string>, docs: seq<string>, k: int, d: nat -> real) returns (m: Metrics)
    ensures m == MetricsOf(StringSet(relevantDocIDs), docs, k, d)
  {
    var relevant := StringSet(relevantDocIDs);
    if relevant == {} {
      return NO_LABELS;
    }
    var limit := Limit(|docs|, k);
    var count, dcg, precisionSum, mrr := ScanResults(relevant, docs[..limit], d);
    if count == 0 {
      return NO_HIT;
    }
    var ideal := IdealRetrievalDCG(|relevant|, limit, d);
    m := Metrics(dcg / ideal, count as real / |relevant| as real, mrr, precisionSum / |relevant| as real, 1.0, 0.0);
  }
}
