/** Metric summaries: weighted mean, effective sample count, Wilson interval, and the run's own aggregation. */
module Statistics {
  import opened Wrappers
  import opened Arith
  import opened Reals
  import opened Bootstrap

  datatype Observation = Observation(value: real, weight: real)

  function Weight(o: Observation): (w: real)
    ensures w > 0.0
  {
    if o.weight <= 0.0 then 1.0 else o.weight
  }

  function WeightedAverage(sum: real, weight: real): real { if weight <= 0.0 then 0.0 else sum / weight }

  function WeightedSum(obs: seq<Observation>): real {
    if obs == [] then 0.0 else WeightedSum(obs[..|obs| - 1]) + obs[|obs| - 1].value * Weight(obs[|obs| - 1])
  }

  function TotalWeight(obs: seq<Observation>): real {
    if obs == [] then 0.0 else TotalWeight(obs[..|obs| - 1]) + Weight(obs[|obs| - 1])
  }

  function SquaredWeight(obs: seq<Observation>): real {
    if obs == [] then 0.0
    else SquaredWeight(obs[..|obs| - 1]) + Weight(obs[|obs| - 1]) * Weight(obs[|obs| - 1])
  }

  function Value(obs: seq<Observation>): real { WeightedAverage(WeightedSum(obs), TotalWeight(obs)) }

  function EffectiveSamples(obs: seq<Observation>): real {
    if SquaredWeight(obs) > 0.0 then TotalWeight(obs) * TotalWeight(obs) / SquaredWeight(obs) else 0.0
  }

  // ---------- the mean ----------

  lemma {:induction false} TotalWeightPositive(obs: seq<Observation>)
    ensures TotalWeight(obs) >= 0.0
    ensures obs != [] ==> TotalWeight(obs) > 0.0
  {
    if obs != [] { TotalWeightPositive(obs[..|obs| - 1]); }
  }

  lemma {:induction false} WeightedSumBetween(obs: seq<Observation>, lo: real, hi: real)
    requires forall i | 0 <= i < |obs| :: lo <= obs[i].value <= hi
    ensures lo * TotalWeight(obs) <= WeightedSum(obs) <= hi * TotalWeight(obs)
  {
    if obs != [] {
      var front, w, v := obs[..|obs| - 1], Weight(obs[|obs| - 1]), obs[|obs| - 1].value;
      hide Weight;
      WeightedSumBetween(front, lo, hi);
      BetweenStep(WeightedSum(front), TotalWeight(front), v, w, v * w, lo, hi);
    }
  }

  lemma BetweenStep(sum: real, total: real, v: real, w: real, vw: real, lo: real, hi: real)
    requires lo * total <= sum <= hi * total && lo <= v <= hi && w > 0.0 && vw == v * w
    ensures lo * (total + w) <= sum + vw <= hi * (total + w)
  {
    MonoOf(lo, v, w, lo * w, vw);
    MonoOf(v, hi, w, vw, hi * w);
    Distribute(lo, total, w);
    Distribute(hi, total, w);
  }

  /** The summary value lies between any bounds on the observed values. */
  lemma ValueBetween(obs: seq<Observation>, lo: real, hi: real)
    requires obs != [] && forall i | 0 <= i < |obs| :: lo <= obs[i].value <= hi
    ensures lo <= Value(obs) <= hi
  {
    TotalWeightPositive(obs);
    WeightedSumBetween(obs, lo, hi);
    QuotientGe(WeightedSum(obs), TotalWeight(obs), lo);
    QuotientLe(WeightedSum(obs), TotalWeight(obs), hi);
  }

  /** How strongly an observation pulls away from `v`; a weight that is not positive counts as 1. */
  function Pull(v: real): Observation -> real {
    (o: Observation) => (if o.weight > 0.0 then o.weight else 1.0) * (o.value - v)
  }

  function Moment(obs: seq<Observation>, v: real): real {
    if obs == [] then 0.0 else Moment(obs[..|obs| - 1], v) + v * Weight(obs[|obs| - 1])
  }

  lemma PullOf(o: Observation, v: real)
    ensures Pull(v)(o) == o.value * Weight(o) - v * Weight(o)
  {
    Distribute(Weight(o), o.value, v);
  }

  lemma {:induction false} PullIsBalance(obs: seq<Observation>, v: real)
    ensures SumBy(obs, Pull(v)) == WeightedSum(obs) - Moment(obs, v)
  {
    if obs != [] {
      hide Pull, Weight;
      PullIsBalance(obs[..|obs| - 1], v);
      PullOf(obs[|obs| - 1], v);
    }
  }

  lemma {:induction false} MomentIsProduct(obs: seq<Observation>, v: real)
    ensures Moment(obs, v) == v * TotalWeight(obs)
  {
    if obs != [] {
      hide Weight;
      MomentIsProduct(obs[..|obs| - 1], v);
      Distribute(v, TotalWeight(obs[..|obs| - 1]), Weight(obs[|obs| - 1]));
    }
  }

  /** The value is the one point at which the weighted observations balance. */
  lemma ValueBalances(obs: seq<Observation>, v: real)
    requires obs != []
    ensures v == Value(obs) <==> SumBy(obs, Pull(v)) == 0.0
  {
    hide WeightedSum, TotalWeight, SumBy, Pull;
    PullIsBalance(obs, v);
    MomentIsProduct(obs, v);
    TotalWeightPositive(obs);
    NoGap(v, WeightedSum(obs), TotalWeight(obs), SumBy(obs, Pull(v)));
  }

  lemma NoGap(v: real, sum: real, total: real, gap: real)
    requires total > 0.0 && gap == sum - v * total
    ensures v == sum / total <==> gap == 0.0
  {
    if v == sum / total {
      QuotientTimes(sum, total);
    } else if gap == 0.0 {
      QuotientIs(v, sum, total);
    }
  }

  // ---------- effective sample count ----------

  /** Sum of (n * w - t)^2. */
  ghost function Spread(obs: seq<Observation>, n: real, t: real): real {
    if obs == [] then 0.0
    else
      var d := n * Weight(obs[|obs| - 1]) - t;
      Spread(obs[..|obs| - 1], n, t) + d * d
  }

  lemma SquareExpands(n: real, w: real, t: real)
    ensures (n * w - t) * (n * w - t) == (n * n) * (w * w) - 2.0 * ((n * t) * w) + t * t
  {
    var p := n * w;
    Distribute(p - t, p, t);
    Distribute(p, p, t);
    Distribute(t, p, t);
    Regroup(n, n, w, w);
    assert p * t == (n * t) * w;
  }

  lemma {:induction false} SpreadExpands(obs: seq<Observation>, n: real, t: real, nn: real, nt: real, tt: real)
    requires nn == n * n && nt == n * t && tt == t * t
    ensures Spread(obs, n, t) == nn * SquaredWeight(obs) - 2.0 * (nt * TotalWeight(obs)) + |obs| as real * tt
  {
    if obs != [] {
      hide Weight;
      var front, w := obs[..|obs| - 1], Weight(obs[|obs| - 1]);
      SpreadExpands(front, n, t, nn, nt, tt);
      SpreadOne(n, w, t, nn, nt, tt, w * w, n * w - t);
      Distribute(nn, SquaredWeight(front), w * w);
      Distribute(nt, TotalWeight(front), w);
      Distribute(tt, |front| as real, 1.0);
    }
  }

  lemma SpreadOne(n: real, w: real, t: real, nn: real, nt: real, tt: real, ww: real, d: real)
    requires nn == n * n && nt == n * t && tt == t * t && ww == w * w && d == n * w - t
    ensures d * d == nn * ww - 2.0 * (nt * w) + tt
  {
    SquareExpands(n, w, t);
  }

  lemma {:induction false} SpreadSign(obs: seq<Observation>, n: real, t: real)
    ensures Spread(obs, n, t) >= 0.0
  {
    if obs != [] {
      SpreadSign(obs[..|obs| - 1], n, t);
      var d := n * Weight(obs[|obs| - 1]) - t;
      Square(d, d * d);
    }
  }

  lemma {:induction false} SpreadZero(obs: seq<Observation>, n: real, t: real, i: nat)
    requires Spread(obs, n, t) == 0.0 && i < |obs|
    ensures n * Weight(obs[i]) == t
  {
    var front, d := obs[..|obs| - 1], n * Weight(obs[|obs| - 1]) - t;
    SpreadSign(front, n, t);
    Square(d, d * d);
    if i < |front| {
      SpreadZero(front, n, t, i);
    }
  }

  lemma {:induction false} SpreadOfEqual(obs: seq<Observation>, n: real, t: real)
    requires forall i | 0 <= i < |obs| :: n * Weight(obs[i]) == t
    ensures Spread(obs, n, t) == 0.0
  {
    if obs != [] {
      SpreadOfEqual(obs[..|obs| - 1], n, t);
    }
  }

  ghost predicate EqualWeights(obs: seq<Observation>) {
    forall i, j | 0 <= i < |obs| && 0 <= j < |obs| :: Weight(obs[i]) == Weight(obs[j])
  }

  lemma {:induction false} TotalOfEqual(obs: seq<Observation>, w: real)
    requires forall i | 0 <= i < |obs| :: Weight(obs[i]) == w
    ensures TotalWeight(obs) == |obs| as real * w
  {
    if obs != [] {
      TotalOfEqual(obs[..|obs| - 1], w);
      Distribute(w, (|obs| - 1) as real, 1.0);
    }
  }

  /** Cauchy-Schwarz for the weights, with its equality case. */
  lemma SquareOfTotal(obs: seq<Observation>, tt: real, nq: real)
    requires obs != [] && tt == TotalWeight(obs) * TotalWeight(obs) && nq == |obs| as real * SquaredWeight(obs)
    ensures tt <= nq
    ensures tt == nq <==> EqualWeights(obs)
  {
    hide Spread, TotalWeight, SquaredWeight, EqualWeights;
    var n, t, q := |obs| as real, TotalWeight(obs), SquaredWeight(obs);
    SpreadExpands(obs, n, t, n * n, n * t, t * t);
    SpreadSign(obs, n, t);
    SpreadFactor(n, t, q, Spread(obs, n, t), tt, nq);
    SpreadVanishes(obs, n, t);
  }

  lemma SpreadVanishes(obs: seq<Observation>, n: real, t: real)
    requires obs != [] && n == |obs| as real && t == TotalWeight(obs)
    ensures Spread(obs, n, t) == 0.0 <==> EqualWeights(obs)
  {
    if EqualWeights(obs) {
      var w := Weight(obs[0]);
      TotalOfEqual(obs, w);
      SpreadOfEqual(obs, n, t);
    } else if Spread(obs, n, t) == 0.0 {
      forall i | 0 <= i < |obs| ensures n * Weight(obs[i]) == t { SpreadZero(obs, n, t, i); }
      SameQuotient(obs, n, t);
    }
  }

  lemma SameQuotient(obs: seq<Observation>, n: real, t: real)
    requires n > 0.0 && forall i | 0 <= i < |obs| :: n * Weight(obs[i]) == t
    ensures EqualWeights(obs)
  {
    forall i, j | 0 <= i < |obs| && 0 <= j < |obs| ensures Weight(obs[i]) == Weight(obs[j]) {
      QuotientIs(Weight(obs[i]), t, n);
      QuotientIs(Weight(obs[j]), t, n);
    }
  }

  lemma SpreadFactor(n: real, t: real, q: real, s: real, tt: real, nq: real)
    requires n > 0.0 && s >= 0.0 && s == (n * n) * q - 2.0 * ((n * t) * t) + n * (t * t)
    requires tt == t * t && nq == n * q
    ensures tt <= nq
    ensures tt == nq <==> s == 0.0
  {
    assert (n * n) * q == n * nq;
    assert (n * t) * t == n * tt;
    assert s == n * (nq - tt) by { Distribute(n, nq, tt); }
    if nq < tt {
      StrictMonoOf(nq - tt, 0.0, n, s, 0.0);
    } else if nq > tt {
      StrictMonoOf(0.0, nq - tt, n, 0.0, s);
    }
  }

  lemma {:induction false} SquareAtLeastSquares(obs: seq<Observation>)
    ensures SquaredWeight(obs) <= TotalWeight(obs) * TotalWeight(obs)
    ensures SquaredWeight(obs) >= 0.0
    ensures obs != [] ==> SquaredWeight(obs) > 0.0
  {
    if obs != [] {
      var front, w := obs[..|obs| - 1], Weight(obs[|obs| - 1]);
      var t := TotalWeight(front);
      SquareAtLeastSquares(front);
      TotalWeightPositive(front);
      NonNegative(t, w, t * w);
      Positive(w, w, w * w);
      Distribute(t + w, t, w);
      Distribute(t, t, w);
      Distribute(w, t, w);
    }
  }

  /** The effective sample count lies between 1 and the number of observations and reaches the latter exactly when
      all weights are equal. */
  lemma EffectiveSamplesBounds(obs: seq<Observation>)
    requires obs != []
    ensures 1.0 <= EffectiveSamples(obs) <= |obs| as real
    ensures EffectiveSamples(obs) == |obs| as real <==> EqualWeights(obs)
  {
    var t, q, n := TotalWeight(obs), SquaredWeight(obs), |obs| as real;
    var tt := t * t;
    SquareAtLeastSquares(obs);
    SquareOfTotal(obs, tt, n * q);
    QuotientGe(tt, q, 1.0);
    QuotientLe(tt, q, n);
    QuotientTimes(tt, q);
    if tt == n * q { QuotientIs(n, tt, q); }
  }

  // ---------- the Wilson interval ----------

  /** The radicand of the margin's square root. */
  function WilsonRadicand(successes: real, n: real, z: real): real
    requires n > 0.0
  {
    (successes / n * (1.0 - successes / n) + z * z / (4.0 * n)) / n
  }

  function Wilson(successes: real, n: real, z: real, root: real): Interval
    requires n > 0.0 && 1.0 + z * z / n != 0.0
  {
    var denominator := 1.0 + z * z / n;
    var center := (successes / n + z * z / (2.0 * n)) / denominator;
    var margin := z * root / denominator;
    Interval(if center - margin < 0.0 then 0.0 else center - margin, if center + margin > 1.0 then 1.0 else center + margin)
  }

  /** The quadratic facts behind the interval: `m` is the margin and `p + a/2` the center, both over `1 + a`. */
  lemma WilsonQuadratic(p: real, a: real, m: real)
    requires 0.0 <= p <= 1.0 && a > 0.0 && m >= 0.0 && m * m == a * (p * (1.0 - p) + a / 4.0)
    ensures m <= p + a / 2.0
    ensures m <= (1.0 - p) + a / 2.0
    ensures -m <= a * (p - 0.5) <= m
  {
    var q := 1.0 - p;
    var pq := p * q;
    NonNegative(p, q, pq);
    assert m * m == a * pq + a * a / 4.0 by { Distribute(a, pq, a / 4.0); }
    MarginBelow(p, q, a, m, pq);
    MarginBelow(q, p, a, m, pq);
    MarginCovers(p, q, a, m, pq);
  }

  lemma MarginBelow(p: real, q: real, a: real, m: real, pq: real)
    requires p >= 0.0 && q == 1.0 - p && a > 0.0 && m >= 0.0 && pq == p * q && m * m == a * pq + a * a / 4.0
    ensures m <= p + a / 2.0
  {
    var c, pp, ap := p + a / 2.0, p * p, a * p;
    var app := a * pp;
    assert pq == p - pp by { Distribute(p, 1.0, p); }
    assert a * pq == ap - app by { Distribute(a, p, pp); }
    assert c * c == pp + ap + a * a / 4.0 by {
      Distribute(c, p, a / 2.0);
      Distribute(p, p, a / 2.0);
      Distribute(a / 2.0, p, a / 2.0);
    }
    Square(p, pp);
    NonNegative(a, pp, app);
    SquaresOrder(m, c, m * m, c * c);
  }

  lemma SquaresOrder(m: real, c: real, mm: real, cc: real)
    requires m >= 0.0 && c >= 0.0 && mm == m * m && cc == c * c && mm <= cc
    ensures m <= c
  {
    if m > c {
      var mc := m * c;
      MonoOf(c, m, c, cc, mc);
      StrictMonoOf(c, m, m, mc, mm);
    }
  }

  lemma MarginCovers(p: real, q: real, a: real, m: real, pq: real)
    requires q == 1.0 - p && a > 0.0 && m >= 0.0 && pq == p * q && pq >= 0.0 && m * m == a * pq + a * a / 4.0
    ensures -m <= a * (p - 0.5) <= m
  {
    var d, pp := a * (p - 0.5), p * p;
    var aa := a * a;
    assert pq == p - pp by { Distribute(p, 1.0, p); }
    assert (p - 0.5) * (p - 0.5) == pp - p + 0.25 by {
      Distribute(p - 0.5, p, 0.5);
      Distribute(p, p, 0.5);
    }
    assert d * d == aa * (0.25 - pq) by { Regroup(a, p - 0.5, a, p - 0.5); RegroupSquare(a, p - 0.5, d); }
    assert aa * (0.25 - pq) == aa / 4.0 - aa * pq by { Distribute(aa, 0.25, pq); }
    Square(a, aa);
    NonNegative(aa, pq, aa * pq);
    NonNegative(a, pq, a * pq);
    assert d * d <= m * m;
    if d >= 0.0 {
      SquaresOrder(d, m, d * d, m * m);
    } else {
      assert (-d) * (-d) == d * d;
      SquaresOrder(-d, m, d * d, m * m);
    }
  }

  lemma RegroupSquare(a: real, x: real, d: real)
    requires d == a * x
    ensures d * d == (a * a) * (x * x)
  {
    Regroup(a, a, x, x);
  }

  /** The quantities of `WilsonQuadratic` in the program's terms. */
  lemma WilsonShape(successes: real, n: real, z: real, root: real) returns (p: real, a: real, m: real)
    requires n > 0.0 && 0.0 <= successes <= n && z > 0.0 && IsRoot(root, WilsonRadicand(successes, n, z))
    ensures p == successes / n && a == z * z / n && m == z * root && z * z / (2.0 * n) == a / 2.0
    ensures 0.0 <= p <= 1.0 && a > 0.0 && m >= 0.0 && m * m == a * (p * (1.0 - p) + a / 4.0)
  {
    p := successes / n;
    var zz := z * z;
    a, m := zz / n, z * root;
    Positive(z, z, zz);
    Proportion(successes, n);
    QuotientPositive(zz, n);
    WilsonTerms(zz, n, a);
    NonNegative(z, root, m);
    Regroup(z, z, root, root);
    assert m * m == zz * (root * root);
    RadicandScales(zz, n, p * (1.0 - p) + a / 4.0, a);
  }

  /** The interval brackets the success rate and needs neither clamp. */
  lemma WilsonBrackets(successes: real, n: real, z: real, root: real)
    requires n > 0.0 && 0.0 <= successes <= n && z > 0.0 && IsRoot(root, WilsonRadicand(successes, n, z))
    ensures 1.0 + z * z / n > 0.0
    ensures var denominator := 1.0 + z * z / n;
            var center := (successes / n + z * z / (2.0 * n)) / denominator;
            var margin := z * root / denominator;
            && Wilson(successes, n, z, root) == Interval(center - margin, center + margin)
            && 0.0 <= center - margin <= successes / n <= center + margin <= 1.0
  {
    var p, a, m := WilsonShape(successes, n, z, root);
    hide WilsonRadicand;
    WilsonQuadratic(p, a, m);
    WilsonOver(p, a, m);
  }

  lemma QuotientPositive(a: real, b: real)
    requires a > 0.0 && b > 0.0
    ensures a / b > 0.0
  {
    QuotientGe(a, b, 0.0);
    QuotientTimes(a, b);
  }

  lemma WilsonTerms(zz: real, n: real, a: real)
    requires n > 0.0 && a == zz / n
    ensures zz / (2.0 * n) == a / 2.0 && zz / (4.0 * n) == a / 4.0
  {
    QuotientTimes(zz, n);
    QuotientIs(a / 2.0, zz, 2.0 * n);
    QuotientIs(a / 4.0, zz, 4.0 * n);
  }

  lemma RadicandScales(zz: real, n: real, x: real, a: real)
    requires n > 0.0 && a == zz / n
    ensures zz * (x / n) == a * x
  {
    QuotientTimes(zz, n);
    QuotientTimes(x, n);
    var y := x / n;
    assert a * x == a * (y * n);
    assert a * (y * n) == (a * n) * y;
  }

  lemma WilsonOver(p: real, a: real, m: real)
    requires a > 0.0 && m <= p + a / 2.0 && m <= (1.0 - p) + a / 2.0 && -m <= a * (p - 0.5) <= m
    ensures var d := 1.0 + a; var center, margin := (p + a / 2.0) / d, m / d;
            0.0 <= center - margin <= p <= center + margin <= 1.0
  {
    var d, c := 1.0 + a, p + a / 2.0;
    assert p * d == p + a * p by { Distribute(p, 1.0, a); }
    assert a * (p - 0.5) == a * p - a / 2.0 by { Distribute(a, p, 0.5); }
    QuotientSubtract(c, m, d);
    QuotientAdd(c, m, d);
    QuotientGe(c - m, d, 0.0);
    QuotientLe(c - m, d, p);
    QuotientGe(c + m, d, p);
    QuotientLe(c + m, d, 1.0);
  }

  lemma QuotientSubtract(a: real, c: real, b: real)
    requires b != 0.0
    ensures a / b - c / b == (a - c) / b
  {
    QuotientAdd(a - c, c, b);
  }

  // ---------- one metric's summary ----------

  datatype Summary = Summary(value: real, eligible: nat, total: int, annotationCoverage: real, weightedCount: real,
                             effectiveCount: real, interval: Option<Interval>)

  predicate IsBinary(obs: seq<Observation>) {
    forall i | 0 <= i < |obs| :: obs[i].value == 0.0 || obs[i].value == 1.0
  }

  function Values(obs: seq<Observation>): seq<real> {
    seq(|obs|, i requires 0 <= i < |obs| => obs[i].value)
  }

  /** The program's normal quantile; nothing but the last lemma about intervals depends on its value. */
  const Z := 1.959963984540054

  /** The binary branch treats every observation alike; the other one resamples with weights. */
  function ConfidenceInterval(obs: seq<Observation>, z: real, root: real, draws: Draws): Option<Interval>
    requires ValidDraws(draws, |obs|) && obs != [] && z > 0.0
  {
    if |obs| < 2 then None
    else if IsBinary(obs) then
      WilsonDenominator(|obs| as real, z);
      Some(Wilson(Sum(Values(obs)), |obs| as real, z, root))
    else Some(BootstrapInterval(SAMPLES, (i: nat) => Value(Resample(obs, draws, i))))
  }

  lemma WilsonDenominator(n: real, z: real)
    requires n > 0.0 && z > 0.0
    ensures 1.0 + z * z / n > 0.0
  {
    Positive(z, z, z * z);
    QuotientPositive(z * z, n);
  }

  function Summarize(obs: seq<Observation>, total: int, z: real, root: real, draws: Draws): Summary
    requires z > 0.0 && (obs != [] ==> ValidDraws(draws, |obs|))
  {
    var coverage := if total > 0 then |obs| as real / total as real else 0.0;
    if obs == [] then Summary(0.0, 0, total, coverage, 0.0, 0.0, None)
    else
      Summary(Value(obs), |obs|, total, coverage, TotalWeight(obs), EffectiveSamples(obs),
              ConfidenceInterval(obs, z, root, draws))
  }

  lemma {:induction false} BinarySumBetween(obs: seq<Observation>)
    requires IsBinary(obs)
    ensures 0.0 <= Sum(Values(obs)) <= |obs| as real
  {
    if obs != [] {
      BinarySumBetween(obs[..|obs| - 1]);
      assert Values(obs)[..|obs| - 1] == Values(obs[..|obs| - 1]);
    }
  }

  /** Whatever the observations and the random stream, the reported interval is ordered; for scores of 0 and 1 it
      brackets the unweighted success rate inside [0, 1], otherwise it lies between the extreme observed values. */
  lemma IntervalIsSound(obs: seq<Observation>, z: real, root: real, draws: Draws, lo: real, hi: real)
    requires z > 0.0 && |obs| >= 2 && ValidDraws(draws, |obs|)
    requires IsBinary(obs) ==> IsRoot(root, WilsonRadicand(Sum(Values(obs)), |obs| as real, z))
    requires forall i | 0 <= i < |obs| :: lo <= obs[i].value <= hi
    ensures ConfidenceInterval(obs, z, root, draws).Some?
    ensures var ci := ConfidenceInterval(obs, z, root, draws).value;
            && ci.low <= ci.high
            && (IsBinary(obs) ==> 0.0 <= ci.low <= Sum(Values(obs)) / |obs| as real <= ci.high <= 1.0)
            && (!IsBinary(obs) ==> lo <= ci.low && ci.high <= hi)
  {
    if IsBinary(obs) {
      BinarySumBetween(obs);
      WilsonBrackets(Sum(Values(obs)), |obs| as real, z, root);
    } else {
      var statistic := (i: nat) => Value(Resample(obs, draws, i));
      forall i: nat ensures lo <= statistic(i) <= hi {
        ValueBetween(Resample(obs, draws, i), lo, hi);
      }
      BootstrapBetween(SAMPLES, statistic, lo, hi);
    }
  }

  // ---------- when the interval contains the value ----------

  lemma SquareWithin(x: real, m: real, xx: real, mm: real)
    requires m >= 0.0 && xx == x * x && mm == m * m
    ensures -m <= x <= m <==> xx <= mm
  {
    if xx <= mm {
      if x >= 0.0 { SquaresOrder(x, m, xx, mm); } else { SquaresOrder(-x, m, xx, mm); }
    } else if x >= 0.0 {
      if x <= m { SquaresGrow(x, m, xx, mm); }
    } else if -x <= m {
      SquaresGrow(-x, m, xx, mm);
    }
  }

  lemma SquaresGrow(x: real, m: real, xx: real, mm: real)
    requires 0.0 <= x <= m && xx == x * x && mm == m * m
    ensures xx <= mm
  {
    MonoOf(x, m, x, xx, m * x);
    MonoOf(x, m, m, x * m, mm);
  }

  lemma DistanceExpands(p: real, a: real, v: real)
    ensures var x := v * (1.0 + a) - (p + a / 2.0);
            a * (p * (1.0 - p) + a / 4.0) - x * x == (1.0 + a) * (a * (v * (1.0 - v)) - (v - p) * (v - p))
  {
  }

  /** The ends of the interval are the roots of a quadratic in `v`. */
  lemma WilsonContains(p: real, a: real, m: real, v: real)
    requires a > 0.0 && m >= 0.0 && m * m == a * (p * (1.0 - p) + a / 4.0)
    ensures var d := 1.0 + a;
            (p + a / 2.0) / d - m / d <= v <= (p + a / 2.0) / d + m / d <==> (v - p) * (v - p) <= a * (v * (1.0 - v))
  {
    var d, c := 1.0 + a, p + a / 2.0;
    var x, gap := v * d - c, a * (v * (1.0 - v)) - (v - p) * (v - p);
    QuotientSubtract(c, m, d);
    QuotientAdd(c, m, d);
    QuotientLeExactlyWhen(c - m, d, v);
    QuotientGeExactlyWhen(c + m, d, v);
    SquareWithin(x, m, x * x, m * m);
    DistanceExpands(p, a, v);
    SameSign(d, gap, d * gap);
  }

  lemma SameSign(d: real, gap: real, product: real)
    requires d > 0.0 && product == d * gap
    ensures product >= 0.0 <==> gap >= 0.0
  {
    if gap > 0.0 { Positive(d, gap, product); }
    if gap < 0.0 { Positive(d, -gap, -product); }
  }

  lemma QuotientLeExactlyWhen(a: real, b: real, c: real)
    requires b > 0.0
    ensures a / b <= c <==> a <= c * b
  {
    if a <= c * b { QuotientLe(a, b, c); }
    if a / b <= c { QuotientTimes(a, b); MonoOf(a / b, c, b, a, c * b); }
  }

  lemma QuotientGeExactlyWhen(a: real, b: real, c: real)
    requires b > 0.0
    ensures a / b >= c <==> a >= c * b
  {
    if a >= c * b { QuotientGe(a, b, c); }
    if a / b >= c { QuotientTimes(a, b); MonoOf(c, a / b, b, c * b, a); }
  }

  lemma WilsonContainsExactlyWhen(successes: real, n: real, z: real, root: real, v: real)
    requires n > 0.0 && 0.0 <= successes <= n && z > 0.0 && IsRoot(root, WilsonRadicand(successes, n, z))
    requires 1.0 + z * z / n > 0.0
    ensures var ci, p := Wilson(successes, n, z, root), successes / n;
            ci.low <= v <= ci.high <==> n * ((v - p) * (v - p)) <= (z * z) * (v * (1.0 - v))
  {
    WilsonBrackets(successes, n, z, root);
    var p, a, m := WilsonShape(successes, n, z, root);
    hide WilsonRadicand, Wilson;
    WilsonContains(p, a, m, v);
    TimesN(n, z * z, a, (v - p) * (v - p), v * (1.0 - v));
  }

  lemma TimesN(n: real, zz: real, a: real, ww: real, vv: real)
    requires n > 0.0 && a == zz / n
    ensures ww <= a * vv <==> n * ww <= zz * vv
  {
    QuotientTimes(zz, n);
    assert n * a == zz;
    Associate(n, a, vv);
    ScaleExactly(n, ww, a * vv, n * ww, zz * vv);
  }

  lemma ScaleExactly(n: real, x: real, y: real, nx: real, ny: real)
    requires n > 0.0 && nx == n * x && ny == n * y
    ensures x <= y <==> nx <= ny
  {
    if x <= y { MonoOf(x, y, n, nx, ny); } else { StrictMonoOf(y, x, n, ny, nx); }
  }

  /** The interval of scores of 0 and 1 contains the weighted value it accompanies if and only if the value is no
      farther from the success rate than its own binomial spread allows. */
  lemma IntervalContainsValueExactlyWhen(obs: seq<Observation>, z: real, root: real, draws: Draws)
    requires z > 0.0 && |obs| >= 2 && ValidDraws(draws, |obs|) && IsBinary(obs)
    requires IsRoot(root, WilsonRadicand(Sum(Values(obs)), |obs| as real, z))
    ensures ConfidenceInterval(obs, z, root, draws).Some?
    ensures var ci, n, v := ConfidenceInterval(obs, z, root, draws).value, |obs| as real, Value(obs);
            var p := Sum(Values(obs)) / n;
            ci.low <= v <= ci.high <==> n * ((v - p) * (v - p)) <= (z * z) * (v * (1.0 - v))
  {
    hide WilsonRadicand, Wilson, Value, Sum;
    BinarySumBetween(obs);
    WilsonDenominator(|obs| as real, z);
    WilsonContainsExactlyWhen(Sum(Values(obs)), |obs| as real, z, root, Value(obs));
  }

  lemma {:induction false} WeightedSumOfEqual(obs: seq<Observation>, w: real)
    requires forall i | 0 <= i < |obs| :: Weight(obs[i]) == w
    ensures WeightedSum(obs) == Sum(Values(obs)) * w
  {
    if obs != [] {
      var front := obs[..|obs| - 1];
      WeightedSumOfEqual(front, w);
      assert Values(obs)[..|obs| - 1] == Values(front);
      Distribute(w, Sum(Values(front)), obs[|obs| - 1].value);
    }
  }

  /** With equal weights the value is the success rate itself, ... */
  lemma EqualWeightsGiveTheRate(obs: seq<Observation>)
    requires obs != [] && EqualWeights(obs)
    ensures Value(obs) == Sum(Values(obs)) / |obs| as real
  {
    var w, n, s := Weight(obs[0]), |obs| as real, Sum(Values(obs));
    TotalOfEqual(obs, w);
    WeightedSumOfEqual(obs, w);
    TotalWeightPositive(obs);
    QuotientTimes(s, n);
    var p := s / n;
    assert p * (n * w) == (p * n) * w;
    QuotientIs(p, s * w, n * w);
  }

  /** ... which the interval contains. */
  lemma EqualWeightsAreContained(obs: seq<Observation>, z: real, root: real, draws: Draws)
    requires z > 0.0 && |obs| >= 2 && ValidDraws(draws, |obs|) && IsBinary(obs) && EqualWeights(obs)
    requires IsRoot(root, WilsonRadicand(Sum(Values(obs)), |obs| as real, z))
    ensures ConfidenceInterval(obs, z, root, draws).Some?
    ensures var ci := ConfidenceInterval(obs, z, root, draws).value; ci.low <= Value(obs) <= ci.high
  {
    hide WilsonRadicand, Wilson, Value, Sum;
    BinarySumBetween(obs);
    WilsonDenominator(|obs| as real, z);
    WilsonBrackets(Sum(Values(obs)), |obs| as real, z, root);
    EqualWeightsGiveTheRate(obs);
  }

  /** For scores of 0 and 1 the interval ignores the weights that the value uses, so it need not contain the value. */
  lemma WilsonMayMissWeightedValue(root: real, draws: Draws)
    requires ValidDraws(draws, 2) && IsRoot(root, WilsonRadicand(1.0, 2.0, Z))
    ensures var obs := [Observation(1.0, 1000.0), Observation(0.0, 1.0)];
            && ConfidenceInterval(obs, Z, root, draws).Some?
            && ConfidenceInterval(obs, Z, root, draws).value.high < Value(obs)
  {
    var obs := [Observation(1.0, 1000.0), Observation(0.0, 1.0)];
    var one := [Observation(1.0, 1000.0)];
    assert obs[..1] == one && one[..0] == [];
    assert WeightedSum(one) == 1000.0 && TotalWeight(one) == 1000.0;
    assert WeightedSum(obs) == 1000.0 && TotalWeight(obs) == 1001.0;
    assert Value(obs) == 1000.0 / 1001.0;
    var values := Values(obs);
    assert values == [1.0, 0.0] && values[..1] == [1.0] && [1.0][..0] == [];
    assert Sum([1.0]) == 1.0 && Sum(values) == 1.0;
    WilsonBrackets(1.0, 2.0, Z, root);
    MissedByFar(root);
  }

  lemma MissedByFar(root: real)
    requires IsRoot(root, WilsonRadicand(1.0, 2.0, Z))
    ensures (1.0 / 2.0 + Z * Z / (2.0 * 2.0)) / (1.0 + Z * Z / 2.0) + Z * root / (1.0 + Z * Z / 2.0) < 0.99
  {
    assert WilsonRadicand(1.0, 2.0, Z) < 0.61 * 0.61;
    SquaresOrderStrict(root, 0.61, root * root, 0.61 * 0.61);
    assert Z * root < Z * 0.61;
  }

  lemma SquaresOrderStrict(m: real, c: real, mm: real, cc: real)
    requires m >= 0.0 && c >= 0.0 && mm == m * m && cc == c * c && mm < cc
    ensures m < c
  {
    if m >= c {
      MonoOf(c, m, c, cc, m * c);
      MonoOf(c, m, m, m * c, mm);
    }
  }

  /** The accumulation loop of a summary. */
  method WeightSums(obs: seq<Observation>) returns (weightedSum: real, totalWeight: real, squaredWeight: real)
    ensures weightedSum == WeightedSum(obs) && totalWeight == TotalWeight(obs) && squaredWeight == SquaredWeight(obs)
  {
    weightedSum, totalWeight, squaredWeight := 0.0, 0.0, 0.0;
    for i := 0 to |obs|
      invariant weightedSum == WeightedSum(obs[..i])
      invariant totalWeight == TotalWeight(obs[..i])
      invariant squaredWeight == SquaredWeight(obs[..i])
    {
      assert obs[..i + 1][..i] == obs[..i];
      var weight := obs[i].weight;
      if weight <= 0.0 {
        weight := 1.0;
      }
      weightedSum := weightedSum + obs[i].value * weight;
      totalWeight := totalWeight + weight;
      squaredWeight := squaredWeight + weight * weight;
    }
    assert obs[..|obs|] == obs;
  }

  method SummarizeMetric(obs: seq<Observation>, total: int, z: real, root: real, draws: Draws) returns (s: Summary)
    requires z > 0.0 && (obs != [] ==> ValidDraws(draws, |obs|))
    ensures s == Summarize(obs, total, z, root, draws)
    ensures s.eligible == |obs| && s.total == total
    ensures s.annotationCoverage == if total > 0 then |obs| as real / total as real else 0.0
    ensures s.interval == None <==> |obs| < 2
    ensures obs == [] ==> s.value == s.weightedCount == s.effectiveCount == 0.0
  {
    hide WeightedSum, TotalWeight, SquaredWeight;
    var coverage := 0.0;
    if total > 0 {
      coverage := |obs| as real / total as real;
    }
    if obs == [] {
      return Summary(0.0, 0, total, coverage, 0.0, 0.0, None);
    }
    var weightedSum, totalWeight, squaredWeight := WeightSums(obs);
    var effective := 0.0;
    if squaredWeight > 0.0 {
      effective := totalWeight * totalWeight / squaredWeight;
    }
    s := Summary(WeightedAverage(weightedSum, totalWeight), |obs|, total, coverage, totalWeight, effective,
                 ConfidenceInterval(obs, z, root, draws));
  }

  // ---------- the run's aggregation ----------

  /** One scored item: its weight after defaulting and the metrics it is eligible for. */
  datatype ItemScore = ItemScore(weight: real, metrics: map<string, real>)

  /** The observations of one metric, in item order. */
  function ObservationsOf(items: seq<ItemScore>, name: string): seq<Observation> {
    if items == [] then []
    else
      var last := items[|items| - 1];
      ObservationsOf(items[..|items| - 1], name)
      + if name in last.metrics then [Observation(last.metrics[name], last.weight)] else []
  }

  /** The three maps hold, under `name`, the aggregates of `obs` and the list itself. */
  ghost predicate HoldsAt(sums: map<string, real>, counts: map<string, real>, observations: map<string, seq<Observation>>,
                          name: string, obs: seq<Observation>)
  {
    if obs == [] then name !in sums && name !in counts && name !in observations
    else
      && name in sums && sums[name] == WeightedSum(obs)
      && name in counts && counts[name] == TotalWeight(obs)
      && name in observations && observations[name] == obs
  }

  ghost predicate Aggregated(items: seq<ItemScore>, sums: map<string, real>, counts: map<string, real>,
                             observations: map<string, seq<Observation>>)
  {
    forall name :: HoldsAt(sums, counts, observations, name, ObservationsOf(items, name))
  }

  lemma AppendAggregates(obs: seq<Observation>, value: real, weight: real)
    requires weight > 0.0
    ensures var next := obs + [Observation(value, weight)];
            && WeightedSum(next) == WeightedSum(obs) + value * weight
            && TotalWeight(next) == TotalWeight(obs) + weight
    ensures WeightedSum([]) == 0.0 && TotalWeight([]) == 0.0
  {
    var next := obs + [Observation(value, weight)];
    assert next[..|obs|] == obs;
  }

  lemma ObservationsStep(before: seq<ItemScore>, item: ItemScore)
    ensures forall name :: ObservationsOf(before + [item], name) ==
              ObservationsOf(before, name) + if name in item.metrics then [Observation(item.metrics[name], item.weight)] else []
  {
    assert (before + [item])[..|before|] == before;
  }

  /** The observations of `name` once the metrics outside `todo` have been visited. */
  ghost function Partial(before: seq<ItemScore>, item: ItemScore, todo: set<string>, name: string): seq<Observation> {
    ObservationsOf(before, name)
    + if name in item.metrics && name !in todo then [Observation(item.metrics[name], item.weight)] else []
  }

  lemma VisitOne(sums: map<string, real>, counts: map<string, real>, observations: map<string, seq<Observation>>,
                 sums': map<string, real>, counts': map<string, real>, observations': map<string, seq<Observation>>,
                 before: seq<ItemScore>, item: ItemScore, todo: set<string>, name: string, gain: real)
    requires name in todo && todo <= item.metrics.Keys && item.weight > 0.0
    requires forall m :: HoldsAt(sums, counts, observations, m, Partial(before, item, todo, m))
    requires gain == item.metrics[name] * item.weight
    requires sums' == sums[name := (if name in sums then sums[name] else 0.0) + gain]
    requires counts' == counts[name := (if name in counts then counts[name] else 0.0) + item.weight]
    requires observations' == observations[name :=
               (if name in observations then observations[name] else []) + [Observation(item.metrics[name], item.weight)]]
    ensures forall m :: HoldsAt(sums', counts', observations', m, Partial(before, item, todo - {name}, m))
  {
    hide WeightedSum, TotalWeight, ObservationsOf;
    var value, obs := item.metrics[name], Partial(before, item, todo, name);
    assert HoldsAt(sums, counts, observations, name, obs);
    AppendAggregates(obs, value, item.weight);
    assert Partial(before, item, todo - {name}, name) == obs + [Observation(value, item.weight)];
    forall m | m != name
      ensures Partial(before, item, todo - {name}, m) == Partial(before, item, todo, m)
      ensures HoldsAt(sums, counts, observations, m, Partial(before, item, todo, m))
    {
    }
  }

  /** The per-item loop: metrics are visited in an arbitrary order. */
  method AddItem(sums: map<string, real>, counts: map<string, real>, observations: map<string, seq<Observation>>,
                 ghost before: seq<ItemScore>, item: ItemScore)
    returns (sums': map<string, real>, counts': map<string, real>, observations': map<string, seq<Observation>>)
    requires Aggregated(before, sums, counts, observations) && item.weight > 0.0
    ensures Aggregated(before + [item], sums', counts', observations')
  {
    hide WeightedSum, TotalWeight, ObservationsOf, HoldsAt;
    sums', counts', observations' := sums, counts, observations;
    var todo := item.metrics.Keys;
    forall name ensures Partial(before, item, todo, name) == ObservationsOf(before, name) {}
    while todo != {}
      invariant todo <= item.metrics.Keys
      invariant forall name :: HoldsAt(sums', counts', observations', name, Partial(before, item, todo, name))
      decreases |todo|
    {
      var name :| name in todo;
      var value := item.metrics[name];
      var gain := value * item.weight;
      ghost var s, c, o := sums', counts', observations';
      sums' := sums'[name := (if name in sums' then sums'[name] else 0.0) + gain];
      counts' := counts'[name := (if name in counts' then counts'[name] else 0.0) + item.weight];
      observations' := observations'[name :=
        (if name in observations' then observations'[name] else []) + [Observation(value, item.weight)]];
      VisitOne(s, c, o, sums', counts', observations', before, item, todo, name, gain);
      todo := todo - {name};
    }
    ObservationsStep(before, item);
    forall name ensures HoldsAt(sums', counts', observations', name, ObservationsOf(before + [item], name)) {
      assert HoldsAt(sums', counts', observations', name, Partial(before, item, todo, name));
    }
  }

  method AggregateRun(items: seq<ItemScore>)
    returns (metrics: map<string, real>, observations: map<string, seq<Observation>>)
    requires forall i | 0 <= i < |items| :: items[i].weight > 0.0
    ensures forall name :: name in metrics <==> ObservationsOf(items, name) != []
    ensures forall name | name in metrics ::
              && name in observations && observations[name] == ObservationsOf(items, name)
              && metrics[name] == Value(observations[name])
  {
    var sums: map<string, real>, counts: map<string, real> := map[], map[];
    observations := map[];
    for i := 0 to |items|
      invariant Aggregated(items[..i], sums, counts, observations)
    {
      sums, counts, observations := AddItem(sums, counts, observations, items[..i], items[i]);
      assert items[..i] + [items[i]] == items[..i + 1];
    }
    assert items[..|items|] == items;
    forall name ensures HoldsAt(sums, counts, observations, name, ObservationsOf(items, name)) {}
    metrics := map name | name in sums && name in counts :: WeightedAverage(sums[name], counts[name]);
  }
}
