/** Rankings compared rank by rank, and total gains that do not see the order of the ranking. */
module GainDominance {
  import opened Arith
  import opened Discounts
  import opened Diversity

  // ---------- dominance ----------

  /** Undiscounted gain of a ranking. */
  ghost function TotalGain(ranked: seq<Labels>, beta: real): real {
    if ranked == [] then 0.0
    else
      var front := ranked[..|ranked| - 1];
      TotalGain(front, beta) + Gain(ranked[|ranked| - 1], front, beta)
  }

  function UpTo<T>(s: seq<T>, n: nat): seq<T> { if n <= |s| then s[..n] else s }

  /** At every depth of `x`, `y` has gained at least as much. */
  ghost predicate Dominates(y: seq<Labels>, x: seq<Labels>, beta: real) {
    forall j: nat | j <= |x| :: TotalGain(UpTo(x, j), beta) <= TotalGain(UpTo(y, j), beta)
  }

  /** With total gains `tx` and `ty` and discounted gains `ax` and `ay`, what `y` is ahead counts at least `d` each. */
  predicate Ahead(ay: real, ax: real, ty: real, tx: real, d: real) {
    tx <= ty && ay - ax >= (ty - tx) * d
  }

  lemma AheadStep(ay: real, ax: real, ty: real, tx: real, previous: real, gy: real, gx: real, d: real, py: real, px: real)
    requires Ahead(ay, ax, ty, tx, previous) && previous >= d && py == gy * d && px == gx * d && tx + gx <= ty + gy
    ensures Ahead(ay + py, ax + px, ty + gy, tx + gx, d)
  {
    MonoOf(d, previous, ty - tx, d * (ty - tx), previous * (ty - tx));
    Distribute(d, ty - tx, gy - gx);
    Distribute(d, gy, gx);
  }

  /** What the last rank gains, undiscounted and discounted. */
  lemma LastGain(x: seq<Labels>, front: seq<Labels>, beta: real, d: nat -> real) returns (g: real, p: real)
    requires x != [] && front == x[..|x| - 1]
    ensures p == g * d(|x|) && g == Gain(x[|x| - 1], front, beta)
    ensures TotalGain(x, beta) == TotalGain(front, beta) + g
    ensures AlphaDCG(x, beta, d) == AlphaDCG(front, beta, d) + p
  {
    hide Gain;
    g := Gain(x[|x| - 1], front, beta);
    p := g * d(|x|);
  }

  lemma FrontDominates(y: seq<Labels>, x: seq<Labels>, beta: real)
    requires Dominates(y, x, beta) && x != []
    ensures Dominates(y, x[..|x| - 1], beta)
    ensures |y| == |x| ==> Dominates(y[..|y| - 1], x[..|x| - 1], beta)
  {
    hide TotalGain;
    var front := x[..|x| - 1];
    forall j: nat | j <= |front|
      ensures TotalGain(UpTo(front, j), beta) <= TotalGain(UpTo(y, j), beta)
      ensures |y| == |x| ==> UpTo(y[..|y| - 1], j) == UpTo(y, j)
    {
      assert UpTo(front, j) == UpTo(x, j);
    }
  }

  ghost predicate LeavesOver(y: seq<Labels>, x: seq<Labels>, beta: real, d: nat -> real) {
    Ahead(AlphaDCG(y, beta, d), AlphaDCG(x, beta, d), TotalGain(y, beta), TotalGain(x, beta), d(|x|))
  }

  lemma NextDiscount(d: nat -> real, n: nat)
    requires IsDiscount(d)
    ensures d(n) >= d(n + 1) > 0.0
  {
  }

  lemma OneMoreOfX(y: seq<Labels>, x: seq<Labels>, xs: seq<Labels>, beta: real, d: nat -> real)
    requires IsDiscount(d) && x != [] && xs == x[..|x| - 1]
    requires LeavesOver(y, xs, beta, d) && TotalGain(x, beta) <= TotalGain(y, beta)
    ensures LeavesOver(y, x, beta, d)
  {
    hide TotalGain, AlphaDCG, Gain, Ahead, IsDiscount;
    var g, p := LastGain(x, xs, beta, d);
    NextDiscount(d, |xs|);
    AheadStep(AlphaDCG(y, beta, d), AlphaDCG(xs, beta, d), TotalGain(y, beta), TotalGain(xs, beta), d(|xs|), 0.0, g, d(|x|), 0.0, p);
  }

  lemma OneMoreOfBoth(y: seq<Labels>, ys: seq<Labels>, x: seq<Labels>, xs: seq<Labels>, beta: real, d: nat -> real)
    requires IsDiscount(d) && x != [] && xs == x[..|x| - 1] && |y| == |x| && ys == y[..|y| - 1]
    requires LeavesOver(ys, xs, beta, d) && TotalGain(x, beta) <= TotalGain(y, beta)
    ensures LeavesOver(y, x, beta, d)
  {
    hide TotalGain, AlphaDCG, Gain, Ahead, IsDiscount;
    var gx, px := LastGain(x, xs, beta, d);
    var gy, py := LastGain(y, ys, beta, d);
    NextDiscount(d, |xs|);
    AheadStep(AlphaDCG(ys, beta, d), AlphaDCG(xs, beta, d), TotalGain(ys, beta), TotalGain(xs, beta), d(|xs|),
              gy, gx, d(|x|), py, px);
  }

  /** Summation by parts. */
  lemma {:induction false} DiscountedSlack(y: seq<Labels>, x: seq<Labels>, beta: real, d: nat -> real)
    requires IsDiscount(d) && |y| <= |x| && Dominates(y, x, beta)
    ensures LeavesOver(y, x, beta, d)
    decreases |x|
  {
    assert UpTo(x, |x|) == x && UpTo(y, |x|) == y;
    if x != [] {
      FrontDominates(y, x, beta);
      assert TotalGain(x, beta) <= TotalGain(y, beta);
      hide TotalGain, AlphaDCG, Dominates, UpTo, LeavesOver, IsDiscount;
      if |y| < |x| {
        DiscountedSlack(y, x[..|x| - 1], beta, d);
        OneMoreOfX(y, x, x[..|x| - 1], beta, d);
      } else {
        DiscountedSlack(y[..|y| - 1], x[..|x| - 1], beta, d);
        OneMoreOfBoth(y, y[..|y| - 1], x, x[..|x| - 1], beta, d);
      }
    }
  }

  lemma {:induction false} PrefixGainsLess(y: seq<Labels>, n: nat, beta: real, d: nat -> real)
    requires 0.0 < beta < 1.0 && IsDiscount(d) && n <= |y|
    ensures AlphaDCG(y[..n], beta, d) <= AlphaDCG(y, beta, d)
  {
    if n == |y| {
      assert y[..n] == y;
    } else {
      var front, g := y[..|y| - 1], Gain(y[|y| - 1], y[..|y| - 1], beta);
      PrefixGainsLess(front, n, beta, d);
      assert front[..n] == y[..n];
      GainSign(y[|y| - 1], front, beta);
      NonNegative(g, d(|y|), g * d(|y|));
    }
  }

  lemma CutDominates(y: seq<Labels>, x: seq<Labels>, beta: real)
    requires Dominates(y, x, beta)
    ensures Dominates(UpTo(y, |x|), x, beta)
  {
    hide TotalGain;
    forall j: nat | j <= |x| ensures UpTo(UpTo(y, |x|), j) == UpTo(y, j) {}
  }

  lemma SlackIsNonNegative(y: seq<Labels>, x: seq<Labels>, beta: real, d: nat -> real)
    requires IsDiscount(d) && LeavesOver(y, x, beta, d)
    ensures AlphaDCG(x, beta, d) <= AlphaDCG(y, beta, d)
  {
    hide TotalGain, AlphaDCG;
    var slack := TotalGain(y, beta) - TotalGain(x, beta);
    NonNegative(slack, d(|x|), slack * d(|x|));
  }

  lemma DominanceBounds(y: seq<Labels>, x: seq<Labels>, beta: real, d: nat -> real)
    requires 0.0 < beta < 1.0 && IsDiscount(d) && Dominates(y, x, beta)
    ensures AlphaDCG(x, beta, d) <= AlphaDCG(y, beta, d)
  {
    hide TotalGain, AlphaDCG, Dominates, LeavesOver, IsDiscount;
    var cut := UpTo(y, |x|);
    CutDominates(y, x, beta);
    DiscountedSlack(cut, x, beta, d);
    SlackIsNonNegative(cut, x, beta, d);
    assert cut == y[..|cut|];
    PrefixGainsLess(y, |cut|, beta, d);
  }

  /** A discount that is nearly 1 up to rank `j` and nearly 0 behind it. */
  function NearlyCutAt(j: nat, eps: real): nat -> real {
    (r: nat) => (if r <= j then 1.0 else 0.0) + eps * Harmonic()(r)
  }

  function Harmonic(): nat -> real { (r: nat) => 1.0 / (r + 1) as real }

  lemma HarmonicIsDiscount()
    ensures IsDiscount(Harmonic())
  {
    var h := Harmonic();
    forall r: nat ensures h(r) > 0.0 { QuotientTimes(1.0, (r + 1) as real); }
    forall r: nat, s: nat | r < s ensures h(r) > h(s) {
      QuotientTimes(1.0, (r + 1) as real);
      QuotientTimes(1.0, (s + 1) as real);
      if h(r) <= h(s) {
        StrictMonoOf((r + 1) as real, (s + 1) as real, h(s), (r + 1) as real * h(s), (s + 1) as real * h(s));
        MonoOf(h(r), h(s), (r + 1) as real, h(r) * (r + 1) as real, h(s) * (r + 1) as real);
      }
    }
  }

  lemma SmallerSum(a: real, b: real, eps: real, x: real, y: real)
    requires a <= b && eps > 0.0 && 0.0 < x < y
    ensures a + eps * x < b + eps * y
    ensures a >= 0.0 ==> a + eps * x > 0.0
  {
    StrictMonoOf(x, y, eps, eps * x, eps * y);
    Positive(eps, x, eps * x);
  }

  lemma NearlyCutIsDiscount(j: nat, eps: real)
    requires eps > 0.0
    ensures IsDiscount(NearlyCutAt(j, eps))
  {
    HarmonicIsDiscount();
    var h, d := Harmonic(), NearlyCutAt(j, eps);
    hide Harmonic;
    forall r: nat, s: nat | r < s ensures d(r) > d(s) && d(s) > 0.0 {
      SmallerSum(if s <= j then 1.0 else 0.0, if r <= j then 1.0 else 0.0, eps, h(s), h(r));
    }
    forall r: nat ensures d(r) > 0.0 { assert d(r) > d(r + 1); }
  }

  lemma NoGains(j: nat, beta: real, d: nat -> real)
    ensures AlphaDCG([], beta, d) == 0.0 && TotalGain(UpTo([], j), beta) == 0.0
  {
    var none: seq<Labels> := [];
    assert UpTo(none, j) == none;
  }

  lemma {:induction false} NearlyCutGain(z: seq<Labels>, j: nat, eps: real, beta: real)
    ensures AlphaDCG(z, beta, NearlyCutAt(j, eps)) == TotalGain(UpTo(z, j), beta) + eps * AlphaDCG(z, beta, Harmonic())
  {
    hide TotalGain, AlphaDCG, Harmonic, NearlyCutAt, UpTo;
    if z == [] {
      NoGains(j, beta, NearlyCutAt(j, eps));
      NoGains(j, beta, Harmonic());
    } else {
      NearlyCutGain(z[..|z| - 1], j, eps, beta);
      NearlyCutGainStep(z, j, eps, beta);
    }
  }

  lemma NearlyCutGainStep(z: seq<Labels>, j: nat, eps: real, beta: real)
    requires z != []
    requires var front := z[..|z| - 1];
             AlphaDCG(front, beta, NearlyCutAt(j, eps)) == TotalGain(UpTo(front, j), beta) + eps * AlphaDCG(front, beta, Harmonic())
    ensures AlphaDCG(z, beta, NearlyCutAt(j, eps)) == TotalGain(UpTo(z, j), beta) + eps * AlphaDCG(z, beta, Harmonic())
  {
    hide TotalGain, AlphaDCG, Gain, Harmonic;
    var d, h, n, front := NearlyCutAt(j, eps), Harmonic(), |z|, z[..|z| - 1];
    var a := if n <= j then 1.0 else 0.0;
    var g, p := LastGain(z, front, beta, d);
    var same, q := LastGain(z, front, beta, h);
    assert d(n) == a + eps * h(n);
    hide NearlyCutAt;
    SplitDiscount(g, a, eps, h(n), AlphaDCG(front, beta, h));
    if n <= j {
      assert UpTo(z, j) == z && UpTo(front, j) == front;
    } else {
      assert UpTo(z, j) == UpTo(front, j);
    }
  }

  lemma SplitDiscount(g: real, a: real, eps: real, b: real, t: real)
    ensures g * (a + eps * b) == g * a + eps * (g * b)
    ensures eps * (t + g * b) == eps * t + eps * (g * b)
    ensures a == 1.0 ==> g * a == g
    ensures a == 0.0 ==> g * a == 0.0
  {
  }

  /** Dominance at every depth is exactly what bounds one ranking's gain by another's for every discount. */
  lemma BoundedExactlyWhenDominated(y: seq<Labels>, x: seq<Labels>, beta: real)
    requires 0.0 < beta < 1.0
    ensures (forall d | IsDiscount(d) :: AlphaDCG(x, beta, d) <= AlphaDCG(y, beta, d)) <==> Dominates(y, x, beta)
  {
    if Dominates(y, x, beta) {
      forall d | IsDiscount(d) ensures AlphaDCG(x, beta, d) <= AlphaDCG(y, beta, d) {
        DominanceBounds(y, x, beta, d);
      }
    } else {
      var j: nat :| j <= |x| && TotalGain(UpTo(x, j), beta) > TotalGain(UpTo(y, j), beta);
      CutSeparates(y, x, j, beta);
    }
  }

  lemma CutSeparates(y: seq<Labels>, x: seq<Labels>, j: nat, beta: real)
    requires 0.0 < beta < 1.0 && TotalGain(UpTo(x, j), beta) > TotalGain(UpTo(y, j), beta)
    ensures exists d :: IsDiscount(d) && AlphaDCG(x, beta, d) > AlphaDCG(y, beta, d)
  {
    hide TotalGain, AlphaDCG;
    var h := Harmonic();
    HarmonicIsDiscount();
    AlphaDCGSign(x, beta, h);
    AlphaDCGSign(y, beta, h);
    var lead, tail := TotalGain(UpTo(x, j), beta) - TotalGain(UpTo(y, j), beta), AlphaDCG(y, beta, h);
    var eps := lead / (tail + 1.0);
    QuotientTimes(lead, tail + 1.0);
    Positive(lead, 1.0 / (tail + 1.0), eps);
    var d := NearlyCutAt(j, eps);
    NearlyCutIsDiscount(j, eps);
    NearlyCutGain(x, j, eps, beta);
    NearlyCutGain(y, j, eps, beta);
    NonNegative(eps, AlphaDCG(x, beta, h), eps * AlphaDCG(x, beta, h));
    Distribute(eps, tail, 1.0);
    assert AlphaDCG(x, beta, d) > AlphaDCG(y, beta, d);
  }

  // ---------- the total gain does not see the order ----------

  lemma {:induction false} SeenAppend(a: seq<Labels>, b: seq<Labels>, l: string)
    ensures SeenCount(a + b, l) == SeenCount(a, l) + SeenCount(b, l)
  {
    if b == [] {
      assert a + b == a;
    } else {
      assert (a + b)[..|a + b| - 1] == a + b[..|b| - 1];
      SeenAppend(a, b[..|b| - 1], l);
    }
  }

  lemma SeenOneMore(history: seq<Labels>, z: Labels, l: string)
    ensures SeenCount(history + [z], l) == SeenCount(history, l) + if l in z then 1 else 0
  {
    assert (history + [z])[..|history|] == history;
  }

  /** Fewer labels seen, no smaller gain. */
  lemma {:induction false} GainAntitone(labels: Labels, less: seq<Labels>, more: seq<Labels>, beta: real)
    requires 0.0 < beta < 1.0 && forall l | l in labels :: SeenCount(less, l) <= SeenCount(more, l)
    ensures Gain(labels, more, beta) <= Gain(labels, less, beta)
    decreases |labels|
  {
    if labels != {} {
      var l :| l in labels;
      GainAntitone(labels - {l}, less, more, beta);
      GainRemove(labels, l, less, beta);
      GainRemove(labels, l, more, beta);
      PowDecreases(beta, SeenCount(less, l), SeenCount(more, l));
    }
  }

  lemma {:induction false} GainSeesCounts(labels: Labels, a: seq<Labels>, b: seq<Labels>, beta: real)
    requires forall l | l in labels :: SeenCount(a, l) == SeenCount(b, l)
    ensures Gain(labels, a, beta) == Gain(labels, b, beta)
    decreases |labels|
  {
    if labels != {} {
      var l :| l in labels;
      GainSeesCounts(labels - {l}, a, b, beta);
      GainRemove(labels, l, a, beta);
      GainRemove(labels, l, b, beta);
    }
  }

  ghost predicate SplitsAfter(labels: Labels, history: seq<Labels>, z: Labels, beta: real) {
    var outside, inside := Gain(labels - z, history, beta), Gain(labels * z, history, beta);
    Gain(labels, history, beta) == outside + inside && Gain(labels, history + [z], beta) == outside + beta * inside
  }

  lemma {:induction false} GainAfter(labels: Labels, history: seq<Labels>, z: Labels, beta: real)
    ensures SplitsAfter(labels, history, z, beta)
    decreases |labels|
  {
    if labels == {} {
      assert labels - z == {} && labels * z == {};
    } else {
      hide SplitsAfter;
      var l :| l in labels;
      GainAfter(labels - {l}, history, z, beta);
      GainAfterOne(labels, l, history, z, beta);
    }
  }

  lemma GainAfterOne(labels: Labels, l: string, history: seq<Labels>, z: Labels, beta: real)
    requires l in labels && SplitsAfter(labels - {l}, history, z, beta)
    ensures SplitsAfter(labels, history, z, beta)
  {
    hide Gain, SeenCount;
    var rest, p := labels - {l}, Pow(beta, SeenCount(history, l));
    GainRemove(labels, l, history, beta);
    GainRemove(labels, l, history + [z], beta);
    SeenOneMore(history, z, l);
    if l in z {
      assert Pow(beta, SeenCount(history, l) + 1) == beta * p;
      hide Pow;
      assert rest - z == labels - z && labels * z - {l} == rest * z;
      GainRemove(labels * z, l, history, beta);
      Distribute(beta, p, Gain(rest * z, history, beta));
    } else {
      hide Pow;
      assert labels - z - {l} == rest - z && rest * z == labels * z;
      GainRemove(labels - z, l, history, beta);
    }
  }

  lemma SwapGains(a: Labels, z: Labels, history: seq<Labels>, beta: real)
    ensures Gain(a, history, beta) + Gain(z, history + [a], beta) == Gain(z, history, beta) + Gain(a, history + [z], beta)
  {
    hide Gain;
    GainAfter(a, history, z, beta);
    GainAfter(z, history, a, beta);
    assert a * z == z * a;
  }

  function Without<T>(s: seq<T>, t: nat): seq<T>
    requires t < |s|
  {
    s[..t] + s[t + 1..]
  }

  lemma TotalAppend(s: seq<Labels>, z: Labels, beta: real)
    ensures TotalGain(s + [z], beta) == TotalGain(s, beta) + Gain(z, s, beta)
  {
    assert (s + [z])[..|s|] == s;
  }

  /** Ranking an element last instead leaves the total. */
  lemma {:induction false} MoveToEnd(s: seq<Labels>, t: nat, beta: real)
    requires t < |s|
    ensures TotalGain(s, beta) == TotalGain(Without(s, t), beta) + Gain(s[t], Without(s, t), beta)
  {
    var last := |s| - 1;
    var front, z, a := s[..last], s[last], s[t];
    if t == last {
      assert Without(s, t) == front;
    } else {
      var rest := Without(front, t);
      MoveToEnd(front, t, beta);
      assert Without(s, t) == rest + [z];
      forall l | l in z ensures SeenCount(front, l) == SeenCount(rest + [a], l) {
        SeenAppend(front[..t], front[t + 1..], l);
        SeenAppend(front[..t] + [a], front[t + 1..], l);
        assert front == front[..t] + [a] + front[t + 1..];
        SeenOneMore(front[..t], a, l);
        SeenOneMore(rest, a, l);
      }
      GainSeesCounts(z, front, rest + [a], beta);
      SwapGains(a, z, rest, beta);
      TotalAppend(rest, z, beta);
    }
  }
}
