/** When alpha-nDCG stays at most 1, and when its ideal does not depend on the order of the candidates. */
module DiversityBounds {
  import opened Arith
  import opened Discounts
  import opened Diversity
  import opened GainDominance
  import opened Sorting

  // ---------- copies of a label set ----------

  function IndicesOf(c: seq<Labels>, x: Labels): (r: seq<nat>) {
    if c == [] then [] else IndicesOf(c[..|c| - 1], x) + if c[|c| - 1] == x then [|c| - 1] else []
  }

  lemma {:induction false} IndicesFacts(c: seq<Labels>, x: Labels)
    ensures Distinct(IndicesOf(c, x)) && |IndicesOf(c, x)| == multiset(c)[x]
    ensures forall i: nat :: i in IndicesOf(c, x) <==> i < |c| && c[i] == x
  {
    if c != [] {
      hide Distinct;
      var front, last := c[..|c| - 1], c[|c| - 1];
      var before := IndicesOf(front, x);
      IndicesFacts(front, x);
      assert multiset(c) == multiset(front) + multiset{last} by { assert c == front + [last]; }
      DistinctAppend(before, |front|);
      forall i: nat ensures i in IndicesOf(c, x) <==> i < |c| && c[i] == x {
        assert i < |front| ==> front[i] == c[i];
      }
    } else {
      assert Distinct(IndicesOf(c, x));
    }
  }

  function PicksOf(c: seq<Labels>, picks: seq<nat>, x: Labels): seq<nat> {
    if picks == [] then []
    else
      var last := picks[|picks| - 1];
      PicksOf(c, picks[..|picks| - 1], x) + if At(c, last) == x then [last] else []
  }

  lemma {:induction false} PicksFacts(c: seq<Labels>, picks: seq<nat>, x: Labels)
    requires Distinct(picks)
    ensures Distinct(PicksOf(c, picks, x)) && |PicksOf(c, picks, x)| == multiset(Chosen(c, picks))[x]
    ensures forall i :: i in PicksOf(c, picks, x) <==> i in picks && At(c, i) == x
  {
    if picks != [] {
      var front, last := picks[..|picks| - 1], picks[|picks| - 1];
      PicksFacts(c, front, x);
      assert picks == front + [last];
      assert last !in front;
      DistinctAppend(PicksOf(c, front, x), last);
      assert Chosen(c, picks) == Chosen(c, front) + [At(c, last)];
    }
  }

  ghost predicate HasUnused(c: seq<Labels>, picks: seq<nat>, x: Labels) {
    exists i: nat :: i < |c| && i !in picks && c[i] == x
  }

  /** A copy of `x` is unused exactly when the candidates hold more copies than were chosen. */
  lemma UnusedExactlyWhen(c: seq<Labels>, picks: seq<nat>, x: Labels)
    requires Distinct(picks) && forall i | i in picks :: i < |c|
    ensures HasUnused(c, picks, x) <==> multiset(Chosen(c, picks))[x] < multiset(c)[x]
  {
    var all, chosen := IndicesOf(c, x), PicksOf(c, picks, x);
    IndicesFacts(c, x);
    PicksFacts(c, picks, x);
    if HasUnused(c, picks, x) {
      var i: nat :| i < |c| && i !in picks && c[i] == x;
      DistinctInside(chosen + [i], all);
    } else {
      DistinctInside(all, chosen);
    }
  }

  lemma GreedyFacts(c: seq<Labels>, picks: seq<nat>, k: nat, beta: real, r: nat)
    requires IsGreedy(c, picks, k, beta) && r <= |picks|
    ensures Distinct(picks[..r]) && forall i | i in picks[..r] :: i < |c|
  {
    var first := picks[..r];
    forall s, t | 0 <= s < t < r ensures first[s] != first[t] {
      assert Fresh(picks, t, picks[t]);
      assert picks[..t][s] == first[s];
    }
  }

  // ---------- references that overlap fully or not at all ----------

  ghost predicate Flat(c: seq<Labels>) {
    forall i, j | 0 <= i < |c| && 0 <= j < |c| :: c[i] == c[j] || c[i] !! c[j]
  }

  /** No label set is ranked more often than there are candidates for it; rankings without labels do not matter. */
  ghost predicate Within(ranked: seq<Labels>, c: seq<Labels>) {
    forall x: Labels | x in ranked && x != {} :: multiset(ranked)[x] <= multiset(c)[x]
  }

  lemma {:induction false} FlatSeen(history: seq<Labels>, x: Labels, l: string)
    requires l in x && forall h | h in history :: h == x || h !! x
    ensures SeenCount(history, l) == multiset(history)[x]
  {
    if history != [] {
      var front := history[..|history| - 1];
      var last := history[|history| - 1];
      assert history == front + [last] && last in history;
      assert forall h | h in front :: h in history;
      FlatSeen(front, x, l);
    }
  }

  lemma TotalMonotone(s: seq<Labels>, n: nat, beta: real)
    requires 0.0 < beta < 1.0
    ensures TotalGain(UpTo(s, n), beta) <= TotalGain(UpTo(s, n + 1), beta)
  {
    if n < |s| {
      assert UpTo(s, n + 1) == UpTo(s, n) + [s[n]];
      TotalAppend(UpTo(s, n), s[n], beta);
      GainSign(s[n], UpTo(s, n), beta);
    } else {
      assert UpTo(s, n + 1) == UpTo(s, n);
    }
  }

  lemma WithinWithout(xs: seq<Labels>, t: nat, c: seq<Labels>)
    requires t < |xs| && Within(xs, c)
    ensures Within(Without(xs, t), c) && |Without(xs, t)| == |xs| - 1
    ensures multiset(xs) == multiset(Without(xs, t)) + multiset{xs[t]}
  {
    RemoveOne(xs, t);
    var rest := Without(xs, t);
    assert xs[t] in multiset(xs);
    forall x: Labels | x in rest && x != {} ensures multiset(rest)[x] <= multiset(c)[x] {
      assert x in multiset(rest);
      assert x in multiset(xs);
    }
  }

  lemma NoLonger(xs: seq<Labels>, ys: seq<Labels>)
    requires forall x | x in xs :: multiset(xs)[x] <= multiset(ys)[x]
    ensures |xs| <= |ys|
  {
    var a, b := multiset(xs), multiset(ys);
    forall x ensures a[x] <= b[x] {
      if x !in xs { assert x !in a; }
    }
    assert b == a + (b - a);
    assert |a| == |xs| && |b| == |ys|;
  }

  /** By pigeonhole some label set occurs more often in the longer list. */
  lemma MoreOf(xs: seq<Labels>, ys: seq<Labels>) returns (t: nat)
    requires |xs| > |ys|
    ensures t < |xs| && multiset(xs)[xs[t]] > multiset(ys)[xs[t]]
  {
    if forall x | x in xs :: multiset(xs)[x] <= multiset(ys)[x] {
      NoLonger(xs, ys);
    }
    var x :| x in xs && multiset(xs)[x] > multiset(ys)[x];
    t :| t < |xs| && xs[t] == x;
  }

  /** After fewer copies of `x` its labels were seen less often. */
  lemma FewerSeen(c: seq<Labels>, top: seq<Labels>, rest: seq<Labels>, x: Labels, beta: real)
    requires 0.0 < beta < 1.0 && Flat(c) && x in c && (forall h | h in top :: h in c) && (forall h | h in rest :: h in c || h == {})
    requires multiset(top)[x] <= multiset(rest)[x]
    ensures Gain(x, rest, beta) <= Gain(x, top, beta)
  {
    hide Gain;
    forall l | l in x ensures SeenCount(top, l) <= SeenCount(rest, l) {
      FlatSeen(top, x, l);
      FlatSeen(rest, x, l);
    }
    GainAntitone(x, top, rest, beta);
  }

  /** The greedy pick behind some greedy picks gains no less than any unused copy of `x`. */
  lemma GreedyGains(c: seq<Labels>, picks: seq<nat>, k: nat, beta: real, n: nat, x: Labels)
    requires 0.0 < beta < 1.0 && IsGreedy(c, picks, k, beta) && n < k && x != {}
    requires multiset(UpTo(Chosen(c, picks), n))[x] < multiset(c)[x]
    ensures var top := UpTo(Chosen(c, picks), n);
            && (forall h | h in top :: h in c)
            && TotalGain(UpTo(Chosen(c, picks), n + 1), beta) >= TotalGain(top, beta) + Gain(x, top, beta)
  {
    hide TotalGain, Gain, IsGreedy;
    var top, used := UpTo(Chosen(c, picks), n), UpTo(picks, n);
    assert used == picks[..|used|] && top == Chosen(c, used);
    GreedyFacts(c, picks, k, beta, |used|);
    MembersOfChosen(c, used);
    UnusedExactlyWhen(c, used, x);
    var i: nat :| i < |c| && i !in used && c[i] == x;
    GreedyBeats(c, picks, k, beta, n, i);
    assert UpTo(Chosen(c, picks), n + 1) == top + [c[picks[n]]];
    TotalAppend(top, c[picks[n]], beta);
  }

  lemma MembersOfChosen(c: seq<Labels>, used: seq<nat>)
    requires forall i | i in used :: i < |c|
    ensures forall h | h in Chosen(c, used) :: h in c
  {
    forall r | 0 <= r < |used| ensures Chosen(c, used)[r] in c { assert used[r] in used; }
  }

  lemma GreedyBeats(c: seq<Labels>, picks: seq<nat>, k: nat, beta: real, n: nat, i: nat)
    requires 0.0 < beta < 1.0 && IsGreedy(c, picks, k, beta) && n < k && i < |c| && i !in UpTo(picks, n) && c[i] != {}
    ensures n < |picks| && picks[n] < |c|
    ensures Gain(c[i], UpTo(Chosen(c, picks), n), beta) <= Gain(c[picks[n]], UpTo(Chosen(c, picks), n), beta)
  {
    if n >= |picks| {
      GreedyUsesEveryLabel(c, picks, k, beta, i);
    } else {
      assert UpTo(Chosen(c, picks), n) == Chosen(c, picks[..n]);
      assert Fresh(picks, n, i);
      assert PickGain(c, picks, n, i, beta) <= PickGain(c, picks, n, picks[n], beta);
    }
  }

  /** An element without labels, or one that occurs more often than among the first greedy picks. */
  lemma ElementToDrop(xs: seq<Labels>, top: seq<Labels>) returns (t: nat)
    requires |xs| > |top|
    ensures t < |xs| && (xs[t] == {} || multiset(xs)[xs[t]] > multiset(top)[xs[t]])
  {
    if i :| 0 <= i < |xs| && xs[i] == {} {
      t := i;
    } else {
      t := MoreOf(xs, top);
    }
  }

  lemma WithinMembers(xs: seq<Labels>, c: seq<Labels>)
    requires Within(xs, c)
    ensures forall h | h in xs :: h in c || h == {}
  {
    forall h | h in xs && h != {} ensures h in c {
      assert h in multiset(xs);
      assert h in multiset(c);
    }
  }

  lemma GreedyIsBestStep(c: seq<Labels>, picks: seq<nat>, k: nat, beta: real, xs: seq<Labels>, t: nat)
    requires 0.0 < beta < 1.0 && Flat(c) && IsGreedy(c, picks, k, beta) && Within(xs, c) && |xs| <= k && t < |xs|
    requires var top := UpTo(Chosen(c, picks), |xs| - 1);
             && (xs[t] == {} || multiset(xs)[xs[t]] > multiset(top)[xs[t]])
             && TotalGain(Without(xs, t), beta) <= TotalGain(top, beta)
    ensures TotalGain(xs, beta) <= TotalGain(UpTo(Chosen(c, picks), |xs|), beta)
  {
    hide TotalGain, Gain, IsGreedy, Flat, Chosen, UpTo;
    var n, rest, x := |xs| - 1, Without(xs, t), xs[t];
    var top := UpTo(Chosen(c, picks), n);
    MoveToEnd(xs, t, beta);
    if x == {} {
      GainSign(x, rest, beta);
      TotalMonotone(Chosen(c, picks), n, beta);
    } else {
      WithinMembers(xs, c);
      assert x in xs && multiset(xs)[x] <= multiset(c)[x];
      WithinWithout(xs, t, c);
      WithinMembers(rest, c);
      hide Within, Without;
      assert multiset(rest)[x] == multiset(xs)[x] - 1;
      GreedyGains(c, picks, k, beta, n, x);
      FewerSeen(c, top, rest, x, beta);
    }
  }

  lemma NothingYet(s: seq<Labels>, beta: real)
    ensures TotalGain(UpTo(s, 0), beta) == TotalGain([], beta) == 0.0
  {
    assert UpTo(s, 0) == [];
  }

  lemma DropOne(c: seq<Labels>, chosen: seq<Labels>, xs: seq<Labels>) returns (t: nat)
    requires Within(xs, c) && xs != []
    ensures t < |xs| && Within(Without(xs, t), c) && |Without(xs, t)| == |xs| - 1
    ensures xs[t] == {} || multiset(xs)[xs[t]] > multiset(UpTo(chosen, |xs| - 1))[xs[t]]
  {
    t := ElementToDrop(xs, UpTo(chosen, |xs| - 1));
    WithinWithout(xs, t, c);
  }

  /** Of all selections from flat candidates the greedy one has gained most at every depth. */
  lemma {:induction false} GreedyIsBest(c: seq<Labels>, picks: seq<nat>, k: nat, beta: real, xs: seq<Labels>)
    requires 0.0 < beta < 1.0 && Flat(c) && IsGreedy(c, picks, k, beta) && Within(xs, c) && |xs| <= k
    ensures TotalGain(xs, beta) <= TotalGain(UpTo(Chosen(c, picks), |xs|), beta)
    decreases |xs|
  {
    hide TotalGain, Gain, IsGreedy, Flat, Chosen, Within, Without, UpTo;
    if xs == [] {
      NothingYet(Chosen(c, picks), beta);
    } else {
      var t := DropOne(c, Chosen(c, picks), xs);
      GreedyIsBest(c, picks, k, beta, Without(xs, t));
      GreedyIsBestStep(c, picks, k, beta, xs, t);
    }
  }

  lemma WithinPrefix(ranked: seq<Labels>, j: nat, c: seq<Labels>)
    requires j <= |ranked| && Within(ranked, c)
    ensures Within(ranked[..j], c)
  {
    assert ranked == ranked[..j] + ranked[j..];
    assert multiset(ranked) == multiset(ranked[..j]) + multiset(ranked[j..]);
    forall x: Labels | x in ranked[..j] && x != {} ensures multiset(ranked[..j])[x] <= multiset(c)[x] {
      assert x in ranked;
    }
  }

  /** No ranking that uses each of flat candidates at most once gains more than the greedy ideal. */
  lemma FlatIdealIsGreatest(c: seq<Labels>, picks: seq<nat>, k: nat, beta: real, d: nat -> real, ranked: seq<Labels>)
    requires 0.0 < beta < 1.0 && IsDiscount(d)
    requires Flat(c) && IsGreedy(c, picks, k, beta) && Within(ranked, c) && |ranked| <= k
    ensures AlphaDCG(ranked, beta, d) <= AlphaDCG(Chosen(c, picks), beta, d)
  {
    hide TotalGain, Gain, IsGreedy, Flat, Chosen, AlphaDCG, Within;
    forall j: nat | j <= |ranked|
      ensures TotalGain(UpTo(ranked, j), beta) <= TotalGain(UpTo(Chosen(c, picks), j), beta)
    {
      WithinPrefix(ranked, j, c);
      GreedyIsBest(c, picks, k, beta, ranked[..j]);
    }
    DominanceBounds(Chosen(c, picks), ranked, beta, d);
  }

  /** alpha-nDCG is at most 1 when any two references carry the same labels or none in common, and every labelled
      result carries the labels of a reference of its own. */
  lemma FlatReferencesBoundTheScore(results: seq<SearchResult>, byRef: map<string, Labels>, all: Labels, k: nat, beta: real,
                                    d: nat -> real, order: seq<string>, picks: seq<nat>, score: Score)
    requires 0.0 < beta < 1.0 && IsDiscount(d) && k <= |results| && all != {}
    requires Scores(results, byRef, all, k, beta, d, order, picks, score)
    requires Flat(InOrder(byRef, order)) && Within(RankedLabels(results[..k], byRef), InOrder(byRef, order))
    ensures 0.0 <= score.alphaNDCG <= 1.0
  {
    hide Gain, IsGreedy, Flat, Chosen, AlphaDCG, Within, RankedLabels, InOrder, Covered;
    var c, ranked := InOrder(byRef, order), RankedLabels(results[..k], byRef);
    assert |ranked| == k by { LabelsPerResult(results[..k], byRef); }
    FlatIdealIsGreatest(c, picks, k, beta, d, ranked);
    AlphaDCGSign(ranked, beta, d);
    var ideal := AlphaDCG(Chosen(c, picks), beta, d);
    if ideal > 0.0 {
      Proportion(AlphaDCG(ranked, beta, d), ideal);
    }
  }

  lemma LabelsPerResult(results: seq<SearchResult>, byRef: map<string, Labels>)
    ensures |RankedLabels(results, byRef)| == |results|
  {
  }

  // ---------- the order of the candidates ----------

  lemma ChosenWithin(c: seq<Labels>, picks: seq<nat>, k: nat, beta: real)
    requires IsGreedy(c, picks, k, beta)
    ensures Within(Chosen(c, picks), c)
  {
    hide IsGreedy, Chosen;
    GreedyFacts(c, picks, k, beta, |picks|);
    assert picks[..|picks|] == picks;
    forall x: Labels ensures multiset(Chosen(c, picks))[x] <= multiset(c)[x] {
      IndicesFacts(c, x);
      PicksFacts(c, picks, x);
      DistinctInside(PicksOf(c, picks, x), IndicesOf(c, x));
    }
  }

  lemma FlatPermuted(a: seq<Labels>, b: seq<Labels>)
    requires multiset(a) == multiset(b) && Flat(a)
    ensures Flat(b)
  {
    forall i, j | 0 <= i < |b| && 0 <= j < |b| ensures b[i] == b[j] || b[i] !! b[j] {
      assert b[i] in multiset(a) && b[j] in multiset(a);
    }
  }

  /** Flat candidates have one ideal, in whatever order they are listed. */
  lemma FlatIdealIgnoresOrder(a: seq<Labels>, b: seq<Labels>, p: seq<nat>, q: seq<nat>, k: nat, beta: real, d: nat -> real)
    requires 0.0 < beta < 1.0 && IsDiscount(d) && multiset(a) == multiset(b) && Flat(a)
    requires IsGreedy(a, p, k, beta) && IsGreedy(b, q, k, beta)
    ensures AlphaDCG(Chosen(a, p), beta, d) == AlphaDCG(Chosen(b, q), beta, d)
  {
    FlatPermuted(a, b);
    ChosenWithin(a, p, k, beta);
    ChosenWithin(b, q, k, beta);
    hide AlphaDCG, Gain, Flat;
    FlatIdealIsGreatest(a, p, k, beta, d, Chosen(b, q));
    FlatIdealIsGreatest(b, q, k, beta, d, Chosen(a, p));
  }

  /** Whenever several unused candidates gain most, they carry the same labels. */
  ghost predicate TiesAlike(c: seq<Labels>, picks: seq<nat>, beta: real) {
    forall r, i: nat | 0 <= r < |picks| && i < |c| && Fresh(picks, r, i) &&
        PickGain(c, picks, r, i, beta) == PickGain(c, picks, r, picks[r], beta) :: c[i] == At(c, picks[r])
  }

  lemma GreedyPickIsUnused(c: seq<Labels>, picks: seq<nat>, k: nat, beta: real, r: nat)
    requires IsGreedy(c, picks, k, beta) && r < |picks|
    ensures Distinct(picks[..r]) && (forall i | i in picks[..r] :: i < |c|)
    ensures picks[r] < |c| && picks[r] !in picks[..r]
  {
    GreedyFacts(c, picks, k, beta, r);
    assert Fresh(picks, r, picks[r]);
  }

  /** Listed in another order, the candidates left over are the same. */
  lemma CopyInOther(a: seq<Labels>, b: seq<Labels>, p: seq<nat>, q: seq<nat>, i: nat) returns (j: nat)
    requires multiset(a) == multiset(b) && Chosen(a, p) == Chosen(b, q)
    requires Distinct(p) && (forall x | x in p :: x < |a|) && Distinct(q) && (forall x | x in q :: x < |b|)
    requires i < |a| && i !in p
    ensures j < |b| && j !in q && b[j] == a[i]
  {
    UnusedExactlyWhen(a, p, a[i]);
    UnusedExactlyWhen(b, q, a[i]);
    j :| j < |b| && j !in q && b[j] == a[i];
  }

  /** One rank: a greedy ranking whose ties are alike goes on like any other greedy ranking of the same candidates. */
  lemma SamePick(a: seq<Labels>, b: seq<Labels>, p: seq<nat>, q: seq<nat>, k: nat, beta: real, r: nat)
    requires 0.0 < beta < 1.0 && multiset(a) == multiset(b) && IsGreedy(a, p, k, beta) && IsGreedy(b, q, k, beta)
    requires TiesAlike(a, p, beta) && r < |p| && r < |q| && Chosen(a, p[..r]) == Chosen(b, q[..r])
    ensures At(a, p[r]) == At(b, q[r])
  {
    hide Gain;
    GreedyPickIsUnused(b, q, k, beta, r);
    var i := CopyInOther(b, a, q[..r], p[..r], q[r]);
    GreedyPickIsUnused(a, p, k, beta, r);
    var j := CopyInOther(a, b, p[..r], q[..r], p[r]);
    assert Fresh(p, r, i) && Fresh(q, r, j);
    assert PickGain(a, p, r, i, beta) <= PickGain(a, p, r, p[r], beta);
    assert PickGain(b, q, r, j, beta) <= PickGain(b, q, r, q[r], beta);
  }

  lemma {:induction false} SamePicks(a: seq<Labels>, b: seq<Labels>, p: seq<nat>, q: seq<nat>, k: nat, beta: real, r: nat)
    requires 0.0 < beta < 1.0 && multiset(a) == multiset(b) && IsGreedy(a, p, k, beta) && IsGreedy(b, q, k, beta)
    requires TiesAlike(a, p, beta) && r <= |p| && r <= |q|
    ensures Chosen(a, p[..r]) == Chosen(b, q[..r])
  {
    if r > 0 {
      hide IsGreedy, TiesAlike;
      SamePicks(a, b, p, q, k, beta, r - 1);
      SamePick(a, b, p, q, k, beta, r - 1);
      ChosenStep(a, p, r - 1);
      ChosenStep(b, q, r - 1);
    }
  }

  lemma ChosenStep(c: seq<Labels>, picks: seq<nat>, r: nat)
    requires r < |picks|
    ensures Chosen(c, picks[..r + 1]) == Chosen(c, picks[..r]) + [At(c, picks[r])]
  {
  }

  /** Neither of two greedy rankings of the same candidates ends while the other goes on. */
  lemma NotLonger(a: seq<Labels>, b: seq<Labels>, p: seq<nat>, q: seq<nat>, k: nat, beta: real)
    requires 0.0 < beta < 1.0 && multiset(a) == multiset(b) && IsGreedy(a, p, k, beta) && IsGreedy(b, q, k, beta)
    requires |p| < |q| ==> Chosen(a, p) == Chosen(b, q[..|p|])
    ensures |q| <= |p|
  {
    if |p| < |q| {
      var r := |p|;
      assert Fresh(q, r, q[r]) && PickGain(b, q, r, q[r], beta) > 0.0;
      GainSign(b[q[r]], Chosen(b, q[..r]), beta);
      GreedyPickIsUnused(b, q, k, beta, r);
      GreedyFacts(a, p, k, beta, r);
      assert p[..r] == p;
      var i := CopyInOther(b, a, q[..r], p, q[r]);
      GreedyUsesEveryLabel(a, p, k, beta, i);
    }
  }

  /** If ties for the best gain are always between candidates with the same labels, every order of the candidates
      gives the same ideal ranking. */
  lemma AlikeTiesFixTheIdeal(a: seq<Labels>, b: seq<Labels>, p: seq<nat>, q: seq<nat>, k: nat, beta: real)
    requires 0.0 < beta < 1.0 && multiset(a) == multiset(b) && IsGreedy(a, p, k, beta) && IsGreedy(b, q, k, beta)
    requires TiesAlike(a, p, beta)
    ensures Chosen(a, p) == Chosen(b, q)
  {
    var n := if |p| <= |q| then |p| else |q|;
    SamePicks(a, b, p, q, k, beta, n);
    hide IsGreedy, TiesAlike, Chosen;
    assert p[..|p|] == p && q[..|q|] == q;
    NotLonger(a, b, p, q, k, beta);
    NotLonger(b, a, q, p, k, beta);
  }

  // ---------- where the conditions fail ----------

  lemma GainOfPair(a: string, b: string, history: seq<Labels>, beta: real)
    requires a != b
    ensures Gain({a, b}, history, beta) == Pow(beta, SeenCount(history, a)) + Pow(beta, SeenCount(history, b))
  {
    GainRemove({a, b}, a, history, beta);
    assert {a, b} - {a} == {b};
    GainRemove({b}, b, history, beta);
    assert {b} - {b} == {};
  }

  lemma AlphaDCGOfTwo(x: Labels, y: Labels, beta: real, d: nat -> real)
    ensures AlphaDCG([x, y], beta, d) == Gain(x, [], beta) * d(1) + Gain(y, [x], beta) * d(2)
  {
    var one, two := [x], [x, y];
    assert one[..0] == [] && two[..1] == one;
    assert AlphaDCG(one, beta, d) == AlphaDCG([], beta, d) + Gain(x, [], beta) * d(1);
    assert AlphaDCG(two, beta, d) == AlphaDCG(one, beta, d) + Gain(y, one, beta) * d(2);
  }

  lemma SeenAfterOne(x: Labels, l: string)
    ensures SeenCount([x], l) == if l in x then 1 else 0
  {
    var one := [x];
    assert one[..|one| - 1] == [] && one[|one| - 1] == x;
    assert SeenCount([], l) == 0;
  }

  /** The ideal is not a function of the candidates: they are listed in map order, and another order of the same
      three candidates gives a strictly smaller ideal. */
  lemma IdealDependsOnCandidateOrder(beta: real, d: nat -> real)
    requires 0.0 < beta < 1.0 && IsDiscount(d)
    ensures var p, q, r := {"a", "b"}, {"c", "d"}, {"a", "c"};
            && IsGreedy([p, q, r], [0, 1], 2, beta)
            && IsGreedy([r, p, q], [0, 1], 2, beta)
            && AlphaDCG(Chosen([r, p, q], [0, 1]), beta, d) < AlphaDCG(Chosen([p, q, r], [0, 1]), beta, d)
  {
    hide AlphaDCG, IsGreedy, Gain, PickGain;
    var p, q, r := {"a", "b"}, {"c", "d"}, {"a", "c"};
    assert Chosen([p, q, r], [0, 1]) == [p, q] && Chosen([r, p, q], [0, 1]) == [r, p];
    AlphaDCGOfTwo(p, q, beta, d);
    AlphaDCGOfTwo(r, p, beta, d);
    PairGains(p, q, beta);
    PairGains(p, r, beta);
    PairGains(r, p, beta);
    PairGains(r, q, beta);
    TwoPicks(p, q, r, beta);
    TwoPicks(r, p, q, beta);
    StrictMonoOf(1.0 + beta, 2.0, d(2), (1.0 + beta) * d(2), 2.0 * d(2));
  }

  lemma TwoPicks(x: Labels, y: Labels, z: Labels, beta: real)
    requires Gain(x, [], beta) >= Gain(y, [], beta) && Gain(x, [], beta) >= Gain(z, [], beta)
    requires Gain(y, [x], beta) >= Gain(z, [x], beta)
    requires Gain(x, [], beta) > 0.0 && Gain(y, [x], beta) > 0.0
    ensures IsGreedy([x, y, z], [0, 1], 2, beta)
  {
    var candidates, picks := [x, y, z], [0, 1];
    assert picks[..0] == [] && picks[..1] == [0];
    assert Chosen(candidates, picks[..0]) == [] && Chosen(candidates, picks[..1]) == [x];
    assert !Fresh(picks, 1, 0);
  }

  /** Gains of two-label sets drawn from a, b, c, d at the first two ranks. */
  lemma PairGains(x: Labels, y: Labels, beta: real)
    requires x in [{"a", "b"}, {"c", "d"}, {"a", "c"}] && y in [{"a", "b"}, {"c", "d"}, {"a", "c"}] && x != y
    ensures Gain(x, [], beta) == Gain(y, [], beta) == 2.0
    ensures Gain(y, [x], beta) == if x !! y then 2.0 else 1.0 + beta
  {
    forall l { SeenAfterOne(x, l); }
    assert Pow(beta, 0) == 1.0 && Pow(beta, 1) == beta;
    PairForms(x, [], beta);
    PairForms(y, [], beta);
    PairForms(y, [x], beta);
    DistinctPairs();
  }

  lemma DistinctPairs()
    ensures {"a", "b"} != {"c", "d"} && {"a", "b"} != {"a", "c"} && {"c", "d"} != {"a", "c"}
    ensures {"a", "b"} !! {"c", "d"} && !({"a", "b"} !! {"a", "c"}) && !({"c", "d"} !! {"a", "c"})
  {
    assert "b" !in {"c", "d"} && "b" !in {"a", "c"} && "d" !in {"a", "c"};
    assert "a" in {"a", "b"} && "a" in {"a", "c"} && "c" in {"c", "d"} && "c" in {"a", "c"};
  }

  lemma PairForms(x: Labels, history: seq<Labels>, beta: real)
    ensures x == {"a", "b"} ==> Gain(x, history, beta) == Pow(beta, SeenCount(history, "a")) + Pow(beta, SeenCount(history, "b"))
    ensures x == {"c", "d"} ==> Gain(x, history, beta) == Pow(beta, SeenCount(history, "c")) + Pow(beta, SeenCount(history, "d"))
    ensures x == {"a", "c"} ==> Gain(x, history, beta) == Pow(beta, SeenCount(history, "a")) + Pow(beta, SeenCount(history, "c"))
  {
    GainOfPair("a", "b", history, beta);
    GainOfPair("c", "d", history, beta);
    GainOfPair("a", "c", history, beta);
  }

  /** A result carries the labels of its chunk and of its document. */
  lemma UnionOfRefs()
    ensures LabelsFor(SearchResult("c", "d", "s"), map["chunk:c" := {"a"}, "doc:d" := {"b"}]) == {"a", "b"}
  {
    var byRef := map["chunk:c" := {"a"}, "doc:d" := {"b"}];
    assert "chunk:" + "c" == "chunk:c" && "doc:" + "d" == "doc:d";
    assert "a" in byRef["chunk:c"] && "b" in byRef["doc:d"];
  }

  lemma FirstOfTwoIsGreedy(l: string, m: string, beta: real)
    ensures IsGreedy([{l}, {m}], [0], 1, beta)
  {
    GainOfOne(l, beta);
    GainOfOne(m, beta);
    assert [0][..0] == [] && Chosen([{l}, {m}], []) == [];
  }

  lemma UnitedGains(a: Labels, b: Labels, all: Labels, beta: real, d: nat -> real)
    requires a == {"a"} && b == {"b"} && all == {"a", "b"}
    ensures IsGreedy([a, b], [0], 1, beta) && Chosen([a, b], [0]) == [a]
    ensures AlphaDCG([a], beta, d) == d(1) && AlphaDCG([all], beta, d) == 2.0 * d(1)
    ensures Flat([a, b]) && !Within([all], [a, b])
  {
    FirstOfTwoIsGreedy("a", "b", beta);
    hide IsGreedy, AlphaDCG, Gain;
    GainOfPair("a", "b", [], beta);
    GainOfOne("a", beta);
    AlphaDCGOfOne(a, beta, d);
    AlphaDCGOfOne(all, beta, d);
    assert "b" in all && "b" !in a && "a" !in b;
    assert multiset([all])[all] == 1 && multiset([a, b])[all] == 0;
  }

  /** A result that unites two references scores 2, although the references have no label in common. */
  lemma ScoreCanExceedOne(beta: real, d: nat -> real)
    requires 0.0 < beta < 1.0 && IsDiscount(d)
    ensures var byRef := map["chunk:c" := {"a"}, "doc:d" := {"b"}];
            var all := {"a", "b"};
            var results, order := [SearchResult("c", "d", "s")], ["chunk:c", "doc:d"];
            && Scores(results, byRef, all, 1, beta, d, order, [0], Score(2.0, 1.0))
            && Flat(InOrder(byRef, order)) && !Within(RankedLabels(results[..1], byRef), InOrder(byRef, order))
  {
    var byRef := map["chunk:c" := {"a"}, "doc:d" := {"b"}];
    var a: Labels, b: Labels, all: Labels := {"a"}, {"b"}, {"a", "b"};
    var results := [SearchResult("c", "d", "s")];
    assert InOrder(byRef, ["chunk:c", "doc:d"]) == [a, b];
    UnionOfRefs();
    hide LabelsFor, ResultRefs;
    assert results[..1] == results && results[..0] == [];
    assert Covered(results, byRef) == all by { assert results[..|results| - 1] == []; }
    assert RankedLabels(results, byRef) == [all];
    hide IsGreedy, Gain, AlphaDCG, Chosen, Flat, Within, InOrder, RankedLabels, Covered;
    UnitedGains(a, b, all, beta, d);
    QuotientIs(2.0, 2.0 * d(1), d(1));
    assert |all| == 2;
  }

  lemma LabelsOfChunk(id: string, byRef: map<string, Labels>)
    requires "chunk:" + id in byRef && forall ref | ref in byRef :: ref != "" && ref[0] == 'c'
    ensures LabelsFor(SearchResult(id, "", ""), byRef) == byRef["chunk:" + id]
  {
    var refs := ResultRefs(SearchResult(id, "", ""));
    assert "chunk:" + id in refs && "doc:" + "" !in byRef && "source:" + "" !in byRef by {
      assert ("doc:" + "")[0] == 'd' && ("source:" + "")[0] == 's';
    }
  }

  lemma ScoreAbove(results: seq<SearchResult>, byRef: map<string, Labels>, all: Labels, k: nat, beta: real, d: nat -> real,
                   order: seq<string>, picks: seq<nat>) returns (score: Score)
    requires k <= |results| && all != {} && IsGreedy(InOrder(byRef, order), picks, k, beta)
    requires AlphaDCG(RankedLabels(results[..k], byRef), beta, d) > AlphaDCG(Chosen(InOrder(byRef, order), picks), beta, d) > 0.0
    ensures Scores(results, byRef, all, k, beta, d, order, picks, score) && score.alphaNDCG > 1.0
  {
    hide IsGreedy, AlphaDCG, RankedLabels, InOrder, Chosen, Covered;
    var dcg, ideal := AlphaDCG(RankedLabels(results[..k], byRef), beta, d), AlphaDCG(Chosen(InOrder(byRef, order), picks), beta, d);
    score := Score(dcg / ideal, |Covered(results[..k], byRef)| as real / |all| as real);
    QuotientTimes(dcg, ideal);
    QuotientGe(dcg, ideal, 1.0);
  }

  lemma RepeatedLabels(results: seq<SearchResult>, byRef: map<string, Labels>)
    requires results == [SearchResult("c", "", ""), SearchResult("c", "", "")] && byRef == map["chunk:c" := {"a"}]
    ensures RankedLabels(results[..2], byRef) == [{"a"}, {"a"}] && InOrder(byRef, ["chunk:c"]) == [{"a"}]
    ensures Flat([{"a"}]) && !Within([{"a"}, {"a"}], [{"a"}])
  {
    assert "chunk:" + "c" == "chunk:c" && results[..2] == results;
    LabelsOfChunk("c", byRef);
    hide LabelsFor;
    var a: Labels := {"a"};
    assert multiset([a, a])[a] == 2 && multiset([a])[a] == 1;
  }

  lemma RepeatedGains(a: Labels, beta: real, d: nat -> real)
    requires 0.0 < beta < 1.0 && IsDiscount(d) && a == {"a"}
    ensures IsGreedy([a], [0], 2, beta) && AlphaDCG([a, a], beta, d) > AlphaDCG(Chosen([a], [0]), beta, d) > 0.0
  {
    OnlyOneIsGreedy("a", beta);
    assert Chosen([a], [0]) == [a];
    hide IsGreedy, AlphaDCG, Chosen, Gain;
    AlphaDCGOfTwo(a, a, beta, d);
    AlphaDCGOfOne(a, beta, d);
    GainOfOne("a", beta);
    GainSign(a, [a], beta);
    Positive(Gain(a, [a], beta), d(2), Gain(a, [a], beta) * d(2));
  }

  /** Two results that match the same reference score more than 1, although there is only that reference. */
  lemma RepeatedReferenceExceedsOne(beta: real, d: nat -> real) returns (score: Score)
    requires 0.0 < beta < 1.0 && IsDiscount(d)
    ensures var byRef, order := map["chunk:c" := {"a"}], ["chunk:c"];
            var results := [SearchResult("c", "", ""), SearchResult("c", "", "")];
            && Scores(results, byRef, {"a"}, 2, beta, d, order, [0], score) && score.alphaNDCG > 1.0
            && Flat(InOrder(byRef, order)) && !Within(RankedLabels(results[..2], byRef), InOrder(byRef, order))
  {
    hide IsGreedy, AlphaDCG, RankedLabels, InOrder, Chosen, Covered, Gain, Within, Flat, LabelsFor, Scores, IsDiscount;
    var byRef: map<string, Labels>, results := map["chunk:c" := {"a"}], [SearchResult("c", "", ""), SearchResult("c", "", "")];
    RepeatedLabels(results, byRef);
    RepeatedGains({"a"}, beta, d);
    score := ScoreAbove(results, byRef, {"a"}, 2, beta, d, ["chunk:c"], [0]);
  }

  lemma OnlyOneIsGreedy(l: string, beta: real)
    ensures IsGreedy([{l}], [0], 2, beta)
  {
    GainOfOne(l, beta);
    assert [0][..0] == [] && [0][..1] == [0] && Chosen([{l}], []) == [];
  }

  function OverlapRefs(): map<string, Labels> {
    map["chunk:p" := {"a", "b"}, "chunk:q" := {"c", "d"}, "chunk:r" := {"a", "c"}]
  }

  lemma OverlapLabels(results: seq<SearchResult>, order: seq<string>)
    requires results == [SearchResult("p", "", ""), SearchResult("q", "", "")] && order == ["chunk:r", "chunk:p", "chunk:q"]
    ensures RankedLabels(results[..2], OverlapRefs()) == [{"a", "b"}, {"c", "d"}]
    ensures InOrder(OverlapRefs(), order) == [{"a", "c"}, {"a", "b"}, {"c", "d"}]
  {
    assert "chunk:" + "p" == "chunk:p" && "chunk:" + "q" == "chunk:q" && results[..2] == results;
    LabelsOfChunk("p", OverlapRefs());
    LabelsOfChunk("q", OverlapRefs());
    hide LabelsFor;
  }

  lemma OverlapGains(beta: real, d: nat -> real)
    requires 0.0 < beta < 1.0 && IsDiscount(d)
    ensures var p, q, r := {"a", "b"}, {"c", "d"}, {"a", "c"};
            && IsGreedy([r, p, q], [0, 1], 2, beta)
            && AlphaDCG([p, q], beta, d) > AlphaDCG(Chosen([r, p, q], [0, 1]), beta, d) > 0.0
  {
    hide IsGreedy, AlphaDCG, Gain;
    var p: Labels, q: Labels, r: Labels := {"a", "b"}, {"c", "d"}, {"a", "c"};
    IdealDependsOnCandidateOrder(beta, d);
    assert Chosen([p, q, r], [0, 1]) == [p, q] && Chosen([r, p, q], [0, 1]) == [r, p];
    hide Chosen;
    AlphaDCGOfTwo(r, p, beta, d);
    PairGains(r, p, beta);
    Positive(2.0, d(1), 2.0 * d(1));
    Positive(1.0 + beta, d(2), (1.0 + beta) * d(2));
  }

  /** Overlapping references: two results with a reference each score more than 1, because the greedy choice of a
      third reference spoils the ideal. */
  lemma OverlapExceedsOne(beta: real, d: nat -> real) returns (score: Score)
    requires 0.0 < beta < 1.0 && IsDiscount(d)
    ensures var order, results := ["chunk:r", "chunk:p", "chunk:q"], [SearchResult("p", "", ""), SearchResult("q", "", "")];
            && Scores(results, OverlapRefs(), {"a", "b", "c", "d"}, 2, beta, d, order, [0, 1], score) && score.alphaNDCG > 1.0
            && !Flat(InOrder(OverlapRefs(), order))
            && Within(RankedLabels(results[..2], OverlapRefs()), InOrder(OverlapRefs(), order))
  {
    hide IsGreedy, AlphaDCG, RankedLabels, InOrder, Covered, Gain, Within, Flat, LabelsFor, Chosen, OverlapRefs, Scores, IsDiscount;
    var order, results := ["chunk:r", "chunk:p", "chunk:q"], [SearchResult("p", "", ""), SearchResult("q", "", "")];
    OverlapLabels(results, order);
    PairsAreWithin({"a", "b"}, {"c", "d"}, {"a", "c"});
    OverlapGains(beta, d);
    score := ScoreAbove(results, OverlapRefs(), {"a", "b", "c", "d"}, 2, beta, d, order, [0, 1]);
  }

  lemma PairsAreWithin(p: Labels, q: Labels, r: Labels)
    requires p == {"a", "b"} && q == {"c", "d"} && r == {"a", "c"}
    ensures !Flat([r, p, q]) && Within([p, q], [r, p, q])
  {
    DistinctPairs();
    var c := [r, p, q];
    assert c[0] == r && c[1] == p && c[2] == q;
    assert multiset([p, q]) <= multiset(c);
  }

  lemma AlphaDCGOfOne(x: Labels, beta: real, d: nat -> real)
    ensures AlphaDCG([x], beta, d) == Gain(x, [], beta) * d(1)
  {
    var one := [x];
    assert one[..0] == [];
    assert AlphaDCG(one, beta, d) == AlphaDCG([], beta, d) + Gain(x, [], beta) * d(1);
  }

  lemma GainOfOne(a: string, beta: real)
    ensures Gain({a}, [], beta) == 1.0
  {
    GainRemove({a}, a, [], beta);
    assert {a} - {a} == {};
  }
}
