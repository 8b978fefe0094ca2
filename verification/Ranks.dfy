/** Tie-averaged ranks and the rank correlation built on them. */
module Ranks {
  import opened Arith
  import opened Reals
  import opened Sorting

  // ---------- specification ----------

  function Less(values: seq<real>, x: real): nat { CountIf(values, y => y < x) }

  function AtMost(values: seq<real>, x: real): nat { CountIf(values, y => y <= x) }

  /** The average of the sorted positions, counted from 1, that values equal to `x` occupy. */
  function RankOf(values: seq<real>, x: real): real {
    ((Less(values, x) + 1) as real + AtMost(values, x) as real) / 2.0
  }

  function Ranks(values: seq<real>): seq<real> {
    seq(|values|, i requires 0 <= i < |values| => RankOf(values, values[i]))
  }

  function Deltas(s: seq<real>): seq<real> {
    seq(|s|, i requires 0 <= i < |s| => s[i] - Mean(s))
  }

  function Dot(a: seq<real>, b: seq<real>): real
    requires |a| == |b|
  {
    if a == [] then 0.0 else Dot(a[..|a| - 1], b[..|b| - 1]) + a[|a| - 1] * b[|b| - 1]
  }

  function Squares(s: seq<real>): real { Dot(Deltas(s), Deltas(s)) }

  /** `root` stands for the square root the program takes of the product of the two sums of squares. */
  function Pearson(left: seq<real>, right: seq<real>, root: real): real
    requires |left| == |right|
  {
    if root == 0.0 then 0.0 else Dot(Deltas(left), Deltas(right)) / root
  }

  ghost predicate SpearmanRoot(left: seq<real>, right: seq<real>, root: real) {
    IsRoot(root, Squares(Ranks(left)) * Squares(Ranks(right)))
  }

  function Spearman(left: seq<real>, right: seq<real>, root: real): real {
    if |left| != |right| || |left| < 2 then 0.0 else Pearson(Ranks(left), Ranks(right), root)
  }

  // ---------- properties of ranks ----------

  /** Larger values have larger ranks and equal values equal ranks. */
  lemma RanksKeepOrder(values: seq<real>, i: nat, j: nat)
    requires i < |values| && j < |values|
    ensures values[i] < values[j] <==> Ranks(values)[i] < Ranks(values)[j]
    ensures values[i] == values[j] <==> Ranks(values)[i] == Ranks(values)[j]
  {
    if values[i] < values[j] {
      RanksIncrease(values, i, j);
    } else if values[j] < values[i] {
      RanksIncrease(values, j, i);
    }
  }

  lemma RanksIncrease(values: seq<real>, i: nat, j: nat)
    requires i < |values| && j < |values| && values[i] < values[j]
    ensures Ranks(values)[i] < Ranks(values)[j]
  {
    var x, y := values[i], values[j];
    CountIfMono(values, v => v <= x, v => v < y);
    CountIfMono(values, v => v < x, v => v <= x);
    CountIfMono(values, v => v < y, v => v <= y);
  }

  /** The rank of a value depends on the values present, not on where they stand. */
  lemma RanksCommuteWithPermutations(a: seq<real>, b: seq<real>, i: nat, j: nat)
    requires multiset(a) == multiset(b) && i < |a| && j < |b| && a[i] == b[j]
    ensures Ranks(a)[i] == Ranks(b)[j]
  {
    CountIfPermutation(a, b, y => y < a[i]);
    CountIfPermutation(a, b, y => y <= a[i]);
  }

  /** Two score lists that order their items alike have the same ranks; in particular the scores may be put
      through any strictly increasing function. */
  lemma RanksSeeOnlyOrder(a: seq<real>, b: seq<real>)
    requires |a| == |b| && forall i, j | 0 <= i < |a| && 0 <= j < |a| :: a[i] < a[j] <==> b[i] < b[j]
    ensures Ranks(a) == Ranks(b)
  {
    forall i | 0 <= i < |a| ensures Ranks(a)[i] == Ranks(b)[i] {
      CountIfPointwise(a, b, y => y < a[i], y => y < b[i]);
      CountIfPointwise(a, b, y => y <= a[i], y => y <= b[i]);
    }
  }

  function LessPairs(a: seq<real>, b: seq<real>): nat {
    if b == [] then 0 else LessPairs(a, b[..|b| - 1]) + Less(a, b[|b| - 1])
  }

  function AtMostPairs(a: seq<real>, b: seq<real>): nat {
    if b == [] then 0 else AtMostPairs(a, b[..|b| - 1]) + AtMost(a, b[|b| - 1])
  }

  lemma {:induction false} AtMostPairsExtend(b: seq<real>, y: real, a: seq<real>)
    ensures AtMostPairs(b + [y], a) == AtMostPairs(b, a) + CountIf(a, x => y <= x)
  {
    if a != [] {
      var x := a[|a| - 1];
      AtMostPairsExtend(b, y, a[..|a| - 1]);
      assert (b + [y])[..|b|] == b;
    }
  }

  lemma {:induction false} Complement(a: seq<real>, y: real)
    ensures Less(a, y) + CountIf(a, x => y <= x) == |a|
  {
    if a != [] { Complement(a[..|a| - 1], y); }
  }

  lemma {:induction false} EveryPairOnce(a: seq<real>, b: seq<real>)
    ensures LessPairs(a, b) + AtMostPairs(b, a) == |a| * |b|
  {
    if b == [] {
      NoPairs(a);
    } else {
      var front, y := b[..|b| - 1], b[|b| - 1];
      EveryPairOnce(a, front);
      AtMostPairsExtend(front, y, a);
      Complement(a, y);
      assert b == front + [y];
      IntDistribute(|a|, |front|, 1);
    }
  }

  lemma {:induction false} NoPairs(a: seq<real>)
    ensures AtMostPairs([], a) == 0
  {
    if a != [] { NoPairs(a[..|a| - 1]); }
  }

  lemma {:induction false} RankPrefixSum(values: seq<real>, k: nat)
    requires k <= |values|
    ensures 2.0 * Sum(Ranks(values)[..k]) == (LessPairs(values, values[..k]) + AtMostPairs(values, values[..k]) + k) as real
  {
    if k > 0 {
      RankPrefixSum(values, k - 1);
      SumStep(Ranks(values), k - 1);
      assert values[..k][..k - 1] == values[..k - 1];
    }
  }

  /** Ties change the ranks but not their sum. */
  lemma RanksSum(values: seq<real>)
    ensures 2.0 * Sum(Ranks(values)) == (|values| * (|values| + 1)) as real
  {
    var n := |values|;
    RankPrefixSum(values, n);
    EveryPairOnce(values, values);
    IntDistribute(n, n, 1);
    assert values[..n] == values && Ranks(values)[..n] == Ranks(values);
  }

  // ---------- properties of the correlation ----------

  /** Sum of (s*a[i] - t*b[i])^2. */
  ghost function Residual(a: seq<real>, b: seq<real>, s: real, t: real): real
    requires |a| == |b|
  {
    if a == [] then 0.0
    else
      var d := s * a[|a| - 1] - t * b[|b| - 1];
      Residual(a[..|a| - 1], b[..|b| - 1], s, t) + d * d
  }

  lemma {:induction false} ResidualExpands(a: seq<real>, b: seq<real>, s: real, t: real)
    requires |a| == |b|
    ensures Residual(a, b, s, t) >= 0.0
    ensures Residual(a, b, s, t) == (s * s) * Dot(a, a) - 2.0 * ((s * t) * Dot(a, b)) + (t * t) * Dot(b, b)
  {
    if a != [] {
      var x, y := a[|a| - 1], b[|b| - 1];
      var a', b' := a[..|a| - 1], b[..|b| - 1];
      ResidualExpands(a', b', s, t);
      var d := s * x - t * y;
      Square(d, d * d);
      SquareOfDifference(s, x, t, y);
      Distribute(s * s, Dot(a', a'), x * x);
      Distribute(s * t, Dot(a', b'), x * y);
      Distribute(t * t, Dot(b', b'), y * y);
    }
  }

  lemma SquareOfDifference(s: real, x: real, t: real, y: real)
    ensures (s * x - t * y) * (s * x - t * y) == (s * s) * (x * x) - 2.0 * ((s * t) * (x * y)) + (t * t) * (y * y)
  {
    var p, q := s * x, t * y;
    Distribute(p - q, p, q);
    Distribute(p, p, q);
    Distribute(q, p, q);
    Regroup(s, s, x, x);
    Regroup(s, t, x, y);
    Regroup(t, t, y, y);
  }

  lemma {:induction false} DotSquares(a: seq<real>)
    ensures Dot(a, a) >= 0.0
  {
    if a != [] {
      var x := a[|a| - 1];
      DotSquares(a[..|a| - 1]);
      Square(x, x * x);
    }
  }

  lemma {:induction false} DotZero(a: seq<real>, b: seq<real>)
    requires |a| == |b| && Dot(a, a) == 0.0
    ensures Dot(a, b) == 0.0
  {
    if a != [] {
      var x := a[|a| - 1];
      DotSquares(a[..|a| - 1]);
      Square(x, x * x);
      DotZero(a[..|a| - 1], b[..|b| - 1]);
    }
  }

  lemma CauchySchwarz(a: seq<real>, b: seq<real>, ab: real, aabb: real)
    requires |a| == |b| && ab == Dot(a, b) * Dot(a, b) && aabb == Dot(a, a) * Dot(b, b)
    ensures ab <= aabb
  {
    var l, n, r := Dot(a, a), Dot(a, b), Dot(b, b);
    DotSquares(a);
    DotSquares(b);
    if l == 0.0 {
      DotZero(a, b);
      ZeroProducts(l, n, r, ab, aabb);
    } else {
      ResidualExpands(a, b, n, l);
      Discriminant(l, n, r, Residual(a, b, n, l), ab, aabb);
    }
  }

  lemma ZeroProducts(l: real, n: real, r: real, nn: real, lr: real)
    requires n == 0.0 && l >= 0.0 && r >= 0.0 && nn == n * n && lr == l * r
    ensures nn <= lr
  {
    NonNegative(l, r, lr);
  }

  lemma Discriminant(l: real, n: real, r: real, q: real, nn: real, lr: real)
    requires l > 0.0 && q >= 0.0 && q == (n * n) * l - 2.0 * ((n * l) * n) + (l * l) * r
    requires nn == n * n && lr == l * r
    ensures nn <= lr
  {
    assert (n * l) * n == nn * l;
    assert (l * l) * r == lr * l;
    assert q == (lr - nn) * l;
    if lr < nn {
      StrictMonoOf(lr - nn, 0.0, l, q, 0.0);
    }
  }

  lemma RootBounds(n: real, root: real, nn: real, rr: real)
    requires root >= 0.0 && nn == n * n && rr == root * root && nn <= rr
    ensures -root <= n <= root
  {
    RootAbove(n, root, nn, rr);
    assert (-n) * (-n) == n * n;
    RootAbove(-n, root, nn, rr);
  }

  lemma RootAbove(n: real, root: real, nn: real, rr: real)
    requires root >= 0.0 && nn == n * n && rr == root * root && nn <= rr
    ensures n <= root
  {
    if n > root {
      var nr := n * root;
      MonoOf(root, n, root, rr, nr);
      StrictMonoOf(root, n, n, nr, nn);
    }
  }

  lemma PearsonBounds(left: seq<real>, right: seq<real>, root: real)
    requires |left| == |right| && IsRoot(root, Squares(left) * Squares(right))
    ensures -1.0 <= Pearson(left, right, root) <= 1.0
  {
    var n := Dot(Deltas(left), Deltas(right));
    CauchySchwarz(Deltas(left), Deltas(right), n * n, Squares(left) * Squares(right));
    RootBounds(n, root, n * n, root * root);
    if root > 0.0 {
      QuotientLe(n, root, 1.0);
      QuotientGe(n, root, -1.0);
    }
  }

  /** The rank correlation never leaves [-1, 1]. */
  lemma SpearmanBounds(left: seq<real>, right: seq<real>, root: real)
    requires SpearmanRoot(left, right, root)
    ensures -1.0 <= Spearman(left, right, root) <= 1.0
  {
    if |left| == |right| {
      PearsonBounds(Ranks(left), Ranks(right), root);
    }
  }

  lemma {:induction false} DotSymmetric(a: seq<real>, b: seq<real>)
    requires |a| == |b|
    ensures Dot(a, b) == Dot(b, a)
  {
    if a != [] { DotSymmetric(a[..|a| - 1], b[..|b| - 1]); }
  }

  lemma SpearmanSymmetric(left: seq<real>, right: seq<real>, root: real)
    requires SpearmanRoot(left, right, root)
    ensures SpearmanRoot(right, left, root)
    ensures Spearman(left, right, root) == Spearman(right, left, root)
  {
    if |left| == |right| {
      DotSymmetric(Deltas(Ranks(left)), Deltas(Ranks(right)));
    }
  }

  /** Replacing either score list by one that orders the items alike leaves the correlation unchanged. */
  lemma SpearmanInvariant(left: seq<real>, left2: seq<real>, right: seq<real>, root: real)
    requires |left| == |left2|
    requires forall i, j | 0 <= i < |left| && 0 <= j < |left| :: left[i] < left[j] <==> left2[i] < left2[j]
    ensures SpearmanRoot(left, right, root) <==> SpearmanRoot(left2, right, root)
    ensures Spearman(left, right, root) == Spearman(left2, right, root)
    ensures Spearman(right, left, root) == Spearman(right, left2, root)
  {
    RanksSeeOnlyOrder(left, left2);
  }

  // ---------- the program ----------

  predicate ByValue(a: (real, nat), b: (real, nat)) { a.0 <= b.0 }

  function Indexed(values: seq<real>): seq<(real, nat)> {
    seq(|values|, i requires 0 <= i < |values| => (values[i], i as nat))
  }

  ghost predicate IsRanking(values: seq<real>, ranked: seq<(real, nat)>) {
    && multiset(ranked) == multiset(Indexed(values))
    && Sorted(ranked, ByValue)
  }

  lemma RankingFacts(values: seq<real>, ranked: seq<(real, nat)>)
    requires IsRanking(values, ranked)
    ensures |ranked| == |values|
    ensures forall k | 0 <= k < |ranked| :: ranked[k].1 < |values| && ranked[k].0 == values[ranked[k].1]
    ensures forall k, m | 0 <= k < m < |ranked| :: ranked[k].1 != ranked[m].1
    ensures forall i | 0 <= i < |values| :: (values[i], i as nat) in ranked
  {
    var init := Indexed(values);
    SameLength(ranked, init);
    forall k | 0 <= k < |ranked| ensures ranked[k].1 < |values| && ranked[k].0 == values[ranked[k].1] {
      assert ranked[k] in multiset(init);
      assert ranked[k] in init;
    }
    DistinctPermutation(init, ranked);
    forall i | 0 <= i < |values| ensures (values[i], i as nat) in ranked {
      assert init[i] in multiset(ranked);
    }
  }

  /** A maximal run of equal values in sorted order occupies exactly the positions that `RankOf` averages. */
  lemma RunRank(values: seq<real>, ranked: seq<(real, nat)>, i: nat, j: nat)
    requires IsRanking(values, ranked) && i < j <= |ranked|
    requires forall k | 0 <= k < i :: ranked[k].0 < ranked[i].0
    requires forall k | i <= k < j :: ranked[k].0 == ranked[i].0
    requires j < |ranked| ==> ranked[j].0 != ranked[i].0
    ensures Less(values, ranked[i].0) == i && AtMost(values, ranked[i].0) == j
  {
    var x := ranked[i].0;
    var init := Indexed(values);
    CountIfPointwise(values, init, y => y < x, (q: (real, nat)) => q.0 < x);
    CountIfPointwise(values, init, y => y <= x, (q: (real, nat)) => q.0 <= x);
    CountIfPermutation(ranked, init, (q: (real, nat)) => q.0 < x);
    CountIfPermutation(ranked, init, (q: (real, nat)) => q.0 <= x);
    if j < |ranked| { assert ByValue(ranked[i], ranked[j]); }
    forall k | j <= k < |ranked| ensures ranked[k].0 > x {
      if k > j { assert ByValue(ranked[j], ranked[k]); }
    }
    PrefixCount(ranked, i, (q: (real, nat)) => q.0 < x);
    PrefixCount(ranked, j, (q: (real, nat)) => q.0 <= x);
  }

  lemma PrefixCount(ranked: seq<(real, nat)>, m: nat, p: ((real, nat)) -> bool)
    requires m <= |ranked| && forall k | 0 <= k < |ranked| :: p(ranked[k]) <==> k < m
    ensures CountIf(ranked, p) == m
  {
    assert ranked == ranked[..m] + ranked[m..];
    CountIfConcat(ranked[..m], ranked[m..], p);
    CountIfAll(ranked[..m], p, true);
    CountIfAll(ranked[m..], p, false);
  }

  /** The end of the run of equal values that starts at `i`. */
  method RunEnd(ranked: seq<(real, nat)>, i: nat) returns (j: nat)
    requires i < |ranked|
    ensures i < j <= |ranked|
    ensures forall k | i <= k < j :: ranked[k].0 == ranked[i].0
    ensures j < |ranked| ==> ranked[j].0 != ranked[i].0
  {
    j := i + 1;
    while j < |ranked| && ranked[j].0 == ranked[i].0
      invariant i < j <= |ranked|
      invariant forall k | i <= k < j :: ranked[k].0 == ranked[i].0
    {
      j := j + 1;
    }
  }

  method FillRun(out: array<real>, ranked: seq<(real, nat)>, i: nat, j: nat, rank: real)
    requires i <= j <= |ranked| && forall k | 0 <= k < |ranked| :: ranked[k].1 < out.Length
    requires forall k, m | 0 <= k < m < |ranked| :: ranked[k].1 != ranked[m].1
    modifies out
    ensures forall k | i <= k < j :: out[ranked[k].1] == rank
    ensures forall k | 0 <= k < i :: out[ranked[k].1] == old(out[ranked[k].1])
  {
    for k := i to j
      invariant forall m | i <= m < k :: out[ranked[m].1] == rank
      invariant forall m | 0 <= m < i :: out[ranked[m].1] == old(out[ranked[m].1])
    {
      out[ranked[k].1] := rank;
    }
  }

  method ComputeRanks(values: seq<real>) returns (ranks: seq<real>)
    ensures ranks == Ranks(values)
  {
    hide RankOf, Sort;
    var ranked := Sort(Indexed(values), ByValue);
    SortSorts(Indexed(values), ByValue);
    RankingFacts(values, ranked);
    var n := |ranked|;
    var out := new real[n];
    var i := 0;
    while i < n
      invariant i <= n
      invariant forall k | 0 <= k < i :: out[ranked[k].1] == RankOf(values, ranked[k].0)
      invariant 0 < i < n ==> ranked[i - 1].0 < ranked[i].0
    {
      var j := RunEnd(ranked, i);
      forall k | 0 <= k < i ensures ranked[k].0 < ranked[i].0 {
        if k < i - 1 { assert ByValue(ranked[k], ranked[i - 1]); }
      }
      RunRankValue(values, ranked, i, j);
      FillRun(out, ranked, i, j, ((i + 1) as real + j as real) / 2.0);
      if j < n { assert ByValue(ranked[j - 1], ranked[j]); }
      i := j;
    }
    ranks := out[..];
    forall m | 0 <= m < |values| ensures ranks[m] == Ranks(values)[m] {
      var k :| 0 <= k < n && ranked[k] == (values[m], m);
    }
  }

  lemma RunRankValue(values: seq<real>, ranked: seq<(real, nat)>, i: nat, j: nat)
    requires IsRanking(values, ranked) && i < j <= |ranked|
    requires forall k | 0 <= k < i :: ranked[k].0 < ranked[i].0
    requires forall k | i <= k < j :: ranked[k].0 == ranked[i].0
    requires j < |ranked| ==> ranked[j].0 != ranked[i].0
    ensures RankOf(values, ranked[i].0) == ((i + 1) as real + j as real) / 2.0
  {
    RunRank(values, ranked, i, j);
  }

  method ComputeMean(values: seq<real>) returns (m: real)
    ensures m == Mean(values)
  {
    if values == [] {
      return 0.0;
    }
    var sum := 0.0;
    for i := 0 to |values|
      invariant sum == Sum(values[..i])
    {
      SumStep(values, i);
      sum := sum + values[i];
    }
    assert values[..|values|] == values;
    m := sum / |values| as real;
  }

  /** The accumulation loop of `pearson`. */
  method DeltaSums(left: seq<real>, right: seq<real>, meanLeft: real, meanRight: real)
    returns (numerator: real, leftSquares: real, rightSquares: real)
    requires |left| == |right| && meanLeft == Mean(left) && meanRight == Mean(right)
    ensures numerator == Dot(Deltas(left), Deltas(right))
    ensures leftSquares == Squares(left) && rightSquares == Squares(right)
  {
    hide Mean;
    numerator, leftSquares, rightSquares := 0.0, 0.0, 0.0;
    ghost var dl, dr := Deltas(left), Deltas(right);
    for i := 0 to |left|
      invariant numerator == Dot(dl[..i], dr[..i])
      invariant leftSquares == Dot(dl[..i], dl[..i])
      invariant rightSquares == Dot(dr[..i], dr[..i])
    {
      var leftDelta := left[i] - meanLeft;
      var rightDelta := right[i] - meanRight;
      DotStep(dl, dr, i);
      DotStep(dl, dl, i);
      DotStep(dr, dr, i);
      numerator := numerator + leftDelta * rightDelta;
      leftSquares := leftSquares + leftDelta * leftDelta;
      rightSquares := rightSquares + rightDelta * rightDelta;
    }
    assert dl[..|left|] == dl && dr[..|left|] == dr;
  }

  lemma DotStep(a: seq<real>, b: seq<real>, i: nat)
    requires |a| == |b| && i < |a|
    ensures Dot(a[..i + 1], b[..i + 1]) == Dot(a[..i], b[..i]) + a[i] * b[i]
  {
    assert a[..i + 1][..i] == a[..i] && b[..i + 1][..i] == b[..i];
  }

  method ComputePearson(left: seq<real>, right: seq<real>, root: real) returns (r: real)
    requires |left| == |right| && IsRoot(root, Squares(left) * Squares(right))
    ensures r == Pearson(left, right, root)
  {
    var meanLeft := ComputeMean(left);
    var meanRight := ComputeMean(right);
    var numerator, leftSquares, rightSquares := DeltaSums(left, right, meanLeft, meanRight);
    var denominator := root;
    assert IsRoot(denominator, leftSquares * rightSquares);
    if denominator == 0.0 {
      return 0.0;
    }
    r := numerator / denominator;
  }

  method ComputeSpearman(left: seq<real>, right: seq<real>, root: real) returns (r: real)
    requires SpearmanRoot(left, right, root)
    ensures r == Spearman(left, right, root)
  {
    if |left| != |right| || |left| < 2 {
      return 0.0;
    }
    var leftRanks := ComputeRanks(left);
    var rightRanks := ComputeRanks(right);
    r := ComputePearson(leftRanks, rightRanks, root);
  }
}
