/** Where the rank correlation reaches its extremes, how it answers reversal, and its closed form without ties. */
module RankExtremes {
  import opened Arith
  import opened Reals
  import opened Sorting
  import opened R = Ranks

  ghost predicate Alike(a: seq<real>, b: seq<real>)
    requires |a| == |b|
  {
    forall i, j | 0 <= i < |a| && 0 <= j < |a| :: a[i] < a[j] <==> b[i] < b[j]
  }

  ghost predicate Opposed(a: seq<real>, b: seq<real>)
    requires |a| == |b|
  {
    forall i, j | 0 <= i < |a| && 0 <= j < |a| :: a[i] < a[j] <==> b[j] < b[i]
  }

  ghost predicate Constant(s: seq<real>) {
    forall i, j | 0 <= i < |s| && 0 <= j < |s| :: s[i] == s[j]
  }

  // ---------- reversal ----------

  function Negated(s: seq<real>): seq<real> {
    seq(|s|, i requires 0 <= i < |s| => -s[i])
  }

  /** Reversing the order of the items turns each rank r into n + 1 - r. */
  lemma ReversedRanks(a: seq<real>, b: seq<real>)
    requires |a| == |b| && Opposed(a, b)
    ensures forall i | 0 <= i < |a| :: Ranks(a)[i] + Ranks(b)[i] == (|a| + 1) as real
  {
    forall i | 0 <= i < |a| ensures Ranks(a)[i] + Ranks(b)[i] == (|a| + 1) as real {
      CountIfPointwise(b, a, y => y < b[i], y => a[i] < y);
      CountIfPointwise(b, a, y => y <= b[i], y => a[i] <= y);
      Complement(a, a[i]);
      StrictComplement(a, a[i]);
    }
  }

  lemma {:induction false} StrictComplement(a: seq<real>, y: real)
    ensures AtMost(a, y) + CountIf(a, x => y < x) == |a|
  {
    if a != [] { StrictComplement(a[..|a| - 1], y); }
  }

  lemma {:induction false} SumReflected(a: seq<real>, b: seq<real>, c: real)
    requires |a| == |b| && forall i | 0 <= i < |a| :: a[i] + b[i] == c
    ensures Sum(a) + Sum(b) == |a| as real * c
  {
    if a != [] {
      var n := |a| - 1;
      SumReflected(a[..n], b[..n], c);
      Distribute(c, n as real, 1.0);
    }
  }

  lemma MeanReflected(a: seq<real>, b: seq<real>, c: real)
    requires |a| == |b| > 0 && forall i | 0 <= i < |a| :: a[i] + b[i] == c
    ensures Mean(a) + Mean(b) == c
  {
    var n := |a| as real;
    SumReflected(a, b, c);
    QuotientAdd(Sum(a), Sum(b), n);
    QuotientIs(c, n * c, n);
  }

  lemma DeltasReflected(a: seq<real>, b: seq<real>, c: real)
    requires |a| == |b| && forall i | 0 <= i < |a| :: a[i] + b[i] == c
    ensures Deltas(b) == Negated(Deltas(a))
  {
    if a != [] { MeanReflected(a, b, c); }
  }

  lemma {:induction false} DotNegated(a: seq<real>, b: seq<real>)
    requires |a| == |b|
    ensures Dot(a, Negated(b)) == -Dot(a, b)
    ensures Dot(Negated(b), a) == -Dot(b, a)
  {
    if a != [] {
      var n := |a| - 1;
      DotNegated(a[..n], b[..n]);
      assert Negated(b)[..n] == Negated(b[..n]);
      assert a[n] * (-b[n]) == -(a[n] * b[n]);
    }
  }

  /** Reversing the order of one list, as any strictly decreasing function of its scores does, negates the
      correlation. */
  lemma ReversalNegates(left: seq<real>, right: seq<real>, reversed: seq<real>, root: real)
    requires |right| == |reversed| && Opposed(right, reversed)
    ensures SpearmanRoot(left, right, root) <==> SpearmanRoot(left, reversed, root)
    ensures Spearman(left, reversed, root) == -Spearman(left, right, root)
  {
    hide Sum, Mean, Dot, RankOf;
    ReversedRanks(right, reversed);
    DeltasReflected(Ranks(right), Ranks(reversed), (|right| + 1) as real);
    var d, e := Deltas(Ranks(right)), Deltas(Ranks(left));
    DotNegated(d, d);
    DotNegated(Negated(d), d);
    if |left| == |right| {
      DotNegated(e, d);
      if root != 0.0 { NegatedQuotient(Dot(e, d), root); }
    }
  }

  lemma NegatedQuotient(a: real, b: real)
    requires b != 0.0
    ensures (-a) / b == -(a / b)
  {
    QuotientTimes(a, b);
    QuotientIs(-(a / b), -a, b);
  }

  // ---------- the equality case of the Cauchy-Schwarz inequality ----------

  lemma {:induction false} NoResidual(a: seq<real>, b: seq<real>, s: real, t: real)
    requires |a| == |b| && Residual(a, b, s, t) == 0.0
    ensures forall i | 0 <= i < |a| :: s * a[i] == t * b[i]
  {
    if a != [] {
      var n := |a| - 1;
      var d := s * a[n] - t * b[n];
      ResidualExpands(a[..n], b[..n], s, t);
      Square(d, d * d);
      NoResidual(a[..n], b[..n], s, t);
      forall i | 0 <= i < |a| ensures s * a[i] == t * b[i] {
        if i < n { assert a[..n][i] == a[i] && b[..n][i] == b[i]; }
      }
    }
  }

  lemma {:induction false} DotSelfZero(a: seq<real>)
    requires Dot(a, a) == 0.0
    ensures forall i | 0 <= i < |a| :: a[i] == 0.0
  {
    if a != [] {
      var n := |a| - 1;
      DotSquares(a[..n]);
      Square(a[n], a[n] * a[n]);
      DotSelfZero(a[..n]);
      forall i | 0 <= i < |a| ensures a[i] == 0.0 {
        if i < n { assert a[..n][i] == a[i]; }
      }
    }
  }

  lemma {:induction false} DotOfZeros(a: seq<real>)
    requires forall i | 0 <= i < |a| :: a[i] == 0.0
    ensures Dot(a, a) == 0.0
  {
    if a != [] { DotOfZeros(a[..|a| - 1]); }
  }

  lemma {:induction false} SumOfEquals(s: seq<real>, x: real)
    requires forall i | 0 <= i < |s| :: s[i] == x
    ensures Sum(s) == |s| as real * x
  {
    if s != [] {
      SumOfEquals(s[..|s| - 1], x);
      Distribute(x, (|s| - 1) as real, 1.0);
    }
  }

  /** The ranks do not vary exactly when the scores do not. */
  lemma NoSpreadExactlyWhen(values: seq<real>)
    ensures Squares(Ranks(values)) == 0.0 <==> Constant(values)
  {
    var r := Ranks(values);
    if Squares(r) == 0.0 {
      DotSelfZero(Deltas(r));
      forall i, j | 0 <= i < |values| && 0 <= j < |values| ensures values[i] == values[j] {
        assert Deltas(r)[i] == Deltas(r)[j];
        RanksKeepOrder(values, i, j);
      }
    }
    if Constant(values) {
      if values != [] { ConstantMean(r, values); }
      DotOfZeros(Deltas(r));
    }
  }

  lemma ConstantMean(r: seq<real>, values: seq<real>)
    requires values != [] && r == Ranks(values) && Constant(values)
    ensures forall i | 0 <= i < |r| :: r[i] == Mean(r)
  {
    var n := |r| as real;
    forall i | 0 <= i < |r| ensures r[i] == r[0] { assert values[i] == values[0]; }
    SumOfEquals(r, r[0]);
    QuotientIs(r[0], n * r[0], n);
  }

  /** The program's division falls back to 0 exactly when one of the lists is constant. */
  lemma RootIsZeroExactlyWhen(left: seq<real>, right: seq<real>, root: real)
    requires SpearmanRoot(left, right, root)
    ensures root == 0.0 <==> Constant(left) || Constant(right)
  {
    hide Constant, Ranks, Squares;
    NoSpreadExactlyWhen(left);
    NoSpreadExactlyWhen(right);
    ZeroProduct(Squares(Ranks(left)), Squares(Ranks(right)), root);
  }

  lemma ZeroProduct(l: real, r: real, root: real)
    requires IsRoot(root, l * r)
    ensures root == 0.0 <==> l == 0.0 || r == 0.0
  {
    Square(root, root * root);
  }

  /** A correlation of 1 makes the deltas proportional with a positive factor. */
  lemma Proportional(a: seq<real>, b: seq<real>, n: real, l: real, r: real)
    requires |a| == |b| && n == Dot(a, b) && l == Dot(a, a) && r == Dot(b, b)
    requires n > 0.0 && n * n == l * r
    ensures l > 0.0 && forall i | 0 <= i < |a| :: n * a[i] == l * b[i]
  {
    hide Dot, Residual;
    DotSquares(a);
    PositiveFactor(n, l, r);
    ResidualExpands(a, b, n, l);
    ResidualVanishes(l, n, r, Residual(a, b, n, l));
    NoResidual(a, b, n, l);
  }

  lemma PositiveFactor(n: real, l: real, r: real)
    requires n > 0.0 && n * n == l * r && l >= 0.0
    ensures l > 0.0
  {
    Positive(n, n, n * n);
    ZeroTimes(l, r, l * r);
  }

  lemma ZeroTimes(l: real, r: real, p: real)
    requires p == l * r
    ensures l == 0.0 ==> p == 0.0
  {
  }

  lemma ResidualVanishes(l: real, n: real, r: real, q: real)
    requires q == (n * n) * l - 2.0 * ((n * l) * n) + (l * l) * r && n * n == l * r
    ensures q == 0.0
  {
    assert (n * l) * n == (n * n) * l;
    assert (l * l) * r == (l * r) * l;
  }

  lemma SameOrder(n: real, l: real, x: real, y: real, u: real, v: real)
    requires n > 0.0 && l > 0.0 && n * x == l * u && n * y == l * v
    ensures x < y <==> u < v
  {
    if x < y { StrictMonoOf(x, y, n, n * x, n * y); }
    if u < v { StrictMonoOf(u, v, l, l * u, l * v); }
    if y <= x { MonoOf(y, x, n, n * y, n * x); }
    if v <= u { MonoOf(v, u, l, l * v, l * u); }
  }

  lemma OneMeansAlike(left: seq<real>, right: seq<real>, root: real)
    requires |left| == |right| && SpearmanRoot(left, right, root) && root > 0.0
    requires Dot(Deltas(Ranks(left)), Deltas(Ranks(right))) == root
    ensures Alike(left, right)
  {
    hide Mean, RankOf, Dot;
    var a, b := Deltas(Ranks(left)), Deltas(Ranks(right));
    var l := Dot(a, a);
    Proportional(a, b, root, l, Dot(b, b));
    forall i, j | 0 <= i < |left| && 0 <= j < |left| ensures left[i] < left[j] <==> right[i] < right[j] {
      SameOrder(root, l, a[i], a[j], b[i], b[j]);
      RanksKeepOrder(left, i, j);
      RanksKeepOrder(right, i, j);
    }
  }

  lemma RootOfSquare(root: real, l: real)
    requires IsRoot(root, l * l) && l >= 0.0
    ensures root == l
  {
    RootAbove(l, root, l * l, root * root);
    RootAbove(root, l, root * root, l * l);
  }

  lemma AlikeMeansOne(left: seq<real>, right: seq<real>, root: real)
    requires |left| == |right| && SpearmanRoot(left, right, root) && Alike(left, right)
    ensures Dot(Deltas(Ranks(left)), Deltas(Ranks(right))) == root
  {
    hide Mean, RankOf, Dot;
    RanksSeeOnlyOrder(left, right);
    var l := Squares(Ranks(left));
    DotSquares(Deltas(Ranks(left)));
    RootOfSquare(root, l);
  }

  lemma OneExactlyWhenAlike(left: seq<real>, right: seq<real>, root: real)
    requires |left| == |right| >= 2 && SpearmanRoot(left, right, root)
    ensures Spearman(left, right, root) == 1.0 <==> Alike(left, right) && root > 0.0
  {
    hide Mean, RankOf, Dot, Alike;
    var n := Dot(Deltas(Ranks(left)), Deltas(Ranks(right)));
    if root > 0.0 {
      QuotientTimes(n, root);
      QuotientIs(1.0, root, root);
      if n == root { OneMeansAlike(left, right, root); }
      if Alike(left, right) { AlikeMeansOne(left, right, root); }
    }
  }

  lemma SpreadOfAlike(left: seq<real>, right: seq<real>)
    requires |left| == |right| && Alike(left, right)
    ensures Constant(left) <==> Constant(right)
    ensures Constant(left) <==> !exists i, j | 0 <= i < |left| && 0 <= j < |left| :: left[i] < left[j]
  {
    forall i, j | 0 <= i < |left| && 0 <= j < |left| ensures left[i] == left[j] <==> right[i] == right[j] {
      assert left[j] < left[i] <==> right[j] < right[i];
    }
  }

  /** The correlation is 1 exactly when both lists order the items alike and the scores are not all equal. */
  lemma SpearmanOneExactlyWhen(left: seq<real>, right: seq<real>, root: real)
    requires SpearmanRoot(left, right, root)
    ensures Spearman(left, right, root) == 1.0 <==>
              |left| == |right|
              && (forall i, j | 0 <= i < |left| && 0 <= j < |left| :: left[i] < left[j] <==> right[i] < right[j])
              && exists i, j | 0 <= i < |left| && 0 <= j < |left| :: left[i] < left[j]
  {
    hide Ranks;
    RootIsZeroExactlyWhen(left, right, root);
    if |left| == |right| {
      if Alike(left, right) { SpreadOfAlike(left, right); }
      if |left| >= 2 {
        hide Spearman;
        OneExactlyWhenAlike(left, right, root);
      }
    }
  }

  lemma NegatedIsOpposed(s: seq<real>)
    ensures |Negated(s)| == |s| && Opposed(s, Negated(s))
  {
  }

  /** The correlation is -1 exactly when the two lists order the items in opposite ways and the scores are not all
      equal. */
  lemma SpearmanMinusOneExactlyWhen(left: seq<real>, right: seq<real>, root: real)
    requires SpearmanRoot(left, right, root)
    ensures Spearman(left, right, root) == -1.0 <==>
              |left| == |right|
              && (forall i, j | 0 <= i < |left| && 0 <= j < |left| :: left[i] < left[j] <==> right[j] < right[i])
              && exists i, j | 0 <= i < |left| && 0 <= j < |left| :: left[i] < left[j]
  {
    hide Spearman, Ranks;
    NegatedIsOpposed(right);
    ReversalNegates(left, right, Negated(right), root);
    SpearmanOneExactlyWhen(left, Negated(right), root);
  }

  /** In terms of ranks: orders are opposite exactly when each rank of one list is n + 1 minus the other's. */
  lemma OpposedExactlyWhen(left: seq<real>, right: seq<real>)
    requires |left| == |right|
    ensures (forall i, j | 0 <= i < |left| && 0 <= j < |left| :: left[i] < left[j] <==> right[j] < right[i]) <==>
            (forall i | 0 <= i < |left| :: Ranks(left)[i] == (|left| + 1) as real - Ranks(right)[i])
  {
    hide RankOf;
    if Opposed(left, right) { ReversedRanks(left, right); }
    if forall i | 0 <= i < |left| :: Ranks(left)[i] == (|left| + 1) as real - Ranks(right)[i] {
      forall i, j | 0 <= i < |left| && 0 <= j < |left| ensures left[i] < left[j] <==> right[j] < right[i] {
        RanksKeepOrder(left, i, j);
        RanksKeepOrder(right, j, i);
      }
    }
  }

  // ---------- the closed form without ties ----------

  /** The sum of the squared rank differences. */
  function Gaps(a: seq<real>, b: seq<real>): real
    requires |a| == |b|
  {
    if a == [] then 0.0
    else
      var n := |a| - 1;
      Gaps(a[..n], b[..n]) + (a[n] - b[n]) * (a[n] - b[n])
  }

  function SumOfSquares(s: seq<real>): real { SumBy(s, x => x * x) }

  function FirstNumbers(n: nat): seq<real> {
    seq(n, i => (i + 1) as real)
  }

  lemma NextToRank(values: seq<real>, k: nat)
    requires Distinct(values) && k < |values|
    ensures AtMost(values, values[k]) == Less(values, values[k]) + 1
    ensures Less(values, values[k]) < |values|
  {
    var x := values[k];
    var below, upTo := Positions(values, y => y < x), Positions(values, y => y <= x);
    CountIfSize(values, y => y < x);
    CountIfSize(values, y => y <= x);
    CountIfMono(values, y => y < x, y => y <= x);
    forall i | 0 <= i < |values| && i != k ensures values[i] != x {
      assert if i < k then values[i] != values[k] else values[k] != values[i];
    }
    assert upTo == below + {k};
  }

  lemma SameElements<T>(xs: seq<T>, ys: seq<T>)
    requires Distinct(xs) && |xs| == |ys| && forall x | x in xs :: x in ys
    ensures multiset(xs) == multiset(ys)
  {
    DistinctMultiplicity(xs);
    var a, b := multiset(xs), multiset(ys);
    forall x ensures a[x] <= b[x] {
      if x in xs { assert x in b; }
    }
    assert b == a + (b - a);
    assert |a| == |xs| && |b| == |ys|;
  }

  /** Without ties the ranks are the numbers from 1 to n in some order. */
  lemma RanksAreNumbers(values: seq<real>)
    requires Distinct(values)
    ensures multiset(Ranks(values)) == multiset(FirstNumbers(|values|))
  {
    var r, numbers := Ranks(values), FirstNumbers(|values|);
    forall i | 0 <= i < |r| ensures r[i] in numbers {
      NextToRank(values, i);
      assert r[i] == numbers[Less(values, values[i])];
    }
    forall i, j | 0 <= i < j < |r| ensures r[i] != r[j] {
      assert values[i] != values[j];
      RanksKeepOrder(values, i, j);
    }
    SameElements(r, numbers);
  }

  lemma {:induction false} SquaresOfNumbers(n: nat)
    ensures 6.0 * SumOfSquares(FirstNumbers(n)) == (n * (n + 1) * (2 * n + 1)) as real
  {
    if n > 0 {
      SquaresOfNumbers(n - 1);
      assert FirstNumbers(n)[..n - 1] == FirstNumbers(n - 1);
      CastProduct(n, n);
      CubeStep(n);
    }
  }

  lemma CubeStep(n: int)
    ensures n * (n + 1) * (2 * n + 1) == (n - 1) * n * (2 * n - 1) + 6 * (n * n)
  {
  }

  lemma {:induction false} SpreadFrom(s: seq<real>, d: seq<real>, c: real)
    requires |s| == |d| && forall i | 0 <= i < |s| :: d[i] == s[i] - c
    ensures Dot(d, d) == SumOfSquares(s) - 2.0 * (c * Sum(s)) + |s| as real * (c * c)
  {
    if s != [] {
      var n := |s| - 1;
      var x := s[n];
      SpreadFrom(s[..n], d[..n], c);
      SquareOfDifference(1.0, x, 1.0, c);
      Distribute(c, Sum(s[..n]), x);
      Distribute(c * c, n as real, 1.0);
    }
  }

  lemma SumOfSquaresPermutation(a: seq<real>, b: seq<real>)
    requires multiset(a) == multiset(b)
    ensures SumOfSquares(a) == SumOfSquares(b)
  {
    SumByPermutation(a, b, x => x * x);
  }

  /** With or without ties the mean rank is (n + 1)/2. */
  lemma RanksMean(values: seq<real>)
    requires values != []
    ensures 2.0 * Mean(Ranks(values)) == (|values| + 1) as real
  {
    hide Sum, RankOf;
    var n := |values|;
    RanksSum(values);
    CastProduct(n, n + 1);
    HalfQuotient(Sum(Ranks(values)), n as real, (n + 1) as real);
  }

  lemma HalfQuotient(sum: real, x: real, y: real)
    requires x > 0.0 && 2.0 * sum == x * y
    ensures 2.0 * (sum / x) == y
  {
    QuotientTimes(sum, x);
    QuotientIs(y / 2.0, sum, x);
  }

  lemma SumFromMean(s: seq<real>)
    ensures Sum(s) == |s| as real * Mean(s)
  {
    if s != [] { QuotientTimes(Sum(s), |s| as real); }
  }

  /** Without ties the ranks spread alike in every list: twelve times their squares are n(n^2 - 1). */
  lemma SquaresWithoutTies(values: seq<real>)
    requires Distinct(values) && values != []
    ensures 12.0 * Squares(Ranks(values)) == (|values| * (|values| * |values| - 1)) as real
  {
    hide Sum, RankOf, Dot, SumOfSquares, FirstNumbers;
    var n, r := |values|, Ranks(values);
    RanksMean(values);
    SumFromMean(r);
    RanksAreNumbers(values);
    SumOfSquaresPermutation(r, FirstNumbers(n));
    SquaresOfNumbers(n);
    SpreadFrom(r, Deltas(r), Mean(r));
    Spread(n, n as real * Mean(r), Mean(r), SumOfSquares(r), Squares(r));
  }

  lemma Spread(n: nat, sum: real, mean: real, squares: real, spread: real)
    requires 2.0 * mean == (n + 1) as real && sum == n as real * mean
    requires 6.0 * squares == (n * (n + 1) * (2 * n + 1)) as real
    requires spread == squares - 2.0 * (mean * sum) + n as real * (mean * mean)
    ensures 12.0 * spread == (n * (n * n - 1)) as real
  {
    var x := n as real;
    CastProduct(n, n + 1);
    CastProduct(n * (n + 1), 2 * n + 1);
    CastProduct(n, n);
    CastProduct(n, n * n - 1);
    var m := (x + 1.0) / 2.0;
    assert 12.0 * (m * sum) == 3.0 * (x * (x + 1.0) * (x + 1.0));
    assert 12.0 * (x * (m * m)) == 3.0 * (x * (x + 1.0) * (x + 1.0));
    assert x * (x + 1.0) * (2.0 * x + 1.0) == 2.0 * (x * x * x) + 3.0 * (x * x) + x;
    assert x * (x + 1.0) * (x + 1.0) == x * x * x + 2.0 * (x * x) + x;
    assert x * (x * x - 1.0) == x * x * x - x;
  }

  lemma {:induction false} GapsAreResidual(a: seq<real>, b: seq<real>, d: seq<real>, e: seq<real>, m: real)
    requires |a| == |b| == |d| == |e|
    requires forall i | 0 <= i < |a| :: d[i] == a[i] - m && e[i] == b[i] - m
    ensures Residual(d, e, 1.0, 1.0) == Gaps(a, b)
  {
    if a != [] {
      var n := |a| - 1;
      GapsAreResidual(a[..n], b[..n], d[..n], e[..n], m);
    }
  }

  /** Without ties the correlation is 1 - 6 * (sum of squared rank differences) / (n(n^2 - 1)). */
  lemma SpearmanWithoutTies(left: seq<real>, right: seq<real>, root: real)
    requires SpearmanRoot(left, right, root)
    requires |left| == |right| >= 2 && Distinct(left) && Distinct(right)
    ensures |left| * (|left| * |left| - 1) > 0
    ensures Spearman(left, right, root) ==
            1.0 - 6.0 * Gaps(Ranks(left), Ranks(right)) / (|left| * (|left| * |left| - 1)) as real
  {
    var a, b := Ranks(left), Ranks(right);
    assert |a| == |left| && |b| == |right|;
    hide Sum, Dot, Gaps, Residual, Ranks, IsRoot;
    var dot, s := Dot(Deltas(a), Deltas(b)), Squares(a);
    SquaresWithoutTies(left);
    SquaresWithoutTies(right);
    DotSquares(Deltas(a));
    RootOfSquare(root, s);
    GapsExpand(left, right);
    CubeBound(|left|);
    ClosedForm(dot, s, Gaps(a, b), (|left| * (|left| * |left| - 1)) as real);
  }

  lemma GapsExpand(left: seq<real>, right: seq<real>)
    requires |left| == |right| > 0
    ensures var a, b := Ranks(left), Ranks(right);
            Gaps(a, b) == Squares(a) - 2.0 * Dot(Deltas(a), Deltas(b)) + Squares(b)
  {
    hide Sum, Dot, Gaps, Residual, RankOf;
    var a, b := Ranks(left), Ranks(right);
    RanksMean(left);
    RanksMean(right);
    GapsAreResidual(a, b, Deltas(a), Deltas(b), Mean(a));
    ResidualExpands(Deltas(a), Deltas(b), 1.0, 1.0);
  }

  lemma CubeBound(n: int)
    requires n >= 2
    ensures n * (n * n - 1) > 0
  {
    IntMono(2, n, n);
    IntMono(n, n * n - 1, n);
  }

  lemma ClosedForm(dot: real, s: real, gaps: real, cube: real)
    requires cube > 0.0 && 12.0 * s == cube && gaps == s - 2.0 * dot + s
    ensures s > 0.0 && dot / s == 1.0 - 6.0 * gaps / cube
  {
    var q := 6.0 * gaps / cube;
    QuotientTimes(6.0 * gaps, cube);
    assert (1.0 - q) * s == s - q * s;
    assert q * cube == 12.0 * (q * s);
    QuotientIs(1.0 - q, dot, s);
  }
}
