/** Pairwise judging: order swaps, majority aggregation and the call budget. */
module Pairwise {
  import opened Wrappers
  import opened Arith
  import opened Collections
  import opened Reals
  import opened Sorting
  import opened Text

  datatype Tokens = Tokens(prompt: int, completion: int, total: int)

  datatype Output = Output(winner: string, preference: string, strength: real, stable: bool, voteCount: nat,
                           reasons: seq<string>, tokens: Tokens, cost: real)

  const UNSTABLE_SWAP := "judge preference changed after A/B order swap"
  const NO_MAJORITY := "pairwise ensemble/repeat did not reach majority"

  function AddTokens(a: Tokens, b: Tokens): Tokens {
    Tokens(a.prompt + b.prompt, a.completion + b.completion, a.total + b.total)
  }

  // ---------- preferences ----------

  function MirrorWinner(w: string): string { if w == "A" then "B" else if w == "B" then "A" else w }

  function MirrorPreference(p: string): string {
    if p == "A_much_better" then "B_much_better"
    else if p == "A_better" then "B_better"
    else if p == "B_better" then "A_better"
    else if p == "B_much_better" then "A_much_better"
    else p
  }

  /** `mapSwappedPairwise`. */
  function Mirror(o: Output): Output {
    o.(winner := MirrorWinner(o.winner), preference := MirrorPreference(o.preference))
  }

  predicate Agrees(left: Output, right: Output) {
    || (left.winner == "tie" && right.winner == "tie")
    || (left.winner == right.winner && left.preference != "" && right.preference != "")
  }

  function Strength(o: Output): real {
    if o.preference == "A_much_better" then 1.0
    else if o.preference == "A_better" then 0.5
    else if o.preference == "B_better" then -0.5
    else if o.preference == "B_much_better" then -1.0
    else if o.winner == "A" then 0.5
    else if o.winner == "B" then -0.5
    else 0.0
  }

  function AverageStrength(outputs: seq<Output>): real {
    if outputs == [] then 0.0 else SumBy(outputs, Strength) / |outputs| as real
  }

  function Abs(x: real): real { if x < 0.0 then -x else x }

  function PreferenceFor(winner: string, strength: real): string {
    if winner == "tie" || strength < 0.25 then "tie"
    else if winner == "A" then (if strength >= 0.75 then "A_much_better" else "A_better")
    else if strength >= 0.75 then "B_much_better"
    else "B_better"
  }

  lemma MirrorFacts(o: Output)
    ensures Mirror(Mirror(o)) == o
    ensures Strength(Mirror(o)) == -Strength(o)
  {
  }

  // ---------- aggregation ----------

  function VotesFor(w: string): Output -> bool { (o: Output) => o.stable && o.winner == w }

  function Votes(outputs: seq<Output>, w: string): nat { CountIf(outputs, VotesFor(w)) }

  function Stable(outputs: seq<Output>): seq<Output> {
    if outputs == [] then []
    else Stable(outputs[..|outputs| - 1]) + if outputs[|outputs| - 1].stable then [outputs[|outputs| - 1]] else []
  }

  /** The winner with most votes, the least one among equals; ("", 0) without votes. */
  ghost predicate IsPlurality(outputs: seq<Output>, w: string, c: nat) {
    && (c == 0 ==> w == "" && forall v :: Votes(outputs, v) == 0)
    && (c > 0 ==> Votes(outputs, w) == c)
    && forall v :: Votes(outputs, v) <= c && (Votes(outputs, v) == c > 0 ==> TextLe(w, v))
  }

  function TotalTokens(outputs: seq<Output>): Tokens {
    if outputs == [] then Tokens(0, 0, 0)
    else AddTokens(TotalTokens(outputs[..|outputs| - 1]), outputs[|outputs| - 1].tokens)
  }

  function AllReasons(outputs: seq<Output>): seq<string> {
    if outputs == [] then [] else AllReasons(outputs[..|outputs| - 1]) + outputs[|outputs| - 1].reasons
  }

  function TotalCost(outputs: seq<Output>): real { SumBy(outputs, (o: Output) => o.cost) }

  /** The aggregate for a given plurality. Cost and reasons start from the first output, tokens from nothing. */
  function AggregateWith(outputs: seq<Output>, w: string, c: nat): Output
    requires outputs != []
  {
    var base := outputs[0].(tokens := TotalTokens(outputs), cost := outputs[0].cost + TotalCost(outputs),
                            reasons := outputs[0].reasons + AllReasons(outputs), voteCount := c);
    if c == 0 || c * 2 <= |outputs| then
      base.(winner := "tie", preference := "unstable", strength := 0.0, stable := false, reasons := base.reasons + [NO_MAJORITY])
    else
      var strength := Abs(AverageStrength(Stable(outputs)));
      base.(winner := w, stable := true, strength := strength, preference := PreferenceFor(w, strength))
  }

  /** What aggregating two or more outputs returns. */
  ghost predicate Aggregates(outputs: seq<Output>, r: Output) {
    && |outputs| >= 2
    && exists w :: IsPlurality(outputs, w, r.voteCount) && r == AggregateWith(outputs, w, r.voteCount)
  }

  lemma PluralityUnique(outputs: seq<Output>, w: string, c: nat, v: string, d: nat)
    requires IsPlurality(outputs, w, c) && IsPlurality(outputs, v, d)
    ensures w == v && c == d
  {
    assert Votes(outputs, w) <= d && Votes(outputs, v) <= c;
    TextTotal(w, v);
  }

  /** The order in which Go visits the vote map cannot matter: the aggregate is unique. */
  lemma AggregateUnique(outputs: seq<Output>, r: Output, s: Output)
    requires Aggregates(outputs, r) && Aggregates(outputs, s)
    ensures r == s
  {
    var w :| IsPlurality(outputs, w, r.voteCount) && r == AggregateWith(outputs, w, r.voteCount);
    var v :| IsPlurality(outputs, v, s.voteCount) && s == AggregateWith(outputs, v, s.voteCount);
    PluralityUnique(outputs, w, r.voteCount, v, s.voteCount);
  }

  lemma {:induction false} TwoCounts(outputs: seq<Output>, v: string, w: string)
    requires v != w
    ensures Votes(outputs, v) + Votes(outputs, w) <= |outputs|
  {
    if outputs != [] { TwoCounts(outputs[..|outputs| - 1], v, w); }
  }

  /** A stable winner is exactly a holder of a strict majority of all outputs, and there is at most one. */
  lemma StableMeansStrictMajority(outputs: seq<Output>, r: Output, w: string)
    requires Aggregates(outputs, r)
    ensures r.stable && r.winner == w <==> 2 * Votes(outputs, w) > |outputs|
    ensures 2 * Votes(outputs, w) > |outputs| ==> forall v | v != w :: 2 * Votes(outputs, v) < |outputs|
    ensures !r.stable ==> r.winner == "tie"
  {
    var p :| IsPlurality(outputs, p, r.voteCount) && r == AggregateWith(outputs, p, r.voteCount);
    assert Votes(outputs, w) <= r.voteCount;
    forall v | v != w ensures Votes(outputs, v) + Votes(outputs, w) <= |outputs| { TwoCounts(outputs, v, w); }
    if p != w { TwoCounts(outputs, p, w); }
  }

  // ---------- what the verdict says ----------

  /** A stable verdict never prefers the other side, and the absolute average decides how strongly it prefers its own. */
  lemma PreferenceFollowsWinner(outputs: seq<Output>, r: Output)
    requires Aggregates(outputs, r) && r.stable
    ensures var avg := AverageStrength(Stable(outputs)); r.strength == (if avg >= 0.0 then avg else -avg)
    ensures r.winner == "A" ==>
              && (r.preference == "A_much_better" <==> r.strength >= 0.75)
              && (r.preference == "A_better" <==> 0.25 <= r.strength < 0.75)
              && (r.preference == "tie" <==> r.strength < 0.25)
    ensures r.winner == "B" ==>
              && (r.preference == "B_much_better" <==> r.strength >= 0.75)
              && (r.preference == "B_better" <==> 0.25 <= r.strength < 0.75)
              && (r.preference == "tie" <==> r.strength < 0.25)
    ensures r.winner == "tie" ==> r.preference == "tie"
  {
    hide Stable, AverageStrength, Votes, TextLe;
    VerdictFields(outputs, r);
  }

  /** Stable outputs with a given preference. */
  function Preferring(outputs: seq<Output>, preference: string): nat {
    CountIf(outputs, (o: Output) => o.stable && o.preference == preference)
  }

  /** The average weighs whole preferences twice as much as mild ones, A's against B's. */
  lemma {:induction false} StrengthIsBalance(outputs: seq<Output>)
    requires forall i | 0 <= i < |outputs| && outputs[i].stable ::
               outputs[i].preference in ["A_much_better", "A_better", "B_better", "B_much_better"]
    ensures SumBy(Stable(outputs), Strength) ==
            (Preferring(outputs, "A_much_better") - Preferring(outputs, "B_much_better")) as real
            + 0.5 * (Preferring(outputs, "A_better") - Preferring(outputs, "B_better")) as real
  {
    if outputs != [] {
      var front, last := outputs[..|outputs| - 1], outputs[|outputs| - 1];
      StrengthIsBalance(front);
      assert (Stable(front) + [last])[..|Stable(front)|] == Stable(front) && Stable(front) + [] == Stable(front);
    }
  }

  lemma {:induction false} SameStrengths(outputs: seq<Output>, x: real)
    requires forall i | 0 <= i < |outputs| :: Strength(outputs[i]) == x
    ensures SumBy(outputs, Strength) == |outputs| as real * x
  {
    hide Strength;
    if outputs != [] {
      SameStrengths(outputs[..|outputs| - 1], x);
      Distribute(x, (|outputs| - 1) as real, 1.0);
    }
  }

  /** Outputs that all agree are reported as they are. */
  lemma UnanimousVerdict(outputs: seq<Output>, r: Output, w: string, p: string)
    requires Aggregates(outputs, r)
    requires forall i | 0 <= i < |outputs| :: outputs[i].stable && outputs[i].winner == w && outputs[i].preference == p
    requires (w, p) in [("A", "A_much_better"), ("A", "A_better"), ("B", "B_better"), ("B", "B_much_better"), ("tie", "tie")]
    ensures r.stable && r.winner == w && r.preference == p && r.voteCount == |outputs|
    ensures r.strength == if w == "tie" then 0.0 else if p == "A_better" || p == "B_better" then 0.5 else 1.0
  {
    UnanimousVotes(outputs, w);
    UnanimousStrength(outputs, Strength(outputs[0]));
    hide Votes, AverageStrength, Aggregates, TextLe;
    StableMeansStrictMajority(outputs, r, w);
    WinnersVotes(outputs, r);
    VerdictFields(outputs, r);
  }

  lemma UnanimousVotes(outputs: seq<Output>, w: string)
    requires forall i | 0 <= i < |outputs| :: outputs[i].stable && outputs[i].winner == w
    ensures Votes(outputs, w) == |outputs| && Stable(outputs) == outputs
  {
    CountIfAll(outputs, VotesFor(w), true);
    AllStable(outputs);
  }

  lemma {:induction false} AllStable(outputs: seq<Output>)
    requires forall i | 0 <= i < |outputs| :: outputs[i].stable
    ensures Stable(outputs) == outputs
  {
    if outputs != [] {
      AllStable(outputs[..|outputs| - 1]);
      assert outputs == outputs[..|outputs| - 1] + [outputs[|outputs| - 1]];
    }
  }

  lemma UnanimousStrength(outputs: seq<Output>, x: real)
    requires outputs != [] && forall i | 0 <= i < |outputs| :: Strength(outputs[i]) == x
    ensures AverageStrength(outputs) == x
  {
    hide Strength, SumBy;
    SameStrengths(outputs, x);
    AverageIs(x, SumBy(outputs, Strength), |outputs| as real);
  }

  lemma AverageIs(x: real, sum: real, n: real)
    requires n > 0.0 && sum == x * n
    ensures sum / n == x
  {
    QuotientIs(x, sum, n);
  }

  lemma WinnersVotes(outputs: seq<Output>, r: Output)
    requires Aggregates(outputs, r) && r.stable
    ensures r.voteCount == Votes(outputs, r.winner)
  {
    hide Votes, Stable, AverageStrength, TextLe;
    var w :| IsPlurality(outputs, w, r.voteCount) && r == AggregateWith(outputs, w, r.voteCount);
  }

  /** Votes are the stable outputs with that winner. */
  lemma VotesAreOutputs(outputs: seq<Output>, w: string)
    ensures Votes(outputs, w) == |set i: nat | i < |outputs| && outputs[i].stable && outputs[i].winner == w|
  {
    CountIfSize(outputs, VotesFor(w));
    assert Positions(outputs, VotesFor(w)) == set i: nat | i < |outputs| && outputs[i].stable && outputs[i].winner == w;
  }

  // ---------- order of the outputs ----------

  lemma VotesPermutation(a: seq<Output>, b: seq<Output>)
    requires multiset(a) == multiset(b)
    ensures forall w :: Votes(a, w) == Votes(b, w)
  {
    forall w ensures Votes(a, w) == Votes(b, w) {
      CountIfPermutation(a, b, VotesFor(w));
    }
  }

  lemma PluralityTransfers(a: seq<Output>, b: seq<Output>, v: string, c: nat)
    requires (forall w :: Votes(a, w) == Votes(b, w)) && IsPlurality(b, v, c)
    ensures IsPlurality(a, v, c)
  {
    hide Votes, TextLe;
  }

  function StableStrength(o: Output): real { if o.stable then Strength(o) else 0.0 }

  lemma {:induction false} StableSums(outputs: seq<Output>)
    ensures SumBy(Stable(outputs), Strength) == SumBy(outputs, StableStrength)
    ensures |Stable(outputs)| == CountIf(outputs, (o: Output) => o.stable)
  {
    if outputs != [] {
      StableSums(outputs[..|outputs| - 1]);
      var rest, last := Stable(outputs[..|outputs| - 1]), outputs[|outputs| - 1];
      assert (rest + [last])[..|rest|] == rest && rest + [] == rest;
    }
  }

  lemma StrengthPermutation(a: seq<Output>, b: seq<Output>)
    requires multiset(a) == multiset(b)
    ensures AverageStrength(Stable(a)) == AverageStrength(Stable(b))
  {
    StableSums(a);
    StableSums(b);
    SumByPermutation(a, b, StableStrength);
    CountIfPermutation(a, b, (o: Output) => o.stable);
  }

  /** The order of the outputs does not matter to the verdict. */
  lemma VerdictIgnoresOrder(a: seq<Output>, b: seq<Output>, r: Output, s: Output)
    requires multiset(a) == multiset(b) && Aggregates(a, r) && Aggregates(b, s)
    ensures r.winner == s.winner && r.stable == s.stable && r.voteCount == s.voteCount
    ensures r.strength == s.strength && r.preference == s.preference
  {
    hide Votes, AverageStrength, Stable, TotalTokens, TotalCost, AllReasons, TextLe;
    VotesPermutation(a, b);
    StrengthPermutation(a, b);
    SameLength(a, b);
    var w :| IsPlurality(a, w, r.voteCount) && r == AggregateWith(a, w, r.voteCount);
    var v :| IsPlurality(b, v, s.voteCount) && s == AggregateWith(b, v, s.voteCount);
    PluralityTransfers(a, b, v, s.voteCount);
    PluralityUnique(a, w, r.voteCount, v, s.voteCount);
  }

  // ---------- mirroring ----------

  function MirrorAll(outputs: seq<Output>): seq<Output> {
    seq(|outputs|, i requires 0 <= i < |outputs| => Mirror(outputs[i]))
  }

  /** `b` gives the mirrored verdict of `a`, position by position: same stability, mirrored stable winner. */
  ghost predicate MirroredVerdicts(a: seq<Output>, b: seq<Output>) {
    && |a| == |b|
    && forall i | 0 <= i < |a| :: b[i].stable == a[i].stable && (a[i].stable ==> b[i].winner == MirrorWinner(a[i].winner))
  }

  lemma MirroredVotes(a: seq<Output>, b: seq<Output>, w: string)
    requires MirroredVerdicts(a, b)
    ensures Votes(b, MirrorWinner(w)) == Votes(a, w)
  {
    CountIfPointwise(a, b, VotesFor(w), VotesFor(MirrorWinner(w)));
  }

  /** Mirrored verdicts aggregate to the mirrored verdict. */
  lemma MirroredAggregate(a: seq<Output>, b: seq<Output>, r: Output, s: Output)
    requires MirroredVerdicts(a, b) && Aggregates(a, r) && Aggregates(b, s)
    ensures s.stable == r.stable && s.winner == MirrorWinner(r.winner)
  {
    forall w ensures Votes(b, MirrorWinner(w)) == Votes(a, w) { MirroredVotes(a, b, w); }
    if r.stable {
      StableMeansStrictMajority(a, r, r.winner);
      StableMeansStrictMajority(b, s, MirrorWinner(r.winner));
    } else {
      StableMeansStrictMajority(a, r, MirrorWinner(s.winner));
      StableMeansStrictMajority(b, s, s.winner);
      assert MirrorWinner(MirrorWinner(s.winner)) == s.winner;
      assert Votes(b, s.winner) == Votes(a, MirrorWinner(s.winner));
    }
  }

  lemma {:induction false} MirroredStrength(outputs: seq<Output>)
    ensures SumBy(MirrorAll(outputs), StableStrength) == -SumBy(outputs, StableStrength)
    ensures CountIf(MirrorAll(outputs), (o: Output) => o.stable) == CountIf(outputs, (o: Output) => o.stable)
  {
    if outputs != [] {
      var n := |outputs| - 1;
      MirroredStrength(outputs[..n]);
      assert MirrorAll(outputs)[..n] == MirrorAll(outputs[..n]);
      MirrorFacts(outputs[n]);
    }
  }

  /** Exchanging A and B in every output exchanges them in the aggregate: winner, preference and all, with the same
      strength, stability and vote count. */
  lemma MirrorCommutesWithAggregation(outputs: seq<Output>, r: Output, s: Output)
    requires Aggregates(outputs, r) && Aggregates(MirrorAll(outputs), s)
    requires forall i | 0 <= i < |outputs| :: outputs[i].winner in ["A", "B", "tie"]
    ensures s.winner == MirrorWinner(r.winner) && s.preference == MirrorPreference(r.preference)
    ensures s.strength == r.strength && s.stable == r.stable && s.voteCount == r.voteCount
  {
    hide Votes, Stable, SumBy, CountIf, Aggregates, AverageStrength;
    var mirrored := MirrorAll(outputs);
    MirroredAggregate(outputs, mirrored, r, s);
    MirroredStrength(outputs);
    StableSums(outputs);
    StableSums(mirrored);
    SameCount(outputs, r, s);
    VerdictFields(outputs, r);
    VerdictFields(mirrored, s);
    if r.stable {
      WinnerWasVoted(outputs, r);
      NegatedAverage(outputs, mirrored);
    }
  }

  lemma VerdictFields(outputs: seq<Output>, r: Output)
    requires Aggregates(outputs, r)
    ensures !r.stable ==> r.preference == "unstable" && r.strength == 0.0
    ensures r.stable ==> r.strength == Abs(AverageStrength(Stable(outputs))) && r.preference == PreferenceFor(r.winner, r.strength)
  {
    hide Votes, Stable, AverageStrength, TextLe;
    var w :| IsPlurality(outputs, w, r.voteCount) && r == AggregateWith(outputs, w, r.voteCount);
  }

  lemma NegatedAverage(a: seq<Output>, b: seq<Output>)
    requires SumBy(Stable(b), Strength) == -SumBy(Stable(a), Strength) && |Stable(a)| == |Stable(b)|
    ensures Abs(AverageStrength(Stable(b))) == Abs(AverageStrength(Stable(a)))
  {
    hide SumBy, Stable;
    if |Stable(a)| > 0 {
      NegatedQuotient(SumBy(Stable(a), Strength), |Stable(a)| as real);
    }
  }

  lemma NegatedQuotient(x: real, n: real)
    requires n > 0.0
    ensures (-x) / n == -(x / n)
  {
    QuotientTimes(x, n);
    QuotientIs(-(x / n), -x, n);
  }

  lemma SameCount(outputs: seq<Output>, r: Output, s: Output)
    requires Aggregates(outputs, r) && Aggregates(MirrorAll(outputs), s)
    ensures r.voteCount == s.voteCount
  {
    var mirrored := MirrorAll(outputs);
    var w :| IsPlurality(outputs, w, r.voteCount) && r == AggregateWith(outputs, w, r.voteCount);
    var v :| IsPlurality(mirrored, v, s.voteCount) && s == AggregateWith(mirrored, v, s.voteCount);
    MirroredVotes(outputs, mirrored, w);
    MirroredVotes(outputs, mirrored, MirrorWinner(v));
    assert MirrorWinner(MirrorWinner(v)) == v;
    assert Votes(mirrored, MirrorWinner(w)) <= s.voteCount && Votes(outputs, MirrorWinner(v)) <= r.voteCount;
  }

  lemma WinnerWasVoted(outputs: seq<Output>, r: Output)
    requires Aggregates(outputs, r) && r.stable
    ensures exists i :: 0 <= i < |outputs| && outputs[i].winner == r.winner
  {
    StableMeansStrictMajority(outputs, r, r.winner);
    if forall i | 0 <= i < |outputs| :: outputs[i].winner != r.winner {
      CountIfAll(outputs, VotesFor(r.winner), false);
    }
  }

  // ---------- one comparison and whole runs of comparisons ----------

  /** A deterministic judge; model `m` is asked to compare a first with a second answer. */
  type Judge<!Answer> = (nat, Answer, Answer) -> Output

  function ComparePair<Answer>(judge: Judge<Answer>, m: nat, swap: bool, a: Answer, b: Answer): Output {
    var first := judge(m, a, b);
    if !swap then first.(stable := true, voteCount := 1)
    else
      var swapped := Mirror(judge(m, b, a));
      var stable := Agrees(first, swapped);
      var settled := first.(stable := stable, preference := if stable then first.preference else "unstable",
                            reasons := if stable then first.reasons else first.reasons + [UNSTABLE_SWAP]);
      settled.(strength := AverageStrength([settled, swapped]), voteCount := 1,
               tokens := AddTokens(first.tokens, swapped.tokens))
  }

  /** With order swaps, comparing (B, A) is as stable as comparing (A, B), and a stable winner is mirrored. */
  lemma ComparePairSymmetric<Answer>(judge: Judge<Answer>, m: nat, a: Answer, b: Answer)
    ensures var ab, ba := ComparePair(judge, m, true, a, b), ComparePair(judge, m, true, b, a);
            ab.stable == ba.stable && (ab.stable ==> ba.winner == MirrorWinner(ab.winner))
  {
  }

  /** With order swaps a comparison is stable if and only if both orders see a tie, or both see the same answer ahead
      and say how much. It reports the first winner, and half the difference of the two strengths, where an unstable
      first verdict counts for its winner only. */
  lemma ComparePairStableExactlyWhen<Answer>(judge: Judge<Answer>, m: nat, a: Answer, b: Answer)
    ensures var first, second, r := judge(m, a, b), judge(m, b, a), ComparePair(judge, m, true, a, b);
            && (r.stable <==>
                 || (first.winner == "tie" && second.winner == "tie")
                 || (first.preference != "" && second.preference != "" &&
                     ((first.winner == "A" && second.winner == "B") || (first.winner == "B" && second.winner == "A") ||
                      (first.winner == second.winner && first.winner != "A" && first.winner != "B"))))
            && r.winner == first.winner && r.voteCount == 1
            && r.preference == (if r.stable then first.preference else "unstable")
            && r.strength == ((if r.stable then Strength(first) else WinnerStrength(first.winner)) - Strength(second)) / 2.0
            && r.tokens == Tokens(first.tokens.prompt + second.tokens.prompt, first.tokens.completion + second.tokens.completion,
                                  first.tokens.total + second.tokens.total)
            && r.reasons == first.reasons + if r.stable then [] else [UNSTABLE_SWAP]
    ensures ComparePair(judge, m, false, a, b) == judge(m, a, b).(stable := true, voteCount := 1)
  {
    var first, second := judge(m, a, b), judge(m, b, a);
    var both := [ComparePair(judge, m, true, a, b), Mirror(second)];
    MirrorFacts(second);
    var stable := Agrees(first, Mirror(second));
    var settled := first.(stable := stable, preference := if stable then first.preference else "unstable",
                          reasons := if stable then first.reasons else first.reasons + [UNSTABLE_SWAP]);
    TwoStrengths(settled, Mirror(second));
    assert first.reasons + [] == first.reasons;
  }

  function WinnerStrength(w: string): real { if w == "A" then 0.5 else if w == "B" then -0.5 else 0.0 }

  lemma TwoStrengths(x: Output, y: Output)
    ensures AverageStrength([x, y]) == (Strength(x) + Strength(y)) / 2.0
  {
    var one, two := [x], [x, y];
    assert two[..1] == one && one[..0] == [];
    assert SumBy(one, Strength) == Strength(x);
    assert SumBy(two, Strength) == SumBy(one, Strength) + Strength(y);
  }

  /** Every model in turn, each repeated. */
  function AllComparisons<Answer>(judge: Judge<Answer>, models: nat, repeats: nat, swap: bool, a: Answer, b: Answer): seq<Output>
    requires repeats > 0
  {
    seq(models * repeats, i requires 0 <= i < models * repeats => ComparePair(judge, i / repeats, swap, a, b))
  }

  /** Every model compares once for each repeat, one model after the other. */
  lemma EveryModelRepeats<Answer>(judge: Judge<Answer>, models: nat, repeats: nat, swap: bool, a: Answer, b: Answer,
                                  m: nat, j: nat)
    requires m < models && j < repeats
    ensures |AllComparisons(judge, models, repeats, swap, a, b)| == models * repeats > m * repeats + j
    ensures AllComparisons(judge, models, repeats, swap, a, b)[m * repeats + j] == ComparePair(judge, m, swap, a, b)
  {
    hide ComparePair;
    IntMono(m + 1, models, repeats);
    IntDistribute(repeats, m, 1);
    QuotientOf(m, j, repeats);
  }

  lemma QuotientOf(m: nat, j: nat, repeats: nat)
    requires j < repeats
    ensures (m * repeats + j) / repeats == m
  {
    var q := (m * repeats + j) / repeats;
    var r := (m * repeats + j) % repeats;
    assert m * repeats + j == q * repeats + r;
    if q < m { IntMono(q + 1, m, repeats); }
    if q > m { IntMono(m + 1, q, repeats); }
  }

  const NO_OUTPUT := Output("", "", 0.0, false, 0, [], Tokens(0, 0, 0), 0.0)

  /** What `Compare` returns: nothing for nothing, the only output, or the aggregate. */
  ghost predicate IsVerdict(outputs: seq<Output>, r: Output) {
    if outputs == [] then r == NO_OUTPUT
    else if |outputs| == 1 then r == outputs[0]
    else Aggregates(outputs, r)
  }

  /** The whole comparison, over any ensemble and any number of repeats, is symmetric in the two answers. */
  lemma CompareSymmetric<Answer>(judge: Judge<Answer>, models: nat, repeats: nat, a: Answer, b: Answer, ab: Output, ba: Output)
    requires models > 0 && repeats > 0
    requires IsVerdict(AllComparisons(judge, models, repeats, true, a, b), ab)
    requires IsVerdict(AllComparisons(judge, models, repeats, true, b, a), ba)
    ensures ab.stable == ba.stable
    ensures ab.stable ==> ba.winner == MirrorWinner(ab.winner)
  {
    hide AllComparisons, Aggregates;
    var x, y := AllComparisons(judge, models, repeats, true, a, b), AllComparisons(judge, models, repeats, true, b, a);
    ComparisonsMirror(judge, models, repeats, a, b);
    if |x| > 1 {
      MirroredAggregate(x, y, ab, ba);
    }
  }

  lemma ComparisonsMirror<Answer>(judge: Judge<Answer>, models: nat, repeats: nat, a: Answer, b: Answer)
    requires repeats > 0
    ensures MirroredVerdicts(AllComparisons(judge, models, repeats, true, a, b), AllComparisons(judge, models, repeats, true, b, a))
  {
    hide ComparePair;
    var x, y := AllComparisons(judge, models, repeats, true, a, b), AllComparisons(judge, models, repeats, true, b, a);
    forall i | 0 <= i < |x|
      ensures y[i].stable == x[i].stable && (x[i].stable ==> y[i].winner == MirrorWinner(x[i].winner))
    {
      ComparePairSymmetric(judge, i / repeats, a, b);
    }
  }

  // ---------- usage accounting ----------

  function Prompt(o: Output): real { o.tokens.prompt as real }

  function Completion(o: Output): real { o.tokens.completion as real }

  function Total(o: Output): real { o.tokens.total as real }

  function Cost(o: Output): real { o.cost }

  lemma {:induction false} TokensAreSums(outputs: seq<Output>)
    ensures TotalTokens(outputs).prompt as real == SumBy(outputs, Prompt)
    ensures TotalTokens(outputs).completion as real == SumBy(outputs, Completion)
    ensures TotalTokens(outputs).total as real == SumBy(outputs, Total)
  {
    if outputs != [] { TokensAreSums(outputs[..|outputs| - 1]); }
  }

  lemma CostIsSum(outputs: seq<Output>)
    ensures TotalCost(outputs) == SumBy(outputs, Cost)
  {
    SumByPointwise(outputs, (o: Output) => o.cost, Cost);
  }

  lemma {:induction false} SumByPointwise(outputs: seq<Output>, f: Output -> real, g: Output -> real)
    requires forall o :: f(o) == g(o)
    ensures SumBy(outputs, f) == SumBy(outputs, g)
  {
    if outputs != [] { SumByPointwise(outputs[..|outputs| - 1], f, g); }
  }

  /** Aggregation adds up tokens correctly. Reasons are each output's once, with the finding about a missing majority,
      if and only if the first output gave none; the cost is the true total if and only if the first one was free. */
lemma UsageOfAggregate(outputs: seq<Output>, r: Output)
    requires Aggregates(outputs, r)
    ensures r.tokens.prompt as real == SumBy(outputs, Prompt)
    ensures r.tokens.completion as real == SumBy(outputs, Completion)
    ensures r.tokens.total as real == SumBy(outputs, Total)
    ensures r.reasons == AllReasons(outputs) + (if r.stable then [] else [NO_MAJORITY]) <==> outputs[0].reasons == []
    ensures r.cost == outputs[0].cost + SumBy(outputs, Cost)
    ensures r.cost == SumBy(outputs, Cost) <==> outputs[0].cost == 0.0
  {
    hide TotalTokens, TotalCost, AllReasons;
    var w :| IsPlurality(outputs, w, r.voteCount) && r == AggregateWith(outputs, w, r.voteCount);
    TokensAreSums(outputs);
    CostIsSum(outputs);
    var tail := if r.stable then [] else [NO_MAJORITY];
    assert r.reasons == outputs[0].reasons + AllReasons(outputs) + tail;
    assert |r.reasons| == |outputs[0].reasons| + |AllReasons(outputs) + tail|;
  }

  /** Two judges who agree and give one reason each: the first reason is reported twice. */
  lemma FirstReasonsAreRepeated(r: Output)
    requires var free := Tokens(0, 0, 0);
             Aggregates([Output("A", "A_better", 0.5, true, 1, ["cites sources"], free, 0.0),
                         Output("A", "A_better", 0.5, true, 1, ["complete"], free, 0.0)], r)
    ensures r.stable && r.reasons == ["cites sources", "cites sources", "complete"]
  {
    var free := Tokens(0, 0, 0);
    var one, two := Output("A", "A_better", 0.5, true, 1, ["cites sources"], free, 0.0),
                    Output("A", "A_better", 0.5, true, 1, ["complete"], free, 0.0);
    var outputs := [one, two];
    assert outputs[..1] == [one] && [one][..0] == [];
    assert AllReasons([one]) == ["cites sources"];
    assert AllReasons(outputs) == ["cites sources", "complete"];
    CountIfAll(outputs, VotesFor("A"), true);
    StableMeansStrictMajority(outputs, r, "A");
    var w :| IsPlurality(outputs, w, r.voteCount) && r == AggregateWith(outputs, w, r.voteCount);
  }

  // ---------- the program ----------

  ghost predicate Tallies(votes: map<string, nat>, outputs: seq<Output>) {
    && (forall w :: Get(votes, w) == Votes(outputs, w))
    && forall w | w in votes :: votes[w] > 0
  }

  /** The vote map is visited in an arbitrary order. */
  method MajorityWinner(votes: map<string, nat>, ghost outputs: seq<Output>) returns (winner: string, count: nat)
    requires Tallies(votes, outputs)
    ensures IsPlurality(outputs, winner, count)
  {
    winner, count := "", 0;
    var todo := votes.Keys;
    while todo != {}
      invariant todo <= votes.Keys
      invariant count == 0 ==> winner == "" && todo == votes.Keys
      invariant count > 0 ==> winner in votes && votes[winner] == count
      invariant forall v | v in votes && v !in todo :: votes[v] <= count && (votes[v] == count ==> TextLe(winner, v))
      decreases |todo|
    {
      var w :| w in todo;
      TextTotal(w, winner);
      if votes[w] > count || (votes[w] == count && TextLe(w, winner) && w != winner) {
        forall v | v in votes && v !in todo && votes[v] == votes[w] ensures TextLe(w, v) {
          TextTransitive(w, winner, v);
        }
        winner, count := w, votes[w];
      }
      TextTotal(winner, winner);
      todo := todo - {w};
    }
    forall v ensures Votes(outputs, v) <= count && (Votes(outputs, v) == count > 0 ==> TextLe(winner, v)) {
      assert Votes(outputs, v) == Get(votes, v);
    }
    assert Votes(outputs, winner) == Get(votes, winner);
  }

  lemma NoVotes()
    ensures Tallies(map[], [])
  {
  }

  lemma VoteStep(votes: map<string, nat>, outputs: seq<Output>, i: nat)
    requires i < |outputs| && Tallies(votes, outputs[..i])
    ensures var w := outputs[i].winner;
            Tallies(if outputs[i].stable then votes[w := Get(votes, w) + 1] else votes, outputs[..i + 1])
  {
    var before, after := outputs[..i], outputs[..i + 1];
    assert after[..i] == before && after[i] == outputs[i];
    forall v ensures Votes(after, v) == Votes(before, v) + if outputs[i].stable && outputs[i].winner == v then 1 else 0 {
      assert Votes(after, v) == Votes(after[..i], v) + if after[i].stable && after[i].winner == v then 1 else 0;
    }
    assert forall v :: Get(votes, v) == Votes(before, v);
  }

  /** The accumulation loop; cost and reasons start from the first output's own. */
  method TallyOutputs(outputs: seq<Output>)
    returns (votes: map<string, nat>, stable: seq<Output>, tokens: Tokens, cost: real, reasons: seq<string>)
    requires outputs != []
    ensures Tallies(votes, outputs) && stable == Stable(outputs) && tokens == TotalTokens(outputs)
    ensures cost == outputs[0].cost + TotalCost(outputs) && reasons == outputs[0].reasons + AllReasons(outputs)
  {
    hide Tallies;
    assert Tallies(map[], outputs[..0]) by { NoVotes(); }
    votes, stable := map[], [];
    tokens, cost, reasons := Tokens(0, 0, 0), outputs[0].cost, outputs[0].reasons;
    for i := 0 to |outputs|
      invariant Tallies(votes, outputs[..i]) && stable == Stable(outputs[..i])
      invariant tokens == TotalTokens(outputs[..i])
      invariant cost == outputs[0].cost + TotalCost(outputs[..i])
      invariant reasons == outputs[0].reasons + AllReasons(outputs[..i])
    {
      var output := outputs[i];
      VoteStep(votes, outputs, i);
      assert outputs[..i + 1][..i] == outputs[..i];
      tokens := AddTokens(tokens, output.tokens);
      cost := cost + output.cost;
      reasons := reasons + output.reasons;
      if output.stable {
        votes := votes[output.winner := Get(votes, output.winner) + 1];
        stable := stable + [output];
      }
    }
    assert outputs[..|outputs|] == outputs;
  }

  method AggregatePairwiseOutputs(outputs: seq<Output>) returns (r: Output)
    ensures IsVerdict(outputs, r)
  {
    hide TotalTokens, TotalCost, AllReasons, Stable, IsPlurality, Tallies, AverageStrength;
    if outputs == [] {
      return NO_OUTPUT;
    }
    if |outputs| == 1 {
      return outputs[0];
    }
    var votes, stable, tokens, cost, reasons := TallyOutputs(outputs);
    var winner, count := MajorityWinner(votes, outputs);
    r := outputs[0].(tokens := tokens, cost := cost, reasons := reasons, voteCount := count);
    if count == 0 || count * 2 <= |outputs| {
      r := r.(winner := "tie", preference := "unstable", strength := 0.0, stable := false, reasons := r.reasons + [NO_MAJORITY]);
    } else {
      var strength := Abs(AverageStrength(stable));
      r := r.(winner := winner, stable := true, strength := strength, preference := PreferenceFor(winner, strength));
    }
    assert r == AggregateWith(outputs, winner, r.voteCount);
  }

  // ---------- the call budget ----------

  datatype Reply = Answered(text: string) | Failed(retriable: bool)

  datatype ChatOutcome = Response(text: string) | BudgetStopped | ChatFailed | CircuitOpen | Interrupted

  class JudgeCallLimiter {
    const max: int
    var used: nat

    constructor (max: int)
      ensures this.max == max && used == 0 && Valid()
    {
      this.max, used := max, 0;
    }

    ghost predicate Valid()
      reads this
    {
      max > 0 ==> used <= max
    }

    /** False when the budget is exhausted; a limit of zero or less means no limit. */
    method Take() returns (ok: bool)
      requires Valid()
      modifies this
      ensures Valid()
      ensures ok <==> max <= 0 || old(used) < max
      ensures used == old(used) + if ok && max > 0 then 1 else 0
    {
      if max <= 0 {
        return true;
      }
      if used >= max {
        return false;
      }
      used := used + 1;
      return true;
    }
  }

  /** One judged prompt. `chat(k)` answers attempt `k` and `wakes(k)` says whether the pause after it ended normally.
      Every attempt is paid for; only retriable failures are repeated, within the retry and circuit limits. */
  method CallChat(limiter: JudgeCallLimiter, maxRetries: int, circuitFailures: int, chat: nat -> Reply, wakes: nat -> bool)
    returns (r: ChatOutcome, attempts: nat)
    requires limiter.Valid()
    modifies limiter
    ensures limiter.Valid()
    ensures limiter.max > 0 ==> limiter.used == old(limiter.used) + attempts
    ensures attempts <= (if maxRetries < 0 then 0 else maxRetries) + 1
    ensures circuitFailures > 0 ==> attempts <= circuitFailures
    ensures forall k | 0 <= k < attempts - 1 :: chat(k) == Failed(true) && wakes(k)
    ensures r.Response? <==> attempts > 0 && chat(attempts - 1).Answered?
    ensures r.Response? ==> r.text == chat(attempts - 1).text
    ensures r.BudgetStopped? ==>
              && limiter.max > 0 && limiter.used == limiter.max && attempts <= (if maxRetries < 0 then 0 else maxRetries)
              && (circuitFailures > 0 ==> attempts < circuitFailures)
              && (attempts > 0 ==> chat(attempts - 1) == Failed(true) && wakes(attempts - 1))
    ensures !r.BudgetStopped? ==> attempts > 0
    ensures attempts > 0 && !r.BudgetStopped? && !r.Response? ==>
              var last, exhausted := chat(attempts - 1), attempts == (if maxRetries < 0 then 0 else maxRetries) + 1;
              && (r.ChatFailed? <==> last == Failed(false) || exhausted)
              && (r.CircuitOpen? <==> last == Failed(true) && !exhausted && attempts == circuitFailures)
              && (r.Interrupted? ==> last == Failed(true) && !exhausted && attempts != circuitFailures && !wakes(attempts - 1))
  {
    var retries := if maxRetries < 0 then 0 else maxRetries;
    attempts := 0;
    while attempts <= retries
      invariant limiter.Valid() && attempts <= retries
      invariant limiter.max > 0 ==> limiter.used == old(limiter.used) + attempts
      invariant circuitFailures > 0 ==> attempts < circuitFailures
      invariant forall k | 0 <= k < attempts :: chat(k) == Failed(true) && wakes(k)
      decreases retries - attempts
    {
      var ok := limiter.Take();
      if !ok {
        return BudgetStopped, attempts;
      }
      var attempt := attempts;
      attempts := attempts + 1;
      var reply := chat(attempt);
      if reply.Answered? {
        return Response(reply.text), attempts;
      }
      if !reply.retriable || attempt == retries {
        return ChatFailed, attempts;
      }
      if circuitFailures > 0 && attempts >= circuitFailures {
        return CircuitOpen, attempts;
      }
      if !wakes(attempt) {
        return Interrupted, attempts;
      }
    }
    assert false;
  }
}
