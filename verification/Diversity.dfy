/** Aspect coverage and alpha-nDCG, with the greedy ideal ranking they are measured against. */
module Diversity {
  import opened Wrappers
  import opened Arith
  import opened Collections
  import opened Discounts

  type Labels = set<string>

  // ---------- gains ----------

  /** How many of the results ranked so far carry the label. */
  function SeenCount(history: seq<Labels>, l: string): nat {
    if history == [] then 0
    else SeenCount(history[..|history| - 1], l) + if l in history[|history| - 1] then 1 else 0
  }

  /** Sum over `labels` of beta^(times seen). */
  ghost function Gain(labels: Labels, history: seq<Labels>, beta: real): real {
    if labels == {} then 0.0
    else
      var l :| l in labels;
      Pow(beta, SeenCount(history, l)) + Gain(labels - {l}, history, beta)
  }

  /** The sum does not depend on the order in which the set is visited. */
  lemma {:induction false} GainRemove(labels: Labels, l: string, history: seq<Labels>, beta: real)
    requires l in labels
    ensures Gain(labels, history, beta) == Pow(beta, SeenCount(history, l)) + Gain(labels - {l}, history, beta)
    decreases |labels|
  {
    var m :| m in labels && Gain(labels, history, beta) == Pow(beta, SeenCount(history, m)) + Gain(labels - {m}, history, beta);
    if m != l {
      GainRemove(labels - {m}, l, history, beta);
      GainRemove(labels - {l}, m, history, beta);
      assert labels - {m} - {l} == labels - {l} - {m};
    }
  }

  lemma {:induction false} SeenCountGrows(history: seq<Labels>, k: nat, l: string)
    requires k <= |history|
    ensures SeenCount(history[..k], l) <= SeenCount(history, l)
  {
    if k < |history| {
      var front := history[..|history| - 1];
      SeenCountGrows(front, k, l);
      assert front[..k] == history[..k];
    } else {
      assert history[..k] == history;
    }
  }

  /** Diminishing returns: the longer the history, the smaller the gain. */
  lemma {:induction false} GainDiminishes(labels: Labels, history: seq<Labels>, k: nat, beta: real)
    requires 0.0 < beta < 1.0 && k <= |history|
    ensures Gain(labels, history, beta) <= Gain(labels, history[..k], beta)
    decreases |labels|
  {
    if labels != {} {
      var l :| l in labels;
      GainDiminishes(labels - {l}, history, k, beta);
      GainRemove(labels, l, history, beta);
      GainRemove(labels, l, history[..k], beta);
      SeenCountGrows(history, k, l);
      PowDecreases(beta, SeenCount(history[..k], l), SeenCount(history, l));
    }
  }

  lemma {:induction false} GainSign(labels: Labels, history: seq<Labels>, beta: real)
    requires 0.0 < beta < 1.0
    ensures Gain(labels, history, beta) >= 0.0
    ensures Gain(labels, history, beta) > 0.0 <==> labels != {}
    decreases |labels|
  {
    if labels != {} {
      var l :| l in labels;
      GainSign(labels - {l}, history, beta);
      GainRemove(labels, l, history, beta);
      PowDecreases(beta, 0, SeenCount(history, l));
    }
  }

  /** Discounted gain of a ranking; rank `r` is counted from 1. */
  ghost function AlphaDCG(ranked: seq<Labels>, beta: real, d: nat -> real): real {
    if ranked == [] then 0.0
    else
      var front := ranked[..|ranked| - 1];
      AlphaDCG(front, beta, d) + Gain(ranked[|ranked| - 1], front, beta) * d(|ranked|)
  }

  lemma {:induction false} AlphaDCGSign(ranked: seq<Labels>, beta: real, d: nat -> real)
    requires 0.0 < beta < 1.0 && IsDiscount(d)
    ensures AlphaDCG(ranked, beta, d) >= 0.0
  {
    if ranked != [] {
      var front := ranked[..|ranked| - 1];
      AlphaDCGSign(front, beta, d);
      var g := Gain(ranked[|ranked| - 1], front, beta);
      GainSign(ranked[|ranked| - 1], front, beta);
      NonNegative(g, d(|ranked|), g * d(|ranked|));
    }
  }

  // ---------- the greedy ideal ----------

  function At(candidates: seq<Labels>, i: nat): Labels { if i < |candidates| then candidates[i] else {} }

  /** The candidates at `picks`, in that order. */
  function Chosen(candidates: seq<Labels>, picks: seq<nat>): seq<Labels> {
    seq(|picks|, r requires 0 <= r < |picks| => At(candidates, picks[r]))
  }

  /** What candidate `i` would gain after the first `r` picks. */
  ghost function PickGain(candidates: seq<Labels>, picks: seq<nat>, r: nat, i: nat, beta: real): real
    requires r <= |picks|
  {
    Gain(At(candidates, i), Chosen(candidates, picks[..r]), beta)
  }

  ghost predicate Fresh(picks: seq<nat>, r: nat, i: nat)
    requires r <= |picks|
  {
    i !in picks[..r]
  }

  /** `picks` is what the greedy loop chooses: each pick is unused, gains something, beats every unused candidate
      before it in the list and is beaten by none; the loop ends early only when nothing unused gains. */
  ghost predicate IsGreedy(candidates: seq<Labels>, picks: seq<nat>, k: nat, beta: real) {
    && |picks| <= k
    && (forall r | 0 <= r < |picks| :: picks[r] < |candidates|)
    && (forall r | 0 <= r < |picks| :: Fresh(picks, r, picks[r]) && PickGain(candidates, picks, r, picks[r], beta) > 0.0)
    && (forall r, i | 0 <= r < |picks| && 0 <= i < |candidates| && Fresh(picks, r, i) ::
          && PickGain(candidates, picks, r, i, beta) <= PickGain(candidates, picks, r, picks[r], beta)
          && (i < picks[r] ==> PickGain(candidates, picks, r, i, beta) < PickGain(candidates, picks, r, picks[r], beta)))
    && (|picks| < k ==>
          forall i | 0 <= i < |candidates| && Fresh(picks, |picks|, i) :: PickGain(candidates, picks, |picks|, i, beta) <= 0.0)
  }

  /** Gains picked at successive ranks never increase. */
  lemma GainsNeverIncrease(candidates: seq<Labels>, picks: seq<nat>, k: nat, beta: real, r: nat, s: nat)
    requires 0.0 < beta < 1.0 && IsGreedy(candidates, picks, k, beta) && r <= s < |picks|
    ensures PickGain(candidates, picks, s, picks[s], beta) <= PickGain(candidates, picks, r, picks[r], beta)
  {
    var i := picks[s];
    var history := Chosen(candidates, picks[..s]);
    assert Fresh(picks, s, i);
    assert picks[..s][..r] == picks[..r];
    assert Fresh(picks, r, i) by { assert forall x | x in picks[..r] :: x in picks[..s]; }
    assert history[..r] == Chosen(candidates, picks[..r]);
    GainDiminishes(At(candidates, i), history, r, beta);
  }

  /** The greedy ideal stops short of `k` only after every candidate that has labels was used. */
  lemma GreedyUsesEveryLabel(candidates: seq<Labels>, picks: seq<nat>, k: nat, beta: real, i: nat)
    requires 0.0 < beta < 1.0 && IsGreedy(candidates, picks, k, beta) && |picks| < k
    requires i < |candidates| && candidates[i] != {}
    ensures i in picks
  {
    assert picks[..|picks|] == picks;
    GainSign(candidates[i], Chosen(candidates, picks), beta);
    assert Fresh(picks, |picks|, i) ==> PickGain(candidates, picks, |picks|, i, beta) <= 0.0;
  }

  ghost predicate Tracks(seen: map<string, nat>, history: seq<Labels>) {
    forall l :: Get(seen, l) == SeenCount(history, l)
  }

  method AlphaGain(labels: Labels, seen: map<string, nat>, alpha: real, ghost history: seq<Labels>) returns (gain: real)
    requires Tracks(seen, history)
    ensures gain == Gain(labels, history, 1.0 - alpha)
  {
    gain := 0.0;
    var todo := labels;
    while todo != {}
      invariant gain + Gain(todo, history, 1.0 - alpha) == Gain(labels, history, 1.0 - alpha)
      decreases |todo|
    {
      var l :| l in todo;
      GainRemove(todo, l, history, 1.0 - alpha);
      gain := gain + Pow(1.0 - alpha, Get(seen, l));
      todo := todo - {l};
    }
  }

  method CountLabels(labels: Labels, seen: map<string, nat>, ghost history: seq<Labels>) returns (next: map<string, nat>)
    requires Tracks(seen, history)
    ensures Tracks(next, history + [labels])
  {
    next := seen;
    var todo := labels;
    while todo != {}
      invariant todo <= labels
      invariant forall l :: Get(next, l) == SeenCount(history, l) + if l in labels - todo then 1 else 0
      decreases |todo|
    {
      var l :| l in todo;
      next := next[l := Get(next, l) + 1];
      todo := todo - {l};
    }
    assert (history + [labels])[..|history|] == history;
  }

  method ComputeAlphaDCG(ranked: seq<Labels>, alpha: real, d: nat -> real) returns (dcg: real)
    ensures dcg == AlphaDCG(ranked, 1.0 - alpha, d)
  {
    var seen: map<string, nat> := map[];
    dcg := 0.0;
    for i := 0 to |ranked|
      invariant Tracks(seen, ranked[..i])
      invariant dcg == AlphaDCG(ranked[..i], 1.0 - alpha, d)
    {
      var gain := AlphaGain(ranked[i], seen, alpha, ranked[..i]);
      seen := CountLabels(ranked[i], seen, ranked[..i]);
      assert ranked[..i] + [ranked[i]] == ranked[..i + 1];
      assert ranked[..i + 1][..i] == ranked[..i];
      dcg := dcg + gain * d(i + 1);
    }
    assert ranked[..|ranked|] == ranked;
  }

  ghost predicate MarksPicks(used: seq<bool>, picks: seq<nat>) {
    forall i: nat | i < |used| :: used[i] <==> i in picks
  }

  /** The first of the unused candidates that gain most, if any gains at all. */
  ghost predicate IsBest(candidates: seq<Labels>, picks: seq<nat>, best: nat, beta: real) {
    var history := Chosen(candidates, picks);
    && best < |candidates| && best !in picks
    && Gain(candidates[best], history, beta) > 0.0
    && forall i | 0 <= i < |candidates| && i !in picks ::
         && Gain(candidates[i], history, beta) <= Gain(candidates[best], history, beta)
         && (i < best ==> Gain(candidates[i], history, beta) < Gain(candidates[best], history, beta))
  }

  ghost predicate NothingGains(candidates: seq<Labels>, picks: seq<nat>, beta: real) {
    forall i | 0 <= i < |candidates| && i !in picks :: Gain(candidates[i], Chosen(candidates, picks), beta) <= 0.0
  }

  method BestUnused(candidates: seq<Labels>, used: seq<bool>, seen: map<string, nat>, alpha: real, ghost picks: seq<nat>)
    returns (best: Option<nat>, bestGain: real)
    requires |used| == |candidates| && MarksPicks(used, picks) && Tracks(seen, Chosen(candidates, picks))
    ensures best == None ==> NothingGains(candidates, picks, 1.0 - alpha)
    ensures best.Some? ==>
              && IsBest(candidates, picks, best.value, 1.0 - alpha)
              && bestGain == Gain(candidates[best.value], Chosen(candidates, picks), 1.0 - alpha)
  {
    ghost var history := Chosen(candidates, picks);
    best, bestGain := None, 0.0;
    for idx := 0 to |candidates|
      invariant best == None ==> bestGain == 0.0
      invariant forall i | 0 <= i < idx && !used[i] :: Gain(candidates[i], history, 1.0 - alpha) <= bestGain
      invariant best.Some? ==>
                  && best.value < idx && !used[best.value]
                  && bestGain == Gain(candidates[best.value], history, 1.0 - alpha) > 0.0
                  && forall i | 0 <= i < best.value && !used[i] :: Gain(candidates[i], history, 1.0 - alpha) < bestGain
    {
      if !used[idx] {
        var gain := AlphaGain(candidates[idx], seen, alpha, history);
        if gain > bestGain {
          best, bestGain := Some(idx), gain;
        }
      }
    }
  }

  /** What holds of the picks while the loop runs: `IsGreedy` without the reason for stopping. */
  ghost predicate GreedySoFar(candidates: seq<Labels>, picks: seq<nat>, beta: real) {
    IsGreedy(candidates, picks, |picks|, beta)
  }

  lemma GreedyExtend(candidates: seq<Labels>, picks: seq<nat>, best: nat, beta: real)
    requires GreedySoFar(candidates, picks, beta) && IsBest(candidates, picks, best, beta)
    ensures GreedySoFar(candidates, picks + [best], beta)
  {
    var next := picks + [best];
    forall r | 0 <= r <= |picks| ensures next[..r] == picks[..r] {}
    assert picks[..|picks|] == picks;
    forall r, i | 0 <= r < |next| && 0 <= i < |candidates| && Fresh(next, r, i)
      ensures PickGain(candidates, next, r, i, beta) <= PickGain(candidates, next, r, next[r], beta)
      ensures i < next[r] ==> PickGain(candidates, next, r, i, beta) < PickGain(candidates, next, r, next[r], beta)
    {
      GreedyExtendAt(candidates, picks, best, beta, r, i);
    }
    forall r | 0 <= r < |next|
      ensures Fresh(next, r, next[r]) && PickGain(candidates, next, r, next[r], beta) > 0.0
    {
      assert next[..r] == picks[..r];
      assert r < |picks| ==> Fresh(picks, r, picks[r]) && PickGain(candidates, picks, r, picks[r], beta) > 0.0;
    }
  }

  lemma GreedyExtendAt(candidates: seq<Labels>, picks: seq<nat>, best: nat, beta: real, r: nat, i: nat)
    requires GreedySoFar(candidates, picks, beta) && IsBest(candidates, picks, best, beta)
    requires r <= |picks| && i < |candidates| && Fresh(picks + [best], r, i)
    ensures var next := picks + [best];
            && PickGain(candidates, next, r, i, beta) <= PickGain(candidates, next, r, next[r], beta)
            && (i < next[r] ==> PickGain(candidates, next, r, i, beta) < PickGain(candidates, next, r, next[r], beta))
  {
    var next := picks + [best];
    assert next[..r] == picks[..r];
    if r < |picks| {
      assert Fresh(picks, r, i);
      assert PickGain(candidates, picks, r, i, beta) <= PickGain(candidates, picks, r, picks[r], beta);
    } else {
      assert picks[..r] == picks;
    }
  }

  /** What one round of the loop adds to the ranking and to its discounted gain. */
  lemma GreedyRound(candidates: seq<Labels>, picks: seq<nat>, best: nat, beta: real, d: nat -> real)
    requires best < |candidates|
    ensures Chosen(candidates, picks + [best]) == Chosen(candidates, picks) + [candidates[best]]
    ensures AlphaDCG(Chosen(candidates, picks + [best]), beta, d) ==
            AlphaDCG(Chosen(candidates, picks), beta, d)
            + Gain(candidates[best], Chosen(candidates, picks), beta) * d(|picks| + 1)
  {
    var next := Chosen(candidates, picks) + [candidates[best]];
    assert Chosen(candidates, picks + [best]) == next;
    assert next[..|picks|] == Chosen(candidates, picks);
  }

  lemma GreedyStops(candidates: seq<Labels>, picks: seq<nat>, k: nat, beta: real)
    requires GreedySoFar(candidates, picks, beta) && |picks| <= k
    requires |picks| < k ==> NothingGains(candidates, picks, beta)
    ensures IsGreedy(candidates, picks, k, beta)
  {
    assert picks[..|picks|] == picks;
  }

  /** The state between two rounds: what was picked, what is marked used, what was seen and what was earned. */
  ghost predicate RoundState(candidates: seq<Labels>, picks: seq<nat>, used: seq<bool>, seen: map<string, nat>,
                             dcg: real, beta: real, d: nat -> real)
  {
    && GreedySoFar(candidates, picks, beta)
    && |used| == |candidates| && MarksPicks(used, picks)
    && Tracks(seen, Chosen(candidates, picks))
    && dcg == AlphaDCG(Chosen(candidates, picks), beta, d)
  }

  lemma RoundKeepsState(candidates: seq<Labels>, picks: seq<nat>, used: seq<bool>, seen: map<string, nat>, dcg: real,
                        beta: real, d: nat -> real, best: nat, nextSeen: map<string, nat>)
    requires RoundState(candidates, picks, used, seen, dcg, beta, d) && IsBest(candidates, picks, best, beta)
    requires Tracks(nextSeen, Chosen(candidates, picks) + [candidates[best]])
    ensures RoundState(candidates, picks + [best], used[best := true], nextSeen,
                       dcg + Gain(candidates[best], Chosen(candidates, picks), beta) * d(|picks| + 1), beta, d)
  {
    GreedyExtend(candidates, picks, best, beta);
    GreedyRound(candidates, picks, best, beta, d);
  }

  /** The fused loop returns exactly the discounted gain of the ranking it chose. */
  method GreedyIdealAlphaDCG(candidates: seq<Labels>, k: nat, alpha: real, d: nat -> real)
    returns (dcg: real, ghost picks: seq<nat>)
    ensures IsGreedy(candidates, picks, k, 1.0 - alpha)
    ensures dcg == AlphaDCG(Chosen(candidates, picks), 1.0 - alpha, d)
  {
    hide IsGreedy, Chosen, AlphaDCG, Gain, GreedySoFar, Tracks, NothingGains;
    dcg, picks := 0.0, [];
    GreedyStart(candidates, 1.0 - alpha, d);
    if k == 0 || candidates == [] {
      GreedyStops(candidates, picks, k, 1.0 - alpha);
      return;
    }
    var used := seq(|candidates|, _ => false);
    var seen: map<string, nat> := map[];
    var rank := 1;
    while rank <= k
      invariant 1 <= rank <= k + 1 && |picks| == rank - 1
      invariant RoundState(candidates, picks, used, seen, dcg, 1.0 - alpha, d)
    {
      var best, bestGain := BestUnused(candidates, used, seen, alpha, picks);
      if best == None {
        GreedyStops(candidates, picks, k, 1.0 - alpha);
        return;
      }
      var nextSeen := CountLabels(candidates[best.value], seen, Chosen(candidates, picks));
      RoundKeepsState(candidates, picks, used, seen, dcg, 1.0 - alpha, d, best.value, nextSeen);
      used, seen := used[best.value := true], nextSeen;
      picks := picks + [best.value];
      dcg := dcg + bestGain * d(rank);
      rank := rank + 1;
    }
    GreedyStops(candidates, picks, k, 1.0 - alpha);
  }

  lemma GreedyStart(candidates: seq<Labels>, beta: real, d: nat -> real)
    ensures GreedySoFar(candidates, [], beta)
    ensures Chosen(candidates, []) == [] && AlphaDCG([], beta, d) == 0.0
    ensures Tracks(map[], [])
  {
  }

  // ---------- the score ----------

  datatype Annotation = Annotation(aspect: string, subquestion: string, chunkID: string, chunkIDs: seq<string>,
                                   documentID: string, documentIDs: seq<string>, sourceURI: string, sourceURIs: seq<string>)

  datatype SearchResult = SearchResult(chunkID: string, documentID: string, sourceURI: string)

  datatype Score = Score(alphaNDCG: real, aspectCoverage: real)

  function LabelOf(a: Annotation): string { if a.aspect == "" then a.subquestion else a.aspect }

  function Prefixed(prefix: string, ids: seq<string>): seq<string> {
    if ids == [] then []
    else Prefixed(prefix, ids[..|ids| - 1]) + if ids[|ids| - 1] == "" then [] else [prefix + ids[|ids| - 1]]
  }

  function Refs(a: Annotation): seq<string> {
    Prefixed("chunk:", [a.chunkID] + a.chunkIDs) + Prefixed("doc:", [a.documentID] + a.documentIDs)
    + Prefixed("source:", [a.sourceURI] + a.sourceURIs)
  }

  /** Some annotation gives `ref` the label. */
  ghost predicate Carries(annotations: seq<Annotation>, ref: string, l: string) {
    exists i | 0 <= i < |annotations| :: LabelOf(annotations[i]) == l && l != "" && ref in Refs(annotations[i])
  }

  predicate Has(byRef: map<string, Labels>, ref: string, l: string) { ref in byRef && l in byRef[ref] }

  ghost predicate Grouped(annotations: seq<Annotation>, byRef: map<string, Labels>, all: Labels) {
    && (forall ref, l :: Has(byRef, ref, l) <==> Carries(annotations, ref, l))
    && forall l :: l in all <==> Labeled(annotations, l)
  }

  ghost predicate Labeled(annotations: seq<Annotation>, l: string) {
    exists ref :: Carries(annotations, ref, l)
  }

  lemma CarriesExtend(annotations: seq<Annotation>, i: nat)
    requires i < |annotations|
    ensures forall ref, l :: Carries(annotations[..i + 1], ref, l) <==>
              Carries(annotations[..i], ref, l) || (LabelOf(annotations[i]) == l && l != "" && ref in Refs(annotations[i]))
  {
    var a, b := annotations[..i], annotations[..i + 1];
    assert b == a + [annotations[i]];
    forall ref, l
      ensures Carries(b, ref, l) <==> Carries(a, ref, l) || (LabelOf(annotations[i]) == l && l != "" && ref in Refs(annotations[i]))
    {
      if Carries(a, ref, l) {
        var j :| 0 <= j < |a| && LabelOf(a[j]) == l && l != "" && ref in Refs(a[j]);
        assert b[j] == a[j];
      }
      if LabelOf(annotations[i]) == l && l != "" && ref in Refs(annotations[i]) {
        assert b[i] == annotations[i];
      }
    }
  }

  method AddRefs(byRef: map<string, Labels>, refs: seq<string>, l: string) returns (next: map<string, Labels>)
    ensures forall ref, m :: Has(next, ref, m) <==> Has(byRef, ref, m) || (m == l && ref in refs)
  {
    next := byRef;
    for i := 0 to |refs|
      invariant forall ref, m :: Has(next, ref, m) <==> Has(byRef, ref, m) || (m == l && ref in refs[..i])
    {
      ghost var before := next;
      var ref := refs[i];
      next := next[ref := (if ref in next then next[ref] else {}) + {l}];
      assert refs[..i + 1] == refs[..i] + [ref];
      forall r, m ensures Has(next, r, m) <==> Has(before, r, m) || (m == l && r == ref) {}
    }
    assert refs[..|refs|] == refs;
  }

  method DiversityLabelsByRef(annotations: seq<Annotation>) returns (byRef: map<string, Labels>, all: Labels)
    ensures Grouped(annotations, byRef, all)
  {
    byRef, all := map[], {};
    for i := 0 to |annotations|
      invariant Grouped(annotations[..i], byRef, all)
    {
      CarriesExtend(annotations, i);
      var l, refs := LabelOf(annotations[i]), Refs(annotations[i]);
      ghost var before := all;
      if l != "" && refs != [] {
        assert Carries(annotations[..i + 1], refs[0], l);
        all := all + {l};
        byRef := AddRefs(byRef, refs, l);
      }
      forall m ensures m in all <==> Labeled(annotations[..i + 1], m) {
        if Labeled(annotations[..i], m) {
          var ref :| Carries(annotations[..i], ref, m);
          assert Carries(annotations[..i + 1], ref, m);
        }
        if Labeled(annotations[..i + 1], m) {
          var ref :| Carries(annotations[..i + 1], ref, m);
          assert Carries(annotations[..i], ref, m) || m == l;
        }
      }
    }
    assert annotations[..|annotations|] == annotations;
  }

  function ResultRefs(r: SearchResult): set<string> {
    {"chunk:" + r.chunkID, "doc:" + r.documentID, "source:" + r.sourceURI}
  }

  function LabelsFor(r: SearchResult, byRef: map<string, Labels>): Labels {
    set ref, l | ref in ResultRefs(r) && ref in byRef && l in byRef[ref] :: l
  }

  function Covered(results: seq<SearchResult>, byRef: map<string, Labels>): Labels {
    if results == [] then {} else Covered(results[..|results| - 1], byRef) + LabelsFor(results[|results| - 1], byRef)
  }

  lemma {:induction false} CoveredIsAnnotated(annotations: seq<Annotation>, byRef: map<string, Labels>, all: Labels, results: seq<SearchResult>)
    requires Grouped(annotations, byRef, all)
    ensures Covered(results, byRef) <= all
  {
    if results != [] {
      CoveredIsAnnotated(annotations, byRef, all, results[..|results| - 1]);
      forall l | l in LabelsFor(results[|results| - 1], byRef) ensures l in all {
        var ref :| ref in byRef && l in byRef[ref];
        assert Has(byRef, ref, l);
        assert Carries(annotations, ref, l);
      }
    }
  }

  // ---------- which labels a result carries ----------

  lemma {:induction false} PrefixedMembers(prefix: string, ids: seq<string>, id: string)
    ensures prefix + id in Prefixed(prefix, ids) <==> id != "" && id in ids
  {
    if ids != [] {
      var front, last := ids[..|ids| - 1], ids[|ids| - 1];
      PrefixedMembers(prefix, front, id);
      assert ids == front + [last];
      assert (prefix + id)[|prefix|..] == id && (prefix + last)[|prefix|..] == last;
    }
  }

  lemma {:induction false} PrefixedStart(prefix: string, ids: seq<string>, c: char)
    requires prefix != "" && prefix[0] != c
    ensures forall ref | ref in Prefixed(prefix, ids) :: ref != "" && ref[0] != c
  {
    if ids != [] { PrefixedStart(prefix, ids[..|ids| - 1], c); }
  }

  /** References of different kinds never meet, and blank ones name nothing. */
  lemma RefsOf(a: Annotation, id: string)
    ensures "chunk:" + id in Refs(a) <==> id != "" && (id == a.chunkID || id in a.chunkIDs)
    ensures "doc:" + id in Refs(a) <==> id != "" && (id == a.documentID || id in a.documentIDs)
    ensures "source:" + id in Refs(a) <==> id != "" && (id == a.sourceURI || id in a.sourceURIs)
  {
    hide Prefixed;
    var chunks, documents, sources := [a.chunkID] + a.chunkIDs, [a.documentID] + a.documentIDs, [a.sourceURI] + a.sourceURIs;
    PrefixedMembers("chunk:", chunks, id);
    PrefixedMembers("doc:", documents, id);
    PrefixedMembers("source:", sources, id);
    PrefixedStart("chunk:", chunks, 'd');
    PrefixedStart("chunk:", chunks, 's');
    PrefixedStart("doc:", documents, 'c');
    PrefixedStart("doc:", documents, 's');
    PrefixedStart("source:", sources, 'c');
    PrefixedStart("source:", sources, 'd');
  }

  /** The annotation's label is its aspect or else its subquestion, and it names the result by chunk, document or
      source. */
  ghost predicate Annotates(a: Annotation, r: SearchResult, l: string) {
    && l != "" && l == (if a.aspect != "" then a.aspect else a.subquestion)
    && (|| (r.chunkID != "" && (r.chunkID == a.chunkID || r.chunkID in a.chunkIDs))
        || (r.documentID != "" && (r.documentID == a.documentID || r.documentID in a.documentIDs))
        || (r.sourceURI != "" && (r.sourceURI == a.sourceURI || r.sourceURI in a.sourceURIs)))
  }

  lemma AnnotatesByRefs(a: Annotation, r: SearchResult, l: string)
    ensures Annotates(a, r, l) <==> LabelOf(a) == l && l != "" && exists ref | ref in ResultRefs(r) :: ref in Refs(a)
  {
    hide Refs;
    RefsOf(a, r.chunkID);
    RefsOf(a, r.documentID);
    RefsOf(a, r.sourceURI);
    assert forall ref :: ref in ResultRefs(r) <==>
        ref == "chunk:" + r.chunkID || ref == "doc:" + r.documentID || ref == "source:" + r.sourceURI;
  }

  /** A result carries a label exactly when some annotation gives it. */
  lemma LabelsExactlyWhen(annotations: seq<Annotation>, byRef: map<string, Labels>, all: Labels, r: SearchResult, l: string)
    requires Grouped(annotations, byRef, all)
    ensures l in LabelsFor(r, byRef) <==> exists i | 0 <= i < |annotations| :: Annotates(annotations[i], r, l)
  {
    hide Refs, ResultRefs, LabelOf, Annotates;
    if l in LabelsFor(r, byRef) {
      var ref :| ref in ResultRefs(r) && ref in byRef && l in byRef[ref];
      assert Has(byRef, ref, l);
      var i :| 0 <= i < |annotations| && LabelOf(annotations[i]) == l && l != "" && ref in Refs(annotations[i]);
      AnnotatesByRefs(annotations[i], r, l);
    }
    if i :| 0 <= i < |annotations| && Annotates(annotations[i], r, l) {
      AnnotatesByRefs(annotations[i], r, l);
      var ref :| ref in ResultRefs(r) && ref in Refs(annotations[i]);
      assert Carries(annotations, ref, l);
      assert Has(byRef, ref, l);
    }
  }

  /** The labels some annotation gives to some of the results. */
  ghost predicate Retrieved(annotations: seq<Annotation>, results: seq<SearchResult>, l: string) {
    exists i, j | 0 <= i < |annotations| && 0 <= j < |results| :: Annotates(annotations[i], results[j], l)
  }

  /** What aspect coverage counts. */
  lemma {:induction false} CoveredExactlyWhen(annotations: seq<Annotation>, byRef: map<string, Labels>, all: Labels,
                                              results: seq<SearchResult>, l: string)
    requires Grouped(annotations, byRef, all)
    ensures l in Covered(results, byRef) <==> Retrieved(annotations, results, l)
  {
    hide LabelsFor, Grouped, Annotates;
    if results != [] {
      var front, last := results[..|results| - 1], results[|results| - 1];
      CoveredExactlyWhen(annotations, byRef, all, front, l);
      LabelsExactlyWhen(annotations, byRef, all, last, l);
      assert results == front + [last];
      if i, j :| 0 <= i < |annotations| && 0 <= j < |front| && Annotates(annotations[i], front[j], l) {
        assert Annotates(annotations[i], results[j], l);
      }
      if i :| 0 <= i < |annotations| && Annotates(annotations[i], last, l) {
        assert Annotates(annotations[i], results[|results| - 1], l);
      }
    }
  }

  lemma {:induction false} PrefixedForm(prefix: string, ids: seq<string>, ref: string) returns (id: string)
    requires ref in Prefixed(prefix, ids)
    ensures id != "" && id in ids && ref == prefix + id
  {
    var n := |ids| - 1;
    if ref in Prefixed(prefix, ids[..n]) {
      id := PrefixedForm(prefix, ids[..n], ref);
    } else {
      id := ids[n];
    }
  }

  lemma SomeResult(a: Annotation, ref: string) returns (r: SearchResult)
    requires ref in Refs(a)
    ensures ref in ResultRefs(r)
  {
    hide Prefixed;
    var chunks, documents, sources := [a.chunkID] + a.chunkIDs, [a.documentID] + a.documentIDs, [a.sourceURI] + a.sourceURIs;
    if ref in Prefixed("chunk:", chunks) {
      var id := PrefixedForm("chunk:", chunks, ref);
      r := SearchResult(id, "", "");
    } else if ref in Prefixed("doc:", documents) {
      var id := PrefixedForm("doc:", documents, ref);
      r := SearchResult("", id, "");
    } else {
      var id := PrefixedForm("source:", sources, ref);
      r := SearchResult("", "", id);
    }
  }

  /** What coverage is measured against: the labels that some conceivable result could carry. */
  lemma AllExactlyWhen(annotations: seq<Annotation>, byRef: map<string, Labels>, all: Labels, l: string)
    requires Grouped(annotations, byRef, all)
    ensures l in all <==> exists i, r | 0 <= i < |annotations| :: Annotates(annotations[i], r, l)
  {
    hide Refs, ResultRefs, Annotates, LabelOf;
    if l in all {
      var ref :| Carries(annotations, ref, l);
      var i :| 0 <= i < |annotations| && LabelOf(annotations[i]) == l && l != "" && ref in Refs(annotations[i]);
      var r := SomeResult(annotations[i], ref);
      AnnotatesByRefs(annotations[i], r, l);
    }
    if i, r :| 0 <= i < |annotations| && Annotates(annotations[i], r, l) {
      AnnotatesByRefs(annotations[i], r, l);
      var ref :| ref in ResultRefs(r) && ref in Refs(annotations[i]);
      assert Carries(annotations, ref, l);
    }
  }

  /** Coverage is a proportion, and it is complete exactly when every annotated label was retrieved. */
  lemma CoverageIsProportion(covered: Labels, all: Labels)
    requires covered <= all && all != {}
    ensures 0.0 <= |covered| as real / |all| as real <= 1.0
    ensures |covered| as real / |all| as real == 1.0 <==> covered == all
  {
    SubsetSize(covered, all);
    QuotientGe(|covered| as real, |all| as real, 0.0);
    QuotientLe(|covered| as real, |all| as real, 1.0);
    QuotientTimes(|covered| as real, |all| as real);
  }

  function Cutoff(count: nat, k: int): nat { if k <= 0 || k > count then count else k }

  function Penalty(alpha: real): real { if alpha <= 0.0 || alpha >= 1.0 then 0.5 else alpha }

  function RankedLabels(results: seq<SearchResult>, byRef: map<string, Labels>): seq<Labels> {
    seq(|results|, i requires 0 <= i < |results| => LabelsFor(results[i], byRef))
  }

  /** The references in some order, each once: Go's map iteration. */
  method RefsInSomeOrder(byRef: map<string, Labels>) returns (order: seq<string>)
    ensures (forall i, j | 0 <= i < j < |order| :: order[i] != order[j]) && forall ref :: ref in order <==> ref in byRef
  {
    order := [];
    var todo := byRef.Keys;
    while todo != {}
      invariant todo <= byRef.Keys
      invariant forall i, j | 0 <= i < j < |order| :: order[i] != order[j]
      invariant forall ref :: ref in order <==> ref in byRef && ref !in todo
      decreases |todo|
    {
      var ref :| ref in todo;
      order := order + [ref];
      todo := todo - {ref};
    }
  }

  function InOrder(byRef: map<string, Labels>, order: seq<string>): seq<Labels> {
    seq(|order|, i requires 0 <= i < |order| => if order[i] in byRef then byRef[order[i]] else {})
  }

  /** The score relates the ranking to a greedy ranking of the annotated references in some order. */
  ghost predicate Scores(results: seq<SearchResult>, byRef: map<string, Labels>, all: Labels, k: nat, beta: real, d: nat -> real,
                         order: seq<string>, picks: seq<nat>, score: Score)
    requires k <= |results| && all != {}
  {
    var candidates := InOrder(byRef, order);
    var ideal := AlphaDCG(Chosen(candidates, picks), beta, d);
    && IsGreedy(candidates, picks, k, beta)
    && score.alphaNDCG == (if ideal > 0.0 then AlphaDCG(RankedLabels(results[..k], byRef), beta, d) / ideal else 0.0)
    && score.aspectCoverage == |Covered(results[..k], byRef)| as real / |all| as real
  }

  method LabelResults(results: seq<SearchResult>, byRef: map<string, Labels>) returns (ranked: seq<Labels>, covered: Labels)
    ensures ranked == RankedLabels(results, byRef) && covered == Covered(results, byRef)
  {
    ranked, covered := [], {};
    for i := 0 to |results|
      invariant ranked == RankedLabels(results[..i], byRef)
      invariant covered == Covered(results[..i], byRef)
    {
      var labels := LabelsFor(results[i], byRef);
      assert results[..i + 1][..i] == results[..i];
      covered := covered + labels;
      ranked := ranked + [labels];
    }
    assert results[..|results|] == results;
  }

  method AlphaNDCG(ranked: seq<Labels>, ideal: real, penalty: real, d: nat -> real) returns (ndcg: real)
    requires IsDiscount(d) && 0.0 < penalty < 1.0
    ensures ndcg == if ideal > 0.0 then AlphaDCG(ranked, 1.0 - penalty, d) / ideal else 0.0
    ensures ndcg >= 0.0
  {
    ndcg := 0.0;
    if ideal > 0.0 {
      var dcg := ComputeAlphaDCG(ranked, penalty, d);
      ndcg := dcg / ideal;
      AlphaDCGSign(ranked, 1.0 - penalty, d);
      QuotientGe(dcg, ideal, 0.0);
    }
  }

  method ScoreDiversity(results: seq<SearchResult>, annotations: seq<Annotation>, alpha: real, cutoff: int, d: nat -> real)
    returns (score: Option<Score>, byRef: map<string, Labels>, all: Labels, ghost order: seq<string>, ghost picks: seq<nat>)
    requires IsDiscount(d)
    ensures Grouped(annotations, byRef, all)
    ensures score == None <==> all == {}
    ensures score.Some? ==>
              && (forall i, j | 0 <= i < j < |order| :: order[i] != order[j]) && (forall ref :: ref in order <==> ref in byRef)
              && Scores(results, byRef, all, if 0 < cutoff <= |results| then cutoff else |results|,
                        if 0.0 < alpha < 1.0 then 1.0 - alpha else 0.5, d, order, picks, score.value)
              && 0.0 <= score.value.aspectCoverage <= 1.0
              && score.value.alphaNDCG >= 0.0
  {
    hide IsDiscount, Grouped, IsGreedy, AlphaDCG, Chosen, Covered, RankedLabels, InOrder;
    order, picks := [], [];
    byRef, all := DiversityLabelsByRef(annotations);
    if all == {} {
      return None, byRef, all, order, picks;
    }
    var k := Cutoff(|results|, cutoff);
    var ranked, covered := LabelResults(results[..k], byRef);
    var refs := RefsInSomeOrder(byRef);
    order := refs;
    var ideal: real;
    ideal, picks := GreedyIdealAlphaDCG(InOrder(byRef, refs), k, Penalty(alpha), d);
    var ndcg := AlphaNDCG(ranked, ideal, Penalty(alpha), d);
    CoveredIsAnnotated(annotations, byRef, all, results[..k]);
    CoverageIsProportion(covered, all);
    score := Some(Score(ndcg, |covered| as real / |all| as real));
  }
}
