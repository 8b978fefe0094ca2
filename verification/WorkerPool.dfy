/** The benchmark's dispatcher, workers and channels as interleaved steps. */
module WorkerPool {

  datatype Worker = Idle | Busy(index: nat) | Exited

  /** Where the dispatching goroutine is. `Waiting` and later phases have closed the job channel. */
  datatype Phase =
    | Dispatching
    | Waiting(cancelled: bool)
    | Collecting(collected: seq<nat>)
    | Finished(collected: seq<nat>)
    | QueryFailed
    | Cancelled

  datatype State = State(next: nat, phase: Phase, contextDone: bool, workers: seq<Worker>, results: seq<nat>)

  datatype Step =
    | ContextEnds
    | Dispatch(worker: nat)
    | SeeContextDone
    | CloseJobs
    | Deliver(worker: nat)
    | Exit(worker: nat)
    | WorkersDone
    | Collect

  /** `count` jobs; `fails` says which queries end with an error. */
  datatype Pool = Pool(count: nat, concurrency: nat, fails: nat -> bool)

  predicate WellFormed(p: Pool) { p.count > 0 && p.concurrency > 0 }

  function Init(p: Pool): State {
    State(0, Dispatching, false, seq(p.concurrency, _ => Idle), [])
  }

  predicate JobsClosed(s: State) { !s.phase.Dispatching? }

  predicate Enabled(p: Pool, s: State, step: Step) {
    match step
    case ContextEnds => !s.contextDone
    case Dispatch(w) => s.phase == Dispatching && s.next < p.count && w < |s.workers| && s.workers[w] == Idle
    case SeeContextDone => s.phase == Dispatching && s.next < p.count && s.contextDone
    case CloseJobs => s.phase == Dispatching && s.next == p.count
    case Deliver(w) => w < |s.workers| && s.workers[w].Busy? && |s.results| < p.count
    case Exit(w) => w < |s.workers| && s.workers[w] == Idle && JobsClosed(s)
    case WorkersDone => s.phase.Waiting? && forall w | 0 <= w < |s.workers| :: s.workers[w] == Exited
    case Collect => s.phase.Collecting? && |s.phase.collected| < p.count && s.results != []
  }

  function Apply(p: Pool, s: State, step: Step): State
    requires Enabled(p, s, step)
  {
    match step
    case ContextEnds => s.(contextDone := true)
    case Dispatch(w) => s.(next := s.next + 1, workers := s.workers[w := Busy(s.next)])
    case SeeContextDone => s.(phase := Waiting(true))
    case CloseJobs => s.(phase := Waiting(false))
    case Deliver(w) => s.(workers := s.workers[w := Idle], results := s.results + [s.workers[w].index])
    case Exit(w) => s.(workers := s.workers[w := Exited])
    case WorkersDone => s.(phase := if s.phase.cancelled then Cancelled else Collecting([]))
    case Collect =>
      var got := s.phase.collected + [s.results[0]];
      s.(results := s.results[1..],
         phase := if p.fails(s.results[0]) then QueryFailed
                  else if |got| == p.count then Finished(got)
                  else Collecting(got))
  }

  predicate Returned(s: State) { s.phase.Finished? || s.phase.QueryFailed? || s.phase.Cancelled? }

  // ---------- runs ----------

  ghost predicate IsRun(p: Pool, steps: seq<Step>)
    decreases |steps|, 0
  {
    steps == [] || (IsRun(p, steps[..|steps| - 1]) && Enabled(p, After(p, steps[..|steps| - 1]), steps[|steps| - 1]))
  }

  ghost function After(p: Pool, steps: seq<Step>): State
    requires IsRun(p, steps)
    decreases |steps|, 1
  {
    if steps == [] then Init(p) else Apply(p, After(p, steps[..|steps| - 1]), steps[|steps| - 1])
  }

  // ---------- the invariant ----------

  function Held(workers: seq<Worker>, i: nat): nat {
    if workers == [] then 0
    else Held(workers[..|workers| - 1], i) + if workers[|workers| - 1] == Busy(i) then 1 else 0
  }

  function BusyCount(workers: seq<Worker>): nat {
    if workers == [] then 0
    else BusyCount(workers[..|workers| - 1]) + if workers[|workers| - 1].Busy? then 1 else 0
  }

  function Times(s: seq<nat>, i: nat): nat {
    if s == [] then 0 else Times(s[..|s| - 1], i) + if s[|s| - 1] == i then 1 else 0
  }

  function Gathered(s: State): seq<nat> {
    if s.phase.Collecting? || s.phase.Finished? then s.phase.collected else []
  }

  /** In how many places index `i` is: in workers' hands, in the result channel, collected. */
  function Places(s: State, i: nat): nat { Held(s.workers, i) + Times(s.results, i) + Times(Gathered(s), i) }

  /** Every dispatched index is in exactly one place and nothing else is anywhere. */
  ghost predicate EachOnce(s: State) {
    && (forall i: nat :: Places(s, i) == if i < s.next then 1 else 0)
    && BusyCount(s.workers) + |s.results| + |Gathered(s)| == s.next
  }

  ghost predicate Inv(p: Pool, s: State) {
    && |s.workers| == p.concurrency
    && s.next <= p.count
    && (!s.phase.QueryFailed? ==> EachOnce(s))
    && (s.phase.Dispatching? ==> forall w | 0 <= w < |s.workers| :: s.workers[w] != Exited)
    && (s.phase.Waiting? && !s.phase.cancelled ==> s.next == p.count)
    && (s.phase.Collecting? || Returned(s) ==> forall w | 0 <= w < |s.workers| :: s.workers[w] == Exited)
    && (s.phase.Collecting? ==> s.next == p.count && |s.phase.collected| < p.count)
    && (s.phase.Finished? ==> s.next == p.count && |s.phase.collected| == p.count)
  }

  lemma {:induction false} WorkerUpdate(workers: seq<Worker>, w: nat, x: Worker, i: nat)
    requires w < |workers|
    ensures Held(workers[w := x], i) + (if workers[w] == Busy(i) then 1 else 0) ==
            Held(workers, i) + (if x == Busy(i) then 1 else 0)
    ensures BusyCount(workers[w := x]) + (if workers[w].Busy? then 1 else 0) ==
            BusyCount(workers) + (if x.Busy? then 1 else 0)
  {
    var last := |workers| - 1;
    if w == last {
      assert workers[w := x][..last] == workers[..last];
    } else {
      WorkerUpdate(workers[..last], w, x, i);
      assert workers[w := x][..last] == workers[..last][w := x];
    }
  }

  lemma {:induction false} TimesPrepend(x: nat, s: seq<nat>, i: nat)
    ensures Times([x] + s, i) == Times(s, i) + if x == i then 1 else 0
  {
    if s == [] {
      assert [x] + s == [x] && [x][..0] == [];
    } else {
      assert ([x] + s)[..|s|] == [x] + s[..|s| - 1];
      TimesPrepend(x, s[..|s| - 1], i);
    }
  }

  lemma {:induction false} NobodyBusy(workers: seq<Worker>)
    ensures BusyCount(workers) == 0 <==> forall w | 0 <= w < |workers| :: !workers[w].Busy?
    ensures BusyCount(workers) == 0 ==> forall i: nat :: Held(workers, i) == 0
  {
    if workers != [] {
      var front := workers[..|workers| - 1];
      NobodyBusy(front);
      assert forall w | 0 <= w < |front| :: front[w] == workers[w];
    }
  }

  lemma InitInv(p: Pool)
    requires WellFormed(p)
    ensures Inv(p, Init(p))
  {
    NobodyBusy(Init(p).workers);
  }

  /** Only dispatching puts an index anywhere; every other step at most moves one. */
  lemma StepMoves(p: Pool, s: State, step: Step, i: nat)
    requires Enabled(p, s, step) && !Apply(p, s, step).phase.QueryFailed?
    ensures var t := Apply(p, s, step);
            && Places(t, i) == Places(s, i) + (if step.Dispatch? && i == s.next then 1 else 0)
            && BusyCount(t.workers) + |t.results| + |Gathered(t)| ==
                 BusyCount(s.workers) + |s.results| + |Gathered(s)| + (if step.Dispatch? then 1 else 0)
  {
    match step
    case Dispatch(w) => WorkerUpdate(s.workers, w, Busy(s.next), i);
    case Deliver(w) =>
      WorkerUpdate(s.workers, w, Idle, i);
      assert (s.results + [s.workers[w].index])[..|s.results|] == s.results;
    case Exit(w) => WorkerUpdate(s.workers, w, Exited, i);
    case Collect =>
      var x, got := s.results[0], s.phase.collected;
      assert s.results == [x] + s.results[1..];
      TimesPrepend(x, s.results[1..], i);
      assert (got + [x])[..|got|] == got;
    case _ =>
  }

  lemma StepKeepsOnce(p: Pool, s: State, step: Step)
    requires EachOnce(s) && Enabled(p, s, step) && !Apply(p, s, step).phase.QueryFailed?
    ensures EachOnce(Apply(p, s, step))
  {
    hide Places;
    forall i: nat { StepMoves(p, s, step, i); }
    StepMoves(p, s, step, 0);
  }

  lemma StepKeepsInv(p: Pool, s: State, step: Step)
    requires WellFormed(p) && Inv(p, s) && Enabled(p, s, step)
    ensures Inv(p, Apply(p, s, step))
  {
    if !s.phase.QueryFailed? && !Apply(p, s, step).phase.QueryFailed? {
      StepKeepsOnce(p, s, step);
    }
    hide EachOnce;
  }

  lemma {:induction false} RunKeepsInv(p: Pool, steps: seq<Step>)
    requires WellFormed(p) && IsRun(p, steps)
    ensures Inv(p, After(p, steps))
  {
    if steps == [] {
      InitInv(p);
    } else {
      RunKeepsInv(p, steps[..|steps| - 1]);
      StepKeepsInv(p, After(p, steps[..|steps| - 1]), steps[|steps| - 1]);
    }
  }

  // ---------- what every run guarantees ----------

  /** A worker that has a result can always send it at once. */
  lemma ResultSendsNeverBlock(p: Pool, steps: seq<Step>, w: nat)
    requires WellFormed(p) && IsRun(p, steps)
    requires w < |After(p, steps).workers| && After(p, steps).workers[w].Busy?
    ensures Enabled(p, After(p, steps), Deliver(w))
  {
    RunKeepsInv(p, steps);
    NobodyBusy(After(p, steps).workers);
  }

  /** Dispatched indices are processed exactly once: each index below `next` is in one place and no other exists. */
  lemma DispatchedExactlyOnce(p: Pool, steps: seq<Step>, i: nat)
    requires WellFormed(p) && IsRun(p, steps) && !After(p, steps).phase.QueryFailed?
    ensures Places(After(p, steps), i) == if i < After(p, steps).next then 1 else 0
  {
    RunKeepsInv(p, steps);
  }

  /** Until the call returns some step of the pool itself is possible, cancelled or not: no deadlock. */
  lemma NoDeadlock(p: Pool, steps: seq<Step>) returns (step: Step)
    requires WellFormed(p) && IsRun(p, steps) && !Returned(After(p, steps))
    ensures !step.ContextEnds? && Enabled(p, After(p, steps), step)
  {
    var s := After(p, steps);
    RunKeepsInv(p, steps);
    if w :| 0 <= w < |s.workers| && s.workers[w].Busy? {
      ResultSendsNeverBlock(p, steps, w);
      return Deliver(w);
    }
    NobodyBusy(s.workers);
    if s.phase.Dispatching? {
      step := if s.next < p.count then Dispatch(0) else CloseJobs;
      assert s.workers[0] == Idle;
    } else if w :| 0 <= w < |s.workers| && s.workers[w] == Idle {
      step := Exit(w);
    } else if s.phase.Waiting? {
      step := WorkersDone;
    } else {
      step := Collect;
    }
  }

  function Pending(w: Worker): nat { if w.Busy? then 3 else if w.Idle? then 1 else 0 }

  function AllPending(workers: seq<Worker>): nat {
    if workers == [] then 0 else AllPending(workers[..|workers| - 1]) + Pending(workers[|workers| - 1])
  }

  lemma {:induction false} PendingUpdate(workers: seq<Worker>, w: nat, x: Worker)
    requires w < |workers|
    ensures AllPending(workers[w := x]) + Pending(workers[w]) == AllPending(workers) + Pending(x)
  {
    var last := |workers| - 1;
    if w == last {
      assert workers[w := x][..last] == workers[..last];
    } else {
      PendingUpdate(workers[..last], w, x);
      assert workers[w := x][..last] == workers[..last][w := x];
    }
  }

  function PhaseRank(p: Pool, phase: Phase): int {
    match phase
    case Dispatching => p.count + 3
    case Waiting(_) => p.count + 2
    case Collecting(got) => p.count + 1 - |got|
    case _ => 0
  }

  /** Work left: jobs not dispatched, results not delivered, workers not gone, observations not collected. */
  function Measure(p: Pool, s: State): int {
    3 * (p.count - s.next) + AllPending(s.workers) + PhaseRank(p, s.phase)
  }

  /** Every step of the pool makes progress and the end of the context undoes none, so every run terminates. */
  lemma StepsMakeProgress(p: Pool, s: State, step: Step)
    requires WellFormed(p) && Inv(p, s) && Enabled(p, s, step)
    ensures 0 <= Measure(p, Apply(p, s, step)) <= Measure(p, s)
    ensures !step.ContextEnds? ==> Measure(p, Apply(p, s, step)) < Measure(p, s)
  {
    StepKeepsInv(p, s, step);
    match step
    case Dispatch(w) => PendingUpdate(s.workers, w, Busy(s.next));
    case Deliver(w) => PendingUpdate(s.workers, w, Idle);
    case Exit(w) => PendingUpdate(s.workers, w, Exited);
    case _ =>
  }

  function PoolSteps(steps: seq<Step>): nat {
    if steps == [] then 0 else PoolSteps(steps[..|steps| - 1]) + if steps[|steps| - 1].ContextEnds? then 0 else 1
  }

  lemma {:induction false} InitialMeasure(n: nat)
    ensures AllPending(seq(n, _ => Idle)) == n
  {
    if n > 0 {
      var workers := seq(n, _ => Idle);
      InitialMeasure(n - 1);
      assert workers[..n - 1] == seq(n - 1, _ => Idle);
    }
  }

  /** No run has more pool steps than this, whatever the interleaving. */
  lemma {:induction false} RunsAreBounded(p: Pool, steps: seq<Step>)
    requires WellFormed(p) && IsRun(p, steps)
    ensures PoolSteps(steps) + Measure(p, After(p, steps)) <= 4 * p.count + p.concurrency + 3
    ensures Measure(p, After(p, steps)) >= 0
  {
    if steps == [] {
      InitialMeasure(p.concurrency);
    } else {
      var front := steps[..|steps| - 1];
      RunsAreBounded(p, front);
      RunKeepsInv(p, front);
      StepsMakeProgress(p, After(p, front), steps[|steps| - 1]);
    }
  }

  ghost predicate NoQueryFails(p: Pool) { forall i: nat | i < p.count :: !p.fails(i) }

  ghost predicate Uncancelled(steps: seq<Step>) { forall k | 0 <= k < |steps| :: !steps[k].ContextEnds? }

  lemma TimesOfFirst(s: seq<nat>)
    requires s != []
    ensures Times(s, s[0]) >= 1
  {
    assert s == [s[0]] + s[1..];
    TimesPrepend(s[0], s[1..], s[0]);
  }

  /** How the dispatching goroutine stands: collected queries did not fail, a failure is a job's, and it learns of a
      cancellation only from the context. */
  ghost predicate Accounted(p: Pool, s: State) {
    && (forall x | x in Gathered(s) :: !p.fails(x))
    && (s.phase.QueryFailed? ==> !NoQueryFails(p))
  }

  ghost predicate Unaware(s: State) {
    !s.contextDone && !s.phase.Cancelled? && (s.phase.Waiting? ==> !s.phase.cancelled)
  }

  lemma CollectAccounts(p: Pool, s: State)
    requires Inv(p, s) && Accounted(p, s) && Enabled(p, s, Collect)
    ensures Accounted(p, Apply(p, s, Collect))
  {
    var x := s.results[0];
    TimesOfFirst(s.results);
    assert Places(s, x) >= 1;
    assert x < s.next <= p.count;
    if !p.fails(x) {
      assert forall y | y in s.phase.collected + [x] :: !p.fails(y);
    }
  }

  lemma {:induction false} RunsAreAccounted(p: Pool, steps: seq<Step>)
    requires WellFormed(p) && IsRun(p, steps)
    ensures Accounted(p, After(p, steps))
    ensures Uncancelled(steps) ==> Unaware(After(p, steps))
  {
    if steps != [] {
      var front, step := steps[..|steps| - 1], steps[|steps| - 1];
      var s := After(p, front);
      RunsAreAccounted(p, front);
      RunKeepsInv(p, front);
      assert Uncancelled(steps) ==> Uncancelled(front) && !step.ContextEnds?;
      if step == Collect {
        CollectAccounts(p, s);
      }
    }
  }

  lemma FinishedCollectsAll(p: Pool, s: State)
    requires WellFormed(p) && Inv(p, s) && s.phase.Finished?
    ensures |s.phase.collected| == p.count && forall i: nat :: Times(s.phase.collected, i) == if i < p.count then 1 else 0
  {
    NobodyBusy(s.workers);
    assert s.results == [];
    assert forall i: nat :: Times(s.phase.collected, i) == Places(s, i);
  }

  lemma {:induction false} CollectedMeansMember(s: seq<nat>, i: nat)
    requires Times(s, i) > 0
    ensures i in s
  {
    if s[|s| - 1] != i { CollectedMeansMember(s[..|s| - 1], i); }
  }

  /** A run that returns leaves no worker behind. Without cancellation it finishes if and only if no query fails, and a
      finished run has collected every index exactly once. */
  lemma ReturnedRuns(p: Pool, steps: seq<Step>)
    requires WellFormed(p) && IsRun(p, steps) && Returned(After(p, steps))
    ensures var s := After(p, steps);
            && (forall w | 0 <= w < |s.workers| :: s.workers[w] == Exited)
            && (Uncancelled(steps) ==> (s.phase.Finished? <==> NoQueryFails(p)))
            && (s.phase.Finished? ==>
                  |s.phase.collected| == p.count && forall i: nat :: Times(s.phase.collected, i) == if i < p.count then 1 else 0)
  {
    var s := After(p, steps);
    RunKeepsInv(p, steps);
    RunsAreAccounted(p, steps);
    if s.phase.Finished? {
      FinishedCollectsAll(p, s);
      forall i: nat | i < p.count ensures !p.fails(i) {
        CollectedMeansMember(s.phase.collected, i);
      }
    }
  }
}
