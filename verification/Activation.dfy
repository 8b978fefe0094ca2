/** The staged activation protocol that makes one document visible in several indexes at once. */
module Activation {
  import opened Wrappers

  // ---------- errors ----------

  /** `Joined` is what `errors.Join` builds; `CleanupWarning` is the post-commit warning type. */
  datatype Error = Plain(text: string) | CleanupWarning(cause: Error) | Joined(parts: seq<Error>)

  /** What `errors.As` finds: a cleanup warning anywhere in the error tree. */
  predicate HasCleanupWarning(e: Error) {
    match e
    case Plain(_) => false
    case CleanupWarning(_) => true
    case Joined(parts) => exists i | 0 <= i < |parts| :: HasCleanupWarning(parts[i])
  }

  function Join(left: Option<Error>, right: Option<Error>): Option<Error> {
    match (left, right)
    case (None, None) => None
    case (Some(l), None) => Some(Joined([l]))
    case (None, Some(r)) => Some(Joined([r]))
    case (Some(l), Some(r)) => Some(Joined([l, r]))
  }

  /** Folding `Join` over a list of call results, first to last. */
  function JoinAll(first: Option<Error>, errs: seq<Option<Error>>): Option<Error> {
    if errs == [] then first
    else Join(JoinAll(first, errs[..|errs| - 1]), errs[|errs| - 1])
  }

  ghost predicate AnyWarning(first: Option<Error>, errs: seq<Option<Error>>) {
    || (first.Some? && HasCleanupWarning(first.value))
    || exists i | 0 <= i < |errs| :: errs[i].Some? && HasCleanupWarning(errs[i].value)
  }

  lemma JoinKeepsWarnings(left: Option<Error>, right: Option<Error>)
    ensures var j := Join(left, right);
            && (j.Some? <==> left.Some? || right.Some?)
            && ((j.Some? && HasCleanupWarning(j.value)) <==>
                (left.Some? && HasCleanupWarning(left.value)) || (right.Some? && HasCleanupWarning(right.value)))
  {
    match (left, right)
    case (None, None) =>
    case (Some(l), None) => assert Joined([l]).parts[0] == l;
    case (None, Some(r)) => assert Joined([r]).parts[0] == r;
    case (Some(l), Some(r)) =>
      assert Joined([l, r]).parts[0] == l && Joined([l, r]).parts[1] == r;
  }

  /** No error and no warning is lost or invented while abort errors are collected. */
  lemma {:induction false} JoinAllKeepsWarnings(first: Option<Error>, errs: seq<Option<Error>>)
    ensures JoinAll(first, errs).Some? <==> first.Some? || exists i | 0 <= i < |errs| :: errs[i].Some?
    ensures JoinAll(first, errs).Some? && HasCleanupWarning(JoinAll(first, errs).value) <==> AnyWarning(first, errs)
  {
    if errs != [] {
      var rest, last := errs[..|errs| - 1], errs[|errs| - 1];
      JoinAllKeepsWarnings(first, rest);
      JoinKeepsWarnings(JoinAll(first, rest), last);
      assert forall i | 0 <= i < |rest| :: errs[i] == rest[i];
    }
  }

  // ---------- calls, traces and outcomes ----------

  datatype Phase = Storing | Preparing | Committing | Aborting | Finalizing

  /** One call on the participant at list position `at`, and how it ended. */
  datatype Call = Call(phase: Phase, at: nat, err: Option<Error>)

  datatype Outcome =
    | Empty
    | Refused
    | Delegated(err: Option<Error>)
    | Committed(finals: seq<Option<Error>>)
    | RolledBack(failed: Phase, at: nat, cause: Error, aborts: seq<Option<Error>>)

  /** Outcomes that `Store` over `n` participants can have; an abort list belongs to the stored prefix, last first. */
  ghost predicate Possible(n: nat, o: Outcome) {
    match o
    case Empty => n == 0
    case Refused => n > 1
    case Delegated(_) => n == 1
    case Committed(finals) => n > 0 && |finals| == n
    case RolledBack(failed, at, _, aborts) =>
      && at < n
      && (failed == Storing || failed == Preparing || failed == Committing)
      && |aborts| == (if failed == Storing then at else n)
  }

  function Passes(phase: Phase, n: nat): seq<Call> {
    seq(n, i requires 0 <= i < n => Call(phase, i, None))
  }

  function Finals(errs: seq<Option<Error>>): seq<Call> {
    seq(|errs|, i requires 0 <= i < |errs| => Call(Finalizing, i, errs[i]))
  }

  function Aborts(stored: nat, errs: seq<Option<Error>>): seq<Call>
    requires |errs| <= stored
  {
    seq(|errs|, i requires 0 <= i < |errs| => Call(Aborting, stored - 1 - i, errs[i]))
  }

  /** The phases completed over the whole list before the failing one. */
  function Forward(n: nat, failed: Phase, at: nat): seq<Call> {
    match failed
    case Storing => Passes(Storing, at)
    case Preparing => Passes(Storing, n) + Passes(Preparing, at)
    case _ => Passes(Storing, n) + Passes(Preparing, n) + Passes(Committing, at)
  }

  ghost function Trace(n: nat, o: Outcome): seq<Call>
    requires Possible(n, o)
  {
    match o
    case Empty => []
    case Refused => []
    case Delegated(err) => [Call(Storing, 0, err)]
    case Committed(finals) => Forward(n, Committing, n) + Finals(finals)
    case RolledBack(failed, at, cause, aborts) =>
      Forward(n, failed, at) + [Call(failed, at, Some(cause))] + Aborts(|aborts|, aborts)
  }

  const NON_TRANSACTIONAL := Plain("composite indexer requires activation participants")

  function Report(o: Outcome): Option<Error> {
    match o
    case Empty => None
    case Refused => Some(NON_TRANSACTIONAL)
    case Delegated(err) => err
    case Committed(finals) =>
      var joined := JoinAll(None, finals);
      if joined.Some? then Some(CleanupWarning(joined.value)) else None
    case RolledBack(_, _, cause, aborts) => JoinAll(Some(cause), aborts)
  }

  ghost function Positions(trace: seq<Call>, phase: Phase): seq<nat> {
    if trace == [] then []
    else Positions(trace[..|trace| - 1], phase) +
         (if trace[|trace| - 1].phase == phase then [trace[|trace| - 1].at] else [])
  }

  function UpTo(n: nat): seq<nat> { seq(n, i requires 0 <= i < n => i as nat) }

  function DownFrom(n: nat): seq<nat> { seq(n, i requires 0 <= i < n => (n - 1 - i) as nat) }

  lemma {:induction false} PositionsConcat(a: seq<Call>, b: seq<Call>, phase: Phase)
    ensures Positions(a + b, phase) == Positions(a, phase) + Positions(b, phase)
  {
    if b == [] {
      assert a + b == a;
    } else {
      assert (a + b)[..|a + b| - 1] == a + b[..|b| - 1];
      PositionsConcat(a, b[..|b| - 1], phase);
    }
  }

  lemma PositionsConcat3(a: seq<Call>, b: seq<Call>, c: seq<Call>, phase: Phase)
    ensures Positions(a + b + c, phase) == Positions(a, phase) + Positions(b, phase) + Positions(c, phase)
  {
    PositionsConcat(a, b, phase);
    PositionsConcat(a + b, c, phase);
  }

  lemma {:induction false} PositionsOfOther(trace: seq<Call>, phase: Phase)
    requires forall c <- trace :: c.phase != phase
    ensures Positions(trace, phase) == []
  {
    if trace != [] {
      PositionsOfOther(trace[..|trace| - 1], phase);
    }
  }

  lemma {:induction false} PositionsOfSame(trace: seq<Call>, phase: Phase)
    requires forall c <- trace :: c.phase == phase
    ensures |Positions(trace, phase)| == |trace|
    ensures forall i | 0 <= i < |trace| :: Positions(trace, phase)[i] == trace[i].at
  {
    if trace != [] {
      PositionsOfSame(trace[..|trace| - 1], phase);
    }
  }

  lemma PositionsOfPasses(phase: Phase, n: nat, query: Phase)
    ensures Positions(Passes(phase, n), query) == if query == phase then UpTo(n) else []
  {
    if query == phase { PositionsOfSame(Passes(phase, n), query); } else { PositionsOfOther(Passes(phase, n), query); }
  }

  lemma PositionsOfForward(n: nat, failed: Phase, at: nat, query: Phase)
    requires failed == Storing || failed == Preparing || failed == Committing
    requires query == Aborting || query == Finalizing || query == Committing
    ensures Positions(Forward(n, failed, at), query) == if query == Committing && failed == Committing then UpTo(at) else []
  {
    PositionsOfPasses(Storing, n, query);
    PositionsOfPasses(Storing, at, query);
    PositionsOfPasses(Preparing, n, query);
    PositionsOfPasses(Preparing, at, query);
    PositionsOfPasses(Committing, at, query);
    PositionsConcat(Passes(Storing, n), Passes(Preparing, at), query);
    PositionsConcat(Passes(Storing, n), Passes(Preparing, n), query);
    PositionsConcat(Passes(Storing, n) + Passes(Preparing, n), Passes(Committing, at), query);
  }

  /** No commit starts before every participant has been stored and prepared, whatever the outcome. */
  lemma CommitsComeAfterPreparation(n: nat, o: Outcome, i: nat, p: nat)
    requires Possible(n, o) && i < |Trace(n, o)| && Trace(n, o)[i].phase == Committing && p < n
    ensures Call(Storing, p, None) in Trace(n, o)[..i]
    ensures Call(Preparing, p, None) in Trace(n, o)[..i]
  {
    var t := Trace(n, o);
    assert n + n <= i;
    assert t[p] == Call(Storing, p, None) && t[n + p] == Call(Preparing, p, None);
    assert t[..i][p] == t[p] && t[..i][n + p] == t[n + p];
  }

  lemma PositionsOfFinals(finals: seq<Option<Error>>)
    ensures Positions(Finals(finals), Finalizing) == UpTo(|finals|)
    ensures Positions(Finals(finals), Committing) == Positions(Finals(finals), Aborting) == []
  {
    PositionsOfSame(Finals(finals), Finalizing);
    PositionsOfOther(Finals(finals), Committing);
    PositionsOfOther(Finals(finals), Aborting);
  }

  lemma PositionsOfCommitted(n: nat, o: Outcome, query: Phase)
    requires Possible(n, o) && o.Committed? && (query == Aborting || query == Finalizing || query == Committing)
    ensures Positions(Trace(n, o), query) ==
            (if query == Committing then UpTo(n) else []) + Positions(Finals(o.finals), query)
  {
    PositionsOfForward(n, Committing, n, query);
    PositionsConcat(Forward(n, Committing, n), Finals(o.finals), query);
  }

  /** Committed: every participant commits once without error and is finalized exactly once, in list order,
      and nobody is aborted. */
  lemma CommittedMeansAll(n: nat, o: Outcome)
    requires Possible(n, o) && o.Committed?
    ensures Positions(Trace(n, o), Committing) == UpTo(n)
    ensures Positions(Trace(n, o), Finalizing) == UpTo(n)
    ensures Positions(Trace(n, o), Aborting) == []
    ensures forall c <- Trace(n, o) | c.phase == Committing :: c.err == None
  {
    PositionsOfFinals(o.finals);
    PositionsOfCommitted(n, o, Committing);
    PositionsOfCommitted(n, o, Aborting);
    PositionsOfCommitted(n, o, Finalizing);
    CommitsPass(n, o);
  }

  lemma CommitsPass(n: nat, o: Outcome)
    requires Possible(n, o) && o.Committed?
    ensures forall c <- Trace(n, o) | c.phase == Committing :: c.err == None
  {
  }

  /** In a rolled-back run the positions stored without error are exactly the first `|o.aborts|`. */
  lemma StoredPrefix(n: nat, o: Outcome, p: nat)
    requires Possible(n, o) && o.RolledBack?
    ensures Call(Storing, p, None) in Trace(n, o) <==> p < |o.aborts|
  {
    var f, c, a := Forward(n, o.failed, o.at), [Call(o.failed, o.at, Some(o.cause))], Aborts(|o.aborts|, o.aborts);
    if p < |o.aborts| {
      assert f[p] == Call(Storing, p, None);
      assert f[p] in f;
    } else {
      assert forall x <- f | x.phase == Storing :: x.at < |o.aborts|;
    }
  }

  lemma PositionsOfAborts(aborts: seq<Option<Error>>)
    ensures Positions(Aborts(|aborts|, aborts), Aborting) == DownFrom(|aborts|)
    ensures Positions(Aborts(|aborts|, aborts), Finalizing) == []
  {
    PositionsOfSame(Aborts(|aborts|, aborts), Aborting);
    PositionsOfOther(Aborts(|aborts|, aborts), Finalizing);
  }

  lemma PositionsOfRollback(n: nat, o: Outcome, query: Phase)
    requires Possible(n, o) && o.RolledBack? && (query == Aborting || query == Finalizing)
    ensures Positions(Trace(n, o), query) == Positions(Aborts(|o.aborts|, o.aborts), query)
  {
    var f, c := Forward(n, o.failed, o.at), [Call(o.failed, o.at, Some(o.cause))];
    PositionsOfForward(n, o.failed, o.at, query);
    PositionsOfOther(c, query);
    PositionsConcat3(f, c, Aborts(|o.aborts|, o.aborts), query);
  }

  /** Rolled back: nobody is finalized, and the participants aborted are exactly those whose Store succeeded,
      once each, last stored first. */
  lemma RolledBackMeansNone(n: nat, o: Outcome)
    requires Possible(n, o) && o.RolledBack?
    ensures Positions(Trace(n, o), Finalizing) == []
    ensures Positions(Trace(n, o), Aborting) == DownFrom(|o.aborts|)
    ensures forall p: nat :: Call(Storing, p, None) in Trace(n, o) <==> p < |o.aborts|
  {
    PositionsOfAborts(o.aborts);
    PositionsOfRollback(n, o, Aborting);
    PositionsOfRollback(n, o, Finalizing);
    forall p: nat ensures Call(Storing, p, None) in Trace(n, o) <==> p < |o.aborts| { StoredPrefix(n, o, p); }
  }

  /** The returned error names the outcome: no error exactly when everything committed and every finalize
      succeeded (or there was nothing to coordinate); a rollback always reports an error. */
  lemma ReportDecides(n: nat, o: Outcome)
    requires Possible(n, o)
    ensures Report(o) == None <==>
            o.Empty? || o == Delegated(None) || (o.Committed? && forall i | 0 <= i < |o.finals| :: o.finals[i] == None)
    ensures o.Committed? && Report(o).Some? ==> Report(o).value.CleanupWarning?
    ensures o.RolledBack? ==>
            (HasCleanupWarning(Report(o).value) <==> AnyWarning(Some(o.cause), o.aborts))
  {
    match o
    case Committed(finals) => JoinAllKeepsWarnings(None, finals);
    case RolledBack(_, _, cause, aborts) => JoinAllKeepsWarnings(Some(cause), aborts);
    case _ =>
  }

  // ---------- participants and their environment ----------

  /** What a search against one index can see. */
  type Content = seq<string>

  datatype Reply = Reply(err: Option<Error>, after: Content)

  /** Decides, from everything called so far, how the next call ends and what content it leaves behind. */
  type Oracle = (seq<Call>, Phase, nat, Content, seq<Content>) -> Reply

  /** The `k`-th call ended as the oracle decided, for some state of the index called. */
  ghost predicate AnsweredAt(oracle: Oracle, calls: seq<Call>, k: nat)
    requires k < |calls|
  {
    exists content, saved :: calls[k].err == oracle(calls[..k], calls[k].phase, calls[k].at, content, saved).err
  }

  ghost predicate Answered(oracle: Oracle, calls: seq<Call>) {
    forall k: nat | k < |calls| :: AnsweredAt(oracle, calls, k)
  }

  lemma AnsweredAppend(oracle: Oracle, calls: seq<Call>, call: Call, content: Content, saved: seq<Content>)
    requires Answered(oracle, calls) && call.err == oracle(calls, call.phase, call.at, content, saved).err
    ensures Answered(oracle, calls + [call])
  {
    var next := calls + [call];
    forall k: nat | k < |next| ensures AnsweredAt(oracle, next, k) {
      assert next[..k] == calls[..k];
      if k < |calls| {
        assert AnsweredAt(oracle, calls, k);
        var c, sv :| calls[k].err == oracle(calls[..k], calls[k].phase, calls[k].at, c, sv).err;
        assert next[k].err == oracle(next[..k], next[k].phase, next[k].at, c, sv).err;
      } else {
        assert calls[..k] == calls;
        assert next[k].err == oracle(next[..k], next[k].phase, next[k].at, content, saved).err;
      }
    }
  }

  class Journal {
    const oracle: Oracle
    var calls: seq<Call>

    constructor (oracle: Oracle)
      ensures this.oracle == oracle && calls == []
    {
      this.oracle := oracle;
      calls := [];
    }
  }

  /** Contents to go back to: one per successful Store that has not been aborted. */
  function Remember(phase: Phase, err: Option<Error>, content: Content, saved: seq<Content>): seq<Content> {
    match phase
    case Storing => if err == None then saved + [content] else saved
    case Aborting => if saved == [] then saved else saved[..|saved| - 1]
    case _ => saved
  }

  /** An abort puts back the content from before the Store it undoes, even if it reports an error. */
  ghost predicate UndoingAborts(oracle: Oracle) {
    forall calls, at, content, saved | saved != [] ::
      oracle(calls, Aborting, at, content, saved).after == saved[|saved| - 1]
  }

  ghost predicate EffectFreeFailedStores(oracle: Oracle) {
    forall calls, at, content, saved ::
      var reply := oracle(calls, Storing, at, content, saved);
      reply.err.Some? ==> reply.after == content
  }

  class Indexer {
    const transactional: bool
    var content: Content
    var saved: seq<Content>

    constructor (transactional: bool)
      ensures this.transactional == transactional && content == [] && saved == []
    {
      this.transactional := transactional;
      content, saved := [], [];
    }

    /** Any of the five interface calls. */
    method Perform(phase: Phase, at: nat, journal: Journal) returns (err: Option<Error>)
      modifies this, journal
      ensures err == journal.oracle(old(journal.calls), phase, at, old(content), old(saved)).err
      ensures content == journal.oracle(old(journal.calls), phase, at, old(content), old(saved)).after
      ensures saved == Remember(phase, err, old(content), old(saved))
      ensures journal.calls == old(journal.calls) + [Call(phase, at, err)]
      ensures Answered(journal.oracle, old(journal.calls)) ==> Answered(journal.oracle, journal.calls)
    {
      var reply := journal.oracle(journal.calls, phase, at, content, saved);
      err := reply.err;
      if Answered(journal.oracle, journal.calls) {
        AnsweredAppend(journal.oracle, journal.calls, Call(phase, at, err), content, saved);
      }
      saved := Remember(phase, err, content, saved);
      content := reply.after;
      journal.calls := journal.calls + [Call(phase, at, err)];
    }
  }

  function NonNil(indexers: seq<Indexer?>): (r: seq<Indexer>)
    ensures forall p <- r :: p in indexers
  {
    if indexers == [] then []
    else
      var rest := NonNil(indexers[..|indexers| - 1]);
      var last := indexers[|indexers| - 1];
      if last == null then rest else rest + [last]
  }

  /** How often `p` stands in the list; the same index may be configured twice. */
  ghost function Occurrences(p: Indexer, list: seq<Indexer>): nat {
    multiset(list)[p]
  }

  /** `p` has `depth` outstanding stores on top of `saved0`; with none outstanding it shows `content0` again. */
  ghost predicate Holding(p: Indexer, content0: Content, saved0: seq<Content>, depth: nat)
    reads p
  {
    && |p.saved| == |saved0| + depth
    && saved0 <= p.saved
    && (if depth > 0 then p.saved[|saved0|] == content0 else p.content == content0)
  }

  lemma OneMore(p: Indexer, list: seq<Indexer>, i: nat)
    requires i < |list|
    ensures Occurrences(p, list[..i + 1]) == Occurrences(p, list[..i]) + if list[i] == p then 1 else 0
  {
    assert list[..i + 1] == list[..i] + [list[i]];
  }

  lemma Listed(p: Indexer, list: seq<Indexer>)
    requires p in list
    ensures Occurrences(p, list) > 0
  {
    assert p in multiset(list);
  }

  lemma JoinAllExtends(first: Option<Error>, errs: seq<Option<Error>>, last: Option<Error>)
    ensures JoinAll(first, errs + [last]) == Join(JoinAll(first, errs), last)
  {
    assert (errs + [last])[..|errs|] == errs;
  }

  type Baseline = map<Indexer, (Content, seq<Content>)>

  /** Every index of the baseline has as many outstanding stores as `list` mentions it. */
  ghost predicate AllHolding(base: Baseline, list: seq<Indexer>)
    reads base.Keys
  {
    forall p <- base.Keys :: Holding(p, base[p].0, base[p].1, Occurrences(p, list))
  }

  method CallNext(phase: Phase, participants: seq<Indexer>, i: nat, journal: Journal, ghost base: Baseline)
    returns (err: Option<Error>)
    requires i < |participants| && phase != Aborting
    modifies journal, participants[i]
    ensures Answered(journal.oracle, old(journal.calls)) ==> Answered(journal.oracle, journal.calls)
    ensures journal.calls == old(journal.calls) + [Call(phase, i, err)]
    ensures phase == Storing && err == None && old(AllHolding(base, participants[..i])) ==>
              AllHolding(base, participants[..i + 1])
    ensures phase == Storing && err.Some? && EffectFreeFailedStores(journal.oracle) && old(AllHolding(base, participants[..i])) ==>
              AllHolding(base, participants[..i])
    ensures phase != Storing && old(AllHolding(base, participants)) ==> AllHolding(base, participants)
  {
    hide Answered;
    forall p { OneMore(p, participants, i); }
    Listed(participants[i], participants);
    err := participants[i].Perform(phase, i, journal);
  }

  /** Calls `phase` on the participants in list order and stops at the first error. */
  method RunPhase(phase: Phase, participants: seq<Indexer>, journal: Journal, ghost base: Baseline)
    returns (failedAt: nat, failure: Option<Error>)
    requires phase != Aborting
    modifies journal, participants
    ensures Answered(journal.oracle, old(journal.calls)) ==> Answered(journal.oracle, journal.calls)
    ensures failedAt <= |participants|
    ensures failure == None <==> failedAt == |participants|
    ensures journal.calls == old(journal.calls) + Passes(phase, failedAt) +
                             (if failure == None then [] else [Call(phase, failedAt, failure)])
    ensures phase == Storing && old(AllHolding(base, [])) && (failure == None || EffectFreeFailedStores(journal.oracle)) ==>
              AllHolding(base, participants[..failedAt])
    ensures phase != Storing && old(AllHolding(base, participants)) ==> AllHolding(base, participants)
  {
    hide Answered;
    failedAt, failure := 0, None;
    assert participants[..0] == [];
    while failedAt < |participants|
      invariant failedAt <= |participants|
      invariant journal.calls == old(journal.calls) + Passes(phase, failedAt)
      invariant Answered(journal.oracle, old(journal.calls)) ==> Answered(journal.oracle, journal.calls)
      invariant phase == Storing && old(AllHolding(base, [])) ==> AllHolding(base, participants[..failedAt])
      invariant phase != Storing && old(AllHolding(base, participants)) ==> AllHolding(base, participants)
    {
      var err := CallNext(phase, participants, failedAt, journal, base);
      if err.Some? {
        return failedAt, err;
      }
      assert Passes(phase, failedAt + 1) == Passes(phase, failedAt) + [Call(phase, failedAt, None)];
      failedAt := failedAt + 1;
    }
  }

  method AbortLast(stored: seq<Indexer>, idx: nat, journal: Journal, ghost base: Baseline) returns (err: Option<Error>)
    requires idx < |stored| && stored[idx] in base
    modifies journal, stored[idx]
    ensures Answered(journal.oracle, old(journal.calls)) ==> Answered(journal.oracle, journal.calls)
    ensures journal.calls == old(journal.calls) + [Call(Aborting, idx, err)]
    ensures UndoingAborts(journal.oracle) && old(AllHolding(base, stored[..idx + 1])) ==> AllHolding(base, stored[..idx])
  {
    hide Answered;
    forall p { OneMore(p, stored, idx); }
    err := stored[idx].Perform(Aborting, idx, journal);
  }

  method AbortActivation(stored: seq<Indexer>, journal: Journal, cause: Error, ghost base: Baseline)
    returns (err: Error, ghost aborts: seq<Option<Error>>)
    requires forall p <- stored :: p in base
    modifies journal, stored
    ensures Answered(journal.oracle, old(journal.calls)) ==> Answered(journal.oracle, journal.calls)
    ensures |aborts| == |stored|
    ensures JoinAll(Some(cause), aborts) == Some(err)
    ensures journal.calls == old(journal.calls) + Aborts(|stored|, aborts)
    ensures UndoingAborts(journal.oracle) && old(AllHolding(base, stored)) ==> AllHolding(base, [])
  {
    hide Answered;
    ghost var undoing := UndoingAborts(journal.oracle) && AllHolding(base, stored);
    err, aborts := cause, [];
    var idx := |stored|;
    assert stored[..idx] == stored;
    while idx > 0
      invariant idx <= |stored| && |aborts| == |stored| - idx
      invariant JoinAll(Some(cause), aborts) == Some(err)
      invariant journal.calls == old(journal.calls) + Aborts(|stored|, aborts)
      invariant Answered(journal.oracle, old(journal.calls)) ==> Answered(journal.oracle, journal.calls)
      invariant undoing ==> AllHolding(base, stored[..idx])
    {
      idx := idx - 1;
      var failure := AbortLast(stored, idx, journal, base);
      JoinAllExtends(Some(cause), aborts, failure);
      assert Aborts(|stored|, aborts + [failure]) == Aborts(|stored|, aborts) + [Call(Aborting, idx, failure)];
      err := Join(Some(err), failure).value;
      aborts := aborts + [failure];
    }
    assert stored[..0] == [];
  }

  method FinalizeAll(participants: seq<Indexer>, journal: Journal)
    returns (cleanupErr: Option<Error>, ghost finals: seq<Option<Error>>)
    modifies journal, participants
    ensures Answered(journal.oracle, old(journal.calls)) ==> Answered(journal.oracle, journal.calls)
    ensures |finals| == |participants| && cleanupErr == JoinAll(None, finals)
    ensures journal.calls == old(journal.calls) + Finals(finals)
  {
    hide Answered;
    cleanupErr, finals := None, [];
    for i := 0 to |participants|
      invariant |finals| == i && cleanupErr == JoinAll(None, finals)
      invariant journal.calls == old(journal.calls) + Finals(finals)
      invariant Answered(journal.oracle, old(journal.calls)) ==> Answered(journal.oracle, journal.calls)
    {
      var final := participants[i].Perform(Finalizing, i, journal);
      JoinAllExtends(None, finals, final);
      assert Finals(finals + [final]) == Finals(finals) + [Call(Finalizing, i, final)];
      cleanupErr := Join(cleanupErr, final);
      finals := finals + [final];
    }
  }

  lemma TraceOfRollback(n: nat, failed: Phase, at: nat, cause: Error, aborts: seq<Option<Error>>)
    requires Possible(n, RolledBack(failed, at, cause, aborts))
    ensures Trace(n, RolledBack(failed, at, cause, aborts)) ==
            Forward(n, failed, at) + ([Call(failed, at, Some(cause))] + Aborts(|aborts|, aborts))
  {
  }

  /** Store, prepare and commit, in that order over the whole list; `failed` and `at` say where it stopped. */
  method RunPhases(participants: seq<Indexer>, journal: Journal, ghost base: Baseline)
    returns (failed: Phase, at: nat, failure: Option<Error>)
    requires participants != [] && base.Keys == (set p | p in participants)
    requires forall p <- participants :: base[p] == (p.content, p.saved)
    modifies journal, participants
    ensures Answered(journal.oracle, old(journal.calls)) ==> Answered(journal.oracle, journal.calls)
    ensures failed == Storing || failed == Preparing || failed == Committing
    ensures failure == None ==>
              journal.calls == old(journal.calls) + Forward(|participants|, Committing, |participants|)
    ensures failure.Some? ==>
              && at < |participants|
              && journal.calls == old(journal.calls) + (Forward(|participants|, failed, at) + [Call(failed, at, failure)])
    ensures failure.Some? && (failed == Storing ==> EffectFreeFailedStores(journal.oracle)) ==>
              AllHolding(base, if failed == Storing then participants[..at] else participants)
  {
    hide Answered;
    ghost var before := journal.calls;
    ghost var n := |participants|;
    assert participants[..n] == participants;
    assert AllHolding(base, []);
    failed := Storing;
    at, failure := RunPhase(Storing, participants, journal, base);
    if failure.Some? { return; }
    assert journal.calls == before + Passes(Storing, n);
    failed := Preparing;
    at, failure := RunPhase(Preparing, participants, journal, base);
    if failure.Some? { return; }
    assert journal.calls == before + (Passes(Storing, n) + Passes(Preparing, n));
    failed := Committing;
    at, failure := RunPhase(Committing, participants, journal, base);
  }

  /** The staged part of `Store`, with its rollback. */
  method Stage(participants: seq<Indexer>, journal: Journal) returns (err: Option<Error>, ghost outcome: Outcome)
    requires participants != []
    modifies journal, participants
    ensures Answered(journal.oracle, old(journal.calls)) ==> Answered(journal.oracle, journal.calls)
    ensures err == None ==> journal.calls == old(journal.calls) + Forward(|participants|, Committing, |participants|)
    ensures err.Some? ==>
              && outcome.RolledBack? && Possible(|participants|, outcome) && err == Report(outcome)
              && journal.calls == old(journal.calls) + Trace(|participants|, outcome)
    ensures err.Some? && UndoingAborts(journal.oracle) &&
            (outcome.failed == Storing ==> EffectFreeFailedStores(journal.oracle)) ==>
              forall p <- participants :: p.content == old(p.content) && p.saved == old(p.saved)
  {
    hide UndoingAborts, EffectFreeFailedStores, JoinAll, Answered;
    ghost var base: Baseline := map p | p in participants :: (p.content, p.saved);
    var failed, at, failure := RunPhases(participants, journal, base);
    if failure == None {
      return None, Empty;
    }
    var report, aborts := AbortActivation(if failed == Storing then participants[..at] else participants,
                                          journal, failure.value, base);
    outcome := RolledBack(failed, at, failure.value, aborts);
    TraceOfRollback(|participants|, failed, at, failure.value, aborts);
    err := Some(report);
  }

  class CompositeIndexer {
    const indexers: seq<Indexer?>

    constructor (indexers: seq<Indexer?>)
      ensures this.indexers == indexers
    {
      this.indexers := indexers;
    }

    /** Every run is one of the possible outcomes, with exactly that outcome's calls and report; a rolled-back
        run leaves each index as it was when aborts undo and failed stores have no effect. */
    method Store(journal: Journal) returns (err: Option<Error>, ghost outcome: Outcome)
      modifies journal, NonNil(indexers)
      ensures Answered(journal.oracle, old(journal.calls)) ==> Answered(journal.oracle, journal.calls)
      ensures Possible(|NonNil(indexers)|, outcome)
      ensures journal.calls == old(journal.calls) + Trace(|NonNil(indexers)|, outcome)
      ensures err == Report(outcome)
      ensures outcome.Delegated? <==> |NonNil(indexers)| == 1 && !NonNil(indexers)[0].transactional
      ensures outcome.Refused? <==> |NonNil(indexers)| > 1 && exists p <- NonNil(indexers) :: !p.transactional
      ensures outcome.Empty? || outcome.Refused? ==>
                forall p <- NonNil(indexers) :: p.content == old(p.content) && p.saved == old(p.saved)
      ensures outcome.RolledBack? && UndoingAborts(journal.oracle) &&
              (outcome.failed == Storing ==> EffectFreeFailedStores(journal.oracle)) ==>
                forall p <- NonNil(indexers) :: p.content == old(p.content) && p.saved == old(p.saved)
    {
      hide Answered;
      var participants: seq<Indexer> := [];
      for i := 0 to |indexers|
        invariant participants == NonNil(indexers[..i])
      {
        assert indexers[..i + 1][..i] == indexers[..i];
        if indexers[i] != null {
          participants := participants + [indexers[i]];
        }
      }
      assert indexers[..|indexers|] == indexers;
      var n := |participants|;
      if n == 0 {
        return None, Empty;
      }
      if n == 1 && !participants[0].transactional {
        var direct := participants[0].Perform(Storing, 0, journal);
        return direct, Delegated(direct);
      }
      for i := 0 to n
        invariant forall j | 0 <= j < i :: participants[j].transactional
      {
        if !participants[i].transactional {
          assert participants[i] in NonNil(indexers);
          return Some(NON_TRANSACTIONAL), Refused;
        }
      }
      err, outcome := Stage(participants, journal);
      if err == None {
        var cleanupErr, finals := FinalizeAll(participants, journal);
        outcome := Committed(finals);
        err := if cleanupErr.Some? then Some(CleanupWarning(cleanupErr.value)) else None;
      }
    }
  }
}
