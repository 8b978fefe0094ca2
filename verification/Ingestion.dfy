/** One ingestion: the stages before indexing, the indexer call, and the job record that reports it. */
module Ingestion {
  import opened Wrappers
  import opened Activation

  datatype JobStatus = Running | Succeeded | Failed

  datatype Job = Job(id: string, status: JobStatus, documentID: string, chunkCount: nat, error: Option<Error>)

  /** What every collaborator outside the indexer answers during one ingestion. */
  datatype Stages = Stages(
    knowledgeBase: Option<Result<bool, Error>>,
    createJob: Option<Error>,
    updateJob: Option<Error>,
    contentBytes: nat,
    maxBytes: int,
    parse: Option<Error>,
    contextualize: Option<Error>,
    raptor: Option<Error>,
    embed: Option<Error>,
    chunks: nat,
    vectors: nat)

  const KNOWLEDGE_BASE_NOT_FOUND := Plain("knowledge base not found")
  const DOCUMENT_TOO_LARGE := Plain("document exceeds max size")
  const VECTOR_COUNT := Plain("embedding count does not match chunks")

  /** The first stage error before the indexer is called. */
  function StageFailure(st: Stages): Option<Error> {
    if st.maxBytes > 0 && st.contentBytes > st.maxBytes then Some(DOCUMENT_TOO_LARGE)
    else if st.parse.Some? then st.parse
    else if st.contextualize.Some? then st.contextualize
    else if st.raptor.Some? then st.raptor
    else if st.embed.Some? then st.embed
    else if st.vectors != st.chunks then Some(VECTOR_COUNT)
    else None
  }

  /** What `errors.As` binds: the first cleanup warning met on the way down, left to right. */
  function FirstWarning(e: Error): (r: Option<Error>)
    ensures r.Some? <==> HasCleanupWarning(e)
    ensures r.Some? ==> r.value.CleanupWarning?
    decreases e, 1
  {
    match e
    case Plain(_) => None
    case CleanupWarning(_) => Some(e)
    case Joined(parts) => FirstWarningOf(parts)
  }

  function FirstWarningOf(parts: seq<Error>): (r: Option<Error>)
    ensures r.Some? <==> exists i | 0 <= i < |parts| :: HasCleanupWarning(parts[i])
    ensures r.Some? ==> r.value.CleanupWarning?
    decreases parts, 0
  {
    if parts == [] then None
    else
      var rest := FirstWarningOf(parts[1..]);
      assert rest.Some? <==> exists i | 1 <= i < |parts| :: HasCleanupWarning(parts[i]) by {
        assert forall i | 1 <= i < |parts| :: parts[1..][i - 1] == parts[i];
      }
      if HasCleanupWarning(parts[0]) then FirstWarning(parts[0]) else rest
  }

  /** The warnings of one error come before those of the next. */
  lemma {:induction false} FirstWarningIsLeftmost(parts: seq<Error>, k: nat)
    requires k < |parts| && HasCleanupWarning(parts[k]) && forall i | 0 <= i < k :: !HasCleanupWarning(parts[i])
    ensures FirstWarning(Joined(parts)) == FirstWarning(parts[k])
  {
    if k > 0 { FirstWarningIsLeftmost(parts[1..], k - 1); }
  }

  /** What an accepted report leaves in the job's error. */
  function Recorded(report: Option<Error>): Option<Error> {
    if report == None then None else FirstWarning(report.value)
  }

  /** Whether the indexer's answer lets the job succeed. */
  predicate Accepted(report: Option<Error>) {
    report == None || HasCleanupWarning(report.value)
  }

  /** A job succeeds after everything was committed and finalized, and otherwise only if some error reported
      during a rollback carries a cleanup warning inside it. */
  lemma AcceptedExactlyWhen(n: nat, o: Outcome)
    requires Possible(n, o)
    ensures Accepted(Report(o)) <==>
            || o.Empty? || o.Committed?
            || (o.Delegated? && (o.err == None || HasCleanupWarning(o.err.value)))
            || (o.RolledBack? && AnyWarning(Some(o.cause), o.aborts))
  {
    ReportDecides(n, o);
  }

  const REMOTE_WARNING := CleanupWarning(Plain("remote"))

  /** An environment in which everything works except that the second participant answers its commit with a cleanup
      warning; aborts put back what was there. */
  function ForeignWarning(): Oracle {
    (calls: seq<Call>, phase: Phase, at: nat, content: Content, saved: seq<Content>) =>
      Reply(if phase == Committing && at == 1 then Some(REMOTE_WARNING) else None,
            if phase == Storing then content + ["document"]
            else if phase == Aborting && saved != [] then saved[|saved| - 1]
            else content)
  }

  /** In that environment two participants always end rolled back, and the report is accepted all the same. */
  lemma RollbackCanLookAccepted(o: Outcome)
    requires Possible(2, o) && !o.Refused? && Answered(ForeignWarning(), Trace(2, o))
    ensures o == RolledBack(Committing, 1, REMOTE_WARNING, [None, None])
    ensures Positions(Trace(2, o), Aborting) == [1, 0] && Positions(Trace(2, o), Finalizing) == []
    ensures Accepted(Report(o)) && Recorded(Report(o)) == Some(REMOTE_WARNING)
  {
    CommitsFail(o);
    AbortsWork(o);
    RolledBackMeansNone(2, o);
    assert DownFrom(2) == [1, 0];
    JoinAllKeepsWarnings(Some(o.cause), o.aborts);
    WarningInside(REMOTE_WARNING);
  }

  lemma WarningInside(w: Error)
    requires w.CleanupWarning?
    ensures JoinAll(Some(w), [None, None]) == Some(Joined([Joined([w])]))
    ensures FirstWarning(Joined([Joined([w])])) == Some(w)
  {
    var one: seq<Option<Error>>, none: seq<Option<Error>> := [None], [];
    var two: seq<Option<Error>> := [None, None];
    assert two[..1] == one && one[..0] == none;
    assert JoinAll(Some(w), one) == Some(Joined([w]));
    FirstWarningIsLeftmost([w], 0);
    FirstWarningIsLeftmost([Joined([w])], 0);
  }

  lemma CommittedIsNotAnswered(o: Outcome)
    requires Possible(2, o) && o.Committed?
    ensures !Answered(ForeignWarning(), Trace(2, o))
  {
    assert Trace(2, o)[5] == Call(Committing, 1, None);
    assert !AnsweredAt(ForeignWarning(), Trace(2, o), 5);
  }

  lemma CommitsFail(o: Outcome)
    requires Possible(2, o) && !o.Refused? && Answered(ForeignWarning(), Trace(2, o))
    ensures o.RolledBack? && o.failed == Committing && o.at == 1 && o.cause == REMOTE_WARNING
  {
    var trace := Trace(2, o);
    match o
    case Committed(_) => CommittedIsNotAnswered(o);
    case RolledBack(failed, at, cause, aborts) =>
      var k := |Forward(2, failed, at)|;
      assert trace[k] == Call(failed, at, Some(cause));
      assert AnsweredAt(ForeignWarning(), trace, k);
    case _ =>
  }

  lemma AbortsWork(o: Outcome)
    requires Possible(2, o) && o.RolledBack? && o.failed == Committing && o.at == 1
    requires Answered(ForeignWarning(), Trace(2, o))
    ensures o.aborts == [None, None]
  {
    var trace, k := Trace(2, o), |Forward(2, Committing, 1)| + 1;
    assert trace[k] == Call(Aborting, 1, o.aborts[0]) && trace[k + 1] == Call(Aborting, 0, o.aborts[1]);
    assert AnsweredAt(ForeignWarning(), trace, k) && AnsweredAt(ForeignWarning(), trace, k + 1);
  }

  class JobStore {
    var items: map<string, Job>

    constructor ()
      ensures items == map[]
    {
      items := map[];
    }
  }

  class Service {
    const jobs: JobStore?
    const indexer: CompositeIndexer

    constructor (jobs: JobStore?, indexer: CompositeIndexer)
      ensures this.jobs == jobs && this.indexer == indexer
    {
      this.jobs, this.indexer := jobs, indexer;
    }

    /** The job is returned as failed with the error, and stored so unless the update fails, when it stays running. */
    twostate predicate FailedWith(job: Option<Job>, jobID: string, err: Option<Error>, st: Stages)
      reads if jobs == null then {} else {jobs}
    {
      && job == Some(Job(jobID, Failed, "", 0, err))
      && (jobs != null ==>
            jobs.items == old(jobs.items)[jobID := if st.updateJob == None then job.value
                                                   else Job(jobID, Running, "", 0, None)])
    }

    /** The `fail` closure. */
    method Fail(job: Job, failure: Error, st: Stages) returns (failed: Job)
      modifies if jobs == null then {} else {jobs}
      ensures failed == job.(status := Failed, error := Some(failure))
      ensures jobs != null ==> jobs.items == if st.updateJob == None then old(jobs.items)[job.id := failed] else old(jobs.items)
    {
      failed := job.(status := Failed, error := Some(failure));
      if jobs != null && st.updateJob == None {
        jobs.items := jobs.items[job.id := failed];
      }
    }

    /** `outcome` is None when the indexer was never called. */
    method Ingest(jobID: string, documentID: string, st: Stages, journal: Journal)
      returns (job: Option<Job>, err: Option<Error>, ghost outcome: Option<Outcome>)
      modifies journal, NonNil(indexer.indexers), if jobs == null then {} else {jobs}
      ensures Answered(journal.oracle, old(journal.calls)) ==> Answered(journal.oracle, journal.calls)
      ensures outcome.Some? ==>
                (outcome.value.Refused? ==> exists p <- NonNil(indexer.indexers) :: !p.transactional)
      ensures outcome.Some? <==>
                && st.knowledgeBase in {None, Some(Ok(true))} && (jobs != null ==> st.createJob == None)
                && (st.maxBytes > 0 ==> st.contentBytes <= st.maxBytes)
                && st.parse == None && st.contextualize == None && st.raptor == None && st.embed == None
                && st.vectors == st.chunks
      ensures outcome == None ==>
                && err.Some? && journal.calls == old(journal.calls)
                && (forall p <- NonNil(indexer.indexers) :: p.content == old(p.content) && p.saved == old(p.saved))
      ensures match st.knowledgeBase {
                case Some(Err(e)) => err == Some(e) && job == None
                case Some(Ok(found)) => !found ==> err == Some(KNOWLEDGE_BASE_NOT_FOUND) && job == None
                case None => true
              }
      ensures st.knowledgeBase in {None, Some(Ok(true))} && jobs != null && st.createJob.Some? ==>
                err == st.createJob && job == None
      ensures job == None && err.Some? && outcome == None && jobs != null ==> jobs.items == old(jobs.items)
      ensures outcome == None && st.knowledgeBase in {None, Some(Ok(true))} && (jobs != null ==> st.createJob == None) ==>
                && FailedWith(job, jobID, err, st)
                && if st.maxBytes > 0 && st.contentBytes > st.maxBytes then err == Some(DOCUMENT_TOO_LARGE)
                   else if st.parse.Some? then err == st.parse
                   else if st.contextualize.Some? then err == st.contextualize
                   else if st.raptor.Some? then err == st.raptor
                   else if st.embed.Some? then err == st.embed
                   else err == Some(VECTOR_COUNT)
      ensures outcome.Some? ==>
                && Possible(|NonNil(indexer.indexers)|, outcome.value)
                && journal.calls == old(journal.calls) + Trace(|NonNil(indexer.indexers)|, outcome.value)
      ensures outcome.Some? && !Accepted(Report(outcome.value)) ==>
                err == Report(outcome.value) && FailedWith(job, jobID, err, st)
      ensures outcome.Some? && Accepted(Report(outcome.value)) ==>
                var done := Job(jobID, Succeeded, documentID, st.chunks, Recorded(Report(outcome.value)));
                if jobs == null then
                  err == None && job == Some(done)
                else if st.updateJob == None then
                  err == None && job == Some(done) && jobs.items == old(jobs.items)[jobID := done]
                else
                  && err == st.updateJob && job == None
                  && jobs.items == old(jobs.items)[jobID := Job(jobID, Running, "", 0, None)]
      ensures outcome.Some? && outcome.value.RolledBack? && UndoingAborts(journal.oracle) &&
              (outcome.value.failed == Storing ==> EffectFreeFailedStores(journal.oracle)) ==>
                forall p <- NonNil(indexer.indexers) :: p.content == old(p.content) && p.saved == old(p.saved)
    {
      hide Answered, Possible, Trace, Report, HasCleanupWarning, Recorded;
      match st.knowledgeBase {
        case Some(Err(e)) => return None, Some(e), None;
        case Some(Ok(found)) => if !found { return None, Some(KNOWLEDGE_BASE_NOT_FOUND), None; }
        case None =>
      }
      var current := Job(jobID, Running, "", 0, None);
      if jobs != null {
        if st.createJob.Some? {
          return None, st.createJob, None;
        }
        jobs.items := jobs.items[jobID := current];
      }
      var early := StageFailure(st);
      if early.Some? {
        current := Fail(current, early.value, st);
        return Some(current), early, None;
      }
      var report, o := indexer.Store(journal);
      if report.Some? && !HasCleanupWarning(report.value) {
        current := Fail(current, report.value, st);
        return Some(current), report, Some(o);
      }
      current := current.(status := Succeeded, documentID := documentID, chunkCount := st.chunks, error := Recorded(report));
      if jobs != null {
        if st.updateJob.Some? {
          return None, st.updateJob, Some(o);
        }
        jobs.items := jobs.items[jobID := current];
      }
      return Some(current), None, Some(o);
    }
  }

  /** The same run from beginning to end: the job is recorded as succeeded although no index holds the document. */
  method RolledBackJobSucceeds(jobID: string, documentID: string) returns (job: Option<Job>, first: Indexer, second: Indexer)
    ensures job.Some? && job.value.status == Succeeded && job.value.documentID == documentID
    ensures job.value.error == Some(REMOTE_WARNING)
    ensures first.content == [] && second.content == []
  {
    first := new Indexer(true);
    second := new Indexer(true);
    var journal := new Journal(ForeignWarning());
    var indexer := new CompositeIndexer([first, second]);
    var service := new Service(null, indexer);
    BothListed(first, second);
    var stages := Stages(None, None, None, 0, 0, None, None, None, None, 1, 1);
    var err: Option<Error>;
    ghost var outcome: Option<Outcome>;
    job, err, outcome := service.Ingest(jobID, documentID, stages, journal);
    assert [] + Trace(2, outcome.value) == Trace(2, outcome.value);
    RollbackCanLookAccepted(outcome.value);
  }

  lemma BothListed(first: Indexer, second: Indexer)
    ensures NonNil([first, second]) == [first, second]
  {
    var both: seq<Indexer?> := [first, second];
    var one: seq<Indexer?> := [first];
    assert both[..1] == one && one[..0] == [];
    assert NonNil(one) == NonNil([]) + [first];
    assert NonNil(both) == NonNil(one) + [second];
  }
}
