/** Resumable uploads: a session table and one growing file per session, under failing file operations. */
module Uploads {
  import opened Wrappers

  type Bytes = seq<bv8>

  datatype Status = Uploading | Completed | Canceled

  datatype Session = Session(id: string, tenantID: string, totalBytes: int, receivedBytes: int, status: Status, path: string)

  datatype Failure =
    | NotFound | AlreadyClosed | OffsetMismatch | TooLarge | Incomplete | SizeMismatch | FileError

  datatype Outcome = Done(session: Session) | Body(session: Session, body: Bytes) | Canceled_ | Refused(why: Failure)

  /** What the file system answers to one call. `written` is how many bytes of a chunk reached the file. */
  datatype CreateIO = CreateIO(mkdir: bool, open: bool, close: bool)
  datatype AppendIO = AppendIO(open: bool, written: nat, writeErr: bool, closeErr: bool)

  datatype Op =
    | Create(session: Session, freshID: string, create: CreateIO)
    | Append(tenantID: string, id: string, offset: int, chunk: Bytes, maxBytes: int, append: AppendIO)
    | Read(tenantID: string, id: string, readable: bool)
    | Complete(tenantID: string, id: string)
    | Cancel(tenantID: string, id: string, removed: bool)

  datatype State = State(sessions: map<string, Session>, files: map<string, Bytes>)

  const EMPTY := State(map[], map[])

  function FilePath(id: string): string { "orag-uploads/" + id + ".part" }

  function CreatedID(op: Op): string
    requires op.Create?
  {
    if op.session.id == "" then op.freshID else op.session.id
  }

  predicate Visible(st: State, tenantID: string, id: string) {
    id in st.sessions && st.sessions[id].tenantID == tenantID && st.sessions[id].status != Canceled
  }

  function Written(op: Op): nat
    requires op.Append?
  {
    if op.append.written > |op.chunk| then |op.chunk| else op.append.written
  }

  // ---------- the specification of one call ----------

  function Step(st: State, op: Op): (State, Outcome) {
    match op
    case Create(_, _, _) => StepCreate(st, op)
    case Append(_, _, _, _, _, _) => StepAppend(st, op)
    case Read(tenantID, id, readable) => (st, ReadOutcome(st, tenantID, id, readable))
    case Complete(tenantID, id) =>
      if !Visible(st, tenantID, id) then (st, Refused(NotFound))
      else
        var done := st.sessions[id].(status := Completed);
        (st.(sessions := st.sessions[id := done]), Done(done))
    case Cancel(tenantID, id, removed) =>
      if !Visible(st, tenantID, id) then (st, Refused(NotFound))
      else
        var s := st.sessions[id];
        (State(st.sessions[id := s.(status := Canceled)], if removed then st.files - {s.path} else st.files),
         if removed && s.path in st.files then Canceled_ else Refused(FileError))
  }

  function StepCreate(st: State, op: Op): (State, Outcome)
    requires op.Create?
  {
    var path := FilePath(CreatedID(op));
    if !op.create.mkdir || !op.create.open || path in st.files then (st, Refused(FileError))
    else
      var made := st.(files := st.files[path := []]);
      if !op.create.close then (made, Refused(FileError))
      else
        var s := op.session.(id := CreatedID(op), status := Uploading, path := path);
        (made.(sessions := made.sessions[s.id := s]), Done(s))
  }

  /** The checks an append makes before it touches the file. */
  function AppendRefusal(st: State, op: Op): Option<Failure>
    requires op.Append?
  {
    if !Visible(st, op.tenantID, op.id) then Some(NotFound)
    else
      var s := st.sessions[op.id];
      if s.status != Uploading then Some(AlreadyClosed)
      else if op.offset != s.receivedBytes then Some(OffsetMismatch)
      else if s.totalBytes > 0 && s.receivedBytes + |op.chunk| > s.totalBytes then Some(TooLarge)
      else if op.maxBytes > 0 && s.receivedBytes + |op.chunk| > op.maxBytes then Some(TooLarge)
      else if !op.append.open || s.path !in st.files then Some(FileError)
      else None
  }

  predicate Acknowledged(st: State, op: Op) {
    && op.Append? && AppendRefusal(st, op) == None
    && !op.append.writeErr && !op.append.closeErr && Written(op) == |op.chunk|
  }

  function StepAppend(st: State, op: Op): (State, Outcome)
    requires op.Append?
  {
    var refusal := AppendRefusal(st, op);
    if refusal.Some? then (st, Refused(refusal.value))
    else
      var s := st.sessions[op.id];
      var grown := st.(files := st.files[s.path := st.files[s.path] + op.chunk[..Written(op)]]);
      if !Acknowledged(st, op) then (grown, Refused(FileError))
      else
        var next := s.(receivedBytes := s.receivedBytes + |op.chunk|);
        (grown.(sessions := grown.sessions[op.id := next]), Done(next))
  }

  function ReadOutcome(st: State, tenantID: string, id: string, readable: bool): Outcome {
    if !Visible(st, tenantID, id) then Refused(NotFound)
    else
      var s := st.sessions[id];
      if s.status != Uploading then Refused(AlreadyClosed)
      else if s.totalBytes > 0 && s.receivedBytes != s.totalBytes then Refused(Incomplete)
      else if !readable || s.path !in st.files then Refused(FileError)
      else if |st.files[s.path]| != s.receivedBytes then Refused(SizeMismatch)
      else Body(s, st.files[s.path])
  }

  // ---------- every answer in terms of the session and the call ----------

  /** A session of another tenant, a canceled one and a missing one look the same to every call and stay untouched. */
  lemma NotFoundExactlyWhen(st: State, op: Op)
    requires !op.Create?
    ensures Step(st, op).1 == Refused(NotFound) <==>
            op.id !in st.sessions || st.sessions[op.id].tenantID != op.tenantID || st.sessions[op.id].status == Canceled
    ensures Step(st, op).1 == Refused(NotFound) ==> Step(st, op).0 == st
  {
  }

  /** Each refusal of an append has its own condition, and a chunk is acknowledged exactly when none applies and all of
      it reached the file. */
  lemma AppendAnswers(st: State, op: Op)
    requires op.Append? && Step(st, op).1 != Refused(NotFound)
    ensures op.id in st.sessions
    ensures var s, r, after := st.sessions[op.id], Step(st, op).1, Step(st, op).0;
            var total := s.receivedBytes + |op.chunk|;
            var fits := (s.totalBytes <= 0 || total <= s.totalBytes) && (op.maxBytes <= 0 || total <= op.maxBytes);
            var reached := if op.append.written >= |op.chunk| then op.chunk else op.chunk[..op.append.written];
            && (r == Refused(AlreadyClosed) <==> s.status == Completed)
            && (r == Refused(OffsetMismatch) <==> s.status == Uploading && op.offset != s.receivedBytes)
            && (r == Refused(TooLarge) <==> s.status == Uploading && op.offset == s.receivedBytes && !fits)
            && (r.Done? <==>
                  && s.status == Uploading && op.offset == s.receivedBytes && fits
                  && op.append.open && s.path in st.files
                  && op.append.written >= |op.chunk| && !op.append.writeErr && !op.append.closeErr)
            && (r.Done? ==>
                  && r.session == s.(receivedBytes := total)
                  && after == State(st.sessions[op.id := r.session], st.files[s.path := st.files[s.path] + op.chunk]))
            && (!r.Done? ==>
                  && after.sessions == st.sessions
                  && if r == Refused(FileError) && op.append.open && s.path in st.files
                     then after.files == st.files[s.path := st.files[s.path] + reached]
                     else after.files == st.files)
  {
    assert op.chunk[..|op.chunk|] == op.chunk;
  }

  lemma CreateAnswers(st: State, op: Op)
    requires op.Create?
    ensures var id := if op.session.id == "" then op.freshID else op.session.id;
            var path := "orag-uploads/" + id + ".part"; var after, r := Step(st, op).0, Step(st, op).1;
            if op.create.mkdir && op.create.open && path !in st.files then
              && after.files == st.files[path := []]
              && if op.create.close then
                   var s := Session(id, op.session.tenantID, op.session.totalBytes, op.session.receivedBytes, Uploading, path);
                   r == Done(s) && after.sessions == st.sessions[id := s]
                 else r == Refused(FileError) && after.sessions == st.sessions
            else r == Refused(FileError) && after == st
  {
  }

  /** Completing and canceling change the one status; canceling also drops the file, and says when it could not. */
  lemma ClosingAnswers(st: State, op: Op)
    requires (op.Complete? || op.Cancel?) && Step(st, op).1 != Refused(NotFound)
    ensures op.id in st.sessions
    ensures var s, r, after := st.sessions[op.id], Step(st, op).1, Step(st, op).0;
            if op.Complete? then
              r == Done(s.(status := Completed)) && after == st.(sessions := st.sessions[op.id := r.session])
            else
              && after.sessions == st.sessions[op.id := s.(status := Canceled)]
              && after.files == (if op.removed then st.files - {s.path} else st.files)
              && r == if op.removed && s.path in st.files then Canceled_ else Refused(FileError)
  {
  }

  // ---------- runs ----------

  function Run(ops: seq<Op>): State {
    if ops == [] then EMPTY else Step(Run(ops[..|ops| - 1]), ops[|ops| - 1]).0
  }

  ghost predicate Creates(st: State, op: Op, id: string) {
    op.Create? && CreatedID(op) == id && Step(st, op).1.Done?
  }

  /** The acknowledged chunks of the session currently called `id`, in order. */
  ghost function Acked(ops: seq<Op>, id: string): Bytes {
    if ops == [] then []
    else
      var front, last := ops[..|ops| - 1], ops[|ops| - 1];
      if Creates(Run(front), last, id) then []
      else if Acknowledged(Run(front), last) && last.id == id then Acked(front, id) + last.chunk
      else Acked(front, id)
  }

  /** The byte count the session was created with; callers leave it zero. */
  ghost function Start(ops: seq<Op>, id: string): int {
    if ops == [] then 0
    else
      var front, last := ops[..|ops| - 1], ops[|ops| - 1];
      if Creates(Run(front), last, id) then last.session.receivedBytes else Start(front, id)
  }

  ghost predicate Kept(ops: seq<Op>, id: string) {
    var st := Run(ops);
    id in st.sessions ==>
      var s := st.sessions[id];
      && s.id == id && s.path == FilePath(id)
      && s.receivedBytes == Start(ops, id) + |Acked(ops, id)|
      && (s.totalBytes > 0 && Start(ops, id) <= s.totalBytes ==> s.receivedBytes <= s.totalBytes)
      && (s.status != Canceled ==> s.path in st.files)
      && (s.status != Canceled ==> |st.files[s.path]| >= |Acked(ops, id)|)
      && (s.status != Canceled && |st.files[s.path]| == |Acked(ops, id)| ==> st.files[s.path] == Acked(ops, id))
  }

  lemma {:induction false} EveryRunKeeps(ops: seq<Op>, id: string)
    ensures Kept(ops, id)
  {
    if ops != [] {
      var front, op := ops[..|ops| - 1], ops[|ops| - 1];
      EveryRunKeeps(front, id);
      PathsDiffer();
      match op
      case Create(_, _, _) => CreateKeeps(ops, id);
      case Append(_, other, _, _, _, _) =>
        EveryRunKeeps(front, other);
        AppendKeeps(ops, id);
      case Read(_, _, _) =>
      case Complete(_, _) =>
      case Cancel(_, other, _) =>
        if other != id && Visible(Run(front), op.tenantID, other) { EveryRunKeeps(front, other); }
    }
  }

  lemma PathsDiffer()
    ensures forall a, b :: FilePath(a) == FilePath(b) ==> a == b
  {
    forall a, b | FilePath(a) == FilePath(b) ensures a == b {
      var prefix := "orag-uploads/";
      assert FilePath(a)[|prefix|..|FilePath(a)| - 5] == a;
      assert FilePath(b)[|prefix|..|FilePath(b)| - 5] == b;
    }
  }

  lemma CreateKeeps(ops: seq<Op>, id: string)
    requires ops != [] && ops[|ops| - 1].Create? && Kept(ops[..|ops| - 1], id)
    ensures Kept(ops, id)
  {
    PathsDiffer();
  }

  lemma AppendKeeps(ops: seq<Op>, id: string)
    requires ops != [] && ops[|ops| - 1].Append? && Kept(ops[..|ops| - 1], id) && Kept(ops[..|ops| - 1], ops[|ops| - 1].id)
    ensures Kept(ops, id)
  {
    PathsDiffer();
  }

  /** The file behind `id` has at least the bytes its session claims. */
  predicate Covers(st: State, id: string)
    requires id in st.sessions
  {
    var s := st.sessions[id];
    s.path in st.files && |st.files[s.path]| >= s.receivedBytes
  }

  /** The file of an open or completed session that did not start above zero is never shorter than what the session
      claims to have received, and that never exceeds a declared positive size. */
  lemma FileCoversReceived(ops: seq<Op>, id: string)
    requires id in Run(ops).sessions && Start(ops, id) <= 0
    ensures var s := Run(ops).sessions[id];
            && s.receivedBytes == Start(ops, id) + |Acked(ops, id)|
            && (s.status != Canceled ==> Covers(Run(ops), id))
            && (s.totalBytes > 0 ==> s.receivedBytes <= s.totalBytes)
  {
    EveryRunKeeps(ops, id);
  }

  /** In any run, a new session is covered by its file if and only if it was not created with a positive byte count. */
  lemma CreationCoversExactlyWhen(ops: seq<Op>, id: string)
    requires ops != [] && Creates(Run(ops[..|ops| - 1]), ops[|ops| - 1], id)
    ensures id in Run(ops).sessions && (Covers(Run(ops), id) <==> Start(ops, id) <= 0)
  {
  }

  /** A read succeeds if and only if the session is open, everything it declared was acknowledged and no failed write
      left anything else in its file; it then returns the acknowledged chunks. */
  lemma ReadSucceedsExactlyWhen(ops: seq<Op>, tenantID: string, id: string, readable: bool)
    requires Start(ops, id) == 0
    ensures var st := Run(ops); var r := ReadOutcome(st, tenantID, id, readable);
            && (r.Body? <==>
                  && id in st.sessions && st.sessions[id].tenantID == tenantID && st.sessions[id].status == Uploading
                  && readable
                  && (st.sessions[id].totalBytes > 0 ==> |Acked(ops, id)| == st.sessions[id].totalBytes)
                  && FilePath(id) in st.files && st.files[FilePath(id)] == Acked(ops, id))
            && (r.Body? ==> r.body == Acked(ops, id))
  {
    EveryRunKeeps(ops, id);
  }

  ghost predicate NeverCreates(ops: seq<Op>, since: nat, id: string)
    requires since <= |ops|
  {
    forall i | since <= i < |ops| :: !Creates(Run(ops[..i]), ops[i], id)
  }

  lemma RunStep(ops: seq<Op>, k: nat)
    requires k < |ops|
    ensures Run(ops[..k + 1]) == Step(Run(ops[..k]), ops[k]).0
  {
    assert ops[..k + 1][..k] == ops[..k];
  }

  /** `b` is a later state of session `a` under the same ID. */
  ghost predicate Advances(a: Session, b: Session) {
    && a.receivedBytes <= b.receivedBytes && a.tenantID == b.tenantID
    && (a.status == Canceled ==> b.status == Canceled)
    && (a.status != Uploading ==> b.status != Uploading)
  }

  lemma StepAdvances(st: State, op: Op, id: string)
    requires !Creates(st, op, id) && id in st.sessions
    ensures id in Step(st, op).0.sessions && Advances(st.sessions[id], Step(st, op).0.sessions[id])
  {
  }

  /** Until an ID is created again its byte counter only grows and a canceled session stays canceled. */
  lemma {:induction false} SessionsOnlyAdvance(ops: seq<Op>, since: nat, until: nat, id: string)
    requires since <= until <= |ops| && NeverCreates(ops, since, id) && id in Run(ops[..since]).sessions
    ensures id in Run(ops[..until]).sessions
    ensures Advances(Run(ops[..since]).sessions[id], Run(ops[..until]).sessions[id])
    decreases until
  {
    if since < until {
      SessionsOnlyAdvance(ops, since, until - 1, id);
      RunStep(ops, until - 1);
      StepAdvances(Run(ops[..until - 1]), ops[until - 1], id);
    }
  }

  /** Replaying an acknowledged nonempty chunk, at once or at any later time, changes nothing. */
  lemma ReplayChangesNothing(ops: seq<Op>, at: nat, later: nat)
    requires at < later <= |ops| && Acknowledged(Run(ops[..at]), ops[at]) && ops[at].chunk != []
    requires NeverCreates(ops, at, ops[at].id)
    ensures Step(Run(ops[..later]), ops[at]).0 == Run(ops[..later])
    ensures Step(Run(ops[..later]), ops[at]).1 in {Refused(OffsetMismatch), Refused(AlreadyClosed), Refused(NotFound)}
  {
    RunStep(ops, at);
    SessionsOnlyAdvance(ops, at + 1, later, ops[at].id);
  }

  /** Canceled is terminal: no call brings the session back or touches it, unless its ID is created again. */
  lemma CanceledIsTerminal(ops: seq<Op>, since: nat, until: nat, id: string, op: Op)
    requires since <= until <= |ops| && NeverCreates(ops, since, id)
    requires id in Run(ops[..since]).sessions && Run(ops[..since]).sessions[id].status == Canceled
    requires !op.Create? && op.id == id
    ensures Step(Run(ops[..until]), op) == (Run(ops[..until]), Refused(NotFound))
  {
    SessionsOnlyAdvance(ops, since, until, id);
  }

  /** Creating a canceled ID again reopens it exactly when its file is gone and the file system plays along. */
  lemma CanceledReopensExactlyWhen(st: State, op: Op)
    requires op.Create? && CreatedID(op) in st.sessions && st.sessions[CreatedID(op)].status == Canceled
    ensures Step(st, op).0.sessions[CreatedID(op)].status == Uploading <==>
            FilePath(CreatedID(op)) !in st.files && op.create == CreateIO(true, true, true)
  {
  }

  // ---------- the program ----------

  class MemoryUploadStore {
    var sessions: map<string, Session>
    var files: map<string, Bytes>

    constructor ()
      ensures Contents() == EMPTY
    {
      sessions, files := map[], map[];
    }

    ghost function Contents(): State
      reads this
    {
      State(sessions, files)
    }

    method CreateUpload(session: Session, freshID: string, io: CreateIO) returns (r: Outcome)
      modifies this
      ensures (Contents(), r) == Step(old(Contents()), Create(session, freshID, io))
    {
      if !io.mkdir {
        return Refused(FileError);
      }
      var id := if session.id == "" then freshID else session.id;
      var path := FilePath(id);
      if !io.open || path in files {
        return Refused(FileError);
      }
      files := files[path := []];
      if !io.close {
        return Refused(FileError);
      }
      var made := session.(id := id, status := Uploading, path := path);
      sessions := sessions[id := made];
      return Done(made);
    }

    method AppendUpload(tenantID: string, id: string, offset: int, chunk: Bytes, maxBytes: int, io: AppendIO) returns (r: Outcome)
      modifies this
      ensures (Contents(), r) == Step(old(Contents()), Append(tenantID, id, offset, chunk, maxBytes, io))
    {
      if id !in sessions || sessions[id].tenantID != tenantID || sessions[id].status == Canceled {
        return Refused(NotFound);
      }
      var session := sessions[id];
      if session.status != Uploading {
        return Refused(AlreadyClosed);
      }
      if offset != session.receivedBytes {
        return Refused(OffsetMismatch);
      }
      if session.totalBytes > 0 && session.receivedBytes + |chunk| > session.totalBytes {
        return Refused(TooLarge);
      }
      if maxBytes > 0 && session.receivedBytes + |chunk| > maxBytes {
        return Refused(TooLarge);
      }
      if !io.open || session.path !in files {
        return Refused(FileError);
      }
      var written := if io.written > |chunk| then |chunk| else io.written;
      files := files[session.path := files[session.path] + chunk[..written]];
      if io.writeErr || io.closeErr || written != |chunk| {
        return Refused(FileError);
      }
      session := session.(receivedBytes := session.receivedBytes + written);
      sessions := sessions[id := session];
      return Done(session);
    }

    method ReadUpload(tenantID: string, id: string, readable: bool) returns (r: Outcome)
      ensures (Contents(), r) == Step(Contents(), Read(tenantID, id, readable))
    {
      if id !in sessions || sessions[id].tenantID != tenantID || sessions[id].status == Canceled {
        return Refused(NotFound);
      }
      var session := sessions[id];
      if session.status != Uploading {
        return Refused(AlreadyClosed);
      }
      if session.totalBytes > 0 && session.receivedBytes != session.totalBytes {
        return Refused(Incomplete);
      }
      if !readable || session.path !in files {
        return Refused(FileError);
      }
      var body := files[session.path];
      if |body| != session.receivedBytes {
        return Refused(SizeMismatch);
      }
      return Body(session, body);
    }

    method CompleteUpload(tenantID: string, id: string) returns (r: Outcome)
      modifies this`sessions
      ensures (Contents(), r) == Step(old(Contents()), Complete(tenantID, id))
    {
      if id !in sessions || sessions[id].tenantID != tenantID || sessions[id].status == Canceled {
        return Refused(NotFound);
      }
      var session := sessions[id];
      if session.status == Completed {
        assert sessions == sessions[id := session];
        return Done(session);
      }
      session := session.(status := Completed);
      sessions := sessions[id := session];
      return Done(session);
    }

    method CancelUpload(tenantID: string, id: string, removed: bool) returns (r: Outcome)
      modifies this
      ensures (Contents(), r) == Step(old(Contents()), Cancel(tenantID, id, removed))
    {
      if id !in sessions || sessions[id].tenantID != tenantID || sessions[id].status == Canceled {
        return Refused(NotFound);
      }
      var session := sessions[id].(status := Canceled);
      sessions := sessions[id := session];
      if !removed || session.path !in files {
        if removed { assert files - {session.path} == files; }
        return Refused(FileError);
      }
      files := files - {session.path};
      return Canceled_;
    }
  }
}
