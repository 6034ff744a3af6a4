// The grading-job queue: the submissions and grading_jobs tables, each
// transaction one atomic step, run by any number of web and grader processes.
module GradingQueue {
  import opened Bytes

  type Id = nat
  type Token = string
  type Time = int                      // seconds

  const LEASE := 600                   // ten minutes

  datatype Status = Queued | Grading | Finished

  // The columns complete_submission writes and a requeue clears.
  datatype Outcome = Outcome(verdict: string, failedCase: Option<int>, message: string,
    timeUsed: nat, memoryUsed: nat, score: real, compilerOutput: Option<string>)

  datatype Submission = Submission(code: Option<string>, outcome: Option<Outcome>, subtaskResults: Option<string>)

  datatype Job = Job(status: Status, claimedAt: Option<Time>, claimToken: Option<Token>, attempts: nat)

  // `lastId` is what AUTOINCREMENT remembers.
  datatype Db = Db(lastId: nat, submissions: map<Id, Submission>, jobs: map<Id, Job>)

  const EMPTY := Db(0, map[], map[])

  const WAITING := Job(Queued, None, None, 0)

  function Released(j: Job): Job { j.(status := Queued, claimedAt := None, claimToken := None) }

  // ----- the transactions -----

  function Enqueued(db: Db, code: Option<string>): Db
  {
    var id := db.lastId + 1;
    Db(id, db.submissions[id := Submission(code, None, None)], db.jobs[id := WAITING])
  }

  predicate IsExpired(j: Job, now: Time)
  {
    j.status == Grading && j.claimedAt.Some? && j.claimedAt.value < now - LEASE
  }

  // UPDATE ... WHERE status='grading' AND claimed_at < ten minutes ago
  function WithExpired(jobs: map<Id, Job>, now: Time): (r: map<Id, Job>)
    ensures r.Keys == jobs.Keys
  {
    map id | id in jobs :: if IsExpired(jobs[id], now) then Released(jobs[id]) else jobs[id]
  }

  predicate Claimable(db: Db, jobs: map<Id, Job>, id: Id)
  {
    id in jobs && jobs[id].status == Queued && id in db.submissions && db.submissions[id].code.Some?
  }

  // SELECT ... WHERE status='queued' AND code IS NOT NULL ORDER BY submission_id LIMIT 1
  function FirstClaimable(db: Db, jobs: map<Id, Job>, from: Id): (r: Option<Id>)
    requires from <= db.lastId + 1
    ensures r.Some? ==> from <= r.value <= db.lastId && Claimable(db, jobs, r.value)
    ensures r.Some? ==> forall i :: from <= i < r.value ==> !Claimable(db, jobs, i)
    ensures r.None? ==> forall i :: from <= i <= db.lastId ==> !Claimable(db, jobs, i)
    decreases db.lastId + 1 - from
  {
    if from > db.lastId then None
    else if Claimable(db, jobs, from) then Some(from)
    else FirstClaimable(db, jobs, from + 1)
  }

  // The submission a claim at `now` takes.
  function Candidate(db: Db, now: Time): Option<Id>
  {
    FirstClaimable(db, WithExpired(db.jobs, now), 0)
  }

  // Without a candidate the transaction is rolled back, expiry included.
  function Claimed(db: Db, token: Token, now: Time): Db
  {
    match Candidate(db, now)
    case None => db
    case Some(id) =>
      var jobs := WithExpired(db.jobs, now);
      var j := jobs[id];
      db.(jobs := jobs[id := Job(Grading, Some(now), Some(token), j.attempts + 1)])
  }

  predicate Completes(db: Db, id: Id, token: Token)
  {
    id in db.jobs && db.jobs[id].status == Grading && db.jobs[id].claimToken == Some(token)
  }

  // An empty text is stored as NULL.
  function NoneIfEmpty(t: string): Option<string> { if t == "" then None else Some(t) }

  function Completed(db: Db, id: Id, token: Token, outcome: Outcome, subtasks: string): Db
  {
    if !Completes(db, id, token) then db
    else
      db.(jobs := db.jobs[id := db.jobs[id].(status := Finished, claimedAt := None, claimToken := None)],
          submissions := if id !in db.submissions then db.submissions else
            db.submissions[id := db.submissions[id].(
              outcome := Some(outcome), subtaskResults := NoneIfEmpty(subtasks))])
  }

  predicate Requeues(db: Db, id: Id) { id in db.jobs && db.jobs[id].status != Queued }

  // First statement of requeue_submission.
  function JobRequeued(db: Db, id: Id): Db
  {
    if Requeues(db, id) then db.(jobs := db.jobs[id := Released(db.jobs[id])]) else db
  }

  // Second statement of requeue_submission; subtask_results is left alone.
  function OutcomeCleared(db: Db, id: Id): Db
  {
    if id in db.submissions then db.(submissions := db.submissions[id := db.submissions[id].(outcome := None)])
    else db
  }

  // ----- the tables as the processes share them -----

  class Tables {
    var lastId: nat
    var submissions: map<Id, Submission>
    var jobs: map<Id, Job>

    function Contents(): Db
      reads this
    {
      Db(lastId, submissions, jobs)
    }

    constructor ()
      ensures Contents() == EMPTY
    {
      lastId, submissions, jobs := 0, map[], map[];
    }

    method EnqueueSubmission(code: Option<string>) returns (id: Id)
      modifies this
      ensures Contents() == Enqueued(old(Contents()), code) && id == lastId == old(lastId) + 1
    {
      id := lastId + 1;
      lastId := id;
      submissions := submissions[id := Submission(code, None, None)];
      jobs := jobs[id := WAITING];
    }

    method ClaimSubmission(token: Token, now: Time) returns (id: Option<Id>)
      modifies this
      ensures Contents() == Claimed(old(Contents()), token, now) && id == Candidate(old(Contents()), now)
    {
      var saved := jobs;
      jobs := WithExpired(jobs, now);
      id := FirstClaimable(Contents(), jobs, 0);
      FirstClaimableSame(Contents(), old(Contents()), jobs, 0);
      if id.None? {
        jobs := saved;
        return;
      }
      jobs := jobs[id.value := Job(Grading, Some(now), Some(token), jobs[id.value].attempts + 1)];
    }

    method CompleteSubmission(id: Id, token: Token, outcome: Outcome, subtasks: string) returns (ok: bool)
      modifies this
      ensures Contents() == Completed(old(Contents()), id, token, outcome, subtasks)
      ensures ok <==> Completes(old(Contents()), id, token)
    {
      if id !in jobs || jobs[id].claimToken != Some(token) || jobs[id].status != Grading { return false; }
      jobs := jobs[id := jobs[id].(status := Finished, claimedAt := None, claimToken := None)];
      if id in submissions {
        submissions := submissions[id := submissions[id].(
          outcome := Some(outcome), subtaskResults := NoneIfEmpty(subtasks))];
      }
      ok := true;
    }

    // The two statements are separate transactions: `changed` tells whether the
    // caller goes on to the second.
    method RequeueJob(id: Id) returns (changed: bool)
      modifies this
      ensures Contents() == JobRequeued(old(Contents()), id) && (changed <==> Requeues(old(Contents()), id))
    {
      changed := id in jobs && (jobs[id].status == Finished || jobs[id].status == Grading);
      if changed { jobs := jobs[id := Released(jobs[id])]; }
    }

    method ClearOutcome(id: Id)
      modifies this
      ensures Contents() == OutcomeCleared(old(Contents()), id)
    {
      if id in submissions { submissions := submissions[id := submissions[id].(outcome := None)]; }
    }
  }

  // Only the submissions and the id bound matter to the choice.
  lemma {:induction false} FirstClaimableSame(db: Db, other: Db, jobs: map<Id, Job>, from: Id)
    requires db.lastId == other.lastId && db.submissions == other.submissions && from <= db.lastId + 1
    ensures FirstClaimable(db, jobs, from) == FirstClaimable(other, jobs, from)
    decreases db.lastId + 1 - from
  {
    if from <= db.lastId { FirstClaimableSame(db, other, jobs, from + 1); }
  }

  // ----- runs -----

  // A step some process takes. ClearOutcome is the second half of a requeue
  // whose first half changed a row.
  datatype Step =
    | Enqueue(code: Option<string>)
    | Claim(token: Token, now: Time)
    | Complete(id: Id, token: Token, outcome: Outcome, subtasks: string)
    | RequeueJob(id: Id)
    | ClearOutcome(id: Id)

  // What a step committed.
  datatype Mark =
    | DidEnqueue(id: Id, code: Option<string>)
    | DidExpire(id: Id)
    | DidClaim(id: Id, token: Token, at: Time)
    | DidComplete(id: Id, token: Token, outcome: Outcome, subtasks: string)
    | DidRequeue(id: Id)
    | DidClear(id: Id)

  // The tables, the requeues between their two statements, and all marks so far.
  datatype World = World(db: Db, halfway: multiset<Id>, log: seq<Mark>)

  const START := World(EMPTY, multiset{}, [])

  function ExpiryMarks(db: Db, now: Time, below: Id): (r: seq<Mark>)
    ensures forall k :: 0 <= k < |r| ==>
      r[k].DidExpire? && r[k].id < below && r[k].id in db.jobs && IsExpired(db.jobs[r[k].id], now)
  {
    if below == 0 then []
    else
      ExpiryMarks(db, now, below - 1) +
      if below - 1 in db.jobs && IsExpired(db.jobs[below - 1], now) then [DidExpire(below - 1)] else []
  }

  function Marks(db: Db, halfway: multiset<Id>, step: Step): seq<Mark>
  {
    match step
    case Enqueue(code) => [DidEnqueue(db.lastId + 1, code)]
    case Claim(token, now) =>
      (match Candidate(db, now)
       case None => []
       case Some(id) => ExpiryMarks(db, now, db.lastId + 1) + [DidClaim(id, token, now)])
    case Complete(id, token, outcome, subtasks) =>
      if Completes(db, id, token) then [DidComplete(id, token, outcome, subtasks)] else []
    case RequeueJob(id) => if Requeues(db, id) then [DidRequeue(id)] else []
    case ClearOutcome(id) => if id in halfway then [DidClear(id)] else []
  }

  function After(db: Db, halfway: multiset<Id>, step: Step): Db
  {
    match step
    case Enqueue(code) => Enqueued(db, code)
    case Claim(token, now) => Claimed(db, token, now)
    case Complete(id, token, outcome, subtasks) => Completed(db, id, token, outcome, subtasks)
    case RequeueJob(id) => JobRequeued(db, id)
    case ClearOutcome(id) => if id in halfway then OutcomeCleared(db, id) else db
  }

  function HalfwayAfter(db: Db, halfway: multiset<Id>, step: Step): multiset<Id>
  {
    match step
    case RequeueJob(id) => if Requeues(db, id) then halfway + multiset{id} else halfway
    case ClearOutcome(id) => halfway - multiset{id}
    case _ => halfway
  }

  function Next(w: World, step: Step): World
  {
    World(After(w.db, w.halfway, step), HalfwayAfter(w.db, w.halfway, step), w.log + Marks(w.db, w.halfway, step))
  }

  function Run(w: World, steps: seq<Step>): World
    decreases |steps|
  {
    if steps == [] then w else Run(Next(w, steps[0]), steps[1..])
  }

  // ----- what the log says about a submission -----

  // The claim the latest relevant mark leaves standing.
  function Holder(log: seq<Mark>, id: Id): Option<(Token, Time)>
  {
    if log == [] then None
    else
      var m := log[|log| - 1];
      if m.id != id || m.DidClear? then Holder(log[..|log| - 1], id)
      else if m.DidClaim? then Some((m.token, m.at))
      else None
  }

  function Phase(log: seq<Mark>, id: Id): Status
  {
    if log == [] then Queued
    else
      var m := log[|log| - 1];
      if m.id != id || m.DidClear? then Phase(log[..|log| - 1], id)
      else if m.DidClaim? then Grading
      else if m.DidComplete? then Finished
      else Queued
  }

  function Stored(log: seq<Mark>, id: Id): Option<Outcome>
  {
    if log == [] then None
    else
      var m := log[|log| - 1];
      if m.id == id && m.DidComplete? then Some(m.outcome)
      else if m.id == id && m.DidClear? then None
      else Stored(log[..|log| - 1], id)
  }

  function Code(log: seq<Mark>, id: Id): Option<string>
  {
    if log == [] then None
    else if log[|log| - 1].id == id && log[|log| - 1].DidEnqueue? then log[|log| - 1].code
    else Code(log[..|log| - 1], id)
  }

  // The subtask results: those of the last completion, which nothing clears.
  function Tasks(log: seq<Mark>, id: Id): Option<string>
  {
    if log == [] then None
    else
      var m := log[|log| - 1];
      if m.id == id && m.DidComplete? then NoneIfEmpty(m.subtasks) else Tasks(log[..|log| - 1], id)
  }

  function Claims(log: seq<Mark>, id: Id): nat
  {
    if log == [] then 0
    else
      Claims(log[..|log| - 1], id) + if log[|log| - 1].id == id && log[|log| - 1].DidClaim? then 1 else 0
  }

  // The job row the log calls for.
  function JobOf(log: seq<Mark>, id: Id): Job
  {
    var holder := Holder(log, id);
    Job(Phase(log, id),
        if holder.Some? then Some(holder.value.1) else None,
        if holder.Some? then Some(holder.value.0) else None,
        Claims(log, id))
  }

  // And the submission row.
  function SubmissionOf(log: seq<Mark>, id: Id): Submission
  {
    Submission(Code(log, id), Stored(log, id), Tasks(log, id))
  }

  ghost predicate Numbered<T>(m: map<Id, T>, last: nat) { forall i :: i in m <==> 1 <= i <= last }

  // Every row is what the log calls for; each submission has exactly one job.
  ghost predicate Recorded(w: World)
  {
    && Numbered(w.db.submissions, w.db.lastId) && Numbered(w.db.jobs, w.db.lastId)
    && (forall i :: i in w.halfway ==> 1 <= i <= w.db.lastId)
    && (forall k :: 0 <= k < |w.log| ==> 1 <= w.log[k].id <= w.db.lastId)
    && (forall i :: i in w.db.jobs ==> w.db.jobs[i] == JobOf(w.log, i))
    && (forall i :: i in w.db.submissions ==> w.db.submissions[i] == SubmissionOf(w.log, i))
  }

  // What a mark does to the row of its submission.
  function Marked(s: Submission, m: Mark): Submission
  {
    match m
    case DidEnqueue(_, code) => s.(code := code)
    case DidComplete(_, _, outcome, subtasks) => s.(outcome := Some(outcome), subtaskResults := NoneIfEmpty(subtasks))
    case DidClear(_) => s.(outcome := None)
    case _ => s
  }

  lemma JobOfAppend(log: seq<Mark>, m: Mark, id: Id)
    ensures JobOf(log + [m], id) ==
            if m.id != id || m.DidClear? then JobOf(log, id)
            else if m.DidClaim? then Job(Grading, Some(m.at), Some(m.token), JobOf(log, id).attempts + 1)
            else if m.DidComplete? then Job(Finished, None, None, JobOf(log, id).attempts)
            else Released(JobOf(log, id))
    ensures SubmissionOf(log + [m], id) ==
            if m.id == id then Marked(SubmissionOf(log, id), m) else SubmissionOf(log, id)
  {
    assert (log + [m])[..|log|] == log;
  }

  lemma {:induction false} JobOfExpiry(log: seq<Mark>, db: Db, now: Time, below: Id, id: Id)
    ensures var more := log + ExpiryMarks(db, now, below);
            && SubmissionOf(more, id) == SubmissionOf(log, id)
            && JobOf(more, id) ==
                 if id < below && id in db.jobs && IsExpired(db.jobs[id], now) then Released(JobOf(log, id))
                 else JobOf(log, id)
  {
    hide JobOf, SubmissionOf, IsExpired;
    if below == 0 {
      assert log + [] == log;
    } else {
      var before := ExpiryMarks(db, now, below - 1);
      JobOfExpiry(log, db, now, below - 1, id);
      if below - 1 in db.jobs && IsExpired(db.jobs[below - 1], now) {
        var m := DidExpire(below - 1);
        JobOfAppend(log + before, m, id);
        assert log + (before + [m]) == (log + before) + [m];
      } else {
        assert before + [] == before;
      }
    }
  }

  lemma RecordedNext(w: World, step: Step)
    requires Recorded(w)
    ensures Recorded(Next(w, step))
  {
    hide JobOf, SubmissionOf;
    match step
    case Enqueue(code) => RecordedEnqueue(w, code);
    case Claim(token, now) => RecordedClaim(w, token, now);
    case Complete(id, token, outcome, subtasks) =>
      RecordedMarks(w, step);
    case RequeueJob(id) =>
      RecordedMarks(w, step);
    case ClearOutcome(id) =>
      RecordedMarks(w, step);
  }

  // What a mark m does to rows that the log calls for.
  ghost predicate Effect(db: Db, db': Db, m: Mark)
  {
    && db'.lastId == db.lastId && db'.jobs.Keys == db.jobs.Keys && db'.submissions.Keys == db.submissions.Keys
    && (forall i :: i in db.jobs ==>
         (db'.jobs[i] == if m.id != i || m.DidClear? then db.jobs[i]
                         else if m.DidComplete? then Job(Finished, None, None, db.jobs[i].attempts)
                         else Released(db.jobs[i])))
    && (forall i :: i in db.submissions ==>
         db'.submissions[i] == if m.id == i then Marked(db.submissions[i], m) else db.submissions[i])
  }

  lemma RecordedEffect(w: World, w': World, m: Mark)
    requires Recorded(w) && Effect(w.db, w'.db, m) && !m.DidClaim? && 1 <= m.id <= w.db.lastId
    requires w'.log == w.log + [m] && forall i :: i in w'.halfway ==> 1 <= i <= w.db.lastId
    ensures Recorded(w')
  {
    hide JobOf, SubmissionOf;
    forall i | i in w'.db.jobs ensures w'.db.jobs[i] == JobOf(w'.log, i) {
      JobOfAppend(w.log, m, i);
    }
    forall i | i in w'.db.submissions ensures w'.db.submissions[i] == SubmissionOf(w'.log, i) {
      JobOfAppend(w.log, m, i);
    }
  }

  lemma RecordedMarks(w: World, step: Step)
    requires Recorded(w) && !step.Enqueue? && !step.Claim?
    ensures Recorded(Next(w, step))
  {
    hide JobOf, SubmissionOf;
    var marks := Marks(w.db, w.halfway, step);
    if marks == [] {
      assert w.log + marks == w.log;
    } else {
      assert w.log + marks == w.log + [marks[0]];
      assert Effect(w.db, After(w.db, w.halfway, step), marks[0]);
      RecordedEffect(w, Next(w, step), marks[0]);
    }
  }

  lemma {:induction false} NoMarks(log: seq<Mark>, id: Id)
    requires forall k :: 0 <= k < |log| ==> log[k].id != id
    ensures JobOf(log, id) == WAITING && SubmissionOf(log, id) == Submission(None, None, None)
  {
    if log != [] { NoMarks(log[..|log| - 1], id); }
  }

  lemma RecordedEnqueue(w: World, code: Option<string>)
    requires Recorded(w)
    ensures Recorded(Next(w, Enqueue(code)))
  {
    hide JobOf, SubmissionOf;
    var m := DidEnqueue(w.db.lastId + 1, code);
    forall i { JobOfAppend(w.log, m, i); }
    NoMarks(w.log, w.db.lastId + 1);
  }

  lemma RecordedClaim(w: World, token: Token, now: Time)
    requires Recorded(w)
    ensures Recorded(Next(w, Claim(token, now)))
  {
    hide JobOf, SubmissionOf, FirstClaimable, IsExpired;
    var candidate := Candidate(w.db, now);
    if candidate.None? {
      assert w.log + [] == w.log;
    } else {
      var expiry := ExpiryMarks(w.db, now, w.db.lastId + 1);
      var m := DidClaim(candidate.value, token, now);
      assert w.log + (expiry + [m]) == (w.log + expiry) + [m];
      var w' := Next(w, Claim(token, now));
      forall i | i in w'.db.jobs ensures w'.db.jobs[i] == JobOf(w'.log, i) {
        JobOfExpiry(w.log, w.db, now, w.db.lastId + 1, i);
        JobOfAppend(w.log + expiry, m, i);
      }
      forall i | i in w'.db.submissions ensures w'.db.submissions[i] == SubmissionOf(w'.log, i) {
        JobOfExpiry(w.log, w.db, now, w.db.lastId + 1, i);
        JobOfAppend(w.log + expiry, m, i);
      }
    }
  }

  lemma {:induction false} RunRecorded(w: World, steps: seq<Step>)
    requires Recorded(w)
    ensures Recorded(Run(w, steps))
    decreases |steps|
  {
    if steps != [] {
      hide Recorded;
      RecordedNext(w, steps[0]);
      RunRecorded(Next(w, steps[0]), steps[1..]);
    }
  }

  // Every reachable state: one job for each submission, `grading` exactly with
  // a token and a claim time, `attempts` the number of committed claims, and
  // rows that are what the marks call for.
  lemma ReachableIsRecorded(steps: seq<Step>)
    ensures Recorded(Run(START, steps))
    ensures var w := Run(START, steps);
            && w.db.jobs.Keys == w.db.submissions.Keys
            && forall i :: i in w.db.jobs ==>
                 var j := w.db.jobs[i];
                 && (j.status == Grading <==> j.claimToken.Some?)
                 && (j.status == Grading <==> j.claimedAt.Some?)
                 && j.attempts == Claims(w.log, i)
  {
    RunRecorded(START, steps);
    var w := Run(START, steps);
    forall i { GradingIsHeld(w.log, i); }
  }

  lemma {:induction false} GradingIsHeld(log: seq<Mark>, id: Id)
    ensures Phase(log, id) == Grading <==> Holder(log, id).Some?
  {
    if log != [] { GradingIsHeld(log[..|log| - 1], id); }
  }
}
