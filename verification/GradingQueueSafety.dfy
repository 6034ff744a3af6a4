// Safety and progress of the grading queue over whole runs.
module GradingQueueSafety {
  import opened Bytes
  import opened GradingQueue

  // ----- the lease protocol -----

  // log[k] claims id with the token, and nothing came between: no other claim,
  // requeue, expiry or completion of id.
  predicate Stands(log: seq<Mark>, k: nat, id: Id, token: Token)
  {
    && k < |log| && log[k].DidClaim? && log[k].id == id && log[k].token == token
    && forall j :: k < j < |log| && log[j].id == id ==> log[j].DidClear?
  }

  lemma {:induction false} HolderStands(log: seq<Mark>, id: Id, token: Token)
    ensures (Holder(log, id).Some? && Holder(log, id).value.0 == token) <==> exists k: nat :: Stands(log, k, id, token)
  {
    if log != [] {
      var before, m := log[..|log| - 1], log[|log| - 1];
      HolderStands(before, id, token);
      if m.id != id || m.DidClear? {
        forall k: nat | Stands(before, k, id, token) ensures Stands(log, k, id, token) {
          assert forall j :: k < j < |log| - 1 ==> log[j] == before[j];
        }
        forall k: nat | Stands(log, k, id, token) ensures Stands(before, k, id, token) {}
      } else if m.DidClaim? && m.token == token {
        assert Stands(log, |log| - 1, id, token);
      } else {
        forall k: nat ensures !Stands(log, k, id, token) {
          assert k < |log| - 1 ==> log[|log| - 1] == m;
        }
      }
    }
  }

  // In every interleaving a completion commits exactly when its token is that of
  // the latest claim and no requeue, expiry or completion has come since.
  lemma CompletionCommits(steps: seq<Step>, id: Id, token: Token)
    ensures var w := Run(START, steps);
            Completes(w.db, id, token) <==> exists k: nat :: Stands(w.log, k, id, token)
  {
    var w := Run(START, steps);
    ReachableIsRecorded(steps);
    HolderStands(w.log, id, token);
    GradingIsHeld(w.log, id);
    if id !in w.db.jobs {
      forall k: nat ensures !Stands(w.log, k, id, token) {}
    }
  }

  // Workers draw distinct tokens.
  predicate DistinctTokens(steps: seq<Step>)
  {
    forall i, j :: 0 <= i < j < |steps| && steps[i].Claim? && steps[j].Claim? ==> steps[i].token != steps[j].token
  }

  predicate DistinctClaims(log: seq<Mark>)
  {
    forall i, j :: 0 <= i < j < |log| && log[i].DidClaim? && log[j].DidClaim? ==> log[i].token != log[j].token
  }

  // No step to come reuses a token of the log.
  predicate Unused(log: seq<Mark>, steps: seq<Step>)
  {
    forall i, k :: 0 <= i < |log| && 0 <= k < |steps| && log[i].DidClaim? && steps[k].Claim? ==>
      log[i].token != steps[k].token
  }

  // Every completion was made by the holder of the time.
  predicate MadeByHolder(log: seq<Mark>)
  {
    forall j :: 0 <= j < |log| && log[j].DidComplete? ==>
      Holder(log[..j], log[j].id).Some? && Holder(log[..j], log[j].id).value.0 == log[j].token
  }

  lemma NextKeepsLog(w: World, step: Step)
    requires Recorded(w) && DistinctClaims(w.log) && MadeByHolder(w.log)
    requires step.Claim? ==> forall i :: 0 <= i < |w.log| && w.log[i].DidClaim? ==> w.log[i].token != step.token
    ensures DistinctClaims(Next(w, step).log) && MadeByHolder(Next(w, step).log)
  {
    var log, marks := w.log, Marks(w.db, w.halfway, step);
    assert forall j :: 0 <= j < |log| ==> (log + marks)[j] == log[j];
    assert forall j :: |log| <= j < |log + marks| ==> (log + marks)[j] == marks[j - |log|];
    forall j | 0 <= j < |log + marks| && (log + marks)[j].DidComplete?
      ensures var m := (log + marks)[j];
              Holder((log + marks)[..j], m.id).Some? && Holder((log + marks)[..j], m.id).value.0 == m.token
    {
      if j < |log| {
        assert (log + marks)[..j] == log[..j];
      } else {
        assert (log + marks)[..j] == log;
        GradingIsHeld(log, step.id);
      }
    }
  }

  lemma {:induction false} RunKeepsLog(w: World, steps: seq<Step>)
    requires Recorded(w) && DistinctClaims(w.log) && MadeByHolder(w.log)
    requires DistinctTokens(steps) && Unused(w.log, steps)
    ensures DistinctClaims(Run(w, steps).log) && MadeByHolder(Run(w, steps).log)
    decreases |steps|
  {
    if steps != [] {
      RecordedNext(w, steps[0]);
      NextKeepsLog(w, steps[0]);
      StaysUnused(w, steps);
      RunKeepsLog(Next(w, steps[0]), steps[1..]);
    }
  }

  // A new claim carries the token of its step.
  lemma NewClaim(w: World, step: Step, i: nat)
    requires |w.log| <= i < |Next(w, step).log| && Next(w, step).log[i].DidClaim?
    ensures step.Claim? && Next(w, step).log[i].token == step.token
  {
    hide After, HalfwayAfter;
  }

  lemma StaysUnused(w: World, steps: seq<Step>)
    requires steps != [] && DistinctTokens(steps) && Unused(w.log, steps)
    ensures DistinctTokens(steps[1..]) && Unused(Next(w, steps[0]).log, steps[1..])
  {
    hide After, HalfwayAfter, Marks;
    var log := Next(w, steps[0]).log;
    forall i, k | 0 <= i < |log| && 0 <= k < |steps[1..]| && log[i].DidClaim? && steps[1..][k].Claim?
      ensures log[i].token != steps[1..][k].token
    {
      assert steps[1..][k] == steps[k + 1];
      if i < |w.log| {
        assert log[i] == w.log[i];
      } else {
        NewClaim(w, steps[0], i);
      }
    }
  }

  // Each claim yields at most one committed result.
  lemma OneResultPerClaim(steps: seq<Step>, i: nat, j: nat)
    requires DistinctTokens(steps)
    requires var log := Run(START, steps).log;
             i < j < |log| && log[i].DidComplete? && log[j].DidComplete?
    ensures var log := Run(START, steps).log; log[i].token != log[j].token
  {
    var log := Run(START, steps).log;
    ReachableLog(steps);
    HolderStands(log[..i], log[i].id, log[i].token);
    HolderStands(log[..j], log[j].id, log[j].token);
    var k: nat :| Stands(log[..i], k, log[i].id, log[i].token);
    var l: nat :| Stands(log[..j], l, log[j].id, log[j].token);
    assert log[..i][k] == log[k] && log[..j][l] == log[l];
    if log[i].id == log[j].id {
      assert log[..j][i] == log[i];
      assert k < i <= l;
    }
    assert k != l;
  }

  lemma ReachableLog(steps: seq<Step>)
    requires DistinctTokens(steps)
    ensures DistinctClaims(Run(START, steps).log) && MadeByHolder(Run(START, steps).log)
  {
    RunKeepsLog(START, steps);
  }

  // A worker whose claim was followed by another claim, a requeue, an expiry or
  // a completion of the same submission can no longer write a result.
  lemma SupersededIsRefused(steps: seq<Step>, k: nat, j: nat, outcome: Outcome, subtasks: string)
    requires DistinctTokens(steps)
    requires var log := Run(START, steps).log;
             k < j < |log| && log[k].DidClaim? && log[j].id == log[k].id && !log[j].DidClear?
    ensures var w := Run(START, steps);
            Completed(w.db, w.log[k].id, w.log[k].token, outcome, subtasks) == w.db
  {
    var w := Run(START, steps);
    var id, token := w.log[k].id, w.log[k].token;
    ReachableLog(steps);
    CompletionCommits(steps, id, token);
    forall l: nat ensures !Stands(w.log, l, id, token) {
      if l == k { assert w.log[j].id == id && !w.log[j].DidClear?; }
    }
  }

  // ----- finished jobs and their results -----

  // A table with the one submission 1.
  function One(code: string, outcome: Option<Outcome>, subtasks: Option<string>, j: Job): Db
  {
    Db(1, map[1 := Submission(Some(code), outcome, subtasks)], map[1 := j])
  }

  lemma ClaimOne(code: string, outcome: Option<Outcome>, attempts: nat, token: Token)
    ensures Claimed(One(code, outcome, None, Job(Queued, None, None, attempts)), token, 0) ==
            One(code, outcome, None, Job(Grading, Some(0), Some(token), attempts + 1))
  {
    var db := One(code, outcome, None, Job(Queued, None, None, attempts));
    assert WithExpired(db.jobs, 0) == db.jobs;
    assert !Claimable(db, db.jobs, 0) && Claimable(db, db.jobs, 1);
    assert FirstClaimable(db, db.jobs, 0) == FirstClaimable(db, db.jobs, 1) == Some(1);
  }

  lemma RunFirst(w: World, step: Step, rest: seq<Step>)
    ensures Run(w, [step] + rest) == Run(Next(w, step), rest)
  {
    assert ([step] + rest)[1..] == rest;
  }

  // A claim and a completion between the two halves of a requeue: the finished
  // job is left without a result.
  lemma RequeueCanLoseResult(code: string, o: Outcome)
    ensures var steps := [Enqueue(Some(code))] + ([Claim("1-0-0", 0)] + ([RequeueJob(1)] +
              ([Claim("1-0-1", 0)] + ([Complete(1, "1-0-1", o, "")] + ([ClearOutcome(1)] + [])))));
            Run(START, steps).db == One(code, None, None, Job(Finished, None, None, 2))
  {
    hide Run, Claimed, Marks;
    var s4 := [Claim("1-0-1", 0)] + ([Complete(1, "1-0-1", o, "")] + ([ClearOutcome(1)] + []));
    var s3 := [RequeueJob(1)] + s4;
    var s2 := [Claim("1-0-0", 0)] + s3;
    RunFirst(START, Enqueue(Some(code)), s2);
    var w := Next(START, Enqueue(Some(code)));
    assert w.db == One(code, None, None, WAITING);
    RunFirst(w, Claim("1-0-0", 0), s3);
    ClaimOne(code, None, 0, "1-0-0");
    w := Next(w, Claim("1-0-0", 0));
    RunFirst(w, RequeueJob(1), s4);
    w := Next(w, RequeueJob(1));
    assert w.db == One(code, None, None, Job(Queued, None, None, 1)) && 1 in w.halfway;
    BetweenTheHalves(w, code, o);
  }

  lemma BetweenTheHalves(w: World, code: string, o: Outcome)
    requires w.db == One(code, None, None, Job(Queued, None, None, 1)) && 1 in w.halfway
    ensures Run(w, [Claim("1-0-1", 0)] + ([Complete(1, "1-0-1", o, "")] + ([ClearOutcome(1)] + []))).db ==
            One(code, None, None, Job(Finished, None, None, 2))
  {
    hide Run, Claimed, Marks;
    var s6 := [ClearOutcome(1)] + [];
    var s5 := [Complete(1, "1-0-1", o, "")] + s6;
    RunFirst(w, Claim("1-0-1", 0), s5);
    ClaimOne(code, None, 1, "1-0-1");
    var v := Next(w, Claim("1-0-1", 0));
    RunFirst(v, Complete(1, "1-0-1", o, ""), s6);
    v := Next(v, Complete(1, "1-0-1", o, ""));
    assert v.db == One(code, Some(o), None, Job(Finished, None, None, 2)) && 1 in v.halfway;
    RunFirst(v, ClearOutcome(1), []);
    v := Next(v, ClearOutcome(1));
    assert v.db == One(code, None, None, Job(Finished, None, None, 2));
    RunNothing(v);
  }

  lemma RunNothing(w: World)
    ensures Run(w, []) == w
  {
  }

  // The committed halves of the requeues of a submission.
  function Requeued(log: seq<Mark>, id: Id): nat
  {
    if log == [] then 0
    else Requeued(log[..|log| - 1], id) + if log[|log| - 1] == DidRequeue(id) then 1 else 0
  }

  function Cleared(log: seq<Mark>, id: Id): nat
  {
    if log == [] then 0
    else Cleared(log[..|log| - 1], id) + if log[|log| - 1] == DidClear(id) then 1 else 0
  }

  // A requeue of id stands between its halves at the end of the log.
  predicate IsHalfway(log: seq<Mark>, id: Id) { Requeued(log, id) > Cleared(log, id) }

  // The second half of a requeue only follows a first half.
  predicate Paired(log: seq<Mark>)
  {
    forall j :: 0 <= j < |log| && log[j].DidClear? ==> IsHalfway(log[..j], log[j].id)
  }

  ghost predicate Balanced(w: World)
  {
    Paired(w.log) && forall id: Id :: Requeued(w.log, id) == Cleared(w.log, id) + w.halfway[id]
  }

  lemma {:induction false} CountConcat(a: seq<Mark>, b: seq<Mark>, id: Id)
    ensures Requeued(a + b, id) == Requeued(a, id) + Requeued(b, id)
    ensures Cleared(a + b, id) == Cleared(a, id) + Cleared(b, id)
  {
    if b == [] {
      assert a + b == a;
    } else {
      assert (a + b)[..|a + b| - 1] == a + b[..|b| - 1];
      CountConcat(a, b[..|b| - 1], id);
    }
  }

  lemma {:induction false} NoHalves(log: seq<Mark>, id: Id)
    requires forall k :: 0 <= k < |log| ==> !log[k].DidRequeue? && !log[k].DidClear?
    ensures Requeued(log, id) == 0 && Cleared(log, id) == 0
  {
    if log != [] { NoHalves(log[..|log| - 1], id); }
  }

  lemma HalvesOf(w: World, step: Step, id: Id)
    ensures var marks, halfway := Marks(w.db, w.halfway, step), HalfwayAfter(w.db, w.halfway, step);
            Requeued(marks, id) + w.halfway[id] == Cleared(marks, id) + halfway[id]
  {
    hide ExpiryMarks;
    var marks := Marks(w.db, w.halfway, step);
    if step.RequeueJob? || step.ClearOutcome? {
      if marks != [] { assert marks[..|marks| - 1] == []; }
    } else {
      NoHalves(marks, id);
    }
  }

  lemma BalancedNext(w: World, step: Step)
    requires Balanced(w)
    ensures Balanced(Next(w, step))
  {
    hide After, Requeued, Cleared;
    var log, marks := w.log, Marks(w.db, w.halfway, step);
    forall id: Id
      ensures Requeued(log + marks, id) == Cleared(log + marks, id) + HalfwayAfter(w.db, w.halfway, step)[id]
    {
      CountConcat(log, marks, id);
      HalvesOf(w, step, id);
    }
    forall j | 0 <= j < |log + marks| && (log + marks)[j].DidClear?
      ensures IsHalfway((log + marks)[..j], (log + marks)[j].id)
    {
      if j < |log| {
        assert (log + marks)[..j] == log[..j];
      } else {
        assert (log + marks)[j] == marks[j - |log|];
        assert j == |log| && (log + marks)[..j] == log;
      }
    }
  }

  lemma {:induction false} RunBalanced(w: World, steps: seq<Step>)
    requires Balanced(w)
    ensures Balanced(Run(w, steps))
    decreases |steps|
  {
    if steps != [] {
      hide Balanced;
      BalancedNext(w, steps[0]);
      RunBalanced(Next(w, steps[0]), steps[1..]);
    }
  }

  // log[k] is the last completion of id.
  predicate LastCompletion(log: seq<Mark>, k: nat, id: Id)
  {
    && k < |log| && log[k].id == id && log[k].DidComplete?
    && forall j :: k < j < |log| && log[j].id == id ==> !log[j].DidComplete?
  }

  // The last completion of id fell between the halves of a requeue, and the
  // second half came after it.
  predicate Lost(log: seq<Mark>, k: nat, id: Id)
  {
    LastCompletion(log, k, id) && IsHalfway(log[..k], id) && exists j :: k < j < |log| && log[j] == DidClear(id)
  }

  // Behind the last completion of a finished job nothing but clears has come.
  lemma {:induction false} FinishedBy(log: seq<Mark>, id: Id) returns (k: nat)
    requires Phase(log, id) == Finished
    ensures LastCompletion(log, k, id) && Requeued(log, id) == Requeued(log[..k], id)
    ensures Cleared(log[..k], id) <= Cleared(log, id)
  {
    var n := |log| - 1;
    if log[n].id != id || log[n].DidClear? {
      k := FinishedBy(log[..n], id);
      assert log[..n][..k] == log[..k];
    } else {
      k := n;
    }
  }

  lemma {:induction false} FinishedLog(log: seq<Mark>, id: Id)
    requires Paired(log) && Phase(log, id) == Finished
    ensures Stored(log, id) == None <==> exists k: nat :: Lost(log, k, id)
  {
    hide Requeued, Cleared;
    var n := |log| - 1;
    var before := log[..n];
    if log[n].id == id && log[n].DidClear? {
      var k := FinishedBy(before, id);
      assert before[..k] == log[..k];
      assert IsHalfway(before, id) && log[n] == DidClear(id);
      assert Lost(log, k, id);
    } else if log[n].id != id {
      assert forall j :: 0 <= j < n ==> before[..j] == log[..j];
      FinishedLog(before, id);
      forall k: nat ensures Lost(log, k, id) <==> Lost(before, k, id) {
        LostBefore(log, k, id);
      }
    }
  }

  lemma LostBefore(log: seq<Mark>, k: nat, id: Id)
    requires log != [] && log[|log| - 1].id != id
    ensures Lost(log, k, id) <==> Lost(log[..|log| - 1], k, id)
  {
    hide IsHalfway;
    var before := log[..|log| - 1];
    assert forall j :: 0 <= j < |before| ==> before[j] == log[j];
    if k < |before| { assert before[..k] == log[..k]; }
    if Lost(log, k, id) {
      var j :| k < j < |log| && log[j] == DidClear(id);
      assert before[j] == DidClear(id);
    }
    if Lost(before, k, id) {
      var j :| k < j < |before| && before[j] == DidClear(id);
      assert log[j] == DidClear(id);
    }
  }

  // In every reachable state a finished job lacks its result exactly when its
  // last completion was committed between the two halves of a requeue and the
  // second half came after it.
  lemma ResultLostExactlyBetweenHalves(steps: seq<Step>, id: Id)
    requires var w := Run(START, steps); id in w.db.jobs && w.db.jobs[id].status == Finished
    ensures var w := Run(START, steps);
            && id in w.db.submissions
            && (w.db.submissions[id].outcome == None <==> exists k: nat :: Lost(w.log, k, id))
  {
    ReachableIsRecorded(steps);
    assert Balanced(START);
    RunBalanced(START, steps);
    hide Run;
    FinishedLog(Run(START, steps).log, id);
  }

  // ----- what a requeue leaves behind -----

  // The last completion of id wrote subtask results, and a clear came after it.
  predicate LeftBehind(log: seq<Mark>, k: nat, id: Id)
  {
    LastCompletion(log, k, id) && log[k].subtasks != "" && exists j :: k < j < |log| && log[j] == DidClear(id)
  }

  // What the columns hold goes back to the last completion.
  lemma {:induction false} LastWord(log: seq<Mark>, id: Id) returns (k: Option<nat>)
    ensures k.None? ==> Stored(log, id) == None && Tasks(log, id) == None
    ensures k.None? ==> forall j :: 0 <= j < |log| && log[j].id == id ==> !log[j].DidComplete?
    ensures k.Some? ==> LastCompletion(log, k.value, id) && Tasks(log, id) == NoneIfEmpty(log[k.value].subtasks)
    ensures k.Some? ==> (Stored(log, id) == None <==> exists j :: k.value < j < |log| && log[j] == DidClear(id))
  {
    if log == [] { return None; }
    var n := |log| - 1;
    var before, m := log[..n], log[n];
    if m.id == id && m.DidComplete? { return Some(n); }
    k := LastWord(before, id);
    assert forall j :: 0 <= j < n ==> before[j] == log[j];
    if k.Some? && m != DidClear(id) {
      assert (exists j :: k.value < j < |log| && log[j] == DidClear(id)) ==>
             exists j :: k.value < j < n && before[j] == DidClear(id);
    }
  }

  // In every reachable state a submission without a verdict shows subtask
  // results exactly when its last completion wrote some and was cleared since.
  lemma SubtasksOutliveVerdict(steps: seq<Step>, id: Id)
    requires id in Run(START, steps).db.submissions
    ensures var w := Run(START, steps);
            var s := w.db.submissions[id];
            s.outcome == None && s.subtaskResults.Some? <==> exists k: nat :: LeftBehind(w.log, k, id)
  {
    ReachableIsRecorded(steps);
    hide Run;
    var log := Run(START, steps).log;
    var last := LastWord(log, id);
    hide Stored, Tasks;
    if last.Some? && log[last.value].subtasks != "" && Stored(log, id) == None {
      assert LeftBehind(log, last.value, id);
    }
    forall k: nat | LeftBehind(log, k, id) ensures last == Some(k) {
      assert log[k].id == id && log[k].DidComplete?;
    }
  }

  // A graded submission that is requeued: it waits without a verdict and still
  // shows the subtask results.
  lemma RequeueKeepsSubtasks(code: string, o: Outcome, t: string)
    requires t != ""
    ensures var steps := [Enqueue(Some(code))] + ([Claim("1-0-0", 0)] + ([Complete(1, "1-0-0", o, t)] +
              ([RequeueJob(1)] + ([ClearOutcome(1)] + []))));
            Run(START, steps).db == One(code, None, Some(t), Job(Queued, None, None, 1))
  {
    hide Run, Claimed, Marks;
    var s3 := [RequeueJob(1)] + ([ClearOutcome(1)] + []);
    var s2 := [Complete(1, "1-0-0", o, t)] + s3;
    RunFirst(START, Enqueue(Some(code)), [Claim("1-0-0", 0)] + s2);
    var w := Next(START, Enqueue(Some(code)));
    assert w.db == One(code, None, None, WAITING);
    RunFirst(w, Claim("1-0-0", 0), s2);
    ClaimOne(code, None, 0, "1-0-0");
    w := Next(w, Claim("1-0-0", 0));
    RunFirst(w, Complete(1, "1-0-0", o, t), s3);
    w := Next(w, Complete(1, "1-0-0", o, t));
    assert w.db == One(code, Some(o), Some(t), Job(Finished, None, None, 1));
    WholeRequeue(w, code, o, t);
  }

  lemma WholeRequeue(w: World, code: string, o: Outcome, t: string)
    requires w.db == One(code, Some(o), Some(t), Job(Finished, None, None, 1))
    ensures Run(w, [RequeueJob(1)] + ([ClearOutcome(1)] + [])).db ==
            One(code, None, Some(t), Job(Queued, None, None, 1))
  {
    hide Run, Marks;
    RunFirst(w, RequeueJob(1), [ClearOutcome(1)] + []);
    var v := Next(w, RequeueJob(1));
    assert v.db == One(code, Some(o), Some(t), Job(Queued, None, None, 1)) && 1 in v.halfway;
    RunFirst(v, ClearOutcome(1), []);
    v := Next(v, ClearOutcome(1));
    assert v.db == One(code, None, Some(t), Job(Queued, None, None, 1));
    RunNothing(v);
  }

  // No completion of id commits while a requeue of it stands between its halves;
  // all else may happen there.
  predicate Undisturbed(w: World, steps: seq<Step>, id: Id)
    decreases |steps|
  {
    steps == [] ||
    (&& (steps[0].Complete? && steps[0].id == id && Completes(w.db, id, steps[0].token) ==> id !in w.halfway)
     && Undisturbed(Next(w, steps[0]), steps[1..], id))
  }

  // A finished job has its result, and no requeue of it is under way.
  predicate Settled(w: World, id: Id)
  {
    id in w.db.jobs && w.db.jobs[id].status == Finished ==>
      id !in w.halfway && (id in w.db.submissions ==> w.db.submissions[id].outcome.Some?)
  }

  // On such runs a finished submission has its result, and a requeue of it is
  // either whole or has put the job back into the queue.
  lemma {:induction false} UndisturbedKeepsResults(w: World, steps: seq<Step>, id: Id)
    requires Settled(w, id) && Recorded(w) && Undisturbed(w, steps, id)
    ensures Settled(Run(w, steps), id)
    decreases |steps|
  {
    if steps != [] {
      RecordedNext(w, steps[0]);
      SettledNext(w, steps[0], id);
      hide Settled, Recorded, Next;
      UndisturbedKeepsResults(Next(w, steps[0]), steps[1..], id);
    }
  }

  lemma SettledNext(w: World, step: Step, id: Id)
    requires Settled(w, id) && Recorded(w)
    requires step.Complete? && step.id == id && Completes(w.db, id, step.token) ==> id !in w.halfway
    ensures Settled(Next(w, step), id)
  {
    hide JobOf, SubmissionOf, Marks;
  }

  // ----- progress -----

  predicate Waiting(db: Db, id: Id) { Claimable(db, db.jobs, id) }

  // The jobs in front of id.
  function Ahead(db: Db, id: Id): nat
  {
    if id == 0 then 0 else Ahead(db, id - 1) + if Waiting(db, id - 1) then 1 else 0
  }

  lemma {:induction false} AheadSame(db: Db, db': Db, id: Id)
    requires forall i :: 0 <= i < id ==> (Waiting(db, i) <==> Waiting(db', i))
    ensures Ahead(db', id) == Ahead(db, id)
  {
    if id > 0 { AheadSame(db, db', id - 1); }
  }

  lemma {:induction false} AheadWithout(db: Db, db': Db, id: Id, c: Id)
    requires c < id && Waiting(db, c) && !Waiting(db', c)
    requires forall i :: 0 <= i < id && i != c ==> (Waiting(db, i) <==> Waiting(db', i))
    ensures Ahead(db', id) + 1 == Ahead(db, id)
  {
    if c == id - 1 { AheadSame(db, db', id - 1); } else { AheadWithout(db, db', id - 1, c); }
  }

  function ClaimsMade(marks: seq<Mark>): nat
  {
    if marks == [] then 0
    else ClaimsMade(marks[..|marks| - 1]) + if marks[|marks| - 1].DidClaim? then 1 else 0
  }

  lemma {:induction false} ClaimsMadeConcat(a: seq<Mark>, b: seq<Mark>)
    ensures ClaimsMade(a + b) == ClaimsMade(a) + ClaimsMade(b)
  {
    if b == [] {
      assert a + b == a;
    } else {
      ClaimsMadeConcat(a, b[..|b| - 1]);
      assert (a + b)[..|a + b| - 1] == a + b[..|b| - 1];
    }
  }

  lemma {:induction false} ExpiryClaimsNothing(marks: seq<Mark>)
    requires forall k :: 0 <= k < |marks| ==> marks[k].DidExpire?
    ensures ClaimsMade(marks) == 0
  {
    if marks != [] { ExpiryClaimsNothing(marks[..|marks| - 1]); }
  }

  // The marks neither take id nor put a smaller id back into the queue.
  predicate PassesBy(marks: seq<Mark>, id: Id)
  {
    forall k :: 0 <= k < |marks| ==>
      && !(marks[k].DidClaim? && marks[k].id == id)
      && !((marks[k].DidRequeue? || marks[k].DidExpire?) && marks[k].id < id)
  }

  lemma {:induction false} ExpiryIsMarked(db: Db, now: Time, below: Id, i: Id)
    requires i < below && i in db.jobs
    ensures IsExpired(db.jobs[i], now) ==> DidExpire(i) in ExpiryMarks(db, now, below)
  {
    var marks := ExpiryMarks(db, now, below);
    if i == below - 1 {
      assert IsExpired(db.jobs[i], now) ==> marks[|marks| - 1] == DidExpire(i);
    } else {
      ExpiryIsMarked(db, now, below - 1, i);
    }
  }

  lemma StepPassesBy(w: World, step: Step, id: Id)
    requires Recorded(w) && Waiting(w.db, id) && PassesBy(Marks(w.db, w.halfway, step), id)
    ensures Waiting(Next(w, step).db, id)
    ensures Ahead(Next(w, step).db, id) + ClaimsMade(Marks(w.db, w.halfway, step)) == Ahead(w.db, id)
  {
    hide Ahead, ClaimsMade, ExpiryMarks, JobOf, Stored;
    if step.Claim? {
      if Candidate(w.db, step.now).Some? {
        ClaimPassesBy(w.db, step.token, step.now, id);
      } else {
        NoClaims(w.db, w.halfway, step);
      }
    } else {
      NoClaims(w.db, w.halfway, step);
      QueueKept(w, step, id);
      AheadSame(w.db, Next(w, step).db, id);
    }
  }

  lemma NoClaims(db: Db, halfway: multiset<Id>, step: Step)
    requires !step.Claim? || Candidate(db, step.now).None?
    ensures ClaimsMade(Marks(db, halfway, step)) == 0
  {
    var marks := Marks(db, halfway, step);
    if marks != [] { assert marks[..|marks| - 1] == []; }
  }

  lemma QueueKept(w: World, step: Step, id: Id)
    requires Recorded(w) && !step.Claim? && PassesBy(Marks(w.db, w.halfway, step), id) && Waiting(w.db, id)
    ensures forall i :: 0 <= i <= id ==> (Waiting(w.db, i) <==> Waiting(Next(w, step).db, i))
  {
    hide JobOf, SubmissionOf, HalfwayAfter;
    if step.RequeueJob? && Requeues(w.db, step.id) {
      assert Marks(w.db, w.halfway, step)[0] == DidRequeue(step.id);
    }
  }

  lemma NoneExpired(db: Db, now: Time, id: Id)
    requires Numbered(db.jobs, db.lastId) && PassesBy(ExpiryMarks(db, now, db.lastId + 1), id)
    ensures forall i :: 0 <= i < id && i in db.jobs ==> !IsExpired(db.jobs[i], now)
  {
    hide IsExpired, ExpiryMarks;
    var expiry := ExpiryMarks(db, now, db.lastId + 1);
    forall i | 0 <= i < id && i in db.jobs ensures !IsExpired(db.jobs[i], now) {
      ExpiryIsMarked(db, now, db.lastId + 1, i);
      assert DidExpire(i) !in expiry;
    }
  }

  // A claim that takes another submission takes a smaller one.
  lemma ClaimTakesSmaller(db: Db, token: Token, now: Time, id: Id)
    requires Numbered(db.jobs, db.lastId) && Waiting(db, id)
    requires Candidate(db, now).Some? && Candidate(db, now).value != id
    requires forall i :: 0 <= i < id && i in db.jobs ==> !IsExpired(db.jobs[i], now)
    ensures Waiting(Claimed(db, token, now), id)
    ensures Ahead(Claimed(db, token, now), id) + 1 == Ahead(db, id)
  {
    var c, db' := Candidate(db, now).value, Claimed(db, token, now);
    assert Claimable(db, WithExpired(db.jobs, now), id);
    assert c < id && Waiting(db, c) && !Waiting(db', c);
    AheadWithout(db, db', id, c);
  }

  lemma ClaimPassesBy(db: Db, token: Token, now: Time, id: Id)
    requires Numbered(db.jobs, db.lastId) && Waiting(db, id) && Candidate(db, now).Some?
    requires PassesBy(ExpiryMarks(db, now, db.lastId + 1) + [DidClaim(Candidate(db, now).value, token, now)], id)
    ensures Waiting(Claimed(db, token, now), id)
    ensures Ahead(Claimed(db, token, now), id) +
            ClaimsMade(ExpiryMarks(db, now, db.lastId + 1) + [DidClaim(Candidate(db, now).value, token, now)]) ==
            Ahead(db, id)
  {
    hide Ahead, Claimed, Candidate, Waiting, ExpiryMarks, IsExpired;
    var expiry, claim := ExpiryMarks(db, now, db.lastId + 1), DidClaim(Candidate(db, now).value, token, now);
    PassesBySplit(expiry, [claim], id);
    NoneExpired(db, now, id);
    assert [claim][0] == claim;
    ClaimTakesSmaller(db, token, now, id);
    ClaimsMadeConcat(expiry, [claim]);
    ExpiryClaimsNothing(expiry);
    assert [claim][..0] == [];
  }

  lemma PassesBySplit(a: seq<Mark>, b: seq<Mark>, id: Id)
    requires PassesBy(a + b, id)
    ensures PassesBy(a, id) && PassesBy(b, id)
  {
    assert forall k :: 0 <= k < |a| ==> (a + b)[k] == a[k];
    forall k | 0 <= k < |b|
      ensures !(b[k].DidClaim? && b[k].id == id)
      ensures !((b[k].DidRequeue? || b[k].DidExpire?) && b[k].id < id)
    {
      assert (a + b)[|a| + k] == b[k];
    }
  }

  // A queued submission with code is taken within (waiting smaller ids + 1)
  // committed claims: as long as a run passes it by, every claim takes one of
  // the waiting smaller ids away.
  lemma {:induction false} ClaimedInTurn(w: World, steps: seq<Step>, id: Id)
    requires Recorded(w) && Waiting(w.db, id)
    requires |w.log| <= |Run(w, steps).log| && PassesBy(Run(w, steps).log[|w.log|..], id)
    ensures Waiting(Run(w, steps).db, id)
    ensures Ahead(Run(w, steps).db, id) + ClaimsMade(Run(w, steps).log[|w.log|..]) == Ahead(w.db, id)
    decreases |steps|
  {
    hide Run, Marks, Next, Waiting, Ahead, Recorded, PassesBy, ClaimsMade;
    if steps == [] {
      RunNothing(w);
      assert w.log[|w.log|..] == [] && ClaimsMade([]) == 0 by { ExpiryClaimsNothing([]); }
    } else {
      var next := Next(w, steps[0]);
      SplitLog(w, steps);
      PassesBySplit(Marks(w.db, w.halfway, steps[0]), Run(next, steps[1..]).log[|next.log|..], id);
      RecordedNext(w, steps[0]);
      StepPassesBy(w, steps[0], id);
      ClaimedInTurn(next, steps[1..], id);
      ClaimsMadeConcat(Marks(w.db, w.halfway, steps[0]), Run(next, steps[1..]).log[|next.log|..]);
    }
  }

  lemma SplitLog(w: World, steps: seq<Step>)
    requires steps != []
    ensures var next := Next(w, steps[0]);
            var end := Run(next, steps[1..]);
            && Run(w, steps) == end && |w.log| <= |next.log| <= |end.log|
            && end.log[|w.log|..] == Marks(w.db, w.halfway, steps[0]) + end.log[|next.log|..]
  {
    hide Marks;
    var next, marks := Next(w, steps[0]), Marks(w.db, w.halfway, steps[0]);
    LogGrows(next, steps[1..]);
    SuffixSplit(w.log, marks, Run(next, steps[1..]).log);
  }

  lemma SuffixSplit<T>(a: seq<T>, b: seq<T>, whole: seq<T>)
    requires |a + b| <= |whole| && whole[..|a + b|] == a + b
    ensures whole[|a|..] == b + whole[|a + b|..]
  {
    assert whole == (a + b) + whole[|a + b|..] == a + (b + whole[|a + b|..]);
  }

  lemma {:induction false} LogGrows(w: World, steps: seq<Step>)
    ensures |w.log| <= |Run(w, steps).log| && Run(w, steps).log[..|w.log|] == w.log
    decreases |steps|
  {
    if steps != [] {
      var next := Next(w, steps[0]);
      LogGrows(next, steps[1..]);
      assert next.log[..|w.log|] == w.log;
      assert Run(w, steps).log[..|next.log|][..|w.log|] == Run(w, steps).log[..|w.log|];
    }
  }

  // So the submission is claimed within (waiting smaller ids + 1) committed
  // claims, as long as no smaller id comes back into the queue.
  lemma ClaimedWithinBound(w: World, steps: seq<Step>, id: Id)
    requires Recorded(w) && Waiting(w.db, id)
    requires |w.log| <= |Run(w, steps).log|
    requires var marks := Run(w, steps).log[|w.log|..];
             && ClaimsMade(marks) >= Ahead(w.db, id) + 1
             && forall k :: 0 <= k < |marks| && marks[k].id < id ==> !marks[k].DidRequeue? && !marks[k].DidExpire?
    ensures var marks := Run(w, steps).log[|w.log|..];
            exists k :: 0 <= k < |marks| && marks[k].DidClaim? && marks[k].id == id
  {
    hide Run, Ahead, ClaimsMade, Recorded, Waiting;
    var marks := Run(w, steps).log[|w.log|..];
    if PassesBy(marks, id) { ClaimedInTurn(w, steps, id); }
  }

  // ----- leases -----

  // A job that has left the queue has code to grade.
  ghost predicate Gradable(db: Db)
  {
    forall i :: i in db.jobs && db.jobs[i].status != Queued ==> i in db.submissions && db.submissions[i].code.Some?
  }

  lemma GradableNext(w: World, step: Step)
    requires Gradable(w.db) && Recorded(w)
    ensures Gradable(Next(w, step).db)
  {
    hide JobOf, SubmissionOf, Marks;
  }

  lemma {:induction false} RunGradable(w: World, steps: seq<Step>)
    requires Gradable(w.db) && Recorded(w)
    ensures Gradable(Run(w, steps).db)
    decreases |steps|
  {
    if steps != [] {
      hide Gradable, Recorded;
      RecordedNext(w, steps[0]);
      GradableNext(w, steps[0]);
      RunGradable(Next(w, steps[0]), steps[1..]);
    }
  }

  // A claim that finds no candidate rolls the expiry back, but then there was
  // none: an expired lease makes its job a candidate.
  lemma NothingExpiresWithoutCandidate(steps: seq<Step>, now: Time)
    ensures var db := Run(START, steps).db;
            Candidate(db, now).None? ==> WithExpired(db.jobs, now) == db.jobs
  {
    var db := Run(START, steps).db;
    ReachableIsRecorded(steps);
    RunGradable(START, steps);
    hide Run;
    if Candidate(db, now).None? {
      forall i | i in db.jobs ensures !IsExpired(db.jobs[i], now) {
        assert !Claimable(db, WithExpired(db.jobs, now), i);
      }
    }
  }

  // A lease ends exactly when a claim is made more than ten minutes after it
  // was taken: then the old token is dead, before that the row stays as it is.
  lemma LeaseEnds(steps: seq<Step>, id: Id, token: Token, now: Time)
    requires var db := Run(START, steps).db;
             && id in db.jobs && db.jobs[id].status == Grading && db.jobs[id].claimedAt.Some?
             && db.jobs[id].claimToken != Some(token)
    ensures var db := Run(START, steps).db;
            var db' := Claimed(db, token, now);
            && id in db'.jobs
            && (db'.jobs[id] == db.jobs[id] <==> now <= db.jobs[id].claimedAt.value + 600)
            && (now > db.jobs[id].claimedAt.value + 600 ==>
                 && Candidate(db, now).Some? && Candidate(db, now).value <= id
                 && (db'.jobs[id].status == Queued || db'.jobs[id].claimToken == Some(token)))
  {
    var db := Run(START, steps).db;
    ReachableIsRecorded(steps);
    RunGradable(START, steps);
    hide Run;
    if now > db.jobs[id].claimedAt.value + 600 {
      assert Claimable(db, WithExpired(db.jobs, now), id);
    }
  }
}
