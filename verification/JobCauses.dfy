// What brings a cleanup job into its status, without any assumption on time
// (src/modules/cleanup-jobs/cleanup-job-command.service.ts:66-275).
module JobCauses {
  import opened Common
  import opened CleanupJobs

  // Open, and under no lease that runs.
  predicate Idle(job: Job, now: Instant) {
    (job.status == Pending || job.status == Retry) && (job.lockedUntil == None || job.lockedUntil.value <= now)
  }

  // A worker's commit is accepted while the status is the one it saw and some lease runs, whoever holds it.
  predicate Accepted(s: State, worker: Id, id: Id) {
    && worker in s.workers && s.workers[worker].job == id && id in s.jobs
    && s.jobs[id].status == s.workers[worker].seen.status
    && s.jobs[id].lockedUntil.Some? && s.now < s.jobs[id].lockedUntil.value
  }

  // The events that may change job `id` in this state.
  predicate Entitled(s: State, e: Event, id: Id) {
    match e
    case Create(job, _) => job == id && id !in s.jobs
    case Acquire(worker, job) => job == id && worker !in s.workers && id in s.jobs && Idle(s.jobs[id], s.now)
    case Complete(worker) => Accepted(s, worker, id) && !s.workers[worker].threw
    case Recover(worker) => Accepted(s, worker, id) && s.workers[worker].threw
    case SetIgnored(job) => job == id && id in s.jobs && Idle(s.jobs[id], s.now)
    case UnlockStuck =>
      && id in s.jobs && (s.jobs[id].status == Pending || s.jobs[id].status == Retry)
      && s.jobs[id].lockedUntil.Some? && s.jobs[id].lockedUntil.value < s.now
    case _ => false
  }

  predicate SameTask(before: Job, after: Job) {
    after.action == before.action && after.maxRetries == before.maxRetries
  }

  // What they make of it.
  predicate Outcome(s: State, e: Event, id: Id, after: Job)
    requires Entitled(s, e, id)
  {
    match e
    case Create(_, action) =>
      && after.action == action && after.status == Pending && after.retryCount == 0
      && after.maxRetries == |RetryDelays(action)| && after.lockedUntil == None && after.nextRetryAt == None
    case Acquire(_, _) =>
      && SameTask(s.jobs[id], after) && after.status == s.jobs[id].status
      && after.retryCount == s.jobs[id].retryCount && after.nextRetryAt == s.jobs[id].nextRetryAt
      && after.lockedUntil == Some(s.now + 600_000)
    case Complete(_) =>
      && SameTask(s.jobs[id], after) && after.status == Done && after.retryCount == s.jobs[id].retryCount
      && after.lockedUntil == None && after.nextRetryAt == None
    case Recover(worker) =>
      var seen := s.workers[worker].seen;
      && SameTask(s.jobs[id], after) && after.lockedUntil == None
      && (if seen.retryCount < seen.maxRetries && seen.retryCount < |RetryDelays(seen.action)| then
            && after.status == Retry && after.retryCount == seen.retryCount + 1
            && after.nextRetryAt == Some(s.now + RetryDelays(seen.action)[seen.retryCount] * 60_000)
          else
            after.status == Failed && after.retryCount == seen.maxRetries && after.nextRetryAt == None)
    case SetIgnored(_) =>
      && SameTask(s.jobs[id], after) && after.status == Ignored && after.retryCount == s.jobs[id].retryCount
      && after.lockedUntil == None && after.nextRetryAt == s.jobs[id].nextRetryAt
    case UnlockStuck => after == s.jobs[id].(lockedUntil := None)
  }

  // An entitled event has exactly its outcome; any other leaves the job as it is.
  lemma ChangesAreEntitled(s: State, e: Event, id: Id)
    ensures Entitled(s, e, id) ==> id in Step(s, e).jobs && Outcome(s, e, id, Step(s, e).jobs[id])
    ensures !Entitled(s, e, id) ==>
      (id in Step(s, e).jobs <==> id in s.jobs) && (id in s.jobs ==> Step(s, e).jobs[id] == s.jobs[id])
  {
    match e
    case Create(_, _) =>
    case Acquire(_, _) =>
    case Throw(_) =>
    case Complete(worker) => assert Step(s, e) == StepComplete(s, worker);
    case Recover(worker) => assert Step(s, e) == StepRecover(s, worker);
    case SetIgnored(_) =>
    case UnlockStuck =>
    case Tick(_) =>
  }

  lemma {:induction false} RunLast(s: State, events: seq<Event>, last: Event)
    ensures Run(s, events + [last]) == Step(Run(s, events), last)
    decreases |events|
  {
    if events == [] {
      assert (events + [last])[1..] == [];
      assert Run(Step(s, last), []) == Step(s, last);
    } else {
      assert (events + [last])[1..] == events[1..] + [last];
      RunLast(Step(s, events[0]), events[1..], last);
    }
  }

  // The i-th event was entitled to make the job what it is at the end.
  predicate IsCause(events: seq<Event>, i: nat, id: Id, job: Job)
    requires i < |events|
  {
    Entitled(Run(EMPTY, events[..i]), events[i], id) && Outcome(Run(EMPTY, events[..i]), events[i], id, job)
  }

  // In every reachable state every job is what some entitled event has made of it.
  lemma {:induction false} EveryJobHasItsCause(events: seq<Event>, id: Id)
    requires id in Run(EMPTY, events).jobs
    ensures exists i: nat :: i < |events| && IsCause(events, i, id, Run(EMPTY, events).jobs[id])
    decreases |events|
  {
    if events == [] {
    } else {
      var n := |events| - 1;
      var front, last := events[..n], events[n];
      assert events == front + [last];
      RunLast(EMPTY, front, last);
      var s := Run(EMPTY, front);
      ChangesAreEntitled(s, last, id);
      if Entitled(s, last, id) {
        assert IsCause(events, n, id, Run(EMPTY, events).jobs[id]);
      } else {
        EveryJobHasItsCause(front, id);
        var i: nat :| i < |front| && IsCause(front, i, id, s.jobs[id]);
        assert front[..i] == events[..i];
        assert IsCause(events, i, id, Run(EMPTY, events).jobs[id]);
      }
    }
  }

  // A status names its cause.
  lemma StatusTellsTheCause(events: seq<Event>, id: Id)
    requires id in Run(EMPTY, events).jobs
    ensures match Run(EMPTY, events).jobs[id].status
      case Done => exists w :: Complete(w) in events
      case Failed => exists w :: Recover(w) in events
      case Ignored => SetIgnored(id) in events
      case _ => true
  {
    EveryJobHasItsCause(events, id);
    var job := Run(EMPTY, events).jobs[id];
    var i: nat :| i < |events| && IsCause(events, i, id, job);
    assert events[i] in events;
    if job.status == Done || job.status == Failed || job.status == Ignored {
      CauseOfClosing(events, i, id, job);
    }
  }

  lemma CauseOfClosing(events: seq<Event>, i: nat, id: Id, job: Job)
    requires i < |events| && IsCause(events, i, id, job)
    requires job.status == Done || job.status == Failed || job.status == Ignored
    ensures match job.status
      case Done => events[i].Complete?
      case Failed => events[i].Recover?
      case _ => events[i] == SetIgnored(id)
  {
    match events[i]
    case Create(_, _) =>
    case Acquire(_, _) =>
    case Complete(_) =>
    case Recover(_) =>
    case SetIgnored(_) =>
    case UnlockStuck =>
  }

  // ----- Ignoring -----

  // Ignoring a job that is open and under no running lease is for good: in every later state it is IGNORED, nobody
  // can take it and nothing changes it, not even a commit of a worker that had taken it before.
  lemma IgnoredForGood(s: State, id: Id, later: seq<Event>, e: Event, worker: Id)
    requires SoundWorkers(s) && id in s.jobs && Idle(s.jobs[id], s.now)
    ensures var t := Run(Step(s, SetIgnored(id)), later);
      && id in t.jobs && t.jobs[id].status == Ignored && t.jobs[id].lockedUntil == None
      && Step(t, Acquire(worker, id)) == t
      && id in Step(t, e).jobs && Step(t, e).jobs[id] == t.jobs[id]
  {
    var ignored := Step(s, SetIgnored(id));
    StepKeepsClosed(s, SetIgnored(id));
    ClosedJobsNeverChange(ignored, later);
    StepKeepsClosed(Run(ignored, later), e);
  }
}
