// Lease-locked cleanup jobs (src/modules/cleanup-jobs/cleanup-job-command.service.ts,
// cleanup-jobs.service.ts and constants/cleanup-job.constant.ts).
//
// Workers and admin runs take a job by setting a lease, dispatch it, and commit the outcome with an update
// that looks at the job's status and at the lease, but not at who holds it.
module CleanupJobs {
  import opened Common
  import opened Sequences

  datatype Status = Pending | Retry | Done | Failed | Ignored

  datatype Action =
    | CloudinaryDeleteOne | CloudinaryDeleteMany | R2DeleteOne | R2DeleteMany
    | RedisRemoveUnseenOne | RedisRemoveUnseenMany
    | SessionRevoke | SessionRevokeAll

  datatype Job = Job(
    action: Action,
    status: Status,
    retryCount: nat,
    maxRetries: nat,
    lockedUntil: Option<Instant>,
    nextRetryAt: Option<Instant>)
  {
    predicate Open() {
      status.Pending? || status.Retry?
    }
  }

  const LOCK_DURATION_MS: int := 10 * 60 * 1000
  const MINUTE_MS: int := 60 * 1000

  // CLEANUP_RETRY_DELAYS_MINUTES
  function RetryDelays(action: Action): (delays: seq<int>)
    ensures forall i | 0 <= i < |delays| :: 10 <= delays[i]
  {
    match action
    case RedisRemoveUnseenOne => [20, 30, 40, 50, 60, 70, 80, 90, 100]
    case RedisRemoveUnseenMany => [20, 30, 40, 50, 60, 70, 80, 90, 100]
    case SessionRevoke => Repeat(1008, 10)
    case SessionRevokeAll => Repeat(1008, 10)
    case _ => [30, 60, 240, 720, 1440, 2880, 4320, 5760, 10080]
  }

  function MaxRetries(action: Action): nat {
    |RetryDelays(action)|
  }

  function NewJob(action: Action): Job {
    Job(action, Pending, 0, MaxRetries(action), None, None)
  }

  // ----- Updates of one record -----

  // getRunnableCleanupJobFilter
  predicate Runnable(job: Job, now: Instant) {
    job.Open() && (job.lockedUntil.None? || job.lockedUntil.value <= now)
  }

  function Lock(job: Job, now: Instant): Job {
    if Runnable(job, now) then job.(lockedUntil := Some(now + LOCK_DURATION_MS)) else job
  }

  function Ignore(job: Job, now: Instant): Job {
    if Runnable(job, now) then job.(status := Ignored, lockedUntil := None) else job
  }

  function Unlock(job: Job, now: Instant): Job {
    if job.lockedUntil.Some? && job.lockedUntil.value < now && job.Open()
    then job.(lockedUntil := None) else job
  }

  // The filter of the three commits: the status the worker saw, and some lease that has not run out.
  predicate Committable(job: Job, seen: Job, now: Instant) {
    job.status == seen.status && job.lockedUntil.Some? && now < job.lockedUntil.value
  }

  function CommitDone(job: Job, seen: Job, now: Instant): Job {
    if Committable(job, seen, now) then job.(status := Done, nextRetryAt := None, lockedUntil := None) else job
  }

  // The decision taken when dispatching, or committing DONE, has thrown.
  predicate GivesUp(seen: Job) {
    var newRetryCount := seen.retryCount + 1;
    newRetryCount > seen.maxRetries || |RetryDelays(seen.action)| < newRetryCount
  }

  function CommitFailure(job: Job, seen: Job, now: Instant): Job {
    if !Committable(job, seen, now) then job
    else if GivesUp(seen) then
      job.(status := Failed, retryCount := seen.maxRetries, nextRetryAt := None, lockedUntil := None)
    else
      var newRetryCount := seen.retryCount + 1;
      job.(status := Retry, retryCount := newRetryCount,
           nextRetryAt := Some(now + RetryDelays(seen.action)[newRetryCount - 1] * MINUTE_MS),
           lockedUntil := None)
  }

  // ----- Many workers -----

  // A run of processCleanupJob in flight: the job as locked, and whether it is in the catch block.
  datatype Worker = Worker(job: Id, seen: Job, threw: bool) {
    // End of the lease this run was granted.
    function Lease(): Instant
      requires seen.lockedUntil.Some?
    {
      seen.lockedUntil.value
    }
  }

  datatype State = State(now: Instant, jobs: map<Id, Job>, workers: map<Id, Worker>)

  datatype Event =
    | Create(job: Id, action: Action)
    | Acquire(worker: Id, job: Id)
    | Throw(worker: Id)          // dispatch fails
    | Complete(worker: Id)       // dispatch succeeds, commit DONE
    | Recover(worker: Id)        // the catch block: commit RETRY or FAILED
    | SetIgnored(job: Id)
    | UnlockStuck
    | Tick(to: Instant)

  function PutJob(s: State, id: Id, job: Job): State {
    s.(jobs := s.jobs[id := job])
  }

  function StepAcquire(s: State, worker: Id, id: Id): State {
    if worker in s.workers || id !in s.jobs || !Runnable(s.jobs[id], s.now) then s
    else
      var locked := Lock(s.jobs[id], s.now);
      PutJob(s, id, locked).(workers := s.workers[worker := Worker(id, locked, false)])
  }

  function StepThrow(s: State, worker: Id): State {
    if worker !in s.workers then s
    else s.(workers := s.workers[worker := s.workers[worker].(threw := true)])
  }

  // A refused DONE throws inside the try block, so the run goes on in the catch block.
  function StepComplete(s: State, worker: Id): State {
    if worker !in s.workers || s.workers[worker].threw || s.workers[worker].job !in s.jobs then s
    else
      var w := s.workers[worker];
      if Committable(s.jobs[w.job], w.seen, s.now) then
        PutJob(s, w.job, CommitDone(s.jobs[w.job], w.seen, s.now)).(workers := s.workers - {worker})
      else StepThrow(s, worker)
  }

  function StepRecover(s: State, worker: Id): State {
    if worker !in s.workers || !s.workers[worker].threw || s.workers[worker].job !in s.jobs then s
    else
      var w := s.workers[worker];
      PutJob(s, w.job, CommitFailure(s.jobs[w.job], w.seen, s.now)).(workers := s.workers - {worker})
  }

  function StepIgnore(s: State, id: Id): State {
    if id in s.jobs then PutJob(s, id, Ignore(s.jobs[id], s.now)) else s
  }

  function StepUnlock(s: State): State {
    s.(jobs := map id | id in s.jobs :: Unlock(s.jobs[id], s.now))
  }

  function Step(s: State, e: Event): State {
    match e
    case Create(id, action) => if id in s.jobs then s else PutJob(s, id, NewJob(action))
    case Acquire(worker, id) => StepAcquire(s, worker, id)
    case Throw(worker) => StepThrow(s, worker)
    case Complete(worker) => StepComplete(s, worker)
    case Recover(worker) => StepRecover(s, worker)
    case SetIgnored(id) => StepIgnore(s, id)
    case UnlockStuck => StepUnlock(s)
    case Tick(to) => if s.now <= to then s.(now := to) else s
  }

  function Run(s: State, events: seq<Event>): State
    decreases |events|
  {
    if events == [] then s else Run(Step(s, events[0]), events[1..])
  }

  // ----- Closed statuses absorb, whoever commits whenever -----

  ghost predicate SoundWorkers(s: State) {
    forall w | w in s.workers ::
      s.workers[w].seen.Open() && s.workers[w].seen.lockedUntil.Some? && s.workers[w].job in s.jobs
  }

  ghost predicate ClosedStay(s: State, t: State) {
    forall id | id in s.jobs :: id in t.jobs && (!s.jobs[id].Open() ==> t.jobs[id] == s.jobs[id])
  }

  lemma StepKeepsClosed(s: State, e: Event)
    requires SoundWorkers(s)
    ensures SoundWorkers(Step(s, e)) && ClosedStay(s, Step(s, e))
  {
  }

  // DONE, FAILED and IGNORED never change: not even a worker whose lease ran out long ago can touch them.
  lemma {:induction false} ClosedJobsNeverChange(s: State, events: seq<Event>)
    requires SoundWorkers(s)
    ensures SoundWorkers(Run(s, events)) && ClosedStay(s, Run(s, events))
    decreases |events|
  {
    if events == [] {
    } else {
      StepKeepsClosed(s, events[0]);
      ClosedJobsNeverChange(Step(s, events[0]), events[1..]);
    }
  }

  // ----- Holders that commit before their lease ends -----

  ghost predicate InTime(s: State, e: Event) {
    (e.Complete? || e.Recover?) && e.worker in s.workers ==> Live(s, e.worker)
  }

  ghost predicate RunInTime(s: State, events: seq<Event>)
    decreases |events|
  {
    events == [] || (InTime(s, events[0]) && RunInTime(Step(s, events[0]), events[1..]))
  }

  ghost predicate SoundJob(job: Job) {
    && job.maxRetries == MaxRetries(job.action)
    && job.retryCount <= job.maxRetries
    && (job.status.Pending? ==> job.retryCount == 0)
    && (!job.Open() ==> job.lockedUntil.None?)
  }

  ghost predicate Live(s: State, w: Id) {
    w in s.workers && s.workers[w].seen.lockedUntil.Some? && s.now < s.workers[w].Lease()
  }

  // While its lease lasts, the job is still exactly as the holder saw it.
  ghost predicate Holds(s: State, w: Id)
    requires w in s.workers
  {
    s.workers[w].job in s.jobs && s.jobs[s.workers[w].job] == s.workers[w].seen
  }

  ghost predicate Invariant(s: State) {
    && (forall id | id in s.jobs :: SoundJob(s.jobs[id]))
    && SoundWorkers(s)
    && (forall w | Live(s, w) :: Holds(s, w))
    && (forall v, w | Live(s, v) && Live(s, w) && s.workers[v].job == s.workers[w].job :: v == w)
  }

  lemma AcquireKeepsInvariant(s: State, worker: Id, id: Id)
    requires Invariant(s)
    ensures Invariant(StepAcquire(s, worker, id))
  {
    var t := StepAcquire(s, worker, id);
    if t != s {
      forall w | w != worker && Live(s, w)
        ensures s.workers[w].job != id
      {
        assert Holds(s, w);
      }
      forall w | Live(t, w)
        ensures Holds(t, w)
      {
        assert w != worker ==> Live(s, w) && Holds(s, w);
      }
      forall v, w | Live(t, v) && Live(t, w) && t.workers[v].job == t.workers[w].job
        ensures v == w
      {
        assert v != worker ==> Live(s, v);
        assert w != worker ==> Live(s, w);
      }
    }
  }

  lemma ThrowKeepsInvariant(s: State, worker: Id)
    requires Invariant(s)
    ensures Invariant(StepThrow(s, worker))
  {
    var t := StepThrow(s, worker);
    forall w | Live(t, w)
      ensures Holds(t, w)
    {
      assert Live(s, w) && Holds(s, w);
    }
    forall v, w | Live(t, v) && Live(t, w) && t.workers[v].job == t.workers[w].job
      ensures v == w
    {
      assert Live(s, v) && Live(s, w);
    }
  }

  // A holder in time writes its outcome over the very job it saw, and leaves.
  lemma CommitKeepsInvariant(s: State, worker: Id, job: Job)
    requires Invariant(s) && Live(s, worker) && SoundJob(job)
    ensures Invariant(PutJob(s, s.workers[worker].job, job).(workers := s.workers - {worker}))
  {
    var t := PutJob(s, s.workers[worker].job, job).(workers := s.workers - {worker});
    forall w | Live(t, w)
      ensures Holds(t, w)
    {
      assert Live(s, w) && Holds(s, w);
    }
    forall v, w | Live(t, v) && Live(t, w) && t.workers[v].job == t.workers[w].job
      ensures v == w
    {
      assert Live(s, v) && Live(s, w);
    }
  }

  // Steps that leave the workers alone and touch no job under a live lease.
  lemma JobsKeepInvariant(s: State, t: State)
    requires Invariant(s) && t.workers == s.workers && s.now <= t.now && s.jobs.Keys <= t.jobs.Keys
    requires forall id | id in t.jobs :: SoundJob(t.jobs[id])
    requires forall id | id in s.jobs && s.jobs[id].lockedUntil.Some? && t.now < s.jobs[id].lockedUntil.value ::
      t.jobs[id] == s.jobs[id]
    ensures Invariant(t)
  {
    forall w | Live(t, w)
      ensures Holds(t, w)
    {
      assert Live(s, w) && Holds(s, w);
    }
    forall v, w | Live(t, v) && Live(t, w) && t.workers[v].job == t.workers[w].job
      ensures v == w
    {
      assert Live(s, v) && Live(s, w);
    }
  }

  lemma IgnoreKeepsInvariant(s: State, id: Id)
    requires Invariant(s)
    ensures Invariant(StepIgnore(s, id))
  {
    if id in s.jobs {
      assert SoundJob(s.jobs[id]);
      JobsKeepInvariant(s, StepIgnore(s, id));
    }
  }

  lemma UnlockKeepsInvariant(s: State)
    requires Invariant(s)
    ensures Invariant(StepUnlock(s))
  {
    forall id | id in s.jobs
      ensures SoundJob(Unlock(s.jobs[id], s.now))
    {
      assert SoundJob(s.jobs[id]);
    }
    JobsKeepInvariant(s, StepUnlock(s));
  }

  lemma CompleteKeepsInvariant(s: State, worker: Id)
    requires Invariant(s) && InTime(s, Complete(worker))
    ensures Invariant(StepComplete(s, worker))
  {
    if worker in s.workers && !s.workers[worker].threw {
      assert Live(s, worker) && Holds(s, worker);
      var w := s.workers[worker];
      if Committable(s.jobs[w.job], w.seen, s.now) {
        CommitKeepsInvariant(s, worker, CommitDone(s.jobs[w.job], w.seen, s.now));
      } else {
        ThrowKeepsInvariant(s, worker);
      }
    }
  }

  lemma RecoverKeepsInvariant(s: State, worker: Id)
    requires Invariant(s) && InTime(s, Recover(worker))
    ensures Invariant(StepRecover(s, worker))
  {
    if worker in s.workers && s.workers[worker].threw {
      assert Live(s, worker) && Holds(s, worker);
      var w := s.workers[worker];
      CommitKeepsInvariant(s, worker, CommitFailure(s.jobs[w.job], w.seen, s.now));
    }
  }

  lemma StepKeepsInvariant(s: State, e: Event)
    requires Invariant(s) && InTime(s, e)
    ensures Invariant(Step(s, e))
  {
    match e
    case Acquire(worker, id) => AcquireKeepsInvariant(s, worker, id);
    case Throw(worker) => ThrowKeepsInvariant(s, worker);
    case Complete(worker) => CompleteKeepsInvariant(s, worker);
    case Recover(worker) => RecoverKeepsInvariant(s, worker);
    case Create(_, _) => JobsKeepInvariant(s, Step(s, e));
    case SetIgnored(id) => IgnoreKeepsInvariant(s, id);
    case UnlockStuck => UnlockKeepsInvariant(s);
    case Tick(_) => JobsKeepInvariant(s, Step(s, e));
  }

  lemma {:induction false} RunKeepsInvariant(s: State, events: seq<Event>)
    requires Invariant(s) && RunInTime(s, events)
    ensures Invariant(Run(s, events))
    decreases |events|
  {
    if events == [] {
    } else {
      StepKeepsInvariant(s, events[0]);
      RunKeepsInvariant(Step(s, events[0]), events[1..]);
    }
  }

  const EMPTY := State(0, map[], map[])

  // At any moment of such a run a job has at most one holder whose lease still runs, the job is as that
  // holder saw it, and its retry count is within the table of delays.
  lemma OneLiveHolder(events: seq<Event>, v: Id, w: Id)
    requires RunInTime(EMPTY, events)
    requires var s := Run(EMPTY, events);
      Live(s, v) && Live(s, w) && s.workers[v].job == s.workers[w].job
    ensures var s := Run(EMPTY, events);
      v == w && s.workers[v].job in s.jobs && s.jobs[s.workers[v].job] == s.workers[v].seen
      && s.workers[v].seen.retryCount <= |RetryDelays(s.workers[v].seen.action)|
  {
    RunKeepsInvariant(EMPTY, events);
    assert Holds(Run(EMPTY, events), v);
  }

  // ----- Every job closes -----

  // Rounds a job can still go through.
  function RoundsLeft(job: Job): nat {
    if job.Open() && job.retryCount <= job.maxRetries then job.maxRetries + 1 - job.retryCount else 0
  }

  // A worker's commit that changed the job.
  predicate Committed(s: State, e: Event, id: Id) {
    && (e.Complete? || e.Recover?) && e.worker in s.workers && s.workers[e.worker].job == id
    && id in s.jobs && Step(s, e).jobs[id] != s.jobs[id]
  }

  function Rounds(s: State, events: seq<Event>, id: Id): nat
    decreases |events|
  {
    if events == [] then 0
    else (if Committed(s, events[0], id) then 1 else 0) + Rounds(Step(s, events[0]), events[1..], id)
  }

  // The two steps that commit: DONE after a dispatch that went well, RETRY or FAILED after one that threw.
  predicate Commits(s: State, e: Event, id: Id) {
    && (e.Complete? || e.Recover?) && e.worker in s.workers && s.workers[e.worker].job == id
    && s.workers[e.worker].threw == e.Recover?
  }

  // A holder in time always gets its commit through, and what it does is this: DONE or FAILED closes the job,
  // RETRY raises the count by exactly one and waits the delay of that count. Everything else leaves status and
  // count alone, or ignores the job.
  lemma RoundEffect(s: State, e: Event, id: Id)
    requires Invariant(s) && InTime(s, e) && id in s.jobs
    ensures id in Step(s, e).jobs
    ensures Commits(s, e, id) <==> Committed(s, e, id)
    ensures var before, after := s.jobs[id], Step(s, e).jobs[id];
      && after.action == before.action && after.maxRetries == before.maxRetries
      && (Committed(s, e, id) && after.Open() ==>
            && after.status.Retry? && after.retryCount == before.retryCount + 1
            && after.retryCount <= |RetryDelays(before.action)|
            && after.nextRetryAt == Some(s.now + RetryDelays(before.action)[before.retryCount] * MINUTE_MS))
      && (Committed(s, e, id) && after.status.Failed? ==> before.retryCount == before.maxRetries)
      && (!Committed(s, e, id) ==>
            && after.retryCount == before.retryCount
            && (after.status == before.status || after.status.Ignored?))
  {
    if Commits(s, e, id) {
      CommitGoesThrough(s, e);
    } else {
      OthersEffect(s, e, id);
    }
  }

  lemma CommitGoesThrough(s: State, e: Event)
    requires Invariant(s) && (e.Complete? || e.Recover?) && Live(s, e.worker) && s.workers[e.worker].threw == e.Recover?
    ensures var id := s.workers[e.worker].job;
      && id in s.jobs && id in Step(s, e).jobs
      && (|| Step(s, e).jobs[id] == CommitDone(s.jobs[id], s.jobs[id], s.now)
          || Raised(s.jobs[id], Step(s, e).jobs[id], s.now))
      && Step(s, e).jobs[id] != s.jobs[id]
  {
    if e.Complete? {
      CompleteEffect(s, e.worker);
    } else {
      RecoverEffect(s, e.worker);
    }
  }

  lemma CompleteEffect(s: State, worker: Id)
    requires Invariant(s) && Live(s, worker) && !s.workers[worker].threw
    ensures var id := s.workers[worker].job;
      && id in s.jobs && s.jobs[id].Open()
      && StepComplete(s, worker).jobs
         == s.jobs[id := s.jobs[id].(status := Done, nextRetryAt := None, lockedUntil := None)]
  {
    assert Holds(s, worker);
  }

  lemma RecoverEffect(s: State, worker: Id)
    requires Invariant(s) && Live(s, worker) && s.workers[worker].threw
    ensures var id := s.workers[worker].job;
      && id in s.jobs && StepRecover(s, worker).jobs == s.jobs[id := CommitFailure(s.jobs[id], s.jobs[id], s.now)]
      && Raised(s.jobs[id], CommitFailure(s.jobs[id], s.jobs[id], s.now), s.now)
  {
    assert Holds(s, worker);
    FailureRaises(s.jobs[s.workers[worker].job], s.now);
  }

  // One failure more, with its delay, or FAILED when there is none left.
  predicate Raised(before: Job, after: Job, now: Instant) {
    && after != before && after.action == before.action && after.maxRetries == before.maxRetries
    && (if before.retryCount == before.maxRetries then after.status.Failed?
        else
          && after.status.Retry? && after.retryCount == before.retryCount + 1
          && after.retryCount <= |RetryDelays(before.action)|
          && after.nextRetryAt == Some(now + RetryDelays(before.action)[before.retryCount] * MINUTE_MS))
  }

  lemma FailureRaises(job: Job, now: Instant)
    requires SoundJob(job) && Committable(job, job, now)
    ensures Raised(job, CommitFailure(job, job, now), now)
  {
  }

  lemma OthersEffect(s: State, e: Event, id: Id)
    requires id in s.jobs && !Commits(s, e, id)
    ensures id in Step(s, e).jobs
    ensures var before, after := s.jobs[id], Step(s, e).jobs[id];
      && after.action == before.action && after.maxRetries == before.maxRetries
      && after.retryCount == before.retryCount
      && (after.status == before.status || after.status.Ignored?)
      && ((e.Complete? || e.Recover?) && e.worker in s.workers && s.workers[e.worker].job == id ==> after == before)
  {
    match e
    case Create(_, _) =>
    case Acquire(_, _) =>
    case Throw(_) =>
    case Complete(_) =>
    case Recover(_) =>
    case SetIgnored(_) =>
    case UnlockStuck =>
    case Tick(_) =>
  }

  lemma RoundsGoDown(s: State, e: Event, id: Id)
    requires Invariant(s) && InTime(s, e) && id in s.jobs
    ensures RoundsLeft(Step(s, e).jobs[id]) <= RoundsLeft(s.jobs[id])
    ensures Committed(s, e, id) ==> RoundsLeft(Step(s, e).jobs[id]) < RoundsLeft(s.jobs[id])
  {
    RoundEffect(s, e, id);
    StepKeepsInvariant(s, e);
    StepKeepsClosed(s, e);
  }

  lemma {:induction false} RoundsAreBounded(s: State, events: seq<Event>, id: Id)
    requires Invariant(s) && RunInTime(s, events) && id in s.jobs
    ensures id in Run(s, events).jobs
    ensures Rounds(s, events, id) + RoundsLeft(Run(s, events).jobs[id]) <= RoundsLeft(s.jobs[id])
    decreases |events|
  {
    if events == [] {
    } else {
      var t := Step(s, events[0]);
      assert Invariant(t) && id in t.jobs by {
        StepKeepsInvariant(s, events[0]);
        StepKeepsClosed(s, events[0]);
      }
      assert RoundsLeft(t.jobs[id]) + (if Committed(s, events[0], id) then 1 else 0) <= RoundsLeft(s.jobs[id]) by {
        RoundsGoDown(s, events[0], id);
      }
      RoundsAreBounded(t, events[1..], id);
    }
  }

  // However many workers, admins, ignores and unlock passes there are, the outcome of a job is committed at most
  // maxRetries + 1 times, and after that many commits it is closed.
  lemma EveryJobCloses(s: State, id: Id, action: Action, events: seq<Event>)
    requires Invariant(s) && id !in s.jobs && RunInTime(Step(s, Create(id, action)), events)
    ensures var t := Step(s, Create(id, action));
      && id in Run(t, events).jobs
      && Rounds(t, events, id) <= MaxRetries(action) + 1
      && (Rounds(t, events, id) == MaxRetries(action) + 1 ==> !Run(t, events).jobs[id].Open())
  {
    var t := Step(s, Create(id, action));
    StepKeepsInvariant(s, Create(id, action));
    RoundsAreBounded(t, events, id);
    RunKeepsInvariant(t, events);
  }

  // ----- What brings a job into its status -----

  // The table of delays grows, and a job that keeps failing is given up after the nine hours of the Redis clean-ups,
  // the week of the session clean-ups, or the seventeen days and seventeen and a half hours of the media clean-ups.
  lemma DelaysGrow(action: Action)
    ensures var delays := RetryDelays(action);
      && (forall i, j | 0 <= i < j < |delays| :: delays[i] <= delays[j])
      && Total(delays) == (match action
           case RedisRemoveUnseenOne | RedisRemoveUnseenMany => 9 * 60
           case SessionRevoke | SessionRevokeAll => 7 * 24 * 60
           case _ => 17 * 24 * 60 + 17 * 60 + 30)
  {
    if action.SessionRevoke? || action.SessionRevokeAll? {
      TotalOfRepeat(1008, 10);
    } else {
      TotalOfNine(RetryDelays(action));
    }
  }

  lemma TotalOfNine(d: seq<int>)
    requires |d| == 9
    ensures Total(d) == d[0] + d[1] + d[2] + d[3] + d[4] + d[5] + d[6] + d[7] + d[8]
  {
    TotalFrom(d, 3);
    TotalFrom(d, 6);
    TotalFrom(d, 9);
    assert d[0..] == d && Total(d[9..]) == 0;
  }

  lemma TotalFrom(d: seq<int>, k: nat)
    requires 3 <= k <= |d|
    ensures Total(d[k - 3..]) == d[k - 3] + d[k - 2] + d[k - 1] + Total(d[k..])
  {
    assert Total(d[k - 1..]) == d[k - 1] + Total(d[k..]) by { assert d[k - 1..][1..] == d[k..]; }
    assert Total(d[k - 2..]) == d[k - 2] + Total(d[k - 1..]) by { assert d[k - 2..][1..] == d[k - 1..]; }
    assert Total(d[k - 3..]) == d[k - 3] + Total(d[k - 2..]) by { assert d[k - 3..][1..] == d[k - 2..]; }
  }

  function Total(delays: seq<int>): int {
    if delays == [] then 0 else delays[0] + Total(delays[1..])
  }

  lemma {:induction false} TotalOfRepeat(n: nat, minutes: int)
    ensures Total(Repeat(n, minutes)) == n * minutes
  {
    if n == 0 {
    } else {
      assert Repeat(n, minutes)[1..] == Repeat(n - 1, minutes);
      TotalOfRepeat(n - 1, minutes);
    }
  }
}
