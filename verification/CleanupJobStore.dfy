// The cleanup-job services as the code of one request at a time
// (src/modules/cleanup-jobs/cleanup-job-command.service.ts and cleanup-jobs.service.ts:58-89).
module CleanupJobStores {
  import opened Common
  import opened CleanupJobs

  datatype Outcome = Updated(job: Job) | NotFoundOrLocked | FailedToUpdate

  // What the filter of the unlock pass matches.
  function Stuck(jobs: map<Id, Job>, now: Instant): set<Id> {
    set id | id in jobs && jobs[id].lockedUntil.Some? && jobs[id].lockedUntil.value < now && jobs[id].Open()
  }

  lemma StuckAreUnlocked(jobs: map<Id, Job>, now: Instant)
    ensures var stuck := Stuck(jobs, now);
      && (map id | id in jobs :: if id in stuck then jobs[id].(lockedUntil := None) else jobs[id])
         == (map id | id in jobs :: Unlock(jobs[id], now))
      && (set id | id in jobs && Unlock(jobs[id], now) != jobs[id]) == stuck
      && (forall id | id in jobs && SoundJob(jobs[id]) :: SoundJob(Unlock(jobs[id], now)))
  {
  }

  // Locked, dispatched for a while, and then DONE or its failure recorded.
  function AfterProcessing(job: Job, now: Instant, elapsed: nat, dispatched: bool): (after: Job)
    ensures Runnable(job, now) && elapsed < LOCK_DURATION_MS && dispatched ==> after.status.Done?
  {
    var locked := Lock(job, now);
    if dispatched then CommitDone(locked, locked, now + elapsed) else CommitFailure(locked, locked, now + elapsed)
  }

  lemma LastUpdateStays(jobs: map<Id, Job>, id: Id, first: Job, second: Job)
    ensures jobs[id := first][id := second] == jobs[id := second]
  {
  }

  // A job that has just been locked can be committed exactly until its lease ends.
  lemma JustLocked(job: Job, now: Instant, elapsed: nat)
    requires Runnable(job, now)
    ensures Committable(Lock(job, now), Lock(job, now), now + elapsed) <==> elapsed < LOCK_DURATION_MS
  {
  }

  class CleanupJobStore {
    var now: Instant
    var jobs: map<Id, Job>
    var nextId: Id

    constructor (at: Instant)
      ensures Valid() && now == at && jobs == map[]
    {
      now, jobs, nextId := at, map[], 0;
    }

    ghost predicate Valid()
      reads this
    {
      forall id | id in jobs :: id < nextId && SoundJob(jobs[id])
    }

    method CreateCleanupJob(action: Action) returns (id: Id)
      requires Valid()
      modifies `jobs, `nextId
      ensures Valid()
      ensures id !in old(jobs) && jobs == old(jobs)[id := NewJob(action)]
    {
      id := nextId;
      jobs := jobs[id := NewJob(action)];
      nextId := nextId + 1;
    }

    method UnlockStuckJobs() returns (modifiedCount: nat)
      requires Valid()
      modifies `jobs
      ensures Valid()
      ensures jobs == map id | id in old(jobs) :: Unlock(old(jobs)[id], now)
      ensures forall id | id in jobs && jobs[id].Open() && jobs[id].lockedUntil.Some? ::
                now <= jobs[id].lockedUntil.value && jobs[id] == old(jobs)[id]
      ensures modifiedCount == |set id | id in old(jobs) && jobs[id] != old(jobs)[id]|
    {
      StuckAreUnlocked(jobs, now);
      var stuck := Stuck(jobs, now);
      jobs := map id | id in jobs :: if id in stuck then jobs[id].(lockedUntil := None) else jobs[id];
      modifiedCount := |stuck|;
      assert stuck == set id | id in old(jobs) && jobs[id] != old(jobs)[id];
    }

    method SetIgnoreJob(id: Id) returns (r: Outcome)
      requires Valid()
      modifies `jobs
      ensures Valid()
      ensures r == if id in old(jobs) && Runnable(old(jobs)[id], now)
                   then Updated(Ignore(old(jobs)[id], now)) else NotFoundOrLocked
      ensures r.Updated? ==> r.job.status == Ignored && r.job.lockedUntil == None
      ensures r.Updated? ==> !r.job.Open() && forall at :: !Runnable(r.job, at)
      ensures jobs == if r.Updated? then old(jobs)[id := r.job] else old(jobs)
    {
      if id !in jobs || !Runnable(jobs[id], now) {
        return NotFoundOrLocked;
      }
      jobs := jobs[id := jobs[id].(status := Ignored, lockedUntil := None)];
      r := Updated(jobs[id]);
    }

    method GetAndLockCleanupJob(id: Id) returns (r: Outcome)
      requires Valid()
      modifies `jobs
      ensures Valid()
      ensures r == if id in old(jobs) && Runnable(old(jobs)[id], now)
                   then Updated(Lock(old(jobs)[id], now)) else NotFoundOrLocked
      ensures r.Updated? ==> r.job.status == old(jobs)[id].status && forall at: Instant ::
                Runnable(r.job, at) <==> now + 600_000 <= at
      ensures jobs == if r.Updated? then old(jobs)[id := r.job] else old(jobs)
    {
      if id !in jobs || !Runnable(jobs[id], now) {
        return NotFoundOrLocked;
      }
      jobs := jobs[id := jobs[id].(lockedUntil := Some(now + LOCK_DURATION_MS))];
      r := Updated(jobs[id]);
    }

    method HandleCompletedJob(id: Id, seen: Job) returns (r: Outcome)
      requires Valid() && id in jobs
      modifies `jobs
      ensures Valid()
      ensures r == if Committable(old(jobs)[id], seen, now)
                   then Updated(CommitDone(old(jobs)[id], seen, now)) else FailedToUpdate
      ensures r.Updated? ==> r.job.status == Done && r.job.lockedUntil == None && r.job.nextRetryAt == None
      ensures jobs == if r.Updated? then old(jobs)[id := r.job] else old(jobs)
    {
      if !Committable(jobs[id], seen, now) {
        return FailedToUpdate;
      }
      jobs := jobs[id := jobs[id].(status := Done, nextRetryAt := None, lockedUntil := None)];
      r := Updated(jobs[id]);
    }

    method HandleRetryJob(id: Id, seen: Job, newRetryCount: nat) returns (r: Outcome)
      requires Valid() && id in jobs && seen.Open() && SoundJob(seen) && seen.action == jobs[id].action
      requires 1 <= newRetryCount <= seen.maxRetries
      modifies `jobs
      ensures Valid()
      ensures jobs == if r.Updated? then old(jobs)[id := r.job] else old(jobs)
      ensures r.Updated? <==> Committable(old(jobs)[id], seen, now)
      ensures r.Updated? ==> r.job == old(jobs)[id].(
        status := Retry, retryCount := newRetryCount, lockedUntil := None,
        nextRetryAt := Some(now + RetryDelays(seen.action)[newRetryCount - 1] * MINUTE_MS))
      ensures !r.NotFoundOrLocked?
    {
      var nextRetryMinutes := RetryDelays(seen.action)[newRetryCount - 1];
      if !Committable(jobs[id], seen, now) {
        return FailedToUpdate;
      }
      jobs := jobs[id := jobs[id].(status := Retry, retryCount := newRetryCount,
                                   nextRetryAt := Some(now + nextRetryMinutes * MINUTE_MS),
                                   lockedUntil := None)];
      r := Updated(jobs[id]);
    }

    method HandleFailedJob(id: Id, seen: Job, finalRetryCount: nat) returns (r: Outcome)
      requires Valid() && id in jobs && finalRetryCount <= jobs[id].maxRetries
      modifies `jobs
      ensures Valid()
      ensures r == if Committable(old(jobs)[id], seen, now)
                   then Updated(old(jobs)[id].(status := Failed, retryCount := finalRetryCount,
                                               nextRetryAt := None, lockedUntil := None))
                   else FailedToUpdate
      ensures jobs == if r.Updated? then old(jobs)[id := r.job] else old(jobs)
    {
      if !Committable(jobs[id], seen, now) {
        return FailedToUpdate;
      }
      jobs := jobs[id := jobs[id].(status := Failed, retryCount := finalRetryCount,
                                   nextRetryAt := None, lockedUntil := None)];
      r := Updated(jobs[id]);
    }

    // One undisturbed run: lock, dispatch for `elapsed` milliseconds, commit. `dispatched` is the verdict
    // of the dispatcher. In time the outcome is the machine's; too late every commit is refused.
    method ProcessCleanupJob(id: Id, elapsed: nat, dispatched: bool) returns (r: Outcome)
      requires Valid()
      modifies this
      ensures Valid()
      ensures r.NotFoundOrLocked? <==> !(id in old(jobs) && Runnable(old(jobs)[id], old(now)))
      ensures r.NotFoundOrLocked? ==> jobs == old(jobs) && now == old(now)
      ensures !r.NotFoundOrLocked? ==> now == old(now) + elapsed
      ensures r.Updated? <==> !r.NotFoundOrLocked? && elapsed < LOCK_DURATION_MS
      ensures r.Updated? ==> jobs == old(jobs)[id := r.job]
      ensures r.Updated? ==> r.job == AfterProcessing(old(jobs)[id], old(now), elapsed, dispatched)
      ensures r.FailedToUpdate? ==> jobs == old(jobs)[id := Lock(old(jobs)[id], old(now))]
    {
      r := GetAndLockCleanupJob(id);
      if !r.Updated? {
        return;
      }
      var cleanupJob := r.job;
      JustLocked(old(jobs)[id], now, elapsed);
      now := now + elapsed;
      ghost var locked := jobs;
      r := CommitOutcome(id, cleanupJob, dispatched);
      if r.Updated? {
        LastUpdateStays(old(jobs), id, cleanupJob, r.job);
        assert jobs == locked[id := r.job];
      }
    }

    // A refused DONE throws inside the try block, so the catch block follows.
    method CommitOutcome(id: Id, cleanupJob: Job, dispatched: bool) returns (r: Outcome)
      requires Valid() && id in jobs && jobs[id] == cleanupJob && cleanupJob.Open()
      modifies `jobs
      ensures Valid()
      ensures r == if !Committable(cleanupJob, cleanupJob, now) then FailedToUpdate
                   else if dispatched then Updated(CommitDone(cleanupJob, cleanupJob, now))
                   else Updated(CommitFailure(cleanupJob, cleanupJob, now))
      ensures jobs == if r.Updated? then old(jobs)[id := r.job] else old(jobs)
    {
      var threw := !dispatched;
      if dispatched {
        r := HandleCompletedJob(id, cleanupJob);
        threw := r.FailedToUpdate?;
      }
      if threw {
        r := RecoverFailure(id, cleanupJob);
      }
    }

    // The catch block: one more retry while the table of delays has an entry, otherwise FAILED.
    method RecoverFailure(id: Id, cleanupJob: Job) returns (r: Outcome)
      requires Valid() && id in jobs
      requires cleanupJob.Open() && SoundJob(cleanupJob) && cleanupJob.action == jobs[id].action
      modifies `jobs
      ensures Valid()
      ensures r == if Committable(old(jobs)[id], cleanupJob, now)
                   then Updated(CommitFailure(old(jobs)[id], cleanupJob, now)) else FailedToUpdate
      ensures jobs == if r.Updated? then old(jobs)[id := r.job] else old(jobs)
    {
      var newRetryCount := cleanupJob.retryCount + 1;
      var hasMoreDelays := |RetryDelays(cleanupJob.action)| >= newRetryCount;
      if newRetryCount > cleanupJob.maxRetries || !hasMoreDelays {
        r := HandleFailedJob(id, cleanupJob, cleanupJob.maxRetries);
      } else {
        r := HandleRetryJob(id, cleanupJob, newRetryCount);
      }
    }
  }
}
