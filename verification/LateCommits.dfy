// Cleanup jobs without any assumption on time: what a commit does under somebody else's lease
// (src/modules/cleanup-jobs/cleanup-job-command.service.ts:117-228).
module LateCommits {
  import opened Common
  import opened CleanupJobs

  // ----- What every run keeps, however late its commits -----

  ghost predicate Counted(job: Job) {
    job.maxRetries == MaxRetries(job.action) && job.retryCount <= job.maxRetries
  }

  ghost predicate Timeless(s: State) {
    && SoundWorkers(s)
    && (forall id | id in s.jobs :: Counted(s.jobs[id]))
    && (forall w | w in s.workers ::
          Counted(s.workers[w].seen) && s.workers[w].seen.action == s.jobs[s.workers[w].job].action)
  }

  lemma FailureStaysCounted(job: Job, seen: Job, now: Instant)
    requires Counted(job) && Counted(seen) && seen.action == job.action
    ensures Counted(CommitFailure(job, seen, now)) && CommitFailure(job, seen, now).action == job.action
  {
  }

  // Steps that keep every job's action, counted, and let no new worker in.
  lemma JobsStayTimeless(s: State, t: State)
    requires Timeless(s) && SoundWorkers(t) && s.jobs.Keys <= t.jobs.Keys
    requires forall id | id in t.jobs :: Counted(t.jobs[id])
    requires forall id | id in s.jobs :: t.jobs[id].action == s.jobs[id].action
    requires forall w | w in t.workers ::
      w in s.workers && t.workers[w].seen == s.workers[w].seen && t.workers[w].job == s.workers[w].job
    ensures Timeless(t)
  {
  }

  lemma AcquireStaysTimeless(s: State, worker: Id, id: Id)
    requires Timeless(s)
    ensures Timeless(StepAcquire(s, worker, id))
  {
    StepKeepsClosed(s, Acquire(worker, id));
  }

  lemma RecoverStaysTimeless(s: State, worker: Id)
    requires Timeless(s)
    ensures Timeless(StepRecover(s, worker))
  {
    StepKeepsClosed(s, Recover(worker));
    if worker in s.workers {
      FailureStaysCounted(s.jobs[s.workers[worker].job], s.workers[worker].seen, s.now);
    }
    JobsStayTimeless(s, StepRecover(s, worker));
  }

  lemma OthersLeaveCounts(s: State, e: Event, id: Id)
    requires !e.Recover? && id in s.jobs
    ensures id in Step(s, e).jobs
    ensures var before, after := s.jobs[id], Step(s, e).jobs[id];
      after.action == before.action && after.maxRetries == before.maxRetries && after.retryCount == before.retryCount
  {
    match e
    case Create(_, _) =>
    case Acquire(_, _) =>
    case Throw(_) =>
    case Complete(worker) => assert Step(s, e) == StepComplete(s, worker);
    case SetIgnored(_) =>
    case UnlockStuck =>
    case Tick(_) =>
  }

  lemma NobodyNew(s: State, e: Event, w: Id)
    requires !e.Acquire? && w in Step(s, e).workers
    ensures w in s.workers
    ensures Step(s, e).workers[w].seen == s.workers[w].seen && Step(s, e).workers[w].job == s.workers[w].job
  {
    match e
    case Create(_, _) =>
    case Throw(_) =>
    case Complete(worker) => assert Step(s, e) == StepComplete(s, worker);
    case Recover(worker) => assert Step(s, e) == StepRecover(s, worker);
    case SetIgnored(_) =>
    case UnlockStuck =>
    case Tick(_) =>
  }

  lemma StepKeepsTimeless(s: State, e: Event)
    requires Timeless(s)
    ensures Timeless(Step(s, e))
  {
    if e.Acquire? {
      AcquireStaysTimeless(s, e.worker, e.job);
    } else if e.Recover? {
      RecoverStaysTimeless(s, e.worker);
    } else {
      OthersStayTimeless(s, e);
    }
  }

  lemma OthersStayTimeless(s: State, e: Event)
    requires Timeless(s) && !e.Acquire? && !e.Recover?
    ensures Timeless(Step(s, e))
  {
    var t := Step(s, e);
    StepKeepsClosed(s, e);
    forall id | id in t.jobs
      ensures Counted(t.jobs[id]) && (id in s.jobs ==> t.jobs[id].action == s.jobs[id].action)
    {
      if id in s.jobs {
        OthersLeaveCounts(s, e, id);
      } else {
        assert t.jobs[id] == NewJob(e.action);
      }
    }
    forall w | w in t.workers
      ensures w in s.workers && t.workers[w].seen == s.workers[w].seen && t.workers[w].job == s.workers[w].job
    {
      NobodyNew(s, e, w);
    }
    JobsStayTimeless(s, t);
  }

  lemma {:induction false} RunKeepsTimeless(s: State, events: seq<Event>)
    requires Timeless(s)
    ensures Timeless(Run(s, events))
    decreases |events|
  {
    if events == [] {
    } else {
      StepKeepsTimeless(s, events[0]);
      RunKeepsTimeless(Step(s, events[0]), events[1..]);
    }
  }

  // A failure that is committed counts from what its worker saw. So in every reachable state it raises the count by
  // one exactly when the count is still the one seen; it lowers it, leaves it or skips retries exactly when others
  // have raised it by more than one, by one, or lowered it since. Likewise FAILED is written with the retries used up
  // exactly when the count is the one seen.
  lemma RetryRaisesTheCountIff(events: seq<Event>, worker: Id)
    requires var s := Run(EMPTY, events);
      worker in s.workers && s.workers[worker].job in s.jobs && s.workers[worker].threw
      && Committable(s.jobs[s.workers[worker].job], s.workers[worker].seen, s.now)
    ensures var s := Run(EMPTY, events); var w := s.workers[worker];
      var before, after := s.jobs[w.job], StepRecover(s, worker).jobs[w.job];
      && (if GivesUp(w.seen) then
            && after.status.Failed?
            && (before.retryCount == before.maxRetries <==> before.retryCount == w.seen.retryCount)
          else
            && after.status.Retry?
            && (after.retryCount == before.retryCount + 1 <==> before.retryCount == w.seen.retryCount)
            && (after.retryCount == before.retryCount <==> before.retryCount == w.seen.retryCount + 1)
            && (after.retryCount < before.retryCount <==> before.retryCount > w.seen.retryCount + 1)
            && (after.retryCount > before.retryCount + 1 <==> before.retryCount < w.seen.retryCount))
  {
    RunKeepsTimeless(EMPTY, events);
  }

  // ----- Building runs -----

  lemma {:induction false} RunAppend(s: State, first: seq<Event>, second: seq<Event>)
    ensures Run(s, first + second) == Run(Run(s, first), second)
    ensures forall id :: Rounds(s, first + second, id) == Rounds(s, first, id) + Rounds(Run(s, first), second, id)
    ensures RunInTime(s, first) && RunInTime(Run(s, first), second) ==> RunInTime(s, first + second)
    decreases |first|
  {
    if first == [] {
      assert first + second == second;
    } else {
      assert (first + second)[1..] == first[1..] + second;
      RunAppend(Step(s, first[0]), first[1..], second);
    }
  }

  lemma RunOne(s: State, e: Event)
    ensures Run(s, [e]) == Step(s, e)
    ensures forall id :: Rounds(s, [e], id) == if Committed(s, e, id) then 1 else 0
    ensures InTime(s, e) ==> RunInTime(s, [e])
  {
    assert [e][1..] == [];
    assert Run(Step(s, e), []) == Step(s, e);
    assert RunInTime(Step(s, e), []);
    assert forall id :: Rounds(Step(s, e), [], id) == 0;
  }

  lemma RunTwo(s: State, e1: Event, e2: Event)
    ensures Run(s, [e1, e2]) == Step(Step(s, e1), e2)
    ensures forall id :: Rounds(s, [e1, e2], id)
                      == (if Committed(s, e1, id) then 1 else 0) + (if Committed(Step(s, e1), e2, id) then 1 else 0)
    ensures InTime(s, e1) && InTime(Step(s, e1), e2) ==> RunInTime(s, [e1, e2])
  {
    assert [e1, e2] == [e1] + [e2];
    RunOne(s, e1);
    RunOne(Step(s, e1), e2);
    RunAppend(s, [e1], [e2]);
  }

  // Job 0 waits for a retry, everybody may take it, and no worker has a number from `next` on.
  ghost predicate Waiting(s: State, next: Id) {
    && 0 in s.jobs && Runnable(s.jobs[0], s.now) && s.jobs[0].status.Retry?
    && s.jobs[0].action.R2DeleteOne? && s.jobs[0].maxRetries == 9 && s.jobs[0].retryCount <= 9
    && (forall w | w in s.workers :: w < next)
  }

  // A worker that took the job before its second retry, failed, and has not come back yet.
  ghost predicate Stale(s: State, w: Id) {
    w in s.workers && s.workers[w].job == 0 && s.workers[w].threw && StaleView(s.workers[w].seen)
  }

  ghost predicate StaleView(seen: Job) {
    seen.status.Retry? && seen.action.R2DeleteOne? && seen.maxRetries == 9 && seen.retryCount == 1
    && seen.lockedUntil.Some?
  }

  // A fresh worker takes the waiting job and fails; nobody else is touched.
  lemma TakeAndFail(s: State, w: Id) returns (t: State)
    requires Waiting(s, w)
    ensures t == Run(s, [Acquire(w, 0), Throw(w)]) && RunInTime(s, [Acquire(w, 0), Throw(w)])
    ensures Rounds(s, [Acquire(w, 0), Throw(w)], 0) == 0
    ensures var taken := s.jobs[0].(lockedUntil := Some(s.now + LOCK_DURATION_MS));
      t == State(s.now, s.jobs[0 := taken], s.workers[w := Worker(0, taken, true)])
  {
    RunTwo(s, Acquire(w, 0), Throw(w));
    var taken := Lock(s.jobs[0], s.now);
    var t1 := StepAcquire(s, w, 0);
    assert t1 == State(s.now, s.jobs[0 := taken], s.workers[w := Worker(0, taken, false)]);
    t := StepThrow(t1, w);
    assert t.workers == s.workers[w := Worker(0, taken, true)];
  }

  // ... and stays away until the lease is over.
  lemma TakeAndStayAway(s: State, w: Id) returns (events: seq<Event>)
    requires Waiting(s, w)
    ensures RunInTime(s, events) && Rounds(s, events, 0) == 0
    ensures var t := Run(s, events); var taken := s.jobs[0].(lockedUntil := Some(s.now + LOCK_DURATION_MS));
      && Waiting(t, w + 1) && t.jobs == s.jobs[0 := taken] && t.workers == s.workers[w := Worker(0, taken, true)]
  {
    var two := [Acquire(w, 0), Throw(w)];
    var t := TakeAndFail(s, w);
    var tick := Tick(s.now + LOCK_DURATION_MS);
    RunOne(t, tick);
    RunAppend(s, two, [tick]);
    events := two + [tick];
  }

  // ... or comes back at once: an ordinary retry.
  lemma RetryInTime(s: State, w: Id) returns (events: seq<Event>)
    requires Waiting(s, w) && s.jobs[0].retryCount < 9
    ensures var t := Run(s, events);
      && Waiting(t, w) && t.jobs[0].retryCount == s.jobs[0].retryCount + 1 && t.workers == s.workers && t.now == s.now
  {
    var two := [Acquire(w, 0), Throw(w)];
    var t := TakeAndFail(s, w);
    RunAppend(s, two, [Recover(w)]);
    RunOne(t, Recover(w));
    assert StepRecover(t, w).workers == s.workers;
    events := two + [Recover(w)];
  }

  lemma FirstRetry() returns (events: seq<Event>)
    ensures RunInTime(EMPTY, events)
    ensures var s := Run(EMPTY, events); Waiting(s, 0) && s.jobs[0].retryCount == 1 && s.workers == map[]
  {
    var first, second := [Create(0, R2DeleteOne), Acquire(0, 0)], [Throw(0), Recover(0)];
    RunTwo(EMPTY, Create(0, R2DeleteOne), Acquire(0, 0));
    var seen := NewJob(R2DeleteOne).(lockedUntil := Some(LOCK_DURATION_MS));
    var s1 := Run(EMPTY, first);
    assert s1 == State(0, map[0 := seen], map[0 := Worker(0, seen, false)]);
    RunTwo(s1, Throw(0), Recover(0));
    assert StepThrow(s1, 0).workers == map[0 := Worker(0, seen, true)];
    assert Live(StepThrow(s1, 0), 0);
    RunAppend(EMPTY, first, second);
    events := first + second;
    assert Run(s1, second).workers == map[];
  }

  // Any number of workers can be left behind with the view that one retry has been made.
  lemma {:induction false} StaleWorkers(n: nat) returns (events: seq<Event>)
    ensures RunInTime(EMPTY, events)
    ensures var s := Run(EMPTY, events);
      && Waiting(s, n) && s.jobs[0].retryCount == 1 && (forall w | 0 <= w < n :: Stale(s, w))
  {
    if n == 0 {
      events := FirstRetry();
    } else {
      var before := StaleWorkers(n - 1);
      var s := Run(EMPTY, before);
      var more := TakeAndStayAway(s, n - 1);
      RunAppend(EMPTY, before, more);
      events := before + more;
      forall w | 0 <= w < n
        ensures Stale(Run(EMPTY, events), w)
      {
        assert w < n - 1 ==> Stale(s, w);
      }
    }
  }

  // At least n workers have taken job 0, which is still open.
  ghost predicate TakenBy(s: State, n: nat) {
    0 in s.jobs && s.jobs[0].Open() && forall w | 0 <= w < n :: w in s.workers && s.workers[w].job == 0
  }

  // A job is dispatched without bound, all commits in time, if the workers that take it never come back:
  // only commits use up retries.
  lemma DispatchesAreUnbounded(n: nat)
    ensures exists events :: RunInTime(EMPTY, events) && TakenBy(Run(EMPTY, events), n)
  {
    var events := StaleWorkers(n);
    var s := Run(EMPTY, events);
    forall w | 0 <= w < n
      ensures w in s.workers && s.workers[w].job == 0
    {
      assert Stale(s, w);
    }
    assert RunInTime(EMPTY, events) && TakenBy(s, n);
  }

  // ----- Late commits -----

  // A fresh worker takes the job, and a stale one commits under that lease.
  lemma OneStaleCommit(s: State, stale: Id, next: Id) returns (t: State)
    requires Waiting(s, next) && Stale(s, stale)
    ensures t == Run(s, [Acquire(next, 0), Recover(stale)])
    ensures Rounds(s, [Acquire(next, 0), Recover(stale)], 0) == 1
    ensures Waiting(t, next + 1) && t.jobs[0].retryCount == 2
    ensures forall w | w in s.workers && w != stale :: w in t.workers && t.workers[w] == s.workers[w]
  {
    RunTwo(s, Acquire(next, 0), Recover(stale));
    var taken := Lock(s.jobs[0], s.now);
    var t1 := StepAcquire(s, next, 0);
    assert t1 == State(s.now, s.jobs[0 := taken], s.workers[next := Worker(0, taken, false)]);
    assert t1.workers[stale] == s.workers[stale];
    assert Committable(taken, s.workers[stale].seen, s.now) && !GivesUp(s.workers[stale].seen);
    t := StepRecover(t1, stale);
    assert Committed(t1, Recover(stale), 0) && !Committed(s, Acquire(next, 0), 0);
  }

  lemma {:induction false} StaleCommits(s: State, n: nat, next: Id) returns (events: seq<Event>)
    requires Waiting(s, next) && n <= next && (forall w | 0 <= w < n :: Stale(s, w))
    ensures Rounds(s, events, 0) >= n && Waiting(Run(s, events), next + n)
    decreases n
  {
    if n == 0 {
      events := [];
    } else {
      var two := [Acquire(next, 0), Recover(n - 1)];
      var t := OneStaleCommit(s, n - 1, next);
      forall w | 0 <= w < n - 1
        ensures Stale(t, w)
      {
        assert Stale(s, w);
      }
      var rest := StaleCommits(t, n - 1, next + 1);
      RunAppend(s, two, rest);
      events := two + rest;
    }
  }

  // Without the deadline there is no bound on the commits of a job: for every n some run commits its outcome at
  // least n times and leaves it open.
  lemma LateCommitsAreUnbounded(n: nat)
    ensures exists events ::
      && Rounds(EMPTY, events, 0) >= n && 0 in Run(EMPTY, events).jobs && Run(EMPTY, events).jobs[0].Open()
  {
    var before := StaleWorkers(n);
    var late := StaleCommits(Run(EMPTY, before), n, n);
    RunAppend(EMPTY, before, late);
    assert Waiting(Run(EMPTY, before + late), n + n);
  }

  lemma {:induction false} Retries(s: State, next: Id, k: nat) returns (events: seq<Event>)
    requires Waiting(s, next) && s.jobs[0].retryCount + k <= 9
    ensures var t := Run(s, events);
      Waiting(t, next) && t.jobs[0].retryCount == s.jobs[0].retryCount + k && t.workers == s.workers
    decreases k
  {
    if k == 0 {
      events := [];
    } else {
      var one := RetryInTime(s, next);
      var rest := Retries(Run(s, one), next, k - 1);
      RunAppend(s, one, rest);
      events := one + rest;
    }
  }

  // After k retries in time a late commit takes the count from 1 + k back to 2: for k = 1 the retry is lost,
  // for larger k the count falls.
  lemma LateCommitLosesRetries(k: nat)
    requires 1 <= k <= 8
    ensures exists events, worker :: var s := Run(EMPTY, events);
      && 0 in s.jobs && s.jobs[0].retryCount == 1 + k && Committed(s, Recover(worker), 0)
      && Step(s, Recover(worker)).jobs[0].status.Retry? && Step(s, Recover(worker)).jobs[0].retryCount == 2
  {
    var before := StaleWorkers(1);
    var more := Retries(Run(EMPTY, before), 1, k);
    RunAppend(EMPTY, before, more);
    var s := Run(EMPTY, before + more);
    assert Stale(Run(EMPTY, before), 0) && Stale(s, 0);
    var t := OneStaleCommit(s, 0, 1);
    RunTwo(s, Acquire(1, 0), Recover(0));
    RunOne(s, Acquire(1, 0));
    RunAppend(EMPTY, before + more, [Acquire(1, 0)]);
    var late := Run(EMPTY, before + more + [Acquire(1, 0)]);
    assert late == Step(s, Acquire(1, 0)) && Step(late, Recover(0)) == t;
    assert late.jobs[0].retryCount == s.jobs[0].retryCount;
    assert Committed(late, Recover(0), 0);
  }
}
