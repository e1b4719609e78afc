// Progressive lockout of password logins, attempts on one account handled one at a time:
// src/auth/auth.service.ts:97-173, src/auth/constants/auth.constant.ts:32-40.
module LoginLockout {
  import opened Common
  import opened RedisCounters

  datatype PolicyStep = PolicyStep(threshold: nat, blockSeconds: nat)

  const WINDOW_SECONDS: nat := 900

  const STEPS: seq<PolicyStep> := [PolicyStep(5, 60), PolicyStep(8, 300), PolicyStep(12, 900), PolicyStep(16, 1800)]

  // The block of the last step whose threshold has been reached.
  function BlockSeconds(steps: seq<PolicyStep>, failCount: nat): nat {
    if steps == [] then 0
    else if failCount >= steps[|steps| - 1].threshold then steps[|steps| - 1].blockSeconds
    else BlockSeconds(steps[..|steps| - 1], failCount)
  }

  lemma PolicyBlocks(failCount: nat)
    ensures BlockSeconds(STEPS, failCount)
         == if failCount < 5 then 0 else if failCount < 8 then 60 else if failCount < 12 then 300
            else if failCount < 16 then 900 else 1800
  {
    UnfoldBlock(STEPS, failCount);
    UnfoldBlock(STEPS[..3], failCount);
    UnfoldBlock(STEPS[..3][..2], failCount);
    UnfoldBlock(STEPS[..3][..2][..1], failCount);
  }

  lemma UnfoldBlock(steps: seq<PolicyStep>, failCount: nat)
    requires steps != []
    ensures BlockSeconds(steps, failCount)
         == if failCount >= steps[|steps| - 1].threshold then steps[|steps| - 1].blockSeconds
            else BlockSeconds(steps[..|steps| - 1], failCount)
  {
  }

  // The failure counter, and the second in which the block key expires.
  datatype State = State(fails: Option<Counter>, blockedUntil: Option<Instant>)

  datatype Attempt = Attempt(at: Instant, correct: bool)

  predicate Blocked(s: State, now: Instant) {
    s.blockedUntil.Some? && s.blockedUntil.value - now > 0
  }

  function RecordFailure(s: State, now: Instant): State {
    var fails := IncrWithTtl(s.fails, now, WINDOW_SECONDS);
    var blockSeconds := BlockSeconds(STEPS, fails.count);
    State(Some(fails), if blockSeconds > 0 then Some(now + blockSeconds) else s.blockedUntil)
  }

  // validateUser, for a user that exists and has a password.
  function Step(s: State, a: Attempt): State {
    if Blocked(s, a.at) then s
    else if a.correct then State(None, None)
    else RecordFailure(s, a.at)
  }

  predicate FailedCheck(s: State, a: Attempt) {
    !Blocked(s, a.at) && !a.correct
  }

  predicate Ordered(from: Instant, attempts: seq<Attempt>) {
    && (forall i | 0 <= i < |attempts| :: from <= attempts[i].at)
    && (forall i, j | 0 <= i < j < |attempts| :: attempts[i].at <= attempts[j].at)
  }

  function Run(s: State, attempts: seq<Attempt>): State
    decreases |attempts|
  {
    if attempts == [] then s else Run(Step(s, attempts[0]), attempts[1..])
  }

  // Passwords compared and found wrong.
  function FailedChecks(s: State, attempts: seq<Attempt>): nat
    decreases |attempts|
  {
    if attempts == [] then 0
    else (if FailedCheck(s, attempts[0]) then 1 else 0) + FailedChecks(Step(s, attempts[0]), attempts[1..])
  }

  const START := State(None, None)

  // The time the blocks have eaten before failure `count` of a window.
  function Eaten(count: nat): nat {
    if count <= 5 then 0
    else if count <= 8 then 60 * (count - 5)
    else 180 + 300 * (count - 8)
  }

  function WindowStart(s: State): Instant
    requires s.fails.Some?
  {
    s.fails.value.expiresAt - WINDOW_SECONDS
  }

  // After `count` failures the block reaches past the time its blocks have eaten.
  ghost predicate Invariant(s: State) {
    s.fails.Some? ==>
      && 1 <= s.fails.value.count <= 10
      && (s.fails.value.count >= 5 ==>
            s.blockedUntil.Some? && s.blockedUntil.value >= WindowStart(s) + Eaten(s.fails.value.count + 1))
  }

  ghost predicate ShortBlock(s: State, now: Instant) {
    s.blockedUntil.Some? ==> s.blockedUntil.value <= now + 300
  }

  predicate StartedBy(s: State, now: Instant) {
    s.fails.Some? ==> WindowStart(s) <= now
  }

  lemma StepKeepsInvariant(s: State, a: Attempt, now: Instant)
    requires Invariant(s) && StartedBy(s, now) && ShortBlock(s, now) && now <= a.at
    ensures Invariant(Step(s, a)) && StartedBy(Step(s, a), a.at) && ShortBlock(Step(s, a), a.at)
  {
    PolicyBlocks(IncrWithTtl(s.fails, a.at, WINDOW_SECONDS).count);
  }

  lemma {:induction false} RunKeepsInvariant(s: State, attempts: seq<Attempt>, now: Instant)
    requires Invariant(s) && StartedBy(s, now) && ShortBlock(s, now) && Ordered(now, attempts)
    ensures Invariant(Run(s, attempts))
    ensures ShortBlock(Run(s, attempts), if attempts == [] then now else attempts[|attempts| - 1].at)
    decreases |attempts|
  {
    if attempts == [] {
    } else {
      StepKeepsInvariant(s, attempts[0], now);
      assert Ordered(attempts[0].at, attempts[1..]);
      RunKeepsInvariant(Step(s, attempts[0]), attempts[1..], attempts[0].at);
    }
  }

  // However the attempts are timed, the counter never passes ten: each block pushes the next failure
  // later, and the eleventh would fall outside the window. So nobody is ever blocked for more than
  // five minutes, and the steps for twelve and sixteen failures never apply.
  lemma {:induction false} CounterStaysWithinTen(attempts: seq<Attempt>)
    requires attempts != [] && Ordered(attempts[0].at, attempts)
    ensures var s := Run(START, attempts);
      && (s.fails.Some? ==> s.fails.value.count <= 10)
      && (s.blockedUntil.Some? ==> s.blockedUntil.value <= attempts[|attempts| - 1].at + 300)
  {
    RunKeepsInvariant(START, attempts, attempts[0].at);
  }

  // Ten is reached: five wrong passwords at once, then each one as soon as the block allows.
  const FIVE_AT_ONCE := [Attempt(0, false), Attempt(0, false), Attempt(0, false), Attempt(0, false), Attempt(0, false)]
  const FIVE_PATIENT := [
    Attempt(60, false), Attempt(120, false), Attempt(180, false), Attempt(480, false), Attempt(780, false)]

  lemma TenIsReached()
    ensures Ordered(0, FIVE_AT_ONCE + FIVE_PATIENT)
    ensures Run(START, FIVE_AT_ONCE + FIVE_PATIENT) == State(Some(Counter(10, 900)), Some(1080))
  {
    TenInOrder();
    FirstFive(FIVE_PATIENT);
    LastFive();
  }

  lemma TenInOrder()
    ensures Ordered(0, FIVE_AT_ONCE + FIVE_PATIENT)
  {
    var attempts := FIVE_AT_ONCE + FIVE_PATIENT;
    forall i | 0 <= i < 9
      ensures attempts[i].at <= attempts[i + 1].at
    {
    }
    forall i, j | 0 <= i < j < 10
      ensures attempts[i].at <= attempts[j].at
    {
      AscendingPairs(attempts, i, j);
    }
  }

  lemma {:induction false} AscendingPairs(attempts: seq<Attempt>, i: nat, j: nat)
    requires i < j < |attempts| && (forall k | 0 <= k < |attempts| - 1 :: attempts[k].at <= attempts[k + 1].at)
    ensures attempts[i].at <= attempts[j].at
    decreases j
  {
    if i < j - 1 {
      AscendingPairs(attempts, i, j - 1);
    }
    assert attempts[j - 1].at <= attempts[j - 1 + 1].at;
  }

  lemma FirstFive(rest: seq<Attempt>)
    ensures Run(START, FIVE_AT_ONCE + rest) == Run(State(Some(Counter(5, 900)), Some(60)), rest)
  {
    var s1, s2 := State(Some(Counter(1, 900)), None), State(Some(Counter(2, 900)), None);
    var s3, s4 := State(Some(Counter(3, 900)), None), State(Some(Counter(4, 900)), None);
    var a := Attempt(0, false);
    assert FIVE_AT_ONCE + rest == [a] + ([a] + ([a] + ([a] + ([a] + rest))));
    RunFails(START, 0, s1, [a] + ([a] + ([a] + ([a] + rest))));
    RunFails(s1, 0, s2, [a] + ([a] + ([a] + rest)));
    RunFails(s2, 0, s3, [a] + ([a] + rest));
    RunFails(s3, 0, s4, [a] + rest);
    RunFails(s4, 0, State(Some(Counter(5, 900)), Some(60)), rest);
  }

  lemma LastFive()
    ensures Run(State(Some(Counter(5, 900)), Some(60)), FIVE_PATIENT) == State(Some(Counter(10, 900)), Some(1080))
  {
    var s5, s6 := State(Some(Counter(5, 900)), Some(60)), State(Some(Counter(6, 900)), Some(120));
    var s7, s8 := State(Some(Counter(7, 900)), Some(180)), State(Some(Counter(8, 900)), Some(480));
    var s9, s10 := State(Some(Counter(9, 900)), Some(780)), State(Some(Counter(10, 900)), Some(1080));
    var a6, a7, a8, a9, a10 :=
      Attempt(60, false), Attempt(120, false), Attempt(180, false), Attempt(480, false), Attempt(780, false);
    assert FIVE_PATIENT == [a6] + ([a7] + ([a8] + ([a9] + ([a10] + []))));
    RunFails(s5, 60, s6, [a7] + ([a8] + ([a9] + ([a10] + []))));
    RunFails(s6, 120, s7, [a8] + ([a9] + ([a10] + [])));
    RunFails(s7, 180, s8, [a9] + ([a10] + []));
    RunFails(s8, 480, s9, [a10] + []);
    RunFails(s9, 780, s10, []);
  }

  lemma RunFails(s: State, at: Instant, t: State, rest: seq<Attempt>)
    requires !Blocked(s, at) && t.fails == Some(IncrWithTtl(s.fails, at, WINDOW_SECONDS)) && t.fails.value.count <= 10
    requires t.blockedUntil == if t.fails.value.count < 5 then s.blockedUntil
                               else if t.fails.value.count < 8 then Some(at + 60) else Some(at + 300)
    ensures Run(s, [Attempt(at, false)] + rest) == Run(t, rest)
  {
    PolicyBlocks(t.fails.value.count);
    assert ([Attempt(at, false)] + rest)[1..] == rest;
  }

  // ----- Guessing over a long time -----

  // Without a right password, at most ten passwords are compared for every fifteen minutes begun.
  lemma {:induction false} GuessesOverTime(s: State, attempts: seq<Attempt>, start: Instant, now: Instant, end: Instant)
    requires Invariant(s) && StartedBy(s, now) && ShortBlock(s, now) && Ordered(now, attempts)
    requires forall a | a in attempts :: !a.correct && a.at <= end
    requires start <= now <= end && (s.fails.Some? ==> start == WindowStart(s))
    ensures FailedChecks(s, attempts)
         <= 10 * ((end - start) / WINDOW_SECONDS + 1) - if s.fails.Some? then s.fails.value.count else 0
    decreases |attempts|
  {
    if attempts == [] {
    } else {
      var a := attempts[0];
      assert a in attempts;
      var t := Step(s, a);
      StepKeepsInvariant(s, a, now);
      assert Ordered(a.at, attempts[1..]);
      if Blocked(s, a.at) {
        GuessesOverTime(t, attempts[1..], start, a.at, end);
      } else if Live(s.fails, a.at) {
        GuessesOverTime(t, attempts[1..], start, a.at, end);
      } else {
        GuessesOverTime(t, attempts[1..], a.at, a.at, end);
        if s.fails.Some? {
          assert (end - a.at) / WINDOW_SECONDS <= (end - start - WINDOW_SECONDS) / WINDOW_SECONDS
            == (end - start) / WINDOW_SECONDS - 1;
        } else {
          assert (end - a.at) / WINDOW_SECONDS <= (end - start) / WINDOW_SECONDS;
        }
      }
    }
  }

  lemma GuessesFromTheStart(attempts: seq<Attempt>, start: Instant, end: Instant)
    requires start <= end && Ordered(start, attempts) && (forall a | a in attempts :: !a.correct && a.at <= end)
    ensures FailedChecks(START, attempts) <= 10 * ((end - start) / WINDOW_SECONDS + 1)
  {
    GuessesOverTime(START, attempts, start, start, end);
  }

  // ----- One attempt -----

  // While the block lasts no attempt, right or wrong, changes anything; otherwise a right password forgets all
  // failures.
  lemma RightPasswordForgets(s: State, at: Instant, correct: bool)
    ensures s.blockedUntil.Some? && at < s.blockedUntil.value ==> Step(s, Attempt(at, correct)) == s
    ensures !(s.blockedUntil.Some? && at < s.blockedUntil.value) ==> Step(s, Attempt(at, true)) == START
  {
  }

  // A wrong password is one failure more in a window of fifteen minutes that begins with its first, and from the
  // fifth failure on it blocks for a minute, from the eighth on for five.
  lemma WrongPasswordBlocks(s: State, at: Instant, later: Instant)
    requires !(s.blockedUntil.Some? && at < s.blockedUntil.value) && at <= later
    ensures var live := s.fails.Some? && at < s.fails.value.expiresAt;
      var count := if live then s.fails.value.count + 1 else 1;
      var t := Step(s, Attempt(at, false));
      && t.fails == Some(Counter(count, if live then s.fails.value.expiresAt else at + 900))
      && (count < 5 ==> !Blocked(t, later))
      && (5 <= count < 8 ==> (Blocked(t, later) <==> later < at + 60))
      && (8 <= count < 12 ==> (Blocked(t, later) <==> later < at + 300))
      && (12 <= count < 16 ==> (Blocked(t, later) <==> later < at + 900))
      && (16 <= count ==> (Blocked(t, later) <==> later < at + 1800))
  {
    PolicyBlocks(IncrWithTtl(s.fails, at, WINDOW_SECONDS).count);
  }

  // ----- The service -----

  datatype Outcome = TooManyAttempts(minutes: nat) | WrongPassword | Welcome

  class LoginGuard {
    var fails: Option<Counter>
    var blockedUntil: Option<Instant>

    constructor ()
      ensures Snapshot() == START
    {
      fails, blockedUntil := None, None;
    }

    ghost function Snapshot(): State
      reads this
    {
      State(fails, blockedUntil)
    }

    method RecordLoginFailure(now: Instant)
      modifies this
      ensures Snapshot() == RecordFailure(old(Snapshot()), now)
    {
      var counter := IncrWithTtl(fails, now, WINDOW_SECONDS);
      fails := Some(counter);
      var blockSeconds := 0;
      for i := 0 to |STEPS|
        invariant blockSeconds == BlockSeconds(STEPS[..i], counter.count)
        invariant fails == Some(counter) && blockedUntil == old(blockedUntil)
      {
        assert STEPS[..i + 1][..i] == STEPS[..i];
        if counter.count >= STEPS[i].threshold {
          blockSeconds := STEPS[i].blockSeconds;
        }
      }
      assert STEPS[..|STEPS|] == STEPS;
      if blockSeconds > 0 {
        blockedUntil := Some(now + blockSeconds);
      }
    }

    method ValidateUser(now: Instant, correct: bool) returns (outcome: Outcome)
      modifies this
      ensures Snapshot() == Step(old(Snapshot()), Attempt(now, correct))
      ensures outcome.TooManyAttempts? <==> old(blockedUntil).Some? && now < old(blockedUntil).value
      ensures outcome.WrongPassword? <==> !correct && !(old(blockedUntil).Some? && now < old(blockedUntil).value)
      ensures outcome.Welcome? ==> fails == None && blockedUntil == None
      ensures outcome.TooManyAttempts? ==>
        now + 60 * (outcome.minutes - 1) < old(blockedUntil).value <= now + 60 * outcome.minutes
    {
      var ttl := if blockedUntil.Some? then blockedUntil.value - now else -2;
      if ttl > 0 {
        return TooManyAttempts((ttl + 59) / 60);
      }
      if !correct {
        RecordLoginFailure(now);
        return WrongPassword;
      }
      fails, blockedUntil := None, None;
      outcome := Welcome;
    }
  }
}
