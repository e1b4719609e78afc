// Appeals and pardons whose read and save are separate commands (src/modules/reports/report-appeal.service.ts:105-142,
// src/modules/reports/report-admin-action.service.ts:209-232, 256-279, 312-326). The saves are not conditional on the
// status; a save that sets the evidence array is refused when the array has been set since the read.
module CrossedReports {
  import opened Common
  import opened ReportTypes
  import R = Reports

  // A handler that has read a report and is about to save it.
  datatype Saving = Appealing(id: Id, version: nat) | Dismissing(id: Id)

  // `versions` counts the saves of each report that have set its evidence array.
  datatype State = State(base: R.State, versions: map<Id, nat>, savings: map<Id, Saving>)

  datatype Event =
    | ReadAppeal(op: Id, id: Id, user: Id, now: Instant)
    | SaveAppeal(op: Id, withEvidence: bool)
    | LiftPenalty(pardon: R.Pardon, target: Id)
    | FindResolved(op: Id, target: Id, last: Id)
    | SaveDismissal(op: Id)
    | Other(event: R.Event)   // any handler but appeals and pardons

  function Version(s: State, id: Id): nat {
    if id in s.versions then s.versions[id] else 0
  }

  function StepReadAppeal(s: State, op: Id, id: Id, user: Id, now: Instant): State {
    if op in s.savings || R.Appeal(s.base, id, user, now).Err? then s
    else s.(savings := s.savings[op := Appealing(id, Version(s, id))])
  }

  function WithStatus(base: R.State, id: Id, report: R.Report): R.State {
    base.(reports := base.reports[id := report])
  }

  function Appealed(report: R.Report): R.Report {
    report.(status := AppealPending)
  }

  function Dismissal(report: R.Report): R.Report {
    report.(status := Dismissed, appealDeadline := None)
  }

  predicate AppealGoesThrough(s: State, op: Id, withEvidence: bool) {
    && op in s.savings && s.savings[op].Appealing? && s.savings[op].id in s.base.reports
    && (withEvidence ==> Version(s, s.savings[op].id) == s.savings[op].version)
  }

  predicate DismissalGoesThrough(s: State, op: Id) {
    op in s.savings && s.savings[op].Dismissing? && s.savings[op].id in s.base.reports
  }

  function StepSaveAppeal(s: State, op: Id, withEvidence: bool): State {
    if !AppealGoesThrough(s, op, withEvidence) then s.(savings := s.savings - {op})
    else
      var id := s.savings[op].id;
      State(WithStatus(s.base, id, Appealed(s.base.reports[id])),
            if withEvidence then s.versions[id := Version(s, id) + 1] else s.versions,
            s.savings - {op})
  }

  function StepFind(s: State, op: Id, target: Id, last: Id): State {
    if op in s.savings || target !in s.base.users || !R.IsLatestResolved(s.base, target, Some(last)) then s
    else s.(savings := s.savings[op := Dismissing(last)])
  }

  function StepSaveDismissal(s: State, op: Id): State {
    if !DismissalGoesThrough(s, op) then s.(savings := s.savings - {op})
    else
      var id := s.savings[op].id;
      s.(base := WithStatus(s.base, id, Dismissal(s.base.reports[id])), savings := s.savings - {op})
  }

  function Step(s: State, rules: R.Rules, e: Event): State {
    match e
    case ReadAppeal(op, id, user, now) => StepReadAppeal(s, op, id, user, now)
    case SaveAppeal(op, withEvidence) => StepSaveAppeal(s, op, withEvidence)
    case LiftPenalty(pardon, target) => s.(base := R.After(s.base, R.PardonUser(s.base, pardon, target, None)))
    case FindResolved(op, target, last) => StepFind(s, op, target, last)
    case SaveDismissal(op) => StepSaveDismissal(s, op)
    case Other(event) =>
      if event.AppealEvent? || event.PardonEvent? then s else s.(base := R.Step(s.base, rules, event))
  }

  function Run(s: State, rules: R.Rules, events: seq<Event>): State
    decreases |events|
  {
    if events == [] then s else Run(Step(s, rules, events[0]), rules, events[1..])
  }

  // ----- Handlers that nothing comes between -----

  lemma SavingDone(savings: map<Id, Saving>, op: Id, saving: Saving)
    requires op !in savings
    ensures savings[op := saving] - {op} == savings
  {
  }

  lemma UndisturbedAppeal(s: State, op: Id, id: Id, user: Id, now: Instant, withEvidence: bool)
    requires op !in s.savings
    ensures StepSaveAppeal(StepReadAppeal(s, op, id, user, now), op, withEvidence).base
         == R.After(s.base, R.Appeal(s.base, id, user, now))
  {
  }

  lemma UndisturbedPardon(s: State, rules: R.Rules, op: Id, pardon: R.Pardon, target: Id, last: Id)
    requires op !in s.savings && R.IsLatestResolved(s.base, target, Some(last))
    ensures StepSaveDismissal(StepFind(Step(s, rules, LiftPenalty(pardon, target)), op, target, last), op).base
         == R.Step(s.base, rules, R.PardonEvent(pardon, target, Some(last)))
  {
    var lifted := Step(s, rules, LiftPenalty(pardon, target));
    assert lifted.base.reports == s.base.reports;
    assert R.IsLatestResolved(lifted.base, target, Some(last));
  }

  // ----- Statuses -----

  ghost predicate AllEvolve(s: R.State, t: R.State) {
    forall id | id in s.reports && id in t.reports :: R.Evolves(s.reports[id], t.reports[id])
  }

  predicate AppealInPlace(status: ReportStatus) {
    status.Resolved? || status.AppealPending? || status.Pending?
  }

  predicate DismissalInPlace(status: ReportStatus) {
    status.Resolved? || status.Dismissed? || status.Pending?
  }

  // A save that goes through although the status has moved on since the read.
  predicate OutOfPlace(s: State, e: Event) {
    match e
    case SaveAppeal(op, withEvidence) =>
      AppealGoesThrough(s, op, withEvidence) && !AppealInPlace(s.base.reports[s.savings[op].id].status)
    case SaveDismissal(op) =>
      DismissalGoesThrough(s, op) && !DismissalInPlace(s.base.reports[s.savings[op].id].status)
    case _ => false
  }

  lemma SaveEvolvesIff(base: R.State, id: Id, report: R.Report)
    requires id in base.reports
    ensures AllEvolve(base, WithStatus(base, id, report)) <==> R.Evolves(base.reports[id], report)
  {
    var t := WithStatus(base, id, report);
    assert id in t.reports && t.reports[id] == report;
  }

  // One command moves every report forward exactly when it is no save out of place.
  lemma StepMovesForwardIff(s: State, rules: R.Rules, e: Event)
    ensures AllEvolve(s.base, Step(s, rules, e).base) <==> !OutOfPlace(s, e)
  {
    match e
    case SaveAppeal(op, withEvidence) =>
      if AppealGoesThrough(s, op, withEvidence) {
        var id := s.savings[op].id;
        SaveEvolvesIff(s.base, id, Appealed(s.base.reports[id]));
      }
    case SaveDismissal(op) =>
      if DismissalGoesThrough(s, op) {
        var id := s.savings[op].id;
        SaveEvolvesIff(s.base, id, Dismissal(s.base.reports[id]));
      }
    case Other(event) =>
      if !event.AppealEvent? && !event.PardonEvent? {
        forall id | id in s.base.reports
          ensures id in R.Step(s.base, rules, event).reports ==>
            R.Evolves(s.base.reports[id], R.Step(s.base, rules, event).reports[id])
        {
          R.StepEvolves(s.base, rules, event, id);
        }
      }
    case ReadAppeal(_, _, _, _) =>
    case LiftPenalty(_, _) =>
    case FindResolved(_, _, _) =>
  }

  ghost predicate ForwardThroughout(s: State, rules: R.Rules, events: seq<Event>)
    decreases |events|
  {
    events == []
    || (AllEvolve(s.base, Step(s, rules, events[0]).base)
        && ForwardThroughout(Step(s, rules, events[0]), rules, events[1..]))
  }

  predicate NeverOutOfPlace(s: State, rules: R.Rules, events: seq<Event>)
    decreases |events|
  {
    events == [] || (!OutOfPlace(s, events[0]) && NeverOutOfPlace(Step(s, rules, events[0]), rules, events[1..]))
  }

  // In every run of single commands all reports move forward throughout if and only if no save is out of place.
  lemma {:induction false} ForwardThroughoutIff(s: State, rules: R.Rules, events: seq<Event>)
    ensures ForwardThroughout(s, rules, events) <==> NeverOutOfPlace(s, rules, events)
    decreases |events|
  {
    if events == [] {
    } else {
      StepMovesForwardIff(s, rules, events[0]);
      ForwardThroughoutIff(Step(s, rules, events[0]), rules, events[1..]);
    }
  }

  predicate Recreates(e: Event, id: Id) {
    e.Other? && R.Recreates(e.event, id)
  }

  lemma AbsentStaysAbsent(s: State, rules: R.Rules, e: Event, id: Id)
    requires id !in s.base.reports && !Recreates(e, id)
    ensures id !in Step(s, rules, e).base.reports
  {
  }

  lemma {:induction false} AbsentFromRun(s: State, rules: R.Rules, events: seq<Event>, id: Id)
    requires id !in s.base.reports && (forall e | e in events :: !Recreates(e, id))
    ensures id !in Run(s, rules, events).base.reports
    decreases |events|
  {
    if events == [] {
    } else {
      assert events[0] in events;
      AbsentStaysAbsent(s, rules, events[0], id);
      AbsentFromRun(Step(s, rules, events[0]), rules, events[1..], id);
    }
  }

  // Then dismissed, rejected and successful appeals are final, and a report that left RESOLVED never counts again.
  lemma {:induction false} ReportsMoveForward(s: State, rules: R.Rules, events: seq<Event>, id: Id)
    requires id in s.base.reports && (forall e | e in events :: !Recreates(e, id))
    requires NeverOutOfPlace(s, rules, events)
    ensures id in Run(s, rules, events).base.reports ==>
      R.Evolves(s.base.reports[id], Run(s, rules, events).base.reports[id])
    decreases |events|
  {
    if events == [] {
    } else {
      var t := Step(s, rules, events[0]);
      StepMovesForwardIff(s, rules, events[0]);
      if id in t.base.reports {
        ReportsMoveForward(t, rules, events[1..], id);
      } else {
        AbsentFromRun(t, rules, events[1..], id);
      }
    }
  }

  // ----- Strikes -----

  predicate OfPair(s: State, id: Id, target: Id, reason: R.Reason) {
    R.OfPair(s.base, id, target, reason) && s.base.reports[id].status.Resolved?
  }

  // A save takes a strike exactly when it goes through and finds the report still RESOLVED.
  function Gain(s: State, rules: R.Rules, e: Event, target: Id, reason: R.Reason): int {
    match e
    case SaveAppeal(op, withEvidence) =>
      if AppealGoesThrough(s, op, withEvidence) && OfPair(s, s.savings[op].id, target, reason) then -1 else 0
    case SaveDismissal(op) =>
      if DismissalGoesThrough(s, op) && OfPair(s, s.savings[op].id, target, reason) then -1 else 0
    case Other(event) =>
      if event.AppealEvent? || event.PardonEvent? then 0 else R.Gain(s.base, rules, event, target, reason)
    case _ => 0
  }

  function Gains(s: State, rules: R.Rules, events: seq<Event>, target: Id, reason: R.Reason): int
    decreases |events|
  {
    if events == [] then 0
    else
      Gain(s, rules, events[0], target, reason)
      + Gains(Step(s, rules, events[0]), rules, events[1..], target, reason)
  }

  lemma StepConservesStrikes(s: State, rules: R.Rules, e: Event, target: Id, reason: R.Reason)
    ensures R.Strikes(Step(s, rules, e).base.reports, target, reason)
         == R.Strikes(s.base.reports, target, reason) + Gain(s, rules, e, target, reason)
  {
    match e
    case SaveAppeal(op, withEvidence) =>
      if AppealGoesThrough(s, op, withEvidence) {
        var id := s.savings[op].id;
        R.StruckAfterUpdate(s.base.reports, id, Appealed(s.base.reports[id]), target, reason);
      }
    case SaveDismissal(op) =>
      if DismissalGoesThrough(s, op) {
        var id := s.savings[op].id;
        R.StruckAfterUpdate(s.base.reports, id, Dismissal(s.base.reports[id]), target, reason);
      }
    case Other(event) => R.StepConservesStrikes(s.base, rules, event, target, reason);
    case LiftPenalty(_, _) => assert Step(s, rules, e).base.reports == s.base.reports;
    case ReadAppeal(_, _, _, _) =>
    case FindResolved(_, _, _) =>
  }

  // In every run of single commands, whatever crosses: the announced strike is one more than the resolutions of the
  // pair so far, less the saves that found a report of the pair still RESOLVED, and the purges.
  lemma {:induction false} StrikesAreConserved(s: State, rules: R.Rules, events: seq<Event>,
                                               target: Id, reason: R.Reason)
    ensures R.CalculatePenaltyInfo(Run(s, rules, events).base, rules, target, reason).strike
         == 1 + R.Strikes(s.base.reports, target, reason) + Gains(s, rules, events, target, reason)
    decreases |events|
  {
    if events == [] {
    } else {
      StepConservesStrikes(s, rules, events[0], target, reason);
      StrikesAreConserved(Step(s, rules, events[0]), rules, events[1..], target, reason);
    }
  }

  // ----- Three crossings, from any state -----

  // An appeal is read, the strike is cleared, and the appeal is saved: the dismissed report can be decided once more,
  // and a won appeal lifts the penalty.
  lemma AppealOverwritesADismissal(s: State, rules: R.Rules, a: Id, b: Id, id: Id, user: Id, now: Instant,
                                   d: R.Decision, t: R.Times)
    requires a != b && a !in s.savings && b !in s.savings && user in s.base.users
    requires R.Appeal(s.base, id, user, now).Ok? && R.IsLatestResolved(s.base, user, Some(id))
    requires d.status.AppealSuccess?
    ensures var read := StepReadAppeal(s, a, id, user, now);
      var cleared := StepSaveDismissal(StepFind(read, b, user, id), b);
      var saved := StepSaveAppeal(cleared, a, false);
      var decided := R.Resolve(saved.base, rules, id, AppealPending, d, t);
      && id in cleared.base.reports && cleared.base.reports[id].status.Dismissed?
      && id in saved.base.reports && saved.base.reports[id].status.AppealPending?
      && decided.Ok? && decided.value.reports[id].status.AppealSuccess?
      && user in decided.value.users
      && decided.value.users[user] == R.Lift(s.base.users[user], s.base.reports[id].penaltyType)
  {
    var read := StepReadAppeal(s, a, id, user, now);
    assert StepFind(read, b, user, id) == read.(savings := read.savings[b := Dismissing(id)]);
    var cleared := StepSaveDismissal(StepFind(read, b, user, id), b);
    assert cleared.savings[a] == read.savings[a];
    assert AppealGoesThrough(cleared, a, false);
  }

  // A pardon finds the report, an appeal against it is saved and decided, and the pardon is saved over the decision;
  // the strike has been taken once, by the appeal.
  lemma DismissalOverwritesAnAppeal(s: State, rules: R.Rules, a: Id, b: Id, id: Id, user: Id, now: Instant,
                                    d: R.Decision, t: R.Times)
    requires a != b && a !in s.savings && b !in s.savings && user in s.base.users
    requires R.Appeal(s.base, id, user, now).Ok? && R.IsLatestResolved(s.base, user, Some(id))
    requires d.status.AppealSuccess? || d.status.AppealRejected?
    ensures var found := StepFind(s, b, user, id);
      var saved := StepSaveAppeal(StepReadAppeal(found, a, id, user, now), a, false);
      var decided := Step(saved, rules, Other(R.ResolveEvent(id, AppealPending, d, t)));
      var over := StepSaveDismissal(decided, b);
      && id in decided.base.reports && decided.base.reports[id].status == d.status
      && id in over.base.reports && over.base.reports[id].status.Dismissed?
      && R.Strikes(over.base.reports, user, s.base.reports[id].reason)
         == R.Strikes(s.base.reports, user, s.base.reports[id].reason) - 1
  {
    var reason := s.base.reports[id].reason;
    var found := StepFind(s, b, user, id);
    var read := StepReadAppeal(found, a, id, user, now);
    assert AppealGoesThrough(read, a, false);
    var saved := StepSaveAppeal(read, a, false);
    var decided := Step(saved, rules, Other(R.ResolveEvent(id, AppealPending, d, t)));
    assert decided.savings[b] == Dismissing(id);
    R.StruckAfterUpdate(s.base.reports, id, saved.base.reports[id], user, reason);
    R.StruckAfterUpdate(saved.base.reports, id, decided.base.reports[id], user, reason);
    R.StruckAfterUpdate(decided.base.reports, id, Dismissal(decided.base.reports[id]), user, reason);
  }

  // Two appeals read the report, and the second is saved after the first has been rejected: the report is heard
  // again exactly if not both set the evidence array.
  lemma CrossedAppealsAreHeardTwiceIff(s: State, rules: R.Rules, a: Id, b: Id, id: Id, user: Id, now: Instant,
                                       first: bool, second: bool, d: R.Decision, t: R.Times)
    requires a != b && a !in s.savings && b !in s.savings
    requires R.Appeal(s.base, id, user, now).Ok? && d.status.AppealRejected?
    ensures var read := StepReadAppeal(StepReadAppeal(s, a, id, user, now), b, id, user, now);
      var rejected := Step(StepSaveAppeal(read, a, first), rules, Other(R.ResolveEvent(id, AppealPending, d, t)));
      var again := StepSaveAppeal(rejected, b, second);
      && id in rejected.base.reports && rejected.base.reports[id].status.AppealRejected?
      && id in again.base.reports
      && (again.base.reports[id].status.AppealPending? <==> !(first && second))
  {
    var one := StepReadAppeal(s, a, id, user, now);
    var read := StepReadAppeal(one, b, id, user, now);
    assert read == one.(savings := one.savings[b := Appealing(id, Version(s, id))]);
    var saved := StepSaveAppeal(read, a, first);
    assert AppealGoesThrough(read, a, first);
    assert saved.savings[b] == Appealing(id, Version(s, id));
    assert Version(saved, id) == Version(s, id) + if first then 1 else 0;
    var rejected := Step(saved, rules, Other(R.ResolveEvent(id, AppealPending, d, t)));
    assert rejected.savings == saved.savings && rejected.versions == saved.versions;
  }
}
