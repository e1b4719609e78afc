// What brings a report into its status and a user under a ban or a mute: every change has one entitled event as its
// cause (src/modules/reports/reports.service.ts:98-178, 324-534, report-appeal.service.ts:97-148,
// report-admin-action.service.ts:64-341).
module ReportCauses {
  import opened Common
  import opened ReportTypes
  import opened Reports
  import P = PenaltyEpochs

  // ----- Reports -----

  predicate SameMatter(before: Report, after: Report) {
    after.target == before.target && after.reason == before.reason && after.snapshotRole == before.snapshotRole
  }

  // The event decides this very report.
  predicate Decides(s: State, rules: Rules, e: Event, id: Id) {
    e.ResolveEvent? && e.id == id && Resolve(s, rules, id, e.seen, e.decision, e.times).Ok?
  }

  // The event resolves another report of the same pair while this one waits.
  predicate Merges(s: State, rules: Rules, e: Event, id: Id) {
    && e.ResolveEvent? && e.id != id && e.decision.status == Resolved && id in s.reports && e.id in s.reports
    && Resolve(s, rules, e.id, e.seen, e.decision, e.times).Ok?
    && s.reports[id].status == Pending
    && s.reports[id].target == s.reports[e.id].target && s.reports[id].reason == s.reports[e.id].reason
  }

  // The target itself appeals in time against a resolution.
  predicate Appeals(s: State, e: Event, id: Id) {
    && e.AppealEvent? && e.id == id && id in s.reports && s.reports[id].status == Resolved
    && e.user == s.reports[id].target
    && s.reports[id].appealDeadline.Some? && e.now <= s.reports[id].appealDeadline.value
  }

  predicate Pardons(s: State, e: Event, id: Id) {
    e.PardonEvent? && e.last == Some(id) && e.target in s.users && IsLatestResolved(s, e.target, e.last)
  }

  predicate Creates(s: State, e: Event, id: Id) {
    e.CreateEvent? && e.id == id && id !in s.reports && e.target in s.users
  }

  // A compensation or a purge removes this report.
  predicate Removes(s: State, e: Event, id: Id) {
    && id in s.reports
    && (|| (e.CompensateEvent? && e.id == id && (s.reports[id].status == Pending || s.reports[id].status == Resolving))
        || (e.PurgeEvent? && e.id == id
            && (s.reports[id].status == Dismissed || s.reports[id].status == AppealSuccess
                || s.reports[id].snapshotRole == SuperAdmin)))
  }

  predicate Entitled(s: State, rules: Rules, e: Event, id: Id) {
    || Decides(s, rules, e, id) || Merges(s, rules, e, id) || Appeals(s, e, id) || Pardons(s, e, id)
    || Creates(s, e, id)
  }

  // What an entitled event makes of the report.
  ghost predicate Outcome(s: State, rules: Rules, e: Event, id: Id, after: Report)
    requires Entitled(s, rules, e, id)
  {
    if Decides(s, rules, e, id) then
      && id in s.reports && SameMatter(s.reports[id], after)
      && after.status == e.decision.status && after.resolvedBy == Some(e.decision.admin)
      && after.resolvedAt == Some(e.times.resolved)
      && (if e.decision.status == Resolved then after.appealDeadline == Some(e.times.deadline + 2_592_000_000)
          else
            after.appealDeadline == s.reports[id].appealDeadline && after.penaltyType == s.reports[id].penaltyType)
    else if Merges(s, rules, e, id) then
      && SameMatter(s.reports[id], after)
      && after.status == Dismissed && after.resolvedBy == Some(e.decision.admin)
      && after.resolvedAt == Some(e.times.merged)
      && after.penaltyType == s.reports[id].penaltyType && after.appealDeadline == s.reports[id].appealDeadline
    else if Appeals(s, e, id) then after == s.reports[id].(status := AppealPending)
    else if Pardons(s, e, id) then
      id in s.reports && after == s.reports[id].(status := Dismissed, appealDeadline := None)
    else
      && after.target == e.target && after.reason == e.reason && after.snapshotRole == s.users[e.target].role
      && after.status == Pending && after.resolvedBy == None && after.resolvedAt == None
      && after.penaltyType == None && after.appealDeadline == None
  }

  // An entitled event has exactly its outcome, a removal removes, and any other event leaves the report as it is.
  lemma ChangesAreEntitled(s: State, rules: Rules, e: Event, id: Id)
    ensures var t := Step(s, rules, e);
      && (Entitled(s, rules, e, id) ==> id in t.reports && Outcome(s, rules, e, id, t.reports[id]))
      && (Removes(s, e, id) ==> id !in t.reports)
      && (!Entitled(s, rules, e, id) && !Removes(s, e, id) ==>
            (id in t.reports <==> id in s.reports) && (id in s.reports ==> t.reports[id] == s.reports[id]))
  {
    match e
    case ResolveEvent(_, _, _, _) => DecisionsAreEntitled(s, rules, e, id);
    case JoinEvent(_, _) =>
    case CreateEvent(_, _, _) =>
    case AppealEvent(_, _, _) =>
    case PardonEvent(_, _, _) =>
    case CompensateEvent(_) =>
    case PurgeEvent(_) =>
  }

  lemma DecisionsAreEntitled(s: State, rules: Rules, e: Event, id: Id)
    requires e.ResolveEvent?
    ensures var t := Step(s, rules, e);
      && (Entitled(s, rules, e, id) ==> id in t.reports && Outcome(s, rules, e, id, t.reports[id]))
      && (!Entitled(s, rules, e, id) ==>
            (id in t.reports <==> id in s.reports) && (id in s.reports ==> t.reports[id] == s.reports[id]))
  {
  }

  lemma {:induction false} RunLast(s: State, rules: Rules, events: seq<Event>, last: Event)
    ensures Run(s, rules, events + [last]) == Step(Run(s, rules, events), rules, last)
    decreases |events|
  {
    if events == [] {
      assert (events + [last])[1..] == [];
      assert Run(Step(s, rules, last), rules, []) == Step(s, rules, last);
    } else {
      assert (events + [last])[1..] == events[1..] + [last];
      RunLast(Step(s, rules, events[0]), rules, events[1..], last);
    }
  }

  const EMPTY := State(map[], map[])

  // The i-th event was entitled to make the report what it is at the end.
  ghost predicate IsCause(rules: Rules, events: seq<Event>, i: nat, id: Id, report: Report)
    requires i < |events|
  {
    && Entitled(Run(EMPTY, rules, events[..i]), rules, events[i], id)
    && Outcome(Run(EMPTY, rules, events[..i]), rules, events[i], id, report)
  }

  // In every reachable state every report is what some entitled event has made of it.
  lemma {:induction false} EveryReportHasItsCause(rules: Rules, events: seq<Event>, id: Id)
    requires id in Run(EMPTY, rules, events).reports
    ensures exists i: nat :: i < |events| && IsCause(rules, events, i, id, Run(EMPTY, rules, events).reports[id])
    decreases |events|
  {
    if events == [] {
    } else {
      var n := |events| - 1;
      var front, last := events[..n], events[n];
      assert events == front + [last];
      RunLast(EMPTY, rules, front, last);
      var s := Run(EMPTY, rules, front);
      ChangesAreEntitled(s, rules, last, id);
      if Entitled(s, rules, last, id) {
        assert IsCause(rules, events, n, id, Run(EMPTY, rules, events).reports[id]);
      } else {
        EveryReportHasItsCause(rules, front, id);
        var i: nat :| i < |front| && IsCause(rules, front, i, id, s.reports[id]);
        assert front[..i] == events[..i];
        assert IsCause(rules, events, i, id, Run(EMPTY, rules, events).reports[id]);
      }
    }
  }

  // ----- Why a request is refused -----

  lemma ResolutionsSayWhy(s: State, rules: Rules, id: Id, seen: ReportStatus, d: Decision, t: Times)
    requires Resolve(s, rules, id, seen, d, t).Err?
    ensures var why := Resolve(s, rules, id, seen, d, t).error;
      && (seen == Resolving <==> why == BeingProcessed)
      && (seen == Pending && d.status != Resolved && d.status != Dismissed ==> why == InvalidStatus)
      && (seen == AppealPending && d.status != AppealRejected && d.status != AppealSuccess ==> why == InvalidStatus)
      && (seen != Pending && seen != AppealPending && seen != Resolving ==> why == AlreadyResolved)
      && (id !in s.reports || s.reports[id].status != seen ==>
            why == AlreadyResolved || why == InvalidStatus || why == BeingProcessed)
      && (CheckTransition(seen, d.status).None? && id in s.reports && s.reports[id].status == seen ==>
            var target := s.reports[id].target;
            if target !in s.users then why == TargetNotFound
            else if s.users[target].role == SuperAdmin then why == CannotPenalizeSuperAdmin
            else if d.adminRole == Role.Admin && s.users[target].role == Role.Admin then why == CannotPenalizeUser
            else if d.admin == target then why == CannotPenalizeSelf
            else why == CannotReducePenalty)
  {
  }

  lemma AppealsSayWhy(s: State, id: Id, user: Id, now: Instant)
    ensures Appeal(s, id, user, now) == Err(ReportNotFound) <==> id !in s.reports
    ensures Appeal(s, id, user, now) == Err(MissingPermission) <==> id in s.reports && s.reports[id].target != user
    ensures Appeal(s, id, user, now) == Err(InvalidStatus) <==>
      id in s.reports && s.reports[id].target == user && s.reports[id].status != Resolved
    ensures Appeal(s, id, user, now) == Err(DeadlineExpired) <==>
      && id in s.reports && s.reports[id].target == user && s.reports[id].status == Resolved
      && (s.reports[id].appealDeadline == None || s.reports[id].appealDeadline.value < now)
  {
  }

  // ----- Users -----

  // The event lifts the ban, or the mute, of this user.
  predicate WinsAppeal(s: State, rules: Rules, e: Event, u: Id, penalty: PenaltyType) {
    && e.ResolveEvent? && e.decision.status == AppealSuccess && e.id in s.reports && s.reports[e.id].target == u
    && s.reports[e.id].penaltyType == Some(penalty) && Decides(s, rules, e, e.id)
  }

  predicate LiftsBan(s: State, rules: Rules, e: Event, u: Id) {
    || (e.PardonEvent? && e.pardon == Unban && e.target == u && IsLatestResolved(s, u, e.last))
    || WinsAppeal(s, rules, e, u, BanPenalty)
  }

  predicate LiftsMute(s: State, rules: Rules, e: Event, u: Id) {
    || (e.PardonEvent? && e.pardon == Unmute && e.target == u && IsLatestResolved(s, u, e.last))
    || WinsAppeal(s, rules, e, u, MutePenalty)
  }

  // The event penalizes this user.
  ghost predicate Penalizes(s: State, rules: Rules, e: Event, u: Id, action: Action, days: nat) {
    && e.ResolveEvent? && e.decision.status == Resolved && e.id in s.reports && s.reports[e.id].target == u
    && Decides(s, rules, e, e.id)
    && P.Chosen(s, rules, u, s.reports[e.id].reason, e.decision, action, days)
  }

  // What an event does to an account: the effect of the penalty, the lifted ban or mute, or nothing.
  lemma AccountsChangeByPenaltyOrPardon(s: State, rules: Rules, e: Event, u: Id, action: Action, days: nat)
    requires u in s.users
    ensures var before := s.users[u]; var t := Step(s, rules, e);
      && u in t.users
      && (Penalizes(s, rules, e, u, action, days) ==>
            P.Effect(before, t.users[u], action, days, e.decision, e.times.applied))
      && (LiftsBan(s, rules, e, u) ==> t.users[u] == before.(banUntil := None))
      && (LiftsMute(s, rules, e, u) ==> t.users[u] == before.(muteUntil := None))
      && (t.users[u] == before || LiftsBan(s, rules, e, u) || LiftsMute(s, rules, e, u)
          || exists a, n :: Penalizes(s, rules, e, u, a, n))
  {
    match e
    case ResolveEvent(id, seen, d, t) =>
      if Decides(s, rules, e, id) {
        DecisionsChangeOneAccount(s, rules, e, u, action, days);
      }
    case JoinEvent(_, _) =>
    case CreateEvent(_, _, _) =>
    case AppealEvent(_, _, _) =>
    case PardonEvent(_, _, _) =>
    case CompensateEvent(_) =>
    case PurgeEvent(_) =>
  }

  lemma DecisionsChangeOneAccount(s: State, rules: Rules, e: Event, u: Id, action: Action, days: nat)
    requires u in s.users && e.ResolveEvent? && Decides(s, rules, e, e.id)
    ensures var before := s.users[u]; var t := Step(s, rules, e);
      && u in t.users
      && (Penalizes(s, rules, e, u, action, days) ==>
            P.Effect(before, t.users[u], action, days, e.decision, e.times.applied))
      && (WinsAppeal(s, rules, e, u, BanPenalty) ==> t.users[u] == before.(banUntil := None))
      && (WinsAppeal(s, rules, e, u, MutePenalty) ==> t.users[u] == before.(muteUntil := None))
      && (t.users[u] == before || WinsAppeal(s, rules, e, u, BanPenalty) || WinsAppeal(s, rules, e, u, MutePenalty)
          || exists a, n :: Penalizes(s, rules, e, u, a, n))
  {
    var report, d := s.reports[e.id], e.decision;
    if Penalizes(s, rules, e, u, action, days) {
      P.ResolutionHasItsEffect(s, rules, e.id, e.seen, d, e.times, action, days);
    }
    if d.status == Resolved && u == report.target {
      P.ChoiceIsChosen(s, rules, u, report.reason, d);
      var (a, n) := Choice(s, rules, u, report.reason, d);
      if a.Some? {
        assert Penalizes(s, rules, e, u, a.value, n);
      }
    }
  }

  // ----- Pardons and direct penalties -----

  predicate ResolvedOf(s: State, target: Id, r: Id) {
    r in s.reports && s.reports[r].target == target && s.reports[r].status == Resolved
  }

  // The report a pardon takes is a resolved one of its target, and no other was resolved later; it takes none exactly
  // when there is none.
  lemma LatestMeans(s: State, target: Id, last: Option<Id>)
    requires IsLatestResolved(s, target, last)
    ensures last.None? <==> forall r | r in s.reports :: !ResolvedOf(s, target, r)
    ensures last.Some? ==>
      && ResolvedOf(s, target, last.value)
      && forall r | ResolvedOf(s, target, r) && s.reports[r].resolvedAt.Some? ::
           s.reports[last.value].resolvedAt.Some?
           && s.reports[r].resolvedAt.value <= s.reports[last.value].resolvedAt.value
  {
    if last.Some? {
      assert ResolvedOf(s, target, last.value);
    }
  }

  predicate NotAfter(a: Option<Instant>, b: Option<Instant>) {
    a.Some? ==> b.Some? && a.value <= b.value
  }

  lemma {:induction false} LatestAmong(s: State, ids: set<Id>, target: Id) returns (last: Id)
    requires ids != {} && (forall r | r in ids :: ResolvedOf(s, target, r))
    ensures last in ids && last in s.reports
    ensures forall r | r in ids && r in s.reports :: NotAfter(s.reports[r].resolvedAt, s.reports[last].resolvedAt)
    decreases |ids|
  {
    var one :| one in ids;
    assert ResolvedOf(s, target, one);
    var rest := ids - {one};
    if rest == {} {
      assert ids == {one};
      last := one;
    } else {
      var other := LatestAmong(s, rest, target);
      last := if NotAfter(s.reports[one].resolvedAt, s.reports[other].resolvedAt) then other else one;
      forall r | r in ids && r in s.reports
        ensures NotAfter(s.reports[r].resolvedAt, s.reports[last].resolvedAt)
      {
        assert r != one ==> r in rest && NotAfter(s.reports[r].resolvedAt, s.reports[other].resolvedAt);
      }
    }
  }

  // There always is an answer.
  lemma SomeLatestExists(s: State, target: Id)
    ensures exists last :: IsLatestResolved(s, target, last)
  {
    var ids := set r | r in s.reports && ResolvedOf(s, target, r);
    if ids == {} {
      assert forall r | r in s.reports :: ResolvedOf(s, target, r) ==> r in ids;
      assert IsLatestResolved(s, target, None);
    } else {
      var last := LatestAmong(s, ids, target);
      assert forall r | r in s.reports :: ResolvedOf(s, target, r) ==> r in ids;
      forall r | r in s.reports && s.reports[r].target == target && s.reports[r].status.Resolved?
        ensures NotAfter(s.reports[r].resolvedAt, s.reports[last].resolvedAt)
      {
        assert ResolvedOf(s, target, r);
      }
      assert IsLatestResolved(s, target, Some(last));
    }
  }

  lemma PardonsSayWhy(s: State, pardon: Pardon, target: Id, last: Option<Id>)
    ensures PardonUser(s, pardon, target, last).Err? <==> target !in s.users
    ensures PardonUser(s, pardon, target, last).Err? ==> PardonUser(s, pardon, target, last) == Err(TargetNotFound)
  {
  }

  // A direct penalty goes through, or is refused, as the resolution of a report of this target for this reason would
  // be: its target is known, outranked and not let off earlier. It leaves that report behind.
  lemma DirectPenaltyGoesThroughIff(s: State, rules: Rules, id: Id, target: Id, reason: Reason, d: Decision, t: Times)
    requires id !in s.reports
    ensures var r := DirectPenalty(s, rules, id, target, reason, d, t);
      && (target !in s.users <==> r == Err(TargetNotFound))
      && (r.Ok? <==>
            && target in s.users && target != d.admin && s.users[target].role != SuperAdmin
            && !(s.users[target].role == Role.Admin && d.adminRole == Role.Admin)
            && (forall action, days | P.Chosen(s, rules, target, reason, d, action, days) ::
                  !P.Shortens(s.users[target], action, days, t)))
      && (r.Ok? ==>
            && id in r.value.reports && r.value.reports[id].target == target && r.value.reports[id].reason == reason
            && r.value.reports[id].snapshotRole == s.users[target].role && r.value.reports[id].status == Resolved
            && r.value.reports[id].resolvedBy == Some(d.admin))
  {
    if target in s.users {
      var created, decision := Create(s, id, target, reason), d.(status := Resolved);
      StruckAfterCreate(s.reports, id, created.reports[id], target, reason);
      P.ResolveGoesThroughIff(created, rules, id, Pending, decision, t);
      assert forall action, days ::
          P.Chosen(created, rules, target, reason, decision, action, days)
          <==> P.Chosen(s, rules, target, reason, d, action, days);
      if Resolve(created, rules, id, Pending, decision, t).Err? {
        ResolutionsSayWhy(created, rules, id, Pending, decision, t);
      }
    }
  }
}
