// The report handlers as code over the store: resolveReport inside its transaction
// (src/modules/reports/reports.service.ts:324-534), the penalty that mutates the user
// (src/modules/reports/report-penalty.service.ts:123-290), and the direct penalties with their
// compensation (src/modules/reports/report-admin-action.service.ts:64-209).
module ReportServices {
  import opened Common
  import opened ReportTypes
  import opened Reports

  function Refusal(r: Result<State>): Option<Error> {
    if r.Err? then Some(r.error) else None
  }

  function VerifyAdmin(s: State, admin: Id, role: Role, passwordMatches: bool): Option<Error> {
    if admin !in s.users then Some(AdminNotFound)
    else if s.users[admin].role != role then Some(MissingPermission)
    else if !passwordMatches then Some(InvalidPassword)
    else None
  }

  class ReportService {
    var users: map<Id, Account>
    var reports: map<Id, Report>
    const rules: Rules

    constructor (rules: Rules)
      ensures users == map[] && reports == map[] && this.rules == rules
    {
      users, reports := map[], map[];
      this.rules := rules;
    }

    ghost function Snapshot(): State
      reads this
    {
      State(users, reports)
    }

    method FindRuleFor(list: seq<Rule>, strike: nat) returns (rule: Rule)
      requires list != []
      ensures rule == if FindRule(list, strike).Some? then FindRule(list, strike).value else list[|list| - 1]
    {
      for i := 0 to |list|
        invariant FindRule(list, strike) == FindRule(list[i..], strike)
      {
        if list[i].strike == strike {
          return list[i];
        }
        assert list[i..][1..] == list[i + 1..];
      }
      rule := list[|list| - 1];
    }

    // The override if there is one, otherwise the rule of the next strike.
    method ChooseAction(committed: State, target: Id, reason: Reason, d: Decision)
      returns (action: Option<Action>, duration: nat)
      ensures (action, duration) == Choice(committed, rules, target, reason, d)
    {
      var currentStrike := Strikes(committed.reports, target, reason) + 1;
      action, duration := None, 0;
      if d.overrideAction.Some? {
        action := d.overrideAction;
        duration := if d.overrideDays.Some? then d.overrideDays.value else 0;
      } else if reason in rules && rules[reason] != [] {
        var rule := FindRuleFor(rules[reason], currentStrike);
        action, duration := Some(rule.action), rule.durationDays;
      }
    }

    method Apply(target: Account, action: Action, duration: nat, d: Decision, now: Instant)
      returns (user: Account, penaltyType: PenaltyType)
      ensures user == ApplyAction(target, action, duration, d, now) && penaltyType == TypeOf(action)
    {
      user := target;
      if !action.Warning? && !action.Mute? {
        var hasSpecificReset := false;
        if d.resetAvatar {
          user := user.(avatar := None);
          hasSpecificReset := true;
        }
        if d.resetBio {
          user := user.(bio := None);
          hasSpecificReset := true;
        }
        if d.resetName {
          user := user.(name := d.newName);
          hasSpecificReset := true;
        }
        if !hasSpecificReset && !action.Ban? {
          user := user.(avatar := None, bio := None);
        }
      }
      match action {
        case Warning | ResetAndWarning => penaltyType := WarningPenalty;
        case Mute =>
          user := user.(muteUntil := Some(Until(now, duration)));
          penaltyType := MutePenalty;
        case Ban | ResetAndBan =>
          user := user.(banUntil := Some(Until(now, duration)), tokenVersion := user.tokenVersion + 1);
          penaltyType := BanPenalty;
      }
    }

    // `committed` is what reads outside the transaction's session see.
    method ApplyPenalty(committed: State, target: Id, reason: Reason, d: Decision, t: Times)
      returns (refusal: Option<Error>, penaltyType: Option<PenaltyType>)
      requires committed.users == users
      modifies `users
      ensures match CalculateAndApplyPenalty(committed, rules, target, reason, d, t)
        case Err(e) => refusal == Some(e) && users == old(users)
        case Ok(p) => refusal == None && penaltyType == p.penaltyType && users == old(users)[target := p.user]
    {
      if target !in users {
        return Some(TargetNotFound), None;
      }
      var user := users[target];
      if user.role.SuperAdmin? {
        return Some(CannotPenalizeSuperAdmin), None;
      }
      if d.adminRole.Admin? && user.role.Admin? {
        return Some(CannotPenalizeUser), None;
      }
      if d.admin == target {
        return Some(CannotPenalizeSelf), None;
      }
      var action, duration := ChooseAction(committed, target, reason, d);
      if action.None? {
        assert users[target := user] == users;
        return None, None;
      }
      if WouldReduce(user, action.value, duration, t) {
        return Some(CannotReducePenalty), None;
      }
      var penalized, applied := Apply(user, action.value, duration, d, t.applied);
      users := users[target := penalized];
      return None, Some(applied);
    }

    // The body of the transaction; a refusal may leave it half done.
    method InTransaction(id: Id, seen: ReportStatus, d: Decision, t: Times) returns (refusal: Option<Error>)
      modifies this
      ensures refusal == Refusal(Transaction(old(Snapshot()), rules, id, seen, d, t))
      ensures refusal.None? ==> Snapshot() == Transaction(old(Snapshot()), rules, id, seen, d, t).value
    {
      var committed := State(users, reports);
      if id !in reports || reports[id].status != seen {
        return Some(AlreadyResolved);
      }
      var report := reports[id];
      reports := reports[
        id := report.(status := d.status, resolvedBy := Some(d.admin), resolvedAt := Some(t.resolved))];
      if d.status.Resolved? {
        var penaltyType;
        refusal, penaltyType := ApplyPenalty(committed, report.target, report.reason, d, t);
        if refusal.Some? {
          return;
        }
        reports := reports[id := reports[id].(penaltyType := penaltyType,
                                              appealDeadline := Some(t.deadline + 30 * DAY_MS))];
        reports := MergePending(reports, id, report.target, report.reason, d, t.merged);
      } else if d.status.AppealSuccess? {
        if report.target in users && report.penaltyType == Some(BanPenalty) {
          users := users[report.target := users[report.target].(banUntil := None)];
        } else if report.target in users && report.penaltyType == Some(MutePenalty) {
          users := users[report.target := users[report.target].(muteUntil := None)];
        } else if report.target in users {
          assert users[report.target := users[report.target]] == users;
        }
        refusal := None;
      } else {
        refusal := None;
      }
    }

    // A refused resolution leaves reports and users exactly as they were.
    method ResolveReport(id: Id, seen: ReportStatus, d: Decision, t: Times) returns (refusal: Option<Error>)
      modifies this
      ensures refusal == Refusal(Resolve(old(Snapshot()), rules, id, seen, d, t))
      ensures Snapshot() == After(old(Snapshot()), Resolve(old(Snapshot()), rules, id, seen, d, t))
      ensures refusal.Some? ==> Snapshot() == old(Snapshot())
    {
      refusal := CheckTransition(seen, d.status);
      if refusal.Some? {
        return;
      }
      var startUsers, startReports := users, reports;
      refusal := InTransaction(id, seen, d, t);
      if refusal.Some? {
        users, reports := startUsers, startReports;
      }
    }

    // quickPenalty and manualBan: a refusal leaves no trace of the report they created.
    method PenalizeDirectly(id: Id, target: Id, reason: Reason, d: Decision, passwordMatches: bool, t: Times)
      returns (refusal: Option<Error>)
      requires id !in reports && d.status.Resolved?
      modifies this
      ensures d.admin !in old(users) ==> refusal == Some(AdminNotFound)
      ensures d.admin in old(users) && old(users)[d.admin].role != d.adminRole ==> refusal == Some(MissingPermission)
      ensures d.admin in old(users) && old(users)[d.admin].role == d.adminRole && !passwordMatches ==>
        refusal == Some(InvalidPassword)
      ensures d.admin in old(users) && old(users)[d.admin].role == d.adminRole && passwordMatches ==>
        && refusal == Refusal(DirectPenalty(old(Snapshot()), rules, id, target, reason, d, t))
        && Snapshot() == After(old(Snapshot()), DirectPenalty(old(Snapshot()), rules, id, target, reason, d, t))
      ensures refusal.Some? ==> Snapshot() == old(Snapshot())
    {
      refusal := VerifyAdmin(State(users, reports), d.admin, d.adminRole, passwordMatches);
      if refusal.Some? {
        return;
      }
      if target !in users {
        return Some(TargetNotFound);
      }
      ghost var start := Snapshot();
      reports := reports[id := NewReport(target, reason, users[target].role)];
      assert Snapshot() == Create(start, id, target, reason);
      assert d == d.(status := Resolved);
      refusal := ResolveReport(id, Pending, d, t);
      if refusal.Some? {
        var latest := reports[id].status;
        if latest.Pending? || latest.Resolving? {
          reports := reports - {id};
        }
        assert reports == start.reports;
      }
    }

    method PardonTarget(pardon: Pardon, d: Decision, passwordMatches: bool, target: Id, last: Option<Id>)
      returns (refusal: Option<Error>)
      requires IsLatestResolved(Snapshot(), target, last)
      modifies this
      ensures d.admin in old(users) && old(users)[d.admin].role == d.adminRole && passwordMatches ==>
        && refusal == Refusal(PardonUser(old(Snapshot()), pardon, target, last))
        && Snapshot() == After(old(Snapshot()), PardonUser(old(Snapshot()), pardon, target, last))
      ensures d.admin !in old(users) ==> refusal == Some(AdminNotFound)
      ensures d.admin in old(users) && old(users)[d.admin].role != d.adminRole ==> refusal == Some(MissingPermission)
      ensures d.admin in old(users) && old(users)[d.admin].role == d.adminRole && !passwordMatches ==>
        refusal == Some(InvalidPassword)
      ensures refusal.Some? ==> Snapshot() == old(Snapshot())
    {
      refusal := VerifyAdmin(State(users, reports), d.admin, d.adminRole, passwordMatches);
      if refusal.Some? {
        return;
      }
      if target !in users {
        return Some(TargetNotFound);
      }
      match pardon {
        case Unban => users := users[target := users[target].(banUntil := None)];
        case Unmute => users := users[target := users[target].(muteUntil := None)];
        case ClearStrike =>
      }
      if last.Some? {
        var lastReport := reports[last.value];
        lastReport := lastReport.(status := Dismissed);
        lastReport := lastReport.(appealDeadline := None);
        reports := reports[last.value := lastReport];
      }
    }

    // An appeal that goes through takes one strike off the pair of its report, touches nothing else, and cannot be
    // repeated; a refused one changes nothing.
    method SubmitAppeal(id: Id, user: Id, now: Instant) returns (refusal: Option<Error>)
      modifies `reports
      ensures refusal == Refusal(Appeal(old(Snapshot()), id, user, now))
      ensures Snapshot() == After(old(Snapshot()), Appeal(old(Snapshot()), id, user, now))
      ensures refusal.None? ==>
        && id in old(reports) && reports.Keys == old(reports).Keys
        && (forall r | r in reports && r != id :: reports[r] == old(reports)[r])
        && Strikes(reports, old(reports)[id].target, old(reports)[id].reason)
           == Strikes(old(reports), old(reports)[id].target, old(reports)[id].reason) - 1
        && Appeal(Snapshot(), id, user, now) == Err(InvalidStatus)
      ensures refusal.Some? ==> reports == old(reports)
    {
      ghost var start := Snapshot();
      if id !in reports {
        return Some(ReportNotFound);
      }
      var report := reports[id];
      if report.target != user {
        return Some(MissingPermission);
      }
      if !report.status.Resolved? {
        return Some(InvalidStatus);
      }
      if report.appealDeadline.None? || report.appealDeadline.value < now {
        return Some(DeadlineExpired);
      }
      reports := reports[id := report.(status := AppealPending)];
      AppealTakesTheStrike(start, id, user, now, now);
      refusal := None;
    }
  }
}
