// What a resolution does to the account it penalizes, field by field, and that a ban ends every token of its target
// (src/modules/reports/report-penalty.service.ts:123-288, src/modules/reports/reports.service.ts:404-530).
module PenaltyEpochs {
  import opened Common
  import opened ReportTypes
  import opened Reports
  import T = TokenEpoch

  // ----- Who can be penalized, and with what -----

  // The rule for a strike: the first entry that names it, or the last entry when none does.
  ghost predicate IsRuleFor(list: seq<Rule>, strike: nat, rule: Rule) {
    if exists i | 0 <= i < |list| :: list[i].strike == strike then
      exists i | 0 <= i < |list| ::
        list[i] == rule && rule.strike == strike && forall j | 0 <= j < i :: list[j].strike != strike
    else list != [] && rule == list[|list| - 1]
  }

  // The penalty of a decision: the override, or the rule for one strike more than the resolutions of the pair so far.
  ghost predicate Chosen(s: State, rules: Rules, target: Id, reason: Reason, d: Decision, action: Action, days: nat) {
    if d.overrideAction.Some? then
      action == d.overrideAction.value && days == if d.overrideDays.Some? then d.overrideDays.value else 0
    else
      reason in rules && exists rule ::
        IsRuleFor(rules[reason], Strikes(s.reports, target, reason) + 1, rule)
        && rule.action == action && rule.durationDays == days
  }

  ghost predicate NoPenalty(rules: Rules, reason: Reason, d: Decision) {
    d.overrideAction.None? && (reason !in rules || rules[reason] == [])
  }

  lemma ChoiceIsChosen(s: State, rules: Rules, target: Id, reason: Reason, d: Decision)
    ensures var (action, days) := Choice(s, rules, target, reason, d);
      && (action.None? <==> NoPenalty(rules, reason, d))
      && (action.Some? ==> Chosen(s, rules, target, reason, d, action.value, days))
  {
    if d.overrideAction.None? && reason in rules && rules[reason] != [] {
      var list, strike := rules[reason], Strikes(s.reports, target, reason) + 1;
      FindRuleMeansFirstMatch(list, strike);
      var rule := if FindRule(list, strike).Some? then FindRule(list, strike).value else list[|list| - 1];
      assert IsRuleFor(list, strike, rule);
    }
  }

  // The preview shows the next strike and the rule for it, or no action and no days when there are no rules.
  lemma PreviewShowsTheNextRule(s: State, rules: Rules, target: Id, reason: Reason)
    ensures var preview := CalculatePenaltyInfo(s, rules, target, reason);
      && preview.strike == Strikes(s.reports, target, reason) + 1
      && (preview.action.None? <==> reason !in rules || rules[reason] == [])
      && (preview.action.None? ==> preview.durationDays == 0)
      && (preview.action.Some? ==> exists rule ::
            IsRuleFor(rules[reason], preview.strike, rule)
            && preview.action == Some(rule.action) && preview.durationDays == rule.durationDays)
  {
    if reason in rules && rules[reason] != [] {
      var list, strike := rules[reason], Strikes(s.reports, target, reason) + 1;
      FindRuleMeansFirstMatch(list, strike);
      var rule := if FindRule(list, strike).Some? then FindRule(list, strike).value else list[|list| - 1];
      assert IsRuleFor(list, strike, rule);
    }
  }

  // At most one penalty is chosen.
  lemma ChosenIsUnique(s: State, rules: Rules, target: Id, reason: Reason, d: Decision,
                       a1: Action, n1: nat, a2: Action, n2: nat)
    requires Chosen(s, rules, target, reason, d, a1, n1) && Chosen(s, rules, target, reason, d, a2, n2)
    ensures a1 == a2 && n1 == n2
  {
    if d.overrideAction.None? {
      var list, strike := rules[reason], Strikes(s.reports, target, reason) + 1;
      var r1 :| IsRuleFor(list, strike, r1) && r1.action == a1 && r1.durationDays == n1;
      var r2 :| IsRuleFor(list, strike, r2) && r2.action == a2 && r2.durationDays == n2;
      assert IsRuleFor(list, strike, r1) && IsRuleFor(list, strike, r2);
    }
  }

  // A penalty may not end earlier than the one in force.
  ghost predicate Shortens(user: Account, action: Action, days: nat, t: Times) {
    match action
    case Mute =>
      && user.muteUntil.Some? && t.active < user.muteUntil.value
      && t.proposed + days * 86_400_000 < user.muteUntil.value
    case Ban | ResetAndBan =>
      && user.banUntil.Some? && t.active < user.banUntil.value
      && t.proposed + days * 86_400_000 < user.banUntil.value
    case Warning | ResetAndWarning => false
  }

  // A resolution goes through exactly when the report still has the status that was read, the decision fits that
  // status, and a penalty meets a target that is known, is outranked, is not the person deciding, and would not be
  // let off earlier.
  lemma ResolveGoesThroughIff(s: State, rules: Rules, id: Id, seen: ReportStatus, d: Decision, t: Times)
    ensures Resolve(s, rules, id, seen, d, t).Ok? <==>
      && id in s.reports && s.reports[id].status == seen
      && ((seen == Pending && (d.status == Resolved || d.status == Dismissed))
          || (seen == AppealPending && (d.status == AppealRejected || d.status == AppealSuccess)))
      && (d.status == Resolved ==>
            && s.reports[id].target in s.users && s.reports[id].target != d.admin
            && s.users[s.reports[id].target].role != SuperAdmin
            && !(s.users[s.reports[id].target].role == Role.Admin && d.adminRole == Role.Admin)
            && (forall action, days | Chosen(s, rules, s.reports[id].target, s.reports[id].reason, d, action, days) ::
                  !Shortens(s.users[s.reports[id].target], action, days, t)))
  {
    if id in s.reports {
      var report := s.reports[id];
      ChoiceIsChosen(s, rules, report.target, report.reason, d);
      var (action, days) := Choice(s, rules, report.target, report.reason, d);
      forall a, n | Chosen(s, rules, report.target, report.reason, d, a, n)
        ensures action == Some(a) && days == n
      {
        if action.Some? {
          ChosenIsUnique(s, rules, report.target, report.reason, d, a, n, action.value, days);
        }
      }
    }
  }

  // ----- What the penalty is -----

  predicate Bans(action: Action) {
    action == Ban || action == ResetAndBan
  }

  // Whether a decision that resets takes away this part of the profile: it was asked for, or nothing was and the
  // action resets by itself.
  predicate TakesAway(action: Action, asked: bool, d: Decision) {
    || (asked && action != Warning && action != Mute)
    || (!d.resetAvatar && !d.resetBio && !d.resetName && (action == ResetAndWarning || action == ResetAndBan))
  }

  ghost predicate Effect(before: Account, after: Account, action: Action, days: nat, d: Decision, now: Instant) {
    && after.role == before.role
    && after.tokenVersion == before.tokenVersion + (if Bans(action) then 1 else 0)
    && after.banUntil == (if Bans(action) then Some(now + days * 86_400_000) else before.banUntil)
    && after.muteUntil == (if action == Mute then Some(now + days * 86_400_000) else before.muteUntil)
    && after.avatar == (if TakesAway(action, d.resetAvatar, d) then None else before.avatar)
    && after.bio == (if TakesAway(action, d.resetBio, d) then None else before.bio)
    && after.name == (if d.resetName && action != Warning && action != Mute then d.newName else before.name)
  }

  lemma ActionHasItsEffect(user: Account, action: Action, days: nat, d: Decision, now: Instant)
    ensures Effect(user, ApplyAction(user, action, days, d, now), action, days, d, now)
    ensures TypeOf(action) == (if Bans(action) then BanPenalty else if action == Mute then MutePenalty
                               else WarningPenalty)
  {
  }

  // What a resolution writes: the penalty chosen, on the target alone, and on the report what lifts it again.
  lemma ResolutionHasItsEffect(s: State, rules: Rules, id: Id, seen: ReportStatus, d: Decision, t: Times,
                               action: Action, days: nat)
    requires Resolve(s, rules, id, seen, d, t).Ok? && d.status == Resolved
    requires Chosen(s, rules, s.reports[id].target, s.reports[id].reason, d, action, days)
    ensures var target, after := s.reports[id].target, Resolve(s, rules, id, seen, d, t).value;
      && after.users.Keys == s.users.Keys && target in s.users
      && (forall u | u in s.users && u != target :: after.users[u] == s.users[u])
      && Effect(s.users[target], after.users[target], action, days, d, t.applied)
      && id in after.reports && after.reports[id].status == Resolved
      && after.reports[id].resolvedBy == Some(d.admin) && after.reports[id].resolvedAt == Some(t.resolved)
      && after.reports[id].appealDeadline == Some(t.deadline + 2_592_000_000)
      && after.reports[id].penaltyType == Some(if Bans(action) then BanPenalty else if action == Mute then MutePenalty
                                               else WarningPenalty)
  {
    var report := s.reports[id];
    ChoiceIsChosen(s, rules, report.target, report.reason, d);
    var (chosen, n) := Choice(s, rules, report.target, report.reason, d);
    ChosenIsUnique(s, rules, report.target, report.reason, d, action, days, chosen.value, n);
    ActionHasItsEffect(s.users[report.target], action, days, d, t.applied);
  }

  // ----- A ban starts a token epoch -----

  // The account as the token machine sees it.
  function TokenView(user: Account, isDisabled: bool, isActive: bool): T.Account {
    T.Account(user.role, user.tokenVersion, isDisabled, isActive, user.banUntil)
  }

  // A ban, by rule or override, is exactly the epoch event of the token machine; every other penalty leaves role,
  // version and ban alone.
  lemma PenaltyAsEpochEvent(s: State, rules: Rules, id: Id, seen: ReportStatus, d: Decision, t: Times,
                            action: Action, days: nat, isDisabled: bool, isActive: bool)
    requires Resolve(s, rules, id, seen, d, t).Ok? && d.status == Resolved
    requires Chosen(s, rules, s.reports[id].target, s.reports[id].reason, d, action, days)
    ensures var target, after := s.reports[id].target, Resolve(s, rules, id, seen, d, t).value;
      && target in s.users && target in after.users
      && var before := TokenView(s.users[target], isDisabled, isActive);
         var view := TokenView(after.users[target], isDisabled, isActive);
         if Bans(action)
         then T.NewEpoch(before, T.BanEvent(target, t.applied + days * 86_400_000)) == Some(view)
         else view == before
  {
    ResolutionHasItsEffect(s, rules, id, seen, d, t, action, days);
  }

  // The token machine and the report store agree on an account.
  predicate Agree(tokens: T.State, s: State, user: Id) {
    && user in tokens.users && user in s.users
    && tokens.users[user] == TokenView(s.users[user], tokens.users[user].isDisabled, tokens.users[user].isActive)
  }

  // So when a resolution bans its target, no token signed for the target so far is accepted in any later state.
  lemma BanEndsEveryToken(tokens: T.State, s: State, rules: Rules, id: Id, seen: ReportStatus, d: Decision, t: Times,
                          action: Action, days: nat, p: T.Payload, later: seq<T.Event>, issuedAt: Instant,
                          now: Instant)
    requires Resolve(s, rules, id, seen, d, t).Ok? && d.status == Resolved
    requires Chosen(s, rules, s.reports[id].target, s.reports[id].reason, d, action, days) && Bans(action)
    requires T.Invariant(tokens) && Agree(tokens, s, s.reports[id].target)
    requires p in tokens.issued && p.user == s.reports[id].target
    ensures var target := s.reports[id].target;
      var banned := T.Step(tokens, T.BanEvent(target, t.applied + days * 86_400_000));
      && Agree(banned, Resolve(s, rules, id, seen, d, t).value, target)
      && T.Validate(T.Run(banned, later), p, now).Err?
      && T.CheckRefresh(T.Run(banned, later), T.RefreshToken(p, issuedAt), now).Err?
  {
    var target := s.reports[id].target;
    var account := tokens.users[target];
    PenaltyAsEpochEvent(s, rules, id, seen, d, t, action, days, account.isDisabled, account.isActive);
    T.UnderWayIsOld(tokens, p);
    T.OldEpochIsDead(tokens, T.BanEvent(target, t.applied + days * 86_400_000), later, p, issuedAt, now);
  }

  // The same for a ban that an administrator imposes directly, by override or by the rule of the next strike.
  lemma DirectBanEndsEveryToken(tokens: T.State, s: State, rules: Rules, id: Id, target: Id, reason: Reason,
                                d: Decision, t: Times, action: Action, days: nat, p: T.Payload,
                                later: seq<T.Event>, now: Instant)
    requires id !in s.reports && DirectPenalty(s, rules, id, target, reason, d, t).Ok?
    requires Chosen(s, rules, target, reason, d, action, days) && Bans(action)
    requires T.Invariant(tokens) && Agree(tokens, s, target) && p in tokens.issued && p.user == target
    ensures var banned := T.Step(tokens, T.BanEvent(target, t.applied + days * 86_400_000));
      && Agree(banned, DirectPenalty(s, rules, id, target, reason, d, t).value, target)
      && T.Validate(T.Run(banned, later), p, now).Err?
  {
    var created, decision := Create(s, id, target, reason), d.(status := Resolved);
    StruckAfterCreate(s.reports, id, created.reports[id], target, reason);
    assert Chosen(created, rules, target, reason, decision, action, days);
    BanEndsEveryToken(tokens, created, rules, id, Pending, decision, t, action, days, p, later, now, now);
  }
}
