// Reports, strikes and penalties: src/modules/reports/reports.service.ts,
// report-penalty.service.ts, report-admin-action.service.ts and report-appeal.service.ts.
module Reports {
  import opened Common
  import opened ReportTypes

  datatype Reason = SpamHarassment | InappropriateContent | Impersonation | SystemSpam | Other

  datatype Action = Warning | Mute | ResetAndWarning | ResetAndBan | Ban

  datatype PenaltyType = WarningPenalty | MutePenalty | BanPenalty

  datatype Rule = Rule(strike: nat, action: Action, durationDays: nat)

  // The rule list of each reason; any table, not only the one that ships.
  type Rules = map<Reason, seq<Rule>>

  datatype Account = Account(
    role: Role,
    name: Id,
    avatar: Option<Id>,
    bio: Option<Id>,
    banUntil: Option<Instant>,
    muteUntil: Option<Instant>,
    tokenVersion: nat)

  datatype Report = Report(
    target: Id,
    reason: Reason,
    snapshotRole: Role,
    status: ReportStatus,
    resolvedBy: Option<Id>,
    resolvedAt: Option<Instant>,
    penaltyType: Option<PenaltyType>,
    appealDeadline: Option<Instant>)

  datatype State = State(users: map<Id, Account>, reports: map<Id, Report>)

  datatype Error =
    | ReportNotFound | BeingProcessed | AlreadyResolved | InvalidStatus
    | TargetNotFound | CannotPenalizeSuperAdmin | CannotPenalizeUser | CannotPenalizeSelf | CannotReducePenalty
    | MissingPermission | DeadlineExpired | AdminNotFound | InvalidPassword

  datatype Result<+T> = Ok(value: T) | Err(error: Error)

  // What the administrator asks for. `newName` is the random name a reset would give.
  datatype Decision = Decision(
    admin: Id,
    adminRole: Role,
    status: ReportStatus,
    overrideAction: Option<Action>,
    overrideDays: Option<nat>,
    resetAvatar: bool,
    resetBio: bool,
    resetName: bool,
    newName: Id)

  // The clock readings one resolution makes, in the order it makes them.
  datatype Times = Times(resolved: Instant, active: Instant, proposed: Instant, applied: Instant,
                         deadline: Instant, merged: Instant)
  {
    predicate InOrder() {
      resolved <= active <= proposed <= applied <= deadline <= merged
    }
  }

  // ----- Strikes and rules -----

  function Struck(reports: map<Id, Report>, target: Id, reason: Reason): set<Id> {
    set r | r in reports && reports[r].target == target && reports[r].reason == reason && reports[r].status.Resolved?
  }

  function Strikes(reports: map<Id, Report>, target: Id, reason: Reason): nat {
    |Struck(reports, target, reason)|
  }

  function FindRule(rules: seq<Rule>, strike: nat): Option<Rule> {
    if rules == [] then None
    else if rules[0].strike == strike then Some(rules[0])
    else FindRule(rules[1..], strike)
  }

  datatype Preview = Preview(action: Option<Action>, durationDays: nat, strike: nat)

  // calculatePenaltyInfo
  function CalculatePenaltyInfo(s: State, rules: Rules, target: Id, reason: Reason): Preview {
    var strike := Strikes(s.reports, target, reason) + 1;
    if reason !in rules || rules[reason] == [] then Preview(None, 0, strike)
    else
      var list := rules[reason];
      var found := FindRule(list, strike);
      var rule := if found.Some? then found.value else list[|list| - 1];
      Preview(Some(rule.action), rule.durationDays, strike)
  }

  // ----- Penalties -----

  function Until(now: Instant, days: nat): Instant {
    now + days * DAY_MS
  }

  // ensurePenaltyIsNotReduced
  predicate WouldReduce(user: Account, action: Action, days: nat, t: Times) {
    match action
    case Mute =>
      user.muteUntil.Some? && user.muteUntil.value > t.active && Until(t.proposed, days) < user.muteUntil.value
    case Ban | ResetAndBan =>
      user.banUntil.Some? && user.banUntil.value > t.active && Until(t.proposed, days) < user.banUntil.value
    case _ => false
  }

  // `byDefault` resets avatar and biography when nothing specific was asked for.
  function ResetProfile(user: Account, d: Decision, byDefault: bool): Account {
    var nothingSpecific := !d.resetAvatar && !d.resetBio && !d.resetName;
    user.(avatar := if d.resetAvatar || (byDefault && nothingSpecific) then None else user.avatar,
          bio := if d.resetBio || (byDefault && nothingSpecific) then None else user.bio,
          name := if d.resetName then d.newName else user.name)
  }

  function BanAccount(user: Account, until: Instant): Account {
    user.(banUntil := Some(until), tokenVersion := user.tokenVersion + 1)
  }

  function ApplyAction(user: Account, action: Action, days: nat, d: Decision, now: Instant): Account {
    match action
    case Warning => user
    case Mute => user.(muteUntil := Some(Until(now, days)))
    case ResetAndWarning => ResetProfile(user, d, true)
    case ResetAndBan => BanAccount(ResetProfile(user, d, true), Until(now, days))
    case Ban => BanAccount(ResetProfile(user, d, false), Until(now, days))
  }

  function TypeOf(action: Action): PenaltyType {
    match action
    case Warning | ResetAndWarning => WarningPenalty
    case Mute => MutePenalty
    case Ban | ResetAndBan => BanPenalty
  }

  datatype Penalty = Penalty(user: Account, penaltyType: Option<PenaltyType>)

  function TargetGuard(s: State, target: Id, d: Decision): Option<Error> {
    if target !in s.users then Some(TargetNotFound)
    else if s.users[target].role.SuperAdmin? then Some(CannotPenalizeSuperAdmin)
    else if d.adminRole.Admin? && s.users[target].role.Admin? then Some(CannotPenalizeUser)
    else if d.admin == target then Some(CannotPenalizeSelf)
    else None
  }

  function Choice(s: State, rules: Rules, target: Id, reason: Reason, d: Decision): (Option<Action>, nat) {
    if d.overrideAction.Some? then (d.overrideAction, if d.overrideDays.Some? then d.overrideDays.value else 0)
    else
      var preview := CalculatePenaltyInfo(s, rules, target, reason);
      (preview.action, preview.durationDays)
  }

  // calculateAndApplyPenalty; `s` is the committed store, which the strike count reads.
  function CalculateAndApplyPenalty(s: State, rules: Rules, target: Id, reason: Reason, d: Decision, t: Times)
    : Result<Penalty>
  {
    var guard := TargetGuard(s, target, d);
    if guard.Some? then Err(guard.value)
    else
      var user := s.users[target];
      var (action, days) := Choice(s, rules, target, reason, d);
      if action.None? then Ok(Penalty(user, None))
      else if WouldReduce(user, action.value, days, t) then Err(CannotReducePenalty)
      else Ok(Penalty(ApplyAction(user, action.value, days, d, t.applied), Some(TypeOf(action.value))))
  }

  // ----- Resolution -----

  function CheckTransition(from: ReportStatus, to: ReportStatus): Option<Error> {
    if from.Resolving? then Some(BeingProcessed)
    else if !from.Pending? && !from.AppealPending? then Some(AlreadyResolved)
    else if from.Pending? && !(to.Resolved? || to.Dismissed?) then Some(InvalidStatus)
    else if from.AppealPending? && !(to.AppealRejected? || to.AppealSuccess?) then Some(InvalidStatus)
    else None
  }

  predicate Mergeable(report: Report, target: Id, reason: Reason) {
    report.target == target && report.reason == reason && report.status.Pending?
  }

  // The other pending reports of the pair are closed together with report `id`.
  function MergePending(reports: map<Id, Report>, id: Id, target: Id, reason: Reason, d: Decision, now: Instant)
    : map<Id, Report>
  {
    map r | r in reports ::
      if r != id && Mergeable(reports[r], target, reason)
      then reports[r].(status := Dismissed, resolvedBy := Some(d.admin), resolvedAt := Some(now))
      else reports[r]
  }

  function Decide(report: Report, d: Decision, t: Times): Report {
    report.(status := d.status, resolvedBy := Some(d.admin), resolvedAt := Some(t.resolved))
  }

  function Penalized(report: Report, penaltyType: Option<PenaltyType>, t: Times): Report {
    report.(penaltyType := penaltyType, appealDeadline := Some(t.deadline + 30 * DAY_MS))
  }

  function Lift(user: Account, penaltyType: Option<PenaltyType>): Account {
    match penaltyType
    case Some(BanPenalty) => user.(banUntil := None)
    case Some(MutePenalty) => user.(muteUntil := None)
    case _ => user
  }

  // The transaction of resolveReport once the report has been read in status `seen`.
  function Transaction(s: State, rules: Rules, id: Id, seen: ReportStatus, d: Decision, t: Times): Result<State> {
    if id !in s.reports || s.reports[id].status != seen then Err(AlreadyResolved)
    else
      var report := s.reports[id];
      var decided := s.(reports := s.reports[id := Decide(report, d, t)]);
      if d.status.Resolved? then
        var penalty := CalculateAndApplyPenalty(s, rules, report.target, report.reason, d, t);
        if penalty.Err? then Err(penalty.error)
        else
          var reports := decided.reports[id := Penalized(decided.reports[id], penalty.value.penaltyType, t)];
          Ok(State(s.users[report.target := penalty.value.user],
                   MergePending(reports, id, report.target, report.reason, d, t.merged)))
      else if d.status.AppealSuccess? && report.target in s.users then
        Ok(decided.(users := s.users[report.target := Lift(s.users[report.target], report.penaltyType)]))
      else Ok(decided)
  }

  // resolveReport: `seen` is the status found by an earlier read of the report.
  function Resolve(s: State, rules: Rules, id: Id, seen: ReportStatus, d: Decision, t: Times): Result<State> {
    var refusal := CheckTransition(seen, d.status);
    if refusal.Some? then Err(refusal.value) else Transaction(s, rules, id, seen, d, t)
  }

  function After(s: State, r: Result<State>): State {
    if r.Ok? then r.value else s
  }

  // ----- Other handlers -----

  function NewReport(target: Id, reason: Reason, role: Role): Report {
    Report(target, reason, role, Pending, None, None, None, None)
  }

  function Create(s: State, id: Id, target: Id, reason: Reason): State {
    if id in s.reports || target !in s.users then s
    else s.(reports := s.reports[id := NewReport(target, reason, s.users[target].role)])
  }

  function Appeal(s: State, id: Id, user: Id, now: Instant): Result<State> {
    if id !in s.reports then Err(ReportNotFound)
    else if s.reports[id].target != user then Err(MissingPermission)
    else if !s.reports[id].status.Resolved? then Err(InvalidStatus)
    else if s.reports[id].appealDeadline.None? || s.reports[id].appealDeadline.value < now then Err(DeadlineExpired)
    else Ok(s.(reports := s.reports[id := s.reports[id].(status := AppealPending)]))
  }

  // What `findOne(...).sort({ resolvedAt: -1 })` may return for the resolved reports of a user.
  predicate IsLatestResolved(s: State, target: Id, last: Option<Id>) {
    match last
    case None => forall r | r in s.reports :: !(s.reports[r].target == target && s.reports[r].status.Resolved?)
    case Some(l) =>
      && l in s.reports && s.reports[l].target == target && s.reports[l].status.Resolved?
      && (forall r | r in s.reports && s.reports[r].target == target && s.reports[r].status.Resolved? ::
            s.reports[r].resolvedAt.Some? ==>
              s.reports[l].resolvedAt.Some? && s.reports[r].resolvedAt.value <= s.reports[l].resolvedAt.value)
  }

  function DismissLatest(reports: map<Id, Report>, last: Option<Id>): map<Id, Report> {
    if last.Some? && last.value in reports
    then reports[last.value := reports[last.value].(status := Dismissed, appealDeadline := None)]
    else reports
  }

  datatype Pardon = Unban | Unmute | ClearStrike

  // unban, unmute and clearStrike
  function PardonUser(s: State, pardon: Pardon, target: Id, last: Option<Id>): Result<State> {
    if target !in s.users then Err(TargetNotFound)
    else
      var user := s.users[target];
      var users := match pardon
        case Unban => s.users[target := user.(banUntil := None)]
        case Unmute => s.users[target := user.(muteUntil := None)]
        case ClearStrike => s.users;
      Ok(State(users, DismissLatest(s.reports, last)))
  }

  // The compensation of quickPenalty and manualBan: the report they created goes while nobody has closed it.
  function Compensate(s: State, id: Id): State {
    if id in s.reports && (s.reports[id].status.Pending? || s.reports[id].status.Resolving?)
    then s.(reports := s.reports - {id}) else s
  }

  // quickPenalty (no override) and manualBan (override with a ban): create, resolve, compensate.
  function DirectPenalty(s: State, rules: Rules, id: Id, target: Id, reason: Reason, d: Decision, t: Times)
    : Result<State>
  {
    if target !in s.users then Err(TargetNotFound)
    else
      var resolved := Resolve(Create(s, id, target, reason), rules, id, Pending, d.(status := Resolved), t);
      if resolved.Ok? then resolved else Err(resolved.error)
  }

  // ----- Runs -----

  datatype Event =
    | JoinEvent(user: Id, account: Account)
    | CreateEvent(id: Id, target: Id, reason: Reason)
    | ResolveEvent(id: Id, seen: ReportStatus, decision: Decision, times: Times)
    | AppealEvent(id: Id, user: Id, now: Instant)
    | PardonEvent(pardon: Pardon, target: Id, last: Option<Id>)
    | CompensateEvent(id: Id)
    | PurgeEvent(id: Id)

  // The cleanup pass removes whole reports only when they are dismissed, won on appeal or about a super admin.
  predicate Purgeable(report: Report) {
    report.status.Dismissed? || report.status.AppealSuccess? || report.snapshotRole.SuperAdmin?
  }

  function Step(s: State, rules: Rules, e: Event): State {
    match e
    case JoinEvent(user, account) => if user in s.users then s else s.(users := s.users[user := account])
    case CreateEvent(id, target, reason) => Create(s, id, target, reason)
    case ResolveEvent(id, seen, d, t) => After(s, Resolve(s, rules, id, seen, d, t))
    case AppealEvent(id, user, now) => After(s, Appeal(s, id, user, now))
    case PardonEvent(pardon, target, last) =>
      if IsLatestResolved(s, target, last) then After(s, PardonUser(s, pardon, target, last)) else s
    case CompensateEvent(id) => Compensate(s, id)
    case PurgeEvent(id) => if id in s.reports && Purgeable(s.reports[id]) then s.(reports := s.reports - {id}) else s
  }

  function Run(s: State, rules: Rules, events: seq<Event>): State
    decreases |events|
  {
    if events == [] then s else Run(Step(s, rules, events[0]), rules, events[1..])
  }

  // ----- One resolution -----

  lemma StruckAfterUpdate(reports: map<Id, Report>, id: Id, report: Report, target: Id, reason: Reason)
    requires id in reports && report.target == reports[id].target && report.reason == reports[id].reason
    ensures Strikes(reports[id := report], target, reason) == Strikes(reports, target, reason)
      + (if report.target == target && report.reason == reason
         then (if report.status.Resolved? then 1 else 0) - (if reports[id].status.Resolved? then 1 else 0) else 0)
  {
    var before, after := Struck(reports, target, reason), Struck(reports[id := report], target, reason);
    SameElsewhere(reports, id, report, target, reason);
    SizeWithout(before, id);
    SizeWithout(after, id);
  }

  lemma SameElsewhere(reports: map<Id, Report>, id: Id, report: Report, target: Id, reason: Reason)
    ensures Struck(reports, target, reason) - {id} == Struck(reports[id := report], target, reason) - {id}
  {
  }

  lemma SizeWithout(ids: set<Id>, id: Id)
    ensures |ids| == |ids - {id}| + if id in ids then 1 else 0
  {
  }

  lemma MergeKeepsStrikes(reports: map<Id, Report>, id: Id, t0: Id, r0: Reason, d: Decision, now: Instant,
                          target: Id, reason: Reason)
    ensures Strikes(MergePending(reports, id, t0, r0, d, now), target, reason) == Strikes(reports, target, reason)
  {
    assert Struck(MergePending(reports, id, t0, r0, d, now), target, reason) == Struck(reports, target, reason);
  }

  // A report resolved as RESOLVED is one more strike for its target and reason, and for no other pair.
  lemma ResolvedAddsOneStrike(s: State, rules: Rules, id: Id, seen: ReportStatus, d: Decision, t: Times,
                              target: Id, reason: Reason)
    requires Resolve(s, rules, id, seen, d, t).Ok? && d.status.Resolved?
    ensures id in s.reports
    ensures Strikes(Resolve(s, rules, id, seen, d, t).value.reports, target, reason)
      == Strikes(s.reports, target, reason)
         + if s.reports[id].target == target && s.reports[id].reason == reason then 1 else 0
  {
    var report := s.reports[id];
    var penalty := CalculateAndApplyPenalty(s, rules, report.target, report.reason, d, t).value;
    var final := Penalized(Decide(report, d, t), penalty.penaltyType, t);
    StruckAfterUpdate(s.reports, id, final, target, reason);
    MergeKeepsStrikes(s.reports[id := final], id, report.target, report.reason, d, t.merged, target, reason);
    assert s.reports[id := Decide(report, d, t)][id := final] == s.reports[id := final];
  }

  // It leaves no pending report of that pair, closes exactly those, and touches no other report.
  lemma ResolvedMergesThePair(s: State, rules: Rules, id: Id, seen: ReportStatus, d: Decision, t: Times, r: Id)
    requires Resolve(s, rules, id, seen, d, t).Ok? && d.status.Resolved? && r in s.reports
    ensures id in s.reports
    ensures var s' := Resolve(s, rules, id, seen, d, t).value;
      && s'.reports.Keys == s.reports.Keys
      && !Mergeable(s'.reports[r], s.reports[id].target, s.reports[id].reason)
      && s'.reports[id].status.Resolved? && s'.reports[id].resolvedAt == Some(t.resolved)
      && (r != id && Mergeable(s.reports[r], s.reports[id].target, s.reports[id].reason) ==>
            s'.reports[r].status.Dismissed?)
      && (r != id && !Mergeable(s.reports[r], s.reports[id].target, s.reports[id].reason) ==>
            s'.reports[r] == s.reports[r])
  {
  }

  // Without an override the target gets what the preview of the same store announced;
  // with one, the override; nobody else changes.
  lemma AppliesWhatWasAnnounced(s: State, rules: Rules, id: Id, seen: ReportStatus, d: Decision, t: Times, u: Id)
    requires Resolve(s, rules, id, seen, d, t).Ok? && d.status.Resolved? && u in s.users
    ensures id in s.reports
    ensures var report, users := s.reports[id], Resolve(s, rules, id, seen, d, t).value.users;
      var preview := CalculatePenaltyInfo(s, rules, report.target, report.reason);
      && users.Keys == s.users.Keys
      && (u != report.target ==> users[u] == s.users[u])
      && (u == report.target && d.overrideAction.None? && preview.action.None? ==> users[u] == s.users[u])
      && (u == report.target && d.overrideAction.None? && preview.action.Some? ==>
            users[u] == ApplyAction(s.users[u], preview.action.value, preview.durationDays, d, t.applied))
      && (u == report.target && d.overrideAction.Some? ==>
            users[u] == ApplyAction(s.users[u], d.overrideAction.value,
                                    if d.overrideDays.Some? then d.overrideDays.value else 0, d, t.applied))
  {
  }

  // A direct penalty that goes through is one strike more for its pair: its own report is resolved,
  // and every report of the pair that was waiting is merged into it.
  lemma DirectPenaltyIsOneStrike(s: State, rules: Rules, id: Id, target: Id, reason: Reason, d: Decision, t: Times)
    requires id !in s.reports && DirectPenalty(s, rules, id, target, reason, d, t).Ok?
    ensures var reports := DirectPenalty(s, rules, id, target, reason, d, t).value.reports;
      && reports.Keys == s.reports.Keys + {id} && reports[id].status.Resolved?
      && Strikes(reports, target, reason) == Strikes(s.reports, target, reason) + 1
      && (forall r | r in reports :: !Mergeable(reports[r], target, reason))
  {
    var created, decision := Create(s, id, target, reason), d.(status := Resolved);
    StruckAfterCreate(s.reports, id, created.reports[id], target, reason);
    ResolvedAddsOneStrike(created, rules, id, Pending, decision, t, target, reason);
    forall r | r in created.reports
      ensures !Mergeable(DirectPenalty(s, rules, id, target, reason, d, t).value.reports[r], target, reason)
    {
      ResolvedMergesThePair(created, rules, id, Pending, decision, t, r);
    }
  }

  // Whoever is penalized is outranked: never a super admin, an admin only by a super admin, nobody by themselves.
  lemma OnlyOutrankedTargets(s: State, rules: Rules, id: Id, seen: ReportStatus, d: Decision, t: Times)
    requires Resolve(s, rules, id, seen, d, t).Ok? && d.status.Resolved?
    ensures id in s.reports && s.reports[id].target in s.users && d.admin != s.reports[id].target
    ensures !s.users[s.reports[id].target].role.SuperAdmin?
    ensures s.users[s.reports[id].target].role.Admin? ==> !d.adminRole.Admin?
  {
  }

  predicate Unpunished(before: Account, after: Account) {
    && after == before.(banUntil := after.banUntil, muteUntil := after.muteUntil)
    && (after.banUntil == before.banUntil || after.banUntil.None?)
    && (after.muteUntil == before.muteUntil || after.muteUntil.None?)
  }

  lemma StepLeavesSuperAdmins(s: State, rules: Rules, e: Event, u: Id)
    requires u in s.users && s.users[u].role.SuperAdmin?
    ensures u in Step(s, rules, e).users && Unpunished(s.users[u], Step(s, rules, e).users[u])
  {
    if e.ResolveEvent? && Resolve(s, rules, e.id, e.seen, e.decision, e.times).Ok? && e.decision.status.Resolved? {
      OnlyOutrankedTargets(s, rules, e.id, e.seen, e.decision, e.times);
    }
  }

  // Whoever resolves what, with whatever override: no run bans, mutes, resets or logs out a super admin.
  lemma {:induction false} SuperAdminsAreNeverPenalized(s: State, rules: Rules, events: seq<Event>, u: Id)
    requires u in s.users && s.users[u].role.SuperAdmin?
    ensures u in Run(s, rules, events).users && Unpunished(s.users[u], Run(s, rules, events).users[u])
    decreases |events|
  {
    if events == [] {
    } else {
      StepLeavesSuperAdmins(s, rules, events[0], u);
      SuperAdminsAreNeverPenalized(Step(s, rules, events[0]), rules, events[1..], u);
    }
  }

  // The preview uses the entry of the next strike, and past the end of the list its last entry.
  lemma {:induction false} FindRuleMeansFirstMatch(rules: seq<Rule>, strike: nat)
    ensures FindRule(rules, strike).None? <==> forall i | 0 <= i < |rules| :: rules[i].strike != strike
    ensures FindRule(rules, strike).Some? ==> exists i ::
      0 <= i < |rules| && FindRule(rules, strike) == Some(rules[i]) && rules[i].strike == strike
      && forall j | 0 <= j < i :: rules[j].strike != strike
  {
    if rules != [] && rules[0].strike != strike {
      FindRuleMeansFirstMatch(rules[1..], strike);
      if FindRule(rules, strike).Some? {
        var i :| 0 <= i < |rules[1..]| && FindRule(rules[1..], strike) == Some(rules[1..][i])
                 && rules[1..][i].strike == strike && forall j | 0 <= j < i :: rules[1..][j].strike != strike;
        assert rules[i + 1] == rules[1..][i];
        forall j | 0 <= j < i + 1
          ensures rules[j].strike != strike
        {
          if j > 0 {
            assert rules[1..][j - 1] == rules[j];
          }
        }
      }
    }
  }

  // ----- Penalties never get shorter -----

  predicate NotEarlier(before: Option<Instant>, after: Option<Instant>) {
    before.Some? ==> after.Some? && before.value <= after.value
  }

  lemma ActionNeverShortens(user: Account, action: Action, days: nat, d: Decision, t: Times)
    requires t.InOrder() && !WouldReduce(user, action, days, t)
    ensures var after := ApplyAction(user, action, days, d, t.applied);
      NotEarlier(user.banUntil, after.banUntil) && NotEarlier(user.muteUntil, after.muteUntil)
  {
  }

  predicate LiftsBan(s: State, e: Event, u: Id) {
    match e
    case ResolveEvent(id, seen, d, t) =>
      d.status.AppealSuccess? && id in s.reports && s.reports[id].target == u
      && s.reports[id].penaltyType == Some(BanPenalty)
    case PardonEvent(pardon, target, last) => pardon.Unban? && target == u
    case _ => false
  }

  predicate LiftsMute(s: State, e: Event, u: Id) {
    match e
    case ResolveEvent(id, seen, d, t) =>
      d.status.AppealSuccess? && id in s.reports && s.reports[id].target == u
      && s.reports[id].penaltyType == Some(MutePenalty)
    case PardonEvent(pardon, target, last) => pardon.Unmute? && target == u
    case _ => false
  }

  predicate TimedInOrder(e: Event) {
    e.ResolveEvent? ==> e.times.InOrder()
  }

  lemma StepNeverShortens(s: State, rules: Rules, e: Event, u: Id)
    requires u in s.users && TimedInOrder(e)
    ensures u in Step(s, rules, e).users
    ensures !LiftsBan(s, e, u) ==> NotEarlier(s.users[u].banUntil, Step(s, rules, e).users[u].banUntil)
    ensures !LiftsMute(s, e, u) ==> NotEarlier(s.users[u].muteUntil, Step(s, rules, e).users[u].muteUntil)
  {
    if e.ResolveEvent? && Resolve(s, rules, e.id, e.seen, e.decision, e.times).Ok? && e.decision.status.Resolved? {
      var report, d := s.reports[e.id], e.decision;
      var (action, days) := Choice(s, rules, report.target, report.reason, d);
      if action.Some? {
        ActionNeverShortens(s.users[report.target], action.value, days, d, e.times);
      }
    }
  }

  predicate AllInOrder(events: seq<Event>) {
    forall i | 0 <= i < |events| :: TimedInOrder(events[i])
  }

  predicate BanNeverLifted(s: State, rules: Rules, events: seq<Event>, u: Id)
    decreases |events|
  {
    events == [] || (!LiftsBan(s, events[0], u) && BanNeverLifted(Step(s, rules, events[0]), rules, events[1..], u))
  }

  predicate MuteNeverLifted(s: State, rules: Rules, events: seq<Event>, u: Id)
    decreases |events|
  {
    events == [] || (!LiftsMute(s, events[0], u) && MuteNeverLifted(Step(s, rules, events[0]), rules, events[1..], u))
  }

  // Until an appeal against a ban is won or an administrator lifts it, no run moves a ban to an earlier end;
  // and the same for mutes, each whatever happens to the other.
  lemma {:induction false} PenaltiesNeverShorten(s: State, rules: Rules, events: seq<Event>, u: Id)
    requires u in s.users && AllInOrder(events)
    ensures u in Run(s, rules, events).users
    ensures BanNeverLifted(s, rules, events, u) ==>
      NotEarlier(s.users[u].banUntil, Run(s, rules, events).users[u].banUntil)
    ensures MuteNeverLifted(s, rules, events, u) ==>
      NotEarlier(s.users[u].muteUntil, Run(s, rules, events).users[u].muteUntil)
    decreases |events|
  {
    if events == [] {
    } else {
      StepNeverShortens(s, rules, events[0], u);
      PenaltiesNeverShorten(Step(s, rules, events[0]), rules, events[1..], u);
    }
  }

  // ----- Strikes over whole runs -----

  predicate OfPair(s: State, id: Id, target: Id, reason: Reason) {
    id in s.reports && s.reports[id].target == target && s.reports[id].reason == reason
  }

  // What one event does to the strikes of a pair: a resolution accepted as RESOLVED adds one;
  // an appeal, a pardon or the purge of a resolved report takes one away.
  function Gain(s: State, rules: Rules, e: Event, target: Id, reason: Reason): int {
    match e
    case ResolveEvent(id, seen, d, t) =>
      if d.status.Resolved? && Resolve(s, rules, id, seen, d, t).Ok? && OfPair(s, id, target, reason) then 1 else 0
    case AppealEvent(id, user, now) => if Appeal(s, id, user, now).Ok? && OfPair(s, id, target, reason) then -1 else 0
    case PardonEvent(pardon, user, last) =>
      if user in s.users && IsLatestResolved(s, user, last) && last.Some? && OfPair(s, last.value, target, reason)
      then -1 else 0
    case PurgeEvent(id) =>
      if OfPair(s, id, target, reason) && s.reports[id].status.Resolved? && Purgeable(s.reports[id]) then -1 else 0
    case _ => 0
  }

  function Gains(s: State, rules: Rules, events: seq<Event>, target: Id, reason: Reason): int
    decreases |events|
  {
    if events == [] then 0
    else
      Gain(s, rules, events[0], target, reason)
      + Gains(Step(s, rules, events[0]), rules, events[1..], target, reason)
  }

  lemma StruckAfterRemoval(reports: map<Id, Report>, id: Id, target: Id, reason: Reason)
    requires id in reports
    ensures Strikes(reports - {id}, target, reason) == Strikes(reports, target, reason)
      - if reports[id].target == target && reports[id].reason == reason && reports[id].status.Resolved? then 1 else 0
  {
    assert Struck(reports - {id}, target, reason) == Struck(reports, target, reason) - {id};
    SizeWithout(Struck(reports, target, reason), id);
  }

  lemma StruckAfterCreate(reports: map<Id, Report>, id: Id, report: Report, target: Id, reason: Reason)
    requires id !in reports && !report.status.Resolved?
    ensures Strikes(reports[id := report], target, reason) == Strikes(reports, target, reason)
  {
    assert Struck(reports[id := report], target, reason) == Struck(reports, target, reason);
  }

  lemma ResolveStepConservesStrikes(s: State, rules: Rules, e: Event, target: Id, reason: Reason)
    requires e.ResolveEvent?
    ensures Strikes(Step(s, rules, e).reports, target, reason)
         == Strikes(s.reports, target, reason) + Gain(s, rules, e, target, reason)
  {
    var ResolveEvent(id, seen, d, t) := e;
    if Resolve(s, rules, id, seen, d, t).Ok? {
      if d.status.Resolved? {
        ResolvedAddsOneStrike(s, rules, id, seen, d, t, target, reason);
      } else {
        StruckAfterUpdate(s.reports, id, Decide(s.reports[id], d, t), target, reason);
      }
    }
  }

  lemma StepConservesStrikes(s: State, rules: Rules, e: Event, target: Id, reason: Reason)
    ensures Strikes(Step(s, rules, e).reports, target, reason)
         == Strikes(s.reports, target, reason) + Gain(s, rules, e, target, reason)
  {
    match e
    case ResolveEvent(_, _, _, _) => ResolveStepConservesStrikes(s, rules, e, target, reason);
    case CreateEvent(id, who, why) =>
      if id !in s.reports && who in s.users {
        StruckAfterCreate(s.reports, id, NewReport(who, why, s.users[who].role), target, reason);
      }
    case AppealEvent(id, user, now) =>
      if Appeal(s, id, user, now).Ok? {
        StruckAfterUpdate(s.reports, id, s.reports[id].(status := AppealPending), target, reason);
      }
    case PardonEvent(pardon, user, last) =>
      if user in s.users && IsLatestResolved(s, user, last) && last.Some? {
        StruckAfterUpdate(s.reports, last.value,
                          s.reports[last.value].(status := Dismissed, appealDeadline := None), target, reason);
      }
    case CompensateEvent(id) =>
      if id in s.reports {
        StruckAfterRemoval(s.reports, id, target, reason);
      }
    case PurgeEvent(id) =>
      if id in s.reports {
        StruckAfterRemoval(s.reports, id, target, reason);
      }
    case JoinEvent(_, _) =>
  }

  // The strike a preview announces is one more than the resolutions of that pair so far,
  // less those appealed, pardoned or purged.
  lemma {:induction false} StrikesAreConserved(s: State, rules: Rules, events: seq<Event>, target: Id, reason: Reason)
    ensures CalculatePenaltyInfo(Run(s, rules, events), rules, target, reason).strike
         == 1 + Strikes(s.reports, target, reason) + Gains(s, rules, events, target, reason)
    decreases |events|
  {
    if events == [] {
    } else {
      StepConservesStrikes(s, rules, events[0], target, reason);
      StrikesAreConserved(Step(s, rules, events[0]), rules, events[1..], target, reason);
    }
  }

  // ----- Statuses over whole runs -----

  predicate Reaches(from: ReportStatus, to: ReportStatus) {
    || from == to
    || (from.Pending? && !to.Resolving?)
    || (from.Resolved? && (to.Dismissed? || to.AppealPending? || to.AppealRejected? || to.AppealSuccess?))
    || (from.AppealPending? && (to.AppealRejected? || to.AppealSuccess?))
  }

  // A report keeps its target, reason and snapshot, and its status only moves forward.
  predicate Evolves(before: Report, after: Report) {
    && after.target == before.target && after.reason == before.reason && after.snapshotRole == before.snapshotRole
    && Reaches(before.status, after.status)
  }

  predicate Recreates(e: Event, id: Id) {
    e.CreateEvent? && e.id == id
  }

  lemma StepEvolves(s: State, rules: Rules, e: Event, id: Id)
    requires id in s.reports
    ensures id in Step(s, rules, e).reports ==> Evolves(s.reports[id], Step(s, rules, e).reports[id])
  {
  }

  // With appeals and pardons as single steps, dismissed, rejected and successful appeals are final, and a report that
  // left RESOLVED never counts again.
  lemma {:induction false} ReportsOnlyMoveForward(s: State, rules: Rules, events: seq<Event>, id: Id)
    requires id in s.reports && (forall e | e in events :: !Recreates(e, id))
    ensures id in Run(s, rules, events).reports ==> Evolves(s.reports[id], Run(s, rules, events).reports[id])
    decreases |events|
  {
    if events == [] {
    } else {
      var t := Step(s, rules, events[0]);
      StepEvolves(s, rules, events[0], id);
      if id in t.reports {
        ReportsOnlyMoveForward(t, rules, events[1..], id);
      } else {
        AbsentStaysAbsent(t, rules, events[1..], id);
      }
    }
  }

  lemma {:induction false} AbsentStaysAbsent(s: State, rules: Rules, events: seq<Event>, id: Id)
    requires id !in s.reports && (forall e | e in events :: !Recreates(e, id))
    ensures id !in Run(s, rules, events).reports
    decreases |events|
  {
    if events == [] {
    } else {
      assert events[0] in events;
      AbsentStaysAbsent(Step(s, rules, events[0]), rules, events[1..], id);
    }
  }

  // ----- What an appeal does to the ladder -----

  // An appeal with nothing between its read and its save takes away the strike, once: afterwards the report cannot
  // be appealed again.
  lemma AppealTakesTheStrike(s: State, id: Id, user: Id, now: Instant, later: Instant)
    requires Appeal(s, id, user, now).Ok?
    ensures var t := Appeal(s, id, user, now).value;
      && t.users == s.users && t.reports.Keys == s.reports.Keys
      && (forall r | r in s.reports && r != id :: t.reports[r] == s.reports[r])
      && Strikes(t.reports, s.reports[id].target, s.reports[id].reason)
         == Strikes(s.reports, s.reports[id].target, s.reports[id].reason) - 1
      && Appeal(t, id, user, later) == Err(InvalidStatus)
  {
    var report := s.reports[id];
    StruckAfterUpdate(s.reports, id, report.(status := AppealPending), report.target, report.reason);
  }

  // A pardon dismisses the report resolved last and takes its strike, whatever penalty that report imposed:
  // an unmute leaves a ban in force and still dismisses the report about it.
  lemma PardonTakesTheLatestStrike(s: State, pardon: Pardon, target: Id, last: Id)
    requires target in s.users && IsLatestResolved(s, target, Some(last))
    ensures PardonUser(s, pardon, target, Some(last)).Ok?
    ensures var t := PardonUser(s, pardon, target, Some(last)).value; var reason := s.reports[last].reason;
      && t.reports[last].status.Dismissed?
      && Strikes(t.reports, target, reason) == Strikes(s.reports, target, reason) - 1
      && t.users[target].banUntil == (if pardon.Unban? then None else s.users[target].banUntil)
      && t.users[target].muteUntil == (if pardon.Unmute? then None else s.users[target].muteUntil)
  {
    StruckAfterUpdate(s.reports, last, s.reports[last].(status := Dismissed, appealDeadline := None), target,
                      s.reports[last].reason);
  }

  // A rejected appeal leaves the ban or mute in place, but the strike it appealed does not come back:
  // the next offence is judged one rung lower than if nobody had appealed.
  lemma RejectedAppealKeepsThePenaltyAndLosesTheStrike(s: State, rules: Rules, id: Id, now: Instant,
                                                       d: Decision, t: Times)
    requires id in s.reports && Appeal(s, id, s.reports[id].target, now).Ok? && d.status.AppealRejected?
    ensures var appealed := Appeal(s, id, s.reports[id].target, now).value;
      var rejected := Resolve(appealed, rules, id, AppealPending, d, t);
      && rejected.Ok? && rejected.value.users == s.users
      && Strikes(rejected.value.reports, s.reports[id].target, s.reports[id].reason)
         == Strikes(s.reports, s.reports[id].target, s.reports[id].reason) - 1
  {
    var report := s.reports[id];
    var appealed := Appeal(s, id, report.target, now).value;
    StruckAfterUpdate(s.reports, id, appealed.reports[id], report.target, report.reason);
    StruckAfterUpdate(appealed.reports, id, Decide(appealed.reports[id], d, t), report.target, report.reason);
  }
}
