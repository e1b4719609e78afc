// What changes a user, a session or a login under way, and where every token comes from
// (src/auth/auth.service.ts:181-250, 442-537, 606-628, src/modules/session/session.service.ts:75-235,
// src/modules/users/users.service.ts:217-257, 701-737, src/modules/users/user-password.service.ts:36-160).
module TokenCauses {
  import opened Common
  import opened TokenEpoch

  // ----- Users -----

  // An event that raises the version of this user.
  predicate StartsEpoch(user: Account, e: Event) {
    match e
    case LogoutAllEvent(_) | ResetPasswordEvent(_) | DisableEvent(_) => !user.isDisabled
    case BanEvent(_, _) => true
    case ChangeRoleEvent(_, role) => user.role != SuperAdmin && user.role != role
    case _ => false
  }

  // Field by field: who starts an epoch, and what is saved with it.
  lemma UsersChange(s: State, e: Event, u: Id)
    requires u in s.users
    ensures var before := s.users[u]; var t := Step(s, e);
      && u in t.users
      && var after := t.users[u];
         var hit := (EpochEvent(e) || e.ActivateEvent? || e.UnbanEvent? || e.EnableEvent?) && e.user == u;
         && (!hit ==> after == before)
         && (hit ==>
               && after.tokenVersion == before.tokenVersion + (if StartsEpoch(before, e) then 1 else 0)
               && after.role == (if e.ChangeRoleEvent? && StartsEpoch(before, e) then e.role else before.role)
               && (after.isDisabled <==> (before.isDisabled || e.DisableEvent?) && !e.EnableEvent?)
               && (after.isActive <==> before.isActive || e.ActivateEvent?)
               && after.banUntil == (if e.BanEvent? then Some(e.until) else if e.UnbanEvent? then None
                                     else before.banUntil))
  {
  }

  lemma UsersJoin(s: State, e: Event, u: Id)
    requires u !in s.users
    ensures u in Step(s, e).users <==> e.JoinEvent? && e.user == u
    ensures u in Step(s, e).users ==>
      var user := Step(s, e).users[u];
      user.role == e.role && user.tokenVersion == 0 && !user.isDisabled && !user.isActive && user.banUntil == None
  {
  }

  // ----- Sessions -----

  // An event other than a refused refresh that revokes this session.
  predicate Revokes(session: Session, e: Event, x: Id) {
    match e
    case RevokeEvent(id, user) => id == x && session.user == user
    case RevokeAllEvent(user) => session.user == user
    case RevokeOthersEvent(user, keep) => session.user == user && keep != x
    case _ => false
  }

  predicate Signs(s: State, e: Event, p: Payload) {
    e.IssueEvent? && e.attempt in s.attempts && s.attempts[e.attempt] == MayIssue(p)
  }

  lemma SessionsChange(s: State, e: Event, x: Id)
    requires x in s.sessions && s.sessions.Keys <= s.usedIds && !e.StartRefreshEvent?
    ensures var before := s.sessions[x]; var t := Step(s, e);
      && (x in t.sessions <==> e != DropSessionEvent(x))
      && (x in t.sessions ==>
            var after := t.sessions[x];
            && after.user == before.user
            && (after.isRevoked <==> before.isRevoked || Revokes(before, e, x))
            && (if e.IssueEvent? && e.attempt in s.attempts && s.attempts[e.attempt].MayIssue?
                   && s.attempts[e.attempt].payload.session == x && !before.isRevoked then
                  && after.refresh == Some(RefreshToken(s.attempts[e.attempt].payload, e.now))
                  && after.expiresAt == Some(e.expiresAt)
                else
                  after.refresh == before.refresh && after.expiresAt == before.expiresAt))
  {
  }

  // A session is opened by a login that has read its user, under an id never used before.
  lemma SessionsOpen(s: State, e: Event, x: Id)
    requires x !in s.sessions && s.sessions.Keys <= s.usedIds && !e.StartRefreshEvent?
    ensures x in Step(s, e).sessions <==>
      && e.OpenSessionEvent? && e.session == x && x !in s.usedIds
      && e.attempt in s.attempts && s.attempts[e.attempt].ReadUser?
    ensures x in Step(s, e).sessions ==>
      && Step(s, e).sessions[x] == Session(s.attempts[e.attempt].user, false, None, None)
      && Step(s, e).usedIds == s.usedIds + {x}
  {
  }

  // ----- Logins and refreshes under way -----

  predicate ReadsUser(s: State, e: Event, a: Id) {
    && e.LoginReadEvent? && e.attempt == a && a !in s.attempts && e.user in s.users
    && !s.users[e.user].isDisabled && s.users[e.user].isActive
    && !(s.users[e.user].banUntil.Some? && e.now < s.users[e.user].banUntil.value)
  }

  predicate OpensSession(s: State, e: Event, a: Id) {
    e.OpenSessionEvent? && e.attempt == a && a in s.attempts && s.attempts[a].ReadUser? && e.session !in s.usedIds
  }

  predicate PassesRefresh(s: State, e: Event, a: Id) {
    && e.StartRefreshEvent? && e.attempt == a && a !in s.attempts && e.token.payload in s.issued
    && CheckRefresh(s, e.token, e.now).Ok?
  }

  lemma AttemptsChange(s: State, e: Event, a: Id)
    ensures var t := Step(s, e);
      && (ReadsUser(s, e, a) ==>
            a in t.attempts
            && t.attempts[a] == ReadUser(e.user, s.users[e.user].role, s.users[e.user].tokenVersion))
      && (OpensSession(s, e, a) ==>
            a in t.attempts
            && t.attempts[a]
               == MayIssue(Payload(s.attempts[a].user, s.attempts[a].role, e.session, s.attempts[a].version)))
      && (PassesRefresh(s, e, a) ==> a in t.attempts && t.attempts[a] == MayIssue(e.token.payload))
      && (!ReadsUser(s, e, a) && !OpensSession(s, e, a) && !PassesRefresh(s, e, a) ==>
            (a in t.attempts <==> a in s.attempts && !(e.IssueEvent? && e.attempt == a && s.attempts[a].MayIssue?))
            && (a in t.attempts ==> t.attempts[a] == s.attempts[a]))
  {
    match e
    case StartRefreshEvent(attempt, token, now) =>
      if !PassesRefresh(s, e, a) {
        RefreshLeavesAttempts(s, attempt, token, now, a);
      }
    case _ =>
  }

  lemma RefreshLeavesAttempts(s: State, attempt: Id, token: RefreshToken, now: Instant, a: Id)
    requires !PassesRefresh(s, StartRefreshEvent(attempt, token, now), a)
    ensures a in StartRefresh(s, attempt, token, now).attempts <==> a in s.attempts
    ensures a in s.attempts ==> StartRefresh(s, attempt, token, now).attempts[a] == s.attempts[a]
  {
  }

  lemma IssuedChange(s: State, e: Event, p: Payload)
    ensures p in Step(s, e).issued <==> p in s.issued || Signs(s, e, p)
  {
    match e
    case StartRefreshEvent(attempt, token, now) => assert StartRefresh(s, attempt, token, now).issued == s.issued;
    case _ =>
  }

  // ----- Every token stems from a login -----

  lemma {:induction false} RunLast(s: State, events: seq<Event>, last: Event)
    ensures Run(s, events + [last]) == Step(Run(s, events), last)
    decreases |events|
  {
    if events == [] {
      assert (events + [last])[1..] == [];
      assert Run(Step(s, last), []) == Step(s, last);
    } else {
      assert (events + [last])[1..] == events[1..] + [last];
      RunLast(Step(s, events[0]), events[1..], last);
    }
  }

  // The i-th event was a login that read this user, let in then, with this role and version.
  predicate LoggedInAt(events: seq<Event>, i: nat, user: Id, role: Role, version: nat)
    requires i < |events|
  {
    && events[i].LoginReadEvent? && events[i].user == user
    && var s := Run(START, events[..i]);
       && user in s.users && s.users[user].role == role && s.users[user].tokenVersion == version
       && !s.users[user].isDisabled && s.users[user].isActive
       && !(s.users[user].banUntil.Some? && events[i].now < s.users[user].banUntil.value)
  }

  predicate LoggedIn(events: seq<Event>, user: Id, role: Role, version: nat) {
    exists i: nat :: i < |events| && LoggedInAt(events, i, user, role, version)
  }

  predicate AttemptStems(events: seq<Event>, a: Attempt) {
    match a
    case ReadUser(user, role, version) => LoggedIn(events, user, role, version)
    case MayIssue(p) => LoggedIn(events, p.user, p.role, p.version)
  }

  lemma StaysLoggedIn(front: seq<Event>, last: Event, user: Id, role: Role, version: nat)
    requires LoggedIn(front, user, role, version)
    ensures LoggedIn(front + [last], user, role, version)
  {
    var i: nat :| i < |front| && LoggedInAt(front, i, user, role, version);
    assert (front + [last])[..i] == front[..i];
    assert LoggedInAt(front + [last], i, user, role, version);
  }

  lemma {:induction false} EverythingStems(events: seq<Event>)
    ensures var s := Run(START, events);
      && (forall a | a in s.attempts :: AttemptStems(events, s.attempts[a]))
      && (forall p | p in s.issued :: LoggedIn(events, p.user, p.role, p.version))
    decreases |events|
  {
    if events == [] {
    } else {
      var n := |events| - 1;
      var front, last := events[..n], events[n];
      assert events == front + [last];
      RunLast(START, front, last);
      EverythingStems(front);
      var s, t := Run(START, front), Run(START, events);
      forall p | p in t.issued
        ensures LoggedIn(events, p.user, p.role, p.version)
      {
        IssuedChange(s, last, p);
        if p !in s.issued {
          assert AttemptStems(front, s.attempts[last.attempt]);
        }
        StaysLoggedIn(front, last, p.user, p.role, p.version);
      }
      forall a | a in t.attempts
        ensures AttemptStems(events, t.attempts[a])
      {
        NewAttemptStems(front, last, a);
      }
    }
  }

  lemma NewAttemptStems(front: seq<Event>, last: Event, a: Id)
    requires var s := Run(START, front);
      && (forall b | b in s.attempts :: AttemptStems(front, s.attempts[b]))
      && (forall p | p in s.issued :: LoggedIn(front, p.user, p.role, p.version))
      && a in Step(s, last).attempts
    ensures AttemptStems(front + [last], Step(Run(START, front), last).attempts[a])
  {
    var s := Run(START, front);
    AttemptsChange(s, last, a);
    if ReadsUser(s, last, a) {
      var i := |front|;
      assert (front + [last])[..i] == front && (front + [last])[i] == last;
      assert LoggedInAt(front + [last], i, last.user, s.users[last.user].role, s.users[last.user].tokenVersion);
    } else if PassesRefresh(s, last, a) {
      var p := last.token.payload;
      StaysLoggedIn(front, last, p.user, p.role, p.version);
    } else {
      assert AttemptStems(front, s.attempts[a]);
      match s.attempts[a] {
        case ReadUser(user, role, version) => StaysLoggedIn(front, last, user, role, version);
        case MayIssue(p) => StaysLoggedIn(front, last, p.user, p.role, p.version);
      }
    }
  }

  // Every token signed in any run, by however many refreshes, goes back to a login of its user, who was let in then
  // and had the role and version the token carries.
  lemma EveryTokenStemsFromALogin(events: seq<Event>, p: Payload)
    requires p in Run(START, events).issued
    ensures exists i: nat :: i < |events| && LoggedInAt(events, i, p.user, p.role, p.version)
  {
    EverythingStems(events);
  }

  // ----- Why a token is refused -----

  lemma ValidationsSayWhy(s: State, p: Payload, now: Instant)
    ensures var r := Validate(s, p, now);
      && (p.user !in s.users ==> r == Err(UserNotFound))
      && (p.user in s.users ==>
            var user := s.users[p.user];
            var banned := user.banUntil.Some? && now < user.banUntil.value;
            && (user.isDisabled <==> r == Err(UserDisabled))
            && (!user.isDisabled && banned <==> r == Err(Banned))
            && (!user.isDisabled && !banned && !user.isActive <==> r == Err(UserNotFound))
            && (!user.isDisabled && !banned && user.isActive && p.version != user.tokenVersion
                <==> r == Err(VersionMismatch)))
      && (p.user in s.users && MayEnter(s.users[p.user], p.version, now) ==>
            && (p.session !in s.sessions <==> r == Err(SessionNotFound))
            && (p.session in s.sessions && s.sessions[p.session].user != p.user <==> r == Err(SessionUserMismatch))
            && (p.session in s.sessions && s.sessions[p.session].user == p.user && s.sessions[p.session].isRevoked
                <==> r == Err(SessionRevoked)))
      && (r.Ok? ==> r.value == Identity(p.user, p.role, p.session))
  {
  }

  lemma RefreshesSayWhy(s: State, token: RefreshToken, now: Instant)
    ensures var p, r := token.payload, CheckRefresh(s, token, now);
      && (p.user !in s.users <==> r == Err(UserNotFound))
      && (p.user in s.users ==>
            var user := s.users[p.user];
            var banned := user.banUntil.Some? && now < user.banUntil.value;
            && (user.isDisabled <==> r == Err(UserDisabled))
            && (!user.isDisabled && banned <==> r == Err(Banned))
            && (!user.isDisabled && !banned && p.version != user.tokenVersion <==> r == Err(VersionMismatch)))
      && (p.user in s.users && MayRefresh(s.users[p.user], p.version, now) ==>
            && (p.session !in s.sessions <==> r == Err(SessionNotFound))
            && (p.session in s.sessions ==>
                  var session := s.sessions[p.session];
                  var expired := session.expiresAt.Some? && session.expiresAt.value < now;
                  && (session.isRevoked <==> r == Err(SessionRevoked))
                  && (!session.isRevoked && expired <==> r == Err(SessionExpired))
                  && (!session.isRevoked && !expired && session.user != p.user <==> r == Err(SessionUserMismatch))
                  && (!session.isRevoked && !expired && session.user == p.user && session.refresh != Some(token)
                      <==> r == Err(InvalidRefreshToken))))
  {
  }
}
