// The auth and session services as code over the store: src/auth/auth.service.ts:181-250, 442-537, 606-628,
// src/auth/passport/jwt.strategy.ts:26-70, src/modules/session/session.service.ts:114-235,
// src/modules/users/users.service.ts:217-257, 701-737, src/modules/users/user-password.service.ts:36-159.
module AuthServices {
  import opened Common
  import opened TokenEpoch

  datatype Tokens = Tokens(access: Payload, refresh: RefreshToken)

  class AuthService {
    var users: map<Id, Account>
    var sessions: map<Id, Session>
    var usedIds: set<Id>
    ghost var attempts: map<Id, Attempt>   // logins and refreshes other requests have under way
    ghost var issued: set<Payload>

    constructor ()
      ensures Snapshot() == START && Valid()
    {
      users, sessions, usedIds, attempts, issued := map[], map[], {}, map[], {};
    }

    ghost function Snapshot(): State
      reads this
    {
      State(users, sessions, usedIds, attempts, issued)
    }

    ghost predicate Valid()
      reads this
    {
      Invariant(Snapshot())
    }

    // Whatever happens from now on, no token signed so far for this user is accepted again.
    ghost predicate EndedFor(user: Id, signed: set<Payload>)
      reads this
    {
      forall p, later, now | p in signed && p.user == user :: Validate(Run(Snapshot(), later), p, now).Err?
    }

    // Of the tokens signed by this service the guard accepts only those whose session is open and belongs to a user
    // that may enter, and what it hands on is the role that user has now.
    method ValidatePayload(p: Payload, now: Instant) returns (r: Result<Identity>)
      requires Valid()
      ensures r == Validate(Snapshot(), p, now)
      ensures p in issued && r.Ok? ==> r.value == Identity(p.user, users[p.user].role, p.session)
      ensures p in issued ==>
        (r.Ok? <==> MayEnter(users[p.user], p.version, now) && p.session in sessions && !sessions[p.session].isRevoked)
    {
      if p.user !in users {
        return Err(UserNotFound);
      }
      var user := users[p.user];
      if user.isDisabled {
        return Err(UserDisabled);
      }
      if BannedAt(user, now) {
        return Err(Banned);
      }
      if !user.isActive {
        return Err(UserNotFound);
      }
      if p.version != user.tokenVersion {
        return Err(VersionMismatch);
      }
      if p.session !in sessions {
        return Err(SessionNotFound);
      }
      var session := sessions[p.session];
      if session.user != p.user {
        return Err(SessionUserMismatch);
      }
      if session.isRevoked {
        return Err(SessionRevoked);
      }
      r := Ok(Identity(p.user, p.role, p.session));
    }

    // Afterwards the new token is the only one with which this session can be refreshed; a revoked session
    // stays as it was, and so does every other.
    method RotateSession(session: Id, refresh: RefreshToken, expiresAt: Instant)
      requires Valid()
      modifies `sessions
      ensures Valid() && Snapshot() == Rotate(old(Snapshot()), session, refresh, expiresAt)
      ensures session in old(sessions) && old(sessions)[session].isRevoked ==> sessions == old(sessions)
      ensures sessions.Keys == old(sessions).Keys
      ensures forall x | x in sessions && x != session :: sessions[x] == old(sessions)[x]
      ensures forall token: RefreshToken, now | token.payload.session == session && token != refresh ::
        CheckRefresh(Snapshot(), token, now).Err?
    {
      if session in sessions && !sessions[session].isRevoked {
        sessions := sessions[session := sessions[session].(refresh := Some(refresh), expiresAt := Some(expiresAt))];
      }
      SessionsKeepInvariant(old(Snapshot()), Snapshot());
    }

    method RevokeSession(session: Id, user: Id)
      requires Valid()
      modifies `sessions
      ensures Valid() && Snapshot() == Revoke(old(Snapshot()), session, user)
    {
      if session in sessions && sessions[session].user == user && !sessions[session].isRevoked {
        sessions := sessions[session := sessions[session].(isRevoked := true)];
      }
      SessionsKeepInvariant(old(Snapshot()), Snapshot());
    }

    // updateMany over the sessions that are not revoked yet.
    method RevokeAllByUserId(user: Id, except: Option<Id>)
      requires Valid()
      modifies `sessions
      ensures Valid() && Snapshot() == RevokeAllExcept(old(Snapshot()), user, except)
    {
      sessions := map x | x in sessions ::
        if sessions[x].user == user && !sessions[x].isRevoked && Some(x) != except
        then sessions[x].(isRevoked := true) else sessions[x];
      SessionsKeepInvariant(old(Snapshot()), Snapshot());
    }

    // login under the number `attempt`, which has read its user earlier, ban included;
    // `session` is the id the database gives the new session.
    method Login(ghost attempt: Id, user: Id, role: Role, version: nat, banUntil: Option<Instant>, session: Id,
                 now: Instant, signedAt: Instant, expiresAt: Instant) returns (tokens: Option<Tokens>)
      requires Valid() && attempt in attempts && attempts[attempt] == ReadUser(user, role, version)
      requires session !in usedIds
      modifies this
      ensures Valid()
      ensures (banUntil.Some? && banUntil.value > now) ==> tokens.None? && Snapshot() == old(Snapshot())
      ensures !(banUntil.Some? && banUntil.value > now) ==>
        && tokens == Some(Tokens(Payload(user, role, session, version),
                                 RefreshToken(Payload(user, role, session, version), signedAt)))
        && Snapshot() == Issue(OpenSession(old(Snapshot()), attempt, session), attempt, signedAt, expiresAt)
      ensures tokens.Some? ==> forall at: Instant ::
        Validate(Snapshot(), tokens.value.access, at).Ok? <==> MayEnter(old(users)[user], version, at)
    {
      if banUntil.Some? && banUntil.value > now {
        return None;
      }
      ghost var start := Snapshot();
      UndisturbedLogin(start, attempt, session, signedAt, expiresAt);
      var p := Payload(user, role, session, version);
      var refresh := RefreshToken(p, signedAt);
      sessions, usedIds := sessions[session := Session(user, false, None, None)], usedIds + {session};
      attempts := attempts - {attempt};
      issued := issued + {p};
      sessions := sessions[session := sessions[session].(refresh := Some(refresh), expiresAt := Some(expiresAt))];
      tokens := Some(Tokens(p, refresh));
    }

    // refreshToken, with nothing between its checks and its rotation.
    method RefreshTokens(ghost attempt: Id, token: RefreshToken, now: Instant, expiresAt: Instant)
      returns (r: Result<Tokens>)
      requires Valid() && attempt !in attempts && token.payload in issued
      modifies this
      ensures Valid()
      ensures r.Ok? <==> CheckRefresh(old(Snapshot()), token, now).Ok?
      ensures r.Ok? ==>
        && r.value == Tokens(token.payload, RefreshToken(token.payload, now))
        && Snapshot() == Issue(StartRefresh(old(Snapshot()), attempt, token, now), attempt, now, expiresAt)
      ensures r.Err? ==>
        && r.error == CheckRefresh(old(Snapshot()), token, now).error
        && Snapshot() == StartRefresh(old(Snapshot()), attempt, token, now)
      ensures token.payload.user in old(users)
      ensures !MayRefresh(old(users)[token.payload.user], token.payload.version, now) ==>
        && r.Err?
        && forall x | x in old(sessions) && old(sessions)[x].user == token.payload.user :: Closed(Snapshot(), x)
      ensures token.payload.session in old(sessions) && PastItsTime(old(sessions)[token.payload.session], now) ==>
        r.Err?
      ensures RefusedForTime(old(Snapshot()), token, now) ==> Closed(Snapshot(), token.payload.session)
      ensures r.Err? && !RefusedForTime(old(Snapshot()), token, now)
              && MayRefresh(old(users)[token.payload.user], token.payload.version, now) ==>
        sessions == old(sessions)
    {
      RefreshGoesThroughIff(Snapshot(), token, now);
      if CheckRefresh(Snapshot(), token, now).Err? {
        RefusedRefreshCloses(Snapshot(), attempt, token, now);
      }
      assert Known(Snapshot(), token.payload);
      var p := token.payload;
      if p.user !in users {
        return Err(UserNotFound);
      }
      if users[p.user].isDisabled {
        RevokeAllByUserId(p.user, None);
        return Err(UserDisabled);
      }
      if BannedAt(users[p.user], now) {
        RevokeAllByUserId(p.user, None);
        return Err(Banned);
      }
      if p.version != users[p.user].tokenVersion {
        RevokeAllByUserId(p.user, None);
        return Err(VersionMismatch);
      }
      if p.session !in sessions {
        return Err(SessionNotFound);
      }
      var session := sessions[p.session];
      if session.isRevoked {
        return Err(SessionRevoked);
      }
      if session.expiresAt.Some? && session.expiresAt.value < now {
        RevokeSession(p.session, p.user);
        return Err(SessionExpired);
      }
      if session.user != p.user {
        return Err(SessionUserMismatch);
      }
      if session.refresh != Some(token) {
        return Err(InvalidRefreshToken);
      }
      assert issued + {p} == issued;
      assert attempts[attempt := MayIssue(p)] - {attempt} == attempts;
      RotateSession(p.session, RefreshToken(p, now), expiresAt);
      r := Ok(Tokens(p, RefreshToken(p, now)));
    }

    method LogoutAllDevices(user: Id) returns (refusal: Option<Error>)
      requires Valid()
      modifies `users, `sessions
      ensures Valid()
      ensures refusal.None? <==> user in old(users) && !old(users)[user].isDisabled
      ensures refusal.None? ==>
        && Snapshot() == RevokeAllExcept(UpdateUser(old(Snapshot()), LogoutAllEvent(user)), user, None)
        && EndedFor(user, issued)
      ensures refusal.Some? ==> Snapshot() == old(Snapshot())
    {
      if user !in users {
        return Some(UserNotFound);
      }
      if users[user].isDisabled {
        return Some(UserDisabled);
      }
      ghost var start := Snapshot();
      users := users[user := users[user].(tokenVersion := users[user].tokenVersion + 1)];
      EpochEnds(start, LogoutAllEvent(user));
      RevokeAllByUserId(user, None);
      EndedStays(start, LogoutAllEvent(user), Snapshot());
      refusal := None;
    }

    method ResetPassword(user: Id) returns (ok: bool)
      requires Valid()
      modifies `users, `sessions
      ensures Valid()
      ensures ok <==> user in old(users) && !old(users)[user].isDisabled
      ensures ok ==>
        && Snapshot() == RevokeAllExcept(UpdateUser(old(Snapshot()), ResetPasswordEvent(user)), user, None)
        && EndedFor(user, issued)
      ensures !ok ==> Snapshot() == old(Snapshot())
    {
      if user !in users || users[user].isDisabled {
        return false;
      }
      ghost var start := Snapshot();
      users := users[user := users[user].(tokenVersion := users[user].tokenVersion + 1)];
      EpochEnds(start, ResetPasswordEvent(user));
      RevokeAllByUserId(user, None);
      EndedStays(start, ResetPasswordEvent(user), Snapshot());
      ok := true;
    }

    // The password itself is not modelled; no new epoch starts, but every other session of the user is closed for good.
    method UpdatePassword(user: Id, currentSession: Id, passwordMatches: bool) returns (ok: bool)
      requires Valid()
      modifies `sessions
      ensures Valid()
      ensures ok <==> user in users && passwordMatches
      ensures ok ==> Snapshot() == Step(old(Snapshot()), RevokeOthersEvent(user, currentSession))
      ensures ok ==> forall x | x in old(sessions) && old(sessions)[x].user == user && x != currentSession ::
        Closed(Snapshot(), x)
      ensures !ok ==> Snapshot() == old(Snapshot())
    {
      if user !in users || !passwordMatches {
        return false;
      }
      RevokeAllByUserId(user, Some(currentSession));
      ok := true;
    }

    method SetDisabledState(user: Id, isDisabled: bool) returns (ok: bool)
      requires Valid()
      modifies `users, `sessions
      ensures Valid()
      ensures ok <==> user in old(users) && old(users)[user].isDisabled != isDisabled
      ensures ok && isDisabled ==>
        && Snapshot() == RevokeAllExcept(UpdateUser(old(Snapshot()), DisableEvent(user)), user, None)
        && EndedFor(user, issued)
      ensures ok && !isDisabled ==> Snapshot() == UpdateUser(old(Snapshot()), EnableEvent(user))
      ensures !ok ==> Snapshot() == old(Snapshot())
    {
      if user !in users || users[user].isDisabled == isDisabled {
        return false;
      }
      ghost var start := Snapshot();
      var updated := users[user].(isDisabled := isDisabled);
      if isDisabled {
        updated := updated.(tokenVersion := updated.tokenVersion + 1);
      }
      users := users[user := updated];
      if isDisabled {
        EpochEnds(start, DisableEvent(user));
        RevokeAllByUserId(user, None);
        EndedStays(start, DisableEvent(user), Snapshot());
      } else {
        StepKeepsInvariant(start, EnableEvent(user));
      }
      ok := true;
    }

    method ChangeRoleBySuperAdmin(target: Id, newRole: Role, superAdmin: Id, passwordMatches: bool) returns (ok: bool)
      requires Valid()
      modifies `users
      ensures Valid()
      ensures ok <==>
        && superAdmin in old(users) && old(users)[superAdmin].role.SuperAdmin? && passwordMatches
        && target in old(users) && target != superAdmin
        && !old(users)[target].role.SuperAdmin? && old(users)[target].role != newRole
      ensures ok ==> Snapshot() == UpdateUser(old(Snapshot()), ChangeRoleEvent(target, newRole))
      ensures ok ==> EndedFor(target, issued)
      ensures !ok ==> Snapshot() == old(Snapshot())
    {
      if superAdmin !in users || !users[superAdmin].role.SuperAdmin? || !passwordMatches || target !in users
         || target == superAdmin || users[target].role.SuperAdmin? || users[target].role == newRole {
        return false;
      }
      ghost var start := Snapshot();
      users := users[target := users[target].(role := newRole, tokenVersion := users[target].tokenVersion + 1)];
      EpochEnds(start, ChangeRoleEvent(target, newRole));
      EndedStays(start, ChangeRoleEvent(target, newRole), Snapshot());
      ok := true;
    }
  }

  // Sessions that change in place keep the invariant.
  lemma SessionsKeepInvariant(s: State, t: State)
    requires Invariant(s) && t == s.(sessions := t.sessions) && t.sessions.Keys == s.sessions.Keys
    requires forall x | x in t.sessions :: SameSession(s.sessions[x], t.sessions[x])
    ensures Invariant(t)
  {
    SessionsExtend(s, t);
    forall p | p in t.issued
      ensures Known(t, p)
    {
      KnownStays(s, t, p);
    }
    forall a | a in t.attempts
      ensures KnownAttempt(t, t.attempts[a])
    {
      AttemptStays(s, t, s.attempts[a]);
    }
  }

  // What the two steps of a login leave when nothing comes between them.
  lemma UndisturbedLogin(s: State, attempt: Id, session: Id, signedAt: Instant, expiresAt: Instant)
    requires Invariant(s) && attempt in s.attempts && s.attempts[attempt].ReadUser? && session !in s.usedIds
    ensures var a := s.attempts[attempt]; var p := Payload(a.user, a.role, session, a.version);
      var t := Issue(OpenSession(s, attempt, session), attempt, signedAt, expiresAt);
      && Invariant(t) && a.user in s.users
      && t == State(s.users,
                    s.sessions[session := Session(a.user, false, Some(RefreshToken(p, signedAt)), Some(expiresAt))],
                    s.usedIds + {session}, s.attempts - {attempt}, s.issued + {p})
      && (forall at: Instant :: Validate(t, p, at).Ok? <==> MayEnter(s.users[a.user], a.version, at))
  {
    StepKeepsInvariant(s, OpenSessionEvent(attempt, session));
    StepKeepsInvariant(OpenSession(s, attempt, session), IssueEvent(attempt, signedAt, expiresAt));
    var a := s.attempts[attempt];
    assert KnownAttempt(s, a);
    var p := Payload(a.user, a.role, session, a.version);
    assert s.attempts[attempt := MayIssue(p)] - {attempt} == s.attempts - {attempt};
  }

  lemma EpochEnds(s: State, e: Event)
    requires Invariant(s) && EpochEvent(e) && e.user in s.users && NewEpoch(s.users[e.user], e).Some?
    ensures Invariant(UpdateUser(s, e))
  {
    assert UpdateUser(s, e) == Step(s, e);
    StepKeepsInvariant(s, e);
  }

  // After an epoch event no token signed before is accepted in any later state, also when its sessions have been
  // revoked in the meantime.
  lemma EndedStays(s: State, e: Event, t: State)
    requires Invariant(s) && EpochEvent(e) && e.user in s.users && NewEpoch(s.users[e.user], e).Some?
    requires t == UpdateUser(s, e) || t == RevokeAllExcept(UpdateUser(s, e), e.user, None)
    ensures forall p, later, now | p in s.issued && p.user == e.user :: Validate(Run(t, later), p, now).Err?
  {
    assert UpdateUser(s, e) == Step(s, e);
    forall p, later, now | p in s.issued && p.user == e.user
      ensures Validate(Run(t, later), p, now).Err?
    {
      UnderWayIsOld(s, p);
      if t == UpdateUser(s, e) {
        OldEpochIsDead(s, e, later, p, 0, now);
      } else {
        OldEpochIsDead(s, e, [RevokeAllEvent(e.user)] + later, p, 0, now);
        assert ([RevokeAllEvent(e.user)] + later)[1..] == later;
        assert Run(Step(s, e), [RevokeAllEvent(e.user)] + later) == Run(t, later);
      }
    }
  }
}
