// Sessions and token epochs: src/auth/auth.service.ts (login, refreshToken, logoutAllDevices),
// src/auth/passport/jwt.strategy.ts, src/modules/session/session.service.ts,
// src/modules/users/users.service.ts (disable, role change), src/modules/users/user-password.service.ts.
// A login or a refresh is several steps; everything else may happen between them.
module TokenEpoch {
  import opened Common

  datatype Account = Account(role: Role, tokenVersion: nat, isDisabled: bool, isActive: bool, banUntil: Option<Instant>)

  datatype Payload = Payload(user: Id, role: Role, session: Id, version: nat)

  // A signed refresh token is a function of its payload and the second it was signed in.
  datatype RefreshToken = RefreshToken(payload: Payload, issuedAt: Instant)

  // `refresh` is the token whose hash is stored; hashing is injective.
  datatype Session = Session(user: Id, isRevoked: bool, refresh: Option<RefreshToken>, expiresAt: Option<Instant>)

  // A login that has read its user, one that has opened its session, and a refresh that passed its checks.
  datatype Attempt =
    | ReadUser(user: Id, role: Role, version: nat)
    | MayIssue(payload: Payload)

  datatype State = State(
    users: map<Id, Account>,
    sessions: map<Id, Session>,
    usedIds: set<Id>,              // every session id the database ever handed out
    attempts: map<Id, Attempt>,
    issued: set<Payload>)          // payloads of the access and refresh tokens signed so far

  datatype Error =
    | UserNotFound | UserDisabled | Banned | VersionMismatch
    | SessionNotFound | SessionUserMismatch | SessionRevoked | SessionExpired | InvalidRefreshToken

  datatype Result<+T> = Ok(value: T) | Err(error: Error)

  datatype Identity = Identity(user: Id, role: Role, session: Id)

  predicate BannedAt(user: Account, now: Instant) {
    user.banUntil.Some? && user.banUntil.value > now
  }

  // JwtStrategy.validate
  function Validate(s: State, p: Payload, now: Instant): Result<Identity> {
    if p.user !in s.users then Err(UserNotFound)
    else if s.users[p.user].isDisabled then Err(UserDisabled)
    else if BannedAt(s.users[p.user], now) then Err(Banned)
    else if !s.users[p.user].isActive then Err(UserNotFound)
    else if p.version != s.users[p.user].tokenVersion then Err(VersionMismatch)
    else if p.session !in s.sessions then Err(SessionNotFound)
    else if s.sessions[p.session].user != p.user then Err(SessionUserMismatch)
    else if s.sessions[p.session].isRevoked then Err(SessionRevoked)
    else Ok(Identity(p.user, p.role, p.session))
  }

  // ----- Sessions -----

  function Revoke(s: State, session: Id, user: Id): State {
    if session in s.sessions && s.sessions[session].user == user && !s.sessions[session].isRevoked
    then s.(sessions := s.sessions[session := s.sessions[session].(isRevoked := true)]) else s
  }

  function RevokeAllExcept(s: State, user: Id, except: Option<Id>): State {
    s.(sessions := map x | x in s.sessions ::
         if s.sessions[x].user == user && Some(x) != except then s.sessions[x].(isRevoked := true) else s.sessions[x])
  }

  function Rotate(s: State, session: Id, refresh: RefreshToken, expiresAt: Instant): State {
    if session in s.sessions && !s.sessions[session].isRevoked
    then s.(sessions :=
            s.sessions[session := s.sessions[session].(refresh := Some(refresh), expiresAt := Some(expiresAt))])
    else s
  }

  // ----- Login and refresh -----

  function OpenSession(s: State, attempt: Id, session: Id): State {
    if attempt in s.attempts && s.attempts[attempt].ReadUser? && session !in s.usedIds then
      var ReadUser(user, role, version) := s.attempts[attempt];
      s.(sessions := s.sessions[session := Session(user, false, None, None)],
         usedIds := s.usedIds + {session},
         attempts := s.attempts[attempt := MayIssue(Payload(user, role, session, version))])
    else s
  }

  // generateJWT followed by rotateSession
  function Issue(s: State, attempt: Id, now: Instant, expiresAt: Instant): State {
    if attempt in s.attempts && s.attempts[attempt].MayIssue? then
      var p := s.attempts[attempt].payload;
      var signed := s.(attempts := s.attempts - {attempt}, issued := s.issued + {p});
      Rotate(signed, p.session, RefreshToken(p, now), expiresAt)
    else s
  }

  function CheckRefresh(s: State, token: RefreshToken, now: Instant): Result<Payload> {
    var p := token.payload;
    if p.user !in s.users then Err(UserNotFound)
    else if s.users[p.user].isDisabled then Err(UserDisabled)
    else if BannedAt(s.users[p.user], now) then Err(Banned)
    else if p.version != s.users[p.user].tokenVersion then Err(VersionMismatch)
    else if p.session !in s.sessions then Err(SessionNotFound)
    else if s.sessions[p.session].isRevoked then Err(SessionRevoked)
    else if s.sessions[p.session].expiresAt.Some? && s.sessions[p.session].expiresAt.value < now
    then Err(SessionExpired)
    else if s.sessions[p.session].user != p.user then Err(SessionUserMismatch)
    else if s.sessions[p.session].refresh != Some(token) then Err(InvalidRefreshToken)
    else Ok(p)
  }

  // The sessions a refused refresh revokes.
  function RefreshRefused(s: State, p: Payload, error: Error): State {
    match error
    case UserDisabled | Banned | VersionMismatch => RevokeAllExcept(s, p.user, None)
    case SessionExpired => Revoke(s, p.session, p.user)
    case _ => s
  }

  function StartRefresh(s: State, attempt: Id, token: RefreshToken, now: Instant): State {
    var checked := CheckRefresh(s, token, now);
    if checked.Err? then RefreshRefused(s, token.payload, checked.error)
    else if attempt in s.attempts || token.payload !in s.issued then s
    else s.(attempts := s.attempts[attempt := MayIssue(token.payload)])
  }

  // ----- Events -----

  datatype Event =
    | JoinEvent(user: Id, role: Role)
    | ActivateEvent(user: Id)
    | LoginReadEvent(attempt: Id, user: Id, now: Instant)
    | OpenSessionEvent(attempt: Id, session: Id)
    | IssueEvent(attempt: Id, now: Instant, expiresAt: Instant)
    | StartRefreshEvent(attempt: Id, token: RefreshToken, now: Instant)
    | LogoutAllEvent(user: Id)
    | ResetPasswordEvent(user: Id)
    | BanEvent(user: Id, until: Instant)
    | UnbanEvent(user: Id)
    | DisableEvent(user: Id)
    | EnableEvent(user: Id)
    | ChangeRoleEvent(user: Id, role: Role)
    | RevokeEvent(session: Id, user: Id)
    | RevokeAllEvent(user: Id)
    | RevokeOthersEvent(user: Id, keep: Id)   // what updatePassword does after saving the password
    | DropSessionEvent(session: Id)           // a removed device, or an expired session collected by its index

  function Bump(user: Account): Account {
    user.(tokenVersion := user.tokenVersion + 1)
  }

  // The handlers that start a new epoch for the user, and what they save with it.
  function NewEpoch(user: Account, e: Event): Option<Account> {
    match e
    case LogoutAllEvent(_) => if user.isDisabled then None else Some(Bump(user))
    case ResetPasswordEvent(_) => if user.isDisabled then None else Some(Bump(user))
    case BanEvent(_, until) => Some(Bump(user).(banUntil := Some(until)))
    case DisableEvent(_) => if user.isDisabled then None else Some(Bump(user).(isDisabled := true))
    case ChangeRoleEvent(_, role) =>
      if user.role.SuperAdmin? || user.role == role then None else Some(Bump(user).(role := role))
    case _ => None
  }

  predicate EpochEvent(e: Event) {
    e.LogoutAllEvent? || e.ResetPasswordEvent? || e.BanEvent? || e.DisableEvent? || e.ChangeRoleEvent?
  }

  function SameEpoch(user: Account, e: Event): Account {
    match e
    case ActivateEvent(_) => user.(isActive := true)
    case UnbanEvent(_) => user.(banUntil := None)
    case EnableEvent(_) => user.(isDisabled := false)
    case _ => user
  }

  function UpdateUser(s: State, e: Event): State
    requires EpochEvent(e) || e.ActivateEvent? || e.UnbanEvent? || e.EnableEvent?
  {
    if e.user !in s.users then s
    else
      var user := s.users[e.user];
      var updated := NewEpoch(user, e);
      s.(users := s.users[e.user := if updated.Some? then updated.value else SameEpoch(user, e)])
  }

  function Step(s: State, e: Event): State {
    match e
    case JoinEvent(user, role) =>
      if user in s.users then s else s.(users := s.users[user := Account(role, 0, false, false, None)])
    case LoginReadEvent(attempt, user, now) =>
      if attempt in s.attempts || user !in s.users || s.users[user].isDisabled || !s.users[user].isActive
         || BannedAt(s.users[user], now) then s
      else s.(attempts := s.attempts[attempt := ReadUser(user, s.users[user].role, s.users[user].tokenVersion)])
    case OpenSessionEvent(attempt, session) => OpenSession(s, attempt, session)
    case IssueEvent(attempt, now, expiresAt) => Issue(s, attempt, now, expiresAt)
    case StartRefreshEvent(attempt, token, now) => StartRefresh(s, attempt, token, now)
    case RevokeEvent(session, user) => Revoke(s, session, user)
    case RevokeAllEvent(user) => RevokeAllExcept(s, user, None)
    case RevokeOthersEvent(user, keep) => RevokeAllExcept(s, user, Some(keep))
    case DropSessionEvent(session) => s.(sessions := s.sessions - {session})
    case _ => UpdateUser(s, e)
  }

  function Run(s: State, events: seq<Event>): State
    decreases |events|
  {
    if events == [] then s else Run(Step(s, events[0]), events[1..])
  }

  const START := State(map[], map[], {}, map[], {})

  // ----- The epoch invariant -----

  // A role and version read earlier: never from a future epoch, and from the current one only with the current role.
  ghost predicate Epoch(users: map<Id, Account>, user: Id, role: Role, version: nat) {
    user in users && version <= users[user].tokenVersion
    && (version == users[user].tokenVersion ==> role == users[user].role)
  }

  ghost predicate Known(s: State, p: Payload) {
    && Epoch(s.users, p.user, p.role, p.version)
    && p.session in s.usedIds
    && (p.session in s.sessions ==> s.sessions[p.session].user == p.user)
  }

  ghost predicate KnownAttempt(s: State, a: Attempt) {
    match a
    case ReadUser(user, role, version) => Epoch(s.users, user, role, version)
    case MayIssue(p) => Known(s, p)
  }

  ghost predicate Invariant(s: State) {
    && s.sessions.Keys <= s.usedIds
    && (forall p | p in s.issued :: Known(s, p))
    && (forall a | a in s.attempts :: KnownAttempt(s, s.attempts[a]))
  }

  // What every step preserves of what was already known.
  ghost predicate Extends(before: State, after: State) {
    && before.usedIds <= after.usedIds
    && (forall u | u in before.users :: u in after.users && LaterEpoch(before.users[u], after.users[u]))
    && (forall x | x in before.usedIds && x in after.sessions ::
          x in before.sessions && SameSession(before.sessions[x], after.sessions[x]))
  }

  ghost predicate LaterEpoch(before: Account, after: Account) {
    && before.tokenVersion <= after.tokenVersion
    && (before.tokenVersion == after.tokenVersion ==> before.role == after.role)
  }

  ghost predicate SameSession(before: Session, after: Session) {
    after.user == before.user && (before.isRevoked ==> after.isRevoked)
  }

  // A step that changes sessions only, each in place.
  lemma SessionsExtend(s: State, t: State)
    requires t.users == s.users && t.usedIds == s.usedIds && t.sessions.Keys <= s.sessions.Keys
    requires forall x | x in t.sessions :: SameSession(s.sessions[x], t.sessions[x])
    ensures Extends(s, t)
  {
  }

  lemma RefreshExtends(s: State, e: Event)
    requires e.StartRefreshEvent?
    ensures Extends(s, Step(s, e)) && Step(s, e).sessions.Keys <= s.sessions.Keys && Step(s, e).usedIds == s.usedIds
  {
    SessionsExtend(s, Step(s, e));
  }

  lemma UserUpdateExtends(s: State, e: Event)
    requires EpochEvent(e) || e.ActivateEvent? || e.UnbanEvent? || e.EnableEvent?
    ensures Extends(s, UpdateUser(s, e))
  {
  }

  lemma StepExtends(s: State, e: Event)
    requires s.sessions.Keys <= s.usedIds
    ensures Extends(s, Step(s, e)) && Step(s, e).sessions.Keys <= Step(s, e).usedIds
  {
    match e
    case StartRefreshEvent(_, _, _) => RefreshExtends(s, e);
    case IssueEvent(_, _, _) => SessionsExtend(s, Step(s, e));
    case RevokeEvent(_, _) => SessionsExtend(s, Step(s, e));
    case RevokeAllEvent(_) => SessionsExtend(s, Step(s, e));
    case RevokeOthersEvent(_, _) => SessionsExtend(s, Step(s, e));
    case DropSessionEvent(_) => SessionsExtend(s, Step(s, e));
    case JoinEvent(_, _) =>
    case LoginReadEvent(_, _, _) =>
    case OpenSessionEvent(_, _) =>
    case _ => UserUpdateExtends(s, e);
  }

  lemma KnownStays(before: State, after: State, p: Payload)
    requires Extends(before, after) && Known(before, p)
    ensures Known(after, p)
  {
  }

  lemma AttemptStays(before: State, after: State, a: Attempt)
    requires Extends(before, after) && KnownAttempt(before, a)
    ensures KnownAttempt(after, a)
  {
    if a.MayIssue? {
      KnownStays(before, after, a.payload);
    }
  }

  // Only Issue signs anything, and only what its attempt may issue.
  lemma IssuedAreKnown(s: State, e: Event, p: Payload)
    requires Invariant(s) && p in Step(s, e).issued
    ensures Known(s, p)
  {
    if p !in s.issued {
      assert KnownAttempt(s, s.attempts[e.attempt]);
    }
  }

  // A new attempt comes from the user as read now, from an attempt that was there, or from a signed token.
  lemma AttemptsAreKnown(s: State, e: Event, a: Id)
    requires Invariant(s) && Extends(s, Step(s, e)) && a in Step(s, e).attempts
    ensures KnownAttempt(Step(s, e), Step(s, e).attempts[a])
  {
    var t := Step(s, e);
    if a in s.attempts && t.attempts[a] == s.attempts[a] {
      AttemptStays(s, t, s.attempts[a]);
    } else if e.OpenSessionEvent? {
      assert KnownAttempt(s, s.attempts[a]);
    } else if e.StartRefreshEvent? {
      KnownStays(s, t, e.token.payload);
    }
  }

  lemma StepKeepsInvariant(s: State, e: Event)
    requires Invariant(s)
    ensures Invariant(Step(s, e))
  {
    var t := Step(s, e);
    StepExtends(s, e);
    forall p | p in t.issued
      ensures Known(t, p)
    {
      IssuedAreKnown(s, e, p);
      KnownStays(s, t, p);
    }
    forall a | a in t.attempts
      ensures KnownAttempt(t, t.attempts[a])
    {
      AttemptsAreKnown(s, e, a);
    }
  }

  lemma {:induction false} RunKeepsInvariant(s: State, events: seq<Event>)
    requires Invariant(s)
    ensures Invariant(Run(s, events))
    decreases |events|
  {
    if events == [] {
    } else {
      StepKeepsInvariant(s, events[0]);
      RunKeepsInvariant(Step(s, events[0]), events[1..]);
    }
  }

  // Every token ever signed that the guard accepts carries the role its user has now.
  lemma AcceptedRoleIsCurrent(events: seq<Event>, p: Payload, now: Instant)
    requires p in Run(START, events).issued && Validate(Run(START, events), p, now).Ok?
    ensures Validate(Run(START, events), p, now).value.role == Run(START, events).users[p.user].role
  {
    RunKeepsInvariant(START, events);
  }

  // ----- Old epochs and revoked sessions never come back -----

  lemma {:induction false} RunExtends(s: State, events: seq<Event>)
    requires s.sessions.Keys <= s.usedIds
    ensures Extends(s, Run(s, events))
    decreases |events|
  {
    if events == [] {
    } else {
      StepExtends(s, events[0]);
      RunExtends(Step(s, events[0]), events[1..]);
    }
  }

  // Whatever the user is now, an epoch event that takes effect ends every token and every refresh token of theirs,
  // signed or about to be signed by a login or refresh already under way, in every later state.
  lemma OldEpochIsDead(s: State, e: Event, later: seq<Event>, p: Payload, issuedAt: Instant, now: Instant)
    requires Invariant(s) && EpochEvent(e) && e.user in s.users && NewEpoch(s.users[e.user], e).Some?
    requires p.user == e.user && p.version <= s.users[e.user].tokenVersion
    ensures Validate(Run(Step(s, e), later), p, now).Err?
    ensures CheckRefresh(Run(Step(s, e), later), RefreshToken(p, issuedAt), now).Err?
  {
    StepKeepsInvariant(s, e);
    RunExtends(Step(s, e), later);
    assert LaterEpoch(Step(s, e).users[e.user], Run(Step(s, e), later).users[e.user]);
  }

  // Everything already signed, and everything a login or refresh under way will sign, is of such an old version.
  lemma UnderWayIsOld(s: State, p: Payload)
    requires Invariant(s)
    requires p in s.issued || (exists a | a in s.attempts :: s.attempts[a] == MayIssue(p))
      || (exists a | a in s.attempts :: s.attempts[a] == ReadUser(p.user, p.role, p.version))
    ensures p.user in s.users && p.version <= s.users[p.user].tokenVersion
  {
    if p !in s.issued {
      var a :|
        && a in s.attempts
        && (s.attempts[a] == MayIssue(p) || s.attempts[a] == ReadUser(p.user, p.role, p.version));
      assert KnownAttempt(s, s.attempts[a]);
    }
  }

  predicate Closed(s: State, session: Id) {
    session in s.usedIds && (session in s.sessions ==> s.sessions[session].isRevoked)
  }

  // A revoked or removed session accepts no token and no refresh ever again,
  // whatever refresh was between its checks and its rotation when the session was revoked.
  lemma ClosedSessionStaysClosed(s: State, later: seq<Event>, p: Payload, issuedAt: Instant, now: Instant)
    requires Invariant(s) && Closed(s, p.session)
    ensures Closed(Run(s, later), p.session)
    ensures Validate(Run(s, later), p, now).Err?
    ensures CheckRefresh(Run(s, later), RefreshToken(p, issuedAt), now).Err?
  {
    RunExtends(s, later);
  }

  // Changing the password closes every other session the user has at that moment ...
  lemma PasswordChangeClosesTheOthers(s: State, user: Id, keep: Id, session: Id)
    requires Invariant(s) && session in s.sessions && s.sessions[session].user == user && session != keep
    ensures Closed(Step(s, RevokeOthersEvent(user, keep)), session)
  {
    assert Step(s, RevokeOthersEvent(user, keep)).sessions[session].isRevoked;
  }

  predicate MayEnter(user: Account, version: nat, now: Instant) {
    version == user.tokenVersion && !user.isDisabled && user.isActive && !BannedAt(user, now)
  }

  // ... but it starts no new epoch: a login that checked the old password before it and opens its session after it
  // gets a token, and that token is accepted exactly as if the password had not been changed.
  lemma LoginUnderWaySurvivesPasswordChange(s: State, attempt: Id, keep: Id, session: Id,
                                            now: Instant, expiresAt: Instant)
    requires Invariant(s) && attempt in s.attempts && s.attempts[attempt].ReadUser? && session !in s.usedIds
    ensures var a := s.attempts[attempt];
      var events := [RevokeOthersEvent(a.user, keep), OpenSessionEvent(attempt, session),
                     IssueEvent(attempt, now, expiresAt)];
      var p := Payload(a.user, a.role, session, a.version);
      && a.user in s.users && p in Run(s, events).issued
      && (Validate(Run(s, events), p, now).Ok? <==> MayEnter(s.users[a.user], a.version, now))
      && (Validate(Run(s, events), p, now).Ok? ==> Validate(Run(s, events), p, now).value.role == s.users[a.user].role)
  {
    var a := s.attempts[attempt];
    var e1, e2 := RevokeOthersEvent(a.user, keep), OpenSessionEvent(attempt, session);
    RunThree(s, [e1, e2, IssueEvent(attempt, now, expiresAt)]);
    assert KnownAttempt(s, a);
    assert Step(Step(s, e1), e2).attempts[attempt] == MayIssue(Payload(a.user, a.role, session, a.version));
  }

  lemma {:induction false} RunThree(s: State, events: seq<Event>)
    requires |events| == 3
    ensures Run(s, events) == Step(Step(Step(s, events[0]), events[1]), events[2])
  {
    var rest := events[1..];
    assert rest[0] == events[1] && rest[1..][0] == events[2] && rest[1..][1..] == [];
    assert Run(Step(s, events[0]), rest) == Run(Step(Step(s, events[0]), rest[0]), rest[1..]);
    RunLastStep(Step(Step(s, events[0]), rest[0]), rest[1..]);
  }

  lemma {:induction false} RunLastStep(s: State, events: seq<Event>)
    requires |events| == 1
    ensures Run(s, events) == Step(s, events[0])
  {
    assert events[1..] == [];
    assert Run(Step(s, events[0]), events[1..]) == Step(s, events[0]);
  }

  // ----- Which refreshes go through, and what a refused one ends -----

  predicate MayRefresh(user: Account, version: nat, now: Instant) {
    !user.isDisabled && !(user.banUntil.Some? && now < user.banUntil.value) && user.tokenVersion == version
  }

  predicate PastItsTime(session: Session, now: Instant) {
    session.expiresAt.Some? && session.expiresAt.value < now
  }

  predicate SessionRefreshes(session: Session, token: RefreshToken, now: Instant) {
    && session.user == token.payload.user && !session.isRevoked && session.refresh == Some(token)
    && !(session.expiresAt.Some? && session.expiresAt.value < now)
  }

  lemma RefreshGoesThroughIff(s: State, token: RefreshToken, now: Instant)
    ensures CheckRefresh(s, token, now).Ok? <==>
      && token.payload.user in s.users && MayRefresh(s.users[token.payload.user], token.payload.version, now)
      && token.payload.session in s.sessions
      && SessionRefreshes(s.sessions[token.payload.session], token, now)
    ensures CheckRefresh(s, token, now).Ok? ==> CheckRefresh(s, token, now) == Ok(token.payload)
  {
  }

  // Every session of this user is closed, and every other is as it was.
  ghost predicate AllClosedFor(s: State, t: State, user: Id) {
    && (forall x | x in s.sessions && s.sessions[x].user == user :: Closed(t, x))
    && (forall x | x in s.sessions && s.sessions[x].user != user :: x in t.sessions && t.sessions[x] == s.sessions[x])
  }

  // The refresh is refused for the time of a session that is the user's and open.
  predicate RefusedForTime(s: State, token: RefreshToken, now: Instant) {
    && token.payload.user in s.users && MayRefresh(s.users[token.payload.user], token.payload.version, now)
    && token.payload.session in s.sessions && s.sessions[token.payload.session].user == token.payload.user
    && PastItsTime(s.sessions[token.payload.session], now) && !s.sessions[token.payload.session].isRevoked
  }

  predicate RefusedForUser(s: State, token: RefreshToken, now: Instant) {
    token.payload.user in s.users && !MayRefresh(s.users[token.payload.user], token.payload.version, now)
  }

  // A refresh that is refused because its user may not refresh closes every session of that user, one of an expired
  // session closes that session if it is the user's, and any other changes nothing.
  lemma RefusedRefreshCloses(s: State, attempt: Id, token: RefreshToken, now: Instant)
    requires Invariant(s) && CheckRefresh(s, token, now).Err?
    ensures StartRefresh(s, attempt, token, now) == s.(sessions := StartRefresh(s, attempt, token, now).sessions)
    ensures RefusedForUser(s, token, now) ==>
      AllClosedFor(s, StartRefresh(s, attempt, token, now), token.payload.user)
    ensures RefusedForTime(s, token, now) ==>
      && Closed(StartRefresh(s, attempt, token, now), token.payload.session)
      && (forall x | x in s.sessions && x != token.payload.session ::
            x in StartRefresh(s, attempt, token, now).sessions
            && StartRefresh(s, attempt, token, now).sessions[x] == s.sessions[x])
    ensures !RefusedForUser(s, token, now) && !RefusedForTime(s, token, now) ==>
      StartRefresh(s, attempt, token, now) == s
  {
  }

  // An expired session can never be refreshed again: the first try closes it for good.
  lemma ExpiredSessionEnds(s: State, attempt: Id, token: RefreshToken, now: Instant, later: seq<Event>,
                           other: RefreshToken, at: Instant)
    requires Invariant(s) && RefusedForTime(s, token, now) && other.payload.session == token.payload.session
    ensures CheckRefresh(Run(StartRefresh(s, attempt, token, now), later), other, at).Err?
    ensures Validate(Run(StartRefresh(s, attempt, token, now), later), other.payload, at).Err?
  {
    var t := StartRefresh(s, attempt, token, now);
    RefreshGoesThroughIff(s, token, now);
    RefusedRefreshCloses(s, attempt, token, now);
    StepKeepsInvariant(s, StartRefreshEvent(attempt, token, now));
    assert t == Step(s, StartRefreshEvent(attempt, token, now));
    ClosedSessionStaysClosed(t, later, other.payload, other.issuedAt, at);
  }

  // ----- Rotation -----

  // After a refresh has gone through, the token it used passes the checks again
  // exactly when it was signed in the same second as its replacement.
  lemma RefreshRotatesOnce(s: State, attempt: Id, token: RefreshToken, now: Instant, expiresAt: Instant)
    requires Invariant(s) && attempt !in s.attempts && token.payload in s.issued && now <= expiresAt
    requires CheckRefresh(s, token, now).Ok?
    ensures var after := Issue(StartRefresh(s, attempt, token, now), attempt, now, expiresAt);
      && CheckRefresh(after, RefreshToken(token.payload, now), now).Ok?
      && (CheckRefresh(after, token, now).Ok? <==> token.issuedAt == now)
  {
    var p := token.payload;
    var started := StartRefresh(s, attempt, token, now);
    assert started.attempts[attempt] == MayIssue(p);
    var after := Issue(started, attempt, now, expiresAt);
    assert after.sessions[p.session].refresh == Some(RefreshToken(p, now));
  }

  predicate Reissues(s: State, e: Event, token: RefreshToken) {
    && e.IssueEvent?
    && e.attempt in s.attempts
    && s.attempts[e.attempt] == MayIssue(token.payload)
    && e.now == token.issuedAt
  }

  ghost predicate NeverReissued(s: State, events: seq<Event>, token: RefreshToken)
    decreases |events|
  {
    events != [] ==> !Reissues(s, events[0], token) && NeverReissued(Step(s, events[0]), events[1..], token)
  }

  // A refresh token that is not the one its session stores is refused for good,
  // unless the very same token is signed once more.
  lemma {:induction false} ReplacedTokenStaysRefused(s: State, later: seq<Event>, token: RefreshToken, now: Instant)
    requires Invariant(s) && token.payload.session in s.usedIds && NeverReissued(s, later, token)
    requires token.payload.session in s.sessions ==> s.sessions[token.payload.session].refresh != Some(token)
    ensures CheckRefresh(Run(s, later), token, now).Err?
    decreases |later|
  {
    if later == [] {
    } else {
      StepKeepsInvariant(s, later[0]);
      StepKeepsTokenReplaced(s, later[0], token);
      ReplacedTokenStaysRefused(Step(s, later[0]), later[1..], token, now);
    }
  }

  lemma StepKeepsTokenReplaced(s: State, e: Event, token: RefreshToken)
    requires token.payload.session in s.usedIds && !Reissues(s, e, token)
    requires token.payload.session in s.sessions ==> s.sessions[token.payload.session].refresh != Some(token)
    ensures token.payload.session in Step(s, e).usedIds
    ensures token.payload.session in Step(s, e).sessions ==>
      Step(s, e).sessions[token.payload.session].refresh != Some(token)
  {
  }

  // ----- Why a user update is one step -----

  // What an epoch handler that read the user as `read` writes when others have saved the user since:
  // the fields it assigned, and no others.
  function SaveLate(current: Account, read: Account, e: Event): Account
    requires EpochEvent(e)
  {
    var saved := current.(tokenVersion := read.tokenVersion + 1);
    match e
    case BanEvent(_, until) => saved.(banUntil := Some(until))
    case DisableEvent(_) => saved.(isDisabled := true)
    case ChangeRoleEvent(_, role) => saved.(role := role)
    case _ => saved
  }

  function SavedLate(s: State, read: Account, e: Event): State
    requires EpochEvent(e) && e.user in s.users
  {
    s.(users := s.users[e.user := SaveLate(s.users[e.user], read, e)])
  }

  // A late save starts a new epoch exactly when no epoch has started since its read. It stays in the order of epochs
  // exactly then, or when one has started and the role stays; otherwise the version goes back, or one epoch has
  // two roles.
  lemma SaveStartsAnEpochIff(current: Account, read: Account, e: Event)
    requires EpochEvent(e) && read.tokenVersion <= current.tokenVersion
    ensures var saved := SaveLate(current, read, e);
      && (current.tokenVersion < saved.tokenVersion <==> current.tokenVersion == read.tokenVersion)
      && (LaterEpoch(current, saved) <==>
            || current.tokenVersion == read.tokenVersion
            || (current.tokenVersion == read.tokenVersion + 1 && saved.role == current.role))
      && (saved.role != current.role ==>
            (LaterEpoch(current, saved) <==> current.tokenVersion == read.tokenVersion))
  {
  }

  // Then the save ends every token signed so far, as the single step does, in every later state.
  lemma TimelySaveEndsTheEpoch(s: State, read: Account, e: Event, later: seq<Event>, p: Payload, now: Instant)
    requires Invariant(s) && EpochEvent(e) && e.user in s.users && p in s.issued && p.user == e.user
    requires read.tokenVersion == s.users[e.user].tokenVersion
    ensures Validate(Run(SavedLate(s, read, e), later), p, now).Err?
  {
    var t := SavedLate(s, read, e);
    assert Known(s, p);
    RunExtends(t, later);
    assert LaterEpoch(t.users[e.user], Run(t, later).users[e.user]);
  }

  predicate OpenSessionOf(s: State, p: Payload) {
    p.session in s.sessions && s.sessions[p.session].user == p.user && !s.sessions[p.session].isRevoked
  }

  // A token accepted before a late logout, reset or role change is accepted after it exactly when one epoch has
  // started since the read: both handlers then write the same version.
  lemma TokenSurvivesTheSaveIff(s: State, read: Account, e: Event, p: Payload, now: Instant)
    requires EpochEvent(e) && !e.BanEvent? && !e.DisableEvent? && e.user in s.users && p.user == e.user
    requires Validate(s, p, now).Ok?
    ensures Validate(SavedLate(s, read, e), p, now).Ok? <==> s.users[e.user].tokenVersion == read.tokenVersion + 1
  {
  }

  // A token refused for its version is accepted again exactly when its version is the one after the read and its
  // session is open; a token ever signed can be in that position only when two epochs have started since the read.
  lemma TokenRevivesIff(s: State, read: Account, e: Event, p: Payload, now: Instant)
    requires EpochEvent(e) && !e.BanEvent? && !e.DisableEvent? && e.user in s.users && p.user == e.user
    requires Validate(s, p, now) == Err(VersionMismatch)
    ensures Validate(SavedLate(s, read, e), p, now).Ok? <==> p.version == read.tokenVersion + 1 && OpenSessionOf(s, p)
    ensures Invariant(s) && p in s.issued && Validate(SavedLate(s, read, e), p, now).Ok? ==>
      s.users[e.user].tokenVersion >= read.tokenVersion + 2
  {
    if p in s.issued && Invariant(s) {
      assert Known(s, p);
    }
  }

  function LoginEvents(attempt: Id, user: Id, session: Id, now: Instant, expiresAt: Instant): seq<Event> {
    [LoginReadEvent(attempt, user, now), OpenSessionEvent(attempt, session), IssueEvent(attempt, now, expiresAt)]
  }

  // An undisturbed login signs a token of the current role and version, which the guard accepts.
  lemma LoginSigns(s: State, attempt: Id, user: Id, session: Id, now: Instant, expiresAt: Instant)
    requires user in s.users && attempt !in s.attempts && session !in s.usedIds
    requires MayEnter(s.users[user], s.users[user].tokenVersion, now)
    ensures var t := Run(s, LoginEvents(attempt, user, session, now, expiresAt));
      var p := Payload(user, s.users[user].role, session, s.users[user].tokenVersion);
      t.users == s.users && p in t.issued && Validate(t, p, now) == Ok(Identity(user, p.role, session))
  {
    var e1, e2 := LoginReadEvent(attempt, user, now), OpenSessionEvent(attempt, session);
    RunThree(s, [e1, e2, IssueEvent(attempt, now, expiresAt)]);
    var p := Payload(user, s.users[user].role, session, s.users[user].tokenVersion);
    assert Step(s, e1).attempts[attempt] == ReadUser(user, p.role, p.version);
    assert Step(Step(s, e1), e2).attempts[attempt] == MayIssue(p);
  }

  // A role change that read the user before a logout-all and is saved after it shares its epoch with the logout:
  // a login in between holds a token that is accepted with a role its user no longer has.
  lemma CrossedUpdatesShareAnEpoch(s: State, user: Id, role: Role, attempt: Id, session: Id,
                                   now: Instant, expiresAt: Instant)
    requires Invariant(s) && user in s.users && attempt !in s.attempts && session !in s.usedIds
    requires MayEnter(s.users[user], s.users[user].tokenVersion, now) && s.users[user].role != role
    ensures var read := s.users[user];
      var between := Run(Step(s, LogoutAllEvent(user)), LoginEvents(attempt, user, session, now, expiresAt));
      var p := Payload(user, read.role, session, read.tokenVersion + 1);
      user in between.users && p in between.issued
      && var after := SavedLate(between, read, ChangeRoleEvent(user, role));
         Validate(after, p, now) == Ok(Identity(user, read.role, session)) && after.users[user].role == role
  {
    var loggedOut := Step(s, LogoutAllEvent(user));
    LoginSigns(loggedOut, attempt, user, session, now, expiresAt);
    var between := Run(loggedOut, LoginEvents(attempt, user, session, now, expiresAt));
    TokenSurvivesTheSaveIff(between, s.users[user], ChangeRoleEvent(user, role),
                            Payload(user, s.users[user].role, session, s.users[user].tokenVersion + 1), now);
  }

  // With a second logout in between the version goes back: the token was refused, for good had every update been
  // one step, and is accepted again.
  lemma CrossedUpdatesReviveAToken(s: State, user: Id, role: Role, attempt: Id, session: Id,
                                   now: Instant, expiresAt: Instant)
    requires Invariant(s) && user in s.users && attempt !in s.attempts && session !in s.usedIds
    requires MayEnter(s.users[user], s.users[user].tokenVersion, now)
    ensures var read := s.users[user];
      var between := Run(Step(s, LogoutAllEvent(user)), LoginEvents(attempt, user, session, now, expiresAt));
      var twice := Step(between, LogoutAllEvent(user));
      var p := Payload(user, read.role, session, read.tokenVersion + 1);
      user in twice.users && p in twice.issued && Validate(twice, p, now) == Err(VersionMismatch)
      && Validate(SavedLate(twice, read, ChangeRoleEvent(user, role)), p, now).Ok?
  {
    var loggedOut := Step(s, LogoutAllEvent(user));
    LoginSigns(loggedOut, attempt, user, session, now, expiresAt);
    var between := Run(loggedOut, LoginEvents(attempt, user, session, now, expiresAt));
    TokenRevivesIff(Step(between, LogoutAllEvent(user)), s.users[user], ChangeRoleEvent(user, role),
                    Payload(user, s.users[user].role, session, s.users[user].tokenVersion + 1), now);
  }
}
