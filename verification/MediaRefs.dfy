// Who refers to which media record, and the collector of expired report media
// (src/modules/reports/report-cleanup.service.ts, src/modules/users/users.service.ts:494-688,
// src/modules/reports/reports.service.ts:98-178, report-appeal.service.ts:97-148,
// report-penalty.service.ts:214-275). Handlers are atomic steps.
module MediaRefs {
  import opened Common
  import opened ReportTypes

  datatype DeliveryType = Upload | Authenticated

  // `use` records what the media was uploaded for; no code reads it.
  datatype Use = AvatarOf(user: Id) | EvidenceOf(report: Id)

  datatype Media = Media(publicId: Option<Id>, delivery: DeliveryType, use: Use)

  datatype Report = Report(
    target: Id,
    status: ReportStatus,
    snapshotRole: Role,
    snapshotAvatar: Option<Id>,
    evidence: seq<Id>,
    appealEvidence: seq<Id>,
    appealDeadline: Option<Instant>,
    updatedAt: Instant)
  {
    function Evidence(): set<Id> {
      set m | m in evidence + appealEvidence
    }
  }

  // Users are known by their avatar alone.
  datatype State = State(now: Instant, media: map<Id, Media>, avatars: map<Id, Option<Id>>, reports: map<Id, Report>)

  const THIRTY_DAYS_MS: int := 30 * DAY_MS

  // ----- Handlers -----

  // isMediaInReport
  predicate InReport(s: State, m: Id) {
    exists r | r in s.reports :: s.reports[r].snapshotAvatar == Some(m)
  }

  // The old avatar goes, record and all, unless some report keeps a snapshot of it.
  function DiscardAvatar(s: State, previous: Option<Id>): State {
    if previous.Some? && previous.value in s.media && !InReport(s, previous.value)
    then s.(media := s.media - {previous.value}) else s
  }

  function UploadAvatar(s: State, user: Id, m: Id, publicId: Id): State {
    if user !in s.avatars || m in s.media then s
    else
      DiscardAvatar(s.(media := s.media[m := Media(Some(publicId), Upload, AvatarOf(user))],
                       avatars := s.avatars[user := Some(m)]), s.avatars[user])
  }

  function DeleteAvatar(s: State, user: Id): State {
    if user !in s.avatars || s.avatars[user].None? then s
    else DiscardAvatar(s.(avatars := s.avatars[user := None]), s.avatars[user])
  }

  function WithEvidence(media: map<Id, Media>, report: Id, files: map<Id, Id>): map<Id, Media> {
    media + map m | m in files :: Media(Some(files[m]), Authenticated, EvidenceOf(report))
  }

  // `files` maps the new media ids to their Cloudinary ids.
  predicate NewFiles(s: State, files: map<Id, Id>, order: seq<Id>) {
    files.Keys !! s.media.Keys && (set m | m in order) == files.Keys
  }

  function CreateReport(s: State, r: Id, target: Id, role: Role, files: map<Id, Id>, order: seq<Id>): State {
    if r in s.reports || target !in s.avatars || !NewFiles(s, files, order) then s
    else s.(media := WithEvidence(s.media, r, files),
            reports := s.reports[r := Report(target, Pending, role, s.avatars[target], order, [], None, s.now)])
  }

  function Appeal(s: State, r: Id, files: map<Id, Id>, order: seq<Id>): State {
    if r !in s.reports || !s.reports[r].status.Resolved? || s.reports[r].appealDeadline.None?
       || s.reports[r].appealDeadline.value < s.now || !NewFiles(s, files, order) then s
    else s.(media := WithEvidence(s.media, r, files),
            reports := s.reports[r := s.reports[r].(status := AppealPending, appealEvidence := order,
                                                    updatedAt := s.now)])
  }

  // A penalty that resets the avatar forgets the reference and keeps the record.
  function ResetAvatar(s: State, user: Id): State {
    if user in s.avatars then s.(avatars := s.avatars[user := None]) else s
  }

  // Resolutions, merges, unbans: the status and the appeal deadline change, no reference does.
  function SetStatus(s: State, r: Id, status: ReportStatus, deadline: Option<Instant>): State {
    if r in s.reports
    then s.(reports := s.reports[r := s.reports[r].(status := status, appealDeadline := deadline,
                                                    updatedAt := s.now)])
    else s
  }

  // ----- The collector -----

  predicate Expired(report: Report, now: Instant) {
    || (report.status.Resolved? && report.appealDeadline.Some? && report.appealDeadline.value < now)
    || ((report.status.Dismissed? || report.status.AppealSuccess? || report.status.AppealRejected?)
        && report.updatedAt < now - THIRTY_DAYS_MS)
    || report.snapshotRole.SuperAdmin?
  }

  predicate IsExpired(s: State, r: Id) {
    r in s.reports && Expired(s.reports[r], s.now)
  }

  predicate StillUsed(s: State, r: Id, m: Id)
    requires r in s.reports
  {
    var target := s.reports[r].target;
    target in s.avatars && s.avatars[target] == Some(m)
  }

  predicate InLiveReport(s: State, m: Id) {
    exists r | r in s.reports :: !IsExpired(s, r) && s.reports[r].snapshotAvatar == Some(m)
  }

  // Snapshot avatars that neither the target nor a live report uses.
  function DeletableAvatars(s: State): set<Id> {
    set r | r in s.reports && IsExpired(s, r) && s.reports[r].snapshotAvatar.Some?
            && !StillUsed(s, r, s.reports[r].snapshotAvatar.value)
            && !InLiveReport(s, s.reports[r].snapshotAvatar.value)
      :: s.reports[r].snapshotAvatar.value
  }

  function ExpiredEvidence(s: State): set<Id> {
    set r, m | r in s.reports && IsExpired(s, r) && m in s.reports[r].Evidence() :: m
  }

  function Garbage(s: State): set<Id> {
    ExpiredEvidence(s) + DeletableAvatars(s)
  }

  predicate RemovedWhole(report: Report) {
    report.status.Dismissed? || report.status.AppealSuccess? || report.snapshotRole.SuperAdmin?
  }

  function Stripped(report: Report, deletable: set<Id>, now: Instant): Report {
    report.(evidence := [], appealEvidence := [], updatedAt := now,
            snapshotAvatar := if report.snapshotAvatar.Some? && report.snapshotAvatar.value in deletable
                              then None else report.snapshotAvatar)
  }

  function CleanedReports(s: State): map<Id, Report> {
    map r | r in s.reports && !(IsExpired(s, r) && RemovedWhole(s.reports[r])) ::
      if IsExpired(s, r) then Stripped(s.reports[r], DeletableAvatars(s), s.now) else s.reports[r]
  }

  function Cleanup(s: State): State {
    s.(media := s.media - Garbage(s), reports := CleanedReports(s))
  }

  // ----- Runs -----

  datatype Event =
    | JoinEvent(user: Id)
    | UploadEvent(user: Id, m: Id, publicId: Id)
    | DeleteEvent(user: Id)
    | ReportEvent(report: Id, target: Id, role: Role, files: map<Id, Id>, order: seq<Id>)
    | AppealEvent(report: Id, files: map<Id, Id>, order: seq<Id>)
    | ResetEvent(user: Id)
    | StatusEvent(report: Id, status: ReportStatus, deadline: Option<Instant>)
    | DropEvent(report: Id)
    | CleanupEvent
    | TickEvent(to: Instant)

  function Step(s: State, e: Event): State {
    match e
    case JoinEvent(user) => if user in s.avatars then s else s.(avatars := s.avatars[user := None])
    case UploadEvent(user, m, publicId) => UploadAvatar(s, user, m, publicId)
    case DeleteEvent(user) => DeleteAvatar(s, user)
    case ReportEvent(r, target, role, files, order) => CreateReport(s, r, target, role, files, order)
    case AppealEvent(r, files, order) => Appeal(s, r, files, order)
    case ResetEvent(user) => ResetAvatar(s, user)
    case StatusEvent(r, status, deadline) => SetStatus(s, r, status, deadline)
    case DropEvent(r) => s.(reports := s.reports - {r})
    case CleanupEvent => Cleanup(s)
    case TickEvent(to) => s.(now := Max(s.now, to))
  }

  function Run(s: State, events: seq<Event>): State
    decreases |events|
  {
    if events == [] then s else Run(Step(s, events[0]), events[1..])
  }

  // ----- No dangling media -----

  ghost predicate SoundAvatar(media: map<Id, Media>, avatar: Option<Id>, user: Id) {
    avatar.Some? ==> avatar.value in media && media[avatar.value].use == AvatarOf(user)
  }

  ghost predicate SoundReport(media: map<Id, Media>, r: Id, report: Report) {
    && SoundAvatar(media, report.snapshotAvatar, report.target)
    && (forall m | m in report.Evidence() :: m in media && media[m].use == EvidenceOf(r))
  }

  // Every user avatar, snapshot avatar and evidence reference points to a stored record,
  // and to one that was uploaded for that user or that report.
  ghost predicate NoDangling(s: State) {
    && (forall u | u in s.avatars :: SoundAvatar(s.media, s.avatars[u], u))
    && (forall r | r in s.reports :: SoundReport(s.media, r, s.reports[r]))
  }

  lemma DiscardKeepsSound(s: State, previous: Option<Id>, user: Id)
    requires NoDangling(s) && SoundAvatar(s.media, previous, user)
    requires user in s.avatars && s.avatars[user] != previous
    ensures NoDangling(DiscardAvatar(s, previous))
  {
  }

  lemma UploadKeepsSound(s: State, user: Id, m: Id, publicId: Id)
    requires NoDangling(s)
    ensures NoDangling(UploadAvatar(s, user, m, publicId))
  {
    if user in s.avatars && m !in s.media {
      var t := s.(media := s.media[m := Media(Some(publicId), Upload, AvatarOf(user))],
                  avatars := s.avatars[user := Some(m)]);
      assert NoDangling(t);
      DiscardKeepsSound(t, s.avatars[user], user);
    }
  }

  lemma DeleteKeepsSound(s: State, user: Id)
    requires NoDangling(s)
    ensures NoDangling(DeleteAvatar(s, user))
  {
    if user in s.avatars && s.avatars[user].Some? {
      DiscardKeepsSound(s.(avatars := s.avatars[user := None]), s.avatars[user], user);
    }
  }

  lemma EvidenceKeepsSound(s: State, r: Id, files: map<Id, Id>, order: seq<Id>, report: Report)
    requires NoDangling(s) && NewFiles(s, files, order)
    requires SoundAvatar(s.media, report.snapshotAvatar, report.target)
    requires forall m | m in report.Evidence() :: m in order || (m in s.media && s.media[m].use == EvidenceOf(r))
    ensures NoDangling(s.(media := WithEvidence(s.media, r, files), reports := s.reports[r := report]))
  {
    var media := WithEvidence(s.media, r, files);
    forall m | m in report.Evidence()
      ensures m in media && media[m].use == EvidenceOf(r)
    {
      assert m in order ==> m in set x | x in order;
    }
  }

  // Nothing the collector deletes is referred to from outside the expired reports.
  lemma GarbageIsUnused(s: State, m: Id)
    requires NoDangling(s) && m in Garbage(s)
    ensures m in s.media
    ensures forall u | u in s.avatars :: s.avatars[u] != Some(m)
    ensures forall r | r in s.reports && !IsExpired(s, r) ::
      s.reports[r].snapshotAvatar != Some(m) && m !in s.reports[r].Evidence()
  {
  }

  lemma CleanupKeepsSound(s: State)
    requires NoDangling(s)
    ensures NoDangling(Cleanup(s))
  {
    var t := Cleanup(s);
    forall u | u in t.avatars
      ensures SoundAvatar(t.media, t.avatars[u], u)
    {
      if t.avatars[u].Some? && t.avatars[u].value in Garbage(s) {
        GarbageIsUnused(s, t.avatars[u].value);
      }
    }
    forall r | r in t.reports
      ensures SoundReport(t.media, r, t.reports[r])
    {
      assert SoundReport(s.media, r, s.reports[r]);
      if !IsExpired(s, r) {
        forall m | m in t.reports[r].Evidence() || t.reports[r].snapshotAvatar == Some(m)
          ensures m in t.media
        {
          if m in Garbage(s) {
            GarbageIsUnused(s, m);
          }
        }
      } else if t.reports[r].snapshotAvatar.Some? {
        var m := t.reports[r].snapshotAvatar.value;
        assert m !in ExpiredEvidence(s);
      }
    }
  }

  lemma StepKeepsSound(s: State, e: Event)
    requires NoDangling(s)
    ensures NoDangling(Step(s, e))
  {
    match e
    case UploadEvent(user, m, publicId) => UploadKeepsSound(s, user, m, publicId);
    case DeleteEvent(user) => DeleteKeepsSound(s, user);
    case ReportEvent(r, target, role, files, order) =>
      if r !in s.reports && target in s.avatars && NewFiles(s, files, order) {
        EvidenceKeepsSound(s, r, files, order,
                           Report(target, Pending, role, s.avatars[target], order, [], None, s.now));
      }
    case AppealEvent(r, files, order) =>
      if r in s.reports && NewFiles(s, files, order) {
        assert SoundReport(s.media, r, s.reports[r]);
        EvidenceKeepsSound(s, r, files, order,
                           s.reports[r].(status := AppealPending, appealEvidence := order, updatedAt := s.now));
      }
    case CleanupEvent => CleanupKeepsSound(s);
    case _ =>
  }

  // After any run of uploads, deletions, reports, appeals, penalty resets, resolutions and cleanup passes,
  // every reference still points to an existing media record.
  lemma {:induction false} NoRunDangles(s: State, events: seq<Event>)
    requires NoDangling(s)
    ensures NoDangling(Run(s, events))
    decreases |events|
  {
    if events == [] {
    } else {
      StepKeepsSound(s, events[0]);
      NoRunDangles(Step(s, events[0]), events[1..]);
    }
  }

  // ----- One pass is enough -----

  // After a pass, an expired report that is still there has no evidence, and its avatar is in use.
  lemma NothingLeftToCollect(s: State)
    requires NoDangling(s)
    ensures Garbage(Cleanup(s)) == {}
  {
    var t := Cleanup(s);
    forall r | IsExpired(t, r)
      ensures t.reports[r].Evidence() == {}
    {
      assert IsExpired(s, r);
    }
    forall r | IsExpired(t, r) && t.reports[r].snapshotAvatar.Some?
      ensures StillUsed(t, r, t.reports[r].snapshotAvatar.value) || InLiveReport(t, t.reports[r].snapshotAvatar.value)
    {
      var m := t.reports[r].snapshotAvatar.value;
      assert IsExpired(s, r) && s.reports[r].snapshotAvatar == Some(m);
      assert m !in DeletableAvatars(s);
      if !StillUsed(s, r, m) {
        var live :| live in s.reports && !IsExpired(s, live) && s.reports[live].snapshotAvatar == Some(m);
        assert t.reports[live] == s.reports[live] && !IsExpired(t, live);
      }
    }
    assert ExpiredEvidence(t) == {};
    assert DeletableAvatars(t) == {};
  }

  // A second pass at the same clock deletes no media.
  lemma SecondPassDeletesNothing(s: State)
    requires NoDangling(s)
    ensures Cleanup(Cleanup(s)).media == Cleanup(s).media
  {
    NothingLeftToCollect(s);
    assert Cleanup(s).media - {} == Cleanup(s).media;
  }

  // Exactly the evidence of expired reports, and of their snapshot avatars those that neither their target
  // nor a live report uses, disappears; every other record stays as it is.
  lemma PassIsExact(s: State, m: Id)
    requires NoDangling(s) && m in s.media
    ensures m !in Cleanup(s).media <==>
      || (exists r :: IsExpired(s, r) && m in s.reports[r].Evidence())
      || (exists r :: IsExpired(s, r) && s.reports[r].snapshotAvatar == Some(m)
                      && !StillUsed(s, r, m) && !InLiveReport(s, m))
    ensures m in Cleanup(s).media ==> Cleanup(s).media[m] == s.media[m]
  {
  }

  // ----- What a pass may not touch, and what it must take -----

  // An appeal by the target would go through now.
  predicate CanStillAppeal(s: State, r: Id) {
    Appeal(s, r, map[], []) != s
  }

  // A report that is waiting for a decision, or can still be appealed.
  predicate Unfinished(s: State, r: Id) {
    && r in s.reports && s.reports[r].snapshotRole != SuperAdmin
    && (s.reports[r].status == Pending || s.reports[r].status == Resolving || s.reports[r].status == AppealPending
        || CanStillAppeal(s, r))
  }

  // A pass leaves an unfinished report as it is, and every media record it refers to.
  lemma UnfinishedReportsKeepTheirMedia(s: State, r: Id)
    requires NoDangling(s) && Unfinished(s, r)
    ensures var t := Cleanup(s);
      && r in t.reports && t.reports[r] == s.reports[r]
      && (forall m | m in s.reports[r].evidence || m in s.reports[r].appealEvidence
                     || s.reports[r].snapshotAvatar == Some(m) ::
            m in s.media && m in t.media && t.media[m] == s.media[m])
  {
    assert CanStillAppeal(s, r) ==>
        s.reports[r].status == Resolved && s.reports[r].appealDeadline.Some?
        && s.now <= s.reports[r].appealDeadline.value;
    assert !IsExpired(s, r);
    assert SoundReport(s.media, r, s.reports[r]);
    forall m | m in s.reports[r].evidence || m in s.reports[r].appealEvidence || s.reports[r].snapshotAvatar == Some(m)
      ensures m in s.media && m !in Garbage(s)
    {
      assert m in s.reports[r].Evidence() || s.reports[r].snapshotAvatar == Some(m);
      if m in Garbage(s) {
        GarbageIsUnused(s, m);
      }
    }
  }

  // A report whose appeal has lapsed, that was closed more than thirty days ago, or that is about a super admin.
  predicate Overdue(report: Report, now: Instant) {
    || report.snapshotRole == SuperAdmin
    || (report.status == Resolved && report.appealDeadline.Some? && report.appealDeadline.value < now)
    || ((report.status == Dismissed || report.status == AppealSuccess || report.status == AppealRejected)
        && report.updatedAt < now - 2_592_000_000)
  }

  // Avatars and evidence are different records.
  lemma GarbageIsNoAvatar(s: State, r: Id, m: Id)
    requires NoDangling(s) && r in s.reports && s.reports[r].snapshotAvatar == Some(m)
    ensures m !in ExpiredEvidence(s)
  {
    assert SoundReport(s.media, r, s.reports[r]);
    forall q | q in s.reports
      ensures m !in s.reports[q].Evidence()
    {
      assert SoundReport(s.media, q, s.reports[q]);
    }
  }

  // After a pass an overdue report is gone, if it was dismissed, won or about a super admin, or else keeps status
  // and target but no evidence; its evidence is no longer stored, and neither is its snapshot avatar unless somebody
  // uses it. Any other report is as it was.
  lemma OverdueReportsAreStripped(s: State, r: Id)
    requires NoDangling(s) && r in s.reports
    ensures var t := Cleanup(s); var report := s.reports[r];
      if Overdue(report, s.now) then
        && (r !in t.reports <==> report.status == Dismissed || report.status == AppealSuccess
                                 || report.snapshotRole == SuperAdmin)
        && (r in t.reports ==>
              && t.reports[r].evidence == [] && t.reports[r].appealEvidence == []
              && t.reports[r].target == report.target && t.reports[r].status == report.status
              && t.reports[r].appealDeadline == report.appealDeadline && t.reports[r].updatedAt == s.now
              && t.reports[r].snapshotAvatar
                 == if report.snapshotAvatar.Some? && report.snapshotAvatar.value !in t.media then None
                    else report.snapshotAvatar)
        && (forall m | m in report.evidence || m in report.appealEvidence :: m !in t.media)
        && (forall m | report.snapshotAvatar == Some(m) && m in t.media ::
              || (report.target in s.avatars && s.avatars[report.target] == Some(m))
              || (exists q :: q in t.reports && q in s.reports && !Overdue(s.reports[q], s.now)
                              && t.reports[q].snapshotAvatar == Some(m)))
      else r in t.reports && t.reports[r] == report
  {
    var report := s.reports[r];
    assert Overdue(report, s.now) <==> IsExpired(s, r);
    if IsExpired(s, r) {
      forall m | m in report.evidence || m in report.appealEvidence
        ensures m in Garbage(s)
      {
        assert m in report.Evidence();
      }
      assert SoundReport(s.media, r, report);
      if report.snapshotAvatar.Some? && report.snapshotAvatar.value !in Garbage(s) {
        var m := report.snapshotAvatar.value;
        assert m !in DeletableAvatars(s);
        if !StillUsed(s, r, m) {
          var q :| q in s.reports && !IsExpired(s, q) && s.reports[q].snapshotAvatar == Some(m);
          assert q in Cleanup(s).reports && !Overdue(s.reports[q], s.now);
        }
      }
      if report.snapshotAvatar.Some? && report.snapshotAvatar.value in ExpiredEvidence(s) {
        GarbageIsNoAvatar(s, r, report.snapshotAvatar.value);
      }
    }
  }

  // Uploading and deleting an avatar: the user refers to the new record or to none, the old one is gone unless a
  // report keeps a snapshot of it, and no other record or user is touched.
  lemma AvatarHandlersDoWhatTheySay(s: State, user: Id, m: Id, publicId: Id, other: Id)
    requires NoDangling(s) && user in s.avatars && m !in s.media
    ensures var t := UploadAvatar(s, user, m, publicId);
      && t.avatars == s.avatars[user := Some(m)] && t.reports == s.reports && t.now == s.now
      && m in t.media && t.media[m].publicId == Some(publicId) && t.media[m].delivery == Upload
      && (other in s.media ==>
            (other in t.media <==> s.avatars[user] != Some(other)
                                   || exists r :: r in s.reports && s.reports[r].snapshotAvatar == Some(other)))
      && (other in s.media && other in t.media ==> t.media[other] == s.media[other])
    ensures var t := DeleteAvatar(s, user);
      && t.avatars == s.avatars[user := None] && t.reports == s.reports && t.now == s.now
      && (other in s.media ==>
            (other in t.media <==> s.avatars[user] != Some(other)
                                   || exists r :: r in s.reports && s.reports[r].snapshotAvatar == Some(other)))
      && (other in t.media ==> other in s.media)
      && (other in t.media ==> t.media[other] == s.media[other])
  {
    assert s.avatars[user := s.avatars[user]] == s.avatars;
    assert SoundAvatar(s.media, s.avatars[user], user);
  }

  // A new report keeps the avatar its target has now, and the files that came with it, stored for it; an appeal that
  // is in time adds its files and waits; both leave every other record as it is.
  lemma ReportsAndAppealsStoreTheirFiles(s: State, r: Id, target: Id, role: Role, files: map<Id, Id>, order: seq<Id>)
    requires files.Keys !! s.media.Keys && (set m | m in order) == files.Keys
    ensures var t := CreateReport(s, r, target, role, files, order);
      if r !in s.reports && target in s.avatars then
        && t == s.(media := t.media, reports := s.reports[r := Report(target, Pending, role, s.avatars[target], order,
                                                                      [], None, s.now)])
        && StoredFor(s, t, r, files)
      else t == s
    ensures var t := Appeal(s, r, files, order);
      if r in s.reports && s.reports[r].status == Resolved && s.reports[r].appealDeadline.Some?
         && s.now <= s.reports[r].appealDeadline.value then
        && r in t.reports && t.reports[r].status == AppealPending && t.reports[r].appealEvidence == order
        && t.reports[r].updatedAt == s.now
        && t == s.(media := t.media,
                   reports := s.reports[r := s.reports[r].(status := AppealPending, appealEvidence := order,
                                                           updatedAt := s.now)])
        && StoredFor(s, t, r, files)
      else t == s
  {
  }

  ghost predicate StoredFor(s: State, t: State, r: Id, files: map<Id, Id>) {
    && t.media.Keys == s.media.Keys + files.Keys
    && (forall m | m in files :: t.media[m] == Media(Some(files[m]), Authenticated, EvidenceOf(r)))
    && (forall m | m in s.media && m !in files :: t.media[m] == s.media[m])
  }

  // A penalty that resets an avatar takes the reference and keeps the record; a decision changes status, deadline and
  // time of one report.
  lemma ResetsAndDecisionsKeepTheFiles(s: State, user: Id, r: Id, status: ReportStatus, deadline: Option<Instant>)
    ensures var t := ResetAvatar(s, user);
      && t.media == s.media && t.reports == s.reports && t.avatars.Keys == s.avatars.Keys
      && (forall u | u in s.avatars :: t.avatars[u] == if u == user then None else s.avatars[u])
    ensures var t := SetStatus(s, r, status, deadline);
      && t.media == s.media && t.avatars == s.avatars && t.reports.Keys == s.reports.Keys
      && (forall q | q in s.reports && q != r :: t.reports[q] == s.reports[q])
      && (r in s.reports ==>
            && t.reports[r].status == status && t.reports[r].appealDeadline == deadline
            && t.reports[r].updatedAt == s.now && t.reports[r].target == s.reports[r].target
            && t.reports[r].snapshotRole == s.reports[r].snapshotRole
            && t.reports[r].snapshotAvatar == s.reports[r].snapshotAvatar
            && t.reports[r].evidence == s.reports[r].evidence
            && t.reports[r].appealEvidence == s.reports[r].appealEvidence)
  {
  }
}
