// The avatar handlers and the collector as code over the store
// (src/modules/users/users.service.ts:494-688, src/modules/reports/report-cleanup.service.ts:33-241).
module ReportCleanup {
  import opened Common
  import opened ReportTypes
  import opened MediaRefs
  import opened Sequences

  datatype BulkOp = DeleteOne(report: Id) | UnsetMedia(report: Id, avatar: bool)

  // The Cloudinary ids of these media that go into the batch of one delivery type.
  function Batch(media: map<Id, Media>, ids: seq<Id>, delivery: DeliveryType): seq<Id>
    requires forall m | m in ids :: m in media
  {
    if ids == [] then []
    else
      var last := media[ids[|ids| - 1]];
      Batch(media, ids[..|ids| - 1], delivery)
      + if last.publicId.Some? && last.delivery == delivery then [last.publicId.value] else []
  }

  ghost function Owners(media: map<Id, Media>, ids: seq<Id>, publicId: Id): set<Id>
    requires forall m | m in ids :: m in media
  {
    set m | m in ids && media[m].publicId == Some(publicId)
  }

  // Each media record with a file is in exactly one of the two batches, once.
  lemma {:induction false} BatchesSplitTheFiles(media: map<Id, Media>, ids: seq<Id>, publicId: Id)
    requires Distinct(ids) && (forall m | m in ids :: m in media)
    ensures multiset(Batch(media, ids, Upload))[publicId] + multiset(Batch(media, ids, Authenticated))[publicId]
         == |Owners(media, ids, publicId)|
  {
    if ids == [] {
      assert Owners(media, ids, publicId) == {};
    } else {
      BatchesSplitTheFiles(media, ids[..|ids| - 1], publicId);
      OwnersGrow(media, ids, publicId);
      BatchCount(media, ids, Upload, publicId);
      BatchCount(media, ids, Authenticated, publicId);
    }
  }

  lemma OwnersGrow(media: map<Id, Media>, ids: seq<Id>, publicId: Id)
    requires ids != [] && Distinct(ids) && (forall m | m in ids :: m in media)
    ensures |Owners(media, ids, publicId)| == |Owners(media, ids[..|ids| - 1], publicId)|
      + if media[ids[|ids| - 1]].publicId == Some(publicId) then 1 else 0
  {
    var rest, last := ids[..|ids| - 1], ids[|ids| - 1];
    assert ids == rest + [last] && last !in rest;
    var grown := if media[last].publicId == Some(publicId) then {last} else {};
    assert Owners(media, ids, publicId) == Owners(media, rest, publicId) + grown;
    assert last !in Owners(media, rest, publicId);
  }

  lemma BatchCount(media: map<Id, Media>, ids: seq<Id>, delivery: DeliveryType, publicId: Id)
    requires ids != [] && (forall m | m in ids :: m in media)
    ensures var rest, last := ids[..|ids| - 1], media[ids[|ids| - 1]];
      multiset(Batch(media, ids, delivery))[publicId] == multiset(Batch(media, rest, delivery))[publicId]
        + if last.publicId == Some(publicId) && last.delivery == delivery then 1 else 0
  {
  }

  // What one expired report contributes to the collection.
  ghost function Contribution(report: Report, deletable: set<Id>): set<Id> {
    report.Evidence()
    + if report.snapshotAvatar.Some? && report.snapshotAvatar.value in deletable
      then {report.snapshotAvatar.value} else {}
  }

  ghost function OpFor(report: Report, r: Id, deletable: set<Id>): BulkOp {
    if RemovedWhole(report) then DeleteOne(r)
    else UnsetMedia(r, report.snapshotAvatar.Some? && report.snapshotAvatar.value in deletable)
  }

  // The reports once the operations for `done` have been applied.
  ghost function PartlyCleaned(s: State, done: set<Id>): map<Id, Report> {
    map r | r in s.reports && !(r in done && RemovedWhole(s.reports[r])) ::
      if r in done then Stripped(s.reports[r], DeletableAvatars(s), s.now) else s.reports[r]
  }

  // `found` lists the expired reports.
  ghost predicate Lists(s: State, found: seq<Id>) {
    && (forall i | 0 <= i < |found| :: found[i] in s.reports && IsExpired(s, found[i]))
    && (forall r | IsExpired(s, r) :: r in found)
  }

  lemma NothingCleaned(s: State)
    ensures PartlyCleaned(s, {}) == s.reports
  {
  }

  lemma CleanOneMore(s: State, done: set<Id>, r: Id)
    requires r in s.reports && r !in done
    ensures var before := PartlyCleaned(s, done);
      && r in before && before[r] == s.reports[r]
      && PartlyCleaned(s, done + {r}) == if RemovedWhole(s.reports[r]) then before - {r}
                                         else before[r := Stripped(s.reports[r], DeletableAvatars(s), s.now)]
  {
  }

  lemma AllCleaned(s: State, found: seq<Id>, done: set<Id>)
    requires Lists(s, found) && (forall r :: r in done <==> r in found)
    ensures PartlyCleaned(s, done) == CleanedReports(s)
  {
    assert forall r | r in s.reports :: r in done <==> IsExpired(s, r);
  }

  lemma OneAvatarLess(unused: set<Id>, rest: set<Id>, m: Id)
    requires m in rest
    ensures unused - (rest - {m}) == unused - rest + if m in unused then {m} else {}
  {
  }

  // The collector looks up one target per avatar; since an avatar belongs to one user, that is enough.
  lemma OneTargetPerAvatar(s: State, first: Id, r: Id, m: Id)
    requires NoDangling(s) && first in s.reports && r in s.reports
    requires s.reports[first].snapshotAvatar == Some(m) && s.reports[r].snapshotAvatar == Some(m)
    ensures s.reports[first].target == s.reports[r].target
  {
    assert SoundReport(s.media, first, s.reports[first]) && SoundReport(s.media, r, s.reports[r]);
  }

  // Every avatar of these reports is a key, and maps to the target of one of them.
  ghost predicate FirstTargets(s: State, found: seq<Id>, uniqueAvatars: map<Id, Id>) {
    && (forall m | m in uniqueAvatars :: exists r ::
          && r in found
          && r in s.reports
          && s.reports[r].snapshotAvatar == Some(m)
          && s.reports[r].target == uniqueAvatars[m])
    && (forall r | r in found && r in s.reports && s.reports[r].snapshotAvatar.Some? ::
          s.reports[r].snapshotAvatar.value in uniqueAvatars)
  }

  lemma FirstTargetsGrow(s: State, found: seq<Id>, r: Id, uniqueAvatars: map<Id, Id>)
    requires r in s.reports && FirstTargets(s, found, uniqueAvatars)
    ensures var avatar := s.reports[r].snapshotAvatar;
      FirstTargets(s, found + [r], if avatar.Some? && avatar.value !in uniqueAvatars
                                   then uniqueAvatars[avatar.value := s.reports[r].target] else uniqueAvatars)
  {
    var avatar := s.reports[r].snapshotAvatar;
    var grown := if avatar.Some? && avatar.value !in uniqueAvatars
                 then uniqueAvatars[avatar.value := s.reports[r].target] else uniqueAvatars;
    forall m | m in grown
      ensures exists t :: t in found + [r] && t in s.reports && s.reports[t].snapshotAvatar == Some(m)
                          && s.reports[t].target == grown[m]
    {
      if m in uniqueAvatars {
        var t :| t in found && t in s.reports && s.reports[t].snapshotAvatar == Some(m)
                 && s.reports[t].target == uniqueAvatars[m];
        assert t in found + [r];
      } else {
        assert r in found + [r];
      }
    }
  }

  // The avatars that neither the user they are listed with nor a live report uses.
  ghost function Unused(s: State, uniqueAvatars: map<Id, Id>): set<Id> {
    set m | m in uniqueAvatars && !(uniqueAvatars[m] in s.avatars && s.avatars[uniqueAvatars[m]] == Some(m))
            && !InLiveReport(s, m)
  }

  class ReportStore {
    var now: Instant
    var media: map<Id, Media>
    var avatars: map<Id, Option<Id>>
    var reports: map<Id, Report>

    ghost function Snapshot(): State
      reads this
    {
      State(now, media, avatars, reports)
    }

    ghost predicate Valid()
      reads this
    {
      NoDangling(Snapshot())
    }

    method IsMediaInReport(m: Id) returns (found: bool)
      ensures found == InReport(Snapshot(), m)
    {
      found := exists r | r in reports :: reports[r].snapshotAvatar == Some(m);
    }

    method UploadAvatar(user: Id, m: Id, publicId: Id)
      requires Valid() && user in avatars && m !in media
      modifies `media, `avatars
      ensures Valid() && Snapshot() == MediaRefs.UploadAvatar(old(Snapshot()), user, m, publicId)
    {
      UploadKeepsSound(Snapshot(), user, m, publicId);
      var avatarOld := avatars[user];
      media := media[m := Media(Some(publicId), Upload, AvatarOf(user))];
      avatars := avatars[user := Some(m)];
      if avatarOld.Some? && avatarOld.value in media {
        var inReport := IsMediaInReport(avatarOld.value);
        if !inReport {
          media := media - {avatarOld.value};
        }
      }
    }

    method DeleteAvatar(user: Id) returns (ok: bool)
      requires Valid() && user in avatars
      modifies `media, `avatars
      ensures Valid() && Snapshot() == MediaRefs.DeleteAvatar(old(Snapshot()), user)
      ensures ok == old(avatars[user]).Some?
    {
      DeleteKeepsSound(Snapshot(), user);
      var avatarOld := avatars[user];
      if avatarOld.None? {
        return false;
      }
      avatars := avatars[user := None];
      if avatarOld.value in media {
        var inReport := IsMediaInReport(avatarOld.value);
        if !inReport {
          media := media - {avatarOld.value};
        }
      }
      ok := true;
    }

    ghost predicate Found(found: seq<Id>)
      reads this
    {
      Distinct(found) && Lists(Snapshot(), found)
    }

    // The avatars seen in the expired reports, each with the first reported user seen with it.
    method UniqueAvatars(found: seq<Id>) returns (uniqueAvatars: map<Id, Id>)
      requires Found(found)
      ensures FirstTargets(Snapshot(), found, uniqueAvatars)
    {
      uniqueAvatars := map[];
      for i := 0 to |found|
        invariant FirstTargets(Snapshot(), found[..i], uniqueAvatars)
      {
        var report := reports[found[i]];
        ghost var before := uniqueAvatars;
        if report.snapshotAvatar.Some? && report.snapshotAvatar.value !in uniqueAvatars {
          uniqueAvatars := uniqueAvatars[report.snapshotAvatar.value := report.target];
        }
        FirstTargetsGrow(Snapshot(), found[..i], found[i], before);
        assert found[..i + 1] == found[..i] + [found[i]];
      }
      assert found[..|found|] == found;
    }

    // The query for a report outside the list that was found.
    method IsUsedByActiveReport(found: seq<Id>, m: Id) returns (used: bool)
      requires Found(found)
      ensures used == InLiveReport(Snapshot(), m)
    {
      used := exists r | r in reports :: r !in found && reports[r].snapshotAvatar == Some(m);
    }

    method IsUnused(found: seq<Id>, uniqueAvatars: map<Id, Id>, m: Id) returns (unused: bool)
      requires Found(found) && m in uniqueAvatars
      ensures unused == (m in Unused(Snapshot(), uniqueAvatars))
    {
      var isStillUsing := uniqueAvatars[m] in avatars && avatars[uniqueAvatars[m]] == Some(m);
      if isStillUsing {
        return false;
      }
      var isUsedByActiveReport := IsUsedByActiveReport(found, m);
      unused := !isUsedByActiveReport;
    }

    method UnusedAvatars(found: seq<Id>, uniqueAvatars: map<Id, Id>) returns (deletable: set<Id>)
      requires Found(found)
      ensures deletable == Unused(Snapshot(), uniqueAvatars)
    {
      ghost var unused := Unused(Snapshot(), uniqueAvatars);
      deletable := {};
      var rest := uniqueAvatars.Keys;
      assert unused - rest == {};
      while rest != {}
        invariant rest <= uniqueAvatars.Keys
        invariant deletable == unused - rest
        decreases |rest|
      {
        var m :| m in rest;
        var isUnused := IsUnused(found, uniqueAvatars, m);
        OneAvatarLess(unused, rest, m);
        rest := rest - {m};
        if isUnused {
          deletable := deletable + {m};
        }
      }
      assert unused - {} == unused;
    }

    method FindDeletableAvatars(found: seq<Id>) returns (deletable: set<Id>)
      requires Valid() && Found(found)
      ensures deletable == DeletableAvatars(Snapshot())
    {
      var uniqueAvatars := UniqueAvatars(found);
      deletable := UnusedAvatars(found, uniqueAvatars);
      DeletableByFirstTarget(Snapshot(), found, uniqueAvatars);
    }

    method CollectMedias(found: seq<Id>, deletable: set<Id>) returns (validMedias: seq<Id>, bulkOps: seq<BulkOp>)
      requires Valid() && Found(found) && deletable == DeletableAvatars(Snapshot())
      ensures (set m | m in validMedias) == Garbage(Snapshot())
      ensures |bulkOps| == |found|
      ensures forall i | 0 <= i < |found| :: bulkOps[i] == OpFor(reports[found[i]], found[i], deletable)
    {
      validMedias, bulkOps := [], [];
      for i := 0 to |found|
        invariant |bulkOps| == i
        invariant forall j | 0 <= j < i :: bulkOps[j] == OpFor(reports[found[j]], found[j], deletable)
        invariant forall m :: m in validMedias <==>
          exists j | 0 <= j < i :: m in Contribution(reports[found[j]], deletable)
      {
        var report := reports[found[i]];
        var shouldDeleteAvatar := report.snapshotAvatar.Some? && report.snapshotAvatar.value in deletable;
        ghost var before := validMedias;
        validMedias := validMedias + report.evidence;
        validMedias := validMedias + report.appealEvidence;
        if shouldDeleteAvatar {
          validMedias := validMedias + [report.snapshotAvatar.value];
        }
        assert forall m :: m in validMedias <==> m in before || m in Contribution(report, deletable);
        if RemovedWhole(report) {
          bulkOps := bulkOps + [DeleteOne(found[i])];
        } else {
          bulkOps := bulkOps + [UnsetMedia(found[i], shouldDeleteAvatar)];
        }
      }
      ContributionsAreGarbage(Snapshot(), found, validMedias);
    }

    method Unique(medias: seq<Id>) returns (unique: seq<Id>)
      ensures Distinct(unique) && (set m | m in unique) == (set m | m in medias)
    {
      unique := [];
      for i := 0 to |medias|
        invariant Distinct(unique) && (forall m :: m in unique <==> m in medias[..i])
      {
        if medias[i] !in unique {
          unique := unique + [medias[i]];
        }
        assert medias[..i + 1] == medias[..i] + [medias[i]];
      }
      assert medias[..|medias|] == medias;
    }

    method BulkWrite(found: seq<Id>, bulkOps: seq<BulkOp>)
      requires Found(found) && |bulkOps| == |found|
      requires forall i | 0 <= i < |found| ::
        bulkOps[i] == OpFor(reports[found[i]], found[i], DeletableAvatars(Snapshot()))
      modifies `reports
      ensures reports == CleanedReports(old(Snapshot()))
    {
      ghost var s := Snapshot();
      ghost var done: set<Id> := {};
      NothingCleaned(s);
      for i := 0 to |found|
        invariant forall r :: r in done <==> r in found[..i]
        invariant reports == PartlyCleaned(s, done)
      {
        assert found[i] in s.reports && found[i] !in done;
        CleanOneMore(s, done, found[i]);
        match bulkOps[i] {
          case DeleteOne(r) => reports := reports - {r};
          case UnsetMedia(r, avatar) =>
            reports := reports[r := reports[r].(evidence := [], appealEvidence := [], updatedAt := now,
              snapshotAvatar := if avatar then None else reports[r].snapshotAvatar)];
        }
        done := done + {found[i]};
        assert found[..i + 1] == found[..i] + [found[i]];
      }
      AllCleaned(s, found, done);
    }

    // The media to delete, each once, and the operation for each report.
    method Plan(found: seq<Id>) returns (deleted: seq<Id>, bulkOps: seq<BulkOp>)
      requires Valid() && Found(found)
      ensures Distinct(deleted) && (set m | m in deleted) == Garbage(Snapshot())
      ensures forall m | m in deleted :: m in media
      ensures |bulkOps| == |found|
      ensures forall i | 0 <= i < |found| ::
        bulkOps[i] == OpFor(reports[found[i]], found[i], DeletableAvatars(Snapshot()))
    {
      var deletable := FindDeletableAvatars(found);
      var validMedias;
      validMedias, bulkOps := CollectMedias(found, deletable);
      deleted := Unique(validMedias);
      forall m | m in deleted
        ensures m in media
      {
        assert m in set x | x in deleted;
        GarbageIsUnused(Snapshot(), m);
      }
    }

    // The whole pass, over the expired reports in whatever order the query lists them.
    method DeleteMediasAndReportDismissed(found: seq<Id>)
      returns (deleted: seq<Id>, uploadPublicIds: seq<Id>, authenticatedPublicIds: seq<Id>)
      requires Valid() && Found(found)
      modifies `media, `reports
      ensures Valid() && Snapshot() == Cleanup(old(Snapshot()))
      ensures forall r | Unfinished(old(Snapshot()), r) ::
                && r in reports && reports[r] == old(reports)[r]
                && (forall m | m in reports[r].evidence || m in reports[r].appealEvidence :: m in media)
      ensures forall r | r in old(reports) && Overdue(old(reports)[r], now) ::
                r in reports ==> reports[r].evidence == [] && reports[r].appealEvidence == []
      ensures Distinct(deleted) && (set m | m in deleted) == Garbage(old(Snapshot()))
      ensures forall m | m in deleted :: m in old(media)
      ensures uploadPublicIds == Batch(old(media), deleted, Upload)
      ensures authenticatedPublicIds == Batch(old(media), deleted, Authenticated)
    {
      ghost var s := Snapshot();
      CleanupKeepsSound(s);
      var bulkOps;
      deleted, bulkOps := Plan(found);
      uploadPublicIds, authenticatedPublicIds := SplitByDelivery(deleted);
      BulkWrite(found, bulkOps);
      DeleteRecords(deleted);
      assert media == s.media - Garbage(s) && reports == CleanedReports(s) && now == s.now && avatars == s.avatars;
      assert Snapshot() == Cleanup(s);
      forall r | Unfinished(s, r)
        ensures r in reports && reports[r] == s.reports[r]
        ensures forall m | m in reports[r].evidence || m in reports[r].appealEvidence :: m in media
      {
        UnfinishedReportsKeepTheirMedia(s, r);
      }
      forall r | r in s.reports && Overdue(s.reports[r], now)
        ensures r in reports ==> reports[r].evidence == [] && reports[r].appealEvidence == []
      {
        OverdueReportsAreStripped(s, r);
      }
    }

    method DeleteRecords(medias: seq<Id>)
      modifies `media
      ensures media == old(media) - (set m | m in medias)
    {
      for i := 0 to |medias|
        invariant media == old(media) - (set m | m in medias[..i])
      {
        media := media - {medias[i]};
        assert medias[..i + 1] == medias[..i] + [medias[i]];
      }
      assert medias[..|medias|] == medias;
    }

    method SplitByDelivery(medias: seq<Id>) returns (upload: seq<Id>, authenticated: seq<Id>)
      requires forall m | m in medias :: m in media
      ensures upload == Batch(media, medias, Upload) && authenticated == Batch(media, medias, Authenticated)
    {
      upload, authenticated := [], [];
      for i := 0 to |medias|
        invariant upload == Batch(media, medias[..i], Upload)
        invariant authenticated == Batch(media, medias[..i], Authenticated)
      {
        assert medias[..i + 1][..i] == medias[..i];
        var m := media[medias[i]];
        if m.publicId.Some? {
          if m.delivery.Authenticated? {
            authenticated := authenticated + [m.publicId.value];
          } else {
            upload := upload + [m.publicId.value];
          }
        }
      }
      assert medias[..|medias|] == medias;
    }
  }

  lemma DeletableByFirstTarget(s: State, found: seq<Id>, uniqueAvatars: map<Id, Id>)
    requires NoDangling(s) && Lists(s, found) && FirstTargets(s, found, uniqueAvatars)
    ensures Unused(s, uniqueAvatars) == DeletableAvatars(s)
  {
    forall m
      ensures m in Unused(s, uniqueAvatars) <==> m in DeletableAvatars(s)
    {
      if m in uniqueAvatars {
        var first :| first in found && first in s.reports && s.reports[first].snapshotAvatar == Some(m)
                     && s.reports[first].target == uniqueAvatars[m];
        forall r | r in s.reports && s.reports[r].snapshotAvatar == Some(m)
          ensures s.reports[r].target == uniqueAvatars[m]
        {
          OneTargetPerAvatar(s, first, r, m);
        }
        assert IsExpired(s, first);
      }
      if m in DeletableAvatars(s) {
        var r :| r in s.reports && IsExpired(s, r) && s.reports[r].snapshotAvatar == Some(m);
        assert r in found;
      }
    }
  }

  lemma ContributionsAreGarbage(s: State, found: seq<Id>, medias: seq<Id>)
    requires Lists(s, found)
    requires forall m :: m in medias <==>
      exists j | 0 <= j < |found| :: m in Contribution(s.reports[found[j]], DeletableAvatars(s))
    ensures (set m | m in medias) == Garbage(s)
  {
    forall m
      ensures m in medias <==> m in Garbage(s)
    {
      if m in ExpiredEvidence(s) {
        var r :| r in s.reports && IsExpired(s, r) && m in s.reports[r].Evidence();
        assert r in found;
        var j :| 0 <= j < |found| && found[j] == r;
        assert m in Contribution(s.reports[found[j]], DeletableAvatars(s));
      }
      if m in DeletableAvatars(s) {
        var r :| r in s.reports && IsExpired(s, r) && s.reports[r].snapshotAvatar == Some(m);
        assert r in found;
        var j :| 0 <= j < |found| && found[j] == r;
        assert m in Contribution(s.reports[found[j]], DeletableAvatars(s));
      }
    }
  }
}
