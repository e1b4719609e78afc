// Uploads and reports whose reads and writes are separate commands (src/modules/users/users.service.ts:494-560,
// src/modules/reports/reports.service.ts:98-178). An upload reads the old avatar, asks whether a report keeps a
// snapshot of it, and then commits; a report reads the avatar of its target and is saved after its evidence is up.
module CrossedMedia {
  import opened Common
  import opened ReportTypes
  import M = MediaRefs

  datatype Handler =
    | Reporting(target: Id, avatar: Option<Id>)
    | Uploading(user: Id, previous: Option<Id>)        // has read the old avatar, if its record is there
    | Swapping(user: Id, discards: Option<Id>)         // has asked; `discards` is what it is going to delete

  datatype State = State(base: M.State, handlers: map<Id, Handler>)

  datatype Event =
    | ReadTarget(op: Id, target: Id)
    | SaveReport(op: Id, r: Id, role: Role, files: map<Id, Id>, order: seq<Id>)
    | ReadOld(op: Id, user: Id)
    | AskReports(op: Id)
    | CommitUpload(op: Id, m: Id, publicId: Id)
    | Whole(event: M.Event)   // any handler as one step

  function Done(s: State, op: Id): map<Id, Handler> {
    s.handlers - {op}
  }

  function StepReadTarget(s: State, op: Id, target: Id): State {
    if op in s.handlers || target !in s.base.avatars then s
    else s.(handlers := s.handlers[op := Reporting(target, s.base.avatars[target])])
  }

  predicate SavesReport(s: State, e: Event) {
    && e.SaveReport? && e.op in s.handlers && s.handlers[e.op].Reporting?
    && e.r !in s.base.reports && M.NewFiles(s.base, e.files, e.order)
  }

  function SavedReport(base: M.State, h: Handler, e: Event): M.State
    requires e.SaveReport? && h.Reporting?
  {
    base.(media := M.WithEvidence(base.media, e.r, e.files),
          reports := base.reports[e.r := M.Report(h.target, Pending, e.role, h.avatar, e.order, [], None, base.now)])
  }

  function StepReadOld(s: State, op: Id, user: Id): State {
    if op in s.handlers || user !in s.base.avatars then s
    else
      var previous := s.base.avatars[user];
      var stored := if previous.Some? && previous.value in s.base.media then previous else None;
      s.(handlers := s.handlers[op := Uploading(user, stored)])
  }

  function StepAsk(s: State, op: Id): State {
    if op !in s.handlers || !s.handlers[op].Uploading? then s
    else
      var Uploading(user, previous) := s.handlers[op];
      var discards := if previous.Some? && !M.InReport(s.base, previous.value) then previous else None;
      s.(handlers := s.handlers[op := Swapping(user, discards)])
  }

  // The transaction fails as a whole when the record to delete is gone.
  predicate CommitsUpload(s: State, e: Event) {
    && e.CommitUpload? && e.op in s.handlers && s.handlers[e.op].Swapping?
    && s.handlers[e.op].user in s.base.avatars && e.m !in s.base.media
    && (s.handlers[e.op].discards.Some? ==> s.handlers[e.op].discards.value in s.base.media)
  }

  function Swapped(base: M.State, user: Id, m: Id, publicId: Id): M.State {
    base.(media := base.media[m := M.Media(Some(publicId), M.Upload, M.AvatarOf(user))],
          avatars := base.avatars[user := Some(m)])
  }

  function Discarded(base: M.State, discards: Option<Id>): M.State {
    if discards.Some? then base.(media := base.media - {discards.value}) else base
  }

  function Step(s: State, e: Event): State {
    match e
    case ReadTarget(op, target) => StepReadTarget(s, op, target)
    case SaveReport(op, _, _, _, _) =>
      if SavesReport(s, e) then State(SavedReport(s.base, s.handlers[op], e), Done(s, op))
      else s.(handlers := Done(s, op))
    case ReadOld(op, user) => StepReadOld(s, op, user)
    case AskReports(op) => StepAsk(s, op)
    case CommitUpload(op, m, publicId) =>
      if CommitsUpload(s, e)
      then State(Discarded(Swapped(s.base, s.handlers[op].user, m, publicId), s.handlers[op].discards), Done(s, op))
      else s.(handlers := Done(s, op))
    case Whole(event) => s.(base := M.Step(s.base, event))
  }

  // ----- Handlers that nothing comes between -----

  lemma UndisturbedReportIsWhole(s: State, op: Id, target: Id, e: Event)
    requires op !in s.handlers && e.SaveReport? && e.op == op
    ensures Step(Step(s, ReadTarget(op, target)), e).base
         == M.Step(s.base, M.ReportEvent(e.r, target, e.role, e.files, e.order))
  {
  }

  lemma UndisturbedUploadIsWhole(s: State, op: Id, user: Id, m: Id, publicId: Id)
    requires M.NoDangling(s.base) && op !in s.handlers && m !in s.base.media
    ensures Step(Step(Step(s, ReadOld(op, user)), AskReports(op)), CommitUpload(op, m, publicId)).base
         == M.Step(s.base, M.UploadEvent(user, m, publicId))
  {
    if user in s.base.avatars {
      var previous := s.base.avatars[user];
      var swapped := Swapped(s.base, user, m, publicId);
      assert previous.Some? ==> (M.InReport(swapped, previous.value) <==> M.InReport(s.base, previous.value));
    }
  }

  // ----- Which writes leave a dangling reference -----

  // The avatar that was read is not the target's stored record any more.
  predicate SnapshotIsGone(s: State, e: Event) {
    && SavesReport(s, e)
    && var Reporting(target, avatar) := s.handlers[e.op];
       avatar.Some? && !(avatar.value in s.base.media && s.base.media[avatar.value].use == M.AvatarOf(target))
  }

  // A report has been saved with the avatar since the upload asked, or somebody uses it after all.
  predicate DiscardsInUse(s: State, e: Event) {
    && CommitsUpload(s, e) && s.handlers[e.op].discards.Some?
    && var Swapping(user, discards) := s.handlers[e.op];
       || M.InReport(s.base, discards.value)
       || (exists u | u in s.base.avatars && u != user :: s.base.avatars[u] == discards)
       || (exists r | r in s.base.reports :: discards.value in s.base.reports[r].Evidence())
  }

  lemma SaveReportKeepsIff(s: State, e: Event)
    requires M.NoDangling(s.base) && e.SaveReport?
    ensures M.NoDangling(Step(s, e).base) <==> !SnapshotIsGone(s, e)
  {
    if SavesReport(s, e) {
      var Reporting(target, avatar) := s.handlers[e.op];
      var t := SavedReport(s.base, s.handlers[e.op], e);
      if SnapshotIsGone(s, e) {
        assert !M.SoundAvatar(t.media, avatar, target);
        assert t.reports[e.r].snapshotAvatar == avatar;
      } else {
        M.EvidenceKeepsSound(s.base, e.r, e.files, e.order, t.reports[e.r]);
      }
    }
  }

  lemma SwapKeepsSound(base: M.State, user: Id, m: Id, publicId: Id)
    requires M.NoDangling(base) && user in base.avatars && m !in base.media
    ensures M.NoDangling(Swapped(base, user, m, publicId))
  {
  }

  predicate Referred(s: M.State, m: Id) {
    || (exists u | u in s.avatars :: s.avatars[u] == Some(m))
    || M.InReport(s, m)
    || (exists r | r in s.reports :: m in s.reports[r].Evidence())
  }

  lemma DiscardKeepsIff(s: M.State, m: Id)
    requires M.NoDangling(s)
    ensures M.NoDangling(Discarded(s, Some(m))) <==> !Referred(s, m)
  {
    var t := Discarded(s, Some(m));
    if M.InReport(s, m) {
      var r :| r in s.reports && s.reports[r].snapshotAvatar == Some(m);
      assert !M.SoundReport(t.media, r, t.reports[r]);
    }
    forall r | r in s.reports && m in s.reports[r].Evidence()
      ensures !M.SoundReport(t.media, r, t.reports[r])
    {
    }
  }

  lemma CommitUploadKeepsIff(s: State, e: Event)
    requires M.NoDangling(s.base) && e.CommitUpload?
    ensures M.NoDangling(Step(s, e).base) <==> !DiscardsInUse(s, e)
  {
    if CommitsUpload(s, e) {
      var Swapping(user, discards) := s.handlers[e.op];
      var swapped := Swapped(s.base, user, e.m, e.publicId);
      SwapKeepsSound(s.base, user, e.m, e.publicId);
      if discards.Some? {
        DiscardKeepsIff(swapped, discards.value);
        assert forall u | u in s.base.avatars && u != user :: swapped.avatars[u] == s.base.avatars[u];
        assert swapped.avatars[user] != discards;
      }
    }
  }

  predicate LeavesDangling(s: State, e: Event) {
    SnapshotIsGone(s, e) || DiscardsInUse(s, e)
  }

  lemma StepKeepsIff(s: State, e: Event)
    requires M.NoDangling(s.base)
    ensures M.NoDangling(Step(s, e).base) <==> !LeavesDangling(s, e)
  {
    match e
    case SaveReport(_, _, _, _, _) => SaveReportKeepsIff(s, e);
    case CommitUpload(_, _, _) => CommitUploadKeepsIff(s, e);
    case Whole(event) => M.StepKeepsSound(s.base, event);
    case _ => assert Step(s, e).base == s.base;
  }

  ghost predicate SoundThroughout(s: State, events: seq<Event>)
    decreases |events|
  {
    M.NoDangling(s.base) && (events == [] || SoundThroughout(Step(s, events[0]), events[1..]))
  }

  predicate NeverDangles(s: State, events: seq<Event>)
    decreases |events|
  {
    events == [] || (!LeavesDangling(s, events[0]) && NeverDangles(Step(s, events[0]), events[1..]))
  }

  // In every run of single commands and whole handlers all references stay alive throughout if and only if no report
  // is saved with an avatar that has gone and no upload deletes one a report has taken up since it asked.
  lemma {:induction false} SoundThroughoutIff(s: State, events: seq<Event>)
    requires M.NoDangling(s.base)
    ensures SoundThroughout(s, events) <==> NeverDangles(s, events)
    decreases |events|
  {
    if events == [] {
    } else {
      StepKeepsIff(s, events[0]);
      if !LeavesDangling(s, events[0]) {
        SoundThroughoutIff(Step(s, events[0]), events[1..]);
      }
    }
  }
}
