# A model of the chat backend

This project models the protocols of a chat backend that keeps its state in MongoDB and Redis, and proves what
those protocols keep over whole runs. The services share stored records and keys with expiry times; each
conditional update, `SET NX`, insert, load, save or transaction is one atomic step, and the runs quantify over every
interleaving of such steps unless a section below says that a handler is taken as a whole. Handlers that read, wait and
write without a condition do break what they promise when they cross; for those the project proves exactly which runs
keep the promise. Where the code works by
changing stored state, a class holds that state and its methods are proved against the specification functions
that the lemmas are about.

Files, by subject:

- `Common`, `Sequences`, `ReportTypes`, `RedisCounters`: shared vocabulary.
- `Calls`, `CallStart`, `CallStartProgress`, `CallServer`, `CallExclusivity`: starting a call under two per-user
  try-locks.
- `CallLifecycle`, `CallCauses`, `CallService`: the status machine of a call, the cause of every status, the stored
  duration and the summary message.
- `CleanupJobs`, `JobCauses`, `CleanupJobStore`, `LateCommits`: lease-locked retry jobs, the cause of every status, and
  runs with and without commits in time.
- `MediaRefs`, `ReportCleanup`, `CrossedMedia`: references to media, the collector that deletes media, and uploads that
  cross with reports.
- `Reports`, `ReportCauses`, `PenaltyEpochs`, `ReportService`, `CrossedReports`: strikes, penalties, merging, appeals and pardons, with the read and the
  save of appeals and pardons as one step and as two.
- `TokenEpoch`, `TokenCauses`, `AuthService`, `CrossedUpdates`: token versions, sessions and refresh rotation, with user updates as one
  step and as load and save.
- `LoginLockout`, `RateLimit`: timed Redis counters.
- `Typing`, `CrossedTyping`: typing indicators over many sockets and late expiry notices, with handlers as one step and
  as single commands.
- `Conversations`, `ConversationEffects`, `ConversationInvariants`, `ConversationService`: members, pins, hidden history
  and receipts.
- `HandlerCommits`, `CrossedHandlers`: conversation handlers that check a record and commit later, over whole runs and
  two at a time.
- `Paging`: following cursors through messages and audit logs.
- `Rfc3986`, `PresignedUrls`: percent-encoding, the canonical query and object keys.
- `Relationships`, `Ties`, `RelationshipService`, `CrossedRequests`: friend requests and blocks, with handlers as one
  step and as single look-ups and writes.

What an operation does is said twice: by the specification function its method is proved against, and by lemmas that
speak of record fields alone (the modules ending in `Causes`, `Effects` and `Epochs`, `Ties`, and single lemmas
elsewhere). Most of the latter are about whole runs: every record is what one entitled event has made of it.

## Assumptions and findings

Ids are canonical: two ids are equal exactly when they name the same record, and their numeric order stands for the
order of the id strings. Every other assumption is a hypothesis of the lemma that needs it.

- **Call start locks.** A lock lives five seconds and is deleted without asking who set it. A user is in at most one
  active call in every run in which an attempt acts only within the life of its first lock
  (`CallStart.NoUserInTwoCalls`). Without that, one attempt that oversleeps is enough to put a user into two ringing
  calls (`CallServer.LateAttemptBreaksExclusivity`). Whatever the timing, each user is in at most one active call
  throughout a run if and only if no attempt inserts its call when one of its users is in an active call
  (`CallExclusivity.ExclusiveThroughoutIff`). Progress needs no timing at all.
- **Duration of a call.** `endCall` computes the duration from a read made before its update. The stored duration is
  the whole seconds from start to end if and only if that read saw ACCEPTED or the call was shorter than a second
  (`CallLifecycle.StoredDuration`); a hang-up that crosses with the answer records a minute of talk as zero
  (`CallLifecycle.EndRaceLosesTheDuration`).
- **Cleanup jobs.** Commits look at status and lease, not at the holder. That closed statuses never change needs no
  timing (`CleanupJobs.ClosedJobsNeverChange`). That each RETRY raises the count by one is false of the code: a commit
  counts from what its worker saw when it took the job. In every reachable state a failure raises the count by one if
  and only if the count is still the one seen; it leaves the count where it is if others have raised it by one since,
  and lowers it if they have raised it by more (`LateCommits.RetryRaisesTheCountIff`,
  `LateCommits.LateCommitLosesRetries`). Holders that commit before their lease ends always see the present count, and
  then the outcome is committed at most `maxRetries + 1` times (`CleanupJobs.EveryJobCloses`). Without that deadline
  there is no bound on the commits (`LateCommits.LateCommitsAreUnbounded`), and on the dispatches there is none even
  with it, since a worker that never comes back uses up no retry (`LateCommits.DispatchesAreUnbounded`).
- **Strikes.** The strike count reads the committed store, so it does not see the report being resolved. Strikes are
  conserved (`Reports.StrikesAreConserved`). An appeal takes the report out of RESOLVED, and a rejected appeal does
  not bring it back: the penalty stays, the strike is gone (`Reports.RejectedAppealKeepsThePenaltyAndLosesTheStrike`).
  `unban` and `unmute` dismiss the most recently resolved report of the user, whatever penalty that report imposed
  (`Reports.PardonTakesTheLatestStrike`).
- **Appeals and pardons.** In `Reports` an appeal and a pardon are one step each. In the code they load the report,
  wait (for the upload of evidence, for instance) and save it with no condition on the status, so that an appeal can
  be saved over a dismissal, which can then be decided again and lift the penalty
  (`CrossedReports.AppealOverwritesADismissal`), and a dismissal over a decided appeal
  (`CrossedReports.DismissalOverwritesAnAppeal`). In every run of single commands all reports move forward throughout
  if and only if no appeal is saved over anything but RESOLVED, APPEAL_PENDING or PENDING and no dismissal over
  anything but RESOLVED, DISMISSED or PENDING (`CrossedReports.ForwardThroughoutIff`). A save takes a strike exactly
  if the report is still RESOLVED, and counted so strikes are conserved over all of these runs
  (`CrossedReports.StrikesAreConserved`). Mongoose refuses a save that sets the evidence array after another one has;
  a save without evidence is not refused.
- **Token epochs.** The guard trusts the role inside the token; that is sound because every handler that changes the
  role also raises the token version (`TokenEpoch.AcceptedRoleIsCurrent`). Changing one's own password revokes the
  other sessions but starts no epoch, so a login already under way is let in
  (`TokenEpoch.LoginUnderWaySurvivesPasswordChange`). A refresh token carries only its payload and the second it was
  signed in: a refresh within the second in which the old token was signed returns the same token, and the old one
  stays valid exactly then (`TokenEpoch.RefreshRotatesOnce`). A handler that loads the user and saves it later writes
  the version it read plus one: it starts an epoch if and only if the version is still the one it read, and then ends
  every token signed before (`TokenEpoch.SaveStartsAnEpochIff`, `TokenEpoch.TimelySaveEndsTheEpoch`). With one epoch
  started in between, tokens of that epoch survive with a role their user no longer has; with two, the version goes
  back and a token that was refused is accepted again (`TokenEpoch.TokenSurvivesTheSaveIff`,
  `TokenEpoch.TokenRevivesIff`). Over whole runs of loads and saves epochs stay in order if and only if every save
  finds the version it read, or one more and no other role to write (`CrossedUpdates.OrderedThroughoutIff`); then
  accepted roles are current (`CrossedUpdates.AcceptedRoleIsCurrent`).
- **Login lockout.** Attempts on one account are handled one at a time and the clock counts whole seconds. The block
  times push the eleventh failure past the fifteen-minute window, so the steps for twelve and sixteen failures never
  apply and nobody is blocked for more than five minutes (`LoginLockout.CounterStaysWithinTen`).
- **Rate limit.** A comment in the code calls the limit a sliding window; it is a fixed one. It lets through at most
  `2 * limit - 1` events in a half-open interval as long as the window, one less than twice the limit, and that many
  can happen (`RateLimit.IntervalBound`, `RateLimit.BoundIsAttained`).
- **Typing.** In `Typing` a handler is one step. In the code the SET or DEL of the key, the count and the broadcast
  are three awaited commands. In every run of these commands the others have been told what is the case, or are about
  to be told, throughout if and only if none of three crossings happens (`CrossedTyping.CoveredThroughoutIff`): a
  second key is set before the first has been counted (`CrossedTyping.CrossedStartsAgreeIff`), a start is broadcast
  after the stop of its key (`CrossedTyping.ReversedBroadcastsAgreeIff`), or a stop after the start of another key
  (`CrossedTyping.LateStopAgreesIff`). The count of one command is taken as exact there. A SCAN iteration returns
  every matching key at least once. Stops are right whatever it repeats; a start is missed exactly when a first key is
  returned twice (`Typing.TypingStore.TypingStart`). The SCAN pattern of a conversation and user matches exactly their
  keys provided that ids contain no colon and none of the characters a pattern gives a meaning to, as the hexadecimal
  ids of the store do not (`Typing.PatternIsExact`).
- **Message paging.** The cursor is a creation time, so messages that share theirs across a page boundary are lost.
  The pages are complete if and only if no boundary falls into such a tie (`Paging.MessagesAreComplete`).
- **Percent-encoding.** Decoding undoes the encoder exactly for code units below 256 (`Rfc3986.RoundTripIff`), and the
  encoder agrees with what AWS Signature Version 4 asks for, percent-encoded UTF-8, exactly on ASCII
  (`Rfc3986.MatchesTheStandardIff`); object keys are ASCII whatever the uploaded file is called.
- **Relationships.** Look-ups and writes are separate commands, and the unique index is on the ordered pair. In every
  run of such commands there is one record per pair throughout if and only if no insert finds the record of the other
  direction (`CrossedRequests.UniqueThroughoutIff`); two users who ask each other at the same moment end up with two
  (`CrossedRequests.CrossedRequestsBreakUniquenessIff`). A block that finds no record calls `create`, which looks
  again: it takes effect if and only if the second look-up finds nothing either and the index lets the record in
  (`CrossedRequests.BlockTakesEffectIff`); if the target's friend request has come in between, the block accepts it
  (`CrossedRequests.BlockTurnsIntoFriendship`). A block that finds a record writes over whatever that record has
  become, so a block holds until its author lifts it if and only if nobody who had found the record earlier writes
  over it (`CrossedRequests.BlockHoldsThroughoutIff`, `CrossedRequests.CrossedBlocksKeepTheFirstIff`). The lemmas of
  `Relationships` are about runs of whole handlers. That friends are never blocked
  (`Relationships.FriendsAreNotBlocked`) is what the conversation model assumes of the answers it gets.
- **Conversations.** In `ConversationInvariants` a handler is one step. In the code it checks the conversation and
  commits later. In every run of checks and commits, by any number of handlers of the fourteen kinds, conversations
  and messages are sound throughout if and only if every commit is in place (`HandlerCommits.SoundThroughoutIff`).
  What a commit must still find is: for added members no history entry of theirs and room for those who join; for a
  removal another admin; for a hand-over, an acceptance or a pushed history entry the user among the members; for a
  pin the message undeleted, for a deletion the message not pinned unless the deletion clears the pin; for a message
  the conversation; for a new direct chat none of the same two users. The lemmas of `CrossedHandlers` decide single
  pairs of handlers by what they were asked for.
- **Media.** In `MediaRefs` a handler is one step. In the code an upload asks whether a report keeps the old avatar
  before it commits, and a report reads the avatar before it is saved. In every run with these as separate commands
  all references stay alive throughout if and only if no report is saved with an avatar that has gone and no upload
  deletes one that is in use again (`CrossedMedia.SoundThroughoutIff`). `setDate(getDate() - 30)` is thirty times
  twenty-four hours.

## Model

| member | source | states |
|---|---|---|
| CallStart.NoUserInTwoCalls | src/modules/realtime/realtime-call.service.ts:97-126 | In every interleaving of any number of start attempts (each lock, read, insert and delete its own step) with answers, rejections, hang-ups, timers and passing time, attempts acting within their lock life, each user is in at most one CALLING or ACCEPTED call and in none with himself |
| CallStart.StepKeepsInvariant | src/modules/realtime/realtime-call.service.ts:385-453 | Each single store operation keeps: active calls are disjoint, an attempt within its lock life still owns the keys it set, and the users it read as free are still free |
| CallStart.MoveKeepsInvariant | src/modules/realtime/realtime-call.service.ts:107-126 | A move of one attempt endangers no other as long as it leaves the keys of the others alone and claims none of them |
| CallStartProgress.SomebodyGetsThrough | src/modules/realtime/realtime-call.service.ts:97-126 | In every complete run of finitely many attempts between distinct users that starts with no lock held, at least one attempt gets both of its locks and runs to its end |
| CallStartProgress.Climb | src/modules/realtime/realtime-call.service.ts:97-105 | From any refused attempt the chain of blockers, whose failing keys only grow, leads to a finished attempt that got both locks |
| CallStartProgress.RunKeepsBlame | src/modules/realtime/realtime-call.service.ts:107-126 | Throughout a run every live key was taken by some attempt, the key on which an attempt was refused was taken by some attempt, and an attempt is refused only before it has both |
| CallStartProgress.AttemptAdvances | src/modules/realtime/realtime-call.service.ts:107-126 | A step of an attempt changes that attempt only, never loses a lock it once got, fails only on a live key, and makes no key live that it did not take |
| CallStartProgress.NoLockIsLeftBehind | src/modules/realtime/realtime-call.service.ts:107-126 | In every run from free locks, however late its attempts act, a live lock is held by an attempt under way; once all attempts are over no lock is left |
| CallStartProgress.AbortReleasesBoth | src/modules/realtime/realtime-call.service.ts:398-453 | Whatever goes wrong once both locks are held, the attempt goes on to release both |
| CallServer.Server.LockStartCallUsers | src/modules/realtime/realtime-call.service.ts:107-126 | Takes all keys or none: it succeeds exactly when every key is free and distinct, and after a refusal the live keys are the ones there were |
| CallServer.Server.SetIfNotExistsWithTtl | src/redis/redis.service.ts:109-117 | Whoever asks, the key is alive afterwards; a caller who acquires it holds it for exactly five seconds, a caller refused changes nothing, and at no instant is any other key affected |
| CallServer.Server.StartCall | src/modules/realtime/realtime-call.service.ts:385-453 | A request on its own rings exactly when the users differ, are permitted, are locked by nobody and are in no active call; it then adds that one call and its timer, in every case leaves no lock behind, and never puts a user into a second call |
| CallServer.Server.RingTimeout | src/modules/realtime/realtime-call.service.ts:131-166 | When the ring timer has fired the call rings no longer; an answered or closed call and every other call are as before, nobody is in a call who was in none, and users stay in at most one |
| CallServer.Server.CreateCall | src/modules/calls/call.service.ts:99-160 | A created call has a new id and makes both users busy, and every user is still in at most one call if and only if both were free: the insert alone does not protect them |
| CallServer.NewCallKeepsIff | src/modules/realtime/realtime-call.service.ts:398-412 | Inserting a ringing call keeps every user in at most one active call if and only if neither of its users was in one |
| CallServer.UndisturbedAttemptRings | src/modules/realtime/realtime-call.service.ts:385-453 | On the shared machine an attempt nobody disturbs goes through its steps to exactly the new ringing call, with the live keys as before |
| CallServer.LateAttemptBreaksExclusivity | src/modules/realtime/realtime-call.service.ts:111-115 | A concrete run with one attempt acting after its locks expired puts a user into two active calls |
| CallExclusivity.ExclusiveThroughoutIff | src/modules/realtime/realtime-call.service.ts:385-453 | In every run of single store operations, with no assumption on time, each user is in at most one active call throughout if and only if no attempt inserts its call when one of its users is in an active call |
| CallExclusivity.InTimeNeverOverABusyUser | src/modules/realtime/realtime-call.service.ts:97-126 | In a run whose attempts act within the life of their first lock no attempt does that |
| CallLifecycle.ClosedCallsAreFinal | src/modules/calls/call.service.ts:166-321 | With endCall split into read, clock and update, in any interleaving a closed call never changes, an accepted call can only become ENDED and keeps its start time, and no duration is negative |
| CallLifecycle.StoredDuration | src/modules/calls/call.service.ts:239-263 | When endCall closes a call it stores its end time, reason and start time, and the whole seconds between start and end if and only if its read saw ACCEPTED or those seconds are zero |
| CallLifecycle.EndRaceLosesTheDuration | src/modules/calls/call.service.ts:239-263 | A concrete run in which a minute of talk is stored as zero seconds |
| CallLifecycle.OneSummaryPerClosedCall | src/modules/calls/call.service.ts:358-401 | In any interleaving of close paths and reconcile passes a call has at most one summary, only once it is closed, and another attempt to write it changes nothing, lastMessageId included |
| CallLifecycle.WrittenSummaryStaysUnique | src/modules/calls/call.service.ts:358-401 | After any path whose insert went through, the call has exactly one summary in every later state |
| CallLifecycle.RunKeepsInvariant | src/modules/calls/call.service.ts:166-321 | Over any run every call record only evolves by CALLING to something else or ACCEPTED to ENDED, times and reasons match statuses, and summaries are unique and of closed calls |
| CallCauses.EveryCallHasItsCause | src/modules/calls/call.service.ts:99-321 | In every reachable state every call is what one entitled event of the run has made of it |
| CallCauses.StatusTellsTheCause | src/modules/calls/call.service.ts:166-321 | A call is ACCEPTED, REJECTED or MISSED only because its callee accepted, its callee rejected or its timer fired at the very time it stores, and ENDED only because somebody hung up |
| CallCauses.ChangesAreEntitled | src/modules/calls/call.service.ts:166-321 | Field by field: a call changes exactly when it is ringing and its callee answers or the timer fires, or it is active and one of the two commits a hang-up, and to exactly the status, times, reason and duration of that event |
| CallServices.CallService.AcceptCall | src/modules/calls/call.service.ts:166-196 | The callee of a ringing call makes it ACCEPTED and started now; every other request changes nothing and says whether the call is unknown, not theirs or over |
| CallServices.CallService.RejectCall | src/modules/calls/call.service.ts:198-231 | The callee of a ringing call makes it REJECTED, ended now by CALLEE_REJECT, and leaves exactly one summary; every other request changes neither call nor messages and says why |
| CallServices.CallService.EndCall | src/modules/calls/call.service.ts:233-294 | Succeeds for a participant of an active or already ended call; an active one becomes ENDED now, with the reason given and the whole seconds since its start, and exactly one summary; the refusals change nothing |
| CallServices.CallService.MarkMissed | src/modules/calls/call.service.ts:296-321 | Only a ringing call becomes MISSED, ended now by TIMEOUT; whenever the call is missed afterwards it has exactly one summary |
| CallServices.CallService.CreateCallMessage | src/modules/calls/call.service.ts:358-401 | Leaves exactly one summary; if there was one already, messages and last message stay |
| CallServices.CallService.CreateMissingCallMessages | src/modules/calls/call.service.ts:326-353 | After a pass in batches of ten with no failing insert every call closed in the last two days has exactly one summary; older messages stay and only missing summaries are new |
| CleanupJobs.ClosedJobsNeverChange | src/modules/cleanup-jobs/cleanup-job-command.service.ts:66-262 | Across any number of workers, admin runs, ignores and unlock passes, however late they commit, DONE, FAILED and IGNORED jobs never change |
| JobCauses.IgnoredForGood | src/modules/cleanup-jobs/cleanup-job-command.service.ts:89-115 | A job that is open and under no running lease is, once ignored, IGNORED in every later state; nobody can take it, and no event changes it, not even a commit of a worker that took it before |
| JobCauses.EveryJobHasItsCause | src/modules/cleanup-jobs/cleanup-job-command.service.ts:66-275 | In every reachable state, however late commits come, every job is what one entitled event of the run has made of it |
| JobCauses.StatusTellsTheCause | src/modules/cleanup-jobs/cleanup-job-command.service.ts:117-228 | DONE comes only from a committed success, FAILED only from a committed failure, IGNORED only from ignoring that job |
| JobCauses.ChangesAreEntitled | src/modules/cleanup-jobs/cleanup-job-command.service.ts:66-275 | Field by field: which events change a job, in which state, and to what status, count, lease and next retry |
| CleanupJobs.DelaysGrow | src/modules/cleanup-jobs/constants/cleanup-job.constant.ts:51-93 | Retries never come sooner than the one before, and a job that keeps failing waits nine hours, a week, or seventeen days and seventeen and a half hours in all, depending on its action |
| CleanupJobs.OneLiveHolder | src/modules/cleanup-jobs/cleanup-job-command.service.ts:230-275 | If holders commit before their lease ends, a job has at most one holder with a running lease, the job is as that holder saw it, and its retry count is within the table of delays |
| CleanupJobs.RoundEffect | src/modules/cleanup-jobs/cleanup-jobs.service.ts:58-89 | A holder in time always gets its commit through, and it either closes the job or sets RETRY with the count raised by exactly one and the delay of that count; FAILED only when the retries are used up; nothing else changes status or count except ignoring |
| CleanupJobs.RoundsGoDown | src/modules/cleanup-jobs/cleanup-jobs.service.ts:58-89 | The rounds a job has left never go up and go down with every commit |
| CleanupJobs.EveryJobCloses | src/modules/cleanup-jobs/constants/cleanup-job.constant.ts:51-93 | If holders commit in time, the outcome of a job is committed at most maxRetries + 1 times and the job is closed after that many commits, whatever its action's table of delays; how often it is dispatched has no bound |
| LateCommits.RetryRaisesTheCountIff | src/modules/cleanup-jobs/cleanup-job-command.service.ts:147-228 | In every reachable state, without any assumption on time, a committed failure raises the count by one, leaves it, lowers it or skips retries if and only if the count is the one its worker saw, one more, more than one more, or less; FAILED is written with the retries used up if and only if it is the one seen |
| LateCommits.RunKeepsTimeless | src/modules/cleanup-jobs/cleanup-job-command.service.ts:66-275 | Over every run, however late its commits, counts stay within the table of delays and workers hold jobs with the action they saw |
| LateCommits.LateCommitLosesRetries | src/modules/cleanup-jobs/cleanup-job-command.service.ts:147-186 | After any number k from one to eight of retries in time, a reachable late commit takes the count from 1 + k back to 2 |
| LateCommits.LateCommitsAreUnbounded | src/modules/cleanup-jobs/cleanup-job-command.service.ts:147-186 | For every n a run without the deadline commits the outcome of one job n times and leaves it open |
| LateCommits.DispatchesAreUnbounded | src/modules/cleanup-jobs/cleanup-job-command.service.ts:230-275 | For every n a run with all commits in time has n workers take the same job, which is still open |
| CleanupJobStores.CleanupJobStore.ProcessCleanupJob | src/modules/cleanup-jobs/cleanup-jobs.service.ts:58-89 | One undisturbed run: refused exactly when the job is not runnable; in time the job becomes DONE, RETRY or FAILED as decided; past the lease every commit is refused and only the lock remains |
| CleanupJobStores.CleanupJobStore.UnlockStuckJobs | src/modules/cleanup-jobs/cleanup-job-command.service.ts:66-87 | Exactly the open jobs with an expired lease lose it, and their number is returned |
| CleanupJobStores.CleanupJobStore.SetIgnoreJob | src/modules/cleanup-jobs/cleanup-job-command.service.ts:89-115 | Only a runnable job can be ignored, and then it is IGNORED, under no lease, and never runnable again |
| CleanupJobStores.CleanupJobStore.GetAndLockCleanupJob | src/modules/cleanup-jobs/cleanup-job-command.service.ts:230-275 | A lease is granted exactly for a runnable job, which is then runnable again exactly after ten minutes |
| CleanupJobStores.CleanupJobStore.HandleCompletedJob | src/modules/cleanup-jobs/cleanup-job-command.service.ts:117-145 | DONE is written exactly when the status is the one seen and a lease is running |
| CleanupJobStores.CleanupJobStore.HandleRetryJob | src/modules/cleanup-jobs/cleanup-job-command.service.ts:147-186 | RETRY with the given count and its delay is written under the same condition, and the delay index is within the table |
| CleanupJobStores.CleanupJobStore.HandleFailedJob | src/modules/cleanup-jobs/cleanup-job-command.service.ts:188-228 | FAILED with the final count is written under the same condition |
| MediaRefs.NoRunDangles | src/modules/reports/report-cleanup.service.ts:70-198 | After any run of avatar uploads and deletions, reports, appeals, penalty resets, resolutions and cleanup passes, every avatar, snapshot avatar and evidence reference points to a stored media record |
| MediaRefs.GarbageIsUnused | src/modules/reports/report-cleanup.service.ts:70-124 | What a pass deletes exists, is nobody's avatar and is referred to by no live report |
| MediaRefs.CleanupKeepsSound | src/modules/reports/report-cleanup.service.ts:126-198 | A pass leaves no dangling reference, in stripped reports included |
| MediaRefs.UploadKeepsSound | src/modules/users/users.service.ts:494-606 | Replacing an avatar deletes the old record only when no report keeps a snapshot of it |
| MediaRefs.PassIsExact | src/modules/reports/report-cleanup.service.ts:33-198 | A record disappears if and only if it is evidence of an expired report, or the snapshot avatar of one that neither its target nor a live report uses; every other record stays as it is |
| MediaRefs.UnfinishedReportsKeepTheirMedia | src/modules/reports/report-cleanup.service.ts:33-70 | A report, not about a super admin, that waits for a decision or against which an appeal would go through now keeps its record, its evidence and its snapshot avatar through a pass |
| MediaRefs.OverdueReportsAreStripped | src/modules/reports/report-cleanup.service.ts:40-182 | A resolved report whose appeal has lapsed, one closed more than thirty days ago and one about a super admin lose all their evidence; dismissed and won ones and those about super admins are removed, the others keep everything else; every other report is as it was |
| MediaRefs.AvatarHandlersDoWhatTheySay | src/modules/users/users.service.ts:494-688 | After uploading or deleting an avatar the user refers to the new record or none, the old record is gone unless a report keeps a snapshot of it, and nothing else is touched |
| MediaRefs.ReportsAndAppealsStoreTheirFiles | src/modules/reports/reports.service.ts:98-178 | A new report keeps the present avatar of its target and its files, an appeal in time adds its files and waits, and no other record changes |
| MediaRefs.ResetsAndDecisionsKeepTheFiles | src/modules/reports/report-penalty.service.ts:214-275 | A penalty that resets an avatar takes the reference and keeps the record; a decision changes no reference |
| MediaRefs.SecondPassDeletesNothing | src/modules/reports/report-cleanup.service.ts:33-198 | A second pass at the same clock deletes no media |
| MediaRefs.NothingLeftToCollect | src/modules/reports/report-cleanup.service.ts:33-124 | After a pass nothing is garbage any more |
| CrossedMedia.SoundThroughoutIff | src/modules/users/users.service.ts:494-560 | In every run in which uploads read, ask and commit and reports read and save as separate commands, with all other handlers whole, all references stay alive throughout if and only if no report is saved with an avatar that has gone and no upload deletes one in use again |
| CrossedMedia.CommitUploadKeepsIff | src/modules/users/users.service.ts:517-560 | The transaction of an upload leaves no dangling reference if and only if nothing refers to the record it deletes since it asked |
| CrossedMedia.SaveReportKeepsIff | src/modules/reports/reports.service.ts:133-178 | Saving a report leaves no dangling reference if and only if the avatar it read is still the target's stored record |
| ReportCleanup.BatchesSplitTheFiles | src/modules/reports/report-cleanup.service.ts:200-241 | Each media record with a file occurs in exactly one of the two delivery batches, once, and nothing else does |
| ReportCleanup.OneTargetPerAvatar | src/modules/reports/report-cleanup.service.ts:70-84 | All reports with the same snapshot avatar have the same target, so remembering the first target per avatar is enough |
| ReportCleanup.DeletableByFirstTarget | src/modules/reports/report-cleanup.service.ts:73-113 | The avatars unused by the first target seen and by live reports are exactly those unused by any target and by live reports |
| ReportCleanup.ReportStore.DeleteMediasAndReportDismissed | src/modules/reports/report-cleanup.service.ts:33-241 | The pass with its loops, in whatever order the query lists the reports, does exactly the specified cleanup, deletes each garbage record once, hands the files to the batch of their delivery type, leaves unfinished reports and their evidence alone and overdue ones without evidence |
| ReportCleanup.ReportStore.FindDeletableAvatars | src/modules/reports/report-cleanup.service.ts:70-113 | The map and set loops compute exactly the snapshot avatars used by neither target nor live report |
| ReportCleanup.ReportStore.UnusedAvatars | src/modules/reports/report-cleanup.service.ts:86-113 | The second of those loops keeps exactly the avatars that neither the listed user nor a live report uses |
| ReportCleanup.ReportStore.CollectMedias | src/modules/reports/report-cleanup.service.ts:112-169 | The collected media are exactly the garbage, and there is one bulk operation per expired report |
| ReportCleanup.ReportStore.BulkWrite | src/modules/reports/report-cleanup.service.ts:144-182 | The bulk operations remove or strip exactly the expired reports |
| ReportCleanup.ReportStore.Unique | src/modules/reports/report-cleanup.service.ts:171-175 | The same media, each once |
| ReportCleanup.ReportStore.Plan | src/modules/reports/report-cleanup.service.ts:70-175 | The media to delete are exactly the garbage, each once, all still stored, with one operation per expired report |
| ReportCleanup.ReportStore.SplitByDelivery | src/modules/reports/report-cleanup.service.ts:200-217 | The loop fills the two batches as specified |
| ReportCleanup.ReportStore.UploadAvatar | src/modules/users/users.service.ts:494-606 | The handler does what the reference model says and keeps every reference alive |
| ReportCleanup.ReportStore.DeleteAvatar | src/modules/users/users.service.ts:612-688 | Likewise for deleting an avatar, which is refused when there is none |
| Reports.ResolvedAddsOneStrike | src/modules/reports/reports.service.ts:404-500 | Resolving as RESOLVED adds exactly one strike for that target and reason and none for any other pair |
| Reports.ResolvedMergesThePair | src/modules/reports/reports.service.ts:482-500 | It leaves no PENDING report of the pair, dismisses exactly those, and touches no other report |
| Reports.AppliesWhatWasAnnounced | src/modules/reports/report-penalty.service.ts:164-328 | Without an override the target gets what the preview of the same store announced, with one the override, and nobody else changes; what that does to the account is ResolutionHasItsEffect |
| Reports.OnlyOutrankedTargets | src/modules/reports/report-penalty.service.ts:140-162 | Whoever is penalized is no super admin and not the person who decides, and if an admin then not by one acting as admin |
| PenaltyEpochs.ResolveGoesThroughIff | src/modules/reports/reports.service.ts:324-534 | A resolution goes through if and only if the report still has the status that was read, the decision fits it, and a penalty meets a known, outranked target other than the person deciding who is not let off earlier by it |
| PenaltyEpochs.PreviewShowsTheNextRule | src/modules/reports/report-penalty.service.ts:301-328 | The preview shows one strike more than the resolutions of the pair and the rule for it, or no action and no days without rules |
| PenaltyEpochs.ResolutionHasItsEffect | src/modules/reports/report-penalty.service.ts:176-288 | Field by field, the penalty of the override or of the rule of the next strike on the target's ban, mute, version and profile, and nobody else's; the report stores who, when, which penalty and an appeal deadline of thirty days |
| PenaltyEpochs.PenaltyAsEpochEvent | src/modules/reports/report-penalty.service.ts:236-281 | A ban, by rule or override, changes the account exactly as the ban event of the token machine does; every other penalty leaves role, version and ban alone |
| PenaltyEpochs.BanEndsEveryToken | src/modules/reports/report-penalty.service.ts:256-281 | After a resolution that bans its target no token or refresh token signed for the target so far is accepted in any later state |
| PenaltyEpochs.DirectBanEndsEveryToken | src/modules/reports/report-admin-action.service.ts:70-199 | The same after a ban imposed directly, by override or by the rule of the next strike |
| Reports.SuperAdminsAreNeverPenalized | src/modules/reports/report-penalty.service.ts:140-162 | Whatever is resolved by whom and with whatever override, no run bans, mutes, resets or logs out a super admin |
| Reports.DirectPenaltyIsOneStrike | src/modules/reports/report-admin-action.service.ts:70-199 | A quick penalty or manual ban that goes through is one strike more, with its own report resolved and the waiting ones of the pair merged |
| Reports.StrikesAreConserved | src/modules/reports/report-penalty.service.ts:301-328 | Over any run, with appeals and pardons as single steps, the announced strike is one more than the resolutions of the pair minus those appealed, pardoned or purged |
| Reports.PenaltiesNeverShorten | src/modules/reports/report-penalty.service.ts:76-117 | With a clock that does not run backwards within a resolution, no run moves banUntil of a user earlier unless an appeal is won or an administrator lifts the ban, and none moves muteUntil earlier unless an appeal is won or the mute is lifted |
| Reports.ActionNeverShortens | src/modules/reports/report-penalty.service.ts:76-275 | A penalty that passes the reduction check ends no earlier than the one in force, although check and application read the clock at different times |
| Reports.FindRuleMeansFirstMatch | src/modules/reports/report-penalty.service.ts:181-188 | The rule used is the first entry for the strike; there is none exactly when no entry names it |
| Reports.ReportsOnlyMoveForward | src/modules/reports/reports.service.ts:332-372 | Over any run, with appeals and pardons as single steps, a report keeps target, reason and snapshot role, its status only moves forward, and one that left RESOLVED never counts again |
| ReportCauses.EveryReportHasItsCause | src/modules/reports/reports.service.ts:98-534 | In every reachable state every report is what one entitled event of the run has made of it |
| ReportCauses.ChangesAreEntitled | src/modules/reports/reports.service.ts:324-500 | Field by field: a report changes exactly by its own decision, by the resolution of another of its pair while it waits, by its target's appeal in time, or by a pardon that finds it the latest; it goes exactly by a purge or a compensation |
| ReportCauses.AccountsChangeByPenaltyOrPardon | src/modules/reports/report-penalty.service.ts:196-288 | An account changes only by the effect of a penalty chosen for it, or by a pardon or a won appeal, which lift exactly the ban or the mute |
| ReportCauses.ResolutionsSayWhy | src/modules/reports/reports.service.ts:332-372 | Which refusal a resolution gets |
| ReportCauses.AppealsSayWhy | src/modules/reports/report-appeal.service.ts:105-121 | Which refusal an appeal gets, and when |
| ReportCauses.LatestMeans | src/modules/reports/report-admin-action.service.ts:219-224 | The report a pardon takes is a resolved one of its target and none was resolved later; it takes none exactly when there is none |
| ReportCauses.SomeLatestExists | src/modules/reports/report-admin-action.service.ts:219-224 | There is always such a report or none to take |
| ReportCauses.DirectPenaltyGoesThroughIff | src/modules/reports/report-admin-action.service.ts:70-199 | A direct penalty goes through if and only if its target is known, outranked and not let off earlier, and leaves its own report resolved for that target and reason |
| Reports.RejectedAppealKeepsThePenaltyAndLosesTheStrike | src/modules/reports/report-appeal.service.ts:115-139 | Appealing and being rejected leaves the user as penalized but with one strike fewer |
| Reports.AppealTakesTheStrike | src/modules/reports/report-appeal.service.ts:97-148 | An appeal with nothing between its read and its save leaves users and other reports alone, takes one strike off the pair, and cannot be repeated afterwards |
| Reports.PardonTakesTheLatestStrike | src/modules/reports/report-admin-action.service.ts:201-341 | A pardon dismisses the report resolved last and takes its strike, whatever penalty it imposed, and lifts only what the pardon names |
| CrossedReports.ForwardThroughoutIff | src/modules/reports/report-appeal.service.ts:105-142 | In every run with the reads and saves of appeals and pardons as separate commands, all reports move forward throughout if and only if no save finds a status it must not overwrite |
| CrossedReports.StepMovesForwardIff | src/modules/reports/report-admin-action.service.ts:219-233 | A single command moves every report forward if and only if it is no appeal saved over a status other than RESOLVED, APPEAL_PENDING or PENDING and no dismissal saved over one other than RESOLVED, DISMISSED or PENDING |
| CrossedReports.ReportsMoveForward | src/modules/reports/reports.service.ts:332-372 | In a run without such saves a report keeps target, reason and snapshot role and its status ends no earlier than it began |
| CrossedReports.StrikesAreConserved | src/modules/reports/report-penalty.service.ts:301-328 | In every run of single commands, whatever crosses, the announced strike is one more than the resolutions of the pair minus the purges and the saves that found the report still RESOLVED |
| CrossedReports.AppealOverwritesADismissal | src/modules/reports/report-appeal.service.ts:105-142 | From any store, an appeal read before and saved after a cleared strike makes the dismissed report pending again, and winning it lifts the penalty |
| CrossedReports.DismissalOverwritesAnAppeal | src/modules/reports/report-admin-action.service.ts:312-326 | From any store, a pardon that found the report before its appeal was decided is saved over the decision; one strike is taken in all |
| CrossedReports.CrossedAppealsAreHeardTwiceIff | src/modules/reports/report-appeal.service.ts:125-142 | Of two appeals that read the same report, the second is heard again after the first is rejected if and only if not both set the evidence |
| CrossedReports.UndisturbedAppeal | src/modules/reports/report-appeal.service.ts:105-142 | Read and save in a row are the single step of an appeal |
| CrossedReports.UndisturbedPardon | src/modules/reports/report-admin-action.service.ts:209-232 | Lifting, finding and saving in a row are the single step of a pardon |
| ReportServices.ReportService.ResolveReport | src/modules/reports/reports.service.ts:324-534 | The transaction does what is specified for a status read earlier, ban and token version included; a refused resolution leaves reports and users exactly as they were |
| ReportServices.ReportService.InTransaction | src/modules/reports/reports.service.ts:404-530 | The body of the transaction, with the strike count read from the committed store, refuses or completes as specified |
| ReportServices.ReportService.ApplyPenalty | src/modules/reports/report-penalty.service.ts:123-290 | The checks, the choice and the writes to the user amount to the specified penalty; a refusal writes nothing |
| ReportServices.ReportService.ChooseAction | src/modules/reports/report-penalty.service.ts:164-190 | The override if there is one, otherwise the rule of the next strike |
| ReportServices.ReportService.Apply | src/modules/reports/report-penalty.service.ts:196-275 | The chain of writes per action gives the specified profile, ban, mute, token version and penalty type |
| ReportServices.ReportService.FindRuleFor | src/modules/reports/report-penalty.service.ts:181-188 | The loop finds the first rule of the strike, or the last rule of the list |
| ReportServices.ReportService.PenalizeDirectly | src/modules/reports/report-admin-action.service.ts:70-199 | Refused for an unknown admin, another role or a wrong password; otherwise create, resolve, compensate, and a refusal, whatever its cause, leaves no trace of the report that was created |
| ReportServices.ReportService.PardonTarget | src/modules/reports/report-admin-action.service.ts:201-341 | Refused for an unknown admin, another role or a wrong password; otherwise unban, unmute and clearing a strike lift what they name and dismiss the latest resolved report |
| ReportServices.ReportService.SubmitAppeal | src/modules/reports/report-appeal.service.ts:97-148 | An appeal that goes through costs the pair one strike at once, changes no other report and cannot be submitted again; a refused one changes nothing |
| TokenEpoch.AcceptedRoleIsCurrent | src/auth/passport/jwt.strategy.ts:26-70 | In every reachable state every signed token the guard accepts carries the role its user has now |
| TokenEpoch.OldEpochIsDead | src/auth/auth.service.ts:606-628 | After a logout-all, password reset, ban, disable or role change that takes effect, no token or refresh token of an earlier version is accepted in any later state |
| TokenEpoch.UnderWayIsOld | src/auth/auth.service.ts:181-250 | Everything signed, and everything a login or refresh under way will sign, is of the current or an earlier version |
| TokenEpoch.ClosedSessionStaysClosed | src/modules/session/session.service.ts:114-188 | A revoked or removed session accepts no token and no refresh ever again, also when the revoke lands between a refresh's checks and its rotation |
| TokenEpoch.RunExtends | src/modules/session/session.service.ts:114-235 | Over any run versions only grow, roles change only with them, and sessions keep their user and stay revoked |
| TokenCauses.EveryTokenStemsFromALogin | src/auth/auth.service.ts:181-250 | Every token signed in any run, by however many refreshes, goes back to a login of its user who was let in then and had the role and version the token carries |
| TokenCauses.UsersChange | src/modules/users/users.service.ts:217-257 | Field by field: which events change role, version, flags and ban of a user, and how |
| TokenCauses.SessionsChange | src/modules/session/session.service.ts:114-235 | Field by field: which events other than a refused refresh revoke, rotate or remove a session |
| TokenCauses.ValidationsSayWhy | src/auth/passport/jwt.strategy.ts:26-70 | Which refusal a token gets, and when |
| TokenCauses.RefreshesSayWhy | src/auth/auth.service.ts:442-509 | Which refusal a refresh token gets, and when |
| TokenEpoch.PasswordChangeClosesTheOthers | src/modules/users/user-password.service.ts:36-63 | Changing the password closes every other session the user has |
| TokenEpoch.LoginUnderWaySurvivesPasswordChange | src/modules/users/user-password.service.ts:36-63 | A login that checked the old password before the change and opens its session after it gets a token that is accepted if and only if its user may enter: active, not disabled, not banned, and of the version read before the change |
| TokenEpoch.RefreshRotatesOnce | src/auth/auth.service.ts:442-537 | After a refresh the new token passes, and the used one passes again if and only if it was signed in the same second |
| TokenEpoch.ReplacedTokenStaysRefused | src/auth/auth.service.ts:510-537 | A refresh token its session does not store is refused for good unless the very same token is signed again |
| TokenEpoch.RefreshGoesThroughIff | src/auth/auth.service.ts:442-509 | A refresh goes through if and only if its user is neither disabled nor banned and of the token's version, and the session is the user's, open, not expired, and stores this token |
| TokenEpoch.RefusedRefreshCloses | src/auth/auth.service.ts:455-505 | A refused refresh closes every session of a user who may not refresh, an expired session that is the user's, and otherwise changes nothing |
| TokenEpoch.ExpiredSessionEnds | src/auth/auth.service.ts:499-505 | Once a refresh of an expired session has been tried, no token of that session is accepted and none refreshes in any later state |
| TokenEpoch.SaveStartsAnEpochIff | src/modules/users/users.service.ts:720-737 | A save of a user read earlier raises the version if and only if it is still the one read; it stays in the order of epochs if and only if that holds, or one epoch has started and the role stays |
| TokenEpoch.TimelySaveEndsTheEpoch | src/modules/users/users.service.ts:720-737 | If the version is still the one read, no token signed before the save is accepted in any later state |
| TokenEpoch.TokenSurvivesTheSaveIff | src/modules/users/users.service.ts:720-737 | A token accepted before a late logout, reset or role change is accepted after it if and only if exactly one epoch has started since the read |
| TokenEpoch.TokenRevivesIff | src/modules/users/users.service.ts:720-737 | A token refused for its version is accepted again if and only if its version is one above the one read and its session is open; for a token ever signed this takes two epochs started since the read |
| TokenEpoch.CrossedUpdatesShareAnEpoch | src/modules/users/users.service.ts:720-737 | From any sound state, a role change that crosses a logout of all devices leaves the token of a login in between accepted with the role its user no longer has |
| TokenEpoch.CrossedUpdatesReviveAToken | src/modules/users/users.service.ts:720-737 | From any sound state, a role change that crosses two such logouts makes a token accepted again that the guard had refused |
| CrossedUpdates.OrderedThroughoutIff | src/modules/users/users.service.ts:720-737 | In every run with user updates as load and save, versions only grow and roles only change with them throughout if and only if every save finds the version it read, or one more and no other role to write |
| CrossedUpdates.AcceptedRoleIsCurrent | src/auth/passport/jwt.strategy.ts:26-70 | In every such run every signed token the guard accepts carries the role its user has now |
| CrossedUpdates.UndisturbedUpdateIsWhole | src/modules/users/users.service.ts:217-257 | Load and save in a row are the single step of the update |
| AuthServices.AuthService.ValidatePayload | src/auth/passport/jwt.strategy.ts:26-70 | A signed token is let in if and only if its user is active, neither disabled nor banned, of the token's version, and its session is open; the role handed on is the one the user has now |
| AuthServices.AuthService.RefreshTokens | src/auth/auth.service.ts:442-537 | Refreshes exactly when the checks pass, as the two steps of the machine do; a user who may not refresh has every session closed for good, an expired session is refused and, if the user's, closed for good, and every other refusal leaves the sessions as they were |
| AuthServices.AuthService.Login | src/auth/auth.service.ts:181-250 | A user banned when read gets no token and no session; anyone else gets tokens that the guard accepts, at any later time, if and only if the user as stored may enter with the version read earlier |
| AuthServices.AuthService.RotateSession | src/modules/session/session.service.ts:114-131 | Afterwards no token but the new one refreshes this session; a revoked session and all others stay as they were, and the invariant holds |
| AuthServices.AuthService.RevokeAllByUserId | src/modules/session/session.service.ts:175-232 | Exactly the sessions of that user, but for the one excepted, end up revoked, and the invariant holds |
| AuthServices.AuthService.LogoutAllDevices | src/auth/auth.service.ts:606-628 | Goes through unless the account is disabled, and then no token of that user signed so far is accepted in any later state |
| AuthServices.AuthService.ResetPassword | src/modules/users/user-password.service.ts:138-160 | Goes through unless the account is disabled, and then no token of that user signed so far is accepted in any later state |
| AuthServices.AuthService.UpdatePassword | src/modules/users/user-password.service.ts:36-63 | Every session of the user but the current one is closed in every later state; no new epoch starts |
| AuthServices.AuthService.SetDisabledState | src/modules/users/users.service.ts:217-257 | Disabling ends every token of the user signed so far, in every later state and so also after enabling again; enabling only clears the flag; repeating either is refused |
| AuthServices.AuthService.ChangeRoleBySuperAdmin | src/modules/users/users.service.ts:693-737 | Only a super admin with the right password changes the role of another, non-super-admin user to a different one, and then no token of that user signed so far is accepted in any later state |
| AuthServices.EndedStays | src/auth/auth.service.ts:606-628 | Revoking the sessions after an epoch event reopens nothing: no token signed before it is accepted in any later state |
| AuthServices.UndisturbedLogin | src/auth/auth.service.ts:181-250 | The two steps of a login with nothing in between leave one new session and a token that is accepted if and only if its user may enter |
| LoginLockout.CounterStaysWithinTen | src/auth/auth.service.ts:97-137 | However attempts on one account are timed, the failure counter never passes ten and no block is longer than five minutes |
| LoginLockout.TenIsReached | src/auth/constants/auth.constant.ts:32-40 | A concrete run reaches ten |
| LoginLockout.GuessesOverTime | src/auth/auth.service.ts:97-173 | Without a right password at most ten passwords are compared for every fifteen minutes begun, counted from any reachable state |
| LoginLockout.GuessesFromTheStart | src/auth/auth.service.ts:97-173 | In a run of wrong passwords on one account between two instants at most ten are compared for every fifteen minutes begun |
| LoginLockout.RunKeepsInvariant | src/auth/auth.service.ts:114-137 | Over any run the block reaches past the time the blocks of the window have eaten, and the counter is at most ten |
| LoginLockout.WrongPasswordBlocks | src/auth/auth.service.ts:114-137 | A wrong password is one failure more in a window of fifteen minutes from its first; the fifth to seventh block for a minute, the eighth and later for five minutes and more |
| LoginLockout.RightPasswordForgets | src/auth/auth.service.ts:148-173 | While the block lasts no attempt changes anything, right or wrong; otherwise a right password forgets all failures |
| LoginLockout.LoginGuard.RecordLoginFailure | src/auth/auth.service.ts:114-137 | The loop over the steps applies the block of the highest threshold reached |
| LoginLockout.LoginGuard.ValidateUser | src/auth/auth.service.ts:148-173 | Refuses exactly while blocked, announcing the remaining minutes rounded up; counts a wrong password; clears counter and block on a right one |
| RateLimit.IntervalBound | src/modules/realtime/realtime-chat-command.service.ts:69-81 | In any run from a fresh key at most 2 * limit - 1 events are accepted in any half-open interval as long as the window |
| RateLimit.WindowBound | src/redis/redis.service.ts:122-134 | Within a counting window at most limit events are accepted |
| RateLimit.BoundIsAttained | src/redis/redis.service.ts:122-134 | For every positive limit and every window of two seconds or more a run accepts 2 * limit - 1 events in such an interval |
| RateLimit.WaitingIsEnough | src/modules/realtime/realtime-chat-command.service.ts:75-81 | Whatever was tried in the meantime, the first event after the announced wait is accepted |
| RateLimit.EventLimiter.GetEventRateLimitState | src/modules/realtime/realtime-chat-command.service.ts:69-81 | Accepts by the counter of that user and event only, announces when that counter ends, and leaves all other counters alone |
| Typing.EverythingAgrees | src/modules/realtime/realtime-chat-command.service.ts:185-303 | In every run over any sockets, users and conversations: while a key lives the last broadcast says typing; with none alive and no notice waiting it does not; once the notices are handled the last broadcast says typing exactly for those who type |
| Typing.BroadcastsAgree | src/modules/realtime/realtime-event-bridge.service.ts:66-95 | That agreement is kept by every run from any state that has it, with expiry and its notice as separate steps |
| Typing.DrainSettles | src/modules/realtime/realtime-event-bridge.service.ts:66-95 | Handling the waiting notices settles every disagreement and touches no key |
| Typing.StartSays | src/modules/realtime/realtime-chat-command.service.ts:212-241 | A start adds its key and is announced exactly if the user had no key in that conversation |
| Typing.StopSays | src/modules/realtime/realtime-chat-command.service.ts:271-300 | A stop removes its key and is announced exactly if that was the only one |
| Typing.ExpiryAndNoticeSay | src/modules/realtime/realtime-event-bridge.service.ts:66-95 | An expiry drops the key and leaves one notice, which is announced exactly if no key is left when it is handled |
| CrossedTyping.CoveredThroughoutIff | src/modules/realtime/realtime-chat-command.service.ts:212-300 | In every run in which setting or deleting the key, counting and broadcasting are separate commands of any number of handlers, the others have been told the truth or are about to be told throughout if and only if no second key is set before the first is counted, no start is broadcast late and no stop is broadcast late |
| CrossedTyping.SettledRunsAgree | src/modules/realtime/realtime-event-bridge.service.ts:66-95 | A run from the start without such a crossing that leaves no handler and no notice behind has told the others typing last exactly if the user types |
| CrossedTyping.CrossedStartsAgreeIff | src/modules/realtime/realtime-chat-command.service.ts:212-241 | From any state in agreement, two sockets that set their keys before either counts are not announced, and the others are told the truth afterwards if and only if they had been told typing before; with no notice waiting, if and only if a key was alive before |
| CrossedTyping.ReversedBroadcastsAgreeIff | src/modules/realtime/realtime-chat-command.service.ts:222-237 | From any state in agreement, a start and the stop of the same key broadcast in the opposite order leave the truth if and only if another key is alive or a notice is waiting |
| CrossedTyping.LateStopAgreesIff | src/modules/realtime/realtime-chat-command.service.ts:276-300 | From any state in agreement, a stop broadcast after the start of another key leaves the truth if and only if the removed key was not the only one |
| CrossedTyping.UndisturbedHandlersAreSteps | src/modules/realtime/realtime-chat-command.service.ts:185-303 | The three commands of a handler in a row are the single step of typingStart, typingStop or an expiry notice |
| Typing.SubscriberReadsBack | src/redis/redis.service.ts:62-74 | Splitting an expired key at its colons gives back conversation, user and socket |
| Typing.PatternIsExact | src/redis/redis.service.ts:441-454 | Read as a glob, the pattern of a conversation and user matches a typing key if and only if it is theirs, for ids without colon and pattern characters |
| Typing.TypingStore.CountTypingConversations | src/redis/redis.service.ts:392-410 | For every iteration that returns each live key at least once the count is not below the number of live keys, zero if and only if there are none, and exact if and only if no key is repeated |
| Typing.TypingStore.TypingStart | src/modules/realtime/realtime-chat-command.service.ts:185-247 | Announces exactly a first key if and only if the iteration does not return that key twice; then only the announcement is missing; refreshed keys and limited requests announce nothing |
| Typing.TypingStore.TypingStop | src/modules/realtime/realtime-chat-command.service.ts:249-303 | Announces exactly the removal of the last key, whatever keys the iteration repeats |
| Typing.TypingStore.OnExpired | src/modules/realtime/realtime-event-bridge.service.ts:66-95 | Announces the stop exactly when no key of that user and conversation is left, whatever keys the iteration repeats |
| ConversationInvariants.EveryReachableConversationIsSound | src/modules/conversations/conversation-member.service.ts:64-295 | In every reachable state members are distinct and at most a thousand, a group's admin is a member, who accepted is a member, hidden-history entries are at most one per user and only of members, the pin is an undeleted message of the conversation, the last message is its newest, receipts name its messages, and no two direct chats have the same two users |
| ConversationInvariants.StepKeepsInvariant | src/modules/conversations/conversation-state.service.ts:48-102 | Each handler keeps all of that |
| ConversationInvariants.RemoveKeeps | src/modules/conversations/conversation-member.service.ts:227-295 | In particular removing a member, which the admin cannot do to himself |
| ConversationInvariants.AddKeeps | src/modules/conversations/conversation-member.service.ts:64-160 | In particular adding several members at once with duplicates and members among them |
| ConversationInvariants.DirectKeeps | src/modules/conversations/conversation-command.service.ts:52-187 | In particular creating or restoring a direct chat |
| ConversationInvariants.GroupKeeps | src/modules/conversations/conversation-command.service.ts:52-258 | In particular creating a group whose friends have accepted |
| ConversationInvariants.SoftDeleteKeeps | src/modules/messages/message-command.service.ts:295-385 | In particular deleting the pinned message, which clears the pin |
| ConversationInvariants.ReceiptsNeverMoveBack | src/modules/conversations/conversation-state.service.ts:303-348 | Message ids increasing, a receipt stays and never moves to an older message as long as its member is not removed |
| ConversationInvariants.LeavingWritesAReceipt | src/modules/conversations/conversation-member.service.ts:279-305 | A member who leaves is given a receipt by the system message about it, so receipts are not only of members |
| ConversationEffects.AddSays | src/modules/conversations/conversation-member.service.ts:64-195 | Which refusal, and otherwise exactly the eligible newcomers join, each once and with a visible entry of their own, and a message is posted |
| ConversationEffects.RemoveSays | src/modules/conversations/conversation-member.service.ts:227-324 | Which refusal, and otherwise exactly that member is gone from members, entries, acceptances and receipts, and a message is posted |
| ConversationEffects.ChangeAdminSays | src/modules/conversations/conversation-group-admin.service.ts:181-260 | Which refusal, and otherwise only the admin changes and a message is posted |
| ConversationEffects.DisbandSays | src/modules/conversations/conversation-group-admin.service.ts:74-116 | Which refusal, and otherwise exactly the group and its messages are gone |
| ConversationEffects.HideSays | src/modules/conversations/conversation-state.service.ts:154-253 | Which refusal, and otherwise only the own entry is hidden since now, and the acceptance withdrawn exactly towards a stranger in a direct chat |
| ConversationEffects.SoftDeleteSays | src/modules/messages/message-command.service.ts:295-385 | Which refusal, and otherwise exactly that message is deleted and a pin on it cleared |
| ConversationEffects.PinSays | src/modules/messages/message-pin.service.ts:39-79 | Which refusal, and otherwise exactly the pin changes |
| ConversationEffects.DirectSays | src/modules/conversations/conversation-command.service.ts:52-187 | Which refusal, and otherwise the chat found is shown and accepted again, or one of exactly these two is created, hidden for the other |
| ConversationEffects.GroupSays | src/modules/conversations/conversation-command.service.ts:52-258 | Which refusal, and otherwise a group of exactly the unblocked users with the creator as admin, accepted by him and his friends among them |
| ConversationEffects.UnknownConversationsAreRefused | src/modules/conversations/conversation-command.service.ts:281-289 | Whatever is asked of a conversation that is not there is refused for that reason and changes nothing |
| HandlerCommits.SoundThroughoutIff | src/modules/conversations/conversation-member.service.ts:64-324 | In every run of checks and commits of all fourteen kinds of handlers, crossing in any way, conversations and messages are sound throughout if and only if every commit still finds what it needs |
| HandlerCommits.CommitKeepsIff | src/modules/conversations/conversation-state.service.ts:48-348 | On any sound state a single commit that was prepared earlier keeps everything sound if and only if it finds what its kind needs |
| HandlerCommits.UndisturbedHandlerIsCheckAndCommit | src/modules/conversations/conversation-command.service.ts:52-303 | A handler with nothing between its checks and its commit does what the single step says |
| CrossedHandlers.HandOverCrossesRemovalIff | src/modules/conversations/conversation-group-admin.service.ts:181-260 | A hand-over, then a removal checked on the same conversation, by the old admin or by the member who leaves: admin, members and the whole invariant are sound if and only if somebody other than the new admin was removed |
| CrossedHandlers.RemovalCrossesHandOverIff | src/modules/conversations/conversation-member.service.ts:227-324 | The same when the removal commits first |
| CrossedHandlers.CrossedAdditionsIff | src/modules/conversations/conversation-member.service.ts:126-160 | Two additions checked on the same group: within a thousand members if and only if the members, the first addition and the newcomers of the second are; one history entry each if and only if they share nobody; the whole invariant if and only if they share nobody and there is room for all |
| CrossedHandlers.PinCrossesDeleteIff | src/modules/messages/message-pin.service.ts:39-79 | A pin committed before a deletion checked on the same conversation leaves everything sound if and only if the messages differ or the message was pinned when the deletion looked |
| CrossedHandlers.DeleteCrossesPinIff | src/modules/messages/message-command.service.ts:295-385 | A pin committed after the deletion leaves everything sound if and only if the messages differ |
| CrossedHandlers.HideCrossesRemovalIff | src/modules/conversations/conversation-state.service.ts:154-253 | Hiding a group after a removal checked on the same group leaves everything sound if and only if the hider is not the one removed or had a history entry |
| CrossedHandlers.RemovalAfterHideKeeps | src/modules/conversations/conversation-member.service.ts:227-324 | A removal that commits after the hiding always leaves everything sound |
| CrossedHandlers.AcceptCrossesRemovalIff | src/modules/conversations/conversation-command.service.ts:281-303 | Accepting after a removal leaves everything sound if and only if somebody else was removed |
| CrossedHandlers.RemovalAfterAcceptKeeps | src/modules/conversations/conversation-member.service.ts:227-324 | A removal that commits after the acceptance always leaves everything sound |
| CrossedHandlers.CrossedDirectsIff | src/modules/conversations/conversation-command.service.ts:116-258 | Two direct chats created after both queries found none leave one per pair if and only if their pairs differ |
| CrossedHandlers.SendCrossesDisband | src/modules/conversations/conversation-group-admin.service.ts:74-116 | A message committed after its group was disbanded is stored without a conversation; committed before, it goes with the group |
| ConversationServices.ConversationService.AddMembers | src/modules/conversations/conversation-member.service.ts:64-195 | Only a group admin adds; members, duplicates and ineligible users are skipped, nobody left or more than a thousand in all is refused without a change; the others become members with a visible history entry, a system message is posted, and the invariant stays |
| ConversationServices.ConversationService.RemoveMember | src/modules/conversations/conversation-member.service.ts:227-324 | Strangers, non-admins and the leaving admin are refused without a change; otherwise membership, history entries, acceptance and receipt of the member go, a system message is posted, and the invariant stays |
| ConversationServices.ConversationService.CreateDirectConversation | src/modules/conversations/conversation-command.service.ts:52-258 | Anything but two users that may talk is refused; an existing chat of the two is found and, if hidden for the creator, restored and accepted; otherwise one new chat is created, hidden for the other, and there is still only one per pair |
| ConversationServices.ConversationService.CreateGroupConversation | src/modules/conversations/conversation-command.service.ts:52-258 | Unnamed, too small and too large groups are refused; a group of the unblocked users is created with the creator as admin and his friends as accepting, or a group just created is returned |
| ConversationServices.ConversationService.AcceptFriends | src/modules/conversations/conversation-command.service.ts:196-219 | The loop collects the creator and then the friends in order |
| ConversationServices.ConversationService.ChangeAdminGroup | src/modules/conversations/conversation-group-admin.service.ts:181-260 | Only the admin hands over, and only to a member who has accepted, is usable and not blocked; admin and system message change, the invariant stays |
| ConversationServices.ConversationService.DisbandGroup | src/modules/conversations/conversation-group-admin.service.ts:74-116 | Only the admin disbands a group, and its messages go with it, so that no message is without a conversation |
| ConversationServices.ConversationService.HiddenHistory | src/modules/conversations/conversation-state.service.ts:154-253 | A member hides a conversation once: their one entry is set or added, and in a direct chat with somebody who is no friend the acceptance is withdrawn |
| ConversationServices.ConversationService.MarkAsRead | src/modules/conversations/conversation-state.service.ts:303-348 | A member sets their receipt to a message of the conversation unless the present one is newer |
| ConversationServices.ConversationService.AcceptConversation | src/modules/conversations/conversation-command.service.ts:281-303 | A member is added to those who accepted; accepting twice changes nothing |
| ConversationServices.ConversationService.CreateMessage | src/modules/messages/message-command.service.ts:59-230 | A member who may send posts a message that becomes the last one, restores hidden histories and moves the own receipt |
| ConversationServices.ConversationService.InsertMessage | src/modules/conversations/conversation-state.service.ts:48-74 | A message newer than all keeps the invariant, leaves the conversation hidden from nobody and moves the sender's receipt forward; members, the receipts of others and other conversations stay |
| ConversationServices.ConversationService.SoftDeleteMessage | src/modules/messages/message-command.service.ts:295-385 | Only the sender deletes an undeleted message that is no call summary, not while the conversation is hidden for them; a pin on it is cleared in the same step |
| ConversationServices.ConversationService.PinMessage | src/modules/messages/message-pin.service.ts:39-79 | The admin of a group or a member of a direct chat pins an undeleted message of the conversation that is no call summary |
| ConversationServices.ConversationService.UnpinMessage | src/modules/messages/message-pin.service.ts:81-109 | The same people unpin, and only the message that is pinned |
| Paging.MessagesAreComplete | src/modules/messages/message-query.service.ts:91-154 | Following the cursors ends, and the pages joined are the whole list at or above the hidden-history floor, in order and each message once, if and only if no boundary after a multiple of twenty separates two messages of the same time |
| Paging.WhoIsShown | src/modules/messages/message-query.service.ts:91-154 | No page has more than twenty messages, and without a tie at a boundary exactly the messages at or above the floor are shown |
| Paging.LogsAreComplete | src/modules/audit-log/audit-log.service.ts:256-310 | Following the cursors ends, and with unique ids the pages joined are always the whole list, also when the last page is full or empty |
| Paging.AllLogsAreShown | src/modules/audit-log/audit-log.service.ts:256-310 | From the first page on every log is shown, once and in order |
| Paging.CursorDropsAPrefix | src/modules/messages/message-query.service.ts:107-136 | Asking below a cursor gives what the previous answer held after all records at or above the cursor |
| Paging.FewerBelow | src/modules/messages/message-query.service.ts:148-153 | A cursor taken from a page lets strictly fewer records through |
| Paging.MessagesNeverGrow | src/modules/messages/message-query.service.ts:91-154 | The pages joined are never longer than the list, ties or not |
| Rfc3986.RoundTripIff | src/modules/media/utils/r2-presign.util.ts:26-43 | In both slash modes percent-decoding undoes the encoder if and only if every code unit is below 256 |
| Rfc3986.DecodeAfterEncode | src/modules/media/utils/r2-presign.util.ts:26-43 | Encoded text always decodes, to the text itself or to something longer |
| Rfc3986.MatchesTheStandardIff | src/modules/media/utils/r2-presign.util.ts:21-43 | The encoder equals percent-encoded UTF-8 if and only if the text is ASCII |
| Rfc3986.KeptCharacters | src/modules/media/utils/r2-presign.util.ts:26-43 | Exactly letters, digits, hyphen, dot, underscore and tilde are kept, and a slash between the parts of a path; everything else begins with a percent sign |
| PresignedUrls.QueryRoundTripIff | src/modules/media/utils/r2-presign.util.ts:90-109 | Splitting the canonical query at ampersands and equals signs and decoding gives back exactly the sorted parameters if and only if keys and values are made of code units below 256 |
| PresignedUrls.EncodedHasNoSeparator | src/modules/media/utils/r2-presign.util.ts:26-43 | Encoded text contains no separator, whatever it encodes |
| PresignedUrls.BeforeIsLexicographic | src/modules/media/utils/r2-presign.util.ts:90-109 | One key sorts before another if it begins it or has the smaller code unit where they first differ |
| PresignedUrls.ObjectKeyUnchangedIff | src/modules/media/providers/r2.service.ts:68-70 | The key of an upload goes into the URL unchanged, whatever the file is called, exactly when folder and random id are plain |
| PresignedUrls.SanitizingIsIdempotent | src/modules/media/providers/r2.service.ts:178-180 | A sanitized name has only letters, digits, dot, underscore and hyphen, and sanitizing it again changes nothing |
| PresignedUrls.DashLaws | src/modules/media/providers/r2.service.ts:178-180 | Every run of ECMAScript white space becomes one hyphen and everything else stays |
| PresignedUrls.KeepLaws | src/modules/media/providers/r2.service.ts:178-180 | Letters, digits, dot, underscore and hyphen stay in order and everything else goes |
| Relationships.OneRecordPerPair | src/modules/relationships/relationship-request.service.ts:120-165 | In every run of whole handlers there is at most one record per unordered pair, between two different users, and blockedBy names one of the two exactly when the record is a block |
| Relationships.BlockHolds | src/modules/relationships/relationship-block.service.ts:26-118 | A block holds through every run until the very user who set it unblocks that target |
| Ties.TiesFollowTheTable | src/modules/relationships/relationship-request.service.ts:40-284 | Over any run of whole handlers the tie of two users, strangers, asked, friends or blocked, is what their own moves make of it by a table of six moves, whatever everybody else does |
| Ties.HandlersFollowTheTable | src/modules/relationships/relationship-block.service.ts:26-118 | Every handler moves the tie of its two users, or refuses with the reason, as that table says, and leaves every other tie alone |
| Relationships.StepKeepsInvariant | src/modules/relationships/relationship-request.service.ts:40-284 | Each handler keeps the records sound and unique |
| Relationships.BlockedBatchIsExact | src/modules/relationships/relationship-query.service.ts:88-127 | The batch query returns, without duplicates, exactly the targets for which checkIsBlocked holds |
| Relationships.FriendBatchIsExact | src/modules/relationships/relationship-query.service.ts:156-189 | The batch query returns, without duplicates, exactly the targets for which checkIsFriend holds |
| Relationships.FriendsAreNotBlocked | src/modules/relationships/relationship-query.service.ts:65-151 | No pair is friends and blocked at once |
| CrossedRequests.UniqueThroughoutIff | src/modules/relationships/relationship-request.service.ts:120-165 | In every run of look-ups, index-guarded inserts, acceptances, overwriting blocks and whole handlers the records stay sound and one per pair throughout if and only if no insert finds the record of the other direction |
| CrossedRequests.StepKeepsIff | src/modules/relationships/relationship-block.service.ts:26-61 | A single command, both look-ups of a block included, keeps the records sound and one per pair if and only if it is no such insert |
| CrossedRequests.CrossedRequestsBreakUniquenessIff | src/modules/relationships/schemas/relationship.schema.ts:30 | On any sound store, two creations that found nothing and pass the index leave one record per pair if and only if they are not the two directions of one pair |
| CrossedRequests.BlockTakesEffectIff | src/modules/relationships/relationship-block.service.ts:26-61 | Of a block that found no record at first, whatever others do before its last command, that command leaves the target blocked if and only if the second look-up found nothing and the index lets the record in |
| CrossedRequests.BlockTurnsIntoFriendship | src/modules/relationships/relationship-request.service.ts:130-151 | From any sound store, a friend request of the target between the two look-ups of a block ends with the two as friends and nobody blocked |
| CrossedRequests.BlockHoldsThroughoutIff | src/modules/relationships/relationship-block.service.ts:62-86 | Until its author lifts it, a block holds throughout a run of single commands and whole handlers if and only if nobody who found the record before it was a block writes over it |
| CrossedRequests.CrossedBlocksKeepTheFirstIff | src/modules/relationships/relationship-block.service.ts:70-118 | Of two blocks that found the same record the later keeps the first if and only if both are by the same user, and the later one's unblock leaves nobody blocked |
| CrossedRequests.UndisturbedBlockIsWhole | src/modules/relationships/relationship-block.service.ts:26-86 | The commands of a block in a row are its single step |
| CrossedRequests.UndisturbedRequestIsWhole | src/modules/relationships/relationship-request.service.ts:120-165 | The commands of a request in a row are its single step |
| RelationshipServices.RelationshipService.CreateRequest | src/modules/relationships/relationship-request.service.ts:120-165 | The handler refuses or does exactly what is specified, accepting the request that was waiting if there is one |
| RelationshipServices.RelationshipService.AcceptRequest | src/modules/relationships/relationship-request.service.ts:40-75 | Only the recipient of a pending request accepts it |
| RelationshipServices.RelationshipService.DeleteRelationship | src/modules/relationships/relationship-request.service.ts:172-241 | Only a record of the expected status between the two users is removed |
| RelationshipServices.RelationshipService.BlockUser | src/modules/relationships/relationship-block.service.ts:26-86 | A success leaves the target blocked by the user; a block by either side refuses |
| RelationshipServices.RelationshipService.UnblockUser | src/modules/relationships/relationship-block.service.ts:91-118 | Only the one who blocked can unblock, and then the pair is not blocked |

## Left out

- Controllers, modules, DTO validation, mail, push, Cloudinary and R2 traffic, Google login: plumbing over libraries.
- Socket rooms and emitted payloads, but for the typing broadcasts.
- Hashing, signing, bcrypt and HMAC: a hash is equal exactly for equal tokens, a password check is a flag.
- Expiry of access tokens: the guard of the model accepts at least what the code accepts.
- The cron loop of cleanupStuckCalls and the disconnect handler: they issue the same conditional updates, which are events of the call machines.
- Call rate limit, call tokens, heartbeats and signalling: no effect on call records.
- The daily limit of reports per reporter and the evidence upload of `create`: an easy counter.
- Concurrent transactions of two resolutions: a transaction is one step, so two strike counts that miss each other are not covered.
- Report notes, notifications and audit events.
- The orphan-media cron and references from notifications and audit logs: the collector does not track them.
- Crashes between a database write and the queue insert, and the job queue itself.
- `bulkWrite` failures and retries inside MongoDB transactions.
- Two handlers that load the same user and save bans, mutes or flags over each other: only version and role of such saves are decided; a save of a penalty or pardon on a user is one step.
- Message ids that do not increase in the order of commits, and write conflicts that abort a transaction: an aborted commit writes nothing.
- Media removals other than uploads as separate commands: deleting an avatar and the collector are one step each.
- Unseen flags, conversation names and avatars, editing of messages, call history: easy members.
- Serializers, admin lists with skip and limit, statistics, device names, date formatting.
- Paging.MessagesAreComplete: assumes that records of equal time come in the same order in every query.
