# EtkinLink protocols, modelled and proved in Dafny

EtkinLink is a mobile application for attending events together, with its server side in Supabase edge
functions, SQL functions and a Cloudflare edge worker. Most of it is screens and thin calls. This project
models the parts that are protocols and proves what they promise:

- **Account deletion** (`DeletionProtocol`, `DeletionSystem`, `DeletionSafety`, `DeletionPrograms`,
  `DeletionAnswers`, `DeletionBound`, `DeletionFolders`, `DeletionClient`). The handler and the continuation worker drive one persisted
  phase machine with compare-and-set writes, recovery after lost races, paged removal of stored photos and a
  client that asks at most three times. A process is suspended at one dependency call and resumed by its
  reply. `DeletionSystem` interleaves any number of them over one database, Auth service and bucket;
  `DeletionPrograms` writes the same code as imperative methods, each call of which is checked against the
  suspended process, so the results about the system are results about the methods.
- **Profile photos** (`PhotoPaths`, `PhotoLock`, `PhotoCleanup`, `PhotoOrphans`, `PhotoPrograms`). The
  per-owner promise chain, tombstones in memory and in secure storage, upload, commit and rollback, with
  failing reads and writes, logouts and crashes as named faults.
- **Realtime controllers** (`Presence`, `PresenceRegistry`). Acquire, release, idle timers and removals as
  stretches of code between awaits, with the topics their sweeps share between pairs: an abstract machine, and
  the classes updated in place that refine it.
- **Push dispatch** (`WorkerPool`, `PushTickets`, `PushDelivery`). The cooperative pool under every
  scheduling, ticket normalization, and claims that deliver in batches, each POSTed through the retrying client,
  with every call free to fail.
- **Paging and feeds** (`MessagePaging`, `EventPaging`, `RssQueries`, `RssFeeds`).
- **Signatures and bounded fetching** (`ByteStrings`, `WorkerAuth`, `BoundedRead`, `HttpAttempts`,
  `UpstreamFetch`, `ExpoFetch`).

`Basics` holds what all share: `Option`, `Min`, `Max` and `Distinct`; `JsStrings` what the others need of JavaScript
strings: UTF-16 code units, `<`, `indexOf`, lower-casing.

## Assumptions

- Deletion: the SQL functions behave as the two migrations of 2026-08-30 define them (`begin`, `advance`, `get`,
  `list`, and uploads refused once a request row exists); each call is one atomic step; a call that threw may
  have taken effect in full, not at all, or for a removal in part. Auth users never come back under an id that has
  a request row. Paths are compared by any strict total order with the empty string least, in the safety results
  and in the worker's bounds; the handler's bounds need a database that compares as JavaScript's `<` does, since
  its own check refuses every other page (`HandlerRefusesExactlyOtherOrders`). User ids are lower-case UUID text.
- Photos: an error of the `replace_profile_photos` call means "not committed" and an upload error means "not
  stored"; generated ids are unused; photos passed as existing are live; one owner's replacements do not
  overlap. `NothingIsOrphaned` also assumes readable records, no crash, and not both failing writes and a logout;
  `FailedReadForgets`, `CrashOrphans` and `FailedWriteThenLogoutForgets` give, for each of the three, exactly the
  paths that are then orphaned, which they stay for good (`OrphanedForGood`).
- Presence: the channels a new controller makes after a sweep are its own.
- Push: a claim's tokens are distinct and one run at a time holds an event, as the claim function's leases and the
  table's unique key have it.
- Paging: rows committed after the first page are newer than the rows that page was taken from.
- The MAC is any function to 32 bytes; UTF-8 decoding and JSON parsing are any functions.

Findings that the code does not document:

- The worker refuses a page that holds an object named only by the owner's folder, which the SQL list returns and
  the handler accepts (`WorkerRefusesBareFolders`, with a bucket and reply in `BareFolderSplitsThePrograms`). The
  insert policy of 20260830130000 demands a generated name, so such an object is older than it (the policy of
  20260805220000:1146 asked only for the folder) or stored by the service role.
- Two conversations of different local users with one other user: the second acquire takes the presence channel of
  a controller that is held (`SharedWatchedUserLosesPresence`).
- An idle controller's removal can be dropped (`IdleRemovalCanBeDropped`, reached in `DroppedRemovalHappens`).
- A failed read of the tombstone record orphans objects at the next write (`FailedReadForgets`), and so does a crash
  at the moments `CrashIsHarmlessExactlyWhen` names.
- An item that does not map ends an event walk early (`UnmappedItemEndsTheWalk`); past the clamp that walk repeats
  for ever (`WalkNeverEnds`).

## Model

| member | source | states |
|---|---|---|
| DeletionSafety.CompletedMeansEmptyForGood | supabase/functions/delete-account/handler.ts:500-588 | In every interleaving of handler calls and worker claims, with lost replies, half-done removals and stops anywhere: once a row is `completed`, no object of its user is stored and the user has no Auth record, then and in every later state |
| DeletionSafety.AuthIsGoneFirst | supabase/functions/delete-account/handler.ts:397-498 | In every reachable state a row at or past `auth_deleted` has no Auth user, also when the deletion call threw but took effect |
| DeletionSafety.RemovalsAreSafe | supabase/functions/delete-account/handler.ts:522-562 | Every removal call of either program names only paths of its own user, takes nothing else away, and is made only while that user has no Auth record and the row is at or past `storage_deleting` |
| DeletionSafety.NoRemovalWhileUserExists | supabase/functions/delete-account/handler.ts:410-498 | While a user has an Auth record, an object of that user disappears only because the owner removed it |
| DeletionSafety.CursorStaysClear | supabase/functions/delete-account/worker.ts:240-273 | Whatever others do meanwhile, nothing at or below a process's own cursor remains stored, for any database collation |
| DeletionSafety.PhaseNeverDecreases | supabase/migrations/20260830130000_account_deletion_and_storage_hardening.sql:283-364 | Over any run a row keeps its user and its phase rank never decreases |
| DeletionSafety.NoPhaseIsSkipped | supabase/migrations/20260830130000_account_deletion_and_storage_hardening.sql:304-310 | In any run, a row at some phase has been at every earlier phase in an earlier state |
| DeletionSafety.SuccessIsTruthful | supabase/functions/delete-account/handler.ts:268-278 | A 200 with `deleted: true`, or a claim reported completed, is produced only when the user has a completed row, no stored object and no Auth record; this holds for good |
| DeletionSafety.WritesSucceedExactlyWhen | supabase/migrations/20260830130000_account_deletion_and_storage_hardening.sql:304-363 | A phase write is acknowledged exactly when it goes one phase on, or stays at `requested` or `storage_deleting`, from the phase the user's own row is at; then only that row changes, to the phase and error asked for |
| DeletionSafety.RecordingFailureKeepsPhases | supabase/functions/delete-account/handler.ts:213-237 | Recording a failure changes no phase, no owner, no Auth user and no object; acknowledged, it leaves its code in the row, and the call ends with that code |
| DeletionSafety.RecoveryIsSound | supabase/functions/delete-account/handler.ts:239-266 | After a lost compare-and-set a process goes on exactly when its read is answered and the database row is the same user's, at or past the phase it wanted, and it goes on from that row; otherwise it ends in an error |
| DeletionSafety.RetryAfterCompletionHasNoEffect | supabase/functions/delete-account/handler.ts:331-349 | A retry of a completed request reads once, changes nothing and answers 200 idempotently (or 502 if the read threw) |
| DeletionSafety.StepKeepsInvariant | supabase/functions/delete-account/worker.ts:226-279 | Every action of the system keeps the database consistent and every suspended process justified in what it will do next |
| DeletionSystem.FaultsAreAllowed | supabase/functions/delete-account/handler.ts:425-458 | A call that threw may have done nothing or all of its effect, a removal exactly any part of it |
| DeletionSystem.OwnCallKeepsConsistent | supabase/functions/delete-account/handler.ts:280-588 | A process's own call never marks a row past `auth_deleted` with the user present, nor `completed` with an object left, because of what the process knows when it makes it |
| DeletionSystem.JustificationIsStable | supabase/functions/delete-account/worker.ts:226-279 | What a suspended process relies on survives every step of anybody else |
| DeletionSystem.ResumeIsJustified | supabase/functions/delete-account/handler.ts:331-588 | A reply, with what was known before the call, justifies the next suspension point of handler and worker alike |
| DeletionSystem.ListIsJustified | supabase/migrations/20260830130000_account_deletion_and_storage_hardening.sql:385-424 | A first page above a cleared cursor covers everything up to its last path, an empty one everything |
| DeletionPrograms.Dependencies.Invoke | supabase/functions/delete-account/handler.ts:280-331 | An awaited call answers anything at any clock; it is accepted only if it is the call the process model has pending, so the programs below are the processes the safety results are about |
| DeletionPrograms.AdvanceWithConcurrentRecovery | supabase/functions/delete-account/handler.ts:239-266 | Makes one compare-and-set and, only if that threw, one read; returns the written row, or the row read back exactly if it is the same user's at or past the target phase, and otherwise none |
| DeletionPrograms.RecordFailure | supabase/functions/delete-account/handler.ts:213-237 | One compare-and-set from the row's phase to itself, then the 502 with that code |
| DeletionPrograms.RemoveStorage | supabase/functions/delete-account/handler.ts:500-571 | The paging loop with its cursor and cap: ends resumable at the cap, refused on a bad page, or past the last page |
| DeletionPrograms.RemoveInChunks | supabase/functions/delete-account/handler.ts:539-558 | The chunk loop removes exactly the accepted page, or stops with the failure recorded |
| DeletionPrograms.OpenRequest | supabase/functions/delete-account/handler.ts:331-395 | Reads or creates the row, with every refusal of owner, missing user and stale sign-in |
| DeletionPrograms.EnsureAuthDeleted | supabase/functions/delete-account/handler.ts:397-458 | Goes on only if the Auth user was seen absent; a thrown deletion is told from a lost reply by looking again |
| DeletionPrograms.OldSignInIsRefused | supabase/functions/delete-account/handler.ts:196-211 | With an existing Auth user in hand the handler answers 403 and stops exactly when there is no last sign-in, or the token or the last sign-in is more than 600,000 ms before or 60,000 ms after the clock; otherwise it goes on to make the request row or to delete the user |
| DeletionPrograms.OnlyRecentSignInsDelete | supabase/functions/delete-account/handler.ts:349-446 | Whatever the services answer: a request row is made and the Auth user deleted only for the caller, and only after an existing user was read whose last sign-in, like the token, is recent by the clock at that moment |
| DeletionPrograms.HandleDeletion | supabase/functions/delete-account/handler.ts:331-588 | Against any lister and any replies, one call ends after at most 10,011 dependency calls, removes at most 5,099 paths, only owned ones, strictly ascending; deletes only on a recent sign-in; and its outcome is that of the process model |
| DeletionPrograms.AdvancePhase | supabase/functions/delete-account/worker.ts:193-224 | The worker's compare-and-set with the same recovery: the row written, or read back if far enough, and its own error codes otherwise |
| DeletionPrograms.ProcessClaim | supabase/functions/delete-account/worker.ts:226-279 | Against any lister, one claim ends after at most 1,011 dependency calls and removes at most 599 paths, all owned |
| DeletionPrograms.UntrustedLister | supabase/functions/delete-account/handler.ts:502-562 | From any suspension point of either program: bounded calls, bounded removals, only owned paths, and for the handler strictly ascending above its cursor |
| DeletionPrograms.AscendingNeverRepeats | supabase/functions/delete-account/handler.ts:521-529 | Strictly ascending removals never name a path twice |
| DeletionAnswers.AnswersHaveCauses | supabase/functions/delete-account/handler.ts:331-588 | Whatever the services answer: each of the handler's fifteen errors comes with its own status and only from its own cause in the last calls and replies, each of a claim's seven likewise; a fresh confirmation only right after an empty list and the write that follows it, an idempotent one only from a row brought completed and with no list asked for, a resumable answer only once 5,000 paths (500 by a claim) were removed |
| DeletionBound.QuietCall | supabase/functions/delete-account/handler.ts:502-588 | An undisturbed call with N objects and room for B ends resumable with N - B left when N >= B, and completed with none left otherwise; for the worker under any database collation |
| DeletionBound.QuietRunExists | supabase/functions/delete-account/handler.ts:331-588 | From every point on track an undisturbed run to the end exists, so the exact bounds are about real runs |
| DeletionBound.NthCall | supabase/functions/delete-account/handler.ts:502-571 | With N objects the k-th undisturbed call answers 202 and leaves N - 5000(k+1) while k < N div 5000, then 200, then 200 idempotent |
| DeletionProtocol.OwnedPathMeaning | supabase/functions/delete-account/handler.ts:523-525 | A path is the user's exactly when it spells the user id unit by unit, in either ASCII case and without a slash, and then has a slash |
| JsStrings.LessMeaning | supabase/functions/delete-account/handler.ts:526-527 | One text is before another exactly when they agree up to a place where the first ends or has the smaller code unit |
| DeletionFolders.WorkerRefusesBareFolders | supabase/functions/delete-account/worker.ts:171-175 | On a page the handler accepts, the worker's check fails exactly when some path is only the owner's folder name |
| DeletionFolders.BareFolderSplitsThePrograms | supabase/functions/delete-account/handler.ts:521-531 | For every user there is a consistent database and an honest list reply whose page the handler goes on to remove and the worker refuses |
| DeletionFolders.ClaimMeetsFolder | supabase/functions/delete-account/worker.ts:226-279 | An undisturbed claim over a bucket with folder names, k paths before the first: resumable with 500 removed when k >= 500, otherwise refused with exactly the k div 100 whole pages before that name removed; under any collation |
| DeletionFolders.HandlerRefusesExactlyOtherOrders | supabase/functions/delete-account/handler.ts:521-531 | An honest page under any collation is refused by the handler exactly when two neighbours, the cursor included, are in the other order under `<`; the worker's check does not depend on the order |
| DeletionClient.ThreeCallsSuffice | mobile/src/features/profile/accountDeletionService.ts:39-79 | Three undisturbed calls confirm the deletion if and only if fewer than 15,000 objects were stored |
| DeletionClient.Client.GetOrCreateRequestId | mobile/src/features/profile/accountDeletionService.ts:23-37 | The stored id is reused, a new one is stored before it is used |
| DeletionClient.Client.DeleteOwnAccount | mobile/src/features/profile/accountDeletionService.ts:39-79 | Succeeds exactly when some call within the limit confirms and all before it asked to be called again; every call carries the same id, and the id is forgotten exactly on success |
| PhotoPaths.GeneratedPathsAreOwned | mobile/src/features/profile/profileService.ts:293-312 | Every path the app generates passes the tombstone filter and the upload check |
| PhotoPaths.OwnedPathMeaning | mobile/src/features/profile/profileService.ts:288-312 | The tombstone filter accepts exactly the paths of at most 1,024 units, without backslash or control character, whose first segment is the owner in any case, and whose later segments (there is one) are not empty, `.` or `..` |
| PhotoPaths.OwnUploadPathMeaning | mobile/src/features/profile/profileService.ts:466-472 | An existing photo is accepted exactly when its path is the owner's folder, a slash and a name without a slash |
| PhotoLock.OneAtATimeInCallOrder | mobile/src/features/profile/profileService.ts:314-333 | An operation starts only when all earlier ones have settled, failed or not, and nothing later has started |
| PhotoLock.EntryDroppedOnlyWhenIdle | mobile/src/features/profile/profileService.ts:322-330 | The map entry is absent exactly when every queued operation has settled and released |
| PhotoLock.SomeCallCanMove | mobile/src/features/profile/profileService.ts:314-333 | Unless all calls have released, some call can begin, settle or release |
| PhotoLock.ChainIsAFifoLock | mobile/src/features/profile/profileService.ts:314-333 | Each step of the promise chain is a step of a first-in first-out lock |
| PhotoCleanup.CleanupNeverDeletesALivePhoto | mobile/src/features/profile/profileService.ts:390-420 | Under any read and write failures, logouts and crashes: live photos keep their objects, no tombstone names a live photo, and no step takes a live or just-uploaded object away |
| PhotoCleanup.StepKeepsSafe | mobile/src/features/profile/profileService.ts:335-511 | Every action of cleanup, replacement, logout or crash keeps the condemned paths apart from live and in-flight ones |
| PhotoCleanup.JobCondemnsNothingNew | mobile/src/features/profile/profileService.ts:390-420 | A running cleanup works only on paths condemned before |
| PhotoOrphans.NothingIsOrphaned | mobile/src/features/profile/profileService.ts:455-511 | Whenever no replacement is under way, every stored object is live or has a tombstone that survives the tolerated faults |
| PhotoOrphans.StepKeepsTracked | mobile/src/features/profile/profileService.ts:335-511 | Every action keeps each object that is neither live nor in flight recorded, or carried by a queued job |
| PhotoOrphans.FailedReadForgets | mobile/src/features/profile/profileService.ts:351-355 | After a failed read the next write of the record orphans exactly the tombstones that were not in memory when the job began, not among its additional paths and not named by a waiting job |
| PhotoOrphans.FailedWriteThenLogoutForgets | mobile/src/features/profile/profileService.ts:362-374 | A failed write, a logout and two refused removals orphan exactly the job's paths that no try removed, the old record did not hold and no waiting job names |
| PhotoOrphans.OrphanedForGood | mobile/src/features/profile/profileService.ts:335-511 | Under any faults, a stored object that is neither live, nor in flight, nor condemned anywhere stays so for the rest of the run |
| PhotoOrphans.CrashOrphans | mobile/src/features/profile/profileService.ts:390-511 | A crash at any moment orphans exactly the uploads under way and the dead stored paths that a job carries (with failing writes, also those in memory) and the record does not hold |
| PhotoOrphans.CrashIsHarmlessExactlyWhen | mobile/src/features/profile/profileService.ts:390-511 | A crash leaves no orphan exactly when nothing is in flight and every dead stored path that a job carries is on record |
| PhotoOrphans.CrashAfterCommitOrphansReplacedPhotos | mobile/src/features/profile/profileService.ts:490-508 | A crash between the commit and the first write after it orphans every replaced photo |
| PhotoOrphans.LostCommitReplyIsUnsafe | mobile/src/features/profile/profileService.ts:490-508 | If the server committed but answered an error, the rollback stays safe exactly when the replacement brought no new photo |
| PhotoOrphans.StopBeforeAcknowledgementIsHarmless | mobile/src/features/profile/profileService.ts:400-419 | A stop between deletion and acknowledgement leaves tombstones only of objects already gone |
| PhotoPrograms.Device.RemoveObjects | mobile/src/features/profile/profileService.ts:377-388 | One removal call for all paths, and a second exactly if the first failed; success removes all of them, failure nothing else |
| PhotoPrograms.Device.RetryPendingCleanup | mobile/src/features/profile/profileService.ts:390-420 | Reads the record; if anything is pending it is saved, removed in at most two calls for all of it, and forgotten once removed. Done exactly if nothing was pending or a removal succeeded; then all of it is gone and memory is empty, otherwise memory holds it all and nothing else was touched |
| PhotoPrograms.Device.UploadAll | mobile/src/features/profile/profileService.ts:463-489 | Uploads the new photos in order up to the first photo that is refused or fails; ready to commit the chosen paths exactly if there is none, otherwise rolled back with a cleanup of the uploads |
| PhotoPrograms.Device.Commit | mobile/src/features/profile/profileService.ts:490-508 | Live paths become the new ones exactly on success; then the replaced paths are cleaned up, otherwise the uploads |
| PhotoPrograms.Device.ReplaceProfilePhotos | mobile/src/features/profile/profileService.ts:455-511 | Makes its calls in order: cleanup, uploads, commit, cleanup. Succeeds exactly when there are 3 to 6 photos, every existing path is accepted, and no upload and not the commit failed. On return every live path is stored and every stored object is live, in memory or on record; the live set is the chosen one on success and unchanged otherwise |
| Presence.CountsAreExact | mobile/src/features/messages/useConversationPresence.ts:88-154 | In every reachable state `consumers` is the number of outstanding handles (the clamp at 0 never acts), a set timer means none, and a pair has at most one controller with channels |
| Presence.StepKeepsInvariant | mobile/src/features/messages/useConversationPresence.ts:114-154 | Every action keeps maps, timers and counts in order, with any users |
| Presence.HeldControllersStayUp | mobile/src/features/messages/useConversationPresence.ts:114-141 | With one user per pair and per watched user, a controller somebody holds has its channels and is the pair's entry |
| Presence.ChannelsAreTakenExactlyWhen | mobile/src/features/messages/useConversationPresence.ts:114-154 | For every action and controller: a channel of it goes exactly when an acquire meets it as another user's entry, or finds no entry and sweeps the watched user's presence over it, or when the sweep after an awaited removal, the app's own presence sweep, or its idle timer with nobody holding it meets it |
| Presence.OneCurrentUserKeepsChannels | mobile/src/features/messages/useConversationPresence.ts:114-141 | In a run whose mounts and app presence are one user's, who does not chat with themselves, a controller somebody holds has its channels and is the pair's entry |
| Presence.SharedWatchedUserLosesPresence | mobile/src/features/messages/useConversationPresence.ts:127-131 | Two mounts of different users that watch one other user: the second acquire takes the presence channel of the controller the first one holds |
| Presence.IdleRemovalCanBeDropped | mobile/src/features/messages/useConversationPresence.ts:100-112 | An idle timer's removal is dropped exactly when another removal of the pair is in flight |
| Presence.DroppedRemovalHappens | mobile/src/features/messages/useConversationPresence.ts:100-154 | A run from the empty registry in which that happens: the controller then stays up with nobody holding it and no timer set |
| Presence.SettledRemovalLeaves | mobile/src/features/messages/useConversationPresence.ts:105-111 | In every run, a removal that settles leaves the map: before it the pair's removal was in flight and unsettled, after it the pair has none and the number counts as settled |
| Presence.WaitersAwaitTheirPair | mobile/src/features/messages/useConversationPresence.ts:119-126 | Whoever awaits a removal awaits one that has settled or that is the one in flight for their pair, so nobody waits on a forgotten one |
| Presence.IdleTimerRemovesExactlyWhen | mobile/src/features/messages/useConversationPresence.ts:149-153 | Over every run: a fired idle timer meets a controller nobody holds, and removes it, entry and both channels, exactly when no removal of the pair that ever began is unsettled |
| Presence.PairsHaveOneKey | mobile/src/features/messages/presence.ts:20-27 | Two users have one key in either order, and no other pair has it |
| Presence.HandleIsThePairsEntry | mobile/src/features/messages/useConversationPresence.ts:127-141 | Whoever gets a handle gets the pair's entry: the one found, its idle timer cleared and its count one up, or, only if there was none, a new one for its own two users with both channels |
| Presence.LastHandleStartsTheTimer | mobile/src/features/messages/useConversationPresence.ts:143-149 | Giving a handle back takes the count down by one and starts the idle timer exactly if nobody else holds the controller |
| Presence.MountAwaitsRemoval | mobile/src/features/messages/useConversationPresence.ts:119-120 | A mount while the pair's removal is in flight waits for it and touches nothing |
| Presence.CancelledAcquireIsReleased | mobile/src/features/messages/useConversationPresence.ts:215-262 | An effect that unmounts while it acquires gives the handle back as soon as it gets it; any other keeps it |
| PresenceRegistry.Registry.BeginControllerRemoval | mobile/src/features/messages/useConversationPresence.ts:100-112 | One removal of a pair at a time: the flight in progress, or a new one after detaching |
| PresenceRegistry.Registry.RemoveController | mobile/src/features/messages/useConversationPresence.ts:88-98 | The entry goes only if it is this controller; its channels go |
| PresenceRegistry.Registry.LookUp | mobile/src/features/messages/useConversationPresence.ts:114-141 | Take the entry, start a removal of another user's, or sweep, as the abstract lookup says |
| PresenceRegistry.Registry.CreateController | mobile/src/features/messages/useConversationPresence.ts:44-86 | A new controller becomes the pair's entry and no other controller changes |
| PresenceRegistry.Registry.TakeOrCreate | mobile/src/features/messages/useConversationPresence.ts:127-140 | After the sweep the entry found now is taken, or a new controller |
| PresenceRegistry.Registry.ReleaseController | mobile/src/features/messages/useConversationPresence.ts:143-149 | The count goes down, clamped at 0, and the idle timer is set when nobody is left |
| PresenceRegistry.Registry.OnIdle | mobile/src/features/messages/useConversationPresence.ts:149-153 | The timer's callback removes the controller only if still nobody holds it |
| WorkerPool.MapWithConcurrency | supabase/functions/push-dispatch/index.ts:222-243 | Under every scheduling: each item handed out at most once and in order, exactly min(limit, n) calls in flight at the peak, and without a throw every result belongs to its item |
| WorkerPool.AllSettled | supabase/functions/push-dispatch/index.ts:226-242 | When no runner can go on, either all items are done or some call threw |
| PushTickets.NormalizedTicketsMatchMessages | supabase/functions/push-dispatch/index.ts:170-220 | Accepted tickets are one per message, in order, well formed and with the sender's status; refused exactly on missing data, a wrong count or one bad ticket |
| PushTickets.TicketsKeepTheirFields | supabase/functions/push-dispatch/index.ts:183-220 | Exactly which raw tickets are refused, and which of their fields an accepted one keeps, by status, id, message and error text |
| PushTickets.VerdictsFollowErrors | supabase/functions/push-dispatch/index.ts:371-388 | A ticket counts as sent exactly if it is ok, as an invalid token exactly if its error is DeviceNotRegistered, and as retryable exactly if it is one of MessageRateExceeded, ExpoServerError, InternalServerError and ServiceUnavailable |
| PushTickets.VerdictsAddUp | supabase/functions/push-dispatch/index.ts:371-388 | The four counters of any tickets add up to their number |
| PushDelivery.Chunks | supabase/functions/push-dispatch/index.ts:153-159 | The pieces concatenate to the items, none empty or too long, only the last one shorter |
| PushDelivery.StatusIsDecidedByTickets | supabase/functions/push-dispatch/index.ts:424-436 | When all batches were answered: `failed` exactly if some ticket reports one of the four passing errors, `cancelled` exactly if none is ok and none reports one, else `sent`; the last `failed` arm is unreachable |
| PushDelivery.UpsertWritesItsRows | supabase/functions/push-dispatch/index.ts:406-413 | The upsert writes each row its own status and touches no other |
| PushDelivery.CountBatch | supabase/functions/push-dispatch/index.ts:371-404 | One batch's counters, invalid tokens and rows are those of its verdicts |
| PushDelivery.Notification.SendBatch | supabase/functions/push-dispatch/index.ts:245-294 | One delivery call for tokens without a sent row: one POST of the whole batch per attempt, one to three, fewer than decided only if the run stops; one well-formed ticket per message from the last payload, or an error that is worth retrying exactly when three POSTs were made and the last failed for the moment only |
| PushDelivery.Notification.SaveBatch | supabase/functions/push-dispatch/index.ts:406-413 | The rows are written whole or not at all, whatever the answer, and a sent row stays final |
| PushDelivery.DeliverBatches | supabase/functions/push-dispatch/index.ts:354-424 | Either all batches were answered and saved, with counters, rows and disabled tokens those of their tickets, or the batch that broke off ends it: its tickets alone may be unsaved, and each token of a batch begun is in one to three POSTs |
| PushDelivery.TryDeliver | supabase/functions/push-dispatch/index.ts:318-466 | Pending is exactly the tokens without a sent row; delivered is the number of ok tickets, and with failed the number of pending ones; the ending says which call went wrong |
| PushDelivery.ProcessClaimedNotification | supabase/functions/push-dispatch/index.ts:296-500 | One claim with its catch block: stopped exactly if a call was lost, thrown exactly if the database refused one. One delivery call per unsent token in claim order, one to three POSTs of it; rows exactly as the saved tickets say, at most one batch unsaved; disabled are only tokens whose ticket says DeviceNotRegistered, and all of them unless it broke off; the status follows from the tickets' error texts, or from the provider's error, and is never written without its cause |
| PushDelivery.ProcessClaims | supabase/functions/push-dispatch/index.ts:318-352 | Over any claims of one event, failed or stopped anywhere: a token with a sent row is in no further POST and its row stays sent; before that each claim POSTs it at most three times |
| PushDelivery.NothingFollowsSent | supabase/functions/push-dispatch/index.ts:354-413 | The log form of the same: after a token's sent row is written no entry of the log names that token |
| MessagePaging.PageIsDetermined | mobile/src/features/messages/messageService.ts:164-177 | Every request has exactly one answer, whatever rows there are |
| MessagePaging.WalkReadsEachMessageOnce | mobile/src/features/messages/messageService.ts:156-185 | However many newer rows are inserted meanwhile, the walk reads strictly newest first by creation time and then id, is at its end exactly after n div 35 + 1 pages, and has then read each message of the first moment exactly once |
| MessagePaging.WalkGoesOn | mobile/src/features/messages/messageService.ts:178-184 | A walk can go on exactly when it is not at its end |
| MessagePaging.LateRowIsMissed | mobile/src/features/messages/messageService.ts:172-175 | However the rows change, a row not read when the cursor has reached or passed its key is read by none of the pages that follow |
| EventPaging.PageMeaning | supabase/functions/etkinlik-api/index.ts:312-343 | Offset and size are clamped to 0..1,000,000 and 1..50; the page holds what maps of that stretch; a next offset is offered exactly when it is full, every item of it maps and more is left |
| EventPaging.FullPages | supabase/functions/etkinlik-api/index.ts:338-343 | As long as pages are full, map and start within the clamp, offsets grow by `take` and the list is read in order |
| EventPaging.WalkReadsTheListOnce | supabase/functions/etkinlik-api/index.ts:312-343 | When every item maps, the walk ends having read the list exactly once if and only if its last page starts at or below 1,000,000 |
| EventPaging.WalkNeverEnds | supabase/functions/etkinlik-api/index.ts:312-315 | On a longer list than the clamp plus one page the walk goes on for ever, rereading the last window |
| EventPaging.WalkReadsTwice | supabase/functions/etkinlik-api/index.ts:312-315 | Between the two, the walk ends but has read some items twice |
| EventPaging.UnmappedItemEndsTheWalk | supabase/functions/etkinlik-api/index.ts:332-342 | An item that does not map ends the walk with its page; what is read is complete exactly when nothing after that page maps |
| RssQueries.BaseQueries | mobile/src/features/events/rssEventService.ts:466-525 | On the catalogue's maps: errors exactly for an unknown city, an empty catalogue or a category (the first) that is neither a format nor a category nor `tiyatro` with a stage format; otherwise distinct queries, exactly everything offered, or the format, category and stage format of the selected categories, all for the chosen city |
| RssQueries.AddSelected | mobile/src/features/events/rssEventService.ts:495-523 | One selected category adds its format, its category and for `tiyatro` the stage format, and is matched exactly if the catalogue has one of them |
| RssQueries.BaseQueriesKeepTheFilter | mobile/src/features/events/rssEventService.ts:466-525 | Every base query keeps the chosen city and names at most one id, and with categories selected exactly one |
| RssQueries.PartitionsRefine | mobile/src/features/events/rssEventService.ts:534-551 | A partition keeps city and selected id, names two ids and is not split further |
| RssQueries.SplitsMeet | mobile/src/features/events/rssEventService.ts:539-550 | Splitting a format by categories and a category by formats meet in exactly the one query that names both |
| RssQueries.PartitionsAreParts | mobile/src/features/events/rssEventService.ts:534-551 | The partitions of a query for one format (category) are exactly those that add one category (format) of the catalogue; other queries have none |
| RssQueries.RenderedOneId | mobile/src/features/events/rssEventService.ts:478-492 | The URL text of a query for one format or category, with and without a city |
| RssQueries.RenderedTwoIds | mobile/src/features/events/rssEventService.ts:544-550 | The URL text of a partition, with and without a city |
| RssQueries.RenderIsInjective | mobile/src/features/events/rssEventService.ts:478-482 | Two queries with numeric ids are written as the same URL only when they are the same |
| RssFeeds.FetchSet | mobile/src/features/events/rssEventService.ts:660-692 | Every URL asked for once in order, up to an abort; the signal is looked at before and after every four requests and nowhere else; the feeds are those that came |
| RssFeeds.Split | mobile/src/features/events/rssEventService.ts:701-708 | The second round is exactly the partitions of the full feeds that were not asked for |
| RssFeeds.Merge | mobile/src/features/events/rssEventService.ts:713-716 | A map of every id seen to its last event, in the order in which ids first arrived |
| RssFeeds.EventsArriveInOrder | mobile/src/features/events/rssEventService.ts:711-716 | The events of any requests are those of the feeds that came, one feed after another |
| RssFeeds.FetchEvents | mobile/src/features/events/rssEventService.ts:694-728 | It gives up only when a catalogue page did not come, did not know the filter, or the signal was found set. Otherwise base feeds are those of the page asked for, each feed that came with 50 events is split by the page asked for then, and the result holds each id once in order of arrival, as its last event, under the chosen city; none only when no feed held an event |
| RssFeeds.RequestsAreDistinct | mobile/src/features/events/rssEventService.ts:694-712 | The URLs of one search, written out, are pairwise different, whatever fails, and every one keeps the chosen city |
| ByteStrings.ConstantTimeEqual | supabase/functions/_shared/workerAuth.ts:1-11 | True exactly when the lengths agree as 32-bit words and the zero-padded bytes agree; for lengths below 2^32, exactly for equal byte sequences |
| ByteStrings.BitByBit | infra/cloudflare/etkinlink-edge/src/security.ts:25-32 | The two bit operators that the comparison folds with, digit by digit |
| ByteStrings.LongZerosPassForNothing | infra/cloudflare/etkinlink-edge/src/security.ts:25-32 | Beyond that length it is not equality: 2^32 zero bytes compare equal to none |
| ByteStrings.HexToBytes | infra/cloudflare/etkinlink-edge/src/security.ts:14-23 | Null exactly for an empty, odd or non-hexadecimal text, otherwise the bytes it stands for |
| ByteStrings.ReadWhatWasWritten | infra/cloudflare/etkinlink-edge/src/security.ts:10-23 | Decoding the hexadecimal form of any bytes gives the bytes back |
| ByteStrings.WriteWhatWasRead | infra/cloudflare/etkinlink-edge/src/security.ts:10-23 | Encoding what was decoded gives the text in lower case |
| ByteStrings.HexComparisonIgnoresCase | infra/cloudflare/etkinlink-edge/src/security.ts:123-133 | Comparing decoded bytes accepts exactly the texts that agree in lower case |
| WorkerAuth.CanonicalReadsBack | supabase/functions/_shared/workerAuth.ts:25-32 | With no line break in nonce and scope, the message cut at its first three line breaks gives back the decimal time stamp, the nonce, the scope and the body |
| WorkerAuth.CanonicalIsInjective | supabase/functions/_shared/workerAuth.ts:25-32 | Without line breaks in nonce and scope the signed message determines timestamp, nonce, scope and body |
| WorkerAuth.NewlineInScopeIsAmbiguous | supabase/functions/_shared/workerAuth.ts:25-32 | With a line break in the scope it does not |
| WorkerAuth.ShapesHaveNoNewline | supabase/functions/_shared/workerAuth.ts:68-76 | The shape checks rule line breaks out, and lower-casing keeps a nonce well formed |
| WorkerAuth.Authorize | supabase/functions/_shared/workerAuth.ts:61-99 | A request passes exactly when every shape check holds and it carries, in any case, the signature of its own parts; the result is the lower-case nonce, the scope and the timestamp |
| WorkerAuth.AcceptanceMeaning | supabase/functions/_shared/workerAuth.ts:61-99 | Acceptance spelled out: a secret of 32 units, scope and nonce character by character, a ten-digit timestamp within 300 seconds of the clock, and `v1=` with 64 hexadecimal digits that are the signature in any case |
| WorkerAuth.LeadingDigitCounts | supabase/functions/_shared/workerAuth.ts:61-99 | The number a time stamp header stands for: a digit in front of k others counts for ten to the k |
| WorkerAuth.SignedRequestsPass | supabase/functions/_shared/workerAuth.ts:34-99 | A request with well-formed parts passes exactly when its signature header is, in any case, the signature of its parts |
| WorkerAuth.OneSignatureOneRequest | supabase/functions/_shared/workerAuth.ts:61-99 | Two accepted requests with one signature agree in timestamp, nonce, scope and body exactly when their messages agree, which the MAC alone could fail to tell |
| BoundedRead.ReadingMeaning | supabase/functions/_shared/boundedJson.ts:37-60 | A body is assembled exactly when the stream does not break and fits the limit, and then it is the chunks in order |
| BoundedRead.StopMeaning | supabase/functions/_shared/boundedJson.ts:37-53 | What the reader holds never exceeds the limit; only a rejection or the first chunk too many stops it |
| BoundedRead.RefusalsHaveTheirCause | supabase/functions/_shared/boundedJson.ts:37-53 | Too large exactly when some unbroken beginning exceeds the limit, interrupted exactly when the first break comes within it |
| BoundedRead.ReadChunks | supabase/functions/_shared/boundedJson.ts:37-61 | The reading loop computes that result |
| BoundedRead.Assemble | supabase/functions/_shared/boundedJson.ts:56-61 | The byte array filled chunk by chunk at growing offsets is their concatenation |
| UpstreamFetch.ValueIsTheWholeBody | supabase/functions/ingest-events/upstreamHttp.ts:198-256 | A value is returned exactly when the headers allow it, the whole body fits, decodes and parses to it |
| UpstreamFetch.EachRefusalHasItsCause | supabase/functions/ingest-events/upstreamHttp.ts:198-256 | For each refusal, exactly which responses get it; too many bytes before a break refuse a body as too large, a break within the limit interrupts it |
| UpstreamFetch.OnlyTransientsAreRetried | supabase/functions/ingest-events/upstreamHttp.ts:85-91 | Another attempt follows exactly 429, 5xx, no answer, or a readable success whose body broke off within the limit; 3xx and every other status end the call |
| UpstreamFetch.FetchBoundedJson | supabase/functions/ingest-events/upstreamHttp.ts:258-334 | The loop's attempts, pauses and result, for every sequence of outcomes |
| UpstreamFetch.CallsAreBounded | supabase/functions/ingest-events/upstreamHttp.ts:258-334 | At most maxAttempts fetches and (maxAttempts - 1) * 10,000 ms asleep; a value decodes exactly the last answer's chunks within maxBytes |
| UpstreamFetch.FirstFinalAnswerDecides | supabase/functions/ingest-events/upstreamHttp.ts:286-331 | Two calls that saw the same answers made the same attempts and agree |
| UpstreamFetch.RetryDelay | supabase/functions/ingest-events/upstreamHttp.ts:157-190 | A pause never exceeds 10,000 ms; a Retry-After in seconds or as a date is honoured exactly up to that (section 10.2.3 of RFC 9110), and without a usable one it is at most 250 ms doubled per retry |
| ExpoFetch.FetchExpoJson | supabase/functions/_shared/expoHttp.ts:55-116 | The loop's attempts, pauses and result, for every sequence of outcomes |
| ExpoFetch.AttemptMeaning | supabase/functions/_shared/expoHttp.ts:66-107 | Tried again are exactly no answer, 408, 429 and 5xx; otherwise a success gives its JSON, a refused body the reader's error, any other status its own |
| ExpoFetch.JsonMeaning | supabase/functions/_shared/boundedJson.ts:1-61 | JSON is given exactly when the head allows it and the whole body fits, decodes and parses to it |
| ExpoFetch.CallsAreBounded | supabase/functions/_shared/expoHttp.ts:55-116 | At most three attempts and 20 seconds asleep, retries only after 408, 429, 5xx or no answer, an error without status exactly when the last attempt got no answer |
| ExpoFetch.RetryableMeansExhausted | supabase/functions/push-dispatch/index.ts:366-370 | A delivery counts as worth retrying exactly when the attempts ran out on an answer, or none, that would be tried again |
| ExpoFetch.RetryDelay | supabase/functions/_shared/expoHttp.ts:20-53 | Never more than 10,000 ms; a header in seconds or as a date is honoured exactly up to that; without a usable one between 300 ms doubled per attempt and that plus 149, up to 2,000 |
| HttpAttempts.TotalIsBounded | supabase/functions/ingest-events/upstreamHttp.ts:328-331 | Pauses of at most m ms add up to at most m times their number |

## Left out

- DeletionPrograms.HandleDeletion: starts at the first read of the request row; method, body, content type and token checks before it are not modelled.
- DeletionPrograms.ProcessClaim: one leased claim; the claim function, the lease and the drain loop with its counters are not modelled.
- DeletionPrograms.RemoveInChunks: the chunk size equals the page size in the code, so a page is always one chunk.
- DeletionClient.Client.DeleteOwnAccount: local storage always works, a stored id is always well formed, and the purge of photo tombstones after success is not modelled.
- DeletionClient.ThreeCallsSuffice: for calls undisturbed by other processes and failures, with a sign-in that stays recent.
- PhotoPrograms.Device.ReplaceProfilePhotos: runs without interference inside one call and with readable records; interleaving with other cleanups, logout and crashes is in the machine of PhotoCleanup and PhotoOrphans.
- PhotoPrograms.Device.RetryPendingCleanup: holds the lock from its start; waiting for it is in PhotoLock.
- PhotoCleanup.CleanupNeverDeletesALivePhoto: a malformed durable record, which the code deletes, and the purge after account deletion are not modelled; clearing memory once more when a running cleanup ends after a logout is another logout action.
- Presence.HeldControllersStayUp: the app's own presence channel is only a sweeper of its topic here, the client library's reuse of a channel object of the same topic is not modelled, nor are listeners, typing and sending.
- Presence.CountsAreExact: safety only; that an idle controller is removed in the end does not hold, because a removal can be dropped.
- WorkerPool.MapWithConcurrency: no item is `undefined`, and with a limit of 0 nothing is handed out, as in the code.
- PushDelivery.ProcessClaimedNotification: messages, time stamps, error texts, ticket ids and retry times of the rows are not modelled, nor the page limit of the database API on the completed rows.
- PushTickets.NormalizedTicketsMatchMessages: a JSON field is a string, missing, or something else.
- MessagePaging.WalkReadsEachMessageOnce: a message is its creation time and id; the other columns, deletions and read marks are not modelled.
- EventPaging.WalkReadsTheListOnce: the upstream list is fixed during the walk and reports its own length; non-integer `skip` and `take`, filters and caches are not modelled.
- RssQueries.BaseQueries: the catalogue is parsed and labels are normalized already; the order of the queries taken from the catalogue is any order.
- RssFeeds.FetchEvents: requests of a chunk are asked in list order; the ten-minute cache, shared requests, parsing of items and the remembered latest events are not modelled, and a failed request counts as failed whatever its error is.
- WorkerAuth.Authorize: works on code units and a digest given as a function; the secret's encoding and the nonce store are not modelled.
- WorkerAuth.CanonicalIsInjective: on the message as text; its UTF-8 encoding is one-to-one on texts without lone surrogates.
- UpstreamFetch.FetchBoundedJson: the URL allow list and the method check before the loop are not modelled; a timer is the `timedOut` flag of an attempt; delays are exact real arithmetic.
- ExpoFetch.FetchExpoJson: the clock and the random number are given; delays are exact real arithmetic.
- SQL of claims, leases, nonces and quotas, push receipts, the ingest loop, registration drafts, room rules, matching, caches and all screens: not modelled.
- Presence and deletion liveness under unfair scheduling is not modelled.
