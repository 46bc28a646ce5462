# Onboarding backend: durable state machines, modelled and proved

This project models the parts of the onboarding backend whose correctness spans many requests,
workers and transactions, and proves what they keep over every run. One Unit of Work transaction
is one atomic step; an exception is a rollback, so a failed step leaves the state as it was. UUIDs
are numbers compared for equality; a fresh UUID is one that was not used before. Times are
integers (reals in the rate limiters).

Most modules have the same shape. A value describes the stored rows; `Next` is one step and `Exec`
a run of steps in any order; lemmas state what holds over every run; a class updates the rows the
way the repository or service does and is proved to take exactly the step `Next` describes. What a
step does is stated beside it in terms of the stored rows alone: when it succeeds, with which error it fails,
what it writes, and what that adds up to over a run.

| file | what it models |
|---|---|
| TelegramOutbox | outbox messages with leases, owner tokens and bounded attempts |
| IdempotencyReceipts | claim, complete, fail and reclaim of idempotent operations |
| IndexingLease | the indexing claim on article versions, fenced by token and time |
| RefreshFamilies | refresh-token families, rotated in two transactions |
| CourseStructure, CourseGenerations, CourseOutcomes, CourseService, ProgressOrder, Recipients | course steps, revisions, snapshots, assignments and progress on one database, and what each operation does to it |
| LearningCursor, StepContent, CourseCursor | the block cursor of a content step, the blocks it counts, and the two on one course |
| Acknowledgement | document acknowledgement assignments and their summary |
| ManagerGraph | the bounded walk that guards manager edges, and the graph it keeps |
| QuizParser, QuizRoundTrip, QuizView, QuizAnswers, QuizIds, QuizScoring | the structured quiz engine |
| RateLimiter | the in-memory log and the Redis fixed window |
| RlsContext | the row-level-security context of a Unit of Work |
| Common, Json, Lists, Rounding, Statuses, Text | shared datatypes, JSON values, list loops, half-even rounding, string operations |

Where a property fails as one would first state it, the model keeps the code's behaviour and gives
the exact condition:

- A message marked retryable at the attempt limit is parked as pending for ever. Nothing is ever
  stuck exactly when callers ask for retries only below the limit (`NothingStuckIffCallersRespectLimit`);
  the delivery service does. Then every message that workers visit in time ends sent or failed
  (`AttendedMessageIsSettled`). `RetryAtTheLimitParks` is a run that parks a message.
- Detecting a reused refresh token kills its family for good exactly when no rotation of the family
  is in flight (`ReuseKillsForGoodIffNothingInFlight`); `ReplacementOutlivesReuse` is a run where one is.
- A quiz id cut at 64 characters may end in a space and is then not recognised when it is submitted;
  answers are recorded as ticked exactly when the ids survive stripping (`ChoiceIsRecordedIffIdsStable`),
  that is, for every choice the view offers, exactly when no id of the stored content is longer than 64
  characters with a space as its 64th (`EveryChoiceIsRecordedIffNoIdIsCut`). `CutQuizRejectsItsCorrectChoice`
  is a quiz that rejects its own correct choice.
- Rounding would turn 35 of 44 correct answers into a pass; with at most 43 questions it never does
  (`PassMeansFourFifths`, `FirstPromotedFail`), and the cap is 20.
- The Redis window allows 2 * limit calls in a closed interval of window length, and one fewer in a
  half-open one. Redis drops a key only when the time is past its expiry; when it is still there at the very
  instant of its expiry the closed bound is one lower too. Both cases are proved, the parameter `lingers`
  chooses (`ScriptWindowBound`), and both closed bounds are reached.
- Reordering reads at most 1000 steps. Its two-phase renumbering fails exactly when a step beyond those
  stands on a parking position (`Renumber`); up to 1000 steps it never does, and a course with positions 0 to 2000 always does.
- The general completion endpoint is not bound to the block cursor (`DirectCompletionSkipsBlocks`,
  `DirectCompletionGoesBack`). Over every run of all requests the cursor stays on the blocks and steps are
  done only at their last block exactly when every general completion that is not refused leaves the cursor at
  the last block (`SoundIffDirectAtLast`).
- Repeating an advance changes nothing, except that the first one on a row that was not started only starts
  it (`AdvanceIsIdempotentIff`).
- Logging out everywhere lasts until the next login exactly when no rotation of the subject is in flight
  (`LogoutLastsIffNothingInFlight`); `ReplacementOutlivesLogout` is a run where one is.
- The in-memory limiter reads its clock before it takes its lock, so calls can overtake each other. It answers
  as if it kept every call exactly when no call inside the window was pruned by a later one
  (`PrunedLimiterIsExact`). Calls at given times in a given order, each as often as one likes, keep a limit of
  one always, and any higher limit exactly when no call comes after one that pruned a call within a window of
  it (`LimitIsKeptIffNothingMissed`); calls in the order of their times never do (`OrderedCallsMissNothing`).
  `OvertakenCallsExceedTheLimit` passes every limit from two on.
- An indexing claim lost to a newer claim is lost whatever the clock. A claim whose lease ran out is lost
  exactly when its owner has no renewal or finalisation, stamped before the end of the lease, ahead of
  giving up and of the first claim stamped at or after that end (`ClaimIsLostIffNotUsedInTime`); with stamps in order
  it has none (`OrderedStampsComeTooLate`). `EarlierStampRenewsALapsedLease` is a run where it has one.

## Model

| member | source | states |
|---|---|---|
| TelegramOutbox.InvHolds | app/repositories/telegram_outbound.py:84-139 | over every run a row is `sending` exactly when it has an owner token and exactly when it has a lease, and each source has at most one row |
| TelegramOutbox.SourceKeepsItsContent | app/repositories/telegram_outbound.py:35-69 | a source names one row for ever and its first content is never overwritten |
| TelegramOutbox.TransitionSpendsBudget | app/repositories/telegram_outbound.py:84-301 | every statement that changes a row strictly lowers a natural-number measure |
| TelegramOutbox.BoundedFrom | app/repositories/telegram_outbound.py:84-301 | from any state: the attempt counter grows by exactly the granted claims, which stay within the attempts left, and transitions plus the remaining budget never exceed the initial budget |
| TelegramOutbox.MessageWorkIsBounded | app/repositories/telegram_outbound.py:35-301 | a message is claimed at most max_attempts times and changes state at most 2 * max_attempts times, over every run |
| TelegramOutbox.WakesUnlessTerminal | app/repositories/telegram_outbound.py:97-108 | a row that is not sent, failed or parked can be claimed or expired exactly from its due time or the end of its lease on; the others never |
| TelegramOutbox.TerminalRowsNeverChange | app/repositories/telegram_outbound.py:195-301 | sent, failed and parked rows are absorbing |
| TelegramOutbox.NothingStuckIffCallersRespectLimit | app/repositories/telegram_outbound.py:284-298 | no row is ever parked if and only if retryable failures are reported only while attempts remain |
| TelegramOutbox.RetryAtTheLimitParks | app/repositories/telegram_outbound.py:284-298 | from an empty outbox, with fresh tokens and any limit: enqueue, claim and retry up to the limit, and the message is parked |
| TelegramOutbox.AttendedMessageIsSettled | app/services/telegram_outbound.py:176-244 | after at most two visits for each attempt, each no earlier than the row is due or its lease has run out and with anything in between, a message never changes again, and is sent or failed if callers keep the attempt limit |
| TelegramOutbox.LostOwnerIsFencedForEver | app/repositories/telegram_outbound.py:245-301 | with fresh tokens, a worker that lost its claim never owns the row again and none of its marks takes effect |
| TelegramOutbox.OneMarkPerClaim | app/repositories/telegram_outbound.py:245-301 | one claim lets its owner mark the message at most once in every interleaving |
| TelegramOutbox.OutboundRepository.Enqueue | app/repositories/telegram_outbound.py:35-69 | inserts unless the source is known, and returns the stored row either way |
| TelegramOutbox.OutboundRepository.ClaimSource | app/repositories/telegram_outbound.py:84-139 | acquired exactly when a claimable row of the source exists, and then untouchable for others exactly until the lease asked for has passed; otherwise the existing row or none, and nothing changed |
| TelegramOutbox.OutboundRepository.ChooseDueBatch | app/repositories/telegram_outbound.py:155-178 | picks min(limit, due) claimable rows, none of which is due later than a claimable row left out |
| TelegramOutbox.OutboundRepository.ClaimDueBatch | app/repositories/telegram_outbound.py:141-193 | claims exactly that batch, owned by the caller's token and untouchable for others exactly until the lease asked for has passed |
| TelegramOutbox.OutboundRepository.ExpireExhaustedStale | app/repositories/telegram_outbound.py:195-218 | fails every stale row without attempts left, counts them, and leaves none |
| TelegramOutbox.OutboundRepository.MarkSent | app/repositories/telegram_outbound.py:245-272 | takes effect exactly for the current owner of a sending row |
| TelegramOutbox.OutboundRepository.MarkFailed | app/repositories/telegram_outbound.py:274-301 | takes effect exactly for the current owner; the new state is the repository's |
| TelegramOutbox.OutboundService.MarkFailed | app/services/telegram_outbound.py:267-310 | the service retries only below the limit, so no row is ever parked by it |
| TelegramOutbox.ClaimLastsForItsLease | app/repositories/telegram_outbound.py:84-139 | a granted claim counts one attempt and is neither claimable nor expirable up to the lease it asked for, and one or the other, by the attempts left, after it |
| TelegramOutbox.ClaimStandsUntilMarked | app/repositories/telegram_outbound.py:84-301 | while no clock passes the lease a claim asked for, with fresh tokens: its token owns the message exactly until it presents a mark, nobody else is granted a claim, and the row stays as it is |
| TelegramOutbox.SleepsUntilItWakes | app/repositories/telegram_outbound.py:84-218 | before it is due, or before its lease has passed, only its owner's mark changes a row |
| TelegramOutbox.RetryWaitsUntilDue | app/repositories/telegram_outbound.py:274-301 | after a retryable failure the message waits untouched and is claimable exactly from its new due time on while attempts are left |
| TelegramOutbox.NewMessageWaitsUntilDue | app/repositories/telegram_outbound.py:35-69 | a new message keeps its content and all its attempts and is claimable exactly from its due time on |
| TelegramOutbox.EnqueueOutcome | app/repositories/telegram_outbound.py:35-69 | a known source changes nothing, a new one adds exactly one row |
| TelegramOutbox.EndsAsReported | app/repositories/telegram_outbound.py:195-301 | over every run a message is sent exactly when one owner reported it sent, and failed exactly when it was given up for good or after its last attempt, each once |
| TelegramOutbox.DeliveryIsRecorded | app/repositories/telegram_outbound.py:245-272 | the time and the Telegram id reported with the delivery stay on the row for ever |
| TelegramOutbox.GivingUpIsRecorded | app/repositories/telegram_outbound.py:195-301 | the reason for giving up stays on the row for ever |
| TelegramOutbox.DueBatchMeans | app/repositories/telegram_outbound.py:155-178 | a batch holds claimable rows up to the limit, none due later than one left out, the older first among equals |
| IdempotencyReceipts.KeyKeepsItsRequest | app/repositories/idempotency_receipt.py:45-97 | a key names one receipt and one request hash for ever |
| IdempotencyReceipts.CompletedReceiptIsFrozen | app/repositories/idempotency_receipt.py:63-81 | nothing about a completed receipt ever changes |
| IdempotencyReceipts.CompletedExactlyOnce | app/repositories/idempotency_receipt.py:114-146 | over all workers and lease expiries, the successful completions of a key are one if it ends completed and none otherwise |
| IdempotencyReceipts.LaterClaimsGetTheResponse | app/services/idempotency.py:185-229 | every later claim with the same hash gets the completing call's response, any other a conflict |
| IdempotencyReceipts.DifferentRequestAlwaysConflicts | app/services/idempotency.py:197-205 | a claim with another hash conflicts after any run and changes nothing |
| IdempotencyReceipts.SupersededOwnerIsFenced | app/repositories/idempotency_receipt.py:137-170 | a superseded owner never completes or fails the receipt again |
| IdempotencyReceipts.OneSettlementPerClaim | app/repositories/idempotency_receipt.py:114-170 | one claim settles its receipt at most once |
| IdempotencyReceipts.UncompletedReceiptBecomesClaimable | app/repositories/idempotency_receipt.py:63-81 | a completed receipt is never granted again; any other is granted to the same request exactly when it is not held under a running lease |
| IdempotencyReceipts.ReceiptRepository.Claim | app/repositories/idempotency_receipt.py:32-97 | the upsert: acquired exactly for a new key or a reclaimable receipt of the same request |
| IdempotencyReceipts.ReceiptRepository.Complete | app/repositories/idempotency_receipt.py:114-146 | succeeds exactly for the owner of a processing receipt |
| IdempotencyReceipts.ReceiptRepository.Fail | app/repositories/idempotency_receipt.py:148-170 | succeeds exactly for the owner of a processing receipt |
| IdempotencyReceipts.IdempotencyService.Claim | app/services/idempotency.py:165-229 | a hash conflict rolls the claim back; a new, failed or lapsed receipt is acquired; a duplicate is completed with the stored response exactly when the receipt is, and processing exactly while it is held |
| IdempotencyReceipts.IdempotencyService.CompleteTelegramUpdate | app/services/idempotency.py:76-99 | succeeds exactly for the owner of a processing receipt, storing no response and no identity |
| IdempotencyReceipts.IdempotencyService.Fail | app/services/idempotency.py:231-265 | succeeds exactly for the owner of a processing receipt |
| IdempotencyReceipts.DuplicatesAreToldTheTruth | app/repositories/idempotency_receipt.py:32-97 | in every reachable table a request with a receipt is told completed, with the response, exactly when it was; processing, with nothing, exactly while it is held under a running lease; otherwise it gets the receipt |
| IdempotencyReceipts.OnlyCompletedRespondAlways | app/repositories/idempotency_receipt.py:63-170 | over every run only completed receipts have a response, and exactly they have a time of completion |
| IdempotencyReceipts.GrantGivesTheReceipt | app/repositories/idempotency_receipt.py:45-97 | a granted claim holds the receipt under the lease it asked for; a reclaim keeps id, request and identity; no other receipt changes |
| IdempotencyReceipts.ClaimStandsUntilSettled | app/repositories/idempotency_receipt.py:45-170 | until the lease it asked for has passed a claim holds the receipt exactly until its own token settles it, and any other claim of the request is told that it is being processed |
| IdempotencyReceipts.CompletionIsRecorded | app/repositories/idempotency_receipt.py:114-146 | what is reported with the completion stays on the receipt for ever |
| IdempotencyReceipts.FailureFreesTheKey | app/repositories/idempotency_receipt.py:148-170 | a failure reported by the owner frees the key at once for the same request |
| IndexingLease.GrantedIffNobodyHolds | app/repositories/knowledge_article_version.py:60-91 | a claim is granted exactly when no token holds the version at that instant, and at most one ever does |
| IndexingLease.ClaimIsLostIffNotUsedInTime | app/repositories/knowledge_article_version.py:60-124 | whatever the stamps, no renewal or finalisation by a token succeeds any more exactly when it no longer owns the version, or none stamped before the end of its lease comes ahead of its own failure and of a claim stamped at or after that end; its lease is then not renewed |
| IndexingLease.OrderedStampsComeTooLate | app/repositories/knowledge_article_version.py:93-124 | with stamps in order no action after the end of the lease is in time |
| IndexingLease.LostClaimNeverReturns | app/repositories/knowledge_article_version.py:93-124 | when statements carry stamps in order, a token that lost its claim, if only to time, never renews or locks it again |
| IndexingLease.DisownedForEver | app/repositories/knowledge_article_version.py:60-124 | a token that no longer owns a version never owns it again and none of its renewals or finalisations succeeds, whatever the stamps |
| IndexingLease.EarlierStampRenewsALapsedLease | app/repositories/knowledge_article_version.py:93-108 | from a pending version: after a claim, a renewal stamped before the lease ran out brings the lapsed claim back |
| IndexingLease.NewClaimShutsOutOldTokens | app/repositories/knowledge_article_version.py:60-124 | once another worker claims, every older token fails for ever and at every instant, whatever the stamps |
| IndexingLease.IndexedForEver | app/services/ai/indexer.py:487-510 | no claim, renewal, failure or takeover takes an indexed version out of indexed |
| IndexingLease.InvHolds | app/services/ai/indexer.py:254-314 | a version reads indexing only while it has an owner and a lease |
| IndexingLease.VersionRepository.ClaimIndexing | app/repositories/knowledge_article_version.py:60-91 | claims exactly an unowned or expired version and keeps an indexed status |
| IndexingLease.VersionRepository.RenewIndexingLease | app/repositories/knowledge_article_version.py:93-108 | renews exactly for the live holder |
| IndexingLease.VersionRepository.GetClaimForUpdate | app/repositories/knowledge_article_version.py:110-124 | returns the row exactly for the live holder |
| IndexingLease.Indexer.Claim | app/services/ai/indexer.py:254-314 | claims and remembers whether an index was active |
| IndexingLease.Indexer.Renew | app/services/ai/indexer.py:405-421 | renews or reports the claim lost |
| IndexingLease.Indexer.Finalize | app/services/ai/indexer.py:423-485 | publishes the index only under a live claim |
| IndexingLease.Indexer.RecordFailure | app/services/ai/indexer.py:487-510 | the owner restores indexed if it found it so, and marks failed otherwise |
| IndexingLease.ClaimLastsForItsLease | app/repositories/knowledge_article_version.py:60-124 | a granted claim is held by its token exactly until the seconds it asked for have passed, and the version is claimable exactly from then on |
| IndexingLease.RenewalLastsForItsLease | app/repositories/knowledge_article_version.py:93-108 | a renewal moves the end of the claim and changes nothing else |
| IndexingLease.ClaimStandsUntilUsed | app/repositories/knowledge_article_version.py:60-124 | while other claims are stamped before its end, a claim stands over every run until its own token acts |
| IndexingLease.FinalizePublishes | app/services/ai/indexer.py:423-485 | finalising leaves the version indexed and free, and changes nothing else |
| IndexingLease.FailureRestores | app/services/ai/indexer.py:487-510 | a failure leaves an index that was active indexed and anything else failed, and frees the version |
| IndexingLease.IndexedIffFinalized | app/services/ai/indexer.py:423-510 | over every run a version is indexed exactly when it was before or a live claim finalised it |
| RefreshFamilies.FamilyBudgetHolds | app/services/refresh_session.py:28-96 | in every interleaving the unrevoked tokens of a family plus its rotations in flight never exceed one |
| RefreshFamilies.RotatedAtMostOnce | app/services/refresh_session.py:64-96 | each token is rotated successfully at most once |
| RefreshFamilies.RevokedForEver | app/repositories/refresh_session.py:25-63 | a revoked token stays as it is and never rotates again |
| RefreshFamilies.DeadForEver | app/services/refresh_session.py:28-62 | a family without live tokens and without rotations in flight never has a live token again |
| RefreshFamilies.ReuseKillsForGoodIffNothingInFlight | app/services/refresh_session.py:64-96 | presenting a revoked token leaves no live token, and for good exactly when no rotation is in flight |
| RefreshFamilies.ReplacementOutlivesReuse | app/services/refresh_session.py:64-96 | login, begin a rotation, present the same token again: the family has no live token, and issuing the replacement gives it one |
| RefreshFamilies.LogoutLastsIffNothingInFlight | app/services/refresh_session.py:106-120 | logging out everywhere leaves the subject without a live token until its next login exactly when none of its rotations is in flight |
| RefreshFamilies.ReplacementOutlivesLogout | app/services/refresh_session.py:64-120 | login, begin a rotation, log out everywhere: the subject has no live token, and issuing the replacement gives it one |
| RefreshFamilies.RefreshSessionRepository.RevokeFamilyRows | app/repositories/refresh_session.py:25-36 | revokes and counts exactly the live rows of the family |
| RefreshFamilies.RefreshSessionRepository.RevokeRow | app/repositories/refresh_session.py:38-49 | revokes the row if it is live |
| RefreshFamilies.RefreshSessionRepository.RevokeSubjectRows | app/repositories/refresh_session.py:51-63 | revokes the live rows of one subject |
| RefreshFamilies.RefreshSessionService.Login | app/services/refresh_session.py:28-62 | starts a new family with one live token |
| RefreshFamilies.RefreshSessionService.BeginRotation | app/services/refresh_session.py:64-96 | invalid, reuse, expired or rotated, with the revocations each entails |
| RefreshFamilies.RefreshSessionService.IssueReplacement | app/api/v1/auth.py:898-918 | issues the replacement into the family of the rotated token |
| RefreshFamilies.RefreshSessionService.RevokeRaw | app/services/refresh_session.py:98-104 | revokes one token, or does nothing without one |
| RefreshFamilies.RefreshSessionService.RevokeAllForSubject | app/services/refresh_session.py:106-120 | revokes every token of one subject and no other |
| RefreshFamilies.RevokedIffSomeEventRevokes | app/services/refresh_session.py:64-120 | over every run a token keeps family, subject and expiry, and is revoked exactly when one event presented it, reused its family, or revoked it or its subject |
| RefreshFamilies.LoginTokenRotatesUntilRevoked | app/services/refresh_session.py:28-96 | the token of a login, after any run: it rotates for its subject and family until it expires, unless it was revoked since, which makes it reuse |
| RefreshFamilies.ReplacementRotatesUntilRevoked | app/services/refresh_session.py:28-96 | the same for the replacement of a rotated token, with the family and subject of that token and its own expiry |
| RefreshFamilies.InvalidChangesNothing | app/services/refresh_session.py:64-76 | an unknown token or one of another type of subject is invalid and changes nothing |
| RefreshFamilies.InFlightFromBeginToIssue | app/api/v1/auth.py:866-918 | a rotation is in flight from its successful beginning until its replacement is issued or it is abandoned |
| CourseStructure.Order | app/repositories/step.py:32-50 | the ids of a course in position order |
| CourseStructure.ShapesGiveTheOrder | app/repositories/step.py:44-50 | the order depends on positions alone, never on titles |
| CourseStructure.ShapesGiveTheSnapshot | app/services/course_snapshot.py:25-42 | courses with the same structure give snapshots with the same ids and structure, in order |
| CourseStructure.Place | app/services/step.py:209-216 | one phase of the renumbering fails exactly when a step outside the list holds a position it needs |
| CourseStructure.Renumber | app/services/step.py:205-216 | the two phases succeed exactly when no unlisted step stands on a parking position, and then give positions 0, 1, 2, ... in the requested order |
| CourseStructure.ShortCoursesNeverClash | app/repositories/step.py:14-24 | with at most 1000 steps the renumbering cannot run into the unique constraint |
| CourseStructure.LongCourseClashes | app/services/step.py:205-216 | a course with positions 0 to 2000 can never be reordered |
| CourseStructure.RenumberedReadsBack | app/services/step.py:205-220 | after renumbering, reading the course returns the requested order, with the other steps after it unchanged |
| CourseStructure.MaxPositionPlusOne | app/services/step.py:85-87 | a position above every step of the course |
| CourseStructure.ListByProgram | app/repositories/step.py:14-24 | the first thousand steps in position order |
| CourseGenerations.InvHolds | app/services/course_edit_policy.py:6-23 | over every run: open assignments show the live structure and revision, no employee has two open assignments of a course, rows and snapshot steps match one to one, cancelled assignments have no rows, completed means the required steps are done |
| CourseGenerations.StepRevision | app/services/course_edit_policy.py:44-59 | one operation moves a revision by at most one, moves it whenever the structure changes, and only while no assignment is open |
| CourseGenerations.RevisionNamesOneStructure | app/services/course_edit_policy.py:10-22 | over every run revisions only grow, and the same revision means the same structure |
| CourseGenerations.SnapshotsOfOneRevisionAgree | app/services/course_snapshot.py:25-42 | two snapshots of one course with one revision, taken at any times, have the same ordered step ids, types, required flags and contents |
| CourseGenerations.OpenShowsTheLiveCourse | app/services/course_snapshot.py:8-11 | an open assignment's snapshot agrees with the live steps and its revision is the live one |
| CourseGenerations.RecordIsForever | app/services/assignment.py:152-167 | an assignment never changes its snapshot, revision, course or employee, and a closed one nothing at all |
| CourseGenerations.OpenAssignmentReadsTheSame | app/services/course_snapshot.py:65-90 | what an open assignment reads about a step (type, content, position, required flag) never changes, with or without a snapshot |
| CourseGenerations.SnapshotIsHistory | app/services/course_snapshot.py:65-90 | what a snapshot covers is read the same for ever, titles included |
| CourseGenerations.SnapshotStepMap | app/services/course_snapshot.py:45-62 | the loop builds the map from step id to its last entry |
| ProgressOrder.SortedIsSorted | app/services/course_snapshot.py:93-106 | the sort keeps every row and puts snapshot steps first, by position |
| ProgressOrder.OrderingRestoresTheSnapshot | app/services/course_snapshot.py:93-106 | any listing of the snapshot's steps is put into the snapshot's own order |
| ProgressOrder.RowsReadInSnapshotOrder | app/services/course_snapshot.py:93-106 | after every run the rows of an assignment that was not cancelled read exactly as its snapshot lists the steps, even if the course was reordered since |
| ProgressOrder.SnapshotStepsComeFirst | app/services/course_snapshot.py:93-106 | sorted rows of the snapshot come first by position, all others after them by id |
| CourseGenerations.BulkIsAllOrNothing | app/services/assignment.py:117-211 | a bulk assignment changes nothing, or gives each recipient exactly one new pending assignment with snapshot and one not-started row per snapshot step, and changes nothing else |
| CourseGenerations.CompletionSeesTheSnapshot | app/services/progress.py:314-326 | for an open assignment the completion check on the live steps is the check on its snapshot |
| CourseGenerations.CompleteIsRunStep | app/services/progress.py:173-191 | completing a step makes the assignment completed exactly when the required steps of its snapshot are done |
| CourseGenerations.ReorderIsEdit | app/services/step.py:190-220 | a reorder that succeeds leaves the course listed in the requested order, under the lock and revision rules |
| CourseGenerations.RemoveIsEdit | app/services/step.py:228-269 | a deletion that succeeds removes exactly that step, under the lock and revision rules |
| CourseGenerations.AddIsEdit | app/services/step.py:85-114 | a created step keeps positions unique and takes the next revision without open assignments |
| CourseGenerations.EditStepIsEdit | app/services/step.py:157-165 | an update of type, required flag or content takes the next revision without open assignments; other updates leave structure and revision alone |
| CourseGenerations.CourseEventIsEdit | app/services/course_edit_policy.py:44-63 | every course operation obeys the lock and revision rules and touches no other course |
| CourseService.CourseStore.BumpProgramRevision | app/services/course_edit_policy.py:52-59 | adds one to the revision and changes nothing else |
| CourseService.CourseStore.CreateStep | app/services/step.py:53-114 | appends after the last position or at the one asked for and takes the next revision; a negative position, a taken one and a locked course are refused with nothing changed |
| CourseService.CourseStore.UpdateStep | app/services/step.py:116-165 | applies the patch, and exactly when it names type, required flag or content it needs an unlocked course and takes the next revision; otherwise an error with nothing changed |
| CourseService.CourseStore.ReorderSteps | app/services/step.py:167-220 | after success the course lists in the requested order; otherwise the specified error and nothing changed |
| CourseService.CourseStore.DeleteStep | app/services/step.py:222-269 | removes the step, renumbers the rest and takes the next revision; a locked course and a step with progress rows are refused with nothing changed |
| CourseService.CourseStore.CreateMany | app/services/assignment.py:80-211 | with resolved recipients: succeeds exactly on the company's published course with a step and nobody still at work on it, each error under its exact condition; one assignment for each distinct recipient, or nothing changed |
| CourseService.CourseStore.EnrolAll | app/services/assignment.py:146-204 | the loop over recipients and steps creates exactly the specified rows under fresh ids |
| CourseService.CourseStore.CancelAssignment | app/services/assignment.py:443-486 | cancels exactly open assignments, discards all their rows and reports how many |
| CourseService.CourseStore.EnsureStarted | app/services/learning_progress.py:239-269 | starts a row and its assignment, once |
| CourseService.CourseStore.CompleteStep | app/services/progress.py:38-192 | succeeds exactly on a row that can be worked on; it makes it done when passed and started when not, and completes the assignment when the required steps are done; every refusal changes nothing |
| CourseOutcomes.CompletionOutcome | app/services/progress.py:38-192 | completing succeeds exactly on a row that is not done of the company's open assignment; not found, validation and conflict each have their exact condition |
| CourseOutcomes.CompletionWrites | app/services/progress.py:96-191 | it makes the row done when it passed and started when it did not, and the assignment completed exactly when that finishes the run of its snapshot; nothing else changes |
| CourseOutcomes.StepMovesStatus | app/services/progress.py:38-192 | only its own cancellation, first start and completions write the status of an assignment |
| CourseOutcomes.StepMovesRow | app/services/progress.py:38-192 | a row becomes done by a passing completion, started by a failed one or a start, and goes with the cancellation; nothing else writes it |
| CourseOutcomes.RowDoneIffPassed | app/services/progress.py:96-128 | over every run a row is done at the end exactly when it was or one passing completion of it succeeded, so failed attempts never complete it; it is there exactly when no cancellation succeeded |
| CourseOutcomes.CancelledIffCancelSucceeded | app/services/assignment.py:443-486 | over every run an assignment is cancelled exactly when it was or a cancellation of it succeeded |
| CourseOutcomes.CancellationOutcome | app/services/assignment.py:443-486 | cancelling succeeds exactly on an open assignment of the company; it drops its rows and nothing else |
| CourseOutcomes.StartOutcome | app/services/learning_progress.py:203-226 | starting succeeds exactly on a row that can be worked on; each refusal has its exact condition |
| CourseOutcomes.StartWrites | app/services/learning_progress.py:239-269 | a start writes a row that was not started and its assignment, and nothing otherwise |
| CourseOutcomes.BulkOutcome | app/services/assignment.py:404-441 | a bulk assignment succeeds exactly on the company's published course with a step and no recipient still at work on it, under fresh ids; each error has its exact condition |
| CourseOutcomes.StepAssigns | app/services/assignment.py:117-211 | every new assignment comes from a bulk assignment of its course and recipient while the course is published |
| CourseOutcomes.UnpublishedCourseIsNeverAssigned | app/services/assignment.py:412-415 | over every run a course that is not published gets no assignment until it is |
| CourseOutcomes.ActivationOutcome | app/services/onboarding_program.py:114-182 | publishing needs the company's own course and a step, and writes nothing but the flag |
| CourseOutcomes.NewCourseOutcome | app/services/onboarding_program.py:36-75 | a new course is empty, not published and has revision 1 |
| CourseOutcomes.StepAdditionOutcome | app/services/step.py:53-114 | adding a step succeeds exactly on the company's unlocked course at a free position, and stores the draft there with the next revision |
| CourseOutcomes.StepPatchOutcome | app/services/step.py:116-165 | updating a step writes exactly the fields named; structural ones need an unlocked course and take the next revision |
| CourseOutcomes.ReorderOutcome | app/services/step.py:167-220 | reordering succeeds exactly for a rearrangement of the listed steps, unlocked unless nothing moves, with no step in the way of the parking positions; every error has its exact condition |
| CourseOutcomes.RemovalOutcome | app/services/step.py:222-269 | deleting succeeds exactly on an unlocked course for a step without rows and with no step in the way; the others close the gap |
| CourseOutcomes.SnapshotRecordsTheSteps | app/services/course_snapshot.py:25-42 | a snapshot lists the first thousand steps by position, each with its id, title, kind, required flag and content |
| CourseOutcomes.StepIsReadFromTheSnapshot | app/services/course_snapshot.py:45-90 | a step is read from its last snapshot entry, and only without one from the live course |
| CourseOutcomes.SameRevisionSameSteps | app/services/course_edit_policy.py:10-22 | over every run, as long as the revision is the same so are ids, positions, kinds, required flags and contents of the steps |
| Recipients.ResolvedMeans | app/services/assignment.py:339-384 | resolution succeeds exactly when all departments are usable and the joined employees are a nonempty set found in the company and not archived |
| Recipients.FirstOffender | app/services/assignment.py:342-352 | the error reported is that of the first offender in request order |
| Recipients.ResolveAssignmentRecipients | app/services/assignment.py:327-384 | returns each member of the joined set once, or the specified error |
| Recipients.ResolutionSucceedsIff | app/services/assignment.py:339-384 | resolving succeeds exactly when every named department is an active one of the company, every named employee a colleague who is not archived, departments bring in colleagues only, and there is anyone |
| Recipients.EveryoneIsBroughtInOrNamed | app/services/assignment.py:354-377 | the recipients are the named employees and the members of the departments who are not archived |
| Recipients.FirstBadDepartmentDecides | app/services/assignment.py:342-347 | the first unusable department in request order decides the error |
| Recipients.FirstBadEmployeeDecides | app/services/assignment.py:360-377 | with usable departments the first unusable employee decides the error |
| Recipients.StrangerIsNotFound | app/services/assignment.py:354-359 | a department that brings in somebody of another company is not found |
| Recipients.NobodyIsInvalid | app/services/assignment.py:378-384 | a selection of nobody is invalid |
| LearningCursor.CursorOnlyMovesForward | app/services/learning_progress.py:87-201 | under any repetition and reordering of requests, general completions only at the last block, the cursor never decreases, never leaves the blocks, and a step is done only at the last one |
| LearningCursor.SoundIffDirectAtLast | app/services/progress.py:194-224 | over every run of all requests the cursor stays on the blocks and a step is done only at the last one exactly when every general completion that is not refused names the last block, or sends no payload at the last block |
| LearningCursor.StepKeepsInv | app/services/learning_progress.py:87-201 | start, advance and complete requests move the cursor only from the block they name to the next |
| LearningCursor.DirectKeepsInvIff | app/services/progress.py:117-128 | one general completion keeps the cursor on the blocks and the step done at the last one exactly when it is refused or leaves the cursor at the last block |
| LearningCursor.EachBlockIsPassedOnce | app/services/learning_progress.py:136-151 | the cursor is moved past block i by exactly one request of the run if the run goes past it and by none otherwise |
| LearningCursor.PassedByAdvances | app/services/learning_progress.py:136-151 | without a general completion that takes effect, each block that is passed is passed by one advance request for it |
| LearningCursor.DoneMeansEveryBlockWasPassed | app/services/learning_progress.py:153-201 | a step done without a general completion was advanced past every earlier block by exactly one request for it |
| LearningCursor.AdvanceIsIdempotentIff | app/services/learning_progress.py:111-151 | repeating an advance changes nothing except for block 0 on a row not started with more than one block; only a request for the current, non-final block moves |
| LearningCursor.FirstAdvanceOnlyStarts | app/services/learning_progress.py:128-135 | on a fresh row of three blocks the first advance only starts it and the same request again moves to block 1 |
| LearningCursor.ClosedForEver | app/services/learning_progress.py:221-226 | once the step is done or the assignment over, row and cursor never change |
| LearningCursor.SecondCompletionChangesNothing | app/services/progress.py:85-88 | of several completions in flight at most one takes effect |
| LearningCursor.DirectCompletionSkipsBlocks | app/services/progress.py:194-224 | a general completion finishes a fresh three-block step at its first block, or with the cursor at 99 |
| LearningCursor.DirectCompletionGoesBack | app/services/progress.py:117-128 | a general completion moves the cursor of a three-block step from the last block back to the first |
| LearningCursor.LearningProgressService.StartOrResume | app/services/learning_progress.py:87-109 | starts the row once and returns the current block |
| LearningCursor.LearningProgressService.AdvanceBlock | app/services/learning_progress.py:111-151 | moves on exactly for the current, non-final block of a started row |
| LearningCursor.LearningProgressService.BeginCompletion | app/services/learning_progress.py:153-194 | captures a completion only at the final block, committing nothing else |
| LearningCursor.LearningProgressService.FinishCompletion | app/services/learning_progress.py:195-201 | completes at the last block, or reports why not |
| LearningCursor.LearningProgressService.CompleteByProgressId | app/services/progress.py:194-224 | completes whatever the cursor, and keeps the step sound exactly when refused or leaving the cursor at the last block |
| LearningCursor.ResolveResumeItem | app/services/learning_progress.py:54-64 | the first row in progress, else the first not done, else none |
| LearningCursor.RequestOutcome | app/services/learning_progress.py:203-226 | requests succeed exactly on a step that can be worked on; each refusal has its exact condition and changes nothing |
| LearningCursor.StartEffect | app/services/learning_progress.py:239-269 | a row that was not started starts at block 0, and its assignment with it |
| LearningCursor.AdvanceEffect | app/services/learning_progress.py:111-151 | the cursor moves on exactly from the block named, on a started row, before the last block |
| LearningCursor.BeginCompletionEffect | app/services/learning_progress.py:153-194 | a completion is captured exactly for the current block when it is the last, otherwise it only starts the row |
| LearningCursor.FinishEffect | app/services/learning_progress.py:195-201 | a captured completion is used up, and completes a step that can still be worked on at the captured block |
| LearningCursor.DirectEffect | app/services/progress.py:194-224 | a general completion completes the step with the index of its payload, if it sends one |
| LearningCursor.EffectOfOthers | app/services/learning_progress.py:203-226 | what happens elsewhere touches the assignment of an open one only, never the row |
| LearningCursor.ReadingThroughCompletes | app/services/learning_progress.py:87-201 | reading from the first block to the last and completing there completes a step of any number of blocks |
| StepContent.NormalizeStepContent | app/services/step_content.py:144-171 | the blocks of a step: at most a hundred text blocks in order, else the body or text as one, else none |
| StepContent.ReadBlocks | app/services/step_content.py:153-163 | the loop that skips invalid items and stops at a hundred gives the first hundred valid blocks |
| CourseCursor.BlockCountIsFixed | app/services/learning_progress.py:227-237 | over every run of the course the number of blocks read for a step does not change while the assignment is open, and never for a step its snapshot covers |
| CourseCursor.RereadingMakesNoDifference | app/services/learning_progress.py:203-237 | requests that each read the content again, between any course operations, do what they would do with one fixed number of blocks |
| StepContent.BlockCountIsBounded | app/services/step_content.py:144-171 | a step has at most a hundred blocks, and none without blocks, body and text |
| StepContent.BlocksAreListedInOrder | app/services/step_content.py:144-211 | the listed blocks are the text blocks in order, the first hundred, with the ids of their places and texts cut at 20000 characters |
| StepContent.ContentIsRead | app/services/step_content.py:144-171 | listed blocks are read if there are any, else the body as one block, else the text, else nothing |
| CourseCursor.CursorStaysOnTheBlocksRead | app/services/learning_progress.py:87-201 | between any course operations the cursor stays on the blocks read at the end, so at most at 99, and done means at the last of them, exactly when general completions leave the cursor at the last block |
| CourseGenerations.StepKeepsRow | app/services/progress.py:38-192 | a progress row changes only by starting or completing it, and goes only with the cancellation of its assignment |
| CourseCursor.AgreementHolds | app/services/learning_progress.py:87-270 | on one database, over every interleaving of course operations with requests on a row, learner and database agree on the statuses of assignment and row, each effect done on both sides |
| CourseCursor.CompletedRowsAreReadToTheEnd | app/services/learning_progress.py:87-270 | on one database, with learner and course as above, the cursor stays sound for the blocks read at the end exactly when general completions leave it at the last one, and then a row the database has as completed stands at the last block |
| Acknowledgement.CompletionIsConsistent | app/services/assignment.py:651-708 | in every reachable state of an assignment that was not cancelled: completed, all required documents acknowledged, the summary's flag and 100% are equivalent |
| Acknowledgement.AcknowledgementsArePermanent | app/services/assignment.py:681-692 | acknowledgement times never change once set, nor do the documents |
| Acknowledgement.ClosedForEver | app/services/assignment.py:665-679 | completed and cancelled assignments never change |
| Acknowledgement.EarlyHundred | app/services/acknowledgement.py:9-28 | rounding shows 100% early exactly when at most one required document in 20000 is missing |
| Acknowledgement.HundredMeansDone | app/schemas/assignment.py:65-69 | with at most 50 documents 100% means done |
| Acknowledgement.SummaryCompletedMeansDone | app/services/acknowledgement.py:9-28 | the summary's flag says that all required documents are acknowledged |
| Acknowledgement.NextIncompleteRequired | app/services/acknowledgement.py:49-55 | the first required document not acknowledged, or none exactly when done |
| Acknowledgement.AcknowledgementService.Create | app/services/assignment.py:254-294 | one item per document; completed at once exactly when none is required |
| Acknowledgement.AcknowledgementService.MarkInProgress | app/services/assignment.py:813-829 | starts a pending assignment and keeps an earlier start time |
| Acknowledgement.AcknowledgementService.AcknowledgeItem | app/services/assignment.py:651-708 | acknowledges once, completes when done, or reports the specified error with nothing changed |
| Acknowledgement.SummaryCountsDocuments | app/services/acknowledgement.py:9-28 | the counts are the numbers of required and of acknowledged required documents, the percentage their share rounded half to even |
| Acknowledgement.StepWrites | app/services/assignment.py:651-708 | all that one event writes of an assignment: one acknowledgement time, the first start, cancellation and completion |
| Acknowledgement.CreationWrites | app/services/assignment.py:254-294 | a new assignment has the documents as given, none acknowledged, and is completed at once exactly when none is required |
| Acknowledgement.AcknowledgedIffGiven | app/services/assignment.py:651-708 | over every run an item is acknowledged exactly when it was or its own employee acknowledged it once while the assignment was open; cancelled exactly when it was or its company cancelled it |
| Acknowledgement.AcknowledgementOutcome | app/services/assignment.py:651-692 | an item that is not the employee's is not found; an assignment that is over is invalid, except for repeating an acknowledgement |
| ManagerGraph.ManagerAssignmentWouldCycle | app/services/org_validation.py:57-82 | answers "no cycle" exactly when the chain from the new manager ends within 255 employees without meeting the employee or repeating |
| ManagerGraph.GuardDecidesReachability | app/services/org_validation.py:57-82 | in a sound graph an edge is refused exactly when it would close a cycle or the chain above is longer than 255 |
| ManagerGraph.RedirectedEdgeKeepsAcyclic | app/services/employee.py:502-528 | redirecting an edge to someone who is not below keeps the graph acyclic |
| ManagerGraph.CreateKeepsGraph | app/services/employee.py:113-136 | creating an employee keeps the graph acyclic and inside companies |
| ManagerGraph.UpdateKeepsGraph | app/services/employee.py:465-531 | updating an employee keeps the graph acyclic and inside companies |
| ManagerGraph.GraphStaysSound | app/services/employee.py:836-872 | the manager graph is acyclic and inside companies over every run of creates and updates |
| ManagerGraph.EmployeeService.ValidateManager | app/services/employee.py:836-872 | no error exactly when the specified checks pass, else the first of them |
| ManagerGraph.EmployeeService.CreateEmployee | app/services/employee.py:105-148 | writes the row exactly when the manager is acceptable |
| ManagerGraph.EmployeeService.UpdateEmployee | app/services/employee.py:465-531 | applies the patch or reports the specified error with nothing changed |
| ManagerGraph.CreationOutcome | app/services/employee.py:105-148 | creating needs only an eligible manager, if any: visible and active; each error has its exact condition |
| ManagerGraph.UpdateOutcome | app/services/employee.py:465-531 | in a sound graph: an update succeeds exactly when the actor may, the new manager is eligible, closes no cycle and has at most 255 people from it upwards, and activation means an administrator reactivating an archived employee; each error has its exact condition |
| ManagerGraph.UpdateWrites | app/services/employee.py:500-531 | an update writes the manager and status it names and nothing else of anybody |
| ManagerGraph.AcceptanceWrites | app/services/platform_management.py:202-265 | an accepted invitation makes the employee active and changes nothing else |
| ManagerGraph.NewManagersAreActiveColleagues | app/services/employee.py:836-872 | whoever gets a new manager gets an active colleague of the company who is not below them |
| QuizParser.ParseOptions | app/services/assessment.py:365-466 | accepts exactly option lists whose items are well-formed with distinct ids, and returns them in order |
| QuizParser.ParseCorrect | app/services/assessment.py:365-466 | accepts exactly nonblank, distinct, known correct ids, one for a single choice |
| QuizParser.ParseQuestion | app/services/assessment.py:365-466 | accepts exactly well-formed questions without a legacy answer key |
| QuizParser.ParseStructuredQuiz | app/services/assessment.py:129-161 | accepts exactly 1 to 20 well-formed structured questions with distinct ids and passing score 80 or none |
| QuizView.SanitisedHidesTheKey | app/services/assessment.py:89-109 | no answer key and no explanation is left; every other field is as it was |
| QuizView.PublicQuizContent | app/services/assessment.py:89-109 | sanitises each question and nothing else |
| QuizView.PublicStructuredQuestions | app/services/assessment.py:303-353 | shows exactly the showable questions and options, in order |
| QuizView.ViewShowsTheParsedQuiz | app/services/assessment.py:303-353 | for every quiz that parses, the view of the sanitised content has the parser's ids, types, texts and options in the same order |
| QuizAnswers.ValidateQuizAnswers | app/services/assessment.py:193-254 | accepts exactly complete, well-formed answers that fit the question types, and returns the recorded choices |
| QuizAnswers.SelectedLooksUp | app/services/assessment.py:193-254 | the recorded map holds each answer's choice and nothing else |
| QuizAnswers.IdIsStableUnlessCutAfterSpace | app/services/assessment.py:365-466 | an id survives stripping unless its text is longer than 64 characters and the 64th is a space |
| QuizIds.QuestionIdsAreStableIffWhole | app/services/assessment.py:382-387 | the question ids of a quiz that parses survive stripping exactly when none is longer than 64 characters with a space as its 64th |
| QuizIds.OptionIdsAreStableIffWhole | app/services/assessment.py:402-412 | the same for the option ids of a question that parses |
| QuizIds.EveryChoiceIsRecordedIffNoIdIsCut | app/services/assessment.py:193-254 | every full choice the view offers is accepted and recorded as ticked exactly when no question or option id of the content is cut after a space |
| QuizIds.CorrectChoiceScoresHundredIffNoIdIsCut | app/services/assessment.py:171-254 | ticking the correct options is accepted exactly when no question id of the content is cut after a space, and then scores 100 |
| QuizIds.CutQuizRejectsItsCorrectChoice | app/services/assessment.py:193-254 | a concrete quiz that parses and rejects its own correct choice |
| QuizAnswers.ChoiceIsRecordedIffIdsStable | app/services/assessment.py:193-254 | a full choice made in the view is accepted and recorded as ticked exactly when the ids survive stripping |
| QuizAnswers.CorrectChoiceScoresHundredIffIdsStable | app/services/assessment.py:171-254 | ticking the correct options is accepted exactly when the question ids survive stripping, and then scores 100 |
| QuizAnswers.HundredMeansAllCorrect | app/services/assessment.py:171-190 | accepted answers score 100 exactly when every question has exactly its correct options |
| QuizAnswers.ScoreStructuredQuiz | app/services/assessment.py:171-190 | scores exactly quizzes that parse with answers that are accepted: the count is the number of questions answered with exactly their correct options, the score its rounded percentage, and a pass means four fifths |
| QuizAnswers.AcceptedAnswersAreComplete | app/services/assessment.py:193-254 | accepted answers answer every question and nothing else, each once, with options of the question: one of a single choice, at least one of a multiple choice |
| QuizAnswers.AcceptedAnswerTicks | app/services/assessment.py:193-254 | an accepted answer names its question and ticks nonblank texts without repetitions |
| QuizAnswers.CountIsTheNumberOfCorrectOnes | app/services/assessment.py:171-190 | the count is the number of questions answered with exactly their correct options, whatever the others are |
| QuizScoring.ScoreIsRoundedPercentage | app/services/assessment.py:164-168 | the score is the percentage rounded to the nearest integer, ties to even, at most 100, and 0 without questions |
| QuizView.OptionsAreShownInOrder | app/services/assessment.py:303-353 | for any content: the options with a text, in order, with the ids of their places |
| QuizView.QuestionShownIff | app/services/assessment.py:303-353 | a question is shown exactly when it has a text and two options with a text |
| QuizView.QuestionsAreShownInOrder | app/services/assessment.py:303-353 | the view of structured content holds exactly the questions that can be shown, in order; of other content nothing |
| QuizView.StructuredMeans | app/services/assessment.py:64-74 | a question is structured exactly with a type, a list of options or a list of correct ids; the view takes any other type for a single choice |
| QuizRoundTrip.ParsedQuizIsWellFormed | app/services/assessment.py:129-161 | every parsed quiz has 1 to 20 questions with distinct ids, 2 to 12 options each with distinct ids, and correct options among them, all texts within their limits |
| QuizRoundTrip.QuizReadsBack | app/services/assessment.py:365-466 | every such quiz, without spaces at the ends of its texts, is parsed back from the content it is written to |
| QuizRoundTrip.ParsedExplanation | app/services/assessment.py:365-466 | the explanation kept is the first thousand characters of the stripped text |
| QuizRoundTrip.ParsedQuestionIsStrict | app/services/assessment.py:365-466 | a parsed question has a known type, lists its correct ids once each and has no legacy field |
| QuizRoundTrip.ParsedContentIsStrict | app/services/assessment.py:129-161 | parsed content asks for a passing score of 80, if for any, and all its questions parse |
| Text.StripTakesOnlySpaces | app/services/assessment.py:365-466 | stripping takes spaces away from both ends and nothing else |
| Text.DecimalReadsBack | app/services/assessment.py:365-466 | the decimal numbers in generated ids can be read back |
| QuizScoring.PromotedExactly | app/services/assessment.py:164-168 | rounding turns a fail into a pass exactly from 79.5% to below 80% |
| Rounding.RoundingIsDetermined | app/services/assessment.py:164-168 | the rounded value is the one nearest integer, the even one on ties |
| QuizScoring.PassMeansFourFifths | app/services/assessment.py:164-190 | up to 43 questions a pass means 5 * correct >= 4 * total |
| QuizScoring.FirstPromotedFail | app/services/assessment.py:164-168 | 35 of 44 would be rounded up to a pass |
| QuizScoring.FullScoreMeansAllCorrect | app/services/assessment.py:164-168 | up to the question cap a score of 100 means all correct |
| QuizScoring.PayloadSummarisesAttempts | app/services/assessment.py:257-286 | over any attempts the payload holds their number, the last score and the maximum, up to the first pass |
| QuizScoring.CompletedIffBestPasses | app/services/progress.py:96-115 | the quiz step is completed exactly when the best score passes |
| RateLimiter.StoredLogIsHistory | app/core/rate_limit.py:137-144 | from any cutoff on, for calls in any order, the pruned log shows at most what the complete history shows, and the same exactly when no call from the cutoff on was pruned by a later one |
| RateLimiter.PrunedLimiterIsExact | app/core/rate_limit.py:137-144 | at every limit the pruned limiter answers as one that keeps every call for ever exactly when no call inside the window was lost, and it never refuses more |
| RateLimiter.MemoryWindowBound | app/core/rate_limit.py:137-144 | no closed interval of window length holds more than limit allowed calls, if no call comes after one that pruned a call within a window of it |
| RateLimiter.LimitOfOneAlwaysHolds | app/core/rate_limit.py:137-144 | a limit of one is kept in every closed interval of window length, for calls in any order |
| RateLimiter.LimitIsKeptIffNothingMissed | app/core/rate_limit.py:137-144 | calls at given times in a given order, each repeated or left out at will, keep the limit in every closed interval of window length exactly when the limit is one or no call comes after one that pruned a call within a window of it |
| RateLimiter.OrderedCallsMissNothing | app/core/rate_limit.py:137-144 | calls processed in the order of their times lose and miss nothing, so both theorems apply to them |
| RateLimiter.OvertakenCallsExceedTheLimit | app/core/rate_limit.py:137-144 | when a call is processed after a later one, a closed window of ten seconds can let through more than the limit, for every limit from two on |
| RateLimiter.MemoryLimiter.IsRateLimited | app/core/rate_limit.py:98-144 | prunes, records and answers on the stored log of one key |
| RateLimiter.WindowInvHolds | app/core/rate_limit.py:113-119 | calls allowed since the window started are paid for by the counter, those of two windows by two limits, one fewer when keys linger |
| RateLimiter.ScriptWindowBound | app/core/rate_limit.py:113-126 | at most 2 * limit allowed calls in a closed interval of window length, one fewer in a half-open one or when keys linger at the instant of their expiry, for every call sequence |
| RateLimiter.TwoWindowsReachTheBound | app/core/rate_limit.py:113-126 | 2 * limit calls are reached in a closed interval when a key is gone at the instant of its expiry |
| RateLimiter.LingeringWindowsReachTheBound | app/core/rate_limit.py:113-126 | 2 * limit - 1 calls are reached in a closed interval when a key is still there at that instant |
| RateLimiter.EmptyWindowNeverLimits | app/core/rate_limit.py:113-126 | a window of zero or less never limits |
| RateLimiter.RedisLimiter.IsRateLimited | app/core/rate_limit.py:122-126 | runs the script on one key and answers by its count |
| RateLimiter.CounterCountsFromTheStart | app/core/rate_limit.py:113-119 | a window starts with the first call after the one before has expired, lasts for its length from that call on whatever follows, and the counter counts all calls since |
| RateLimiter.RefusedIffWindowIsFull | app/core/rate_limit.py:113-126 | a call is refused exactly when its window, itself included, then holds more calls than the limit |
| RlsContext.SettingsFollowTheLastEntry | app/db/uow.py:193-316 | after any enters, commits and rollbacks mode, pins and all ten settings are those of the last context entered |
| RlsContext.TableShowsTheContext | alembic/versions/f4d5e6f7a8b9_rls_m4_policies.py:33-43 | in tenant mode a tenant table shows exactly that company's rows, on the platform all, otherwise none |
| RlsContext.TenantsAreDisjoint | alembic/versions/f4d5e6f7a8b9_rls_m4_policies.py:33-43 | sessions of two companies never see a row in common |
| RlsContext.AppliedShows | app/db/uow.py:328-400 | writing all ten settings leaves nothing of an earlier mode behind |
| RlsContext.RenewedShows | app/db/uow.py:302-316 | settings lost at the end of a transaction come back as they were |
| RlsContext.UnitOfWork.ApplyRlsGucs | app/db/uow.py:328-400 | ten writes give exactly the settings of mode and pins |
| RlsContext.UnitOfWork.EnterTenantMode | app/db/uow.py:193-202 | tenant mode with that company, no employee and no auth pins, whatever mode came before |
| RlsContext.UnitOfWork.EnterEmployeeMode | app/db/uow.py:204-224 | tenant of the employee's own company, or auth bootstrap pinned to an employee that was not found |
| RlsContext.UnitOfWork.EnterPlatformMode | app/db/uow.py:226-233 | platform mode without tenant or pins, whatever mode came before |
| RlsContext.UnitOfWork.EnterAuthBootstrapMode | app/db/uow.py:235-284 | rejects invalid pins with nothing changed, else pins the normalised ones |
| RlsContext.UnitOfWork.EnterSessionBootstrapMode | app/db/uow.py:286-293 | session bootstrap without tenant or pins, whatever mode came before |
| RlsContext.UnitOfWork.CommitWork | app/db/uow.py:302-309 | settings are renewed unless no mode was entered |
| RlsContext.UnitOfWork.RollbackWork | app/db/uow.py:311-316 | settings are renewed unless no mode was entered |
| RlsContext.UnitOfWork.Exit | app/db/uow.py:154-173 | leaves no mode, no pins and no settings |
| RlsContext.BootstrapOutcome | app/db/uow.py:235-284 | a Telegram user that is not positive and a blank text are refused with nothing changed; other pins are kept, texts stripped and the e-mail in lower case |
| RlsContext.PinsAreReadBack | app/db/uow.py:328-400 | in auth bootstrap the five pins are read back from their settings, blank when missing or empty, and neither company nor platform shows |

## Left out

- Concurrency inside a transaction: a Unit of Work is one step. Effects of READ COMMITTED between its statements are not modelled, except where the code itself uses two transactions (token rotation, block completion).
- HTTP routes, authentication, password hashing, e-mail, the bot, embeddings, retrieval, analytics and plain CRUD.
- TelegramOutbox.OutboundService.MarkFailed: the retry delay is a parameter, and the check of the error category, which refuses before anything is read, is not modelled.
- TelegramOutbox.OutboundRepository.Enqueue: validation of message body and source, and the row-level policies of the table.
- IdempotencyReceipts.IdempotencyService.Claim: hashing of AI requests and the shape of stored responses; a response is text or null.
- IndexingLease.Indexer.Claim: the article and publication checks before the claim; a claim they refuse is a claim that was not made.
- IndexingLease.Indexer.Finalize: the publication check and the chunk rows it replaces.
- IndexingLease.LostClaimNeverReturns: stamps in order, because a stamp is the start of a transaction and overlapping transactions may carry earlier ones; `ClaimIsLostIffNotUsedInTime` is the exact condition for any stamps.
- RefreshFamilies.RefreshSessionService.IssueReplacement: the check that the employee is still active; when it fails the rotation is abandoned, which is a step of the model.
- RefreshFamilies.RefreshSessionService.Login: token generation and hashing; a raw token is its hash.
- CourseService.CourseStore.CreateStep: validation of step type, minutes and content, made before any row is read.
- CourseService.CourseStore.UpdateStep: forbidden fields and the validation of step type, minutes and content, all of which refuse without a change.
- CourseService.CourseStore.CreateMany: the checks of the assigner, the priority and the deadline overrides (app/services/assignment.py:710-741), due dates, audit rows and reminders.
- CourseService.CourseStore.CompleteStep: payload validation and quiz scoring are the flag `passed`; the quiz modules model them.
- CourseGenerations.SnapshotStepMap: malformed snapshot entries, as only the application writes snapshots.
- Courses: descriptions, plan limits, and deleting companies and employees, which cascades to their rows.
- Recipients.ResolveAssignmentRecipients: the order of recipients and of the assignments created for them.
- CourseCursor.BlockCountIsFixed: decoding stored JSON text is a parameter.
- Acknowledgement.AcknowledgementService.Create: resolving articles to published versions, sorting items by position, and the loop over recipients, which program assignments share.
- ManagerGraph.EmployeeService.CreateEmployee: the checks of role, status, e-mail, department, job title and employee limit.
- ManagerGraph.AcceptanceWrites: the checks of the invite token, which refuse before anything is written.
- ManagerGraph.EmployeeService.UpdateEmployee: the checks of role, department, job title and other fields, and session revocation; deletion is archiving and writes no manager edge.
- Quiz: error texts, legacy quizzes and duplicate object keys; JSON numbers other than integers are compared as their own kind.
- RateLimiter.RedisLimiter.IsRateLimited: the fallback to memory, connection handling, and the one-second granularity of expiry.
- RlsContext.TableShowsTheContext: the policies of other tables. `employees` also admits the auth bootstrap (alembic/versions/f4d5e6f7a8b9_rls_m4_policies.py:91-108), narrowed later (alembic/versions/f7b8c9d0e1f2_rls_m7_auth_bootstrap_narrow.py:58-79), so "otherwise none" is not about it; nor is it about `companies` and the subscription tables. `ai_conversations` and `ai_messages` lost the tenant policy to ownership by the employee (alembic/versions/e3f4a5b6c7d8_ai_conversation_ownership_rls.py:35-71).
- RlsContext: the ORM guard; lower-casing, which is a parameter.
- Learning cursor: payload fields other than the block index, and timestamps.
- Floating point: percentages are exact rationals rounded half to even.
