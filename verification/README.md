# Verified model of the backend's protocols and transformations

Dafny 4.11 models of the parts of this NestJS backend whose behaviour spans many steps: the
broadcast fan-out and its retries, the timed protocols kept in Redis, the concurrent and in-place
algorithms, and the transformations whose output has to mean what their input meant.

`dafny verify dfyconfig.toml` verifies everything.

| module | what it holds |
|---|---|
| `Inbox` | the `notifications` table with its partial unique index, and the repository's statements |
| `ChunkProtocol` | the retry protocol of one chunk without row ids: what every run keeps |
| `BroadcastWorker` | the processor's methods over the table, each proved to take exactly the atomic steps of an attempt |
| `BroadcastRefinement` | every worker step is a protocol step and leaves other chunks alone |
| `BroadcastFanOut` | the producer, all interleavings of chunk workers, the results for a whole broadcast |
| `BroadcastAttempt` | one attempt that nothing interrupts, taken up in any reachable state |
| `BroadcastOverlap` | what happens when two attempts on one chunk overlap |
| `Redis` | the clocked store: GET, SET EX, SET NX EX, DEL, INCR, EXPIRE, compare-and-delete |
| `OtpSession`, `ResetCode`, `RateLimiter` | the OTP sessions, reset codes and limiters of the auth service |
| `SweepLock`, `SendClaims` | the fenced sweep lock, the send-once claims of the SMS and mail workers |
| `PresignCache` | the presign cache over the signer |
| `Concurrency` | `mapWithConcurrency`, runner by runner |
| `MediaSweep` | the orphan sweep over a bucket |
| `Password` | the temporary password and its shuffle |
| `LikeSearch`, `InlineRefs`, `Redact`, `Csv` | search patterns, `$ref` inlining, audit redaction, CSV cells |
| `Wrappers`, `Arithmetic` | option types, histories, and a few facts about products and quotients |

How the model reads the code. Each Redis command, SQL statement and provider call is one atomic
step. JavaScript runs uninterrupted between two awaits, so concurrent workers are interleaved
steps, and a history (`Trace`) of steps, faults and clock ticks is arbitrary unless a lemma says
otherwise. Time, random draws, the push provider's answer, failing listings and deletes and the
`sensitive key` test are parameters. Where a class method of the source changes state, a method
here changes the same fields. Its contract gives the new state as the step functions of the
lemmas make it, except for `PresignCache.CachedStorageService.PresignReadMany`: its batch of
simultaneous stores has a function of its own (`AfterBatch`), and `BatchKeepsEntries` and
`AnswersHaveMargin` show that it keeps the margin the single steps keep.

Where the code and its documentation differ:

- The comment at `src/modules/platform/auth/auth.service.ts:661` says the attempt counter never
  outlives its session. It gets the TTL of the e-mail verification session, which is meant to be
  the longest. What protects a session is the reverse, that the counter does not lapse first.
  `OtpSession.BoundExactly` shows that the promised limit holds in every run exactly when the
  session's TTL is no longer than the counter's (or the limit is one). The code does not enforce
  that, but it takes a configuration that supplies numbers to break it: the `AUTH_*` keys are not
  in the environment schema, environment variables stay text, and
  `src/modules/platform/auth/auth.service.ts:794-799` falls back to the defaults (900, 300 and
  180 s) unless the value is a number. `OtpSession.ConfiguredBound` states the condition for the
  configured TTLs, `OtpSession.EnvironmentKeepsTheBound` that settings from the environment meet it.
- With verify calls in flight at the same time the limit is not `maxAttempts` but up to
  `maxAttempts - 1 + k` for `k` calls, and that many can happen.
- Inlining is meant to replace every resolvable `$ref`. A resolvable one beside a reference that
  cannot be resolved stays, because that object is returned as it is.
  `InlineRefs.OnlyDanglingRefsSurvive` says for which nodes of which documents this happens.
- The limiter allows at most `2 * max - 1` calls in an interval of its window length, one less
  than two full windows, because the call that opens a window passes first.

## Model

| member | source | states |
|---|---|---|
| Inbox.NotificationRepository.BulkInsert | src/modules/platform/notifications/inbox/notification.repository.ts:28-31 | All or nothing: rejected exactly when a row breaks the unique index, and then the table is unchanged |
| Inbox.NotificationRepository.FindExistingByBroadcast | src/modules/platform/notifications/inbox/notification.repository.ts:37-54 | Finds exactly the asked recipients that have a row in the broadcast |
| Inbox.NotificationRepository.FindPendingByBroadcast | src/modules/platform/notifications/inbox/notification.repository.ts:61-79 | The ids and recipients of the broadcast's PENDING rows among those asked for |
| Inbox.NotificationRepository.MarkBroadcastPendingFailed | src/modules/platform/notifications/inbox/notification.repository.ts:85-101 | Only PENDING rows of the broadcast's recipients become FAILED |
| Inbox.NotificationRepository.MarkPushStatusByIds | src/modules/platform/notifications/inbox/notification.repository.ts:177-190 | The named rows get the status whatever it was; only SENT carries a send time |
| Inbox.InsertKeepsValid | src/modules/shared/database/schema/notification.schema.ts:56-58 | A statement accepted by the index keeps one row per (broadcast, recipient), whatever statuses it inserts |
| Inbox.ConflictsExactly | src/modules/shared/database/schema/notification.schema.ts:56-58 | A statement is rejected exactly when it would leave two rows for one (broadcast, recipient); rows without a broadcast never conflict |
| ChunkProtocol.PushBound | src/modules/platform/notifications/queue/notification-broadcast.processor.ts:82-141 | In every run with faults anywhere, pushes per recipient are at most one plus the attempts stopped between delivery and the SENT mark; without such stops at most one; SENT implies a push |
| ChunkProtocol.PushBoundIsMet | src/modules/platform/notifications/queue/notification-broadcast.processor.ts:112-140 | For every number of such stops the retry budget allows there is a run with exactly one push more |
| ChunkProtocol.WhatCounts | src/modules/platform/notifications/queue/notification-broadcast.processor.ts:112-140 | What the bound counts: a loss is a stop between delivery and the SENT mark and nothing else, a push an answer that delivers to the pending users with an alias |
| ChunkProtocol.Outcome | src/modules/platform/notifications/queue/notification-broadcast.processor.ts:103-176 | Completion leaves one row per recipient, SENT (only with an alias) or SKIPPED; a committed terminal step leaves none PENDING; attempts stay within the budget |
| ChunkProtocol.RunKeepsSettled | src/modules/platform/notifications/queue/notification-broadcast.processor.ts:82-88 | Once SENT, SKIPPED or FAILED a recipient's entry never changes in any continuation |
| BroadcastWorker.NotificationBroadcastProcessor.Process | src/modules/platform/notifications/queue/notification-broadcast.processor.ts:51-147 | One attempt leaves the table and the chunk where `Attempt` leads: on from await to await to the end, or to the one that faults; it completes or uses up one attempt |
| BroadcastWorker.NotificationBroadcastProcessor.PersistInbox | src/modules/platform/notifications/queue/notification-broadcast.processor.ts:57-88 | Reads existing rows, inserts the missing ones and reads the PENDING rows, or fails the attempt |
| BroadcastWorker.NotificationBroadcastProcessor.PushPending | src/modules/platform/notifications/queue/notification-broadcast.processor.ts:96-135 | Without targets or when the provider skips, everything pending becomes SKIPPED; a failed push throws with nothing marked |
| BroadcastWorker.NotificationBroadcastProcessor.MarkPushed | src/modules/platform/notifications/queue/notification-broadcast.processor.ts:137-146 | After delivery the targets are marked SENT, then the rest SKIPPED, with a fault possible before, between and after |
| BroadcastWorker.NotificationBroadcastProcessor.OnFailed | src/modules/platform/notifications/queue/notification-broadcast.processor.ts:156-177 | The terminal step runs exactly when the attempts are used up, a failing statement is swallowed, and before that nothing changes |
| BroadcastRefinement.MissingRowsExact | src/modules/platform/notifications/queue/notification-broadcast.processor.ts:57-79 | The rows to insert are one PENDING row for each recipient without a row, with the title and the body in the recipient's locale |
| BroadcastRefinement.InsertNoConflict | src/modules/platform/notifications/queue/notification-broadcast.processor.ts:70-80 | The rows left after the filter never violate the unique index |
| BroadcastRefinement.StepRefines | src/modules/platform/notifications/queue/notification-broadcast.processor.ts:70-176 | Each step on the real table is the protocol's step on the chunk's recipients and touches only their rows |
| BroadcastRefinement.OtherStepKeepsSim | src/modules/platform/notifications/queue/notification-broadcast.processor.ts:92-145 | A step that touches only other chunks' rows disturbs neither what a chunk has stored nor what it has read |
| BroadcastFanOut.NotificationQueueService.EnqueueBroadcast | src/modules/platform/notifications/queue/notification-queue.service.ts:47-86 | Queues one job per chunk in order; nothing for an empty list |
| BroadcastFanOut.ChunksCutTheList | src/modules/platform/notifications/queue/notification-queue.service.ts:67-82 | The chunks concatenate to the recipient list; none is empty, and all but the last are full |
| BroadcastFanOut.ChunkCount | src/modules/platform/notifications/queue/notification-queue.service.ts:85-85 | The number of jobs is n / chunkSize rounded up |
| BroadcastFanOut.ProducerMakesOneBroadcast | src/modules/platform/notifications/queue/notification-queue.service.ts:61-82 | Distinct recipients stay distinct within and across the chunks |
| BroadcastFanOut.EveryRunRefines | src/modules/platform/notifications/queue/notification-broadcast.processor.ts:51-177 | In every interleaving of all chunk workers each chunk runs its own protocol, and rows of other broadcasts never change |
| BroadcastFanOut.InterleavingDoesNotMatter | src/modules/platform/notifications/queue/notification-broadcast.processor.ts:37-37 | Runs in which every chunk does the same end in the same inbox, however the chunks interleave |
| BroadcastFanOut.InterleavedEqualsSequential | src/modules/platform/notifications/queue/notification-queue.service.ts:32-38 | Every interleaving ends in the inbox of running the chunks one after another |
| BroadcastFanOut.PushesInEveryRun | src/modules/platform/notifications/queue/notification-broadcast.processor.ts:82-84 | The push bound, on the real table and for all chunks interleaved |
| BroadcastFanOut.RowsInEveryRun | src/modules/platform/notifications/queue/notification-broadcast.processor.ts:54-56 | In every interleaving: one row per (broadcast, recipient), and what a completed or closed chunk leaves |
| BroadcastFanOut.CopyInEveryRun | src/modules/platform/notifications/queue/notification-broadcast.processor.ts:60-61 | In every interleaving a recipient's row has the title and the body of the recipient's locale, each by its default where that locale has none |
| BroadcastFanOut.BroadcastEndToEnd | src/modules/platform/notifications/queue/notification-queue.service.ts:47-86 | From the producer's call to the inbox, in every run: each recipient's row has the copy of the given title and body, no chunk makes more than the given attempts, and when all chunks are done every recipient has its SENT or SKIPPED row |
| BroadcastAttempt.UninterruptedAttempt | src/modules/platform/notifications/queue/notification-broadcast.processor.ts:82-146 | In any run, an attempt nothing interrupts pushes exactly once to each recipient with a non-empty alias not settled yet and to nobody else; those left become SENT or SKIPPED by alias and provider answer, or stay PENDING when it fails; settled rows keep their status |
| BroadcastFanOut.SettledRowsStay | src/modules/platform/notifications/queue/notification-broadcast.processor.ts:82-84 | A row that left PENDING is identical in every later table |
| BroadcastFanOut.MarkByIdsSparesSettledIff | src/modules/platform/notifications/inbox/notification.repository.ts:177-190 | The mark by id leaves settled rows alone exactly when it names none settled otherwise; it does not test for PENDING |
| BroadcastOverlap.OverlapPushesTwice | src/modules/platform/notifications/queue/notification-broadcast.processor.ts:82-119 | For every job, two overlapping attempts can push to every recipient with an alias twice although no attempt failed |
| BroadcastOverlap.OverlapUnsettles | src/modules/platform/notifications/queue/notification-broadcast.processor.ts:121-141 | For every job, an overlapping attempt can turn the SENT row of every recipient with an alias into SKIPPED |
| Redis.RedisService.Increment | src/modules/shared/redis/redis.service.ts:27-29 | INCR keeps the expiry of a live counter and starts an expired or absent one at 1 without expiry |
| Redis.RedisService.SetExpiry | src/modules/shared/redis/redis.service.ts:31-33 | EXPIRE resets a live key's expiry and ignores an absent one |
| Redis.RedisService.Delete | src/modules/shared/redis/redis.service.ts:23-25 | Removes the key and reports whether it was live |
| Redis.RedisService.AcquireLock | src/modules/shared/redis/redis.service.ts:46-50 | A token is returned and stored exactly when the key was not live |
| Redis.RedisService.ReleaseLock | src/modules/shared/redis/redis.service.ts:57-65 | Deletes the key exactly when it still holds the caller's token |
| OtpSession.SingleUse | src/modules/platform/auth/auth.service.ts:478-554 | In every interleaving of verify calls on a fresh session, of any TTL, at most one succeeds, and none after it was burned, consumed, withdrawn or has expired |
| OtpSession.SuccessNeedsTheCode | src/modules/platform/auth/auth.service.ts:478-554 | In every interleaving a call succeeds only with the session's own code, from a call of its kind, on the live session |
| OtpSession.SucceedsExactly | src/modules/platform/auth/auth.service.ts:355-364 | A verify that nothing interrupts succeeds exactly when a live session of its kind stands under its token with exactly the submitted code, and then only consumes it |
| OtpSession.IssuedSessionAccepts | src/modules/platform/auth/auth.service.ts:319-340 | A session just issued accepts its code, and nothing else, for exactly its TTL |
| OtpSession.OtherTokensUntouched | src/modules/platform/auth/auth.constants.ts:45-48 | No command of any call on an unrelated token touches a key of this one; all results for a session hold with such calls in between |
| OtpSession.OtherKindsAreHarmless | src/modules/platform/auth/auth.service.ts:542-546 | A verify of another kind, even on the shared phone key, changes nothing and fails |
| OtpSession.WrongGuessBound | src/modules/platform/auth/auth.service.ts:646-674 | With at most k calls in flight a session that lives no longer than its counter, or any session under a limit of one, meets at most maxAttempts - 1 + k wrong guesses; k = 1 gives maxAttempts |
| OtpSession.WrongGuessBoundIsMet | src/modules/platform/auth/auth.service.ts:651-674 | For every k there is a run with exactly that many |
| OtpSession.BoundExactly | src/modules/platform/auth/auth.service.ts:786-792 | For every k, the bound for k calls in flight holds in every run exactly when the session's TTL is at most the counter's, the limit is one, or k is zero |
| OtpSession.ConfiguredBound | src/modules/platform/auth/auth.service.ts:786-799 | The same for issued sessions in terms of the configured TTLs: an e-mail verification session is always safe, the others when their TTL does not exceed its |
| OtpSession.EnvironmentKeepsTheBound | src/modules/platform/auth/auth.constants.ts:14-20 | Settings that are unset or text leave the defaults, and at most 4 + k wrong guesses are met |
| OtpSession.CounterOutlivesSession | src/modules/platform/auth/auth.service.ts:659-663 | Between calls a live session's counter is live and holds the number of wrong guesses, fewer than maxAttempts |
| OtpSession.OtpVerifier.AssertOtpMatch | src/modules/platform/auth/auth.service.ts:651-674 | Fails exactly when the codes differ; then the counter is one higher, expires with the longest session when it is new, and at the limit session and counter are gone |
| OtpSession.OtpVerifier.Verify | src/modules/platform/auth/auth.service.ts:355-364 | Succeeds exactly on a live session of the kind with the submitted code; a verify call is the command sequence of the interleaved model |
| ResetCode.WrongGuessBound | src/modules/platform/auth/auth.service.ts:203-281 | Over every run with re-issues a code faces at most max(M, 2M - 2) wrong guesses |
| ResetCode.WrongGuessBoundIsMet | src/modules/platform/auth/auth.service.ts:263-281 | For every limit of at least two a run reaches 2M - 2: the counter survives a re-issue and lapses under the new code |
| ResetCode.ConsumedUntilReissued | src/modules/platform/auth/auth.service.ts:253-256 | After a successful reset no guess matches until a new code is issued |
| ResetCode.OnlyOwnCodeMatches | src/modules/platform/auth/auth.service.ts:236-242 | In every run over any accounts a guess matches only the code last issued to that account and not used since |
| ResetCode.AccountsAreIndependent | src/modules/platform/auth/auth.service.ts:782-784 | In such a run each account's code and counter are what its own events alone make of them, so every result for one account holds among others |
| ResetCode.EmailKeysApart | src/modules/platform/auth/auth.service.ts:782-784 | Two addresses share a key exactly when they are equal, or one is the other followed by the counter suffix |
| ResetCode.LimitKeysApart | src/modules/platform/auth/auth.service.ts:767-767 | The forgot-password limiter counts each address apart from all others and from all codes |
| ResetCode.IssuedCodeMatches | src/modules/platform/auth/auth.service.ts:212-215 | An issued code, and only it, matches for exactly its TTL; a wrong guess below the limit leaves it standing |
| ResetCode.PasswordReset.ForgotPassword | src/modules/platform/auth/auth.service.ts:203-228 | At most three requests pass per address and 60 s window, unknown addresses included; a code is stored only for a known one that passes |
| ResetCode.PasswordReset.ResetPassword | src/modules/platform/auth/auth.service.ts:230-257 | A user row changes exactly on a matching code of an existing account, which also revokes the refresh token and removes code and counter; a match for an account that is gone changes nothing |
| ResetCode.PasswordReset.RegisterResetFailure | src/modules/platform/auth/auth.service.ts:263-281 | The counter is one higher, gets its TTL when it is new, and at the limit code and counter are gone |
| RateLimiter.LimiterBounds | src/modules/platform/auth/auth.service.ts:721-733 | For every arrival sequence at most max calls pass in a window, and at most 2 max - 1 in any half-open interval of its length |
| RateLimiter.IntervalBoundIsMet | src/modules/platform/auth/auth.service.ts:721-733 | A burst across a window's end lets exactly 2 max - 1 calls pass |
| RateLimiter.PassesExactly | src/modules/platform/auth/auth.service.ts:727-732 | A call passes exactly when fewer than max calls of the live window passed before it |
| RateLimiter.CallIsTwoSteps | src/modules/platform/auth/auth.service.ts:727-728 | An uninterrupted call is the INCR step followed by the EXPIRE step, with the same verdict |
| RateLimiter.Limits.AssertRateLimit | src/modules/platform/auth/auth.service.ts:721-733 | The verdict and the stored counter of one call, also used for the forgot-password limit |
| SweepLock.SweepsNeverOverlap | src/modules/platform/storage/services/media-cleanup.service.ts:48-67 | In every run of any number of replicas, sweeps inside the 30-minute TTL never overlap, whatever overran, crashed or released late |
| SweepLock.ReleaseIsFenced | src/modules/shared/redis/redis.service.ts:52-65 | A release changes the store only when it removes the caller's own lock |
| SweepLock.ExclusiveExactly | src/modules/platform/storage/services/media-cleanup.service.ts:18-20 | From any store and for any number of replicas, sweeps that take less than d seconds exclude each other in every run exactly when d is at most 1800 (or the lock is held forever) |
| SendClaims.SendsAreExclusive | src/modules/platform/sms/queue/sms.processor.ts:22-63 | When every claim settles within 900 s there is one send at a time, and none for 900 s after the claim of a kept one, despite the unfenced delete |
| SendClaims.ExclusiveExactly | src/modules/platform/sms/queue/sms.processor.ts:22-25 | From any store and for any number of workers, claims that settle within d seconds exclude each other in every run exactly when d is at most 900 (or the key is held forever) |
| SendClaims.SlowFailureFreesAnotherClaim | src/modules/platform/sms/queue/sms.processor.ts:57-62 | For every d above 900 there is a run in which a failure's unfenced delete frees a claim made in that very second, and a third worker sends beside the second |
| SendClaims.SmsKeysApart | src/modules/platform/sms/queue/sms.processor.ts:44-44 | Two messages share a claim exactly when number and code are both the same (for numbers without a colon) |
| SendClaims.MailKeysApart | src/modules/platform/mail/queue/mail.processor.ts:46-46 | The same for template, address and code of a mail |
| SendClaims.SmsIsNotMail | src/modules/platform/mail/queue/mail.processor.ts:46-46 | No SMS shares a claim with a mail |
| SendClaims.OtherClaimsUntouched | src/modules/platform/sms/queue/sms.processor.ts:45-61 | Nothing that happens to one message's claim touches another's |
| SendClaims.SendProcessor.TwoCodes | src/modules/platform/sms/queue/sms.processor.ts:42-63 | A second code to the same number is sent, whatever became of the first |
| SendClaims.SendProcessor.ProcessSms | src/modules/platform/sms/queue/sms.processor.ts:42-63 | Skips a claimed message; otherwise sends exactly it and keeps the claim for 900 s, or frees it and rethrows; other keys are untouched |
| SendClaims.SendProcessor.ProcessMail | src/modules/platform/mail/queue/mail.processor.ts:43-65 | The same protocol for mail |
| PresignCache.CachedUrlHasMargin | src/modules/platform/storage/services/cached-storage.service.ts:65-76 | Over any overlapping calls with any expiries, a URL served from the cache was signed for that key and has more than 60 s minus the signing delay left |
| PresignCache.CachedUrlIgnoresRequestedExpiry | src/modules/platform/storage/services/cached-storage.service.ts:69-71 | For every key, signing delay, stored expiry and requested expiry above 60 s there is a run in which the request is served a URL with exactly 61 s minus the delay left: the cache key leaves the expiry out and the margin is met |
| PresignCache.ServedAgain | src/modules/platform/storage/services/cached-storage.service.ts:65-76 | A signed URL is served again without signing exactly until 60 s before the lifetime it was signed for has run out after it was stored |
| PresignCache.ShortLivedIsNotCached | src/modules/platform/storage/services/cached-storage.service.ts:66-67 | A lifetime of a minute or less is neither looked up nor stored |
| PresignCache.CachedStorageService.PresignRead | src/modules/platform/storage/services/cached-storage.service.ts:65-76 | The URL, the signer's calls and the new cache are those of the steps ask, look, sign or fail, store; a new URL lives as long as the caller asked, else as configured, else 900 s |
| PresignCache.CachedStorageService.PresignReadMany | src/modules/platform/storage/services/cached-storage.service.ts:78-116 | Returns the hits and the misses that could be signed; signs each missing key once and no cached one; stores every signed miss until a minute before its end and leaves all other entries |
| PresignCache.BatchKeepsEntries | src/modules/platform/storage/services/cached-storage.service.ts:106-112 | The batch store keeps every entry at least 60 s minus the signing time short of its URL's expiry |
| PresignCache.AnswersHaveMargin | src/modules/platform/storage/services/cached-storage.service.ts:93-100 | Every URL a batch call answers from the cache is for its key and has the margin left |
| PresignCache.CachedStorageService.SplitByCache | src/modules/platform/storage/services/cached-storage.service.ts:88-100 | Separates the keys into hits with their cached URL and distinct misses |
| PresignCache.GcsStorageService.PresignReadMany | src/modules/platform/storage/services/gcs-storage.service.ts:176-206 | Signs every distinct key once, reporting a peak of at most eight calls in flight; a failing key is absent from the result |
| Concurrency.EveryInterleaving | src/modules/shared/common/utils/map-with-concurrency.ts:13-35 | In every interleaving indices are claimed 0, 1, 2, ... once each, slots are written once, at most max(1, min(limit, n)) calls are in flight, and every step uses up one of n + workers units |
| Concurrency.CapIsReached | src/modules/shared/common/utils/map-with-concurrency.ts:14-34 | The cap is not only kept but reached: max(1, min(limit, n)) calls can be in flight |
| Concurrency.WhenItEnds | src/modules/shared/common/utils/map-with-concurrency.ts:34-35 | A run is never stuck before the end; at the end every index was called once and every slot is filled |
| Concurrency.MapWithConcurrency | src/modules/shared/common/utils/map-with-concurrency.ts:8-36 | Whatever order calls settle in: one outcome per item in input order, each item worked once, the cap respected, and it returns |
| MediaSweep.SweepRemovesExactly | src/modules/platform/storage/services/media-cleanup.service.ts:78-103 | Removed are exactly the unreferenced dated objects past the grace of some matching prefix whose delete there worked; the rest is untouched |
| MediaSweep.CountsAddUp | src/modules/platform/storage/services/media-cleanup.service.ts:73-76 | scanned = deleted + failed + skipped + kept, over overlapping prefixes |
| MediaSweep.CountersMean | src/modules/platform/storage/services/media-cleanup.service.ts:83-102 | `failed` is the number of failing deletes and `skippedNoTimestamp` that of undated unreferenced objects, prefix by prefix |
| MediaSweep.DeletedIsTheDrop | src/modules/platform/storage/services/media-cleanup.service.ts:92-103 | `deleted` is the drop in the number of objects |
| MediaSweep.MediaCleanupService.SweepPrefix | src/modules/platform/storage/services/media-cleanup.service.ts:78-103 | The bucket and the four counts after one prefix |
| MediaSweep.MediaCleanupService.DeleteAll | src/modules/platform/storage/services/media-cleanup.service.ts:92-102 | Each orphan is tried once; a failure is counted and the loop goes on |
| MediaSweep.MediaCleanupService.FilterOrphans | src/modules/platform/storage/services/media-cleanup.service.ts:81-90 | Selects exactly the orphans of the listing and counts the undated ones |
| MediaSweep.MediaCleanupService.RunSweep | src/modules/platform/storage/services/media-cleanup.service.ts:69-129 | Throws exactly when a provider or a listing throws, having swept only the prefixes before it; otherwise the totals of all prefixes |
| MediaSweep.MediaCleanupService.SweepOrphans | src/modules/platform/storage/services/media-cleanup.service.ts:48-67 | Nothing happens without prefixes or without the lock; otherwise the bucket and totals of the sweep; the store is that of the lock protocol's begin, end and free, even when it throws |
| MediaSweep.MediaCleanupService.CollectReferencedKeys | src/modules/platform/storage/services/media-cleanup.service.ts:131-138 | Exactly the union of the providers' keys |
| Password.ShuffleOneToOne | src/modules/shared/common/utils/password.util.ts:21-25 | The loop reorders its input, and on distinct elements different draws give different orders |
| Password.ShuffleReachesAll | src/modules/shared/common/utils/password.util.ts:21-25 | Every reordering is the result of some draws |
| Password.ShuffleInPlace | src/modules/shared/common/utils/password.util.ts:22-25 | The loop on the array is the shuffle of the numbers drawn |
| Password.GenerateStrongPassword | src/modules/shared/common/utils/password.util.ts:18-27 | Sixteen characters of the four alphabets with at least one of each, whatever is drawn |
| LikeSearch.SearchIsSubstring | src/modules/admin/bug-reports/bug-reports.repository.ts:47-57 | For every search and text the pattern is well formed and matches under LIKE exactly when the text contains the search, letter case folded |
| LikeSearch.Wildcards | src/modules/admin/bug-reports/bug-reports.repository.ts:48-50 | The three special characters are the percent sign, the underscore and the backslash, with their meanings in section 9.7.1 of the PostgreSQL documentation |
| LikeSearch.EscapedPrefix | src/modules/admin/bug-reports/bug-reports.repository.ts:48-50 | After escaping every typed character stands for itself |
| LikeSearch.EscapingNeededExactly | src/modules/admin/bug-reports/bug-reports.repository.ts:48-49 | Without the escape the pattern is a substring test for all texts exactly when the search has no special character |
| LikeSearch.BugReportsRepository.FindAll | src/modules/admin/bug-reports/bug-reports.repository.ts:43-58 | The rows found are the active ones, or all, whose title or description contains the search; an empty search selects all |
| InlineRefs.InlinedReadsLikeFollowing | scripts/generate-api-docs.mjs:30-44 | For every path: if following references meets one twice, the marker of the first such reference stands on the path; otherwise following ends and inlined document and followed references show the same or both nothing |
| InlineRefs.InliningTwice | scripts/generate-api-docs.mjs:30-44 | In the result a `$ref` met from the top has no target, and inlining it again changes nothing |
| InlineRefs.OnlyDanglingRefsSurvive | scripts/generate-api-docs.mjs:35-39 | In any document, a resolvable reference survives exactly when the node, or the target of a reference met from it by following references, has an unresolvable reference beside a resolvable one |
| InlineRefs.UntidyKeepsARef | scripts/generate-api-docs.mjs:35-36 | A document, with any truthy component in it, one of whose components keeps its resolvable reference |
| InlineRefs.ResolveRef | scripts/generate-api-docs.mjs:19-28 | The loop returns what `Resolve` is proved to mean below; null for a foreign or broken reference |
| InlineRefs.ResolvesToPath | scripts/generate-api-docs.mjs:21-27 | For keys without a slash, `#/k1/../kn` resolves to v exactly when v stands in the document under k1, .., kn, one inside the other |
| InlineRefs.OnlyPathsResolve | scripts/generate-api-docs.mjs:20-21 | Nothing but such a path resolves |
| InlineRefs.SplitParts | scripts/generate-api-docs.mjs:21-21 | The parts of a path hold no slash and join to the path |
| InlineRefs.FalsyIsNoTarget | scripts/generate-api-docs.mjs:37-37 | Null, false, zero and the empty string, and nothing else, count as no target |
| InlineRefs.NestedComponent | scripts/generate-api-docs.mjs:19-28 | A component three levels down is what its reference resolves to |
| InlineRefs.SelfReference | scripts/generate-api-docs.mjs:33-43 | A schema whose property refers back to it is expanded once, with `$circular` where the reference comes again |
| InlineRefs.ArraysAreMapped | scripts/generate-api-docs.mjs:32-32 | An array is inlined item by item and never taken for a reference |
| InlineRefs.RefsAreEnough | scripts/generate-api-docs.mjs:37-39 | The references that occur in a document are a finite bound on those met in it, cyclic or not; `Inline` terminates by counting them down |
| Redact.EachReachableObjectOnce | src/modules/shared/common/audit/sinks/redact-sensitive.util.ts:32-52 | On any shared or cyclic graph the nodes written out show, entry by entry, exactly the objects reachable without a sensitive key, each by one node |
| Redact.OutputIsSafe | src/modules/shared/common/audit/sinks/redact-sensitive.util.ts:44-50 | No sensitive key at any depth of the result |
| Redact.UnsharedIsFiltered | src/modules/shared/common/audit/sinks/redact-sensitive.util.ts:32-52 | On unshared input redaction is plain recursive key filtering |
| Redact.SecondPassChangesNothing | src/modules/shared/common/audit/sinks/drizzle-audit.sink.ts:32-33 | Redacting a redacted tree gives the same tree |
| Redact.Redactor.RedactSensitive | src/modules/shared/common/audit/sinks/redact-sensitive.util.ts:32-52 | The result is a fresh unshared tree with the specified content, no existing object changes, and it ends on every graph |
| Redact.Redactor.Fill | src/modules/shared/common/audit/sinks/redact-sensitive.util.ts:40-49 | The loop over items or entries fills the new object with the kept ones in order |
| Redact.Snapshot | src/modules/shared/common/audit/audit.interceptor.ts:116-117 | Interceptor pass, then sink pass: two separate fresh trees with equal safe content, the input untouched |
| Csv.FileRoundTrip | src/modules/shared/common/utils/csv.util.ts:16-24 | Rows of cells joined by commas and line breaks read back, under section 2 of RFC 4180: a formula with one quote in front, every other text exactly as it was, nothing for no value |
| Csv.CellRoundTrip | src/modules/shared/common/utils/csv.util.ts:17-23 | One printed cell reads back so, and leaves the rest of the line unread |
| Csv.QuotedOnlyWhenNeeded | src/modules/shared/common/utils/csv.util.ts:20-23 | A cell is printed as its text unless that holds a quote, comma or line break; then it stands between quotes |
| Csv.NothingIsAFormula | src/modules/shared/common/utils/csv.util.ts:8-19 | No value read back starts, after white space, with a formula trigger |
| Csv.LooksLikeFormula | src/modules/shared/common/utils/csv.util.ts:8-8 | The regular expression holds exactly when a trigger follows nothing but white space |
| Csv.TriggersAreFour | src/modules/shared/common/utils/csv.util.ts:8-8 | After white space, exactly =, +, - and @ make a formula |
| Csv.BlankCharacters | src/modules/shared/common/utils/csv.util.ts:8-8 | White space is that of a JavaScript regular expression, by code point |
| Csv.SameCell | src/modules/shared/common/utils/csv.util.ts:19-19 | Two values share a cell exactly when their text is equal or one is the other already carrying the quote |

## Left out

- ChunkProtocol.PushBound: attempts on one chunk do not overlap and the users of a chunk are distinct, because `markPushStatusByIds` does not test for PENDING (`BroadcastOverlap` shows what overlapping attempts do).
- BroadcastWorker.NotificationBroadcastProcessor.Process: a broadcast without id is not modelled (the producer always supplies one); the result's row counts, the text of the push, and the deep link, icon, type and payload columns are not carried.
- BroadcastFanOut.NotificationQueueService.EnqueueBroadcast: the chunk size is positive, as the environment schema makes it; the generated broadcast id and the queue's backoff are not modelled.
- Inbox.NotificationRepository.BulkInsert: a row's status is never null and no send time is inserted, as in the rows the worker builds.
- BroadcastFanOut.RowsInEveryRun: users deleted while a broadcast runs (the cascade on the recipient column) and the order in which a SELECT returns rows are not modelled.
- BroadcastFanOut.PushesInEveryRun: pushes are calls to the push port that it reports as delivered; `src/modules/platform/notifications/push/one-signal-push.sender.ts:80-117` repeats a failed provider request up to twice inside one call, without an idempotency key, so the provider itself may send more.
- OtpSession.SingleUse: the session token is fresh, and no other token is it with the counter suffix, as random tokens are; unreadable session JSON, and the user lookup and tokens issued after the session was consumed, are not modelled.
- OtpSession.OtpVerifier.Verify: the attempts key holds a counter; INCR on another type, which the code never stores there, would be a Redis error.
- ResetCode.OnlyOwnCodeMatches: no address is another one followed by `:attempts`, which e-mail validation excludes.
- ResetCode.WrongGuessBound: each call is one atomic step, because `resetPassword` ignores the result of its delete and interleaved calls could both reset.
- RateLimiter.LimiterBounds: a call that dies between INCR and EXPIRE leaves a window that never closes; the bounds still hold, but the key stays limited.
- SendClaims.SendProcessor.ProcessSms: message templates and the gateway are not modelled; a worker that dies keeps its claim.
- PresignCache.CachedStorageService.PresignReadMany: entries of one pipeline are stored at one moment; a failing Redis is not modelled.
- PresignCache.GcsStorageService.PresignReadMany: retries of transient signing errors are inside the per-key outcome; all URLs of one call carry the time it started.
- MediaSweep.SweepRemovesExactly: nobody else writes the bucket during a sweep and listings are complete; a delete that fails after it removed the object is not modelled.
- Password.GenerateStrongPassword: how likely each draw is; the draws are arbitrary values in range.
- LikeSearch.BugReportsRepository.FindAll: the equality filters, ordering and paging are not modelled; folding is per character, so case mappings that change a text's length are outside.
- InlineRefs.InlinedReadsLikeFollowing: a truthy `$ref` that is not a string raises a TypeError in the code and is excluded; `#/` paths into string indices, array lengths and inherited properties are not modelled; `~0` and `~1` in a reference are not decoded, as in the code.
- Redact.Redactor.RedactSensitive: which keys are sensitive is a parameter; a key named `__proto__` and getters are not modelled; a shared object appears once and as "[Circular]" afterwards, as in the code.
- Csv.FileRoundTrip: a value is its text already (`String` or `JSON.stringify`); the code writes cells only, and the joining with commas and line breaks is the one of the standard.
- bcrypt, JWT, OAuth and refresh-token rotation: foreign libraries.
- HTTP controllers, validation, guards, mail HTML, todo and bug-report CRUD, consent history, countries, health: no deep state.
- Markdown rendering of the API documents and the audit sink's size bound: formatting.
