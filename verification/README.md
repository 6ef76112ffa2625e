# Verification of the submitter SMTP daemon

This project models the stateful cores of the outbound daemon in Dafny and proves what they
promise, over every input, every run and every interleaving:

- the **delivery queue and its worker pool** (`queue`, `delivery`, `race`, `racebound`, `raceruns`,
  `tries`, `singleworker`, `promises`, `waiting`, `refusals`): rows, retries, any number of workers
  racing on snapshots that nobody claimed, writes that the database refuses, answers that are lost,
  and a daemon that is stopped within an attempt and started again on the same table;
- the **rate limiter** (`ttlstore`, `ratelimit`, `limiterbounds`, `limiterlaws`, `checks`, `quota`): counters in
  Redis, the in-memory fallback, check-then-act quotas;
- **deduplication** (`dedup`) over the same kind of store;
- the **spool** (`spool`, `spoolruns`): file system steps with a crash allowed between any two, and
  operations running at the same time;
- the **event buffer** (`eventbuffer`): a reused backing array and concurrent flushes;
- the **SMTP session** (`session`, `identity`, `submission`): authentication, envelope and message, down to what
  is on the spool's disk when the session is over.

Each core has two layers. A class has the program's fields and methods, and every method is proved
against a function of the old state. A step system interleaves the operations, and the theorems are
about all its runs. For the limiter, the session and the event buffer the methods' contracts name the
system's own step functions. For the others, lemmas say that an operation nobody interrupts is a run
of the system: `DeliveryRace.BatchIsRun`, the `…IsRun` lemmas of `SpoolRuns`, `Quota.UninterruptedCheck`
and `Dedup.UninterruptedCheck`, and the contracts of `Quota.Backend`. Where a promise fails for some
inputs the theorem is an equivalence that says exactly when it holds, or a bound together with a run
that reaches it. What single operations compute is also stated in literal terms, column by column and
answer by answer, by the methods' contracts and by lemmas about the step functions. Rows marked
(helper) are one-step facts of this kind.

Conventions. Clock readings are integer nanoseconds that never decrease, taken wherever the program
reads the clock. A Redis key is live while the clock has not passed its expiry. Network answers,
database refusals, Redis failures and file system faults are inputs, or arbitrary choices inside a
method. Identifiers the program draws at random are fresh. Byte strings stand for user names and
passwords, and client addresses are opaque strings.

Places where the code settles a question:

- The call at `internal/delivery/worker.go:119` passes one argument fewer than its callee declares,
  so it does not compile; it is read as "mark permanently failed with this error".
- The repository's README lists the row states `pending` and `delivering`. The code has no
  `pending` and never stores `delivering`, and `DeliveredAtIffDelivered` proves the latter.
- The retry schedule must not be empty (`internal/delivery/worker.go:330` indexes its last entry).
- `deliver` itself only returns code 0 with an error or 250 without one; the model leaves the reply
  open, so that the 5yz branch of its caller is covered.

## Model

| member | source | states |
|---|---|---|
| `DeliveryQueue.Queue.EnqueueDelivery` | internal/queue/queue.go:118-147 | inserts a queued row with each column as given, no attempts and due at once, unless the key is taken or the database refuses |
| `DeliveryQueue.Queue.GetPendingDeliveries` | internal/queue/queue.go:150-220 | returns distinct, unchanged, due rows in order of next_attempt, and leaves a due row out only when the limit is filled with rows scheduled no later |
| `DeliveryQueue.PendingBatchMeans` | internal/queue/queue.go:150-160 | (helper) what such a batch is: up to the limit, rows queued or temp_fail and due by the present second, earliest first, none left out but for rows scheduled no later |
| `DeliveryQueue.Queue.UpdateDeliveryState` | internal/queue/queue.go:223-255 | writes each column of one row as given, adds one to its own attempts, sets delivered_at only for delivered, and keeps the others; an unknown id changes nothing |
| `Delivery.AttemptOutcome` | internal/delivery/worker.go:111-161 | (helper) each of the three states an attempt may write, exactly when it writes it, each column of the write, and the second at which a retry is due, from both sides |
| `Delivery.Worker.CalculateNextRetry` | internal/delivery/worker.go:325-331 | the retry comes the schedule's entry for the attempts made, or its last one beyond the end, from now |
| `Delivery.Worker.UpdateDeliveryTempFail` | internal/delivery/worker.go:296-322 | reschedules in whole seconds, or fails for good when the snapshot was on its last attempt |
| `Delivery.Worker.ProcessDelivery` | internal/delivery/worker.go:104-162 | changes exactly the row of the snapshot, as the decision on the snapshot says; what goes out is the first of the signed, modified and parsed message, to the recipient, at the MX found |
| `Delivery.Worker.ProcessBatch` | internal/delivery/worker.go:84-101 | takes one batch of ten and applies each snapshot's decision in order |
| `DeliveryRace.BatchIsRun` | internal/delivery/worker.go:84-101 | a batch processed without interruption is a run of the interleaved system |
| `DeliveryRace.DeliveredAtIffDelivered` | internal/queue/queue.go:223-235 | in any interleaving delivered_at is set exactly on delivered rows and "delivering" is never stored |
| `DeliveryRace.ShadowRefines` | internal/queue/queue.go:223-235 | seen through one row the whole system only takes, uses up or loses low and high snapshots, and loses all of them when the daemon ends; a high one always ends the row |
| `DeliveryRace.HoldersAtMostWorkers` | internal/delivery/worker.go:84-101 | no more snapshots of a row are held than there are workers |
| `RaceBound.PotentialStep` | internal/delivery/worker.go:296-322 | (helper) no step raises attempts plus potential above the bound |
| `RaceBound.AttemptsBounded` | internal/delivery/worker.go:296-322 | with any number of racing workers, in every interleaving, and however often the daemon is stopped and started on its table, a row's recorded attempts stay within the bound for the largest pool of the run |
| `RaceBound.AttemptBoundClosedForm` | internal/delivery/worker.go:301-304 | the bound is M + W(W+1)/2 + W - 2 for M >= 2, never more for M = 1, and M for one worker |
| `RaceRuns.AttemptBoundReached` | internal/delivery/worker.go:84-101 | for every W >= 1 and every limit some interleaving, with no write refused, records exactly that many attempts |
| `Tries.TriesBounded` | internal/delivery/worker.go:317-319 | in every such run the attempts made on a row are those recorded, those the database refused to record and those the daemon's end cut off, so at most the bound plus the latter two |
| `Refusals.TriesReached` | internal/delivery/worker.go:317-319 | for every W >= 1, limit and numbers of refusals and of attempts cut off some run makes exactly that many attempts |
| `Refusals.TriesBoundedIff` | internal/delivery/worker.go:272-274 | "no row is tried for ever": a bound on attempts made over all runs exists exactly when no write is refused and no attempt cut off, or nobody works |
| `Refusals.AcceptancesAccounted` | internal/delivery/worker.go:244-274 | with one worker the receiving server takes a message once for its delivered row, and once more for each time its answer was lost or the write was refused or cut off |
| `Refusals.DeliversOnceIff` | internal/delivery/worker.go:244-274 | "the receiving server takes a message at most once" holds of every run exactly when nobody works, or one worker at a time does, no write is refused or cut off by a stop, and no answer is lost or only one attempt is allowed |
| `Promises.DeliveredFinalIffOneWorker` | internal/delivery/worker.go:84-101 | "delivered is final" holds of every run, stops and starts included, exactly when no pool has more than one worker |
| `Promises.EndedFinalIff` | internal/delivery/worker.go:301-304 | "an ended row stays ended" holds of every such run exactly when no pool has more than one worker or at most one attempt is allowed |
| `Promises.AttemptsWithinLimitIff` | internal/delivery/worker.go:301-304 | "recorded attempts never exceed max_attempts" holds of every such run exactly when there is one worker at most at a time and a positive limit, or no worker ever and a limit not negative |
| `Promises.TwoWorkersCollide` | internal/delivery/worker.go:84-101 | a run in which a second worker's stale snapshot takes a delivered row back to temp_fail, or to perm_fail |
| `SingleWorker.FinalRowsUntouched` | internal/queue/queue.go:150-158 | with one worker delivered and perm_fail rows are never written again |
| `SingleWorker.LifeCycle` | internal/queue/queue.go:25-29 | with one worker at a time, across stops and starts, between any two moments of a run a row stays as it is or goes on from queued or temp_fail, with more attempts, to temp_fail, delivered or perm_fail; it is queued exactly while unattempted, and within max_attempts |
| `SingleWorker.LifeCycleSinceStart` | internal/delivery/worker.go:51-57 | from a start with one worker on, whatever pools there were before, rows only go on and ended rows stay as they are |
| `SingleWorker.EveryAttemptCounts` | internal/delivery/worker.go:296-322 | (helper) every recorded attempt ends the row or leaves strictly fewer attempts, and at least one |
| `Waiting.BoundedWaiting` | internal/queue/queue.go:150-158 | in pools of any size, a due row with k pending rows scheduled no later has been tried once any one worker has completed ceil((k + c)/10) batches, where c counts the visits to other rows that left or put them ahead; batches lost to a stop do not count |
| `Waiting.WaitingWithRefusals` | internal/delivery/worker.go:317-319 | with delays not negative c is at most the number of that worker's refused writes on other rows, and the attempt is recorded unless its own write is refused or cut off |
| `Waiting.WaitingWhenRecorded` | internal/queue/queue.go:150-158 | with no write refused or cut off ceil(k/10) batches of one worker attempt the row and record it, whatever is enqueued or rescheduled meanwhile |
| `Waiting.RetrySpacing` | internal/delivery/worker.go:325-331 | with one worker at a time, across stops and starts, the fetch after n recorded failures comes later than enqueueing plus the first n delays less n seconds, or less one second in all when the delays are whole seconds |
| `Waiting.RetryNotLate` | internal/delivery/worker.go:296-331 | with one worker at a time a row with n recorded failures becomes due no later than the schedule's n-th delay, or its last, after the second of the last one |
| `Refusals.SpacedByTriesIff` | internal/delivery/worker.go:317-319 | the same spacing for n attempts made, recorded or not, holds of every run exactly when no write is refused or cut off, or the schedule asks for no distance |
| `Refusals.NoDistanceAtAll` | internal/delivery/worker.go:325-331 | a schedule asks for no distance when its last delay is at most a second and each of its first n delays come to less than n seconds; that is so exactly when it is so for every n |
| `RateLimit.Limiter.CheckRedisLimit` | internal/ratelimit/ratelimit.go:201-220 | one INCR and EXPIRE, either of which may be lost; admits exactly when no error is seen and the new count is within the limit |
| `RateLimit.Limiter.CheckLocalLimit` | internal/ratelimit/ratelimit.go:223-242 | counts in the current bucket or opens one, and admits while the count is within the limit |
| `RateLimit.Limiter.CheckLimit` | internal/ratelimit/ratelimit.go:135-150 | the fallback answers exactly the calls that Redis fails |
| `RateLimit.Limiter.CheckIPFailedAuth` | internal/ratelimit/ratelimit.go:117-132 | counts the attempt of the address, whatever Redis fails, and admits it while the count is within ipFailedAuthPerHour; counters and buckets last an hour |
| `RateLimit.Limiter.CheckUserMessages` | internal/ratelimit/ratelimit.go:135-150 | the same for the user with userMessagesPerHour and an hour |
| `RateLimit.Limiter.CheckGlobalMessages` | internal/ratelimit/ratelimit.go:183-198 | the same for all users with globalMessagesPerSecond and a second |
| `RateLimit.Limiter.CheckIPConnection` | internal/ratelimit/ratelimit.go:73-100 | refuses on the global counter without counting the attempt, else counts it for the address and decides by ipConnectionsPerMinute and a minute |
| `RateLimit.Limiter.IncrementConnection` | internal/ratelimit/ratelimit.go:103-107 | adds one to the connection counter and changes nothing else |
| `RateLimit.Limiter.DecrementConnection` | internal/ratelimit/ratelimit.go:110-114 | takes one from the connection counter and changes nothing else |
| `RateLimit.Limiter.CheckUserRecipients` | internal/ratelimit/ratelimit.go:153-180 | admits exactly when the count read plus the new recipients is within the limit, and then adds them for an hour; a failed read counts as zero |
| `RateLimit.Limiter.CleanupLocalBuckets` | internal/ratelimit/ratelimit.go:260-277 | removes exactly the buckets that ran out more than five minutes ago |
| `LimiterBounds.RedisWindow` | internal/ratelimit/ratelimit.go:201-220 | whatever commands are lost, Redis admits at most limit calls of a key in any interval of one window |
| `LimiterBounds.LocalWindows` | internal/ratelimit/ratelimit.go:223-242 | in one life of the daemon the buckets admit at most limit * (m + 1) - 1 calls of a key in any interval of at most m windows |
| `LimiterBounds.CombinedWindow` | internal/ratelimit/ratelimit.go:87-92 | in one life of the daemon both paths together admit at most 3 * limit - 1 calls of a key in any interval of one window, whatever Redis does |
| `LimiterBounds.CombinedBoundReached` | internal/ratelimit/ratelimit.go:87-92 | for every key and positive limit the program can admit exactly 3 * limit - 1 |
| `LimiterLaws.CounterIsStreak` | internal/ratelimit/ratelimit.go:204-219 | with Redis up, from any counters left at the start, the counter is the number of attempts, refused ones too, since the last gap longer than the window, or since the start with what was then left |
| `LimiterLaws.AdmittedIffStreakShort` | internal/ratelimit/ratelimit.go:214-219 | an attempt is admitted exactly when that number is within the limit |
| `LimiterLaws.LocalAdmittedIff` | internal/ratelimit/ratelimit.go:223-242 | an attempt that Redis fails is admitted exactly when its bucket, which the attempts themselves open and end, has taken at most limit |
| `LimiterChecks.ConnectionsPerMinute` | internal/ratelimit/ratelimit.go:83-92 | the window bounds and both equivalences for an address with ipConnectionsPerMinute and sixty seconds |
| `LimiterChecks.AuthenticationsPerHour` | internal/ratelimit/ratelimit.go:117-126 | the same with ipFailedAuthPerHour and 3600 seconds |
| `LimiterChecks.MessagesPerHour` | internal/ratelimit/ratelimit.go:135-144 | the same for a user with userMessagesPerHour and 3600 seconds |
| `LimiterChecks.MessagesPerSecond` | internal/ratelimit/ratelimit.go:183-192 | the same for all with globalMessagesPerSecond and one second |
| `LimiterLaws.LockedOutUntilIdle` | internal/ratelimit/ratelimit.go:204-219 | between a refused and an admitted attempt of a key lies an idle gap longer than its window |
| `LimiterLaws.RedisIsStricter` | internal/ratelimit/ratelimit.go:201-242 | fed the same timed attempts, whatever the Redis limiter admits the local one admits |
| `LimiterLaws.CounterOutlastsBucket` | internal/ratelimit/ratelimit.go:201-242 | Redis remembers at least as many attempts as the bucket, for at least as long |
| `LimiterLaws.CleanupInvisible` | internal/ratelimit/ratelimit.go:260-277 | cleanups at arbitrary moments change no answer |
| `Quota.RecipientQuota` | internal/ratelimit/ratelimit.go:153-180 | from any counters, with N sessions of a user between GET and INCRBY, at most limit + (N - 1) * min(limit, MaxRecipients) recipients are added in any interval of one window, besides those of calls that Redis failed |
| `Quota.RecipientQuotaReached` | internal/ratelimit/ratelimit.go:157-174 | for every N >= 1 and every positive limit and MaxRecipients some interleaving with Redis up adds exactly that many |
| `Quota.QuotaKeptIff` | internal/ratelimit/ratelimit.go:164-179 | "at most limit recipients in any window" holds of every run exactly when one session calls at a time and Redis is up, or nothing is ever admitted |
| `Quota.QuotaBoundedIff` | internal/ratelimit/ratelimit.go:157-179 | there is any bound at all exactly when Redis is up, or nothing is ever admitted |
| `Quota.UninterruptedCheck` | internal/ratelimit/ratelimit.go:153-180 | (helper) the two steps with nothing between them, whatever Redis fails, leave the counters as the whole call does |
| `Quota.ConnectionLimit` | internal/smtpserver/session.go:39-49 | the connection counter is the number of open sessions, never negative, zero under a limit that is not positive, and with N overlapping NewSession calls at most limit + N - 1 |
| `Quota.ConnectionLimitReached` | internal/smtpserver/session.go:39-49 | for every positive limit and every N >= 1 some interleaving has exactly limit + N - 1 open |
| `Quota.ConnectionsKeptIff` | internal/smtpserver/session.go:39-49 | "open connections stay within the limit" holds of every run exactly when NewSession calls do not overlap or the limit admits none |
| `Quota.Backend.NewSession` | internal/smtpserver/session.go:35-49 | a call that no other overlaps checks, then counts the session or refuses it, as the moves of the connection system say |
| `Quota.Backend.EndSession` | internal/smtpserver/session.go:229-233 | ending a session takes it off the counter, as the system's move says |
| `Dedup.Deduplicator.Check` | internal/dedup/dedup.go:46-88 | reports the stored original of the body's hash, else stores this one; disabled or with Redis failing every message passes |
| `Dedup.Deduplicator.Delete` | internal/dedup/dedup.go:99-113 | forgets the hash, unless disabled; a failed DEL is reported, carried out or not |
| `Dedup.CheckAgreesWithLog` | internal/dedup/dedup.go:46-88 | a message is a duplicate of m exactly when m is the latest undeleted original with its body in the log, at most a window ago |
| `Dedup.DuplicateIffSameBody` | internal/dedup/dedup.go:51-55 | while no two different bodies in the log share a hash, a duplicate is a message whose body equals that of the original reported |
| `Dedup.OriginalsFarApart` | internal/dedup/dedup.go:57-73 | two originals with one body and no deletion between are more than a window apart |
| `Dedup.RaceDeclaresAtMost` | internal/dedup/dedup.go:57-73 | from any store, of N overlapping calls with one body at most N * (D + 1) are told unique within a window that has D deletions, besides those told so because Redis failed |
| `Dedup.RaceReached` | internal/dedup/dedup.go:57-113 | for every N and D some interleaving with Redis up tells exactly that many so |
| `Dedup.DeclaresOneIff` | internal/dedup/dedup.go:57-113 | "one unique message with a body in a window" holds of every run exactly when calls do not overlap, Redis is up and nothing is deleted, or there are no calls |
| `Dedup.DeclaresBoundedIff` | internal/dedup/dedup.go:61-113 | there is any bound at all exactly when Redis is up and nothing is deleted, or there are no calls |
| `Dedup.UninterruptedCheck` | internal/dedup/dedup.go:46-88 | (helper) the two steps with nothing between them leave the store as the whole call does |
| `Spool.Spool.Write` | internal/spool/spool.go:95-133 | from the step at which tmp/id.eml appears every state, and so every crash, has a complete and synced copy in tmp or incoming; tmp/id.eml is never partial, nor on one device is incoming/id.eml; success means incoming, an error leaves a complete copy exactly if the message got its name, and a disk without faults makes no error |
| `Spool.Spool.WriteToTmp` | internal/spool/spool.go:96-124 | until the rename no message file exists; a partial file of that name refuses the write and is left alone |
| `Spool.Spool.Move` | internal/spool/spool.go:156-185 | every state has a complete copy at one end, by rename or by copying, synced if the source was; a failed move leaves the source as it was, and without faults a move of what is there succeeds; on one device the move is one step |
| `Spool.Spool.CopyFile` | internal/spool/spool.go:188-206 | the source is untouched in every state, and success, which a disk without faults brings, means a complete and synced copy; a missing source fails and nothing is created |
| `Spool.Spool.Read` | internal/spool/spool.go:136-146 | not found exactly when the file is not there, an error exactly when the file system fails, else the file's content |
| `Spool.Spool.Delete` | internal/spool/spool.go:209-219 | success means the file is gone, also when it was not there, and only a fault prevents it; nothing else changes |
| `Spool.Spool.Cleanup` | internal/spool/spool.go:254-297 | removes only files older than a positive retention of their stage, and without faults leaves a file exactly when its stage has no positive retention or its age is within it |
| `SpoolRuns.RestsOnceAsWritten` | internal/spool/spool.go:95-185 | in any interleaving a message rests in at most one stage with the bytes its Write was given |
| `SpoolRuns.VanishesOnlyWhenRemoved` | internal/spool/spool.go:209-297 | (helper) a step after which a message is nowhere is a Delete of it, or a cleanup that began when its age exceeded the retention of the stage it was in |
| `SpoolRuns.SweepLeavesNothingOld` | internal/spool/spool.go:254-297 | in any interleaving, after a cleanup that looked at a file without faults the file is gone if it was older than its retention when the cleanup began, unless something was written there meanwhile |
| `SpoolRuns.RestsUnlessRemoved` | internal/spool/spool.go:95-297 | after any run each message put into the spool is in some stage, or such a step occurred |
| `SpoolRuns.Conservation` | internal/spool/spool.go:156-219 | for every place, presence plus arrivals equal presence later plus departures plus removals |
| `SpoolRuns.OneMoveWins` | internal/spool/spool.go:156-185 | of any number of moves of a message out of one stage at most one succeeds, unless it comes back in between |
| `SpoolRuns.AcceptedInIncoming` | internal/spool/spool.go:123-133 | in every interleaving the step with which a Write succeeds leaves its message complete in incoming |
| `SpoolRuns.KeptIffNamed` | internal/spool/spool.go:116-130 | in every interleaving a message that nobody removes rests in the spool exactly if its Write gave it its name, which every successful Write has |
| `SpoolRuns.RefusedButKept` | internal/spool/spool.go:123-130 | a run in which the Write fails and the message stays in tmp, complete |
| `SpoolRuns.WriteIsRun` | internal/spool/spool.go:95-133 | the files a successful Write leaves on one device are those of a run |
| `SpoolRuns.MoveIsRun` | internal/spool/spool.go:156-185 | the files a Move leaves on one device, by its result, are those of a run |
| `SpoolRuns.DeleteIsRun` | internal/spool/spool.go:209-219 | the files a Delete leaves, by its result, are those of a run |
| `SpoolRuns.CleanupIsRun` | internal/spool/spool.go:254-297 | whatever a Cleanup may leave, complete or not, some run leaves |
| `EventBuffer.ExactlyOnce` | internal/clickhouse/client.go:156-200 | in every interleaving the batches in lock order followed by the buffer are the events logged; the buffer stays below its size but for flushes started and not yet run |
| `EventBuffer.FlushPerFilling` | internal/clickhouse/client.go:163-167 | each event that fills the buffer starts a flush and no other does; a full buffer always has one to come |
| `EventBuffer.FlushTakesAll` | internal/clickhouse/client.go:171-182 | (helper) a flush makes one batch of all that is in the buffer, and none of an empty one |
| `EventBuffer.ClosingFlushDrains` | internal/clickhouse/client.go:203-223 | after the closing flush every event logged is in a batch |
| `EventBuffer.Client.LogEvent` | internal/clickhouse/client.go:156-168 | appends, in place or into a larger array, and starts a flush exactly when the buffer then has its size; no batch handed out changes |
| `EventBuffer.Client.TakeBatch` | internal/clickhouse/client.go:171-182 | hands out a fresh copy of the whole buffer and empties it, keeping the array; earlier batches keep their content |
| `EventBuffer.Drive` | internal/clickhouse/client.go:137-215 | the arrays follow the abstract run through any interleaving, and at the end each batch still holds what it was handed out with |
| `Session.EveryEffectJustified` | internal/smtpserver/session.go:88-226 | over every command sequence each spool write is for a user who proved an identity, with 1..MaxRecipients recipients just admitted and within the size limit; each password check directly follows an admitted address check |
| `Session.AcknowledgedAreStored` | internal/smtpserver/session.go:154-219 | over every command sequence the messages answered as accepted are exactly those whose Write succeeded, whole and in order |
| `Session.KeptIffNoneLeftBehind` | internal/smtpserver/session.go:197-204 | a session keeps exactly the messages it answered as accepted if and only if no Write of it failed after the naming |
| `Session.SentAgain` | internal/smtpserver/session.go:197-204 | a session in which a message answered 451 is kept, sent again and kept twice |
| `Session.KeptIsAcknowledgedIff` | internal/smtpserver/session.go:197-204 | "the messages kept are those answered as accepted" holds of every session exactly when no Write fails after the naming, or the limits let nothing through |
| `Submission.Converse` | internal/smtpserver/session.go:154-219 | the session object, on the spool's disk with faults at will, follows the run; at its end each message answered as accepted is complete in incoming, and of each message there is a complete copy exactly if it counts as kept |
| `Session.MailAnswers` | internal/smtpserver/session.go:88-124 | (helper) MAIL is accepted exactly for an authenticated user within both limits; each refusal, the checks asked, and the sender kept only then |
| `Session.RcptAnswers` | internal/smtpserver/session.go:127-151 | (helper) RCPT is accepted exactly after a sender and with room left, and adds the recipient at the end |
| `Session.WholeMessageOrNone` | internal/smtpserver/session.go:154-219 | (helper) DATA gets to the spool exactly when recipients exist and are admitted and the message is readable and fits, and then with the whole message; each of the other cases has its answer |
| `Session.ResetForgets` | internal/smtpserver/session.go:222-226 | (helper) a reset forgets the envelope and nothing else |
| `Session.PlainReadsWhatWasSent` | internal/smtpserver/session.go:268-280 | a PLAIN response is read as a user and password exactly when it is a PLAIN message of them |
| `Session.PlainAttempts` | internal/smtpserver/session.go:268-342 | (helper) PLAIN with a user and a password asks the allowlist, the limit and Redis about exactly these, in this order, and becomes that user exactly when they admit |
| `Session.NotPlainIsMalformed` | internal/smtpserver/session.go:268-275 | a response that is no PLAIN message of any user and password is malformed and changes nothing |
| `Session.LoginAttempts` | internal/smtpserver/session.go:283-342 | (helper) LOGIN prompts twice and does the same with the second response as user and the third as password; a fourth is malformed |
| `Session.NoSuchExchange` | internal/smtpserver/session.go:256-266 | (helper) other mechanisms, and responses outside an exchange, are malformed and change nothing |
| `Identity.AuthenticatedIffLetIn` | internal/smtpserver/session.go:256-342 | over every command sequence the session is authenticated as a user exactly when the last command that let anyone in let that user in: it completed an exchange offering the user, and the allowlist or the limit and the password admitted it |
| `Identity.EnvelopeIsWhatWasAccepted` | internal/smtpserver/session.go:88-226 | over every command sequence the envelope holds the last sender and all recipients accepted since the last reset |
| `Session.RecipientsFollowIffNamedSender` | internal/smtpserver/session.go:127-133 | (helper) after an accepted MAIL recipients are accepted exactly when the reverse-path is not empty |
| `Session.WritesWithinAdmissions` | internal/smtpserver/session.go:98-124 | when each DATA is followed by a reset, at most one message is spooled for each MAIL the limits admitted |
| `Session.DataInARow` | internal/smtpserver/session.go:154-219 | for every n some session from its start spools n messages with one MAIL admitted, by n DATA commands in a row |
| `Session.PaidForIffReset` | internal/smtpserver/session.go:154-226 | "at most one message written for each MAIL admitted" holds of every session exactly when the server resets after DATA, or the limits let nothing through |
| `Session.SmtpSession.Authenticate` | internal/smtpserver/session.go:304-342 | accepted exactly by the allowlist, or within the limit with the right password; 421 and 535 exactly in their own cases; the identity changes only on success |
| `Session.SmtpSession.NextResponse` | internal/smtpserver/session.go:256-301 | one SASL step of the mechanism chosen |
| `Session.SmtpSession.StartAuth` | internal/smtpserver/session.go:80-85 | a new SASL exchange of the mechanism named, none of the session's identity changed |
| `Session.SmtpSession.ResetEnvelope` | internal/smtpserver/session.go:222-226 | forgets the sender and the recipients, and keeps the identity |
| `Session.SmtpSession.MailFrom` | internal/smtpserver/session.go:88-124 | requires authentication, then the user's and the global limit, before the sender is kept |
| `Session.SmtpSession.RcptTo` | internal/smtpserver/session.go:127-151 | requires a sender and room among the recipients |
| `Session.SmtpSession.ReceiveData` | internal/smtpserver/session.go:154-219 | reads through the limited reader, writes to the spool and answers as the session step says; accepted means complete in incoming, and otherwise a complete copy is left exactly when the Write failed after the naming |

## Left out

- MX lookup, the SMTP client dialogue and STARTTLS: network calls, replaced by arbitrary answers.
- SQL text, transactions and connection loss: each statement is one atomic step that succeeds or is refused; rows with equal next_attempt come in no particular order.
- Redis beyond GET, SET, INCR, INCRBY, EXPIRE and DEL with expiry: no eviction, restart or replication, and a pipeline of two commands is one step with respect to other clients.
- SHA-256 itself: the hash is any function, free of collisions among the bodies at hand only where bodies rather than hashes are compared.
- SpoolRuns.Conservation: one file system and fresh identifiers; a move between devices may leave both copies when its last step fails, and the partial file of a failed write is always removed.
- SpoolRuns.WriteIsRun: of a failed Write only the crash and fault contracts of the method speak.
- Directory fsync and reordering of writes by the disk: a crash stops the program between steps, and completed steps persist.
- Spool listing and counting, queue statistics, the messages table and its stage column: simple reads and inserts.
- MIME and address parsing, TLS certificates, allowlist matching, configuration, logging, metrics, health endpoints and the wiring at program start: no state of the kind modelled here.
- LimiterBounds.CombinedWindow: a restart empties the buckets in memory, and each life of the daemon has its own share of them.
- Restarts: a daemon is started only after the one before it has ended, and with the same retry schedule; in the spool a stop is an operation that takes no further step.
- A stop between a successful Write and the answer to the client, or an answer the client does not hear, leaves a message kept of which the client does not know.
- The go-smtp library: the session is proved for every order of its commands, and the reset after DATA is a hypothesis where it matters.
- Integer widths: counters and byte counts stay far below 64 bits in every bound proved; a configured message size of 2^63 - 1 would wrap in the reader's limit.
