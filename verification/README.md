# Terravoy backend: a verified model

This project models the stateful parts of the Terravoy travel backend and proves what they
guarantee over every run. Each SQL transaction, plpgsql call, Redis script or handler is one
atomic step over abstract tables, with the clock, generated ids, provider answers and
failures as inputs. Most parts have two layers: the steps as functions (or relations, where
the database may choose) with the theorems about runs, and the imperative code as classes
over mutable tables whose methods are proved equal to the steps. What a step does is also
said over the rows themselves, without its definition, and the methods ensure that too.

Run the verifier with `dafny verify dfyconfig.toml`.

| part | steps and theorems | code |
|---|---|---|
| Match engine: greedy two-sided matching under 60-second leases | `MatchTables` | `MatchEngine` |
| Chat log: sequence numbers, idempotent send, cursors, paging, retention | `MessageLog`, `MessagePaging` | `ImApi` |
| Push queue: stream, retries with backoff, dead letters | `PushQueue` | `PushWorker` |
| WebSocket hub and cross-gateway fanout | `Fanout` | `Hub` |
| Orders, payments, refunds and webhooks | `Orders`, `Payments`, `PaymentMeanings`, `PaymentRuns`, `PaymentGuarantees`, `Reconciliation` | `PaymentStore` |
| Rate limiters: in-process list and Redis script | `RateLimiter` | `RateLimiter` |
| Host certification, its approval gate and cache | `HostCertification` | `HostCertService` |
| Plaza keyset paging and its cursor | `PlazaPaging` | |
| Object keys of chat media | `ObjectKey`, `Strings` | |

`Prelude` holds an option type and two arithmetic helpers.

## What the code does differently from what one would expect

These follow the code; each is a lemma below, most with the exact condition.

- The Redis rate script stores one member per millisecond, so hits in the same millisecond
  count once. The two limiters decide a run of calls alike if and only if max never falls between
  the stamps and the hits of a window (`LimitersAgreeIffNeverSplit`), and under every max if and only if
  no two accepted hits of the window share a millisecond (`RulesAgreeForEveryMaxIffDistinct`).
- A push backoff is computed in 64-bit arithmetic that wraps. All attempts up to the n-th wait what
  they should if and only if base * 2^n fits in an int64 (`BackoffIsExactIffItFits`); the first one that
  does not fit has a negative wait (`FirstOverflow`), for the default base attempt 54
  (`DefaultBackoffOverflows`).
- `afterSeq` listings return the newest rows past the bound, so a forward sync has a gap when
  more than one page is missing (`ForwardPageContinuesOnlyIfAllFits`).
- `truncated` is false when every message has expired (`TruncationReportIsExact`).
- Two gateways with the same id lose each other's messages (`RemoteSubscribersGetOneCopyIffIdsDiffer`).
- A post or comment cursor keeps milliseconds of a microsecond timestamp: posts in the rest of the
  boundary's millisecond are skipped (`PostsWalkIsCompleteIffClean`), and comments are repeated, for
  ever with one comment a page (`CommentsWalkIsCompleteIffWhole`, `CommentWalkCanStall`).
- An accepted refund request leaves its order REFUNDING even after the provider's immediate
  success was processed (`RefundRequestEndsRefunding`, `SucceededRefundStaysRefunding`).
- Reconciliation makes an order with a recorded payment PAID again after its refund, once per
  payment (`ReconcileUndoesRefundsOnce`, reached by `RefundedOrderIsPaidAgain`). A payment whose intent
  has no provider id is reconciled against the newest processing intent of its provider, possibly of
  another order (`UnnamedPaysTheNewestProcessing`).
- A webhook whose processing failed is not processed by redelivery, only by the retry job or, for
  reconcile events, the reconcile job (`RedeliveryChangesNothing`).

## Model

| member | source | states |
|---|---|---|
| MatchTables.OverlapIsASharedDay | db/migrations/0006_try_match_setof_up.sql:56-57 | The range operator on two ordered trip cards holds exactly when some day lies in both trips |
| MatchTables.CompatibleIsMutual | db/migrations/0006_try_match_setof_up.sql:50-87 | The candidate condition, null cases included, is symmetric |
| MatchTables.TrySettles | db/migrations/0006_try_match_setof_up.sql:22-117 | After a try on a request no compatible fresh pair contains it |
| MatchTables.StepKeepsPairsWithin | db/migrations/0006_try_match_setof_up.sql:22-172 | No call opens a new compatible fresh pair, and a try closes all of its request's |
| MatchTables.MaximalityIsKept | db/migrations/0006_try_match_setof_up.sql:22-172 | With profiles and cards fixed, no state of any run leaves two fresh waiting requests that could be matched with each other |
| MatchTables.SweepRestoresMaximality | server/src/workers/match_worker.js:107-181 | From any tables, trying every initially fresh request once ends with no compatible fresh pair, whatever other calls happen in between |
| MatchTables.StepKeepsInv | db/migrations/0007_match_sessions_unique.sql:1-9 | Every call keeps the foreign keys, the one-waiting-per-profile index, the 60-second lease and single use of requests |
| MatchTables.StartKeepsInv | db/migrations/0006_try_match_setof_up.sql:138-171 | start_match never meets the one-waiting-per-profile index |
| MatchTables.RequestsAreUsedOnce | db/migrations/0006_try_match_setof_up.sql:99-115 | Over every run a request is named by at most one session counting both slots, is matched exactly when it is named, and every session joins two profiles |
| MatchTables.StepMakesAtMostOneSession | db/migrations/0006_try_match_setof_up.sql:44-117 | A step makes at most one session, out of two fresh compatible requests, choosing a candidate no other was seen more recently than |
| MatchTables.SessionsAreSound | db/migrations/0006_try_match_setof_up.sql:44-117 | Every session of a run was made by one identified step from requests fresh and compatible at that moment |
| MatchTables.TryMeans | db/migrations/0006_try_match_setof_up.sql:44-117 | Every outcome the try relation allows meets the row-by-row conditions on the two requests, profiles and cards, and conversely an empty answer to a fresh request means no other request meets them |
| MatchTables.StartMeans | db/migrations/0006_try_match_setof_up.sql:122-172 | The same for a start: what is closed, the one row added, and the try |
| MatchTables.StepMovesRow | db/migrations/0004_match_request_freshness.sql:46-72 | A row never leaves cancelled, expired or matched, and expires only after its lease ran out |
| MatchTables.ClosedIsFinal | db/migrations/0004_match_request_freshness.sql:59-73 | Over every run a closed request's row never changes again |
| MatchTables.HeartbeatsPreventExpiry | db/migrations/0004_match_request_freshness.sql:36-57 | A request touched at least every 60 seconds is never expired, and its lease always shows the latest touch |
| MatchEngine.Database.TryMatch | db/migrations/0006_try_match_setof_up.sql:7-120 | A session joins the request with another profile's fresh request only when each gender wish is absent, any or the other's gender, each known age lies in the other's bounds, the cities are equal and some day lies in both cards; no such request was seen more recently; None to a fresh request means there is no such request; the two rows are matched, expired rows marked, all else unchanged |
| MatchEngine.Database.StartMatch | db/migrations/0006_try_match_setof_up.sql:122-172 | The profile's waiting rows are cancelled, one row with a 60-second lease is added and tried as above; a failing insert changes nothing |
| MatchEngine.Database.CancelActiveMatchRequests | db/migrations/0004_match_request_freshness.sql:15-34 | Exactly the profile's waiting rows become cancelled, row by row, and the answer counts them |
| MatchEngine.Database.CancelMatch | db/migrations/0004_match_request_freshness.sql:59-73 | The request is no longer fresh and a waiting one is cancelled; every other and every closed row is unchanged, the table invariant stays and no compatible pair opens |
| MatchEngine.Database.TouchMatchRequest | db/migrations/0004_match_request_freshness.sql:36-57 | The owner's waiting request with an unexpired lease is returned, seen now, with a lease of sixty seconds; anything else changes nothing |
| MatchEngine.Database.FetchWaitingRequests | server/src/workers/match_worker.js:23-35 | Returns the most recently seen fresh requests, each once, in order, and all of them when they fit |
| MatchEngine.Database.RunOnce | server/src/workers/match_worker.js:85-181 | One sweep whose batch covers the fresh requests leaves no compatible fresh pair, and counts the sessions it made |
| MessageLog.StepHandsOutTheNext | im/im-api/main.go:751-799 | A send hands out last_seq + 1 or nothing |
| MessageLog.SendMeans | im/im-api/main.go:693-799 | A row is added exactly when the kind is known, the call is not limited, no row is stored under the sender and client id, the thread is active, the sender is its member and nothing fails; it carries the draft's thread, sender, kind and content; each refusal has its reason; any other call leaves the tables alone |
| MessageLog.OnlyMembersWrite | im/im-api/main.go:735-746 | Over every run from empty tables, the sender of every stored message is a member of its thread |
| MessageLog.SequenceHasNoGaps | im/im-api/main.go:751-799 | The numbers ever assigned in a thread are 1 to last_seq, each once and in order, whatever fails or interleaves |
| MessageLog.StoredIsASuffix | im/im-worker/main.go:264-283 | With a nondecreasing clock, what retention leaves of a thread is a contiguous suffix of its numbers |
| MessageLog.UnreadIsExact | im/im-api/main.go:486-488 | unread_count is the number of messages ever sent beyond the cursor |
| MessageLog.CursorIsTheLargestReport | im/im-api/main.go:556-561 | A cursor is the largest of its start and everything its member reported |
| MessageLog.CursorIgnoresOrder | im/im-api/main.go:556-561 | Runs with the same set of reports leave the same cursor |
| MessageLog.RetryRepeatsExactlyWhileRetained | im/im-api/main.go:713-733 | A retry of a stored message gets its id, number and time and changes nothing, exactly while the row is retained |
| MessageLog.FirstReplyIsRepeated | im/im-api/main.go:713-799 | An accepted send's later retries get the very first reply, exactly while retained |
| MessageLog.AppendKeepsKeys | im/im-api/main.go:767-792 | The insert never meets the (sender, client id) index, so with atomic handlers the duplicate-key fallback is unreachable |
| MessageLog.JoiningKeepsCursors | im/im-api/main.go:445-460 | Ensuring a thread makes exactly the listed users members and moves no cursor |
| MessageLog.EnsureMeans | im/im-api/main.go:384-474 | Accepted exactly with two members or more, the caller among them, all in known roles; then the thread exists, new ones active with their kind's days, and exactly the listed users joined at zero |
| MessageLog.TwoDeletesArePurge | im/im-worker/main.go:264-283 | The two deletes of a retention pass keep exactly the rows inside their kind's cutoff, in order |
| MessageLog.PurgeIsSince | im/im-worker/main.go:264-283 | Seen from one thread, a retention pass is one more lower bound on creation time |
| MessageLog.RetainMeans | im/im-worker/main.go:264-283 | A pass keeps exactly the rows younger than their kind's days, each day 24 hours |
| MessageLog.RunKeepsInv | im/im-api/main.go:705-799 | Over every run the table is chronological, keys are unique and every thread stores one block of numbers ending at last_seq |
| MessagePaging.BackwardPagingIsComplete | im/im-api/main.go:590-646 | Paging back by the first number of each page until a page is empty rebuilds exactly the visible log |
| MessagePaging.PagesAreContiguous | im/im-api/main.go:601-646 | Every page, whatever its bounds, is a run of consecutive ascending numbers no longer than the limit |
| MessagePaging.ForwardPageContinuesOnlyIfAllFits | im/im-api/main.go:603-617 | A page after a continues at a + 1 exactly when everything past a fits in it |
| MessagePaging.OlderPagesAreStable | im/im-api/main.go:607-617 | Pages before a number are unaffected by later sends, reads, status changes and retention within the cutoff |
| MessagePaging.TruncationReportIsExact | im/im-api/main.go:650-663 | truncated holds exactly when something, but not everything ever sent, is visible |
| MessagePaging.PageMeans | im/im-api/main.go:590-646 | A page holds only what was asked for, ascending and within the limit, and omits an asked row only when full of newer ones |
| ImApi.Service.CreateMessage | im/im-api/main.go:667-819 | Stores a message exactly under the conditions of SendMeans, with the draft's content and the next number, and changes nothing otherwise, rollback included |
| ImApi.Service.ReadThread | im/im-api/main.go:546-571 | Accepted exactly from members with a bound that is not negative; the cursor reaches the report, never goes back and no other moves; reporting the same or less again changes nothing |
| ImApi.Service.EnsureThread | im/im-api/main.go:384-474 | Accepted and joined exactly as EnsureMeans says, through the loops and the rollback |
| ImApi.Service.SelectDescending | im/im-api/main.go:612-642 | The descending scan with limit yields the newest selected rows, newest first |
| ImApi.Service.ListMessages | im/im-api/main.go:573-665 | To members only: rows of the thread inside its days and the bounds, at most 1 to 200 as asked, newest first to get in, with the exact minimum and truncation report |
| ImApi.ReverseInPlace | im/im-api/main.go:643-646 | The swap loop reverses the array |
| ImApi.Service.RunRetention | im/im-worker/main.go:264-283 | Keeps exactly the rows inside their kind's configured days |
| PushQueue.BackoffIsTheWrappedProduct | im/im-worker/main.go:247-253 | For every base and attempt the backoff is the 64-bit truncation of base * 2^attempt, capped at a minute |
| PushQueue.BackoffIsCappedDoubling | im/im-worker/main.go:247-253 | While base * 2^attempt fits in an int64 the backoff is that value capped at a minute |
| PushQueue.BackoffIsExactIffItFits | im/im-worker/main.go:247-253 | All attempts up to the n-th wait the capped product if and only if base * 2^n fits in an int64 |
| PushQueue.FirstOverflow | im/im-worker/main.go:247-253 | At the first attempt that does not fit, the wait has the wrong sign: for a positive base it is the product less 2^64 |
| PushQueue.BackoffIsMonotone | im/im-worker/main.go:247-253 | Within that bound, for a base that is not negative, the backoff never decreases and never exceeds a minute |
| PushQueue.DefaultBackoffOverflows | im/im-worker/main.go:74-75 | The default base is right up to attempt 53 and negative at attempt 54 |
| PushQueue.HandleByOutcome | im/im-worker/main.go:163-245 | Each outcome if and only if: postponed when not due; skipped when due and sent within the week; left pending when the lookup fails; discarded without devices; sent when every device was reached; retried or dead-lettered in every other case; and what each does to stream, pending list, dead letters and keys |
| PushQueue.JobsAreConserved | im/im-worker/main.go:163-245 | Counted with multiplicity, every produced job is in a stream, pending, dead, sent, discarded or skipped |
| PushQueue.NothingIsSkipped | im/im-worker/main.go:179-183 | With each pair produced once the dedup key never fires |
| PushQueue.EachJobIsInExactlyOnePlace | im/im-worker/main.go:163-245 | At every handler boundary a job is in exactly one of the five places |
| PushQueue.EntriesAreTruthful | im/im-worker/main.go:232-245 | Every entry's attempt and availability record its job's failures and the last one's backoff |
| PushQueue.DeadLettersExhaustedTheirRetries | im/im-worker/main.go:232-239 | A dead letter failed exactly PushMaxRetries times (once when that is below one) |
| PushQueue.NoAttemptIsEarly | im/im-worker/main.go:168-173 | No send or failure happens before the backoff after the previous failure has passed |
| PushWorker.Pipeline.EnqueuePushJobs | im/im-api/main.go:875-913 | Appends one untried, due entry for exactly the members that are neither the sender, online nor failing |
| PushWorker.Pipeline.ReadGroup | im/im-worker/main.go:141-148 | Reading keeps every entry and the arrival order, moves as many as asked or there are, and conserves every job |
| PushWorker.Pipeline.HandlePushMessage | im/im-worker/main.go:163-210 | Each outcome holds exactly under its condition on entry, devices and answer, with the whole new queue; every other job is conserved |
| PushWorker.Pipeline.RetryOrDLQ | im/im-worker/main.go:232-245 | A failed attempt conserves every job: it ends in the dead letters exactly when it was the last allowed, else last on the stream with one more attempt and its backoff |
| PushWorker.RecipientsAreDistinct | im/im-api/main.go:879-912 | Distinct members get one job each, exactly those not the sender and not online |
| PushWorker.ApiProducesOnce | im/im-api/main.go:875-913 | With fresh message ids no pair is ever produced twice |
| Hub.Registry.IndexesAreDetermined | im-gateway/main.go:97-102 | In a valid registry both indexes are functions of the live connections |
| Hub.Registry.AddConn | im-gateway/main.go:112-116 | Adds one live connection and keeps the indexes exact inverses |
| Hub.Registry.AttachUser | im-gateway/main.go:140-148 | Names the connection's user and keeps the indexes exact inverses |
| Hub.Registry.Subscribe | im-gateway/main.go:150-161 | Adds one subscription and keeps the indexes exact inverses |
| Hub.Registry.RemoveConn | im-gateway/main.go:118-138 | Removes the connection from both indexes and leaves no empty set |
| Hub.Registry.RemoveSubscriptions | im-gateway/main.go:130-137 | The loop takes the connection out of every thread's set and drops the sets it empties |
| Hub.Registry.Broadcast | im-gateway/main.go:163-172 | Every subscriber with room gets the payload once, everyone else nothing |
| Fanout.QueuesIsAppending | im-gateway/main.go:163-172 | A broadcast step appends a copy exactly to the subscribers with room |
| Fanout.ConnectedIffOpened | im-gateway/main.go:112-138 | Over every run from gateways without connections, exactly those are connected that opened a connection and did not close it since |
| Fanout.ListensIffSubscribed | im-gateway/main.go:118-161 | Exactly those connections listen to a thread that subscribed while open and did not close since |
| Fanout.AtMostOneCopy | im-gateway/main.go:206-236 | Over every run no connection is queued two copies of a publication |
| Fanout.LocalSubscribersGetOneCopy | im-gateway/main.go:481-503 | A subscriber on the sender's gateway with room among its sixteen slots, answers included, gets exactly one, Redis up or down |
| Fanout.RemoteSubscribersGetOneCopyIffIdsDiffer | im-gateway/main.go:206-236 | After a publish with Redis up, and until it is lost, the first receive at another gateway gives each listening subscriber with room exactly one copy if and only if the two gateway ids differ, else none |
| Fanout.RedisDownStaysLocal | im-gateway/main.go:490-494 | A publication made while Redis is down is never queued by another gateway, whatever runs later |
| Fanout.EchoFilterSilences | im-gateway/main.go:223-228 | A gateway with the publication's origin id queues it only as its publisher |
| RateLimiter.SlidingWindowRateLimiter.Check | server/src/utils/rateLimiter.js:10-29 | The pruning loop decides and stores as the step does and touches no other key |
| RateLimiter.PrunedListRefinesFullHistory | server/src/utils/rateLimiter.js:10-29 | A call is allowed exactly when fewer than max accepted hits of the full history lie in the window |
| RateLimiter.NoWindowOverflows | server/src/utils/rateLimiter.js:19-28 | No window of that length ever holds more than max accepted hits |
| RateLimiter.RetryInstantIsExact | server/src/utils/rateLimiter.js:19-24 | A refused caller alone on its key is allowed from the retry instant on and not a millisecond before |
| RateLimiter.RetryAdviceIsExact | server/src/utils/rateLimiter.js:19-24 | In whole seconds, the advised wait suffices and one second less does not |
| RateLimiter.KeysAreIndependent | server/src/utils/rateLimiter.js:13-27 | A key's list is what its own calls alone produce |
| RateLimiter.RedisRateKey.AllowRate | im/im-api/internal/redisx/redisx.go:19-38 | The verdict; the stamps inside the window, with now on a yes, kept for the window and a second more; and the time until the oldest leaves |
| RateLimiter.ScriptCountsStamps | im/im-api/internal/redisx/redisx.go:19-38 | The script, key expiry included, allows exactly when fewer than max different stamps of its history lie in the window |
| RateLimiter.StampsAgainstHits | im/im-api/internal/redisx/redisx.go:26-35 | Counting stamps never exceeds counting hits and equals it exactly when the window's hits are pairwise distinct |
| RateLimiter.RulesDifferIffSplit | im/im-api/internal/redisx/redisx.go:27-34 | On one accepted history the two rules differ exactly when max lies above the stamps and not above the hits, and then the script allows |
| RateLimiter.RulesAgreeForEveryMaxIffDistinct | im/im-api/internal/redisx/redisx.go:27-35 | They agree under every max if and only if no two accepted hits of the window share a stamp |
| RateLimiter.LimitersAgreeIffNeverSplit | im/im-api/internal/redisx/redisx.go:19-38 | Over any run of calls the two implementations decide alike if and only if max never splits a window, and then accept the same hits |
| RateLimiter.ScriptAgreesOnIncreasingStamps | im/im-api/internal/redisx/redisx.go:19-38 | In particular they agree when no two calls share a millisecond |
| RateLimiter.ScriptMissesHitsInOneMillisecond | im/im-api/internal/redisx/redisx.go:35-35 | And not always: of three calls in any one millisecond under max 2 the script allows the third and the in-process limiter does not |
| Orders.ChangesAreAuthorised | server/src/routes/orders.js:245-404 | A route changes only the order it names, only as its caller may, refunds what it cancels, and a refusal changes nothing |
| Orders.StatusIsReachableIffAuthorised | server/src/routes/orders.js:245-404 | A caller can bring an order into another status by some route if and only if the table of authorised changes says so |
| Orders.CreateMeans | server/src/routes/orders.js:153-243 | Accepted from every traveler with a complete request; the traveler's order of that host, experience and time exists afterwards and is opened, unpaid and logged, only if it did not before |
| Orders.MarkPaidMeans | server/src/routes/orders.js:245-277 | Accepted exactly from the traveler of an unpaid order that is neither cancelled nor completed, which is then paid and waits for its host; nothing else changes |
| Orders.SteerMeans | server/src/routes/orders.js:279-404 | Accept, reject, cancel, start and end are accepted exactly where the table allows, and then move that order with one log entry and nothing else; a refusal changes nothing |
| Orders.HandleKeepsInv | server/src/routes/orders.js:153-404 | Every user route keeps logs true, payment times consistent and bookings unique, and only appends to histories |
| Orders.TrueHistoriesAreExactlyTheShaped | server/src/routes/orders.js:236-404 | The histories the writers can leave are exactly: some steps of the path, then cancellations, by refund only from PENDING_HOST_CONFIRM and none once the service started |
| Orders.CompletedOrdersWalkedThePath | server/src/routes/orders.js:378-404 | An order is COMPLETED exactly when its log is the five-entry path; none is DISPUTED |
| Orders.OutcomesAreFinal | server/src/routes/orders.js:327-404 | COMPLETED is absorbing, the cancelled set is closed, a started service is not cancelled, a payment is not forgotten |
| Orders.AutoCloseIsExact | server/src/jobs/index.js:22-72 | Orders waiting over half an hour for payment are cancelled, those over twelve hours for their host cancelled and refunded, each with one log entry; every other order and log stays |
| PaymentGuarantees.OrderLogsAreTrue | server/src/routes/orders.js:236-404 | Over runs of all writers, every log chains from creation to the current status; COMPLETED logs are exactly the path |
| PaymentGuarantees.OrderOutcomesAreFinal | server/src/jobs/index.js:22-72 | Over runs of all writers, outcomes are final and logs only grow |
| PaymentGuarantees.PaidMeansPaid | server/src/services/payments/eventProcessor.js:120-136 | A payment time exists exactly when not UNPAID, in every status from PENDING_HOST_CONFIRM to COMPLETED, and for every order with a payment or refund row |
| PaymentGuarantees.OneOrderPerBooking | server/src/routes/orders.js:184-191 | No two orders share traveler, host, experience and start time |
| PaymentGuarantees.EventsCommitAtMostOnce | server/src/services/payments/webhookHandler.js:65-101 | No (provider, event id) commits twice, over deliveries, sync events, retries and reconciliation; processed means committed |
| PaymentGuarantees.ProcessedIsFinal | server/src/jobs/payments.js:86-104 | An event marked processed stays so |
| PaymentGuarantees.RedeliveryChangesNothing | server/src/services/payments/webhookHandler.js:65-71 | Any later delivery under the same key, whatever its content, is answered as a duplicate and changes nothing |
| PaymentGuarantees.OnePaymentPerTransaction | server/src/services/payments/eventProcessor.js:107-116 | At most one payments row per provider and non-null transaction id |
| PaymentGuarantees.PaymentEffects | server/src/services/payments/eventProcessor.js:63-170 | A payment success settles one intent, named or newest processing, pays its order and no other, and leaves the payment on record |
| PaymentGuarantees.RefundEffects | server/src/services/payments/eventProcessor.js:283-348 | A refund success closes one refund and marks its order REFUNDED, and nothing else |
| PaymentGuarantees.OtherEventsMoveNoMoney | server/src/services/payments/eventProcessor.js:176-277 | Other events and failed processing leave orders and payments alone; a failed transaction leaves everything alone |
| PaymentMeanings.ProcessMeans | server/src/services/payments/eventProcessor.js:36-384 | For each kind of event, which row it is about, what becomes of that row and its order, when processing counts as done, and what a fault leaves; nothing else changes |
| PaymentMeanings.PaymentMeans | server/src/services/payments/eventProcessor.js:63-170 | A success pays the order of a row with its intent id, or of the provider's newest processing intent, or does nothing; the payment is recorded unless its transaction is |
| PaymentMeanings.RefundSuccessMeans | server/src/services/payments/eventProcessor.js:283-348 | A refund success closes the newest matching refund and marks its order REFUNDED, and fails, changing nothing, exactly without one or with its id on another row |
| PaymentMeanings.DeliverMeans | server/src/routes/payments.js:67-100 | An event is stored and processed once under its key, marked processed or failed, and a later one with that key changes nothing |
| PaymentMeanings.HandleWebhookMeans | server/src/services/payments/webhookHandler.js:39-102 | Each answer exactly for its cause; only a new, signed event with an id changes tables, and the answer says whether it was processed |
| PaymentMeanings.RetryMeans | server/src/services/payments/webhookHandler.js:168-192 | A retry does to the tables what the event means under the provider it was stored under; success marks it processed, failure spends one retry |
| PaymentMeanings.ReconcileRowMeans | server/src/jobs/payments.js:82-105 | A processed event is left alone, an unprocessed one processed again without spending a retry, a new one delivered |
| PaymentMeanings.ReconcileListIsComplete | server/src/jobs/payments.js:65-74 | A pass takes the payments whose order is not PAID, oldest first, and omits one only when its limit is reached by older ones |
| PaymentMeanings.ReconcileEventReports | server/src/jobs/payments.js:6-21 | The event made of a payment is a success under its own key, of its provider, transaction and intent |
| PaymentMeanings.ConfirmMeans | server/src/routes/payments.js:215-346 | Accepted exactly from the traveler, when nothing is left to confirm or the provider answers and the order keeps one waiting intent; then one event with the outcome said is delivered, none if none is said, and the intent takes its status; otherwise nothing changes |
| PaymentMeanings.ConfirmCases | server/src/routes/payments.js:281-338 | Case by case: failed on the mock fails the intent and moves no money, plain succeeds, an action asked for stores no event without a final answer; elsewhere a final answer counts outside the webhook-only mode and leaves the intent processing and the money alone in it; an order is paid up exactly when the confirmation says paid |
| PaymentMeanings.CreateIntentMeans | server/src/routes/payments.js:102-213 | The traveler of an open unpaid order gets its waiting intent, or a new one as the provider answered; anyone and anything else changes nothing |
| PaymentMeanings.RefundMeans | server/src/routes/payments.js:348-457 | When a refund may be asked for, the row it adds on the newest payment, what is left when the provider or its id fails, and that the order ends REFUNDING after the outcome was delivered |
| PaymentMeanings.RetryRefundMeans | server/src/routes/payments.js:459-523 | A retry leaves a finished refund, takes the provider's answer and id otherwise, leaves the order REFUNDING, and changes nothing on failure |
| PaymentGuarantees.RetryListIsComplete | server/src/services/payments/webhookHandler.js:156-163 | A pass takes failed events with retries left, oldest first, and omits one only when its limit is reached by older ones |
| PaymentGuarantees.RetriesAreSpent | server/src/services/payments/webhookHandler.js:168-192 | A pass over n events lowers the sum of remaining retries by at least n, whatever fails |
| PaymentGuarantees.RetryingEnds | server/src/services/payments/webhookHandler.js:155-196 | After as many passes as retries remain nothing is retryable and a further pass changes nothing |
| PaymentGuarantees.RefundRequestEndsRefunding | server/src/routes/payments.js:447-451 | Every accepted refund request ends with the order REFUNDING |
| PaymentGuarantees.SucceededRefundStaysRefunding | server/src/routes/payments.js:415-451 | Also when the provider succeeded at once, the sync event was processed and the refund row says succeeded |
| PaymentGuarantees.OneActiveIntentPerOrder | db/migrations/0008_payments.sql:23-25 | Over every run at most one intent of an order is active |
| PaymentGuarantees.CreateIntentIsIdempotent | server/src/routes/payments.js:135-150 | Asking again while the intent is active, under any key, gives the same intent and changes nothing |
| PaymentGuarantees.CleanupIsExact | server/src/jobs/payments.js:111-162 | Only intents waiting since before the cutoff on orders not PAID fail, the least recently updated first, as many as the limit allows, all when it covers them; everything else stays |
| Reconciliation.RowPays | server/src/jobs/payments.js:82-108 | One selected payment pays the order of the intent its event finds, and no other, unless its key was committed or a fault strikes |
| Reconciliation.PassPaysExactly | server/src/jobs/payments.js:63-109 | After any pass, of any length, over any intents and faults, an order is PAID exactly when it was or some row pays it; others keep their state |
| Reconciliation.ReconcileUndoesRefundsOnce | server/src/jobs/payments.js:63-109 | After a fault-free pass over intents the provider named, an order is PAID, refunded or not, exactly when it was or a listed payment of it was never reconciled |
| Reconciliation.RefundedOrderIsPaidAgain | server/src/jobs/payments.js:70-70 | A run from empty tables: created, paid, refunded, and PAID again after reconciliation |
| Reconciliation.UnnamedPaysTheNewestProcessing | server/src/services/payments/eventProcessor.js:80-96 | A payment whose intent has no provider id pays the order of the newest processing intent of its provider, its own only if that is the same; with none, nothing is paid or committed |
| Reconciliation.ReconcileKeysDiffer | server/src/jobs/payments.js:8-9 | Different payments are reconciled under different keys |
| PaymentRuns.RunKeeps | server/src/services/payments/eventProcessor.js:36-384 | Every run of the ten kinds of steps keeps the table and event-store invariants and takes nothing back |
| PaymentRuns.ProcessKeeps | server/src/services/payments/eventProcessor.js:36-384 | Processing any event, with a fault anywhere, keeps the tables |
| PaymentRuns.CommitKeepsStore | server/src/services/payments/webhookHandler.js:138-145 | Marking processed keeps one commit per key |
| PaymentRuns.RetryRowsAt | server/src/services/payments/webhookHandler.js:168-192 | The loop retries every listed row once and changes no other |
| PaymentRuns.RefundOrderKeeps | server/src/routes/payments.js:348-457 | A refund request, with any provider answer and fault, keeps the invariants |
| PaymentRuns.RetryRefundKeeps | server/src/routes/payments.js:459-523 | A refund retry, which never reads the order's state, keeps them too, since a refund row implies a paid order |
| PaymentStore.Store.HandleCreate | server/src/routes/orders.js:153-243 | Accepted exactly from travelers with a complete request; afterwards the booking exists once, opened unpaid with its creation logged if it did not, unchanged tables otherwise; invariant kept |
| PaymentStore.Store.HandleMarkPaid | server/src/routes/orders.js:245-277 | Accepted exactly from the traveler of an unpaid open order, which is paid as of now with its log entry; every other order and log unchanged; a refusal changes nothing; invariant kept |
| PaymentStore.Store.HandleAccept | server/src/routes/orders.js:279-301 | Accepted exactly from the approved host of a paid order awaiting it; the order is CONFIRMED with one log entry and nothing else changes; a refusal changes nothing; invariant kept |
| PaymentStore.Store.HandleReject | server/src/routes/orders.js:303-325 | Accepted exactly from the approved host of an order awaiting it; it is CANCELLED_REFUNDED, a payment refunded, with one log entry; nothing else changes; invariant kept |
| PaymentStore.Store.HandleCancel | server/src/routes/orders.js:327-348 | Accepted exactly from the traveler of an order not in service or completed; it is CANCELLED_BY_TRAVELER, a payment refunded, with one log entry; nothing else changes; invariant kept |
| PaymentStore.Store.HandleStart | server/src/routes/orders.js:350-376 | Accepted exactly from a party of a CONFIRMED order, a host being approved; it is IN_SERVICE with one log entry; nothing else changes; invariant kept |
| PaymentStore.Store.HandleEnd | server/src/routes/orders.js:378-404 | Accepted exactly from a party of an IN_SERVICE order, a host being approved; it is COMPLETED with one log entry; nothing else changes; invariant kept |
| PaymentStore.Store.AutoCloseUnconfirmed | server/src/jobs/index.js:22-72 | The two loops are the job's step |
| PaymentStore.Store.HandlePaymentSucceeded | server/src/services/payments/eventProcessor.js:63-170 | The transaction is the payment-success step |
| PaymentStore.Store.HandleRefundSucceeded | server/src/services/payments/eventProcessor.js:283-348 | The transaction is the refund-success step, unique refund ids included |
| PaymentStore.Store.ProcessEvent | server/src/services/payments/eventProcessor.js:36-61 | Dispatch and handlers do to the rows what ProcessMeans says, under every fault |
| PaymentStore.Store.StoreEvent | server/src/services/payments/webhookHandler.js:108-132 | Inserts exactly when the key is new, else finds the row |
| PaymentStore.Store.ReceiveWebhook | server/src/services/payments/webhookHandler.js:39-102 | The handler answers and changes what HandleWebhookMeans says |
| PaymentStore.Store.ProcessSyncEvent | server/src/routes/payments.js:67-100 | Delivers the event once under its key, as DeliverMeans says, or nothing when its key exists |
| PaymentStore.Store.RetryFailed | server/src/services/payments/webhookHandler.js:155-196 | The loop is the retry pass; its counters add up to the list and to the new commits |
| PaymentStore.Store.ReconcileSucceededPayments | server/src/jobs/payments.js:63-109 | The loop is the reconcile pass over the rows selected before it |
| PaymentStore.Store.SelectStale | server/src/jobs/payments.js:117-127 | The least recently updated intents past the cutoff on orders not PAID, each once, up to the limit |
| PaymentStore.Store.CleanupExpiredIntents | server/src/jobs/payments.js:111-162 | The loop fails exactly the batch selected by age, order and limit, and counts it |
| PaymentStore.Store.HandleCreateIntent | server/src/routes/payments.js:102-213 | Answers with the order's waiting intent or the new one exactly as CreateIntentMeans says; a refusal changes nothing; invariants kept |
| PaymentStore.Store.HandleConfirm | server/src/routes/payments.js:215-346 | Accepted, sent as an event and settled exactly as ConfirmMeans says, the index on waiting intents included |
| PaymentStore.Store.HandleRefund | server/src/routes/payments.js:348-457 | Accepted, recorded, delivered and left REFUNDING exactly as RefundMeans says, partial failures included |
| PaymentStore.Store.HandleRefundRetry | server/src/routes/payments.js:459-523 | As RetryRefundMeans says: a succeeded refund is answered and left alone; any other leaves its order REFUNDING in its status and no other order or refund changed; a refusal changes nothing; invariants kept |
| HostCertification.DocumentsMean | server/src/routes/hostCertifications.js:151-207 | A list is accepted exactly when it holds a license and every document is of a stored private asset of the user's own, active and under its key; a refusal names the first failing document's fault |
| HostCertification.NonDraftsAreLicensed | server/src/routes/hostCertifications.js:306-373 | In every run a certification that is no draft carries a license |
| HostCertification.ApprovalIsForever | server/src/routes/adminHostCertifications.js:148-190 | Approved is absorbing under all four writers |
| HostCertification.CertificationMoves | server/src/routes/hostCertifications.js:235-497 | A step moves at most the certification it names, along the table of legal changes; approval without a decision needs a valid automatic submission |
| HostCertification.CacheEntriesHaveOrigins | server/src/middlewares/requireApprovedHost.js:26-31 | Every cache entry is what one earlier read saw, expiring 60 seconds after its write, which came after any moment the user was not cached |
| HostCertification.CachedApprovalIsTrue | server/src/middlewares/requireApprovedHost.js:16-31 | A cached approval is true of the table now, however late its write |
| HostCertification.GateIsSound | server/src/middlewares/requireApprovedHost.js:8-39 | The gate passes only hosts that are approved at that instant |
| HostCertification.CachedRefusalIsRecent | server/src/middlewares/requireApprovedHost.js:18-24 | A cached refusal was true when read and its write is under 60 seconds old |
| HostCertification.StaleRefusalStraddlesTheApproval | server/src/middlewares/requireApprovedHost.js:26-44 | After an approval by this process a cached refusal comes only from a check open across it: read before, written after |
| HostCertification.RunsAreTrusted | server/src/middlewares/requireApprovedHost.js:8-39 | In every run, what the cache or an open check holds as approved is approved in the table |
| HostCertService.Service.PutDraft | server/src/routes/hostCertifications.js:235-304 | Accepted exactly for a certification that is missing, a draft, rejected, or submitted under the automatic flag; it is a draft with the given or kept documents and no reason; the cached reading is dropped, nobody else touched, invariants kept; a refusal changes nothing |
| HostCertService.Service.Validate | server/src/routes/hostCertifications.js:151-207 | Accepts exactly lists with a license and only acceptable documents; a refusal gives the first failing document's fault |
| HostCertService.Service.PostSubmit | server/src/routes/hostCertifications.js:306-373 | Accepted exactly for a draft, a rejected one, or a submitted one under the automatic flag, with valid documents; then submitted or approved with them; cached reading dropped, nobody else touched, invariants kept |
| HostCertService.Service.PostReview | server/src/routes/hostCertifications.js:409-505 | Accepted exactly where the action fits the status, rejections with a reason; the certification has the action's status, reason and its documents, cached reading dropped, nobody else touched, invariants kept |
| HostCertService.Service.PatchDecision | server/src/routes/adminHostCertifications.js:130-190 | Accepted exactly for a submitted or reviewed certification with a reason; it is approved or rejected with its documents, cached reading dropped, nobody else touched, invariants kept |
| HostCertService.Service.BeginRequire | server/src/middlewares/requireApprovedHost.js:8-30 | A read is due exactly when nothing unexpired is cached, and remembers the table's present status; a pass from the cache is true of the table; else nothing changes |
| HostCertService.Service.EndRequire | server/src/middlewares/requireApprovedHost.js:30-39 | A pass is true of the table now; for sixty seconds the user's checks get the same verdict without reading, and then read; the check is closed |
| HostCertService.Service.ClearApprovedHostCache | server/src/middlewares/requireApprovedHost.js:41-44 | The user's next check reads the table, whenever it comes; nobody else's cached reading changes |
| PlazaPaging.CursorRoundTrip | server/src/routes/discoverPlaza.js:24-42 | Decoding recovers what was encoded exactly for non-empty ids free of the separator |
| PlazaPaging.DecodeIsExact | server/src/routes/discoverPlaza.js:29-42 | A token decodes to an instant and an id exactly when its text is an instant, the separator, that id, and nothing or a further separator and anything |
| PlazaPaging.SortIsStrict | server/src/routes/discoverPlaza.js:147-149 | The listing has every row once, strictly ordered by creation time and then id in its direction |
| PlazaPaging.WalkIsComplete | server/src/routes/discoverPlaza.js:138-159 | With whole-millisecond times, following nextCursor yields every row of the first page's table once and in order, unaffected by rows entering ahead |
| PlazaPaging.PostCursorLosesTheJumped | server/src/routes/discoverPlaza.js:138-142 | A post cursor loses exactly the unshown posts of the boundary's millisecond, but those at its start with a smaller id |
| PlazaPaging.PostsWalkIsCompleteIffClean | server/src/routes/discoverPlaza.js:138-159 | On microsecond times the walk is complete if and only if, in the listing cut into pages of the limit, no page but the last ends with a post that has another one later in its millisecond behind it |
| PlazaPaging.CommentCursorRepeats | server/src/routes/discoverPlaza.js:389-393 | A comment page starts with the last one's last comment exactly when its time is no whole millisecond |
| PlazaPaging.CommentsWalkIsCompleteIffWhole | server/src/routes/discoverPlaza.js:371-407 | The comments walk is complete if and only if, in the listing cut into pages of the limit, every page but the last ends at a whole millisecond |
| PlazaPaging.CommentWalkCanStall | server/src/routes/discoverPlaza.js:371-407 | With one comment a page and an oldest comment off the millisecond, every page is that comment |
| ObjectKey.Sanitize | im/im-api/main.go:1157-1172 | The filtering loop yields the sanitized name, never empty, of clean characters only |
| ObjectKey.SanitizeMeans | im/im-api/main.go:1157-1172 | The sanitized name is the lowered name's letters, digits and dashes in their order, or dev when it has none |
| ObjectKey.SanitizeIsIdempotent | im/im-api/main.go:1157-1172 | Sanitizing an environment name twice is sanitizing it once |
| ObjectKey.NewUUIDIsVersionFour | im/im-api/main.go:1183-1215 | A printed id is well formed with version digit 4 and variant digit 8, 9, a or b (section 4.4 of RFC 4122) |
| ObjectKey.NewUUIDIsInjective | im/im-api/main.go:1203-1215 | Two printed ids are equal exactly when their marked bytes are |
| ObjectKey.UUIDsAreTheSpelled | im/im-api/main.go:1183-1215 | The id check accepts exactly the spellings of sixteen bytes |
| ObjectKey.HexRoundTrip | im/im-api/main.go:1208-1214 | Reading the printed hexadecimal gives the bytes back |
| ObjectKey.MarkingIsMasking | im/im-api/main.go:1206-1207 | Marking the bytes is the source's masking of the seventh and ninth and keeps every other |
| ObjectKey.PrintedKeyIsValid | im/im-api/main.go:1106-1155 | A printed key passes the check exactly when year and month fit their widths |
| ObjectKey.ValidKeysAreExactlyTheShaped | im/im-api/main.go:1128-1155 | The check accepts exactly the keys of the printed shape under the sanitized name |
| ObjectKey.ParseIsExact | im/im-api/main.go:1113-1126 | Parsing answers a key exactly for base, slash and that key |
| ObjectKey.ObjectKeyRoundTrip | im/im-api/main.go:1106-1155 | A printed key is recovered from its public URL and valid, for every environment, year up to 9999, 16 bytes and allowed extension |
| Strings.JoinSplit | im/im-api/main.go:1129-1129 | Joining the pieces of a split text gives the text |
| Strings.DigitsWidth | im/im-api/main.go:1109-1110 | A zero-padded number keeps its width exactly when it fits it |
| Strings.DigitsValue | im/im-api/main.go:1109-1110 | A printed number reads as itself |

## Left out

- Real concurrency inside one handler: each handler is one step, so the duplicate-key fallback of the message insert, the intent insert's 23505 path under a race, and `FOR UPDATE SKIP LOCKED` are not exercised; only the certification check is split into read and later cache write.
- A statement failing between two writes of an order route or of the timeout job (they use no transaction), and a crash between acknowledging and re-adding a push entry: conservation holds at handler boundaries.
- Trip cards with start after end, on which the range constructor raises an error: cards are ordered by type.
- Profile and card edits are steps of the match model, but maximality is claimed only for runs without them; the sweep restores it afterwards.
- The worker's thread attachment and its second loop over pending sessions, response shaping, stored preferences the matcher never reads (languages, city scope).
- Calendar arithmetic: retention days are fixed spans of 24 hours, where `AddDate` follows the calendar.
- Image content normalization and push previews: message content is opaque text.
- Stuck pending push entries are never claimed by another consumer in the source; a multicast that reaches some devices before failing is one failed attempt here.
- Errors of Redis writes that the worker ignores, such as a failed re-add or dead-letter add.
- Order columns that no branch reads (cancel reasons, read-model fields, refund_status, last payment attempt, service logs, amounts other than the price check), reviews, list pages and the admin dispute note.
- A fault between the two updates of the action-required and refund-failed handlers repeats the first update on every retry; commits are counted, not such repeats.
- Payment providers: their answers and events are arbitrary inputs; signature checks are one input per webhook. payment_attempts rows and webhook references to other rows are not kept.
- Creation times of payment rows: newest and oldest mean table order, so two rows of one instant have a fixed order here; which of several intents with the same provider id is found first is an input.
- The JWT, SMS, storage and FCM clients, HTTP and JSON layers, logging, metrics and configuration.
- normalizeDocuments, audit rows and the copies of the certification status on experiences.
- PlazaPaging: ids are numbered in their table order, and Date, base64 and their parsers are parameters that invert each other; likes, comment counters and moderation are left out.
- ObjectKey: Unicode lower-casing and white space are parameters that fix the clean characters.
- Rows that stop matching between pages (a hidden or deleted post) are not part of the paging theorem.
- The default of an absent rate-limiter configuration and the Redis client being absent (then every call is allowed).
