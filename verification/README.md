# Courier platform: a verified model

A Dafny model of the parts of the courier service that carry state from one call to the next: the per-key
token-bucket rate limiter, the courier and delivery tables with the transactions over them, the processing of
order events, the Kafka claim loop that feeds it, and the retry loop of the orders gateway. `dafny verify
dfyconfig.toml` checks everything.

## How it is laid out

| file | contents |
|---|---|
| `Basics.dfy` | units of time and the optional value |
| `TokenBucket.dfy` | one bucket as a value: refill, cap, draw |
| `Conformance.dfy` | what one bucket decides over a whole history of calls |
| `LimiterTable.dfy` | the table of buckets as a value, one step per call; bounds on the table |
| `Eviction.dfy` | what evicting idle buckets changes, and exactly when it changes nothing |
| `RateLimiter.dfy` | the limiter as classes that update buckets and map in place |
| `PerWindowLimit.dfy` | what "limit per window" amounts to, and exactly when twice the limit is the bound |
| `LimiterThreads.dfy` | the limiter under threads, one step per lock region |
| `BucketLives.dfy` | the buckets a key has under threads: when one is made, when it goes, what it refuses |
| `EvictedBucket.dfy` | when a key's present bucket bounds its threads: a thread can draw from one already evicted |
| `Text.dfy` | trimming and lower-casing |
| `DeliveryTables.dfy` | both tables as a value, and each transaction as a function on them |
| `DeliveryLaws.dfy` | what single transactions undo, keep and repeat; the release law |
| `DeliveryRuns.dfy` | what every run of whole transactions keeps |
| `DeliveryService.dfy` | the store and the service as classes: statements, commit, rollback |
| `AssignInterleaving.dfy` | Assign transactions interleaved statement by statement under the row lock |
| `AssignOrder.dfy` | which courier an interleaved Assign ends up with, and when it is the query's pick |
| `UnassignRace.dfy` | Unassign split between its read and its delete |
| `Orders.dfy` | the event processor, and handling an event more than once |
| `ClaimLoop.dfy` | the claim loop and the run of sessions around it |
| `Worker.dfy` | one message between claim loop and processor, and events handled over and over |
| `WorkerRuns.dfy` | the claim loop driving the processor over whole runs of sessions, while others use the tables |
| `Redelivery.dfy` | runs in which redelivery matters, and how many marks a session may lose |
| `DisturbedRedelivery.dfy` | a run in which others come between two deliveries of a message |
| `Retrying.dfy` | the gateway's retry loop and its int64 backoff |

The imperative parts are methods on classes, each proved equal to a function on values; the laws are lemmas about
those functions. Time is an integer number of nanoseconds, with 0 for Go's zero time. Limiter tokens and rates are
exact reals. The clock, the database's failures, the handler's answers and the end of a session are parameters.

Assumed of PostgreSQL: a row lock is held to the end of its transaction; a query that waited for one checks its
WHERE clause again on the latest committed row; the unique index on `order_id` and the foreign key on `courier_id`
hold; a rolled-back transaction leaves no trace but used-up sequence numbers. Assumed of Kafka: a session resumes
from the committed offset, which may lag behind the last mark.

## What the proofs turned up

- Eviction with `MaxBuckets = 0` is unobservable if and only if `Rate * (TTL + 1 ns) >= Burst`
  (`Eviction.EvictionUnobservableIff`). Below that, an idle key regains a full burst early.
- "Limit per window" is not a bound of `limit` per window: whatever the TTL and the cap, twice the limit is reached
  within one (`PerWindowLimit.ReachesDouble`). Nor is twice the limit a bound: it is one for a given
  limit if and only if a window that has room for an eviction has room neither for the refill of one more token after
  it nor, when a cleanup falls due again, for a second eviction (`PerWindowLimit.AtMostDoubleIff`); and for every limit
  if and only if `TTL <= 0` or `TTL + 1 ns >= window` (`PerWindowLimit.AtMostDoubleForEveryLimitIff`).
- Under threads, a key's present bucket bounds what it is granted if and only if `TTL <= 0`
  (`EvictedBucket.PresentBucketBoundsIff`): with a TTL, a thread can draw from a bucket that another has evicted
  meanwhile. What all buckets ever made for the key allow together still bounds it
  (`LimiterThreads.GrantsWithinBuckets`).
- Interleaved Assigns are serial among themselves (`AssignOrder.AmongAssignsCommitIsAssign`), but not with other
  writers: when a courier is freed between an Assign's ranking and its lock, it can be taken although another courier
  with fewer rows is available, which no serial order would do (`AssignOrder.StalePickHappens`,
  `AssignOrder.NoSerialOrderGivesOneBoth`).
- A courier with an old expired row is released while its current delivery is still on time, and this is the only
  way it happens (`DeliveryLaws.FreedEarlyIff`, `DeliveryLaws.FreedEarlyHappens`): completion and release keep rows.
- Two overlapping Unassigns of one order can free the wrong courier and strand another as busy
  (`UnassignRace.StaysBackedIff`, `UnassignRace.RaceHappens`).
- A redelivered "created" event for an order that has its row blocks its partition exactly while some courier is
  available: the insert error is not a conflict, and the worker wraps no error as permanent
  (`Worker.RedeliveredCreationBlocksIff`, `Redelivery.RedeliveredCreationBlocks`).
- A run of sessions that loses no marks leaves the tables as one clean pass over the committed messages would, with
  everything that others did in between, however often it fails (`WorkerRuns.RunIsOneCleanPass`). A session may lose
  one mark, and no more: two are enough to give a refused order the courier, which no clean pass does
  (`Redelivery.CleanPassIffAtMostOneLost`). One is harmless only while nobody else comes right before the second
  delivery (`DisturbedRedelivery.DisturbedHappens`).
- Backoff delays are the intended ones if and only if the last of them fits int64; with ten attempts this means a
  base delay below 2^55 ns, which the configuration does not check (`Retrying.ConfiguredDelaysIff`).

## Model

| member | source | states |
|---|---|---|
| Conformance.DecisionLaw | internal/http/middleware/ratelimit/token_bucket_limiter.go:111-129 | a call is admitted exactly when every window of admitted calls that would end with it holds at most Burst + Rate * span |
| Conformance.ConformsIffServed | internal/http/middleware/ratelimit/token_bucket_limiter.go:115-127 | any selection of calls satisfies the window bound exactly when each selected call finds a whole token |
| Conformance.AllAdmittedIffConforming | internal/http/middleware/ratelimit/token_bucket_limiter.go:102-129 | a bucket refuses nothing exactly when every window i..j of its calls holds at most Burst + Rate * (t_j - t_i) |
| Conformance.AdmittedConform | internal/http/middleware/ratelimit/token_bucket_limiter.go:111-129 | whatever is asked for, every window of admitted calls is within the bound |
| Conformance.MaximallyPermissive | internal/http/middleware/ratelimit/token_bucket_limiter.go:111-129 | at every prefix the bucket has admitted at least as many calls as any conforming selection |
| LimiterTable.CapHolds | internal/http/middleware/ratelimit/token_bucket_limiter.go:98-107 | with MaxBuckets > 0 the map never exceeds it, on any clock |
| LimiterTable.StaleBucketsBounded | internal/http/middleware/ratelimit/token_bucket_limiter.go:131-159 | after a call every bucket was seen at most TTL ago if that call cleaned up, else less than TTL + max(1 minute, TTL/2) ago |
| Eviction.OneBucketPerKey | internal/http/middleware/ratelimit/token_bucket_limiter.go:71-109 | a transparent limiter answers each call as a single bucket fed only that key's calls |
| Eviction.KeyNeverRefusedIffConforming | internal/http/middleware/ratelimit/token_bucket_limiter.go:71-129 | exact conformance per key for the whole limiter, eviction included |
| Eviction.LimiterMaximallyPermissive | internal/http/middleware/ratelimit/token_bucket_limiter.go:71-129 | maximal permissiveness per key for the whole limiter, at every prefix of the history |
| Eviction.EvictionUnobservableIff | internal/http/middleware/ratelimit/token_bucket_limiter.go:131-159 | eviction changes no answer of any history exactly when an idle bucket refills within the TTL |
| Eviction.EvictionBound | internal/http/middleware/ratelimit/token_bucket_limiter.go:83-159 | with any TTL a key is admitted at most Burst * (1 + m) + Rate * W times in a window W, where m gaps of TTL + 1 ns fit into W: so at most Burst * (1 + W/TTL) + Rate * W times |
| Eviction.GrantsBound | internal/http/middleware/ratelimit/token_bucket_limiter.go:83-159 | with any TTL and cap, a key's admissions in a window are those of one bucket plus a burst per eviction it has room for, less the refill of the idle time each took; on a clock past Go's zero time the evictions are a cleanup interval apart as well |
| LimiterTable.CleanupLaw | internal/http/middleware/ratelimit/token_bucket_limiter.go:131-159 | on any clock, when a cleanup happens - a minute and half the TTL after the last - and which buckets it takes |
| LimiterTable.RefusedOnlyWhenFull | internal/http/middleware/ratelimit/token_bucket_limiter.go:83-109 | a call leaves its key without a bucket only if the table then holds exactly MaxBuckets > 0 buckets |
| LimiterTable.FirstCallAdmitted | internal/http/middleware/ratelimit/token_bucket_limiter.go:91-109 | a key without a bucket that finds room gets a full one, less the token of its first call |
| TokenBucket.TakeSpends | internal/http/middleware/ratelimit/token_bucket_limiter.go:111-129 | at any instant, earlier ones included: a held token is never refused, what is not granted stays, no instant up to the last one adds anything |
| TokenBucket.RateIsPerSecond | internal/http/middleware/ratelimit/token_bucket_limiter.go:115-118 | a rate earns its tokens per 1,000,000,000 ns |
| RateLimiter.Bucket.Allow | internal/http/middleware/ratelimit/token_bucket_limiter.go:111-129 | the in-place update of a bucket is the specified draw |
| RateLimiter.TokenBucketLimiter.Allow | internal/http/middleware/ratelimit/token_bucket_limiter.go:71-81 | one call turns the whole table into the specified next table and gives the specified answer |
| RateLimiter.TokenBucketLimiter.GetOrCreateBucket | internal/http/middleware/ratelimit/token_bucket_limiter.go:83-109 | finds the key's bucket, creates a full one, or refuses a full table |
| RateLimiter.TokenBucketLimiter.MaybeCleanup | internal/http/middleware/ratelimit/token_bucket_limiter.go:131-159 | the deleting loop removes exactly the idle buckets, and only when a cleanup is due |
| RateLimiter.Normalised | internal/http/middleware/ratelimit/token_bucket_limiter.go:34-52 | settings that are valid are kept; a rate, burst or cap that is not becomes one per second, one, or none |
| RateLimiter.PerWindow | internal/http/middleware/ratelimit/token_bucket_limiter.go:54-68 | one window refills exactly the limit, which is also the burst; a limit of one and a window of a second stand in for what is not positive |
| PerWindowLimit.AtMostDouble | internal/http/middleware/ratelimit/token_bucket_limiter.go:54-68 | for any TTL and cap, a key is granted at most twice the limit in a window, unless eviction makes the window overflow |
| PerWindowLimit.AtMostDoubleIff | internal/http/middleware/ratelimit/token_bucket_limiter.go:54-68 | on clocks past Go's zero time, twice the limit bounds every window of every history exactly when no window overflows; with a cap of one bucket, for limits that earn a token before a cleanup falls due |
| PerWindowLimit.AtMostDoubleForEveryLimitIff | internal/http/middleware/ratelimit/token_bucket_limiter.go:54-68 | for any cap, it does so for every limit exactly when TTL <= 0 or TTL + 1 ns >= window |
| PerWindowLimit.ReachesDouble | internal/http/middleware/ratelimit/token_bucket_limiter.go:54-68 | twice the limit is reached in one window for every limit, window, TTL and cap |
| LimiterThreads.CapHoldsConcurrently | internal/http/middleware/ratelimit/token_bucket_limiter.go:91-108 | the cap holds at every moment of every interleaving |
| LimiterThreads.EveryBucketIsBounded | internal/http/middleware/ratelimit/token_bucket_limiter.go:111-129 | each bucket equals the replay of its answers in lock order and grants at most Burst + Rate * (latest instant - creation), with instants out of order |
| LimiterThreads.ConcurrentGrantsBounded | internal/http/middleware/ratelimit/token_bucket_limiter.go:71-129 | without a TTL all threads on a key share one bucket, and their grants together respect that bound |
| LimiterThreads.GrantsWithinBuckets | internal/http/middleware/ratelimit/token_bucket_limiter.go:71-159 | with any TTL, all threads on a key are granted at most a burst and the refill for each bucket ever made for it, evicted ones included |
| BucketLives.OnlyEvictionEndsABucket | internal/http/middleware/ratelimit/token_bucket_limiter.go:91-109 | in every interleaving a key keeps its bucket until a visit that found it idle evicts it; the second look-up never replaces it |
| BucketLives.VisitEvictsIff | internal/http/middleware/ratelimit/token_bucket_limiter.go:150-158 | a visit takes a bucket away exactly when it is idle at the instant the visitor sampled |
| BucketLives.MadeIsEvictedPlusPresent | internal/http/middleware/ratelimit/token_bucket_limiter.go:83-159 | the buckets ever made for a key are those evicted and the one it has |
| BucketLives.GrantsWithinEvictions | internal/http/middleware/ratelimit/token_bucket_limiter.go:71-159 | with any TTL a key is granted at most a burst and refill for its bucket and for each of its evictions |
| BucketLives.AnswersAreInLockOrder | internal/http/middleware/ratelimit/token_bucket_limiter.go:111-129 | every answer is the one its bucket alone gives to the calls in the order in which they held its lock |
| BucketLives.RefusesOnlyAfterABurst | internal/http/middleware/ratelimit/token_bucket_limiter.go:115-128 | a bucket refuses only after granting a whole burst, however far an instant lies behind |
| BucketLives.CreationLaw | internal/http/middleware/ratelimit/token_bucket_limiter.go:91-108 | a creation ends with the bucket the map has, somebody else's or a full new one, or is refused by a full map without the key |
| BucketLives.CleanupIsExclusive | internal/http/middleware/ratelimit/token_bucket_limiter.go:142-158 | one thread cleans up at a time, and nobody else changes the map meanwhile |
| BucketLives.ThreadsGoOn | internal/http/middleware/ratelimit/token_bucket_limiter.go:71-159 | no thread is stuck unless another cleans up, and that one can always go on |
| EvictedBucket.EvictedBucketIsUsed | internal/http/middleware/ratelimit/token_bucket_limiter.go:83-159 | for any TTL > 0, burst and cap, a run in which a thread draws from an evicted bucket after another has drawn a whole burst from the new one |
| EvictedBucket.PresentBucketBoundsIff | internal/http/middleware/ratelimit/token_bucket_limiter.go:71-159 | in every interleaving a key's grants fit burst and refill of its present bucket, exactly when TTL <= 0 |
| LimiterThreads.UninterruptedCallIsStep | internal/http/middleware/ratelimit/token_bucket_limiter.go:71-159 | the lock regions of one uninterrupted call add up to one step of the sequential limiter |
| Text.TrimsBlanksOnly | internal/service/delivery/usecase.go:161-167 | blanks, tabs and line ends around a text go; visible ASCII characters stay |
| Text.TrimSpaceLaw | internal/service/delivery/usecase.go:161-167 | trimming removes white space at both ends, all of it and nothing else |
| DeliveryTables.Pick | internal/repository/delivery.go:66-86 | an available courier with the least (row count, id); it exists exactly when someone is available, and is unique |
| DeliveryService.DeliveryRepo.FindAvailableCourierForUpdate | internal/repository/delivery.go:66-86 | the query returns that courier, or nothing |
| DeliveryService.DeliveryRepo.UpdateCourierStatus | internal/repository/delivery.go:89-102 | one status changes, or an unknown id is an error |
| DeliveryService.DeliveryRepo.InsertDelivery | internal/repository/delivery.go:105-115 | the row is added unless the order has one, its id is too long or its courier is unknown; the sequence number is used up either way |
| DeliveryService.DeliveryRepo.GetByOrderID | internal/repository/delivery.go:118-133 | the order's row or nothing |
| DeliveryService.DeliveryRepo.DeleteByOrderID | internal/repository/delivery.go:136-145 | the order's row goes, or its absence is an error |
| DeliveryService.DeliveryRepo.ReleaseCouriers | internal/repository/delivery.go:148-164 | the update, courier by courier, frees exactly the busy ones with an expired row, and counts them |
| DeliveryService.DeliveryRepo.Finish | internal/repository/delivery.go:46-58 | success is committed; failure of body or commit restores both tables |
| DeliveryService.Service.Assign | internal/service/delivery/usecase.go:42-84 | statement by statement, with any one failing, it comes to the specified transaction; an error changes no table |
| DeliveryService.Service.Unassign | internal/service/delivery/usecase.go:118-159 | the same for Unassign |
| DeliveryService.Service.ReleaseExpired | internal/service/delivery/usecase.go:170-177 | a release at the given instant |
| DeliveryLaws.AssignSucceedsIff | internal/service/delivery/usecase.go:42-84 | Assign succeeds exactly for a new, non-blank order of at most 255 characters while the pick has a known transport; each other reason has its own error |
| DeliveryLaws.UnassignSucceedsIff | internal/service/delivery/usecase.go:118-159 | Unassign succeeds exactly for an order with a row, whatever its courier's status |
| DeliveryLaws.CompletionFrees | internal/service/orders/processor.go:61-72 | completion succeeds, and makes the courier of the order's row available whatever it was |
| DeliveryLaws.FaultsRollBack | internal/repository/delivery.go:28-58 | a fault at a statement of a transaction makes it an error that changes nothing; any other fault makes no difference |
| DeliveryLaws.DeadlinesInSeconds | internal/service/delivery/factory.go:18-29 | 1800, 900 and 300 seconds; any other transport is an error |
| DeliveryLaws.AssignBooks | internal/service/delivery/usecase.go:51-105 | a successful Assign adds one row for a new order, makes the first courier in line busy and touches nothing else |
| DeliveryLaws.AssignThenUnassign | internal/service/delivery/usecase.go:42-159 | an Assign followed by an Unassign names the same courier and restores both tables |
| DeliveryLaws.AssignThenComplete | internal/service/orders/processor.go:61-72 | completion restores every courier and leaves the row behind |
| DeliveryLaws.ReleaseLaw | internal/repository/delivery.go:148-164 | exactly the busy couriers whose earliest deadline has passed become available; nothing else changes |
| DeliveryLaws.ReleaseCountsChanges | internal/repository/delivery.go:149-163 | the returned count is the number of couriers changed |
| DeliveryLaws.ReleaseTwice | internal/service/delivery/usecase.go:170-177 | a release at t1 and then at t2 >= t1 equals the one at t2, and the counts add up |
| DeliveryLaws.FreedEarlyIff | internal/repository/delivery.go:148-164 | a courier whose current delivery is on time is released exactly when it has another, expired row |
| DeliveryLaws.FreedEarlyHappens | internal/repository/delivery.go:148-164 | a run in which that happens |
| DeliveryRuns.Conservation | db/migrations/20251129175325_create_delivery_table.sql:2-8 | the couriers' row counts add up to successful Assigns less successful Unassigns, and every row names a courier |
| DeliveryRuns.BusyBackedAndBounded | internal/service/delivery/factory.go:18-29 | unless statuses are written by hand, each busy courier has the very row that made it busy; after a release it was assigned within the 30, 15 or 5 minutes of the transport it then had, which is its present one unless that was written by hand |
| DeliveryRuns.CourierWrites | internal/repository/courier.go:83-101 | an edit writes the columns it is given, of one courier that exists, and keeps the others |
| DeliveryRuns.RunSteps | internal/service/delivery/usecase.go:42-177 | the transactions of a run succeed when their laws say so; none that is busy after a release has an expired row |
| DeliveryRuns.LoadBalance | internal/repository/delivery.go:67-76 | without Unassign, a courier never gets further ahead of one that is available whenever it is picked |
| DeliveryRuns.LoadsStayWithinOne | internal/repository/delivery.go:67-76 | with everyone available at every Assign, loads within one of each other stay so |
| AssignInterleaving.NoDoubleBookingEver | internal/service/delivery/usecase.go:51-77 | in every interleaving two commits pick one courier only if it was freed in between, and one order only if its row was removed |
| AssignInterleaving.LocksAreExclusive | internal/repository/delivery.go:66-86 | a held courier stays available and is held by one transaction only |
| AssignInterleaving.CommitsAreBookings | internal/repository/delivery.go:28-58 | every commit is one whole booking on the committed tables of its moment |
| AssignInterleaving.BusyCouriersHaveTheirRow | internal/service/delivery/usecase.go:68-73 | in every interleaving a busy courier still has the row of the commit that made it busy |
| AssignInterleaving.AloneIsAssign | internal/service/delivery/usecase.go:51-77 | statements run without interference come to the one-step Assign |
| AssignInterleaving.HistoryIsTrue | internal/repository/delivery.go:28-58 | a transaction writes nothing before its commit, and the history records commits, freed couriers and removed rows exactly when they happen |
| AssignInterleaving.RunsAloneIffAssigns | internal/service/delivery/usecase.go:51-77 | with no lock in its way a transaction can run through exactly when the one-step Assign succeeds |
| AssignInterleaving.OtherWritersLaw | internal/repository/delivery.go:89-102 | other writers wait for the lock of the courier they write and nothing else; an Unassign then is the one-step Unassign |
| AssignOrder.CommitIsAssignIff | internal/service/delivery/usecase.go:51-77 | a commit is the one-step Assign on the tables of its moment exactly when no courier available then comes before the one it has locked |
| AssignOrder.AmongAssignsCommitIsAssign | internal/repository/delivery.go:66-86 | when only Assigns are about between its ranking and its commit, an Assign takes the pick of the tables of its commit and is the one-step Assign there |
| AssignOrder.StalePickHappens | internal/repository/delivery.go:66-86 | a run in which a completion in between makes an Assign take a courier that is not the pick |
| AssignOrder.NoSerialOrderGivesOneBoth | internal/service/delivery/usecase.go:51-77 | no serial order of those two Assigns and the completion gives both orders to one courier |
| UnassignRace.StaysBackedIff | internal/service/delivery/usecase.go:129-144 | busy couriers stay backed exactly when the deleted row belongs to the courier read, or made nobody busy |
| UnassignRace.UndisturbedIsUnassign | internal/service/delivery/usecase.go:129-144 | with nothing between read and delete the two halves are one Unassign |
| UnassignRace.RaceHappens | internal/service/delivery/usecase.go:129-144 | a run that frees the wrong courier and strands another |
| Orders.DispatchLaw | internal/service/orders/factory.go:14-29 | the four status words select their handlers in any case and spacing; nothing else selects any |
| Orders.Processor.Handle | internal/service/orders/processor.go:34-43 | the imperative processor is the specified outcome |
| Orders.Processor.Created | internal/service/orders/processor.go:45-51 | a conflict counts as handled |
| Orders.Processor.Canceled | internal/service/orders/processor.go:53-59 | a missing order counts as handled |
| Orders.Processor.Completed | internal/service/orders/processor.go:61-72 | the courier is freed, the row stays |
| Orders.CreatedEventBooks | internal/service/orders/processor.go:45-51 | which rows and couriers a created event changes, that nobody being available counts as handled, and which errors remain |
| Orders.CanceledEventRemoves | internal/service/orders/processor.go:53-59 | a canceled event removes the row and frees its courier; no row counts as handled, a blank order is an error |
| Orders.CompletedEventFrees | internal/service/orders/processor.go:61-72 | a completed event makes the courier of the order's row available and changes nothing else |
| Orders.OtherEventsAndFaults | internal/service/orders/processor.go:34-43 | events of other statuses pass; a database fault only makes an outcome an error that changes nothing |
| Orders.RedeliveryIsHarmless | internal/service/orders/processor.go:34-72 | after one handling without a database fault, further handling changes nothing |
| Orders.AtMostOneEffect | internal/service/orders/processor.go:34-72 | any number of attempts, each failing anywhere, leaves the tables untouched or as one clean handling does |
| Orders.RepeatedCreationFailsIff | internal/service/orders/processor.go:45-51 | creating an order that has a row is an error exactly while a courier is available |
| ClaimLoop.Session.ConsumeClaim | internal/transport/kafka/consumer.go:141-187 | the loop marks and tries exactly what the session's mark and trace say |
| ClaimLoop.MarkLaw | internal/transport/kafka/consumer.go:146-184 | the mark stops at the first transient failure and passes everything else |
| ClaimLoop.TraceLaw | internal/transport/kafka/consumer.go:142-187 | messages are tried one by one in order, none beyond the first to be retried |
| ClaimLoop.Consumer.Run | internal/transport/kafka/consumer.go:56-102 | session after session, each from what its predecessor marked and the broker kept |
| ClaimLoop.AtLeastOnce | internal/transport/kafka/consumer.go:141-187 | everything below the committed position was handled, skipped as permanent, unparsable or blank |
| ClaimLoop.NothingOvertakes | internal/transport/kafka/consumer.go:141-187 | no message is tried before all earlier ones are settled |
| ClaimLoop.FailureStaysFirst | internal/transport/kafka/consumer.go:166-184 | nothing beyond a transiently failing message is committed in its session, and no later session starts beyond it until it has been settled after the failure |
| ClaimLoop.ConditionalProgress | internal/transport/kafka/consumer.go:63-69 | once there are more sessions than transient failures and interruptions, the whole log is committed |
| Worker.RetriedMeansUnchanged | internal/app/kafka_orders.go:18-42 | a message to be retried has changed no table; a failed lookup is retried, an unknown order is done with, nothing is skipped |
| Worker.ProcessLaw | internal/transport/kafka/consumer.go:151-164 | unparsable messages and those without an order touch nothing; order and status count as trimmed |
| Worker.FoundStatusDecides | internal/app/kafka_orders.go:38-40 | a status found at the orders service replaces the event's own, which then makes no difference |
| Worker.RedeliveredCreationBlocksIff | internal/app/kafka_orders.go:18-42 | a redelivered creation blocks its partition exactly while a courier is available |
| Worker.OneCleanPass | internal/service/orders/processor.go:34-72 | events handled one after another, each any number of times in a row and once without a fault, have the effect of one clean pass |
| WorkerRuns.SettlingDecides | internal/transport/kafka/consumer.go:141-187 | whatever fails, ends or gets lost, and whatever others write in between, the tables are those of the clean pass over the attempts that settled their message, with everything the others did, in order |
| WorkerRuns.RunIsOneCleanPass | internal/transport/kafka/consumer.go:141-187 | in a run that loses no mark, that pass has exactly one attempt at each message below the committed position |
| WorkerRuns.RunStandsAt | internal/transport/kafka/consumer.go:56-102 | a run that loses at most d marks a session falls back by at most d messages at any time |
| WorkerRuns.OneLostMarkIsHarmless | internal/transport/kafka/consumer.go:166-184 | with at most one mark lost a session, redelivered undisturbed and with the same lookup, the first attempt that settled each message alone decides the tables |
| Redelivery.RedeliveredCreationBlocks | internal/app/kafka_orders.go:18-42 | two couriers, one creation: delivered again it is to be retried, whenever it is tried |
| Redelivery.LostMarksHappen | internal/transport/kafka/consumer.go:141-187 | a run that loses two marks and ends in other tables than every clean pass over its log |
| Redelivery.CleanPassIffAtMostOneLost | internal/transport/kafka/consumer.go:141-187 | every such run that loses at most d marks a session is one clean pass, exactly when d <= 1 |
| DisturbedRedelivery.DisturbedHappens | internal/transport/kafka/consumer.go:141-187 | with others in between, a run that loses one mark and ends in other tables than every clean pass |
| Retrying.DelaysAsIntendedIff | internal/gateway/orders/retrying.go:128-134 | all delays are min(base * 2^(k-1), max) exactly when the last one does not leave int64 |
| Retrying.DelayIsIntended | internal/gateway/orders/retrying.go:128-134 | for any settings, a delay whose shift fits int64 is min(base * 2^(k-1), max) |
| Retrying.ConfiguredDelaysIff | internal/config/config.go:214-236 | with ten attempts that is a base delay below 2^55 ns |
| Retrying.IntendedDelaysGrow | internal/gateway/orders/retrying.go:128-134 | delays double up to the cap and never decrease |
| Retrying.TotalDelayBounded | internal/gateway/orders/retrying.go:47-80 | the delays asked for never decrease and total at most (attempts - 1) * max |
| Retrying.RetryingGateway.Call | internal/gateway/orders/retrying.go:47-148 | an attempt is followed by another exactly if it failed with one of the three retryable codes, was not the last, and neither the context nor the sleep was cut short; result, delays and retry count follow, a sleep that is cut short being counted |

## Left out

- HTTP handlers, routing, DTOs, JSON decoding, metrics, logging, dependency injection and process lifecycle.
- Courier validation, listing and pagination; couriers appear through hiring and editing steps only.
- float64 rounding in the limiter, and the saturation of `time.Sub`: exact reals and integers stand in.
- The nil clock of the limiter's constructor: the current instant is a parameter of every call.
- LimiterThreads.ConcurrentGrantsBounded: one bucket per key for TTL <= 0 only; with a TTL the bound is `LimiterThreads.GrantsWithinBuckets`.
- PerWindowLimit.AtMostDoubleIff: with a cap of one bucket the failing half asks for a limit that earns a token within `Eviction.Wait`, since no second key fits to time the cleanup; the bound itself holds for every limit and cap.
- WorkerRuns.SettlingDecides: each transaction of the worker and of others is one step there; what statements in between can do is in `AssignOrder.dfy` and `UnassignRace.dfy`.
- AssignInterleaving.NoDoubleBookingEver: Unassign, completion and release are single steps per courier there; what an Unassign split in two can do is in `UnassignRace.dfy`.
- Ambiguous commit failures, failed rollbacks and the panic path of `WithTx`.
- The rounding of stored timestamps to microseconds.
- Lower-casing beyond ASCII: no other letter lower-cases into one of the four status words.
- Sleeps between sessions, draining of group errors, and rebalancing beyond "a session may end after any message".
- Real timers and contexts: a cancellation is an event of the run.
- Retrying.RetryingGateway.Call: one loop stands for GetByID and ListFrom, which differ only in the call they make.
