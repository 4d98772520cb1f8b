# Verification of the fake-bolt dispatch, photo and receipt protocols

fake-bolt is a set of services that keep several stores in agreement: driver, ride, user and email rows in
Postgres, the `drivers:available` GEO set in Redis, photos in S3, emails accepted by SES. HTTP calls, Kafka
messages and retries reach them in any order. This project models those stores and handlers in Dafny and
proves what every run keeps, and, where the code does not keep something, exactly when it does.

## How the model is built

- A service's state is a datatype (`DriverState`, `MatchingState`, `RideState`, `AuthState`, `Mail`), its
  handlers are functions on it, and the theorems are lemmas about runs of those functions.
- Beside them, a class per service (`DriverService`, `MatchingService`, `RideService`, `ProfileService`,
  `EmailService`, the shared `GeoSet`, driver-service's `KafkaConsumer`) runs the source's statements on mutable
  fields, in the source's order; each method is proved to do what its function says. Topics are
  append-only ghost sequences.
- driver-service's handlers are split into a decision and the ordered writes it leads to. A failing attempt
  performs a prefix of the writes; an atomic handler performs all of them.
- email-service's calls to the database, auth-service and SES are all fallible, one by one.
- Ids are strings, coordinates and fares are reals, times are integers. Distance is a parameter, any
  function of two points. A fresh id, a uuid, the time and the success of each external call are
  parameters.

Handlers run one at a time (HTTP handlers are atomic with respect to Kafka handlers), and consumers are
serial.

| files | subject |
|---|---|
| `GeoPool`, `PoolHistory` | the Redis GEO set, the claim script, the history of its commands |
| `Drivers`, `DriverService` | driver-service |
| `Matching` | matching-service |
| `Dispatch`, `DispatchRuns` | runs of the two over the shared pool |
| `Rides`, `RideService` | ride-service |
| `RequestToClaim` | from `requestRide` to the claim and back to the ride |
| `Exclusion` | driver, matching and ride services over their topics: mutual exclusion |
| `StatusHistory` | what the status topic can say |
| `FailingHandlers`, `DriverRetries`, `DriverConsumer` | driver-service when writes fail, and its consumer |
| `RideMessages` | which messages make a driver busy and which free them |
| `ImageSignature`, `Profiles`, `ProfileService`, `PhotoOwnership` | auth-service's photos and its bucket |
| `PhotoSync` | auth-service, the photo topic, driver-service and claims |
| `Receipts`, `EmailService`, `ReceiptRuns`, `ReceiptContents` | email-service: rows, emails, counters |
| `EndToEnd` | from `requestRide` to the receipts |
| `ReceiptTemplate` | escaping in the receipt's HTML |

## Where the code and its documentation differ

The model follows the code.

- The README of the repository says that matching is race-free and that only AVAILABLE drivers are in the pool,
  busy ones never. A claimed driver's row stays AVAILABLE until `driver.assigned` is handled, and a ping
  or a manual AVAILABLE in that window puts the driver back: `WindowReopens` says exactly when, and
  `PingInTheWindowBooksTwice` that the next ride can then get the same driver; `OneDriverOnTwoRides` is a
  whole run. `MutualExclusion` is proved under the discipline that rules this out.
- `handleRideFinished` never compares the ride that ended with the ride the driver is on, and ride-service publishes
  a finish event each time a ride is patched to completed or cancelled. So exclusion fails although every event is
  delivered once: `TwoFinishesBookTwice` is a run in which the second finish of a ride frees its driver from the next
  one. `NobodyIsFreedMidRide` holds exactly if no finish is late, that is, no finish of a ride that was over already
  reaches a driver who is busy with an unfinished one; `ReleaseIsRightIff` says which finishes release rightly.
- The state diagram lacks OFFLINE to BUSY, which an assignment causes: `StatusDiagram` has the exact table.
- After a lost Redis call the retry returns early, since the status is already written: `RetryReturnsEarly`,
  `BusyAndStillPooled`, and for a removed photo `OfflineAndStillPooled`, which loses the photo gate itself.
  `PartialStatusChange`, `PartialPing` and `PartialPhoto` say exactly which failures break the index.
- The comment on re-matching says the declined driver is excluded. Nothing excludes them: `HandleDriverDeclined` is
  proved to do what `HandleRideRequested` does.
- A fare of 0 is published but not stored: `FareAgreement`.
- A receipt is sent from the event being handled, its row made from the first one. For a ride completed twice at two
  fares the rider's history and the email can differ: `TwoFaresOneReceipt`; `SentRowAgreesIff` says exactly when.
- "No duplicate sends" holds when every accept by SES can be recorded: `AtMostOneReceipt`; in general
  `AcceptsAreAccountedFor`.

## Model

| member | source | states |
|---|---|---|
| `GeoPool.ClaimAnswerExists` | matching-service/src/redis/redis.service.ts:11-18 | the claim script always has an answer, and it names a nearest driver whenever anybody is in range |
| `GeoPool.GeoSet.UpdateDriverLocation` | driver-service/src/redis/redis.service.ts:32-48 | GEOADD inserts or moves exactly one member |
| `GeoPool.GeoSet.RemoveDriverFromGeo` | driver-service/src/redis/redis.service.ts:50-61 | ZREM takes out exactly one member, or none |
| `GeoPool.GeoSet.HandleDriverStatusChange` | driver-service/src/redis/redis.service.ts:63-75 | available with both coordinates inserts; anything else removes |
| `GeoPool.GeoSet.ClaimNearestDriver` | matching-service/src/redis/redis.service.ts:33-43 | returns a nearest in-range driver and removes only them; nil exactly when nobody is in range, and then nothing changes |
| `GeoPool.RepeatedClaimsAreASelectionSort` | matching-service/src/redis/redis.service.ts:11-18 | a sequence of answers is possible for consecutive claims if and only if it is a selection sort: distinct in-range drivers by nondecreasing distance, nobody nearer left behind, nil exactly once the in-range drivers run out |
| `GeoPool.OutOfRangeIsNeverClaimed` | matching-service/src/redis/redis.service.ts:11-18 | no number of claims moves or removes a driver outside the radius |
| `GeoPool.OnlyOutOfRangeIsLeft` | matching-service/src/redis/redis.service.ts:11-18 | once a claim has answered nil, the drivers left are exactly those farther than the radius |
| `PoolHistory.OperationsKeepBalance` | driver-service/src/redis/redis.service.ts:32-75 | adding, removing and claiming keep insertions equal to claims plus removals plus the one pooled now |
| `DriverServices.DriverService.CreateDriver` | driver-service/src/drivers/drivers.service.ts:68-92 | refuses a second profile per email or user, otherwise inserts one offline row without photo |
| `DriverServices.DriverService.UpdateStatus` | driver-service/src/drivers/drivers.service.ts:112-165 | its refusals and, for any failure point, exactly which of the three writes happened |
| `DriverServices.DriverService.ChangeStatus` | driver-service/src/drivers/drivers.service.ts:264-281 | row, pool and topic are written in this order, from the coordinates read at the start |
| `DriverServices.DriverService.UpdateLocation` | driver-service/src/drivers/drivers.service.ts:167-207 | pool first (only if available), then row, then topic, up to the failure point |
| `DriverServices.DriverService.HandleUserPhotoUpdated` | driver-service/src/drivers/drivers.service.ts:209-235 | flag first, then offline for an available driver without photo, up to the failure point |
| `DriverServices.DriverService.HandleDriverAssigned` | driver-service/src/drivers/drivers.service.ts:239-248 | busy unless unknown or already busy |
| `DriverServices.DriverService.HandleRideFinished` | driver-service/src/drivers/drivers.service.ts:252-261 | a busy driver becomes available or, without photo, offline; whichever ride ended |
| `DriverServices.DriverService.HandleRideStatusUpdated` | driver-service/src/drivers/drivers.service.ts:61-65 | only cancellations reach the finish handler |
| `Drivers.CreateAnswers` | driver-service/src/drivers/drivers.service.ts:68-92 | a known email is refused first, then a known user; otherwise one row is stored as given; refusals write nothing |
| `Drivers.PatchAnswers` | driver-service/src/drivers/drivers.service.ts:112-134 | which of the refusals a status request gets, if and only if; refusals write nothing |
| `Matching.MatchingService.HandleRideRequested` | matching-service/src/matching/matching.service.ts:37-88 | one claim per attempt; the counters, the published assignment, and the swallowed errors that strand a claimed driver |
| `Matching.MatchingService.HandleDriverDeclined` | matching-service/src/matching/matching.service.ts:90-109 | the same as a fresh request; the declined driver plays no part |
| `Matching.ClaimedIsAssignedOrStranded` | matching-service/src/matching/matching.service.ts:50-84 | a claimed driver is published as assigned to the ride asked for or lost with it, exactly by whether claim and publish both succeed |
| `Dispatch.StepMakes` | driver-service/src/drivers/drivers.service.ts:112-281 | the ordered writes of each uninterrupted handler amount to one change of one driver in table, pool and topics |
| `DispatchRuns.PoolIsAnExactIndex` | driver-service/src/drivers/drivers.service.ts:112-281 | in every reachable state the pool is exactly the available drivers with both coordinates not claimed since their last GEO command, at their stored positions, and all of them have a photo |
| `DispatchRuns.StepKeepsIndex` | driver-service/src/redis/redis.service.ts:63-75 | each atomic step, with any payload, keeps the index exact |
| `DispatchRuns.StepKeepsTable` | driver-service/src/drivers/drivers.service.ts:128-134 | nobody is ever available without a photo, rows are never lost and keep their user, one row per user |
| `DispatchRuns.EnteringThePool` | driver-service/src/drivers/drivers.service.ts:174-177 | a driver outside the pool enters it if and only if they ping while available, set themselves available with photo and position, or a finish names them while busy with photo and position |
| `DispatchRuns.EmailsStayUnique` | driver-service/src/drivers/drivers.service.ts:70-84 | no run creates two profiles with one email |
| `DispatchRuns.PingPlacesTheDriver` | driver-service/src/drivers/drivers.service.ts:174-179 | a ping puts the driver at its position in the row, and in the pool only if available; nobody else moves |
| `DispatchRuns.StatusDiagram` | driver-service/src/drivers/drivers.service.ts:112-134 | the exact status diagram: for every step, driver and new status, the row gets it if and only if the diagram has the arrow |
| `DispatchRuns.BusyUntilFinished` | driver-service/src/drivers/drivers.service.ts:119-126 | through any pings, patches, photo events, redelivered assignments, claims and rematches a busy driver stays busy, out of the pool and unclaimed until a finish names them |
| `DispatchRuns.FinishReleases` | driver-service/src/drivers/drivers.service.ts:252-261 | the finish puts the driver back into the pool exactly with photo and position, offline without photo, and touches nobody else |
| `DispatchRuns.PoolIsConserved` | matching-service/src/matching/matching.service.ts:45-84 | every step keeps the accounts of every driver and the matching counters |
| `DispatchRuns.PoolConservation` | matching-service/src/matching/matching.service.ts:45-84 | per driver: insertions = assignments published + claims lost to errors + removals + pooled now; published = success counter; attempts = success + no driver + caught errors |
| `DispatchRuns.CountersCountTheMatches` | matching-service/src/matching/matching.service.ts:45-84 | over any run the success, no-driver and error counts are the numbers of matches that ended so, and attempts their sum |
| `DispatchRuns.StepTells` | driver-service/src/drivers/drivers.service.ts:136-148 | a step publishes at most one event per topic and the event is what happened to the row |
| `DispatchRuns.LogsRebuildTheTable` | driver-service/src/drivers/drivers.service.ts:179-185 | folding what was published since any moment over a row of that moment gives the row now |
| `DispatchRuns.LogsRebuildFromCreation` | driver-service/src/drivers/drivers.service.ts:270-278 | folding the two topics from OFFLINE and the creation position gives status and position |
| `StatusHistory.StatusTopicIsAHistory` | driver-service/src/drivers/drivers.service.ts:264-281 | in every reachable state the status topic is, for each driver, a history of the status diagram: rides start and end BUSY and nothing else does, removed photos end AVAILABLE, and it ends with the status of the row |
| `StatusHistory.ReasonsAreTold` | driver-service/src/drivers/drivers.service.ts:239-261 | every published status names its cause and its ride; only a driver's own change has no reason |
| `RideServices.RideService.RequestRide` | ride-service/src/ride/ride.service.ts:39-71 | the row is saved before the publish is tried; a failed publish leaves the row and no event |
| `RideServices.RideService.UpdateStatus` | ride-service/src/ride/ride.service.ts:99-140 | any status after any other; fare stored only if truthy; the event is built from the row as read |
| `RideServices.RideService.HandleDriverAssigned` | ride-service/src/ride/ride.service.ts:142-168 | driver and MATCHED whatever the ride's status; an unknown ride or a failed publish throws |
| `Rides.LogKeepsTelling` | ride-service/src/ride/ride.service.ts:99-157 | a step keeps the latest event true of the row if and only if it does not write the row, publishes, or writes what was last told |
| `Rides.LogRebuildsTheRides` | ride-service/src/ride/ride.service.ts:52-61 | when publishes succeed, the latest event of every ride gives its status, driver and rider |
| `Rides.FareAgreement` | ride-service/src/ride/ride.service.ts:102-117 | the fare on the event is the fare in the row if and only if the fare given is not 0 |
| `Rides.PatchIsTold` | ride-service/src/ride/ride.service.ts:99-140 | the fare told is the one given, else the stored one; the fare stored changes only to a given nonzero one; a completion happens at the time of its patch; nothing else of the ride and no other ride changes |
| `Rides.RowIsLastWritten` | ride-service/src/ride/ride.service.ts:99-157 | over any run a ride has the last nonzero fare it was patched to, the last status written and the last driver assigned |
| `Rides.EventsTellTheRequests` | ride-service/src/ride/ride.service.ts:52-61 | in every reachable state each request and completion on the topics carries rider, pickup and destination as requested, and no ride is announced twice |
| `Rides.CompletionsArePatches` | ride-service/src/ride/ride.service.ts:106-129 | every completion on the topic is a published patch to completed, at its time, with the fare given or else the one the ride had then |
| `Rides.RequestNeverChanges` | ride-service/src/ride/ride.service.ts:41-50 | rider, pickup, destination and time of a ride are those of its request for ever |
| `RequestToClaim.ClaimServesTheRequest` | matching-service/src/matching/matching.service.ts:50-55 | whatever happens to the rides meanwhile, a driver claimed for the event of a request is nearest to the pickup given to `requestRide` and in range of it; nil means that nobody is |
| `RequestToClaim.ClaimReachesTheRide` | ride-service/src/ride/ride.service.ts:142-157 | a claim published and handled matches the requested ride, and no other, with the claimed driver |
| `Exclusion.MutualExclusion` | matching-service/src/matching/matching.service.ts:50-71 | after every disciplined run without a late finish, however often rides are finished and finishes delivered, no two rides that hold the same driver, and no two claims of one driver, are both unfinished |
| `Exclusion.NobodyIsFreedMidRide` | driver-service/src/drivers/drivers.service.ts:252-261 | through a whole disciplined run every driver told of an unfinished ride stays busy if and only if no finish is late |
| `Exclusion.ReleasedOnlyByTheirOwnRide` | driver-service/src/drivers/drivers.service.ts:252-261 | after every disciplined run without a late finish: the first finish of a ride to release a driver is for the ride they are on by driver-service's own topic, and a finish that takes them off an unfinished ride is for that ride if and only if it is the first of its ride |
| `Exclusion.ReleaseIsRightIff` | driver-service/src/drivers/drivers.service.ts:255-260 | a finish naming a busy driver with an unfinished ride is for the ride they are on if and only if that ride was not over; without an unfinished ride, any finish naming them is a repeat |
| `Exclusion.LateFinishRebooks` | driver-service/src/drivers/drivers.service.ts:252-261 | after a late finish the next claim can put the driver on a second unfinished ride if and only if they have a photo and a position |
| `Exclusion.TwoFinishesBookTwice` | ride-service/src/ride/ride.service.ts:99-129 | a concrete run from the empty system, each event delivered at most once: a ride patched to completed twice ends with two unfinished rides that hold one driver |
| `Exclusion.OvertakenByTheFinish` | driver-service/src/drivers/drivers.service.ts:239-247 | an assignment leaves its driver busy without an unfinished ride if and only if the finish of its ride came first |
| `Exclusion.OnlyARepeatFreesTheOvertaken` | driver-service/src/drivers/drivers.service.ts:252-261 | such a driver is freed by no first finish of a ride, only by one more finish of a ride that was over |
| `Exclusion.MoveKeeps` | driver-service/src/drivers/drivers.service.ts:239-261 | each move of the discipline keeps the phases (claimed, then busy, then behind; one at a time) if and only if it is not a late finish |
| `Exclusion.PooledIsFree` | matching-service/src/matching/matching.service.ts:50-55 | a pooled driver is not busy and has only finished rides behind them |
| `Exclusion.BusyChanges` | driver-service/src/drivers/drivers.service.ts:245-247 | only an assignment starts BUSY, only a finish ends it, and the topic keeps the ride meanwhile |
| `Exclusion.WindowReopens` | driver-service/src/drivers/drivers.service.ts:175-177 | between claim and assignment a driver re-enters the pool if and only if they ping while the row says AVAILABLE or set themselves available with photo and position |
| `Exclusion.PingInTheWindowBooksTwice` | driver-service/src/drivers/drivers.service.ts:175-177 | after such a ping the same driver can be assigned to another ride |
| `Exclusion.OneDriverOnTwoRides` | driver-service/src/drivers/drivers.service.ts:174-177 | a concrete run from the empty system, disciplined but for its last ping, after which one driver is assigned to two rides and neither is over |
| `FailingHandlers.AvailableWithoutPhotoIsPending` | driver-service/src/drivers/drivers.service.ts:223-229 | from the empty system, with every attempt stopping anywhere and offsets falling back, an AVAILABLE row without photo has its removal event uncommitted |
| `FailingHandlers.PhotoKeepsSafe` | driver-service/src/kafka/kafka.consumer.ts:42-51 | one photo attempt, wherever it stops, keeps that |
| `FailingHandlers.HandleKeepsSafe` | driver-service/src/drivers/drivers.service.ts:258-260 | so does any other handler's attempt |
| `FailingHandlers.PartialStatusChange` | driver-service/src/drivers/drivers.service.ts:264-281 | a status change that stops early keeps the index exact if and only if it did not stop between database and Redis, or the pool needed no change |
| `FailingHandlers.PartialPing` | driver-service/src/drivers/drivers.service.ts:174-179 | a ping that stops early keeps the index exact if and only if it did not stop after Redis, or the driver was not available, or had not moved |
| `FailingHandlers.PartialPhoto` | driver-service/src/drivers/drivers.service.ts:209-235 | a photo event that stops early keeps the index exact if and only if it did not stop between OFFLINE and Redis for a pooled driver whose photo was removed |
| `FailingHandlers.RetryReturnsEarly` | driver-service/src/drivers/drivers.service.ts:245-256 | after a stop between database and Redis the retry of an assignment or a finish succeeds without writing anything |
| `FailingHandlers.BusyAndStillPooled` | driver-service/src/drivers/drivers.service.ts:245-271 | a pooled driver whose assignment loses Redis once is busy and claimable after the successful retry |
| `FailingHandlers.OfflineAndStillPooled` | driver-service/src/drivers/drivers.service.ts:227-229 | after that stop the retry succeeds by setting the flag again, and the driver is offline, without photo, and claimable |
| `FailingHandlers.PhotoRetryRepairsIff` | driver-service/src/drivers/drivers.service.ts:209-235 | wherever a photo attempt stopped, one clean retry leaves the index exact if and only if that was not the stop |
| `DriverRetries.AttemptsConverge` | driver-service/src/kafka/kafka.consumer.ts:42-51 | wherever an attempt stops, the next clean one ends with the table of an uninterrupted one |
| `DriverRetries.RetriesReachTheTable` | driver-service/src/kafka/kafka.consumer.ts:31-52 | any schedule of failures with one attempt that may finish commits the message unless it is null, and leaves the table of a clean attempt |
| `DriverRetries.NullIsRetriedForEver` | driver-service/src/kafka/kafka.consumer.ts:42-51 | a null message parses, makes every handler throw, and is committed by no schedule |
| `DriverConsumers.KafkaConsumer.RegisterHandler` | driver-service/src/kafka/kafka.consumer.ts:23-25 | the last handler registered for a topic serves it |
| `DriverConsumers.KafkaConsumer.OnModuleInit` | driver-service/src/drivers/drivers.service.ts:51-66 | the four topics and their handlers |
| `DriverConsumers.KafkaConsumer.EachMessage` | driver-service/src/kafka/kafka.consumer.ts:31-52 | malformed messages are committed unhandled, null ones never; otherwise committed exactly when the handler got through |
| `RideMessages.MessageMoves` | driver-service/src/drivers/drivers.service.ts:51-66 | the status of every driver after a clean attempt of any message on any topic |
| `RideMessages.BusyEndsIff` | driver-service/src/drivers/drivers.service.ts:61-65 | however its attempts fail first, a message ends BUSY if and only if it names the driver and is a completion or a cancellation, and starts it if and only if it assigns a ride to them |
| `RideMessages.PatchFreesIff` | driver-service/src/drivers/drivers.service.ts:57-65 | the event of a patched ride, handled to the end, frees a busy driver if and only if the ride is theirs and was patched to completed or cancelled |
| `RideMessages.FinishesAreWhatTheConsumerHandles` | driver-service/src/drivers/drivers.service.ts:57-65 | the finish events of the mutual exclusion theorems are exactly the ride events driver-service acts on |
| `ImageSignature.Formats` | auth-service/src/profile/image-signature.ts:2-7 | the three signatures byte by byte as leading slices of the file, and no other type has one |
| `ImageSignature.TwelveBytesSuffice` | auth-service/src/profile/image-signature.ts:9-18 | the first 12 bytes decide like the whole file, and no file is of two types |
| `ImageSignature.NoFewerBytesSuffice` | auth-service/src/profile/image-signature.ts:9 | for every smaller count some file is misjudged |
| `ProfileServices.ProfileService.ConfirmPhoto` | auth-service/src/profile/profile.service.ts:63-101 | its refusals, deletions, stored key and event for every outcome of the S3 delete and the publish |
| `ProfileServices.ProfileService.DeletePhoto` | auth-service/src/profile/profile.service.ts:103-116 | row first, then S3, then the event |
| `ProfileServices.ProfileService.DeleteFromS3` | auth-service/src/profile/profile.service.ts:135-144 | a failed delete changes nothing and is not reported |
| `ProfileServices.ProfileService.PublishPhotoUpdated` | auth-service/src/profile/profile.service.ts:126-133 | one event with the user's role |
| `PhotoOwnership.PrefixesAreDisjoint` | auth-service/src/profile/profile.service.ts:66-68 | no key lies under the prefixes of two users, for ids without a slash |
| `PhotoOwnership.UploadKeyIsOwn` | auth-service/src/profile/profile.service.ts:50-52 | the key handed out is one its owner, and nobody else, may confirm |
| `PhotoOwnership.UploadKeyReads` | auth-service/src/profile/profile.service.ts:19-23 | the key of each type as it reads in the bucket |
| `PhotoOwnership.UploadKeysDiffer` | auth-service/src/profile/profile.service.ts:50-52 | user, uuid and type can be read off a key, so two upload URLs never share one |
| `PhotoOwnership.OnlyOwnObjects` | auth-service/src/profile/profile.service.ts:66-112 | a handler run for one user leaves every other user's row and objects alone |
| `PhotoOwnership.NoUserPointsAtNothing` | auth-service/src/profile/profile.service.ts:70-112 | from the empty system, with deletes and publishes failing at will, every stored key names an existing object under its owner's prefix of allowed type and size whose bytes are of that type |
| `PhotoOwnership.ConfirmLosesThePhotoIff` | auth-service/src/profile/profile.service.ts:75-86 | a confirm leaves its user pointing at nothing if and only if they confirm the key they already have, what lies there is no photo any more, and the delete works |
| `PhotoOwnership.ConfirmAnswers` | auth-service/src/profile/profile.service.ts:63-86 | which of the refusals a confirm gets, if and only if, judged by the whole file; otherwise success by whether the publish succeeds |
| `PhotoOwnership.ConfirmReplaces` | auth-service/src/profile/profile.service.ts:88-98 | an accepted key becomes the stored one whatever was stored before, and exactly the previous photo leaves the bucket; a refused one changes neither row nor topic |
| `PhotoOwnership.DeleteRemoves` | auth-service/src/profile/profile.service.ts:103-116 | a delete forgets the key, takes exactly the stored object out of the bucket and publishes it; without a photo it changes nothing |
| `PhotoOwnership.KeyIsTheLastConfirmed` | auth-service/src/profile/profile.service.ts:63-116 | after any run from the empty system a user has the key of their last accepted confirm since their last delete, and none without one |
| `PhotoOwnership.NoOrphans` | auth-service/src/profile/profile.service.ts:88-112 | when S3 deletes succeed, a confirmed object not uploaded again is in the bucket only while it is the stored photo |
| `PhotoSync.ClaimedDriversHaveAPhoto` | auth-service/src/profile/profile.service.ts:88-112 | from the empty system, whenever a driver is claimed, their user has a photo or the last unconsumed event about them is a removal; under replays and failed confirm publishes, if delete publishes succeed |
| `PhotoSync.StepKeepsSynced` | driver-service/src/drivers/drivers.service.ts:209-223 | each step keeps what driver-service believes grounded in the log |
| `PhotoSync.DeleteKeepsTheGateIff` | auth-service/src/profile/profile.service.ts:109-112 | right after a delete the gate stands if its event was published; an unpublished one takes it down unless an earlier removal is unread |
| `PhotoSync.DeleteReachesTheDriverIff` | auth-service/src/profile/profile.service.ts:103-115 | whatever others do and however the log is replayed, at its end the driver has lost the flag if and only if the delete was published or the last event ever logged about the user was no photo |
| `PhotoSync.ReplaysDoNotMatter` | driver-service/src/drivers/drivers.service.ts:209-223 | however often the offset falls back, once the log is read the flag is the last one logged, and equals having a photo when every publish succeeded |
| `PhotoSync.FlagChanges` | driver-service/src/drivers/drivers.service.ts:212-223 | only a driver-role photo event changes a flag, and only on its user's row |
| `EmailServices.EmailService.SendRideReceipt` | email-service/src/email/email.service.ts:45-112 | for every combination of failing calls: the row, the counters, what SES accepted, and whether it throws |
| `EmailServices.EmailService.TrySend` | email-service/src/email/email.service.ts:78-111 | the email goes out as made; SENT exactly after an accept whose write succeeds; otherwise the failure is recorded and thrown |
| `EmailServices.EmailService.RecordFailure` | email-service/src/email/email.service.ts:102-109 | counts and records the failure only if the write succeeds |
| `EmailServices.EmailService.CreateRow` | email-service/src/email/email.service.ts:139-158 | the pending row with the ride's snapshot and the subject, or nothing |
| `EmailServices.EmailService.OnMessage` | email-service/src/kafka/kafka.consumer.ts:36-59 | malformed: counted and skipped; returned: counted and committed; thrown: counted and kept |
| `EmailServices.EmailService.ConsumeUntilCommitted` | email-service/src/kafka/kafka.consumer.ts:47-58 | the retry loop stops at the first committed delivery |
| `ReceiptRuns.SendHasEffect` | email-service/src/email/email.service.ts:52-111 | a delivery writes at most its ride's row, never a final one, and attempts, counters and accepts move together |
| `ReceiptRuns.AcceptsAreAccountedFor` | email-service/src/email/email.service.ts:79-100 | over any run, SES accepts of a ride = (1 if its row is SENT) + failed writes of SENT + replies lost after an accept |
| `ReceiptRuns.AtMostOneReceipt` | email-service/src/email/email.service.ts:53-57 | if every accept can be recorded, one receipt exactly for SENT rides, none for others |
| `ReceiptRuns.SendKeepsBooks` | email-service/src/email/email.service.ts:87-109 | attempts and SENT rows are always counted right, unknown riders if and only if no error with the reserved text is recorded |
| `ReceiptRuns.BooksBalance` | email-service/src/email/email.service.ts:69-109 | after any run: sum of attempts = sent + SES errors, sent = SENT rows, not-found count = rows in that final state |
| `ReceiptRuns.CommittedMeansSettled` | email-service/src/email/email.service.ts:58-75 | a returned delivery leaves the row final, a clean one always returns, a thrown one never finishes a row |
| `ReceiptRuns.RetriesEnd` | email-service/src/kafka/kafka.consumer.ts:36-59 | any failures, then one clean delivery: offset past the message, row final |
| `ReceiptRuns.SettledIsFinal` | email-service/src/email/email.service.ts:53-58 | a later delivery, failing or not, changes neither table nor accepts nor failure counters |
| `ReceiptRuns.RowsSettle` | email-service/src/email/email.service.ts:139-158 | the snapshot and the subject of a row never change; a final row never changes at all |
| `ReceiptRuns.RowsAreConsistent` | email-service/src/email/email.service.ts:87-108 | the subject is that of the snapshot's fare; SENT rows have address, message id, time and no error; FAILED rows an error and none of id and time; PENDING rows no attempt |
| `ReceiptContents.DeliveryTellsItsEvent` | email-service/src/email/email.service.ts:61-85 | a row created by a delivery has fare, points and times of its event; an email is accepted if and only if SES is reached and does not refuse, and has fare, points, times, name and address of the event being handled and of auth's answer |
| `ReceiptContents.RunTellsItsEvents` | email-service/src/email/email.service.ts:139-180 | over any run every row and every accepted email tells one of the events delivered for its ride |
| `ReceiptContents.SentRowAgreesIff` | email-service/src/email/email.service.ts:61-94 | a row that becomes SENT has the fare of its email if and only if it is new or was made from an event of the same fare |
| `ReceiptContents.TwoFaresOneReceipt` | email-service/src/email/email.service.ts:61-94 | a ride completed at two fares, its first email refused, ends with the second fare in the email and the first in the rider's history |
| `ReceiptContents.OneFareOneReceipt` | email-service/src/email/email.service.ts:61-94 | if all events of a ride have one fare, so have its row and all its emails |
| `ReceiptContents.RowsTellTheirSends` | email-service/src/email/email.service.ts:65-94 | the address in a row is auth's at creation or at sending; a sent row has the id SES gave and the time of the write; giving up changes neither address nor attempts |
| `ReceiptContents.FailureIsRecorded` | email-service/src/email/email.service.ts:102-109 | a failed send leaves FAILED, one more attempt and the first 1000 characters of the error, or the row as it was if that write fails |
| `ReceiptContents.DuplicateIsCountedIff` | email-service/src/email/email.service.ts:52-57 | a duplicate is counted if and only if the ride's receipt was found SENT |
| `ReceiptContents.UnaddressedIsIgnored` | email-service/src/email/email.service.ts:47-50 | an event with a missing or empty ride or rider is consumed without a trace |
| `ReceiptContents.EveryDeliveryIsCounted` | email-service/src/kafka/kafka.consumer.ts:36-59 | every delivery is counted once, consumed or failed; the offset passes exactly the consumed and the malformed messages |
| `EndToEnd.ReceiptsTellTheRequestedRide` | email-service/src/email/email.service.ts:122-158 | whatever events, redeliveries and failures, every receipt row and every accepted email has the ride's requested points and time, the row its rider, and the fare and time of one published completion of the ride; and so it is shown |
| `EndToEnd.ReceiptsFromTheRequest` | ride-service/src/ride/ride.service.ts:39-61 | the same from the arguments of `requestRide`, in any run before and after it: rider, pickup, destination and time, in the row and as shown |
| `EndToEnd.RideMoveKeeps` | ride-service/src/ride/ride.service.ts:112-129 | whatever happens to rides afterwards, rows and emails keep telling them as requested and as completed |
| `EndToEnd.ShownPointsAreWhole` | email-service/src/email/email.service.ts:122-126 | even for events that lack coordinates a point is shown whole or null |
| `ReceiptTemplate.EscapeIsLossless` | email-service/src/email/templates/ride-receipt.ts:11-12 | decoding the five entities gives back the text |
| `ReceiptTemplate.EscapeIsInjective` | email-service/src/email/templates/ride-receipt.ts:11-12 | different texts stay different |
| `ReceiptTemplate.EscapeDistributes` | email-service/src/email/templates/ride-receipt.ts:11-12 | escaping distributes over concatenation |
| `ReceiptTemplate.NoMarkupSurvives` | email-service/src/email/templates/ride-receipt.ts:11-12 | no raw angle bracket or quote in the output |
| `ReceiptTemplate.ReceiptMarkupIsFixed` | email-service/src/email/templates/ride-receipt.ts:43-62 | the markup characters of every receipt page are those of the template, in the same order |
| `ReceiptTemplate.ReceiptIsReadable` | email-service/src/email/templates/ride-receipt.ts:43-62 | two receipts with the same page are the same receipt: no value can be mistaken for markup or for another value |
| `ReceiptTemplate.ValuesHaveTheirCaptions` | email-service/src/email/templates/ride-receipt.ts:43-62 | every value stands, escaped, under its own caption |

## Left out

- Interleaving at await points: HTTP and Kafka handlers are atomic with respect to each other, and consumers are serial. Concurrent deliveries of one event can both send a receipt; the unique index only prevents a second row, so the recovery branch for its violation is not modelled.
- Failures of database reads in driver-service and ride-service (they change nothing), and of the S3 head and read calls.
- `GeoPool.GeoSet.ClaimNearestDriver`: Redis stores positions rounded to a geohash and picks among equally near drivers by its own order; positions here are exact and ties are free.
- `PhotoSync.ClaimedDriversHaveAPhoto`: the photo topic has one partition; events are keyed by user, so several would behave as several such logs.
- `Exclusion.MutualExclusion`: stated for each ride claimed once, each assignment handled once by driver-service, no ping or manual AVAILABLE between claim and assignment, and no late finish. Ride status has no guard, so a finished ride may be patched back to another status; unfinished means that no finish naming its driver has been handled.
- `DriverConsumers.KafkaConsumer.EachMessage`: besides null, JSON of another shape than its topic's is not modelled; a missing id would reach the database query as an undefined condition.
- `ReceiptRuns.BooksBalance`: a write that throws is taken as not applied, and metrics and log calls as not throwing.
- The plain-text body, and number and date formatting of the receipt (`toFixed`, dates, duration, subject text), and events whose timestamps or fares are not a date or a number.
- The order and the limit of 50 in `getMyReceipts`, `getProfile`, `getRide` and `getRidesByRiderId`: plain reads.
- Content types that name a property of JavaScript's object prototype: `confirmPhoto` filters the type before the signature table is read.
- Kafka, Redis, S3, SES and TypeORM themselves, Kafka's retry limits and back-off, notification-service, payment-service, rider-service, gateway, authentication, metrics endpoints, migrations and deployment.
