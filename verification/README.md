# Verified model of catga-rs

Dafny models and proofs for the parts of catga-rs whose correctness spans several functions, threads
or workers: the lock-free Snowflake id generator, the durable flow stores, the event-sourcing replay
stack, the transport batcher, and the circuit breaker with its retry arithmetic.

`dafny verify dfyconfig.toml` checks the whole project.

## How it is organised

Shared state is modelled twice, and the two models are connected.

- A step machine: a value, a `Step` per atomic access (a load, a compare-and-swap, one SQL statement),
  a `Next` function and `Run` over an arbitrary sequence of steps by any number of workers. Safety
  properties are lemmas about every `Run`. Clocks, random tokens and fresh ids are parameters of the
  steps, so nothing is assumed about them beyond what a step says.
- A class with the fields the code updates. Its methods are the code's loops; between any two of their
  own accesses an `Others...` method lets every other worker do anything the step machine allows. Each
  method states what the caller may conclude, often with a ghost result that names the moment at which
  the operation took effect.

Invariants say what no run can do. Beside them, lemmas named `...Alone` and `...ExactlyWhen` say what each
operation does achieve: when it succeeds, and what it then leaves, stated without the function that computes it.

| files | what they hold |
|---|---|
| `Prelude`, `Bits` | options and results; shifts, masks and exclusive-or as functions on naturals |
| `SnowflakeLayout`, `SnowflakeGenerator`, `SnowflakeFill`, `Decimal` | id layout, the threads' machine, the generator object, decimal rendering |
| `FlowStates`, `FlowRows` | flow state and the versioned flow table with claims and heartbeats |
| `FlowContinuations`, `ContinuationRows`, `ContinuationTable` | suspended flows: serial replay of committed operations, timeout receipts, retry loops |
| `ScheduleTimes`, `Schedules` | due-work leases and their time arithmetic |
| `EventLog`, `Aggregates`, `AggregateRepository`, `TimeTravel` | page contract, competing saves, snapshot loading, historical state |
| `Subscriptions`, `SubscriptionDelivery`, `Projections` | persistent subscriptions, their delivery under failures, and catch-up projections |
| `Batching`, `BatchRunner` | the batcher's machine and its runner |
| `Resilience` | circuit breaker with atomic steps |
| `ProbeFlags`, `CircuitRaces`, `CircuitRaceRuns` | the circuit at the grain of single accesses, and concrete races of it |
| `RetryJitter`, `Retries` | backoff and jitter arithmetic, the sampler, the retry loop |
| `EventVersions` | schema upgrades, concurrent registration, the upgrading read view |

## Where the code and its documentation differ

The model follows the code. Lemmas show each difference and, where the documented behaviour holds for some
inputs or runs, say exactly for which.

- An id may be 0 although the trait promises a positive one (`IdIsZeroExactlyAtEpoch`, `IdZeroIsIssued`).
- The retry delay stops doubling at the 32nd retry (`DelayDoublesExactlyWhen`, `DelayDoesNotAlwaysDouble`).
- Rescheduling a target keeps its first due time although the type's documentation says it is replaced
  (`DueTimeTakenExactlyWhen`, `ReschedulingCanBeIgnored`).
- Recording a wait result answers true also for a result that is thrown away (`RecordedExactlyWhen`,
  `RecordCanLoseAResult`).
- "One recovery probe" and its cooldown hold for atomic permits. At the grain of single atomic accesses a
  half-open period can admit a second probe (`SecondProbeExactlyWhen`, `ResetsOfPeriod`, `OneProbeAlone`,
  `TwoProbesArePossible`), and a probe can be admitted before the cooldown is over
  (`EarlyProbeExactlyWhen`, with one run for each cause: `ParkedCallerIsAdmitted`, `OldTestIsAccepted`,
  `UnstoredTimeLetsThrough`).
- `batch_timeout` is documented as the longest wait of the oldest queued envelope; it does not bound the
  wait behind an active batch (`OverdueLeftExactlyWhen`, `OverdueStartsInTwoRounds`, `WaitCanExceedTimeout`).
- `max_queue_length` is documented as the most unstarted envelopes; a whole batch more can wait
  (`QueueLimitExceededExactlyWhen`, `UnstartedBound`, `UnstartedBoundIsReached`).
- A conforming chain of exactly 100 upgrades is refused (`UpgradeSucceedsExactlyWhen`,
  `HundredStepsAreRefused`).
- Snapshot-based `state_at_time` equals the rebuild only for suitably ordered timestamps
  (`FormsAgreeExactlyWhen`, `FormsCanDiffer`).
- Before the Unix epoch two different roundings meet: a stored wait deadline can be seen as passed too
  early, and so can a due time (`DeadlineNeverEarly`, `DeadlineCanBeEarly`, `DueTestIsExactWhen`).

## Model

| member | source | states |
|---|---|---|
| `SnowflakeLayouts.IdValue` | crates/catga-core/src/distributed_id.rs:349-357 | the shifted and or-ed word is an exact sum, read as timestamp over the two low fields and as the two high fields over the sequence |
| `SnowflakeLayouts.ParseRecoversFields` | crates/catga-core/src/distributed_id.rs:363-370 | for every valid layout, packing then parsing returns timestamp, worker and sequence |
| `SnowflakeLayouts.PackRecoversId` | crates/catga-core/src/distributed_id.rs:363-370 | and every 63-bit number is the id of the fields that parsing finds in it, so a layout accepted by validation is a bijection |
| `SnowflakeLayouts.IdBelow63Bits` | crates/catga-core/src/distributed_id.rs:349-357 | every id is below 2^63 |
| `SnowflakeLayouts.IdsOrderByTime` | crates/catga-core/src/distributed_id.rs:349-357 | ids of one worker order exactly as (timestamp, sequence) pairs |
| `SnowflakeLayouts.IdIsZeroExactlyAtEpoch` | crates/catga-core/src/distributed_id.rs:154-155 | the documented positive id is 0 exactly for worker 0, offset 0, sequence 0 |
| `SnowflakeLayouts.WorkersDoNotCollide` | crates/catga-core/src/distributed_id.rs:349-356 | different workers never build the same id |
| `SnowflakeGenerators.PackWordValue` | crates/catga-core/src/distributed_id.rs:315-316 | the packed state word is the initialised bit plus the position of its last reservation |
| `SnowflakeGenerators.WordDecodes` | crates/catga-core/src/distributed_id.rs:291-297 | what the loop takes out of a word is the position that was packed into it |
| `SnowflakeGenerators.PlanAdvances` | crates/catga-core/src/distributed_id.rs:291-316 | a plan starts right after what the loaded word reserved or at a new millisecond, takes all that was asked or is left, and raises the word |
| `SnowflakeGenerators.PlanRefusals` | crates/catga-core/src/distributed_id.rs:291-311 | the two refusals happen exactly when the reading is behind the word, or its millisecond is used up |
| `SnowflakeGenerators.ReserveAlone` | crates/catga-core/src/distributed_id.rs:290-329 | a load and swap that nobody interrupts reserves all that was asked or is left, right after what its millisecond has reserved, unless the clock is behind or the millisecond is used up |
| `SnowflakeGenerators.NextKeepsOrder` | crates/catga-core/src/distributed_id.rs:290-329 | each load or swap of any thread keeps reservations disjoint and ordered; a new one raises the word |
| `SnowflakeGenerators.RunKeepsOrder` | crates/catga-core/src/distributed_id.rs:275-330 | the same over every interleaving, with any clock readings |
| `SnowflakeGenerators.IdsAreUnique` | crates/catga-core/src/distributed_id.rs:275-361 | over every interleaving the ids of a generator strictly increase in commit order and stay below 2^63 |
| `SnowflakeGenerators.IdZeroIsIssued` | crates/catga-core/src/distributed_id.rs:275-361 | worker 0 of any valid layout issues id 0 in one load and swap at the epoch millisecond |
| `SnowflakeGenerators.GeneratorsAreDisjoint` | crates/catga-core/src/distributed_id.rs:340-361 | two generators of one layout with different workers share no id, whatever their runs |
| `SnowflakeFill.NewGenerator` | crates/catga-core/src/distributed_id.rs:223-236 | creation is refused exactly for an invalid layout or a worker beyond it |
| `SnowflakeFill.SnowflakeIdGenerator.constructor` | crates/catga-core/src/distributed_id.rs:223-236 | a new generator has reserved nothing |
| `SnowflakeFill.SnowflakeIdGenerator.ReserveAt` | crates/catga-core/src/distributed_id.rs:275-330 | with other threads swapping in between: a reservation is after everything reserved at the call and before the return; each error names its cause; a lost round means another thread won |
| `SnowflakeFill.SnowflakeIdGenerator.WriteReservation` | crates/catga-core/src/distributed_id.rs:349-357 | one stretch of the buffer gets exactly the ids of the reservation, the rest is untouched |
| `SnowflakeFill.SnowflakeIdGenerator.Fill` | crates/catga-core/src/distributed_id.rs:340-361 | a successful fill is strictly increasing and every id was reserved during the call by this worker; each failure names the clock reading that caused it |
| `SnowflakeFill.SnowflakeIdGenerator.NextId` | crates/catga-core/src/distributed_id.rs:334-338 | one id, reserved during the call; each failure names the clock reading that caused it |
| `SnowflakeFill.WaitForNextMillis` | crates/catga-core/src/distributed_id.rs:260-268 | returns the first reading past the given offset, or the first unreadable one |
| `Decimal.DigitsDenoteValue` | crates/catga-core/src/distributed_id.rs:175-190 | the digits evaluate back to the value, without a leading zero |
| `Decimal.DigitsAreShortest` | crates/catga-core/src/distributed_id.rs:175-190 | no digit string for a value is shorter than its digit count |
| `Decimal.WriteDecimal` | crates/catga-core/src/distributed_id.rs:175-190 | writes exactly the digits and leaves the rest; `None` with the buffer untouched exactly when it is too short |
| `RetryJitters.FullJitterIsExact` | crates/catga-core/src/retry_jitter.rs:115-134 | full jitter is floor(base * sample / (2^64 - 1)) for every duration and sample: nothing saturates, and it never exceeds the base |
| `RetryJitters.DurationRoundTrip` | crates/catga-core/src/retry_jitter.rs:127-134 | a length of time survives the trip through nanoseconds |
| `RetryJitters.RetryDelayNeverDecreases` | crates/catga-core/src/resilience.rs:107-113 | a later retry never waits less |
| `RetryJitters.DelayDoublesExactlyWhen` | crates/catga-core/src/resilience.rs:104-113 | the documented doubling holds exactly for the first 31 retries, a zero delay, or a saturated one |
| `RetryJitters.RetryDelayEnds` | crates/catga-core/src/resilience.rs:107-113 | delays begin at the initial delay and stay equal from retry 32 on |
| `RetryJitters.DelayDoesNotAlwaysDouble` | crates/catga-core/src/resilience.rs:104-113 | retry 32 of a one-nanosecond delay is one nanosecond short of double |
| `RetryJitters.Mix64IsBijective` | crates/catga-core/src/retry_jitter.rs:136-140 | `mix64` has a two-sided inverse on 64-bit words |
| `RetryJitters.WordsRepeatOnlyAfterFullCycle` | crates/catga-core/src/retry_jitter.rs:98-112 | the state word does not repeat within 2^64 draws |
| `RetryJitters.SamplesAreDistinct` | crates/catga-core/src/retry_jitter.rs:98-140 | nor does a sample |
| `RetryJitters.ConcurrentSamplesNeverRepeat` | crates/catga-core/src/retry_jitter.rs:98-112 | with any number of racing callers and spurious failures, the k-th successful draw is the k-th sample of the seed and the first 2^64 differ |
| `RetryJitters.DrawAlone` | crates/catga-core/src/retry_jitter.rs:98-112 | an undisturbed draw yields the next sample of the sequence, also after spurious failures |
| `RetryJitters.RetryJitterState.NextSample` | crates/catga-core/src/retry_jitter.rs:98-112 | a draw returns the sample of exactly one new index of the sequence, which no other caller draws |
| `FlowStates.UnixMillisMonotone` | crates/catga-core/src/time.rs:121-129 | rounding to stored milliseconds keeps the order of times, also before the epoch |
| `FlowStates.UnixMillisRounds` | crates/catga-core/src/time.rs:121-129 | a stored millisecond is less than a millisecond away from its time, on the side of the epoch |
| `FlowRows.FirstClaimable` | crates/catga-flow-store/src/mysql.rs:218-240 | the row it finds is claimable and no candidate before it is; finding none means none is claimable |
| `FlowRows.NextKeepsStore` | crates/catga-flow-store/src/mysql.rs:179-352 | each statement of any worker raises the version of the row it won by exactly 1 and otherwise refreshes a heartbeat or nothing; a held load at the current revision is the current row |
| `FlowRows.RunKeepsStore` | crates/catga-flow-store/src/mysql.rs:179-352 | the same over every interleaving |
| `FlowRows.ClaimTakesOver` | crates/catga-flow-store/src/mysql.rs:218-252 | a claim changes only owner, heartbeat and version of one stale running row, and the row is claimable again exactly once it has been silent for the stale period |
| `FlowRows.ClaimsExactlyWhen` | crates/catga-flow-store/src/mysql.rs:218-252 | a claim finds nothing exactly when no candidate is a running row silent for long enough, and gives up only on one at the largest version |
| `FlowRows.OneWinnerPerVersion` | crates/catga-flow-store/src/mysql.rs:179-259 | the updates and claims that succeed on a row install consecutive versions, one winner each, and the row ends at the last |
| `FlowRows.DisplacedOwnerIsFenced` | crates/catga-flow-store/src/mysql.rs:179-352 | once a row is past a version, an update or heartbeat for that version fails in every later state, even if its load came before the claim |
| `FlowRows.RunEvolves` | crates/catga-flow-store/src/mysql.rs:313-322 | whatever other workers do, rows are not lost and equal revisions mean equal rows |
| `FlowRows.MissedOnlyAtThreshold` | crates/catga-flow-store/src/mysql.rs:205-240 | if no selected row is claimable, an unlocked stale row was missed only by a selection cut at the bound and only within the threshold millisecond |
| `FlowRows.FindStale` | crates/catga-flow-store/src/mysql.rs:218-240 | the candidate loop finds the first claimable row |
| `FlowRows.WriteStoresState` | crates/catga-flow-store/src/mysql.rs:45-188 | in the interleaving model: when a create or an update succeeds, that it stores exactly the given state, and that it touches no other row |
| `FlowRows.HeartbeatAlone` | crates/catga-flow-store/src/mysql.rs:262-281 | a heartbeat that nobody interrupts succeeds exactly for the owner at its version and changes only the heartbeat |
| `FlowRows.FlowTable.CreateState` | crates/catga-flow-store/src/mysql.rs:45-96 | succeeds exactly when the identity is absent; then the row holds the given state and its columns at revision 0, and no other row changes |
| `FlowRows.FlowTable.UpdateState` | crates/catga-flow-store/src/mysql.rs:179-188 | succeeds exactly for the successor version of a row at the expected version; then the row holds exactly the given state and its columns, one revision higher, and no other row changes |
| `FlowRows.FlowTable.TryClaim` | crates/catga-flow-store/src/mysql.rs:191-259 | finds nothing exactly when no candidate is running and silent for long enough; a claim stores that row with new owner, heartbeat and next version and changes no other; reporting nothing means no unlocked flow of the type was stale, except in the threshold millisecond of a selection cut at the bound |
| `FlowRows.FlowTable.Heartbeat` | crates/catga-flow-store/src/mysql.rs:262-281 | yes: the write met the row at that owner and version and set only the heartbeat, to the clock of that attempt; no: at some moment it was not so; giving up: others wrote the row at least 8 times |
| `FlowRows.FlowTable.HeartbeatOnce` | crates/catga-flow-store/src/mysql.rs:262-281 | one load and replace; a lost replace means another write |
| `FlowRows.FlowTable.Replace` | crates/catga-flow-store/src/mysql.rs:313-322 | writes exactly when the row is still at the loaded revision |
| `FlowContinuations.DeadlineNeverEarly` | crates/catga-core/src/flow/timeout.rs:24-66 | a stored deadline seen as passed is really passed, exactly unless the clock is within a millisecond before the epoch and the deadline is the epoch |
| `FlowContinuations.DeadlineCanBeEarly` | crates/catga-core/src/flow/timeout.rs:24-66 | a wait that ends at the epoch is seen as over one nanosecond before it |
| `FlowContinuations.DeadlineRoundsUp` | crates/catga-core/src/flow/timeout.rs:24-66 | the stored deadline exceeds the real one by less than a millisecond |
| `FlowContinuations.DeadlineStorableExactlyWhen` | crates/catga-core/src/flow/timeout.rs:24-66 | only a suspended wait has a deadline, and it cannot be stored exactly if it is before the epoch or past the largest millisecond |
| `FlowContinuations.RecordAddsExactlyWhen` | crates/catga-core/src/flow/suspension.rs:270-330 | a result is added exactly if one is still missing, its child may report and has not, and it is small enough; otherwise the wait is unchanged |
| `FlowContinuations.RecordKeepsWait` | crates/catga-core/src/flow/suspension.rs:270-330 | a valid wait stays valid and counts no child twice |
| `FlowContinuations.CompleteExactlyWhenAllReported` | crates/catga-core/src/flow/suspension.rs:403-444 | a valid wait for named children has all its results exactly when every one of them has reported |
| `ContinuationRows.DecideKeepsIdentity` | crates/catga-flow-store/src/mssql_suspended.rs:381-516 | every operation writes a continuation of the same flow with a storable deadline |
| `ContinuationRows.OperationEffects` | crates/catga-flow-store/src/mssql_suspended.rs:381-516 | update and claim move the version by exactly one, a record adds one result of a child that had not reported, a heartbeat touches nothing else |
| `ContinuationRows.DecidesExactly` | crates/catga-flow-store/src/mssql_suspended.rs:381-516 | each operation acts exactly when version, identity, owner or wait are as it asks and the resulting deadline can be stored; when it is refused, invalid, or has nothing to add |
| `ContinuationRows.AloneActsExactlyWhen` | crates/catga-flow-store/src/mssql_suspended.rs:344-597 | an operation that nobody interrupts leaves exactly its result, with its deadline and no lease, one revision higher, or no row; otherwise all rows stay |
| `ContinuationRows.CreateStores` | crates/catga-flow-store/src/mssql_suspended.rs:88-169 | a new row holds the given continuation and its deadline at revision 0; an existing identity, an invalid continuation or an unstorable deadline changes nothing |
| `ContinuationRows.NextKeepsStore` | crates/catga-flow-store/src/mssql_suspended.rs:344-597 | each create, load, replace, delete, poll and settlement keeps rows well formed and pending loads honest |
| `ContinuationRows.RunKeepsStore` | crates/catga-flow-store/src/mssql_suspended.rs:344-597 | the same over every interleaving; a row disappears only by deletion |
| `ContinuationRows.StepCommitsOnCurrent` | crates/catga-flow-store/src/mssql_suspended.rs:344-597 | a continuation changes or disappears only by one operation decided on its current value |
| `ContinuationRows.DeletedStaysDeleted` | crates/catga-flow-store/src/mssql_suspended.rs:344-378 | nothing is committed on a deleted identity that is not created again |
| `ContinuationRows.StoredIsSerialReplay` | crates/catga-flow-store/src/mssql_suspended.rs:344-597 | unless this identity is deleted and created again, the stored continuation is its committed operations applied one at a time in commit order, and it is missing exactly when the last was a delete |
| `ContinuationRows.RecreationBreaksReplay` | crates/catga-flow-store/src/mssql_suspended.rs:355-366 | a row created again reuses revision 0, so a heartbeat of the deleted row overwrites it and commit order does not explain the result |
| `ContinuationRows.ReplayKeepsResults` | crates/catga-flow-store/src/mssql_suspended.rs:429-516 | versions only rise, and recorded results are only added to while a version lasts |
| `ContinuationRows.RecordedResultSurvives` | crates/catga-flow-store/src/mssql_suspended.rs:344-516 | no concurrent heartbeat, record, poll or settlement loses a recorded result while the row lives at that version; if the row is gone, a committed delete removed it |
| `ContinuationRows.RecordedExactlyWhen` | crates/catga-flow-store/src/mssql_suspended.rs:429-486 | a true answer means the child is stored exactly when it had reported before or the wait accepts the outcome |
| `ContinuationRows.RecordCanLoseAResult` | crates/catga-core/src/flow/suspension.rs:270-295 | a full wait answers true to a late child and stores nothing |
| `ContinuationRows.WriteEndsReceipt` | crates/catga-flow-store/src/mssql_suspended.rs:566-571 | any write to a leased row, or its deletion, removes its token |
| `ContinuationRows.SpentTokenStaysDead` | crates/catga-flow-store/src/mssql_timeout.rs:44-55 | a token that left a row never comes back to it, not even through deletion and re-creation |
| `ContinuationRows.OldReceiptSettlesNothing` | crates/catga-flow-store/src/mssql_timeout.rs:92-121 | after any write to its row, and whatever follows, settling an old receipt changes nothing |
| `ContinuationRows.LeaseIsExclusive` | crates/catga-flow-store/src/mssql_timeout.rs:44-55 | while its lease is unexpired and untouched a row stays put and is not due again, whatever happens to other rows at any clock |
| `ContinuationRows.LeasedUntilExpiry` | crates/catga-flow-store/src/mssql_timeout.rs:44-55 | a polled row is due again exactly from 30 seconds after the poll |
| `ContinuationRows.SettledRowDue` | crates/catga-flow-store/src/mssql_timeout.rs:92-106 | an acknowledged row is never due, a released one from its deadline on; the continuation is unchanged |
| `ContinuationRows.PollLeases` | crates/catga-flow-store/src/mssql_timeout.rs:44-77 | a poll leases exactly its rows for 30 seconds and changes nothing else of any row |
| `ContinuationRows.SettleEndsLease` | crates/catga-flow-store/src/mssql_timeout.rs:92-121 | settling with the row's own token ends the lease and, when acknowledging, the deadline; with any other it does nothing |
| `ContinuationRows.ReceiptNeverEarly` | crates/catga-flow-store/src/mssql_timeout.rs:20-77 | with a clock past the epoch no receipt is issued before the wait's deadline |
| `ContinuationTables.RunEvolves` | crates/catga-flow-store/src/mssql_suspended.rs:344-597 | whatever other workers do, a row not deleted and created again has rising revisions, equal ones meaning equal rows, or is deleted for good |
| `ContinuationTables.DuePageIsPollStep` | crates/catga-flow-store/src/mssql_timeout.rs:44-55 | a due page with fresh tokens is a poll of the interleaving model |
| `ContinuationTables.DuePageIsFirst` | crates/catga-flow-store/src/mssql_timeout.rs:44-55 | the page is unlocked overdue rows without a running lease, by deadline, and a row is left out only if the limit is used up by rows due no later |
| `ContinuationTables.AttemptUsesItsClock` | crates/catga-flow-store/src/mssql_suspended.rs:429-516 | every attempt asks for the same and writes its own clock reading |
| `ContinuationTables.PrecheckAnticipates` | crates/catga-flow-store/src/mssql_suspended.rs:381-426 | what an update or claim turns down before it looks at the table, every row would turn down in the same way |
| `ContinuationTables.ContinuationTable.Mutate` | crates/catga-flow-store/src/mssql_suspended.rs:344-516 | the six retry loops, with a clock reading per attempt: unless the identity is created again, a true answer means that at one moment the row met what the operation asks and got exactly its result, or a record had nothing to add; a false one that at some moment it did not (or a claim was overtaken); giving up that others wrote or deleted the row as often as this call tried |
| `ContinuationTables.ContinuationTable.MutateOnce` | crates/catga-flow-store/src/mssql_suspended.rs:344-516 | one load, decision, and replace or delete |
| `ContinuationTables.ContinuationTable.Commit` | crates/catga-flow-store/src/mssql_suspended.rs:555-597 | writes or deletes exactly at the loaded revision; a write stores the continuation with its deadline and drops the lease |
| `ContinuationTables.ContinuationTable.PollPage` | crates/catga-flow-store/src/mssql_timeout.rs:20-77 | the page is the first overdue rows; each then holds its token for 30 seconds and is otherwise unchanged, as is every other row; or it fails untouched when the lease deadline overflows |
| `ContinuationTables.ContinuationTable.SettleReceipt` | crates/catga-flow-store/src/mssql_timeout.rs:80-132 | a malformed token is an error and a stale one changes nothing; with the row's own token the token is gone and the continuation and every other row stay, and the row is due at no clock after an acknowledgement and exactly from its old deadline on after a release |
| `ScheduleTimes.ScheduledTimeIsExact` | crates/catga-flow-store/src/scheduler_common.rs:25-27 | the stored pair restores the exact time and orders as times do |
| `ScheduleTimes.DueTestIsExactWhen` | crates/catga-flow-store/src/server_scheduler.rs:68-69 | the due test compares times exactly if and only if the clock is not before the epoch or is on a whole millisecond |
| `ScheduleTimes.LeaseOutlivesClaimWhen` | crates/catga-flow-store/src/scheduler_common.rs:9-23 | a lease of no length is refused; at any clock, another outlives the instant that grants it exactly when it reaches the next stored millisecond |
| `Schedules.NextConserves` | crates/catga-flow-store/src/server_scheduler.rs:35-133 | each statement keeps every id present, acked once or cancelled once, and one row per target |
| `Schedules.WorkIsConserved` | crates/catga-flow-store/src/server_scheduler.rs:35-133 | the same over every run |
| `Schedules.TimesStayOk` | crates/catga-flow-store/src/server_scheduler.rs:35-54 | over every run stored remainders stay below a millisecond |
| `Schedules.ReschedulingKeepsFirstRow` | crates/catga-flow-store/src/server_scheduler.rs:44-53 | scheduling a target that has a row changes nothing |
| `Schedules.DueTimeTakenExactlyWhen` | crates/catga-flow-store/src/server_scheduler.rs:35-54 | the target gets the requested due time, as documented, if and only if it had no row or one due then already |
| `Schedules.ReschedulingCanBeIgnored` | crates/catga-flow-store/src/scheduler_store.rs:43-46 | a target rescheduled five milliseconds later keeps its first due time |
| `Schedules.LeaseIsExclusive` | crates/catga-flow-store/src/server_scheduler.rs:56-133 | until its owner acks, releases or renews, no claim or cancel of a leased row that reads an earlier clock takes it; other rows may be claimed and cancelled at any clock |
| `Schedules.FormerOwnerIsFenced` | crates/catga-flow-store/src/server_scheduler.rs:110-133 | a former owner's ack, release and renew answer false and change nothing in every later state until it claims this row again, however often it claims others |
| `Schedules.ClaimDisplaces` | crates/catga-flow-store/src/server_scheduler.rs:85-107 | a claim by another owner makes the previous holder a former owner |
| `Schedules.OwnersStepEffects` | crates/catga-flow-store/src/server_scheduler.rs:110-133 | ack removes, release frees for every clock, renew moves only the deadline, and no other row changes |
| `Schedules.ScheduledBecomesDue` | crates/catga-flow-store/src/server_scheduler.rs:35-54 | a newly scheduled row is free and, wherever the due test is exact, due exactly from its due time on |
| `Schedules.SchedulesExactlyWhen` | crates/catga-flow-store/src/server_scheduler.rs:35-54 | scheduling adds exactly one unheld row with the exact due time if no row has the same flow and state, and otherwise nothing |
| `Schedules.EarliestMeaning` | crates/catga-flow-store/src/server_scheduler.rs:86-92 | the ordered, limited selection is the first `limit` rows: distinct, in order, and nothing skipped comes earlier |
| `Schedules.BeforeIsByTime` | crates/catga-flow-store/src/server_scheduler.rs:86-92 | claim order is order of due times, the identity breaking ties |
| `Schedules.SelectionIsFirstDue` | crates/catga-flow-store/src/server_scheduler.rs:71-92 | at a clock where the due test is exact, the selection is distinct unheld rows whose due time has come, earliest first, and a row is left out only if the limit is used up by rows due no later |
| `Schedules.SelectionIsFree` | crates/catga-flow-store/src/server_scheduler.rs:86-92 | selected rows are distinct, present and free |
| `Schedules.ScheduleTable.ScheduleResume` | crates/catga-flow-store/src/server_scheduler.rs:35-54 | inserts unless the target has a row; the answer is the target's row at the read, and the first row if nobody interfered |
| `Schedules.ScheduleTable.CancelResume` | crates/catga-flow-store/src/server_scheduler.rs:56-62 | removes one row and no other; a refusal means the row is gone or somebody holds it past this clock |
| `Schedules.ScheduleTable.ClaimDueByLoop` | crates/catga-flow-store/src/server_scheduler.rs:85-107 | the select-then-update loop never loses eligibility; at a clock where the due test is exact it leases the earliest unlocked, unheld rows whose due time has come, as many as the limit allows, and changes nothing else |
| `Schedules.ScheduleTable.ClaimDueByStatement` | crates/catga-flow-store/src/server_scheduler.rs:71-84 | so does the single statement |
| `Schedules.ScheduleTable.AckDue` | crates/catga-flow-store/src/server_scheduler.rs:110-114 | succeeds exactly for the current holder, expired or not; afterwards the caller holds nothing there and no other row changed |
| `Schedules.ScheduleTable.ReleaseDue` | crates/catga-flow-store/src/server_scheduler.rs:116-121 | the holder's row becomes free at every clock and keeps its target and due time; no other row changes |
| `Schedules.ScheduleTable.RenewDue` | crates/catga-flow-store/src/server_scheduler.rs:123-133 | succeeds exactly for a holder whose lease has not run out, who then holds the same work until the new deadline; a refused holder's row is free |
| `EventLog.ReadPage` | crates/catga-core/src/event_store.rs:232-238 | a page is a non-empty stretch from its cursor while events remain, cut anywhere |
| `EventLog.ReadTimePage` | crates/catga-core/src/event_store.rs:252-263 | a time page passes physical versions and may match nothing |
| `EventLog.ReadIdsPage` | crates/catga-core/src/event_store.rs:273-278 | pages of stream names advance to the end, cut anywhere |
| `Aggregates.ShouldSnapshotIsExact` | crates/catga-core/src/aggregate.rs:72-77 | for versions that occur the decision is exactly that the interval has gone by |
| `Aggregates.CursorSkipsSeen` | crates/catga-core/src/aggregate.rs:165-167 | the cursor after a version asks for exactly the later events |
| `Aggregates.FoldAppend` | crates/catga-core/src/aggregate.rs:211-230 | a replay continues across any split of the events |
| `Aggregates.NextKeepsRepository` | crates/catga-core/src/aggregate.rs:238-282 | each step of each competing writer keeps the snapshot a replay of its prefix; streams grow and snapshots never go back |
| `Aggregates.SnapshotsAreReplays` | crates/catga-core/src/aggregate.rs:238-282 | across every run of competing saves the stored snapshot at v is the fold of events 0..v |
| `Aggregates.SavedVersionNearSnapshot` | crates/catga-core/src/aggregate.rs:264-281 | a successful save is, and stays, less than `interval` ahead of the latest snapshot |
| `Aggregates.SaveAlone` | crates/catga-core/src/aggregate.rs:238-282 | a save that nobody interrupts is refused exactly when the stream does not end right before its events; otherwise it appends them and stores a snapshot exactly when the interval is reached |
| `Aggregates.SnapshotRejectedExactlyWhen` | crates/catga-core/src/aggregate.rs:264-281 | a snapshot is turned down exactly when a later one is stored |
| `Aggregates.BeginAndRaise` | crates/catga-core/src/aggregate.rs:190-235 | a writer that loads the stream and raises an event holds the replay advanced by it |
| `Aggregates.SnapshotPlusTail` | crates/catga-core/src/aggregate.rs:190-235 | snapshot plus tail is the full replay |
| `AggregateRepositories.AggregateRepository.Load` | crates/catga-core/src/aggregate.rs:190-235 | for any page boundaries and while the stream grows: the full replay of the stream as of one moment of the call |
| `AggregateRepositories.AggregateRepository.LoadTail` | crates/catga-core/src/aggregate.rs:210-230 | the paged tail of that load |
| `AggregateRepositories.AggregateRepository.Save` | crates/catga-core/src/aggregate.rs:238-282 | for any aggregate: appended exactly when the stream ends right before the local events, which then stand there; on success the version is less than `interval` ahead of the snapshot; snapshots stay replays if the aggregate was a replayed prefix plus these events |
| `AggregateRepositories.AggregateRepository.SaveSnapshot` | crates/catga-core/src/aggregate.rs:264-281 | the snapshot half of a save |
| `AggregateRepositories.ApplyEvents` | crates/catga-core/src/aggregate.rs:216-225 | the event loop of a page is the fold |
| `TimeTravel.LoadAtVersion` | crates/catga-core/src/snapshot.rs:116-125 | the newest snapshot not past the version |
| `TimeTravel.VersionOfReplay` | crates/catga-core/src/time_travel.rs:123-147 | a replay up to an inclusive version replays the events not past it and arrives at it or at the end of the stream |
| `TimeTravel.RebuildVersion` | crates/catga-core/src/time_travel.rs:123-147 | the rebuild from scratch is the full replay of exactly the events whose version does not exceed the given one, and arrives at that version or at the last |
| `TimeTravel.ReplayPages` | crates/catga-core/src/time_travel.rs:132-145 | the page loop is the fold of everything from its cursor |
| `TimeTravel.RebuildTime` | crates/catga-core/src/time_travel.rs:149-173 | the rebuild at a time is the fold of every event no later |
| `TimeTravel.ReplayTimePages` | crates/catga-core/src/time_travel.rs:158-171 | the same page loop over time pages, those without a match included |
| `TimeTravel.StateAtVersion` | crates/catga-core/src/time_travel.rs:241-269 | the snapshot form at a version returns exactly what the rebuild returns, `None` and errors included: the replay of exactly the events up to that version |
| `TimeTravel.LastMatchingVersion` | crates/catga-core/src/time_travel.rs:274-291 | the first pass finds the last event no later than the bound |
| `TimeTravel.StateAtTime` | crates/catga-core/src/time_travel.rs:272-320 | the snapshot form at a time equals the rebuild for non-decreasing timestamps |
| `TimeTravel.SnapshotFormIsExact` | crates/catga-core/src/time_travel.rs:272-320 | so does every stream whose matching events are a prefix |
| `TimeTravel.FormsAgreeExactlyWhen` | crates/catga-core/src/time_travel.rs:272-320 | without ordered timestamps the two forms agree if and only if the matching events are consecutive or those after the snapshot are not |
| `TimeTravel.FormsCanDiffer` | crates/catga-core/src/time_travel.rs:272-320 | two events out of time order make them differ |
| `SubscriptionFilters.Subscription.MatchesStream` | crates/catga-core/src/subscription.rs:106-115 | an exact name, or a prefix before a trailing star |
| `Subscriptions.RemainingIsPastCheckpoint` | crates/catga-core/src/subscription.rs:339-347 | a run starts at exactly the events past the checkpoint |
| `Subscriptions.SelectedSplits` | crates/catga-core/src/subscription.rs:361-377 | selection distributes over page boundaries |
| `Subscriptions.PassMovesCheckpoint` | crates/catga-core/src/subscription.rs:334-382 | a pass moves a checkpoint exactly if the stream is taken and has a later event, and then to its last version |
| `Subscriptions.PassIsComplete` | crates/catga-core/src/subscription.rs:282-309 | a second pass would deliver nothing and move no checkpoint |
| `Subscriptions.StoppedLeavesRest` | crates/catga-core/src/subscription.rs:384-411 | stopping after the first selected event leaves exactly the other deliveries |
| `Subscriptions.StoppedSameFinal` | crates/catga-core/src/subscription.rs:384-411 | and does not change where a full walk ends |
| `Subscriptions.SubscriptionRunner.DeliverPage` | crates/catga-core/src/subscription.rs:361-377 | a page delivers its selected events and checkpoints all |
| `Subscriptions.SubscriptionRunner.RunStream` | crates/catga-core/src/subscription.rs:334-382 | one stream delivers exactly its selected events after the checkpoint |
| `Subscriptions.SubscriptionRunner.RunOnce` | crates/catga-core/src/subscription.rs:282-309 | one pass delivers all pending events in order and ends every matching stream |
| `Subscriptions.SubscriptionRunner.RunNextInStream` | crates/catga-core/src/subscription.rs:413-463 | handles the first selected event of a stream, passing filtered ones, or finishes the stream |
| `Subscriptions.SubscriptionRunner.RunNext` | crates/catga-core/src/subscription.rs:384-411 | handles the first pending event of all, or reports that there is none |
| `Subscriptions.SubscriptionRunner.RunNextUntilIdle` | crates/catga-core/src/subscription.rs:384-463 | repeating `run_next` terminates with the same deliveries and checkpoints as one `run_once` |
| `SubscriptionDelivery.VisitKeepsSound` | crates/catga-core/src/subscription.rs:361-377 | a handler or checkpoint save that fails, before or after taking effect, keeps delivery sound |
| `SubscriptionDelivery.CallKeepsSound` | crates/catga-core/src/subscription.rs:334-463 | so does any call, wherever it stops |
| `SubscriptionDelivery.CallsDeliverInOrder` | crates/catga-core/src/subscription.rs:282-463 | over any number of calls stopping anywhere, no selected event is skipped or out of order, and only the one after the checkpoint is handled again |
| `SubscriptionDelivery.CleanCallDeliversAll` | crates/catga-core/src/subscription.rs:334-382 | a call without a failure handles exactly the selected events after the checkpoint, once each and in order, and checkpoints the last event |
| `SubscriptionDelivery.FailureEndsCall` | crates/catga-core/src/subscription.rs:361-377 | a failing handler or save ends the call at its event, with handling and checkpoint as far as they took effect |
| `SubscriptionDelivery.FinishedMeansAllHandled` | crates/catga-core/src/subscription.rs:334-382 | a checkpoint at the end means every selected event was handled |
| `SubscriptionDelivery.DeliveryRunner.RunStream` | crates/catga-core/src/subscription.rs:334-382 | the page loop with any handler and save outcomes is such a call, for any page boundaries |
| `SubscriptionDelivery.DeliveryRunner.RunNextInStream` | crates/catga-core/src/subscription.rs:413-463 | so is the single-event loop, which handles at most one event |
| `Projections.ProcessKeepsSound` | crates/catga-core/src/projection.rs:248-259 | an event that fails or succeeds at its apply or its save keeps the no-gap invariant |
| `Projections.CatchUpKeepsSound` | crates/catga-core/src/projection.rs:231-264 | so does any run, and a run that reports success has applied the whole stream |
| `Projections.SucceedsExactlyWhen` | crates/catga-core/src/projection.rs:231-264 | a run reports success exactly when the stream does not hold the largest version and every remaining event is applied and saved without a failure, and then has applied exactly the remaining versions in order |
| `Projections.RunStartsAfterCheckpoint` | crates/catga-core/src/projection.rs:231-247 | a run starts right after its checkpoint; one without a valid successor fails at once |
| `Projections.StopsAtFirstFailure` | crates/catga-core/src/projection.rs:231-264 | otherwise it stops at the first failure, with exactly the versions before it applied and saved, and the failing one as far as it took effect |
| `Projections.RunsLeaveNoGap` | crates/catga-core/src/projection.rs:201-264 | over any number of runs stopping anywhere: no gap, each application repeats the last or is its successor, and the last applied is the checkpoint or one after |
| `Projections.RestartsAreInvisible` | crates/catga-core/src/projection.rs:231-264 | if re-applying the last event changes nothing, the read model is that of one clean pass |
| `Projections.CatchUpProjectionRunner.Run` | crates/catga-core/src/projection.rs:201-222 | streams are caught up in order up to the first failure; the others are untouched |
| `Projections.CatchUpProjectionRunner.RunStream` | crates/catga-core/src/projection.rs:231-264 | the page loop is the catch-up of one stream, for any page boundaries |
| `Batching.NextKeepsState` | crates/catga-core/src/transport_batching.rs:157-264 | each step of senders and runner keeps the batching invariant |
| `Batching.RunKeepsState` | crates/catga-core/src/transport_batching.rs:157-264 | in every run: batches concatenate to a prefix of admission order, have 1..max envelopes and a reason to start, nothing is pending while one is active |
| `Batching.StartsExactlyWhenDue` | crates/catga-core/src/transport_batching.rs:161-170 | with none active, a batch starts exactly when it is full or its oldest envelope has waited the timeout |
| `Batching.OverdueLeftExactlyWhen` | crates/catga-core/src/transport_batching.rs:161-203 | a round leaves an envelope that has waited the documented maximum waiting if and only if it is still in the channel, which is not read while a batch is active |
| `Batching.OverdueStartsInTwoRounds` | crates/catga-core/src/transport_batching.rs:161-203 | once no batch is active, receiving it and one more round start it |
| `Batching.OverdueStartsAfterFlush` | crates/catga-core/src/transport_batching.rs:161-203 | when the active batch ends, two more rounds start the overdue envelope behind it |
| `Batching.WaitCanExceedTimeout` | crates/catga-core/src/transport_batching.rs:40-41 | for every option and every length of time, an envelope sent during a flush waits that long |
| `Batching.StoppedAccountsForAll` | crates/catga-core/src/transport_batching.rs:157-288 | once stopped, each admitted envelope was in exactly one answered batch or was turned away once, never both |
| `Batching.CancelStops` | crates/catga-core/src/transport_batching.rs:206-264 | cancellation stops the runner in as many steps as envelopes wait, turning channel and pending away in order, starting nothing more and answering every batch |
| `Batching.UnstartedBound` | crates/catga-core/src/transport_batching.rs:157-212 | at most max_queue_length + max_batch_size envelopes are ever unstarted |
| `Batching.QueueLimitExceededExactlyWhen` | crates/catga-core/src/transport_batching.rs:42-43 | the documented limit is exceeded exactly by a send that finds something pending, room in the channel and the limit used up |
| `Batching.UnstartedBoundIsReached` | crates/catga-core/src/transport_batching.rs:132-147 | the true bound is reached for every choice of options |
| `BatchRunners.NewRunner` | crates/catga-core/src/transport_batching.rs:59-84 | creation is refused exactly when a limit or the publish concurrency is zero |
| `BatchRunners.TransportBatchRunner.TrySend` | crates/catga-core/src/transport_batching.rs:132-147 | admission is refused exactly when the channel is full or the runner gone |
| `BatchRunners.TransportBatchRunner.TakeBatch` | crates/catga-core/src/transport_batching.rs:246-252 | takes the oldest envelopes, at most one batch, leaving the rest |
| `BatchRunners.TransportBatchRunner.LoopRound` | crates/catga-core/src/transport_batching.rs:161-203 | one round of the loop is one step of the model |
| `BatchRunners.TransportBatchRunner.RejectUnstarted` | crates/catga-core/src/transport_batching.rs:254-264 | the drains are model steps, with senders still sending |
| `BatchRunners.TransportBatchRunner.RunUntilCancelled` | crates/catga-core/src/transport_batching.rs:157-212 | the whole runner makes only model steps, keeps the invariant, and stops once cancelled |
| `Resilience.PushKeepsWindow` | crates/catga-core/src/resilience.rs:420-428 | the window stays the last outcomes since the clear and its cached failure count stays exact |
| `Resilience.OutcomeWindow.PushOutcome` | crates/catga-core/src/resilience.rs:420-428 | the push in place |
| `Resilience.OutcomeWindow.ClearAll` | crates/catga-core/src/resilience.rs:415-418 | the clear in place |
| `Resilience.NextKeepsTracked` | crates/catga-core/src/resilience.rs:299-377 | each permit or completion keeps the circuit invariant |
| `Resilience.CircuitInvariant` | crates/catga-core/src/resilience.rs:299-377 | over every run of atomic steps the count is exact and no half-open period grants a second probe |
| `Resilience.FreshIsClosed` | crates/catga-core/src/resilience.rs:285-297 | a new circuit is closed, remembers nothing and meets the invariant |
| `Resilience.AskDecides` | crates/catga-core/src/resilience.rs:299-332 | a circuit whose cooldown is over, or that is half-open with its probe free, becomes or stays half-open and grants its one probe; otherwise asking changes nothing |
| `Resilience.FinishDecides` | crates/catga-core/src/resilience.rs:334-377 | a probe opens the circuit again or closes it; any other call opens it exactly when it is a recoverable failure with which the recent outcomes reach the ratio, and otherwise leaves it; only a new opening takes over the clock |
| `Resilience.OpeningStartsCooldown` | crates/catga-core/src/resilience.rs:299-305 | however the circuit came to open, from that moment it refuses every call for exactly the reset timeout |
| `Resilience.OpenCircuitRefuses` | crates/catga-core/src/resilience.rs:299-305 | an open circuit refuses every call before its cooldown is over, unless a late probe closes it |
| `Resilience.ProbeDecides` | crates/catga-core/src/resilience.rs:299-377 | after the cooldown one probe is admitted and nobody else; its result closes the circuit with an empty window or starts a new cooldown |
| `Resilience.CircuitBreaker.PermitCall` | crates/catga-core/src/resilience.rs:299-332 | refuses exactly inside the cooldown or while a probe runs, admits a plain call exactly when closed, and a probe leaves the circuit half-open with its slot taken |
| `Resilience.CircuitBreaker.CompleteCall` | crates/catga-core/src/resilience.rs:334-377 | a probe opens or closes the circuit, closing empties the window, a permanent error of another call changes nothing, and an opening refuses every call for exactly the reset timeout from then on |
| `CircuitRaces.NextKeepsRace` | crates/catga-core/src/resilience.rs:299-384 | each single access of threads asking, opening and closing keeps readings and stored times consistent |
| `CircuitRaces.RunKeepsRace` | crates/catga-core/src/resilience.rs:299-384 | the same over every interleaving |
| `CircuitRaceRuns.PermitAloneIsAtomic` | crates/catga-core/src/resilience.rs:299-332 | a permit that nobody interrupts is the atomic one: same verdict, state, flag and opening time |
| `CircuitRaceRuns.OpenAloneIsAtomic` | crates/catga-core/src/resilience.rs:370-377 | so is an opening |
| `CircuitRaceRuns.CloseAloneIsAtomic` | crates/catga-core/src/resilience.rs:344-353 | and the closing after a probe |
| `CircuitRaces.EarlyProbeExactlyWhen` | crates/catga-core/src/resilience.rs:299-384 | a probe admitted before the cooldown is over was overtaken by the opening at the flag, or its period was entered on a reading from before the opening, or on a comparison with an older opening time; except in the last case, the reading behind it is too early if and only if one of the other two holds |
| `CircuitRaceRuns.ParkedCallerIsAdmitted` | crates/catga-core/src/resilience.rs:315-323 | a caller parked at the flag swap becomes a probe at the very time of the next opening |
| `CircuitRaceRuns.OldTestIsAccepted` | crates/catga-core/src/resilience.rs:303-312 | a test passed in an earlier opening enters the half-open period of the next one at once |
| `CircuitRaceRuns.UnstoredTimeLetsThrough` | crates/catga-core/src/resilience.rs:370-374 | for all clocks: while the first opening time is not stored, a caller is let through exactly if the circuit is older than the cooldown |
| `CircuitRaces.ProbesAreGrants` | crates/catga-core/src/resilience.rs:306-332 | the probes a run admits are decided by its accesses to the flag alone |
| `ProbeFlags.SecondGrantWhenContended` | crates/catga-core/src/resilience.rs:315-323 | a shared flag lets two callers through exactly when, once it has been free, a reset falls between two swaps |
| `CircuitRaces.SecondProbeExactlyWhen` | crates/catga-core/src/resilience.rs:299-377 | in any interleaving, one half-open period admits a second probe if and only if, once its flag has been free, a flag reset falls between two flag swaps of the period |
| `CircuitRaces.ResetsOfPeriod` | crates/catga-core/src/resilience.rs:306-376 | the resets inside a period are those of callers and openers that were already under way when it began, and those of probes that report success |
| `CircuitRaceRuns.OneProbeAlone` | crates/catga-core/src/resilience.rs:306-323 | a period whose entering caller is not overtaken admits one probe and turns the next caller down |
| `CircuitRaceRuns.TwoProbesArePossible` | crates/catga-core/src/resilience.rs:306-323 | a period with two probes: another caller swaps the flag before the entering caller resets it |
| `Retries.BackoffIsExact` | crates/catga-core/src/retry_jitter.rs:60-66 | the jittered wait before a retry is the exact share of its backoff, never more |
| `Retries.DelayIsWait` | crates/catga-core/src/retry_jitter.rs:60-66 | without jitter the wait is the backoff, a fixed one is the given delay, a full one the exact sampled share |
| `Retries.Attempts` | crates/catga-core/src/resilience.rs:232-269 | at most max_retries + 1 calls, all but the last timed out or failed recoverably; the answer is that of the last call, a timeout counting as recoverable and a cancellation as permanent; a recoverable one only when retries are used up; the k-th wait is the backoff, the fixed delay or the sampled share; cancellation is seen before an attempt or during a wait that is not zero |
| `EventVersions.RegisterLookup` | crates/catga-core/src/event_version.rs:58-85 | a registration changes the lookup of its own key only |
| `EventVersions.LookupIsMembership` | crates/catga-core/src/event_version.rs:98-110 | the step found for a key is the registered one, whatever its place |
| `EventVersions.ListsAreSorted` | crates/catga-core/src/event_version.rs:58-85 | the steps of a type stay in order of source version |
| `EventVersions.RegisterAllSucceedsWhen` | crates/catga-core/src/event_version.rs:58-85 | registrations succeed exactly for valid steps with different keys |
| `EventVersions.CurrentVersionIsHighest` | crates/catga-core/src/event_version.rs:88-95 | the current version of a type is its highest registered target, or 1 |
| `EventVersions.OrderDoesNotMatter` | crates/catga-core/src/event_version.rs:58-85 | conflict-free registrations in any order give the same upgrades and current versions |
| `EventVersions.LinkRaisesVersion` | crates/catga-core/src/event_version.rs:133-146 | every step strictly raises the schema version |
| `EventVersions.LinkMeaning` | crates/catga-core/src/event_version.rs:98-146 | a link is the latest exactly when no registered step accepts the envelope; otherwise it is what that step gives, or which error |
| `EventVersions.LatestIsFixpoint` | crates/catga-core/src/event_version.rs:98-125 | an upgraded envelope is a fixpoint: upgrading again is the identity |
| `EventVersions.ChainOkExactlyWhen` | crates/catga-core/src/event_version.rs:98-125 | a chain ends at the latest envelope it reaches, at the error of the link that breaks, or where its rounds are used up |
| `EventVersions.UpgradeSucceedsExactlyWhen` | crates/catga-core/src/event_version.rs:98-125 | an upgrade succeeds if and only if the latest schema is fewer than 100 good steps away; exactly 100 are refused |
| `EventVersions.HundredStepsAreRefused` | crates/catga-core/src/event_version.rs:98-125 | a hundred registrable steps that do lead to the latest schema are refused, and 99 of them are not |
| `EventVersions.ShortSchemasNeverTooLong` | crates/catga-core/src/event_version.rs:98-125 | steps that stay below 100 versions ahead never exceed the bound |
| `EventVersions.UpgradeEnvelope` | crates/catga-core/src/event_version.rs:98-125 | the bounded loop computes that chain |
| `EventVersions.ConcurrentRegistersAreSerial` | crates/catga-core/src/event_version.rs:58-85 | racing copy-and-swap registrations are registrations in swap order; none is lost |
| `EventVersions.RegisterAlone` | crates/catga-core/src/event_version.rs:58-85 | a registration that nobody interrupts succeeds exactly for a valid step whose key is free |
| `EventVersions.EventVersionRegistry.RegisterUpgrader` | crates/catga-core/src/event_version.rs:58-85 | success means registered with nothing lost; errors mean a blank type or a target version not above the source, or a taken key; a lost round means another registration won |
| `EventVersions.UpgradeAllMeaning` | crates/catga-core/src/upgrading_event_store.rs:122-126 | the mapped page succeeds exactly when every envelope can be upgraded, and fails with the error of the first that cannot |
| `EventVersions.ViewIsUpgradedPage` | crates/catga-core/src/upgrading_event_store.rs:39-53 | the read view keeps count, versions, timestamps and cursor and brings each envelope to its latest schema; its shortcuts are invisible |

## Left out

- HTTP, TLS, Axum layers, macros, clients, telemetry, mediator and pipeline plumbing: no algorithm to prove.
- SQL schemas, migrations, pools, driver errors and payload codecs: rows are values, statements atomic steps.
- The other SQL dialects, DSL progress and state-machine stores: the same steps again.
- Hash collision branches: identities are compared directly, as the code does after a hash match.
- Runs that delete a continuation and create it again: the model has them, but the serial-replay results exclude that identity, and `RecreationBreaksReplay` shows why.
- Revision and millisecond overflow of stored columns, and `SystemTime` range errors, except the receipt lease, the wait deadline and business versions, which are modelled.
- Version, wait, claim-limit and page-size validation that only rejects an argument before any work.
- Batch creation of flow rows, page listings and statistics: easy members.
- Streams created while a subscription or projection run is walking: names are pages of one fixed list.
- Subscription leases and the `run_until_cancelled` wrappers of subscriptions.
- Projection `rebuild`, `comparison_history`, `compare_versions`, snapshot clean-up and the time-based snapshot strategies.
- Registrations made while one page is being upgraded: a page is read under one set of rules.
- Transport failures: a started batch is answered, the content of the answer and the effect of publish concurrency are not modelled.
- A future dropped in the middle of `execute`, and the admission semaphore of the resilience executor.
- Resilience.CircuitInvariant: takes `permit` and `complete` as atomic; `CircuitRaceRuns.PermitAloneIsAtomic` and its companions show that they are when nobody interrupts them, and `CircuitRaces` what single accesses allow otherwise.
- Resilience.NextKeepsTracked: the same atomic steps.
- Resilience.OpenCircuitRefuses: the same atomic steps; `CircuitRaces.EarlyProbeExactlyWhen` says what single accesses allow.
- Resilience.ProbeDecides: the same atomic steps.
- Resilience.FinishDecides: the same atomic steps.
- Resilience.OpeningStartsCooldown: the same atomic steps.
- Resilience.CircuitBreaker.PermitCall: one atomic step instead of a loop of accesses.
- Resilience.CircuitBreaker.CompleteCall: one atomic step instead of several accesses.
- CircuitRaces.EarlyProbeExactlyWhen: in its third cause the reading may be early or not, depending on how long the opener took to store the time; the outcome window, which decides when `open` is called, is left out, so any thread may call it at any time.
- SnowflakeFill.SnowflakeIdGenerator.ReserveAt: the spin loop is cut off after `spins` rounds, so termination under endless contention is not claimed.
- SnowflakeFill.SnowflakeIdGenerator.Fill: runs against a finite list of clock readings.
- SnowflakeFill.SnowflakeIdGenerator.NextId: runs against a finite list of clock readings.
- RetryJitters.RetryJitterState.NextSample: the swap loop is cut off after `tries` rounds.
- EventVersions.EventVersionRegistry.RegisterUpgrader: the swap loop is cut off after `tries` rounds.
- BatchRunners.TransportBatchRunner.RunUntilCancelled: runs against a finite script of rounds and late sends.
- ContinuationTables.ContinuationTable.PollPage: the single statement is written as a loop over its page.
- Subscriptions.SubscriptionRunner.DeliverPage: a handler is taken to succeed; the same loops with failing handlers and saves are `SubscriptionDelivery.DeliveryRunner`.
- Subscriptions.SubscriptionRunner.RunStream: a handler is taken to succeed, as above.
- Subscriptions.SubscriptionRunner.RunOnce: a handler is taken to succeed, as above.
- Subscriptions.SubscriptionRunner.RunNextInStream: a handler is taken to succeed, as above.
- Subscriptions.SubscriptionRunner.RunNext: a handler is taken to succeed, as above.
- Projections.CatchUpProjectionRunner.Run: the counts it returns are not modelled.
- Schedules.ScheduleTable.ClaimDueByLoop: that it takes the first due rows is stated at clocks where the due test compares times exactly; `DueTestIsExactWhen` says which those are, and that the code's test is not exact at the others.
- Schedules.ScheduleTable.ClaimDueByStatement: the same clocks.
- Schedules.ScheduleTable.ScheduleResume: schedule ids are numbers in the order the database gives them, and are taken to be fresh.
