# Verified model of the proxy, queue and sweep core

A Dafny model of the parts of the census service that keep state across
concurrent actors, with proofs of what they promise over every run.

- `Scheduling`, `ProxyRows`, `ProxyStore`, `ScanRuns`, `ScanSchedule`, `LockRuns`,
  `ScanAnswers`: the proxy table that
  scanners lease and consumers lock.  Every statement is one atomic step
  (`Next`); the class `Store` carries the rows in memory and each of its methods is
  proved to take exactly its step.  The last four prove the theorems about whole runs,
  in which every lease and every captured record may be used or replayed at any
  later time, and each update is computed from such a captured copy.
- `Guard`: the endpoint guard and what two of its snapshots prove about the time
  between them.
- `Hub`: handing a proxy to a worker, with other actors changing the table during
  the check and between the store calls, and with store calls that fail.
- `Admission`, `Custody`, `Dispatcher`: reservations by largest remainder, the smooth
  weighted round robin, the accounting of slots and leases, and the admission pass.
- `RetryQueue`: main, failed and dead queues, deliveries in consumers' hands, lost
  connections, publishes that are refused or accepted without a confirmation.
- `IdSweep`, `GapFill`, `GapRuns`: 32-bit chunking, the probe loop, the two cursors with
  concurrent publishers, and the scan for missing ids.
- `StatsCache`: the single-flight cache of the analytics snapshot.

`dafny verify dfyconfig.toml` checks the project.

Instants and durations are integers in one unit per module (nanoseconds for the proxy
policy, milliseconds for the retry queue).  The interplay of goroutines, processes and
the database is an interleaving of atomic steps under a clock that never runs back.
Fields of `Copy` that no header carries (`since`, `fails`, `hops`) are history that the
theorems speak about and no step reads.

Where the code and its documentation differ, the model follows the code:

- `docs/proxy.md` puts every unhealthy row that "completed at least once" into the
  recovery queue; the claim demands a success within the recovery horizon.
- `docs/queue.md` parks a failed delivery at `attempts >= max_attempts`; the worker
  compares after adding one to the header.
- At `locked_at == now - ttl` the SQL does not hand out the row and the in-memory
  repository does; the model follows the SQL.
- The comment on the admission state speaks of reservations; `borrow` may lend a slot
  reserved for a queue that is empty now.
- The comment on `claimDue` says that a failed claim aborts the pass
  (`domain/proxy/worker/scan.go:407-408`); `admit` calls `borrow` after
  `fillReservations` whatever happened there, so a failed reservation claim ends the
  reservations and not the pass.
- The bound of 64 on the recovery step holds because durations have 64 bits; `Policy.Valid`
  states that range.

Properties that do not hold as a first reading suggests, with their exact condition:

- Every lease is handed back exactly once if and only if no row is leased to a worker
  that still owns an earlier lease of it (`Custody.HandedBackExactlyOnce`, with
  `Custody.SecondLeaseLosesFirst` as the failing case).
- Equal guard generations mean no fall in between exactly up to a multiple of 2^64 falls
  (`Guard.EqualGenerations`).
- An admission pass does not always serve waiting reservations first: after a failed
  reservation claim lending may overtake it (`Dispatcher.ReservationCanBeOvertaken`).
  The pass keeps to the priorities up to its first failed claim, and altogether when no
  reservation claim failed (`Dispatcher.PrioritizedUpToFailure`,
  `Dispatcher.UnfailedPassIsPrioritized`); a claim follows a failed one exactly if that
  was a reservation claim (`Dispatcher.FailureBeforeLast`), and it is in turn exactly if
  the rotation comes to the same queue and that queue asks for one row
  (`Dispatcher.ClaimAfterFailedReservation`).
- A failure written without the fence stays on the ladder exactly if the stale and the
  current failure count clamp to the same next step (`ScanRuns.UnfencedFailureOnLadder`).
- The cached analytics snapshot can be replaced by an older one
  (`StatsCache.ReloadMayOverwriteNewer`), exactly when a load or refresh delivers one
  (`StatsCache.GenerationFallsExactlyWhen`).

## Model

| member | source | states |
|---|---|---|
| `Scheduling.RecoveryDelay` | domain/proxy/scheduling.go:14-26 | the doubling loop, with its overflow guard, computes min(base·2^step, cap) for every step, negative ones included, and never leaves (0, cap] |
| `Scheduling.RecoveryStepBound` | domain/proxy/scheduling.go:123-129 | the loop finds one past the first step whose delay is already the cap |
| `Scheduling.FirstSaturated` | domain/proxy/scheduling.go:123-129 | the search stops at the first saturated step or at 64, and every step before it is below the cap |
| `Scheduling.StepBoundSaturates` | domain/proxy/scheduling.go:119-129 | for 64-bit durations the bound is between 2 and 64 and its predecessor already yields the cap |
| `Scheduling.ClampKeepsDelay` | domain/proxy/scheduling.go:119-122 | clamping the stored step to the bound never changes a delay, for any number of failures |
| `Scheduling.ClassifyCheck` | domain/proxy/scheduling.go:36-52 | a check counts as failure if and only if it is uncancelled, typed as proxy or deadline failure, and both snapshots are healthy in one generation |
| `Scheduling.FailureUpdateAdvances` | domain/proxy/scheduling.go:103-117 | from the clamp of n failures the update moves to the clamp of n+1 and waits min(base·2^n, cap) |
| `Scheduling.MakeConsumerFailureUpdate` | domain/proxy/scheduling.go:103-117 | computes the failure update with both loops |
| `Scheduling.MakeScanUpdate` | domain/proxy/scheduling.go:62-96 | success, failure and inconclusive branches, the latter with the longer of the retry floor and a Retry-After hint |
| `ProxyStore.SelectionIsUnique` | infrastructure/postgres/repository/proxy_scan.go:34-60 | due rows, claim order and limit determine the answer of a claim completely |
| `ProxyStore.Store.Candidates` | mock/repository/proxy.go:361-417 | collects exactly the due rows of a queue, sorted by deadline (none first) and id |
| `ProxyStore.Store.ClaimScans` | infrastructure/postgres/repository/proxy_scan.go:68-163 | leases the first `limit` due rows in claim order under one fresh token with their versions captured; a limit below one is an error |
| `ProxyStore.Store.CompleteScan` | infrastructure/postgres/repository/proxy_scan.go:178-293 | accepted if and only if token, captured version, current version and expiry agree; a rejected completion changes nothing |
| `ProxyStore.Store.ReleaseScan` | infrastructure/postgres/repository/proxy_scan.go:297-313 | clears the lease only under its own token and version |
| `ProxyStore.Store.ClaimProxy` | infrastructure/postgres/repository/proxy.go:259-302 | locks an available row that no other available row is preferred to, or reports that there is none |
| `ProxyStore.Store.RefreshConsumerLock` | infrastructure/postgres/repository/proxy_scan.go:319-342 | renews the lock exactly for a valid owned lock on a fresh row out of its cooldown and returns the current row |
| `ProxyStore.Store.RecordConsumerFailure` | infrastructure/postgres/repository/proxy_scan.go:351-416 | accepted under owner, valid lock and version; a stale caller only loses its own valid lock |
| `ProxyStore.Store.CooldownDestination` | infrastructure/postgres/repository/proxy_scan.go:424-442 | raises the cooldown, never lowers it, and frees the owner's lock |
| `ProxyStore.Store.ReleaseProxy` | infrastructure/postgres/repository/proxy.go:304-318 | frees the lock only for its owner |
| `ProxyStore.Store.InsertIfAbsent` | mock/repository/proxy.go:130-154 | inserts a row as discovered now, without observation, lease or lock, under a new id if and only if no row has its protocol, address and port |
| `ScanRuns.RowStep` | mock/repository/proxy.go:476-615 | evidence changes exactly in accepted conclusive steps, which raise the version by one and clear the lease |
| `ScanRuns.UpdateIsCurrent` | infrastructure/postgres/repository/proxy_scan.go:168-171 | an update that passes the fence equals the one computed from the row itself, although it was built from a captured copy |
| `ScanRuns.StepKeepsInv` | infrastructure/postgres/repository/proxy_scan.go:62-416 | every action of every actor keeps the table invariant and only moves the system forward |
| `ScanRuns.RunKeepsInv` | infrastructure/postgres/repository/proxy_scan.go:62-416 | the invariant holds in every state of every run |
| `ScanRuns.LadderInvariant` | domain/proxy/scheduling.go:98-129 | in every run the failure count is the number of accepted failures since the last accepted success, the step is its clamp and at most 64, and a healthy row has none, is active and verified |
| `ScanRuns.LadderSchedule` | infrastructure/postgres/repository/proxy_scan.go:376-415 | the n-th consecutive accepted failure, by scanner or consumer, sets the next attempt to its time plus min(base·2^(n-1), cap) and the repeat floor separately |
| `ScanRuns.UnfencedFailureOnLadder` | infrastructure/postgres/repository/proxy_scan.go:165-171 | written without the fence, the failure of any stale copy keeps the row on the ladder if and only if both failure counts clamp to the same next step |
| `ScanRuns.UnfencedFailureBreaksLadder` | infrastructure/postgres/repository/proxy_scan.go:165-171 | below the bound every stale copy with another failure count would break the ladder |
| `ScanRuns.VersionDeterminesEvidence` | mock/repository/proxy.go:476-641 | versions and destination cooldowns never fall, and equal versions mean equal evidence |
| `ScanRuns.VersionCountsObservations` | mock/repository/proxy.go:476-615 | a step raises the version of a row by one if it is an accepted conclusive observation of it and by nothing otherwise |
| `ScanRuns.RunMovesForward` | mock/repository/proxy.go:355-641 | clock, tokens, versions and history only grow along a run |
| `ScanRuns.DeadTokenStaysDead` | infrastructure/postgres/repository/proxy_scan.go:24-32 | a token that a row lost is never carried by it again |
| `ScanRuns.TokenCarriedBetween` | infrastructure/postgres/repository/proxy_scan.go:165-171 | a row that carries a token has carried it, unchanged in version and evidence, ever since the claim |
| `ScanRuns.AcceptedCompletionIsExclusive` | infrastructure/postgres/repository/proxy_scan.go:173-293 | an accepted completion means that since its claim no other conclusive observation was accepted, nobody claimed the row again and the lease had not expired |
| `ScanRuns.AcceptedAtMostOnce` | infrastructure/postgres/repository/proxy_scan.go:173-293 | a lease is accepted at most once in any run and a second completion changes nothing |
| `ScanRuns.SpentLeaseIsInert` | infrastructure/postgres/repository/proxy_scan.go:178-313 | a lease that its row no longer carries can neither complete nor release anything, ever |
| `ScanRuns.ConsumerFailureFencesLeases` | infrastructure/postgres/repository/proxy_scan.go:344-416 | once a consumer failure is accepted every earlier lease of the row is inert |
| `ScanRuns.StaleReleaseIsInert` | infrastructure/postgres/repository/proxy_scan.go:295-313 | a stale release never clears a newer lease |
| `ScanRuns.LeaseIsExclusive` | infrastructure/postgres/repository/proxy_scan.go:34-60 | a row whose lease is still there is leased again only after the lease ran out |
| `ScanRuns.EndpointsAreUnique` | infrastructure/postgres/repository/proxy.go:133-164 | in every run no two rows stand for the same protocol, address and port |
| `ScanSchedule.NeverRescannedEarly` | infrastructure/postgres/repository/proxy_scan.go:34-38 | in every run no queue leases a row within the minimum repeat interval after any accepted attempt on it, by scanner or consumer |
| `ScanSchedule.SuccessSchedule` | infrastructure/postgres/repository/proxy_scan.go:178-293 | a success ends the ladder, stamps verification and latency and schedules verification interval and repeat floor, each in its own column |
| `ScanSchedule.InconclusiveOnlyReschedules` | domain/proxy/scheduling.go:84-93 | an inconclusive attempt changes no evidence and waits exactly the longer of the retry floor and the Retry-After hint |
| `ScanSchedule.DeadExactlyAtThreshold` | infrastructure/postgres/repository/proxy_scan.go:444-460 | a failing row is dead if and only if its consecutive accepted failures reach the threshold or its last success or discovery is too old |
| `ScanSchedule.HealthyWasVerified` | mock/repository/proxy.go:476-615 | behind every healthy row stands an accepted success at the instant the row names, and no accepted failure since |
| `ScanSchedule.HandedOutWasVerified` | infrastructure/postgres/repository/proxy.go:255-302 | a proxy that a consumer gets or keeps passed a scan within the freshness interval and has no accepted failure since |
| `LockRuns.LastLock` | infrastructure/postgres/repository/proxy_scan.go:315-342 | until its lock is given up a row shows the owner and the instant of the last claim or refresh |
| `LockRuns.LockIsExclusive` | infrastructure/postgres/repository/proxy.go:255-302 | a locked row is claimed again only after a release, a cooldown or a stale failure of its owner, or when the last claim or refresh is longer ago than the lock lifetime |
| `LockRuns.TakeoverNeedsExpiry` | infrastructure/postgres/repository/proxy.go:271-275 | a lock passes from one owner to another only by a claim that finds it expired |
| `ScanAnswers.CompletionTakesEffectExactlyWhen` | infrastructure/postgres/repository/proxy_scan.go:165-293 | a completion takes effect if and only if its row still carries the lease and the lease duration has not passed since the claim; then it ends the lease, stamps the attempt and by its outcome verifies, fails or leaves the row, otherwise nothing changes |
| `ScanAnswers.ReleaseTakesEffectExactlyWhen` | infrastructure/postgres/repository/proxy_scan.go:295-313 | a release ends the lease if and only if the row still carries it, expired or not, and touches nothing else |
| `ScanAnswers.ClaimAfterFailure` | infrastructure/postgres/repository/proxy_scan.go:34-60 | after the n-th consecutive failure a claim with capacity left takes the row if and only if it is not leased, the repeat floor has passed, the queue is not verification, and for recovery min(base·2^(n-1), cap) has passed and the last success is within the horizon |
| `ScanAnswers.ClaimAfterSuccess` | infrastructure/postgres/repository/proxy_scan.go:34-60 | after a success a claim with capacity left takes the row if and only if it is a verification claim, the row is not leased, and verification interval and repeat floor have passed |
| `ScanAnswers.ClaimAfterInconclusive` | infrastructure/postgres/repository/proxy_scan.go:34-60 | after an inconclusive attempt every queue waits for the longer of retry floor and hint, and health decides which queue takes the row, in both directions |
| `ScanAnswers.ClaimOfNewRow` | infrastructure/postgres/repository/proxy_scan.go:34-60 | a row never attempted is claimed by the background queue alone, at once |
| `ScanAnswers.EveryRowIsCovered` | infrastructure/postgres/repository/proxy_scan.go:34-60 | a row that was attempted has a last attempt, and it failed, succeeded or settled nothing |
| `ScanAnswers.ClaimsHonourSchedule` | infrastructure/postgres/repository/proxy_scan.go:68-144 | every claim in every run waits for the ladder, the verification interval or the retry wait, and takes failed rows never for verification and verified ones for nothing else |
| `ScanAnswers.RecoveryNeedsRecentSuccess` | infrastructure/postgres/repository/proxy_scan.go:46-54 | a recovery claim takes only rows whose last accepted success is less than the horizon ago |
| `ScanAnswers.OldestFirst` | infrastructure/postgres/repository/proxy_scan.go:146-163 | a claimed row is due no later than any due row claimed after it or left out: by deadline, in the background queue by last completed attempt, among equals by id |
| `ScanAnswers.LastVerifiedIsLastSuccess` | infrastructure/postgres/repository/proxy_scan.go:206-230 | the verification stamp of a row is the instant of its last accepted success |
| `ScanAnswers.VerifiedStaysHealthy` | infrastructure/postgres/repository/proxy_scan.go:178-293 | a row that was verified and has not failed since is healthy |
| `ScanAnswers.ClaimFindsProxy` | infrastructure/postgres/repository/proxy.go:259-302 | a consumer claim finds a proxy if and only if one is verified within the freshness interval, of a supported protocol, unlocked or expired, and cooled down |
| `ScanAnswers.BestProxyFirst` | infrastructure/postgres/repository/proxy.go:276-277 | the claimed proxy has the highest known uptime, then the lowest known latency, then the fewest failures |
| `ScanAnswers.RefreshTakesEffectExactlyWhen` | infrastructure/postgres/repository/proxy_scan.go:319-342 | a refresh succeeds if and only if the owner locked the row less than the lifetime ago, the row is fresh and its cooldown over; otherwise it changes nothing |
| `ScanAnswers.FailureTakesEffectExactlyWhen` | infrastructure/postgres/repository/proxy_scan.go:351-416 | a consumer failure counts if and only if the lock is alive and the version is the captured one; with another version it costs the lock, without a live lock it is nothing |
| `Guard.EndpointGuard.Control` | infrastructure/proxy/guard.go:74-94 | health follows the control, the generation counts falls from healthy and wraps at 64 bits |
| `Guard.GenerationCountsDrops` | infrastructure/proxy/guard.go:74-94 | over any run of controls the generation is the number of falls modulo 2^64 |
| `Guard.EqualGenerations` | infrastructure/proxy/guard.go:74-94 | generations are equal if and only if the falls in between are a multiple of 2^64 |
| `Guard.StableMeansNoFailedControl` | domain/proxy/scheduling.go:47-48 | two snapshots are stable if and only if the first is healthy and no control failed in between |
| `Guard.FailureAttributionIsSound` | domain/proxy/worker/scan.go:444-479 | an attempt is submitted as a failure if and only if it neither panicked nor was cancelled, the check blames the proxy and the guard was healthy from the start snapshot through the recheck before persisting |
| `Hub.HandoutAccounting` | domain/proxy/hub.go:42-114 | whatever others do meanwhile: a returned proxy is locked by the owner as it stands in the table, a refused one is not, and no other row becomes locked, also under failing store calls |
| `Hub.HoldsExactlyWhatItGot` | domain/proxy/hub.go:42-114 | an owner that starts without a lock ends with exactly the lock of the proxy it was handed, or none |
| `Hub.HandedIsFit` | domain/proxy/hub.go:56-72 | a checked proxy is fresh, out of its cooldown and locked as of now, and was held by its owner at every instant since the claim |
| `Hub.OnlyProxyDeathIsRecorded` | domain/proxy/hub.go:56-105 | the hub changes evidence if and only if the check blamed the proxy, the lock is still valid and nothing was observed since the claim; destination answers never renew freshness |
| `Hub.BlamedProxyIsRecorded` | domain/proxy/hub.go:80-90 | the row ends unhealthy with one failure and one version more, unlocked and handed to nobody, if and only if the check blamed the proxy and at its end the lock was alive and the version unchanged |
| `Hub.PassedCheckReturnsRow` | domain/proxy/hub.go:56-72 | a row is returned if and only if the check passed and at its end the row is owned, unexpired, fresh and out of its cooldown |
| `Hub.RejectedCheckCoolsDown` | domain/proxy/hub.go:91-98 | a rejection returns nothing, frees the owner's lock and raises the cooldown exactly to the latest of floor, hint and earlier cooldown |
| `Hub.OtherwiseNothingHappens` | domain/proxy/hub.go:75-79 | any other failure of the check only gives the lock back; without a checker the claimed row is returned |
| `Hub.RejectionCoolsDown` | domain/proxy/hub.go:91-98 | after a destination rejection the row is available again if and only if it is fresh and the floor, the Retry-After hint and any earlier cooldown have passed |
| `Hub.ProxyHub.NewProxy` | domain/proxy/hub.go:42-105 | claims, checks, revalidates or rejects as the handout relation says; returns a row exactly if the check passed and the row is still fit, records a blamed proxy exactly if the claim still holds, and leaves the owner holding exactly what it returns |
| `Hub.ProxyHub.Answer` | domain/proxy/hub.go:56-105 | the five reactions to the check with their store calls, errors included |
| `Hub.Proxy.CanUse` | domain/proxy/proxy.go:64-74 | success means the captured record is the current row, fresh and relocked; otherwise nothing changes |
| `Hub.Proxy.MarkFailed` | domain/proxy/proxy.go:81-83 | records the failure computed from the captured record, under its version |
| `Hub.Proxy.Release` | domain/proxy/proxy.go:93-100 | frees the lock and the captured record, unless the store fails |
| `Admission.ReservationTargets` | domain/proxy/worker/admission.go:19-43 | targets sum to the concurrency, each is one plus floor or ceiling of its share, and the leftovers go to the largest remainders, lowest index first |
| `Admission.LeftoverIsRemainders` | domain/proxy/worker/admission.go:27-35 | at most two slots are left over and they are the sum of the remainders |
| `Admission.NextWinner` | domain/proxy/worker/admission.go:32-41 | no queue wins twice and a winner outranks every queue that has not won |
| `Admission.ApportionmentIsUnique` | domain/proxy/worker/admission.go:19-43 | only one assignment meets that description |
| `Admission.ReservationIsFair` | domain/proxy/worker/admission.go:19-43 | every queue gets at least one slot and less than one slot off its exact share |
| `Admission.LeftoversGoToLargest` | domain/proxy/worker/admission.go:32-41 | a queue with a leftover slot has the larger remainder, or an equal one and the lower index, than any queue without |
| `Admission.RoundRobin.ChooseSmall` | domain/proxy/worker/admission.go:61-79 | picks the available queue with the most credit, lowest index among equals, and settles the credits |
| `Admission.CallInNumbers` | domain/proxy/worker/admission.go:61-79 | one call goes to the available queue with the highest credit plus weight, the first of equals; available queues earn their weight, others lose their credit, the winner pays the available weights |
| `Admission.CreditsStayInside` | domain/proxy/worker/admission.go:45-79 | with all queues available credits sum to zero and stay strictly inside (-W, W) after any number of calls |
| `Admission.CreditsAreBooks` | domain/proxy/worker/admission.go:61-79 | credits are weight earned per call minus W per pick, over any stretch of calls |
| `Admission.SharesWithinOne` | domain/proxy/worker/admission.go:45-79 | after n calls every queue's picks are within one of n·w_i/W |
| `Admission.FullCycleReturnsToZero` | domain/proxy/worker/admission.go:61-79 | W calls bring the credits back to zero |
| `Admission.CreditsArePeriodic` | domain/proxy/worker/admission.go:61-79 | credits repeat with period W |
| `Admission.EveryWindowIsExact` | domain/proxy/worker/admission.go:61-79 | any W consecutive calls pick queue i exactly w_i times |
| `Admission.OneCallKeepsBounds` | domain/proxy/worker/admission.go:61-79 | whatever is available, one call keeps the bounds on every sum of credits |
| `Admission.CreditsStayBounded` | domain/proxy/worker/admission.go:61-79 | the bounds hold after any history of availability |
| `Admission.PassedOverEarns` | domain/proxy/worker/admission.go:61-79 | a queue that is available but passed over earns its weight on each call |
| `Admission.NeverStarves` | domain/proxy/worker/admission.go:61-79 | a queue available on each of n calls is picked by one of them once 2·n·w_i > 7·W, whatever the others do |
| `Custody.CapacityIsConserved` | domain/proxy/worker/scan.go:133-143 | free plus in flight is the concurrency, all terms are non-negative and neither channel exceeds its buffer |
| `Custody.EveryShiftBalances` | domain/proxy/worker/scan.go:409-458 | slots and leases balance in every state of every shift |
| `Custody.TakeKeepsCustody` | domain/proxy/worker/scan.go:429-437 | a new lease keeps the owned map complete if and only if its row is not owned already |
| `Custody.EveryShiftKeepsCustody` | domain/proxy/worker/scan.go:409-458 | without a double lease the owned map holds exactly the leases in flight throughout |
| `Custody.HandedBackExactlyOnce` | domain/proxy/worker/scan.go:444-561 | stopping at any moment hands back every lease exactly once if and only if no owned row is leased again |
| `Custody.SecondLeaseLosesFirst` | domain/proxy/worker/scan.go:436-436 | a second lease of an owned row makes the first one vanish |
| `Dispatcher.ScanDispatcher.Admit` | domain/proxy/worker/scan.go:336-346 | a pass makes its reservation claims and then lends, also after a failed reservation claim; it never claims past free capacity, keeps slots and leases balanced, and stops with a slot free only if all queues reported empty or a lending claim failed |
| `Dispatcher.ScanDispatcher.FillReservations` | domain/proxy/worker/scan.go:350-362 | claims the deficit of each queue below its reservation, in order, until a claim fails; without a failure every queue then has its reservation, has no more due rows, or nothing is free |
| `Dispatcher.ScanDispatcher.Borrow` | domain/proxy/worker/scan.go:368-401 | from any reservation claims, failed or not, lends row by row until nothing is free, all queues reported empty or a claim fails, and terminates; a large worker goes round after the last borrower and remembers it, a small one follows its round robin |
| `Dispatcher.ScanDispatcher.NextLender` | domain/proxy/worker/scan.go:384-400 | the next queue round after the last borrower that has not reported empty, the borrower itself last |
| `Dispatcher.RotationIsModulo` | domain/proxy/worker/scan.go:385-386 | the rotation is (borrower + 1 + step) mod 3 and goes once round |
| `Dispatcher.RotationGoesRound` | domain/proxy/worker/scan.go:384-400 | each lending claim of a large worker goes to the next queue round after the one served before, skipping those that reported empty |
| `Dispatcher.AskedWithinThree` | domain/proxy/worker/scan.go:384-400 | every queue that has not reported empty is asked within any three consecutive lending claims |
| `Dispatcher.ScanDispatcher.ClaimDue` | domain/proxy/worker/scan.go:409-440 | counts each claimed row against the free slots and takes it into custody; an error takes nothing |
| `Dispatcher.ScanDispatcher.Handle` | domain/proxy/worker/scan.go:444-458 | a result frees its slot and its lease leaves the dispatcher's hands |
| `Dispatcher.ScanDispatcher.ReleaseOutstanding` | domain/proxy/worker/scan.go:552-561 | hands back every lease still owned |
| `Dispatcher.ReplayKeepsBalance` | domain/proxy/worker/scan.go:336-440 | the claims of a pass, failed ones included, keep slots and leases balanced |
| `Dispatcher.UnfailedPassIsPrioritized` | domain/proxy/worker/scan.go:336-401 | when no reservation claim failed, every claim of the pass goes to the lowest queue waiting for its reservation and asks for its deficit, or no queue waits |
| `Dispatcher.FailedReservationGoesOn` | domain/proxy/worker/scan.go:343-345 | a failed reservation claim is the last of them, leaves a slot free and its queue open, so that at least one lending claim follows |
| `Dispatcher.FailureBeforeLast` | domain/proxy/worker/scan.go:343-359 | a failed claim is followed by another one if and only if it is a reservation claim |
| `Dispatcher.PrioritizedUpToFailure` | domain/proxy/worker/scan.go:336-401 | every pass keeps to the priorities up to and including its first failed claim |
| `Dispatcher.ClaimAfterFailedReservation` | domain/proxy/worker/scan.go:357-391 | the claim after a failed reservation claim of a queue is in turn if and only if the rotation comes to that queue and the queue asks for one row |
| `Dispatcher.ReservationCanBeOvertaken` | domain/proxy/worker/scan.go:343-391 | a pass of the dispatcher in which a failed reservation claim is overtaken by lending |
| `RetryQueue.BackoffIsLadder` | infrastructure/rabbitmq/queue.go:528-546 | the backoff is min(5·2^(max(n,1)-1), 3600) seconds for every n and never falls |
| `RetryQueue.NoMessageIsLost` | infrastructure/rabbitmq/queue.go:291-634 | in every state of every run a published message was handled successfully or still has a copy in a queue or in a consumer's hands |
| `RetryQueue.CopySurvives` | infrastructure/rabbitmq/queue.go:291-634 | no step, with any publish outcome or lost connection, removes the last copy of an unhandled message |
| `RetryQueue.DeadStaysDead` | infrastructure/rabbitmq/queue.go:440-455 | no copy ever leaves the dead queue |
| `RetryQueue.HopelessParks` | infrastructure/rabbitmq/queue.go:333-373 | poison, unroutable and exhausted deliveries go to the dead queue and never round the ladder again |
| `RetryQueue.ConfirmedRetry` | infrastructure/rabbitmq/queue.go:338-433 | a confirmed retry adds one copy to the main queue and none to the dead one if the event type is known and the next attempt is below max_attempts, and the other way round otherwise |
| `RetryQueue.RetryIsAllowedExactlyWhen` | infrastructure/rabbitmq/queue.go:375-400 | a retry below the limit waits for the not-before instant, one at the limit for nothing |
| `RetryQueue.ConfirmedFailure` | infrastructure/rabbitmq/queue.go:575-634 | a confirmed failure adds one copy to the dead queue if it is poison, else one to the failed queue that waits min(5·2^attempts, 3600) seconds |
| `RetryQueue.EveryRunKeepsLineage` | infrastructure/rabbitmq/queue.go:663-708 | the attempt header counts failures and republishes, in every copy of every run |
| `RetryQueue.RepublishesAreBounded` | infrastructure/rabbitmq/queue.go:360-373 | the failed-queue worker republishes a lineage fewer than max_attempts / 2 times |
| `RetryQueue.NeverTooEarly` | infrastructure/rabbitmq/queue.go:375-429 | nothing reaches the main queue from the failed one before its failure time plus the backoff of its attempts, and attempts never fall |
| `RetryQueue.Queue.PublishToFailed` | infrastructure/rabbitmq/queue.go:616-634 | not-before instant and expiry are set together, only for a positive backoff |
| `RetryQueue.Queue.HandleFailure` | infrastructure/rabbitmq/queue.go:575-611 | acknowledges only after a confirmed replacement and returns the delivery otherwise |
| `RetryQueue.Queue.Consume` | infrastructure/rabbitmq/queue.go:488-523 | one consumer turn is a success, a failure or, when stopping, a return step, and one that the protocol allows |
| `RetryQueue.Queue.Redeliver` | infrastructure/rabbitmq/queue.go:325-438 | parks at once, or waits for the not-before instant and republishes, or returns the delivery when stopped before or during the wait; each is a step the protocol allows, and the header's number alone decides between dead and main queue |
| `IdSweep.BuildIdSweepJobs` | cmd/cli/publish.go:50-71 | with wrapping 32-bit arithmetic the jobs cut the range into consecutive chunks of the asked size (100 for zero), the last possibly shorter |
| `IdSweep.ChunkEnd` | cmd/cli/publish.go:56-59 | a wrapped chunk end is recognised by falling below its start |
| `IdSweep.CutsInOrder` | cmd/cli/publish.go:50-71 | the jobs list every id of the range once and in order |
| `IdSweep.CutsCoverOnce` | cmd/cli/publish.go:50-71 | an id is in the range if and only if a job asks for it, and jobs are disjoint and ascending |
| `IdSweep.HandleIdSweep` | domain/census/handler/idsweep.go:41-102 | probes in order up to the first id that cannot be fetched or saved, or all of the range even at 2^32-1, and then chains exactly the saved ids in order; an inverted range is poison |
| `IdSweep.SweepProbesEveryIdOnce` | domain/census/handler/idsweep.go:57-82 | a fully successful sweep probes every id exactly once |
| `IdSweep.PublishAll` | cmd/cli/publish.go:82-90 | publishes in order and stops at the first failure |
| `IdSweep.Cursor.Advance` | infrastructure/postgres/repository/character.go:766-792 | moves only from the expected value, never backwards |
| `IdSweep.PublishAutoIdSweep` | cmd/cli/publish.go:97-130 | advances only after publishing the whole range; overflow, a failed publish or a conflict leave the cursor to others |
| `IdSweep.SweepStepKeepsInv` | cmd/cli/publish.go:97-130 | every step of every publisher keeps what the cursor promises |
| `IdSweep.CursorFollowsPublishing` | cmd/cli/publish.go:97-130 | with any number of concurrent and crashing publishers the cursor never moves back and every id below it has been published |
| `GapFill.FindIdGapsAfter` | infrastructure/postgres/repository/character.go:175-218 | returns the first `limit` maximal runs of missing ids above the cursor, ascending and disjoint, and misses none before the last |
| `GapFill.ScanStep` | infrastructure/postgres/repository/character.go:197-215 | one row of the query extends the scan by its gap, trimmed to the cursor |
| `GapFill.BuildGapSweepJobs` | cmd/cli/publish.go:73-80 | the jobs ask for exactly the ids of the gaps, in ascending disjoint ranges, each of the chunk size or ending its gap |
| `GapFill.CursorSkipsNothing` | cmd/cli/publish.go:174-202 | after publishing the first jobs, every missing id up to the last of them was published |
| `GapFill.GapCursor.Advance` | infrastructure/postgres/repository/character.go:247-270 | compare-and-set; a stale advance never rewinds |
| `GapFill.PublishGaps` | cmd/cli/publish.go:173-192 | only missing ids are published and, up to the last one published, all of them; no job means nothing is missing, fewer jobs than the count mean everything missing is published, and an early end is a failed publish |
| `GapFill.PublishFillGaps` | cmd/cli/publish.go:145-202 | if the run moves the cursor, every id missing at the scan between its old and new place was published, also after a partial publish; the report names the bad count, the empty scan, the cursor conflict, the failed publish or the full success |
| `GapRuns.StepKeepsInv` | cmd/cli/publish.go:145-202 | every step of every gap publisher, and every stored character, keeps what the cursor promises |
| `GapRuns.GapCursorFollowsPublishing` | cmd/cli/publish.go:145-202 | with any number of concurrent, failing and crashing publishers every id between the start of the lap and the cursor is stored or has been published |
| `GapRuns.CursorFallsOnlyByRewind` | infrastructure/postgres/repository/character.go:243-270 | the cursor falls only to zero, only from at or beyond the highest id seen, and the lap that ends there left nothing out |
| `GapRuns.PublishedWasMissing` | cmd/cli/publish.go:173-187 | every id ever published was missing at the scan of its publisher |
| `StatsCache.SingleFlight` | domain/census/ui_stats_service.go:65-152 | in every state of every run loads in flight equal the flag, the channel is there exactly while loading, no request waits for a channel that nothing will close, and the snapshot is validated |
| `StatsCache.ClosesOncePerLoad` | domain/census/ui_stats_service.go:137-152 | the end of a load closes one open channel, never a missing or closed one |
| `StatsCache.LoadsNeverOverlap` | domain/census/ui_stats_service.go:73-96 | between the starts of two loads the first one ended |
| `StatsCache.WarmStaysWarm` | domain/census/ui_stats_service.go:137-186 | a snapshot once cached stays, and its load instant never moves back |
| `StatsCache.WarmLoadsAreSpaced` | domain/census/ui_stats_service.go:73-78 | a load that starts while warm starts at least the cache lifetime after every earlier load, failed or not, and every refresh |
| `StatsCache.RequestStartsLoadExactlyWhen` | domain/census/ui_stats_service.go:71-96 | a request starts a load if and only if none is in flight and there is no snapshot or the cache lifetime has passed since the last load or refresh |
| `StatsCache.ReloadMayOverwriteNewer` | domain/census/ui_stats_service.go:137-186 | a run in which a slow load replaces a newer refreshed snapshot |
| `StatsCache.GenerationFallsExactlyWhen` | domain/census/ui_stats_service.go:137-186 | every validated snapshot that a load or refresh delivers is installed, and the generation instant falls if and only if it is older than the cached one |
| `StatsCache.UIStatsService.Current` | domain/census/ui_stats_service.go:65-96 | serves, waits, or starts the one load; a warm request never blocks |
| `StatsCache.UIStatsService.FinishReload` | domain/census/ui_stats_service.go:137-152 | a failed load keeps the snapshot and, when warm, renews its lifetime |

## Left out

- HTTP server, user interface, command-line wiring, container, metrics and logging: no property of their own.
- Lodestone scraping, proxy transports and provider lists: check and probe results enter as arbitrary typed outcomes.
- SQL text and row scanning: each statement is one atomic step; `SKIP LOCKED` is an arbitrary set of skipped rows.
- Scan tokens are a counter; the program draws 128 random bits, and that they never repeat is taken for granted.
- Columns that no decision reads (country, source, update time) and the unknown-queue error of a claim.
- Uptime is an integer or unknown, since only its order matters.
- The failed commit of a store call that did take effect: a failing call in `Hub` changes nothing.
- Custody.HandedBackExactlyOnce: a hand-back is the call of the store that completes or releases the lease; when that call fails the lease is left to expire, which the model does not tell apart.
- Contexts, timers, polling, the claim pause with its back-off (engaged by a failed claim, lifted by the next answered one) and the time limit of the drain: the pause is an input of a pass, and shutdown may follow any state of a shift.
- Broker topology, reconnecting and routing: a publish is confirmed, accepted without confirmation, or refused; a republish to the main exchange finds its queue bound.
- The attempt header as a 32-bit value: it is unbounded here.
- Liveness: neither that a restarted gap sweep wraps around nor that a message is eventually handled is claimed.
- `RetryQueue.NeverTooEarly`: speaks of arrival in the main queue; a consumer started directly on a failed queue would bypass the wait, in the program as in the model.
- Undecodable sweep payloads and a worker without a Lodestone client: both end in an error before the probe loop.
- Provider rate limits, world tables, export formats and configuration parsing: validated values are preconditions.
