# Credence backend: protocols and their properties

A Dafny model of the parts of the Credence backend whose correctness depends on interleavings, on whole runs or on
the meaning of a text, with proofs of what those parts promise.  `dafny verify dfyconfig.toml` checks all of it.

Each protocol is a file.  Code that updates fields in place is a class whose methods are proved against functions on
values; what happens over whole runs is proved about those functions, for every sequence of steps.  A step stands for
the code between two `await`s, so a run is any interleaving of any number of operations.  A step that is not possible
in a state leaves the state alone.

| file | what it models |
|---|---|
| `TwoLevelCache.dfy` | the L1 cache in front of Redis and its generation fence; the codec between values and Redis strings |
| `NamespaceGlob.dfy` | which keys a namespace clear covers, in Redis and in L1 |
| `NotificationClaims.dfy` | the claim table of notification jobs and the workers that race for a claim |
| `LeaseStore.dfy` | listener leases with expiry and fencing tokens |
| `FairQueue.dfy` | weighted fair queueing of bulk verification jobs, over exact reals |
| `AuditChain.dfy` | the batched verifier of the audit log's hash chain |
| `AuditFields.dfy` | the text that is hashed, and which rows it leaves open to alteration |
| `AuditWriters.dfy` | the two writers of the audit log, and the check of the in-memory one |
| `StableHash.dfy` | the canonical printer behind stale-read detection |
| `CircuitBreaker.dfy` | the circuit breaker of the Soroban client |
| `Transactions.dfy` | transactions with hooks and retries, and deferred cache invalidation |
| `KeyRotation.dfy` | evidence records with wrapped data keys, re-encryption passes and the wiping of retired keys |
| `BatchPayout.dfy` | batch payouts, alone and with processors interleaved |
| `ProbeCache.dfy` | the health-probe cache |

## What the properties come to

Some promises hold only under a condition.  The code is modelled as it is, the condition is proved to be exact, and a
lemma gives a run that breaks the promise without it.

- **L1 and Redis.** With no mutation of a key in flight, L1 never disagrees with Redis, in every interleaving, with
  errors and timed-out reads that finish late.  This needs values that survive the codec, and namespaces that have no glob
  character or whose pattern covers nothing, and exactly that: a stored string that itself parses as JSON comes back from
  Redis as something else, and `clearNamespace` on any other namespace deletes from Redis keys that L1 keeps.
- **Notification claims.** Workers exclude each other in every run exactly when their runs are bounded by the lease.  A
  completed row is final until it expires exactly when no worker is still at work on its attempt; `execute` leaves one
  there when the completing mark takes effect and its answer is lost, and then marks the same row failed.
- **Leases.** Tokens grow, stale tokens change nothing, and no one else acquires before expiry, exactly when the clock does
  not step back.  `release` checks the owner only, not the token or the expiry that the header of its file names (lines
  11-13), so a release left over from an owner's earlier session ends its present lease.
- **Audit chain.** The verifier returns exactly the first violations of a one-pass specification, whatever the batch
  size.  Fields are joined by `|` without escaping: a row can be altered unseen exactly when its actor, action, resource
  type or resource id has a bar, or when its text holds a time and a JSON text with its status in other places as well.
  What the in-memory writer writes its service finds valid.  The SQL writer hashes the time as SQL prints it and the
  verifier as ISO text, so every row that SQL has written is reported.
- **Circuit breaker.** One call per `halfOpenAfterMs` at most gets through while nothing succeeds.  One probe is out at a
  time exactly when calls answer within the delay.  A closed breaker opens exactly after a stretch of failures that reaches
  the threshold, and a success in HALF_OPEN makes that a whole stretch again.
- **Transactions.** One attempt commits at most.  Hooks follow what was committed exactly when the callback has not left
  the transaction aborted, by swallowing the error of a statement, and no connection is lost after a commit.
  `runPostCommit` outside a transaction runs the hook at once, where its comment says it throws; the model follows the
  code.
- **Key rotation.** The worker opens a record's blob with the retired key itself, but an uploaded blob is under a data key
  of its own that is wrapped with it.  So a pass fails on every uploaded record of its version, and a record that it could
  move would keep its wrapped key under the old version.  After a completed command a record is still read exactly when it
  did not need the command: when it was on the active version, or on one that is not registered.
- **Payouts.** One successful execution per hash exactly when the store reports pending and settled rows as
  duplicates, and one payment, whatever the executor does, exactly when it reports failed rows as well.  A failed payout
  can be retried exactly when its failure was written down and failed rows are let through; the settlements table lets
  none through.

## Model

| member | source | states |
|---|---|---|
| L1Cache.CacheService.InvalidateL1 | src/cache/redis.ts:485-488 | the key leaves L1 and the generation moves on; every other entry stays |
| L1Cache.CacheService.ClearL1Pattern | src/cache/redis.ts:287-298 | the generation moves on and exactly the keys with the pattern's prefix leave L1 |
| L1Cache.CacheService.GetReply | src/cache/redis.ts:165-186 | a reply fills L1 only if the generation is still the one taken; a missing key fills nothing |
| L1Cache.CacheService.SetBegin | src/cache/redis.ts:214-227 | a TTL that is not a positive safe integer is refused before anything changes; otherwise the key is fenced |
| L1Cache.CacheService.SetConfirm | src/cache/redis.ts:237-247 | the key is fenced again and holds the value only if no other fence was raised meanwhile |
| TwoLevelCache.StepKeeps | src/cache/redis.ts:146-335 | every step of every operation keeps the per-key invariant: coherence at rest, current replies and lone confirmed writes agree with Redis |
| TwoLevelCache.L1CoherentAtRest | src/cache/redis.ts:146-335 | after any run, an L1 entry of a key that no mutation is in flight for is what Redis holds for it |
| TwoLevelCache.HitIsCurrent | src/cache/redis.ts:146-163 | what a get answers from L1 at such a moment is what a read of Redis would give |
| TwoLevelCache.UnfaithfulValueBreaks | src/cache/redis.ts:172-178 | a set of a value the codec does not return leaves L1 and Redis in disagreement |
| TwoLevelCache.GlobNamespaceBreaks | src/cache/redis.ts:307-335 | a clear of a namespace with a glob character and a pattern that covers something leaves in L1 a key it has deleted from Redis |
| TwoLevelCache.CoherentIffSound | src/cache/redis.ts:146-391 | adding a mutation keeps every run coherent if and only if its value survives the codec and its namespace is glob-free or covers nothing |
| CacheContents.RedisHoldsLast | src/cache/redis.ts:208-335 | over every run Redis holds for a key what the last command that reached it left: a set its text, a delete, an expire that is due or a clear that listed it nothing |
| CacheContents.SetIsSeen | src/cache/redis.ts:208-255 | after a set that runs alone, Redis holds its text and L1 nothing but its value, until another mutation of the key starts |
| CacheContents.DeleteIsSeen | src/cache/redis.ts:264-280 | once a delete has reached Redis with no set of the key in flight, reads find nothing until the next set, and at rest neither does L1 |
| CacheContents.ClearIsSeen | src/cache/redis.ts:307-335 | a clear lists and deletes every key its pattern covers, but for keys that are set meanwhile |
| CacheContents.TimedOutNeverFills | src/cache/redis.ts:180-196 | a read that has timed out never fills L1, however late it finishes |
| CacheCodec.CodecFaithfulIff | src/cache/redis.ts:172-220 | a value survives being stored and read if and only if it is not a string that parses as JSON |
| CacheCodec.SetCoherentIff | src/cache/redis.ts:208-255 | a set keeps every run coherent if and only if its value is not such a string |
| NamespaceGlob.GlobFreeCoversPrefix | src/cache/redis.ts:287-318 | for a glob-free namespace the Redis pattern and the L1 scan both cover exactly the keys under `namespace:` |
| NamespaceGlob.EmptyClassMatchesNothing | src/cache/redis.ts:318 | a pattern with a class that no character is in matches no key |
| NamespaceGlob.SomeKeyDiffers | src/cache/redis.ts:291-318 | for any other namespace with a glob character some key matches the Redis pattern and not the L1 prefix |
| NamespaceGlob.SameCoverageIffGlobFree | src/cache/redis.ts:287-318 | both cover the same keys if and only if the namespace is glob-free |
| NamespaceGlob.FollowedIff | src/cache/redis.ts:287-318 | every key Redis covers leaves L1 too if and only if the namespace is glob-free or its pattern covers nothing |
| JobAttempts.Repository.ClaimAttempt | src/jobs/notificationIdempotency.ts:127-165 | a claim wins an absent, failed, expired or stale row under a new id and answers with it; otherwise the row stays and the answer is null; other keys are untouched |
| JobAttempts.Repository.FindAttempt | src/jobs/notificationIdempotency.ts:171-183 | the row, unless it has expired |
| JobAttempts.Repository.MarkCompleted | src/jobs/notificationIdempotency.ts:185-194 | only a row with the given attempt id is completed |
| JobAttempts.Repository.MarkFailed | src/jobs/notificationIdempotency.ts:200-209 | only a row with the given attempt id is failed |
| NotificationClaims.IdInvStep | src/jobs/notificationIdempotency.ts:127-165 | no two active workers ever hold the same attempt id |
| NotificationClaims.LeaseInvStep | src/jobs/notificationIdempotency.ts:127-286 | while runs are shorter than the lease, an active worker's claim is the row |
| NotificationClaims.MutualExclusion | src/jobs/notificationIdempotency.ts:127-286 | no two workers are inside `job.run()` or its mark at once, for any number of workers and any interleaving, retries included |
| NotificationClaims.LeaseIsTight | src/jobs/notificationIdempotency.ts:145-151 | runs that may last the whole lease can be joined by a second worker |
| NotificationClaims.ExclusionIff | src/jobs/notificationIdempotency.ts:127-286 | with runs shorter than a bound, workers exclude each other in every run if and only if the bound is within the lease |
| NotificationClaims.ZombieFenced | src/jobs/notificationIdempotency.ts:135-209 | after a reclaim, marks with an earlier attempt id change nothing, for ever |
| NotificationClaims.AnswersAreResults | src/jobs/notificationIdempotency.ts:240-270 | an `alreadyProcessed` answer carries what some run returned, from a completed and unexpired row |
| NotificationClaims.FinalIff | src/jobs/notificationIdempotency.ts:135-286 | in every reached state a completed row stands and starts no `job.run()` until it expires, whatever comes, if and only if no worker is still at work on its attempt |
| NotificationClaims.CompletedIsFinal | src/jobs/notificationIdempotency.ts:135-286 | so it is after every run in which no completing mark was applied with its answer lost |
| NotificationClaims.LostAnswerReopens | src/jobs/notificationIdempotency.ts:272-285 | a completion whose answer is lost is marked failed and run again before it expires |
| ClaimRetries.LosersNextStep | src/jobs/notificationIdempotency.ts:240-271 | a worker that lost its claim reports a completed row, throws at a pending one, and with neither claims once more, but only once |
| ClaimRetries.SecondClaimRuns | src/jobs/notificationIdempotency.ts:256-275 | whatever the others do meanwhile, the second claim runs if and only if there is by then no row or one that failed, expired or was pending for the claim timeout |
| ClaimRetries.SecondClaimWinsAtOnce | src/jobs/notificationIdempotency.ts:256-275 | with nothing in between it does run |
| ClaimRetries.FailureFreesRow | src/jobs/notificationIdempotency.ts:196-209 | a failed run that is written down keeps its error, and the next claim wins at once |
| LeaseStore.InMemoryLeaseStore.Acquire | scripts/horizon-failover-drill.store.ts:107-153 | a new stream, an expired lease or the owner's own is taken with the next token, keeping the cursor; any other is returned unchanged and not acquired; empty names throw |
| LeaseStore.InMemoryLeaseStore.Heartbeat | scripts/horizon-failover-drill.store.ts:182-206 | owner, token and expiry must all hold for the lease to be extended |
| LeaseStore.InMemoryLeaseStore.Cursor | scripts/horizon-failover-drill.store.ts:208-231 | owner, token and expiry must all hold for the cursor to move |
| LeaseStore.InMemoryLeaseStore.Release | scripts/horizon-failover-drill.store.ts:164-180 | the owner ends the lease at its last heartbeat |
| LeaseStore.InMemoryLeaseStore.ExpireLease | scripts/horizon-failover-drill.store.ts:255-262 | the lease is moved to just before now |
| LeaseStore.TokensCountWins | scripts/horizon-failover-drill.store.ts:118-152 | over every run, a stream's token is the number of its acquires won since the store was cleared, and its owner the last winner |
| LeaseHistory.RowIsHistory | scripts/horizon-failover-drill.store.ts:118-262 | over every run each field of a row is told by the statements accepted since the store was cleared: the cursor by the last cursor write, the expiry and heartbeat by the last win, heartbeat, release or forced expiry, the creation by the first win |
| LeaseHistory.WinnerResumesAtCursor | scripts/horizon-failover-drill.store.ts:118-152 | whoever wins a stream is given the paging token of the last accepted cursor write on it, or "0" if there was none |
| LeaseHistory.ReplyShowsRow | scripts/horizon-failover-drill.store.ts:148-152 | the reply to an acquire, won or lost, is the row as it then stands |
| LeaseStore.TokensStrictlyIncrease | scripts/horizon-failover-drill.store.ts:118-152 | each successful acquire on a stream returns a larger token than every one before it |
| LeaseStore.ClearRestartsTokens | scripts/horizon-failover-drill.store.ts:272-274 | clearing the store in between restarts the tokens |
| LeaseStore.WriteCarriesCount | scripts/horizon-failover-drill.store.ts:182-231 | an accepted heartbeat or cursor write comes from the last winner, with its token |
| LeaseStore.WriteTokensNondecreasing | scripts/horizon-failover-drill.store.ts:182-231 | accepted heartbeats and cursor writes carry nondecreasing tokens |
| LeaseStore.StaleWriteIsFenced | scripts/horizon-failover-drill.store.ts:182-231 | after a takeover, a heartbeat or cursor write with an older token changes nothing and reports no row |
| LeaseStore.LeaseExcludes | scripts/horizon-failover-drill.store.ts:134-206 | with a monotone clock, no other owner acquires before the expiry last granted, whatever else is done to this or other streams, unless the owner releases |
| LeaseStore.ExpiredLeaseIsTaken | scripts/horizon-failover-drill.store.ts:134-151 | the bound is exact: the next acquire by another wins if and only if the expiry has come |
| LeaseStore.OtherStreamsUntouched | scripts/horizon-failover-drill.store.ts:107-231 | a statement for one stream leaves the rows of all others alone |
| LeaseStore.ReleaseChecksOwnerOnly | scripts/horizon-failover-drill.store.ts:164-180 | over every run a release takes effect if and only if its owner is the last to have won the stream since the store was cleared |
| LeaseStore.ReleasedIsTaken | scripts/horizon-failover-drill.store.ts:134-180 | with a monotone clock, whoever acquires next then wins |
| LeaseStore.OldSessionReleaseDropsLease | scripts/horizon-failover-drill.store.ts:164-180 | a release from an owner's earlier session ends its present lease before it expires |
| LeaseStore.SkewedClockBreaksExclusion | scripts/horizon-failover-drill.store.ts:134-151 | with a clock that steps back, however little, a stream is won while an earlier lease has time left |
| LeaseStore.ExclusionIffMonotone | scripts/horizon-failover-drill.store.ts:134-206 | leases exclude other owners in every run if and only if the clock does not step back |
| StableSort.SortPositionsSorted | src/jobs/bulkVerificationScheduler.ts:55-78 | a comparator sort puts every position once, in order, ties in input order |
| FairQueue.ComputeOrgWeight | src/jobs/bulkVerificationScheduler.ts:26-31 | a weight is positive and at most 1 |
| FairQueue.WeightDecreasesWithUsage | src/jobs/bulkVerificationScheduler.ts:26-31 | more usage means strictly less weight, both ways; what is not a positive number counts as none |
| FairQueue.ScoreArrivals | src/jobs/bulkVerificationScheduler.ts:57-72 | the loop with its two tables computes the start and finish times of the recursive definition |
| FairQueue.OrderJobsByWfq | src/jobs/bulkVerificationScheduler.ts:45-81 | the returned order is the placement by finish time, whose times the next rows fix, and a permutation of the jobs |
| FairShares.ServiceTime | src/jobs/bulkVerificationScheduler.ts:63-68 | every arrival is served for its size (1 if that is not positive) times one plus the last positive usage recorded for its organisation |
| FairShares.StartsAreTight | src/jobs/bulkVerificationScheduler.ts:67-70 | every arrival starts at zero, with an earlier arrival or when an earlier job of its organisation finishes; with the lower bounds of ScoreScheduled this fixes all starts |
| FairShares.LighterUserGoesFirst | src/jobs/bulkVerificationScheduler.ts:45-81 | among the first arrivals of different organisations the smaller stretched size is placed first, and of equal sizes that of the organisation that used less |
| FairQueue.ScoreScheduled | src/jobs/bulkVerificationScheduler.ts:63-72 | starts never go back in arrival order, and one organisation's service intervals do not overlap |
| FairQueue.WfqFairness | src/jobs/bulkVerificationScheduler.ts:45-81 | for every job and organisation, the cost of that organisation's later arrivals placed before the job is at most the job's own |
| FairQueue.OvertakingNeedsEarlierFinish | src/jobs/bulkVerificationScheduler.ts:74-78 | a later arrival is placed first only with a strictly smaller finish time |
| FairQueue.PlacementKeepsOrgOrder | src/jobs/bulkVerificationScheduler.ts:63-80 | every arrival is placed once and one organisation's jobs keep their arrival order |
| FairQueue.FinishBound | src/jobs/bulkVerificationScheduler.ts:63-72 | the i-th arrival finishes by the total cost of the arrivals up to it |
| AuditChain.AuditChainVerifier.FetchBatch | src/jobs/auditChainVerifier.ts:283-308 | the rows with a larger seq than the given one, in order, at most a batch |
| AuditChain.AuditChainVerifier.CheckRow | src/jobs/auditChainVerifier.ts:157-236 | the violations found so far and those of the row, cut at the limit, and whether the limit is reached |
| AuditChain.AuditChainVerifier.Verify | src/jobs/auditChainVerifier.ts:137-259 | for every batch size and limit of at least 1 the result is the first violations of the one-pass list, and the rows visited are those up to the last of them |
| AuditChain.CleanIffIntact | src/jobs/auditChainVerifier.ts:160-231 | there is no violation if and only if seqs are contiguous, links match and every row hash recomputes |
| AuditFindings.EntryIff | src/jobs/auditChainVerifier.ts:160-231 | the one-pass list has an entry, with these contents, for each row out of sequence, unlinked or not recomputing, and no others |
| AuditFindings.ReportedIff | src/jobs/auditChainVerifier.ts:160-231 | in a table a row is named in an entry of a kind if and only if that is wrong with it |
| AuditChain.TamperEvidence | src/jobs/auditChainVerifier.ts:175-235 | intact tables that end in the same hash have the same length and the same hashed text in every row |
| AuditChain.AcceptedTablesAgree | src/jobs/auditChainVerifier.ts:175-235 | accepted tables with the same last hash agree on every field of a row without a bar |
| AuditTampering.OtherReadingIff | src/db/repositories/auditLogsRepository.ts:123-151 | other fields that a row can have give the same hashed text if and only if a name has a bar to shift or the text frames a time, a JSON text and a status elsewhere |
| AuditTampering.HiddenIffAmbiguous | src/jobs/auditChainVerifier.ts:175-235 | a row of an accepted table can be altered without changing the last hash if and only if its fields are open in that way |
| AuditTampering.ReadingIsHidden | src/jobs/auditChainVerifier.ts:175-235 | for such a row, the altered table, accepted and otherwise the same |
| AuditTampering.DetailsBarsHold | src/jobs/auditChainVerifier.ts:202-217 | bars in the details alone, with no status word between them, leave a row as it is |
| AuditTampering.DetailsCanHide | src/jobs/auditChainVerifier.ts:202-217 | a JSON text and a status word between bars of the details can stand for the row's own |
| JsonLexis.BarBreaks | src/jobs/auditChainVerifier.ts:202-204 | neither side of a bar in a JSON text is a JSON text |
| BarJoin.DeterminedIffBarFree | src/db/repositories/auditLogsRepository.ts:136-148 | the joined text determines its fields if and only if none of them contains a bar |
| AuditWriters.InMemoryAuditLogsRepository.Append | src/db/repositories/auditLogsRepository.ts:625-686 | an entry with a tenant becomes the next row, chained to the last; one without is refused |
| AuditWriters.AuditLogService.VerifyChain | src/services/audit/index.ts:227-319 | the chain is valid if and only if every entry in order is the next one, links to the one before and recomputes with its request id; the findings say of each entry exactly which of these fails |
| AuditWriters.WrittenIsValid | src/services/audit/index.ts:252-305 | every table that appends have written is found valid by it |
| AuditWriters.SqlRowsAreRejected | src/db/repositories/auditLogsRepository.ts:224-280 | for every row that SQL has written the batched verifier reports that its hash does not recompute |
| AuditWriters.SqlRowFailsService | src/services/audit/index.ts:256-305 | the service's check fails at each such row too |
| StableHash.EscapeReadable | src/cache/invalidation.ts:15-25 | an escaped string followed by its closing quote can be read back in one way only |
| StableHash.IntReadable | src/cache/invalidation.ts:15-25 | so can a printed integer followed by anything that is not a digit |
| StableHash.ValueReadable | src/cache/invalidation.ts:15-25 | no printed value continues another: equal texts with any rest give equivalent values and equal rests |
| StableHash.EquivalentPrintsSame | src/cache/invalidation.ts:15-25 | values equal up to key order print alike |
| StableHash.StableHashCanonical | src/cache/invalidation.ts:15-25 | two values print alike if and only if they are equal up to the order of object keys |
| BreakerCore.CircuitBreaker.constructor | src/clients/circuitBreaker.ts:79-96 | the probe delay is the configured one, or the deprecated one, or the default, and never shorter than the open window |
| BreakerCore.CircuitBreaker.CheckTimers | src/clients/circuitBreaker.ts:115-122 | an open breaker goes to HALF_OPEN once the delay has passed |
| BreakerCore.CircuitBreaker.TransitionTo | src/clients/circuitBreaker.ts:134-146 | each state resets its own fields and no others |
| BreakerCore.CircuitBreaker.ExecuteBegin | src/clients/circuitBreaker.ts:167-185 | a call is let through unless the breaker is open or a probe is counted |
| BreakerCore.CircuitBreaker.ExecuteEnd | src/clients/circuitBreaker.ts:187-212 | a success closes a half-open breaker or resets the count; a failure counts or reopens |
| CircuitBreaker.RateBound | src/clients/circuitBreaker.ts:115-212 | in any stretch after a trip without a success, admissions times the delay are at most the time elapsed, whatever late answers do |
| CircuitBreaker.OneCallPerEpisode | src/clients/circuitBreaker.ts:177-185 | a HALF_OPEN episode admits one call at most |
| CircuitBreaker.OpenRejects | src/clients/circuitBreaker.ts:115-175 | between a trip and the end of the delay nothing is admitted and nothing changes |
| CircuitBreaker.TripsApart | src/clients/circuitBreaker.ts:93-146 | over any run, the j-th trip comes at least (j - i) delays after the i-th |
| CircuitBreaker.OpensAtThreshold | src/clients/circuitBreaker.ts:202-212 | a closed breaker opens if and only if its consecutive failures reach the threshold |
| BreakerOutcomes.OpensIffStretch | src/clients/circuitBreaker.ts:187-212 | after any sequence of answers a closed breaker is open if and only if some stretch of consecutive failures reached the threshold, the first one counted on top of the failures before |
| BreakerOutcomes.SuccessEndsOutage | src/clients/circuitBreaker.ts:187-195 | after a success in HALF_OPEN every call is let through, and only a whole stretch of `failureThreshold` failures opens the breaker again |
| BreakerOutcomes.FailureRenewsOutage | src/clients/circuitBreaker.ts:196-212 | after a failure in HALF_OPEN nothing is admitted for a full delay, and then one probe |
| CircuitBreaker.OneProbeAtATime | src/clients/circuitBreaker.ts:160-200 | when calls answer within the delay, one probe is out at most and nothing else settles in HALF_OPEN |
| CircuitBreaker.SlowCallAllowsTwoProbes | src/clients/circuitBreaker.ts:177-211 | calls that may take longer let a second probe out beside the first, whatever the threshold |
| CircuitBreaker.OneProbeIff | src/clients/circuitBreaker.ts:160-212 | calls that answer in less than a bound leave one probe out at most in every run if and only if the bound is within the delay |
| Transactions.TransactionManager.RunPostCommit | src/db/transaction.ts:29-38 | outside a transaction the hook runs at once, inside it is registered last |
| Transactions.TransactionManager.RunRollback | src/db/transaction.ts:47-54 | outside a transaction nothing happens, inside the hook is registered last |
| Transactions.TransactionManager.InvalidateCache | src/cache/invalidation.ts:48-94 | inside a transaction only hooks are registered; outside the entry is deleted at once |
| Transactions.TransactionManager.WithTransaction | src/db/transaction.ts:283-395 | a nested call joins the outer transaction with no connection of its own; an outer one makes attempts until one is not retried, with the trace and the ending that follow |
| Transactions.Accounting | src/db/transaction.ts:289-395 | connects equal releases, attempts are at most `maxRetries` + 1, the backoff totals `retryDelayMs` * (2^retries - 1) |
| Transactions.OneConnectionAtATime | src/db/transaction.ts:289-395 | at no point of a call is more than one connection held |
| Transactions.HooksRan | src/db/transaction.ts:289-391 | each attempt made runs its post-commit hooks if it got through and its rollback hooks if not, once each and in order; no other hook runs |
| TransactionHooks.HooksRunInOrder | src/db/transaction.ts:29-54 | the hooks that run are those the callback registered, nested transactions and cache invalidations included, in its order |
| TransactionHooks.RetriesWhileLockedOut | src/db/transaction.ts:289-395 | attempts follow each other while they are locked out, retrying is on and retries are left, and no longer; the call ends in a LockTimeoutError if and only if the last was locked out |
| TransactionHooks.FailedAttemptsRollBack | src/db/transaction.ts:363-391 | an attempt is rolled back if and only if it was made and failed |
| TransactionHooks.RollbackHookAfterRollback | src/db/transaction.ts:363-391 | no rollback hook runs before the ROLLBACK of its own attempt |
| Transactions.OneCommitAtMost | src/db/transaction.ts:289-391 | however attempts fail and are retried, one commits at most, and it is the last |
| Transactions.HooksFollowCommit | src/db/transaction.ts:346-391 | an attempt that was not misled ran the hooks its real outcome calls for, and if it is the last a value is returned if and only if it committed |
| Transactions.HooksMatchIff | src/db/transaction.ts:346-391 | hooks match what was committed if and only if COMMIT is not answered over an aborted transaction and no connection is lost after the commit |
| Transactions.SwallowedErrorRunsHooks | src/db/transaction.ts:346-362 | a callback that swallows a failed statement gets a value and its post-commit hooks, with nothing committed |
| Transactions.LostAnswerRunsRollback | src/db/transaction.ts:346-391 | a connection lost after the commit is rethrown, with rollback hooks |
| Transactions.PostHookAfterCommit | src/db/transaction.ts:346-356 | no post-commit hook runs before its COMMIT has been answered without an error |
| Transactions.PostHookDurableIff | src/db/transaction.ts:346-356 | when one runs, the server has committed if and only if the callback did not leave the transaction aborted |
| Transactions.InvalidationFollowsCommit | src/cache/invalidation.ts:56-83 | an entry invalidated inside a transaction is deleted if a value is returned, and only after that answer; the server has then committed unless the transaction was left aborted |
| KeyRotation.RotationCli.ListPage | scripts/rotate-kms-key.ts:44-48 | a slice of the store in insertion order |
| KeyRotation.RotationCli.Update | scripts/rotate-kms-key.ts:49-51 | an updated record keeps its place, a new one comes last |
| KeyRotation.RotationCli.Run | src/jobs/keyRotationWorker.ts:95-199 | the first records, all of them unless interrupted, are moved or left as the pass prescribes, and each is counted once |
| KeyRotation.RotationCli.CmdRotate | scripts/rotate-kms-key.ts:179-248 | keys are wiped only after all passes have run uninterrupted, none failing without progress; otherwise none is, and the store is as some pass left it where it stopped |
| KeyRotation.CountsAddUp | src/jobs/keyRotationWorker.ts:113-165 | re-encrypted, skipped and failed add up to the records visited |
| KeyRotation.UploadIsRead | src/services/evidence/storage.ts:66-156 | what was uploaded is read back while the key of its version is in the ring |
| KeyRotation.PassKeepsBlobText | src/jobs/keyRotationWorker.ts:222-265 | wherever a pass stops, every blob opens as before when opened directly with the key of its record's version |
| KeyRotation.PassKeepsReadableIff | src/jobs/keyRotationWorker.ts:258-264 | a pass leaves a readable record readable if and only if the record is not on the old version under the old key as its data key, well formed and accepted by the store, or both keys are the same |
| KeyRotation.UploadIsNotMoved | src/jobs/keyRotationWorker.ts:222-240 | a record with a data key of its own is never moved: on the old version it fails, elsewhere it is skipped |
| KeyRotation.UploadsStopRotation | scripts/rotate-kms-key.ts:216-239 | on a store of uploads no pass changes anything, and one makes no progress if and only if a record is on its version |
| KeyRotation.RerunIsIdle | src/jobs/keyRotationWorker.ts:127-138 | after a whole pass without a failure, another finds nothing to re-encrypt, fails on nothing and changes nothing |
| KeyRotation.AllArriveIff | scripts/rotate-kms-key.ts:216-239 | all records reach the active version if and only if each started on it or on a rotated one and no pass failed |
| KeyRotation.WipedKeys | src/services/keyManager/index.ts:497-511 | after the wipe only the active version names its key, and unregistered versions still fall back to the secret |
| KeyRotation.CommandPlan | scripts/rotate-kms-key.ts:190-216 | the passes of the command are over registered keys, each from a different retired version to the active one |
| KeyRotation.WipeKeepsReadableIff | scripts/rotate-kms-key.ts:216-247 | after all passes and the wipe a record is read as before if and only if the key its version then names is the one its data key was wrapped under |
| KeyRotation.SurvivesIffNotRetired | scripts/rotate-kms-key.ts:216-247 | with key material of its own for each version, that is if and only if the record was on the active version or an unregistered one |
| KeyRotation.UploadedRecordLost | scripts/rotate-kms-key.ts:192-247 | an uploaded record on a retired version above the active one is in no pass, and the wipe takes its key |
| BatchPayout.BatchPayoutProcessor.ValidatePayload | src/jobs/batchPayoutProcessor.ts:106-152 | a batch is accepted if and only if it is small enough, its items' fields and dates are good and no hash comes twice; otherwise the first bad item and the first thing wrong with it are named |
| PayoutAmounts.DecimalIff | src/jobs/batchPayoutProcessor.ts:124-128 | an amount is well formed if and only if it is digits, or digits, a point and one to eighteen digits |
| PayoutAmounts.TooLargeIff | src/jobs/batchPayoutProcessor.ts:129-132 | it is over the limit, as a double, if and only if its exact value is more than 64 above ten to the eighteenth |
| BatchPayout.BatchPayoutProcessor.ProcessItem | src/jobs/batchPayoutProcessor.ts:189-279 | settled if and only if this call executed the hash and its last write was answered, the row then being settled; pending if and only if the first write was answered and the hash a duplicate, nothing being executed then; other rows are untouched |
| BatchPayout.BatchPayoutProcessor.Process | src/jobs/batchPayoutProcessor.ts:154-187 | nothing is written for an invalid batch; otherwise each item fares as it would alone, settled counts the items executed and written down, skipped the duplicates, and with failed they add up to the total |
| BatchPayout.RetriesAreFailures | src/jobs/batchPayoutProcessor.ts:284-295 | what is retried after a batch is exactly what failed in it, in order |
| PayoutRuns.AtMostOnceIff | src/jobs/batchPayoutProcessor.ts:189-279 | over all interleavings, batches, retries and failing writes a hash has one successful execution at most, if and only if pending and settled rows count as duplicates |
| PayoutRuns.PaidAtMostOnce | src/jobs/batchPayoutProcessor.ts:225-250 | a hash is paid once at most when an execution that throws has not paid |
| PayoutRuns.PaidOnceIff | src/jobs/batchPayoutProcessor.ts:189-279 | whatever the executor does, a hash is paid once at most if and only if the store reports failed rows as duplicates too |
| PayoutRuns.LostPaymentPaysTwice | src/jobs/batchPayoutProcessor.ts:225-250 | an executor that pays and throws is retried and pays again |
| PayoutRuns.StuckForever | src/jobs/batchPayoutProcessor.ts:189-223 | a hash left with a duplicate row and no processor at work is never executed again |
| PayoutRuns.RetryableIff | src/jobs/batchPayoutProcessor.ts:225-250 | after an execution that threw, a retry executes if and only if the failure was written down and failed rows are let through |
| PayoutRuns.TableNeverRetries | src/db/repositories/settlementsRepository.ts:104-133 | with the settlements table as the store, a hash that has a row is never executed again |
| PayoutRuns.ItemIsRun | src/jobs/batchPayoutProcessor.ts:189-279 | an item processed alone is three steps of a run, with the same row and execution |
| ProbeCache.HealthProbeCache.Call | src/clients/healthProbeCache.ts:50-143 | fresh and stale values answer at once, a cold call shares or starts a probe, and a probe starts only when none is in flight |
| ProbeCache.HealthProbeCache.Settle | src/clients/healthProbeCache.ts:84-139 | a probe of the present generation is cached if fulfilled and clears the cache if rejected; any other changes nothing |
| ProbeCache.HealthProbeCache.Clear | src/clients/healthProbeCache.ts:145-150 | the cache is empty and the generation moves on |
| ProbeCache.GenerationIsolation | src/clients/healthProbeCache.ts:45-150 | in every run each generation has one probe outstanding at most, only a fulfilled probe of the present one is cached, and each call is answered by a probe of its own generation |
| ProbeAnswers.CallLaw | src/clients/healthProbeCache.ts:60-142 | in every run a call starts a probe if and only if the latest answer is older than the time to live, or the clock before it, and none is out; it gets the latest answer if there is one, else the probe that is out, else the one it starts |
| ProbeAnswers.CachedIsLatest | src/clients/healthProbeCache.ts:84-139 | what is cached is what the last probe of the present generation to settle has left |
| ProbeCache.ClearForgets | src/clients/healthProbeCache.ts:84-150 | no call after `clear` is answered by a probe started before it, however late that one settles |
| ProbeCache.CallsCoalesce | src/clients/healthProbeCache.ts:68-140 | however many calls come, no more probes start than settlements and clears, and one more |
| ProbeCache.RejectionIsRetried | src/clients/healthProbeCache.ts:92-99 | after a rejection the next call starts a new probe and is answered by it |
| ProbeCache.BypassRun | src/clients/healthProbeCache.ts:51-58 | without a positive time to live every call is answered by a probe of its own |

## Left out

- Redis TTL ageing: Redis keys do not expire by themselves, since the 60 s lifetime of an L1 entry is not tied to it; L1 eviction, by size or age, is a step that removes any entries.
- Redis and Postgres commands are atomic; a command that answers with an error took effect before the error or not at all.
- Several processes: the cache model is of one process; the invalidation bus between processes is not modelled.
- Redis matches bytes and the patterns here match characters, which differs for `?` and classes on keys beyond ASCII.
- Values in L1 are values: that a cached object may be changed by its holder afterwards is not captured, nor are values that JSON cannot carry.
- Non-integer numbers in the canonical printer: numbers are integers of plain decimal notation, strings are sequences of UTF-16 code units escaped as in section 7 of RFC 8259.
- Floating point in queue weights and costs: they are exact reals.
- The clock of the claim table is one monotone clock, and the JSON of stored results is a text.
- Lease rows are values in a map, so that a record returned by `read` is later changed in place is not captured; the matching of SQL text, `peek` and `snapshot` are not modelled.
- The digest of the audit chain is an injective function whose output is a non-empty word without a bar; JSON texts are known by where their string literals begin and end; entries without a seq are not modelled.
- The gauge of the circuit breaker, `isOpenWindowExpired` and the registry of breakers are not modelled, and transitions forced from outside are not part of runs.
- Transaction budgets, lock-timeout settings, tenant settings and query redirection; the metrics recorded after a commit are taken not to throw; what a hook throws is swallowed and so not represented.
- Cryptography is an abstract pair of functions with `dec(k, iv, enc(k, iv, m)) == m` in which a box opens under one key at most; text that is not valid UTF-8, records without a key version, progress callbacks, the capped error list, key approval and activation are not modelled.
- The identifier `retryHashs` in `getRetryableItems` is read as `retryHashes`; amounts are parsed with correct rounding.
- Single-flight fetching, the distributed lock, the connection pool's tenant budget, event paging and the HTTP, CLI and metrics wiring.
