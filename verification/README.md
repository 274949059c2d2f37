# NeuralOps protocols in Dafny

NeuralOps watches production logs, lets an agent analyse each crash, files incidents and pushes
notifications. Most of the code is web plumbing, but several of its parts are small protocols over shared
stores (Redis, PostgreSQL, DynamoDB, Elasticsearch) whose guarantees only show over whole runs. This project
models those protocols and proves what they guarantee; where a guarantee is false of the code, it gives a
run that breaks it and the exact condition under which it does hold.

Check everything with `dafny verify dfyconfig.toml` (Dafny 4.11).

## How to read it

Code that updates state is a class with a method per operation, proved equal to a specification function;
theorems about runs are lemmas about sequences of events or actions through that function. Where processes
interleave, every store command (or MULTI/EXEC pipeline, or transaction) is one action, each worker has a
program counter, and an action that is not enabled changes nothing, so a schedule is any sequence of
actions whatsoever.

| file | part of the system |
|---|---|
| `AgentBreaker` | the Redis-backed circuit breaker, one call at a time, refining Closed / Open / HalfOpen |
| `AgentBreakerRuns` | whole runs of atomic calls: what the counters mean, blocking, recovery, probes in flight |
| `AgentBreakerSteps` | the same breaker with every Redis command a step of any number of workers |
| `AgentBreakerRaces` | what such interleavings can and cannot do to the circuit |
| `Incidents` | the incident service: lookup, duplicates, a new incident with its deliveries and events |
| `DedupProtocol` | the worker loop around it: TTL lock, fail-open, unconditional release, partial unique index |
| `DedupLock` | the lock's two operations on Redis keys, and that they are the protocol's steps |
| `Fingerprint` | the identity of a crash |
| `LogQuery`, `LogPaging` | the log search: the query it builds, and following its cursor |
| `LoginLimiter` | three failure counters with three different expiry rules, requests one after another |
| `LoginOverlap` | the same limiter when requests overlap between check and count |
| `PushRouter`, `PushDispatch` | push fan-out: token pages to batches of ten, then at-most-once delivery |
| `PlaybookProjection` | playbook versions, their events, and the guarded embedding upsert behind a cache |
| `EsBreaker` | the in-process Elasticsearch breaker with overlapping calls |
| `StackFrames` | reading back stack frames that were stored as printed text |
| `RedisStore`, `Strings`, `Common` | Redis commands with expiry, Python string operations, Option and Result |

## Assumptions

- Thresholds and timeouts of the breakers are at least 1 (`Config.Valid`); clocks do not go backwards where a
  lemma says `Ordered`.
- A Redis key past its expiry reads as absent. No command other than those of the modelled code touches the
  keys.
- Each conditional put, `UPDATE … RETURNING`, pipeline and transaction is atomic.
- The partial unique index on active incidents is an explicit hypothesis, the flag `indexed`:
  `fastapi/app/models/incidents.py:688-692` creates it, and the migration
  `fastapi/alembic/versions/20260624_1304_98fe46d10645_change_assigned_user_id_to_assigned_.py:214-218` drops it.
- Fresh uuids and `log_id`s are unique.
- A received crash has a service name and a line of at least 0, as `fastapi/app/schemas/parse_log.py` validates; its
  limit of 255 characters per name is ignored when twins are looked for.
- The digest of a fingerprint is injective, so raw strings are compared.
- Whitespace, digits and case folding are ASCII.
- Elasticsearch date expressions keep one value during a walk (the parameter `date`, which may round a partial
  date differently for a lower and an upper bound).
- A RedisError means that the command was executed or that it was not; both are actions of the interleaved models.

## Where the code and its documentation differ

The model follows the code.

- The breaker's comment at `fastapi/app/agents/circuit_breaker.py:202-205` promises exactly one probe. A success
  reported late by a request admitted earlier deletes the probe lock (line 257), and a probe may outlive its lock:
  `AgentBreakerRuns.TwoProbesCanRun`. `SingleProbeIff` has the exact condition, event by event.
- An OPEN circuit whose opening time is missing is said to have lost the key by expiry or deletion (lines 157-160).
  The key has no expiry; `MissingTimestampIff` says exactly which interleavings reach that branch, and
  `LateSetClosesOpenIff` exactly when it closes a circuit that another worker has opened meanwhile.
- A request the breaker refused still reports a failure (`fastapi/app/agents/nodes/analyzer.py:320-323,397-402`),
  which reopens the circuit under someone else's probe: `RefusedReportReopensIff`.
- The Elasticsearch breaker documents a single probe and a failed probe that reopens
  (`fastapi/app/services/circuit_breaker.py:64-67`). That is so for calls one after another
  (`SerialCallsRefineDocumented`). With overlapping calls HALF_OPEN admits everybody (`HalfOpenAdmitsAll`), and
  there is one probe at a time exactly when no call begins during another's probe (`OneProbeIff`); a failed probe
  reopens exactly when it completes a series of failures (`FailedProbeReopensIff`, `LateSuccessDisarmsProbe`).
- The lock's lifetime is said to exceed the run time of `run_agent` (`fastapi/app/services/dedup_lock.py:71-75`), but
  that may run for 480 s against 30 s. `LockSufficesIff`: without the index the lock keeps active incidents unique, in
  runs whose workers take at most d seconds, exactly for d below 30.
- Release is said to need no owner check, because nobody else competes for the key
  (`fastapi/app/services/dedup_lock.py:194-198`). As long as every release so far was within its worker's lease, the next
  one can delete somebody else's live lock exactly when its own worker's 30 seconds are up (`LateReleaseIff`), or
  when that worker went ahead without Redis (`FailOpenReleaseDrops`).
- The fingerprint's separator is said not to occur in any component (`fastapi/app/services/incidents.py:214-215`).
  It can, as in the path `C:\app.py`: `TwinIff` says exactly which crashes share a fingerprint with another of their tenant.
- `is_draft` is forced to False (`fastapi/app/services/incidents.py:560-564`), so drafts do publish events.
- `send_apns` reads the cached key before anything loads it (`lambdas/lambda-push-dispatch/handler.py:122-123`), so no
  APNs request ever leaves a lambda: `OnlyFcmIsCalled`.
- A failed dispatch is reported to SQS for redelivery, but the redelivery is skipped unless it was the reservation
  itself that could not be written: `RedeliveryIsSkippedIff`. A device also gets nothing when an exception falls
  between reservation and request, as a failed fetch of the access token does, when the reservation's reply is lost
  and its retry meets the row just written, or when another row of the tenant has the same device id:
  `FanOutReachesAllIff`.
- The limiter's keys join e-mail and address with a colon, which both may hold; `SharedCounterIff` says which pairs
  share a counter.

## Model

| member | source | states |
|---|---|---|
| `AgentBreaker.CircuitBreaker.CanExecute` | fastapi/app/agents/circuit_breaker.py:139-220 | on keys that mean a circuit, the new keys mean that circuit after a check and the answer is its answer, so the branch for a missing timestamp is never taken; on other typed keys, what that branch and the unknown-state branch do |
| `AgentBreaker.CircuitBreaker.RecordSuccess` | fastapi/app/agents/circuit_breaker.py:222-267 | the keys go on meaning a circuit, the one after a reported success; in any other state nothing changes |
| `AgentBreaker.CircuitBreaker.RecordFailure` | fastapi/app/agents/circuit_breaker.py:269-332 | the keys go on meaning a circuit, the one after a reported failure; while OPEN nothing changes |
| `AgentBreaker.CircuitBreaker.Reset` | fastapi/app/agents/circuit_breaker.py:342-354 | from any keys at all, the keys mean a closed circuit without failures |
| `AgentBreaker.KeyNamesDistinct` | fastapi/app/agents/circuit_breaker.py:110-123 | circuits of different names, whatever characters they hold, never share a key |
| `AgentBreakerRuns.ClosedCountsFailures` | fastapi/app/agents/circuit_breaker.py:298-307 | after any run, CLOSED holds the number of failures since the last success or reset, below the threshold, and HALF_OPEN a success count below its threshold |
| `AgentBreakerRuns.OpenHasOpeningFailure` | fastapi/app/agents/circuit_breaker.py:280-307 | OPEN stems from one reported failure whose time it carries, with no reset and no late enough check since |
| `AgentBreakerRuns.HalfOpenCountsSuccesses` | fastapi/app/agents/circuit_breaker.py:169-189 | HALF_OPEN was entered by a check a full timeout after opening and counts the successes reported since |
| `AgentBreakerRuns.OpenBlocks` | fastapi/app/agents/circuit_breaker.py:155-199 | until the timeout has passed an open circuit admits nothing, whatever is checked or reported late, and its time stays |
| `AgentBreakerRuns.LeaseBlocks` | fastapi/app/agents/circuit_breaker.py:201-209 | while the probe lock lives and nothing is reported, every check is refused and changes nothing |
| `AgentBreakerRuns.ProbesAreSeparated` | fastapi/app/agents/circuit_breaker.py:169-209 | between two checks admitted by the lock there is a report or reset, or a whole lock lifetime |
| `AgentBreakerRuns.RefusedReportReopensIff` | fastapi/app/agents/nodes/analyzer.py:318-402 | the failure reported for a refused check reopens the circuit if and only if somebody else's probe holds the lock |
| `AgentBreakerRuns.Recovery` | fastapi/app/agents/circuit_breaker.py:155-257 | once the timeout or lock has run out, check-and-success rounds are all admitted and close the circuit after exactly the missing number of successes, not earlier |
| `AgentBreakerRuns.SingleProbeIff` | fastapi/app/agents/circuit_breaker.py:201-209 | throughout a run, requests that end silently included, there is at most one probe, and only under a lock in HALF_OPEN, if and only if every event that meets a probe is its own report, a silent end, a check refused by the live lock or made by the probe itself, and never a reset |
| `AgentBreakerRuns.GuardedStepIff` | fastapi/app/agents/circuit_breaker.py:201-257 | one event keeps a single guarded probe if and only if it is of that kind |
| `AgentBreakerRuns.SecondProbeIffLateReport` | fastapi/app/agents/circuit_breaker.py:252-257 | with one probe in flight, a success below the threshold followed by a check gives two probes if and only if the report was not the probe's own |
| `AgentBreakerRuns.TwoProbesCanRun` | fastapi/app/agents/circuit_breaker.py:202-209 | a run with two probes in flight, against the comment that promises one |
| `AgentBreakerSteps.ApplyKeepsSafe` | fastapi/app/agents/circuit_breaker.py:139-354 | every single Redis command of any worker, failure, kill, reset or passing of time keeps the safety invariant |
| `AgentBreakerSteps.ScheduleIsSafe` | fastapi/app/agents/circuit_breaker.py:139-354 | the safety invariant holds after every interleaving of any number of workers |
| `AgentBreakerSteps.OpenHasTimestamp` | fastapi/app/agents/circuit_breaker.py:283-307 | in every interleaving, state OPEN has its opening time |
| `AgentBreakerSteps.EffectKeepsLog` | fastapi/app/agents/circuit_breaker.py:175-209 | any two grants of the probe lock stay separated by a deletion or a whole time to live |
| `AgentBreakerSteps.OneAdmissionPerLease` | fastapi/app/agents/circuit_breaker.py:169-209 | in every interleaving, two checks let through by the lock used two different grants, each made to that caller, separated by a deletion or expiry |
| `AgentBreakerSteps.UninterruptedCheck` | fastapi/app/agents/circuit_breaker.py:139-220 | the commands of one check without interleaving are the atomic check: same circuit, same answer |
| `AgentBreakerSteps.UninterruptedSuccess` | fastapi/app/agents/circuit_breaker.py:222-261 | likewise for a reported success |
| `AgentBreakerSteps.UninterruptedFailure` | fastapi/app/agents/circuit_breaker.py:269-307 | likewise for a reported failure |
| `AgentBreakerSteps.UnheardEffect` | fastapi/app/agents/circuit_breaker.py:214-220 | a command whose reply is lost still keeps the lock's log in order and gives nobody a second use of a grant |
| `AgentBreakerRaces.MissingTimestampIff` | fastapi/app/agents/circuit_breaker.py:155-160 | in every interleaving a check finds the opening time missing at its second GET if and only if a reset or closing pipeline ran since its first and no failure opened the circuit after that |
| `AgentBreakerRaces.MissingAnswerNeedsClose` | fastapi/app/agents/circuit_breaker.py:155-160 | whenever a check has closed the circuit for want of a timestamp, that happened to it |
| `AgentBreakerRaces.LateSetClosesOpenIff` | fastapi/app/agents/circuit_breaker.py:157-160 | the SET of such a check closes an open circuit if and only if a failure opened it since the second GET and nothing has changed the state after that |
| `AgentBreakerRaces.StaleCheckClosesOpenCircuit` | fastapi/app/agents/circuit_breaker.py:155-160 | for every configuration some run does so and leaves a closed circuit at its threshold |
| `AgentBreakerRaces.ThresholdOnlyInPassing` | fastapi/app/agents/circuit_breaker.py:298-307 | unless a worker dies between INCR and pipeline or a timestamp is missing, CLOSED stands at the threshold only while some worker is between the two |
| `AgentBreakerRaces.ThresholdIsReached` | fastapi/app/agents/circuit_breaker.py:298-307 | and for every configuration some run passes through that state without any missing timestamp |
| `Incidents.IncidentService.FindActiveByFingerprint` | fastapi/app/services/incidents.py:311-326 | returns an incident of that tenant and fingerprint whose status is not resolved if and only if there is one |
| `Incidents.IncidentService.RecordDuplicateOccurrence` | fastapi/app/services/incidents.py:397-460 | all or nothing: the stored count, not the caller's snapshot, goes up by one together with the key and the event, and no other column, row or table changes; a deleted row leaves only an event with the stale count |
| `Incidents.IncidentService.PersistNewIncident` | fastapi/app/services/incidents.py:560-725 | unchanged database on any error, refusal exactly when the index exists and an active incident does, otherwise one open incident with count 1 and its first key, one analysis, two events and one pending delivery per destination of each matching rule, all under one severity: a draft's is unknown, otherwise the agent's if it gave one, else the log event's, else unknown |
| `Incidents.RuleAppends` | fastapi/app/services/incidents.py:663-681 | appending a matching rule's deliveries keeps one delivery per destination, each at its own position |
| `Incidents.DeliveredIff` | fastapi/app/services/incidents.py:663-681 | a delivery is among those of a new incident if and only if it is pending, for that tenant and incident, and its destination is named by an enabled rule of the tenant whose filter holds the severity and whose threshold, zero if absent, the confidence reaches or is absent |
| `Incidents.EventSeverityIsFallback` | fastapi/app/services/incidents.py:562-568 | with a severity from the agent, or for a draft, the resulting database does not depend on the severity of the log event |
| `Incidents.EveryDeliveryHasItsRule` | fastapi/app/services/incidents.py:663-681 | every delivery stems from a destination of an enabled same-tenant rule matching severity and threshold |
| `Incidents.SilentIffNoRuleMatches` | fastapi/app/services/incidents.py:656-681 | nothing is delivered if and only if no matching rule names a destination |
| `Incidents.LowConfidenceIsSilent` | django/apps/alerts/serializers.py:39-48 | when every filter was validated, a low-confidence incident reaches nobody |
| `DedupLock.DedupLock.AcquireDedupLock` | fastapi/app/services/dedup_lock.py:144-184 | acquired exactly when no lease of that fingerprint is alive or Redis raises; a lease of 30 s is written exactly when none is alive and the command was executed |
| `DedupLock.AcquireIsStep` | fastapi/app/services/dedup_lock.py:144-184 | acquiring on keys that hold the protocol's leases is the protocol's acquire step, answer included, also when Redis fails |
| `DedupLock.ReleaseIsStep` | fastapi/app/services/dedup_lock.py:215-236 | likewise for the release |
| `DedupLock.LeasesHeld` | fastapi/app/services/dedup_lock.py:144-236 | while all releases are within their leases, every worker whose lease has not run out owns the lock in Redis |
| `DedupLock.LateReleaseIff` | fastapi/app/services/dedup_lock.py:194-198 | a release d seconds after its worker took the lock can delete another worker's live lock, all earlier releases being in time, if and only if d is at least 30 |
| `DedupLock.FailOpenReleaseDrops` | fastapi/app/services/dedup_lock.py:172-184 | a worker that went ahead on a Redis error can delete the owner's live lock at once |
| `DedupProtocol.IndexKeepsUnique` | fastapi/app/models/incidents.py:688-692 | with the index, no schedule with expiry, fail-open, foreign release, kills or status changes has two active incidents for one tenant and fingerprint |
| `DedupProtocol.LockAloneSuffices` | fastapi/app/services/dedup_lock.py:144-236 | in runs without fail-open, expiry under the owner or re-activation, every worker in the critical section owns its live lock, lookups stay true and active incidents unique, even without the index |
| `DedupProtocol.QuietRunsNeverCollide` | fastapi/app/worker/tasks/run_agent.py:143-479 | in such runs two workers never handle one fingerprint at once and no insert meets the index |
| `DedupLock.LockSufficesIff` | fastapi/app/services/dedup_lock.py:71-75 | without the index, active incidents stay unique in all runs in which every worker got its lock from Redis, has taken at most d seconds at every moment, and nothing is re-activated, if and only if d is less than 30 |
| `DedupProtocol.OccurrencesMatchEvents` | fastapi/app/services/incidents.py:405-460 | for every schedule with stale snapshots: count equals number of keys, keys are the committed ones in commit order, duplicate events carry 2, 3, … each once |
| `DedupProtocol.DuplicateKeepsConsistent` | fastapi/app/services/incidents.py:405-456 | recording a duplicate from any stale snapshot keeps counts, keys and events in agreement |
| `DedupProtocol.InsertKeepsConsistent` | fastapi/app/services/incidents.py:594-635 | so does inserting a new incident, which starts at one occurrence and no event |
| `DedupProtocol.KeyIsFreshIffRowExists` | fastapi/app/services/incidents.py:422-445 | a duplicate's idempotency key is new if and only if the row still exists (or a stale count of 1 is used for the first time) |
| `Fingerprint.NormaliseIdempotent` | fastapi/app/services/incidents.py:209-212 | normalising a path twice is normalising it once |
| `Fingerprint.NormaliseIgnoresSlashDirection` | fastapi/app/services/incidents.py:209-212 | paths that differ in slash direction only normalise alike |
| `Fingerprint.NormaliseIgnoresPrefix` | fastapi/app/services/incidents.py:209-212 | directories before a path of three or more components do not matter |
| `Fingerprint.NormaliseKeepsComponents` | fastapi/app/services/incidents.py:209-212 | two paths normalise alike if and only if they agree in the last component, the one before it and the one before that |
| `Fingerprint.SameFingerprintIffSameCrash` | fastapi/app/services/incidents.py:202-219 | without colons in tenant, service, type and file, raw fingerprints agree if and only if all six components do, line by buckets of five and file by last components |
| `Fingerprint.TwinIff` | fastapi/app/services/incidents.py:214-219 | a crash that can be received shares its fingerprint with a different such crash of its tenant if and only if its service after the first character, its error type or its normalised file holds a colon, or its method holds one right after a token that prints a bucketed line and follows a token that could end a file |
| `Strings.JoinSplit` | fastapi/app/services/incidents.py:210-212 | joining the parts of a split string gives it back |
| `Strings.SplitJoin` | fastapi/app/services/incidents.py:210-212 | splitting joined separator-free parts gives the parts back |
| `Strings.IntTextInjective` | fastapi/app/services/incidents.py:216-219 | different line numbers print differently, negative ones too |
| `LogQuery.QueryMeansFilters` | fastapi/app/services/log_search_repository.py:224-310 | the built query matches a document if and only if tenant, each set filter, search text and time range all do |
| `LogQuery.BuildQuery` | fastapi/app/services/log_search_repository.py:224-288 | the clause list built step by step is the query whose meaning `QueryMeansFilters` gives |
| `LogQuery.TimeClausesMean` | fastapi/app/services/log_search_repository.py:290-310 | the time clause admits exactly the timestamps of the window if one is given, else those between whichever bounds are given |
| `LogQuery.PlainPatternMeansContains` | fastapi/app/services/log_search_repository.py:258-267 | for text without wildcard characters, the escaped pattern matches exactly the strings containing it, backslashes included, ignoring case |
| `LogQuery.PatternMeansContainsIff` | fastapi/app/services/log_search_repository.py:258-267 | and it has that meaning only for such text |
| `LogQuery.ContainsIff` | fastapi/app/services/log_search_repository.py:266-267 | containing means that some stretch of the string equals the text character by character, or differs only in the case of ASCII letters |
| `LogQuery.LeadingStar` | fastapi/app/services/log_search_repository.py:266-267 | a pattern that begins with a star matches if and only if the rest matches some suffix |
| `LogQuery.DropLineNumberSpec` | fastapi/app/services/log_search_repository.py:261-263 | exactly a final colon followed by digits is dropped, once |
| `LogQuery.StripSpec` | fastapi/app/services/log_search_repository.py:252-256 | the stripped text is the longest part without whitespace, given by code point, at either end |
| `LogQuery.PlainSearchMeansContains` | fastapi/app/services/log_search_repository.py:254-277 | a plain search asks for the text in the error type or, without a pasted line number, in the path |
| `LogPaging.LogSearchRepository.Search` | fastapi/app/services/log_search_repository.py:81-127 | hits are the page after the cursor of the matching documents, as many as the least of page size, 200 and what is left after the cursor, with total and next cursor; a missing index gives an empty result |
| `LogPaging.BeforeTotal` | fastapi/app/services/log_search_repository.py:312-324 | the sort order distinguishes any two documents with different timestamp or log_id |
| `LogPaging.BeforeTransitive` | fastapi/app/services/log_search_repository.py:312-324 | and is transitive |
| `LogPaging.NewestFirst` | fastapi/app/services/log_search_repository.py:312-324 | in a sorted list timestamps do not increase, and of two documents with the same one the one with the smaller log_id comes first |
| `LogPaging.StrLessIff` | fastapi/app/services/log_search_repository.py:312-324 | log_ids are ordered by their first difference, a proper prefix before what it begins |
| `LogPaging.PageSpec` | fastapi/app/services/log_search_repository.py:91-120 | a page is sorted, holds only matches after the cursor, and every such match is on it or after the next cursor |
| `LogPaging.NothingSkipped` | fastapi/app/services/log_search_repository.py:91-127 | however many pages have been read while documents are added, an initial match has been returned or is still to come |
| `LogPaging.WalkReturnsAllInitial` | fastapi/app/services/log_search_repository.py:91-127 | following the cursor to the end while documents are added anywhere returns every match present at the start |
| `LogPaging.WalkNeverRepeats` | fastapi/app/services/log_search_repository.py:91-127 | meanwhile the concatenated pages are in order, no log_id comes twice and no page is longer than asked |
| `LogPaging.ConcatIsSorted` | fastapi/app/services/log_search_repository.py:312-324 | pages in order of their cursors concatenate to a sorted list |
| `LogPaging.AllPages` | fastapi/app/services/log_search_repository.py:91-127 | over a fixed index the loop over cursors terminates, at the first empty page |
| `LogPaging.AllPagesFollowCursor` | fastapi/app/services/log_search_repository.py:119-120 | each of its pages is the one the previous page's cursor asks for, and only the last before the empty one may be short |
| `LogPaging.FixedIndexWalk` | fastapi/app/services/log_search_repository.py:81-127 | the concatenated pages are the matching documents, each once, sorted by timestamp descending and log_id ascending |
| `LoginLimiter.BackoffCappedIff` | django/apps/users/cache.py:139-141 | the backoff is 60 s for the first failure and doubles to 120, 240, 480 and 960, and reaches its cap of an hour if and only if there were at least seven |
| `LoginLimiter.CacheManager.IsLoginBlocked` | django/apps/users/cache.py:143-159 | the address is blamed at 20 live failures, else the pair at 5, else the e-mail at 50, and otherwise nobody |
| `LoginLimiter.CacheManager.IncrementWindow` | django/apps/users/cache.py:167-176 | a live counter goes up and keeps its expiry, a dead one restarts at one with a fresh window; no other key changes |
| `LoginLimiter.CacheManager.IncrementLoginFailure` | django/apps/users/cache.py:161-178 | address and e-mail count within 60 s and 900 s of their first failure, the pair's expiry restarts at the backoff of its new count, which is returned, and no other key changes |
| `LoginLimiter.CacheManager.ClearLoginFailures` | django/apps/users/cache.py:180-186 | the three keys are gone and every other key keeps its entry |
| `LoginLimiter.KeysDiffer` | django/apps/users/cache.py:163-165 | no key of one kind is ever a key of another kind |
| `LoginLimiter.CountersNeverPassLimits` | django/apps/users/cache.py:143-178 | in every serial run the counters stay at or below 20, 5 and 50 |
| `LoginLimiter.CounterIsSeries` | django/apps/users/cache.py:161-186 | after every run each of the three counters is the number of admitted failures of its key since the last admitted login or expiry, under the expiry those failures give it |
| `LoginLimiter.CountsFailuresSinceLogin` | django/apps/users/views.py:120-141 | a counter never exceeds the admitted failures of its key since the last admitted login, and equals them if and only if no failure found the counter expired and it lives still |
| `LoginLimiter.PairBackoffNeverCapped` | django/apps/users/cache.py:171-172 | so a pair's expiry is the uncapped doubling, 960 s at most |
| `LoginLimiter.FiveFailuresBlock` | django/apps/users/cache.py:152-153 | nothing anyone does before the expiry moves a pair's counter once it stands at five |
| `LoginLimiter.FifthFailureBlocks960` | django/apps/users/views.py:120-141 | the fifth failure of a pair blocks that pair for the full 960 s, with or without the right password |
| `LoginLimiter.FailuresFormLives` | django/apps/users/cache.py:167-169 | the failures let through from an address fall into disjoint counter lives of at most 20 within 60 s |
| `LoginLimiter.AtMostFortyPerMinute` | django/apps/users/views.py:120-141 | without a login from it, at most 40 failures of an address get through in any 60 seconds |
| `LoginLimiter.CountersGrow` | django/apps/users/cache.py:167-176 | a failure raises each of its three counters by exactly one, whatever is stored |
| `LoginLimiter.SharedCounterIff` | django/apps/users/cache.py:164 | a pair of e-mail and address shares its counter with another pair if and only if one of the two holds a colon |
| `LoginOverlap.OverlapBound` | django/apps/users/views.py:124-141 | in every interleaving of checks, counts, logins and waiting, a counter of any of the three kinds stays within k - 1 of its limit when at most k of its requests are between check and count |
| `LoginOverlap.BoundIsReached` | django/apps/users/views.py:124-141 | for each kind of counter that bound is reached: 19 + k, 4 + k and 49 + k |
| `LoginOverlap.LimitIff` | django/apps/users/cache.py:143-159 | so each limit holds in all runs with at most k overlapping requests of its counter if and only if k is at most 1 |
| `PushRouter.SplitThenJoin` | lambdas/lambda-push-router/handler.py:35 | a sort key splits if and only if it has a '#', and the two parts join to it again |
| `PushRouter.JoinThenSplitIff` | lambdas/lambda-push-router/handler.py:35 | user and device survive the round trip if and only if the user id has no '#' |
| `PushRouter.SelectKeepsExactly` | lambdas/lambda-push-router/handler.py:19-31 | exactly the active rows of engineers, admins and owners are selected |
| `PushRouter.MessageNamesItsRow` | lambdas/lambda-push-router/handler.py:86-99 | a message carries its event's incident, its row's device token, platform or "unknown" and provider or "fcm", and the dispatcher's key for it is the key of that row |
| `PushRouter.BatchesPartition` | lambdas/lambda-push-router/handler.py:101-112 | the batches hold all messages once in order, ten each but for the last, with the digits as ids |
| `PushRouter.SuccessCoversSelection` | lambdas/lambda-push-router/handler.py:69-118 | a record not reported failed has queued one message per selected row of all pages, naming that row, in good batches |
| `PushRouter.RoutedFailsIff` | lambdas/lambda-push-router/handler.py:69-118 | a record fails if and only if it is unreadable, a selected row has a key without a hash, or SQS accepts too few batches; then it has queued the first ten messages per accepted batch, or nothing |
| `PushRouter.FailedIff` | lambdas/lambda-push-router/handler.py:66-118 | with distinct message ids, an id is reported if and only if its record failed |
| `PushRouter.Router.GetActiveTokensForTenant` | lambdas/lambda-push-router/handler.py:16-31 | the paging loop collects the selection over all pages, none lost or repeated at a page boundary |
| `PushRouter.Router.FormatTokens` | lambdas/lambda-push-router/handler.py:33-44 | one message per row, or failure of the whole record when one key has no '#' |
| `PushRouter.Router.Handler` | lambdas/lambda-push-router/handler.py:66-118 | queue and reported failures after an invocation are those of its records in order, also when SQS refuses a send half-way; with distinct message ids an id is reported if and only if its record must fail |
| `PushDispatch.Dispatcher.CheckAndReserveDelivery` | lambdas/lambda-push-dispatch/handler.py:168-188 | a missing row is written unless the put fails; the answer is True if and only if it was missing and this put's own success was heard of; another error raises |
| `PushDispatch.FinalStatusHasItsCall` | lambdas/lambda-push-dispatch/handler.py:190-211 | in every schedule of redeliveries, crashes and interleaved invocations, a log entry that is no longer pending has had exactly one provider call, and each delivery in progress belongs to one worker |
| `PushDispatch.DeactivationHasItsLog` | lambdas/lambda-push-dispatch/handler.py:213-225 | in every such schedule a token row changes only when a rejection of a message for exactly that row has been logged |
| `PushDispatch.Dispatcher.SendApns` | lambdas/lambda-push-dispatch/handler.py:122-164 | raises exactly when no key is cached yet, and then neither sends nor loads it |
| `PushDispatch.Dispatcher.Handler` | lambdas/lambda-push-dispatch/handler.py:229-298 | tables and reported failures of an invocation, record by record; with distinct message ids an id is reported if and only if its body is unreadable, its put failed, or it was new at its turn and its request stopped, raised, was refused, was rejected with the row left unmarked, or was for APNs without a key; the APNs key is never loaded |
| `PushDispatch.ReportedIff` | lambdas/lambda-push-dispatch/handler.py:229-298 | the law behind that: the reports are exactly the records to be reported |
| `PushDispatch.ReportsInOrder` | lambdas/lambda-push-dispatch/handler.py:232-298 | reports come in record order, each record at most once |
| `PushDispatch.StatusIs` | lambdas/lambda-push-dispatch/handler.py:256-291 | a record new at its turn whose put did not fail ends as sent if and only if the provider was asked and delivered, token_invalid if it rejected the token, failed if it refused, and otherwise stays pending |
| `PushDispatch.DeactivatedIff` | lambdas/lambda-push-dispatch/handler.py:281-283 | a token row ends inactive if a record new at its turn for an asked provider finds the token invalid and names that row, and stays as it was if no record does |
| `PushDispatch.CalledIff` | lambdas/lambda-push-dispatch/handler.py:244-254 | a key has had a provider call if and only if it had one before or a record of that key was new at its turn, its provider can be asked, and nothing stopped it before the request |
| `PushDispatch.CalledAtMostOnce` | lambdas/lambda-push-dispatch/handler.py:168-254 | under any redelivery, interleaving and crash the provider is called at most once per event and token |
| `PushDispatch.ApplyKeepsReservations` | lambdas/lambda-push-dispatch/handler.py:244-254 | every step keeps each reservation with one worker, its call still to come |
| `PushDispatch.RedeliveryIsSkippedIff` | lambdas/lambda-push-dispatch/handler.py:185-188 | a message processed once is skipped from then on if and only if its reservation was there or this pass did not fail to write it |
| `PushDispatch.OnlyFcmIsCalled` | lambdas/lambda-push-dispatch/handler.py:122-123 | from a cold start, in any mix of records, every request that leaves the lambda is for an FCM record of the queue and only rows of FCM records are deactivated |
| `PushDispatch.InvalidTokenDeactivatesItsRow` | lambdas/lambda-push-dispatch/handler.py:281-283 | a rejected token deactivates the very row the router read, no other |
| `PushDispatch.FanOutReachesAllIff` | lambdas/lambda-push-dispatch/handler.py:168-251 | every FCM device of a new event gets its own call if and only if every reservation is written and heard of, nothing raises between it and the request, and no two rows share a device id |
| `PushDispatch.RoutedFanOutReachesAllIff` | lambdas/lambda-push-router/handler.py:66-118 | end to end: for rows with provider fcm or none, whatever the platform, the router's messages make every row's device called if and only if every reservation is written and heard of, nothing raises before the request, and no two rows share a device id |
| `PlaybookProjection.Playbook.Save` | django/apps/playbooks/models.py:34-45 | an update moves the stored version on by exactly one however stale the instance, fails if and only if the row is gone |
| `PlaybookProjection.VectorRepository.UpsertPlaybookEmbedding` | fastapi/app/repositories/playbook_vector_repository.py:20-43 | a stored row with the same or a higher version stays, otherwise the new one is stored; no other playbook changes |
| `PlaybookProjection.ScheduleInvariants` | django/apps/playbooks/views.py:110-161 | locks, versions, events, embeddings and cache stay consistent in every interleaving of writers and tasks |
| `PlaybookProjection.CommitKeepsConsecutive` | django/apps/playbooks/views.py:153-161 | committing a row with the event of its next version keeps every playbook's versions consecutive |
| `PlaybookProjection.VersionsAreConsecutive` | django/apps/playbooks/views.py:153-161 | in every interleaving the events of a playbook carry versions 1, 2, 3, …, the last one the row as it stands |
| `PlaybookProjection.TaskKeepsProcessed` | fastapi/app/worker/tasks/embed_playbook.py:77-111 | skipping on the cached version never loses an event |
| `PlaybookProjection.EmbeddingIsHighestProcessed` | fastapi/app/worker/tasks/embed_playbook.py:77-111 | the embedding stems from the highest version processed so far, in any order and multiplicity of delivery |
| `PlaybookProjection.ConvergedIff` | fastapi/app/repositories/playbook_vector_repository.py:28-33 | the embedding is that of the current row if and only if the event of that row has been processed, whatever else has and in whatever order |
| `PlaybookProjection.EmbeddingConverges` | fastapi/app/worker/tasks/embed_playbook.py:77-111 | so it is once each event of the playbook has been processed |
| `EsBreaker.ElasticsearchCircuitBreaker.Begin` | fastapi/app/services/circuit_breaker.py:98-107 | the first critical section: refused exactly while OPEN and the interval has not passed, otherwise OPEN turns HALF_OPEN |
| `EsBreaker.ElasticsearchCircuitBreaker.EndSuccess` | fastapi/app/services/circuit_breaker.py:116-122 | clears the count, and closes only from HALF_OPEN |
| `EsBreaker.ElasticsearchCircuitBreaker.EndFailure` | fastapi/app/services/circuit_breaker.py:131-141 | counts, stamps, and opens at the threshold from any state |
| `EsBreaker.CounterIsConsecutiveFailures` | fastapi/app/services/circuit_breaker.py:117-136 | for any overlap of calls the counter is the number of failures since the last success, below the threshold while CLOSED |
| `EsBreaker.LastFailureIsLatest` | fastapi/app/services/circuit_breaker.py:131-133 | once a call has failed there is a recorded time, no earlier than any failure |
| `EsBreaker.NoEarlyProbe` | fastapi/app/services/circuit_breaker.py:99-107 | no call starts from OPEN before the interval has passed since every recorded failure |
| `EsBreaker.FailedProbeReopensIff` | fastapi/app/services/circuit_breaker.py:131-136 | in any overlap a failed probe reopens if and only if it completes a full series of failures |
| `EsBreaker.LateSuccessDisarmsProbe` | fastapi/app/services/circuit_breaker.py:67 | a run in which a failed probe does not reopen |
| `EsBreaker.HalfOpenAdmitsAll` | fastapi/app/services/circuit_breaker.py:98-107 | whoever begins in HALF_OPEN is admitted and becomes one more probe |
| `EsBreaker.ProbesAreRunning` | fastapi/app/services/circuit_breaker.py:98-137 | the probes in flight are exactly the calls that began outside CLOSED and have not ended |
| `EsBreaker.OneProbeIff` | fastapi/app/services/circuit_breaker.py:67 | there is never more than one probe if and only if no other call begins outside CLOSED between a probe's begin and its end |
| `EsBreaker.TwoProbesCanRun` | fastapi/app/services/circuit_breaker.py:67 | a run with two probes in flight |
| `EsBreaker.SerialCallsRefineDocumented` | fastapi/app/services/circuit_breaker.py:64-67 | for calls one after another the breaker is the documented machine |
| `StackFrames.ParseStringFrames` | fastapi/app/schemas/incidents.py:193-215 | one frame per stored entry in order: structured ones untouched, printed ones read field by field |
| `StackFrames.MissingFieldsDefault` | fastapi/app/schemas/incidents.py:200-212 | a field whose name and separator occur nowhere reads as unknown, line as 0 and module as absent |
| `StackFrames.PrintedFrameRoundTrip` | fastapi/app/schemas/incidents.py:200-212 | a printed frame with plain names, any line and any further fields reads back unchanged if and only if no name is empty, the file holds nothing that reads as another line, and neither file nor method ends in the lead of a later field (or the text read by mistake equals the right one) |
| `StackFrames.NoEqualsNoMistake` | fastapi/app/schemas/incidents.py:201-204 | names without '=' always meet that condition |
| `StackFrames.SkipQuote` | fastapi/app/schemas/incidents.py:201-204 | text without quotes hides a quoted field if and only if it ends in the field's lead and something quoted follows |
| `StackFrames.SkipNumber` | fastapi/app/schemas/incidents.py:202 | a number is found before a quote if and only if the text before it holds one, otherwise after |
| `Strings.ParsePrinted` | fastapi/app/schemas/incidents.py:208 | parsing a printed natural number gives it back |

## Left out

- Real Redis, PostgreSQL, DynamoDB, SQS, S3, Elasticsearch, Kafka and Debezium: maps, sequences and guarded steps with the primitive used.
- SHA-256, JWT, provider credentials and other library cryptography.
- Agent nodes, the LangGraph workflow and language-model calls, apart from how the analyzer reports to the breaker.
- Metrics, logging, WebSockets, e-mail, admin pages, serializers that only check fields, URL tables.
- `get_state`, `get_filter_options`, `count_volume`, playbook search and other reads without a protocol behind them.
- The context manager `dedup_lock`, the same acquire and release in another shape.
- A Redis error while an operator resets the breaker, which raises to the operator.
- AgentBreaker.CircuitBreaker.RecordSuccess: Redis errors, which it swallows, are actions of `AgentBreakerSteps` rather than of the atomic call.
- AgentBreaker.CircuitBreaker.RecordFailure: likewise.
- AgentBreaker.CircuitBreaker.CanExecute: Redis errors, on which it answers True, are actions of `AgentBreakerSteps` rather than of the atomic call.
- DedupProtocol.OccurrencesMatchEvents: the inserted row has a fixed severity and the step omits analyses and deliveries, which play no part in the protocol and are covered by `Incidents.IncidentService.PersistNewIncident`; a row deleted meanwhile has no count to compare.
- Incidents.IncidentService.PersistNewIncident: texts, token usage, per-node results and timestamps of the inserted rows are not modelled, and delivery ids are positions.
- Incidents.IncidentService.RecordDuplicateOccurrence: `last_seen_at` and `updated_at` are not modelled.
- LogPaging.WalkReturnsAllInitial: documents are only added during a walk, not changed or removed, and a time window is evaluated at one moment, as relative windows that move during a walk do lose documents.
- LogQuery.QueryMeansFilters: Elasticsearch's `ignore_above` and analysers are not modelled; fields are whole strings.
- LoginLimiter.CountersNeverPassLimits: check and increment of one request are one step; overlapping requests are the subject of `LoginOverlap`, with a larger bound.
- LoginLimiter.CacheManager.IncrementLoginFailure: a crash between INCR and EXPIRE, which leaves a counter without expiry, is not modelled.
- LoginLimiter.CacheManager.IsLoginBlocked: the texts of the reasons are a datatype, and extraction of the client address is left out.
- PushRouter.Router.Handler: entries that SQS refuses inside an accepted batch are not modelled; the source does not look at them either.
- PushDispatch.Dispatcher.Handler: expiry of log rows, `sent_at`, provider message ids and failure reasons are not modelled; a provider timeout counts as refused, and a record that lacks a field read before the reservation counts as unreadable.
- PushDispatch.FinalStatusHasItsCall: a ValueError while an APNs token is signed would log a failure without a call, but needs the key that is never loaded.
- LoginOverlap.OverlapBound: the three GETs of one check are one action, and so are the INCRs of one count.
- PlaybookProjection.ConvergedIff: playbooks are never deleted, for the reason in the next line.
- PlaybookProjection.EmbeddingConverges: playbooks are never deleted, because no tombstone is kept and a late upsert would bring the embedding back.
- PlaybookProjection.EmbeddingIsHighestProcessed: an embedding is identified with the row it was computed from.
- StackFrames.PrintedFrameRoundTrip: names with quotes, backslashes or non-printable characters, which Python prints differently, are outside the lemma.
