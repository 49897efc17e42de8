# Protocols and arithmetic of meshcart

A Dafny 4.11 model of five components of the meshcart services, with proofs of what they guarantee over whole runs and of
the exact conditions where a promise depends on its surroundings. `dafny verify dfyconfig.toml` checks everything.

**Transactional outbox** (`outbox_*.dfy`). `OutboxTable` holds the rows and the `GormStore` methods, `OutboxText` the cutting
of error messages, `OutboxDispatcher` the claim/publish/mark loop as a method proved equal to the function `Round`,
`OutboxProtocol` any number of dispatchers over one table as a step system (claims and marks that report an error with or
without effect, marks whose effect lands later, dispatchers that die), `OutboxGuarantees` the theorems over all its runs and
`OutboxContent` those about what the messages carry from insert to publish. `RunOnceIsARun` ties the loop to the steps.

**Refresh-token sessions** (`session_*.dfy`). `SessionSpec` is the atomic store on maps with its single-use and chaining
theorems, `SessionMemory` the in-memory store on heap objects with cloning, proved against it, and `SessionRedis` the
WATCH/GET/EXEC interleavings of many clients with expiry, proved to refine it step by step. `SessionHistory` tells from the
operations of a run alone what a session holds and when it is live, `SessionExpiry` how long a key lives, where an answer
comes from and what undisturbed clients get, and `SessionClients` what a single client makes of the interleavings: a
rotation refused at its EXEC, a lookup of two GETs.

**Rate limiter** (`ratelimit_*.dfy`). `RateLimitSpec` is the bucket arithmetic over reals, `RateLimitStore` the classes that
update buckets in place, `RateLimitGuarantees` the simulation between the evicting store and one that never evicts,
`RateLimitRate` what a client that waits and one that keeps asking are admitted. The other modules give exact conditions: `RateLimitExact` for eviction to be invisible, `RateLimitAdmission` for the admission
bound, `RateLimitDenied` and `RateLimitMixed` for denied calls to cost nothing and `RateLimitKeys` for one key not to notice
the calls on others.

**Thrift codec** (`thrift_*.dfy`). `ThriftWire` defines values on the wire, their encoding and the primitive reads from the
Apache Thrift binary protocol specification, sections "Integer encoding", "String encoding", "Struct" and "List and Set".
`ThriftBytes` states integers and field headers byte by byte, and `ThriftSkip` what the skipping of unknown values accepts.
`ThriftStruct` is the read loop of every generated struct, parametric in its switch, with the meaning of a field sequence
as a fold. `ThriftRecords` gives each record its fields in writing order and its switch; `ThriftRoundTrip` and
`ThriftArrangement` hold the round trips and the order and extension results, `ThriftNested` those for a whole response
rearranged at every level and `ThriftTruncated` those for messages cut short. `ThriftSchema` says which field stands under
which id, for writers and readers, in literal ids and type codes; it finds fields with header reads and skips alone.
`ThriftFastWrite` states it of a filled buffer. `ThriftBuffer`, `ThriftBase`, `ThriftOrder`,
`ThriftMessages`, `ThriftCloseExpired` and `ThriftConfirm` are the generated code itself: classes whose readers assign their
fields, writers that fill a caller's array and patch list headers in afterwards, and size computations, each proved
against the encoding. Readers carry a ghost parameter that stands for their own switch; it only keeps the switch folded.

**Product-create saga** (`saga_*.dfy`). `SagaSpec` gives the effect of every remote call on the rows of both participants,
`SagaWorkflow` their methods, the loops that build the calls and the workflow function with its captured variables,
`SagaProtocol` the workflow under an executor that keeps branch results, replays after a crash and rolls back in reverse,
`SagaGuarantees` the all-or-nothing theorem under safe executors and `SagaExact` its exact condition for every request.
`SagaOnline` is the law of the states in between: a product is online only while its stocks are in.

What the proofs show beyond the promises:

- A row whose headers do not parse and that has the smallest claimable id makes every claim fail (`MalformedHeadBlocks`).
- Saving a session again under another refresh hash leaves the old hash usable (`ResavedSessionKeepsItsOldHash`); the index
  stays right exactly under the guard `Safe`.
- The outbox columns keep whole seconds: two claims of a message are a whole backoff apart in every run exactly when the end
  of the backoff is not rounded down, and otherwise up to half a second less (`FullBackoffExactly`, `Backoff`).
- A Redis rotation refused at its EXEC is one the atomic store would have refused at that instant, provided clients present
  only hashes they were handed (`FailedExecIsAtomic`, `EarlyHashConflicts`).
- A Redis deletion that races a rotation leaves the rotated-in refresh key behind (`DeleteLeavesTheNewHash`,
  `LeftoverKeyIsReachable`); it dangles but never resolves, to this session or another.
- Eviction is invisible, and every window admits at most burst plus rate times its length, exactly when every bucket refills
  completely in the TTL plus one nanosecond. The same condition, key by key, decides whether the calls on other keys can
  change a decision, unless the store cleans up at every new instant. A denied call may cost something because it postpones
  the eviction of its entry, or takes a cleanup that would have come later; rules that earn a token every nanosecond are
  exempt from the first, and a cleanup at every new instant from the second (`RateLimitMixed.CostNothingExactly`).
- A list whose element type on the wire is wrong is not skipped but read as if it were right (`ElementTypeIsNotRead`,
  `BytesReadAsItems`). At field level a reader skips exactly the fields whose type is not the expected one
  (`BaseSkipsExactly` to `ConfirmSkipsExactly`).
- The saga is all or nothing in every run exactly when the executor observes what the request calls for (`SafeFor`): if the
  product can be created, the failing branch is compensated wherever a creation may take effect unnoticed; if its stocks can
  be taken too, no stock initialisation takes effect unnoticed; if the whole saga can succeed, failures are kept. The
  documented rule to skip the rollback of a branch that was not seen to succeed is what leaves stocks behind when the answer
  of the initialisation is lost.
- The product is online only while its stocks are in, at every moment of every run, exactly when the executor keeps failures
  and, where a publish may take effect unnoticed, compensates the failing branch (`OnlineWithStocksExactly`); requests whose
  product can never come online are exempt.
- `Skip` takes n bytes exactly where they are the encoding of a well-formed value of the type (`SkipsExactly`).

## Model

| member | source | states |
|---|---|---|
| OutboxTable.AsStored | services/order-service/migrations/000008_create_order_outbox.up.sql:12 | a column keeps the whole second nearest to the time asked for, half seconds going up |
| OutboxTable.SmallestIsTheQuery | app/mq/gorm_store.go:41-49 | the claim query yields the smallest claimable ids in ascending order, no others, and falls short of the limit only when nothing claimable is left |
| OutboxTable.Selected | app/mq/gorm_store.go:41-49 | every selected row is pending or failed, below its retry bound, due and unlocked; ids ascend |
| OutboxTable.SelectedExactly | app/mq/gorm_store.go:41-49 | the claim takes rows that are pending or failed, below their retry bound, due and unlocked, by ascending id and within the limit; a row it could take and does not has a full batch of smaller ids before it |
| OutboxTable.GormStore.BuildMessages | app/mq/gorm_store.go:57-78 | one message per selected row in order with the row's payload, headers (empty for none), retry count and bound, or a stop because some row's headers do not parse |
| OutboxTable.GormStore.ClaimPending | app/mq/gorm_store.go:22-89 | the messages field by field against the rows; the whole new table: selected rows get status publishing, no last error and no retry time and keep everything else, all together or not at all; an error with or without effect; roll back on malformed headers |
| OutboxTable.GormStore.MarkPublished | app/mq/gorm_store.go:91-100 | the new table after a mark, times rounded as stored, including dropped and late-reported writes and non-positive ids |
| OutboxTable.GormStore.MarkFailed | app/mq/gorm_store.go:102-112 | the same for a failure with its retry count, next time and error |
| OutboxTable.ClaimConserves | app/mq/gorm_store.go:41-86 | a claim sets status, last error and retry time of exactly the selected rows and nothing else, makes them unclaimable at any later time, and passes over a claimable row only for a full batch of smaller ids |
| OutboxTable.MalformedHeadBlocks | app/mq/gorm_store.go:57-66 | a malformed row at the head of the queue makes every claim fail |
| OutboxText.TruncateErrorKeepsTheCore | app/mq/dispatcher.go:74-83 | the recorded error is the message without the white space around it, cut off after 255 bytes |
| OutboxDispatcher.Dispatcher.constructor | app/mq/dispatcher.go:28-42 | non-positive batch sizes become 100, non-positive backoffs five seconds, so both are positive |
| OutboxDispatcher.Dispatcher.MarkOutcome | app/mq/dispatcher.go:56-68 | the mark that answers one publish, and whether it reports an error |
| OutboxDispatcher.Dispatcher.RunOnce | app/mq/dispatcher.go:44-72 | the loop with its early returns computes exactly the round: final table, count and error; it calls the publisher once per processed message, in order, with topic, event key, body and headers of the claimed row |
| OutboxDispatcher.WorkSettlesAPrefix | app/mq/dispatcher.go:55-71 | every message of a batch meets its fate: settled before the failing mark, settled or untouched at it, untouched and still publishing behind it; other rows do not change |
| OutboxDispatcher.RoundSettlesItsBatch | app/mq/dispatcher.go:44-72 | a round without error settles exactly what it claimed and returns the batch length; a claim that reports an error ends the round with nothing processed and its rows untouched or, where it took effect, claimed |
| OutboxProtocol.StepInv | app/mq/dispatcher.go:44-72 | every step of every dispatcher keeps the global invariant on rows, held messages, late writes and the log |
| OutboxProtocol.RunInv | app/mq/dispatcher.go:44-72 | the invariant holds after every run |
| OutboxGuarantees.AtMostOneAcknowledgement | app/mq/dispatcher.go:56-69 | in every run at most one publish of an id succeeds, and an acknowledged row is never claimable again |
| OutboxGuarantees.RetryBound | app/mq/gorm_store.go:44-46 | publish calls of an id and its retry count never exceed max_retries |
| OutboxGuarantees.Ownership | app/mq/dispatcher.go:50-68 | a held message has row status publishing and the row's retry count, and nobody else holds it |
| OutboxGuarantees.Backoff | app/mq/dispatcher.go:56-60 | a claim of an id waits for the stored end of every earlier claimer's backoff, so two effective claims are at least the first one's backoff less half a second apart |
| OutboxGuarantees.RoundedDownIsEarly | app/mq/gorm_store.go:102-112 | a backoff whose end is rounded down has a run in which the row is claimed again too early |
| OutboxGuarantees.FullBackoffExactly | app/mq/dispatcher.go:56-60 | claims of an id are the claimer's whole backoff apart in every run if and only if the end of the backoff is not rounded down |
| OutboxGuarantees.StepLightens | app/mq/gorm_store.go:80-112 | every step that changes a row strictly lowers the total weight of the table |
| OutboxGuarantees.Quiescence | app/mq/gorm_store.go:80-112 | without inserts the number of effective claims and marks is bounded by that weight |
| OutboxGuarantees.RoundIsARun | app/mq/dispatcher.go:55-71 | the publish and mark steps of a round lead to the table the loop computes |
| OutboxGuarantees.RunOnceIsARun | app/mq/dispatcher.go:44-72 | so every RunOnce is a run of the step system |
| OutboxContent.EveryTryPublishesTheInsert | app/mq/gorm_store.go:57-83 | in every run, whatever is about to be published for an inserted row, by any dispatcher at any try, carries the payload, headers and retry bound it was inserted with |
| OutboxContent.EveryTryPublishesTheRow | app/mq/gorm_store.go:57-83 | the same for the rows a run starts with |
| OutboxContent.RetryPublishesTheSame | app/mq/dispatcher.go:55-68 | any two publishes of one id in a run hand over the same payload and headers |
| OutboxContent.EveryRetryIsUsed | app/mq/gorm_store.go:44-46 | the bound on publishes is reached: some run publishes a message max_retries times |
| SessionSpec.AgreementKeptExactly | gateway/internal/auth/session_store.go:223-299 | an operation keeps index and sessions in agreement if and only if it is safe, a check on its arguments and the state before it |
| SessionSpec.ResavedSessionKeepsItsOldHash | gateway/internal/auth/session_store.go:223-235 | saving again under a new hash leaves the old hash resolving to the session |
| SessionSpec.LookupIsAScan | gateway/internal/auth/session_store.go:258-271 | under agreement a lookup by hash finds exactly the session that carries it |
| SessionSpec.IndexAgreesAfterAnyRun | gateway/internal/auth/session_store.go:223-299 | index and sessions agree after every run of safe operations |
| SessionSpec.HashesHaveOneOrigin | gateway/internal/auth/session_store.go:273-299 | with fresh hashes no two sessions ever share one |
| SessionSpec.SpentAtOnce | gateway/internal/auth/session_store.go:273-299 | a successful rotation takes its current hash out of every session |
| SessionSpec.SpentHashNeverReturns | gateway/internal/auth/session_store.go:273-299 | and no later operation brings it back |
| SessionSpec.SingleUse | gateway/internal/auth/session_store.go:273-299 | no hash is the current hash of two successful rotations of a run |
| SessionSpec.HashStaysUntilDisturbed | gateway/internal/auth/session_store.go:273-299 | a session keeps its hash until it is saved or rotated |
| SessionSpec.RotationsChain | gateway/internal/auth/session_store.go:273-299 | successive rotations of a session present the hash the previous one issued |
| SessionSpec.DeletedStaysDeleted | gateway/internal/auth/session_store.go:248-256 | a deleted session returns only by a new save |
| SessionHistory.SessionIsItsHistory | gateway/internal/auth/session_store.go:223-299 | after any run a live session's hash, expiry and update time are those of its last save or successful rotation, its user name and role the last ones given (empty ones of a rotation not counting), everything else that of its last save |
| SessionHistory.LiveFromSaveToRemoval | gateway/internal/auth/session_store.go:223-256 | a session is live if and only if its last save was not followed by a deletion or expiry |
| SessionMemory.MemorySessionStore.constructor | gateway/internal/auth/session_store.go:216-221 | the store starts empty |
| SessionMemory.MemorySessionStore.Save | gateway/internal/auth/session_store.go:223-235 | a clone is stored and indexed under its hash unless that is empty, nothing else changes; nil is refused without effect |
| SessionMemory.MemorySessionStore.Get | gateway/internal/auth/session_store.go:237-246 | the answer is a fresh clone of what is stored |
| SessionMemory.MemorySessionStore.GetByRefreshTokenHash | gateway/internal/auth/session_store.go:258-271 | a session is found if and only if the index has the hash and the store the id; the answer is a fresh clone of it |
| SessionMemory.MemorySessionStore.Rotate | gateway/internal/auth/session_store.go:273-299 | in-place update of the stored object: succeeds exactly for a live session with the presented hash; then new hash, expiry and update time are the ones given, name and role unless empty, all other fields as before; not found and conflict change nothing |
| SessionMemory.MemorySessionStore.Delete | gateway/internal/auth/session_store.go:248-256 | the session goes, and the index entry of its hash unless that is empty; nothing else changes |
| SessionMemory.Play | gateway/internal/auth/session_store.go:216-299 | after any sequence of calls the heap store holds what the specification holds and the same rotations have succeeded; safe calls keep sessions and index in agreement, and of two rotations from one fresh hash at most one succeeds |
| SessionMemory.OverwriteOwnObject | gateway/internal/auth/session_store.go:223-246 | mutating a saved or returned object never changes the store |
| SessionRedis.StepInv | gateway/internal/auth/session_store.go:75-200 | every step of every client, and expiry, keeps the invariant on sessions, refresh keys, pending rotations and the log |
| SessionRedis.RunInv | gateway/internal/auth/session_store.go:75-200 | and so does every run |
| SessionRedis.EveryStepIsAtomic | gateway/internal/auth/session_store.go:121-200 | each step is one atomic operation of the specification or invisible |
| SessionRedis.SuccessfulRotateIsAtomic | gateway/internal/auth/session_store.go:121-182 | an EXEC that goes through is the atomic rotation at that instant, on sessions and index: the stored session gets the given hash, times and nonempty names, both keys the new ttl, and nothing else changes |
| SessionRedis.RefusedRotateIsAtomic | gateway/internal/auth/session_store.go:127-160 | a rotation that stops at its GET answers what the specification answers, except that an expired target is a conflict |
| SessionRedis.DeleteLeavesTheNewHash | gateway/internal/auth/session_store.go:184-200 | a deletion is atomic on the sessions; on the index exactly when the hash it read is still current |
| SessionRedis.LeftoverKeyIsReachable | gateway/internal/auth/session_store.go:184-200 | the run that leaves such a key: a client reads the hash, another rotates, the first deletes |
| SessionRedis.Reachable | gateway/internal/auth/session_store.go:75-200 | every state reached from the empty store satisfies the invariant |
| SessionRedis.AtMostOneRotationPerHash | gateway/internal/auth/session_store.go:121-182 | of all rotations from one current hash at most one succeeds, in every interleaving |
| SessionRedis.ForwardIndex | gateway/internal/auth/session_store.go:75-93 | a live session's refresh key exists, points back and expires with it |
| SessionRedis.StepCurrent | gateway/internal/auth/session_store.go:75-200 | every step keeps each refresh key of a live session its current hash |
| SessionRedis.NeverSomebodyElsesSession | gateway/internal/auth/session_store.go:110-119 | a refresh key, live or dangling, leads only to the session its hash was issued for; where that session is live it is its current hash |
| SessionRedis.LookupFindsTheCarrier | gateway/internal/auth/session_store.go:110-119 | in every reachable state a lookup by hash finds a session if and only if it is live and carries the hash |
| SessionRedis.SpentHashNeverResolves | gateway/internal/auth/session_store.go:110-182 | a hash that a rotation has replaced resolves to nothing in every later state |
| SessionRedis.NoRotationAfterDelete | gateway/internal/auth/session_store.go:121-200 | once a deletion has executed no rotation recreates the session |
| SessionExpiry.SavedForItsTtl | gateway/internal/auth/session_store.go:77-95 | a saved session that nobody writes is live, as saved, if and only if less than its ttl has passed |
| SessionExpiry.RotatedForItsTtl | gateway/internal/auth/session_store.go:152-167 | a rotated session that nobody writes is live, with its new hash, if and only if less than the ttl of the rotation has passed |
| SessionExpiry.KeyForItsTtl | gateway/internal/auth/session_store.go:89-93 | a refresh key that nobody writes lives exactly until its expiry, whether or not its session does |
| SessionExpiry.NothingOverdue | gateway/internal/auth/session_store.go:77-200 | in a reachable state every stored key expires in the future |
| SessionExpiry.EveryAnswerIsStored | gateway/internal/auth/session_store.go:97-119 | every answer of a run was given at a second GET, with the session stored at that moment under the id the first GET read |
| SessionExpiry.UndisturbedLookup | gateway/internal/auth/session_store.go:110-119 | two GETs with nothing in between answer exactly what the atomic lookup finds |
| SessionExpiry.UndisturbedRotation | gateway/internal/auth/session_store.go:121-182 | a rotation with nothing in between reaches its EXEC if and only if the session is live and carries the presented hash, and then has the effect of the atomic one |
| SessionExpiry.UndisturbedDelete | gateway/internal/auth/session_store.go:184-200 | a deletion with nothing in between removes the session and its refresh key |
| SessionClients.StepPresents | gateway/internal/auth/session_store.go:121-182 | every step keeps: a pending rotation whose watched keys were written no longer finds its hash on the session, if it began with a hash that had been handed out |
| SessionClients.FailedExecIsAtomic | gateway/internal/auth/session_store.go:121-182 | a rotation refused at its EXEC is one the atomic store would refuse at that instant, and it changes nothing |
| SessionClients.EarlyHashConflicts | gateway/internal/auth/session_store.go:121-182 | a client that presents a hash before it was handed out can be refused where the atomic store would rotate |
| SessionClients.TwoGetsAnswerForTheFirst | gateway/internal/auth/session_store.go:110-119 | a session that the two GETs find was live and carried the hash at the first of them |
| SessionClients.LookupAfterRotationFails | gateway/internal/auth/session_store.go:110-119 | a lookup whose first GET follows the rotation of its hash never finds a session, whatever happens in between |
| RateLimitSpec.AllowedExactly | gateway/internal/middleware/ratelimit.go:181-200 | a call is admitted if and only if the capacity is at least one token and tokens plus rate times elapsed nanoseconds over 10^9 make one; what is left is that amount, capped, less the token taken |
| RateLimitSpec.GainInBillionths | gateway/internal/middleware/ratelimit.go:185-188 | the refill over d nanoseconds is rate times d over 10^9 |
| RateLimitSpec.AllowKeepsBucketOk | gateway/internal/middleware/ratelimit.go:181-200 | 0 <= tokens <= capacity, even when the clock goes back |
| RateLimitSpec.RefillComposes | gateway/internal/middleware/ratelimit.go:185-193 | capped refill in two steps is refill in one |
| RateLimitSpec.AdmissionBudget | gateway/internal/middleware/ratelimit.go:181-200 | admitted calls plus tokens left never exceed tokens at the start plus rate times the growth of lastRefill |
| RateLimitSpec.AdmissionBound | gateway/internal/middleware/ratelimit.go:172-200 | a bucket admits at most burst plus rate times the window in seconds, in any order of clock readings |
| RateLimitStore.TokenBucket.Allow | gateway/internal/middleware/ratelimit.go:181-200 | the in-place update and the decision: a token is there if tokens plus rate times elapsed nanoseconds over 10^9 make one |
| RateLimitStore.RateLimitStore.CleanupExpired | gateway/internal/middleware/ratelimit.go:156-170 | the deleting loop removes exactly the entries idle longer than the TTL, in any order of keys, and only when due |
| RateLimitStore.RateLimitStore.EntryFor | gateway/internal/middleware/ratelimit.go:135-152 | find or create the entry and stamp it |
| RateLimitStore.RateLimitStore.Create | gateway/internal/middleware/ratelimit.go:143-150 | a new key gets a full bucket of its own; other entries stay |
| RateLimitStore.RateLimitStore.Allow | gateway/internal/middleware/ratelimit.go:135-154 | decision and whole new store state of a call, whose entry is stamped with its time |
| RateLimitGuarantees.Simulation | gateway/internal/middleware/ratelimit.go:135-200 | an evicting store that sees only some calls, among them all admitted ones, decides like a never-evicting store that sees all |
| RateLimitGuarantees.EvictionIsInvisible | gateway/internal/middleware/ratelimit.go:135-170 | eviction never changes a decision when buckets refill before they are evicted |
| RateLimitGuarantees.DeniedCallsCostNothing | gateway/internal/middleware/ratelimit.go:135-200 | where buckets refill before they are evicted, leaving out any denied calls changes no other decision |
| RateLimitExact.SlowRefillShowsEviction | gateway/internal/middleware/ratelimit.go:156-170 | a rule that refills too slowly has a call sequence that tells the stores apart |
| RateLimitExact.EvictionInvisibleExactly | gateway/internal/middleware/ratelimit.go:135-200 | for configured rules eviction is invisible if and only if every rule refills its burst in the TTL plus one nanosecond |
| RateLimitAdmission.AdmittedFromOwnBucket | gateway/internal/middleware/ratelimit.go:143-153 | in a store that never evicts, the calls admitted on a key are those its own bucket admits at the key's own times |
| RateLimitAdmission.StoreAdmissionBound | gateway/internal/middleware/ratelimit.go:135-200 | where buckets refill before they are evicted, every window admits per key at most burst plus rate times its length, whatever came before |
| RateLimitAdmission.SlowRefillBreaksTheBound | gateway/internal/middleware/ratelimit.go:156-170 | a rule that refills too slowly has a run with a window that admits more: two full bursts either side of an eviction |
| RateLimitAdmission.AdmissionBoundExactly | gateway/internal/middleware/ratelimit.go:135-200 | for configured rules the bound holds in every window of every run if and only if every rule refills its burst in the TTL plus one nanosecond |
| RateLimitDenied.DeniedCallMatters | gateway/internal/middleware/ratelimit.go:145-170 | a rule that refills too slowly has a run in which one denied call changes a later decision: it stamps the entry, which is then not evicted |
| RateLimitDenied.FastRulesCostNothing | gateway/internal/middleware/ratelimit.go:135-200 | from one token per nanosecond on they cost nothing, whatever is evicted |
| RateLimitMixed.MixedRulesCostNothing | gateway/internal/middleware/ratelimit.go:135-200 | with a cleanup at every new instant they cost nothing if each rule is that fast or refills in time |
| RateLimitMixed.MixedRulesMatter | gateway/internal/middleware/ratelimit.go:156-170 | otherwise a denied call on a slow key can take the cleanup that would have evicted a fast one, and so change a decision |
| RateLimitMixed.CostNothingExactly | gateway/internal/middleware/ratelimit.go:135-200 | for all configured rules: denied calls cost nothing if and only if every rule refills in time, or every rule is fast, or each is one or the other and the cleanup interval is one nanosecond |
| RateLimitKeys.OtherKeyMatters | gateway/internal/middleware/ratelimit.go:156-170 | where a bucket refills too slowly, a call on another key can take the cleanup that would have evicted it, and so change a decision |
| RateLimitKeys.KeysAreIndependentExactly | gateway/internal/middleware/ratelimit.go:135-170 | for configured rules a key's decisions are those of its own calls alone if and only if its rule refills in time or the cleanup interval is one nanosecond |
| RateLimitRate.RefillsExactly | gateway/internal/middleware/ratelimit.go:156-188 | a bucket refills before eviction if and only if rate times the TTL and a nanosecond makes its burst, or nothing is ever evicted |
| RateLimitRate.WaitingIsNeverDenied | gateway/internal/middleware/ratelimit.go:135-200 | a client that waits one token's time between its calls is never denied, whatever other keys do and whatever is evicted |
| RateLimitRate.AskingLosesNothing | gateway/internal/middleware/ratelimit.go:181-200 | a client that keeps asking an emptied bucket loses nothing: admitted calls plus tokens left are exactly the tokens there plus the refill |
| RateLimitRate.AskingIsServed | gateway/internal/middleware/ratelimit.go:181-200 | such a client is admitted exactly as often as the time earned tokens, rounded down |
| ThriftWire.WordRoundTrip | kitex_gen/meshcart/order/k-order.go:541-546 | big-endian two's complement integers of any width read back |
| ThriftWire.SkipExact | kitex_gen/meshcart/order/k-order.go:681-687 | skipping a well-formed value of any type, however nested, consumes exactly its encoding |
| ThriftSkip.SkipsExactly | kitex_gen/meshcart/order/k-order.go:681-687 | `Skip` takes n bytes if and only if they are the encoding of a well-formed value of that type: unknown types, negative sizes and values cut short are refused, and nothing else |
| ThriftBytes.BigEndian | kitex_gen/meshcart/order/k-order.go:541-546 | byte k of an n-byte integer is its digit of weight 256^(n-1-k), two's complement |
| ThriftBytes.EveryWordIsRead | kitex_gen/meshcart/order/k-order.go:541-546 | any bytes are the encoding of the integer they are read as |
| ThriftBytes.FieldBytes | kitex_gen/meshcart/order/k-order.go:541-602 | type code, id and value bytes of a field of each type |
| ThriftBytes.HeadersRead | kitex_gen/meshcart/order/k-order.go:674-680 | integers, strings, list headers and field headers are read from exactly the bytes they stand in, and refused where the bytes are too few or a size is negative |
| ThriftStruct.ReadsField | kitex_gen/meshcart/order/k-order.go:674-861 | one turn of the loop carries the result of the whole read and the struct left behind; a field that fails leaves the struct as it was |
| ThriftStruct.ReadStructFields | kitex_gen/meshcart/order/k-order.go:667-868 | the read loop on any sequence of accepted fields computes their fold and consumes exactly their bytes |
| ThriftStruct.OrderInsensitive | kitex_gen/meshcart/order/k-order.go:674-861 | any permutation of fields with distinct ids means the same struct |
| ThriftStruct.ExtensionInsensitive | kitex_gen/meshcart/order/k-order.go:674-861 | inserting ignored fields anywhere changes nothing |
| ThriftStruct.ReadsAnyArrangement | kitex_gen/meshcart/order/k-order.go:674-861 | both at once, on bytes |
| ThriftSchema.BaseWrites | idl/base.thrift:3-6 | in the bytes written for a response header, whatever follows, a search by header reads and skips finds every field under its id in the schema, with its type and value |
| ThriftFastWrite.FastWriteBase | kitex_gen/meshcart/base/k-base.go:114-126 | so it is for what FastWrite leaves in the buffer for a response header; nil leaves a stop byte, bytes behind the end stay |
| ThriftSchema.ItemWrites | idl/order.thrift:11-21 | in the bytes written for an order item, whatever follows, a search by header reads and skips finds every field under its id in the schema, with its type and value |
| ThriftFastWrite.FastWriteItem | kitex_gen/meshcart/order/k-order.go:503-522 | so it is for what FastWrite leaves in the buffer for an order item; nil leaves a stop byte, bytes behind the end stay |
| ThriftSchema.OrderWrites | idl/order.thrift:23-36 | in the bytes written for an order, whatever follows, a search by header reads and skips finds every field under its id in the schema, with its type and value, the items one after another under id 7 |
| ThriftFastWrite.FastWriteOrder | kitex_gen/meshcart/order/k-order.go:1049-1071 | so it is for what FastWrite leaves in the buffer for an order; nil leaves a stop byte, bytes behind the end stay |
| ThriftSchema.ListWrites | idl/order.thrift:91-95 | in the bytes written for a list response, whatever follows, a search by header reads and skips finds every field under its id in the schema, with its type and value, the orders one after another under id 1 |
| ThriftFastWrite.FastWriteList | kitex_gen/meshcart/order/k-order.go:3073-3086 | so it is for what FastWrite leaves in the buffer for a list response; nil leaves a stop byte, bytes behind the end stay |
| ThriftSchema.CloseWrites | idl/order.thrift:101-105 | in the bytes written for a close-expired response, whatever follows, a search by header reads and skips finds every field under its id in the schema, with its type and value, the order ids one after another under id 2 |
| ThriftFastWrite.FastWriteClose | kitex_gen/meshcart/order/k-order.go:3382-3395 | so it is for what FastWrite leaves in the buffer for a close-expired response; nil leaves a stop byte, bytes behind the end stay |
| ThriftSchema.ConfirmWrites | idl/order.thrift:61-68 | in the bytes written for a confirm request, whatever follows, a search by header reads and skips finds every field under its id in the schema, with its type and value, and an unset field nowhere |
| ThriftFastWrite.FastWriteConfirm | kitex_gen/meshcart/order/k-order.go:2205-2221 | so it is for what FastWrite leaves in the buffer for a confirm request; nil leaves a stop byte, bytes behind the end stay |
| ThriftSchema.BaseReadsInts | idl/base.thrift:4 | reader of the response header: the header bytes of the 32-bit field in the schema, and a value, set that field of any struct and no other |
| ThriftSchema.BaseReadsTexts | idl/base.thrift:5 | reader of the response header: the header bytes of the text field in the schema, and a value, set that field of any struct and no other |
| ThriftSchema.ItemReadsInts | idl/order.thrift:19 | reader of order items: the header bytes of the 32-bit field in the schema, and a value, set that field of any struct and no other |
| ThriftSchema.ItemReadsLongs | idl/order.thrift:12-20 | reader of order items: the header bytes of each 64-bit field in the schema, and a value, set that field of any struct and no other |
| ThriftSchema.ItemReadsTexts | idl/order.thrift:16-17 | reader of order items: the header bytes of each text field in the schema, and a value, set that field of any struct and no other |
| ThriftSchema.OrderReadsInts | idl/order.thrift:26 | reader of orders: the header bytes of the 32-bit field in the schema, and a value, set that field of any struct and no other |
| ThriftSchema.OrderReadsLongs | idl/order.thrift:24-33 | reader of orders: the header bytes of each 64-bit field in the schema, and a value, set that field of any struct and no other |
| ThriftSchema.OrderReadsTexts | idl/order.thrift:31-35 | reader of orders: the header bytes of each text field in the schema, and a value, set that field of any struct and no other |
| ThriftSchema.OrderReadsItems | idl/order.thrift:30 | reader of orders: the header bytes of the list of items in the schema, and a value, set that field of any struct and no other |
| ThriftSchema.ListReadsLongs | idl/order.thrift:93 | reader of the list response: the header bytes of the 64-bit field in the schema, and a value, set that field of any struct and no other |
| ThriftSchema.ListReadsOrders | idl/order.thrift:92 | reader of the list response: the header bytes of the list of orders in the schema, and a value, set that field of any struct and no other |
| ThriftSchema.ListReadsBase | idl/order.thrift:94 | reader of the list response: the header bytes of the header in the schema, and a value, set that field of any struct and no other |
| ThriftSchema.CloseReadsInts | idl/order.thrift:102 | reader of the close-expired response: the header bytes of the 32-bit field in the schema, and a value, set that field of any struct and no other |
| ThriftSchema.CloseReadsIds | idl/order.thrift:103 | reader of the close-expired response: the header bytes of the list of ids in the schema, and a value, set that field of any struct and no other |
| ThriftSchema.CloseReadsBase | idl/order.thrift:104 | reader of the close-expired response: the header bytes of the header in the schema, and a value, set that field of any struct and no other |
| ThriftSchema.ConfirmReadsLongs | idl/order.thrift:62-67 | reader of the confirm request: the header bytes of each 64-bit field in the schema, and a value, set that field of any struct and no other |
| ThriftSchema.ConfirmReadsTexts | idl/order.thrift:63-66 | reader of the confirm request: the header bytes of each text field in the schema, and a value, set that field of any struct and no other |
| ThriftRoundTrip.BaseRoundTrip | kitex_gen/meshcart/base/k-base.go:23-150 | reading the written header followed by anything gives it back and consumes exactly its bytes |
| ThriftRoundTrip.ItemRoundTrip | kitex_gen/meshcart/order/k-order.go:216-602 | the same for order items |
| ThriftRoundTrip.OrderRoundTrip | kitex_gen/meshcart/order/k-order.go:667-1178 | the same for orders with any number of items, up to nil list to empty and nil item to zero |
| ThriftRoundTrip.ListRoundTrip | kitex_gen/meshcart/order/k-order.go:2945-3125 | the same for the whole response with any number of orders, up to nil list to empty and nil pointer to zero struct |
| ThriftRoundTrip.CloseRoundTrip | kitex_gen/meshcart/order/k-order.go:3255-3434 | the same for the list of order ids |
| ThriftRoundTrip.ConfirmRoundTrip | kitex_gen/meshcart/order/k-order.go:2002-2285 | the same with optional fields, set or unset |
| ThriftArrangement.BaseArrangement | kitex_gen/meshcart/base/k-base.go:23-84 | any order of the header's fields, among unknown ids and wrong wire types, reads as the header |
| ThriftArrangement.ItemArrangement | kitex_gen/meshcart/order/k-order.go:216-375 | the same for order items |
| ThriftArrangement.OrderArrangement | kitex_gen/meshcart/order/k-order.go:667-868 | the same for orders |
| ThriftArrangement.ListArrangement | kitex_gen/meshcart/order/k-order.go:2945-3020 | the same for the list response |
| ThriftArrangement.CloseArrangement | kitex_gen/meshcart/order/k-order.go:3255-3330 | the same for the close-expired response |
| ThriftArrangement.ConfirmArrangement | kitex_gen/meshcart/order/k-order.go:2002-2119 | the same for the confirm request |
| ThriftArrangement.BaseSkipsExactly | kitex_gen/meshcart/base/k-base.go:23-84 | the header's reader reads past a well-formed field without effect if and only if the field's wire type is not the one its id has |
| ThriftArrangement.ItemSkipsExactly | kitex_gen/meshcart/order/k-order.go:216-375 | the same for order items |
| ThriftArrangement.OrderSkipsExactly | kitex_gen/meshcart/order/k-order.go:667-868 | the same for orders |
| ThriftArrangement.ListSkipsExactly | kitex_gen/meshcart/order/k-order.go:2945-3020 | the same for the list response |
| ThriftArrangement.CloseSkipsExactly | kitex_gen/meshcart/order/k-order.go:3255-3330 | the same for the close-expired response |
| ThriftArrangement.ConfirmSkipsExactly | kitex_gen/meshcart/order/k-order.go:2002-2119 | the same for the confirm request |
| ThriftNested.ListReadsScrambled | kitex_gen/meshcart/order/k-order.go:2945-3071 | a response whose own fields, orders, items and header are each in any order among foreign fields reads back as the response |
| ThriftNested.WrittenMeans | kitex_gen/meshcart/order/k-order.go:3073-3125 | what the writer emits is one of these encodings |
| ThriftTruncated.SkipStable | kitex_gen/meshcart/order/k-order.go:681-687 | skipping a value of any type, however nested, does not depend on the bytes behind it |
| ThriftTruncated.StrictPrefixFails | kitex_gen/meshcart/order/k-order.go:667-868 | bytes that are read to the last one cannot be read with any missing at the end |
| ThriftTruncated.BaseTruncated | kitex_gen/meshcart/base/k-base.go:23-150 | a written header cut anywhere before its end fails to read |
| ThriftTruncated.ItemTruncated | kitex_gen/meshcart/order/k-order.go:216-602 | the same for order items |
| ThriftTruncated.OrderTruncated | kitex_gen/meshcart/order/k-order.go:667-1178 | the same for orders |
| ThriftTruncated.ListTruncated | kitex_gen/meshcart/order/k-order.go:2945-3125 | the same for the list response |
| ThriftTruncated.CloseTruncated | kitex_gen/meshcart/order/k-order.go:3255-3434 | the same for the close-expired response |
| ThriftTruncated.ConfirmTruncated | kitex_gen/meshcart/order/k-order.go:2002-2285 | the same for the confirm request |
| ThriftArrangement.ElementTypeIsNotRead | kitex_gen/meshcart/order/k-order.go:954-977 | what a list field reads does not depend on the element type on the wire |
| ThriftArrangement.BytesReadAsItems | kitex_gen/meshcart/order/k-order.go:954-977 | a well-formed list of n zero bytes is read as n zero items |
| ThriftBuffer.WriteField | kitex_gen/meshcart/order/k-order.go:541-602 | a scalar field lands directly behind the fields written so far and nothing else in the buffer changes |
| ThriftBuffer.PatchListBegin | kitex_gen/meshcart/order/k-order.go:1135-1147 | the header written into the gap after the elements completes exactly the field's encoding |
| ThriftBase.BaseResponse.FastRead | kitex_gen/meshcart/base/k-base.go:23-84 | the loop fails when the specification does, otherwise stops at the same offset; either way it leaves the fields the specification has read by then |
| ThriftBase.WriteBase | kitex_gen/meshcart/base/k-base.go:114-150 | exactly the header's encoding is put at the offset, the rest of the buffer is untouched; nil writes a stop byte |
| ThriftBase.BaseLength | kitex_gen/meshcart/base/k-base.go:128-164 | the size computation equals the bytes written |
| ThriftOrder.OrderItem.FastRead | kitex_gen/meshcart/order/k-order.go:216-375 | as for the header |
| ThriftOrder.WriteItem | kitex_gen/meshcart/order/k-order.go:503-602 | as for the header, fields 5 and 6 last |
| ThriftOrder.ItemLength | kitex_gen/meshcart/order/k-order.go:524-665 | the size computation equals the bytes written |
| ThriftOrder.ReadItems | kitex_gen/meshcart/order/k-order.go:954-977 | the element loop yields fresh objects holding what the specification reads, or fails when it does |
| ThriftOrder.Order.FastReadField7 | kitex_gen/meshcart/order/k-order.go:954-977 | the list is assigned only when all of it was read; otherwise the order stays as it was |
| ThriftOrder.Order.FastRead | kitex_gen/meshcart/order/k-order.go:667-868 | as for the header; which ids set which fields is in ThriftSchema.OrderReadsLongs and its neighbours |
| ThriftOrder.WriteItems | kitex_gen/meshcart/order/k-order.go:1135-1147 | the list field with its header patched in last is exactly its encoding |
| ThriftOrder.WriteOrder | kitex_gen/meshcart/order/k-order.go:1049-1178 | as for the header, field 10 before field 7; which ids stand for which fields is in ThriftSchema.OrderWrites |
| ThriftOrder.ItemsLength | kitex_gen/meshcart/order/k-order.go:1226-1235 | the size loop equals the bytes of the list field |
| ThriftOrder.OrderLength | kitex_gen/meshcart/order/k-order.go:1073-1270 | the size computation, in id order, equals the bytes written in another order |
| ThriftMessages.ListOrdersResponse.FastReadField1 | kitex_gen/meshcart/order/k-order.go:3022-3045 | as for the items of an order |
| ThriftMessages.ListOrdersResponse.FastReadField255 | kitex_gen/meshcart/order/k-order.go:3061-3071 | the nested header is read into a fresh object, assigned only when its read succeeds |
| ThriftMessages.ListOrdersResponse.FastRead | kitex_gen/meshcart/order/k-order.go:2945-3020 | as for the header |
| ThriftMessages.WriteOrders | kitex_gen/meshcart/order/k-order.go:3099-3111 | as for the items of an order |
| ThriftMessages.WriteList | kitex_gen/meshcart/order/k-order.go:3073-3125 | as for the header, field 2 before field 1 |
| ThriftMessages.ListLength | kitex_gen/meshcart/order/k-order.go:3088-3150 | the size computation equals the bytes written |
| ThriftMessages.Send | kitex_gen/meshcart/order/k-order.go:3073-3097 | a buffer of the computed size is filled completely |
| ThriftMessages.Deliver | kitex_gen/meshcart/order/k-order.go:2945-3150 | size, write and read together: the receiver gets the response back, whatever bytes follow |
| ThriftCloseExpired.ReadIds | kitex_gen/meshcart/order/k-order.go:3346-3368 | the integer loop reads what the specification reads |
| ThriftCloseExpired.CloseExpiredOrdersResponse.FastRead | kitex_gen/meshcart/order/k-order.go:3255-3330 | as for the header |
| ThriftCloseExpired.WriteIds | kitex_gen/meshcart/order/k-order.go:3415-3427 | the integer list with its header patched in last is exactly its encoding |
| ThriftCloseExpired.WriteClose | kitex_gen/meshcart/order/k-order.go:3382-3434 | as for the header |
| ThriftCloseExpired.CloseLength | kitex_gen/meshcart/order/k-order.go:3397-3457 | the product of size and count equals the bytes of the list |
| ThriftConfirm.ConfirmOrderPaidRequest.FastRead | kitex_gen/meshcart/order/k-order.go:2002-2119 | as for the header; a field that was read is set |
| ThriftConfirm.WriteOptional | kitex_gen/meshcart/order/k-order.go:2251-2285 | an unset field writes nothing, a set one takes its place |
| ThriftConfirm.WriteConfirm | kitex_gen/meshcart/order/k-order.go:2205-2285 | as for the header, field 6 before field 2 |
| ThriftConfirm.ConfirmLength | kitex_gen/meshcart/order/k-order.go:2223-2335 | the size computation equals the bytes written, for every combination of set fields |
| SagaSpec.CompensatesWhatItInitialised | gateway/internal/tx/product_create.go:462-489 | for answers of matching count the compensated ids equal the initialised ids exactly when no created SKU is nil |
| SagaSpec.CountCheckPasses | gateway/internal/tx/product_create.go:250-254 | the length check lets through answers of matching count and, whatever was asked for, the empty answer |
| SagaSpec.RowsTotals | services/inventory-service/biz/repository/repository.go:143-223 | a batch with distinct ids leaves one row per item with its total |
| SagaSpec.RowsRemoved | services/inventory-service/biz/repository/repository.go:225-277 | deleting the rows of an inserted batch restores the table |
| SagaSpec.UndoInitRestores | services/inventory-service/biz/service/saga.go:108-156 | compensating an initialisation restores the stock table whatever ids the call carries |
| SagaWorkflow.BuildInitStockItems | gateway/internal/tx/product_create.go:462-478 | one item per created SKU in order, with its id (zero for nil) and the stock the request names, zero where it names none; nothing when the counts differ |
| SagaWorkflow.SkuIdsAreKept | gateway/internal/tx/product_create.go:480-489 | the ids of a compensation are those of the non-nil entries, all of them, in order |
| SagaWorkflow.SkuIdsOf | gateway/internal/tx/product_create.go:480-489 | the ids in order without the nil entries |
| SagaWorkflow.Participants.CreateProductSaga | services/product-service/biz/service/saga.go:31-107 | idempotent creation, refused after compensation and for a status other than 0, 1, 2; the product starts with the target status, with 1 where that is 2; nothing else changes |
| SagaWorkflow.Participants.CompensateCreateProductSaga | services/product-service/biz/service/saga.go:109-194 | idempotent deletion of the product on record or named; without a creation only noted |
| SagaWorkflow.Participants.InsertAll | services/inventory-service/biz/repository/repository.go:143-223 | all rows or, on any collision, none |
| SagaWorkflow.Participants.InitSkuStocksSaga | services/inventory-service/biz/service/saga.go:27-106 | idempotent initialisation: one row per item with its total beside the rows that were there, and the ids on record; refused after compensation, for an empty batch, for invalid items, for ids taken or named twice |
| SagaWorkflow.Participants.CompensateInitSkuStocksSaga | services/inventory-service/biz/service/saga.go:108-156 | idempotent deletion of exactly the rows on record, or of those in the call where none are |
| SagaWorkflow.Participants.ChangeProductStatus | services/product-service/biz/service/change_product_status.go:12-40 | the status of an existing product becomes the one given, refused for invalid arguments and missing products |
| SagaWorkflow.Workflow.RunRollback | gateway/internal/tx/product_create.go:159-381 | a registered rollback run with the captured variables; stocks are skipped unless their initialisation was seen to succeed |
| SagaWorkflow.Workflow.RunWorkflow | gateway/internal/tx/product_create.go:147-435 | one execution: final rows, captured variables, success, and otherwise the registered rollbacks in reverse |
| SagaWorkflow.ExecutionIsARun | gateway/internal/tx/product_create.go:147-435 | an execution is a run of the step system |
| SagaGuarantees.StepInv | gateway/internal/tx/product_create.go:147-435 | every step under a safe executor keeps the invariant on rows, kept results and captured variables |
| SagaGuarantees.RunInv | gateway/internal/tx/product_create.go:147-435 | and so does every run |
| SagaGuarantees.AllOrNothing | gateway/internal/tx/product_create.go:147-435 | under a safe executor every finished saga leaves the product in the requested status with its stocks, or neither |
| SagaGuarantees.OneStockPerItem | gateway/internal/tx/product_create.go:250-344 | a successful end holds exactly one new stock row per created SKU, under its id, with the number the request gives for it, zero where it gives none; all other rows stay |
| SagaExact.LostInitLeaks | gateway/internal/tx/product_create.go:256-265 | a lost answer of the stock initialisation leaves the stocks behind after the rollback |
| SagaExact.LostCreateLeaks | gateway/internal/tx/product_create.go:159-246 | a lost answer of the creation leaves the product behind when the failing branch is not compensated |
| SagaExact.ForgottenInitFailure | gateway/internal/tx/product_create.go:340-344 | a failure that is not kept lets a replay succeed with the product already removed |
| SagaExact.ForgottenPublishFailure | gateway/internal/tx/product_create.go:422-424 | the same at the last branch puts the product online without stocks |
| SagaExact.HopelessStep | gateway/internal/tx/product_create.go:147-435 | for a request that cannot succeed every step keeps: whatever was written is still due to be removed |
| SagaExact.AllOrNothingExactly | gateway/internal/tx/product_create.go:147-435 | for every request, every run is all or nothing if and only if the executor observes what that request calls for |
| SagaOnline.OnlineStep | services/product-service/biz/service/saga.go:207-212 | where failures are kept and lost publishes compensated, every step keeps: an online product has its stocks, and they are not removed before it is offline |
| SagaOnline.LostPublishStaysOnline | gateway/internal/tx/product_create.go:346-384 | a lost answer of the publish leaves the product online without stocks when the failing branch is not compensated |
| SagaOnline.OnlineWithStocksExactly | services/product-service/biz/service/saga.go:207-212 | for every request, in every state of every run the product is online only with the requested stock rows in place, if and only if it can never come online or the executor keeps failures and compensates a publish it may have lost |

## Left out

- Kafka, GORM and MySQL: only their contracts are modelled (an atomic claim transaction with skipped locks, marks with or without effect, times rounded to the nearest second).
- Reclaiming rows that a dead dispatcher left in `publishing`: the code has no such step, so no eventual delivery is claimed.
- The nil-receiver guards of `GormStore` and `Dispatcher`, and a claim with a nil database: stores are taken as initialised.
- The Redis client and server: EXEC fails after a write to, a deletion of or the expiry of a watched key, and the two keys of one MULTI expire together; connection errors are not modelled.
- Collisions between the textual session and refresh keys: the two key spaces are separate maps.
- Cryptography and randomness: session ids and refresh hashes are taken as fresh where a theorem says so.
- Concurrent callers of the in-memory stores: their methods hold one lock, so they are modelled as atomic; the limiter's gap between releasing the store lock and taking the bucket lock is not.
- Floating-point rounding and saturating durations in the limiter: tokens are reals, times and durations unbounded integer nanoseconds.
- HTTP handlers, key functions and configuration of the limiter: keys and rules are parameters.
- The primitives of the Thrift library are not part of this repository: they follow the protocol specification, and `Skip` has no depth limit.
- The no-copy writer path: writers are modelled with no such writer, as `FastWrite` calls them.
- ThriftBase.BaseResponse.FastRead: says nothing about the offset returned by a failed read, which depends on the length that a failing library primitive reports and which callers discard; the same holds for the other readers.
- A nil receiver of a reader, and the formatting of error messages.
- The other generated structs and their getters and setters: they repeat the same shapes.
- DTM itself: the executor is a parameter of the step system (what it compensates, what it keeps, what may take effect unnoticed); network addresses, registration and logging are left out.
- Requests that reach a participant long after they were given up: a lost call takes effect at once or not at all.
- Rows of other workflows: the stock table changes only by this workflow while it runs, and its generated ids are its own.
- Fields of a product other than its status, and what else the product service checks: one parameter says whether it accepts the product.
