# Verified models of gobit's concurrent core

This project models the parts of gobit whose correctness rests on argument rather
than on a look at one function: the DI container, the event bus, the idempotency
ring and its store, the token bucket, JSON field resolution, links without foreign
keys, session cookies and anchors, and passkey rows. Each model takes the branches,
constants and error answers of the code it cites.

Two layers run through it. Code that changes state in place is a class or a method
with loops, proved equal to a function on plain values (`Container` against
`ContainerSpec`, `IdempotencyStore` against `IdempotencyRows`, `LinkService` against
`LinkSchema`, `Passkeys.Store` against its functions). The functions are then the
atomic steps of whole runs (`ContainerRuns`, `IdempotencyProtocol`, `RedisRuns`,
`RedisDeliveries`, `LinkRuns`, `PasskeyRuns`, `SessionAnchors`, `InMemoryBus`,
`RedisBusClosing`), in which any number of goroutines, processes or requests interleave.
A lock-held section, one SQL statement or transaction under a row lock, and one Redis
command are one step.

`dafny verify dfyconfig.toml` checks everything.

## What the models take as given

- SHA-256 and HMAC-SHA-256 are injective functions (`StoreKeys.Ideal`,
  `SessionCookies.Ideal`); base64, decimal text and base 32 are modelled in full.
- Times are integers or reals. Clocks are read outside the locks, so that they do not
  go back in lock order is a hypothesis, stated where it is used (`Forward`,
  `RateLimiter.Forward`); the TTL and budget are whatever the configuration says.
- A Redis command may fail before or after the server executed it; a process may crash
  between any two. Two processes never share a consumer name, as the configuration
  demands; a restarted one may reuse it. The sweep's five-second context is measured
  on the server's clock.
- The charge of an idempotency entry is a given non-negative number.
- Link runs start from an empty ledger and a schema without any ordinary table or index
  under a relation name of a link or the ledger and without any index on such a table;
  other migrations stay off those names, tables and indexes afterwards
  (`LinkRuns.Starts`, `LinkRuns.Enabled`).
  What a single declaration does without this is `LinkSchema`'s subject.
- A stream entry has at least one field, as XADD demands, and XRANGE answers an entry
  with the fields it was added with.
- The fingerprint's exact condition is about requests with an absolute path, whose query
  holds no control character and whose method and bucket hold no NUL (`StoreKeys.Parsed`).
  The HTTP parser also accepts `*` and an absolute URI with an empty path: such requests
  are outside it.
- PostgreSQL names the index of an unnamed primary key after its table, with the suffix
  _pkey and the first number that makes the name free.
- Reflection is a finite graph of struct types; which characters are letters or digits
  is a parameter.

## Where the code and its documentation differ

- `RedisConfig.ClaimMinIdle` may be set below the five-second control timeout. Then an
  entry can be taken over three times, once more than the delivery limit suggests
  (`RedisRuns.TheBoundNeedsTheBudget`).
- The check after a link's DDL looks at the kinds of four relation names only. A
  declaration that commits has the schema its cardinality needs exactly if, before it,
  the table's name and the required index names were free or held what the DDL would
  make, and no other index stood on the table (`LinkSchema.CommitIsExactIffUnhindered`).
  Otherwise a pair the cardinality forbids can be stored, an admitted one refused, or
  none stored at all (`ImpostorLetsAViolationIn`, `FourthIndexRefusesAnAdmittedPair`,
  `KeylessTableTakesNothing`).
- Name validation bans the suffixes of a link's three indexes, not that of the index every
  primary key makes. `definitions_pkey` is a valid link name that no run ever declares
  (`LinkRuns.TheLedgersNameFails`), and `x_pkey` fails once `x` is declared
  (`AKeysNameStaysClosed`, `OrderDecides`). What keeps a new link out is exactly a foreign
  relation under one of its names or a key under its table's
  (`NewLinkFailsIffItsNameIsTaken`).
- A recorded response clones the headers when the handler returns, so a header changed
  after the first write is replayed though it was never sent. Recorded and sent headers
  agree exactly if the last change of each name after the commit puts its value back
  (`Recording.ReplayIsWhatWasSent`).
- The idempotency fingerprint separates its fields with NUL bytes, which a decoded path
  and a body may contain. A request shares its text with another exactly if next to such
  a NUL stands what could be a query (`StoreKeys.AloneUnlessAnotherQueryFits`).
- The session anchor "never moves the moment back", but erasing the credential takes it
  along. An ended cookie proves again exactly if the row was erased since and the cookie
  was not ended anew (`SessionAnchors.EndedProvesIffErased`, `ErasureRevives`).
- Registering a passkey over its own row replaces the count. The accepted counts keep
  increasing exactly if no registration brings a count below one accepted of its key, to
  a row whose count still decides (`PasskeyRuns.SafeIsExactlyWhatKeepsThemIncreasing`,
  `ACountAcceptedTwice`).

## Model

| member | source | states |
|---|---|---|
| CycleSearch.CyclePath | core/container/container.go:503-535 | nil exactly when no cycle can be reached from the start node; otherwise a closed walk along existing waits that the start reaches |
| CycleSearch.Search.Walk | core/container/container.go:503-535 | one node of the depth-first search: without a cycle it and all before it are left for good, otherwise the walk it answers closes |
| CycleSearch.Search.CloseCycle | core/container/container.go:503-535 | the part of the path from the repeated node on, closed, is a cycle the start reaches |
| CycleSearch.RankedMeansNoCycle | core/container/container.go:503-535 | nodes left in an order each after all it waits for lie on no cycle: why a finished search proves there is none |
| WaitGraph.EdgeClosesCycle | core/container/container.go:472-485 | over a graph without cycles the new wait makes one exactly when its target already reaches its source |
| WaitGraph.NewCycleIsReachable | core/container/container.go:472-485 | the cycle a new wait makes is reachable from the node the search starts at, so searching from there is enough |
| Container.Container.AddEdge | core/container/container.go:472-485 | keeps the wait if it closes no cycle, otherwise leaves the graph as it was and answers a real cycle |
| Container.Container.RemoveEdge | core/container/container.go:489-498 | takes out that one wait and nothing else |
| Container.UndoEdge | core/container/container.go:472-485 | undoing a refused wait gives back the very graph from before, so no wait another goroutine of the same constructor holds is lost |
| Container.Container.Provide | core/container/container.go:187-227 | the five answers of a registration and the state after each |
| Container.Container.Enter | core/container/container.go:254-337 | the first lock-held section of a resolution: refused, unknown, answered from the cache, cyclic, waiting, or running the constructor |
| Container.Container.Finish | core/container/container.go:254-337 | caches the one result, drops the wait, counts the build out and signals the drain with the last one |
| Container.Container.BuildFinished | core/container/container.go:445-451 | after a kept result the counter is again the number of building entries, and the drain signal is outstanding exactly while a closed container still builds; it goes from outstanding to given and changes in no other way |
| Container.Container.BeginShutdown | core/container/container.go:600-648 | closed from here on; a drain to wait for exactly if something is building |
| Container.Container.Snapshot | core/container/container.go:600-648 | the built services, last registered first |
| ContainerSpec.TargetsAreExact | core/container/container.go:600-648 | the snapshot holds each built service once and every later registration before every earlier one |
| ContainerSpec.EnterKeeps | core/container/container.go:254-337 | a resolution keeps the wait graph free of cycles and the in-flight counter equal to the number of building entries |
| ContainerSpec.FinishKeeps | core/container/container.go:254-337 | so does the end of a build, and the drain signal stays open exactly while something builds after closing |
| ContainerRuns.StepKeeps | core/container/container.go:254-337 | every lock-held section, taken by any number of goroutines in any order, keeps the whole invariant |
| ContainerRuns.SomeConstructorCanStep | core/container/container.go:254-337 | no deadlock: from any waiter the chain of waits ends at a running constructor that waits for nothing, if constructors resolve only through the container they are given |
| ContainerRuns.StartedAtMostOnce | core/container/container.go:254-337 | in no reachable state has any constructor been started twice, answered callers or not |
| ContainerRuns.OuterContainerDeadlocks | core/container/container.go:254-337 | that condition is needed: a constructor that resolves itself through the outer container waits for ever |
| ContainerRuns.BuiltOnceForAll | core/container/container.go:254-337 | all callers answered with a constructor's result get the same value or the same error, the one the container keeps |
| ContainerRuns.EnteringIsAnswered | core/container/container.go:254-337 | each of the seven ways a resolution leaves its first section, exactly under its condition; a cycle exactly if what is asked for already reaches the asker over waits |
| ContainerRuns.LeavingIsAnswered | core/container/container.go:254-337 | a waiter or builder is told the kept outcome; refused exactly if the container is closed, except a builder whose constructor failed |
| ContainerRuns.EveryAnswerIsExplained | core/container/container.go:254-337 | in every run: refused only once closed, unknown only if the target was unregistered when the call began, a cycle only if the target then reached the owner over waits of calls not answered, and else the kept outcome |
| ContainerRuns.BuiltIsHandedOut | core/container/container.go:254-337 | whoever asks an open container for what was built at any earlier moment is answered at once with the outcome kept then |
| ContainerRuns.ProvidedIsHandedOut | core/container/container.go:187-227 | a registration is accepted exactly if it is usable, new and in time, changes nothing otherwise, and a ready service is handed out to everyone who asks an open container later |
| ContainerRuns.AfterCloseNothingStarts | core/container/container.go:600-648 | after the closed flag no constructor starts and no resolution that had not been answered hands out a value |
| ContainerRuns.DrainMeansNoneBuilding | core/container/container.go:455-463 | the in-flight counter counts the building entries, and the drain is over exactly when there is none |
| ContainerRuns.ShutdownVisits | core/container/container.go:600-648 | a finished shutdown visited each service built at its snapshot once, in reverse registration order, whatever closes failed; after a drain within budget that is every service ever built |
| HandlerCalls.InvokeHandler | core/eventbus/eventbus.go:336-360 | one to three calls; another only after a fault that may pass; failed exactly when all of the first three calls end in one; the waits add up to 0, 250 or 1250 ms |
| HandlerCalls.ThreeCallsAtMost | core/eventbus/eventbus.go:336-360 | the calls of one handler are complete exactly if they end with the first that needs no other, or with the third |
| HandlerCalls.Dispatch | core/eventbus/redis.go:747-787 | every subscribed handler is called; the message is held back exactly when some handler still failed with the shutdown begun; an undecodable message reaches nobody and is acknowledged |
| EventMessages.RedriveDecodesTheSame | core/eventbus/redis_deadletter.go:108-145 | a kept and redriven message goes back to its stream and decodes exactly as the original did, event or fault; a stream entry has at least one field |
| EventMessages.PublishedEventSurvivesRedrive | core/eventbus/redis.go:689-727 | publish, keep, redrive: the handlers get the event that was published |
| EventMessages.StreamsApart | core/eventbus/redis.go:198-200 | no event name reaches the dead-letter stream, and two names never share a stream |
| RedisStream.ReadNewKeeps | core/eventbus/redis.go:526-589 | reading new entries keeps every entry up to the group position accounted for |
| RedisStream.ReadOwnKeeps | core/eventbus/redis.go:526-589 | so does reading one consumer's own list again |
| RedisStream.ClaimKeeps | core/eventbus/redis.go:615-675 | a takeover keeps the accounting and the chain of holders, winning only entries still idle |
| RedisStream.ClaimStaysBounded | core/eventbus/redis.go:615-675 | a takeover that wins only entries delivered less than three times never makes a third |
| RedisStream.AcknowledgeKeeps | core/eventbus/redis.go:792-800 | acknowledging an explained entry loses nothing |
| RedisRuns.EveryDispatchIsTraced | core/eventbus/redis.go:747-787 | every delivery a run notes was taken up at a step of its process, answered from there on by exactly as many handlers as that process had subscribed by then, and ended |
| RedisRuns.StepKeeps | core/eventbus/redis.go:526-589 | every command of every process, failed, lost or executed, keeps the invariant, crashes and restarts included |
| RedisRuns.EveryRemovalIsExplained | core/eventbus/redis.go:747-787 | an entry leaves the pending list only after a delivery that called every handler its process had subscribed when it took the entry up, with none held back, after a decoding failure, after its dead letter was written, or once the stream no longer holds it |
| RedisRuns.NothingDeliveredIsLost | core/eventbus/redis.go:526-589 | at any moment every entry the stream holds up to the group position is pending, delivered to all handlers, undecodable or kept as a dead letter |
| RedisRuns.TakeoversAreApart | core/eventbus/redis.go:615-675 | takeovers of an entry run from holder to holder, never to the holder itself, at least the idle threshold apart, each counted as a delivery |
| RedisRuns.TakenOverAtMostTwice | core/eventbus/redis.go:615-675 | an entry changes hands at most twice if the idle threshold is longer than a sweep's budget |
| RedisRuns.ShortThresholdTakesThree | core/eventbus/redis.go:615-675 | with a shorter threshold a run with three takeovers |
| RedisRuns.TheBoundNeedsTheBudget | core/eventbus/redis.go:615-675 | the bound of two holds in every run exactly when ClaimMinIdle exceeds the five-second control timeout |
| RedisRuns.LettersRedriveTheirEntry | core/eventbus/redis_deadletter.go:108-145 | every dead letter a run writes is made from an entry published on this stream and delivered at least three times, and redriving it puts back on the stream what decodes as that entry did |
| RedisDeliveries.ReadIsTakenUp | core/eventbus/redis.go:526-589 | an answer that arrives is taken up whole, in order and with the published fields |
| RedisDeliveries.EndedIsAcknowledgedNext | core/eventbus/redis.go:747-787 | a delivery that has called its handlers is acknowledged next exactly unless one of them met the shutdown with its third fault that may pass |
| RedisDeliveries.DeliveryFinishes | core/eventbus/redis.go:747-787 | from wherever a delivery is met its process alone can finish it: every readable message reaches every handler, and none of them stays pending |
| RedisDeliveries.SweepFinishes | core/eventbus/redis.go:615-675 | a sweep run out within its budget keeps as dead letters and acknowledges exactly the entries of others delivered three times, takes over and delivers the others' younger ones, and leaves the rest as they were |
| InMemoryBus.InMemory.PublishEvent | core/eventbus/inmemory.go:52-95 | closed buses refuse; otherwise every handler of the name is counted in at once |
| InMemoryBus.InMemory.SubscribeHandler | core/eventbus/inmemory.go:101-118 | an empty name and a nil handler are refused, then a closed bus; otherwise exactly one handler more for that name |
| InMemoryBus.EveryHandlerIsCalled | core/eventbus/inmemory.go:52-95 | in every run a publication before any shutdown starts one counted call for each handler subscribed to the name so far, and after one none |
| InMemoryBus.NothingStartsAfterClosing | core/eventbus/inmemory.go:52-95 | after closing no handler is counted in and the counter never rises |
| InMemoryBus.NilMeansAllEnded | core/eventbus/eventbus.go:385-399 | a nil return from Shutdown: every handler call of every accepted event has ended, for good |
| RedisBusClosing.NeverTwoLoopsForAName | core/eventbus/redis.go:428-472 | however subscriptions race each other and the shutdown, an event name gets at most one consumer loop ever |
| RedisBusClosing.SubscribedIsConsumed | core/eventbus/redis.go:428-472 | a name has handlers exactly if its consumer loop was started or is about to be |
| RedisBusClosing.NothingCountedAfterClosing | core/eventbus/redis.go:428-472 | after closing no loop is counted in; at most the one already counted still starts |
| RedisBusClosing.NilMeansAllLoopsEnded | core/eventbus/redis.go:483-490 | a nil return from Shutdown: every consumer loop has ended and none starts later |
| EventIds.NewEventId | core/eventbus/eventbus.go:246-269 | the two byte buffers filled in place spell the id of the clamped stamp and the random bytes; after a failed read the nanoseconds, as an unsigned 64-bit number, over the last eight |
| EventIds.EncodingKeepsOrder | core/eventbus/eventbus.go:246-269 | the 26 characters of sixteen bytes sort as the bytes do and tell them apart |
| EventIds.LettersAreCrockfords | core/eventbus/eventbus.go:246-269 | the 32 letters are those of the Crockford alphabet |
| EventIds.IdsSortByTime | core/eventbus/eventbus.go:246-269 | for stamps a < b below 2^48 the id of a comes first, whatever the random bytes |
| EventIds.IdsAreDistinct | core/eventbus/eventbus.go:246-269 | two ids are equal exactly when clamped stamp and random bytes are |
| EventIds.FailedReadsTellMomentsApart | core/eventbus/eventbus.go:246-269 | without random bytes two ids are equal exactly when stamp, the two bytes the failed read left and the nanoseconds are |
| IdempotencyRows.CollectedIsExact | core/http/idempotency_store.go:437-446 | collecting removes no unexpired entry, and over a queue in expiry order exactly what a full scan would |
| IdempotencyRows.FittedIsExact | core/http/idempotency_store.go:456-471 | the rows left within budget are determined: the shortest oldest-first run of completed records is gone, every reservation and the order stay |
| IdempotencyRows.ReserveKeeps | core/http/idempotency_store.go:310-332 | keys stay distinct, reservations free of charge, and a queue in expiry order stays so |
| IdempotencyRows.PlacedKeeps | core/http/idempotency_store.go:369-409 | a written record replaces its key's row at the end of the queue, and the total moves by exactly that |
| IdempotencyRows.NewestStays | core/http/idempotency_store.go:369-409 | a record just written survives the budget exactly if its own charge is within it |
| IdempotencyStore.MemoryIdempotencyStore.Reserve | core/http/idempotency_store.go:310-332 | map, queue and byte total after a begin are those of the row list: fresh, in flight or replayed |
| IdempotencyStore.MemoryIdempotencyStore.Collect | core/http/idempotency_store.go:437-446 | the walk from the front drops exactly the expired prefix |
| IdempotencyStore.MemoryIdempotencyStore.FitBudget | core/http/idempotency_store.go:456-471 | the eviction loop ends with the minimal oldest-first run of completed records gone and the number it evicted |
| IdempotencyStore.MemoryIdempotencyStore.Write | core/http/idempotency_store.go:369-409 | a completed or refused record leaves the row list, the total and the counters as specified |
| IdempotencyStore.MemoryIdempotencyStore.Abort | core/http/idempotency_store.go:415-424 | frees a reservation and leaves a record alone |
| IdempotencyStore.MemoryIdempotencyStore.Remove | core/http/idempotency_store.go:475-479 | one entry leaves map, queue and total together |
| IdempotencyStore.WalkIsFitted | core/http/idempotency_store.go:456-471 | the loop's walk is the minimal cut, for every list and budget |
| Recording.RecordingWriter.Write | core/http/idempotency.go:590-606 | passes the bytes on, commits status 200 if none was, and keeps a copy until the limit overflows |
| Recording.RecordingWriter.WriteHeader | core/http/idempotency.go:579-587 | the first status counts, later ones change neither record nor response |
| Recording.RecordingWriter.Settle | core/http/idempotency.go:315-384 | after the handler the writer's fields give the record its calls determine, or none for a 5xx, a 4xx with Retry-After and an overflow |
| Recording.WhatIsKept | core/http/idempotency.go:315-384 | not recorded exactly if the status is 500 or above, or for a client a refusal with a Retry-After, or the body is above a mebibyte; all else recorded as answered |
| Recording.ReplayIsWhatWasSent | core/http/idempotency.go:315-384 | a recorded answer has the status and the concatenated writes the caller got; it has the headers the caller got if and only if the last setting or deletion of each name after the commit puts back what the name held at the commit |
| Recording.LateHeaderDiffers | core/http/idempotency.go:315-384 | a header set after the first write is in the record and was not in the response |
| IdempotencyProtocol.RunsNeverOverlap | core/http/idempotency.go:222-305 | while no run outlives the TTL no two handler runs on one key overlap |
| IdempotencyProtocol.OverlapOnlyPastTheTTL | core/http/idempotency.go:222-305 | in a run over clocks that do not go back, in time so far, a second run starts exactly when the clock is past the end of the first run's reservation |
| IdempotencyProtocol.ForwardKeepsOrder | core/http/idempotency_store.go:286-300 | one step over clocks that do not go back keeps the queue in expiry order |
| IdempotencyProtocol.ForwardRunsAreOrdered | core/http/idempotency_store.go:286-300 | every state of a run over such clocks, whose handlers keep to the TTL, has its queue in expiry order |
| IdempotencyProtocol.RecordHoldsItsKey | core/http/idempotency.go:222-305 | a record goes only by expiring or being evicted, and until then no handler starts on its key |
| IdempotencyProtocol.NoRunWhileRecorded | core/http/idempotency.go:222-305 | over a whole run: from a completed run on no handler runs on its key until the record has expired or been evicted |
| IdempotencyProtocol.FailureFreesTheKey | core/http/idempotency.go:315-384 | a 5xx, a 4xx with Retry-After, an overflow or a panic leaves the key free |
| IdempotencyProtocol.ReplayRepeatsARun | core/http/idempotency.go:410-435 | every replay goes to a request with the stored fingerprint and carries a completed run's status and concatenated writes, and the headers that run sent exactly if it put back what it changed after committing |
| IdempotencyProtocol.EveryBeginIsAnswered | core/http/idempotency.go:222-305 | over clocks that do not go back: "still being processed" exactly if a handler runs under the key, replayed exactly if there is an unexpired record of the same fingerprint, refused exactly if of another, and started exactly if there is neither |
| IdempotencyProtocol.KeptIsRecorded | core/http/idempotency.go:315-384 | a run that is kept is in the store afterwards, as answered and for a whole TTL, exactly if its charge is within the budget |
| IdempotencyProtocol.RetryIsReplayed | core/http/idempotency.go:410-435 | from a kept run to a retry: within the TTL, unless the record was evicted, the same request gets that response and another one is refused, and no handler starts |
| StoreKeys.StoreKeyIsInjective | core/http/idempotency.go:518-520 | two store keys are equal exactly when bucket and key are |
| StoreKeys.JoinedIsInjective | core/http/callback_guard.go:309-316 | the length-prefixed join tells any two lists of strings apart |
| StoreKeys.HashTuple | core/http/callback_guard.go:309-316 | the loop feeds the hash exactly that join |
| StoreKeys.CallbacksMeetOnlyAsOne | core/http/callback_guard.go:296-306 | under an ideal hash two callbacks share a key exactly when source and identity are equal, a fingerprint exactly when source, path and content are |
| StoreKeys.PlainPathsAreToldApart | core/http/idempotency.go:533-546 | requests whose decoded paths hold no NUL byte share a fingerprint text only if they are the same |
| StoreKeys.AloneUnlessAnotherQueryFits | core/http/idempotency.go:533-546 | a request shares its fingerprint text with another that an HTTP parser can produce if and only if a stretch after a NUL of its path, or before a NUL of its body, up to the next one, holds no control character |
| StoreKeys.TwoRequestsOneText | core/http/idempotency.go:533-546 | two parsed requests of one bucket and method, with different paths, queries and bodies, and one fingerprint text |
| RateLimiter.MemoryLimiter.Allow | core/http/ratelimit.go:274-312 | one request decided, its bucket spent and the sweep made when due, as the specification says |
| RateLimiter.MemoryLimiter.Collect | core/http/ratelimit.go:318-330 | removes exactly the buckets idle for a window |
| RateLimiter.IdleIsFresh | core/http/ratelimit.go:318-330 | a bucket idle for a window has refilled to a new one |
| RateLimiter.SweepingIsInvisible | core/http/ratelimit.go:318-330 | over times that do not go back a sweeping limiter allows and refuses exactly as one that never sweeps |
| RateLimiter.SweepingShowsIffEarly | core/http/ratelimit.go:318-330 | over any times at all, backward ones included, a sweeping limiter gives the answers of one that never sweeps if and only if no request finds its bucket swept that by the request's own time would not have been full again |
| RateLimiter.BackwardClockDiffers | core/http/ratelimit.go:318-330 | under every limit: a key asks, is swept a window later by another key's request and asks again at an earlier moment; the sweeping limiter answers otherwise exactly if that moment is less than the time of one token after its first request |
| RateLimiter.Spent | core/http/ratelimit.go:274-312 | each allowed request takes one token of a level that rises no faster than the refill |
| RateLimiter.QuotaHolds | core/http/ratelimit.go:274-312 | in any stretch of length T at most limit + T * limit / window requests of one key are allowed |
| RateLimiter.RefusedIffUsedUp | core/http/ratelimit.go:274-312 | over times that do not go back a request is refused if and only if in some stretch of length T ending with it its key was let through more than limit - 1 + T * limit / window times |
| RateLimiter.RetryAfterIsExact | core/http/ratelimit.go:274-312 | a refused key that asks nothing in between is let through from the stated wait on and not before |
| RateLimiter.RemainingIsExact | core/http/ratelimit.go:274-312 | of further requests at the same moment exactly the remaining number is let through |
| JsonTypes.HasOption | core/openapi/jsonfields.go:237-248 | an option is found exactly if it is one of the comma-separated parts |
| JsonTypes.NextLevel | core/openapi/jsonfields.go:49-80 | a struct first appears one level below a struct it is embedded in, and on no earlier level |
| FieldCollector.Collector.Walk | core/openapi/jsonfields.go:95-148 | one struct's plain fields are gathered, twice if the struct was reached twice, and its embedded structs queued once each with their count |
| FieldCollector.Collector.Embed | core/openapi/jsonfields.go:95-148 | the queue lists each embedded struct once and the count exceeds one exactly when two embeddings lead to it |
| FieldSearch.WalkLevel | core/openapi/jsonfields.go:49-80 | one level: each struct not seen before is walked once, at its shortest embedding depth |
| FieldSearch.NextStart | core/openapi/jsonfields.go:49-80 | what a level queues, minus what was seen, is exactly the next shortest-depth level |
| Shadowing.Unshadowed | core/openapi/jsonfields.go:164-195 | the result holds exactly the fields that beat every other candidate for their name, names ascending, whatever order the unstable sort gives ties |
| Shadowing.DominantField | core/openapi/jsonfields.go:203-211 | over a sorted group of one name it answers exactly the field that beats every other one of the group, and none if none does |
| Shadowing.WinsInAnyOrder | core/openapi/jsonfields.go:164-195 | winning does not depend on the arrangement of the candidates |
| FieldSearch.WinnersAreWritten | core/openapi/jsonfields.go:164-195 | winning among the gathered entries is the dominance rule of the type graph |
| FieldSearch.JsonFields | core/openapi/jsonfields.go:49-80 | ends on every type graph, embedding cycles included, and returns exactly the fields the dominance rule writes, one per name |
| LinkDefinitions.RelationNamesApart | core/link/link.go:289-314 | two relations of valid links, or of the ledger, share a name if and only if they are the same, or the one is the table of a link named as the other with a suffix its primary key may get (_pkey, _pkey1, ...), which validation lets pass; none is cut by PostgreSQL |
| LinkDefinitions.ParseUndoesPrint | core/link/link.go:175-186 | parsing answers a cardinality exactly for the spelling printed for it, and fails on all else |
| LinkDefinitions.WiderMeansAdmitsMore | core/link/link.go:195-197 | wider is the same as admitting every set of pairs the other admits and at least one more |
| LinkSchema.ObsoleteIsTheRest | core/link/registry.go:103-112 | the obsolete index names are those of the three the cardinality does not require |
| LinkSchema.KeyNumber | core/link/registry.go:135-171 | a new table's key index takes the first free of its numbered names: that one is free and all before it are taken |
| LinkSchema.DdlBuilds | core/link/registry.go:135-171 | the statements run exactly if table, its columns, its pairs and the obsolete names allow, and leave what was there, make what is missing, a new table with its key index, and drop what is obsolete |
| LinkSchema.DeclareIs | core/link/service.go:237-300 | a declaration conflicts, fails or commits by exactly these conditions on the database with the ledger's table and key in it, and anything but a commit changes nothing |
| LinkSchema.CommitIsExactIffUnhindered | core/link/service.go:617-666 | after a commit the table is the link's own with its key, and the indexes on it are exactly the cardinality's, if and only if before it the table's name and the required names were free or held just these and no other index stood on the table |
| LinkSchema.ImpostorLetsAViolationIn | core/link/service.go:617-666 | a plain index under the required name: a one-to-many link commits and then stores one target under two records |
| LinkSchema.FourthIndexRefusesAnAdmittedPair | core/link/service.go:617-666 | a unique index under a fourth name: a many-to-many link commits and then refuses a pair it admits |
| LinkSchema.KeylessTableTakesNothing | core/link/service.go:617-666 | a foreign table with both columns and no key over the pair: the link commits and then no pair can be created |
| LinkSchema.InsertIsExact | core/link/service.go:304-329 | over the exact schema a pair is accepted exactly if the cardinality admits the pairs it leads to, and a refused one changes nothing |
| LinkSchema.InsertAgain | core/link/service.go:304-329 | an accepted creation, repeated, is accepted and changes nothing |
| LinkSchema.DeleteUndoesInsert | core/link/service.go:334-356 | deleting a pair that was just created gives back the database from before |
| LinkService.ObsoleteIndexes | core/link/registry.go:103-112 | the loop answers the required list's complement, in order |
| LinkService.BuildDdl | core/link/registry.go:135-171 | creations first, then the drops |
| LinkService.VerifySchema | core/link/service.go:617-666 | accepts exactly a table of kind r with all required and no obsolete indexes |
| LinkService.Service.Define | core/link/service.go:193-223 | invalid, known and equal, known and different, or the transaction's outcome; remembered only when committed |
| LinkService.Service.Transact | core/link/service.go:237-300 | ledger table, ledger row, DDL and check as one transaction |
| LinkService.Service.Create | core/link/service.go:304-329 | undeclared names are refused; over the exact schema of a cardinality the pair is accepted exactly if that cardinality admits it; over any usable table exactly if it is there or no unique index refuses it, and is then the one pair more, all else unchanged |
| LinkService.Service.Delete | core/link/service.go:334-356 | of the link's pairs exactly that one is gone, an absent one is no error, and every other table, the catalog and the ledger stay; fails exactly where the table lacks a column |
| LinkRuns.StepKeeps | core/link/service.go:193-223 | declarations, inserts and deletes of all processes keep every declared link's schema exact and its pairs within the ledger's cardinality, and leave of an undeclared link nothing but, at most, another table's key under its table's name |
| LinkRuns.TheLedgerOnlyWidens | core/link/service.go:142-157 | over every run a link's two ends in the ledger never change and its cardinality never narrows |
| LinkRuns.TheSchemaIsThePromise | core/link/registry.go:79-90 | at every moment a declared link has exactly the indexes its ledger cardinality requires, and its pairs satisfy it |
| LinkRuns.DeclarationsMeetNoBadRow | core/link/service.go:237-300 | a known link's declaration commits unless its ends differ or it narrows; a new link's unless, with the ledger's table and key there, a relation bears one of its names; never because of stored pairs |
| LinkRuns.NewLinkFailsIffItsNameIsTaken | core/link/link.go:289-314 | in any run a link not in the ledger cannot be declared if and only if a foreign relation bears the ledger's name or one of its four, or its name is that of a made table with the suffix that table's key got |
| LinkRuns.AKeysNameStaysClosed | core/link/link.go:289-314 | once a link is declared, a link of its name with _pkey that is not declared yet never can be, whatever follows |
| LinkRuns.TheLedgersNameFails | core/link/link.go:289-314 | every declaration of a link named definitions_pkey, a valid name, fails in every state of every run |
| LinkRuns.OrderDecides | core/link/registry.go:135-171 | from an empty database, x before x_pkey: the second fails; x_pkey before x: both commit |
| LinkRuns.AKeyTakesALinksName | core/link/registry.go:135-171 | the failing order as a run from the start |
| LinkRuns.CreateIsDecidedByTheLedger | core/link/service.go:304-329 | a pair is accepted exactly if the ledger's cardinality admits it, whatever the process declared; doing it again is a no-op |
| LinkRuns.ProcessesAgreeWithTheLedger | core/link/registry.go:189-192 | what a process remembers has the ledger's ends and a cardinality no wider than the ledger's |
| Passkeys.Store.SignIn | contrib/identity-passkey/store.go:299-374 | the count compared under the lock, then recorded, refused as a repeat, or the key suspended |
| Passkeys.Store.Tally | contrib/identity-passkey/store.go:515-585 | the loop over the locked rows counts all and the unsuspended ones and finds the target |
| Passkeys.Store.RemoveKey | contrib/identity-passkey/store.go:515-585 | refuses a key that is not theirs and, without leave, the last unsuspended one; answers how many rows survive |
| Passkeys.RemovalLeavesAWayIn | contrib/identity-passkey/store.go:515-585 | without leave a removal never takes anybody's unsuspended rows from some to none |
| Passkeys.RemovedUnlessLast | contrib/identity-passkey/store.go:515-585 | refused exactly if the row is not theirs or, without leave, is their only way in; otherwise exactly that row goes |
| Passkeys.CountWaysIn | contrib/identity-passkey/keys.go:227-236 | counts the keys that are not suspended |
| Passkeys.MayRemoveTheLast | contrib/identity-passkey/keys.go:197-224 | asks for another way in exactly if the listing shows at most one open key and not a suspended target |
| PasskeyRuns.CountersHold | contrib/identity-passkey/store.go:299-374 | while no registration brings a count below one accepted of its key, the accepted non-zero counts of a key that is not backup-eligible strictly increase |
| PasskeyRuns.SafeIsExactlyWhatKeepsThemIncreasing | contrib/identity-passkey/store.go:247-278 | after safe registrations, a registration leaves the counts increasing in every continuation if and only if it is safe: it brings no count below an accepted one, or its row is suspended, eligible or not written |
| PasskeyRuns.ACountAcceptedTwice | contrib/identity-passkey/store.go:247-278 | a run from the start in which registering a key over itself lets a count that was accepted be accepted again |
| PasskeyRuns.SteadyIsSafe | contrib/identity-passkey/store.go:247-278 | registrations of new ids, or over one's own row with a count no lower and the same eligibility, are safe |
| PasskeyRuns.StoredCountNeverFalls | contrib/identity-passkey/store.go:299-374 | while registrations over a row of their owner lower no count, change no eligibility and forget no verification, a stored count never falls, eligibility never changes and verification stays latched |
| PasskeyRuns.NoKeyChangesHands | contrib/identity-passkey/store.go:247-278 | whatever is registered, a stored key never passes to another customer |
| PasskeyRuns.SuspendedNeverSignsIn | contrib/identity-passkey/store.go:299-374 | a suspended key signs nobody in until its row is removed and stored anew, whatever is registered over it |
| PasskeyRuns.SuspendedIffCopied | contrib/identity-passkey/store.go:299-374 | an open row is suspended by a step exactly if that is a sign-in with its id, key and relying party, the row is not backup-eligible, and the count is below the stored one, or equal to it, not zero and recorded four minutes ago or longer |
| PasskeyRuns.SuspensionHasACause | contrib/identity-passkey/store.go:299-374 | every suspended row of a run was suspended by such a sign-in |
| PasskeyRuns.SignInIsAnswered | contrib/identity-passkey/store.go:299-374 | the five answers exactly under their conditions, and the row recorded, suspended or left alone accordingly |
| PasskeyRuns.CountingUpSignsIn | contrib/identity-passkey/store.go:299-374 | an open key presenting a count above the stored one is accepted in every run, and the count recorded |
| PasskeyRuns.RegisteredSignsIn | contrib/identity-passkey/store.go:247-278 | a newly registered key signs its owner in with any higher count, at its own relying party and at no other |
| PasskeyRuns.LastWayInGoesOnlyKnowingly | contrib/identity-passkey/keys.go:132-181 | a removal that takes the last way in was, after this request's own listing, told that there is another way in, however stale its count was |
| PasskeyRuns.UnaskedRefusalMeansTheLast | contrib/identity-passkey/store.go:515-585 | a refusal without leave means the target is the only unsuspended row |
| SessionCookies.SessionRoundTrip | contrib/identity-session/session.go:307-345 | a cookie opens as sealed, expiry to the second and issue to the millisecond, exactly under signers that accept its key and for a non-empty dot-free id |
| SessionCookies.ValueRoundTrip | contrib/identity-session/session.go:275-299 | a sealed value opens, byte for byte, exactly under signers that accept its key and before its expiry's second |
| SessionCookies.PurposesNeverCross | contrib/identity-session/session.go:234-252 | a value never opens as a session nor a session as a value |
| SessionCookies.MacTextIsInjective | contrib/identity-session/session.go:386-393 | the MAC input tells any two purposes and payloads apart |
| SessionCookies.EditedTextIsRefused | contrib/identity-session/session.go:361-372 | a signature moved to another payload or purpose opens nothing |
| SessionCookies.OnlySealedTextsOpen | contrib/identity-session/session.go:361-372 | whatever opens carries a MAC some accepted key makes for that purpose and payload |
| SessionCookies.DottedIdIsUnreadable | contrib/identity-session/session.go:247-252 | an empty or dotted identifier gives a cookie nobody can open |
| SessionCookies.CutLastJoins | contrib/identity-session/session.go:403-410 | cutting at the last dot undoes joining a dot-free signature |
| Base64Url.DecodeUndoesEncode | contrib/identity-session/session.go:262-267 | the unpadded encoding comes back, for all bytes |
| Decimal.ParseUndoesFormat | contrib/identity-session/session.go:247-252 | a 64-bit stamp comes back from its decimal text |
| SessionAnchors.AnchorsNeverMoveBack | contrib/identity-session/anchor.go:200-213 | a customer's anchor never moves back while the credential row is not erased |
| SessionAnchors.EndedCookiesStayEnded | contrib/identity-session/anchor.go:84-99 | after a write of moment m no cookie of an earlier millisecond, or without a date, proves the customer, unless the row is erased meanwhile |
| SessionAnchors.EndedProvesIffErased | contrib/identity-session/store.go:216-228 | over whole runs: a cookie that a write has ended and that has not expired proves its customer if and only if the row was erased since and no write after the erasure has ended the cookie again |
| SessionAnchors.ErasureRevives | contrib/identity-session/store.go:216-228 | a run of a sign-in, a revocation that ends its cookie and the erasure of the row, after which the cookie proves its customer again |
| SessionAnchors.IssuedCookieProves | contrib/identity-session/session.go:143-145 | the cookie a request issues after its write proves the customer until it expires or a later write moves past it |
| SessionAnchors.HandedCookieLasts | contrib/identity-session/session.go:143-145 | a cookie is the request's customer's, lasts the whole lifetime to the second, is dated at the reading or now, and proves its customer until it expires unless the anchor was or is moved past its date |
| SessionAnchors.OldReadingSurvivesOnlyInTheGap | contrib/identity-session/session.go:153-160 | a sign-in that proves after a replacement read the credential no earlier than the millisecond the replacement is dated in |

## Left out

- The order in which `cyclePath` meets several cycles, and the text of its answer: any real cycle is accepted.
- `waitReady`'s warnings, `Has`, `Names`, `MustResolve` and the reflection diagnostics of the container.
- `consume` and `reclaim` as loops: their rounds are steps of a run, with the choice of sweeping or reading left open, which only adds runs.
- Update in place of the Redis bus's own maps, cursors and wait group: they are values in a step system, because every command interleaves with other processes; `InvokeHandler` and `Dispatch` are loops.
- The Redis bus over several event names and the sweep batch size: one stream with one group is modelled, and a sweep may see any part of the pending list.
- Parsing of times and JSON inside event messages: abstract text forms that come back.
- Liveness under network faults and duplicate-free delivery, which the code does not promise.
- The HTTP gates in front of the idempotency ring (methods, key length, streaming bodies, body size) and informational 1xx statuses of the recording writer.
- `entryCharge`: the bytes charged for an entry are a parameter, not the measured formula.
- Rounding of floating-point tokens in the limiter, and its headers.
- Update in place of the in-memory bus's Shutdown: closing, the wait and its return are steps of runs.
- Declared trailers set after the commit, which are sent, and the body bytes of a 204 or 304, which the recording keeps and nothing sends.
- Which of two violated unique indexes PostgreSQL names, the error texts, id validation and the listing queries of the link service.
- Of foreign tables under a link's name: CHECK constraints, triggers, defaults, rows with NULLs, and expression or partial indexes that refuse a row; a foreign table is known by its columns, its keys, further mandatory columns and whether it repeats a pair, an index by its columns and whether a constraint rests on it. Constraint names, which also steer the number of a key index, and types are no relations here.
- A ledger row spelled by an unknown release: `change` answers a conflict for it, but runs start from a ledger this code wrote.
- PasskeyRuns.CountersHold: assumes safe registrations, because without that it is false.
- PasskeyRuns.StoredCountNeverFalls: assumes steady registrations, because a registration over its owner's row writes whatever count it brings.
- SessionAnchors.OldReadingSurvivesOnlyInTheGap: says nothing about a credential read between the moment and the write, because the moment is read first.
- Stores that offer no anchored write, and cookie attributes.
- Secrecy, timing and constant-time comparison in the identity modules.
- OpenAPI text, routing, CORS, telemetry, middleware order, log handlers, module bootstrap, `core/errorreport`: easy members or outside libraries.
