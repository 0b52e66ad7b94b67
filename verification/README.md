# A model of the CDN edge and its router

A caching edge node (request coalescing, stale-while-revalidate, conditional revalidation, circuit breaker, an LRU
store and a hot/cold store) and the router in front of it, with the theorems that hold over all their runs.

`dafny verify dfyconfig.toml` checks everything.

## How the model is laid out

| file | what it holds |
|---|---|
| `EdgeProtocol.dfy` | `CacheService` as a step system: a step is what one coroutine does between two suspension points (the wait on an event, the origin fetch, the start of a background task). Arrivals, completions, failures, cancellations, purges and clock ticks interleave freely. |
| `CacheService.dfy` | the same service as an object updated in place; every method is one step, and the object carries the run it has made, so the theorems about executions are theorems about the object |
| `Coalescing.dfy`, `Progress.dfy`, `Cohort.dfy`, `Stampede.dfy`, `Revalidation.dfy`, `Provenance.dfy`, `StoredEntries.dfy`, `VaryIsolation.dfy`, `ShippedReading.dfy`, `ServiceStore.dfy`, `Staleness.dfy`, `ConditionalFetch.dfy`, `Availability.dfy` | the theorems about all executions of the service |
| `BreakerSteps.dfy`, `ProbeConcurrency.dfy`, `CircuitBreaker.dfy` | the circuit breaker: transitions on values, theorems over runs, and the object |
| `LruContents.dfy`, `LruInclusion.dfy`, `LruStore.dfy` | the LRU store: operations on values, theorems, and the object |
| `TieredContents.dfy`, `TieredRefinement.dfy`, `TieredCounts.dfy`, `DirectoryNames.dfy`, `TieredStore.dfy` | the hot/cold store: operations on values, refinement of an unbounded map, what its counters count, which keys share a directory, and the object |
| `EdgeOrder.dfy`, `Routing.dfy` | the failover order, the failover bound, the routing object and the router's retry loop |
| `CacheControl.dfy`, `DirectiveText.dfy`, `ByteRanges.dfy`, `RangeGrammar.dfy`, `RangeRequests.dfy`, `CacheKeys.dfy` | the parsers and what header texts mean apart from them, the two range resolvers, whole range requests, and the cache keys |
| `Text.dfy`, `Entities.dfy` | strings and the values that pass between components |

Where the source changes state in place, a class has the source's fields and its methods are proved equal to a
function of the old state; the theorems are about runs of those functions. Locks never span a suspension in the
shipped stores and breaker, so one operation is atomic within a step.

### Modelling decisions

- Clocks are real numbers that never go back. The service reads the wall clock once per step and the monotonic
  clock once per step.
- The MD5 digest of a file and the eight-character hash of varying headers are parameters. Theorems that need a
  property of them say so (`Faithful`, or the hash of two dictionaries being different).
- The origin is arbitrary, except in `ConditionalFetch.dfy`, where it is the repository's own.
- Stored entries are values. A lookup stamps the stored entry; the source stamps the shared object.
- `half_open_max_calls`, `failure_threshold` and `success_threshold` are positive where a lemma says `Positive`;
  `WedgedWithoutProbes` shows what happens otherwise.

### Where the code and its documentation disagree

The model follows the code.

- The README of the repository says that concurrent requests for one uncached key cause only one origin fetch.
  `FollowerFetchesIff` is the exact condition, however the leader ends: a follower that resumes next fetches if and
  only if neither a new answer nor an old entry was left under its key and the breaker admits it. `ThreeRequests`
  gives runs with two fetches of one key outstanding, after an uncacheable answer, a failed fetch or a cancelled
  leader; `CohortStampedes` gives them for any number of followers.
- `_schedule_background_revalidation` returns with the comment "already revalidating" when the key is in flight, but
  revalidations never register there. `SchedulesIff`: every stale hit with no leader schedules one;
  `RevalidationsPileUp`: n of them schedule n.
- `half_open_max_calls` is documented as the maximum of concurrent calls in the half-open state. `ConcurrencyBound`
  says exactly when it is; `ProbeBound` is what always holds.
- `record_failure` calls a failure in the open state a no-op. It moves the failure time, so the circuit stays open
  for longer: `LateFailureVisible` says exactly when callers cannot tell, and `LateFailureDelays` gives a run for any
  limits and any delay.
- `effective_ttl` says that no-cache must always revalidate. The code only sets the time to live to zero
  (`NoCacheHasNoLife`). There are two ways in which a stored entry is served without revalidation, and
  `UnfetchedAnswers` says that there is no third. A request may be answered in the step in which it arrives:
  `ServedWithoutFetchIff` says exactly when, and when nothing is scheduled either, in terms of the entry's age and
  window, the breaker and the leader; `NoCacheIsServed` is such a run of the shipped service. Or a follower may be
  answered with the old entry when its leader leaves nothing new: `FollowerServedOldIff` says exactly when, and
  `OldNoCacheIsServed` is a run of the shipped service in which the entry is as old as one likes.
- `content_range` promises concrete positions for the total. `EdgeTruthfulIff` says exactly when the edge's
  Content-Range is that of its body: some existing byte is asked for, and an explicit end is not past the resource.
  `EdgeMisnames` has one header for each way to fail. For an existing file this is also exactly when the edge answers
  as the origin does (`EdgeAgreesWithOrigin`, `EdgeAnswersAsOriginIff`). For a missing one the edge drops the status:
  it answers 206 with a cut of the error page (`MissingIsPartial`).
- The tiered store presents directory names as an encoding of keys. `SameDirectoryIff` says exactly which keys share
  one, and `ShippedRefinesIff` over which sets of keys the store therefore refines an unbounded map.
- `_extract_vary_headers` says that lookups would be driven by the origin's Vary. They look at accept-encoding only:
  `StoredRightIff` says exactly when what is stored for an answer is right for every request that finds it, and
  `HeaderlessIsShared` is a run in which a request is answered with a body fetched for other values.

## Model

| member | source | states |
|---|---|---|
| Coalescing.CoalescingSafety | src/application/cache_service.py:94-114 | In every execution a key is in flight exactly when a leader is active on it, the registered event is that leader's own and unset, two leaders never share an event, and every blocked follower's event is set or is the one registered for its key |
| Coalescing.NextSafe | src/application/cache_service.py:48-114 | Every step, including failure, cancellation and purge, keeps coalescing safety |
| Coalescing.LeaderEnds | src/application/cache_service.py:112-114 | The `finally` of a leader removes its own registration and never another's, and wakes every follower of its event |
| Coalescing.OneLeader | src/application/cache_service.py:94-106 | In a safe state the number of leaders active on a key is one if the key is in flight and zero otherwise |
| Progress.StepWork | src/application/cache_service.py:94-114 | A measure strictly drops on every step of a request or background task, rises by at most two on an arrival, and does not move otherwise |
| Progress.BoundedWork | src/application/cache_service.py:175-211 | Over every execution the tasks take at most two steps per arrival, and what they can still take is the measure |
| Progress.AlwaysOrderly | src/application/cache_service.py:94-100 | In every execution each request waits on at most one event and starts at most one origin fetch, and every live background task is kept referenced |
| Progress.AlwaysLetGo | src/application/cache_service.py:186-195 | In every execution exactly those background tasks are kept referenced that have not ended or were cancelled before they started |
| Progress.Unblocked | src/application/cache_service.py:94-114 | An unfinished task can move, or waits for a leader with a fetch outstanding on its own key |
| Progress.QuietMeansDone | src/application/cache_service.py:94-114 | There is no deadlock: when no fetch is outstanding and nothing can resume or start, every request has ended |
| Progress.EveryRunDrains | src/application/cache_service.py:94-114 | Every run from a safe state without further arrivals takes at most as many task steps as the measure, whichever way each fetch ends and however purges and the clock interleave, and if it goes on until nothing can move, every request has ended |
| Progress.Drains | src/application/cache_service.py:94-114 | Such a run exists from every safe state: ending the outstanding fetches is enough |
| Provenance.ProvenanceAndIsolation | src/application/cache_service.py:66-114 | In every execution whose paths do not end like a varied key, each reply is the synthetic 503, the answer the task itself fetched, or a cacheable answer of the origin for the same path; everything stored is a cacheable answer, so a no-store or private body reaches only the request that fetched it |
| EdgeProtocol.ShippedKeys | src/domain/value_objects.py:24-70 | The shipped service looks up and stores only under keys of the requested path, which provenance needs |
| ShippedReading.StoresIff | src/infrastructure/cache_control.py:39-42 | The shipped service may store an answer if and only if no piece of its Cache-Control text is no-store or private |
| ShippedReading.ForbiddenIsNotStored | src/application/cache_service.py:222-224 | A private or no-store answer leaves the store as it is and is returned to the request that fetched it |
| ShippedReading.NothingPrivateIsShared | src/application/cache_service.py:222-224 | In every execution of the shipped service each reply is the 503, what the request itself fetched, or an answer for its path whose Cache-Control text holds neither private nor no-store |
| VaryIsolation.StoredUnder | src/application/cache_service.py:246-252 | A new answer with Vary, to a request with headers, is stored under the key of its path and of the request's values for those fields; without Vary or headers under the looked-up key; a 304 refreshes the key of the entry it validates |
| VaryIsolation.AlwaysDerived | src/application/cache_service.py:228-268 | In every execution every stored entry holds an answer of the origin with its content, status, headers, ETag and size, under that answer's key; its Vary is that of the answer or of a 304 to a request for its key |
| VaryIsolation.NeverForOtherValues | src/application/cache_service.py:61-66 | In every execution of the shipped service, whatever a request finds under its key was fetched for its own path and its own values of the headers in the entry's Vary, if the hash tells the values apart and no stray answer was stored |
| VaryIsolation.StoredRightIff | src/application/cache_service.py:246-252 | What is stored for an answer is right for every request that finds it if and only if its Vary names only accept-encoding, or it is a new answer to a request with headers |
| VaryIsolation.StrayIsServed | src/application/cache_service.py:157-173 | Otherwise, from any state, another request with other values is answered with it at once, as a hit |
| VaryIsolation.HeaderlessIsShared | src/application/cache_service.py:250-254 | The shipped service has such an execution, for any other field and any body |
| ServiceStore.BodiesFit | src/infrastructure/cache/lru_store.py:40-53 | In every execution the stored bodies fit into the capacity together, unless there is only one |
| Provenance.AlwaysTraced | src/application/cache_service.py:213-270 | The run invariant behind it, for any configuration whose keys belong to the requested path |
| Cohort.CohortServed | src/application/cache_service.py:94-114 | If a leader's response is stored under its followers' key, none of any number of followers that finds it there when it resumes contacts the origin, whatever else the run does; each ends with the leader's content, status and headers, unless cancelled |
| Cohort.CohortUndisturbed | src/application/cache_service.py:94-114 | The same with a condition on the run's steps only: every follower that resumes before anything else is stored or purged is served the leader's answer |
| Stampede.FollowerFetchesIff | src/application/cache_service.py:95-114 | However the leader of a key ends, by an answer, a failure or a cancellation, a follower that resumes next is served the new answer if one was left under its key, else the old entry if it is still stored, and contacts the origin itself if and only if there is neither and the breaker admits it |
| Stampede.AlwaysDistinct | src/infrastructure/cache/lru_store.py:26-81 | In every execution no key is stored twice |
| Stampede.CohortStampedes | src/application/cache_service.py:95-114 | If neither was left and the circuit is closed, then for any number of followers there is a run in which all their fetches of the one key are outstanding at once |
| Stampede.ThreeRequests | src/application/cache_service.py:94-114 | From the start, three requests for a path end with two outstanding fetches of their one key, after any uncacheable answer, and after a failed fetch or a cancelled leader if one failure does not trip the breaker |
| Stampede.ShippedStampede | src/infrastructure/cache_control.py:39-42 | The shipped service has such an execution, with the answer `Cache-Control: no-store` |
| Revalidation.ServedWithoutFetchIff | src/application/cache_service.py:66-111 | A request that finds an entry is answered with it in the step in which it arrives if and only if the entry is inside its window, or the breaker refuses and, if a leader is active, the circuit is open; it then starts and schedules no fetch if and only if the entry is fresh, or inside its window with a leader active, or past its window |
| Revalidation.FollowerServedOldIff | src/application/cache_service.py:95-99 | A follower that resumes after its leader is answered with the old, unvalidated entry if and only if no answer was left for it and the entry is still stored; after a failure or a cancellation, if and only if there was one |
| Revalidation.UnfetchedAnswers | src/application/cache_service.py:66-114 | In every execution a request answered without a fetch of its own was answered as it arrived, under the condition of ServedWithoutFetchIff or with the 503, or as a follower with the entry it found when it resumed |
| Revalidation.NoCacheHasNoLife | src/infrastructure/cache_control.py:44-51 | What the shipped service stores for a no-cache answer has a time to live of zero, counted from that moment |
| Revalidation.NoCacheIsServed | src/infrastructure/cache_control.py:44-51 | The shipped service has a run in which a no-cache answer is served as a hit, with no fetch started or scheduled |
| Revalidation.OldNoCacheIsServed | src/application/cache_service.py:95-99 | For any time later, the shipped service has a run in which a no-cache entry of that age is served to a follower, with no fetch of its own, after its leader's fetch failed and with the circuit closed as it arrived |
| Revalidation.OldIsServedToFollower | src/application/cache_service.py:95-99 | The same for every storable answer, at any time past its window |
| Revalidation.SchedulesIff | src/application/cache_service.py:74-78 | A request schedules a revalidation if and only if it finds an entry past its life but inside its window and no leader is active |
| Revalidation.RevalidationsPileUp | src/application/cache_service.py:175-195 | From any state with a stale entry and no leader, n requests for it schedule n revalidations |
| Cohort.StaysHeld | src/application/cache_service.py:246-270 | Only completions and purges can change what a key holds; lookups, refusals, failures, cancellations and time cannot |
| Cohort.ShippedStoresForFollowers | src/application/cache_service.py:246-252 | In the shipped service a cacheable answer is stored where followers look when there is no Vary, no request headers, or Vary names only accept-encoding and it is present, or when it is a 304 to a conditional fetch |
| Staleness.StalenessBound | src/application/cache_service.py:67-111 | In every execution each request that reports a hit was answered in the step in which it arrived, with an entry no older at that moment than ttl plus stale-while-revalidate, unless the breaker refused in that same step; with the breaker closed there is no exception |
| Staleness.ShippedWindows | src/infrastructure/cache_control.py:58-60 | The parsed stale-while-revalidate windows are never negative, which the bound needs |
| ConditionalFetch.ConditionalFetchPreservesMeaning | src/application/cache_service.py:205-244 | In every execution against the repository's origin, however its files change, each completed fetch returns the body and status that an unconditional GET would return at that moment, and every entry with an ETag is a 200 with the ETag of its own content |
| ConditionalFetch.ReturnsCurrent | src/presentation/origin/routes.py:45-79 | One conditional fetch of an honest entry, answered 304 or not, means the same as an unconditional one, if the digest is injective |
| ConditionalFetch.ShippedPlainIsCacheable | src/application/cache_service.py:216-226 | A response without Cache-Control may be stored |
| ConditionalFetch.ServesByStatus | src/presentation/origin/routes.py:45-79 | The origin's status says whether there is a file, and a file is sent whole, with its quoted ETag, its length and its type |
| ConditionalFetch.UnchangedIsNotSent | src/presentation/origin/routes.py:57-59 | Every stored 200 is revalidated with its ETag, and is answered 304 without a body if and only if the file has not changed |
| ConditionalFetch.NothingToValidate | src/application/cache_service.py:205-207 | Without a stored ETag the fetch is unconditional and never answered 304 |
| ShippedReading.RefreshedEntry | src/application/cache_service.py:228-244 | A 304 keeps the validated content, size, status, headers and ETag under the same key, with the age and times of the 304, and its Vary if it names a field |
| ShippedReading.StoredTimes | src/application/cache_service.py:225-226 | How long a stored answer is fresh and may be served stale, from its directives: no-cache, then s-maxage, then max-age, then the default; stale-while-revalidate |
| ShippedReading.DefaultTimes | src/application/cache_service.py:225-226 | Without Cache-Control an answer is fresh for the default time and never served stale |
| ShippedReading.VaryMeans | src/application/cache_service.py:218-219 | An answer varies on exactly the fields that some part of its Vary text names, in any case and with any blanks |
| ShippedReading.NormalizeMeans | src/application/cache_service.py:168-169 | A request header counts under its lower-case name, with the value of the last one |
| Availability.AlwaysSteady | src/infrastructure/circuit_breaker.py:66-148 | In every execution of the service the breaker is sound and counts no more probes than there are origin fetches outstanding, through failures and cancellations |
| Availability.OriginReachedAgain | src/application/cache_service.py:83-106 | In every execution, once no fetch is outstanding, a request that finds nothing stored reaches the origin if and only if the circuit is not open or its timeout has passed |
| Availability.FailuresExplained | src/application/cache_service.py:100-114 | In every execution a request ends in an error only if its own fetch failed, or if it was a follower or a background task that the breaker refused in the step that ended it; no assert of the breaker ever fails |
| CacheService.CacheService.constructor | src/application/cache_service.py:28-46 | A new service is in the start state of the protocol, with an empty run |
| CacheService.CacheService.GetOrFetch | src/application/cache_service.py:48-106 | What get_or_fetch does up to its first suspension, in place, is exactly the arrival step, and extends the run by it |
| CacheService.CacheService.AfterWait | src/application/cache_service.py:95-100 | What a follower does when its event is set is exactly the resume step |
| CacheService.CacheService.ScheduleBackgroundRevalidation | src/application/cache_service.py:175-195 | A revalidation is scheduled and kept referenced exactly when the key is not in flight |
| CacheService.CacheService.FetchAsLeader | src/application/cache_service.py:102-114 | The leader path registers, and unregisters again within the step when the breaker refuses, answering stale or 503 |
| CacheService.CacheService.Revalidate | src/application/cache_service.py:186-195 | The start of a background task is exactly the launch step |
| CacheService.CacheService.FetchReturns | src/application/cache_service.py:197-270 | What follows an origin answer, through the breaker, the store and the finally blocks, is exactly the completion step |
| CacheService.CacheService.StoreResponse | src/application/cache_service.py:213-270 | The key, the entry and the reply for an answer: nothing stored if uncacheable, the old content refreshed on 304, a new entry under the varied key otherwise |
| CacheService.CacheService.FetchFails | src/application/cache_service.py:104-114 | A raising fetch counts as a failure, releases what the task holds, and ends the task with the error |
| CacheService.CacheService.CancelTask | src/application/cache_service.py:104-114 | A cancellation at any suspension point releases what the task holds; during a fetch it counts as a breaker failure |
| CacheService.CacheService.PurgeKey | src/presentation/edge/routes.py:145-147 | A purge removes exactly that key and says whether it was there |
| CacheService.CacheService.PurgeByPrefix | src/presentation/edge/routes.py:148-150 | A purge by prefix removes and counts exactly the matching keys |
| CacheService.CacheService.AlwaysCoalesced | src/application/cache_service.py:94-114 | The object is coalescing-safe after every sequence of operations |
| BreakerSteps.RunInv | src/infrastructure/circuit_breaker.py:66-157 | After any sequence of operations an open or half-open circuit has a failure time and enough failures, and only a half-open one counts probes and successes, within the limits |
| BreakerSteps.AssertsHold | src/infrastructure/circuit_breaker.py:75-85 | Neither assert of `__aenter__` fails, whatever came before |
| BreakerSteps.ClosedTripsIff | src/infrastructure/circuit_breaker.py:115-148 | In every run an event opens a closed circuit if and only if it is a failure and the failures in a row, with no success or reset between them, have reached the threshold |
| BreakerSteps.EpisodeEnds | src/infrastructure/circuit_breaker.py:115-148 | Any failure reopens a half-open circuit, the success that completes the threshold in the episode closes it, and nothing else but a reset ends the episode |
| BreakerSteps.OpenEnds | src/infrastructure/circuit_breaker.py:58-94 | An open circuit becomes half-open with the first call after the timeout since the last failure, and nothing else but a reset ends it |
| BreakerSteps.RecordedFailure | src/infrastructure/circuit_breaker.py:132-148 | Whenever the circuit is not closed the recorded failure is the last failure event of the run |
| BreakerSteps.RefusalSaysWhen | src/infrastructure/circuit_breaker.py:75-78 | The recovery time of a refusal is in the future and exactly when the circuit reads as half-open, if no failure comes in between |
| BreakerSteps.ProbeBound | src/infrastructure/circuit_breaker.py:80-148 | In each half-open episode at most half_open_max_calls + success_threshold - 1 calls are admitted, even when calls admitted earlier finish during it |
| BreakerSteps.AdmittedLate | src/infrastructure/circuit_breaker.py:58-94 | Without reset, no call is admitted within recovery_timeout of a trip |
| BreakerSteps.TripsApart | src/infrastructure/circuit_breaker.py:132-148 | Two trips are at least recovery_timeout apart |
| BreakerSteps.TripBound | src/infrastructure/circuit_breaker.py:58-148 | A run of length T has at most 1 + T/recovery_timeout trips |
| BreakerSteps.StaysOpen | src/infrastructure/circuit_breaker.py:58-64 | Until a call is admitted a tripped circuit stays open, with a recorded failure no older than the trip |
| BreakerSteps.LateFailureVisible | src/infrastructure/circuit_breaker.py:141-148 | A failure of an open circuit leaves the state that callers see unchanged for all time if and only if it comes at the time of the last recorded failure |
| BreakerSteps.LateFailureDelays | src/infrastructure/circuit_breaker.py:141-148 | For any limits and delay there is a run that would be half-open after the recovery timeout, but for a late failure |
| BreakerSteps.ProbesInFlight | src/infrastructure/circuit_breaker.py:66-148 | Under context-manager use the probes counted never exceed the calls in flight |
| BreakerSteps.NeverWedged | src/infrastructure/circuit_breaker.py:72-92 | With nothing in flight a call is refused only because the timeout has not passed |
| BreakerSteps.WedgedWithoutProbes | src/infrastructure/circuit_breaker.py:80-85 | With half_open_max_calls not positive a tripped circuit never admits a call again |
| BreakerSteps.Recovers | src/infrastructure/circuit_breaker.py:115-127 | After the timeout, with nothing in flight, every sequential call is admitted and exactly success_threshold successes close the circuit and clear it |
| ProbeConcurrency.ConcurrencyBound | src/infrastructure/circuit_breaker.py:29-37 | At most half_open_max_calls probes are ever in progress at once in the next half-open episode if and only if no older call is still in flight or one success closes the circuit |
| ProbeConcurrency.Exceeds | src/infrastructure/circuit_breaker.py:117-127 | With an older call in flight and a success threshold above one, a run of the episode has one probe too many |
| CircuitBreaker.CircuitBreaker.AEnter | src/infrastructure/circuit_breaker.py:66-95 | Admission in place is the transition of the run model, refusals carry the recovery time and change nothing |
| CircuitBreaker.CircuitBreaker.AExit | src/infrastructure/circuit_breaker.py:97-113 | Leaving records a success exactly when no exception is in progress |
| CircuitBreaker.CircuitBreaker.RecordSuccess | src/infrastructure/circuit_breaker.py:115-130 | The fields after a success are the run model's |
| CircuitBreaker.CircuitBreaker.RecordFailure | src/infrastructure/circuit_breaker.py:132-148 | The fields after a failure are the run model's |
| CircuitBreaker.CircuitBreaker.Reset | src/infrastructure/circuit_breaker.py:150-157 | Reset gives the initial state from any state |
| CircuitBreaker.CircuitBreaker.State | src/infrastructure/circuit_breaker.py:58-95 | What the state tells a caller: closed means that entering is admitted and changes nothing, open that it is refused, half-open that it is admitted if and only if there are fewer probes than allowed |
| LruContents.PutSurvivors | src/infrastructure/cache/lru_store.py:40-53 | The survivors of a put are exactly the longest most-recently-used suffix of the other entries that leaves room, or none; what is evicted is the rest, in order |
| LruContents.RunInvariant | src/infrastructure/cache/lru_store.py:26-81 | After any run keys are distinct, the order is last-use order, and the size is within capacity unless one lone entry is stored |
| LruInclusion.Inclusion | src/infrastructure/cache/lru_store.py:26-53 | On every read-through trace with a fixed size per key, the smaller store is the most-recently-used end of the larger one |
| LruInclusion.MoreBytesNoMoreMisses | src/infrastructure/cache/lru_store.py:106-111 | So a hit with fewer bytes is a hit with more, and more bytes never cause more misses |
| LruStore.LRUCacheStore.Get | src/infrastructure/cache/lru_store.py:26-38 | A hit stamps the entry, moves it to the most-recently-used end and counts; a miss only counts; expired entries are still returned |
| LruStore.LRUCacheStore.RemoveEntry | src/infrastructure/cache/lru_store.py:102-104 | Removal keeps the byte counter equal to the sum of the sizes |
| LruStore.LRUCacheStore.EvictLru | src/infrastructure/cache/tiered_store.py:39-43 | Eviction takes the least recently used entry, counts it, and hands it to the callback of the tiered subclass |
| LruStore.LRUCacheStore.MakeRoom | src/infrastructure/cache/lru_store.py:47-50 | The eviction loop stops at the first suffix that leaves room, counts what it evicts and hands it over in order |
| LruStore.LRUCacheStore.Put | src/infrastructure/cache/lru_store.py:40-53 | A put replaces the key, evicts as PutSurvivors describes, and keeps the byte counter equal to the sum of the sizes |
| LruStore.LRUCacheStore.Delete | src/infrastructure/cache/lru_store.py:55-60 | Exactly that key goes, and the result says whether it was there |
| LruStore.LRUCacheStore.DeleteByPrefix | src/infrastructure/cache/lru_store.py:62-67 | Exactly the keys with the prefix go, and they are counted |
| LruStore.LRUCacheStore.Keys | src/infrastructure/cache/lru_store.py:69-81 | Exactly the expired entries go, and the keys left are listed in order |
| TieredRefinement.RunRefines | src/infrastructure/cache/tiered_store.py:84-143 | With distinct directories, over every run of get, put, delete, delete_by_prefix and keys, each result is one an unbounded map could give: an unexpired key gives its last put entry on all persisted fields, no key is in both tiers, demotions equal hot evictions and promotions equal cold hits |
| TieredRefinement.RefinesIffDistinctDirectories | src/infrastructure/cache/tiered_store.py:191-192 | For any set of keys and any capacity, all runs over those keys are allowed by the map if and only if the keys have distinct directories |
| DirectoryNames.ShippedRefinesIff | src/infrastructure/cache/tiered_store.py:16-24 | For any capacity and set of keys, the shipped store refines the unbounded map over all runs on those keys if and only if no two of them have the same words, the maximal runs of kept characters |
| DirectoryNames.SameDirectoryIff | src/infrastructure/cache/tiered_store.py:16-24 | Two keys share a directory if and only if they have the same words in the same order |
| DirectoryNames.NameOfWords | src/infrastructure/cache/tiered_store.py:16-24 | A directory name is the words of its key joined by underscores, or a name of its own if there are none |
| DirectoryNames.UnsafeIsReserved | src/infrastructure/cache/tiered_store.py:22 | The characters replaced are the printable ASCII ones that are not unreserved in section 2.3 of RFC 3986 |
| DirectoryNames.NamesArePlain | src/infrastructure/cache/tiered_store.py:16-24 | No directory name holds a replaced character, so no separator of paths |
| TieredCounts.CountersAddUp | src/infrastructure/cache/tiered_store.py:84-116 | Over every run every get is a hot hit or a hot miss, every hot miss a cold hit or a cold miss, and the hits are the gets that find their key in that tier |
| TieredCounts.LastDemotedWins | src/infrastructure/cache/tiered_store.py:180-210 | Of the entries demoted together the last one for a directory is there afterwards, and other directories stay as they are |
| TieredCounts.GetSettles | src/infrastructure/cache/tiered_store.py:84-116 | After a get that finds nothing neither tier holds the key, expired or not; after a cold hit the hot tier does |
| TieredRefinement.LookAlikesCollide | src/infrastructure/cache/tiered_store.py:16-24 | Keys that differ only in replaced characters share a directory, and a run loses one of them |
| TieredRefinement.CollisionLoses | src/infrastructure/cache/tiered_store.py:118-125 | The run: two keys in one directory, where a second put of one erases the demoted copy of the other |
| TieredRefinement.PrefixCount | src/infrastructure/cache/tiered_store.py:133-137 | delete_by_prefix counts exactly the resident keys with the prefix, over both tiers |
| TieredStore.TieredCacheStore.constructor | src/infrastructure/cache/tiered_store.py:57-82 | A new store is empty in both tiers and names directories by the encoding of keys |
| TieredStore.TieredCacheStore.FlushDemotions | src/infrastructure/cache/tiered_store.py:180-189 | Every queued demotion is written in order, a later one for the same directory winning, each is counted, and the queue is empty afterwards |
| TieredStore.TieredCacheStore.Get | src/infrastructure/cache/tiered_store.py:84-116 | Hot hit, cold miss, expired cold entry and promotion with the demotions it triggers, with all six counters; the demotion queue is empty afterwards |
| TieredStore.TieredCacheStore.Put | src/infrastructure/cache/tiered_store.py:118-125 | The cold copy of the directory goes, the entry lands in the hot tier, and what that evicts is demoted |
| TieredStore.TieredCacheStore.Delete | src/infrastructure/cache/tiered_store.py:127-131 | The key goes from both tiers, and the result says whether it was in one |
| TieredStore.TieredCacheStore.DeleteByPrefix | src/infrastructure/cache/tiered_store.py:133-137 | Matching entries go from both tiers, and the count is the sum |
| TieredStore.TieredCacheStore.ColdDeleteByPrefix | src/infrastructure/cache/tiered_store.py:249-267 | The directory scan, in any order, removes and counts exactly the directories whose recorded key has the prefix |
| TieredStore.TieredCacheStore.ColdListKeys | src/infrastructure/cache/tiered_store.py:269-294 | The scan, in any order, prunes exactly the expired directories and lists the recorded keys of the others |
| TieredStore.TieredCacheStore.Keys | src/infrastructure/cache/tiered_store.py:139-143 | The keys listed are the unexpired ones of both tiers, and the expired ones are pruned |
| EdgeOrder.OrderIsUnique | src/application/routing_service.py:75-99 | The failover order is determined: healthy edges, each id once, sorted by the rank of their region and then by configuration order, for any priority table and even with repeated ids |
| EdgeOrder.OrderHoldsHealthy | src/application/routing_service.py:75-99 | With unique ids the order holds exactly the healthy edges |
| EdgeOrder.NearestIsHead | src/application/routing_service.py:50-73 | The nearest edge is the head of the order, and there is none if and only if the order is empty |
| EdgeOrder.RequestUsesUpDead | src/presentation/router/routes.py:142-197 | With a live edge in service, a request marks down as many dead edges as it fails over, never a live one, and exactly three if it ends in 503 |
| EdgeOrder.FailoverBound | src/presentation/router/routes.py:123-197 | With fixed liveness and no recovery marking, of sequential requests from any regions at most a third of the dead edges marked healthy end in 503 |
| Routing.RoutingService.constructor | src/application/routing_service.py:33-48 | All edges start healthy, in the configured order, and an empty priority table is replaced by the default |
| Routing.RoutingService.GetNearestEdge | src/application/routing_service.py:50-73 | For the preference list of the client's own region, else of the default region, else none, the nested scan returns the healthy edge that comes before all others, or null exactly when none is healthy; it is in the client's region if that has a healthy edge and comes first in its own list |
| Routing.RoutingService.GetOrderedEdges | src/application/routing_service.py:75-99 | The nested scan with its seen set returns the failover order for that list |
| Routing.ShippedTable | src/application/routing_service.py:16-22 | In the shipped table every region comes first in its own list, the others follow in a fixed order, and an unknown region gets the list of eu |
| EdgeOrder.NoPreference | src/application/routing_service.py:93-97 | Without a list the order is that of the configuration |
| EdgeOrder.ServedInOwnRegion | src/presentation/router/routes.py:123-197 | A client whose region comes first and has only live healthy edges is answered there at the first attempt |
| Routing.RoutingService.Mark | src/application/routing_service.py:101-115 | The status of the id and the flag of the first edge with that id change, nothing else, and with unique ids flags and statuses stay in step |
| Routing.ProxyToEdge | src/presentation/router/routes.py:123-197 | In the failover order for the client's region, the request is answered by the first live edge within three attempts, with exactly the earlier ones marked down, or all attempted ones are dead and marked down and the answer is 503 |
| CacheKeys.KeyDeterminesPath | src/domain/value_objects.py:24-70 | Paths that do not end like a varied key never share a cache key |
| CacheKeys.UncleanTwin | src/domain/value_objects.py:29-30 | The hypothesis is needed: every path and varied dictionary has a twin path with the same key |
| CacheKeys.StoreKeyIsLookupKey | src/application/cache_service.py:157-173 | A response is stored under the key its request looked up when there is no Vary, no request headers, or Vary names only accept-encoding and it is present; otherwise the two keys differ if and only if the looked-up key carries no hash or the hash tells the two dictionaries apart |
| CacheControl.ParseConcat | src/infrastructure/cache_control.py:79-150 | For all strings, parsing two headers joined by a comma merges the two parses, numbers right-biased and flags or-ed, and the whole is cacheable if and only if both parts are |
| CacheControl.ApplyAllMeans | src/infrastructure/cache_control.py:92-150 | Flags mean presence, numbers mean the last valid value: the loop's result stated without the loop |
| CacheControl.MeansUnique | src/infrastructure/cache_control.py:92-150 | That meaning determines the directives |
| CacheControl.ParsePermuted | src/infrastructure/cache_control.py:101-139 | Directives with distinct names may come in any order |
| DirectiveText.FlagsIff | src/infrastructure/cache_control.py:101-139 | For every header text each flag is set if and only if some comma-separated piece is that directive, in any case, with any blanks, with or without a value |
| DirectiveText.CacheableIff | src/infrastructure/cache_control.py:39-42 | For every header text an answer may be stored if and only if no piece is no-store or private |
| DirectiveText.FlagSets | src/infrastructure/cache_control.py:106-139 | A directive without a value sets exactly its own flag; the numeric ones and unknown names set nothing |
| DirectiveText.NumberSets | src/infrastructure/cache_control.py:106-139 | A directive with a number, quoted or not, sets exactly its own field to that number |
| DirectiveText.ParseIntIff | src/infrastructure/cache_control.py:64-76 | A value is a number if and only if it is digits with an optional quote on either side, up to blanks, and is then what the digits say |
| DirectiveText.TimesMean | src/infrastructure/cache_control.py:44-60 | The order of precedence of the times, in terms of the last valid value of each directive |
| CacheControl.NoStoreForbids | src/infrastructure/cache_control.py:39-42 | The header `no-store` makes a response uncacheable |
| CacheControl.NoCacheAllows | src/infrastructure/cache_control.py:39-60 | The header `no-cache` leaves it cacheable, with no time to live and no stale window |
| Text.SplitJoin | src/infrastructure/cache_control.py:101 | Splitting at a separator loses nothing, and no part holds the separator |
| Text.StripSplits | src/infrastructure/cache_control.py:102 | Stripping takes off blanks at the ends and nothing else |
| Text.WhichAreBlank | src/infrastructure/cache_control.py:102 | Which ASCII characters count as blanks |
| Text.LowerMeans | src/application/cache_service.py:168 | Lower-casing identifies exactly the two cases of a letter |
| CacheControl.ParseCacheControl | src/infrastructure/cache_control.py:79-150 | The loop over eight locals computes the fold that the laws are about |
| ByteRanges.RoundTrip | src/domain/value_objects.py:117-189 | Printing and parsing a range gives it back if and only if it has a bound and no negative one; otherwise the header is rejected |
| RangeGrammar.RangesRoundTrip | src/domain/value_objects.py:152-189 | Printing any number of well-formed ranges and parsing them gives them back, in order |
| RangeGrammar.ReadSpecIff | src/domain/value_objects.py:99 | A part is read as a range if and only if it is written as blanks, digits, blanks, a dash, blanks, digits, blanks with those numbers, at least one of them there |
| RangeGrammar.ReadsInOrder | src/domain/value_objects.py:175-189 | The parts are read in order, each as its own range, and one bad part rejects the header |
| RangeGrammar.RangeSetIff | src/domain/value_objects.py:98 | A header is accepted with a set of ranges if and only if it is written as the unit in any case, an equals sign and the set on one line, with any blanks around them and perhaps a newline at the end |
| ByteRanges.ParsedWellFormed | src/domain/value_objects.py:152-189 | For every header, a successful parse gives at least one range, each with a bound and none negative |
| ByteRanges.ParseRangeHeader | src/domain/value_objects.py:152-189 | The loop with its early errors computes the parse that the laws are about |
| ByteRanges.OriginBounds | src/presentation/origin/routes.py:122-133 | The positions between the origin's bounds are exactly those that the range asks for and that exist |
| ByteRanges.EdgeBounds | src/application/cache_service.py:129-139 | The same for the edge's own resolver |
| ByteRanges.OriginTruthful | src/presentation/origin/routes.py:104-153 | The origin answers 206 exactly when some existing byte is asked for, with a Content-Range that names exactly the bytes sent, and 416 with the total otherwise |
| ByteRanges.CutsAgree | src/application/cache_service.py:129-147 | The edge sends the origin's bytes when the origin answers 206, with the same Content-Range unless the explicit end is past the total, and an empty body exactly when the origin answers 416 |
| ByteRanges.EdgeTruthfulIff | src/domain/value_objects.py:127-150 | The edge's Content-Range names exactly the bytes of its body if and only if some existing byte is asked for and an explicit end is not past the resource |
| ByteRanges.EdgeMisnames | src/domain/value_objects.py:127-150 | A header for each way to fail, with both answers: `bytes=0-` of an empty resource, and `bytes=0-9` of one byte |
| ByteRanges.EdgeAgreesWithOrigin | src/application/cache_service.py:116-147 | For every header string and the content of one existing file, the edge fails exactly when the header does not parse, where the origin answers 416; the two answers are equal exactly when the edge's Content-Range is that of its body, which is when the origin answers 206 and the first range has no overlong end |
| RangeRequests.EdgeAnswersAsOriginIff | src/application/cache_service.py:116-147 | When get_or_fetch returns what an unconditional GET returns at that moment, for any path, the edge answers a range request as the origin does if and only if the file exists, the origin answers 206, and the first range has no overlong end |
| RangeRequests.StatusIsDropped | src/application/cache_service.py:123-147 | Whatever the status of the full answer, a header that parses is answered 206, with a body exactly when some existing byte is asked for |
| RangeRequests.MissingIsPartial | src/presentation/origin/routes.py:51-52 | A missing file is 404 at the origin and 206 at the edge, with a cut of the error page |
| ByteRanges.RangeLineInjective | src/domain/value_objects.py:127-150 | Two Content-Range lines for one total are equal only if their positions are |

## Left out

- The HTTP clients with their retries and backoff, the shield, the FastAPI applications, middleware, dashboards,
  logging and configuration parsing: plumbing around libraries.
- Signed URLs (`src/infrastructure/auth.py`) and response compression: their substance is in foreign calls.
- PurgeService, WarmService, HealthService and MetricsService: they add only easy members. The effect of a health
  check is `RoutingService.MarkHealthy` and `MarkUnhealthy`.
- Statistics dictionaries and the drain counter of the edge: easy next to the rest.
- `CacheService.shutdown`: it is a cancellation of each background task, which the model has as a step.
- Query parameters of `CacheKey.from_request`: the service never passes them.
- Filesystem faults, JSON syntax and path-length limits of the cold tier, which is a map from directory name to file.
- Suspension inside the tiered store: its two locks are taken one after the other without a suspension point.
- Aliasing of entry objects: entries are values, so a caller that changed a returned entry would not be seen.
- Which of its two ValueErrors a Range header with nothing but blanks after the unit gets; both are rejections.
- Clock jumps and the rounding of floating-point times.
- Characters outside ASCII, and the interpreter's limit on the number of digits that it converts.
- MD5 itself, and headers that the web framework adds to the origin's responses.
