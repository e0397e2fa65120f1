# Verified engines of nestjs-boot

A Dafny model of the algorithmic core of nestjs-boot, with proofs. It covers:

- **Cycle detection**: Tarjan's algorithm over the module graph, with its stack, low-links and recursive search.
- **Circuit breaker, retries and the resilient client**: calls are asynchronous, so between the admission of a call and
  its completion any other call, completion or reset may happen.
- **Transactional outbox**: the polling processor, its batches, retries and dead letters, with inserts, failures and
  crashes between any two of its steps.
- **Two-level cache, cached repositories and stampede guard**: layers that expire and evict at will.
- **Webhook deduplication**: a bounded, expiring map in insertion order that failing handlers delete from.
- **Configuration merging and lookup, event replay, sagas**: folds over sources, events and steps.

## How it is built

Objects that update their fields are classes (`Tarjan`, `CircuitBreaker`, `OutboxProcessor`, `MultiCacheService`,
`CachedRepository`, `WebhookController`, `CacheStampedeGuard`, `SagaBuilder`). Each method is one stretch of the
original that runs without an `await`, or a whole operation where the properties are about sequential use; its
postcondition ties the new state to a function of the old one. What those functions guarantee over whole runs is then
proved about event sequences: `Run(start, events)` is the state after any list of events, and `Possible` says which
event can come next (a call completes only after it was admitted, the clock does not run backwards). A run also keeps
a log or history; the theorems compare the fields of the object with what the log says happened.

| file | content |
|---|---|
| `common.dfy` | small notions that several engines use |
| `digraph.dfy` | graphs, walks, reachability |
| `components.dfy` | strongly connected components, which of them are reported, what that does and does not say |
| `depth_first.dfy` | the depth-first visiting order, defined without stack or low-links |
| `search_invariant.dfy` | the invariant of the search and how each of its moves keeps it |
| `cycle_detector.dfy` | the algorithm itself |
| `cycle_walks.dfy` | in how far a reported array is a cycle, and an empty answer an acyclic graph |
| `circuit_breaker.dfy`, `resilient_client.dfy`, `retry.dfy`, `client_retries.dfy` | breaker, calls through it, the retry loop and its delays; the life of one call |
| `outbox.dfy`, `outbox_protocol.dfy`, `outbox_refinement.dfy`, `outbox_fairness.dfy` | polls; the protocol step by step; a call of the processor as a run of it; how long it keeps an entry waiting |
| `multi_cache.dfy`, `cached_repository.dfy`, `stampede_guard.dfy`, `stampede_outcomes.dfy` | the caches |
| `webhook_dedup.dfy`, `webhook_runs.dfy`, `webhook_skips.dfy` | the dedup store; runs of deliveries and failures; which deliveries are skipped |
| `config_merge.dfy`, `event_replay.dfy`, `event_trace.dfy`, `saga.dfy` | the three transformations |

## Where code and documentation disagree

The model follows the code.

- `src/graph/cycle-detector.ts:3-4` promises that each array lists the nodes "forming the cycle" and that no array means
  an acyclic graph. An empty answer means an acyclic graph exactly if no known node is listed with an edge to itself
  (`CycleWalks.EmptyMeansAcyclicEdges`), for self-loops are not reported. The arrays are strongly connected components in
  order of discovery. Each node of an array is entered by an edge from another one, all but the first from an earlier one
  (`CycleWalks.MembersAreEntered`), and where the component is a simple cycle the array walks around it
  (`CycleWalks.ReportedArrayIsCycle`); in general it need not be walkable (`Components.ComponentNeedNotBeAWalk`).
- `docs/api/resilience.md:29` says that reaching `halfOpenMax` opens the breaker. The code refuses the call and stays
  half-open (`CircuitBreaking.LimitRefusalCountsProbes`). It has a call in flight that will move it on, over all runs, if
  and only if `halfOpenMax` is at least one (`CircuitBreaking.NeverStuckIffProbes`).
- `src/cache/cache-stampede.ts:49` promises one factory call for concurrent requests. A request whose cache miss arrives
  after the leader has cleaned up runs the factory again (`StampedeGuard.LateMissRunsFactoryAgain`). The `:lock` entry is
  written and deleted but never read, so nothing is claimed across processes.
- `src/cqrs/saga.ts:75-79` promises to compensate all completed steps in reverse. Steps are found again by name, so this
  holds exactly when the completed names are distinct (`Saga.CompensatesItselfIffDistinct`).
- `src/cache/multi-cache.service.ts:51-55`: a large value written with `set` does not remove an older small one from the
  first layer, which then shields it. `MultiCache.GetAfterSet` says exactly when a value is read back, and
  `MultiCache.GetAfterGetOrSet` that `getOrSet` never meets the shielded case.

## Model

| member | source | states |
|---|---|---|
| CycleDetector.EdgesOfAdjacency | src/graph/cycle-detector.ts:10-20 | the searched graph has exactly the listed edges whose two ends are listed nodes |
| CycleDetector.TargetsAreListed | src/graph/cycle-detector.ts:15-20 | a node's targets are those of its listed edges to known nodes, each as often and in the order in which it is listed |
| CycleDetector.BuildAdjacency | src/graph/cycle-detector.ts:11-20 | the two loops build that graph, each node's targets in the order of the edge list |
| CycleDetector.Tarjan.Enter | src/graph/cycle-detector.ts:31-35 | `v` gets the next index as index and low-link and goes on top of the stack; nothing else changes |
| CycleDetector.Tarjan.PopTo | src/graph/cycle-detector.ts:48-54 | exactly the stack from `v` upwards is removed, from the stack and from the on-stack set, and returned top first |
| CycleDetector.Tarjan.PopComponent | src/graph/cycle-detector.ts:48-60 | what was popped becomes one component; `sccs` stays the list of components with two nodes or more |
| CycleDetector.Tarjan.FollowEdge | src/graph/cycle-detector.ts:37-44 | one edge of `v`: the search invariant holds with one more edge followed, and visiting goes on in depth-first order |
| CycleDetector.Tarjan.Leave | src/graph/cycle-detector.ts:46-61 | after all edges: whether or not `v` is a root, the exploration of `v` is complete and the invariant holds without `v` among the open nodes |
| CycleDetector.Tarjan.StrongConnect | src/graph/cycle-detector.ts:30-62 | terminates with the unvisited nodes as measure, visits what depth-first search discovers from `v` in its order, scans each adjacency entry of each newly visited node once, and keeps the invariant |
| SearchInvariant.EnterKeepsInv | src/graph/cycle-detector.ts:31-35 | entering keeps the stack sorted by index, each stack node reaching all later ones and some open node at most as old |
| SearchInvariant.LeaveKeepsInv | src/graph/cycle-detector.ts:46-47 | a node that reaches an older stack node may be left on the stack |
| SearchInvariant.AboveRootIsMutual | src/graph/cycle-detector.ts:46-54 | at a root, every stack node above it reaches it back |
| SearchInvariant.PopKeepsInv | src/graph/cycle-detector.ts:46-60 | at a root, the popped part is strongly connected and has edges only into itself and finished components |
| SearchInvariant.ScanTree | src/graph/cycle-detector.ts:38-40 | taking the minimum with the low-link of an explored child keeps the low-link below all stack targets seen, with a witness on the stack |
| SearchInvariant.ScanSeen | src/graph/cycle-detector.ts:41-43 | the same for a visited target: its index counts if it is on the stack, and may be ignored if it is not |
| SearchInvariant.ScanEndRoot | src/graph/cycle-detector.ts:47 | when the low-link equals the index, every edge from the stack from `v` upwards leads to a visited node that is not an older stack node |
| SearchInvariant.FollowSeen | src/graph/cycle-detector.ts:41-43 | one turn of the loop whose target is visited keeps invariant, frame and scan count |
| SearchInvariant.FollowTree | src/graph/cycle-detector.ts:38-40 | so does one turn that explores its target |
| SearchInvariant.EndAtRoot | src/graph/cycle-detector.ts:47-61 | leaving a root completes the exploration of `v` and restores the stack |
| SearchInvariant.EndInside | src/graph/cycle-detector.ts:47-62 | so does leaving any other node, which stays on the stack above an older node it reaches |
| CycleDetector.FinishedIsCondensation | src/graph/cycle-detector.ts:64-70 | once all nodes are finished, the lists popped are the strongly connected components, each once, in reverse topological order |
| CycleDetector.SearchAll | src/graph/cycle-detector.ts:64-68 | the loop over the nodes visits all of them in depth-first order and leaves nothing open and an empty stack |
| CycleDetector.DetectCycles | src/graph/cycle-detector.ts:6-71 | for all nodes and edges: returns exactly the components with two nodes or more, in reverse topological order; the visiting order is the depth-first one, each node entered once, each kept edge scanned once, each array in order of discovery |
| DepthFirst.Visit | src/graph/cycle-detector.ts:30-45 | reference definition: depth-first visiting only ever appends to the order |
| DepthFirst.VisitAllFromFirst | src/graph/cycle-detector.ts:37-45 | a list of nodes is visited from its first to its last |
| Components.ReportedMembers | src/graph/cycle-detector.ts:56-60 | reporting drops exactly the single-node components |
| Components.ReportedSinksFirst | src/graph/cycle-detector.ts:56-60 | reporting keeps the reverse topological order |
| Components.ReportedListsCycles | src/graph/cycle-detector.ts:56-60 | any two distinct mutually reachable nodes share a reported array, and every array is a maximal such set without repeats |
| Components.EmptyIffNoProperCycle | src/graph/cycle-detector.ts:1-5 | the result is empty if and only if no closed walk visits two distinct nodes |
| Components.AcyclicIffEmptyWithoutLoops | src/graph/cycle-detector.ts:4 | the graph has no closed walk of positive length if and only if nothing is reported and no node has an edge to itself |
| Components.EmptyMeansAcyclic | src/graph/cycle-detector.ts:4 | an empty answer means an acyclic graph exactly if no node has an edge to itself |
| CycleWalks.EmptyMeansAcyclicEdges | src/graph/cycle-detector.ts:4 | the same on the lists that are passed in: no listed node is listed with an edge to itself |
| DepthFirst.VisitFinds | src/graph/cycle-detector.ts:37-39 | every node a visit discovers, but its root, is the target of an edge from a node it discovered before |
| DepthFirst.VisitAllIsGapless | src/graph/cycle-detector.ts:30-45 | in the visiting order, whatever lies between a node and one of its successors has a predecessor from that node on |
| CycleWalks.FoundInside | src/graph/cycle-detector.ts:30-62 | a member of a component that is not its first to be discovered has a predecessor in the component, discovered before it |
| CycleWalks.MembersAreEntered | src/graph/cycle-detector.ts:3 | in every reported array each node but the first is entered by a listed edge from an earlier node, and the first from another node |
| CycleWalks.ReportedArrayIsCycle | src/graph/cycle-detector.ts:3 | where no two listed edges lead from one member of an array to different other members, an edge leads from each node of the array to the next and from the last to the first |
| Components.ComponentNeedNotBeAWalk | src/graph/cycle-detector.ts:3 | a family of graphs, over all names, where no order of the component can be walked around |
| Components.SelfLoopIsNotReported | src/graph/cycle-detector.ts:4 | for every node, the graph that has only a loop at it has a closed walk and an empty result |
| CircuitBreaking.CircuitBreaker.constructor | src/resilience/circuit-breaker.ts:30-39 | a breaker starts closed with all counters zero |
| CircuitBreaking.CircuitBreaker.ChangeStatus | src/resilience/circuit-breaker.ts:99-108 | a transition sets the time of the next attempt only when it opens the breaker, and does nothing if the state is the same |
| CircuitBreaking.CircuitBreaker.TryEnter | src/resilience/circuit-breaker.ts:52-69 | who is admitted, who is refused and why, and what admission changes |
| CircuitBreaking.CircuitBreaker.OnSuccess | src/resilience/circuit-breaker.ts:79-85 | a success closes a half-open breaker and clears both counters, in any state |
| CircuitBreaking.CircuitBreaker.OnFailure | src/resilience/circuit-breaker.ts:87-97 | a failure counts in any state, reopens a half-open breaker and opens a closed one at the threshold |
| CircuitBreaking.CircuitBreaker.ResetAll | src/resilience/circuit-breaker.ts:45-50 | back to the initial state |
| CircuitBreaking.RunKeepsInv | src/resilience/circuit-breaker.ts:45-108 | under every interleaving of begins, completions, stragglers and resets the fields agree with the log |
| CircuitBreaking.AdmissionIff | src/resilience/circuit-breaker.ts:52-69 | over all runs, from the log: a call is admitted if and only if the breaker is closed, or open with the timeout passed and `halfOpenMax >= 1`, or half-open with fewer than `halfOpenMax` calls admitted in this episode; and which reason each refusal carries |
| CircuitBreaking.StatusAfter | src/resilience/circuit-breaker.ts:45-108 | over all runs, from the log: the status after every kind of event, so exactly what opens, half-opens and closes a breaker, and when the move is dated |
| CircuitBreaking.ResetCloses | src/resilience/circuit-breaker.ts:45-50 | a reset leads from every reachable state to the initial one, and the next call is admitted at any time |
| CircuitBreaking.HalfOpenCountsProbes | src/resilience/circuit-breaker.ts:52-97 | in every reachable half-open state `1 <= halfOpenAttempts <= halfOpenMax`, and the counter is the number of calls admitted in this episode, all of them still in flight |
| CircuitBreaking.LimitRefusalCountsProbes | src/resilience/circuit-breaker.ts:62-64 | a refusal for the limit changes nothing and means that exactly `halfOpenMax` probes are outstanding |
| CircuitBreaking.HalfOpenIsLeft | src/resilience/circuit-breaker.ts:79-97 | a half-open breaker has a call in flight, and the next completion of any call closes or opens it |
| CircuitBreaking.StuckWithoutProbes | src/resilience/circuit-breaker.ts:62-64 | with `halfOpenMax < 1`, half-open with nothing in flight refuses every call until a reset |
| CircuitBreaking.StuckIsReached | src/resilience/circuit-breaker.ts:53-97 | with `halfOpenMax < 1`, from any state that is not half-open and has nothing in flight, the start included, some run in clock order leads to half-open with nothing in flight |
| CircuitBreaking.NeverStuckIffProbes | src/resilience/circuit-breaker.ts:52-97 | every run from the start that ends half-open has a call in flight, if and only if `halfOpenMax >= 1` |
| CircuitBreaking.CounterIsTrailingRun | src/resilience/circuit-breaker.ts:79-97 | `failureCount` is the length of the trailing run of failures since the last reset; closed means below the threshold |
| CircuitBreaking.OpensExactlyAtThreshold | src/resilience/circuit-breaker.ts:87-97 | a closed breaker opens exactly at the failure that makes the run reach the threshold, and never becomes half-open directly |
| CircuitBreaking.OpenBlocks | src/resilience/circuit-breaker.ts:52-60 | while open, whatever stragglers do, the time of the next attempt does not move and no call is admitted before it |
| CircuitBreaking.OpenAdmitsAtTimeout | src/resilience/circuit-breaker.ts:53-60 | an open breaker admits a call exactly from `resetTimeout` after it opened, as first probe |
| CircuitBreaking.StepCalls | src/resilience/circuit-breaker.ts:52-77 | exactly the admitted calls enter the set in flight, exactly the completed one leaves it |
| CircuitBreaking.StepReportsOnce | src/resilience/circuit-breaker.ts:66-76 | each admitted call reports one outcome when it completes and none before |
| ResilientClient.EventsArePossible | src/transport/resilient-client.ts:102-113 | each thing that happens to a client call is at most one event of the breaker, and one the breaker expects |
| ResilientClient.RunKeepsInv | src/transport/resilient-client.ts:102-149 | over all interleavings of client calls: the calls in progress are those the breaker waits for, and none sends more than `maxAttempts` times |
| ResilientClient.OneOutcomePerCall | src/transport/resilient-client.ts:102-149 | every admitted call that ended reported exactly one outcome, however many attempts it made; refused calls report nothing and send nothing |
| ResilientClient.TotalSends | src/transport/resilient-client.ts:117-149 | total sends are at most `maxAttempts` times the number of admitted calls |
| ResilientClient.EpisodeSends | src/transport/resilient-client.ts:102-149 | the calls admitted in one half-open episode make at most `halfOpenMax * maxAttempts` sends, however long one follows them |
| ClientRetries.CallIsRetryLoop | src/transport/resilient-client.ts:102-149 | a call that is over, whatever other calls did in between, made as many sends as the retry loop makes on the outcomes of its attempts, and the breaker was told a success exactly if the last one succeeded |
| ClientRetries.CallGoesOn | src/transport/resilient-client.ts:124-146 | a call that is not over has only failed, retryable attempts, fewer than the limit: none is given up early |
| Retry.CallWithRetry | src/transport/resilient-client.ts:117-149 | attempts stop at the first success, non-retryable failure or last attempt; the result is that attempt's; the waits are those between the attempts made; with no attempt allowed the initial error is thrown |
| Retry.StopsOnce | src/transport/resilient-client.ts:124-146 | the number of attempts is determined by their outcomes |
| Retry.FixedDelays | src/resilience/retry.decorator.ts:21-23 | a fixed delay is the smaller of base and cap, whichever the attempt and the draw |
| Retry.UncappedDelay | src/resilience/retry.decorator.ts:24-27 | below the cap a delay without its draw doubles with each attempt, from the base |
| Retry.DelayBounds | src/resilience/retry.decorator.ts:15-28 | each exponential delay lies between the capped exponential and the cap |
| Retry.DelaysNeverShrink | src/resilience/retry.decorator.ts:24-27 | successive delays never shrink, for any two draws in `[0, base/2]` |
| Retry.TotalWait | src/transport/resilient-client.ts:69-79 | the total wait over n delays is at most both `n * max` and `base * (2^n - 1) + n * base / 2` |
| Outbox.BatchExists | src/cqrs/outbox-processor.ts:125-133 | for every collection there is an answer to the query: oldest pending entries first, at most 100 |
| Outbox.OutboxProcessor.PersistToOutbox | src/cqrs/outbox-processor.ts:188-204 | a new entry starts unpublished with no retries; all others stay |
| Outbox.OutboxProcessor.ProcessOutbox | src/cqrs/outbox-processor.ts:120-178 | the whole call, whatever the query, the emits and both updates do, applied or not, acknowledged or not: entries get their turns up to the first unacknowledged counter update, which makes the call throw; nothing else changes; the result counts the entries whose mark was acknowledged; a call that does not throw is one poll; the flag is always cleared; a busy processor does nothing |
| OutboxRefinement.CallIsRun | src/cqrs/outbox-processor.ts:120-178 | whatever the query, the emits and the updates do, the collection after a call is the one that the corresponding run of the protocol leads to, from tick to idle, and the count is that of its acknowledged marks |
| OutboxRefinement.TurnLeads | src/cqrs/outbox-processor.ts:138-169 | the turn of one entry does what the protocol does: emit, mark, and raise the counter where one of the two failed |
| Outbox.PollUsesPotential | src/cqrs/outbox-processor.ts:138-169 | each poll uses up at least one unit of remaining retries per entry of its batch |
| Outbox.SkippingCosts | src/cqrs/outbox-processor.ts:125-168 | every poll that skips a pending entry uses up 100 units of the remaining retries of entries at least as old |
| Outbox.AttemptedInTime | src/cqrs/outbox-processor.ts:125-168 | starvation bound: with k other pending entries at least as old, an entry is in one of the next `k * maxRetries / 100 + 1` batches, whatever fails and whatever newer entries arrive |
| Outbox.EverythingEnds | src/cqrs/outbox-processor.ts:125-168 | without inserts, `maxRetries` polls per entry leave every entry published or dead-lettered |
| OutboxProtocol.RunKeepsInv | src/cqrs/outbox-processor.ts:120-178 | over all runs with failures, lost answers and crashes, the rest of the one active batch is distinct and has retries left, and all emits are accounted for |
| OutboxProtocol.Conservation | src/cqrs/outbox-processor.ts:138-169 | a published entry had a completed emit, `retryCount` never exceeds `maxRetries`, and emits plus updates applied without an answer equal retries, plus one if published, plus aborted attempts, plus one in progress |
| OutboxProtocol.NothingIsLost | src/cqrs/outbox-processor.ts:120-178 | entries never disappear, keep their age and stay published, and never change again once published or dead-lettered, but for the counter of one whose mark was applied unheard and is just being raised |
| OutboxProtocol.BatchIsPoll | src/cqrs/outbox-processor.ts:125-169 | from an answered query until the batch is done, with inserts, delivery failures and lost answers to marks in between, the protocol makes exactly one poll |
| OutboxFairness.PickedInTime | src/cqrs/outbox-processor.ts:120-178 | starvation bound over all runs of the protocol: with k other pending entries at least as old, an entry is in one of the next `k * maxRetries / 100 + a + 1` answered batches, where a counts crashes and failing counter updates |
| MultiCache.MultiCacheService.GetValue | src/cache/multi-cache.service.ts:30-49 | first layer, then second, writing a small second-layer hit back with the default lifetime |
| MultiCache.MultiCacheService.SetValue | src/cache/multi-cache.service.ts:56-70 | small values go to both layers, large ones to the second only; lifetimes as derived from the options |
| MultiCache.MultiCacheService.Delete | src/cache/multi-cache.service.ts:75-80 | the key leaves both layers, all else stays |
| MultiCache.MultiCacheService.DeleteByPrefix | src/cache/multi-cache.service.ts:85-90 | exactly the keys with the prefix leave both layers |
| MultiCache.MultiCacheService.GetOrProduce | src/cache/multi-cache.service.ts:95-106 | a hit answers from the cache; a miss stores and answers what the factory gives |
| MultiCache.GetAfterSet | src/cache/multi-cache.service.ts:56-70 | what was set is read back if and only if it is small, or no different live value shields it in the first layer and there is a second |
| MultiCache.GetAfterGetOrSet | src/cache/multi-cache.service.ts:95-106 | after a miss the first layer has nothing live under the key, so what `getOrSet` stored is read back if it is small or there is a second layer, and only then |
| MultiCache.ReadBackLater | src/cache/multi-cache.service.ts:30-70 | at any later time: exactly when what was set is read, in terms of the given `ttl` and `l2Ttl`, the default and the factor two |
| MultiCache.WrittenBackLives | src/cache/multi-cache.service.ts:38-44 | a small value found in the second layer stays readable for the default lifetime |
| MultiCache.OtherKeysStay | src/cache/multi-cache.service.ts:30-106 | no operation on one key touches another |
| MultiCache.DeletedAreGone | src/cache/multi-cache.service.ts:75-90 | what was deleted is not found, and deleting by prefix touches no other keys |
| MultiCache.RunKeepsInv | src/cache/multi-cache.service.ts:30-106 | over all runs with evictions, each stored entry comes from a write that nothing has removed since, with a lifetime within the bound |
| MultiCache.StalenessBound | src/cache/multi-cache.service.ts:30-90 | any value read was written under that key no longer ago than `max(l1Ttl, l2Ttl + defaultTtl)` and not deleted since |
| MultiCache.BoundIsTight | src/cache/multi-cache.service.ts:38-43 | the bound is reached, by one write-back just before the second layer expires |
| CachedRepositories.CachedRepository.Read | src/database/cached-repository.decorator.ts:41-64 | a read goes through `getOrSet` under the key of repository, method and arguments |
| CachedRepositories.CachedRepository.Write | src/database/cached-repository.decorator.ts:68-90 | a write that returns drops every key with the collection's prefix; one that throws drops none, whatever it did to the inner repository |
| CachedRepositories.KeysAreInjective | src/database/cached-repository.decorator.ts:28-33 | different reads have different keys, even for collection names that contain colons or extend one another |
| CachedRepositories.ReadIsCurrent | src/database/cached-repository.decorator.ts:41-64 | a read from a coherent cache returns what the inner repository would return now, and leaves the cache coherent |
| CachedRepositories.ReadIsRemembered | src/database/cached-repository.decorator.ts:41-64 | after a miss, the same read is answered for the time to live without asking the inner repository again |
| CachedRepositories.WriteKeepsCoherent | src/database/cached-repository.decorator.ts:68-90 | so does a write that returns, and one that throws without effect |
| CachedRepositories.ReadsAreCurrent | src/database/cached-repository.decorator.ts:28-90 | coherence over every sequential run of several repositories on one cache in which writes that throw have no effect: values of any size, any expiry and eviction |
| CachedRepositories.OneNameEachIsSafe | src/database/cached-repository.decorator.ts:35-37 | one name per inner repository suffices, overlapping names or not |
| CachedRepositories.StaleAcrossNames | src/database/cached-repository.decorator.ts:35-37 | the condition cannot be dropped: two names for one repository whose prefixes do not cover each other's keys give a stale read |
| CachedRepositories.StaleAfterFailedWrite | src/database/cached-repository.decorator.ts:68-90 | nor can the condition on failing writes: any change by a write that throws, if some read shows it, gives a stale read |
| WebhookDedup.WebhookController.EvictStore | src/payments/webhook.controller.ts:136-150 | exactly the expired entries go, then the oldest beyond the limit; the order stays |
| WebhookDedup.WebhookController.Lookup | src/payments/webhook.controller.ts:157-158 | finds the entry of an event, or that there is none |
| WebhookDedup.WebhookController.Dispatch | src/payments/webhook.controller.ts:156-168 | a fresh event is skipped and nothing changes; otherwise its old entry goes, the store is evicted and the event becomes the newest entry |
| WebhookDedup.WebhookController.Forget | src/payments/webhook.controller.ts:172-177 | a failing handler removes exactly the entry of its event |
| WebhookRuns.TrimmedIsExcused | src/payments/webhook.controller.ts:143-149 | an entry that is trimmed has been followed by a full store of other events, or its event failed |
| WebhookRuns.RunKeepsInv | src/payments/webhook.controller.ts:128-178 | every start within the time to live is in the store, or excused by a failure or by a full store of others |
| WebhookRuns.DedupWindow | src/payments/webhook.controller.ts:128-178 | two handler starts for one event within the time to live have a failed attempt, or at least `MAX_STORE_SIZE` other events, between them |
| WebhookSkips.SkippedIff | src/payments/webhook.controller.ts:156-168 | after any run, a delivery is skipped if and only if the last start for its event is at most the time to live ago, no attempt has failed since, and its entry has not been trimmed; otherwise its handler is started |
| WebhookSkips.DroppedIsOvertaken | src/payments/webhook.controller.ts:143-149 | an event whose entry was trimmed has been overtaken by at least `MAX_STORE_SIZE` other events since its last start |
| WebhookSkips.SkippedByHistory | src/payments/webhook.controller.ts:156-178 | from the history alone: which deliveries are skipped, up to events that were overtaken by a full store of others |
| WebhookRuns.StoreStaysSmall | src/payments/webhook.controller.ts:128-168 | entries are distinct, ordered by time, and at most `MAX_STORE_SIZE + 1` |
| WebhookRuns.LimitIsPassedByOne | src/payments/webhook.controller.ts:136-168 | after any run, an accepted delivery leaves the store at one more than the smaller of `MAX_STORE_SIZE` and the number of unexpired entries of other events, so above the limit exactly if that number has reached it |
| WebhookRuns.LimitIsReached | src/payments/webhook.controller.ts:143-168 | from the empty store, at any time, some run leads to `MAX_STORE_SIZE + 1` entries |
| StampedeGuard.CacheStampedeGuard.AfterMiss | src/cache/cache-stampede.ts:66-74 | joins the request in flight if there is one, otherwise becomes it |
| StampedeGuard.CacheStampedeGuard.CleanUp | src/cache/cache-stampede.ts:76-81 | the key leaves the map when its leader ends, on success and on failure |
| StampedeGuard.RunKeepsInv | src/cache/cache-stampede.ts:57-106 | under every interleaving the map lists exactly the active leaders, joiners follow a leader for their key, and factories run in leaders |
| StampedeGuard.SingleFlight | src/cache/cache-stampede.ts:57-82 | at most one active leader per key, and the map holds the key exactly while it leads |
| StampedeGuard.JoinersShare | src/cache/cache-stampede.ts:66-70 | a joiner gets its leader's outcome, value or error, for the same key |
| StampedeGuard.JoinersHaveLeaders | src/cache/cache-stampede.ts:66-82 | a waiting joiner's leader is still at work or its outcome is already there |
| StampedeGuard.FactoriesRunInLeaders | src/cache/cache-stampede.ts:84-106 | factories run only in leaders, at most once each, and the value a leader returns is the one its factory produced |
| StampedeGuard.JoinersGetWhatWasMade | src/cache/cache-stampede.ts:66-106 | the value a joiner gets is the one produced by the single factory run of its leader |
| StampedeGuard.LeadsIffNobodyDoes | src/cache/cache-stampede.ts:66-74 | a miss makes a leader exactly when nobody leads for the key |
| StampedeGuard.NothingLeftBehind | src/cache/cache-stampede.ts:76-81 | when all callers are finished, however they ended, the map is empty |
| StampedeGuard.LateMissRunsFactoryAgain | src/cache/cache-stampede.ts:49 | for every key, two overlapping callers can each run their factory |
| StampedeOutcomes.HitsAreAnswers | src/cache/cache-stampede.ts:62-64 | a hit returns what the cache answered, a failing read throws what the cache threw |
| StampedeOutcomes.ValuesAreProduced | src/cache/cache-stampede.ts:95-97 | the value a leader returns is one that was reported as produced for it |
| StampedeOutcomes.ErrorsAreFailures | src/cache/cache-stampede.ts:91-106 | a leader throws exactly if one of its operations failed, and then what the last of them threw |
| StampedeOutcomes.JoinersThrowTheSame | src/cache/cache-stampede.ts:66-70 | so does a joiner, with its leader's operations |
| ConfigMerge.DeepMerge | src/config/config-merger.ts:8-33 | the key-by-key loop computes the recursive merge whatever the order of the keys |
| ConfigMerge.MergeConfigs | src/config/config-merger.ts:57-78 | sources are merged in order, non-objects passed over; the first source that fails to load is the one named |
| ConfigMerge.Get | src/config/config.service.ts:38-50 | splits the path at its dots, walks it segment by segment and gives `Undefined` where it leads nowhere |
| ConfigMerge.NestedIsFound | src/config/config.service.ts:38-50 | round trip: any value nested below dot-free segments is what their joined path finds |
| ConfigMerge.LookupInTwoSteps | src/config/config.service.ts:42-49 | looking up a path is looking up its rest in what its first part finds |
| ConfigMerge.LookupBelow | src/config/config.service.ts:42-47 | one segment below any value: its field, the answer of an array, or nothing |
| ConfigMerge.PutIsFound | src/config/config.service.ts:38-50 | what is put at a path is found there |
| ConfigMerge.PutElsewhere | src/config/config.service.ts:38-50 | and leaves every unrelated path alone that does not go through an array |
| ConfigMerge.LookupIsValueAt | src/config/config.service.ts:42-49 | where no proper prefix holds an array, the lookup goes through objects only |
| ConfigMerge.JoinAfterSplit | src/config/config.service.ts:39 | joining the segments gives the path back |
| ConfigMerge.SplitAfterJoin | src/config/config.service.ts:39 | every list of segments without dots is what splitting its join gives |
| ConfigMerge.MergeLookup | src/config/config-merger.ts:8-33 | for every path: where the override decides it wins, where it has an object at a prefix at which the base has an array there is nothing, elsewhere the base shows through |
| ConfigMerge.LastDeciderWins | src/config/config-merger.ts:57-78 | for any sources and any path, a lookup in the merged configuration gives what the last source that decides the path has there, or nothing if a later source covers that decider's array with an object |
| ConfigMerge.RuleHoldsIffNotCovered | src/config/config-merger.ts:15-29 | the last decider wins, whatever arrays answer to property names, if and only if no source after it has an object at the prefix where it has its array |
| ConfigMerge.EmptyObjectCovers | src/config/config-merger.ts:15-29 | for every key and every path below it, an array covered by an empty object |
| ConfigMerge.MergeIsIdempotent | src/config/config-merger.ts:8-33 | merging a configuration with itself changes nothing, at any depth |
| ConfigMerge.EmptyIsIdentity | src/config/config-merger.ts:8-33 | the empty object is a two-sided identity |
| ConfigMerge.GroupingMatters | src/config/config-merger.ts:57-78 | merging three configurations is associative if and only if the middle one nowhere puts something other than an object between two objects of which the last does not replace all of the first |
| EventReplay.AddProjection | src/cqrs/event-replay.service.ts:84-89 | each entry of a projection is appended to the handlers of its own event type |
| EventReplay.BuildIndex | src/cqrs/event-replay.service.ts:73-90 | the index lists, for each type, the matching entries in the order of projections and entries; counts start at zero |
| EventReplay.ProjectionsThroughIndex | src/cqrs/event-replay.service.ts:95-110 | running the indexed handlers of an event equals looping over all projections and entries, whichever handlers throw |
| EventReplay.Replay | src/cqrs/event-replay.service.ts:65-121 | replay equals the naive triple loop: same calls in the same order, same final states, counts and errors |
| EventReplay.CountsAddUp | src/cqrs/event-replay.service.ts:99-109 | the counts and the number of errors add up to the number of matching pairs of event and handler |
| EventTrace.ReplayReports | src/cqrs/event-replay.service.ts:95-110 | against the trace of its calls: the final world is the one they lead to, each count is the number of calls for that name that returned, and the errors are those of the calls that threw, all of them, in order, with position, type and message |
| EventTrace.NoThrowNoError | src/cqrs/event-replay.service.ts:100-108 | where no handler throws, no error is reported |
| Saga.SagaBuilder.AddStep | src/cqrs/saga.ts:48-55 | steps are kept in the order in which they are added |
| Saga.SagaBuilder.Build | src/cqrs/saga.ts:57-65 | an empty saga is refused, any other is built with its steps |
| Saga.Execute | src/cqrs/saga.ts:94-132 | completes exactly if every step succeeds; otherwise reports the first failing step, its error, the names before it and their compensation; the final world is the one that the returned trace, carried out action by action, leads to |
| Saga.Compensate | src/cqrs/saga.ts:134-163 | the named steps are compensated last first, a throwing compensation does not stop the rest |
| Saga.AllAreCompensated | src/cqrs/saga.ts:143-162 | `compensatedSteps` is the reverse of `completedSteps`, with or without distinct names |
| Saga.PerformRollback | src/cqrs/saga.ts:103-162 | carrying out the steps up to the failing one, with its partial effect, and then the compensations leads to the world that is returned |
| Saga.CompensatesItselfIffDistinct | src/cqrs/saga.ts:143-147 | the trace compensates k, ..., 1, each once, if and only if the completed names are distinct |
| Saga.UndoAll | src/cqrs/saga.ts:143-151 | compensations that undo their steps lead back through all of them |
| Saga.RollbackRestores | src/cqrs/saga.ts:94-163 | with distinct names, undoing compensations and a failing step without effect, the final world is the initial one |

## Left out

- NestJS modules, decorators, guards and interceptors, logging, metrics and tracing; the observability callbacks are taken not to throw.
- Timers and promises: clock readings are parameters, each `await` is a step boundary, and a timed-out attempt is a failing attempt.
- Floating point: times are integers, delays and jitter draws are reals. The counters are unbounded.
- A client without a `circuitBreaker` option (its calls are the retry loop alone) and one without a `retry` option (one attempt, no wait).
- MD5 and JSON: digests are assumed injective and free of colons, sizes are arbitrary, cached values come back as they were stored.
- Cache adapters: a layer is a map whose entries expire and may be evicted at any time. The order of eviction and wildcard characters in prefixes are not modelled; a lifetime of zero means no expiry, as in the adapters. `has` is left out.
- Interleaving of cache operations at their awaits: the cache and repository results are about sequential use by one process.
- CachedRepositories.ReadsAreCurrent: requires that a write through one name covers the keys of every other name of the same inner repository, and that a write that throws has had no effect; StaleAcrossNames and StaleAfterFailedWrite show that both are needed.
- CachedRepositories.CachedRepository.Write: a write whose invalidation itself fails is not modelled.
- Outbox.OutboxProcessor.ProcessOutbox: is about a call without interruption; inserts and crashes in between are in OutboxProtocol.
- OutboxProtocol.Conservation: there is one processor instance, and nobody else changes entries; event type, payload, `publishedAt` and `lastError` are omitted.
- CycleWalks.ReportedArrayIsCycle: gives a sufficient condition only. Whether another component happens to be listed as a walk depends on the order of nodes and edges.
- StampedeGuard.FactoriesRunInLeaders: the content of the cache is abstract, any read may hit, miss or fail; the lock entry only matters by failing to be written or deleted.
- CycleDetector.Tarjan.StrongConnect: its loop body and its ending are methods of their own (FollowEdge, Leave), as is the loop that starts it (SearchAll); node names are wrapped in a datatype.
- ConfigMerge.DeepMerge: class instances such as dates count as objects with the fields they enumerate; that merging two of them gives a plain object without their prototype is not modelled. Inherited properties such as `__proto__` are not either.
- ConfigMerge.Get: what arrays answer to a property name is left open. `getOrThrow`, `getAll` and `section` only read what `get` and the options give.
- EventReplay.Replay: durations and the loading of events are not modelled; a handler is a function of the projection states and the event.
- Signature checks and provider registration of the webhook controller.
- Module file analysis, Mermaid rendering, cache tags and warming, the idempotency guard (it repeats the webhook eviction), pagination, registries and specifications: they would only add easy members.
