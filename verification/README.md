# Verified model of a real-time chat backend

The repository is a C++ chat backend: several replicas hold WebSocket connections, share presence and
broadcasts over a Redis bus, and keep conversations, messages, receipts and login sessions in
PostgreSQL. This project models its stateful core in Dafny and proves what that core promises over
every run, every interleaving and every input.

Connections, users and conversations are opaque ids, time is an integer passed in by the caller, JSON
is a tree, and one SQL statement is one update of a map or a sequence. Where the source works by
changing fields, the model has a class whose methods are proved against specification functions; the
theorems are then about those functions and about runs, written as folds of a total `Step` over any
sequence of events, in which an event that is not enabled changes nothing.

| file | what it models |
|---|---|
| `Presence`, `PresenceCluster`, `PresenceOrder` | one replica's presence service; N replicas exchanging deltas; which publication orders converge |
| `Registries`, `FanOut`, `FanOutRuns`, `LocalDelivery`, `ClusterBus` | session and room indexes; cluster-wide fan-out with message loss; who is sent what, by the events of a run alone; one node's delivery loops; bus messages |
| `WorkerPool` | the background executor as micro-steps of submitters, workers, `start` and `stop` |
| `Calendar`, `Timestamp`, `Decimal` | civil-date arithmetic; timestamp printer and scanner; decimal numbers as text |
| `CacheStore`, `RateLimiter`, `AuthorizationCache` | the lazily expiring store and its two clients |
| `Conversations`, `ConversationRules`, `ConversationServices` | groups, ownership, direct conversations: specification and theorems; who may do what, and what each call changes; the service that meets it |
| `ReadReceipts`, `MessagePaging`, `RefreshSessions` | receipts and markers; keyset paging; refresh-token rotation |
| `Histograms`, `TraceParent` | histogram buckets; the `traceparent` header |
| `Options`, `Ids`, `Sequences` | shared value types and operations |

`dafny verify dfyconfig.toml` checks everything.

## What was found about the code

Some properties one would expect hold only under a condition. For each, a lemma gives an input or a run
that breaks it, and another says exactly when it holds.

- Presence notices are published after the mutex is released (`src/services/presence_service.cpp:54-59`).
  Two notices of one node about the same user that go out in the wrong order leave a drained cluster
  disagreeing (`ReorderedNoticesDiverge`). One publication is harmless, and a whole run ends with the
  right view, exactly under the conditions of `PublishKeepsInvIff` and `ViewIsRightIff`; publishing in
  order always meets them (`InOrderClusterConverges`).
- An offline delta for a user its node never reported still stamps last-seen, when the node has some
  other report (`RedundantDeltaStamps`); `StampEndsSessionIff` says that nothing else does.
- `SessionManager::add` on a connection that is already registered for another user leaves a stale
  entry in the user index (`ReregisteringLeavesStaleEntry`, `AddKeepsGroupingIff`).
- Calling `start` on the worker pool while a `stop` is still joining can make a worker pop an empty
  queue (`EarlyRestartIsUnsafe`); `GuardedRunsPopSafely` and `RestartIsSafeIff` give the guard.
- `del` reports whether it erased something, so unlike the other calls it can tell whether a purge came
  first (`DelTellsOfPurge`, `DelSeesPurgeIff`).
- Two windows can meet inside one window's length, so that an interval of that length lets more than the
  limit through: at most one less than twice the limit (`UnderTwiceTheLimit`), and for every limit and
  every window of two ticks or more some run reaches that (`BoundIsReached`). No interval ever sees more
  than the limit exactly when the limit is one or windows last one tick (`WithinLimitIff`).
- With a window of zero or less the count is never reset: a key gets its limit once
  (`NoWindowNeverResets`). Every positive window starts again (`FirstHitsAreAdmitted`).
- After a role change and its invalidation, a lookup that had read the old role before the change can
  still put it back into the cache (`OldRoleComesBack`). Lookups are fresh, whatever comes between the
  change, its invalidation and them, exactly when no fill under way at the change carries an older value
  (`FreshAfterWriteIff`).
- A session's expiry is read as whole seconds, rounded to the nearest, so a token got by rotation can be
  rotated again when the session's time to live is over (`SessionOutlivesItsTime`). While a session is
  within its time, that lies ahead exactly when the session was recorded in the second half of a second
  and its newest token has not expired by its own claim (`OutlivesIff`).
- A value that is not a number is counted in every bucket of a histogram (`NaNIsCounted`,
  `ExactIffNumbers`).
- Printing and parsing a timestamp drops the fraction of a second (`FractionIsLost`,
  `ParseUndoesPrint`).
- Extra `traceparent` fields are accepted for version 00 as well as for later versions
  (`ExtraFieldsAreIgnored`, `ParseIffCarries`).

## Model

| member | source | states |
|---|---|---|
| `Presence.ApplyRemoteEffect` | src/services/presence_service.cpp:97-121 | a delta moves exactly one user of one node's report, leaves all other reports and the local sessions alone, and keeps empty reports out |
| `Presence.ApplyRemoteStamps` | src/services/presence_service.cpp:103-120 | last-seen is stamped exactly by an offline delta from a node with a report when nobody but that node was known to hold the user, for any delta and any state |
| `Presence.StampEndsSessionIff` | src/services/presence_service.cpp:103-120 | a stamp means that the user's last known session ended, except exactly for a user the node had not reported |
| `Presence.RedundantDeltaStamps` | src/services/presence_service.cpp:105-120 | such a delta stamps a user who was online nowhere |
| `Presence.DisconnectStamps` | src/services/presence_service.cpp:63-95 | a disconnect stamps last-seen exactly when it ends this node's last session of a user nobody else is known to hold |
| `Presence.PresenceService.OnlineRemotely` | src/services/presence_service.cpp:17-24 | the loop finds the user exactly when some node has reported them |
| `Presence.PresenceService.IsOnline` | src/services/presence_service.cpp:26-32 | true exactly for users with a session here or a report from elsewhere |
| `Presence.PresenceService.OnConnect` | src/services/presence_service.cpp:34-61 | new state, "became online" exactly when nobody was known to hold the user, and a notice exactly on this node's first session |
| `Presence.PresenceService.OnDisconnect` | src/services/presence_service.cpp:63-95 | new state, "became offline" exactly when no session is known any more, a notice exactly on this node's last session; unknown users change nothing |
| `Presence.PresenceService.OnDelta` | src/services/presence_service.cpp:97-121 | the state after a peer's delta, with only non-empty reports kept |
| `Presence.PresenceService.OnlineCount` | src/services/presence_service.cpp:148-166 | the shortcut and the counting loops both give the number of distinct users online anywhere |
| `PresenceCluster.InOrderIsHarmless` | src/services/presence_service.cpp:54-60 | publishing a node's notices about each user in the order they were decided meets the condition for convergence |
| `PresenceCluster.PublishKeepsViewsIff` | src/services/presence_service.cpp:54-60 | moving one waiting notice onto a wire keeps what the peer will believe if and only if it is harmless |
| `PresenceCluster.PublishKeepsInvIff` | src/services/presence_service.cpp:54-60 | with a peer present, publishing a notice keeps the cluster invariant if and only if it is harmless |
| `PresenceCluster.ReachableHasInv` | src/services/presence_service.cpp:34-121 | in every reachable state and for every two nodes, what is under way turns one's view of the other into the other's local online set |
| `PresenceCluster.DrainedViewIsTruth` | src/services/presence_service.cpp:26-32 | once drained, a node's online set is the set of users somebody holds |
| `PresenceCluster.SessionsAreCounted` | src/services/presence_service.cpp:34-95 | in every run a node counts, for each user, exactly the sessions its connects and disconnects leave open, whatever is published and delivered |
| `PresenceCluster.ClusterConverges` | src/services/presence_service.cpp:128-166 | in every run that ends drained, `is_online` on every node is true exactly when, by the connects and disconnects of the run, some node has a session of the user open, and `online_count` counts each such user once |
| `PresenceCluster.InOrderRunIsHarmless` | src/services/presence_service.cpp:54-60 | a run in which every publication takes its user's earliest waiting notice meets the condition throughout |
| `PresenceCluster.InOrderClusterConverges` | src/services/presence_service.cpp:128-166 | the same conclusion for every run whose nodes publish in the order their sessions changed |
| `PresenceCluster.DrainedTransitionsAreGlobal` | src/services/presence_service.cpp:34-95 | from a drained state the transitions a node announces are the cluster's own |
| `PresenceCluster.ReorderedNoticesDiverge` | src/services/presence_service.cpp:54-59 | a run with two notices published in the wrong order ends drained with a user online whom nobody holds |
| `PresenceOrder.DecidedRun` | src/services/presence_service.cpp:34-95 | over any run, the notices a node decides on account for its local online set |
| `PresenceOrder.PublishedRun` | include/rtc/realtime/cluster_presence.hpp:18-42 | over any run, what a peer has heard and will hear is what was published, in publication order |
| `PresenceOrder.ViewIsRightIff` | src/services/presence_service.cpp:54-59 | in every run that ends drained, whatever the publication order, a view is right if and only if, for each user, the last notice published says "online" exactly when the last one decided does |
| `Registries.AddKeepsGroupingIff` | src/realtime/session_manager.cpp:7-16 | registering keeps the user index equal to the grouping of connections by user if and only if the connection is new or stays with its user |
| `Registries.ReregisteringLeavesStaleEntry` | src/realtime/session_manager.cpp:7-16 | a connection registered for one user and then for another stays listed under the first |
| `Registries.RemoveKeepsGrouping` | src/realtime/session_manager.cpp:18-35 | removing keeps the grouping |
| `Registries.SessionManager.Add` | src/realtime/session_manager.cpp:7-16 | both indexes afterwards, and exactly when they still agree |
| `Registries.SessionManager.Remove` | src/realtime/session_manager.cpp:18-35 | both indexes afterwards, the removed session if there was one, and no trace of the connection |
| `Registries.SessionManager.SessionsForUser` | src/realtime/session_manager.cpp:57-73 | each registered connection of the user once |
| `Registries.SessionManager.SessionsFor` | src/realtime/session_manager.cpp:75-87 | the registered ones among the connections, in their order |
| `Registries.SessionsAmongAre` | src/realtime/session_manager.cpp:75-87 | exactly the registered connections appear, each once when the input names none twice |
| `Registries.JoinKeepsConverse` | src/realtime/room_manager.cpp:5-9 | joining keeps rooms and memberships converse relations with no empty room |
| `Registries.LeaveKeepsConverse` | src/realtime/room_manager.cpp:21-35 | leaving keeps them so, dropping emptied entries |
| `Registries.JoinManyKeepsConverse` | src/realtime/room_manager.cpp:11-19 | joining a list of rooms keeps them so |
| `Registries.JoinAllJoins` | src/realtime/room_manager.cpp:11-19 | joining the listed rooms one after the other adds the connection to exactly those |
| `Registries.LeaveAllKeepsConverse` | src/realtime/room_manager.cpp:37-52 | taking a connection out of the rooms it is a member of takes it out of every room |
| `Registries.RoomManager.Join` | src/realtime/room_manager.cpp:5-9 | both indexes afterwards, still converse |
| `Registries.RoomManager.JoinMany` | src/realtime/room_manager.cpp:11-19 | every listed room gains the connection and no other changes; an empty list leaves an empty membership entry |
| `Registries.RoomManager.Leave` | src/realtime/room_manager.cpp:21-35 | both indexes afterwards, still converse, no empty room kept |
| `Registries.RoomManager.LeaveAll` | src/realtime/room_manager.cpp:37-52 | the loop removes the connection from every room and its membership |
| `Registries.RoomManager.ConnectionsInRoom` | src/realtime/room_manager.cpp:54-65 | each member of the room once |
| `ClusterBus.OwnMessagesAreDropped` | src/realtime/redis_cluster_bus.cpp:93-127 | a node never accepts a message it stamped itself |
| `ClusterBus.OthersMessagesArrive` | src/realtime/redis_cluster_bus.cpp:152-160 | every other node accepts it under the sender's name with every payload field as sent, and with the trace context if there is one |
| `ClusterBus.BodiesSurviveTheBus` | src/realtime/connection_manager.cpp:65-94 | the handlers decode exactly the recipients, room, event, data or delta that were encoded, and the delta's time arrives with it |
| `ClusterBus.AcceptIff` | src/realtime/redis_cluster_bus.cpp:93-106 | a message is passed on exactly when it is an object that does not name this node as its origin |
| `ClusterBus.BodiesAreReadIff` | src/realtime/connection_manager.cpp:65-94 | a body is delivered exactly when its event is text and its recipients are integers, or its conversation is one; missing data is an empty object; a presence body is read as offline unless it says online |
| `FanOut.SendsAreDue` | src/realtime/connection_manager.cpp:99-164 | the delivery loops over the indexes send each connection exactly what its own session is due |
| `FanOut.RunKeepsInv` | src/realtime/connection_manager.cpp:48-178 | in every run of registering, joining one or many rooms, leaving, unregistering, publishing, delivering and losing, the indexes of every node stay consistent, no message is delivered twice on a node, and none on a wire has been delivered there |
| `FanOut.AtMostOnce` | src/realtime/connection_manager.cpp:115-141 | in every run, with any messages lost, no connection gets a message twice unless it names a user twice |
| `FanOut.DeliveryIsNotForwarded` | src/realtime/connection_manager.cpp:63-94 | receiving a message puts nothing on the bus |
| `FanOut.DeliveredIsFinal` | src/realtime/connection_manager.cpp:115-141 | once delivered on a node, a message is never delivered there again |
| `FanOut.OriginServesItsOwn` | src/realtime/connection_manager.cpp:128-178 | each connection of the publishing node gets exactly the frames it was due at the publish, the excluded one none, whatever becomes of it later |
| `FanOut.ExactlyOnce` | src/realtime/connection_manager.cpp:128-178 | besides, a connection of another node that is due the message throughout, with no loss on its way, gets exactly the frames it is due |
| `FanOutRuns.RegistryEffect` | src/realtime/connection_manager.cpp:48-58 | registering, joining, leaving and unregistering change the session and the rooms of their own connection as the events say, and of no other |
| `FanOutRuns.RegistryIsEvents` | src/realtime/connection_manager.cpp:48-58 | in every run a node's indexes hold exactly the sessions and memberships that the events leave |
| `FanOutRuns.RegisteredGetsOne` | src/realtime/connection_manager.cpp:115-141 | by the events alone: a connection registered for a user and not unregistered gets exactly one frame of a message to that user from any node, once it is off the wire and if it was not lost there |
| `FanOutRuns.MemberGetsOne` | src/realtime/connection_manager.cpp:155-178 | so does one that joined a room and has not left it, of a message to that room; the excluded connection of the publishing node gets none |
| `LocalDelivery.FrameCache.ForVersion` | src/realtime/connection_manager.cpp:20-33 | the right frame for the protocol version, encoding at most once for each version |
| `LocalDelivery.ConnectionManager.SendToSessions` | src/realtime/connection_manager.cpp:99-113 | every connection's stream grows by exactly one frame for each listing of it, in its protocol version, but the excluded one's |
| `LocalDelivery.FramesToListed` | src/realtime/connection_manager.cpp:99-113 | a connection listed once gets exactly one frame |
| `LocalDelivery.ConnectionManager.DeliverLocal` | src/realtime/connection_manager.cpp:115-126 | every connection is sent its version of the payload as often as the registry says |
| `LocalDelivery.ConnectionManager.DeliverLocalToRoom` | src/realtime/connection_manager.cpp:155-164 | each room member but the excluded connection is sent one frame |
| `LocalDelivery.ConnectionManager.Publish` | src/realtime/connection_manager.cpp:128-141 | local delivery, and one body for the bus when there is one |
| `LocalDelivery.ConnectionManager.BroadcastToRoom` | src/realtime/connection_manager.cpp:166-178 | local delivery without the excluded connection, and one body for the bus when there is one |
| `LocalDelivery.ConnectionManager.OnUserMessage` | src/realtime/connection_manager.cpp:65-77 | a well-formed body is delivered locally, a malformed one is ignored, and nothing is forwarded |
| `LocalDelivery.ConnectionManager.OnRoomMessage` | src/realtime/connection_manager.cpp:79-94 | the same for rooms, with nobody excluded |
| `LocalDelivery.ConnectionManager.UnregisterSession` | src/realtime/connection_manager.cpp:55-58 | afterwards the connection is in no index, and no other connection's entries changed |
| `WorkerPool.ReachableHasInv` | src/jobs/background_executor.cpp:21-121 | when every `start` comes after `stop` has joined, in every interleaving the mutex is held by the thread inside it, and a worker decides to leave only when nobody can push any more |
| `WorkerPool.TasksAreConserved` | src/jobs/background_executor.cpp:83-121 | in every interleaving, however `start` and `stop` overlap, accepted tasks are taken once each in first-in first-out order, and accepted = queued + running + completed + failed, task by task |
| `WorkerPool.ExitMeansDrained` | src/jobs/background_executor.cpp:33-46 | one exited worker means an empty queue although the flag is cleared outside the mutex, and when all have exited every accepted task has completed or failed |
| `WorkerPool.AllExitedMeansDone` | src/jobs/background_executor.cpp:98-121 | in every interleaving, however `start` and `stop` overlap, once all workers have exited the flag is down, the queue is empty and every accepted task has completed or failed |
| `WorkerPool.SubmitIsAccepted` | src/jobs/background_executor.cpp:83-91 | a whole `submit` on a free pool puts the task at the end of the queue when the flag is up, and changes nothing when it is down |
| `WorkerPool.FlagRun` | src/jobs/background_executor.cpp:21-36 | in every run the flag is what its starts and stops leave |
| `WorkerPool.AcceptedAreTested` | src/jobs/background_executor.cpp:83-91 | in every run the accepted tasks are exactly those whose test saw the flag up, in the order of the tests, but for one about to be pushed |
| `WorkerPool.WorkerTurn` | src/jobs/background_executor.cpp:98-110 | a worker that gets the mutex takes the front task when there is one, waits again when there is none, and leaves when there is none and the flag is down |
| `WorkerPool.WorkerEnds` | src/jobs/background_executor.cpp:110-121 | a task that threw counts as failed and any other as completed, and its worker is free again |
| `WorkerPool.StartsAndStops` | src/jobs/background_executor.cpp:14-46 | `start` adds the workers asked for, at least one, unless the flag is up; `stop` lowers it and forgets workers once all are gone |
| `WorkerPool.GuardedRunsPopSafely` | src/jobs/background_executor.cpp:98-110 | in every interleaving in which each `start` finds work in the queue or nobody past its wait, no worker ever pops an empty queue |
| `WorkerPool.RestartIsSafeIff` | src/jobs/background_executor.cpp:21-31 | after any such run, every guarded continuation of a `start` is free of empty pops if and only if that `start` meets the guard |
| `WorkerPool.EarlyRestartIsUnsafe` | src/jobs/background_executor.cpp:21-46 | a run in which `start` overlaps `stop` makes a worker pop an empty queue |
| `Calendar.TruncDivSplits` | src/utils/time.cpp:42-45 | the model's division is C++'s: quotient and remainder make up the dividend, and the remainder is small and takes its sign |
| `Calendar.FloorDivRoundsDown` | src/utils/time.cpp:42-45 | the correction rounds down for dividends and divisors of either sign |
| `Calendar.DaysFromCivilRanges` | src/utils/time.cpp:18-25 | every commented intermediate range holds for every real date, so no unsigned value wraps |
| `Calendar.CivilFromDaysRanges` | src/utils/time.cpp:28-39 | every commented intermediate range holds for every integer |
| `Calendar.CivilFromDaysIsInverse` | src/utils/time.cpp:28-39 | every day number gives a real Gregorian date, and `days_from_civil` gives the day number back |
| `Calendar.DaysFromCivilIsInverse` | src/utils/time.cpp:18-25 | `civil_from_days` gives every real date back |
| `Calendar.EpochIsDayZero` | src/utils/time.cpp:18-39 | day 0 is 1970-01-01 |
| `Calendar.NextDayIsOneMore` | src/utils/time.cpp:18-25 | successive dates are one apart across month, leap-year, century and era ends |
| `Calendar.DaysFromCivilIsMonotone` | src/utils/time.cpp:18-25 | day numbers are ordered exactly as (year, month, day) |
| `Decimal.ScanPrinted` | src/utils/time.cpp:60-90 | `%d` reads back a zero-padded number, whatever non-digit follows |
| `Decimal.PaddedText` | src/utils/time.cpp:60-70 | a number that fits its width is printed with exactly that many digits |
| `Decimal.ScanSkipsSpace` | src/utils/time.cpp:75-90 | white space before a number is skipped |
| `Decimal.ScanTakesPlus` | src/utils/time.cpp:75-90 | a plus sign before a number is taken |
| `Timestamp.ScanReadsText` | src/utils/time.cpp:72-93 | the scanner reads back the six fields of a printed timestamp |
| `Timestamp.TextFits` | src/utils/time.cpp:58-70 | the 40-byte buffer never cuts a timestamp whose year fits 32 bits |
| `Timestamp.DateTimePrints` | src/utils/time.cpp:49-70 | every date and time of day is printed as its year, month, day, hour, minute and second, in that order |
| `Timestamp.IsoIsFixedWidth` | src/utils/time.cpp:58-70 | for the years 0 to 9999 that is twenty characters, with each field at its place |
| `Timestamp.ParseReadsFields` | src/utils/time.cpp:72-93 | six fields with any character between date and time and any tail but a digit are read as their instant; a month or day out of range is refused |
| `Timestamp.ParseUndoesPrint` | src/utils/time.cpp:49-93 | parsing a printed instant gives its whole seconds, before 1970 too, so it gives the instant back if and only if it is a whole second |
| `Timestamp.FractionIsLost` | src/utils/time.cpp:49-93 | one tick after the epoch comes back as the epoch |
| `CacheStore.LazyStoreIsTimedMap` | src/cache/in_memory_cache_store.cpp:8-86 | over any run from any store, `get`, `exists` and `incr` answer as a map that forgets each key at its deadline |
| `CacheStore.PurgesAreInvisible` | src/cache/in_memory_cache_store.cpp:131-151 | two runs that differ only in where purges happen give the same answers |
| `CacheStore.DelSeesPurgeIff` | src/cache/in_memory_cache_store.cpp:37-41 | `del` answers the same before and after a purge if and only if the key is not held by expired entries alone |
| `CacheStore.DelTellsOfPurge` | src/cache/in_memory_cache_store.cpp:37-41 | an expired value is erased by `del`, but not after a purge |
| `CacheStore.SetIsRemembered` | src/cache/in_memory_cache_store.cpp:19-86 | a value that was set is found, and counted on, until its time to live is over and not after, or for ever with none, whatever happens to other keys and whatever is purged |
| `CacheStore.DelIsRemembered` | src/cache/in_memory_cache_store.cpp:37-86 | a key that was deleted is not found until it is written again, and `incr` starts it at one with its own time to live |
| `CacheStore.IncrCounts` | src/cache/in_memory_cache_store.cpp:67-86 | a live counter goes up by one and keeps its deadline |
| `CacheStore.PurgeLeavesLive` | src/cache/in_memory_cache_store.cpp:131-151 | a purge leaves exactly the entries whose deadline, if any, is still to come |
| `CacheStore.InMemoryCacheStore.SetText` | src/cache/in_memory_cache_store.cpp:19-22 | the entry and its deadline, or none for a time to live of zero or less |
| `CacheStore.InMemoryCacheStore.GetText` | src/cache/in_memory_cache_store.cpp:24-35 | the live value or nothing, erasing an expired entry it finds |
| `CacheStore.InMemoryCacheStore.HasText` | src/cache/in_memory_cache_store.cpp:43-54 | whether a live entry exists, erasing an expired one |
| `CacheStore.InMemoryCacheStore.Increment` | src/cache/in_memory_cache_store.cpp:67-86 | the next count, with a deadline only when the counter is created |
| `CacheStore.InMemoryCacheStore.Delete` | src/cache/in_memory_cache_store.cpp:37-41 | the key is gone from both maps, and whether it was in either |
| `CacheStore.InMemoryCacheStore.PurgeExpired` | src/cache/in_memory_cache_store.cpp:131-151 | exactly the expired entries of both maps are gone, and how many there were |
| `RateLimiter.Limiter.Check` | src/ratelimit/rate_limiter.cpp:10-33 | the count taken from the store, the verdict, what remains and when to retry; disabled or limit zero lets everything through untouched |
| `RateLimiter.LimiterIsWindows` | src/ratelimit/rate_limiter.cpp:22-32 | whatever else happens on the store, the counts and verdicts for a key are those of consecutive fixed windows opened by its own hits |
| `RateLimiter.FirstHitsAreAdmitted` | src/ratelimit/rate_limiter.cpp:22-32 | a hit is admitted exactly when fewer than the limit came before it in its window, the window being found from the times alone |
| `RateLimiter.KeysAreApart` | src/ratelimit/rate_limiter.cpp:22-24 | two callers of a bucket never share a key, nor do two buckets without a colon in their names |
| `RateLimiter.CallersAreLimitedApart` | src/ratelimit/rate_limiter.cpp:10-33 | whatever others check, a caller's check is let through exactly when fewer than the limit of their own checks came before it in its window |
| `RateLimiter.UnderTwiceTheLimit` | src/ratelimit/rate_limiter.cpp:22-32 | over the whole run any half-open interval of one window's length admits at most twice the limit less one |
| `RateLimiter.BoundIsReached` | src/ratelimit/rate_limiter.cpp:22-32 | for every limit and every window of at least two ticks, some run reaches twice the limit less one |
| `RateLimiter.WithinLimitIff` | src/ratelimit/rate_limiter.cpp:22-32 | over all runs no interval of one window's length admits more than the limit if and only if the limit is one or windows last one tick |
| `RateLimiter.NoWindowNeverResets` | src/cache/in_memory_cache_store.cpp:67-86 | with a window of zero or less check number i is let through exactly when i is below the limit, so a key gets its limit once and never again |
| `AuthorizationCache.KeysAreDistinct` | src/services/authorization_service.cpp:16-22 | no two questions about users share a cache key |
| `AuthorizationCache.DecodeUndoesEncode` | src/services/authorization_service.cpp:24-72 | what a fill writes is what a hit reads |
| `AuthorizationCache.RolesAreSpelled` | include/rtc/security/role.hpp:31-58 | the four names of roles, and that nothing else parses |
| `AuthorizationCache.DecodeReads` | src/services/authorization_service.cpp:24-72 | a cached role is read exactly when it is spelled as one, and only the text 1 is read as a ban |
| `AuthorizationCache.TruthIsAccount` | src/services/authorization_service.cpp:34-72 | the truth about a user is the role and the ban of their account; without one, the default role and no ban |
| `AuthorizationCache.AuthorizationService.Ask` | src/services/authorization_service.cpp:24-72 | a readable live entry is answered as it is; on anything else the answer is the account's own role or ban, or that of a plain user if there is none, and is cached; the hit and miss counters; set entries stay |
| `AuthorizationCache.AuthorizationService.Invalidate` | src/services/authorization_service.cpp:81-84 | the user's two keys are gone from the string and the set entries, and no others |
| `AuthorizationCache.AnswersAreRecent` | src/services/authorization_service.cpp:24-72 | in every interleaving each answer is one the database held no earlier than its time less the time to live less that fill's read-to-write gap |
| `AuthorizationCache.CachedIsServed` | src/services/authorization_service.cpp:24-72 | once an answer is cached and no lookup of it is under way, every lookup is given it, through purges, writes, other users' invalidations and other lookups, until its time to live is over or its user is invalidated |
| `AuthorizationCache.ServedNoLonger` | src/services/authorization_service.cpp:24-72 | from its deadline on, a lookup goes to the database again |
| `AuthorizationCache.FillServes` | src/services/authorization_service.cpp:34-72 | a fill caches its answer for the time to live |
| `AuthorizationCache.FreshIffCoherent` | src/services/authorization_service.cpp:24-95 | until the next write, every answer to a question in every continuation is the current truth if and only if what is cached and what every fill under way carries is |
| `AuthorizationCache.WriteThenInvalidate` | src/controllers/admin_controller.cpp:191-194 | with anything but writes between a write and its invalidation and after it, and no fill of the question under way at the write, every answer from the invalidation on is the new truth |
| `AuthorizationCache.WrittenAccountIsAnswered` | src/controllers/admin_controller.cpp:191-194 | in the same runs the answers are the very role and ban that were written |
| `AuthorizationCache.FreshAfterInvalidationIff` | src/controllers/admin_controller.cpp:191-194 | given what came in between, that is so in every continuation if and only if every fill still under way at the invalidation carries the new value |
| `AuthorizationCache.FreshAfterWriteIff` | src/controllers/admin_controller.cpp:191-194 | it is so whatever comes in between if and only if every fill under way at the write does |
| `AuthorizationCache.OldRoleComesBack` | src/services/authorization_service.cpp:34-38 | a run in which a lookup after the write and its invalidation is given the old role |
| `Conversations.DirectKeyIsInjective` | src/repositories/pg_conversation_repository.cpp:69-73 | two pairs of users have the same key if and only if they are the same two users |
| `Conversations.ByJoinSorts` | src/repositories/pg_conversation_repository.cpp:160-174 | participants are listed in (joined_at, id) order, none lost or added |
| `Conversations.FirstOtherIsHeir` | src/services/conversation_service.cpp:224-227 | the first participant listed other than the leaver joined before all the rest; there is none exactly when nobody else is left |
| `Conversations.DemoteThenPromote` | src/repositories/pg_conversation_repository.cpp:286-295 | the two role updates in turn give the owner role to the new owner's row and to no other |
| `Conversations.InvitedOnce` | src/services/conversation_service.cpp:78-82 | a new group invites everyone listed but the actor, each once, in ascending id order |
| `Conversations.StepKeepsInv` | src/services/conversation_service.cpp:56-242 | every operation, accepted or refused, keeps all groups, direct conversations and the key index sound |
| `Conversations.GroupsHaveOneOwner` | src/services/conversation_service.cpp:167-242 | in every run each group has exactly one participant with the owner role, and `owner_id` names it |
| `Conversations.OwnerLeaves` | src/services/conversation_service.cpp:216-236 | when the owner leaves, the group is gone exactly if nobody else was in it; otherwise the earliest to join of the rest owns it and nobody else left |
| `Conversations.OneConversationPerKey` | src/repositories/pg_conversation_repository.cpp:77-99 | in every run at most one conversation has the key of two users, whichever is named first, and nobody else is in it, also after one of them left |
| `Conversations.DirectIsUnique` | src/repositories/pg_conversation_repository.cpp:77-99 | in every run two users are together in at most one direct conversation, and with nobody else |
| `Conversations.CreateDirectOpens` | src/repositories/pg_conversation_repository.cpp:77-99 | opening one returns the pair's conversation, old or new, with both users in it |
| `Conversations.CreateDirectReturns` | src/services/conversation_service.cpp:60-71 | after any further run, while it exists, either side's `create` returns the same conversation with both present, even if one had left |
| `ConversationRules.CreateDirectRules` | src/services/conversation_service.cpp:60-71 | exactly when it is refused and why; whoever is new in the conversation is one of the two and joined now, as a member; no other conversation changes |
| `ConversationRules.CreateGroupRules` | src/services/conversation_service.cpp:72-87 | exactly when it is refused and why; the new group holds exactly the actor as owner and the listed users as members, all joined now |
| `ConversationRules.AddMemberRules` | src/services/conversation_service.cpp:167-173 | only the owner of a group adds, only users who exist and are not in it, each refusal with its own error; the new member joins now and everyone else stays as they are |
| `ConversationRules.RemoveMemberRules` | src/services/conversation_service.cpp:193-202 | only the owner of a group removes, never themselves; exactly the named user is gone |
| `ConversationRules.LeaveRules` | src/services/conversation_service.cpp:216-236 | exactly whoever is in a conversation may leave it; unless they own it nobody else's row changes |
| `ConversationRules.RemoveRules` | src/services/conversation_service.cpp:132-140 | exactly the owner of a group, or either participant of a direct conversation, deletes it, and nothing else goes |
| `ConversationServices.FindSuccessor` | src/services/conversation_service.cpp:224-227 | the loop finds the first other participant |
| `ConversationServices.FindMissing` | src/services/conversation_service.cpp:83-85 | the loop finds an invited user who does not exist exactly when there is one |
| `ConversationServices.InsertFounders` | src/repositories/pg_conversation_repository.cpp:110-127 | the owner's row and one member row for each invited user, in order |
| `ConversationServices.ConversationService.CreateDirect` | src/services/conversation_service.cpp:60-71 | meets its specification and keeps the invariant, refusals included |
| `ConversationServices.ConversationService.CreateGroup` | src/services/conversation_service.cpp:72-87 | meets its specification and keeps the invariant, refusals included |
| `ConversationServices.ConversationService.AddMember` | src/services/conversation_service.cpp:167-173 | meets its specification and keeps the invariant: owner only, groups only, existing users, no duplicates |
| `ConversationServices.ConversationService.RemoveMember` | src/services/conversation_service.cpp:193-203 | meets its specification and keeps the invariant: owner only, and never the owner |
| `ConversationServices.ConversationService.TransferOwnership` | src/repositories/pg_conversation_repository.cpp:280-297 | after the three updates `owner_id` names the new owner, and a participant has the owner role exactly if they are that user |
| `ConversationServices.ConversationService.Leave` | src/services/conversation_service.cpp:216-236 | meets its specification and keeps the invariant |
| `ConversationServices.ConversationService.Remove` | src/services/conversation_service.cpp:132-140 | meets its specification and keeps the invariant |
| `ReadReceipts.ReadReceiptService.MarkDelivered` | src/services/read_receipt_service.cpp:10-18 | refused without the message or a seat in its conversation; otherwise the receipt is raised, never lowered |
| `ReadReceipts.ReadReceiptService.MarkRead` | src/services/read_receipt_service.cpp:27-36 | refused without a seat; otherwise the backlog and the marker |
| `ReadReceipts.StepTakesMax` | src/repositories/pg_read_receipt_repository.cpp:36-73 | every call leaves each receipt at the higher of what it was and what the call asks for |
| `ReadReceipts.ReceiptsAreHighest` | src/repositories/pg_read_receipt_repository.cpp:36-73 | over any run each receipt is the highest rank it started from or was ever asked for |
| `ReadReceipts.TablesAreEvents` | src/services/read_receipt_service.cpp:10-36 | in every run the messages and participants the calls are checked against are those the events leave |
| `ReadReceipts.ReceiptsAreCalls` | src/repositories/pg_read_receipt_repository.cpp:36-73 | in every run, by the events alone, a message is read by a user exactly when an accepted `mark_read` of theirs covered it, sent before the call by somebody else, in that conversation and up to the id given; and it is delivered exactly when only a `mark_delivered` was accepted |
| `ReadReceipts.ReadStaysRead` | src/repositories/pg_read_receipt_repository.cpp:56-73 | after `mark_read`, every message it covers stays read by that user in every continuation |
| `ReadReceipts.MarkerIsGreatest` | src/repositories/pg_conversation_repository.cpp:305-318 | a marker has reached a point exactly when it had before or some call went that far, counting from 0 |
| `ReadReceipts.MarksCommute` | src/services/read_receipt_service.cpp:10-43 | runs of the same mark calls, reordered or repeated in any way, end in the same receipts and markers |
| `ReadReceipts.MarksCommuteAnywhere` | src/services/read_receipt_service.cpp:10-43 | so it is after every run, in which messages arrive and people come and go |
| `MessagePaging.MessageRepository.Create` | src/repositories/pg_message_repository.cpp:46-66 | the row is appended with an id above all others |
| `MessagePaging.MessageRepository.SoftDelete` | src/repositories/pg_message_repository.cpp:124-136 | the row becomes a tombstone; nothing is returned exactly when no live row has the id |
| `MessagePaging.MessageRepository.UpdateContent` | src/repositories/pg_message_repository.cpp:110-122 | the live row has the new content; nothing is returned exactly when there is none |
| `MessagePaging.SelectIds` | src/repositories/pg_message_repository.cpp:84-93 | a listing is strictly descending and holds exactly the matching ids |
| `MessagePaging.SelectRows` | src/repositories/pg_message_repository.cpp:78-108 | the rows listed are exactly the table's own rows, content and all, of the conversation, from the sender if one is named, and strictly between the cursors |
| `MessagePaging.ListIsStretch` | src/repositories/pg_message_repository.cpp:78-108 | a page is the stretch of that listing from the offset, as long as the limit allows |
| `MessagePaging.ChangesAre` | src/repositories/pg_message_repository.cpp:110-136 | a soft delete marks and an edit rewrites exactly the row with the id, an edit only while it is not marked |
| `MessagePaging.ChangesKeepBelow` | src/repositories/pg_message_repository.cpp:46-136 | inserts, edits and soft deletes do not change which ids lie below a cursor that was seen |
| `MessagePaging.NextPageIsRest` | src/repositories/pg_message_repository.cpp:78-108 | asking again from any id of a listing gives what follows it |
| `MessagePaging.PagingVisitsAll` | src/repositories/pg_message_repository.cpp:78-108 | with any limits and any changes between pages, the client sees the ids that matched at the start, newest first, each once, as far as its limits reach |
| `MessagePaging.PagingEnds` | include/rtc/dto/pagination.hpp:12-15 | after at most as many pages as messages it has seen exactly all of them, strictly descending |
| `RefreshSessions.SessionService.Record` | src/services/session_service.cpp:11-24 | a new session with the hash of a new token and its expiry |
| `RefreshSessions.SessionService.Rotate` | src/services/session_service.cpp:26-47 | a new token exactly when every check passes, the token's own expiry included, and only the hash changes |
| `RefreshSessions.SessionService.Revoke` | src/repositories/pg_session_repository.cpp:97-106 | the session is revoked afterwards if it is the user's, nothing else changes, an earlier revocation keeps its time, and the answer says whether anything changed |
| `RefreshSessions.SessionService.RevokeAll` | src/repositories/pg_session_repository.cpp:108-116 | no unrevoked session of the user is left, no other session changes, earlier revocation times are kept, and the count is the drop in unrevoked sessions |
| `RefreshSessions.SessionService.RevokeOthers` | src/repositories/pg_session_repository.cpp:118-128 | the same, and the kept session is as it was |
| `RefreshSessions.SessionService.CleanupExpired` | src/repositories/pg_session_repository.cpp:130-136 | the unrevoked sessions that have not expired are left as they were, and the count is the drop in rows |
| `RefreshSessions.TokensRotateOnce` | src/services/session_service.cpp:37-46 | in every run no refresh token is rotated twice |
| `RefreshSessions.OnlyNewestSucceeds` | src/services/session_service.cpp:26-47 | in every reachable state a rotation succeeds if and only if the token is genuine, unexpired by its own claim, and the newest one of an active session |
| `RefreshSessions.RevocationIsFinal` | src/repositories/pg_session_repository.cpp:97-128 | after any kind of revocation no rotation on the session succeeds in any continuation, cleanup included |
| `RefreshSessions.ChainsEnd` | src/repositories/pg_session_repository.cpp:43-60 | every success comes before creation plus time to live, rounded to the nearest second |
| `RefreshSessions.RoundedIsNearest` | src/repositories/pg_session_repository.cpp:14-19 | the expiry the service reads is the nearest whole second |
| `RefreshSessions.SessionsLast` | src/services/session_service.cpp:26-47 | until its time is over a session stands unless it is revoked, through any other calls and cleanups, and until half a second before that its newest token is rotated, if genuine and not expired itself |
| `RefreshSessions.ExpiryIsCut` | src/security/jwt_token_service.cpp:43-68 | a token's expiry claim is its issue time cut to whole seconds plus the time to live |
| `RefreshSessions.OutlivesIff` | src/repositories/pg_session_repository.cpp:14-19 | from any reachable state with an unrevoked session within its time to live, some continuation rotates it at or after the end of that time if and only if it was recorded in the second half of a second and its newest token has not expired |
| `RefreshSessions.SessionOutlivesItsTime` | src/services/session_service.cpp:26-47 | for every time to live of a second or more, a run that does, each token being presented before it expires |
| `Histograms.NormalizedOk` | src/metrics/metrics_registry.cpp:37-40 | registration keeps each bound once, in ascending order, whatever order they came in |
| `Histograms.BoundsAreRegistered` | src/metrics/metrics_registry.cpp:18-50 | in every run a histogram's bounds are those it was last registered with, or the default ones from the first observation on |
| `Histograms.AtMostIs` | src/metrics/metrics_registry.cpp:62-66 | the order of doubles, infinities and not-a-number included |
| `Histograms.LowerBoundAt` | src/metrics/metrics_registry.cpp:62-66 | a value lands at or below a bound's bucket exactly when it is at most the bound, or not a number |
| `Histograms.ObserveSummarises` | src/metrics/metrics_registry.cpp:52-69 | one observation keeps the meaning of the counts, also when the default bounds are filled in |
| `Histograms.RenderedIsCumulative` | src/metrics/metrics_registry.cpp:100-112 | after any run each rendered count is the number of values since registration at most the bound plus those that are not numbers; the counts never decrease and never exceed the total |
| `Histograms.ExactIffNumbers` | src/metrics/metrics_registry.cpp:52-69 | the rendered counts are exactly "at most the bound" if and only if every observation was a number |
| `Histograms.NaNIsCounted` | src/metrics/metrics_registry.cpp:62-66 | one observation that is not a number is shown in every bucket, although it is at most no bound |
| `Histograms.MetricsRegistry.RegisterHistogram` | src/metrics/metrics_registry.cpp:37-50 | the histogram starts again with the new bounds |
| `Histograms.MetricsRegistry.FindBucket` | src/metrics/metrics_registry.cpp:62 | the binary search finds the first bound not below the value |
| `Histograms.MetricsRegistry.HistogramFor` | src/metrics/metrics_registry.cpp:18-25 | the histogram has bounds, and its counts still summarise what was observed under the name since registration |
| `Histograms.MetricsRegistry.Observe` | src/metrics/metrics_registry.cpp:52-69 | the registry stays what its history of calls says |
| `Histograms.MetricsRegistry.RenderBuckets` | src/metrics/metrics_registry.cpp:102-106 | the running-sum loop writes the cumulative series |
| `TraceParent.Find` | src/tracing/trace_context.cpp:38 | the position of the next dash, or the end |
| `TraceParent.SplitFields` | src/tracing/trace_context.cpp:32-47 | the loop yields the first four dash-separated fields and drops what follows |
| `TraceParent.ParseTraceparent` | src/tracing/trace_context.cpp:72-102 | computes the specified parse |
| `TraceParent.FormatTraceparent` | src/tracing/trace_context.cpp:104-113 | computes the specified text |
| `TraceParent.ParseIffCarries` | src/tracing/trace_context.cpp:72-102 | a header parses to a context if and only if it is a version other than ff, the two valid lowercase-hex ids, a flags byte with that sampling bit and possibly further fields |
| `TraceParent.HexDigits` | src/tracing/trace_context.cpp:12-28 | the sixteen lowercase digits are read, each for its value, and no other character |
| `TraceParent.ValidIds` | include/rtc/tracing/trace_context.hpp:34-37 | ids are valid when they have their length and are not all zeros |
| `TraceParent.ExtraFieldsAreIgnored` | src/tracing/trace_context.cpp:30-47 | a printed context followed by any further fields is still read, for version 00 too |
| `TraceParent.ParseUndoesFormat` | src/tracing/trace_context.cpp:104-113 | parsing the printed context gives it back, without vendor state, if and only if both ids are valid lowercase hex |
| `TraceParent.FormatUndoesParse` | src/tracing/trace_context.cpp:72-113 | for every accepted header, of any version and with any extra fields, printing and parsing again changes nothing |

## Left out

- HTTP controllers, middlewares, OpenAPI text, configuration, logging, audit, storage, notifications and search ranking: plumbing or easy members; of the controllers only the order of write and invalidation is used.
- `forget_node`, `PresenceCache` and the clock inside presence deltas (`at_ms`): `forget_node` is never part of a run, and a delta's time only reaches last-seen.
- The Redis client's reconnects, its counters and its handler table: the bus is its wires, its origin stamp and its filter. Presence runs lose no message; fan-out runs may lose any.
- Replicas with equal node ids: every run has distinct ones, as the origin filter assumes.
- A connection registered twice without being removed: `AddKeepsGroupingIff` says what happens, and runs register only absent connections.
- The worker pool as a class: its threads, mutex and flag are a machine over atomic steps, since the property is about interleavings. Condition-variable wake-ups, joins that never return and other liveness are not modelled.
- `start` of the worker pool sets the flag and spawns its workers in one step, and nothing is said about what happens after a worker has popped an empty queue, which the source leaves undefined; the model leaves that worker where it is.
- A whole `publish` or delivery is one step of a fan-out run, so registry changes do not fall between its loops over users or sessions, and joining many rooms is one step too.
- Session and connection identity as pointers, and the order in which unordered containers are walked: deliveries of one fan-out are compared per connection, not across connections.
- Decimal.ScanPrinted: numbers outside 32 bits are not read, because `%d` on them is undefined.
- RateLimiter.LimiterIsWindows: assumes fewer than 2^63 calls, so that the stored counter cannot overflow; the same holds for CallersAreLimitedApart, FirstHitsAreAdmitted, UnderTwiceTheLimit, BoundIsReached, WithinLimitIff and NoWindowNeverResets.
- CacheStore.LazyStoreIsTimedMap: leaves out `expire` and the set operations, which do not test for expiry first and so can tell a purged entry from an expired one.
- AuthorizationCache.AnswersAreRecent: assumes a positive time to live, as zero or less means "never expires"; broadcasting an invalidation to other replicas' caches is not modelled.
- Interleavings inside one service call of conversations, receipts and sessions: each call is atomic, though the source uses several transactions.
- Conversation and group names and their validation (`named` stands for a name that passes), renaming, listings, broadcasts and notifications about membership. Rows of `users` are never deleted by this code, so the cascade from users is not modelled.
- Deleting a conversation removes its messages; the receipt and paging runs do not include that.
- MessagePaging.PagingVisitsAll: rows become visible in id order; a transaction that commits an earlier id late is not modelled. The keyword filter, which does depend on tombstones, is left out.
- Bcrypt, SHA-256 and JWT signatures: hashes are injective, issued tokens are new, and what the check of signature, issuer and type says is a free input; the expiry claim is modelled, with the same time to live for tokens and sessions (`src/application.cpp:289`, `src/application.cpp:373`).
- RefreshSessions.OutlivesIff: assumes a time to live of at least one second, the smallest the configuration accepts (`src/config/config.cpp:128-129`).
- JSON numbers that are not integers, which the bus handlers would cut to integers.
- Histogram sums and averages, 64-bit overflow of counts, the rounding of finite doubles, and bounds that are not numbers, which cannot be sorted.
- Vendor trace state and the generation of random trace ids.
