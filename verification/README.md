# Pravah: a verified model of the control plane and the edge plane

Pravah is a content delivery network in two services: a core (`apps/core`) that takes
uploads, places and replicates files and watches the edges, and edges (`apps/edge`) that
cache and serve them. This project models the parts that hold algorithms and state
machines, and proves what they are relied on for.

* **Ring, placement, dispatch, failover** (`RingModel`, `RingHistory`, `RingLookup`,
  `HashRing`, `EdgeNodes`, `Placement`, `Replication`, `Failover`). The ring as a value
  with its theorems, the `HashRing` class over it, and the two services that use one
  long-lived and many short-lived rings.
* **Caches** (`Totals`, `LruBooks`, `CacheKeys`, `CoreCache`, `CoreRecency`, `CacheDrift`, `CacheManager`,
  `EdgeCache`, `EdgeCacheService`, `EdgeRecency`, `StampedeLock`). Exact accounting and exact LRU in the core, the
  two-tier refinement on the edge, and the timed lock with its follower.
* **Uploads** (`FileStatuses`, `Chunks`, `Upload`, `UploadRoundTrip`, `UploadVersions`,
  `ObjectStore`, `UploadService`, `UploadClient`, `Completion`). Split, send,
  resume, assemble, replace by a new version; and the race of concurrent completions, one
  database or storage operation at a time.
* **Refresh tokens** (`TokenFamilies`), **health** (`HealthMonitor`, `HealthCheck`),
  **rate limits** (`RateLimit`).
* **Signed URLs and HLS** (`Text`, `Decimals`, `EdgeUrl`, `Playlist`, `Hls`,
  `HlsClosure`, `HlsLinks`). Signing, verifying, rewriting playlists, and following the links.
* **The cluster** (`Cluster`, `EdgeContent`). Any number of edges filling from each other
  and from the origin.

Redis, PostgreSQL and S3 are maps; SHA-256, HMAC, the ring's hash, percent-encoding and
distance are function parameters; clocks, random identifiers and what the network does are
parameters of the steps. Files that change state in place are classes whose methods are
proved equal to a step of the corresponding value model, and the theorems are about runs of
those steps.

Where a promise does not hold of the code, the project says exactly when it does:
`HistoryIndependence` (hash collisions), `PlacementEqualsDispatchIff`,
`RerunDispatchesNothingIff`, `WriteSafeIff` (what an untrue declared size costs the core's
counter), `WriteThenPurgeBalancesIff` (the edge's), `RunServesStaleIff` (superseded bytes
from an unreadable disk), `QuietIff`,
`ResumeIff` (resuming with another chunk size), `StaleChunkReopensIff` (a chunk upload whose
status check is out of date), `ChildServedIff` (an expiry text that is not canonical).

The repository's own documents speak of 150 virtual nodes per edge; the code has 100, and
the model takes the number as a parameter.

## Model

| member | source | states |
|---|---|---|
| `RingHistory.HistoryIndependence` | apps/core/src/common/replication/hash-ring.ts:31-73 | For every hash function and node universe: the ring is determined by its node set, whatever sequence of additions, removals and synchronisations led there, if and only if no two virtual nodes collide |
| `RingHistory.CollisionBreaksIndependence` | apps/core/src/common/replication/hash-ring.ts:38-39 | Any collision among virtual nodes yields two histories with the same node set and different rings |
| `RingHistory.SharedHashKeepsOrder` | apps/core/src/common/replication/hash-ring.ts:31-43 | Two nodes that share a virtual-node hash: which of them owns it depends on the order of addition |
| `RingHistory.RepeatedHashLeavesOrphan` | apps/core/src/common/replication/hash-ring.ts:31-57 | A node that collides with itself leaves an orphan key behind when it is removed |
| `RingHistory.RunCanonical` | apps/core/src/common/replication/hash-ring.ts:31-73 | After any run of additions, removals and synchronisations without collisions, the keys are exactly the sorted virtual nodes of the current members, each with its owner |
| `RingHistory.SyncTopologyCanonical` | apps/core/src/common/replication/hash-ring.ts:59-73 | `syncTopology` leaves exactly the listed nodes, whatever the ring held before |
| `RingModel.AddNodeCanonical` | apps/core/src/common/replication/hash-ring.ts:31-43 | Adding a node to a well-formed ring adds exactly its virtual nodes, in sorted order; adding it again changes nothing |
| `RingModel.RemoveNodeCanonical` | apps/core/src/common/replication/hash-ring.ts:45-57 | Removing a node removes exactly its virtual nodes |
| `RingModel.CanonicalUnique` | apps/core/src/common/replication/hash-ring.ts:20-24 | A well-formed ring is determined by its node set |
| `RingModel.NamesDoNotCollide` | apps/core/src/common/replication/hash-ring.ts:35-37 | The names of the virtual nodes differ for different nodes and numbers: a hash without collisions on them gives a ring without collisions |
| `RingLookup.FullLap` | apps/core/src/common/replication/hash-ring.ts:75-97 | One lap of the walk meets every live owner once, in clockwise order from the key |
| `RingLookup.FirstIsSuccessor` | apps/core/src/common/replication/hash-ring.ts:75-119 | A point's first node is the owner of the least hash at or after it, or of the least hash of all |
| `RingLookup.WalkTerminatesIff` | apps/core/src/common/replication/hash-ring.ts:75-97 | On every ring, with or without keys, the walk of `getNodes` ends if and only if the ring has as many distinct live owners as asked for, and then within one lap |
| `RingLookup.CanonicalOwners` | apps/core/src/common/replication/hash-ring.ts:75-97 | In a collision-free ring with a virtual node for each member every member is a live owner, so the walk ends |
| `RingLookup.OrderOfSubset` | apps/core/src/common/replication/hash-ring.ts:45-57 | Over a smaller node set the clockwise order from any point is the larger order with the missing nodes struck out |
| `RingLookup.RemoveNodeDisruptsMinimally` | apps/core/src/common/replication/hash-ring.ts:45-57 | Removing a node deletes it from every clockwise order and moves nothing else |
| `RingLookup.AddNodeDisruptsMinimally` | apps/core/src/common/replication/hash-ring.ts:31-43 | Adding a node inserts it into every clockwise order and moves nothing else |
| `RingLookup.TakeWithout` | apps/core/src/common/replication/hash-ring.ts:75-97 | The first k nodes of a key change only if the removed node was among them, and then by exactly one successor |
| `HashRing.HashRing.AddNode` | apps/core/src/common/replication/hash-ring.ts:31-43 | The in-place insertion loop and re-sort do what the ring model says and keep the array sorted |
| `HashRing.HashRing.RemoveNode` | apps/core/src/common/replication/hash-ring.ts:45-57 | The in-place sweep and filter do what the ring model says |
| `HashRing.HashRing.SyncTopology` | apps/core/src/common/replication/hash-ring.ts:59-73 | The two loops of `syncTopology` do what the ring model says |
| `HashRing.HashRing.BinarySearch` | apps/core/src/common/replication/hash-ring.ts:99-119 | The search finds the first hash at or after the target, wrapping to 0 when there is none |
| `HashRing.HashRing.GetNodes` | apps/core/src/common/replication/hash-ring.ts:75-97 | The walk returns the first `count` distinct nodes clockwise of the key, fewer only when the ring has fewer |
| `Placement.LookupHistoryIndependent` | apps/core/src/placement/placement.service.ts:36-41 | A long-lived ring and one built afresh over the same nodes answer every lookup alike |
| `Placement.LookupTakes` | apps/core/src/common/replication/hash-ring.ts:75-97 | On a well-formed ring a lookup is a prefix of the clockwise order, so of the answer for any larger count |
| `Placement.OfferedIds` | apps/core/src/placement/placement.service.ts:43-74 | The replicas offered are the healthy ones of the responsible nodes, without the requester, sorted by distance |
| `Placement.OfferedInOrder` | apps/core/src/placement/placement.service.ts:43-74 | Each replica offered carries id, endpoint and region of a healthy registered node with the given distance from the requester's record, or 0 for an unknown requester, and they come nearest first |
| `Placement.PlacementAgreesWithDispatch` | apps/core/src/placement/placement.service.ts:36-48 | Under one health snapshot every replica placement offers (full ring, then health filter) is a target of dispatch (healthy-only ring) |
| `Placement.PlacementEqualsDispatchIff` | apps/core/src/placement/placement.service.ts:36-48 | Placement and dispatch name the same nodes if and only if a file's first three nodes are all healthy or include every healthy node |
| `Replication.ReplicationService.DispatchReplication` | apps/core/src/replication/replication.service.ts:99-209 | Each ring target of the file gets a pending row, one job on the shared queue and the same job on its own queue |
| `Replication.ReplicationService.HandleEdgeCrashFailover` | apps/core/src/replication/replication.service.ts:402-586 | Rows, queues and both counts after a crash repair: exactly the uncovered ring targets of the dead node's completed files get a job, each once on the shared queue and once on its own |
| `Replication.MirrorPush` | apps/core/src/replication/replication.service.ts:184-209 | Every per-edge queue holds exactly its node's jobs of the shared queue, in order |
| `Replication.RepairLoopResult` | apps/core/src/replication/replication.service.ts:447-576 | The repair loop gives that result in whatever order the affected files come |
| `Failover.RepairCoversTargets` | apps/core/src/replication/replication.service.ts:447-576 | After a repair every ring target of every repairable file, other than the dead node itself, is complete, pending or in progress |
| `Failover.RepairedPairIff` | apps/core/src/replication/replication.service.ts:447-485 | A pair is repaired if and only if the file was placed on the dead node and is complete and stored, the node is healthy and a ring target, and it is the dead node, has no row, or has a failed one |
| `Failover.RepairMarksExactly` | apps/core/src/replication/replication.service.ts:487-540 | The repair sets exactly the rows of those pairs to pending and leaves every other row alone |
| `Failover.RepairQueuesExactly` | apps/core/src/replication/replication.service.ts:487-576 | It queues exactly one job for each of them, with the file's object and its latest version number, or 1 |
| `Failover.TargetsAreFirstThree` | apps/core/src/replication/replication.service.ts:448-461 | The targets are the first three nodes clockwise on the ring of healthy nodes |
| `Failover.RerunDispatchesNothingIff` | apps/core/src/replication/replication.service.ts:447-576 | Running the repair again dispatches nothing if and only if the dead node is not itself still a ring target |
| `Failover.RerunDispatchesAgain` | apps/core/src/replication/replication.service.ts:447-576 | With the dead node still the one healthy node, a second repair queues the same job again |
| `Failover.RerunAfterDeathDispatchesNothing` | apps/core/src/replication/replication.service.ts:402-586 | Once the dead node has left the healthy set the repair is idempotent |
| `Failover.TargetsAfterCrash` | apps/core/src/replication/replication.service.ts:411-416 | A file's targets after a crash are its targets before, without the dead node and with one successor if it was among them |
| `Failover.AtMostOneRepairPerFile` | apps/core/src/replication/replication.service.ts:447-576 | If a file's other targets are covered, its repair is at most one job, and it goes to that successor |
| `LruBooks.VictimsAreShortestPrefix` | apps/core/src/common/cache-manager/cache-manager.service.ts:220-272 | The evicted entries are the shortest oldest-first prefix whose removal brings the total within the limit |
| `LruBooks.SurvivorsFit` | apps/core/src/common/cache-manager/cache-manager.service.ts:220-272 | What eviction leaves fits the limit |
| `LruBooks.VictimsOldestFirst` | apps/core/src/common/cache-manager/cache-manager.service.ts:228-255 | Evicting the oldest entry first changes neither who goes nor who stays |
| `CoreCache.EvictionTurn` | apps/core/src/common/cache-manager/cache-manager.service.ts:256-270 | Over the limit, one turn of the eviction script stays on course for that result and frees something, so the reset branch is not reached |
| `CoreCache.EvictionKeepsBooks` | apps/core/src/common/cache-manager/cache-manager.service.ts:220-272 | Eviction keeps the accounting exact and ends within the limit |
| `CacheDrift.WriteStaysExact` | apps/core/src/common/cache-manager/cache-manager.service.ts:171-209 | A write or overwrite keeps `cache:size` equal to the stored bytes, whatever size it declares |
| `CacheDrift.WriteSafeIff` | apps/core/src/common/cache-manager/cache-manager.service.ts:171-314 | After a write the counter stays exact through every later eviction and purge if and only if the write declared the length it stored |
| `CacheDrift.SafeIff` | apps/core/src/common/cache-manager/cache-manager.service.ts:220-314 | The same for any cache: the counter survives every removal if and only if every entry declares its true length |
| `CacheDrift.WriteThenPurgeExactIff` | apps/core/src/common/cache-manager/cache-manager.service.ts:282-314 | Writing an entry and purging its file leaves the counter exact if and only if the declared size is the true length |
| `CacheDrift.PurgeExactIff` | apps/core/src/common/cache-manager/cache-manager.service.ts:282-314 | A purge keeps the counter exact if and only if what the file's entries declare adds up to their bytes |
| `CacheDrift.TurnExactIff` | apps/core/src/common/cache-manager/cache-manager.service.ts:228-272 | One turn of the eviction loop, reset included, keeps the counter exact if and only if the entry declared its length, or declared 0 and no bytes are left |
| `CacheDrift.ResetForgetsBytes` | apps/core/src/common/cache-manager/cache-manager.service.ts:261-267 | An oldest entry that declares 0 makes the loop reset the counter to 0 while everything else stays cached |
| `CacheDrift.ResetLeavesNothing` | apps/core/src/common/cache-manager/cache-manager.service.ts:256-270 | If no entry declares 0 the loop resets the counter only when nothing is left |
| `CacheDrift.LoopWithinLimit` | apps/core/src/common/cache-manager/cache-manager.service.ts:256-270 | The loop ends with the counter within the limit, whatever is declared |
| `CacheDrift.LoopIsEnforce` | apps/core/src/common/cache-manager/cache-manager.service.ts:220-272 | With true sizes the loop is the exact least-recently-used eviction |
| `CoreCache.WrittenEntrySurvivesIff` | apps/core/src/common/cache-manager/cache-manager.service.ts:197-209 | An entry survives the eviction of its own write exactly when it fits the cache |
| `CoreCache.EvictFileAccounted` | apps/core/src/common/cache-manager/cache-manager.service.ts:282-314 | A purge removes every version of the file, leaves the rest alone and refunds exactly the removed bytes |
| `CoreCache.PurgeLeavesNothing` | apps/core/src/common/cache-manager/cache-manager.service.ts:282-314 | After a purge no index names the file, and every other file keeps its entries |
| `CoreCache.RunsStayAccounted` | apps/core/src/common/cache-manager/cache-manager.service.ts:143-314 | Over every run of writes, reads and purges metadata, data and LRU have the same keys, the key sets list them, and the counter is the bytes held, within the limit |
| `CoreRecency.CacheIsExactLru` | apps/core/src/common/cache-manager/cache-manager.service.ts:143-314 | Over every run of writes, reads and purges the cache holds what a plain least-recently-used map, defined on the list of operations alone, holds |
| `CoreRecency.ScoresAreLastUses` | apps/core/src/common/cache-manager/cache-manager.service.ts:143-209 | In every run an entry's score is the time of its last write or hit, and its metadata what was last written |
| `CoreRecency.OlderGoesFirst` | apps/core/src/common/cache-manager/cache-manager.service.ts:220-272 | An eviction never takes an entry and leaves one last used before it |
| `CacheManager.CacheManagerService.CacheFile` | apps/core/src/common/cache-manager/cache-manager.service.ts:171-209 | The pipeline with its size delta, then the eviction loop: within the limit whatever is declared, the code's loop result on every well-indexed cache, and the exact eviction when sizes are true |
| `CacheManager.CacheManagerService.GetBinary` | apps/core/src/common/cache-manager/cache-manager.service.ts:143-169 | A hit returns the stored bytes and renews only the entry's score; a miss changes nothing |
| `CacheManager.CacheManagerService.EvictOldest` | apps/core/src/common/cache-manager/cache-manager.service.ts:228-255 | The script drops the least recently used entry and refunds its declared size |
| `CacheManager.CacheManagerService.EnforceEvictionPolicy` | apps/core/src/common/cache-manager/cache-manager.service.ts:220-272 | The loop on `sizeToFree` with its reset ends within the limit; on an accounted cache it drops exactly the specified victims |
| `CacheManager.CacheManagerService.EvictFile` | apps/core/src/common/cache-manager/cache-manager.service.ts:282-314 | The deletion loop over a file's keys is the specified purge |
| `EdgeCache.TwoTiersRefinePlainMap` | apps/edge/src/cache/cache.service.ts:182-266 | After any sequence of small and large writes, overwrites, evictions, reads and purges with a readable disk, `getBinary` answers as one map from version to last cached bytes |
| `EdgeCache.ServesStaleIff` | apps/edge/src/cache/cache.service.ts:182-218 | In every coherent cache: with an unreadable disk superseded bytes are served if and only if the entry is on disk and memory holds other bytes for it |
| `EdgeCache.RunServesStaleIff` | apps/edge/src/cache/cache.service.ts:182-327 | After any run that is so if and only if, since the entry was last evicted or purged, a small write with other bytes preceded the last write and that one was large |
| `EdgeCache.UnreadableDiskServes` | apps/edge/src/cache/cache.service.ts:182-218 | With an unreadable disk every run serves the entry's last small write, whatever came after it |
| `EdgeCache.UnreadableDiskServesStaleBytes` | apps/edge/src/cache/cache.service.ts:182-218 | The shortest such run: a small write overwritten by a large one |
| `EdgeCache.WriteThenPurgeBalancesIff` | apps/edge/src/cache/cache.service.ts:253-259 | A write and a purge give the counter back what they took if and only if the declared size is what the write charged |
| `EdgeCache.WriteContents` | apps/edge/src/cache/cache.service.ts:220-266 | A write to either tier updates exactly one key of that map |
| `EdgeCache.ForgetContents` | apps/edge/src/cache/cache.service.ts:284-309 | Evicted entries leave that map, also when their disk copy stays |
| `EdgeCache.EvictFileContents` | apps/edge/src/cache/cache.service.ts:329-364 | A purge takes every version of the file out of that map and nothing else |
| `EdgeCache.PurgeLeavesNothing` | apps/edge/src/cache/cache.service.ts:329-364 | After a purge neither disk nor indexes have anything of the file, and every other file keeps what it has |
| `EdgeRecency.ScoresAreLastUses` | apps/edge/src/cache/cache.service.ts:182-266 | In every run an entry's score is the time of its last write or of the last read that found it, and its metadata describes what was last written and where |
| `EdgeRecency.OlderGoesFirst` | apps/edge/src/cache/cache.service.ts:277-327 | Whatever sizes are declared, an eviction that leaves an entry leaves every one last used after it |
| `EdgeCacheService.EdgeCacheService.GetBinary` | apps/edge/src/cache/cache.service.ts:182-218 | The tier choice of `getBinary` returns what the model reads and changes no contents |
| `EdgeCacheService.EdgeCacheService.CacheFile` | apps/edge/src/cache/cache.service.ts:220-266 | The write, then eviction of a least-recently-used prefix until the counter is within the limit |
| `EdgeCacheService.EdgeCacheService.EnforceEvictionPolicy` | apps/edge/src/cache/cache.service.ts:277-327 | The loop ends with the counter within the limit, has dropped a least-recently-used prefix and, when sizes are declared, none of it in vain |
| `EdgeCacheService.EdgeCacheService.EvictFile` | apps/edge/src/cache/cache.service.ts:329-364 | The deletion loop, pointer, key set and directory removal are the specified purge |
| `StampedeLock.AtMostOneLease` | apps/core/src/common/cache-manager/cache-manager.service.ts:69-102 | At any time after any run at most one requester holds an unexpired lease, and the key is its |
| `StampedeLock.GrantedIff` | apps/core/src/common/cache-manager/cache-manager.service.ts:69-82 | An attempt succeeds exactly when there is no lock or its grant is 10 s old |
| `StampedeLock.ReleaseFreesIff` | apps/core/src/common/cache-manager/cache-manager.service.ts:84-102 | The holder's release frees the lock, and nobody else's does |
| `StampedeLock.LapsedReleaseKeepsSuccessor` | apps/core/src/common/cache-manager/cache-manager.service.ts:84-102 | A leader whose lease has lapsed cannot remove its successor's lock |
| `StampedeLock.LeaseHasGrant` | apps/core/src/common/cache-manager/cache-manager.service.ts:69-82 | A lease in force was taken by a successful attempt, no later than now |
| `StampedeLock.WaitForCache` | apps/core/src/common/cache-manager/cache-manager.service.ts:104-122 | The follower stops within 12 s, says yes only on data it saw, and a timeout proves that someone acquired the lock after the waiting began |
| `StampedeLock.StampedeLock.AcquireStampedeLock` | apps/core/src/common/cache-manager/cache-manager.service.ts:69-82 | `SET NX` with a 10 s lease, as one event of the lock's history |
| `StampedeLock.StampedeLock.ReleaseStampedeLock` | apps/core/src/common/cache-manager/cache-manager.service.ts:84-102 | Owner-checked deletion, as one event of the lock's history |
| `TokenFamilies.FamiliesAreWellKept` | apps/core/src/auth/auth.service.ts:207-307 | In every run each family has at most one unconsumed live token, and its set contains and outlives every live record of it |
| `TokenFamilies.ReuseRevokesForever` | apps/core/src/auth/auth.service.ts:210-245 | Presenting a consumed token leaves no token of that login acceptable ever again, and no other family changes |
| `TokenFamilies.RunKeepsInv` | apps/core/src/auth/auth.service.ts:89-342 | Every login, rotation, refusal and revocation, of a family or of all of a user's, keeps each live record with its family, owner and lineage |
| `TokenFamilies.AcceptedIff` | apps/core/src/auth/auth.service.ts:174-245 | A refresh is accepted if and only if the signature is valid, the user exists and the token is live, unconsumed and identified; it counts as reuse if and only if that token has been consumed |
| `TokenFamilies.RotationRotates` | apps/core/src/auth/auth.service.ts:247-307 | A refresh gives a token good for seven days, uses up the one presented, which counts as reuse as long, and touches no other token |
| `TokenFamilies.LoginLasts` | apps/core/src/auth/auth.service.ts:125-163 | A registered token can be refreshed for exactly seven days, and is listed under its family and its user as long |
| `TokenFamilies.RevokeRemovesFamily` | apps/core/src/auth/auth.service.ts:321-342 | Revocation removes every live token of the family and only those, from the token keys and from the lists |
| `TokenFamilies.RevokeAllSignsOut` | apps/core/src/auth/auth.service.ts:344-364 | Revoking all of a user's tokens deletes every live token of the user and no one else's |
| `TokenFamilies.RevokeAllForever` | apps/core/src/auth/auth.service.ts:344-364 | After it, none of the families the user had leaves an acceptable token in any later run |
| `TokenFamilies.AuthService.Login` | apps/core/src/auth/auth.service.ts:125-163 | The pipeline of `login` registers the token and its family |
| `TokenFamilies.AuthService.RefreshToken` | apps/core/src/auth/auth.service.ts:174-319 | Every branch of the refresh request, with its verdict and its new state |
| `TokenFamilies.AuthService.RevokeTokenFamily` | apps/core/src/auth/auth.service.ts:321-342 | The deletion loop over a family's members |
| `TokenFamilies.AuthService.RevokeAllUserTokens` | apps/core/src/auth/auth.service.ts:344-364 | The deletion loop over all of a user's tokens |
| `HealthMonitor.ObservedStatus` | apps/core/src/common/health-check/health-check.service.ts:68-102 | Status and counter depend on the current run of misses alone, and each outage of three or more emits exactly one DOWN |
| `HealthMonitor.LogReproducesStatus` | apps/core/src/common/health-check/health-check.service.ts:141-177 | The emitted events chain, and replaying them gives the status held |
| `HealthMonitor.FailureDetection` | apps/core/src/common/health-check/health-check.service.ts:61-102 | After a last heartbeat at T, with scans every 5 s: out of the healthy set before T+20 s, DOWN between T+25 s and T+30 s, once |
| `HealthMonitor.SilenceIsDetected` | apps/core/src/common/health-check/health-check.service.ts:61-177 | The same over whole runs, whatever other nodes, heartbeats and refreshes do |
| `HealthMonitor.NoFalseAlarm` | apps/core/src/common/health-check/health-check.service.ts:61-102 | A healthy node whose consecutive heartbeats are at most 15 s apart, the first before any scan and each due one before a scan at the same instant, is never marked missed and no event is emitted about it |
| `HealthMonitor.QuietIff` | apps/core/src/common/health-check/health-check.service.ts:61-102 | No event is emitted about a node that starts healthy if and only if every scan finds a heartbeat less than 15 s old |
| `HealthMonitor.TieDegrades` | apps/core/src/common/health-check/health-check.service.ts:61-83 | A scan at the instant a heartbeat is due, but before it, is a miss |
| `HealthMonitor.RefreshChangesNothing` | apps/core/src/common/health-check/health-check.service.ts:104-139 | A run with one more `refreshNodeMap`, between any two events, ends in the same memory, database and events |
| `HealthMonitor.RecordsDescribeRows` | apps/core/src/common/health-check/health-check.service.ts:104-139 | In every run memory describes each node as the database does, and the database keeps its region and endpoint |
| `HealthMonitor.RunProjects` | apps/core/src/common/health-check/health-check.service.ts:61-177 | A run of the whole system is, node by node, the automaton run on what the scans found |
| `HealthMonitor.EventsReproduceStatus` | apps/core/src/common/health-check/health-check.service.ts:141-177 | Folding the emitted events gives the status in memory and in the database |
| `HealthCheck.HealthCheckService.MonitorEdgeHealth` | apps/core/src/common/health-check/health-check.service.ts:68-102 | The scan loop over the node map, in any order, is the model's scan |
| `HealthCheck.HealthCheckService.CheckNode` | apps/core/src/common/health-check/health-check.service.ts:70-101 | One node's branch: reset, count, degrade, down |
| `HealthCheck.HealthCheckService.TransitionStatus` | apps/core/src/common/health-check/health-check.service.ts:141-177 | Record, row and event stream change together |
| `HealthCheck.HealthCheckService.SendHeartbeat` | apps/core/src/common/health-check/health-check.service.ts:61-66 | A heartbeat writes the key with a 15 s life |
| `HealthCheck.HealthCheckService.RefreshNodeMap` | apps/core/src/common/health-check/health-check.service.ts:104-139 | The map is rebuilt from the rows, keeping the known counters |
| `HealthCheck.HealthCheckService.GetHealthyNodes` | apps/core/src/common/health-check/health-check.service.ts:179-183 | Exactly the healthy records, each once |
| `RateLimit.RateIsBounded` | apps/core/src/common/guards/rate-limit.guard.ts:103-125 | In any interval of one TTL a key has at most 2·limit − 1 requests admitted by the core and 2·limit by the edge, whatever other keys do |
| `RateLimit.BoundIsReached` | apps/core/src/common/guards/rate-limit.guard.ts:103-125 | Both bounds are exact: some run reaches them |
| `RateLimit.SweepIsInvisible` | apps/edge/src/common/guards/rate-limit.guard.ts:80-89 | The edge's sweep of more than 5000 entries changes no decision, then or later |
| `RateLimit.TallyRun` | apps/edge/src/common/guards/rate-limit.guard.ts:64-91 | What a key's current window implies for the requests admitted in the interval, over every run |
| `RateLimit.CoreRateLimitGuard.CheckMemory` | apps/core/src/common/guards/rate-limit.guard.ts:113-125 | The counter in place is one step of a run |
| `RateLimit.CoreRateLimitGuard.CanActivate` | apps/core/src/common/guards/rate-limit.guard.ts:99-111 | The decision and the store are one step of a run; a refused request counts too |
| `RateLimit.EdgeRateLimitGuard.CanActivate` | apps/edge/src/common/guards/rate-limit.guard.ts:64-91 | The same for the edge, with its sweep |
| `RateLimit.EdgeRateLimitGuard.DeleteExpired` | apps/edge/src/common/guards/rate-limit.guard.ts:82-88 | The deletion loop leaves exactly the unexpired entries |
| `Chunks.CountByOffset` | dashboard/app.js:505 | `Math.ceil` gives exactly the chunks that start inside the file |
| `Chunks.SplitJoined` | dashboard/app.js:586-588 | Splitting a file into chunks and joining them gives the file back |
| `Chunks.ResumeIff` | dashboard/app.js:532-588 | For every file length: a session resumed with another chunk size restores every file of that length if and only if the sizes are equal or nothing was left to send, over any alphabet of at least two symbols |
| `Upload.BooksAreKept` | apps/core/src/upload/upload.service.ts:30-248 | In every run `uploadedChunks` is the number of verified chunks, an open session is pending until the first of them, and while it is open each verified row describes its stored object |
| `Upload.CompletionIff` | apps/core/src/upload/upload.service.ts:250-294 | Completion is let through exactly when the owner asks, the session is open and the counter has reached the total |
| `Upload.CompletionRefusalIsTrue` | apps/core/src/upload/upload.service.ts:250-294 | Every refusal of completion names a defect that is there |
| `Upload.ChunkAcceptedIff` | apps/core/src/upload/upload.service.ts:119-168 | A chunk is accepted if and only if it is not empty, comes from the owner of an open session, has a valid index, and its digest is the checksum sent, trimmed and in either case |
| `Upload.ChunkRefusalIsTrue` | apps/core/src/upload/upload.service.ts:119-168 | Every refusal of a chunk names a defect that is there |
| `Upload.SessionsAreAsOpened` | apps/core/src/upload/upload.service.ts:30-117 | In every run a file belongs to the one who first opened it, and its name, size and number of chunks are those of its last session |
| `Upload.CountUpdate` | apps/core/src/upload/upload.service.ts:175-201 | Verifying a chunk raises the count by one if and only if it was not verified before |
| `UploadRoundTrip.RoundTrip` | apps/core/src/upload/upload.service.ts:119-357 | A file split by any size, its chunks sent in any order, repeated or interrupted among anyone's requests: every object assembled for it is the file |
| `UploadRoundTrip.RunHolds` | apps/core/src/upload/upload.service.ts:30-357 | Every run keeps each verified chunk's object equal to the part it stands for |
| `UploadRoundTrip.CompletionStoresWhole` | apps/core/src/upload/upload.service.ts:296-357 | A completion that is let through and finishes stores exactly the joined parts and leaves none of the chunk objects |
| `UploadVersions.EveryVersionIsItsFile` | apps/core/src/upload/upload.service.ts:30-357 | Over any number of version uploads with contents of their own: each completed version stays stored for ever as the file its session was cut from, and the row points at the last one |
| `UploadVersions.FullSessionBecomesVersion` | apps/core/src/upload/upload.service.ts:296-357 | A session whose chunks have all arrived becomes the next version when its completion meets no failure |
| `ObjectStore.MinioService.AssembleChunks` | apps/core/src/common/minio/minio.service.ts:130-213 | Multipart copy, or concatenation in memory when a part is too small: the destination is the sources joined in the order of the keys, or nothing is written |
| `ObjectStore.MinioService.CopyParts` | apps/core/src/common/minio/minio.service.ts:146-175 | One part per key, numbered from 1 in order |
| `ObjectStore.MinioService.AssembleChunksInMemory` | apps/core/src/common/minio/minio.service.ts:215-238 | The buffers are accumulated in the order of the keys |
| `UploadService.UploadService.InitUpload` | apps/core/src/upload/upload.service.ts:30-62 | A pending row with one pending chunk row per index |
| `UploadService.UploadService.InitVersionUpload` | apps/core/src/upload/upload.service.ts:64-117 | The refusals, and a fresh set of chunk rows |
| `UploadService.UploadService.UploadChunk` | apps/core/src/upload/upload.service.ts:119-215 | Every refusal in its order; otherwise the object, both rows and the receipt |
| `UploadService.UploadService.GetUploadStatus` | apps/core/src/upload/upload.service.ts:217-248 | The session with the ascending indices of its verified chunks |
| `UploadService.VerifiedIndices` | apps/core/src/upload/upload.service.ts:236-238 | Exactly the verified indices, as many as are counted |
| `UploadService.UploadService.CompleteUpload` | apps/core/src/upload/upload.service.ts:250-412 | A completion without a competitor, as far as storage and database let it get |
| `UploadClient.UploadClient.SendChunk` | dashboard/app.js:596-627 | At most three tries; a lost response is repaired by the next try without counting the chunk twice, and a try that gets through suffices |
| `UploadClient.UploadClient.OpenSession` | dashboard/app.js:527-566 | Resuming the remembered session or starting a new one |
| `UploadClient.UploadClient.SendMissing` | dashboard/app.js:573-628 | The loop sends what is not verified and keeps the session's parts |
| `UploadClient.UploadClient.StartChunkedUpload` | dashboard/app.js:502-658 | A stopped upload can be started again, a finished one with the same chunk size has stored the file, and on a good enough network it does finish |
| `UploadClient.OtherSizeSession` | dashboard/app.js:532-566 | A session taken up with another chunk size holds the mixed parts |
| `UploadClient.OtherSizeLosesBytes` | dashboard/app.js:532-566 | Four bytes cut by two and resumed by three lose a byte |
| `Completion.OneWinner` | apps/core/src/upload/upload.service.ts:250-412 | However the operations of concurrent completions and timely chunk uploads interleave: at most one claim; at most one new version, with the least number above those in use; and a completed file points at it, with the joined chunks under that number |
| `Completion.LosersChangeNothing` | apps/core/src/upload/upload.service.ts:282-294 | Only a chunk upload before any claim, or the winner, changes the file |
| `Completion.CompletedIsFinal` | apps/core/src/upload/upload.service.ts:350-411 | Once completed the file does not change again; in particular no failure overwrites it |
| `Completion.WinnerCompletes` | apps/core/src/upload/upload.service.ts:296-357 | A winner at which nothing throws completes the file with that next version and leaves no chunks |
| `Completion.UndisturbedUploadCompletes` | apps/core/src/upload/upload.service.ts:119-357 | From an open session: every part uploaded once and one completion end in the completed file |
| `Completion.CallsAreToldWhy` | apps/core/src/upload/upload.service.ts:250-294 | What a call is told at its start and at its claim, with the number of chunks received |
| `Completion.StaleChunkReopensIff` | apps/core/src/upload/upload.service.ts:142-201 | After the one claim of any run `OneWinner` covers, one more chunk upload lets a second completion, waiting or new, claim exactly when the status its guard had read was open |
| `Completion.StaleChunkBreaksExclusion` | apps/core/src/upload/upload.service.ts:142-201 | An interleaving in which an out-of-date guard makes two completions claim |
| `EdgeUrl.PayloadsInjective` | apps/edge/src/common/security/edge-url.util.ts:31-49 | For colon-free identifiers, versions and expiries the signed payload determines kind, file, version, subpath and expiry |
| `EdgeUrl.MatchesIff` | apps/edge/src/common/security/edge-url.util.ts:82-117 | A signature is accepted exactly when it spells the expected one, in either case |
| `EdgeUrl.SignedTexts` | apps/edge/src/common/security/edge-url.util.ts:8-49 | What is signed is the text `<fileId>:<version>:<exp>`, and for a subpath `<fileId>:<version>:<subpath>:<exp>` without leading slashes |
| `EdgeUrl.FileSignatureOpensAll` | apps/edge/src/common/security/edge-url.util.ts:90-97 | A file's signature opens the file and every subpath exactly until it expires |
| `EdgeUrl.SegmentScope` | apps/edge/src/common/security/edge-url.util.ts:31-121 | A subpath's signature is accepted exactly while unexpired and for its file, version, subpath up to leading slashes and expiry as printed, or on a collision of the hash between the payload signed and one asked for |
| `EdgeUrl.SomeMatchIff` | apps/edge/src/common/security/edge-url.util.ts:90-120 | A signature made for one payload is accepted exactly when that payload is asked for or the hash collides |
| `EdgeUrl.VerifyEdgeUrl` | apps/edge/src/common/security/edge-url.util.ts:56-121 | The guards, the candidate list and the loop decide exactly that |
| `Decimals.ParseReadsNumber` | apps/edge/src/common/security/edge-url.util.ts:68-72 | `parseInt` reads a number behind blanks, whatever follows its digits |
| `Decimals.ParseReadsPlus` | apps/edge/src/common/security/edge-url.util.ts:68-72 | A plus sign before what reads as a number does not matter |
| `Decimals.ParseReadsMinus` | apps/edge/src/common/security/edge-url.util.ts:68-72 | A minus sign before it negates it |
| `Text.EndsWithIff` | apps/edge/src/content/edge-content.controller.ts:206-207 | A name ends in a suffix exactly when it is some stem followed by it |
| `Text.LowerIff` | apps/core/src/upload/upload.service.ts:160-168 | Lower-casing makes two texts equal exactly when they differ in the case of letters only |
| `Text.TrimIs` | apps/core/src/upload/upload.service.ts:160-168 | Trimming takes off blanks at both ends, and all of them |
| `Playlist.RewriteKeepsLinks` | apps/edge/src/content/edge-content.controller.ts:312-361 | Rewriting keeps the number of lines, and a player finds the original links, each rewritten, in their order |
| `Playlist.OtherLinesUnchanged` | apps/edge/src/content/edge-content.controller.ts:327-356 | Blank lines and tags without a URI attribute do not change |
| `Playlist.AttrsKept` | apps/edge/src/content/edge-content.controller.ts:349-353 | The regular-expression replacement rewrites every URI attribute and creates no new match |
| `Playlist.UriLine` | apps/edge/src/content/edge-content.controller.ts:327-356 | A line that is neither blank nor a tag is a link and is rewritten whole |
| `Playlist.UriTag` | apps/edge/src/content/edge-content.controller.ts:347-353 | A tag's `URI` attribute is a link, and its value alone is rewritten |
| `HlsClosure.LinkLeadsToChild` | apps/edge/src/content/edge-content.controller.ts:180-204 | A rewritten relative link, with or without a query of its own, resolved by the player and split back by the controller, stays on the site and asks for the child with the signature made for it |
| `HlsClosure.ChildServedIff` | apps/edge/src/content/edge-content.controller.ts:332-347 | The child is served exactly until the expiry, and if the parent's expiry text is canonical decimal or the hash collides on what was signed |
| `HlsClosure.TreeIsOpen` | apps/edge/src/content/edge-content.controller.ts:180-361 | For every hash: a signed master opens every playlist and segment reachable by following links, until it expires, when playlists are named `.m3u8` |
| `HlsClosure.RawLinkIsRefused` | apps/edge/src/content/edge-content.controller.ts:206-310 | A playlist under any other name is sent as stored and none of its links is served |
| `HlsClosure.PaddedExpiryClosesTree` | apps/edge/src/common/security/edge-url.util.ts:68-97 | With a padded expiry the master is served and, short of a collision of the hash, none of its links is |
| `HlsLinks.MasterPlays` | apps/edge/src/content/edge-content.controller.ts:180-361 | `master.m3u8` naming one segment is sent with that link signed, and the player's request for it is served until the expiry |
| `HlsLinks.RootLinkServedIff` | apps/edge/src/content/edge-content.controller.ts:332-347 | A root-relative link, even to where the tree is served, is signed for another path than it asks for: it is served only on a collision of the hash |
| `HlsLinks.BareRequest` | apps/edge/src/content/edge-content.controller.ts:180-196 | A request for the tree without subpath or parameters is one for version 1 of `master.m3u8`, unsigned |
| `HlsLinks.TraversalIsRefused` | apps/edge/src/content/edge-content.controller.ts:183-185 | A subpath with `..`, or beginning with a slash or backslash, is refused whatever its signature |
| `Cluster.ClusterIsCoherent` | apps/edge/src/content/edge-content.controller.ts:409-632 | In every reachable state of any number of edges, whatever is cached, served or about to be cached is that version's origin object |
| `Cluster.FillsDoNotRecurse` | apps/edge/src/content/edge-content.controller.ts:409-422 | A peer's request is answered from the local cache alone; a client's request has at most the configured number of peer requests |
| `Cluster.OriginComesLast` | apps/edge/src/content/edge-content.controller.ts:504-572 | In every run a request turns to the origin only after each of its peers has been sent a request for the version |
| `Cluster.CachedIsServed` | apps/edge/src/content/edge-content.controller.ts:409-445 | What is cached is served at once, to clients and to peers |
| `Cluster.PlacementIsFollowed` | apps/edge/src/content/edge-content.controller.ts:482-505 | The peers asked are the placement's first replicas, as many as the attempts allow |
| `Cluster.PeerAnswers` | apps/edge/src/content/edge-content.controller.ts:507-572 | A peer that has the version gives it, and the turn of one that has not passes to the next |
| `Cluster.SilentPeerIsPassed` | apps/edge/src/content/edge-content.controller.ts:560-570 | A peer that fails or times out is passed over for the next |
| `Cluster.FilledIsServed` | apps/edge/src/content/edge-content.controller.ts:539-572 | What has been taken is served, and cached if it came from a peer or is small enough |
| `Cluster.OriginAnswers` | apps/edge/src/content/edge-content.controller.ts:574-600 | With no peer left the origin's object is taken, to be cached up to 100 MB |
| `Cluster.WaiterAnswers` | apps/edge/src/content/edge-content.controller.ts:470-480 | A request that found the lock taken looks into the cache again, then streams from the origin |
| `EdgeContent.EdgeContentController.GetEdgeContent` | apps/edge/src/content/edge-content.controller.ts:365-633 | One request: the cache, or as the lock's holder the first peer that has the file, or the origin when none has |
| `EdgeContent.EdgeContentController.AskPeers` | apps/edge/src/content/edge-content.controller.ts:504-572 | The first of the first `peerMaxAttempts` replicas that answers with content is the source; nothing is found only if none of them does |
| `EdgeContent.PeersTriedAreFirst` | apps/edge/src/content/edge-content.controller.ts:504-507 | The peers tried are the placement's first replicas, index by index, as many as the attempts allow |
| `EdgeContent.EdgeContentController.FetchFromOrigin` | apps/edge/src/content/edge-content.controller.ts:574-621 | The origin's object is served, and cached if it is at most 100 MB |
| `EdgeContent.EdgeContentController.GetPeerContent` | apps/edge/src/content/edge-content.controller.ts:409-422 | Peer mode reads the local cache and changes nothing |
| `EdgeContent.FillIsTrue` | apps/edge/src/content/edge-content.controller.ts:482-621 | Told nothing but the truth, a fill answers nothing else |

## Left out

- HashRing.HashRing.GetNodes: has the termination condition of `WalkTerminatesIff` as a precondition, because without it the source's loop does not end.
- StampedeLock.WaitForCache: assumes ideal timers and reads that take no time, as the 12 s bound does.
- Completion.OneWinner: covers one upload session, so `initVersionUpload` issued while a completion of the same file is under way is not an event of the machine; and takes chunk uploads whose status check is still true when they write (`StaleChunkReopensIff` says what happens otherwise).
- Upload.BooksAreKept: takes each `uploadChunk` as one step; between its object write and its rows the object is ahead of the rows.
- UploadRoundTrip.RoundTrip: covers the path without compression; gzip is not modelled.
- UploadVersions.EveryVersionIsItsFile: takes each of the owner's chunks as the current session's; the requests carry no session, so a chunk delayed into the next session would be stored as that one's.
- UploadService.UploadService.CompleteUpload: a version row created and a file update that then fails are the one fate `RowsFail`, as in `Upload.CompleteUpload`; `Completion` takes the two writes apart.
- UploadClient.UploadClient.StartChunkedUpload: runs without other clients in between; what others may do in between is covered by `RoundTrip`, which allows any interleaving.
- TokenFamilies.FamiliesAreWellKept: takes each request as one step, because the source reads and writes the token key separately; legacy `active` token states are not modelled.
- EdgeCacheService.EdgeCacheService.EnforceEvictionPolicy: does not claim that the edge's counter is the bytes held, because the source charges a tenth for disk entries, charges overwrites again and refunds the declared size.
- EdgeCache.TwoTiersRefinePlainMap: assumes a disk that keeps what it was given; `RunServesStaleIff` says what happens when it cannot be read.
- RateLimit.RateIsBounded: takes limit and TTL as fixed for a key, and models the memory store, not the Redis counters.
- HlsClosure.TreeIsOpen: speaks of relative links, with at most a query that names none of the three parameters, whose resolved path the player and the controller read as written: no scheme, no leading slash, no dot segments, no second `/hls/`, and only characters that stay as they are in a URL's path (so no percent signs either).
- EdgeUrl.SegmentScope: treats expiries as integers without JavaScript's loss of precision above 2^53.
- Text.Trim: ASCII only, as is `Text.Lower`.
- Cluster.ClusterIsCoherent: leaves out the edge's replication worker, which takes its version number from a field the metadata endpoint does not return.
- Replication.ReplicationService.DispatchReplication: rows are kept by their status; attempts, errors and timestamps that the update also resets are not modelled, and neither is a per-edge queue that refuses a job.
- EdgeCacheService.EdgeCacheService.EvictFile: takes the removal of the file's directory as immediate, where the source starts it and does not wait.
- The two not-found answers of `getPlacement`, which precede the choice of replicas.
- Redis, database and queue failures in dispatch and failover, and the dead-letter queue with its replay and gauge.
- Redis key strings are kept as tuples of their parts, which coincide for identifiers without colons.
- The edge's HLS cache entries, range requests, conditional requests and response headers.
- Metadata that declares a size that is not a number.
- Node registration between two refreshes of the node map, and the nodes' static fields.
- Kafka, sockets, metrics, tracing, guards for roles and API keys, DTO validation other than the bounds the proofs use, transcoding, and the dashboard outside the upload.
