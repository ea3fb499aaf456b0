# A verified model of StackHQ's in-memory components

StackHQ (`packages/`) is a set of small in-memory backend components. This project models the ones that carry
guarantees over whole runs or over two states at once, and proves those guarantees for every input and every run.

| file | models |
|---|---|
| `ConsistentHashing.dfy` | the hash ring with virtual nodes, its sorted index and the replica walk |
| `TokenRefresh.dfy`, `TokenRefreshService.dfy` | refresh-token rotation as interleaved synchronous segments, and the objects they run on |
| `RoleGraph.dfy`, `RoleManager.dfy`, `RoleInheritance.dfy` | role inheritance as reachability, the three depth-first searches, the two-pass builder |
| `Cache.dfy`, `CacheHistory.dfy` | the LRU/LFU/TTL cache, inclusion between capacities, agreement with history |
| `RateLimiter.dfy` | the four limiting algorithms: bounds over every interval, exactly which calls are admitted, retry hints |
| `CircuitBreaker.dfy` | the breaker with overlapping and late calls, every transition read off the history |
| `MessageQueue.dfy`, `MessageQueueObject.dfy` | the queue with visibility timers, its order and what it never loses, as a step system and over shared message objects |
| `Bulkhead.dfy` | the bulkhead and its waiting line |
| `EventSourcing.dfy`, `EventOrder.dfy`, `EventSourcingObjects.dfy` | the event store, aggregates, competing writers, the merged order |
| `LoadBalancer.dfy` | round robin, weighted round robin, least connections |
| `Common.dfy` | value types and sequence facts |

Each component with mutable fields is a class whose methods are proved equal to functions on values; the theorems are
lemmas about those functions and about runs of them.

## What is assumed

- Time is an argument that does not decrease, except where a lemma quantifies over arbitrary clock readings.
- Arithmetic is exact: token amounts and window weights are scaled by `windowMs`, the failure rate is a fraction.
- The ring's hash is any function from strings to 32-bit numbers; freedom from collisions is assumed only where a row says so.
- Identifiers generated by the components are fresh. A refresh token verifies exactly when its claims were issued.
- The blacklist may answer either way whenever it is asked; a lemma about a truthful one says so.
- One synchronous segment runs at a time. Where the source awaits, any other segments may come in between.
- Limits, window lengths and breaker thresholds are at least 1, as the components need.

## Where the code does less than it seems to promise

For each of these there are rows below: one at an input where the promise fails, and one with the exact condition under
which it holds. The names in brackets give the failing input first.

- Virtual nodes can collide, and removing one node then takes a live node's points away (`CollisionErasesAMember`,
  `CollisionTakesPoints`, `RemovalKeepsOthersExactly`).
- Revoking a token family does not stop a rotation that has revoked its old token and not yet saved the new one
  (`RevocationCanBeOutrun`, `RevocationIsFinalExactly`). A configured blacklist that answers first pre-empts family
  revocation on reuse (`TruthfulBlacklistHidesReuse` gives every such input, `ReuseIsPunished` the condition).
- `createRole` does not look for cycles (`CreateRoleCanCloseACycle`, `CreateRoleKeepsAcyclicExactly`), and `build` can
  refuse a hierarchy that repeats a name although the final declarations are acyclic (`RepeatedNamesCanBeRefused`,
  `BuildExact`).
- The comment on `getAncestorChain` (packages/rbac/src/roleInheritance.ts:41) suggests parents first; the code searches
  depth first, so a grandparent can come before a parent (`GrandparentCanComeFirst`, `ParentsFirstExactly`). The model
  follows the code.
- The sliding counter's `retryAfterMs` can be too short (`CounterHintCanFail`, `CounterHintExact`) and its `remaining`
  one too small (`CounterRemainingCanFallShort`, `CounterRemainingExact`).
- A redelivered message can come back before its visibility timeout, because older timers still run
  (`RedeliveryCutShort`, `HiddenExactly`).
- Saving an aggregate as packages/architecture/README.md:117 does, without an expected version, is right only if nobody
  wrote in between (`UncheckedSaveCanDisagree`, `UncheckedSaveExactly`); events raised between append and commit are lost
  (`CommitCanLoseAnEvent`, `CommitAfterMoreRaised`); an `apply` that reads `occurredAt` breaks replay
  (`TimeReaderDisagrees`, `FaithfulExactly`).
- `release` by id misses its backend when an earlier one has the same id (`ReleaseCanMissItsBackend`,
  `ReleaseUndoesExactly`).

## Model

| member | source | states |
|---|---|---|
| ConsistentHashing.ConsistentHashRing.constructor | packages/scaling/src/consistentHashing.ts:19-22 | The ring is the one that joining the given nodes in order produces, with a matching index. |
| ConsistentHashing.ConsistentHashRing.AddNode | packages/scaling/src/consistentHashing.ts:24-30 | All positions of the node, and nothing else, come to belong to it; the index is sorted again. |
| ConsistentHashing.ConsistentHashRing.RemoveNode | packages/scaling/src/consistentHashing.ts:32-38 | All positions of the node disappear, whoever held them; the index is sorted again. |
| ConsistentHashing.ConsistentHashRing.RebuildSorted | packages/scaling/src/consistentHashing.ts:40-42 | The index lists exactly the ring's positions, in increasing order. |
| ConsistentHashing.ConsistentHashRing.GetNode | packages/scaling/src/consistentHashing.ts:45-60 | The binary search with wrap-around returns the owner of the key's hash, and fails exactly on an empty ring. |
| ConsistentHashing.ConsistentHashRing.FindIndex | packages/scaling/src/consistentHashing.ts:68 | The linear search finds the number of entries below the hash, or reports that all are below it. |
| ConsistentHashing.ConsistentHashRing.GetNodes | packages/scaling/src/consistentHashing.ts:63-82 | The replica walk returns the first `count` distinct nodes of the clockwise lap. |
| ConsistentHashing.ConsistentHashRing.Walk | packages/scaling/src/consistentHashing.ts:71-81 | The cyclic loop ends within one lap with the first `count` distinct nodes met. |
| ConsistentHashing.WalkStep | packages/scaling/src/consistentHashing.ts:73-80 | While a node is still unseen the lap is not over, so the loop can take one more step and stays on the lap. |
| ConsistentHashing.ReplicasAreDistinct | packages/scaling/src/consistentHashing.ts:63-82 | Replicas are distinct ring members; there are min(max(count, 0), distinct nodes) of them. |
| ConsistentHashing.ReplicasArePrefixes | packages/scaling/src/consistentHashing.ts:63-82 | The replicas for a smaller count are a prefix of those for a larger one. |
| ConsistentHashing.OwnerIsAtSuccessor | packages/scaling/src/consistentHashing.ts:49-59 | The owner is the node at the clockwise successor of the hash, wrapping to the least position. |
| ConsistentHashing.OwnerIsAtSearchResult | packages/scaling/src/consistentHashing.ts:49-59 | Stopping at the first entry not below the hash, or past the end, has found the owner. |
| ConsistentHashing.FirstReplicaIsOwner | packages/scaling/src/consistentHashing.ts:45-82 | The head of the linear-search walk is the binary-search answer. |
| ConsistentHashing.RemovalKeepsOthersExactly | packages/scaling/src/consistentHashing.ts:32-38 | Removal leaves every other node's points alone if and only if no other node sits on the removed positions. |
| ConsistentHashing.ReplicaStability | packages/scaling/src/consistentHashing.ts:32-82 | After a removal the first c replicas are the first c of the old c+1 with the node struck out. |
| ConsistentHashing.OwnersAfterRemoval | packages/scaling/src/consistentHashing.ts:32-60 | Keys of other nodes keep their owner; keys of the removed node fall to their old second replica. |
| ConsistentHashing.AddingMovesOnlyToTheNewNode | packages/scaling/src/consistentHashing.ts:24-60 | Whatever collides, adding a node moves a key only to that node. |
| ConsistentHashing.AddThenRemoveRestoresExactly | packages/scaling/src/consistentHashing.ts:24-38 | Adding and then removing a node restores the ring if and only if its positions were free. |
| ConsistentHashing.RunsHoldOnlyOwn | packages/scaling/src/consistentHashing.ts:24-38 | On every run of joins and leaves, collisions included, a node holds only its own positions. |
| ConsistentHashing.RingIsTheMembership | packages/scaling/src/consistentHashing.ts:24-38 | On collision-free runs a position is held by a node exactly when that node is a member and the position is its own. |
| ConsistentHashing.PlacementDependsOnMembersOnly | packages/scaling/src/consistentHashing.ts:24-38 | Two collision-free histories with the same final members give the same ring. |
| ConsistentHashing.StabilityOnEveryRun | packages/scaling/src/consistentHashing.ts:32-82 | Replica stability at the end of every collision-free run. |
| ConsistentHashing.JoiningOnlyInserts | packages/scaling/src/consistentHashing.ts:24-82 | After a node joins on free positions, the new replicas with it struck out are a prefix of the old ones, and one more new replica always gives all old ones back. |
| ConsistentHashing.JoiningOnEveryRun | packages/scaling/src/consistentHashing.ts:24-82 | The same at the end of every collision-free run. |
| ConsistentHashing.CollisionTakesPoints | packages/scaling/src/consistentHashing.ts:24-38 | For any two nodes, after both join and the first leaves, the second has lost exactly the positions they share. |
| ConsistentHashing.CollisionErasesAMember | packages/scaling/src/consistentHashing.ts:24-38 | For any two nodes whose only positions collide, removing one empties the ring although the other is still a member. |
| ConsistentHashing.DecimalReadsBack | packages/scaling/src/consistentHashing.ts:26 | The loop index is written in decimal digits that denote it, without leading zeros. |
| ConsistentHashing.LabelsAreDistinct | packages/scaling/src/consistentHashing.ts:24-27 | The strings hashed for two virtual nodes are equal only if the nodes and the indices are. |
| ConsistentHashing.PositionsCountExactly | packages/scaling/src/consistentHashing.ts:24-29 | A node has at most as many positions as virtual nodes, and exactly as many if and only if the hash tells their strings apart. |
| ConsistentHashing.MembersHoldEqualShares | packages/scaling/src/consistentHashing.ts:24-38 | At the end of every collision-free run each member holds one point for each virtual node, and nobody else holds any. |
| TokenRefresh.StepAddsNoHolder | packages/auth/src/tokenRefresh.ts:68-103 | No synchronous segment of any call lets a family's holders (live tokens and rotations between revoke and save) grow, except that family's own login. |
| TokenRefresh.StepKeepsInv | packages/auth/src/tokenRefresh.ts:68-103 | Each segment keeps: claims match records, at most one holder per family, each token rotated at most once. |
| TokenRefresh.RunKeepsInv | packages/auth/src/tokenRefresh.ts:52-103 | The same over every interleaving of concurrent calls. |
| TokenRefresh.OneLiveTokenPerFamily | packages/auth/src/tokenRefresh.ts:68-99 | In every run, two live tokens of one family are the same token. |
| TokenRefresh.TokenRotatesAtMostOnce | packages/auth/src/tokenRefresh.ts:79-98 | In every run, a token is exchanged successfully at most once, however many calls present it. |
| TokenRefresh.DeadFamilyStaysDead | packages/auth/src/tokenRefresh.ts:76-103 | A family with no live token and no rotation in progress has none ever after. |
| TokenRefresh.RevokeFamilyKillsExactly | packages/auth/src/tokenRefresh.ts:101-103 | Revoking a family kills it if and only if no rotation of it is between revoke and save. |
| TokenRefresh.RevocationIsFinalExactly | packages/auth/src/tokenRefresh.ts:101-103 | After revoking a used family no continuation ever has a live token of it, if and only if no rotation of it is in progress. |
| TokenRefresh.RevocationCanBeOutrun | packages/auth/src/tokenRefresh.ts:86-103 | A run in which a revoked family ends with a live token: the revocation fell between revoke and save. |
| TokenRefresh.LiveTokenRotates | packages/auth/src/tokenRefresh.ts:68-99 | Run alone, a live token is revoked, listed if there is a blacklist, and replaced by one fresh live token of the same family and user; nothing else changes. |
| TokenRefresh.RotationHandsOver | packages/auth/src/tokenRefresh.ts:68-99 | After that rotation the new token is the family's only holder. |
| TokenRefresh.ReuseIsPunished | packages/auth/src/tokenRefresh.ts:72-83 | Presenting a revoked token revokes the whole family and fails, unless a configured blacklist answers first; then no token is touched. |
| TokenRefresh.BlacklistedTokenIsRefused | packages/auth/src/tokenRefresh.ts:72-74 | A token the blacklist knows, live or not, is refused as revoked, and nothing else changes. |
| TokenRefresh.BlacklistHitIsFinal | packages/auth/src/tokenRefresh.ts:72-74 | However other calls interleave, a call told of a hit never gets past it: resumed, it fails, and no token, claim, exchange or listing comes of it. |
| TokenRefresh.ExchangedTokensAreListed | packages/auth/src/tokenRefresh.ts:86-96 | In every run only revoked tokens are put on the blacklist, and with a blacklist every exchanged token is put on it before its successor is saved. |
| TokenRefresh.TruthfulBlacklistHidesReuse | packages/auth/src/tokenRefresh.ts:72-87 | With a truthful blacklist, presenting an exchanged token fails before the store is searched, and the family is not revoked. |
| TokenRefresh.UnknownTokenIsRefused | packages/auth/src/tokenRefresh.ts:76-77 | A token without a record is refused as unknown, unless the blacklist answers first, and nothing else changes. |
| TokenRefresh.OtherFamiliesAreSpared | packages/auth/src/tokenRefresh.ts:33-103 | No segment, reuse and revocation included, touches the live tokens or rotations of a family it is not about. |
| TokenRefresh.LoginStartsAFamily | packages/auth/src/tokenRefresh.ts:52-66 | A login stores one live record, hands out its claims, and leaves that token as the family's only holder. |
| TokenRefresh.ReuseKillsFamilyExactly | packages/auth/src/tokenRefresh.ts:79-83 | For a call that runs alone: detected reuse leaves the family without holders if and only if no rotation of it is in progress. |
| TokenRefresh.ReuseSegmentKillsExactly | packages/auth/src/tokenRefresh.ts:79-83 | The one segment that detects reuse, whatever else is in flight, revokes exactly the family, finally if and only if no rotation of it is in progress. |
| TokenRefresh.ReuseEndsTheFamilyExactly | packages/auth/src/tokenRefresh.ts:76-83 | Whatever is interleaved before and after it, a call that has found a revoked token still detects the reuse, and ends the family for ever if and only if no rotation of it is in progress at that moment. |
| TokenRefresh.RotationsAreApart | packages/auth/src/tokenRefresh.ts:79-86 | Two rotations past the revoke never have the same token. |
| TokenRefreshService.InMemoryRefreshTokenStore.Save | packages/auth/src/tokenRefresh.ts:23-25 | The record is stored under its id and shows through the store's contents; others are unchanged. |
| TokenRefreshService.InMemoryRefreshTokenStore.Find | packages/auth/src/tokenRefresh.ts:26-28 | Returns the shared record itself, or null exactly when the id is unknown. |
| TokenRefreshService.InMemoryRefreshTokenStore.Revoke | packages/auth/src/tokenRefresh.ts:29-32 | Marks exactly that record revoked, through the shared object; an unknown id changes nothing. |
| TokenRefreshService.InMemoryRefreshTokenStore.RevokeFamily | packages/auth/src/tokenRefresh.ts:33-37 | Marks exactly the family's records revoked. |
| TokenRefreshService.TokenRefreshService.Login | packages/auth/src/tokenRefresh.ts:52-65 | First segment of a login: a live record of a fresh family, seen by the step system as one login event. |
| TokenRefreshService.TokenRefreshService.Present | packages/auth/src/tokenRefresh.ts:68-76 | First segment of `rotate`, up to the first await, is one presentation event. |
| TokenRefreshService.TokenRefreshService.Resume | packages/auth/src/tokenRefresh.ts:72-99 | Each later segment of `rotate` on the shared records is one resume event of the step system. |
| TokenRefreshService.TokenRefreshService.AfterScreening | packages/auth/src/tokenRefresh.ts:72-77 | The blacklist's answer either fails the call or leads to the look-up. |
| TokenRefreshService.TokenRefreshService.AfterFind | packages/auth/src/tokenRefresh.ts:77-87 | Check of the shared record and its revocation happen in one segment. |
| TokenRefreshService.TokenRefreshService.AfterRevoke | packages/auth/src/tokenRefresh.ts:86-98 | The old id is listed if there is a blacklist, then the new record is saved and issued. |
| TokenRefreshService.TokenRefreshService.RevokeFamily | packages/auth/src/tokenRefresh.ts:101-103 | One revocation event of the step system. |
| RoleGraph.RewiringExact | packages/rbac/src/roleManager.ts:42-86 | Giving a role new parents makes the graph acyclic exactly when it was acyclic without them and no parent reaches the role. |
| RoleGraph.ClosedContainsReachable | packages/rbac/src/roleManager.ts:49-62 | A set closed under inheritance holds everything reachable from its members. |
| RoleManager.Manager.CreateRole | packages/rbac/src/roleManager.ts:15-22 | Fails exactly on a known name; otherwise adds the role with its parents unchecked. |
| RoleManager.Manager.DeleteRole | packages/rbac/src/roleManager.ts:28-30 | Removes exactly that role, leaving references to it dangling. |
| RoleManager.Manager.AddPermission | packages/rbac/src/roleManager.ts:32-35 | Adds the permission to exactly that role, or fails on an unknown one. |
| RoleManager.Manager.RemovePermission | packages/rbac/src/roleManager.ts:37-40 | Removes the permission from exactly that role, or fails on an unknown one. |
| RoleManager.Manager.SetInheritance | packages/rbac/src/roleManager.ts:42-46 | Refused exactly when the role is unknown or some proposed parent reaches it; otherwise replaces exactly its parents and leaves all permissions. |
| RoleManager.Manager.Resolve | packages/rbac/src/roleManager.ts:49-62 | With a shared `seen` set the search explores exactly what is newly reachable and returns exactly those roles' permissions. |
| RoleManager.Manager.ResolvePermissions | packages/rbac/src/roleManager.ts:49-62 | On any graph, cyclic or dangling, throws exactly when an unknown name is reachable; otherwise the union over all reachable roles. |
| RoleManager.Manager.HasPermission | packages/rbac/src/roleManager.ts:64-66 | True exactly when some reachable role has the permission. |
| RoleManager.Manager.AssertNoCycle | packages/rbac/src/roleManager.ts:78-86 | Fails only if some parent reaches the role; succeeds only with a set that proves none does. |
| RoleManager.ExploredFromNothing | packages/rbac/src/roleManager.ts:49-62 | A finished top-level search has visited exactly the reachable roles, all of them known. |
| RoleManager.ClearedFromNothing | packages/rbac/src/roleManager.ts:78-86 | A finished check has shown that no proposed parent reaches the role. |
| RoleManager.SetInheritanceExact | packages/rbac/src/roleManager.ts:42-46 | Whether the rewired graph is acyclic, decided exactly by reachability from the parents, for every graph. |
| RoleManager.SetInheritanceKeepsAcyclic | packages/rbac/src/roleManager.ts:42-46 | On an acyclic graph the result is acyclic exactly when the check passes. |
| RoleManager.CreateRoleKeepsAcyclicExactly | packages/rbac/src/roleManager.ts:15-22 | `createRole` keeps an acyclic graph acyclic exactly when no given parent reaches the new name. |
| RoleManager.CreateRoleCanCloseACycle | packages/rbac/src/roleManager.ts:15-22 | A role created as its own parent makes a cycle. |
| RoleInheritance.BuildKeepsAcyclic | packages/rbac/src/roleInheritance.ts:24-38 | However far a build gets, on any existing roles, it never leaves a cycle behind. |
| RoleInheritance.FreshBuildExact | packages/rbac/src/roleInheritance.ts:24-38 | On a fresh manager with distinct names, in any declaration order, `build` succeeds exactly when the declared graph is acyclic, and then builds exactly that graph. |
| RoleInheritance.FreshBuildDelivers | packages/rbac/src/roleInheritance.ts:24-38 | After a successful build on a fresh manager with distinct names, the roles are exactly those defined, each with exactly the permissions and parents of its definition. |
| RoleInheritance.BuildGrantsAsDefined | packages/rbac/src/roleInheritance.ts:25-30 | On any manager, refused or not, a build leaves existing roles their permissions and gives a new role exactly those of its first definition. |
| RoleInheritance.BuildWiresAsDefined | packages/rbac/src/roleInheritance.ts:31-36 | After a successful build on any manager a role has the parents last declared for it, or those it had. |
| RoleInheritance.WiringStopsAtFirstRefusal | packages/rbac/src/roleInheritance.ts:31-36 | However far the second pass gets, nothing but parents changes, and those are as declared before the first refused definition, which names an unknown role or would close a cycle. |
| RoleInheritance.BuiltRoleResolves | packages/rbac/src/roleInheritance.ts:3-12 | After such a build a role resolves to exactly the permissions listed in the definitions of the roles it reaches along the declared parents. |
| RoleInheritance.RepeatedNamesCanBeRefused | packages/rbac/src/roleInheritance.ts:24-38 | With a repeated name a build is refused although the graph it finally declares is acyclic. |
| RoleInheritance.BuildExact | packages/rbac/src/roleInheritance.ts:24-38 | On any acyclic manager, names repeated or not, `build` succeeds exactly when wiring the definitions one after another never closes a cycle, and then leaves the result of that wiring. |
| RoleInheritance.FreshFirstPass | packages/rbac/src/roleInheritance.ts:25-30 | On a fresh manager with distinct names the first pass creates every role, without parents. |
| RoleInheritance.WireOneMore | packages/rbac/src/roleInheritance.ts:31-36 | Each step of the second pass adds exactly one definition's parents. |
| RoleInheritance.ExploreLists | packages/rbac/src/roleInheritance.ts:44-52 | The depth-first search appends, each once, only what the given parents reach, and leaves listed every parent of what it appended. |
| RoleInheritance.ExploreDiscovers | packages/rbac/src/roleInheritance.ts:44-52 | Each role it appends is one of the given parents or a parent of a role appended before it. |
| RoleInheritance.ParentsInDeclaredOrder | packages/rbac/src/roleInheritance.ts:46-50 | Direct parents are listed in declared order: a later one stands before an earlier one only if a parent declared before both leads to it. |
| RoleInheritance.ChainIsAncestors | packages/rbac/src/roleInheritance.ts:42-55 | On any graph the chain is exactly the proper ancestors, each once. |
| RoleInheritance.ParentsFirstExactly | packages/rbac/src/roleInheritance.ts:41-55 | On any graph the chain lists every direct parent before any other role if and only if the search that gives up at the first step out of the direct parents has by then listed them all. |
| RoleInheritance.ScoutReadsOnlyWithin | packages/rbac/src/roleInheritance.ts:44-52 | That shorter search depends on nothing but the direct parents' own declarations. |
| RoleInheritance.ScoutHeadsExplore | packages/rbac/src/roleInheritance.ts:44-52 | Until it gives up it lists exactly what the full search lists, and what the full search lists next is not a direct parent. |
| RoleInheritance.GrandparentCanComeFirst | packages/rbac/src/roleInheritance.ts:41-55 | A hierarchy whose chain lists a grandparent before a parent. |
| RoleInheritance.GetAncestorChain | packages/rbac/src/roleInheritance.ts:42-55 | The chain in depth-first order: exactly the proper ancestors, each once, on any graph. |
| RoleInheritance.Visit | packages/rbac/src/roleInheritance.ts:44-52 | One visit of the mutable chain is the depth-first search from the role's parents. |
| RoleInheritance.PermissionsComeFromTheChain | packages/rbac/src/roleInheritance.ts:41-55 | The permissions of a role are those of itself and of its ancestor chain. |
| RoleInheritance.RoleHierarchyBuilder.Define | packages/rbac/src/roleInheritance.ts:19-22 | Appends one definition. |
| RoleInheritance.RoleHierarchyBuilder.Build | packages/rbac/src/roleInheritance.ts:24-38 | Both passes over the manager's mutable roles produce the specified graph and outcome; existing roles keep their permissions, new ones get those of their first definition. |
| RoleInheritance.RoleHierarchyBuilder.CreateAll | packages/rbac/src/roleInheritance.ts:25-30 | Creates the definitions whose names are free with exactly their permissions, leaving existing roles alone. |
| RoleInheritance.RoleHierarchyBuilder.WireAll | packages/rbac/src/roleInheritance.ts:31-36 | Wires definitions in order until one is refused, keeping what was wired before. |
| Cache.InMemoryCache.Put | packages/cache/src/cache.ts:36-51 | The store becomes the specified one: purge, make room, append. |
| Cache.InMemoryCache.Lookup | packages/cache/src/cache.ts:53-71 | Result and store after a get, including lazy expiry, recency and frequency. |
| Cache.InMemoryCache.Erase | packages/cache/src/cache.ts:77-79 | Removes exactly that key and says whether it was there. |
| Cache.InMemoryCache.Empty | packages/cache/src/cache.ts:81-83 | Nothing is left. |
| Cache.InMemoryCache.PurgeExpired | packages/cache/src/cache.ts:89-95 | The loop that deletes while iterating removes exactly the expired entries, and only under TTL. |
| Cache.InMemoryCache.EvictOne | packages/cache/src/cache.ts:97-116 | Removes exactly the policy's victim. |
| Cache.RunKeepsSound | packages/cache/src/cache.ts:36-116 | Over every run and policy, keys are unique and the size never exceeds max(maxSize, 1). |
| Cache.LruInclusion | packages/cache/src/cache.ts:36-103 | The same trace on two LRU caches: the smaller store is a subsequence of the larger in recency order, with equal entries. |
| Cache.LargerNeverMissesMore | packages/cache/src/cache.ts:53-71 | Where the smaller LRU cache hits, the larger hits with the same value. |
| CacheHistory.HitReturnsLatest | packages/cache/src/cache.ts:36-95 | Under every policy a hit returns the latest set, undeleted, unexpired value of the reference map. |
| CacheHistory.ExactWhileKeysFit | packages/cache/src/cache.ts:36-95 | While no more keys than fit have been set, every get agrees with the reference map, hits and misses. |
| CacheHistory.LruRetains | packages/cache/src/cache.ts:36-103 | An LRU key stays until at least capacity many other keys have been touched since its last touch. |
| CacheHistory.LruEvictsExactly | packages/cache/src/cache.ts:36-103 | Without expiry or deletes, it is gone exactly when that many have. |
| CacheHistory.RunIsByLastUse | packages/cache/src/cache.ts:36-71 | The store is ordered by last use (LRU) or last set (LFU, TTL). |
| CacheHistory.RunCountsHits | packages/cache/src/cache.ts:36-71 | Under LFU an entry's frequency is one more than its hits since its last set. |
| CacheHistory.VictimMeaning | packages/cache/src/cache.ts:97-116 | The victim, among what the purge before it leaves, has the fewest hits since its last set and the oldest set among equals (LFU), or the oldest use or set (LRU, TTL). |
| CacheHistory.RunAgrees | packages/cache/src/cache.ts:36-95 | Every stored entry is the reference map's entry for its key. |
| CacheHistory.GoodUntil | packages/cache/src/cache.ts:45-60 | What was just set hits up to and including now + ttl: the call's own ttl goes before the default, and a ttl of 0 or none at all never expires. |
| CacheHistory.SetDropsExactly | packages/cache/src/cache.ts:36-51 | After every run a set drops, of the other keys, exactly the expired ones (under TTL only) and, if the key is new and what is left fills the cache, one victim. |
| CacheHistory.GetDropsExactly | packages/cache/src/cache.ts:53-60 | Under every policy a get drops its own key exactly when it finds it expired, and never another. |
| RateLimiter.TokenBucketBound | packages/reliability/src/rateLimiter.ts:62-81 | For every run and interval [a, b]: admitted * windowMs <= limit * windowMs + (b - a) * limit. |
| RateLimiter.FixedWindowBound | packages/reliability/src/rateLimiter.ts:83-100 | Every half-open interval of length windowMs admits at most 2 * limit. |
| RateLimiter.SlidingLogBound | packages/reliability/src/rateLimiter.ts:102-118 | Every half-open interval of length windowMs admits at most limit. |
| RateLimiter.SlidingCounterBound | packages/reliability/src/rateLimiter.ts:120-152 | Every half-open interval of length windowMs admits at most 2 * limit. |
| RateLimiter.SlidingCounterFineBound | packages/reliability/src/rateLimiter.ts:120-152 | An interval ending with an admission at offset y admits fewer than limit + 1 + previousCount * y / windowMs. |
| RateLimiter.BucketDeniesExactly | packages/reliability/src/rateLimiter.ts:62-81 | On every run a call at t is denied if and only if, for some a <= t, one more admission would break the bound of the interval [a, t]. |
| RateLimiter.WindowDeniesExactly | packages/reliability/src/rateLimiter.ts:83-100 | On every run a call is denied if and only if the window open at that time has admitted limit calls. |
| RateLimiter.OpenedByACall | packages/reliability/src/rateLimiter.ts:86-89 | That window was opened by one of the calls, less than windowMs ago. |
| RateLimiter.LogDeniesExactly | packages/reliability/src/rateLimiter.ts:102-118 | On every run a call is denied if and only if limit calls were admitted in the windowMs up to it. |
| RateLimiter.CounterDeniesExactly | packages/reliability/src/rateLimiter.ts:120-152 | On every run a call is denied if and only if the admissions of the aligned window holding it and the weighted admissions of the window before come to limit. |
| RateLimiter.FirstCallsAdmitted | packages/reliability/src/rateLimiter.ts:62-152 | Under every algorithm a key's first limit calls are admitted, whenever they come. |
| RateLimiter.WindowCounts | packages/reliability/src/rateLimiter.ts:83-100 | The fixed window's count is the admissions since its start, at most limit. |
| RateLimiter.LogIsRecentAdmissions | packages/reliability/src/rateLimiter.ts:102-118 | The log is exactly the admissions less than windowMs old, at most limit. |
| RateLimiter.CounterInvariant | packages/reliability/src/rateLimiter.ts:120-152 | The two counts are the admissions of the current and previous aligned windows, each at most limit. |
| RateLimiter.CounterWeight | packages/reliability/src/rateLimiter.ts:140 | In every run the weight of the previous window stays above 0 and at most 1. |
| RateLimiter.RejectedPollLeavesNoTrace | packages/reliability/src/rateLimiter.ts:62-152 | For every algorithm, leaving a rejected call out of a run changes no other decision and no later state. |
| RateLimiter.RejectionForgotten | packages/reliability/src/rateLimiter.ts:62-152 | A rejected call changes no later decision or state. |
| RateLimiter.RollTwice | packages/reliability/src/rateLimiter.ts:128-138 | Rolling the counter forward in two goes is rolling it at once. |
| RateLimiter.RetryHintExact | packages/reliability/src/rateLimiter.ts:75-118 | After a rejection the next call is admitted exactly from now + retryAfterMs on (bucket, fixed window, log). |
| RateLimiter.CounterHintExact | packages/reliability/src/rateLimiter.ts:128-151 | The sliding counter's hint is right exactly when the window holding the rejected call was not yet full before it. |
| RateLimiter.CounterHintCanFail | packages/reliability/src/rateLimiter.ts:128-151 | A run where waiting the hinted time is not enough. |
| RateLimiter.RemainingExact | packages/reliability/src/rateLimiter.ts:75-118 | `remaining` is exactly the number of further calls admitted at the same instant (bucket, fixed window, log). |
| RateLimiter.CounterRemainingExact | packages/reliability/src/rateLimiter.ts:140-146 | The sliding counter's remaining counts down with each admission at the same instant; after 0 one more call is admitted exactly when the estimate has a fraction to spare, and never two. |
| RateLimiter.CounterRemainingCanFallShort | packages/reliability/src/rateLimiter.ts:140-146 | A run on which it does. |
| RateLimiter.KeysAreIndependent | packages/reliability/src/rateLimiter.ts:49-60 | However calls for different keys are interleaved, each key's state is that of its own calls alone. |
| RateLimiter.DecidedByItsKey | packages/reliability/src/rateLimiter.ts:49-60 | Each call is decided as on a limiter that serves its key only. |
| RateLimiter.Limiter.CheckKey | packages/reliability/src/rateLimiter.ts:49-60 | Decides by that key's state alone and changes only that key's state, for the algorithm in use. |
| RateLimiter.Limiter.DoTokenBucket | packages/reliability/src/rateLimiter.ts:62-81 | The mutable bucket follows the specified refill and spend, a new key's bucket starting full. |
| RateLimiter.Limiter.DoFixedWindow | packages/reliability/src/rateLimiter.ts:83-100 | The mutable window follows the specified reset and count. |
| RateLimiter.Limiter.DoSlidingWindowLog | packages/reliability/src/rateLimiter.ts:102-118 | The mutable log follows the specified filter and push. |
| RateLimiter.Limiter.DoSlidingWindowCounter | packages/reliability/src/rateLimiter.ts:120-152 | The mutable counter follows the specified roll and estimate. |
| CircuitBreaker.CountersAlwaysMatch | packages/reliability/src/circuitBreaker.ts:68-119 | On every run the window is the last rollingWindowSize outcomes since the last close or reset, and the failure count their trailing run; CLOSED means that run is below the threshold. |
| CircuitBreaker.ClosedTripsExactly | packages/reliability/src/circuitBreaker.ts:86-106 | A closed breaker trips on exactly the failures meeting the run rule or the full-window rate rule, and on no success. |
| CircuitBreaker.RateIsQuotient | packages/reliability/src/circuitBreaker.ts:95-102 | The rate rule is the quotient of failures and calls against the threshold, on a full window. |
| CircuitBreaker.RunIsSafe | packages/reliability/src/circuitBreaker.ts:43-119 | Every run with overlapping and late completions keeps the counters, respects trips and earns its closes. |
| CircuitBreaker.NoStartAfterTrip | packages/reliability/src/circuitBreaker.ts:43-66 | Without a reset in between, no call starts within resetTimeoutMs of any trip. |
| CircuitBreaker.ClosesAreEarned | packages/reliability/src/circuitBreaker.ts:73-84 | Every automatic close was preceded by a half-opening, with nothing between the two but starts and exactly successThreshold successful completions. |
| CircuitBreaker.OpenAdmitsExactly | packages/reliability/src/circuitBreaker.ts:43-56 | On every run an open breaker lets a call through exactly when resetTimeoutMs have passed since its latest trip, and otherwise starts nothing and stays open. |
| CircuitBreaker.NotOpenAdmits | packages/reliability/src/circuitBreaker.ts:52-58 | On every run a breaker that is not open starts every call. |
| CircuitBreaker.PollHalfOpensExactly | packages/reliability/src/circuitBreaker.ts:43-49 | On every run a poll half-opens an open breaker exactly from resetTimeoutMs after its latest trip on, and otherwise changes nothing. |
| CircuitBreaker.FailuresTripExactly | packages/reliability/src/circuitBreaker.ts:86-112 | On every run, in every mode, a failed completion trips exactly when the breaker is half-open or the outcomes since the last close or reset meet the run rule or the full-window rate rule; otherwise it is only recorded. |
| CircuitBreaker.HalfOpenFailureTrips | packages/reliability/src/circuitBreaker.ts:90-93 | On every run any failure while half-open opens the breaker again, from that moment. |
| CircuitBreaker.SuccessesCloseExactly | packages/reliability/src/circuitBreaker.ts:73-84 | On every run a successful completion closes the breaker exactly when it is the successThreshold-th outcome since half-opening; otherwise it is only recorded. |
| CircuitBreaker.ModeIsLogged | packages/reliability/src/circuitBreaker.ts:43-119 | On every run the mode is the latest transition in the log. |
| CircuitBreaker.ClosingIsLogged | packages/reliability/src/circuitBreaker.ts:43-119 | Whenever a step takes the breaker from another mode to CLOSED, it has logged an automatic close or a reset. |
| CircuitBreaker.ResetForgets | packages/reliability/src/circuitBreaker.ts:114-119 | After a reset, in whatever mode, the breaker takes the very steps a new one would take with the same calls in flight. |
| CircuitBreaker.CircuitBreaker.GetCurrent | packages/reliability/src/circuitBreaker.ts:43-49 | One poll of the machine; returns the resulting state. |
| CircuitBreaker.CircuitBreaker.Begin | packages/reliability/src/circuitBreaker.ts:52-56 | One admission of the machine; the call starts exactly when one more is in flight. |
| CircuitBreaker.CircuitBreaker.End | packages/reliability/src/circuitBreaker.ts:58-65 | One completion of the machine, whatever state it finds. |
| CircuitBreaker.CircuitBreaker.RecordRolling | packages/reliability/src/circuitBreaker.ts:68-71 | Keeps the last rollingWindowSize outcomes. |
| CircuitBreaker.CircuitBreaker.Succeed | packages/reliability/src/circuitBreaker.ts:73-84 | The machine's success segment. |
| CircuitBreaker.CircuitBreaker.Fail | packages/reliability/src/circuitBreaker.ts:86-106 | The machine's failure segment, which trips in HALF_OPEN whatever the counters say. |
| CircuitBreaker.CircuitBreaker.TripNow | packages/reliability/src/circuitBreaker.ts:108-112 | Opens now and forgets successes. |
| CircuitBreaker.CircuitBreaker.ForceClosed | packages/reliability/src/circuitBreaker.ts:114-119 | One reset of the machine. |
| MessageQueue.FirstAvailable | packages/messaging/src/messageQueue.ts:55 | The first message in queue order already available; every earlier one is not. |
| MessageQueue.StepKeepsInv | packages/messaging/src/messageQueue.ts:39-88 | Each operation and timer firing keeps conservation, attempt bounds and pending timers. |
| MessageQueue.EveryRunConserves | packages/messaging/src/messageQueue.ts:39-88 | In every run, stale timers included, each id is in exactly one of queue, in-flight, dead letters or acknowledged; attempts stay within maxRetries, and are maxRetries + 1 when dead. |
| MessageQueue.AttemptsAreRejections | packages/messaging/src/messageQueue.ts:76-88 | A message's attempts are the number of times it was rejected while in flight. |
| MessageQueue.DeadExactly | packages/messaging/src/messageQueue.ts:81-85 | An unacknowledged message is a dead letter exactly when rejected maxRetries + 1 times. |
| MessageQueue.AckedExactly | packages/messaging/src/messageQueue.ts:72-74 | In every run a message is done with if and only if an acknowledgement came while it was in flight; nothing else drops one. |
| MessageQueue.NeverLost | packages/messaging/src/messageQueue.ts:39-88 | In every run a known message not acknowledged in flight and rejected at most maxRetries times is queued or in flight, and not both; with more rejections it is a dead letter; once acknowledged it is nowhere. |
| MessageQueue.MessagesAreOriginal | packages/messaging/src/messageQueue.ts:39-88 | In every run each message, wherever it is, carries the payload and creation time it was enqueued with. |
| MessageQueue.QueueIsInOrder | packages/messaging/src/messageQueue.ts:39-88 | In every run the queue holds its messages in the order in which they last entered it. |
| MessageQueue.OldestAvailableFirst | packages/messaging/src/messageQueue.ts:53-59 | In every run a dequeue delivers something exactly when a message is available, and then the one longest in the queue of all those available. |
| MessageQueue.FiringReturns | packages/messaging/src/messageQueue.ts:62-67 | A timer that fires while its message is in flight puts that message, unchanged, at the end of the queue. |
| MessageQueue.LatestTimerIs | packages/messaging/src/messageQueue.ts:61-67 | In every run a message in flight has a timer due exactly visibilityTimeoutMs after its latest delivery. |
| MessageQueue.TimeoutReturns | packages/messaging/src/messageQueue.ts:61-67 | In every run, once that time has passed, that timer can fire and returns the message to the queue. |
| MessageQueue.AvailableWhenDue | packages/messaging/src/messageQueue.ts:39-88 | A queued or in-flight message is available from exactly its delay after enqueueing, or retryDelayMs * attempts after its last rejection. |
| MessageQueue.RetryDelayIs | packages/messaging/src/messageQueue.ts:86 | The retry delay is retryDelayMs times the attempts. |
| MessageQueue.NothingDeliveredEarly | packages/messaging/src/messageQueue.ts:53-70 | No message is delivered before that time. |
| MessageQueue.NoTimerNothingInFlight | packages/messaging/src/messageQueue.ts:61-67 | When no timer is pending nothing is in flight: nothing stays hidden for ever. |
| MessageQueue.HiddenExactly | packages/messaging/src/messageQueue.ts:61-67 | A delivered message is hidden for its full timeout if and only if no timer of an earlier delivery is due sooner; if one is, it can be back in the queue earlier. |
| MessageQueue.StaleTimerArises | packages/messaging/src/messageQueue.ts:61-88 | A run that leaves such a timer behind: deliver, then reject. |
| MessageQueue.StaleTimerCutsShort | packages/messaging/src/messageQueue.ts:61-67 | From any state with such a timer, a message delivered again is back in the queue before its new timeout is up. |
| MessageQueue.RedeliveryCutShort | packages/messaging/src/messageQueue.ts:53-88 | A run on which a message delivered for 30 ms at time 2 is back in the queue at time 30. |
| MessageQueueObject.MessageQueue.Enqueue | packages/messaging/src/messageQueue.ts:39-50 | A fresh message object at the end of the queue; one enqueue step. |
| MessageQueueObject.MessageQueue.FindAvailable | packages/messaging/src/messageQueue.ts:55 | Index of the first available message, or -1. |
| MessageQueueObject.MessageQueue.Dequeue | packages/messaging/src/messageQueue.ts:53-70 | One dequeue step on the shared objects; null exactly when nothing is available, and nothing is delivered before its time. |
| MessageQueueObject.MessageQueue.TakeOut | packages/messaging/src/messageQueue.ts:58-59 | The spliced message object moves into flight under its id. |
| MessageQueueObject.MessageQueue.SetAlarm | packages/messaging/src/messageQueue.ts:61-67 | A callback holding that very message object is pending. |
| MessageQueueObject.MessageQueue.Ack | packages/messaging/src/messageQueue.ts:72-74 | One acknowledgement step. |
| MessageQueueObject.MessageQueue.Nack | packages/messaging/src/messageQueue.ts:76-88 | One rejection step, updating the shared message object in place. |
| MessageQueueObject.MessageQueue.Reject | packages/messaging/src/messageQueue.ts:81-87 | Counts the attempt, then dead-letters or reschedules. |
| MessageQueueObject.MessageQueue.Fire | packages/messaging/src/messageQueue.ts:62-67 | One timer step: the captured object leaves flight and goes to the end of the queue exactly if its id is in flight. |
| Bulkhead.StepKeepsInv | packages/reliability/src/bulkhead.ts:36-64 | Each offer and completion keeps order, limits and settlement. |
| Bulkhead.RunKeepsInv | packages/reliability/src/bulkhead.ts:36-64 | Over every run: active <= maxConcurrent, queue <= maxQueue, a waiting call implies all slots in use. |
| Bulkhead.EachCallInOnePlace | packages/reliability/src/bulkhead.ts:36-64 | Each offered call is waiting, running, finished or refused, and only one of these. |
| Bulkhead.StartedExactly | packages/reliability/src/bulkhead.ts:36-64 | The calls started are the first min(accepted, finished + maxConcurrent) accepted, in order. |
| Bulkhead.RefusedExactly | packages/reliability/src/bulkhead.ts:41-43 | A call is refused exactly when the unfinished calls fill every slot and every place to wait. |
| Bulkhead.IdleMeansDone | packages/reliability/src/bulkhead.ts:60-64 | With nothing running, every accepted call has finished. |
| Bulkhead.OutcomeIsFinal | packages/reliability/src/bulkhead.ts:45-58 | A settled promise keeps its outcome. |
| Bulkhead.SettledWithOwnOutcome | packages/reliability/src/bulkhead.ts:45-63 | In every run an accepted call's promise settles exactly when that call completes, with the outcome of that very call. |
| Bulkhead.StartsAfterExactly | packages/reliability/src/bulkhead.ts:60-64 | The call at queue position k has started exactly when k + 1 further calls have completed. |
| Bulkhead.Bulkhead.Execute | packages/reliability/src/bulkhead.ts:36-48 | One offer: started, queued or refused. |
| Bulkhead.Bulkhead.RunTask | packages/reliability/src/bulkhead.ts:50-53 | Takes a slot and starts the call. |
| Bulkhead.Bulkhead.Complete | packages/reliability/src/bulkhead.ts:54-57 | One completion: frees the slot and starts the call that waited longest. |
| Bulkhead.Bulkhead.DrainQueue | packages/reliability/src/bulkhead.ts:60-64 | Starts the head of the queue if there is one and a slot is free. |
| EventSourcing.AppendKeepsWellFormed | packages/architecture/src/eventSourcing.ts:29-49 | Appending keeps every stream's versions at 1, 2, 3, ... under its own id. |
| EventSourcing.RunKeepsInv | packages/architecture/src/eventSourcing.ts:29-108 | Over every interleaving of writers each aggregate is its stream up to its version followed by its pending events. |
| EventSourcing.SavedEqualsReplay | packages/architecture/src/eventSourcing.ts:34-108 | A save that is not refused leaves the aggregate equal to the replay of its whole stream, state and version. |
| EventSourcing.FaithfulExactly | packages/architecture/src/eventSourcing.ts:75-108 | Aggregates agree with replay in every run if and only if no event's effect depends on when it occurred. |
| EventSourcing.TimeReaderDisagrees | packages/architecture/src/eventSourcing.ts:75-108 | An `apply` that reads occurredAt, and a run after which its aggregate differs from the replay. |
| EventSourcing.IgnoringTimeIsEnough | packages/architecture/src/eventSourcing.ts:72 | An `apply` that ignores occurredAt meets that condition. |
| EventSourcing.ReplayOneMore | packages/architecture/src/eventSourcing.ts:102-106 | Replaying one event more applies it and takes over its version, whatever the events. |
| EventSourcing.SaveRefusedExactly | packages/architecture/src/eventSourcing.ts:34-38 | A save is refused exactly when the stream has moved past the aggregate's version, with both versions reported and nothing changed. |
| EventSourcing.RunGrows | packages/architecture/src/eventSourcing.ts:29-49 | No run rewrites or shortens a stream. |
| EventSourcing.OneWinnerPerVersion | packages/architecture/src/eventSourcing.ts:34-38 | Once a non-empty append expecting version n succeeds, every later append expecting n is refused. |
| EventSourcing.UncheckedSaveExactly | packages/architecture/src/eventSourcing.ts:36-48 | Saving without an expected version is right if and only if nobody wrote since the aggregate was loaded. |
| EventSourcing.UncheckedSaveCanDisagree | packages/architecture/src/eventSourcing.ts:36-48 | A run in which another writer came first: the saved aggregate is at version 1, its replay at version 2. |
| EventSourcing.CommitCanLoseAnEvent | packages/architecture/src/eventSourcing.ts:75-94 | A run in which the committed aggregate is at version 2 and its replay at version 1. |
| EventSourcing.CommitAfterMoreRaised | packages/architecture/src/eventSourcing.ts:75-94 | Committing matches the stream if and only if nothing was raised between append and commit. |
| EventOrder.StableSortExactly | packages/architecture/src/eventSourcing.ts:55-57 | The sort by time is the one stable sort there is. |
| EventOrder.StreamWithinAll | packages/architecture/src/eventSourcing.ts:55-57 | Among all events, those of one stream are that stream in order if and only if its own times never go back. |
| EventOrder.StreamsInOrder | packages/architecture/src/eventSourcing.ts:29-57 | They are, in every run under a clock that does not go back. |
| EventOrder.NamesByFirstWrite | packages/architecture/src/eventSourcing.ts:27-47 | In every run the streams are listed in the order in which they were first written. |
| EventOrder.TiesByFirstWrite | packages/architecture/src/eventSourcing.ts:55-57 | In every run events of the same time are read stream by stream in that order, and within a stream in its own. |
| EventSourcingObjects.InMemoryEventStore.Append | packages/architecture/src/eventSourcing.ts:29-49 | Appends exactly the numbered events or fails with both versions and no change. |
| EventSourcingObjects.InMemoryEventStore.Number | packages/architecture/src/eventSourcing.ts:40-45 | Each event gets the stream's name, the next version and the time read for it. |
| EventSourcingObjects.InMemoryEventStore.GetStream | packages/architecture/src/eventSourcing.ts:51-53 | The stream, or nothing for an unknown id. |
| EventSourcingObjects.InMemoryEventStore.GetAllEvents | packages/architecture/src/eventSourcing.ts:55-57 | All streams' events, stably sorted by time. |
| EventSourcingObjects.Aggregate.Raise | packages/architecture/src/eventSourcing.ts:75-85 | Folds the provisional event into the state and remembers the draft. |
| EventSourcingObjects.Aggregate.MarkEventsAsCommitted | packages/architecture/src/eventSourcing.ts:91-94 | The version advances past the pending events, which are forgotten. |
| EventSourcingObjects.Aggregate.Replay | packages/architecture/src/eventSourcing.ts:97-108 | The loop gives the fold of the events and the last event's version. |
| LoadBalancer.ExpandCounts | packages/scaling/src/loadBalancer.ts:76-79 | The expanded list holds each backend exactly its weight many times. |
| LoadBalancer.ExpandInPoolOrder | packages/scaling/src/loadBalancer.ts:76-79 | The expanded list goes through the pool in order, each backend's places together. |
| LoadBalancer.WeightedExactly | packages/scaling/src/loadBalancer.ts:74-83 | In any W selections in a row, from any cursor, each backend is chosen exactly its weight many times. |
| LoadBalancer.WeightedShare | packages/scaling/src/loadBalancer.ts:74-83 | After any number of selections a backend has had its weight for every whole round, and at most its weight more. |
| LoadBalancer.RoundRobinExactly | packages/scaling/src/loadBalancer.ts:68-72 | Any n selections in a row over n backends choose each once. |
| LoadBalancer.LeastIsRoundRobin | packages/scaling/src/loadBalancer.ts:85-92 | From zero loads and without releases the n-th selection goes to n modulo the pool size; loads are as even as can be. |
| LoadBalancer.StaysWithinOne | packages/scaling/src/loadBalancer.ts:85-92 | Loads within one of each other stay so while nothing is released. |
| LoadBalancer.ReleaseUndoesExactly | packages/scaling/src/loadBalancer.ts:63-66 | Releasing what was just selected restores every load if and only if no earlier backend has the same id. |
| LoadBalancer.ReleaseExactly | packages/scaling/src/loadBalancer.ts:63-66 | A release takes one connection off the first backend of that id, if it has any, and changes no other. |
| LoadBalancer.LoadsStayNonNegative | packages/scaling/src/loadBalancer.ts:63-92 | However selections and releases alternate, no count of connections goes below zero. |
| LoadBalancer.OthersKeepOrder | packages/scaling/src/loadBalancer.ts:38-40 | The backends kept are those at exactly the positions of other ids, in ascending order of position. |
| LoadBalancer.LoadsAreOpenConnections | packages/scaling/src/loadBalancer.ts:63-92 | With distinct ids, and no backend released more often than selected, each count is the initial one plus selections less releases. |
| LoadBalancer.ReleaseCanMissItsBackend | packages/scaling/src/loadBalancer.ts:63-66 | Two backends with one id: releasing the one just selected takes the connection off the other. |
| LoadBalancer.LoadBalancer.Create | packages/scaling/src/loadBalancer.ts:28-32 | Fails exactly on an empty pool; otherwise owns fresh copies of the backends. |
| LoadBalancer.LoadBalancer.AddBackend | packages/scaling/src/loadBalancer.ts:34-36 | Appends a fresh backend. |
| LoadBalancer.LoadBalancer.RemoveBackend | packages/scaling/src/loadBalancer.ts:38-40 | Keeps exactly the backends with other ids, in order. |
| LoadBalancer.LoadBalancer.Next | packages/scaling/src/loadBalancer.ts:47-60 | Each algorithm's choice, missing choice or error, and its state change; nothing else is touched. |
| LoadBalancer.LoadBalancer.NextRoundRobin | packages/scaling/src/loadBalancer.ts:68-72 | The backend at the cursor modulo the pool size; the cursor advances. |
| LoadBalancer.LoadBalancer.NextWeighted | packages/scaling/src/loadBalancer.ts:74-83 | The backend at the cursor in the expanded cycle, nothing if all weights are zero; the cursor advances. |
| LoadBalancer.LoadBalancer.ExpandBackends | packages/scaling/src/loadBalancer.ts:76-79 | The nested loops build the expanded cycle. |
| LoadBalancer.LoadBalancer.FindLeast | packages/scaling/src/loadBalancer.ts:86-89 | The first backend with the fewest connections. |
| LoadBalancer.LoadBalancer.NextLeast | packages/scaling/src/loadBalancer.ts:85-92 | That backend gains one connection and no other changes; an error on an emptied pool. |
| LoadBalancer.LoadBalancer.ReleaseBackend | packages/scaling/src/loadBalancer.ts:63-66 | The first backend with the id loses one connection, never below zero. |

## Left out

- Express middleware, HTTP, logging, metrics, statistics getters, configuration defaults: plumbing or single-function facts.
- JWT signing and verification, uuid, MD5: replaced by the assumptions above.
- Floating-point rounding in the limiter and the breaker; sums of exact quantities are modelled instead.
- Fractional or negative weights, limits and sizes; a breaker or limiter configured with zero thresholds.
- The order of a ring's or a manager's listing (`listNodes`, `listRoles`).
- `createdAt` of refresh-token records, which nothing reads.
- `getOrSet` of the cache, `consume` and `PubSub` of messaging, `Projection` of event sourcing: each is a loop or a pair of calls over operations modelled here, and keeps no state of its own beyond a handler table.
- The `random` selection algorithm and backend host and port.
- The caller's array that `setInheritance`, `createRole` and `build` keep by reference: parents are sequence values here, so later mutation of that array by the caller is not captured.
- A cache value that is itself undefined, and `has`, which is a lookup.
- Several clock readings inside one synchronous segment: they are one reading, except in `append`, where each event has its own.
- Tasks of the bulkhead are told apart by identity and their work is not modelled, only its start and its outcome.
- Bulkhead.Bulkhead.Execute: does not return a promise; whether and how the caller's promise settles is part of the modelled state.
- Redis and Prisma layers, sagas, CQRS buses, the service registry, sessions, health checks, retries: their guarantees come from elsewhere or are single-function facts.
