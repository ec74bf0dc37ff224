# A verified model of the Particle masterserver

The masterserver is a single-process asyncio relay. Code between two awaits runs without interruption, so
the model takes every await-free region as one step and proves its properties over every finite sequence of
steps, in any order. Readings of the clocks, fresh identifiers, the outcome of a send and what other nodes
say are inputs of the steps.

Each component appears twice. A state machine on values (`Step`, `After`) carries the theorems over runs; a
class or a method with the loops and field updates of the source is proved to perform exactly those steps.

| file | what it models |
|---|---|
| `RateLimits`, `Windows`, `RateRegistry`, `RateLaw` | token buckets over real time, their sliding-window law, and the registry of buckets per session and operation with its numbers |
| `Lru`, `Admission`, `AdmissionLaw` | the admission limiter: a 4096-entry LRU of buckets in front of a global bucket, and when exactly it admits |
| `OwnBound` | the exact condition under which every client of that limiter meets its own bound |
| `ReplayTable` | the bounded, lazily pruned replay table |
| `Outbound`, `Writers` | bounded outbound queues, writer tasks and their byte accounting, and when a writer is at work |
| `RouteIndex` | the two-way session/route index with leases |
| `Hub` | the hub object, composing the three machines above |
| `Text`, `Rendezvous` | rendezvous-hash route ownership |
| `Membership`, `Majority` | quorum membership with suspicion timers, ageing views and epochs, and who decides that a node is alive |
| `MeshRun` | runs of several mesh nodes that exchange NODE_STATE messages |
| `Registry`, `RegistryLaw` | the descriptor registry, session bindings and the descriptor cache, and when each takes an entry and how long it stays |
| `Acks`, `AckTruth` | many nodes forwarding signals over a network that drops, delays and repeats, and what their answers tell |
| `Discovery` | who is told and asked, what discovery returns across its await, and where registration and discovery meet |
| `MeshLoops`, `NodeMesh` | the mesh node object and its loops |
| `MeshServer` | a mesh node with its hub, performing the steps of `Acks` |
| `Sessions`, `SessionLaw`, `SessionHandlers` | HELLO/PROVE and the v2 signal checks of both endpoints, and when exactly each is accepted |
| `Flood`, `V1Relay` | ttl and dedupe of the v1 relay, and its handler on the hub |
| `Json`, `Utf8`, `Canonical` | JSON text (RFC 8259), UTF-8, and the canonical form that is signed and hashed |
| `Grammar`, `Reading`, `Readable`, `CanonicalForm` | the grammar of JSON as a relation, the reader that takes exactly it, and the canonical form in its terms |
| `StrictJson`, `StrictLaw` | the nesting scanner, the tree walk and `loads_strict`, and what it takes |
| `Names`, `Collections`, `Numbers`, `Decimal` | identifiers, sizes of sets and maps, least and greatest, decimal digits |

SHA-256, signature verification, grant checks and curve checks are arbitrary functions; no property needs
them to be injective. Times, rates and tokens are real numbers. Wall-clock seconds are truncated as the
source truncates them.

Where the code does less than one might expect, the model says exactly how much:

- `Registry.TwoNodesForOneSession` is a run in which one session is registered from two nodes, because
  app/node_mesh.py:238-241 and 538-541 drop a binding while registrations may remain.
  `Registry.BoundIffNeverDropped` says that a session is registered only from the node it is bound to if and
  only if that never happens, and `Registry.OneNodeIffNoSecond` that a second node appears if and only if a
  registration is accepted while another node registers the session.
- `Registry.CurrentThroughoutLeaseIff` gives the exact clock tolerance of the currency check. In whole seconds
  (`Registry.CurrentInWholeSecondsIff`) truncation costs one second on one side: a peer may be the skew
  behind, but only skew - 1 seconds ahead.
- `Discovery.DroppedFindIsReturned` is a call of `discover` that returns a descriptor which another task
  dropped from the cache while the owners were asked. `Discovery.LocalFindIsStillCachedIff` says when that
  happens, and `Discovery.DiscoveredWasVouched` what always holds.
- A client of the admission limiter can exceed its own burst, because an evicted client comes back with a full
  bucket (app/v2.py:54-55). `OwnBound.OwnBoundIff` says exactly when that can happen; for the settings that
  the configuration allows (`OwnBound.OwnBoundForWholeBurstsIff`) it cannot if and only if at most 4096
  distinct clients call, or the global limiter is no looser than a client's own in burst and rate.
  `Admission.ClientBoundWithEvictions` bounds it by one more burst per eviction.
- `Flood.NullTtlEchoesForever` shows that an explicit null ttl is never counted down;
  `Flood.BoundedIffNotNull` says that this is the only case in which echo chains are unbounded.
- `RouteIndex.PruneFailsExpiredRenewals` and `RouteIndex.PruneChangesAttachIff` say exactly where pruning
  leases can be noticed; reading subscribers cannot notice it.

Check it with `dafny verify dfyconfig.toml`.

## Model

| member | source | states |
|---|---|---|
| RateLimits.AcceptedIffEveryWindowFits | app/rate_limits.py:24-35 | over any run with nondecreasing time, an attempt is accepted if and only if accepting it keeps consumption within capacity + rate x length for every window opening at creation or at an earlier attempt |
| RateLimits.NoWindowOverAdmits | app/rate_limits.py:24-35 | every stretch of attempts inside any closed time interval consumes at most capacity + rate x length |
| RateLimits.LevelIsLeastRoom | app/rate_limits.py:24-28 | the level of a bucket at any time is the least room left over all windows |
| Windows.PaysIffWindowsFit | app/rate_limits.py:13-35 | a bucket that went through any ordered attempts pays for one more if and only if what was spent in every window, and this cost, stay within burst + rate x length, written out |
| RateLimits.TokenBucket.Refill | app/rate_limits.py:24-28 | the object's new state is the refilled bucket |
| RateLimits.TokenBucket.TryConsume | app/rate_limits.py:30-35 | answers whether the refilled bucket can pay, and pays exactly then |
| RateRegistry.BucketsAreIndependent | app/rate_limits.py:44-70 | whatever other sessions and operations do, a key's bucket is the one its own checks since the last drop would have produced alone |
| RateRegistry.RateLimiterRegistry.Check | app/rate_limits.py:59-66 | creates the bucket at first use with its operation's defaults, charges it, changes no other bucket |
| RateRegistry.RateLimiterRegistry.DropSession | app/rate_limits.py:68-70 | removes all buckets of the session and no other |
| RateLaw.CheckPassesIff | app/rate_limits.py:44-66 | whatever else was checked or dropped, a check passes if and only if every window since the session was last dropped fits, with the burst and rate of its operation in numbers |
| RateLaw.PassesAreBounded | app/rate_limits.py:44-66 | so what passes between two instants is at most that burst plus that rate x the time between |
| Lru.KeptIffRecentlyUsed | app/v2.py:47-55 | an entry is kept if and only if its client called and fewer than the capacity many distinct other clients called since; entries stand in order of last call |
| Admission.TrackedIffRecentlyUsed | app/v2.py:47-55 | the same for the limiter with 4096 entries, after any call sequence; every entry has its bucket |
| AdmissionLaw.AllowedIffBothFit | app/v2.py:46-58 | over any run, a call is admitted if and only if it fits every window of its client since the client's last eviction, and every window of the global bucket over the calls that fitted their own client's windows |
| Admission.GlobalBound | app/v2.py:46-58 | accepted calls in any window are within the global burst + rate x length |
| Admission.ClientBoundWithEvictions | app/v2.py:46-58 | accepted calls of one client in any window are within (1 + its evictions in the window) x burst + rate x length |
| OwnBound.OwnBoundIff | app/v2.py:34-58 | over all runs of calls by a given set of clients: every client meets its own burst + rate x length in every window, if and only if at most 4096 clients call, or a burst below one admits nobody, or the global limiter's rate is no higher and it does not pay out one token more than the client's burst any sooner than the client's own bucket would |
| OwnBound.OwnBoundForWholeBurstsIff | app/config.py:174-178 | with whole bursts of at least one and positive rates, as the configuration demands: if and only if at most 4096 clients call, or neither the global burst nor the global rate exceeds the client's |
| OwnBound.OwnBoundAtDefaultsIff | app/config.py:68-71 | with the default bursts and rates: if and only if at most 4096 clients call |
| Admission.AdmissionLimiter.Allow | app/v2.py:46-58 | the object's answer and new state are those of the specified call: own bucket first, global bucket only when the own one pays |
| Admission.Reinsert | app/v2.py:48-55 | pop, reinsert as newest and evict from the front leave exactly the trimmed order and the buckets in it |
| Admission.DropOldest | app/v2.py:54-55 | the eviction loop keeps exactly the newest 4096 entries |
| ReplayTable.AcceptsIffNotLiveAndRoom | app/hub.py:249-267 | against an unbounded log of accepted keys: a check accepts if and only if the key is not live and fewer than the capacity many keys are live, however often the table was pruned; the table never exceeds its capacity |
| ReplayTable.RejectedOnlyWhenFull | app/hub.py:254-258 | a key that is not live is rejected only when exactly the capacity many keys are live |
| ReplayTable.RefinesAt | app/hub.py:249-267 | after any history the table holds every live key and nothing but last expiries |
| ReplayTable.AcceptsAreSpaced | app/hub.py:249-260 | two accepted checks of one key lie at least the first one's time to live apart |
| ReplayTable.MarkStaysUntilExpiry | app/hub.py:249-267 | an accepted mark decides until it expires, whatever happens in between |
| Outbound.Conservation | app/hub.py:74-88 | over all interleavings: a session's count is its queued plus in-flight bytes and within budget, accepted frames = processed ++ in flight ++ queue in order, the global counter is the sum over live sessions and at most the session limit x budget |
| Outbound.ClampsNeverFire | app/hub.py:147-153 | in every state that keeps the accounts, none of the max(0, ...) clamps changes a value |
| Outbound.StepKeeps | app/hub.py:116-157 | every event - connect, send, take, finish with or without success, remove - keeps the accounts |
| Writers.WriterIsAtWork | app/hub.py:135-157 | over all interleavings, the writer of a live session has ended if and only if its last send failed and no frame was accepted since; otherwise, with frames queued and none being sent, it waits and takes the oldest one next |
| Writers.SendAcceptsIff | app/hub.py:116-139 | in any run a frame is accepted, at the tail, if and only if its session is live, the queue has a place and the frame fits the budget next to what is queued and in flight; otherwise nothing changes |
| Writers.NoWriterWaitsForTheGone | app/hub.py:74-88 | in any run no writer of a removed session waits for a frame |
| Writers.RemovalIs | app/hub.py:74-88 | in any run a removal takes the session out with the bytes it held and touches no other; a send in flight goes on, and its end changes no account |
| RouteIndex.SubscribersAreRunningLeases | app/hub.py:161-230 | route_subscribers is exactly the sessions whose last successful attach or renewal was not followed by detach or removal and is unexpired; routes and per-session sets mirror each other with no empty route |
| RouteIndex.StepKeepsMirror | app/hub.py:161-230 | every event keeps both sides of the index mirrored |
| RouteIndex.PruneFailsExpiredRenewals | app/hub.py:181-187 | pruning changes the answer of a renewal if and only if the lease is still indexed and has run out |
| RouteIndex.PruneChangesAttachIff | app/hub.py:172-174 | in any state, pruning turns a refused attach into an accepted one, or an accepted one into a refused one, exactly under the stated counts of running leases |
| RouteIndex.HeldWithinLimit | app/hub.py:172-174 | in every run a session holds at most as many routes as the limit it attaches under |
| RouteIndex.PruneFreesRoutePlaces | app/hub.py:172-174 | so in every run pruning changes the answer of an attach exactly when the route is new, the session is full and dropping what has run out makes room, and then only from refused to accepted |
| HubModel.Hub.AdmitSession | app/v2.py:194-197 | a session is created if and only if fewer than max_concurrency exist; the queues and the index step accordingly |
| HubModel.Hub.TouchHeartbeat | app/hub.py:90-93 | writes the heartbeat of a present session and nothing else |
| HubModel.Hub.CheckRate | app/rate_limits.py:59-66 | charges the bucket of the session and operation, and answers whether it could pay |
| HubModel.Hub.RemoveSession | app/hub.py:74-88 | performs exactly the Remove step of the queues, the Close step of the index and the drop of the session's rate limits, or nothing for an unknown session |
| HubModel.Hub.PruneStaleSessions | app/hub.py:232-245 | removes exactly the sessions whose heartbeat is too old, each by the steps of a removal, and with them exactly their leases |
| HubModel.Hub.SendSession | app/hub.py:116-139 | accepts if and only if the frame fits the session's frame and byte budget; performs exactly the Send step |
| HubModel.Hub.WriterTake | app/hub.py:141-146 | takes the oldest frame of a live session with a waiting writer; performs exactly the Take step |
| HubModel.Hub.WriterFinish | app/hub.py:146-157 | performs exactly the Finish step, and gives back the frame's full size when the session is live |
| HubModel.Hub.AttachRoute | app/hub.py:161-179 | attaches if and only if the session exists and holds the route or has room; performs exactly the Attach step |
| HubModel.Hub.HeartbeatRoute | app/hub.py:181-187 | renews if and only if the lease is indexed |
| HubModel.Hub.DetachRoute | app/hub.py:189-199 | performs exactly the Detach step |
| HubModel.Hub.RouteSubscribers | app/hub.py:201-206 | returns each running lease's session once, without the excluded one |
| HubModel.Hub.PruneRoutes | app/hub.py:216-230 | performs exactly the Prune step, and counts the leases that had run out |
| HubModel.Hub.CheckAndMarkSeen | app/hub.py:249-260 | answer and new table are those of the specified check |
| HubModel.Hub.PruneDedupe | app/hub.py:262-267 | leaves exactly the unexpired marks and counts the others |
| HubModel.ExpireRoute | app/hub.py:221-227 | the inner prune loop drops exactly the expired entries from the route and from their sessions |
| HubModel.DetachAll | app/hub.py:84-85 | the detach loop drops the session from all its routes and drops routes that become empty |
| Rendezvous.RankedIsInOrder | app/node_mesh.py:147-155 | the two sorts rank every member once, by descending digest and then ascending id |
| Rendezvous.OwnersAreTop | app/node_mesh.py:147-155 | the owners are min(max(1, replicas), members) many, best first by descending digest and then ascending id, and each ranks before every member that is no owner |
| Rendezvous.OwnerOverlap | app/node_mesh.py:147-155 | for any hash and any two member sets, the owner lists share min(size less own owners missing on the other side) nodes, and share any if and only if both sides miss fewer than all |
| Rendezvous.RemovalMovesAtMostOne | app/node_mesh.py:147-155 | removing a non-owner leaves the list; removing an owner keeps the others in order and appends at most one |
| Membership.StaysInside | app/node_mesh.py:629-661 | in every run the membership stays inside the universe and holds the local node |
| Majority.MajorityDecides | app/node_mesh.py:629-661 | in any run a reconcile finds quorum if and only if a majority of the universe reports; then a node that a majority shows - the node itself by its connections, a peer by its last accepted NODE_STATE within stale_after - is a member and unmarked, and any other is marked, and stays a member exactly while its mark is younger than suspicion_seconds |
| Majority.RemovalNeedsMajority | app/node_mesh.py:647-661 | a node leaves only in a reconcile to which a majority reports, at least suspicion_seconds after the step that marked it, with no majority showing it at any such reconcile since; never the local node |
| Membership.NoQuorumOnBothSides | app/node_mesh.py:629-646 | once nothing crossed a cut for longer than stale_after, reconciles on its two sides cannot both find quorum |
| Membership.AtMostOneSideMoves | app/node_mesh.py:629-661 | so at most one side changes its membership from then on |
| Membership.ConvergesToComponent | app/node_mesh.py:629-661 | from any reachable state, healthy reconciles of a quorate component that span suspicion_seconds leave the membership exactly the component, and it stays so |
| Membership.ComponentAgrees | app/node_mesh.py:147-155 | all settled nodes of the component compute the same owner list for every route tag |
| MeshRun.MeshConverges | app/node_mesh.py:616-661 | over runs of several nodes: where a majority of at most eight nodes stay connected to exactly each other, their membership loops come round within a period and their NODE_STATE messages arrive within a delay, together no longer than stale_after, then stale_after + suspicion_seconds + two periods later, whatever happened before and whatever others do, every one of them has exactly the majority as its membership and the same owners for every tag |
| MeshRun.MeshConvergesAtLoopInterval | app/node_mesh.py:619-627 | so with the loop's own interval, for every suspicion time, if its work and the messages take at most two seconds together |
| Registry.RegistryInvariant | app/node_mesh.py:460-515 | in every run: the count is the sum of route sizes and within the cap, no route is empty, keys match descriptors, every cached session is bound to its descriptor's node |
| Registry.BindingsDoNotMove | app/node_mesh.py:460-515 | a binding moves to another node only after a step that dropped it because the cached descriptor had expired, or by stop |
| Registry.TwoNodesForOneSession | app/node_mesh.py:536-549 | a run after which one session is registered from two nodes |
| Registry.BoundIffNeverDropped | app/node_mesh.py:460-549 | all along a run a session is registered only from the node it is bound to, if and only if no step drops its binding while a registration remains |
| Registry.SecondNodeStep | app/node_mesh.py:472-492 | a step makes a second node register a session if and only if it accepts a registration while another node registers it |
| Registry.OneNodeIffNoSecond | app/node_mesh.py:460-549 | all along a run at most one node registers a session, if and only if no such registration is accepted |
| Registry.FreshDescriptorIsCurrent | app/node_mesh.py:589-595 | a descriptor is current for a peer at most skew - 1 seconds off that gets it within a lease |
| Registry.CurrentThroughoutLeaseIff | app/node_mesh.py:589-595 | every descriptor is current throughout its lease if and only if the peer's clock is off by at least lease - floor(lease + skew) and at most ceiling(skew) - 1 seconds |
| Registry.CurrentInWholeSecondsIff | app/node_mesh.py:589-595 | with lease and skew in whole seconds: at most the skew behind and at most skew - 1 ahead |
| Registry.LastWrite | app/node_mesh.py:472-492 | every entry was last written by an accepted registration of exactly that descriptor |
| Registry.HeldAfterPruneIsRecent | app/node_mesh.py:536-549 | after a prune nothing held was last written lease + skew + 1 or more seconds ago |
| RegistryLaw.RegistrationAcceptedIff | app/node_mesh.py:472-494 | in any run a registration is accepted if and only if the descriptor expires within the lease and the skew, claims no local session for another node, contradicts no binding, and renews an entry or finds fewer than the cap; then exactly that entry and that binding change, otherwise nothing |
| RegistryLaw.DescriptorCachedIff | app/node_mesh.py:597-614 | the same for the descriptor cache |
| RegistryLaw.EntryStaysIff | app/node_mesh.py:496-549 | as long as its key is not registered anew, an entry is held until a withdrawal, a prune from its expiry on, a rebalance that finds the route not owned or the node not connected, or a stop |
| RegistryLaw.CachedStaysIff | app/node_mesh.py:536-541 | a cached descriptor stays until a lookup or a prune from its expiry on, or a stop, and then its session is unbound too |
| Acks.TrueMeansDelivered | app/node_mesh.py:205-233 | whenever forward_signal has answered true, an earlier step delivered exactly that call's envelope on the node it was addressed to |
| AckTruth.AnswerTellsWhatHappened | app/node_mesh.py:205-233 | a call that is handled, whose ack arrives while it waits, and that then resumes answers true if the addressed node's queue took the envelope for a current subscriber, and false if not |
| Acks.DeliveryIsQueued | app/node_mesh.py:412-430 | a delivery performs the Send step of exactly that envelope's frame: the queue of its target, a subscriber of the route at that moment, accepts it |
| Acks.HubsKeepAccounts | app/node_mesh.py:424-430 | on every node of every run the queues keep their accounts and the route index stays mirrored |
| Acks.DeliveredOncePerWindow | app/node_mesh.py:325-330 | however often packets are repeated, two deliveries of one call lie at least the dedupe window apart |
| Acks.PendingIsBounded | app/node_mesh.py:517-534 | on every node queries plus acks pending never exceed the ceiling |
| MeshLoops.CollectReports | app/node_mesh.py:634-641 | the loop leaves exactly the fresh views and collects exactly the reports |
| MeshLoops.CountVotes | app/node_mesh.py:650-650 | counts the reporters that see the candidate |
| MeshLoops.JudgeCandidates | app/node_mesh.py:647-657 | the loop over candidates computes the members and marks of the specified reconciliation |
| MeshLoops.OwnersFor | app/node_mesh.py:147-155 | sorting by repeated choice of the least id and ranking gives the specified owners |
| MeshLoops.PruneRoutes | app/node_mesh.py:542-549 | the nested loops leave exactly the unexpired entries and no empty route; the count goes down by what was dropped |
| MeshLoops.DropUnowned | app/node_mesh.py:500-510 | drops exactly the routes not owned and the entries of inactive nodes; the count goes down by what was dropped |
| MeshLoops.ForgetExpired | app/node_mesh.py:538-541 | drops exactly the expired cache entries and the bindings of their sessions |
| MeshLoops.FindSession | app/node_mesh.py:242-246 | finds a registered descriptor of the session if and only if there is one |
| NodeMeshModel.NodeMesh.ClaimConnection | app/node_mesh.py:343-350 | a peer keeps its first connection; the membership state steps accordingly |
| NodeMeshModel.NodeMesh.LoseConnection | app/node_mesh.py:333-338 | only the current connection is dropped, and marks the peer unless it is marked |
| NodeMeshModel.NodeMesh.ReconcileMembership | app/node_mesh.py:629-661 | the object performs exactly one reconciliation |
| NodeMeshModel.NodeMesh.HandleNodeState | app/node_mesh.py:438-456 | a NODE_STATE is taken if and only if all its guards hold, and then heard and reconciled |
| NodeMeshModel.NodeMesh.OwnersFor | app/node_mesh.py:147-155 | returns the owners under the current membership |
| NodeMeshModel.NodeMesh.DropStaleOwnership | app/node_mesh.py:499-510 | performs exactly the rebalance step for the owned routes and active nodes |
| NodeMeshModel.NodeMesh.ApplyRouteMessage | app/node_mesh.py:460-494 | performs exactly the register or withdraw step |
| NodeMeshModel.NodeMesh.HandleRouteMessage | app/node_mesh.py:378-388 | only owners take a message, only from the node it names, only if current |
| NodeMeshModel.NodeMesh.Replicate | app/node_mesh.py:168-181 | applies once locally if this node owns the route, and sends to exactly the other connected owners in rank order |
| NodeMeshModel.NodeMesh.PruneRoutes | app/node_mesh.py:536-549 | performs exactly the prune step |
| NodeMeshModel.NodeMesh.CacheDescriptor | app/node_mesh.py:597-614 | caches if and only if the descriptor is current, not refused and there is room |
| NodeMeshModel.NodeMesh.RemoteDescriptor | app/node_mesh.py:235-246 | returns the cached descriptor while it is unexpired, otherwise drops it with its binding and finds a registered one if there is any |
| NodeMeshModel.NodeMesh.Collect | app/node_mesh.py:198-202 | offers descriptors one by one and returns those the cache took |
| NodeMeshModel.NodeMesh.DiscoverLocal | app/node_mesh.py:184-188 | prunes, then offers every entry of the route once |
| NodeMeshModel.NodeMesh.QueryTargets | app/node_mesh.py:189-195 | asks exactly the other connected owners, in rank order |
| NodeMeshModel.NodeMesh.DiscoverRemote | app/node_mesh.py:197-203 | offers the descriptors of all replies one by one, on top of the local finds |
| Discovery.SendsAre | app/node_mesh.py:168-195 | whoever is told or asked is an owner, connected and not the node itself, and every such owner is |
| Discovery.SendsAreInRankOrder | app/node_mesh.py:168-195 | in rank order, and so each once |
| Discovery.BatchIsVouched | app/node_mesh.py:597-614 | after an await-free batch, what is returned for a session is cached exactly so, bound to its node, current and not another node's claim to a local session, or was found before; a descriptor's session is left out only if the cache refuses that descriptor to the end |
| Discovery.DiscoveredWasVouched | app/node_mesh.py:183-203 | whatever discover returns is so when it returns, or is a local find that was so when the local batch ran |
| Discovery.StillCachedIff | app/node_mesh.py:235-246 | whatever other tasks do, a cached descriptor is cached afterwards if and only if nothing took it out since the start or since it was cached anew |
| Discovery.LocalFindIsStillCachedIff | app/node_mesh.py:196-203 | so for a local find between the local batch and the return of discover |
| Discovery.DroppedFindIsReturned | app/node_mesh.py:196-203 | a call that returns a descriptor which is neither cached nor current any more |
| Discovery.RegistrationIsDiscovered | app/node_mesh.py:163-203 | if the two sides' memberships miss so few of each other's owners that more owners are shared than fail to serve - connected, taking and keeping the registration, answering uncut within the lease - then discover returns the session unless the asker's cache refuses that descriptor; the shared owner may be the registrar or the asker |
| Discovery.MeetAtAsker | app/node_mesh.py:184-188 | where the asker itself is a serving shared owner, the descriptor is offered in the local batch |
| Discovery.MeetAtOwner | app/node_mesh.py:189-203 | where another serving shared owner is asked, the descriptor is among the usable replies |
| NodeMeshModel.NodeMesh.AnswerQuery | app/node_mesh.py:389-399 | answers distinct unexpired entries, all of them or max_fanout |
| NodeMeshModel.NodeMesh.BeginForward | app/node_mesh.py:205-217 | goes to the bound, remote, connected node if the ceiling allows, and then awaits one more ack |
| NodeMeshModel.NodeMesh.HandleAck | app/node_mesh.py:434-437 | only the first ack of a pending request counts |
| NodeMeshModel.NodeMesh.EndForward | app/node_mesh.py:224-233 | answers true only for a sent request with a true ack in time; the request is no longer pending |
| NodeMeshModel.NodeMesh.BeginQuery | app/node_mesh.py:517-523 | starts if and only if the ceiling allows |
| NodeMeshModel.NodeMesh.HandleRouteResult | app/node_mesh.py:400-407 | stores the well-formed, current descriptors among the first max_fanout |
| NodeMeshModel.NodeMesh.EndQuery | app/node_mesh.py:524-534 | returns what was stored, or nothing; the query is no longer pending |
| NodeMeshModel.NodeMesh.Stop | app/node_mesh.py:129-142 | everything is forgotten and everyone counts as a member |
| MeshServer.Server.Receive | app/node_mesh.py:325-330 | the replay check and the handling of SIGNAL_FORWARD and ACK perform exactly the receipt of the machine in Acks, and give its reply |
| MeshServer.Server.HandleSignalForward | app/node_mesh.py:408-433 | delivered if and only if the envelope is a valid signal for the route and target, the target is among the subscribers and its frame fits; then exactly that frame is sent |
| MeshServer.Server.StartForward | app/node_mesh.py:205-217 | awaits one more ack if and only if the target is bound to a connected remote node and the ceiling allows |
| MeshServer.Server.FinishForward | app/node_mesh.py:224-233 | pops the pending ack and answers true only for a true ack in time |
| MeshServer.Server.StartQuery | app/node_mesh.py:517-523 | starts one more query if and only if the ceiling allows |
| MeshServer.Server.FinishQuery | app/node_mesh.py:524-534 | ends the query |
| MeshServer.Server.CheckAndMark | app/hub.py:249-260 | any other check of the replay table extends its history by that check, and answers as the history says |
| MeshServer.Server.PruneDedupe | app/hub.py:262-267 | a pruning extends the history by a prune |
| MeshServer.Server.AdmitSession | app/v2.py:194-197 | performs the Connect event of the queues and, if admitted, the Open event of the index on this node |
| MeshServer.Server.RemoveSession | app/hub.py:74-88 | performs the Remove and the Close event on this node |
| MeshServer.Server.PruneStaleSessions | app/hub.py:232-245 | performs the Remove and the Close event of each stale session, in some order, on this node |
| MeshServer.Server.SendSession | app/hub.py:116-139 | a frame for a local session performs the Send event on this node |
| MeshServer.Server.WriterTake | app/hub.py:141-146 | performs the Take event on this node |
| MeshServer.Server.WriterFinish | app/hub.py:146-157 | performs the Finish event on this node |
| MeshServer.Server.AttachRoute | app/hub.py:161-179 | performs the Attach event on this node |
| MeshServer.Server.HeartbeatRoute | app/hub.py:181-187 | performs the Renew event on this node |
| MeshServer.Server.DetachRoute | app/hub.py:189-199 | performs the Detach event on this node |
| MeshServer.Server.PruneRoutes | app/hub.py:216-230 | performs the Prune event on this node |
| Sessions.ProgressIsPermanent | app/v2.py:290-348 | along every run proven never reverts, the keys of a greeted session never change, the last sequence number never drops, and a session id never comes back |
| Sessions.OneHelloPerSession | app/v2.py:296-299 | at most one HELLO of a session is ever accepted, on either endpoint |
| Sessions.V2KeyWasAdmitted | app/v2.py:296-312 | the key of a greeted or proven v2 session is the one whose grant verified at its only accepted HELLO |
| Sessions.ProvenWasVerified | app/v2.py:325-340 | a proven session sent a signature that verified under its key against the challenge of its accepted HELLO |
| Sessions.AtMostThreeProofs | app/v2.py:329-338 | at most three proof signatures are ever checked per session |
| Sessions.AcceptedSignalsCarryTheAdmittedKey | app/v2.py:418-458 | an accepted signal names and is signed with the key admitted at the session's HELLO |
| Sessions.SequencesIncrease | app/v2.py:450-458 | the sequence numbers of a session's accepted signals strictly increase |
| Sessions.VerifiedSignalIsAcceptedIff | app/v2.py:450-458 | a verified signal is accepted if and only if its number is greater than all accepted before and the replay table has or can make room: the table alone never rejects a new number unless it is full |
| Sessions.ReplayKeysAreInjective | app/v2.py:450-450 | a replay key determines session, message id and sequence number |
| SessionLaw.HelloIsChallengedIff | app/v2.py:296-312 | a HELLO is answered with a challenge if and only if it is the session's first and, on the v2 endpoint, both keys are points and the grant admits the identity key |
| SessionLaw.ProofIsAcceptedIff | app/v2.py:325-340 | a proof is accepted if and only if the session is unproven, fewer than three attempts were spent, and it verifies under the key and the challenge of the session's HELLO |
| SessionLaw.SignalIsAcceptedIff | app/v2.py:418-458 | a signal is accepted if and only if its session is proven and attached, it names that session and key, it expires between 5 seconds ago and 300 from now, both buckets hold a token - 40 that refill at 20 a second for the session -, it verifies, its number is new and the replay table has room |
| SessionLaw.SignalCharges | app/v2.py:432-440 | a signal that is bound to its session and the present pays from the session's bucket and, if it could, from the global one, before its signature is looked at; nothing else changes but the last number of an accepted one |
| SessionHandlers.SessionTable.HandleHello | app/v2.py:296-312 | the handler's writes and answer are those of the specified step |
| SessionHandlers.SessionTable.HandleHelloV1 | app/routes.py:170-180 | the same on the v1 endpoint |
| SessionHandlers.SessionTable.HandleProve | app/v2.py:325-340 | the same for PROVE, with the rate limit charged before the signature is checked |
| SessionHandlers.SessionTable.HandleSignal | app/v2.py:418-458 | the same for SIGNAL, with both limits charged before the signature is checked |
| Flood.RelaysAreSpaced | app/routes.py:274-276 | one message, its members in any order, is relayed at most once per dedupe window |
| Flood.SameKey | app/routes.py:274-274 | the dedupe key does not depend on the order of members |
| Flood.SameHashedBytesIff | app/routes.py:274-274 | two messages have the same hashed bytes if and only if they have the same type and the same payload up to the order of members |
| Flood.TtlsStayBelow | app/routes.py:278-283 | when clients post a body with ttl T - max_hops where none is given - and echo what they receive, every message of the body counts as a ttl of at most T |
| Flood.OneRelayPerTtl | app/routes.py:274-283 | such a body is relayed at most once per ttl value and dedupe window |
| Flood.FloodBound | app/routes.py:258-285 | so within any window it is relayed at most T times and delivered at most T x max_fanout times |
| Flood.ChainsAreShort | app/routes.py:278-283 | every echo chain that starts with ttl T has at most T relays |
| Flood.CountsDownIffNotNull | app/routes.py:278-283 | a relay counts the ttl down if and only if it is not an explicit null |
| Flood.BoundedIffNotNull | app/routes.py:278-283 | the length of echo chains is bounded if and only if the ttl is not an explicit null; the bound is the ttl, or max_hops where none is given |
| Flood.NullTtlEchoesForever | app/routes.py:278-283 | a run in which one message with a null ttl is echoed and relayed any number of times |
| V1Relay.HandleRouteMessage | app/routes.py:258-285 | charges FORWARD or SIGNAL; marks the message exactly when it is within the rate and names an attached route, relays it if and only if it was unseen and has hops left, and then offers to distinct subscribers, all of them or max_fanout, a frame in which a receiver reads the same members and a payload with one hop less - ttl or max_hops counted down, null left alone - and whose size is that of its text in UTF-8 |
| V1Relay.OfferedToEach | app/routes.py:281-284 | the frame goes once to the tail of every live target that has room, and nothing else in the queues changes |
| Decimal.DigitsRoundTrip | app/canonical.py:18-19 | the decimal digits of a number denote it |
| Json.DecodeUndoesPrint | app/canonical.py:18-19 | json.loads gives back every value of the domain that json.dumps printed |
| Json.ValueRoundTrip | app/strict_json.py:52-52 | a printed value is read back in front of whatever follows it |
| Json.StringRoundTrip | app/canonical.py:18-19 | strings full of quotes, backslashes and control characters are read back |
| Utf8.DecodeIffEncode | app/strict_json.py:25-33 | strict UTF-8 decoding takes exactly the encodings of texts |
| Readable.DecodeIffDerives | app/strict_json.py:52-52 | json.loads takes a text for a value if and only if the text, but for white space around it, denotes that value by the grammar of RFC 8259, no key coming twice |
| CanonicalForm.PrintIff | app/canonical.py:18-19 | json.dumps writes the compact text of a value - no white space, only the escapes that are needed, short ones first - and there is no other one |
| Text.LessIff | app/canonical.py:18-19 | keys are ordered by the code point at the first place where they differ, a proper prefix first |
| CanonicalForm.CanonicalTextIff | app/canonical.py:18-19 | a text is the canonical text of a value if and only if it is the compact text of the same value with the members of every object in that order |
| CanonicalForm.CanonicalBytesIff | app/canonical.py:18-19 | the canonical bytes are exactly the UTF-8 of that text |
| Canonical.SameBytesIffSameValue | app/canonical.py:18-19 | two values have the same canonical bytes if and only if they are the same value up to the order of object members |
| Canonical.SameAsNormal | app/canonical.py:18-19 | sorting keys at every level does not change the value |
| StrictJson.CheckNesting | app/strict_json.py:61-85 | the loop with its depth and string flags computes the scan |
| StrictJson.NestingIsExact | app/strict_json.py:61-85 | on every text that the reader takes - json.loads but for lone surrogate escapes - the scan passes if and only if the value's nesting depth is at most the maximum |
| StrictJson.UniqueObject | app/strict_json.py:43-49 | builds the dictionary if and only if no key comes twice |
| StrictJson.CheckTree | app/strict_json.py:88-105 | the worklist walk terminates and accepts if and only if the recursive node count and every string and key length are within limits |
| StrictJson.PushMembers | app/strict_json.py:99-103 | pushes all values if and only if every key is within the limit |
| StrictJson.LoadsStrict | app/strict_json.py:17-58 | composes decoding, byte limit, nesting, parsing and the tree walk; Invalid stands for any exception |
| StrictJson.LoadsIsBoundedDecode | app/strict_json.py:17-58 | returns a value if and only if the reader does and the value's size, depth, node count and strings are within limits |
| StrictLaw.LoadsIff | app/strict_json.py:17-105 | a value is returned if and only if the bytes are within the limit and the UTF-8 of a text that denotes it, no array or object lies as deep as the maximum, no more places hold a value than nodes are allowed, and no string or key at a place is too long |
| StrictJson.CanonicalBytesLoadBack | app/strict_json.py:17-58 | canonical bytes load back to the same value if and only if the limits admit it |

## Left out

- Sockets, TLS, reconnect loops, origin checks, HTTP endpoints, metrics, health and TURN credentials: input, output and wiring.
- Elliptic-curve, HMAC and HPKE operations: foreign libraries, abstract predicates here.
- Configuration parsing and field-by-field message validation: their results are preconditions or input types of the steps.
- Rounding of floating-point times, rates and tokens: modelled over the reals.
- Two readings of one clock within an await-free region are one reading.
- Cancellation of a caller while its SIGNAL_FORWARD is being sent, which leaves a pending ack behind (app/node_mesh.py:217-226); a later cancellation is modelled.
- A wrapped SIGNAL_FORWARD may exceed the peer's frame limit: it counts as lost.
- Sessions in the hub and entries of its tables are values in a map; the alias of a session record that a writer task keeps after removal is represented by the writer's own state.
- The fields of a session are split between `HubModel.Session` (queue, routes, heartbeat) and `Sessions.Session` (handshake and sequence number).
- The order in which a route's dictionary entries are visited is arbitrary, so which entries survive a max_fanout cut is not said.
- Agreement between the mesh registry and the hub's routes is not claimed: pruning stale sessions does not notify the mesh.
- Acks.TrueMeansDelivered: nodes are honest; a dishonest trusted node could acknowledge anything.
- Json.DecodeUndoesPrint: on the domain of app/canonical.py:7-11 and null. A number with a fraction or an exponent is read and kept as its literal, not rounded; it is never printed. Integers of thousands of digits, which Python refuses to convert, are converted.
- HubModel.Hub.CheckRate: the hub holds its buckets as values in a map; `RateRegistry.RateLimiterRegistry` is the form in which they are objects that are updated in place, and its methods have the same contracts.
- StrictJson.NestingIsExact: a text with a lone surrogate escape, which json.loads takes, is not a text of the reader; such a text ends in an error at the latest in the tree walk.
- MeshRun.MeshConverges: nodes of the majority follow the code; their clocks run at the same rate; clock skew refusals and frames lost on a live connection count as messages that do not arrive within the delay.
- Json.Decode: a lone surrogate escape is an error. json.loads takes it, but loads_strict then raises while it measures the string (app/strict_json.py:97-102), so no value is returned either way.
- Utf8.DecodeIffEncode: strings are Unicode scalar values, so the error for encoding a lone surrogate is not modelled.
- V1Relay.HandleRouteMessage: the frame of a message with fractional numbers outside its payload is not described.
- Flood.FloodBound: counts copies offered to subscribers; a full queue can only lower it. Bodies with fractional numbers are outside, as they are outside the canonical domain.
