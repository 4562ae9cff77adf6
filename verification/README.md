# Node-group scheduling: a Dafny model

The repository schedules groups of Kubernetes Nodes: a controller (`prc`) tracks demands and refreshes their
grants, an Algorithm server (Go, with a Python worker) compiles a network topology and allocates Nodes, and an agent
on every Node observes the switches it is wired to. This project models the decision logic of the three and proves
what it promises. Each file is one module.

- **Refresh lifecycle** (`RefreshScheduler`, `RefreshProtocol`). The scheduler is a class over its three tables; its
  methods are proved against functions on one demand's slot. The protocol interleaves the event worker, the refresh
  worker and the timer callbacks, one lock section a step, with live timers kept apart from the timer that a task
  refers to.
- **Python worker supervisor** (`PythonLoop`, `WorkerSupervisor`, `SupervisorCalls`). The one-slot gate, process
  generations, the reader goroutine, cancellation, recycling and closing, over the two byte streams of the line loop,
  and what the supervisor owes to each call.
- **Topology compiler** (`LeafDomains`, `TopologySource`, `TopologyCache`, `TopologyConfigured`) and **resolution**
  (`TopologyResolution`, `DemandLabels`, `NodeResolution`): from the configured adjacency graph to domains and alias
  tables, and from a demand's labels and a Node's leaves to constraints and joined Nodes, in Go and in Python.
- **Allocation** (`TopologyGrouping`, `RequiredSame`, `ResourcePool`, `Allocation`, `Pipeline`, `UsageStates`,
  `UnsatisfiedFailure`), the controller's **answer check** (`ResponseCheck`, `AnswerAccepted`), and one whole
  allocation from request to accepted answer (`Worker`).
- **Static snapshot handshake** (`StaticCache`, `SnapshotState`, `SnapshotProtocol`, `SnapshotController`,
  `SnapshotLiveness`): the two-slot cache, the shared confirmation, runs with late or repeated requests and restarts of
  either side, the controller's pass over the shared state as code and as steps of those runs, and what those runs can
  always achieve.
- **Observation** (`MetricBinding`, `Lldp`, `LeafLinks`): the metric join, the frame parser with its encoder, and the
  leaf facts published on a Node.
- `Text`, `Sorting` and `Wrappers` hold trimming and text order, Python's stable sort, and `Option`.

How the model stands for the code:

- An id made with a hash is the constructor applied to what is hashed, so the hash is injective and hashed ids differ
  from configured ids and switch names. Lists that the code keeps sorted and free of duplicates are sets.
- Where Go iterates over a map, or Python over a dictionary whose order does not matter, a loop takes any remaining
  element; what is proved holds for every order.
- What a library decides is a parameter: the score of a Node, the score of a group, label selection, trimming and
  letter case where only their laws matter.
- Timeouts, lost replies, failing writes, dying processes and API errors are steps that may happen at any moment.

Some promises need hypotheses that the code does not establish; each is given exactly.

- Resource totals are rebuilt from the current Node's names only, so a quota can be exceeded and a minimum missed.
  `QuotaRespectedExactly` and `MinimumExactly` give the reporting patterns for which neither happens.
- Spine, border and uplink domains are not checked to nest in one another or in a room; `RequiredSameExactly` and
  `RequiredSameOfJoinedNodes` say which nesting is needed, and `AnswerSharesDomain` carries it to the Nodes answered.
- Leaf ids and border switches may carry surrounding blanks, which some comparisons trim and others do not:
  `SuccessMeansProperExactly` and `BordersSelectExactly`.
- A border domain may be configured under the name `requiredSame`, which resolved constraints then take for the
  keyword. `LabelsSelectProvidingLeaves` gives the exact condition under which demands still select the leaves that
  provide what they ask for, `KeywordSelectsTooMuch` a topology where they do not.
- A scheduler state may name a UID otherwise than the snapshot; the worker answers with the snapshot's name, and the
  controller refuses that answer. `AnswerIsAccepted`, `AllocationIsAccepted` and `AcceptedExactly` say exactly for
  which states no answer is refused; `MisnamedIsRefused` gives a refused one for any other.

Other places where the code does less than one might expect are `ManyLiveTimers`, `BlankLeafIdStaysUnassigned`,
`PaddedOverlaps`, `SpineDomainMaySpanRooms`, `RoomNotSharedAcrossSpine` and `ConfusableMerges`.

## Model

| member | source | states |
|---|---|---|
| `RefreshScheduler.RefreshScheduler.constructor` | prc/pkg/controller/refresh_scheduler.go:34-42 | a new scheduler tracks nothing: every key's slot is empty |
| `RefreshScheduler.RefreshScheduler.Upsert` | prc/pkg/controller/refresh_scheduler.go:71-93 | the key's slot becomes `Upserted` of the old one (a changed identity stops its timer and cancels its context), the two flags say which case it was, and no other key's slot changes |
| `RefreshScheduler.RefreshScheduler.Begin` | prc/pkg/controller/refresh_scheduler.go:107-117 | a tracked key gets a fresh live context held in its task; an untracked one changes nothing |
| `RefreshScheduler.RefreshScheduler.Finish` | prc/pkg/controller/refresh_scheduler.go:119-128 | ends the held context exactly when the identity is the stored one |
| `RefreshScheduler.RefreshScheduler.IsCurrent` | prc/pkg/controller/refresh_scheduler.go:130-135 | true exactly when the key stores this identity |
| `RefreshScheduler.RefreshScheduler.ScheduleAfter` | prc/pkg/controller/refresh_scheduler.go:139-168 | for the stored identity only, replaces the referenced timer by a fresh armed one |
| `RefreshScheduler.RefreshScheduler.Callback` | prc/pkg/controller/refresh_scheduler.go:152-166 | emits exactly for the stored identity, and then forgets whatever timer the entry refers to |
| `RefreshScheduler.RefreshScheduler.Remove` | prc/pkg/controller/refresh_scheduler.go:171-183 | forgets the key, stopping its referenced timer and cancelling its context; other keys keep their slots |
| `RefreshScheduler.RefreshScheduler.Shutdown` | prc/pkg/controller/refresh_scheduler.go:47-64 | forgets every key |
| `RefreshProtocol.TrackedDemandNeverIdle` | prc/pkg/controller/refresh_scheduler.go:71-195 | in every interleaving a tracked demand has a pending or retrying reconcile, an event in the channel or queue, a worker under the stored identity, a live timer of it, or a callback past its check |
| `RefreshProtocol.SystemNeverIdle` | prc/pkg/controller/refresh_controller.go:43-81 | for every demand of a system in which the steps of all demands interleave: if tracked it is not idle, and while its grant is due for deletion its event worker is busy or its key is queued |
| `RefreshProtocol.TrackedDemandCanRefresh` | prc/pkg/controller/refresh_controller.go:127-157 | from every reachable tracked state its own actors can bring a refresh worker to run under the stored identity, without a new watch event (unless the deletion was already read) |
| `RefreshProtocol.ContextsLiveExactlyWhileHeld` | prc/pkg/controller/refresh_scheduler.go:71-183 | uncancelled contexts are exactly those held in task.cancel, under the stored identity, and a step ends one exactly when it is Finish, Remove or an identity-changing Upsert |
| `RefreshProtocol.StaleIdentityNeverActs` | prc/pkg/controller/refresh_scheduler.go:137-168 | once replaced or removed, an identity never again emits, re-arms or starts a refresh in any run in which it is not read again |
| `RefreshProtocol.TidyKeptExactly` | prc/pkg/controller/refresh_scheduler.go:149-165 | 'at most one live timer, the one in task.timer' is kept by a step if and only if it is not a callback that passes its check while a newer timer is armed |
| `RefreshProtocol.ManyLiveTimers` | prc/pkg/controller/refresh_scheduler.go:152-159 | for every n a state is reachable with n live timers of the stored identity: line 159 forgets the newer one, again and again |
| `RefreshProtocol.StoredIsLastFound` | prc/pkg/controller/refresh_scheduler.go:71-93 | in every run the scheduler stores exactly the identity that was last read and upserted, and none after a removal |
| `RefreshProtocol.StatusWrittenExactly` | prc/pkg/controller/refresh_controller.go:58-75 | the event worker writes a status, and can fail to, exactly for an untracked demand without a phase or a read identity other than the recorded one |
| `RefreshProtocol.EventQueueExactly` | prc/pkg/controller/refresh_controller.go:43-81 | the event queue holds the key exactly while, since it was last taken, a watch event came or the reconcile failed (a read, a status write or the deletion of the grant); the worker is idle exactly when it has returned |
| `RefreshProtocol.RefreshQueueExactly` | prc/pkg/controller/refresh_controller.go:127-157 | the refresh queue holds the key exactly while, since it was last taken, an event was forwarded or a calculation failed under an identity still stored |
| `RefreshProtocol.TakesInTurn` | prc/pkg/controller/refresh_controller.go:102-113 | a worker can take the key exactly when it is owed and the reconcile before has returned |
| `RefreshProtocol.EventsConserved` | prc/pkg/controller/refresh_scheduler.go:149-195 | every event sent is forwarded once, and every callback that passes its check sends exactly one |
| `RefreshProtocol.DeletionNotDropped` | prc/pkg/controller/refresh_controller.go:46-56 | once a run has read the demand as not found, and until its grant is deleted or the demand found again, the event worker is busy or the key is queued |
| `RefreshProtocol.DeletionCanFinish` | prc/pkg/controller/refresh_controller.go:46-56 | from every such state the demand's own steps can delete the grant, without a new watch event, and the demand is then forgotten |
| `RefreshProtocol.EachDemandRuns` | prc/pkg/controller/refresh_controller.go:43-157 | in every interleaving of all demands the steps of each are a run of its own, so that all these results hold for it |
| `PythonLoop.MainLoop` | algorithm_server/python/algorithm_worker/worker.py:147-178 | the loop's output is the reply to each non-blank line, in order |
| `PythonLoop.ReplyPerLine` | algorithm_server/python/algorithm_worker/worker.py:151-177 | as many replies as non-blank lines; each non-blank line is answered at its place among them, with its id and the calculation of its payload, bad requests included |
| `PythonLoop.RepliesOnlyGrow` | algorithm_server/python/algorithm_worker/worker.py:173-177 | later lines never change earlier replies |
| `WorkerSupervisor.CallsGetTheirOwnAnswers` | algorithm_server/go/algorithm/worker.go:186-314 | in every run a successful call returns the answer to its own payload; while the gate is free no reader goroutine is left and a live child has had as many replies consumed as requests written |
| `WorkerSupervisor.ReplyIdAlwaysMatches` | algorithm_server/go/algorithm/worker.go:289-301 | a reply that is examined always carries the id that was sent |
| `WorkerSupervisor.AtMostOneChild` | algorithm_server/go/algorithm/worker.go:170-180 | at most one child is un-reaped, and a start is possible only when every earlier child is reaped |
| `WorkerSupervisor.ClosedForGood` | algorithm_server/go/algorithm/worker.go:402-416 | once close has returned nil every child is reaped and no later step starts another |
| `WorkerSupervisor.FailuresHaveReasons` | algorithm_server/go/algorithm/worker.go:200-313 | a call is returned as failed only if its calculation is an error or its run holds a step that failed for it: given up, cancelled, a start, a write, a scan, an evidence file or a recycle that failed |
| `WorkerSupervisor.CallCanSucceed` | algorithm_server/go/algorithm/worker.go:186-314 | from every reachable state with a free gate and no cancellation a run exists in which a new call returns the result of its calculation; where the child died unnoticed, one other call finds that out first |
| `SupervisorCalls.NoCallIsLost` | algorithm_server/go/algorithm/worker.go:200-313 | at any moment every call has returned or holds the gate, and not both |
| `SupervisorCalls.HolderCanReturn` | algorithm_server/go/algorithm/worker.go:207-313 | from every reachable state the call that holds the gate can return and free it without any other call |
| `SupervisorCalls.CollectedWhenDone` | algorithm_server/go/algorithm/worker.go:265-277 | a goroutine is given up only when it is done |
| `SupervisorCalls.RequestIdsAreUnique` | algorithm_server/go/algorithm/worker.go:237 | no two request lines of a run carry one id, and the ids count the exchanges begun |
| `SupervisorCalls.DeadForGood` | algorithm_server/go/algorithm/worker.go:169-180 | a child that was stopped, was reaped or died neither reads nor writes anything in any later part of the run |
| `SupervisorCalls.CancelledExactly` | algorithm_server/go/algorithm/worker.go:402-404 | the supervisor is cancelled exactly when its parent was or close has begun, and then no call gets past its check |
| `SupervisorCalls.CloseEndsExactly` | algorithm_server/go/algorithm/worker.go:402-416 | close succeeds exactly when the last child has been reaped, and fails exactly when one of its two waits times out |
| `SupervisorCalls.CloseCanSucceed` | algorithm_server/go/algorithm/worker.go:407-410 | from every reachable state in which close waits for a free gate it can return nil |
| `LeafDomains.CheckMembers` | algorithm_server/go/topology/source.go:308-331 | passes exactly when every member of the block fits it |
| `LeafDomains.PlaceLeaf` | algorithm_server/go/topology/source.go:303-346 | succeeds exactly for a consistent block and stamps exactly its members |
| `LeafDomains.AssignLeafDomains` | algorithm_server/go/topology/source.go:297-349 | succeeds exactly when every leaf's block is consistent; then every clean id carries its block, {leaf} plus peers, under an id given by a leaf of that block, and other ids are as they were, whatever the scan order; with clean ids the result is the closed form |
| `LeafDomains.SuccessMeansProperExactly` | algorithm_server/go/topology/source.go:297-349 | over all topologies with given leaf ids, success means a proper peer relation (irreflexive, symmetric, of degree at most one, within one room and one uplink or spine and border domain) if and only if the ids are all free of surrounding blanks or all blank |
| `LeafDomains.BlanksBreakBothWays` | algorithm_server/go/topology/source.go:299-321 | both ways it fails: a padded id without peers is refused, a blank id with a one-sided peer is accepted |
| `LeafDomains.DomainsPartitionLeaves` | algorithm_server/go/topology/source.go:332-347 | whatever other ids there are, the leaves with clean ids are partitioned into blocks of one or two; same domain id, same block, same room and uplinks go together |
| `LeafDomains.EveryLeafAssignedExactly` | algorithm_server/go/topology/source.go:299-304 | every leaf gets a domain if and only if no leaf id has surrounding blanks |
| `LeafDomains.BlankLeafIdStaysUnassigned` | algorithm_server/go/topology/source.go:299-309 | a blank leaf id is accepted |
| `TopologySource.ReadRoom` | algorithm_server/go/topology/source.go:146-164 | reads a room exactly when none of its leaves is known and each has an uplink; adds exactly its leaves (CacheIsConfigured says what each holds) |
| `TopologySource.ReadLeaves` | algorithm_server/go/topology/source.go:137-173 | succeeds exactly for a readable topology, holds exactly its leaves, and detects the mode (CacheIsConfigured and ModeIsConfigured say so of the configuration) |
| `TopologyCache.ConfiguredBorderDomain` | algorithm_server/go/topology/source.go:261-273 | the configured domain if exactly one of the room has these members, else none |
| `TopologyCache.AddDomains` | algorithm_server/go/topology/source.go:174-214 | every leaf gets the spine, border and uplink domain of its switches and mode |
| `TopologyCache.AddAliases` | algorithm_server/go/topology/source.go:289-295 | refuses exactly on an alias that already means another domain |
| `TopologyCache.FillAliases` | algorithm_server/go/topology/source.go:221-251 | succeeds exactly when no name belongs to two domains; the three tables then hold exactly the names of the leaves |
| `TopologyCache.BuildCache` | algorithm_server/go/topology/source.go:98-258 | succeeds exactly for linked scopes, a readable non-empty topology and a buildable graph, whatever the leaf ids, and then the cache is a compiled one; TopologyConfigured says both of the configuration itself |
| `TopologyCache.BuildsHasCache` | algorithm_server/go/topology/source.go:219-258 | whatever builds has a compiled cache, so the results about compiled caches speak of something |
| `TopologyCache.SwitchSetsEqualOrDisjoint` | algorithm_server/go/topology/source.go:219-251 | after a build any two leaves' spine sets are equal or disjoint, and so are border sets up to surrounding blanks, or as spelled when trimming tells the border switches apart |
| `TopologyCache.BordersSelectExactly` | algorithm_server/go/topology/source.go:241-273 | over all topologies with given border switch names, the leaves whose border domain is the one a border switch resolves to are exactly those that list it, and border sets are equal or disjoint, if and only if trimming tells the names apart and no other name stands beside a blank one (equality of domain ids; for what resolved constraints select see LabelsSelectProvidingLeaves) |
| `TopologyCache.SpineAliasSelectsAdjacent` | algorithm_server/go/topology/source.go:231-240 | the leaves whose spine domain is the one a spine switch resolves to are exactly those adjacent to it |
| `TopologyCache.BorderAliasSelectsAdjacent` | algorithm_server/go/topology/source.go:241-250 | for every topology: a leaf that lists the switch is selected, a selected leaf lists it up to blanks, and selection is exact when trimming tells the border switches apart |
| `TopologyCache.LeafDomainDecidesTheRest` | algorithm_server/go/topology/source.go:308-345 | two leaves (with clean ids) of one leaf domain agree on every scope and domain |
| `TopologyCache.LeafAliasesNeverConflict` | algorithm_server/go/topology/source.go:221-230 | leaf aliases can never be the reason a topology is refused |
| `TopologyCache.SpineDomainMaySpanRooms` | algorithm_server/go/topology/source.go:174-213 | the build accepts a spine domain that lies in two rooms |
| `TopologyConfigured.CacheIsConfigured` | algorithm_server/go/topology/source.go:137-214 | a compiled cache has exactly the configured leaves; each has the spines, borders, peers and scopes configured for it, the domains of those switches, and (its id clean) the block of itself and its configured peers |
| `TopologyConfigured.BlockIsConfigured` | algorithm_server/go/topology/source.go:297-349 | a clean leaf's block is itself and its configured peers, trimmed; two or more share the domain of the block, and with clean ids one alone bears its own name |
| `TopologyConfigured.ModeIsConfigured` | algorithm_server/go/topology/source.go:153-173 | the mode is uplink-compatible exactly when some configured leaf has only spines or only borders |
| `TopologyConfigured.BuildsExactly` | algorithm_server/go/topology/source.go:98-258 | with clean leaf ids a configuration builds if and only if it is not empty, its scopes are linked, each leaf lies in one known room with some uplink, has at most one peer, which is another leaf of the room that names it in turn, with the same spine switches and border domain, and spine and border domains share no names |
| `TopologyResolution.HasMatchingLeaf` | algorithm_server/go/topology/constraints.go:134-162 | true exactly when some leaf meets all constraints |
| `TopologyResolution.ReadLabels` | algorithm_server/go/topology/constraints.go:30-42 | accepts exactly labels of known keys with non-blank text, and reads each into its level (LabelsSelectServingLeaves says of each key what that selects) |
| `TopologyResolution.ResolveDemandTopologyLabels` | algorithm_server/go/topology/constraints.go:17-71 | constraints exactly when all labels are acceptable, resolve, and some leaf satisfies them; LabelsResolveExactly says when, and LabelsSelectServingLeaves for which leaves |
| `TopologyResolution.CompiledAliasesSelect` | algorithm_server/go/topology/constraints.go:117-132 | on a compiled topology the spine table sends a name to a leaf's domain exactly when the leaf answers to it; so does the leaf table for every clean leaf id, and the border table when trimming tells the border switches apart |
| `TopologyResolution.LabelsSelectExactly` | algorithm_server/go/topology/constraints.go:44-70 | on every compiled topology the resolved constraints select exactly the leaves that are granted every requested level, in both modes: that lie in the scope, or in the domain that goes by the name, or in any domain of the level where the name's domain is called requiredSame |
| `TopologyResolution.LabelsSelectProvidingLeaves` | algorithm_server/go/topology/constraints.go:44-70 | on a compiled topology all requests select exactly the leaves (with a leaf domain) that physically provide everything asked for, if and only if the leaves of one border domain answer to the same names and a border domain called requiredSame leaves out no leaf of another one; trimming that tells the border switches apart gives the first |
| `TopologyResolution.KeywordSelectsTooMuch` | algorithm_server/go/topology/constraints.go:117-162 | a topology that builds, its border switches told apart by trimming, with a border domain configured as requiredSame: asking for that domain's switch also selects a leaf that does not list it |
| `TopologyResolution.ResolvedLevels` | algorithm_server/go/topology/constraints.go:44-115 | exactly which levels are constrained: those requested, but in uplink-compatible mode a spine or border keyword constrains the uplink instead, and a spine or border name the uplink besides |
| `DemandLabels.LabelsSelectServingLeaves` | algorithm_server/go/topology/constraints.go:8-71 | from label keys and texts to leaves: a leaf (with a leaf domain, where demands select providing leaves at all) meets the resolved constraints if and only if it answers to the spine-switch label by its spines, to the border-switch label by its borders, to the leaf-switch label by its block, and lies in the room and data center named |
| `DemandLabels.LabelsResolveExactly` | algorithm_server/go/topology/constraints.go:17-71 | labels that resolve are each of a known key, not blank, and the keyword, a configured scope or a name that some leaf answers to, and some leaf meets the constraints; where demands select providing leaves and every leaf has a leaf domain, they resolve if and only if they are such and some leaf serves them all |
| `NodeResolution.NodeLeafIds` | algorithm_server/go/topology/resolver.go:64-99 | one or two distinct trimmed ids in sort order, from the list or else the single fields; otherwise an error |
| `NodeResolution.ResolveNode` | algorithm_server/go/topology/resolver.go:13-57 | with the least leaf taken first, each outcome holds exactly under its condition on the Node's leaves |
| `NodeResolution.ResolveNodes` | algorithm_server/go/topology/resolver.go:10-62 | keeps exactly the resolvable Nodes in order, warns once for each other, and fails when none is left |
| `NodeResolution.LeafIdsExactly` | algorithm_server/go/topology/resolver.go:64-99 | a Node's leaf ids are the trimmed non-blank texts of its list if that has any, else of the single leaf id if there is one, else of the switch id |
| `NodeResolution.JoinedFields` | algorithm_server/go/topology/resolver.go:35-57 | a joined Node has every field of its first leaf and all its leaves; these share one leaf domain and one uplink domain, or one spine and border domain in layered mode |
| `NodeResolution.KeptInOrder` | algorithm_server/go/topology/resolver.go:10-62 | the Nodes kept are exactly those joined, under their own names and in their order |
| `NodeResolution.JoinedExactly` | algorithm_server/go/topology/resolver.go:35-55 | on a compiled topology the uplink conflict cannot arise; a Node is joined if and only if its leaves are known and of one leaf domain, with the same domains through each leaf |
| `NodeResolution.FirstLeafIrrelevant` | algorithm_server/go/topology/resolver.go:35-55 | whichever leaf is taken first, the outcome is the same |
| `NodeResolution.MatchesTopology` | algorithm_server/python/algorithm_worker/services/node_view_builder.py:102-120 | refuses exactly unknown levels, and otherwise decides exactly whether the Node meets every constraint |
| `NodeResolution.ResolvedLevelsAreKnown` | algorithm_server/python/algorithm_worker/services/node_view_builder.py:43-50 | the resolver never produces a level the filter refuses |
| `NodeResolution.FiltersAgree` | algorithm_server/python/algorithm_worker/services/node_view_builder.py:102-120 | on every joined Node the Python filter answers what the Go filter answers for each of its leaves |
| `NodeResolution.NodePassesExactly` | algorithm_server/python/algorithm_worker/services/node_view_builder.py:102-120 | end to end on every compiled topology a joined Node passes the filter of a demand's labels if and only if each of its leaves is granted everything asked for; provides it, under the exact condition of LabelsSelectProvidingLeaves |
| `TopologyGrouping.GroupBy` | algorithm_server/python/algorithm_worker/algorithms/topology.py:57-61 | the dictionary holds, for each non-empty domain in order of first sight, exactly its Nodes |
| `TopologyGrouping.GroupLevel` | algorithm_server/python/algorithm_worker/algorithms/topology.py:56-66 | one level's groups, by sorted domain, each with its Nodes by name and UID |
| `TopologyGrouping.LevelPartition` | algorithm_server/python/algorithm_worker/algorithms/topology.py:56-66 | they partition the Nodes that have a domain at the level: every domain once, in order, with exactly its Nodes |
| `TopologyGrouping.Execute` | algorithm_server/python/algorithm_worker/algorithms/topology.py:35-53 | fails exactly on a level the mode lacks; otherwise returns all levels up to the narrowest constrained one: every group is all the Nodes of one domain of its level, by name, and no such group is missing or twice |
| `TopologyGrouping.GroupsExactly` | algorithm_server/python/algorithm_worker/algorithms/topology.py:41-66 | the groups of the first levels are exactly their domains, each with exactly the Nodes that name it, by name and UID |
| `TopologyGrouping.RequiredSameExactly` | algorithm_server/python/algorithm_worker/algorithms/topology.py:47-52 | all returned groups share one domain at a level if and only if every grouped level nests in it |
| `RequiredSame.JoinedIsPlaced` | algorithm_server/go/topology/resolver.go:55 | a joined Node carries the domains of each of its leaves |
| `RequiredSame.RequiredSameOfJoinedNodes` | algorithm_server/python/algorithm_worker/algorithms/topology.py:41-66 | among joined Nodes only the levels that do not nest by construction matter; leaf-domain groups share every level with no hypothesis |
| `RequiredSame.CompatibleUplinkIsShared` | algorithm_server/python/algorithm_worker/algorithms/topology.py:42-47 | in uplink-compatible mode spine, border and uplink constraints need no hypothesis |
| `RequiredSame.RoomNotSharedAcrossSpine` | algorithm_server/python/algorithm_worker/algorithms/topology.py:41-52 | without nesting it fails: a spine-domain group with Nodes of two rooms although the room must be the same |
| `ResourcePool.SumResources` | algorithm_server/python/algorithm_worker/algorithms/loadbalance.py:294-299 | the totals are the true sums of every resource |
| `ResourcePool.Choose` | algorithm_server/python/algorithm_worker/algorithms/loadbalance.py:236-253 | the loop computes the greedy choice, its rebuilt totals and the number of Nodes passed over |
| `ResourcePool.SelectResourcePoolNodes` | algorithm_server/python/algorithm_worker/algorithms/loadbalance.py:224-287 | returns the greedy selection when feasible, else nothing, with its diagnosis |
| `ResourcePool.SelectionIsSound` | algorithm_server/python/algorithm_worker/algorithms/loadbalance.py:236-287 | whatever the Nodes report: ranked order, at most maxNodes, and the minimum truly met |
| `ResourcePool.PassedOverForReason` | algorithm_server/python/algorithm_worker/algorithms/loadbalance.py:239-253 | each ranked Node is chosen after those chosen before it, unless these are maxNodes many, or truly meet the minimum, or would truly exceed a quota together with it |
| `ResourcePool.SeenAreChosenOrRejected` | algorithm_server/python/algorithm_worker/algorithms/loadbalance.py:239-253 | the Nodes looked at are those chosen and those counted as rejected; others are left only when maxNodes are chosen or the minimum is met; nothing is rejected without a quota |
| `ResourcePool.LastIsNeeded` | algorithm_server/python/algorithm_worker/algorithms/loadbalance.py:250-253 | when Nodes report what the minimum names, dropping the last chosen Node breaks a non-zero minimum |
| `ResourcePool.QuotaRespectedExactly` | algorithm_server/python/algorithm_worker/algorithms/loadbalance.py:243-249 | the quota of a name is respected for all amounts and limits if and only if no ranked Node that lacks the name stands between two that report it |
| `ResourcePool.ReportedQuotaRespected` | algorithm_server/python/algorithm_worker/algorithms/loadbalance.py:243-249 | in particular when every Node reports it the true sum stays within the quota |
| `ResourcePool.MinimumExactly` | algorithm_server/python/algorithm_worker/algorithms/loadbalance.py:239-283 | over all amounts and limits, a minimum of given names is met without a quota exactly when the top maxNodes have it, and INSUFFICIENT_RESOURCES is told exactly when all Nodes fall short, if and only if every Node from the first that reports a name up to the last that reports any of them reports it |
| `ResourcePool.NoNodesAllowed` | algorithm_server/python/algorithm_worker/algorithms/loadbalance.py:239-242 | a maxNodes of zero or less chooses nothing, which is feasible exactly for a minimum of zeros |
| `ResourcePool.DiagnosisIsExact` | algorithm_server/python/algorithm_worker/algorithms/loadbalance.py:255-283 | under that reporting INSUFFICIENT_RESOURCES is told exactly when no subset meets the minimum; for non-negative maxNodes the other two codes exactly as the top maxNodes and the whole group say; QUOTA means that without quota it would succeed |
| `Allocation.SourceByUid` | algorithm_server/python/algorithm_worker/algorithms/loadbalance.py:78-81 | every Node's UID has a source, and every source is a Node with that UID |
| `Allocation.ScoreByUid` | algorithm_server/python/algorithm_worker/algorithms/loadbalance.py:78-106 | the cache holds for every Node of every group its own score |
| `Allocation.GroupedByOrder` | algorithm_server/python/algorithm_worker/algorithms/loadbalance.py:108-112 | each order's groups in the order given, and no others |
| `Allocation.LevelCandidates` | algorithm_server/python/algorithm_worker/algorithms/loadbalance.py:116-156 | the candidates of exactly the groups with a non-empty selection, scored as if afresh, and the diagnostics of all; each candidate respects the demand and each group without one fails it, as ExecuteScore says |
| `Allocation.ExecuteScore` | algorithm_server/python/algorithm_worker/algorithms/loadbalance.py:108-169 | the result is all feasible groups of the narrowest level that has one, best first; reusing scores changes nothing; every candidate has at most maxNodes of its group's own Nodes, best first, truly meets the minimum, stays within a quota that all Nodes of the group report and leaves out no Node without a reason; every group as narrow that has no candidate takes no Node or falls short |
| `Allocation.FitAnswers` | algorithm_server/python/algorithm_worker/algorithms/loadbalance.py:114-169 | the same of any result of the stage, from the demand's own maxNodes, minimum and quota and the group's own Nodes: what is returned respects them, what is passed over could not |
| `Allocation.GroupIdsApart` | algorithm_server/python/algorithm_worker/algorithms/topology.py:56-66 | group ids of known levels tell level and domain apart |
| `Pipeline.Run` | algorithm_server/python/algorithm_worker/pipeline.py:44-61 | keeps the narrowest level, sorts, takes three and ranks from one |
| `Pipeline.FilterIsNoOp` | algorithm_server/python/algorithm_worker/pipeline.py:44-50 | after the SCORE stage the level filter and the sort change nothing |
| `Pipeline.NarrowestFitAndTopThree` | algorithm_server/python/algorithm_worker/pipeline.py:44-61 | the answer is the best three of the narrowest feasible level; narrower levels have no feasible group and a feasible group left out ranks after all returned ones |
| `Pipeline.AnswerServesDemand` | algorithm_server/python/algorithm_worker/pipeline.py:44-61 | at most three groups of one level, ranked from one and best first, each respecting the demand; narrower groups all fail it, and a group of that level fails it, is answered, or comes after three that are; no answer only when every group fails |
| `ResponseCheck.CheckNodes` | prc/pkg/controller/prc_controller.go:463-478 | passes exactly Nodes in range, known, under their own name and not seen before |
| `ResponseCheck.CheckGroup` | prc/pkg/controller/prc_controller.go:450-486 | passes exactly a well-formed group in stable order |
| `ResponseCheck.ValidateResponse` | prc/pkg/controller/prc_controller.go:429-488 | accepts exactly the answers that satisfy every condition of the check, also pair by pair: the expected identity, at most three groups, ranks from one, scores from 0 to 100, UIDs known under their last entry's name, no UID twice, groups and Nodes in order |
| `ResponseCheck.AcceptableExactly` | prc/pkg/controller/prc_controller.go:429-488 | what the single steps check is exactly that, for any two groups and any two Nodes |
| `AnswerAccepted.AnswerIsAccepted` | prc/pkg/controller/prc_controller.go:436-486 | over distinct Nodes, each grouped one having a domain at the narrowest level, every answer of the pipeline, for every demand and scores, passes the check if and only if the scheduler state knows each grouped Node by its name |
| `AnswerAccepted.MisnamedIsRefused` | prc/pkg/controller/prc_controller.go:463-478 | for each Node the state does not know by its name: an unlimited demand and scores whose answer is refused |
| `AnswerAccepted.OnlyNamesDecide` | prc/pkg/controller/prc_controller.go:436-486 | every answer over distinct Nodes of known UIDs satisfies every other condition of the check, so that the names of the Nodes answered decide |
| `AnswerAccepted.AnswerSharesDomain` | algorithm_server/python/algorithm_worker/algorithms/topology.py:41-52 | where every grouped level nests in a level, all Nodes of each answered group lie in one domain of it |
| `UsageStates.ResourcesFull` | algorithm_server/go/algorithm/service.go:249-268 | true exactly when some limit is positive and every positive limit is used up; false exactly when something has room |
| `UsageStates.NormalizeSchedulerState` | algorithm_server/go/algorithm/service.go:195-222 | one entry for each Node, from the last state with its UID; a Node without state is in use |
| `UsageStates.NormalizeEntries` | algorithm_server/go/algorithm/service.go:162-194 | accepts exactly boolean entries of known, distinct UIDs |
| `UsageStates.SubtractAll` | algorithm_server/python/algorithm_worker/quantity.py:31-38 | pointwise subtraction that stops at zero, over the names of both |
| `UsageStates.Build` | algorithm_server/python/algorithm_worker/services/node_view_builder.py:51-99 | the eligible Nodes by name and UID, and the exact numbers that pass the selector, the topology filter after it, and both with their usage state; a view is exactly that of a Node that passes both filters and whose last entry, if any, is not in use, with its capacity less what that entry requests |
| `UsageStates.FreeNodesExactly` | algorithm_server/go/algorithm/service.go:195-222 | from snapshot and scheduler state: the views are exactly those of the Nodes that pass both filters and whose last state is ready, schedulable and leaves room, and offer name by name the capacity less what is requested, not below zero |
| `UsageStates.ViewsAreKnown` | algorithm_server/go/algorithm/service.go:204-222 | on the schedulerState path every eligible Node has an entry, and the grouped ones are known by name exactly when the last entry of each has its name or none |
| `UsageStates.AllocationIsAccepted` | prc/pkg/controller/prc_controller.go:436-486 | end to end from snapshot and scheduler state every answer, for every demand and scores, passes the controller's check if and only if the state names each eligible grouped Node as the snapshot does |
| `UnsatisfiedFailure.Explain` | algorithm_server/python/algorithm_worker/worker.py:80-123 | each code exactly in its case; a resource code names the infeasible group that got furthest |
| `UnsatisfiedFailure.ExplanationIsTrue` | algorithm_server/python/algorithm_worker/worker.py:101-114 | the group reported fails the demand, under its id and with the number of Nodes tried in vain; where its Nodes report the minimum's names unbroken what each of the three codes says holds of its ranked Nodes |
| `Worker.Calculate` | algorithm_server/python/algorithm_worker/worker.py:25-77 | composes all stages: refused exactly for a level the mode lacks; otherwise the answer is the top three of the narrowest feasible level and serves the demand (at most maxNodes, minimum and reported quota truly kept, nothing left out without a reason), answers free Nodes only, keeps each group to one domain of every level the grouped levels nest in, passes the controller's check when the state names the eligible Nodes rightly, and has a failure exactly when empty, each code exactly in its case |
| `Worker.AcceptedExactly` | prc/pkg/controller/prc_controller.go:436-486 | whatever is asked for and however it is scored, all that Calculate may return is accepted if and only if the state names the eligible grouped Nodes as the snapshot does |
| `Worker.JoinedHaveLeafDomains` | algorithm_server/go/topology/resolver.go:35-55 | Nodes joined to leaves with a leaf domain meet the hypothesis of that result: each has a domain at the narrowest level |
| `StaticCache.Check` | algorithm_server/go/algorithm/cache.go:22-83 | accepts exactly bodies whose hash is the id, with non-empty well-formed Nodes of distinct UIDs; the snapshot has exactly those Nodes with their one or two leaves, by UID |
| `StaticCache.StaticCache.Put` | algorithm_server/go/algorithm/cache.go:22-96 | appends an accepted upload to the history and keeps both slots equal to its last two switches |
| `StaticCache.StaticCache.Get` | algorithm_server/go/algorithm/cache.go:138-147 | finds exactly what the two slots hold |
| `StaticCache.HoldsLastTwo` | algorithm_server/go/algorithm/cache.go:84-95 | an id is found if and only if it is one of the last two accepted ids after immediate repetitions are dropped; these differ |
| `StaticCache.FoundIsGenuine` | algorithm_server/go/algorithm/cache.go:138-147 | what is found for an id is what an upload of that content stores |
| `StaticCache.SurvivesOneSwitch` | algorithm_server/go/algorithm/cache.go:84-95 | an accepted id is found after any further uploads that switch at most once |
| `StaticCache.TwoSwitchesEvict` | algorithm_server/go/algorithm/cache.go:89-94 | after two switches to two other ids it is gone |
| `SnapshotState.StaticSnapshotState.constructor` | prc/pkg/controller/static_snapshot_controller.go:48 | nothing confirmed, not ready |
| `SnapshotState.StaticSnapshotState.Current` | prc/pkg/controller/static_snapshot_controller.go:51-58 | returns the shared status and readiness |
| `SnapshotState.StaticSnapshotState.Confirm` | prc/pkg/controller/static_snapshot_controller.go:60-68 | replaces the status and becomes ready |
| `SnapshotState.StaticSnapshotState.Sync` | prc/pkg/controller/static_snapshot_controller.go:71-77 | keeps the identity but is no longer ready |
| `SnapshotState.StaticSnapshotState.Fail` | prc/pkg/controller/static_snapshot_controller.go:79-86 | records the error and leaves readiness alone |
| `SnapshotController.Reconcile` | prc/pkg/controller/static_snapshot_controller.go:153-223 | one pass leaves the shared state ready exactly when the server still holds the snapshot or has acknowledged it, under that snapshot's identity; failing to read leaves readiness alone |
| `SnapshotController.PassIsReconcile` | prc/pkg/controller/static_snapshot_controller.go:153-223 | in every run, whatever steps the others take between them, the protocol's controller steps leave the shared state as that pass does, and publish exactly when the server does not still hold the snapshot |
| `SnapshotProtocol.UsedAnswersAreGenuine` | prc/pkg/controller/static_snapshot_controller.go:176-223 | in every run, across late PUTs, polls and restarts, a used answer was computed by the process whose acknowledgement of that snapshot was received, from what that id stores |
| `SnapshotProtocol.AsksUseTheLatest` | prc/pkg/controller/static_snapshot_controller.go:201-217 | an ask names the content of the last PUT sent before it, and no ask is possible while a PUT is outstanding |
| `SnapshotProtocol.InFlightSurvivesOneSwitch` | algorithm_server/go/algorithm/service.go:31-34 | if the process that accepted the snapshot still runs and switched at most once since, an ask for it is answered |
| `SnapshotLiveness.SnapshotCanBeUsed` | prc/pkg/controller/static_snapshot_controller.go:153-223 | from every reachable state any acceptable snapshot can be published, acknowledged and used by a demand worker, without any restart |
| `SnapshotLiveness.UnchangedIsKept` | prc/pkg/controller/static_snapshot_controller.go:176-200 | while the server's current snapshot is the confirmed one, a pass over the same Nodes can stay ready and publish nothing |
| `SnapshotLiveness.RepliesAreGenuine` | prc/pkg/controller/static_snapshot_controller.go:176-217 | in every run a poll answered ready names a process and a snapshot it accepted, and an acknowledgement is of the PUT waited for, by a process that accepted its content |
| `SnapshotLiveness.ReadyIsEarned` | prc/pkg/controller/static_snapshot_controller.go:48-86 | a controller is ready only if it has had an acknowledgement since it was started |
| `MetricBinding.IndexByIp` | algorithm_server/go/algorithm/metric_binding.go:16-34 | an IP is in the table exactly when one name claims it, and in the invalid set exactly when several do |
| `MetricBinding.MapByName` | algorithm_server/go/algorithm/metric_binding.go:36-59 | a name is mapped exactly when one identity claims it, and ambiguous exactly when several do |
| `MetricBinding.IpClaimExactly` | algorithm_server/go/algorithm/metric_binding.go:19-34 | one claim means: some Node has the IP and every Node that has it bears that name |
| `MetricBinding.NameClaimExactly` | algorithm_server/go/algorithm/metric_binding.go:45-59 | one claim means: this identity and no other resolves to the name |
| `MetricBinding.ResolvedExactly` | algorithm_server/go/algorithm/metric_binding.go:36-44 | an identity resolves to a name if and only if its trimmed text is the IP of some Node, and of Nodes of that name only |
| `MetricBinding.Bind` | algorithm_server/go/algorithm/metric_binding.go:11-88 | the join maps a name exactly when precisely one identity resolves to it; it is degraded exactly unless Nodes and identities match one to one and every Node is mapped |
| `MetricBinding.JoinIsUnique` | algorithm_server/go/algorithm/metric_binding.go:16-59 | the relation determines the result, whatever the order of Nodes and identities |
| `Lldp.ParseFrame` | topology_agent/lldp.go:53-104 | for every byte string, in bounds and terminating, the loop accepts and returns exactly what the TLV splitting and the record fold give; a valid frame is LLDP by its type, has a chassis, a port and a positive time to live, and every field comes from the TLVs as RecordReadFrom says |
| `Lldp.RecordReadFrom` | topology_agent/lldp.go:68-102 | for any TLVs: identifiers, texts and capabilities come from the last TLV of kind 1, 2, 4 to 6 and 7, the time to live from the last of kind 3 with two bytes, the addresses from all of kind 8 that hold one |
| `Lldp.IdentifierExactly` | topology_agent/lldp.go:106-129 | every identifier is a MAC exactly for chassis code 4 or port code 3 with six bytes, an address for chassis code 5 or port code 4 with two or more, trimmed text otherwise, and nothing below two bytes |
| `Lldp.SplitEncoded` | topology_agent/lldp.go:68-77 | splitting the encoding of any TLV sequence gives it back and continues with the rest |
| `Lldp.EndIgnoresTheRest` | topology_agent/lldp.go:79-80 | bytes after the End TLV are ignored, and so is a single trailing byte |
| `Lldp.OverrunIsRejected` | topology_agent/lldp.go:72-75 | a TLV that overruns the frame before an End TLV makes it invalid |
| `Lldp.IdentifierRoundTrip` | topology_agent/lldp.go:106-129 | decoding the encoding of a proper identifier gives its subtype and value, under the literal codes: MAC 4 (chassis) and 3 (port), address 5 and 4 |
| `Lldp.AddressRoundTrip` | topology_agent/lldp.go:131-142 | the same for network addresses |
| `Lldp.ManagementRoundTrip` | topology_agent/lldp.go:144-153 | the same for management addresses |
| `Lldp.TakeCapabilities` | topology_agent/lldp.go:155-175 | both capability sets are read back |
| `Lldp.RecordRoundTrip` | topology_agent/lldp.go:53-104 | parsing the encoding of any well-formed neighbour record, whatever follows it, returns the record |
| `LeafLinks.DistinctLeafCount` | topology_agent/lldp.go:216-227 | counts the distinct chassis of the external neighbours |
| `LeafLinks.SameChassisExactly` | topology_agent/lldp.go:229-239 | two neighbours whose ids leave something to compare have one chassis if and only if their subtypes are equal up to blanks and case and so are their ids, a MAC also up to the separators : - and . |
| `LeafLinks.NameChassis` | topology_agent/agent.go:135-163 | names every chassis by its last system name or first chassis id, or fails as the code does (NamedExactly) |
| `LeafLinks.NamedExactly` | topology_agent/agent.go:135-163 | naming succeeds if and only if every external neighbour is on a selected interface, has a chassis, agrees with the system name its chassis advertised last and has a name or an id; each chassis then bears its last system name, or else the first id it was met by |
| `LeafLinks.CheckNames` | topology_agent/agent.go:167-174 | passes exactly when no two chassis bear one name up to case |
| `LeafLinks.BuildLeafLinks` | topology_agent/agent.go:130-195 | succeeds exactly when naming does, some neighbour is external and names are unambiguous; one link for each external neighbour, in order |
| `LeafLinks.BuildsExactly` | topology_agent/agent.go:130-174 | links are built if and only if there is an external neighbour, each can be named, and no two chassis get names equal up to case |
| `LeafLinks.LinkFields` | topology_agent/agent.go:176-193 | each link carries its neighbour's interface, chassis and port, its selection's bond (direct by default) and its chassis' name |
| `LeafLinks.SameNameExactly` | topology_agent/agent.go:167-193 | two links carry leaf names equal up to case if and only if they come from one chassis |
| `LeafLinks.Normalize` | topology_agent/pkg/topologyfacts/facts.go:41-76 | succeeds exactly for complete links; keeps the last link of each key and exactly the leaves of those kept |
| `LeafLinks.LeavesKeptExactly` | topology_agent/pkg/topologyfacts/facts.go:49-57 | merging links loses no leaf, whatever interfaces and ports, if and only if no leaf name continues another with a NUL |
| `LeafLinks.WithoutNulApart` | topology_agent/pkg/topologyfacts/facts.go:49 | in particular names without NUL are told apart |
| `LeafLinks.LeafCountIsChassisCount` | topology_agent/pkg/topologyfacts/facts.go:86-89 | the published leaf-count is the number of distinct external chassis if and only if merging lost no leaf name, and it is never more |

## Left out

- TrackedDemandNeverIdle: states that something is left to run, not that it runs in time; delays, back-off lengths and a full event channel are not modelled.
- StaleIdentityNeverActs: does not say that no stale grant is written; the last read and the apply are separate steps in prc_controller.go.
- Shutdown: the protocol's runs end before shutdown; the class method covers what shutdown does to the tables.
- CallsGetTheirOwnAnswers: the message id is an unbounded number, so the wrap-around of the 64-bit counter is not modelled.
- AssignLeafDomains: an unclean leaf id lends its own text to the block of a single leaf; which of several such ids does depends on the scan order and is left open.
- BuildCache: starts from scopes indexed by id, so duplicate scope ids, the version text, YAML decoding, leaf metrics and the counters of the status page are not modelled.
- NodeLeafIds: the fields that repeat the first id are not modelled.
- LabelsSelectProvidingLeaves: leaves out a leaf without a leaf domain, which only an id with surrounding blanks or the empty id can leave behind; LabelsSelectExactly includes it.
- AnswerIsAccepted: a Node without a domain at the narrowest level is answered only where no group of that level is feasible, so what its name decides depends on the resources; OnlyNamesDecide covers every answer.
- ExecuteScore: takes the numeric scores as functions of Node and group, so weights, rounding and the metric requirements are not modelled; the groups must name one Node by one UID, as staticCache.put guarantees.
- ValidateResponse: group scores are reals, and error texts are not told apart.
- Calculate: takes the Nodes as joined, with their domain texts; NodeResolution and RequiredSame cover the join, and the text of a domain id is a parameter there.
- AllocationIsAccepted: covers the schedulerState path; with explicit nodeUsageStates a Node without an entry is eligible and may be unknown to the controller.
- Put: request bodies are values, so that the code rewrites the leaf fields of the uploaded map in place is not modelled.
- UsedAnswersAreGenuine: a restarted controller forgets its confirmation but may still take answers to earlier asks, which allows more than the code does.
- Bind: the texts of the warnings are not modelled, only whether there are any.
- ParseFrame: identifiers and addresses are kept as decoded values; their rendering as text, such as colon notation, is not modelled, and capability names are the bits that select them.
- Label-selector expressions, resource quantity parsing and the request that a minimum must not exceed its quota are not modelled.
- HTTP handlers, JSON, logging, evidence files, flags, leader election, server-side apply, Prometheus fetching, raw sockets and Bond discovery are plumbing with no property of their own.
