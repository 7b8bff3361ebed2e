# Verified model of KAI resource management

This project models the decisions of the KAI resource management controllers in Dafny and proves what
they keep over whole runs. `dafny verify dfyconfig.toml` checks everything. The API server is a finite map
of objects; a reconcile, an admission call or a controller's sub-step is one atomic step; schedulers,
administrators and the phases of node pools take arbitrary steps in between.

| part | modules |
|---|---|
| Optional values | `Wrappers` |
| Department tree and its admission | `Forest`, `Hierarchy`, `Admission` |
| Queue trees that mirror it | `Queues`, `DepartmentQueues`, `QueueConvergence`, `ExternalQueues`, `QueueFates` |
| Assignment of pod groups to node pools | `AssignmentParams`, `PodGroups`, `PodGroupAssigner` |
| Node pools in pod affinity, and back | `Strings`, `Affinity`, `NodePoolNames`, `PoolRoundTrip` |
| Relabelling, draining and deleting node pools | `Nodes`, `NodeCordons`, `CountedPods`, `NodeDrain`, `PoolDeletion`, `TwoControllers` |
| Shards: args, settings and migration | `ShardArgs`, `ShardSettings`, `ShardMigration` |

Code that updates objects step by step is a class or a method with loops, proved equal to a function on
values; the theorems are about those functions and about runs of them.

Main results:

- Admission keeps the department tree closed, loop-free and at most seven levels deep at every point of a run
  if and only if each delete hits a department that carries its finalizer or has no children; the parent
  check is exact, and loops never appear in any run.
- Department reconciles never make a queue loop on any graph, and seven passes in any order bring the queue
  trees to mirror the department tree, after which nothing changes.
- Round-robin assignment is fair, and silent failures go down the list and are fewer than the requested pools
  on every run if and only if the pod group arrives without a pool label or on a requested pool other than the
  last.
- The affinity rewriting is an AND distributed over an OR, and reading it back gives the project's pools.
- Where pods on a node that share a pod group name share a namespace, no step of the controllers ever takes a
  node away from under a pod that counts, and over a run every pod that counts is on a node of its own pool if
  and only if no other event makes a pod count elsewhere.
- A dropped finalizer means an unused pool, on every cluster.
- Two controllers move a node at most twice, the settled labels are exactly those no step changes, and two
  rounds of all sub-steps settle every node.
- A migration stopped anywhere, any number of times, ends where one full run would.

Properties that do not hold of the code as it stands, each with its failing inputs and the exact condition:

- Silent failures: `PodGroups.LastPoolFirst` and `PodGroups.UnlistedPoolFirst` give the failing runs,
  `PodGroups.OrderlyIffAhead` the condition on the label the pod group arrives with.
- Draining: pods are grouped by the pod group's name alone, so a pod can be judged by a group of another
  namespace and be missed. `PoolDeletion.ForeignNameBreaksDrain` gives the failing steps,
  `CountedPods.AnswerIsExactIff` and `PoolDeletion.EvictionIsSafeIff` the condition.
- A pod group may come back to the pool of a pod of it that is still bound, after the pod's node has left that
  pool: `PoolDeletion.GroupComingBackBreaksDrain` gives the failing run, `NodeDrain.SetGroupIsSafeIff` and
  `NodeDrain.DrainedIffHarmless` the condition.
- A move of a node is two patches: `NodeDrain.BindBetweenPatchesBreaksDrain` gives the failing run,
  `NodeDrain.LabelPatchIsSafeIff` the condition.
- Cordons: the cordon of a node that is only to be excluded from the managed set is undone by the node's own
  pool. `PoolDeletion.ExclusionCordonIsUndone` gives the failing run, `PoolDeletion.CordonHoldsIff` the condition.
- Migrated args: the hook lets cluster args override the worker label args, the controller does the opposite.
  `ShardSettings.ArgsKeptIff` gives the condition, with a lost arg in its proof.
- Deleting without a finalizer: `Admission.BareDeleteBreaksDepth` gives a failing run,
  `Admission.SoundIffHarmless` the condition.
- Empty selector terms: `Affinity.EmptyTermComesAlive` gives the failing nodes, `Affinity.ConjunctionIff` the
  condition.

## Model

| member | source | states |
|---|---|---|
| `Hierarchy.Ancestors` | pkg/project-controller/hierarchy/tree.go:25-39 | the list is the chain of parents, distinct and within the limit; the loop flag is set if and only if the walk returns to the start within the limit; a chain that ends early proves there is no loop through the start, even if the walk circles elsewhere |
| `Hierarchy.CircleElsewhere` | pkg/project-controller/hierarchy/tree.go:25-39 | a walk that meets an earlier stop again without meeting its start never comes back to the start |
| `Hierarchy.StoppedMeansNoLoop` | pkg/project-controller/hierarchy/tree.go:25-39 | a chain that stopped short of its start, at a missing or repeated name, proves the start is on no loop |
| `Hierarchy.ChildIndex` | pkg/project-controller/hierarchy/tree.go:41-47 | the index lists exactly the departments that name each parent |
| `Hierarchy.NextLevel` | pkg/project-controller/hierarchy/tree.go:48-61 | off loops, one round collects exactly the departments one level further down |
| `Hierarchy.Height` | pkg/project-controller/hierarchy/tree.go:41-62 | the level-by-level count equals the recursive height capped at the limit, for every start that is on no loop |
| `Hierarchy.CountIsExact` | pkg/project-controller/webhooks/validation/department.go:57-76 | levels above plus height exceed the limit exactly when some department at or below gets too deep |
| `Hierarchy.ValidateParent` | pkg/project-controller/webhooks/validation/department.go:43-77 | which error is reported and when; an accepted parent closes no loop on any tree; on a loop-free tree acceptance is exact |
| `Hierarchy.LoopFreeAfter` | pkg/project-controller/webhooks/validation/department.go:57-70 | re-parenting without a loop through the moved department makes no loop at all |
| `Admission.DepartmentRegistry.Create` | pkg/project-controller/webhooks/validation/department.go:26-77 | the registry takes the model's create step; it is admitted exactly when the name is new and the parent allowed; else nothing changes |
| `Admission.DepartmentRegistry.SetParent` | pkg/project-controller/webhooks/validation/department.go:26-41 | a write is admitted exactly when the parent is unchanged or allowed; then the parent is written, else nothing changes; loops never appear |
| `Admission.DepartmentRegistry.Finalize` | pkg/project-controller/reconcilers/department_reconciler.go:124-171 | a department goes only when no project and no department refers to it, and the answer says whether it went |
| `Admission.StepKeepsLoopFree` | pkg/project-controller/webhooks/validation/department.go:26-77 | every admitted write, deletion or finalization keeps the tree loop-free |
| `Admission.NeverALoop` | pkg/project-controller/webhooks/validation/department.go:26-77 | no run ever makes a loop, with or without finalizers |
| `Admission.AllowedKeepsSound` | pkg/project-controller/webhooks/validation/department.go:43-77 | an allowed write keeps every parent present, the tree loop-free and every department within seven levels |
| `Admission.LeafRemovalKeepsSound` | pkg/project-controller/reconcilers/department_reconciler.go:124-171 | removing a department nobody names as parent keeps the tree sound |
| `Admission.StepKeepsSound` | pkg/project-controller/webhooks/validation/department.go:26-77 | each step keeps the tree sound, unless it deletes a department that lacks its finalizer and has children |
| `Admission.SoundIffHarmless` | pkg/project-controller/reconcilers/department_reconciler.go:91-171 | a run from a sound registry is sound at every point (every named parent exists, no loop, at most seven levels) if and only if each delete hits a department that carries its finalizer or has no children |
| `Admission.AdmissionInvariant` | pkg/project-controller/webhooks/validation/department.go:26-77 | so it ends sound, in particular over every run in which departments carry their finalizer before they are deleted |
| `Admission.CheckIsExact` | pkg/project-controller/webhooks/validation/department.go:57-76 | on a sound tree the parent check accepts if and only if the whole resulting tree is loop-free and within the limit |
| `Admission.WritesTakeEffectIff` | pkg/project-controller/webhooks/validation/department.go:26-77 | on a sound registry a create or a new parent takes effect exactly when the parent is empty, or exists, stays and leaves the tree loop-free and within the limit; an unchanged parent always does; nothing else of the registry changes |
| `Admission.FinalizeWaits` | pkg/project-controller/reconcilers/department_reconciler.go:124-171 | a department goes exactly when it is being deleted, carries the finalizer, and no project and no child names it |
| `Admission.BareDeleteBreaksDepth` | pkg/project-controller/webhooks/validation/department.go:44-47 | what stranding can lead to: for every full-depth sound tree whose top department lacks its finalizer, a three-step run ends at level eight |
| `Queues.OwnedQueue` | pkg/project-controller/handlers/queue_utils.go:254-268 | a queue found is of the pool and owned by the UID |
| `Queues.OwnedQueueMissesNone` | pkg/project-controller/handlers/queue_utils.go:254-268 | if the owner has a queue for the pool, one is found |
| `Queues.OwnedQueueIsFirst` | pkg/project-controller/handlers/queue_utils.go:254-268 | and it is the first listed one |
| `Queues.EntryForIsFirst` | pkg/project-controller/handlers/queue_utils.go:212-252 | the entry used for a pool is the first one in the list |
| `Queues.WouldCloseLoop` | pkg/project-controller/handlers/queue_utils.go:272-293 | on any graph, loops and dangling parents included, the walk ends and answers exactly whether the placement would put the queue on a loop |
| `Queues.NeverMet` | pkg/project-controller/handlers/queue_utils.go:272-293 | once the walk repeats a queue it can stop: it would meet nothing new |
| `Queues.DeleteUnnecessary` | pkg/project-controller/handlers/queue_utils.go:301-328 | deleting one by one, in any order, removes exactly the queues the spec no longer asks for |
| `DepartmentQueues.DepartmentHandler.HoldAsRootOnLoop` | pkg/project-controller/handlers/departments_handler.go:118-137 | the parent is the wanted one unless it is new and closes a loop, then none |
| `DepartmentQueues.DepartmentHandler.ReconcileQueue` | pkg/project-controller/handlers/departments_handler.go:91-149 | the queues, the name and the held flag after one entry are the model's |
| `DepartmentQueues.DepartmentHandler.Handle` | pkg/project-controller/handlers/departments_handler.go:49-89 | a whole reconcile, entries then pruning, yields the model's queues and held flag |
| `DepartmentQueues.PlacingAddsNoLoop` | pkg/project-controller/handlers/departments_handler.go:118-137 | one placement puts no queue on a loop that was not on one |
| `DepartmentQueues.ReconcileAddsNoLoop` | pkg/project-controller/handlers/departments_handler.go:91-137 | one entry adds no loop, on any graph |
| `DepartmentQueues.HandleAddsNoLoop` | pkg/project-controller/handlers/departments_handler.go:49-89 | a whole reconcile adds no loop, on any graph |
| `DepartmentQueues.RunAddsNoLoop` | pkg/project-controller/handlers/departments_handler.go:49-149 | reconciles in any number and order add no loop |
| `QueueConvergence.FindsItsQueue` | pkg/project-controller/handlers/departments_handler.go:181-196 | with one queue per entry, a department finds exactly its own |
| `QueueConvergence.FindsItsParent` | pkg/project-controller/handlers/queue_utils.go:212-252 | and exactly its parent department's queue for the same pool |
| `QueueConvergence.OnlyQueuesAbove` | pkg/project-controller/handlers/departments_handler.go:91-137 | above a placed queue there are only queues of departments at or above its own |
| `QueueConvergence.NotHeld` | pkg/project-controller/handlers/departments_handler.go:118-137 | with the upper levels in place, a queue of the next level is not held as root |
| `QueueConvergence.HandlePlaces` | pkg/project-controller/handlers/departments_handler.go:49-137 | a reconcile undoes nothing in place and, once the levels above are done, finishes its department |
| `QueueConvergence.PassGainsALevel` | pkg/project-controller/handlers/departments_handler.go:49-137 | a pass over all departments, in any order, finishes one more level |
| `QueueConvergence.ConvergesLevelByLevel` | pkg/project-controller/handlers/departments_handler.go:49-137 | from any queue parents, after k passes every department of level at most k has its queues in place |
| `QueueConvergence.SettledStays` | pkg/project-controller/handlers/departments_handler.go:49-137 | in a settled cluster a reconcile changes nothing and holds nothing as root |
| `QueueConvergence.ConvergesAndStays` | pkg/project-controller/hierarchy/tree.go:10 | with at most seven levels, seven passes settle the cluster for good |
| `QueueConvergence.SettledMirrors` | pkg/project-controller/handlers/queue_utils.go:212-252 | settled means: each queue is under its parent department's queue for the same pool, or at the root if there is none |
| `ExternalQueues.ExistingQueue` | pkg/project-controller/handlers/queue_utils.go:460-489 | a queue taken as the project's own is never external to it |
| `ExternalQueues.ProjectHandler.ReconcileQueue` | pkg/project-controller/handlers/queue_resource_handler.go:89-126 | one entry of a project yields the model's queues |
| `ExternalQueues.ProjectHandler.Handle` | pkg/project-controller/handlers/queue_resource_handler.go:47-87 | a whole project reconcile yields the model's queues |
| `ExternalQueues.ProjectHandler.OnDelete` | pkg/project-controller/handlers/deletion/queue_deletion_handler.go:42-68 | deleting a project removes exactly the queues the model says |
| `ExternalQueues.PruningKeepsOthers` | pkg/project-controller/handlers/queue_utils.go:301-328 | pruning touches no queue its actor does not own |
| `ExternalQueues.ActKeepsOthers` | pkg/project-controller/handlers/queue_utils.go:102-167 | with external queues allowed, no act changes or deletes a queue its actor does not own |
| `ExternalQueues.ExternalQueuesUntouched` | pkg/project-controller/handlers/queue_utils.go:102-167 | a queue owned by nobody who acts survives every run unchanged, while departments and projects come, go and change |
| `QueueFates.DepartmentPrunes` | pkg/project-controller/handlers/queue_utils.go:301-328 | a queue the turn did not reconcile is deleted if and only if it carries the department's label, has an owner of kind Department and, where there are external queues, is owned by this department; otherwise it is unchanged |
| `QueueFates.ReconciledQueuesStay` | pkg/project-controller/handlers/departments_handler.go:49-89 | every queue the turn reconciled is there afterwards |
| `QueueFates.ProjectQueuesSurvive` | pkg/project-controller/handlers/queue_utils.go:301-328 | a queue without a Department owner that this department does not own is unchanged by its reconcile, whatever its labels: a department never deletes its projects' queues |
| `QueueFates.DepartmentEntryWrites` | pkg/project-controller/handlers/departments_handler.go:91-179 | the labels, the owner and each spec field an entry writes; its parent is the wanted one, or none exactly when the queue would have to move there and close a loop, and only then is it reported as held; a generated name that is taken is left to its holder |
| `QueueFates.TurnReports` | pkg/project-controller/handlers/departments_handler.go:49-89 | entry after entry, the turn adds the queue it reconciled and reports the department as held exactly when that queue would close a loop |
| `QueueFates.DepartmentQueueIs` | pkg/project-controller/handlers/queue_utils.go:212-252 | which queue of a department something sits under, told by its spec, its owners and the listing |
| `QueueFates.QueueNameIs` | pkg/project-controller/handlers/queue_utils.go:43-51 | the name a spec gives to a queue |
| `QueueFates.ProjectPrunes` | pkg/project-controller/handlers/queue_utils.go:301-328 | the same exact condition for projects |
| `QueueFates.ByLabelsIsFirst` | pkg/project-controller/handlers/queue_utils.go:378-415 | the search by label finds the first listed queue that is the project's for the pool by its labels and owners, and none if there is none |
| `QueueFates.TakenIff` | pkg/project-controller/handlers/queue_utils.go:334-376 | exactly when a queue under the suggested name may not be taken over |
| `QueueFates.ExistingQueueIs` | pkg/project-controller/handlers/queue_utils.go:460-489 | the queue of an entry is the one found by label, else the one under the suggested name if it may be taken over |
| `QueueFates.ProjectEntryWrites` | pkg/project-controller/handlers/queue_resource_handler.go:89-158 | the labels, the owner and the spec an entry of a project writes, with the parent being the queue of its department for the pool; every other queue is unchanged |
| `QueueFates.OverriddenIff` | pkg/project-controller/handlers/deletion/queue_deletion_handler.go:42-68 | a queue counts as taken over by hand exactly when its label says "true" in any case of letters |
| `QueueFates.ProjectDeletionIs` | pkg/project-controller/handlers/deletion/queue_deletion_handler.go:42-68 | deleting a project deletes exactly the queues with its label that are not external and not taken over by hand |
| `QueueFates.DepartmentQueuesSurvive` | pkg/project-controller/handlers/queue_utils.go:301-328 | a project reconcile leaves every queue owned by a department and by no project unchanged |
| `AssignmentParams.IndexOfElement` | pkg/pod-group-assigner/controllers/podgroup/assignment_params/nodepool_assignment_params.go:75 | in a list without duplicates every pool is found at its own place |
| `AssignmentParams.RoundIsRemainder` | pkg/pod-group-assigner/controllers/podgroup/assignment_params/nodepool_assignment_params.go:78 | the model's way of going round is the remainder for every position that comes up |
| `AssignmentParams.GetInitial` | pkg/pod-group-assigner/controllers/podgroup/assignment_params/nodepool_assignment_params.go:109-151 | the first candidate, its mark and backoff are the model's |
| `AssignmentParams.FindNext` | pkg/pod-group-assigner/controllers/podgroup/assignment_params/nodepool_assignment_params.go:70-107 | the search round the list yields the model's next pool, mark or error |
| `AssignmentParams.GetParams` | pkg/pod-group-assigner/controllers/podgroup/assignment_params/nodepool_assignment_params.go:26-68 | the whole decision is the model's |
| `AssignmentParams.DecisionIsNextRound` | pkg/pod-group-assigner/controllers/podgroup/assignment_params/nodepool_assignment_params.go:26-151 | after a failure the choice is the first pool in cyclic order after the failed one, itself last, that is available; the condition is removed exactly when that is the failed one again |
| `AssignmentParams.DecisionMarks` | pkg/pod-group-assigner/controllers/podgroup/assignment_params/nodepool_assignment_params.go:70-151 | after a failure the mark is on exactly when it was on or unset, the next place is the last, or the search reached the last place or went round; the backoff is infinite exactly for one requested pool |
| `AssignmentParams.DecisionWithoutFailure` | pkg/pod-group-assigner/controllers/podgroup/assignment_params/nodepool_assignment_params.go:109-136 | without a failure a requested and available current pool is kept; else the choice is the first available pool in cyclic order, from the current one if requested and from the front if not; mark and backoff exactly |
| `AssignmentParams.StatusIs` | pkg/pod-group-assigner/controllers/utils/nodepool_utils.go:53-64 | which phases of a pool take groups |
| `AssignmentParams.FailsOnlyWhenNoneAvailable` | pkg/pod-group-assigner/controllers/podgroup/assignment_params/nodepool_assignment_params.go:48-107 | the decision is an error if and only if no requested pool is available |
| `PodGroups.SilentDecision` | pkg/pod-group-assigner/controllers/podgroup/assignment_params/nodepool_assignment_params.go:70-151 | a decision that leaves failure silent moves strictly down the list and never to its end |
| `PodGroups.StepKeepsInv` | pkg/pod-group-assigner/controllers/podgroup/assigner/pod_group_assigner.go:109-139 | reconciles and failures keep the pod group invariant, and the mark never turns off |
| `PodGroups.EligibleIff` | pkg/pod-group-assigner/controllers/podgroup/assigner/pod_group_assigner.go:109-139 | a group is up for assignment exactly when it may be retried and nothing failed it, its own pool failed it last, or its own pool cannot take it |
| `PodGroups.AssignmentWrites` | pkg/pod-group-assigner/controllers/podgroup/assigner/pod_group_assigner.go:208-291 | an assignment leaves the group on the decided pool with that pool's queue, mark and backoff, touches no label but the pool's and the queue's, and removes only pool failure reports, only when decided |
| `PodGroups.VisibleForGood` | pkg/pod-group-assigner/controllers/podgroup/assignment_params/nodepool_assignment_params.go:126-144 | once failure is visible it stays visible over every run |
| `PodGroups.SilentFailuresGoUp` | pkg/pod-group-assigner/controllers/podgroup/assignment_params/nodepool_assignment_params.go:70-151 | the list positions of silently failed pools strictly increase and never reach the last one |
| `PodGroups.SilentAttemptsAreBounded` | pkg/pod-group-assigner/mutators/podgroup/pod_group_mutator.go:83-97 | from admission on, with phases changing arbitrarily, a group that arrives without a pool label or on a requested pool other than the last fails silently fewer times than it requests pools, strictly down the list, and the mark is on whenever the last pool is assigned |
| `PodGroups.LastPoolFirst` | pkg/pod-group-assigner/controllers/podgroup/assignment_params/nodepool_assignment_params.go:116-136 | every group admitted on the last requested pool has a run in which silent failures go back up the list |
| `PodGroups.UnlistedPoolFirst` | pkg/pod-group-assigner/controllers/podgroup/assignment_params/nodepool_assignment_params.go:138-150 | every group admitted on a pool it does not request has a run with as many silent failures as requested pools |
| `PodGroups.OrderlyIffAhead` | pkg/pod-group-assigner/mutators/podgroup/pod_group_mutator.go:83-97 | on every run silent failures go strictly down the list and are fewer than the requested pools, if and only if the group arrives without a pool label or on a requested pool other than the last |
| `PodGroups.VisitsAhead` | pkg/pod-group-assigner/controllers/podgroup/assignment_params/nodepool_assignment_params.go:48-151 | repeated failures visit the available places ahead in list order, each once |
| `PodGroups.RoundIsFair` | pkg/pod-group-assigner/controllers/podgroup/assignment_params/nodepool_assignment_params.go:48-151 | as many failures and reassignments as there are available pools assign each available pool exactly once |
| `PodGroupAssigner.PodGroupObject.RemoveOnPoolConditions` | pkg/pod-group-assigner/controllers/podgroup/assigner/pod_group_assigner.go:277-291 | exactly the conditions about failing on a pool are removed, the others keep their order |
| `PodGroupAssigner.Assigner.RequestedFor` | pkg/pod-group-assigner/controllers/podgroup/assigner/pod_group_assigner.go:335-357 | the remembered list if there is one, else the list worked out now, which is then remembered |
| `PodGroupAssigner.Assigner.Forget` | pkg/pod-group-assigner/controllers/podgroup/assigner/pod_group_assigner.go:316-333 | every remembered list is forgotten |
| `PodGroupAssigner.Assigner.Update` | pkg/pod-group-assigner/controllers/podgroup/assigner/pod_group_assigner.go:208-275 | labels, queue, mark, backoff and conditions become the model's |
| `PodGroupAssigner.Assigner.Run` | pkg/pod-group-assigner/controllers/podgroup/assigner/pod_group_assigner.go:64-107 | one reconcile is the model's, and other groups' lists are left alone |
| `PodGroupAssigner.AssigningKeepsList` | pkg/pod-group-assigner/controllers/common/common.go:44-50 | assigning a group to a pool of its list leaves the list worked out from it unchanged |
| `PodGroupAssigner.ListNeverChanges` | pkg/common/node-pool-utils/converter/converter.go:32-82 | with pods and pools unchanged, the list worked out after any run is the first one |
| `PodGroupAssigner.ForgettingIsSafe` | pkg/pod-group-assigner/controllers/podgroup/assigner/pod_group_assigner.go:316-357 | remembering the list, and forgetting it at any point of any run, never changes a decision |
| `Affinity.PodSpec.AddNodeAffinity` | pkg/pod-group-assigner/mutators/pod/affinity.go:14-52 | the nested loops replace the terms by the distributed ones and leave the preferred terms alone |
| `Affinity.NarrowedMeans` | pkg/pod-group-assigner/mutators/pod/affinity.go:35-51 | a narrowed term holds exactly when the addition holds and the term does without its expressions on that key |
| `Affinity.DistributedMeans` | pkg/pod-group-assigner/mutators/pod/affinity.go:35-51 | the distributed selector matches exactly when some addition and some old term, with clashing expressions dropped, both hold |
| `Affinity.RewrittenMeans` | pkg/pod-group-assigner/mutators/pod/affinity.go:14-52 | the exact meaning of the rewritten selector for all terms, empty and clashing ones included |
| `Affinity.RewritingIsConjunction` | pkg/pod-group-assigner/mutators/pod/affinity.go:14-52 | without empty terms and key clashes: the old selector, if any, AND some addition |
| `Affinity.ConjunctionIff` | pkg/pod-group-assigner/mutators/pod/affinity.go:14-52 | without key clashes the rewriting is that conjunction on a node if and only if no old term is empty, or the node matched before, or it meets no addition |
| `Affinity.EmptyTermComesAlive` | pkg/pod-group-assigner/mutators/pod/affinity.go:35-51 | for every list with an empty term whose other terms each ask for some label, a node with just the label of the first addition does not match before and matches after |
| `Affinity.EmptyTermMayBeHidden` | pkg/pod-group-assigner/mutators/pod/affinity.go:35-51 | an empty term does no harm where every node already matches another term |
| `NodePoolNames.NodePoolsMap` | pkg/common/node-pool-utils/utils/utils.go:51-70 | the two-level table answers as the list of pools does for every label pair, and the deleting set is exact |
| `NodePoolNames.RemoveDuplicates` | pkg/common/node-pool-utils/utils/utils.go:72-82 | first occurrences in order |
| `NodePoolNames.UniqueHas` | pkg/common/node-pool-utils/utils/utils.go:72-82 | removing duplicates keeps exactly the same elements |
| `NodePoolNames.UniqueIsDistinct` | pkg/common/node-pool-utils/utils/utils.go:72-82 | and leaves none twice |
| `NodePoolNames.AppendNamesFor` | pkg/common/node-pool-utils/converter/converter.go:132-181 | exactly the pools an expression names are appended, and the flag says whether there were any |
| `NodePoolNames.Convert` | pkg/common/node-pool-utils/converter/converter.go:84-130 | the loops over terms and expressions compute the model's list or error |
| `NodePoolNames.PairIsLast` | pkg/common/node-pool-utils/utils/utils.go:51-70 | the pool for a label pair is the last listed one with it |
| `NodePoolNames.ConvertedAre` | pkg/common/node-pool-utils/converter/converter.go:84-181 | for every affinity, a name is read from it if and only if some term asks for it in its first expression that asks for any: the default pool through an absent pool label, or a pool not being deleted whose label pair it lists with In; it fails exactly when there are terms and no pools |
| `NodePoolNames.SetNodeAffinity` | pkg/pod-group-assigner/mutators/pod/node_pools.go:158-177 | the pod's affinity becomes the model's, and it fails exactly when a listed pool cannot be found |
| `NodePoolNames.RequirementIs` | pkg/pod-group-assigner/mutators/pod/node_pools.go:179-207 | what stands for a pool: an absent label for the default pool, else the pair of the first pool of the name, nothing for one being deleted, an error if there is none |
| `NodePoolNames.AsksItselfIff` | pkg/pod-group-assigner/mutators/pod/node_pools.go:86-156 | exactly when a pod counts as asking for a pool itself |
| `NodePoolNames.MutationLeavesAlone` | pkg/pod-group-assigner/mutators/pod/node_pools.go:34-84 | labels and annotations never change; a pod without pool label is unchanged if its project has no defaults or it asks for a pool itself; so is one labelled with a pool that does not exist |
| `NodePoolNames.LabelledPodGetsItsPool` | pkg/pod-group-assigner/mutators/pod/node_pools.go:43-53 | a pool label decides over the pod's terms and the project's defaults |
| `PoolRoundTrip.Requested` | pkg/common/node-pool-utils/converter/converter.go:32-82 | a list that is returned is never empty |
| `PoolRoundTrip.RequestedFrom` | pkg/common/node-pool-utils/converter/converter.go:32-82 | the order of the sources: annotation, the pools the affinity asks for, pool label other than the sentinel, project defaults, default pool; and exactly when reading fails |
| `PoolRoundTrip.RequirementReadsBack` | pkg/pod-group-assigner/mutators/pod/node_pools.go:179-207 | the requirement written for a pool reads back as that pool alone |
| `PoolRoundTrip.ForeignReadsAsNone` | pkg/common/node-pool-utils/converter/converter.go:132-181 | an expression the mutator does not take for a pool reads as no pool |
| `PoolRoundTrip.RewrittenReadsBack` | pkg/pod-group-assigner/mutators/pod/affinity.go:14-52 | reading the distributed terms gives the added pools, in order of first occurrence |
| `PoolRoundTrip.UsableAre` | pkg/pod-group-assigner/mutators/pod/node_pools.go:158-207 | the pools written are the default pool and the existing ones not being deleted |
| `PoolRoundTrip.MutateThenConvert` | pkg/pod-group-assigner/mutators/pod/node_pools.go:34-84 | applying the project's pools and reading them back gives exactly the ones not being deleted, in order, without duplicates, whatever other affinity the pod had |
| `Nodes.Patched` | pkg/nodepool-controller/nodepool_controller/node_handler.go:310-321 | a merge patch as in section 2 of RFC 7396: null removes a key, a value sets it, other keys stay |
| `Nodes.UpdateUnschedulable` | pkg/nodepool-controller/nodepool_controller/node_status_handler.go:82-111 | cordoning marks the node as ours; uncordoning leaves a cordon that is not ours |
| `Nodes.UpdatePoolLabel` | pkg/nodepool-controller/nodepool_controller/node_handler.go:63-91 | the pool label names the pool, or is absent for the default pool |
| `Nodes.References` | pkg/nodepool-controller/nodepool_controller/project_reference_handler.go:22-43 | true if and only if some project holds a queue for the pool |
| `Nodes.Controller.RunsPods` | pkg/nodepool-controller/nodepool_controller/node_status_handler.go:113-169 | whether the filter leaves any of the pods listed on the node with the pool's label, or with another |
| `Nodes.Controller.ChangeNodePool` | pkg/nodepool-controller/nodepool_controller/node_handler.go:38-57 | the node is cordoned if pods of its old pool run on it, else put back and relabelled; no other node changes |
| `Nodes.Controller.ValidateInPool` | pkg/nodepool-controller/nodepool_controller/node_status_handler.go:45-64 | the node is cordoned exactly while pods of other pools run on it |
| `Nodes.Controller.TakeStepOnNode` | pkg/nodepool-controller/nodepool_controller/nodepool_handler.go:25-223 | each of the reconcile sub-steps changes a node as the model says |
| `Nodes.Controller.TakeStep` | pkg/nodepool-controller/nodepool_controller/nodepool_reconciler.go:32-64 | a sub-step over the listed nodes, in any order, is the pointwise step |
| `Nodes.Controller.ManageNode` | pkg/nodepool-controller/managed-nodes-config/managed_nodes_config_handler.go:23-99 | the managed nodes controller, for all nodes or a single one, leaves unmanaged nodes alone, excludes, re-includes or only unmarks, as the model says |
| `Nodes.Controller.Finalize` | pkg/nodepool-controller/nodepool_controller/finalizer.go:39-78 | the finalizer is dropped exactly when every node that was in the pool is ready after eviction and no project refers to the pool |
| `NodeCordons.InPlaceCordons` | pkg/nodepool-controller/nodepool_controller/node_status_handler.go:45-64 | with local group names, a node in its matching pool is cordoned while a counted pod of another pool runs on it, and else only if someone else cordoned it; no drain invariant is assumed |
| `NodeCordons.InDefaultCordons` | pkg/nodepool-controller/nodepool_controller/nodepool_handler.go:123-166 | the same for nodes of the default pool that no pool claims |
| `NodeCordons.MovesCordonWhileBusy` | pkg/nodepool-controller/nodepool_controller/node_status_handler.go:23-43 | a node that a step wants to move is cordoned and keeps its pool exactly while counted pods of that pool run on it |
| `NodeCordons.ManagedMoveCordons` | pkg/nodepool-controller/managed-nodes-config/managed_nodes_config_handler.go:23-79 | the managed nodes controller does the same, and marks the node as waiting exactly when it is to be excluded and still busy |
| `NodeCordons.ManagedStayUnmarks` | pkg/nodepool-controller/managed-nodes-config/managed_nodes_config_handler.go:81-99 | a node it does not move keeps everything but the waiting mark of an included node |
| `NodeCordons.FirstAvailableIsFound` | pkg/nodepool-controller/nodepool_controller/node_handler.go:293-308 | the search takes the first listed pool that is not being deleted and whose label pair the node has |
| `NodeCordons.FirstOtherIsFound` | pkg/nodepool-controller/nodepool_controller/nodepool_handler.go:241-272 | and the first other one for a node of a pool being deleted |
| `CountedPods.GroupPods` | pkg/nodepool-controller/nodepool_controller/node_status_handler.go:171-180 | every group name with its listed pods in order |
| `CountedPods.FilterPods` | pkg/nodepool-controller/nodepool_controller/node_status_handler.go:171-206 | a pod is kept if and only if its pool label, or its absence, is that of the group found under the first listed pod's namespace |
| `CountedPods.KeptIsCounted` | pkg/nodepool-controller/nodepool_controller/node_status_handler.go:184-203 | a pod is judged by its own group, whatever groups exist, if and only if the first pod listed under the group's name shares its namespace |
| `CountedPods.AnswerIsExactIff` | pkg/nodepool-controller/nodepool_controller/node_status_handler.go:166-206 | the filter leaves some pod exactly when some pod counts, whatever groups exist, if and only if listed pods that share a group name share a namespace |
| `NodeDrain.SteppedLabel` | pkg/nodepool-controller/nodepool_controller/nodepool_handler.go:25-223 | where each sub-step takes the pool label: to its target at once, or nowhere while pods of the old pool run |
| `NodeDrain.AsksAboutItsPool` | pkg/nodepool-controller/nodepool_controller/node_status_handler.go:23-43 | every step that moves a node looks for pods of the very pool the node is in |
| `NodeDrain.SearchIsExact` | pkg/nodepool-controller/nodepool_controller/node_status_handler.go:144-206 | where group names are local to a namespace on each node, a search finds pods of a pool, or of others, exactly when a pod that counts is there, in any listing order |
| `NodeDrain.ReconcileKeepsDrained` | pkg/nodepool-controller/nodepool_controller/node_handler.go:38-57 | then every step of either controller keeps each pod that counts on a node of its own pool, and takes a node to another pool only when it holds no pod that counts |
| `NodeDrain.SetGroupIsSafeIff` | pkg/pod-group-assigner/controllers/podgroup/assigner/pod_group_assigner.go:267-275 | giving a pod group a pool label keeps the invariant if and only if every bound pod of the group with that label is on a node of its own pool |
| `NodeDrain.StepKeepsDrained` | pkg/nodepool-controller/nodepool_controller/node_handler.go:38-57 | one event, a controller's step, a bind, an end, or a change of a pod group, of a pod's label or of a node by anyone else, keeps the invariant if and only if it makes no pod count away from its own pool |
| `NodeDrain.DrainedIffHarmless` | pkg/nodepool-controller/nodepool_controller/node_handler.go:38-57 | over every run in which pods on a node that share a group name share a namespace, with pools, criteria, pod groups, labels and listing orders changing, every pod that counts is on a node of its own pool at every point if and only if every event is harmless in that sense; steps of the controllers, binds and ends always are |
| `NodeDrain.AlwaysDrained` | pkg/nodepool-controller/nodepool_controller/node_handler.go:38-57 | so it is after every such run of harmless events |
| `NodeDrain.PodPinsPool` | pkg/nodepool-controller/nodepool_controller/node_status_handler.go:23-43 | while a pod that counts in its own pool and its group are left alone, its node never changes pool, whatever happens to all other pods, pod groups and nodes |
| `NodeDrain.MoveIsTwoPatches` | pkg/nodepool-controller/nodepool_controller/node_handler.go:47-55 | a move of one node is putting it back and then labelling it, if nothing happens in between |
| `NodeDrain.LabelPatchIsSafeIff` | pkg/nodepool-controller/nodepool_controller/node_handler.go:47-55 | with the two patches of a move taken apart, the label patch keeps the invariant if and only if the node holds no pod that counts at that moment |
| `NodeDrain.BindBetweenPatchesBreaksDrain` | pkg/nodepool-controller/nodepool_controller/node_handler.go:47-55 | a pod of the old pool bound between the two patches breaks it |
| `PoolDeletion.CordonHoldsIff` | pkg/nodepool-controller/nodepool_controller/node_status_handler.go:23-64 | a draining node stays cordoned under every step of both controllers if and only if the node pool controller itself has it in the wrong pool |
| `PoolDeletion.ExclusionCordonIsUndone` | pkg/nodepool-controller/managed-nodes-config/managed_nodes_config_handler.go:36-49 | for every node in its right pool that is to be excluded, the pool's own reconcile undoes the cordon and a scheduler may bind again |
| `PoolDeletion.EvictedLeaves` | pkg/nodepool-controller/nodepool_controller/nodepool_handler.go:241-272 | an evicted node keeps the label exactly when pods of the pool run on it, and is ready exactly when it could leave |
| `PoolDeletion.DroppedMeansUnused` | pkg/nodepool-controller/nodepool_controller/finalizer.go:52-78 | on every cluster, however its pods are labelled and grouped: when the finalizer is dropped, no node carries the pool's name and no project refers to it |
| `PoolDeletion.DroppedIff` | pkg/nodepool-controller/nodepool_controller/nodepool_status_handler.go:221-270 | with the drain invariant and local group names, it is dropped if and only if every node of the pool holds no pod that counts, is healthy and not cordoned by others, and no project refers to the pool |
| `PoolDeletion.GroupComingBackBreaksDrain` | pkg/pod-group-assigner/controllers/podgroup/assigner/pod_group_assigner.go:416-427 | for every pod that counts alone with its group on a node: the group moves on, the node leaves the pool, and when the group comes back the pod counts on a node of another pool |
| `PoolDeletion.ForeignNameBreaksDrain` | pkg/nodepool-controller/nodepool_controller/node_status_handler.go:184-203 | for every node of the pool with two pods of one group name in two namespaces, and every listing, there are pod groups with which eviction moves the node away under a pod that counts |
| `PoolDeletion.EvictionIsSafeIff` | pkg/nodepool-controller/nodepool_controller/node_status_handler.go:166-206 | while every bound pod is in its own pool, eviction keeps the invariant, whatever pod groups and listing, if and only if on each node of the pool pods that share a group name share a namespace |
| `PoolDeletion.StaysUnused` | pkg/nodepool-controller/nodepool_controller/nodepool_controller.go:175-184 | until a pool of that name is available again, no run brings a node back to it |
| `TwoControllers.MovesTheUnstable` | pkg/nodepool-controller/nodepool_controller/nodepool_handler.go:25-223 | the node pool controller moves only nodes that are in no pool it is content with, never excluded or unmanaged ones |
| `TwoControllers.MovesToGood` | pkg/nodepool-controller/nodepool_controller/node_handler.go:293-308 | and it moves them to a pool that claims them, or to the default pool if none does |
| `TwoControllers.ActRank` | pkg/nodepool-controller/managed-nodes-config/managed_nodes_config_handler.go:23-79 | a step of either controller that changes the label brings the node closer to settled, any other leaves it as far |
| `TwoControllers.MovesWithinRank` | pkg/nodepool-controller/nodepool_controller/nodepool_handler.go:25-223 | over every interleaving the number of moves is within the starting distance |
| `TwoControllers.AtMostTwoMoves` | pkg/nodepool-controller/nodepool_controller/nodepool_handler.go:25-223 | any interleaving, with pools listed in any order each time, moves a node at most twice |
| `TwoControllers.SettledIsRankZero` | pkg/nodepool-controller/managed-nodes-config/managed_nodes_config_reconciler.go:100-122 | no step changes the label if and only if the node is unmanaged, or excluded as it should be, or included and in a right pool |
| `TwoControllers.SettledStays` | pkg/nodepool-controller/managed-nodes-config/managed_nodes_config_reconciler.go:100-122 | a settled label stays over every later run |
| `TwoControllers.RoundGains` | pkg/nodepool-controller/nodepool_controller/nodepool_handler.go:25-223 | a round in which every allowed sub-step is taken, in any order and with repeats, brings every unsettled node closer |
| `TwoControllers.SettlesInTwoRounds` | pkg/nodepool-controller/nodepool_controller/nodepool_handler.go:25-223 | two such rounds settle every node |
| `ShardArgs.Shard.MergeArgs` | pkg/nodepool-controller/operands/kai-scheduler/resources/scheduling_shard.go:88-105 | the args and the annotation after a merge are the model's |
| `ShardArgs.AnnotationReadsBack` | pkg/nodepool-controller/operands/kai-scheduler/resources/scheduling_shard.go:90-103 | the joined annotation splits back into the keys it was written from |
| `ShardArgs.MergedAllIs` | pkg/nodepool-controller/operands/kai-scheduler/resources/scheduling_shard.go:88-105 | the args after any sequence of merges, in closed form |
| `ShardArgs.OwnershipHolds` | pkg/nodepool-controller/operands/kai-scheduler/resources/scheduling_shard.go:88-105 | never-managed args are kept, managed ones that leave the desired set are dropped, the latest desired ones are set |
| `ShardArgs.MergingTwice` | pkg/nodepool-controller/operands/kai-scheduler/resources/scheduling_shard.go:88-105 | merging twice is merging once |
| `ShardSettings.ShardObject.WriteFrom` | pkg/nodepool-controller/operands/kai-scheduler/resources/scheduling_shard.go:57-86 | writing the pool's settings field by field yields the model's shard |
| `ShardSettings.CheckShardArgs` | pkg/helmhooks/migrate_shards.go:242-264 | accepted if and only if no arg conflicts with what the hook believes the controller sets |
| `ShardSettings.ArgsKeptIff` | pkg/nodepool-controller/operands/kai-scheduler/resources/scheduling_shard.go:204-214 | every accepted shard, tracked before or not, keeps all its args in the first reconcile if and only if cluster args and worker label args agree on the keys both set |
| `ShardSettings.ArgsComeFrom` | pkg/nodepool-controller/operands/kai-scheduler/resources/scheduling_shard.go:204-214 | an arg is built if and only if the config, the cluster or the worker label args set it, and the last of these that does wins |
| `ShardSettings.ShardGets` | pkg/nodepool-controller/operands/kai-scheduler/resources/scheduling_shard.go:57-105 | setting by setting what a reconcile writes into a shard: cluster and worker args are added, config args come next, foreign args of a tracked shard stay, all others go |
| `ShardSettings.UsageIs` | pkg/nodepool-controller/operands/kai-scheduler/resources/scheduling_shard.go:319-410 | usage queries that are set are kept and missing or empty ones get the pool's default |
| `ShardSettings.DefaultsFillGaps` | pkg/nodepool-controller/operands/kai-scheduler/resources/scheduling_shard.go:393-410 | filling in defaults changes no query that is set and no query without a default, and gives a missing or empty query its first default |
| `ShardSettings.QueriesComeBack` | pkg/nodepool-controller/operands/kai-scheduler/resources/scheduling_shard_config.go:50-110 | every non-empty usage query is kept, a missing one becomes KAI's own, no other query appears |
| `ShardMigration.DistinctTargets` | pkg/helmhooks/migrate_shards.go:151-172 | distinct pending shards never target the same node pool |
| `ShardMigration.Migrator.ShardsPerPartition` | pkg/helmhooks/migrate_shards.go:143-148 | every partition with exactly the shards that serve it |
| `ShardMigration.Migrator.CheckShard` | pkg/helmhooks/migrate_shards.go:151-192 | accepted if and only if every check of the plan passes for the shard |
| `ShardMigration.Migrator.Plan` | pkg/helmhooks/migrate_shards.go:135-202 | accepted if and only if nothing is pending or all checks pass |
| `ShardMigration.Migrator.Migrate` | pkg/helmhooks/migrate_shards.go:296-351 | the pool is written before the shard is handed over, and a stop in between leaves just the first |
| `ShardMigration.Migrator.MigrateShards` | pkg/helmhooks/migrate_shards.go:62-117 | refused if and only if the plan fails, and then nothing is written; stopped, every shard handed over has its pool; finished, the declared end state |
| `ShardMigration.Migrator.MigrateWithInterruptions` | pkg/helmhooks/migrate_shards.go:62-95 | stopped any number of times anywhere and run again, it ends where one full run would |
| `ShardMigration.StoppedRunResumes` | pkg/helmhooks/migrate_shards.go:135-202 | in every state a stop can leave, the checks pass again and the end state is the same |
| `ShardMigration.FinalIsFinal` | pkg/helmhooks/migrate_shards.go:62-95 | a finished migration has nothing pending and is left as it is |
| `ShardMigration.PendingIff` | pkg/helmhooks/migrate_shards.go:122-133 | which shards are migrated |
| `ShardMigration.RefusedIff` | pkg/helmhooks/migrate_shards.go:135-202 | the hook refuses exactly when some shard is pending and the partition label key differs, or one of the listed reasons applies to a pending shard |
| `ShardMigration.FinalPoolNames` | pkg/helmhooks/migrate_shards.go:62-117 | a finished migration has exactly the old pools, the pools of pending shards and, if ensured, the default pool |
| `ShardMigration.FinalKeepsOtherPools` | pkg/helmhooks/migrate_shards.go:99-117 | a pool of no pending shard is unchanged, and an ensured default pool that was absent is the given one |
| `ShardMigration.FinalPoolIsOldOrNew` | pkg/helmhooks/migrate_shards.go:322-351 | the pool of a pending shard is the old one with its identity and selector, or a new one that selects the shard's partition |
| `ShardMigration.FinalHandsOver` | pkg/helmhooks/migrate_shards.go:296-319 | in the end every pending shard is adopted and owned by its own pool; no other shard changes |
| `ShardMigration.FinalPoolFits` | pkg/helmhooks/migrate_shards.go:321-351 | and that pool, found or made, is the one the shard's owner reference names by name and UID, selects the shard's partition and carries its settings |

## Left out

- API failures, caches, informers, indexers, rate limiters and requeueing: reads see the current state, writes succeed, and each step is atomic.
- Nodes.Controller.ChangeNodePool: putting a node back into scheduling and relabelling it are two patches in the source and one step here and in the runs; NodeDrain.LabelPatchIsSafeIff says what happens between the two.
- NodeDrain.DrainedIffHarmless: group names are local to a namespace on each node, and schedulers bind only to uncordoned nodes of the pod's own pool.
- An administrator's cordon is not claimed to be kept: a node that must drain gets the controller's mark.
- Force deletion of pools on uninstall, which bypasses draining on purpose.
- TwoControllers.AtMostTwoMoves: the configuration is fixed, no pods drain, and no selector or criterion reads labels the controllers write, except a pool selecting its own name.
- QueueConvergence.ConvergesAndStays: each department owns exactly one queue per entry, under the name its spec gives, and none of them carries another department's label; creation of missing queues is only in the loop and ownership results.
- Generated queue names and their random suffix: a generated name is an arbitrary name given to the step; nothing is claimed about whose name it is when external queues are off.
- The fields inside queue resources, which are one opaque value; extra fields of owner references; foreign finalizers.
- PodGroupAssigner.Assigner.Run: the lock around the remembered lists, and the project source, which a pod group does not have.
- ShardArgs.MergedAllIs: results are written back each time, keys are free of commas and at least one arg is desired, as the worker label args guarantee; the order in which keys are listed is any fixed order instead of sorting.
- ShardSettings.QueriesComeBack: usage windows, durations, time stamps and the weight of historical usage are left out; whether the window can be read is a flag. The hook's worker label args are those of the controller.
- ShardMigration.Migrator.MigrateShards: the UID the API server gives to a new pool is a fixed one for each name, and pending shards are taken in any order instead of sorted.
- Topology constraints, NRT health, role bindings, limit ranges, namespaces, service monitors, node annotations, status messages and time stamps.
- The operator's operands and defaults, command line wiring, metrics and Helm assets.
