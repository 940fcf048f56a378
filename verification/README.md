# A verified model of the workflow engine

The repository drives coding agents through a workflow: a plan is validated, tasks run, a candidate is
frozen, verified, reviewed and approved, and its exact bytes are delivered. TypeScript is the shipping
control plane and the Rust crates are research; the hard logic is split between the two. This project
models both in Dafny and proves what the parts are there for, over every input, every run and every crash.

| part | files |
|---|---|
| fair admission queue | `AdmissionModel`, `AdmissionRepair`, `AdmissionBuilds`, `AdmissionFairness`, `AdmissionOrder`, `RuntimeAdmission` |
| bounded graph search | `GraphQuery` |
| task graphs and plans | `DependencyGraphs`, `PathScopes`, `TaskDags`, `TaskValidation`, `PlanScopes`, `Plans` |
| crash-recoverable delivery | `DeliverySteps`, `DeliveryReplay`, `DeliveryRecovery`, `DeliveryLanding`, `DeliveryGuarantees`, `DeliveryPromotion`, `DeliveryOutcomes`, `Delivery` |
| manifest diff and incremental index | `ManifestDiff`, `IndexWorkers`, `LikePatterns`, `ProjectIndexes`, `ProjectIndexer` |
| workflow machines and store | `Certification`, `CoreWorkflow`, `CoreWorkflowRuns`, `CoreWorkflowSuspension`, `ControlPlaneWorkflow`, `StoreModel`, `StoreRuns`, `StoreOutcomes`, `WorkflowStore` |
| frames, canonical bytes, hash chain | `Bytes`, `FrameDecoder`, `Digests`, `LedgerChain`, `CandidateManifests` |
| shared facts about sequences | `Sequences` |

`dafny verify dfyconfig.toml` checks everything.

Code that changes things step by step is modelled by classes and loops, each proved equal to a function of
the old state; the guarantees are lemmas about that function. What the model takes as a parameter: the clock,
the resource controller's decision in the admission queue, hash functions (a property that needs collision
freedom says so, and only for the inputs at hand), the platform's case folding, what reading a file gives,
the origins that `git status` reports for renames, and in an index run the digest and the extracted facts of a file as functions of its path and metadata.

## What the proofs turned up

- `commitCandidate` stages and commits in two steps. Killed between them, a delivery that removes a file never
  recovers: the path is in neither the working tree nor the index any more, `git add` refuses it
  (`src/evidence/delivery.ts:208`) and the row stays `written` (`StagedDeletionIsStuck`). A recovery succeeds, and
  then ends as an uninterrupted run, exactly when every path to be absent is still in the index it finds or nothing
  is left to commit (`RecoversExactlyIf`); a delivery recovers after every history of kills exactly when it removes
  nothing or is in the repository already (`AlwaysRecoversIff`). The same refusal meets an executor that staged a
  deletion itself, with no kill at all (`CompletesExactly`).
- `parseStatus` drops the origin of a rename, so after `git mv a b` the comparison passes with `b` alone and the
  delivered commit still holds `a`, which is gone from the working tree (`RenameLeavesItsOrigin`). A completed
  promotion leaves a tree equal to the commit exactly when no such origin was left out of the manifest and no
  temporary file has the name of a tracked one (`PromotedTreeIsClean`).
- A promotion never replaces bytes that the comparison listed (`ListedBytesSurvive`). It lists what differs from the
  index or the commit, so a manifest file that was put back to its committed state after approval is not listed, and
  the promotion overwrites it (`RevertIsOverwritten`); such files are exactly what it replaces (`ReplacedExactly`).
- A workflow that waits for one project and keeps asking for another is renewed where it is and never admitted. At
  the front of the rotation it keeps every other workflow of every project out as long as it does so
  (`MovedRequestBlocksAll`), and one deferred request is enough to get there (`DeferredRequestIsFirst`).
- The pop at `crates/workflowd/src/admission.rs:145` is an operand of `debug_assert_eq!`, so a release build
  skips it. Between two reaps the builds' states differ (`BuildsDifferBetweenReaps`); no sequence of calls can
  observe it, because the repair pass removes exactly the ghost entry.
- Replacing a scope in the stored file manifest deletes `LIKE 'scope/%'`, which takes nested scopes along and
  ignores ASCII case (`crates/workflow-code-intel/src/graph/store.rs:431-444`). The manifest of a run is therefore
  that of a rebuild exactly when no affected scope sweeps a file of an unaffected one (`ManifestComplete`). Losing
  an entry only makes its scope be indexed again, so current partitions are always right (`FreshAfterEveryHistory`),
  but when the file is deleted before that, its facts stay in the index for good (`SweepForgetsNestedScope`), until
  some path of that scope is forced (`ForcedIsRebuilt`): a run leaves no such facts exactly when every partition
  that would be stale is among the affected (`NoStaleAfterRunIff`). As long as sweeps stay home, a run leaves just
  what a rebuild would (`RebuiltAfterHomeHistory`).
- A file directly inside a top-level directory named `root` shares the scope of files without a directory, and only
  another spelling of that name, such as `Root`, sweeps it. So a run conflicts exactly when the scope `root` is
  affected, no other affected scope spells it in another case, and some listed file is still there directly inside
  such a directory (`ConflictsExactly`, `RootDirectoryFails`).
- `normalizeScope` trims white space after it has stripped slashes. It is not idempotent exactly when the scope has
  a slash or backslash, then at least one blank, then only slashes and backslashes to its end (`EndsWithSlashIff`,
  `NormalizeStable`), and exactly then it covers none of the paths below its directory (`CoversBelowIff`); `s/ /` is
  such a scope (`HiddenSlashSurvives`).
- `deliver_reserved_candidate` compares the reservation with the call but not with the workflow's current
  candidate. A workflow can be completed by delivering a candidate other than the certified one
  (`AnotherCandidateDelivered`); the delivered one is certified exactly when it was the workflow's current candidate
  while it was reserved (`ReservedIsCertifiedIff`). A reservation without a bound journal ends in a database error,
  not in a conflict.
- The candidate digest covers neither the candidate identifier nor the `executable` flags
  (`crates/workflow-core/src/candidate.rs:197-232`), so it pins every field but these.

## Model

| member | source | states |
|---|---|---|
| AdmissionRepair.RepairCoherent | crates/workflowd/src/admission.rs:172-204 | from any state, even a corrupted one, repair makes waiting requests, owners and queued workflows coincide, leaves no empty queue, and makes the rotation list every project once |
| AdmissionRepair.RepairFixpoint | crates/workflowd/src/admission.rs:172-204 | repair changes nothing exactly when the structures already agree |
| AdmissionRepair.RepairRemoveCommute | crates/workflowd/src/admission.rs:172-219 | removing a workflow and repairing commute in every state |
| AdmissionBuilds.ReapCleans | crates/workflowd/src/admission.rs:156-204 | after a reap of any state the structures agree and no expired lease or request is left |
| AdmissionBuilds.ReapIdempotent | crates/workflowd/src/admission.rs:156-204 | reaping twice at one time is reaping once |
| AdmissionBuilds.ReapKeepsRotationOrder | crates/workflowd/src/admission.rs:156-204 | surviving projects keep their order, missing ones follow in key order |
| AdmissionBuilds.DequeueAlike | crates/workflowd/src/admission.rs:140-154 | the pop that a release build skips leaves exactly one ghost entry, which repair removes |
| AdmissionBuilds.BuildsIndistinguishable | crates/workflowd/src/admission.rs:68-223 | from any state every sequence of calls gets the same answers from both builds, and a reap afterwards makes their states equal |
| AdmissionBuilds.BuildsDifferBetweenReaps | crates/workflowd/src/admission.rs:140-154 | the two states do differ before the next reap |
| AdmissionFairness.RunSound | crates/workflowd/src/admission.rs:68-223 | in every run queues repeat nobody, nobody waits and works at once, and the active set stays within its maximum |
| AdmissionFairness.ReachableIsSound | crates/workflowd/src/admission.rs:50-223 | the same of every state that calls reach from a new queue |
| AdmissionFairness.StepPosition | crates/workflowd/src/admission.rs:68-223 | no call raises the rotation position of a project that keeps a live request, and every admission of another lowers it |
| AdmissionFairness.BoundedBypass | crates/workflowd/src/admission.rs:68-223 | a project at position k waits for at most k admissions by others |
| AdmissionFairness.AdmissionTakesFront | crates/workflowd/src/admission.rs:81-120 | every admission takes the rotation's front, and the front request is refused only for capacity or by the controller |
| AdmissionOrder.StepOrderly | crates/workflowd/src/admission.rs:68-223 | in a debug build every call keeps the structures in agreement, without waiting for a repair |
| AdmissionOrder.RepairedRun | crates/workflowd/src/admission.rs:68-223 | after any calls, repairing what either build has left gives the debug build's state, which needs no repair |
| AdmissionOrder.ReapExactly | crates/workflowd/src/admission.rs:156-170 | exactly the expired leases and requests go; the others keep expiry and project |
| AdmissionOrder.OthersUntouched | crates/workflowd/src/admission.rs:68-223 | a call leaves the unexpired lease and request of every other workflow as they are, and makes none |
| AdmissionOrder.OwnCall | crates/workflowd/src/admission.rs:68-120 | what the answer says is what holds afterwards: leased for fifteen seconds, waiting as long, or neither |
| AdmissionOrder.EntriesLast | crates/workflowd/src/admission.rs:68-223 | over any calls of others, a lease or request lasts until it expires |
| AdmissionOrder.QueueAfterStep | crates/workflowd/src/admission.rs:122-204 | after every call each project's queue is the old one without those who left, in the same order, with whoever joined at the end |
| AdmissionOrder.QueuesByArrival | crates/workflowd/src/admission.rs:68-223 | in every run every project's queue stands in the order in which its requests were made |
| AdmissionOrder.FirstComeFirstServed | crates/workflowd/src/admission.rs:81-120 | in every run whoever is admitted made its request before everyone who still waits in its project |
| AdmissionOrder.RefusalTells | crates/workflowd/src/admission.rs:84-119 | each reason of a refusal is given exactly in its case: the active set is full; another is served next or the project differs; the controller's decision |
| AdmissionOrder.MovedRequestBlocksAll | crates/workflowd/src/admission.rs:88-138 | while the first workflow in line keeps asking for another project, nobody is admitted |
| AdmissionOrder.DeferredRequestIsFirst | crates/workflowd/src/admission.rs:68-120 | a new queue comes to that after one deferred request |
| AdmissionOrder.TicksServeConsultations | crates/workflowd/src/admission.rs:99-102 | the controller is consulted in a tick less than a second old, and a tick begins only when it is consulted, a second or more after the last |
| AdmissionOrder.TicksAreSpaced | crates/workflowd/src/admission.rs:99-102 | in every run the ticks lie a second or more apart |
| RuntimeAdmissionQueue.RuntimeAdmission.Execute | crates/workflowd/src/admission.rs:68-120 | one call changes the five structures and answers as the transition function says, whose order of service is `FirstComeFirstServed` |
| RuntimeAdmissionQueue.RuntimeAdmission.Enqueue | crates/workflowd/src/admission.rs:122-138 | a new request joins the end of its project's queue; a waiting one keeps its project and place, and only its expiry is renewed |
| RuntimeAdmissionQueue.RuntimeAdmission.DequeueFront | crates/workflowd/src/admission.rs:140-154 | the pop happens in a debug build only |
| RuntimeAdmissionQueue.RuntimeAdmission.Reap | crates/workflowd/src/admission.rs:156-170 | expired leases and requests go, then the structures are repaired |
| RuntimeAdmissionQueue.RuntimeAdmission.RepairQueueInvariants | crates/workflowd/src/admission.rs:172-204 | the loops compute the repaired state |
| RuntimeAdmissionQueue.RuntimeAdmission.Remove | crates/workflowd/src/admission.rs:206-219 | a workflow leaves the structures that its owner entry names |
| GraphQuery.Adjacency | crates/workflow-code-intel/src/query.rs:131-147 | every node lists exactly the edges that leave it, in edge order |
| GraphQuery.BallIsWalks | crates/workflow-code-intel/src/query.rs:48-129 | a node is within k edges exactly when a walk of at most k edges leads to it |
| GraphQuery.ShortestPath | crates/workflow-code-intel/src/query.rs:48-92 | a returned path is a real path of minimum length within the depth bound, of all these the first in the order of edges, and never marked truncated; an empty untruncated result means unreachable, in a closure within the visited bound; an empty result means no ball within the bounds holds the target |
| GraphQuery.NoShorterWalk | crates/workflow-code-intel/src/query.rs:48-92 | no walk to a node is shorter than its recorded distance |
| GraphQuery.Reconstruct | crates/workflow-code-intel/src/query.rs:149-170 | following the predecessors back and reversing gives a walk from source to target, by the edges that were recorded |
| GraphQuery.Impact | crates/workflow-code-intel/src/query.rs:95-129 | below the node bound exactly the nodes within the depth bound and exactly the edges leaving those one layer before; at the bound a whole ball around the roots and part of the next layer, with every edge that leaves the ball before; without truncation exactly the closure and exactly the edges leaving it |
| TaskDags.DependsOn | crates/workflow-core/src/dag.rs:247-266 | the depth-first search terminates on every graph and decides transitive reachability |
| TaskDags.Sort | crates/workflow-core/src/dag.rs:205-241 | succeeds exactly on acyclic graphs, with every task after its dependencies and the least ready task first |
| DependencyGraphs.StuckSetHasCycle | crates/workflow-core/src/dag.rs:205-241 | when every task of a non-empty set waits for another of the set there is a cycle |
| DependencyGraphs.TopologicalIsAcyclic | crates/workflow-core/src/dag.rs:205-241 | a graph with a dependency-respecting order has no cycle |
| PathScopes.OverlapsIffCommonPath | crates/workflow-core/src/path.rs:1-19 | two safe scopes overlap exactly when some path is covered by both |
| PathScopes.SafeExactly | crates/workflow-core/src/path.rs:1-9 | safe are, of the paths without backslash and drive letter, exactly those whose segments lead from any directory one name further down each |
| PathScopes.SafeStaysInside | crates/workflow-core/src/path.rs:1-9 | walking a safe path never leaves the directory it starts in, at no point |
| TaskValidation.CheckNodes | crates/workflow-core/src/dag.rs:148-182 | passes exactly well-formed tasks and otherwise names a fault that is there |
| TaskValidation.CheckOverlaps | crates/workflow-core/src/dag.rs:183-203 | passes exactly when overlapping scopes belong to ordered tasks |
| TaskValidation.Validate | crates/workflow-core/src/dag.rs:90-110 | accepts exactly the acceptable task lists, keeps the tasks, each of which fits its limits, and names a real fault otherwise |
| TaskValidation.ReadyTasksShareNoPath | crates/workflow-core/src/dag.rs:117-140 | in every reachable completed set, no path is writable by two tasks that are ready together |
| TaskValidation.AlwaysReadyUntilDone | crates/workflow-core/src/dag.rs:117-140 | some task is ready until all are done |
| TaskValidation.CompletableIsReady | crates/workflow-core/src/dag.rs:117-140 | a task may be completed exactly when it is among the ready ones |
| TaskValidation.EveryRunCanFinish | crates/workflow-core/src/dag.rs:117-140 | every run of completions extends to one that completes all tasks |
| PlanScopes.OverlapIffCommonPath | src/workflow/scopes.ts:19-51 | two scope lists overlap exactly when some path lies inside both, whatever form the platform compares |
| PlanScopes.EndsWithSlashIff | src/workflow/scopes.ts:15-17 | the normalised scope ends with a slash exactly when white space stood between slashes at the end of the scope |
| PlanScopes.NormalizeStable | src/workflow/scopes.ts:15-17 | normalising twice changes nothing, except exactly where white space stood between slashes at the end of the scope |
| PlanScopes.CoversBelowIff | src/workflow/scopes.ts:15-34 | a scope covers the paths below its directory, except exactly where white space stood between slashes at its end: it then covers none of them |
| PlanScopes.HiddenSlashSurvives | src/workflow/scopes.ts:15-34 | the scope `s/ /`, which trimming leaves as it is, covers no path below `s` |
| Plans.AssertUnique | src/workflow/plan.ts:216-220 | passes exactly plans with distinct keys |
| Plans.AssertDependenciesResolve | src/workflow/plan.ts:132-142 | passes exactly when every dependency exists and is another task |
| Plans.AssertAcyclic | src/workflow/plan.ts:144-160 | the layered peel terminates and accepts exactly resolved graphs without cycles; the tasks it reports wait for each other |
| Plans.TransitiveDependencies.Resolve | src/workflow/plan.ts:189-200 | terminates on every graph; what it caches is reachable, and on an acyclic graph is everything reachable, whatever was cached before |
| Plans.TransitiveTable | src/workflow/plan.ts:185-204 | on an acyclic plan the table is the transitive closure for every task, in any visiting order |
| Plans.AssertScopesOrdered | src/workflow/plan.ts:166-183 | passes exactly when tasks with overlapping scopes are ordered |
| Plans.CheckPlan | src/workflow/plan.ts:40-66 | accepts exactly plans with distinct keys, existing and acyclic dependencies, and ordered overlaps; an error names a fault that is there and says that the checks before it passed |
| Plans.ConcurrentTasksShareNoPath | src/workflow/plan.ts:162-183 | tasks of an accepted plan that may run together share no path both may write |
| Plans.PlanNeverStuck | src/workflow/plan.ts:144-160 | an accepted plan always has a ready task until it is done |
| DeliverySteps.DiskAfter | src/evidence/delivery.ts:124-157 | a run leaves every file as it was except where it writes, and there independently of what was there |
| DeliveryReplay.Replay | src/evidence/delivery.ts:80-95 | doing the effects again over what a killed run left ends as the uninterrupted run, for effects that never read what they will still write |
| DeliveryLanding.CommittedIsClean | src/evidence/delivery.ts:191-206 | what a commit of the paths leaves is clean, so committing again makes no second revision |
| DeliveryReplay.KilledOnce | src/evidence/delivery.ts:112-166 | wherever a run is killed before the repository is touched, either the delivery is over or a second run ends as the first would have |
| DeliveryLanding.LandingResumes | src/evidence/delivery.ts:191-235 | killed while it stages or commits, the ending succeeds the next time exactly when every path is still known to the working tree or the index, or nothing is left to commit, and then it ends alike |
| DeliveryLanding.RecoveryResumes | src/evidence/delivery.ts:73-180 | whatever kills came before, an unfinished delivery that runs again ends as an uninterrupted run that finds the repository as it is now |
| DeliveryRecovery.WrittenAs | src/evidence/delivery.ts:124-154 | once its turn has come a destination holds what was approved, whatever follows |
| DeliveryRecovery.PreludeReplayable | src/evidence/delivery.ts:112-166 | the files are read only where they will not be written any more |
| DeliveryGuarantees.DestinationIsWhole | src/evidence/delivery.ts:35-43 | at every moment of every pattern of crashes a destination holds its old content or exactly the approved one |
| DeliveryGuarantees.NothingElseTouched | src/evidence/delivery.ts:112-189 | no other file than destinations and their temporary files is changed |
| DeliveryGuarantees.CompletesExactly | src/evidence/delivery.ts:112-235 | a delivery completes exactly when it has files, each one's kept bytes or bytes on disk match the approved digest beforehand, and the repository holds the result or can take it: what is to be absent is in the index and in the tree, and something differs from the tree |
| DeliveryGuarantees.CompletedMatches | src/evidence/delivery.ts:158-177 | a completed row means every path matches its approved digest, on disk and in the commit |
| DeliveryGuarantees.OneCommitAtMost | src/evidence/delivery.ts:182-236 | however often it is killed, a delivery makes at most one commit |
| DeliveryGuarantees.RecoversExactlyIf | src/evidence/delivery.ts:73-235 | after any kills, recovering a deliverable candidate completes, as the uninterrupted run, exactly when every path to be absent is still in the index or nothing is left to commit; otherwise every recovery fails alike |
| DeliveryGuarantees.RecoversWithoutDeletions | src/evidence/delivery.ts:73-235 | a deliverable candidate that removes nothing, killed anywhere any number of times and recovered, leaves files, repository and row as an uninterrupted run |
| DeliveryGuarantees.AlwaysRecoversIff | src/evidence/delivery.ts:73-235 | a deliverable candidate recovers so after every history of kills exactly when it removes nothing or is in the repository already |
| DeliveryGuarantees.StagedDeletionIsStuck | src/evidence/delivery.ts:199-210 | killed between staging and committing, a deliverable candidate that removes a path and is not in the repository yet fails in every recovery and commits nothing |
| DeliveryGuarantees.OverIsDone | src/evidence/delivery.ts:168-179 | a deliverable candidate whose row is finished after any kills ended as the uninterrupted run |
| DeliveryPromotion.PromotedTreeIsClean | src/evidence/delivery.ts:44-71 | after a promotion that passed the comparison and completed, the commit differs from its parent in manifest paths only, and equals the working tree exactly when no origin of a rename was left out of the manifest and no temporary file has the name of a tracked one |
| DeliveryPromotion.PromotionSurvivesCrashes | src/evidence/delivery.ts:44-95 | from the recorded intent on, a deliverable candidate that removes nothing ends completed after any crashes and recoveries, with at most one revision, and with a tree equal to the commit exactly when no origin of a rename was left out and no temporary file has a tracked name |
| DeliveryPromotion.RenameLeavesItsOrigin | src/evidence/changes.ts:55-77 | a staged rename is promoted and completed, and the commit keeps the old name |
| DeliveryPromotion.DeletionNeverRecovers | src/evidence/delivery.ts:191-235 | deleting one committed file completes undisturbed, and after one kill never |
| DeliveryOutcomes.ListedBytesSurvive | src/evidence/delivery.ts:44-71 | a promotion that passed the comparison and completed, or was killed anywhere any number of times with genuine kept bytes, leaves every listed path with the digest it had: bytes that were not approved are never replaced |
| DeliveryOutcomes.ReplacedExactly | src/evidence/delivery.ts:44-71 | what a completed promotion does replace are exactly the manifest files that were not as approved, and none of them was listed |
| DeliveryOutcomes.RefusedExactly | src/evidence/delivery.ts:274-306 | the comparison refuses exactly when the revision moved or some listed path is not in the manifest with the digest it has on disk |
| DeliveryOutcomes.EditIsRefused | src/evidence/delivery.ts:274-306 | editing one manifest file after approval, to anything but its approved or its committed bytes, makes the comparison refuse |
| DeliveryOutcomes.RevertIsOverwritten | src/evidence/delivery.ts:274-306 | a manifest file put back to the committed bytes passes the comparison and is overwritten |
| DeliveryOutcomes.DeliveredExactly | src/evidence/delivery.ts:124-157 | the paths a finished run lists are exactly those of the manifest that are deleted or have kept bytes, in manifest order |
| DeliveryOutcomes.RowTellsTheTruth | src/evidence/delivery.ts:112-189 | after any kills every path the row lists holds what was approved, and only delivered paths are listed |
| DeliveryOutcomes.ProgressIsRecorded | src/evidence/delivery.ts:138-151 | right after each written file the row lists it with all before it |
| DeliveryOutcomes.WrittenIsRecorded | src/evidence/delivery.ts:158-166 | before the repository is touched the row says `written` with all delivered paths |
| DeliveryOutcomes.FailsExactly | src/evidence/delivery.ts:124-177 | a delivery fails before the repository is touched exactly when a file matches nothing that was approved, and the row stays retryable; or when the files on disk differ afterwards, and the row is aborted |
| DeliveryOutcomes.NothingElseCommitted | src/evidence/delivery.ts:182-236 | under any kills index and commit keep every path outside the manifest |
| Delivery.Promotion.Write | src/evidence/delivery.ts:112-189 | the loops, killed after any number of effects, leave the world the script leaves |
| Delivery.Promotion.StageFiles | src/evidence/delivery.ts:196-210 | nothing when the paths are clean; refuses a path that is in neither the working tree nor the index, and otherwise stages all of them |
| Delivery.Promotion.CommitFiles | src/evidence/delivery.ts:212-235 | after staging, commits exactly the paths, or fails when there is nothing to commit or a path is unknown to git |
| Delivery.Promotion.ChangedFiles | src/evidence/changes.ts:35-77 | lists exactly the paths that differ, without the origins of renames that are not on disk |
| Delivery.Promotion.AssertUnchanged | src/evidence/delivery.ts:274-306 | passes exactly when the base is current and every listed change is approved with its digest; a path edited since is refused |
| Delivery.Promotion.Promote | src/evidence/delivery.ts:44-71 | refuses without any change, in particular whenever a listed path was edited since approval, or records the intent and runs the script; when it returns, every listed path has the digest it had |
| Delivery.Promotion.RecoverDelivery | src/evidence/delivery.ts:76-95 | does nothing unless the row is unfinished, and otherwise runs the whole script |
| ManifestDiff.Plan | crates/workflow-code-intel/src/manifest.rs:65-116 | every inventory path is kept, hashed or added by its prior entry and its metadata, and exactly the vanished paths are deletions |
| ManifestDiff.PlanByEntry | crates/workflow-code-intel/src/manifest.rs:65-116 | exactly the new paths are added, and exactly the known ones whose metadata moved or is not trusted are hashed |
| ManifestDiff.FindSource | crates/workflow-code-intel/src/manifest.rs:163-167 | the first vanished path in path order with the same content, if there is one |
| ManifestDiff.Resolve | crates/workflow-code-intel/src/manifest.rs:120-186 | fails exactly when a file that is not trusted cannot be read as the inventory saw it, and says why; otherwise applying the changes to the prior hashes gives the new manifest's, whose paths are the inventory's, every vanished path is removed once, renames keep the hash and none is missed |
| ManifestDiff.UpdateIsCurrent | crates/workflow-code-intel/src/manifest.rs:120-186 | new entries carry the inventory's metadata, and the observed hash where metadata is not trusted |
| ManifestDiff.TrustIsSafe | crates/workflow-code-intel/src/manifest.rs:65-186 | with a truthful prior manifest, trusting metadata gives the entries of a run that reads every file |
| IndexWorkers.NeverStuck | crates/workflow-code-intel/src/index.rs:157-226 | the bounded channel never blocks everybody |
| IndexWorkers.StepsLess | crates/workflow-code-intel/src/index.rs:176-192 | every step of every thread leaves less to do |
| IndexWorkers.RunPool | crates/workflow-code-intel/src/index.rs:157-226 | under every interleaving the pool ends; it succeeds exactly when no scope fails, and then every scope is indexed exactly once |
| LikePatterns.EscapesOnce | crates/workflow-code-intel/src/graph/store.rs:492-497 | three replacements in a row put exactly one escape before every special byte |
| LikePatterns.DirectoryPattern | crates/workflow-code-intel/src/graph/store.rs:431-444 | whatever bytes a directory's name holds, its pattern matches exactly the paths that start with the name and a slash, up to ASCII case |
| ProjectIndexes.SweepsByPattern | crates/workflow-code-intel/src/graph/store.rs:431-444 | the sweep of the model is what the statement's pattern matches |
| ProjectIndexes.OwnSweep | crates/workflow-code-intel/src/graph/store.rs:414-444 | a scope sweeps its own files, except those directly inside a top-level `root` |
| ProjectIndexes.SweepsWhole | crates/workflow-code-intel/src/graph/store.rs:414-444 | a scope is swept as a whole or not at all |
| ProjectIndexes.AffectedExactly | crates/workflow-code-intel/src/index.rs:143-155 | a scope is affected exactly when one of its paths is forced, new, vanished or has other metadata |
| ProjectIndexes.RebuildsExactly | crates/workflow-code-intel/src/index.rs:103-232 | from any index, an affected scope ends with exactly the facts of its current files, and every other partition is left as it is |
| ProjectIndexes.ForcedIsRebuilt | crates/workflow-code-intel/src/index.rs:143-155 | from any index, also one that is wrong, forcing a path leaves its partition and its entry as a rebuild would |
| ProjectIndexes.UnforcedStays | crates/workflow-code-intel/src/index.rs:143-155 | without it a partition whose files are listed as they are is not touched, whatever it holds |
| ProjectIndexes.IndexedIsFresh | crates/workflow-code-intel/src/index.rs:103-232 | a run leaves every current partition and every manifest entry as a rebuild would |
| ProjectIndexes.IndexedIsGenuine | crates/workflow-code-intel/src/index.rs:103-232 | what a run keeps for the next one: a listed scope's partition was built from exactly the listed files |
| ProjectIndexes.FreshAfterEveryHistory | crates/workflow-code-intel/src/index.rs:103-232 | after any history of edits, failed and successful runs, a successful run leaves the partitions and entries of a rebuild, and never conflicts |
| ProjectIndexes.ManifestComplete | crates/workflow-code-intel/src/graph/store.rs:414-460 | no manifest entry is missing exactly when no affected scope sweeps a file of an unaffected one |
| ProjectIndexes.VanishedIsEmptied | crates/workflow-code-intel/src/index.rs:143-155 | a scope that vanishes while listed ends with an empty partition |
| ProjectIndexes.NoStaleAfterRunIff | crates/workflow-code-intel/src/index.rs:143-155 | a run leaves no facts of a scope without files exactly when every such partition is among the affected |
| ProjectIndexes.RebuiltAfterHomeHistory | crates/workflow-code-intel/src/index.rs:103-232 | after any history in which no affected scope swept a file of an unaffected one, a successful run leaves exactly what a rebuild would, apart from empty partitions of vanished scopes |
| ProjectIndexes.SweepForgetsNestedScope | crates/workflow-code-intel/src/graph/store.rs:431-444 | a history in which editing one scope forgets a nested one, whose facts then stay after its file is deleted |
| ProjectIndexes.ConflictsExactly | crates/workflow-code-intel/src/graph/store.rs:414-460 | an insertion conflicts exactly when the scope `root` is affected, no other affected scope spells it in another case, and some listed file is still there directly inside a top-level `root` |
| ProjectIndexes.RootDirectoryFails | crates/workflow-code-intel/src/graph/store.rs:414-460 | once a file directly inside `root` is listed, editing it makes the next run fail |
| ProjectIndexer.IndexScope | crates/workflow-code-intel/src/index.rs:234-292 | the facts and entries of the files in order, or an error when one changed since the inventory |
| ProjectIndexer.ProjectIndex.IndexProject | crates/workflow-code-intel/src/index.rs:103-232 | succeeds exactly when the affected files are undisturbed and nothing conflicts; then every affected scope is persisted once, every forced path's partition is that of a rebuild, and the store is the run's, otherwise unchanged |
| Certification.StageHasEvidence | crates/workflow-core/src/workflow.rs:179-313 | a stage of certification is reached only by marks in the right order after the last selection |
| CoreWorkflow.Workflow.Apply | crates/workflow-core/src/workflow.rs:179-313 | every command changes the eight fields and emits the events of the transition function; a refused one changes nothing |
| CoreWorkflow.Workflow.RejectWork | crates/workflow-core/src/workflow.rs:315-332 | a rejection uses a repair cycle and blocks when the budget is used up |
| CoreWorkflowRuns.StepSound | crates/workflow-core/src/workflow.rs:179-376 | every step keeps the invariant of the fields; the budget is used up exactly while blocked for repair, or cancelled from there |
| CoreWorkflowRuns.ErrorsOfSoundRuns | crates/workflow-core/src/workflow.rs:315-337 | a candidate and a repair target are never missing, and the cycle counter never overflows; only extending the budget can |
| CoreWorkflowRuns.RunsAreSound | crates/workflow-core/src/workflow.rs:140-332 | every sequence of commands keeps the invariant and the stage its state needs |
| CoreWorkflowRuns.CompletedMeansCertified | crates/workflow-core/src/workflow.rs:179-332 | a completed workflow selected, verified, in full mode reviewed, approved with gates passed, and delivered its current candidate in this order, across pauses and infrastructure blocks |
| CoreWorkflowRuns.StepIsRead | crates/workflow-core/src/workflow.rs:179-343 | the events of a step turn the old view of the workflow into the new one |
| CoreWorkflowRuns.StepIsLinked | crates/workflow-core/src/workflow.rs:339-343 | state changes lead from the old state to the new one |
| CoreWorkflowSuspension.SuspendAndGoOn | crates/workflow-core/src/workflow.rs:258-311 | pausing and resuming, and blocking for infrastructure and resuming, give back the record field by field |
| CoreWorkflowSuspension.OnlyGoOnOrCancel | crates/workflow-core/src/workflow.rs:258-314 | a suspended workflow accepts only going on and being cancelled |
| CoreWorkflowSuspension.OnlyExtendOrCancel | crates/workflow-core/src/workflow.rs:278-297 | a workflow blocked for repair accepts only a larger budget, up to 255, and being cancelled |
| CoreWorkflowSuspension.StandsStill | crates/workflow-core/src/workflow.rs:258-314 | whatever else is tried during a suspension changes nothing |
| CoreWorkflowSuspension.SuspensionIsTransparent | crates/workflow-core/src/workflow.rs:140-314 | in every run, taking out a suspension with all that was tried in it changes no field of the outcome |
| CoreWorkflowSuspension.EndIsFinal | crates/workflow-core/src/workflow.rs:179-314 | a completed or cancelled workflow stays as it is in every run |
| ControlPlaneWorkflow.ApplySound | src/workflow/machine.ts:95-240 | every step keeps the invariant; a candidate and a repair target are never missing |
| ControlPlaneWorkflow.RunsAreSound | src/workflow/machine.ts:78-240 | every sequence of commands keeps the invariant and the stage its state needs; from a positive budget, the budget is used up exactly while blocked, or cancelled from there |
| ControlPlaneWorkflow.CompletedMeansCertified | src/workflow/machine.ts:95-240 | the same guarantee for the control plane's machine |
| ControlPlaneWorkflow.MachinesAgree | src/workflow/machine.ts:95-225 | on the commands both machines have, they accept the same runs and end alike |
| ControlPlaneWorkflow.ExecutionFailsLikeVerification | src/workflow/machine.ts:95-135 | a failed execution ends as if a candidate had come and failed verification, but selects none |
| ControlPlaneWorkflow.BlockRemembers | src/workflow/machine.ts:95-240 | a block remembers the state it was met in, and only more cycles forget it |
| ControlPlaneWorkflow.PauseAndResume | src/workflow/machine.ts:95-240 | resuming gives back the paused workflow field by field, and a paused one accepts only that and being cancelled |
| StoreRuns.LogRebuildsState | crates/workflow-store/src/workflows.rs:64-106 | in every run folding a workflow's events gives back its state, mode, candidate, cycles and budget, and its state changes link end to start |
| StoreRuns.KeyChangesOnce | crates/workflow-store/src/workflows.rs:44-62 | each idempotency key changes state at most once |
| StoreRuns.ReplayReturnsRecorded | crates/workflow-store/src/workflows.rs:44-62 | sending an accepted key again, whatever happened in between and while nothing is reserved, returns the recorded result and changes nothing |
| StoreRuns.DeliveryReplayReturnsRecorded | crates/workflow-store/src/workflows.rs:170-205 | the same for the key of a delivery |
| StoreRuns.OnlyTheReservedDelivery | crates/workflow-store/src/workflows.rs:33-209 | while a delivery is reserved only the step that delivers exactly that candidate under the bound journal touches the workflow; it completes it and consumes that reservation alone |
| StoreRuns.CompletedIsCertified | crates/workflow-store/src/workflows.rs:21-209 | in every run a completed workflow's current candidate was selected, verified, reviewed as its mode asks, approved and delivered in this order |
| StoreRuns.ReservedIsCertifiedIff | crates/workflow-store/src/workflows.rs:116-209 | in every run, a delivered reservation names the certified candidate exactly when it named the workflow's current one while it was held |
| StoreRuns.AnotherCandidateDelivered | crates/workflow-store/src/workflows.rs:131-161 | a run that reserves and delivers candidate 1 and leaves the workflow completed with candidate 2 |
| StoreRuns.ReservedStandsStill | crates/workflow-store/src/workflows.rs:33-42 | in every run the state and log of a workflow stand still while its reservation is held |
| StoreRuns.JournalsAdvanceByCompareAndSet | crates/workflow-store/src/candidates.rs:134-159 | a reservation's journal changes only by a step that names the journal it had |
| StoreRuns.ReservationsAlwaysSound | crates/workflow-store/src/candidates.rs:71-132 | in every run reservations name existing rows and no workflow has two |
| StoreRuns.ReservationsChangeByName | crates/workflow-store/src/candidates.rs:71-132 | a reservation appears or goes only by a step that names it |
| StoreOutcomes.RecordedKeysFit | crates/workflow-store/src/workflows.rs:21-32 | in every run only keys of one to 256 bytes are recorded |
| StoreOutcomes.KeyBelongsToOne | crates/workflow-store/src/workflows.rs:44-62 | a key accepted for one workflow never changes another, whatever happens in between |
| StoreOutcomes.CommandOutcome | crates/workflow-store/src/workflows.rs:21-114 | an accepted command writes its workflow's row, log and key and nothing else; a refused or repeated one writes nothing |
| StoreOutcomes.RefusalTells | crates/workflow-store/src/workflows.rs:21-76 | each error is given exactly in its case: the key, a reserved delivery, another use of the key, the machine |
| StoreOutcomes.ReserveOutcome | crates/workflow-store/src/candidates.rs:71-107 | a reservation is new, there already, or refused, exactly as candidate, workflow and the reservations there are say |
| StoreOutcomes.ReserveAndRelease | crates/workflow-store/src/candidates.rs:71-159 | releasing a reservation just made, bound or not, gives back the database |
| StoreOutcomes.ReleaseOutcome | crates/workflow-store/src/candidates.rs:109-132 | only the holder releases, and only its own |
| StoreOutcomes.BindOutcome | crates/workflow-store/src/candidates.rs:134-159 | only the holder who names the journal there is binds, and of two only the first |
| StoreOutcomes.DeliveryOutcome | crates/workflow-store/src/workflows.rs:116-209 | a reserved delivery gets through exactly for the holder of the bound reservation, in the state of delivery, under a fresh key; it completes that workflow, logs that, takes that reservation and nothing else |
| StoreOutcomes.DeliveryRefusalTells | crates/workflow-store/src/workflows.rs:116-209 | each error of a delivery is given exactly in its case |
| WorkflowStore.Store.ApplyWorkflowCommand | crates/workflow-store/src/workflows.rs:21-114 | the transaction answers and changes the tables as its step says, or leaves them alone |
| WorkflowStore.Store.DeliverReservedCandidate | crates/workflow-store/src/workflows.rs:116-209 | the same for a reserved delivery |
| WorkflowStore.Store.ReserveCandidateDelivery | crates/workflow-store/src/candidates.rs:71-107 | one reservation for a candidate and a workflow; reserving again is no error |
| WorkflowStore.Store.ReleaseCandidateDelivery | crates/workflow-store/src/candidates.rs:109-132 | removes exactly the reservation named |
| WorkflowStore.Store.BindCandidateDeliveryJournal | crates/workflow-store/src/candidates.rs:134-159 | compare and set of the journal digest |
| FrameDecoding.ChunkIndependent | crates/workflow-ipc/src/frame.rs:84-129 | any split of a stream into feeds meets the same violation or none, ends in the same state, and without one yields the same frames |
| FrameDecoding.DecodeInvertsEncode | crates/workflow-ipc/src/frame.rs:39-129 | decoding concatenated encoded payloads returns exactly those payloads |
| FrameDecoding.DecodeConserves | crates/workflow-ipc/src/frame.rs:84-153 | bytes held and fed are, in order, the encodings of the frames emitted and the bytes held afterwards |
| FrameDecoding.BrokenStaysBroken | crates/workflow-ipc/src/frame.rs:84-129 | after a violation everything is refused |
| FrameDecoding.ViolationBreaks | crates/workflow-ipc/src/frame.rs:84-129 | every violation leaves the decoder broken |
| FrameDecoding.BadHeaderIsReported | crates/workflow-ipc/src/frame.rs:84-129 | after any whole frames a header that announces no byte or too many is reported with its length, with the frames before it, whatever follows |
| FrameDecoding.FrameDecoder.Feed | crates/workflow-ipc/src/frame.rs:84-129 | the loop, copying whole runs of bytes and consuming input every turn, decodes like the byte-wise reference |
| FrameDecoding.FrameDecoder.BufferedBytes | crates/workflow-ipc/src/frame.rs:145-153 | the number of bytes held, without the four header bytes of a payload in progress |
| Bytes.BigEndianRoundTrip | crates/workflow-ipc/src/frame.rs:50-54 | a number written in big-endian bytes reads back |
| Bytes.BigEndianKeepsOrder | crates/workflow-ipc/src/frame.rs:50-54 | the most significant byte comes first: encodings are ordered as the numbers are |
| Digests.Parse | crates/workflow-core/src/digest.rs:48-67 | accepts exactly the printed digests and returns the one printed |
| Digests.PrintInjective | crates/workflow-core/src/digest.rs:28-36 | different digests print differently |
| Digests.PrintedLetters | crates/workflow-core/src/digest.rs:28-36 | each byte is printed as two lower-case hexadecimal digits, the higher half first |
| Digests.CanonicalHasher.WriteOptional | crates/workflow-core/src/digest.rs:128-136 | presence is written before the value |
| LedgerChaining.PreimageInjective | crates/workflow-ledger/src/chain.rs:34-62 | the hashed bytes determine sequence number, previous hash and event |
| LedgerChaining.HeadPinsHistory | crates/workflow-ledger/src/chain.rs:95-136 | two chains that verify with equal heads are identical entry by entry, unless the hash collides on their own entries |
| LedgerChaining.TruncationChangesHead | crates/workflow-ledger/src/chain.rs:95-136 | dropping entries from the end changes the head |
| LedgerChaining.LedgerChain.Append | crates/workflow-ledger/src/chain.rs:86-93 | a valid chain stays valid and grows by one entry for the event |
| LedgerChaining.LedgerChain.Verify | crates/workflow-ledger/src/chain.rs:95-136 | valid exactly for valid chains with the expected head; otherwise the first broken entry and the first comparison that fails there |
| CandidateManifests.New | crates/workflow-core/src/candidate.rs:158-190 | an unstable sort and two scans: the manifest of the sorted files and evidence, or the first repetition in order; nothing is lost, added or repeated |
| CandidateManifests.NewExactly | crates/workflow-core/src/candidate.rs:158-190 | fails exactly on a repeated path or identifier and names the least; otherwise holds the given files and evidence in strictly increasing order |
| CandidateManifests.NewIgnoresOrder | crates/workflow-core/src/candidate.rs:158-190 | the order of files and evidence does not matter, nor for the error |
| CandidateManifests.Digest | crates/workflow-core/src/candidate.rs:197-232 | the fields are fed one by one, exactly as the canonical bytes |
| CandidateManifests.ReadManifestBack | crates/workflow-core/src/candidate.rs:197-232 | an independent reader gets every covered field back from the canonical bytes |
| CandidateManifests.DigestPinsManifest | crates/workflow-core/src/candidate.rs:197-232 | equal digests mean equal covered fields, unless the hash collides on the two manifests |
| CandidateManifests.ApartFromLedger | crates/workflow-core/src/candidate.rs:197-232 | what is hashed for a manifest is never what is hashed for a ledger entry |

## Left out

- GraphQuery.ShortestPath: when no path is found and the closure is exactly as large as the visited bound, whether `truncated` is set depends on the order of identifiers; the contract decides it for every smaller and every larger closure.
- GraphQuery.Impact: the same for the node bound; and when the bound is reached within a layer, which of its nodes are kept.
- LedgerChaining.PreimageInjective: a ledger event stands for its serialised bytes, so JSON's own ambiguity is not part of the statement.
- Delivery.Promotion.Promote: a git command fails for the reasons that lie in files, index and tree (a path to stage or commit that git does not know, nothing to commit) and not for others, such as a timeout, a lock file left by a kill or a missing identity; a killed git command has happened or has not. Ignored files, directories and file modes, merges in progress, and a manifest that names a path twice (a staged deletion whose file is there again untracked) are not modelled, and manifest paths are taken as normalised. Which renames git detects is an input.
- DeliveryOutcomes.ListedBytesSurvive: for manifests whose deleted entries carry no digest, as the digest of an absent file is; distinct paths as below.
- DeliveryGuarantees.RecoversExactlyIf: speaks of the time after the intent is recorded and until the row is completed, and of no outside writer; manifest paths are distinct and none is another's temporary file.
- ProjectIndexes.FreshAfterEveryHistory: assumes that equal metadata means equal bytes, and that no file lies directly inside a top-level directory named `root`; when a run with such files fails is `ConflictsExactly`.
- ProjectIndexer.ProjectIndex.IndexProject: node and edge identifiers of different files are taken as different, so merging maps is a union of facts; an error of the database while a partition is written is not modelled.
- ControlPlaneWorkflow.MachinesAgree: leaves out `execution_failed`, which the Rust machine does not have, the infrastructure commands, which the control plane does not have, and budgets above 255.
- Plans.CheckPlan: the checks on text lengths, item counts, requirement coverage, project-relative scopes and verification commands.
- SHA-256, HMAC and Ed25519, key files, signatures of ledger checkpoints: hash functions are parameters.
- SQL text and SQLite: a transaction is one all-or-nothing step on maps and sequences; timestamps are dropped.
- JSON parsing, `feed_json`, sockets, pipes, process spawning and asynchronous transport.
- The resource controller: its decision is an arbitrary input of every admission call.
- `src/intel/indexer.ts`: re-resolved files keep old edges, so agreement with a rebuild is not what it does.
- `src/intel/pool.ts`: a batch whose worker fails to spawn is never drained.
- `crates/workflow-core/src/goal.rs` and `src/goals.ts`: the bound on continuations is not kept after a resume; the rest is single checks.
- `src/admission.ts`: a counting sibling of the Rust queue with nothing harder in it.
- `src/workflow/service.ts`: orchestration around the machine and the delivery.
- Verdict and review validators, routing markers, detectors, secret patterns, configuration, diagnostics, reports.
- Saving and loading candidates with their payloads: the model keeps only which candidates exist.
