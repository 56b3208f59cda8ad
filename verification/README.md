# Story scheduling, branch derivation and the protocols around them

A Dafny model of the part of semspec that decides in which order stories run, on
which git branches their work lands, and how concurrent components agree on who
works on what.

A plan holds requirements and stories. Stories cover requirements and own files.
`DeriveStoryScheduling` writes `DependsOn` edges into the stories in place;
validators check the result; branch derivation projects the story graph onto
requirement owners; dispatch decides which requirements may start; executors work
through a requirement's stories, claiming each; assembly merges the branches. The
model follows that chain and proves, end to end, that two stories which share a
file are never worked on at the same time, are never worked on unrelated branches,
and merge in derivation order unless assembly falls back to slice order. It says
exactly when assembly does so and when dispatch can get stuck. Around it are the research-record
compare-and-swap lifecycle, the claim protocol, the spawn-tree traversal and the
prompt registry.

## How the model is built

- Every dependency relation is compared with one notion, `Graphs.Reach`: a chain
  of one or more edges. Breadth-first closures, depth-first searches and Kahn's
  sort are methods with loops and recursion; their contracts speak of `Reach`.
- Stories live in an `array<Story>` that the passes update in place. What the
  passes must achieve is the predicate `Scheduling.Schedules`, which names sets of
  edges and never mentions loops, queues or tables. The theorems are about any
  `before`, `after` and outcome related by `Schedules`.
- What an operation is specified with is itself compared with a statement over the
  fields of the records, in both directions: `SchedulingOutcomes` and
  `BranchOutcomes` for scheduling, branches and assembly, and the lemmas named
  `...Exact` elsewhere.
- Lookup tables keyed by ID are last-wins, as in the source, so no method requires
  unique IDs. Theorems that need unique or non-empty IDs say so.
- Ranging over a Go map is an arbitrary choice of the next key.
- `NormalizeFilePath` is a parameter `norm`; nothing is assumed about it.
- Message loss, clocks, retries and crashes are steps that may happen at any time;
  claims are parametrised by the faults allowed, so that a guarantee can be tied to
  them. The KV store is reduced to its revision-checked write.

Files: `Graphs`, `Tables`, `Ordering` (reachability, last-wins tables, string
order); `Closure`, `CycleSearch`, `Toposort` (the graph algorithms); `Plan`,
`Scheduling`, `StoryValidation`, `SchedulingTheorems`, `SchedulingOutcomes`;
`Branches`, `BranchTheorems`, `Assembly`, `BranchOutcomes`; `Execution`; `Dispatch`, `DispatchProgress`,
`StoryOrder`, `Executor`; `Research`; `Claims`, `ClaimAnswers`, `ClaimTables`; `AgentTree`; `Prompt`; and
`BlamelessCycle`, `CyclicBranches`, `StuckPlans` with concrete plans on which a
comment of the source does not hold.

## Where the code and its comments disagree

- A Pass-3 cycle is said to mean an invalid coverage partition
  (workflow/derive_story_scheduling.go:29-33). `BlamelessCycle` gives three
  stories with one requirement each that every run rejects. `CycleBlamesCoverage`
  gives the exact condition: over acyclic semantic edges, Pass 3 rejects if and
  only if some serialised pair closes a cycle, the lower story already waiting for
  the higher one. `RejectionNeedsClimb` gives the other view of it: resource edges
  alone never close a cycle.
- The derived branch DAG is said to be acyclic by construction
  (workflow/resolve_branch_prereqs.go:103-104). `BranchCycleCause` gives the exact
  condition: it is cyclic if and only if a step through a requirement that has no
  story or several leads back. With exactly one story each it never is
  (`BranchesAcyclic`); `CyclicBranches` shows that both "at least one" and "at most
  one" are needed.
- `DependsOn` is said to gate the dispatch of stories
  (workflow/story_task.go:85-90). The handler that moves story statuses does not
  look at it (processor/plan-manager/mutations.go:1144-1177). `Execution` is about
  the documented gate. `Dispatch` and `Executor` are about what the code has
  instead, three filters on requirements and a sorted list of stories, and
  `ExecutingOnShipped` proves that they amount to the documented gate.
- Deferred requirements are said to dispatch once their prerequisites complete
  (processor/scenario-orchestrator/dag.go:161-165). `NeverStuckIff` and
  `CanCompleteIff` say exactly when that can be relied on. A failed requirement
  holds up what waits for it until it is reopened, since its execution record bars
  another start. `StuckPlans` has two accepted plans on which dispatch halts without
  any failure: two branches that derive from each other, and a story whose owner has a
  prerequisite that the same story covers, with all branches in order.
- Research records are said to go pending, in_progress, terminal
  (workflow/research.go:106-111). The callers accept pending as predecessor of a
  terminal status, so in_progress may be skipped; `DocumentedIffNotFromPending`
  gives the exact condition.
- A false claim is said to mean that another executor owns the story
  (workflow/kv_helpers.go:82-89). `FalseMeansOwnedIff` gives the exact condition:
  no call retries or gives up, no save fails or is refused, and the story is never
  pending, complete or failed while it is claimed. "Owns" is meant at the time of
  the refusal. `FalseDespiteAccepted` and
  `RefusedUnowned` give runs with a single caller for each fault and each status.
- The status machine alone does not keep sharers apart: `UngatedRacesIffShared`
  shows that without a reopen gate every valid plan in which two stories share a
  file can be driven into a race. `ReopenGateExact` states the gate that restores
  the invariant.
- The registry is said to leave at most one user prompt per role
  (prompt/registry.go:26-31). Fragments that name no role are never compared;
  `AmbiguousIffRoleless` says exactly when assembly finds two.

## Model

| member | source | states |
|---|---|---|
| Closure.ReachableSet | workflow/derive_story_scheduling.go:171-181 | the queue loop returns exactly the IDs reached by one or more edges, on cyclic graphs and with unknown IDs, and terminates |
| Closure.BuildClosure | workflow/derive_story_scheduling.go:190-212 | every listed ID is mapped to exactly what it reaches |
| Closure.ReachableOthers | workflow/resolve_branch_prereqs.go:114-127 | skipping the start whenever it is met loses nothing: all others reached are found |
| Graphs.ReachMonotone | workflow/derive_story_scheduling.go:187-189 | adding edges never removes an ordering |
| CycleSearch.PathSearch.Visit | workflow/derive_story_scheduling.go:247-276 | finishes everything reachable with no cycle among the finished nodes, or stops with a closed chain of dependencies; the path is restored |
| CycleSearch.FirstIndex | workflow/derive_story_scheduling.go:254-265 | a grey node is always found on the path, so the two-element fallback is unreachable |
| CycleSearch.DetectCycle | workflow/derive_story_scheduling.go:230-286 | nil exactly when no node reaches itself; any other result is a closed chain of `DependsOn` edges |
| CycleSearch.EdgeSearch.Visit | workflow/plan_story.go:66-81 | the path-free search stops only at an edge whose target leads back to its source |
| CycleSearch.CheckReferences | workflow/plan_story.go:43-52 | accepts exactly when every dependency is listed and none is a self-dependency; the error names an offender |
| CycleSearch.SearchEdges | workflow/plan_story.go:54-90 | accepts exactly the acyclic graphs |
| CycleSearch.ValidateDag | workflow/plan_requirement.go:41-102 | accepts exactly the DAGs with resolved references; a rejection carries a genuine witness, and is a cycle exactly when all references resolve |
| CycleSearch.ResolveExact | workflow/plan_story.go:43-52 | references resolve exactly when every dependency names a listed record other than its own |
| CycleSearch.StackSearch.Visit | workflow/plan_capability.go:188-207 | the entry-checked search reports a stack that leads back to one of its members |
| CycleSearch.DetectStackCycle | workflow/plan_capability.go:176-216 | accepts exactly the acyclic capability sets |
| StoryValidation.ValidateStoryDAG | workflow/plan_story.go:37-91 | accepts exactly the story DAGs |
| StoryValidation.ValidateTaskDAG | workflow/plan_story.go:411-466 | accepts exactly the task DAGs of one story |
| StoryValidation.ValidateRequirementDAG | workflow/plan_requirement.go:41-102 | accepts exactly the requirement DAGs |
| StoryValidation.CheckPair | workflow/plan_story.go:347-360 | rejects a pair exactly when it shares files and neither reaches the other; the error lists the shared files, sorted |
| StoryValidation.ValidateStoryFileOwnership | workflow/plan_story.go:304-363 | accepts exactly when all sharing pairs are ordered; a rejection names a racing pair |
| Ordering.SortedKeys | workflow/resolve_branch_prereqs.go:76-81 | collecting map keys in any order and sorting gives the strictly sorted listing of the set |
| Ordering.StrictListingUnique | workflow/resolve_branch_prereqs.go:40-41 | that listing is unique, so results do not depend on map order |
| Plan.SharedFiles | workflow/plan_story.go:368-385 | scanning the smaller set yields the sorted intersection |
| Scheduling.AppendUniqueAppends | workflow/derive_story_scheduling.go:291-298 | existing entries keep their place, and only new IDs are appended, once |
| Scheduling.BuildCoverers | workflow/derive_story_scheduling.go:52-58 | maps a requirement to exactly the stories covering it |
| Scheduling.AddCoverers | workflow/derive_story_scheduling.go:76-86 | in any map order, appends all coverers of unowned prerequisites other than the story itself |
| Scheduling.AddSemanticEdges | workflow/derive_story_scheduling.go:50-87 | Pass 1 adds exactly the semantic edges and changes nothing else |
| Scheduling.HandlePair | workflow/derive_story_scheduling.go:129-152 | an ordered or disjoint pair is skipped before components are compared, a same-component pair stops the pass, any other gets the edge to the lower ID |
| Scheduling.ApplyResourceEdges | workflow/derive_story_scheduling.go:108-156 | Pass 2 serialises every contending pair or stops at the first conflict with the earlier pairs' edges in place |
| Scheduling.DeriveStoryScheduling | workflow/derive_story_scheduling.go:44-101 | the three passes achieve `Schedules`: final edges, first conflict with its files, nil exactly on acyclic results, genuine cycle otherwise |
| SchedulingOutcomes.PassOneGraphExact | workflow/derive_story_scheduling.go:60-87 | after Pass 1 a story depends on what it did before and on exactly the other stories covering a transitive prerequisite that it does not cover |
| SchedulingOutcomes.SharePathExact | workflow/plan_requirement.go:128-140 | two stories share a file exactly when they own paths with one non-empty normal form |
| SchedulingOutcomes.DependenciesExact | workflow/derive_story_scheduling.go:13-39 | unless the run stops at a conflict, final dependencies are the initial ones, all needed work, and every smaller sharer that Pass 1 left unordered, and nothing else |
| SchedulingOutcomes.ConflictExact | workflow/derive_story_scheduling.go:129-142 | the run ends in a conflict if and only if two stories of one component share a path and neither waits for the other after Pass 1 |
| SchedulingOutcomes.ComponentSharersOrdered | workflow/derive_story_scheduling.go:22-27 | after nil, stories of one component that share a path were ordered by Pass 1 |
| SchedulingOutcomes.ConflictNamesFirst | workflow/derive_story_scheduling.go:139-142 | the error names the first such pair in slice order, their component and exactly the files both own, sorted |
| SchedulingOutcomes.ConflictDependencies | workflow/derive_story_scheduling.go:121-152 | a run that stops has added all needed work and the smaller sharers of the pairs before the one it names |
| SchedulingTheorems.FinalEdge | workflow/derive_story_scheduling.go:13-39 | each final list, as a set, is initial edges, all coverers of unowned prerequisites, and lower-ID contenders |
| SchedulingTheorems.SharersOrdered | workflow/derive_story_scheduling.go:22-27 | two stories that share a file are ordered after every run that did not stop at a conflict |
| SchedulingTheorems.OwnershipAccepted | workflow/plan_story.go:280-303 | scheduler output always passes the file-ownership validator |
| SchedulingTheorems.ValidatorsAccept | workflow/derive_story_scheduling.go:41-43 | after nil both validators accept, the DAG validator exactly when the initial dependencies were known |
| SchedulingTheorems.Idempotent | workflow/derive_story_scheduling.go:35-39 | a second run leaves every list unchanged element for element and returns nil |
| SchedulingTheorems.OrderIndependent | workflow/derive_story_scheduling.go:60-87 | map order and slice order affect neither the kind of result nor any final edge set |
| SchedulingTheorems.DescendingNeverCyclic | workflow/derive_story_scheduling.go:94-98 | Pass 3 never rejects when all Pass-1 edges point to smaller IDs |
| SchedulingTheorems.CycleBlamesCoverage | workflow/derive_story_scheduling.go:29-33 | Pass 3 rejects if and only if nothing conflicts and either the semantic edges are cyclic or a serialised pair closes a cycle, told from the stories before the call |
| SchedulingTheorems.RejectionNeedsClimb | workflow/derive_story_scheduling.go:94-98 | Pass 3 rejects if and only if nothing conflicts and some Pass-1 edge to an ID that is no smaller leads back to its source |
| SchedulingTheorems.UncontendedBlame | workflow/derive_story_scheduling.go:29-33 | with no pair to serialise, Pass 3 rejects exactly the cyclic semantic graphs |
| SchedulingTheorems.SingleCoverageAcyclic | workflow/derive_story_scheduling.go:29-33 | one requirement per story over a requirement DAG gives an acyclic semantic graph |
| BlamelessCycle.CoverageIsSound | workflow/derive_story_scheduling.go:29-33 | the example plan covers one requirement per story over acyclic graphs |
| BlamelessCycle.AlwaysRejected | workflow/derive_story_scheduling.go:94-98 | every run on it is nevertheless rejected as a cyclic partition |
| Branches.DeterministicStoryOwner | workflow/story_task.go:8-23 | the owner is a covered requirement no larger than any other, or empty when nothing is covered |
| Branches.FirstCovererDecides | workflow/resolve_branch_prereqs.go:14-23 | the first covering story with an owner decides; without one the requirement owns itself |
| Branches.CollectSchedulingOwners | workflow/resolve_branch_prereqs.go:52-71 | collects exactly the owners behind the covering stories, skipping unknown stories |
| Branches.ResolveRequirementBranchPrereqs | workflow/resolve_branch_prereqs.go:42-82 | the sorted, duplicate-free union of both sources, never the requirement itself |
| Branches.BuildDependents | workflow/resolve_branch_prereqs.go:106-112 | the reverse adjacency is exactly the reversed branch relation |
| Branches.DependentBranchSubtree | workflow/resolve_branch_prereqs.go:93-138 | exactly the others that derive from the reopened requirement, sorted, on cyclic relations too; nothing outside still derives from it or from a member |
| BranchOutcomes.OwnerForExact | workflow/resolve_branch_prereqs.go:14-23 | the owner of a requirement is the least listed by its first story with an owner, or itself when it has none |
| BranchOutcomes.BranchPrereqsExact | workflow/resolve_branch_prereqs.go:42-82 | a branch derives from exactly the other branches that carry the work on one of its prerequisites, and the least requirements of the stories that a story listing it depends on |
| BranchOutcomes.DerivesExact | workflow/resolve_branch_prereqs.go:100-104 | the branch relation over a plan, in the same terms |
| BranchOutcomes.OwnerTakesItsStory | workflow/resolve_branch_prereqs.go:93-138 | reopening a story's owner takes along every other requirement of the story that depends on it |
| BranchTheorems.StoryEdgeProjects | workflow/resolve_branch_prereqs.go:35-38 | a story dependency is a step between owner branches or stays on one branch |
| BranchTheorems.SharedWorkOnRelatedBranches | workflow/resolve_branch_prereqs.go:25-29 | after nil, stories sharing a file have one owner or owners of which one derives from the other |
| BranchTheorems.PrereqCovererScheduled | workflow/derive_story_scheduling.go:15-20 | all-coverers wait: a story depends on every other story covering an unowned transitive prerequisite |
| BranchTheorems.EveryCovererDerivedFrom | workflow/resolve_branch_prereqs.go:14-71 | the branch derives from the owner of every such coverer, not only of the first |
| BranchTheorems.BranchCycleCause | workflow/resolve_branch_prereqs.go:103-104 | the branch relation is cyclic if and only if a step through a requirement without exactly one story leads back to where it started |
| BranchTheorems.BranchesAcyclic | workflow/resolve_branch_prereqs.go:103-104 | with exactly one story per requirement no step does, and the relation is acyclic |
| CyclicBranches.DoubleCoverageCyclic | workflow/resolve_branch_prereqs.go:103-104 | a requirement with two stories: every run returns nil and two branches derive from each other |
| CyclicBranches.NoCoverageCyclic | workflow/resolve_branch_prereqs.go:12-13 | a requirement with no story: the same |
| CyclicBranches.PairAcyclic | workflow/plan_requirement.go:32-40 | the requirement graph of the first plan is acyclic |
| CyclicBranches.PartialAcyclic | workflow/plan_requirement.go:32-40 | the requirement graph of the second plan is acyclic |
| Toposort.Decrement | processor/plan-manager/plan_merge.go:375-381 | lowers each counter by the occurrences of the placed node |
| Toposort.ScanOnce | processor/plan-manager/plan_merge.go:368-383 | a scan with counters places what a scan without them places, dependencies first, or proves that every remaining node waits for a remaining one |
| Toposort.KahnTopoSort | processor/plan-manager/plan_merge.go:357-389 | the result of scanning without counters until nothing is placed: distinct nodes, dependencies first, all of them exactly when there is no cycle |
| Toposort.TiesByPosition | processor/plan-manager/plan_merge.go:357-358 | a node is overtaken by one listed after it only if it, or something it depends on, is listed no later than one of its own dependencies |
| Toposort.SortedStays | processor/plan-manager/plan_merge.go:357-358 | a list that already has dependencies first is left as it is |
| Assembly.AssemblyNodes | processor/plan-manager/plan_merge.go:285-328 | lists once, in slice order, each requirement that owns a story or is covered by none |
| BranchOutcomes.MergedExact | processor/plan-manager/plan_merge.go:285-328 | merged are exactly the named plan requirements that are the least of some story or that no story lists |
| BranchOutcomes.OneMergedPerStory | processor/plan-manager/plan_merge.go:251-259 | with one story per requirement, exactly the least requirement of each story is merged |
| Assembly.AssemblyDepGraph | processor/plan-manager/plan_merge.go:330-355 | the merge edges are the branch prerequisites restricted to merged branches, with matching counters |
| Assembly.AssemblyBranchOrder | processor/plan-manager/plan_merge.go:246-283 | every branch with work once; slice order exactly on cycles; otherwise prerequisites merge first and slice order breaks ties |
| Assembly.FallbackIff | processor/plan-manager/plan_merge.go:260-265 | after nil, the merge edges are acyclic if and only if the branch relation is, that is, if no step of it through a requirement without exactly one story leads back |
| Assembly.NoFallback | processor/plan-manager/plan_merge.go:260-265 | with one story per requirement, a nil derivation rules the fallback out |
| Assembly.PrereqIsNode | processor/plan-manager/plan_merge.go:251-259 | every branch derived from is a branch that is merged |
| Assembly.SharedFilesMergeInOrder | processor/plan-manager/plan_merge.go:246-249 | stories sharing a file are on one branch, or on two merged branches, one forked from the other and merged later |
| Execution.StepKeepsGrounded | workflow/story_task.go:85-90 | every gated step keeps: whatever executes or is complete stands on complete dependencies |
| Execution.RunsNeverRace | workflow/plan_story.go:280-303 | no state of any run, with failures, retries and reopens, has two executing stories sharing a file |
| Execution.ScheduledNeverRaces | workflow/derive_story_scheduling.go:8-11 | the same for whatever the derivation accepts |
| Execution.ReopenGateExact | workflow/story_task.go:183-206 | reopening keeps the invariant if and only if no direct dependent is executing or complete |
| Execution.UngatedRacesIffShared | workflow/story_task.go:189-200 | without that gate, a valid plan has a run of allowed transitions that ends in a race if and only if two stories share a file |
| Execution.ReadyStoryDispatchable | workflow/story_task.go:149-152 | in an acyclic, resolved graph with only ready and complete stories, some ready story can be dispatched |
| Execution.FinishesInTwoStepsEach | workflow/story_task.go:191-206 | a failure-free, reopen-free run can advance exactly while it has taken fewer than 2n steps and has completed all n stories exactly at 2n |
| Execution.WalkIsLawful | processor/requirement-executor/recover_completed.go:341-379 | the recovery walk uses allowed transitions only and ends in ready |
| Execution.WalkIsShortest | processor/requirement-executor/recover_completed.go:341-379 | no allowed walk is shorter, except declaring an executing story complete |
| Execution.WalkClaimsNothing | processor/requirement-executor/recover_completed.go:346-351 | the walk passes neither complete nor executing |
| Execution.WalkIsUnique | processor/requirement-executor/recover_completed.go:346-351 | among the allowed walks to ready that do not pass complete, it is the only shortest |
| Execution.EnteredFrom | workflow/story_task.go:191-206 | for each status, exactly what may become it |
| Execution.MoveExact | workflow/story_task.go:149-152 | an allowed change can happen at any time, dispatch exactly when all dependencies are complete |
| Dispatch.FilterReadyRequirements | processor/scenario-orchestrator/dag.go:39-71 | keeps, in order, the incomplete requirements all of whose prerequisites are known and complete |
| Dispatch.IndexStories | processor/scenario-orchestrator/dag.go:106-112 | maps a requirement to exactly the stories covering it |
| Dispatch.FilterByStoryReservations | processor/scenario-orchestrator/dag.go:101-133 | keeps, in order, those with no unshipped story of another owner |
| Dispatch.FilterByBranchPrereqCompletion | processor/scenario-orchestrator/dag.go:166-195 | keeps, in order, those all of whose branch prerequisites are complete; passes everything when there are no stories |
| Dispatch.RequirementsToDispatch | processor/scenario-orchestrator/component.go:332-340 | the chain of filters, shortcuts included, keeps exactly what passes all three gates |
| Dispatch.DispatchableExact | processor/scenario-orchestrator/dag.go:74-97 | what passes: incomplete, prerequisites known and complete, branches complete, and every story that lists it beside a smaller ID shipped |
| Dispatch.DispatchedOnCompletedWork | processor/scenario-orchestrator/dag.go:147-165 | whatever a dispatched requirement's stories depend on is its own or belongs to a completed requirement |
| Dispatch.ReopenKeeps | processor/requirement-executor/recover_completed.go:217-247 | resuming an execution past the filters and tearing down the dependent subtree leaves nothing under way, complete or failed on an incomplete branch |
| Dispatch.ReopenExact | processor/requirement-executor/recover_completed.go:217-247 | a reopen makes the requirement active, unships its stories, drops exactly what derives from it and leaves the rest where it was |
| Dispatch.ReopenPossible | processor/requirement-executor/recover_completed.go:61-66 | any execution, complete, failed or waiting, can be reopened |
| Dispatch.StepKeeps | processor/scenario-orchestrator/dag.go:147-165 | every start, completion, failure and reopen of a completed, failed or waiting execution keeps: what has a record stands on completed branches and does not derive from itself |
| Dispatch.FailedUntilReopened | processor/execution-manager/mutations.go:436-445 | a failed requirement stays failed until it, or something its branch derives from, is reopened |
| Dispatch.RequirementsNeverRace | processor/scenario-orchestrator/dag.go:147-165 | in every such run over an accepted derivation, two requirements under execution never own stories that share a file |
| Dispatch.CyclicNeverStarts | processor/scenario-orchestrator/dag.go:186-195 | a requirement whose branch derives from itself never starts |
| DispatchProgress.NeverStuckIff | processor/scenario-orchestrator/dag.go:161-165 | if all prerequisites are known and no requirement waits for itself through prerequisites, branches and reserved stories, every run halts only with all that is left failed or waiting for something failed; when every requirement has a story, only then |
| DispatchProgress.CanCompleteIff | processor/requirement-executor/component.go:1056-1087 | some run completes every requirement if and only if each has a story, all prerequisites are known and none waits for itself |
| DispatchProgress.SingleCoverageNeverStuckIff | processor/scenario-orchestrator/dag.go:73-101 | after nil with one story per requirement, runs halt only behind failures if and only if prerequisites are known and acyclic and no story's owner has a prerequisite that the story covers |
| StoryOrder.OrderSearch.Visit | processor/requirement-executor/synthesize_dag.go:143-165 | lists a story and all it leads to, dependencies first, or names one that lies on a cycle |
| StoryOrder.TopoSortStoryIds | processor/requirement-executor/synthesize_dag.go:120-175 | sorts exactly the lists without repeated IDs and cycles, dependencies on other lists ignored; an error names an offender |
| Executor.StoriesForRequirement | workflow/types.go:1275-1286 | the stories covering the requirement, in plan order |
| Executor.WorkOrder | processor/requirement-executor/component.go:1070-1083 | on an acyclic plan the sort never fails and lists the covering stories, each after those it depends on |
| Executor.ExecStepKeeps | processor/requirement-executor/component.go:1121-1204 | every launch, skip, completed story, completion, failure and resume keeps: own stories behind the cursor have shipped, what has started stands on completed branches |
| Executor.ExecutorGoesOn | processor/requirement-executor/component.go:1121-1204 | the story at the cursor is passed if shipped and worked on if not, whoever owns it, and at the end the requirement completes |
| Executor.DoneOnlyByWork | processor/requirement-executor/component.go:2536-2561 | between any state in which a story is unshipped and a later completion of its owner, an executor works on it |
| Executor.ResumedWorksAgain | processor/requirement-executor/recover_completed.go:383-401 | between a resume and the next completion, every story of the requirement's own is worked on again |
| Executor.ShippedUntilReopened | processor/requirement-executor/recover_completed.go:402-423 | only reopening its owner, or something its owner derives from, takes a shipped story back |
| Executor.ExecutingOnShipped | workflow/story_task.go:85-90 | whenever a story is worked on, every listed story it depends on, directly or not, has shipped |
| Executor.ExecutorsNeverRace | processor/requirement-executor/synthesize_dag.go:95-97 | in every run over an accepted derivation, no two stories sharing a file are worked on at once, by one requirement or by two |
| StuckPlans.DoubleCoverageNeverStarts | processor/scenario-orchestrator/dag.go:166-195 | on the plan with a doubly covered requirement, every run returns nil and neither requirement ever starts |
| StuckPlans.OwnerWaitsForItsStory | processor/scenario-orchestrator/dag.go:73-101 | a plan that is accepted, with acyclic prerequisites and branches, on which dispatch halts |
| Research.Validate | workflow/research.go:186-227 | accepts exactly the valid records; a citation error names the first bad citation |
| Research.ValidExact | workflow/research.go:186-227 | valid are exactly pending and running records, answers of 1 to 4096 bytes whose citations name one source each, and failures with a reason |
| Research.DecidesOneWay | workflow/research.go:335-384 | a writer that has read refuses, writes or reads again, each in exactly its own case |
| Research.CommitStores | workflow/research.go:367-384 | a write stores what the writer wanted under a new revision and touches no other record |
| Research.StepKeeps | workflow/research.go:335-384 | every interleaved step keeps: stored records are valid, histories are lifecycle paths, held reads are current unless the revision moved |
| Research.HistoriesAreLifecycles | workflow/research.go:106-111 | in every run each record's history is pending, perhaps in progress, then at most one terminal status, and the record is valid |
| Research.TerminalForever | workflow/research.go:328-338 | a terminal record never changes again |
| Research.DocumentedIffNotFromPending | workflow/research.go:106-111 | histories always pass through in_progress exactly when no terminal transition accepts pending |
| Research.OvertakingRun | tools/research/answer_tool.go:134-144 | a run in which the answer overtakes the dispatch |
| Claims.StepKeeps | processor/plan-manager/mutations.go:1144-1177 | every step, whatever faults are allowed, keeps: changes form a chain, no attempt is accepted twice, positive replies answer accepted attempts |
| Claims.CallerMay | workflow/kv_helpers.go:90-117 | exactly when a call can be sent, sent again, given up and answered |
| Claims.ServerMay | processor/plan-manager/mutations.go:1144-1177 | exactly when a request is accepted, refused a save and rejected; other handlers move the status at any time |
| Claims.TrueMeansAccepted | workflow/kv_helpers.go:90-117 | each true result has an accepted transition of its own into its target |
| Claims.ClaimsExclusive | workflow/kv_helpers.go:82-89 | two true results for one target are separated by leaving that target, whatever messages were lost or retried |
| ClaimTables.FalseDespiteAccepted | workflow/kv_helpers.go:97-112 | with retries, early returns or failed saves, a lone executor is told false although its own claim put the story into executing |
| ClaimAnswers.PlainAnswersExact | workflow/kv_helpers.go:90-117 | without those three faults, the result is true if and only if the transition was accepted |
| ClaimAnswers.LoneClaimSucceeds | workflow/kv_helpers.go:90-117 | a lone caller gets what the table allows, and is told so |
| ClaimAnswers.AnswersExactIff | workflow/kv_helpers.go:53-117 | on every table that allows some transition, answers are exact in every run if and only if none of the three faults is allowed |
| ClaimTables.StoryAnswersExactIff | workflow/kv_helpers.go:82-89 | the same for story statuses |
| ClaimAnswers.FalseMeansRejected | workflow/kv_helpers.go:105-112 | without faults, a false result rests on a refusal, while the call waited, at a status from which the table forbids the target and which the caller had not set |
| ClaimTables.RefusedAtStatus | workflow/kv_helpers.go:82-89 | without faults, at the step that refuses a claim of executing the call waits and the story is executing for another, pending, complete or failed |
| ClaimTables.RefusedUnowned | workflow/kv_helpers.go:82-89 | for each fault and each of those other statuses, a run in which the claim is refused and nobody else ever executes the story |
| ClaimTables.FalseMeansOwnedIff | workflow/kv_helpers.go:87-89 | false means that another executor has the story while the call waits, in every run, if and only if no fault is allowed and the story is never pending, complete or failed |
| Claims.ClaimsAlternate | processor/plan-manager/mutations.go:1201-1204 | if no claim can follow a claim, any two accepted claims have a server change between them |
| ClaimTables.OneExecutorAtATime | workflow/story_task.go:191-206 | two executors that claimed one story were separated by the story leaving executing |
| ClaimTables.StoryClaimExact | processor/plan-manager/mutations.go:1163-1171 | a story without a status can be started or failed, others as the status machine says |
| ClaimTables.OneWorkerAtATime | workflow/types.go:224-443 | two accepted plan claims, whatever their targets, are separated by a server change |
| ClaimTables.ClaimTargets | workflow/types.go:224-443 | the ten statuses that can be claimed |
| ClaimTables.DraftsFrom | workflow/types.go:226-255 | from exactly which statuses exploring, drafting and its review are claimed |
| ClaimTables.RequirementsFrom | workflow/types.go:258-286 | the same for requirements and their review |
| ClaimTables.ArchitectureFrom | workflow/types.go:268-316 | the same for architecture and its review |
| ClaimTables.StoriesFrom | workflow/types.go:298-426 | the same for preparing stories |
| ClaimTables.ScenariosFrom | workflow/types.go:330-352 | the same for scenarios and their review |
| ClaimTables.PlanEnds | workflow/types.go:224-443 | what can be rejected, completed and set to implementing |
| AgentTree.NewChildren | agentgraph/graph.go:229-252 | the unvisited children named by well-formed spawn triples, each once |
| AgentTree.SpawnEdgeExact | agentgraph/graph.go:236-250 | a child is named by a text value that parses, under the spawn predicate and no other |
| AgentTree.GetTree | agentgraph/graph.go:216-258 | exactly the entities within maxDepth hops, the root alone when that is not positive, each once, nearest first |
| Prompt.Registry.WouldClash | prompt/registry.go:55-76 | detects exactly the registrations that would give a role a second user prompt |
| Prompt.ClashExact | prompt/registry.go:55-76 | a clash is a role that another user prompt, under another ID, names too |
| Prompt.MatchesExact | prompt/registry.go:132-149 | a fragment applies unless one of its role, provider and condition gates is set and shut |
| Prompt.Registry.Register | prompt/registry.go:32-37 | panics exactly on nil or a clash, changing nothing; otherwise stores the fragment and keeps uniqueness |
| Prompt.Registry.RegisterAll | prompt/registry.go:42-49 | stops at the first panic with the earlier fragments registered |
| Prompt.PickUserPrompt | prompt/assembler.go:80-97 | panics exactly when two user prompts with different IDs are listed |
| Prompt.Registry.SelectUserPrompt | prompt/assembler.go:54-97 | panics exactly when two user prompts apply; otherwise returns the one that does, if any |
| Prompt.RegisteredStaysUnique | prompt/registry.go:26-31 | every sequence of registrations keeps at most one user prompt per named role |
| Prompt.AmbiguousIffRoleless | prompt/assembler.go:85-95 | after any registrations two user prompts apply exactly when a role-less one applies beside another |
| Prompt.NamedRolesNeverPanic | prompt/assembler.go:85-95 | if every user prompt names a role, the assembler's panic is unreachable |
| Prompt.RolelessPairPanics | prompt/registry.go:59-60 | two role-less user prompts register and make every assembly panic |

## Left out

- Prompt.Registry.MatchingFragments: does not model the sort by category and priority; selection does not depend on it.
- Scheduling.DeriveStoryScheduling: lists are values, so two stories whose Go slices share a backing array are not modelled; error texts are reduced to the IDs, component, files and cycle they name.
- CycleSearch.DetectStackCycle: the lifecycle, surface and duplicate-name checks of the capability validator are not modelled, only its cycle search.
- Claims.StepKeeps: malformed requests, unknown plans and unknown stories are rejected by the server before any status is read and are not modelled; the status is the server's cached one, so a KV write that fails after the cache has moved counts as a success, as in the source.
- ClaimTables.OneWorkerAtATime: the status a plan without one is inferred to have from legacy fields is not modelled.
- Dispatch.RequirementsNeverRace: forced redispatch, which takes requirements out of the completed set without tearing down what derives from them, and teardowns that fail half-way are not modelled; filtering and starting are one step, while the orchestrator filters a snapshot and starts requirements a little later, so a reopen that falls in between is not modelled.
- DispatchProgress.NeverStuckIff: recovery budgets and deliverable checks are not modelled, any execution may fail or be reopened at any time; a story reported complete is taken to become complete, although the report is only tried once.
- Executor.ExecutorsNeverRace: that two executors do not hold one story at once is left to the claims (`OneExecutorAtATime`); an executor that is refused its own story and goes on because its record shows work on it is not modelled.
- Dispatch.FilterByStoryReservations: a story's status is looked up by its ID, so two records with one ID cannot differ in status.
- Research.StepKeeps: records never expire, and `Put` is only used to create pending records under fresh IDs, as the research tool does.
- `path.Clean` and the rest of path normalisation: standard-library string handling; the proofs hold for any normaliser.
- Title, file, documentation-only and component checks of `ValidateStory` and `ValidateStoriesAgainstPlan`: single-record conditions; that stories cover only plan requirements, and at least one, appears as the hypothesis `CoversPlan`.
- Git merging, sandbox calls, NATS and HTTP plumbing, graph triples, SHA-256 entity IDs, prompts and Markdown: I/O or formatting.
