/**
 The two status tables behind claims, and what the claim protocol gives for each:
 one executor at a time per story status, one worker at a time per plan, and when
 a refused story claim means that another executor has the story.
 */
module ClaimTables {
  import opened Claims
  import opened ClaimAnswers
  import Execution

  // ----- stories

  /** A story's stored status; freshly emitted stories carry none and count as ready. */
  datatype Stored = Unset | Known(status: Execution.StoryStatus)

  function StoryClaim(s: Stored, t: Stored): bool {
    && t.Known?
    && (if s.Unset? then Execution.Ready else s.status).CanTransitionTo(t.status)
  }

  /** A story without a status can be started or failed, as a ready one can; none can be claimed into no status. */
  lemma StoryClaimExact(s: Stored, t: Execution.StoryStatus)
    ensures !StoryClaim(s, Unset)
    ensures StoryClaim(s, Known(t)) <==>
      if s.Known? then s.status.CanTransitionTo(t) else t.Executing? || t.Failed?
  {
  }

  lemma StoryClaimIrreflexive()
    ensures Irreflexive(StoryClaim)
  {
  }

  /**
   Two executors that both claimed one story for execution did so in different
   executions: between the two the story stopped executing.
   */
  lemma OneExecutorAtATime(allowed: set<Fault>, run: seq<State<Stored>>, k: nat, c: nat, d: nat)
    returns (i: nat, j: nat, out: nat)
    requires IsRun(StoryClaim, allowed, run) && k < |run| && c != d
    requires c in run[k].calls && run[k].calls[c] == Returned(Known(Execution.Executing), true)
    requires d in run[k].calls && run[k].calls[d] == Returned(Known(Execution.Executing), true)
    ensures OwnChange(run[k], c, i) && OwnChange(run[k], d, j) && (i < out < j || j < out < i)
    ensures run[k].log[out].from == Known(Execution.Executing) != run[k].log[out].to
  {
    StoryClaimIrreflexive();
    i, j, out := ClaimsExclusive(StoryClaim, allowed, run, k, c, d);
  }

  const READY := Known(Execution.Ready)
  const EXECUTING := Known(Execution.Executing)
  const PENDING := Known(Execution.Pending)
  const COMPLETE := Known(Execution.Complete)
  const FAILED := Known(Execution.Failed)

  /** An executor, the only one there is, is told false although its own claim put the story into executing. */
  lemma FalseDespiteAccepted(allowed: set<Fault>) returns (run: seq<State<Stored>>)
    requires Retrying in allowed || GivingUp in allowed || FailingSave in allowed
    ensures LoneRun(StoryClaim, allowed, run, READY, EXECUTING)
    ensures FalseThoughAccepted(run[|run| - 1], EXECUTING)
  {
    run := AcceptedButToldFalse(StoryClaim, allowed, READY, EXECUTING);
  }

  /** Story answers tell whether the claim was accepted exactly when none of those three faults can happen. */
  lemma StoryAnswersExactIff(allowed: set<Fault>)
    ensures AnswersExact(StoryClaim, allowed) <==> allowed <= {RefusingSave}
  {
    StoryClaimIrreflexive();
    AnswersExactIff(StoryClaim, allowed, READY, EXECUTING);
  }

  ghost predicate StaysWithin(run: seq<State<Stored>>, seen: set<Stored>) {
    forall i :: 0 <= i < |run| ==> run[i].status in seen
  }

  /** While call `c` waits for its answer, the story executes, and not by its doing. */
  ghost predicate ExecutesMeanwhile(s: State<Stored>, c: nat) {
    c in s.calls && s.calls[c].Waiting? && OwnedByOther(s, c, EXECUTING)
  }

  ghost predicate SomeoneElseExecutes(run: seq<State<Stored>>, c: nat) {
    exists j :: 0 <= j < |run| && ExecutesMeanwhile(run[j], c)
  }

  /** Call `c` ended the run with a refused claim of executing. */
  ghost predicate RefusedExecuting(run: seq<State<Stored>>, c: nat) {
    |run| > 0 && c in run[|run| - 1].calls && run[|run| - 1].calls[c] == Returned(EXECUTING, false)
  }

  /** As the callers read it: false means that another executor owns the story when they are told. */
  ghost predicate FalseMeansOwned(allowed: set<Fault>, seen: set<Stored>) {
    forall run, c: nat :: IsRun(StoryClaim, allowed, run) && StaysWithin(run, seen) && RefusedExecuting(run, c) ==>
      SomeoneElseExecutes(run, c)
  }

  /**
   Without faults, when a claim of executing is refused the story is executing for
   another, pending, complete or failed.
   */
  lemma RefusedAtStatus(run: seq<State<Stored>>, c: nat) returns (j: nat, next: nat)
    requires IsRun(StoryClaim, {}, run) && RefusedExecuting(run, c)
    ensures j + 1 == next < |run| && Denied(StoryClaim, {}, run[j], run[next], c, EXECUTING)
    ensures c in run[j].calls && run[j].calls[c].Waiting?
    ensures run[j].status in {EXECUTING, PENDING, COMPLETE, FAILED}
    ensures run[j].status == EXECUTING ==> OwnedByOther(run[j], c, EXECUTING)
  {
    StoryClaimIrreflexive();
    j, next := FalseMeansRejected(StoryClaim, run, |run| - 1, c);
  }

  /** A claim refused with nobody at work: some fault happened, or the story was not there to be claimed. */
  lemma RefusedUnowned(allowed: set<Fault>, seen: set<Stored>) returns (run: seq<State<Stored>>)
    requires READY in seen && EXECUTING in seen
    requires allowed != {} || PENDING in seen || COMPLETE in seen || FAILED in seen
    ensures IsRun(StoryClaim, allowed, run) && StaysWithin(run, seen)
    ensures RefusedExecuting(run, 0) && forall j :: 0 <= j < |run| ==> !OwnedByOther(run[j], 0, EXECUTING)
  {
    if !(allowed <= {RefusingSave}) {
      run := AcceptedButToldFalse(StoryClaim, allowed, READY, EXECUTING);
    } else if RefusingSave in allowed {
      run := NoReturned(StoryClaim, allowed, READY, EXECUTING);
    } else {
      var from := if PENDING in seen then PENDING else if COMPLETE in seen then COMPLETE else FAILED;
      run := NoReturned(StoryClaim, allowed, from, EXECUTING);
    }
  }

  /**
   "False means another executor owns this story" holds in every run exactly when
   no fault can happen and the story is never pending, complete or failed while
   executors claim it.
   */
  lemma FalseMeansOwnedIff(allowed: set<Fault>, seen: set<Stored>)
    requires READY in seen && EXECUTING in seen
    ensures FalseMeansOwned(allowed, seen) <==>
      allowed == {} && PENDING !in seen && COMPLETE !in seen && FAILED !in seen
  {
    if allowed == {} && PENDING !in seen && COMPLETE !in seen && FAILED !in seen {
      forall run, c: nat | IsRun(StoryClaim, allowed, run) && StaysWithin(run, seen) && RefusedExecuting(run, c)
        ensures SomeoneElseExecutes(run, c)
      {
        var j, _ := RefusedAtStatus(run, c);
      }
    } else {
      var run := RefusedUnowned(allowed, seen);
    }
  }

  // ----- plans

  datatype PlanStatus =
    | Created | Exploring | Explored | Drafting | Drafted | ReviewingDraft | Reviewed | Approved
    | GeneratingRequirements | RequirementsGenerated | ReviewingRequirements | RequirementsReviewed
    | GeneratingArchitecture | ArchitectureGenerated | ReviewingArchitecture | ArchitectureReviewed
    | PreparingStories | StoriesGenerated | GeneratingScenarios | ScenariosGenerated
    | ReviewingScenarios | ScenariosReviewed | ReadyForExecution | Implementing
    | ReviewingRollup | ReadyForQA | ReviewingQA | AwaitingReview
    | Complete | Archived | Changed | Rejected
  {
    /** States a worker claims before it starts. */
    predicate IsInProgress() {
      this in {Exploring, Drafting, ReviewingDraft, GeneratingRequirements, GeneratingArchitecture, GeneratingScenarios,
               ReviewingScenarios, ReviewingRequirements, ReviewingArchitecture, PreparingStories}
    }

    function Successors(): set<PlanStatus> {
      match this
      case Created => {Exploring, Drafting, Drafted, Rejected}
      case Exploring => {Explored, Rejected}
      case Explored => {Drafting, Drafted, Rejected}
      case Drafting => {Drafted, Rejected}
      case Drafted => {ReviewingDraft, RequirementsGenerated, Reviewed, Rejected}
      case ReviewingDraft => {Reviewed, Created, Rejected}
      case Reviewed => {Approved, Rejected}
      case Approved => {GeneratingRequirements, RequirementsGenerated, ScenariosGenerated, ReadyForExecution, Rejected}
      case GeneratingRequirements => {RequirementsGenerated, Rejected}
      case RequirementsGenerated =>
        {GeneratingArchitecture, ReviewingRequirements, ArchitectureGenerated, Changed, Rejected}
      case ReviewingRequirements => {RequirementsReviewed, Approved, Changed, Rejected}
      case RequirementsReviewed => {GeneratingArchitecture, ArchitectureGenerated, Changed, Rejected}
      case GeneratingArchitecture => {ArchitectureGenerated, Rejected}
      case ArchitectureGenerated => {PreparingStories, ReviewingArchitecture, Changed, Rejected}
      case ReviewingArchitecture => {ArchitectureReviewed, RequirementsGenerated, Changed, Rejected}
      case ArchitectureReviewed => {PreparingStories, Changed, Rejected}
      case PreparingStories => {StoriesGenerated, ArchitectureGenerated, Rejected}
      case StoriesGenerated => {GeneratingScenarios, PreparingStories, Changed, Rejected}
      case GeneratingScenarios => {ScenariosGenerated, Rejected}
      case ScenariosGenerated =>
        {ReviewingScenarios, ScenariosReviewed, Reviewed, ReadyForExecution, Changed, Rejected}
      case ReviewingScenarios =>
        {ScenariosReviewed, Reviewed, ReadyForExecution, Approved, Created, RequirementsGenerated,
         ArchitectureGenerated, Rejected}
      case ScenariosReviewed => {ReadyForExecution, Changed, Rejected}
      case ReadyForExecution => {Implementing, Changed, Rejected}
      case Implementing =>
        {ReviewingRollup, ReviewingQA, ReadyForQA, AwaitingReview, Complete, Changed, PreparingStories,
         RequirementsGenerated, Rejected}
      case ReviewingRollup => {AwaitingReview, Complete, Rejected}
      case ReadyForQA => {ReviewingQA, Rejected}
      case ReviewingQA => {Complete, AwaitingReview, Rejected}
      case AwaitingReview => {Complete, ReadyForExecution, Rejected, Archived}
      case Complete => {Archived, ReadyForExecution, Changed}
      case Archived => {Complete, ReadyForExecution}
      case Changed => {GeneratingRequirements, Rejected}
      case Rejected => {Approved, Created, RequirementsGenerated, ReadyForExecution, Implementing}
    }

    predicate CanTransitionTo(target: PlanStatus) {
      target in Successors()
    }
  }

  /** The server accepts claims of in-progress states only. */
  function PlanClaim(s: PlanStatus, t: PlanStatus): bool {
    t.IsInProgress() && s.CanTransitionTo(t)
  }

  // From the other side: the statuses that can be claimed, and from which.

  lemma DraftsFrom(s: PlanStatus)
    ensures s.CanTransitionTo(Exploring) <==> s == Created
    ensures s.CanTransitionTo(Drafting) <==> s == Created || s == Explored
    ensures s.CanTransitionTo(ReviewingDraft) <==> s == Drafted
  {
  }

  lemma RequirementsFrom(s: PlanStatus)
    ensures s.CanTransitionTo(GeneratingRequirements) <==> s == Approved || s == Changed
    ensures s.CanTransitionTo(ReviewingRequirements) <==> s == RequirementsGenerated
  {
  }

  lemma ArchitectureFrom(s: PlanStatus)
    ensures s.CanTransitionTo(GeneratingArchitecture) <==> s == RequirementsGenerated || s == RequirementsReviewed
    ensures s.CanTransitionTo(ReviewingArchitecture) <==> s == ArchitectureGenerated
  {
  }

  lemma StoriesFrom(s: PlanStatus)
    ensures s.CanTransitionTo(PreparingStories) <==>
      s == ArchitectureGenerated || s == ArchitectureReviewed || s == StoriesGenerated || s == Implementing
  {
  }

  lemma ScenariosFrom(s: PlanStatus)
    ensures s.CanTransitionTo(GeneratingScenarios) <==> s == StoriesGenerated
    ensures s.CanTransitionTo(ReviewingScenarios) <==> s == ScenariosGenerated
  {
  }

  /** Those ten and no others. */
  lemma ClaimTargets(s: PlanStatus, t: PlanStatus)
    ensures PlanClaim(s, t) <==> s.CanTransitionTo(t) && t.IsInProgress()
    ensures t.IsInProgress() <==> (
      || t.Exploring? || t.Drafting? || t.ReviewingDraft? || t.GeneratingRequirements? || t.ReviewingRequirements?
      || t.GeneratingArchitecture? || t.ReviewingArchitecture? || t.PreparingStories? || t.GeneratingScenarios?
      || t.ReviewingScenarios?)
  {
  }

  /** Any plan that has not ended can be rejected, and work ends only in execution, review or an archive. */
  lemma PlanEnds(s: PlanStatus)
    ensures s.CanTransitionTo(Rejected) <==> s !in {Complete, Archived, Rejected}
    ensures s.CanTransitionTo(Complete) <==> s in {Implementing, ReviewingRollup, ReviewingQA, AwaitingReview, Archived}
    ensures s.CanTransitionTo(Implementing) <==> s in {ReadyForExecution, Rejected}
  {
  }

  /** No in-progress status leads to an in-progress status. */
  lemma InProgressEnds(s: PlanStatus, t: PlanStatus)
    requires s.IsInProgress() && t in s.Successors()
    ensures !t.IsInProgress()
  {
  }

  /** While a plan is in a claimed state, no claim of any kind can succeed on it. */
  lemma ClaimedPlanUnclaimable()
    ensures Irreflexive(PlanClaim) && OneClaimAtATime(PlanClaim)
  {
    forall s: PlanStatus, t ensures s.IsInProgress() ==> !PlanClaim(s, t) {
      if s.IsInProgress() && PlanClaim(s, t) {
        InProgressEnds(s, t);
      }
    }
  }

  /** Two workers never hold one plan: between any two accepted claims some handler moved it on. */
  lemma OneWorkerAtATime(allowed: set<Fault>, run: seq<State<PlanStatus>>, k: nat, i: nat, j: nat)
    requires IsRun(PlanClaim, allowed, run) && k < |run|
    requires i < j < |run[k].log| && run[k].log[i].cause.ByAttempt? && run[k].log[j].cause.ByAttempt?
    ensures i + 1 < j && run[k].log[i + 1].cause == ByServer
  {
    ClaimedPlanUnclaimable();
    ClaimsAlternate(PlanClaim, allowed, run, k, i, j);
  }
}
