/**
 Two plans that every derivation accepts and that requirement dispatch can never
 finish. In the first two branches derive from each other; in the second all
 branches are in order, but a story's owner has a prerequisite in its own story.
 */
module StuckPlans {
  import opened Graphs
  import opened Tables
  import opened Ordering
  import opened CycleSearch
  import opened Plan
  import opened Scheduling
  import opened Branches
  import opened BranchTheorems
  import opened CyclicBranches
  import opened Dispatch
  import opened DispatchProgress

  lemma PairUnique()
    ensures UniqueRequirements(PAIR)
  {
    assert NodeIds(ReqNodes(PAIR)) == ["r1", "r2"];
  }

  /** "r1" and "r2" wait for each other's branch in every run, although the derivation returned nil. */
  lemma DoubleCoverageNeverStarts(after: seq<Story>, o: Outcome, run: seq<State>, k: nat)
    requires Schedules(Identity, TWICE, PAIR, after, o) && IsRun(PAIR, after, run) && k < |run|
    ensures o == Scheduled && !Started(run[k], "r1") && !Started(run[k], "r2")
  {
    DoubleCoverageCyclic(after, o);
    PairUnique();
    CyclicNeverStarts(PAIR, after, run, k, "r1");
    CyclicNeverStarts(PAIR, after, run, k, "r2");
  }

  const COVERING := Story("s", "alpha", ["r1", "r2"], ["x"], [])
  const NEEDING := Requirement("r1", ["r2"])
  const NEEDED := Requirement("r2", [])
  const INWARD: seq<Requirement> := [NEEDING, NEEDED]

  ghost function InwardHeight(q: Id): int {
    if q == "r1" then 1 else 0
  }

  lemma InwardAcyclic()
    ensures Acyclic(ReqGraph(INWARD))
  {
    var nodes := ReqNodes(INWARD);
    forall x, y | Edge(ReqGraph(INWARD), x, y) ensures InwardHeight(y) < InwardHeight(x) {
      var i := LastWinsAt(NodeIds(nodes), NodeDeps(nodes), x);
      assert y in INWARD[i].dependsOn;
    }
    DescendingIsAcyclic(ReqGraph(INWARD), InwardHeight);
  }

  lemma InwardPlanOk()
    ensures PlanOk(INWARD, [COVERING]) && CoveredOnce([COVERING], INWARD)
  {
    assert NodeIds(ReqNodes(INWARD)) == ["r1", "r2"];
    assert NEEDING in INWARD && NEEDED in INWARD;
    assert "r1" in ReqIds(INWARD) && "r2" in ReqIds(INWARD);
    forall q | q in ReqIds(INWARD) ensures Once([COVERING], q) {
      assert OnlyStory([COVERING], 0, q);
    }
  }

  lemma InwardReturnsNil(after: seq<Story>, o: Outcome)
    requires Schedules(Identity, [COVERING], INWARD, after, o)
    ensures o == Scheduled
  {
    forall x, y ensures !Edge(SemanticGraph([COVERING], INWARD), x, y) {
      NoSemanticEdges([COVERING], INWARD, x, y);
    }
    ReturnsNil(Identity, [COVERING], INWARD, after, o);
  }

  lemma CoveringOwner()
    ensures DeterministicStoryOwner(COVERING) == "r1"
  {
    LessTrichotomy("r1", "r2");
    assert COVERING.requirementIds[0] == "r1" && "r1" in COVERING.requirementIds;
    assert Less("r1", "r2");
  }

  /**
   "r1" owns the story and waits for "r2", which waits for the story: dispatch is
   stuck, although the derivation returns nil and both the prerequisites and the
   branches are acyclic.
   */
  lemma OwnerWaitsForItsStory(after: seq<Story>, o: Outcome)
    requires Schedules(Identity, [COVERING], INWARD, after, o)
    ensures o == Scheduled && Acyclic(ReqGraph(INWARD)) && Acyclic(PrereqGraph(INWARD, after))
    ensures !NeverStuck(INWARD, after)
  {
    InwardAcyclic();
    InwardPlanOk();
    InwardReturnsNil(after, o);
    BranchesAcyclic(Identity, [COVERING], INWARD, after);
    CoveringOwner();
    assert NEEDING in INWARD && COVERING in [COVERING];
    assert "r2" in NEEDING.dependsOn && StoryCoversReq(COVERING, "r2");
    assert OwnerNeedsCovered(INWARD, COVERING, NEEDING, "r2");
    SingleCoverageNeverStuckIff(Identity, [COVERING], INWARD, after);
  }
}
