/**
 What scheduling guarantees about branches: shared-file work never sits on
 unrelated branches, every coverer of a prerequisite is derived from, and the
 branch relation is cyclic only through requirements without exactly one story.
 */
module BranchTheorems {
  import opened Graphs
  import opened Tables
  import opened CycleSearch
  import opened Plan
  import opened Scheduling
  import opened SchedulingTheorems
  import opened Branches

  /** Every story covers something, and only requirements of the plan. */
  ghost predicate CoversPlan(stories: seq<Story>, reqs: seq<Requirement>) {
    forall s :: s in stories ==> s.requirementIds != [] && forall r :: r in s.requirementIds ==> r in ReqIds(reqs)
  }

  ghost predicate NamedRequirements(reqs: seq<Requirement>) {
    "" !in ReqIds(reqs)
  }

  ghost predicate PrereqsKnown(reqs: seq<Requirement>) {
    forall r, d :: r in reqs && d in r.dependsOn ==> d in ReqIds(reqs)
  }

  /** Under the first two every story has an owner, which is a plan requirement. */
  lemma OwnerInPlan(stories: seq<Story>, reqs: seq<Requirement>, s: Story) returns (r: Requirement)
    requires CoversPlan(stories, reqs) && NamedRequirements(reqs) && s in stories
    ensures DeterministicStoryOwner(s) != "" && DeterministicStoryOwner(s) in s.requirementIds
    ensures r in reqs && r.id == DeterministicStoryOwner(s)
  {
    assert DeterministicStoryOwner(s) in ReqIds(reqs);
    r :| r in reqs && r.id == DeterministicStoryOwner(s);
  }

  /** A dependency of a covering story is a branch prerequisite. */
  lemma DependencyDerives(stories: seq<Story>, reqs: seq<Requirement>, i: nat, j: nat, r: Requirement)
    requires UniqueIds(stories) && CoversPlan(stories, reqs) && NamedRequirements(reqs)
    requires i < |stories| && j < |stories| && stories[j].id in stories[i].dependsOn
    requires StoryCoversReq(stories[i], r.id) && DeterministicStoryOwner(stories[j]) != r.id
    ensures DeterministicStoryOwner(stories[j]) in BranchPrereqs(r, stories)
  {
    var table := StoryTable(stories);
    assert stories[j] in stories;
    var owner := OwnerInPlan(stories, reqs, stories[j]);
    DistinctAt(StoryIds(stories), stories, j);
    assert StoryIds(stories)[j] == stories[j].id;
    assert OwnerOf(table, stories[j].id) == DeterministicStoryOwner(stories[j]);
    assert DeterministicStoryOwner(stories[j]) in DepOwners(r.id, table, stories[i]);
    assert stories[i] in stories;
  }

  /** A story edge is a step between owner branches, or stays on one. */
  lemma StoryEdgeProjects(stories: seq<Story>, reqs: seq<Requirement>, i: nat, j: nat)
    requires UniqueIds(stories) && CoversPlan(stories, reqs) && NamedRequirements(reqs)
    requires i < |stories| && j < |stories| && stories[j].id in stories[i].dependsOn
    ensures var a, b := DeterministicStoryOwner(stories[i]), DeterministicStoryOwner(stories[j]);
      SameOrBehind(PrereqGraph(reqs, stories), a, b)
  {
    var a, b := DeterministicStoryOwner(stories[i]), DeterministicStoryOwner(stories[j]);
    assert stories[i] in stories;
    var r := OwnerInPlan(stories, reqs, stories[i]);
    if a != b {
      DependencyDerives(stories, reqs, i, j, r);
      PrereqEdge(reqs, stories, a, b);
      EdgeReaches(PrereqGraph(reqs, stories), a, b);
    }
  }

  /** So is a chain of story edges between listed stories. */
  lemma {:induction false} StoryChainProjects(stories: seq<Story>, reqs: seq<Requirement>, n: nat, i: nat, j: nat)
    requires UniqueIds(stories) && CoversPlan(stories, reqs) && NamedRequirements(reqs)
    requires i < |stories| && j < |stories| && ReachIn(StoryGraph(stories), n, stories[i].id, stories[j].id)
    ensures var a, b := DeterministicStoryOwner(stories[i]), DeterministicStoryOwner(stories[j]);
      SameOrBehind(PrereqGraph(reqs, stories), a, b)
    decreases n
  {
    var g := StoryGraph(stories);
    if n == 0 {
      SameIdSameStory(stories, i, j);
    } else {
      var rest := n - 1;
      var z :| Edge(g, stories[i].id, z) && ReachIn(g, rest, z, stories[j].id);
      StoryEdge(stories, i, z);
      var m := j;
      if rest > 0 {
        var w :| Edge(g, z, w);
        m := StoryEdgeSource(stories, z, w);
      }
      StoryEdgeProjects(stories, reqs, i, m);
      StoryChainProjects(stories, reqs, rest, m, j);
      var h := PrereqGraph(reqs, stories);
      var a, b := DeterministicStoryOwner(stories[i]), DeterministicStoryOwner(stories[m]);
      var c := DeterministicStoryOwner(stories[j]);
      BehindTrans(h, a, b, c);
    }
  }

  lemma StoryReachProjects(stories: seq<Story>, reqs: seq<Requirement>, i: nat, j: nat)
    requires UniqueIds(stories) && CoversPlan(stories, reqs) && NamedRequirements(reqs)
    requires i < |stories| && j < |stories| && Reach(StoryGraph(stories), stories[i].id, stories[j].id)
    ensures var a, b := DeterministicStoryOwner(stories[i]), DeterministicStoryOwner(stories[j]);
      SameOrBehind(PrereqGraph(reqs, stories), a, b)
  {
    var n: nat :| n > 0 && ReachIn(StoryGraph(stories), n, stories[i].id, stories[j].id);
    StoryChainProjects(stories, reqs, n, i, j);
  }

  /** One branch, or two of which one derives from the other. */
  ghost predicate RelatedBranches(g: Graph<Id>, a: Id, b: Id) {
    a == b || Ordered(g, a, b)
  }

  lemma OrderedStoriesRelated(stories: seq<Story>, reqs: seq<Requirement>, i: nat, j: nat)
    requires UniqueIds(stories) && CoversPlan(stories, reqs) && NamedRequirements(reqs)
    requires i < |stories| && j < |stories| && Ordered(StoryGraph(stories), stories[i].id, stories[j].id)
    ensures var a, b := DeterministicStoryOwner(stories[i]), DeterministicStoryOwner(stories[j]);
      RelatedBranches(PrereqGraph(reqs, stories), a, b)
  {
    if Reach(StoryGraph(stories), stories[i].id, stories[j].id) {
      StoryReachProjects(stories, reqs, i, j);
    } else {
      StoryReachProjects(stories, reqs, j, i);
    }
  }

  lemma CoverageKept(before: seq<Story>, after: seq<Story>, reqs: seq<Requirement>)
    requires SameButDeps(before, after) && CoversPlan(before, reqs)
    ensures CoversPlan(after, reqs)
  {
    forall s | s in after ensures s.requirementIds != [] && forall r :: r in s.requirementIds ==> r in ReqIds(reqs) {
      var k :| 0 <= k < |after| && after[k] == s;
      assert before[k] in before;
    }
  }

  /**
   After a nil return, two stories that share a file are owned by one requirement
   or by two of which one's branch derives from the other's: no shared file is
   ever edited on unrelated branches.
   */
  lemma SharedWorkOnRelatedBranches(norm: Normalizer, before: seq<Story>, reqs: seq<Requirement>, after: seq<Story>,
                                    i: nat, j: nat)
    requires UniqueIds(before) && CoversPlan(before, reqs) && NamedRequirements(reqs)
    requires Schedules(norm, before, reqs, after, Scheduled)
    requires i < |after| && j < |after| && i != j
    requires OwnedFiles(norm, after[i]) * OwnedFiles(norm, after[j]) != {}
    ensures var a, b := DeterministicStoryOwner(after[i]), DeterministicStoryOwner(after[j]);
      RelatedBranches(PrereqGraph(reqs, after), a, b)
  {
    CoverageKept(before, after, reqs);
    FinalEdge(norm, before, reqs, after, Scheduled, i, "");
    SharersOrdered(norm, before, reqs, after, Scheduled, i, j);
    OrderedStoriesRelated(after, reqs, i, j);
  }

  /**
   A requirement's branch derives from the owner of every story covering one of
   its transitive prerequisites that its own story does not cover, although
   `OwnerRequirementFor` looks at the first coverer only.
   */
  lemma EveryCovererDerivedFrom(norm: Normalizer, before: seq<Story>, reqs: seq<Requirement>, after: seq<Story>,
                                i: nat, j: nat, r: Requirement, p: Id)
    requires UniqueIds(before) && CoversPlan(before, reqs) && NamedRequirements(reqs)
    requires Schedules(norm, before, reqs, after, Scheduled)
    requires i < |after| && j < |after| && StoryCoversReq(after[i], r.id) && Reach(ReqGraph(reqs), r.id, p)
    requires !StoryCoversReq(after[i], p) && StoryCoversReq(after[j], p)
    ensures DeterministicStoryOwner(after[j]) == r.id || DeterministicStoryOwner(after[j]) in BranchPrereqs(r, after)
  {
    CoverageKept(before, after, reqs);
    PrereqCovererScheduled(norm, before, reqs, after, i, j, r.id, p);
    if DeterministicStoryOwner(after[j]) != r.id {
      DependencyDerives(after, reqs, i, j, r);
    }
  }

  /** All-coverers wait: the story depends on every other coverer of an unowned prerequisite. */
  lemma PrereqCovererScheduled(norm: Normalizer, before: seq<Story>, reqs: seq<Requirement>, after: seq<Story>,
                               i: nat, j: nat, r: Id, p: Id)
    requires UniqueIds(before) && Schedules(norm, before, reqs, after, Scheduled)
    requires i < |after| && j < |after| && StoryCoversReq(after[i], r) && Reach(ReqGraph(reqs), r, p)
    requires !StoryCoversReq(after[i], p) && StoryCoversReq(after[j], p)
    ensures UniqueIds(after) && after[j].id in after[i].dependsOn
  {
    if before[i].id == before[j].id {
      SameIdSameStory(before, i, j);
    }
    assert before[j] in before && WaitsFor(before[i], before[j], reqs);
    FinalEdge(norm, before, reqs, after, Scheduled, i, before[j].id);
  }

  // ----- when the branch relation is acyclic

  ghost predicate UniqueRequirements(reqs: seq<Requirement>) {
    Distinct(NodeIds(ReqNodes(reqs)))
  }

  ghost predicate CoveredAt(stories: seq<Story>, k: nat, q: Id) {
    k < |stories| && StoryCoversReq(stories[k], q)
  }

  /** Story `k` covers `q`, and no other does. */
  ghost predicate OnlyStory(stories: seq<Story>, k: nat, q: Id) {
    CoveredAt(stories, k, q) && forall m: nat :: CoveredAt(stories, m, q) ==> m == k
  }

  ghost predicate Once(stories: seq<Story>, q: Id) {
    exists k: nat :: OnlyStory(stories, k, q)
  }

  /** Each requirement of the plan has one story, and only one. */
  ghost predicate CoveredOnce(stories: seq<Story>, reqs: seq<Requirement>) {
    forall q :: q in ReqIds(reqs) ==> Once(stories, q)
  }

  /** How many stories `s` is behind. */
  ghost function Depth(stories: seq<Story>, s: Story): nat {
    |Below(StoryGraph(stories), Members(StoryIds(stories)), s.id)|
  }

  /** Requirements ordered by the depth of their story, the owner before the others. */
  ghost function Rank(stories: seq<Story>, q: Id): int {
    if Once(stories, q) then
      var k: nat :| OnlyStory(stories, k, q);
      2 * Depth(stories, stories[k]) + if DeterministicStoryOwner(stories[k]) == q then 0 else 1
    else -1
  }

  lemma RankAt(stories: seq<Story>, k: nat, q: Id)
    requires Once(stories, q) && CoveredAt(stories, k, q)
    ensures Rank(stories, q) ==
      2 * Depth(stories, stories[k]) + if DeterministicStoryOwner(stories[k]) == q then 0 else 1
  {
  }

  /** A dependency is behind fewer stories. */
  lemma DepthFalls(stories: seq<Story>, i: nat, j: nat)
    requires UniqueIds(stories) && Acyclic(StoryGraph(stories))
    requires i < |stories| && j < |stories| && stories[j].id in stories[i].dependsOn
    ensures Depth(stories, stories[j]) < Depth(stories, stories[i])
  {
    StoryEdge(stories, i, stories[j].id);
    EdgeReaches(StoryGraph(stories), stories[i].id, stories[j].id);
    assert StoryIds(stories)[j] == stories[j].id;
    BelowShrinks(StoryGraph(stories), Members(StoryIds(stories)), stories[i].id, stories[j].id);
  }

  ghost predicate AllOwned(stories: seq<Story>) {
    forall s :: s in stories ==> DeterministicStoryOwner(s) != ""
  }

  lemma PlanStoriesOwned(stories: seq<Story>, reqs: seq<Requirement>)
    requires CoversPlan(stories, reqs) && NamedRequirements(reqs)
    ensures AllOwned(stories)
  {
    forall s | s in stories ensures DeterministicStoryOwner(s) != "" {
      var _ := OwnerInPlan(stories, reqs, s);
    }
  }

  /** A prerequisite maps to the owner of a covering story, or to itself when there is none. */
  lemma {:induction false} OwnerForCases(q: Id, stories: seq<Story>)
    requires AllOwned(stories)
    ensures (OwnerRequirementFor(q, stories) == q && forall k: nat :: !CoveredAt(stories, k, q))
      || exists k: nat ::
        CoveredAt(stories, k, q) && OwnerRequirementFor(q, stories) == DeterministicStoryOwner(stories[k])
    decreases |stories|
  {
    if stories == [] {
    } else if StoryCoversReq(stories[0], q) {
      assert CoveredAt(stories, 0, q);
    } else {
      var rest := stories[1..];
      OwnerForCases(q, rest);
      if k: nat :| CoveredAt(rest, k, q) && OwnerRequirementFor(q, rest) == DeterministicStoryOwner(rest[k]) {
        assert CoveredAt(stories, k + 1, q) && stories[k + 1] == rest[k];
      } else {
        forall k: nat ensures !CoveredAt(stories, k, q) {
          if k > 0 && k < |stories| {
            assert !CoveredAt(rest, k - 1, q) && rest[k - 1] == stories[k];
          }
        }
      }
    }
  }

  /** Stories as scheduling leaves them: acyclic, and waiting for every coverer of an unowned prerequisite. */
  ghost predicate Settled(stories: seq<Story>, reqs: seq<Requirement>) {
    && UniqueIds(stories) && CoversPlan(stories, reqs) && NamedRequirements(reqs)
    && UniqueRequirements(reqs) && Acyclic(StoryGraph(stories))
    && forall i: nat, j: nat, r, p :: Needs(stories, reqs, i, j, r, p) ==> stories[j].id in stories[i].dependsOn
  }

  /** Story `j` covers a prerequisite `p` of requirement `r` that story `i` covers without covering `p`. */
  ghost predicate Needs(stories: seq<Story>, reqs: seq<Requirement>, i: nat, j: nat, r: Id, p: Id) {
    CoveredAt(stories, i, r) && CoveredAt(stories, j, p) && !CoveredAt(stories, i, p) && Reach(ReqGraph(reqs), r, p)
  }

  lemma ScheduledIsSettled(norm: Normalizer, before: seq<Story>, reqs: seq<Requirement>, after: seq<Story>)
    requires UniqueIds(before) && CoversPlan(before, reqs) && NamedRequirements(reqs) && UniqueRequirements(reqs)
    requires Schedules(norm, before, reqs, after, Scheduled)
    ensures Settled(after, reqs)
    ensures forall k: nat, q :: CoveredAt(after, k, q) <==> CoveredAt(before, k, q)
  {
    CoverageKept(before, after, reqs);
    IdsKept(before, after);
    forall i: nat, j: nat, r, p | Needs(after, reqs, i, j, r, p) ensures after[j].id in after[i].dependsOn {
      PrereqCovererScheduled(norm, before, reqs, after, i, j, r, p);
    }
  }

  /**
   A step of the branch relation that single coverage accounts for: both ends have
   one story, and so has the prerequisite behind it when it comes from one.
   */
  ghost predicate SingleStoryStep(r: Requirement, stories: seq<Story>, y: Id) {
    && Once(stories, r.id) && Once(stories, y) && y != r.id
    && (y in SchedulingOwners(r.id, stories) || exists d :: OncePrereq(r, stories, d, y))
  }

  ghost predicate OncePrereq(r: Requirement, stories: seq<Story>, d: Id, y: Id) {
    d in r.dependsOn && Once(stories, d) && OwnerRequirementFor(d, stories) == y
  }

  ghost function SingleStoryGraph(reqs: seq<Requirement>, stories: seq<Story>): (g: Graph<Id>)
    ensures forall x, y :: Edge(g, x, y) ==> exists r :: r in reqs && r.id == x && SingleStoryStep(r, stories, y)
    ensures forall r, y :: r in reqs && y in BranchPrereqs(r, stories) && SingleStoryStep(r, stories, y) ==>
      Edge(g, r.id, y)
  {
    map id | id in ReqIds(reqs) ::
      set r, y | r in reqs && r.id == id && y in BranchPrereqs(r, stories) && SingleStoryStep(r, stories, y) :: y
  }

  /** Behind a story's dependency: strictly shallower. */
  lemma DependencyRanksLower(stories: seq<Story>, reqs: seq<Requirement>, x: Id, i: nat, j: nat)
    requires Settled(stories, reqs) && Once(stories, x) && CoveredAt(stories, i, x)
    requires j < |stories| && stories[j].id in stories[i].dependsOn
    requires Once(stories, DeterministicStoryOwner(stories[j]))
    ensures Rank(stories, DeterministicStoryOwner(stories[j])) < Rank(stories, x)
  {
    DepthFalls(stories, i, j);
    assert stories[j] in stories;
    var r := OwnerInPlan(stories, reqs, stories[j]);
    RankAt(stories, j, DeterministicStoryOwner(stories[j]));
    RankAt(stories, i, x);
  }

  lemma SchedulingOwnerRanksLower(stories: seq<Story>, reqs: seq<Requirement>, x: Id, y: Id)
    requires Settled(stories, reqs) && Once(stories, x) && Once(stories, y) && y in SchedulingOwners(x, stories)
    ensures Rank(stories, y) < Rank(stories, x)
  {
    var table := StoryTable(stories);
    var s :| s in stories && StoryCoversReq(s, x) && y in DepOwners(x, table, s);
    var i: nat :| i < |stories| && stories[i] == s;
    var d :| d in s.dependsOn && OwnerOf(table, d) == y && y != "";
    var j := LastWinsAt(StoryIds(stories), stories, d);
    assert CoveredAt(stories, i, x);
    DependencyRanksLower(stories, reqs, x, i, j);
  }

  lemma PrereqOwnerRanksLower(stories: seq<Story>, reqs: seq<Requirement>, r: Requirement, d: Id, i: nat, m: nat)
    requires Settled(stories, reqs) && r in reqs && d in r.dependsOn
    requires OnlyStory(stories, i, r.id) && OnlyStory(stories, m, d)
    requires DeterministicStoryOwner(stories[m]) != r.id && Once(stories, DeterministicStoryOwner(stories[m]))
    ensures Rank(stories, DeterministicStoryOwner(stories[m])) < Rank(stories, r.id)
  {
    assert stories[m] in stories;
    var owner := OwnerInPlan(stories, reqs, stories[m]);
    if m == i {
      RankAt(stories, i, r.id);
      RankAt(stories, i, DeterministicStoryOwner(stories[i]));
    } else {
      PrereqReach(reqs, r, d);
      assert Needs(stories, reqs, i, m, r.id, d);
      DependencyRanksLower(stories, reqs, r.id, i, m);
    }
  }

  lemma SingleStoryStepRanksLower(stories: seq<Story>, reqs: seq<Requirement>, r: Requirement, y: Id)
    requires Settled(stories, reqs) && r in reqs && SingleStoryStep(r, stories, y)
    ensures Rank(stories, y) < Rank(stories, r.id)
  {
    if y in SchedulingOwners(r.id, stories) {
      SchedulingOwnerRanksLower(stories, reqs, r.id, y);
    } else {
      var d :| OncePrereq(r, stories, d, y);
      PlanStoriesOwned(stories, reqs);
      OwnerForCases(d, stories);
      var m: nat :| OnlyStory(stories, m, d);
      var i: nat :| OnlyStory(stories, i, r.id);
      assert y == DeterministicStoryOwner(stories[m]);
      PrereqOwnerRanksLower(stories, reqs, r, d, i, m);
    }
  }

  lemma PrereqReach(reqs: seq<Requirement>, r: Requirement, d: Id)
    requires UniqueRequirements(reqs) && r in reqs && d in r.dependsOn
    ensures Reach(ReqGraph(reqs), r.id, d)
  {
    var nodes := ReqNodes(reqs);
    var k :| 0 <= k < |reqs| && reqs[k] == r;
    DistinctAt(NodeIds(nodes), NodeDeps(nodes), k);
    EdgeReaches(ReqGraph(reqs), r.id, d);
  }

  /** Such steps alone never lead back to where they started. */
  lemma SingleStoryStepsAcyclic(stories: seq<Story>, reqs: seq<Requirement>)
    requires Settled(stories, reqs)
    ensures Acyclic(SingleStoryGraph(reqs, stories))
  {
    var rank := (q: Id) => Rank(stories, q);
    forall x, y | Edge(SingleStoryGraph(reqs, stories), x, y) ensures rank(y) < rank(x) {
      var r :| r in reqs && r.id == x && SingleStoryStep(r, stories, y);
      SingleStoryStepRanksLower(stories, reqs, r, y);
    }
    DescendingIsAcyclic(SingleStoryGraph(reqs, stories), rank);
  }

  /** `r` derives from `y` through a requirement without exactly one story, and `y` derives from `r`. */
  ghost predicate LooseReturn(reqs: seq<Requirement>, stories: seq<Story>, r: Requirement, y: Id) {
    && r in reqs && y in BranchPrereqs(r, stories) && !SingleStoryStep(r, stories, y)
    && Reach(PrereqGraph(reqs, stories), y, r.id)
  }

  /**
   The derived branch relation is cyclic exactly when a step through a requirement
   that is covered by no story or by several leads back to where it started.
   */
  lemma BranchCycleCause(norm: Normalizer, before: seq<Story>, reqs: seq<Requirement>, after: seq<Story>)
    requires UniqueIds(before) && CoversPlan(before, reqs) && NamedRequirements(reqs) && UniqueRequirements(reqs)
    requires Schedules(norm, before, reqs, after, Scheduled)
    ensures !Acyclic(PrereqGraph(reqs, after)) <==> exists r, y :: LooseReturn(reqs, after, r, y)
  {
    var g := PrereqGraph(reqs, after);
    ScheduledIsSettled(norm, before, reqs, after);
    SingleStoryStepsAcyclic(after, reqs);
    if x :| Reach(g, x, x) {
      var a, b := CycleUsesNewEdge(SingleStoryGraph(reqs, after), g, x);
      PrereqEdge(reqs, after, a, b);
      var r :| r in reqs && r.id == a && b in BranchPrereqs(r, after);
      assert LooseReturn(reqs, after, r, b);
    }
    if r, y :| LooseReturn(reqs, after, r, y) {
      PrereqEdge(reqs, after, r.id, y);
      EdgeOnCycle(g, r.id, y);
    }
  }

  /**
   If every requirement is covered by exactly one story, a nil return leaves the
   branch-prerequisite relation acyclic.
   */
  lemma BranchesAcyclic(norm: Normalizer, before: seq<Story>, reqs: seq<Requirement>, after: seq<Story>)
    requires UniqueIds(before) && CoversPlan(before, reqs) && NamedRequirements(reqs) && UniqueRequirements(reqs)
    requires CoveredOnce(before, reqs) && Schedules(norm, before, reqs, after, Scheduled)
    ensures Acyclic(PrereqGraph(reqs, after))
  {
    ScheduledIsSettled(norm, before, reqs, after);
    BranchCycleCause(norm, before, reqs, after);
    OnceKept(before, after, reqs);
    forall r, y ensures !LooseReturn(reqs, after, r, y) {
      if LooseReturn(reqs, after, r, y) {
        NoLooseReturn(reqs, after, r, y);
      }
    }
  }

  lemma OnceKept(before: seq<Story>, after: seq<Story>, reqs: seq<Requirement>)
    requires CoveredOnce(before, reqs) && forall k: nat, q :: CoveredAt(after, k, q) <==> CoveredAt(before, k, q)
    ensures CoveredOnce(after, reqs)
  {
    forall q | q in ReqIds(reqs) ensures Once(after, q) {
      var k: nat :| OnlyStory(before, k, q);
      assert OnlyStory(after, k, q);
    }
  }

  lemma NoLooseReturn(reqs: seq<Requirement>, stories: seq<Story>, r: Requirement, y: Id)
    requires CoversPlan(stories, reqs) && NamedRequirements(reqs) && CoveredOnce(stories, reqs)
    requires r in reqs && y in BranchPrereqs(r, stories) && Reach(PrereqGraph(reqs, stories), y, r.id)
    ensures SingleStoryStep(r, stories, y)
  {
    var z := ReachHead(PrereqGraph(reqs, stories), y, r.id);
    assert r.id in ReqIds(reqs) && y in ReqIds(reqs);
    if y !in SchedulingOwners(r.id, stories) {
      var d :| d in r.dependsOn && OwnerRequirementFor(d, stories) == y && y != r.id;
      PlanStoriesOwned(stories, reqs);
      OwnerForCases(d, stories);
      if k: nat :| CoveredAt(stories, k, d) {
        assert stories[k] in stories;
      }
      assert OncePrereq(r, stories, d, y);
    }
  }
}
