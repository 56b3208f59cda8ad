/**
 Two plans whose branch relation is cyclic although the derivation returns nil
 and the requirement graph is acyclic. Together they show that neither half of
 "covered by exactly one story" can be dropped from `BranchesAcyclic`.
 */
module CyclicBranches {
  import opened Graphs
  import opened Tables
  import opened Ordering
  import opened CycleSearch
  import opened Plan
  import opened Scheduling
  import opened SchedulingTheorems
  import opened Branches
  import opened BranchTheorems

  /** Without semantic edges and with distinct components the derivation returns nil. */
  lemma ReturnsNil(norm: Normalizer, before: seq<Story>, reqs: seq<Requirement>, after: seq<Story>, o: Outcome)
    requires UniqueIds(before) && Schedules(norm, before, reqs, after, o)
    requires forall i, j :: 0 <= i < j < |before| ==> before[i].componentName != before[j].componentName
    requires forall x, y :: !Edge(SemanticGraph(before, reqs), x, y)
    ensures o == Scheduled
  {
    DifferentComponents(norm, before, reqs, after, o);
    DescendingNeverCyclic(norm, before, reqs, after, o);
  }

  /** Stories wait for nothing when no requirement has a prerequisite. */
  lemma NoSemanticEdges(stories: seq<Story>, reqs: seq<Requirement>, x: Id, y: Id)
    requires UniqueIds(stories) && forall s :: s in stories ==> s.dependsOn == []
    requires forall s, c :: s in stories && c in stories ==> !WaitsFor(s, c, reqs)
    ensures !Edge(SemanticGraph(stories, reqs), x, y)
  {
    if x in StoryIds(stories) {
      var i :| 0 <= i < |stories| && StoryIds(stories)[i] == x;
      SemanticEdgeAt(stories, reqs, i, y);
      assert stories[i] in stories;
    }
  }

  // ----- one requirement, two stories

  const TWICE: seq<Story> := [
    Story("a", "alpha", ["r1"], ["x"], []),
    Story("b", "beta", ["r2"], ["x", "y"], []),
    Story("c", "gamma", ["r1"], ["y"], [])]
  const R1 := Requirement("r1", [])
  const R2 := Requirement("r2", [])
  const PAIR: seq<Requirement> := [R1, R2]

  lemma PairHasNoEdges(x: Id, y: Id)
    ensures !Edge(ReqGraph(PAIR), x, y)
  {
    var nodes := ReqNodes(PAIR);
    if x in NodeIds(nodes) {
      var i := LastWinsAt(NodeIds(nodes), NodeDeps(nodes), x);
    }
  }

  lemma TwiceBasics()
    ensures UniqueIds(TWICE) && StoryIds(TWICE) == ["a", "b", "c"]
    ensures forall i, j :: 0 <= i < j < |TWICE| ==> TWICE[i].componentName != TWICE[j].componentName
    ensures forall x, y :: !Edge(SemanticGraph(TWICE, PAIR), x, y)
  {
    assert StoryIds(TWICE) == ["a", "b", "c"];
    forall s, c | s in TWICE && c in TWICE ensures !WaitsFor(s, c, PAIR) {
      forall r, p ensures !Reach(ReqGraph(PAIR), r, p) {
        if Reach(ReqGraph(PAIR), r, p) {
          var z := ReachHead(ReqGraph(PAIR), r, p);
          PairHasNoEdges(r, z);
        }
      }
    }
    forall x, y ensures !Edge(SemanticGraph(TWICE, PAIR), x, y) {
      NoSemanticEdges(TWICE, PAIR, x, y);
    }
  }

  lemma CommonFile(norm: Normalizer, s: Story, t: Story, f: Path)
    requires norm(f) != "" && f in s.filesOwned && f in t.filesOwned
    ensures norm(f) in OwnedFiles(norm, s) * OwnedFiles(norm, t)
  {
  }

  lemma NoEdgesNoOrder(g: Graph<Id>, x: Id, y: Id)
    requires forall v, w :: !Edge(g, v, w)
    ensures !Ordered(g, x, y)
  {
    if Reach(g, x, y) {
      var z := ReachHead(g, x, y);
    } else if Reach(g, y, x) {
      var z := ReachHead(g, y, x);
    }
  }

  /** Without semantic edges, any two stories that share a file contend. */
  lemma SharersContend(norm: Normalizer, stories: seq<Story>, reqs: seq<Requirement>, hi: nat, lo: nat, f: Path)
    requires UniqueIds(stories) && forall x, y :: !Edge(SemanticGraph(stories, reqs), x, y)
    requires hi < |stories| && lo < |stories| && hi != lo && norm(f) != ""
    requires f in stories[hi].filesOwned && f in stories[lo].filesOwned
    ensures Contend(stories, SemanticGraph(stories, reqs), FileTable(norm, stories), hi, lo)
  {
    FilesAt(norm, stories, hi);
    FilesAt(norm, stories, lo);
    CommonFile(norm, stories[hi], stories[lo], f);
    NoEdgesNoOrder(SemanticGraph(stories, reqs), stories[hi].id, stories[lo].id);
  }

  /** The shared files serialise "b" behind "a" and "c" behind "b". */
  lemma TwiceSerialized(after: seq<Story>, o: Outcome)
    requires Schedules(Identity, TWICE, PAIR, after, o)
    ensures o == Scheduled && |after| == 3 && UniqueIds(after) && SameButDeps(TWICE, after)
    ensures "a" in after[1].dependsOn && "b" in after[2].dependsOn
  {
    TwiceBasics();
    ReturnsNil(Identity, TWICE, PAIR, after, o);
    assert Less("a", "b") && Less("b", "c");
    SharersContend(Identity, TWICE, PAIR, 1, 0, "x");
    ContenderEdge(Identity, TWICE, PAIR, after, o, 1, 0);
    FinalEdge(Identity, TWICE, PAIR, after, o, 1, "a");
    SharersContend(Identity, TWICE, PAIR, 2, 1, "y");
    ContenderEdge(Identity, TWICE, PAIR, after, o, 2, 1);
    FinalEdge(Identity, TWICE, PAIR, after, o, 2, "b");
  }

  /** Every run returns nil and leaves "r1" and "r2" deriving from each other. */
  lemma DoubleCoverageCyclic(after: seq<Story>, o: Outcome)
    requires Schedules(Identity, TWICE, PAIR, after, o)
    ensures o == Scheduled && !Acyclic(PrereqGraph(PAIR, after))
    ensures Reach(PrereqGraph(PAIR, after), "r1", "r1") && Reach(PrereqGraph(PAIR, after), "r2", "r2")
  {
    TwiceSerialized(after, o);
    var g := PrereqGraph(PAIR, after);
    TwiceCovered();
    CoverageKept(TWICE, after, PAIR);
    assert R1 in PAIR && R2 in PAIR;
    assert after[0].id == "a" && after[1].id == "b";
    assert after[0].requirementIds == ["r1"] && after[1].requirementIds == ["r2"] && after[2].requirementIds == ["r1"];
    DependencyDerives(after, PAIR, 1, 0, R2);
    DependencyDerives(after, PAIR, 2, 1, R1);
    PrereqEdge(PAIR, after, "r2", "r1");
    PrereqEdge(PAIR, after, "r1", "r2");
    EdgeReaches(g, "r2", "r1");
    EdgeReaches(g, "r1", "r2");
    ReachTrans(g, "r1", "r2", "r1");
    ReachTrans(g, "r2", "r1", "r2");
  }

  lemma TwiceCovered()
    ensures CoversPlan(TWICE, PAIR) && NamedRequirements(PAIR)
  {
    assert R1 in PAIR && R2 in PAIR;
    assert "r1" in ReqIds(PAIR) && "r2" in ReqIds(PAIR);
  }

  // ----- one requirement, no story

  const SHARED := Story("s", "alpha", ["r3", "r4"], ["x"], [])
  const LOOSE := Requirement("r0", ["r4"])
  const OWNING := Requirement("r3", ["r0"])
  const LEAF := Requirement("r4", [])
  const PARTIAL: seq<Requirement> := [LOOSE, OWNING, LEAF]

  lemma SharedOwner()
    ensures DeterministicStoryOwner(SHARED) == "r3"
  {
    LessTrichotomy("r3", "r4");
    assert SHARED.requirementIds[0] == "r3" && "r3" in SHARED.requirementIds;
    assert Less("r3", "r4");
  }

  /**
   "r0" is covered by no story. It needs "r4", whose work is on the branch of "r3",
   and "r3" needs "r0": the two branches derive from each other.
   */
  lemma NoCoverageCyclic(after: seq<Story>, o: Outcome)
    requires Schedules(Identity, [SHARED], PARTIAL, after, o)
    ensures o == Scheduled && !Acyclic(PrereqGraph(PARTIAL, after))
  {
    SharedReturnsNil(after, o);
    var g := PrereqGraph(PARTIAL, after);
    SharedDerives(after);
    EdgeReaches(g, "r0", "r3");
    EdgeReaches(g, "r3", "r0");
    ReachTrans(g, "r0", "r3", "r0");
  }

  lemma SharedDerives(after: seq<Story>)
    requires SameButDeps([SHARED], after)
    ensures Edge(PrereqGraph(PARTIAL, after), "r0", "r3") && Edge(PrereqGraph(PARTIAL, after), "r3", "r0")
  {
    SharedOwner();
    assert after == [after[0]] && after[0].requirementIds == SHARED.requirementIds;
    assert DeterministicStoryOwner(after[0]) == "r3";
    assert OwnerRequirementFor("r4", after) == "r3";
    assert OwnerRequirementFor("r0", after) == "r0";
    assert "r4" in LOOSE.dependsOn && "r0" in OWNING.dependsOn;
    assert "r3" in PrereqOwners(LOOSE, after) && "r0" in PrereqOwners(OWNING, after);
    assert LOOSE in PARTIAL && OWNING in PARTIAL;
    PrereqEdge(PARTIAL, after, "r0", "r3");
    PrereqEdge(PARTIAL, after, "r3", "r0");
  }

  lemma SharedReturnsNil(after: seq<Story>, o: Outcome)
    requires Schedules(Identity, [SHARED], PARTIAL, after, o)
    ensures o == Scheduled && SameButDeps([SHARED], after)
  {
    forall x, y ensures !Edge(SemanticGraph([SHARED], PARTIAL), x, y) {
      NoSemanticEdges([SHARED], PARTIAL, x, y);
    }
    ReturnsNil(Identity, [SHARED], PARTIAL, after, o);
  }

  ghost function Height(q: Id): int {
    if q == "r3" then 2 else if q == "r0" then 1 else 0
  }

  /** Neither plan's requirement graph has a cycle. */
  lemma PairAcyclic()
    ensures Acyclic(ReqGraph(PAIR))
  {
    forall x, y ensures !Edge(ReqGraph(PAIR), x, y) {
      PairHasNoEdges(x, y);
    }
    DescendingIsAcyclic(ReqGraph(PAIR), Height);
  }

  lemma PartialEdgeFalls(x: Id, y: Id)
    requires Edge(ReqGraph(PARTIAL), x, y)
    ensures Height(y) < Height(x)
  {
    var nodes := ReqNodes(PARTIAL);
    var i := LastWinsAt(NodeIds(nodes), NodeDeps(nodes), x);
    assert y in PARTIAL[i].dependsOn;
  }

  lemma PartialAcyclic()
    ensures Acyclic(ReqGraph(PARTIAL))
  {
    forall x, y | Edge(ReqGraph(PARTIAL), x, y) ensures Height(y) < Height(x) {
      PartialEdgeFalls(x, y);
    }
    DescendingIsAcyclic(ReqGraph(PARTIAL), Height);
  }
}
