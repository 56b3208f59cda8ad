/**
 A plan Pass 3 rejects although its coverage is beyond reproach: three stories,
 one requirement each, over an acyclic requirement graph. Story "1" waits for "3"
 semantically while the shared files serialise "2" behind "1" and "3" behind "2".
 */
module BlamelessCycle {
  import opened Graphs
  import opened Tables
  import opened Ordering
  import opened CycleSearch
  import opened Plan
  import opened Scheduling
  import opened SchedulingTheorems

  const FIRST := Story("1", "alpha", ["r1"], ["x"], [])
  const SECOND := Story("2", "beta", ["r2"], ["x", "y"], [])
  const THIRD := Story("3", "gamma", ["r3"], ["y"], [])
  const STORIES: seq<Story> := [FIRST, SECOND, THIRD]
  const REQS: seq<Requirement> := [Requirement("r1", ["r3"]), Requirement("r2", []), Requirement("r3", [])]

  lemma SingleEdgeReach<V(!new)>(g: Graph<V>, a: V, b: V, x: V, y: V)
    requires a != b && forall v, w :: Edge(g, v, w) <==> v == a && w == b
    ensures Reach(g, x, y) <==> x == a && y == b
  {
    if Reach(g, x, y) {
      var z := ReachHead(g, x, y);
      ClosedSetHoldsReach(g, {b}, x, y);
    }
    if x == a && y == b {
      EdgeReaches(g, a, b);
    }
  }

  lemma RequirementEdges(x: Id, y: Id)
    ensures Edge(ReqGraph(REQS), x, y) <==> x == "r1" && y == "r3"
  {
    var nodes := ReqNodes(REQS);
    assert NodeIds(nodes) == ["r1", "r2", "r3"];
    assert Distinct(NodeIds(nodes));
    if x in NodeIds(nodes) {
      var i :| 0 <= i < |nodes| && NodeIds(nodes)[i] == x;
      DistinctAt(NodeIds(nodes), NodeDeps(nodes), i);
    }
    DistinctAt(NodeIds(nodes), NodeDeps(nodes), 0);
  }

  lemma RequirementReach(x: Id, y: Id)
    ensures Reach(ReqGraph(REQS), x, y) <==> x == "r1" && y == "r3"
  {
    forall v, w ensures Edge(ReqGraph(REQS), v, w) <==> v == "r1" && w == "r3" {
      RequirementEdges(v, w);
    }
    SingleEdgeReach(ReqGraph(REQS), "r1", "r3", x, y);
  }

  lemma Waits(s: Story, c: Story)
    requires s in STORIES && c in STORIES
    ensures WaitsFor(s, c, REQS) <==> s == FIRST && c == THIRD
  {
    forall r, p ensures Reach(ReqGraph(REQS), r, p) <==> r == "r1" && p == "r3" {
      RequirementReach(r, p);
    }
    assert "r1" in FIRST.requirementIds && "r3" !in FIRST.requirementIds && "r3" in THIRD.requirementIds;
    if WaitsFor(s, c, REQS) {
      var r, p :| r in s.requirementIds && Reach(ReqGraph(REQS), r, p) && p in c.requirementIds;
      assert r == "r1" && p == "r3";
    }
  }

  lemma Distinctly()
    ensures UniqueIds(STORIES) && StoryIds(STORIES) == ["1", "2", "3"]
  {
    assert StoryIds(STORIES) == ["1", "2", "3"];
  }

  lemma SemanticReach(x: Id, y: Id)
    ensures Reach(SemanticGraph(STORIES, REQS), x, y) <==> x == "1" && y == "3"
  {
    var g := SemanticGraph(STORIES, REQS);
    Distinctly();
    forall v, w ensures Edge(g, v, w) <==> v == "1" && w == "3" {
      SemanticEdgeIff(v, w);
    }
    SingleEdgeReach(g, "1", "3", x, y);
  }

  lemma SemanticEdgeIff(v: Id, w: Id)
    ensures Edge(SemanticGraph(STORIES, REQS), v, w) <==> v == "1" && w == "3"
  {
    Distinctly();
    if v in StoryIds(STORIES) {
      var i :| 0 <= i < |STORIES| && StoryIds(STORIES)[i] == v;
      SemanticEdgesFrom(i, w);
    }
  }

  lemma SemanticEdgesFrom(i: nat, w: Id)
    requires i < 3
    ensures Edge(SemanticGraph(STORIES, REQS), STORIES[i].id, w) <==> i == 0 && w == "3"
  {
    Distinctly();
    NoInitialDeps(i);
    OnlySemanticEdges(STORIES, i, w);
    WaitsOnlyForThird(i, w);
  }

  lemma NoInitialDeps(i: nat)
    requires i < 3
    ensures STORIES[i].dependsOn == []
  {
  }

  lemma OnlySemanticEdges(stories: seq<Story>, k: nat, y: Id)
    requires UniqueIds(stories) && k < |stories| && stories[k].dependsOn == []
    ensures Edge(SemanticGraph(stories, REQS), stories[k].id, y) <==> y in SemanticEdges(stories[k], stories, REQS)
  {
    SemanticEdgeAt(stories, REQS, k, y);
  }

  lemma WaitsOnlyForThird(i: nat, w: Id)
    requires i < 3
    ensures w in SemanticEdges(STORIES[i], STORIES, REQS) <==> i == 0 && w == "3"
  {
    forall c | c in STORIES ensures WaitsFor(STORIES[i], c, REQS) <==> STORIES[i] == FIRST && c == THIRD {
      Waits(STORIES[i], c);
    }
    assert THIRD in STORIES;
  }

  lemma Shares(hi: nat, f: Path)
    requires (hi == 1 && f == "x") || (hi == 2 && f == "y")
    ensures Contend(STORIES, SemanticGraph(STORIES, REQS), FileTable(Identity, STORIES), hi, hi - 1)
  {
    Distinctly();
    FilesAt(Identity, STORIES, hi);
    FilesAt(Identity, STORIES, hi - 1);
    assert f in STORIES[hi].filesOwned && f in STORIES[hi - 1].filesOwned;
    assert f in OwnedFiles(Identity, STORIES[hi]) * OwnedFiles(Identity, STORIES[hi - 1]);
    SemanticReach(STORIES[hi].id, STORIES[hi - 1].id);
    SemanticReach(STORIES[hi - 1].id, STORIES[hi].id);
  }

  lemma ComponentsDiffer()
    ensures forall i, j :: 0 <= i < j < |STORIES| ==> STORIES[i].componentName != STORIES[j].componentName
  {
  }

  /** The coverage is sound: one requirement each, no cycle among requirements or semantic edges. */
  lemma CoverageIsSound()
    ensures UniqueIds(STORIES) && forall s :: s in STORIES ==> |s.requirementIds| == 1 && s.dependsOn == []
    ensures Acyclic(ReqGraph(REQS)) && Acyclic(SemanticGraph(STORIES, REQS))
  {
    Distinctly();
    forall x ensures !Reach(ReqGraph(REQS), x, x) && !Reach(SemanticGraph(STORIES, REQS), x, x) {
      RequirementReach(x, x);
      SemanticReach(x, x);
    }
  }

  /** Every run on these stories is rejected as a cyclic coverage partition. */
  lemma AlwaysRejected(after: seq<Story>, o: Outcome)
    requires Schedules(Identity, STORIES, REQS, after, o)
    ensures o.CyclicPartition?
  {
    ComponentsDiffer();
    DifferentComponents(Identity, STORIES, REQS, after, o);
    Distinctly();
    var g := StoryGraph(after);
    assert Less("1", "2") && Less("2", "3");
    Shares(1, "x");
    ContenderEdge(Identity, STORIES, REQS, after, o, 1, 0);
    Shares(2, "y");
    ContenderEdge(Identity, STORIES, REQS, after, o, 2, 1);
    SemanticGraphSurvives(Identity, STORIES, REQS, after, o);
    SemanticEdgeIff("1", "3");
    EdgeReaches(g, "1", "3");
    EdgeReaches(g, "3", "2");
    EdgeReaches(g, "2", "1");
    ReachTrans(g, "1", "3", "2");
    ReachTrans(g, "1", "2", "1");
    CyclicRejected(Identity, STORIES, REQS, after, o);
  }
}
