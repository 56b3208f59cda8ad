/**
 Which branches a branch derives from, which go stale with it and which are merged,
 told from the requirements and stories alone: who lists whom, and which of the
 listed IDs is the least.
 */
module BranchOutcomes {
  import opened Graphs
  import opened Tables
  import opened Ordering
  import opened Plan
  import opened Branches
  import opened BranchTheorems
  import opened Assembly

  // ----- owners

  /** `p` is listed, and no listed ID is smaller. */
  ghost predicate IsLeast(ids: seq<Id>, p: Id) {
    p in ids && forall r :: r in ids ==> Leq(p, r)
  }

  lemma LeastIsOwner(s: Story, p: Id)
    requires s.requirementIds != []
    ensures IsLeast(s.requirementIds, p) <==> DeterministicStoryOwner(s) == p
  {
    if IsLeast(s.requirementIds, p) {
      var o := DeterministicStoryOwner(s);
      assert Leq(o, p) && Leq(p, o);
      LessTrichotomy(o, p);
    }
  }

  /** Only a story that lists the empty ID, which is the least of all, is without an owner. */
  lemma Ownerless(s: Story)
    requires s.requirementIds != []
    ensures DeterministicStoryOwner(s) == "" <==> "" in s.requirementIds
  {
    if "" in s.requirementIds {
      assert Leq(DeterministicStoryOwner(s), "");
    }
  }

  /** `k` is the first story that lists `d` and has an owner. */
  ghost predicate FirstWithOwner(stories: seq<Story>, k: nat, d: Id) {
    && k < |stories| && d in stories[k].requirementIds && "" !in stories[k].requirementIds
    && forall m :: 0 <= m < k && d in stories[m].requirementIds ==> "" in stories[m].requirementIds
  }

  /** `p` is the branch that carries the work on `d`: its first story's, or its own when it has none. */
  ghost predicate CarriesWorkOn(stories: seq<Story>, d: Id, p: Id) {
    || (exists k: nat :: FirstWithOwner(stories, k, d) && IsLeast(stories[k].requirementIds, p))
    || (p == d && forall k: nat :: !FirstWithOwner(stories, k, d))
  }

  lemma {:induction false} FirstOrNone(stories: seq<Story>, d: Id) returns (k: nat)
    ensures k <= |stories|
    ensures forall m :: 0 <= m < k && d in stories[m].requirementIds ==> "" in stories[m].requirementIds
    ensures k < |stories| ==> FirstWithOwner(stories, k, d)
    decreases |stories|
  {
    if stories == [] {
      k := 0;
    } else {
      var n := |stories| - 1;
      k := FirstOrNone(stories[..n], d);
      if k < n {
        assert FirstWithOwner(stories[..n], k, d) && stories[..n][k] == stories[k];
        assert forall m :: 0 <= m < k ==> stories[..n][m] == stories[m];
      } else {
        assert forall m :: 0 <= m < n ==> stories[..n][m] == stories[m];
        k := if d in stories[n].requirementIds && "" !in stories[n].requirementIds then n else n + 1;
      }
    }
  }

  lemma OwnsForExact(s: Story, d: Id)
    ensures OwnsFor(s, d) <==> d in s.requirementIds && "" !in s.requirementIds
  {
    if d in s.requirementIds {
      Ownerless(s);
    }
  }

  lemma FirstIsUnique(stories: seq<Story>, k: nat, m: nat, d: Id)
    requires FirstWithOwner(stories, k, d) && FirstWithOwner(stories, m, d)
    ensures k == m
  {
  }

  lemma FirstDecides(stories: seq<Story>, k: nat, d: Id)
    requires FirstWithOwner(stories, k, d)
    ensures OwnerRequirementFor(d, stories) == DeterministicStoryOwner(stories[k])
  {
    forall m | 0 <= m < k ensures !OwnsFor(stories[m], d) {
      OwnsForExact(stories[m], d);
    }
    OwnsForExact(stories[k], d);
    FirstCovererDecides(d, stories, k);
  }

  lemma NoneDecides(stories: seq<Story>, d: Id)
    requires forall k: nat :: !FirstWithOwner(stories, k, d)
    ensures OwnerRequirementFor(d, stories) == d
  {
    var k := FirstOrNone(stories, d);
    forall m | 0 <= m < k ensures !OwnsFor(stories[m], d) {
      OwnsForExact(stories[m], d);
    }
    FirstCovererDecides(d, stories, k);
  }

  lemma OwnerForExact(stories: seq<Story>, d: Id, p: Id)
    ensures OwnerRequirementFor(d, stories) == p <==> CarriesWorkOn(stories, d, p)
  {
    if k: nat :| FirstWithOwner(stories, k, d) {
      FirstDecides(stories, k, d);
      LeastIsOwner(stories[k], p);
      if n: nat :| FirstWithOwner(stories, n, d) && IsLeast(stories[n].requirementIds, p) {
        FirstIsUnique(stories, k, n, d);
      }
    } else {
      NoneDecides(stories, d);
    }
  }

  // ----- what a branch derives from

  /** `p` carries the work on a prerequisite of `r`. */
  ghost predicate ByPrerequisite(r: Requirement, stories: seq<Story>, p: Id) {
    exists d :: d in r.dependsOn && CarriesWorkOn(stories, d, p)
  }

  /** Some story that lists `q` depends on the story at `j`, whose least requirement is `p`. */
  ghost predicate ByStory(stories: seq<Story>, q: Id, j: nat, p: Id) {
    && j < |stories| && IsLeast(stories[j].requirementIds, p) && p != ""
    && (forall m :: j < m < |stories| ==> stories[m].id != stories[j].id)
    && exists s :: s in stories && q in s.requirementIds && stories[j].id in s.dependsOn
  }

  lemma PrereqOwnersExact(r: Requirement, stories: seq<Story>, p: Id)
    ensures p in PrereqOwners(r, stories) <==> p != r.id && ByPrerequisite(r, stories, p)
  {
    if p in PrereqOwners(r, stories) {
      var d :| d in r.dependsOn && OwnerRequirementFor(d, stories) == p;
      OwnerForExact(stories, d, p);
    }
    if d :| d in r.dependsOn && CarriesWorkOn(stories, d, p) {
      OwnerForExact(stories, d, p);
    }
  }

  /** The table of stories keeps the last record of every ID. */
  lemma TableOwnerExact(stories: seq<Story>, d: Id, p: Id)
    requires p != ""
    ensures OwnerOf(StoryTable(stories), d) == p <==> exists j: nat :: LastOwned(stories, d, j, p)
  {
    if m: nat :| LastOwned(stories, d, m, p) {
      assert StoryIds(stories)[m] == d;
      var j := LastWinsAt(StoryIds(stories), stories, d);
      assert m == j;
      LeastIsOwner(stories[j], p);
    } else if OwnerOf(StoryTable(stories), d) == p {
      var j := LastWinsAt(StoryIds(stories), stories, d);
      LeastIsOwner(stories[j], p);
      assert LastOwned(stories, d, j, p);
    }
  }

  ghost predicate LastOwned(stories: seq<Story>, d: Id, j: nat, p: Id) {
    && j < |stories| && stories[j].id == d && IsLeast(stories[j].requirementIds, p)
    && forall m :: j < m < |stories| ==> stories[m].id != d
  }

  lemma SchedulingOwnersExact(q: Id, stories: seq<Story>, p: Id)
    ensures p in SchedulingOwners(q, stories) <==> p != q && exists j: nat :: ByStory(stories, q, j, p)
  {
    var table := StoryTable(stories);
    if p in SchedulingOwners(q, stories) {
      var s :| s in stories && StoryCoversReq(s, q) && p in DepOwners(q, table, s);
      var d :| d in s.dependsOn && OwnerOf(table, d) == p && p != "" && p != q;
      TableOwnerExact(stories, d, p);
      var j: nat :| LastOwned(stories, d, j, p);
      assert ByStory(stories, q, j, p);
    }
    if p != q {
      if j: nat :| ByStory(stories, q, j, p) {
        var s :| s in stories && q in s.requirementIds && stories[j].id in s.dependsOn;
        assert LastOwned(stories, stories[j].id, j, p);
        TableOwnerExact(stories, stories[j].id, p);
        assert p in DepOwners(q, table, s);
      }
    }
  }

  /**
   A branch derives from exactly the branches, other than itself, that carry the work
   on one of its prerequisites, and those of the stories that a story listing it
   depends on. Whether the same story lists the prerequisite makes no difference.
   */
  lemma BranchPrereqsExact(r: Requirement, stories: seq<Story>, p: Id)
    ensures p in BranchPrereqs(r, stories) <==>
      p != r.id && (ByPrerequisite(r, stories, p) || exists j: nat :: ByStory(stories, r.id, j, p))
  {
    PrereqOwnersExact(r, stories, p);
    SchedulingOwnersExact(r.id, stories, p);
  }

  // ----- what goes stale

  /** Reopening the branch that carries a prerequisite's work makes the dependent stale. */
  lemma DependentGoesStale(reqs: seq<Requirement>, stories: seq<Story>, r: Requirement, d: Id, p: Id)
    requires r in reqs && d in r.dependsOn && CarriesWorkOn(stories, d, p) && p != r.id
    ensures Reach(PrereqGraph(reqs, stories), r.id, p)
  {
    BranchPrereqsExact(r, stories, p);
    PrereqEdge(reqs, stories, r.id, p);
    EdgeReaches(PrereqGraph(reqs, stories), r.id, p);
  }

  /** Reopening a story's owner takes along every other requirement of the story that depends on it. */
  lemma OwnerTakesItsStory(reqs: seq<Requirement>, stories: seq<Story>, k: nat, o: Id, r: Requirement)
    requires FirstWithOwner(stories, k, o) && IsLeast(stories[k].requirementIds, o)
    requires r in reqs && r.id in stories[k].requirementIds && r.id != o && o in r.dependsOn
    ensures Reach(PrereqGraph(reqs, stories), r.id, o)
  {
    DependentGoesStale(reqs, stories, r, o, o);
  }

  /** One step of the branch relation, in these terms. */
  ghost predicate DerivesFrom(reqs: seq<Requirement>, stories: seq<Story>, x: Id, p: Id) {
    exists r :: r in reqs && r.id == x && p != x &&
      (ByPrerequisite(r, stories, p) || exists j: nat :: ByStory(stories, x, j, p))
  }

  lemma DerivesExact(reqs: seq<Requirement>, stories: seq<Story>, x: Id, p: Id)
    ensures Edge(PrereqGraph(reqs, stories), x, p) <==> DerivesFrom(reqs, stories, x, p)
  {
    PrereqEdge(reqs, stories, x, p);
    if r :| r in reqs && r.id == x && p in BranchPrereqs(r, stories) {
      BranchPrereqsExact(r, stories, p);
    }
    if DerivesFrom(reqs, stories, x, p) {
      var r :| r in reqs && r.id == x && p != x &&
        (ByPrerequisite(r, stories, p) || exists j: nat :: ByStory(stories, x, j, p));
      BranchPrereqsExact(r, stories, p);
    }
  }

  // ----- what is merged

  /** `q` is the least that some story lists. */
  ghost predicate LeastSomewhere(stories: seq<Story>, q: Id) {
    exists s :: s in stories && IsLeast(s.requirementIds, q)
  }

  ghost predicate ListedSomewhere(stories: seq<Story>, q: Id) {
    exists s :: s in stories && q in s.requirementIds
  }

  /** Merged are the named requirements that are the least of some story, or that no story lists. */
  lemma MergedExact(reqs: seq<Requirement>, stories: seq<Story>, q: Id)
    ensures IsAssemblyNode(reqs, stories, q) <==> (
      && q != "" && (exists r :: r in reqs && r.id == q)
      && (LeastSomewhere(stories, q) || !ListedSomewhere(stories, q)))
  {
    if s :| s in stories && IsLeast(s.requirementIds, q) {
      LeastIsOwner(s, q);
    }
    if q != "" {
      if s :| s in stories && DeterministicStoryOwner(s) == q {
        assert s.requirementIds != [];
        LeastIsOwner(s, q);
      }
    }
    if s :| s in stories && q in s.requirementIds {
      assert StoryCoversReq(s, q);
    }
  }

  /** With one story per requirement, exactly one requirement of each story is merged: the least. */
  lemma OneMergedPerStory(reqs: seq<Requirement>, stories: seq<Story>, k: nat, q: Id)
    requires CoversPlan(stories, reqs) && NamedRequirements(reqs) && CoveredOnce(stories, reqs)
    requires k < |stories| && q in stories[k].requirementIds
    ensures IsAssemblyNode(reqs, stories, q) <==> IsLeast(stories[k].requirementIds, q)
  {
    assert stories[k] in stories && q in ReqIds(reqs);
    MergedExact(reqs, stories, q);
    var n: nat :| OnlyStory(stories, n, q);
    assert CoveredAt(stories, k, q);
    if s :| s in stories && IsLeast(s.requirementIds, q) {
      var m: nat :| m < |stories| && stories[m] == s;
      assert CoveredAt(stories, m, q);
    }
  }
}
