/**
 Git branch derivation: which requirement branches a requirement's branch forks
 from, and which branches go stale when one is reopened.
 */
module Branches {
  import opened Graphs
  import opened Tables
  import opened Ordering
  import opened Closure
  import opened Plan

  /** The smallest covered requirement ID runs the story; "" when none is covered. */
  function DeterministicStoryOwner(s: Story): (owner: Id)
    ensures s.requirementIds == [] ==> owner == ""
    ensures s.requirementIds != [] ==> owner in s.requirementIds
    ensures forall r :: r in s.requirementIds ==> Leq(owner, r)
  {
    if s.requirementIds == [] then ""
    else
      SortedHeadIsLeast(s.requirementIds);
      Sorted(s.requirementIds)[0]
  }

  predicate StoryCoversReq(s: Story, reqId: Id) {
    reqId in s.requirementIds
  }

  /** The owner of the first covering story that has one; without any, the requirement itself. */
  function OwnerRequirementFor(reqId: Id, stories: seq<Story>): Id {
    if stories == [] then reqId
    else if StoryCoversReq(stories[0], reqId) && DeterministicStoryOwner(stories[0]) != "" then
      DeterministicStoryOwner(stories[0])
    else OwnerRequirementFor(reqId, stories[1..])
  }

  ghost predicate OwnsFor(s: Story, reqId: Id) {
    StoryCoversReq(s, reqId) && DeterministicStoryOwner(s) != ""
  }

  /** The result is fixed by the first covering story with an owner, whatever later stories say. */
  lemma {:induction false} FirstCovererDecides(reqId: Id, stories: seq<Story>, k: nat)
    requires k <= |stories| && forall m :: 0 <= m < k ==> !OwnsFor(stories[m], reqId)
    requires k < |stories| ==> OwnsFor(stories[k], reqId)
    ensures OwnerRequirementFor(reqId, stories) == if k < |stories| then DeterministicStoryOwner(stories[k]) else reqId
    decreases |stories|
  {
    if k > 0 {
      assert !OwnsFor(stories[0], reqId);
      FirstCovererDecides(reqId, stories[1..], k - 1);
    }
  }

  function StoryTable(stories: seq<Story>): (table: map<Id, Story>)
    ensures forall id :: id in table <==> id in StoryIds(stories)
  {
    LastWins(StoryIds(stories), stories)
  }

  /** Unknown story IDs are skipped, as are stories without an owner. */
  function OwnerOf(table: map<Id, Story>, storyId: Id): Id {
    if storyId in table then DeterministicStoryOwner(table[storyId]) else ""
  }

  // ----- the branches a requirement derives from

  /** Owners of the requirement's own prerequisites. */
  ghost function PrereqOwners(req: Requirement, stories: seq<Story>): set<Id> {
    set d | d in req.dependsOn && OwnerRequirementFor(d, stories) != req.id :: OwnerRequirementFor(d, stories)
  }

  /** Owners of the stories that `s` is scheduled behind. */
  ghost function DepOwners(reqId: Id, table: map<Id, Story>, s: Story): set<Id> {
    OwnersAmong(reqId, table, s.dependsOn)
  }

  ghost function OwnersAmong(reqId: Id, table: map<Id, Story>, ds: seq<Id>): set<Id> {
    set d | d in ds && OwnerOf(table, d) != "" && OwnerOf(table, d) != reqId :: OwnerOf(table, d)
  }

  lemma OwnersAmongSnoc(reqId: Id, table: map<Id, Story>, ds: seq<Id>, d: Id)
    ensures OwnersAmong(reqId, table, ds + [d]) == OwnersAmong(reqId, table, ds)
      + if OwnerOf(table, d) != "" && OwnerOf(table, d) != reqId then {OwnerOf(table, d)} else {}
  {
    assert d in ds + [d];
  }

  /** Owners of the stories that any story covering `reqId` is scheduled behind. */
  ghost function SchedulingOwners(reqId: Id, stories: seq<Story>): set<Id> {
    OwnersBehind(reqId, StoryTable(stories), stories)
  }

  ghost function OwnersBehind(reqId: Id, table: map<Id, Story>, stories: seq<Story>): set<Id> {
    set s, o | s in stories && StoryCoversReq(s, reqId) && o in DepOwners(reqId, table, s) :: o
  }

  lemma OwnersBehindSnoc(reqId: Id, table: map<Id, Story>, stories: seq<Story>, s: Story)
    ensures OwnersBehind(reqId, table, stories + [s]) ==
      OwnersBehind(reqId, table, stories) + if StoryCoversReq(s, reqId) then DepOwners(reqId, table, s) else {}
  {
    assert s in stories + [s];
  }

  ghost function BranchPrereqs(req: Requirement, stories: seq<Story>): set<Id> {
    PrereqOwners(req, stories) + SchedulingOwners(req.id, stories)
  }

  method CollectOwners(reqId: Id, table: map<Id, Story>, s: Story) returns (owners: set<Id>)
    ensures owners == DepOwners(reqId, table, s)
  {
    owners := {};
    for k := 0 to |s.dependsOn|
      invariant owners == OwnersAmong(reqId, table, s.dependsOn[..k])
    {
      PrefixGrows(s.dependsOn, k);
      OwnersAmongSnoc(reqId, table, s.dependsOn[..k], s.dependsOn[k]);
      var owner := OwnerOf(table, s.dependsOn[k]);
      if owner != "" && owner != reqId {
        owners := owners + {owner};
      }
    }
    assert s.dependsOn[..|s.dependsOn|] == s.dependsOn;
  }

  method CollectSchedulingOwners(reqId: Id, stories: seq<Story>) returns (owners: set<Id>)
    ensures owners == SchedulingOwners(reqId, stories)
  {
    var table := Tabulate(StoryIds(stories), stories);
    owners := {};
    for i := 0 to |stories|
      invariant owners == OwnersBehind(reqId, table, stories[..i])
    {
      PrefixGrows(stories, i);
      OwnersBehindSnoc(reqId, table, stories[..i], stories[i]);
      if StoryCoversReq(stories[i], reqId) {
        var here := CollectOwners(reqId, table, stories[i]);
        owners := owners + here;
      }
    }
    assert stories[..|stories|] == stories;
  }

  /** The sorted owners whose branches `req` must fork from; never its own. */
  method ResolveRequirementBranchPrereqs(req: Requirement, stories: seq<Story>) returns (out: seq<Id>)
    ensures StrictlySorted(out)
    ensures forall p :: p in out <==> p in BranchPrereqs(req, stories)
    ensures req.id !in out
  {
    var owners: set<Id> := {};
    for k := 0 to |req.dependsOn|
      invariant forall o :: o in owners <==>
        exists m :: 0 <= m < k && OwnerRequirementFor(req.dependsOn[m], stories) == o && o != req.id
    {
      var owner := OwnerRequirementFor(req.dependsOn[k], stories);
      if owner != req.id {
        owners := owners + {owner};
      }
    }
    assert owners == PrereqOwners(req, stories);
    var scheduled := CollectSchedulingOwners(req.id, stories);
    out := SortedKeys(owners + scheduled);
  }

  // ----- the branches that derive from one

  ghost function ReqIds(reqs: seq<Requirement>): set<Id> {
    set r | r in reqs :: r.id
  }

  /** Requirement ID to the owners its branch derives from directly. */
  ghost function PrereqGraph(reqs: seq<Requirement>, stories: seq<Story>): Graph<Id> {
    map id | id in ReqIds(reqs) :: set r, p | r in reqs && r.id == id && p in BranchPrereqs(r, stories) :: p
  }

  lemma PrereqEdge(reqs: seq<Requirement>, stories: seq<Story>, x: Id, p: Id)
    ensures Edge(PrereqGraph(reqs, stories), x, p) <==>
      exists r :: r in reqs && r.id == x && p in BranchPrereqs(r, stories)
  {
  }

  lemma PrereqEdgeSnoc(reqs: seq<Requirement>, r: Requirement, stories: seq<Story>, x: Id, p: Id)
    ensures Edge(PrereqGraph(reqs + [r], stories), x, p) <==>
      Edge(PrereqGraph(reqs, stories), x, p) || (x == r.id && p in BranchPrereqs(r, stories))
  {
    PrereqEdge(reqs, stories, x, p);
    PrereqEdge(reqs + [r], stories, x, p);
    assert r in reqs + [r];
  }

  /** Reverse adjacency: owner to the requirements that derive directly from it. */
  method BuildDependents(reqs: seq<Requirement>, stories: seq<Story>) returns (dependentsOf: map<Id, seq<Id>>)
    ensures forall x, p :: x in Successors(dependentsOf, p) <==> Edge(PrereqGraph(reqs, stories), x, p)
  {
    dependentsOf := map[];
    for i := 0 to |reqs|
      invariant forall x, p :: x in Successors(dependentsOf, p) <==> Edge(PrereqGraph(reqs[..i], stories), x, p)
    {
      var r := reqs[i];
      var prereqs := ResolveRequirementBranchPrereqs(r, stories);
      dependentsOf := AddDependents(dependentsOf, r.id, prereqs);
      PrefixGrows(reqs, i);
      forall x, p ensures x in Successors(dependentsOf, p) <==> Edge(PrereqGraph(reqs[..i + 1], stories), x, p) {
        PrereqEdgeSnoc(reqs[..i], r, stories, x, p);
      }
    }
    assert reqs[..|reqs|] == reqs;
  }

  method AddDependents(before: map<Id, seq<Id>>, id: Id, prereqs: seq<Id>) returns (after: map<Id, seq<Id>>)
    ensures forall x, p :: x in Successors(after, p) <==> x in Successors(before, p) || (x == id && p in prereqs)
  {
    after := before;
    for k := 0 to |prereqs|
      invariant forall x, p :: x in Successors(after, p) <==>
        x in Successors(before, p) || (x == id && p in prereqs[..k])
    {
      after := after[prereqs[k] := Successors(after, prereqs[k]) + [id]];
      assert prereqs[..k + 1] == prereqs[..k] + [prereqs[k]];
    }
    assert prereqs[..|prereqs|] == prereqs;
  }

  /**
   The requirements to invalidate when `reopened` re-runs: exactly the others
   whose branch derives from it, directly or through others. Nothing outside the
   result still derives from `reopened` or from a member of the result.
   */
  method DependentBranchSubtree(reopened: Id, reqs: seq<Requirement>, stories: seq<Story>) returns (out: seq<Id>)
    ensures StrictlySorted(out)
    ensures forall r :: r in out <==> r != reopened && Reach(PrereqGraph(reqs, stories), r, reopened)
    ensures forall r, p :: r in reqs && p in BranchPrereqs(r, stories) && (p == reopened || p in out) ==>
      r.id == reopened || r.id in out
  {
    ghost var g := PrereqGraph(reqs, stories);
    var dependentsOf := BuildDependents(reqs, stories);
    var visited := ReachableOthers(dependentsOf, reopened);
    out := SortedKeys(visited);
    forall r ensures Reach(g, r, reopened) <==> Reach(EdgesOf(dependentsOf), reopened, r) {
      ReverseReach(g, EdgesOf(dependentsOf), r, reopened);
    }
    forall r, p | r in reqs && p in BranchPrereqs(r, stories) && (p == reopened || p in out)
      ensures r.id == reopened || r.id in out
    {
      PrereqEdge(reqs, stories, r.id, p);
      EdgeReaches(g, r.id, p);
      if p != reopened {
        ReachTrans(g, r.id, p, reopened);
      }
    }
  }
}
