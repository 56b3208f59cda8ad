/**
 Plan-level assembly: which requirement branches are merged, and in what order,
 so that every branch merges after the branches it was forked from.
 */
module Assembly {
  import opened Graphs
  import opened Tables
  import opened CycleSearch
  import opened Plan
  import opened Scheduling
  import opened Branches
  import opened BranchTheorems
  import opened Toposort

  // ----- the branches to merge

  /** The requirement's branch carries work: it owns a story, or no story covers it. */
  ghost predicate CarriesWork(stories: seq<Story>, q: Id) {
    || (q != "" && exists s :: s in stories && DeterministicStoryOwner(s) == q)
    || forall s :: s in stories ==> !StoryCoversReq(s, q)
  }

  ghost predicate IsAssemblyNode(reqs: seq<Requirement>, stories: seq<Story>, q: Id) {
    q != "" && q in ReqIds(reqs) && CarriesWork(stories, q)
  }

  method WorkSets(stories: seq<Story>) returns (owners: set<Id>, covered: set<Id>)
    ensures forall q :: CarriesWork(stories, q) <==> q in owners || q !in covered
  {
    owners := set s | s in stories && DeterministicStoryOwner(s) != "" :: DeterministicStoryOwner(s);
    covered := set s, r | s in stories && r in s.requirementIds :: r;
  }

  ghost predicate FirstAt(ids: seq<Id>, x: Id, p: nat) {
    p < |ids| && ids[p] == x && x !in ids[..p]
  }

  /** Where an ID first occurs. */
  ghost function Place(ids: seq<Id>, x: Id): (p: nat)
    ensures x in ids ==> FirstAt(ids, x, p)
  {
    if ids == [] || ids[0] == x then 0
    else
      assert ids == [ids[0]] + ids[1..];
      var rest := Place(ids[1..], x);
      assert x in ids[1..] ==> ids[..rest + 1] == [ids[0]] + ids[1..][..rest];
      rest + 1
  }

  /** Listed by first occurrence in `ids`. */
  ghost predicate InSliceOrder(ids: seq<Id>, order: seq<Id>) {
    forall j, k :: 0 <= j < k < |order| ==> Place(ids, order[j]) < Place(ids, order[k])
  }

  function RequirementIds(reqs: seq<Requirement>): seq<Id> {
    NodeIds(ReqNodes(reqs))
  }

  method AssemblyNodes(reqs: seq<Requirement>, stories: seq<Story>) returns (order: seq<Id>)
    ensures Distinct(order) && InSliceOrder(RequirementIds(reqs), order)
    ensures forall q :: q in order <==> IsAssemblyNode(reqs, stories, q)
  {
    var owners, covered := WorkSets(stories);
    var ids := NodeIds(ReqNodes(reqs));
    order := KeepWorking(ids, owners, covered);
    forall q ensures q in ids <==> q in ReqIds(reqs) {
      ListedIds(reqs, q);
    }
  }

  /** The first occurrence of every non-empty ID that owns a story or is not covered. */
  method KeepWorking(ids: seq<Id>, owners: set<Id>, covered: set<Id>) returns (order: seq<Id>)
    ensures Distinct(order) && InSliceOrder(ids, order)
    ensures forall q :: q in order <==> q in ids && q != "" && (q in owners || q !in covered)
  {
    order := [];
    for i := 0 to |ids|
      invariant Distinct(order) && InSliceOrder(ids, order)
      invariant forall q :: q in order ==> Place(ids, q) < i
      invariant forall q :: q in order <==> q in ids[..i] && q != "" && (q in owners || q !in covered)
    {
      var id := ids[i];
      PrefixGrows(ids, i);
      if (id in owners || id !in covered) && id != "" && id !in order {
        assert FirstAt(ids, id, i);
        order := order + [id];
      }
    }
    assert ids[..|ids|] == ids;
  }

  lemma ListedIds(reqs: seq<Requirement>, q: Id)
    ensures q in NodeIds(ReqNodes(reqs)) <==> q in ReqIds(reqs)
  {
    var ids := NodeIds(ReqNodes(reqs));
    if q in ids {
      var m :| 0 <= m < |ids| && ids[m] == q;
      assert reqs[m] in reqs && reqs[m].id == q;
    }
    if q in ReqIds(reqs) {
      var r :| r in reqs && r.id == q;
      var m :| 0 <= m < |reqs| && reqs[m] == r;
      assert ids[m] == q;
    }
  }

  // ----- the edges between them

  function RequirementTable(reqs: seq<Requirement>): (table: map<Id, Requirement>)
    ensures forall id :: id in table <==> id in NodeIds(ReqNodes(reqs))
  {
    LastWins(NodeIds(ReqNodes(reqs)), reqs)
  }

  lemma TableEntry(reqs: seq<Requirement>, q: Id)
    requires q in ReqIds(reqs)
    ensures q in RequirementTable(reqs) && RequirementTable(reqs)[q] in reqs && RequirementTable(reqs)[q].id == q
  {
    ListedIds(reqs, q);
    var i := LastWinsAt(NodeIds(ReqNodes(reqs)), reqs, q);
  }

  /** Branch prerequisites between merged branches. */
  ghost predicate MergesAfter(reqs: seq<Requirement>, stories: seq<Story>, x: Id, y: Id) {
    && IsAssemblyNode(reqs, stories, x) && IsAssemblyNode(reqs, stories, y) && x != y
    && x in RequirementTable(reqs) && y in BranchPrereqs(RequirementTable(reqs)[x], stories)
  }

  ghost function MergeGraph(reqs: seq<Requirement>, stories: seq<Story>): (g: Graph<Id>)
    ensures forall x, y :: Edge(g, x, y) <==> MergesAfter(reqs, stories, x, y)
  {
    map x | x in ReqIds(reqs) :: set y | y in ReqIds(reqs) && MergesAfter(reqs, stories, x, y)
  }

  method KeepNodes(prereqs: seq<Id>, nodes: set<Id>, id: Id) returns (deps: seq<Id>)
    ensures forall p :: p in deps <==> p in prereqs && p in nodes && p != id
  {
    deps := [];
    for k := 0 to |prereqs|
      invariant forall p :: p in deps <==> p in prereqs[..k] && p in nodes && p != id
    {
      PrefixGrows(prereqs, k);
      if prereqs[k] in nodes && prereqs[k] != id {
        deps := deps + [prereqs[k]];
      }
    }
    assert prereqs[..|prereqs|] == prereqs;
  }

  method DepsFor(id: Id, table: map<Id, Requirement>, nodes: set<Id>, reqs: seq<Requirement>, stories: seq<Story>)
    returns (deps: seq<Id>)
    requires table == RequirementTable(reqs) && id in nodes
    requires forall q :: q in nodes <==> IsAssemblyNode(reqs, stories, q)
    ensures forall y :: y in deps <==> MergesAfter(reqs, stories, id, y)
  {
    TableEntry(reqs, id);
    var prereqs := ResolveRequirementBranchPrereqs(table[id], stories);
    deps := KeepNodes(prereqs, nodes, id);
  }

  method AssemblyDepGraph(order: seq<Id>, reqs: seq<Requirement>, stories: seq<Story>)
    returns (depsOf: map<Id, seq<Id>>, indegree: map<Id, int>)
    requires forall q :: q in order <==> IsAssemblyNode(reqs, stories, q)
    ensures forall x :: x in depsOf <==> x in order
    ensures forall x, y :: x in order ==> (y in depsOf[x] <==> MergesAfter(reqs, stories, x, y))
    ensures forall x :: x in order ==> x in indegree && indegree[x] == |depsOf[x]|
  {
    var table := Tabulate(NodeIds(ReqNodes(reqs)), reqs);
    var nodes := set q | q in order;
    depsOf, indegree := map[], map[];
    for i := 0 to |order|
      invariant forall x :: x in depsOf <==> x in order[..i]
      invariant forall x :: x in depsOf ==> x in indegree && indegree[x] == |depsOf[x]|
      invariant forall x, y :: x in depsOf ==> (y in depsOf[x] <==> MergesAfter(reqs, stories, x, y))
    {
      var id := order[i];
      PrefixGrows(order, i);
      assert id in order;
      var deps := DepsFor(id, table, nodes, reqs, stories);
      depsOf, indegree := depsOf[id := deps], indegree[id := |deps|];
    }
    assert order[..|order|] == order;
  }

  /** Every listed branch comes after the listed branches it derives from. */
  ghost predicate MergesInOrder(reqs: seq<Requirement>, stories: seq<Story>, ids: seq<Id>) {
    forall k, y :: 0 <= k < |ids| && MergesAfter(reqs, stories, ids[k], y) ==> y in ids[..k]
  }

  /** A branch that is listed no later than one it derives from. */
  ghost predicate ListedTooEarly(reqs: seq<Requirement>, stories: seq<Story>, d: Id, e: Id) {
    MergesAfter(reqs, stories, d, e) && Place(RequirementIds(reqs), d) <= Place(RequirementIds(reqs), e)
  }

  /** `x` is, or derives from, a branch that is listed too early. */
  ghost predicate WaitsOutOfTurn(reqs: seq<Requirement>, stories: seq<Story>, x: Id) {
    exists d, e :: SameOrBehind(MergeGraph(reqs, stories), x, d) && ListedTooEarly(reqs, stories, d, e)
  }

  /** The k-th branch merges before `x`, which stands before it in the requirement slice. */
  ghost predicate Overtaken(reqs: seq<Requirement>, stories: seq<Story>, ids: seq<Id>, k: nat, x: Id)
    requires k < |ids|
  {
    && IsAssemblyNode(reqs, stories, x) && x !in ids[..k]
    && Place(RequirementIds(reqs), x) < Place(RequirementIds(reqs), ids[k])
  }

  /** Slice order decides wherever derivation does not. */
  ghost predicate TiesInSliceOrder(reqs: seq<Requirement>, stories: seq<Story>, ids: seq<Id>) {
    forall k, x :: 0 <= k < |ids| && Overtaken(reqs, stories, ids, k, x) ==> WaitsOutOfTurn(reqs, stories, x)
  }

  /**
   The merge order. Slice order is the fallback, used exactly when the branches
   derive from each other in a cycle; otherwise every branch merges after the
   branches it derives from, and ties go by slice order. Either way each branch
   that carries work is merged once.
   */
  method AssemblyBranchOrder(reqs: seq<Requirement>, stories: seq<Story>) returns (ids: seq<Id>, usedFallback: bool)
    ensures Distinct(ids) && forall q :: q in ids <==> IsAssemblyNode(reqs, stories, q)
    ensures usedFallback <==> !Acyclic(MergeGraph(reqs, stories))
    ensures !usedFallback ==> MergesInOrder(reqs, stories, ids)
    ensures usedFallback ==> InSliceOrder(RequirementIds(reqs), ids)
    ensures !usedFallback ==> TiesInSliceOrder(reqs, stories, ids)
  {
    if |reqs| == 0 {
      FinishedKeysAcyclic(MergeGraph(reqs, stories), map[]);
      return [], false;
    }
    var order := AssemblyNodes(reqs, stories);
    var depsOf, indegree := AssemblyDepGraph(order, reqs, stories);
    var result := KahnTopoSort(order, depsOf, indegree);
    SameMergeGraph(order, depsOf, reqs, stories);
    if |result| != |order| {
      return order, true;
    }
    FullOrder(order, depsOf, result, reqs, stories);
    return result, false;
  }

  lemma FullOrder(order: seq<Id>, depsOf: map<Id, seq<Id>>, ids: seq<Id>, reqs: seq<Requirement>, stories: seq<Story>)
    requires Distinct(order) && InSliceOrder(RequirementIds(reqs), order)
    requires (forall q :: q in order <==> IsAssemblyNode(reqs, stories, q)) && (forall q :: q in ids ==> q in order)
    requires Within(order, depsOf) && (forall x :: x in depsOf <==> x in order)
    requires forall x, y :: x in order ==> (y in depsOf[x] <==> MergesAfter(reqs, stories, x, y))
    requires ids == Scans(order, depsOf, []) && PrereqsFirst(ids, depsOf)
    ensures MergesInOrder(reqs, stories, ids) && TiesInSliceOrder(reqs, stories, ids)
  {
    SameMergeGraph(order, depsOf, reqs, stories);
    TiesByPosition(order, depsOf, []);
    SliceTies(order, depsOf, ids, reqs, stories);
    forall k, y | 0 <= k < |ids| && MergesAfter(reqs, stories, ids[k], y) ensures y in ids[..k] {
      assert ids[k] in order;
    }
  }

  lemma EarlierInSlice(ids: seq<Id>, order: seq<Id>, p: nat, q: nat)
    requires InSliceOrder(ids, order) && p < |order| && q < |order|
    ensures p <= q <==> Place(ids, order[p]) <= Place(ids, order[q])
  {
  }

  lemma OutOfTurnInSlice(order: seq<Id>, depsOf: map<Id, seq<Id>>, reqs: seq<Requirement>, stories: seq<Story>, x: Id)
    requires InSliceOrder(RequirementIds(reqs), order) && OutOfTurn(EdgesOf(depsOf), order, x)
    requires SubGraph(EdgesOf(depsOf), MergeGraph(reqs, stories))
    ensures WaitsOutOfTurn(reqs, stories, x)
  {
    var g, h := EdgesOf(depsOf), MergeGraph(reqs, stories);
    var p: nat, q: nat :| p <= q < |order| && SameOrBehind(g, x, order[p]) && Edge(g, order[p], order[q]);
    EarlierInSlice(RequirementIds(reqs), order, p, q);
    if x != order[p] {
      ReachMonotone(g, h, x, order[p]);
    }
    assert ListedTooEarly(reqs, stories, order[p], order[q]);
  }

  /** The tie-break of the sort, told about the requirement slice. */
  lemma SliceTies(order: seq<Id>, depsOf: map<Id, seq<Id>>, ids: seq<Id>, reqs: seq<Requirement>, stories: seq<Story>)
    requires InSliceOrder(RequirementIds(reqs), order) && KeepsListedOrder(EdgesOf(depsOf), order, ids)
    requires (forall q :: q in order <==> IsAssemblyNode(reqs, stories, q)) && (forall q :: q in ids ==> q in order)
    requires SubGraph(EdgesOf(depsOf), MergeGraph(reqs, stories))
    ensures TiesInSliceOrder(reqs, stories, ids)
  {
    var slice := RequirementIds(reqs);
    forall k, x | 0 <= k < |ids| && Overtaken(reqs, stories, ids, k, x) ensures WaitsOutOfTurn(reqs, stories, x) {
      var p: nat :| p < |order| && order[p] == x;
      assert ids[k] in order;
      var q: nat :| q < |order| && order[q] == ids[k];
      EarlierInSlice(slice, order, q, p);
      assert InTurn(EdgesOf(depsOf), order, ids, k);
      OutOfTurnInSlice(order, depsOf, reqs, stories, x);
    }
  }

  lemma SameMergeGraph(order: seq<Id>, depsOf: map<Id, seq<Id>>, reqs: seq<Requirement>, stories: seq<Story>)
    requires forall q :: q in order <==> IsAssemblyNode(reqs, stories, q)
    requires forall x :: x in depsOf <==> x in order
    requires forall x, y :: x in order ==> (y in depsOf[x] <==> MergesAfter(reqs, stories, x, y))
    ensures SubGraph(EdgesOf(depsOf), MergeGraph(reqs, stories))
    ensures Acyclic(EdgesOf(depsOf)) <==> Acyclic(MergeGraph(reqs, stories))
  {
    var g, h := EdgesOf(depsOf), MergeGraph(reqs, stories);
    assert SubGraph(g, h) && SubGraph(h, g);
    if Acyclic(g) {
      AcyclicWithin(h, g);
    }
    if Acyclic(h) {
      AcyclicWithin(g, h);
    }
  }

  // ----- what the merge order guarantees

  lemma MergeEdgeIsPrereq(reqs: seq<Requirement>, stories: seq<Story>, x: Id, y: Id)
    requires MergesAfter(reqs, stories, x, y)
    ensures Edge(PrereqGraph(reqs, stories), x, y)
  {
    TableEntry(reqs, x);
    PrereqEdge(reqs, stories, x, y);
  }

  /** Every branch derived from is a branch that is merged. */
  lemma PrereqIsNode(reqs: seq<Requirement>, stories: seq<Story>, r: Requirement, p: Id)
    requires CoversPlan(stories, reqs) && NamedRequirements(reqs) && PrereqsKnown(reqs)
    requires r in reqs && p in BranchPrereqs(r, stories)
    ensures IsAssemblyNode(reqs, stories, p) && p != r.id
  {
    if p in SchedulingOwners(r.id, stories) {
      var table := StoryTable(stories);
      var s :| s in stories && StoryCoversReq(s, r.id) && p in DepOwners(r.id, table, s);
      var d :| d in s.dependsOn && OwnerOf(table, d) == p && p != "" && p != r.id;
      var j := LastWinsAt(StoryIds(stories), stories, d);
      OwnerIsNode(reqs, stories, stories[j]);
    } else {
      var d :| d in r.dependsOn && OwnerRequirementFor(d, stories) == p && p != r.id;
      PlanStoriesOwned(stories, reqs);
      OwnerForCases(d, stories);
      if k: nat :| CoveredAt(stories, k, d) && p == DeterministicStoryOwner(stories[k]) {
        OwnerIsNode(reqs, stories, stories[k]);
      } else {
        UncoveredCarriesWork(stories, d);
      }
    }
  }

  lemma OwnerIsNode(reqs: seq<Requirement>, stories: seq<Story>, s: Story)
    requires CoversPlan(stories, reqs) && NamedRequirements(reqs) && s in stories
    ensures IsAssemblyNode(reqs, stories, DeterministicStoryOwner(s))
  {
    var r := OwnerInPlan(stories, reqs, s);
  }

  lemma UncoveredCarriesWork(stories: seq<Story>, d: Id)
    requires forall k: nat :: !CoveredAt(stories, k, d)
    ensures CarriesWork(stories, d)
  {
    forall s | s in stories ensures !StoryCoversReq(s, d) {
      var k: nat :| k < |stories| && stories[k] == s;
      assert !CoveredAt(stories, k, d);
    }
  }

  /** A merge order that lists every branch with work, prerequisites first. */
  ghost predicate IsMergeOrder(reqs: seq<Requirement>, stories: seq<Story>, ids: seq<Id>) {
    && Distinct(ids) && (forall q :: q in ids <==> IsAssemblyNode(reqs, stories, q))
    && MergesInOrder(reqs, stories, ids)
  }

  lemma DerivedMergesLater(reqs: seq<Requirement>, stories: seq<Story>, ids: seq<Id>, x: Id, y: Id)
    requires CoversPlan(stories, reqs) && NamedRequirements(reqs) && PrereqsKnown(reqs) && UniqueRequirements(reqs)
    requires IsMergeOrder(reqs, stories, ids) && x in ids && Edge(PrereqGraph(reqs, stories), x, y)
    ensures y in ids && Position(ids, y) < Position(ids, x)
  {
    PrereqIsMergeEdge(reqs, stories, x, y);
    var k := Position(ids, x);
    assert MergesAfter(reqs, stories, ids[k], y);
    EarlierPosition(ids, k, y);
  }

  lemma PrereqIsMergeEdge(reqs: seq<Requirement>, stories: seq<Story>, x: Id, y: Id)
    requires CoversPlan(stories, reqs) && NamedRequirements(reqs) && PrereqsKnown(reqs) && UniqueRequirements(reqs)
    requires IsAssemblyNode(reqs, stories, x) && Edge(PrereqGraph(reqs, stories), x, y)
    ensures MergesAfter(reqs, stories, x, y)
  {
    PrereqEdge(reqs, stories, x, y);
    var r :| r in reqs && r.id == x && y in BranchPrereqs(r, stories);
    PrereqIsNode(reqs, stories, r, y);
    var m :| 0 <= m < |reqs| && reqs[m] == r;
    DistinctAt(NodeIds(ReqNodes(reqs)), reqs, m);
  }

  /** Only branches that carry work are derived from, so a cycle of branches is a cycle of merged branches. */
  lemma SameCycles(reqs: seq<Requirement>, stories: seq<Story>)
    requires CoversPlan(stories, reqs) && NamedRequirements(reqs) && PrereqsKnown(reqs) && UniqueRequirements(reqs)
    ensures Acyclic(MergeGraph(reqs, stories)) <==> Acyclic(PrereqGraph(reqs, stories))
  {
    var g, h := MergeGraph(reqs, stories), PrereqGraph(reqs, stories);
    forall x, y | Edge(g, x, y) ensures Edge(h, x, y) {
      MergeEdgeIsPrereq(reqs, stories, x, y);
    }
    if Acyclic(h) {
      AcyclicWithin(g, h);
    } else if Acyclic(g) {
      var x :| Reach(h, x, x);
      var a, b := CycleUsesNewEdge(g, h, x);
      PrereqOnCycle(reqs, stories, a, b);
    }
  }

  /** A step of the branch relation that lies on a cycle is a merge edge. */
  lemma PrereqOnCycle(reqs: seq<Requirement>, stories: seq<Story>, a: Id, b: Id)
    requires CoversPlan(stories, reqs) && NamedRequirements(reqs) && PrereqsKnown(reqs) && UniqueRequirements(reqs)
    requires Edge(PrereqGraph(reqs, stories), a, b) && SameOrBehind(PrereqGraph(reqs, stories), b, a)
    ensures Edge(MergeGraph(reqs, stories), a, b)
  {
    var h := PrereqGraph(reqs, stories);
    EdgeOnCycle(h, a, b);
    var p := ReachTail(h, a, a);
    PrereqEdge(reqs, stories, p, a);
    var r :| r in reqs && r.id == p && a in BranchPrereqs(r, stories);
    PrereqIsNode(reqs, stories, r, a);
    PrereqIsMergeEdge(reqs, stories, a, b);
  }

  /**
   Assembly falls back to slice order exactly when the branch relation the derivation
   left is cyclic, that is, when a step through a requirement without exactly one
   story leads back.
   */
  lemma FallbackIff(norm: Normalizer, before: seq<Story>, reqs: seq<Requirement>, after: seq<Story>)
    requires UniqueIds(before) && CoversPlan(before, reqs) && NamedRequirements(reqs) && UniqueRequirements(reqs)
    requires PrereqsKnown(reqs) && Schedules(norm, before, reqs, after, Scheduled)
    ensures Acyclic(MergeGraph(reqs, after)) <==> Acyclic(PrereqGraph(reqs, after))
    ensures Acyclic(MergeGraph(reqs, after)) <==> forall r, y :: !LooseReturn(reqs, after, r, y)
  {
    CoverageKept(before, after, reqs);
    SameCycles(reqs, after);
    BranchCycleCause(norm, before, reqs, after);
  }

  /** With one story per requirement, a nil return rules the fallback out. */
  lemma NoFallback(norm: Normalizer, before: seq<Story>, reqs: seq<Requirement>, after: seq<Story>)
    requires UniqueIds(before) && CoversPlan(before, reqs) && NamedRequirements(reqs) && UniqueRequirements(reqs)
    requires CoveredOnce(before, reqs) && Schedules(norm, before, reqs, after, Scheduled)
    ensures Acyclic(MergeGraph(reqs, after))
  {
    BranchesAcyclic(norm, before, reqs, after);
    var g, h := MergeGraph(reqs, after), PrereqGraph(reqs, after);
    forall x, y | Edge(g, x, y) ensures Edge(h, x, y) {
      MergeEdgeIsPrereq(reqs, after, x, y);
    }
    AcyclicWithin(g, h);
  }

  lemma EarlierPosition(ids: seq<Id>, k: nat, y: Id)
    requires Distinct(ids) && k < |ids| && y in ids[..k]
    ensures y in ids && Position(ids, y) < k
  {
    var j :| 0 <= j < k && ids[j] == y;
  }

  lemma {:induction false} DerivationMergesLater(reqs: seq<Requirement>, stories: seq<Story>, ids: seq<Id>, n: nat,
                                                 x: Id, y: Id)
    requires CoversPlan(stories, reqs) && NamedRequirements(reqs) && PrereqsKnown(reqs) && UniqueRequirements(reqs)
    requires IsMergeOrder(reqs, stories, ids) && x in ids && n > 0 && ReachIn(PrereqGraph(reqs, stories), n, x, y)
    ensures y in ids && Position(ids, y) < Position(ids, x)
    decreases n
  {
    var rest := n - 1;
    var z :| Edge(PrereqGraph(reqs, stories), x, z) && ReachIn(PrereqGraph(reqs, stories), rest, z, y);
    DerivedMergesLater(reqs, stories, ids, x, z);
    if rest > 0 {
      DerivationMergesLater(reqs, stories, ids, rest, z, y);
    }
  }

  /** `x` derives from `y`, and merges after it. */
  ghost predicate ForksAndFollows(g: Graph<Id>, ids: seq<Id>, x: Id, y: Id) {
    Reach(g, x, y) && y in ids && x in ids && Position(ids, y) < Position(ids, x)
  }

  /**
   End to end: after a nil return, two stories that share a file are worked on one
   branch, or on two merged branches of which one was forked from the other, and
   that one merges later.
   */
  lemma SharedFilesMergeInOrder(norm: Normalizer, before: seq<Story>, reqs: seq<Requirement>, after: seq<Story>,
                                ids: seq<Id>, i: nat, j: nat)
    requires UniqueIds(before) && CoversPlan(before, reqs) && NamedRequirements(reqs)
    requires PrereqsKnown(reqs) && UniqueRequirements(reqs)
    requires Schedules(norm, before, reqs, after, Scheduled) && IsMergeOrder(reqs, after, ids)
    requires i < |after| && j < |after| && i != j && OwnedFiles(norm, after[i]) * OwnedFiles(norm, after[j]) != {}
    ensures var g := PrereqGraph(reqs, after);
      var a, b := DeterministicStoryOwner(after[i]), DeterministicStoryOwner(after[j]);
      a == b || ForksAndFollows(g, ids, a, b) || ForksAndFollows(g, ids, b, a)
  {
    SharedWorkOnRelatedBranches(norm, before, reqs, after, i, j);
    CoverageKept(before, after, reqs);
    assert after[i] in after && after[j] in after;
    OwnerIsNode(reqs, after, after[i]);
    OwnerIsNode(reqs, after, after[j]);
    var g, a, b := PrereqGraph(reqs, after), DeterministicStoryOwner(after[i]), DeterministicStoryOwner(after[j]);
    if a != b {
      if Reach(g, a, b) {
        var n: nat :| n > 0 && ReachIn(g, n, a, b);
        DerivationMergesLater(reqs, after, ids, n, a, b);
      } else {
        var n: nat :| n > 0 && ReachIn(g, n, b, a);
        DerivationMergesLater(reqs, after, ids, n, b, a);
      }
    }
  }
}
