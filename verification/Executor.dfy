/**
 Requirement executors: each works through the stories its requirement covers, in
 dependency order, one at a time, and passes over those that have shipped.

 No story-level gate is assumed. That every dependency of a story has shipped when
 its execution begins is proved from the order of the stories and the filters of
 requirement dispatch, and with it that stories which share a file never execute
 at the same time.
 */
module Executor {
  import opened Graphs
  import opened Tables
  import opened Plan
  import opened Scheduling
  import opened SchedulingTheorems
  import opened Branches
  import opened BranchTheorems
  import opened StoryOrder
  import opened Dispatch
  import opened DispatchProgress

  // ----- the stories of a requirement

  ghost function CoveringSet(stories: seq<Story>, q: Id): set<Story> {
    set s | s in stories && StoryCoversReq(s, q)
  }

  method StoriesForRequirement(stories: seq<Story>, q: Id) returns (out: seq<Story>)
    ensures out == Kept(stories, CoveringSet(stories, q))
  {
    out := [];
    for i := 0 to |stories|
      invariant out == Kept(stories[..i], CoveringSet(stories, q))
    {
      KeptGrows(stories, CoveringSet(stories, q), i);
      if StoryCoversReq(stories[i], q) {
        out := out + [stories[i]];
      }
    }
    assert stories[..|stories|] == stories;
  }

  /** The stories covering `q`, each after those among them that it depends on. */
  ghost predicate IsWorkOrder(stories: seq<Story>, q: Id, ids: seq<Id>) {
    && Distinct(ids) && (forall i: nat :: CoveredAt(stories, i, q) ==> stories[i].id in ids)
    && (forall x :: x in ids ==> exists i: nat :: CoveredAt(stories, i, q) && stories[i].id == x)
    && (forall i: nat, j: nat, k: nat :: OwnDependency(stories, q, i, j) && k < |ids| && ids[k] == stories[i].id ==>
          stories[j].id in ids[..k])
  }

  /** A story that covers `q` depends on another one that does. */
  ghost predicate OwnDependency(stories: seq<Story>, q: Id, i: nat, j: nat) {
    CoveredAt(stories, i, q) && CoveredAt(stories, j, q) && stories[j].id in stories[i].dependsOn
  }

  lemma {:induction false} KeptDistinct(stories: seq<Story>, keep: set<Story>)
    requires UniqueIds(stories)
    ensures UniqueIds(Kept(stories, keep))
    decreases |stories|
  {
    if stories != [] {
      var n := |stories| - 1;
      var front := Kept(stories[..n], keep);
      assert UniqueIds(stories[..n]) by {
        assert forall i :: 0 <= i < n ==> StoryIds(stories[..n])[i] == StoryIds(stories)[i];
      }
      KeptDistinct(stories[..n], keep);
      forall i | 0 <= i < |front| ensures front[i].id != stories[n].id {
        KeptMembers(stories[..n], keep, front[i]);
        var m :| 0 <= m < n && stories[m] == front[i];
        assert StoryIds(stories)[m] != StoryIds(stories)[n];
      }
      AppendUniqueStory(front, stories[n]);
    }
  }

  lemma AppendUniqueStory(front: seq<Story>, s: Story)
    requires UniqueIds(front) && forall i :: 0 <= i < |front| ==> front[i].id != s.id
    ensures UniqueIds(front + [s])
  {
    assert StoryIds(front + [s]) == StoryIds(front) + [s.id];
  }

  /** A dependency between two kept stories is an edge of the kept graph, and there are no others. */
  lemma KeptEdges(stories: seq<Story>, keep: set<Story>, x: Id, y: Id)
    requires UniqueIds(stories)
    ensures Edge(StoryGraph(Kept(stories, keep)), x, y) <==>
      exists s :: s in stories && s in keep && s.id == x && y in s.dependsOn
  {
    var kept := Kept(stories, keep);
    KeptDistinct(stories, keep);
    if Edge(StoryGraph(kept), x, y) {
      var i := StoryEdgeSource(kept, x, y);
      KeptMembers(stories, keep, kept[i]);
    }
    if s :| s in stories && s in keep && s.id == x && y in s.dependsOn {
      KeptMembers(stories, keep, s);
      var i :| 0 <= i < |kept| && kept[i] == s;
      StoryEdge(kept, i, y);
    }
  }

  /** The sort of a requirement's stories never fails on an acyclic plan. */
  lemma LocalGraphAcyclic(stories: seq<Story>, q: Id)
    requires UniqueIds(stories) && Acyclic(StoryGraph(stories))
    ensures var local := Kept(stories, CoveringSet(stories, q)); UniqueIds(local) && Acyclic(StoryGraph(local))
  {
    var keep := CoveringSet(stories, q);
    var g, h := StoryGraph(Kept(stories, keep)), StoryGraph(stories);
    KeptDistinct(stories, keep);
    forall x, y | Edge(g, x, y) ensures Edge(h, x, y) {
      KeptEdges(stories, keep, x, y);
      var s :| s in stories && s in keep && s.id == x && y in s.dependsOn;
      var i :| 0 <= i < |stories| && stories[i] == s;
      StoryEdge(stories, i, y);
    }
    AcyclicWithin(g, h);
  }

  lemma KeptIds(stories: seq<Story>, q: Id, x: Id)
    ensures x in StoryIds(Kept(stories, CoveringSet(stories, q))) <==>
      exists i: nat :: CoveredAt(stories, i, q) && stories[i].id == x
  {
    var keep := CoveringSet(stories, q);
    var local := Kept(stories, keep);
    if x in StoryIds(local) {
      var m :| 0 <= m < |local| && StoryIds(local)[m] == x;
      KeptMembers(stories, keep, local[m]);
      var i: nat :| i < |stories| && stories[i] == local[m];
      assert CoveredAt(stories, i, q);
    }
    if i: nat :| CoveredAt(stories, i, q) && stories[i].id == x {
      KeptMembers(stories, keep, stories[i]);
      var m :| 0 <= m < |local| && local[m] == stories[i];
      assert StoryIds(local)[m] == x;
    }
  }

  lemma SortedIsWorkOrder(stories: seq<Story>, q: Id, ids: seq<Id>)
    requires UniqueIds(stories) && IsStoryOrder(Kept(stories, CoveringSet(stories, q)), ids)
    ensures IsWorkOrder(stories, q, ids)
  {
    var keep := CoveringSet(stories, q);
    var local := Kept(stories, keep);
    forall x ensures x in ids <==> exists i: nat :: CoveredAt(stories, i, q) && stories[i].id == x {
      KeptIds(stories, q, x);
    }
    forall i: nat, j: nat, k: nat | OwnDependency(stories, q, i, j) && k < |ids| && ids[k] == stories[i].id
      ensures stories[j].id in ids[..k]
    {
      KeptIds(stories, q, stories[j].id);
      assert stories[i] in stories && stories[i] in keep;
      KeptEdges(stories, keep, ids[k], stories[j].id);
    }
  }

  /** The order an executor works in, computed when its requirement enters execution. */
  method WorkOrder(stories: seq<Story>, q: Id) returns (r: SortResult)
    requires UniqueIds(stories) && Acyclic(StoryGraph(stories))
    ensures r.Sorted? && IsWorkOrder(stories, q, r.ids)
  {
    var local := StoriesForRequirement(stories, q);
    LocalGraphAcyclic(stories, q);
    r := TopoSortStoryIds(local);
    SortedIsWorkOrder(stories, q, r.ids);
  }

  // ----- executors at work

  /** A cursor into the work order of every requirement under execution. */
  datatype Exec = Exec(base: State, cursor: map<Id, nat>)

  type Orders = Id -> seq<Id>

  ghost predicate WorkOrders(stories: seq<Story>, order: Orders) {
    forall q :: IsWorkOrder(stories, q, order(q))
  }

  ghost predicate At(order: Orders, e: Exec, q: Id) {
    q in e.base.active && q in e.cursor && e.cursor[q] < |order(q)|
  }

  /** The story at the cursor has not shipped: it is claimed and worked on. */
  ghost predicate Executing(order: Orders, e: Exec, q: Id, id: Id) {
    At(order, e, q) && order(q)[e.cursor[q]] == id && id !in e.base.shipped
  }

  ghost predicate Launch(reqs: seq<Requirement>, stories: seq<Story>, e: Exec, e': Exec, r: Requirement) {
    Start(reqs, stories, e.base, e'.base, r) && e'.cursor == e.cursor[r.id := 0]
  }

  /** The story at the cursor has shipped: on to the next. */
  ghost predicate Pass(order: Orders, e: Exec, e': Exec, q: Id) {
    && At(order, e, q) && order(q)[e.cursor[q]] in e.base.shipped
    && e' == e.(cursor := e.cursor[q := e.cursor[q] + 1])
  }

  /** The story at the cursor is completed, whoever owns it. */
  ghost predicate Work(order: Orders, e: Exec, e': Exec, q: Id, id: Id) {
    && Executing(order, e, q, id)
    && e' == Exec(e.base.(shipped := e.base.shipped + {id}), e.cursor[q := e.cursor[q] + 1])
  }

  ghost predicate Done(stories: seq<Story>, order: Orders, e: Exec, e': Exec, q: Id) {
    q in e.cursor && e.cursor[q] == |order(q)| && Finish(stories, e.base, e'.base, q) && e'.cursor == e.cursor
  }

  ghost predicate Halt(e: Exec, e': Exec, q: Id) {
    Fail(e.base, e'.base, q) && e'.cursor == e.cursor
  }

  /** Recovery starts the requirement's stories over. */
  ghost predicate Resume(reqs: seq<Requirement>, stories: seq<Story>, e: Exec, e': Exec, q: Id) {
    Reopen(reqs, stories, e.base, e'.base, q) && e'.cursor == e.cursor[q := 0]
  }

  ghost predicate ExecStep(reqs: seq<Requirement>, stories: seq<Story>, order: Orders, e: Exec, e': Exec) {
    || (exists r :: Launch(reqs, stories, e, e', r))
    || (exists q :: Pass(order, e, e', q))
    || (exists q, id :: Work(order, e, e', q, id))
    || (exists q :: Done(stories, order, e, e', q))
    || (exists q :: Halt(e, e', q))
    || (exists q :: Resume(reqs, stories, e, e', q))
  }

  ghost predicate IsExecRun(reqs: seq<Requirement>, stories: seq<Story>, order: Orders, run: seq<Exec>) {
    && |run| > 0 && run[0] == Exec(IDLE, map[])
    && forall i, j :: 0 <= i && i + 1 == j < |run| ==> ExecStep(reqs, stories, order, run[i], run[j])
  }

  /** Executors take the steps that dispatch knows, or move a cursor only. */
  lemma ExecStepIsStep(reqs: seq<Requirement>, stories: seq<Story>, order: Orders, e: Exec, e': Exec)
    requires WorkOrders(stories, order) && ExecStep(reqs, stories, order, e, e')
    ensures e'.base == e.base || Step(reqs, stories, e.base, e'.base)
  {
    if q, id :| Work(order, e, e', q, id) {
      assert id in order(q);
      var i: nat :| CoveredAt(stories, i, q) && stories[i].id == id;
      assert Borrow(stories, e.base, e'.base, q, stories[i]);
    }
  }

  // ----- the invariant

  /** The requirement's own stories that its cursor has passed have shipped. */
  ghost predicate PassedShipped(stories: seq<Story>, order: Orders, e: Exec, q: Id) {
    && q in e.cursor
    && forall i: nat :: OwnPassed(stories, order, e, q, i) ==> stories[i].id in e.base.shipped
  }

  ghost predicate OwnPassed(stories: seq<Story>, order: Orders, e: Exec, q: Id, i: nat) {
    i < |stories| && DeterministicStoryOwner(stories[i]) == q && stories[i].id in Passed(order, e, q)
  }

  ghost function Passed(order: Orders, e: Exec, q: Id): seq<Id> {
    if q in e.cursor && e.cursor[q] <= |order(q)| then order(q)[..e.cursor[q]] else order(q)
  }

  ghost predicate ExecInv(reqs: seq<Requirement>, stories: seq<Story>, order: Orders, e: Exec) {
    && Based(PrereqGraph(reqs, stories), e.base) && CompletedShipped(reqs, stories, e.base)
    && forall q :: q in e.base.active ==> PassedShipped(stories, order, e, q)
  }

  /** The cursor moves past a story that has shipped by then. */
  lemma AdvanceKeepsPassed(stories: seq<Story>, order: Orders, e: Exec, e': Exec, q: Id, id: Id, p: Id)
    requires At(order, e, q) && order(q)[e.cursor[q]] == id && e'.cursor == e.cursor[q := e.cursor[q] + 1]
    requires e.base.shipped <= e'.base.shipped && id in e'.base.shipped && PassedShipped(stories, order, e, p)
    ensures PassedShipped(stories, order, e', p)
  {
    var k := e.cursor[q];
    PrefixGrows(order(q), k);
    forall i: nat | OwnPassed(stories, order, e', p, i) ensures stories[i].id in e'.base.shipped {
      assert OwnPassed(stories, order, e, p, i) || stories[i].id == id;
    }
  }

  lemma ResumeKeepsPassed(reqs: seq<Requirement>, stories: seq<Story>, order: Orders, e: Exec, e': Exec, q: Id, p: Id)
    requires Resume(reqs, stories, e, e', q) && p in e'.base.active
    requires p != q ==> PassedShipped(stories, order, e, p)
    ensures PassedShipped(stories, order, e', p)
  {
    if p != q {
      assert p !in Stale(reqs, stories, q);
      assert forall i: nat :: i < |stories| ==> stories[i] in stories;
    }
  }

  lemma StepKeepsPassed(reqs: seq<Requirement>, stories: seq<Story>, order: Orders, e: Exec, e': Exec, p: Id)
    requires ExecStep(reqs, stories, order, e, e') && p in e'.base.active
    requires forall q :: q in e.base.active ==> PassedShipped(stories, order, e, q)
    ensures PassedShipped(stories, order, e', p)
  {
    if q :| Resume(reqs, stories, e, e', q) {
      ResumeKeepsPassed(reqs, stories, order, e, e', q, p);
    } else if r :| Launch(reqs, stories, e, e', r) {
      LaunchKeepsPassed(reqs, stories, order, e, e', r, p);
    } else if q :| Pass(order, e, e', q) {
      AdvanceKeepsPassed(stories, order, e, e', q, order(q)[e.cursor[q]], p);
    } else if q, id :| Work(order, e, e', q, id) {
      AdvanceKeepsPassed(stories, order, e, e', q, id, p);
    } else {
      EndKeepsPassed(stories, order, e, e', p);
    }
  }

  lemma LaunchKeepsPassed(reqs: seq<Requirement>, stories: seq<Story>, order: Orders, e: Exec, e': Exec,
                          r: Requirement, p: Id)
    requires Launch(reqs, stories, e, e', r) && (p != r.id ==> PassedShipped(stories, order, e, p))
    ensures PassedShipped(stories, order, e', p)
  {
  }

  lemma EndKeepsPassed(stories: seq<Story>, order: Orders, e: Exec, e': Exec, p: Id)
    requires (exists q :: Done(stories, order, e, e', q)) || (exists q :: Halt(e, e', q))
    requires PassedShipped(stories, order, e, p)
    ensures PassedShipped(stories, order, e', p)
  {
  }

  lemma ExecStepKeeps(reqs: seq<Requirement>, stories: seq<Story>, order: Orders, e: Exec, e': Exec)
    requires UniqueRequirements(reqs) && WorkOrders(stories, order)
    requires ExecInv(reqs, stories, order, e) && ExecStep(reqs, stories, order, e, e')
    ensures ExecInv(reqs, stories, order, e')
  {
    ExecStepIsStep(reqs, stories, order, e, e');
    if e'.base != e.base {
      Dispatch.StepKeeps(reqs, stories, e.base, e'.base);
      StepKeepsShipped(reqs, stories, e.base, e'.base);
    }
    forall p | p in e'.base.active ensures PassedShipped(stories, order, e', p) {
      StepKeepsPassed(reqs, stories, order, e, e', p);
    }
  }

  lemma {:induction false} ExecRunKeeps(reqs: seq<Requirement>, stories: seq<Story>, order: Orders, run: seq<Exec>,
                                        k: nat)
    requires UniqueRequirements(reqs) && WorkOrders(stories, order)
    requires IsExecRun(reqs, stories, order, run) && k < |run|
    ensures ExecInv(reqs, stories, order, run[k])
    decreases k
  {
    if k > 0 {
      var j := k - 1;
      ExecRunKeeps(reqs, stories, order, run, j);
      ExecStepKeeps(reqs, stories, order, run[j], run[k]);
    }
  }

  // ----- what executes stands on what has shipped

  /** Done for good as far as `q` is concerned: its owner is complete, or is `q` and its cursor has passed it. */
  ghost predicate Behind(stories: seq<Story>, order: Orders, e: Exec, q: Id, i: nat) {
    && i < |stories|
    && (|| DeterministicStoryOwner(stories[i]) in e.base.completed
        || (DeterministicStoryOwner(stories[i]) == q && stories[i].id in Passed(order, e, q)))
  }

  lemma BehindShipped(reqs: seq<Requirement>, stories: seq<Story>, order: Orders, e: Exec, q: Id, i: nat)
    requires ExecInv(reqs, stories, order, e) && q in e.base.active && Behind(stories, order, e, q, i)
    ensures stories[i].id in e.base.shipped
  {
    assert stories[i] in stories;
  }

  /** The owners of what a started requirement's story depends on are complete, or are the requirement itself. */
  lemma DependencyOwner(reqs: seq<Requirement>, stories: seq<Story>, s: State, q: Id, i: nat, j: nat)
    requires PlanOk(reqs, stories) && Based(PrereqGraph(reqs, stories), s) && Started(s, q) && q in ReqIds(reqs)
    requires CoveredAt(stories, i, q) && j < |stories| && stories[j].id in stories[i].dependsOn
    ensures DeterministicStoryOwner(stories[j]) == q || DeterministicStoryOwner(stories[j]) in s.completed
  {
    var o := DeterministicStoryOwner(stories[j]);
    if o != q {
      var r :| r in reqs && r.id == q;
      DependencyDerives(stories, reqs, i, j, r);
      PrereqEdge(reqs, stories, q, o);
    }
  }

  lemma OwnerCovers(reqs: seq<Requirement>, stories: seq<Story>, i: nat)
    requires PlanOk(reqs, stories) && i < |stories|
    ensures CoveredAt(stories, i, DeterministicStoryOwner(stories[i]))
    ensures DeterministicStoryOwner(stories[i]) in ReqIds(reqs)
  {
    assert stories[i] in stories;
    var r := OwnerInPlan(stories, reqs, stories[i]);
  }

  /** Dependencies of the story at the cursor are behind it. */
  lemma CurrentDependency(reqs: seq<Requirement>, stories: seq<Story>, order: Orders, e: Exec, q: Id, i: nat, j: nat)
    requires PlanOk(reqs, stories) && WorkOrders(stories, order) && ExecInv(reqs, stories, order, e)
    requires CoveredAt(stories, i, q) && At(order, e, q) && order(q)[e.cursor[q]] == stories[i].id
    requires j < |stories| && stories[j].id in stories[i].dependsOn
    ensures Behind(stories, order, e, q, j)
  {
    DependencyOwner(reqs, stories, e.base, q, i, j);
    OwnerCovers(reqs, stories, j);
    assert IsWorkOrder(stories, q, order(q));
  }

  /** So are dependencies of whatever is behind it. */
  lemma BehindDependency(reqs: seq<Requirement>, stories: seq<Story>, order: Orders, e: Exec, q: Id, i: nat, j: nat)
    requires PlanOk(reqs, stories) && WorkOrders(stories, order) && ExecInv(reqs, stories, order, e)
    requires At(order, e, q) && Behind(stories, order, e, q, i)
    requires j < |stories| && stories[j].id in stories[i].dependsOn
    ensures Behind(stories, order, e, q, j)
  {
    var o := DeterministicStoryOwner(stories[i]);
    OwnerCovers(reqs, stories, i);
    OwnerCovers(reqs, stories, j);
    DependencyOwner(reqs, stories, e.base, o, i, j);
    if o !in e.base.completed && DeterministicStoryOwner(stories[j]) == q {
      PassedDependency(stories, order, e, q, i, j);
    }
  }

  lemma PassedDependency(stories: seq<Story>, order: Orders, e: Exec, q: Id, i: nat, j: nat)
    requires WorkOrders(stories, order) && At(order, e, q) && CoveredAt(stories, i, q) && CoveredAt(stories, j, q)
    requires stories[i].id in Passed(order, e, q) && stories[j].id in stories[i].dependsOn
    ensures stories[j].id in Passed(order, e, q)
  {
    var n := e.cursor[q];
    var k: nat :| k < n && order(q)[..n][k] == stories[i].id;
    assert IsWorkOrder(stories, q, order(q));
    assert order(q)[k] == stories[i].id;
    var m :| 0 <= m < k && order(q)[..k][m] == stories[j].id;
    assert order(q)[..n][m] == stories[j].id;
  }

  lemma {:induction false} ChainBehind(reqs: seq<Requirement>, stories: seq<Story>, order: Orders, e: Exec, q: Id,
                                       n: nat, i: nat, j: nat)
    requires PlanOk(reqs, stories) && WorkOrders(stories, order) && ExecInv(reqs, stories, order, e)
    requires At(order, e, q) && Behind(stories, order, e, q, i) && j < |stories|
    requires ReachIn(StoryGraph(stories), n, stories[i].id, stories[j].id)
    ensures Behind(stories, order, e, q, j)
    decreases n
  {
    if n == 0 {
      SameIdSameStory(stories, i, j);
    } else {
      var m, rest := NextOnChain(stories, n, i, j);
      BehindDependency(reqs, stories, order, e, q, i, m);
      ChainBehind(reqs, stories, order, e, q, rest, m, j);
    }
  }

  /** The first step of a chain between listed stories goes to a listed story. */
  lemma NextOnChain(stories: seq<Story>, n: nat, i: nat, j: nat) returns (m: nat, rest: nat)
    requires UniqueIds(stories) && i < |stories| && j < |stories| && n > 0
    requires ReachIn(StoryGraph(stories), n, stories[i].id, stories[j].id)
    ensures m < |stories| && stories[m].id in stories[i].dependsOn && rest == n - 1
    ensures ReachIn(StoryGraph(stories), rest, stories[m].id, stories[j].id)
  {
    var g := StoryGraph(stories);
    rest := n - 1;
    var z :| Edge(g, stories[i].id, z) && ReachIn(g, rest, z, stories[j].id);
    StoryEdge(stories, i, z);
    m := j;
    if rest > 0 {
      var w :| Edge(g, z, w);
      m := StoryEdgeSource(stories, z, w);
    }
  }

  /**
   When an executor works on a story, every listed story it depends on, directly or
   not, has shipped: the documented dispatch gate, from the code's own.
   */
  lemma ExecutingOnShipped(reqs: seq<Requirement>, stories: seq<Story>, order: Orders, run: seq<Exec>, k: nat, q: Id,
                           i: nat, j: nat)
    requires PlanOk(reqs, stories) && WorkOrders(stories, order)
    requires IsExecRun(reqs, stories, order, run) && k < |run|
    requires i < |stories| && j < |stories| && Executing(order, run[k], q, stories[i].id)
    requires Reach(StoryGraph(stories), stories[i].id, stories[j].id)
    ensures stories[j].id in run[k].base.shipped
  {
    var e := run[k];
    ExecRunKeeps(reqs, stories, order, run, k);
    AtCovered(stories, order, e, q, i);
    var n: nat :| n > 0 && ReachIn(StoryGraph(stories), n, stories[i].id, stories[j].id);
    var m, rest := NextOnChain(stories, n, i, j);
    CurrentDependency(reqs, stories, order, e, q, i, m);
    ChainBehind(reqs, stories, order, e, q, rest, m, j);
    BehindShipped(reqs, stories, order, e, q, j);
  }

  lemma AtCovered(stories: seq<Story>, order: Orders, e: Exec, q: Id, i: nat)
    requires UniqueIds(stories) && WorkOrders(stories, order) && i < |stories|
    requires At(order, e, q) && order(q)[e.cursor[q]] == stories[i].id
    ensures CoveredAt(stories, i, q)
  {
    assert IsWorkOrder(stories, q, order(q));
    assert stories[i].id in order(q);
    var m: nat :| CoveredAt(stories, m, q) && stories[m].id == stories[i].id;
    SameIdSameStory(stories, m, i);
  }

  /**
   End to end: in every run of executors over an accepted derivation, with failures,
   reopens and borrowed stories, no two stories that share a file are worked on at
   the same time, by one requirement or by two.
   */
  lemma ExecutorsNeverRace(norm: Normalizer, before: seq<Story>, reqs: seq<Requirement>, after: seq<Story>,
                           order: Orders, run: seq<Exec>, k: nat, p: Id, q: Id, i: nat, j: nat)
    requires PlanOk(reqs, before) && Schedules(norm, before, reqs, after, Scheduled) && WorkOrders(after, order)
    requires IsExecRun(reqs, after, order, run) && k < |run| && i < |after| && j < |after| && i != j
    requires OwnedFiles(norm, after[i]) * OwnedFiles(norm, after[j]) != {}
    ensures !(Executing(order, run[k], p, after[i].id) && Executing(order, run[k], q, after[j].id))
  {
    if Executing(order, run[k], p, after[i].id) && Executing(order, run[k], q, after[j].id) {
      CoverageKept(before, after, reqs);
      FinalEdge(norm, before, reqs, after, Scheduled, i, "");
      SharersOrdered(norm, before, reqs, after, Scheduled, i, j);
      if Reach(StoryGraph(after), after[i].id, after[j].id) {
        ExecutingOnShipped(reqs, after, order, run, k, p, i, j);
      } else {
        ExecutingOnShipped(reqs, after, order, run, k, q, j, i);
      }
    }
  }

  /**
   An executor is never held up by its list: it passes the story at its cursor if that
   has shipped, works on it if not, whoever owns it, and completes at the end.
   */
  lemma ExecutorGoesOn(stories: seq<Story>, order: Orders, e: Exec, q: Id)
    requires q in e.base.active && q in e.cursor && e.cursor[q] <= |order(q)|
    ensures e.cursor[q] < |order(q)| && order(q)[e.cursor[q]] in e.base.shipped ==> exists e' :: Pass(order, e, e', q)
    ensures e.cursor[q] < |order(q)| && order(q)[e.cursor[q]] !in e.base.shipped ==>
      exists e' :: Work(order, e, e', q, order(q)[e.cursor[q]])
    ensures e.cursor[q] == |order(q)| && Covered(stories, q) ==> exists e' :: Done(stories, order, e, e', q)
  {
    if e.cursor[q] < |order(q)| {
      var id, moved := order(q)[e.cursor[q]], e.cursor[q := e.cursor[q] + 1];
      if id in e.base.shipped {
        assert Pass(order, e, e.(cursor := moved), q);
      } else {
        assert Work(order, e, Exec(e.base.(shipped := e.base.shipped + {id}), moved), q, id);
      }
    } else if Covered(stories, q) {
      var b := e.base;
      var end := State(b.active - {q}, b.completed + {q}, b.failed, b.shipped + OwnedStories(stories, q));
      assert Done(stories, order, e, Exec(end, e.cursor), q);
    }
  }

  // ----- nothing is done without work

  /** Only work ships a story. */
  lemma NewlyShipped(reqs: seq<Requirement>, stories: seq<Story>, order: Orders, e: Exec, e': Exec, i: nat)
    returns (p: Id)
    requires PlanOk(reqs, stories) && WorkOrders(stories, order) && ExecInv(reqs, stories, order, e)
    requires ExecStep(reqs, stories, order, e, e') && i < |stories|
    requires stories[i].id !in e.base.shipped && stories[i].id in e'.base.shipped
    ensures Work(order, e, e', p, stories[i].id)
  {
    if q, id :| Work(order, e, e', q, id) {
      p := q;
    } else {
      var q :| Done(stories, order, e, e', q);
      var x :| x in stories && DeterministicStoryOwner(x) == q && x.id == stories[i].id;
      SameStory(stories, x, stories[i]);
      DoneHasShipped(reqs, stories, order, e, q, i);
      assert false;
    }
  }

  /** When an executor reaches the end of its list, its own stories have shipped. */
  lemma DoneHasShipped(reqs: seq<Requirement>, stories: seq<Story>, order: Orders, e: Exec, q: Id, i: nat)
    requires PlanOk(reqs, stories) && WorkOrders(stories, order) && ExecInv(reqs, stories, order, e)
    requires q in e.base.active && q in e.cursor && e.cursor[q] == |order(q)|
    requires i < |stories| && DeterministicStoryOwner(stories[i]) == q
    ensures stories[i].id in e.base.shipped
  {
    OwnerCovers(reqs, stories, i);
    assert IsWorkOrder(stories, q, order(q));
    assert order(q)[..|order(q)|] == order(q);
    assert OwnPassed(stories, order, e, q, i);
  }

  /** Some executor works on the story between the states `a` and `b`. */
  ghost predicate WorkedOn(order: Orders, run: seq<Exec>, a: nat, b: nat, id: Id) {
    exists c: nat, next: nat, p :: a <= c && c + 1 == next <= b < |run| && Work(order, run[c], run[next], p, id)
  }

  lemma {:induction false} ShippedByWork(reqs: seq<Requirement>, stories: seq<Story>, order: Orders, run: seq<Exec>,
                                         a: nat, b: nat, i: nat)
    requires PlanOk(reqs, stories) && WorkOrders(stories, order) && IsExecRun(reqs, stories, order, run)
    requires a <= b < |run| && i < |stories|
    requires stories[i].id !in run[a].base.shipped && stories[i].id in run[b].base.shipped
    ensures WorkedOn(order, run, a, b, stories[i].id)
    decreases b
  {
    var c := b - 1;
    if stories[i].id in run[c].base.shipped {
      ShippedByWork(reqs, stories, order, run, a, c, i);
      WorkedLonger(order, run, a, c, b, stories[i].id);
    } else {
      ExecRunKeeps(reqs, stories, order, run, c);
      var p := NewlyShipped(reqs, stories, order, run[c], run[b], i);
    }
  }

  lemma WorkedLonger(order: Orders, run: seq<Exec>, a: nat, b: nat, later: nat, id: Id)
    requires WorkedOn(order, run, a, b, id) && b <= later < |run|
    ensures WorkedOn(order, run, a, later, id)
  {
  }

  /**
   No requirement completes a story of its own that had not shipped without somebody
   working on it: in every run, between any state in which the story is unshipped and
   a later completion of its owner, an executor works on it.
   */
  lemma DoneOnlyByWork(reqs: seq<Requirement>, stories: seq<Story>, order: Orders, run: seq<Exec>, a: nat, b: nat,
                       q: Id, i: nat)
    requires PlanOk(reqs, stories) && WorkOrders(stories, order) && IsExecRun(reqs, stories, order, run)
    requires a <= b < |run| && i < |stories| && DeterministicStoryOwner(stories[i]) == q
    requires stories[i].id !in run[a].base.shipped
    requires q in run[b].base.active && q in run[b].cursor && run[b].cursor[q] == |order(q)|
    ensures WorkedOn(order, run, a, b, stories[i].id)
  {
    ExecRunKeeps(reqs, stories, order, run, b);
    DoneHasShipped(reqs, stories, order, run[b], q, i);
    ShippedByWork(reqs, stories, order, run, a, b, i);
  }

  /** A resumed requirement does every story of its own over again before it completes. */
  lemma ResumedWorksAgain(reqs: seq<Requirement>, stories: seq<Story>, order: Orders, run: seq<Exec>, a: nat,
                          next: nat, b: nat, after: nat, q: Id, i: nat)
    requires PlanOk(reqs, stories) && WorkOrders(stories, order) && IsExecRun(reqs, stories, order, run)
    requires a + 1 == next <= b && b + 1 == after < |run|
    requires Resume(reqs, stories, run[a], run[next], q) && Done(stories, order, run[b], run[after], q)
    requires i < |stories| && DeterministicStoryOwner(stories[i]) == q
    ensures WorkedOn(order, run, next, b, stories[i].id)
  {
    assert stories[i] in stories && stories[i].id in OwnedStories(stories, q);
    DoneOnlyByWork(reqs, stories, order, run, next, b, q, i);
  }

  /** Nothing but a reopen of its owner, or of something its owner derives from, takes a shipped story back. */
  lemma ShippedUntilReopened(reqs: seq<Requirement>, stories: seq<Story>, order: Orders, e: Exec, e': Exec, i: nat)
    returns (q: Id)
    requires ExecStep(reqs, stories, order, e, e') && i < |stories|
    requires stories[i].id in e.base.shipped && stories[i].id !in e'.base.shipped
    ensures Resume(reqs, stories, e, e', q)
    ensures SameOrBehind(PrereqGraph(reqs, stories), DeterministicStoryOwner(stories[i]), q)
  {
    q :| Resume(reqs, stories, e, e', q);
    assert stories[i] in stories;
  }
}
