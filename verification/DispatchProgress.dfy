/**
 When requirement dispatch can get stuck. A requirement waits for its own
 prerequisites, for the branches it derives from, and for the owners of stories it
 covers without owning them. Dispatch always gets on exactly when nothing waits for
 itself; with one story per requirement that can be told from the plan alone.
 */
module DispatchProgress {
  import opened Graphs
  import opened Tables
  import opened CycleSearch
  import opened Plan
  import opened Scheduling
  import opened Branches
  import opened BranchTheorems
  import opened Assembly
  import opened Dispatch

  /** Everything that must be under way or complete before `r` may start. */
  ghost function WaitSet(r: Requirement, stories: seq<Story>): set<Id> {
    (set d | d in r.dependsOn) + BranchPrereqs(r, stories) + OtherOwners(stories, r.id)
  }

  ghost function OtherOwners(stories: seq<Story>, q: Id): set<Id> {
    set s | s in stories && StoryCoversReq(s, q) && DeterministicStoryOwner(s) != q :: DeterministicStoryOwner(s)
  }

  ghost function WaitGraph(reqs: seq<Requirement>, stories: seq<Story>): Graph<Id> {
    map id | id in ReqIds(reqs) :: set r, p | r in reqs && r.id == id && p in WaitSet(r, stories) :: p
  }

  lemma WaitEdge(reqs: seq<Requirement>, stories: seq<Story>, r: Requirement, p: Id)
    requires UniqueRequirements(reqs) && r in reqs
    ensures Edge(WaitGraph(reqs, stories), r.id, p) <==> p in WaitSet(r, stories)
  {
    if Edge(WaitGraph(reqs, stories), r.id, p) {
      var t :| t in reqs && t.id == r.id && p in WaitSet(t, stories);
      SameRequirement(reqs, r, t);
    }
  }

  lemma WaitEdgeSource(reqs: seq<Requirement>, stories: seq<Story>, x: Id, p: Id) returns (r: Requirement)
    requires Edge(WaitGraph(reqs, stories), x, p)
    ensures r in reqs && r.id == x && p in WaitSet(r, stories)
  {
    r :| r in reqs && r.id == x && p in WaitSet(r, stories);
  }

  // ----- getting stuck

  /** `q` has failed or waits, directly or not, for something that has. */
  ghost predicate HeldUp(g: Graph<Id>, s: State, q: Id) {
    q in s.failed || exists f :: f in s.failed && Reach(g, q, f)
  }

  ghost predicate MayStart(reqs: seq<Requirement>, stories: seq<Story>, s: State, r: Requirement) {
    r in reqs && r.id !in s.active && r.id !in s.failed && Dispatchable(reqs, stories, s.shipped, s.completed, r)
  }

  /** Nothing is under execution, nothing may start, and something is left that no failure holds up. */
  ghost predicate Stuck(reqs: seq<Requirement>, stories: seq<Story>, s: State) {
    && s.active == {} && (forall r :: !MayStart(reqs, stories, s, r))
    && exists q :: q in ReqIds(reqs) && q !in s.completed && !HeldUp(WaitGraph(reqs, stories), s, q)
  }

  ghost predicate NeverStuck(reqs: seq<Requirement>, stories: seq<Story>) {
    forall run :: IsRun(reqs, stories, run) ==> !Stuck(reqs, stories, run[|run| - 1])
  }

  /** The stories of completed requirements have shipped. */
  ghost predicate CompletedShipped(reqs: seq<Requirement>, stories: seq<Story>, s: State) {
    && s.active <= ReqIds(reqs) && s.completed <= ReqIds(reqs) && s.failed <= ReqIds(reqs)
    && forall x :: x in stories && DeterministicStoryOwner(x) in s.completed ==> x.id in s.shipped
  }

  lemma StepKeepsShipped(reqs: seq<Requirement>, stories: seq<Story>, s: State, s': State)
    requires CompletedShipped(reqs, stories, s) && Step(reqs, stories, s, s')
    ensures CompletedShipped(reqs, stories, s')
  {
    if r :| Start(reqs, stories, s, s', r) {
    } else if x :| Ship(stories, s, s', x) {
    } else if q :| Finish(stories, s, s', q) {
    } else if q :| Fail(s, s', q) {
    } else if q, x :| Borrow(stories, s, s', q, x) {
    } else {
      var q :| Reopen(reqs, stories, s, s', q);
    }
  }

  lemma {:induction false} RunKeepsShipped(reqs: seq<Requirement>, stories: seq<Story>, run: seq<State>, k: nat)
    requires IsRun(reqs, stories, run) && k < |run|
    ensures CompletedShipped(reqs, stories, run[k])
    decreases k
  {
    if k > 0 {
      var j := k - 1;
      RunKeepsShipped(reqs, stories, run, j);
      StepKeepsShipped(reqs, stories, run[j], run[k]);
    }
  }

  ghost predicate PlanOk(reqs: seq<Requirement>, stories: seq<Story>) {
    UniqueIds(stories) && CoversPlan(stories, reqs) && NamedRequirements(reqs) && UniqueRequirements(reqs)
  }

  /** Whatever a requirement waits for is a requirement of the plan. */
  lemma WaitsWithinPlan(reqs: seq<Requirement>, stories: seq<Story>, r: Requirement, p: Id)
    requires PlanOk(reqs, stories) && PrereqsKnown(reqs) && r in reqs && p in WaitSet(r, stories)
    ensures p in ReqIds(reqs)
  {
    if p in BranchPrereqs(r, stories) {
      PrereqIsNode(reqs, stories, r, p);
    } else if p in OtherOwners(stories, r.id) {
      var s :| s in stories && StoryCoversReq(s, r.id) && DeterministicStoryOwner(s) == p;
      OwnerIsNode(reqs, stories, s);
    }
  }

  /** A requirement all of whose waits are over passes the three gates. */
  lemma NothingLeftToWaitFor(reqs: seq<Requirement>, stories: seq<Story>, s: State, r: Requirement)
    requires PrereqsKnown(reqs) && CompletedShipped(reqs, stories, s) && r in reqs && r.id !in s.completed
    requires WaitSet(r, stories) <= s.completed
    ensures Dispatchable(reqs, stories, s.shipped, s.completed, r)
  {
    forall x | x in stories ensures !Reserves(x, s.shipped, r.id) {
      if StoryCoversReq(x, r.id) && DeterministicStoryOwner(x) != r.id {
        assert DeterministicStoryOwner(x) in WaitSet(r, stories);
      }
    }
  }

  /** Something is left that no failure holds up: then the first of it may start. */
  lemma AcyclicNeverStuck(reqs: seq<Requirement>, stories: seq<Story>, s: State)
    requires PlanOk(reqs, stories) && PrereqsKnown(reqs) && Acyclic(WaitGraph(reqs, stories))
    requires CompletedShipped(reqs, stories, s)
    ensures !Stuck(reqs, stories, s)
  {
    var g := WaitGraph(reqs, stories);
    var left := set q | q in ReqIds(reqs) && q !in s.completed && !HeldUp(g, s, q);
    if Stuck(reqs, stories, s) {
      var q0 :| q0 in ReqIds(reqs) && q0 !in s.completed && !HeldUp(g, s, q0);
      assert q0 in left;
      var q := SinkExists(g, left);
      var r :| r in reqs && r.id == q;
      forall p | p in WaitSet(r, stories) ensures p in s.completed {
        WaitEdge(reqs, stories, r, p);
        WaitsWithinPlan(reqs, stories, r, p);
        if HeldUp(g, s, p) {
          HeldUpBehind(g, s, q, p);
        }
      }
      NothingLeftToWaitFor(reqs, stories, s, r);
      assert MayStart(reqs, stories, s, r);
    }
  }

  lemma HeldUpBehind(g: Graph<Id>, s: State, q: Id, p: Id)
    requires Edge(g, q, p) && HeldUp(g, s, p)
    ensures HeldUp(g, s, q)
  {
    EdgeReaches(g, q, p);
    if p !in s.failed {
      var f :| f in s.failed && Reach(g, p, f);
      ReachTrans(g, q, p, f);
    }
  }

  // ----- without reopens, what has started never waits for itself

  ghost predicate IsForwardRun(reqs: seq<Requirement>, stories: seq<Story>, run: seq<State>) {
    && |run| > 0 && run[0] == IDLE
    && forall i, j :: 0 <= i && i + 1 == j < |run| ==> Forward(reqs, stories, run[i], run[j])
  }

  /** Everything started waits only for what has started, all of it known, and not for itself. */
  ghost predicate Orderly(g: Graph<Id>, stories: seq<Story>, s: State) {
    && (forall q, p :: Started(s, q) && Edge(g, q, p) ==> Started(s, p) && p in g)
    && (forall q :: Started(s, q) ==> !Reach(g, q, q))
    && ShippedByStarted(stories, s)
  }

  ghost predicate ShippedByStarted(stories: seq<Story>, s: State) {
    forall x :: x in stories && x.id in s.shipped ==> Started(s, DeterministicStoryOwner(x))
  }

  lemma {:induction false} OrderlyFar(g: Graph<Id>, stories: seq<Story>, s: State, n: nat, q: Id, p: Id)
    requires Orderly(g, stories, s) && Started(s, q) && ReachIn(g, n, q, p)
    ensures Started(s, p)
    decreases n
  {
    if n > 0 {
      var rest := n - 1;
      var z :| Edge(g, q, z) && ReachIn(g, rest, z, p);
      OrderlyFar(g, stories, s, rest, z, p);
    }
  }

  /** Whatever a dispatchable requirement waits for has started. */
  lemma DispatchableWaits(reqs: seq<Requirement>, stories: seq<Story>, s: State, r: Requirement, p: Id)
    requires CoversPlan(stories, reqs) && NamedRequirements(reqs) && ShippedByStarted(stories, s)
    requires s.completed <= ReqIds(reqs) && Dispatchable(reqs, stories, s.shipped, s.completed, r)
    requires p in WaitSet(r, stories)
    ensures Started(s, p) && p in ReqIds(reqs)
  {
    if p !in r.dependsOn && p !in BranchPrereqs(r, stories) {
      var x :| x in stories && StoryCoversReq(x, r.id) && DeterministicStoryOwner(x) != r.id &&
        DeterministicStoryOwner(x) == p;
      assert !Reserves(x, s.shipped, r.id);
      OwnerIsNode(reqs, stories, x);
    }
  }

  /** Starting what waits only for what has started keeps order. */
  lemma StartOrderly(g: Graph<Id>, stories: seq<Story>, s: State, s': State, q: Id)
    requires Orderly(g, stories, s) && !Started(s, q) && s' == s.(active := s.active + {q})
    requires forall p :: Edge(g, q, p) ==> Started(s, p) && p in g
    ensures Orderly(g, stories, s')
  {
    assert forall x :: Started(s', x) <==> Started(s, x) || x == q;
    if Reach(g, q, q) {
      var n: nat :| n > 0 && ReachIn(g, n, q, q);
      var p :| Edge(g, q, p) && ReachIn(g, n - 1, p, q);
      OrderlyFar(g, stories, s, n - 1, p, q);
    }
  }

  /** Everything a started requirement waited for when it started was under way or complete. */
  lemma StartWaits(reqs: seq<Requirement>, stories: seq<Story>, s: State, r: Requirement, p: Id)
    requires PlanOk(reqs, stories) && ShippedByStarted(stories, s) && s.completed <= ReqIds(reqs)
    requires r in reqs && Dispatchable(reqs, stories, s.shipped, s.completed, r)
    requires Edge(WaitGraph(reqs, stories), r.id, p)
    ensures Started(s, p) && p in WaitGraph(reqs, stories)
  {
    WaitEdge(reqs, stories, r, p);
    DispatchableWaits(reqs, stories, s, r, p);
  }

  /** Completing stories and requirements keeps order. */
  lemma EndOrderly(g: Graph<Id>, stories: seq<Story>, s: State, s': State)
    requires UniqueIds(stories) && Orderly(g, stories, s)
    requires (exists x :: Ship(stories, s, s', x)) || (exists q :: Finish(stories, s, s', q))
    ensures Orderly(g, stories, s')
  {
    assert forall q :: Started(s', q) <==> Started(s, q);
    if x :| Ship(stories, s, s', x) {
      ShippedStarted(stories, s, s', {x.id});
    } else {
      var q :| Finish(stories, s, s', q);
      ShippedStarted(stories, s, s', OwnedStories(stories, q));
    }
  }

  lemma ForwardOrderly(reqs: seq<Requirement>, stories: seq<Story>, s: State, s': State)
    requires PlanOk(reqs, stories) && Orderly(WaitGraph(reqs, stories), stories, s) && s.completed <= ReqIds(reqs)
    requires Forward(reqs, stories, s, s')
    ensures Orderly(WaitGraph(reqs, stories), stories, s')
  {
    var g := WaitGraph(reqs, stories);
    if r :| Start(reqs, stories, s, s', r) {
      forall p | Edge(g, r.id, p) ensures Started(s, p) && p in g {
        StartWaits(reqs, stories, s, r, p);
      }
      StartOrderly(g, stories, s, s', r.id);
    } else {
      EndOrderly(g, stories, s, s');
    }
  }

  lemma ShippedStarted(stories: seq<Story>, s: State, s': State, more: set<Id>)
    requires UniqueIds(stories) && ShippedByStarted(stories, s) && s'.shipped == s.shipped + more
    requires forall q :: Started(s, q) ==> Started(s', q)
    requires forall id :: id in more ==>
      exists y :: y in stories && y.id == id && Started(s, DeterministicStoryOwner(y))
    ensures ShippedByStarted(stories, s')
  {
    forall x | x in stories && x.id in s'.shipped ensures Started(s', DeterministicStoryOwner(x)) {
      if x.id !in s.shipped {
        var y :| y in stories && y.id == x.id && Started(s, DeterministicStoryOwner(y));
        SameStory(stories, x, y);
      }
    }
  }

  lemma {:induction false} ForwardRunOrderly(reqs: seq<Requirement>, stories: seq<Story>, run: seq<State>, k: nat)
    requires PlanOk(reqs, stories) && IsForwardRun(reqs, stories, run) && k < |run|
    ensures Orderly(WaitGraph(reqs, stories), stories, run[k])
    decreases k
  {
    if k > 0 {
      var j := k - 1;
      ForwardRunOrderly(reqs, stories, run, j);
      CompletedInPlan(reqs, stories, run, j);
      ForwardOrderly(reqs, stories, run[j], run[k]);
    }
  }

  lemma CompletedInPlan(reqs: seq<Requirement>, stories: seq<Story>, run: seq<State>, k: nat)
    requires IsForwardRun(reqs, stories, run) && k < |run|
    ensures run[k].completed <= ReqIds(reqs)
  {
    ForwardIsRun(reqs, stories, run);
    RunKeepsShipped(reqs, stories, run, k);
  }

  lemma ForwardIsRun(reqs: seq<Requirement>, stories: seq<Story>, run: seq<State>)
    requires IsForwardRun(reqs, stories, run)
    ensures IsRun(reqs, stories, run)
  {
    forall i, j | 0 <= i && i + 1 == j < |run| ensures Step(reqs, stories, run[i], run[j]) {
      assert Forward(reqs, stories, run[i], run[j]);
    }
  }

  // ----- a dispatch that is never stuck completes every requirement

  lemma ExtendForward(reqs: seq<Requirement>, stories: seq<Story>, run: seq<State>, s: State)
    returns (longer: seq<State>)
    requires IsForwardRun(reqs, stories, run) && Forward(reqs, stories, run[|run| - 1], s)
    ensures IsForwardRun(reqs, stories, longer) && longer[|longer| - 1] == s
  {
    longer := run + [s];
    forall i, j | 0 <= i && i + 1 == j < |longer| ensures Forward(reqs, stories, longer[i], longer[j]) {
      if j < |run| {
        assert Forward(reqs, stories, run[i], run[j]);
      }
    }
  }

  ghost predicate AllCovered(reqs: seq<Requirement>, stories: seq<Story>) {
    forall q :: q in ReqIds(reqs) ==> Covered(stories, q)
  }

  lemma StartAndFinish(reqs: seq<Requirement>, stories: seq<Story>, run: seq<State>, r: Requirement)
    returns (longer: seq<State>)
    requires IsForwardRun(reqs, stories, run) && run[|run| - 1].active == {}
    requires MayStart(reqs, stories, run[|run| - 1], r) && Covered(stories, r.id)
    ensures IsForwardRun(reqs, stories, longer) && longer[|longer| - 1].active == {}
    ensures longer[|longer| - 1].completed == run[|run| - 1].completed + {r.id}
    ensures longer[|longer| - 1].failed == run[|run| - 1].failed
  {
    var s := run[|run| - 1];
    var s1, s2 := StartThenFinish(reqs, stories, s, r);
    longer := ExtendForward(reqs, stories, run, s1);
    longer := ExtendForward(reqs, stories, longer, s2);
  }

  lemma StartThenFinish(reqs: seq<Requirement>, stories: seq<Story>, s: State, r: Requirement)
    returns (s1: State, s2: State)
    requires s.active == {} && MayStart(reqs, stories, s, r) && Covered(stories, r.id)
    ensures Forward(reqs, stories, s, s1) && Forward(reqs, stories, s1, s2)
    ensures s2.active == {} && s2.completed == s.completed + {r.id} && s2.failed == s.failed
  {
    s1 := s.(active := s.active + {r.id});
    s2 := State(s1.active - {r.id}, s.completed + {r.id}, s.failed, s.shipped + OwnedStories(stories, r.id));
    assert Start(reqs, stories, s, s1, r);
    assert Finish(stories, s1, s2, r.id);
  }

  lemma OneLess(all: set<Id>, done: set<Id>, q: Id)
    requires q in all && q !in done
    ensures |all - (done + {q})| < |all - done|
  {
    assert all - (done + {q}) == (all - done) - {q};
  }

  lemma {:induction false} CompleteAll(reqs: seq<Requirement>, stories: seq<Story>, run: seq<State>)
    returns (full: seq<State>)
    requires NeverStuck(reqs, stories) && AllCovered(reqs, stories) && IsForwardRun(reqs, stories, run)
    requires run[|run| - 1].active == {} && run[|run| - 1].failed == {}
    ensures IsForwardRun(reqs, stories, full) && ReqIds(reqs) <= full[|full| - 1].completed
    decreases |ReqIds(reqs) - run[|run| - 1].completed|
  {
    var s := run[|run| - 1];
    full := run;
    if q :| q in ReqIds(reqs) && q !in s.completed {
      ForwardIsRun(reqs, stories, run);
      assert !HeldUp(WaitGraph(reqs, stories), s, q);
      var r :| MayStart(reqs, stories, s, r);
      assert r.id in ReqIds(reqs);
      full := StartAndFinish(reqs, stories, run, r);
      OneLess(ReqIds(reqs), s.completed, r.id);
      full := CompleteAll(reqs, stories, full);
    }
  }

  /** A failure-free, reopen-free run that completes every requirement. */
  ghost predicate CompletingRun(reqs: seq<Requirement>, stories: seq<Story>, run: seq<State>) {
    IsForwardRun(reqs, stories, run) && ReqIds(reqs) <= run[|run| - 1].completed
  }

  lemma CompletedWaits(reqs: seq<Requirement>, stories: seq<Story>, run: seq<State>)
    requires PlanOk(reqs, stories) && CompletingRun(reqs, stories, run)
    ensures PrereqsKnown(reqs) && Acyclic(WaitGraph(reqs, stories))
  {
    var g, s := WaitGraph(reqs, stories), run[|run| - 1];
    ForwardRunOrderly(reqs, stories, run, |run| - 1);
    forall r, d | r in reqs && d in r.dependsOn ensures d in ReqIds(reqs) {
      WaitEdge(reqs, stories, r, d);
      assert r.id in ReqIds(reqs) && Started(s, r.id);
    }
    forall x ensures !Reach(g, x, x) {
      if x in ReqIds(reqs) {
        assert Started(s, x);
      } else if Reach(g, x, x) {
        var z := ReachHead(g, x, x);
      }
    }
  }

  /** Only covered requirements ever complete, whatever fails or is reopened. */
  lemma {:induction false} CompletedCovered(reqs: seq<Requirement>, stories: seq<Story>, run: seq<State>, k: nat, q: Id)
    requires IsRun(reqs, stories, run) && k < |run| && q in run[k].completed
    ensures Covered(stories, q)
    decreases k
  {
    if k > 0 {
      var j := k - 1;
      if q in run[j].completed {
        CompletedCovered(reqs, stories, run, j, q);
      } else {
        NewlyCompleted(reqs, stories, run[j], run[k], q);
      }
    }
  }

  lemma NewlyCompleted(reqs: seq<Requirement>, stories: seq<Story>, s: State, s': State, q: Id)
    requires Step(reqs, stories, s, s') && q in s'.completed && q !in s.completed
    ensures Covered(stories, q)
  {
  }

  /**
   Some run completes every requirement exactly when each has a story, every
   prerequisite is a requirement of the plan, and none waits for itself.
   */
  lemma CanCompleteIff(reqs: seq<Requirement>, stories: seq<Story>)
    requires PlanOk(reqs, stories)
    ensures (exists run :: CompletingRun(reqs, stories, run)) <==>
      AllCovered(reqs, stories) && PrereqsKnown(reqs) && Acyclic(WaitGraph(reqs, stories))
  {
    if run :| CompletingRun(reqs, stories, run) {
      CompletedWaits(reqs, stories, run);
      ForwardIsRun(reqs, stories, run);
      forall q | q in ReqIds(reqs) ensures Covered(stories, q) {
        CompletedCovered(reqs, stories, run, |run| - 1, q);
      }
    }
    if AllCovered(reqs, stories) && PrereqsKnown(reqs) && Acyclic(WaitGraph(reqs, stories)) {
      WaitingOrderNeverStuck(reqs, stories);
      var run := CompleteAll(reqs, stories, [IDLE]);
      assert CompletingRun(reqs, stories, run);
    }
  }

  lemma WaitingOrderNeverStuck(reqs: seq<Requirement>, stories: seq<Story>)
    requires PlanOk(reqs, stories) && PrereqsKnown(reqs) && Acyclic(WaitGraph(reqs, stories))
    ensures NeverStuck(reqs, stories)
  {
    forall run | IsRun(reqs, stories, run) ensures !Stuck(reqs, stories, run[|run| - 1]) {
      RunKeepsShipped(reqs, stories, run, |run| - 1);
      AcyclicNeverStuck(reqs, stories, run[|run| - 1]);
    }
  }

  /**
   If every prerequisite is a requirement of the plan and none waits for itself,
   then in every run, with failures and reopens, dispatch halts only with everything
   that is left failed or waiting for something failed. When each requirement has a
   story, that holds in no other plan.
   */
  lemma NeverStuckIff(reqs: seq<Requirement>, stories: seq<Story>)
    requires PlanOk(reqs, stories)
    ensures PrereqsKnown(reqs) && Acyclic(WaitGraph(reqs, stories)) ==> NeverStuck(reqs, stories)
    ensures AllCovered(reqs, stories) && NeverStuck(reqs, stories) ==>
      PrereqsKnown(reqs) && Acyclic(WaitGraph(reqs, stories))
  {
    if PrereqsKnown(reqs) && Acyclic(WaitGraph(reqs, stories)) {
      WaitingOrderNeverStuck(reqs, stories);
    }
    if AllCovered(reqs, stories) && NeverStuck(reqs, stories) {
      var run := CompleteAll(reqs, stories, [IDLE]);
      CompletedWaits(reqs, stories, run);
    }
  }

  // ----- one story per requirement

  /** No story's owner has a prerequisite that the same story covers. */
  ghost predicate OwnersFirst(reqs: seq<Requirement>, stories: seq<Story>) {
    forall s, r, d :: s in stories ==> !OwnerNeedsCovered(reqs, s, r, d)
  }

  ghost predicate OwnerNeedsCovered(reqs: seq<Requirement>, s: Story, r: Requirement, d: Id) {
    r in reqs && r.id == DeterministicStoryOwner(s) && d in r.dependsOn && StoryCoversReq(s, d)
  }

  /** The owner waits for the other requirement, which waits for the owner's story. */
  lemma OwnerNeedsCoveredIsCycle(reqs: seq<Requirement>, stories: seq<Story>, s: Story, r: Requirement, d: Id)
    requires PlanOk(reqs, stories) && PrereqsKnown(reqs) && s in stories && OwnerNeedsCovered(reqs, s, r, d)
    ensures !Acyclic(WaitGraph(reqs, stories))
  {
    var g := WaitGraph(reqs, stories);
    WaitEdge(reqs, stories, r, d);
    EdgeReaches(g, r.id, d);
    if d != r.id {
      var t :| t in reqs && t.id == d;
      assert r.id in OtherOwners(stories, d);
      WaitEdge(reqs, stories, t, r.id);
      EdgeOnCycle(g, d, r.id);
    }
  }

  lemma PrereqsWithinWaits(reqs: seq<Requirement>, stories: seq<Story>)
    requires UniqueRequirements(reqs)
    ensures SubGraph(ReqGraph(reqs), WaitGraph(reqs, stories))
    ensures SubGraph(PrereqGraph(reqs, stories), WaitGraph(reqs, stories))
  {
    forall x, y | Edge(ReqGraph(reqs), x, y) ensures Edge(WaitGraph(reqs, stories), x, y) {
      var nodes := ReqNodes(reqs);
      var i := LastWinsAt(NodeIds(nodes), NodeDeps(nodes), x);
      assert reqs[i] in reqs;
      WaitEdge(reqs, stories, reqs[i], y);
    }
    forall x, y | Edge(PrereqGraph(reqs, stories), x, y) ensures Edge(WaitGraph(reqs, stories), x, y) {
      PrereqEdge(reqs, stories, x, y);
      var r :| r in reqs && r.id == x && y in BranchPrereqs(r, stories);
      WaitEdge(reqs, stories, r, y);
    }
  }

  /** Depth of the one story covering `q`. */
  ghost function Major(stories: seq<Story>, q: Id): int {
    if Once(stories, q) then var k: nat :| OnlyStory(stories, k, q); Depth(stories, stories[k]) else 0
  }

  /** Within a story: the owner first, the others by how many prerequisites they have. */
  ghost function Minor(reqs: seq<Requirement>, stories: seq<Story>, q: Id): int {
    if exists k: nat :: OnlyStory(stories, k, q) && DeterministicStoryOwner(stories[k]) == q then 0
    else 1 + |Below(ReqGraph(reqs), ReqIds(reqs), q)|
  }

  ghost predicate Falls(reqs: seq<Requirement>, stories: seq<Story>, x: Id, y: Id) {
    || Major(stories, y) < Major(stories, x)
    || (Major(stories, y) == Major(stories, x) && Minor(reqs, stories, y) < Minor(reqs, stories, x))
  }

  lemma MajorAt(stories: seq<Story>, k: nat, q: Id)
    requires OnlyStory(stories, k, q)
    ensures Major(stories, q) == Depth(stories, stories[k])
  {
  }

  /** From story `i` to a story it depends on. */
  lemma FallsToDependency(reqs: seq<Requirement>, stories: seq<Story>, x: Id, i: nat, y: Id, m: nat)
    requires Settled(stories, reqs) && OnlyStory(stories, i, x) && OnlyStory(stories, m, y)
    requires stories[m].id in stories[i].dependsOn
    ensures Falls(reqs, stories, x, y)
  {
    MajorAt(stories, i, x);
    MajorAt(stories, m, y);
    DepthFalls(stories, i, m);
  }

  /** Within one story, to its owner. */
  lemma FallsToOwner(reqs: seq<Requirement>, stories: seq<Story>, x: Id, y: Id, i: nat)
    requires OnlyStory(stories, i, x) && OnlyStory(stories, i, y) && x != y && DeterministicStoryOwner(stories[i]) == y
    ensures Falls(reqs, stories, x, y)
  {
    MajorAt(stories, i, x);
    MajorAt(stories, i, y);
  }

  lemma PrereqFalls(reqs: seq<Requirement>, stories: seq<Story>, r: Requirement, d: Id)
    requires Settled(stories, reqs) && CoveredOnce(stories, reqs) && PrereqsKnown(reqs)
    requires Acyclic(ReqGraph(reqs)) && OwnersFirst(reqs, stories) && r in reqs && d in r.dependsOn
    ensures Falls(reqs, stories, r.id, d)
  {
    assert r.id in ReqIds(reqs) && d in ReqIds(reqs);
    var i: nat :| OnlyStory(stories, i, r.id);
    var m: nat :| OnlyStory(stories, m, d);
    PrereqReach(reqs, r, d);
    if m != i {
      assert Needs(stories, reqs, i, m, r.id, d);
      FallsToDependency(reqs, stories, r.id, i, d, m);
    } else {
      assert stories[i] in stories;
      assert !OwnerNeedsCovered(reqs, stories[i], r, d);
      MajorAt(stories, i, r.id);
      MajorAt(stories, i, d);
      BelowShrinks(ReqGraph(reqs), ReqIds(reqs), r.id, d);
    }
  }

  lemma SchedulingOwnerFalls(reqs: seq<Requirement>, stories: seq<Story>, x: Id, y: Id)
    requires Settled(stories, reqs) && CoveredOnce(stories, reqs)
    requires x in ReqIds(reqs) && y in SchedulingOwners(x, stories)
    ensures Falls(reqs, stories, x, y)
  {
    var table := StoryTable(stories);
    var s :| s in stories && StoryCoversReq(s, x) && y in DepOwners(x, table, s);
    var i: nat :| i < |stories| && stories[i] == s;
    var d :| d in s.dependsOn && OwnerOf(table, d) == y && y != "";
    var j := LastWinsAt(StoryIds(stories), stories, d);
    assert stories[j] in stories;
    var o := OwnerInPlan(stories, reqs, stories[j]);
    assert y in ReqIds(reqs);
    assert CoveredAt(stories, i, x) && CoveredAt(stories, j, y);
    FallsToDependency(reqs, stories, x, i, y, j);
  }

  lemma PrereqOwnerFalls(reqs: seq<Requirement>, stories: seq<Story>, r: Requirement, d: Id)
    requires Settled(stories, reqs) && CoveredOnce(stories, reqs) && PrereqsKnown(reqs)
    requires r in reqs && d in r.dependsOn && OwnerRequirementFor(d, stories) != r.id
    ensures Falls(reqs, stories, r.id, OwnerRequirementFor(d, stories))
  {
    assert r.id in ReqIds(reqs) && d in ReqIds(reqs);
    var i: nat :| OnlyStory(stories, i, r.id);
    var m: nat :| OnlyStory(stories, m, d);
    PlanStoriesOwned(stories, reqs);
    OwnerForCases(d, stories);
    var y := DeterministicStoryOwner(stories[m]);
    assert OwnerRequirementFor(d, stories) == y && stories[m] in stories;
    var o := OwnerInPlan(stories, reqs, stories[m]);
    assert y in ReqIds(reqs) && CoveredAt(stories, m, y);
    if m != i {
      PrereqReach(reqs, r, d);
      assert Needs(stories, reqs, i, m, r.id, d);
      FallsToDependency(reqs, stories, r.id, i, y, m);
    } else {
      FallsToOwner(reqs, stories, r.id, y, i);
    }
  }

  lemma OtherOwnerFalls(reqs: seq<Requirement>, stories: seq<Story>, r: Requirement, y: Id)
    requires Settled(stories, reqs) && CoveredOnce(stories, reqs) && r in reqs && y in OtherOwners(stories, r.id)
    ensures Falls(reqs, stories, r.id, y)
  {
    var s :| s in stories && StoryCoversReq(s, r.id) && DeterministicStoryOwner(s) != r.id &&
      DeterministicStoryOwner(s) == y;
    var i: nat :| i < |stories| && stories[i] == s;
    var o := OwnerInPlan(stories, reqs, s);
    assert r.id in ReqIds(reqs) && y in ReqIds(reqs);
    assert CoveredAt(stories, i, r.id) && CoveredAt(stories, i, y);
    FallsToOwner(reqs, stories, r.id, y, i);
  }

  lemma WaitFalls(reqs: seq<Requirement>, stories: seq<Story>, r: Requirement, y: Id)
    requires Settled(stories, reqs) && CoveredOnce(stories, reqs) && PrereqsKnown(reqs)
    requires Acyclic(ReqGraph(reqs)) && OwnersFirst(reqs, stories) && r in reqs && y in WaitSet(r, stories)
    ensures Falls(reqs, stories, r.id, y)
  {
    assert r.id in ReqIds(reqs);
    if y in r.dependsOn {
      PrereqFalls(reqs, stories, r, y);
    } else if y in SchedulingOwners(r.id, stories) {
      SchedulingOwnerFalls(reqs, stories, r.id, y);
    } else if y in OtherOwners(stories, r.id) {
      OtherOwnerFalls(reqs, stories, r, y);
    } else {
      var d :| d in r.dependsOn && OwnerRequirementFor(d, stories) == y && y != r.id;
      PrereqOwnerFalls(reqs, stories, r, d);
    }
  }

  /** With one story per requirement, waiting is acyclic when prerequisites are and owners come first. */
  lemma SingleCoverageWaits(reqs: seq<Requirement>, stories: seq<Story>)
    requires Settled(stories, reqs) && CoveredOnce(stories, reqs) && PrereqsKnown(reqs)
    requires Acyclic(ReqGraph(reqs)) && OwnersFirst(reqs, stories)
    ensures Acyclic(WaitGraph(reqs, stories))
  {
    var g := WaitGraph(reqs, stories);
    var major := (q: Id) => Major(stories, q);
    var minor := (q: Id) => Minor(reqs, stories, q);
    forall x, y | Edge(g, x, y) ensures major(y) < major(x) || (major(y) == major(x) && minor(y) < minor(x)) {
      var r := WaitEdgeSource(reqs, stories, x, y);
      WaitFalls(reqs, stories, r, y);
    }
    DescendingPairsAcyclic(g, major, minor);
  }

  /**
   After a nil derivation of a plan with one story per requirement, dispatch never
   gets stuck exactly when the prerequisites are known and acyclic and no story's
   smallest requirement has a prerequisite that the same story covers.
   */
  lemma SingleCoverageNeverStuckIff(norm: Normalizer, before: seq<Story>, reqs: seq<Requirement>, after: seq<Story>)
    requires PlanOk(reqs, before) && CoveredOnce(before, reqs) && Schedules(norm, before, reqs, after, Scheduled)
    ensures NeverStuck(reqs, after) <==> PrereqsKnown(reqs) && Acyclic(ReqGraph(reqs)) && OwnersFirst(reqs, before)
  {
    ScheduledIsSettled(norm, before, reqs, after);
    OnceKept(before, after, reqs);
    OnceIsCovered(reqs, after);
    NeverStuckIff(reqs, after);
    PrereqsWithinWaits(reqs, after);
    OwnersFirstKept(reqs, before, after);
    if PrereqsKnown(reqs) && Acyclic(ReqGraph(reqs)) && OwnersFirst(reqs, after) {
      SingleCoverageWaits(reqs, after);
    }
    if NeverStuck(reqs, after) {
      AcyclicWithin(ReqGraph(reqs), WaitGraph(reqs, after));
      forall s, r, d | s in after ensures !OwnerNeedsCovered(reqs, s, r, d) {
        if OwnerNeedsCovered(reqs, s, r, d) {
          OwnerNeedsCoveredIsCycle(reqs, after, s, r, d);
        }
      }
    }
  }

  lemma OnceIsCovered(reqs: seq<Requirement>, stories: seq<Story>)
    requires CoveredOnce(stories, reqs)
    ensures AllCovered(reqs, stories)
  {
    forall q | q in ReqIds(reqs) ensures Covered(stories, q) {
      var k: nat :| OnlyStory(stories, k, q);
      assert stories[k] in stories;
    }
  }

  lemma OwnersFirstKept(reqs: seq<Requirement>, before: seq<Story>, after: seq<Story>)
    requires SameButDeps(before, after)
    ensures OwnersFirst(reqs, before) <==> OwnersFirst(reqs, after)
  {
    forall s, r, d | s in before && OwnerNeedsCovered(reqs, s, r, d)
      ensures exists t :: t in after && OwnerNeedsCovered(reqs, t, r, d)
    {
      var k :| 0 <= k < |before| && before[k] == s;
      assert after[k] in after && OwnerNeedsCovered(reqs, after[k], r, d);
    }
    forall s, r, d | s in after && OwnerNeedsCovered(reqs, s, r, d)
      ensures exists t :: t in before && OwnerNeedsCovered(reqs, t, r, d)
    {
      var k :| 0 <= k < |after| && after[k] == s;
      assert before[k] in before && OwnerNeedsCovered(reqs, before[k], r, d);
    }
  }
}
