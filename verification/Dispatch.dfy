/**
 Requirement dispatch: the three filters that decide which requirements start, and
 the runs they allow. A requirement executes the stories it owns on its branch.

 Safety: requirements under execution never own stories that share a file, also
 when completed requirements are reopened. Progress: when dispatch can get stuck.
 */
module Dispatch {
  import opened Graphs
  import opened Tables
  import opened Ordering
  import opened CycleSearch
  import opened Plan
  import opened Scheduling
  import opened Branches
  import opened BranchTheorems

  // ----- the filters

  /** The members of `keep`, in list order. */
  ghost function Kept<T>(s: seq<T>, keep: set<T>): seq<T> {
    if s == [] then []
    else
      var n := |s| - 1;
      Kept(s[..n], keep) + if s[n] in keep then [s[n]] else []
  }

  lemma KeptSnoc<T>(s: seq<T>, x: T, keep: set<T>)
    ensures Kept(s + [x], keep) == Kept(s, keep) + if x in keep then [x] else []
  {
    assert (s + [x])[..|s|] == s;
  }

  lemma KeptGrows<T>(s: seq<T>, keep: set<T>, i: nat)
    requires i < |s|
    ensures Kept(s[..i + 1], keep) == Kept(s[..i], keep) + if s[i] in keep then [s[i]] else []
  {
    assert s[..i + 1] == s[..i] + [s[i]];
    KeptSnoc(s[..i], s[i], keep);
  }

  lemma {:induction false} KeptMembers<T>(s: seq<T>, keep: set<T>, x: T)
    ensures x in Kept(s, keep) <==> x in s && x in keep
    decreases |s|
  {
    if s != [] {
      var n := |s| - 1;
      KeptMembers(s[..n], keep, x);
      assert s == s[..n] + [s[n]];
    }
  }

  /** Filtering twice is filtering by both. */
  lemma {:induction false} KeptTwice<T(!new)>(s: seq<T>, first: set<T>, second: set<T>, both: set<T>)
    requires forall x :: x in s ==> (x in both <==> x in first && x in second)
    ensures Kept(Kept(s, first), second) == Kept(s, both)
    decreases |s|
  {
    if s != [] {
      var n := |s| - 1;
      assert forall x :: x in s[..n] ==> x in s;
      KeptTwice(s[..n], first, second, both);
      if s[n] in first {
        KeptSnoc(Kept(s[..n], first), s[n], second);
      } else {
        assert Kept(s, first) == Kept(s[..n], first);
      }
    }
  }

  lemma {:induction false} KeptAll<T(!new)>(s: seq<T>, keep: set<T>)
    requires forall x :: x in s ==> x in keep
    ensures Kept(s, keep) == s
    decreases |s|
  {
    if s != [] {
      var n := |s| - 1;
      assert forall x :: x in s[..n] ==> x in s;
      KeptAll(s[..n], keep);
      assert s == s[..n] + [s[n]];
    }
  }

  /** Not complete, with every prerequisite a known requirement that is. */
  ghost predicate IsReady(reqs: seq<Requirement>, completed: set<Id>, r: Requirement) {
    r.id !in completed && forall d :: d in r.dependsOn ==> d in ReqIds(reqs) && d in completed
  }

  ghost function ReadySet(reqs: seq<Requirement>, completed: set<Id>): set<Requirement> {
    set r | r in reqs && IsReady(reqs, completed, r)
  }

  method DepsComplete(r: Requirement, complete: map<Id, bool>) returns (ok: bool)
    ensures ok <==> forall d :: d in r.dependsOn ==> d in complete && complete[d]
  {
    for k := 0 to |r.dependsOn|
      invariant forall m :: 0 <= m < k ==> r.dependsOn[m] in complete && complete[r.dependsOn[m]]
    {
      var d := r.dependsOn[k];
      if !(d in complete && complete[d]) {
        return false;
      }
    }
    return true;
  }

  method CompletionTable(reqs: seq<Requirement>, completed: set<Id>) returns (complete: map<Id, bool>)
    ensures forall d :: d in complete <==> d in ReqIds(reqs)
    ensures forall d :: d in complete ==> (complete[d] <==> d in completed)
  {
    complete := map[];
    for i := 0 to |reqs|
      invariant forall d :: d in complete <==> d in ReqIds(reqs[..i])
      invariant forall d :: d in complete ==> (complete[d] <==> d in completed)
    {
      PrefixGrows(reqs, i);
      assert ReqIds(reqs[..i + 1]) == ReqIds(reqs[..i]) + {reqs[i].id};
      complete := complete[reqs[i].id := reqs[i].id in completed];
    }
    assert reqs[..|reqs|] == reqs;
  }

  method FilterReadyRequirements(reqs: seq<Requirement>, completed: set<Id>) returns (ready: seq<Requirement>)
    ensures ready == Kept(reqs, ReadySet(reqs, completed))
  {
    var complete := CompletionTable(reqs, completed);
    ready := [];
    for i := 0 to |reqs|
      invariant ready == Kept(reqs[..i], ReadySet(reqs, completed))
    {
      var r := reqs[i];
      KeptGrows(reqs, ReadySet(reqs, completed), i);
      assert r in reqs && r.id in ReqIds(reqs);
      var ok := DepsComplete(r, complete);
      if !complete[r.id] && ok {
        ready := ready + [r];
      }
    }
    assert reqs[..|reqs|] == reqs;
  }

  /** A story covers `q`, belongs to another requirement and has not shipped. */
  ghost predicate ReservedElsewhere(stories: seq<Story>, shipped: set<Id>, q: Id) {
    exists s :: s in stories && Reserves(s, shipped, q)
  }

  predicate Reserves(s: Story, shipped: set<Id>, q: Id) {
    StoryCoversReq(s, q) && DeterministicStoryOwner(s) != q && s.id !in shipped
  }

  /** Requirement to the stories covering it. */
  method IndexStories(stories: seq<Story>) returns (index: map<Id, seq<Story>>)
    ensures forall q, s :: s in Successors(index, q) <==> s in stories && StoryCoversReq(s, q)
  {
    index := map[];
    for i := 0 to |stories|
      invariant forall q, s :: s in Successors(index, q) <==> s in stories[..i] && StoryCoversReq(s, q)
    {
      var t := stories[i];
      PrefixGrows(stories, i);
      ghost var before := index;
      for k := 0 to |t.requirementIds|
        invariant forall q, s :: s in Successors(index, q) <==>
          s in Successors(before, q) || (s == t && q in t.requirementIds[..k])
      {
        var q := t.requirementIds[k];
        PrefixGrows(t.requirementIds, k);
        index := index[q := Successors(index, q) + [t]];
      }
      assert t.requirementIds[..|t.requirementIds|] == t.requirementIds;
    }
    assert stories[..|stories|] == stories;
  }

  method IsReservedElsewhere(covering: seq<Story>, shipped: set<Id>, q: Id) returns (gated: bool)
    ensures gated <==> exists s :: s in covering && Reserves(s, shipped, q)
  {
    for k := 0 to |covering|
      invariant forall m :: 0 <= m < k ==> !Reserves(covering[m], shipped, q)
    {
      if Reserves(covering[k], shipped, q) {
        return true;
      }
    }
    return false;
  }

  ghost function UnreservedSet(ready: seq<Requirement>, stories: seq<Story>, shipped: set<Id>): set<Requirement> {
    set r | r in ready && !ReservedElsewhere(stories, shipped, r.id)
  }

  method FilterByStoryReservations(ready: seq<Requirement>, stories: seq<Story>, shipped: set<Id>)
    returns (out: seq<Requirement>)
    ensures out == Kept(ready, UnreservedSet(ready, stories, shipped))
  {
    ghost var keep := UnreservedSet(ready, stories, shipped);
    if ready == [] || stories == [] {
      KeptAll(ready, keep);
      return ready;
    }
    var index := IndexStories(stories);
    out := [];
    for i := 0 to |ready|
      invariant out == Kept(ready[..i], keep)
    {
      var r := ready[i];
      KeptGrows(ready, keep, i);
      var gated := IsReservedElsewhere(Successors(index, r.id), shipped, r.id);
      assert gated <==> ReservedElsewhere(stories, shipped, r.id);
      if !gated {
        out := out + [r];
      }
    }
    assert ready[..|ready|] == ready;
  }

  method BranchPrereqsComplete(r: Requirement, stories: seq<Story>, completed: set<Id>) returns (ok: bool)
    ensures ok <==> BranchPrereqs(r, stories) <= completed
  {
    var owners := ResolveRequirementBranchPrereqs(r, stories);
    for k := 0 to |owners|
      invariant forall m :: 0 <= m < k ==> owners[m] in completed
    {
      if owners[k] !in completed {
        return false;
      }
    }
    return true;
  }

  ghost function BasedSet(ready: seq<Requirement>, stories: seq<Story>, completed: set<Id>): set<Requirement> {
    set r | r in ready && BranchPrereqs(r, stories) <= completed
  }

  method FilterByBranchPrereqCompletion(ready: seq<Requirement>, stories: seq<Story>, completed: set<Id>)
    returns (out: seq<Requirement>)
    ensures out == if stories == [] then ready else Kept(ready, BasedSet(ready, stories, completed))
  {
    if ready == [] || stories == [] {
      return ready;
    }
    ghost var keep := BasedSet(ready, stories, completed);
    out := [];
    for i := 0 to |ready|
      invariant out == Kept(ready[..i], keep)
    {
      KeptGrows(ready, keep, i);
      var ok := BranchPrereqsComplete(ready[i], stories, completed);
      if ok {
        out := out + [ready[i]];
      }
    }
    assert ready[..|ready|] == ready;
  }

  /** All three gates at once. */
  ghost predicate Dispatchable(reqs: seq<Requirement>, stories: seq<Story>, shipped: set<Id>, completed: set<Id>,
                               r: Requirement) {
    && IsReady(reqs, completed, r) && !ReservedElsewhere(stories, shipped, r.id)
    && BranchPrereqs(r, stories) <= completed
  }

  ghost function DispatchSet(reqs: seq<Requirement>, stories: seq<Story>, shipped: set<Id>, completed: set<Id>)
    : set<Requirement>
  {
    set r | r in reqs && Dispatchable(reqs, stories, shipped, completed, r)
  }

  /** Without stories the branch gate asks for nothing that the first gate has not asked for. */
  lemma NoStoriesNoGate(reqs: seq<Requirement>, completed: set<Id>, r: Requirement)
    requires IsReady(reqs, completed, r)
    ensures BranchPrereqs(r, []) <= completed
  {
  }

  /** The filters in sequence let through exactly what passes all three gates, in list order. */
  method RequirementsToDispatch(reqs: seq<Requirement>, stories: seq<Story>, shipped: set<Id>, completed: set<Id>)
    returns (out: seq<Requirement>)
    ensures out == Kept(reqs, DispatchSet(reqs, stories, shipped, completed))
  {
    var ready := FilterReadyRequirements(reqs, completed);
    var unreserved := FilterByStoryReservations(ready, stories, shipped);
    out := FilterByBranchPrereqCompletion(unreserved, stories, completed);
    FiltersCompose(reqs, stories, shipped, completed, ready, unreserved, out);
  }

  lemma FiltersCompose(reqs: seq<Requirement>, stories: seq<Story>, shipped: set<Id>, completed: set<Id>,
                       ready: seq<Requirement>, unreserved: seq<Requirement>, out: seq<Requirement>)
    requires ready == Kept(reqs, ReadySet(reqs, completed))
    requires unreserved == Kept(ready, UnreservedSet(ready, stories, shipped))
    requires out == if stories == [] then unreserved else Kept(unreserved, BasedSet(unreserved, stories, completed))
    ensures out == Kept(reqs, DispatchSet(reqs, stories, shipped, completed))
  {
    var both := set r | r in reqs && IsReady(reqs, completed, r) && !ReservedElsewhere(stories, shipped, r.id);
    forall r ensures r in ready <==> r in reqs && r in ReadySet(reqs, completed) {
      KeptMembers(reqs, ReadySet(reqs, completed), r);
    }
    KeptTwice(reqs, ReadySet(reqs, completed), UnreservedSet(ready, stories, shipped), both);
    if stories == [] {
      forall r | r in both ensures r in DispatchSet(reqs, stories, shipped, completed) {
        NoStoriesNoGate(reqs, completed, r);
      }
      assert both == DispatchSet(reqs, stories, shipped, completed);
    } else {
      forall r ensures r in unreserved <==> r in reqs && r in both {
        KeptMembers(reqs, both, r);
      }
      KeptTwice(reqs, both, BasedSet(unreserved, stories, completed), DispatchSet(reqs, stories, shipped, completed));
    }
  }

  /**
   What passes, told from the records: the requirement is not complete, every
   prerequisite is a requirement of the plan and complete, every branch it derives
   from is complete, and every story that lists it beside a smaller ID has shipped.
   */
  lemma DispatchableExact(reqs: seq<Requirement>, stories: seq<Story>, shipped: set<Id>, completed: set<Id>,
                          r: Requirement)
    ensures Dispatchable(reqs, stories, shipped, completed, r) <==> (
      && r.id !in completed
      && (forall d :: d in r.dependsOn ==> d in completed && exists t :: t in reqs && t.id == d)
      && (forall p :: p in BranchPrereqs(r, stories) ==> p in completed)
      && (forall s :: s in stories && r.id in s.requirementIds && ListsSmaller(s, r.id) ==> s.id in shipped))
  {
    UnreservedExact(stories, shipped, r.id);
  }

  lemma UnreservedExact(stories: seq<Story>, shipped: set<Id>, q: Id)
    ensures !ReservedElsewhere(stories, shipped, q) <==>
      forall s :: s in stories && q in s.requirementIds && ListsSmaller(s, q) ==> s.id in shipped
  {
    forall s: Story
      ensures Reserves(s, shipped, q) <==> q in s.requirementIds && ListsSmaller(s, q) && s.id !in shipped
    {
      if q in s.requirementIds {
        OwnerIsSmallest(s, q);
      }
    }
  }

  ghost predicate ListsSmaller(s: Story, q: Id) {
    exists x :: x in s.requirementIds && Less(x, q)
  }

  lemma OwnerIsSmallest(s: Story, q: Id)
    requires q in s.requirementIds
    ensures ListsSmaller(s, q) <==> DeterministicStoryOwner(s) != q
  {
    var o := DeterministicStoryOwner(s);
    if x :| x in s.requirementIds && Less(x, q) {
      assert Leq(o, x);
      LessTrichotomy(x, q);
    }
  }

  /** Whatever a dispatched requirement's stories depend on is its own or belongs to a completed requirement. */
  lemma DispatchedOnCompletedWork(reqs: seq<Requirement>, stories: seq<Story>, shipped: set<Id>, completed: set<Id>,
                                  r: Requirement, i: nat, j: nat)
    requires UniqueIds(stories) && CoversPlan(stories, reqs) && NamedRequirements(reqs)
    requires Dispatchable(reqs, stories, shipped, completed, r) && CoveredAt(stories, i, r.id)
    requires j < |stories| && stories[j].id in stories[i].dependsOn
    ensures DeterministicStoryOwner(stories[j]) == r.id || DeterministicStoryOwner(stories[j]) in completed
  {
    if DeterministicStoryOwner(stories[j]) != r.id {
      DependencyDerives(stories, reqs, i, j, r);
    }
  }

  // ----- runs of dispatch

  /**
   Requirements under execution, completed and failed, each of which has an
   execution record, and the IDs of the stories that are complete.
   */
  datatype State = State(active: set<Id>, completed: set<Id>, failed: set<Id>, shipped: set<Id>)

  const IDLE := State({}, {}, {}, {})

  /** The requirement has an execution record. */
  ghost predicate Started(s: State, q: Id) {
    q in s.active || q in s.completed || q in s.failed
  }

  ghost function OwnedStories(stories: seq<Story>, q: Id): set<Id> {
    set s | s in stories && DeterministicStoryOwner(s) == q :: s.id
  }

  /** A requirement that has an execution record is refused another, so a failed one is not started again. */
  ghost predicate Start(reqs: seq<Requirement>, stories: seq<Story>, s: State, s': State, r: Requirement) {
    && r in reqs && r.id !in s.active && r.id !in s.failed
    && Dispatchable(reqs, stories, s.shipped, s.completed, r)
    && s' == s.(active := s.active + {r.id})
  }

  /** A story under execution completes ahead of its requirement. */
  ghost predicate Ship(stories: seq<Story>, s: State, s': State, x: Story) {
    x in stories && DeterministicStoryOwner(x) in s.active && s' == s.(shipped := s.shipped + {x.id})
  }

  /** A story that a reopen has reset under a requirement that covers it is completed by that requirement. */
  ghost predicate Borrow(stories: seq<Story>, s: State, s': State, q: Id, x: Story) {
    q in s.active && x in stories && StoryCoversReq(x, q) && s' == s.(shipped := s.shipped + {x.id})
  }

  ghost predicate Covered(stories: seq<Story>, q: Id) {
    exists x :: x in stories && StoryCoversReq(x, q)
  }

  /** All stories are done. A requirement that no story covers has none to do and can only fail. */
  ghost predicate Finish(stories: seq<Story>, s: State, s': State, q: Id) {
    && q in s.active && Covered(stories, q)
    && s' == State(s.active - {q}, s.completed + {q}, s.failed, s.shipped + OwnedStories(stories, q))
  }

  ghost predicate Fail(s: State, s': State, q: Id) {
    q in s.active && s' == s.(active := s.active - {q}, failed := s.failed + {q})
  }

  /** What `DependentBranchSubtree` returns for `q`. */
  ghost function Stale(reqs: seq<Requirement>, stories: seq<Story>, q: Id): set<Id> {
    set r | r in ReqIds(reqs) && r != q && Reach(PrereqGraph(reqs, stories), r, q)
  }

  /**
   Recovery resumes a completed, failed or waiting execution at once, past the
   filters. Everything that derives from it is torn down, records included; its own
   stories are reset, those of what is torn down may be.
   */
  ghost predicate Reopen(reqs: seq<Requirement>, stories: seq<Story>, s: State, s': State, q: Id) {
    var stale := Stale(reqs, stories, q);
    && Started(s, q)
    && s'.active == s.active - stale + {q}
    && s'.completed == s.completed - stale - {q} && s'.failed == s.failed - stale - {q}
    && s'.shipped <= s.shipped - OwnedStories(stories, q)
    && forall x :: x in stories && x.id in s.shipped && DeterministicStoryOwner(x) !in stale + {q} ==>
      x.id in s'.shipped
  }

  /** Steps without failures, reopens and what follows from them. */
  ghost predicate Forward(reqs: seq<Requirement>, stories: seq<Story>, s: State, s': State) {
    || (exists r :: Start(reqs, stories, s, s', r))
    || (exists x :: Ship(stories, s, s', x))
    || (exists q :: Finish(stories, s, s', q))
  }

  ghost predicate Step(reqs: seq<Requirement>, stories: seq<Story>, s: State, s': State) {
    || Forward(reqs, stories, s, s')
    || (exists q, x :: Borrow(stories, s, s', q, x))
    || (exists q :: Fail(s, s', q))
    || (exists q :: Reopen(reqs, stories, s, s', q))
  }

  ghost predicate IsRun(reqs: seq<Requirement>, stories: seq<Story>, run: seq<State>) {
    |run| > 0 && run[0] == IDLE && forall i, j :: 0 <= i && i + 1 == j < |run| ==> Step(reqs, stories, run[i], run[j])
  }

  // ----- safety

  /** What has started stands on completed branches and derives from itself by no route. */
  ghost predicate Based(g: Graph<Id>, s: State) {
    && s.active !! s.completed !! s.failed
    && (forall q, p :: Started(s, q) && Edge(g, q, p) ==> p in s.completed)
    && (forall q :: Started(s, q) ==> !Reach(g, q, q))
  }

  lemma {:induction false} BasedFar(g: Graph<Id>, s: State, n: nat, q: Id, p: Id)
    requires Based(g, s) && Started(s, q) && n > 0 && ReachIn(g, n, q, p)
    ensures p in s.completed
    decreases n
  {
    var rest := n - 1;
    var z :| Edge(g, q, z) && ReachIn(g, rest, z, p);
    if rest > 0 {
      BasedFar(g, s, rest, z, p);
    }
  }

  lemma BehindIsCompleted(g: Graph<Id>, s: State, q: Id, p: Id)
    requires Based(g, s) && Started(s, q) && Reach(g, q, p)
    ensures p in s.completed
  {
    var n: nat :| n > 0 && ReachIn(g, n, q, p);
    BasedFar(g, s, n, q, p);
  }

  lemma StartKeeps(reqs: seq<Requirement>, stories: seq<Story>, s: State, s': State, r: Requirement)
    requires UniqueRequirements(reqs) && Based(PrereqGraph(reqs, stories), s) && Start(reqs, stories, s, s', r)
    ensures Based(PrereqGraph(reqs, stories), s')
  {
    var g := PrereqGraph(reqs, stories);
    forall p | Edge(g, r.id, p) ensures p in s.completed {
      PrereqEdge(reqs, stories, r.id, p);
      var t :| t in reqs && t.id == r.id && p in BranchPrereqs(t, stories);
      SameRequirement(reqs, r, t);
    }
    if Reach(g, r.id, r.id) {
      var p := ReachHead(g, r.id, r.id);
      if p != r.id {
        BehindIsCompleted(g, s, p, r.id);
      }
    }
  }

  lemma SameRequirement(reqs: seq<Requirement>, r: Requirement, t: Requirement)
    requires UniqueRequirements(reqs) && r in reqs && t in reqs && r.id == t.id
    ensures r == t
  {
    var ids := NodeIds(ReqNodes(reqs));
    var i :| 0 <= i < |reqs| && reqs[i] == r;
    var j :| 0 <= j < |reqs| && reqs[j] == t;
    assert ids[i] == ids[j];
  }

  /** Nothing that stays derives from the reopened requirement or from what is torn down. */
  lemma StaysClear(reqs: seq<Requirement>, stories: seq<Story>, s: State, q: Id, x: Id, p: Id)
    requires Based(PrereqGraph(reqs, stories), s) && Started(s, q) && Edge(PrereqGraph(reqs, stories), x, p)
    requires x == q || x !in Stale(reqs, stories, q)
    ensures p != q && p !in Stale(reqs, stories, q)
  {
    var g := PrereqGraph(reqs, stories);
    EdgeReaches(g, x, p);
    if p in Stale(reqs, stories, q) {
      ReachTrans(g, x, p, q);
    }
  }

  /** Tearing down everything that derives from a reopened requirement leaves nothing on a stale base. */
  lemma ReopenKeeps(reqs: seq<Requirement>, stories: seq<Story>, s: State, s': State, q: Id)
    requires Based(PrereqGraph(reqs, stories), s) && Reopen(reqs, stories, s, s', q)
    ensures Based(PrereqGraph(reqs, stories), s')
  {
    var g := PrereqGraph(reqs, stories);
    assert forall x :: Started(s', x) ==> Started(s, x);
    forall x, p | Started(s', x) && Edge(g, x, p) ensures p in s'.completed {
      StaysClear(reqs, stories, s, q, x, p);
      assert p in s.completed;
    }
  }

  lemma StepKeeps(reqs: seq<Requirement>, stories: seq<Story>, s: State, s': State)
    requires UniqueRequirements(reqs) && Based(PrereqGraph(reqs, stories), s) && Step(reqs, stories, s, s')
    ensures Based(PrereqGraph(reqs, stories), s')
  {
    if r :| Start(reqs, stories, s, s', r) {
      StartKeeps(reqs, stories, s, s', r);
    } else if q :| Reopen(reqs, stories, s, s', q) {
      ReopenKeeps(reqs, stories, s, s', q);
    } else if q :| Finish(stories, s, s', q) || Fail(s, s', q) {
      EndKeeps(PrereqGraph(reqs, stories), s, s', q);
    }
  }

  lemma EndKeeps(g: Graph<Id>, s: State, s': State, q: Id)
    requires Based(g, s) && q in s.active && s'.active == s.active - {q}
    requires || (s'.completed == s.completed + {q} && s'.failed == s.failed)
             || (s'.completed == s.completed && s'.failed == s.failed + {q})
    ensures Based(g, s')
  {
    assert forall x :: Started(s', x) <==> Started(s, x);
  }

  lemma {:induction false} RunStaysBased(reqs: seq<Requirement>, stories: seq<Story>, run: seq<State>, k: nat)
    requires UniqueRequirements(reqs) && IsRun(reqs, stories, run) && k < |run|
    ensures Based(PrereqGraph(reqs, stories), run[k])
    decreases k
  {
    if k > 0 {
      var j := k - 1;
      RunStaysBased(reqs, stories, run, j);
      StepKeeps(reqs, stories, run[j], run[k]);
    }
  }

  /**
   With the filters of the code in place of any story-level gate: in every run over
   an accepted derivation, with failures and reopens, two requirements under
   execution never own stories that share a file.
   */
  lemma RequirementsNeverRace(norm: Normalizer, before: seq<Story>, reqs: seq<Requirement>, after: seq<Story>,
                              run: seq<State>, k: nat, i: nat, j: nat)
    requires UniqueIds(before) && CoversPlan(before, reqs) && NamedRequirements(reqs) && UniqueRequirements(reqs)
    requires Schedules(norm, before, reqs, after, Scheduled) && IsRun(reqs, after, run) && k < |run|
    requires i < |after| && j < |after| && i != j && OwnedFiles(norm, after[i]) * OwnedFiles(norm, after[j]) != {}
    requires DeterministicStoryOwner(after[i]) in run[k].active && DeterministicStoryOwner(after[j]) in run[k].active
    ensures DeterministicStoryOwner(after[i]) == DeterministicStoryOwner(after[j])
  {
    var g, a, b := PrereqGraph(reqs, after), DeterministicStoryOwner(after[i]), DeterministicStoryOwner(after[j]);
    SharedWorkOnRelatedBranches(norm, before, reqs, after, i, j);
    RunStaysBased(reqs, after, run, k);
    if Reach(g, a, b) {
      BehindIsCompleted(g, run[k], a, b);
    } else if Reach(g, b, a) {
      BehindIsCompleted(g, run[k], b, a);
    }
  }

  /**
   A reopen makes the requirement active, drops exactly the requirements whose branch
   derives from it, and leaves every other where it was.
   */
  lemma ReopenExact(reqs: seq<Requirement>, stories: seq<Story>, s: State, s': State, q: Id, x: Id)
    requires Reopen(reqs, stories, s, s', q)
    ensures Started(s, q) && q in s'.active && q !in s'.completed && q !in s'.failed
    ensures x != q && Reach(PrereqGraph(reqs, stories), x, q) ==> !Started(s', x)
    ensures x != q && !Reach(PrereqGraph(reqs, stories), x, q) ==>
      && (x in s'.active <==> x in s.active) && (x in s'.completed <==> x in s.completed)
      && (x in s'.failed <==> x in s.failed)
    ensures forall y :: y in stories && DeterministicStoryOwner(y) == q ==> y.id !in s'.shipped
  {
    if Reach(PrereqGraph(reqs, stories), x, q) {
      var z := ReachHead(PrereqGraph(reqs, stories), x, q);
    }
  }

  /** Any execution, complete, failed or waiting, can be reopened. */
  lemma ReopenPossible(reqs: seq<Requirement>, stories: seq<Story>, s: State, q: Id)
    requires UniqueIds(stories) && Started(s, q)
    ensures exists s' :: Reopen(reqs, stories, s, s', q)
  {
    var stale := Stale(reqs, stories, q);
    var kept := set id | id in s.shipped && id !in OwnedStories(stories, q);
    var s' := State(s.active - stale + {q}, s.completed - stale - {q}, s.failed - stale - {q}, kept);
    forall x | x in stories && x.id in s.shipped && DeterministicStoryOwner(x) != q ensures x.id in kept {
      if y :| y in stories && DeterministicStoryOwner(y) == q && y.id == x.id {
        SameStory(stories, x, y);
      }
    }
    assert Reopen(reqs, stories, s, s', q);
  }

  /** A failed requirement stays failed until it, or something its branch derives from, is reopened. */
  lemma FailedUntilReopened(reqs: seq<Requirement>, stories: seq<Story>, s: State, s': State, q: Id)
    requires Step(reqs, stories, s, s') && q in s.failed && q !in s'.failed
    ensures exists p :: Reopen(reqs, stories, s, s', p) && SameOrBehind(PrereqGraph(reqs, stories), q, p)
  {
    var p :| Reopen(reqs, stories, s, s', p);
    assert q == p || q in Stale(reqs, stories, p);
  }

  /** A requirement whose branch derives from itself never starts. */
  lemma CyclicNeverStarts(reqs: seq<Requirement>, stories: seq<Story>, run: seq<State>, k: nat, q: Id)
    requires UniqueRequirements(reqs) && IsRun(reqs, stories, run) && k < |run|
    requires Reach(PrereqGraph(reqs, stories), q, q)
    ensures !Started(run[k], q)
  {
    RunStaysBased(reqs, stories, run, k);
  }
}
