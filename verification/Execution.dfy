/**
 Story execution as a transition system: the status machine, the dispatch gate
 (every dependency complete) and the reopen gate (no direct dependent executing
 or complete). Safety and progress are stated over every run.
 */
module Execution {
  import opened Graphs
  import opened Tables
  import opened CycleSearch
  import opened Plan
  import opened Scheduling
  import opened SchedulingTheorems
  import opened StoryValidation

  datatype StoryStatus = Pending | Ready | Executing | Complete | Failed {

    predicate CanTransitionTo(target: StoryStatus) {
      match this
      case Pending => target == Ready || target == Failed
      case Ready => target == Executing || target == Failed
      case Executing => target == Complete || target == Failed
      case Complete => target == Ready
      case Failed => target == Pending
    }
  }

  /** The status of every story of a plan. */
  type Board = map<Id, StoryStatus>

  ghost predicate IsComplete(b: Board, id: Id) {
    id in b && b[id] == Complete
  }

  /** Dispatch needs every dependency complete; an unknown one never is. */
  ghost predicate DepsComplete(g: Graph<Id>, b: Board, id: Id) {
    forall d :: Edge(g, id, d) ==> IsComplete(b, d)
  }

  /** No story that depends directly on `id` is executing or complete. */
  ghost predicate NoActiveDependent(g: Graph<Id>, b: Board, id: Id) {
    forall x :: x in b && Edge(g, x, id) ==> b[x] != Executing && b[x] != Complete
  }

  /** A status change the status machine and the dispatch gate allow. */
  ghost predicate Moves(g: Graph<Id>, b: Board, b': Board, id: Id, target: StoryStatus) {
    && id in b && b[id].CanTransitionTo(target) && b' == b[id := target]
    && (target == Executing ==> DepsComplete(g, b, id))
  }

  /** Dispatch waits for the dependencies; nothing else that the status machine allows waits for anything. */
  lemma MoveExact(g: Graph<Id>, b: Board, id: Id, target: StoryStatus)
    ensures (exists b' :: Moves(g, b, b', id, target)) <==> (
      && id in b && b[id].CanTransitionTo(target)
      && (target.Executing? ==> forall d :: Edge(g, id, d) ==> d in b && b[d].Complete?))
  {
    if id in b && b[id].CanTransitionTo(target) {
      assert Moves(g, b, b[id := target], id, target) <==> (target == Executing ==> DepsComplete(g, b, id));
    }
  }

  /** A move under the reopen gate as well. */
  ghost predicate Step(g: Graph<Id>, b: Board, b': Board) {
    exists id, target :: Moves(g, b, b', id, target) && (b[id] == Complete ==> NoActiveDependent(g, b, id))
  }

  /** Every story listed, all ready. */
  ghost predicate AllReady(stories: seq<Story>, b: Board) {
    b.Keys == Members(StoryIds(stories)) && forall x :: x in b ==> b[x] == Ready
  }

  ghost predicate IsRun(g: Graph<Id>, run: seq<Board>) {
    |run| > 0 && forall i, j :: 0 <= i && i + 1 == j < |run| ==> Step(g, run[i], run[j])
  }

  // ----- safety

  /** Whatever is executing or complete stands on complete dependencies. */
  ghost predicate Grounded(g: Graph<Id>, b: Board) {
    forall x :: x in b && (b[x] == Executing || b[x] == Complete) ==> DepsComplete(g, b, x)
  }

  lemma StepKeepsGrounded(g: Graph<Id>, b: Board, b': Board)
    requires Grounded(g, b) && Step(g, b, b')
    ensures Grounded(g, b') && b'.Keys == b.Keys
  {
    var id, target :| Moves(g, b, b', id, target) && (b[id] == Complete ==> NoActiveDependent(g, b, id));
    forall x | x in b' && (b'[x] == Executing || b'[x] == Complete) ensures DepsComplete(g, b', x) {
      forall d | Edge(g, x, d) ensures IsComplete(b', d) {
        if x == id {
          assert DepsComplete(g, b, id);
          assert IsComplete(b, d);
        } else {
          assert DepsComplete(g, b, x);
          assert IsComplete(b, d);
        }
      }
    }
  }

  /** Everything behind an executing or complete story is complete. */
  lemma {:induction false} GroundedFar(g: Graph<Id>, b: Board, n: nat, x: Id, y: Id)
    requires Grounded(g, b) && x in b && (b[x] == Executing || b[x] == Complete)
    requires n > 0 && ReachIn(g, n, x, y)
    ensures IsComplete(b, y)
    decreases n
  {
    var rest := n - 1;
    var z :| Edge(g, x, z) && ReachIn(g, rest, z, y);
    assert DepsComplete(g, b, x) && IsComplete(b, z);
    if rest > 0 {
      GroundedFar(g, b, rest, z, y);
    }
  }

  /** Two stories sharing a file are executing at once. */
  ghost predicate Races(norm: Normalizer, stories: seq<Story>, b: Board, i: nat, j: nat) {
    && i < j < |stories| && stories[i].id in b && stories[j].id in b
    && b[stories[i].id] == Executing && b[stories[j].id] == Executing
    && OwnedFiles(norm, stories[i]) * OwnedFiles(norm, stories[j]) != {}
  }

  ghost predicate RaceFree(norm: Normalizer, stories: seq<Story>, b: Board) {
    forall i: nat, j: nat :: !Races(norm, stories, b, i, j)
  }

  lemma GroundedNeverRaces(norm: Normalizer, stories: seq<Story>, b: Board)
    requires UniqueIds(stories) && FilesSequenced(norm, stories) && Grounded(StoryGraph(stories), b)
    ensures RaceFree(norm, stories, b)
  {
    var g := StoryGraph(stories);
    forall i: nat, j: nat ensures !Races(norm, stories, b, i, j) {
      if Races(norm, stories, b, i, j) {
        FilesAt(norm, stories, i);
        FilesAt(norm, stories, j);
        assert RowSequenced(norm, stories, i);
        assert PairSequenced(norm, stories, i, j);
        var x, y := stories[i].id, stories[j].id;
        if Reach(g, x, y) {
          var n: nat :| n > 0 && ReachIn(g, n, x, y);
          GroundedFar(g, b, n, x, y);
        } else {
          var n: nat :| n > 0 && ReachIn(g, n, y, x);
          GroundedFar(g, b, n, y, x);
        }
      }
    }
  }

  lemma {:induction false} RunStaysGrounded(g: Graph<Id>, run: seq<Board>, k: nat)
    requires IsRun(g, run) && Grounded(g, run[0]) && k < |run|
    ensures Grounded(g, run[k]) && run[k].Keys == run[0].Keys
    decreases k
  {
    if k > 0 {
      RunStaysGrounded(g, run, k - 1);
      StepKeepsGrounded(g, run[k - 1], run[k]);
    }
  }

  /** No state of any run over sequenced stories has a race, with failures, retries and reopens. */
  lemma RunsNeverRace(norm: Normalizer, stories: seq<Story>, run: seq<Board>, k: nat)
    requires UniqueIds(stories) && FilesSequenced(norm, stories)
    requires IsRun(StoryGraph(stories), run) && AllReady(stories, run[0]) && k < |run|
    ensures RaceFree(norm, stories, run[k])
  {
    RunStaysGrounded(StoryGraph(stories), run, k);
    GroundedNeverRaces(norm, stories, run[k]);
  }

  /** Whatever the derivation accepts executes without races. */
  lemma ScheduledNeverRaces(norm: Normalizer, before: seq<Story>, reqs: seq<Requirement>, after: seq<Story>,
                            run: seq<Board>, k: nat)
    requires UniqueIds(before) && Schedules(norm, before, reqs, after, Scheduled)
    requires IsRun(StoryGraph(after), run) && AllReady(after, run[0]) && k < |run|
    ensures RaceFree(norm, after, run[k])
  {
    OwnershipAccepted(norm, before, reqs, after, Scheduled);
    IdsKept(before, after);
    RunsNeverRace(norm, after, run, k);
  }

  /** The reopen gate is exact: reopening keeps the invariant if and only if it is respected. */
  lemma ReopenGateExact(g: Graph<Id>, b: Board, id: Id)
    requires Grounded(g, b) && IsComplete(b, id)
    ensures Grounded(g, b[id := Ready]) <==>
      forall x :: x != id && x in b && Edge(g, x, id) ==> b[x] != Executing && b[x] != Complete
  {
    var b' := b[id := Ready];
    if forall x :: x != id && x in b && Edge(g, x, id) ==> b[x] != Executing && b[x] != Complete {
      forall x | x in b' && (b'[x] == Executing || b'[x] == Complete) ensures DepsComplete(g, b', x) {
        assert DepsComplete(g, b, x);
        forall d | Edge(g, x, d) ensures IsComplete(b', d) {
          assert IsComplete(b, d);
        }
      }
    } else {
      var x :| x != id && x in b && Edge(g, x, id) && (b[x] == Executing || b[x] == Complete);
      assert !IsComplete(b', id);
      assert !DepsComplete(g, b', x);
    }
  }

  // ----- walking a story back to ready

  /** The statuses to claim, in order, to make a story dispatchable again. */
  function WalkToReady(from: StoryStatus): seq<StoryStatus> {
    match from
    case Ready => []
    case Pending => [Ready]
    case Complete => [Ready]
    case Failed => [Pending, Ready]
    case Executing => [Failed, Pending, Ready]
  }

  /** Every step is one the status machine allows. */
  predicate Lawful(from: StoryStatus, walk: seq<StoryStatus>)
    decreases |walk|
  {
    walk == [] || (from.CanTransitionTo(walk[0]) && Lawful(walk[0], walk[1..]))
  }

  function LastOf(from: StoryStatus, walk: seq<StoryStatus>): StoryStatus {
    if walk == [] then from else walk[|walk| - 1]
  }

  lemma WalkIsLawful(from: StoryStatus)
    ensures Lawful(from, WalkToReady(from)) && LastOf(from, WalkToReady(from)) == Ready
  {
    var walk := WalkToReady(from);
    if |walk| > 1 {
      assert Lawful(Pending, [Ready]) && Lawful(Failed, [Pending, Ready]);
      assert walk[1..] == WalkToReady(walk[0]);
    }
  }

  /** No lawful walk to ready takes fewer transitions, except through completion while executing. */
  lemma {:induction false} WalkIsShortest(from: StoryStatus, walk: seq<StoryStatus>)
    requires Lawful(from, walk) && LastOf(from, walk) == Ready
    ensures |WalkToReady(from)| <= |walk| || (from == Executing && walk == [Complete, Ready])
    decreases |walk|
  {
    if walk != [] {
      assert LastOf(walk[0], walk[1..]) == Ready;
      WalkIsShortest(walk[0], walk[1..]);
      if from == Executing && walk[0] == Complete && |walk| == 2 {
        assert walk == [walk[0], walk[1]];
      }
    }
  }

  /** The walk never reports work as done, nor starts any: it passes neither complete nor executing. */
  lemma WalkClaimsNothing(from: StoryStatus)
    ensures Complete !in WalkToReady(from) && Executing !in WalkToReady(from)
  {
  }

  /** Among the lawful walks that do not report the work as done, no other is as short. */
  lemma {:induction false} WalkIsUnique(from: StoryStatus, walk: seq<StoryStatus>)
    requires Lawful(from, walk) && LastOf(from, walk) == Ready && Complete !in walk
    ensures |WalkToReady(from)| <= |walk| && (|WalkToReady(from)| == |walk| ==> walk == WalkToReady(from))
    decreases |walk|
  {
    if walk != [] {
      var rest := walk[1..];
      assert LastOf(walk[0], rest) == Ready && walk == [walk[0]] + rest;
      WalkIsUnique(walk[0], rest);
    }
  }

  /** The status machine from the other side: what may become each status. */
  lemma EnteredFrom(s: StoryStatus)
    ensures s.CanTransitionTo(Executing) <==> s == Ready
    ensures s.CanTransitionTo(Complete) <==> s == Executing
    ensures s.CanTransitionTo(Ready) <==> s == Pending || s == Complete
    ensures s.CanTransitionTo(Pending) <==> s == Failed
    ensures s.CanTransitionTo(Failed) <==> s == Pending || s == Ready || s == Executing
  {
  }

  // ----- progress

  ghost function WithStatus(b: Board, s: StoryStatus): set<Id> {
    set x | x in b && b[x] == s
  }

  /** A failure-free, reopen-free step: dispatch or completion. */
  ghost predicate Advances(g: Graph<Id>, b: Board, b': Board) {
    exists id :: Moves(g, b, b', id, Executing) || Moves(g, b, b', id, Complete)
  }

  ghost predicate CanAdvance(g: Graph<Id>, b: Board) {
    exists b' :: Advances(g, b, b')
  }

  ghost predicate IsForwardRun(g: Graph<Id>, run: seq<Board>) {
    |run| > 0 && forall i, j :: 0 <= i && i + 1 == j < |run| ==> Advances(g, run[i], run[j])
  }

  /** Steps still to take: two per ready story, one per executing story. */
  ghost function StepsLeft(b: Board): nat {
    2 * |WithStatus(b, Ready)| + |WithStatus(b, Executing)|
  }

  ghost predicate UnderWay(b: Board) {
    forall x :: x in b ==> b[x] == Ready || b[x] == Executing || b[x] == Complete
  }

  lemma DispatchTakesOne(g: Graph<Id>, b: Board, b': Board, id: Id)
    requires Moves(g, b, b', id, Executing)
    ensures StepsLeft(b') == StepsLeft(b) - 1
  {
    assert id in WithStatus(b, Ready) && id !in WithStatus(b, Executing);
    assert WithStatus(b', Ready) == WithStatus(b, Ready) - {id};
    assert WithStatus(b', Executing) == WithStatus(b, Executing) + {id};
  }

  lemma CompletionTakesOne(g: Graph<Id>, b: Board, b': Board, id: Id)
    requires Moves(g, b, b', id, Complete)
    ensures StepsLeft(b') == StepsLeft(b) - 1
  {
    assert id in WithStatus(b, Executing);
    assert WithStatus(b', Ready) == WithStatus(b, Ready);
    assert WithStatus(b', Executing) == WithStatus(b, Executing) - {id};
  }

  lemma AdvanceTakesOne(g: Graph<Id>, b: Board, b': Board)
    requires UnderWay(b) && Advances(g, b, b')
    ensures UnderWay(b') && b'.Keys == b.Keys && StepsLeft(b') == StepsLeft(b) - 1
  {
    var id :| Moves(g, b, b', id, Executing) || Moves(g, b, b', id, Complete);
    if Moves(g, b, b', id, Executing) {
      DispatchTakesOne(g, b, b', id);
    } else {
      CompletionTakesOne(g, b, b', id);
    }
  }

  /** Every dependency of a listed story is listed. */
  ghost predicate Closed(g: Graph<Id>, b: Board) {
    forall x, d :: x in b && Edge(g, x, d) ==> d in b
  }

  /** Among ready and complete stories, some ready one has all dependencies complete. */
  lemma ReadyStoryDispatchable(g: Graph<Id>, b: Board) returns (id: Id)
    requires Acyclic(g) && Closed(g, b)
    requires (forall x :: x in b ==> b[x] == Ready || b[x] == Complete) && WithStatus(b, Ready) != {}
    ensures id in b && b[id] == Ready && DepsComplete(g, b, id)
  {
    id := SinkExists(g, WithStatus(b, Ready));
    forall d | Edge(g, id, d) ensures IsComplete(b, d) {
      assert d !in WithStatus(b, Ready);
    }
  }

  lemma UnfinishedCanAdvance(g: Graph<Id>, b: Board)
    requires Acyclic(g) && Closed(g, b) && UnderWay(b)
    ensures CanAdvance(g, b) <==> StepsLeft(b) > 0
    ensures StepsLeft(b) == 0 <==> forall x :: x in b ==> b[x] == Complete
  {
    if id :| id in b && b[id] == Executing {
      assert Moves(g, b, b[id := Complete], id, Complete) && Advances(g, b, b[id := Complete]);
      assert id in WithStatus(b, Executing);
    } else if WithStatus(b, Ready) != {} {
      var id := ReadyStoryDispatchable(g, b);
      assert Moves(g, b, b[id := Executing], id, Executing) && Advances(g, b, b[id := Executing]);
    } else {
      forall x | x in b ensures b[x] == Complete {
        assert x !in WithStatus(b, Ready);
      }
      assert WithStatus(b, Executing) == {};
    }
  }

  lemma {:induction false} StepsTaken(g: Graph<Id>, run: seq<Board>, k: nat)
    requires IsForwardRun(g, run) && UnderWay(run[0]) && k < |run|
    ensures UnderWay(run[k]) && run[k].Keys == run[0].Keys && StepsLeft(run[k]) == StepsLeft(run[0]) - k
    decreases k
  {
    if k > 0 {
      StepsTaken(g, run, k - 1);
      AdvanceTakesOne(g, run[k - 1], run[k]);
    }
  }

  /**
   From all-ready stories of a valid DAG, a failure-free and reopen-free run never
   gets stuck early: after k steps it can advance exactly when k < 2n, and it has
   completed every story exactly when k = 2n.
   */
  lemma FinishesInTwoStepsEach(stories: seq<Story>, run: seq<Board>)
    requires UniqueIds(stories) && IsDag(StoryNodes(stories))
    requires IsForwardRun(StoryGraph(stories), run) && AllReady(stories, run[0])
    ensures var b, steps := run[|run| - 1], |run| - 1;
      && steps <= 2 * |stories|
      && (CanAdvance(StoryGraph(stories), b) <==> steps < 2 * |stories|)
      && ((forall x :: x in b ==> b[x] == Complete) <==> steps == 2 * |stories|)
  {
    var g, steps := StoryGraph(stories), |run| - 1;
    var b := run[steps];
    StepsTaken(g, run, steps);
    assert StepsLeft(run[0]) == 2 * |stories| by {
      DistinctSize(StoryIds(stories));
      assert WithStatus(run[0], Ready) == Members(StoryIds(stories));
      assert WithStatus(run[0], Executing) == {};
    }
    forall x, d | x in b && Edge(g, x, d) ensures d in b {
      DagDepsListed(stories, x, d);
    }
    UnfinishedCanAdvance(g, b);
  }

  lemma DagDepsListed(stories: seq<Story>, x: Id, d: Id)
    requires UniqueIds(stories) && ReferencesResolve(StoryNodes(stories)) && Edge(StoryGraph(stories), x, d)
    ensures d in StoryIds(stories)
  {
    var nodes := StoryNodes(stories);
    var i := StoryEdgeSource(stories, x, d);
    assert ResolvesAt(nodes, i);
    var m :| 0 <= m < |nodes| && nodes[m].id == d;
    assert StoryIds(stories)[m] == d;
  }

  // ----- without the reopen gate

  ghost predicate UngatedStep(g: Graph<Id>, b: Board, b': Board) {
    exists id, target :: Moves(g, b, b', id, target)
  }

  /** A run of moves the status machine and the dispatch gate allow, ignoring the reopen gate. */
  ghost predicate IsUngatedRun(g: Graph<Id>, run: seq<Board>) {
    |run| > 0 && forall i, j :: 0 <= i && i + 1 == j < |run| ==> UngatedStep(g, run[i], run[j])
  }

  lemma ExtendUngated(g: Graph<Id>, run: seq<Board>, b: Board, id: Id, target: StoryStatus) returns (longer: seq<Board>)
    requires IsUngatedRun(g, run) && Moves(g, run[|run| - 1], b, id, target)
    ensures IsUngatedRun(g, longer) && longer[0] == run[0] && longer[|longer| - 1] == b
  {
    longer := run + [b];
    forall i, j | 0 <= i && i + 1 == j < |longer| ensures UngatedStep(g, longer[i], longer[j]) {
      if j < |run| {
        assert UngatedStep(g, run[i], run[j]);
      }
    }
  }

  /** A run that is under way can be taken to completion of every story. */
  lemma {:induction false} RunToCompletion(g: Graph<Id>, run: seq<Board>) returns (full: seq<Board>)
    requires Acyclic(g) && IsUngatedRun(g, run)
    requires var b := run[|run| - 1]; Closed(g, b) && UnderWay(b)
    ensures IsUngatedRun(g, full) && full[0] == run[0]
    ensures full[|full| - 1].Keys == run[|run| - 1].Keys && AllComplete(g, full[|full| - 1])
    decreases StepsLeft(run[|run| - 1])
  {
    var b := run[|run| - 1];
    UnfinishedCanAdvance(g, b);
    full := run;
    if StepsLeft(b) > 0 {
      var b' :| Advances(g, b, b');
      AdvanceTakesOne(g, b, b');
      var id :| Moves(g, b, b', id, Executing) || Moves(g, b, b', id, Complete);
      full := ExtendUngated(g, run, b', id, if Moves(g, b, b', id, Executing) then Executing else Complete);
      full := RunToCompletion(g, full);
    }
  }

  /** A complete story whose dependencies are complete is reopened and dispatched again. */
  lemma RunAgain(g: Graph<Id>, run: seq<Board>, id: Id) returns (longer: seq<Board>)
    requires IsUngatedRun(g, run) && !Edge(g, id, id)
    requires IsComplete(run[|run| - 1], id) && DepsComplete(g, run[|run| - 1], id)
    ensures IsUngatedRun(g, longer) && longer[0] == run[0]
    ensures longer[|longer| - 1] == run[|run| - 1][id := Executing]
  {
    var b := run[|run| - 1];
    var reopened := b[id := Ready];
    longer := ExtendUngated(g, run, reopened, id, Ready);
    forall d | Edge(g, id, d) ensures IsComplete(reopened, d) {
      assert IsComplete(b, d);
    }
    assert reopened[id := Executing] == b[id := Executing];
    longer := ExtendUngated(g, longer, b[id := Executing], id, Executing);
  }

  ghost predicate AllComplete(g: Graph<Id>, b: Board) {
    Closed(g, b) && forall x :: x in b ==> b[x] == Complete
  }

  /** Once everything is complete, two stories of an acyclic plan can be made to execute together. */
  lemma BothRunAgain(g: Graph<Id>, run: seq<Board>, x: Id, y: Id) returns (longer: seq<Board>)
    requires Acyclic(g) && IsUngatedRun(g, run) && x != y && !Edge(g, y, x)
    requires x in run[|run| - 1] && y in run[|run| - 1] && AllComplete(g, run[|run| - 1])
    ensures IsUngatedRun(g, longer) && longer[0] == run[0]
    ensures longer[|longer| - 1] == run[|run| - 1][x := Executing][y := Executing]
  {
    NoSelfEdge(g, x);
    NoSelfEdge(g, y);
    longer := RunAgain(g, run, x);
    longer := RunAgain(g, longer, y);
  }

  lemma NoSelfEdge(g: Graph<Id>, x: Id)
    requires Acyclic(g)
    ensures !Edge(g, x, x)
  {
    if Edge(g, x, x) {
      EdgeReaches(g, x, x);
    }
  }

  /** A run from all-ready stories that ends in a race. */
  ghost predicate RacingRun(norm: Normalizer, stories: seq<Story>, run: seq<Board>, i: nat, j: nat) {
    && IsUngatedRun(StoryGraph(stories), run) && AllReady(stories, run[0])
    && Races(norm, stories, run[|run| - 1], i, j)
  }

  ghost predicate ShareFile(norm: Normalizer, stories: seq<Story>, i: nat, j: nat) {
    i < j < |stories| && OwnedFiles(norm, stories[i]) * OwnedFiles(norm, stories[j]) != {}
  }

  lemma SharersCanRace(norm: Normalizer, stories: seq<Story>, i: nat, j: nat) returns (run: seq<Board>)
    requires UniqueIds(stories) && IsDag(StoryNodes(stories)) && ShareFile(norm, stories, i, j)
    ensures RacingRun(norm, stories, run, i, j)
  {
    var x, y := stories[i].id, stories[j].id;
    assert StoryIds(stories)[i] == x && StoryIds(stories)[j] == y;
    run := CompleteRun(stories);
    run := EitherFirst(StoryGraph(stories), run, x, y);
  }

  /** Every valid DAG has a run that completes all stories. */
  lemma CompleteRun(stories: seq<Story>) returns (run: seq<Board>)
    requires UniqueIds(stories) && IsDag(StoryNodes(stories))
    ensures IsUngatedRun(StoryGraph(stories), run) && AllReady(stories, run[0])
    ensures AllComplete(StoryGraph(stories), run[|run| - 1])
    ensures run[|run| - 1].Keys == Members(StoryIds(stories))
  {
    var g := StoryGraph(stories);
    var start: Board := map id | id in Members(StoryIds(stories)) :: Ready;
    forall v, d | v in start && Edge(g, v, d) ensures d in start {
      DagDepsListed(stories, v, d);
    }
    run := RunToCompletion(g, [start]);
  }

  /** The dependent of the two runs again first. */
  lemma EitherFirst(g: Graph<Id>, run: seq<Board>, x: Id, y: Id) returns (longer: seq<Board>)
    requires Acyclic(g) && IsUngatedRun(g, run) && x != y && AllComplete(g, run[|run| - 1])
    requires x in run[|run| - 1] && y in run[|run| - 1]
    ensures IsUngatedRun(g, longer) && longer[0] == run[0]
    ensures var b := longer[|longer| - 1]; x in b && y in b && b[x] == Executing && b[y] == Executing
  {
    if Edge(g, y, x) {
      if Edge(g, x, y) {
        EdgeReaches(g, y, x);
        EdgeOnCycle(g, x, y);
      }
      longer := BothRunAgain(g, run, y, x);
    } else {
      longer := BothRunAgain(g, run, x, y);
    }
  }

  /**
   The status machine and the dispatch gate alone prevent no race: on every valid
   story DAG, however well its files are sequenced, some run from all-ready stories
   ends in a race exactly when two stories share a file. The dependent is reopened
   and dispatched first, then what it depends on.
   */
  lemma UngatedRacesIffShared(norm: Normalizer, stories: seq<Story>)
    requires UniqueIds(stories) && IsDag(StoryNodes(stories))
    ensures (exists run, i: nat, j: nat :: RacingRun(norm, stories, run, i, j)) <==>
      exists i: nat, j: nat :: ShareFile(norm, stories, i, j)
  {
    if run, i: nat, j: nat :| RacingRun(norm, stories, run, i, j) {
      assert ShareFile(norm, stories, i, j);
    }
    if i: nat, j: nat :| ShareFile(norm, stories, i, j) {
      var run := SharersCanRace(norm, stories, i, j);
    }
  }
}
