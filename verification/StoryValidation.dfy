/**
 The plan validators. Nothing here refers to the scheduler, so that the
 scheduler's output passing them is a claim about both.
 */
module StoryValidation {
  import opened Graphs
  import opened Ordering
  import opened CycleSearch
  import opened Plan

  datatype Task = Task(id: Id, dependsOn: seq<Id>)

  function TaskNodes(tasks: seq<Task>): (nodes: seq<Node<Id>>)
    ensures |nodes| == |tasks|
    ensures forall i :: 0 <= i < |nodes| ==> nodes[i] == Node(tasks[i].id, tasks[i].dependsOn)
  {
    seq(|tasks|, i requires 0 <= i < |tasks| => Node(tasks[i].id, tasks[i].dependsOn))
  }

  method ValidateStoryDAG(stories: seq<Story>) returns (v: Verdict<DagError<Id>>)
    ensures v.Accepted? <==> IsDag(StoryNodes(stories))
    ensures v.Rejected? ==> Witnesses(StoryNodes(stories), v.error)
  {
    v := ValidateDag(StoryNodes(stories));
  }

  method ValidateTaskDAG(tasks: seq<Task>) returns (v: Verdict<DagError<Id>>)
    ensures v.Accepted? <==> IsDag(TaskNodes(tasks))
    ensures v.Rejected? ==> Witnesses(TaskNodes(tasks), v.error)
  {
    v := ValidateDag(TaskNodes(tasks));
  }

  method ValidateRequirementDAG(reqs: seq<Requirement>) returns (v: Verdict<DagError<Id>>)
    ensures v.Accepted? <==> IsDag(ReqNodes(reqs))
    ensures v.Rejected? ==> Witnesses(ReqNodes(reqs), v.error)
  {
    v := ValidateDag(ReqNodes(reqs));
  }

  datatype OwnershipError = Unsequenced(a: Id, b: Id, shared: seq<Path>)

  /** Stories at i and j share no file, or one transitively depends on the other. */
  ghost predicate PairSequenced(norm: Normalizer, stories: seq<Story>, i: nat, j: nat)
    requires i < |stories| && j < |stories|
  {
    var files := FileTable(norm, stories);
    files[stories[i].id] * files[stories[j].id] == {} || Ordered(StoryGraph(stories), stories[i].id, stories[j].id)
  }

  ghost predicate RowSequenced(norm: Normalizer, stories: seq<Story>, i: nat)
    requires i < |stories|
  {
    RowSequencedTo(norm, stories, i, |stories|)
  }

  ghost predicate RowSequencedTo(norm: Normalizer, stories: seq<Story>, i: nat, n: nat)
    requires i < |stories| && n <= |stories|
  {
    forall j :: i < j < n ==> PairSequenced(norm, stories, i, j)
  }

  ghost predicate RowsSequencedTo(norm: Normalizer, stories: seq<Story>, n: nat)
    requires n <= |stories|
  {
    forall i :: 0 <= i < n ==> RowSequenced(norm, stories, i)
  }

  ghost predicate FilesSequenced(norm: Normalizer, stories: seq<Story>) {
    RowsSequencedTo(norm, stories, |stories|)
  }

  /** The error names two listed stories, the files they share, and no order between them. */
  ghost predicate NamesRace(norm: Normalizer, stories: seq<Story>, e: OwnershipError, i: nat, j: nat)
  {
    && i < j < |stories| && e.a == stories[i].id && e.b == stories[j].id
    && !PairSequenced(norm, stories, i, j)
    && StrictlySorted(e.shared)
    && (forall f :: f in e.shared <==> f in FileTable(norm, stories)[e.a] && f in FileTable(norm, stories)[e.b])
  }

  method CheckPair(norm: Normalizer, stories: seq<Story>, i: nat, j: nat, closure: map<Id, set<Id>>,
                   files: map<Id, set<Path>>) returns (v: Verdict<OwnershipError>)
    requires i < j < |stories| && TablesFor(norm, stories, closure, files)
    ensures v.Accepted? <==> PairSequenced(norm, stories, i, j)
    ensures v.Rejected? ==> NamesRace(norm, stories, v.error, i, j)
  {
    var a, b := stories[i].id, stories[j].id;
    var shared := SharedFiles(files[a], files[b]);
    if shared == [] {
      assert forall f :: f !in files[a] * files[b];
      return Accepted;
    }
    assert shared[0] in files[a] * files[b];
    if b !in closure[a] && a !in closure[b] {
      return Rejected(Unsequenced(a, b, shared));
    }
    return Accepted;
  }

  lemma RowGrows(norm: Normalizer, stories: seq<Story>, i: nat, j: nat, next: nat)
    requires i < j < |stories| && next == j + 1
    requires RowSequencedTo(norm, stories, i, j) && PairSequenced(norm, stories, i, j)
    ensures RowSequencedTo(norm, stories, i, next)
  {
    forall q | i < q < next ensures PairSequenced(norm, stories, i, q) {
      if q != j {
        assert q < j;
      }
    }
  }

  method CheckRow(norm: Normalizer, stories: seq<Story>, i: nat, closure: map<Id, set<Id>>,
                  files: map<Id, set<Path>>) returns (v: Verdict<OwnershipError>, ghost at: nat)
    requires i < |stories| && TablesFor(norm, stories, closure, files)
    ensures v.Accepted? <==> RowSequenced(norm, stories, i)
    ensures v.Rejected? ==> NamesRace(norm, stories, v.error, i, at)
  {
    at := i;
    var j := i + 1;
    while j < |stories|
      invariant i < j <= |stories|
      invariant RowSequencedTo(norm, stories, i, j)
    {
      v := CheckPair(norm, stories, i, j, closure, files);
      if v.Rejected? {
        at := j;
        return;
      }
      var next := j + 1;
      RowGrows(norm, stories, i, j, next);
      j := next;
    }
    v := Accepted;
  }

  method ValidateStoryFileOwnership(norm: Normalizer, stories: seq<Story>) returns (v: Verdict<OwnershipError>)
    ensures v.Accepted? <==> FilesSequenced(norm, stories)
    ensures v.Rejected? ==> exists i: nat, j: nat :: NamesRace(norm, stories, v.error, i, j)
  {
    if |stories| < 2 {
      return Accepted;
    }
    var closure, files := BuildTables(norm, stories);
    var i := 0;
    while i < |stories|
      invariant i <= |stories|
      invariant RowsSequencedTo(norm, stories, i)
    {
      ghost var at;
      v, at := CheckRow(norm, stories, i, closure, files);
      if v.Rejected? {
        assert NamesRace(norm, stories, v.error, i, at);
        return;
      }
      var next := i + 1;
      RowsGrow(norm, stories, i, next);
      i := next;
    }
    return Accepted;
  }

  lemma RowsGrow(norm: Normalizer, stories: seq<Story>, i: nat, next: nat)
    requires i < |stories| && next == i + 1 && RowsSequencedTo(norm, stories, i) && RowSequenced(norm, stories, i)
    ensures RowsSequencedTo(norm, stories, next)
  {
    forall p | 0 <= p < next ensures RowSequenced(norm, stories, p) {
      if p != i {
        assert p < i;
      }
    }
  }
}
