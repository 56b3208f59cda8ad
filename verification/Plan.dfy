/**
 Plan records: stories, the requirements they cover, and the dependency graphs
 both kinds of record carry.
 */
module Plan {
  import opened Graphs
  import opened Tables
  import opened Ordering
  import opened Closure
  import opened CycleSearch

  type Id = string
  type Path = string

  /** Canonicalises a workspace path; the empty string means "drop this path". */
  type Normalizer = Path -> Path

  /** The normaliser of the concrete example plans. */
  function Identity(p: Path): Path { p }

  datatype Story = Story(
    id: Id,
    componentName: string,
    requirementIds: seq<Id>,
    filesOwned: seq<Path>,
    dependsOn: seq<Id>)

  datatype Requirement = Requirement(id: Id, dependsOn: seq<Id>)

  function StoryIds(stories: seq<Story>): (ids: seq<Id>)
    ensures |ids| == |stories| && forall i :: 0 <= i < |ids| ==> ids[i] == stories[i].id
  {
    seq(|stories|, i requires 0 <= i < |stories| => stories[i].id)
  }

  function StoryNodes(stories: seq<Story>): (nodes: seq<Node<Id>>)
    ensures |nodes| == |stories|
    ensures forall i :: 0 <= i < |nodes| ==> nodes[i] == Node(stories[i].id, stories[i].dependsOn)
  {
    seq(|stories|, i requires 0 <= i < |stories| => Node(stories[i].id, stories[i].dependsOn))
  }

  function ReqNodes(reqs: seq<Requirement>): (nodes: seq<Node<Id>>)
    ensures |nodes| == |reqs|
    ensures forall i :: 0 <= i < |nodes| ==> nodes[i] == Node(reqs[i].id, reqs[i].dependsOn)
  {
    seq(|reqs|, i requires 0 <= i < |reqs| => Node(reqs[i].id, reqs[i].dependsOn))
  }

  /** Story ID to the stories it depends on. */
  ghost function StoryGraph(stories: seq<Story>): Graph<Id> {
    EdgesOf(Adjacency(StoryNodes(stories)))
  }

  /** Requirement ID to its direct prerequisites. */
  ghost function ReqGraph(reqs: seq<Requirement>): Graph<Id> {
    EdgesOf(Adjacency(ReqNodes(reqs)))
  }

  ghost predicate UniqueIds(stories: seq<Story>) {
    Distinct(StoryIds(stories))
  }

  /** The paths a story owns after normalisation. */
  function OwnedFiles(norm: Normalizer, s: Story): set<Path> {
    set f | f in s.filesOwned && norm(f) != "" :: norm(f)
  }

  function FileSets(norm: Normalizer, stories: seq<Story>): (files: seq<set<Path>>)
    ensures |files| == |stories| && forall i :: 0 <= i < |files| ==> files[i] == OwnedFiles(norm, stories[i])
  {
    seq(|stories|, i requires 0 <= i < |stories| => OwnedFiles(norm, stories[i]))
  }

  /** Story ID to its normalised files. */
  function FileTable(norm: Normalizer, stories: seq<Story>): (files: map<Id, set<Path>>)
    ensures forall i :: 0 <= i < |stories| ==> stories[i].id in files
  {
    assert forall i :: 0 <= i < |stories| ==> stories[i].id == StoryIds(stories)[i];
    LastWins(StoryIds(stories), FileSets(norm, stories))
  }

  lemma StoryEdge(stories: seq<Story>, i: nat, y: Id)
    requires UniqueIds(stories) && i < |stories|
    ensures Edge(StoryGraph(stories), stories[i].id, y) <==> y in stories[i].dependsOn
  {
    var nodes := StoryNodes(stories);
    assert NodeIds(nodes) == StoryIds(stories);
    DistinctAt(NodeIds(nodes), NodeDeps(nodes), i);
  }

  /** Every edge of the story graph leaves a listed story. */
  lemma StoryEdgeSource(stories: seq<Story>, x: Id, y: Id) returns (i: nat)
    requires UniqueIds(stories) && Edge(StoryGraph(stories), x, y)
    ensures i < |stories| && stories[i].id == x && y in stories[i].dependsOn
  {
    var nodes := StoryNodes(stories);
    assert x in NodeIds(nodes);
    i :| 0 <= i < |nodes| && NodeIds(nodes)[i] == x;
    StoryEdge(stories, i, y);
  }

  lemma SameStory(stories: seq<Story>, x: Story, y: Story)
    requires UniqueIds(stories) && x in stories && y in stories && x.id == y.id
    ensures x == y
  {
    var i :| 0 <= i < |stories| && stories[i] == x;
    var j :| 0 <= j < |stories| && stories[j] == y;
    assert StoryIds(stories)[i] == StoryIds(stories)[j];
  }

  lemma FilesAt(norm: Normalizer, stories: seq<Story>, i: nat)
    requires UniqueIds(stories) && i < |stories|
    ensures FileTable(norm, stories)[stories[i].id] == OwnedFiles(norm, stories[i])
  {
    DistinctAt(StoryIds(stories), FileSets(norm, stories), i);
  }

  // ----- closure and file tables, computed once for all pairs of stories

  /** The sorted intersection of two file sets, found by scanning the smaller. */
  method SharedFiles(a: set<Path>, b: set<Path>) returns (out: seq<Path>)
    ensures StrictlySorted(out)
    ensures forall f :: f in out <==> f in a * b
  {
    if a == {} || b == {} {
      return [];
    }
    var small, large := a, b;
    if |b| < |a| {
      small, large := b, a;
    }
    out := SortedKeys(set f | f in small && f in large);
  }

  /** What the precomputed tables tell: every story's closure and normalised files. */
  ghost predicate TablesFor(norm: Normalizer, stories: seq<Story>, closure: map<Id, set<Id>>,
                            files: map<Id, set<Path>>) {
    && files == FileTable(norm, stories)
    && (forall k :: 0 <= k < |stories| ==> stories[k].id in closure)
    && (forall id, y :: id in closure ==> (y in closure[id] <==> Reach(StoryGraph(stories), id, y)))
  }

  method BuildTables(norm: Normalizer, stories: seq<Story>)
    returns (closure: map<Id, set<Id>>, files: map<Id, set<Path>>)
    ensures TablesFor(norm, stories, closure, files)
  {
    var ids := StoryIds(stories);
    var nodes := StoryNodes(stories);
    var adj := Tabulate(NodeIds(nodes), NodeDeps(nodes));
    closure := BuildClosure(ids, adj);
    files := Tabulate(ids, FileSets(norm, stories));
    assert forall k :: 0 <= k < |stories| ==> stories[k].id == ids[k];
  }
}
