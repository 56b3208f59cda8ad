/**
 What a scheduling run does, told from the fields of the stories alone: which paths
 two stories share, which requirements they cover, which component they anchor.
 None of the statements here speaks of the predicates that the passes are specified
 with, so that those are compared with something.
 */
module SchedulingOutcomes {
  import opened Graphs
  import opened Ordering
  import opened Plan
  import opened Scheduling
  import opened SchedulingTheorems

  // ----- Pass 1

  /** `s` covers a requirement that needs, directly or not, one that `c` covers and `s` does not. */
  ghost predicate NeedsWorkOf(reqs: seq<Requirement>, s: Story, c: Story) {
    exists r, p ::
      r in s.requirementIds && Reach(ReqGraph(reqs), r, p) && p in c.requirementIds && p !in s.requirementIds
  }

  ghost predicate NeedsListed(reqs: seq<Requirement>, stories: seq<Story>, k: nat, y: Id) {
    exists m: nat :: m < |stories| && k < |stories| && m != k && stories[m].id == y &&
      NeedsWorkOf(reqs, stories[k], stories[m])
  }

  lemma SemanticEdgesExact(stories: seq<Story>, reqs: seq<Requirement>, k: nat, y: Id)
    requires UniqueIds(stories) && k < |stories|
    ensures y in SemanticEdges(stories[k], stories, reqs) <==> NeedsListed(reqs, stories, k, y)
  {
    if y in SemanticEdges(stories[k], stories, reqs) {
      var c :| c in stories && WaitsFor(stories[k], c, reqs) && c.id == y;
      var m: nat :| m < |stories| && stories[m] == c;
      assert NeedsWorkOf(reqs, stories[k], stories[m]);
    }
    if m: nat :| m < |stories| && m != k && stories[m].id == y && NeedsWorkOf(reqs, stories[k], stories[m]) {
      if stories[m].id == stories[k].id {
        SameIdSameStory(stories, m, k);
      }
      assert stories[m] in stories && WaitsFor(stories[k], stories[m], reqs);
    }
  }

  /** The graph that Pass 2 starts from: authored dependencies, and stories whose work is needed. */
  lemma PassOneGraphExact(stories: seq<Story>, reqs: seq<Requirement>, k: nat, y: Id)
    requires UniqueIds(stories) && k < |stories|
    ensures Edge(SemanticGraph(stories, reqs), stories[k].id, y) <==>
      y in stories[k].dependsOn || NeedsListed(reqs, stories, k, y)
  {
    SemanticEdgeAt(stories, reqs, k, y);
    SemanticEdgesExact(stories, reqs, k, y);
  }

  // ----- shared paths

  /** Two stories own paths that mean the same file; paths normalised to nothing mean none. */
  ghost predicate SharePath(norm: Normalizer, s: Story, t: Story) {
    exists f, g :: f in s.filesOwned && g in t.filesOwned && norm(f) == norm(g) && norm(f) != ""
  }

  lemma SharePathExact(norm: Normalizer, s: Story, t: Story)
    ensures SharePath(norm, s, t) <==> OwnedFiles(norm, s) * OwnedFiles(norm, t) != {}
  {
    if f, g :| f in s.filesOwned && g in t.filesOwned && norm(f) == norm(g) && norm(f) != "" {
      assert norm(f) in OwnedFiles(norm, s) * OwnedFiles(norm, t);
    }
    if x :| x in OwnedFiles(norm, s) * OwnedFiles(norm, t) {
      var f :| f in s.filesOwned && norm(f) != "" && norm(f) == x;
      var g :| g in t.filesOwned && norm(g) != "" && norm(g) == x;
    }
  }

  /** The two share a path and Pass 1 left them unordered. */
  ghost predicate Unordered(norm: Normalizer, stories: seq<Story>, reqs: seq<Requirement>, i: nat, j: nat) {
    && i < |stories| && j < |stories| && i != j && SharePath(norm, stories[i], stories[j])
    && !Reach(SemanticGraph(stories, reqs), stories[i].id, stories[j].id)
    && !Reach(SemanticGraph(stories, reqs), stories[j].id, stories[i].id)
  }

  lemma ContendExact(norm: Normalizer, stories: seq<Story>, reqs: seq<Requirement>, i: nat, j: nat)
    requires UniqueIds(stories)
    ensures Contend(stories, SemanticGraph(stories, reqs), FileTable(norm, stories), i, j) <==>
      Unordered(norm, stories, reqs, i, j)
  {
    if i < |stories| && j < |stories| {
      FilesAt(norm, stories, i);
      FilesAt(norm, stories, j);
      SharePathExact(norm, stories[i], stories[j]);
    }
  }

  // ----- the final dependencies

  /** The story at `k` is serialised behind a story with the smaller ID `y`. */
  ghost predicate FollowsSharer(norm: Normalizer, stories: seq<Story>, reqs: seq<Requirement>, k: nat, y: Id) {
    exists m: nat :: Unordered(norm, stories, reqs, k, m) && stories[m].id == y && Less(y, stories[k].id)
  }

  lemma ResourceEdgesExact(norm: Normalizer, stories: seq<Story>, reqs: seq<Requirement>, k: nat, y: Id)
    requires UniqueIds(stories) && k < |stories|
    ensures FollowsSharer(norm, stories, reqs, k, y) <==>
      y in ResourceEdges(stories, SemanticGraph(stories, reqs), FileTable(norm, stories), k, |stories|, 0)
  {
    var g, files := SemanticGraph(stories, reqs), FileTable(norm, stories);
    if m: nat :| Unordered(norm, stories, reqs, k, m) && stories[m].id == y && Less(y, stories[k].id) {
      ContendExact(norm, stories, reqs, k, m);
      assert Serialized(stories, g, files, k, m) && VisitedBefore(|stories|, 0, k, m);
    }
    if y in ResourceEdges(stories, g, files, k, |stories|, 0) {
      var lo: nat :| lo < |stories| && Serialized(stories, g, files, k, lo) && stories[lo].id == y;
      ContendExact(norm, stories, reqs, k, lo);
      if stories[lo].id == stories[k].id {
        SameIdSameStory(stories, lo, k);
      }
      assert Unordered(norm, stories, reqs, k, lo);
    }
  }

  /**
   Unless the run stops at a conflict, a story depends afterwards on what it depended
   on before, on every story whose work it needs, and on every story with a smaller
   ID that shares a path with it and was not ordered by Pass 1; and on nothing else.
   */
  lemma DependenciesExact(norm: Normalizer, before: seq<Story>, reqs: seq<Requirement>, after: seq<Story>, o: Outcome,
                          k: nat, y: Id)
    requires UniqueIds(before) && Completes(norm, before, reqs, after, o) && k < |before|
    ensures |after| == |before| && after[k].id == before[k].id
    ensures y in after[k].dependsOn <==> (
      || y in before[k].dependsOn
      || NeedsListed(reqs, before, k, y)
      || FollowsSharer(norm, before, reqs, k, y))
  {
    FinalEdge(norm, before, reqs, after, o, k, y);
    SemanticEdgesExact(before, reqs, k, y);
    ResourceEdgesExact(norm, before, reqs, k, y);
  }

  // ----- same-component conflicts

  /** Two stories of one component share a path and Pass 1 left them unordered. */
  ghost predicate SameComponentSharers(norm: Normalizer, stories: seq<Story>, reqs: seq<Requirement>, i: nat, j: nat) {
    Unordered(norm, stories, reqs, i, j) && stories[i].componentName == stories[j].componentName
  }

  lemma ConflictPairExact(norm: Normalizer, stories: seq<Story>, reqs: seq<Requirement>, i: nat, j: nat)
    requires UniqueIds(stories)
    ensures Conflict(stories, SemanticGraph(stories, reqs), FileTable(norm, stories), i, j) <==>
      i < j && SameComponentSharers(norm, stories, reqs, i, j)
  {
    ContendExact(norm, stories, reqs, i, j);
  }

  /**
   The run ends in a conflict if and only if two stories of one component share a
   path and neither waits for the other after Pass 1.
   */
  lemma ConflictExact(norm: Normalizer, before: seq<Story>, reqs: seq<Requirement>, after: seq<Story>, o: Outcome)
    requires UniqueIds(before) && Schedules(norm, before, reqs, after, o)
    ensures o.SameComponentConflict? <==> exists i: nat, j: nat :: SameComponentSharers(norm, before, reqs, i, j)
  {
    if o.SameComponentConflict? {
      var i: nat, j: nat :| ReportsConflict(norm, before, reqs, after, o, i, j);
      ConflictPairExact(norm, before, reqs, i, j);
    } else if i: nat, j: nat :| SameComponentSharers(norm, before, reqs, i, j) {
      ConflictPairExact(norm, before, reqs, i, j);
      ConflictPairExact(norm, before, reqs, j, i);
    }
  }

  /** So after nil, stories of one component that share a path were ordered by Pass 1 already. */
  lemma ComponentSharersOrdered(norm: Normalizer, before: seq<Story>, reqs: seq<Requirement>, after: seq<Story>,
                                i: nat, j: nat)
    requires UniqueIds(before) && Schedules(norm, before, reqs, after, Scheduled)
    requires i < |before| && j < |before| && i != j && before[i].componentName == before[j].componentName
    requires SharePath(norm, before[i], before[j])
    ensures Ordered(SemanticGraph(before, reqs), before[i].id, before[j].id)
  {
    ConflictExact(norm, before, reqs, after, Scheduled);
    assert !SameComponentSharers(norm, before, reqs, i, j);
  }

  /** The pair (p, q) comes before (i, j) when every story is compared with every later one. */
  ghost predicate Earlier(p: nat, q: nat, i: nat, j: nat) {
    p < i || (p == i && q < j)
  }

  lemma EarlierVisited(i: nat, j: nat, p: nat, q: nat)
    ensures VisitedBefore(i, j, p, q) <==> if p < q then Earlier(p, q, i, j) else Earlier(q, p, i, j)
  {
  }

  lemma NoneEarlier(norm: Normalizer, stories: seq<Story>, reqs: seq<Requirement>, i: nat, j: nat, p: nat, q: nat)
    requires UniqueIds(stories) && p < q && Earlier(p, q, i, j)
    requires var g, files := SemanticGraph(stories, reqs), FileTable(norm, stories);
      Conflict(stories, g, files, p, q) ==> !VisitedBefore(i, j, p, q)
    ensures !SameComponentSharers(norm, stories, reqs, p, q)
  {
    EarlierVisited(i, j, p, q);
    ConflictPairExact(norm, stories, reqs, p, q);
  }

  lemma FirstConflictExact(norm: Normalizer, stories: seq<Story>, reqs: seq<Requirement>, i: nat, j: nat)
    requires UniqueIds(stories)
    requires FirstConflict(stories, SemanticGraph(stories, reqs), FileTable(norm, stories), i, j)
    ensures IsFirst(norm, stories, reqs, i, j)
  {
    ConflictPairExact(norm, stories, reqs, i, j);
    forall p: nat, q: nat | p < q && Earlier(p, q, i, j) ensures !SameComponentSharers(norm, stories, reqs, p, q) {
      NoneEarlier(norm, stories, reqs, i, j, p, q);
    }
  }

  /** No earlier pair is a conflict. */
  ghost predicate IsFirst(norm: Normalizer, stories: seq<Story>, reqs: seq<Requirement>, i: nat, j: nat) {
    && i < j && SameComponentSharers(norm, stories, reqs, i, j)
    && forall p: nat, q: nat :: p < q && Earlier(p, q, i, j) ==> !SameComponentSharers(norm, stories, reqs, p, q)
  }

  /**
   The error names the first such pair in slice order, the component both anchor, and
   exactly the files that both own, sorted.
   */
  lemma ConflictNamesFirst(norm: Normalizer, before: seq<Story>, reqs: seq<Requirement>, after: seq<Story>, o: Outcome)
    returns (i: nat, j: nat)
    requires UniqueIds(before) && Schedules(norm, before, reqs, after, o) && o.SameComponentConflict?
    ensures IsFirst(norm, before, reqs, i, j)
    ensures o.a == before[i].id && o.b == before[j].id && o.component == before[i].componentName
    ensures StrictlySorted(o.shared)
    ensures forall f :: f in o.shared <==> f in OwnedFiles(norm, before[i]) * OwnedFiles(norm, before[j])
  {
    var a: nat, b: nat :| ReportsConflict(norm, before, reqs, after, o, a, b);
    i, j := a, b;
    FirstConflictExact(norm, before, reqs, i, j);
    FilesAt(norm, before, i);
    FilesAt(norm, before, j);
  }

  /** The story at `k` is serialised behind the story at `m` by a pair before (i, j). */
  ghost predicate FollowsBefore(norm: Normalizer, stories: seq<Story>, reqs: seq<Requirement>, i: nat, j: nat, k: nat,
                                m: nat) {
    && Unordered(norm, stories, reqs, k, m) && Less(stories[m].id, stories[k].id)
    && (if k < m then Earlier(k, m, i, j) else Earlier(m, k, i, j))
  }

  /** One pair: serialised in the passes' terms, before (i, j), is following in these. */
  lemma SerializedExact(norm: Normalizer, stories: seq<Story>, reqs: seq<Requirement>, i: nat, j: nat, k: nat, m: nat)
    requires UniqueIds(stories)
    ensures FollowsBefore(norm, stories, reqs, i, j, k, m) <==>
      && Serialized(stories, SemanticGraph(stories, reqs), FileTable(norm, stories), k, m)
      && VisitedBefore(i, j, k, m)
  {
    EarlierVisited(i, j, k, m);
    ContendExact(norm, stories, reqs, k, m);
    if k < |stories| && m < |stories| && stories[m].id == stories[k].id {
      SameIdSameStory(stories, m, k);
    }
  }

  lemma EdgesBeforeExact(norm: Normalizer, stories: seq<Story>, reqs: seq<Requirement>, i: nat, j: nat, k: nat, y: Id)
    requires UniqueIds(stories) && k < |stories|
    ensures y in ResourceEdges(stories, SemanticGraph(stories, reqs), FileTable(norm, stories), k, i, j) <==>
      exists m: nat :: FollowsBefore(norm, stories, reqs, i, j, k, m) && stories[m].id == y
  {
    var g, files := SemanticGraph(stories, reqs), FileTable(norm, stories);
    if m: nat :| FollowsBefore(norm, stories, reqs, i, j, k, m) && stories[m].id == y {
      SerializedExact(norm, stories, reqs, i, j, k, m);
    } else if y in ResourceEdges(stories, g, files, k, i, j) {
      var m: nat :| m < |stories| && Serialized(stories, g, files, k, m) && VisitedBefore(i, j, k, m) &&
        stories[m].id == y;
      SerializedExact(norm, stories, reqs, i, j, k, m);
    }
  }

  /** A run that stops at the pair it names has added needed work and the smaller sharers of earlier pairs. */
  lemma ConflictDependencies(norm: Normalizer, before: seq<Story>, reqs: seq<Requirement>, after: seq<Story>,
                             o: Outcome, k: nat, y: Id) returns (i: nat, j: nat)
    requires UniqueIds(before) && Schedules(norm, before, reqs, after, o) && o.SameComponentConflict? && k < |before|
    ensures i < |before| && j < |before| && o.a == before[i].id && o.b == before[j].id && |after| == |before|
    ensures y in after[k].dependsOn <==> (
      || y in before[k].dependsOn
      || NeedsListed(reqs, before, k, y)
      || exists m: nat :: FollowsBefore(norm, before, reqs, i, j, k, m) && before[m].id == y)
  {
    var a: nat, b: nat :| ReportsConflict(norm, before, reqs, after, o, a, b);
    i, j := a, b;
    AddedAt(norm, before, reqs, after, i, j, k, y);
    SemanticEdgesExact(before, reqs, k, y);
    EdgesBeforeExact(norm, before, reqs, i, j, k, y);
  }

  lemma AddedAt(norm: Normalizer, before: seq<Story>, reqs: seq<Requirement>, after: seq<Story>, i: nat, j: nat, k: nat,
                y: Id)
    requires EdgesAdded(norm, before, reqs, after, i, j) && k < |before|
    ensures |after| == |before|
    ensures y in after[k].dependsOn <==> (
      || y in before[k].dependsOn
      || y in SemanticEdges(before[k], before, reqs)
      || y in ResourceEdges(before, SemanticGraph(before, reqs), FileTable(norm, before), k, i, j))
  {
  }
}
