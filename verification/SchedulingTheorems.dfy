/**
 What a scheduling run guarantees: its output passes both validators, a second
 run changes nothing, neither map order nor slice order matters, and which
 inputs Pass 3 can and cannot reject.
 */
module SchedulingTheorems {
  import opened Graphs
  import opened Tables
  import opened Ordering
  import opened CycleSearch
  import opened Plan
  import opened Scheduling
  import opened StoryValidation

  /** The edges a story ends with when Pass 2 runs to its end. */
  ghost function FinalEdges(norm: Normalizer, stories: seq<Story>, reqs: seq<Requirement>, k: nat): set<Id>
    requires k < |stories|
  {
    (set d | d in stories[k].dependsOn)
    + SemanticEdges(stories[k], stories, reqs)
    + ResourceEdges(stories, SemanticGraph(stories, reqs), FileTable(norm, stories), k, |stories|, 0)
  }

  /** A run that did not stop at a conflict. */
  ghost predicate Completes(norm: Normalizer, before: seq<Story>, reqs: seq<Requirement>, after: seq<Story>,
                            o: Outcome) {
    Schedules(norm, before, reqs, after, o) && !o.SameComponentConflict?
  }

  lemma IdsKept(before: seq<Story>, after: seq<Story>)
    requires SameButDeps(before, after)
    ensures StoryIds(after) == StoryIds(before) && |after| == |before|
    ensures UniqueIds(before) ==> UniqueIds(after)
  {
  }

  /** The lists spell out `FinalEdges`, whatever order they were filled in. */
  lemma FinalEdge(norm: Normalizer, before: seq<Story>, reqs: seq<Requirement>, after: seq<Story>, o: Outcome, k: nat,
                  y: Id)
    requires UniqueIds(before) && Completes(norm, before, reqs, after, o) && k < |before|
    ensures |after| == |before| && UniqueIds(after) && after[k].id == before[k].id
    ensures y in after[k].dependsOn <==> y in FinalEdges(norm, before, reqs, k)
    ensures Edge(StoryGraph(after), before[k].id, y) <==> y in FinalEdges(norm, before, reqs, k)
  {
    IdsKept(before, after);
    StoryEdge(after, k, y);
  }

  /** Every edge after the run comes from a listed story's final edges. */
  lemma FinalEdgeSource(norm: Normalizer, before: seq<Story>, reqs: seq<Requirement>, after: seq<Story>, o: Outcome,
                        x: Id, y: Id)
    returns (k: nat)
    requires UniqueIds(before) && Completes(norm, before, reqs, after, o) && Edge(StoryGraph(after), x, y)
    ensures k < |before| && before[k].id == x && y in FinalEdges(norm, before, reqs, k)
  {
    IdsKept(before, after);
    k := StoryEdgeSource(after, x, y);
    FinalEdge(norm, before, reqs, after, o, k, y);
  }

  lemma SemanticEdgeAt(stories: seq<Story>, reqs: seq<Requirement>, k: nat, y: Id)
    requires UniqueIds(stories) && k < |stories|
    ensures Edge(SemanticGraph(stories, reqs), stories[k].id, y) <==>
      y in stories[k].dependsOn || y in SemanticEdges(stories[k], stories, reqs)
  {
    DistinctAt(StoryIds(stories), DepSets(stories, reqs), k);
  }

  /** Orders fixed by Pass 1 survive. */
  lemma SemanticGraphSurvives(norm: Normalizer, before: seq<Story>, reqs: seq<Requirement>, after: seq<Story>,
                              o: Outcome)
    requires UniqueIds(before) && Completes(norm, before, reqs, after, o)
    ensures SubGraph(SemanticGraph(before, reqs), StoryGraph(after))
  {
    var g := SemanticGraph(before, reqs);
    forall x, y | Edge(g, x, y) ensures Edge(StoryGraph(after), x, y) {
      var k :| 0 <= k < |before| && StoryIds(before)[k] == x;
      SemanticEdgeAt(before, reqs, k, y);
      FinalEdge(norm, before, reqs, after, o, k, y);
    }
  }

  /** A contending pair gets an edge from the higher ID to the lower. */
  lemma ContenderEdge(norm: Normalizer, before: seq<Story>, reqs: seq<Requirement>, after: seq<Story>, o: Outcome,
                      hi: nat, lo: nat)
    requires UniqueIds(before) && Completes(norm, before, reqs, after, o)
    requires Contend(before, SemanticGraph(before, reqs), FileTable(norm, before), hi, lo)
    requires Less(before[lo].id, before[hi].id)
    ensures Edge(StoryGraph(after), before[hi].id, before[lo].id)
  {
    var g, files := SemanticGraph(before, reqs), FileTable(norm, before);
    assert Serialized(before, g, files, hi, lo) && VisitedBefore(|before|, 0, hi, lo);
    FinalEdge(norm, before, reqs, after, o, hi, before[lo].id);
  }

  /** Whatever stories share a file are ordered afterwards. */
  lemma SharersOrdered(norm: Normalizer, before: seq<Story>, reqs: seq<Requirement>, after: seq<Story>, o: Outcome,
                       i: nat, j: nat)
    requires UniqueIds(before) && Completes(norm, before, reqs, after, o)
    requires i < |before| && j < |before| && i != j
    requires OwnedFiles(norm, before[i]) * OwnedFiles(norm, before[j]) != {}
    ensures Ordered(StoryGraph(after), before[i].id, before[j].id)
  {
    var g, files := SemanticGraph(before, reqs), FileTable(norm, before);
    var x, y := before[i].id, before[j].id;
    FilesAt(norm, before, i);
    FilesAt(norm, before, j);
    if Ordered(g, x, y) {
      SemanticGraphSurvives(norm, before, reqs, after, o);
      if Reach(g, x, y) {
        ReachMonotone(g, StoryGraph(after), x, y);
      } else {
        ReachMonotone(g, StoryGraph(after), y, x);
      }
    } else {
      assert StoryIds(before)[i] != StoryIds(before)[j];
      LessTrichotomy(x, y);
      if Less(y, x) {
        ContenderEdge(norm, before, reqs, after, o, i, j);
        EdgeReaches(StoryGraph(after), x, y);
      } else {
        ContenderEdge(norm, before, reqs, after, o, j, i);
        EdgeReaches(StoryGraph(after), y, x);
      }
    }
  }

  /** `ValidateStoryFileOwnership` accepts every completed run's output. */
  lemma OwnershipAccepted(norm: Normalizer, before: seq<Story>, reqs: seq<Requirement>, after: seq<Story>, o: Outcome)
    requires UniqueIds(before) && Completes(norm, before, reqs, after, o)
    ensures FilesSequenced(norm, after)
  {
    OnlyDepsDiffer(norm, before, after);
    forall i | 0 <= i < |after| ensures RowSequenced(norm, after, i) {
      forall j | i < j < |after| ensures PairSequenced(norm, after, i, j) {
        FilesAt(norm, before, i);
        FilesAt(norm, before, j);
        if OwnedFiles(norm, before[i]) * OwnedFiles(norm, before[j]) != {} {
          SharersOrdered(norm, before, reqs, after, o, i, j);
        }
      }
    }
  }

  /** Every initial dependency names a listed story. */
  ghost predicate InitialDepsKnown(stories: seq<Story>) {
    forall i, d :: 0 <= i < |stories| && d in stories[i].dependsOn ==> d in StoryIds(stories)
  }

  /** Derived edges always name listed stories. */
  lemma DerivedEdgesKnown(norm: Normalizer, stories: seq<Story>, reqs: seq<Requirement>, k: nat, y: Id)
    requires k < |stories| && y in FinalEdges(norm, stories, reqs, k) && y !in stories[k].dependsOn
    ensures y in StoryIds(stories)
  {
    if y in SemanticEdges(stories[k], stories, reqs) {
      var c :| c in stories && WaitsFor(stories[k], c, reqs) && c.id == y;
      var m :| 0 <= m < |stories| && stories[m] == c;
      assert StoryIds(stories)[m] == y;
    } else {
      var g, files := SemanticGraph(stories, reqs), FileTable(norm, stories);
      var lo :| 0 <= lo < |stories| && Serialized(stories, g, files, k, lo) && stories[lo].id == y;
      assert StoryIds(stories)[lo] == y;
    }
  }

  lemma KnownStories(before: seq<Story>, after: seq<Story>, d: Id)
    requires SameButDeps(before, after)
    ensures Known(StoryNodes(after), d) <==> d in StoryIds(before)
  {
    var nodes := StoryNodes(after);
    if d in StoryIds(before) {
      var m :| 0 <= m < |before| && StoryIds(before)[m] == d;
      assert nodes[m].id == d;
    }
    if Known(nodes, d) {
      var m :| 0 <= m < |nodes| && nodes[m].id == d;
      assert StoryIds(before)[m] == d;
    }
  }

  lemma ReferencesResolveAfter(norm: Normalizer, before: seq<Story>, reqs: seq<Requirement>, after: seq<Story>, i: nat)
    requires UniqueIds(before) && Schedules(norm, before, reqs, after, Scheduled)
    requires InitialDepsKnown(before) && i < |before|
    ensures ResolvesAt(StoryNodes(after), i)
  {
    var nodes := StoryNodes(after);
    forall d | d in nodes[i].dependsOn ensures d != nodes[i].id && Known(nodes, d) {
      FinalEdge(norm, before, reqs, after, Scheduled, i, d);
      EdgeReaches(StoryGraph(after), before[i].id, d);
      KnownStories(before, after, d);
      if d !in before[i].dependsOn {
        DerivedEdgesKnown(norm, before, reqs, i, d);
      }
    }
  }

  /**
   After a nil return `ValidateStoryFileOwnership` accepts, and `ValidateStoryDAG`
   accepts exactly when no story came in with a dependency on an unknown story
   (the derivation retains such an entry; it never removes one).
   */
  lemma ValidatorsAccept(norm: Normalizer, before: seq<Story>, reqs: seq<Requirement>, after: seq<Story>)
    requires UniqueIds(before) && Schedules(norm, before, reqs, after, Scheduled)
    ensures FilesSequenced(norm, after)
    ensures IsDag(StoryNodes(after)) <==> InitialDepsKnown(before)
  {
    OwnershipAccepted(norm, before, reqs, after, Scheduled);
    var nodes := StoryNodes(after);
    if InitialDepsKnown(before) {
      forall i | 0 <= i < |nodes| ensures ResolvesAt(nodes, i) {
        ReferencesResolveAfter(norm, before, reqs, after, i);
      }
    } else {
      var i, d :| 0 <= i < |before| && d in before[i].dependsOn && d !in StoryIds(before);
      FinalEdge(norm, before, reqs, after, Scheduled, i, d);
      KnownStories(before, after, d);
      assert d in nodes[i].dependsOn && !ResolvesAt(nodes, i);
    }
  }

  // ----- running twice

  /** The semantic edges do not depend on `dependsOn` lists. */
  lemma SemanticEdgesWithin(before: seq<Story>, reqs: seq<Requirement>, after: seq<Story>, k: nat, x: Id)
    requires |before| == |after| && k < |before| && x in SemanticEdges(after[k], after, reqs)
    requires forall m :: 0 <= m < |before| ==>
      after[m].id == before[m].id && after[m].requirementIds == before[m].requirementIds
    ensures x in SemanticEdges(before[k], before, reqs)
  {
    var c :| c in after && WaitsFor(after[k], c, reqs) && c.id == x;
    var m :| 0 <= m < |after| && after[m] == c;
    assert before[m] in before && WaitsFor(before[k], before[m], reqs);
  }

  /** On scheduled stories the semantic pass adds nothing, so it leaves the graph as it is. */
  lemma SemanticPassSettled(norm: Normalizer, before: seq<Story>, reqs: seq<Requirement>, after: seq<Story>)
    requires UniqueIds(before) && Schedules(norm, before, reqs, after, Scheduled)
    ensures UniqueIds(after)
    ensures forall k, y :: 0 <= k < |after| && y in SemanticEdges(after[k], after, reqs) ==> y in after[k].dependsOn
    ensures SubGraph(StoryGraph(after), SemanticGraph(after, reqs))
  {
    IdsKept(before, after);
    forall k, y | 0 <= k < |after| && y in SemanticEdges(after[k], after, reqs) ensures y in after[k].dependsOn {
      SemanticEdgesWithin(before, reqs, after, k, y);
      FinalEdge(norm, before, reqs, after, Scheduled, k, y);
    }
    forall x, y | Edge(StoryGraph(after), x, y) ensures Edge(SemanticGraph(after, reqs), x, y) {
      var k := StoryEdgeSource(after, x, y);
      SemanticEdgeAt(after, reqs, k, y);
    }
  }

  /** On scheduled stories no pair is left for Pass 2. */
  lemma NoContention(norm: Normalizer, before: seq<Story>, reqs: seq<Requirement>, after: seq<Story>, i: nat, j: nat)
    requires UniqueIds(before) && Schedules(norm, before, reqs, after, Scheduled)
    ensures !Contend(after, SemanticGraph(after, reqs), FileTable(norm, after), i, j)
  {
    var g, files := SemanticGraph(after, reqs), FileTable(norm, after);
    SemanticPassSettled(norm, before, reqs, after);
    if i < |after| && j < |after| && i != j {
      FilesAt(norm, after, i);
      FilesAt(norm, after, j);
      var x, y := after[i].id, after[j].id;
      if OwnedFiles(norm, after[i]) * OwnedFiles(norm, after[j]) != {} {
        SharersOrdered(norm, before, reqs, after, Scheduled, i, j);
        if Reach(StoryGraph(after), x, y) {
          ReachMonotone(StoryGraph(after), g, x, y);
        } else {
          ReachMonotone(StoryGraph(after), g, y, x);
        }
      }
    }
  }

  /** A run on stories where neither pass has anything to add changes nothing and returns nil. */
  lemma UncontendedEdges(stories: seq<Story>, g: Graph<Id>, files: map<Id, set<Path>>, k: nat)
    requires forall j: nat :: !Contend(stories, g, files, k, j)
    ensures ResourceEdges(stories, g, files, k, |stories|, 0) == {}
  {
  }

  lemma NothingToAdd(norm: Normalizer, stories: seq<Story>, reqs: seq<Requirement>, again: seq<Story>, o: Outcome)
    requires Schedules(norm, stories, reqs, again, o) && Acyclic(StoryGraph(stories))
    requires forall k, y :: 0 <= k < |stories| && y in SemanticEdges(stories[k], stories, reqs) ==>
      y in stories[k].dependsOn
    requires forall i: nat, j: nat :: !Contend(stories, SemanticGraph(stories, reqs), FileTable(norm, stories), i, j)
    ensures again == stories && o == Scheduled
  {
    assert !o.SameComponentConflict?;
    forall k | 0 <= k < |stories| ensures again[k] == stories[k] {
      NothingToAddAt(norm, stories, reqs, again, o, k);
    }
    assert again == stories;
    CyclicRejected(norm, stories, reqs, stories, o);
  }

  lemma NothingToAddAt(norm: Normalizer, stories: seq<Story>, reqs: seq<Requirement>, again: seq<Story>, o: Outcome,
                       k: nat)
    requires Completes(norm, stories, reqs, again, o) && k < |stories|
    requires forall y :: y in SemanticEdges(stories[k], stories, reqs) ==> y in stories[k].dependsOn
    requires forall j: nat :: !Contend(stories, SemanticGraph(stories, reqs), FileTable(norm, stories), k, j)
    ensures |again| == |stories| && again[k] == stories[k]
  {
    var none := ResourceEdges(stories, SemanticGraph(stories, reqs), FileTable(norm, stories), k, |stories|, 0);
    UncontendedEdges(stories, SemanticGraph(stories, reqs), FileTable(norm, stories), k);
    AppendedNothing(stories[k].dependsOn, again[k].dependsOn, SemanticEdges(stories[k], stories, reqs) + none);
  }

  /** A second run after a nil return changes no list, not even its order, and returns nil. */
  lemma Idempotent(norm: Normalizer, before: seq<Story>, reqs: seq<Requirement>, after: seq<Story>, again: seq<Story>,
                   o: Outcome)
    requires UniqueIds(before) && Schedules(norm, before, reqs, after, Scheduled)
    requires Schedules(norm, after, reqs, again, o)
    ensures again == after && o == Scheduled
  {
    forall i: nat, j: nat ensures !Contend(after, SemanticGraph(after, reqs), FileTable(norm, after), i, j) {
      NoContention(norm, before, reqs, after, i, j);
    }
    SemanticPassSettled(norm, before, reqs, after);
    NothingToAdd(norm, after, reqs, again, o);
  }

  // ----- slice order and map order do not matter

  ghost predicate SameStories(s: seq<Story>, t: seq<Story>) {
    forall x :: x in s <==> x in t
  }

  /** Where the story at `i` sits in the other listing. */
  lemma Located(s: seq<Story>, t: seq<Story>, i: nat) returns (j: nat)
    requires SameStories(s, t) && i < |s|
    ensures j < |t| && t[j] == s[i]
  {
    assert s[i] in t;
    j :| 0 <= j < |t| && t[j] == s[i];
  }

  lemma SameIdSameStory(s: seq<Story>, i: nat, j: nat)
    requires UniqueIds(s) && i < |s| && j < |s| && s[i].id == s[j].id
    ensures i == j
  {
    assert StoryIds(s)[i] == StoryIds(s)[j];
  }

  lemma TablesAgree(norm: Normalizer, s: seq<Story>, t: seq<Story>, reqs: seq<Requirement>)
    requires SameStories(s, t) && UniqueIds(s) && UniqueIds(t)
    ensures SemanticGraph(s, reqs) == SemanticGraph(t, reqs)
    ensures FileTable(norm, s) == FileTable(norm, t)
  {
    forall id ensures SameEntry(SemanticGraph(s, reqs), SemanticGraph(t, reqs), id) {
      GraphEntriesAgree(s, t, reqs, id);
    }
    SameEntries(SemanticGraph(s, reqs), SemanticGraph(t, reqs));
    IdsWithin(s, t);
    IdsWithin(t, s);
    forall id | id in StoryIds(s) ensures FileTable(norm, s)[id] == FileTable(norm, t)[id] {
      var i :| 0 <= i < |s| && StoryIds(s)[i] == id;
      var j := Located(s, t, i);
      FilesAt(norm, s, i);
      FilesAt(norm, t, j);
    }
  }

  lemma GraphEntriesAgree(s: seq<Story>, t: seq<Story>, reqs: seq<Requirement>, id: Id)
    requires SameStories(s, t) && UniqueIds(s) && UniqueIds(t)
    ensures SameEntry(SemanticGraph(s, reqs), SemanticGraph(t, reqs), id)
  {
    IdsWithin(s, t);
    IdsWithin(t, s);
    if id in StoryIds(s) {
      var i :| 0 <= i < |s| && StoryIds(s)[i] == id;
      var j := Located(s, t, i);
      assert StoryIds(t)[j] == id;
      DistinctAt(StoryIds(s), DepSets(s, reqs), i);
      DistinctAt(StoryIds(t), DepSets(t, reqs), j);
      SemanticEdgesByMembers(s, t, s[i], reqs);
    }
  }

  lemma IdsWithin(s: seq<Story>, t: seq<Story>)
    requires SameStories(s, t)
    ensures forall id :: id in StoryIds(s) ==> id in StoryIds(t)
  {
    forall id | id in StoryIds(s) ensures id in StoryIds(t) {
      var i :| 0 <= i < |s| && StoryIds(s)[i] == id;
      var j := Located(s, t, i);
      assert StoryIds(t)[j] == id;
    }
  }

  /** Contention depends on the two stories, not on where they are listed. */
  lemma ContentionTransfers(s: seq<Story>, t: seq<Story>, g: Graph<Id>, files: map<Id, set<Path>>, i: nat, j: nat)
    returns (p: nat, q: nat)
    requires SameStories(s, t) && UniqueIds(s) && Contend(s, g, files, i, j)
    ensures p < |t| && q < |t| && t[p] == s[i] && t[q] == s[j]
    ensures s[i].id != s[j].id
    ensures Contend(t, g, files, p, q) && Contend(t, g, files, q, p)
  {
    p := Located(s, t, i);
    q := Located(s, t, j);
    if s[i].id == s[j].id {
      SameIdSameStory(s, i, j);
    }
  }

  /** A conflict in one listing is a conflict, perhaps the other way round, in the other. */
  lemma ConflictElsewhere(s: seq<Story>, t: seq<Story>, g: Graph<Id>, files: map<Id, set<Path>>, i: nat, j: nat)
    returns (p: nat, q: nat)
    requires SameStories(s, t) && UniqueIds(s) && Conflict(s, g, files, i, j)
    ensures Conflict(t, g, files, p, q)
  {
    p, q := ContentionTransfers(s, t, g, files, i, j);
    if q < p {
      p, q := q, p;
    }
  }

  lemma ConflictTransfers(norm: Normalizer, s: seq<Story>, t: seq<Story>, reqs: seq<Requirement>)
    requires SameStories(s, t) && UniqueIds(s) && UniqueIds(t) && ConflictFree(norm, t, reqs)
    ensures ConflictFree(norm, s, reqs)
  {
    TablesAgree(norm, s, t, reqs);
    var g, files := SemanticGraph(t, reqs), FileTable(norm, t);
    forall i: nat, j: nat ensures !Conflict(s, g, files, i, j) {
      if Conflict(s, g, files, i, j) {
        var p, q := ConflictElsewhere(s, t, g, files, i, j);
      }
    }
  }

  lemma SerializedTransfers(s: seq<Story>, t: seq<Story>, g: Graph<Id>, files: map<Id, set<Path>>, k: nat, m: nat,
                            y: Id)
    requires SameStories(s, t) && UniqueIds(s) && UniqueIds(t) && k < |s| && m < |t| && s[k] == t[m]
    requires y in ResourceEdges(s, g, files, k, |s|, 0)
    ensures y in ResourceEdges(t, g, files, m, |t|, 0)
  {
    var lo :| 0 <= lo < |s| && Serialized(s, g, files, k, lo) && s[lo].id == y;
    var p, n := ContentionTransfers(s, t, g, files, k, lo);
    SameIdSameStory(t, p, m);
    assert Serialized(t, g, files, m, n) && VisitedBefore(|t|, 0, m, n);
  }

  lemma FinalEdgesTransfer(norm: Normalizer, s: seq<Story>, t: seq<Story>, reqs: seq<Requirement>, k: nat, m: nat,
                           y: Id)
    requires SameStories(s, t) && UniqueIds(s) && UniqueIds(t) && k < |s| && m < |t| && s[k] == t[m]
    requires y in FinalEdges(norm, s, reqs, k)
    ensures y in FinalEdges(norm, t, reqs, m)
  {
    var g, files := SemanticGraph(s, reqs), FileTable(norm, s);
    if y in s[k].dependsOn {
    } else if y in SemanticEdges(s[k], s, reqs) {
      SemanticEdgesByMembers(s, t, s[k], reqs);
    } else {
      TablesAgree(norm, s, t, reqs);
      SerializedTransfers(s, t, g, files, k, m, y);
    }
  }

  lemma SemanticEdgesByMembers(s: seq<Story>, t: seq<Story>, x: Story, reqs: seq<Requirement>)
    requires SameStories(s, t)
    ensures SemanticEdges(x, s, reqs) == SemanticEdges(x, t, reqs)
  {
  }

  /** Two completed runs over the same stories give each story the same dependencies. */
  lemma SameFinalEdges(norm: Normalizer, s: seq<Story>, t: seq<Story>, reqs: seq<Requirement>,
                       s': seq<Story>, o: Outcome, t': seq<Story>, o': Outcome, k: nat, m: nat)
    requires SameStories(s, t) && UniqueIds(s) && UniqueIds(t)
    requires Completes(norm, s, reqs, s', o) && Completes(norm, t, reqs, t', o')
    requires k < |s| && m < |t| && s[k] == t[m]
    ensures forall y :: y in s'[k].dependsOn <==> y in t'[m].dependsOn
  {
    forall y ensures y in s'[k].dependsOn <==> y in t'[m].dependsOn {
      FinalEdge(norm, s, reqs, s', o, k, y);
      FinalEdge(norm, t, reqs, t', o', m, y);
      if y in FinalEdges(norm, s, reqs, k) {
        FinalEdgesTransfer(norm, s, t, reqs, k, m, y);
      }
      if y in FinalEdges(norm, t, reqs, m) {
        FinalEdgesTransfer(norm, t, s, reqs, m, k, y);
      }
    }
  }

  lemma AcyclicTransfers(norm: Normalizer, s: seq<Story>, t: seq<Story>, reqs: seq<Requirement>,
                         s': seq<Story>, o: Outcome, t': seq<Story>, o': Outcome)
    requires SameStories(s, t) && UniqueIds(s) && UniqueIds(t)
    requires Completes(norm, s, reqs, s', o) && Completes(norm, t, reqs, t', o')
    requires Acyclic(StoryGraph(t'))
    ensures Acyclic(StoryGraph(s'))
  {
    forall x, y | Edge(StoryGraph(s'), x, y) ensures Edge(StoryGraph(t'), x, y) {
      var k := FinalEdgeSource(norm, s, reqs, s', o, x, y);
      var m := Located(s, t, k);
      FinalEdgesTransfer(norm, s, t, reqs, k, m, y);
      FinalEdge(norm, t, reqs, t', o', m, y);
    }
    AcyclicWithin(StoryGraph(s'), StoryGraph(t'));
  }

  /**
   Any two runs over the same stories and requirements, in any slice order and
   with any map iteration order, return the same kind of result; unless that is
   a conflict, every story ends with the same set of dependencies.
   */
  lemma OrderIndependent(norm: Normalizer, s: seq<Story>, t: seq<Story>, reqs: seq<Requirement>,
                         s': seq<Story>, o: Outcome, t': seq<Story>, o': Outcome)
    requires SameStories(s, t) && UniqueIds(s) && UniqueIds(t)
    requires Schedules(norm, s, reqs, s', o) && Schedules(norm, t, reqs, t', o')
    ensures o.SameComponentConflict? <==> o'.SameComponentConflict?
    ensures o.Scheduled? <==> o'.Scheduled?
    ensures !o.SameComponentConflict? ==> forall k, m, y :: 0 <= k < |s| && 0 <= m < |t| && s[k].id == t[m].id ==>
      (y in s'[k].dependsOn <==> y in t'[m].dependsOn)
  {
    KindFollows(norm, s, t, reqs, s', o, t', o');
    KindFollows(norm, t, s, reqs, t', o', s', o);
    if !o.SameComponentConflict? {
      forall k, m, y | 0 <= k < |s| && 0 <= m < |t| && s[k].id == t[m].id
        ensures y in s'[k].dependsOn <==> y in t'[m].dependsOn
      {
        var n := Located(s, t, k);
        SameIdSameStory(t, m, n);
        SameFinalEdges(norm, s, t, reqs, s', o, t', o', k, m);
      }
    }
  }

  lemma KindFollows(norm: Normalizer, s: seq<Story>, t: seq<Story>, reqs: seq<Requirement>,
                    s': seq<Story>, o: Outcome, t': seq<Story>, o': Outcome)
    requires SameStories(s, t) && UniqueIds(s) && UniqueIds(t)
    requires Schedules(norm, s, reqs, s', o) && Schedules(norm, t, reqs, t', o')
    ensures !o'.SameComponentConflict? ==> !o.SameComponentConflict?
    ensures o'.Scheduled? ==> o.Scheduled?
  {
    if !o'.SameComponentConflict? {
      ConflictTransfers(norm, s, t, reqs);
      assert !o.SameComponentConflict?;
      if o'.Scheduled? && o.CyclicPartition? {
        AcyclicTransfers(norm, s, t, reqs, s', o, t', o');
        ClosedChainIsCycle(StoryGraph(s'), o.cycle);
        assert false;
      }
    }
  }

  // ----- what Pass 3 can reject

  /** Every edge goes from a larger ID to a smaller one. */
  ghost predicate Descends(g: Graph<Id>) {
    forall x, y :: Edge(g, x, y) ==> Less(y, x)
  }

  lemma {:induction false} DescendsFar(g: Graph<Id>, n: nat, x: Id, y: Id)
    requires Descends(g) && n > 0 && ReachIn(g, n, x, y)
    ensures Less(y, x)
    decreases n
  {
    var z :| Edge(g, x, z) && ReachIn(g, n - 1, z, y);
    if n > 1 {
      DescendsFar(g, n - 1, z, y);
      LessTransitive(y, z, x);
    }
  }

  lemma DescendingIdsAcyclic(g: Graph<Id>)
    requires Descends(g)
    ensures Acyclic(g)
  {
    forall x ensures !Reach(g, x, x) {
      if Reach(g, x, x) {
        var n: nat :| n > 0 && ReachIn(g, n, x, x);
        DescendsFar(g, n, x, x);
        LessTrichotomy(x, x);
      }
    }
  }

  ghost function FinalSets(norm: Normalizer, stories: seq<Story>, reqs: seq<Requirement>): (deps: seq<set<Id>>)
    ensures |deps| == |stories| && forall k :: 0 <= k < |deps| ==> deps[k] == FinalEdges(norm, stories, reqs, k)
  {
    seq(|stories|, k requires 0 <= k < |stories| => FinalEdges(norm, stories, reqs, k))
  }

  /** The graph both passes are going to write, told from the stories they are given. */
  ghost function MergedGraph(norm: Normalizer, stories: seq<Story>, reqs: seq<Requirement>): Graph<Id> {
    LastWins(StoryIds(stories), FinalSets(norm, stories, reqs))
  }

  lemma MergedEdge(norm: Normalizer, stories: seq<Story>, reqs: seq<Requirement>, k: nat, y: Id)
    requires UniqueIds(stories) && k < |stories|
    ensures Edge(MergedGraph(norm, stories, reqs), stories[k].id, y) <==> y in FinalEdges(norm, stories, reqs, k)
  {
    DistinctAt(StoryIds(stories), FinalSets(norm, stories, reqs), k);
  }

  lemma MergedEdgeSource(norm: Normalizer, stories: seq<Story>, reqs: seq<Requirement>, x: Id, y: Id) returns (k: nat)
    requires UniqueIds(stories) && Edge(MergedGraph(norm, stories, reqs), x, y)
    ensures k < |stories| && stories[k].id == x && y in FinalEdges(norm, stories, reqs, k)
  {
    k :| 0 <= k < |stories| && StoryIds(stories)[k] == x;
    MergedEdge(norm, stories, reqs, k, y);
  }

  lemma MergedIsFinal(norm: Normalizer, before: seq<Story>, reqs: seq<Requirement>, after: seq<Story>, o: Outcome)
    requires UniqueIds(before) && Completes(norm, before, reqs, after, o)
    ensures Acyclic(StoryGraph(after)) <==> Acyclic(MergedGraph(norm, before, reqs))
  {
    var g, h := StoryGraph(after), MergedGraph(norm, before, reqs);
    forall x, y | Edge(g, x, y) ensures Edge(h, x, y) {
      var k := FinalEdgeSource(norm, before, reqs, after, o, x, y);
      MergedEdge(norm, before, reqs, k, y);
    }
    forall x, y | Edge(h, x, y) ensures Edge(g, x, y) {
      var k := MergedEdgeSource(norm, before, reqs, x, y);
      FinalEdge(norm, before, reqs, after, o, k, y);
    }
    if Acyclic(g) {
      AcyclicWithin(h, g);
    } else if Acyclic(h) {
      AcyclicWithin(g, h);
    }
  }

  /** Serialising `hi` behind `lo` closes a cycle: `lo` already waits, directly or not, for `hi`. */
  ghost predicate SerialisingLoops(norm: Normalizer, stories: seq<Story>, reqs: seq<Requirement>, hi: nat, lo: nat) {
    && Serialized(stories, SemanticGraph(stories, reqs), FileTable(norm, stories), hi, lo)
    && Reach(MergedGraph(norm, stories, reqs), stories[lo].id, stories[hi].id)
  }

  lemma SemanticWithinMerged(norm: Normalizer, stories: seq<Story>, reqs: seq<Requirement>)
    requires UniqueIds(stories)
    ensures SubGraph(SemanticGraph(stories, reqs), MergedGraph(norm, stories, reqs))
  {
    forall x, y | Edge(SemanticGraph(stories, reqs), x, y) ensures Edge(MergedGraph(norm, stories, reqs), x, y) {
      var k :| 0 <= k < |stories| && StoryIds(stories)[k] == x;
      SemanticEdgeAt(stories, reqs, k, y);
      MergedEdge(norm, stories, reqs, k, y);
    }
  }

  /** An edge that Pass 1 did not add serialises a contending pair. */
  lemma AddedBySerialising(norm: Normalizer, stories: seq<Story>, reqs: seq<Requirement>, x: Id, y: Id)
    returns (hi: nat, lo: nat)
    requires UniqueIds(stories)
    requires Edge(MergedGraph(norm, stories, reqs), x, y) && !Edge(SemanticGraph(stories, reqs), x, y)
    ensures Serialized(stories, SemanticGraph(stories, reqs), FileTable(norm, stories), hi, lo)
    ensures stories[hi].id == x && stories[lo].id == y
  {
    var g, files := SemanticGraph(stories, reqs), FileTable(norm, stories);
    hi := MergedEdgeSource(norm, stories, reqs, x, y);
    SemanticEdgeAt(stories, reqs, hi, y);
    lo :| 0 <= lo < |stories| && Serialized(stories, g, files, hi, lo) && stories[lo].id == y;
  }

  lemma SerialisedEdge(norm: Normalizer, stories: seq<Story>, reqs: seq<Requirement>, hi: nat, lo: nat)
    requires UniqueIds(stories)
    requires Serialized(stories, SemanticGraph(stories, reqs), FileTable(norm, stories), hi, lo)
    ensures Edge(MergedGraph(norm, stories, reqs), stories[hi].id, stories[lo].id)
  {
    assert VisitedBefore(|stories|, 0, hi, lo);
    MergedEdge(norm, stories, reqs, hi, stories[lo].id);
  }

  /** Over an acyclic semantic graph, a cycle is always closed by serialising some pair. */
  lemma MergedCycleCause(norm: Normalizer, stories: seq<Story>, reqs: seq<Requirement>)
    requires UniqueIds(stories) && Acyclic(SemanticGraph(stories, reqs))
    ensures !Acyclic(MergedGraph(norm, stories, reqs)) <==>
      exists hi: nat, lo: nat :: SerialisingLoops(norm, stories, reqs, hi, lo)
  {
    var h := MergedGraph(norm, stories, reqs);
    if x :| Reach(h, x, x) {
      var a, b := CycleUsesNewEdge(SemanticGraph(stories, reqs), h, x);
      var hi, lo := AddedBySerialising(norm, stories, reqs, a, b);
      if a == b {
        SameIdSameStory(stories, hi, lo);
      }
      assert SerialisingLoops(norm, stories, reqs, hi, lo);
    }
    if hi: nat, lo: nat :| SerialisingLoops(norm, stories, reqs, hi, lo) {
      SerialisedEdge(norm, stories, reqs, hi, lo);
      EdgeOnCycle(h, stories[hi].id, stories[lo].id);
    }
  }

  /**
   What a Pass-3 rejection means, exactly: nothing conflicts, and either the
   semantic edges are cyclic, so that the coverage is to blame, or they are not
   and some serialised pair closes a cycle, so that it is not.
   */
  lemma CycleBlamesCoverage(norm: Normalizer, before: seq<Story>, reqs: seq<Requirement>, after: seq<Story>, o: Outcome)
    requires UniqueIds(before) && Schedules(norm, before, reqs, after, o)
    ensures o.CyclicPartition? <==> (
      && ConflictFree(norm, before, reqs)
      && (|| !Acyclic(SemanticGraph(before, reqs))
          || exists hi: nat, lo: nat :: SerialisingLoops(norm, before, reqs, hi, lo)))
  {
    if !o.SameComponentConflict? {
      CyclicRejected(norm, before, reqs, after, o);
      MergedIsFinal(norm, before, reqs, after, o);
      if Acyclic(SemanticGraph(before, reqs)) {
        MergedCycleCause(norm, before, reqs);
      } else {
        SemanticWithinMerged(norm, before, reqs);
        if Acyclic(MergedGraph(norm, before, reqs)) {
          AcyclicWithin(SemanticGraph(before, reqs), MergedGraph(norm, before, reqs));
        }
      }
    }
  }

  /** With no pair left for Pass 2, Pass 3 rejects exactly the cyclic semantic graphs. */
  lemma UncontendedBlame(norm: Normalizer, before: seq<Story>, reqs: seq<Requirement>, after: seq<Story>, o: Outcome)
    requires UniqueIds(before) && Schedules(norm, before, reqs, after, o)
    requires forall i: nat, j: nat :: !Contend(before, SemanticGraph(before, reqs), FileTable(norm, before), i, j)
    ensures !o.SameComponentConflict?
    ensures o.CyclicPartition? <==> !Acyclic(SemanticGraph(before, reqs))
  {
    CycleBlamesCoverage(norm, before, reqs, after, o);
  }

  // ----- the other exact form: some Pass-1 edge goes up

  /** The edges of `g` that go from a larger ID to a smaller one. */
  ghost function Descending(g: Graph<Id>): (d: Graph<Id>)
    ensures forall x, y :: Edge(d, x, y) <==> Edge(g, x, y) && Less(y, x)
  {
    map x | x in g :: set y | y in g[x] && Less(y, x)
  }

  /** A Pass-1 edge to an ID that is no smaller, whose target leads back to its source. */
  ghost predicate ClimbsBack(norm: Normalizer, stories: seq<Story>, reqs: seq<Requirement>, x: Id, y: Id) {
    && Edge(SemanticGraph(stories, reqs), x, y) && !Less(y, x)
    && SameOrBehind(MergedGraph(norm, stories, reqs), y, x)
  }

  lemma MergedCycleClimbs(norm: Normalizer, stories: seq<Story>, reqs: seq<Requirement>)
    requires UniqueIds(stories)
    ensures !Acyclic(MergedGraph(norm, stories, reqs)) <==> exists x, y :: ClimbsBack(norm, stories, reqs, x, y)
  {
    var h := MergedGraph(norm, stories, reqs);
    if z :| Reach(h, z, z) {
      DescendingIdsAcyclic(Descending(h));
      var a, b := CycleUsesNewEdge(Descending(h), h, z);
      if !Edge(SemanticGraph(stories, reqs), a, b) {
        var hi, lo := AddedBySerialising(norm, stories, reqs, a, b);
        if a == b {
          SameIdSameStory(stories, hi, lo);
        }
        assert false;
      }
      assert ClimbsBack(norm, stories, reqs, a, b);
    }
    if x, y :| ClimbsBack(norm, stories, reqs, x, y) {
      SemanticWithinMerged(norm, stories, reqs);
      EdgeOnCycle(h, x, y);
    }
  }

  /**
   Resource edges alone never close a cycle: Pass 3 rejects exactly when some
   Pass-1 edge goes to an ID that is no smaller and leads back to where it started.
   */
  lemma RejectionNeedsClimb(norm: Normalizer, before: seq<Story>, reqs: seq<Requirement>, after: seq<Story>, o: Outcome)
    requires UniqueIds(before) && Schedules(norm, before, reqs, after, o)
    ensures o.CyclicPartition? <==>
      ConflictFree(norm, before, reqs) && exists x, y :: ClimbsBack(norm, before, reqs, x, y)
  {
    if !o.SameComponentConflict? {
      CyclicRejected(norm, before, reqs, after, o);
      MergedIsFinal(norm, before, reqs, after, o);
      MergedCycleClimbs(norm, before, reqs);
    }
  }

  /** If every edge after Pass 1 points to a smaller ID, resource edges cannot close a cycle. */
  lemma DescendingNeverCyclic(norm: Normalizer, before: seq<Story>, reqs: seq<Requirement>, after: seq<Story>,
                              o: Outcome)
    requires UniqueIds(before) && Schedules(norm, before, reqs, after, o)
    requires Descends(SemanticGraph(before, reqs))
    ensures !o.CyclicPartition?
  {
    RejectionNeedsClimb(norm, before, reqs, after, o);
  }

  /** Each story covers one requirement and comes in without dependencies. */
  ghost predicate CoversOneEach(stories: seq<Story>, reqOf: Id -> Id) {
    forall s :: s in stories ==> s.requirementIds == [reqOf(s.id)] && s.dependsOn == []
  }

  /** One requirement per story over a requirement DAG is always a sound coverage. */
  lemma SingleCoverageAcyclic(stories: seq<Story>, reqs: seq<Requirement>, reqOf: Id -> Id)
    requires UniqueIds(stories) && CoversOneEach(stories, reqOf) && Acyclic(ReqGraph(reqs))
    ensures Acyclic(SemanticGraph(stories, reqs))
  {
    var g := SemanticGraph(stories, reqs);
    forall x ensures !Reach(g, x, x) {
      if Reach(g, x, x) {
        var n: nat :| n > 0 && ReachIn(g, n, x, x);
        RequirementsFollow(stories, reqs, reqOf, n, x, x);
      }
    }
  }

  /** A chain of stories is a chain of their requirements. */
  lemma {:induction false} RequirementsFollow(stories: seq<Story>, reqs: seq<Requirement>, reqOf: Id -> Id, n: nat,
                                              x: Id, y: Id)
    requires UniqueIds(stories) && CoversOneEach(stories, reqOf)
    requires n > 0 && ReachIn(SemanticGraph(stories, reqs), n, x, y)
    ensures Reach(ReqGraph(reqs), reqOf(x), reqOf(y))
    decreases n
  {
    var g := SemanticGraph(stories, reqs);
    var rest := n - 1;
    var z :| Edge(g, x, z) && ReachIn(g, rest, z, y);
    SemanticEdgeCause(stories, reqs, reqOf, x, z);
    if rest > 0 {
      RequirementsFollow(stories, reqs, reqOf, rest, z, y);
      ReachTrans(ReqGraph(reqs), reqOf(x), reqOf(z), reqOf(y));
    }
  }

  lemma SemanticEdgeCause(stories: seq<Story>, reqs: seq<Requirement>, reqOf: Id -> Id, x: Id, z: Id)
    requires UniqueIds(stories) && CoversOneEach(stories, reqOf) && Edge(SemanticGraph(stories, reqs), x, z)
    ensures Reach(ReqGraph(reqs), reqOf(x), reqOf(z))
  {
    var i :| 0 <= i < |stories| && StoryIds(stories)[i] == x;
    var s := stories[i];
    SemanticEdgeAt(stories, reqs, i, z);
    assert s in stories;
    var c :| c in stories && WaitsFor(s, c, reqs) && c.id == z;
    WaitingCause(s, c, reqs, reqOf(x), reqOf(z));
  }

  lemma WaitingCause(s: Story, c: Story, reqs: seq<Requirement>, r: Id, p: Id)
    requires s.requirementIds == [r] && c.requirementIds == [p] && WaitsFor(s, c, reqs)
    ensures Reach(ReqGraph(reqs), r, p)
  {
  }

  /** Stories that anchor different components never conflict. */
  lemma DifferentComponents(norm: Normalizer, before: seq<Story>, reqs: seq<Requirement>, after: seq<Story>, o: Outcome)
    requires Schedules(norm, before, reqs, after, o)
    requires forall i, j :: 0 <= i < j < |before| ==> before[i].componentName != before[j].componentName
    ensures !o.SameComponentConflict?
  {
  }

  lemma CyclicRejected(norm: Normalizer, before: seq<Story>, reqs: seq<Requirement>, after: seq<Story>, o: Outcome)
    requires Completes(norm, before, reqs, after, o)
    ensures o.CyclicPartition? <==> !Acyclic(StoryGraph(after))
  {
    if o.CyclicPartition? {
      ClosedChainIsCycle(StoryGraph(after), o.cycle);
    }
  }
}
