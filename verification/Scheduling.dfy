/**
 `DeriveStoryScheduling`: semantic edges from requirement prerequisites, resource
 edges from shared files, then cycle detection, all written into the stories'
 `dependsOn` lists in place.

 `Schedules` says what the three passes must achieve without mentioning how:
 which edges every story ends with, which pair is reported as a conflict, and
 when a cycle is reported.
 */
module Scheduling {
  import opened Graphs
  import opened Tables
  import opened Ordering
  import opened Closure
  import opened CycleSearch
  import opened Plan

  datatype Outcome =
    | Scheduled
    | SameComponentConflict(a: Id, b: Id, component: string, shared: seq<Path>)
    | CyclicPartition(cycle: seq<Id>)

  // ----- what the derivation must achieve

  /** `c` covers a transitive prerequisite of `s` that `s` does not cover itself. */
  ghost predicate WaitsFor(s: Story, c: Story, reqs: seq<Requirement>) {
    && c.id != s.id
    && exists r, p ::
      r in s.requirementIds && Reach(ReqGraph(reqs), r, p) && p !in s.requirementIds && p in c.requirementIds
  }

  /** All coverers of all unowned transitive prerequisites. */
  ghost function SemanticEdges(s: Story, stories: seq<Story>, reqs: seq<Requirement>): set<Id> {
    set c | c in stories && WaitsFor(s, c, reqs) :: c.id
  }

  ghost function DepSets(stories: seq<Story>, reqs: seq<Requirement>): (deps: seq<set<Id>>)
    ensures |deps| == |stories|
    ensures forall i :: 0 <= i < |deps| ==>
      deps[i] == (set d | d in stories[i].dependsOn) + SemanticEdges(stories[i], stories, reqs)
  {
    seq(|stories|, i requires 0 <= i < |stories| =>
      (set d | d in stories[i].dependsOn) + SemanticEdges(stories[i], stories, reqs))
  }

  /** The dependency graph after the semantic pass. */
  ghost function SemanticGraph(stories: seq<Story>, reqs: seq<Requirement>): Graph<Id> {
    LastWins(StoryIds(stories), DepSets(stories, reqs))
  }

  /** Two stories share a file and the semantic pass left them unordered. */
  ghost predicate Contend(stories: seq<Story>, g: Graph<Id>, files: map<Id, set<Path>>, i: nat, j: nat) {
    && i < |stories| && j < |stories| && i != j
    && stories[i].id in files && stories[j].id in files
    && !Ordered(g, stories[i].id, stories[j].id)
    && files[stories[i].id] * files[stories[j].id] != {}
  }

  ghost predicate Conflict(stories: seq<Story>, g: Graph<Id>, files: map<Id, set<Path>>, i: nat, j: nat) {
    i < j && Contend(stories, g, files, i, j) && stories[i].componentName == stories[j].componentName
  }

  /** The lower ID runs first; between equal IDs the later record does. */
  predicate RunsFirst(stories: seq<Story>, lo: nat, hi: nat)
    requires lo < |stories| && hi < |stories|
  {
    Less(stories[lo].id, stories[hi].id) || (stories[lo].id == stories[hi].id && hi < lo)
  }

  ghost predicate Serialized(stories: seq<Story>, g: Graph<Id>, files: map<Id, set<Path>>, hi: nat, lo: nat) {
    Contend(stories, g, files, hi, lo) && RunsFirst(stories, lo, hi)
  }

  /** The pair {p, q} is visited before the pair (i, j) of the double loop. */
  predicate VisitedBefore(i: nat, j: nat, p: nat, q: nat) {
    var a, b := if p < q then p else q, if p < q then q else p;
    a < i || (a == i && b < j)
  }

  /** The serialisation edges that pairs before (i, j) put on story `hi`. */
  ghost function ResourceEdges(stories: seq<Story>, g: Graph<Id>, files: map<Id, set<Path>>, hi: nat, i: nat,
                               j: nat): set<Id> {
    set lo | 0 <= lo < |stories| && Serialized(stories, g, files, hi, lo) && VisitedBefore(i, j, hi, lo) ::
      stories[lo].id
  }

  /** `after` is `before` followed by exactly the new IDs of `edges`, each once. */
  ghost predicate Appended(before: seq<Id>, after: seq<Id>, edges: set<Id>) {
    && before <= after
    && (forall d :: d in after <==> d in before || d in edges)
    && (forall j, k :: 0 <= j < k < |after| && |before| <= k ==> after[j] != after[k])
  }

  /** Nothing but `dependsOn` lists differs. */
  ghost predicate SameButDeps(before: seq<Story>, after: seq<Story>) {
    |before| == |after| && forall k :: 0 <= k < |before| ==> after[k] == before[k].(dependsOn := after[k].dependsOn)
  }

  /** Every story gained its semantic edges and the resource edges of the pairs before (i, j). */
  ghost predicate EdgesAdded(norm: Normalizer, before: seq<Story>, reqs: seq<Requirement>, after: seq<Story>, i: nat,
                             j: nat) {
    && SameButDeps(before, after)
    && forall k :: 0 <= k < |before| ==>
      Appended(before[k].dependsOn, after[k].dependsOn,
               SemanticEdges(before[k], before, reqs)
               + ResourceEdges(before, SemanticGraph(before, reqs), FileTable(norm, before), k, i, j))
  }

  /** (i, j) is the first conflicting pair in loop order. */
  ghost predicate FirstConflict(stories: seq<Story>, g: Graph<Id>, files: map<Id, set<Path>>, i: nat, j: nat) {
    && Conflict(stories, g, files, i, j)
    && forall p: nat, q: nat :: Conflict(stories, g, files, p, q) ==> !VisitedBefore(i, j, p, q)
  }

  ghost predicate ReportsConflict(norm: Normalizer, before: seq<Story>, reqs: seq<Requirement>, after: seq<Story>,
                                  o: Outcome, i: nat, j: nat) {
    && FirstConflict(before, SemanticGraph(before, reqs), FileTable(norm, before), i, j)
    && o.SameComponentConflict?
    && o.a == before[i].id && o.b == before[j].id && o.component == before[i].componentName
    && StrictlySorted(o.shared)
    && (forall f :: f in o.shared <==> f in FileTable(norm, before)[o.a] && f in FileTable(norm, before)[o.b])
    && EdgesAdded(norm, before, reqs, after, i, j)
  }

  ghost predicate ConflictFree(norm: Normalizer, stories: seq<Story>, reqs: seq<Requirement>) {
    forall i: nat, j: nat :: !Conflict(stories, SemanticGraph(stories, reqs), FileTable(norm, stories), i, j)
  }

  /** The derivation turns `before` into `after` and returns `o`. */
  ghost predicate Schedules(norm: Normalizer, before: seq<Story>, reqs: seq<Requirement>, after: seq<Story>,
                            o: Outcome) {
    match o
    case SameComponentConflict(_, _, _, _) =>
      exists i: nat, j: nat :: ReportsConflict(norm, before, reqs, after, o, i, j)
    case Scheduled =>
      && ConflictFree(norm, before, reqs)
      && EdgesAdded(norm, before, reqs, after, |before|, 0)
      && Acyclic(StoryGraph(after))
    case CyclicPartition(cycle) =>
      && ConflictFree(norm, before, reqs)
      && EdgesAdded(norm, before, reqs, after, |before|, 0)
      && ClosedChain(StoryGraph(after), cycle)
  }

  // ----- appending without repeats

  function AppendUnique(ids: seq<Id>, id: Id): seq<Id> {
    if id in ids then ids else ids + [id]
  }

  lemma AppendUniqueAppends(before: seq<Id>, now: seq<Id>, edges: set<Id>, id: Id)
    requires Appended(before, now, edges)
    ensures Appended(before, AppendUnique(now, id), edges + {id})
  {
    var next := AppendUnique(now, id);
    forall j, k | 0 <= j < k < |next| && |before| <= k ensures next[j] != next[k] {
      if k < |now| {
        assert now[j] != now[k];
      }
    }
  }

  lemma AppendedTwice(a: seq<Id>, b: seq<Id>, c: seq<Id>, first: set<Id>, second: set<Id>)
    requires Appended(a, b, first) && Appended(b, c, second)
    ensures Appended(a, c, first + second)
  {
    forall j, k | 0 <= j < k < |c| && |a| <= k ensures c[j] != c[k] {
      if k < |b| {
        assert b[j] == c[j] && b[k] == c[k];
      }
    }
  }

  lemma AddedIsNew(before: seq<Id>, after: seq<Id>, edges: set<Id>)
    requires Appended(before, after, edges) && |before| < |after|
    ensures after[|before|] in edges && after[|before|] !in before
  {
    var d := after[|before|];
    assert d in after;
    forall j | 0 <= j < |before| ensures before[j] != d {
      assert before[j] == after[j];
    }
  }

  /** Appending IDs that are all present changes nothing. */
  lemma AppendedNothing(before: seq<Id>, after: seq<Id>, edges: set<Id>)
    requires Appended(before, after, edges)
    requires forall d :: d in edges ==> d in before
    ensures after == before
  {
    if |after| > |before| {
      AddedIsNew(before, after, edges);
    }
  }

  // ----- Pass 1: semantic edges

  /** Some story among the first `n` has ID `c` and covers `rid`. */
  ghost predicate CoveredBy(stories: seq<Story>, n: nat, rid: Id, c: Id) {
    exists k :: 0 <= k < |stories| && k < n && stories[k].id == c && rid in stories[k].requirementIds
  }

  method BuildCoverers(stories: seq<Story>) returns (coverers: map<Id, seq<Id>>)
    ensures forall rid, c :: c in Successors(coverers, rid) <==> CoveredBy(stories, |stories|, rid, c)
  {
    coverers := map[];
    for i := 0 to |stories|
      invariant forall rid, c :: c in Successors(coverers, rid) <==> CoveredBy(stories, i, rid, c)
    {
      var s := stories[i];
      for k := 0 to |s.requirementIds|
        invariant forall rid, c :: c in Successors(coverers, rid) <==>
          CoveredBy(stories, i, rid, c) || (c == s.id && rid in s.requirementIds[..k])
      {
        var rid := s.requirementIds[k];
        coverers := coverers[rid := AppendUnique(Successors(coverers, rid), s.id)];
        assert s.requirementIds[..k + 1] == s.requirementIds[..k] + [rid];
      }
      assert s.requirementIds[..|s.requirementIds|] == s.requirementIds;
      forall rid, c ensures CoveredBy(stories, i + 1, rid, c) <==>
        CoveredBy(stories, i, rid, c) || (c == s.id && rid in s.requirementIds)
      {
      }
    }
  }

  /** The union of the closures of the story's requirements. */
  method AllPrereqs(s: Story, closure: map<Id, set<Id>>) returns (all: set<Id>)
    ensures forall p :: p in all <==> exists r :: r in s.requirementIds && r in closure && p in closure[r]
  {
    all := {};
    for k := 0 to |s.requirementIds|
      invariant forall p :: p in all <==>
        exists m :: 0 <= m < k && s.requirementIds[m] in closure && p in closure[s.requirementIds[m]]
    {
      var r := s.requirementIds[k];
      if r in closure {
        all := all + closure[r];
      }
    }
  }

  /** The coverers, other than `s`, of those `prereqs` that `s` does not cover. */
  ghost function CoverersOf(s: Story, prereqs: set<Id>, coverers: map<Id, seq<Id>>): set<Id> {
    set p, c | p in prereqs && p !in s.requirementIds && c in Successors(coverers, p) && c != s.id :: c
  }

  /** The map of prerequisites is ranged over in an arbitrary order. */
  method AddCoverers(s: Story, prereqs: set<Id>, coverers: map<Id, seq<Id>>) returns (deps: seq<Id>)
    ensures Appended(s.dependsOn, deps, CoverersOf(s, prereqs, coverers))
  {
    deps := s.dependsOn;
    var rest := prereqs;
    while rest != {}
      invariant rest <= prereqs
      invariant Appended(s.dependsOn, deps, CoverersOf(s, prereqs - rest, coverers))
      decreases |rest|
    {
      var p :| p in rest;
      ghost var done := CoverersOf(s, prereqs - rest, coverers);
      rest := rest - {p};
      if p !in s.requirementIds {
        deps := AddAll(s, done, deps, Successors(coverers, p));
        ghost var here := Others(s, Successors(coverers, p));
        assert CoverersOf(s, prereqs - rest, coverers) == done + here;
      } else {
        assert CoverersOf(s, prereqs - rest, coverers) == done;
      }
    }
    assert prereqs - rest == prereqs;
  }

  ghost function Others(s: Story, cs: seq<Id>): set<Id> {
    set c | c in cs && c != s.id
  }

  method AddAll(s: Story, ghost done: set<Id>, start: seq<Id>, cs: seq<Id>) returns (deps: seq<Id>)
    requires Appended(s.dependsOn, start, done)
    ensures Appended(s.dependsOn, deps, done + Others(s, cs))
  {
    deps := start;
    for k := 0 to |cs|
      invariant Appended(s.dependsOn, deps, done + Others(s, cs[..k]))
    {
      ghost var sofar := done + Others(s, cs[..k]);
      assert cs[..k + 1] == cs[..k] + [cs[k]];
      if cs[k] != s.id {
        AppendUniqueAppends(s.dependsOn, deps, sofar, cs[k]);
        deps := AppendUnique(deps, cs[k]);
        assert done + Others(s, cs[..k + 1]) == sofar + {cs[k]};
      } else {
        assert done + Others(s, cs[..k + 1]) == sofar;
      }
    }
    assert cs[..|cs|] == cs;
  }

  /** The computed coverers are the stories `s` waits for. */
  lemma CoverersAreSemantic(s: Story, stories: seq<Story>, reqs: seq<Requirement>, closure: map<Id, set<Id>>,
                            all: set<Id>, coverers: map<Id, seq<Id>>)
    requires closure.Keys == set id | id in NodeIds(ReqNodes(reqs))
    requires forall id, y :: id in closure ==> (y in closure[id] <==> Reach(ReqGraph(reqs), id, y))
    requires forall p :: p in all <==> exists r :: r in s.requirementIds && r in closure && p in closure[r]
    requires forall rid, c :: c in Successors(coverers, rid) <==> CoveredBy(stories, |stories|, rid, c)
    ensures CoverersOf(s, all, coverers) == SemanticEdges(s, stories, reqs)
  {
    forall c | c in CoverersOf(s, all, coverers) ensures c in SemanticEdges(s, stories, reqs) {
      var p :| p in all && p !in s.requirementIds && c in Successors(coverers, p) && c != s.id;
      var r :| r in s.requirementIds && r in closure && p in closure[r];
      var k :| 0 <= k < |stories| && stories[k].id == c && p in stories[k].requirementIds;
      assert Reach(ReqGraph(reqs), r, p);
      assert WaitsFor(s, stories[k], reqs);
    }
    forall c | c in SemanticEdges(s, stories, reqs) ensures c in CoverersOf(s, all, coverers) {
      var t :| t in stories && WaitsFor(s, t, reqs) && t.id == c;
      var r, p :| r in s.requirementIds && Reach(ReqGraph(reqs), r, p) && p !in s.requirementIds &&
        p in t.requirementIds;
      var z := ReachHead(ReqGraph(reqs), r, p);
      assert r in closure && p in all;
      var k :| 0 <= k < |stories| && stories[k] == t;
      assert CoveredBy(stories, |stories|, p, c);
    }
  }

  /** The body of the Pass-1 loop for one story. */
  method SemanticDeps(s: Story, closure: map<Id, set<Id>>, coverers: map<Id, seq<Id>>, ghost stories: seq<Story>,
                      ghost reqs: seq<Requirement>) returns (deps: seq<Id>)
    requires closure.Keys == set id | id in NodeIds(ReqNodes(reqs))
    requires forall id, y :: id in closure ==> (y in closure[id] <==> Reach(ReqGraph(reqs), id, y))
    requires forall rid, c :: c in Successors(coverers, rid) <==> CoveredBy(stories, |stories|, rid, c)
    ensures Appended(s.dependsOn, deps, SemanticEdges(s, stories, reqs))
  {
    var all := AllPrereqs(s, closure);
    deps := AddCoverers(s, all, coverers);
    CoverersAreSemantic(s, stories, reqs, closure, all, coverers);
  }

  /** Edges added by the semantic pass only. */
  ghost predicate SemanticallyExtended(before: seq<Story>, reqs: seq<Requirement>, after: seq<Story>) {
    && SameButDeps(before, after)
    && forall k :: 0 <= k < |before| ==>
      Appended(before[k].dependsOn, after[k].dependsOn, SemanticEdges(before[k], before, reqs))
  }

  method AddSemanticEdges(stories: array<Story>, reqs: seq<Requirement>)
    modifies stories
    ensures SemanticallyExtended(old(stories[..]), reqs, stories[..])
  {
    ghost var before := stories[..];
    var reqIds := NodeIds(ReqNodes(reqs));
    var adj := Tabulate(reqIds, NodeDeps(ReqNodes(reqs)));
    var closure := BuildClosure(reqIds, adj);
    var coverers := BuildCoverers(stories[..]);
    for i := 0 to stories.Length
      invariant ExtendedTo(before, reqs, stories[..], i)
    {
      ghost var now := stories[..];
      assert stories[i] == now[i];
      var deps := SemanticDeps(stories[i], closure, coverers, before, reqs);
      stories[i] := stories[i].(dependsOn := deps);
      ExtendOne(before, reqs, now, i, deps);
      assert stories[..] == now[i := now[i].(dependsOn := deps)];
    }
  }

  /** The first `n` stories have gained their semantic edges, the others nothing. */
  ghost predicate ExtendedTo(before: seq<Story>, reqs: seq<Requirement>, now: seq<Story>, n: nat) {
    && |now| == |before| && (forall k :: n <= k < |before| ==> now[k] == before[k])
    && (forall k :: 0 <= k < |before| && k < n ==> GainedSemantic(before, reqs, k, now[k]))
  }

  lemma ExtendOne(before: seq<Story>, reqs: seq<Requirement>, now: seq<Story>, i: nat, deps: seq<Id>)
    requires i < |before| && ExtendedTo(before, reqs, now, i)
    requires Appended(now[i].dependsOn, deps, SemanticEdges(now[i], before, reqs))
    ensures ExtendedTo(before, reqs, now[i := now[i].(dependsOn := deps)], i + 1)
  {
    var next := now[i := now[i].(dependsOn := deps)];
    forall k | 0 <= k < |before| && k < i + 1 ensures GainedSemantic(before, reqs, k, next[k]) {
      if k < i {
        assert next[k] == now[k];
      }
    }
  }

  ghost predicate GainedSemantic(before: seq<Story>, reqs: seq<Requirement>, k: nat, now: Story)
    requires k < |before|
  {
    && now == before[k].(dependsOn := now.dependsOn)
    && Appended(before[k].dependsOn, now.dependsOn, SemanticEdges(before[k], before, reqs))
  }

  /** After the semantic pass the lists spell out the semantic graph. */
  lemma SemanticPassGraph(before: seq<Story>, reqs: seq<Requirement>, after: seq<Story>)
    requires SemanticallyExtended(before, reqs, after)
    ensures StoryGraph(after) == SemanticGraph(before, reqs)
  {
    forall x ensures SameEntry(StoryGraph(after), SemanticGraph(before, reqs), x) {
      SemanticPassAt(before, reqs, after, x);
    }
    SameEntries(StoryGraph(after), SemanticGraph(before, reqs));
  }

  ghost predicate SameEntry(g: Graph<Id>, h: Graph<Id>, x: Id) {
    (x in g <==> x in h) && (x in g && x in h ==> g[x] == h[x])
  }

  lemma SameEntries(g: Graph<Id>, h: Graph<Id>)
    requires forall x :: SameEntry(g, h, x)
    ensures g == h
  {
    assert forall x :: x in g ==> SameEntry(g, h, x);
    assert forall x :: x in h ==> SameEntry(g, h, x);
  }

  lemma SemanticPassAt(before: seq<Story>, reqs: seq<Requirement>, after: seq<Story>, x: Id)
    requires SemanticallyExtended(before, reqs, after)
    ensures SameEntry(StoryGraph(after), SemanticGraph(before, reqs), x)
  {
    var ids, nodes := StoryIds(before), StoryNodes(after);
    assert NodeIds(nodes) == ids;
    if x in ids {
      var i := LastWinsAt(ids, NodeDeps(nodes), x);
      var j := LastWinsAt(ids, DepSets(before, reqs), x);
      assert i == j;
      AppendedUnion(before[i].dependsOn, after[i].dependsOn, SemanticEdges(before[i], before, reqs));
    }
  }

  lemma AppendedUnion(before: seq<Id>, after: seq<Id>, edges: set<Id>)
    requires Appended(before, after, edges)
    ensures (set d | d in after) == (set d | d in before) + edges
  {
  }

  // ----- Pass 2: resource edges

  /** The pairs before (i, j) have been handled. */
  ghost predicate PairsDone(before: seq<Story>, g: Graph<Id>, files: map<Id, set<Path>>, now: seq<Story>, i: nat,
                            j: nat) {
    && SameButDeps(before, now)
    && forall k :: 0 <= k < |before| ==> Gained(before, g, files, now, k, i, j)
  }

  ghost predicate Gained(before: seq<Story>, g: Graph<Id>, files: map<Id, set<Path>>, now: seq<Story>, k: nat, i: nat,
                         j: nat)
    requires k < |before| == |now|
  {
    Appended(before[k].dependsOn, now[k].dependsOn, ResourceEdges(before, g, files, k, i, j))
  }

  /** Handling (i, j) changes only what its two stories gained. */
  lemma PairStep(s: seq<Story>, g: Graph<Id>, files: map<Id, set<Path>>, i: nat, j: nat, k: nat)
    requires i < j < |s| && k < |s|
    ensures ResourceEdges(s, g, files, k, i, j + 1) == ResourceEdges(s, g, files, k, i, j)
      + (if k == i && Serialized(s, g, files, i, j) then {s[j].id}
         else if k == j && Serialized(s, g, files, j, i) then {s[i].id} else {})
  {
    var gain := if k == i && Serialized(s, g, files, i, j) then {s[j].id}
                else if k == j && Serialized(s, g, files, j, i) then {s[i].id} else {};
    forall x | x in ResourceEdges(s, g, files, k, i, j + 1) ensures x in ResourceEdges(s, g, files, k, i, j) + gain {
      var lo :| 0 <= lo < |s| && Serialized(s, g, files, k, lo) && VisitedBefore(i, j + 1, k, lo) && s[lo].id == x;
    }
  }

  /** A finished row is the start of the next. */
  lemma RowStep(s: seq<Story>, g: Graph<Id>, files: map<Id, set<Path>>, i: nat, k: nat)
    requires i < |s| && k < |s|
    ensures ResourceEdges(s, g, files, k, i, 0) == ResourceEdges(s, g, files, k, i, i + 1)
    ensures ResourceEdges(s, g, files, k, i, |s|) == ResourceEdges(s, g, files, k, i + 1, 0)
  {
  }

  lemma SkipPair(before: seq<Story>, g: Graph<Id>, files: map<Id, set<Path>>, now: seq<Story>, i: nat, j: nat,
                 after: nat)
    requires i < j < |before| && after == j + 1
    requires PairsDone(before, g, files, now, i, j) && !Contend(before, g, files, i, j)
    ensures PairsDone(before, g, files, now, i, after)
  {
    forall k | 0 <= k < |before| ensures Gained(before, g, files, now, k, i, after) {
      assert Gained(before, g, files, now, k, i, j);
      PairStep(before, g, files, i, j, k);
    }
  }

  lemma SerializePair(before: seq<Story>, g: Graph<Id>, files: map<Id, set<Path>>, now: seq<Story>, next: seq<Story>,
                      i: nat, j: nat, after: nat, hi: nat, lo: nat)
    requires i < j < |before| && after == j + 1
    requires PairsDone(before, g, files, now, i, j) && Contend(before, g, files, i, j)
    requires (hi == i && lo == j) || (hi == j && lo == i)
    requires RunsFirst(before, lo, hi)
    requires next == now[hi := now[hi].(dependsOn := AppendUnique(now[hi].dependsOn, before[lo].id))]
    ensures PairsDone(before, g, files, next, i, after)
  {
    LessTrichotomy(before[i].id, before[j].id);
    forall k | 0 <= k < |before| ensures Gained(before, g, files, next, k, i, after) {
      assert Gained(before, g, files, now, k, i, j);
      PairStep(before, g, files, i, j, k);
      if k == hi {
        var edges := ResourceEdges(before, g, files, hi, i, j);
        AppendUniqueAppends(before[hi].dependsOn, now[hi].dependsOn, edges, before[lo].id);
      }
    }
  }

  ghost predicate NoConflictBefore(s: seq<Story>, g: Graph<Id>, files: map<Id, set<Path>>, i: nat, j: nat) {
    forall p: nat, q: nat :: Conflict(s, g, files, p, q) ==> !VisitedBefore(i, j, p, q)
  }

  lemma NoConflictRow(s: seq<Story>, g: Graph<Id>, files: map<Id, set<Path>>, i: nat)
    requires i < |s|
    ensures NoConflictBefore(s, g, files, i, 0) ==> NoConflictBefore(s, g, files, i, i + 1)
    ensures NoConflictBefore(s, g, files, i, |s|) ==> NoConflictBefore(s, g, files, i + 1, 0)
  {
  }

  lemma NoConflictStep(s: seq<Story>, g: Graph<Id>, files: map<Id, set<Path>>, i: nat, j: nat, after: nat)
    requires after == j + 1 && NoConflictBefore(s, g, files, i, j) && !Conflict(s, g, files, i, j)
    ensures NoConflictBefore(s, g, files, i, after)
  {
  }

  /** The loop body of Pass 2: a conflict leaves the lists alone, anything else finishes the pair. */
  method HandlePair(norm: Normalizer, stories: array<Story>, i: nat, j: nat, closure: map<Id, set<Id>>,
                    files: map<Id, set<Path>>, ghost before: seq<Story>, ghost after: nat) returns (o: Outcome)
    requires i < j < stories.Length == |before| && after == j + 1 && TablesFor(norm, before, closure, files)
    requires Reached(norm, before, stories[..], i, j)
    modifies stories
    ensures !o.CyclicPartition?
    ensures o.Scheduled? ==> Reached(norm, before, stories[..], i, after)
    ensures o.SameComponentConflict? ==> StoppedAt(norm, before, stories[..], o, i, j)
  {
    ghost var g := StoryGraph(before);
    var a, b := stories[i], stories[j];
    ghost var now := stories[..];
    assert now[i] == a && now[j] == b;
    if !Conflict(before, g, files, i, j) {
      NoConflictStep(before, g, files, i, j, after);
    }
    if b.id in closure[a.id] || a.id in closure[b.id] {
      SkipPair(before, g, files, now, i, j, after);
      return Scheduled;
    }
    var shared := SharedFiles(files[a.id], files[b.id]);
    if shared == [] {
      assert forall f :: f !in files[a.id] * files[b.id];
      SkipPair(before, g, files, now, i, j, after);
      return Scheduled;
    }
    assert shared[0] in files[a.id] * files[b.id];
    if a.componentName == b.componentName {
      o := SameComponentConflict(a.id, b.id, a.componentName, shared);
      assert NamesConflict(norm, before, o, i, j);
      return;
    }
    var pair := Sorted([a.id, b.id]);
    SortedHeadIsLeast([a.id, b.id]);
    LessTrichotomy(a.id, b.id);
    if pair[0] == b.id {
      assert Leq(b.id, a.id);
      stories[i] := a.(dependsOn := AppendUnique(a.dependsOn, b.id));
      SerializePair(before, g, files, now, stories[..], i, j, after, i, j);
    } else {
      assert Less(a.id, b.id);
      stories[j] := b.(dependsOn := AppendUnique(b.dependsOn, a.id));
      SerializePair(before, g, files, now, stories[..], i, j, after, j, i);
    }
    return Scheduled;
  }

  /** Moving between rows of the double loop. */
  lemma RowBounds(before: seq<Story>, g: Graph<Id>, files: map<Id, set<Path>>, now: seq<Story>, i: nat)
    requires i < |before|
    ensures PairsDone(before, g, files, now, i, 0) ==> PairsDone(before, g, files, now, i, i + 1)
    ensures PairsDone(before, g, files, now, i, |before|) ==> PairsDone(before, g, files, now, i + 1, 0)
  {
    var next := i + 1;
    if SameButDeps(before, now) {
      forall k | 0 <= k < |before|
        ensures Gained(before, g, files, now, k, i, 0) ==> Gained(before, g, files, now, k, i, next)
        ensures Gained(before, g, files, now, k, i, |before|) ==> Gained(before, g, files, now, k, next, 0)
      {
        RowStep(before, g, files, i, k);
      }
    }
  }

  /**
   Pass 2 on the lists as Pass 1 left them: either every pair is handled, or the
   loop stops at the first conflict with the earlier pairs' edges in place.
   */
  method ApplyResourceEdges(norm: Normalizer, stories: array<Story>) returns (o: Outcome)
    modifies stories
    ensures PassTwo(norm, old(stories[..]), stories[..], o)
  {
    ghost var before := stories[..];
    var closure, files := BuildTables(norm, stories[..]);
    NothingDone(before, StoryGraph(before), files);
    var i := 0;
    while i < stories.Length
      invariant i <= stories.Length
      invariant Reached(norm, before, stories[..], i, 0)
    {
      var next := i + 1;
      ghost var stop;
      o, stop := ApplyRow(norm, stories, i, closure, files, before, next);
      if o.SameComponentConflict? {
        assert StoppedAt(norm, before, stories[..], o, i, stop);
        return;
      }
      i := next;
    }
    LastRow(norm, before, stories[..], i);
    o := Scheduled;
  }

  lemma LastRow(norm: Normalizer, before: seq<Story>, now: seq<Story>, i: nat)
    requires i == |before| && Reached(norm, before, now, i, 0)
    ensures PassTwo(norm, before, now, Scheduled)
  {
  }

  /** The inner loop: story `i` against every later story, ending at the row `next`. */
  method ApplyRow(norm: Normalizer, stories: array<Story>, i: nat, closure: map<Id, set<Id>>, files: map<Id, set<Path>>,
                  ghost before: seq<Story>, next: nat) returns (o: Outcome, ghost stop: nat)
    requires i < stories.Length == |before| && next == i + 1 && TablesFor(norm, before, closure, files)
    requires Reached(norm, before, stories[..], i, 0)
    modifies stories
    ensures !o.CyclicPartition?
    ensures o.Scheduled? ==> Reached(norm, before, stories[..], next, 0)
    ensures o.SameComponentConflict? ==> StoppedAt(norm, before, stories[..], o, i, stop)
  {
    EnterRow(norm, before, stories[..], i, next);
    stop := 0;
    var j := next;
    while j < stories.Length
      invariant i < j <= stories.Length
      invariant Reached(norm, before, stories[..], i, j)
    {
      var after := j + 1;
      o := HandlePair(norm, stories, i, j, closure, files, before, after);
      if o.SameComponentConflict? {
        stop := j;
        return;
      }
      j := after;
    }
    LeaveRow(norm, before, stories[..], i, j, next);
    o := Scheduled;
  }

  lemma EnterRow(norm: Normalizer, before: seq<Story>, now: seq<Story>, i: nat, next: nat)
    requires i < |before| && next == i + 1 && Reached(norm, before, now, i, 0)
    ensures Reached(norm, before, now, i, next)
  {
    RowBounds(before, StoryGraph(before), FileTable(norm, before), now, i);
    NoConflictRow(before, StoryGraph(before), FileTable(norm, before), i);
  }

  lemma LeaveRow(norm: Normalizer, before: seq<Story>, now: seq<Story>, i: nat, last: nat, next: nat)
    requires i < |before| && last == |before| && next == i + 1 && Reached(norm, before, now, i, last)
    ensures Reached(norm, before, now, next, 0)
  {
    RowBounds(before, StoryGraph(before), FileTable(norm, before), now, i);
    NoConflictRow(before, StoryGraph(before), FileTable(norm, before), i);
  }

  /** Pairs before (i, j) are handled, and none of them is a conflict. */
  ghost predicate Reached(norm: Normalizer, before: seq<Story>, now: seq<Story>, i: nat, j: nat) {
    && PairsDone(before, StoryGraph(before), FileTable(norm, before), now, i, j)
    && NoConflictBefore(before, StoryGraph(before), FileTable(norm, before), i, j)
  }

  /** The error names the pair (i, j), which is a conflict, and the files it shares. */
  ghost predicate NamesConflict(norm: Normalizer, before: seq<Story>, o: Outcome, i: nat, j: nat) {
    && Conflict(before, StoryGraph(before), FileTable(norm, before), i, j)
    && o.SameComponentConflict?
    && o.a == before[i].id && o.b == before[j].id && o.component == before[i].componentName
    && StrictlySorted(o.shared)
    && (forall f :: f in o.shared <==> f in FileTable(norm, before)[o.a] && f in FileTable(norm, before)[o.b])
  }

  /** Pass 2 stopped at (i, j), the first conflict. */
  ghost predicate StoppedAt(norm: Normalizer, before: seq<Story>, after: seq<Story>, o: Outcome, i: nat, j: nat) {
    NamesConflict(norm, before, o, i, j) && Reached(norm, before, after, i, j)
  }

  /** Both ways Pass 2 can end. */
  ghost predicate PassTwo(norm: Normalizer, before: seq<Story>, after: seq<Story>, o: Outcome) {
    match o
    case Scheduled => Reached(norm, before, after, |before|, 0)
    case SameComponentConflict(_, _, _, _) => exists i: nat, j: nat :: StoppedAt(norm, before, after, o, i, j)
    case CyclicPartition(_) => false
  }

  lemma NothingDone(s: seq<Story>, g: Graph<Id>, files: map<Id, set<Path>>)
    ensures PairsDone(s, g, files, s, 0, 0) && NoConflictBefore(s, g, files, 0, 0)
  {
    forall k | 0 <= k < |s| ensures Gained(s, g, files, s, k, 0, 0) {
      assert ResourceEdges(s, g, files, k, 0, 0) == {};
    }
  }

  // ----- the three passes together

  /** Pass 2 looks at nothing Pass 1 changed but the graph. */
  lemma OnlyDepsDiffer(norm: Normalizer, before: seq<Story>, mid: seq<Story>)
    requires SameButDeps(before, mid)
    ensures FileTable(norm, mid) == FileTable(norm, before)
    ensures forall g, files, i: nat, j: nat :: Conflict(mid, g, files, i, j) <==> Conflict(before, g, files, i, j)
    ensures forall g, files, k: nat, i: nat, j: nat ::
      ResourceEdges(mid, g, files, k, i, j) == ResourceEdges(before, g, files, k, i, j)
  {
    assert StoryIds(mid) == StoryIds(before);
    assert FileSets(norm, mid) == FileSets(norm, before);
    forall g, files, k: nat, i: nat, j: nat
      ensures ResourceEdges(mid, g, files, k, i, j) == ResourceEdges(before, g, files, k, i, j)
    {
      assert forall lo: nat :: Serialized(mid, g, files, k, lo) <==> Serialized(before, g, files, k, lo);
    }
  }

  lemma PassesCompose(norm: Normalizer, before: seq<Story>, reqs: seq<Requirement>, mid: seq<Story>, after: seq<Story>,
                      i: nat, j: nat)
    requires SemanticallyExtended(before, reqs, mid)
    requires PairsDone(mid, SemanticGraph(before, reqs), FileTable(norm, before), after, i, j)
    ensures EdgesAdded(norm, before, reqs, after, i, j)
  {
    OnlyDepsDiffer(norm, before, mid);
    var g, files := SemanticGraph(before, reqs), FileTable(norm, before);
    forall k | 0 <= k < |before| ensures
      Appended(before[k].dependsOn, after[k].dependsOn,
               SemanticEdges(before[k], before, reqs) + ResourceEdges(before, g, files, k, i, j))
    {
      assert Gained(mid, g, files, after, k, i, j);
      AppendedTwice(before[k].dependsOn, mid[k].dependsOn, after[k].dependsOn,
                    SemanticEdges(before[k], before, reqs), ResourceEdges(mid, g, files, k, i, j));
    }
  }

  lemma ConflictCarries(norm: Normalizer, before: seq<Story>, reqs: seq<Requirement>, mid: seq<Story>,
                        after: seq<Story>, o: Outcome, i: nat, j: nat)
    requires SemanticallyExtended(before, reqs, mid) && StoppedAt(norm, mid, after, o, i, j)
    ensures ReportsConflict(norm, before, reqs, after, o, i, j)
  {
    SemanticPassGraph(before, reqs, mid);
    OnlyDepsDiffer(norm, before, mid);
    PassesCompose(norm, before, reqs, mid, after, i, j);
  }

  lemma AllPairsCarry(norm: Normalizer, before: seq<Story>, reqs: seq<Requirement>, mid: seq<Story>, after: seq<Story>)
    requires SemanticallyExtended(before, reqs, mid) && Reached(norm, mid, after, |mid|, 0)
    ensures EdgesAdded(norm, before, reqs, after, |before|, 0) && ConflictFree(norm, before, reqs)
  {
    SemanticPassGraph(before, reqs, mid);
    OnlyDepsDiffer(norm, before, mid);
    PassesCompose(norm, before, reqs, mid, after, |before|, 0);
    var g, files := SemanticGraph(before, reqs), FileTable(norm, before);
    forall i: nat, j: nat ensures !Conflict(before, g, files, i, j) {
      assert Conflict(mid, g, files, i, j) ==> VisitedBefore(|mid|, 0, i, j);
    }
  }

  lemma NothingToSchedule(norm: Normalizer, reqs: seq<Requirement>)
    ensures Schedules(norm, [], reqs, [], Scheduled)
  {
    FinishedKeysAcyclic(StoryGraph([]), map[]);
  }

  /** Derives every story's dependencies in place. */
  method DeriveStoryScheduling(norm: Normalizer, stories: array<Story>, reqs: seq<Requirement>) returns (o: Outcome)
    modifies stories
    ensures Schedules(norm, old(stories[..]), reqs, stories[..], o)
  {
    if stories.Length == 0 {
      NothingToSchedule(norm, reqs);
      assert stories[..] == [];
      return Scheduled;
    }
    ghost var before := stories[..];
    AddSemanticEdges(stories, reqs);
    ghost var mid := stories[..];
    o := ApplyResourceEdges(norm, stories);
    ghost var after := stories[..];
    if o.SameComponentConflict? {
      ghost var i: nat, j: nat :| StoppedAt(norm, mid, after, o, i, j);
      ConflictCarries(norm, before, reqs, mid, after, o, i, j);
      return;
    }
    AllPairsCarry(norm, before, reqs, mid, after);
    var cycle := DetectCycle(StoryNodes(stories[..]));
    if cycle != [] {
      return CyclicPartition(cycle);
    }
    return Scheduled;
  }
}
