/**
 `GetTree`: the loop entities spawned, directly or not, within a number of hops,
 found level by level over one unchanging store.
 */
module AgentTree {
  import opened Graphs
  import opened Tables

  type EntityId = string

  const SPAWNED := "agentic.loop.spawned"

  /** A stored fact; only string objects can name a child. */
  datatype Object = Text(id: EntityId) | OtherValue
  datatype Triple = Triple(predicateName: string, value: Object)

  /** Whether a string parses as an entity ID. */
  type IdParser = EntityId -> bool

  /** Entities that are stored and can be decoded. */
  type Store = map<EntityId, seq<Triple>>

  predicate NamesChild(parses: IdParser, t: Triple) {
    t.predicateName == SPAWNED && t.value.Text? && parses(t.value.id)
  }

  ghost function SpawnGraph(store: Store, parses: IdParser): (g: Graph<EntityId>)
    ensures forall x, y :: Edge(g, x, y) <==>
      x in store && exists t :: t in store[x] && NamesChild(parses, t) && t.value.id == y
  {
    map x | x in store :: set t | t in store[x] && NamesChild(parses, t) :: t.value.id
  }

  /** A child is named by a text value that parses, under the spawn predicate and no other. */
  lemma SpawnEdgeExact(store: Store, parses: IdParser, x: EntityId, y: EntityId)
    ensures Edge(SpawnGraph(store, parses), x, y) <==>
      x in store && Triple("agentic.loop.spawned", Text(y)) in store[x] && parses(y)
  {
    if Edge(SpawnGraph(store, parses), x, y) {
      var t :| t in store[x] && NamesChild(parses, t) && t.value.id == y;
      assert t == Triple("agentic.loop.spawned", Text(y));
    }
    if x in store && Triple("agentic.loop.spawned", Text(y)) in store[x] && parses(y) {
      assert NamesChild(parses, Triple("agentic.loop.spawned", Text(y)));
    }
  }

  // ----- hop distance

  /** `x` is at most `d` hops from `root`. */
  ghost predicate Within<V(!new)>(g: Graph<V>, root: V, d: nat, x: V) {
    exists n: nat :: n <= d && ReachIn(g, n, root, x)
  }

  /** `x` is exactly `d` hops from `root`, counting by shortest path. */
  ghost predicate AtHop<V(!new)>(g: Graph<V>, root: V, d: nat, x: V) {
    ReachIn(g, d, root, x) && forall n: nat :: n < d ==> !ReachIn(g, n, root, x)
  }

  lemma {:induction false} LastHop<V(!new)>(g: Graph<V>, n: nat, root: V, x: V) returns (p: V)
    requires n > 0 && ReachIn(g, n, root, x)
    ensures ReachIn(g, n - 1, root, p) && Edge(g, p, x)
    decreases n
  {
    var z :| Edge(g, root, z) && ReachIn(g, n - 1, z, x);
    if n == 1 {
      p := root;
    } else {
      p := LastHop(g, n - 1, z, x);
      assert ReachIn(g, n - 1, root, p);
    }
  }

  lemma OneMoreHop<V(!new)>(g: Graph<V>, n: nat, root: V, p: V, x: V)
    requires ReachIn(g, n, root, p) && Edge(g, p, x)
    ensures ReachIn(g, n + 1, root, x)
  {
    assert ReachIn(g, 0, x, x);
    assert ReachIn(g, 1, p, x);
    ReachInTrans(g, n, 1, root, p, x);
  }

  /** Within a hop more: already within, or a child of the last level. */
  lemma NextLevel<V(!new)>(g: Graph<V>, root: V, d: nat, next: nat, x: V)
    requires next == d + 1
    ensures Within(g, root, next, x) <==> Within(g, root, d, x) || exists p :: AtHop(g, root, d, p) && Edge(g, p, x)
  {
    if Within(g, root, next, x) {
      var n: nat :| n <= next && ReachIn(g, n, root, x);
      if n == next {
        var p := LastHop(g, n, root, x);
        if !AtHop(g, root, d, p) {
          var m: nat :| m < d && ReachIn(g, m, root, p);
          OneMoreHop(g, m, root, p, x);
        }
      }
    }
    if p :| AtHop(g, root, d, p) && Edge(g, p, x) {
      OneMoreHop(g, d, root, p, x);
    }
  }

  /** A new member of the next level is exactly one hop further. */
  lemma FirstSeen<V(!new)>(g: Graph<V>, root: V, d: nat, next: nat, p: V, x: V)
    requires next == d + 1 && AtHop(g, root, d, p) && Edge(g, p, x) && !Within(g, root, d, x)
    ensures AtHop(g, root, next, x)
  {
    OneMoreHop(g, d, root, p, x);
  }

  /** Once a level is empty nothing lies beyond it. */
  lemma {:induction false} EmptyLevelEnds<V(!new)>(g: Graph<V>, root: V, d: nat, more: nat, x: V)
    requires d <= more && (forall p :: !AtHop(g, root, d, p)) && Within(g, root, more, x)
    ensures Within(g, root, d, x)
    decreases more - d
  {
    if d < more {
      var less := more - 1;
      if Within(g, root, less, x) {
        EmptyLevelEnds(g, root, d, less, x);
      } else {
        NextLevel(g, root, less, more, x);
        var p :| AtHop(g, root, less, p) && Edge(g, p, x);
        EmptyLevelEnds(g, root, d, less, p);
      }
    }
  }

  // ----- the traversal

  /** The children of one entity that have not been visited, each once. */
  method NewChildren(store: Store, parses: IdParser, eid: EntityId, visited: set<EntityId>)
    returns (added: seq<EntityId>)
    ensures Distinct(added)
    ensures forall y :: y in added <==> Edge(SpawnGraph(store, parses), eid, y) && y !in visited
  {
    added := [];
    if eid !in store {
      return;
    }
    var triples := store[eid];
    for k := 0 to |triples|
      invariant Distinct(added)
      invariant forall y :: y in added <==>
        y !in visited && exists t :: t in triples[..k] && NamesChild(parses, t) && t.value.id == y
    {
      var t := triples[k];
      PrefixGrows(triples, k);
      if NamesChild(parses, t) && t.value.id !in visited && t.value.id !in added {
        added := added + [t.value.id];
      }
    }
    assert triples[..|triples|] == triples;
  }

  ghost predicate ChildOfAny<V(!new)>(g: Graph<V>, level: seq<V>, y: V) {
    exists p :: p in level && Edge(g, p, y)
  }

  /** One level: the unvisited children of all its members, each once. */
  method ExpandLevel(store: Store, parses: IdParser, level: seq<EntityId>, visited0: set<EntityId>)
    returns (next: seq<EntityId>)
    ensures Distinct(next)
    ensures forall y :: y in next <==> y !in visited0 && ChildOfAny(SpawnGraph(store, parses), level, y)
  {
    ghost var g := SpawnGraph(store, parses);
    next := [];
    var visited := visited0;
    for i := 0 to |level|
      invariant Distinct(next)
      invariant forall y :: y in next <==> y !in visited0 && ChildOfAny(g, level[..i], y)
      invariant forall y :: y in visited <==> y in visited0 || y in next
    {
      PrefixGrows(level, i);
      var added := NewChildren(store, parses, level[i], visited);
      LevelGrows(g, level, i);
      DistinctConcat(next, added);
      next := next + added;
      visited := visited + set y | y in added;
    }
    assert level[..|level|] == level;
  }

  lemma LevelGrows<V(!new)>(g: Graph<V>, level: seq<V>, i: nat)
    requires i < |level|
    ensures forall y :: ChildOfAny(g, level[..i + 1], y) <==> ChildOfAny(g, level[..i], y) || Edge(g, level[i], y)
  {
    PrefixGrows(level, i);
    forall y ensures ChildOfAny(g, level[..i + 1], y) <==> ChildOfAny(g, level[..i], y) || Edge(g, level[i], y) {
      if Edge(g, level[i], y) {
        assert level[i] in level[..i + 1];
      }
    }
  }

  /** `hops` gives each listed entity's distance, in non-decreasing order. */
  ghost predicate ByDistance<V(!new)>(g: Graph<V>, root: V, result: seq<V>, hops: seq<nat>) {
    && |hops| == |result|
    && (forall k :: 0 <= k < |result| ==> AtHop(g, root, hops[k], result[k]))
    && (forall j, k :: 0 <= j < k < |hops| ==> hops[j] <= hops[k])
  }

  /** The state between levels: everything within `d` hops is listed, and `level` is the last hop. */
  ghost predicate Levelled<V(!new)>(g: Graph<V>, root: V, d: nat, result: seq<V>, level: seq<V>, hops: seq<nat>) {
    && Distinct(result) && ByDistance(g, root, result, hops)
    && (forall x :: x in result <==> Within(g, root, d, x))
    && (forall x :: x in level <==> AtHop(g, root, d, x))
    && (forall k :: 0 <= k < |hops| ==> hops[k] <= d)
  }

  lemma LevelAdded<V(!new)>(g: Graph<V>, root: V, d: nat, next: nat, result: seq<V>, level: seq<V>, hops: seq<nat>,
                            found: seq<V>, hops': seq<nat>)
    requires Levelled(g, root, d, result, level, hops) && next == d + 1 && Distinct(found)
    requires forall y :: y in found <==> y !in result && ChildOfAny(g, level, y)
    requires hops' == hops + seq(|found|, _ => next)
    ensures Levelled(g, root, next, result + found, found, hops')
  {
    forall x ensures x in found <==> AtHop(g, root, next, x) {
      NextLevel(g, root, d, next, x);
      if x in found {
        var p :| p in level && Edge(g, p, x);
        FirstSeen(g, root, d, next, p, x);
      }
    }
    forall x ensures x in result + found <==> Within(g, root, next, x) {
      NextLevel(g, root, d, next, x);
    }
    DistinctConcat(result, found);
    assert ByDistance(g, root, result + found, hops');
  }

  /**
   The entities within `maxDepth` spawned edges of the root, the root alone when
   that is not positive; each once, nearest first. `hops` witnesses the distances.
   */
  method GetTree(store: Store, parses: IdParser, root: EntityId, maxDepth: int)
    returns (result: seq<EntityId>, ghost hops: seq<nat>)
    ensures Distinct(result) && |result| > 0 && result[0] == root
    ensures forall x :: x in result <==>
      Within(SpawnGraph(store, parses), root, if maxDepth < 0 then 0 else maxDepth, x)
    ensures ByDistance(SpawnGraph(store, parses), root, result, hops)
  {
    ghost var g := SpawnGraph(store, parses);
    var visited := {root};
    var level := [root];
    result := [root];
    hops := [0];
    RootLevel(g, root);
    var depth := 0;
    while depth < maxDepth && |level| > 0
      invariant 0 <= depth && (depth <= maxDepth || depth == 0)
      invariant Levelled(g, root, depth, result, level, hops)
      invariant (forall x :: x in visited <==> x in result) && |result| > 0 && result[0] == root
      decreases maxDepth - depth
    {
      var next := depth + 1;
      var found := ExpandLevel(store, parses, level, visited);
      ghost var hops' := hops + seq(|found|, _ => next);
      LevelAdded(g, root, depth, next, result, level, hops, found, hops');
      result, hops := result + found, hops';
      visited := visited + set y | y in found;
      level := found;
      depth := next;
    }
    ghost var limit: nat := if maxDepth < 0 then 0 else maxDepth;
    forall x ensures x in result <==> Within(g, root, limit, x) {
      Exhausted(g, root, depth, limit, result, level, hops, x);
    }
  }

  lemma RootLevel<V(!new)>(g: Graph<V>, root: V)
    ensures Levelled(g, root, 0, [root], [root], [0])
  {
    assert ReachIn(g, 0, root, root);
    assert forall x :: ReachIn(g, 0, root, x) ==> x == root;
  }

  lemma Exhausted<V(!new)>(g: Graph<V>, root: V, d: nat, limit: nat, result: seq<V>, level: seq<V>, hops: seq<nat>,
                           x: V)
    requires Levelled(g, root, d, result, level, hops) && d <= limit && (d == limit || level == [])
    ensures x in result <==> Within(g, root, limit, x)
  {
    if d < limit && Within(g, root, limit, x) {
      assert forall p :: p !in level;
      EmptyLevelEnds(g, root, d, limit, x);
    }
  }
}
