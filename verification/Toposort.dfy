/**
 Kahn's algorithm as plan assembly writes it: repeated scans of the node list,
 with in-degree counters decremented in place. `Scans` is the same sort without
 counters; the order in which it breaks ties is proved about it.
 */
module Toposort {
  import opened Graphs
  import opened Tables

  /** How many entries of `ds` are in `s`. */
  ghost function CountIn<V>(ds: seq<V>, s: set<V>): nat {
    if ds == [] then 0 else CountIn(ds[..|ds| - 1], s) + if ds[|ds| - 1] in s then 1 else 0
  }

  lemma {:induction false} CountZero<V>(ds: seq<V>, s: set<V>)
    ensures CountIn(ds, s) == 0 <==> forall d :: d in ds ==> d !in s
    decreases |ds|
  {
    if ds != [] {
      var n := |ds| - 1;
      CountZero(ds[..n], s);
      assert ds == ds[..n] + [ds[n]];
    }
  }

  /** Removing `x` from the set removes its occurrences from the count. */
  lemma {:induction false} CountWithout<V>(ds: seq<V>, s: set<V>, x: V)
    requires x in s
    ensures CountIn(ds, s - {x}) == CountIn(ds, s) - CountIn(ds, {x})
    decreases |ds|
  {
    if ds != [] {
      CountWithout(ds[..|ds| - 1], s, x);
    }
  }

  /** Everything listed has all its dependencies listed before it. */
  ghost predicate PrereqsFirst<V(!new)>(order: seq<V>, adj: map<V, seq<V>>) {
    forall k, d :: 0 <= k < |order| && d in Successors(adj, order[k]) ==> d in order[..k]
  }

  /** Dependencies stay within the listed nodes. */
  ghost predicate Within<V(!new)>(nodes: seq<V>, adj: map<V, seq<V>>) {
    && (forall x :: x in adj ==> x in nodes)
    && (forall x, d :: x in adj && d in adj[x] ==> d in nodes)
  }

  /** Placed nodes are those no longer remaining; each counter counts the remaining dependencies. */
  ghost predicate Progress<V(!new)>(nodes: seq<V>, adj: map<V, seq<V>>, remaining: set<V>, indegree: map<V, int>,
                                    result: seq<V>) {
    && (forall x :: x in remaining ==> x in nodes)
    && (forall x :: x in result <==> x in nodes && x !in remaining)
    && Distinct(result)
    && (forall m :: m in nodes ==> m in indegree && indegree[m] == CountIn(Successors(adj, m), remaining))
    && PrereqsFirst(result, adj)
  }

  /** The inner double loop: every occurrence of `id` in a dependency list lowers that node's counter. */
  method Decrement<V(==, !new)>(nodes: seq<V>, adj: map<V, seq<V>>, id: V, before: map<V, int>)
    returns (after: map<V, int>)
    requires Distinct(nodes) && forall m :: m in nodes ==> m in before
    ensures forall m :: m in nodes ==> m in after && after[m] == before[m] - CountIn(Successors(adj, m), {id})
  {
    after := before;
    for i := 0 to |nodes|
      invariant forall k :: 0 <= k < |nodes| ==> nodes[k] in after
      invariant forall k :: 0 <= k < i ==>
        after[nodes[k]] == before[nodes[k]] - CountIn(Successors(adj, nodes[k]), {id})
      invariant forall k :: i <= k < |nodes| ==> after[nodes[k]] == before[nodes[k]]
    {
      var m := nodes[i];
      var left := DecrementOne(Successors(adj, m), id, after[m]);
      after := after[m := left];
    }
  }

  method DecrementOne<V(==, !new)>(ds: seq<V>, id: V, count: int) returns (left: int)
    ensures left == count - CountIn(ds, {id})
  {
    left := count;
    for k := 0 to |ds|
      invariant left == count - CountIn(ds[..k], {id})
    {
      assert ds[..k + 1][..k] == ds[..k];
      if ds[k] == id {
        left := left - 1;
      }
    }
    assert ds[..|ds|] == ds;
  }

  /** Placing a node whose counter is zero keeps the state. */
  lemma PlaceNode<V(!new)>(nodes: seq<V>, adj: map<V, seq<V>>, remaining: set<V>, indegree: map<V, int>, result: seq<V>,
                           id: V, lowered: map<V, int>)
    requires Within(nodes, adj) && Progress(nodes, adj, remaining, indegree, result)
    requires id in remaining && indegree[id] <= 0
    requires forall m :: m in nodes ==> m in lowered && lowered[m] == indegree[m] - CountIn(Successors(adj, m), {id})
    ensures Progress(nodes, adj, remaining - {id}, lowered, result + [id])
  {
    forall m | m in nodes ensures lowered[m] == CountIn(Successors(adj, m), remaining - {id}) {
      CountWithout(Successors(adj, m), remaining, id);
    }
    CountZero(Successors(adj, id), remaining);
    var next := result + [id];
    forall k, d | 0 <= k < |next| && d in Successors(adj, next[k]) ensures d in next[..k] {
      if k < |result| {
        assert d in result[..k];
        assert next[..k] == result[..k];
      } else {
        assert d in nodes && d !in remaining;
        assert next[..k] == result;
      }
    }
  }

  // ----- the order, without counters

  /** Not placed yet, with every dependency placed. */
  ghost predicate MayPlace<V(!new)>(adj: map<V, seq<V>>, result: seq<V>, x: V) {
    x !in result && forall d :: d in Successors(adj, x) ==> d in result
  }

  /** The rest of a scan, from position `i` on. */
  ghost function Scan<V(!new)>(nodes: seq<V>, adj: map<V, seq<V>>, i: nat, result: seq<V>): (out: seq<V>)
    requires i <= |nodes|
    ensures result <= out
    ensures out == result || exists x :: x in nodes && x !in result && x in out
    decreases |nodes| - i
  {
    if i == |nodes| then result
    else
      var next := if MayPlace(adj, result, nodes[i]) then result + [nodes[i]] else result;
      assert next != result ==> nodes[i] in next;
      Scan(nodes, adj, i + 1, next)
  }

  ghost function Unplaced<V>(nodes: seq<V>, result: seq<V>): set<V> {
    set x | x in nodes && x !in result
  }

  lemma ScanShrinks<V>(nodes: seq<V>, result: seq<V>, next: seq<V>)
    requires result <= next && exists x :: x in nodes && x !in result && x in next
    ensures Unplaced(nodes, next) < Unplaced(nodes, result)
  {
    var x :| x in nodes && x !in result && x in next;
    assert x in Unplaced(nodes, result) && x !in Unplaced(nodes, next);
    forall y | y in Unplaced(nodes, next) ensures y in Unplaced(nodes, result) {
      assert next == result + next[|result|..];
    }
  }

  /** Scan until a scan places nothing. */
  ghost function Scans<V(!new)>(nodes: seq<V>, adj: map<V, seq<V>>, result: seq<V>): (out: seq<V>)
    decreases Unplaced(nodes, result)
  {
    var next := Scan(nodes, adj, 0, result);
    if next == result then result
    else
      ScanShrinks(nodes, result, next);
      Scans(nodes, adj, next)
  }

  lemma {:induction false} IdleScan<V(!new)>(nodes: seq<V>, adj: map<V, seq<V>>, i: nat, result: seq<V>)
    requires i <= |nodes| && forall x :: x in nodes ==> x in result
    ensures Scan(nodes, adj, i, result) == result
    decreases |nodes| - i
  {
    if i < |nodes| {
      assert nodes[i] in nodes;
      IdleScan(nodes, adj, i + 1, result);
    }
  }

  // ----- ties break by position

  /** At or behind `x` stands a node that is listed no later than one of its own dependencies. */
  ghost predicate OutOfTurn<V(!new)>(g: Graph<V>, nodes: seq<V>, x: V) {
    exists p, q :: 0 <= p <= q < |nodes| && SameOrBehind(g, x, nodes[p]) && Edge(g, nodes[p], nodes[q])
  }

  /** Whatever is listed before the k-th node placed is placed before it, unless it is out of turn. */
  ghost predicate InTurn<V(!new)>(g: Graph<V>, nodes: seq<V>, result: seq<V>, k: nat)
    requires k < |result|
  {
    forall p, q :: 0 <= p < q < |nodes| && nodes[q] == result[k] && nodes[p] !in result[..k] ==>
      OutOfTurn(g, nodes, nodes[p])
  }

  ghost predicate KeepsListedOrder<V(!new)>(g: Graph<V>, nodes: seq<V>, result: seq<V>) {
    forall k :: 0 <= k < |result| ==> InTurn(g, nodes, result, k)
  }

  /** Whatever the scan has passed without its being placed is out of turn. */
  ghost predicate PassedOver<V(!new)>(g: Graph<V>, nodes: seq<V>, i: nat, result: seq<V>) {
    forall p :: 0 <= p < |nodes| && p < i && nodes[p] !in result ==> OutOfTurn(g, nodes, nodes[p])
  }

  lemma PlacedInTurn<V(!new)>(g: Graph<V>, nodes: seq<V>, i: nat, result: seq<V>)
    requires Distinct(nodes) && i < |nodes| && KeepsListedOrder(g, nodes, result) && PassedOver(g, nodes, i, result)
    ensures KeepsListedOrder(g, nodes, result + [nodes[i]])
  {
    var next := result + [nodes[i]];
    forall k | 0 <= k < |next| ensures InTurn(g, nodes, next, k) {
      assert next[..k] == result[..k];
      if k < |result| {
        assert InTurn(g, nodes, result, k);
      } else {
        assert result[..k] == result;
      }
    }
  }

  lemma NotPlacedOutOfTurn<V(!new)>(nodes: seq<V>, adj: map<V, seq<V>>, i: nat, result: seq<V>)
    requires Within(nodes, adj) && i < |nodes| && PassedOver(EdgesOf(adj), nodes, i, result)
    requires nodes[i] !in result && !MayPlace(adj, result, nodes[i])
    ensures OutOfTurn(EdgesOf(adj), nodes, nodes[i])
  {
    var g := EdgesOf(adj);
    var d :| d in Successors(adj, nodes[i]) && d !in result;
    assert Edge(g, nodes[i], d) && d in nodes;
    var m :| 0 <= m < |nodes| && nodes[m] == d;
    if m < i {
      var p, q :| 0 <= p <= q < |nodes| && SameOrBehind(g, d, nodes[p]) && Edge(g, nodes[p], nodes[q]);
      EdgeReaches(g, nodes[i], d);
      BehindTrans(g, nodes[i], d, nodes[p]);
    }
  }

  lemma {:induction false} ScanKeepsOrder<V(!new)>(nodes: seq<V>, adj: map<V, seq<V>>, i: nat, result: seq<V>)
    requires Distinct(nodes) && Within(nodes, adj) && i <= |nodes|
    requires KeepsListedOrder(EdgesOf(adj), nodes, result) && PassedOver(EdgesOf(adj), nodes, i, result)
    ensures KeepsListedOrder(EdgesOf(adj), nodes, Scan(nodes, adj, i, result))
    decreases |nodes| - i
  {
    if i < |nodes| {
      var after := i + 1;
      if MayPlace(adj, result, nodes[i]) {
        PlacedInTurn(EdgesOf(adj), nodes, i, result);
        ScanKeepsOrder(nodes, adj, after, result + [nodes[i]]);
      } else {
        if nodes[i] !in result {
          NotPlacedOutOfTurn(nodes, adj, i, result);
        }
        ScanKeepsOrder(nodes, adj, after, result);
      }
    }
  }

  /**
   Ties break by position: a node is overtaken by one listed after it only if it,
   or something it depends on, is listed no later than one of its own dependencies.
   */
  lemma {:induction false} TiesByPosition<V(!new)>(nodes: seq<V>, adj: map<V, seq<V>>, result: seq<V>)
    requires Distinct(nodes) && Within(nodes, adj) && KeepsListedOrder(EdgesOf(adj), nodes, result)
    ensures KeepsListedOrder(EdgesOf(adj), nodes, Scans(nodes, adj, result))
    decreases Unplaced(nodes, result)
  {
    var next := Scan(nodes, adj, 0, result);
    ScanKeepsOrder(nodes, adj, 0, result);
    if next != result {
      ScanShrinks(nodes, result, next);
      TiesByPosition(nodes, adj, next);
    }
  }

  /** A list that already has dependencies first is left as it is. */
  lemma SortedStays<V(!new)>(nodes: seq<V>, adj: map<V, seq<V>>)
    requires Distinct(nodes) && PrereqsFirst(nodes, adj)
    ensures Scans(nodes, adj, []) == nodes
  {
    assert nodes[..0] == [];
    ScanOfSorted(nodes, adj, 0);
    IdleScan(nodes, adj, 0, nodes);
  }

  lemma {:induction false} ScanOfSorted<V(!new)>(nodes: seq<V>, adj: map<V, seq<V>>, i: nat)
    requires Distinct(nodes) && PrereqsFirst(nodes, adj) && i <= |nodes|
    ensures Scan(nodes, adj, i, nodes[..i]) == nodes
    decreases |nodes| - i
  {
    if i < |nodes| {
      PrefixGrows(nodes, i);
      assert MayPlace(adj, nodes[..i], nodes[i]);
      ScanOfSorted(nodes, adj, i + 1);
    } else {
      assert nodes[..i] == nodes;
    }
  }

  // ----- the loops

  /** Every listed node that remains still waits for one that remains. */
  ghost predicate Stuck<V(!new)>(adj: map<V, seq<V>>, remaining: set<V>, listed: seq<V>) {
    forall x :: x in listed && x in remaining ==> CountIn(Successors(adj, x), remaining) > 0
  }

  /** The counter of a remaining node is zero exactly when its dependencies are placed. */
  lemma CounterTells<V(!new)>(nodes: seq<V>, adj: map<V, seq<V>>, remaining: set<V>, indegree: map<V, int>,
                              result: seq<V>, id: V)
    requires Within(nodes, adj) && Progress(nodes, adj, remaining, indegree, result) && id in nodes
    ensures id in remaining && indegree[id] <= 0 <==> MayPlace(adj, result, id)
  {
    CountZero(Successors(adj, id), remaining);
  }

  /** One scan of the node list, placing every node whose counter has reached zero. */
  method ScanOnce<V(==, !new)>(nodes: seq<V>, adj: map<V, seq<V>>, remaining0: set<V>, indegree0: map<V, int>,
                               result0: seq<V>)
    returns (remaining: set<V>, indegree: map<V, int>, result: seq<V>, progressed: bool)
    requires Distinct(nodes) && Within(nodes, adj) && Progress(nodes, adj, remaining0, indegree0, result0)
    ensures Progress(nodes, adj, remaining, indegree, result)
    ensures result == Scan(nodes, adj, 0, result0) && (progressed <==> result != result0)
    ensures progressed ==> remaining < remaining0
    ensures !progressed ==> remaining == remaining0 && Stuck(adj, remaining, nodes)
  {
    remaining, indegree, result, progressed := remaining0, indegree0, result0, false;
    for i := 0 to |nodes|
      invariant Progress(nodes, adj, remaining, indegree, result)
      invariant Scan(nodes, adj, i, result) == Scan(nodes, adj, 0, result0)
      invariant if progressed then remaining < remaining0 else remaining == remaining0
      invariant result0 <= result && (progressed <==> result != result0)
      invariant !progressed ==> Stuck(adj, remaining, nodes[..i])
    {
      var id := nodes[i];
      PrefixGrows(nodes, i);
      CounterTells(nodes, adj, remaining, indegree, result, id);
      if id in remaining && indegree[id] <= 0 {
        var lowered := Decrement(nodes, adj, id, indegree);
        PlaceNode(nodes, adj, remaining, indegree, result, id, lowered);
        remaining, indegree, result, progressed := remaining - {id}, lowered, result + [id], true;
      }
    }
    assert nodes[..|nodes|] == nodes;
  }

  /** The full set of nodes stuck behind each other lies on a cycle. */
  lemma StuckIsCyclic<V(!new)>(adj: map<V, seq<V>>, remaining: set<V>, nodes: seq<V>)
    requires remaining != {} && Stuck(adj, remaining, nodes) && forall x :: x in remaining ==> x in nodes
    ensures !Acyclic(EdgesOf(adj))
  {
    if Acyclic(EdgesOf(adj)) {
      var sink := SinkExists(EdgesOf(adj), remaining);
      CountZero(Successors(adj, sink), remaining);
    }
  }

  /** The position of a listed node. */
  ghost function Position<V>(order: seq<V>, x: V): int {
    if x in order then var i :| 0 <= i < |order| && order[i] == x; i else -1
  }

  /** In an order that lists dependencies first, every edge goes back. */
  lemma EdgeGoesBack<V(!new)>(order: seq<V>, adj: map<V, seq<V>>, x: V, y: V)
    requires Distinct(order) && PrereqsFirst(order, adj) && Edge(EdgesOf(adj), x, y) && x in order
    ensures y in order && Position(order, y) < Position(order, x)
  {
    var k := Position(order, x);
    assert y in Successors(adj, order[k]);
    var j :| 0 <= j < |order[..k]| && order[..k][j] == y;
    assert order[j] == y;
  }

  lemma OrderedIsAcyclic<V(!new)>(order: seq<V>, adj: map<V, seq<V>>)
    requires Distinct(order) && PrereqsFirst(order, adj) && forall x :: x in adj ==> x in order
    ensures Acyclic(EdgesOf(adj))
  {
    var rank := (x: V) => Position(order, x);
    forall x, y | Edge(EdgesOf(adj), x, y) ensures rank(y) < rank(x) {
      EdgeGoesBack(order, adj, x, y);
    }
    DescendingIsAcyclic(EdgesOf(adj), rank);
  }

  /**
   Kahn's sort. The result is what repeated scans place; it lists distinct nodes
   with every dependency before its dependents, and all of them exactly when there
   is no cycle.
   */
  method KahnTopoSort<V(==, !new)>(nodes: seq<V>, adj: map<V, seq<V>>, indegree0: map<V, int>) returns (result: seq<V>)
    requires Distinct(nodes) && Within(nodes, adj)
    requires forall m :: m in nodes ==> m in indegree0 && indegree0[m] == |Successors(adj, m)|
    ensures result == Scans(nodes, adj, [])
    ensures Distinct(result) && PrereqsFirst(result, adj)
    ensures forall x :: x in result ==> x in nodes
    ensures |result| == |nodes| <==> Acyclic(EdgesOf(adj))
    ensures |result| == |nodes| ==> forall x :: x in nodes ==> x in result
  {
    var remaining := set x | x in nodes;
    var indegree := indegree0;
    result := [];
    forall m | m in nodes ensures indegree[m] == CountIn(Successors(adj, m), remaining) {
      CountAll(Successors(adj, m), remaining);
    }
    var progressed := true;
    while remaining != {} && progressed
      invariant Progress(nodes, adj, remaining, indegree, result)
      invariant Scans(nodes, adj, result) == Scans(nodes, adj, [])
      invariant !progressed ==> Stuck(adj, remaining, nodes) && Scan(nodes, adj, 0, result) == result
      decreases |remaining|, progressed
    {
      ghost var before := remaining;
      remaining, indegree, result, progressed := ScanOnce(nodes, adj, remaining, indegree, result);
      if progressed {
        SmallerSet(remaining, before);
      }
    }
    SameLength(result, nodes);
    if remaining == {} {
      IdleScan(nodes, adj, 0, result);
      OrderedIsAcyclic(result, adj);
    } else {
      StuckIsCyclic(adj, remaining, nodes);
      var x :| x in remaining;
      assert x in nodes && x !in result;
    }
  }

  lemma {:induction false} CountAll<V>(ds: seq<V>, s: set<V>)
    requires forall d :: d in ds ==> d in s
    ensures CountIn(ds, s) == |ds|
    decreases |ds|
  {
    if ds != [] {
      CountAll(ds[..|ds| - 1], s);
    }
  }

  lemma SmallerSet<V>(a: set<V>, b: set<V>)
    requires a < b
    ensures |a| < |b|
  {
    var x :| x in b && x !in a;
    SubsetSize(a, b - {x});
  }

  /** A listing of some of the nodes is as long as the nodes exactly when it lists all. */
  lemma SameLength<V(!new)>(a: seq<V>, b: seq<V>)
    requires Distinct(a) && Distinct(b) && forall x :: x in a ==> x in b
    ensures |a| == |b| <==> forall x :: x in b ==> x in a
  {
    DistinctSize(a);
    DistinctSize(b);
    if x :| x in b && x !in a {
      SubsetSize(Members(a), Members(b) - {x});
    } else {
      assert Members(a) == Members(b);
    }
  }
}
