/**
 Finite directed graphs and reachability by one or more edges.

 The program keeps every dependency relation as a map from an ID to the IDs it
 depends on, where an ID missing from the map has no successors. The reference
 notion that every closure loop and every cycle search is compared with is
 `Reach`: a chain of one or more edges.
 */
module Graphs {

  /** Successor sets. An absent node has no successors. */
  type Graph<V> = map<V, set<V>>

  ghost predicate Edge<V>(g: Graph<V>, x: V, y: V) {
    x in g && y in g[x]
  }

  /** `y` is reached from `x` by exactly `n` edges. */
  ghost predicate ReachIn<V(!new)>(g: Graph<V>, n: nat, x: V, y: V) {
    if n == 0 then x == y else exists z :: Edge(g, x, z) && ReachIn(g, n - 1, z, y)
  }

  /** `y` is reached from `x` by one or more edges. */
  ghost predicate Reach<V(!new)>(g: Graph<V>, x: V, y: V) {
    exists n: nat :: n > 0 && ReachIn(g, n, x, y)
  }

  ghost predicate Acyclic<V(!new)>(g: Graph<V>) {
    forall x :: !Reach(g, x, x)
  }

  /** One of the two nodes is in the other's closure. */
  ghost predicate Ordered<V(!new)>(g: Graph<V>, x: V, y: V) {
    Reach(g, x, y) || Reach(g, y, x)
  }

  ghost predicate SubGraph<V(!new)>(g: Graph<V>, h: Graph<V>) {
    forall x, y :: Edge(g, x, y) ==> Edge(h, x, y)
  }

  /** Every consecutive pair of `p` is an edge. */
  ghost predicate Chain<V>(g: Graph<V>, p: seq<V>) {
    forall i :: 0 < i < |p| ==> Edge(g, p[i - 1], p[i])
  }

  /** A non-empty chain whose last node leads back to its first. */
  ghost predicate ClosedChain<V>(g: Graph<V>, p: seq<V>) {
    |p| > 0 && Chain(g, p) && Edge(g, p[|p| - 1], p[0])
  }

  /** The set graph behind adjacency lists. */
  ghost function EdgesOf<V(!new)>(adj: map<V, seq<V>>): (g: Graph<V>)
    ensures forall x, y :: Edge(g, x, y) <==> x in adj && y in adj[x]
  {
    map x | x in adj :: set y | y in adj[x]
  }

  /** Every node an adjacency map mentions as a successor. */
  ghost function Targets<V(!new)>(adj: map<V, seq<V>>): (s: set<V>)
    ensures forall x, y :: x in adj && y in adj[x] ==> y in s
  {
    set x, y | x in adj && y in adj[x] :: y
  }

  /** `adj[x]` of a Go map: absent keys read as the empty list. */
  function Successors<K(==), V>(adj: map<K, seq<V>>, x: K): (s: seq<V>) {
    if x in adj then adj[x] else []
  }

  // ----- composing reachability

  lemma EdgeReaches<V(!new)>(g: Graph<V>, x: V, y: V)
    requires Edge(g, x, y)
    ensures Reach(g, x, y)
  {
    assert ReachIn(g, 0, y, y);
    assert ReachIn(g, 1, x, y);
  }

  lemma {:induction false} ReachInTrans<V(!new)>(g: Graph<V>, m: nat, n: nat, x: V, y: V, z: V)
    requires ReachIn(g, m, x, y) && ReachIn(g, n, y, z)
    ensures ReachIn(g, m + n, x, z)
    decreases m
  {
    if m > 0 {
      var w :| Edge(g, x, w) && ReachIn(g, m - 1, w, y);
      ReachInTrans(g, m - 1, n, w, y, z);
      assert ReachIn(g, m + n - 1, w, z);
    }
  }

  lemma ReachTrans<V(!new)>(g: Graph<V>, x: V, y: V, z: V)
    requires Reach(g, x, y) && Reach(g, y, z)
    ensures Reach(g, x, z)
  {
    var m: nat :| m > 0 && ReachIn(g, m, x, y);
    var n: nat :| n > 0 && ReachIn(g, n, y, z);
    ReachInTrans(g, m, n, x, y, z);
  }

  /** Every chain starts with an edge. */
  lemma ReachHead<V(!new)>(g: Graph<V>, x: V, y: V) returns (z: V)
    requires Reach(g, x, y)
    ensures Edge(g, x, z) && (z == y || Reach(g, z, y))
  {
    var n: nat :| n > 0 && ReachIn(g, n, x, y);
    z :| Edge(g, x, z) && ReachIn(g, n - 1, z, y);
  }

  /** Every chain ends with an edge. */
  lemma ReachTail<V(!new)>(g: Graph<V>, x: V, y: V) returns (z: V)
    requires Reach(g, x, y)
    ensures Edge(g, z, y)
  {
    var n: nat :| n > 0 && ReachIn(g, n, x, y);
    z := ReachInTail(g, n, x, y);
  }

  lemma {:induction false} ReachInTail<V(!new)>(g: Graph<V>, n: nat, x: V, y: V) returns (z: V)
    requires n > 0 && ReachIn(g, n, x, y)
    ensures Edge(g, z, y)
    decreases n
  {
    z :| Edge(g, x, z) && ReachIn(g, n - 1, z, y);
    if n > 1 {
      z := ReachInTail(g, n - 1, z, y);
    } else {
      z := x;
    }
  }

  /** A set that holds the successors of `x` and is closed under edges holds all that `x` reaches. */
  lemma ClosedSetHoldsReach<V(!new)>(g: Graph<V>, s: set<V>, x: V, y: V)
    requires forall z :: Edge(g, x, z) ==> z in s
    requires forall z, w :: z in s && Edge(g, z, w) ==> w in s
    requires Reach(g, x, y)
    ensures y in s
  {
    var n: nat :| n > 0 && ReachIn(g, n, x, y);
    var z :| Edge(g, x, z) && ReachIn(g, n - 1, z, y);
    ClosedSetHoldsReachIn(g, s, n - 1, z, y);
  }

  lemma {:induction false} ClosedSetHoldsReachIn<V(!new)>(g: Graph<V>, s: set<V>, n: nat, x: V, y: V)
    requires x in s
    requires forall z, w :: z in s && Edge(g, z, w) ==> w in s
    requires ReachIn(g, n, x, y)
    ensures y in s
    decreases n
  {
    if n > 0 {
      var z :| Edge(g, x, z) && ReachIn(g, n - 1, z, y);
      ClosedSetHoldsReachIn(g, s, n - 1, z, y);
    }
  }

  /** Adding edges never removes an ordering. */
  lemma ReachMonotone<V(!new)>(g: Graph<V>, h: Graph<V>, x: V, y: V)
    requires SubGraph(g, h) && Reach(g, x, y)
    ensures Reach(h, x, y)
  {
    var n: nat :| n > 0 && ReachIn(g, n, x, y);
    ReachInMonotone(g, h, n, x, y);
  }

  lemma {:induction false} ReachInMonotone<V(!new)>(g: Graph<V>, h: Graph<V>, n: nat, x: V, y: V)
    requires SubGraph(g, h) && ReachIn(g, n, x, y)
    ensures ReachIn(h, n, x, y)
    decreases n
  {
    if n > 0 {
      var z :| Edge(g, x, z) && ReachIn(g, n - 1, z, y);
      ReachInMonotone(g, h, n - 1, z, y);
      assert Edge(h, x, z);
    }
  }

  // ----- cycles

  lemma {:induction false} ChainReaches<V(!new)>(g: Graph<V>, p: seq<V>, j: nat)
    requires Chain(g, p) && 0 < j < |p|
    ensures Reach(g, p[0], p[j])
    decreases j
  {
    EdgeReaches(g, p[j - 1], p[j]);
    if j > 1 {
      ChainReaches(g, p, j - 1);
      ReachTrans(g, p[0], p[j - 1], p[j]);
    }
  }

  lemma ClosedChainIsCycle<V(!new)>(g: Graph<V>, p: seq<V>)
    requires ClosedChain(g, p)
    ensures Reach(g, p[0], p[0])
  {
    var last := |p| - 1;
    EdgeReaches(g, p[last], p[0]);
    if last > 0 {
      ChainReaches(g, p, last);
      ReachTrans(g, p[0], p[last], p[0]);
    }
  }

  lemma AcyclicWithin<V(!new)>(g: Graph<V>, h: Graph<V>)
    requires SubGraph(g, h) && Acyclic(h)
    ensures Acyclic(g)
  {
    forall x ensures !Reach(g, x, x) {
      if Reach(g, x, x) {
        ReachMonotone(g, h, x, x);
      }
    }
  }

  /** `y` is `x` or is reached from it. */
  ghost predicate SameOrBehind<V(!new)>(g: Graph<V>, x: V, y: V) {
    x == y || Reach(g, x, y)
  }

  lemma BehindTrans<V(!new)>(g: Graph<V>, x: V, y: V, z: V)
    requires SameOrBehind(g, x, y) && SameOrBehind(g, y, z)
    ensures SameOrBehind(g, x, z)
  {
    if x != y && y != z {
      ReachTrans(g, x, y, z);
    }
  }

  /** A chain of `h` is a chain of `g` or passes an edge that `g` lacks. */
  lemma {:induction false} ChainUsesNewEdge<V(!new)>(g: Graph<V>, h: Graph<V>, n: nat, x: V, y: V)
    returns (found: bool, a: V, b: V)
    requires ReachIn(h, n, x, y)
    ensures !found ==> ReachIn(g, n, x, y)
    ensures found ==> Edge(h, a, b) && !Edge(g, a, b) && SameOrBehind(h, x, a) && SameOrBehind(h, b, y)
    decreases n
  {
    found, a, b := false, x, y;
    if n > 0 {
      var rest := n - 1;
      var z :| Edge(h, x, z) && ReachIn(h, rest, z, y);
      EdgeReaches(h, x, z);
      found, a, b := ChainUsesNewEdge(g, h, rest, z, y);
      if found {
        BehindTrans(h, x, z, a);
      } else if !Edge(g, x, z) {
        found, a, b := true, x, z;
        assert rest > 0 ==> Reach(h, z, y);
      }
    }
  }

  /** Every cycle passes an edge that an acyclic relation lacks, and that edge's target leads back to its source. */
  lemma CycleUsesNewEdge<V(!new)>(g: Graph<V>, h: Graph<V>, x: V) returns (a: V, b: V)
    requires Acyclic(g) && Reach(h, x, x)
    ensures Edge(h, a, b) && !Edge(g, a, b) && SameOrBehind(h, b, a)
  {
    var n: nat :| n > 0 && ReachIn(h, n, x, x);
    var found;
    found, a, b := ChainUsesNewEdge(g, h, n, x, x);
    assert !found ==> Reach(g, x, x);
    BehindTrans(h, b, x, a);
  }

  lemma EdgeOnCycle<V(!new)>(g: Graph<V>, a: V, b: V)
    requires Edge(g, a, b) && SameOrBehind(g, b, a)
    ensures Reach(g, a, a)
  {
    EdgeReaches(g, a, b);
    if a != b {
      ReachTrans(g, a, b, a);
    }
  }

  /** A relation along whose edges a measure falls has no cycle. */
  lemma DescendingIsAcyclic<V(!new)>(g: Graph<V>, rank: V -> int)
    requires forall x, y :: Edge(g, x, y) ==> rank(y) < rank(x)
    ensures Acyclic(g)
  {
    forall x | Reach(g, x, x) ensures false {
      var n: nat :| n > 0 && ReachIn(g, n, x, x);
      ReachInDescends(g, rank, n, x, x);
    }
  }

  lemma {:induction false} ReachInDescends<V(!new)>(g: Graph<V>, rank: V -> int, n: nat, x: V, y: V)
    requires forall z, w :: Edge(g, z, w) ==> rank(w) < rank(z)
    requires ReachIn(g, n, x, y)
    ensures rank(y) + n <= rank(x)
    decreases n
  {
    if n > 0 {
      var z :| Edge(g, x, z) && ReachIn(g, n - 1, z, y);
      ReachInDescends(g, rank, n - 1, z, y);
    }
  }

  /** The same for a pair of measures, the first deciding. */
  lemma DescendingPairsAcyclic<V(!new)>(g: Graph<V>, major: V -> int, minor: V -> int)
    requires forall x, y :: Edge(g, x, y) ==> major(y) < major(x) || (major(y) == major(x) && minor(y) < minor(x))
    ensures Acyclic(g)
  {
    forall x | Reach(g, x, x) ensures false {
      var n: nat :| n > 0 && ReachIn(g, n, x, x);
      ReachInPairDescends(g, major, minor, n, x, x);
    }
  }

  lemma {:induction false} ReachInPairDescends<V(!new)>(g: Graph<V>, major: V -> int, minor: V -> int, n: nat, x: V,
                                                        y: V)
    requires forall z, w :: Edge(g, z, w) ==> major(w) < major(z) || (major(w) == major(z) && minor(w) < minor(z))
    requires ReachIn(g, n, x, y)
    ensures major(y) < major(x) || (major(y) == major(x) && minor(y) + n <= minor(x))
    decreases n
  {
    if n > 0 {
      var z :| Edge(g, x, z) && ReachIn(g, n - 1, z, y);
      ReachInPairDescends(g, major, minor, n - 1, z, y);
    }
  }

  /** The nodes of `s` that `x` reaches. */
  ghost function Below<V(!new)>(g: Graph<V>, s: set<V>, x: V): set<V> {
    set y | y in s && Reach(g, x, y)
  }

  /** In an acyclic graph the number of nodes reached is a topological rank. */
  lemma BelowShrinks<V(!new)>(g: Graph<V>, s: set<V>, x: V, y: V)
    requires Acyclic(g) && y in s && Reach(g, x, y)
    ensures |Below(g, s, y)| < |Below(g, s, x)|
  {
    forall z | z in Below(g, s, y) ensures z in Below(g, s, x) {
      ReachTrans(g, x, y, z);
    }
    assert Below(g, s, y) <= Below(g, s, x) - {y};
    SubsetSize(Below(g, s, y), Below(g, s, x) - {y});
  }

  lemma {:induction false} SubsetSize<V>(a: set<V>, b: set<V>)
    requires a <= b
    ensures |a| <= |b|
    decreases a
  {
    if a != {} {
      var x :| x in a;
      SubsetSize(a - {x}, b - {x});
    }
  }

  /** Among the nodes of a non-empty set that lies on no cycle, one has no edge into the set. */
  lemma {:induction false} SinkExists<V(!new)>(g: Graph<V>, s: set<V>) returns (sink: V)
    requires s != {}
    requires forall x :: x in s ==> !Reach(g, x, x)
    ensures sink in s && forall y :: y in s ==> !Edge(g, sink, y)
    decreases |s|
  {
    var x :| x in s;
    var below := Below(g, s, x);
    if below == {} {
      sink := x;
      forall y | y in s ensures !Edge(g, x, y) {
        assert y !in below;
        if Edge(g, x, y) {
          EdgeReaches(g, x, y);
        }
      }
    } else {
      SubsetSize(below, s - {x});
      sink := SinkExists(g, below);
      forall y | y in s ensures !Edge(g, sink, y) {
        if Edge(g, sink, y) {
          EdgeReaches(g, sink, y);
          ReachTrans(g, x, sink, y);
        }
      }
    }
  }
}
