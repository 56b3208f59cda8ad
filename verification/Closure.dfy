/**
 The breadth-first closure loop that the scheduler and the file-ownership
 validator each write out by hand.
 */
module Closure {
  import opened Graphs
  import opened Tables

  /**
   Everything reached from `start` by one or more edges. The queue may hold
   duplicates and IDs the map does not know; the loop ends on cyclic graphs
   because each round either drops a queued ID or marks an unseen one.
   */
  method ReachableSet<V(==, !new)>(adj: map<V, seq<V>>, start: V) returns (seen: set<V>)
    ensures forall y :: y in seen <==> Reach(EdgesOf(adj), start, y)
  {
    ghost var g := EdgesOf(adj);
    ghost var universe := Targets(adj);
    seen := {};
    var queue := Successors(adj, start);
    forall y | y in queue ensures Reach(g, start, y) {
      EdgeReaches(g, start, y);
    }
    while |queue| > 0
      invariant forall y :: y in queue ==> y in universe && Reach(g, start, y)
      invariant seen <= universe
      invariant forall y :: y in seen ==> Reach(g, start, y)
      invariant forall y :: Edge(g, start, y) ==> y in seen || y in queue
      invariant forall x, y :: x in seen && Edge(g, x, y) ==> y in seen || y in queue
      decreases |universe - seen|, |queue|
    {
      var head := queue[0];
      HeadOrTail(queue);
      queue := queue[1..];
      if head !in seen {
        ghost var unseen := universe - seen;
        seen := seen + {head};
        assert universe - seen == unseen - {head};
        forall y | y in Successors(adj, head) ensures Reach(g, start, y) {
          EdgeReaches(g, head, y);
          ReachTrans(g, start, head, y);
        }
        queue := queue + Successors(adj, head);
      }
    }
    forall y | Reach(g, start, y) ensures y in seen {
      ClosedSetHoldsReach(g, seen, start, y);
    }
  }

  /** The closure of every listed ID, keyed by ID. */
  method BuildClosure<V(==, !new)>(ids: seq<V>, adj: map<V, seq<V>>) returns (closure: map<V, set<V>>)
    ensures closure.Keys == set id | id in ids
    ensures forall id, y :: id in closure ==> (y in closure[id] <==> Reach(EdgesOf(adj), id, y))
  {
    closure := map[];
    for i := 0 to |ids|
      invariant forall id :: id in closure <==> id in ids[..i]
      invariant forall id, y :: id in closure ==> (y in closure[id] <==> Reach(EdgesOf(adj), id, y))
    {
      var seen := ReachableSet(adj, ids[i]);
      closure := closure[ids[i] := seen];
      assert ids[..i + 1] == ids[..i] + [ids[i]];
    }
    assert ids[..|ids|] == ids;
  }

  /**
   Everything but `origin` that is reached from it. The origin is dropped
   whenever it is met, which loses nothing: its successors were queued first.
   */
  method ReachableOthers<V(==, !new)>(adj: map<V, seq<V>>, origin: V) returns (visited: set<V>)
    ensures forall y :: y in visited <==> y != origin && Reach(EdgesOf(adj), origin, y)
  {
    ghost var g := EdgesOf(adj);
    ghost var universe := Targets(adj);
    ghost var met := {};
    visited := {};
    var queue := Successors(adj, origin);
    forall y | y in queue ensures Reach(g, origin, y) {
      EdgeReaches(g, origin, y);
    }
    while |queue| > 0
      invariant forall y :: y in queue ==> y in universe
      invariant forall y :: y in queue ==> Reach(g, origin, y)
      invariant forall y :: y in visited <==> y in met && y != origin
      invariant forall y :: y in met ==> Reach(g, origin, y)
      invariant forall y :: Edge(g, origin, y) ==> y in met || y in queue
      invariant forall x, y :: x in met && Edge(g, x, y) ==> y in met || y in queue
      decreases |universe - met|, |queue|
    {
      var head := queue[0];
      HeadOrTail(queue);
      queue := queue[1..];
      if head == origin {
        if head !in met {
          MeetOne(universe, met, head);
          met := met + {head};
        }
      } else if head !in visited {
        MeetOne(universe, met, head);
        met := met + {head};
        visited := visited + {head};
        forall y | y in Successors(adj, head) ensures Reach(g, origin, y) {
          EdgeReaches(g, head, y);
          ReachTrans(g, origin, head, y);
        }
        queue := queue + Successors(adj, head);
      }
    }
    forall y | Reach(g, origin, y) ensures y in met {
      ClosedSetHoldsReach(g, met, origin, y);
    }
  }

  lemma MeetOne<V>(universe: set<V>, met: set<V>, x: V)
    requires x in universe && x !in met
    ensures |universe - (met + {x})| < |universe - met|
  {
    assert universe - (met + {x}) == (universe - met) - {x};
  }

  /** Walking reversed edges finds what reaches the start. */
  lemma ReverseReach<V(!new)>(g: Graph<V>, h: Graph<V>, x: V, y: V)
    requires forall v, w :: Edge(g, v, w) <==> Edge(h, w, v)
    ensures Reach(g, x, y) <==> Reach(h, y, x)
  {
    if Reach(g, x, y) {
      var n: nat :| n > 0 && ReachIn(g, n, x, y);
      ReverseReachIn(g, h, n, x, y);
    }
    if Reach(h, y, x) {
      var n: nat :| n > 0 && ReachIn(h, n, y, x);
      ReverseReachIn(h, g, n, y, x);
    }
  }

  lemma {:induction false} ReverseReachIn<V(!new)>(g: Graph<V>, h: Graph<V>, n: nat, x: V, y: V)
    requires forall v, w :: Edge(g, v, w) ==> Edge(h, w, v)
    requires ReachIn(g, n, x, y)
    ensures ReachIn(h, n, y, x)
    decreases n
  {
    if n > 0 {
      var z :| Edge(g, x, z) && ReachIn(g, n - 1, z, y);
      ReverseReachIn(g, h, n - 1, z, y);
      assert ReachIn(h, 0, x, x);
      assert ReachIn(h, 1, z, x);
      ReachInTrans(h, n - 1, 1, y, z, x);
    }
  }
}
