/**
 The order in which one requirement works through its stories: a sixth depth-first
 search, over the requirement's own stories only, that lists a story when it is
 finished. Dependencies on stories of other requirements are passed over.
 */
module StoryOrder {
  import opened Graphs
  import opened Tables
  import opened CycleSearch
  import opened Plan

  datatype SortResult = Sorted(ids: seq<Id>) | Duplicate(id: Id) | Cyclic(id: Id)

  /** The edges between keys. */
  ghost function Inner<V(!new)>(adj: map<V, seq<V>>): (g: Graph<V>)
    ensures forall x, y :: Edge(g, x, y) <==> Edge(EdgesOf(adj), x, y) && y in adj
  {
    map x | x in adj :: set y | y in adj[x] && y in adj
  }

  /** Passing over edges to other nodes hides no cycle. */
  lemma InnerCycles<V(!new)>(adj: map<V, seq<V>>)
    ensures Acyclic(Inner(adj)) <==> Acyclic(EdgesOf(adj))
  {
    var g, h := Inner(adj), EdgesOf(adj);
    if Acyclic(h) {
      AcyclicWithin(g, h);
    } else if Acyclic(g) {
      var x :| Reach(h, x, x);
      var a, b := CycleUsesNewEdge(g, h, x);
      if b != a {
        var z := ReachHead(h, b, a);
      }
    }
  }

  /** Everything listed comes after its dependencies. */
  ghost predicate DepsFirst<V(!new)>(g: Graph<V>, order: seq<V>) {
    forall k, d :: 0 <= k < |order| && Edge(g, order[k], d) ==> d in order[..k]
  }

  lemma ListNode<V(!new)>(g: Graph<V>, order: seq<V>, id: V)
    requires DepsFirst(g, order) && Distinct(order) && id !in order && forall d :: Edge(g, id, d) ==> d in order
    ensures DepsFirst(g, order + [id]) && Distinct(order + [id])
  {
    var next := order + [id];
    forall k, d | 0 <= k < |next| && Edge(g, next[k], d) ensures d in next[..k] {
      assert next[..k] == order[..k];
      if k == |order| {
        assert order[..k] == order;
      }
    }
  }

  class OrderSearch<V(==, !new)> {
    const adj: map<V, seq<V>>
    ghost const g: Graph<V>
    var color: map<V, Color>
    var sorted: seq<V>

    constructor (adj: map<V, seq<V>>)
      ensures Valid() && color == map[] && this.adj == adj
    {
      this.adj := adj;
      g := Inner(adj);
      color := map[];
      sorted := [];
    }

    /** What is finished is listed, dependencies first. */
    ghost predicate Valid()
      reads this
    {
      && g == Inner(adj) && color.Keys <= adj.Keys && Explored(g, color)
      && (forall x :: x in sorted <==> Painted(color, x, Black))
      && Distinct(sorted) && DepsFirst(g, sorted)
    }

    /** Everything on the way to `id` leads to it. */
    ghost predicate LeadsTo(id: V)
      reads this
    {
      forall x :: Painted(color, x, Gray) ==> Reach(g, x, id)
    }

    /** Lists `id` and everything behind it, or names a node that lies on a cycle. */
    method Visit(id: V) returns (v: Verdict<V>)
      requires Valid() && id in adj && LeadsTo(id)
      modifies this
      ensures v.Rejected? ==> Reach(g, v.error, v.error)
      ensures v.Accepted? ==> Valid() && Painted(color, id, Black) && Keeps(old(color), color)
      decreases adj.Keys - color.Keys
    {
      if Painted(color, id, Gray) {
        return Rejected(id);
      } else if Painted(color, id, Black) {
        return Accepted;
      }
      color := color[id := Gray];
      assert forall x :: Painted(color, x, Black) <==> Painted(old(color), x, Black);
      ghost var entered := color;
      var deps := Successors(adj, id);
      for k := 0 to |deps|
        invariant Valid() && Keeps(entered, color) && id in color.Keys
        invariant forall m :: 0 <= m < k && deps[m] in adj ==> Painted(color, deps[m], Black)
      {
        var dep := deps[k];
        if dep in adj {
          assert Edge(g, id, dep);
          Onward(old(color), id, dep);
          v := Visit(dep);
          if v.Rejected? {
            return;
          }
        }
      }
      assert Painted(entered, id, Gray);
      ListNode(g, sorted, id);
      FinishNode(g, color, id);
      KeepsAcross(old(color), id, color);
      color := color[id := Black];
      sorted := sorted + [id];
      return Accepted;
    }

    /** What led to `id` leads on to its dependency. */
    lemma Onward(before: map<V, Color>, id: V, dep: V)
      requires forall x :: Painted(before, x, Gray) ==> Reach(g, x, id)
      requires id !in before && Keeps(before[id := Gray], color) && Edge(g, id, dep)
      ensures LeadsTo(dep)
    {
      EdgeReaches(g, id, dep);
      forall x | Painted(color, x, Gray) ensures Reach(g, x, dep) {
        assert Painted(before[id := Gray], x, Gray);
        if x != id {
          assert Painted(before, x, Gray);
          ReachTrans(g, x, id, dep);
        }
      }
    }
  }

  /** A listing of the stories, each after the listed stories it depends on. */
  ghost predicate IsStoryOrder(stories: seq<Story>, ids: seq<Id>) {
    && Distinct(ids) && (forall x :: x in ids <==> x in StoryIds(stories))
    && forall k, d :: 0 <= k < |ids| && d in StoryIds(stories) && Edge(StoryGraph(stories), ids[k], d) ==> d in ids[..k]
  }

  method FindDuplicate(ids: seq<Id>) returns (found: bool, id: Id)
    ensures !found <==> Distinct(ids)
    ensures found ==> exists i, j :: 0 <= i < j < |ids| && ids[i] == ids[j] == id
  {
    for i := 0 to |ids|
      invariant Distinct(ids[..i])
    {
      PrefixGrows(ids, i);
      if ids[i] in ids[..i] {
        return true, ids[i];
      }
    }
    assert ids[..|ids|] == ids;
    return false, "";
  }

  /** Sorts exactly the lists without repeated IDs and without cycles; an error names an offender. */
  method TopoSortStoryIds(stories: seq<Story>) returns (r: SortResult)
    ensures r.Sorted? <==> UniqueIds(stories) && Acyclic(StoryGraph(stories))
    ensures r.Sorted? ==> IsStoryOrder(stories, r.ids)
    ensures r.Duplicate? ==> exists i, j :: 0 <= i < j < |stories| && stories[i].id == stories[j].id == r.id
    ensures r.Cyclic? ==> Reach(StoryGraph(stories), r.id, r.id)
  {
    var ids := StoryIds(stories);
    var found, id := FindDuplicate(ids);
    if found {
      ghost var i, j :| 0 <= i < j < |ids| && ids[i] == ids[j] == id;
      assert stories[i].id == stories[j].id == id;
      return Duplicate(id);
    }
    var nodes := StoryNodes(stories);
    assert NodeIds(nodes) == ids;
    var adj := Tabulate(ids, NodeDeps(nodes));
    InnerCycles(adj);
    r := SortAll(ids, adj);
    if r.Cyclic? {
      ReachMonotone(Inner(adj), EdgesOf(adj), r.id, r.id);
    }
  }

  method SortAll(ids: seq<Id>, adj: map<Id, seq<Id>>) returns (r: SortResult)
    requires forall x :: x in adj <==> x in ids
    ensures !r.Duplicate? && (r.Sorted? <==> Acyclic(Inner(adj)))
    ensures r.Sorted? ==> Distinct(r.ids) && (forall x :: x in r.ids <==> x in ids) && DepsFirst(Inner(adj), r.ids)
    ensures r.Cyclic? ==> Reach(Inner(adj), r.id, r.id)
  {
    var search := new OrderSearch(adj);
    for i := 0 to |ids|
      invariant search.Valid() && fresh(search) && forall x :: !Painted(search.color, x, Gray)
      invariant forall x :: x in ids[..i] ==> Painted(search.color, x, Black)
    {
      PrefixGrows(ids, i);
      if ids[i] !in search.color {
        var v := search.Visit(ids[i]);
        if v.Rejected? {
          return Cyclic(v.error);
        }
      } else {
        assert !Painted(search.color, ids[i], Gray);
      }
    }
    assert ids[..|ids|] == ids;
    FinishedKeysAcyclic(search.g, search.color);
    return Sorted(search.sorted);
  }
}
