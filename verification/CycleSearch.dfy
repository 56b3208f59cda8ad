/**
 The three-colour depth-first searches over `DependsOn` lists.

 The program writes this search five times. Three shapes differ:
 `PathSearch` keeps the current path so that a cycle can be reported (the
 scheduler), `EdgeSearch` reports only the edge that closed a cycle (the story,
 task and requirement validators), and `StackSearch` tests colours on entry and
 hands its stack down by value (the capability validator).
 */
module CycleSearch {
  import opened Graphs
  import opened Tables

  datatype Verdict<+E> = Accepted | Rejected(error: E)

  /** A record that names itself and the records it depends on. */
  datatype Node<V> = Node(id: V, dependsOn: seq<V>)

  function NodeIds<V>(nodes: seq<Node<V>>): (ids: seq<V>)
    ensures |ids| == |nodes| && forall i :: 0 <= i < |nodes| ==> ids[i] == nodes[i].id
  {
    seq(|nodes|, i requires 0 <= i < |nodes| => nodes[i].id)
  }

  function NodeDeps<V>(nodes: seq<Node<V>>): (deps: seq<seq<V>>)
    ensures |deps| == |nodes| && forall i :: 0 <= i < |nodes| ==> deps[i] == nodes[i].dependsOn
  {
    seq(|nodes|, i requires 0 <= i < |nodes| => nodes[i].dependsOn)
  }

  /** `adj[n.ID] = n.DependsOn` in slice order: the last record with an ID wins. */
  function Adjacency<V(==, !new)>(nodes: seq<Node<V>>): (adj: map<V, seq<V>>)
    ensures forall x :: x in adj <==> x in NodeIds(nodes)
  {
    LastWins(NodeIds(nodes), NodeDeps(nodes))
  }

  /** Absent means white, as reading a Go map gives the zero value. */
  datatype Color = Gray | Black

  predicate Painted<V(==)>(color: map<V, Color>, x: V, c: Color) {
    x in color && color[x] == c
  }

  /** The finished nodes are closed under edges and lie on no cycle. */
  ghost predicate Explored<V(!new)>(g: Graph<V>, color: map<V, Color>) {
    && (forall x, y :: Painted(color, x, Black) && Edge(g, x, y) ==> Painted(color, y, Black))
    && (forall x :: Painted(color, x, Black) ==> !Reach(g, x, x))
  }

  /** A node all of whose successors are finished may be finished. */
  lemma FinishNode<V(!new)>(g: Graph<V>, color: map<V, Color>, id: V)
    requires Explored(g, color) && !Painted(color, id, Black)
    requires forall y :: Edge(g, id, y) ==> Painted(color, y, Black)
    ensures Explored(g, color[id := Black])
  {
    if Reach(g, id, id) {
      var finished := set x | x in color && Painted(color, x, Black);
      ClosedSetHoldsReach(g, finished, id, id);
      assert false;
    }
  }

  /** Only nodes with edges lie on cycles, so finishing every key leaves no cycle. */
  lemma FinishedKeysAcyclic<V(!new)>(g: Graph<V>, color: map<V, Color>)
    requires Explored(g, color)
    requires forall x :: x in g ==> Painted(color, x, Black)
    ensures Acyclic(g)
  {
    forall x ensures !Reach(g, x, x) {
      if Reach(g, x, x) {
        var z := ReachHead(g, x, x);
        assert false;
      }
    }
  }

  /** So a search that finished every listed ID has shown the whole graph acyclic. */
  lemma FinishedIdsAcyclic<V(!new)>(adj: map<V, seq<V>>, ids: seq<V>, color: map<V, Color>)
    requires Explored(EdgesOf(adj), color) && forall x :: x in adj <==> x in ids
    requires forall x :: x in ids ==> Painted(color, x, Black)
    ensures Acyclic(EdgesOf(adj))
  {
    FinishedKeysAcyclic(EdgesOf(adj), color);
  }

  /** Colours only ever change from absent. */
  ghost predicate Keeps<V(!new)>(before: map<V, Color>, after: map<V, Color>) {
    && before.Keys <= after.Keys
    && (forall x :: Painted(before, x, Black) ==> Painted(after, x, Black))
    && (forall x :: Painted(before, x, Gray) <==> Painted(after, x, Gray))
  }

  // ----- the scheduler's search, which extracts the cycle

  /** The grey nodes are the current path, which is a chain without repeats. */
  ghost predicate OnPath<V(!new)>(g: Graph<V>, color: map<V, Color>, path: seq<V>) {
    && (forall x :: Painted(color, x, Gray) <==> x in path)
    && (forall i, j :: 0 <= i < j < |path| ==> path[i] != path[j])
    && Chain(g, path)
    && Explored(g, color)
  }

  /** A search may enter `id` from the end of `path`. */
  ghost predicate Leads<V>(g: Graph<V>, path: seq<V>, id: V) {
    path != [] ==> Edge(g, path[|path| - 1], id)
  }

  lemma EnterNode<V(!new)>(g: Graph<V>, color: map<V, Color>, path: seq<V>, id: V)
    requires OnPath(g, color, path) && id !in color && Leads(g, path, id)
    ensures OnPath(g, color[id := Gray], path + [id])
  {
    var painted := color[id := Gray];
    forall x ensures Painted(painted, x, Gray) <==> x in path + [id] {
      assert Painted(color, x, Gray) <==> x in path;
    }
    assert forall x :: Painted(painted, x, Black) <==> Painted(color, x, Black);
    forall i | 0 <= i < |path| ensures path[i] != id {
      assert Painted(color, path[i], Gray);
    }
    forall i | 0 < i < |path + [id]| ensures Edge(g, (path + [id])[i - 1], (path + [id])[i]) {
      assert i < |path| ==> Edge(g, path[i - 1], path[i]);
    }
  }

  lemma LeaveNode<V(!new)>(g: Graph<V>, color: map<V, Color>, path: seq<V>, id: V)
    requires OnPath(g, color, path + [id])
    requires forall y :: Edge(g, id, y) ==> Painted(color, y, Black)
    ensures OnPath(g, color[id := Black], path)
  {
    var full := path + [id];
    assert full[|path|] == id;
    assert Painted(color, id, Gray);
    FinishNode(g, color, id);
    forall x ensures Painted(color[id := Black], x, Gray) <==> x in path {
      assert Painted(color, x, Gray) <==> x in full;
      if x in path {
        var i :| 0 <= i < |path| && path[i] == x;
        assert full[i] == x != full[|path|];
      }
    }
    forall i | 0 < i < |path| ensures Edge(g, path[i - 1], path[i]) {
      assert Edge(g, full[i - 1], full[i]);
    }
    forall i, j | 0 <= i < j < |path| ensures path[i] != path[j] {
      assert full[i] != full[j];
    }
  }

  lemma KeepsAcross<V(!new)>(before: map<V, Color>, id: V, after: map<V, Color>)
    requires id !in before && Keeps(before[id := Gray], after)
    ensures Keeps(before, after[id := Black])
  {
    var entered, left := before[id := Gray], after[id := Black];
    forall x ensures Painted(before, x, Black) ==> Painted(left, x, Black) {
      assert Painted(entered, x, Black) ==> Painted(after, x, Black);
    }
    forall x ensures Painted(before, x, Gray) <==> Painted(left, x, Gray) {
      assert Painted(entered, x, Gray) <==> Painted(after, x, Gray);
    }
  }

  lemma PathCloses<V>(g: Graph<V>, path: seq<V>, start: nat)
    requires Chain(g, path) && start < |path|
    requires Edge(g, path[|path| - 1], path[start])
    ensures ClosedChain(g, path[start..])
  {
    var p := path[start..];
    forall i | 0 < i < |p| ensures Edge(g, p[i - 1], p[i]) {
      assert Edge(g, path[start + i - 1], path[start + i]);
    }
  }

  class PathSearch<V(==, !new)> {
    const adj: map<V, seq<V>>
    ghost const g: Graph<V>
    ghost const universe: set<V>
    var color: map<V, Color>
    var path: seq<V>
    var cycle: seq<V>

    constructor (adj: map<V, seq<V>>)
      ensures Valid() && path == [] && color == map[] && this.adj == adj && g == EdgesOf(adj)
      ensures universe == Targets(adj) + adj.Keys
    {
      this.adj := adj;
      g := EdgesOf(adj);
      universe := Targets(adj) + adj.Keys;
      color, path, cycle := map[], [], [];
    }

    ghost predicate Valid()
      reads this
    {
      && g == EdgesOf(adj)
      && Targets(adj) <= universe && color.Keys <= universe
      && OnPath(g, color, path)
    }

    /** Finishes `id` and everything it reaches, or stops with a closed chain of edges. */
    method Visit(id: V) returns (found: bool)
      requires Valid() && id in universe && id !in color && Leads(g, path, id)
      modifies this
      ensures found ==> ClosedChain(g, cycle)
      ensures !found ==> Valid() && path == old(path) && Painted(color, id, Black) && Keeps(old(color), color)
      decreases universe - color.Keys
    {
      EnterNode(g, color, path, id);
      color := color[id := Gray];
      path := path + [id];
      var deps := Successors(adj, id);
      for k := 0 to |deps|
        invariant Valid() && path == old(path) + [id]
        invariant Keeps(old(color)[id := Gray], color)
        invariant forall m :: 0 <= m < k ==> Painted(color, deps[m], Black)
      {
        var dep := deps[k];
        assert Edge(g, id, dep);
        if Painted(color, dep, Gray) {
          var start := FirstIndex(path, dep);
          cycle := path[start..];
          PathCloses(g, path, start);
          return true;
        } else if dep !in color {
          assert id in old(color)[id := Gray].Keys;
          found := Visit(dep);
          if found {
            return;
          }
        }
      }
      LeaveNode(g, color, old(path), id);
      KeepsAcross(old(color), id, color);
      path := path[..|path| - 1];
      color := color[id := Black];
      return false;
    }

    /** Starts a search at `id` unless it is already finished. */
    method VisitRoot(id: V) returns (found: bool)
      requires Valid() && path == [] && id in universe
      modifies this
      ensures found ==> ClosedChain(g, cycle)
      ensures !found ==> Valid() && path == [] && Painted(color, id, Black) && Keeps(old(color), color)
    {
      if id in color {
        assert !Painted(color, id, Gray);
        return false;
      }
      found := Visit(id);
    }
  }

  /** The search of the current path for a grey node; it always succeeds. */
  method FirstIndex<V(==)>(path: seq<V>, x: V) returns (start: nat)
    requires x in path
    ensures start < |path| && path[start] == x && x !in path[..start]
  {
    start := 0;
    while path[start] != x
      invariant start < |path| && x in path[start..]
      invariant x !in path[..start]
      decreases |path| - start
    {
      assert path[start..] == [path[start]] + path[start + 1..];
      assert path[..start + 1] == path[..start] + [path[start]];
      start := start + 1;
    }
  }

  /**
   The scheduler's cycle detection. The empty sequence stands for nil: it is
   returned exactly when no node reaches itself, and anything else is a closed
   chain of dependencies.
   */
  method DetectCycle<V(==, !new)>(nodes: seq<Node<V>>) returns (cycle: seq<V>)
    ensures cycle == [] <==> Acyclic(EdgesOf(Adjacency(nodes)))
    ensures cycle != [] ==> ClosedChain(EdgesOf(Adjacency(nodes)), cycle)
  {
    var ids := NodeIds(nodes);
    var adj := Tabulate(ids, NodeDeps(nodes));
    var search := new PathSearch(adj);
    for i := 0 to |ids|
      invariant search.Valid() && search.path == [] && fresh(search)
      invariant forall x :: x in ids[..i] ==> Painted(search.color, x, Black)
    {
      PrefixGrows(ids, i);
      var found := search.VisitRoot(ids[i]);
      if found {
        ClosedChainIsCycle(search.g, search.cycle);
        return search.cycle;
      }
    }
    assert ids[..|ids|] == ids;
    FinishedIdsAcyclic(adj, ids, search.color);
    return [];
  }

  // ----- the validators' search, which reports the edge that closes a cycle

  /** `from` depends on `to`, which leads back to `from`. */
  ghost predicate ClosesCycle<V(!new)>(g: Graph<V>, from: V, to: V) {
    Edge(g, from, to) && SameOrBehind(g, to, from)
  }

  class EdgeSearch<V(==, !new)> {
    const adj: map<V, seq<V>>
    ghost const g: Graph<V>
    ghost const universe: set<V>
    var color: map<V, Color>

    constructor (adj: map<V, seq<V>>)
      ensures Valid() && color == map[] && this.adj == adj && g == EdgesOf(adj)
      ensures universe == Targets(adj) + adj.Keys
    {
      this.adj := adj;
      g := EdgesOf(adj);
      universe := Targets(adj) + adj.Keys;
      color := map[];
    }

    ghost predicate Valid()
      reads this
    {
      && g == EdgesOf(adj)
      && Targets(adj) <= universe && color.Keys <= universe
      && Explored(g, color)
    }

    /** Finishes `id` and everything it reaches, or stops at an edge that closes a cycle. */
    method Visit(id: V) returns (v: Verdict<DagError<V>>)
      requires Valid() && id in universe && id !in color
      requires forall x :: Painted(color, x, Gray) ==> Reach(g, x, id)
      modifies this
      ensures v.Rejected? ==> v.error.DependencyCycle? && ClosesCycle(g, v.error.from, v.error.to)
      ensures v.Accepted? ==> Valid() && Painted(color, id, Black) && Keeps(old(color), color)
      decreases universe - color.Keys
    {
      color := color[id := Gray];
      assert forall x :: Painted(color, x, Black) <==> Painted(old(color), x, Black);
      assert forall x :: Painted(color, x, Gray) ==> Painted(old(color), x, Gray) || x == id;
      ghost var entered := color;
      var deps := Successors(adj, id);
      for k := 0 to |deps|
        invariant Valid() && Keeps(entered, color)
        invariant forall m :: 0 <= m < k ==> Painted(color, deps[m], Black)
      {
        var dep := deps[k];
        assert Edge(g, id, dep);
        if Painted(color, dep, Gray) {
          return Rejected(DependencyCycle(id, dep));
        } else if dep !in color {
          forall x | Painted(color, x, Gray) ensures Reach(g, x, dep) {
            EdgeReaches(g, id, dep);
            if x != id {
              ReachTrans(g, x, id, dep);
            }
          }
          assert id in entered.Keys;
          v := Visit(dep);
          if v.Rejected? {
            return;
          }
        }
      }
      assert Painted(entered, id, Gray);
      FinishNode(g, color, id);
      KeepsAcross(old(color), id, color);
      color := color[id := Black];
      return Accepted;
    }

    ghost predicate Idle()
      reads this
    {
      forall x :: !Painted(color, x, Gray)
    }

    /** Starts a search at `id` unless it is already finished. */
    method VisitRoot(id: V) returns (v: Verdict<DagError<V>>)
      requires Valid() && Idle() && id in universe
      modifies this
      ensures v.Rejected? ==> v.error.DependencyCycle? && ClosesCycle(g, v.error.from, v.error.to)
      ensures v.Accepted? ==> Valid() && Idle() && Painted(color, id, Black) && Keeps(old(color), color)
    {
      if id in color {
        assert !Painted(color, id, Gray);
        return Accepted;
      }
      v := Visit(id);
    }
  }

  datatype DagError<V> =
    | SelfDependency(id: V)
    | UnknownDependency(id: V, dep: V)
    | DependencyCycle(from: V, to: V)

  ghost predicate Known<V>(nodes: seq<Node<V>>, id: V) {
    exists i :: 0 <= i < |nodes| && nodes[i].id == id
  }

  ghost predicate ResolvesAt<V(!new)>(nodes: seq<Node<V>>, i: nat)
    requires i < |nodes|
  {
    forall d :: d in nodes[i].dependsOn ==> d != nodes[i].id && Known(nodes, d)
  }

  /** Every dependency names a listed record, and none names its own. */
  ghost predicate ReferencesResolve<V(!new)>(nodes: seq<Node<V>>) {
    forall i :: 0 <= i < |nodes| ==> ResolvesAt(nodes, i)
  }

  lemma ResolveExact<V(!new)>(nodes: seq<Node<V>>)
    ensures ReferencesResolve(nodes) <==>
      forall n, d :: n in nodes && d in n.dependsOn ==> NamesOther(nodes, n, d)
  {
    forall d ensures Known(nodes, d) <==> d in NodeIds(nodes) {
      if Known(nodes, d) {
        var i :| 0 <= i < |nodes| && nodes[i].id == d;
        assert NodeIds(nodes)[i] == d;
      }
    }
    if ReferencesResolve(nodes) {
      forall n, d | n in nodes && d in n.dependsOn ensures NamesOther(nodes, n, d) {
        var i :| 0 <= i < |nodes| && nodes[i] == n;
        assert ResolvesAt(nodes, i);
      }
    } else {
      var i :| 0 <= i < |nodes| && !ResolvesAt(nodes, i);
      var d :| d in nodes[i].dependsOn && (d == nodes[i].id || !Known(nodes, d));
      assert nodes[i] in nodes && !NamesOther(nodes, nodes[i], d);
    }
  }

  ghost predicate NamesOther<V>(nodes: seq<Node<V>>, n: Node<V>, d: V) {
    d != n.id && d in NodeIds(nodes)
  }

  /** References resolve and nothing reaches itself. */
  ghost predicate IsDag<V(!new)>(nodes: seq<Node<V>>) {
    ReferencesResolve(nodes) && Acyclic(EdgesOf(Adjacency(nodes)))
  }

  ghost predicate Lists<V>(nodes: seq<Node<V>>, id: V, dep: V) {
    exists i :: 0 <= i < |nodes| && nodes[i].id == id && dep in nodes[i].dependsOn
  }

  /** The error names a record and a dependency that break `IsDag`. */
  ghost predicate Witnesses<V(!new)>(nodes: seq<Node<V>>, e: DagError<V>) {
    match e
    case SelfDependency(id) => Lists(nodes, id, id)
    case UnknownDependency(id, dep) => Lists(nodes, id, dep) && !Known(nodes, dep)
    case DependencyCycle(from, to) => ClosesCycle(EdgesOf(Adjacency(nodes)), from, to)
  }

  /** The reference checks that run before the search. */
  method CheckReferences<V(==, !new)>(nodes: seq<Node<V>>) returns (v: Verdict<DagError<V>>)
    ensures v.Accepted? <==> ReferencesResolve(nodes)
    ensures v.Rejected? ==> !v.error.DependencyCycle? && Witnesses(nodes, v.error)
  {
    var index := set n | n in nodes :: n.id;
    for i := 0 to |nodes|
      invariant forall m :: 0 <= m < i ==> ResolvesAt(nodes, m)
    {
      var deps := nodes[i].dependsOn;
      for k := 0 to |deps|
        invariant forall m :: 0 <= m < k ==> deps[m] != nodes[i].id && Known(nodes, deps[m])
      {
        if deps[k] == nodes[i].id {
          assert deps[k] in nodes[i].dependsOn && !ResolvesAt(nodes, i);
          return Rejected(SelfDependency(nodes[i].id));
        }
        assert deps[k] in index <==> Known(nodes, deps[k]);
        if deps[k] !in index {
          assert deps[k] in nodes[i].dependsOn && !ResolvesAt(nodes, i);
          return Rejected(UnknownDependency(nodes[i].id, deps[k]));
        }
      }
      assert ResolvesAt(nodes, i);
    }
    return Accepted;
  }

  /** The validators' cycle search over every record. */
  method SearchEdges<V(==, !new)>(nodes: seq<Node<V>>) returns (v: Verdict<DagError<V>>)
    ensures v.Accepted? <==> Acyclic(EdgesOf(Adjacency(nodes)))
    ensures v.Rejected? ==> v.error.DependencyCycle? && Witnesses(nodes, v.error)
  {
    var ids := NodeIds(nodes);
    var adj := Tabulate(ids, NodeDeps(nodes));
    var search := new EdgeSearch(adj);
    for i := 0 to |ids|
      invariant search.Valid() && search.Idle() && fresh(search)
      invariant forall x :: x in ids[..i] ==> Painted(search.color, x, Black)
    {
      PrefixGrows(ids, i);
      v := search.VisitRoot(ids[i]);
      if v.Rejected? {
        EdgeOnCycle(search.g, v.error.from, v.error.to);
        return;
      }
    }
    assert ids[..|ids|] == ids;
    FinishedIdsAcyclic(adj, ids, search.color);
    return Accepted;
  }

  /** The DAG validator shared by stories, tasks and requirements. */
  method ValidateDag<V(==, !new)>(nodes: seq<Node<V>>) returns (v: Verdict<DagError<V>>)
    ensures v.Accepted? <==> IsDag(nodes)
    ensures v.Rejected? ==> Witnesses(nodes, v.error)
    ensures v.Rejected? ==> (v.error.DependencyCycle? <==> ReferencesResolve(nodes))
  {
    v := CheckReferences(nodes);
    if v.Accepted? {
      v := SearchEdges(nodes);
    }
  }

  // ----- the capability search, which tests colours on entry

  datatype StackCycle<V> = StackCycle(stack: seq<V>, name: V)

  /** The reported stack is a dependency chain that leads back to one of its own members. */
  ghost predicate StackCloses<V(!new)>(g: Graph<V>, e: StackCycle<V>) {
    e.name in e.stack && Chain(g, e.stack + [e.name])
  }

  lemma StackClosesCycle<V(!new)>(g: Graph<V>, e: StackCycle<V>)
    requires StackCloses(g, e)
    ensures Reach(g, e.name, e.name)
  {
    var full := e.stack + [e.name];
    var i :| 0 <= i < |e.stack| && e.stack[i] == e.name;
    var tail := full[i..];
    assert Chain(g, tail) by {
      forall k | 0 < k < |tail| ensures Edge(g, tail[k - 1], tail[k]) {
        assert Edge(g, full[i + k - 1], full[i + k]);
      }
    }
    ChainReaches(g, tail, |tail| - 1);
  }

  class StackSearch<V(==, !new)> {
    const adj: map<V, seq<V>>
    ghost const g: Graph<V>
    ghost const universe: set<V>
    var color: map<V, Color>

    constructor (adj: map<V, seq<V>>)
      ensures Valid([]) && color == map[] && this.adj == adj && g == EdgesOf(adj)
      ensures universe == Targets(adj) + adj.Keys
    {
      this.adj := adj;
      g := EdgesOf(adj);
      universe := Targets(adj) + adj.Keys;
      color := map[];
    }

    ghost predicate Valid(stack: seq<V>)
      reads this
    {
      && g == EdgesOf(adj)
      && Targets(adj) <= universe && color.Keys <= universe
      && OnPath(g, color, stack)
    }

    method Visit(name: V, stack: seq<V>) returns (v: Verdict<StackCycle<V>>)
      requires Valid(stack) && name in universe && Leads(g, stack, name)
      modifies this
      ensures v.Rejected? ==> StackCloses(g, v.error)
      ensures v.Accepted? ==> Valid(stack) && Painted(color, name, Black) && Keeps(old(color), color)
      decreases universe - color.Keys
    {
      if Painted(color, name, Gray) {
        StackExtends(g, stack, name);
        return Rejected(StackCycle(stack, name));
      } else if Painted(color, name, Black) {
        return Accepted;
      }
      EnterNode(g, color, stack, name);
      color := color[name := Gray];
      ghost var entered := color;
      var deps := Successors(adj, name);
      for k := 0 to |deps|
        invariant Valid(stack + [name]) && Keeps(entered, color)
        invariant forall m :: 0 <= m < k ==> Painted(color, deps[m], Black)
      {
        assert Edge(g, name, deps[k]) && name in entered.Keys;
        v := Visit(deps[k], stack + [name]);
        if v.Rejected? {
          return;
        }
      }
      LeaveNode(g, color, stack, name);
      KeepsAcross(old(color), name, color);
      color := color[name := Black];
      return Accepted;
    }
  }

  lemma StackExtends<V>(g: Graph<V>, stack: seq<V>, name: V)
    requires Chain(g, stack) && Leads(g, stack, name)
    ensures Chain(g, stack + [name])
  {
    var full := stack + [name];
    forall i | 0 < i < |full| ensures Edge(g, full[i - 1], full[i]) {
      assert i < |stack| ==> Edge(g, stack[i - 1], stack[i]);
    }
  }

  /** The capability cycle check: accepts exactly the acyclic sets. */
  method DetectStackCycle<V(==, !new)>(nodes: seq<Node<V>>) returns (v: Verdict<StackCycle<V>>)
    ensures v.Accepted? <==> Acyclic(EdgesOf(Adjacency(nodes)))
    ensures v.Rejected? ==> StackCloses(EdgesOf(Adjacency(nodes)), v.error)
  {
    var ids := NodeIds(nodes);
    var adj := Tabulate(ids, NodeDeps(nodes));
    var search := new StackSearch(adj);
    for i := 0 to |ids|
      invariant search.Valid([]) && fresh(search)
      invariant forall x :: x in ids[..i] ==> Painted(search.color, x, Black)
    {
      PrefixGrows(ids, i);
      if ids[i] !in search.color {
        v := search.Visit(ids[i], []);
        if v.Rejected? {
          StackClosesCycle(search.g, v.error);
          return;
        }
      } else {
        assert !Painted(search.color, ids[i], Gray);
      }
    }
    assert ids[..|ids|] == ids;
    FinishedIdsAcyclic(adj, ids, search.color);
    return Accepted;
  }
}
