/**
 runtime/runtime_graph.py: the RuntimeGraph value and its topological order.
 A dependency may name an id that is no runtime node (a phantom): it takes part in the
 sort and is filtered from the result.
 */
module RuntimeGraphs {
  import opened Digraph
  import opened Sequences
  import Specs = SpecRefs
  import TopologicalSort

  type Id = string

  /** The fields of a RuntimeOp that ordering, renaming and the cardinality pass read. */
  datatype RuntimeOp = RuntimeOp(taskType: string, mode: Option<string>, deps: seq<Id>, spec: Specs.Json)

  datatype RuntimeGraph = RuntimeGraph(nodes: map<Id, RuntimeOp>, nodeOrder: seq<Id>)

  ghost predicate OrderIsPermutation(rg: RuntimeGraph) {
    NoDup(rg.nodeOrder) && Elems(rg.nodeOrder) == rg.nodes.Keys
  }

  ghost predicate DependsOn(nodes: map<Id, RuntimeOp>, n: Id, dep: Id) {
    n in nodes && dep in nodes[n].deps
  }

  ghost function DepIds(nodes: map<Id, RuntimeOp>): set<Id> {
    set n, i | n in nodes && 0 <= i < |nodes[n].deps| :: nodes[n].deps[i]
  }

  lemma DepIdsHas(nodes: map<Id, RuntimeOp>, n: Id, dep: Id)
    requires DependsOn(nodes, n, dep)
    ensures dep in DepIds(nodes)
  {
    var i :| 0 <= i < |nodes[n].deps| && nodes[n].deps[i] == dep;
  }

  /** `g` is the dependency graph: an edge from each dependency to its dependents. */
  ghost predicate IsDepGraph(nodes: map<Id, RuntimeOp>, g: map<Id, set<Id>>) {
    && (forall n :: n in g <==> n in nodes || n in DepIds(nodes))
    && (forall d, n :: Edge(g, d, n) <==> DependsOn(nodes, n, d))
  }

  ghost function DepGraph(nodes: map<Id, RuntimeOp>): map<Id, set<Id>> {
    map d | d in nodes.Keys + DepIds(nodes) :: Dependents(nodes, d)
  }

  ghost function Dependents(nodes: map<Id, RuntimeOp>, d: Id): set<Id> {
    set n | n in nodes && d in nodes[n].deps
  }

  lemma DepGraphIs(nodes: map<Id, RuntimeOp>)
    ensures IsDepGraph(nodes, DepGraph(nodes))
    ensures Nodes(DepGraph(nodes)) == nodes.Keys + DepIds(nodes)
  {
    var g := DepGraph(nodes);
    forall d, n ensures Edge(g, d, n) <==> DependsOn(nodes, n, d) {
      if DependsOn(nodes, n, d) {
        DepIdsHas(nodes, n, d);
      }
    }
    forall n | n in Nodes(g) ensures n in nodes.Keys + DepIds(nodes) {
    }
  }

  lemma DepGraphUnique(nodes: map<Id, RuntimeOp>, g: map<Id, set<Id>>)
    requires IsDepGraph(nodes, g)
    ensures g == DepGraph(nodes)
  {
    var h := DepGraph(nodes);
    DepGraphIs(nodes);
    forall d | d in g ensures g[d] == h[d] {
      forall n ensures n in g[d] <==> n in h[d] {
        assert Edge(g, d, n) <==> DependsOn(nodes, n, d);
        assert Edge(h, d, n) <==> DependsOn(nodes, n, d);
      }
    }
  }

  // ----- the order index ------------------------------------------------------------

  /** `{node_id: idx for idx, node_id in enumerate(order)}` */
  function OrderIndex(order: seq<Id>): (m: map<Id, nat>)
    ensures m.Keys == Elems(order)
    ensures forall n :: n in m ==> m[n] < |order| && order[m[n]] == n
  {
    if order == [] then map[]
    else
      var k := |order| - 1;
      OrderIndex(order[..k])[order[k] := k]
  }

  /** `order_index.get(node_id, len(order_index))` */
  function OrderKey(index: map<Id, nat>): Id -> int {
    (n: Id) => if n in index then index[n] else |index|
  }

  // ----- the canonical order ----------------------------------------------------------

  /** Earlier by longest incoming path, then by position in the stored order. */
  ghost predicate Before(rg: RuntimeGraph, x: Id, y: Id) {
    var g, index := DepGraph(rg.nodes), OrderIndex(rg.nodeOrder);
    || Height(g, x) < Height(g, y)
    || (Height(g, x) == Height(g, y) && OrderKey(index)(x) < OrderKey(index)(y))
  }

  ghost predicate IsCanonicalOrder(rg: RuntimeGraph, r: seq<Id>) {
    && NoDup(r) && Elems(r) == rg.nodes.Keys
    && forall i, j :: 0 <= i < j < |r| ==> Before(rg, r[i], r[j])
  }

  predicate RankLess(a: (int, int), b: (int, int)) {
    a.0 < b.0 || (a.0 == b.0 && a.1 < b.1)
  }

  ghost function RanksOf(rg: RuntimeGraph): (f: Id -> (int, int))
    ensures forall x :: f(x) == (Height(DepGraph(rg.nodes), x), OrderKey(OrderIndex(rg.nodeOrder))(x))
  {
    var g, index := DepGraph(rg.nodes), OrderIndex(rg.nodeOrder);
    (x: Id) => (Height(g, x), OrderKey(index)(x))
  }

  /** The order depends on nothing but the graph: no iteration order, no phantom shows in it. */
  lemma CanonicalOrderUnique(rg: RuntimeGraph, r: seq<Id>, s: seq<Id>)
    requires IsCanonicalOrder(rg, r) && IsCanonicalOrder(rg, s)
    ensures r == s
  {
    var ranks := RanksOf(rg);
    StrictOrderUnique(r, s, (x: Id, y: Id) => RankLess(ranks(x), ranks(y)));
  }

  /** A canonical order puts every dependency that is a runtime node before its dependents. */
  ghost predicate RespectsDeps(rg: RuntimeGraph, r: seq<Id>) {
    forall i, j :: 0 <= i < |r| && 0 <= j < |r| && DependsOn(rg.nodes, r[j], r[i]) ==> i < j
  }

  // ----- the method ----------------------------------------------------------------------

  /** The loop state: the edges of the nodes in `done` are in the graph. */
  ghost predicate PartialDepGraph(nodes: map<Id, RuntimeOp>, done: set<Id>, g: map<Id, set<Id>>) {
    && nodes.Keys <= g.Keys <= nodes.Keys + DepIds(nodes)
    && (forall d, n {:trigger Edge(g, d, n)} :: Edge(g, d, n) <==> n in done && DependsOn(nodes, n, d))
  }

  /** One node's dependency loop. */
  method AddDeps(g0: map<Id, set<Id>>, node: Id, deps: seq<Id>) returns (g: map<Id, set<Id>>)
    ensures g.Keys == g0.Keys + Elems(deps)
    ensures forall d, n :: Edge(g, d, n) <==> Edge(g0, d, n) || (n == node && d in deps)
  {
    g := g0;
    for i := 0 to |deps|
      invariant g.Keys == g0.Keys + Elems(deps[..i])
      invariant forall d, n :: Edge(g, d, n) <==> Edge(g0, d, n) || (n == node && d in deps[..i])
    {
      var dep := deps[i];
      ghost var before := g;
      if dep !in g {
        g := g[dep := {}];
      }
      g := g[dep := g[dep] + {node}];
      assert deps[..i + 1] == deps[..i] + [dep];
      forall d, n ensures Edge(g, d, n) <==> Edge(before, d, n) || (n == node && d == dep) {}
    }
    assert deps[..|deps|] == deps;
  }

  method BuildDepGraph(nodes: map<Id, RuntimeOp>) returns (g: map<Id, set<Id>>)
    ensures g == DepGraph(nodes)
  {
    g := map n | n in nodes.Keys :: {};
    var todo := nodes.Keys;
    while todo != {}
      invariant todo <= nodes.Keys
      invariant PartialDepGraph(nodes, nodes.Keys - todo, g)
    {
      var node :| node in todo;
      ghost var before, done := g, nodes.Keys - todo;
      g := AddDeps(g, node, nodes[node].deps);
      todo := todo - {node};
      assert nodes.Keys - todo == done + {node};
      forall d | d in Elems(nodes[node].deps) ensures d in DepIds(nodes) {
        DepIdsHas(nodes, node, d);
      }
      forall d, n ensures Edge(g, d, n) <==> n in done + {node} && DependsOn(nodes, n, d) {
        assert Edge(before, d, n) <==> n in done && DependsOn(nodes, n, d);
      }
    }
    CompleteDepGraph(nodes, g);
  }

  lemma CompleteDepGraph(nodes: map<Id, RuntimeOp>, g: map<Id, set<Id>>)
    requires PartialDepGraph(nodes, nodes.Keys, g)
    ensures g == DepGraph(nodes)
  {
    forall d, n ensures Edge(g, d, n) <==> DependsOn(nodes, n, d) {}
    forall d | d in DepIds(nodes) ensures d in g {
      var n, i :| n in nodes && 0 <= i < |nodes[n].deps| && d == nodes[n].deps[i];
      assert DependsOn(nodes, n, d);
      assert Edge(g, d, n);
    }
    DepGraphUnique(nodes, g);
  }

  method EnumerateOrder(order: seq<Id>) returns (index: map<Id, nat>)
    ensures index == OrderIndex(order)
  {
    index := map[];
    for i := 0 to |order|
      invariant index == OrderIndex(order[..i])
    {
      assert order[..i + 1][..i] == order[..i];
      index := index[order[i] := i];
    }
    assert order[..|order|] == order;
  }

  /** RuntimeGraph.topological_order: `None` stands for the sort's cycle error. */
  method TopologicalOrder(rg: RuntimeGraph) returns (r: Option<seq<Id>>)
    ensures r.Some? <==> Acyclic(DepGraph(rg.nodes))
    ensures r.Some? ==> NoDup(r.value) && Elems(r.value) == rg.nodes.Keys && RespectsDeps(rg, r.value)
    ensures r.Some? && OrderIsPermutation(rg) ==> IsCanonicalOrder(rg, r.value)
  {
    var g := BuildDepGraph(rg.nodes);
    var index := EnumerateOrder(rg.nodeOrder);
    var sorted, _ := TopologicalSort.TopologicalSort(g, Some(OrderKey(index)));
    if sorted.None? {
      return None;
    }
    var keep := (n: Id) => n in rg.nodes;
    r := Some(Filter(sorted.value, keep));
    FilteredOrder(rg, sorted.value, keep);
  }

  /** Filtering the phantoms out leaves strict index order within each height. */
  lemma FilteredOrder(rg: RuntimeGraph, s: seq<Id>, keep: Id -> bool)
    requires TopologicalSort.IsLayeredOrder(DepGraph(rg.nodes), Some(OrderKey(OrderIndex(rg.nodeOrder))), s)
    requires TopologicalSort.EdgesForward(DepGraph(rg.nodes), s)
    requires forall n :: keep(n) <==> n in rg.nodes
    ensures var r := Filter(s, keep);
      && NoDup(r) && Elems(r) == rg.nodes.Keys && RespectsDeps(rg, r)
      && (OrderIsPermutation(rg) ==> IsCanonicalOrder(rg, r))
  {
    DepGraphIs(rg.nodes);
    FilteredNodes(rg, s, keep);
    FilteredEdges(rg, s, keep);
    if OrderIsPermutation(rg) {
      FilteredRanks(rg, s, keep);
    }
  }

  lemma FilteredNodes(rg: RuntimeGraph, s: seq<Id>, keep: Id -> bool)
    requires NoDup(s) && Elems(s) == rg.nodes.Keys + DepIds(rg.nodes)
    requires forall n :: keep(n) <==> n in rg.nodes
    ensures NoDup(Filter(s, keep)) && Elems(Filter(s, keep)) == rg.nodes.Keys
  {
    FilterPairwise(s, keep, (x: Id, y: Id) => x != y);
    forall n ensures n in Elems(Filter(s, keep)) <==> n in rg.nodes {
      FilterIn(s, keep, n);
      assert n in s <==> n in Elems(s);
    }
  }

  lemma FilteredEdges(rg: RuntimeGraph, s: seq<Id>, keep: Id -> bool)
    requires TopologicalSort.EdgesForward(DepGraph(rg.nodes), s)
    ensures RespectsDeps(rg, Filter(s, keep))
  {
    var g := DepGraph(rg.nodes);
    var r := Filter(s, keep);
    var noBackEdge := EdgeTest(g);
    DepGraphIs(rg.nodes);
    FilterPairwise(s, keep, noBackEdge);
    forall i, j | 0 <= i <= j < |r| ensures !Edge(g, r[j], r[i]) {
      FilterIn(s, keep, r[i]);
      if i < j {
        assert noBackEdge(r[i], r[j]);
      }
    }
    forall i, j | 0 <= i < |r| && 0 <= j < |r| && DependsOn(rg.nodes, r[j], r[i]) ensures i < j {
      assert Edge(g, r[i], r[j]);
    }
  }

  lemma FilteredRanks(rg: RuntimeGraph, s: seq<Id>, keep: Id -> bool)
    requires OrderIsPermutation(rg)
    requires NoDup(s) && Elems(Filter(s, keep)) == rg.nodes.Keys && NoDup(Filter(s, keep))
    requires forall n :: keep(n) <==> n in rg.nodes
    requires TopologicalSort.IsLayeredOrder(DepGraph(rg.nodes), Some(OrderKey(OrderIndex(rg.nodeOrder))), s)
    ensures IsCanonicalOrder(rg, Filter(s, keep))
  {
    var r := Filter(s, keep);
    var ranks := RanksOf(rg);
    LayeredRanks(DepGraph(rg.nodes), OrderKey(OrderIndex(rg.nodeOrder)), s, ranks);
    StrictRanks(rg.nodeOrder, s, keep, ranks);
    forall i, j | 0 <= i < j < |r| ensures Before(rg, r[i], r[j]) {
      assert RankLess(ranks(r[i]), ranks(r[j]));
    }
  }

  lemma LayeredRanks(g: map<Id, set<Id>>, key: Id -> int, s: seq<Id>, ranks: Id -> (int, int))
    requires forall x :: ranks(x) == (Height(g, x), key(x))
    requires TopologicalSort.ByHeightThenKey(g, Some(key), s)
    ensures forall i, j :: 0 <= i < j < |s| ==> ranks(s[i]) == ranks(s[j]) || RankLess(ranks(s[i]), ranks(s[j]))
  {
  }

  lemma StrictRanks(order: seq<Id>, s: seq<Id>, keep: Id -> bool, ranks: Id -> (int, int))
    requires NoDup(s) && forall n :: keep(n) ==> n in Elems(order)
    requires forall i, j :: 0 <= i < j < |s| ==> ranks(s[i]) == ranks(s[j]) || RankLess(ranks(s[i]), ranks(s[j]))
    requires forall n :: ranks(n).1 == OrderKey(OrderIndex(order))(n)
    ensures var r := Filter(s, keep);
      forall i, j :: 0 <= i < j < |r| ==> RankLess(ranks(r[i]), ranks(r[j]))
  {
    var index := OrderIndex(order);
    var before := (x: Id, y: Id) => RankLess(ranks(x), ranks(y));
    forall i, j | 0 <= i < j < |s| && keep(s[i]) && keep(s[j]) ensures before(s[i], s[j]) {
      assert s[i] in index && s[j] in index && index[s[i]] != index[s[j]];
      assert ranks(s[i]).1 == index[s[i]] && ranks(s[j]).1 == index[s[j]];
    }
    FilterPairwise(s, keep, before);
    var r := Filter(s, keep);
    forall i, j | 0 <= i < j < |r| ensures RankLess(ranks(r[i]), ranks(r[j])) {
      assert before(r[i], r[j]);
    }
  }

  /** Tells of two nodes in list order that no edge leads back. */
  ghost function EdgeTest(g: map<Id, set<Id>>): (f: (Id, Id) -> bool)
    ensures forall x, y :: f(x, y) <==> !Edge(g, y, x)
  {
    (x: Id, y: Id) => !Edge(g, y, x)
  }

  // ----- consequences ------------------------------------------------------------------------

  lemma {:induction false} OrderIndexAt(order: seq<Id>, i: nat)
    requires NoDup(order) && i < |order|
    ensures OrderIndex(order)[order[i]] == i
  {
    var k := OrderIndex(order)[order[i]];
    assert order[k] == order[i];
  }

  /** Stored back as the node order, a canonical order is canonical again. */
  lemma OrderIsIdempotent(rg: RuntimeGraph, r: seq<Id>)
    requires IsCanonicalOrder(rg, r)
    ensures OrderIsPermutation(rg.(nodeOrder := r))
    ensures IsCanonicalOrder(rg.(nodeOrder := r), r)
    ensures forall s :: IsCanonicalOrder(rg.(nodeOrder := r), s) ==> s == r
  {
    var again := rg.(nodeOrder := r);
    forall i, j | 0 <= i < j < |r| ensures Before(again, r[i], r[j]) {
      assert Before(rg, r[i], r[j]);
      OrderIndexAt(r, i);
      OrderIndexAt(r, j);
    }
    forall s | IsCanonicalOrder(again, s) ensures s == r {
      CanonicalOrderUnique(again, s, r);
    }
  }
}
