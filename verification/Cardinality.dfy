/**
 RuntimeGraph.list_lambda_cardinality_nodes and merge_runtime_graphs.
 One pass over the node order computes the nodes that emit a whole list per run. On a
 topological order the pass is exact: it finds the least set closed under the propagation
 rule, and it distributes over merging.
 */
module Cardinality {
  import opened Sequences
  import opened RuntimeGraphs

  const PYTHON := "python"

  predicate IsListLambda(op: RuntimeOp) {
    op.taskType == PYTHON && op.mode == Some("list")
  }

  /** A python step that is not a list Lambda stops the propagation. */
  predicate IsBarrier(op: RuntimeOp) {
    op.taskType == PYTHON && op.mode != Some("list")
  }

  /** `n` must be in a set that already holds `s`. */
  ghost predicate Forced(nodes: map<Id, RuntimeOp>, s: set<Id>, n: Id) {
    && n in nodes
    && (IsListLambda(nodes[n]) || (!IsBarrier(nodes[n]) && exists d :: d in nodes[n].deps && d in s))
  }

  ghost predicate Closed(nodes: map<Id, RuntimeOp>, s: set<Id>) {
    forall n {:trigger Forced(nodes, s, n)} :: Forced(nodes, s, n) ==> n in s
  }

  ghost predicate IsLeastClosed(nodes: map<Id, RuntimeOp>, s: set<Id>) {
    && Closed(nodes, s)
    && forall t {:trigger Closed(nodes, t)} :: Closed(nodes, t) ==> s <= t
  }

  /** Every dependency that is a runtime node comes earlier. */
  ghost predicate IsTopological(nodes: map<Id, RuntimeOp>, order: seq<Id>) {
    && NoDup(order) && Elems(order) == nodes.Keys
    && forall i, j :: 0 <= i < |order| && 0 <= j < |order| && DependsOn(nodes, order[j], order[i]) ==> i < j
  }

  lemma ForcedMonotone(nodes: map<Id, RuntimeOp>, s: set<Id>, t: set<Id>, n: Id)
    requires s <= t && Forced(nodes, s, n)
    ensures Forced(nodes, t, n)
  {
  }

  method ListLambdaCardinalityNodes(rg: RuntimeGraph) returns (r: set<Id>)
    requires Elems(rg.nodeOrder) <= rg.nodes.Keys
    ensures forall t :: Closed(rg.nodes, t) ==> r <= t
    ensures IsTopological(rg.nodes, rg.nodeOrder) ==> IsLeastClosed(rg.nodes, r)
  {
    var order := rg.nodeOrder;
    var listLambdas := set n | n in rg.nodes && IsListLambda(rg.nodes[n]);
    r := {};
    for i := 0 to |order|
      invariant r <= Elems(order[..i])
      invariant forall t {:trigger Closed(rg.nodes, t)} :: Closed(rg.nodes, t) ==> r <= t
      invariant IsTopological(rg.nodes, order) ==> forall k :: 0 <= k < i && Forced(rg.nodes, r, order[k]) ==> order[k] in r
    {
      var n := order[i];
      assert n in Elems(order);
      assert Elems(order[..i + 1]) == Elems(order[..i]) + {n};
      ghost var before := r;
      var op := rg.nodes[n];
      if n in listLambdas {
        r := r + {n};
      } else if IsBarrier(op) {
      } else if exists d :: d in op.deps && d in r {
        r := r + {n};
      }
      assert n in r <==> n in before || Forced(rg.nodes, before, n);
      forall t {:trigger Closed(rg.nodes, t)} | Closed(rg.nodes, t) ensures r <= t {
        if n in r && n !in before {
          ForcedMonotone(rg.nodes, before, t, n);
        }
      }
      if IsTopological(rg.nodes, order) {
        forall k | 0 <= k < i + 1 && Forced(rg.nodes, r, order[k]) ensures order[k] in r {
          NotYetRead(rg.nodes, order, i, k, before);
        }
      }
    }
    assert order[..|order|] == order;
    if IsTopological(rg.nodes, order) {
      forall n {:trigger Forced(rg.nodes, r, n)} | Forced(rg.nodes, r, n) ensures n in r {
        assert n in Elems(order);
        var k :| 0 <= k < |order| && order[k] == n;
      }
    }
  }

  /** Adding the node at position i forces nothing at or before it anew. */
  lemma NotYetRead(nodes: map<Id, RuntimeOp>, order: seq<Id>, i: nat, k: nat, before: set<Id>)
    requires IsTopological(nodes, order) && k <= i < |order|
    requires before <= Elems(order[..i])
    requires forall k :: 0 <= k < i && Forced(nodes, before, order[k]) ==> order[k] in before
    ensures Forced(nodes, before + {order[i]}, order[k]) ==> Forced(nodes, before, order[k])
    ensures k < i && Forced(nodes, before + {order[i]}, order[k]) ==> order[k] in before
  {
    assert !DependsOn(nodes, order[k], order[i]);
  }

  lemma LeastClosedUnique(nodes: map<Id, RuntimeOp>, s: set<Id>, t: set<Id>)
    requires IsLeastClosed(nodes, s) && IsLeastClosed(nodes, t)
    ensures s == t
  {
    assert Closed(nodes, s) && Closed(nodes, t);
  }

  // ----- reachability ---------------------------------------------------------------

  /** A chain of dependencies that starts at a list-mode python step and enters no python step of another mode. */
  ghost predicate IsChain(nodes: map<Id, RuntimeOp>, p: seq<Id>) {
    && p != []
    && p[0] in nodes && nodes[p[0]].taskType == "python" && nodes[p[0]].mode == Some("list")
    && forall i, j :: 0 <= i < |p| && 0 <= j < |p| && j == i + 1 ==>
         DependsOn(nodes, p[j], p[i]) && (nodes[p[j]].taskType == "python" ==> nodes[p[j]].mode == Some("list"))
  }

  ghost predicate Reached(nodes: map<Id, RuntimeOp>, n: Id) {
    exists p :: IsChain(nodes, p) && p[|p| - 1] == n
  }

  /** The least closed set is what chains from list Lambdas reach. */
  lemma LeastClosedIsReached(nodes: map<Id, RuntimeOp>, s: set<Id>, n: Id)
    requires IsLeastClosed(nodes, s)
    ensures n in s <==> Reached(nodes, n)
  {
    var reached := set m | m in nodes && Reached(nodes, m);
    forall m {:trigger Forced(nodes, reached, m)} | Forced(nodes, reached, m) ensures m in reached {
      if IsListLambda(nodes[m]) {
        assert IsChain(nodes, [m]);
      } else {
        var d :| d in nodes[m].deps && d in reached;
        var p :| IsChain(nodes, p) && p[|p| - 1] == d;
        assert IsChain(nodes, p + [m]);
        assert (p + [m])[|p + [m]| - 1] == m;
      }
    }
    assert Closed(nodes, reached);
    if Reached(nodes, n) {
      var p :| IsChain(nodes, p) && p[|p| - 1] == n;
      ChainInClosed(nodes, s, p);
    }
  }

  lemma {:induction false} ChainInClosed(nodes: map<Id, RuntimeOp>, s: set<Id>, p: seq<Id>)
    requires Closed(nodes, s) && IsChain(nodes, p)
    ensures p[|p| - 1] in s
  {
    var k := |p| - 1;
    if k == 0 {
      assert Forced(nodes, s, p[0]);
    } else {
      ChainInClosed(nodes, s, p[..k]);
      assert p[..k][k - 1] == p[k - 1];
      assert DependsOn(nodes, p[k], p[k - 1]);
      assert Forced(nodes, s, p[k]);
    }
  }

  // ----- merging --------------------------------------------------------------------

  /** The inner loop: one graph's nodes are added in order, a known id is an error. */
  lemma RepeatedId(order0: seq<Id>, order: seq<Id>, i: nat)
    requires i < |order| && order[i] in Elems(order0 + order[..i])
    ensures !NoDup(order0 + order)
  {
    var before, all := order0 + order[..i], order0 + order;
    var j :| 0 <= j < |before| && before[j] == order[i];
    assert all[j] == order[i] && all[|order0| + i] == order[i];
  }

  method AppendGraph(nodes0: map<Id, RuntimeOp>, order0: seq<Id>, graph: RuntimeGraph)
    returns (ok: bool, nodes: map<Id, RuntimeOp>, order: seq<Id>)
    requires nodes0.Keys == Elems(order0) && NoDup(order0) && Elems(graph.nodeOrder) <= graph.nodes.Keys
    ensures ok <==> NoDup(order0 + graph.nodeOrder)
    ensures ok ==> order == order0 + graph.nodeOrder && nodes.Keys == Elems(order)
    ensures ok ==> forall n :: n in nodes0 ==> n in nodes && nodes[n] == nodes0[n]
    ensures ok ==> forall n :: n in graph.nodeOrder ==> n in nodes && n in graph.nodes && nodes[n] == graph.nodes[n]
  {
    nodes, order, ok := nodes0, order0, true;
    for i := 0 to |graph.nodeOrder|
      invariant order == order0 + graph.nodeOrder[..i] && NoDup(order)
      invariant nodes.Keys == Elems(order)
      invariant forall n :: n in nodes0 ==> n in nodes && nodes[n] == nodes0[n]
      invariant forall n :: n in graph.nodeOrder[..i] ==> n in nodes && n in graph.nodes && nodes[n] == graph.nodes[n]
    {
      var n := graph.nodeOrder[i];
      if n in nodes {
        ok := false;
        RepeatedId(order0, graph.nodeOrder, i);
        return;
      }
      assert n in Elems(graph.nodeOrder);
      nodes := nodes[n := graph.nodes[n]];
      order := order + [n];
      assert graph.nodeOrder[..i + 1] == graph.nodeOrder[..i] + [n];
    }
    assert graph.nodeOrder[..|graph.nodeOrder|] == graph.nodeOrder;
  }

  /** merge_runtime_graphs on nodes and order; `None` stands for the duplicate-id error. */
  method MergeRuntimeGraphs(graphs: seq<RuntimeGraph>) returns (r: Option<RuntimeGraph>)
    requires forall g :: g in graphs ==> Elems(g.nodeOrder) <= g.nodes.Keys
    ensures r.Some? <==> NoDup(ConcatOrders(graphs))
    ensures r.Some? ==> IsMerged(graphs, r.value)
  {
    var nodes: map<Id, RuntimeOp> := map[];
    var nodeOrder: seq<Id> := [];
    for k := 0 to |graphs|
      invariant IsMerged(graphs[..k], RuntimeGraph(nodes, nodeOrder))
    {
      var ok, nodes', nodeOrder' := AppendGraph(nodes, nodeOrder, graphs[k]);
      if !ok {
        DuplicateRemains(graphs, k);
        return None;
      }
      MergeStep(graphs, k, RuntimeGraph(nodes, nodeOrder), RuntimeGraph(nodes', nodeOrder'));
      nodes, nodeOrder := nodes', nodeOrder';
    }
    assert graphs[..|graphs|] == graphs;
    r := Some(RuntimeGraph(nodes, nodeOrder));
  }

  ghost function ConcatOrders(graphs: seq<RuntimeGraph>): seq<Id> {
    if graphs == [] then []
    else ConcatOrders(graphs[..|graphs| - 1]) + graphs[|graphs| - 1].nodeOrder
  }

  lemma ConcatOrdersSnoc(graphs: seq<RuntimeGraph>, k: nat)
    requires k < |graphs|
    ensures ConcatOrders(graphs[..k + 1]) == ConcatOrders(graphs[..k]) + graphs[k].nodeOrder
  {
    assert graphs[..k + 1][..k] == graphs[..k];
  }

  lemma {:induction false} ConcatPrefix(graphs: seq<RuntimeGraph>, k: nat)
    requires k <= |graphs|
    ensures ConcatOrders(graphs[..k]) <= ConcatOrders(graphs)
    decreases |graphs| - k
  {
    if k < |graphs| {
      ConcatPrefix(graphs, k + 1);
      ConcatOrdersSnoc(graphs, k);
    } else {
      assert graphs[..k] == graphs;
    }
  }

  lemma DuplicateRemains(graphs: seq<RuntimeGraph>, k: nat)
    requires k < |graphs| && !NoDup(ConcatOrders(graphs[..k]) + graphs[k].nodeOrder)
    ensures !NoDup(ConcatOrders(graphs))
  {
    ConcatOrdersSnoc(graphs, k);
    ConcatPrefix(graphs, k + 1);
  }

  lemma MergeStep(graphs: seq<RuntimeGraph>, k: nat, before: RuntimeGraph, after: RuntimeGraph)
    requires k < |graphs| && IsMerged(graphs[..k], before)
    requires after.nodeOrder == before.nodeOrder + graphs[k].nodeOrder
    requires NoDup(after.nodeOrder) && after.nodes.Keys == Elems(after.nodeOrder)
    requires forall n :: n in before.nodes ==> n in after.nodes && after.nodes[n] == before.nodes[n]
    requires forall n :: n in graphs[k].nodeOrder ==>
      n in after.nodes && n in graphs[k].nodes && after.nodes[n] == graphs[k].nodes[n]
    ensures IsMerged(graphs[..k + 1], after)
  {
    ConcatOrdersSnoc(graphs, k);
    assert graphs[..k + 1] == graphs[..k] + [graphs[k]];
  }

  /** No graph's node depends on a node of another graph. */
  ghost predicate NoCross(graphs: seq<RuntimeGraph>) {
    forall a, b, n, d ::
      0 <= a < |graphs| && 0 <= b < |graphs| && a != b && DependsOn(graphs[a].nodes, n, d) ==> d !in graphs[b].nodes
  }

  ghost predicate AllTopological(graphs: seq<RuntimeGraph>) {
    forall g :: g in graphs ==> IsTopological(g.nodes, g.nodeOrder)
  }

  ghost predicate IsMerged(graphs: seq<RuntimeGraph>, m: RuntimeGraph) {
    && m.nodeOrder == ConcatOrders(graphs) && NoDup(m.nodeOrder) && m.nodes.Keys == Elems(m.nodeOrder)
    && forall g, n :: g in graphs && n in g.nodeOrder ==> n in g.nodes && n in m.nodes && m.nodes[n] == g.nodes[n]
  }

  /** The graph, and the place in its order, that a merged position comes from. */
  lemma {:induction false} Locate(graphs: seq<RuntimeGraph>, i: nat) returns (k: nat, local: nat)
    requires i < |ConcatOrders(graphs)|
    ensures k < |graphs| && local < |graphs[k].nodeOrder|
    ensures i == |ConcatOrders(graphs[..k])| + local && ConcatOrders(graphs)[i] == graphs[k].nodeOrder[local]
  {
    var last := |graphs| - 1;
    if i < |ConcatOrders(graphs[..last])| {
      k, local := Locate(graphs[..last], i);
      assert graphs[..last][..k] == graphs[..k];
    } else {
      k, local := last, i - |ConcatOrders(graphs[..last])|;
    }
  }

  /** Merging keeps the order topological. */
  lemma MergedIsTopological(graphs: seq<RuntimeGraph>, m: RuntimeGraph)
    requires AllTopological(graphs) && NoCross(graphs) && IsMerged(graphs, m)
    ensures IsTopological(m.nodes, m.nodeOrder)
  {
    var order := m.nodeOrder;
    forall i, j | 0 <= i < |order| && 0 <= j < |order| && DependsOn(m.nodes, order[j], order[i]) ensures i < j {
      var a, i' := Locate(graphs, i);
      var b, j' := Locate(graphs, j);
      var n, d := order[j], order[i];
      assert graphs[a] in graphs && graphs[b] in graphs;
      assert n in graphs[b].nodeOrder && d in Elems(graphs[a].nodeOrder) && n in Elems(graphs[b].nodeOrder);
      assert DependsOn(graphs[b].nodes, n, d);
      assert a == b;
    }
  }

  ghost function UnionOf(parts: seq<set<Id>>): set<Id> {
    set k, n | 0 <= k < |parts| && n in parts[k] :: n
  }

  lemma InUnion(parts: seq<set<Id>>, k: nat, n: Id)
    requires k < |parts| && n in parts[k]
    ensures n in UnionOf(parts)
  {
  }

  /** The pass on a merged graph finds the union of what it finds on the parts. */
  lemma MergedCardinality(graphs: seq<RuntimeGraph>, m: RuntimeGraph, parts: seq<set<Id>>)
    requires AllTopological(graphs) && NoCross(graphs) && IsMerged(graphs, m)
    requires |parts| == |graphs| && forall k :: 0 <= k < |graphs| ==> IsLeastClosed(graphs[k].nodes, parts[k])
    ensures IsLeastClosed(m.nodes, UnionOf(parts))
  {
    var u := UnionOf(parts);
    forall n {:trigger Forced(m.nodes, u, n)} | Forced(m.nodes, u, n) ensures n in u {
      UnionIsClosed(graphs, m, parts, n);
    }
    forall t {:trigger Closed(m.nodes, t)} | Closed(m.nodes, t) ensures u <= t {
      forall k | 0 <= k < |parts| ensures parts[k] <= t {
        ClosedOnPart(graphs, m, k, t);
      }
    }
  }

  lemma NodesAreClosed(nodes: map<Id, RuntimeOp>, s: set<Id>)
    requires IsLeastClosed(nodes, s)
    ensures s <= nodes.Keys
  {
    assert Closed(nodes, nodes.Keys);
  }

  lemma UnionIsClosed(graphs: seq<RuntimeGraph>, m: RuntimeGraph, parts: seq<set<Id>>, n: Id)
    requires AllTopological(graphs) && NoCross(graphs) && IsMerged(graphs, m)
    requires |parts| == |graphs| && forall k :: 0 <= k < |graphs| ==> IsLeastClosed(graphs[k].nodes, parts[k])
    requires Forced(m.nodes, UnionOf(parts), n)
    ensures n in UnionOf(parts)
  {
    assert n in Elems(m.nodeOrder);
    var i :| 0 <= i < |m.nodeOrder| && m.nodeOrder[i] == n;
    var k, _ := Locate(graphs, i);
    assert graphs[k] in graphs && n in Elems(graphs[k].nodeOrder);
    var op := m.nodes[n];
    if !IsListLambda(op) {
      var d :| d in op.deps && d in UnionOf(parts);
      var l :| 0 <= l < |parts| && d in parts[l];
      NodesAreClosed(graphs[l].nodes, parts[l]);
      assert DependsOn(graphs[k].nodes, n, d);
      assert l == k;
    }
    assert Forced(graphs[k].nodes, parts[k], n);
    InUnion(parts, k, n);
  }

  lemma ClosedOnPart(graphs: seq<RuntimeGraph>, m: RuntimeGraph, k: nat, t: set<Id>)
    requires AllTopological(graphs) && IsMerged(graphs, m) && k < |graphs| && Closed(m.nodes, t)
    ensures Closed(graphs[k].nodes, t)
  {
    var part := graphs[k];
    forall n {:trigger Forced(part.nodes, t, n)} | Forced(part.nodes, t, n) ensures n in t {
      assert part in graphs && n in Elems(part.nodeOrder);
      assert Forced(m.nodes, t, n);
    }
  }
}
