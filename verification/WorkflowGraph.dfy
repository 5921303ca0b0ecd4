/**
 graphs/graph.py: Graph.topological_sort, the second caller of the layered sort.
 Only ops that read another op, or are read, enter the dependency map, so only those
 are in the reordered graph.
 */
module WorkflowGraph {
  import opened Digraph
  import opened Sequences
  import RuntimeGraphs
  import TopologicalSort

  type Id = string

  /** The ops of a graph with the ids of their inputs. */
  type Ops = map<Id, seq<Id>>

  ghost predicate Reads(ops: Ops, op: Id, dep: Id) {
    op in ops && dep in ops[op]
  }

  ghost predicate Connected(ops: Ops, n: Id) {
    (n in ops && ops[n] != []) || exists op :: Reads(ops, op, n)
  }

  /** An edge from each input to each op that reads it. */
  ghost predicate IsReadGraph(ops: Ops, done: set<Id>, g: map<Id, set<Id>>) {
    && (forall d, n {:trigger Edge(g, d, n)} :: Edge(g, d, n) <==> n in done && Reads(ops, n, d))
    && (forall d :: d in g ==> exists n :: Edge(g, d, n))
  }

  method SortGraph(ops: Ops) returns (r: Option<seq<Id>>, ghost g: map<Id, set<Id>>)
    ensures IsReadGraph(ops, ops.Keys, g)
    ensures r.Some? <==> Acyclic(g)
    ensures r.Some? ==> NoDup(r.value) && forall n :: n in r.value <==> Connected(ops, n)
    ensures r.Some? ==> forall i, j :: 0 <= i < |r.value| && 0 <= j < |r.value| && Reads(ops, r.value[j], r.value[i]) ==> i < j
  {
    var dependencies: map<Id, set<Id>> := map[];
    var todo := ops.Keys;
    while todo != {}
      invariant todo <= ops.Keys
      invariant IsReadGraph(ops, ops.Keys - todo, dependencies)
    {
      var op :| op in todo;
      ghost var before, done := dependencies, ops.Keys - todo;
      dependencies := RuntimeGraphs.AddDeps(dependencies, op, ops[op]);
      todo := todo - {op};
      AddReads(ops, done, op, before, dependencies);
      assert ops.Keys - todo == done + {op};
    }
    assert ops.Keys - todo == ops.Keys;
    g := dependencies;
    var sorted, _ := TopologicalSort.TopologicalSort(dependencies, None);
    r := sorted;
    if r.Some? {
      forall n ensures n in r.value <==> Connected(ops, n) {
        assert n in r.value <==> n in Elems(r.value);
        ReadGraphNodes(ops, g, n);
      }
      forall i, j | 0 <= i < |r.value| && 0 <= j < |r.value| && Reads(ops, r.value[j], r.value[i]) ensures i < j {
        assert Edge(g, r.value[i], r.value[j]);
      }
    }
  }

  lemma AddReads(ops: Ops, done: set<Id>, op: Id, before: map<Id, set<Id>>, after: map<Id, set<Id>>)
    requires IsReadGraph(ops, done, before) && op in ops
    requires after.Keys == before.Keys + Elems(ops[op])
    requires forall d, n :: Edge(after, d, n) <==> Edge(before, d, n) || (n == op && d in ops[op])
    ensures IsReadGraph(ops, done + {op}, after)
  {
    forall d | d in after ensures exists n :: Edge(after, d, n) {
      if d in before {
        var n :| Edge(before, d, n);
        assert Edge(after, d, n);
      } else {
        assert Edge(after, d, op);
      }
    }
  }

  lemma ReadGraphNodes(ops: Ops, g: map<Id, set<Id>>, n: Id)
    requires IsReadGraph(ops, ops.Keys, g)
    ensures n in Nodes(g) <==> Connected(ops, n)
  {
    if n in g {
      var m :| Edge(g, n, m);
      assert Reads(ops, m, n);
    } else if n in Nodes(g) {
      var a, b :| a in g && b in g[a] && n == b;
      assert Edge(g, a, n);
    }
    if n in ops && ops[n] != [] {
      assert Reads(ops, n, ops[n][0]);
      assert Edge(g, ops[n][0], n);
    }
    if op :| Reads(ops, op, n) {
      assert Edge(g, n, op);
    }
  }
}
