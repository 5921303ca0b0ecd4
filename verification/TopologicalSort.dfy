/**
 utils/graph.py: the layered topological sort.
 Each round of the loop emits every node whose remaining in-degree is zero, sorted by the
 secondary key when there is one, and then releases the neighbours of those nodes.
 Sets are iterated in an arbitrary order; the model leaves that order open.
 The proofs speak of a predecessor table `preds`, the graph turned around.
 */
module TopologicalSort {
  import opened Digraph
  import opened Sequences

  ghost predicate PredTable<T(!new)>(g: map<T, set<T>>, preds: map<T, set<T>>) {
    && preds.Keys == Nodes(g)
    && forall n :: n in preds ==> preds[n] == Preds(g, n)
  }

  ghost function PredMap<T(!new)>(g: map<T, set<T>>): (preds: map<T, set<T>>)
    ensures PredTable(g, preds)
  {
    map n | n in Nodes(g) :: Preds(g, n)
  }

  function Neighbors<T>(g: map<T, set<T>>, node: T): set<T> {
    if node in g then g[node] else {}
  }

  ghost predicate CountOf<T(!new)>(pend: map<T, set<T>>, inDegree: map<T, nat>, n: T) {
    n in pend && n in inDegree && inDegree[n] == |pend[n]|
  }

  /** `inDegree` counts, for every node, the predecessors in `pend`: those not done. */
  ghost predicate Counts<T(!new)>(pend: map<T, set<T>>, inDegree: map<T, nat>) {
    && inDegree.Keys == pend.Keys
    && forall n {:trigger CountOf(pend, inDegree, n)} :: n in pend ==> CountOf(pend, inDegree, n)
  }

  /** All that the proofs about ready nodes use of the counts. */
  ghost predicate ZeroWhenEmpty<T(!new)>(pend: map<T, set<T>>, inDegree: map<T, nat>) {
    && inDegree.Keys == pend.Keys
    && forall n {:trigger inDegree[n]} :: n in inDegree ==> (inDegree[n] == 0 <==> pend[n] == {})
  }

  lemma CountsZero<T(!new)>(pend: map<T, set<T>>, inDegree: map<T, nat>)
    requires Counts(pend, inDegree)
    ensures ZeroWhenEmpty(pend, inDegree)
  {
    forall n | n in inDegree ensures inDegree[n] == 0 <==> pend[n] == {} {
      assert CountOf(pend, inDegree, n);
    }
  }

  ghost function Pending<T(!new)>(preds: map<T, set<T>>, done: set<T>): map<T, set<T>> {
    map n | n in preds :: preds[n] - done
  }

  ghost function Drop<T(!new)>(pend: map<T, set<T>>, x: T): map<T, set<T>> {
    map n | n in pend :: pend[n] - {x}
  }

  lemma DropCard<T>(s: set<T>, x: T)
    ensures |s| == |s - {x}| + if x in s then 1 else 0
  {
    if x in s {
      assert s == (s - {x}) + {x};
    } else {
      assert s == s - {x};
    }
  }

  // ----- the in-degree table -----------------------------------------------------

  /** One node's neighbours are counted: an entry is created on first sight. */
  method CountNeighbors<T(==, !new)>(inDegree0: map<T, nat>, all: set<T>) returns (inDegree: map<T, nat>)
    ensures inDegree.Keys == inDegree0.Keys + all
    ensures forall n :: n in inDegree ==>
      inDegree[n] == (if n in inDegree0 then inDegree0[n] else 0) + (if n in all then 1 else 0)
  {
    inDegree := inDegree0;
    var neighbors := all;
    while neighbors != {}
      invariant neighbors <= all
      invariant inDegree.Keys == inDegree0.Keys + (all - neighbors)
      invariant forall n :: n in inDegree ==>
        inDegree[n] == (if n in inDegree0 then inDegree0[n] else 0) + (if n in all - neighbors then 1 else 0)
    {
      var neighbor :| neighbor in neighbors;
      inDegree := inDegree[neighbor := (if neighbor in inDegree then inDegree[neighbor] else 0) + 1];
      neighbors := neighbors - {neighbor};
    }
  }

  method InDegrees<T(==, !new)>(g: map<T, set<T>>) returns (inDegree: map<T, nat>)
    ensures Counts(PredMap(g), inDegree)
  {
    inDegree := map n | n in g.Keys :: 0;
    var todo := g.Keys;
    forall n ensures CountedNode(g, inDegree, g.Keys - todo, n) {
      assert Preds(g, n) * (g.Keys - todo) == {};
    }
    while todo != {}
      invariant todo <= g.Keys
      invariant CountedSoFar(g, inDegree, g.Keys - todo)
    {
      var node :| node in todo;
      ghost var before, done := inDegree, g.Keys - todo;
      inDegree := CountNeighbors(inDegree, g[node]);
      todo := todo - {node};
      CountStep(g, before, inDegree, done, node);
      assert g.Keys - todo == done + {node};
    }
    assert g.Keys - todo == g.Keys;
    CountedAll(g, inDegree);
  }

  ghost predicate CountedNode<T(!new)>(g: map<T, set<T>>, inDegree: map<T, nat>, done: set<T>, n: T) {
    && (n in inDegree <==> n in g || Preds(g, n) * done != {})
    && (n in inDegree ==> inDegree[n] == |Preds(g, n) * done|)
  }

  ghost predicate CountedSoFar<T(!new)>(g: map<T, set<T>>, inDegree: map<T, nat>, done: set<T>) {
    forall n {:trigger CountedNode(g, inDegree, done, n)} :: CountedNode(g, inDegree, done, n)
  }

  lemma CountStep<T(!new)>(g: map<T, set<T>>, before: map<T, nat>, after: map<T, nat>, done: set<T>, node: T)
    requires CountedSoFar(g, before, done) && node in g && node !in done
    requires after.Keys == before.Keys + g[node]
    requires forall n :: n in after ==>
      after[n] == (if n in before then before[n] else 0) + (if n in g[node] then 1 else 0)
    ensures CountedSoFar(g, after, done + {node})
  {
    forall n ensures CountedNode(g, after, done + {node}, n) {
      assert CountedNode(g, before, done, n);
      if n in g[node] {
        assert Preds(g, n) * (done + {node}) == Preds(g, n) * done + {node};
      } else {
        assert Preds(g, n) * (done + {node}) == Preds(g, n) * done;
      }
    }
  }

  lemma CountedAll<T(!new)>(g: map<T, set<T>>, inDegree: map<T, nat>)
    requires CountedSoFar(g, inDegree, g.Keys)
    ensures Counts(PredMap(g), inDegree)
  {
    forall n ensures n in inDegree <==> n in Nodes(g) {
      assert CountedNode(g, inDegree, g.Keys, n);
      if n in Nodes(g) && n !in g {
        var a :| a in g && n in g[a];
        assert a in Preds(g, n) * g.Keys;
      }
    }
    forall n | n in Nodes(g) ensures CountOf(PredMap(g), inDegree, n) {
      assert CountedNode(g, inDegree, g.Keys, n);
      assert Preds(g, n) * g.Keys == Preds(g, n);
    }
  }

  // ----- releasing a layer ---------------------------------------------------------

  /** Decrements the in-degree of every neighbour and appends those that reach zero. */
  method ReleaseNode<T(==, !new)>(all: set<T>, inDegree0: map<T, nat>, ready0: seq<T>)
    returns (inDegree: map<T, nat>, ready: seq<T>)
    requires forall n :: n in all ==> n in inDegree0 && inDegree0[n] > 0
    requires NoDup(ready0) && forall n :: n in ready0 ==> n in inDegree0 && inDegree0[n] == 0
    ensures inDegree.Keys == inDegree0.Keys
    ensures forall n :: n in inDegree ==> inDegree[n] == inDegree0[n] - if n in all then 1 else 0
    ensures NoDup(ready)
    ensures forall n :: n in ready <==> n in ready0 || (n in all && inDegree[n] == 0)
  {
    inDegree, ready := inDegree0, ready0;
    var neighbors := all;
    while neighbors != {}
      invariant neighbors <= all
      invariant inDegree.Keys == inDegree0.Keys
      invariant forall n :: n in inDegree ==>
        inDegree[n] == inDegree0[n] - if n in all && n !in neighbors then 1 else 0
      invariant NoDup(ready)
      invariant forall n :: n in ready <==> n in ready0 || (n in all && n !in neighbors && inDegree[n] == 0)
    {
      var neighbor :| neighbor in neighbors;
      inDegree := inDegree[neighbor := inDegree[neighbor] - 1];
      if inDegree[neighbor] == 0 {
        ready := ready + [neighbor];
      }
      neighbors := neighbors - {neighbor};
    }
  }

  lemma DropPositive<T(!new)>(pend: map<T, set<T>>, node: T, all: set<T>, before: map<T, nat>)
    requires Counts(pend, before)
    requires forall n :: n in pend ==> (node in pend[n] <==> n in all)
    ensures forall n :: n in all && n in pend ==> before[n] > 0
  {
    forall n | n in all && n in pend ensures before[n] > 0 {
      assert CountOf(pend, before, n);
      DropCard(pend[n], node);
    }
  }

  lemma DropCounts<T(!new)>(pend: map<T, set<T>>, node: T, all: set<T>, before: map<T, nat>, after: map<T, nat>)
    requires Counts(pend, before)
    requires forall n :: n in pend ==> (node in pend[n] <==> n in all)
    requires after.Keys == before.Keys
    requires forall n :: n in after ==> after[n] + (if n in all then 1 else 0) == before[n]
    ensures Counts(Drop(pend, node), after)
  {
    forall n | n in pend ensures CountOf(Drop(pend, node), after, n) {
      assert CountOf(pend, before, n);
      DropCard(pend[n], node);
    }
  }

  /** Releases a whole layer; `next` holds exactly the nodes that became ready. */
  method ReleaseLayer<T(==, !new)>(
    g: map<T, set<T>>, layer: seq<T>, inDegree0: map<T, nat>, ghost preds: map<T, set<T>>, ghost done: set<T>)
    returns (inDegree: map<T, nat>, next: seq<T>)
    requires PredTable(g, preds) && Counts(Pending(preds, done), inDegree0)
    requires NoDup(layer) && Elems(layer) !! done
    ensures Counts(Pending(preds, done + Elems(layer)), inDegree)
    ensures NoDup(next)
    ensures forall n :: n in next <==> n in inDegree && inDegree0[n] > 0 && inDegree[n] == 0
  {
    inDegree, next := inDegree0, [];
    assert done + Elems(layer[..0]) == done;
    for i := 0 to |layer|
      invariant Counts(Pending(preds, done + Elems(layer[..i])), inDegree)
      invariant NoDup(next)
      invariant forall n :: n in inDegree0 ==> inDegree[n] <= inDegree0[n]
      invariant forall n :: n in next <==> n in inDegree && inDegree0[n] > 0 && inDegree[n] == 0
    {
      ghost var sofar := done + Elems(layer[..i]);
      var node := layer[i];
      ReleaseStep(g, preds, layer, done, i);
      ghost var before := inDegree;
      DropPositive(Pending(preds, sofar), node, Neighbors(g, node), before);
      inDegree, next := ReleaseNode(Neighbors(g, node), inDegree, next);
      DropCounts(Pending(preds, sofar), node, Neighbors(g, node), before, inDegree);
    }
    assert layer[..|layer|] == layer;
  }

  lemma ReleaseStep<T(!new)>(g: map<T, set<T>>, preds: map<T, set<T>>, layer: seq<T>, done: set<T>, i: nat)
    requires PredTable(g, preds) && NoDup(layer) && Elems(layer) !! done && i < |layer|
    ensures var pend := Pending(preds, done + Elems(layer[..i]));
      && Neighbors(g, layer[i]) <= pend.Keys
      && (forall n :: n in pend ==> (layer[i] in pend[n] <==> n in Neighbors(g, layer[i])))
      && Drop(pend, layer[i]) == Pending(preds, done + Elems(layer[..i + 1]))
  {
    var sofar := done + Elems(layer[..i]);
    NeighborsArePreds(g, preds, layer[i]);
    assert layer[i] in Elems(layer);
    assert done + Elems(layer[..i + 1]) == sofar + {layer[i]};
    assert forall n :: n in preds ==> preds[n] - sofar - {layer[i]} == preds[n] - (sofar + {layer[i]});
  }

  lemma NeighborsArePreds<T(!new)>(g: map<T, set<T>>, preds: map<T, set<T>>, node: T)
    requires PredTable(g, preds)
    ensures Neighbors(g, node) <= preds.Keys
    ensures forall n :: n in preds ==> (node in preds[n] <==> n in Neighbors(g, node))
  {
  }

  // ----- the sort --------------------------------------------------------------------

  ghost predicate InKeyOrder<T(!new)>(key: Option<T -> int>, a: T, b: T) {
    key.Some? ==> key.value(a) <= key.value(b)
  }

  /** What a returned order promises: each node once, by height, and by key within one height. */
  ghost predicate IsLayeredOrder<T(!new)>(g: map<T, set<T>>, key: Option<T -> int>, r: seq<T>) {
    NoDup(r) && Elems(r) == Nodes(g) && ByHeightThenKey(g, key, r)
  }

  ghost predicate ByHeightThenKey<T(!new)>(g: map<T, set<T>>, key: Option<T -> int>, r: seq<T>) {
    forall i, j :: 0 <= i < j < |r| ==>
      || Height(g, r[i]) < Height(g, r[j])
      || (Height(g, r[i]) == Height(g, r[j]) && InKeyOrder(key, r[i], r[j]))
  }

  ghost predicate HasPredBelow<T(!new)>(preds: map<T, set<T>>, at: map<T, nat>, n: T) {
    n in at && n in preds && exists a :: a in preds[n] && a in at && at[a] + 1 == at[n]
  }

  ghost predicate HasPredAt<T(!new)>(preds: map<T, set<T>>, at: map<T, nat>, n: T, k: nat) {
    n in preds && exists a :: a in preds[n] && a in at && at[a] == k
  }

  /** The loop's view of the emitted prefix, with `at` the round that emitted each node. */
  ghost predicate Emitted<T(!new)>(
    preds: map<T, set<T>>, key: Option<T -> int>, r: seq<T>, at: map<T, nat>, round: nat)
  {
    && NoDup(r)
    && at.Keys == Elems(r) <= preds.Keys
    && (forall n :: n in at ==> at[n] < round && preds[n] <= at.Keys)
    && (forall n, a :: n in at && a in preds[n] ==> at[a] < at[n])
    && (forall n {:trigger HasPredBelow(preds, at, n)} :: n in at && at[n] > 0 ==> HasPredBelow(preds, at, n))
    && (forall i, j :: 0 <= i < j < |r| ==>
          || at[r[i]] < at[r[j]]
          || (at[r[i]] == at[r[j]] && InKeyOrder(key, r[i], r[j])))
  }

  ghost predicate SortState<T(!new)>(
    preds: map<T, set<T>>, key: Option<T -> int>, result: seq<T>, at: map<T, nat>, round: nat,
    inDegree: map<T, nat>, ready: seq<T>)
  {
    && Counts(Pending(preds, Elems(result)), inDegree)
    && Emitted(preds, key, result, at, round)
    && ReadyNow(preds, result, inDegree, ready)
    && (round > 0 ==> forall n {:trigger HasPredAt(preds, at, n, round - 1)} :: n in ready ==> HasPredAt(preds, at, n, round - 1))
  }

  method TopologicalSort<T(==, !new)>(g: map<T, set<T>>, key: Option<T -> int>)
    returns (r: Option<seq<T>>, ghost emittedAt: map<T, nat>)
    ensures r.Some? <==> Acyclic(g)
    ensures r.Some? ==> IsLayeredOrder(g, key, r.value)
    ensures r.Some? ==> emittedAt.Keys == Nodes(g) && EmittedAtHeight(g, emittedAt)
    ensures r.Some? ==> EdgesForward(g, r.value)
  {
    var inDegree := InDegrees(g);
    var ready := Zeros(inDegree);
    var result: seq<T> := [];
    ghost var preds := PredMap(g);
    emittedAt := map[];
    ghost var round: nat := 0;
    SortInit(preds, key, inDegree, ready);
    while ready != []
      invariant SortState(preds, key, result, emittedAt, round, inDegree, ready)
      decreases preds.Keys - Elems(result)
    {
      var layer := SortReady(ready, key);
      ghost var before, degrees := result, inDegree;
      inDegree, ready := ReleaseLayer(g, layer, inDegree, preds, Elems(result));
      result := result + layer;
      SortStep(preds, key, before, emittedAt, round, degrees, layer, inDegree, ready);
      emittedAt := EmitAt(emittedAt, layer, round);
      round := round + 1;
    }
    SortDone(g, preds, key, result, emittedAt, round, inDegree);
    r := if |result| == |inDegree| then Some(result) else None;
  }

  lemma SortInit<T(!new)>(preds: map<T, set<T>>, key: Option<T -> int>, inDegree: map<T, nat>, ready: seq<T>)
    requires Counts(preds, inDegree) && NoDup(ready)
    requires forall n :: n in ready <==> n in inDegree && inDegree[n] == 0
    ensures SortState(preds, key, [], map[], 0, inDegree, ready)
  {
    NothingDone(preds);
  }

  lemma FullWhenSized<T(!new)>(preds: map<T, set<T>>, key: Option<T -> int>, s: seq<T>, at: map<T, nat>, round: nat, m: map<T, nat>)
    requires Emitted(preds, key, s, at, round) && m.Keys == preds.Keys
    ensures |s| == |m| <==> Elems(s) == preds.Keys
  {
    NoDupCard(s);
    SubsetCard(Elems(s), m.Keys);
    assert |m.Keys| == |m|;
  }

  /** With nothing ready, every node was emitted or the graph has a cycle. */
  lemma SortDone<T(!new)>(
    g: map<T, set<T>>, preds: map<T, set<T>>, key: Option<T -> int>, result: seq<T>, at: map<T, nat>, round: nat,
    inDegree: map<T, nat>)
    requires PredTable(g, preds) && SortState(preds, key, result, at, round, inDegree, [])
    ensures |result| == |inDegree| <==> Acyclic(g)
    ensures |result| == |inDegree| ==> IsLayeredOrder(g, key, result) && EdgesForward(g, result)
    ensures |result| == |inDegree| ==> at.Keys == Nodes(g) && EmittedAtHeight(g, at)
  {
    FullWhenSized(preds, key, result, at, round, inDegree);
    if |result| == |inDegree| {
      SortedAll(g, preds, key, result, at, round);
    } else {
      SortedShort(g, preds, key, result, at, round, inDegree);
    }
  }

  lemma SortedAll<T(!new)>(
    g: map<T, set<T>>, preds: map<T, set<T>>, key: Option<T -> int>, result: seq<T>, at: map<T, nat>, round: nat)
    requires PredTable(g, preds) && Emitted(preds, key, result, at, round) && Elems(result) == preds.Keys
    ensures Acyclic(g) && IsLayeredOrder(g, key, result) && EdgesForward(g, result)
    ensures at.Keys == Nodes(g) && EmittedAtHeight(g, at)
  {
    EmittedIsTight(g, preds, key, result, at, round);
    TightHeights(g, at);
    TightOrder(g, preds, key, result, at, round);
  }

  lemma SortedShort<T(!new)>(
    g: map<T, set<T>>, preds: map<T, set<T>>, key: Option<T -> int>, result: seq<T>, at: map<T, nat>, round: nat,
    inDegree: map<T, nat>)
    requires PredTable(g, preds) && SortState(preds, key, result, at, round, inDegree, [])
    requires Elems(result) != preds.Keys
    ensures !Acyclic(g)
  {
    CountsZero(Pending(preds, Elems(result)), inDegree);
    StuckHasCycle(g, preds, Elems(result), inDegree);
  }

  /** The round that emits a node is the length of the longest path into it. */
  ghost predicate EmittedAtHeight<T(!new)>(g: map<T, set<T>>, at: map<T, nat>) {
    forall n {:trigger LongestInto(g, n, at[n])} :: n in at ==> LongestInto(g, n, at[n])
  }

  ghost predicate EdgesForward<T(!new)>(g: map<T, set<T>>, r: seq<T>) {
    forall i, j :: 0 <= i < |r| && 0 <= j < |r| && Edge(g, r[i], r[j]) ==> i < j
  }

  lemma SortStep<T(!new)>(
    preds: map<T, set<T>>, key: Option<T -> int>, r: seq<T>, at: map<T, nat>, round: nat,
    before: map<T, nat>, layer: seq<T>, after: map<T, nat>, next: seq<T>)
    requires Counts(Pending(preds, Elems(r)), before) && Emitted(preds, key, r, at, round)
    requires NoDup(layer) && layer != []
    requires forall n :: n in Elems(layer) <==> n in before && n !in Elems(r) && before[n] == 0
    requires round > 0 ==> forall n {:trigger HasPredAt(preds, at, n, round - 1)} :: n in Elems(layer) ==> HasPredAt(preds, at, n, round - 1)
    requires forall i, j :: 0 <= i < j < |layer| ==> InKeyOrder(key, layer[i], layer[j])
    requires Counts(Pending(preds, Elems(r) + Elems(layer)), after)
    requires NoDup(next) && forall n :: n in next <==> n in after && before[n] > 0 && after[n] == 0
    ensures SortState(preds, key, r + layer, EmitAt(at, layer, round), round + 1, after, next)
    ensures preds.Keys - Elems(r + layer) < preds.Keys - Elems(r)
  {
    assert Elems(r + layer) == Elems(r) + Elems(layer);
    assert layer[0] in Elems(layer);
    CountsZero(Pending(preds, Elems(r)), before);
    CountsZero(Pending(preds, Elems(r) + Elems(layer)), after);
    EmitLayer(preds, key, r, layer, at, round, before);
    DoneStaysZero(preds, key, r, at, round, before);
    NextReady(preds, r, layer, at, round, before, after, next);
  }

  lemma DoneStaysZero<T(!new)>(
    preds: map<T, set<T>>, key: Option<T -> int>, r: seq<T>, at: map<T, nat>, round: nat, inDegree: map<T, nat>)
    requires Emitted(preds, key, r, at, round) && ZeroWhenEmpty(Pending(preds, Elems(r)), inDegree)
    ensures forall n :: n in r ==> n in inDegree && inDegree[n] == 0
  {
    forall n | n in r ensures n in inDegree && inDegree[n] == 0 {
      assert n in Elems(r) && n in at;
      assert preds[n] - Elems(r) == {};
      assert Pending(preds, Elems(r))[n] == {};
    }
  }

  lemma NothingDone<T(!new)>(preds: map<T, set<T>>)
    ensures Pending(preds, {}) == preds
  {
    assert forall n :: n in preds ==> preds[n] - {} == preds[n];
  }

  lemma EmptyDifference<T(!new)>(a: set<T>, b: set<T>)
    requires a - b == {}
    ensures a <= b
  {
    forall x | x in a ensures x in b {
      assert x !in a - b;
    }
  }

  ghost predicate ReadyNow<T(!new)>(preds: map<T, set<T>>, result: seq<T>, inDegree: map<T, nat>, ready: seq<T>) {
    && NoDup(ready)
    && forall n :: n in ready <==> n in inDegree && n !in Elems(result) && inDegree[n] == 0
  }

  method Zeros<T(==, !new)>(inDegree: map<T, nat>) returns (ready: seq<T>)
    ensures NoDup(ready)
    ensures forall n :: n in ready <==> n in inDegree && inDegree[n] == 0
  {
    ready := [];
    var todo := inDegree.Keys;
    while todo != {}
      invariant todo <= inDegree.Keys && NoDup(ready)
      invariant forall n :: n in ready <==> n in inDegree && n !in todo && inDegree[n] == 0
    {
      var n :| n in todo;
      if inDegree[n] == 0 {
        ready := ready + [n];
      }
      todo := todo - {n};
    }
  }

  /** The layer to emit: the ready nodes, sorted by the secondary key when there is one. */
  method SortReady<T(==, !new)>(ready: seq<T>, key: Option<T -> int>) returns (layer: seq<T>)
    requires NoDup(ready)
    ensures NoDup(layer) && Elems(layer) == Elems(ready) && |layer| == |ready|
    ensures forall i, j :: 0 <= i < j < |layer| ==> InKeyOrder(key, layer[i], layer[j])
  {
    layer := ready;
    if key.Some? {
      var le := (a: T, b: T) => key.value(a) <= key.value(b);
      assert TotalPreorder(le);
      layer := Sort(ready, le);
      MultisetNoDup(ready, layer);
      forall i, j | 0 <= i < j < |layer| ensures InKeyOrder(key, layer[i], layer[j]) {
        assert le(layer[i], layer[j]);
      }
    }
  }

  ghost function EmitAt<T(!new)>(at: map<T, nat>, layer: seq<T>, round: nat): map<T, nat> {
    at + map n | n in Elems(layer) :: round
  }

  lemma EmitPreds<T(!new)>(
    preds: map<T, set<T>>, r: seq<T>, layer: seq<T>, at: map<T, nat>, round: nat, inDegree: map<T, nat>)
    requires at.Keys == Elems(r) && preds.Keys == inDegree.Keys && ZeroWhenEmpty(Pending(preds, Elems(r)), inDegree)
    requires forall n :: n in at ==> n in preds && at[n] < round && preds[n] <= at.Keys
    requires forall n, a :: n in at && a in preds[n] ==> at[a] < at[n]
    requires forall n :: n in Elems(layer) ==> n in inDegree && n !in Elems(r) && inDegree[n] == 0
    ensures var at' := EmitAt(at, layer, round);
      && (forall n :: n in at' ==> n in preds && at'[n] < round + 1 && preds[n] <= at'.Keys)
      && (forall n, a :: n in at' && a in preds[n] ==> at'[a] < at'[n])
  {
    forall n | n in Elems(layer) ensures preds[n] <= at.Keys {
      assert inDegree[n] == 0;
      EmptyDifference(preds[n], Elems(r));
    }
  }

  lemma EmitBelow<T(!new)>(preds: map<T, set<T>>, layer: seq<T>, at: map<T, nat>, round: nat)
    requires at.Keys !! Elems(layer)
    requires forall n {:trigger HasPredBelow(preds, at, n)} :: n in at && at[n] > 0 ==> HasPredBelow(preds, at, n)
    requires round > 0 ==> forall n {:trigger HasPredAt(preds, at, n, round - 1)} :: n in Elems(layer) ==> HasPredAt(preds, at, n, round - 1)
    ensures var at' := EmitAt(at, layer, round);
      forall n {:trigger HasPredBelow(preds, at', n)} :: n in at' && at'[n] > 0 ==> HasPredBelow(preds, at', n)
  {
    var at' := EmitAt(at, layer, round);
    forall n | n in at' && at'[n] > 0 ensures HasPredBelow(preds, at', n) {
      if n in Elems(layer) {
        assert HasPredAt(preds, at, n, round - 1);
      } else {
        assert HasPredBelow(preds, at, n);
      }
    }
  }

  lemma EmitLayer<T(!new)>(
    preds: map<T, set<T>>, key: Option<T -> int>, r: seq<T>, layer: seq<T>, at: map<T, nat>, round: nat, inDegree: map<T, nat>)
    requires Emitted(preds, key, r, at, round) && ZeroWhenEmpty(Pending(preds, Elems(r)), inDegree)
    requires NoDup(layer) && forall n :: n in Elems(layer) ==> n in inDegree && n !in Elems(r) && inDegree[n] == 0
    requires round > 0 ==> forall n {:trigger HasPredAt(preds, at, n, round - 1)} :: n in Elems(layer) ==> HasPredAt(preds, at, n, round - 1)
    requires forall i, j :: 0 <= i < j < |layer| ==> InKeyOrder(key, layer[i], layer[j])
    ensures Emitted(preds, key, r + layer, EmitAt(at, layer, round), round + 1)
  {
    assert Elems(r + layer) == Elems(r) + Elems(layer);
    EmitPreds(preds, r, layer, at, round, inDegree);
    EmitBelow(preds, layer, at, round);
    NoDupAppend(r, layer);
    EmitOrder(key, r, layer, at, round);
  }

  lemma NoDupAppend<T(!new)>(s: seq<T>, t: seq<T>)
    requires NoDup(s) && NoDup(t) && Elems(s) !! Elems(t)
    ensures NoDup(s + t)
  {
    assert forall k :: 0 <= k < |t| ==> t[k] in Elems(t);
    assert forall k :: 0 <= k < |s| ==> s[k] in Elems(s);
  }

  lemma EmitOrder<T(!new)>(key: Option<T -> int>, r: seq<T>, layer: seq<T>, at: map<T, nat>, round: nat)
    requires at.Keys == Elems(r) && Elems(layer) !! Elems(r) && forall n :: n in at ==> at[n] < round
    requires forall i, j :: 0 <= i < j < |r| ==>
      at[r[i]] < at[r[j]] || (at[r[i]] == at[r[j]] && InKeyOrder(key, r[i], r[j]))
    requires forall i, j :: 0 <= i < j < |layer| ==> InKeyOrder(key, layer[i], layer[j])
    ensures var r', at' := r + layer, EmitAt(at, layer, round);
      at'.Keys == Elems(r') &&
      forall i, j :: 0 <= i < j < |r'| ==>
        at'[r'[i]] < at'[r'[j]] || (at'[r'[i]] == at'[r'[j]] && InKeyOrder(key, r'[i], r'[j]))
  {
    var r', at' := r + layer, EmitAt(at, layer, round);
    assert Elems(r') == Elems(r) + Elems(layer);
    forall i, j | 0 <= i < j < |r'|
      ensures at'[r'[i]] < at'[r'[j]] || (at'[r'[i]] == at'[r'[j]] && InKeyOrder(key, r'[i], r'[j]))
    {
      if j < |r| {
        assert r[i] in Elems(r) && r[j] in Elems(r);
      } else {
        assert layer[j - |r|] in Elems(layer);
        if i < |r| {
          assert r[i] in Elems(r);
        } else {
          assert layer[i - |r|] in Elems(layer);
        }
      }
    }
  }

  lemma NextReady<T(!new)>(
    preds: map<T, set<T>>, r: seq<T>, layer: seq<T>, at: map<T, nat>, round: nat, before: map<T, nat>, after: map<T, nat>, next: seq<T>)
    requires at.Keys == Elems(r)
    requires ZeroWhenEmpty(Pending(preds, Elems(r)), before) && ZeroWhenEmpty(Pending(preds, Elems(r) + Elems(layer)), after)
    requires forall n :: n in Elems(layer) <==> n in before && n !in Elems(r) && before[n] == 0
    requires forall n :: n in r ==> n in before && before[n] == 0
    requires NoDup(next) && forall n :: n in next <==> n in after && before[n] > 0 && after[n] == 0
    ensures ReadyNow(preds, r + layer, after, next)
    ensures forall n {:trigger HasPredAt(preds, EmitAt(at, layer, round), n, round)} :: n in next ==> HasPredAt(preds, EmitAt(at, layer, round), n, round)
  {
    forall n | n in next ensures HasPredAt(preds, EmitAt(at, layer, round), n, round) {
      assert preds[n] - Elems(r) != {};
      var a :| a in preds[n] - Elems(r);
      assert after[n] == 0;
      assert preds[n] - (Elems(r) + Elems(layer)) == {};
      assert a !in preds[n] - (Elems(r) + Elems(layer));
    }
    forall n ensures n in next <==> n in after && n !in Elems(r + layer) && after[n] == 0 {
      assert n in Elems(r + layer) <==> n in Elems(r) || n in Elems(layer);
    }
  }

  lemma EmittedIsTight<T(!new)>(
    g: map<T, set<T>>, preds: map<T, set<T>>, key: Option<T -> int>, r: seq<T>, at: map<T, nat>, round: nat)
    requires PredTable(g, preds) && Emitted(preds, key, r, at, round) && Elems(r) == Nodes(g)
    ensures TightRank(g, at)
  {
    forall a, b | Edge(g, a, b) ensures a in at && b in at && at[a] < at[b] {
      assert a in preds[b];
    }
    forall n | n in at && at[n] > 0 ensures PredJustBelow(g, at, n) {
      assert HasPredBelow(preds, at, n);
      var a :| a in preds[n] && a in at && at[a] + 1 == at[n];
      assert Edge(g, a, n);
    }
  }

  lemma TightHeights<T(!new)>(g: map<T, set<T>>, at: map<T, nat>)
    requires TightRank(g, at) && at.Keys == Nodes(g)
    ensures Acyclic(g) && EmittedAtHeight(g, at)
    ensures Heights(g) == at
  {
    RankedIsAcyclic(g, at);
    forall n | n in at ensures LongestInto(g, n, at[n]) {
      TightRankIsLongest(g, at, n);
    }
    HeightsAre(g, at);
  }

  lemma TightOrder<T(!new)>(
    g: map<T, set<T>>, preds: map<T, set<T>>, key: Option<T -> int>, r: seq<T>, at: map<T, nat>, round: nat)
    requires Emitted(preds, key, r, at, round) && Elems(r) == Nodes(g) && Ranked(g, at)
    requires Heights(g) == at
    ensures IsLayeredOrder(g, key, r) && EdgesForward(g, r)
  {
    forall i, j | 0 <= i < j < |r|
      ensures
        || Height(g, r[i]) < Height(g, r[j])
        || (Height(g, r[i]) == Height(g, r[j]) && InKeyOrder(key, r[i], r[j]))
    {
      assert r[i] in Elems(r) && r[j] in Elems(r);
    }
    forall i, j | 0 <= i < |r| && 0 <= j < |r| && Edge(g, r[i], r[j]) ensures i < j {
      assert at[r[i]] < at[r[j]];
    }
  }

  lemma StuckHasCycle<T(!new)>(g: map<T, set<T>>, preds: map<T, set<T>>, done: set<T>, inDegree: map<T, nat>)
    requires PredTable(g, preds) && ZeroWhenEmpty(Pending(preds, done), inDegree) && done < preds.Keys
    requires forall n :: n in inDegree && n !in done ==> inDegree[n] > 0
    ensures !Acyclic(g)
  {
    var s := preds.Keys - done;
    forall n | n in s ensures HasPredIn(g, s, n) {
      assert preds[n] - done != {};
      var a :| a in preds[n] - done;
      assert Edge(g, a, n);
    }
    NoSourceHasCycle(g, s);
  }
}
