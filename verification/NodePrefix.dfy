/**
 RuntimeGraph.with_node_prefix: every runtime node moves to a prefixed id, in the node table,
 the order, the dependencies and the specs; phantom dependencies keep their ids.
 Prefixing commutes with the topological order unless a phantom carries a prefixed id.
 */
module NodePrefix {
  import opened Digraph
  import opened Sequences
  import opened RuntimeGraphs
  import Specs = SpecRefs

  const SEPARATOR := "__"

  function PrefixedId(prefix: string, n: Id): Id {
    prefix + SEPARATOR + n
  }

  function Strip(prefix: string, m: Id): Id {
    if |m| >= |prefix| + 2 then m[|prefix| + 2..] else m
  }

  lemma StripPrefixed(prefix: string, n: Id)
    ensures Strip(prefix, PrefixedId(prefix, n)) == n
  {
  }

  function Mapping(nodes: map<Id, RuntimeOp>, prefix: string): map<Id, Id> {
    map n | n in nodes :: PrefixedId(prefix, n)
  }

  /** `mapping.get(id, id)` */
  function Move(mapping: map<Id, Id>, n: Id): Id {
    if n in mapping then mapping[n] else n
  }

  function MoveAll(mapping: map<Id, Id>, s: seq<Id>): (r: seq<Id>)
    ensures |r| == |s| && forall i :: 0 <= i < |s| ==> r[i] == Move(mapping, s[i])
  {
    seq(|s|, i requires 0 <= i < |s| => Move(mapping, s[i]))
  }

  /** The ids a spec's placeholders may be rewritten for: the op's own dependencies. */
  function Rewritable(mapping: map<Id, Id>, deps: seq<Id>): map<Id, Id> {
    map d | d in deps && d in mapping :: mapping[d]
  }

  function MovedOp(mapping: map<Id, Id>, op: RuntimeOp): RuntimeOp {
    var rewritable := Rewritable(mapping, op.deps);
    op.(mode := if op.mode.Some? then Some(Specs.Substitute(op.mode.value, rewritable)) else None,
        deps := MoveAll(mapping, op.deps), spec := Specs.Remap(op.spec, mapping, rewritable))
  }

  ghost predicate IsPrefixed(rg: RuntimeGraph, prefix: string, r: RuntimeGraph) {
    var mapping := Mapping(rg.nodes, prefix);
    && r.nodes.Keys == mapping.Values
    && (forall n :: n in rg.nodes ==> mapping[n] in r.nodes && r.nodes[mapping[n]] == MovedOp(mapping, rg.nodes[n]))
    && r.nodeOrder == MoveAll(mapping, rg.nodeOrder)
  }

  /** The op as it is found under its prefixed id, field by field. */
  ghost predicate IsMoved(nodes: map<Id, RuntimeOp>, prefix: string, op: RuntimeOp, moved: RuntimeOp) {
    var all := map n | n in nodes :: PrefixedId(prefix, n);
    var own := map d | d in op.deps && d in nodes :: PrefixedId(prefix, d);
    && moved.taskType == op.taskType
    && (moved.mode.Some? <==> op.mode.Some?)
    && (forall word :: '$' !in word ==> (moved.mode == Some(word) <==> op.mode == Some(word)))
    && |moved.deps| == |op.deps|
    && (forall i :: 0 <= i < |op.deps| ==>
          moved.deps[i] == if op.deps[i] in nodes then PrefixedId(prefix, op.deps[i]) else op.deps[i])
    && Specs.Skeleton(moved.spec) == Specs.Skeleton(op.spec)
    && Specs.LeavesRenamed(Specs.Leaves(op.spec, false), Specs.Leaves(moved.spec, false), all, own)
  }

  method WithNodePrefix(rg: RuntimeGraph, prefix: string) returns (r: RuntimeGraph)
    requires Elems(rg.nodeOrder) <= rg.nodes.Keys
    ensures prefix == "" ==> r == rg
    ensures prefix != "" ==> IsPrefixed(rg, prefix, r)
    ensures prefix != "" ==>
              && (forall m :: m in r.nodes <==> exists n :: n in rg.nodes && m == PrefixedId(prefix, n))
              && (forall n :: n in rg.nodes ==>
                    PrefixedId(prefix, n) in r.nodes && IsMoved(rg.nodes, prefix, rg.nodes[n], r.nodes[PrefixedId(prefix, n)]))
              && |r.nodeOrder| == |rg.nodeOrder|
              && (forall i :: 0 <= i < |r.nodeOrder| ==> r.nodeOrder[i] == PrefixedId(prefix, rg.nodeOrder[i]))
  {
    if prefix == "" {
      return rg;
    }
    var mapping := Mapping(rg.nodes, prefix);
    var nodes: map<Id, RuntimeOp> := map[];
    var todo := rg.nodes.Keys;
    while todo != {}
      invariant todo <= rg.nodes.Keys
      invariant forall m :: m in nodes ==> Strip(prefix, m) in rg.nodes.Keys - todo && m == mapping[Strip(prefix, m)]
      invariant forall n :: n in rg.nodes && n !in todo ==>
        mapping[n] in nodes && nodes[mapping[n]] == MovedOp(mapping, rg.nodes[n])
    {
      var n :| n in todo;
      StripPrefixed(prefix, n);
      forall k | k in rg.nodes ensures mapping[k] == mapping[n] ==> k == n {
        StripPrefixed(prefix, k);
      }
      nodes := nodes[mapping[n] := MovedOp(mapping, rg.nodes[n])];
      todo := todo - {n};
    }
    r := RuntimeGraph(nodes, MoveAll(mapping, rg.nodeOrder));
    forall m ensures m in nodes <==> m in mapping.Values {
      if m in mapping.Values {
        var n :| n in mapping && mapping[n] == m;
        assert mapping[n] in nodes;
      }
      if m in nodes {
        assert mapping[Strip(prefix, m)] in mapping.Values;
      }
    }
    PrefixedFieldByField(rg, prefix, r);
  }

  lemma PrefixedFieldByField(rg: RuntimeGraph, prefix: string, r: RuntimeGraph)
    requires IsPrefixed(rg, prefix, r) && Elems(rg.nodeOrder) <= rg.nodes.Keys
    ensures forall m :: m in r.nodes <==> exists n :: n in rg.nodes && m == PrefixedId(prefix, n)
    ensures forall n :: n in rg.nodes ==>
              PrefixedId(prefix, n) in r.nodes && IsMoved(rg.nodes, prefix, rg.nodes[n], r.nodes[PrefixedId(prefix, n)])
    ensures forall i :: 0 <= i < |r.nodeOrder| ==> r.nodeOrder[i] == PrefixedId(prefix, rg.nodeOrder[i])
  {
    var mapping := Mapping(rg.nodes, prefix);
    forall n | n in rg.nodes
      ensures mapping[n] in r.nodes && IsMoved(rg.nodes, prefix, rg.nodes[n], r.nodes[mapping[n]])
    {
      MovedOpIs(rg.nodes, prefix, rg.nodes[n]);
    }
    forall m ensures m in r.nodes <==> exists n :: n in rg.nodes && m == PrefixedId(prefix, n) {
      if m in r.nodes {
        var n :| n in mapping && mapping[n] == m;
        assert n in rg.nodes && m == PrefixedId(prefix, n);
      }
      if n :| n in rg.nodes && m == PrefixedId(prefix, n) {
        assert mapping[n] in mapping.Values;
      }
    }
    forall i | 0 <= i < |r.nodeOrder| ensures r.nodeOrder[i] == PrefixedId(prefix, rg.nodeOrder[i]) {
      assert rg.nodeOrder[i] in Elems(rg.nodeOrder);
    }
  }

  lemma MovedOpIs(nodes: map<Id, RuntimeOp>, prefix: string, op: RuntimeOp)
    ensures IsMoved(nodes, prefix, op, MovedOp(Mapping(nodes, prefix), op))
  {
    var mapping := Mapping(nodes, prefix);
    var rewritable := Rewritable(mapping, op.deps);
    assert rewritable == map d | d in op.deps && d in nodes :: PrefixedId(prefix, d);
    Specs.RemapRenamesTexts(op.spec, mapping, rewritable);
    if op.mode.Some? {
      forall word | '$' !in word ensures Specs.Substitute(op.mode.value, rewritable) == word <==> op.mode.value == word {
        Specs.SubstituteKeyword(op.mode.value, word, rewritable);
      }
    }
  }

  // ----- the texts of a prefixed node -----------------------------------------------------

  /** A placeholder with the prefixed name reads as one of that name exactly when the prefix holds no `.` and no `}`. */
  lemma PrefixedPlaceholderReads(p: Specs.Placeholder, prefix: string, tail: string)
    requires Specs.WellFormed(p)
    ensures
      var p' := p.(node := PrefixedId(prefix, p.node));
      Specs.MatchHere(Specs.Written(p') + tail) == Some(p') <==> '.' !in prefix && '}' !in prefix
  {
    var p' := p.(node := PrefixedId(prefix, p.node));
    assert forall c :: c in prefix ==> c in p'.node;
    if '.' !in prefix && '}' !in prefix {
      Specs.MatchWritten(p', tail);
    }
  }

  /**
   With such a prefix, and if no prefixed id is the id of a node, no text of a prefixed node
   names one of the node's dependencies by its old id.
   */
  lemma PrefixedTextsForget(rg: RuntimeGraph, prefix: string, r: RuntimeGraph, n: Id, i: nat)
    requires IsPrefixed(rg, prefix, r) && n in rg.nodes && '.' !in prefix && '}' !in prefix
    requires forall k :: k in rg.nodes ==> PrefixedId(prefix, k) !in rg.nodes
    requires i < |Specs.Leaves(rg.nodes[n].spec, false)|
    ensures PrefixedId(prefix, n) in r.nodes
    ensures
      var own := map d | d in rg.nodes[n].deps && d in rg.nodes :: PrefixedId(prefix, d);
      var before, after := Specs.Leaves(rg.nodes[n].spec, false), Specs.Leaves(r.nodes[PrefixedId(prefix, n)].spec, false);
      && |after| == |before|
      && (if before[i].isNode && before[i].text in rg.nodes then after[i].text == PrefixedId(prefix, before[i].text)
          else !Specs.Mentions(after[i].text, own))
  {
    var mapping := Mapping(rg.nodes, prefix);
    var rewritable := Rewritable(mapping, rg.nodes[n].deps);
    assert rewritable == map d | d in rg.nodes[n].deps && d in rg.nodes :: PrefixedId(prefix, d);
    forall k | k in rewritable && Specs.WellNamed(k) ensures Specs.WellNamed(rewritable[k]) && rewritable[k] !in rewritable {
      assert rewritable[k] == PrefixedId(prefix, k);
    }
    Specs.RemapForgets(rg.nodes[n].spec, mapping, rewritable, i);
  }

  /** With a `.` in the prefix the old name can come back: the placeholder of `d` under the prefix `d.` names `d`. */
  lemma DottedPrefixStillMentions(d: Id, path: string, rewritable: map<Id, Id>)
    requires Specs.WellFormed(Specs.Placeholder(d, path)) && d in rewritable && rewritable[d] == PrefixedId(d + ".", d)
    ensures Specs.Mentions(Specs.Substitute(Specs.Written(Specs.Placeholder(d, path)), rewritable), rewritable)
  {
    var p := Specs.Placeholder(d, path);
    var again := Specs.Placeholder(d, SEPARATOR + d + "." + path);
    var w := Specs.Written(p.(node := rewritable[d]));
    assert Specs.Substitute(Specs.Written(p), rewritable) == w by {
      assert Specs.Written(p) + "" == Specs.Written(p) && w + "" == w;
      Specs.SubstituteWritten(p, "", rewritable);
    }
    DottedReadsAgain(d, path);
    assert w == Specs.Written(again) + "";
    Specs.MatchWritten(again, "");
  }

  lemma DottedReadsAgain(d: Id, path: string)
    ensures Specs.Written(Specs.Placeholder(PrefixedId(d + ".", d), path))
         == Specs.Written(Specs.Placeholder(d, SEPARATOR + d + "." + path))
  {
    var tail := SEPARATOR + d + "." + path;
    assert PrefixedId(d + ".", d) == d + "." + SEPARATOR + d;
    assert PrefixedId(d + ".", d) + "." + path == d + "." + tail;
    var w := "${" + PrefixedId(d + ".", d) + "." + path;
    assert w == "${" + (PrefixedId(d + ".", d) + "." + path);
    assert w == "${" + d + "." + tail;
  }

  /**
   The references in a node's spec after prefixing are the prefixed ones, phantoms kept, exactly
   when no phantom reference of the spec mentions a dependency of the node in a placeholder.
   */
  lemma PrefixRenamesRefs(rg: RuntimeGraph, prefix: string, r: RuntimeGraph, n: Id)
    requires IsPrefixed(rg, prefix, r) && n in rg.nodes
    ensures
      var mapping := Mapping(rg.nodes, prefix);
      var spec := rg.nodes[n].spec;
      && PrefixedId(prefix, n) in r.nodes
      && (Specs.Refs(r.nodes[PrefixedId(prefix, n)].spec, true) == Specs.Intended(Specs.Refs(spec, true), mapping) <==>
            forall ref :: ref in Specs.Refs(spec, true) && ref !in mapping ==>
              !Specs.Mentions(ref, Rewritable(mapping, rg.nodes[n].deps)))
  {
    var mapping := Mapping(rg.nodes, prefix);
    Specs.RemapRenamesExactly(rg.nodes[n].spec, true, mapping, Rewritable(mapping, rg.nodes[n].deps));
  }

  // ----- the dependency relation moves along ---------------------------------------------

  ghost predicate NoCollision(rg: RuntimeGraph, prefix: string) {
    forall d :: d in DepIds(rg.nodes) && d !in rg.nodes ==> d !in Mapping(rg.nodes, prefix).Values
  }

  ghost function Forward(rg: RuntimeGraph, prefix: string): map<Id, Id> {
    map n | n in rg.nodes.Keys + DepIds(rg.nodes) :: Move(Mapping(rg.nodes, prefix), n)
  }

  ghost function Backward(rg: RuntimeGraph, prefix: string, r: RuntimeGraph): map<Id, Id> {
    map m | m in r.nodes.Keys + DepIds(r.nodes) :: if m in r.nodes then Strip(prefix, m) else m
  }

  lemma MovedNode(rg: RuntimeGraph, prefix: string, r: RuntimeGraph, n: Id)
    requires IsPrefixed(rg, prefix, r) && n in rg.nodes
    ensures PrefixedId(prefix, n) in r.nodes
    ensures r.nodes[PrefixedId(prefix, n)].deps == MoveAll(Mapping(rg.nodes, prefix), rg.nodes[n].deps)
    ensures Move(Mapping(rg.nodes, prefix), n) == PrefixedId(prefix, n)
  {
  }

  lemma NodeOrigin(rg: RuntimeGraph, prefix: string, r: RuntimeGraph, m: Id)
    requires IsPrefixed(rg, prefix, r) && m in r.nodes
    ensures Strip(prefix, m) in rg.nodes && m == PrefixedId(prefix, Strip(prefix, m))
  {
    var n :| n in rg.nodes && Mapping(rg.nodes, prefix)[n] == m;
    StripPrefixed(prefix, n);
  }

  lemma DepMoves(rg: RuntimeGraph, prefix: string, r: RuntimeGraph, n: Id, d: Id)
    requires IsPrefixed(rg, prefix, r) && DependsOn(rg.nodes, n, d)
    ensures DependsOn(r.nodes, PrefixedId(prefix, n), Move(Mapping(rg.nodes, prefix), d))
  {
    MovedNode(rg, prefix, r, n);
    var i :| 0 <= i < |rg.nodes[n].deps| && rg.nodes[n].deps[i] == d;
    assert r.nodes[PrefixedId(prefix, n)].deps[i] == Move(Mapping(rg.nodes, prefix), d);
  }

  lemma DepOrigin(rg: RuntimeGraph, prefix: string, r: RuntimeGraph, m: Id, e: Id) returns (d: Id)
    requires IsPrefixed(rg, prefix, r) && DependsOn(r.nodes, m, e)
    ensures m in r.nodes && Strip(prefix, m) in rg.nodes
    ensures DependsOn(rg.nodes, Strip(prefix, m), d) && e == Move(Mapping(rg.nodes, prefix), d)
  {
    NodeOrigin(rg, prefix, r, m);
    var n := Strip(prefix, m);
    MovedNode(rg, prefix, r, n);
    var i :| 0 <= i < |r.nodes[m].deps| && r.nodes[m].deps[i] == e;
    d := rg.nodes[n].deps[i];
  }

  /** What a moved id comes back to. */
  lemma MoveBack(rg: RuntimeGraph, prefix: string, r: RuntimeGraph, d: Id)
    requires IsPrefixed(rg, prefix, r) && NoCollision(rg, prefix)
    requires d in rg.nodes.Keys + DepIds(rg.nodes)
    ensures var e := Move(Mapping(rg.nodes, prefix), d);
      && (e in r.nodes <==> d in rg.nodes)
      && (if e in r.nodes then Strip(prefix, e) else e) == d
  {
    if d in rg.nodes {
      MovedNode(rg, prefix, r, d);
      StripPrefixed(prefix, d);
    }
  }

  /** The prefixed dependency graph is the original one, renamed, exactly when no phantom carries a prefixed id. */
  lemma PrefixIsomorphic(rg: RuntimeGraph, prefix: string, r: RuntimeGraph)
    requires IsPrefixed(rg, prefix, r)
    ensures Isomorphic(DepGraph(rg.nodes), DepGraph(r.nodes), Forward(rg, prefix), Backward(rg, prefix, r)) <==>
              NoCollision(rg, prefix)
    ensures (exists back :: Isomorphic(DepGraph(rg.nodes), DepGraph(r.nodes), Forward(rg, prefix), back)) <==>
              NoCollision(rg, prefix)
  {
    var g, h, f := DepGraph(rg.nodes), DepGraph(r.nodes), Forward(rg, prefix);
    if NoCollision(rg, prefix) {
      ApartIsomorphic(rg, prefix, r);
    }
    forall back | Isomorphic(g, h, f, back) ensures NoCollision(rg, prefix) {
      InvertibleIsApart(rg, prefix, r, back);
    }
  }

  /** A phantom with a prefixed id and the node of that id move to one place, so no renaming leads back. */
  lemma InvertibleIsApart(rg: RuntimeGraph, prefix: string, r: RuntimeGraph, back: map<Id, Id>)
    requires Isomorphic(DepGraph(rg.nodes), DepGraph(r.nodes), Forward(rg, prefix), back)
    ensures NoCollision(rg, prefix)
  {
    var f, mapping := Forward(rg, prefix), Mapping(rg.nodes, prefix);
    DepGraphIs(rg.nodes);
    forall n, d | n in rg.nodes && d in DepIds(rg.nodes) && d !in rg.nodes ensures mapping[n] != d {
      assert f[n] == mapping[n] && f[d] == d;
      assert back[f[n]] == n && back[f[d]] == d;
    }
  }

  lemma ApartIsomorphic(rg: RuntimeGraph, prefix: string, r: RuntimeGraph)
    requires IsPrefixed(rg, prefix, r) && NoCollision(rg, prefix)
    ensures Isomorphic(DepGraph(rg.nodes), DepGraph(r.nodes), Forward(rg, prefix), Backward(rg, prefix, r))
  {
    var g, h := DepGraph(rg.nodes), DepGraph(r.nodes);
    var f, back := Forward(rg, prefix), Backward(rg, prefix, r);
    DepGraphIs(rg.nodes);
    DepGraphIs(r.nodes);
    PrefixCarries(rg, prefix, r);
    PrefixCarriesBack(rg, prefix, r);
    ThereAndBack(rg, prefix, r);
    BackAndThere(rg, prefix, r);
  }

  lemma ThereAndBack(rg: RuntimeGraph, prefix: string, r: RuntimeGraph)
    requires IsPrefixed(rg, prefix, r) && NoCollision(rg, prefix)
    requires forall n :: n in Forward(rg, prefix) ==> Forward(rg, prefix)[n] in Backward(rg, prefix, r)
    ensures forall n :: n in Forward(rg, prefix) ==> Backward(rg, prefix, r)[Forward(rg, prefix)[n]] == n
  {
    forall n | n in Forward(rg, prefix) ensures Backward(rg, prefix, r)[Forward(rg, prefix)[n]] == n {
      MoveBack(rg, prefix, r, n);
    }
  }

  lemma BackAndThere(rg: RuntimeGraph, prefix: string, r: RuntimeGraph)
    requires IsPrefixed(rg, prefix, r) && NoCollision(rg, prefix)
    requires forall m :: m in Backward(rg, prefix, r) ==> Backward(rg, prefix, r)[m] in Forward(rg, prefix)
    ensures forall m :: m in Backward(rg, prefix, r) ==> Forward(rg, prefix)[Backward(rg, prefix, r)[m]] == m
  {
    forall m | m in Backward(rg, prefix, r) ensures Forward(rg, prefix)[Backward(rg, prefix, r)[m]] == m {
      OriginForth(rg, prefix, r, m);
    }
  }

  lemma PrefixCarries(rg: RuntimeGraph, prefix: string, r: RuntimeGraph)
    requires IsPrefixed(rg, prefix, r) && NoCollision(rg, prefix)
    ensures Carries(DepGraph(rg.nodes), DepGraph(r.nodes), Forward(rg, prefix))
  {
    var g, h, f := DepGraph(rg.nodes), DepGraph(r.nodes), Forward(rg, prefix);
    DepGraphIs(rg.nodes);
    DepGraphIs(r.nodes);
    forall n | n in Nodes(g) ensures f[n] in Nodes(h) {
      if n in rg.nodes {
        MovedNode(rg, prefix, r, n);
      } else {
        var k, i :| k in rg.nodes && 0 <= i < |rg.nodes[k].deps| && rg.nodes[k].deps[i] == n;
        DepMoves(rg, prefix, r, k, n);
        DepIdsHas(r.nodes, PrefixedId(prefix, k), f[n]);
      }
    }
    forall a, b | Edge(g, a, b) ensures Edge(h, f[a], f[b]) {
      assert DependsOn(rg.nodes, b, a);
      DepMoves(rg, prefix, r, b, a);
      MovedNode(rg, prefix, r, b);
    }
  }

  lemma OriginForth(rg: RuntimeGraph, prefix: string, r: RuntimeGraph, m: Id)
    requires IsPrefixed(rg, prefix, r) && NoCollision(rg, prefix)
    requires m in r.nodes.Keys + DepIds(r.nodes)
    ensures var n := if m in r.nodes then Strip(prefix, m) else m;
      && n in rg.nodes.Keys + DepIds(rg.nodes)
      && Move(Mapping(rg.nodes, prefix), n) == m
  {
    if m in r.nodes {
      NodeOrigin(rg, prefix, r, m);
    } else {
      var k, i :| k in r.nodes && 0 <= i < |r.nodes[k].deps| && r.nodes[k].deps[i] == m;
      var d := DepOrigin(rg, prefix, r, k, m);
      DepIdsHas(rg.nodes, Strip(prefix, k), d);
      if d in rg.nodes {
        MovedNode(rg, prefix, r, d);
      }
    }
  }

  lemma PrefixCarriesBack(rg: RuntimeGraph, prefix: string, r: RuntimeGraph)
    requires IsPrefixed(rg, prefix, r) && NoCollision(rg, prefix)
    ensures Carries(DepGraph(r.nodes), DepGraph(rg.nodes), Backward(rg, prefix, r))
  {
    var g, h, back := DepGraph(rg.nodes), DepGraph(r.nodes), Backward(rg, prefix, r);
    DepGraphIs(rg.nodes);
    DepGraphIs(r.nodes);
    forall m | m in Nodes(h) ensures back[m] in Nodes(g) {
      OriginForth(rg, prefix, r, m);
    }
    forall a, b | Edge(h, a, b) ensures Edge(g, back[a], back[b]) {
      assert DependsOn(r.nodes, b, a);
      var d := DepOrigin(rg, prefix, r, b, a);
      DepIdsHas(rg.nodes, Strip(prefix, b), d);
      MoveBack(rg, prefix, r, d);
      assert DependsOn(rg.nodes, Strip(prefix, b), d);
    }
  }

  // ----- the order commutes ------------------------------------------------------------------

  lemma MovedPermutation(rg: RuntimeGraph, prefix: string, r: RuntimeGraph, s: seq<Id>)
    requires IsPrefixed(rg, prefix, r) && NoDup(s) && Elems(s) == rg.nodes.Keys
    ensures NoDup(MoveAll(Mapping(rg.nodes, prefix), s)) && Elems(MoveAll(Mapping(rg.nodes, prefix), s)) == r.nodes.Keys
  {
    var mapping := Mapping(rg.nodes, prefix);
    var t := MoveAll(mapping, s);
    forall i | 0 <= i < |s| ensures s[i] in rg.nodes && Strip(prefix, t[i]) == s[i] && t[i] in r.nodes {
      assert s[i] in Elems(s);
      MovedNode(rg, prefix, r, s[i]);
      StripPrefixed(prefix, s[i]);
    }
    forall m | m in r.nodes ensures m in t {
      NodeOrigin(rg, prefix, r, m);
      assert Strip(prefix, m) in Elems(s);
      var i :| 0 <= i < |s| && s[i] == Strip(prefix, m);
      assert t[i] == m;
    }
  }

  /** Prefixing keeps acyclicity and carries the canonical order over. */
  lemma PrefixCommutes(rg: RuntimeGraph, prefix: string, r: RuntimeGraph)
    requires IsPrefixed(rg, prefix, r) && NoCollision(rg, prefix) && OrderIsPermutation(rg)
    ensures OrderIsPermutation(r)
    ensures Acyclic(DepGraph(rg.nodes)) <==> Acyclic(DepGraph(r.nodes))
    ensures Acyclic(DepGraph(rg.nodes)) ==>
      forall s, t :: IsCanonicalOrder(rg, s) && IsCanonicalOrder(r, t) ==> t == MoveAll(Mapping(rg.nodes, prefix), s)
  {
    var g, h := DepGraph(rg.nodes), DepGraph(r.nodes);
    var f, back := Forward(rg, prefix), Backward(rg, prefix, r);
    ApartIsomorphic(rg, prefix, r);
    if Acyclic(g) {
      IsomorphicAcyclic(h, g, back);
    }
    if Acyclic(h) {
      IsomorphicAcyclic(g, h, f);
    }
    MovedPermutation(rg, prefix, r, rg.nodeOrder);
    if Acyclic(g) {
      forall s, t | IsCanonicalOrder(rg, s) && IsCanonicalOrder(r, t)
        ensures t == MoveAll(Mapping(rg.nodes, prefix), s)
      {
        MovedOrderIsCanonical(rg, prefix, r, s);
        CanonicalOrderUnique(r, t, MoveAll(Mapping(rg.nodes, prefix), s));
      }
    }
  }

  lemma MovedOrderIsCanonical(rg: RuntimeGraph, prefix: string, r: RuntimeGraph, s: seq<Id>)
    requires IsPrefixed(rg, prefix, r) && NoCollision(rg, prefix) && OrderIsPermutation(rg) && OrderIsPermutation(r)
    requires Acyclic(DepGraph(rg.nodes)) && IsCanonicalOrder(rg, s)
    ensures IsCanonicalOrder(r, MoveAll(Mapping(rg.nodes, prefix), s))
  {
    var t := MoveAll(Mapping(rg.nodes, prefix), s);
    MovedPermutation(rg, prefix, r, s);
    forall i, j | 0 <= i < j < |t| ensures Before(r, t[i], t[j]) {
      assert s[i] in Elems(s) && s[j] in Elems(s);
      MovedBefore(rg, prefix, r, s[i], s[j]);
    }
  }

  lemma MovedBefore(rg: RuntimeGraph, prefix: string, r: RuntimeGraph, x: Id, y: Id)
    requires IsPrefixed(rg, prefix, r) && NoCollision(rg, prefix) && OrderIsPermutation(rg) && OrderIsPermutation(r)
    requires Acyclic(DepGraph(rg.nodes)) && x in rg.nodes && y in rg.nodes && Before(rg, x, y)
    ensures Before(r, Move(Mapping(rg.nodes, prefix), x), Move(Mapping(rg.nodes, prefix), y))
  {
    var mapping := Mapping(rg.nodes, prefix);
    MovedHeight(rg, prefix, r, x);
    MovedHeight(rg, prefix, r, y);
    MovedPosition(rg, prefix, r, x);
    MovedPosition(rg, prefix, r, y);
    SameRanks(rg, r, x, y, Move(mapping, x), Move(mapping, y));
  }

  lemma MovedPosition(rg: RuntimeGraph, prefix: string, r: RuntimeGraph, n: Id)
    requires IsPrefixed(rg, prefix, r) && OrderIsPermutation(rg) && OrderIsPermutation(r) && n in rg.nodes
    ensures SamePosition(rg, r, n, Move(Mapping(rg.nodes, prefix), n))
  {
    assert n in Elems(rg.nodeOrder);
    MovedKey(rg.nodeOrder, Mapping(rg.nodes, prefix), n);
  }

  ghost predicate SamePosition(rg: RuntimeGraph, r: RuntimeGraph, x: Id, x': Id) {
    OrderKey(OrderIndex(r.nodeOrder))(x') == OrderKey(OrderIndex(rg.nodeOrder))(x)
  }

  lemma SameRanks(rg: RuntimeGraph, r: RuntimeGraph, x: Id, y: Id, x': Id, y': Id)
    requires Before(rg, x, y) && SamePosition(rg, r, x, x') && SamePosition(rg, r, y, y')
    requires Height(DepGraph(r.nodes), x') == Height(DepGraph(rg.nodes), x)
    requires Height(DepGraph(r.nodes), y') == Height(DepGraph(rg.nodes), y)
    ensures Before(r, x', y')
  {
  }

  lemma MovedHeight(rg: RuntimeGraph, prefix: string, r: RuntimeGraph, n: Id)
    requires IsPrefixed(rg, prefix, r) && NoCollision(rg, prefix) && n in rg.nodes
    requires Acyclic(DepGraph(rg.nodes))
    ensures Height(DepGraph(r.nodes), Move(Mapping(rg.nodes, prefix), n)) == Height(DepGraph(rg.nodes), n)
  {
    DepGraphIs(rg.nodes);
    ApartIsomorphic(rg, prefix, r);
    IsomorphicHeights(DepGraph(rg.nodes), DepGraph(r.nodes), Forward(rg, prefix), Backward(rg, prefix, r));
    assert Forward(rg, prefix)[n] == Move(Mapping(rg.nodes, prefix), n);
  }

  lemma MovedKey(order: seq<Id>, mapping: map<Id, Id>, n: Id)
    requires NoDup(order) && NoDup(MoveAll(mapping, order)) && n in order
    ensures OrderKey(OrderIndex(MoveAll(mapping, order)))(Move(mapping, n)) == OrderKey(OrderIndex(order))(n)
  {
    var moved := MoveAll(mapping, order);
    var i :| 0 <= i < |order| && order[i] == n;
    KeyAt(order, i);
    KeyAt(moved, i);
  }

  lemma KeyAt(order: seq<Id>, i: nat)
    requires NoDup(order) && i < |order|
    ensures OrderKey(OrderIndex(order))(order[i]) == i
  {
    OrderIndexAt(order, i);
    assert order[i] in Elems(order);
  }

  /** The collision matters: a node that depends on a phantom named like its own prefixed id. */
  lemma CollisionMakesCycle(prefix: string, a: Id, op: RuntimeOp, r: RuntimeGraph)
    requires op.deps == [PrefixedId(prefix, a)]
    requires IsPrefixed(RuntimeGraph(map[a := op], [a]), prefix, r)
    ensures Acyclic(DepGraph(map[a := op])) && !Acyclic(DepGraph(r.nodes))
  {
    var b := PrefixedId(prefix, a);
    assert |b| > |a|;
    LoneNodeIsAcyclic(a, op, b);
    MovedNode(RuntimeGraph(map[a := op], [a]), prefix, r, a);
    assert r.nodes[b].deps[0] == Move(Mapping(map[a := op], prefix), b) == b;
    SelfDependencyIsCycle(r.nodes, b);
  }

  lemma LoneNodeIsAcyclic(a: Id, op: RuntimeOp, b: Id)
    requires op.deps == [b] && a != b
    ensures Acyclic(DepGraph(map[a := op]))
  {
    var g := DepGraph(map[a := op]);
    DepGraphIs(map[a := op]);
    forall x, y | Edge(g, x, y) ensures x == b && y == a {
      assert DependsOn(map[a := op], y, x);
    }
    RankedIsAcyclic(g, map[b := 0, a := 1]);
  }

  lemma SelfDependencyIsCycle(nodes: map<Id, RuntimeOp>, b: Id)
    requires DependsOn(nodes, b, b)
    ensures !Acyclic(DepGraph(nodes))
  {
    DepGraphIs(nodes);
    assert Edge(DepGraph(nodes), b, b);
    assert IsCycle(DepGraph(nodes), [b, b]);
  }
}
