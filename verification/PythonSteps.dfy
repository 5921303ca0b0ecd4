/**
 runtime/runtime_graph.py: building standalone python steps out of Lambda ops.
 `_build_python_step` is a memoised recursion over the op graph; the standalone pass calls it
 for every row-mode Lambda that needs a task of its own, and `_check_inlined_lambda_refs`
 then looks for references to Lambdas that have none.
 */
module PythonSteps {
  import opened Sequences
  import opened RowCounts
  import opened Digraph
  import Specs = SpecRefs

  /** The fields of a runtime node that building and checking read. */
  datatype Node = Node(deps: seq<Id>, spec: Specs.Json, condition: Option<Id>)

  datatype BuildError = BadInput(op: Id, input: Id) | NotOneUpstreamNode(op: Id, input: Id) | RowCountsDiffer(op: Id)

  /** `_iter_runtime_refs` */
  function RuntimeRefs(n: Node): (refs: seq<Id>) {
    Specs.Refs(n.spec, true) + (if n.condition.Some? then [n.condition.value] else [])
  }

  // ----- one step ---------------------------------------------------------------------------

  type Mapping = map<Id, seq<Id>>

  function RuntimeIds(dsl: Mapping, id: Id): (ids: seq<Id>) {
    if id in dsl then dsl[id] else []
  }

  predicate GoodInput(graph: Graph, dsl: Mapping, inp: Id)
    requires inp in graph
  {
    && !graph[inp].OtherOp?
    && (graph[inp].Upstream? ==> |RuntimeIds(dsl, inp)| == 1)
  }

  /** The step compiles: its inputs can be read and their row counts fit. */
  ghost predicate Buildable(graph: Graph, rank: map<Id, nat>, dsl: Mapping, id: Id)
    requires Layered(graph, rank)
  {
    && id in graph && graph[id].Lambda?
    && (forall inp :: inp in graph[id].inputs ==> GoodInput(graph, dsl, inp))
    && StepRowCount(InputCounts(graph, rank, graph[id].inputs), true).Ok?
  }

  function Texts(values: seq<string>): (items: Specs.Items) {
    if values == [] then Specs.NoItem else Specs.Item(Specs.Str(values[0]), Texts(values[1..]))
  }

  function LiteralEntry(values: seq<string>): Specs.Json {
    Specs.Obj(Specs.Field("kind", Specs.Str("literal"), Specs.Field("values", Specs.Arr(Texts(values)), Specs.NoField)))
  }

  function StageEntry(node: Id): Specs.Json {
    Specs.Obj(Specs.Field("kind", Specs.Str("stage"), Specs.Field("node", Specs.Str(node), Specs.NoField)))
  }

  /** The runtime node an input is read from; none for literal values. */
  function ReadFrom(graph: Graph, dsl: Mapping, inp: Id): (node: Option<Id>)
    requires inp in graph
  {
    if graph[inp].Lambda? then Some(inp)
    else if graph[inp].Upstream? && RuntimeIds(dsl, inp) != [] then Some(RuntimeIds(dsl, inp)[0])
    else None
  }

  function EntryOf(graph: Graph, dsl: Mapping, inp: Id): (entry: Specs.Json)
    requires inp in graph
  {
    match ReadFrom(graph, dsl, inp)
    case Some(node) => StageEntry(node)
    case None => LiteralEntry(if graph[inp].Source? then graph[inp].values else [])
  }

  function AppendItem(items: Specs.Items, v: Specs.Json): (r: Specs.Items) {
    match items
    case NoItem => Specs.Item(v, Specs.NoItem)
    case Item(w, rest) => Specs.Item(w, AppendItem(rest, v))
  }

  function PlanOf(graph: Graph, dsl: Mapping, inputs: seq<Id>): (plan: Specs.Items)
    requires forall inp :: inp in inputs ==> inp in graph
  {
    if inputs == [] then Specs.NoItem
    else
      var n := |inputs| - 1;
      AppendItem(PlanOf(graph, dsl, inputs[..n]), EntryOf(graph, dsl, inputs[n]))
  }

  function DepsOf(graph: Graph, dsl: Mapping, inputs: seq<Id>): (deps: seq<Id>)
    requires forall inp :: inp in inputs ==> inp in graph
  {
    if inputs == [] then []
    else
      var n := |inputs| - 1;
      var deps, dep := DepsOf(graph, dsl, inputs[..n]), ReadFrom(graph, dsl, inputs[n]);
      if dep.Some? && dep.value !in deps then deps + [dep.value] else deps
  }

  function StepSpec(plan: Specs.Items): Specs.Json {
    Specs.Obj(Specs.Field("code", Specs.Str(""), Specs.Field("plan", Specs.Arr(plan), Specs.NoField)))
  }

  function StepNode(graph: Graph, dsl: Mapping, inputs: seq<Id>): (n: Node)
    requires forall inp :: inp in inputs ==> inp in graph
  {
    Node(DepsOf(graph, dsl, inputs), StepSpec(PlanOf(graph, dsl, inputs)), None)
  }

  // ----- what a step refers to ------------------------------------------------------------------

  lemma {:induction false} TextsHaveNoRefs(values: seq<string>)
    ensures Specs.RefsOfItems(Texts(values), true) == []
  {
    if values != [] {
      TextsHaveNoRefs(values[1..]);
    }
  }

  lemma EntryRefs(graph: Graph, dsl: Mapping, inp: Id)
    requires inp in graph
    ensures Specs.Refs(EntryOf(graph, dsl, inp), true)
         == match ReadFrom(graph, dsl, inp) case Some(node) => [node] case None => []
  {
    match ReadFrom(graph, dsl, inp)
    case Some(node) => StageRefs(node);
    case None => LiteralRefs(if graph[inp].Source? then graph[inp].values else []);
  }

  /** The keys and keywords are different strings. */
  lemma DistinctKeys()
    ensures "kind" != "node" && "kind" != "type" && "kind" != "path" && "kind" != "expr"
    ensures "node" != "type" && "node" != "path" && "node" != "expr"
    ensures "values" != "node" && "values" != "type" && "values" != "kind"
    ensures "code" != "node" && "code" != "type" && "code" != "plan" && "plan" != "node" && "plan" != "type"
    ensures "literal" != "stage" && "stage" != "list" && "literal" != "list"
  {
    assert "kind"[0] == 'k' && "node"[0] == 'n' && "type"[0] == 't' && "path"[0] == 'p' && "expr"[0] == 'e';
    assert "code"[0] == 'c' && "plan"[0] == 'p' && |"values"| == 6 && |"node"| == 4 && |"type"| == 4;
    assert |"literal"| == 7 && |"stage"| == 5 && |"list"| == 4;
  }

  lemma GetPast(fields: Specs.Fields, key: string)
    requires fields.Field? && fields.key != key && fields.rest == Specs.NoField
    ensures Specs.Get(fields, key) == None
  {
  }

  lemma StageRefs(node: Id)
    ensures Specs.Refs(StageEntry(node), true) == [node]
  {
    DistinctKeys();
    var node' := Specs.Field("node", Specs.Str(node), Specs.NoField);
    var fields := Specs.Field("kind", Specs.Str("stage"), node');
    assert Specs.Get(Specs.NoField, "path") == None && Specs.Get(Specs.NoField, "expr") == None;
    assert Specs.Get(node', "path") == None && Specs.Get(node', "expr") == None && Specs.Get(node', "type") == None;
    assert Specs.Get(fields, "node") == Some(Specs.Str(node)) && Specs.Get(fields, "kind") == Some(Specs.Str("stage"));
    assert Specs.Get(fields, "path") == None && Specs.Get(fields, "expr") == None && Specs.Get(fields, "type") == None;
  }

  lemma LiteralRefs(values: seq<string>)
    ensures Specs.Refs(LiteralEntry(values), true) == []
  {
    TextsHaveNoRefs(values);
    DistinctKeys();
    var rest := Specs.Field("values", Specs.Arr(Texts(values)), Specs.NoField);
    var fields := Specs.Field("kind", Specs.Str("literal"), rest);
    GetPast(rest, "node");
    GetPast(rest, "type");
    assert Specs.Get(rest, "node") == None && Specs.Get(rest, "type") == None;
    assert Specs.Get(fields, "node") == None && Specs.Get(fields, "type") == None;
    assert Specs.Get(fields, "kind") == Some(Specs.Str("literal"));
    assert |"literal"| != |"stage"|;
    assert !Specs.IsStr(Specs.Get(fields, "kind"), "stage") && !Specs.IsStr(Specs.Get(fields, "type"), "list");
    assert Specs.RefsOfFields(Specs.NoField, true) == [];
    assert Specs.Refs(Specs.Arr(Texts(values)), true) == [];
    assert Specs.RefsOfFields(rest, true) == [];
    assert Specs.Refs(Specs.Str("literal"), true) == [];
    assert Specs.RefsOfFields(fields, true) == [];
  }

  lemma {:induction false} AppendedRefs(items: Specs.Items, v: Specs.Json)
    ensures Specs.RefsOfItems(AppendItem(items, v), true) == Specs.RefsOfItems(items, true) + Specs.Refs(v, true)
  {
    if items.Item? {
      AppendedRefs(items.rest, v);
    }
  }

  lemma {:induction false} PlanRefs(graph: Graph, dsl: Mapping, inputs: seq<Id>, ref: Id)
    requires forall inp :: inp in inputs ==> inp in graph
    ensures ref in Specs.RefsOfItems(PlanOf(graph, dsl, inputs), true) <==> ref in DepsOf(graph, dsl, inputs)
  {
    if inputs != [] {
      var n := |inputs| - 1;
      PlanRefs(graph, dsl, inputs[..n], ref);
      AppendedRefs(PlanOf(graph, dsl, inputs[..n]), EntryOf(graph, dsl, inputs[n]));
      EntryRefs(graph, dsl, inputs[n]);
    }
  }

  /** A built step refers exactly to its dependencies. */
  lemma StepRefersToDeps(graph: Graph, dsl: Mapping, inputs: seq<Id>, ref: Id)
    requires forall inp :: inp in inputs ==> inp in graph
    ensures ref in RuntimeRefs(StepNode(graph, dsl, inputs)) <==> ref in StepNode(graph, dsl, inputs).deps
  {
    var plan := PlanOf(graph, dsl, inputs);
    PlanRefs(graph, dsl, inputs, ref);
    DistinctKeys();
    var planField := Specs.Field("plan", Specs.Arr(plan), Specs.NoField);
    var fields := Specs.Field("code", Specs.Str(""), planField);
    GetPast(planField, "node");
    GetPast(planField, "type");
    assert Specs.Get(planField, "node") == None && Specs.Get(planField, "type") == None;
    assert Specs.Get(fields, "node") == None && Specs.Get(fields, "type") == None;
    assert Specs.RefsOfFields(Specs.NoField, true) == [];
    assert Specs.RefsOfFields(planField, true) == Specs.RefsOfItems(plan, true);
    assert Specs.RefsOfFields(fields, true) == Specs.RefsOfItems(plan, true);
    assert Specs.Refs(Specs.Obj(fields), true) == Specs.RefsOfItems(plan, true);
  }

  lemma {:induction false} DepsAre(graph: Graph, dsl: Mapping, inputs: seq<Id>, dep: Id)
    requires forall inp :: inp in inputs ==> inp in graph
    ensures dep in DepsOf(graph, dsl, inputs) <==> exists inp :: inp in inputs && ReadFrom(graph, dsl, inp) == Some(dep)
    ensures NoDup(DepsOf(graph, dsl, inputs))
  {
    if inputs != [] {
      var n := |inputs| - 1;
      DepsAre(graph, dsl, inputs[..n], dep);
      assert inputs == inputs[..n] + [inputs[n]];
    }
  }

  // ----- what a step reads, input by input --------------------------------------------------------

  lemma {:induction false} TextsAre(values: seq<string>)
    ensures |Specs.Elements(Texts(values))| == |values|
    ensures forall j :: 0 <= j < |values| ==> Specs.Elements(Texts(values))[j] == Specs.Str(values[j])
  {
    if values != [] {
      TextsAre(values[1..]);
    }
  }

  lemma {:induction false} AppendedLast(items: Specs.Items, v: Specs.Json)
    ensures Specs.Elements(AppendItem(items, v)) == Specs.Elements(items) + [v]
  {
    if items.Item? {
      AppendedLast(items.rest, v);
    }
  }

  lemma {:induction false} PlanElements(graph: Graph, dsl: Mapping, inputs: seq<Id>)
    requires forall inp :: inp in inputs ==> inp in graph
    ensures |Specs.Elements(PlanOf(graph, dsl, inputs))| == |inputs|
    ensures forall k :: 0 <= k < |inputs| ==> Specs.Elements(PlanOf(graph, dsl, inputs))[k] == EntryOf(graph, dsl, inputs[k])
  {
    if inputs != [] {
      var n := |inputs| - 1;
      PlanElements(graph, dsl, inputs[..n]);
      AppendedLast(PlanOf(graph, dsl, inputs[..n]), EntryOf(graph, dsl, inputs[n]));
    }
  }

  /** The entry names the runtime node of a Lambda or an upstream op, and lists the values of an input op. */
  ghost predicate ReadsInput(graph: Graph, dsl: Mapping, inp: Id, entry: Specs.Json) {
    && inp in graph && entry.Obj?
    && var kind, node, values := Specs.Get(entry.fields, "kind"), Specs.Get(entry.fields, "node"), Specs.Get(entry.fields, "values");
       match graph[inp]
       case Lambda(_, _, _) => kind == Some(Specs.Str("stage")) && node == Some(Specs.Str(inp))
       case Upstream(_) =>
         inp in dsl && |dsl[inp]| == 1 ==> kind == Some(Specs.Str("stage")) && node == Some(Specs.Str(dsl[inp][0]))
       case Source(own) =>
         && kind == Some(Specs.Str("literal")) && values.Some? && values.value.Arr?
         && |Specs.Elements(values.value.items)| == |own|
         && forall j :: 0 <= j < |own| ==> Specs.Elements(values.value.items)[j] == Specs.Str(own[j])
       case OtherOp => true
  }

  lemma EntryReads(graph: Graph, dsl: Mapping, inp: Id)
    requires inp in graph
    ensures ReadsInput(graph, dsl, inp, EntryOf(graph, dsl, inp))
  {
    DistinctKeys();
    match ReadFrom(graph, dsl, inp)
    case Some(node) =>
      var rest := Specs.Field("node", Specs.Str(node), Specs.NoField);
      assert Specs.Get(rest, "node") == Some(Specs.Str(node));
    case None =>
      var own := if graph[inp].Source? then graph[inp].values else [];
      var rest := Specs.Field("values", Specs.Arr(Texts(own)), Specs.NoField);
      assert Specs.Get(rest, "values") == Some(Specs.Arr(Texts(own)));
      TextsAre(own);
  }

  /** A built step reads its inputs in order, each from where it is. */
  lemma StepReadsInputs(graph: Graph, dsl: Mapping, t: Tables, id: Id, k: nat)
    requires IsStepOf(graph, dsl, t, id) && k < |graph[id].inputs|
    ensures
      var spec := t.nodes[id].spec;
      && spec.Obj? && Specs.Get(spec.fields, "plan").Some? && Specs.Get(spec.fields, "plan").value.Arr?
      && var plan := Specs.Elements(Specs.Get(spec.fields, "plan").value.items);
         |plan| == |graph[id].inputs| && ReadsInput(graph, dsl, graph[id].inputs[k], plan[k])
  {
    var inputs := graph[id].inputs;
    PlanElements(graph, dsl, inputs);
    EntryReads(graph, dsl, inputs[k]);
    DistinctKeys();
    var rest := Specs.Field("plan", Specs.Arr(PlanOf(graph, dsl, inputs)), Specs.NoField);
    assert Specs.Get(rest, "plan") == Some(Specs.Arr(PlanOf(graph, dsl, inputs)));
  }

  // ----- which Lambdas a step needs -----------------------------------------------------------------

  /** The Lambdas to build for `id` when those in `built` are there already. */
  ghost function Needed(graph: Graph, rank: map<Id, nat>, built: set<Id>, id: Id): (s: set<Id>)
    requires Layered(graph, rank) && id in graph
    decreases rank[id] + 1, 0
  {
    if id in built || !graph[id].Lambda? then {}
    else {id} + NeededBy(graph, rank, built, graph[id].inputs, rank[id])
  }

  ghost function NeededBy(graph: Graph, rank: map<Id, nat>, built: set<Id>, inputs: seq<Id>, below: nat): (s: set<Id>)
    requires Layered(graph, rank) && forall inp :: inp in inputs ==> inp in graph && rank[inp] < below
    decreases below, |inputs| + 1
  {
    if inputs == [] then {}
    else
      var n := |inputs| - 1;
      NeededBy(graph, rank, built, inputs[..n], below) + Needed(graph, rank, built, inputs[n])
  }

  lemma {:induction false} NeededAreLambdas(graph: Graph, rank: map<Id, nat>, built: set<Id>, id: Id)
    requires Layered(graph, rank) && id in graph
    ensures forall x :: x in Needed(graph, rank, built, id) ==>
              x in graph && graph[x].Lambda? && x !in built && rank[x] <= rank[id]
    decreases rank[id] + 1, 0
  {
    if !(id in built || !graph[id].Lambda?) {
      NeededByAreLambdas(graph, rank, built, graph[id].inputs, rank[id]);
    }
  }

  lemma {:induction false} NeededByAreLambdas(graph: Graph, rank: map<Id, nat>, built: set<Id>, inputs: seq<Id>, below: nat)
    requires Layered(graph, rank) && forall inp :: inp in inputs ==> inp in graph && rank[inp] < below
    ensures forall x :: x in NeededBy(graph, rank, built, inputs, below) ==>
              x in graph && graph[x].Lambda? && x !in built && rank[x] < below
    decreases below, |inputs| + 1
  {
    if inputs != [] {
      var n := |inputs| - 1;
      NeededByAreLambdas(graph, rank, built, inputs[..n], below);
      NeededAreLambdas(graph, rank, built, inputs[n]);
    }
  }

  /** Each Lambda of the path reads the next one, and none of them is built. */
  ghost predicate IsReading(graph: Graph, built: set<Id>, path: seq<Id>) {
    && path != []
    && (forall i :: 0 <= i < |path| ==> path[i] in graph && graph[path[i]].Lambda? && path[i] !in built)
    && (forall i, j :: 0 <= i && j == i + 1 && j < |path| ==> path[j] in graph[path[i]].inputs)
  }

  ghost predicate LeadsFrom(graph: Graph, built: set<Id>, id: Id, path: seq<Id>, x: Id) {
    IsReading(graph, built, path) && path[0] == id && path[|path| - 1] == x
  }

  lemma {:induction false} NeededByIs(graph: Graph, rank: map<Id, nat>, built: set<Id>, inputs: seq<Id>, below: nat, x: Id)
    requires Layered(graph, rank) && forall inp :: inp in inputs ==> inp in graph && rank[inp] < below
    ensures x in NeededBy(graph, rank, built, inputs, below) <==>
              exists inp :: inp in inputs && x in Needed(graph, rank, built, inp)
    decreases |inputs|
  {
    if inputs != [] {
      var n := |inputs| - 1;
      NeededByIs(graph, rank, built, inputs[..n], below, x);
      assert inputs == inputs[..n] + [inputs[n]];
    }
  }

  /** A call builds exactly the Lambdas that are read from it through Lambdas that are not built. */
  lemma {:induction false} NeededIsReached(graph: Graph, rank: map<Id, nat>, built: set<Id>, id: Id, x: Id)
    requires Layered(graph, rank) && id in graph
    ensures x in Needed(graph, rank, built, id) <==> exists path :: LeadsFrom(graph, built, id, path, x)
    decreases rank[id]
  {
    if x in Needed(graph, rank, built, id) {
      if x == id {
        assert LeadsFrom(graph, built, id, [id], x);
      } else {
        NeededByIs(graph, rank, built, graph[id].inputs, rank[id], x);
        var inp :| inp in graph[id].inputs && x in Needed(graph, rank, built, inp);
        NeededIsReached(graph, rank, built, inp, x);
        var path :| LeadsFrom(graph, built, inp, path, x);
        assert LeadsFrom(graph, built, id, [id] + path, x);
      }
    }
    forall path | LeadsFrom(graph, built, id, path, x) ensures x in Needed(graph, rank, built, id) {
      if |path| > 1 {
        assert path[1] in graph[path[0]].inputs;
        assert LeadsFrom(graph, built, path[1], path[1..], x);
        NeededIsReached(graph, rank, built, path[1], x);
        NeededByIs(graph, rank, built, graph[id].inputs, rank[id], x);
      }
    }
  }

  /** `more` was built on top of `base` without leaving anything half done. */
  ghost predicate Closed(graph: Graph, rank: map<Id, nat>, base: set<Id>, more: set<Id>)
    requires Layered(graph, rank)
  {
    forall x {:trigger Needed(graph, rank, base, x)} :: x in more && x in graph ==> Needed(graph, rank, base, x) <= base + more
  }

  lemma {:induction false} NeededIsClosed(graph: Graph, rank: map<Id, nat>, base: set<Id>, id: Id)
    requires Layered(graph, rank) && id in graph
    ensures Closed(graph, rank, base, Needed(graph, rank, base, id))
    decreases rank[id] + 1, 0
  {
    if !(id in base || !graph[id].Lambda?) {
      NeededByIsClosed(graph, rank, base, graph[id].inputs, rank[id]);
    }
  }

  lemma {:induction false} NeededByIsClosed(graph: Graph, rank: map<Id, nat>, base: set<Id>, inputs: seq<Id>, below: nat)
    requires Layered(graph, rank) && forall inp :: inp in inputs ==> inp in graph && rank[inp] < below
    ensures Closed(graph, rank, base, NeededBy(graph, rank, base, inputs, below))
    decreases below, |inputs| + 1
  {
    if inputs != [] {
      var n := |inputs| - 1;
      NeededByIsClosed(graph, rank, base, inputs[..n], below);
      NeededIsClosed(graph, rank, base, inputs[n]);
    }
  }

  /** Remembering what is built changes nothing in the end: the same Lambdas are there. */
  lemma {:induction false} MemoIsSound(graph: Graph, rank: map<Id, nat>, base: set<Id>, more: set<Id>, id: Id)
    requires Layered(graph, rank) && id in graph && Closed(graph, rank, base, more)
    ensures base + more + Needed(graph, rank, base + more, id) == base + more + Needed(graph, rank, base, id)
    decreases rank[id] + 1, 0
  {
    if id in base || !graph[id].Lambda? {
    } else if id in more {
      assert Needed(graph, rank, base, id) <= base + more;
    } else {
      MemoIsSoundBy(graph, rank, base, more, graph[id].inputs, rank[id]);
    }
  }

  lemma {:induction false} MemoIsSoundBy(
      graph: Graph, rank: map<Id, nat>, base: set<Id>, more: set<Id>, inputs: seq<Id>, below: nat)
    requires Layered(graph, rank) && Closed(graph, rank, base, more)
    requires forall inp :: inp in inputs ==> inp in graph && rank[inp] < below
    ensures base + more + NeededBy(graph, rank, base + more, inputs, below)
         == base + more + NeededBy(graph, rank, base, inputs, below)
    decreases below, |inputs| + 1
  {
    if inputs != [] {
      var n := |inputs| - 1;
      MemoIsSoundBy(graph, rank, base, more, inputs[..n], below);
      MemoIsSound(graph, rank, base, more, inputs[n]);
    }
  }

  // ----- what building does to the tables ------------------------------------------------------------

  datatype Tables = Tables(nodes: map<Id, Node>, order: seq<Id>, dsl: Mapping)

  /** The order lists every node once, and every compiled op maps to nodes that exist. */
  ghost predicate Sound(t: Tables) {
    && NoDup(t.order) && Elems(t.order) == t.nodes.Keys
    && forall op, n :: op in t.dsl && n in t.dsl[op] ==> n in t.nodes
  }

  ghost predicate DepsEarlier(t: Tables, i: nat) {
    && i < |t.order| && t.order[i] in t.nodes
    && forall dep :: dep in t.nodes[t.order[i]].deps ==> dep in t.order[..i]
  }

  ghost predicate SameUpstream(graph: Graph, dsl: Mapping, dsl': Mapping) {
    forall id :: id in graph && !graph[id].Lambda? ==> RuntimeIds(dsl', id) == RuntimeIds(dsl, id)
  }

  ghost predicate IsStepOf(graph: Graph, dsl: Mapping, t: Tables, id: Id) {
    && id in graph && graph[id].Lambda? && (forall inp :: inp in graph[id].inputs ==> inp in graph)
    && id in t.nodes && t.nodes[id] == StepNode(graph, dsl, graph[id].inputs)
  }

  /** `b` is `a` with the steps `added`, each once and after the nodes it reads. */
  ghost predicate Grown(graph: Graph, a: Tables, b: Tables, added: set<Id>) {
    && b.nodes.Keys == a.nodes.Keys + added && added !! a.nodes.Keys
    && (forall n :: n in a.nodes ==> b.nodes[n] == a.nodes[n])
    && (forall x {:trigger IsStepOf(graph, a.dsl, b, x)} :: x in added ==> IsStepOf(graph, a.dsl, b, x))
    && a.order <= b.order
    && (forall i {:trigger DepsEarlier(b, i)} :: |a.order| <= i < |b.order| ==> DepsEarlier(b, i))
    && SameUpstream(graph, a.dsl, b.dsl)
  }

  lemma {:induction false} SameUpstreamSamePlan(graph: Graph, dsl: Mapping, dsl': Mapping, inputs: seq<Id>)
    requires SameUpstream(graph, dsl, dsl') && forall inp :: inp in inputs ==> inp in graph
    ensures PlanOf(graph, dsl, inputs) == PlanOf(graph, dsl', inputs)
    ensures DepsOf(graph, dsl, inputs) == DepsOf(graph, dsl', inputs)
  {
    if inputs != [] {
      var n := |inputs| - 1;
      assert inputs[n] in inputs;
      SameUpstreamSamePlan(graph, dsl, dsl', inputs[..n]);
    }
  }

  lemma SameUpstreamSameStep(graph: Graph, rank: map<Id, nat>, dsl: Mapping, dsl': Mapping, id: Id)
    requires Layered(graph, rank) && SameUpstream(graph, dsl, dsl') && id in graph && graph[id].Lambda?
    ensures StepNode(graph, dsl, graph[id].inputs) == StepNode(graph, dsl', graph[id].inputs)
    ensures Buildable(graph, rank, dsl, id) <==> Buildable(graph, rank, dsl', id)
  {
    SameUpstreamSamePlan(graph, dsl, dsl', graph[id].inputs);
    forall inp | inp in graph[id].inputs ensures GoodInput(graph, dsl, inp) <==> GoodInput(graph, dsl', inp) {
    }
  }

  lemma GrownTwice(graph: Graph, rank: map<Id, nat>, a: Tables, b: Tables, c: Tables, s: set<Id>, t: set<Id>)
    requires Layered(graph, rank) && Grown(graph, a, b, s) && Grown(graph, b, c, t)
    ensures Grown(graph, a, c, s + t)
  {
    forall x | x in s + t ensures IsStepOf(graph, a.dsl, c, x) {
      if x in s {
        assert IsStepOf(graph, a.dsl, b, x);
      } else {
        assert IsStepOf(graph, b.dsl, c, x);
        SameUpstreamSameStep(graph, rank, a.dsl, b.dsl, x);
      }
    }
    forall i | |a.order| <= i < |c.order| ensures DepsEarlier(c, i) {
      if i < |b.order| {
        assert DepsEarlier(b, i);
        assert c.order[..i] == b.order[..i];
      }
    }
  }

  ghost function WithStep(graph: Graph, t: Tables, dsl: Mapping, id: Id): (r: Tables)
    requires id in graph && graph[id].Lambda? && forall inp :: inp in graph[id].inputs ==> inp in graph
  {
    Tables(t.nodes[id := StepNode(graph, dsl, graph[id].inputs)], t.order + [id], t.dsl[id := [id]])
  }

  lemma StepDepsExist(graph: Graph, t: Tables, dsl: Mapping, id: Id)
    requires Sound(t) && SameUpstream(graph, dsl, t.dsl) && id in graph && graph[id].Lambda?
    requires forall inp :: inp in graph[id].inputs ==> inp in graph
    requires forall inp :: inp in graph[id].inputs && graph[inp].Lambda? ==> inp in t.nodes
    ensures forall dep :: dep in DepsOf(graph, dsl, graph[id].inputs) ==> dep in t.order
  {
    forall dep | dep in DepsOf(graph, dsl, graph[id].inputs) ensures dep in t.order {
      DepsAre(graph, dsl, graph[id].inputs, dep);
      var inp :| inp in graph[id].inputs && ReadFrom(graph, dsl, inp) == Some(dep);
      if !graph[inp].Lambda? {
        assert dep in RuntimeIds(t.dsl, inp);
      }
      assert dep in Elems(t.order);
    }
  }

  lemma StepKeepsSound(graph: Graph, t: Tables, dsl: Mapping, id: Id)
    requires Sound(t) && id !in t.nodes && id in graph && graph[id].Lambda?
    requires forall inp :: inp in graph[id].inputs ==> inp in graph
    ensures Sound(WithStep(graph, t, dsl, id))
  {
    var r := WithStep(graph, t, dsl, id);
    assert id !in Elems(t.order);
    assert Elems(r.order) == Elems(t.order) + {id};
    forall op, n | op in r.dsl && n in r.dsl[op] ensures n in r.nodes {
      assert op != id ==> op in t.dsl && n in t.dsl[op];
    }
  }

  lemma StepAdded(graph: Graph, rank: map<Id, nat>, t: Tables, dsl: Mapping, id: Id)
    requires Layered(graph, rank) && Sound(t) && id !in t.nodes && id in graph && graph[id].Lambda?
    requires SameUpstream(graph, dsl, t.dsl)
    requires forall inp :: inp in graph[id].inputs && graph[inp].Lambda? ==> inp in t.nodes
    ensures Sound(WithStep(graph, t, dsl, id))
    ensures Grown(graph, t, WithStep(graph, t, dsl, id), {id})
  {
    var r := WithStep(graph, t, dsl, id);
    StepKeepsSound(graph, t, dsl, id);
    SameUpstreamSameStep(graph, rank, dsl, t.dsl, id);
    StepDepsExist(graph, t, dsl, id);
    assert r.order[..|t.order|] == t.order;
    assert DepsEarlier(r, |t.order|);
    assert IsStepOf(graph, t.dsl, r, id);
  }

  /** Every Lambda still needed can be compiled. */
  ghost predicate AllBuildable(graph: Graph, rank: map<Id, nat>, needed: set<Id>, dsl: Mapping)
    requires Layered(graph, rank)
  {
    forall x {:trigger Buildable(graph, rank, dsl, x)} :: x in needed ==> Buildable(graph, rank, dsl, x)
  }

  lemma BuildableStays(graph: Graph, rank: map<Id, nat>, dsl: Mapping, dsl': Mapping, needed: set<Id>)
    requires Layered(graph, rank) && SameUpstream(graph, dsl, dsl')
    requires forall x :: x in needed ==> x in graph && graph[x].Lambda?
    ensures AllBuildable(graph, rank, needed, dsl) <==> AllBuildable(graph, rank, needed, dsl')
  {
    forall x | x in needed ensures Buildable(graph, rank, dsl, x) <==> Buildable(graph, rank, dsl', x) {
      SameUpstreamSameStep(graph, rank, dsl, dsl', x);
    }
  }

  /** What the first `k` inputs of `id` need has been built. */
  ghost predicate BuiltSoFar(graph: Graph, rank: map<Id, nat>, before: Tables, now: Tables, id: Id, k: nat)
    requires Layered(graph, rank) && id in graph && graph[id].Lambda? && k <= |graph[id].inputs|
  {
    var inputs := graph[id].inputs[..k];
    var added := NeededBy(graph, rank, before.nodes.Keys, inputs, rank[id]);
    && Grown(graph, before, now, added)
    && AllBuildable(graph, rank, added, before.dsl)
    && (forall inp :: inp in inputs ==> GoodInput(graph, before.dsl, inp) && (graph[inp].Lambda? ==> inp in now.nodes))
  }

  datatype Reading = Reading(plan: Specs.Items, deps: seq<Id>, counts: seq<Option<nat>>)

  /** What reading the inputs in order gathers. */
  function Gathered(graph: Graph, ghost rank: map<Id, nat>, dsl: Mapping, inputs: seq<Id>): (r: Reading)
    requires Layered(graph, rank) && forall inp :: inp in inputs ==> inp in graph
  {
    Reading(PlanOf(graph, dsl, inputs), DepsOf(graph, dsl, inputs), InputCounts(graph, rank, inputs))
  }

  function GatherNext(graph: Graph, ghost rank: map<Id, nat>, r: Reading, inp: Id, dep: Option<Id>): (r': Reading)
    requires Layered(graph, rank) && inp in graph
  {
    Reading(
      AppendItem(r.plan, if dep.Some? then StageEntry(dep.value) else LiteralEntry(if graph[inp].Source? then graph[inp].values else [])),
      if dep.Some? && dep.value !in r.deps then r.deps + [dep.value] else r.deps,
      r.counts + [StaticCount(graph, rank, inp)])
  }

  lemma GatherStep(graph: Graph, rank: map<Id, nat>, dsl: Mapping, inputs: seq<Id>, k: nat)
    requires Layered(graph, rank) && (forall inp :: inp in inputs ==> inp in graph) && k < |inputs|
    ensures inputs[k] in inputs
    ensures Gathered(graph, rank, dsl, inputs[..k + 1])
         == GatherNext(graph, rank, Gathered(graph, rank, dsl, inputs[..k]), inputs[k], ReadFrom(graph, dsl, inputs[k]))
  {
    assert inputs[..k + 1][..k] == inputs[..k] && inputs[..k + 1][k] == inputs[k];
    assert InputCounts(graph, rank, inputs[..k + 1])
        == InputCounts(graph, rank, inputs[..k]) + [StaticCount(graph, rank, inputs[k])];
  }

  /** The next input can be read: it is of a kind that can, and the Lambdas it needs can be compiled. */
  ghost predicate Readable(graph: Graph, rank: map<Id, nat>, t: Tables, inp: Id)
    requires Layered(graph, rank) && inp in graph
  {
    GoodInput(graph, t.dsl, inp) && AllBuildable(graph, rank, Needed(graph, rank, t.nodes.Keys, inp), t.dsl)
  }

  lemma ReadNext(
      graph: Graph, rank: map<Id, nat>, before: Tables, now: Tables, next: Tables, id: Id, k: nat)
    requires Layered(graph, rank) && id in graph && graph[id].Lambda? && k < |graph[id].inputs|
    requires BuiltSoFar(graph, rank, before, now, id, k) && id !in before.nodes
    requires graph[id].inputs[k] in graph && Readable(graph, rank, now, graph[id].inputs[k])
    requires Grown(graph, now, next, Needed(graph, rank, now.nodes.Keys, graph[id].inputs[k]))
    requires graph[graph[id].inputs[k]].Lambda? ==> graph[id].inputs[k] in next.nodes
    ensures BuiltSoFar(graph, rank, before, next, id, k + 1)
    ensures ReadFrom(graph, now.dsl, graph[id].inputs[k]) == ReadFrom(graph, before.dsl, graph[id].inputs[k])
  {
    var base, inp, inputs := before.nodes.Keys, graph[id].inputs[k], graph[id].inputs;
    var added := NeededBy(graph, rank, base, inputs[..k], rank[id]);
    var more := Needed(graph, rank, base + added, inp);
    NeededNext(graph, rank, base, id, k);
    BuildableStays(graph, rank, before.dsl, now.dsl, more);
    GrownTwice(graph, rank, before, now, next, added, more);
    AllBuildableUnion(graph, rank, added, more, more, before.dsl);
    InputsStayGood(graph, before, now, next, inputs, k);
  }

  /** With the first inputs' needs built, what the next input still needs completes what the first `k + 1` need. */
  lemma NeededNext(graph: Graph, rank: map<Id, nat>, base: set<Id>, id: Id, k: nat)
    requires Layered(graph, rank) && id in graph && graph[id].Lambda? && id !in base && k < |graph[id].inputs|
    ensures
      var inputs := graph[id].inputs;
      var added := NeededBy(graph, rank, base, inputs[..k], rank[id]);
      && inputs[k] in inputs
      && (forall x :: x in Needed(graph, rank, base + added, inputs[k]) ==> x in graph && graph[x].Lambda?)
      && NeededBy(graph, rank, base, inputs[..k + 1], rank[id]) == added + Needed(graph, rank, base + added, inputs[k])
  {
    var inputs := graph[id].inputs;
    NeededPrefix(graph, rank, base, id, k);
    NeededByIsClosed(graph, rank, base, inputs[..k], rank[id]);
    MemoStep(graph, rank, base, NeededBy(graph, rank, base, inputs[..k], rank[id]), inputs[k]);
  }

  lemma InputsStayGood(graph: Graph, before: Tables, now: Tables, next: Tables, inputs: seq<Id>, k: nat)
    requires k < |inputs| && (forall inp :: inp in inputs ==> inp in graph)
    requires SameUpstream(graph, before.dsl, now.dsl) && now.nodes.Keys <= next.nodes.Keys
    requires forall inp :: inp in inputs[..k] ==> GoodInput(graph, before.dsl, inp) && (graph[inp].Lambda? ==> inp in now.nodes)
    requires inputs[k] in graph && GoodInput(graph, now.dsl, inputs[k]) && (graph[inputs[k]].Lambda? ==> inputs[k] in next.nodes)
    ensures forall inp :: inp in inputs[..k + 1] ==> GoodInput(graph, before.dsl, inp) && (graph[inp].Lambda? ==> inp in next.nodes)
  {
    assert inputs[..k + 1] == inputs[..k] + [inputs[k]];
  }

  lemma AllBuildableUnion(graph: Graph, rank: map<Id, nat>, s: set<Id>, t: set<Id>, u: set<Id>, dsl: Mapping)
    requires Layered(graph, rank) && s + t == s + u
    requires AllBuildable(graph, rank, s, dsl) && AllBuildable(graph, rank, t, dsl)
    ensures AllBuildable(graph, rank, s + u, dsl)
  {
    forall x | x in s + u ensures Buildable(graph, rank, dsl, x) {
      assert x in s + t;
    }
  }

  /** An input that cannot be read means that something needed cannot be compiled. */
  lemma ReadFails(
      graph: Graph, rank: map<Id, nat>, before: Tables, now: Tables, id: Id, k: nat)
    requires Layered(graph, rank) && id in graph && graph[id].Lambda? && k < |graph[id].inputs|
    requires BuiltSoFar(graph, rank, before, now, id, k) && id !in before.nodes
    requires graph[id].inputs[k] in graph && !Readable(graph, rank, now, graph[id].inputs[k])
    ensures !AllBuildable(graph, rank, Needed(graph, rank, before.nodes.Keys, id), before.dsl)
  {
    var base, inp, inputs := before.nodes.Keys, graph[id].inputs[k], graph[id].inputs;
    var added := NeededBy(graph, rank, base, inputs[..k], rank[id]);
    var more := Needed(graph, rank, base + added, inp);
    NeededPrefix(graph, rank, base, id, k);
    NeededByIsClosed(graph, rank, base, inputs[..k], rank[id]);
    MemoStep(graph, rank, base, added, inp);
    BuildableStays(graph, rank, before.dsl, now.dsl, more);
    if GoodInput(graph, now.dsl, inp) {
      var x :| x in more && !Buildable(graph, rank, before.dsl, x);
      assert x in Needed(graph, rank, base, id);
    } else {
      assert !GoodInput(graph, before.dsl, inp);
      assert !Buildable(graph, rank, before.dsl, id);
    }
  }

  /** All inputs read: the step itself is what remains. */
  lemma InputsBuilt(graph: Graph, rank: map<Id, nat>, before: Tables, now: Tables, id: Id)
    requires Layered(graph, rank) && id in graph && graph[id].Lambda? && id !in before.nodes
    requires BuiltSoFar(graph, rank, before, now, id, |graph[id].inputs|)
    ensures id !in now.nodes && SameUpstream(graph, before.dsl, now.dsl)
    ensures forall inp :: inp in graph[id].inputs && graph[inp].Lambda? ==> inp in now.nodes
    ensures Grown(graph, before, now, Needed(graph, rank, before.nodes.Keys, id) - {id})
  {
    var base, inputs := before.nodes.Keys, graph[id].inputs;
    assert inputs[..|inputs|] == inputs;
    NeededByAreLambdas(graph, rank, base, inputs, rank[id]);
    assert Needed(graph, rank, base, id) - {id} == NeededBy(graph, rank, base, inputs, rank[id]);
  }

  lemma ReadAll(graph: Graph, rank: map<Id, nat>, before: Tables, now: Tables, id: Id)
    requires Layered(graph, rank) && id in graph && graph[id].Lambda? && id !in before.nodes && Sound(now)
    requires BuiltSoFar(graph, rank, before, now, id, |graph[id].inputs|)
    ensures id !in now.nodes
    ensures Sound(WithStep(graph, now, before.dsl, id))
    ensures Grown(graph, before, WithStep(graph, now, before.dsl, id), Needed(graph, rank, before.nodes.Keys, id))
  {
    var needed := Needed(graph, rank, before.nodes.Keys, id);
    InputsBuilt(graph, rank, before, now, id);
    StepAdded(graph, rank, now, before.dsl, id);
    GrownTwice(graph, rank, before, now, WithStep(graph, now, before.dsl, id), needed - {id}, {id});
    assert needed - {id} + {id} == needed;
  }

  lemma RowsDecide(graph: Graph, rank: map<Id, nat>, before: Tables, now: Tables, id: Id)
    requires Layered(graph, rank) && id in graph && graph[id].Lambda? && id !in before.nodes
    requires BuiltSoFar(graph, rank, before, now, id, |graph[id].inputs|)
    ensures AllBuildable(graph, rank, Needed(graph, rank, before.nodes.Keys, id), before.dsl)
       <==> StepRowCount(InputCounts(graph, rank, graph[id].inputs), true).Ok?
  {
    var base, inputs := before.nodes.Keys, graph[id].inputs;
    assert inputs[..|inputs|] == inputs;
    var added := NeededBy(graph, rank, base, inputs, rank[id]);
    assert Needed(graph, rank, base, id) == {id} + added;
    assert Buildable(graph, rank, before.dsl, id) <==> StepRowCount(InputCounts(graph, rank, inputs), true).Ok?;
    if StepRowCount(InputCounts(graph, rank, inputs), true).Ok? {
      forall x | x in {id} + added ensures Buildable(graph, rank, before.dsl, x) {
      }
    }
  }

  /** The first `k` inputs have been read into `reading`, and what they need is built and visited. */
  ghost predicate IsRead(
      graph: Graph, rank: map<Id, nat>, before: Tables, now: Tables, visited: set<Id>, id: Id, k: nat, reading: Reading)
    requires Layered(graph, rank) && id in graph && graph[id].Lambda? && k <= |graph[id].inputs|
  {
    && BuiltSoFar(graph, rank, before, now, id, k)
    && reading == Gathered(graph, rank, before.dsl, graph[id].inputs[..k])
    && visited >= NeededBy(graph, rank, before.nodes.Keys, graph[id].inputs[..k], rank[id])
  }

  lemma VisitedNext(
      graph: Graph, rank: map<Id, nat>, before: Tables, now: Tables, seen: set<Id>, visited: set<Id>, id: Id, k: nat)
    requires Layered(graph, rank) && id in graph && graph[id].Lambda? && k < |graph[id].inputs| && id !in before.nodes
    requires now.nodes.Keys == before.nodes.Keys + NeededBy(graph, rank, before.nodes.Keys, graph[id].inputs[..k], rank[id])
    requires seen >= NeededBy(graph, rank, before.nodes.Keys, graph[id].inputs[..k], rank[id])
    requires graph[id].inputs[k] in graph
    requires visited >= seen + Needed(graph, rank, now.nodes.Keys, graph[id].inputs[k])
    ensures visited >= NeededBy(graph, rank, before.nodes.Keys, graph[id].inputs[..k + 1], rank[id])
  {
    NeededPrefix(graph, rank, before.nodes.Keys, id, k);
    VisitedGrows(graph, rank, before.nodes.Keys, id, k);
  }

  lemma IsReadNext(
      graph: Graph, rank: map<Id, nat>, before: Tables, now: Tables, next: Tables, seen: set<Id>, visited: set<Id>,
      id: Id, k: nat, reading: Reading)
    requires Layered(graph, rank) && id in graph && graph[id].Lambda? && k < |graph[id].inputs|
    requires IsRead(graph, rank, before, now, seen, id, k, reading) && id !in before.nodes
    requires graph[id].inputs[k] in graph && Readable(graph, rank, now, graph[id].inputs[k])
    requires Grown(graph, now, next, Needed(graph, rank, now.nodes.Keys, graph[id].inputs[k]))
    requires graph[graph[id].inputs[k]].Lambda? ==> graph[id].inputs[k] in next.nodes
    requires visited >= seen + Needed(graph, rank, now.nodes.Keys, graph[id].inputs[k])
    ensures
      var inp := graph[id].inputs[k];
      IsRead(graph, rank, before, next, visited, id, k + 1,
             GatherNext(graph, rank, reading, inp, ReadFrom(graph, now.dsl, inp)))
  {
    ReadNext(graph, rank, before, now, next, id, k);
    VisitedNext(graph, rank, before, now, seen, visited, id, k);
    GatherStep(graph, rank, before.dsl, graph[id].inputs, k);
  }

  // ----- the builder ----------------------------------------------------------------------------------

  class Builder {
    const graph: Graph
    ghost const rank: map<Id, nat>
    var nodes: map<Id, Node>
    var nodeOrder: seq<Id>
    var visited: set<Id>
    var dslToRuntime: map<Id, seq<Id>>

    constructor (graph: Graph, ghost rank: map<Id, nat>, nodes: map<Id, Node>, nodeOrder: seq<Id>,
                 visited: set<Id>, dslToRuntime: map<Id, seq<Id>>)
      requires Layered(graph, rank) && Sound(Tables(nodes, nodeOrder, dslToRuntime))
      ensures Valid() && Now() == Tables(nodes, nodeOrder, dslToRuntime)
      ensures this.graph == graph && this.rank == rank && this.visited == visited
    {
      this.graph, this.rank := graph, rank;
      this.nodes, this.nodeOrder, this.visited, this.dslToRuntime := nodes, nodeOrder, visited, dslToRuntime;
    }

    ghost function Now(): (t: Tables)
      reads this
    {
      Tables(nodes, nodeOrder, dslToRuntime)
    }

    ghost predicate Valid()
      reads this
    {
      Layered(graph, rank) && Sound(Now())
    }

    /** Reads one input of `opId`, compiling it first when it is a Lambda; literal values are read from no node. */
    method ReadInput(opId: Id, inp: Id) returns (r: Result<Option<Id>, BuildError>)
      requires Valid() && opId in graph && inp in graph && rank[inp] < rank[opId]
      modifies this
      decreases rank[opId], 0
      ensures Valid() && visited >= old(visited)
      ensures r.Ok? <==> Readable(graph, rank, old(Now()), inp)
      ensures r.Ok? ==> r.value == ReadFrom(graph, old(dslToRuntime), inp) && (graph[inp].Lambda? ==> inp in nodes)
      ensures r.Ok? ==> Grown(graph, old(Now()), Now(), Needed(graph, rank, old(nodes).Keys, inp))
      ensures r.Ok? ==> visited >= Needed(graph, rank, old(nodes).Keys, inp)
    {
      match graph[inp] {
        case Lambda(_, _, _) =>
          var built := BuildPythonStep(inp);
          r := if built.Ok? then Ok(Some(inp)) else Err(built.error);
        case Upstream(_) =>
          GrownByNothing(graph, Now());
          var ids := RuntimeIds(dslToRuntime, inp);
          r := if |ids| == 1 then Ok(Some(ids[0])) else Err(NotOneUpstreamNode(opId, inp));
        case Source(_) =>
          GrownByNothing(graph, Now());
          visited := visited + {inp};
          r := Ok(None);
        case OtherOp =>
          r := Err(BadInput(opId, inp));
      }
    }

    /** One turn of the loop over the inputs: reads input `k` on top of what `reading` has gathered. */
    method ReadOne(opId: Id, k: nat, reading: Reading, ghost before: Tables) returns (r: Result<Reading, BuildError>)
      requires Valid() && opId in graph && graph[opId].Lambda? && opId !in before.nodes && k < |graph[opId].inputs|
      requires IsRead(graph, rank, before, Now(), visited, opId, k, reading)
      modifies this
      decreases rank[opId], 1
      ensures Valid() && visited >= old(visited)
      ensures r.Ok? ==> IsRead(graph, rank, before, Now(), visited, opId, k + 1, r.value)
      ensures r.Err? ==> !AllBuildable(graph, rank, Needed(graph, rank, before.nodes.Keys, opId), before.dsl)
    {
      var inp := graph[opId].inputs[k];
      assert inp in graph[opId].inputs;
      ghost var now, seen := Now(), visited;
      var dep := ReadInput(opId, inp);
      if dep.Err? {
        ReadFails(graph, rank, before, now, opId, k);
        return Err(dep.error);
      }
      IsReadNext(graph, rank, before, now, Now(), seen, visited, opId, k, reading);
      r := Ok(GatherNext(graph, rank, reading, inp, dep.value));
    }

    /** Reads the inputs of `opId` in order, up to the first that cannot be read. */
    method ReadInputs(opId: Id) returns (r: Result<Reading, BuildError>)
      requires Valid() && opId in graph && graph[opId].Lambda? && opId !in nodes
      modifies this
      decreases rank[opId], 2
      ensures Valid() && visited >= old(visited)
      ensures r.Ok? ==> IsRead(graph, rank, old(Now()), Now(), visited, opId, |graph[opId].inputs|, r.value)
      ensures r.Err? ==> !AllBuildable(graph, rank, Needed(graph, rank, old(nodes).Keys, opId), old(dslToRuntime))
    {
      ghost var before := Now();
      r := Ok(Reading(Specs.NoItem, [], []));
      GrownByNothing(graph, before);
      var k := 0;
      while k < |graph[opId].inputs|
        invariant k <= |graph[opId].inputs|
        invariant Valid() && visited >= old(visited) && r.Ok?
        invariant IsRead(graph, rank, before, Now(), visited, opId, k, r.value)
      {
        r := ReadOne(opId, k, r.value, before);
        if r.Err? {
          return;
        }
        k := k + 1;
      }
    }

    /** `_build_python_step` */
    method BuildPythonStep(opId: Id) returns (r: Result<Id, BuildError>)
      requires Valid() && opId in graph && graph[opId].Lambda?
      modifies this
      decreases rank[opId], 3
      ensures Valid() && visited >= old(visited)
      ensures r.Ok? <==> AllBuildable(graph, rank, Needed(graph, rank, old(nodes).Keys, opId), old(dslToRuntime))
      ensures r.Ok? ==> r.value == opId && opId in nodes
      ensures r.Ok? ==> Grown(graph, old(Now()), Now(), Needed(graph, rank, old(nodes).Keys, opId))
      ensures r.Ok? ==> visited >= Needed(graph, rank, old(nodes).Keys, opId)
    {
      if opId in nodes {
        GrownByNothing(graph, Now());
        return Ok(opId);
      }
      ghost var before := Now();
      visited := visited + {opId};
      var reading := ReadInputs(opId);
      if reading.Err? {
        return Err(reading.error);
      }
      RowsDecide(graph, rank, before, Now(), opId);
      assert graph[opId].inputs[..|graph[opId].inputs|] == graph[opId].inputs;
      if StepRowCount(reading.value.counts, true).Err? {
        return Err(RowCountsDiffer(opId));
      }
      ReadAll(graph, rank, before, Now(), opId);
      nodes := nodes[opId := Node(reading.value.deps, StepSpec(reading.value.plan), None)];
      nodeOrder := nodeOrder + [opId];
      dslToRuntime := dslToRuntime[opId := [opId]];
      r := Ok(opId);
    }

    /** The standalone pass: every row Lambda that needs a task of its own gets one. */
    method BuildStandalone(order: seq<Id>, outputs: set<Id>) returns (error: Option<BuildError>)
      requires Valid() && Elems(order) == graph.Keys
      modifies this
      ensures Valid()
      ensures
        var standalone := Standalone(graph, old(nodes), old(visited), outputs, order);
        && (error.None? <==> AllBuildable(graph, rank, NeededFor(graph, rank, old(nodes).Keys, standalone), old(dslToRuntime)))
        && (error.None? ==> Grown(graph, old(Now()), Now(), NeededFor(graph, rank, old(nodes).Keys, standalone)))
        && (error.None? ==> forall id :: id in standalone ==> id in nodes)
      ensures error.None? ==> forall id ::
                && id in graph && graph[id].Lambda? && graph[id].mode == RowMode
                && (|| id !in old(visited) || id in outputs || graph[id].hasImage
                    || exists n :: n in old(nodes) && (id in old(nodes)[n].deps || id in RuntimeRefs(old(nodes)[n])))
                ==> id in nodes
      ensures error.None? ==> forall x :: x in nodes && x !in old(nodes) ==> exists path ::
                && IsReading(graph, old(nodes).Keys, path) && path[|path| - 1] == x && graph[path[0]].mode == RowMode
                && (|| path[0] !in old(visited) || path[0] in outputs || graph[path[0]].hasImage
                    || exists n :: n in old(nodes) && (path[0] in old(nodes)[n].deps || path[0] in RuntimeRefs(old(nodes)[n])))
    {
      ghost var before, seen := Now(), visited;
      error := BuildEach(Standalone(graph, nodes, visited, outputs, order));
      if error.None? {
        PassServes(graph, rank, before, Now(), seen, outputs, order);
      }
    }

    method BuildEach(ids: seq<Id>) returns (error: Option<BuildError>)
      requires Valid() && forall id :: id in ids ==> id in graph && graph[id].Lambda?
      modifies this
      ensures Valid()
      ensures error.None? <==> AllBuildable(graph, rank, NeededFor(graph, rank, old(nodes).Keys, ids), old(dslToRuntime))
      ensures error.None? ==> Grown(graph, old(Now()), Now(), NeededFor(graph, rank, old(nodes).Keys, ids))
      ensures error.None? ==> forall id :: id in ids ==> id in nodes
    {
      ghost var before := Now();
      GrownByNothing(graph, before);
      var k := 0;
      error := None;
      while k < |ids|
        invariant k <= |ids| && Valid()
        invariant error.None? && IsPassed(graph, rank, before, Now(), ids, k)
      {
        error := BuildNext(ids, k, before);
        if error.Some? {
          return;
        }
        k := k + 1;
      }
      assert ids[..|ids|] == ids;
    }

    method BuildNext(ids: seq<Id>, k: nat, ghost before: Tables) returns (error: Option<BuildError>)
      requires Valid() && k < |ids| && forall id :: id in ids ==> id in graph && graph[id].Lambda?
      requires IsPassed(graph, rank, before, Now(), ids, k)
      modifies this
      ensures Valid()
      ensures error.None? ==> IsPassed(graph, rank, before, Now(), ids, k + 1)
      ensures error.Some? ==> !AllBuildable(graph, rank, NeededFor(graph, rank, before.nodes.Keys, ids), before.dsl)
    {
      assert ids[k] in ids;
      ghost var now := Now();
      var r := BuildPythonStep(ids[k]);
      if r.Ok? {
        PassNext(graph, rank, before, now, Now(), ids, k);
        error := None;
      } else {
        PassFails(graph, rank, before, now, ids, k);
        error := Some(r.error);
      }
    }

    /** `_check_inlined_lambda_refs`: a node and its reference to a Lambda that has no task. */
    method CheckInlinedLambdaRefs() returns (bad: Option<(Id, Id)>)
      requires Valid()
      ensures bad.None? <==> NoInlinedRefs(graph, nodes)
      ensures bad.Some? ==>
                && bad.value.0 in nodes && bad.value.1 in RuntimeRefs(nodes[bad.value.0])
                && IsRowLambda(graph, bad.value.1) && bad.value.1 !in nodes
    {
      var inlined := set id | id in graph && IsRowLambda(graph, id) && id !in nodes;
      if inlined == {} {
        assert forall id :: IsRowLambda(graph, id) && id !in nodes ==> id in inlined;
        return None;
      }
      for i := 0 to |nodeOrder|
        invariant forall n :: n in nodeOrder[..i] ==> NodeIsClean(graph, nodes, n)
      {
        var n := nodeOrder[i];
        assert n in Elems(nodeOrder);
        var refs := RuntimeRefs(nodes[n]);
        for j := 0 to |refs|
          invariant forall ref :: ref in refs[..j] ==> ref !in inlined
        {
          if refs[j] in inlined {
            assert !NodeIsClean(graph, nodes, n);
            return Some((n, refs[j]));
          }
        }
        assert refs[..|refs|] == refs;
      }
      assert nodeOrder[..|nodeOrder|] == nodeOrder;
      forall n | n in nodes ensures NodeIsClean(graph, nodes, n) {
        assert n in Elems(nodeOrder);
      }
      bad := None;
    }

    /** Pass, then check: when the pass succeeds the check never complains. */
    method BuildThenCheck(order: seq<Id>, outputs: set<Id>) returns (error: Option<BuildError>, bad: Option<(Id, Id)>)
      requires Valid() && Elems(order) == graph.Keys
      modifies this
      ensures Valid()
      ensures bad.None?
      ensures error.None? ==> NoInlinedRefs(graph, nodes)
    {
      ghost var before, seen := Now(), visited;
      error := BuildStandalone(order, outputs);
      bad := None;
      if error.None? {
        PassLeavesNoInlinedRefs(graph, rank, before, Now(), seen, outputs, order);
        bad := CheckInlinedLambdaRefs();
      }
    }
  }

  lemma GrownByNothing(graph: Graph, t: Tables)
    ensures Grown(graph, t, t, {})
  {
  }

  /** Lambdas that are needed and not yet built are the ones the memoised call will visit. */
  lemma VisitedGrows(graph: Graph, rank: map<Id, nat>, base: set<Id>, id: Id, k: nat)
    requires Layered(graph, rank) && id in graph && graph[id].Lambda? && k < |graph[id].inputs|
    ensures
      var inputs := graph[id].inputs;
      var added := NeededBy(graph, rank, base, inputs[..k], rank[id]);
      && inputs[k] in inputs
      && added + Needed(graph, rank, base, inputs[k]) == added + Needed(graph, rank, base + added, inputs[k])
  {
    var inputs := graph[id].inputs;
    assert inputs[k] in inputs;
    NeededByIsClosed(graph, rank, base, inputs[..k], rank[id]);
    MemoStep(graph, rank, base, NeededBy(graph, rank, base, inputs[..k], rank[id]), inputs[k]);
  }

  /** What the first inputs and then the next one need, `id` needs. */
  lemma NeededPrefix(graph: Graph, rank: map<Id, nat>, base: set<Id>, id: Id, k: nat)
    requires Layered(graph, rank) && id in graph && graph[id].Lambda? && id !in base && k < |graph[id].inputs|
    ensures
      var inputs := graph[id].inputs;
      && inputs[k] in inputs && id in Needed(graph, rank, base, id)
      && Needed(graph, rank, base, inputs[k]) <= Needed(graph, rank, base, id)
      && NeededBy(graph, rank, base, inputs[..k + 1], rank[id])
         == NeededBy(graph, rank, base, inputs[..k], rank[id]) + Needed(graph, rank, base, inputs[k])
  {
    var inputs := graph[id].inputs;
    assert inputs[..k + 1][..k] == inputs[..k];
    assert inputs[k] in inputs;
    NeededByPart(graph, rank, base, inputs, rank[id], k + 1);
  }

  lemma {:induction false} NeededByPart(graph: Graph, rank: map<Id, nat>, base: set<Id>, inputs: seq<Id>, below: nat, k: nat)
    requires Layered(graph, rank) && forall inp :: inp in inputs ==> inp in graph && rank[inp] < below
    requires k <= |inputs|
    ensures NeededBy(graph, rank, base, inputs[..k], below) <= NeededBy(graph, rank, base, inputs, below)
  {
    if k == |inputs| {
      assert inputs[..k] == inputs;
    } else {
      var n := |inputs| - 1;
      NeededByPart(graph, rank, base, inputs[..n], below, k);
      assert inputs[..n][..k] == inputs[..k];
    }
  }

  /** Building the next input on top of what the first ones added. */
  lemma MemoStep(graph: Graph, rank: map<Id, nat>, base: set<Id>, added: set<Id>, inp: Id)
    requires Layered(graph, rank) && inp in graph && Closed(graph, rank, base, added)
    ensures added + Needed(graph, rank, base + added, inp) == added + Needed(graph, rank, base, inp)
    ensures Needed(graph, rank, base + added, inp) <= Needed(graph, rank, base, inp)
    ensures forall x :: x in Needed(graph, rank, base + added, inp) ==> x in graph && graph[x].Lambda?
  {
    MemoIsSound(graph, rank, base, added, inp);
    NeededAreLambdas(graph, rank, base + added, inp);
    NeededAreLambdas(graph, rank, base, inp);
    var a, b := Needed(graph, rank, base + added, inp), Needed(graph, rank, base, inp);
    forall x | x in a ensures x in b {
      assert x in base + added + a;
    }
    forall x | x in b ensures x in added + a {
      assert x in base + added + b;
    }
  }

  // ----- the standalone pass -------------------------------------------------------------------------

  predicate IsRowLambda(graph: Graph, id: Id) {
    id in graph && graph[id].Lambda? && graph[id].mode == RowMode
  }

  /** `_referenced_row_lambdas`: by a data spec, a condition or a dependency. */
  predicate IsReferenced(graph: Graph, nodes: map<Id, Node>, id: Id) {
    exists n :: n in nodes && (id in RuntimeRefs(nodes[n]) || id in nodes[n].deps)
  }

  predicate NeedsOwnTask(graph: Graph, nodes: map<Id, Node>, visited: set<Id>, outputs: set<Id>, id: Id) {
    && IsRowLambda(graph, id)
    && (id !in visited || id in outputs || graph[id].hasImage || IsReferenced(graph, nodes, id))
  }

  function Standalone(graph: Graph, nodes: map<Id, Node>, visited: set<Id>, outputs: set<Id>, order: seq<Id>): (ids: seq<Id>)
    ensures forall id :: id in ids <==> id in order && NeedsOwnTask(graph, nodes, visited, outputs, id)
  {
    if order == [] then []
    else
      var n := |order| - 1;
      assert order == order[..n] + [order[n]];
      Standalone(graph, nodes, visited, outputs, order[..n]) +
      (if NeedsOwnTask(graph, nodes, visited, outputs, order[n]) then [order[n]] else [])
  }

  /** No reference of the node is to a row Lambda without a task. */
  ghost predicate NodeIsClean(graph: Graph, nodes: map<Id, Node>, n: Id) {
    n in nodes && forall ref :: ref in RuntimeRefs(nodes[n]) && IsRowLambda(graph, ref) ==> ref in nodes
  }

  ghost predicate NoInlinedRefs(graph: Graph, nodes: map<Id, Node>) {
    forall n {:trigger NodeIsClean(graph, nodes, n)} :: n in nodes ==> NodeIsClean(graph, nodes, n)
  }

  ghost function NeededFor(graph: Graph, rank: map<Id, nat>, base: set<Id>, ids: seq<Id>): (s: set<Id>)
    requires Layered(graph, rank) && forall id :: id in ids ==> id in graph
  {
    if ids == [] then {}
    else NeededFor(graph, rank, base, ids[..|ids| - 1]) + Needed(graph, rank, base, ids[|ids| - 1])
  }

  lemma {:induction false} NeededForFacts(graph: Graph, rank: map<Id, nat>, base: set<Id>, ids: seq<Id>)
    requires Layered(graph, rank) && forall id :: id in ids ==> id in graph
    ensures Closed(graph, rank, base, NeededFor(graph, rank, base, ids))
    ensures forall k :: 0 <= k < |ids| ==> ids[k] in graph && Needed(graph, rank, base, ids[k]) <= NeededFor(graph, rank, base, ids)
  {
    if ids != [] {
      var n := |ids| - 1;
      NeededForFacts(graph, rank, base, ids[..n]);
      NeededIsClosed(graph, rank, base, ids[n]);
      forall k | 0 <= k < n ensures ids[k] in graph && Needed(graph, rank, base, ids[k]) <= NeededFor(graph, rank, base, ids) {
        assert ids[..n][k] == ids[k];
      }
    }
  }

  /** What a list of Lambdas needs is what one of them leads to. */
  lemma {:induction false} NeededForIs(graph: Graph, rank: map<Id, nat>, base: set<Id>, ids: seq<Id>, x: Id)
    requires Layered(graph, rank) && forall id :: id in ids ==> id in graph
    ensures x in NeededFor(graph, rank, base, ids) <==>
              exists path :: IsReading(graph, base, path) && path[0] in ids && path[|path| - 1] == x
  {
    if ids != [] {
      var n := |ids| - 1;
      NeededForIs(graph, rank, base, ids[..n], x);
      NeededIsReached(graph, rank, base, ids[n], x);
      assert ids == ids[..n] + [ids[n]];
      if x in Needed(graph, rank, base, ids[n]) {
        var path :| LeadsFrom(graph, base, ids[n], path, x);
        assert IsReading(graph, base, path) && path[0] in ids;
      }
      forall path | IsReading(graph, base, path) && path[0] in ids && path[|path| - 1] == x
        ensures x in NeededFor(graph, rank, base, ids)
      {
        if path[0] == ids[n] {
          assert LeadsFrom(graph, base, ids[n], path, x);
        } else {
          assert path[0] in ids[..n];
        }
      }
    }
  }

  ghost predicate IsPassed(graph: Graph, rank: map<Id, nat>, before: Tables, now: Tables, ids: seq<Id>, k: nat)
    requires Layered(graph, rank) && k <= |ids| && forall id :: id in ids ==> id in graph
  {
    && Grown(graph, before, now, NeededFor(graph, rank, before.nodes.Keys, ids[..k]))
    && AllBuildable(graph, rank, NeededFor(graph, rank, before.nodes.Keys, ids[..k]), before.dsl)
    && forall id :: id in ids[..k] ==> id in now.nodes
  }

  lemma PassNext(graph: Graph, rank: map<Id, nat>, before: Tables, now: Tables, next: Tables, ids: seq<Id>, k: nat)
    requires Layered(graph, rank) && k < |ids| && (forall id :: id in ids ==> id in graph) && ids[k] in graph
    requires IsPassed(graph, rank, before, now, ids, k)
    requires AllBuildable(graph, rank, Needed(graph, rank, now.nodes.Keys, ids[k]), now.dsl)
    requires Grown(graph, now, next, Needed(graph, rank, now.nodes.Keys, ids[k])) && ids[k] in next.nodes
    ensures IsPassed(graph, rank, before, next, ids, k + 1)
  {
    var base := before.nodes.Keys;
    var added := NeededFor(graph, rank, base, ids[..k]);
    var needed := Needed(graph, rank, base + added, ids[k]);
    PassedNeeds(graph, rank, base, ids, k);
    BuildableStays(graph, rank, before.dsl, now.dsl, needed);
    AllBuildableUnion(graph, rank, added, needed, needed, before.dsl);
    GrownTwice(graph, rank, before, now, next, added, needed);
    assert ids[..k + 1] == ids[..k] + [ids[k]];
  }

  lemma PassFails(graph: Graph, rank: map<Id, nat>, before: Tables, now: Tables, ids: seq<Id>, k: nat)
    requires Layered(graph, rank) && k < |ids| && (forall id :: id in ids ==> id in graph) && ids[k] in graph
    requires IsPassed(graph, rank, before, now, ids, k)
    requires !AllBuildable(graph, rank, Needed(graph, rank, now.nodes.Keys, ids[k]), now.dsl)
    ensures !AllBuildable(graph, rank, NeededFor(graph, rank, before.nodes.Keys, ids), before.dsl)
  {
    var base := before.nodes.Keys;
    var added := NeededFor(graph, rank, base, ids[..k]);
    var needed := Needed(graph, rank, base + added, ids[k]);
    PassedNeeds(graph, rank, base, ids, k);
    BuildableStays(graph, rank, before.dsl, now.dsl, needed);
    var x :| x in needed && !Buildable(graph, rank, before.dsl, x);
    assert x in NeededFor(graph, rank, base, ids);
  }

  /** With the first ids built, what the next one still needs completes what the first `k + 1` need. */
  lemma PassedNeeds(graph: Graph, rank: map<Id, nat>, base: set<Id>, ids: seq<Id>, k: nat)
    requires Layered(graph, rank) && k < |ids| && (forall id :: id in ids ==> id in graph) && ids[k] in graph
    ensures
      var added := NeededFor(graph, rank, base, ids[..k]);
      var needed := Needed(graph, rank, base + added, ids[k]);
      && (forall x :: x in needed ==> x in graph && graph[x].Lambda?)
      && NeededFor(graph, rank, base, ids[..k + 1]) == added + needed
      && needed <= NeededFor(graph, rank, base, ids)
  {
    var added := NeededFor(graph, rank, base, ids[..k]);
    NeededForFacts(graph, rank, base, ids[..k]);
    NeededForFacts(graph, rank, base, ids);
    MemoStep(graph, rank, base, added, ids[k]);
    assert ids[..k + 1][..k] == ids[..k];
  }

  /**
   After the pass no node refers to a row Lambda without a task: what the earlier nodes refer
   to was built, and what the pass built refers only to its dependencies, built before it.
   */
  lemma PassLeavesNoInlinedRefs(
      graph: Graph, rank: map<Id, nat>, before: Tables, now: Tables, visited: set<Id>, outputs: set<Id>, order: seq<Id>)
    requires Layered(graph, rank) && Elems(order) == graph.Keys && Sound(before) && Sound(now)
    requires
      var standalone := Standalone(graph, before.nodes, visited, outputs, order);
      && Grown(graph, before, now, NeededFor(graph, rank, before.nodes.Keys, standalone))
      && forall id :: id in standalone ==> id in now.nodes
    ensures NoInlinedRefs(graph, now.nodes)
  {
    var standalone := Standalone(graph, before.nodes, visited, outputs, order);
    forall n | n in now.nodes ensures NodeIsClean(graph, now.nodes, n) {
      forall ref | ref in RuntimeRefs(now.nodes[n]) && IsRowLambda(graph, ref) ensures ref in now.nodes {
        if n in before.nodes {
          assert IsReferenced(graph, before.nodes, ref);
          assert ref in Elems(order);
          assert ref in standalone;
        } else {
          AddedRefsExist(graph, before, now, NeededFor(graph, rank, before.nodes.Keys, standalone), n, ref);
        }
      }
    }
  }

  /** Every row Lambda that is unread, an output, with an image or referred to has a task, and only what these read has. */
  lemma PassServes(
      graph: Graph, rank: map<Id, nat>, before: Tables, now: Tables, visited: set<Id>, outputs: set<Id>, order: seq<Id>)
    requires Layered(graph, rank) && Elems(order) == graph.Keys
    requires
      var standalone := Standalone(graph, before.nodes, visited, outputs, order);
      && Grown(graph, before, now, NeededFor(graph, rank, before.nodes.Keys, standalone))
      && forall id :: id in standalone ==> id in now.nodes
    ensures forall id ::
              && id in graph && graph[id].Lambda? && graph[id].mode == RowMode
              && (|| id !in visited || id in outputs || graph[id].hasImage
                  || exists n :: n in before.nodes && (id in before.nodes[n].deps || id in RuntimeRefs(before.nodes[n])))
              ==> id in now.nodes
    ensures forall x :: x in now.nodes && x !in before.nodes ==> exists path ::
              && IsReading(graph, before.nodes.Keys, path) && path[|path| - 1] == x && graph[path[0]].mode == RowMode
              && (|| path[0] !in visited || path[0] in outputs || graph[path[0]].hasImage
                  || exists n :: n in before.nodes && (path[0] in before.nodes[n].deps || path[0] in RuntimeRefs(before.nodes[n])))
  {
    var standalone := Standalone(graph, before.nodes, visited, outputs, order);
    forall id | NeedsOwnTask(graph, before.nodes, visited, outputs, id) ensures id in now.nodes {
      assert id in Elems(order);
      assert id in standalone;
    }
    forall id | id in graph && id in standalone ensures NeedsOwnTask(graph, before.nodes, visited, outputs, id) {
    }
    forall x | x in now.nodes && x !in before.nodes ensures exists path ::
      IsReading(graph, before.nodes.Keys, path) && path[|path| - 1] == x && NeedsOwnTask(graph, before.nodes, visited, outputs, path[0])
    {
      NeededForIs(graph, rank, before.nodes.Keys, standalone, x);
    }
  }

  lemma AddedRefsExist(graph: Graph, before: Tables, now: Tables, added: set<Id>, n: Id, ref: Id)
    requires Sound(before) && Sound(now) && Grown(graph, before, now, added)
    requires n in added && n in now.nodes && ref in RuntimeRefs(now.nodes[n])
    ensures ref in now.nodes
  {
    assert IsStepOf(graph, before.dsl, now, n);
    StepRefersToDeps(graph, before.dsl, graph[n].inputs, ref);
    assert n in Elems(now.order);
    var i :| 0 <= i < |now.order| && now.order[i] == n;
    forall j | 0 <= j < |before.order| ensures now.order[j] in before.nodes {
      assert before.order[j] in Elems(before.order);
    }
    assert DepsEarlier(now, i);
    assert ref in now.order[..i];
    assert ref in Elems(now.order);
  }

  // ----- acyclic graphs can be built ---------------------------------------------------------------------

  /** The op graph as edges from each input to the Lambda that reads it. */
  ghost function ReadersOf(graph: Graph): (g: map<Id, set<Id>>) {
    map id | id in graph :: set c | c in graph && graph[c].Lambda? && id in graph[c].inputs
  }

  /** On an acyclic op graph the recursion has a measure, so it terminates. */
  lemma AcyclicIsLayered(graph: Graph) returns (rank: map<Id, nat>)
    requires Acyclic(ReadersOf(graph))
    requires forall id, inp :: id in graph && graph[id].Lambda? && inp in graph[id].inputs ==> inp in graph
    ensures Layered(graph, rank)
  {
    var g := ReadersOf(graph);
    rank := AcyclicHasRank(g);
    forall id, inp | id in graph && graph[id].Lambda? && inp in graph[id].inputs ensures rank[inp] < rank[id] {
      assert Edge(g, inp, id);
    }
    assert rank.Keys == graph.Keys;
  }
}
