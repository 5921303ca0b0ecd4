/**
 runtime/runtime_graph.py: the row counts of Lambda steps known before anything runs, and
 runtime/python_step.py: the broadcast check that the generated row and aligned steps make.
 */
module RowCounts {
  import opened Sequences

  type Id = string

  datatype Mode = RowMode | AlignedMode | ListMode

  /** An op of the workflow graph: input or data values, an LLM or retrieval op, a Lambda, any other op. */
  datatype Op =
    | Source(values: seq<string>)
    | Upstream(count: Option<nat>)
    | Lambda(mode: Mode, inputs: seq<Id>, hasImage: bool)
    | OtherOp

  type Graph = map<Id, Op>

  /** Inputs are ops of the graph, and `rank` climbs along them. */
  ghost predicate Layered(graph: Graph, rank: map<Id, nat>) {
    && rank.Keys == graph.Keys
    && forall id, inp :: id in graph && graph[id].Lambda? && inp in graph[id].inputs ==>
         inp in graph && rank[inp] < rank[id]
  }

  // ----- static counts -----------------------------------------------------------------

  function MaxKnown(counts: seq<Option<nat>>): (m: Option<nat>)
    ensures m.None? <==> forall c :: c in counts ==> c.None?
    ensures m.Some? ==> m in counts && forall c :: c in counts && c.Some? ==> c.value <= m.value
  {
    if counts == [] then None
    else
      var rest := MaxKnown(counts[1..]);
      assert counts == [counts[0]] + counts[1..];
      if counts[0].None? then rest
      else if rest.None? || rest.value <= counts[0].value then counts[0]
      else rest
  }

  /** `_static_output_row_count` */
  function StaticCount(graph: Graph, ghost rank: map<Id, nat>, id: Id): (count: Option<nat>)
    requires Layered(graph, rank) && id in graph
    decreases rank[id]
  {
    match graph[id]
    case Source(values) => Some(|values|)
    case Upstream(count) => count
    case OtherOp => None
    case Lambda(mode, inputs, _) =>
      if mode == ListMode then None
      else MaxKnown(seq(|inputs|, i requires 0 <= i < |inputs| => assert inputs[i] in inputs; StaticCount(graph, rank, inputs[i])))
  }

  function InputCounts(graph: Graph, ghost rank: map<Id, nat>, inputs: seq<Id>): (counts: seq<Option<nat>>)
    requires Layered(graph, rank) && forall inp :: inp in inputs ==> inp in graph
    ensures |counts| == |inputs|
  {
    seq(|inputs|, i requires 0 <= i < |inputs| => assert inputs[i] in inputs; StaticCount(graph, rank, inputs[i]))
  }

  datatype RowCountError = DifferentRowCounts

  function ManyRows(counts: seq<Option<nat>>): (multi: set<nat>) {
    set i | 0 <= i < |counts| && counts[i].Some? && counts[i].value > 1 :: counts[i].value
  }

  /** `_python_step_row_count` */
  function StepRowCount(counts: seq<Option<nat>>, combinesRows: bool): (r: Result<Option<nat>, RowCountError>) {
    if combinesRows && |ManyRows(counts)| > 1 then Err(DifferentRowCounts)
    else if None in counts then Ok(None)
    else
      var m := MaxKnown(counts);
      Ok(Some(if m.None? || m.value < 1 then 1 else m.value))
  }

  // ----- the generated steps -------------------------------------------------------------

  function MaxOf(lens: seq<nat>, default: nat): (m: nat)
    ensures lens == [] ==> m == default
    ensures lens != [] ==> m in lens
    ensures forall l :: l in lens ==> l <= m
  {
    if lens == [] then default
    else if |lens| == 1 then lens[0]
    else
      var rest := MaxOf(lens[1..], default);
      assert lens == [lens[0]] + lens[1..];
      if lens[0] <= rest then rest else lens[0]
  }

  function DefaultRows(mode: Mode): (n: nat) {
    if mode == RowMode then 1 else 0
  }

  /** Every column has one value or as many as the longest. */
  predicate BroadcastOk(lens: seq<nat>, mode: Mode) {
    forall l :: l in lens ==> l == 1 || l == MaxOf(lens, DefaultRows(mode))
  }

  function Lengths<V(!new)>(columns: seq<seq<V>>): (lens: seq<nat>)
    ensures |lens| == |columns|
  {
    seq(|columns|, k requires 0 <= k < |columns| => |columns[k]|)
  }

  datatype StepError = BadLength(column: nat) | WrongAnswerLength

  /** The tuple of values for row `i`: a single value stands for every row. */
  function RowOf<V(!new)>(columns: seq<seq<V>>, i: nat): (row: seq<V>)
    requires forall c :: c in columns ==> |c| == 1 || i < |c|
    ensures |row| == |columns|
    ensures forall k :: 0 <= k < |columns| ==>
              && columns[k] != [] && (|columns[k]| == 1 ==> row[k] == columns[k][0])
              && (|columns[k]| != 1 ==> i < |columns[k]| && row[k] == columns[k][i])
  {
    if columns == [] then []
    else
      var c := columns[0];
      assert c in columns;
      assert columns == [c] + columns[1..];
      [if |c| == 1 then c[0] else c[i]] + RowOf(columns[1..], i)
  }

  /** The length check that both kinds of step begin with. */
  method CheckLengths<V(!new)>(columns: seq<seq<V>>, mode: Mode) returns (bad: Option<nat>, n: nat)
    ensures n == MaxOf(Lengths(columns), DefaultRows(mode))
    ensures bad.None? <==> BroadcastOk(Lengths(columns), mode)
    ensures bad.None? ==> forall c :: c in columns ==> |c| == 1 || |c| == n
    ensures bad.Some? ==> bad.value < |columns| && |columns[bad.value]| !in {1, n}
  {
    n := MaxOf(Lengths(columns), DefaultRows(mode));
    for k := 0 to |columns|
      invariant forall k' :: 0 <= k' < k ==> |columns[k']| == 1 || |columns[k']| == n
    {
      if |columns[k]| != 1 && |columns[k]| != n {
        assert Lengths(columns)[k] in Lengths(columns);
        return Some(k), n;
      }
    }
    bad := None;
  }

  /** The row step: the caller's function applied row by row. */
  method RowMain<V(!new)>(columns: seq<seq<V>>, fn: seq<V> -> V) returns (r: Result<seq<V>, StepError>)
    ensures r.Ok? <==> BroadcastOk(Lengths(columns), RowMode)
    ensures r.Ok? ==> |r.value| == MaxOf(Lengths(columns), 1)
    ensures r.Ok? ==> forall i :: 0 <= i < |r.value| ==>
              (forall c :: c in columns ==> |c| == 1 || i < |c|) && r.value[i] == fn(RowOf(columns, i))
  {
    var bad, n := CheckLengths(columns, RowMode);
    if bad.Some? {
      return Err(BadLength(bad.value));
    }
    var items: seq<V> := [];
    for i := 0 to n
      invariant |items| == i
      invariant forall j :: 0 <= j < i ==> items[j] == fn(RowOf(columns, j))
    {
      items := items + [fn(RowOf(columns, i))];
    }
    r := Ok(items);
  }

  /** The aligned step: one call over whole columns, which must answer once per row. */
  method AlignedMain<V(!new)>(columns: seq<seq<V>>, fn: seq<seq<V>> -> seq<V>) returns (r: Result<seq<V>, StepError>)
    ensures r.Ok? <==> BroadcastOk(Lengths(columns), AlignedMode) && |fn(columns)| == MaxOf(Lengths(columns), 0)
    ensures r.Ok? ==> r.value == fn(columns)
  {
    var bad, n := CheckLengths(columns, AlignedMode);
    if bad.Some? {
      return Err(BadLength(bad.value));
    }
    var values := fn(columns);
    if |values| != n {
      return Err(WrongAnswerLength);
    }
    r := Ok(values);
  }

  // ----- one step: the static check against the runtime check ---------------------------------

  function Known(lens: seq<nat>): (counts: seq<Option<nat>>) {
    seq(|lens|, k requires 0 <= k < |lens| => Some(lens[k]))
  }

  lemma SingleValue(s: set<nat>, a: nat, b: nat)
    requires a in s && b in s && a != b
    ensures |s| > 1
  {
    SubsetCard({a, b}, s);
  }

  lemma AtMostOneValue(counts: seq<Option<nat>>, m: nat)
    requires forall c :: c in counts && c.Some? && c.value > 1 ==> c.value == m
    ensures |ManyRows(counts)| <= 1
  {
    forall x | x in ManyRows(counts) ensures x == m {
      var i :| 0 <= i < |counts| && counts[i].Some? && counts[i].value == x && x > 1;
      assert counts[i] in counts;
    }
    SubsetCard(ManyRows(counts), {m});
  }

  lemma ManyRowsHas(counts: seq<Option<nat>>, c: nat)
    requires Some(c) in counts && c > 1
    ensures c in ManyRows(counts)
  {
    var i :| 0 <= i < |counts| && counts[i] == Some(c);
  }

  lemma KnownHas(lens: seq<nat>, l: nat)
    ensures l in lens <==> Some(l) in Known(lens)
  {
    if l in lens {
      var k :| 0 <= k < |lens| && lens[k] == l;
      assert Known(lens)[k] == Some(l);
    }
  }

  /**
   With all counts known, the generated check passes exactly when the static one does and
   empty columns are not mixed with non-empty ones.
   */
  lemma StaticAgainstRuntime(lens: seq<nat>, mode: Mode)
    ensures BroadcastOk(lens, mode) <==>
              StepRowCount(Known(lens), true).Ok? && (0 in lens ==> forall l :: l in lens ==> l == 0)
  {
    var m := MaxOf(lens, DefaultRows(mode));
    if BroadcastOk(lens, mode) {
      forall c | c in Known(lens) && c.value > 1 ensures c.value == m {
        KnownHas(lens, c.value);
      }
      AtMostOneValue(Known(lens), m);
    } else if !(0 in lens && exists l :: l in lens && l != 0) {
      var l :| l in lens && l != 1 && l != m;
      KnownHas(lens, l);
      KnownHas(lens, m);
      ManyRowsHas(Known(lens), l);
      ManyRowsHas(Known(lens), m);
      SingleValue(ManyRows(Known(lens)), l, m);
    }
  }

  /** An accepted step over columns that are not all empty emits exactly the count foretold. */
  lemma ForetoldCount(lens: seq<nat>, mode: Mode)
    requires lens != [] && BroadcastOk(lens, mode)
    ensures StepRowCount(Known(lens), true) == Ok(Some(if MaxOf(lens, DefaultRows(mode)) == 0 then 1 else MaxOf(lens, DefaultRows(mode))))
  {
    StaticAgainstRuntime(lens, mode);
    MaxKnownIs(lens, MaxOf(lens, DefaultRows(mode)));
  }

  lemma MaxKnownIs(lens: seq<nat>, m: nat)
    requires m in lens && forall l :: l in lens ==> l <= m
    ensures MaxKnown(Known(lens)) == Some(m)
  {
    KnownHas(lens, m);
    var k := MaxKnown(Known(lens));
    KnownHas(lens, k.value);
  }

  // ----- whole graphs ---------------------------------------------------------------------------

  /** How many items each op emits when every step's check passes and aligned functions answer once per row. */
  function RowsEmitted(graph: Graph, ghost rank: map<Id, nat>, id: Id): (n: nat)
    requires Layered(graph, rank) && id in graph
    decreases rank[id]
  {
    match graph[id]
    case Source(values) => |values|
    case Upstream(_) => 0
    case OtherOp => 0
    case Lambda(mode, inputs, _) =>
      MaxOf(seq(|inputs|, i requires 0 <= i < |inputs| => assert inputs[i] in inputs; RowsEmitted(graph, rank, inputs[i])),
            DefaultRows(mode))
  }

  function InputRows(graph: Graph, ghost rank: map<Id, nat>, inputs: seq<Id>): (lens: seq<nat>)
    requires Layered(graph, rank) && forall inp :: inp in inputs ==> inp in graph
    ensures |lens| == |inputs|
  {
    seq(|inputs|, i requires 0 <= i < |inputs| => assert inputs[i] in inputs; RowsEmitted(graph, rank, inputs[i]))
  }

  /** Row and aligned Lambdas, each with an input, over values that are not empty. */
  ghost predicate IsPlainGraph(graph: Graph) {
    forall id :: id in graph ==>
      match graph[id]
      case Source(values) => values != []
      case Lambda(mode, inputs, _) => mode != ListMode && inputs != []
      case _ => false
  }

  ghost predicate Accepted(graph: Graph, rank: map<Id, nat>, id: Id)
    requires Layered(graph, rank) && id in graph
  {
    graph[id].Lambda? ==> StepRowCount(InputCounts(graph, rank, graph[id].inputs), true).Ok?
  }

  /**
   On such a graph, if every step is accepted, every step's check passes at run time, and every
   op emits exactly the number of rows counted for it beforehand, which is never zero.
   */
  lemma {:induction false} AcceptedCountsAreExact(graph: Graph, rank: map<Id, nat>, id: Id)
    requires Layered(graph, rank) && IsPlainGraph(graph) && id in graph
    requires forall other :: other in graph ==> Accepted(graph, rank, other)
    ensures RowsEmitted(graph, rank, id) > 0
    ensures StaticCount(graph, rank, id) == Some(RowsEmitted(graph, rank, id))
    ensures graph[id].Lambda? ==>
              && BroadcastOk(InputRows(graph, rank, graph[id].inputs), graph[id].mode)
              && StepRowCount(InputCounts(graph, rank, graph[id].inputs), true) == Ok(Some(RowsEmitted(graph, rank, id)))
    decreases rank[id]
  {
    if graph[id].Lambda? {
      var inputs, mode := graph[id].inputs, graph[id].mode;
      var lens := InputRows(graph, rank, inputs);
      forall i | 0 <= i < |inputs|
        ensures lens[i] > 0 && InputCounts(graph, rank, inputs)[i] == Some(lens[i])
      {
        assert inputs[i] in inputs;
        AcceptedCountsAreExact(graph, rank, inputs[i]);
      }
      assert InputCounts(graph, rank, inputs) == Known(lens);
      assert Accepted(graph, rank, id);
      StaticAgainstRuntime(lens, mode);
      ForetoldCount(lens, mode);
      MaxKnownIs(lens, MaxOf(lens, DefaultRows(mode)));
      EmittedIsMax(graph, rank, id);
    }
  }

  lemma EmittedIsMax(graph: Graph, rank: map<Id, nat>, id: Id)
    requires Layered(graph, rank) && id in graph && graph[id].Lambda?
    ensures RowsEmitted(graph, rank, id) == MaxOf(InputRows(graph, rank, graph[id].inputs), DefaultRows(graph[id].mode))
    ensures graph[id].mode != ListMode ==>
              StaticCount(graph, rank, id) == MaxKnown(InputCounts(graph, rank, graph[id].inputs))
  {
    var inputs := graph[id].inputs;
    assert InputRows(graph, rank, inputs)
        == seq(|inputs|, i requires 0 <= i < |inputs| => assert inputs[i] in inputs; RowsEmitted(graph, rank, inputs[i]));
    assert InputCounts(graph, rank, inputs)
        == seq(|inputs|, i requires 0 <= i < |inputs| => assert inputs[i] in inputs; StaticCount(graph, rank, inputs[i]));
  }

  // ----- rejection ---------------------------------------------------------------------------------

  /** What an op may emit in a run: a list-mode Lambda any number of items, the others as their check demands. */
  ghost predicate RunsTo(graph: Graph, emitted: map<Id, nat>, id: Id)
    requires id in graph && emitted.Keys == graph.Keys
    requires graph[id].Lambda? ==> forall inp :: inp in graph[id].inputs ==> inp in graph
  {
    match graph[id]
    case Source(values) => emitted[id] == |values|
    case Upstream(count) => count.Some? ==> emitted[id] == count.value
    case OtherOp => true
    case Lambda(mode, inputs, _) =>
      mode == ListMode ||
      (BroadcastOk(Emitted(emitted, inputs), mode) && emitted[id] == MaxOf(Emitted(emitted, inputs), DefaultRows(mode)))
  }

  function Emitted(emitted: map<Id, nat>, inputs: seq<Id>): (lens: seq<nat>)
    requires forall inp :: inp in inputs ==> inp in emitted
    ensures |lens| == |inputs|
  {
    seq(|inputs|, i requires 0 <= i < |inputs| => assert inputs[i] in inputs; emitted[inputs[i]])
  }

  /** A count above one is right in every run in which the steps before have passed, list-mode inputs or not. */
  lemma {:induction false} KnownCountIsRight(graph: Graph, rank: map<Id, nat>, emitted: map<Id, nat>, id: Id)
    requires Layered(graph, rank) && emitted.Keys == graph.Keys && id in graph
    requires forall other :: other in graph && rank[other] <= rank[id] ==> RunsTo(graph, emitted, other)
    requires StaticCount(graph, rank, id).Some? && StaticCount(graph, rank, id).value > 1
    ensures emitted[id] == StaticCount(graph, rank, id).value
    decreases rank[id]
  {
    assert RunsTo(graph, emitted, id);
    if graph[id].Lambda? {
      var inputs := graph[id].inputs;
      var counts, lens := InputCounts(graph, rank, inputs), Emitted(emitted, inputs);
      EmittedIsMax(graph, rank, id);
      var c := StaticCount(graph, rank, id);
      var i :| 0 <= i < |counts| && counts[i] == c;
      assert inputs[i] in inputs;
      KnownCountIsRight(graph, rank, emitted, inputs[i]);
      assert lens[i] in lens;
    }
  }

  /** A step that is rejected would fail its check in every run that reaches it. */
  lemma RejectionIsSound(graph: Graph, rank: map<Id, nat>, emitted: map<Id, nat>, id: Id)
    requires Layered(graph, rank) && emitted.Keys == graph.Keys && id in graph && graph[id].Lambda?
    requires forall other :: other in graph && rank[other] < rank[id] ==> RunsTo(graph, emitted, other)
    requires StepRowCount(InputCounts(graph, rank, graph[id].inputs), true).Err?
    ensures !BroadcastOk(Emitted(emitted, graph[id].inputs), graph[id].mode)
  {
    var inputs := graph[id].inputs;
    var counts, lens := InputCounts(graph, rank, inputs), Emitted(emitted, inputs);
    var a, b := TwoValues(ManyRows(counts));
    var i :| 0 <= i < |counts| && counts[i] == Some(a);
    var j :| 0 <= j < |counts| && counts[j] == Some(b);
    assert inputs[i] in inputs && inputs[j] in inputs;
    KnownCountIsRight(graph, rank, emitted, inputs[i]);
    KnownCountIsRight(graph, rank, emitted, inputs[j]);
    assert lens[i] in lens && lens[j] in lens;
  }

  lemma TwoValues(s: set<nat>) returns (a: nat, b: nat)
    requires |s| > 1
    ensures a in s && b in s && a != b
  {
    a :| a in s;
    assert s != {a};
    b :| b in s && b != a;
  }
}
