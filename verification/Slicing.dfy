/**
 routes/jobs.py: `_chunk_inputs` and `_input_shape`, and the slices that `_submit_dynamic_child`
 makes of a round's inputs, including those that `forward_refs` has bound.
 */
module Slicing {
  import opened Sequences
  import opened BoundIds
  import opened References
  import opened Forwarding
  import Admission

  type Inputs = map<string, seq<string>>

  datatype ShapeError = LengthsDiffer

  ghost predicate HasLength(inputs: Inputs, k: string, m: nat) {
    k in inputs && |inputs[k]| == m
  }

  /** `m` is the longest length; nothing at all counts as 0. */
  ghost predicate IsLongest(inputs: Inputs, m: nat) {
    && (forall k :: k in inputs ==> |inputs[k]| <= m)
    && (inputs == map[] ==> m == 0)
    && (inputs != map[] ==> exists k :: HasLength(inputs, k, m))
  }

  ghost predicate WellShaped(inputs: Inputs, m: nat) {
    IsLongest(inputs, m) && forall k :: k in inputs ==> |inputs[k]| == 1 || |inputs[k]| == m
  }

  lemma {:induction false} LongestExists(inputs: Inputs) returns (m: nat)
    ensures IsLongest(inputs, m)
    decreases |inputs|
  {
    if inputs == map[] {
      m := 0;
    } else {
      var k :| k in inputs;
      var rest := inputs - {k};
      m := LongestExists(rest);
      forall other | other in inputs ensures other == k || (other in rest && rest[other] == inputs[other]) {
      }
      if rest == map[] || |inputs[k]| > m {
        m := |inputs[k]|;
        assert HasLength(inputs, k, m);
      } else {
        var longest :| HasLength(rest, longest, m);
        assert HasLength(inputs, longest, m);
      }
    }
  }

  lemma SomeLongest(inputs: Inputs)
    ensures exists m :: IsLongest(inputs, m)
  {
    var m := LongestExists(inputs);
  }

  /** The length of the longest input. */
  ghost function Longest(inputs: Inputs): (m: nat)
    ensures IsLongest(inputs, m)
  {
    SomeLongest(inputs);
    var m :| IsLongest(inputs, m);
    m
  }

  method LongestLength(inputs: Inputs) returns (m: nat)
    ensures IsLongest(inputs, m) && m == Longest(inputs)
  {
    m := 0;
    var todo := inputs.Keys;
    ghost var longest: Option<string> := None;
    while todo != {}
      invariant todo <= inputs.Keys
      invariant forall k :: k in inputs && k !in todo ==> |inputs[k]| <= m
      invariant longest.None? ==> m == 0 && todo == inputs.Keys
      invariant longest.Some? ==> longest.value in inputs && |inputs[longest.value]| == m
      decreases todo
    {
      var k :| k in todo;
      if longest.None? || |inputs[k]| > m {
        longest := Some(k);
      }
      if |inputs[k]| > m {
        m := |inputs[k]|;
      }
      todo := todo - {k};
    }
    if inputs != map[] {
      assert inputs.Keys != {};
      assert HasLength(inputs, longest.value, m);
    }
    LongestUnique(inputs, m);
  }

  /** The loop both functions begin with. */
  method CheckLengths(inputs: Inputs) returns (ok: bool, m: nat)
    ensures m == Longest(inputs)
    ensures ok <==> WellShaped(inputs, m)
  {
    m := LongestLength(inputs);
    var todo := inputs.Keys;
    while todo != {}
      invariant todo <= inputs.Keys
      invariant forall k :: k in inputs && k !in todo ==> |inputs[k]| == 1 || |inputs[k]| == m
      decreases todo
    {
      var k :| k in todo;
      if |inputs[k]| != 1 && |inputs[k]| != m {
        return false, m;
      }
      todo := todo - {k};
    }
    ok := true;
  }

  /** `_input_shape` */
  method InputShape(inputs: Inputs) returns (r: Result<(nat, set<string>), ShapeError>)
    ensures r.Ok? <==> WellShaped(inputs, Longest(inputs))
    ensures r.Ok? ==> r.value.0 == Longest(inputs) && r.value.1 == set k | k in inputs && |inputs[k]| > 1
  {
    var ok, m := CheckLengths(inputs);
    if !ok {
      return Err(LengthsDiffer);
    }
    r := Ok((m, set k | k in inputs && |inputs[k]| > 1));
  }

  lemma LongestUnique(inputs: Inputs, m: nat)
    requires IsLongest(inputs, m)
    ensures forall n {:trigger IsLongest(inputs, n)} :: IsLongest(inputs, n) ==> n == m
    ensures forall n {:trigger WellShaped(inputs, n)} :: WellShaped(inputs, n) ==> n == m
  {
    forall n {:trigger IsLongest(inputs, n)} | IsLongest(inputs, n) ensures n == m {
      if inputs != map[] {
        var a :| HasLength(inputs, a, m);
        var b :| HasLength(inputs, b, n);
      }
    }
  }

  // ----- slices -------------------------------------------------------------------------

  /** The part of one input that starts at `start`: a single value is the same in every slice. */
  function SliceOf(values: seq<string>, start: nat, size: nat): (r: seq<string>) {
    if |values| == 1 then values else values[Least(start, |values|)..Least(start + size, |values|)]
  }

  function BatchAt(inputs: Inputs, start: nat, size: nat): (batch: Inputs)
    ensures batch.Keys == inputs.Keys
  {
    map k | k in inputs :: SliceOf(inputs[k], start, size)
  }

  /** The slices from `start` on. */
  function BatchesFrom(inputs: Inputs, m: nat, size: nat, start: nat): (batches: seq<Inputs>)
    requires size > 0
    decreases if start < m then m - start else 0
  {
    if start >= m then [] else [BatchAt(inputs, start, size)] + BatchesFrom(inputs, m, size, start + size)
  }

  function Batches(inputs: Inputs, m: nat, size: nat): (batches: seq<Inputs>)
    requires size > 0
  {
    if m <= size then [inputs] else BatchesFrom(inputs, m, size, 0)
  }

  lemma {:induction false} BatchesSplit(inputs: Inputs, m: nat, size: nat, start: nat, batches: seq<Inputs>)
    requires size > 0
    ensures start >= m ==> batches + BatchesFrom(inputs, m, size, start) == batches
    ensures start < m ==>
              (batches + BatchesFrom(inputs, m, size, start)
               == batches + [BatchAt(inputs, start, size)] + BatchesFrom(inputs, m, size, start + size))
  {
  }

  method MakeBatch(inputs: Inputs, start: nat, size: nat) returns (batch: Inputs)
    ensures batch == BatchAt(inputs, start, size)
  {
    batch := map[];
    var todo := inputs.Keys;
    while todo != {}
      invariant todo <= inputs.Keys && batch.Keys == inputs.Keys - todo
      invariant forall k :: k in batch ==> batch[k] == SliceOf(inputs[k], start, size)
      decreases todo
    {
      var k :| k in todo;
      var vals := inputs[k];
      if |vals| == 1 {
        batch := batch[k := vals];
      } else {
        batch := batch[k := vals[Least(start, |vals|)..Least(start + size, |vals|)]];
      }
      todo := todo - {k};
    }
  }

  /** `_chunk_inputs` */
  method ChunkInputs(inputs: Inputs, size: nat) returns (r: Result<seq<Inputs>, ShapeError>)
    requires size > 0
    ensures r.Ok? <==> WellShaped(inputs, Longest(inputs))
    ensures r.Ok? ==> r.value == Batches(inputs, Longest(inputs), size)
  {
    var ok, maxLen := CheckLengths(inputs);
    if !ok {
      return Err(LengthsDiffer);
    }
    if maxLen <= size {
      return Ok([inputs]);
    }
    var batches := CutFrom(inputs, maxLen, size);
    r := Ok(batches);
  }

  method CutFrom(inputs: Inputs, maxLen: nat, size: nat) returns (batches: seq<Inputs>)
    requires size > 0
    ensures batches == BatchesFrom(inputs, maxLen, size, 0)
  {
    batches := [];
    var start := 0;
    while start < maxLen
      invariant batches + BatchesFrom(inputs, maxLen, size, start) == BatchesFrom(inputs, maxLen, size, 0)
      decreases maxLen - start
    {
      var batch := MakeBatch(inputs, start, size);
      BatchesSplit(inputs, maxLen, size, start, batches);
      batches := batches + [batch];
      start := start + size;
    }
    BatchesSplit(inputs, maxLen, size, start, batches);
  }

  // ----- slicing loses nothing ------------------------------------------------------------------

  /** The slices of one input, side by side. */
  function Joined(batches: seq<Inputs>, k: string): (r: seq<string>)
  {
    if batches == [] then [] else (if k in batches[0] then batches[0][k] else []) + Joined(batches[1..], k)
  }

  lemma {:induction false} BatchesHaveKeys(inputs: Inputs, m: nat, size: nat, start: nat)
    requires size > 0
    ensures forall b :: b in BatchesFrom(inputs, m, size, start) ==> b.Keys == inputs.Keys
    decreases if start < m then m - start else 0
  {
    if start < m {
      BatchesHaveKeys(inputs, m, size, start + size);
    }
  }

  lemma {:induction false} VaryingFrom(inputs: Inputs, m: nat, size: nat, start: nat, k: string)
    requires size > 0 && k in inputs && |inputs[k]| == m && m != 1
    ensures Joined(BatchesFrom(inputs, m, size, start), k) == inputs[k][Least(start, m)..]
    decreases if start < m then m - start else 0
  {
    if start < m {
      VaryingFrom(inputs, m, size, start + size, k);
      JoinedFirst(BatchAt(inputs, start, size), BatchesFrom(inputs, m, size, start + size), k);
    }
  }

  lemma JoinedFirst(head: Inputs, rest: seq<Inputs>, k: string)
    requires k in head
    ensures Joined([head] + rest, k) == head[k] + Joined(rest, k)
  {
    assert ([head] + rest)[1..] == rest;
  }

  lemma {:induction false} SingleFrom(inputs: Inputs, m: nat, size: nat, start: nat, k: string)
    requires size > 0 && k in inputs && |inputs[k]| == 1
    ensures forall b :: b in BatchesFrom(inputs, m, size, start) ==> k in b && b[k] == inputs[k]
    decreases if start < m then m - start else 0
  {
    if start < m {
      SingleFrom(inputs, m, size, start + size, k);
    }
  }

  /** The slices of a varying input, one after the other, are that input; a single value is in every slice. */
  lemma SlicesConcatenate(inputs: Inputs, m: nat, size: nat, k: string)
    requires size > 0 && WellShaped(inputs, m) && k in inputs
    ensures forall b :: b in Batches(inputs, m, size) ==> b.Keys == inputs.Keys
    ensures |inputs[k]| != 1 ==> Joined(Batches(inputs, m, size), k) == inputs[k]
    ensures |inputs[k]| == 1 ==> forall b :: b in Batches(inputs, m, size) ==> b[k] == inputs[k]
  {
    if m <= size {
      assert [inputs][1..] == [];
    } else {
      BatchesHaveKeys(inputs, m, size, 0);
      if |inputs[k]| == 1 {
        SingleFrom(inputs, m, size, 0, k);
      } else {
        VaryingFrom(inputs, m, size, 0, k);
      }
    }
  }

  // ----- the slice metadata -----------------------------------------------------------------------

  datatype SliceMeta = SliceMeta(index: nat, start: nat, length: nat, total: nat)

  /** The slices lie one after the other from `from` on, without gap or overlap, and end at `to`. */
  ghost predicate Tile(metas: seq<SliceMeta>, from: nat, to: nat)
    decreases |metas|
  {
    if metas == [] then from == to
    else metas[0].start == from && Tile(metas[1..], from + metas[0].length, to)
  }

  lemma {:induction false} TileAppend(metas: seq<SliceMeta>, from: nat, to: nat, last: SliceMeta)
    requires Tile(metas, from, to) && last.start == to
    ensures Tile(metas + [last], from, to + last.length)
    decreases |metas|
  {
    if metas == [] {
      assert [last][1..] == [];
    } else {
      TileAppend(metas[1..], from + metas[0].length, to, last);
      assert (metas + [last])[1..] == metas[1..] + [last];
    }
  }

  /** A slice is well shaped and its length is what is left, up to the batch size. */
  lemma BatchShape(inputs: Inputs, m: nat, size: nat, start: nat)
    requires size > 0 && WellShaped(inputs, m) && size < m && start < m
    ensures WellShaped(BatchAt(inputs, start, size), Least(size, m - start))
  {
    var batch, n := BatchAt(inputs, start, size), Least(size, m - start);
    var k :| HasLength(inputs, k, m);
    assert HasLength(batch, k, n);
    assert batch != map[];
  }

  /** The slices made so far: one after the other, each as long as its inputs. */
  ghost predicate SlicedSoFar(slices: seq<(SliceMeta, Inputs)>, batches: seq<Inputs>, m: nat, to: nat) {
    && BatchesOf(slices) == batches && Tile(MetasOf(slices), 0, to)
    && forall i {:trigger GoodSlice(slices, i, m)} :: 0 <= i < |slices| ==> GoodSlice(slices, i, m)
  }

  ghost predicate GoodSlice(slices: seq<(SliceMeta, Inputs)>, i: nat, m: nat)
    requires i < |slices|
  {
    slices[i].0.index == i && slices[i].0.total == m && WellShaped(slices[i].1, slices[i].0.length)
  }

  lemma SliceNext(slices: seq<(SliceMeta, Inputs)>, batches: seq<Inputs>, m: nat, to: nat, batch: Inputs, length: nat)
    requires SlicedSoFar(slices, batches, m, to) && WellShaped(batch, length)
    ensures SlicedSoFar(slices + [(SliceMeta(|slices|, to, length, m), batch)], batches + [batch], m, to + length)
  {
    var meta := SliceMeta(|slices|, to, length, m);
    var next := slices + [(meta, batch)];
    TileAppend(MetasOf(slices), 0, to, meta);
    assert MetasOf(next) == MetasOf(slices) + [meta];
    assert BatchesOf(next) == BatchesOf(slices) + [batch];
    forall i {:trigger GoodSlice(next, i, m)} | 0 <= i < |next| ensures GoodSlice(next, i, m) {
      if i < |slices| {
        assert GoodSlice(slices, i, m);
      }
    }
  }

  /** The slicing loop of `_submit_dynamic_child` and of a submission. */
  method SliceInputs(inputs: Inputs, size: nat) returns (r: Result<seq<(SliceMeta, Inputs)>, ShapeError>)
    requires size > 0
    ensures r.Ok? <==> WellShaped(inputs, Longest(inputs))
    ensures r.Ok? ==> SlicedSoFar(r.value, Batches(inputs, Longest(inputs), size), Longest(inputs), Longest(inputs))
  {
    var shape := InputShape(inputs);
    var batches := ChunkInputs(inputs, size);
    if shape.Err? || batches.Err? {
      return Err(LengthsDiffer);
    }
    var slices := CutSlices(inputs, shape.value.0, size, batches.value);
    r := Ok(slices);
  }

  method CutSlices(inputs: Inputs, total: nat, size: nat, batches: seq<Inputs>) returns (slices: seq<(SliceMeta, Inputs)>)
    requires size > 0 && WellShaped(inputs, total) && batches == Batches(inputs, total, size)
    ensures SlicedSoFar(slices, batches, total, total)
  {
    slices := [];
    var sliceStart := 0;
    for i := 0 to |batches|
      invariant |slices| == i && sliceStart == StartOf(i, size, total)
      invariant SlicedSoFar(slices, batches[..i], total, sliceStart)
    {
      BatchIs(inputs, total, size, i);
      NextStart(i, size, total);
      var sliceShape := InputShape(batches[i]);
      LongestUnique(batches[i], LengthOf(i, size, total));
      var sliceLength := sliceShape.value.0;
      SliceNext(slices, batches[..i], total, sliceStart, batches[i], sliceLength);
      assert batches[..i + 1] == batches[..i] + [batches[i]];
      slices := slices + [(SliceMeta(i, sliceStart, sliceLength, total), batches[i])];
      sliceStart := sliceStart + sliceLength;
    }
    BatchCount(inputs, total, size);
    assert batches[..|batches|] == batches;
  }

  /** Where slice `i` would start in an endless input. */
  ghost function Steps(i: nat, size: nat): (n: nat) {
    if i == 0 then 0 else Steps(i - 1, size) + size
  }

  ghost function StartOf(i: nat, size: nat, total: nat): (n: nat)
    ensures n <= total
  {
    Least(Steps(i, size), total)
  }

  ghost function LengthOf(i: nat, size: nat, total: nat): (n: nat) {
    Least(size, total - StartOf(i, size, total))
  }

  function BatchesOf(slices: seq<(SliceMeta, Inputs)>): (r: seq<Inputs>) {
    seq(|slices|, i requires 0 <= i < |slices| => slices[i].1)
  }

  function MetasOf(slices: seq<(SliceMeta, Inputs)>): (r: seq<SliceMeta>) {
    seq(|slices|, i requires 0 <= i < |slices| => slices[i].0)
  }

  /** How many slices there are: they reach the end, and the one before the last does not. */
  lemma {:induction false} BatchesFromAt(inputs: Inputs, m: nat, size: nat, start: nat, i: nat)
    requires size > 0
    ensures i < |BatchesFrom(inputs, m, size, start)| <==> start + Steps(i, size) < m
    ensures i < |BatchesFrom(inputs, m, size, start)| ==>
              BatchesFrom(inputs, m, size, start)[i] == BatchAt(inputs, start + Steps(i, size), size)
    decreases if start < m then m - start else 0
  {
    if start < m && i > 0 {
      BatchesFromAt(inputs, m, size, start + size, i - 1);
    }
  }

  lemma NextStart(i: nat, size: nat, m: nat)
    ensures StartOf(i + 1, size, m) == StartOf(i, size, m) + LengthOf(i, size, m)
  {
    assert Steps(i + 1, size) == Steps(i, size) + size;
  }

  lemma CutLength(i: nat, size: nat, m: nat)
    requires Steps(i, size) < m
    ensures LengthOf(i, size, m) == Least(size, m - Steps(i, size))
  {
  }

  lemma CutBatchIs(inputs: Inputs, m: nat, size: nat, i: nat)
    requires size > 0 && WellShaped(inputs, m) && size < m && i < |BatchesFrom(inputs, m, size, 0)|
    ensures WellShaped(BatchesFrom(inputs, m, size, 0)[i], LengthOf(i, size, m))
  {
    var start := Steps(i, size);
    BatchesFromAt(inputs, m, size, 0, i);
    CutLength(i, size, m);
    BatchShape(inputs, m, size, start);
    assert BatchesFrom(inputs, m, size, 0)[i] == BatchAt(inputs, start, size);
  }

  lemma BatchIs(inputs: Inputs, m: nat, size: nat, i: nat)
    requires size > 0 && WellShaped(inputs, m) && i < |Batches(inputs, m, size)|
    ensures WellShaped(Batches(inputs, m, size)[i], LengthOf(i, size, m))
  {
    if m > size {
      CutBatchIs(inputs, m, size, i);
    } else {
      WholeLength(size, m);
      assert Batches(inputs, m, size)[i] == inputs && i == 0;
    }
  }

  lemma WholeLength(size: nat, m: nat)
    requires m <= size
    ensures LengthOf(0, size, m) == m
  {
  }

  lemma BatchCount(inputs: Inputs, m: nat, size: nat)
    requires size > 0
    ensures StartOf(|Batches(inputs, m, size)|, size, m) == m
  {
    if m > size {
      BatchesFromAt(inputs, m, size, 0, |Batches(inputs, m, size)|);
    }
  }

  // ----- one row per slice -----------------------------------------------------------------------------

  /** Inputs that all carry one value per row, cut at batch size 1: slice `i` is row `i` of every input. */
  lemma RowPerSlice(inputs: Inputs, rows: nat, i: nat)
    requires rows > 1 && (forall k :: k in inputs ==> |inputs[k]| == rows) && i < rows
    ensures |Batches(inputs, rows, 1)| == rows
    ensures Batches(inputs, rows, 1)[i].Keys == inputs.Keys
    ensures forall k :: k in inputs ==> Batches(inputs, rows, 1)[i][k] == [inputs[k][i]]
  {
    OneByOne(inputs, rows, 0, i);
    forall k | k in inputs ensures BatchAt(inputs, i, 1)[k] == [inputs[k][i]] {
      assert Least(i, rows) == i && Least(i + 1, rows) == i + 1;
      assert SliceOf(inputs[k], i, 1) == inputs[k][i..i + 1] == [inputs[k][i]];
    }
  }

  lemma {:induction false} OneByOne(inputs: Inputs, m: nat, start: nat, i: nat)
    requires start + i < m
    ensures |BatchesFrom(inputs, m, 1, start)| == m - start
    ensures BatchesFrom(inputs, m, 1, start)[i] == BatchAt(inputs, start + i, 1)
    decreases m - start
  {
    var rest := BatchesFrom(inputs, m, 1, start + 1);
    assert BatchesFrom(inputs, m, 1, start) == [BatchAt(inputs, start, 1)] + rest;
    if start + 1 < m {
      OneByOne(inputs, m, start + 1, if i == 0 then 0 else i - 1);
    }
  }

  lemma EqualLengthsAreWellShaped(inputs: Inputs, rows: nat, key: string)
    requires key in inputs && forall k :: k in inputs ==> |inputs[k]| == rows
    ensures WellShaped(inputs, rows)
  {
    assert HasLength(inputs, key, rows);
  }

  /** What a round is given: the run's symbols and everything `forward_refs` has bound. */
  function RoundInputs(symbols: seq<string>, forwarded: Inputs): (inputs: Inputs) {
    map[Admission.INPUT_NODE_ID := symbols] + forwarded
  }

  lemma NotTheInputNode(ref: Id, path: string)
    ensures InputId(ref, path) != Admission.INPUT_NODE_ID
  {
    assert InputId(ref, path)[|ref| + 1] == '|';
    assert '|' !in Admission.INPUT_NODE_ID;
  }

  /** The text is the one that the reference has in row `i`. */
  ghost predicate RowHolds(st: Store, o: Origin, i: nat, text: string) {
    && o.ref in st.results && i < |st.results[o.ref]|
    && var item := st.results[o.ref][i];
       match o
       case Whole(ref) => ref in st.configs && RowText(item, st.configs[ref].forwardPath, text)
       case At(_, path) => RowText(item, path, text)
  }

  /**
   A round over several rows: each slice holds row `i` of the symbols and, for every forwarded
   reference, the value that reference has in row `i`.
   */
  lemma ForwardedRowPerSlice(
      symbols: seq<string>, st: Store, forwarded: Inputs, origins: map<Id, Origin>, sources: set<Origin>, i: nat)
    requires |symbols| > 1 && i < |symbols| && st.rows == |symbols| && Admission.INPUT_NODE_ID !in st.results
    requires InputsRight(st, forwarded, origins, sources)
    ensures
      var inputs := RoundInputs(symbols, forwarded);
      && WellShaped(inputs, |symbols|) && |Batches(inputs, |symbols|, 1)| == |symbols|
      && Batches(inputs, |symbols|, 1)[i].Keys == inputs.Keys
      && Batches(inputs, |symbols|, 1)[i][Admission.INPUT_NODE_ID] == [symbols[i]]
    ensures forall k :: k in forwarded ==>
              && k in origins && KeyOf(origins[k]) == k && origins[k].ref in st.results
              && k in Batches(RoundInputs(symbols, forwarded), |symbols|, 1)[i]
              && |Batches(RoundInputs(symbols, forwarded), |symbols|, 1)[i][k]| == 1
              && RowHolds(st, origins[k], i, Batches(RoundInputs(symbols, forwarded), |symbols|, 1)[i][k][0])
  {
    var inputs := RoundInputs(symbols, forwarded);
    forall k | k in forwarded ensures |forwarded[k]| == |symbols| && k != Admission.INPUT_NODE_ID {
      assert BoundRight(st, forwarded, origins, sources, k);
      if origins[k].At? {
        NotTheInputNode(origins[k].ref, origins[k].path);
      }
    }
    EqualLengthsAreWellShaped(inputs, |symbols|, Admission.INPUT_NODE_ID);
    RowPerSlice(inputs, |symbols|, i);
    forall k | k in forwarded
      ensures k in origins && KeyOf(origins[k]) == k && inputs[k] == forwarded[k]
      ensures RowHolds(st, origins[k], i, forwarded[k][i])
    {
      assert BoundRight(st, forwarded, origins, sources, k);
    }
  }
}
