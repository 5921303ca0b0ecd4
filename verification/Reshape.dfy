/**
 runtime/python_step.py: the flatten and regroup steps around a per-row vision model.
 Flatten renders one prompt per image of every row; regroup puts the outputs of the model,
 one per prompt and in the same order, back into one list per row.
 */
module Reshape {
  import opened Sequences

  /** A plan entry with its loaded column: per-row groups, or one value per row (or one for all). */
  datatype Entry<V> =
    | Grouped(name: string, groups: seq<seq<V>>)
    | RowLevel(name: string, values: seq<V>)

  datatype Item = Item(output: string, row: int)

  /** The row a flattened item carries, as the regroup step reads it back. */
  datatype RowCell = IntCell(row: int) | OtherCell

  datatype FlattenError = BadColumn(entry: nat)

  datatype RegroupError = OutputsAndRowsDiffer | RowNotInteger(at: nat) | RowOutOfRange(at: nat) | WrongGroupSize(row: nat)

  /** The builder puts the image entry, which is grouped, first. */
  predicate IsPlan<V(!new)>(plan: seq<Entry<V>>) {
    plan != [] && plan[0].Grouped?
  }

  function Sizes<V(!new)>(groups: seq<seq<V>>): (sizes: seq<nat>) {
    seq(|groups|, i requires 0 <= i < |groups| => |groups[i]|)
  }

  // ----- flatten -------------------------------------------------------------------------

  predicate GoodColumn<V(!new)>(entry: Entry<V>, sizes: seq<nat>) {
    match entry
    case Grouped(_, groups) => Sizes(groups) == sizes
    case RowLevel(_, values) => |values| == 1 || |values| == |sizes|
  }

  predicate Accepts<V(!new)>(plan: seq<Entry<V>>)
    requires IsPlan(plan)
  {
    forall k :: 0 <= k < |plan| ==> GoodColumn(plan[k], Sizes(plan[0].groups))
  }

  function CellOf<V(!new)>(entry: Entry<V>, sizes: seq<nat>, i: nat, j: nat): (v: V)
    requires GoodColumn(entry, sizes) && i < |sizes| && j < sizes[i]
  {
    match entry
    case Grouped(_, groups) => assert |groups[i]| == Sizes(groups)[i]; groups[i][j]
    case RowLevel(_, values) => if |values| == |sizes| then values[i] else values[0]
  }

  /** The values a prompt is rendered from, the first `k` entries in; the image itself is never rendered. */
  function Cells<V(!new)>(plan: seq<Entry<V>>, i: nat, j: nat, k: nat): (cells: map<string, V>)
    requires IsPlan(plan) && Accepts(plan) && k <= |plan|
    requires i < |plan[0].groups| && j < |plan[0].groups[i]|
  {
    if k <= 1 then map[]
    else Cells(plan, i, j, k - 1)[plan[k - 1].name := CellOf(plan[k - 1], Sizes(plan[0].groups), i, j)]
  }

  /** Each column name stands for its own cell, and no other name is bound. */
  lemma {:induction false} CellsAreColumns<V(!new)>(plan: seq<Entry<V>>, i: nat, j: nat, k: nat)
    requires IsPlan(plan) && Accepts(plan) && k <= |plan|
    requires i < |plan[0].groups| && j < |plan[0].groups[i]|
    requires forall a, b :: 1 <= a < b < |plan| ==> plan[a].name != plan[b].name
    ensures forall e :: 1 <= e < k ==>
              && plan[e].name in Cells(plan, i, j, k)
              && var cell := Cells(plan, i, j, k)[plan[e].name];
                 match plan[e]
                 case Grouped(_, groups) => i < |groups| && j < |groups[i]| && cell == groups[i][j]
                 case RowLevel(_, values) =>
                   && values != [] && (|values| == 1 ==> cell == values[0])
                   && (|values| != 1 ==> i < |values| && cell == values[i])
    ensures forall name :: name in Cells(plan, i, j, k) ==> exists e :: 1 <= e < k && plan[e].name == name
  {
    if k > 1 {
      CellsAreColumns(plan, i, j, k - 1);
      var sizes := Sizes(plan[0].groups);
      assert GoodColumn(plan[k - 1], sizes) && sizes[i] == |plan[0].groups[i]|;
      if plan[k - 1].Grouped? {
        assert Sizes(plan[k - 1].groups)[i] == sizes[i];
      }
    }
  }

  function Prompt<V(!new)>(plan: seq<Entry<V>>, render: map<string, V> -> string, i: nat, j: nat): (prompt: string)
    requires IsPlan(plan) && Accepts(plan)
    requires i < |plan[0].groups| && j < |plan[0].groups[i]|
  {
    render(Cells(plan, i, j, |plan|))
  }

  function RowItems<V(!new)>(plan: seq<Entry<V>>, render: map<string, V> -> string, i: nat, size: nat): (items: seq<Item>)
    requires IsPlan(plan) && Accepts(plan)
    requires i < |plan[0].groups| && size <= |plan[0].groups[i]|
  {
    seq(size, j requires 0 <= j < size => Item(Prompt(plan, render, i, j), i))
  }

  /** One item per image of the first `n` rows, row by row. */
  function FlatItems<V(!new)>(plan: seq<Entry<V>>, render: map<string, V> -> string, n: nat): (items: seq<Item>)
    requires IsPlan(plan) && Accepts(plan) && n <= |plan[0].groups|
  {
    if n == 0 then []
    else FlatItems(plan, render, n - 1) + RowItems(plan, render, n - 1, |plan[0].groups[n - 1]|)
  }

  method Flatten<V(!new)>(plan: seq<Entry<V>>, render: map<string, V> -> string)
    returns (r: Result<seq<Item>, FlattenError>)
    requires IsPlan(plan)
    ensures r.Ok? <==> Accepts(plan)
    ensures r.Ok? ==> r.value == FlatItems(plan, render, |plan[0].groups|)
    ensures r.Err? ==>
              && r.error.entry < |plan| && !GoodColumn(plan[r.error.entry], Sizes(plan[0].groups))
              && forall k :: 0 <= k < r.error.entry ==> GoodColumn(plan[k], Sizes(plan[0].groups))
  {
    var n := |plan[0].groups|;
    var groupSizes := Sizes(plan[0].groups);
    for k := 0 to |plan|
      invariant forall k' :: 0 <= k' < k ==> GoodColumn(plan[k'], groupSizes)
    {
      match plan[k] {
        case Grouped(_, col) =>
          if |col| != n {
            return Err(BadColumn(k));
          }
          for i := 0 to |col|
            invariant forall i' :: 0 <= i' < i ==> |col[i']| == groupSizes[i']
          {
            if |col[i]| != groupSizes[i] {
              assert Sizes(col)[i] != groupSizes[i];
              return Err(BadColumn(k));
            }
          }
          assert Sizes(col) == groupSizes;
        case RowLevel(_, col) =>
          if |col| != 1 && |col| != n {
            return Err(BadColumn(k));
          }
      }
    }
    var items: seq<Item> := [];
    for i := 0 to n
      invariant items == FlatItems(plan, render, i)
    {
      for j := 0 to groupSizes[i]
        invariant items == FlatItems(plan, render, i) + RowItems(plan, render, i, j)
      {
        var values: map<string, V> := map[];
        for k := 1 to |plan|
          invariant values == Cells(plan, i, j, k)
        {
          var col := plan[k];
          assert GoodColumn(col, groupSizes);
          match col {
            case Grouped(name, groups) =>
              assert |groups[i]| == Sizes(groups)[i];
              values := values[name := groups[i][j]];
            case RowLevel(name, column) =>
              values := values[name := if |column| == n then column[i] else column[0]];
          }
        }
        items := items + [Item(render(values), i)];
      }
    }
    r := Ok(items);
  }

  // ----- regroup --------------------------------------------------------------------------

  /** The values whose row is `row`, in order. */
  function Select<T(!new)>(values: seq<T>, rows: seq<RowCell>, row: int): (r: seq<T>)
    requires |values| == |rows|
  {
    if values == [] then []
    else
      var n := |values| - 1;
      Select(values[..n], rows[..n], row) + (if rows[n] == IntCell(row) then [values[n]] else [])
  }

  predicate GoodCell(cell: RowCell, n: nat) {
    cell.IntCell? && 0 <= cell.row < n
  }

  ghost predicate Regroups<T(!new)>(values: seq<T>, rows: seq<RowCell>, sizes: seq<nat>) {
    && |values| == |rows|
    && (forall k :: 0 <= k < |rows| ==> GoodCell(rows[k], |sizes|))
    && (forall row :: 0 <= row < |sizes| ==> |Select(values, rows, row)| == sizes[row])
  }

  /** The first thing regroup complains about. */
  ghost predicate IsFault<T(!new)>(values: seq<T>, rows: seq<RowCell>, sizes: seq<nat>, error: RegroupError) {
    match error
    case OutputsAndRowsDiffer => |values| != |rows|
    case RowNotInteger(at) => at < |rows| && rows[at].OtherCell? && forall k :: 0 <= k < at ==> GoodCell(rows[k], |sizes|)
    case RowOutOfRange(at) =>
      && at < |rows| && rows[at].IntCell? && !GoodCell(rows[at], |sizes|)
      && forall k :: 0 <= k < at ==> GoodCell(rows[k], |sizes|)
    case WrongGroupSize(row) =>
      && |values| == |rows| && (forall k :: 0 <= k < |rows| ==> GoodCell(rows[k], |sizes|))
      && row < |sizes| && |Select(values, rows, row)| != sizes[row]
      && forall r :: 0 <= r < row ==> |Select(values, rows, r)| == sizes[r]
  }

  method Regroup<T(!new)>(values: seq<T>, rows: seq<RowCell>, sizes: seq<nat>)
    returns (r: Result<seq<seq<T>>, RegroupError>)
    ensures r.Ok? <==> Regroups(values, rows, sizes)
    ensures r.Ok? ==> |r.value| == |sizes| && forall i :: 0 <= i < |sizes| ==> r.value[i] == Select(values, rows, i)
    ensures r.Err? ==> IsFault(values, rows, sizes, r.error)
  {
    var n := |sizes|;
    if |values| != |rows| {
      return Err(OutputsAndRowsDiffer);
    }
    var result: seq<seq<T>> := seq(n, _ => []);
    for k := 0 to |values|
      invariant |result| == n
      invariant forall k' :: 0 <= k' < k ==> GoodCell(rows[k'], n)
      invariant forall i :: 0 <= i < n ==> result[i] == Select(values[..k], rows[..k], i)
    {
      if rows[k].OtherCell? {
        return Err(RowNotInteger(k));
      }
      var row := rows[k].row;
      if !(0 <= row < n) {
        return Err(RowOutOfRange(k));
      }
      assert values[..k + 1][..k] == values[..k] && rows[..k + 1][..k] == rows[..k];
      result := result[row := result[row] + [values[k]]];
    }
    assert values[..|values|] == values && rows[..|rows|] == rows;
    for i := 0 to n
      invariant forall i' :: 0 <= i' < i ==> |Select(values, rows, i')| == sizes[i']
    {
      if |result[i]| != sizes[i] {
        return Err(WrongGroupSize(i));
      }
    }
    r := Ok(result);
  }

  // ----- one undoes the other ------------------------------------------------------------------

  function RowsOf(items: seq<Item>): (rows: seq<RowCell>) {
    seq(|items|, k requires 0 <= k < |items| => IntCell(items[k].row))
  }

  /** How many items come before row `i`. */
  function Offset(sizes: seq<nat>, i: nat): (n: nat)
    requires i <= |sizes|
  {
    if i == 0 then 0 else Offset(sizes, i - 1) + sizes[i - 1]
  }

  lemma {:induction false} SelectAppend<T(!new)>(a: seq<T>, ra: seq<RowCell>, b: seq<T>, rb: seq<RowCell>, row: int)
    requires |a| == |ra| && |b| == |rb|
    ensures Select(a + b, ra + rb, row) == Select(a, ra, row) + Select(b, rb, row)
  {
    if b == [] {
      assert a + b == a && ra + rb == ra;
    } else {
      var n := |b| - 1;
      SelectAppend(a, ra, b[..n], rb[..n], row);
      assert (a + b)[..|a + b| - 1] == a + b[..n];
      assert (ra + rb)[..|a + b| - 1] == ra + rb[..n];
    }
  }

  lemma {:induction false} SelectUniform<T(!new)>(values: seq<T>, rows: seq<RowCell>, own: int, row: int)
    requires |values| == |rows| && forall k :: 0 <= k < |rows| ==> rows[k] == IntCell(own)
    ensures Select(values, rows, row) == if row == own then values else []
  {
    if values != [] {
      var n := |values| - 1;
      SelectUniform(values[..n], rows[..n], own, row);
      assert values == values[..n] + [values[n]];
    }
  }

  /** The part of a flat list that belongs to row `i`. */
  function SliceOf<T(!new)>(values: seq<T>, sizes: seq<nat>, i: nat): (r: seq<T>)
    requires i < |sizes| && |values| == Offset(sizes, |sizes|)
    ensures |r| == sizes[i]
  {
    OffsetMonotone(sizes, i + 1, |sizes|);
    values[Offset(sizes, i)..Offset(sizes, i + 1)]
  }

  lemma {:induction false} OffsetMonotone(sizes: seq<nat>, i: nat, n: nat)
    requires i <= n <= |sizes|
    ensures Offset(sizes, i) <= Offset(sizes, n)
  {
    if i < n {
      OffsetMonotone(sizes, i, n - 1);
    }
  }

  lemma {:induction false} FlatLength<V(!new)>(plan: seq<Entry<V>>, render: map<string, V> -> string, n: nat)
    requires IsPlan(plan) && Accepts(plan) && n <= |plan[0].groups|
    ensures |FlatItems(plan, render, n)| == Offset(Sizes(plan[0].groups), n)
  {
    if n > 0 {
      FlatLength(plan, render, n - 1);
    }
  }

  /** Item `j` of row `i` stands at offset(i) + j and holds the prompt of that very image. */
  lemma {:induction false} FlatItemAt<V(!new)>(plan: seq<Entry<V>>, render: map<string, V> -> string, n: nat, i: nat, j: nat)
    requires IsPlan(plan) && Accepts(plan) && i < n <= |plan[0].groups| && j < |plan[0].groups[i]|
    ensures Offset(Sizes(plan[0].groups), i) + j < |FlatItems(plan, render, n)|
    ensures FlatItems(plan, render, n)[Offset(Sizes(plan[0].groups), i) + j] == Item(render(Cells(plan, i, j, |plan|)), i)
  {
    FlatLength(plan, render, n - 1);
    var rest, last := FlatItems(plan, render, n - 1), RowItems(plan, render, n - 1, |plan[0].groups[n - 1]|);
    assert FlatItems(plan, render, n) == rest + last;
    if i < n - 1 {
      FlatItemAt(plan, render, n - 1, i, j);
    } else {
      assert (rest + last)[|rest| + j] == last[j];
    }
  }

  /** The row column flatten produces, from the group sizes alone. */
  function RowColumn(sizes: seq<nat>, n: nat): (rows: seq<RowCell>)
    requires n <= |sizes|
    ensures |rows| == Offset(sizes, n)
    ensures forall k :: 0 <= k < |rows| ==> GoodCell(rows[k], n)
  {
    if n == 0 then [] else RowColumn(sizes, n - 1) + seq(sizes[n - 1], _ => IntCell(n - 1))
  }

  lemma {:induction false} FlatRows<V(!new)>(plan: seq<Entry<V>>, render: map<string, V> -> string, n: nat)
    requires IsPlan(plan) && Accepts(plan) && n <= |plan[0].groups|
    ensures RowsOf(FlatItems(plan, render, n)) == RowColumn(Sizes(plan[0].groups), n)
  {
    if n > 0 {
      FlatRows(plan, render, n - 1);
      var here := RowItems(plan, render, n - 1, |plan[0].groups[n - 1]|);
      assert RowsOf(FlatItems(plan, render, n - 1) + here) == RowsOf(FlatItems(plan, render, n - 1)) + RowsOf(here);
    }
  }

  lemma SelectNext<T(!new)>(sizes: seq<nat>, n: nat, outputs: seq<T>, row: nat)
    requires 0 < n <= |sizes| && |outputs| == Offset(sizes, n)
    ensures
      var cut := Offset(sizes, n - 1);
      && cut <= |outputs|
      && Select(outputs, RowColumn(sizes, n), row)
         == Select(outputs[..cut], RowColumn(sizes, n - 1), row) + (if row == n - 1 then outputs[cut..] else [])
  {
    var cut := Offset(sizes, n - 1);
    var here := seq(sizes[n - 1], _ => IntCell(n - 1));
    SelectUniform(outputs[cut..], here, n - 1, row);
    assert outputs == outputs[..cut] + outputs[cut..];
    SelectAppend(outputs[..cut], RowColumn(sizes, n - 1), outputs[cut..], here, row);
  }

  lemma {:induction false} SelectBeyond<T(!new)>(sizes: seq<nat>, n: nat, outputs: seq<T>, row: nat)
    requires n <= |sizes| && |outputs| == Offset(sizes, n) && row >= n
    ensures Select(outputs, RowColumn(sizes, n), row) == []
  {
    if n > 0 {
      SelectNext(sizes, n, outputs, row);
      SelectBeyond(sizes, n - 1, outputs[..Offset(sizes, n - 1)], row);
    }
  }

  /** Among the items of the first `n` rows, those of row `row` are its own part of the list. */
  lemma {:induction false} SelectPart<T(!new)>(sizes: seq<nat>, n: nat, outputs: seq<T>, row: nat)
    requires row < n <= |sizes| && |outputs| == Offset(sizes, n)
    ensures
      && Offset(sizes, row) <= Offset(sizes, row + 1) <= |outputs|
      && Select(outputs, RowColumn(sizes, n), row) == outputs[Offset(sizes, row)..Offset(sizes, row + 1)]
  {
    var cut := Offset(sizes, n - 1);
    SelectNext(sizes, n, outputs, row);
    if row < n - 1 {
      SelectPart(sizes, n - 1, outputs[..cut], row);
      assert outputs[..cut][Offset(sizes, row)..Offset(sizes, row + 1)] == outputs[Offset(sizes, row)..Offset(sizes, row + 1)];
    } else {
      SelectBeyond(sizes, n - 1, outputs[..cut], row);
    }
  }

  /**
   What regroup is given when the model answers each flattened prompt in place: it accepts,
   and row `i` receives exactly its own part of the answers.
   */
  lemma RegroupUndoesFlatten<V(!new), T(!new)>(
      plan: seq<Entry<V>>, render: map<string, V> -> string, outputs: seq<T>)
    requires IsPlan(plan) && Accepts(plan)
    requires |outputs| == |FlatItems(plan, render, |plan[0].groups|)|
    ensures
      var sizes := Sizes(plan[0].groups);
      var rows := RowsOf(FlatItems(plan, render, |sizes|));
      && |outputs| == Offset(sizes, |sizes|)
      && Regroups(outputs, rows, sizes)
      && forall i :: 0 <= i < |sizes| ==> Select(outputs, rows, i) == SliceOf(outputs, sizes, i)
  {
    var sizes := Sizes(plan[0].groups);
    var rows := RowsOf(FlatItems(plan, render, |sizes|));
    FlatLength(plan, render, |sizes|);
    FlatRows(plan, render, |sizes|);
    forall i | 0 <= i < |sizes| ensures Select(outputs, rows, i) == SliceOf(outputs, sizes, i) {
      SelectPart(sizes, |sizes|, outputs, i);
    }
  }

  function Concat<T(!new)>(groups: seq<seq<T>>): (r: seq<T>) {
    if groups == [] then [] else Concat(groups[..|groups| - 1]) + groups[|groups| - 1]
  }

  /** Side by side, the rows' parts are the whole list: every value is placed once. */
  lemma {:induction false} SlicesConcat<T(!new)>(values: seq<T>, sizes: seq<nat>, groups: seq<seq<T>>)
    requires |groups| <= |sizes| && |values| == Offset(sizes, |sizes|)
    requires forall i :: 0 <= i < |groups| ==> groups[i] == SliceOf(values, sizes, i)
    ensures Offset(sizes, |groups|) <= |values|
    ensures Concat(groups) == values[..Offset(sizes, |groups|)]
  {
    OffsetMonotone(sizes, |groups|, |sizes|);
    if groups != [] {
      var n := |groups| - 1;
      SlicesConcat(values, sizes, groups[..n]);
      assert groups[n] == SliceOf(values, sizes, n);
      OffsetMonotone(sizes, n, n + 1);
    }
  }

  /** The answers of a model that works prompt by prompt, possibly looking at the position too. */
  function Answers(items: seq<Item>, model: (nat, string) -> string): (outputs: seq<string>) {
    seq(|items|, k requires 0 <= k < |items| => model(k, items[k].output))
  }

  /** Position `j` of row `i` holds the answer to that image's prompt. */
  ghost predicate IsAnswer<V(!new)>(
      plan: seq<Entry<V>>, render: map<string, V> -> string, model: (nat, string) -> string,
      result: seq<seq<string>>, i: nat, j: nat)
    requires IsPlan(plan) && Accepts(plan) && i < |result| && j < |result[i]|
  {
    && i < |plan[0].groups| && j < |plan[0].groups[i]|
    && result[i][j] == model(Offset(Sizes(plan[0].groups), i) + j, render(Cells(plan, i, j, |plan|)))
  }

  lemma AnswerAt<V(!new)>(
      plan: seq<Entry<V>>, render: map<string, V> -> string, model: (nat, string) -> string, i: nat, j: nat)
    requires IsPlan(plan) && Accepts(plan) && i < |plan[0].groups| && j < |plan[0].groups[i]|
    ensures
      var sizes := Sizes(plan[0].groups);
      var outputs := Answers(FlatItems(plan, render, |sizes|), model);
      && |outputs| == Offset(sizes, |sizes|)
      && SliceOf(outputs, sizes, i)[j] == model(Offset(sizes, i) + j, Prompt(plan, render, i, j))
  {
    var sizes := Sizes(plan[0].groups);
    var outputs := Answers(FlatItems(plan, render, |sizes|), model);
    FlatLength(plan, render, |sizes|);
    FlatItemAt(plan, render, |sizes|, i, j);
    SlicePosition(outputs, sizes, i, j);
  }

  lemma SlicePosition<T(!new)>(values: seq<T>, sizes: seq<nat>, i: nat, j: nat)
    requires |values| == Offset(sizes, |sizes|) && i < |sizes| && j < sizes[i]
    ensures Offset(sizes, i) + j < |values|
    ensures SliceOf(values, sizes, i)[j] == values[Offset(sizes, i) + j]
  {
    OffsetMonotone(sizes, i + 1, |sizes|);
  }

  /**
   The three steps together: flatten, a model that answers prompt by prompt, regroup.
   Whenever flatten accepts its columns, nothing fails, row `i` gets as many answers as it has
   images, answer `j` of row `i` is the answer to that image's prompt, and every output is used once.
   */
  method FlattenInferRegroup<V(!new)>(
      plan: seq<Entry<V>>, render: map<string, V> -> string, model: (nat, string) -> string)
    returns (r: Result<seq<seq<string>>, FlattenError>)
    requires IsPlan(plan)
    ensures r.Ok? <==> Accepts(plan)
    ensures r.Ok? ==> Sizes(r.value) == Sizes(plan[0].groups)
    ensures r.Ok? ==>
              var items := FlatItems(plan, render, |plan[0].groups|);
              && |Concat(r.value)| == |items|
              && forall k :: 0 <= k < |items| ==> Concat(r.value)[k] == model(k, items[k].output)
    ensures r.Ok? ==> forall i, j {:trigger IsAnswer(plan, render, model, r.value, i, j)} ::
              0 <= i < |r.value| && 0 <= j < |r.value[i]| ==> IsAnswer(plan, render, model, r.value, i, j)
  {
    var flat := Flatten(plan, render);
    if flat.Err? {
      return Err(flat.error);
    }
    var sizes := Sizes(plan[0].groups);
    var answers := Answers(flat.value, model);
    RegroupUndoesFlatten(plan, render, answers);
    var grouped := Regroup(answers, RowsOf(flat.value), sizes);
    AnswersInPlace(plan, render, model, grouped.value);
    r := Ok(grouped.value);
  }

  lemma AnswersInPlace<V(!new)>(
      plan: seq<Entry<V>>, render: map<string, V> -> string, model: (nat, string) -> string, result: seq<seq<string>>)
    requires IsPlan(plan) && Accepts(plan) && |result| == |plan[0].groups|
    requires
      var sizes := Sizes(plan[0].groups);
      var answers := Answers(FlatItems(plan, render, |sizes|), model);
      && |answers| == Offset(sizes, |sizes|)
      && forall i :: 0 <= i < |result| ==> result[i] == SliceOf(answers, sizes, i)
    ensures Sizes(result) == Sizes(plan[0].groups)
    ensures Concat(result) == Answers(FlatItems(plan, render, |plan[0].groups|), model)
    ensures forall i, j {:trigger IsAnswer(plan, render, model, result, i, j)} ::
              0 <= i < |result| && 0 <= j < |result[i]| ==> IsAnswer(plan, render, model, result, i, j)
  {
    var sizes := Sizes(plan[0].groups);
    SlicesConcat(Answers(FlatItems(plan, render, |sizes|), model), sizes, result);
    forall i, j {:trigger IsAnswer(plan, render, model, result, i, j)} | 0 <= i < |result| && 0 <= j < |result[i]|
      ensures IsAnswer(plan, render, model, result, i, j)
    {
      assert |result[i]| == sizes[i] == |plan[0].groups[i]|;
      AnswerAt(plan, render, model, i, j);
    }
  }
}
