/**
 dynamic/driver.py: the values that references to earlier results read, and the references of a
 round in the order in which `forward_refs` meets them. From that list alone follow the ids
 that will be bound, the decoders that will be added, and whether forwarding succeeds.
 */
module References {
  import opened Sequences
  import opened BoundIds

  /** A walked result value: a list, or anything else with the text it is coerced to. */
  datatype Value = Scalar(text: string) | Many(values: seq<Value>, json: string)

  /** A stored result item, as the values that can be walked to by path. */
  type Item = map<string, Value>

  /** An explicit reference of a column or parameter. */
  datatype Column = Column(node: Id, path: string)

  /** The fields of an emitted op that carry ids; `forwardPath` is `_default_forward_path(op)`. */
  datatype PlanOp = PlanOp(
    id: Id, kind: string, inputs: seq<Id>, formatRefs: seq<Id>, imageSource: Option<Id>,
    columns: seq<Column>, forwardPath: string)

  datatype ForwardError = MissingField(path: string) | RowMismatch(ref: Id) | MixedRows(ref: Id) | ImageSourceList(ref: Id)

  const OUTPUT_PATH := "items.output"

  function Coerce(v: Value): string {
    match v
    case Scalar(text) => text
    case Many(_, json) => json
  }

  /** A one-element list stands for its element. */
  function RowValue(v: Value): Value {
    if v.Many? && |v.values| == 1 then v.values[0] else v
  }

  predicate AllFound(items: seq<Item>, path: string) {
    forall i :: 0 <= i < |items| ==> path in items[i]
  }

  function Walk(item: Item, path: string): Value {
    if path in item then item[path] else Scalar("")
  }

  function RowValues(items: seq<Item>, path: string): (r: seq<Value>)
    ensures |r| == |items| && forall i :: 0 <= i < |r| ==> r[i] == RowValue(Walk(items[i], path))
  {
    seq(|items|, i requires 0 <= i < |items| => RowValue(Walk(items[i], path)))
  }

  function CoerceAll(values: seq<Value>): (r: seq<string>)
    ensures |r| == |values| && forall i :: 0 <= i < |r| ==> r[i] == Coerce(values[i])
  {
    seq(|values|, i requires 0 <= i < |values| => Coerce(values[i]))
  }

  // ----- the texts a reference is bound to --------------------------------------------------------

  /** A row's text: a string as it is, the element of a one-element list, any other list as its JSON. */
  ghost predicate RowText(item: Item, path: string, text: string) {
    && path in item
    && match item[path]
       case Scalar(own) => text == own
       case Many(values, json) =>
         if |values| != 1 then text == json
         else (values[0].Scalar? ==> text == values[0].text) && (values[0].Many? ==> text == values[0].json)
  }

  /** One text per row, each from the item of that row. */
  ghost predicate TextPerRow(items: seq<Item>, path: string, texts: seq<string>) {
    |texts| == |items| && forall i :: 0 <= i < |items| ==> RowText(items[i], path, texts[i])
  }

  /** One text per item: a string as it is, a list as its JSON. */
  ghost predicate TextPerItem(items: seq<Item>, path: string, texts: seq<string>) {
    && |texts| == |items|
    && forall i :: 0 <= i < |items| ==>
         && path in items[i]
         && (items[i][path].Scalar? ==> texts[i] == items[i][path].text)
         && (items[i][path].Many? ==> texts[i] == items[i][path].json)
  }

  /** How many texts the items before the i-th one give: one for each element of a list, one for anything else. */
  ghost function TextsBefore(items: seq<Item>, path: string, i: nat): (n: nat)
    requires i <= |items|
  {
    if i == 0 then 0
    else
      var item := items[i - 1];
      TextsBefore(items, path, i - 1) + if path in item && item[path].Many? then |item[path].values| else 1
  }

  /** The texts of the i-th item stand where those of the items before it end. */
  ghost predicate TextsOfItem(items: seq<Item>, path: string, i: nat, texts: seq<string>) {
    && i < |items| && path in items[i]
    && var start := TextsBefore(items, path, i);
       match items[i][path]
       case Scalar(own) => start < |texts| && texts[start] == own
       case Many(values, _) =>
         && start + |values| <= |texts|
         && forall j :: 0 <= j < |values| ==>
              && (values[j].Scalar? ==> texts[start + j] == values[j].text)
              && (values[j].Many? ==> texts[start + j] == values[j].json)
  }

  /** The texts of all items side by side. */
  ghost predicate TextPerElement(items: seq<Item>, path: string, texts: seq<string>) {
    && |texts| == TextsBefore(items, path, |items|)
    && forall i: nat {:trigger TextsOfItem(items, path, i, texts)} :: i < |items| ==> TextsOfItem(items, path, i, texts)
  }

  lemma RowsHaveTexts(items: seq<Item>, path: string)
    requires AllFound(items, path)
    ensures TextPerRow(items, path, CoerceAll(RowValues(items, path)))
  {
    forall i | 0 <= i < |items| ensures RowText(items[i], path, CoerceAll(RowValues(items, path))[i]) {
    }
  }

  /** One item's texts more. */
  lemma TextsGrow(items: seq<Item>, path: string, i: nat, texts: seq<string>, more: seq<string>)
    requires i < |items| && path in items[i] && |texts| == TextsBefore(items, path, i)
    requires forall k: nat {:trigger TextsOfItem(items, path, k, texts)} :: k < i ==> TextsOfItem(items, path, k, texts)
    requires more == (if items[i][path].Many? then CoerceAll(items[i][path].values) else [Coerce(items[i][path])])
    ensures |texts + more| == TextsBefore(items, path, i + 1)
    ensures forall k: nat {:trigger TextsOfItem(items, path, k, texts + more)} ::
              k < i + 1 ==> TextsOfItem(items, path, k, texts + more)
  {
    forall k: nat {:trigger TextsOfItem(items, path, k, texts + more)} | k < i + 1
      ensures TextsOfItem(items, path, k, texts + more)
    {
      if k < i {
        assert TextsOfItem(items, path, k, texts);
      }
    }
  }

  /** `_walk_values_per_row` */
  method WalkValuesPerRow(items: seq<Item>, path: string, ref: Id, rows: nat) returns (r: Result<seq<Value>, ForwardError>)
    ensures r.Ok? <==> AllFound(items, path) && |items| == rows
    ensures r.Ok? ==> r.value == RowValues(items, path)
  {
    var values: seq<Value> := [];
    for i := 0 to |items|
      invariant AllFound(items[..i], path) && |values| == i
      invariant forall k :: 0 <= k < i ==> values[k] == RowValue(Walk(items[k], path))
    {
      if path !in items[i] {
        assert items[i] in items;
        return Err(MissingField(path));
      }
      var walked := items[i][path];
      if walked.Many? && |walked.values| == 1 {
        walked := walked.values[0];
      }
      values := values + [walked];
    }
    assert items[..|items|] == items;
    if |values| != rows {
      return Err(RowMismatch(ref));
    }
    assert values == RowValues(items, path);
    r := Ok(values);
  }

  /** `_forward_values` */
  method ForwardValues(items: seq<Item>, path: string) returns (r: Result<seq<string>, ForwardError>)
    ensures r.Ok? <==> AllFound(items, path)
    ensures r.Ok? ==> TextPerItem(items, path, r.value)
  {
    var values: seq<string> := [];
    for i := 0 to |items|
      invariant AllFound(items[..i], path) && |values| == i
      invariant forall k :: 0 <= k < i ==> values[k] == Coerce(Walk(items[k], path))
    {
      if path !in items[i] {
        return Err(MissingField(path));
      }
      values := values + [Coerce(items[i][path])];
    }
    assert items[..|items|] == items;
    r := Ok(values);
  }

  /** `_forward_values_flattened` */
  method ForwardValuesFlattened(items: seq<Item>, path: string) returns (r: Result<seq<string>, ForwardError>)
    ensures r.Ok? <==> AllFound(items, path)
    ensures r.Ok? ==> TextPerElement(items, path, r.value)
  {
    var values: seq<string> := [];
    for i := 0 to |items|
      invariant AllFound(items[..i], path) && |values| == TextsBefore(items, path, i)
      invariant forall k: nat {:trigger TextsOfItem(items, path, k, values)} :: k < i ==> TextsOfItem(items, path, k, values)
    {
      if path !in items[i] {
        return Err(MissingField(path));
      }
      var walked := items[i][path];
      var more := if walked.Many? then CoerceAll(walked.values) else [Coerce(walked)];
      TextsGrow(items, path, i, values, more);
      values := values + more;
    }
    assert items[..|items|] == items;
    r := Ok(values);
  }

  // ----- where a bound input comes from --------------------------------------------------

  /** A reference to a whole op result, or to a path of it. */
  datatype Origin = Whole(ref: Id) | At(ref: Id, path: string)

  function KeyOf(o: Origin): Id {
    match o
    case Whole(ref) => ref
    case At(ref, path) => InputId(ref, path)
  }

  function PathOf(o: Origin, configs: map<Id, PlanOp>): string {
    match o
    case Whole(ref) => if ref in configs then configs[ref].forwardPath else OUTPUT_PATH
    case At(_, path) => path
  }

  /** Some row holds a list. */
  predicate Grouped(values: seq<Value>) {
    exists i :: 0 <= i < |values| && values[i].Many?
  }

  predicate AllGrouped(values: seq<Value>) {
    forall i :: 0 <= i < |values| ==> values[i].Many?
  }

  /** With several rows a result has one item per row, and its rows hold lists or none does. */
  predicate Matchable(items: seq<Item>, path: string, rows: nat) {
    && AllFound(items, path)
    && (rows > 1 ==> |items| == rows && (Grouped(RowValues(items, path)) ==> AllGrouped(RowValues(items, path))))
  }

  // ----- the references of a round ------------------------------------------------------------

  /** An id that is read whole, possibly as an image source, or an id with a path. */
  datatype Reference = Implicit(ref: Id, image: bool) | Explicit(ref: Id, path: string)

  function Implicits(refs: seq<Id>): (r: seq<Reference>)
    ensures |r| == |refs| && forall i :: 0 <= i < |r| ==> r[i] == Implicit(refs[i], false)
  {
    seq(|refs|, i requires 0 <= i < |refs| => Implicit(refs[i], false))
  }

  function Explicits(columns: seq<Column>): (r: seq<Reference>)
    ensures |r| == |columns| && forall i :: 0 <= i < |r| ==> r[i] == Explicit(columns[i].node, columns[i].path)
  {
    seq(|columns|, i requires 0 <= i < |columns| => Explicit(columns[i].node, columns[i].path))
  }

  function Images(source: Option<Id>): (r: seq<Reference>) {
    if source.Some? then [Implicit(source.value, true)] else []
  }

  function RefsOfOp(op: PlanOp): (r: seq<Reference>) {
    Implicits(op.inputs) + Implicits(op.formatRefs) + Images(op.imageSource) + Explicits(op.columns)
  }

  function RoundRefs(subgraph: seq<PlanOp>): (r: seq<Reference>) {
    if subgraph == [] then []
    else RoundRefs(subgraph[..|subgraph| - 1]) + RefsOfOp(subgraph[|subgraph| - 1])
  }

  /** The earlier results a round can read: the items stored for each op, its config, and the number of rows. */
  datatype Store = Store(results: map<Id, seq<Item>>, configs: map<Id, PlanOp>, rows: nat)

  /**
   The texts a reference is bound to. With several rows there is one per row. With one row a whole
   result gives one per item, walked by its op's forward path, and a reference with a path one
   per element.
   */
  ghost predicate HoldsTexts(st: Store, o: Origin, texts: seq<string>) {
    && o.ref in st.results
    && var items := st.results[o.ref];
       match o
       case Whole(ref) =>
         && ref in st.configs
         && (if st.rows > 1 then |texts| == st.rows && TextPerRow(items, st.configs[ref].forwardPath, texts)
             else TextPerItem(items, st.configs[ref].forwardPath, texts))
       case At(_, path) =>
         if st.rows > 1 then |texts| == st.rows && TextPerRow(items, path, texts) else TextPerElement(items, path, texts)
  }

  /** No other texts would do. */
  lemma TextsDetermined(st: Store, o: Origin, a: seq<string>, b: seq<string>)
    requires HoldsTexts(st, o, a) && HoldsTexts(st, o, b)
    ensures a == b
  {
    var items := st.results[o.ref];
    if st.rows > 1 {
      var path := if o.Whole? then st.configs[o.ref].forwardPath else o.path;
      forall i | 0 <= i < |items| ensures a[i] == b[i] {
        assert RowText(items[i], path, a[i]) && RowText(items[i], path, b[i]);
      }
    } else if o.At? {
      forall p | 0 <= p < |a| ensures a[p] == b[p] {
        var i := ItemAt(items, o.path, p, |items|);
        assert TextsOfItem(items, o.path, i, a) && TextsOfItem(items, o.path, i, b);
        var start := TextsBefore(items, o.path, i);
        if items[i][o.path].Many? {
          var value := items[i][o.path].values[p - start];
          assert value.Scalar? || value.Many?;
        }
      }
    }
  }

  /** The item whose texts include the one at position `p`. */
  lemma {:induction false} ItemAt(items: seq<Item>, path: string, p: nat, n: nat) returns (i: nat)
    requires n <= |items| && p < TextsBefore(items, path, n)
    ensures i < n && TextsBefore(items, path, i) <= p < TextsBefore(items, path, i + 1)
  {
    if p < TextsBefore(items, path, n - 1) {
      i := ItemAt(items, path, p, n - 1);
    } else {
      i := n - 1;
    }
  }

  function PathFor(st: Store, r: Reference): (path: string) {
    match r
    case Implicit(ref, _) => PathOf(Whole(ref), st.configs)
    case Explicit(_, path) => path
  }

  predicate Live(st: Store, r: Reference) {
    r.ref in st.results
  }

  /** With several rows, some row of the value is a list, so that it has to travel as JSON. */
  predicate NeedsDecoder(st: Store, r: Reference) {
    Live(st, r) && st.rows > 1 && Grouped(RowValues(st.results[r.ref], PathFor(st, r)))
  }

  /** What the reference is bound as: a whole result only if it is read whole and needs no decoder. */
  function OriginFor(st: Store, r: Reference): (o: Origin) {
    if r.Implicit? && !NeedsDecoder(st, r) then Whole(r.ref) else At(r.ref, PathFor(st, r))
  }

  function KeyFor(st: Store, r: Reference): (k: Id) {
    KeyOf(OriginFor(st, r))
  }

  ghost predicate UsesKey(st: Store, refs: seq<Reference>, i: int, k: Id) {
    0 <= i < |refs| && Live(st, refs[i]) && KeyFor(st, refs[i]) == k
  }

  /** The ids of the inputs that will be bound. */
  ghost function BoundKeys(st: Store, refs: seq<Reference>): (keys: set<Id>) {
    set i | 0 <= i < |refs| && Live(st, refs[i]) :: KeyFor(st, refs[i])
  }

  /** The i-th reference adds a decoder unless there is one: an explicit reference only if its id is not bound before it. */
  ghost predicate AddsDecoder(st: Store, refs: seq<Reference>, i: int) {
    && 0 <= i < |refs| && NeedsDecoder(st, refs[i])
    && (refs[i].Explicit? ==> KeyFor(st, refs[i]) !in BoundKeys(st, refs[..i]))
  }

  /** The bound ids that get a decoder. */
  ghost function DecodedKeys(st: Store, refs: seq<Reference>): (keys: set<Id>) {
    set i | 0 <= i < |refs| && AddsDecoder(st, refs, i) :: KeyFor(st, refs[i])
  }

  /** The ids of the decoders that will be added. */
  ghost function DecoderIds(st: Store, refs: seq<Reference>): (ids: set<Id>) {
    set k | k in DecodedKeys(st, refs) :: k + ROWS
  }

  ghost function Origins(st: Store, refs: seq<Reference>): (s: set<Origin>) {
    set i | 0 <= i < |refs| && Live(st, refs[i]) :: OriginFor(st, refs[i])
  }

  /** The reference can be forwarded after those in `before`: an explicit one is not looked at if its id is bound. */
  ghost predicate CanForward(st: Store, before: seq<Reference>, r: Reference) {
    Live(st, r) ==>
      && (r.Implicit? || KeyFor(st, r) !in BoundKeys(st, before) ==> Matchable(st.results[r.ref], PathFor(st, r), st.rows))
      && (r.Implicit? && r.image ==> !NeedsDecoder(st, r))
  }

  ghost predicate CanForwardAt(st: Store, refs: seq<Reference>, i: nat)
    requires i < |refs|
  {
    CanForward(st, refs[..i], refs[i])
  }

  /** The references from `from` on can be forwarded one after the other. */
  ghost predicate CanForwardFrom(st: Store, refs: seq<Reference>, from: nat) {
    forall i {:trigger CanForwardAt(st, refs, i)} :: from <= i < |refs| ==> CanForwardAt(st, refs, i)
  }

  // ----- one reference more --------------------------------------------------------------------

  lemma BoundKeysIs(st: Store, refs: seq<Reference>, k: Id)
    ensures k in BoundKeys(st, refs) <==> exists i :: UsesKey(st, refs, i, k)
  {
    if k in BoundKeys(st, refs) {
      var i :| 0 <= i < |refs| && Live(st, refs[i]) && KeyFor(st, refs[i]) == k;
      assert UsesKey(st, refs, i, k);
    }
  }

  lemma BoundKeysNext(st: Store, refs: seq<Reference>, r: Reference)
    ensures BoundKeys(st, refs + [r]) == BoundKeys(st, refs) + (if Live(st, r) then {KeyFor(st, r)} else {})
    ensures Origins(st, refs + [r]) == Origins(st, refs) + (if Live(st, r) then {OriginFor(st, r)} else {})
  {
    var more := refs + [r];
    forall i | 0 <= i < |refs| ensures more[i] == refs[i] {
    }
    assert more[|refs|] == r;
  }

  lemma AddsDecoderNext(st: Store, refs: seq<Reference>, r: Reference, i: int)
    requires 0 <= i <= |refs|
    ensures i < |refs| ==> (AddsDecoder(st, refs + [r], i) <==> AddsDecoder(st, refs, i))
    ensures AddsDecoder(st, refs + [r], |refs|) <==>
              NeedsDecoder(st, r) && (r.Explicit? ==> KeyFor(st, r) !in BoundKeys(st, refs))
  {
    assert (refs + [r])[..i] == refs[..i];
    assert (refs + [r])[..|refs|] == refs;
  }

  lemma DecodedKeysNext(st: Store, refs: seq<Reference>, r: Reference)
    ensures
      var adds := NeedsDecoder(st, r) && (r.Explicit? ==> KeyFor(st, r) !in BoundKeys(st, refs));
      DecodedKeys(st, refs + [r]) == DecodedKeys(st, refs) + (if adds then {KeyFor(st, r)} else {})
  {
    var more := refs + [r];
    forall i | 0 <= i <= |refs|
      ensures i < |refs| ==> more[i] == refs[i] && (AddsDecoder(st, more, i) <==> AddsDecoder(st, refs, i))
    {
      AddsDecoderNext(st, refs, r, i);
    }
    AddsDecoderNext(st, refs, r, |refs|);
    assert more[|refs|] == r;
    forall k ensures k in DecodedKeys(st, more) <==>
      k in DecodedKeys(st, refs) || (AddsDecoder(st, more, |refs|) && k == KeyFor(st, r))
    {
      if k in DecodedKeys(st, more) {
        var i :| 0 <= i < |more| && AddsDecoder(st, more, i) && KeyFor(st, more[i]) == k;
        assert i < |refs| ==> AddsDecoder(st, refs, i);
      }
      if k in DecodedKeys(st, refs) {
        var i :| 0 <= i < |refs| && AddsDecoder(st, refs, i) && KeyFor(st, refs[i]) == k;
        assert AddsDecoder(st, more, i) && more[i] == refs[i];
      }
      if AddsDecoder(st, more, |refs|) && k == KeyFor(st, r) {
        assert more[|refs|] == r;
      }
    }
  }

  lemma DecodedAreBound(st: Store, refs: seq<Reference>)
    ensures DecodedKeys(st, refs) <= BoundKeys(st, refs)
  {
  }

  /** Whether a reference can be forwarded depends on those before it only. */
  lemma CanForwardPrefix(st: Store, refs: seq<Reference>, more: seq<Reference>, i: nat)
    requires i < |refs| && refs <= more
    ensures CanForwardAt(st, refs, i) <==> CanForwardAt(st, more, i)
  {
    assert refs[..i] == more[..i] && refs[i] == more[i];
  }

  lemma CanForwardSplit(st: Store, refs: seq<Reference>, more: seq<Reference>, from: nat)
    requires from <= |refs|
    ensures CanForwardFrom(st, refs + more, from) <==> CanForwardFrom(st, refs, from) && CanForwardFrom(st, refs + more, |refs|)
  {
    forall i {:trigger CanForwardAt(st, refs, i)} | from <= i < |refs|
      ensures CanForwardAt(st, refs, i) <==> CanForwardAt(st, refs + more, i)
    {
      CanForwardPrefix(st, refs, refs + more, i);
    }
    if CanForwardFrom(st, refs + more, from) {
      forall i {:trigger CanForwardAt(st, refs, i)} | from <= i < |refs| ensures CanForwardAt(st, refs, i) {
        assert CanForwardAt(st, refs + more, i);
      }
    }
    if CanForwardFrom(st, refs, from) && CanForwardFrom(st, refs + more, |refs|) {
      forall i {:trigger CanForwardAt(st, refs + more, i)} | from <= i < |refs + more|
        ensures CanForwardAt(st, refs + more, i)
      {
        if i < |refs| {
          assert CanForwardAt(st, refs, i);
        }
      }
    }
  }

  lemma CanForwardNext(st: Store, refs: seq<Reference>, r: Reference)
    ensures CanForwardFrom(st, refs + [r], |refs|) <==> CanForward(st, refs, r)
  {
    var more := refs + [r];
    assert more[..|refs|] == refs && more[|refs|] == r;
    assert CanForwardAt(st, more, |refs|) <==> CanForward(st, refs, r);
  }

  /** What cannot be forwarded cannot be forwarded as the beginning of more. */
  lemma CannotForwardMore(st: Store, refs: seq<Reference>, all: seq<Reference>)
    requires refs <= all && !CanForwardFrom(st, refs, 0)
    ensures !CanForwardFrom(st, all, 0)
  {
    var i: nat :| i < |refs| && !CanForwardAt(st, refs, i);
    CanForwardPrefix(st, refs, all, i);
  }

  lemma CanForwardNothing(st: Store, refs: seq<Reference>)
    ensures CanForwardFrom(st, refs, |refs|)
  {
  }

  // ----- when ids determine what they stand for ----------------------------------------------------

  /** No two references of the list are bound under one id unless they read the same thing. */
  ghost predicate KeysDetermine(st: Store, refs: seq<Reference>) {
    forall o, p :: o in Origins(st, refs) && p in Origins(st, refs) && KeyOf(o) == KeyOf(p) ==> o == p
  }

  /** The reference can be forwarded when met first. */
  ghost predicate CanForwardAlone(st: Store, r: Reference) {
    CanForward(st, [], r)
  }

  lemma AloneIs(st: Store, r: Reference)
    ensures CanForwardAlone(st, r) <==>
      (Live(st, r) ==>
         && Matchable(st.results[r.ref], PathFor(st, r), st.rows)
         && (r.Implicit? && r.image ==> !NeedsDecoder(st, r)))
  {
  }

  /** An id bound before was bound for the same values, so it could be bound now. */
  lemma {:induction false} BoundWasMatchable(st: Store, refs: seq<Reference>, i: nat, k: nat)
    requires i < k <= |refs| && KeysDetermine(st, refs) && CanForwardFrom(st, refs[..k], 0)
    requires Live(st, refs[i]) && OriginFor(st, refs[i]).At?
    ensures Matchable(st.results[refs[i].ref], PathFor(st, refs[i]), st.rows)
    decreases i
  {
    var before := refs[..k];
    assert CanForwardAt(st, before, i);
    assert before[..i] == refs[..i] && before[i] == refs[i];
    if KeyFor(st, refs[i]) in BoundKeys(st, refs[..i]) && refs[i].Explicit? {
      BoundKeysIs(st, refs[..i], KeyFor(st, refs[i]));
      var j :| UsesKey(st, refs[..i], j, KeyFor(st, refs[i]));
      assert OriginFor(st, refs[j]) in Origins(st, refs) && OriginFor(st, refs[i]) in Origins(st, refs);
      assert OriginFor(st, refs[j]) == OriginFor(st, refs[i]);
      BoundWasMatchable(st, refs, j, k);
    }
  }

  /** Then forwarding succeeds exactly when every reference could be forwarded on its own. */
  lemma {:induction false} ForwardsOneByOne(st: Store, refs: seq<Reference>, k: nat)
    requires k <= |refs| && KeysDetermine(st, refs)
    ensures CanForwardFrom(st, refs[..k], 0) <==> forall i :: 0 <= i < k ==> CanForwardAlone(st, refs[i])
  {
    if k > 0 {
      var n := k - 1;
      ForwardsOneByOne(st, refs, n);
      assert refs[..k] == refs[..n] + [refs[n]];
      CanForwardSplit(st, refs[..n], [refs[n]], 0);
      CanForwardNext(st, refs[..n], refs[n]);
      AloneIs(st, refs[n]);
      if CanForwardFrom(st, refs[..n], 0) && CanForward(st, refs[..n], refs[n]) {
        BoundBefore(st, refs, n);
      }
    }
  }

  lemma BoundBefore(st: Store, refs: seq<Reference>, n: nat)
    requires n < |refs| && KeysDetermine(st, refs) && CanForwardFrom(st, refs[..n], 0)
    requires CanForward(st, refs[..n], refs[n])
    ensures CanForwardAlone(st, refs[n])
  {
    AloneIs(st, refs[n]);
    var k := KeyFor(st, refs[n]);
    if Live(st, refs[n]) && refs[n].Explicit? && k in BoundKeys(st, refs[..n]) {
      BoundKeysIs(st, refs[..n], k);
      var j :| UsesKey(st, refs[..n], j, k);
      assert OriginFor(st, refs[j]) in Origins(st, refs) && OriginFor(st, refs[n]) in Origins(st, refs);
      assert OriginFor(st, refs[j]) == OriginFor(st, refs[n]);
      BoundWasMatchable(st, refs, j, n);
    }
  }

  // ----- the rounds' references, op by op ----------------------------------------------------------

  /** Everything the references are bound as is among `sources`. */
  ghost predicate Covered(st: Store, refs: seq<Reference>, sources: set<Origin>) {
    forall r :: r in refs && Live(st, r) ==> OriginFor(st, r) in sources
  }

  lemma CoveredByOwn(st: Store, refs: seq<Reference>)
    ensures Covered(st, refs, Origins(st, refs))
  {
  }

  lemma RoundRefsSplit(subgraph: seq<PlanOp>, i: nat)
    requires i < |subgraph|
    ensures RoundRefs(subgraph[..i + 1]) == RoundRefs(subgraph[..i]) + RefsOfOp(subgraph[i])
  {
    assert subgraph[..i + 1][..i] == subgraph[..i];
  }

  lemma {:induction false} RoundRefsPrefix(subgraph: seq<PlanOp>, i: nat)
    requires i <= |subgraph|
    ensures RoundRefs(subgraph[..i]) <= RoundRefs(subgraph)
    decreases |subgraph| - i
  {
    if i == |subgraph| {
      assert subgraph[..i] == subgraph;
    } else {
      RoundRefsPrefix(subgraph, i + 1);
      RoundRefsSplit(subgraph, i);
    }
  }

  /** Every reference of an op is one of the round's, after those of the ops before it. */
  lemma RoundRefsHas(subgraph: seq<PlanOp>, i: nat, k: nat)
    requires i < |subgraph| && k < |RefsOfOp(subgraph[i])|
    ensures |RoundRefs(subgraph[..i])| + k < |RoundRefs(subgraph)|
    ensures RoundRefs(subgraph)[|RoundRefs(subgraph[..i])| + k] == RefsOfOp(subgraph[i])[k]
  {
    RoundRefsSplit(subgraph, i);
    RoundRefsPrefix(subgraph, i + 1);
  }

  /** And there are no others. */
  lemma {:induction false} RoundRefsOnly(subgraph: seq<PlanOp>, r: Reference)
    requires r in RoundRefs(subgraph)
    ensures exists op :: op in subgraph && r in RefsOfOp(op)
  {
    var n := |subgraph| - 1;
    if r in RefsOfOp(subgraph[n]) {
      assert subgraph[n] in subgraph;
    } else {
      RoundRefsOnly(subgraph[..n], r);
      var op :| op in subgraph[..n] && r in RefsOfOp(op);
      assert op in subgraph;
    }
  }

  lemma OpCovered(st: Store, subgraph: seq<PlanOp>, i: nat)
    requires i < |subgraph|
    ensures Covered(st, RefsOfOp(subgraph[i]), Origins(st, RoundRefs(subgraph)))
  {
    var own, all := RefsOfOp(subgraph[i]), RoundRefs(subgraph);
    forall r | r in own && Live(st, r) ensures OriginFor(st, r) in Origins(st, all) {
      var k :| 0 <= k < |own| && own[k] == r;
      RoundRefsHas(subgraph, i, k);
      assert all[|RoundRefs(subgraph[..i])| + k] == r;
    }
  }

  /** More references bind more ids and add more decoders. */
  lemma KeysGrow(st: Store, refs: seq<Reference>, more: seq<Reference>)
    requires refs <= more
    ensures BoundKeys(st, refs) <= BoundKeys(st, more) && DecodedKeys(st, refs) <= DecodedKeys(st, more)
  {
    forall k | k in DecodedKeys(st, refs) ensures k in DecodedKeys(st, more) {
      var i :| 0 <= i < |refs| && AddsDecoder(st, refs, i) && KeyFor(st, refs[i]) == k;
      assert refs[..i] == more[..i] && refs[i] == more[i];
      assert AddsDecoder(st, more, i);
    }
    forall k | k in BoundKeys(st, refs) ensures k in BoundKeys(st, more) {
      var i :| 0 <= i < |refs| && Live(st, refs[i]) && KeyFor(st, refs[i]) == k;
      assert more[i] == refs[i];
    }
  }
}
