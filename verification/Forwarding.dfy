/**
 dynamic/driver.py: `forward_refs`. References to ops of earlier rounds become workflow inputs
 that carry the stored values. With several rows a reference whose per-row value is a list is
 bound as JSON, with a Lambda (a materializer) that decodes it.
 */
module Forwarding {
  import opened Sequences
  import opened BoundIds
  import opened References

  function OpIds(ops: seq<PlanOp>): set<Id> {
    set op | op in ops :: op.id
  }

  function Decoder(ref: Id, path: string): PlanOp {
    PlanOp(MaterializerId(ref, path), "LambdaOp", [InputId(ref, path)], [], None, [], OUTPUT_PATH)
  }

  /** What an implicit reference is rewritten to: a decoder if some row of its value is a list. */
  function ForwardedRef(st: Store, ref: Id): (id: Id) {
    var r := Implicit(ref, false);
    if NeedsDecoder(st, r) then MaterializerId(ref, PathFor(st, r)) else ref
  }

  // ----- where bound inputs and decoders come from ------------------------------------------------

  /** The id is bound to the values of the reference behind it, one of `sources`. */
  ghost predicate BoundRight(
    st: Store, inputs: map<Id, seq<string>>, origins: map<Id, Origin>, sources: set<Origin>, k: Id)
  {
    && k in inputs && k in origins
    && KeyOf(origins[k]) == k && origins[k] in sources
    && HoldsTexts(st, origins[k], inputs[k])
  }

  ghost predicate InputsRight(st: Store, inputs: map<Id, seq<string>>, origins: map<Id, Origin>, sources: set<Origin>) {
    forall k {:trigger BoundRight(st, inputs, origins, sources, k)} ::
      k in inputs ==> BoundRight(st, inputs, origins, sources, k)
  }

  function DecodedKey(d: (Id, string)): Id {
    InputId(d.0, d.1)
  }

  ghost predicate DecoderRight(
    st: Store, bound: set<Id>, materializers: seq<PlanOp>, decoded: seq<(Id, string)>, sources: set<Origin>, i: int)
  {
    && 0 <= i < |decoded| && i < |materializers|
    && materializers[i] == Decoder(decoded[i].0, decoded[i].1)
    && decoded[i].0 in st.results && DecodedKey(decoded[i]) in bound && At(decoded[i].0, decoded[i].1) in sources
  }

  ghost predicate DecodersRight(
    st: Store, bound: set<Id>, materializers: seq<PlanOp>, decoded: seq<(Id, string)>, sources: set<Origin>)
  {
    && |decoded| == |materializers|
    && (forall i {:trigger DecoderRight(st, bound, materializers, decoded, sources, i)} ::
          0 <= i < |decoded| ==> DecoderRight(st, bound, materializers, decoded, sources, i))
    && (forall i, j :: 0 <= i < j < |decoded| ==> DecodedKey(decoded[i]) != DecodedKey(decoded[j]))
  }

  ghost function KeysOf(decoded: seq<(Id, string)>): (keys: set<Id>) {
    set i | 0 <= i < |decoded| :: DecodedKey(decoded[i])
  }

  lemma DecodersGrow(
    st: Store, bound: set<Id>, more: set<Id>, materializers: seq<PlanOp>, decoded: seq<(Id, string)>, sources: set<Origin>)
    requires DecodersRight(st, bound, materializers, decoded, sources) && bound <= more
    ensures DecodersRight(st, more, materializers, decoded, sources)
  {
    forall i {:trigger DecoderRight(st, more, materializers, decoded, sources, i)} | 0 <= i < |decoded|
      ensures DecoderRight(st, more, materializers, decoded, sources, i)
    {
      assert DecoderRight(st, bound, materializers, decoded, sources, i);
    }
  }

  lemma DecodersAppend(
    st: Store, bound: set<Id>, materializers: seq<PlanOp>, decoded: seq<(Id, string)>, sources: set<Origin>,
    ref: Id, path: string)
    requires DecodersRight(st, bound, materializers, decoded, sources)
    requires ref in st.results && InputId(ref, path) in bound && At(ref, path) in sources
    requires InputId(ref, path) !in KeysOf(decoded)
    ensures DecodersRight(st, bound, materializers + [Decoder(ref, path)], decoded + [(ref, path)], sources)
    ensures OpIds(materializers + [Decoder(ref, path)]) == OpIds(materializers) + {MaterializerId(ref, path)}
    ensures KeysOf(decoded + [(ref, path)]) == KeysOf(decoded) + {InputId(ref, path)}
  {
    var m', d' := materializers + [Decoder(ref, path)], decoded + [(ref, path)];
    forall i {:trigger DecoderRight(st, bound, m', d', sources, i)} | 0 <= i < |d'|
      ensures DecoderRight(st, bound, m', d', sources, i)
    {
      if i < |decoded| {
        assert DecoderRight(st, bound, materializers, decoded, sources, i);
      }
    }
    forall i, j | 0 <= i < j < |d'| ensures DecodedKey(d'[i]) != DecodedKey(d'[j]) {
      assert DecodedKey(decoded[i]) in KeysOf(decoded);
    }
    assert m'[|materializers|] in m';
    assert d'[|decoded|] == (ref, path);
    forall k | k in KeysOf(decoded) ensures k in KeysOf(d') {
      var i :| 0 <= i < |decoded| && DecodedKey(decoded[i]) == k;
      assert d'[i] == decoded[i];
    }
  }

  /** The decoders' ids are the decoded ids with the suffix. */
  lemma DecoderIdsAre(
    st: Store, bound: set<Id>, materializers: seq<PlanOp>, decoded: seq<(Id, string)>, sources: set<Origin>)
    requires DecodersRight(st, bound, materializers, decoded, sources)
    ensures OpIds(materializers) == set k | k in KeysOf(decoded) :: k + ROWS
  {
    forall i | 0 <= i < |decoded| ensures materializers[i].id == DecodedKey(decoded[i]) + ROWS {
      assert DecoderRight(st, bound, materializers, decoded, sources, i);
    }
    forall id | id in OpIds(materializers) ensures exists k :: k in KeysOf(decoded) && k + ROWS == id {
      var op :| op in materializers && op.id == id;
      var i :| 0 <= i < |materializers| && materializers[i] == op;
      assert DecodedKey(decoded[i]) in KeysOf(decoded);
    }
    forall k | k in KeysOf(decoded) ensures k + ROWS in OpIds(materializers) {
      var i :| 0 <= i < |decoded| && DecodedKey(decoded[i]) == k;
      assert materializers[i] in materializers;
    }
  }

  lemma BindKeeps(
    st: Store, inputs: map<Id, seq<string>>, origins: map<Id, Origin>, sources: set<Origin>, values: seq<string>, o: Origin)
    requires InputsRight(st, inputs, origins, sources)
    requires o in sources && HoldsTexts(st, o, values)
    ensures InputsRight(st, inputs[KeyOf(o) := values], origins[KeyOf(o) := o], sources)
  {
    var inputs', origins' := inputs[KeyOf(o) := values], origins[KeyOf(o) := o];
    forall k {:trigger BoundRight(st, inputs', origins', sources, k)} | k in inputs'
      ensures BoundRight(st, inputs', origins', sources, k)
    {
      if k != KeyOf(o) {
        assert BoundRight(st, inputs, origins, sources, k);
      }
    }
  }

  // ----- the containers -------------------------------------------------------------------------------

  /** The containers hold exactly what the references met so far call for. */
  ghost predicate Filled(
    st: Store, inputs: map<Id, seq<string>>, materializers: seq<PlanOp>, materialized: set<Id>,
    origins: map<Id, Origin>, decoded: seq<(Id, string)>, sources: set<Origin>, seen: seq<Reference>)
  {
    && InputsRight(st, inputs, origins, sources)
    && DecodersRight(st, inputs.Keys, materializers, decoded, sources)
    && materialized == KeysOf(decoded)
    && inputs.Keys == BoundKeys(st, seen)
    && materialized == DecodedKeys(st, seen)
  }

  /** A reference that changes nothing: to no earlier result, or to an id that is bound already. */
  lemma FilledSame(
    st: Store, inputs: map<Id, seq<string>>, materializers: seq<PlanOp>, materialized: set<Id>,
    origins: map<Id, Origin>, decoded: seq<(Id, string)>, sources: set<Origin>, seen: seq<Reference>, r: Reference)
    requires Filled(st, inputs, materializers, materialized, origins, decoded, sources, seen)
    requires Live(st, r) ==> KeyFor(st, r) in inputs && (r.Explicit? || KeyFor(st, r) in materialized)
    ensures Filled(st, inputs, materializers, materialized, origins, decoded, sources, seen + [r])
  {
    BoundKeysNext(st, seen, r);
    DecodedKeysNext(st, seen, r);
  }

  /** A plain binding. */
  lemma FilledBound(
    st: Store, inputs: map<Id, seq<string>>, materializers: seq<PlanOp>, materialized: set<Id>,
    origins: map<Id, Origin>, decoded: seq<(Id, string)>, sources: set<Origin>, seen: seq<Reference>,
    r: Reference, values: seq<string>)
    requires Filled(st, inputs, materializers, materialized, origins, decoded, sources, seen)
    requires Live(st, r) && !NeedsDecoder(st, r) && OriginFor(st, r) in sources
    requires HoldsTexts(st, OriginFor(st, r), values)
    ensures
      var k := KeyFor(st, r);
      Filled(st, inputs[k := values], materializers, materialized, origins[k := OriginFor(st, r)], decoded, sources, seen + [r])
  {
    var k := KeyFor(st, r);
    BindKeeps(st, inputs, origins, sources, values, OriginFor(st, r));
    DecodersGrow(st, inputs.Keys, inputs[k := values].Keys, materializers, decoded, sources);
    BoundKeysNext(st, seen, r);
    DecodedKeysNext(st, seen, r);
  }

  /** A binding with a decoder. */
  lemma FilledDecoded(
    st: Store, inputs: map<Id, seq<string>>, materializers: seq<PlanOp>, materialized: set<Id>,
    origins: map<Id, Origin>, decoded: seq<(Id, string)>, sources: set<Origin>, seen: seq<Reference>,
    r: Reference, values: seq<string>)
    requires Filled(st, inputs, materializers, materialized, origins, decoded, sources, seen)
    requires NeedsDecoder(st, r) && OriginFor(st, r) in sources && KeyFor(st, r) !in materialized
    requires r.Explicit? ==> KeyFor(st, r) !in inputs
    requires HoldsTexts(st, OriginFor(st, r), values)
    ensures
      var path := PathFor(st, r);
      var k := InputId(r.ref, path);
      && k == KeyFor(st, r) && OriginFor(st, r) == At(r.ref, path)
      && Filled(st, inputs[k := values], materializers + [Decoder(r.ref, path)], materialized + {k},
                origins[k := At(r.ref, path)], decoded + [(r.ref, path)], sources, seen + [r])
  {
    var path, k := PathFor(st, r), KeyFor(st, r);
    BindKeeps(st, inputs, origins, sources, values, OriginFor(st, r));
    DecodersGrow(st, inputs.Keys, inputs[k := values].Keys, materializers, decoded, sources);
    DecodersAppend(st, inputs[k := values].Keys, materializers, decoded, sources, r.ref, path);
    BoundKeysNext(st, seen, r);
    DecodedKeysNext(st, seen, r);
  }

  /** The closures of `forward_refs`, with the containers they fill. */
  class Forwarder {
    const st: Store
    /** The references of the round, as what they are bound as. */
    ghost const sources: set<Origin>
    var inputs: map<Id, seq<string>>
    var materializers: seq<PlanOp>
    var materialized: set<Id>
    /** For each bound input, the reference it was bound for. */
    ghost var origins: map<Id, Origin>
    /** For each materializer, the reference it decodes. */
    ghost var decoded: seq<(Id, string)>
    /** The references forwarded so far. */
    ghost var seen: seq<Reference>

    ghost predicate Valid()
      reads this
    {
      && st.results.Keys <= st.configs.Keys
      && Filled(st, inputs, materializers, materialized, origins, decoded, sources, seen)
    }

    constructor (st: Store, ghost sources: set<Origin>)
      requires st.results.Keys <= st.configs.Keys
      ensures Valid() && this.st == st && this.sources == sources && seen == []
    {
      this.st, this.sources := st, sources;
      inputs, materializers, materialized, origins, decoded, seen := map[], [], {}, map[], [], [];
    }

    /** Binds an implicit reference; the result is the rewritten reference, if it is rewritten. */
    method BindImplicit(ref: Id, imageSource: bool) returns (r: Result<Option<Id>, ForwardError>)
      requires Valid() && (ref in st.results ==> OriginFor(st, Implicit(ref, imageSource)) in sources)
      modifies this
      ensures Valid()
      ensures r.Ok? <==> CanForward(st, old(seen), Implicit(ref, imageSource))
      ensures seen == if r.Ok? then old(seen) + [Implicit(ref, imageSource)] else old(seen)
      ensures r.Ok? ==> (if r.value.Some? then r.value.value else ref) == ForwardedRef(st, ref)
      ensures r.Ok? && imageSource && ref in st.results ==> r.value.None?
    {
      ghost var reference := Implicit(ref, imageSource);
      if ref !in st.results {
        FilledSame(st, inputs, materializers, materialized, origins, decoded, sources, seen, reference);
        seen := seen + [reference];
        return Ok(None);
      }
      var path := st.configs[ref].forwardPath;
      if st.rows > 1 {
        var walked := WalkValuesPerRow(st.results[ref], path, ref, st.rows);
        if walked.Err? {
          return Err(walked.error);
        }
        if Grouped(walked.value) {
          if !AllGrouped(walked.value) {
            return Err(MixedRows(ref));
          }
          if imageSource {
            return Err(ImageSourceList(ref));
          }
          var id := AddMaterializer(ref, path, walked.value, reference);
          return Ok(Some(id));
        }
        RowsHaveTexts(st.results[ref], path);
        FilledBound(st, inputs, materializers, materialized, origins, decoded, sources, seen, reference, CoerceAll(walked.value));
        inputs, origins := inputs[ref := CoerceAll(walked.value)], origins[ref := Whole(ref)];
      } else {
        var values := ForwardValues(st.results[ref], path);
        if values.Err? {
          return Err(values.error);
        }
        FilledBound(st, inputs, materializers, materialized, origins, decoded, sources, seen, reference, values.value);
        inputs, origins := inputs[ref := values.value], origins[ref := Whole(ref)];
      }
      seen := seen + [reference];
      r := Ok(None);
    }

    /** Binds the JSON input and adds its decoder, unless it has one. */
    method AddMaterializer(ref: Id, path: string, walked: seq<Value>, ghost r: Reference) returns (id: Id)
      requires Valid() && NeedsDecoder(st, r) && r.ref == ref && PathFor(st, r) == path && OriginFor(st, r) in sources
      requires walked == RowValues(st.results[ref], path) && |walked| == st.rows && AllFound(st.results[ref], path)
      requires r.Explicit? ==> KeyFor(st, r) !in inputs
      modifies this
      ensures Valid() && seen == old(seen) + [r]
      ensures id == MaterializerId(ref, path) && InputId(ref, path) in materialized
    {
      var key := InputId(ref, path);
      if key !in materialized {
        RowsHaveTexts(st.results[ref], path);
        FilledDecoded(st, inputs, materializers, materialized, origins, decoded, sources, seen, r, CoerceAll(walked));
        inputs, origins := inputs[key := CoerceAll(walked)], origins[key := At(ref, path)];
        materializers := materializers + [Decoder(ref, path)];
        decoded := decoded + [(ref, path)];
        materialized := materialized + {key};
      } else {
        DecodedAreBound(st, seen);
        FilledSame(st, inputs, materializers, materialized, origins, decoded, sources, seen, r);
      }
      seen := seen + [r];
      id := MaterializerId(ref, path);
    }

    /** Forwards an explicit reference; the result is what the consumer reads instead. */
    method BindExplicit(ref: Id, path: string) returns (r: Result<Column, ForwardError>)
      requires Valid() && ref in st.results && At(ref, path) in sources
      modifies this
      ensures Valid()
      ensures r.Ok? <==> CanForward(st, old(seen), Explicit(ref, path))
      ensures seen == if r.Ok? then old(seen) + [Explicit(ref, path)] else old(seen)
      ensures r.Ok? ==> r.value == ColumnAfter(st, seen, Column(ref, path))
    {
      ghost var reference := Explicit(ref, path);
      var key := InputId(ref, path);
      if key in materialized || key in inputs {
        DecodedAreBound(st, seen);
        FilledSame(st, inputs, materializers, materialized, origins, decoded, sources, seen, reference);
        seen := seen + [reference];
        return Ok(if key in materialized then Column(MaterializerId(ref, path), OUTPUT_PATH) else Column(key, ""));
      }
      if st.rows > 1 {
        var walked := WalkValuesPerRow(st.results[ref], path, ref, st.rows);
        if walked.Err? {
          return Err(walked.error);
        }
        if Grouped(walked.value) {
          if !AllGrouped(walked.value) {
            return Err(MixedRows(ref));
          }
          var id := AddMaterializer(ref, path, walked.value, reference);
          return Ok(Column(id, OUTPUT_PATH));
        }
        RowsHaveTexts(st.results[ref], path);
        FilledBound(st, inputs, materializers, materialized, origins, decoded, sources, seen, reference, CoerceAll(walked.value));
        inputs, origins := inputs[key := CoerceAll(walked.value)], origins[key := At(ref, path)];
      } else {
        var values := ForwardValuesFlattened(st.results[ref], path);
        if values.Err? {
          return Err(values.error);
        }
        FilledBound(st, inputs, materializers, materialized, origins, decoded, sources, seen, reference, values.value);
        inputs, origins := inputs[key := values.value], origins[key := At(ref, path)];
      }
      seen := seen + [reference];
      r := Ok(Column(key, ""));
    }

    /** A list of implicit references, rewritten in place. */
    method ForwardRefList(refs: seq<Id>) returns (r: Result<seq<Id>, ForwardError>)
      requires Valid() && Covered(st, Implicits(refs), sources)
      modifies this
      ensures Valid()
      ensures r.Ok? <==> CanForwardFrom(st, old(seen) + Implicits(refs), |old(seen)|)
      ensures r.Ok? ==> seen == old(seen) + Implicits(refs) && RefsForwarded(st, refs, r.value)
    {
      ghost var before := seen;
      var after := refs;
      CanForwardNothing(st, before);
      assert before + Implicits(refs[..0]) == before;
      for i := 0 to |refs|
        invariant Valid() && seen == before + Implicits(refs[..i])
        invariant CanForwardFrom(st, seen, |before|)
        invariant |after| == |refs| && forall k :: i <= k < |refs| ==> after[k] == refs[k]
        invariant forall k :: 0 <= k < i ==> after[k] == ForwardedRef(st, refs[k])
      {
        ghost var now, next := seen, Implicit(refs[i], false);
        assert Implicits(refs)[i] == next;
        assert now + [next] == before + Implicits(refs[..i + 1]);
        OneMore(st, before, now, next);
        var rewritten := BindImplicit(refs[i], false);
        if rewritten.Err? {
          FailsAt(st, before, Implicits(refs), i);
          return Err(rewritten.error);
        }
        if rewritten.value.Some? {
          after := after[i := rewritten.value.value];
        }
      }
      assert refs[..|refs|] == refs;
      r := Ok(after);
    }

    method ForwardColumns(columns: seq<Column>) returns (r: Result<seq<Column>, ForwardError>)
      requires Valid() && Covered(st, Explicits(columns), sources)
      modifies this
      ensures Valid()
      ensures r.Ok? <==> CanForwardFrom(st, old(seen) + Explicits(columns), |old(seen)|)
      ensures r.Ok? ==> seen == old(seen) + Explicits(columns) && ColumnsForwarded(st, old(seen), columns, r.value)
    {
      ghost var before := seen;
      var after := columns;
      CanForwardNothing(st, before);
      assert before + Explicits(columns[..0]) == before;
      for i := 0 to |columns|
        invariant Valid() && seen == before + Explicits(columns[..i])
        invariant CanForwardFrom(st, seen, |before|)
        invariant |after| == |columns| && forall k :: i <= k < |columns| ==> after[k] == columns[k]
        invariant forall k :: 0 <= k < i ==> after[k] == ColumnAfter(st, before + Explicits(columns[..k + 1]), columns[k])
      {
        ghost var now, next := seen, Explicit(columns[i].node, columns[i].path);
        assert Explicits(columns)[i] == next;
        assert now + [next] == before + Explicits(columns[..i + 1]);
        OneMore(st, before, now, next);
        if columns[i].node in st.results {
          assert OriginFor(st, next) in sources;
          var rewritten := BindExplicit(columns[i].node, columns[i].path);
          if rewritten.Err? {
            assert Explicits(columns)[..i] == Explicits(columns[..i]);
            FailsAt(st, before, Explicits(columns), i);
            return Err(rewritten.error);
          }
          after := after[i := rewritten.value];
        } else {
          FilledSame(st, inputs, materializers, materialized, origins, decoded, sources, seen, next);
          seen := seen + [next];
        }
      }
      assert columns[..|columns|] == columns;
      r := Ok(after);
    }

    method ForwardOp(op: PlanOp) returns (r: Result<PlanOp, ForwardError>)
      requires Valid() && Covered(st, RefsOfOp(op), sources)
      modifies this
      ensures Valid()
      ensures r.Ok? <==> CanForwardFrom(st, old(seen) + RefsOfOp(op), |old(seen)|)
      ensures r.Ok? ==> seen == old(seen) + RefsOfOp(op) && OpForwarded(st, old(seen), op, r.value)
    {
      ghost var s0 := seen;
      ghost var s1 := s0 + Implicits(op.inputs);
      ghost var s2 := s1 + Implicits(op.formatRefs);
      ghost var s3 := s2 + Images(op.imageSource);
      PartsCovered(st, op, sources);
      PartsDecide(st, s0, op);
      var inputs' := ForwardRefList(op.inputs);
      if inputs'.Err? {
        return Err(inputs'.error);
      }
      var formatRefs := ForwardRefList(op.formatRefs);
      if formatRefs.Err? {
        return Err(formatRefs.error);
      }
      if op.imageSource.Some? {
        var image := BindImplicit(op.imageSource.value, true);
        if image.Err? {
          return Err(image.error);
        }
      }
      var columns := ForwardColumns(op.columns);
      if columns.Err? {
        return Err(columns.error);
      }
      r := Ok(op.(inputs := inputs'.value, formatRefs := formatRefs.value, columns := columns.value));
    }
  }

  // ----- the rewritten ops ----------------------------------------------------------------------------

  ghost predicate RefsForwarded(st: Store, refs: seq<Id>, after: seq<Id>) {
    |after| == |refs| && forall i :: 0 <= i < |refs| ==> after[i] == ForwardedRef(st, refs[i])
  }

  /** What a column becomes: `seen` are the references up to and including its own. */
  ghost function ColumnAfter(st: Store, seen: seq<Reference>, c: Column): (after: Column)
  {
    if c.node !in st.results then c
    else if InputId(c.node, c.path) in DecodedKeys(st, seen) then Column(MaterializerId(c.node, c.path), OUTPUT_PATH)
    else Column(InputId(c.node, c.path), "")
  }

  ghost predicate ColumnsForwarded(st: Store, before: seq<Reference>, columns: seq<Column>, after: seq<Column>) {
    && |after| == |columns|
    && forall i :: 0 <= i < |columns| ==> after[i] == ColumnAfter(st, before + Explicits(columns[..i + 1]), columns[i])
  }

  /** The op with its references rewritten, after those in `before`. */
  ghost predicate OpForwarded(st: Store, before: seq<Reference>, op: PlanOp, after: PlanOp) {
    && after.id == op.id && after.kind == op.kind && after.imageSource == op.imageSource
    && RefsForwarded(st, op.inputs, after.inputs)
    && RefsForwarded(st, op.formatRefs, after.formatRefs)
    && ColumnsForwarded(
         st, before + Implicits(op.inputs) + Implicits(op.formatRefs) + Images(op.imageSource), op.columns, after.columns)
  }

  /** The next reference decides whether the list up to it can be forwarded. */
  lemma OneMore(st: Store, before: seq<Reference>, now: seq<Reference>, next: Reference)
    requires before <= now
    ensures CanForwardFrom(st, now + [next], |before|) <==> CanForwardFrom(st, now, |before|) && CanForward(st, now, next)
  {
    CanForwardSplit(st, now, [next], |before|);
    CanForwardNext(st, now, next);
  }

  /** A reference that cannot be forwarded stops the whole list. */
  lemma FailsAt(st: Store, before: seq<Reference>, refs: seq<Reference>, i: nat)
    requires i < |refs| && !CanForward(st, before + refs[..i], refs[i])
    ensures !CanForwardFrom(st, before + refs, |before|)
  {
    var all, k := before + refs, |before| + i;
    assert all[..k] == before + refs[..i] && all[k] == refs[i];
    assert !CanForwardAt(st, all, k);
  }

  lemma PartsCovered(st: Store, op: PlanOp, sources: set<Origin>)
    requires Covered(st, RefsOfOp(op), sources)
    ensures Covered(st, Implicits(op.inputs), sources) && Covered(st, Implicits(op.formatRefs), sources)
    ensures Covered(st, Images(op.imageSource), sources) && Covered(st, Explicits(op.columns), sources)
    ensures op.imageSource.Some? && op.imageSource.value in st.results ==>
              OriginFor(st, Implicit(op.imageSource.value, true)) in sources
  {
    if op.imageSource.Some? {
      assert Implicit(op.imageSource.value, true) in Images(op.imageSource);
    }
  }

  /** An op can be forwarded if and only if its four parts can, one after the other. */
  lemma PartsDecide(st: Store, s0: seq<Reference>, op: PlanOp)
    ensures
      var s1 := s0 + Implicits(op.inputs);
      var s2 := s1 + Implicits(op.formatRefs);
      var s3 := s2 + Images(op.imageSource);
      var s4 := s3 + Explicits(op.columns);
      && s4 == s0 + RefsOfOp(op)
      && (CanForwardFrom(st, s4, |s0|) <==>
            && CanForwardFrom(st, s1, |s0|) && CanForwardFrom(st, s2, |s1|)
            && CanForwardFrom(st, s3, |s2|) && CanForwardFrom(st, s4, |s3|))
      && (op.imageSource.Some? ==>
            (CanForwardFrom(st, s3, |s2|) <==> CanForward(st, s2, Implicit(op.imageSource.value, true))))
      && (op.imageSource.None? ==> s3 == s2 && CanForwardFrom(st, s3, |s2|))
  {
    var s1 := s0 + Implicits(op.inputs);
    var s2 := s1 + Implicits(op.formatRefs);
    var s3 := s2 + Images(op.imageSource);
    CanForwardSplit(st, s1, Implicits(op.formatRefs), |s0|);
    CanForwardSplit(st, s2, Images(op.imageSource), |s0|);
    CanForwardSplit(st, s3, Explicits(op.columns), |s0|);
    if op.imageSource.Some? {
      CanForwardNext(st, s2, Implicit(op.imageSource.value, true));
    } else {
      assert s3 == s2;
    }
  }

  // ----- the whole round ----------------------------------------------------------------------------

  /** What `forward_refs` returns. */
  datatype Forwarded = Forwarded(ops: seq<PlanOp>, inputs: map<Id, seq<string>>, decoders: seq<PlanOp>)

  /** The k-th op rewritten, after the references of the ops before it. */
  ghost predicate RoundOpForwarded(st: Store, subgraph: seq<PlanOp>, ops: seq<PlanOp>, k: nat) {
    k < |subgraph| && k < |ops| && OpForwarded(st, RoundRefs(subgraph[..k]), subgraph[k], ops[k])
  }

  /** The ops rewritten, exactly the ids bound and decoded that the references call for, and what stands behind them. */
  ghost predicate IsForwarding(
    st: Store, subgraph: seq<PlanOp>, f: Forwarded, origins: map<Id, Origin>, decoded: seq<(Id, string)>)
  {
    var refs := RoundRefs(subgraph);
    && |f.ops| == |subgraph|
    && (forall k: nat {:trigger RoundOpForwarded(st, subgraph, f.ops, k)} ::
          k < |subgraph| ==> RoundOpForwarded(st, subgraph, f.ops, k))
    && InputsRight(st, f.inputs, origins, Origins(st, refs))
    && DecodersRight(st, f.inputs.Keys, f.decoders, decoded, Origins(st, refs))
    && f.inputs.Keys == BoundKeys(st, refs)
    && KeysOf(decoded) == DecodedKeys(st, refs)
  }

  /** `forward_refs`: it succeeds exactly when every reference can be forwarded in its turn. */
  method ForwardRefs(st: Store, subgraph: seq<PlanOp>)
    returns (r: Result<Forwarded, ForwardError>, ghost origins: map<Id, Origin>, ghost decoded: seq<(Id, string)>)
    requires st.results.Keys <= st.configs.Keys
    ensures r.Ok? <==> CanForwardFrom(st, RoundRefs(subgraph), 0)
    ensures r.Ok? ==> IsForwarding(st, subgraph, r.value, origins, decoded)
  {
    ghost var sources := Origins(st, RoundRefs(subgraph));
    var f := new Forwarder(st, sources);
    var ops: seq<PlanOp> := [];
    origins, decoded := map[], [];
    for i := 0 to |subgraph|
      invariant fresh(f) && f.Valid() && f.st == st && f.sources == sources
      invariant f.seen == RoundRefs(subgraph[..i]) && CanForwardFrom(st, f.seen, 0)
      invariant |ops| == i
      invariant forall k: nat {:trigger RoundOpForwarded(st, subgraph, ops, k)} ::
                  k < i ==> RoundOpForwarded(st, subgraph, ops, k)
    {
      ghost var sofar := ops;
      OpCovered(st, subgraph, i);
      RoundNext(st, subgraph, i);
      var op := f.ForwardOp(subgraph[i]);
      if op.Err? {
        return Err(op.error), origins, decoded;
      }
      ops := ops + [op.value];
      forall k: nat {:trigger RoundOpForwarded(st, subgraph, ops, k)} | k <= i ensures RoundOpForwarded(st, subgraph, ops, k) {
        assert k < i ==> RoundOpForwarded(st, subgraph, sofar, k);
      }
    }
    assert subgraph[..|subgraph|] == subgraph;
    origins, decoded := f.origins, f.decoded;
    r := Ok(Forwarded(ops, f.inputs, f.materializers));
  }

  /** One op more: the round so far can be forwarded if it could before and the op can. */
  lemma RoundNext(st: Store, subgraph: seq<PlanOp>, i: nat)
    requires i < |subgraph| && CanForwardFrom(st, RoundRefs(subgraph[..i]), 0)
    ensures
      var before := RoundRefs(subgraph[..i]);
      && RoundRefs(subgraph[..i + 1]) == before + RefsOfOp(subgraph[i])
      && (if CanForwardFrom(st, before + RefsOfOp(subgraph[i]), |before|) then CanForwardFrom(st, RoundRefs(subgraph[..i + 1]), 0)
          else !CanForwardFrom(st, RoundRefs(subgraph), 0))
  {
    var before := RoundRefs(subgraph[..i]);
    RoundRefsSplit(subgraph, i);
    CanForwardSplit(st, before, RefsOfOp(subgraph[i]), 0);
    if !CanForwardFrom(st, before + RefsOfOp(subgraph[i]), |before|) {
      RoundRefsPrefix(subgraph, i + 1);
      CannotForwardMore(st, RoundRefs(subgraph[..i + 1]), RoundRefs(subgraph));
    }
  }

  /** Every reference of the op could be forwarded if it were met first. */
  ghost predicate CanForwardOp(st: Store, op: PlanOp) {
    forall r :: r in RefsOfOp(op) ==> CanForwardAlone(st, r)
  }

  /** Unless one id stands for two references, forwarding succeeds exactly when every op can be forwarded. */
  lemma ForwardsOpByOp(st: Store, subgraph: seq<PlanOp>)
    requires KeysDetermine(st, RoundRefs(subgraph))
    ensures CanForwardFrom(st, RoundRefs(subgraph), 0) <==> forall op :: op in subgraph ==> CanForwardOp(st, op)
  {
    var refs := RoundRefs(subgraph);
    ForwardsOneByOne(st, refs, |refs|);
    assert refs[..|refs|] == refs;
    if forall op :: op in subgraph ==> CanForwardOp(st, op) {
      forall i | 0 <= i < |refs| ensures CanForwardAlone(st, refs[i]) {
        RoundRefsOnly(subgraph, refs[i]);
      }
    }
    if CanForwardFrom(st, refs, 0) {
      forall op, r | op in subgraph && r in RefsOfOp(op) ensures CanForwardAlone(st, r) {
        var i :| 0 <= i < |subgraph| && subgraph[i] == op;
        var k :| 0 <= k < |RefsOfOp(op)| && RefsOfOp(op)[k] == r;
        RoundRefsHas(subgraph, i, k);
      }
    }
  }

  /** The decoders' ids follow from the references. */
  lemma DecodersOfRound(
    st: Store, subgraph: seq<PlanOp>, f: Forwarded, origins: map<Id, Origin>, decoded: seq<(Id, string)>)
    requires IsForwarding(st, subgraph, f, origins, decoded)
    ensures OpIds(f.decoders) == DecoderIds(st, RoundRefs(subgraph))
  {
    DecoderIdsAre(st, f.inputs.Keys, f.decoders, decoded, Origins(st, RoundRefs(subgraph)));
  }

  /** A rewritten reference to an earlier result is a bound input or a decoder. */
  lemma RewrittenIsProvided(st: Store, subgraph: seq<PlanOp>, r: Reference)
    requires r in RoundRefs(subgraph) && Live(st, r) && r.Implicit?
    ensures ForwardedRef(st, r.ref) in BoundKeys(st, RoundRefs(subgraph)) || ForwardedRef(st, r.ref) in DecoderIds(st, RoundRefs(subgraph))
    ensures ForwardedRef(st, r.ref) == r.ref ==> r.ref in BoundKeys(st, RoundRefs(subgraph))
  {
    var refs := RoundRefs(subgraph);
    var i :| 0 <= i < |refs| && refs[i] == r;
    if NeedsDecoder(st, r) {
      assert AddsDecoder(st, refs, i);
      assert KeyFor(st, r) in DecodedKeys(st, refs);
      assert |ForwardedRef(st, r.ref)| > |r.ref|;
    }
  }
}
